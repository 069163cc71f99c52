/** Rekeying in keychain mode, one process at a time, with a crash possible between any two
    steps. The key in force lives in two places, the database and the keychain, and they
    cannot change together; a recovery record bridges the gap. */
module RekeyRecovery {
  import opened Wrappers
  import opened SealedStorage

  /** What the running process is about to do. */
  datatype Pending =
    | Nothing
    | ActivateAfterRekey(key: Bytes)
    | ActivateAfterRecovery(key: Bytes)
    | DropRecord

  /** The durable state is the database and the keychain; the rest is lost in a crash. */
  datatype Machine = Machine(db: Database, keychain: Bytes, handle: Option<Bytes>, pending: Pending)

  datatype Event =
    | Crash
    | StartOpen
    | CommitRekey(newKey: Bytes)
    | SetCredential(succeeds: bool)
    | DeleteRecord(succeeds: bool)
    | Write(entry: Entry, value: Bytes)
    | WriteRecord(tokenHash: int, plain: Bytes)

  /** The key recoverRekeyKey extracts with the keychain key. */
  function RecoveredKey(m: Machine): Option<Bytes> {
    if m.db.recovery.None? then None
    else match Open(m.keychain, m.db.recovery.value, RecoveryAad)
      case Some(key) => if |key| == KEY_SIZE then Some(key) else None
      case None => None
  }

  /** The key the next Open ends up with, if it succeeds: the keychain's when it opens the
      marker, else the recovered one when that does. */
  function ObtainedKey(m: Machine): Option<Bytes> {
    if |m.keychain| == KEY_SIZE && KeyCurrent(m.db, m.keychain) then Some(m.keychain)
    else match RecoveredKey(m)
      case Some(key) => if KeyCurrent(m.db, key) then Some(key) else None
      case None => None
  }

  function Crashed(m: Machine): Machine { m.(handle := None, pending := Nothing) }

  /** Open up to its first side effect. */
  function StartedOpen(m: Machine): Machine {
    match ObtainedKey(m)
    case None => Crashed(m)
    case Some(key) =>
      if key == m.keychain then m.(handle := Some(key), pending := DropRecord)
      else m.(handle := Some(key), pending := ActivateAfterRecovery(key))
  }

  /** The credential call: on failure Rekey returns an error and keeps running under the new
      key, while Open closes the store. */
  function CredentialSet(m: Machine, key: Bytes, succeeds: bool): Machine {
    if succeeds then m.(keychain := key, pending := DropRecord)
    else if m.pending.ActivateAfterRekey? then m.(pending := Nothing)
    else Crashed(m)
  }

  function Step(m: Machine, e: Event): Machine {
    match e
    case Crash => Crashed(m)
    case StartOpen => if m.handle.None? then StartedOpen(m) else m
    case CommitRekey(newKey) =>
      if m.handle.Some? && m.pending.Nothing? && RekeyTx(m.db, m.handle.value, newKey, true).Ok?
      then m.(db := RekeyTx(m.db, m.handle.value, newKey, true).value, handle := Some(newKey),
              pending := ActivateAfterRekey(newKey))
      else m
    case SetCredential(succeeds) =>
      if m.pending.ActivateAfterRekey? || m.pending.ActivateAfterRecovery?
        then CredentialSet(m, m.pending.key, succeeds) else m
    case DeleteRecord(succeeds) =>
      if m.pending.DropRecord? then m.(db := if succeeds then m.db.(recovery := None) else m.db, pending := Nothing)
      else m
    case Write(entry, value) =>
      if m.handle.Some? && m.pending.Nothing? && PutEntry(m.db, m.handle.value, entry, value).Ok?
      then m.(db := PutEntry(m.db, m.handle.value, entry, value).value) else m
    case WriteRecord(tokenHash, plain) =>
      if m.handle.Some? && m.pending.Nothing? && WriteOperation(m.db, m.handle.value, tokenHash, plain).Ok?
      then m.(db := WriteOperation(m.db, m.handle.value, tokenHash, plain).value) else m
  }

  function Start(key: Bytes): Machine { Machine(Created(key).db, key, None, Nothing) }

  function Run(key: Bytes, events: seq<Event>): Machine {
    if events == [] then Start(key) else Step(Run(key, events[..|events| - 1]), events[|events| - 1])
  }

  /** Every rekey starts while the keychain still holds the key of the handle that rekeys. */
  predicate InStep(m: Machine, e: Event) {
    e.CommitRekey? && m.handle.Some? ==> m.keychain == m.handle.value
  }

  ghost predicate EachRekeyInStep(key: Bytes, events: seq<Event>) {
    forall n :: 0 <= n < |events| ==> InStep(Run(key, events[..n]), events[n])
  }

  /** The handle works under the key in force, the keychain or the record gives that key, and
      the record is not dropped before the keychain does. */
  ghost predicate Accessible(m: Machine) {
    && DatabaseOk(m.db) && |m.db.marker.key| == KEY_SIZE && |m.keychain| == KEY_SIZE
    && (m.handle.Some? ==> m.handle.value == m.db.marker.key)
    && (m.handle.None? ==> m.pending.Nothing?)
    && (m.pending.ActivateAfterRekey? || m.pending.ActivateAfterRecovery? ==> m.pending.key == m.db.marker.key)
    && (m.pending.DropRecord? ==> m.keychain == m.db.marker.key)
    && (m.keychain == m.db.marker.key || RecoveredKey(m) == Some(m.db.marker.key))
  }

  lemma {:induction false} StepKeepsAccess(m: Machine, e: Event)
    requires Accessible(m) && InStep(m, e)
    ensures Accessible(Step(m, e))
  {
    match e
    case CommitRekey(newKey) =>
      if m.handle.Some? && RekeyTx(m.db, m.handle.value, newKey, true).Ok? {
        PlainContentsHold(m.db);
        RekeyHolds(m.db, m.handle.value, newKey, true, PlainContents(m.db));
      }
    case Write(entry, value) =>
      if m.handle.Some? {
        PlainContentsHold(m.db);
        PutEntryHolds(m.db, m.handle.value, entry, value, PlainContents(m.db));
      }
    case _ =>
  }

  /** A crash at any point of any run still lets the next Open obtain the key in force. */
  lemma {:induction false} CrashLeavesKeyObtainable(key: Bytes, events: seq<Event>)
    requires |key| == KEY_SIZE && EachRekeyInStep(key, events)
    ensures var m := Run(key, events);
            Accessible(m) && ObtainedKey(Crashed(m)) == Some(m.db.marker.key)
  {
    if events != [] {
      var before := events[..|events| - 1];
      assert forall n :: 0 <= n < |before| ==> before[..n] == events[..n];
      CrashLeavesKeyObtainable(key, before);
      assert InStep(Run(key, events[..|events| - 1]), events[|events| - 1]);
      StepKeepsAccess(Run(key, before), events[|events| - 1]);
    }
  }

  /** When a rekey may start: after its commit the key is obtainable if and only if the
      keychain holds the old key of the handle or already the new one. */
  lemma {:induction false} RekeySafeExactlyInStep(m: Machine, newKey: Bytes)
    requires DatabaseOk(m.db) && m.handle.Some? && m.pending.Nothing? && |m.keychain| == KEY_SIZE
    requires RekeyTx(m.db, m.handle.value, newKey, true).Ok?
    ensures var crashed := Crashed(Step(m, CommitRekey(newKey)));
            ObtainedKey(crashed) == Some(newKey) <==> m.keychain == m.handle.value || m.keychain == newKey
  {
    var after := Step(m, CommitRekey(newKey));
    assert after.db.recovery == Some(Seal(m.handle.value, newKey, RecoveryAad));
  }

  /** A second rekey after a failed activation, in the same process, seals its record under a
      key the keychain never had: a crash then locks the database. */
  lemma {:induction false} SecondRekeyLocksOut(first: Bytes, second: Bytes, third: Bytes)
    requires |first| == |second| == |third| == KEY_SIZE
    requires first != second && second != third && first != third
    ensures ObtainedKey(Run(first,
                            [StartOpen, DeleteRecord(true), CommitRekey(second), SetCredential(false),
                             CommitRekey(third), Crash])) == None
  {
    var all := [StartOpen, DeleteRecord(true), CommitRekey(second), SetCredential(false), CommitRekey(third), Crash];
    assert Run(first, all[..0]) == Start(first);
    forall n | 0 <= n < 6 ensures Run(first, all[..n + 1]) == Step(Run(first, all[..n]), all[n]) {
      assert all[..n + 1][..n] == all[..n];
    }
    var db := Created(first).db;
    var once := RekeyTx(db, first, second, true).value;
    var twice := RekeyTx(once, second, third, true).value;
    assert Run(first, all[..1]) == Machine(db, first, Some(first), DropRecord);
    assert Run(first, all[..2]) == Machine(db, first, Some(first), Nothing);
    assert Run(first, all[..3]) == Machine(once, first, Some(second), ActivateAfterRekey(second));
    assert Run(first, all[..4]) == Machine(once, first, Some(second), Nothing);
    assert Run(first, all[..5]) == Machine(twice, first, Some(third), ActivateAfterRekey(third));
    assert Run(first, all[..6]) == Machine(twice, first, None, Nothing);
    assert all[..6] == all;
  }

  // ----- what each operation comes to -------------------------------------------------------------

  /** The keychain's key or the one sealed for it in the recovery record, if that is the key of
      32 bytes the database is sealed under; any other is refused. */
  lemma {:induction false} ObtainedExactly(m: Machine, key: Bytes)
    requires DatabaseOk(m.db)
    ensures ObtainedKey(m) == Some(key)
            <==> |key| == 32 && key == m.db.marker.key
                 && (key == m.keychain || m.db.recovery == Some(Seal(m.keychain, key, RecoveryAad)))
    ensures RecoveredKey(m) == Some(key) <==> |key| == 32 && m.db.recovery == Some(Seal(m.keychain, key, RecoveryAad))
  {
  }

  function After(m: Machine, events: seq<Event>): Machine
    decreases |events|
  {
    if events == [] then m else After(Step(m, events[0]), events[1..])
  }

  lemma {:induction false} AfterThree(m: Machine, a: Event, b: Event, c: Event)
    ensures After(m, [a, b, c]) == Step(Step(Step(m, a), b), c)
  {
    assert [a, b, c][1..] == [b, c] && [b, c][1..] == [c] && [c][1..] == [];
    assert After(m, [a, b, c]) == After(Step(m, a), [b, c]);
    assert After(Step(m, a), [b, c]) == After(Step(Step(m, a), b), [c]);
  }

  /** A run begins with a new database whose key is in the keychain, and goes on step by step. */
  lemma {:induction false} RunsStepByStep(key: Bytes, before: seq<Event>, events: seq<Event>)
    ensures var first := Run(key, []);
            first.keychain == key && first.db.marker.key == key && first.handle.None? && first.pending.Nothing?
    ensures Run(key, before + events) == After(Run(key, before), events)
    decreases |events|
  {
    if events == [] {
      assert before + events == before;
    } else {
      assert (before + [events[0]])[..|before|] == before;
      assert before + [events[0]] + events[1..] == before + events;
      RunsStepByStep(key, before + [events[0]], events[1..]);
    }
  }

  /** Open and idle under a key that database and keychain agree on. */
  ghost predicate Settled(m: Machine, key: Bytes) {
    && DatabaseOk(m.db) && m.db.marker.key == key && m.keychain == key
    && m.handle == Some(key) && m.pending.Nothing?
  }

  /** The same cached values and operation records, under this key. */
  ghost predicate SameContents(db: Database, next: Database, key: Bytes)
    requires DatabaseOk(db)
  {
    Holds(next, PlainContents(db).(key := key))
  }

  lemma {:induction false} Commits(m: Machine, newKey: Bytes)
    requires DatabaseOk(m.db) && m.handle == Some(m.db.marker.key) && m.pending.Nothing? && |newKey| == 32
    ensures var next := Step(m, CommitRekey(newKey));
            && DatabaseOk(next.db) && next.db.marker.key == newKey && SameContents(m.db, next.db, newKey)
            && next.db.recovery == Some(Seal(m.db.marker.key, newKey, RecoveryAad))
            && next.keychain == m.keychain && next.handle == Some(newKey)
            && next.pending == ActivateAfterRekey(newKey)
  {
    PlainContentsHold(m.db);
    RekeyHolds(m.db, m.db.marker.key, newKey, true, PlainContents(m.db));
  }

  /** A rekey whose activation succeeds: the new key everywhere, the same contents, and no record
      left behind. */
  lemma {:induction false} RekeySettles(m: Machine, key: Bytes, newKey: Bytes)
    requires Settled(m, key) && |newKey| == 32
    ensures var next := After(m, [CommitRekey(newKey), SetCredential(true), DeleteRecord(true)]);
            Settled(next, newKey) && next.db.recovery == None && SameContents(m.db, next.db, newKey)
  {
    AfterThree(m, CommitRekey(newKey), SetCredential(true), DeleteRecord(true));
    Commits(m, newKey);
    Activates(m.db, Step(m, CommitRekey(newKey)), newKey);
  }

  lemma {:induction false} Activates(before: Database, m: Machine, newKey: Bytes)
    requires DatabaseOk(before) && DatabaseOk(m.db) && m.db.marker.key == newKey
    requires SameContents(before, m.db, newKey)
    requires m.handle == Some(newKey) && m.pending == ActivateAfterRekey(newKey)
    ensures var next := Step(Step(m, SetCredential(true)), DeleteRecord(true));
            Settled(next, newKey) && next.db.recovery == None && SameContents(before, next.db, newKey)
  {
  }

  /** One whose activation fails keeps running under the new key, and the next process recovers
      it: the keychain ends up with the new key and the record is gone. */
  lemma {:induction false} FailedRekeyRecovers(m: Machine, key: Bytes, newKey: Bytes)
    requires Settled(m, key) && |key| == |newKey| == 32 && key != newKey
    ensures var failed := Step(Step(m, CommitRekey(newKey)), SetCredential(false));
            var next := After(Step(failed, Crash), [StartOpen, SetCredential(true), DeleteRecord(true)]);
            && failed.handle == Some(newKey) && failed.pending.Nothing? && failed.keychain == key
            && SameContents(m.db, failed.db, newKey)
            && Settled(next, newKey) && next.db.recovery == None && SameContents(m.db, next.db, newKey)
  {
    Commits(m, newKey);
    var failed := Step(Step(m, CommitRekey(newKey)), SetCredential(false));
    AfterThree(Step(failed, Crash), StartOpen, SetCredential(true), DeleteRecord(true));
    ObtainedExactly(Step(failed, Crash), newKey);
  }

  /** Recovering with a keychain that refuses the key closes the store and loses nothing. */
  lemma {:induction false} RefusedRecoveryCloses(m: Machine, key: Bytes)
    requires DatabaseOk(m.db) && m.handle.None? && ObtainedKey(m) == Some(key) && key != m.keychain
    ensures Step(Step(m, StartOpen), SetCredential(false)) == m.(pending := Nothing)
  {
  }

  /** Opening with a keychain that has the key in force drops the record, or leaves it when that
      fails; either way the store runs. */
  lemma {:induction false} OpenSettles(m: Machine, dropped: bool)
    requires DatabaseOk(m.db) && m.handle.None? && m.keychain == m.db.marker.key && |m.keychain| == 32
    ensures var next := Step(Step(m, StartOpen), DeleteRecord(dropped));
            && Settled(next, m.keychain)
            && next.db == m.db.(recovery := if dropped then None else m.db.recovery)
  {
  }

  /** A store that is running is not opened again, and a key of another size or under a stale
      handle changes nothing. */
  lemma {:induction false} RefusedChangesNothing(m: Machine, newKey: Bytes)
    requires DatabaseOk(m.db) && m.handle.Some?
    ensures Step(m, StartOpen) == m
    ensures |newKey| != 32 || m.handle.value != m.db.marker.key ==> Step(m, CommitRekey(newKey)) == m
  {
  }
}
