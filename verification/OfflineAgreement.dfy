/** For each finished traversal of unchanged mailboxes: exactly when every offline traversal after
    it shows the same. */
module OfflineAgreement {
  import opened Wrappers
  import opened Ordering
  import opened MailSearch
  import opened PageMerge
  import opened Pagination
  import opened Traversal
  import opened HiddenMail
  import opened OfflineCache
  import opened CachedPages
  import opened CachedTraversal
  import opened ReadMail

  /** The offline traversals agree when the cache holds what the live one showed. */
  lemma {:induction false} AgreesWhenSame(s: Scope, calls: seq<Call>, cache: Cache)
    requires AllValid(s, calls) && Readable(s.connections, cache)
    ensures OfflineAgrees(s, calls, cache) <==> AllCached(s.connections, cache) == Outcome(s, calls).emitted
  {
    OneByOne(s.connections, cache);
    forall sizes: seq<nat> | ValidSizes(sizes) && !OfflineOutcome(s.connections, cache, sizes).more
      ensures OfflineOutcome(s.connections, cache, sizes).emitted == AllCached(s.connections, cache)
    {
      OfflineTraversal(s.connections, cache, sizes, |sizes|);
    }
  }

  lemma {:induction false} AllCachedMember(connections: seq<int>, cache: Cache, m: Message)
    requires Readable(connections, cache)
    ensures m in AllCached(connections, cache)
            <==> m.connection in connections && m in cache[m.connection].value.messages
  {
    OfflineRestFacts(connections, cache, map[]);
    assert m in AllCached(connections, cache) <==> InCache(connections, cache, map[], m);
  }

  /** Storing does not depend on the UIDVALIDITY that all pages share. */
  lemma {:induction false} HeldWhatever(s: Scope, calls: seq<Call>, states: seq<Progress>, i: nat, c: int,
                                        uidValidity: nat, m: Message)
    requires AllValid(s, calls) && i < |calls| && |states| == |calls| + 1 && c in s.connections
    ensures Held(Readings(s, calls, states, c, uidValidity), i, m) <==> Held(PagesOf(s, calls, states, c), i, m)
    decreases i
  {
    ReadingAt(s, calls, states, i, c, uidValidity);
    ReadingAt(s, calls, states, i, c, 0);
    if i > 0 { HeldWhatever(s, calls, states, i - 1, c, uidValidity, m); }
  }

  lemma {:induction false} UnchangingWhatever(s: Scope, calls: seq<Call>, states: seq<Progress>, c: int,
                                              uidValidity: nat, m: Message)
    requires AllValid(s, calls) && |states| == |calls| + 1 && c in s.connections
    requires Unchanging(PagesOf(s, calls, states, c), m)
    ensures Unchanging(Readings(s, calls, states, c, uidValidity), m)
  {
    var readings := Readings(s, calls, states, c, uidValidity);
    forall i | 0 <= i < |readings|
      ensures m in readings[i].result.messages || m.uid !in MessageUids(readings[i].result.messages)
    {
      ReadingAt(s, calls, states, i, c, uidValidity);
      ReadingAt(s, calls, states, i, c, 0);
      assert readings[i].result.messages == PagesOf(s, calls, states, c)[i].result.messages;
    }
  }

  lemma {:induction false} LeftHolds(s: Scope, w: World, calls: seq<Call>, states: seq<Progress>, uidValidity: nat,
                                     initial: Option<Entry>, m: Message)
    requires Ran(s, w, calls, states) && calls != [] && m.connection in s.connections
    ensures var entry := EntryLeft(s, calls, states, m.connection, uidValidity, initial);
            entry.Some? && (m in entry.value.messages <==> HeldAfter(s, calls, states, |calls| - 1, m))
  {
    var c, i := m.connection, |calls| - 1;
    ReadingsOfTraversal(s, w, calls, states, c, uidValidity);
    HeldWhatever(s, calls, states, i, c, uidValidity, m);
    if HeldAfter(s, calls, states, i, m) {
      HeldIsWanted(s, w, calls, states, i, m);
      PagesUnchanging(s, w, calls, states, m);
      UnchangingWhatever(s, calls, states, c, uidValidity, m);
    }
    EntryHolds(Readings(s, calls, states, c, uidValidity), i, initial, c, uidValidity, w.uidNext[c], m);
  }

  /** What the cache holds after a finished traversal. */
  lemma {:induction false} CachedIsHeld(s: Scope, w: World, calls: seq<Call>, uidValidity: map<int, nat>,
                                        initial: Cache, m: Message)
    requires AllValid(s, calls) && Ran(s, w, calls, States(s, calls)) && calls != []
    requires forall c :: c in s.connections ==> c in uidValidity && c in initial
    requires Readable(s.connections, CacheLeft(s, calls, uidValidity, initial))
    ensures m in AllCached(s.connections, CacheLeft(s, calls, uidValidity, initial))
            <==> HeldAfter(s, calls, States(s, calls), |calls| - 1, m)
  {
    AllCachedMember(s.connections, CacheLeft(s, calls, uidValidity, initial), m);
    if m.connection in s.connections {
      LeftHolds(s, w, calls, States(s, calls), uidValidity[m.connection], initial[m.connection], m);
    }
  }

  /** Some page hides a message that the connection's entry then holds. */
  ghost predicate HidesHeld(s: Scope, calls: seq<Call>, states: seq<Progress>, i: nat, m: Message)
    requires AllValid(s, calls) && i < |calls| && |states| == |calls| + 1
  {
    HidesAt(s, calls, states, i, m) && HeldAfter(s, calls, states, i, m)
  }

  lemma {:induction false} HidingHasCursor(s: Scope, w: World, calls: seq<Call>, states: seq<Progress>, i: nat,
                                           m: Message)
    requires Ran(s, w, calls, states) && i < |calls| && HidesAt(s, calls, states, i, m)
    ensures m.connection in s.connections && StateOf(states[i + 1].pos, m.connection).last.Some?
  {
    assert Goes(s, w, calls, states, i);
    RestFacts(s, w, states[i].pos);
    TurnOfConnection(s, states[i], calls[i], m.connection);
  }

  lemma {:induction false} HiddenNotShown(s: Scope, w: World, calls: seq<Call>, states: seq<Progress>, i: nat,
                                          m: Message)
    requires Ran(s, w, calls, states) && i < |calls| && HidesAt(s, calls, states, i, m)
    ensures m !in states[|calls|].emitted
  {
    HiddenAfter(s, w, calls, states, i, m);
    GoneForGood(s, w, calls, states, i + 1, |calls|, m);
  }

  lemma {:induction false} HiddenStaysHeld(s: Scope, w: World, calls: seq<Call>, states: seq<Progress>, i: nat,
                                           m: Message)
    requires Ran(s, w, calls, states) && i < |calls| && HeldAfter(s, calls, states, i, m)
    requires StateOf(states[i + 1].pos, m.connection).last.Some?
    ensures HeldAfter(s, calls, states, |calls| - 1, m)
  {
    ContinuedFrom(s, w, calls, states, i, m.connection);
    HeldOnwards(PagesOf(s, calls, states, m.connection), i, |calls| - 1, m);
  }

  /** What a page hides and the entry holds stays in the cache, and is never shown. */
  lemma {:induction false} HeldAndHidden(s: Scope, w: World, calls: seq<Call>, states: seq<Progress>, i: nat,
                                         m: Message)
    requires Ran(s, w, calls, states) && i < |calls| && HidesHeld(s, calls, states, i, m)
    ensures HeldAfter(s, calls, states, |calls| - 1, m) && m !in states[|calls|].emitted
  {
    HiddenNotShown(s, w, calls, states, i, m);
    HidingHasCursor(s, w, calls, states, i, m);
    HiddenStaysHeld(s, w, calls, states, i, m);
  }

  /** A message in the cache that the traversal did not show was hidden by a page after which
      the entry held it. */
  lemma {:induction false} UnshownWasHidden(s: Scope, w: World, calls: seq<Call>, states: seq<Progress>, m: Message)
    returns (i: nat)
    requires Ran(s, w, calls, states) && calls != [] && HeldAfter(s, calls, states, |calls| - 1, m)
    requires Gone(s, w, states[|calls|], m)
    ensures i < |calls| && HidesHeld(s, calls, states, i, m)
  {
    var j := HeldFrom(s, calls, states, |calls| - 1, m);
    ReadAtIsInReach(s, w, calls, states, j, m.connection, m);
    i := LostIsHidden(s, w, calls, states, j, |calls|, m);
    ReadIsHeld(s, calls, states, j, m);
    HeldOnwards(PagesOf(s, calls, states, m.connection), j, i, m);
  }

  /** No page of a traversal hides a message that the entry then holds. */
  ghost predicate HidesNothingHeld(s: Scope, calls: seq<Call>)
    requires AllValid(s, calls)
  {
    forall i, m :: 0 <= i < |calls| ==> !HidesHeld(s, calls, States(s, calls), i, m)
  }

  lemma {:induction false} SameMembers(s: Scope, w: World, calls: seq<Call>, states: seq<Progress>, m: Message)
    requires Ran(s, w, calls, states) && calls != [] && !states[|calls|].more
    requires forall i :: 0 <= i < |calls| ==> !HidesHeld(s, calls, states, i, m)
    ensures HeldAfter(s, calls, states, |calls| - 1, m) <==> m in states[|calls|].emitted
  {
    if m in states[|calls|].emitted {
      ShownIsHeld(s, w, calls, states, |calls| - 1, m);
    } else if HeldAfter(s, calls, states, |calls| - 1, m) {
      NothingLeftAtEnd(s, w, calls, states);
      var i := UnshownWasHidden(s, w, calls, states, m);
    }
  }

  lemma {:induction false} LastTurn(s: Scope, p: Progress, call: Call)
    requires ValidCall(s, call) && !Turn(s, p, call).more
    ensures Rest(s, call.world, Turn(s, p, call).pos) == []
  {
    var left := Rest(s, call.world, Turn(s, p, call).pos);
    PageBegins(s, p, call);
    if left != [] { TurnOfMessage(s, p, call, left[0]); }
  }

  lemma {:induction false} NothingLeftAtEnd(s: Scope, w: World, calls: seq<Call>, states: seq<Progress>)
    requires Ran(s, w, calls, states) && calls != [] && !states[|calls|].more
    ensures Rest(s, w, states[|calls|].pos) == []
  {
    var n := |calls| - 1;
    assert Goes(s, w, calls, states, n);
    LastTurn(s, states[n], calls[n]);
  }

  /** Exactly when a finished traversal of unchanged mailboxes agrees with every finished offline
      one after it, over anything cached before: when no page of it hides a message that the
      connection's entry holds. */
  lemma {:induction false} AgreesExactly(s: Scope, w: World, calls: seq<Call>, uidValidity: map<int, nat>,
                                         initial: Cache)
    requires ValidScope(s) && ValidWorld(s, w) && Finished(s, w, calls)
    requires forall c :: c in s.connections ==> c in uidValidity && c in initial
    ensures OfflineAgrees(s, calls, CacheLeft(s, calls, uidValidity, initial)) <==> HidesNothingHeld(s, calls)
  {
    var cache, states := CacheLeft(s, calls, uidValidity, initial), States(s, calls);
    FinishedRan(s, w, calls);
    LeftReadable(s, w, calls, uidValidity, initial);
    AgreesWhenSame(s, calls, cache);
    if HidesNothingHeld(s, calls) {
      forall m ensures m in AllCached(s.connections, cache) <==> m in Outcome(s, calls).emitted {
        CachedIsHeld(s, w, calls, uidValidity, initial, m);
        SameMembers(s, w, calls, states, m);
      }
      OfflineRestFacts(s.connections, cache, map[]);
      SoundState(s, w, calls, states, |calls|);
      StrictUnique(AllCached(s.connections, cache), Outcome(s, calls).emitted, ByOrder);
    } else {
      var i, m :| 0 <= i < |calls| && HidesHeld(s, calls, states, i, m);
      HeldAndHidden(s, w, calls, states, i, m);
      CachedIsHeld(s, w, calls, uidValidity, initial, m);
    }
  }
}
