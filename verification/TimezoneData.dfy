/** Zone transitions of a VTIMEZONE, compacted, indexed by type and written as a TZif file
    (section 3 of RFC 8536), with a decoder to read it back. */
module TimezoneData {
  import opened Wrappers

  datatype Transition = Transition(at: int, offsetFrom: int, offsetTo: int, daylight: bool, name: Bytes)

  datatype ZoneType = ZoneType(offset: int, daylight: bool, name: Bytes)

  // ----- compaction -------------------------------------------------------------------------------

  /** Of each run of equal times, the last. */
  function LastOfRuns(values: seq<Transition>): seq<Transition> {
    if values == [] then []
    else if |values| > 1 && values[0].at == values[1].at then LastOfRuns(values[1..])
    else [values[0]] + LastOfRuns(values[1..])
  }

  /** The last transition of a time. */
  function LastWith(values: seq<Transition>, at: int): Option<Transition> {
    if values == [] then None
    else if LastWith(values[1..], at).Some? then LastWith(values[1..], at)
    else if values[0].at == at then Some(values[0]) else None
  }

  ghost predicate Ascending(values: seq<Transition>) {
    forall i, j :: 0 <= i < j < |values| ==> values[i].at <= values[j].at
  }

  ghost predicate StrictlyAscending(values: seq<Transition>) {
    forall i, j :: 0 <= i < j < |values| ==> values[i].at < values[j].at
  }

  lemma {:induction false} LastWithExists(values: seq<Transition>, at: int)
    ensures LastWith(values, at).Some? <==> exists i :: 0 <= i < |values| && values[i].at == at
  {
    if values != [] {
      LastWithExists(values[1..], at);
      if i :| 1 <= i < |values| && values[i].at == at {
        assert values[1..][i - 1].at == at;
      }
    }
  }

  lemma {:induction false} RunsWithin(values: seq<Transition>)
    ensures forall t :: t in LastOfRuns(values) ==> t in values
  {
    if values != [] {
      RunsWithin(values[1..]);
    }
  }

  lemma {:induction false} LaterThanFirst(values: seq<Transition>)
    requires Ascending(values) && values != [] && (|values| > 1 ==> values[0].at != values[1].at)
    ensures forall t :: t in values[1..] ==> values[0].at < t.at
  {
    forall t | t in values[1..] ensures values[0].at < t.at {
      var i :| 1 <= i < |values| && values[i] == t;
      assert values[0].at <= values[1].at <= values[i].at;
    }
  }

  lemma {:induction false} ConsStrict(first: Transition, kept: seq<Transition>)
    requires StrictlyAscending(kept) && forall t :: t in kept ==> first.at < t.at
    ensures StrictlyAscending([first] + kept)
  {
  }

  /** Over ascending times what remains is strictly ascending, and is exactly the last
      transition of every time. */
  lemma {:induction false} LastOfRunsFacts(values: seq<Transition>)
    requires Ascending(values)
    ensures StrictlyAscending(LastOfRuns(values))
    ensures forall t :: t in LastOfRuns(values) <==> LastWith(values, t.at) == Some(t)
  {
    if values != [] {
      var first, rest := values[0], values[1..];
      LastOfRunsFacts(rest);
      LastWithExists(rest, first.at);
      if rest != [] && first.at == rest[0].at {
      } else {
        RunsWithin(rest);
        LaterThanFirst(values);
        ConsStrict(first, LastOfRuns(rest));
      }
    }
  }

  /** One more transition replaces the last one kept if their times are equal. */
  lemma {:induction false} RunsAppend(values: seq<Transition>, next: Transition)
    ensures values != [] ==>
              LastOfRuns(values) != [] && LastOfRuns(values)[|LastOfRuns(values)| - 1] == values[|values| - 1]
    ensures LastOfRuns(values + [next])
            == (if values != [] && values[|values| - 1].at == next.at
                then LastOfRuns(values)[..|LastOfRuns(values)| - 1] else LastOfRuns(values)) + [next]
  {
    if values != [] {
      RunsAppend(values[1..], next);
      assert (values + [next])[1..] == values[1..] + [next];
      if |values| == 1 {
        assert values[1..] == [] && LastOfRuns([next]) == [next];
      } else {
        assert values[1..][|values| - 2] == values[|values| - 1];
      }
    }
  }

  /** The loop that reuses its own slice: the prefix `kept` is written while the rest is read. */
  method DeduplicateTransitions(values: array<Transition>) returns (kept: nat)
    modifies values
    ensures kept <= values.Length && values[..kept] == LastOfRuns(old(values[..]))
  {
    ghost var original := values[..];
    ghost var done: seq<Transition> := [];
    kept := 0;
    for i := 0 to values.Length
      invariant 0 <= kept <= i && |done| == kept && done == LastOfRuns(original[..i])
      invariant forall k :: 0 <= k < kept ==> values[k] == done[k]
      invariant forall k :: i <= k < values.Length ==> values[k] == original[k]
    {
      var value := values[i];
      assert original[..i + 1] == original[..i] + [value];
      RunsAppend(original[..i], value);
      if kept > 0 && values[kept - 1].at == value.at {
        done := done[..kept - 1] + [value];
        values[kept - 1] := value;
      } else {
        done := done + [value];
        values[kept] := value;
        kept := kept + 1;
      }
    }
    assert original[..values.Length] == original;
    assert values[..kept] == done;
  }

  // ----- type indexes -------------------------------------------------------------------------------

  const STD: Bytes := [83, 84, 68]
  const DST: Bytes := [68, 83, 84]

  function KindOf(t: Transition): ZoneType {
    ZoneType(t.offsetTo, t.daylight, if t.name != [] then t.name else if t.daylight then DST else STD)
  }

  function InitialType(first: Transition): ZoneType { ZoneType(first.offsetFrom, !first.daylight, STD) }

  /** What is in force from a transition on: its new offset and flag, and its name or, without
      one, "DST" or "STD". */
  ghost predicate ChangesTo(kind: ZoneType, t: Transition) {
    && kind.offset == t.offsetTo && kind.daylight == t.daylight
    && kind.name == if t.name != [] then t.name else if t.daylight then [68, 83, 84] else [83, 84, 68]
  }

  /** What is in force before the first transition: its old offset, the opposite flag, "STD". */
  ghost predicate ChangesFrom(kind: ZoneType, first: Transition) {
    kind.offset == first.offsetFrom && kind.daylight == !first.daylight && kind.name == [83, 84, 68]
  }

  lemma KindsMean(t: Transition, kind: ZoneType)
    ensures ChangesTo(kind, t) <==> kind == KindOf(t)
    ensures ChangesFrom(kind, t) <==> kind == InitialType(t)
  {
  }

  /** The types of a zone in the order they come into force, each once. */
  ghost predicate InOrderOfUse(types: seq<ZoneType>, first: Transition, transitions: seq<Transition>) {
    && types != [] && ChangesFrom(types[0], first)
    && (forall i, j :: 0 <= i < j < |types| ==> types[i] != types[j])
    && (forall t :: t in transitions ==> AmongFirst(types, |types|, t))
    && (forall k :: 1 <= k < |types| ==> IsNew(types, k, transitions))
  }

  ghost predicate AmongFirst(types: seq<ZoneType>, count: nat, t: Transition)
    requires count <= |types|
  {
    exists k :: 0 <= k < count && ChangesTo(types[k], t)
  }

  /** Some transition changes to type k, and all before it to earlier types. */
  ghost predicate IsNew(types: seq<ZoneType>, k: nat, transitions: seq<Transition>)
    requires k < |types|
  {
    exists i :: 0 <= i < |transitions| && ChangesTo(types[k], transitions[i])
                && forall t :: t in transitions[..i] ==> AmongFirst(types, k, t)
  }

  datatype Failure = NoTransitions | TooManyTypes | AbbreviationsTooLarge

  datatype Indexed = Indexed(types: seq<ZoneType>, indexes: Bytes)

  /** Each transition's index names its type; the types are distinct and start with the one in
      force before the first transition. */
  ghost predicate IndexedFor(transitions: seq<Transition>, initial: ZoneType, types: seq<ZoneType>, indexes: Bytes) {
    && types != [] && types[0] == initial && |indexes| == |transitions|
    && (forall i, j :: 0 <= i < j < |types| ==> types[i] != types[j])
    && (forall i {:trigger indexes[i]} :: 0 <= i < |transitions| ==>
          indexes[i] as int < |types| && types[indexes[i] as int] == KindOf(transitions[i]))
    && (forall k :: 1 <= k < |types| ==> exists i :: 0 <= i < |transitions| && KindOf(transitions[i]) == types[k])
  }

  method FindType(types: seq<ZoneType>, kind: ZoneType) returns (index: int)
    ensures index == -1 <==> kind !in types
    ensures index != -1 ==> 0 <= index < |types| && types[index] == kind
  {
    for candidate := 0 to |types|
      invariant kind !in types[..candidate]
    {
      if types[candidate] == kind {
        return candidate;
      }
    }
    assert types[..|types|] == types;
    return -1;
  }

  function AddType(types: seq<ZoneType>, kind: ZoneType): seq<ZoneType> {
    if kind in types then types else types + [kind]
  }

  /** The initial type and those of the transitions, each where it first comes into force. */
  function TypesOf(initial: ZoneType, transitions: seq<Transition>): seq<ZoneType> {
    if transitions == [] then [initial]
    else AddType(TypesOf(initial, transitions[..|transitions| - 1]), KindOf(transitions[|transitions| - 1]))
  }

  lemma {:induction false} TypesGrow(initial: ZoneType, transitions: seq<Transition>, n: nat)
    requires n <= |transitions|
    ensures TypesOf(initial, transitions[..n]) <= TypesOf(initial, transitions)
  {
    if n < |transitions| {
      var before := transitions[..|transitions| - 1];
      assert before[..n] == transitions[..n];
      TypesGrow(initial, before, n);
    } else {
      assert transitions[..n] == transitions;
    }
  }

  lemma {:induction false} TypesNext(initial: ZoneType, transitions: seq<Transition>, n: nat)
    requires n < |transitions|
    ensures transitions[..n + 1] == transitions[..n] + [transitions[n]]
    ensures TypesOf(initial, transitions[..n + 1])
            == AddType(TypesOf(initial, transitions[..n]), KindOf(transitions[n]))
  {
    assert transitions[..n + 1][..n] == transitions[..n];
  }

  lemma {:induction false} NewStays(types: seq<ZoneType>, grown: seq<ZoneType>, k: nat, before: seq<Transition>,
                                    transitions: seq<Transition>)
    requires k < |types| && types <= grown && before <= transitions && IsNew(types, k, before)
    ensures IsNew(grown, k, transitions)
  {
    var i :| 0 <= i < |before| && ChangesTo(types[k], before[i])
             && forall t :: t in before[..i] ==> AmongFirst(types, k, t);
    assert transitions[..i] == before[..i] && transitions[i] == before[i] && grown[k] == types[k];
    forall t | t in transitions[..i] ensures AmongFirst(grown, k, t) {
      var e :| 0 <= e < k && ChangesTo(types[e], t);
      assert grown[e] == types[e];
    }
  }

  lemma {:induction false} AmongStays(types: seq<ZoneType>, grown: seq<ZoneType>, before: seq<Transition>)
    requires types <= grown && forall t :: t in before ==> AmongFirst(types, |types|, t)
    ensures forall t :: t in before ==> AmongFirst(grown, |grown|, t)
  {
    forall t | t in before ensures AmongFirst(grown, |grown|, t) {
      var e :| 0 <= e < |types| && ChangesTo(types[e], t);
      assert grown[e] == types[e];
    }
  }

  lemma {:induction false} LastIsNew(known: seq<ZoneType>, before: seq<Transition>, last: Transition)
    requires forall t :: t in before ==> AmongFirst(known, |known|, t)
    ensures IsNew(known + [KindOf(last)], |known|, before + [last])
  {
    var types, transitions := known + [KindOf(last)], before + [last];
    KindsMean(last, KindOf(last));
    assert transitions[..|before|] == before && ChangesTo(types[|known|], transitions[|before|]);
    forall t | t in before ensures AmongFirst(types, |known|, t) {
      var e :| 0 <= e < |known| && ChangesTo(known[e], t);
      assert types[e] == known[e];
    }
  }

  lemma {:induction false} TypesInOrder(first: Transition, transitions: seq<Transition>)
    ensures InOrderOfUse(TypesOf(InitialType(first), transitions), first, transitions)
  {
    var types := TypesOf(InitialType(first), transitions);
    if transitions != [] {
      var before, last := transitions[..|transitions| - 1], transitions[|transitions| - 1];
      var known := TypesOf(InitialType(first), before);
      TypesInOrder(first, before);
      KindsMean(last, KindOf(last));
      AmongStays(known, types, before);
      assert transitions == before + [last];
      var k :| 0 <= k < |types| && types[k] == KindOf(last);
      assert ChangesTo(types[k], last);
      forall k | 1 <= k < |types| ensures IsNew(types, k, transitions) {
        if k < |known| {
          NewStays(known, types, k, before, transitions);
        } else {
          LastIsNew(known, before, last);
        }
      }
    }
  }

  /** One more transition, of a known type or a new one. */
  lemma {:induction false} IndexNext(done: seq<Transition>, t: Transition, initial: ZoneType, types: seq<ZoneType>,
                                     grown: seq<ZoneType>, indexes: Bytes, typeIndex: byte)
    requires IndexedFor(done, initial, types, indexes)
    requires grown == types || (KindOf(t) !in types && grown == types + [KindOf(t)])
    requires typeIndex as int < |grown| && grown[typeIndex as int] == KindOf(t)
    ensures IndexedFor(done + [t], initial, grown, indexes + [typeIndex])
  {
    var all := done + [t];
    assert all[|done|] == t;
    forall k | 1 <= k < |grown| ensures exists i :: 0 <= i < |all| && KindOf(all[i]) == grown[k] {
      if k < |types| {
        var i :| 0 <= i < |done| && KindOf(done[i]) == types[k];
        assert KindOf(all[i]) == grown[k];
      } else {
        assert KindOf(all[|done|]) == grown[k];
      }
    }
  }

  /** The type-indexing loop. It fails exactly when there are no transitions or more than 256
      types. */
  method IndexTypes(transitions: seq<Transition>) returns (result: Result<Indexed, Failure>)
    ensures transitions == [] <==> result == Err(NoTransitions)
    ensures transitions != [] ==>
              var types := TypesOf(InitialType(transitions[0]), transitions);
              && InOrderOfUse(types, transitions[0], transitions)
              && (result == Err(TooManyTypes) <==> |types| > 256)
              && (result.Ok? <==> |types| <= 256) && (result.Ok? ==> result.value.types == types)
    ensures result.Ok? ==>
              IndexedFor(transitions, InitialType(transitions[0]), result.value.types, result.value.indexes)
  {
    if transitions == [] {
      return Err(NoTransitions);
    }
    var initial := InitialType(transitions[0]);
    var types := [initial];
    var indexes: Bytes := [];
    for index := 0 to |transitions|
      invariant types == TypesOf(initial, transitions[..index])
      invariant IndexedFor(transitions[..index], initial, types, indexes) && |types| <= 256
    {
      ghost var before := types;
      var typeIndex;
      types, typeIndex := FindOrAddType(types, KindOf(transitions[index]));
      TypesNext(initial, transitions, index);
      if typeIndex > 255 {
        TypesGrow(initial, transitions, index + 1);
        TypesInOrder(transitions[0], transitions);
        return Err(TooManyTypes);
      }
      IndexNext(transitions[..index], transitions[index], initial, before, types, indexes, typeIndex as byte);
      indexes := indexes + [typeIndex as byte];
    }
    assert transitions[..|transitions|] == transitions;
    TypesInOrder(transitions[0], transitions);
    return Ok(Indexed(types, indexes));
  }

  method FindOrAddType(types: seq<ZoneType>, kind: ZoneType) returns (grown: seq<ZoneType>, index: nat)
    ensures grown == AddType(types, kind)
    ensures index < |grown| && grown[index] == kind && (kind !in types ==> index == |types|)
  {
    var found := FindType(types, kind);
    if found < 0 {
      return types + [kind], |types|;
    }
    return types, found;
  }
}
