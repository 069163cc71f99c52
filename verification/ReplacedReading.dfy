/** A page may hide a message that an earlier page read, and the offline cache agrees with the
    traversal all the same: a connection that had shown nothing begins its entry anew. */
module ReplacedReading {
  import opened Wrappers
  import opened Ordering
  import opened MailSearch
  import opened PageMerge
  import opened Pagination
  import opened Traversal
  import opened HiddenMail
  import opened OfflineCache
  import opened CachedTraversal
  import opened ReadMail
  import opened OfflineAgreement

  /** Two messages of one connection, then three of another, the first of which hides the last. */
  ghost predicate TwoAndThree(s: Scope, w: World, x: Message, y: Message, a: Message, b: Message, m: Message) {
    && ValidScope(s) && ValidWorld(s, w) && Rest(s, w, map[]) == [x, y, a, b, m]
    && x.connection == y.connection != a.connection && Three(a, b, m)
  }

  predicate Three(a: Message, b: Message, m: Message) {
    a.connection == b.connection == m.connection && Hides(a, m) && !Hides(a, b)
  }

  lemma {:induction false} OthersHideNothing(page: seq<Message>, m: Message)
    requires forall x :: x in page ==> x.connection != m.connection
    ensures !HiddenBy(page, m)
  {
    FilterNothing(page, OfConnection(m.connection));
  }

  lemma {:induction false} AllOfConnection(a: Message, b: Message, m: Message, c: int)
    requires a.connection == b.connection == m.connection == c
    ensures Filter([a, b, m], OfConnection(c)) == [a, b, m]
    ensures Take([a, b, m], 3) == [a, b, m] && Take([a, b, m], 2) == [a, b]
  {
    assert Filter([m], OfConnection(c)) == [m];
    assert Filter([b, m], OfConnection(c)) == [b, m];
  }

  /** The first page reads all three messages of the other connection, and shows none. */
  lemma {:induction false} PairReads(s: Scope, w: World, x: Message, y: Message, a: Message, b: Message, m: Message)
    requires TwoAndThree(s, w, x, y, a, b, m)
    ensures m in ReadOf(s, Call(w, 2), map[], m.connection)
  {
    assert Rest(s, w, map[]) == [x, y] + [a, b, m];
    FilterAppend([x, y], [a, b, m], OfConnection(m.connection));
    FilterNothing([x, y], OfConnection(m.connection));
    AllOfConnection(a, b, m, m.connection);
  }

  lemma {:induction false} PairHidesNothing(s: Scope, w: World, x: Message, y: Message, a: Message, b: Message,
                                            m: Message, k: Message)
    requires TwoAndThree(s, w, x, y, a, b, m)
    ensures PageOf(s, Call(w, 2), map[]) == [x, y] && !PageHides(s, Call(w, 2), map[], k)
  {
    assert PageOf(s, Call(w, 2), map[]) == [x, y];
    if k in Rest(s, w, map[]) && k !in [x, y] { OthersHideNothing([x, y], k); }
  }

  lemma {:induction false} PairLeaves(s: Scope, w: World, x: Message, y: Message, a: Message, b: Message, m: Message)
    requires TwoAndThree(s, w, x, y, a, b, m)
    ensures var next := Turn(s, Begin(), Call(w, 2));
            next.emitted == [x, y] && next.more && Rest(s, w, next.pos) == [a, b, m]
  {
    var rest := Rest(s, w, map[]);
    assert rest[..2] == [x, y] && rest[2..] == [a, b, m];
    forall k | k in rest[2..] ensures !HiddenBy(rest[..2], k) { OthersHideNothing(rest[..2], k); }
    AdvanceRestWhole(s, w, map[], 2);
    assert PageOf(s, Call(w, 2), map[]) == [x, y];
  }

  /** The second page begins the entry anew, without the last message, and hides that one only. */
  lemma {:induction false} FirstHides(s: Scope, w: World, pos: Position, a: Message, b: Message, m: Message, k: Message)
    requires ValidScope(s) && ValidWorld(s, w) && Rest(s, w, pos) == [a, b, m] && Three(a, b, m)
    ensures PageHides(s, Call(w, 1), pos, k) <==> k == m
  {
    RestFacts(s, w, pos);
    SinglePage(s, w, pos, k);
  }

  lemma {:induction false} FirstReads(s: Scope, w: World, pos: Position, a: Message, b: Message, m: Message)
    requires ValidScope(s) && ValidWorld(s, w) && Rest(s, w, pos) == [a, b, m] && Three(a, b, m)
    ensures m !in ReadOf(s, Call(w, 1), pos, m.connection)
  {
    RestFacts(s, w, pos);
    AllOfConnection(a, b, m, m.connection);
  }

  lemma {:induction false} FirstShows(s: Scope, w: World, pos: Position, a: Message, b: Message, m: Message)
    requires ValidScope(s) && ValidWorld(s, w) && Rest(s, w, pos) == [a, b, m]
    ensures PageOf(s, Call(w, 1), pos) == [a] && a != b
  {
    RestFacts(s, w, pos);
    assert Less(ByOrder(Rest(s, w, pos)[0]), ByOrder(Rest(s, w, pos)[1]));
  }

  /** What a page leaves in reach, in terms of what it hides. */
  lemma {:induction false} TurnKeeps(s: Scope, p: Progress, call: Call, k: Message)
    requires ValidCall(s, call)
    ensures k in Rest(s, call.world, Turn(s, p, call).pos)
            <==> k in Rest(s, call.world, p.pos) && k !in PageOf(s, call, p.pos) && !PageHides(s, call, p.pos, k)
  {
    TurnOfMessage(s, p, call, k);
  }

  lemma {:induction false} FirstLeaves(s: Scope, w: World, p: Progress, a: Message, b: Message, m: Message, k: Message)
    requires ValidScope(s) && ValidWorld(s, w) && Rest(s, w, p.pos) == [a, b, m] && Three(a, b, m)
    ensures k in Rest(s, w, Turn(s, p, Call(w, 1)).pos) <==> k == b
  {
    FirstShows(s, w, p.pos, a, b, m);
    FirstHides(s, w, p.pos, a, b, m, k);
    FirstHides(s, w, p.pos, a, b, m, b);
    TurnKeeps(s, p, Call(w, 1), k);
  }

  lemma {:induction false} FirstTurn(s: Scope, w: World, p: Progress, a: Message, b: Message, m: Message)
    requires ValidScope(s) && ValidWorld(s, w) && Rest(s, w, p.pos) == [a, b, m] && Three(a, b, m)
    ensures var next := Turn(s, p, Call(w, 1)); next.more && Rest(s, w, next.pos) == [b]
  {
    var left := Rest(s, w, Turn(s, p, Call(w, 1)).pos);
    RestFacts(s, w, Turn(s, p, Call(w, 1)).pos);
    forall k ensures k in left <==> k in [b] { FirstLeaves(s, w, p, a, b, m, k); }
    StrictUnique(left, [b], ByOrder);
  }

  /** The third shows what is left. */
  lemma {:induction false} OnlyOne(s: Scope, w: World, p: Progress, b: Message)
    requires ValidScope(s) && ValidWorld(s, w) && Rest(s, w, p.pos) == [b]
    ensures !Turn(s, p, Call(w, 1)).more && forall k :: !PageHides(s, Call(w, 1), p.pos, k)
  {
    assert PageOf(s, Call(w, 1), p.pos) == [b];
  }

  lemma {:induction false} PairSetsNoCursor(s: Scope, w: World, x: Message, y: Message, a: Message, b: Message,
                                            m: Message)
    requires TwoAndThree(s, w, x, y, a, b, m)
    ensures StateOf(Turn(s, Begin(), Call(w, 2)).pos, m.connection).last.None?
  {
    RestFacts(s, w, map[]);
    assert m in Rest(s, w, map[]);
    assert PageOf(s, Call(w, 2), map[]) == [x, y];
    FilterNothing([x, y], OfConnection(m.connection));
    TurnOfConnection(s, Begin(), Call(w, 2), m.connection);
  }

  lemma {:induction false} TwoFirst(s: Scope, w: World, x: Message, y: Message, a: Message, b: Message, m: Message)
    returns (calls: seq<Call>)
    requires TwoAndThree(s, w, x, y, a, b, m)
    ensures calls == [Call(w, 2)] && Underway(s, w, calls) && Outcome(s, calls).more
    ensures Rest(s, w, Outcome(s, calls).pos) == [a, b, m]
    ensures StateOf(Outcome(s, calls).pos, m.connection).last.None?
  {
    UnderwayLength(s, w, []);
    calls := OneMore(s, w, [], 2);
    PairLeaves(s, w, x, y, a, b, m);
    PairSetsNoCursor(s, w, x, y, a, b, m);
  }

  lemma {:induction false} OneNext(s: Scope, w: World, before: seq<Call>, a: Message, b: Message, m: Message)
    returns (calls: seq<Call>)
    requires Underway(s, w, before) && Outcome(s, before).more
    requires Rest(s, w, Outcome(s, before).pos) == [a, b, m] && Three(a, b, m)
    ensures calls == before + [Call(w, 1)] && Underway(s, w, calls) && Outcome(s, calls).more
    ensures Rest(s, w, Outcome(s, calls).pos) == [b]
  {
    calls := OneMore(s, w, before, 1);
    FirstTurn(s, w, Outcome(s, before), a, b, m);
  }

  lemma {:induction false} OneLast(s: Scope, w: World, before: seq<Call>, b: Message) returns (calls: seq<Call>)
    requires Underway(s, w, before) && Outcome(s, before).more && Rest(s, w, Outcome(s, before).pos) == [b]
    ensures calls == before + [Call(w, 1)] && Finished(s, w, calls)
  {
    calls := OneMore(s, w, before, 1);
    OnlyOne(s, w, Outcome(s, before), b);
    UnderwayFinished(s, w, calls);
  }

  /** The states of the traversal in pages of two, one and one. */
  ghost predicate InThreePages(s: Scope, w: World, calls: seq<Call>, states: seq<Progress>, a: Message, b: Message,
                               m: Message)
    requires ValidScope(s) && ValidWorld(s, w)
  {
    && |calls| == 3 && calls[0] == Call(w, 2) && calls[1] == Call(w, 1) && calls[2] == Call(w, 1)
    && |states| == 4 && states[0].pos == map[] && Rest(s, w, states[2].pos) == [b]
    && Rest(s, w, states[1].pos) == [a, b, m] && StateOf(states[1].pos, m.connection).last.None?
  }

  lemma {:induction false} ThreeStates(s: Scope, w: World, one: seq<Call>, two: seq<Call>, calls: seq<Call>)
    requires AllValid(s, one) && AllValid(s, two) && AllValid(s, calls) && one <= two <= calls
    requires |one| == 1 && |two| == 2 && |calls| == 3
    ensures var states := States(s, calls);
            states[0].pos == map[] && states[1] == Outcome(s, one) && states[2] == Outcome(s, two)
  {
    StateBefore(s, one, calls);
    StateBefore(s, two, calls);
    StateAt(s, calls, 0);
  }

  lemma {:induction false} TwoOneOne(s: Scope, w: World, x: Message, y: Message, a: Message, b: Message, m: Message)
    returns (calls: seq<Call>)
    requires TwoAndThree(s, w, x, y, a, b, m)
    ensures Finished(s, w, calls) && InThreePages(s, w, calls, States(s, calls), a, b, m)
  {
    var one := TwoFirst(s, w, x, y, a, b, m);
    var two := OneNext(s, w, one, a, b, m);
    calls := OneLast(s, w, two, b);
    ThreeStates(s, w, one, two, calls);
  }

  /** A page may hide a message that an earlier page read, and the cache agrees all the same: when
      the connection had shown nothing, the page began its entry anew. */
  lemma {:induction false} ReplacedReadingAgrees(s: Scope, w: World, x: Message, y: Message, a: Message, b: Message,
                                                 m: Message, uidValidity: map<int, nat>, initial: Cache)
    returns (calls: seq<Call>)
    requires TwoAndThree(s, w, x, y, a, b, m)
    requires forall c :: c in s.connections ==> c in uidValidity && c in initial
    ensures Finished(s, w, calls) && |calls| == 3
    ensures m in ReadOf(s, calls[0], States(s, calls)[0].pos, m.connection) && HidesAt(s, calls, States(s, calls), 1, m)
    ensures OfflineAgrees(s, calls, CacheLeft(s, calls, uidValidity, initial))
  {
    calls := TwoOneOne(s, w, x, y, a, b, m);
    PairReads(s, w, x, y, a, b, m);
    FirstHides(s, w, States(s, calls)[1].pos, a, b, m, m);
    forall i, k | 0 <= i < 3 ensures !HidesHeld(s, calls, States(s, calls), i, k) {
      NothingHeldHidden(s, w, x, y, a, b, m, calls, States(s, calls), i, k);
    }
    AgreesExactly(s, w, calls, uidValidity, initial);
  }

  lemma {:induction false} PageAt(s: Scope, calls: seq<Call>, states: seq<Progress>, i: nat, call: Call, pos: Position,
                                  k: Message)
    requires AllValid(s, calls) && i < |calls| < |states| && calls[i] == call && states[i].pos == pos
    ensures ValidCall(s, call) && (HidesAt(s, calls, states, i, k) <==> PageHides(s, call, pos, k))
  {
  }

  lemma {:induction false} FirstPageHidesNone(s: Scope, w: World, x: Message, y: Message, a: Message, b: Message,
                                              m: Message, calls: seq<Call>, states: seq<Progress>, k: Message)
    requires TwoAndThree(s, w, x, y, a, b, m) && AllValid(s, calls) && InThreePages(s, w, calls, states, a, b, m)
    ensures !HidesAt(s, calls, states, 0, k)
  {
    PageAt(s, calls, states, 0, Call(w, 2), map[], k);
    PairHidesNothing(s, w, x, y, a, b, m, k);
  }

  lemma {:induction false} LaterPagesHide(s: Scope, w: World, a: Message, b: Message, m: Message, calls: seq<Call>,
                                          states: seq<Progress>, i: nat, k: Message)
    requires ValidScope(s) && ValidWorld(s, w) && Three(a, b, m) && AllValid(s, calls) && 1 <= i < 3
    requires InThreePages(s, w, calls, states, a, b, m)
    ensures HidesAt(s, calls, states, i, k) <==> i == 1 && k == m
  {
    PageAt(s, calls, states, i, Call(w, 1), states[i].pos, k);
    if i == 1 { FirstHides(s, w, states[1].pos, a, b, m, k); } else { OnlyOne(s, w, states[2], b); }
  }

  lemma {:induction false} NothingHeldHidden(s: Scope, w: World, x: Message, y: Message, a: Message, b: Message,
                                             m: Message, calls: seq<Call>, states: seq<Progress>, i: nat, k: Message)
    requires TwoAndThree(s, w, x, y, a, b, m) && AllValid(s, calls) && i < 3
    requires InThreePages(s, w, calls, states, a, b, m)
    ensures !HidesHeld(s, calls, states, i, k)
  {
    if i == 0 {
      FirstPageHidesNone(s, w, x, y, a, b, m, calls, states, k);
    } else {
      LaterPagesHide(s, w, a, b, m, calls, states, i, k);
      FirstReads(s, w, states[1].pos, a, b, m);
      AnewHoldsNot(s, calls, states, 1, m);
    }
  }

  // ----- at an input ------------------------------------------------------------------------------

  const TWO_MAILBOXES: Scope := Scope([0, 1], None, None)

  const X: Message := Message(1, 2, Stamp(500, 0), true)

  const Y: Message := Message(1, 1, Stamp(400, 0), true)

  const A: Message := Message(0, 3, Stamp(300, 1 - DAY), true)

  const B: Message := Message(0, 2, Stamp(200, 1 - DAY), true)

  const M: Message := Message(0, 1, Stamp(100, 0), true)

  const FIVE_MESSAGES: World := World(map[0 := [M, B, A], 1 := [Y, X]], map[0 := 4, 1 := 3])

  lemma {:induction false} FiveAreWanted(s: Scope, w: World)
    requires s == TWO_MAILBOXES && w == FIVE_MESSAGES
    ensures ValidScope(s) && ValidWorld(s, w) && forall m :: IsWanted(s, w, m) <==> m in [X, Y, A, B, M]
  {
  }

  lemma {:induction false} FiveStrict()
    ensures Strict([X, Y, A, B, M], ByOrder) && Three(A, B, M)
  {
  }

  lemma {:induction false} FiveInOrder(s: Scope, w: World)
    requires s == TWO_MAILBOXES && w == FIVE_MESSAGES
    ensures TwoAndThree(s, w, X, Y, A, B, M)
  {
    FiveAreWanted(s, w);
    FiveStrict();
    AllInReachAtStart(s, w);
    InReachIsWanted(s, w, map[]);
    StrictUnique(Rest(s, w, map[]), [X, Y, A, B, M], ByOrder);
  }
}
