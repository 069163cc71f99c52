/** Traversals of unchanged mailboxes: exactly which mail every finished one shows, and which
    some lose to the day bound a search takes from its cursor. */
module HiddenMail {
  import opened Wrappers
  import opened Ordering
  import opened MailSearch
  import opened PageMerge
  import opened Pagination
  import opened Traversal

  /** The same mailboxes at every call. */
  ghost predicate Still(calls: seq<Call>, w: World) {
    forall i :: 0 <= i < |calls| ==> calls[i].world == w
  }

  /** A traversal that followed its cursors to the end. */
  ghost predicate Finished(s: Scope, w: World, calls: seq<Call>) {
    && AllValid(s, calls) && calls != [] && Still(calls, w) && Follows(s, calls)
    && !Outcome(s, calls).more
  }

  function Begin(): Progress { Progress(map[], [], true) }

  function StateOfCall(s: Scope, calls: seq<Call>): nat --> Progress {
    (n: nat) requires AllValid(s, calls) && n <= |calls| => After(s, calls, n)
  }

  /** The states a traversal goes through. */
  function States(s: Scope, calls: seq<Call>): (states: seq<Progress>)
    requires AllValid(s, calls)
    ensures |states| == |calls| + 1
  {
    Tabulate(StateOfCall(s, calls), |calls| + 1)
  }

  // ----- from state to state ----------------------------------------------------------------------

  /** One call over the unchanged mailboxes. */
  ghost predicate Goes(s: Scope, w: World, calls: seq<Call>, states: seq<Progress>, i: nat)
    requires i < |calls| < |states|
  {
    ValidCall(s, calls[i]) && calls[i].world == w && states[i + 1] == Turn(s, states[i], calls[i])
  }

  ghost predicate Ran(s: Scope, w: World, calls: seq<Call>, states: seq<Progress>) {
    && ValidScope(s) && ValidWorld(s, w) && AllValid(s, calls) && |states| == |calls| + 1 && states[0] == Begin()
    && forall i :: 0 <= i < |calls| ==> Goes(s, w, calls, states, i)
  }

  lemma {:induction false} StateAt(s: Scope, calls: seq<Call>, n: nat)
    requires AllValid(s, calls) && n <= |calls|
    ensures States(s, calls)[n] == After(s, calls, n)
  {
    TabulateAt(StateOfCall(s, calls), |calls| + 1, n);
  }

  lemma {:induction false} TurnReached(s: Scope, calls: seq<Call>, states: seq<Progress>, i: nat)
    requires AllValid(s, calls) && i < |calls| && |states| == |calls| + 1
    requires states[i] == After(s, calls, i) && states[i + 1] == After(s, calls, i + 1)
    ensures states[i + 1] == Turn(s, states[i], calls[i])
  {
  }

  lemma {:induction false} StatesGo(s: Scope, w: World, calls: seq<Call>, i: nat)
    requires AllValid(s, calls) && Still(calls, w) && i < |calls|
    ensures Goes(s, w, calls, States(s, calls), i)
  {
    var states := States(s, calls);
    assert states[i] == After(s, calls, i) by { StateAt(s, calls, i); }
    assert states[i + 1] == After(s, calls, i + 1) by { StateAt(s, calls, i + 1); }
    TurnReached(s, calls, states, i);
  }

  lemma {:induction false} StatesRan(s: Scope, w: World, calls: seq<Call>)
    requires ValidScope(s) && ValidWorld(s, w) && AllValid(s, calls) && Still(calls, w)
    ensures Ran(s, w, calls, States(s, calls))
  {
    StateAt(s, calls, 0);
    forall i | 0 <= i < |calls| ensures Goes(s, w, calls, States(s, calls), i) {
      StatesGo(s, w, calls, i);
    }
  }

  /** A finished traversal in terms of its states. */
  lemma {:induction false} FinishedRan(s: Scope, w: World, calls: seq<Call>)
    requires ValidScope(s) && ValidWorld(s, w) && Finished(s, w, calls)
    ensures Ran(s, w, calls, States(s, calls)) && calls != []
    ensures States(s, calls)[|calls|] == Outcome(s, calls) && !States(s, calls)[|calls|].more
  {
    StatesRan(s, w, calls);
    StateAt(s, calls, |calls|);
  }

  // ----- when dates follow the order ------------------------------------------------------------

  lemma {:induction false} InReachIsWanted(s: Scope, w: World, pos: Position)
    requires ValidScope(s) && ValidWorld(s, w)
    ensures Strict(Rest(s, w, pos), ByOrder) && forall m :: m in Rest(s, w, pos) ==> IsWanted(s, w, m)
  {
    RestFacts(s, w, pos);
  }

  lemma {:induction false} NothingHidden(s: Scope, w: World, pos: Position, n: nat, m: Message)
    requires ValidScope(s) && ValidWorld(s, w) && DatesFollow(s, w)
    requires n <= |Rest(s, w, pos)| && m in Rest(s, w, pos)[n..]
    ensures !HiddenBy(Rest(s, w, pos)[..n], m)
  {
    InReachIsWanted(s, w, pos);
    assert m in Rest(s, w, pos);
    if HiddenBy(Rest(s, w, pos)[..n], m) {
      HidingIsWanted(s, w, pos, n, m);
    }
  }

  /** A page then leaves exactly what was behind it. */
  lemma {:induction false} PageHidesNothing(s: Scope, w: World, pos: Position, n: nat)
    requires ValidScope(s) && ValidWorld(s, w) && DatesFollow(s, w) && n <= |Rest(s, w, pos)|
    ensures Rest(s, w, NextPos(s, w, pos, Rest(s, w, pos)[..n])) == Rest(s, w, pos)[n..]
  {
    forall m | m in Rest(s, w, pos)[n..] ensures !HiddenBy(Rest(s, w, pos)[..n], m) { NothingHidden(s, w, pos, n, m); }
    AdvanceRestWhole(s, w, pos, n);
  }

  lemma {:induction false} SplitBehind(emitted: seq<Message>, rest: seq<Message>, n: nat)
    requires n <= |rest|
    ensures (emitted + rest[..n]) + rest[n..] == emitted + rest
  {
    assert rest == rest[..n] + rest[n..];
    Assoc(emitted, rest[..n], rest[n..]);
  }

  /** A page of any size: what was shown and what is left stay the same together. */
  lemma {:induction false} TurnStill(s: Scope, p: Progress, call: Call)
    requires ValidCall(s, call) && DatesFollow(s, call.world)
    ensures var next := Turn(s, p, call);
            next.emitted + Rest(s, call.world, next.pos) == p.emitted + Rest(s, call.world, p.pos)
            && (!next.more ==> Rest(s, call.world, next.pos) == [])
  {
    var n := |PageOf(s, call, p.pos)|;
    PageBegins(s, p, call);
    PageHidesNothing(s, call.world, p.pos, n);
    SplitBehind(p.emitted, Rest(s, call.world, p.pos), n);
  }

  lemma {:induction false} JoinNothing(page: seq<Message>, left: seq<Message>)
    requires left == []
    ensures page + left == page
  {
  }

  /** With local dates in order the pages and what is left are always all wanted mail in
      order, whatever the page sizes; so a finished traversal shows exactly that. */
  lemma {:induction false} StillTraversal(s: Scope, w: World, calls: seq<Call>, states: seq<Progress>, i: nat)
    requires Ran(s, w, calls, states) && DatesFollow(s, w) && i <= |calls|
    ensures states[i].emitted + Rest(s, w, states[i].pos) == Rest(s, w, map[])
    ensures !states[i].more ==> states[i].emitted == Rest(s, w, map[])
  {
    if i == 0 {
      assert [] + Rest(s, w, map[]) == Rest(s, w, map[]);
    } else {
      StillTraversal(s, w, calls, states, i - 1);
      assert Goes(s, w, calls, states, i - 1);
      TurnStill(s, states[i - 1], calls[i - 1]);
      if !states[i].more { JoinNothing(states[i].emitted, Rest(s, w, states[i].pos)); }
    }
  }

  // ----- following to the end ---------------------------------------------------------------------

  lemma {:induction false} Unchanged(s: Scope, w: World, pos: Position)
    requires ValidScope(s) && ValidWorld(s, w)
    ensures Evolves(s, w, w, pos)
  {
  }

  /** A traversal of unchanged mailboxes that has followed its cursors so far. */
  ghost predicate Underway(s: Scope, w: World, calls: seq<Call>) {
    ValidScope(s) && ValidWorld(s, w) && AllValid(s, calls) && Still(calls, w) && Follows(s, calls)
  }

  lemma {:induction false} AfterPrefix(s: Scope, calls: seq<Call>, longer: seq<Call>, n: nat)
    requires AllValid(s, calls) && AllValid(s, longer) && calls <= longer && n <= |calls|
    ensures After(s, longer, n) == After(s, calls, n)
  {
    if n > 0 {
      AfterPrefix(s, calls, longer, n - 1);
      assert longer[n - 1] == calls[n - 1];
    }
  }

  lemma {:induction false} StateBefore(s: Scope, before: seq<Call>, calls: seq<Call>)
    requires AllValid(s, before) && AllValid(s, calls) && before <= calls
    ensures States(s, calls)[|before|] == Outcome(s, before)
  {
    StateAt(s, calls, |before|);
    AfterPrefix(s, before, calls, |before|);
  }

  lemma {:induction false} ExtendedValid(s: Scope, w: World, calls: seq<Call>, size: nat)
    requires ValidScope(s) && ValidWorld(s, w) && AllValid(s, calls) && Still(calls, w) && ValidSize(size)
    ensures AllValid(s, calls + [Call(w, size)]) && Still(calls + [Call(w, size)], w)
  {
  }

  lemma {:induction false} ExtendedOutcome(s: Scope, w: World, calls: seq<Call>, next: seq<Call>, size: nat)
    requires AllValid(s, calls) && AllValid(s, next) && next == calls + [Call(w, size)]
    ensures Outcome(s, next) == Turn(s, Outcome(s, calls), Call(w, size))
  {
    AfterPrefix(s, calls, next, |calls|);
  }

  lemma {:induction false} ExtendedFollows(s: Scope, w: World, calls: seq<Call>, next: seq<Call>, n: nat)
    requires ValidScope(s) && ValidWorld(s, w) && AllValid(s, calls) && AllValid(s, next) && calls <= next
    requires 0 < n <= |calls| && n < |next| && next[n - 1].world == w == next[n].world && After(s, calls, n).more
    ensures FollowsAt(s, next, n)
  {
    AfterPrefix(s, calls, next, n);
    Unchanged(s, w, After(s, next, n).pos);
  }

  /** One more call. */
  lemma {:induction false} OneMore(s: Scope, w: World, calls: seq<Call>, size: nat) returns (next: seq<Call>)
    requires Underway(s, w, calls) && ValidSize(size) && Outcome(s, calls).more
    ensures next == calls + [Call(w, size)] && Underway(s, w, next)
    ensures Outcome(s, next) == Turn(s, Outcome(s, calls), Call(w, size))
  {
    next := calls + [Call(w, size)];
    ExtendedValid(s, w, calls, size);
    ExtendedOutcome(s, w, calls, next, size);
    forall n | 0 < n < |next| ensures FollowsAt(s, next, n) {
      assert n < |calls| ==> FollowsAt(s, calls, n);
      ExtendedFollows(s, w, calls, next, n);
    }
  }

  /** A traversal has no more pages than messages, and one. */
  lemma {:induction false} UnderwayLength(s: Scope, w: World, calls: seq<Call>)
    requires Underway(s, w, calls)
    ensures |calls| <= |Rest(s, w, map[])| + 1
    ensures calls == [] ==> Outcome(s, calls) == Begin()
  {
    if calls != [] {
      CompletePagination(s, calls);
      assert calls[0].world == w;
    }
  }

  lemma {:induction false} UnderwayFinished(s: Scope, w: World, calls: seq<Call>)
    requires Underway(s, w, calls) && !Outcome(s, calls).more
    ensures Finished(s, w, calls)
  {
    UnderwayLength(s, w, calls);
  }

  /** One more page of one message. */
  lemma {:induction false} OneStep(s: Scope, w: World, calls: seq<Call>) returns (next: seq<Call>)
    requires Underway(s, w, calls) && Outcome(s, calls).more
    ensures next == calls + [Call(w, 1)] && Underway(s, w, next) && |next| <= |Rest(s, w, map[])| + 1
    ensures Outcome(s, next) == Turn(s, Outcome(s, calls), Call(w, 1))
  {
    next := OneMore(s, w, calls, 1);
    UnderwayLength(s, w, next);
  }

  lemma {:induction false} Longer(w: World, calls: seq<Call>, next: seq<Call>, all: seq<Call>)
    requires next == calls + [Call(w, 1)] && next <= all && forall i :: |next| <= i < |all| ==> all[i] == Call(w, 1)
    ensures calls <= all && forall i :: |calls| <= i < |all| ==> all[i] == Call(w, 1)
  {
    assert all[|calls|] == next[|calls|];
  }

  /** Pages of one message each follow a traversal to its end. */
  lemma {:induction false} FollowToEnd(s: Scope, w: World, calls: seq<Call>) returns (all: seq<Call>)
    requires Underway(s, w, calls)
    ensures calls <= all && Finished(s, w, all)
    ensures forall i :: |calls| <= i < |all| ==> all[i] == Call(w, 1)
    decreases |Rest(s, w, map[])| + 1 - |calls|
  {
    if !Outcome(s, calls).more {
      UnderwayFinished(s, w, calls);
      return calls;
    }
    var next := OneStep(s, w, calls);
    all := FollowToEnd(s, w, next);
    Longer(w, calls, next, all);
  }

  // ----- when dates do not follow the order -------------------------------------------------------

  /** What becomes of a message in one page: shown, hidden, or still in reach. */
  lemma {:induction false} TurnOfMessage(s: Scope, p: Progress, call: Call, m: Message)
    requires ValidCall(s, call)
    ensures var page, next := PageOf(s, call, p.pos), Turn(s, p, call);
            && (m in next.emitted <==> m in p.emitted || m in page)
            && (m in Rest(s, call.world, next.pos)
                <==> m in Rest(s, call.world, p.pos) && m !in page && !HiddenBy(page, m))
  {
    var rest, n := Rest(s, call.world, p.pos), |PageOf(s, call, p.pos)|;
    PageBegins(s, p, call);
    RestFacts(s, call.world, p.pos);
    AdvanceRest(s, call.world, p.pos, n);
    MemberSplit(rest, n, m);
  }

  /** The message has not come, and when it can, so can the one that hides it, before it. */
  ghost predicate Overdue(s: Scope, w: World, p: Progress, a: Message, m: Message)
    requires ValidWorld(s, w)
  {
    m !in p.emitted && (m in Rest(s, w, p.pos) ==> a in Rest(s, w, p.pos))
  }

  /** A page of one message hides all mail of its connection with a later date. */
  lemma {:induction false} SinglePage(s: Scope, w: World, pos: Position, m: Message)
    requires ValidScope(s) && ValidWorld(s, w)
    ensures var rest, page := Rest(s, w, pos), PageOf(s, Call(w, 1), pos);
            && page == (if rest == [] then [] else [rest[0]])
            && (rest != [] ==> (HiddenBy(page, m) <==> m.connection == rest[0].connection
                                                       && LocalDay(rest[0].received) < LocalDay(m.received)))
  {
    var rest := Rest(s, w, pos);
    if rest != [] {
      assert Filter([rest[0]], OfConnection(m.connection))
             == if rest[0].connection == m.connection then [rest[0]] else [];
    }
  }

  lemma {:induction false} StaysOverdue(s: Scope, w: World, p: Progress, a: Message, m: Message)
    requires ValidScope(s) && ValidWorld(s, w) && Overdue(s, w, p, a, m) && Hides(a, m)
    ensures Overdue(s, w, Turn(s, p, Call(w, 1)), a, m)
  {
    SinglePage(s, w, p.pos, a);
    SinglePage(s, w, p.pos, m);
    RestFacts(s, w, p.pos);
    TurnOfMessage(s, p, Call(w, 1), a);
    TurnOfMessage(s, p, Call(w, 1), m);
  }

  lemma {:induction false} OverdueAtStart(s: Scope, w: World, calls: seq<Call>, states: seq<Progress>, a: Message,
                                          m: Message)
    requires Ran(s, w, calls, states) && IsWanted(s, w, a)
    ensures Overdue(s, w, states[0], a, m)
  {
    AllInReachAtStart(s, w);
  }

  lemma {:induction false} OverdueNext(s: Scope, w: World, calls: seq<Call>, states: seq<Progress>, i: nat, a: Message,
                                       m: Message)
    requires Ran(s, w, calls, states) && i < |calls| && calls[i] == Call(w, 1)
    requires Hides(a, m) && Overdue(s, w, states[i], a, m)
    ensures Overdue(s, w, states[i + 1], a, m)
  {
    assert Goes(s, w, calls, states, i);
    StaysOverdue(s, w, states[i], a, m);
  }

  lemma {:induction false} AlwaysOverdue(s: Scope, w: World, calls: seq<Call>, states: seq<Progress>, i: nat,
                                         a: Message, m: Message)
    requires Ran(s, w, calls, states) && i <= |calls| && forall k :: 0 <= k < |calls| ==> calls[k] == Call(w, 1)
    requires IsWanted(s, w, a) && Hides(a, m)
    ensures Overdue(s, w, states[i], a, m)
    decreases i
  {
    if i == 0 {
      OverdueAtStart(s, w, calls, states, a, m);
    } else {
      AlwaysOverdue(s, w, calls, states, i - 1, a, m);
      OverdueNext(s, w, calls, states, i - 1, a, m);
    }
  }

  /** Pages of one message each never show what a wanted message hides. */
  lemma {:induction false} SomeTraversalLoses(s: Scope, w: World, a: Message, m: Message) returns (calls: seq<Call>)
    requires ValidScope(s) && ValidWorld(s, w) && IsWanted(s, w, a) && Hides(a, m)
    ensures Finished(s, w, calls) && m !in Outcome(s, calls).emitted
  {
    calls := FollowToEnd(s, w, []);
    FinishedRan(s, w, calls);
    AlwaysOverdue(s, w, calls, States(s, calls), |calls|, a, m);
  }

  // ----- exactly ----------------------------------------------------------------------------------

  /** Every finished traversal shows a wanted message if and only if no wanted message of its
      connection before it in order has an earlier local date. */
  lemma {:induction false} AlwaysShownExactly(s: Scope, w: World, m: Message)
    requires ValidScope(s) && ValidWorld(s, w) && IsWanted(s, w, m)
    ensures NeverHidden(s, w, m) <==> forall calls :: Finished(s, w, calls) ==> m in Outcome(s, calls).emitted
  {
    AllInReachAtStart(s, w);
    if NeverHidden(s, w, m) {
      forall calls | Finished(s, w, calls) ensures m in Outcome(s, calls).emitted {
        assert PresentThroughout(s, calls, m);
        CompletePagination(s, calls);
      }
    } else {
      var a :| IsWanted(s, w, a) && Hides(a, m);
      var calls := SomeTraversalLoses(s, w, a, m);
    }
  }

  /** Every finished traversal, whatever its page sizes, shows all wanted mail if and only if
      local dates never rise along a connection's wanted mail in order. */
  lemma {:induction false} AllShownExactly(s: Scope, w: World)
    requires ValidScope(s) && ValidWorld(s, w)
    ensures DatesFollow(s, w)
            <==> forall calls :: Finished(s, w, calls) ==> Outcome(s, calls).emitted == Rest(s, w, map[])
    ensures forall m :: m in Rest(s, w, map[]) <==> IsWanted(s, w, m)
  {
    AllInReachAtStart(s, w);
    if DatesFollow(s, w) {
      forall calls | Finished(s, w, calls) ensures Outcome(s, calls).emitted == Rest(s, w, map[]) {
        FinishedRan(s, w, calls);
        StillTraversal(s, w, calls, States(s, calls), |calls|);
      }
    } else {
      var m :| IsWanted(s, w, m) && !NeverHidden(s, w, m);
      AlwaysShownExactly(s, w, m);
      var calls :| Finished(s, w, calls) && m !in Outcome(s, calls).emitted;
      assert Outcome(s, calls).emitted != Rest(s, w, map[]);
    }
  }

  // ----- at an input ------------------------------------------------------------------------------

  const NEWER: Message := Message(0, 2, Stamp(5 * 3600, -6 * 3600), true)

  /** An hour older, but written where it is already the next day. */
  const OLDER: Message := Message(0, 1, Stamp(4 * 3600, 0), true)

  const ONE_MAILBOX: Scope := Scope([0], None, None)

  const TWO_MESSAGES: World := World(map[0 := [OLDER, NEWER]], map[0 := 3])

  lemma {:induction false} BothAreWanted(s: Scope, w: World)
    requires s == ONE_MAILBOX && w == TWO_MESSAGES
    ensures ValidScope(s) && ValidWorld(s, w) && forall m :: IsWanted(s, w, m) <==> m in [NEWER, OLDER]
    ensures Strict([NEWER, OLDER], ByOrder) && Hides(NEWER, OLDER)
  {
  }

  lemma {:induction false} BothInOrder(s: Scope, w: World)
    requires s == ONE_MAILBOX && w == TWO_MESSAGES
    ensures ValidScope(s) && ValidWorld(s, w) && Rest(s, w, map[]) == [NEWER, OLDER]
  {
    BothAreWanted(s, w);
    AllInReachAtStart(s, w);
    InReachIsWanted(s, w, map[]);
    StrictUnique(Rest(s, w, map[]), [NEWER, OLDER], ByOrder);
  }

  lemma {:induction false} OneOfPair(s: Scope, w: World, p: Progress, x: Message, y: Message)
    requires ValidScope(s) && ValidWorld(s, w) && Rest(s, w, p.pos) == [x, y] && Hides(x, y) && p.emitted == []
    ensures var next := Turn(s, p, Call(w, 1)); next.emitted == [x] && next.more && Rest(s, w, next.pos) == []
  {
    var left := Rest(s, w, Turn(s, p, Call(w, 1)).pos);
    SinglePage(s, w, p.pos, y);
    if left != [] {
      assert left[0] in left;
      TurnOfMessage(s, p, Call(w, 1), left[0]);
    }
  }

  lemma {:induction false} NothingMore(s: Scope, w: World, p: Progress)
    requires ValidScope(s) && ValidWorld(s, w) && Rest(s, w, p.pos) == []
    ensures var next := Turn(s, p, Call(w, 1)); next.emitted == p.emitted && !next.more
  {
    assert PageOf(s, Call(w, 1), p.pos) == [];
    assert p.emitted + [] == p.emitted;
  }

  /** A page with nothing left ends a traversal. */
  lemma {:induction false} LastPage(s: Scope, w: World, calls: seq<Call>) returns (all: seq<Call>)
    requires Underway(s, w, calls) && Outcome(s, calls).more && Rest(s, w, Outcome(s, calls).pos) == []
    ensures all == calls + [Call(w, 1)] && Finished(s, w, all) && Outcome(s, all).emitted == Outcome(s, calls).emitted
  {
    all := OneMore(s, w, calls, 1);
    NothingMore(s, w, Outcome(s, calls));
    UnderwayFinished(s, w, all);
  }

  lemma {:induction false} FirstPage(s: Scope, w: World) returns (calls: seq<Call>)
    requires ValidScope(s) && ValidWorld(s, w)
    ensures calls == [Call(w, 1)] && Underway(s, w, calls) && Outcome(s, calls) == Turn(s, Begin(), Call(w, 1))
  {
    UnderwayLength(s, w, []);
    calls := OneMore(s, w, [], 1);
  }

  /** The first of two messages hides the second: pages of one message end after the first. */
  lemma {:induction false} PairLosesSecond(s: Scope, w: World, x: Message, y: Message) returns (calls: seq<Call>)
    requires ValidScope(s) && ValidWorld(s, w) && Rest(s, w, map[]) == [x, y] && Hides(x, y)
    ensures calls == [Call(w, 1), Call(w, 1)] && Finished(s, w, calls) && Outcome(s, calls).emitted == [x]
  {
    var one := FirstPage(s, w);
    assert Outcome(s, one).emitted == [x] && Outcome(s, one).more && Rest(s, w, Outcome(s, one).pos) == [] by {
      OneOfPair(s, w, Begin(), x, y);
    }
    calls := LastPage(s, w, one);
  }

  /** Two wanted messages, two pages of one message each: the traversal ends after the first. */
  lemma {:induction false} TraversalLosesMessage(s: Scope, w: World, calls: seq<Call>)
    requires s == ONE_MAILBOX && w == TWO_MESSAGES && calls == [Call(w, 1), Call(w, 1)]
    ensures ValidScope(s) && ValidWorld(s, w) && IsWanted(s, w, NEWER) && IsWanted(s, w, OLDER)
    ensures Finished(s, w, calls) && Outcome(s, calls).emitted == [NEWER]
  {
    BothAreWanted(s, w);
    BothInOrder(s, w);
    var pages := PairLosesSecond(s, w, NEWER, OLDER);
  }
}
