/** For given mailboxes: exactly when every finished traversal agrees with every offline one after
    it. It depends on how many messages hide each message, and on how many a page can hold. */
module OfflineAlways {
  import opened Wrappers
  import opened Ordering
  import opened MailSearch
  import opened PageMerge
  import opened Pagination
  import opened Traversal
  import opened HiddenMail
  import opened OfflineCache
  import opened CachedTraversal
  import opened ReadMail
  import opened OfflineAgreement

  // ----- what hides a message ---------------------------------------------------------------------

  ghost function HidesIt(s: Scope, w: World, m: Message): Message -> bool {
    (a: Message) => NeverHidden(s, w, a) && Hides(a, m)
  }

  /** The messages that hide m and that nothing hides, in order. */
  ghost function Hiders(s: Scope, w: World, m: Message): seq<Message>
    requires forall c :: c in s.connections ==> c in w.mailboxes
  {
    Filter(AllOf(s, w, m.connection), HidesIt(s, w, m))
  }

  ghost predicate IsHider(s: Scope, w: World, a: Message, m: Message) {
    IsWanted(s, w, a) && NeverHidden(s, w, a) && Hides(a, m)
  }

  lemma {:induction false} HidersFacts(s: Scope, w: World, m: Message)
    requires ValidScope(s) && ValidWorld(s, w)
    ensures Strict(Hiders(s, w, m), ByOrder) && forall a :: a in Hiders(s, w, m) <==> IsHider(s, w, a, m)
  {
    var all := AllOf(s, w, m.connection);
    OrderedPart(s, w, map[], m.connection);
    AllInReachAtStart(s, w);
    FilterStrict(all, HidesIt(s, w, m), ByOrder);
    FilterMembers(all, HidesIt(s, w, m));
  }

  lemma {:induction false} HidersAre(s: Scope, w: World, m: Message, hiders: seq<Message>)
    requires ValidScope(s) && ValidWorld(s, w) && Strict(hiders, ByOrder)
    requires forall a :: a in hiders <==> IsHider(s, w, a, m)
    ensures Hiders(s, w, m) == hiders
  {
    HidersFacts(s, w, m);
    StrictUnique(Hiders(s, w, m), hiders, ByOrder);
  }

  /** Among the messages that hide one, some is hidden by none. */
  lemma {:induction false} SomeHider(s: Scope, w: World, a: Message, m: Message, k: nat) returns (h: Message)
    requires ValidScope(s) && ValidWorld(s, w) && IsWanted(s, w, a) && Hides(a, m)
    requires k < |Rest(s, w, map[])| && Rest(s, w, map[])[k] == a
    ensures IsHider(s, w, h, m)
    decreases k
  {
    if NeverHidden(s, w, a) {
      h := a;
    } else {
      var b :| IsWanted(s, w, b) && Hides(b, a);
      AllInReachAtStart(s, w);
      RestFacts(s, w, map[]);
      var i :| 0 <= i < |Rest(s, w, map[])| && Rest(s, w, map[])[i] == b;
      NotAfter(Rest(s, w, map[]), i, k);
      h := SomeHider(s, w, b, m, i);
    }
  }

  lemma {:induction false} HiddenHasHider(s: Scope, w: World, m: Message) returns (h: Message)
    requires ValidScope(s) && ValidWorld(s, w) && !NeverHidden(s, w, m)
    ensures IsHider(s, w, h, m) && Hiders(s, w, m) != []
  {
    var a :| IsWanted(s, w, a) && Hides(a, m);
    AllInReachAtStart(s, w);
    var k :| 0 <= k < |Rest(s, w, map[])| && Rest(s, w, map[])[k] == a;
    h := SomeHider(s, w, a, m, k);
    HidersFacts(s, w, m);
    assert h in Hiders(s, w, m);
  }

  /** Hidden by none, or by more messages than one page can hold. */
  ghost predicate ClearCut(s: Scope, w: World, m: Message)
    requires forall c :: c in s.connections ==> c in w.mailboxes
  {
    Hiders(s, w, m) == [] || |Hiders(s, w, m)| > MAX_PAGE
  }

  ghost predicate AllClearCut(s: Scope, w: World)
    requires forall c :: c in s.connections ==> c in w.mailboxes
  {
    forall m {:trigger ClearCut(s, w, m)} :: IsWanted(s, w, m) ==> ClearCut(s, w, m)
  }

  // ----- what nothing hides -----------------------------------------------------------------------

  ghost predicate NoneHidden(s: Scope, w: World, messages: seq<Message>) {
    forall m :: m in messages ==> NeverHidden(s, w, m)
  }

  lemma {:induction false} UnhiddenTurn(s: Scope, p: Progress, call: Call, h: Message)
    requires ValidCall(s, call) && NeverHidden(s, call.world, h) && NotMissed(s, call.world, p, h)
    ensures NotMissed(s, call.world, Turn(s, p, call), h)
  {
    InReachIsWanted(s, call.world, p.pos);
    if h !in p.emitted { TurnMissesNothing(s, call.world, p, call, h); }
  }

  lemma {:induction false} UnhiddenAfter(s: Scope, w: World, calls: seq<Call>, states: seq<Progress>, i: nat,
                                         h: Message)
    requires Ran(s, w, calls, states) && i < |calls| && NeverHidden(s, w, h) && NotMissed(s, w, states[i], h)
    ensures NotMissed(s, w, states[i + 1], h)
  {
    assert Goes(s, w, calls, states, i);
    UnhiddenTurn(s, states[i], calls[i], h);
  }

  lemma {:induction false} UnhiddenNotMissed(s: Scope, w: World, calls: seq<Call>, states: seq<Progress>, i: nat,
                                             h: Message)
    requires Ran(s, w, calls, states) && i <= |calls| && IsWanted(s, w, h) && NeverHidden(s, w, h)
    ensures NotMissed(s, w, states[i], h)
  {
    if i == 0 {
      AllInReachAtStart(s, w);
    } else {
      UnhiddenNotMissed(s, w, calls, states, i - 1, h);
      UnhiddenAfter(s, w, calls, states, i - 1, h);
    }
  }

  /** While only such messages were shown, each hides what it can for good. */
  lemma {:induction false} ShownHides(s: Scope, w: World, calls: seq<Call>, states: seq<Progress>, i: nat, h: Message,
                                      m: Message)
    requires Ran(s, w, calls, states) && i <= |calls| && NoneHidden(s, w, states[i].emitted)
    requires h in states[i].emitted && Hides(h, m)
    ensures m !in Rest(s, w, states[i].pos)
  {
    var emitted, c := states[i].emitted, m.connection;
    SoundState(s, w, calls, states, i);
    ReachAfter(s, w, calls, states, i, m);
    FilterMembers(emitted, OfConnection(c));
    assert h in Filter(emitted, OfConnection(c));
    var b := LastOf(emitted, c).value;
    LastOfPage(emitted, c, b);
    assert !Hides(h, b);
  }

  // ----- when all is clear-cut --------------------------------------------------------------------

  /** The messages hiding m that are in reach come before it. */
  lemma {:induction false} HiddenUnread(s: Scope, w: World, calls: seq<Call>, states: seq<Progress>, i: nat, m: Message)
    requires Ran(s, w, calls, states) && i < |calls| && NoneHidden(s, w, states[i].emitted)
    requires m in ReadOf(s, calls[i], states[i].pos, m.connection)
    ensures |Hiders(s, w, m)| <= MAX_PAGE
  {
    assert Goes(s, w, calls, states, i);
    ReadIsInReach(s, calls[i], states[i].pos, m.connection, m);
    HidersFacts(s, w, m);
    forall h | h in Hiders(s, w, m)
      ensures h in Rest(s, w, states[i].pos) && h.connection == m.connection && Less(ByOrder(h), ByOrder(m))
    {
      UnhiddenNotMissed(s, w, calls, states, i, h);
      if h in states[i].emitted { ShownHides(s, w, calls, states, i, h, m); }
    }
    FewBeforeRead(s, calls[i], states[i].pos, m, Hiders(s, w, m));
  }

  lemma {:induction false} ReadIsUnhidden(s: Scope, w: World, calls: seq<Call>, states: seq<Progress>, i: nat,
                                          m: Message)
    requires Ran(s, w, calls, states) && i < |calls| && AllClearCut(s, w) && NoneHidden(s, w, states[i].emitted)
    requires m in ReadOf(s, calls[i], states[i].pos, m.connection)
    ensures NeverHidden(s, w, m)
  {
    HiddenUnread(s, w, calls, states, i, m);
    assert IsWanted(s, w, m) by {
      assert Goes(s, w, calls, states, i);
      ReadIsInReach(s, calls[i], states[i].pos, m.connection, m);
    }
    assert ClearCut(s, w, m);
    if !NeverHidden(s, w, m) { var h := HiddenHasHider(s, w, m); }
  }

  lemma {:induction false} ShownNext(s: Scope, w: World, calls: seq<Call>, states: seq<Progress>, i: nat, m: Message)
    requires Ran(s, w, calls, states) && i < |calls| && AllClearCut(s, w) && NoneHidden(s, w, states[i].emitted)
    requires m in states[i + 1].emitted
    ensures NeverHidden(s, w, m)
  {
    TurnOfState(s, w, calls, states, i, m);
    if m !in states[i].emitted {
      assert Goes(s, w, calls, states, i);
      ShownIsRead(s, calls[i], states[i].pos, m);
      ReadIsUnhidden(s, w, calls, states, i, m);
    }
  }

  lemma {:induction false} NoneShownYet(s: Scope, w: World, calls: seq<Call>, states: seq<Progress>)
    requires Ran(s, w, calls, states)
    ensures NoneHidden(s, w, states[0].emitted)
  {
  }

  lemma {:induction false} AllShownNext(s: Scope, w: World, calls: seq<Call>, states: seq<Progress>, i: nat)
    requires Ran(s, w, calls, states) && i < |calls| && AllClearCut(s, w) && NoneHidden(s, w, states[i].emitted)
    ensures NoneHidden(s, w, states[i + 1].emitted)
  {
    forall m | m in states[i + 1].emitted ensures NeverHidden(s, w, m) { ShownNext(s, w, calls, states, i, m); }
  }

  /** Then no page shows a message that something hides. */
  lemma {:induction false} ShownAreUnhidden(s: Scope, w: World, calls: seq<Call>, states: seq<Progress>, i: nat)
    requires Ran(s, w, calls, states) && i <= |calls| && AllClearCut(s, w)
    ensures NoneHidden(s, w, states[i].emitted)
    decreases i
  {
    if i == 0 {
      NoneShownYet(s, w, calls, states);
    } else {
      ShownAreUnhidden(s, w, calls, states, i - 1);
      AllShownNext(s, w, calls, states, i - 1);
    }
  }

  lemma {:induction false} HidingHides(s: Scope, w: World, calls: seq<Call>, states: seq<Progress>, i: nat, m: Message)
    requires Ran(s, w, calls, states) && i < |calls| && HidesAt(s, calls, states, i, m)
    ensures !NeverHidden(s, w, m)
  {
    var call, pos := calls[i], states[i].pos;
    assert Goes(s, w, calls, states, i);
    PageBegins(s, states[i], call);
    RestFacts(s, w, pos);
    MemberSplit(Rest(s, w, pos), |PageOf(s, call, pos)|, m);
    HidingIsWanted(s, w, pos, |PageOf(s, call, pos)|, m);
  }

  lemma {:induction false} ClearCutHidesNothing(s: Scope, w: World, calls: seq<Call>, states: seq<Progress>, i: nat,
                                                m: Message)
    requires Ran(s, w, calls, states) && i < |calls| && AllClearCut(s, w)
    ensures !HidesHeld(s, calls, states, i, m)
  {
    if HidesHeld(s, calls, states, i, m) {
      var j := HeldFrom(s, calls, states, i, m);
      ShownAreUnhidden(s, w, calls, states, j);
      ReadIsUnhidden(s, w, calls, states, j, m);
      HidingHides(s, w, calls, states, i, m);
    }
  }

  // ----- when something is not --------------------------------------------------------------------

  /** A traversal underway in pages of one message. */
  ghost predicate Stepping(s: Scope, w: World, calls: seq<Call>) {
    Underway(s, w, calls) && forall i :: 0 <= i < |calls| ==> calls[i] == Call(w, 1)
  }

  lemma {:induction false} SteppingRan(s: Scope, w: World, calls: seq<Call>)
    requires Underway(s, w, calls)
    ensures Ran(s, w, calls, States(s, calls)) && States(s, calls)[|calls|] == Outcome(s, calls)
  {
    StatesRan(s, w, calls);
    StateAt(s, calls, |calls|);
  }

  /** Such pages show only what nothing hides. */
  lemma {:induction false} FirstIsUnhidden(s: Scope, w: World, calls: seq<Call>, states: seq<Progress>, i: nat)
    requires Ran(s, w, calls, states) && i <= |calls| && NoneHidden(s, w, states[i].emitted)
    requires Rest(s, w, states[i].pos) != []
    ensures NeverHidden(s, w, Rest(s, w, states[i].pos)[0])
  {
    var rest := Rest(s, w, states[i].pos);
    RestFacts(s, w, states[i].pos);
    if !NeverHidden(s, w, rest[0]) {
      var h := HiddenHasHider(s, w, rest[0]);
      UnhiddenNotMissed(s, w, calls, states, i, h);
      assert h !in rest by { FirstComesFirst(rest, h); }
      assert rest[0] in rest;
      ShownHides(s, w, calls, states, i, h, rest[0]);
    }
  }

  lemma {:induction false} FirstComesFirst(rest: seq<Message>, h: Message)
    requires Strict(rest, ByOrder) && rest != [] && Less(ByOrder(h), ByOrder(rest[0]))
    ensures h !in rest
  {
    if h in rest {
      var k :| 0 <= k < |rest| && rest[k] == h;
      NotAfter(rest, k, 0);
    }
  }

  lemma {:induction false} SteppingNext(s: Scope, w: World, calls: seq<Call>, states: seq<Progress>, i: nat, m: Message)
    requires Ran(s, w, calls, states) && i < |calls| && calls[i] == Call(w, 1)
    requires NoneHidden(s, w, states[i].emitted) && m in states[i + 1].emitted
    ensures NeverHidden(s, w, m)
  {
    TurnOfState(s, w, calls, states, i, m);
    if m !in states[i].emitted {
      SinglePage(s, w, states[i].pos, m);
      FirstIsUnhidden(s, w, calls, states, i);
    }
  }

  lemma {:induction false} AllSteppingNext(s: Scope, w: World, calls: seq<Call>, states: seq<Progress>, i: nat)
    requires Ran(s, w, calls, states) && i < |calls| && calls[i] == Call(w, 1)
    requires NoneHidden(s, w, states[i].emitted)
    ensures NoneHidden(s, w, states[i + 1].emitted)
  {
    forall m | m in states[i + 1].emitted ensures NeverHidden(s, w, m) { SteppingNext(s, w, calls, states, i, m); }
  }

  lemma {:induction false} SteppingShows(s: Scope, w: World, calls: seq<Call>, states: seq<Progress>, i: nat)
    requires Ran(s, w, calls, states) && i <= |calls| && forall k :: 0 <= k < |calls| ==> calls[k] == Call(w, 1)
    ensures NoneHidden(s, w, states[i].emitted)
    decreases i
  {
    if i == 0 {
      NoneShownYet(s, w, calls, states);
    } else {
      SteppingShows(s, w, calls, states, i - 1);
      AllSteppingNext(s, w, calls, states, i - 1);
    }
  }

  /** At a state about to show a. */
  ghost predicate AboutToShow(s: Scope, w: World, p: Progress, a: Message)
    requires ValidWorld(s, w)
  {
    p.more && Rest(s, w, p.pos) != [] && Rest(s, w, p.pos)[0] == a
  }

  lemma {:induction false} StepTowards(s: Scope, w: World, p: Progress, a: Message)
    requires ValidScope(s) && ValidWorld(s, w) && NeverHidden(s, w, a) && a in Rest(s, w, p.pos)
    requires Rest(s, w, p.pos)[0] != a
    ensures var next := Turn(s, p, Call(w, 1)); next.more && a in Rest(s, w, next.pos)
  {
    var rest := Rest(s, w, p.pos);
    InReachIsWanted(s, w, p.pos);
    SinglePage(s, w, p.pos, a);
    TurnOfMessage(s, p, Call(w, 1), a);
    assert rest[0] in rest;
    assert !Hides(rest[0], a);
    var k :| 0 <= k < |rest| && rest[k] == a;
  }

  /** Pages of one message lead up to any message that nothing hides. */
  lemma {:induction false} StepUpTo(s: Scope, w: World, calls: seq<Call>, a: Message) returns (all: seq<Call>)
    requires Stepping(s, w, calls) && Outcome(s, calls).more
    requires NeverHidden(s, w, a) && a in Rest(s, w, Outcome(s, calls).pos)
    ensures Stepping(s, w, all) && AboutToShow(s, w, Outcome(s, all), a)
    decreases |Rest(s, w, map[])| + 1 - |calls|
  {
    if Rest(s, w, Outcome(s, calls).pos)[0] == a {
      all := calls;
    } else {
      var next := OneStep(s, w, calls);
      StepTowards(s, w, Outcome(s, calls), a);
      all := StepUpTo(s, w, next, a);
    }
  }

  /** The first of the messages that hide m is next, and those shown are hidden by none. */
  ghost predicate AtFirstHider(s: Scope, w: World, calls: seq<Call>, states: seq<Progress>, i: nat, m: Message) {
    && Ran(s, w, calls, states) && i <= |calls| && IsWanted(s, w, m)
    && NoneHidden(s, w, states[i].emitted) && Hiders(s, w, m) != []
    && AboutToShow(s, w, states[i], Hiders(s, w, m)[0])
  }

  lemma {:induction false} FirstHider(s: Scope, w: World, m: Message)
    requires ValidScope(s) && ValidWorld(s, w) && Hiders(s, w, m) != []
    ensures var first := Hiders(s, w, m)[0];
            && IsHider(s, w, first, m)
            && forall h :: IsHider(s, w, h, m) ==> h == first || Less(ByOrder(first), ByOrder(h))
  {
    HidersFacts(s, w, m);
    assert Hiders(s, w, m)[0] in Hiders(s, w, m);
  }

  lemma {:induction false} HiderInReach(s: Scope, w: World, calls: seq<Call>, states: seq<Progress>, i: nat,
                                        m: Message, h: Message)
    requires AtFirstHider(s, w, calls, states, i, m) && IsHider(s, w, h, m)
    ensures h in Rest(s, w, states[i].pos)
  {
    var rest := Rest(s, w, states[i].pos);
    FirstHider(s, w, m);
    UnhiddenNotMissed(s, w, calls, states, i, h);
    SoundState(s, w, calls, states, i);
    assert rest[0] in rest;
  }

  lemma {:induction false} NotLastShown(s: Scope, w: World, calls: seq<Call>, states: seq<Progress>, i: nat, m: Message,
                                        b: Message)
    requires AtFirstHider(s, w, calls, states, i, m) && LastOf(states[i].emitted, m.connection) == Some(b)
    ensures Less(ByOrder(b), ByOrder(Hiders(s, w, m)[0])) && IsWanted(s, w, b) && NeverHidden(s, w, b)
    ensures b.connection == m.connection
  {
    SoundState(s, w, calls, states, i);
    LastOfPage(states[i].emitted, m.connection, b);
    assert Rest(s, w, states[i].pos)[0] in Rest(s, w, states[i].pos);
  }

  /** Then m is still in reach. */
  lemma {:induction false} HiddenInReach(s: Scope, w: World, calls: seq<Call>, states: seq<Progress>, i: nat,
                                         m: Message)
    requires AtFirstHider(s, w, calls, states, i, m)
    ensures m in Rest(s, w, states[i].pos)
  {
    FirstHider(s, w, m);
    ReachAfter(s, w, calls, states, i, m);
    if LastOf(states[i].emitted, m.connection).Some? {
      var b := LastOf(states[i].emitted, m.connection).value;
      NotLastShown(s, w, calls, states, i, m, b);
      assert !IsHider(s, w, b, m);
    }
  }

  /** A clear-cut message of the connection in reach before m hides it too, and nothing hides it. */
  lemma {:induction false} BetweenIsHider(s: Scope, w: World, calls: seq<Call>, states: seq<Progress>, i: nat,
                                          m: Message, x: Message)
    requires AtFirstHider(s, w, calls, states, i, m) && |Hiders(s, w, m)| <= MAX_PAGE
    requires x in Rest(s, w, states[i].pos) && x.connection == m.connection && Less(ByOrder(x), ByOrder(m))
    requires ClearCut(s, w, x)
    ensures IsHider(s, w, x, m)
  {
    var first := Hiders(s, w, m)[0];
    FirstHider(s, w, m);
    RestFacts(s, w, states[i].pos);
    assert x == first || Less(ByOrder(first), ByOrder(x)) by { FirstOrLater(Rest(s, w, states[i].pos), x); }
    if !NeverHidden(s, w, x) {
      var h0 := HiddenHasHider(s, w, x);
      var h := ForeignHider(s, w, x, m);
      assert Less(ByOrder(h), ByOrder(first)) by { EarlierHider(s, w, first, h, x, m); }
      UnhiddenNotMissed(s, w, calls, states, i, h);
      FirstComesFirst(Rest(s, w, states[i].pos), h);
      ShownHides(s, w, calls, states, i, h, x);
    }
    assert !Hides(first, x);
  }

  lemma {:induction false} FirstOrLater(rest: seq<Message>, x: Message)
    requires Strict(rest, ByOrder) && x in rest
    ensures x == rest[0] || Less(ByOrder(rest[0]), ByOrder(x))
  {
    var k :| 0 <= k < |rest| && rest[k] == x;
  }

  /** Of more messages than m has hiding it, some does not hide it. */
  lemma {:induction false} ForeignHider(s: Scope, w: World, x: Message, m: Message) returns (h: Message)
    requires ValidScope(s) && ValidWorld(s, w) && |Hiders(s, w, x)| > |Hiders(s, w, m)|
    ensures IsHider(s, w, h, x) && !IsHider(s, w, h, m)
  {
    HidersFacts(s, w, x);
    HidersFacts(s, w, m);
    if forall h :: h in Hiders(s, w, x) ==> h in Hiders(s, w, m) {
      StrictPartLength(Hiders(s, w, x), Hiders(s, w, m), ByOrder);
    }
    h :| h in Hiders(s, w, x) && h !in Hiders(s, w, m);
  }

  /** What hides x before m, but not m, comes before everything that hides m. */
  lemma {:induction false} EarlierHider(s: Scope, w: World, first: Message, h: Message, x: Message, m: Message)
    requires ValidScope(s) && ValidWorld(s, w)
    requires IsHider(s, w, first, m) && IsHider(s, w, h, x) && !IsHider(s, w, h, m)
    requires x.connection == m.connection && Less(ByOrder(x), ByOrder(m))
    ensures Less(ByOrder(h), ByOrder(first))
  {
    assert !Hides(first, h);
    if first.uid == h.uid { SameMessage(s, w, first, h); }
  }

  /** A page as large as the number of messages hiding m reads m, and hides it. */
  lemma {:induction false} PageReadsHidden(s: Scope, w: World, calls: seq<Call>, states: seq<Progress>, i: nat,
                                           m: Message)
    requires AtFirstHider(s, w, calls, states, i, m) && |Hiders(s, w, m)| <= MAX_PAGE
    requires forall x :: IsWanted(s, w, x) && Less(ByOrder(x), ByOrder(m)) ==> ClearCut(s, w, x)
    ensures m in ReadOf(s, Call(w, |Hiders(s, w, m)|), states[i].pos, m.connection)
  {
    HidersFacts(s, w, m);
    HiddenInReach(s, w, calls, states, i, m);
    RestFacts(s, w, states[i].pos);
    forall x | x in Rest(s, w, states[i].pos) && x.connection == m.connection && Less(ByOrder(x), ByOrder(m))
      ensures x in Hiders(s, w, m)
    {
      BetweenIsHider(s, w, calls, states, i, m, x);
    }
    ReadBehindFew(s, Call(w, |Hiders(s, w, m)|), states[i].pos, m, Hiders(s, w, m));
  }

  lemma {:induction false} BehindHiders(rest: seq<Message>, hiders: seq<Message>, m: Message)
    requires Strict(rest, ByOrder) && Strict(hiders, ByOrder) && m in rest && hiders != [] && rest[0] == hiders[0]
    requires forall h :: h in hiders ==> h in rest && Less(ByOrder(h), ByOrder(m))
    ensures var page := Take(rest, |hiders|);
            && m !in page && Strict(page, ByOrder) && hiders[0] in page
            && forall x :: x in page ==> x in rest && Less(ByOrder(x), ByOrder(m))
  {
    var k :| 0 <= k < |rest| && rest[k] == m;
    forall h | h in hiders ensures h in rest[..k] { BelowIndex(rest, k, h); }
    StrictPartLength(hiders, rest[..k], ByOrder);
    var page := rest[..|hiders|];
    assert page[0] == hiders[0];
    forall x | x in page ensures x in rest && Less(ByOrder(x), ByOrder(m)) {
      var i :| 0 <= i < |hiders| && rest[i] == x;
    }
  }

  lemma {:induction false} HidersInReach(s: Scope, w: World, calls: seq<Call>, states: seq<Progress>, i: nat,
                                         m: Message)
    requires AtFirstHider(s, w, calls, states, i, m)
    ensures forall h :: h in Hiders(s, w, m) ==> h in Rest(s, w, states[i].pos) && Less(ByOrder(h), ByOrder(m))
    ensures Strict(Hiders(s, w, m), ByOrder)
  {
    HidersFacts(s, w, m);
    forall h | h in Hiders(s, w, m) ensures h in Rest(s, w, states[i].pos) && Less(ByOrder(h), ByOrder(m)) {
      HiderInReach(s, w, calls, states, i, m, h);
    }
  }

  /** The page of that size holds messages before m only, among them the first that hides it. */
  lemma {:induction false} PageBeforeHidden(s: Scope, w: World, calls: seq<Call>, states: seq<Progress>, i: nat,
                                            m: Message)
    requires AtFirstHider(s, w, calls, states, i, m)
    ensures var rest := Rest(s, w, states[i].pos);
            var page := Take(rest, |Hiders(s, w, m)|);
            && m in rest && m !in page && Strict(page, ByOrder) && Hiders(s, w, m)[0] in page
            && (forall x :: x in page ==> x in rest && Less(ByOrder(x), ByOrder(m)))
  {
    HiddenInReach(s, w, calls, states, i, m);
    RestFacts(s, w, states[i].pos);
    HidersInReach(s, w, calls, states, i, m);
    BehindHiders(Rest(s, w, states[i].pos), Hiders(s, w, m), m);
  }

  lemma {:induction false} LastOnPage(page: seq<Message>, c: int, a: Message) returns (last: Message)
    requires Strict(page, ByOrder) && a in page && a.connection == c
    ensures LastOf(page, c) == Some(last) && last in page && last.connection == c
  {
    FilterMembers(page, OfConnection(c));
    assert a in Filter(page, OfConnection(c));
    last := LastOf(page, c).value;
    LastOfPage(page, c, last);
  }

  lemma {:induction false} PageHidesHidden(s: Scope, w: World, calls: seq<Call>, states: seq<Progress>, i: nat,
                                           m: Message)
    requires AtFirstHider(s, w, calls, states, i, m) && |Hiders(s, w, m)| <= MAX_PAGE
    requires forall x :: IsWanted(s, w, x) && Less(ByOrder(x), ByOrder(m)) ==> ClearCut(s, w, x)
    ensures PageHides(s, Call(w, |Hiders(s, w, m)|), states[i].pos, m)
  {
    var page := Take(Rest(s, w, states[i].pos), |Hiders(s, w, m)|);
    PageBeforeHidden(s, w, calls, states, i, m);
    FirstHider(s, w, m);
    RestFacts(s, w, states[i].pos);
    var last := LastOnPage(page, m.connection, Hiders(s, w, m)[0]);
    BetweenIsHider(s, w, calls, states, i, m, last);
  }

  /** The first message in order that is not clear-cut. */
  lemma {:induction false} FirstUnclear(s: Scope, w: World, m: Message, k: nat) returns (first: Message)
    requires ValidScope(s) && ValidWorld(s, w) && IsWanted(s, w, m) && !ClearCut(s, w, m)
    requires k < |Rest(s, w, map[])| && Rest(s, w, map[])[k] == m
    ensures IsWanted(s, w, first) && !ClearCut(s, w, first)
    ensures forall x :: IsWanted(s, w, x) && Less(ByOrder(x), ByOrder(first)) ==> ClearCut(s, w, x)
    decreases k
  {
    if x :| IsWanted(s, w, x) && Less(ByOrder(x), ByOrder(m)) && !ClearCut(s, w, x) {
      AllInReachAtStart(s, w);
      RestFacts(s, w, map[]);
      var i :| 0 <= i < |Rest(s, w, map[])| && Rest(s, w, map[])[i] == x;
      NotAfter(Rest(s, w, map[]), i, k);
      first := FirstUnclear(s, w, x, i);
    } else {
      first := m;
    }
  }

  /** Pages of one message up to the first that hides it. */
  lemma {:induction false} UpToFirstHider(s: Scope, w: World, m: Message) returns (calls: seq<Call>)
    requires ValidScope(s) && ValidWorld(s, w) && IsWanted(s, w, m) && Hiders(s, w, m) != []
    ensures Underway(s, w, calls) && Outcome(s, calls).more
    ensures AtFirstHider(s, w, calls, States(s, calls), |calls|, m)
  {
    FirstHider(s, w, m);
    AllInReachAtStart(s, w);
    UnderwayLength(s, w, []);
    calls := StepUpTo(s, w, [], Hiders(s, w, m)[0]);
    SteppingRan(s, w, calls);
    SteppingShows(s, w, calls, States(s, calls), |calls|);
  }

  lemma {:induction false} ReadAndHidden(s: Scope, calls: seq<Call>, states: seq<Progress>, i: nat, call: Call,
                                         pos: Position, m: Message)
    requires AllValid(s, calls) && i < |calls| && |states| == |calls| + 1 && calls[i] == call && states[i].pos == pos
    requires PageHides(s, call, pos, m) && m in ReadOf(s, call, pos, m.connection) && m.connection in s.connections
    ensures HidesHeld(s, calls, states, i, m)
  {
    ReadIsHeld(s, calls, states, i, m);
  }

  /** A page at a state reads and hides the message, so the finished traversal disagrees. */
  lemma {:induction false} DisagreesAfter(s: Scope, w: World, before: seq<Call>, call: Call, calls: seq<Call>,
                                          m: Message)
    requires AllValid(s, before) && AllValid(s, calls) && before + [call] <= calls && ValidCall(s, call)
    requires PageHides(s, call, Outcome(s, before).pos, m) && m.connection in s.connections
    requires m in ReadOf(s, call, Outcome(s, before).pos, m.connection)
    ensures !HidesNothingHeld(s, calls)
  {
    StateBefore(s, before, calls);
    assert calls[|before|] == call;
    ReadAndHidden(s, calls, States(s, calls), |before|, call, Outcome(s, before).pos, m);
  }

  /** When a message is hidden by some, but no more than a page can hold, some finished traversal
      leaves a cache that shows a message it did not. */
  lemma {:induction false} SomeCacheShowsMore(s: Scope, w: World, uidValidity: map<int, nat>, initial: Cache)
    returns (calls: seq<Call>)
    requires ValidScope(s) && ValidWorld(s, w) && !AllClearCut(s, w)
    requires forall c :: c in s.connections ==> c in uidValidity && c in initial
    ensures Finished(s, w, calls) && !OfflineAgrees(s, calls, CacheLeft(s, calls, uidValidity, initial))
  {
    var some :| IsWanted(s, w, some) && !ClearCut(s, w, some);
    AllInReachAtStart(s, w);
    var k :| 0 <= k < |Rest(s, w, map[])| && Rest(s, w, map[])[k] == some;
    var m := FirstUnclear(s, w, some, k);
    var before := UpToFirstHider(s, w, m);
    var size := |Hiders(s, w, m)|;
    SteppingRan(s, w, before);
    PageReadsHidden(s, w, before, States(s, before), |before|, m);
    PageHidesHidden(s, w, before, States(s, before), |before|, m);
    var next := OneMore(s, w, before, size);
    calls := FollowToEnd(s, w, next);
    DisagreesAfter(s, w, before, Call(w, size), calls, m);
    AgreesExactly(s, w, calls, uidValidity, initial);
  }

  // ----- exactly ----------------------------------------------------------------------------------

  /** Every finished traversal of unchanged mailboxes agrees with every finished offline one after
      it if and only if each wanted message is hidden by none, or by more than one page can
      hold, of the messages of its connection that nothing hides. */
  lemma {:induction false} OfflineEqualsLiveExactly(s: Scope, w: World, uidValidity: map<int, nat>, initial: Cache)
    requires ValidScope(s) && ValidWorld(s, w)
    requires forall c :: c in s.connections ==> c in uidValidity && c in initial
    ensures AllClearCut(s, w)
            <==> forall calls :: Finished(s, w, calls)
                                 ==> OfflineAgrees(s, calls, CacheLeft(s, calls, uidValidity, initial))
  {
    if AllClearCut(s, w) {
      forall calls | Finished(s, w, calls) ensures OfflineAgrees(s, calls, CacheLeft(s, calls, uidValidity, initial)) {
        FinishedRan(s, w, calls);
        forall i, m | 0 <= i < |calls| ensures !HidesHeld(s, calls, States(s, calls), i, m) {
          ClearCutHidesNothing(s, w, calls, States(s, calls), i, m);
        }
        AgreesExactly(s, w, calls, uidValidity, initial);
      }
    } else {
      var calls := SomeCacheShowsMore(s, w, uidValidity, initial);
    }
  }

  /** Local dates in order leave nothing hidden. */
  lemma {:induction false} DatesInOrderAreClear(s: Scope, w: World)
    requires ValidScope(s) && ValidWorld(s, w) && DatesFollow(s, w)
    ensures AllClearCut(s, w)
  {
    forall m | IsWanted(s, w, m) ensures ClearCut(s, w, m) {
      HidersAre(s, w, m, []);
    }
  }

  /** A local date that rises among a connection's first messages, up to one more than a page can
      hold, makes some traversal disagree. */
  lemma {:induction false} EarlyRiseDisagrees(s: Scope, w: World, c: int, k: nat, uidValidity: map<int, nat>,
                                              initial: Cache) returns (calls: seq<Call>)
    requires ValidScope(s) && ValidWorld(s, w) && c in s.connections
    requires k < MAX_PAGE && k + 1 < |AllOf(s, w, c)|
    requires LocalDay(AllOf(s, w, c)[k].received) < LocalDay(AllOf(s, w, c)[k + 1].received)
    requires forall d :: d in s.connections ==> d in uidValidity && d in initial
    ensures Finished(s, w, calls) && !OfflineAgrees(s, calls, CacheLeft(s, calls, uidValidity, initial))
  {
    RiseIsUnclear(s, w, c, k);
    calls := SomeCacheShowsMore(s, w, uidValidity, initial);
  }

  /** What hides a message of a connection comes before it. */
  lemma {:induction false} HidersBefore(s: Scope, w: World, c: int, k: nat)
    requires ValidScope(s) && ValidWorld(s, w) && k < |AllOf(s, w, c)|
    ensures |Hiders(s, w, AllOf(s, w, c)[k])| <= k
  {
    var all := AllOf(s, w, c);
    OrderedPart(s, w, map[], c);
    AllInReachAtStart(s, w);
    HidersFacts(s, w, all[k]);
    assert all[k] in all;
    var hiders := Hiders(s, w, all[k]);
    forall h | h in hiders ensures h in all[..k] { BelowIndex(all, k, h); }
    StrictPartLength(hiders, all[..k], ByOrder);
  }

  lemma {:induction false} NeighboursHide(s: Scope, w: World, c: int, k: nat)
    requires ValidScope(s) && ValidWorld(s, w) && k + 1 < |AllOf(s, w, c)|
    requires LocalDay(AllOf(s, w, c)[k].received) < LocalDay(AllOf(s, w, c)[k + 1].received)
    ensures IsWanted(s, w, AllOf(s, w, c)[k + 1]) && !NeverHidden(s, w, AllOf(s, w, c)[k + 1])
  {
    var all := AllOf(s, w, c);
    OrderedPart(s, w, map[], c);
    AllInReachAtStart(s, w);
    assert all[k] in all && all[k + 1] in all && Less(ByOrder(all[k]), ByOrder(all[k + 1]));
    assert IsWanted(s, w, all[k]) && Hides(all[k], all[k + 1]);
  }

  lemma {:induction false} RiseIsUnclear(s: Scope, w: World, c: int, k: nat)
    requires ValidScope(s) && ValidWorld(s, w) && k < MAX_PAGE && k + 1 < |AllOf(s, w, c)|
    requires LocalDay(AllOf(s, w, c)[k].received) < LocalDay(AllOf(s, w, c)[k + 1].received)
    ensures IsWanted(s, w, AllOf(s, w, c)[k + 1]) && !ClearCut(s, w, AllOf(s, w, c)[k + 1])
  {
    NeighboursHide(s, w, c, k);
    HidersBefore(s, w, c, k + 1);
    var h := HiddenHasHider(s, w, AllOf(s, w, c)[k + 1]);
  }

  // ----- at inputs --------------------------------------------------------------------------------

  /** Written almost a day west, so that it is still the day before. */
  function Newer(i: nat): Message { Message(0, i + 2, Stamp(i + 1, 1 - DAY), true) }

  const HIDDEN: Message := Message(0, 1, Stamp(0, 0), true)

  function NewerMessages(n: nat): seq<Message> { seq(n, i requires 0 <= i < n => Newer(i)) }

  function NewestFirst(n: nat): seq<Message> { seq(n, i requires 0 <= i < n => Newer(n - 1 - i)) }

  /** One message, and n newer ones that all hide it. */
  function Crowd(n: nat): World { World(map[0 := [HIDDEN] + NewerMessages(n)], map[0 := n + 2]) }

  lemma {:induction false} CrowdIsWanted(s: Scope, n: nat)
    requires s == ONE_MAILBOX
    ensures ValidScope(s) && ValidWorld(s, Crowd(n)) && IsWanted(s, Crowd(n), HIDDEN)
    ensures forall m :: IsWanted(s, Crowd(n), m) ==> m == HIDDEN || m in NewestFirst(n)
    ensures forall m :: m in NewestFirst(n) ==> IsWanted(s, Crowd(n), m)
  {
    var mailbox := [HIDDEN] + NewerMessages(n);
    assert Crowd(n).mailboxes[0] == mailbox && mailbox[0] == HIDDEN;
    forall m | m in mailbox ensures m == HIDDEN || m in NewestFirst(n) {
      var i :| 0 <= i < |mailbox| && mailbox[i] == m;
      assert i > 0 ==> NewestFirst(n)[n - i] == m;
    }
    forall m | m in NewestFirst(n) ensures m in mailbox {
      var i :| 0 <= i < n && NewestFirst(n)[i] == m;
      assert mailbox[n - i] == m;
    }
  }

  lemma {:induction false} NewerFacts(n: nat, m: Message)
    requires n <= 1000 && m in NewestFirst(n)
    ensures m != HIDDEN && LocalDay(m.received) == -1 && Hides(m, HIDDEN)
  {
    var i :| 0 <= i < n && NewestFirst(n)[i] == m;
    assert m == Newer(n - 1 - i);
    assert LocalDay(HIDDEN.received) == 0;
  }

  lemma {:induction false} CrowdHides(s: Scope, n: nat, a: Message, m: Message)
    requires s == ONE_MAILBOX && n <= 1000 && IsWanted(s, Crowd(n), a) && IsWanted(s, Crowd(n), m)
    ensures Hides(a, m) <==> a in NewestFirst(n) && m == HIDDEN
  {
    CrowdIsWanted(s, n);
    if a in NewestFirst(n) { NewerFacts(n, a); }
    if m in NewestFirst(n) { NewerFacts(n, m); }
  }

  lemma {:induction false} CrowdIsHider(s: Scope, n: nat, a: Message, m: Message)
    requires s == ONE_MAILBOX && n <= 1000 && IsWanted(s, Crowd(n), m)
    ensures IsHider(s, Crowd(n), a, m) <==> a in NewestFirst(n) && m == HIDDEN
  {
    CrowdIsWanted(s, n);
    if IsWanted(s, Crowd(n), a) {
      CrowdHides(s, n, a, m);
      forall b | IsWanted(s, Crowd(n), b) ensures Hides(b, a) ==> a == HIDDEN { CrowdHides(s, n, b, a); }
      assert a in NewestFirst(n) ==> a != HIDDEN by { if a in NewestFirst(n) { NewerFacts(n, a); } }
    }
  }

  lemma {:induction false} CrowdHiders(s: Scope, n: nat, m: Message)
    requires s == ONE_MAILBOX && n <= 1000 && (m == HIDDEN || m in NewestFirst(n))
    ensures ValidWorld(s, Crowd(n)) && Hiders(s, Crowd(n), m) == if m == HIDDEN then NewestFirst(n) else []
  {
    CrowdIsWanted(s, n);
    var hiders := if m == HIDDEN then NewestFirst(n) else [];
    forall a ensures a in hiders <==> IsHider(s, Crowd(n), a, m) { CrowdIsHider(s, n, a, m); }
    HidersAre(s, Crowd(n), m, hiders);
  }

  lemma {:induction false} CrowdIsClear(s: Scope, n: nat)
    requires s == ONE_MAILBOX && n <= 1000
    ensures ValidScope(s) && ValidWorld(s, Crowd(n)) && (AllClearCut(s, Crowd(n)) <==> n == 0 || n > MAX_PAGE)
  {
    CrowdIsWanted(s, n);
    forall m | m == HIDDEN || m in NewestFirst(n)
      ensures Hiders(s, Crowd(n), m) == if m == HIDDEN then NewestFirst(n) else []
    {
      CrowdHiders(s, n, m);
    }
    assert ClearCut(s, Crowd(n), HIDDEN) <==> n == 0 || n > MAX_PAGE;
    if n == 0 || n > MAX_PAGE {
      forall m | IsWanted(s, Crowd(n), m) ensures ClearCut(s, Crowd(n), m) {
        assert m == HIDDEN || Hiders(s, Crowd(n), m) == [];
      }
    }
  }

  lemma {:induction false} CrowdRises(s: Scope, n: nat)
    requires s == ONE_MAILBOX && n <= 1000
    ensures DatesFollow(s, Crowd(n)) <==> n == 0
  {
    CrowdIsWanted(s, n);
    if n > 0 {
      assert NewestFirst(n)[0] in NewestFirst(n);
      CrowdHides(s, n, NewestFirst(n)[0], HIDDEN);
    } else {
      forall a, m | IsWanted(s, Crowd(n), a) && IsWanted(s, Crowd(n), m) ensures !Hides(a, m) {
        CrowdHides(s, n, a, m);
      }
    }
  }

  /** One message, and n newer ones with an earlier local date: live and offline always agree if
      and only if there are none of those, or more than a page can hold. With 102, dates rise
      and all traversals agree; with 100, some does not. */
  lemma {:induction false} CrowdAgrees(s: Scope, n: nat, uidValidity: map<int, nat>, initial: Cache)
    requires s == ONE_MAILBOX && n <= 1000 && 0 in uidValidity && 0 in initial
    ensures ValidScope(s) && ValidWorld(s, Crowd(n)) && (DatesFollow(s, Crowd(n)) <==> n == 0)
    ensures (forall calls :: Finished(s, Crowd(n), calls)
                             ==> OfflineAgrees(s, calls, CacheLeft(s, calls, uidValidity, initial)))
            <==> n == 0 || n > MAX_PAGE
  {
    CrowdRises(s, n);
    CrowdIsClear(s, n);
    OfflineEqualsLiveExactly(s, Crowd(n), uidValidity, initial);
  }
}
