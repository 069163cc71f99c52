/** Whole traversals: following the cursor page after page while mailboxes change between the
    calls. */
module Traversal {
  import opened Wrappers
  import opened Ordering
  import opened MailSearch
  import opened PageMerge
  import opened Pagination

  /** One call: the mailboxes as it reads them, and the page size asked for. */
  datatype Call = Call(world: World, size: nat)

  /** The same mail as before, which may have stopped matching but not started to. */
  ghost predicate Known(mailbox: seq<Message>, m: Message) {
    exists k :: k in mailbox && k.uid == m.uid && k.received == m.received && (m.matches ==> k.matches)
  }

  /** Between two calls mail is deleted, and arrives with UIDs from the recorded UIDNEXT on. */
  ghost predicate Evolves(s: Scope, w: World, later: World, pos: Position) {
    forall c :: c in s.connections && c in w.mailboxes && c in later.mailboxes ==>
      forall m :: m in later.mailboxes[c] && m.uid < StateOf(pos, c).uidNext ==> Known(w.mailboxes[c], m)
  }

  ghost predicate Started(s: Scope, pos: Position) {
    forall c :: c in s.connections ==> StateOf(pos, c).uidNext > 0
  }

  // ----- hidden mail ------------------------------------------------------------------------

  /** A search whose cursor is at `a` asks the server for days that `b` does not lie in,
      although `b` comes later: it was written where it is already another day. */
  predicate Hides(a: Message, b: Message) {
    && a.connection == b.connection && Less(ByOrder(a), ByOrder(b))
    && LocalDay(a.received) < LocalDay(b.received)
  }

  /** A page after which its connection's searches hide a message. */
  predicate HiddenBy(page: seq<Message>, m: Message) {
    var last := LastOf(page, m.connection);
    last.Some? && LocalDay(last.value.received) < LocalDay(m.received)
  }

  /** No wanted message before this one has an earlier local date. */
  ghost predicate NeverHidden(s: Scope, w: World, m: Message) {
    forall a :: IsWanted(s, w, a) ==> !Hides(a, m)
  }

  /** Local dates never rise along a connection's wanted mail in order. */
  ghost predicate DatesFollow(s: Scope, w: World) {
    forall m :: IsWanted(s, w, m) ==> NeverHidden(s, w, m)
  }

  /** A server that writes all dates in one zone, for instance. */
  lemma {:induction false} OneZoneFollows(s: Scope, w: World, zones: map<int, int>)
    requires forall c :: c in s.connections && c in w.mailboxes ==>
      c in zones && forall m :: m in w.mailboxes[c] ==> m.received.zone == zones[c]
    ensures DatesFollow(s, w)
  {
    forall a, m | IsWanted(s, w, a) && IsWanted(s, w, m) ensures !Hides(a, m) {
      if a.connection == m.connection && Less(ByOrder(a), ByOrder(m)) {
        assert a.received.time >= m.received.time && a.received.zone == m.received.zone;
      }
    }
  }

  // ----- one step ---------------------------------------------------------------------------

  function NextPos(s: Scope, w: World, pos: Position, page: seq<Message>): Position
    requires forall c :: c in s.connections ==> c in w.uidNext
  {
    Advance(s.connections, w.uidNext, pos, page)
  }

  /** Nothing new comes into view: what is left is part of what was left. */
  lemma {:induction false} RestShrinks(s: Scope, w: World, later: World, pos: Position)
    requires ValidScope(s) && ValidWorld(s, w) && ValidWorld(s, later) && Started(s, pos) && Evolves(s, w, later, pos)
    ensures forall m :: m in Rest(s, later, pos) ==> m in Rest(s, w, pos)
  {
    RestFacts(s, w, pos);
    RestFacts(s, later, pos);
    forall m | m in Rest(s, later, pos) ensures m in Rest(s, w, pos) {
      var c := m.connection;
      assert m.uid < StateOf(pos, c).uidNext;
      var k :| k in w.mailboxes[c] && k.uid == m.uid && k.received == m.received && (m.matches ==> k.matches);
      assert MailboxOk(w, c) && MailboxOk(later, c);
      assert k == m;
    }
  }

  lemma {:induction false} FitsLater(s: Scope, w: World, later: World, pos: Position)
    requires ValidScope(s) && ValidWorld(s, w) && ValidWorld(s, later)
    requires PositionFits(s, w, pos) && Evolves(s, w, later, pos)
    ensures PositionFits(s, later, pos)
  {
    forall c | c in s.connections ensures StateFits(later.mailboxes[c], StateOf(pos, c)) {
      assert StateFits(w.mailboxes[c], StateOf(pos, c));
    }
  }

  lemma {:induction false} NextStateFits(c: int, mailbox: seq<Message>, state: CursorState, page: seq<Message>,
                                         uidNext: nat)
    requires ValidMessages(c, mailbox, uidNext) && uidNext > 0 && StateFits(mailbox, state) && Strict(page, ByOrder)
    requires forall m :: m in page && m.connection == c ==> m in mailbox && PastCursor(state, m)
    ensures var next := NewState(state, LastOf(page, c), uidNext); StateFits(mailbox, next) && next.uidNext > 0
  {
    match LastOf(page, c)
    case None =>
    case Some(last) =>
      LastOfPage(page, c, last);
      SameUid(mailbox, last);
  }

  lemma {:induction false} NextFits(s: Scope, w: World, pos: Position, page: seq<Message>)
    requires ValidScope(s) && ValidWorld(s, w) && PositionFits(s, w, pos) && Strict(page, ByOrder)
    requires forall m :: m in page ==> InReach(s, w, pos, m)
    ensures PositionFits(s, w, NextPos(s, w, pos, page)) && Started(s, NextPos(s, w, pos, page))
  {
    var next := NextPos(s, w, pos, page);
    forall c | c in s.connections ensures StateFits(w.mailboxes[c], StateOf(next, c)) && StateOf(next, c).uidNext > 0 {
      assert MailboxOk(w, c);
      NextStateFits(c, w.mailboxes[c], StateOf(pos, c), page, w.uidNext[c]);
    }
  }

  lemma {:induction false} SameUid(mailbox: seq<Message>, m: Message)
    requires ValidMailbox(mailbox) && m in mailbox
    ensures forall k :: k in mailbox && k.uid == m.uid ==> k == m
  {
    forall k | k in mailbox && k.uid == m.uid ensures k == m {
      var i :| 0 <= i < |mailbox| && mailbox[i] == m;
      var j :| 0 <= j < |mailbox| && mailbox[j] == k;
      assert i < j ==> Less(ByUid(mailbox[i]), ByUid(mailbox[j]));
      assert j < i ==> Less(ByUid(mailbox[j]), ByUid(mailbox[i]));
    }
  }

  /** The day bound after a page: what was shown stays shown, unless the page's last message of
      the connection hides it; and what was hidden stays hidden. */
  lemma {:induction false} DayBoundMoves(s: Scope, w: World, pos: Position, page: seq<Message>, m: Message)
    requires ValidScope(s) && ValidWorld(s, w) && Strict(page, ByOrder) && m.connection in s.connections
    requires forall x :: x in page ==> InReach(s, w, pos, x)
    ensures DateShown(m, OptionsFor(s, NextPos(s, w, pos, page), m.connection, 0))
            <==> DateShown(m, OptionsFor(s, pos, m.connection, 0)) && !HiddenBy(page, m)
  {
    var before := OptionsFor(s, pos, m.connection, 0);
    var after := OptionsFor(s, NextPos(s, w, pos, page), m.connection, 0);
    match LastOf(page, m.connection)
    case None => assert BeforeDay(after) == BeforeDay(before);
    case Some(last) =>
      LastOfPage(page, m.connection, last);
      CursorBoundsDay(after);
      assert DateShown(last, before);
  }

  lemma {:induction false} WantedUids(s: Scope, w: World)
    requires ValidScope(s) && ValidWorld(s, w)
    ensures forall m :: IsWanted(s, w, m) ==> m.uid < w.uidNext[m.connection]
  {
    forall m | IsWanted(s, w, m) ensures m.uid < w.uidNext[m.connection] { assert MailboxOk(w, m.connection); }
  }

  lemma {:induction false} LeftInReach(s: Scope, w: World, pos: Position, n: nat, m: Message)
    requires ValidScope(s) && ValidWorld(s, w) && n <= |Rest(s, w, pos)| && m in Rest(s, w, pos)
    ensures var rest := Rest(s, w, pos);
            InReach(s, w, NextPos(s, w, pos, rest[..n]), m) <==> m in rest[n..] && !HiddenBy(rest[..n], m)
  {
    var rest := Rest(s, w, pos);
    RestFacts(s, w, pos);
    WantedUids(s, w);
    assert forall x :: x in rest[..n] ==> x in rest;
    DayBoundMoves(s, w, pos, rest[..n], m);
    AdvanceWithin(s.connections, w.uidNext, pos, rest, n, m);
  }

  lemma {:induction false} OutOfReach(s: Scope, w: World, pos: Position, page: seq<Message>, m: Message)
    requires ValidScope(s) && ValidWorld(s, w) && Strict(page, ByOrder) && !InReach(s, w, pos, m)
    requires forall x :: x in page ==> InReach(s, w, pos, x)
    ensures !InReach(s, w, NextPos(s, w, pos, page), m)
  {
    if IsWanted(s, w, m) {
      DayBoundMoves(s, w, pos, page, m);
      WantedUids(s, w);
      AdvancePast(s.connections, w.uidNext, pos, page, m);
    }
  }

  lemma {:induction false} LeftMember(s: Scope, w: World, pos: Position, n: nat, m: Message)
    requires ValidScope(s) && ValidWorld(s, w) && n <= |Rest(s, w, pos)|
    ensures var rest := Rest(s, w, pos);
            InReach(s, w, NextPos(s, w, pos, rest[..n]), m) <==> m in rest[n..] && !HiddenBy(rest[..n], m)
  {
    var rest := Rest(s, w, pos);
    RestFacts(s, w, pos);
    if m in rest {
      LeftInReach(s, w, pos, n, m);
    } else {
      assert forall x :: x in rest[..n] ==> x in rest;
      OutOfReach(s, w, pos, rest[..n], m);
    }
  }

  /** After a page exactly the messages not on it are in reach, less those it hides. */
  lemma {:induction false} AdvanceRest(s: Scope, w: World, pos: Position, n: nat)
    requires ValidScope(s) && ValidWorld(s, w) && n <= |Rest(s, w, pos)|
    ensures var rest := Rest(s, w, pos);
            forall m :: m in Rest(s, w, NextPos(s, w, pos, rest[..n])) <==> m in rest[n..] && !HiddenBy(rest[..n], m)
  {
    var rest := Rest(s, w, pos);
    var next := NextPos(s, w, pos, rest[..n]);
    RestFacts(s, w, next);
    forall m ensures m in Rest(s, w, next) <==> m in rest[n..] && !HiddenBy(rest[..n], m) {
      LeftMember(s, w, pos, n, m);
      assert m in Rest(s, w, next) <==> InReach(s, w, next, m);
    }
  }

  /** A page that hides nothing leaves what was left less the page. */
  lemma {:induction false} AdvanceRestWhole(s: Scope, w: World, pos: Position, n: nat)
    requires ValidScope(s) && ValidWorld(s, w) && n <= |Rest(s, w, pos)|
    requires forall m :: m in Rest(s, w, pos)[n..] ==> !HiddenBy(Rest(s, w, pos)[..n], m)
    ensures Rest(s, w, NextPos(s, w, pos, Rest(s, w, pos)[..n])) == Rest(s, w, pos)[n..]
  {
    var next := NextPos(s, w, pos, Rest(s, w, pos)[..n]);
    RestFacts(s, w, pos);
    RestFacts(s, w, next);
    AdvanceRest(s, w, pos, n);
    StrictUnique(Rest(s, w, next), Rest(s, w, pos)[n..], ByOrder);
  }

  /** A message is hidden only by wanted messages before it. */
  lemma {:induction false} HidingIsWanted(s: Scope, w: World, pos: Position, n: nat, m: Message)
    requires ValidScope(s) && ValidWorld(s, w) && n <= |Rest(s, w, pos)| && m in Rest(s, w, pos)[n..]
    requires HiddenBy(Rest(s, w, pos)[..n], m)
    ensures exists a :: a in Rest(s, w, pos) && Hides(a, m)
  {
    var rest := Rest(s, w, pos);
    RestFacts(s, w, pos);
    var last := LastOf(rest[..n], m.connection).value;
    LastOfPage(rest[..n], m.connection, last);
    Later(rest, n, last, m);
    assert last in rest && Hides(last, m);
  }

  // ----- runs -----------------------------------------------------------------------------------

  ghost predicate ValidCall(s: Scope, call: Call) { ValidScope(s) && ValidWorld(s, call.world) && ValidSize(call.size) }

  ghost predicate AllValid(s: Scope, calls: seq<Call>) {
    forall i :: 0 <= i < |calls| ==> ValidCall(s, calls[i])
  }

  /** What SearchMessages shows. */
  function PageOf(s: Scope, call: Call, pos: Position): seq<Message>
    requires ValidCall(s, call)
  {
    Take(Rest(s, call.world, pos), call.size)
  }

  function Turn(s: Scope, p: Progress, call: Call): Progress
    requires ValidCall(s, call)
  {
    var page := PageOf(s, call, p.pos);
    Progress(NextPos(s, call.world, p.pos, page), p.emitted + page, |Rest(s, call.world, p.pos)| > call.size)
  }

  /** The state after the first n calls. */
  function After(s: Scope, calls: seq<Call>, n: nat): Progress
    requires AllValid(s, calls) && n <= |calls|
  {
    if n == 0 then Progress(map[], [], true) else Turn(s, After(s, calls, n - 1), calls[n - 1])
  }

  /** A call follows the cursor of the one before, over mailboxes that evolved since. */
  ghost predicate FollowsAt(s: Scope, calls: seq<Call>, n: nat)
    requires AllValid(s, calls) && 0 < n < |calls|
  {
    After(s, calls, n).more && Evolves(s, calls[n - 1].world, calls[n].world, After(s, calls, n).pos)
  }

  ghost predicate Follows(s: Scope, calls: seq<Call>)
    requires AllValid(s, calls)
  {
    forall n :: 0 < n < |calls| ==> FollowsAt(s, calls, n)
  }

  /** What holds between a page and what is left behind it, in terms of the first mailboxes. */
  ghost predicate Sound(s: Scope, first: World, w: World, pos: Position, emitted: seq<Message>)
    requires forall c :: c in s.connections ==> c in w.mailboxes && c in first.mailboxes
  {
    && PositionFits(s, w, pos) && Strict(emitted, ByOrder)
    && (forall e, m :: e in emitted && m in Rest(s, w, pos) ==> Less(ByOrder(e), ByOrder(m)))
    && (forall m :: m in emitted || m in Rest(s, w, pos) ==> IsWanted(s, first, m))
    && |emitted| + |Rest(s, w, pos)| <= |Rest(s, first, map[])|
  }

  lemma {:induction false} SoundLater(s: Scope, first: World, w: World, later: World, pos: Position,
                                      emitted: seq<Message>)
    requires ValidScope(s) && ValidWorld(s, first) && ValidWorld(s, w) && ValidWorld(s, later) && Started(s, pos)
    requires Sound(s, first, w, pos, emitted) && Evolves(s, w, later, pos)
    ensures Sound(s, first, later, pos, emitted)
  {
    FitsLater(s, w, later, pos);
    RestShrinks(s, w, later, pos);
    RestFacts(s, w, pos);
    RestFacts(s, later, pos);
    StrictPartLength(Rest(s, later, pos), Rest(s, w, pos), ByOrder);
  }

  /** A page moves from the rest to what was shown; some of what was behind it may go. */
  lemma {:induction false} PageKeepsOrder(emitted: seq<Message>, rest: seq<Message>, n: nat, left: seq<Message>)
    requires Strict(emitted, ByOrder) && Strict(rest, ByOrder) && Strict(left, ByOrder) && n <= |rest|
    requires forall e, m :: e in emitted && m in rest ==> Less(ByOrder(e), ByOrder(m))
    requires forall m :: m in left ==> m in rest[n..]
    ensures Strict(emitted + rest[..n], ByOrder) && |left| <= |rest| - n
    ensures forall e, m :: e in emitted + rest[..n] && m in left ==> Less(ByOrder(e), ByOrder(m))
    ensures forall m :: m in emitted + rest[..n] || m in left ==> m in emitted || m in rest
  {
    assert forall m :: m in rest[..n] || m in rest[n..] ==> m in rest;
    JoinStrict(emitted, rest[..n]);
    forall e, m | e in rest[..n] && m in left ensures Less(ByOrder(e), ByOrder(m)) { Later(rest, n, e, m); }
    StrictPartLength(left, rest[n..], ByOrder);
  }

  lemma {:induction false} LeftBehind(s: Scope, w: World, pos: Position, n: nat)
    requires ValidScope(s) && ValidWorld(s, w) && n <= |Rest(s, w, pos)|
    ensures var left := Rest(s, w, NextPos(s, w, pos, Rest(s, w, pos)[..n]));
            Strict(left, ByOrder) && forall m :: m in left ==> m in Rest(s, w, pos)[n..]
  {
    RestFacts(s, w, NextPos(s, w, pos, Rest(s, w, pos)[..n]));
    AdvanceRest(s, w, pos, n);
  }

  lemma {:induction false} PageFits(s: Scope, w: World, pos: Position, n: nat)
    requires ValidScope(s) && ValidWorld(s, w) && PositionFits(s, w, pos) && n <= |Rest(s, w, pos)|
    ensures var next := NextPos(s, w, pos, Rest(s, w, pos)[..n]);
            PositionFits(s, w, next) && Started(s, next) && Strict(Rest(s, w, pos), ByOrder)
  {
    var page := Rest(s, w, pos)[..n];
    RestFacts(s, w, pos);
    assert forall m :: m in page ==> m in Rest(s, w, pos);
    NextFits(s, w, pos, page);
  }

  lemma {:induction false} SoundAfterPage(s: Scope, first: World, w: World, pos: Position, emitted: seq<Message>,
                                          n: nat)
    requires ValidScope(s) && ValidWorld(s, first) && ValidWorld(s, w)
    requires Sound(s, first, w, pos, emitted) && n <= |Rest(s, w, pos)|
    ensures var page := Rest(s, w, pos)[..n];
            var next := NextPos(s, w, pos, page);
            && Sound(s, first, w, next, emitted + page) && Started(s, next)
            && |Rest(s, w, next)| <= |Rest(s, w, pos)| - n
  {
    var rest := Rest(s, w, pos);
    PageFits(s, w, pos, n);
    LeftBehind(s, w, pos, n);
    PageKeepsOrder(emitted, rest, n, Rest(s, w, NextPos(s, w, pos, rest[..n])));
  }

  lemma {:induction false} JoinStrict(a: seq<Message>, b: seq<Message>)
    requires Strict(a, ByOrder) && Strict(b, ByOrder)
    requires forall e, m :: e in a && m in b ==> Less(ByOrder(e), ByOrder(m))
    ensures Strict(a + b, ByOrder)
  {
  }

  /** A page takes the beginning of the rest, and all of it when no cursor comes with it. */
  lemma {:induction false} PageBegins(s: Scope, p: Progress, call: Call)
    requires ValidCall(s, call)
    ensures var page := PageOf(s, call, p.pos); var rest := Rest(s, call.world, p.pos);
            && page == rest[..|page|] && |page| <= |rest|
            && Turn(s, p, call) == Progress(NextPos(s, call.world, p.pos, rest[..|page|]), p.emitted + rest[..|page|],
                                            |page| < |rest|)
            && (|page| < |rest| ==> |page| == call.size)
  {
  }

  /** What holds after every page. */
  ghost predicate Stands(s: Scope, first: World, w: World, p: Progress)
    requires forall c :: c in s.connections ==> c in w.mailboxes && c in first.mailboxes
  {
    Sound(s, first, w, p.pos, p.emitted) && Started(s, p.pos) && (!p.more ==> Rest(s, w, p.pos) == [])
  }

  /** One call keeps the invariant, and shows a full page if more is left. */
  lemma {:induction false} TurnSound(s: Scope, first: World, p: Progress, call: Call)
    requires ValidScope(s) && ValidWorld(s, first) && ValidCall(s, call)
    requires Sound(s, first, call.world, p.pos, p.emitted)
    ensures var next := Turn(s, p, call);
            && Stands(s, first, call.world, next)
            && |next.emitted| >= |p.emitted| + if next.more then 1 else 0
  {
    PageBegins(s, p, call);
    var page := PageOf(s, call, p.pos);
    SoundAfterPage(s, first, call.world, p.pos, p.emitted, |page|);
  }

  lemma {:induction false} FirstSound(s: Scope, first: World)
    requires ValidScope(s) && ValidWorld(s, first)
    ensures Sound(s, first, first, map[], [])
  {
    RestFacts(s, first, map[]);
  }

  ghost predicate RunOk(s: Scope, calls: seq<Call>, n: nat)
    requires AllValid(s, calls) && 0 < n <= |calls|
  {
    var p := After(s, calls, n);
    Stands(s, calls[0].world, calls[n - 1].world, p) && |p.emitted| >= if p.more then n else n - 1
  }

  /** The mailboxes a call meets keep what the calls before it established. */
  ghost predicate ReadyFor(s: Scope, calls: seq<Call>, n: nat)
    requires AllValid(s, calls) && n < |calls|
  {
    var p := After(s, calls, n);
    Sound(s, calls[0].world, calls[n].world, p.pos, p.emitted) && |p.emitted| >= n
  }

  lemma {:induction false} RunReady(s: Scope, calls: seq<Call>, n: nat)
    requires AllValid(s, calls) && Follows(s, calls) && 0 < n < |calls| && RunOk(s, calls, n)
    ensures ReadyFor(s, calls, n)
  {
    var p := After(s, calls, n);
    assert FollowsAt(s, calls, n);
    SoundLater(s, calls[0].world, calls[n - 1].world, calls[n].world, p.pos, p.emitted);
  }

  lemma {:induction false} StartReady(s: Scope, calls: seq<Call>)
    requires AllValid(s, calls) && calls != []
    ensures ReadyFor(s, calls, 0)
  {
    FirstSound(s, calls[0].world);
  }

  lemma {:induction false} CallSound(s: Scope, calls: seq<Call>, n: nat)
    requires AllValid(s, calls) && 0 < n <= |calls| && ReadyFor(s, calls, n - 1)
    ensures RunOk(s, calls, n)
  {
    TurnSound(s, calls[0].world, After(s, calls, n - 1), calls[n - 1]);
  }

  lemma {:induction false} RunSound(s: Scope, calls: seq<Call>, n: nat)
    requires AllValid(s, calls) && Follows(s, calls) && 0 < n <= |calls|
    ensures RunOk(s, calls, n) && ReadyFor(s, calls, n - 1)
    decreases n
  {
    assert ReadyFor(s, calls, n - 1) by {
      if n > 1 {
        RunSound(s, calls, n - 1);
        RunReady(s, calls, n - 1);
      } else {
        StartReady(s, calls);
      }
    }
    CallSound(s, calls, n);
  }

  /** A wanted message that is in its mailbox at every call. */
  ghost predicate PresentThroughout(s: Scope, calls: seq<Call>, m: Message) {
    forall i :: 0 <= i < |calls| ==> IsWanted(s, calls[i].world, m)
  }

  /** What is behind a page and not hidden by it is in reach after it. */
  lemma {:induction false} PageMissesNothing(s: Scope, first: World, w: World, pos: Position, n: nat, m: Message)
    requires ValidScope(s) && ValidWorld(s, w) && n <= |Rest(s, w, pos)| && m in Rest(s, w, pos)
    requires NeverHidden(s, first, m) && forall x :: x in Rest(s, w, pos) ==> IsWanted(s, first, x)
    ensures m in Rest(s, w, pos)[..n] || m in Rest(s, w, NextPos(s, w, pos, Rest(s, w, pos)[..n]))
  {
    var rest := Rest(s, w, pos);
    assert rest == rest[..n] + rest[n..];
    AdvanceRest(s, w, pos, n);
    if m in rest[n..] && HiddenBy(rest[..n], m) {
      HidingIsWanted(s, w, pos, n, m);
    }
  }

  /** A message in reach before a call is on its page or in reach after it. */
  lemma {:induction false} TurnMissesNothing(s: Scope, first: World, p: Progress, call: Call, m: Message)
    requires ValidCall(s, call) && m in Rest(s, call.world, p.pos) && NeverHidden(s, first, m)
    requires forall x :: x in Rest(s, call.world, p.pos) ==> IsWanted(s, first, x)
    ensures m in Turn(s, p, call).emitted || m in Rest(s, call.world, Turn(s, p, call).pos)
  {
    PageBegins(s, p, call);
    PageMissesNothing(s, first, call.world, p.pos, |PageOf(s, call, p.pos)|, m);
  }

  /** A message in reach that is not deleted remains so. */
  lemma {:induction false} StillInReach(s: Scope, w: World, later: World, pos: Position, m: Message)
    requires ValidScope(s) && ValidWorld(s, w) && ValidWorld(s, later)
    requires m in Rest(s, w, pos) && IsWanted(s, later, m)
    ensures m in Rest(s, later, pos)
  {
    RestFacts(s, w, pos);
    RestFacts(s, later, pos);
  }

  /** Shown already, or in reach of the next call. */
  ghost predicate NotMissed(s: Scope, w: World, p: Progress, m: Message)
    requires ValidWorld(s, w)
  {
    m in p.emitted || m in Rest(s, w, p.pos)
  }

  lemma {:induction false} CallMissesNothing(s: Scope, calls: seq<Call>, n: nat, m: Message)
    requires AllValid(s, calls) && 0 < n <= |calls| && ReadyFor(s, calls, n - 1) && NeverHidden(s, calls[0].world, m)
    requires NotMissed(s, calls[n - 1].world, After(s, calls, n - 1), m)
    ensures NotMissed(s, calls[n - 1].world, After(s, calls, n), m)
  {
    var p := After(s, calls, n - 1);
    if m !in p.emitted {
      TurnMissesNothing(s, calls[0].world, p, calls[n - 1], m);
    }
  }

  lemma {:induction false} NothingMissedNext(s: Scope, calls: seq<Call>, n: nat, m: Message)
    requires AllValid(s, calls) && Follows(s, calls) && 0 < n <= |calls| && NeverHidden(s, calls[0].world, m)
    requires NotMissed(s, calls[n - 1].world, After(s, calls, n - 1), m)
    ensures NotMissed(s, calls[n - 1].world, After(s, calls, n), m)
  {
    RunSound(s, calls, n);
    CallMissesNothing(s, calls, n, m);
  }

  /** Mail present throughout that nothing before it can hide is shown already or in reach. */
  lemma {:induction false} NothingMissed(s: Scope, calls: seq<Call>, n: nat, m: Message)
    requires AllValid(s, calls) && Follows(s, calls) && PresentThroughout(s, calls, m) && 0 < n <= |calls|
    requires NeverHidden(s, calls[0].world, m)
    ensures NotMissed(s, calls[n - 1].world, After(s, calls, n), m)
    decreases n
  {
    assert NotMissed(s, calls[n - 1].world, After(s, calls, n - 1), m) by {
      if n > 1 {
        NothingMissed(s, calls, n - 1, m);
        NotMissedLater(s, calls[n - 2].world, calls[n - 1].world, After(s, calls, n - 1), m);
      } else {
        AllInReachAtStart(s, calls[0].world);
      }
    }
    NothingMissedNext(s, calls, n, m);
  }

  lemma {:induction false} NotMissedLater(s: Scope, w: World, later: World, p: Progress, m: Message)
    requires ValidScope(s) && ValidWorld(s, w) && ValidWorld(s, later) && IsWanted(s, later, m) && NotMissed(s, w, p, m)
    ensures NotMissed(s, later, p, m)
  {
    if m !in p.emitted {
      StillInReach(s, w, later, p.pos, m);
    }
  }

  /** What a traversal has shown at the end, and whether it ended. */
  function Outcome(s: Scope, calls: seq<Call>): Progress
    requires AllValid(s, calls)
  {
    After(s, calls, |calls|)
  }

  /** Complete pagination under change. The joined pages are strictly in order, so no message
      comes twice; they hold only mail of the first moment; there are no more pages than that
      mail, and one; and when the traversal ends they hold all mail present throughout, except
      what an earlier message of its connection can hide. */
  lemma {:induction false} CompletePagination(s: Scope, calls: seq<Call>)
    requires AllValid(s, calls) && calls != [] && Follows(s, calls)
    ensures Strict(Outcome(s, calls).emitted, ByOrder)
    ensures forall m :: m in Outcome(s, calls).emitted ==> IsWanted(s, calls[0].world, m)
    ensures |calls| <= |Rest(s, calls[0].world, map[])| + 1
    ensures !Outcome(s, calls).more ==>
              forall m :: PresentThroughout(s, calls, m) && NeverHidden(s, calls[0].world, m)
                          ==> m in Outcome(s, calls).emitted
    ensures PositionFits(s, calls[|calls| - 1].world, Outcome(s, calls).pos)
  {
    RunSound(s, calls, |calls|);
    if !Outcome(s, calls).more {
      forall m | PresentThroughout(s, calls, m) && NeverHidden(s, calls[0].world, m)
        ensures m in Outcome(s, calls).emitted
      {
        NothingMissed(s, calls, |calls|, m);
      }
    }
  }
}
