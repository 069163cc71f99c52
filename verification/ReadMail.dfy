/** What the pages of a traversal of unchanged mailboxes read, show and hide, and which of it the
    scoped cache still holds. */
module ReadMail {
  import opened Wrappers
  import opened Ordering
  import opened MailSearch
  import opened PageMerge
  import opened Pagination
  import opened Traversal
  import opened HiddenMail
  import opened OfflineCache
  import opened CachedPages
  import opened CachedTraversal

  // ----- reach, in terms of what was shown --------------------------------------------------------

  /** A connection's cursor is at the last of its messages shown. */
  ghost predicate CursorAt(state: CursorState, shown: Option<Message>, uidNext: nat) {
    && (state.uidNext == 0 || state.uidNext == uidNext)
    && state.last == match shown case None => None case Some(b) => Some(Cursor(b.received, b.uid))
  }

  lemma {:induction false} LastOfJoined(a: seq<Message>, b: seq<Message>, c: int)
    ensures LastOf(a + b, c) == if LastOf(b, c).Some? then LastOf(b, c) else LastOf(a, c)
  {
    FilterAppend(a, b, OfConnection(c));
  }

  lemma {:induction false} CursorMoves(s: Scope, p: Progress, call: Call, c: int)
    requires ValidCall(s, call) && c in s.connections
    requires CursorAt(StateOf(p.pos, c), LastOf(p.emitted, c), call.world.uidNext[c])
    ensures var next := Turn(s, p, call);
            CursorAt(StateOf(next.pos, c), LastOf(next.emitted, c), call.world.uidNext[c])
  {
    TurnOfConnection(s, p, call, c);
    LastOfJoined(p.emitted, PageOf(s, call, p.pos), c);
  }

  /** The cursors after call i. */
  ghost predicate CursorHolds(w: World, p: Progress, c: int)
    requires c in w.uidNext
  {
    CursorAt(StateOf(p.pos, c), LastOf(p.emitted, c), w.uidNext[c])
  }

  lemma {:induction false} CursorNext(s: Scope, w: World, calls: seq<Call>, states: seq<Progress>, i: nat, c: int)
    requires Ran(s, w, calls, states) && i < |calls| && c in s.connections && CursorHolds(w, states[i], c)
    ensures CursorHolds(w, states[i + 1], c)
  {
    assert Goes(s, w, calls, states, i);
    CursorMoves(s, states[i], calls[i], c);
  }

  lemma {:induction false} CursorOfState(s: Scope, w: World, calls: seq<Call>, states: seq<Progress>, i: nat, c: int)
    requires Ran(s, w, calls, states) && i <= |calls| && c in s.connections
    ensures CursorHolds(w, states[i], c)
    decreases i
  {
    if i > 0 {
      CursorOfState(s, w, calls, states, i - 1, c);
      CursorNext(s, w, calls, states, i - 1, c);
    }
  }

  lemma {:induction false} SoundFirst(s: Scope, w: World, calls: seq<Call>, states: seq<Progress>)
    requires Ran(s, w, calls, states)
    ensures Sound(s, w, w, states[0].pos, states[0].emitted)
  {
    FirstSound(s, w);
  }

  lemma {:induction false} SoundNext(s: Scope, w: World, calls: seq<Call>, states: seq<Progress>, i: nat)
    requires Ran(s, w, calls, states) && i < |calls| && Sound(s, w, w, states[i].pos, states[i].emitted)
    ensures Sound(s, w, w, states[i + 1].pos, states[i + 1].emitted)
  {
    assert Goes(s, w, calls, states, i);
    TurnSound(s, w, states[i], calls[i]);
  }

  lemma {:induction false} SoundState(s: Scope, w: World, calls: seq<Call>, states: seq<Progress>, i: nat)
    requires Ran(s, w, calls, states) && i <= |calls|
    ensures Sound(s, w, w, states[i].pos, states[i].emitted)
    decreases i
  {
    if i > 0 {
      SoundState(s, w, calls, states, i - 1);
      SoundNext(s, w, calls, states, i - 1);
    } else {
      SoundFirst(s, w, calls, states);
    }
  }

  /** Wanted, after the last message shown of its connection, and not hidden by it. */
  ghost predicate Reaches(s: Scope, w: World, emitted: seq<Message>, m: Message) {
    && IsWanted(s, w, m)
    && match LastOf(emitted, m.connection)
       case None => true
       case Some(b) => Less(ByOrder(b), ByOrder(m)) && LocalDay(m.received) <= LocalDay(b.received)
  }

  lemma {:induction false} ReachAtCursor(s: Scope, w: World, pos: Position, emitted: seq<Message>, m: Message)
    requires ValidScope(s) && ValidWorld(s, w) && IsWanted(s, w, m)
    requires CursorAt(StateOf(pos, m.connection), LastOf(emitted, m.connection), w.uidNext[m.connection])
    requires forall b :: LastOf(emitted, m.connection) == Some(b) ==> IsWanted(s, w, b) && b.connection == m.connection
    ensures InReach(s, w, pos, m) <==> Reaches(s, w, emitted, m)
  {
    var o := OptionsFor(s, pos, m.connection, 0);
    assert MailboxOk(w, m.connection);
    match LastOf(emitted, m.connection)
    case None =>
      DayBoundsAreSafe(m, o);
    case Some(b) =>
      CursorBoundsDay(o);
  }

  /** What a traversal can still show depends on what it has shown, and on nothing else. */
  lemma {:induction false} ReachAfter(s: Scope, w: World, calls: seq<Call>, states: seq<Progress>, i: nat, m: Message)
    requires Ran(s, w, calls, states) && i <= |calls|
    ensures m in Rest(s, w, states[i].pos) <==> Reaches(s, w, states[i].emitted, m)
  {
    RestFacts(s, w, states[i].pos);
    if IsWanted(s, w, m) {
      SoundState(s, w, calls, states, i);
      CursorOfState(s, w, calls, states, i, m.connection);
      forall b | LastOf(states[i].emitted, m.connection) == Some(b)
        ensures IsWanted(s, w, b) && b.connection == m.connection
      {
        LastOfPage(states[i].emitted, m.connection, b);
      }
      ReachAtCursor(s, w, states[i].pos, states[i].emitted, m);
    }
  }

  // ----- one message, page after page -------------------------------------------------------------

  lemma {:induction false} TurnOfState(s: Scope, w: World, calls: seq<Call>, states: seq<Progress>, i: nat, m: Message)
    requires Ran(s, w, calls, states) && i < |calls|
    ensures var page := PageOf(s, calls[i], states[i].pos);
            && (m in states[i + 1].emitted <==> m in states[i].emitted || m in page)
            && (m in Rest(s, w, states[i + 1].pos)
                <==> m in Rest(s, w, states[i].pos) && m !in page && !HiddenBy(page, m))
  {
    assert Goes(s, w, calls, states, i);
    TurnOfMessage(s, states[i], calls[i], m);
  }

  /** A page hides a message behind it. */
  ghost predicate PageHides(s: Scope, call: Call, pos: Position, m: Message)
    requires ValidCall(s, call)
  {
    m in Rest(s, call.world, pos) && m !in PageOf(s, call, pos) && HiddenBy(PageOf(s, call, pos), m)
  }

  /** Neither shown nor in reach. */
  ghost predicate Gone(s: Scope, w: World, p: Progress, m: Message)
    requires ValidWorld(s, w)
  {
    m !in p.emitted && m !in Rest(s, w, p.pos)
  }

  lemma {:induction false} StaysGone(s: Scope, p: Progress, call: Call, m: Message)
    requires ValidCall(s, call) && Gone(s, call.world, p, m)
    ensures Gone(s, call.world, Turn(s, p, call), m)
  {
    PageBegins(s, p, call);
    TurnOfMessage(s, p, call, m);
  }

  lemma {:induction false} GoneAfter(s: Scope, w: World, calls: seq<Call>, states: seq<Progress>, i: nat, m: Message)
    requires Ran(s, w, calls, states) && i < |calls| && Gone(s, w, states[i], m)
    ensures Gone(s, w, states[i + 1], m)
  {
    assert Goes(s, w, calls, states, i);
    StaysGone(s, states[i], calls[i], m);
  }

  /** What is out of reach and was not shown never is. */
  lemma {:induction false} GoneForGood(s: Scope, w: World, calls: seq<Call>, states: seq<Progress>, i: nat, n: nat,
                                       m: Message)
    requires Ran(s, w, calls, states) && i <= n <= |calls| && Gone(s, w, states[i], m)
    ensures Gone(s, w, states[n], m)
    decreases n
  {
    if i < n {
      GoneForGood(s, w, calls, states, i, n - 1, m);
      GoneAfter(s, w, calls, states, n - 1, m);
    }
  }

  /** The page of call i hides a message behind it. */
  ghost predicate HidesAt(s: Scope, calls: seq<Call>, states: seq<Progress>, i: nat, m: Message)
    requires AllValid(s, calls) && i < |calls| < |states|
  {
    PageHides(s, calls[i], states[i].pos, m)
  }

  lemma {:induction false} TurnHides(s: Scope, p: Progress, call: Call, m: Message)
    requires ValidCall(s, call) && PageHides(s, call, p.pos, m) && m !in p.emitted
    ensures Gone(s, call.world, Turn(s, p, call), m)
  {
    TurnOfMessage(s, p, call, m);
  }

  lemma {:induction false} NotShownYet(s: Scope, w: World, calls: seq<Call>, states: seq<Progress>, i: nat, m: Message)
    requires Ran(s, w, calls, states) && i <= |calls| && m in Rest(s, w, states[i].pos)
    ensures m !in states[i].emitted
  {
    SoundState(s, w, calls, states, i);
    assert m in states[i].emitted ==> Less(ByOrder(m), ByOrder(m));
  }

  lemma {:induction false} HiddenAfter(s: Scope, w: World, calls: seq<Call>, states: seq<Progress>, i: nat, m: Message)
    requires Ran(s, w, calls, states) && i < |calls| && HidesAt(s, calls, states, i, m)
    ensures Gone(s, w, states[i + 1], m)
  {
    assert Goes(s, w, calls, states, i);
    NotShownYet(s, w, calls, states, i, m);
    TurnHides(s, states[i], calls[i], m);
  }

  /** In one page a message in reach is shown, hidden or left in reach. */
  lemma {:induction false} TurnLoses(s: Scope, p: Progress, call: Call, m: Message)
    requires ValidCall(s, call) && m in Rest(s, call.world, p.pos) && Gone(s, call.world, Turn(s, p, call), m)
    ensures PageHides(s, call, p.pos, m)
  {
    TurnOfMessage(s, p, call, m);
  }

  lemma {:induction false} LostAt(s: Scope, w: World, calls: seq<Call>, states: seq<Progress>, i: nat, m: Message)
    requires Ran(s, w, calls, states) && i < |calls| && Gone(s, w, states[i + 1], m)
    ensures m !in states[i].emitted
    ensures m in Rest(s, w, states[i].pos) ==> HidesAt(s, calls, states, i, m)
  {
    assert Goes(s, w, calls, states, i);
    if m in Rest(s, w, states[i].pos) { TurnLoses(s, states[i], calls[i], m); }
  }

  /** A message that drops out of reach unshown was hidden by some page. */
  lemma {:induction false} LostIsHidden(s: Scope, w: World, calls: seq<Call>, states: seq<Progress>, i: nat, n: nat,
                                        m: Message) returns (at: nat)
    requires Ran(s, w, calls, states) && i <= n <= |calls|
    requires m in Rest(s, w, states[i].pos) && Gone(s, w, states[n], m)
    ensures i <= at < n && HidesAt(s, calls, states, at, m)
    decreases n
  {
    assert i < n;
    at := n - 1;
    LostAt(s, w, calls, states, at, m);
    if m !in Rest(s, w, states[at].pos) {
      at := LostIsHidden(s, w, calls, states, i, at, m);
    }
  }

  // ----- what a page reads ------------------------------------------------------------------------

  lemma {:induction false} ReadIsInReach(s: Scope, call: Call, pos: Position, c: int, m: Message)
    requires ValidCall(s, call) && m in ReadOf(s, call, pos, c)
    ensures m in Rest(s, call.world, pos) && m.connection == c && IsWanted(s, call.world, m)
  {
    RestFacts(s, call.world, pos);
    FilterMembers(Rest(s, call.world, pos), OfConnection(c));
    assert m in Filter(Rest(s, call.world, pos), OfConnection(c));
  }

  /** What a page shows it has read. */
  lemma {:induction false} ShownIsRead(s: Scope, call: Call, pos: Position, m: Message)
    requires ValidCall(s, call) && m in PageOf(s, call, pos)
    ensures m in ReadOf(s, call, pos, m.connection)
  {
    var rest, n, c := Rest(s, call.world, pos), |PageOf(s, call, pos)|, m.connection;
    assert PageOf(s, call, pos) == rest[..n];
    SplitAt(rest, n, c);
    FilterMembers(rest[..n], OfConnection(c));
    assert m in Filter(rest[..n], OfConnection(c));
    var i :| 0 <= i < |Filter(rest[..n], OfConnection(c))| && Filter(rest[..n], OfConnection(c))[i] == m;
    assert ReadOf(s, call, pos, c)[i] == m;
  }

  /** Messages of the connection in reach before one that is read fit a page. */
  lemma {:induction false} FewBeforeRead(s: Scope, call: Call, pos: Position, m: Message, before: seq<Message>)
    requires ValidCall(s, call) && m in ReadOf(s, call, pos, m.connection) && Strict(before, ByOrder)
    requires forall h :: h in before ==>
               h in Rest(s, call.world, pos) && h.connection == m.connection && Less(ByOrder(h), ByOrder(m))
    ensures |before| <= call.size
  {
    var mine := Filter(Rest(s, call.world, pos), OfConnection(m.connection));
    OrderedPart(s, call.world, pos, m.connection);
    var k :| 0 <= k <= call.size && k < |mine| && mine[k] == m;
    forall h | h in before ensures h in mine[..k] { BelowIndex(mine, k, h); }
    StrictPartLength(before, mine[..k], ByOrder);
  }

  lemma {:induction false} IndexBehindFew(mine: seq<Message>, k: nat, before: seq<Message>)
    requires Strict(mine, ByOrder) && k < |mine| && Strict(before, ByOrder)
    requires forall x :: x in mine && Less(ByOrder(x), ByOrder(mine[k])) ==> x in before
    ensures k <= |before|
  {
    forall x | x in mine[..k] ensures x in before {
      var i :| 0 <= i < k && mine[i] == x;
      assert x in mine && Less(ByOrder(mine[i]), ByOrder(mine[k]));
    }
    StrictPartLength(mine[..k], before, ByOrder);
  }

  /** A message in reach is read when those of its connection before it fit a page. */
  lemma {:induction false} ReadBehindFew(s: Scope, call: Call, pos: Position, m: Message, before: seq<Message>)
    requires ValidCall(s, call) && m in Rest(s, call.world, pos) && Strict(before, ByOrder) && |before| <= call.size
    requires forall x :: x in Rest(s, call.world, pos) && x.connection == m.connection && Less(ByOrder(x), ByOrder(m))
                         ==> x in before
    ensures m in ReadOf(s, call, pos, m.connection)
  {
    var mine := Filter(Rest(s, call.world, pos), OfConnection(m.connection));
    OrderedPart(s, call.world, pos, m.connection);
    assert m in mine;
    var k :| 0 <= k < |mine| && mine[k] == m;
    IndexBehindFew(mine, k, before);
    assert ReadOf(s, call, pos, m.connection)[k] == m;
  }

  lemma {:induction false} OrderedPart(s: Scope, w: World, pos: Position, c: int)
    requires ValidScope(s) && ValidWorld(s, w)
    ensures Strict(Filter(Rest(s, w, pos), OfConnection(c)), ByOrder)
    ensures forall m :: m in Filter(Rest(s, w, pos), OfConnection(c)) <==> m in Rest(s, w, pos) && m.connection == c
  {
    RestFacts(s, w, pos);
    FilterStrict(Rest(s, w, pos), OfConnection(c), ByOrder);
    FilterMembers(Rest(s, w, pos), OfConnection(c));
  }

  lemma {:induction false} NotAfter(all: seq<Message>, p: nat, q: nat)
    requires Strict(all, ByOrder) && p < |all| && q < |all| && !Less(ByOrder(all[q]), ByOrder(all[p]))
    ensures p <= q
  {
  }

  lemma {:induction false} BelowIndex(all: seq<Message>, k: nat, h: Message)
    requires Strict(all, ByOrder) && k < |all| && h in all && Less(ByOrder(h), ByOrder(all[k]))
    ensures h in all[..k]
  {
    var i :| 0 <= i < |all| && all[i] == h;
    NotAfter(all, i, k);
    assert all[..k][i] == h;
  }

  // ----- what the cache holds ---------------------------------------------------------------------

  /** A connection's pages, whatever its UIDVALIDITY. */
  function PagesOf(s: Scope, calls: seq<Call>, states: seq<Progress>, c: int): (readings: seq<Reading>)
    requires AllValid(s, calls) && |states| == |calls| + 1 && c in s.connections
    ensures |readings| == |calls|
  {
    Readings(s, calls, states, c, 0)
  }

  /** The entry of the message's connection holds it after page i. */
  ghost predicate HeldAfter(s: Scope, calls: seq<Call>, states: seq<Progress>, i: nat, m: Message)
    requires AllValid(s, calls) && i < |calls| && |states| == |calls| + 1
  {
    m.connection in s.connections && Held(PagesOf(s, calls, states, m.connection), i, m)
  }

  lemma {:induction false} PageOfConnection(s: Scope, calls: seq<Call>, states: seq<Progress>, i: nat, c: int)
    requires AllValid(s, calls) && i < |calls| && |states| == |calls| + 1 && c in s.connections
    ensures var r := PagesOf(s, calls, states, c)[i];
            && r.result.messages == ReadOf(s, calls[i], states[i].pos, c)
            && r.o.cursor == StateOf(states[i].pos, c).last
  {
    ReadingAt(s, calls, states, i, c, 0);
  }

  /** What a page reads is held after it. */
  lemma {:induction false} ReadIsHeld(s: Scope, calls: seq<Call>, states: seq<Progress>, i: nat, m: Message)
    requires AllValid(s, calls) && i < |calls| && |states| == |calls| + 1 && m.connection in s.connections
    requires m in ReadOf(s, calls[i], states[i].pos, m.connection)
    ensures HeldAfter(s, calls, states, i, m)
  {
    PageOfConnection(s, calls, states, i, m.connection);
  }

  /** What was held before a page that continues the entry is held after it. */
  lemma {:induction false} HeldNext(s: Scope, calls: seq<Call>, states: seq<Progress>, i: nat, m: Message)
    requires AllValid(s, calls) && i + 1 < |calls| && |states| == |calls| + 1
    requires HeldAfter(s, calls, states, i, m) && StateOf(states[i + 1].pos, m.connection).last.Some?
    ensures HeldAfter(s, calls, states, i + 1, m)
  {
    PageOfConnection(s, calls, states, i + 1, m.connection);
  }

  /** What a page that begins the entry anew does not read is not held after it. */
  lemma {:induction false} AnewHoldsNot(s: Scope, calls: seq<Call>, states: seq<Progress>, i: nat, m: Message)
    requires AllValid(s, calls) && i < |calls| && |states| == |calls| + 1
    requires m !in ReadOf(s, calls[i], states[i].pos, m.connection)
    requires StateOf(states[i].pos, m.connection).last.None?
    ensures !HeldAfter(s, calls, states, i, m)
  {
    if m.connection in s.connections { PageOfConnection(s, calls, states, i, m.connection); }
  }

  /** What is held some page read. */
  lemma {:induction false} HeldFrom(s: Scope, calls: seq<Call>, states: seq<Progress>, i: nat, m: Message)
    returns (j: nat)
    requires AllValid(s, calls) && i < |calls| && |states| == |calls| + 1 && HeldAfter(s, calls, states, i, m)
    ensures j <= i && m in ReadOf(s, calls[j], states[j].pos, m.connection)
    ensures Continued(PagesOf(s, calls, states, m.connection), j, i)
  {
    j := HeldWasRead(PagesOf(s, calls, states, m.connection), i, m);
    PageOfConnection(s, calls, states, j, m.connection);
  }

  lemma {:induction false} ReadAtIsInReach(s: Scope, w: World, calls: seq<Call>, states: seq<Progress>, i: nat, c: int,
                                           m: Message)
    requires Ran(s, w, calls, states) && i < |calls| && m in ReadOf(s, calls[i], states[i].pos, c)
    ensures m in Rest(s, w, states[i].pos) && m.connection == c && IsWanted(s, w, m)
  {
    assert Goes(s, w, calls, states, i);
    ReadIsInReach(s, calls[i], states[i].pos, c, m);
  }

  lemma {:induction false} SameMessage(s: Scope, w: World, m: Message, x: Message)
    requires ValidScope(s) && ValidWorld(s, w) && IsWanted(s, w, m) && IsWanted(s, w, x)
    requires m.connection == x.connection && m.uid == x.uid
    ensures m == x
  {
    assert MailboxOk(w, m.connection);
    SameUid(w.mailboxes[m.connection], m);
  }

  lemma {:induction false} HeldIsWanted(s: Scope, w: World, calls: seq<Call>, states: seq<Progress>, i: nat, m: Message)
    requires Ran(s, w, calls, states) && i < |calls| && HeldAfter(s, calls, states, i, m)
    ensures IsWanted(s, w, m)
  {
    var j := HeldFrom(s, calls, states, i, m);
    ReadAtIsInReach(s, w, calls, states, j, m.connection, m);
  }

  /** The pages of unchanged mailboxes read each message as it is. */
  lemma {:induction false} ReadsUnchanging(s: Scope, w: World, calls: seq<Call>, states: seq<Progress>, i: nat,
                                           m: Message)
    requires Ran(s, w, calls, states) && i < |calls| && IsWanted(s, w, m)
    ensures var read := ReadOf(s, calls[i], states[i].pos, m.connection); m in read || m.uid !in MessageUids(read)
  {
    var read := ReadOf(s, calls[i], states[i].pos, m.connection);
    forall x | x in read && x.uid == m.uid ensures x == m {
      ReadAtIsInReach(s, w, calls, states, i, m.connection, x);
      SameMessage(s, w, m, x);
    }
  }

  lemma {:induction false} PagesUnchanging(s: Scope, w: World, calls: seq<Call>, states: seq<Progress>, m: Message)
    requires Ran(s, w, calls, states) && IsWanted(s, w, m)
    ensures Unchanging(PagesOf(s, calls, states, m.connection), m)
  {
    var readings := PagesOf(s, calls, states, m.connection);
    forall i | 0 <= i < |readings|
      ensures m in readings[i].result.messages || m.uid !in MessageUids(readings[i].result.messages)
    {
      PageOfConnection(s, calls, states, i, m.connection);
      ReadsUnchanging(s, w, calls, states, i, m);
    }
  }

  /** A connection that has shown something keeps its cursor, and so what its entry holds. */
  lemma {:induction false} CursorKept(s: Scope, w: World, calls: seq<Call>, states: seq<Progress>, i: nat, c: int)
    requires Ran(s, w, calls, states) && i < |calls| && c in s.connections && StateOf(states[i].pos, c).last.Some?
    ensures StateOf(states[i + 1].pos, c).last.Some?
  {
    assert Goes(s, w, calls, states, i);
    TurnOfConnection(s, states[i], calls[i], c);
  }

  lemma {:induction false} CursorStays(s: Scope, w: World, calls: seq<Call>, states: seq<Progress>, i: nat, n: nat,
                                       c: int)
    requires Ran(s, w, calls, states) && i <= n <= |calls| && c in s.connections
    requires StateOf(states[i].pos, c).last.Some?
    ensures StateOf(states[n].pos, c).last.Some?
    decreases n
  {
    if i < n {
      CursorStays(s, w, calls, states, i, n - 1, c);
      CursorKept(s, w, calls, states, n - 1, c);
    }
  }

  lemma {:induction false} ContinuedFrom(s: Scope, w: World, calls: seq<Call>, states: seq<Progress>, i: nat, c: int)
    requires Ran(s, w, calls, states) && i < |calls| && c in s.connections
    requires StateOf(states[i + 1].pos, c).last.Some?
    ensures Continued(PagesOf(s, calls, states, c), i, |calls| - 1)
  {
    forall k | i < k <= |calls| - 1 ensures PagesOf(s, calls, states, c)[k].o.cursor.Some? {
      CursorStays(s, w, calls, states, i + 1, k, c);
      PageOfConnection(s, calls, states, k, c);
    }
  }

  lemma {:induction false} ShownHasCursor(s: Scope, w: World, calls: seq<Call>, states: seq<Progress>, i: nat,
                                          m: Message)
    requires Ran(s, w, calls, states) && i <= |calls| && m in states[i].emitted
    ensures m.connection in s.connections && StateOf(states[i].pos, m.connection).last.Some?
  {
    SoundState(s, w, calls, states, i);
    CursorOfState(s, w, calls, states, i, m.connection);
    FilterMembers(states[i].emitted, OfConnection(m.connection));
    assert m in Filter(states[i].emitted, OfConnection(m.connection));
  }

  lemma {:induction false} ShownNowIsHeld(s: Scope, w: World, calls: seq<Call>, states: seq<Progress>, i: nat,
                                          m: Message)
    requires Ran(s, w, calls, states) && i < |calls| && m in states[i + 1].emitted && m !in states[i].emitted
    ensures HeldAfter(s, calls, states, i, m)
  {
    TurnOfState(s, w, calls, states, i, m);
    ShownHasCursor(s, w, calls, states, i + 1, m);
    assert Goes(s, w, calls, states, i);
    ShownIsRead(s, calls[i], states[i].pos, m);
    ReadIsHeld(s, calls, states, i, m);
  }

  /** Everything shown is held. */
  lemma {:induction false} ShownIsHeld(s: Scope, w: World, calls: seq<Call>, states: seq<Progress>, i: nat, m: Message)
    requires Ran(s, w, calls, states) && i < |calls| && m in states[i + 1].emitted
    ensures HeldAfter(s, calls, states, i, m)
    decreases i
  {
    if m !in states[i].emitted {
      ShownNowIsHeld(s, w, calls, states, i, m);
    } else {
      ShownHasCursor(s, w, calls, states, i, m);
      ShownIsHeld(s, w, calls, states, i - 1, m);
      HeldNext(s, calls, states, i - 1, m);
    }
  }
}
