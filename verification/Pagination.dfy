/** Cursor pagination over several mailboxes: one page merges per-connection searches that
    fetch only one message more than the page holds. */
module Pagination {
  import opened Wrappers
  import opened Ordering
  import opened MailSearch
  import opened PageMerge

  /** What stays fixed during a traversal: the selected connections and the time range. */
  datatype Scope = Scope(connections: seq<int>, since: Option<Stamp>, before: Option<Stamp>)

  /** The mailboxes as one page reads them, each at its own moment. */
  datatype World = World(mailboxes: map<int, seq<Message>>, uidNext: map<int, nat>)

  ghost predicate ValidScope(s: Scope) { Distinct(s.connections) }

  ghost predicate ValidMessages(c: int, mailbox: seq<Message>, uidNext: nat) {
    ValidMailbox(mailbox) && forall m :: m in mailbox ==> m.connection == c && m.uid < uidNext
  }

  ghost predicate MailboxOk(w: World, c: int)
    requires c in w.mailboxes && c in w.uidNext
  {
    w.uidNext[c] > 0 && ValidMessages(c, w.mailboxes[c], w.uidNext[c])
  }

  ghost predicate ValidWorld(s: Scope, w: World) {
    && (forall c :: c in s.connections ==> c in w.mailboxes && c in w.uidNext)
    && (forall c {:trigger MailboxOk(w, c)} :: c in s.connections ==> MailboxOk(w, c))
  }

  function OptionsFor(s: Scope, pos: Position, c: int, limit: nat): Options {
    Options(limit, s.since, s.before, StateOf(pos, c).last, StateOf(pos, c).uidNext)
  }

  // ----- what is still to be shown ------------------------------------------------------------

  /** A message the traversal is asked for: it matches, and was received in the time range. */
  ghost predicate IsWanted(s: Scope, w: World, m: Message) {
    && m.connection in s.connections && m.connection in w.mailboxes && m in w.mailboxes[m.connection] && m.matches
    && (s.since.Some? ==> s.since.value.time <= m.received.time)
    && (s.before.Some? ==> m.received.time < s.before.value.time)
  }

  /** A wanted message that a search from this cursor can still find: not passed yet, and not
      hidden by the day bound the search takes from the cursor. */
  ghost predicate InReach(s: Scope, w: World, pos: Position, m: Message) {
    && IsWanted(s, w, m) && PastCursor(StateOf(pos, m.connection), m)
    && DateShown(m, OptionsFor(s, pos, m.connection, 0))
  }

  function ReachOf(s: Scope, w: World, pos: Position, c: int): seq<Message>
    requires c in w.mailboxes
  {
    Filter(w.mailboxes[c], Shown(OptionsFor(s, pos, c, 0)))
  }

  function ReachParts(s: Scope, w: World, pos: Position): Parts
    requires forall c :: c in s.connections ==> c in w.mailboxes
  {
    map c | c in s.connections :: ReachOf(s, w, pos, c)
  }

  /** Everything still in reach, in order. */
  function Rest(s: Scope, w: World, pos: Position): seq<Message>
    requires forall c :: c in s.connections ==> c in w.mailboxes
  {
    Whole(s.connections, ReachParts(s, w, pos))
  }

  lemma {:induction false} ReachMembers(s: Scope, w: World, pos: Position, c: int)
    requires ValidScope(s) && ValidWorld(s, w) && c in s.connections
    ensures PartOf(ReachOf(s, w, pos, c), c)
    ensures forall m :: m in ReachOf(s, w, pos, c) <==> InReach(s, w, pos, m) && m.connection == c
  {
    var o, here := OptionsFor(s, pos, c, 0), ReachOf(s, w, pos, c);
    assert MailboxOk(w, c);
    FilterMembers(w.mailboxes[c], Shown(o));
    FilterStrict(w.mailboxes[c], Shown(o), ByUid);
    forall i, j | 0 <= i < j < |here| ensures ByOrder(here[i]) != ByOrder(here[j]) {
      assert Less(ByUid(here[i]), ByUid(here[j]));
    }
    forall m ensures m in here <==> InReach(s, w, pos, m) && m.connection == c {
      assert Shown(o)(m) <==> Wanted(o)(m) && DateShown(m, o);
      if m in w.mailboxes[c] { WantedPast(s, pos, m); }
    }
  }

  /** A search from a cursor wants what the traversal wants and the cursor has not passed. */
  lemma {:induction false} WantedPast(s: Scope, pos: Position, m: Message)
    ensures Wanted(OptionsFor(s, pos, m.connection, 0))(m)
            <==> Wanted(OptionsFor(s, map[], m.connection, 0))(m) && PastCursor(StateOf(pos, m.connection), m)
  {
  }

  lemma {:induction false} RestFacts(s: Scope, w: World, pos: Position)
    requires ValidScope(s) && ValidWorld(s, w)
    ensures ValidParts(s.connections, ReachParts(s, w, pos))
    ensures InScope(s.connections, Rest(s, w, pos))
    ensures forall m :: m in Rest(s, w, pos) <==> InReach(s, w, pos, m)
  {
    forall c | c in s.connections
      ensures PartOf(ReachOf(s, w, pos, c), c)
      ensures forall m :: m in ReachOf(s, w, pos, c) <==> InReach(s, w, pos, m) && m.connection == c
    {
      ReachMembers(s, w, pos, c);
    }
    WholeFacts(s.connections, ReachParts(s, w, pos));
  }

  /** At the start nothing is hidden: everything wanted is in reach. */
  lemma {:induction false} AllInReachAtStart(s: Scope, w: World)
    requires ValidScope(s) && ValidWorld(s, w)
    ensures forall m :: m in Rest(s, w, map[]) <==> IsWanted(s, w, m)
  {
    RestFacts(s, w, map[]);
    forall m | IsWanted(s, w, m) ensures InReach(s, w, map[], m) {
      assert MailboxOk(w, m.connection);
      DayBoundsAreSafe(m, OptionsFor(s, map[], m.connection, 0));
    }
  }

  /** What one connection's search can still deliver is its part of the whole, in order. */
  lemma {:induction false} RestOfConnection(s: Scope, w: World, pos: Position, c: int)
    requires ValidScope(s) && ValidWorld(s, w) && c in s.connections
    ensures Sort(ReachOf(s, w, pos, c), ByArrival) == Filter(Rest(s, w, pos), OfConnection(c))
  {
    var here := ReachOf(s, w, pos, c);
    assert MailboxOk(w, c);
    RestFacts(s, w, pos);
    WholeOfConnection(s.connections, ReachParts(s, w, pos), c);
    assert PartOf(here, c);
    SortMembers(here, ByOrder);
    SortStrict(here, ByOrder);
    ByArrivalDistinct(w.mailboxes[c]);
    FilterDistinct(w.mailboxes[c], Shown(OptionsFor(s, pos, c, 0)), ByArrival);
    SortStrict(here, ByArrival);
    SortMembers(here, ByArrival);
    SameConnectionStrict(Sort(here, ByArrival), c);
    StrictUnique(Sort(here, ByArrival), Sort(here, ByOrder), ByOrder);
  }

  lemma {:induction false} SameConnectionStrict(messages: seq<Message>, c: int)
    requires Strict(messages, ByArrival) && forall m :: m in messages ==> m.connection == c
    ensures Strict(messages, ByOrder)
  {
    forall i, j | 0 <= i < j < |messages| ensures Less(ByOrder(messages[i]), ByOrder(messages[j])) {
      assert messages[i] in messages && messages[j] in messages;
      assert Less(ByArrival(messages[i]), ByArrival(messages[j]));
    }
  }

  // ----- one page -----------------------------------------------------------------------------

  /** The cursor still describes the mailbox: its message is gone or unchanged, and old. */
  ghost predicate StateFits(mailbox: seq<Message>, state: CursorState) {
    state.last.Some? ==>
      && 1 <= state.last.value.uid < state.uidNext
      && forall m :: m in mailbox && m.uid == state.last.value.uid ==> m.received.time == state.last.value.at.time
  }

  ghost predicate PositionFits(s: Scope, w: World, pos: Position) {
    forall c :: c in s.connections && c in w.mailboxes ==> StateFits(w.mailboxes[c], StateOf(pos, c))
  }

  /** The limit has no part in what can be shown. */
  lemma {:induction false} LimitAside(s: Scope, pos: Position, c: int, limit: nat, mailbox: seq<Message>)
    ensures Filter(mailbox, Shown(OptionsFor(s, pos, c, limit))) == Filter(mailbox, Shown(OptionsFor(s, pos, c, 0)))
  {
    var o, plain := OptionsFor(s, pos, c, limit), OptionsFor(s, pos, c, 0);
    forall m ensures Shown(o)(m) == Shown(plain)(m) {
      assert Wanted(o)(m) == Wanted(plain)(m) && DateShown(m, o) == DateShown(m, plain);
    }
    FilterSame(mailbox, Shown(o), Shown(plain));
  }

  /** One provider search. The server may or may not sort. */
  method SearchConnection(s: Scope, w: World, pos: Position, c: int, limit: nat, serverSorts: bool)
    returns (result: SearchResult)
    requires ValidScope(s) && ValidWorld(s, w) && PositionFits(s, w, pos) && c in s.connections
    ensures DeliveredOne(result, Filter(Rest(s, w, pos), OfConnection(c)), limit) && result.uidNext == w.uidNext[c]
  {
    var o := OptionsFor(s, pos, c, limit);
    assert MailboxOk(w, c) && StateFits(w.mailboxes[c], StateOf(pos, c));
    FoundIsShown(w.mailboxes[c], o);
    LimitAside(s, pos, c, limit, w.mailboxes[c]);
    RestOfConnection(s, w, pos, c);
    var messages, hasMore := SearchContext(w.mailboxes[c], o, serverSorts);
    result := SearchResult(messages, hasMore, w.uidNext[c]);
  }

  /** The reading loop. */
  method ReadConnections(s: Scope, w: World, pos: Position, limit: nat, sorting: set<int>)
    returns (results: map<int, SearchResult>)
    requires ValidScope(s) && ValidWorld(s, w) && PositionFits(s, w, pos)
    ensures Delivered(s.connections, results, Rest(s, w, pos), limit) && Numbered(s.connections, w.uidNext, results)
  {
    results := map[];
    for i := 0 to |s.connections|
      invariant forall c :: c in s.connections[..i] ==>
        && c in results && DeliveredOne(results[c], Filter(Rest(s, w, pos), OfConnection(c)), limit)
        && results[c].uidNext == w.uidNext[c]
    {
      var c := s.connections[i];
      var result := SearchConnection(s, w, pos, c, limit, c in sorting);
      assert s.connections[..i + 1] == s.connections[..i] + [c];
      results := results[c := result];
    }
    assert s.connections[..|s.connections|] == s.connections;
  }

  /** The searches of all connections, merged. */
  method NextPage(s: Scope, w: World, pos: Position, pageSize: nat, sorting: set<int>) returns (page: Page)
    requires ValidScope(s) && ValidWorld(s, w) && PositionFits(s, w, pos)
    ensures BeginsPage(page, Rest(s, w, pos), pageSize, Advance(s.connections, w.uidNext, pos, page.messages))
  {
    RestFacts(s, w, pos);
    var results := ReadConnections(s, w, pos, pageSize + 1, sorting);
    var messages, next := MergeResults(s.connections, pos, results, pageSize, w.uidNext, Rest(s, w, pos));
    return Page(messages, next);
  }

  // ----- what a page holds, said of the mailboxes alone -------------------------------------------

  /** Received later, or at the same time by an earlier connection, or with a lower UID. */
  predicate ComesBefore(a: Message, b: Message) {
    || a.received.time > b.received.time
    || (a.received.time == b.received.time
        && (a.connection < b.connection || (a.connection == b.connection && a.uid < b.uid)))
  }

  /** The newest wanted messages, newest first, as many as fit. */
  ghost predicate HoldsNewest(s: Scope, w: World, messages: seq<Message>, size: nat) {
    && |messages| <= size && (forall m :: m in messages ==> IsWanted(s, w, m))
    && (forall i, j :: 0 <= i < j < |messages| ==> ComesBefore(messages[i], messages[j]))
    && forall m :: IsWanted(s, w, m) && m !in messages ==>
         |messages| == size && forall x :: x in messages ==> ComesBefore(x, m)
  }

  /** Wanted, and not come to by the cursor of its connection. */
  ghost predicate WantedNext(s: Scope, w: World, pos: Position, m: Message) {
    && IsWanted(s, w, m)
    && (m.connection in pos && pos[m.connection].uidNext > 0 ==> m.uid < pos[m.connection].uidNext)
    && (m.connection in pos && pos[m.connection].last.Some? ==>
          var last := pos[m.connection].last.value;
          last.at.time > m.received.time || (last.at.time == m.received.time && last.uid < m.uid))
  }

  lemma {:induction false} OrderIsNewestFirst(a: Message, b: Message)
    ensures Less(ByOrder(a), ByOrder(b)) <==> ComesBefore(a, b)
  {
  }

  lemma {:induction false} RestIsNext(s: Scope, w: World, pos: Position, size: nat)
    requires ValidScope(s) && ValidWorld(s, w)
    ensures var messages := Take(Rest(s, w, pos), size);
            && (forall m :: m in messages ==> WantedNext(s, w, pos, m))
            && forall i, j :: 0 <= i < j < |messages| ==> ComesBefore(messages[i], messages[j])
  {
    var rest := Rest(s, w, pos);
    RestFacts(s, w, pos);
    forall m | m in Take(rest, size) ensures WantedNext(s, w, pos, m) {
      assert m in rest && InReach(s, w, pos, m);
    }
    forall i, j | 0 <= i < j < |Take(rest, size)| ensures ComesBefore(Take(rest, size)[i], Take(rest, size)[j]) {
      OrderIsNewestFirst(rest[i], rest[j]);
    }
  }

  lemma {:induction false} FirstHoldsNewest(s: Scope, w: World, size: nat)
    requires ValidScope(s) && ValidWorld(s, w)
    ensures HoldsNewest(s, w, Take(Rest(s, w, map[]), size), size)
  {
    var rest, messages := Rest(s, w, map[]), Take(Rest(s, w, map[]), size);
    RestIsNext(s, w, map[], size);
    AllInReachAtStart(s, w);
    RestFacts(s, w, map[]);
    forall m | IsWanted(s, w, m) && m !in messages
      ensures |messages| == size && forall x :: x in messages ==> ComesBefore(x, m)
    {
      assert messages == rest[..|messages|];
      MemberSplit(rest, |messages|, m);
      forall x | x in messages ensures ComesBefore(x, m) {
        Later(rest, |messages|, x, m);
        OrderIsNewestFirst(x, m);
      }
    }
  }

  /** A first page leaves something out exactly when more is in reach than fits. */
  lemma {:induction false} FirstLeavesOut(s: Scope, w: World, size: nat)
    requires ValidScope(s) && ValidWorld(s, w)
    ensures |Rest(s, w, map[])| > size
            <==> exists m :: IsWanted(s, w, m) && m !in Take(Rest(s, w, map[]), size)
  {
    var rest := Rest(s, w, map[]);
    AllInReachAtStart(s, w);
    if |rest| > size {
      var m := rest[size];
      assert m in rest && IsWanted(s, w, m);
      RestIsNext(s, w, map[], |rest|);
      assert Take(rest, |rest|) == rest;
      assert forall i :: 0 <= i < size ==> ComesBefore(rest[i], m);
      assert m !in Take(rest, size);
    }
  }

  /** SearchMessages over live connections: a size out of bounds is refused; otherwise the next
      page of what is in reach, in order, and a cursor exactly when more of it is left. */
  method SearchMessages(s: Scope, w: World, pos: Position, requested: int, sorting: set<int>)
    returns (result: Option<Page>)
    requires ValidScope(s) && ValidWorld(s, w) && PositionFits(s, w, pos)
    ensures result.None? <==> requested < 0 || requested > MAX_PAGE
    ensures result.Some? ==> BeginsPage(result.value, Rest(s, w, pos), PageSize(requested).value,
                                        Advance(s.connections, w.uidNext, pos, result.value.messages))
    ensures result.Some? ==>
              && (forall m :: m in result.value.messages ==> WantedNext(s, w, pos, m))
              && (forall i, j :: 0 <= i < j < |result.value.messages| ==>
                    ComesBefore(result.value.messages[i], result.value.messages[j]))
    ensures result.Some? && pos == map[] ==>
              && HoldsNewest(s, w, result.value.messages, if requested == 0 then 25 else requested)
              && (result.value.next.None? <==> forall m :: IsWanted(s, w, m) ==> m in result.value.messages)
  {
    var pageSize := PageSize(requested);
    if pageSize.None? {
      return None;
    }
    RestIsNext(s, w, pos, pageSize.value);
    AllInReachAtStart(s, w);
    FirstHoldsNewest(s, w, pageSize.value);
    FirstLeavesOut(s, w, pageSize.value);
    var page := NextPage(s, w, pos, pageSize.value, sorting);
    return Some(page);
  }
}
