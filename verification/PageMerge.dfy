/** The merge behind one page: what is still to be shown of several connections, as one list,
    and the loops that take a page from its beginning and advance the cursor. Live searches
    and cached ones feed the same merge. */
module PageMerge {
  import opened Wrappers
  import opened Ordering
  import opened MailSearch

  /** A connection's part of the cursor: the last message consumed, and the UIDNEXT recorded
      at the first read; 0 is none. */
  datatype CursorState = CursorState(last: Option<Cursor>, uidNext: nat)

  type Position = map<int, CursorState>

  function StateOf(pos: Position, c: int): CursorState {
    if c in pos then pos[c] else CursorState(None, 0)
  }

  /** The service's messageBefore: newest first, then by connection, then by UID. */
  function ByOrder(m: Message): Key { Key(-m.received.time, m.connection, m.uid) }

  function OfConnection(c: int): Message -> bool { (m: Message) => m.connection == c }

  /** The cursor has not come to the message yet, and the message is not an arrival. */
  predicate PastCursor(state: CursorState, m: Message) {
    && (state.uidNext != 0 ==> m.uid < state.uidNext)
    && (state.last.Some? ==>
          Less(Key(-state.last.value.at.time, m.connection, state.last.value.uid), ByOrder(m)))
  }

  // ----- page sizes -----------------------------------------------------------------------------

  const DEFAULT_PAGE: nat := 25

  const MAX_PAGE: nat := 100

  /** The sizes a page can have. */
  predicate ValidSize(size: nat) { 0 < size <= MAX_PAGE }

  /** The size of the page for a requested one; 0 asks for the default, and None is a refusal. */
  function PageSize(requested: int): (size: Option<nat>)
    ensures size.Some? ==> ValidSize(size.value)
    ensures forall k: nat :: ValidSize(k) && requested == k ==> size == Some(k)
  {
    if requested == 0 then Some(DEFAULT_PAGE)
    else if requested < 1 || requested > MAX_PAGE then None
    else Some(requested)
  }

  /** One page, and the cursor for the next. */
  datatype Page = Page(messages: seq<Message>, next: Option<Position>)

  /** A page is the beginning of what is left, and has a cursor exactly when more is left. */
  predicate BeginsPage(page: Page, rest: seq<Message>, size: nat, cursor: Position) {
    page.messages == Take(rest, size) && page.next == if |rest| > size then Some(cursor) else None
  }

  // ----- several connections as one list ------------------------------------------------------

  /** Messages of each connection, in any order. */
  type Parts = map<int, seq<Message>>

  ghost predicate Distinct(connections: seq<int>) {
    forall i, j :: 0 <= i < j < |connections| ==> connections[i] != connections[j]
  }

  ghost predicate PartOf(part: seq<Message>, c: int) {
    DistinctKeys(part, ByOrder) && forall m :: m in part ==> m.connection == c
  }

  ghost predicate ValidParts(connections: seq<int>, parts: Parts) {
    Distinct(connections) && forall c :: c in connections ==> c in parts && PartOf(parts[c], c)
  }

  function JoinedUpTo(connections: seq<int>, parts: Parts, n: nat): seq<Message>
    requires n <= |connections| && forall c :: c in connections ==> c in parts
  {
    if n == 0 then [] else JoinedUpTo(connections, parts, n - 1) + parts[connections[n - 1]]
  }

  /** All parts in one list, in order. */
  function Whole(connections: seq<int>, parts: Parts): seq<Message>
    requires forall c :: c in connections ==> c in parts
  {
    Sort(JoinedUpTo(connections, parts, |connections|), ByOrder)
  }

  lemma {:induction false} JoinedMembers(connections: seq<int>, parts: Parts, n: nat)
    requires ValidParts(connections, parts) && n <= |connections|
    ensures DistinctKeys(JoinedUpTo(connections, parts, n), ByOrder)
    ensures forall m :: m in JoinedUpTo(connections, parts, n)
                        <==> m.connection in connections[..n] && m in parts[m.connection]
  {
    if n > 0 {
      JoinedMembers(connections, parts, n - 1);
      var before, c := JoinedUpTo(connections, parts, n - 1), connections[n - 1];
      assert connections[..n] == connections[..n - 1] + [c];
      assert c !in connections[..n - 1] && PartOf(parts[c], c);
      forall i, j | 0 <= i < |before| && 0 <= j < |parts[c]| ensures ByOrder(before[i]) != ByOrder(parts[c][j]) {
        assert before[i] in before && parts[c][j] in parts[c];
      }
    }
  }

  /** In strict order and all of selected connections. */
  ghost predicate InScope(connections: seq<int>, messages: seq<Message>) {
    Strict(messages, ByOrder) && forall m :: m in messages ==> m.connection in connections
  }

  lemma {:induction false} WholeFacts(connections: seq<int>, parts: Parts)
    requires ValidParts(connections, parts)
    ensures InScope(connections, Whole(connections, parts))
    ensures forall m :: m in Whole(connections, parts) <==> m.connection in connections && m in parts[m.connection]
  {
    JoinedMembers(connections, parts, |connections|);
    SortStrict(JoinedUpTo(connections, parts, |connections|), ByOrder);
    SortMembers(JoinedUpTo(connections, parts, |connections|), ByOrder);
    assert connections[..|connections|] == connections;
  }

  /** One connection's messages are its part of the whole, in order. */
  lemma {:induction false} WholeOfConnection(connections: seq<int>, parts: Parts, c: int)
    requires ValidParts(connections, parts) && c in connections
    ensures Filter(Whole(connections, parts), OfConnection(c)) == Sort(parts[c], ByOrder)
  {
    var whole := Whole(connections, parts);
    WholeFacts(connections, parts);
    assert PartOf(parts[c], c);
    FilterStrict(whole, OfConnection(c), ByOrder);
    FilterMembers(whole, OfConnection(c));
    SortStrict(parts[c], ByOrder);
    SortMembers(parts[c], ByOrder);
    StrictUnique(Filter(whole, OfConnection(c)), Sort(parts[c], ByOrder), ByOrder);
  }

  lemma {:induction false} FilterLength(messages: seq<Message>, c: int)
    ensures |Filter(messages, OfConnection(c))| <= |messages|
  {
    if messages != [] {
      FilterLength(messages[1..], c);
    }
  }

  /** The messages of one connection split at any place of the whole. */
  lemma {:induction false} SplitAt(rest: seq<Message>, j: nat, c: int)
    requires j <= |rest|
    ensures Filter(rest, OfConnection(c)) == Filter(rest[..j], OfConnection(c)) + Filter(rest[j..], OfConnection(c))
    ensures |Filter(rest[..j], OfConnection(c))| <= j
  {
    assert rest == rest[..j] + rest[j..];
    FilterAppend(rest[..j], rest[j..], OfConnection(c));
    FilterLength(rest[..j], c);
  }

  // ----- the cursor after a page ----------------------------------------------------------------

  function LastOf(page: seq<Message>, c: int): Option<Message> {
    var mine := Filter(page, OfConnection(c));
    if mine == [] then None else Some(mine[|mine| - 1])
  }

  function NewState(state: CursorState, last: Option<Message>, uidNext: nat): CursorState {
    CursorState(match last case Some(m) => Some(Cursor(m.received, m.uid)) case None => state.last,
                if state.uidNext == 0 then uidNext else state.uidNext)
  }

  function Advance(connections: seq<int>, uidNext: map<int, nat>, pos: Position, page: seq<Message>): Position
    requires forall c :: c in connections ==> c in uidNext
  {
    map c | c in connections :: NewState(StateOf(pos, c), LastOf(page, c), uidNext[c])
  }

  /** How far a traversal has come: the cursor, all pages joined, and whether the last page
      came with a cursor. The empty cursor starts it. */
  datatype Progress = Progress(pos: Position, emitted: seq<Message>, more: bool)

  /** A page's last message of a connection: all its others on the page come before it. */
  lemma {:induction false} LastOfPage(page: seq<Message>, c: int, last: Message)
    requires Strict(page, ByOrder) && LastOf(page, c) == Some(last)
    ensures last in page && last.connection == c
    ensures forall m :: m in page && m.connection == c && m != last ==> Less(ByOrder(m), ByOrder(last))
  {
    var mine := Filter(page, OfConnection(c));
    FilterMembers(page, OfConnection(c));
    FilterStrict(page, OfConnection(c), ByOrder);
    assert last in mine;
    forall m | m in page && m.connection == c && m != last ensures Less(ByOrder(m), ByOrder(last)) {
      assert m in mine;
      var i :| 0 <= i < |mine| && mine[i] == m;
    }
  }

  lemma {:induction false} Later(rest: seq<Message>, n: nat, a: Message, b: Message)
    requires Strict(rest, ByOrder) && n <= |rest| && a in rest[..n] && b in rest[n..]
    ensures Less(ByOrder(a), ByOrder(b))
  {
    var i :| 0 <= i < n && rest[i] == a;
    var j :| n <= j < |rest| && rest[j] == b;
  }

  lemma {:induction false} MemberSplit(rest: seq<Message>, n: nat, m: Message)
    requires Strict(rest, ByOrder) && n <= |rest|
    ensures m in rest[n..] <==> m in rest && m !in rest[..n]
  {
    assert rest == rest[..n] + rest[n..];
    if m in rest[n..] && m in rest[..n] { Later(rest, n, m, m); }
  }

  /** What the new cursor has not come to yet: what the old one had not, less everything up to
      the page's last message of the connection. */
  lemma {:induction false} AdvancePast(connections: seq<int>, uidNext: map<int, nat>, pos: Position, page: seq<Message>,
                                       m: Message)
    requires m.connection in connections && Strict(page, ByOrder)
    requires forall c :: c in connections ==> c in uidNext
    requires m.uid < uidNext[m.connection]
    requires forall x :: x in page ==> PastCursor(StateOf(pos, x.connection), x)
    ensures var c := m.connection;
            PastCursor(StateOf(Advance(connections, uidNext, pos, page), c), m)
            <==> PastCursor(StateOf(pos, c), m)
                 && match LastOf(page, c) case None => true case Some(last) => Less(ByOrder(last), ByOrder(m))
  {
    match LastOf(page, m.connection)
    case None =>
    case Some(last) => LastOfPage(page, m.connection, last);
  }

  /** Of the messages not shown before, the new cursor has passed exactly those on the page. */
  lemma {:induction false} AdvanceWithin(connections: seq<int>, uidNext: map<int, nat>, pos: Position,
                                         rest: seq<Message>, n: nat, m: Message)
    requires InScope(connections, rest) && n <= |rest| && m in rest
    requires forall c :: c in connections ==> c in uidNext
    requires forall x :: x in rest ==> PastCursor(StateOf(pos, x.connection), x) && x.uid < uidNext[x.connection]
    ensures PastCursor(StateOf(Advance(connections, uidNext, pos, rest[..n]), m.connection), m) <==> m in rest[n..]
  {
    var page := rest[..n];
    assert forall x :: x in page ==> x in rest;
    MemberSplit(rest, n, m);
    AdvancePast(connections, uidNext, pos, page, m);
    match LastOf(page, m.connection)
    case None => FilterMembers(page, OfConnection(m.connection));
    case Some(last) =>
      LastOfPage(page, m.connection, last);
      if m in rest[n..] { Later(rest, n, last, m); }
  }

  // ----- the merge loop -------------------------------------------------------------------------

  datatype SearchResult = SearchResult(messages: seq<Message>, hasMore: bool, uidNext: nat)

  predicate DeliveredOne(result: SearchResult, mine: seq<Message>, limit: nat) {
    result.messages == Take(mine, limit) && result.hasMore == (|mine| > limit)
  }

  /** The results hold the beginning of each connection's part of the rest. */
  ghost predicate Delivered(connections: seq<int>, results: map<int, SearchResult>, rest: seq<Message>, limit: nat) {
    forall c :: c in connections ==> c in results && DeliveredOne(results[c], Filter(rest, OfConnection(c)), limit)
  }

  predicate TrackedOne(indices: map<int, nat>, consumedLast: map<int, Message>, page: seq<Message>, c: int) {
    && c in indices && indices[c] == |Filter(page, OfConnection(c))|
    && LastOf(page, c) == if c in consumedLast then Some(consumedLast[c]) else None
  }

  /** The merge's bookkeeping: per connection, how many messages went out and which was last. */
  ghost predicate Tracked(connections: seq<int>, indices: map<int, nat>, consumedLast: map<int, Message>,
                          page: seq<Message>) {
    forall c :: c in connections ==> TrackedOne(indices, consumedLast, page, c)
  }

  /** The next unconsumed message of a connection is the first of its part of what remains. */
  lemma {:induction false} Head(result: SearchResult, indices: map<int, nat>, consumedLast: map<int, Message>,
                                rest: seq<Message>, page: seq<Message>, limit: nat, c: int)
    requires DeliveredOne(result, Filter(rest, OfConnection(c)), limit)
    requires |page| < limit && page <= rest && TrackedOne(indices, consumedLast, page, c)
    ensures var mine := Filter(rest[|page|..], OfConnection(c));
            && (indices[c] < |result.messages| <==> mine != [])
            && (mine != [] ==> result.messages[indices[c]] == mine[0])
  {
    assert page == rest[..|page|];
    SplitAt(rest, |page|, c);
  }

  /** A connection's first remaining message is the next of all, if it is that one's turn, and
      comes later otherwise. */
  lemma {:induction false} HeadOrder(rest: seq<Message>, j: nat, c: int)
    requires j <= |rest| && Strict(rest, ByOrder) && Filter(rest[j..], OfConnection(c)) != []
    ensures j < |rest|
    ensures var head := Filter(rest[j..], OfConnection(c))[0];
            if rest[j].connection == c then head == rest[j] else Less(ByOrder(rest[j]), ByOrder(head))
  {
    var mine := Filter(rest[j..], OfConnection(c));
    FilterMembers(rest[j..], OfConnection(c));
    assert mine[0] in rest[j..];
    if rest[j].connection != c {
      var i :| 0 <= i < |rest[j..]| && rest[j..][i] == mine[0];
      assert i > 0 && rest[j + i] == mine[0];
    }
  }

  /** The scan for the best head: a minimum over the connections. */
  method PickBest(connections: seq<int>, results: map<int, SearchResult>, indices: map<int, nat>,
                  ghost consumedLast: map<int, Message>, ghost rest: seq<Message>, ghost page: seq<Message>,
                  ghost limit: nat)
    returns (best: Option<Message>)
    requires Delivered(connections, results, rest, limit) && InScope(connections, rest)
    requires |page| < limit && page <= rest && Tracked(connections, indices, consumedLast, page)
    ensures best == if |page| < |rest| then Some(rest[|page|]) else None
    ensures best.Some? ==> best.value.connection in connections
  {
    ghost var j := |page|;
    best := None;
    for i := 0 to |connections|
      invariant best.Some? ==> j < |rest| && (best.value == rest[j] || Less(ByOrder(rest[j]), ByOrder(best.value)))
      invariant j < |rest| && rest[j].connection in connections[..i] ==> best == Some(rest[j])
    {
      var c := connections[i];
      assert connections[..i + 1] == connections[..i] + [c];
      assert TrackedOne(indices, consumedLast, page, c);
      Head(results[c], indices, consumedLast, rest, page, limit, c);
      if indices[c] < |results[c].messages| {
        HeadOrder(rest, j, c);
        var candidate := results[c].messages[indices[c]];
        if best.None? || Less(ByOrder(candidate), ByOrder(best.value)) {
          best := Some(candidate);
        }
      } else if j < |rest| && rest[j].connection == c {
        assert Filter(rest[j..], OfConnection(c)) == [];
      }
    }
    assert connections[..|connections|] == connections;
    assert j < |rest| ==> rest[j] in rest;
  }

  lemma {:induction false} ConsumeFor(indices: map<int, nat>, consumedLast: map<int, Message>, page: seq<Message>,
                                      m: Message, c: int)
    requires TrackedOne(indices, consumedLast, page, c) && m.connection in indices
    ensures TrackedOne(indices[m.connection := indices[m.connection] + 1], consumedLast[m.connection := m],
                       page + [m], c)
  {
    FilterAppend(page, [m], OfConnection(c));
    assert Filter([m], OfConnection(c)) == if m.connection == c then [m] else [];
  }

  method Consume(connections: seq<int>, indices: map<int, nat>, consumedLast: map<int, Message>,
                 ghost page: seq<Message>, m: Message)
    returns (indices': map<int, nat>, consumedLast': map<int, Message>)
    requires Tracked(connections, indices, consumedLast, page) && m.connection in connections
    ensures Tracked(connections, indices', consumedLast', page + [m])
  {
    assert TrackedOne(indices, consumedLast, page, m.connection);
    indices' := indices[m.connection := indices[m.connection] + 1];
    consumedLast' := consumedLast[m.connection := m];
    forall c | c in connections ensures TrackedOne(indices', consumedLast', page + [m], c) {
      ConsumeFor(indices, consumedLast, page, m, c);
    }
  }

  lemma {:induction false} NothingConsumed(connections: seq<int>, indices: map<int, nat>)
    requires forall c :: c in connections ==> c in indices && indices[c] == 0
    ensures Tracked(connections, indices, map[], [])
  {
  }

  /** One round of the merge: takes the best head, if any connection has one left. */
  method TakeBest(connections: seq<int>, results: map<int, SearchResult>, indices: map<int, nat>,
                  consumedLast: map<int, Message>, page: seq<Message>, pageSize: nat, ghost rest: seq<Message>)
    returns (best: Option<Message>, indices': map<int, nat>, consumedLast': map<int, Message>)
    requires Delivered(connections, results, rest, pageSize + 1) && InScope(connections, rest)
    requires |page| < pageSize && page <= rest && Tracked(connections, indices, consumedLast, page)
    ensures best == if |page| < |rest| then Some(rest[|page|]) else None
    ensures Tracked(connections, indices', consumedLast', if best.Some? then page + [best.value] else page)
  {
    best := PickBest(connections, results, indices, consumedLast, rest, page, pageSize + 1);
    if best.None? {
      return best, indices, consumedLast;
    }
    indices', consumedLast' := Consume(connections, indices, consumedLast, page, best.value);
  }

  /** The merge loop. */
  method MergePage(connections: seq<int>, results: map<int, SearchResult>, pageSize: nat, ghost rest: seq<Message>)
    returns (page: seq<Message>, indices: map<int, nat>, consumedLast: map<int, Message>)
    requires Delivered(connections, results, rest, pageSize + 1) && InScope(connections, rest)
    ensures page == Take(rest, pageSize) && Tracked(connections, indices, consumedLast, page)
  {
    page := [];
    indices := map c | c in connections :: 0;
    consumedLast := map[];
    NothingConsumed(connections, indices);
    while |page| < pageSize
      invariant |page| <= pageSize && page <= rest && Tracked(connections, indices, consumedLast, page)
    {
      var best;
      best, indices, consumedLast := TakeBest(connections, results, indices, consumedLast, page, pageSize, rest);
      if best.None? {
        return;
      }
      page := page + [best.value];
    }
  }

  // ----- has-more and the new cursor ------------------------------------------------------------

  /** Messages of a connection were fetched but not shown, or not fetched. */
  predicate Unshown(result: SearchResult, index: nat) { index < |result.messages| || result.hasMore }

  /** Unconsumed or unfetched messages of some connection mean there is more, and conversely. */
  lemma {:induction false} MoreExactly(connections: seq<int>, results: map<int, SearchResult>, pageSize: nat,
                                       rest: seq<Message>, indices: map<int, nat>, consumedLast: map<int, Message>)
    requires Delivered(connections, results, rest, pageSize + 1) && InScope(connections, rest)
    requires Tracked(connections, indices, consumedLast, Take(rest, pageSize))
    ensures forall c :: c in connections ==> c in indices
    ensures |rest| > pageSize <==> exists c :: c in connections && Unshown(results[c], indices[c])
  {
    assert forall c :: c in connections ==> TrackedOne(indices, consumedLast, Take(rest, pageSize), c);
    if |rest| > pageSize {
      var c := rest[pageSize].connection;
      assert rest[pageSize] in rest;
      SplitAt(rest, pageSize, c);
      assert rest[pageSize..][0] == rest[pageSize];
      assert Unshown(results[c], indices[c]);
    } else {
      forall c | c in connections ensures !Unshown(results[c], indices[c]) {
        FilterLength(rest, c);
      }
    }
  }

  /** The closing loop: has-more and the new cursor. */
  method NextPosition(connections: seq<int>, pos: Position, results: map<int, SearchResult>, indices: map<int, nat>,
                      consumedLast: map<int, Message>)
    returns (hasMore: bool, position: Position)
    requires forall c :: c in connections ==> c in results && c in indices
    ensures hasMore <==> exists c :: c in connections && Unshown(results[c], indices[c])
    ensures position == map c | c in connections :: Closed(pos, results, consumedLast, c)
  {
    hasMore, position := false, map[];
    for i := 0 to |connections|
      invariant hasMore <==> exists c :: c in connections[..i] && Unshown(results[c], indices[c])
      invariant position == map c | c in connections[..i] :: Closed(pos, results, consumedLast, c)
    {
      var c := connections[i];
      assert connections[..i + 1] == connections[..i] + [c];
      var state := StateOf(pos, c);
      if state.uidNext == 0 {
        state := state.(uidNext := results[c].uidNext);
      }
      if Unshown(results[c], indices[c]) {
        hasMore := true;
      }
      if c in consumedLast {
        state := state.(last := Some(Cursor(consumedLast[c].received, consumedLast[c].uid)));
      }
      position := position[c := state];
    }
    assert connections[..|connections|] == connections;
  }

  function Closed(pos: Position, results: map<int, SearchResult>, consumedLast: map<int, Message>, c: int): CursorState
    requires c in results
  {
    NewState(StateOf(pos, c), if c in consumedLast then Some(consumedLast[c]) else None, results[c].uidNext)
  }

  ghost predicate Numbered(connections: seq<int>, uidNext: map<int, nat>, results: map<int, SearchResult>) {
    forall c :: c in connections ==> c in results && c in uidNext && results[c].uidNext == uidNext[c]
  }

  lemma {:induction false} ClosedIsAdvance(connections: seq<int>, pos: Position, page: seq<Message>,
                                           results: map<int, SearchResult>, uidNext: map<int, nat>,
                                           indices: map<int, nat>, consumedLast: map<int, Message>)
    requires Numbered(connections, uidNext, results) && Tracked(connections, indices, consumedLast, page)
    ensures (map c | c in connections :: Closed(pos, results, consumedLast, c))
            == Advance(connections, uidNext, pos, page)
  {
    forall c | c in connections
      ensures Closed(pos, results, consumedLast, c) == NewState(StateOf(pos, c), LastOf(page, c), uidNext[c])
    {
      assert TrackedOne(indices, consumedLast, page, c);
    }
  }

  /** The merge and the closing loop: from results that begin each connection's part of the
      rest, the page is the beginning of the rest, and a cursor comes exactly when more is left. */
  method MergeResults(connections: seq<int>, pos: Position, results: map<int, SearchResult>, pageSize: nat,
                      ghost uidNext: map<int, nat>, ghost rest: seq<Message>)
    returns (page: seq<Message>, next: Option<Position>)
    requires Delivered(connections, results, rest, pageSize + 1) && InScope(connections, rest)
    requires Numbered(connections, uidNext, results)
    ensures page == Take(rest, pageSize)
    ensures next == if |rest| > pageSize then Some(Advance(connections, uidNext, pos, page)) else None
  {
    var indices, consumedLast;
    page, indices, consumedLast := MergePage(connections, results, pageSize, rest);
    MoreExactly(connections, results, pageSize, rest, indices, consumedLast);
    var hasMore, position := NextPosition(connections, pos, results, indices, consumedLast);
    ClosedIsAdvance(connections, pos, page, results, uidNext, indices, consumedLast);
    next := if hasMore then Some(position) else None;
  }
}
