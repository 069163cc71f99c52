/** One mailbox search: the next Limit+1 matching messages after a cursor, over a server that
    may or may not sort. The server filters by calendar day only, so the client filters again
    by instant. Messages have unchanging times and an envelope. */
module MailSearch {
  import opened Wrappers
  import opened Ordering

  const FETCH_CHUNK: nat := 500

  /** An instant and the zone offset it is written in. */
  datatype Stamp = Stamp(time: int, zone: int)

  /** `matches` says whether the text and flag criteria accept the message. */
  datatype Message = Message(connection: int, uid: int, received: Stamp, matches: bool)

  datatype Cursor = Cursor(at: Stamp, uid: int)

  datatype Options = Options(limit: nat, since: Option<Stamp>, before: Option<Stamp>, cursor: Option<Cursor>,
                             maxUidExclusive: nat)

  /** messageBefore: newest first, then by UID. */
  function ByArrival(m: Message): Key { Key(-m.received.time, m.uid, 0) }

  function ByUid(m: Message): Key { Key(m.uid, 0, 0) }

  /** UIDs ascend, and zone offsets are less than a day. */
  ghost predicate ValidMailbox(mailbox: seq<Message>) {
    Strict(mailbox, ByUid) && forall m :: m in mailbox ==> m.uid >= 1 && -DAY < m.received.zone < DAY
  }

  /** The cursor's message, if it is still there, has the time the cursor recorded. */
  ghost predicate CursorFits(mailbox: seq<Message>, o: Options) {
    o.cursor.Some? ==> o.cursor.value.uid >= 1
                       && forall m :: m in mailbox && m.uid == o.cursor.value.uid ==>
                            m.received.time == o.cursor.value.at.time
  }

  function LocalDay(stamp: Stamp): int { (stamp.time + stamp.zone) / DAY }

  function UtcDay(stamp: Stamp): int { stamp.time / DAY }

  // ----- what the caller is promised ----------------------------------------------------------

  predicate AfterCursor(m: Message, o: Options) {
    o.cursor.Some? ==> Less(Key(-o.cursor.value.at.time, o.cursor.value.uid, 0), ByArrival(m))
  }

  predicate InRange(m: Message, o: Options) {
    (o.since.Some? ==> m.received.time >= o.since.value.time)
      && (o.before.Some? ==> m.received.time < o.before.value.time)
  }

  /** The client's filter on fetched messages. */
  function Exact(o: Options): Message -> bool { m => InRange(m, o) && AfterCursor(m, o) }

  predicate UidAdmitted(m: Message, o: Options) { o.maxUidExclusive > 0 ==> m.uid < o.maxUidExclusive }

  function Wanted(o: Options): Message -> bool {
    (m: Message) => m.matches && UidAdmitted(m, o) && InRange(m, o) && AfterCursor(m, o)
  }

  /** The first Limit+1 wanted messages in order. */
  function Promised(mailbox: seq<Message>, o: Options): seq<Message> {
    Take(Sort(Filter(mailbox, Wanted(o)), ByArrival), o.limit + 1)
  }

  // ----- what the server is asked ---------------------------------------------------------------

  function SinceDay(o: Options): Option<int> {
    if o.since.Some? then Some(UtcDay(o.since.value) - 1) else None
  }

  /** The day bound: two days past `before`, or the end of the cursor's own day when that
      instant is earlier. */
  function BeforeDay(o: Options): Option<int> {
    var bound := if o.before.Some? then Some(UtcDay(o.before.value) + 2) else None;
    if o.cursor.None? then bound
    else
      var cursorDay := LocalDay(o.cursor.value.at) + 1;
      if bound.None? || cursorDay * DAY - o.cursor.value.at.zone < bound.value * DAY then Some(cursorDay) else bound
  }

  predicate DayAdmitted(m: Message, o: Options) {
    && (SinceDay(o).Some? ==> LocalDay(m.received) >= SinceDay(o).value)
    && (BeforeDay(o).Some? ==> LocalDay(m.received) < BeforeDay(o).value)
  }

  /** The server's upper day bound lets the message through. */
  predicate DateShown(m: Message, o: Options) {
    BeforeDay(o).Some? ==> LocalDay(m.received) < BeforeDay(o).value
  }

  /** What a search can return: wanted, and not hidden by the day bound. */
  function Shown(o: Options): Message -> bool { (m: Message) => Wanted(o)(m) && DateShown(m, o) }

  /** SEARCH compares internal dates by calendar day, disregarding time and zone. */
  function Criteria(o: Options): Message -> bool { (m: Message) => m.matches && UidAdmitted(m, o) && DayAdmitted(m, o) }

  function Uids(messages: seq<Message>): (uids: seq<int>)
    ensures |uids| == |messages| && forall i :: 0 <= i < |uids| ==> uids[i] == messages[i].uid
  {
    seq(|messages|, i requires 0 <= i < |messages| => messages[i].uid)
  }

  function UidSearch(mailbox: seq<Message>, o: Options): seq<int> { Uids(Filter(mailbox, Criteria(o))) }

  /** SORT (REVERSE ARRIVAL): section 3 of RFC 5256 breaks ties by ascending sequence number. */
  function UidSort(mailbox: seq<Message>, o: Options): seq<int> { Uids(Sort(Filter(mailbox, Criteria(o)), ByArrival)) }

  /** The first Limit+1 of some messages that pass the client's filter. */
  function Best(messages: seq<Message>, o: Options): seq<Message> {
    Take(Sort(Filter(messages, Exact(o)), ByArrival), o.limit + 1)
  }

  /** What the search returns: the promise, restricted to what the server was asked for. */
  function Found(mailbox: seq<Message>, o: Options): seq<Message> {
    Best(Filter(mailbox, Criteria(o)), o)
  }

  // ----- the fetch loop -----------------------------------------------------------------------

  ghost predicate Listed(mailbox: seq<Message>, messages: seq<Message>) {
    forall m :: m in messages ==> m in mailbox
  }

  /** FETCH: one item for every UID, in any order. */
  method Fetch(mailbox: seq<Message>, uids: seq<int>, ghost messages: seq<Message>) returns (items: seq<Message>)
    requires ValidMailbox(mailbox) && Listed(mailbox, messages) && uids == Uids(messages)
    requires DistinctKeys(messages, ByArrival)
    ensures SameElements(items, messages) && DistinctKeys(items, ByArrival)
  {
    items := [];
    for i := 0 to |uids|
      invariant items == messages[..i]
    {
      var j := 0;
      ghost var at :| 0 <= at < |mailbox| && mailbox[at] == messages[i] by { assert messages[i] in mailbox; }
      while mailbox[j].uid != uids[i]
        invariant 0 <= j <= at
      {
        j := j + 1;
      }
      assert j == at by { assert ByUid(mailbox[j]) == ByUid(mailbox[at]); }
      items := items + [mailbox[j]];
    }
  }

  /** A kept best-so-far and one more batch make the best of both. */
  lemma {:induction false} AddBatch(seen: seq<Message>, chunk: seq<Message>, items: seq<Message>, o: Options)
    requires DistinctKeys(seen + chunk, ByArrival) && SameElements(items, chunk) && DistinctKeys(items, ByArrival)
    ensures Take(Sort(Best(seen, o) + Filter(items, Exact(o)), ByArrival), o.limit + 1) == Best(seen + chunk, o)
  {
    var past := Filter(seen, Exact(o));
    var best := Best(seen, o);
    var batch := Filter(items, Exact(o));
    DistinctParts(seen, chunk);
    FilterDistinct(seen, Exact(o), ByArrival);
    FilterDistinct(items, Exact(o), ByArrival);
    FilterMembers(seen, Exact(o));
    FilterMembers(items, Exact(o));
    FilterMembers(chunk, Exact(o));
    SortStrict(past, ByArrival);
    SortMembers(past, ByArrival);
    DisjointDistinct(batch, past);
    DisjointDistinct(best, batch);
    DisjointDistinct(batch, best);
    SortSame(best + batch, batch + best, ByArrival);
    BestOfBatches(batch, past, o.limit + 1, ByArrival);
    FilterAppend(seen, chunk, Exact(o));
    FilterDistinct(seen + chunk, Exact(o), ByArrival);
    SortSame(batch + past, Filter(seen + chunk, Exact(o)), ByArrival);
  }

  lemma {:induction false} DistinctParts(a: seq<Message>, b: seq<Message>)
    requires DistinctKeys(a + b, ByArrival)
    ensures DistinctKeys(a, ByArrival) && DistinctKeys(b, ByArrival)
    ensures forall x, y :: x in a && y in b ==> ByArrival(x) != ByArrival(y)
  {
    var both := a + b;
    assert forall i :: 0 <= i < |a| ==> both[i] == a[i];
    assert forall i :: 0 <= i < |b| ==> both[|a| + i] == b[i];
    forall i, j | 0 <= i < j < |b| ensures ByArrival(b[i]) != ByArrival(b[j]) {
      assert ByArrival(both[|a| + i]) != ByArrival(both[|a| + j]);
    }
    forall x, y | x in a && y in b ensures ByArrival(x) != ByArrival(y) {
      var i :| 0 <= i < |a| && a[i] == x;
      var j :| 0 <= j < |b| && b[j] == y;
      assert ByArrival(both[i]) != ByArrival(both[|a| + j]);
    }
  }

  lemma {:induction false} DisjointDistinct(a: seq<Message>, b: seq<Message>)
    requires DistinctKeys(a, ByArrival) && DistinctKeys(b, ByArrival)
    requires forall x, y :: x in a && y in b ==> ByArrival(x) != ByArrival(y)
    ensures DistinctKeys(a + b, ByArrival)
  {
  }

  lemma {:induction false} OrderedBest(messages: seq<Message>, o: Options)
    requires Strict(messages, ByArrival)
    ensures Best(messages, o) == Take(Filter(messages, Exact(o)), o.limit + 1)
  {
    FilterStrict(messages, Exact(o), ByArrival);
    SortIdempotent(Filter(messages, Exact(o)), ByArrival);
  }

  /** A strictly ordered list: enough found in a prefix means nothing later matters. */
  lemma {:induction false} PrefixSettles(messages: seq<Message>, offset: nat, o: Options)
    requires offset <= |messages| && Strict(messages, ByArrival)
    requires |Best(messages[..offset], o)| >= o.limit + 1
    ensures Best(messages[..offset], o) == Best(messages, o)
  {
    OrderedBest(messages[..offset], o);
    OrderedBest(messages, o);
    FilterAppend(messages[..offset], messages[offset..], Exact(o));
    assert messages == messages[..offset] + messages[offset..];
  }

  lemma {:induction false} ChunkOf(mailbox: seq<Message>, messages: seq<Message>, offset: nat, end: nat)
    requires offset <= end <= |messages| && Listed(mailbox, messages) && DistinctKeys(messages, ByArrival)
    ensures var chunk := messages[offset..end];
            && Uids(messages)[offset..end] == Uids(chunk) && Listed(mailbox, chunk) && DistinctKeys(chunk, ByArrival)
            && messages[..offset] + chunk == messages[..end] && DistinctKeys(messages[..offset] + chunk, ByArrival)
  {
    assert messages[..offset] + messages[offset..end] == messages[..end];
  }

  /** Fetches metadata in chunks and keeps the best Limit+1 exact matches. */
  method FetchSearchCandidates(mailbox: seq<Message>, o: Options, uids: seq<int>, providerOrdered: bool,
                               ghost messages: seq<Message>)
    returns (candidates: seq<Message>)
    requires ValidMailbox(mailbox) && Listed(mailbox, messages) && uids == Uids(messages)
    requires DistinctKeys(messages, ByArrival)
    requires providerOrdered ==> Strict(messages, ByArrival)
    ensures candidates == Best(messages, o)
  {
    var keep := o.limit + 1;
    candidates := [];
    var offset := 0;
    while offset < |uids|
      invariant 0 <= offset <= |uids|
      invariant candidates == Best(messages[..offset], o)
      decreases |uids| - offset
    {
      var end := if offset + FETCH_CHUNK < |uids| then offset + FETCH_CHUNK else |uids|;
      ghost var chunk := messages[offset..end];
      ChunkOf(mailbox, messages, offset, end);
      var items := Fetch(mailbox, uids[offset..end], chunk);
      candidates := AddMatches(candidates, items, o);
      candidates := Take(Sort(candidates, ByArrival), keep);
      AddBatch(messages[..offset], chunk, items, o);
      if providerOrdered && |candidates| >= keep {
        PrefixSettles(messages, end, o);
        return;
      }
      offset := end;
    }
    assert messages[..offset] == messages;
  }

  /** The inner loop: appends the items that pass the exact filter. */
  method AddMatches(candidates: seq<Message>, items: seq<Message>, o: Options) returns (extended: seq<Message>)
    ensures extended == candidates + Filter(items, Exact(o))
  {
    extended := candidates;
    for i := 0 to |items|
      invariant extended == candidates + Filter(items[..i], Exact(o))
    {
      assert items[..i + 1] == items[..i] + [items[i]];
      FilterAppend(items[..i], [items[i]], Exact(o));
      if InRange(items[i], o) && AfterCursor(items[i], o) {
        extended := extended + [items[i]];
      }
    }
    assert items[..|items|] == items;
  }

  // ----- the three access paths -----------------------------------------------------------------

  predicate NeedsExactTimestampFilter(stamp: Option<Stamp>) {
    stamp.Some? && (stamp.value.time + stamp.value.zone) % DAY != 0
  }

  predicate NeedsUnboundedSortWindow(o: Options) {
    NeedsExactTimestampFilter(o.since) || o.before.Some?
  }

  /** The part of a sorted UID list after the cursor; a limit of 0 is none. A missing cursor
      leaves the list whole. */
  method OrderedUidWindow(uids: seq<int>, cursorUid: int, limit: nat) returns (start: nat, window: seq<int>)
    ensures cursorUid == 0 || cursorUid !in uids ==> start == 0
    ensures cursorUid != 0 && cursorUid in uids ==>
              0 < start <= |uids| && uids[start - 1] == cursorUid && cursorUid !in uids[..start - 1]
    ensures start <= |uids|
    ensures window == if limit == 0 || (cursorUid != 0 && cursorUid !in uids) then uids[start..]
            else Take(uids[start..], limit)
  {
    start := 0;
    if cursorUid != 0 {
      while start < |uids| && uids[start] != cursorUid
        invariant start <= |uids| && cursorUid !in uids[..start]
      {
        start := start + 1;
      }
      if start == |uids| {
        assert uids[..start] == uids;
        return 0, uids;
      }
      start := start + 1;
    }
    var end := if 0 < limit && start + limit < |uids| then start + limit else |uids|;
    window := uids[start..end];
  }

  /** Filtering keeps distinct messages, and sorting keeps the elements. */
  lemma {:induction false} AdmittedFacts(mailbox: seq<Message>, o: Options)
    requires ValidMailbox(mailbox)
    ensures var admitted := Filter(mailbox, Criteria(o));
            && Listed(mailbox, admitted) && DistinctKeys(admitted, ByArrival)
            && Strict(Sort(admitted, ByArrival), ByArrival)
            && SameElements(admitted, Sort(admitted, ByArrival))
  {
    var admitted := Filter(mailbox, Criteria(o));
    FilterMembers(mailbox, Criteria(o));
    FilterStrict(mailbox, Criteria(o), ByUid);
    forall i, j | 0 <= i < j < |admitted| ensures ByArrival(admitted[i]) != ByArrival(admitted[j]) {
      assert Less(ByUid(admitted[i]), ByUid(admitted[j]));
    }
    SortStrict(admitted, ByArrival);
    SortMembers(admitted, ByArrival);
  }

  /** Reordering does not change the answer. */
  lemma {:induction false} SameAnswer(a: seq<Message>, b: seq<Message>, o: Options)
    requires DistinctKeys(a, ByArrival) && DistinctKeys(b, ByArrival)
    requires forall m :: Exact(o)(m) ==> (m in a <==> m in b)
    ensures Sort(Filter(a, Exact(o)), ByArrival) == Sort(Filter(b, Exact(o)), ByArrival)
  {
    FilterMembers(a, Exact(o));
    FilterMembers(b, Exact(o));
    FilterDistinct(a, Exact(o), ByArrival);
    FilterDistinct(b, Exact(o), ByArrival);
    SortSame(Filter(a, Exact(o)), Filter(b, Exact(o)), ByArrival);
  }

  lemma {:induction false} UpToCursor(sorted: seq<Message>, start: nat, i: nat, o: Options)
    requires Strict(sorted, ByArrival) && start <= |sorted| && i < |sorted| && AfterCursor(sorted[i], o)
    requires start > 0 ==>
               o.cursor.Some? && ByArrival(sorted[start - 1]) == Key(-o.cursor.value.at.time, o.cursor.value.uid, 0)
    ensures i >= start
  {
    assert i < start - 1 ==> Less(ByArrival(sorted[i]), ByArrival(sorted[start - 1]));
  }

  /** Everything the cursor admits lies after the cursor in the sorted list. */
  lemma {:induction false} AfterWindowStart(sorted: seq<Message>, start: nat, o: Options)
    requires Strict(sorted, ByArrival) && start <= |sorted|
    requires start > 0 ==>
               o.cursor.Some? && ByArrival(sorted[start - 1]) == Key(-o.cursor.value.at.time, o.cursor.value.uid, 0)
    ensures Strict(sorted[start..], ByArrival)
    ensures Sort(Filter(sorted[start..], Exact(o)), ByArrival) == Sort(Filter(sorted, Exact(o)), ByArrival)
  {
    forall m | Exact(o)(m) && m in sorted ensures m in sorted[start..] {
      var i :| 0 <= i < |sorted| && sorted[i] == m;
      UpToCursor(sorted, start, i, o);
      assert sorted[start..][i - start] == m;
    }
    SameAnswer(sorted[start..], sorted, o);
  }

  /** With only a lower time bound, what passes the filter is a prefix of the window. */
  lemma {:induction false} WindowFirst(messages: seq<Message>, o: Options, k: nat)
    requires Strict(messages, ByArrival) && o.before.None?
    requires forall m :: m in messages ==> AfterCursor(m, o)
    ensures Filter(Take(messages, k), Exact(o)) == Take(Filter(messages, Exact(o)), k)
  {
    if messages != [] && k > 0 {
      var rest := messages[1..];
      TakeCons(messages[0], rest, k);
      assert messages == [messages[0]] + rest;
      assert Take(messages, k)[1..] == Take(rest, k - 1);
      WindowFirst(rest, o, k - 1);
      if Exact(o)(messages[0]) {
        TakeCons(messages[0], Filter(rest, Exact(o)), k);
      } else {
        forall m | m in rest ensures !Exact(o)(m) { assert Less(ByArrival(messages[0]), ByArrival(m)); }
        FilterNothing(rest, Exact(o));
      }
    }
  }

  /** A bounded window after the cursor holds the whole answer. */
  lemma {:induction false} BoundedWindow(after: seq<Message>, o: Options)
    requires Strict(after, ByArrival) && o.before.None? && forall m :: m in after ==> AfterCursor(m, o)
    ensures var k := o.limit + 1;
            && Strict(Take(after, k), ByArrival)
            && Best(Take(after, k), o) == Best(after, o)
  {
    var k := o.limit + 1;
    WindowFirst(after, o, k);
    FilterStrict(after, Exact(o), ByArrival);
    FilterStrict(Take(after, k), Exact(o), ByArrival);
    SortIdempotent(Filter(after, Exact(o)), ByArrival);
    SortIdempotent(Filter(Take(after, k), Exact(o)), ByArrival);
  }

  /** The messages the window of the sorted list stands for. */
  ghost function Windowed(sorted: seq<Message>, start: nat, limit: nat): seq<Message>
    requires start <= |sorted|
  {
    if limit == 0 then sorted[start..] else Take(sorted[start..], limit)
  }

  /** A window start the scan can yield: the whole list, or just after the cursor. */
  ghost predicate StartFits(sorted: seq<Message>, start: nat, o: Options) {
    start <= |sorted|
    && (start > 0 ==>
          o.cursor.Some? && ByArrival(sorted[start - 1]) == Key(-o.cursor.value.at.time, o.cursor.value.uid, 0))
  }

  lemma {:induction false} WindowPart(sorted: seq<Message>, start: nat, limit: nat)
    requires Strict(sorted, ByArrival) && start <= |sorted|
    ensures var messages := Windowed(sorted, start, limit);
            (forall m :: m in messages ==> m in sorted) && Strict(messages, ByArrival)
  {
  }

  /** Any window the SORT path can pick holds the answer. */
  lemma {:induction false} WindowAnswers(sorted: seq<Message>, o: Options, start: nat, limit: nat)
    requires Strict(sorted, ByArrival) && StartFits(sorted, start, o)
    requires limit == 0 || (limit == o.limit + 1 && o.before.None? && (start == 0 ==> o.cursor.None?))
    ensures Best(Windowed(sorted, start, limit), o) == Best(sorted, o)
  {
    AfterWindowStart(sorted, start, o);
    if limit > 0 {
      WindowAfterCursor(sorted, start, o);
      BoundedWindow(sorted[start..], o);
    }
  }

  /** The scan's start is the whole list or just after the cursor's message. */
  lemma {:induction false} ScanStart(mailbox: seq<Message>, o: Options, start: nat)
    requires ValidMailbox(mailbox) && CursorFits(mailbox, o) && start <= |UidSort(mailbox, o)|
    requires start > 0 ==> o.cursor.Some? && UidSort(mailbox, o)[start - 1] == o.cursor.value.uid
    ensures StartFits(Sort(Filter(mailbox, Criteria(o)), ByArrival), start, o)
  {
    var sorted := Sort(Filter(mailbox, Criteria(o)), ByArrival);
    AdmittedFacts(mailbox, o);
    if start > 0 {
      assert sorted[start - 1] in sorted;
    }
  }

  lemma {:induction false} SortedAnswers(mailbox: seq<Message>, o: Options, start: nat, limit: nat)
    requires ValidMailbox(mailbox) && StartFits(Sort(Filter(mailbox, Criteria(o)), ByArrival), start, o)
    requires limit == 0 || (limit == o.limit + 1 && o.before.None? && (start == 0 ==> o.cursor.None?))
    ensures var messages := Windowed(Sort(Filter(mailbox, Criteria(o)), ByArrival), start, limit);
            Listed(mailbox, messages) && Strict(messages, ByArrival) && Best(messages, o) == Found(mailbox, o)
  {
    var sorted := Sort(Filter(mailbox, Criteria(o)), ByArrival);
    AdmittedFacts(mailbox, o);
    SameAnswer(Filter(mailbox, Criteria(o)), sorted, o);
    WindowPart(sorted, start, limit);
    WindowAnswers(sorted, o, start, limit);
  }

  /** OrderedUidWindow cuts the same stretch out of the UIDs. */
  lemma {:induction false} WindowUids(sorted: seq<Message>, start: nat, limit: nat)
    requires start <= |sorted|
    ensures Uids(Windowed(sorted, start, limit))
            == if limit == 0 then Uids(sorted)[start..] else Take(Uids(sorted)[start..], limit)
  {
  }

  /** The SORT path: windowed after a present cursor, the whole list when the cursor is gone. */
  method SortedCandidates(mailbox: seq<Message>, o: Options) returns (candidates: seq<Message>)
    requires ValidMailbox(mailbox) && CursorFits(mailbox, o)
    ensures candidates == Found(mailbox, o)
  {
    var uids := UidSort(mailbox, o);
    var cursorUid := if o.cursor.Some? then o.cursor.value.uid else 0;
    var windowLimit := o.limit + 1;
    var cursorMissing := cursorUid != 0 && cursorUid !in uids;
    if NeedsUnboundedSortWindow(o) {
      windowLimit := 0;
    }
    var start, window := OrderedUidWindow(uids, cursorUid, windowLimit);
    ghost var limit := if cursorMissing then 0 else windowLimit;
    WindowUids(Sort(Filter(mailbox, Criteria(o)), ByArrival), start, limit);
    ScanStart(mailbox, o, start);
    SortedAnswers(mailbox, o, start, limit);
    ghost var messages := Windowed(Sort(Filter(mailbox, Criteria(o)), ByArrival), start, limit);
    candidates := FetchSearchCandidates(mailbox, o, window, !cursorMissing, messages);
  }

  lemma {:induction false} WindowAfterCursor(sorted: seq<Message>, start: nat, o: Options)
    requires Strict(sorted, ByArrival) && start <= |sorted| && (start == 0 ==> o.cursor.None?)
    requires start > 0 ==>
               o.cursor.Some? && ByArrival(sorted[start - 1]) == Key(-o.cursor.value.at.time, o.cursor.value.uid, 0)
    ensures forall m :: m in sorted[start..] ==> AfterCursor(m, o)
  {
    forall m | m in sorted[start..] ensures AfterCursor(m, o) {
      var i :| start <= i < |sorted| && sorted[i] == m;
      assert start > 0 ==> Less(ByArrival(sorted[start - 1]), ByArrival(sorted[i]));
    }
  }

  /** The ordering and windowing part of SearchContext: whichever path the server allows, the
      first Limit messages found, and whether there is one more. */
  method SearchContext(mailbox: seq<Message>, o: Options, serverSorts: bool)
    returns (messages: seq<Message>, hasMore: bool)
    requires ValidMailbox(mailbox) && CursorFits(mailbox, o)
    ensures messages == Take(Found(mailbox, o), o.limit) && hasMore == (|Found(mailbox, o)| > o.limit)
  {
    AdmittedFacts(mailbox, o);
    if o.maxUidExclusive == 1 {
      NothingBelowOne(mailbox, o);
      return [], false;
    }
    var candidates;
    if serverSorts {
      candidates := SortedCandidates(mailbox, o);
    } else {
      candidates := FetchSearchCandidates(mailbox, o, UidSearch(mailbox, o), false, Filter(mailbox, Criteria(o)));
    }
    hasMore := |candidates| > o.limit;
    messages := Take(candidates, o.limit);
  }

  lemma {:induction false} NothingBelowOne(mailbox: seq<Message>, o: Options)
    requires ValidMailbox(mailbox) && o.maxUidExclusive == 1
    ensures Found(mailbox, o) == []
  {
    FilterNothing(mailbox, Criteria(o));
  }

  // ----- the promise ----------------------------------------------------------------------------

  /** Asking for a day too early and two days too late never hides a message in range. */
  lemma {:induction false} DayBoundsAreSafe(m: Message, o: Options)
    requires -DAY < m.received.zone < DAY && InRange(m, o)
    ensures SinceDay(o).Some? ==> LocalDay(m.received) >= SinceDay(o).value
    ensures o.before.Some? ==> LocalDay(m.received) < UtcDay(o.before.value) + 2
  {
  }

  /** Nor do they admit messages far from the range, or from the cursor. */
  lemma {:induction false} DayBoundsAreNear(m: Message, o: Options)
    requires -DAY < m.received.zone < DAY && (o.cursor.Some? ==> -DAY < o.cursor.value.at.zone < DAY)
    requires DayAdmitted(m, o)
    ensures o.since.Some? ==> m.received.time > o.since.value.time - 3 * 24 * 3600
    ensures o.before.Some? && o.cursor.None? ==> m.received.time < o.before.value.time + 3 * 24 * 3600
    ensures o.before.Some? ==> m.received.time < o.before.value.time + 4 * 24 * 3600
    ensures o.cursor.Some? ==> m.received.time < o.cursor.value.at.time + 3 * 24 * 3600
  {
    assert LocalDay(m.received) * DAY <= m.received.time + m.received.zone < (LocalDay(m.received) + 1) * DAY;
    if o.cursor.Some? {
      var at := o.cursor.value.at;
      assert LocalDay(at) * DAY <= at.time + at.zone < (LocalDay(at) + 1) * DAY;
    }
  }

  /** Wanted and shown messages in order: the shown ones are those the date bound lets through. */
  lemma {:induction false} ShownAreWanted(mailbox: seq<Message>, o: Options)
    requires ValidMailbox(mailbox)
    ensures var wanted := Sort(Filter(mailbox, Wanted(o)), ByArrival);
            var shown := Sort(Filter(Filter(mailbox, Criteria(o)), Exact(o)), ByArrival);
            && Strict(wanted, ByArrival) && Strict(shown, ByArrival)
            && forall m :: m in shown <==> m in wanted && DateShown(m, o)
  {
    var wanted := Filter(mailbox, Wanted(o));
    var shown := Filter(Filter(mailbox, Criteria(o)), Exact(o));
    FilterMembers(mailbox, Wanted(o));
    FilterMembers(mailbox, Criteria(o));
    FilterMembers(Filter(mailbox, Criteria(o)), Exact(o));
    forall m ensures m in shown <==> m in wanted && DateShown(m, o) {
      if m in mailbox && InRange(m, o) { DayBoundsAreSafe(m, o); }
    }
    ByArrivalDistinct(mailbox);
    FilterDistinct(mailbox, Wanted(o), ByArrival);
    FilterDistinct(mailbox, Criteria(o), ByArrival);
    FilterDistinct(Filter(mailbox, Criteria(o)), Exact(o), ByArrival);
    SortStrict(wanted, ByArrival);
    SortStrict(shown, ByArrival);
    SortMembers(wanted, ByArrival);
    SortMembers(shown, ByArrival);
  }

  /** The server's filter and the client's leave exactly what can be shown. */
  lemma {:induction false} ShownPointwise(m: Message, o: Options)
    requires -DAY < m.received.zone < DAY
    ensures Criteria(o)(m) && Exact(o)(m) <==> Shown(o)(m)
  {
    assert Exact(o)(m) <==> InRange(m, o) && AfterCursor(m, o);
    assert Shown(o)(m) <==> Wanted(o)(m) && DateShown(m, o);
    assert Wanted(o)(m) <==> m.matches && UidAdmitted(m, o) && InRange(m, o) && AfterCursor(m, o);
    if InRange(m, o) {
      DayBoundsAreSafe(m, o);
      assert DayAdmitted(m, o) <==> DateShown(m, o);
    }
  }

  /** What the search finds: the first of the messages it can return. */
  lemma {:induction false} FoundIsShown(mailbox: seq<Message>, o: Options)
    requires ValidMailbox(mailbox)
    ensures Found(mailbox, o) == Take(Sort(Filter(mailbox, Shown(o)), ByArrival), o.limit + 1)
  {
    var found := Filter(Filter(mailbox, Criteria(o)), Exact(o));
    FilterMembers(mailbox, Criteria(o));
    FilterMembers(Filter(mailbox, Criteria(o)), Exact(o));
    FilterMembers(mailbox, Shown(o));
    forall m ensures m in found <==> m in Filter(mailbox, Shown(o)) {
      if m in mailbox { ShownPointwise(m, o); }
    }
    ByArrivalDistinct(mailbox);
    FilterDistinct(mailbox, Criteria(o), ByArrival);
    FilterDistinct(Filter(mailbox, Criteria(o)), Exact(o), ByArrival);
    FilterDistinct(mailbox, Shown(o), ByArrival);
    SortSame(found, Filter(mailbox, Shown(o)), ByArrival);
  }

  /** A cursor in range bounds the day itself: the bound of `before` never comes first. */
  lemma {:induction false} CursorBoundsDay(o: Options)
    requires o.cursor.Some? && (o.before.Some? ==> o.cursor.value.at.time < o.before.value.time)
    ensures BeforeDay(o) == Some(LocalDay(o.cursor.value.at) + 1)
  {
  }

  /** The search keeps its promise if and only if the server may show the promised messages:
      the local date of each must not lie past the cursor's own. */
  lemma {:induction false} PromiseKeptExactly(mailbox: seq<Message>, o: Options)
    requires ValidMailbox(mailbox)
    ensures Found(mailbox, o) == Promised(mailbox, o) <==> forall m :: m in Promised(mailbox, o) ==> DateShown(m, o)
  {
    var wanted := Sort(Filter(mailbox, Wanted(o)), ByArrival);
    var shown := Sort(Filter(Filter(mailbox, Criteria(o)), Exact(o)), ByArrival);
    ShownAreWanted(mailbox, o);
    if forall m :: m in Promised(mailbox, o) ==> DateShown(m, o) {
      assert forall m :: m in Promised(mailbox, o) ==> m in wanted;
      FirstsAgree(wanted, shown, o.limit + 1);
    }
    assert forall m :: m in Found(mailbox, o) ==> m in shown;
  }

  lemma {:induction false} ByArrivalDistinct(mailbox: seq<Message>)
    requires ValidMailbox(mailbox)
    ensures DistinctKeys(mailbox, ByArrival)
  {
    forall i, j | 0 <= i < j < |mailbox| ensures ByArrival(mailbox[i]) != ByArrival(mailbox[j]) {
      assert Less(ByUid(mailbox[i]), ByUid(mailbox[j]));
    }
  }

  lemma {:induction false} FirstShared(all: seq<Message>, some: seq<Message>)
    requires Strict(all, ByArrival) && Strict(some, ByArrival) && forall m :: m in some ==> m in all
    requires all != [] && all[0] in some
    ensures some[0] == all[0] && forall m :: m in some[1..] ==> m in all[1..]
    ensures forall m :: m in all[1..] && m in some ==> m in some[1..]
  {
    assert some[0] in some;
    forall m | m in some[1..] ensures m in all[1..] {
      assert m in some && m in all && Less(ByArrival(some[0]), ByArrival(m));
    }
  }

  lemma {:induction false} RestShared(all: seq<Message>, some: seq<Message>, k: nat)
    requires all != [] && some != [] && k > 0 && (forall m :: m in all[1..] && m in some ==> m in some[1..])
    requires forall m :: m in Take(all, k) ==> m in some
    ensures forall m :: m in Take(all[1..], k - 1) ==> m in some[1..]
  {
    assert all == [all[0]] + all[1..];
    TakeCons(all[0], all[1..], k);
    forall m | m in Take(all[1..], k - 1) ensures m in some[1..] {
      assert m in all[1..] && m in Take(all, k);
    }
  }

  lemma {:induction false} EmptyPart(all: seq<Message>, some: seq<Message>)
    requires forall m :: m in some ==> m in all
    ensures some != [] ==> all != []
  {
    if some != [] {
      assert some[0] in all;
    }
  }

  /** A part of a strictly sorted list that holds its first k elements has the same first k. */
  lemma {:induction false} FirstsAgree(all: seq<Message>, some: seq<Message>, k: nat)
    requires Strict(all, ByArrival) && Strict(some, ByArrival) && forall m :: m in some ==> m in all
    requires forall m :: m in Take(all, k) ==> m in some
    ensures Take(some, k) == Take(all, k)
  {
    if all == [] {
      EmptyPart(all, some);
    } else if k > 0 {
      assert all[0] in Take(all, k);
      FirstShared(all, some);
      assert all == [all[0]] + all[1..] && some == [some[0]] + some[1..];
      TakeCons(all[0], all[1..], k);
      TakeCons(some[0], some[1..], k);
      RestShared(all, some, k);
      FirstsAgree(all[1..], some[1..], k - 1);
    }
  }

  /** No message written west of the cursor's zone is ever hidden; so one zone for all keeps
      the promise. */
  lemma {:induction false} OneZoneKeepsPromise(mailbox: seq<Message>, o: Options)
    requires ValidMailbox(mailbox)
    requires o.cursor.Some? ==> forall m :: m in mailbox ==> m.received.zone <= o.cursor.value.at.zone
    ensures Found(mailbox, o) == Promised(mailbox, o)
  {
    PromiseKeptExactly(mailbox, o);
    FilterMembers(mailbox, Wanted(o));
    SortMembers(Filter(mailbox, Wanted(o)), ByArrival);
    forall m | m in Promised(mailbox, o) ensures DateShown(m, o) {
      assert m in Sort(Filter(mailbox, Wanted(o)), ByArrival);
      DayBoundsAreSafe(m, o);
    }
  }

  /** A message an hour before the cursor, but written in a zone where it is already the next
      day, is lost. */
  lemma {:induction false} MixedZonesLoseMessage()
    ensures var older := Message(0, 1, Stamp(4 * 3600, 0), true);
            var o := Options(10, None, None, Some(Cursor(Stamp(5 * 3600, -6 * 3600), 2)), 0);
            Promised([older], o) == [older] && Found([older], o) == []
  {
    var older := Message(0, 1, Stamp(4 * 3600, 0), true);
    var o := Options(10, None, None, Some(Cursor(Stamp(5 * 3600, -6 * 3600), 2)), 0);
    assert Filter([older], Wanted(o)) == [older] + Filter([older][1..], Wanted(o));
    assert !DayAdmitted(older, o);
    assert Filter([older], Criteria(o)) == [];
  }
}
