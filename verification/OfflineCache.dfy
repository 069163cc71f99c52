/** The scoped search cache: entries that live pages extend, and traversals that read them back
    offline. */
module OfflineCache {
  import opened Wrappers
  import opened Tables
  import opened Ordering
  import opened MailSearch
  import opened PageMerge

  /** A stored search result. */
  datatype Entry = Entry(messages: seq<Message>, uidValidity: nat, uidNext: nat, hasMore: bool)

  function MessageUids(messages: seq<Message>): set<int> { set m | m in messages :: m.uid }

  function OutsideOf(uids: set<int>): Message -> bool { (m: Message) => m.uid !in uids }

  function Max(a: nat, b: nat): nat { if a < b then b else a }

  ghost predicate UniqueUids(messages: seq<Message>) {
    forall i, j :: 0 <= i < j < |messages| ==> messages[i].uid != messages[j].uid
  }

  /** Fresh messages replace stored ones with the same UID; the rest stay. */
  function Merged(existing: Entry, newer: Entry): Entry {
    Entry(Sort(Filter(existing.messages, OutsideOf(MessageUids(newer.messages))) + newer.messages, ByOrder),
          newer.uidValidity, Max(existing.uidNext, newer.uidNext), newer.hasMore)
  }

  /** The map the merge fills holds, for each UID, the message that came last. */
  ghost predicate Latest(byUid: map<int, Message>, existing: seq<Message>, newer: seq<Message>) {
    && (forall u :: u in byUid ==>
          byUid[u].uid == u && (byUid[u] in newer || (byUid[u] in existing && u !in MessageUids(newer))))
    && (forall m :: m in newer ==> m.uid in byUid && byUid[m.uid] == m)
    && (forall m :: m in existing && m.uid !in MessageUids(newer) ==> m.uid in byUid && byUid[m.uid] == m)
  }

  lemma {:induction false} UniqueLast(messages: seq<Message>, i: nat)
    requires UniqueUids(messages) && i < |messages|
    ensures messages[i].uid !in MessageUids(messages[..i])
    ensures messages[..i + 1] == messages[..i] + [messages[i]]
    ensures MessageUids(messages[..i + 1]) == MessageUids(messages[..i]) + {messages[i].uid}
  {
  }

  method FillMap(existing: seq<Message>, newer: seq<Message>) returns (byUid: map<int, Message>)
    requires UniqueUids(existing) && UniqueUids(newer)
    ensures Latest(byUid, existing, newer)
  {
    byUid := map[];
    for i := 0 to |existing|
      invariant Latest(byUid, existing[..i], [])
    {
      UniqueLast(existing, i);
      byUid := byUid[existing[i].uid := existing[i]];
    }
    assert existing[..|existing|] == existing;
    for i := 0 to |newer|
      invariant Latest(byUid, existing, newer[..i])
    {
      UniqueLast(newer, i);
      byUid := byUid[newer[i].uid := newer[i]];
    }
    assert newer[..|newer|] == newer;
  }

  /** The values of a map, in any order. */
  method Values(byUid: map<int, Message>) returns (messages: seq<Message>)
    requires forall u :: u in byUid ==> byUid[u].uid == u
    ensures UniqueUids(messages) && forall m :: m in messages <==> m.uid in byUid && byUid[m.uid] == m
  {
    messages := [];
    var left := byUid.Keys;
    while left != {}
      invariant left <= byUid.Keys && UniqueUids(messages)
      invariant forall m :: m in messages <==> m.uid in byUid && m.uid !in left && byUid[m.uid] == m
      decreases left
    {
      var u := Least(left);
      assert forall i :: 0 <= i < |messages| ==> messages[i] in messages;
      messages := messages + [byUid[u]];
      left := left - {u};
    }
  }

  lemma {:induction false} UniqueUidsDistinct(messages: seq<Message>)
    requires UniqueUids(messages)
    ensures DistinctKeys(messages, ByOrder)
  {
  }

  lemma {:induction false} KeptAndFresh(existing: seq<Message>, newer: seq<Message>)
    requires UniqueUids(existing) && UniqueUids(newer)
    ensures var all := Filter(existing, OutsideOf(MessageUids(newer))) + newer;
            && UniqueUids(all)
            && forall m :: m in all <==> m in newer || (m in existing && m.uid !in MessageUids(newer))
  {
    var kept := Filter(existing, OutsideOf(MessageUids(newer)));
    FilterMembers(existing, OutsideOf(MessageUids(newer)));
    FilterDistinct(existing, OutsideOf(MessageUids(newer)), ByUid);
    forall i, j | 0 <= i < j < |kept + newer| ensures (kept + newer)[i].uid != (kept + newer)[j].uid {
      if j < |kept| {
        assert ByUid(kept[i]) != ByUid(kept[j]);
      } else if i < |kept| {
        assert kept[i] in kept && newer[j - |kept|] in newer;
      }
    }
  }

  method MergeMailResults(existing: Entry, newer: Entry) returns (combined: Entry)
    requires UniqueUids(existing.messages) && UniqueUids(newer.messages)
    ensures combined == Merged(existing, newer)
  {
    var byUid := FillMap(existing.messages, newer.messages);
    var messages := Values(byUid);
    ghost var all := Filter(existing.messages, OutsideOf(MessageUids(newer.messages))) + newer.messages;
    KeptAndFresh(existing.messages, newer.messages);
    UniqueUidsDistinct(all);
    UniqueUidsDistinct(messages);
    assert forall m :: m in messages <==> m in all;
    SortSame(messages, all, ByOrder);
    combined := newer.(messages := Sort(messages, ByOrder), uidNext := Max(existing.uidNext, newer.uidNext));
  }

  // ----- storing a page -------------------------------------------------------------------------

  /** What a scoped entry becomes when a live result arrives: a first read replaces it, a
      continuation extends it unless it belongs to another traversal, and a continuation
      without a beginning is marked incomplete. */
  function Stored(entry: Option<Entry>, o: Options, result: Entry): Entry {
    var newer := if o.maxUidExclusive != 0 then result.(uidNext := o.maxUidExclusive) else result;
    if o.cursor.None? then newer
    else if entry.None? then newer.(hasMore := true)
    else if entry.value.uidValidity == newer.uidValidity && entry.value.uidNext == newer.uidNext
    then Merged(entry.value, newer)
    else entry.value
  }

  /** The UIDNEXT a page is stored with: the one its traversal recorded first. */
  function RecordedUidNext(o: Options, result: Entry): nat {
    if o.maxUidExclusive != 0 then o.maxUidExclusive else result.uidNext
  }

  /** A continuation page that belongs to another traversal than the stored entry. */
  predicate Foreign(entry: Entry, o: Options, result: Entry) {
    o.cursor.Some? && (entry.uidValidity != result.uidValidity || entry.uidNext != RecordedUidNext(o, result))
  }

  /** The stored messages with those of a page put in, UID for UID. */
  ghost predicate Joins(messages: seq<Message>, before: seq<Message>, page: seq<Message>) {
    && Strict(messages, ByOrder)
    && forall m :: m in messages
                   <==> m in page || (m in before && forall x :: x in page ==> x.uid != m.uid)
  }

  lemma {:induction false} MergedJoins(existing: Entry, newer: Entry)
    requires UniqueUids(existing.messages) && UniqueUids(newer.messages)
    ensures Joins(Merged(existing, newer).messages, existing.messages, newer.messages)
  {
    var all := Filter(existing.messages, OutsideOf(MessageUids(newer.messages))) + newer.messages;
    KeptAndFresh(existing.messages, newer.messages);
    UniqueUidsDistinct(all);
    SortStrict(all, ByOrder);
    SortMembers(all, ByOrder);
  }

  /** A foreign page is refused and leaves the entry; every other page is accepted: a first one
      replaces the entry, one without an entry is marked incomplete, and one of the entry's own
      traversal joins it and marks it as it is marked. */
  method CacheMailResult(entry: Option<Entry>, o: Options, result: Entry) returns (stored: Entry, accepted: bool)
    requires (entry.Some? ==> UniqueUids(entry.value.messages)) && UniqueUids(result.messages)
    ensures stored == Stored(entry, o, result)
    ensures !accepted <==> entry.Some? && Foreign(entry.value, o, result)
    ensures !accepted ==> stored == entry.value
    ensures accepted ==> stored.uidValidity == result.uidValidity && stored.uidNext == RecordedUidNext(o, result)
    ensures accepted ==> stored.hasMore == (result.hasMore || (o.cursor.Some? && entry.None?))
    ensures accepted && (o.cursor.None? || entry.None?) ==> stored.messages == result.messages
    ensures accepted && o.cursor.Some? && entry.Some? ==>
              Joins(stored.messages, entry.value.messages, result.messages)
  {
    if entry.Some? { MergedJoins(entry.value, result.(uidNext := RecordedUidNext(o, result))); }
    var newer := result;
    if o.maxUidExclusive != 0 {
      newer := newer.(uidNext := o.maxUidExclusive);
    }
    var continuation := o.cursor.Some?;
    stored, accepted := newer, true;
    if continuation && entry.Some? {
      if entry.value.uidValidity == newer.uidValidity && entry.value.uidNext == newer.uidNext {
        stored := MergeMailResults(entry.value, newer);
      } else {
        stored, accepted := entry.value, false;
      }
    } else if continuation {
      stored := stored.(hasMore := true);
    }
  }

  lemma {:induction false} SliceMember(all: seq<Message>, from: nat, to: nat, m: Message)
    requires from <= to <= |all|
    ensures m in all[from..to] <==> exists i :: from <= i < to && all[i] == m
  {
    if i :| from <= i < to && all[i] == m {
      assert all[from..to][i - from] == m;
    }
  }

  lemma {:induction false} OverlapMember(all: seq<Message>, k: nat, n: nat, j: nat, m: Message)
    requires UniqueUids(all) && n <= k <= |all| && n <= j <= |all|
    ensures m in all[n..j] || (m in all[..k] && m.uid !in MessageUids(all[n..j])) <==> m in all[..Max(k, j)]
  {
    SliceMember(all, n, j, m);
    SliceMember(all, 0, k, m);
    SliceMember(all, 0, Max(k, j), m);
    if i :| 0 <= i < k && all[i] == m && m !in all[n..j] {
      ForeignUid(all, n, j, i);
    }
  }

  /** Two overlapping stretches of one ordered list merge into the longer beginning. */
  lemma {:induction false} MergePrefix(all: seq<Message>, k: nat, n: nat, j: nat, existing: Entry, newer: Entry)
    requires Strict(all, ByOrder) && UniqueUids(all) && n <= k <= |all| && n <= j <= |all|
    requires existing.messages == all[..k] && newer.messages == all[n..j]
    ensures Merged(existing, newer).messages == all[..Max(k, j)]
  {
    KeptAndFresh(all[..k], all[n..j]);
    var union := Filter(all[..k], OutsideOf(MessageUids(all[n..j]))) + all[n..j];
    forall m ensures m in union <==> m in all[..Max(k, j)] {
      OverlapMember(all, k, n, j, m);
    }
    UniqueUidsDistinct(union);
    SortStrict(union, ByOrder);
    SortMembers(union, ByOrder);
    StrictUnique(Sort(union, ByOrder), all[..Max(k, j)], ByOrder);
  }

  lemma {:induction false} ForeignUid(all: seq<Message>, n: nat, j: nat, i: nat)
    requires UniqueUids(all) && n <= j <= |all| && i < |all| && all[i] !in all[n..j]
    ensures all[i].uid !in MessageUids(all[n..j])
  {
    forall x | x in all[n..j] ensures x.uid != all[i].uid {
      SliceMember(all, n, j, x);
      var at :| n <= at < j && all[at] == x;
      assert all[n..j][at - n] == x;
    }
  }

  // ----- looking up ---------------------------------------------------------------------------

  function Beyond(state: CursorState): Message -> bool { (m: Message) => PastCursor(state, m) }

  /** cachedMailResult on a complete scoped entry; without one the answer is the broad index,
      which is not part of this model. */
  method CachedMailResult(entry: Option<Entry>, state: CursorState, limit: nat) returns (result: Option<SearchResult>)
    requires limit > 0
    ensures result.Some? <==> entry.Some? && !entry.value.hasMore
    ensures result.Some? ==>
              && DeliveredOne(result.value, Filter(entry.value.messages, Beyond(state)), limit)
              && result.value.uidNext == entry.value.uidNext
  {
    if entry.None? || entry.value.hasMore {
      return None;
    }
    var messages := entry.value.messages;
    var filtered := [];
    for i := 0 to |messages|
      invariant filtered == Filter(messages[..i], Beyond(state))
    {
      assert messages[..i + 1] == messages[..i] + [messages[i]];
      FilterAppend(messages[..i], [messages[i]], Beyond(state));
      if PastCursor(state, messages[i]) {
        filtered := filtered + [messages[i]];
      }
    }
    assert messages[..|messages|] == messages;
    var hasMore := limit > 0 && |filtered| > limit;
    if hasMore {
      filtered := filtered[..limit];
    }
    return Some(SearchResult(filtered, hasMore, entry.value.uidNext));
  }

  // ----- traversals over the cache alone --------------------------------------------------------

  type Cache = map<int, Option<Entry>>

  /** What every stored entry of a connection is: in order, and below its UIDNEXT. */
  ghost predicate EntryOk(entry: Entry, c: int) {
    && Strict(entry.messages, ByOrder) && UniqueUids(entry.messages)
    && forall m :: m in entry.messages ==> m.connection == c && m.uid < entry.uidNext
  }

  ghost predicate ReadableOne(entry: Option<Entry>, c: int) {
    entry.Some? && !entry.value.hasMore && EntryOk(entry.value, c)
  }

  /** Every connection has a complete scoped entry. */
  ghost predicate Readable(connections: seq<int>, cache: Cache) {
    Distinct(connections) && forall c :: c in connections ==> c in cache && ReadableOne(cache[c], c)
  }

  function CachedParts(connections: seq<int>, cache: Cache, pos: Position): Parts
    requires Readable(connections, cache)
  {
    map c | c in connections :: Filter(cache[c].value.messages, Beyond(StateOf(pos, c)))
  }

  /** Everything the cache can still show, in order. */
  function OfflineRest(connections: seq<int>, cache: Cache, pos: Position): seq<Message>
    requires Readable(connections, cache)
  {
    Whole(connections, CachedParts(connections, cache, pos))
  }

  function CachedUidNext(connections: seq<int>, cache: Cache): map<int, nat>
    requires Readable(connections, cache)
  {
    map c | c in connections :: cache[c].value.uidNext
  }

  function OfflineNext(connections: seq<int>, cache: Cache, pos: Position, page: seq<Message>): Position
    requires Readable(connections, cache)
  {
    Advance(connections, CachedUidNext(connections, cache), pos, page)
  }

  /** A message that the cache can still show at a cursor. */
  ghost predicate InCache(connections: seq<int>, cache: Cache, pos: Position, m: Message)
    requires Readable(connections, cache)
  {
    m.connection in connections && m in cache[m.connection].value.messages && PastCursor(StateOf(pos, m.connection), m)
  }

  lemma {:induction false} CachedPartOf(entry: Entry, state: CursorState, c: int)
    requires EntryOk(entry, c)
    ensures var part := Filter(entry.messages, Beyond(state));
            && PartOf(part, c) && Strict(part, ByOrder)
            && forall m :: m in part <==> m in entry.messages && PastCursor(state, m)
  {
    FilterMembers(entry.messages, Beyond(state));
    FilterStrict(entry.messages, Beyond(state), ByOrder);
  }

  lemma {:induction false} OfflineRestFacts(connections: seq<int>, cache: Cache, pos: Position)
    requires Readable(connections, cache)
    ensures ValidParts(connections, CachedParts(connections, cache, pos))
    ensures InScope(connections, OfflineRest(connections, cache, pos))
    ensures forall m :: m in OfflineRest(connections, cache, pos) <==> InCache(connections, cache, pos, m)
  {
    forall c | c in connections
      ensures var part := Filter(cache[c].value.messages, Beyond(StateOf(pos, c)));
              && PartOf(part, c)
              && forall m :: m in part <==> m in cache[c].value.messages && PastCursor(StateOf(pos, c), m)
    {
      CachedPartOf(cache[c].value, StateOf(pos, c), c);
    }
    WholeFacts(connections, CachedParts(connections, cache, pos));
  }

  /** The lookup of one connection meets the provider's contract: its part of what is left. */
  lemma {:induction false} CachedMine(connections: seq<int>, cache: Cache, pos: Position, c: int)
    requires Readable(connections, cache) && c in connections
    ensures Filter(cache[c].value.messages, Beyond(StateOf(pos, c)))
            == Filter(OfflineRest(connections, cache, pos), OfConnection(c))
  {
    var part := Filter(cache[c].value.messages, Beyond(StateOf(pos, c)));
    OfflineRestFacts(connections, cache, pos);
    WholeOfConnection(connections, CachedParts(connections, cache, pos), c);
    CachedPartOf(cache[c].value, StateOf(pos, c), c);
    SortIdempotent(part, ByOrder);
  }

  /** The reading loop in offline mode. */
  method ReadCache(connections: seq<int>, cache: Cache, pos: Position, limit: nat)
    returns (results: map<int, SearchResult>)
    requires Readable(connections, cache) && limit > 0
    ensures Delivered(connections, results, OfflineRest(connections, cache, pos), limit)
    ensures Numbered(connections, CachedUidNext(connections, cache), results)
  {
    results := map[];
    ghost var rest := OfflineRest(connections, cache, pos);
    for i := 0 to |connections|
      invariant forall c :: c in connections[..i] ==>
        && c in results
        && DeliveredOne(results[c], Filter(rest, OfConnection(c)), limit)
        && results[c].uidNext == cache[c].value.uidNext
    {
      var c := connections[i];
      var result := CachedMailResult(cache[c], StateOf(pos, c), limit);
      CachedMine(connections, cache, pos, c);
      assert connections[..i + 1] == connections[..i] + [c];
      results := results[c := result.value];
    }
    assert connections[..|connections|] == connections;
  }

  /** SearchMessages in offline mode, over the same merge. */
  method OfflineSearchMessages(connections: seq<int>, cache: Cache, pos: Position, requested: int)
    returns (result: Option<Page>)
    requires Readable(connections, cache)
    ensures result.None? <==> requested < 0 || requested > MAX_PAGE
    ensures result.Some? ==>
              BeginsPage(result.value, OfflineRest(connections, cache, pos), PageSize(requested).value,
                         OfflineNext(connections, cache, pos, result.value.messages))
  {
    var pageSize := PageSize(requested);
    if pageSize.None? {
      return None;
    }
    OfflineRestFacts(connections, cache, pos);
    var results := ReadCache(connections, cache, pos, pageSize.value + 1);
    var page, next := MergeResults(connections, pos, results, pageSize.value, CachedUidNext(connections, cache),
                                   OfflineRest(connections, cache, pos));
    return Some(Page(page, next));
  }

  lemma {:induction false} OfflineLeftMember(connections: seq<int>, cache: Cache, pos: Position, n: nat, m: Message)
    requires Readable(connections, cache) && n <= |OfflineRest(connections, cache, pos)|
    ensures var rest := OfflineRest(connections, cache, pos);
            InCache(connections, cache, OfflineNext(connections, cache, pos, rest[..n]), m) <==> m in rest[n..]
  {
    var rest, uidNext := OfflineRest(connections, cache, pos), CachedUidNext(connections, cache);
    OfflineRestFacts(connections, cache, pos);
    assert forall x :: x in rest[..n] ==> x in rest;
    MemberSplit(rest, n, m);
    if m in rest {
      assert forall x :: x in rest ==> InCache(connections, cache, pos, x) && x.uid < uidNext[x.connection];
      AdvanceWithin(connections, uidNext, pos, rest, n, m);
    } else if m.connection in connections && m in cache[m.connection].value.messages {
      AdvancePast(connections, uidNext, pos, rest[..n], m);
    }
  }

  /** After an offline page, what is left is what was left less the page. */
  lemma {:induction false} OfflineLeft(connections: seq<int>, cache: Cache, pos: Position, n: nat)
    requires Readable(connections, cache) && n <= |OfflineRest(connections, cache, pos)|
    ensures var rest := OfflineRest(connections, cache, pos);
            OfflineRest(connections, cache, OfflineNext(connections, cache, pos, rest[..n])) == rest[n..]
  {
    var rest := OfflineRest(connections, cache, pos);
    var next := OfflineNext(connections, cache, pos, rest[..n]);
    OfflineRestFacts(connections, cache, pos);
    OfflineRestFacts(connections, cache, next);
    forall m ensures m in OfflineRest(connections, cache, next) <==> m in rest[n..] {
      OfflineLeftMember(connections, cache, pos, n, m);
    }
    StrictUnique(OfflineRest(connections, cache, next), rest[n..], ByOrder);
  }

  function OfflineTurn(connections: seq<int>, cache: Cache, p: Progress, size: nat): Progress
    requires Readable(connections, cache)
  {
    var rest := OfflineRest(connections, cache, p.pos);
    var page := Take(rest, size);
    Progress(OfflineNext(connections, cache, p.pos, page), p.emitted + page, |rest| > size)
  }

  /** The first n pages, of any sizes, over the cache alone. */
  function OfflineAfter(connections: seq<int>, cache: Cache, sizes: seq<nat>, n: nat): Progress
    requires Readable(connections, cache) && n <= |sizes|
  {
    if n == 0 then Progress(map[], [], true)
    else OfflineTurn(connections, cache, OfflineAfter(connections, cache, sizes, n - 1), sizes[n - 1])
  }

  /** Everything in the cache, in order. */
  function AllCached(connections: seq<int>, cache: Cache): seq<Message>
    requires Readable(connections, cache)
  {
    OfflineRest(connections, cache, map[])
  }

  lemma {:induction false} OfflineTurnStill(connections: seq<int>, cache: Cache, p: Progress, size: nat)
    requires Readable(connections, cache)
    ensures var next := OfflineTurn(connections, cache, p, size);
            && next.emitted + OfflineRest(connections, cache, next.pos)
               == p.emitted + OfflineRest(connections, cache, p.pos)
            && (next.more <==> OfflineRest(connections, cache, next.pos) != [])
            && (next.more ==> |next.emitted| == |p.emitted| + size)
  {
    var rest := OfflineRest(connections, cache, p.pos);
    var n := |Take(rest, size)|;
    assert Take(rest, size) == rest[..n];
    OfflineLeft(connections, cache, p.pos, n);
    assert rest == rest[..n] + rest[n..];
    Assoc(p.emitted, rest[..n], rest[n..]);
  }

  predicate ValidSizes(sizes: seq<nat>) { forall i :: 0 <= i < |sizes| ==> ValidSize(sizes[i]) }

  /** What n pages over a cache of these messages have come to. */
  ghost predicate OfflineAt(all: seq<Message>, p: Progress, rest: seq<Message>, n: nat, valid: bool) {
    && p.emitted + rest == all && (n > 0 ==> (p.more <==> rest != []))
    && (p.more && valid ==> |p.emitted| >= n)
  }

  lemma {:induction false} OfflineNextAt(connections: seq<int>, cache: Cache, p: Progress, size: nat, n: nat,
                                         valid: bool)
    requires Readable(connections, cache) && (valid ==> ValidSize(size))
    requires OfflineAt(AllCached(connections, cache), p, OfflineRest(connections, cache, p.pos), n, valid)
    ensures var next := OfflineTurn(connections, cache, p, size);
            OfflineAt(AllCached(connections, cache), next, OfflineRest(connections, cache, next.pos), n + 1, valid)
  {
    OfflineTurnStill(connections, cache, p, size);
    EndsForGood(connections, cache, p, size);
  }

  lemma {:induction false} OfflineRun(connections: seq<int>, cache: Cache, sizes: seq<nat>, n: nat)
    requires Readable(connections, cache) && n <= |sizes|
    ensures var p := OfflineAfter(connections, cache, sizes, n);
            OfflineAt(AllCached(connections, cache), p, OfflineRest(connections, cache, p.pos), n, ValidSizes(sizes))
    decreases n
  {
    if n == 0 {
      assert [] + AllCached(connections, cache) == AllCached(connections, cache);
    } else {
      OfflineRun(connections, cache, sizes, n - 1);
      OfflineNextAt(connections, cache, OfflineAfter(connections, cache, sizes, n - 1), sizes[n - 1], n - 1,
                    ValidSizes(sizes));
    }
  }

  /** The pages and what is left are always everything cached, in order; and pages come to an
      end once there are as many of them as messages. */
  lemma {:induction false} OfflineTraversal(connections: seq<int>, cache: Cache, sizes: seq<nat>, n: nat)
    requires Readable(connections, cache) && n <= |sizes|
    ensures var p := OfflineAfter(connections, cache, sizes, n);
            && p.emitted + OfflineRest(connections, cache, p.pos) == AllCached(connections, cache)
            && (!p.more ==> p.emitted == AllCached(connections, cache))
            && (ValidSizes(sizes) && n > 0 && n >= |AllCached(connections, cache)| ==> !p.more)
  {
    OfflineRun(connections, cache, sizes, n);
    var p := OfflineAfter(connections, cache, sizes, n);
    assert p.emitted + [] == p.emitted;
  }

  /** A traversal that has ended stays ended. */
  lemma {:induction false} EndsForGood(connections: seq<int>, cache: Cache, p: Progress, size: nat)
    requires Readable(connections, cache)
    ensures OfflineRest(connections, cache, p.pos) == [] ==> !OfflineTurn(connections, cache, p, size).more
  {
  }

  function OfflineOutcome(connections: seq<int>, cache: Cache, sizes: seq<nat>): Progress
    requires Readable(connections, cache)
  {
    OfflineAfter(connections, cache, sizes, |sizes|)
  }

  /** Pages of one message each show everything cached. */
  lemma {:induction false} OneByOne(connections: seq<int>, cache: Cache)
    requires Readable(connections, cache)
    ensures exists sizes :: ValidSizes(sizes) && !OfflineOutcome(connections, cache, sizes).more
                            && OfflineOutcome(connections, cache, sizes).emitted == AllCached(connections, cache)
  {
    var sizes := seq(|AllCached(connections, cache)| + 1, i => 1);
    OfflineTraversal(connections, cache, sizes, |sizes|);
    assert ValidSizes(sizes) && !OfflineOutcome(connections, cache, sizes).more;
  }
}
