/** What one connection's live pages leave in its scoped cache entry, page after page. */
module CachedPages {
  import opened Wrappers
  import opened Ordering
  import opened MailSearch
  import opened PageMerge
  import opened OfflineCache

  // ----- stretches of one ordered list ------------------------------------------------------------

  /** A stored entry against the whole: a beginning that reaches past what was shown, and all
      of it unless marked otherwise. */
  ghost predicate Covers(entry: Option<Entry>, all: seq<Message>, shown: nat, uidValidity: nat, uidNext: nat) {
    && entry.Some? && entry.value.messages <= all && shown <= |entry.value.messages|
    && entry.value.uidValidity == uidValidity && entry.value.uidNext == uidNext
    && (!entry.value.hasMore ==> entry.value.messages == all)
  }

  /** A page read from one connection whose first `shown` messages are out: the next stretch,
      after which `more` are out. */
  ghost predicate NextStretch(o: Options, result: Entry, all: seq<Message>, shown: nat, more: nat, size: nat,
                              uidValidity: nat, uidNext: nat) {
    && Strict(all, ByOrder) && UniqueUids(all) && shown <= more <= |all| && more <= shown + size
    && (o.maxUidExclusive == 0 || o.maxUidExclusive == uidNext) && (o.cursor.None? ==> shown == 0)
    && result == Entry(Take(all[shown..], size + 1), uidValidity, uidNext, |all[shown..]| > size + 1)
  }

  /** Storing one more page extends the beginning. */
  lemma {:induction false} StoredCovers(entry: Option<Entry>, o: Options, result: Entry, all: seq<Message>, shown: nat,
                                        more: nat, size: nat, uidValidity: nat, uidNext: nat)
    requires NextStretch(o, result, all, shown, more, size, uidValidity, uidNext)
    requires o.cursor.Some? ==> Covers(entry, all, shown, uidValidity, uidNext)
    ensures Covers(Some(Stored(entry, o, result)), all, more, uidValidity, uidNext)
    ensures Stored(entry, o, result).hasMore == result.hasMore
  {
    var j := shown + |result.messages|;
    assert result.messages == all[shown..j];
    if o.cursor.Some? {
      MergePrefix(all, |entry.value.messages|, shown, j, entry.value, result.(uidNext := uidNext));
    }
  }

  /** One page read from a connection: what was asked and read, and how many of its messages
      were out before and after. */
  datatype Reading = Reading(o: Options, result: Entry, shown: nat, more: nat, size: nat)

  /** A page that reads the next stretch of a connection. */
  ghost predicate Reads(r: Reading, all: seq<Message>, uidValidity: nat, uidNext: nat) {
    && NextStretch(r.o, r.result, all, r.shown, r.more, r.size, uidValidity, uidNext)
    && (r.o.cursor.None? <==> r.shown == 0)
  }

  ghost predicate Links(readings: seq<Reading>, i: nat, all: seq<Message>, uidValidity: nat, uidNext: nat)
    requires i < |readings|
  {
    && Reads(readings[i], all, uidValidity, uidNext)
    && readings[i].shown == if i == 0 then 0 else readings[i - 1].more
  }

  /** Pages that read one stretch of all messages after the other. */
  ghost predicate Chain(readings: seq<Reading>, all: seq<Message>, uidValidity: nat, uidNext: nat) {
    forall i :: 0 <= i < |readings| ==> Links(readings, i, all, uidValidity, uidNext)
  }

  lemma {:induction false} Linked(readings: seq<Reading>, i: nat, all: seq<Message>, uidValidity: nat, uidNext: nat)
    requires i < |readings| && Reads(readings[i], all, uidValidity, uidNext)
    requires readings[i].shown == if i == 0 then 0 else readings[i - 1].more
    ensures Links(readings, i, all, uidValidity, uidNext)
  {
  }

  /** The entry after the first n pages, when `found` is what the cache held before page `from`:
      anything before the first, nothing after a loss. */
  function EntryOver(readings: seq<Reading>, from: nat, n: nat, found: Option<Entry>): Option<Entry>
    requires from <= n <= |readings|
  {
    if n == from then found
    else Some(Stored(EntryOver(readings, from, n - 1, found), readings[n - 1].o, readings[n - 1].result))
  }

  /** Storing a page that reads the next stretch keeps the entry a beginning of all messages. */
  lemma {:induction false} PageCovers(r: Reading, entry: Option<Entry>, all: seq<Message>, uidValidity: nat,
                                      uidNext: nat)
    requires Reads(r, all, uidValidity, uidNext) && (r.shown > 0 ==> Covers(entry, all, r.shown, uidValidity, uidNext))
    ensures Covers(Some(Stored(entry, r.o, r.result)), all, r.more, uidValidity, uidNext)
    ensures Stored(entry, r.o, r.result).hasMore == r.result.hasMore
  {
    StoredCovers(entry, r.o, r.result, all, r.shown, r.more, r.size, uidValidity, uidNext);
  }

  /** After every page the entry is a beginning of all messages that reaches past what was
      shown, and all of them unless marked otherwise; what the cache held before anything was
      shown has no part in it. */
  lemma {:induction false} CacheCovers(readings: seq<Reading>, from: nat, n: nat, found: Option<Entry>,
                                       all: seq<Message>, uidValidity: nat, uidNext: nat)
    requires Chain(readings, all, uidValidity, uidNext) && from < n <= |readings| && readings[from].shown == 0
    ensures var entry := EntryOver(readings, from, n, found);
            && Covers(entry, all, readings[n - 1].more, uidValidity, uidNext)
            && entry.value.hasMore == readings[n - 1].result.hasMore
  {
    assert Links(readings, n - 1, all, uidValidity, uidNext);
    if n - 1 > from {
      CacheCovers(readings, from, n - 1, found, all, uidValidity, uidNext);
    }
    PageCovers(readings[n - 1], EntryOver(readings, from, n - 1, found), all, uidValidity, uidNext);
  }

  // ----- whatever the dates -----------------------------------------------------------------------

  lemma {:induction false} MergedOk(existing: Entry, newer: Entry, c: int)
    requires EntryOk(existing, c) && EntryOk(newer, c)
    ensures EntryOk(Merged(existing, newer), c)
    ensures forall m :: m in Merged(existing, newer).messages
                        <==> m in newer.messages || (m in existing.messages && m.uid !in MessageUids(newer.messages))
  {
    var all := Filter(existing.messages, OutsideOf(MessageUids(newer.messages))) + newer.messages;
    KeptAndFresh(existing.messages, newer.messages);
    UniqueUidsDistinct(all);
    SortStrict(all, ByOrder);
    SortMembers(all, ByOrder);
    SortedUnique(all, Sort(all, ByOrder));
  }

  lemma {:induction false} SortedUnique(messages: seq<Message>, sorted: seq<Message>)
    requires UniqueUids(messages) && Strict(sorted, ByOrder) && SameElements(messages, sorted)
    ensures UniqueUids(sorted)
  {
    forall i, j | 0 <= i < j < |sorted| ensures sorted[i].uid != sorted[j].uid {
      assert sorted[i] in sorted && sorted[j] in sorted && Less(ByOrder(sorted[i]), ByOrder(sorted[j]));
      var a :| 0 <= a < |messages| && messages[a] == sorted[i];
      var b :| 0 <= b < |messages| && messages[b] == sorted[j];
      assert a != b;
    }
  }

  /** A page of one traversal: its first page asks without a cursor, and all pages name the
      same generation and UIDNEXT. */
  ghost predicate OfTraversal(r: Reading, first: bool, c: int, uidValidity: nat, uidNext: nat) {
    && EntryOk(r.result, c) && r.result.uidValidity == uidValidity && r.result.uidNext == uidNext
    && (r.o.maxUidExclusive == 0 || r.o.maxUidExclusive == uidNext) && (first ==> r.o.cursor.None?)
  }

  ghost predicate AllOfTraversal(readings: seq<Reading>, c: int, uidValidity: nat, uidNext: nat) {
    forall i :: 0 <= i < |readings| ==> OfTraversal(readings[i], i == 0, c, uidValidity, uidNext)
  }

  /** An entry of that traversal, marked as its last page was. */
  ghost predicate Kept(entry: Option<Entry>, c: int, uidValidity: nat, uidNext: nat, hasMore: bool) {
    && entry.Some? && EntryOk(entry.value, c) && entry.value.uidValidity == uidValidity
    && entry.value.uidNext == uidNext && entry.value.hasMore == hasMore
  }

  lemma {:induction false} PageKept(r: Reading, entry: Option<Entry>, c: int, uidValidity: nat, uidNext: nat)
    requires OfTraversal(r, false, c, uidValidity, uidNext)
    requires r.o.cursor.Some? ==> entry.Some? && Kept(entry, c, uidValidity, uidNext, entry.value.hasMore)
    ensures Kept(Some(Stored(entry, r.o, r.result)), c, uidValidity, uidNext, r.result.hasMore)
    ensures r.o.cursor.Some? ==> Stored(entry, r.o, r.result) == Merged(entry.value, r.result)
  {
    if r.o.cursor.Some? {
      MergedOk(entry.value, r.result, c);
    }
  }

  /** The mark of the entry is the mark of the last page. */
  lemma {:induction false} EntryKept(readings: seq<Reading>, n: nat, found: Option<Entry>, c: int, uidValidity: nat,
                                     uidNext: nat)
    requires AllOfTraversal(readings, c, uidValidity, uidNext) && 0 < n <= |readings|
    ensures Kept(EntryOver(readings, 0, n, found), c, uidValidity, uidNext, readings[n - 1].result.hasMore)
  {
    assert OfTraversal(readings[n - 1], n == 1, c, uidValidity, uidNext);
    if n > 1 {
      EntryKept(readings, n - 1, found, c, uidValidity, uidNext);
    }
    PageKept(readings[n - 1], EntryOver(readings, 0, n - 1, found), c, uidValidity, uidNext);
  }

  lemma {:induction false} LastMark(readings: seq<Reading>, n: nat, found: Option<Entry>, c: int, uidValidity: nat,
                                    uidNext: nat)
    requires AllOfTraversal(readings, c, uidValidity, uidNext)
    requires 0 < n <= |readings| && !readings[n - 1].result.hasMore
    ensures ReadableOne(EntryOver(readings, 0, n, found), c)
  {
    EntryKept(readings, n, found, c, uidValidity, uidNext);
  }

  // ----- what an entry holds ----------------------------------------------------------------------

  /** Page i read the message, or it was held before and page i continued the entry. */
  ghost predicate Held(readings: seq<Reading>, i: nat, m: Message)
    requires i < |readings|
  {
    m in readings[i].result.messages || (i > 0 && Held(readings, i - 1, m) && readings[i].o.cursor.Some?)
  }

  /** No page after `from` up to `to` begins the entry anew. */
  ghost predicate Continued(readings: seq<Reading>, from: nat, to: nat)
    requires to < |readings|
  {
    forall k :: from < k <= to ==> readings[k].o.cursor.Some?
  }

  /** A held message was read by a page since which the entry was not begun anew, and conversely. */
  lemma {:induction false} HeldWasRead(readings: seq<Reading>, i: nat, m: Message) returns (j: nat)
    requires i < |readings| && Held(readings, i, m)
    ensures j <= i && m in readings[j].result.messages && Continued(readings, j, i)
  {
    if m in readings[i].result.messages {
      j := i;
    } else {
      j := HeldWasRead(readings, i - 1, m);
    }
  }

  lemma {:induction false} HeldOnwards(readings: seq<Reading>, i: nat, n: nat, m: Message)
    requires i <= n < |readings| && Held(readings, i, m) && Continued(readings, i, n)
    ensures Held(readings, n, m)
    decreases n
  {
    if i < n {
      HeldOnwards(readings, i, n - 1, m);
    }
  }

  /** A message that comes again comes as it was. */
  ghost predicate Unchanging(readings: seq<Reading>, m: Message) {
    forall i :: 0 <= i < |readings| ==>
      m in readings[i].result.messages || m.uid !in MessageUids(readings[i].result.messages)
  }

  lemma {:induction false} StoredMember(r: Reading, entry: Option<Entry>, c: int, uidValidity: nat, uidNext: nat,
                                        m: Message)
    requires OfTraversal(r, false, c, uidValidity, uidNext)
    requires r.o.cursor.Some? ==> entry.Some? && Kept(entry, c, uidValidity, uidNext, entry.value.hasMore)
    ensures m in Stored(entry, r.o, r.result).messages
            <==> m in r.result.messages
                 || (r.o.cursor.Some? && m in entry.value.messages && m.uid !in MessageUids(r.result.messages))
  {
    PageKept(r, entry, c, uidValidity, uidNext);
    if r.o.cursor.Some? { MergedOk(entry.value, r.result, c); }
  }

  /** The entry after page i holds exactly that, over anything cached before. */
  lemma {:induction false} EntryHolds(readings: seq<Reading>, i: nat, found: Option<Entry>, c: int, uidValidity: nat,
                                      uidNext: nat, m: Message)
    requires AllOfTraversal(readings, c, uidValidity, uidNext) && i < |readings|
    requires Held(readings, i, m) ==> Unchanging(readings, m)
    ensures var entry := EntryOver(readings, 0, i + 1, found);
            entry.Some? && (m in entry.value.messages <==> Held(readings, i, m))
  {
    EntryHoldsAtMost(readings, i, found, c, uidValidity, uidNext, m);
    if Held(readings, i, m) { EntryHoldsAll(readings, i, found, c, uidValidity, uidNext, m); }
  }

  lemma {:induction false} EntryHoldsAtMost(readings: seq<Reading>, i: nat, found: Option<Entry>, c: int,
                                            uidValidity: nat, uidNext: nat, m: Message)
    requires AllOfTraversal(readings, c, uidValidity, uidNext) && i < |readings|
    ensures var entry := EntryOver(readings, 0, i + 1, found);
            entry.Some? && (m in entry.value.messages ==> Held(readings, i, m))
    decreases i
  {
    assert OfTraversal(readings[i], i == 0, c, uidValidity, uidNext);
    if i > 0 {
      EntryHoldsAtMost(readings, i - 1, found, c, uidValidity, uidNext, m);
      EntryKept(readings, i, found, c, uidValidity, uidNext);
    }
    StoredMember(readings[i], EntryOver(readings, 0, i, found), c, uidValidity, uidNext, m);
  }

  lemma {:induction false} EntryHoldsAll(readings: seq<Reading>, i: nat, found: Option<Entry>, c: int,
                                         uidValidity: nat, uidNext: nat, m: Message)
    requires AllOfTraversal(readings, c, uidValidity, uidNext) && i < |readings|
    requires Held(readings, i, m) && Unchanging(readings, m)
    ensures var entry := EntryOver(readings, 0, i + 1, found); entry.Some? && m in entry.value.messages
    decreases i
  {
    assert OfTraversal(readings[i], i == 0, c, uidValidity, uidNext);
    if i > 0 {
      EntryKept(readings, i, found, c, uidValidity, uidNext);
      if Held(readings, i - 1, m) { EntryHoldsAll(readings, i - 1, found, c, uidValidity, uidNext, m); }
    }
    StoredMember(readings[i], EntryOver(readings, 0, i, found), c, uidValidity, uidNext, m);
  }
}
