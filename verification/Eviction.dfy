/** Keeping the state database within its byte limit: what eviction deletes, and why the
    writers that end with it always fit. The clock is fixed during one call. */
module Eviction {
  import opened Wrappers
  import opened Tables
  import opened OperationTable

  datatype Kind = Attachment | MessageBody | Event | MessageMetadata | OtherKind(name: string)

  /** The order in which kinds are given up. */
  function Rank(kind: Kind): int {
    match kind
    case Attachment => 0
    case MessageBody => 1
    case Event => 2
    case MessageMetadata => 3
    case OtherKind(_) => 4
  }

  datatype CacheRow = CacheRow(kind: Kind, expiresAt: int, accessedAt: int, value: Bytes)

  function Size(row: CacheRow): nat { |row.value| }

  /** Evicted earlier: a kind given up sooner, or the same kind and accessed longer ago. Kinds
      outside the list go by access time alone. */
  predicate Precedes(a: CacheRow, b: CacheRow) {
    Rank(a.kind) < Rank(b.kind) || (Rank(a.kind) == Rank(b.kind) && a.accessedAt < b.accessedAt)
  }

  // ----- the shortest prefix ------------------------------------------------------------------

  ghost predicate PartOf(rows: map<int, CacheRow>, kept: map<int, CacheRow>) {
    kept.Keys <= rows.Keys && forall k :: k in kept ==> kept[k] == rows[k]
  }

  /** What was removed is a prefix of the eviction order. */
  ghost predicate PrefixRemoved(rows: map<int, CacheRow>, kept: map<int, CacheRow>) {
    PartOf(rows, kept) && forall k, r :: k in kept && r in rows && r !in kept ==> !Precedes(rows[k], rows[r])
  }

  /** A last removed row, without whose removal the rest would not fit. */
  ghost predicate LastRemoved(rows: map<int, CacheRow>, kept: map<int, CacheRow>, room: int, last: int) {
    && last in rows && last !in kept && Size(rows[last]) + Total(kept, Size) > room
    && forall r :: r in rows && r !in kept ==> !Precedes(rows[last], rows[r])
  }

  ghost predicate NoLongerThanNeeded(rows: map<int, CacheRow>, kept: map<int, CacheRow>, room: int) {
    kept != rows ==> exists last :: LastRemoved(rows, kept, room, last)
  }

  /** The result of an eviction that leaves `room` bytes for cache entries. */
  ghost predicate Evicted(rows: map<int, CacheRow>, kept: map<int, CacheRow>, room: int) {
    PrefixRemoved(rows, kept) && NoLongerThanNeeded(rows, kept, room) && (Total(kept, Size) <= room || kept == map[])
  }

  ghost predicate DistinctAccess(rows: map<int, CacheRow>) {
    forall a, b :: a in rows && b in rows && a != b ==> Precedes(rows[a], rows[b]) || Precedes(rows[b], rows[a])
  }

  /** A prefix that keeps some row evict removed keeps the last removed row and all kept ones. */
  lemma {:induction false} LongerKeepsMore(rows: map<int, CacheRow>, kept: map<int, CacheRow>,
                                           other: map<int, CacheRow>, room: int, last: int, x: int)
    requires DistinctAccess(rows) && PrefixRemoved(rows, kept) && PrefixRemoved(rows, other)
    requires LastRemoved(rows, kept, room, last) && x in other && x !in kept
    ensures last in other && forall k :: k in kept ==> k in other
  {
    assert last != x ==> Precedes(rows[x], rows[last]);
    forall k | k in kept ensures k in other {
      assert !Precedes(rows[k], rows[last]);
      assert Precedes(rows[last], rows[k]);
    }
  }

  lemma {:induction false} KeptAndLast(rows: map<int, CacheRow>, kept: map<int, CacheRow>, last: int)
    requires PartOf(rows, kept) && last in rows && last !in kept
    ensures Total(rows, Size) >= Size(rows[last]) + Total(kept, Size)
  {
    TotalSubset(rows, kept[last := rows[last]], Size);
    TotalInsert(kept, last, rows[last], Size);
    assert kept - {last} == kept;
  }

  /** Shortest: every prefix whose removal fits contains everything evict removed. */
  lemma {:induction false} EvictedIsShortest(rows: map<int, CacheRow>, kept: map<int, CacheRow>,
                                             other: map<int, CacheRow>, room: int)
    requires DistinctAccess(rows) && Evicted(rows, kept, room)
    requires PrefixRemoved(rows, other) && Total(other, Size) <= room
    ensures other.Keys <= kept.Keys
  {
    if x :| x in other && x !in kept {
      var last :| LastRemoved(rows, kept, room, last);
      LongerKeepsMore(rows, kept, other, room, last, x);
      KeptAndLast(other, kept, last);
    }
  }

  /** With distinct access times the outcome is determined. */
  lemma {:induction false} EvictedUnique(rows: map<int, CacheRow>, a: map<int, CacheRow>, b: map<int, CacheRow>,
                                         room: int)
    requires DistinctAccess(rows) && Evicted(rows, a, room) && Evicted(rows, b, room)
    requires Total(a, Size) <= room && Total(b, Size) <= room
    ensures a == b
  {
    EvictedIsShortest(rows, a, b, room);
    EvictedIsShortest(rows, b, a, room);
  }

  /** Nothing goes when everything fits. */
  lemma {:induction false} EvictedNothing(rows: map<int, CacheRow>, kept: map<int, CacheRow>, room: int)
    requires Evicted(rows, kept, room) && Total(rows, Size) <= room
    ensures kept == rows
  {
    if kept != rows {
      var last :| LastRemoved(rows, kept, room, last);
      KeptAndLast(rows, kept, last);
    }
  }

  /** Deleting a row no kept row precedes, while the rest does not fit, keeps it a needed prefix. */
  lemma {:induction false} EvictOne(rows: map<int, CacheRow>, kept: map<int, CacheRow>, room: int, id: int)
    requires PrefixRemoved(rows, kept) && id in kept && Total(kept, Size) > room
    requires forall k :: k in kept ==> !Precedes(kept[k], kept[id])
    ensures PrefixRemoved(rows, kept - {id}) && NoLongerThanNeeded(rows, kept - {id}, room)
  {
    TotalRemove(kept, id, Size);
    assert LastRemoved(rows, kept - {id}, room, id);
  }

  // ----- the store ------------------------------------------------------------------------------

  function Unexpired(rows: map<int, CacheRow>, now: int): map<int, CacheRow> {
    map k | k in rows && rows[k].expiresAt >= now :: rows[k]
  }

  /** Kept, as they were, are exactly the rows that have not expired. */
  ghost predicate Purged(before: map<int, CacheRow>, after: map<int, CacheRow>, now: int) {
    && (forall k :: k in after <==> k in before && before[k].expiresAt >= now)
    && (forall k :: k in after ==> after[k] == before[k])
  }

  /** After a write: the row written, and the others that have not expired. */
  ghost predicate Written(before: map<int, CacheRow>, after: map<int, CacheRow>, id: int, row: CacheRow, now: int) {
    && id in after && after[id] == row
    && (forall k :: k in after <==> k == id || (k in before && before[k].expiresAt >= now))
    && (forall k :: k in after && k != id ==> after[k] == before[k])
  }

  /** The bytes of the rows that have not expired, other than one that is written over. */
  ghost function BytesBeside(rows: map<int, CacheRow>, id: int, now: int): nat {
    Total(map k | k in rows && k != id && rows[k].expiresAt >= now :: rows[k], (row: CacheRow) => |row.value|)
  }

  /** The kinds in the order they are given up; every other comes after them. */
  const GIVEN_UP: seq<Kind> := [Attachment, MessageBody, Event, MessageMetadata]

  /** What is gone was to go before what is left: nothing of a kind goes while a kind before it
      has rows, and within a kind the oldest access goes first. */
  ghost predicate InOrder(before: map<int, CacheRow>, after: map<int, CacheRow>) {
    forall kept, gone :: kept in after && kept in before && gone in before && gone !in after ==>
      && (forall i :: 0 <= i < |GIVEN_UP| && before[kept].kind == GIVEN_UP[i]
                      ==> before[gone].kind in GIVEN_UP[..i + 1])
      && (before[kept].kind == before[gone].kind || (before[kept].kind !in GIVEN_UP && before[gone].kind !in GIVEN_UP)
          ==> before[gone].accessedAt <= before[kept].accessedAt)
  }

  lemma {:induction false} SameTotal(rows: map<int, CacheRow>)
    ensures Total(rows, Size) == Total(rows, (row: CacheRow) => |row.value|)
    decreases |rows|
  {
    if rows != map[] {
      var k := Least(rows.Keys);
      assert rows.Keys - {k} < rows.Keys;
      SameTotal(rows - {k});
    }
  }

  /** When the written row and the others fit, nothing is evicted. */
  lemma {:induction false} WrittenFits(before: map<int, CacheRow>, after: map<int, CacheRow>, id: int, row: CacheRow,
                                       now: int, room: int)
    requires Evicted(Unexpired(before[id := row], now), after, room)
    requires row.expiresAt >= now && BytesBeside(before, id, now) + |row.value| <= room
    ensures Written(before, after, id, row, now)
  {
    var rows := Unexpired(before[id := row], now);
    var beside := map k | k in before && k != id && before[k].expiresAt >= now :: before[k];
    assert rows == beside[id := row] && beside - {id} == beside;
    TotalInsert(beside, id, row, Size);
    SameTotal(beside);
    EvictedNothing(rows, after, room);
  }

  lemma {:induction false} PurgedTwice(before: map<int, CacheRow>, id: int, row: CacheRow, now: int)
    ensures Unexpired(Unexpired(before, now)[id := row], now) == Unexpired(before[id := row], now)
    ensures Purged(before, Unexpired(before, now), now)
  {
  }

  lemma {:induction false} RankIsPlace(kind: Kind)
    ensures forall i :: 0 <= i < |GIVEN_UP| ==> (kind == GIVEN_UP[i] <==> Rank(kind) == i)
    ensures kind in GIVEN_UP <==> Rank(kind) < |GIVEN_UP|
    ensures 0 <= Rank(kind) <= |GIVEN_UP|
  {
  }

  lemma {:induction false} EvictedInOrder(rows: map<int, CacheRow>, kept: map<int, CacheRow>, room: int)
    requires Evicted(rows, kept, room)
    ensures InOrder(rows, kept)
  {
    forall k, gone | k in kept && k in rows && gone in rows && gone !in kept
      ensures forall i :: 0 <= i < |GIVEN_UP| && rows[k].kind == GIVEN_UP[i] ==> rows[gone].kind in GIVEN_UP[..i + 1]
      ensures rows[k].kind == rows[gone].kind || (rows[k].kind !in GIVEN_UP && rows[gone].kind !in GIVEN_UP)
              ==> rows[gone].accessedAt <= rows[k].accessedAt
    {
      assert !Precedes(rows[k], rows[gone]);
      RankIsPlace(rows[k].kind);
      RankIsPlace(rows[gone].kind);
    }
  }

  lemma {:induction false} EvictionOfLive(live: map<int, CacheRow>, room: int)
    ensures forall kept :: Evicted(live, kept, room) ==>
              InOrder(live, kept) && (Total(live, (row: CacheRow) => |row.value|) <= room ==> kept == live)
  {
    SameTotal(live);
    forall kept | Evicted(live, kept, room)
      ensures InOrder(live, kept) && (Total(live, (row: CacheRow) => |row.value|) <= room ==> kept == live)
    {
      EvictedInOrder(live, kept, room);
      if Total(live, Size) <= room { EvictedNothing(live, kept, room); }
    }
  }

  /** ORDER BY accessed_at LIMIT 1 among the rows of one rank, or of any when none is given. */
  function Oldest(rows: map<int, CacheRow>, rank: Option<int>): (oldest: Option<int>)
    ensures oldest.None? ==> forall k :: k in rows ==> rank.Some? && Rank(rows[k].kind) != rank.value
    ensures oldest.Some? ==> oldest.value in rows && (rank.Some? ==> Rank(rows[oldest.value].kind) == rank.value)
    ensures oldest.Some? ==> forall k :: k in rows && (rank.Some? ==> Rank(rows[k].kind) == rank.value)
                                        ==> rows[oldest.value].accessedAt <= rows[k].accessedAt
  {
    var candidates := set k | k in rows && (rank.Some? ==> Rank(rows[k].kind) == rank.value);
    if candidates == {} then
      assert forall k :: k in rows && (rank.Some? ==> Rank(rows[k].kind) == rank.value) ==> k in candidates;
      None
    else
      var times := set k | k in candidates :: rows[k].accessedAt;
      var some := Least(candidates);
      assert rows[some].accessedAt in times;
      var ties := set k | k in candidates && rows[k].accessedAt == Least(times);
      var first := TieExists(rows, candidates, times);
      assert first in ties;
      assert forall k :: k in rows && (rank.Some? ==> Rank(rows[k].kind) == rank.value) ==>
               k in candidates && rows[k].accessedAt in times;
      Some(Least(ties))
  }

  ghost function TieExists(rows: map<int, CacheRow>, candidates: set<int>, times: set<int>): (k: int)
    requires candidates != {} && (forall k :: k in candidates ==> k in rows)
    requires times == set k | k in candidates :: rows[k].accessedAt
    requires times != {}
    ensures k in candidates && rows[k].accessedAt == Least(times)
  {
    var k :| k in candidates && rows[k].accessedAt == Least(times);
    k
  }

  /** The state between two deletions of evict: what is gone so far is a needed prefix. */
  ghost predicate Pruning(rows: map<int, CacheRow>, kept: map<int, CacheRow>, room: int, now: int) {
    kept == Unexpired(kept, now) && PrefixRemoved(rows, kept) && NoLongerThanNeeded(rows, kept, room)
  }

  /** No row of a lower rank is left. */
  ghost predicate FromRank(kept: map<int, CacheRow>, lowest: int) {
    forall k :: k in kept ==> Rank(kept[k].kind) >= lowest
  }

  function LowestRank(rank: Option<int>): int { if rank.Some? then rank.value else 4 }

  /** When no row of the kind is left, the next kind is the lowest. */
  lemma {:induction false} KindExhausted(kept: map<int, CacheRow>, rank: Option<int>)
    requires FromRank(kept, LowestRank(rank)) && Oldest(kept, rank).None?
    ensures match rank case Some(r) => FromRank(kept, r + 1) case None => kept == map[]
  {
  }

  /** One deletion of the inner loops: the oldest row of the lowest rank left. */
  lemma {:induction false} EvictOldest(rows: map<int, CacheRow>, kept: map<int, CacheRow>, room: int, rank: Option<int>,
                                       id: int, now: int)
    requires Pruning(rows, kept, room, now) && FromRank(kept, LowestRank(rank)) && Total(kept, Size) > room
    requires Oldest(kept, rank) == Some(id)
    ensures var next := kept - {id};
            Pruning(rows, next, room, now) && FromRank(next, LowestRank(rank)) && |next| < |kept|
  {
    forall k | k in kept ensures !Precedes(kept[k], kept[id]) {
      assert Rank(kept[k].kind) >= LowestRank(rank);
    }
    EvictOne(rows, kept, room, id);
    assert (kept - {id}).Keys == kept.Keys - {id};
  }

  class StateStore {
    const limits: Limits
    var entries: map<int, CacheRow>
    var operations: map<int, Row>

    constructor (limits: Limits)
      ensures this.limits == limits && entries == map[] && operations == map[]
    {
      this.limits := limits;
      entries, operations := map[], map[];
    }

    /** The bytes left for cache entries once the reservations are honoured. */
    ghost function Room(): int
      reads this
    {
      limits.maxBytes - Total(operations, Reserved)
    }

    method PurgeExpired(now: int)
      modifies this`entries
      ensures entries == Unexpired(old(entries), now) && Purged(old(entries), entries, now)
    {
      entries := Unexpired(entries, now);
    }

    method Stats(now: int) returns (bytes: nat)
      modifies this`entries
      ensures entries == Unexpired(old(entries), now) && Purged(old(entries), entries, now)
      ensures bytes == Total(entries, Size) + Total(operations, Reserved)
    {
      PurgeExpired(now);
      bytes := Total(entries, Size) + Total(operations, Reserved);
    }

    /** The inner loop of evict: one kind, or any row when no kind is given. */
    method EvictKind(rank: Option<int>, bytes: nat, now: int, ghost rows: map<int, CacheRow>) returns (left: nat)
      requires Pruning(rows, entries, Room(), now) && bytes == Total(entries, Size) + Total(operations, Reserved)
      requires bytes > limits.maxBytes ==> FromRank(entries, LowestRank(rank))
      modifies this`entries
      ensures Pruning(rows, entries, Room(), now) && left == Total(entries, Size) + Total(operations, Reserved)
      ensures left > limits.maxBytes ==>
                match rank case Some(r) => FromRank(entries, r + 1) case None => entries == map[]
    {
      left := bytes;
      ghost var room := Room();
      while left > limits.maxBytes
        invariant Room() == room && Pruning(rows, entries, room, now)
        invariant left == Total(entries, Size) + Total(operations, Reserved)
        invariant left > limits.maxBytes ==> FromRank(entries, LowestRank(rank))
        decreases |entries|
      {
        var oldest := Oldest(entries, rank);
        if oldest.None? {
          KindExhausted(entries, rank);
          break;
        }
        ghost var kept := entries - {oldest.value};
        EvictOldest(rows, entries, room, rank, oldest.value, now);
        entries := entries - {oldest.value};
        left := Stats(now);
        assert entries == kept;
      }
    }

    /** Deletes the shortest prefix of the eviction order whose removal fits. It fails only if
        the reservations alone exceed the limit. */
    method Evict(now: int) returns (refusal: Option<Refusal>)
      modifies this`entries
      ensures Evicted(Unexpired(old(entries), now), entries, Room())
      ensures refusal == if Room() < 0 then Some(OverLimit) else None
      ensures refusal.None? ==> Total(entries, Size) + Total(operations, Reserved) <= limits.maxBytes
      ensures exists live :: Purged(old(entries), live, now) && InOrder(live, entries)
                             && (Total(live, (row: CacheRow) => |row.value|) <= Room() ==> entries == live)
    {
      var bytes := Stats(now);
      ghost var rows := entries;
      EvictionOfLive(rows, Room());
      if bytes <= limits.maxBytes {
        return None;
      }
      var rank := 0;
      while rank < 4
        invariant 0 <= rank <= 4
        invariant Pruning(rows, entries, Room(), now) && bytes == Total(entries, Size) + Total(operations, Reserved)
        invariant bytes > limits.maxBytes ==> FromRank(entries, rank)
      {
        bytes := EvictKind(Some(rank), bytes, now, rows);
        rank := rank + 1;
      }
      bytes := EvictKind(None, bytes, now, rows);
      if bytes > limits.maxBytes {
        return Some(OverLimit);
      }
      return None;
    }

    /** The shared tail of Put and Mutate: the size check, the write and the eviction. */
    method Write(id: int, row: CacheRow, now: int) returns (refusal: Option<Refusal>)
      requires WithinCapacity(limits, operations)
      modifies this`entries
      ensures refusal.Some? <==> |row.value| > Room()
      ensures refusal.Some? ==> entries == old(entries)
      ensures refusal.None? ==> Evicted(Unexpired(old(entries)[id := row], now), entries, Room())
      ensures refusal.None? ==> Total(entries, Size) + Total(operations, Reserved) <= limits.maxBytes
    {
      if Total(operations, Reserved) + Size(row) > limits.maxBytes {
        return Some(OverLimit);
      }
      entries := entries[id := row];
      refusal := Evict(now);
    }

    method Put(id: int, row: CacheRow, now: int) returns (refusal: Option<Refusal>)
      requires WithinCapacity(limits, operations)
      modifies this`entries
      ensures refusal.Some? <==> |row.value| > Room()
      ensures refusal.Some? ==> Purged(old(entries), entries, now)
      ensures refusal.None? ==> Evicted(Unexpired(old(entries)[id := row], now), entries, Room())
      ensures refusal.None? ==> Total(entries, Size) + Total(operations, Reserved) <= limits.maxBytes
      ensures row.expiresAt >= now && BytesBeside(old(entries), id, now) + |row.value| <= Room() ==>
                refusal.None? && Written(old(entries), entries, id, row, now)
    {
      PurgeExpired(now);
      PurgedTwice(old(entries), id, row, now);
      refusal := Write(id, row, now);
      if refusal.None? && row.expiresAt >= now && BytesBeside(old(entries), id, now) + |row.value| <= Room() {
        WrittenFits(old(entries), entries, id, row, now, Room());
      }
    }

    /** Reads an unexpired value, transforms it and writes it back. */
    method Mutate(id: int, row: CacheRow, transform: Option<Bytes> -> Bytes, now: int)
      returns (refusal: Option<Refusal>)
      requires WithinCapacity(limits, operations)
      modifies this`entries
      ensures var current := if id in old(entries) && now <= old(entries)[id].expiresAt
              then Some(old(entries)[id].value) else None;
              var written := row.(value := transform(current));
              && (refusal.Some? <==> |written.value| > Room())
              && (refusal.Some? ==> entries == old(entries))
              && (refusal.None? ==> Evicted(Unexpired(old(entries)[id := written], now), entries, Room())
                                    && Total(entries, Size) + Total(operations, Reserved) <= limits.maxBytes)
              && (row.expiresAt >= now && BytesBeside(old(entries), id, now) + |written.value| <= Room() ==>
                    refusal.None? && Written(old(entries), entries, id, written, now))
    {
      var current := None;
      if id in entries && now <= entries[id].expiresAt {
        current := Some(entries[id].value);
      }
      var written := row.(value := transform(current));
      refusal := Write(id, written, now);
      if refusal.None? && row.expiresAt >= now && BytesBeside(old(entries), id, now) + |written.value| <= Room() {
        WrittenFits(old(entries), entries, id, written, now, Room());
      }
    }

    /** Deletes the new operation again if no room can be made for it. */
    method EvictOrTakeBack(token: int, now: int) returns (refusal: Option<Refusal>)
      modifies this`entries, this`operations
      ensures refusal == if old(Room()) < 0 then Some(OverLimit) else None
      ensures operations == if refusal.None? then old(operations) else old(operations) - {token}
      ensures refusal.None? ==> Evicted(Unexpired(old(entries), now), entries, Room())
                                && Total(entries, Size) + Total(operations, Reserved) <= limits.maxBytes
    {
      refusal := Evict(now);
      if refusal.Some? {
        operations := operations - {token};
      }
    }

    /** Stores a prepared operation, then makes room for its reservation. The eviction cannot
        fail, so the operation is never taken back. */
    method PutOperation(record: Record, now: int) returns (refusal: Option<Refusal>)
      requires WithinCapacity(limits, operations)
      modifies this`entries, this`operations
      ensures WithinCapacity(limits, operations)
      ensures match PutTx(limits, old(operations), record, now)
              case Ok(put) => && refusal.None? && operations == put
                              && Evicted(Unexpired(old(entries), now), entries, Room())
                              && Total(entries, Size) + Total(operations, Reserved) <= limits.maxBytes
              case Err(why) => refusal == Some(why) && operations == old(operations) && entries == old(entries)
    {
      PutKeepsCapacity(limits, operations, record, now);
      match PutTx(limits, operations, record, now)
      case Err(why) =>
        return Some(why);
      case Ok(put) =>
        operations := put;
        refusal := EvictOrTakeBack(record.token, now);
    }
  }
}
