/** The table of prepared operations and its transactions. Each transaction runs under the
    database's write lock, so it is one atomic step. */
module OperationTable {
  import opened Wrappers
  import opened Tables

  datatype Status = Prepared | Executing | Succeeded | Failed | Uncertain

  predicate Terminal(status: Status) {
    status.Succeeded? || status.Failed? || status.Uncertain?
  }

  /** The encrypted record. `token` is the hash that keys the table. */
  datatype Record = Record(token: int, status: Status, executedAt: int, expiresAt: int, payload: string, result: string)

  /** One row: the plain status and expiry columns, the sealed record with its length, and
      the bytes reserved for it. */
  datatype Row = Row(status: Status, expiresAt: int, record: Record, size: nat, reserved: nat)

  datatype OperationResult = OperationResult(token: int, status: Status, executedAt: int, result: string)

  function ResultOf(record: Record): OperationResult {
    OperationResult(record.token, record.status, record.executedAt, record.result)
  }

  /** The configured byte limit, and the length of a sealed record. */
  datatype Limits = Limits(maxBytes: nat, cipherLength: Record -> nat)

  const COMPLETION_OVERHEAD: nat := 4096
  const PURGE_AFTER: int := 86400

  function Reserved(row: Row): nat { row.reserved }

  datatype Refusal = Missing | Duplicate | OverReservation | OverLimit | NotClaimed

  function Purge(rows: map<int, Row>, now: int): map<int, Row> {
    map t | t in rows && rows[t].expiresAt >= now - PURGE_AFTER :: rows[t]
  }

  /** INSERT of a new operation, after purging rows expired for a day. */
  function PutTx(limits: Limits, rows: map<int, Row>, record: Record, now: int): Result<map<int, Row>, Refusal> {
    var kept := Purge(rows, now);
    var size := limits.cipherLength(record);
    var reservation := 2 * size + COMPLETION_OVERHEAD;
    if Total(kept, Reserved) + reservation > limits.maxBytes then Err(OverLimit)
    else if record.token in kept then Err(Duplicate)
    else Ok(kept[record.token := Row(record.status, record.expiresAt, record, size, reservation)])
  }

  /** UPDATE of one operation, guarded by the status its row must still have. */
  function UpdateTx(limits: Limits, rows: map<int, Row>, record: Record,
                    expected: Status): Result<map<int, Row>, Refusal> {
    if record.token !in rows then Err(Missing)
    else
      var row := rows[record.token];
      var size := limits.cipherLength(record);
      if size > row.reserved then Err(OverReservation)
      else
        var reservation := if record.status.Prepared? || record.status.Executing? then row.reserved else size;
        if Total(rows - {record.token}, Reserved) + reservation > limits.maxBytes then Err(OverLimit)
        else if row.status != expected then Err(NotClaimed)
        else Ok(rows[record.token := Row(record.status, row.expiresAt, record, size, reservation)])
  }

  function Lookup(rows: map<int, Row>, token: int): Option<Record> {
    if token in rows then Some(rows[token].record) else None
  }

  // ----- capacity -------------------------------------------------------------------------

  /** Reservations fit the limit and every sealed record fits its reservation. */
  ghost predicate WithinCapacity(limits: Limits, rows: map<int, Row>) {
    && Total(rows, Reserved) <= limits.maxBytes
    && forall t :: t in rows ==> rows[t].size == limits.cipherLength(rows[t].record) && rows[t].size <= rows[t].reserved
  }

  lemma {:induction false} SubsetKeepsCapacity(limits: Limits, rows: map<int, Row>, kept: map<int, Row>)
    requires WithinCapacity(limits, rows)
    requires kept.Keys <= rows.Keys && forall t :: t in kept ==> kept[t] == rows[t]
    ensures WithinCapacity(limits, kept)
  {
    TotalSubset(rows, kept, Reserved);
  }

  lemma {:induction false} PutKeepsCapacity(limits: Limits, rows: map<int, Row>, record: Record, now: int)
    requires WithinCapacity(limits, rows)
    ensures var put := PutTx(limits, rows, record, now); put.Ok? ==> WithinCapacity(limits, put.value)
  {
    var kept := Purge(rows, now);
    SubsetKeepsCapacity(limits, rows, kept);
    var put := PutTx(limits, rows, record, now);
    if put.Ok? {
      TotalInsert(kept, record.token, put.value[record.token], Reserved);
      assert kept - {record.token} == kept;
    }
  }

  /** An update never needs more than what was reserved: reservations only shrink, the total
      stays within the limit, and the limit check inside the transaction never fires. */
  lemma {:induction false} UpdateKeepsCapacity(limits: Limits, rows: map<int, Row>, record: Record, expected: Status)
    requires WithinCapacity(limits, rows)
    ensures var updated := UpdateTx(limits, rows, record, expected);
            && updated != Err(OverLimit)
            && (updated.Ok? ==> WithinCapacity(limits, updated.value)
                                && updated.value[record.token].reserved <= rows[record.token].reserved
                                && Total(updated.value, Reserved) <= Total(rows, Reserved))
  {
    if record.token in rows {
      TotalRemove(rows, record.token, Reserved);
      var updated := UpdateTx(limits, rows, record, expected);
      if updated.Ok? {
        TotalInsert(rows, record.token, updated.value[record.token], Reserved);
      }
    }
  }

  // ----- what the transactions do, row by row -----------------------------------------------------

  /** Not expired for a whole day. */
  predicate Recent(row: Row, now: int) { row.expiresAt >= now - 24 * 3600 }

  ghost function SumOf(rows: map<int, Row>): nat { Total(rows, (row: Row) => row.reserved) }

  lemma {:induction false} SumIsTotal(rows: map<int, Row>)
    ensures SumOf(rows) == Total(rows, Reserved)
    decreases |rows|
  {
    if rows != map[] {
      var k := Least(rows.Keys);
      assert rows.Keys - {k} < rows.Keys;
      SumIsTotal(rows - {k});
    }
  }

  /** Only these rows differ, if any. */
  ghost predicate SameElsewhere(rows: map<int, Row>, next: map<int, Row>, token: int) {
    forall t :: t != token ==> (t in next <==> t in rows) && (t in rows ==> next[t] == rows[t])
  }

  /** An operation is stored exactly when its token is not in use by a recent row and the limit
      leaves room for twice its size and 4 KiB beside what recent rows have reserved. Recent rows
      stay; all others go. */
  lemma {:induction false} PutExactly(limits: Limits, rows: map<int, Row>, record: Record, now: int)
    ensures var recent := map t | t in rows && Recent(rows[t], now) :: rows[t];
            var size := limits.cipherLength(record);
            var put := PutTx(limits, rows, record, now);
            && (put == Err(OverLimit) <==> SumOf(recent) + 2 * size + 4 * 1024 > limits.maxBytes)
            && (put == Err(Duplicate) <==> SumOf(recent) + 2 * size + 4 * 1024 <= limits.maxBytes
                                           && record.token in recent)
            && (put.Err? ==> put.error in {OverLimit, Duplicate})
            && (put.Ok? ==>
                  && record.token in put.value && SameElsewhere(recent, put.value, record.token)
                  && var row := put.value[record.token];
                     && row.record == record && row.status == record.status && row.expiresAt == record.expiresAt
                     && row.size == size && row.reserved == 2 * size + 4 * 1024)
  {
    SumIsTotal(map t | t in rows && Recent(rows[t], now) :: rows[t]);
    assert Purge(rows, now) == map t | t in rows && Recent(rows[t], now) :: rows[t];
  }

  /** A record is updated exactly when its row has the expected status and reserved enough for it.
      A settled row keeps only what it needs. */
  lemma {:induction false} UpdateExactly(limits: Limits, rows: map<int, Row>, record: Record, expected: Status)
    requires WithinCapacity(limits, rows)
    ensures var size := limits.cipherLength(record);
            var updated := UpdateTx(limits, rows, record, expected);
            && (updated == Err(Missing) <==> record.token !in rows)
            && (updated == Err(OverReservation) <==> record.token in rows && size > rows[record.token].reserved)
            && (updated == Err(NotClaimed) <==> record.token in rows && size <= rows[record.token].reserved
                                                && rows[record.token].status != expected)
            && (updated.Err? ==> updated.error in {Missing, OverReservation, NotClaimed})
            && (updated.Ok? ==>
                  && record.token in updated.value && SameElsewhere(rows, updated.value, record.token)
                  && var row := updated.value[record.token];
                     && row.record == record && row.status == record.status && row.size == size
                     && row.expiresAt == rows[record.token].expiresAt
                     && row.reserved == if record.status in {Prepared, Executing} then rows[record.token].reserved
                                        else size)
  {
    UpdateKeepsCapacity(limits, rows, record, expected);
  }

  /** One handle on the table, with the store's methods. */
  class OperationStore {
    const limits: Limits
    var rows: map<int, Row>

    constructor (limits: Limits)
      ensures this.limits == limits && rows == map[] && WithinCapacity(limits, rows)
    {
      this.limits := limits;
      rows := map[];
    }

    method SumReserved(table: map<int, Row>) returns (sum: nat)
      ensures sum == Total(table, Reserved)
    {
      var left := table;
      sum := 0;
      while left != map[]
        invariant sum + Total(left, Reserved) == Total(table, Reserved)
        decreases |left|
      {
        var token := Least(left.Keys);
        sum := sum + left[token].reserved;
        assert left.Keys - {token} < left.Keys;
        left := left - {token};
      }
    }

    method PutOperation(record: Record, now: int) returns (refusal: Option<Refusal>)
      requires WithinCapacity(limits, rows)
      modifies this
      ensures WithinCapacity(limits, rows)
      ensures match PutTx(limits, old(rows), record, now)
              case Ok(put) => refusal.None? && rows == put
              case Err(why) => refusal == Some(why) && rows == old(rows)
    {
      ghost var put := PutTx(limits, rows, record, now);
      assert put.Ok? ==> WithinCapacity(limits, put.value) by {
        PutKeepsCapacity(limits, rows, record, now);
      }
      var kept := Purge(rows, now);
      var operationBytes := SumReserved(kept);
      var ciphertext := limits.cipherLength(record);
      var reservation := 2 * ciphertext + COMPLETION_OVERHEAD;
      if operationBytes + reservation > limits.maxBytes {
        return Some(OverLimit);
      }
      if record.token in kept {
        return Some(Duplicate);
      }
      rows := kept[record.token := Row(record.status, record.expiresAt, record, ciphertext, reservation)];
      return None;
    }

    method UpdateOperation(record: Record, expected: Status) returns (refusal: Option<Refusal>)
      requires WithinCapacity(limits, rows)
      modifies this
      ensures WithinCapacity(limits, rows)
      ensures match UpdateTx(limits, old(rows), record, expected)
              case Ok(updated) => refusal.None? && rows == updated
              case Err(why) => refusal == Some(why) && rows == old(rows)
    {
      UpdateKeepsCapacity(limits, rows, record, expected);
      if record.token !in rows {
        return Some(Missing);
      }
      var row := rows[record.token];
      var ciphertext := limits.cipherLength(record);
      if ciphertext > row.reserved {
        return Some(OverReservation);
      }
      var reservation := row.reserved;
      if !record.status.Prepared? && !record.status.Executing? {
        reservation := ciphertext;
      }
      var otherReservations := SumReserved(rows - {record.token});
      if otherReservations + reservation > limits.maxBytes {
        return Some(OverLimit);
      }
      if row.status != expected {
        return Some(NotClaimed);
      }
      rows := rows[record.token := Row(record.status, row.expiresAt, record, ciphertext, reservation)];
      return None;
    }

    /** Read, then compare-and-set; uninterrupted, it claims exactly the prepared operations
        whose executing record still fits. */
    method ClaimOperation(token: int, now: int) returns (record: Option<Record>, claimed: bool)
      requires WithinCapacity(limits, rows)
      requires forall t :: t in rows ==> rows[t].record.token == t && rows[t].record.status == rows[t].status
      modifies this
      ensures WithinCapacity(limits, rows)
      ensures claimed ==> token in old(rows) && old(rows)[token].status.Prepared?
                          && record == Some(old(rows)[token].record.(status := Executing, executedAt := now))
                          && Ok(rows) == UpdateTx(limits, old(rows), record.value, Prepared)
      ensures !claimed ==> rows == old(rows)
      ensures token in old(rows) && !old(rows)[token].status.Prepared? ==> !claimed && record == Lookup(rows, token)
      ensures token in old(rows) && old(rows)[token].status.Prepared? && !claimed
              ==> var executing := old(rows)[token].record.(status := Executing, executedAt := now);
                  limits.cipherLength(executing) > old(rows)[token].reserved
    {
      record := Lookup(rows, token);
      if record.None? || !record.value.status.Prepared? {
        return record, false;
      }
      var claim := record.value.(status := Executing, executedAt := now);
      UpdateKeepsCapacity(limits, rows, claim, Prepared);
      var refusal := UpdateOperation(claim, Prepared);
      if refusal.Some? {
        if refusal.value != NotClaimed {
          return None, false;
        }
        record := Lookup(rows, token);
        return record, false;
      }
      return Some(claim), true;
    }
  }
}
