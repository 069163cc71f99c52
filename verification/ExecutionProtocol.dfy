/** Executing prepared operations. Any number of executors and waiters share one table; every
    database transaction is one event, and events of different processes, crashes, failed and
    unacknowledged commits, clock ticks, purges and withdrawals interleave freely. */
module ExecutionProtocol {
  import opened Wrappers
  import opened Tables
  import opened OperationTable

  const EXECUTION_TIMEOUT: int := 600

  /** Where one call of ExecuteOperation stands: the step it takes next. */
  datatype Process =
    | Reading(token: int)
    | Checking(record: Record)
    | Claiming(token: int)
    | Swapping(record: Record)
    | Rereading(token: int)
    | Running(record: Record)
    | Completing(record: Record)
    | Settling(token: int)
    | Waiting(record: Record)
    | Expiring(record: Record)
    | ExpiredReading(token: int)

  /** `rows` is the database. The rest records the past: the operations ever prepared, the
      tokens whose claim was committed, the first terminal result of each, the provider calls
      made, and the results returned to callers. */
  datatype State = State(
    now: int, rows: map<int, Row>, processes: map<nat, Process>,
    issued: map<int, Record>, claimed: set<int>, settled: map<int, OperationResult>,
    executions: seq<Record>, returned: seq<OperationResult>)

  /** A transaction commits, fails without effect, or commits without the caller learning it. */
  datatype Fault = Clean | Failing | Unacknowledged

  datatype Event =
    | Prepare(record: Record)
    | Withdraw(token: int)
    | Tick(elapsed: nat)
    | Begin(process: nat, token: int)
    | Crash(process: nat)
    | Advance(process: nat, fault: Fault, accept: bool, outcome: Status, result: string)

  function Initial(): State {
    State(0, map[], map[], map[], {}, map[], [], [])
  }

  function Drop(s: State, p: nat): State {
    s.(processes := s.processes - {p})
  }

  function Move(s: State, p: nat, next: Process): State {
    s.(processes := s.processes[p := next])
  }

  function Return(s: State, p: nat, record: Record): State {
    Drop(s, p).(returned := s.returned + [ResultOf(record)])
  }

  /** Commit of the claim. */
  function CommitClaim(s: State, rows: map<int, Row>, token: int): State {
    s.(rows := rows, claimed := s.claimed + {token})
  }

  /** Commit of a terminal record. */
  function CommitResult(s: State, rows: map<int, Row>, record: Record): State {
    s.(rows := rows, settled := s.settled[record.token := ResultOf(record)])
  }

  function AdvanceReading(s: State, p: nat, token: int, fault: Fault): State {
    var found := Lookup(s.rows, token);
    if !fault.Clean? || found.None? then Drop(s, p)
    else if found.value.status.Executing? then Move(s, p, Waiting(found.value))
    else if !found.value.status.Prepared? then Return(s, p, found.value)
    else Move(s, p, Checking(found.value))
  }

  /** Expiry, policy, digest and provider preconditions; all but expiry come from outside. */
  function AdvanceChecking(s: State, p: nat, record: Record, accept: bool): State {
    if s.now < record.expiresAt && accept then Move(s, p, Claiming(record.token)) else Drop(s, p)
  }

  function AdvanceClaiming(s: State, p: nat, token: int, fault: Fault): State {
    var found := Lookup(s.rows, token);
    if !fault.Clean? || found.None? then Drop(s, p)
    else if found.value.status.Prepared?
      then Move(s, p, Swapping(found.value.(status := Executing, executedAt := s.now)))
    else if found.value.status.Executing? then Move(s, p, Waiting(found.value))
    else Return(s, p, found.value)
  }

  function AdvanceSwapping(limits: Limits, s: State, p: nat, record: Record, fault: Fault): State {
    var updated := UpdateTx(limits, s.rows, record, Prepared);
    if fault.Failing? then Drop(s, p)
    else match updated
      case Ok(rows) =>
        var committed := CommitClaim(s, rows, record.token);
        if fault.Clean? then Move(committed, p, Running(record)) else Drop(committed, p)
      case Err(why) => if why.NotClaimed? then Move(s, p, Rereading(record.token)) else Drop(s, p)
  }

  function AdvanceRereading(s: State, p: nat, token: int, fault: Fault): State {
    var found := Lookup(s.rows, token);
    if !fault.Clean? || found.None? then Drop(s, p)
    else if found.value.status.Executing? then Move(s, p, Waiting(found.value))
    else Return(s, p, found.value)
  }

  /** The provider call, and the record of its outcome. */
  function AdvanceRunning(s: State, p: nat, record: Record, outcome: Status, result: string): State {
    var status := if Terminal(outcome) then outcome else Failed;
    Move(s, p, Completing(record.(status := status, executedAt := s.now, result := result)))
      .(executions := s.executions + [record])
  }

  function AdvanceCompleting(limits: Limits, s: State, p: nat, record: Record, fault: Fault): State {
    var updated := UpdateTx(limits, s.rows, record, Executing);
    if fault.Failing? || updated.Err? then Move(s, p, Settling(record.token))
    else
      var committed := CommitResult(s, updated.value, record);
      if fault.Clean? then Return(committed, p, record) else Move(committed, p, Settling(record.token))
  }

  function AdvanceSettling(s: State, p: nat, token: int, fault: Fault): State {
    var found := Lookup(s.rows, token);
    if !fault.Clean? || found.None? || found.value.status.Executing? then Drop(s, p)
    else Return(s, p, found.value)
  }

  /** The record of an execution that a waiter gives up on. */
  function Interrupted(record: Record, at: int): Record {
    record.(status := Uncertain, executedAt := at, result := "execution was interrupted")
  }

  /** One turn of the waiting loop; `accept` false means the caller's context ended. */
  function AdvanceWaiting(s: State, p: nat, record: Record, fault: Fault, accept: bool): State {
    if !record.status.Executing? then Return(s, p, record)
    else if s.now >= record.executedAt + EXECUTION_TIMEOUT then
      Move(s, p, Expiring(Interrupted(record, s.now)))
    else if !accept then Return(s, p, record)
    else
      var found := Lookup(s.rows, record.token);
      if !fault.Clean? || found.None? then Drop(s, p) else Move(s, p, Waiting(found.value))
  }

  function AdvanceExpiring(limits: Limits, s: State, p: nat, record: Record, fault: Fault): State {
    var updated := UpdateTx(limits, s.rows, record, Executing);
    if fault.Failing? || updated.Err? then Move(s, p, ExpiredReading(record.token))
    else
      var committed := CommitResult(s, updated.value, record);
      if fault.Clean? then Return(committed, p, record) else Move(committed, p, ExpiredReading(record.token))
  }

  function AdvanceExpiredReading(s: State, p: nat, token: int, fault: Fault): State {
    var found := Lookup(s.rows, token);
    if !fault.Clean? || found.None? then Drop(s, p) else Return(s, p, found.value)
  }

  function AdvanceProcess(limits: Limits, s: State, p: nat, e: Event): State
    requires p in s.processes && e.Advance?
  {
    match s.processes[p]
    case Reading(token) => AdvanceReading(s, p, token, e.fault)
    case Checking(record) => AdvanceChecking(s, p, record, e.accept)
    case Claiming(token) => AdvanceClaiming(s, p, token, e.fault)
    case Swapping(record) => AdvanceSwapping(limits, s, p, record, e.fault)
    case Rereading(token) => AdvanceRereading(s, p, token, e.fault)
    case Running(record) => AdvanceRunning(s, p, record, e.outcome, e.result)
    case Completing(record) => AdvanceCompleting(limits, s, p, record, e.fault)
    case Settling(token) => AdvanceSettling(s, p, token, e.fault)
    case Waiting(record) => AdvanceWaiting(s, p, record, e.fault, e.accept)
    case Expiring(record) => AdvanceExpiring(limits, s, p, record, e.fault)
    case ExpiredReading(token) => AdvanceExpiredReading(s, p, token, e.fault)
  }

  /** One event. Tokens are random, so a new operation never reuses an issued one. */
  function Step(limits: Limits, s: State, e: Event): State {
    match e
    case Prepare(record) =>
      var put := PutTx(limits, s.rows, record, s.now);
      if record.token in s.issued || !record.status.Prepared? || put.Err? then s
      else s.(rows := put.value, issued := s.issued[record.token := record])
    case Withdraw(token) => s.(rows := s.rows - {token})
    case Tick(elapsed) => s.(now := s.now + elapsed)
    case Begin(process, token) => if process in s.processes then s else Move(s, process, Reading(token))
    case Crash(process) => Drop(s, process)
    case Advance(process, _, _, _, _) => if process in s.processes then AdvanceProcess(limits, s, process, e) else s
  }

  /** The state after any sequence of events. */
  function Run(limits: Limits, events: seq<Event>): State {
    if events == [] then Initial()
    else Step(limits, Run(limits, events[..|events| - 1]), events[|events| - 1])
  }

  // ----- invariant ------------------------------------------------------------------------

  /** The record carries the operation that was prepared under its token. */
  ghost predicate Genuine(s: State, record: Record) {
    && record.token in s.issued
    && record.payload == s.issued[record.token].payload
    && record.expiresAt == s.issued[record.token].expiresAt
  }

  ghost predicate RowOk(s: State, token: int, row: Row) {
    && row.record.token == token && row.status == row.record.status && row.expiresAt == row.record.expiresAt
    && Genuine(s, row.record)
    && (row.status.Prepared? <==> token !in s.claimed)
    && (Terminal(row.status) <==> token in s.settled)
    && (Terminal(row.status) ==> s.settled[token] == ResultOf(row.record))
  }

  ghost predicate ResultOk(s: State, result: OperationResult) {
    Terminal(result.status) ==> result.token in s.settled && s.settled[result.token] == result
  }

  ghost predicate Executed(s: State, token: int) {
    exists i :: 0 <= i < |s.executions| && s.executions[i].token == token
  }

  ghost predicate ProcessOk(s: State, process: Process) {
    match process
    case Swapping(record) => record.status.Executing? && Genuine(s, record)
    case Running(record) =>
      record.status.Executing? && Genuine(s, record) && record.token in s.claimed && !Executed(s, record.token)
    case Completing(record) => Terminal(record.status) && Genuine(s, record) && record.token in s.claimed
    case Waiting(record) =>
      Genuine(s, record) && record.token in s.claimed && !record.status.Prepared? && ResultOk(s, ResultOf(record))
    case Expiring(record) => Terminal(record.status) && Genuine(s, record) && record.token in s.claimed
    case _ => true
  }

  ghost predicate RowsInv(s: State) {
    forall t :: t in s.rows ==> RowOk(s, t, s.rows[t])
  }

  ghost predicate ProcessesInv(s: State) {
    forall p :: p in s.processes ==> ProcessOk(s, s.processes[p])
  }

  /** At most one process holds the right to call the provider for a token. */
  ghost predicate ExclusiveInv(s: State) {
    forall p, q :: p in s.processes && q in s.processes && p != q && s.processes[p].Running? && s.processes[q].Running?
                   ==> s.processes[p].record.token != s.processes[q].record.token
  }

  ghost predicate HistoryInv(s: State) {
    && s.claimed <= s.issued.Keys && s.settled.Keys <= s.claimed
    && (forall r :: r in s.returned ==> ResultOk(s, r))
    && (forall i :: 0 <= i < |s.executions| ==> s.executions[i].token in s.claimed && Genuine(s, s.executions[i]))
    && (forall i, j :: 0 <= i < j < |s.executions| ==> s.executions[i].token != s.executions[j].token)
  }

  ghost predicate Inv(limits: Limits, s: State) {
    WithinCapacity(limits, s.rows) && RowsInv(s) && ProcessesInv(s) && ExclusiveInv(s) && HistoryInv(s)
  }

  /** What an event leaves in place for every other process: facts about the past only grow. */
  ghost predicate Grows(s: State, next: State) {
    && (forall t :: t in s.issued ==> t in next.issued && next.issued[t] == s.issued[t])
    && s.claimed <= next.claimed
    && (forall t :: t in s.settled ==> t in next.settled && next.settled[t] == s.settled[t])
    && next.executions == s.executions
  }

  lemma {:induction false} ProcessOkGrows(s: State, next: State, process: Process)
    requires Grows(s, next) && ProcessOk(s, process)
    ensures ProcessOk(next, process)
  {
  }

  lemma {:induction false} DropKeepsInv(limits: Limits, s: State, p: nat)
    requires Inv(limits, s)
    ensures Inv(limits, Drop(s, p))
  {
    var next := Drop(s, p);
    forall q | q in next.processes ensures ProcessOk(next, next.processes[q]) {
      ProcessOkGrows(s, next, s.processes[q]);
    }
  }

  lemma {:induction false} ReturnKeepsInv(limits: Limits, s: State, p: nat, record: Record)
    requires Inv(limits, s) && ResultOk(s, ResultOf(record))
    ensures Inv(limits, Return(s, p, record))
  {
    var next := Return(s, p, record);
    forall q | q in next.processes ensures ProcessOk(next, next.processes[q]) {
      ProcessOkGrows(s, next, s.processes[q]);
    }
  }

  lemma {:induction false} MoveKeepsInv(limits: Limits, s: State, p: nat, process: Process)
    requires Inv(limits, s) && ProcessOk(s, process)
    requires process.Running? ==> forall q :: q in s.processes && q != p && s.processes[q].Running? ==>
               s.processes[q].record.token != process.record.token
    ensures Inv(limits, Move(s, p, process))
  {
    var next := Move(s, p, process);
    forall q | q in next.processes ensures ProcessOk(next, next.processes[q]) {
      ProcessOkGrows(s, next, next.processes[q]);
    }
  }

  /** A committed claim: the only way a token leaves `prepared`. */
  lemma {:induction false} ClaimKeepsInv(limits: Limits, s: State, record: Record)
    requires Inv(limits, s) && record.status.Executing? && Genuine(s, record)
    requires UpdateTx(limits, s.rows, record, Prepared).Ok?
    ensures var next := CommitClaim(s, UpdateTx(limits, s.rows, record, Prepared).value, record.token);
            Inv(limits, next) && record.token !in s.claimed && !Executed(next, record.token)
  {
    UpdateKeepsCapacity(limits, s.rows, record, Prepared);
    var next := CommitClaim(s, UpdateTx(limits, s.rows, record, Prepared).value, record.token);
    assert RowOk(s, record.token, s.rows[record.token]);
    forall t | t in next.rows ensures RowOk(next, t, next.rows[t]) {
      if t != record.token { assert RowOk(s, t, s.rows[t]); }
    }
    forall q | q in next.processes ensures ProcessOk(next, next.processes[q]) {
      ProcessOkGrows(s, next, s.processes[q]);
    }
  }

  /** A committed terminal record: the only way a token is settled, and it happens once. */
  lemma {:induction false} ResultKeepsInv(limits: Limits, s: State, record: Record)
    requires Inv(limits, s) && Terminal(record.status) && Genuine(s, record) && record.token in s.claimed
    requires UpdateTx(limits, s.rows, record, Executing).Ok?
    ensures record.token !in s.settled
    ensures Inv(limits, CommitResult(s, UpdateTx(limits, s.rows, record, Executing).value, record))
  {
    UpdateKeepsCapacity(limits, s.rows, record, Executing);
    var next := CommitResult(s, UpdateTx(limits, s.rows, record, Executing).value, record);
    assert RowOk(s, record.token, s.rows[record.token]);
    forall t | t in next.rows ensures RowOk(next, t, next.rows[t]) {
      if t != record.token { assert RowOk(s, t, s.rows[t]); }
    }
    forall q | q in next.processes ensures ProcessOk(next, next.processes[q]) {
      ProcessOkGrows(s, next, s.processes[q]);
    }
    forall r | r in next.returned ensures ResultOk(next, r) { assert ResultOk(s, r); }
  }

  lemma {:induction false} RunningKeepsInv(limits: Limits, s: State, p: nat, record: Record, outcome: Status,
                                           result: string)
    requires Inv(limits, s) && p in s.processes && s.processes[p] == Running(record)
    ensures Inv(limits, AdvanceRunning(s, p, record, outcome, result))
  {
    var next := AdvanceRunning(s, p, record, outcome, result);
    assert ProcessOk(s, s.processes[p]);
    forall q | q in next.processes ensures ProcessOk(next, next.processes[q]) {
      if q != p {
        assert ProcessOk(s, s.processes[q]);
        if s.processes[q].Running? {
          assert s.processes[q].record.token != record.token;
          NotExecuted(s, next, record, s.processes[q].record.token);
        }
      }
    }
    forall t | t in next.rows ensures RowOk(next, t, next.rows[t]) { assert RowOk(s, t, s.rows[t]); }
    forall r | r in next.returned ensures ResultOk(next, r) { assert ResultOk(s, r); }
    forall i | 0 <= i < |s.executions| ensures s.executions[i].token != record.token {
      if s.executions[i].token == record.token { assert Executed(s, record.token); }
    }
  }

  lemma {:induction false} NotExecuted(s: State, next: State, record: Record, token: int)
    requires next.executions == s.executions + [record] && record.token != token && !Executed(s, token)
    ensures !Executed(next, token)
  {
    forall i | 0 <= i < |next.executions| ensures next.executions[i].token != token {
      assert i < |s.executions| ==> next.executions[i] == s.executions[i];
    }
  }

  lemma {:induction false} SwappingKeepsInv(limits: Limits, s: State, p: nat, record: Record, fault: Fault)
    requires Inv(limits, s) && p in s.processes && s.processes[p] == Swapping(record)
    ensures Inv(limits, AdvanceSwapping(limits, s, p, record, fault))
  {
    assert ProcessOk(s, s.processes[p]);
    var updated := UpdateTx(limits, s.rows, record, Prepared);
    if fault.Failing? {
      DropKeepsInv(limits, s, p);
    } else if updated.Err? {
      DropKeepsInv(limits, s, p);
      MoveKeepsInv(limits, s, p, Rereading(record.token));
    } else {
      ClaimKeepsInv(limits, s, record);
      var committed := CommitClaim(s, updated.value, record.token);
      DropKeepsInv(limits, committed, p);
      forall q | q in committed.processes && q != p && committed.processes[q].Running?
        ensures committed.processes[q].record.token != record.token
      {
        assert ProcessOk(s, s.processes[q]);
      }
      MoveKeepsInv(limits, committed, p, Running(record));
    }
  }

  /** A committed terminal record, returned or lost on the way to the caller. */
  lemma {:induction false} CommittedKeepsInv(limits: Limits, s: State, p: nat, record: Record, next: Process)
    requires Inv(limits, s) && Terminal(record.status) && Genuine(s, record) && record.token in s.claimed
    requires UpdateTx(limits, s.rows, record, Executing).Ok? && (next.Settling? || next.ExpiredReading?)
    ensures var committed := CommitResult(s, UpdateTx(limits, s.rows, record, Executing).value, record);
            Inv(limits, Return(committed, p, record)) && Inv(limits, Move(committed, p, next))
  {
    ResultKeepsInv(limits, s, record);
    var committed := CommitResult(s, UpdateTx(limits, s.rows, record, Executing).value, record);
    ReturnKeepsInv(limits, committed, p, record);
    MoveKeepsInv(limits, committed, p, next);
  }

  lemma {:induction false} CompletingKeepsInv(limits: Limits, s: State, p: nat, record: Record, fault: Fault)
    requires Inv(limits, s) && Terminal(record.status) && Genuine(s, record) && record.token in s.claimed
    ensures Inv(limits, AdvanceCompleting(limits, s, p, record, fault))
  {
    if fault.Failing? || UpdateTx(limits, s.rows, record, Executing).Err? {
      MoveKeepsInv(limits, s, p, Settling(record.token));
    } else {
      CommittedKeepsInv(limits, s, p, record, Settling(record.token));
    }
  }

  lemma {:induction false} ExpiringKeepsInv(limits: Limits, s: State, p: nat, record: Record, fault: Fault)
    requires Inv(limits, s) && Terminal(record.status) && Genuine(s, record) && record.token in s.claimed
    ensures Inv(limits, AdvanceExpiring(limits, s, p, record, fault))
  {
    if fault.Failing? || UpdateTx(limits, s.rows, record, Executing).Err? {
      MoveKeepsInv(limits, s, p, ExpiredReading(record.token));
    } else {
      CommittedKeepsInv(limits, s, p, record, ExpiredReading(record.token));
    }
  }

  /** Every step that only reads the table. */
  lemma {:induction false} ReadingKeepsInv(limits: Limits, s: State, p: nat, token: int, fault: Fault)
    requires Inv(limits, s)
    ensures Inv(limits, AdvanceReading(s, p, token, fault))
    ensures Inv(limits, AdvanceClaiming(s, p, token, fault))
    ensures Inv(limits, AdvanceRereading(s, p, token, fault))
    ensures Inv(limits, AdvanceSettling(s, p, token, fault))
    ensures Inv(limits, AdvanceExpiredReading(s, p, token, fault))
  {
    DropKeepsInv(limits, s, p);
    if token in s.rows {
      var record := s.rows[token].record;
      assert RowOk(s, token, s.rows[token]);
      ReturnKeepsInv(limits, s, p, record);
      if record.status.Prepared? {
        MoveKeepsInv(limits, s, p, Checking(record));
        MoveKeepsInv(limits, s, p, Swapping(record.(status := Executing, executedAt := s.now)));
      } else {
        MoveKeepsInv(limits, s, p, Waiting(record));
      }
    }
  }

  lemma {:induction false} WaitingKeepsInv(limits: Limits, s: State, p: nat, record: Record, fault: Fault, accept: bool)
    requires Inv(limits, s) && p in s.processes && s.processes[p] == Waiting(record)
    ensures Inv(limits, AdvanceWaiting(s, p, record, fault, accept))
  {
    assert ProcessOk(s, s.processes[p]);
    DropKeepsInv(limits, s, p);
    ReturnKeepsInv(limits, s, p, record);
    if record.status.Executing? {
      MoveKeepsInv(limits, s, p, Expiring(Interrupted(record, s.now)));
      if record.token in s.rows {
        assert RowOk(s, record.token, s.rows[record.token]);
        MoveKeepsInv(limits, s, p, Waiting(s.rows[record.token].record));
      }
    }
  }

  lemma {:induction false} PrepareKeepsInv(limits: Limits, s: State, record: Record)
    requires Inv(limits, s)
    ensures Inv(limits, Step(limits, s, Prepare(record)))
  {
    var next := Step(limits, s, Prepare(record));
    if next != s {
      PutKeepsCapacity(limits, s.rows, record, s.now);
      forall t | t in next.rows ensures RowOk(next, t, next.rows[t]) {
        if t != record.token { assert RowOk(s, t, s.rows[t]); }
      }
      forall q | q in next.processes ensures ProcessOk(next, next.processes[q]) {
        ProcessOkGrows(s, next, s.processes[q]);
      }
      forall r | r in next.returned ensures ResultOk(next, r) { assert ResultOk(s, r); }
    }
  }

  lemma {:induction false} WithdrawKeepsInv(limits: Limits, s: State, token: int)
    requires Inv(limits, s)
    ensures Inv(limits, Step(limits, s, Withdraw(token)))
  {
    var next := Step(limits, s, Withdraw(token));
    SubsetKeepsCapacity(limits, s.rows, next.rows);
    forall t | t in next.rows ensures RowOk(next, t, next.rows[t]) { assert RowOk(s, t, s.rows[t]); }
    forall q | q in next.processes ensures ProcessOk(next, next.processes[q]) {
      ProcessOkGrows(s, next, s.processes[q]);
    }
  }

  lemma {:induction false} StepKeepsInv(limits: Limits, s: State, e: Event)
    requires Inv(limits, s)
    ensures Inv(limits, Step(limits, s, e))
  {
    match e
    case Prepare(record) => PrepareKeepsInv(limits, s, record);
    case Withdraw(token) => WithdrawKeepsInv(limits, s, token);
    case Tick(elapsed) =>
      var next := Step(limits, s, e);
      forall q | q in next.processes ensures ProcessOk(next, next.processes[q]) {
        ProcessOkGrows(s, next, s.processes[q]);
      }
    case Begin(process, token) => MoveKeepsInv(limits, s, process, Reading(token));
    case Crash(process) => DropKeepsInv(limits, s, process);
    case Advance(p, fault, accept, outcome, result) =>
      if p in s.processes {
        assert ProcessOk(s, s.processes[p]);
        match s.processes[p]
        case Reading(token) => ReadingKeepsInv(limits, s, p, token, fault);
        case Checking(record) =>
          DropKeepsInv(limits, s, p);
          MoveKeepsInv(limits, s, p, Claiming(record.token));
        case Claiming(token) => ReadingKeepsInv(limits, s, p, token, fault);
        case Swapping(record) => SwappingKeepsInv(limits, s, p, record, fault);
        case Rereading(token) => ReadingKeepsInv(limits, s, p, token, fault);
        case Running(record) => RunningKeepsInv(limits, s, p, record, outcome, result);
        case Completing(record) => CompletingKeepsInv(limits, s, p, record, fault);
        case Settling(token) => ReadingKeepsInv(limits, s, p, token, fault);
        case Waiting(record) => WaitingKeepsInv(limits, s, p, record, fault, accept);
        case Expiring(record) => ExpiringKeepsInv(limits, s, p, record, fault);
        case ExpiredReading(token) => ReadingKeepsInv(limits, s, p, token, fault);
      }
  }

  lemma {:induction false} RunKeepsInv(limits: Limits, events: seq<Event>)
    ensures Inv(limits, Run(limits, events))
  {
    if events != [] {
      RunKeepsInv(limits, events[..|events| - 1]);
      StepKeepsInv(limits, Run(limits, events[..|events| - 1]), events[|events| - 1]);
    }
  }

  // ----- main results ---------------------------------------------------------------------

  /** At most one provider call per token, over every interleaving; each one runs the prepared
      payload, and only after its row left `prepared` for good. */
  lemma {:induction false} AtMostOneExecution(limits: Limits, events: seq<Event>)
    ensures var s := Run(limits, events);
            && (forall i, j :: 0 <= i < j < |s.executions| ==> s.executions[i].token != s.executions[j].token)
            && (forall i :: 0 <= i < |s.executions| ==> Genuine(s, s.executions[i]))
            && (forall i :: 0 <= i < |s.executions| && s.executions[i].token in s.rows
                  ==> !s.rows[s.executions[i].token].status.Prepared?)
  {
    RunKeepsInv(limits, events);
    var s := Run(limits, events);
    forall i | 0 <= i < |s.executions| && s.executions[i].token in s.rows
      ensures !s.rows[s.executions[i].token].status.Prepared?
    {
      assert RowOk(s, s.executions[i].token, s.rows[s.executions[i].token]);
    }
  }

  /** All terminal results ever returned for a token are equal, also when a waiter's timeout
      races the completion; the status column agrees with the sealed record. */
  lemma {:induction false} TerminalAgreement(limits: Limits, events: seq<Event>)
    ensures var s := Run(limits, events);
            && (forall a, b :: a in s.returned && b in s.returned && a.token == b.token ==>
                  Terminal(a.status) && Terminal(b.status) ==> a == b)
            && (forall a, t :: a in s.returned && Terminal(a.status) && t in s.rows && a.token == t ==>
                  a == ResultOf(s.rows[t].record))
            && (forall t :: t in s.rows ==> s.rows[t].status == s.rows[t].record.status)
  {
    RunKeepsInv(limits, events);
    var s := Run(limits, events);
    forall a, b | a in s.returned && b in s.returned && a.token == b.token && Terminal(a.status) && Terminal(b.status)
      ensures a == b
    {
      assert ResultOk(s, a) && ResultOk(s, b);
    }
    forall a, t | a in s.returned && Terminal(a.status) && t in s.rows && a.token == t
      ensures a == ResultOf(s.rows[t].record)
    {
      assert ResultOk(s, a) && RowOk(s, t, s.rows[t]);
    }
    forall t | t in s.rows ensures s.rows[t].status == s.rows[t].record.status { assert RowOk(s, t, s.rows[t]); }
  }

  /** prepared -> executing -> terminal, and nothing else. */
  predicate MovesTo(a: Status, b: Status) {
    a == b || (a.Prepared? && b.Executing?) || (a.Executing? && Terminal(b))
  }

  ghost predicate Forward(rows: map<int, Row>, next: map<int, Row>) {
    forall t :: t in rows && t in next ==>
      && MovesTo(rows[t].status, next[t].status)
      && next[t].reserved <= rows[t].reserved
      && (rows[t].status == next[t].status ==> rows[t] == next[t])
  }

  lemma {:induction false} UpdateMovesForward(limits: Limits, rows: map<int, Row>, record: Record, expected: Status)
    requires WithinCapacity(limits, rows)
    requires (expected.Prepared? && record.status.Executing?) || (expected.Executing? && Terminal(record.status))
    ensures var updated := UpdateTx(limits, rows, record, expected); updated.Ok? ==> Forward(rows, updated.value)
  {
    UpdateKeepsCapacity(limits, rows, record, expected);
  }

  /** A claim or a terminal record, committed or not. */
  lemma {:induction false} WritingMovesForward(limits: Limits, s: State, p: nat, record: Record, fault: Fault)
    requires WithinCapacity(limits, s.rows)
    ensures record.status.Executing? ==> Forward(s.rows, AdvanceSwapping(limits, s, p, record, fault).rows)
    ensures Terminal(record.status) ==>
              && Forward(s.rows, AdvanceCompleting(limits, s, p, record, fault).rows)
              && Forward(s.rows, AdvanceExpiring(limits, s, p, record, fault).rows)
  {
    if record.status.Executing? { UpdateMovesForward(limits, s.rows, record, Prepared); }
    if Terminal(record.status) { UpdateMovesForward(limits, s.rows, record, Executing); }
  }

  /** Every other step of a process leaves the table alone. */
  lemma {:induction false} ReadingKeepsRows(s: State, p: nat, token: int, fault: Fault)
    ensures AdvanceReading(s, p, token, fault).rows == s.rows
    ensures AdvanceClaiming(s, p, token, fault).rows == s.rows
    ensures AdvanceRereading(s, p, token, fault).rows == s.rows
    ensures AdvanceSettling(s, p, token, fault).rows == s.rows
    ensures AdvanceExpiredReading(s, p, token, fault).rows == s.rows
  {
  }

  lemma {:induction false} WaitingKeepsRows(s: State, p: nat, record: Record, e: Event)
    requires e.Advance?
    ensures AdvanceChecking(s, p, record, e.accept).rows == s.rows
    ensures AdvanceRunning(s, p, record, e.outcome, e.result).rows == s.rows
    ensures AdvanceWaiting(s, p, record, e.fault, e.accept).rows == s.rows
  {
  }

  /** An advancing process leaves the table alone or commits one guarded update. */
  lemma {:induction false} AdvanceMovesForward(limits: Limits, s: State, p: nat, e: Event)
    requires Inv(limits, s) && e.Advance? && p in s.processes
    ensures Forward(s.rows, AdvanceProcess(limits, s, p, e).rows)
  {
    assert ProcessOk(s, s.processes[p]);
    match s.processes[p]
    case Swapping(record) => WritingMovesForward(limits, s, p, record, e.fault);
    case Completing(record) => WritingMovesForward(limits, s, p, record, e.fault);
    case Expiring(record) => WritingMovesForward(limits, s, p, record, e.fault);
    case Checking(record) => WaitingKeepsRows(s, p, record, e);
    case Running(record) => WaitingKeepsRows(s, p, record, e);
    case Waiting(record) => WaitingKeepsRows(s, p, record, e);
    case Reading(token) => ReadingKeepsRows(s, p, token, e.fault);
    case Claiming(token) => ReadingKeepsRows(s, p, token, e.fault);
    case Rereading(token) => ReadingKeepsRows(s, p, token, e.fault);
    case Settling(token) => ReadingKeepsRows(s, p, token, e.fault);
    case ExpiredReading(token) => ReadingKeepsRows(s, p, token, e.fault);
  }

  /** Preparing adds a row under a new token, and purging removes rows. */
  lemma {:induction false} PrepareMovesForward(limits: Limits, s: State, record: Record)
    requires Inv(limits, s)
    ensures Forward(s.rows, Step(limits, s, Prepare(record)).rows)
  {
    assert record.token in s.rows ==> RowOk(s, record.token, s.rows[record.token]);
  }

  lemma {:induction false} StepMovesForward(limits: Limits, s: State, e: Event)
    requires Inv(limits, s)
    ensures Forward(s.rows, Step(limits, s, e).rows)
  {
    match e
    case Prepare(record) => PrepareMovesForward(limits, s, record);
    case Advance(p, _, _, _, _) => if p in s.processes { AdvanceMovesForward(limits, s, p, e); }
    case _ =>
  }

  /** One event moves a row's status forward only, and never enlarges its reservation. */
  lemma {:induction false} StatusMovesForward(limits: Limits, events: seq<Event>, e: Event)
    ensures Forward(Run(limits, events).rows, Step(limits, Run(limits, events), e).rows)
  {
    RunKeepsInv(limits, events);
    StepMovesForward(limits, Run(limits, events), e);
  }

  /** Reservations fit the limit in every reachable state, each sealed record fits its
      reservation, and no update is ever refused for the total limit. */
  lemma {:induction false} CapacityHolds(limits: Limits, events: seq<Event>, record: Record, expected: Status)
    ensures WithinCapacity(limits, Run(limits, events).rows)
    ensures UpdateTx(limits, Run(limits, events).rows, record, expected) != Err(OverLimit)
  {
    RunKeepsInv(limits, events);
    UpdateKeepsCapacity(limits, Run(limits, events).rows, record, expected);
  }
}
