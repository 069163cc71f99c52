/** When a waiter may declare an execution interrupted. */
module ExecutionTimeouts {
  import opened Wrappers
  import opened OperationTable
  import opened ExecutionProtocol

  predicate ExecutingRow(s: State, token: int) {
    token in s.rows && s.rows[token].status.Executing?
  }

  /** While the row is still executing, the record a waiter holds has the time of its claim. */
  ghost predicate SameClaim(s: State, record: Record) {
    record.status.Executing? && ExecutingRow(s, record.token) ==>
        s.rows[record.token].record.executedAt == record.executedAt
  }

  /** While the row is still executing, its claim is older than the timeout. */
  ghost predicate TimedOut(s: State, token: int, at: int) {
    ExecutingRow(s, token) ==> s.rows[token].record.executedAt + EXECUTION_TIMEOUT <= at
  }

  ghost predicate Timely(s: State, process: Process) {
    match process
    case Waiting(record) => SameClaim(s, record)
    case Expiring(record) => TimedOut(s, record.token, record.executedAt)
    case _ => true
  }

  ghost predicate AllTimely(s: State) {
    forall p :: p in s.processes ==> Timely(s, s.processes[p])
  }

  /** An executing row stays as it is, unless its token was never claimed before. */
  ghost predicate RowsSettle(s: State, next: State) {
    forall t :: ExecutingRow(next, t) ==> t !in s.claimed || (t in s.rows && next.rows[t] == s.rows[t])
  }

  /** What a waiter knows survives any event that lets rows settle. */
  lemma {:induction false} TimelySurvives(s: State, next: State, process: Process)
    requires RowsSettle(s, next) && ProcessOk(s, process) && Timely(s, process)
    ensures Timely(next, process)
  {
  }

  lemma {:induction false} CommitSettles(limits: Limits, s: State, record: Record, expected: Status)
    requires RowsInv(s) && UpdateTx(limits, s.rows, record, expected).Ok?
    requires expected.Prepared? || (expected.Executing? && Terminal(record.status))
    ensures RowsSettle(s, s.(rows := UpdateTx(limits, s.rows, record, expected).value))
  {
    assert RowOk(s, record.token, s.rows[record.token]);
  }

  /** Processes other than this one are where they were, nothing is issued, and no claim is lost. */
  ghost predicate OnlyMoves(s: State, next: State, p: nat) {
    && next.processes - {p} == s.processes - {p}
    && next.issued == s.issued && next.now == s.now && s.claimed <= next.claimed
  }

  /** A step of one process that commits nothing. */
  ghost predicate Quiet(s: State, next: State, p: nat) {
    next.rows == s.rows && next.settled == s.settled && OnlyMoves(s, next, p)
  }

  lemma {:induction false} ReadingQuiet(s: State, p: nat, token: int, fault: Fault)
    ensures Quiet(s, AdvanceReading(s, p, token, fault), p) && Quiet(s, AdvanceClaiming(s, p, token, fault), p)
    ensures Quiet(s, AdvanceRereading(s, p, token, fault), p) && Quiet(s, AdvanceSettling(s, p, token, fault), p)
    ensures Quiet(s, AdvanceExpiredReading(s, p, token, fault), p)
  {
  }

  lemma {:induction false} WaitingQuiet(s: State, p: nat, record: Record, fault: Fault, accept: bool)
    ensures Quiet(s, AdvanceWaiting(s, p, record, fault, accept), p)
    ensures Quiet(s, AdvanceChecking(s, p, record, accept), p)
  {
  }

  lemma {:induction false} RunningQuiet(s: State, p: nat, record: Record, outcome: Status, result: string)
    ensures Quiet(s, AdvanceRunning(s, p, record, outcome, result), p)
  {
  }

  /** A writing step leaves the rows alone or commits its one update. */
  ghost predicate WritesOnce(limits: Limits, s: State, next: State, p: nat, record: Record, expected: Status) {
    var updated := UpdateTx(limits, s.rows, record, expected);
    && OnlyMoves(s, next, p) && (next.rows == s.rows || (updated.Ok? && next.rows == updated.value))
    && (next.settled == s.settled
        || (expected.Executing? && next.settled == s.settled[record.token := ResultOf(record)]))
  }

  lemma {:induction false} ClaimingStep(limits: Limits, s: State, p: nat, record: Record, fault: Fault)
    ensures WritesOnce(limits, s, AdvanceSwapping(limits, s, p, record, fault), p, record, Prepared)
  {
  }

  lemma {:induction false} FinishingSteps(limits: Limits, s: State, p: nat, record: Record, fault: Fault)
    ensures WritesOnce(limits, s, AdvanceCompleting(limits, s, p, record, fault), p, record, Executing)
    ensures WritesOnce(limits, s, AdvanceExpiring(limits, s, p, record, fault), p, record, Executing)
  {
  }

  /** Steps that commit something. */
  predicate Writes(process: Process) { process.Swapping? || process.Completing? || process.Expiring? }

  lemma {:induction false} QuietStep(limits: Limits, s: State, p: nat, e: Event)
    requires e.Advance? && p in s.processes && !Writes(s.processes[p])
    ensures Quiet(s, AdvanceProcess(limits, s, p, e), p)
  {
    match s.processes[p]
    case Reading(token) => ReadingQuiet(s, p, token, e.fault);
    case Claiming(token) => ReadingQuiet(s, p, token, e.fault);
    case Rereading(token) => ReadingQuiet(s, p, token, e.fault);
    case Settling(token) => ReadingQuiet(s, p, token, e.fault);
    case ExpiredReading(token) => ReadingQuiet(s, p, token, e.fault);
    case Waiting(record) => WaitingQuiet(s, p, record, e.fault, e.accept);
    case Checking(record) => WaitingQuiet(s, p, record, e.fault, e.accept);
    case Running(record) => RunningQuiet(s, p, record, e.outcome, e.result);
  }

  lemma {:induction false} WritingStep(limits: Limits, s: State, p: nat, e: Event)
    requires e.Advance? && p in s.processes && Writes(s.processes[p])
    ensures WritesOnce(limits, s, AdvanceProcess(limits, s, p, e), p, s.processes[p].record,
                       if s.processes[p].Swapping? then Prepared else Executing)
  {
    ClaimingStep(limits, s, p, s.processes[p].record, e.fault);
    FinishingSteps(limits, s, p, s.processes[p].record, e.fault);
  }

  /** One process's step lets rows settle and moves nobody else. */
  lemma {:induction false} AdvanceSettles(limits: Limits, s: State, p: nat, e: Event)
    requires Inv(limits, s) && e.Advance? && p in s.processes
    ensures RowsSettle(s, AdvanceProcess(limits, s, p, e)) && OnlyMoves(s, AdvanceProcess(limits, s, p, e), p)
  {
    var process := s.processes[p];
    if Writes(process) {
      var expected := if process.Swapping? then Prepared else Executing;
      assert ProcessOk(s, process);
      WritingStep(limits, s, p, e);
      if UpdateTx(limits, s.rows, process.record, expected).Ok? {
        CommitSettles(limits, s, process.record, expected);
      }
    } else {
      QuietStep(limits, s, p, e);
    }
  }

  /** The waiting loop: it holds the row as it is, and gives up only after the timeout. */
  lemma {:induction false} WaitingTimely(s: State, p: nat, record: Record, fault: Fault, accept: bool)
    requires RowsInv(s) && SameClaim(s, record)
    ensures var next := AdvanceWaiting(s, p, record, fault, accept);
            p in next.processes ==> Timely(next, next.processes[p])
  {
    assert record.token in s.rows ==> RowOk(s, record.token, s.rows[record.token]);
  }

  lemma {:induction false} LookupTimely(s: State, token: int)
    requires RowsInv(s)
    ensures Lookup(s.rows, token).Some? ==> SameClaim(s, Lookup(s.rows, token).value)
  {
    assert token in s.rows ==> RowOk(s, token, s.rows[token]);
  }

  lemma {:induction false} FoundTimely(s: State, p: nat, token: int, fault: Fault)
    requires RowsInv(s)
    ensures var next := AdvanceReading(s, p, token, fault); p in next.processes ==> Timely(next, next.processes[p])
    ensures var next := AdvanceClaiming(s, p, token, fault); p in next.processes ==> Timely(next, next.processes[p])
    ensures var next := AdvanceRereading(s, p, token, fault); p in next.processes ==> Timely(next, next.processes[p])
  {
    LookupTimely(s, token);
  }

  lemma {:induction false} WritingTimely(limits: Limits, s: State, p: nat, record: Record, fault: Fault)
    ensures var next := AdvanceSwapping(limits, s, p, record, fault);
            p in next.processes ==> Timely(next, next.processes[p])
    ensures var next := AdvanceCompleting(limits, s, p, record, fault);
            p in next.processes ==> Timely(next, next.processes[p])
    ensures var next := AdvanceExpiring(limits, s, p, record, fault);
            p in next.processes ==> Timely(next, next.processes[p])
  {
  }

  /** The process that moves is timely where it arrives. */
  lemma {:induction false} MovedTimely(limits: Limits, s: State, p: nat, e: Event)
    requires Inv(limits, s) && AllTimely(s) && e.Advance? && p in s.processes
    ensures var next := AdvanceProcess(limits, s, p, e); p in next.processes ==> Timely(next, next.processes[p])
  {
    match s.processes[p]
    case Reading(token) => FoundTimely(s, p, token, e.fault);
    case Claiming(token) => FoundTimely(s, p, token, e.fault);
    case Rereading(token) => FoundTimely(s, p, token, e.fault);
    case Swapping(record) => WritingTimely(limits, s, p, record, e.fault);
    case Completing(record) => WritingTimely(limits, s, p, record, e.fault);
    case Expiring(record) => WritingTimely(limits, s, p, record, e.fault);
    case Waiting(record) =>
      assert Timely(s, s.processes[p]);
      WaitingTimely(s, p, record, e.fault, e.accept);
    case _ =>
  }

  lemma {:induction false} AdvanceKeepsTimely(limits: Limits, s: State, p: nat, e: Event)
    requires Inv(limits, s) && AllTimely(s) && e.Advance? && p in s.processes
    ensures AllTimely(AdvanceProcess(limits, s, p, e))
  {
    var next := AdvanceProcess(limits, s, p, e);
    AdvanceSettles(limits, s, p, e);
    MovedTimely(limits, s, p, e);
    forall q | q in next.processes && q != p ensures Timely(next, next.processes[q]) {
      assert q in next.processes - {p};
      assert ProcessOk(s, s.processes[q]) && Timely(s, s.processes[q]);
      TimelySurvives(s, next, s.processes[q]);
    }
  }

  lemma {:induction false} StepKeepsTimely(limits: Limits, s: State, e: Event)
    requires Inv(limits, s) && AllTimely(s)
    ensures AllTimely(Step(limits, s, e))
  {
    match e
    case Advance(p, _, _, _, _) => if p in s.processes { AdvanceKeepsTimely(limits, s, p, e); }
    case _ =>
      forall p | p in Step(limits, s, e).processes ensures Timely(Step(limits, s, e), Step(limits, s, e).processes[p]) {
        if p in s.processes && Step(limits, s, e).processes[p] == s.processes[p] {
          assert ProcessOk(s, s.processes[p]) && Timely(s, s.processes[p]);
          TimelySurvives(s, Step(limits, s, e), s.processes[p]);
        }
      }
  }

  lemma {:induction false} RunKeepsTimely(limits: Limits, events: seq<Event>)
    ensures AllTimely(Run(limits, events))
  {
    if events != [] {
      var before := events[..|events| - 1];
      RunKeepsTimely(limits, before);
      RunKeepsInv(limits, before);
      StepKeepsTimely(limits, Run(limits, before), events[|events| - 1]);
    }
  }

  /** No execution is declared interrupted early: in every reachable state a waiter that can
      still settle an operation does so no sooner than ten minutes after its claim. */
  lemma {:induction false} InterruptedOnlyAfterTimeout(limits: Limits, events: seq<Event>, p: nat)
    requires p in Run(limits, events).processes && Run(limits, events).processes[p].Expiring?
    ensures var s := Run(limits, events); var record := s.processes[p].record;
            UpdateTx(limits, s.rows, record, Executing).Ok?
            ==> s.rows[record.token].record.executedAt + 10 * 60 <= record.executedAt
  {
    RunKeepsTimely(limits, events);
    assert Timely(Run(limits, events), Run(limits, events).processes[p]);
  }
}
