/** A caller that keeps waiting past the timeout gets a terminal result, which is stored, whatever
    became of the process that claimed the operation. */
module ExecutionProgress {
  import opened Wrappers
  import opened OperationTable
  import opened ExecutionProtocol
  import opened ExecutionTimeouts

  // ----- reservations -----------------------------------------------------------------------------

  /** The record of an interrupted execution fits what was reserved for the operation. */
  ghost predicate InterruptionsFit(limits: Limits) {
    forall record: Record, at: int :: record.status.Prepared? ==>
      limits.cipherLength(Interrupted(record, at)) <= 2 * limits.cipherLength(record) + COMPLETION_OVERHEAD
  }

  ghost predicate IssuedOk(s: State) {
    forall t :: t in s.issued ==> s.issued[t].token == t && s.issued[t].status.Prepared?
  }

  /** Until a row is settled it keeps the reservation it was prepared with. */
  ghost predicate RowReserves(limits: Limits, s: State, t: int)
    requires t in s.rows
  {
    !Terminal(s.rows[t].status) ==>
      t in s.issued && s.rows[t].reserved == 2 * limits.cipherLength(s.issued[t]) + COMPLETION_OVERHEAD
  }

  ghost predicate RowsReserve(limits: Limits, s: State) {
    forall t :: t in s.rows ==> RowReserves(limits, s, t)
  }

  /** What a waiter is about to store is the operation as prepared, interrupted. */
  ghost predicate ExpiringOk(s: State, process: Process) {
    process.Expiring? ==>
      && process.record.token in s.issued
      && process.record == Interrupted(s.issued[process.record.token], process.record.executedAt)
  }

  ghost predicate AllExpiringOk(s: State) {
    forall p :: p in s.processes ==> ExpiringOk(s, s.processes[p])
  }

  /** What holds in every reachable state. */
  ghost predicate Healthy(limits: Limits, s: State) {
    Inv(limits, s) && AllTimely(s) && IssuedOk(s) && RowsReserve(limits, s) && AllExpiringOk(s)
  }

  lemma {:induction false} UpdateReserves(limits: Limits, s: State, record: Record, expected: Status)
    requires IssuedOk(s) && RowsReserve(limits, s) && UpdateTx(limits, s.rows, record, expected).Ok?
    requires Terminal(record.status) || (expected.Prepared? && record.status.Executing?)
    ensures RowsReserve(limits, s.(rows := UpdateTx(limits, s.rows, record, expected).value))
  {
    var next := s.(rows := UpdateTx(limits, s.rows, record, expected).value);
    forall t | t in next.rows ensures RowReserves(limits, next, t) { assert RowReserves(limits, s, t); }
  }

  lemma {:induction false} AdvanceReserves(limits: Limits, s: State, p: nat, e: Event)
    requires Healthy(limits, s) && e.Advance? && p in s.processes
    ensures IssuedOk(AdvanceProcess(limits, s, p, e)) && RowsReserve(limits, AdvanceProcess(limits, s, p, e))
  {
    var next, process := AdvanceProcess(limits, s, p, e), s.processes[p];
    AdvanceSettles(limits, s, p, e);
    if Writes(process) {
      assert ProcessOk(s, process);
      WritingStep(limits, s, p, e);
      var expected := if process.Swapping? then Prepared else Executing;
      if UpdateTx(limits, s.rows, process.record, expected).Ok? {
        UpdateReserves(limits, s, process.record, expected);
      }
    } else {
      QuietStep(limits, s, p, e);
    }
    assert next.rows == s.rows ==> RowsReserve(limits, next) by {
      forall t | t in s.rows ensures RowReserves(limits, s, t) { }
    }
  }

  /** Only the waiting loop leads to giving up, with the operation as prepared. */
  lemma {:induction false} WaitingExpires(s: State, p: nat, record: Record, fault: Fault, accept: bool)
    requires IssuedOk(s) && Genuine(s, record)
    ensures var next := AdvanceWaiting(s, p, record, fault, accept);
            p in next.processes ==> ExpiringOk(next, next.processes[p])
  {
    assert Interrupted(record, s.now) == Interrupted(s.issued[record.token], s.now);
  }

  ghost predicate NotExpiring(s: State, p: nat) { p in s.processes ==> !s.processes[p].Expiring? }

  lemma {:induction false} ReadersDoNotExpire(s: State, p: nat, token: int, fault: Fault)
    ensures NotExpiring(AdvanceReading(s, p, token, fault), p) && NotExpiring(AdvanceClaiming(s, p, token, fault), p)
    ensures NotExpiring(AdvanceRereading(s, p, token, fault), p) && NotExpiring(AdvanceSettling(s, p, token, fault), p)
    ensures NotExpiring(AdvanceExpiredReading(s, p, token, fault), p)
  {
  }

  lemma {:induction false} WritersDoNotExpire(limits: Limits, s: State, p: nat, record: Record, e: Event)
    requires e.Advance?
    ensures NotExpiring(AdvanceSwapping(limits, s, p, record, e.fault), p)
    ensures NotExpiring(AdvanceCompleting(limits, s, p, record, e.fault), p)
    ensures NotExpiring(AdvanceExpiring(limits, s, p, record, e.fault), p)
    ensures NotExpiring(AdvanceRunning(s, p, record, e.outcome, e.result), p)
    ensures NotExpiring(AdvanceChecking(s, p, record, e.accept), p)
  {
  }

  lemma {:induction false} OthersDoNotExpire(limits: Limits, s: State, p: nat, e: Event)
    requires e.Advance? && p in s.processes && !s.processes[p].Waiting?
    ensures NotExpiring(AdvanceProcess(limits, s, p, e), p)
  {
    match s.processes[p]
    case Reading(token) => ReadersDoNotExpire(s, p, token, e.fault);
    case Claiming(token) => ReadersDoNotExpire(s, p, token, e.fault);
    case Rereading(token) => ReadersDoNotExpire(s, p, token, e.fault);
    case Settling(token) => ReadersDoNotExpire(s, p, token, e.fault);
    case ExpiredReading(token) => ReadersDoNotExpire(s, p, token, e.fault);
    case Checking(record) => WritersDoNotExpire(limits, s, p, record, e);
    case Swapping(record) => WritersDoNotExpire(limits, s, p, record, e);
    case Running(record) => WritersDoNotExpire(limits, s, p, record, e);
    case Completing(record) => WritersDoNotExpire(limits, s, p, record, e);
    case Expiring(record) => WritersDoNotExpire(limits, s, p, record, e);
  }

  lemma {:induction false} AdvanceExpires(limits: Limits, s: State, p: nat, e: Event)
    requires Healthy(limits, s) && e.Advance? && p in s.processes
    ensures AllExpiringOk(AdvanceProcess(limits, s, p, e))
  {
    var next := AdvanceProcess(limits, s, p, e);
    AdvanceSettles(limits, s, p, e);
    forall q | q in next.processes ensures ExpiringOk(next, next.processes[q]) {
      if q != p {
        assert q in next.processes - {p};
        assert ExpiringOk(s, s.processes[q]);
      } else if s.processes[p].Waiting? {
        assert ProcessOk(s, s.processes[p]);
        WaitingExpires(s, p, s.processes[p].record, e.fault, e.accept);
      } else {
        OthersDoNotExpire(limits, s, p, e);
      }
    }
  }

  lemma {:induction false} PrepareReserves(limits: Limits, s: State, record: Record)
    requires Healthy(limits, s)
    ensures var next := Step(limits, s, Prepare(record));
            IssuedOk(next) && RowsReserve(limits, next) && AllExpiringOk(next)
  {
    var next := Step(limits, s, Prepare(record));
    forall t | t in next.rows ensures RowReserves(limits, next, t) {
      if t in s.rows && next.rows[t] == s.rows[t] {
        assert RowReserves(limits, s, t) && RowOk(s, t, s.rows[t]);
      }
    }
    forall q | q in next.processes ensures ExpiringOk(next, next.processes[q]) {
      assert ExpiringOk(s, s.processes[q]);
    }
  }

  lemma {:induction false} OthersReserve(limits: Limits, s: State, e: Event)
    requires Healthy(limits, s) && (e.Withdraw? || e.Tick? || e.Begin? || e.Crash?)
    ensures var next := Step(limits, s, e); IssuedOk(next) && RowsReserve(limits, next) && AllExpiringOk(next)
  {
    var next := Step(limits, s, e);
    forall t | t in next.rows ensures RowReserves(limits, next, t) { assert RowReserves(limits, s, t); }
    forall q | q in next.processes ensures ExpiringOk(next, next.processes[q]) {
      assert q in s.processes ==> ExpiringOk(s, s.processes[q]);
    }
  }

  lemma {:induction false} StepKeepsHealthy(limits: Limits, s: State, e: Event)
    requires Healthy(limits, s)
    ensures Healthy(limits, Step(limits, s, e))
  {
    StepKeepsInv(limits, s, e);
    StepKeepsTimely(limits, s, e);
    match e
    case Prepare(record) => PrepareReserves(limits, s, record);
    case Advance(p, _, _, _, _) =>
      if p in s.processes {
        AdvanceReserves(limits, s, p, e);
        AdvanceExpires(limits, s, p, e);
      }
    case _ => OthersReserve(limits, s, e);
  }

  lemma {:induction false} RunIsHealthy(limits: Limits, events: seq<Event>)
    ensures Healthy(limits, Run(limits, events))
  {
    if events != [] {
      RunIsHealthy(limits, events[..|events| - 1]);
      StepKeepsHealthy(limits, Run(limits, events[..|events| - 1]), events[|events| - 1]);
    }
  }

  // ----- one caller -------------------------------------------------------------------------------

  /** A process that awaits the result of a claimed operation. */
  ghost predicate Awaits(s: State, p: nat, t: int) {
    && p in s.processes && t in s.claimed && t in s.rows
    && match s.processes[p]
       case Reading(u) => u == t
       case Waiting(record) => record.token == t
       case Expiring(record) => record.token == t
       case ExpiredReading(u) => u == t && Terminal(s.rows[t].status)
       case _ => false
  }

  /** How many turns such a process takes at most, once the operation has timed out. */
  function TurnsLeft(process: Process): nat {
    match process
    case Reading(_) => 4
    case Waiting(record) => if record.status.Executing? then 3 else 1
    case Expiring(_) => 2
    case _ => 1
  }

  /** The step returns a terminal result to the caller, and that result is stored. */
  ghost predicate Answers(s: State, next: State, p: nat, t: int) {
    && p in s.processes && p !in next.processes && t in next.rows && Terminal(next.rows[t].status)
    && next.returned == s.returned + [ResultOf(next.rows[t].record)]
  }

  /** Its own turns meet no fault and its context does not end. */
  predicate Patient(e: Event, p: nat) {
    && e != Crash(p)
    && (e.Advance? && e.process == p ==> e.fault.Clean? && e.accept)
  }

  predicate IsTurn(e: Event, p: nat) { e.Advance? && e.process == p }

  /** A claimed row is executing or settled. */
  lemma {:induction false} ClaimedRow(limits: Limits, s: State, t: int)
    requires Inv(limits, s) && t in s.claimed && t in s.rows
    ensures RowOk(s, t, s.rows[t]) && (s.rows[t].status.Executing? || Terminal(s.rows[t].status))
  {
    assert RowOk(s, t, s.rows[t]);
  }

  /** The interrupted record of an executing row always fits. */
  lemma {:induction false} ExpiringCommits(limits: Limits, s: State, record: Record)
    requires Healthy(limits, s) && InterruptionsFit(limits) && ExpiringOk(s, Expiring(record))
    requires ExecutingRow(s, record.token)
    ensures UpdateTx(limits, s.rows, record, Executing).Ok?
  {
    UpdateKeepsCapacity(limits, s.rows, record, Executing);
    assert RowReserves(limits, s, record.token) && RowOk(s, record.token, s.rows[record.token]);
    assert s.issued[record.token].status.Prepared?;
  }

  // ----- one turn of the caller -------------------------------------------------------------------

  /** Answered, or still waiting with the turn counted once the operation has timed out. */
  ghost predicate Proceeds(s: State, next: State, p: nat, t: int)
    requires p in s.processes
  {
    || Answers(s, next, p, t)
    || (Awaits(next, p, t)
        && (TimedOut(s, t, s.now) ==> TurnsLeft(next.processes[p]) < TurnsLeft(s.processes[p])))
  }

  lemma {:induction false} ReadingProceeds(limits: Limits, s: State, p: nat, t: int)
    requires Healthy(limits, s) && Awaits(s, p, t)
    ensures s.processes[p].Reading? ==> Proceeds(s, AdvanceReading(s, p, t, Clean), p, t)
    ensures s.processes[p].ExpiredReading? ==> Proceeds(s, AdvanceExpiredReading(s, p, t, Clean), p, t)
  {
    ClaimedRow(limits, s, t);
  }

  lemma {:induction false} WaitingProceeds(limits: Limits, s: State, p: nat, record: Record)
    requires Healthy(limits, s) && Awaits(s, p, record.token) && s.processes[p] == Waiting(record)
    ensures Proceeds(s, AdvanceWaiting(s, p, record, Clean, true), p, record.token)
  {
    ClaimedRow(limits, s, record.token);
    assert ProcessOk(s, s.processes[p]) && Timely(s, s.processes[p]);
  }

  lemma {:induction false} ExpiringProceeds(limits: Limits, s: State, p: nat, record: Record)
    requires Healthy(limits, s) && InterruptionsFit(limits)
    requires Awaits(s, p, record.token) && s.processes[p] == Expiring(record)
    ensures Proceeds(s, AdvanceExpiring(limits, s, p, record, Clean), p, record.token)
  {
    ClaimedRow(limits, s, record.token);
    assert ProcessOk(s, s.processes[p]) && ExpiringOk(s, s.processes[p]);
    if ExecutingRow(s, record.token) { ExpiringCommits(limits, s, record); }
  }

  lemma {:induction false} TurnProceeds(limits: Limits, s: State, p: nat, t: int, e: Event)
    requires Healthy(limits, s) && InterruptionsFit(limits) && Awaits(s, p, t)
    requires IsTurn(e, p) && Patient(e, p)
    ensures Proceeds(s, Step(limits, s, e), p, t)
  {
    match s.processes[p]
    case Reading(_) => ReadingProceeds(limits, s, p, t);
    case ExpiredReading(_) => ReadingProceeds(limits, s, p, t);
    case Waiting(record) => WaitingProceeds(limits, s, p, record);
    case Expiring(record) => ExpiringProceeds(limits, s, p, record);
  }

  // ----- what others do ---------------------------------------------------------------------------

  /** Tokens stay claimed, time does not go back, and other processes stay where they are. */
  ghost predicate Leaves(s: State, next: State, p: nat)
    requires p in s.processes
  {
    && s.claimed <= next.claimed && s.now <= next.now
    && p in next.processes && next.processes[p] == s.processes[p]
  }

  lemma {:induction false} OthersLeave(limits: Limits, s: State, p: nat, e: Event)
    requires Healthy(limits, s) && p in s.processes && Patient(e, p) && !IsTurn(e, p)
    ensures Leaves(s, Step(limits, s, e), p)
  {
    match e
    case Advance(q, _, _, _, _) =>
      if q in s.processes {
        AdvanceSettles(limits, s, q, e);
        assert p in s.processes - {q};
        assert (s.processes - {q})[p] == s.processes[p];
      }
    case _ =>
  }

  lemma {:induction false} OthersLeaveAwaiting(limits: Limits, s: State, p: nat, t: int, e: Event)
    requires Healthy(limits, s) && Awaits(s, p, t) && Patient(e, p) && !IsTurn(e, p)
    requires t in Step(limits, s, e).rows
    ensures var next := Step(limits, s, e); Awaits(next, p, t) && next.processes[p] == s.processes[p]
  {
    OthersLeave(limits, s, p, e);
    StepMovesForward(limits, s, e);
  }

  lemma {:induction false} StepSettles(limits: Limits, s: State, e: Event)
    requires Healthy(limits, s)
    ensures RowsSettle(s, Step(limits, s, e)) && s.now <= Step(limits, s, e).now
  {
    match e
    case Advance(p, _, _, _, _) => if p in s.processes { AdvanceSettles(limits, s, p, e); }
    case _ =>
  }

  /** What has timed out stays so. */
  lemma {:induction false} StaysTimedOut(limits: Limits, s: State, t: int, e: Event)
    requires Healthy(limits, s) && t in s.claimed && TimedOut(s, t, s.now)
    ensures TimedOut(Step(limits, s, e), t, Step(limits, s, e).now)
  {
    StepSettles(limits, s, e);
  }

  // ----- any number of events ---------------------------------------------------------------------

  lemma {:induction false} EventProceeds(limits: Limits, s: State, p: nat, t: int, e: Event)
    requires Healthy(limits, s) && InterruptionsFit(limits) && Awaits(s, p, t) && Patient(e, p)
    requires t in Step(limits, s, e).rows
    ensures var next := Step(limits, s, e);
            Answers(s, next, p, t)
            || (Awaits(next, p, t)
                && (TimedOut(s, t, s.now) ==>
                      TimedOut(next, t, next.now)
                      && TurnsLeft(next.processes[p]) + (if IsTurn(e, p) then 1 else 0) <= TurnsLeft(s.processes[p])))
  {
    if IsTurn(e, p) { TurnProceeds(limits, s, p, t, e); } else { OthersLeaveAwaiting(limits, s, p, t, e); }
    if TimedOut(s, t, s.now) { StaysTimedOut(limits, s, t, e); }
  }

  ghost predicate Moves(limits: Limits, states: seq<State>, events: seq<Event>, i: nat)
    requires i < |events| < |states|
  {
    states[i + 1] == Step(limits, states[i], events[i])
  }

  /** The states some events lead through. */
  ghost predicate Trace(limits: Limits, states: seq<State>, events: seq<Event>) {
    |states| == |events| + 1 && forall i: nat :: i < |events| ==> Moves(limits, states, events, i)
  }

  /** No fault meets the caller, and the operation is not purged. */
  ghost predicate Undisturbed(states: seq<State>, events: seq<Event>, p: nat, t: int)
    requires |states| == |events| + 1
  {
    forall n: nat :: n < |events| ==> Patient(events[n], p) && t in states[n + 1].rows
  }

  /** How many events from one place to another are turns of the caller. */
  function Turns(events: seq<Event>, p: nat, from: nat, n: nat): nat
    requires from <= n <= |events|
  {
    if n == from then 0 else Turns(events, p, from, n - 1) + if IsTurn(events[n - 1], p) then 1 else 0
  }

  lemma {:induction false} TurnsAreCounted(events: seq<Event>, p: nat, from: nat, n: nat)
    requires from <= n <= |events|
    ensures Turns(events, p, from, n)
            == |set i | from <= i < n && events[i].Advance? && events[i].process == p|
  {
    if from < n {
      TurnsAreCounted(events, p, from, n - 1);
      var before := set i | from <= i < n - 1 && events[i].Advance? && events[i].process == p;
      var all := set i | from <= i < n && events[i].Advance? && events[i].process == p;
      assert all == if IsTurn(events[n - 1], p) then before + {n - 1} else before;
    }
  }

  /** Event n answers the caller. */
  ghost predicate AnswersAt(states: seq<State>, p: nat, t: int, n: nat)
    requires n + 1 < |states|
  {
    Answers(states[n], states[n + 1], p, t)
  }

  ghost predicate AnsweredBy(states: seq<State>, p: nat, t: int, n: nat)
    requires n < |states|
  {
    exists k: nat :: k < n && AnswersAt(states, p, t, k)
  }

  lemma {:induction false} HealthyNext(limits: Limits, states: seq<State>, events: seq<Event>, n: nat)
    requires Trace(limits, states, events) && n < |events| && Healthy(limits, states[n])
    ensures Healthy(limits, states[n + 1])
  {
    assert Moves(limits, states, events, n);
    StepKeepsHealthy(limits, states[n], events[n]);
  }

  lemma {:induction false} TraceHealthy(limits: Limits, states: seq<State>, events: seq<Event>, n: nat)
    requires Trace(limits, states, events) && n <= |events| && Healthy(limits, states[0])
    ensures Healthy(limits, states[n])
    decreases n
  {
    if n > 0 {
      TraceHealthy(limits, states, events, n - 1);
      HealthyNext(limits, states, events, n - 1);
    }
  }

  lemma {:induction false} AwaitsNext(limits: Limits, states: seq<State>, events: seq<Event>, p: nat, t: int, n: nat)
    requires Trace(limits, states, events) && Undisturbed(states, events, p, t) && InterruptionsFit(limits)
    requires n < |events| && Healthy(limits, states[n]) && Awaits(states[n], p, t)
    ensures AnswersAt(states, p, t, n) || Awaits(states[n + 1], p, t)
  {
    assert Moves(limits, states, events, n);
    EventProceeds(limits, states[n], p, t, events[n]);
  }

  lemma {:induction false} AnsweredOnwards(states: seq<State>, p: nat, t: int, n: nat)
    requires n + 1 < |states| && (AnsweredBy(states, p, t, n) || AnswersAt(states, p, t, n))
    ensures AnsweredBy(states, p, t, n + 1)
  {
    if AnsweredBy(states, p, t, n) {
      var k: nat :| k < n && AnswersAt(states, p, t, k);
    }
  }

  lemma {:induction false} StillAwaits(limits: Limits, states: seq<State>, events: seq<Event>, p: nat, t: int, n: nat)
    requires Trace(limits, states, events) && Undisturbed(states, events, p, t) && InterruptionsFit(limits)
    requires n <= |events| && Healthy(limits, states[0]) && Awaits(states[0], p, t)
    ensures AnsweredBy(states, p, t, n) || Awaits(states[n], p, t)
    decreases n
  {
    if n > 0 {
      StillAwaits(limits, states, events, p, t, n - 1);
      TraceHealthy(limits, states, events, n - 1);
      if Awaits(states[n - 1], p, t) { AwaitsNext(limits, states, events, p, t, n - 1); }
      if !Awaits(states[n], p, t) { AnsweredOnwards(states, p, t, n - 1); }
    }
  }

  /** Waiting for a timed-out operation, with these turns taken of those there are. */
  ghost predicate Counted(s: State, p: nat, t: int, taken: nat, turns: nat) {
    Awaits(s, p, t) && TimedOut(s, t, s.now) && TurnsLeft(s.processes[p]) + taken <= turns
  }

  lemma {:induction false} CountedNext(limits: Limits, states: seq<State>, events: seq<Event>, p: nat, t: int, n: nat,
                                       taken: nat, turns: nat)
    requires Trace(limits, states, events) && Undisturbed(states, events, p, t) && InterruptionsFit(limits)
    requires n < |events| && Healthy(limits, states[n]) && Counted(states[n], p, t, taken, turns)
    ensures AnswersAt(states, p, t, n)
            || Counted(states[n + 1], p, t, taken + if IsTurn(events[n], p) then 1 else 0, turns)
  {
    assert Moves(limits, states, events, n);
    EventProceeds(limits, states[n], p, t, events[n]);
  }

  /** From the timeout on every turn of the caller brings the answer nearer. */
  lemma {:induction false} CountsDown(limits: Limits, states: seq<State>, events: seq<Event>, p: nat, t: int,
                                      from: nat, n: nat)
    requires Trace(limits, states, events) && Undisturbed(states, events, p, t) && InterruptionsFit(limits)
    requires from <= n <= |events| && Healthy(limits, states[0])
    requires Awaits(states[from], p, t) && TimedOut(states[from], t, states[from].now)
    ensures AnsweredBy(states, p, t, n)
            || Counted(states[n], p, t, Turns(events, p, from, n), TurnsLeft(states[from].processes[p]))
    decreases n
  {
    if n > from {
      var turns := TurnsLeft(states[from].processes[p]);
      CountsDown(limits, states, events, p, t, from, n - 1);
      TraceHealthy(limits, states, events, n - 1);
      if Counted(states[n - 1], p, t, Turns(events, p, from, n - 1), turns) {
        CountedNext(limits, states, events, p, t, n - 1, Turns(events, p, from, n - 1), turns);
      }
    }
  }

  lemma {:induction false} AnsweredInTime(limits: Limits, states: seq<State>, events: seq<Event>, p: nat, t: int,
                                          from: nat)
    requires Trace(limits, states, events) && Undisturbed(states, events, p, t) && InterruptionsFit(limits)
    requires from <= |events| && Healthy(limits, states[0]) && Awaits(states[0], p, t)
    requires TimedOut(states[from], t, states[from].now) && Turns(events, p, from, |events|) >= 4
    ensures AnsweredBy(states, p, t, |events|)
  {
    StillAwaits(limits, states, events, p, t, from);
    if Awaits(states[from], p, t) { CountsDown(limits, states, events, p, t, from, |events|); }
  }

  /** Progress. From any reachable state, a call that awaits the result of a claimed operation is
      answered, over any events of other processes, crashes of the claimer among them: once it
      has had four turns after the timeout, some event has returned it a terminal result, which
      is the stored one. Its own turns meet no fault, and the operation is not purged. */
  lemma {:induction false} WaiterIsAnswered(limits: Limits, before: seq<Event>, states: seq<State>, events: seq<Event>,
                                            p: nat, t: int, from: nat)
    requires InterruptionsFit(limits) && Trace(limits, states, events) && states[0] == Run(limits, before)
    requires Awaits(states[0], p, t) && Undisturbed(states, events, p, t)
    requires from <= |events| && TimedOut(states[from], t, states[from].now)
    requires Turns(events, p, from, |events|) >= 4
    ensures AnsweredBy(states, p, t, |events|)
  {
    RunIsHealthy(limits, before);
    AnsweredInTime(limits, states, events, p, t, from);
  }

  /** A turn that meets no fault. */
  function CleanTurn(p: nat): Event { Advance(p, Clean, true, Failed, "") }

  lemma {:induction false} BeginsWaiting(limits: Limits, s: State, p: nat, t: int)
    requires Inv(limits, s) && p !in s.processes && ExecutingRow(s, t)
    ensures var next := Step(limits, Step(limits, s, Begin(p, t)), CleanTurn(p));
            next == Move(s, p, Waiting(s.rows[t].record)) && s.rows[t].record.status.Executing?
  {
    ClaimedRow(limits, s, t);
    assert s.processes[p := Reading(t)][p := Waiting(s.rows[t].record)] == s.processes[p := Waiting(s.rows[t].record)];
  }

  lemma {:induction false} GivesUp(limits: Limits, s: State, p: nat, record: Record)
    requires p in s.processes && s.processes[p] == Waiting(record) && record.status.Executing?
    requires s.now >= record.executedAt + EXECUTION_TIMEOUT
    ensures Step(limits, s, CleanTurn(p)) == Move(s, p, Expiring(Interrupted(record, s.now)))
  {
  }

  lemma {:induction false} Settles(limits: Limits, s: State, p: nat, record: Record)
    requires Healthy(limits, s) && InterruptionsFit(limits)
    requires p in s.processes && s.processes[p] == Expiring(record) && ExecutingRow(s, record.token)
    ensures var next := Step(limits, s, CleanTurn(p));
            && record.token in next.rows && next.rows[record.token].record == record
            && next.returned == s.returned + [ResultOf(record)]
  {
    assert ExpiringOk(s, s.processes[p]);
    ExpiringCommits(limits, s, record);
  }

  /** An operation that is still executing ten minutes after its claim, its claimer gone or not,
      is settled as interrupted by the next call, in three turns. */
  lemma {:induction false} NextCallSettles(limits: Limits, before: seq<Event>, p: nat, t: int)
    requires InterruptionsFit(limits) && p !in Run(limits, before).processes && ExecutingRow(Run(limits, before), t)
    requires var s := Run(limits, before); s.now >= s.rows[t].record.executedAt + 10 * 60
    ensures var s := Run(limits, before);
            var waiting := Step(limits, Step(limits, s, Begin(p, t)), CleanTurn(p));
            var next := Step(limits, Step(limits, waiting, CleanTurn(p)), CleanTurn(p));
            var record := Interrupted(s.rows[t].record, s.now);
            && t in next.rows && next.rows[t].record == record && next.returned == s.returned + [ResultOf(record)]
  {
    var s := Run(limits, before);
    RunIsHealthy(limits, before);
    BeginsWaiting(limits, s, p, t);
    assert RowOk(s, t, s.rows[t]);
    var begun := Step(limits, s, Begin(p, t));
    var waiting := Step(limits, begun, CleanTurn(p));
    GivesUp(limits, waiting, p, s.rows[t].record);
    StepKeepsHealthy(limits, s, Begin(p, t));
    StepKeepsHealthy(limits, begun, CleanTurn(p));
    StepKeepsHealthy(limits, waiting, CleanTurn(p));
    Settles(limits, Step(limits, waiting, CleanTurn(p)), p, Interrupted(s.rows[t].record, s.now));
  }
}
