/** What is stored and returned is what the provider answered: one clean call from prepared to
    settled, and the origin of every settled result in any run. */
module ExecutionOutcome {
  import opened Wrappers
  import opened OperationTable
  import opened ExecutionProtocol
  import opened ExecutionTimeouts
  import opened ExecutionProgress

  // ----- one clean call ---------------------------------------------------------------------------

  /** A turn that meets no fault and no refusal, during which the provider answers this. */
  function Turn(p: nat, outcome: Status, result: string): Event { Advance(p, Clean, true, outcome, result) }

  /** A call and its next turns, with nothing else between. */
  function CallState(limits: Limits, s: State, p: nat, t: int, outcome: Status, result: string, turns: nat): State {
    if turns == 0 then Step(limits, s, Begin(p, t))
    else Step(limits, CallState(limits, s, p, t, outcome, result, turns - 1), Turn(p, outcome, result))
  }

  /** The executing and the completed record both fit what was reserved. */
  ghost predicate RecordsFit(limits: Limits, row: Row, now: int, outcome: Status, result: string) {
    var executing := row.record.(status := Executing, executedAt := now);
    && limits.cipherLength(executing) <= row.reserved
    && limits.cipherLength(executing.(status := outcome, result := result)) <= row.reserved
  }

  lemma {:induction false} Checks(limits: Limits, s: State, p: nat, t: int, outcome: Status, result: string)
    requires Inv(limits, s) && p !in s.processes && t in s.rows && s.rows[t].status.Prepared?
    ensures var next := CallState(limits, s, p, t, outcome, result, 1);
            next == Move(s, p, Checking(s.rows[t].record)) && s.rows[t].record.token == t
  {
    assert RowOk(s, t, s.rows[t]);
    assert CallState(limits, s, p, t, outcome, result, 0) == Move(s, p, Reading(t));
    assert s.processes[p := Reading(t)][p := Checking(s.rows[t].record)]
           == s.processes[p := Checking(s.rows[t].record)];
  }

  lemma {:induction false} Swaps(limits: Limits, s: State, p: nat, t: int, outcome: Status, result: string)
    requires Inv(limits, s) && p !in s.processes && t in s.rows && s.rows[t].status.Prepared?
    requires s.now < s.rows[t].record.expiresAt
    ensures CallState(limits, s, p, t, outcome, result, 3)
            == Move(s, p, Swapping(s.rows[t].record.(status := Executing, executedAt := s.now)))
  {
    var record := s.rows[t].record;
    Checks(limits, s, p, t, outcome, result);
    assert RowOk(s, t, s.rows[t]);
    var claiming := CallState(limits, s, p, t, outcome, result, 2);
    assert s.processes[p := Checking(record)][p := Claiming(t)] == s.processes[p := Claiming(t)];
    assert claiming == Move(s, p, Claiming(t));
    assert s.processes[p := Claiming(t)][p := Swapping(record.(status := Executing, executedAt := s.now))]
           == s.processes[p := Swapping(record.(status := Executing, executedAt := s.now))];
  }

  /** Everything of a state but the caller's place. */
  ghost predicate SameBut(s: State, next: State, p: nat, process: Process, rows: map<int, Row>) {
    && next.rows == rows && next.now == s.now && next.processes == s.processes[p := process]
    && next.executions == s.executions && next.returned == s.returned
  }

  lemma {:induction false} Claims(limits: Limits, s: State, p: nat, record: Record, turn: Event)
    requires Inv(limits, s) && record.token in s.rows && s.rows[record.token].status.Prepared?
    requires limits.cipherLength(record) <= s.rows[record.token].reserved && record.status.Executing?
    requires p in s.processes && s.processes[p] == Swapping(record)
    requires turn.Advance? && turn.process == p && turn.fault.Clean?
    ensures var size := limits.cipherLength(record);
            var row := s.rows[record.token].(status := Executing, record := record, size := size);
            SameBut(s, Step(limits, s, turn), p, Running(record), s.rows[record.token := row])
  {
    UpdateKeepsCapacity(limits, s.rows, record, Prepared);
  }

  lemma {:induction false} Completes(limits: Limits, s: State, p: nat, record: Record, turn: Event)
    requires Inv(limits, s) && record.token in s.rows && s.rows[record.token].status.Executing?
    requires limits.cipherLength(record) <= s.rows[record.token].reserved && Terminal(record.status)
    requires p in s.processes && s.processes[p] == Completing(record)
    requires turn.Advance? && turn.process == p && turn.fault.Clean?
    ensures var next := Step(limits, s, turn);
            var size := limits.cipherLength(record);
            var expiresAt := s.rows[record.token].expiresAt;
            && next.rows == s.rows[record.token := Row(record.status, expiresAt, record, size, size)]
            && p !in next.processes && next.executions == s.executions
            && next.returned
               == s.returned + [OperationResult(record.token, record.status, record.executedAt, record.result)]
  {
    UpdateKeepsCapacity(limits, s.rows, record, Executing);
  }

  /** The provider call runs once, with the prepared record, and its answer is the record to store. */
  lemma {:induction false} Runs(limits: Limits, s: State, p: nat, record: Record, turn: Event)
    requires p in s.processes && s.processes[p] == Running(record)
    requires turn.Advance? && turn.process == p && Terminal(turn.outcome)
    ensures var next := Step(limits, s, turn);
            && next.rows == s.rows && next.now == s.now && next.returned == s.returned
            && next.executions == s.executions + [record]
            && next.processes == s.processes[p := Completing(record.(status := turn.outcome, executedAt := s.now,
                                                                     result := turn.result))]
  {
  }

  lemma {:induction false} CallKeepsInv(limits: Limits, s: State, p: nat, t: int, outcome: Status, result: string,
                                        turns: nat)
    requires Inv(limits, s)
    ensures Inv(limits, CallState(limits, s, p, t, outcome, result, turns))
  {
    if turns == 0 {
      StepKeepsInv(limits, s, Begin(p, t));
    } else {
      CallKeepsInv(limits, s, p, t, outcome, result, turns - 1);
      StepKeepsInv(limits, CallState(limits, s, p, t, outcome, result, turns - 1), Turn(p, outcome, result));
    }
  }

  /** The row after a call that ended like this. */
  ghost predicate Settled(s: State, next: State, t: int, outcome: Status, result: string)
    requires t in s.rows
  {
    && t in next.rows && next.rows[t].status == outcome
    && next.rows[t].record == s.rows[t].record.(status := outcome, executedAt := s.now, result := result)
    && next.rows.Keys == s.rows.Keys && forall u :: u in s.rows && u != t ==> next.rows[u] == s.rows[u]
  }

  lemma {:induction false} CallClaims(limits: Limits, s: State, p: nat, t: int, outcome: Status, result: string)
    requires Inv(limits, s) && p !in s.processes && t in s.rows && s.rows[t].status.Prepared?
    requires s.now < s.rows[t].record.expiresAt && RecordsFit(limits, s.rows[t], s.now, outcome, result)
    ensures var record := s.rows[t].record.(status := Executing, executedAt := s.now);
            var row := s.rows[t].(status := Executing, record := record, size := limits.cipherLength(record));
            SameBut(s, CallState(limits, s, p, t, outcome, result, 4), p, Running(record), s.rows[t := row])
  {
    var record := s.rows[t].record.(status := Executing, executedAt := s.now);
    assert RowOk(s, t, s.rows[t]);
    Swaps(limits, s, p, t, outcome, result);
    var swapping := CallState(limits, s, p, t, outcome, result, 3);
    CallKeepsInv(limits, s, p, t, outcome, result, 3);
    Claims(limits, swapping, p, record, Turn(p, outcome, result));
    assert swapping.processes[p := Running(record)] == s.processes[p := Running(record)];
  }

  lemma {:induction false} CallRuns(limits: Limits, s: State, p: nat, t: int, outcome: Status, result: string)
    requires Inv(limits, s) && p !in s.processes && t in s.rows && s.rows[t].status.Prepared? && Terminal(outcome)
    requires s.now < s.rows[t].record.expiresAt && RecordsFit(limits, s.rows[t], s.now, outcome, result)
    ensures var record := s.rows[t].record.(status := Executing, executedAt := s.now);
            var row := s.rows[t].(status := Executing, record := record, size := limits.cipherLength(record));
            var next := CallState(limits, s, p, t, outcome, result, 5);
            && next.rows == s.rows[t := row] && next.now == s.now && next.returned == s.returned
            && next.executions == s.executions + [record]
            && p in next.processes && next.processes[p] == Completing(record.(status := outcome, result := result))
  {
    var record := s.rows[t].record.(status := Executing, executedAt := s.now);
    CallClaims(limits, s, p, t, outcome, result);
    Runs(limits, CallState(limits, s, p, t, outcome, result, 4), p, record, Turn(p, outcome, result));
  }

  lemma {:induction false} CallSettles(limits: Limits, s: State, p: nat, t: int, outcome: Status, result: string)
    requires Inv(limits, s) && p !in s.processes && t in s.rows && s.rows[t].status.Prepared? && Terminal(outcome)
    requires s.now < s.rows[t].record.expiresAt && RecordsFit(limits, s.rows[t], s.now, outcome, result)
    ensures var next := CallState(limits, s, p, t, outcome, result, 6);
            && Settled(s, next, t, outcome, result) && p !in next.processes
            && next.executions == s.executions + [s.rows[t].record.(status := Executing, executedAt := s.now)]
            && next.returned == s.returned + [OperationResult(t, outcome, s.now, result)]
  {
    assert RowOk(s, t, s.rows[t]);
    CallRuns(limits, s, p, t, outcome, result);
    CallKeepsInv(limits, s, p, t, outcome, result, 5);
    Completes(limits, CallState(limits, s, p, t, outcome, result, 5), p,
              s.rows[t].record.(status := outcome, executedAt := s.now, result := result), Turn(p, outcome, result));
  }

  /** The events of a call that runs alone, faces no fault and no refusal, and whose provider
      answers this. */
  function Call(p: nat, t: int, outcome: Status, result: string, turns: nat): seq<Event> {
    if turns == 0 then [Begin(p, t)] else Call(p, t, outcome, result, turns - 1) + [Turn(p, outcome, result)]
  }

  lemma {:induction false} RunNext(limits: Limits, before: seq<Event>, e: Event)
    ensures Run(limits, before + [e]) == Step(limits, Run(limits, before), e)
  {
    assert (before + [e])[..|before|] == before;
  }

  lemma {:induction false} TurnNext(limits: Limits, events: seq<Event>, s: State, p: nat, t: int, outcome: Status,
                                    result: string, turns: nat)
    requires turns > 0 && Run(limits, events) == CallState(limits, s, p, t, outcome, result, turns - 1)
    ensures Run(limits, events + [Turn(p, outcome, result)]) == CallState(limits, s, p, t, outcome, result, turns)
  {
    RunNext(limits, events, Turn(p, outcome, result));
  }

  lemma {:induction false} BeginNext(limits: Limits, before: seq<Event>, p: nat, t: int, outcome: Status,
                                     result: string)
    ensures Run(limits, before + [Begin(p, t)]) == CallState(limits, Run(limits, before), p, t, outcome, result, 0)
  {
    RunNext(limits, before, Begin(p, t));
  }

  lemma {:induction false} CallGrows(before: seq<Event>, p: nat, t: int, outcome: Status, result: string, turns: nat)
    requires turns > 0
    ensures before + Call(p, t, outcome, result, turns)
            == before + Call(p, t, outcome, result, turns - 1) + [Turn(p, outcome, result)]
  {
    Assoc(before, Call(p, t, outcome, result, turns - 1), [Turn(p, outcome, result)]);
  }

  /** A run that leads to this state leads on to the states of the call. */
  lemma {:induction false} CallIsRun(limits: Limits, before: seq<Event>, s: State, p: nat, t: int, outcome: Status,
                                     result: string, turns: nat)
    requires Run(limits, before + [Begin(p, t)]) == CallState(limits, s, p, t, outcome, result, 0)
    ensures Run(limits, before + Call(p, t, outcome, result, turns))
            == CallState(limits, s, p, t, outcome, result, turns)
  {
    if turns > 0 {
      var events := before + Call(p, t, outcome, result, turns - 1);
      CallGrows(before, p, t, outcome, result, turns);
      assert Run(limits, events) == CallState(limits, s, p, t, outcome, result, turns - 1) by {
        CallIsRun(limits, before, s, p, t, outcome, result, turns - 1);
      }
      TurnNext(limits, events, s, p, t, outcome, result, turns);
    }
  }

  /** From every reachable state: a call on a prepared operation that has not expired, accepted,
      alone and without faults, calls the provider once, stores its answer and returns it. */
  lemma {:induction false} AnswerIsStoredAndReturned(limits: Limits, before: seq<Event>, p: nat, t: int,
                                                     outcome: Status, result: string)
    requires var s := Run(limits, before);
             && p !in s.processes && t in s.rows && s.rows[t].status.Prepared?
             && s.now < s.rows[t].record.expiresAt && RecordsFit(limits, s.rows[t], s.now, outcome, result)
    requires Terminal(outcome)
    ensures var s, next := Run(limits, before), Run(limits, before + Call(p, t, outcome, result, 6));
            && Settled(s, next, t, outcome, result) && p !in next.processes
            && next.executions == s.executions + [s.rows[t].record.(status := Executing, executedAt := s.now)]
            && next.returned == s.returned + [OperationResult(t, outcome, s.now, result)]
  {
    RunKeepsInv(limits, before);
    CallSettles(limits, Run(limits, before), p, t, outcome, result);
    BeginNext(limits, before, p, t, outcome, result);
    CallIsRun(limits, before, Run(limits, before), p, t, outcome, result, 6);
  }

  /** An operation prepared as the first of all, if there is room, is there to be called. */
  lemma {:induction false} PreparedIsThere(limits: Limits, record: Record, elapsed: nat)
    requires record.status.Prepared? && 2 * limits.cipherLength(record) + 4 * 1024 <= limits.maxBytes
    ensures var s := Run(limits, [Prepare(record), Tick(elapsed)]);
            && s.rows.Keys == {record.token} && s.rows[record.token].record == record
            && s.rows[record.token].status.Prepared? && s.processes == map[] && s.executions == []
            && s.returned == [] && s.now == Run(limits, []).now + elapsed
  {
    var first := Run(limits, []);
    assert [] + [Prepare(record)] == [Prepare(record)];
    RunNext(limits, [], Prepare(record));
    RunNext(limits, [Prepare(record)], Tick(elapsed));
    assert [Prepare(record)] + [Tick(elapsed)] == [Prepare(record), Tick(elapsed)];
    PutExactly(limits, first.rows, record, first.now);
  }

  /** A call on an operation that has expired, or is refused, runs nothing and changes no row. */
  lemma {:induction false} ExpiredOrRefusedIsNotRun(limits: Limits, before: seq<Event>, p: nat, t: int, turn: Event)
    requires var s := Run(limits, before); p !in s.processes && t in s.rows && s.rows[t].status.Prepared?
    requires turn.Advance? && turn.process == p
    requires var s := Run(limits, before); s.now >= s.rows[t].record.expiresAt || !turn.accept
    ensures var s := Run(limits, before);
            var next := Run(limits, before + Call(p, t, turn.outcome, turn.result, 1) + [turn]);
            && next.rows == s.rows && next.executions == s.executions && next.returned == s.returned
            && p !in next.processes
  {
    RunKeepsInv(limits, before);
    Checks(limits, Run(limits, before), p, t, turn.outcome, turn.result);
    BeginNext(limits, before, p, t, turn.outcome, turn.result);
    CallIsRun(limits, before, Run(limits, before), p, t, turn.outcome, turn.result, 1);
    RunNext(limits, before + Call(p, t, turn.outcome, turn.result, 1), turn);
  }

  // ----- calls that come late ---------------------------------------------------------------------

  /** A process that is about to read the operation again. */
  ghost predicate AboutToRead(process: Process, t: int) {
    process in {Reading(t), Claiming(t), Rereading(t)}
  }

  /** This process has returned the stored result; nothing else has changed. */
  ghost predicate ReturnsStored(s: State, next: State, q: nat, t: int)
    requires t in s.rows
  {
    var record := s.rows[t].record;
    next == s.(processes := s.processes - {q},
               returned := s.returned + [OperationResult(t, s.rows[t].status, record.executedAt, record.result)])
  }

  /** A settled operation is answered at once, from what is stored, and runs no more. */
  lemma {:induction false} SettledIsReturned(limits: Limits, before: seq<Event>, q: nat, t: int, turn: Event)
    requires var s := Run(limits, before);
             && t in s.rows && Terminal(s.rows[t].status) && q in s.processes
             && (AboutToRead(s.processes[q], t) || s.processes[q] in {Settling(t), ExpiredReading(t)})
    requires turn.Advance? && turn.process == q && turn.fault.Clean?
    ensures var s := Run(limits, before); ReturnsStored(s, Step(limits, s, turn), q, t)
  {
    RunKeepsInv(limits, before);
    var s := Run(limits, before);
    assert RowOk(s, t, s.rows[t]);
  }

  /** A call that finds the operation executing waits for it and changes nothing. */
  lemma {:induction false} ExecutingIsWaitedFor(limits: Limits, before: seq<Event>, q: nat, t: int, turn: Event)
    requires var s := Run(limits, before);
             && t in s.rows && s.rows[t].status.Executing? && q in s.processes && AboutToRead(s.processes[q], t)
    requires turn.Advance? && turn.process == q && turn.fault.Clean?
    ensures var s := Run(limits, before);
            Step(limits, s, turn) == s.(processes := s.processes[q := Waiting(s.rows[t].record)])
  {
    RunKeepsInv(limits, before);
    var s := Run(limits, before);
    assert RowOk(s, t, s.rows[t]);
  }

  /** A waiter whose operation is settled in time returns what is stored on its second turn. */
  lemma {:induction false} WaiterReturnsStored(limits: Limits, before: seq<Event>, q: nat, record: Record,
                                               turn: Event)
    requires var s := Run(limits, before);
             && q in s.processes && s.processes[q] == Waiting(record) && record.status.Executing?
             && s.now < record.executedAt + 10 * 60
             && record.token in s.rows && Terminal(s.rows[record.token].status)
    requires turn.Advance? && turn.process == q && turn.fault.Clean? && turn.accept
    ensures var s := Run(limits, before);
            ReturnsStored(s, Step(limits, Step(limits, s, turn), turn), q, record.token)
  {
    RunKeepsInv(limits, before);
    var s := Run(limits, before);
    var row := s.rows[record.token];
    assert RowOk(s, record.token, row);
    var read := Step(limits, s, turn);
    assert read == s.(processes := s.processes[q := Waiting(row.record)]);
    assert s.processes[q := Waiting(row.record)] - {q} == s.processes - {q};
  }

  /** One that gives up waiting is told that the operation is executing. */
  lemma {:induction false} ImpatientIsTold(limits: Limits, s: State, q: nat, record: Record, turn: Event)
    requires q in s.processes && s.processes[q] == Waiting(record) && record.status.Executing?
    requires s.now < record.executedAt + 10 * 60
    requires turn.Advance? && turn.process == q && !turn.accept
    ensures Step(limits, s, turn)
            == s.(processes := s.processes - {q},
                  returned := s.returned + [OperationResult(record.token, Executing, record.executedAt,
                                                            record.result)])
  {
  }

  /** A claim that lost its race reads the operation again; one whose record no longer fits what
      is reserved fails. */
  lemma {:induction false} LostClaimReadsAgain(limits: Limits, before: seq<Event>, q: nat, record: Record, turn: Event)
    requires var s := Run(limits, before);
             && q in s.processes && s.processes[q] == Swapping(record)
             && record.token in s.rows && !s.rows[record.token].status.Prepared?
    requires turn.Advance? && turn.process == q && turn.fault.Clean?
    ensures var s := Run(limits, before);
            Step(limits, s, turn)
            == s.(processes := if limits.cipherLength(record) <= s.rows[record.token].reserved
                               then s.processes[q := Rereading(record.token)] else s.processes - {q})
  {
    RunKeepsInv(limits, before);
    UpdateKeepsCapacity(limits, Run(limits, before).rows, record, Prepared);
  }

  /** A claim that fails, or is not acknowledged, ends the call before the provider is called; what
      it may have left executing is for a later call to settle. */
  lemma {:induction false} FaultyClaimStops(limits: Limits, s: State, q: nat, record: Record, turn: Event)
    requires Inv(limits, s) && q in s.processes && s.processes[q] == Swapping(record)
    requires record.token in s.rows && s.rows[record.token].status.Prepared?
    requires limits.cipherLength(record) <= s.rows[record.token].reserved
    requires turn.Advance? && turn.process == q && !turn.fault.Clean?
    ensures var next := Step(limits, s, turn);
            && next.processes == s.processes - {q} && next.executions == s.executions
            && next.returned == s.returned
            && (turn.fault.Failing? ==> next.rows == s.rows)
            && (turn.fault.Unacknowledged? ==> next.rows[record.token].record == record)
  {
    UpdateKeepsCapacity(limits, s.rows, record, Prepared);
  }

  /** A failed or unacknowledged record of the timeout is not returned before it is read. */
  lemma {:induction false} FaultyTimeoutIsReadBack(limits: Limits, s: State, q: nat, record: Record, turn: Event)
    requires q in s.processes && s.processes[q] == Expiring(record)
    requires turn.Advance? && turn.process == q && !turn.fault.Clean?
    ensures var next := Step(limits, s, turn);
            && next.processes == s.processes[q := ExpiredReading(record.token)] && next.returned == s.returned
            && next.executions == s.executions
  {
  }

  lemma {:induction false} AnswerIsStored(limits: Limits, s: State, p: nat, record: Record, lost: Event)
    requires Inv(limits, s) && p in s.processes && s.processes[p] == Completing(record)
    requires record.token in s.rows && s.rows[record.token].status.Executing?
    requires limits.cipherLength(record) <= s.rows[record.token].reserved
    requires lost.Advance? && lost.process == p && lost.fault.Unacknowledged?
    ensures var stored := Step(limits, s, lost);
            && stored.processes == s.processes[p := Settling(record.token)] && stored.returned == s.returned
            && record.token in stored.rows && stored.rows[record.token].record == record
            && stored.rows[record.token].status == record.status
  {
    UpdateKeepsCapacity(limits, s.rows, record, Executing);
  }

  /** The answer is stored even if the commit's response is lost: the caller then reads it back. */
  lemma {:induction false} LostResponseIsReadBack(limits: Limits, before: seq<Event>, p: nat, record: Record,
                                                  lost: Event, turn: Event)
    requires var s := Run(limits, before);
             && p in s.processes && s.processes[p] == Completing(record)
             && record.token in s.rows && s.rows[record.token].status.Executing?
             && limits.cipherLength(record) <= s.rows[record.token].reserved
    requires lost.Advance? && lost.process == p && lost.fault.Unacknowledged?
    requires turn.Advance? && turn.process == p && turn.fault.Clean?
    ensures var s, stored := Run(limits, before), Run(limits, before + [lost]);
            && stored.returned == s.returned
            && record.token in stored.rows && stored.rows[record.token].record == record
            && stored.rows[record.token].status == record.status
            && ReturnsStored(stored, Run(limits, before + [lost] + [turn]), p, record.token)
  {
    RunKeepsInv(limits, before);
    var s := Run(limits, before);
    assert ProcessOk(s, Completing(record));
    AnswerIsStored(limits, s, p, record, lost);
    RunNext(limits, before, lost);
    RunNext(limits, before + [lost], turn);
    SettledIsReturned(limits, before + [lost], p, record.token, turn);
  }

  // ----- where settled results come from ----------------------------------------------------------

  /** Event k is the provider call for a token, and its answer is this; an answer that is not
      terminal counts as a failure. */
  ghost predicate Answered(limits: Limits, events: seq<Event>, k: nat, r: OperationResult)
    requires k < |events|
  {
    var s, e := Run(limits, events[..k]), events[k];
    && e.Advance? && e.process in s.processes && s.processes[e.process].Running?
    && r.token == s.processes[e.process].record.token && r.executedAt == s.now && r.result == e.result
    && r.status == if Terminal(e.outcome) then e.outcome else Failed
  }

  ghost predicate FromProvider(limits: Limits, events: seq<Event>, r: OperationResult) {
    exists k: nat :: k < |events| && Answered(limits, events, k, r)
  }

  predicate SaysInterrupted(r: OperationResult) {
    r.status == Uncertain && r.result == "execution was interrupted"
  }

  ghost predicate ProcessFrom(limits: Limits, events: seq<Event>, process: Process) {
    match process
    case Completing(record) => FromProvider(limits, events, ResultOf(record))
    case Expiring(record) => SaysInterrupted(ResultOf(record))
    case _ => true
  }

  ghost predicate ResultFrom(limits: Limits, events: seq<Event>, r: OperationResult) {
    FromProvider(limits, events, r) || SaysInterrupted(r)
  }

  ghost predicate Origins(limits: Limits, events: seq<Event>, s: State) {
    && (forall p :: p in s.processes ==> ProcessFrom(limits, events, s.processes[p]))
    && (forall t :: t in s.settled ==> s.settled[t].token == t && ResultFrom(limits, events, s.settled[t]))
  }

  lemma {:induction false} StillFromProvider(limits: Limits, events: seq<Event>, e: Event, r: OperationResult)
    requires FromProvider(limits, events, r)
    ensures FromProvider(limits, events + [e], r)
  {
    var k: nat :| k < |events| && Answered(limits, events, k, r);
    assert (events + [e])[..k] == events[..k] && (events + [e])[k] == events[k];
    assert Answered(limits, events + [e], k, r);
  }

  lemma {:induction false} StillFrom(limits: Limits, events: seq<Event>, e: Event)
    ensures forall process :: ProcessFrom(limits, events, process) ==> ProcessFrom(limits, events + [e], process)
    ensures forall r :: ResultFrom(limits, events, r) ==> ResultFrom(limits, events + [e], r)
  {
    forall r | FromProvider(limits, events, r) ensures FromProvider(limits, events + [e], r) {
      StillFromProvider(limits, events, e, r);
    }
  }

  /** What a step does to the settled results: nothing, or it adds the record of the process. */
  ghost predicate SettlesOwn(s: State, next: State, p: nat) {
    next.settled == s.settled
    || (p in s.processes && (s.processes[p].Completing? || s.processes[p].Expiring?)
        && next.settled == s.settled[s.processes[p].record.token := ResultOf(s.processes[p].record)])
  }

  lemma {:induction false} AdvanceSettlesOwn(limits: Limits, s: State, p: nat, e: Event)
    requires e.Advance? && e.process == p && p in s.processes
    ensures SettlesOwn(s, Step(limits, s, e), p)
    ensures OnlyMoves(s, Step(limits, s, e), p)
  {
    if Writes(s.processes[p]) { WritingStep(limits, s, p, e); } else { QuietStep(limits, s, p, e); }
  }

  lemma {:induction false} OthersSettleNothing(limits: Limits, s: State, e: Event)
    requires !e.Advance? || e.process !in s.processes
    ensures Step(limits, s, e).settled == s.settled
    ensures forall q :: q in Step(limits, s, e).processes ==>
              (q in s.processes && Step(limits, s, e).processes[q] == s.processes[q])
              || Step(limits, s, e).processes[q].Reading?
  {
  }

  ghost predicate NotCompleting(s: State, p: nat) { p in s.processes ==> !s.processes[p].Completing? }

  lemma {:induction false} ReadersDoNotComplete(s: State, p: nat, token: int, fault: Fault)
    ensures NotCompleting(AdvanceReading(s, p, token, fault), p)
    ensures NotCompleting(AdvanceClaiming(s, p, token, fault), p)
    ensures NotCompleting(AdvanceRereading(s, p, token, fault), p)
    ensures NotCompleting(AdvanceSettling(s, p, token, fault), p)
    ensures NotCompleting(AdvanceExpiredReading(s, p, token, fault), p)
  {
  }

  lemma {:induction false} WritersDoNotComplete(limits: Limits, s: State, p: nat, record: Record, e: Event)
    requires e.Advance?
    ensures NotCompleting(AdvanceSwapping(limits, s, p, record, e.fault), p)
    ensures NotCompleting(AdvanceCompleting(limits, s, p, record, e.fault), p)
    ensures NotCompleting(AdvanceExpiring(limits, s, p, record, e.fault), p)
  {
  }

  lemma {:induction false} WaitersDoNotComplete(s: State, p: nat, record: Record, e: Event)
    requires e.Advance?
    ensures NotCompleting(AdvanceChecking(s, p, record, e.accept), p)
    ensures NotCompleting(AdvanceWaiting(s, p, record, e.fault, e.accept), p)
  {
  }

  lemma {:induction false} OnlyRunningCompletes(limits: Limits, s: State, p: nat, e: Event)
    requires e.Advance? && p in s.processes && !s.processes[p].Running?
    ensures NotCompleting(AdvanceProcess(limits, s, p, e), p)
  {
    match s.processes[p]
    case Reading(token) => ReadersDoNotComplete(s, p, token, e.fault);
    case Claiming(token) => ReadersDoNotComplete(s, p, token, e.fault);
    case Rereading(token) => ReadersDoNotComplete(s, p, token, e.fault);
    case Settling(token) => ReadersDoNotComplete(s, p, token, e.fault);
    case ExpiredReading(token) => ReadersDoNotComplete(s, p, token, e.fault);
    case Checking(record) => WaitersDoNotComplete(s, p, record, e);
    case Swapping(record) => WritersDoNotComplete(limits, s, p, record, e);
    case Completing(record) => WritersDoNotComplete(limits, s, p, record, e);
    case Expiring(record) => WritersDoNotComplete(limits, s, p, record, e);
    case Waiting(record) => WaitersDoNotComplete(s, p, record, e);
  }

  /** A provider call is the only way to a record of its answer. */
  lemma {:induction false} RunningAnswers(limits: Limits, events: seq<Event>, e: Event)
    requires e.Advance? && e.process in Run(limits, events).processes
    requires Run(limits, events).processes[e.process].Running?
    ensures var next := Step(limits, Run(limits, events), e);
            e.process in next.processes ==> ProcessFrom(limits, events + [e], next.processes[e.process])
  {
    var all, next := events + [e], Step(limits, Run(limits, events), e);
    assert all[..|events|] == events && all[|events|] == e;
    if e.process in next.processes && next.processes[e.process].Completing? {
      assert Answered(limits, all, |events|, ResultOf(next.processes[e.process].record));
    }
  }

  lemma {:induction false} ExpiringSays(limits: Limits, s: State, p: nat)
    requires Healthy(limits, s) && p in s.processes && s.processes[p].Expiring?
    ensures SaysInterrupted(ResultOf(s.processes[p].record))
  {
    assert ExpiringOk(s, s.processes[p]);
  }

  /** The process that moves: what it is about to store comes from its provider, or says it was
      interrupted. */
  lemma {:induction false} MovedFrom(limits: Limits, events: seq<Event>, e: Event)
    requires e.Advance? && e.process in Run(limits, events).processes
    requires Healthy(limits, Step(limits, Run(limits, events), e))
    ensures var next := Step(limits, Run(limits, events), e);
            e.process in next.processes ==> ProcessFrom(limits, events + [e], next.processes[e.process])
  {
    var s := Run(limits, events);
    var next := Step(limits, s, e);
    if e.process in next.processes {
      if s.processes[e.process].Running? {
        RunningAnswers(limits, events, e);
      } else {
        OnlyRunningCompletes(limits, s, e.process, e);
        if next.processes[e.process].Expiring? { ExpiringSays(limits, next, e.process); }
      }
    }
  }

  lemma {:induction false} AdvanceOrigins(limits: Limits, events: seq<Event>, e: Event)
    requires e.Advance? && e.process in Run(limits, events).processes && Origins(limits, events, Run(limits, events))
    requires Healthy(limits, Step(limits, Run(limits, events), e))
    ensures Origins(limits, events + [e], Step(limits, Run(limits, events), e))
  {
    var s, p := Run(limits, events), e.process;
    var next := Step(limits, s, e);
    StillFrom(limits, events, e);
    AdvanceSettlesOwn(limits, s, p, e);
    MovedFrom(limits, events, e);
    forall q | q in next.processes ensures ProcessFrom(limits, events + [e], next.processes[q]) {
      if q != p {
        assert q in next.processes - {p};
        assert (next.processes - {p})[q] == (s.processes - {p})[q];
      }
    }
    forall t | t in next.settled
      ensures next.settled[t].token == t && ResultFrom(limits, events + [e], next.settled[t])
    {
      assert ProcessFrom(limits, events, s.processes[p]);
    }
  }

  lemma {:induction false} OtherOrigins(limits: Limits, events: seq<Event>, e: Event)
    requires !e.Advance? || e.process !in Run(limits, events).processes
    requires Origins(limits, events, Run(limits, events))
    ensures Origins(limits, events + [e], Step(limits, Run(limits, events), e))
  {
    StillFrom(limits, events, e);
    OthersSettleNothing(limits, Run(limits, events), e);
  }

  lemma {:induction false} RunHasOrigins(limits: Limits, events: seq<Event>)
    ensures Origins(limits, events, Run(limits, events))
  {
    if events != [] {
      var before, e := events[..|events| - 1], events[|events| - 1];
      RunHasOrigins(limits, before);
      RunIsHealthy(limits, events);
      assert before + [e] == events;
      if e.Advance? && e.process in Run(limits, before).processes {
        AdvanceOrigins(limits, before, e);
      } else {
        OtherOrigins(limits, before, e);
      }
    }
  }

  /** In every run, whatever is stored as a terminal result, and whatever terminal result is ever
      returned, is the answer of that operation's own provider call, or says that the execution
      was interrupted. */
  lemma {:induction false} ResultsComeFromProvider(limits: Limits, events: seq<Event>)
    ensures var s := Run(limits, events);
            && (forall t :: t in s.rows && Terminal(s.rows[t].status) ==>
                  s.rows[t].record.token == t && ResultFrom(limits, events, ResultOf(s.rows[t].record)))
            && (forall r :: r in s.returned && Terminal(r.status) ==> ResultFrom(limits, events, r))
  {
    var s := Run(limits, events);
    RunKeepsInv(limits, events);
    RunHasOrigins(limits, events);
    forall t | t in s.rows && Terminal(s.rows[t].status)
      ensures s.rows[t].record.token == t && ResultFrom(limits, events, ResultOf(s.rows[t].record))
    {
      assert RowOk(s, t, s.rows[t]);
    }
    forall r | r in s.returned && Terminal(r.status) ensures ResultFrom(limits, events, r) {
      assert ResultOk(s, r);
    }
  }
}
