/** What an expansion is to hold, said of the parsed events alone: which starts recur, what
    replaces them, and how long each instance takes. */
module ExpansionMeaning {
  import opened Wrappers
  import opened RecurrenceRules
  import opened RecurrenceWindow

  // ----- how long -------------------------------------------------------------------------------

  /** The midnight that a time's day begins with. */
  function Midnight(t: int): int { t - t % (24 * 3600) }

  /** An instance takes as long as its event. All-day events take whole days, from the midnight
      of the first to that of the last, and one day if there is no later. */
  ghost predicate Lasts(event: Event, start: int, end: int) {
    if !event.allDay then end - start == event.end - event.start
    else end - start == if Midnight(event.end) > Midnight(event.start)
                        then Midnight(event.end) - Midnight(event.start) else 24 * 3600
  }

  /** So a timed instance and an all-day one between midnights take exactly as long as the event;
      with a DURATION that is what the property says. */
  lemma {:induction false} SameLength(event: Event, start: int, end: int)
    requires ValidEvent(event) && Lasts(event, start, end)
    ensures !event.allDay ==> end - start == event.end - event.start
    ensures !event.allDay && event.duration.Some? ==>
              var d := event.duration.value;
              && (d.sign == 1 ==> end - start == d.days * (24 * 3600) + d.clock)
              && (d.sign == -1 ==> end - start == -(d.days * (24 * 3600) + d.clock))
    ensures event.allDay && event.start % (24 * 3600) == 0 && event.end % (24 * 3600) == 0 && event.start < event.end
            ==> end - start == event.end - event.start
    ensures event.allDay && event.end <= event.start ==> end - start == 24 * 3600
  {
    if event.allDay && event.end <= event.start { MidnightsFollow(event.end, event.start); }
    if !event.allDay && event.duration.Some? {
      var d := event.duration.value;
      assert 1 * d.days * DAY == d.days * DAY && 1 * d.clock == d.clock;
      assert -1 * d.days * DAY == 0 - d.days * DAY && -1 * d.clock == 0 - d.clock;
    }
  }

  lemma {:induction false} MidnightsFollow(a: int, b: int)
    requires a <= b
    ensures Midnight(a) <= Midnight(b)
  {
  }

  /** The end the expansion computes is the one the event's length calls for. */
  lemma {:induction false} RecurringEndLasts(event: Event, start: int, end: int)
    requires ValidEvent(event)
    ensures Lasts(event, start, end) <==> end == RecurringEnd(event, start)
  {
    if event.allDay {
      SpanOfMidnights(event.start, event.end);
    } else if event.duration.Some? {
      var d := event.duration.value;
      assert AddDuration(start, d) - start == AddDuration(event.start, d) - event.start;
    }
  }

  lemma {:induction false} SpanOfMidnights(start: int, end: int)
    ensures CalendarDaySpan(start, end) * (24 * 3600)
            == if Midnight(end) > Midnight(start) then Midnight(end) - Midnight(start) else 24 * 3600
  {
    assert Midnight(start) == start / DAY * DAY && Midnight(end) == end / DAY * DAY;
  }

  // ----- which starts ---------------------------------------------------------------------------

  function StepSeconds(rule: Rule): int {
    var interval := if rule.interval > 1 then rule.interval else 1;
    match rule.freq
    case Secondly => interval
    case Minutely => interval * 60
    case Hourly => interval * 3600
    case DailyOrSlower => 0
  }

  function Term(first: int, step: int, k: nat): int { first + k * step }

  /** The allowed instants before one. */
  ghost function AllowedBefore(pattern: int -> bool, first: int, t: int): set<int> {
    set u | first <= u < t && pattern(u)
  }

  /** A rule from its start on: every so many seconds, or wherever its selectors allow, and COUNT
      times if it has one. */
  ghost predicate RecursAt(rule: Rule, first: int, t: int) {
    && first <= t <= rule.until
    && match rule.pattern
       case None => exists k: nat :: t == Term(first, StepSeconds(rule), k) && (rule.count == 0 || k < rule.count)
       case Some(pattern) => pattern(t) && (rule.count == 0 || |AllowedBefore(pattern, first, t)| < rule.count)
  }

  ghost predicate PeriodStartsAt(event: Event, t: int) { exists p :: p in event.periods && p.start == t }

  /** DTSTART, the dates, the periods and the rule, less the exceptions. */
  ghost predicate StartsAtTime(event: Event, t: int) {
    && (t == event.start || t in event.rdates || PeriodStartsAt(event, t)
        || (event.rule.Some? && RecursAt(event.rule.value, event.start, t)))
    && t !in event.exdates
  }

  lemma {:induction false} SelectedCounts(pattern: int -> bool, first: int, t: int)
    ensures Selected(pattern, first, t) == |AllowedBefore(pattern, first, t)|
    decreases t - first
  {
    if first < t {
      SelectedCounts(pattern, first, t - 1);
      assert AllowedBefore(pattern, first, t)
             == AllowedBefore(pattern, first, t - 1) + if pattern(t - 1) then {t - 1} else {};
    } else {
      assert AllowedBefore(pattern, first, t) == {};
    }
  }

  lemma {:induction false} TermOfProgression(first: int, step: int, t: int, count: nat)
    requires step >= 1 && first <= t
    ensures (t - first) % step == 0 && (count == 0 || (t - first) / step < count)
            <==> exists k: nat :: t == Term(first, step, k) && (count == 0 || k < count)
  {
    if (t - first) % step == 0 {
      var k := (t - first) / step;
      assert (t - first) == k * step + (t - first) % step;
      assert t == Term(first, step, k);
      forall j: nat | t == Term(first, step, j) ensures j == k { DivModUnique(t - first, step, j, 0); }
    } else {
      forall j: nat ensures t != Term(first, step, j) {
        if t == Term(first, step, j) { DivModUnique(t - first, step, j, 0); }
      }
    }
  }

  lemma {:induction false} OccursMeans(rule: Rule, first: int, t: int)
    requires ValidRule(rule)
    ensures Occurs(rule.(dtstart := first), t) <==> RecursAt(rule, first, t)
  {
    if first <= t {
      match rule.pattern
      case None =>
        assert Step(rule) == StepSeconds(rule);
        TermOfProgression(first, StepSeconds(rule), t, rule.count);
      case Some(pattern) => SelectedCounts(pattern, first, t);
    }
  }

  lemma {:induction false} RecursMeans(event: Event, t: int)
    requires ValidEvent(event)
    ensures Recurs(event, t) <==> StartsAtTime(event, t)
  {
    if event.rule.Some? { OccursMeans(event.rule.value, event.start, t); }
    var starts := PeriodStarts(event.periods);
    if t in starts {
      var i :| 0 <= i < |starts| && starts[i] == t;
      assert event.periods[i] in event.periods;
    }
    if p :| p in event.periods && p.start == t {
      var i :| 0 <= i < |event.periods| && event.periods[i] == p;
      assert starts[i] == t;
    }
  }

  // ----- what becomes of a start ------------------------------------------------------------------

  /** A THISANDFUTURE override of the series that starts no later. */
  ghost predicate FutureBy(event: Event, uid: string, t: int) {
    event.uid == uid && event.futures && event.recurrenceId.Some? && event.recurrenceId.value <= t
  }

  ghost predicate LastFutureBy(parsed: seq<Event>, uid: string, t: int, f: Event) {
    && f in parsed && FutureBy(f, uid, t)
    && forall g :: g in parsed && FutureBy(g, uid, t) ==> g.recurrenceId.value <= f.recurrenceId.value
  }

  ghost predicate Overridden(parsed: seq<Event>, uid: string, t: int) {
    exists g :: g in parsed && g.uid == uid && g.recurrenceId == Some(t)
  }

  /** The end of the last listed period with that start. */
  ghost predicate PeriodEndsAt(event: Event, t: int, end: int) {
    exists i :: 0 <= i < |event.periods| && event.periods[i] == Period(t, end)
                && forall j :: i < j < |event.periods| ==> event.periods[j].start != t
  }

  /** An instance that nothing changes. */
  ghost predicate Unchanged(event: Event, t: int, o: Occurrence) {
    && o.start == t && o.futures == event.futures && o.details == event.details
    && o.wall == (if event.floating then Some(t) else event.wall)
    && if PeriodStartsAt(event, t) then PeriodEndsAt(event, t, o.end) else Lasts(event, t, o.end)
  }

  /** An instance under a THISANDFUTURE override: moved as that moved its own start, and as long. */
  ghost predicate ChangedBy(event: Event, f: Event, t: int, o: Occurrence) {
    && !f.cancelled && f.recurrenceId.Some? && o.start - t == f.start - f.recurrenceId.value
    && Lasts(f, o.start, o.end) && !o.futures && o.details == f.details
    && o.wall == (if event.floating then Some(t) else f.wall)
  }

  ghost predicate MeantBySeries(parsed: seq<Event>, event: Event, t: int, o: Occurrence) {
    && event in parsed && event.recurrenceId.None? && !event.cancelled
    && (event.rule.Some? || event.rdates != [] || event.periods != [])
    && StartsAtTime(event, t) && !Overridden(parsed, event.uid, t)
    && o.id == Stable(event.uid, t) && o.recurrenceId == Some(t)
    && if exists g :: g in parsed && FutureBy(g, event.uid, t)
       then exists f :: LastFutureBy(parsed, event.uid, t, f) && ChangedBy(event, f, t, o)
       else Unchanged(event, t, o)
  }

  ghost predicate MeantBySingle(parsed: seq<Event>, event: Event, o: Occurrence) {
    && event in parsed && event.recurrenceId.None? && !event.cancelled
    && event.rule.None? && event.rdates == [] && event.periods == []
    && o == Occurrence(Plain(event.uid), event.start, event.end, None, event.wall, event.futures, event.details)
  }

  /** An override of a series whose master is not cancelled, as it is. */
  ghost predicate MeantByOverride(parsed: seq<Event>, event: Event, o: Occurrence) {
    && event in parsed && event.recurrenceId.Some? && !event.cancelled
    && (forall g :: g in parsed && g.uid == event.uid && g.recurrenceId.None? ==> !g.cancelled)
    && o == Occurrence(Stable(event.uid, event.recurrenceId.value), event.start, event.end, event.recurrenceId,
                       event.wall, event.futures, event.details)
  }

  /** Everything that takes place in the range. */
  ghost predicate Meant(parsed: seq<Event>, rangeStart: int, rangeEnd: int, o: Occurrence) {
    && o.end > rangeStart && o.start < rangeEnd
    && ((exists event :: MeantBySingle(parsed, event, o)) || (exists event :: MeantByOverride(parsed, event, o))
        || (exists event, t :: MeantBySeries(parsed, event, t, o)))
  }

  // ----- the instance of a start ------------------------------------------------------------------

  lemma {:induction false} PeriodEndMeans(periods: seq<Period>, t: int)
    ensures PeriodEnd(periods, t).Some? <==> exists p :: p in periods && p.start == t
    ensures PeriodEnd(periods, t).Some? ==>
              exists i :: 0 <= i < |periods| && periods[i] == Period(t, PeriodEnd(periods, t).value)
                          && forall j :: i < j < |periods| ==> periods[j].start != t
  {
    if periods != [] {
      var rest, last := periods[..|periods| - 1], periods[|periods| - 1];
      assert periods == rest + [last];
      PeriodEndMeans(rest, t);
      if last.start == t {
        assert periods[|periods| - 1] == Period(t, PeriodEnd(periods, t).value);
      } else if PeriodEnd(rest, t).Some? {
        var i :| 0 <= i < |rest| && rest[i] == Period(t, PeriodEnd(rest, t).value)
                 && forall j :: i < j < |rest| ==> rest[j].start != t;
        assert periods[i] == rest[i];
        forall j | i < j < |periods| ensures periods[j].start != t { assert j < |rest| ==> periods[j] == rest[j]; }
      }
    }
  }

  lemma {:induction false} BaseMeans(event: Event, t: int, o: Occurrence)
    requires ValidEvent(event)
    ensures o == BaseOccurrence(event, t)
            <==> o.id == Stable(event.uid, t) && o.recurrenceId == Some(t) && Unchanged(event, t, o)
  {
    PeriodEndMeans(event.periods, t);
    RecurringEndLasts(event, t, o.end);
    if PeriodStartsAt(event, t) && PeriodEndsAt(event, t, o.end) {
      var i :| 0 <= i < |event.periods| && event.periods[i] == Period(t, o.end)
               && forall j :: i < j < |event.periods| ==> event.periods[j].start != t;
      var k :| 0 <= k < |event.periods| && event.periods[k] == Period(t, PeriodEnd(event.periods, t).value)
               && forall j :: k < j < |event.periods| ==> event.periods[j].start != t;
      assert i == k;
    }
  }

  lemma {:induction false} ShiftedMeans(event: Event, f: Event, t: int, o: Occurrence)
    requires ValidEvent(f) && f.recurrenceId.Some? && !f.cancelled
    ensures o == ShiftedOccurrence(event, f, t)
            <==> o.id == Stable(event.uid, t) && o.recurrenceId == Some(t) && ChangedBy(event, f, t, o)
  {
    RecurringEndLasts(f, o.start, o.end);
  }
}
