/** Which original starts of a recurring event can matter for a requested range, and the
    instance each start turns into. Times are whole seconds in one fixed-offset zone. */
module RecurrenceWindow {
  import opened Wrappers
  import opened Ordering
  import opened RecurrenceRules

  /** A parsed RFC 5545 duration; `sign` is 1 or -1. */
  datatype Duration = Duration(sign: int, days: nat, clock: nat)

  datatype Period = Period(start: int, end: int)

  /** One parsed VEVENT. A master has no recurrence id; `futures` marks RANGE=THISANDFUTURE;
      `wall` is the floating wall-clock text of the recurrence id, kept as its instant. */
  datatype Event = Event(
    uid: string, start: int, end: int, allDay: bool, duration: Option<Duration>, floating: bool,
    cancelled: bool, recurrenceId: Option<int>, wall: Option<int>, futures: bool,
    rule: Option<Rule>, rdates: seq<int>, periods: seq<Period>, exdates: seq<int>, details: string)

  /** The id of an event as parsed, or the stable id of one occurrence. */
  datatype OccurrenceId = Plain(uid: string) | Stable(uid: string, at: int)

  datatype Occurrence = Occurrence(
    id: OccurrenceId, start: int, end: int, recurrenceId: Option<int>, wall: Option<int>, futures: bool,
    details: string)

  function AddDuration(t: int, duration: Duration): int {
    t + duration.sign * duration.days * DAY + duration.sign * duration.clock
  }

  /** What the parser establishes: DTEND comes from DURATION when that property is used. */
  ghost predicate ValidEvent(event: Event) {
    && (event.rule.Some? ==> ValidRule(event.rule.value))
    && (event.duration.Some? ==> (event.duration.value.sign == 1 || event.duration.value.sign == -1)
                                 && event.end == AddDuration(event.start, event.duration.value))
  }

  predicate Overlaps(start: int, end: int, rangeStart: int, rangeEnd: int) {
    end > rangeStart && start < rangeEnd
  }

  function CalendarDaySpan(start: int, end: int): int {
    var days := end / DAY - start / DAY;
    if days < 1 then 1 else days
  }

  function RecurringEnd(event: Event, occurrenceStart: int): int {
    if event.allDay then occurrenceStart + CalendarDaySpan(event.start, event.end) * DAY
    else if event.duration.Some? then AddDuration(occurrenceStart, event.duration.value)
    else occurrenceStart + (event.end - event.start)
  }

  function DurationLookback(boundary: int, duration: Duration): int {
    var lookback := boundary - duration.clock - duration.days * DAY;
    var forward := AddDuration(lookback, duration);
    if forward < boundary then lookback + (forward - boundary) else lookback
  }

  function RecurrenceLookback(event: Event, boundary: int): int {
    if event.allDay then boundary - CalendarDaySpan(event.start, event.end) * DAY
    else if event.duration.Some? && event.duration.value.sign > 0 then DurationLookback(boundary, event.duration.value)
    else boundary - (event.end - event.start)
  }

  /** The lookback is the exact cut-off: an occurrence ends after the boundary exactly when
      it starts after the lookback, for all-day, DURATION and DTEND events alike. */
  lemma {:induction false} LookbackIsExact(event: Event, boundary: int, occurrenceStart: int)
    requires ValidEvent(event)
    ensures RecurringEnd(event, occurrenceStart) > boundary <==> occurrenceStart > RecurrenceLookback(event, boundary)
  {
    if event.duration.Some? {
      var d := event.duration.value;
      assert 1 * d.days * DAY == d.days * DAY && 1 * d.clock == d.clock;
      assert -1 * d.days * DAY == 0 - d.days * DAY && -1 * d.clock == 0 - d.clock;
    }
  }

  // ----- the set of original starts ---------------------------------------------------

  function PeriodStarts(periods: seq<Period>): seq<int> {
    seq(|periods|, i requires 0 <= i < |periods| => periods[i].start)
  }

  /** DTSTART, the RDATE dates and the starts of the RDATE periods. */
  function RecurrenceDates(event: Event): seq<int> {
    [event.start] + event.rdates + PeriodStarts(event.periods)
  }

  function AnchoredRule(event: Event): Option<Rule> {
    if event.rule.Some? then Some(event.rule.value.(dtstart := event.start)) else None
  }

  predicate InSet(rule: Option<Rule>, dates: seq<int>, exdates: seq<int>, t: int)
    requires rule.Some? ==> ValidRule(rule.value)
  {
    ((rule.Some? && Occurs(rule.value, t)) || t in dates) && t !in exdates
  }

  /** The full recurrence set of a master (RFC 5545 sections 3.8.5.1 to 3.8.5.3). */
  predicate Recurs(event: Event, t: int)
    requires ValidEvent(event)
  {
    InSet(AnchoredRule(event), RecurrenceDates(event), event.exdates, t)
  }

  // ----- instances --------------------------------------------------------------------

  function ByRecurrenceId(event: Event): Key {
    Key(if event.recurrenceId.Some? then event.recurrenceId.value else 0, 0, 0)
  }

  /** THISANDFUTURE overrides of one series, in order of the start they replace. */
  ghost predicate FutureOverrides(overrides: seq<Event>) {
    && (forall i :: 0 <= i < |overrides| ==> ValidEvent(overrides[i]) && overrides[i].recurrenceId.Some?)
    && (forall i, j :: 0 <= i < j < |overrides| ==> overrides[i].recurrenceId.value < overrides[j].recurrenceId.value)
  }

  /** The last override whose original start is not after the occurrence. */
  function Applicable(overrides: seq<Event>, occurrenceStart: int): (index: Option<nat>)
    requires FutureOverrides(overrides)
    ensures index.Some? ==> index.value < |overrides| && overrides[index.value].recurrenceId.value <= occurrenceStart
                            && (forall j :: index.value < j < |overrides| ==>
                                  occurrenceStart < overrides[j].recurrenceId.value)
    ensures index.None? ==> forall j :: 0 <= j < |overrides| ==> occurrenceStart < overrides[j].recurrenceId.value
  {
    if overrides == [] then None
    else if overrides[|overrides| - 1].recurrenceId.value <= occurrenceStart then Some(|overrides| - 1)
    else Applicable(overrides[..|overrides| - 1], occurrenceStart)
  }

  /** The source's forward scan finds the same override. */
  method ApplicableFutureOverride(overrides: seq<Event>, occurrenceStart: int) returns (found: Option<nat>)
    requires FutureOverrides(overrides)
    ensures found == Applicable(overrides, occurrenceStart)
  {
    found := None;
    for candidate := 0 to |overrides|
      invariant found == if candidate == 0 then None else Some(candidate - 1)
      invariant candidate > 0 ==> overrides[candidate - 1].recurrenceId.value <= occurrenceStart
    {
      if overrides[candidate].recurrenceId.value > occurrenceStart {
        return;
      }
      found := Some(candidate);
    }
  }

  /** The end of the period that starts here; the last one listed counts. */
  function PeriodEnd(periods: seq<Period>, start: int): (end: Option<int>)
    ensures end.Some? ==> Period(start, end.value) in periods
    ensures end.None? ==> forall p :: p in periods ==> p.start != start
  {
    if periods == [] then None
    else
      var last := periods[|periods| - 1];
      assert periods == periods[..|periods| - 1] + [last];
      if last.start == start then Some(last.end) else PeriodEnd(periods[..|periods| - 1], start)
  }

  function BaseOccurrence(master: Event, start: int): Occurrence {
    var periodEnd := PeriodEnd(master.periods, start);
    Occurrence(Stable(master.uid, start), start,
               if periodEnd.Some? then periodEnd.value else RecurringEnd(master, start),
               Some(start), if master.floating then Some(start) else master.wall, master.futures, master.details)
  }

  function ShiftedOccurrence(master: Event, ranged: Event, start: int): Occurrence
    requires ranged.recurrenceId.Some?
  {
    var moved := start + (ranged.start - ranged.recurrenceId.value);
    Occurrence(Stable(master.uid, start), moved, RecurringEnd(ranged, moved),
               Some(start), if master.floating then Some(start) else ranged.wall, false, ranged.details)
  }

  function OverrideOccurrence(override: Event): Occurrence
    requires override.recurrenceId.Some?
  {
    Occurrence(Stable(override.uid, override.recurrenceId.value), override.start, override.end,
               override.recurrenceId, override.wall, override.futures, override.details)
  }

  function SingleOccurrence(event: Event): Occurrence {
    Occurrence(Plain(event.uid), event.start, event.end, event.recurrenceId, event.wall, event.futures, event.details)
  }

  /** What an original start without an exact override becomes. */
  function Instance(master: Event, overrides: seq<Event>, start: int): Option<Occurrence>
    requires FutureOverrides(overrides)
  {
    match Applicable(overrides, start)
    case None => Some(BaseOccurrence(master, start))
    case Some(index) =>
      if overrides[index].cancelled then None else Some(ShiftedOccurrence(master, overrides[index], start))
  }

  // ----- candidate intervals ----------------------------------------------------------

  /** A closed interval of original starts. */
  datatype Interval = Interval(start: int, end: int)

  function ByStart(interval: Interval): Key {
    Key(interval.start, 0, 0)
  }

  predicate Contains(interval: Interval, t: int) {
    interval.start <= t <= interval.end
  }

  ghost predicate Covered(intervals: seq<Interval>, t: int) {
    exists i :: 0 <= i < |intervals| && Contains(intervals[i], t)
  }

  function PeriodIntervals(periods: seq<Period>, rangeStart: int, rangeEnd: int): seq<Interval> {
    if periods == [] then []
    else
      var last := periods[|periods| - 1];
      PeriodIntervals(periods[..|periods| - 1], rangeStart, rangeEnd)
      + if last.end > rangeStart && last.start < rangeEnd then [Interval(last.start, last.start)] else []
  }

  /** The starts this override applies to, clipped to those it moves into the range. */
  function OverrideInterval(overrides: seq<Event>, index: nat, rangeStart: int, rangeEnd: int): Option<Interval>
    requires FutureOverrides(overrides) && index < |overrides|
  {
    var original := overrides[index].recurrenceId.value;
    var delta := overrides[index].start - original;
    var candidateStart := RecurrenceLookback(overrides[index], rangeStart) - delta;
    var shiftedEnd := rangeEnd - delta;
    var bounded := index + 1 < |overrides|;
    if shiftedEnd <= original || (bounded && candidateStart >= overrides[index + 1].recurrenceId.value) then None
    else
      var from := if candidateStart < original then original else candidateStart;
      var to := if bounded && shiftedEnd > overrides[index + 1].recurrenceId.value
          then overrides[index + 1].recurrenceId.value else shiftedEnd;
      if from < to then Some(Interval(from, to)) else None
  }

  function OverrideIntervals(overrides: seq<Event>, count: nat, rangeStart: int, rangeEnd: int): seq<Interval>
    requires FutureOverrides(overrides) && count <= |overrides|
  {
    if count == 0 then []
    else
      var interval := OverrideInterval(overrides, count - 1, rangeStart, rangeEnd);
      OverrideIntervals(overrides, count - 1, rangeStart, rangeEnd) + if interval.Some? then [interval.value] else []
  }

  function CandidateIntervals(master: Event, overrides: seq<Event>, rangeStart: int, rangeEnd: int): seq<Interval>
    requires FutureOverrides(overrides)
  {
    [Interval(RecurrenceLookback(master, rangeStart), rangeEnd)]
    + PeriodIntervals(master.periods, rangeStart, rangeEnd)
    + OverrideIntervals(overrides, |overrides|, rangeStart, rangeEnd)
  }

  lemma {:induction false} CoveredByPart(a: seq<Interval>, b: seq<Interval>, c: seq<Interval>, t: int)
    ensures Covered(a + b + c, t) <==> Covered(a, t) || Covered(b, t) || Covered(c, t)
  {
    var all := a + b + c;
    if Covered(a, t) {
      var i :| 0 <= i < |a| && Contains(a[i], t);
      assert all[i] == a[i];
    }
    if Covered(b, t) {
      var i :| 0 <= i < |b| && Contains(b[i], t);
      assert all[|a| + i] == b[i];
    }
    if Covered(c, t) {
      var i :| 0 <= i < |c| && Contains(c[i], t);
      assert all[|a| + |b| + i] == c[i];
    }
  }

  lemma {:induction false} PeriodCovered(periods: seq<Period>, period: Period, rangeStart: int, rangeEnd: int)
    requires period in periods && period.end > rangeStart && period.start < rangeEnd
    ensures Covered(PeriodIntervals(periods, rangeStart, rangeEnd), period.start)
  {
    var last := periods[|periods| - 1];
    var rest := periods[..|periods| - 1];
    var intervals := PeriodIntervals(periods, rangeStart, rangeEnd);
    if last == period {
      assert Contains(intervals[|intervals| - 1], period.start);
    } else {
      PeriodCovered(rest, period, rangeStart, rangeEnd);
      var before := PeriodIntervals(rest, rangeStart, rangeEnd);
      var i :| 0 <= i < |before| && Contains(before[i], period.start);
      assert intervals[i] == before[i];
    }
  }

  lemma {:induction false} OverrideCovered(overrides: seq<Event>, count: nat, index: nat, rangeStart: int,
                                           rangeEnd: int, t: int)
    requires FutureOverrides(overrides) && index < count <= |overrides|
    requires var interval := OverrideInterval(overrides, index, rangeStart, rangeEnd);
             interval.Some? && Contains(interval.value, t)
    ensures Covered(OverrideIntervals(overrides, count, rangeStart, rangeEnd), t)
  {
    var intervals := OverrideIntervals(overrides, count, rangeStart, rangeEnd);
    if index == count - 1 {
      assert Contains(intervals[|intervals| - 1], t);
    } else {
      OverrideCovered(overrides, count - 1, index, rangeStart, rangeEnd, t);
      var before := OverrideIntervals(overrides, count - 1, rangeStart, rangeEnd);
      var i :| 0 <= i < |before| && Contains(before[i], t);
      assert intervals[i] == before[i];
    }
  }

  /** No instance that overlaps the range is lost: its original start lies in a candidate
      interval, however far a THISANDFUTURE override moves it. */
  lemma {:induction false} InstanceCovered(master: Event, overrides: seq<Event>, rangeStart: int, rangeEnd: int,
                                           start: int)
    requires ValidEvent(master) && FutureOverrides(overrides)
    requires var o := Instance(master, overrides, start);
             o.Some? && Overlaps(o.value.start, o.value.end, rangeStart, rangeEnd)
    ensures Covered(CandidateIntervals(master, overrides, rangeStart, rangeEnd), start)
  {
    var lookback := [Interval(RecurrenceLookback(master, rangeStart), rangeEnd)];
    var periods := PeriodIntervals(master.periods, rangeStart, rangeEnd);
    var moved := OverrideIntervals(overrides, |overrides|, rangeStart, rangeEnd);
    CoveredByPart(lookback, periods, moved, start);
    match Applicable(overrides, start) {
      case None =>
        var periodEnd := PeriodEnd(master.periods, start);
        if periodEnd.Some? {
          PeriodCovered(master.periods, Period(start, periodEnd.value), rangeStart, rangeEnd);
        } else {
          LookbackIsExact(master, rangeStart, start);
          assert Contains(lookback[0], start);
        }
      case Some(index) =>
        var ranged := overrides[index];
        LookbackIsExact(ranged, rangeStart, start + (ranged.start - ranged.recurrenceId.value));
        OverrideCovered(overrides, |overrides|, index, rangeStart, rangeEnd, start);
    }
  }

  /** An instance that touches the range, whatever else becomes of its start: the event's own, a
      period's, or one moved by an override that replaces starts from there on. */
  ghost predicate Touches(master: Event, overrides: seq<Event>, rangeStart: int, rangeEnd: int, t: int)
    requires FutureOverrides(overrides)
  {
    || (RecurringEnd(master, t) >= rangeStart && t <= rangeEnd)
    || (exists p :: p in master.periods && p.start == t && p.end > rangeStart && p.start < rangeEnd)
    || (exists i :: 0 <= i < |overrides| && MovedTouches(overrides, i, rangeStart, rangeEnd, t))
  }

  ghost predicate MovedTouches(overrides: seq<Event>, i: nat, rangeStart: int, rangeEnd: int, t: int)
    requires FutureOverrides(overrides) && i < |overrides|
  {
    var moved := t + (overrides[i].start - overrides[i].recurrenceId.value);
    && overrides[i].recurrenceId.value <= t
    && (i + 1 < |overrides| ==> t <= overrides[i + 1].recurrenceId.value)
    && RecurringEnd(overrides[i], moved) >= rangeStart && moved <= rangeEnd
  }

  lemma {:induction false} EndsAtLeast(event: Event, boundary: int, t: int)
    requires ValidEvent(event)
    ensures t >= RecurrenceLookback(event, boundary) <==> RecurringEnd(event, t) >= boundary
  {
    LookbackIsExact(event, boundary, t + 1);
    if event.duration.Some? {
      assert AddDuration(t + 1, event.duration.value) == AddDuration(t, event.duration.value) + 1;
    }
  }

  lemma {:induction false} PeriodIntervalsTouch(periods: seq<Period>, rangeStart: int, rangeEnd: int, t: int)
    requires Covered(PeriodIntervals(periods, rangeStart, rangeEnd), t)
    ensures exists p :: p in periods && p.start == t && p.end > rangeStart && p.start < rangeEnd
  {
    var last, before := periods[|periods| - 1], periods[..|periods| - 1];
    assert periods == before + [last];
    var intervals := PeriodIntervals(periods, rangeStart, rangeEnd);
    var i :| 0 <= i < |intervals| && Contains(intervals[i], t);
    var earlier := PeriodIntervals(before, rangeStart, rangeEnd);
    if i < |earlier| {
      assert earlier[i] == intervals[i];
      PeriodIntervalsTouch(before, rangeStart, rangeEnd, t);
    } else {
      assert last in periods;
    }
  }

  lemma {:induction false} OverrideIntervalTouches(overrides: seq<Event>, i: nat, rangeStart: int, rangeEnd: int,
                                                   t: int)
    requires FutureOverrides(overrides) && i < |overrides|
    requires var interval := OverrideInterval(overrides, i, rangeStart, rangeEnd);
             interval.Some? && Contains(interval.value, t)
    ensures MovedTouches(overrides, i, rangeStart, rangeEnd, t)
  {
    EndsAtLeast(overrides[i], rangeStart, t + (overrides[i].start - overrides[i].recurrenceId.value));
  }

  lemma {:induction false} OverrideIntervalsTouch(master: Event, overrides: seq<Event>, count: nat, rangeStart: int,
                                                  rangeEnd: int, t: int)
    requires FutureOverrides(overrides) && count <= |overrides|
    requires Covered(OverrideIntervals(overrides, count, rangeStart, rangeEnd), t)
    ensures Touches(master, overrides, rangeStart, rangeEnd, t)
  {
    var intervals := OverrideIntervals(overrides, count, rangeStart, rangeEnd);
    var i :| 0 <= i < |intervals| && Contains(intervals[i], t);
    var earlier := OverrideIntervals(overrides, count - 1, rangeStart, rangeEnd);
    if i < |earlier| {
      assert earlier[i] == intervals[i];
      OverrideIntervalsTouch(master, overrides, count - 1, rangeStart, rangeEnd, t);
    } else {
      OverrideIntervalTouches(overrides, count - 1, rangeStart, rangeEnd, t);
    }
  }

  /** No candidate is idle: every start in a candidate interval has an instance that touches the
      range. */
  lemma {:induction false} CandidatesTouch(master: Event, overrides: seq<Event>, rangeStart: int, rangeEnd: int, t: int)
    requires ValidEvent(master) && FutureOverrides(overrides)
    requires Covered(CandidateIntervals(master, overrides, rangeStart, rangeEnd), t)
    ensures Touches(master, overrides, rangeStart, rangeEnd, t)
  {
    var own := [Interval(RecurrenceLookback(master, rangeStart), rangeEnd)];
    var periods := PeriodIntervals(master.periods, rangeStart, rangeEnd);
    CoveredByPart(own, periods, OverrideIntervals(overrides, |overrides|, rangeStart, rangeEnd), t);
    EndsAtLeast(master, rangeStart, t);
    if Covered(periods, t) {
      PeriodIntervalsTouch(master.periods, rangeStart, rangeEnd, t);
    } else if Covered(OverrideIntervals(overrides, |overrides|, rangeStart, rangeEnd), t) {
      OverrideIntervalsTouch(master, overrides, |overrides|, rangeStart, rangeEnd, t);
    }
  }

  lemma {:induction false} CoveredStep(s: seq<Interval>, interval: Interval)
    ensures forall t :: Covered(s + [interval], t) <==> Covered(s, t) || Contains(interval, t)
  {
    forall t ensures Covered(s + [interval], t) <==> Covered(s, t) || Contains(interval, t) {
      CoveredByPart(s, [interval], [], t);
      assert s + [interval] + [] == s + [interval];
      if Contains(interval, t) { assert Contains([interval][0], t); }
    }
  }

  lemma {:induction false} CoveredAbsorb(s: seq<Interval>, last: Interval, interval: Interval, merged: Interval)
    requires last.start <= interval.start <= last.end
    requires merged == last.(end := if interval.end > last.end then interval.end else last.end)
    ensures forall t :: Covered(s + [merged], t) <==> Covered(s + [last], t) || Contains(interval, t)
  {
    CoveredStep(s, merged);
    CoveredStep(s, last);
  }

  /** Adding one interval to those merged so far. */
  function Absorb(merged: seq<Interval>, interval: Interval): seq<Interval> {
    if merged == [] || interval.start > merged[|merged| - 1].end then merged + [interval]
    else
      var last := merged[|merged| - 1];
      merged[|merged| - 1 := last.(end := if interval.end > last.end then interval.end else last.end)]
  }

  function Compact(s: seq<Interval>): (merged: seq<Interval>)
    ensures |merged| <= |s| && (s != [] ==> merged != [])
  {
    if s == [] then [] else Absorb(Compact(s[..|s| - 1]), s[|s| - 1])
  }

  ghost predicate Ascending(s: seq<Interval>) {
    forall i, j :: 0 <= i < j < |s| ==> s[i].start <= s[j].start
  }

  ghost predicate Disjoint(s: seq<Interval>) {
    forall i, j :: 0 <= i < j < |s| ==> s[i].end < s[j].start
  }

  lemma {:induction false} AbsorbKeepsInstants(merged: seq<Interval>, interval: Interval)
    requires merged != [] ==> merged[|merged| - 1].start <= interval.start
    ensures forall t :: Covered(Absorb(merged, interval), t) <==> Covered(merged, t) || Contains(interval, t)
  {
    if merged == [] || interval.start > merged[|merged| - 1].end {
      CoveredStep(merged, interval);
    } else {
      var last := merged[|merged| - 1];
      var front := merged[..|merged| - 1];
      var wider := last.(end := if interval.end > last.end then interval.end else last.end);
      assert merged == front + [last] && Absorb(merged, interval) == front + [wider];
      CoveredAbsorb(front, last, interval, wider);
    }
  }

  lemma {:induction false} AbsorbShape(merged: seq<Interval>, interval: Interval)
    requires Ascending(merged) && Disjoint(merged)
    requires merged != [] ==> merged[|merged| - 1].start <= interval.start
    ensures Ascending(Absorb(merged, interval)) && Disjoint(Absorb(merged, interval))
    ensures var m := Absorb(merged, interval); m[|m| - 1].start <= interval.start
  {
  }

  /** Merging yields disjoint intervals in order. */
  lemma {:induction false} CompactShape(s: seq<Interval>)
    requires Ascending(s)
    ensures Ascending(Compact(s)) && Disjoint(Compact(s))
    ensures s != [] ==> Compact(s)[|Compact(s)| - 1].start <= s[|s| - 1].start
  {
    if s != [] {
      var rest := s[..|s| - 1];
      CompactShape(rest);
      assert rest != [] ==> rest[|rest| - 1] == s[|s| - 2];
      AbsorbShape(Compact(rest), s[|s| - 1]);
    }
  }

  /** Merging keeps exactly the instants. */
  lemma {:induction false} CompactKeepsInstants(s: seq<Interval>)
    requires Ascending(s)
    ensures forall t :: Covered(Compact(s), t) <==> Covered(s, t)
  {
    if s != [] {
      var rest := s[..|s| - 1];
      CompactKeepsInstants(rest);
      CompactShape(rest);
      assert rest != [] ==> rest[|rest| - 1] == s[|s| - 2];
      AbsorbKeepsInstants(Compact(rest), s[|s| - 1]);
      CoveredStep(rest, s[|s| - 1]);
      assert s == rest + [s[|s| - 1]];
    }
  }

  /** Some interval starts here. */
  ghost predicate StartsAt(s: seq<Interval>, t: int) {
    exists i :: 0 <= i < |s| && s[i].start == t
  }

  /** Merged intervals start where some interval started. */
  lemma {:induction false} CompactKeepsStarts(s: seq<Interval>)
    ensures forall i :: 0 <= i < |Compact(s)| ==> StartsAt(s, Compact(s)[i].start)
  {
    if s != [] {
      var rest, last := s[..|s| - 1], s[|s| - 1];
      CompactKeepsStarts(rest);
      assert s[|s| - 1].start == last.start;
      forall i | 0 <= i < |Compact(s)| ensures StartsAt(s, Compact(s)[i].start) {
        if i < |Compact(rest)| {
          assert Compact(s)[i].start == Compact(rest)[i].start;
          var j :| 0 <= j < |rest| && rest[j].start == Compact(rest)[i].start;
          assert s[j].start == Compact(s)[i].start;
        }
      }
    }
  }

  lemma {:induction false} SameStarts(a: seq<Interval>, b: seq<Interval>)
    requires multiset(a) == multiset(b)
    ensures forall t :: StartsAt(a, t) ==> StartsAt(b, t)
  {
    forall t | StartsAt(a, t) ensures StartsAt(b, t) {
      var i :| 0 <= i < |a| && a[i].start == t;
      assert a[i] in multiset(a) && a[i] in multiset(b);
      var j :| 0 <= j < |b| && b[j] == a[i];
      assert b[j].start == t;
    }
  }

  /** One iteration: the interval read at `i` joins the merged prefix of length n <= i. */
  method AbsorbAt(a: array<Interval>, n: nat, i: nat) returns (m: nat)
    requires n <= i < a.Length
    modifies a
    ensures m <= n + 1 && a[..m] == Absorb(old(a[..n]), old(a[i]))
    ensures forall k :: i < k < a.Length ==> a[k] == old(a[k])
  {
    var interval := a[i];
    m := n;
    if n == 0 || interval.start > a[n - 1].end {
      a[n] := interval;
      m := n + 1;
    } else if interval.end > a[n - 1].end {
      a[n - 1] := Interval(a[n - 1].start, interval.end);
    }
  }

  /** Merges intervals, reusing the slots of the slice it reads. The write position never
      passes the read position, so nothing unread is lost. */
  method MergeInPlace(a: array<Interval>) returns (n: nat)
    modifies a
    ensures n <= a.Length && a[..n] == Compact(old(a[..]))
  {
    n := 0;
    for i := 0 to a.Length
      invariant n <= i && a[..n] == Compact(old(a[..])[..i])
      invariant forall k :: i <= k < a.Length ==> a[k] == old(a[k])
    {
      CompactStep(old(a[..]), i);
      n := AbsorbAt(a, n, i);
    }
    assert old(a[..])[..a.Length] == old(a[..]);
  }

  lemma {:induction false} CompactStep(s: seq<Interval>, i: nat)
    requires i < |s|
    ensures Compact(s[..i + 1]) == Absorb(Compact(s[..i]), s[i])
  {
    assert s[..i + 1][..i] == s[..i];
  }

  /** `slices.SortFunc` on a slice of intervals. */
  method SortIntervals(a: array<Interval>)
    modifies a
    ensures Ascending(a[..])
    ensures forall t :: Covered(a[..], t) <==> Covered(old(a[..]), t)
    ensures multiset(a[..]) == multiset(old(a[..]))
  {
    ghost var was := a[..];
    var sorted := Sort(a[..], ByStart);
    SortElements(a[..], ByStart);
    SortSorted(a[..], ByStart);
    SortMembers(a[..], ByStart);
    forall i | 0 <= i < a.Length { a[i] := sorted[i]; }
    assert a[..] == sorted;
    forall i, j | 0 <= i < j < a.Length ensures sorted[i].start <= sorted[j].start {
      assert !Less(ByStart(sorted[j]), ByStart(sorted[i]));
    }
    forall t ensures Covered(a[..], t) <==> Covered(was, t) {
      CoveredMembers(sorted, was, t);
      CoveredMembers(was, sorted, t);
    }
  }

  lemma {:induction false} CoveredMembers(s: seq<Interval>, other: seq<Interval>, t: int)
    requires forall x :: x in s ==> x in other
    ensures Covered(s, t) ==> Covered(other, t)
  {
    if Covered(s, t) {
      var i :| 0 <= i < |s| && Contains(s[i], t);
      assert s[i] in other;
    }
  }

  /** The end of the computation: sort a slice of the intervals and merge it in place. */
  method SortAndMerge(intervals: seq<Interval>) returns (merged: seq<Interval>)
    ensures Ascending(merged) && Disjoint(merged)
    ensures forall t :: Covered(merged, t) <==> Covered(intervals, t)
    ensures forall i :: 0 <= i < |merged| ==> StartsAt(intervals, merged[i].start)
  {
    var a := new Interval[|intervals|](i requires 0 <= i < |intervals| => intervals[i]);
    assert a[..] == intervals;
    SortIntervals(a);
    CompactShape(a[..]);
    CompactKeepsInstants(a[..]);
    CompactKeepsStarts(a[..]);
    SameStarts(a[..], intervals);
    var n := MergeInPlace(a);
    merged := a[..n];
  }

  method RecurrenceCandidateIntervals(master: Event, overrides: seq<Event>, rangeStart: int, rangeEnd: int)
    returns (merged: seq<Interval>)
    requires FutureOverrides(overrides)
    ensures Ascending(merged) && Disjoint(merged)
    ensures forall t :: Covered(merged, t) <==> Covered(CandidateIntervals(master, overrides, rangeStart, rangeEnd), t)
    ensures forall i :: 0 <= i < |merged| ==>
              StartsAt(CandidateIntervals(master, overrides, rangeStart, rangeEnd), merged[i].start)
  {
    var intervals := [Interval(RecurrenceLookback(master, rangeStart), rangeEnd)];
    ghost var first := intervals;
    for p := 0 to |master.periods|
      invariant intervals == first + PeriodIntervals(master.periods[..p], rangeStart, rangeEnd)
    {
      var period := master.periods[p];
      assert master.periods[..p + 1][..p] == master.periods[..p];
      if period.end > rangeStart && period.start < rangeEnd {
        intervals := intervals + [Interval(period.start, period.start)];
      }
    }
    assert master.periods[..|master.periods|] == master.periods;
    for index := 0 to |overrides|
      invariant intervals == first + PeriodIntervals(master.periods, rangeStart, rangeEnd)
                                   + OverrideIntervals(overrides, index, rangeStart, rangeEnd)
    {
      var original := overrides[index].recurrenceId.value;
      var delta := overrides[index].start - original;
      var candidateStart := RecurrenceLookback(overrides[index], rangeStart) - delta;
      var shiftedEnd := rangeEnd - delta;
      var applicabilityEnd := if index + 1 < |overrides| then overrides[index + 1].recurrenceId else None;
      if shiftedEnd <= original || (applicabilityEnd.Some? && candidateStart >= applicabilityEnd.value) {
        continue;
      }
      if candidateStart < original {
        candidateStart := original;
      }
      if applicabilityEnd.Some? && shiftedEnd > applicabilityEnd.value {
        shiftedEnd := applicabilityEnd.value;
      }
      if candidateStart < shiftedEnd {
        intervals := intervals + [Interval(candidateStart, shiftedEnd)];
      }
    }
    merged := SortAndMerge(intervals);
  }
}
