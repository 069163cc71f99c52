/** Expansion of a parsed calendar over a requested range. The expansion only visits
    candidate intervals of each series; the theorem is that it returns what expanding every
    series completely and then filtering would return. */
module RangeExpansion {
  import opened Wrappers
  import opened Ordering
  import opened RecurrenceRules
  import opened RecurrenceWindow
  import opened ExpansionMeaning

  const MAX_OCCURRENCES: nat := 10000

  // ----- what a calendar means, without windows ------------------------------------------

  predicate IsMaster(event: Event) { event.recurrenceId.None? }

  predicate IsSeries(event: Event) {
    IsMaster(event) && (event.rule.Some? || event.rdates != [] || event.periods != [])
  }

  predicate IsSingle(event: Event) { IsMaster(event) && !IsSeries(event) }

  /** One master per UID, and one override per UID and RECURRENCE-ID. */
  ghost predicate ValidCalendar(parsed: seq<Event>) {
    && (forall i :: 0 <= i < |parsed| ==> ValidEvent(parsed[i]))
    && (forall i, j :: 0 <= i < j < |parsed| && IsMaster(parsed[i]) && IsMaster(parsed[j]) ==>
          parsed[i].uid != parsed[j].uid)
    && (forall i, j :: 0 <= i < j < |parsed| && !IsMaster(parsed[i]) && !IsMaster(parsed[j]) ==>
          parsed[i].uid == parsed[j].uid ==> parsed[i].recurrenceId != parsed[j].recurrenceId)
  }

  ghost predicate HasExactOverride(parsed: seq<Event>, uid: string, start: int) {
    exists i :: 0 <= i < |parsed| && parsed[i].uid == uid && parsed[i].recurrenceId == Some(start)
  }

  ghost predicate MasterCancelled(parsed: seq<Event>, uid: string) {
    exists i :: 0 <= i < |parsed| && IsMaster(parsed[i]) && parsed[i].cancelled && parsed[i].uid == uid
  }

  predicate IsFuture(event: Event, uid: string) {
    event.uid == uid && event.recurrenceId.Some? && event.futures
  }

  function FutureOf(uid: string): Event -> bool {
    event => IsFuture(event, uid)
  }

  /** The THISANDFUTURE overrides of a series, in order of the start they replace. */
  function FutureList(parsed: seq<Event>, uid: string): seq<Event> {
    Sort(Filter(parsed, FutureOf(uid)), ByRecurrenceId)
  }

  ghost predicate Visible(o: Occurrence, rangeStart: int, rangeEnd: int) {
    Overlaps(o.start, o.end, rangeStart, rangeEnd)
  }

  ghost predicate FromSingle(parsed: seq<Event>, o: Occurrence) {
    exists i :: 0 <= i < |parsed| && IsSingle(parsed[i]) && !parsed[i].cancelled && o == SingleOccurrence(parsed[i])
  }

  ghost predicate FromSeries(parsed: seq<Event>, o: Occurrence)
    requires ValidCalendar(parsed)
  {
    exists i, start ::
      && 0 <= i < |parsed| && IsSeries(parsed[i]) && !parsed[i].cancelled
      && Recurs(parsed[i], start) && !HasExactOverride(parsed, parsed[i].uid, start)
      && FutureOverrides(FutureList(parsed, parsed[i].uid))
      && Instance(parsed[i], FutureList(parsed, parsed[i].uid), start) == Some(o)
  }

  ghost predicate FromOverride(parsed: seq<Event>, o: Occurrence) {
    exists i :: 0 <= i < |parsed| && !IsMaster(parsed[i]) && !parsed[i].cancelled
                && !MasterCancelled(parsed, parsed[i].uid) && o == OverrideOccurrence(parsed[i])
  }

  /** The naive expansion: every instance of every master's full set, and every override. */
  ghost predicate Expected(parsed: seq<Event>, rangeStart: int, rangeEnd: int, o: Occurrence)
    requires ValidCalendar(parsed)
  {
    Visible(o, rangeStart, rangeEnd) && (FromSingle(parsed, o) || FromSeries(parsed, o) || FromOverride(parsed, o))
  }

  lemma {:induction false} FilterFutureDistinct(parsed: seq<Event>, uid: string)
    requires ValidCalendar(parsed)
    ensures DistinctKeys(Filter(parsed, FutureOf(uid)), ByRecurrenceId)
  {
    if parsed != [] {
      var rest := parsed[1..];
      assert forall i :: 0 <= i < |rest| ==> rest[i] == parsed[i + 1];
      FilterFutureDistinct(rest, uid);
      FilterMembers(rest, FutureOf(uid));
      var kept := Filter(rest, FutureOf(uid));
      if IsFuture(parsed[0], uid) {
        forall j | 0 <= j < |kept| ensures ByRecurrenceId(parsed[0]) != ByRecurrenceId(kept[j]) {
          assert kept[j] in rest && IsFuture(kept[j], uid);
          var i :| 0 <= i < |rest| && rest[i] == kept[j];
          assert parsed[i + 1] == kept[j];
        }
      }
    }
  }

  lemma {:induction false} FutureListValid(parsed: seq<Event>, uid: string)
    requires ValidCalendar(parsed)
    ensures FutureOverrides(FutureList(parsed, uid))
  {
    var futures := FutureList(parsed, uid);
    var kept := Filter(parsed, FutureOf(uid));
    FilterFutureDistinct(parsed, uid);
    FilterMembers(parsed, FutureOf(uid));
    SortStrict(kept, ByRecurrenceId);
    SortMembers(kept, ByRecurrenceId);
    forall i | 0 <= i < |futures| ensures ValidEvent(futures[i]) && futures[i].recurrenceId.Some? {
      assert futures[i] in futures;
      assert FutureOf(uid)(futures[i]);
    }
    forall i, j | 0 <= i < j < |futures| ensures futures[i].recurrenceId.value < futures[j].recurrenceId.value {
      assert Less(ByRecurrenceId(futures[i]), ByRecurrenceId(futures[j]));
    }
  }

  // ----- first pass: classify the parsed events ------------------------------------------

  /** An override is found by its UID and the original start it replaces. */
  datatype OverrideKey = OverrideKey(uid: string, start: int)

  ghost predicate ExactIn(parsed: seq<Event>, exact: map<OverrideKey, Event>) {
    && (forall k :: k in exact ==>
          exact[k] in parsed && exact[k].uid == k.uid && exact[k].recurrenceId == Some(k.start))
    && (forall i :: 0 <= i < |parsed| && !IsMaster(parsed[i]) ==>
          OverrideKey(parsed[i].uid, parsed[i].recurrenceId.value) in exact)
  }

  ghost predicate FuturesIn(parsed: seq<Event>, futureOverrides: map<string, seq<Event>>) {
    forall uid :: Filter(parsed, FutureOf(uid)) == if uid in futureOverrides then futureOverrides[uid] else []
  }

  ghost predicate CancelledIn(parsed: seq<Event>, cancelledMasters: set<string>) {
    forall uid :: uid in cancelledMasters <==> MasterCancelled(parsed, uid)
  }

  method Classify(parsed: seq<Event>)
    returns (exact: map<OverrideKey, Event>, futureOverrides: map<string, seq<Event>>, cancelledMasters: set<string>)
    ensures ExactIn(parsed, exact)
    ensures forall uid :: FutureList(parsed, uid) == if uid in futureOverrides then futureOverrides[uid] else []
    ensures CancelledIn(parsed, cancelledMasters)
  {
    exact, futureOverrides, cancelledMasters := map[], map[], {};
    for k := 0 to |parsed|
      invariant ExactIn(parsed[..k], exact)
      invariant FuturesIn(parsed[..k], futureOverrides)
      invariant CancelledIn(parsed[..k], cancelledMasters)
    {
      var event := parsed[k];
      assert parsed[..k + 1] == parsed[..k] + [event];
      ExactStep(parsed[..k], event, exact);
      FuturesStep(parsed[..k], event, futureOverrides);
      CancelledStep(parsed[..k], event, cancelledMasters);
      if event.recurrenceId.Some? {
        exact := exact[OverrideKey(event.uid, event.recurrenceId.value) := event];
        if event.futures {
          var listed := if event.uid in futureOverrides then futureOverrides[event.uid] else [];
          futureOverrides := futureOverrides[event.uid := listed + [event]];
        }
      } else if event.cancelled {
        cancelledMasters := cancelledMasters + {event.uid};
      }
    }
    assert parsed[..|parsed|] == parsed;
    futureOverrides := map uid | uid in futureOverrides :: Sort(futureOverrides[uid], ByRecurrenceId);
  }

  lemma {:induction false} ExactStep(parsed: seq<Event>, event: Event, exact: map<OverrideKey, Event>)
    requires ExactIn(parsed, exact)
    ensures ExactIn(parsed + [event],
                    if event.recurrenceId.Some? then exact[OverrideKey(event.uid, event.recurrenceId.value) := event]
                    else exact)
  {
  }

  lemma {:induction false} FuturesStep(parsed: seq<Event>, event: Event, futureOverrides: map<string, seq<Event>>)
    requires FuturesIn(parsed, futureOverrides)
    ensures var listed := if event.uid in futureOverrides then futureOverrides[event.uid] else [];
            FuturesIn(parsed + [event],
                      if IsFuture(event, event.uid) then futureOverrides[event.uid := listed + [event]]
                      else futureOverrides)
  {
    forall uid ensures Filter(parsed + [event], FutureOf(uid))
      == Filter(parsed, FutureOf(uid)) + (if IsFuture(event, uid) then [event] else []) {
      FilterAppend(parsed, [event], FutureOf(uid));
      assert Filter([event][1..], FutureOf(uid)) == [];
    }
  }

  lemma {:induction false} CancelledStep(parsed: seq<Event>, event: Event, cancelledMasters: set<string>)
    requires CancelledIn(parsed, cancelledMasters)
    ensures CancelledIn(parsed + [event],
                        if IsMaster(event) && event.cancelled then cancelledMasters + {event.uid} else cancelledMasters)
  {
    forall uid {
      MasterCancelledStep(parsed, event, uid);
    }
  }

  lemma {:induction false} MasterCancelledStep(parsed: seq<Event>, event: Event, uid: string)
    ensures MasterCancelled(parsed + [event], uid)
            <==> MasterCancelled(parsed, uid) || (IsMaster(event) && event.cancelled && event.uid == uid)
  {
    var all := parsed + [event];
    if MasterCancelled(parsed, uid) {
      var i :| 0 <= i < |parsed| && IsMaster(parsed[i]) && parsed[i].cancelled && parsed[i].uid == uid;
      assert all[i] == parsed[i];
    }
    if IsMaster(event) && event.cancelled && event.uid == uid {
      assert all[|parsed|] == event;
    }
  }

  // ----- second pass: expand one series ---------------------------------------------------

  /** What the loop appends for one original start of a series. */
  function Emission(event: Event, exact: map<OverrideKey, Event>, futures: seq<Event>, rangeStart: int, rangeEnd: int,
                    start: int): Option<Occurrence>
    requires FutureOverrides(futures)
    requires forall k :: k in exact ==> exact[k].uid == k.uid && exact[k].recurrenceId == Some(k.start)
  {
    if OverrideKey(event.uid, start) in exact then
      var override := exact[OverrideKey(event.uid, start)];
      if !override.cancelled && Overlaps(override.start, override.end, rangeStart, rangeEnd)
        then Some(OverrideOccurrence(override)) else None
    else
      var instance := Instance(event, futures, start);
      if instance.Some? && Overlaps(instance.value.start, instance.value.end, rangeStart, rangeEnd) then instance
      else None
  }

  method EmitOccurrence(event: Event, exact: map<OverrideKey, Event>, futures: seq<Event>, rangeStart: int,
                        rangeEnd: int, start: int)
    returns (emitted: Option<Occurrence>)
    requires FutureOverrides(futures)
    requires forall k :: k in exact ==> exact[k].uid == k.uid && exact[k].recurrenceId == Some(k.start)
    ensures emitted == Emission(event, exact, futures, rangeStart, rangeEnd, start)
  {
    var overrideKey := OverrideKey(event.uid, start);
    if overrideKey in exact {
      var override := exact[overrideKey];
      if !override.cancelled && Overlaps(override.start, override.end, rangeStart, rangeEnd) {
        return Some(OverrideOccurrence(override));
      }
      return None;
    }
    var index := ApplicableFutureOverride(futures, start);
    if index.Some? {
      var ranged := futures[index.value];
      if !ranged.cancelled {
        var occurrence := ShiftedOccurrence(event, ranged, start);
        if Overlaps(occurrence.start, occurrence.end, rangeStart, rangeEnd) {
          return Some(occurrence);
        }
      }
      return None;
    }
    var occurrence := BaseOccurrence(event, start);
    if Overlaps(occurrence.start, occurrence.end, rangeStart, rangeEnd) {
      return Some(occurrence);
    }
    return None;
  }

  /** The recurrence set's iterator, cut off after `last`: its first member at or after `from`. */
  function NextMember(rule: Option<Rule>, dates: seq<int>, exdates: seq<int>, from: int, last: int): (next: Option<int>)
    requires rule.Some? ==> ValidRule(rule.value)
    ensures next.None? ==> forall t :: from <= t <= last ==> !InSet(rule, dates, exdates, t)
    ensures next.Some? ==> from <= next.value <= last && InSet(rule, dates, exdates, next.value)
                           && forall t :: from <= t < next.value ==> !InSet(rule, dates, exdates, t)
    decreases last - from
  {
    if from > last then None
    else if InSet(rule, dates, exdates, from) then Some(from)
    else NextMember(rule, dates, exdates, from + 1, last)
  }

  function Earliest(dates: seq<int>): (least: int)
    requires dates != []
    ensures forall t :: t in dates ==> least <= t
  {
    if |dates| == 1 then dates[0]
    else
      var rest := Earliest(dates[1..]);
      assert dates == [dates[0]] + dates[1..];
      if dates[0] < rest then dates[0] else rest
  }

  /** No two occurrences share an id. */
  ghost predicate Distinct(result: seq<Occurrence>) {
    forall i, j :: 0 <= i < j < |result| ==> result[i].id != result[j].id
  }

  /** `news` holds what the starts in `starts` emit, once each. */
  ghost predicate Emitted(event: Event, exact: map<OverrideKey, Event>, futures: seq<Event>, rangeStart: int,
                          rangeEnd: int, starts: set<int>, news: seq<Occurrence>)
    requires FutureOverrides(futures)
    requires forall k :: k in exact ==> exact[k].uid == k.uid && exact[k].recurrenceId == Some(k.start)
  {
    && (forall o :: o in news ==> o.id.Stable? && o.id.uid == event.uid && o.id.at in starts
                                  && Emission(event, exact, futures, rangeStart, rangeEnd, o.id.at) == Some(o))
    && (forall s :: s in starts ==> var o := Emission(event, exact, futures, rangeStart, rangeEnd, s); o.Some? ==>
          o.value in news)
    && Distinct(news)
  }

  lemma {:induction false} EmittedStep(event: Event, exact: map<OverrideKey, Event>, futures: seq<Event>,
                                       rangeStart: int, rangeEnd: int, starts: set<int>, news: seq<Occurrence>,
                                       start: int)
    requires FutureOverrides(futures)
    requires forall k :: k in exact ==> exact[k].uid == k.uid && exact[k].recurrenceId == Some(k.start)
    requires Emitted(event, exact, futures, rangeStart, rangeEnd, starts, news) && start !in starts
    ensures var o := Emission(event, exact, futures, rangeStart, rangeEnd, start);
            Emitted(event, exact, futures, rangeStart, rangeEnd, starts + {start},
                    news + if o.Some? then [o.value] else [])
  {
    var o := Emission(event, exact, futures, rangeStart, rangeEnd, start);
    var after := news + if o.Some? then [o.value] else [];
    if o.Some? {
      assert o.value.id == Stable(event.uid, start);
      forall i | 0 <= i < |news| ensures news[i].id != o.value.id {
        assert news[i] in news;
      }
    }
  }

  /** Why an expansion is refused: a series with too many starts in its intervals, too many
      results, or a counted rule with too much to skip. */
  datatype Refusal =
    | TooManyStarts(uid: string, starts: set<int>)
    | TooManyResults(result: seq<Occurrence>)
    | TooMuchWork(uid: string)

  /** A counted rule with selectors and too many occurrences to skip before this instant. */
  predicate Overworked(event: Event, from: int) {
    && event.rule.Some? && event.rule.value.pattern.Some? && event.rule.value.count != 0
    && Selected(event.rule.value.pattern.value, event.start, from) > MAX_FAST_FORWARD_WORK
  }

  /** That many before the start of one of these intervals. */
  ghost predicate OverworkedBefore(event: Event, intervals: seq<Interval>) {
    exists from :: StartsAt(intervals, from) && Overworked(event, from)
  }

  /** The work of one series: the starts visited, the overrides used, and the output. */
  /** The occurrences of series and overrides, which the limit is for; single events are not
      counted against it. */
  ghost function Instances(result: seq<Occurrence>): set<Occurrence> {
    set o | o in result && o.recurrenceId.Some?
  }

  lemma {:induction false} InstancesCount(result: seq<Occurrence>)
    ensures |Instances(result)| <= |result|
  {
    if result != [] {
      var before, last := result[..|result| - 1], result[|result| - 1];
      InstancesCount(before);
      assert result == before + [last];
      assert Instances(result) <= Instances(before) + {last};
      Cardinality(Instances(result), Instances(before) + {last});
    }
  }

  lemma {:induction false} Cardinality<T>(a: set<T>, b: set<T>)
    requires a <= b
    ensures |a| <= |b|
    decreases |a|
  {
    if a != {} {
      var x :| x in a;
      Cardinality(a - {x}, b - {x});
    }
  }

  /** At most 10000 of them, and of starts visited. */
  ghost predicate WithinLimit(generated: nat, result: seq<Occurrence>) {
    generated <= 10000 && |Instances(result)| <= 10000
  }

  datatype Progress = Progress(starts: set<int>, consumed: set<OverrideKey>, generated: nat, result: seq<Occurrence>)

  ghost predicate ProgressFrom(before: Progress, event: Event, exact: map<OverrideKey, Event>, futures: seq<Event>,
                               rangeStart: int, rangeEnd: int, now: Progress)
    requires FutureOverrides(futures)
    requires forall k :: k in exact ==> exact[k].uid == k.uid && exact[k].recurrenceId == Some(k.start)
  {
    && |before.result| <= |now.result| && now.result[..|before.result|] == before.result
    && Emitted(event, exact, futures, rangeStart, rangeEnd, now.starts, now.result[|before.result|..])
    && now.generated == |now.starts|
    && (forall k ::
          k in now.consumed <==> k in before.consumed || (k in exact && k.uid == event.uid && k.start in now.starts))
  }

  lemma {:induction false} ProgressStep(before: Progress, event: Event, exact: map<OverrideKey, Event>,
                                        futures: seq<Event>, rangeStart: int, rangeEnd: int, now: Progress, start: int,
                                        next: Progress)
    requires FutureOverrides(futures)
    requires forall k :: k in exact ==> exact[k].uid == k.uid && exact[k].recurrenceId == Some(k.start)
    requires ProgressFrom(before, event, exact, futures, rangeStart, rangeEnd, now) && start !in now.starts
    requires next.starts == now.starts + {start} && next.generated == now.generated + 1
    requires next.consumed == if OverrideKey(event.uid, start) in exact
             then now.consumed + {OverrideKey(event.uid, start)} else now.consumed
    requires var o := Emission(event, exact, futures, rangeStart, rangeEnd, start);
             next.result == now.result + if o.Some? then [o.value] else []
    ensures ProgressFrom(before, event, exact, futures, rangeStart, rangeEnd, next)
  {
    var o := Emission(event, exact, futures, rangeStart, rangeEnd, start);
    var n := |before.result|;
    EmittedStep(event, exact, futures, rangeStart, rangeEnd, now.starts, now.result[n..], start);
    assert next.result[n..] == now.result[n..] + if o.Some? then [o.value] else [];
    forall k ensures k in next.consumed
      <==> k in before.consumed || (k in exact && k.uid == event.uid && k.start in next.starts) { }
  }

  /** The rule to iterate for one interval; nothing at or after its start is lost or added. */
  method WindowRule(event: Event, from: int) returns (r: Result<Option<Rule>, Refusal>)
    requires ValidEvent(event)
    ensures r.Ok? ==> (r.value.Some? ==> ValidRule(r.value.value))
    ensures r.Ok? ==> forall s :: s >= from ==>
              (InSet(r.value, RecurrenceDates(event), event.exdates, s) <==> Recurs(event, s))
    ensures r.Err? ==> r.error == TooMuchWork(event.uid) && Overworked(event, from)
  {
    if event.rule.None? {
      return Ok(None);
    }
    var forwarded := FastForwardRule(event.rule.value.(dtstart := event.start), from);
    match forwarded {
      case Shifted(rule) => return Ok(Some(rule));
      case Exhausted => return Ok(None);
      case WorkLimit => return Err(TooMuchWork(event.uid));
    }
  }

  /** Beyond the ones known before, only members of the series inside the intervals. */
  ghost predicate StartsWithin(event: Event, intervals: seq<Interval>, known: set<int>, starts: set<int>)
    requires ValidEvent(event)
  {
    forall s :: s in starts ==> s in known || (Recurs(event, s) && Covered(intervals, s))
  }

  /** A refusal is justified by the starts and results of an actual expansion. */
  ghost predicate Refused(event: Event, exact: map<OverrideKey, Event>, futures: seq<Event>, rangeStart: int,
                          rangeEnd: int, intervals: seq<Interval>, before: Progress, progress: Progress,
                          refusal: Refusal, stopped: Progress)
    requires ValidEvent(event) && FutureOverrides(futures)
    requires forall k :: k in exact ==> exact[k].uid == k.uid && exact[k].recurrenceId == Some(k.start)
  {
    match refusal
    case TooMuchWork(uid) => uid == event.uid && OverworkedBefore(event, intervals)
    case TooManyStarts(uid, starts) =>
      uid == event.uid && |starts| > MAX_OCCURRENCES && StartsWithin(event, intervals, progress.starts, starts)
    case TooManyResults(result) =>
      && |result| >= MAX_OCCURRENCES && result == stopped.result
      && ProgressFrom(before, event, exact, futures, rangeStart, rangeEnd, stopped)
      && StartsWithin(event, intervals, progress.starts, stopped.starts)
  }

  method ExpandInterval(event: Event, exact: map<OverrideKey, Event>, futures: seq<Event>, rangeStart: int,
                        rangeEnd: int, interval: Interval, ghost before: Progress, progress: Progress)
    returns (r: Result<Progress, Refusal>, ghost stopped: Progress)
    requires ValidEvent(event) && FutureOverrides(futures)
    requires forall k :: k in exact ==> exact[k].uid == k.uid && exact[k].recurrenceId == Some(k.start)
    requires ProgressFrom(before, event, exact, futures, rangeStart, rangeEnd, progress)
    requires WithinLimit(progress.generated, progress.result)
    ensures r.Ok? ==> ProgressFrom(before, event, exact, futures, rangeStart, rangeEnd, r.value)
    ensures r.Ok? ==> WithinLimit(r.value.generated, r.value.result)
    ensures r.Ok? ==>
              forall s ::
                s in r.value.starts <==> s in progress.starts || (Recurs(event, s) && Contains(interval, s))
    ensures r.Err? ==>
              Refused(event, exact, futures, rangeStart, rangeEnd, [interval], before, progress, r.error, stopped)
  {
    stopped := progress;
    var window := WindowRule(event, interval.start);
    if window.Err? {
      assert [interval][0].start == interval.start;
      r := Err(window.error);
      return;
    }
    assert forall s :: Contains(interval, s) ==> Contains([interval][0], s);
    var dates := RecurrenceDates(event);
    assert event.start in dates;
    var cursor := Earliest(dates);
    var now := progress;
    EarliestMember(event, cursor);
    while true
      invariant ProgressFrom(before, event, exact, futures, rangeStart, rangeEnd, now)
      invariant WithinLimit(now.generated, now.result)
      invariant forall s ::
                  s in now.starts <==> s in progress.starts || (Recurs(event, s) && Contains(interval, s) && s < cursor)
      decreases interval.end - cursor
    {
      var next := NextMember(window.value, dates, event.exdates, cursor, interval.end);
      if next.None? {
        r := Ok(now);
        return;
      }
      var occurrenceStart := next.value;
      cursor := occurrenceStart + 1;
      if occurrenceStart < interval.start || occurrenceStart in now.starts {
        continue;
      }
      if now.generated + 1 > MAX_OCCURRENCES {
        r := Err(TooManyStarts(event.uid, now.starts + {occurrenceStart}));
        return;
      }
      if |now.result| >= MAX_OCCURRENCES {
        stopped := now;
        r := Err(TooManyResults(now.result));
        return;
      }
      var consumed := if OverrideKey(event.uid, occurrenceStart) in exact
          then now.consumed + {OverrideKey(event.uid, occurrenceStart)} else now.consumed;
      var emitted := EmitOccurrence(event, exact, futures, rangeStart, rangeEnd, occurrenceStart);
      var following := Progress(now.starts + {occurrenceStart}, consumed, now.generated + 1,
                                now.result + if emitted.Some? then [emitted.value] else []);
      ProgressStep(before, event, exact, futures, rangeStart, rangeEnd, now, occurrenceStart, following);
      InstancesCount(following.result);
      now := following;
    }
  }

  lemma {:induction false} EarliestMember(event: Event, cursor: int)
    requires ValidEvent(event) && cursor == Earliest(RecurrenceDates(event))
    ensures forall s :: Recurs(event, s) ==> cursor <= s
  {
    assert event.start in RecurrenceDates(event);
  }

  /** A refusal in one interval is one of the series. */
  lemma {:induction false} SeriesRefused(event: Event, exact: map<OverrideKey, Event>, futures: seq<Event>,
                                         rangeStart: int, rangeEnd: int, intervals: seq<Interval>, i: nat,
                                         before: Progress, now: Progress, refusal: Refusal, stopped: Progress)
    requires ValidEvent(event) && FutureOverrides(futures) && i < |intervals|
    requires forall k :: k in exact ==> exact[k].uid == k.uid && exact[k].recurrenceId == Some(k.start)
    requires Refused(event, exact, futures, rangeStart, rangeEnd, [intervals[i]], before, now, refusal, stopped)
    requires forall s :: s in now.starts ==> Recurs(event, s) && Covered(intervals[..i], s)
    requires forall t :: Covered(intervals, t) <==> Covered(CandidateIntervals(event, futures, rangeStart, rangeEnd), t)
    requires StartsAt(CandidateIntervals(event, futures, rangeStart, rangeEnd), intervals[i].start)
    ensures Refused(event, exact, futures, rangeStart, rangeEnd,
                    CandidateIntervals(event, futures, rangeStart, rangeEnd), before, before, refusal, stopped)
  {
    forall t | Covered(intervals[..i], t) || Covered([intervals[i]], t) ensures Covered(intervals, t) {
      if Covered([intervals[i]], t) {
        assert Contains(intervals[i], t);
      } else {
        var j :| 0 <= j < i && Contains(intervals[..i][j], t);
        assert Contains(intervals[j], t);
      }
    }
  }

  method ExpandSeries(event: Event, exact: map<OverrideKey, Event>, futures: seq<Event>, rangeStart: int, rangeEnd: int,
                      consumed: set<OverrideKey>, result: seq<Occurrence>)
    returns (r: Result<Progress, Refusal>, ghost stopped: Progress)
    requires ValidEvent(event) && FutureOverrides(futures)
    requires forall k :: k in exact ==> exact[k].uid == k.uid && exact[k].recurrenceId == Some(k.start)
    requires |Instances(result)| <= 10000
    ensures r.Ok? ==> |r.value.starts| <= 10000 && |Instances(r.value.result)| <= 10000
    ensures r.Ok? ==>
              ProgressFrom(Progress({}, consumed, 0, result), event, exact, futures, rangeStart, rangeEnd, r.value)
    ensures r.Ok? ==>
              forall s ::
                s in r.value.starts
                <==> Recurs(event, s) && Covered(CandidateIntervals(event, futures, rangeStart, rangeEnd), s)
    ensures r.Err? ==> var start := Progress({}, consumed, 0, result);
                       Refused(event, exact, futures, rangeStart, rangeEnd,
                               CandidateIntervals(event, futures, rangeStart, rangeEnd),
                               start, start, r.error, stopped)
  {
    var intervals := RecurrenceCandidateIntervals(event, futures, rangeStart, rangeEnd);
    var before := Progress({}, consumed, 0, result);
    var now := before;
    stopped := before;
    assert before.result[|before.result|..] == [];
    for i := 0 to |intervals|
      invariant ProgressFrom(before, event, exact, futures, rangeStart, rangeEnd, now)
      invariant WithinLimit(now.generated, now.result)
      invariant forall s :: s in now.starts <==> Recurs(event, s) && Covered(intervals[..i], s)
    {
      r, stopped := ExpandInterval(event, exact, futures, rangeStart, rangeEnd, intervals[i], before, now);
      if r.Err? {
        SeriesRefused(event, exact, futures, rangeStart, rangeEnd, intervals, i, before, now, r.error, stopped);
        return;
      }
      now := r.value;
      assert intervals[..i + 1] == intervals[..i] + [intervals[i]];
      CoveredStep(intervals[..i], intervals[i]);
    }
    assert intervals[..|intervals|] == intervals;
    r := Ok(now);
  }

  // ----- the whole range ------------------------------------------------------------------

  /** Output and visited starts of the first k events are accounted for. */
  ghost predicate Sound(parsed: seq<Event>, exact: map<OverrideKey, Event>, rangeStart: int, rangeEnd: int, k: nat,
                        visited: set<OverrideKey>, result: seq<Occurrence>)
    requires ValidCalendar(parsed) && ExactIn(parsed, exact) && k <= |parsed|
  {
    && (forall o :: o in result ==>
          if o.id.Plain? then OfSingle(parsed, rangeStart, rangeEnd, k, o)
          else OverrideKey(o.id.uid, o.id.at) in visited && OfSeries(parsed, exact, rangeStart, rangeEnd, k, o))
    && (forall v :: v in visited ==> VisitedBy(parsed, k, v))
    && Distinct(result)
  }

  ghost predicate OfSingle(parsed: seq<Event>, rangeStart: int, rangeEnd: int, k: nat, o: Occurrence)
    requires k <= |parsed|
  {
    exists i :: 0 <= i < k && IsSingle(parsed[i]) && !parsed[i].cancelled
                && o == SingleOccurrence(parsed[i]) && Visible(o, rangeStart, rangeEnd)
  }

  ghost predicate OfSeries(parsed: seq<Event>, exact: map<OverrideKey, Event>, rangeStart: int, rangeEnd: int, k: nat,
                           o: Occurrence)
    requires ValidCalendar(parsed) && ExactIn(parsed, exact) && k <= |parsed| && o.id.Stable?
  {
    exists i :: 0 <= i < k && IsSeries(parsed[i]) && !parsed[i].cancelled && parsed[i].uid == o.id.uid
                && FutureOverrides(FutureList(parsed, o.id.uid))
                && Emission(parsed[i], exact, FutureList(parsed, o.id.uid), rangeStart, rangeEnd, o.id.at) == Some(o)
  }

  ghost predicate VisitedBy(parsed: seq<Event>, k: nat, v: OverrideKey)
    requires ValidCalendar(parsed) && k <= |parsed|
  {
    exists i :: 0 <= i < k && IsSeries(parsed[i]) && !parsed[i].cancelled && parsed[i].uid == v.uid
      && Recurs(parsed[i], v.start)
  }

  /** Everything the first k events must produce has been produced. */
  ghost predicate Complete(parsed: seq<Event>, exact: map<OverrideKey, Event>, rangeStart: int, rangeEnd: int, k: nat,
                           visited: set<OverrideKey>, result: seq<Occurrence>)
    requires ValidCalendar(parsed) && ExactIn(parsed, exact) && k <= |parsed|
  {
    forall i :: 0 <= i < k && !parsed[i].cancelled ==>
      && (IsSingle(parsed[i]) && Visible(SingleOccurrence(parsed[i]), rangeStart, rangeEnd) ==>
            SingleOccurrence(parsed[i]) in result)
      && (IsSeries(parsed[i]) ==> SeriesComplete(parsed, exact, rangeStart, rangeEnd, parsed[i], visited, result))
  }

  ghost predicate SeriesComplete(parsed: seq<Event>, exact: map<OverrideKey, Event>, rangeStart: int, rangeEnd: int,
                                 event: Event, visited: set<OverrideKey>, result: seq<Occurrence>)
    requires ValidCalendar(parsed) && ExactIn(parsed, exact) && ValidEvent(event)
  {
    var futures := FutureList(parsed, event.uid);
    && FutureOverrides(futures)
    && (forall s :: Recurs(event, s) && Covered(CandidateIntervals(event, futures, rangeStart, rangeEnd), s) ==>
          OverrideKey(event.uid, s) in visited)
    && (forall s :: OverrideKey(event.uid, s) in visited ==>
          var o := Emission(event, exact, futures, rangeStart, rangeEnd, s); o.Some? ==> o.value in result)
  }

  function Visits(uid: string, starts: set<int>): set<OverrideKey> {
    set s | s in starts :: OverrideKey(uid, s)
  }

  lemma {:induction false} VisitsMembers(uid: string, starts: set<int>)
    ensures forall v :: v in Visits(uid, starts) <==> v.uid == uid && v.start in starts
  {
  }

  lemma {:induction false} SingleStep(parsed: seq<Event>, exact: map<OverrideKey, Event>, rangeStart: int,
                                      rangeEnd: int, k: nat, visited: set<OverrideKey>, result: seq<Occurrence>,
                                      next: seq<Occurrence>)
    requires ValidCalendar(parsed) && ExactIn(parsed, exact) && k < |parsed|
    requires Sound(parsed, exact, rangeStart, rangeEnd, k, visited, result)
    requires var o := SingleOccurrence(parsed[k]);
             next == if IsSingle(parsed[k]) && !parsed[k].cancelled && Visible(o, rangeStart, rangeEnd)
               then result + [o] else result
    ensures Sound(parsed, exact, rangeStart, rangeEnd, k + 1, visited, next)
  {
    SoundAhead(parsed, exact, rangeStart, rangeEnd, k, visited, result);
    if next != result {
      forall i | 0 <= i < |result| ensures result[i].id != Plain(parsed[k].uid) {
        assert result[i] in result;
      }
    }
  }

  lemma {:induction false} SoundAhead(parsed: seq<Event>, exact: map<OverrideKey, Event>, rangeStart: int,
                                      rangeEnd: int, k: nat, visited: set<OverrideKey>, result: seq<Occurrence>)
    requires ValidCalendar(parsed) && ExactIn(parsed, exact) && k < |parsed|
    requires Sound(parsed, exact, rangeStart, rangeEnd, k, visited, result)
    ensures Sound(parsed, exact, rangeStart, rangeEnd, k + 1, visited, result)
  {
    forall o | o in result && o.id.Plain? ensures OfSingle(parsed, rangeStart, rangeEnd, k + 1, o) { }
    forall o | o in result && o.id.Stable? ensures OfSeries(parsed, exact, rangeStart, rangeEnd, k + 1, o) { }
    forall v | v in visited ensures VisitedBy(parsed, k + 1, v) { }
  }

  /** A series uses ids no earlier event has used. */
  lemma {:induction false} SeriesIds(parsed: seq<Event>, exact: map<OverrideKey, Event>, rangeStart: int, rangeEnd: int,
                                     k: nat, visited: set<OverrideKey>, earlier: seq<Occurrence>, news: seq<Occurrence>)
    requires ValidCalendar(parsed) && ExactIn(parsed, exact) && k < |parsed| && IsMaster(parsed[k])
    requires Sound(parsed, exact, rangeStart, rangeEnd, k, visited, earlier)
    requires Distinct(news) && forall o :: o in news ==> o.id.uid == parsed[k].uid
    ensures Distinct(earlier + news)
  {
    forall i | 0 <= i < |earlier| ensures earlier[i].id.uid != parsed[k].uid {
      OldId(parsed, exact, rangeStart, rangeEnd, k, visited, earlier, i);
    }
    forall j | 0 <= j < |news| ensures news[j].id.uid == parsed[k].uid {
      assert news[j] in news;
    }
  }

  /** A series adds only what it may. */
  lemma {:induction false} SeriesSound(parsed: seq<Event>, exact: map<OverrideKey, Event>, rangeStart: int,
                                       rangeEnd: int, k: nat, visited: set<OverrideKey>, before: Progress,
                                       now: Progress)
    requires ValidCalendar(parsed) && ExactIn(parsed, exact) && k < |parsed| && IsSeries(parsed[k])
    requires !parsed[k].cancelled
    requires Sound(parsed, exact, rangeStart, rangeEnd, k, visited, before.result)
    requires FutureOverrides(FutureList(parsed, parsed[k].uid))
    requires ProgressFrom(before, parsed[k], exact, FutureList(parsed, parsed[k].uid), rangeStart, rangeEnd, now)
    requires forall s :: s in now.starts ==> Recurs(parsed[k], s)
    ensures Sound(parsed, exact, rangeStart, rangeEnd, k + 1, visited + Visits(parsed[k].uid, now.starts), now.result)
  {
    var uid := parsed[k].uid;
    var all := visited + Visits(uid, now.starts);
    var news := now.result[|before.result|..];
    assert now.result == before.result + news;
    SoundAhead(parsed, exact, rangeStart, rangeEnd, k, visited, before.result);
    SeriesIds(parsed, exact, rangeStart, rangeEnd, k, visited, before.result, news);
    forall o | o in news ensures OverrideKey(o.id.uid, o.id.at) in all
      && OfSeries(parsed, exact, rangeStart, rangeEnd, k + 1, o) { }
    forall v | v in all ensures VisitedBy(parsed, k + 1, v) { }
  }

  lemma {:induction false} OldId(parsed: seq<Event>, exact: map<OverrideKey, Event>, rangeStart: int, rangeEnd: int,
                                 k: nat, visited: set<OverrideKey>, result: seq<Occurrence>, i: nat)
    requires ValidCalendar(parsed) && ExactIn(parsed, exact) && k < |parsed| && IsMaster(parsed[k])
    requires Sound(parsed, exact, rangeStart, rangeEnd, k, visited, result) && i < |result|
    ensures result[i].id.uid != parsed[k].uid
  {
    assert result[i] in result;
  }

  /** Output and starts of other series do not disturb a complete one. */
  lemma {:induction false} SeriesCompleteGrows(parsed: seq<Event>, exact: map<OverrideKey, Event>, rangeStart: int,
                                               rangeEnd: int, event: Event, visited: set<OverrideKey>,
                                               result: seq<Occurrence>, all: set<OverrideKey>, next: seq<Occurrence>)
    requires ValidCalendar(parsed) && ExactIn(parsed, exact) && ValidEvent(event)
    requires SeriesComplete(parsed, exact, rangeStart, rangeEnd, event, visited, result)
    requires visited <= all && forall s :: OverrideKey(event.uid, s) in all ==> OverrideKey(event.uid, s) in visited
    requires forall o :: o in result ==> o in next
    ensures SeriesComplete(parsed, exact, rangeStart, rangeEnd, event, all, next)
  {
  }

  /** The series just expanded is complete. */
  lemma {:induction false} NewSeriesComplete(parsed: seq<Event>, exact: map<OverrideKey, Event>, rangeStart: int,
                                             rangeEnd: int, k: nat, visited: set<OverrideKey>, before: Progress,
                                             now: Progress)
    requires ValidCalendar(parsed) && ExactIn(parsed, exact) && k < |parsed| && IsSeries(parsed[k])
    requires !parsed[k].cancelled
    requires Sound(parsed, exact, rangeStart, rangeEnd, k, visited, before.result)
    requires FutureOverrides(FutureList(parsed, parsed[k].uid))
    requires ProgressFrom(before, parsed[k], exact, FutureList(parsed, parsed[k].uid), rangeStart, rangeEnd, now)
    requires forall s :: s in now.starts <==>
               (Recurs(parsed[k], s)
                && Covered(CandidateIntervals(parsed[k], FutureList(parsed, parsed[k].uid), rangeStart, rangeEnd), s))
    ensures SeriesComplete(parsed, exact, rangeStart, rangeEnd, parsed[k], visited + Visits(parsed[k].uid, now.starts),
                           now.result)
  {
    var uid := parsed[k].uid;
    assert now.result == before.result + now.result[|before.result|..];
    forall s ensures OverrideKey(uid, s) in visited ==> VisitedBy(parsed, k, OverrideKey(uid, s)) { }
  }

  lemma {:induction false} SeriesCompletes(parsed: seq<Event>, exact: map<OverrideKey, Event>, rangeStart: int,
                                           rangeEnd: int, k: nat, visited: set<OverrideKey>, before: Progress,
                                           now: Progress)
    requires ValidCalendar(parsed) && ExactIn(parsed, exact) && k < |parsed| && IsSeries(parsed[k])
    requires !parsed[k].cancelled
    requires Sound(parsed, exact, rangeStart, rangeEnd, k, visited, before.result)
    requires Complete(parsed, exact, rangeStart, rangeEnd, k, visited, before.result)
    requires FutureOverrides(FutureList(parsed, parsed[k].uid))
    requires ProgressFrom(before, parsed[k], exact, FutureList(parsed, parsed[k].uid), rangeStart, rangeEnd, now)
    requires forall s :: s in now.starts <==>
               (Recurs(parsed[k], s)
                && Covered(CandidateIntervals(parsed[k], FutureList(parsed, parsed[k].uid), rangeStart, rangeEnd), s))
    ensures Complete(parsed, exact, rangeStart, rangeEnd, k + 1, visited + Visits(parsed[k].uid, now.starts),
                     now.result)
  {
    var all := visited + Visits(parsed[k].uid, now.starts);
    NewSeriesComplete(parsed, exact, rangeStart, rangeEnd, k, visited, before, now);
    assert now.result == before.result + now.result[|before.result|..];
    forall i | 0 <= i < k && IsSeries(parsed[i]) && !parsed[i].cancelled
      ensures SeriesComplete(parsed, exact, rangeStart, rangeEnd, parsed[i], all, now.result)
    {
      assert parsed[i].uid != parsed[k].uid;
      SeriesCompleteGrows(parsed, exact, rangeStart, rangeEnd, parsed[i], visited, before.result, all, now.result);
    }
  }

  /** What a visited start emits is a series instance or an override of a live master. */
  lemma {:induction false} EmissionExpected(parsed: seq<Event>, exact: map<OverrideKey, Event>, rangeStart: int,
                                            rangeEnd: int, i: nat, o: Occurrence)
    requires ValidCalendar(parsed) && ExactIn(parsed, exact)
    requires i < |parsed| && IsSeries(parsed[i]) && !parsed[i].cancelled && o.id.Stable? && o.id.uid == parsed[i].uid
    requires FutureOverrides(FutureList(parsed, parsed[i].uid)) && Recurs(parsed[i], o.id.at)
    requires Emission(parsed[i], exact, FutureList(parsed, parsed[i].uid), rangeStart, rangeEnd, o.id.at) == Some(o)
    ensures Visible(o, rangeStart, rangeEnd) && (FromSeries(parsed, o) || FromOverride(parsed, o))
  {
    var key := OverrideKey(o.id.uid, o.id.at);
    if key in exact {
      var override := exact[key];
      var j :| 0 <= j < |parsed| && parsed[j] == override;
      assert !MasterCancelled(parsed, override.uid);
      assert FromOverride(parsed, o);
    } else {
      assert !HasExactOverride(parsed, parsed[i].uid, o.id.at);
      assert FromSeries(parsed, o);
    }
  }

  /** Whatever the series pass has emitted belongs to the naive expansion. */
  lemma {:induction false} SoundExpected(parsed: seq<Event>, exact: map<OverrideKey, Event>, rangeStart: int,
                                         rangeEnd: int, k: nat, visited: set<OverrideKey>, result: seq<Occurrence>,
                                         o: Occurrence)
    requires ValidCalendar(parsed) && ExactIn(parsed, exact) && k <= |parsed|
    requires Sound(parsed, exact, rangeStart, rangeEnd, k, visited, result) && o in result
    ensures Expected(parsed, rangeStart, rangeEnd, o)
  {
    if o.id.Plain? {
      assert OfSingle(parsed, rangeStart, rangeEnd, k, o);
      assert FromSingle(parsed, o);
    } else {
      assert OfSeries(parsed, exact, rangeStart, rangeEnd, k, o)
             && VisitedBy(parsed, k, OverrideKey(o.id.uid, o.id.at));
      var i :| 0 <= i < k && IsSeries(parsed[i]) && !parsed[i].cancelled && parsed[i].uid == o.id.uid
               && FutureOverrides(FutureList(parsed, o.id.uid))
               && Emission(parsed[i], exact, FutureList(parsed, o.id.uid), rangeStart, rangeEnd, o.id.at) == Some(o);
      EmissionExpected(parsed, exact, rangeStart, rangeEnd, i, o);
    }
  }

  /** The detached overrides appended after the series: those not used as exact overrides. */
  ghost predicate Detached(parsed: seq<Event>, rangeStart: int, rangeEnd: int, consumed: set<OverrideKey>, i: nat)
    requires i < |parsed|
  {
    && !IsMaster(parsed[i]) && !parsed[i].cancelled && !MasterCancelled(parsed, parsed[i].uid)
    && OverrideKey(parsed[i].uid, parsed[i].recurrenceId.value) !in consumed
    && Visible(OverrideOccurrence(parsed[i]), rangeStart, rangeEnd)
  }

  ghost predicate Appended(parsed: seq<Event>, rangeStart: int, rangeEnd: int, consumed: set<OverrideKey>, k: nat,
                           extra: seq<Occurrence>)
    requires k <= |parsed|
  {
    && (forall o :: o in extra ==>
          exists i ::
            0 <= i < k && Detached(parsed, rangeStart, rangeEnd, consumed, i) && o == OverrideOccurrence(parsed[i]))
    && (forall i :: 0 <= i < k && Detached(parsed, rangeStart, rangeEnd, consumed, i) ==>
          OverrideOccurrence(parsed[i]) in extra)
    && Distinct(extra)
  }

  lemma {:induction false} AppendedStep(parsed: seq<Event>, rangeStart: int, rangeEnd: int, consumed: set<OverrideKey>,
                                        k: nat, extra: seq<Occurrence>)
    requires ValidCalendar(parsed) && k < |parsed| && Appended(parsed, rangeStart, rangeEnd, consumed, k, extra)
    ensures Appended(parsed, rangeStart, rangeEnd, consumed, k + 1,
                     if Detached(parsed, rangeStart, rangeEnd, consumed, k) then extra + [OverrideOccurrence(parsed[k])]
                     else extra)
  {
    if Detached(parsed, rangeStart, rangeEnd, consumed, k) {
      var o := OverrideOccurrence(parsed[k]);
      forall i | 0 <= i < |extra| ensures extra[i].id != o.id {
        assert extra[i] in extra;
      }
      assert Distinct(extra + [o]);
    }
  }

  /** The series part and the detached part together are exactly the naive expansion. */
  lemma {:induction false} WindowedIsNaive(parsed: seq<Event>, exact: map<OverrideKey, Event>, rangeStart: int,
                                           rangeEnd: int, visited: set<OverrideKey>, consumed: set<OverrideKey>,
                                           result: seq<Occurrence>, extra: seq<Occurrence>)
    requires ValidCalendar(parsed) && ExactIn(parsed, exact)
    requires Sound(parsed, exact, rangeStart, rangeEnd, |parsed|, visited, result)
    requires Complete(parsed, exact, rangeStart, rangeEnd, |parsed|, visited, result)
    requires forall v :: v in consumed <==> v in visited && v in exact
    requires Appended(parsed, rangeStart, rangeEnd, consumed, |parsed|, extra)
    ensures forall o :: o in result + extra <==> Expected(parsed, rangeStart, rangeEnd, o)
  {
    forall o | o in result + extra ensures Expected(parsed, rangeStart, rangeEnd, o) {
      if o in result {
        SoundExpected(parsed, exact, rangeStart, rangeEnd, |parsed|, visited, result, o);
      } else {
        assert FromOverride(parsed, o);
      }
    }
    forall o | Expected(parsed, rangeStart, rangeEnd, o) ensures o in result + extra {
      if FromSeries(parsed, o) {
        var i, start :| 0 <= i < |parsed| && IsSeries(parsed[i]) && !parsed[i].cancelled
          && Recurs(parsed[i], start) && !HasExactOverride(parsed, parsed[i].uid, start)
          && FutureOverrides(FutureList(parsed, parsed[i].uid))
          && Instance(parsed[i], FutureList(parsed, parsed[i].uid), start) == Some(o);
        InstanceCovered(parsed[i], FutureList(parsed, parsed[i].uid), rangeStart, rangeEnd, start);
        assert SeriesComplete(parsed, exact, rangeStart, rangeEnd, parsed[i], visited, result);
        NotExact(parsed, exact, parsed[i].uid, start);
        assert Emission(parsed[i], exact, FutureList(parsed, parsed[i].uid), rangeStart, rangeEnd, start) == Some(o);
      } else if FromOverride(parsed, o) {
        var i :| 0 <= i < |parsed| && !IsMaster(parsed[i]) && !parsed[i].cancelled
                 && !MasterCancelled(parsed, parsed[i].uid) && o == OverrideOccurrence(parsed[i]);
        OverrideOutput(parsed, exact, rangeStart, rangeEnd, visited, consumed, result, extra, i);
      }
    }
  }

  lemma {:induction false} NotExact(parsed: seq<Event>, exact: map<OverrideKey, Event>, uid: string, start: int)
    requires ExactIn(parsed, exact)
    ensures OverrideKey(uid, start) in exact ==> HasExactOverride(parsed, uid, start)
  {
    if OverrideKey(uid, start) in exact {
      var i :| 0 <= i < |parsed| && parsed[i] == exact[OverrideKey(uid, start)];
    }
  }

  /** The override recorded for a key is the only one in the calendar. */
  lemma {:induction false} ExactIsUnique(parsed: seq<Event>, exact: map<OverrideKey, Event>, i: nat)
    requires ValidCalendar(parsed) && ExactIn(parsed, exact) && i < |parsed| && !IsMaster(parsed[i])
    ensures exact[OverrideKey(parsed[i].uid, parsed[i].recurrenceId.value)] == parsed[i]
  {
    var found := exact[OverrideKey(parsed[i].uid, parsed[i].recurrenceId.value)];
    var j :| 0 <= j < |parsed| && parsed[j] == found;
  }

  /** A visited start with an exact override has put that override into the result. */
  lemma {:induction false} ConsumedOutput(parsed: seq<Event>, exact: map<OverrideKey, Event>, rangeStart: int,
                                          rangeEnd: int, visited: set<OverrideKey>, result: seq<Occurrence>,
                                          key: OverrideKey)
    requires ValidCalendar(parsed) && ExactIn(parsed, exact)
    requires Complete(parsed, exact, rangeStart, rangeEnd, |parsed|, visited, result)
    requires key in visited && key in exact && VisitedBy(parsed, |parsed|, key)
    requires !exact[key].cancelled && Visible(OverrideOccurrence(exact[key]), rangeStart, rangeEnd)
    ensures OverrideOccurrence(exact[key]) in result
  {
    var m :| 0 <= m < |parsed| && IsSeries(parsed[m]) && !parsed[m].cancelled && parsed[m].uid == key.uid
        && Recurs(parsed[m], key.start);
    assert key == OverrideKey(parsed[m].uid, key.start);
    assert SeriesComplete(parsed, exact, rangeStart, rangeEnd, parsed[m], visited, result);
    assert Emission(parsed[m], exact, FutureList(parsed, parsed[m].uid), rangeStart, rangeEnd, key.start)
           == Some(OverrideOccurrence(exact[key]));
  }

  /** An override reaches the output, through its series or as a detached event. */
  lemma {:induction false} OverrideOutput(parsed: seq<Event>, exact: map<OverrideKey, Event>, rangeStart: int,
                                          rangeEnd: int, visited: set<OverrideKey>, consumed: set<OverrideKey>,
                                          result: seq<Occurrence>, extra: seq<Occurrence>, i: nat)
    requires ValidCalendar(parsed) && ExactIn(parsed, exact)
    requires forall v :: v in visited ==> VisitedBy(parsed, |parsed|, v)
    requires Complete(parsed, exact, rangeStart, rangeEnd, |parsed|, visited, result)
    requires forall v :: v in consumed <==> v in visited && v in exact
    requires Appended(parsed, rangeStart, rangeEnd, consumed, |parsed|, extra)
    requires i < |parsed| && !IsMaster(parsed[i]) && !parsed[i].cancelled && !MasterCancelled(parsed, parsed[i].uid)
    requires Visible(OverrideOccurrence(parsed[i]), rangeStart, rangeEnd)
    ensures OverrideOccurrence(parsed[i]) in result + extra
  {
    var key := OverrideKey(parsed[i].uid, parsed[i].recurrenceId.value);
    if key in consumed {
      ExactIsUnique(parsed, exact, i);
      ConsumedOutput(parsed, exact, rangeStart, rangeEnd, visited, result, key);
    } else {
      assert Detached(parsed, rangeStart, rangeEnd, consumed, i);
    }
  }

  /** Nothing is emitted both by a series and as a detached override. */
  lemma {:induction false} PartsDistinct(parsed: seq<Event>, exact: map<OverrideKey, Event>, rangeStart: int,
                                         rangeEnd: int, k: nat, visited: set<OverrideKey>, consumed: set<OverrideKey>,
                                         result: seq<Occurrence>, extra: seq<Occurrence>)
    requires ValidCalendar(parsed) && ExactIn(parsed, exact) && k <= |parsed|
    requires Sound(parsed, exact, rangeStart, rangeEnd, |parsed|, visited, result)
    requires forall v :: v in consumed <==> v in visited && v in exact
    requires Appended(parsed, rangeStart, rangeEnd, consumed, k, extra)
    ensures Distinct(result + extra)
  {
    forall i, j | 0 <= i < |result| && 0 <= j < |extra| ensures result[i].id != extra[j].id {
      assert result[i] in result && extra[j] in extra;
      var m :| 0 <= m < k && Detached(parsed, rangeStart, rangeEnd, consumed, m)
          && extra[j] == OverrideOccurrence(parsed[m]);
      assert OverrideKey(parsed[m].uid, parsed[m].recurrenceId.value) in exact;
    }
  }

  /** The candidate intervals of one series. */
  ghost function WindowOf(parsed: seq<Event>, event: Event, rangeStart: int, rangeEnd: int): seq<Interval> {
    if FutureOverrides(FutureList(parsed, event.uid))
      then CandidateIntervals(event, FutureList(parsed, event.uid), rangeStart, rangeEnd) else []
  }

  predicate SeriesAt(parsed: seq<Event>, i: int, uid: string) {
    0 <= i < |parsed| && IsSeries(parsed[i]) && parsed[i].uid == uid
  }

  /** What a refusal reports is true of the calendar: a result list of that size, more members
      of one series inside its candidate intervals than are expanded, or more occurrences to
      skip before one of them than are worked through. */
  ghost predicate Justified(parsed: seq<Event>, rangeStart: int, rangeEnd: int, refusal: Refusal)
    requires ValidCalendar(parsed)
  {
    match refusal
    case TooMuchWork(uid) =>
      exists i ::
        SeriesAt(parsed, i, uid) && OverworkedBefore(parsed[i], WindowOf(parsed, parsed[i], rangeStart, rangeEnd))
    case TooManyStarts(uid, starts) =>
      |starts| > 10000
      && exists i ::
        SeriesAt(parsed, i, uid)
        && StartsWithin(parsed[i], WindowOf(parsed, parsed[i], rangeStart, rangeEnd), {}, starts)
    case TooManyResults(result) =>
      |result| >= 10000 && Distinct(result) && forall o :: o in result ==> Expected(parsed, rangeStart, rangeEnd, o)
  }

  /** No series has more than 10000 members inside its candidate intervals. */
  ghost predicate SeriesFit(parsed: seq<Event>, rangeStart: int, rangeEnd: int, k: nat)
    requires ValidCalendar(parsed) && k <= |parsed|
  {
    forall i, starts ::
      (&& 0 <= i < k && SeriesAt(parsed, i, parsed[i].uid) && !parsed[i].cancelled
       && StartsWithin(parsed[i], WindowOf(parsed, parsed[i], rangeStart, rangeEnd), {}, starts))
      ==> |starts| <= 10000
  }

  function ByStartAndId(rank: OccurrenceId -> int): Occurrence -> Key {
    (o: Occurrence) => Key(o.start, rank(o.id), 0)
  }

  /** State of the first pass after k events. */
  ghost predicate Expanded(parsed: seq<Event>, exact: map<OverrideKey, Event>, rangeStart: int, rangeEnd: int, k: nat,
                           visited: set<OverrideKey>, consumed: set<OverrideKey>, result: seq<Occurrence>)
    requires ValidCalendar(parsed) && ExactIn(parsed, exact) && k <= |parsed|
  {
    && Sound(parsed, exact, rangeStart, rangeEnd, k, visited, result)
    && Complete(parsed, exact, rangeStart, rangeEnd, k, visited, result)
    && (forall v :: v in consumed <==> v in visited && v in exact)
  }

  lemma {:induction false} VisitedFit(event: Event, intervals: seq<Interval>, visited: set<int>, starts: set<int>)
    requires ValidEvent(event) && |visited| <= 10000
    requires forall s :: s in visited <==> Recurs(event, s) && Covered(intervals, s)
    requires StartsWithin(event, intervals, {}, starts)
    ensures |starts| <= 10000
  {
    forall t | t in starts ensures t in visited { assert t !in {}; }
    Cardinality(starts, visited);
  }

  lemma {:induction false} CompleteBySingle(parsed: seq<Event>, exact: map<OverrideKey, Event>, rangeStart: int,
                                            rangeEnd: int, k: nat, visited: set<OverrideKey>, result: seq<Occurrence>,
                                            next: seq<Occurrence>)
    requires ValidCalendar(parsed) && ExactIn(parsed, exact) && k < |parsed|
    requires Complete(parsed, exact, rangeStart, rangeEnd, k, visited, result)
    requires !IsSeries(parsed[k]) || parsed[k].cancelled
    requires var o := SingleOccurrence(parsed[k]);
             next == if IsSingle(parsed[k]) && !parsed[k].cancelled && Visible(o, rangeStart, rangeEnd)
               then result + [o] else result
    ensures Complete(parsed, exact, rangeStart, rangeEnd, k + 1, visited, next)
  {
    assert forall o :: o in result ==> o in next;
    forall i | 0 <= i < k && IsSeries(parsed[i]) && !parsed[i].cancelled {
      SeriesCompleteGrows(parsed, exact, rangeStart, rangeEnd, parsed[i], visited, result, visited, next);
    }
  }

  method ExpandMaster(parsed: seq<Event>, exact: map<OverrideKey, Event>, futures: seq<Event>, rangeStart: int,
                      rangeEnd: int, k: nat, ghost visited: set<OverrideKey>, consumed: set<OverrideKey>,
                      result: seq<Occurrence>)
    returns (r: Result<Progress, Refusal>)
    requires ValidCalendar(parsed) && ExactIn(parsed, exact) && k < |parsed| && IsSeries(parsed[k])
    requires !parsed[k].cancelled
    requires futures == FutureList(parsed, parsed[k].uid)
    requires Expanded(parsed, exact, rangeStart, rangeEnd, k, visited, consumed, result)
    requires |Instances(result)| <= 10000 && SeriesFit(parsed, rangeStart, rangeEnd, k)
    ensures r.Ok? ==> |Instances(r.value.result)| <= 10000 && SeriesFit(parsed, rangeStart, rangeEnd, k + 1)
    ensures r.Ok? ==>
              Expanded(parsed, exact, rangeStart, rangeEnd, k + 1, visited + Visits(parsed[k].uid, r.value.starts),
                       r.value.consumed, r.value.result)
    ensures r.Err? ==> Justified(parsed, rangeStart, rangeEnd, r.error)
  {
    var event := parsed[k];
    FutureListValid(parsed, event.uid);
    ghost var before := Progress({}, consumed, 0, result);
    ghost var stopped;
    r, stopped := ExpandSeries(event, exact, futures, rangeStart, rangeEnd, consumed, result);
    if r.Err? {
      RefusalJustified(parsed, exact, rangeStart, rangeEnd, k, visited, before, r.error, stopped);
    } else {
      SeriesSound(parsed, exact, rangeStart, rangeEnd, k, visited, before, r.value);
      SeriesCompletes(parsed, exact, rangeStart, rangeEnd, k, visited, before, r.value);
      VisitsMembers(event.uid, r.value.starts);
      forall starts | StartsWithin(event, WindowOf(parsed, event, rangeStart, rangeEnd), {}, starts)
        ensures |starts| <= 10000
      {
        VisitedFit(event, WindowOf(parsed, event, rangeStart, rangeEnd), r.value.starts, starts);
      }
    }
  }

  lemma {:induction false} SingleFits(parsed: seq<Event>, rangeStart: int, rangeEnd: int, k: nat,
                                      result: seq<Occurrence>)
    requires ValidCalendar(parsed) && k < |parsed| && SeriesFit(parsed, rangeStart, rangeEnd, k)
    requires !IsMaster(parsed[k]) || parsed[k].cancelled || !IsSeries(parsed[k])
    ensures SeriesFit(parsed, rangeStart, rangeEnd, k + 1)
    ensures IsMaster(parsed[k]) ==> Instances(result + [SingleOccurrence(parsed[k])]) == Instances(result)
  {
  }

  /** One event of the first pass. */
  method ExpandEvent(parsed: seq<Event>, exact: map<OverrideKey, Event>, futureOverrides: map<string, seq<Event>>,
                     rangeStart: int, rangeEnd: int, k: nat,
                     ghost visited: set<OverrideKey>, consumed: set<OverrideKey>, result: seq<Occurrence>)
    returns (refusal: Option<Refusal>, consumed': set<OverrideKey>, result': seq<Occurrence>,
             ghost visited': set<OverrideKey>)
    requires ValidCalendar(parsed) && ExactIn(parsed, exact) && k < |parsed|
    requires forall uid :: FutureList(parsed, uid) == if uid in futureOverrides then futureOverrides[uid] else []
    requires Expanded(parsed, exact, rangeStart, rangeEnd, k, visited, consumed, result)
    requires |Instances(result)| <= 10000 && SeriesFit(parsed, rangeStart, rangeEnd, k)
    ensures refusal.None? ==> |Instances(result')| <= 10000 && SeriesFit(parsed, rangeStart, rangeEnd, k + 1)
    ensures refusal.None? ==> Expanded(parsed, exact, rangeStart, rangeEnd, k + 1, visited', consumed', result')
    ensures refusal.Some? ==> Justified(parsed, rangeStart, rangeEnd, refusal.value)
  {
    var event := parsed[k];
    refusal, consumed', result', visited' := None, consumed, result, visited;
    if !IsMaster(event) || event.cancelled || !IsSeries(event) {
      if IsMaster(event) && !event.cancelled && Overlaps(event.start, event.end, rangeStart, rangeEnd) {
        result' := result + [SingleOccurrence(event)];
      }
      SingleFits(parsed, rangeStart, rangeEnd, k, result);
      SingleStep(parsed, exact, rangeStart, rangeEnd, k, visited, result, result');
      CompleteBySingle(parsed, exact, rangeStart, rangeEnd, k, visited, result, result');
      return;
    }
    var futures := if event.uid in futureOverrides then futureOverrides[event.uid] else [];
    var expanded := ExpandMaster(parsed, exact, futures, rangeStart, rangeEnd, k, visited, consumed, result);
    if expanded.Err? {
      refusal := Some(expanded.error);
      return;
    }
    visited' := visited + Visits(event.uid, expanded.value.starts);
    consumed', result' := expanded.value.consumed, expanded.value.result;
  }

  method ExpandMasters(parsed: seq<Event>, exact: map<OverrideKey, Event>, futureOverrides: map<string, seq<Event>>,
                       rangeStart: int, rangeEnd: int)
    returns (r: Result<seq<Occurrence>, Refusal>, consumed: set<OverrideKey>, ghost visited: set<OverrideKey>)
    requires ValidCalendar(parsed) && ExactIn(parsed, exact)
    requires forall uid :: FutureList(parsed, uid) == if uid in futureOverrides then futureOverrides[uid] else []
    ensures r.Ok? ==> Expanded(parsed, exact, rangeStart, rangeEnd, |parsed|, visited, consumed, r.value)
    ensures r.Ok? ==> |Instances(r.value)| <= 10000 && SeriesFit(parsed, rangeStart, rangeEnd, |parsed|)
    ensures r.Err? ==> Justified(parsed, rangeStart, rangeEnd, r.error)
  {
    var result := [];
    consumed, visited := {}, {};
    for k := 0 to |parsed|
      invariant Expanded(parsed, exact, rangeStart, rangeEnd, k, visited, consumed, result)
      invariant |Instances(result)| <= 10000 && SeriesFit(parsed, rangeStart, rangeEnd, k)
    {
      var refusal;
      refusal, consumed, result, visited := ExpandEvent(parsed, exact, futureOverrides, rangeStart, rangeEnd, k,
                                                        visited, consumed, result);
      if refusal.Some? {
        r := Err(refusal.value);
        return;
      }
    }
    r := Ok(result);
  }

  lemma {:induction false} RefusalJustified(parsed: seq<Event>, exact: map<OverrideKey, Event>, rangeStart: int,
                                            rangeEnd: int, k: nat, visited: set<OverrideKey>, before: Progress,
                                            refusal: Refusal, stopped: Progress)
    requires ValidCalendar(parsed) && ExactIn(parsed, exact) && k < |parsed| && IsSeries(parsed[k])
    requires !parsed[k].cancelled
    requires Sound(parsed, exact, rangeStart, rangeEnd, k, visited, before.result) && before.starts == {}
    requires FutureOverrides(FutureList(parsed, parsed[k].uid))
    requires Refused(parsed[k], exact, FutureList(parsed, parsed[k].uid), rangeStart, rangeEnd,
                     CandidateIntervals(parsed[k], FutureList(parsed, parsed[k].uid), rangeStart, rangeEnd), before,
                     before, refusal, stopped)
    ensures Justified(parsed, rangeStart, rangeEnd, refusal)
  {
    assert SeriesAt(parsed, k, parsed[k].uid);
    if refusal.TooManyResults? {
      SeriesSound(parsed, exact, rangeStart, rangeEnd, k, visited, before, stopped);
      forall o | o in stopped.result ensures Expected(parsed, rangeStart, rangeEnd, o) {
        SoundExpected(parsed, exact, rangeStart, rangeEnd, k + 1, visited + Visits(parsed[k].uid, stopped.starts),
                      stopped.result, o);
      }
    }
  }

  lemma {:induction false} TooManyJustified(parsed: seq<Event>, exact: map<OverrideKey, Event>, rangeStart: int,
                                            rangeEnd: int, k: nat, visited: set<OverrideKey>,
                                            consumed: set<OverrideKey>, fromSeries: seq<Occurrence>,
                                            extra: seq<Occurrence>)
    requires ValidCalendar(parsed) && ExactIn(parsed, exact) && k <= |parsed|
    requires Expanded(parsed, exact, rangeStart, rangeEnd, |parsed|, visited, consumed, fromSeries)
    requires Appended(parsed, rangeStart, rangeEnd, consumed, k, extra)
    requires |fromSeries + extra| > MAX_OCCURRENCES
    ensures Justified(parsed, rangeStart, rangeEnd, TooManyResults(fromSeries + extra))
  {
    PartsDistinct(parsed, exact, rangeStart, rangeEnd, k, visited, consumed, fromSeries, extra);
    forall o | o in fromSeries + extra ensures Expected(parsed, rangeStart, rangeEnd, o) {
      if o in fromSeries {
        SoundExpected(parsed, exact, rangeStart, rangeEnd, |parsed|, visited, fromSeries, o);
      } else {
        assert FromOverride(parsed, o);
      }
    }
  }

  /** Overrides not met during the series pass: one may move an occurrence whose original
      start lies outside every candidate interval into the range. Stops past the limit. */
  method AppendDetached(parsed: seq<Event>, cancelledMasters: set<string>, rangeStart: int, rangeEnd: int,
                        consumed: set<OverrideKey>, fromSeries: seq<Occurrence>)
    returns (result: seq<Occurrence>, exceeded: bool)
    requires ValidCalendar(parsed) && CancelledIn(parsed, cancelledMasters) && |Instances(fromSeries)| <= 10000
    ensures fromSeries <= result && (!exceeded ==> |Instances(result)| <= 10000)
    ensures !exceeded ==> Appended(parsed, rangeStart, rangeEnd, consumed, |parsed|, result[|fromSeries|..])
    ensures exceeded ==> |result| > MAX_OCCURRENCES
                         && exists k ::
                           0 <= k <= |parsed|
                           && Appended(parsed, rangeStart, rangeEnd, consumed, k, result[|fromSeries|..])
  {
    result, exceeded := fromSeries, false;
    for k := 0 to |parsed|
      invariant !exceeded && fromSeries <= result && |Instances(result)| <= 10000
      invariant Appended(parsed, rangeStart, rangeEnd, consumed, k, result[|fromSeries|..])
    {
      AppendedStep(parsed, rangeStart, rangeEnd, consumed, k, result[|fromSeries|..]);
      var override := parsed[k];
      if IsMaster(override) || override.cancelled || override.uid in cancelledMasters {
        continue;
      }
      if OverrideKey(override.uid, override.recurrenceId.value) in consumed
        || !Overlaps(override.start, override.end, rangeStart, rangeEnd) {
        continue;
      }
      assert (result + [OverrideOccurrence(override)])[|fromSeries|..]
             == result[|fromSeries|..] + [OverrideOccurrence(override)];
      result := result + [OverrideOccurrence(override)];
      if |result| > MAX_OCCURRENCES {
        exceeded := true;
        return;
      }
      InstancesCount(result);
    }
  }

  // ----- the naive expansion, said of the parsed events alone ---------------------------------

  lemma {:induction false} FutureListHolds(parsed: seq<Event>, uid: string, g: Event)
    ensures g in FutureList(parsed, uid) <==> g in parsed && IsFuture(g, uid)
  {
    FilterMembers(parsed, FutureOf(uid));
    SortMembers(Filter(parsed, FutureOf(uid)), ByRecurrenceId);
    assert g in FutureList(parsed, uid) <==> g in Filter(parsed, FutureOf(uid));
    assert g in Filter(parsed, FutureOf(uid)) <==> g in parsed && FutureOf(uid)(g);
  }

  lemma {:induction false} SameOverride(parsed: seq<Event>, f: Event, g: Event)
    requires ValidCalendar(parsed) && f in parsed && g in parsed && f.uid == g.uid
    requires f.recurrenceId.Some? && f.recurrenceId == g.recurrenceId
    ensures f == g
  {
    var i :| 0 <= i < |parsed| && parsed[i] == f;
    var j :| 0 <= j < |parsed| && parsed[j] == g;
  }

  /** The override a start falls under is the last one no later, if there is any. */
  lemma {:induction false} ApplicableMeans(parsed: seq<Event>, uid: string, t: int)
    requires ValidCalendar(parsed) && FutureOverrides(FutureList(parsed, uid))
    ensures var index := Applicable(FutureList(parsed, uid), t);
            && (index.Some? <==> exists g :: g in parsed && FutureBy(g, uid, t))
            && (index.Some? ==>
                  forall f :: LastFutureBy(parsed, uid, t, f) <==> f == FutureList(parsed, uid)[index.value])
  {
    var futures, index := FutureList(parsed, uid), Applicable(FutureList(parsed, uid), t);
    forall g ensures g in futures <==> g in parsed && IsFuture(g, uid) { FutureListHolds(parsed, uid, g); }
    forall g | g in parsed && FutureBy(g, uid, t)
      ensures index.Some? && g.recurrenceId.value <= futures[index.value].recurrenceId.value
    {
      var k :| 0 <= k < |futures| && futures[k] == g;
    }
    if index.Some? {
      var last := futures[index.value];
      assert last in futures && LastFutureBy(parsed, uid, t, last);
      forall f | LastFutureBy(parsed, uid, t, f) ensures f == last { SameOverride(parsed, f, last); }
    }
  }

  lemma {:induction false} InstanceMeans(parsed: seq<Event>, event: Event, t: int, o: Occurrence)
    requires ValidCalendar(parsed) && event in parsed && FutureOverrides(FutureList(parsed, event.uid))
    ensures Instance(event, FutureList(parsed, event.uid), t) == Some(o)
            <==> o.id == Stable(event.uid, t) && o.recurrenceId == Some(t)
                 && if exists g :: g in parsed && FutureBy(g, event.uid, t)
                    then exists f :: LastFutureBy(parsed, event.uid, t, f) && ChangedBy(event, f, t, o)
                    else Unchanged(event, t, o)
  {
    var futures := FutureList(parsed, event.uid);
    ApplicableMeans(parsed, event.uid, t);
    match Applicable(futures, t)
    case None => BaseMeans(event, t, o);
    case Some(index) =>
      assert LastFutureBy(parsed, event.uid, t, futures[index]);
      if !futures[index].cancelled { ShiftedMeans(event, futures[index], t, o); }
  }

  lemma {:induction false} SeriesMeans(parsed: seq<Event>, i: nat, t: int, o: Occurrence)
    requires ValidCalendar(parsed) && i < |parsed|
    ensures MeantBySeries(parsed, parsed[i], t, o)
            <==> IsSeries(parsed[i]) && !parsed[i].cancelled && Recurs(parsed[i], t)
                 && !HasExactOverride(parsed, parsed[i].uid, t)
                 && FutureOverrides(FutureList(parsed, parsed[i].uid))
                 && Instance(parsed[i], FutureList(parsed, parsed[i].uid), t) == Some(o)
  {
    FutureListValid(parsed, parsed[i].uid);
    RecursMeans(parsed[i], t);
    InstanceMeans(parsed, parsed[i], t, o);
  }

  lemma {:induction false} OverrideMeans(parsed: seq<Event>, i: nat, o: Occurrence)
    requires i < |parsed|
    ensures MeantByOverride(parsed, parsed[i], o)
            <==> !IsMaster(parsed[i]) && !parsed[i].cancelled && !MasterCancelled(parsed, parsed[i].uid)
                 && o == OverrideOccurrence(parsed[i])
  {
    if j :| 0 <= j < |parsed| && IsMaster(parsed[j]) && parsed[j].cancelled && parsed[j].uid == parsed[i].uid {
      assert parsed[j] in parsed;
    }
  }

  lemma {:induction false} FromSeriesMeans(parsed: seq<Event>, o: Occurrence)
    requires ValidCalendar(parsed)
    ensures FromSeries(parsed, o) <==> exists event, t :: MeantBySeries(parsed, event, t, o)
  {
    if FromSeries(parsed, o) {
      var i, t :| 0 <= i < |parsed| && IsSeries(parsed[i]) && !parsed[i].cancelled && Recurs(parsed[i], t)
                  && !HasExactOverride(parsed, parsed[i].uid, t)
                  && FutureOverrides(FutureList(parsed, parsed[i].uid))
                  && Instance(parsed[i], FutureList(parsed, parsed[i].uid), t) == Some(o);
      SeriesMeans(parsed, i, t, o);
    }
    if event, t :| MeantBySeries(parsed, event, t, o) {
      var i :| 0 <= i < |parsed| && parsed[i] == event;
      SeriesMeans(parsed, i, t, o);
    }
  }

  lemma {:induction false} FromOverrideMeans(parsed: seq<Event>, o: Occurrence)
    ensures FromOverride(parsed, o) <==> exists event :: MeantByOverride(parsed, event, o)
  {
    if FromOverride(parsed, o) {
      var i :| 0 <= i < |parsed| && !IsMaster(parsed[i]) && !parsed[i].cancelled
               && !MasterCancelled(parsed, parsed[i].uid) && o == OverrideOccurrence(parsed[i]);
      OverrideMeans(parsed, i, o);
    }
    if event :| MeantByOverride(parsed, event, o) {
      var i :| 0 <= i < |parsed| && parsed[i] == event;
      OverrideMeans(parsed, i, o);
    }
  }

  /** The naive expansion is what the parsed events mean. */
  lemma {:induction false} ExpectedIsMeant(parsed: seq<Event>, rangeStart: int, rangeEnd: int, o: Occurrence)
    requires ValidCalendar(parsed)
    ensures Expected(parsed, rangeStart, rangeEnd, o) <==> Meant(parsed, rangeStart, rangeEnd, o)
  {
    SingleMeans(parsed, o);
    FromSeriesMeans(parsed, o);
    FromOverrideMeans(parsed, o);
  }

  lemma {:induction false} SingleMeans(parsed: seq<Event>, o: Occurrence)
    ensures FromSingle(parsed, o) <==> exists event :: MeantBySingle(parsed, event, o)
  {
    if FromSingle(parsed, o) {
      var i :| 0 <= i < |parsed| && IsSingle(parsed[i]) && !parsed[i].cancelled && o == SingleOccurrence(parsed[i]);
      assert MeantBySingle(parsed, parsed[i], o);
    }
  }

  /** The expansion of a parsed calendar. `rank` is the order of the textual ids. */
  method ParseRange(parsed: seq<Event>, rangeStart: int, rangeEnd: int, rank: OccurrenceId -> int)
    returns (r: Result<seq<Occurrence>, Refusal>)
    requires ValidCalendar(parsed)
    ensures r.Ok? ==> forall o :: o in r.value <==> Meant(parsed, rangeStart, rangeEnd, o)
    ensures r.Ok? ==> forall o :: o in r.value <==> Expected(parsed, rangeStart, rangeEnd, o)
    ensures r.Ok? ==> Distinct(r.value) && forall i, j :: 0 <= i < j < |r.value| ==>
              && r.value[i].start <= r.value[j].start
              && (r.value[i].start == r.value[j].start ==> rank(r.value[i].id) <= rank(r.value[j].id))
    ensures r.Ok? ==> |Instances(r.value)| <= 10000 && SeriesFit(parsed, rangeStart, rangeEnd, |parsed|)
    ensures r.Err? ==> Justified(parsed, rangeStart, rangeEnd, r.error)
  {
    var exact, futureOverrides, cancelledMasters := Classify(parsed);
    var expanded, consumed, visited := ExpandMasters(parsed, exact, futureOverrides, rangeStart, rangeEnd);
    if expanded.Err? {
      return Err(expanded.error);
    }
    var result, exceeded := AppendDetached(parsed, cancelledMasters, rangeStart, rangeEnd, consumed, expanded.value);
    ghost var extra := result[|expanded.value|..];
    assert result == expanded.value + extra;
    if exceeded {
      ghost var handled :| 0 <= handled <= |parsed| && Appended(parsed, rangeStart, rangeEnd, consumed, handled, extra);
      TooManyJustified(parsed, exact, rangeStart, rangeEnd, handled, visited, consumed, expanded.value, extra);
      return Err(TooManyResults(result));
    }
    WindowedIsNaive(parsed, exact, rangeStart, rangeEnd, visited, consumed, expanded.value, extra);
    PartsDistinct(parsed, exact, rangeStart, rangeEnd, |parsed|, visited, consumed, expanded.value, extra);
    SortMembers(result, ByStartAndId(rank));
    SortSorted(result, ByStartAndId(rank));
    SortDistinct(result, rank);
    assert Instances(Sort(result, ByStartAndId(rank))) == Instances(result);
    forall o ensures Expected(parsed, rangeStart, rangeEnd, o) <==> Meant(parsed, rangeStart, rangeEnd, o) {
      ExpectedIsMeant(parsed, rangeStart, rangeEnd, o);
    }
    return Ok(Sort(result, ByStartAndId(rank)));
  }

  lemma {:induction false} SortDistinct(result: seq<Occurrence>, rank: OccurrenceId -> int)
    requires Distinct(result)
    ensures Distinct(Sort(result, ByStartAndId(rank)))
  {
    if result != [] {
      var rest := Sort(result[1..], ByStartAndId(rank));
      SortDistinct(result[1..], rank);
      SortMembers(result[1..], ByStartAndId(rank));
      forall o | o in rest ensures o.id != result[0].id {
        var i :| 0 <= i < |result[1..]| && result[1..][i] == o;
        assert result[i + 1] == o;
      }
      InsertDistinct(result[0], rest, rank);
    }
  }

  lemma {:induction false} InsertDistinct(x: Occurrence, s: seq<Occurrence>, rank: OccurrenceId -> int)
    requires Distinct(s) && forall o :: o in s ==> o.id != x.id
    ensures Distinct(Insert(x, s, ByStartAndId(rank)))
  {
    var key := ByStartAndId(rank);
    if s != [] && Less(key(s[0]), key(x)) {
      InsertDistinct(x, s[1..], rank);
      InsertMembers(x, s[1..], key);
      var rest := Insert(x, s[1..], key);
      forall j | 0 <= j < |rest| ensures rest[j].id != s[0].id {
        assert rest[j] in rest;
        assert s[0] in s;
      }
    } else {
      forall j | 0 <= j < |s| ensures s[j].id != x.id {
        assert s[j] in s;
      }
    }
  }
}
