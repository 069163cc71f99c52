/** Recurrence rules of one calendar event (RFC 5545 section 3.8.5.3) and the
    fast-forward that moves a rule close to the requested range before it is iterated.
    Times are whole seconds in one fixed-offset zone. */
module RecurrenceRules {
  import opened Wrappers

  datatype Frequency = Secondly | Minutely | Hourly | DailyOrSlower

  /** `pattern` is the calendar arithmetic of a rule that is not a plain progression:
      which instants its frequency and BY-selectors allow. It is absent exactly for a
      SECONDLY, MINUTELY or HOURLY rule without selectors. `count` 0 means no COUNT.
      `until` is the rule's UNTIL, or the horizon of the recurrence library. */
  datatype Rule = Rule(freq: Frequency, interval: int, dtstart: int, count: nat, until: int,
                       pattern: Option<int -> bool>)

  ghost predicate ValidRule(rule: Rule) {
    rule.freq.DailyOrSlower? ==> rule.pattern.Some?
  }

  function UnitSeconds(freq: Frequency): nat {
    match freq
    case Secondly => 1
    case Minutely => 60
    case Hourly => 3600
    case DailyOrSlower => 0
  }

  function Interval(rule: Rule): (i: int)
    ensures i >= 1
  {
    if rule.interval < 1 then 1 else rule.interval
  }

  function Step(rule: Rule): (step: int)
    requires !rule.freq.DailyOrSlower?
    ensures step >= 1
  {
    UnitSeconds(rule.freq) * Interval(rule)
  }

  /** How many instants in [from, to) the pattern allows. */
  function Selected(pattern: int -> bool, from: int, to: int): nat
    decreases to - from
  {
    if to <= from then 0
    else Selected(pattern, from, to - 1) + if pattern(to - 1) then 1 else 0
  }

  /** The instants at which the rule recurs. */
  predicate Occurs(rule: Rule, t: int)
    requires ValidRule(rule)
  {
    rule.dtstart <= t <= rule.until
    && match rule.pattern
       case None =>
         (t - rule.dtstart) % Step(rule) == 0 && (rule.count == 0 || (t - rule.dtstart) / Step(rule) < rule.count)
       case Some(pattern) => pattern(t) && (rule.count == 0 || Selected(pattern, rule.dtstart, t) < rule.count)
  }

  /** Both rules recur at the same instants from `lookback` on. */
  ghost predicate SameFrom(a: Rule, b: Rule, lookback: int)
    requires ValidRule(a) && ValidRule(b)
  {
    forall t :: t >= lookback ==> (Occurs(a, t) <==> Occurs(b, t))
  }

  datatype Forward = Shifted(rule: Rule) | Exhausted | WorkLimit

  const MAX_FAST_FORWARD_WORK: nat := 1000000

  /** Whole seconds in the longest time.Duration, at which Go's Time.Sub saturates. */
  const MAX_DURATION_SECONDS: int := 9223372036

  const MAX_INT64: int := 0x7fff_ffff_ffff_ffff

  const NANOSECONDS: int := 1000000000

  function SaturatingSub(a: int, b: int): int {
    if a - b > MAX_DURATION_SECONDS then MAX_DURATION_SECONDS
    else if a - b < -MAX_DURATION_SECONDS then -MAX_DURATION_SECONDS
    else a - b
  }

  lemma {:induction false} MulLe(a: int, b: int, d: int)
    requires d >= 0 && a <= b
    ensures a * d <= b * d
  {
    var gap := b - a;
    assert gap * d >= 0;
    assert (a + gap) * d == a * d + gap * d;
  }

  lemma {:induction false} MulOrder(a: int, b: int, d: int)
    requires d >= 0
    ensures a < b ==> (a + 1) * d <= b * d
    ensures a <= b ==> a * d <= b * d
  {
    if a <= b { MulLe(a, b, d); }
    if a < b { MulLe(a + 1, b, d); }
  }

  lemma {:induction false} DivModUnique(x: int, d: int, q: int, r: int)
    requires d >= 1 && x == q * d + r && 0 <= r < d
    ensures x / d == q && x % d == r
  {
    var k := x / d;
    assert x == k * d + x % d;
    MulOrder(k, q, d);
    MulOrder(q, k, d);
    assert (k + 1) * d == k * d + d && (q + 1) * d == q * d + d;
  }

  lemma {:induction false} DivMulBelow(x: int, d: int)
    requires d >= 1
    ensures (x / d) * d <= x < (x / d + 1) * d
  {
  }

  /** Moving the start of a progression by whole steps renumbers its terms. */
  lemma {:induction false} ProgressionShift(x: int, d: int, steps: int)
    requires d >= 1
    ensures (x - steps * d) % d == x % d && (x - steps * d) / d == x / d - steps
  {
    assert x == (x / d) * d + x % d;
    assert x - steps * d == (x / d - steps) * d + x % d;
    DivModUnique(x - steps * d, d, x / d - steps, x % d);
  }

  /** Division by the unit and then by the interval counts whole steps. */
  lemma {:induction false} StepsOf(elapsed: int, unit: int, interval: int)
    requires elapsed >= 0 && unit >= 1 && interval >= 1
    ensures elapsed / unit / interval == elapsed / (unit * interval)
  {
    var q := elapsed / unit;
    var r := elapsed % unit;
    var k := q / interval;
    var m := q % interval;
    assert elapsed == q * unit + r;
    assert q == k * interval + m;
    MulOrder(m, interval, unit);
    assert (m + 1) * unit == m * unit + unit && m * unit >= 0;
    Regroup(k, interval, m, unit);
    assert interval * unit == unit * interval;
    DivModUnique(elapsed, unit * interval, k, m * unit + r);
  }

  lemma {:induction false} Regroup(k: int, interval: int, m: int, unit: int)
    ensures (k * interval + m) * unit == k * (unit * interval) + m * unit
  {
  }

  /** The shift of `steps` whole steps, as the source computes it in int64 nanoseconds:
      steps times interval times unit. It stays within the elapsed time, so it fits. */
  lemma {:induction false} ShiftFits(elapsed: int, unit: int, interval: int, steps: int)
    requires 0 <= elapsed <= MAX_DURATION_SECONDS && unit >= 1 && interval >= 1
    requires 0 <= steps <= elapsed / unit / interval
    ensures 0 <= steps * interval <= elapsed / unit
    ensures 0 <= steps * interval * unit <= elapsed
    ensures steps * interval * unit * NANOSECONDS <= MAX_INT64
  {
    DivMulBelow(elapsed, unit);
    DivMulBelow(elapsed / unit, interval);
    MulLe(steps, elapsed / unit / interval, interval);
    MulLe(0, steps, interval);
    MulLe(steps * interval, elapsed / unit, unit);
    MulLe(0, steps * interval, unit);
  }

  /** The fast-forward stops one step short of the whole steps that fit, so that less than
      two steps remain. */
  lemma {:induction false} StepsLeft(elapsed: int, step: int, steps: int)
    requires elapsed >= 0 && step >= 1
    requires var whole := elapsed / step; steps == if whole > 1 then whole - 1 else whole
    ensures 0 <= steps * step <= elapsed < steps * step + 2 * step
    ensures steps == 0 <==> elapsed < step
  {
    var whole := elapsed / step;
    DivMulBelow(elapsed, step);
    assert (whole + 1) * step == whole * step + step;
    if whole > 1 {
      assert whole * step == (whole - 1) * step + step;
    }
    MulLe(0, steps, step);
  }

  lemma {:induction false} SelectedSplit(pattern: int -> bool, a: int, b: int, c: int)
    requires a <= b <= c
    ensures Selected(pattern, a, c) == Selected(pattern, a, b) + Selected(pattern, b, c)
    decreases c - b
  {
    if b < c {
      SelectedSplit(pattern, a, b, c - 1);
    }
  }

  lemma {:induction false} NoneSelected(pattern: int -> bool, a: int, b: int)
    requires forall t :: a <= t < b ==> !pattern(t)
    ensures Selected(pattern, a, b) == 0
    decreases b - a
  {
    if a < b {
      NoneSelected(pattern, a, b - 1);
    }
  }

  /** The recurrence library's iterator: the first occurrence at or after `from`. */
  function NextOccurrence(rule: Rule, from: int): (next: Option<int>)
    requires ValidRule(rule)
    ensures next.None? ==> forall t :: t >= from ==> !Occurs(rule, t)
    ensures next.Some? ==> next.value >= from && Occurs(rule, next.value)
                           && forall t :: from <= t < next.value ==> !Occurs(rule, t)
    decreases rule.until - from
  {
    if from > rule.until then None
    else if Occurs(rule, from) then Some(from)
    else NextOccurrence(rule, from + 1)
  }

  /** Every pattern instant before an occurrence is an occurrence itself, so between two
      neighbouring occurrences the pattern allows nothing. */
  lemma GapIsEmpty(rule: Rule, from: int, next: int)
    requires ValidRule(rule) && rule.pattern.Some? && rule.dtstart <= from <= next && Occurs(rule, next)
    requires forall t :: from <= t < next ==> !Occurs(rule, t)
    ensures Selected(rule.pattern.value, rule.dtstart, next) == Selected(rule.pattern.value, rule.dtstart, from)
  {
    var p := rule.pattern.value;
    forall t | from <= t < next ensures !p(t) {
      SelectedSplit(p, rule.dtstart, t, next);
    }
    NoneSelected(p, from, next);
    SelectedSplit(p, rule.dtstart, from, next);
  }

  /** With COUNT not used up and no occurrences left, the pattern allows nothing up to the end. */
  lemma {:induction false} NoneLeft(rule: Rule, from: int, last: int)
    requires ValidRule(rule) && rule.pattern.Some? && rule.dtstart <= from <= last <= rule.until + 1
    requires forall t :: t >= from ==> !Occurs(rule, t)
    requires Selected(rule.pattern.value, rule.dtstart, from) < rule.count
    ensures Selected(rule.pattern.value, rule.dtstart, last) == Selected(rule.pattern.value, rule.dtstart, from)
    decreases last - from
  {
    if from < last {
      NoneLeft(rule, from, last - 1);
      assert !Occurs(rule, last - 1);
    }
  }

  /** How many occurrences before the lookback the pattern allows, leaving COUNT aside. */
  function ToSkip(rule: Rule, lookback: int): nat
    requires rule.pattern.Some?
  {
    Selected(rule.pattern.value, rule.dtstart, if lookback <= rule.until then lookback else rule.until + 1)
  }

  lemma {:induction false} SkippedSoFar(rule: Rule, found: int, lookback: int)
    requires ValidRule(rule) && rule.pattern.Some? && rule.dtstart <= found < lookback && Occurs(rule, found)
    ensures ToSkip(rule, lookback) >= Selected(rule.pattern.value, rule.dtstart, found + 1)
  {
    SelectedSplit(rule.pattern.value, rule.dtstart, found + 1,
                  if lookback <= rule.until then lookback else rule.until + 1);
  }

  lemma {:induction false} SkippedToLookback(rule: Rule, found: int, lookback: int)
    requires ValidRule(rule) && rule.pattern.Some? && rule.dtstart <= lookback <= found && Occurs(rule, found)
    ensures ToSkip(rule, lookback) <= Selected(rule.pattern.value, rule.dtstart, found)
  {
    SelectedSplit(rule.pattern.value, rule.dtstart, lookback, found);
  }

  lemma {:induction false} SkippedAll(rule: Rule, from: int, lookback: int)
    requires ValidRule(rule) && rule.pattern.Some? && rule.dtstart <= from <= lookback && from <= rule.until + 1
    requires forall t :: t >= from ==> !Occurs(rule, t)
    requires Selected(rule.pattern.value, rule.dtstart, from) < rule.count
    ensures ToSkip(rule, lookback) == Selected(rule.pattern.value, rule.dtstart, from)
  {
    NoneLeft(rule, from, if lookback <= rule.until then lookback else rule.until + 1);
  }

  /** A COUNT rule with selectors is fast-forwarded by iterating it. Rebuilding the rule at
      an occurrence is taken to keep the pattern, which the library guarantees. */
  method FastForwardCountedRule(rule: Rule, lookback: int) returns (r: Forward)
    requires ValidRule(rule) && rule.pattern.Some? && rule.count != 0 && rule.dtstart < lookback
    ensures r.Shifted? ==> ValidRule(r.rule) && SameFrom(rule, r.rule, lookback) && r.rule.count != 0
    ensures r.Shifted? ==> r.rule.dtstart >= lookback && Occurs(rule, r.rule.dtstart)
    ensures r.Exhausted? ==> forall t :: t >= lookback ==> !Occurs(rule, t)
    ensures r.WorkLimit? <==> rule.count > 1000000 && ToSkip(rule, lookback) > 1000000
    ensures r.WorkLimit? ==> Selected(rule.pattern.value, rule.dtstart, lookback) > 1000000
  {
    var next := rule.dtstart;
    var skipped := 0;
    while true
      invariant rule.dtstart <= next <= lookback && skipped <= 1000000
      invariant next == rule.dtstart || next <= rule.until + 1
      invariant skipped == Selected(rule.pattern.value, rule.dtstart, next)
      decreases rule.until - next
    {
      var occurrence := NextOccurrence(rule, next);
      if occurrence.None? {
        if skipped < rule.count && next <= rule.until + 1 { SkippedAll(rule, next, lookback); }
        return Exhausted;
      }
      var found := occurrence.value;
      GapIsEmpty(rule, next, found);
      if found >= lookback {
        SkippedToLookback(rule, found, lookback);
        var options := rule.(dtstart := found, count := rule.count - skipped);
        forall t | t >= lookback ensures Occurs(rule, t) <==> Occurs(options, t) {
          if t >= found {
            SelectedSplit(rule.pattern.value, rule.dtstart, found, t);
          }
        }
        return Shifted(options);
      }
      SkippedSoFar(rule, found, lookback);
      skipped := skipped + 1;
      SelectedSplit(rule.pattern.value, rule.dtstart, found + 1, lookback);
      if skipped > MAX_FAST_FORWARD_WORK {
        return WorkLimit;
      }
      next := found + 1;
    }
  }

  /** Shifting a progression by whole steps, and COUNT with it, keeps what it yields after
      the new start. */
  lemma {:induction false} ShiftedProgression(rule: Rule, shifted: Rule, steps: nat, lookback: int)
    requires ValidRule(rule) && !rule.freq.DailyOrSlower? && rule.pattern.None?
    requires rule.count != 0 ==> steps < rule.count
    requires shifted == rule.(dtstart := rule.dtstart + steps * Step(rule),
                              count := if rule.count == 0 then 0 else rule.count - steps)
    requires shifted.dtstart <= lookback
    ensures SameFrom(rule, shifted, lookback)
  {
    forall t | t >= lookback ensures Occurs(rule, t) <==> Occurs(shifted, t) {
      ProgressionShift(t - rule.dtstart, Step(rule), steps);
      assert 0 <= steps * Step(rule);
    }
  }

  /** A selector rule without COUNT allows the same instants from any earlier start. */
  lemma {:induction false} ShiftedPattern(rule: Rule, shifted: Rule, lookback: int)
    requires ValidRule(rule) && rule.pattern.Some? && rule.count == 0 && rule.dtstart <= lookback
    requires shifted == rule.(dtstart := shifted.dtstart) && shifted.dtstart <= lookback
    ensures SameFrom(rule, shifted, lookback)
  {
  }

  /** A COUNT used up before the lookback leaves nothing from there on. */
  lemma {:induction false} ExhaustedProgression(rule: Rule, steps: nat, lookback: int)
    requires ValidRule(rule) && !rule.freq.DailyOrSlower? && rule.pattern.None?
    requires 0 < rule.count <= steps && rule.dtstart + steps * Step(rule) <= lookback
    ensures forall t :: t >= lookback ==> !Occurs(rule, t)
  {
    var d := Step(rule);
    forall t | t >= lookback ensures !Occurs(rule, t) {
      DivMulBelow(t - rule.dtstart, d);
      MulOrder((t - rule.dtstart) / d, steps, d);
    }
  }

  /** A step or more to go, and more than a million occurrences to iterate over. */
  predicate TooFar(rule: Rule, lookback: int) {
    && !rule.freq.DailyOrSlower? && rule.pattern.Some? && rule.count > 1000000
    && SaturatingSub(lookback, rule.dtstart) >= Step(rule) && ToSkip(rule, lookback) > 1000000
  }

  method FastForwardRule(rule: Rule, lookback: int) returns (r: Forward)
    requires ValidRule(rule)
    // The same occurrences from the lookback on, and a COUNT never turns into "unbounded".
    ensures r.Shifted? ==> ValidRule(r.rule) && SameFrom(rule, r.rule, lookback)
    ensures r.Shifted? ==> (r.rule.count == 0 <==> rule.count == 0) && rule.dtstart <= r.rule.dtstart
    ensures r.Exhausted? ==> forall t :: t >= lookback ==> !Occurs(rule, t)
    // Work is refused exactly for a counted rule with selectors and that many occurrences to skip.
    ensures r.WorkLimit? <==> TooFar(rule, lookback)
    ensures r.WorkLimit? ==> rule.pattern.Some? && rule.count != 0
                             && Selected(rule.pattern.value, rule.dtstart, lookback) > 1000000
    // The shift is worth its name: a progression starts less than two steps before the lookback.
    ensures r.Shifted? && rule.pattern.None? && lookback - rule.dtstart <= MAX_DURATION_SECONDS
            ==> lookback - r.rule.dtstart < 2 * Step(rule)
  {
    if rule.dtstart >= lookback {
      return Shifted(rule);
    }
    if rule.freq.DailyOrSlower? {
      return Shifted(rule);
    }
    var unit := UnitSeconds(rule.freq);
    var interval := Interval(rule);
    var elapsed := SaturatingSub(lookback, rule.dtstart);
    var steps := elapsed / unit / interval;
    if steps > 1 {
      steps := steps - 1;
    }
    var shift := steps * interval * unit;
    StepsOf(elapsed, unit, interval);
    StepsLeft(elapsed, Step(rule), steps);
    ShiftFits(elapsed, unit, interval, steps);
    Regroup(steps, interval, 0, unit);
    if steps == 0 {
      return Shifted(rule);
    }
    var options := rule;
    if options.count != 0 {
      if options.pattern.Some? {
        r := FastForwardCountedRule(rule, lookback);
        return;
      }
      if steps >= options.count {
        ExhaustedProgression(rule, steps, lookback);
        return Exhausted;
      }
      options := options.(count := options.count - steps);
    }
    options := options.(dtstart := options.dtstart + shift);
    if rule.pattern.None? {
      ShiftedProgression(rule, options, steps, lookback);
    } else {
      ShiftedPattern(rule, options, lookback);
    }
    return Shifted(options);
  }
}
