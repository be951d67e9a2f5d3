/** Interval parsing and the next occurrence of a schedule. Instants and periods are microseconds. */
module Recurrence {
  import opened Decimal
  import opened Division
  import opened IsoTime
  import opened PythonText

  // ---- Interval text ----

  /** The exceptions are those of the source: no match, `int` on too many digits, an unknown unit, a
      period that is not positive, and one longer than a `timedelta` holds. */
  datatype IntervalResult = Period(micros: int) | Malformed | TooManyDigits | UnknownUnit | NotPositive | TooLong

  /** The characters that `\d` matches, with their values: at least the ASCII digits, and in Python the
      decimal digits of every script. */
  type Decimals = map<char, int>

  const LONG_S: char := '\U{017F}'

  ghost predicate ValidDecimals(ds: Decimals) {
    && (forall c :: c in ds ==> 0 <= ds[c] < 10 && !IsSpace(c) && !IsUnit(c))
    && (forall c :: IsDigit(c) ==> c in ds && ds[c] == DigitValue(c))
  }

  predicate AllDecimal(s: string, ds: Decimals) {
    forall i :: 0 <= i < |s| ==> s[i] in ds
  }

  /** `int` of a text of decimal digits. */
  function Value(s: string, ds: Decimals): int
    requires AllDecimal(s, ds)
  {
    if s == "" then 0 else 10 * Value(s[..|s| - 1], ds) + ds[s[|s| - 1]]
  }

  function UnitSeconds(unit: char): int {
    match LowerChar(unit)
    case 'm' => 60
    case 'h' => 3600
    case 'd' => 86400
    case _ => 1
  }

  /** `[smhd]` ignoring case, which also matches the long s. */
  predicate IsUnit(c: char) {
    LowerChar(c) in "smhd" || c == LONG_S
  }

  /** Length of the leading run of digits. */
  function DigitRun(s: string, ds: Decimals): (n: nat)
    ensures n <= |s| && AllDecimal(s[..n], ds)
    ensures n == |s| || s[n] !in ds
  {
    if s == "" || s[0] !in ds then 0
    else
      var n := DigitRun(s[1..], ds);
      assert s[..n + 1] == [s[0]] + s[1..][..n];
      n + 1
  }

  /** The most digits `int` reads, and the longest period a `timedelta` holds, in seconds. */
  const MAX_DIGITS: nat := 4300
  const MAX_SECONDS: int := 999_999_999 * 86_400 + 86_399

  function PeriodOf(digits: string, unit: char, ds: Decimals): IntervalResult
    requires AllDecimal(digits, ds)
  {
    var seconds := Value(digits, ds) * UnitSeconds(unit);
    if |digits| > MAX_DIGITS then TooManyDigits
    else if unit == LONG_S then UnknownUnit
    else if seconds <= 0 then NotPositive
    else if seconds > MAX_SECONDS then TooLong
    else Period(seconds * SECOND)
  }

  function ParseTrimmed(s: string, ds: Decimals): IntervalResult {
    var n := DigitRun(s, ds);
    var unit := LStrip(s[n..]);
    if n == 0 || |unit| > 1 || (|unit| == 1 && !IsUnit(unit[0])) then Malformed
    else PeriodOf(s[..n], if unit == "" then 's' else unit[0], ds)
  }

  function ParseInterval(value: string, ds: Decimals): IntervalResult {
    ParseTrimmed(Strip(value), ds)
  }

  lemma {:induction false} DigitRunOf(digits: string, rest: string, ds: Decimals)
    requires AllDecimal(digits, ds) && (rest == "" || rest[0] !in ds)
    ensures DigitRun(digits + rest, ds) == |digits|
  {
    if digits == "" {
      assert digits + rest == rest;
    } else {
      assert (digits + rest)[1..] == digits[1..] + rest;
      DigitRunOf(digits[1..], rest, ds);
    }
  }

  /** The written form of an interval: digits, an optional gap, an optional unit, blanks around. */
  ghost predicate Spells(value: string, lead: string, digits: string, gap: string, unit: string, trail: string, ds: Decimals) {
    && value == lead + ((digits + gap + unit) + trail)
    && AllSpaces(lead) && AllSpaces(gap) && AllSpaces(trail)
    && digits != "" && AllDecimal(digits, ds)
    && |unit| <= 1 && (unit == "" ==> gap == "") && (unit != "" ==> IsUnit(unit[0]))
  }

  lemma TrimmedIntervalParses(digits: string, gap: string, unit: string, ds: Decimals)
    requires ValidDecimals(ds) && Spells(digits + gap + unit, "", digits, gap, unit, "", ds)
    ensures ParseTrimmed(digits + (gap + unit), ds) == PeriodOf(digits, if unit == "" then 's' else unit[0], ds)
  {
    hide IsUnit, IsSpace, LowerChar;
    var s := digits + (gap + unit);
    assert LStrip(gap + unit) == unit by { if unit != "" { NoBlankUnit(unit[0]); } LStripOf(gap, unit); }
    assert gap + unit != "" ==> (gap + unit)[0] == if gap == "" then unit[0] else gap[0];
    DigitRunOf(digits, gap + unit, ds);
    assert s[..|digits|] == digits && s[|digits|..] == gap + unit;
  }

  lemma NoBlankUnit(c: char)
    requires IsUnit(c)
    ensures !IsSpace(c)
  {
  }

  lemma StripOf(lead: string, body: string, trail: string)
    requires AllSpaces(lead) && AllSpaces(trail)
    requires body != "" && !IsSpace(body[0]) && !IsSpace(body[|body| - 1])
    ensures Strip(lead + (body + trail)) == body
  {
    LStripOf(lead, body + trail);
    RStripOf(body, trail);
  }

  lemma SpelledIntervalParses(value: string, lead: string, digits: string, gap: string, unit: string, trail: string, ds: Decimals)
    requires ValidDecimals(ds) && Spells(value, lead, digits, gap, unit, trail, ds)
    ensures ParseInterval(value, ds) == PeriodOf(digits, if unit == "" then 's' else unit[0], ds)
  {
    hide IsUnit, IsSpace, ParseTrimmed, LowerChar;
    var body := digits + (gap + unit);
    assert digits + gap + unit == body;
    assert Spells(digits + gap + unit, "", digits, gap, unit, "", ds);
    assert body[|body| - 1] == if unit == "" then digits[|digits| - 1] else unit[0];
    if unit != "" { NoBlankUnit(unit[0]); }
    assert digits[0] in ds && digits[|digits| - 1] in ds;
    StripOf(lead, body, trail);
    TrimmedIntervalParses(digits, gap, unit, ds);
  }

  /** The text has the decimal digits of n, in any scripts. */
  predicate Numeral(digits: string, n: int, ds: Decimals) {
    && 0 <= n < Pow10(|digits|) && AllDecimal(digits, ds)
    && forall i :: 0 <= i < |digits| ==> IsDigit(Pad(n, |digits|)[i]) && ds[digits[i]] == DigitValue(Pad(n, |digits|)[i])
  }

  lemma {:induction false} ValueOfNumeral(digits: string, n: int, ds: Decimals)
    requires Numeral(digits, n, ds)
    ensures Value(digits, ds) == n
    decreases |digits|
  {
    if digits != "" {
      var m := |digits| - 1;
      assert Pad(n, |digits|) == Pad(n / 10, m) + [Digit(n % 10)];
      assert forall i :: 0 <= i < m ==> Pad(n, |digits|)[i] == Pad(n / 10, m)[i];
      ValueOfNumeral(digits[..m], n / 10, ds);
    }
  }

  /** The units, in either case, and the seconds in each. */
  predicate UnitOf(unit: string, seconds: int) {
    || (unit in ["", "s", "S"] && seconds == 1) || (unit in ["m", "M"] && seconds == 60)
    || (unit in ["h", "H"] && seconds == 3600) || (unit in ["d", "D"] && seconds == 86400)
  }

  /** A written number of units is that number of seconds, minutes, hours or days, in microseconds; zero
      and more than 999999999 days, 23:59:59 are errors. */
  lemma WrittenPeriod(value: string, lead: string, digits: string, gap: string, unit: string, trail: string, ds: Decimals, n: int, seconds: int)
    requires ValidDecimals(ds) && Spells(value, lead, digits, gap, unit, trail, ds)
    requires Numeral(digits, n, ds) && |digits| <= 4300 && UnitOf(unit, seconds)
    ensures ParseInterval(value, ds) ==
              if n == 0 then NotPositive else if n * seconds > 86_399_999_999_999 then TooLong else Period(1_000_000 * (n * seconds))
  {
    hide Spells, ParseInterval, Numeral, Value, ValidDecimals;
    SpelledIntervalParses(value, lead, digits, gap, unit, trail, ds);
    ValueOfNumeral(digits, n, ds);
    NumeralIsDecimal(digits, n, ds);
    UnitIs(unit, seconds);
    ProductSign(n, seconds);
  }

  /** Exactly these characters are accepted as units, the last of them only to be refused. */
  lemma UnitsAre(c: char)
    ensures IsUnit(c) <==> c in ['s', 'm', 'h', 'd', 'S', 'M', 'H', 'D', '\U{017F}']
  {
  }

  /** More than 4300 digits are an error whatever the unit; otherwise the long s is one. */
  lemma RefusedSpelling(value: string, lead: string, digits: string, gap: string, unit: string, trail: string, ds: Decimals)
    requires ValidDecimals(ds) && Spells(value, lead, digits, gap, unit, trail, ds)
    ensures |digits| > 4300 ==> ParseInterval(value, ds) == TooManyDigits
    ensures |digits| <= 4300 && unit == ['\U{017F}'] ==> ParseInterval(value, ds) == UnknownUnit
  {
    hide ParseInterval, Value, ValidDecimals;
    SpelledIntervalParses(value, lead, digits, gap, unit, trail, ds);
  }

  lemma NumeralIsDecimal(digits: string, n: int, ds: Decimals)
    requires Numeral(digits, n, ds)
    ensures AllDecimal(digits, ds) && n >= 0
  {
  }

  lemma UnitIs(unit: string, seconds: int)
    requires UnitOf(unit, seconds)
    ensures var c := if unit == "" then 's' else unit[0]; UnitSeconds(c) == seconds && c != LONG_S
    ensures seconds > 0
  {
  }

  lemma ProductSign(n: int, k: int)
    requires n >= 0 && k > 0
    ensures n * k <= 0 <==> n == 0
  {
    if n > 0 { MultipleIsFar(n, k); }
  }

  lemma TrimmedPieces(s: string, ds: Decimals) returns (digits: string, gap: string, unit: string)
    requires ParseTrimmed(s, ds) != Malformed && (s == "" || !IsSpace(s[|s| - 1]))
    ensures s == digits + gap + unit && Spells(s, "", digits, gap, unit, "", ds)
  {
    hide PeriodOf, IsUnit, IsSpace, DigitRun, AllDecimal, LStrip, Spells, AllSpaces;
    var n := DigitRun(s, ds);
    digits, unit := s[..n], LStrip(s[n..]);
    gap := LStripPieces(s[n..]);
    assert s[n..] == gap + unit && s == digits + gap + unit;
    if unit == "" && gap != "" {
      assert s == digits + gap;
      TrailingGap(digits, gap);
    }
    WithoutBlanksAround(digits, gap, unit, ds);
  }

  lemma TrailingGap(digits: string, gap: string)
    requires AllSpaces(gap) && gap != ""
    ensures IsSpace((digits + gap)[|digits + gap| - 1])
  {
    hide IsSpace;
    assert (digits + gap)[|digits + gap| - 1] == gap[|gap| - 1];
  }

  lemma WithoutBlanksAround(digits: string, gap: string, unit: string, ds: Decimals)
    requires digits != "" && AllDecimal(digits, ds) && AllSpaces(gap)
    requires |unit| <= 1 && (unit == "" ==> gap == "") && (unit != "" ==> IsUnit(unit[0]))
    ensures Spells(digits + gap + unit, "", digits, gap, unit, "", ds)
  {
    hide IsUnit, IsSpace, AllDecimal;
  }

  lemma AcceptedPieces(value: string, ds: Decimals)
    returns (lead: string, digits: string, gap: string, unit: string, trail: string)
    requires ParseInterval(value, ds) != Malformed
    ensures Spells(value, lead, digits, gap, unit, trail, ds)
  {
    lead, trail := StripPieces(value);
    digits, gap, unit := TrimmedPieces(Strip(value), ds);
  }

  ghost predicate IsIntervalText(value: string, ds: Decimals) {
    exists lead, digits, gap, unit, trail :: Spells(value, lead, digits, gap, unit, trail, ds)
  }

  /** Exactly the written form is accepted: everything else is malformed. */
  lemma AcceptedIntervalIsSpelled(value: string, ds: Decimals)
    requires ValidDecimals(ds)
    ensures ParseInterval(value, ds) != Malformed <==> IsIntervalText(value, ds)
  {
    hide Spells, ParseInterval, PeriodOf;
    if ParseInterval(value, ds) != Malformed {
      var lead, digits, gap, unit, trail := AcceptedPieces(value, ds);
    } else if IsIntervalText(value, ds) {
      var lead, digits, gap, unit, trail :| Spells(value, lead, digits, gap, unit, trail, ds);
      SpelledIntervalParses(value, lead, digits, gap, unit, trail, ds);
      NeverMalformed(value, lead, digits, gap, unit, trail, ds);
    }
  }

  lemma NeverMalformed(value: string, lead: string, digits: string, gap: string, unit: string, trail: string, ds: Decimals)
    requires Spells(value, lead, digits, gap, unit, trail, ds)
    ensures AllDecimal(digits, ds) && PeriodOf(digits, if unit == "" then 's' else unit[0], ds) != Malformed
  {
  }

  // ---- Coalescing missed occurrences ----

  /** The closed form of the source: one floor division instead of a loop. */
  function CoalesceInterval(persisted: int, now: int, period: int): int
    requires period > 0
  {
    if persisted > now then persisted
    else persisted + period * ((now - persisted) / period + 1)
  }

  /** What the source's documentation describes: advance until strictly after now. */
  function AdvanceUntilAfter(persisted: int, now: int, period: int): int
    requires period > 0
    decreases now - persisted + period
  {
    if persisted > now then persisted else AdvanceUntilAfter(persisted + period, now, period)
  }

  lemma DivisionStep(n: int, k: int)
    requires k > 0
    ensures n / k == (n - k) / k + 1
  {
    var q, r := n / k, n % k;
    assert n - k == (q - 1) * k + r by { assert n == q * k + r; assert (q - 1) * k == q * k - k; }
    QuotientIs(n - k, k, q - 1, r);
  }

  lemma {:induction false} ClosedFormIsLoop(persisted: int, now: int, period: int)
    requires period > 0
    ensures CoalesceInterval(persisted, now, period) == AdvanceUntilAfter(persisted, now, period)
    decreases now - persisted + period
  {
    if persisted <= now {
      ClosedFormIsLoop(persisted + period, now, period);
      DivisionStep(now - persisted, period);
      var q := (now - persisted) / period;
      assert now - (persisted + period) == now - persisted - period;
      assert period * (q + 1) == period * q + period;
      if persisted + period > now {
        QuotientIs(now - persisted, period, 0, now - persisted);
        assert period * q == 0;
      }
    }
  }

  /** The result is the least occurrence of the same phase that is after now and not before the persisted one. */
  lemma {:induction false} CoalescedIsLeast(persisted: int, now: int, period: int)
    requires period > 0
    ensures CoalesceInterval(persisted, now, period) > now
    ensures exists k: nat :: CoalesceInterval(persisted, now, period) == persisted + k * period
    ensures forall k: nat :: persisted + k * period > now ==> CoalesceInterval(persisted, now, period) <= persisted + k * period
    decreases now - persisted + period
  {
    var c := CoalesceInterval(persisted, now, period);
    if persisted > now {
      assert c == persisted + 0 * period;
      forall k: nat ensures c <= persisted + k * period { assert k * period >= 0; }
    } else {
      CoalescedIsLeast(persisted + period, now, period);
      ClosedFormIsLoop(persisted, now, period);
      ClosedFormIsLoop(persisted + period, now, period);
      var k: nat :| c == persisted + period + k * period;
      assert c == persisted + (k + 1) * period by { assert (k + 1) * period == k * period + period; }
      forall k: nat | persisted + k * period > now
        ensures c <= persisted + k * period
      {
        assert 0 * period == 0;
        assert persisted + k * period == persisted + period + (k - 1) * period by {
          assert (k - 1) * period == k * period - period;
        }
      }
    }
  }

  /** Coalescing at an earlier moment first changes nothing. */
  lemma {:induction false} PathIndependent(persisted: int, first: int, second: int, period: int)
    requires period > 0 && first <= second
    ensures CoalesceInterval(CoalesceInterval(persisted, first, period), second, period)
         == CoalesceInterval(persisted, second, period)
    decreases first - persisted + period
  {
    if persisted <= first {
      PathIndependent(persisted + period, first, second, period);
      ClosedFormIsLoop(persisted, first, period);
      ClosedFormIsLoop(persisted + period, first, period);
      ClosedFormIsLoop(persisted, second, period);
      ClosedFormIsLoop(persisted + period, second, period);
    }
  }

  // ---- Triggers ----

  /** A cron expression's next time is computed by foreign code and enters as a function. */
  type CronClock = (string, string, int) -> int

  ghost predicate StrictlyLater(cron: CronClock) {
    forall e, z, t :: cron(e, z, t) > t
  }

  /** When an expression fires in a time zone: the library's own reading of it. */
  type Firing = (string, string, int) -> bool

  /** What the library promises: the first time after the given one at which the expression fires. */
  ghost predicate FiresNext(cron: CronClock, fires: Firing) {
    forall e, z, t :: IsNextFiring(fires, e, z, t, cron(e, z, t))
  }

  ghost predicate IsNextFiring(fires: Firing, e: string, z: string, after: int, next: int) {
    next > after && fires(e, z, next) && forall t :: after < t < next ==> !fires(e, z, t)
  }

  datatype Trigger = Interval(period: int) | Cron(expression: string, timezone: string) {
    predicate Valid() {
      Interval? ==> period > 0
    }

    function NextRunAt(cron: CronClock, after: int): int {
      match this
      case Interval(p) => after + p
      case Cron(e, z) => cron(e, z, after)
    }

    function Coalesce(cron: CronClock, persisted: int, now: int): int
      requires Valid()
    {
      match this
      case Interval(p) => CoalesceInterval(persisted, now, p)
      case Cron(e, z) => if persisted > now then persisted else cron(e, z, now)
    }
  }

  lemma CoalesceMovesPastNow(trigger: Trigger, cron: CronClock, persisted: int, now: int)
    requires trigger.Valid() && StrictlyLater(cron)
    ensures trigger.Coalesce(cron, persisted, now) > now
    ensures trigger.Coalesce(cron, persisted, now) >= persisted
  {
    if trigger.Interval? { CoalescedIsLeast(persisted, now, trigger.period); }
  }

  // ---- Which time a trigger is stored with ----

  lemma NextFiringIsLater(cron: CronClock, fires: Firing)
    requires FiresNext(cron, fires)
    ensures StrictlyLater(cron)
  {
    forall e, z, t ensures cron(e, z, t) > t { assert IsNextFiring(fires, e, z, t, cron(e, z, t)); }
  }

  /** The times at which a schedule is to run, seen from one of them: every period from there, or
      whenever its expression fires. */
  ghost predicate Occurs(trigger: Trigger, fires: Firing, from: int, t: int) {
    match trigger
    case Interval(p) => exists k: nat :: t == from + k * p
    case Cron(e, z) => fires(e, z, t)
  }

  /** `next` is the first of these times after `now`. */
  ghost predicate IsFirstAfter(trigger: Trigger, fires: Firing, from: int, now: int, next: int) {
    next > now && Occurs(trigger, fires, from, next) && forall t :: t > now && Occurs(trigger, fires, from, t) ==> next <= t
  }

  /** A new schedule's first run: one period from now, or the expression's next firing. */
  lemma FirstRunIs(trigger: Trigger, cron: CronClock, fires: Firing, now: int)
    requires trigger.Valid() && FiresNext(cron, fires)
    ensures IsFirstAfter(trigger, fires, now, now, trigger.NextRunAt(cron, now))
    ensures trigger.Interval? ==> trigger.NextRunAt(cron, now) == now + trigger.period
  {
    match trigger
    case Interval(p) =>
      assert now + p == now + 1 * p;
      forall t | t > now && Occurs(trigger, fires, now, t) ensures now + p <= t {
        var k: nat :| t == now + k * p;
        MultipleIsFar(k, p);
      }
    case Cron(e, z) => assert IsNextFiring(fires, e, z, now, cron(e, z, now));
  }

  /** However many runs were missed, coalescing a due schedule gives exactly the first run after now; one
      that is not due keeps its time. */
  lemma CoalescedIsFirst(trigger: Trigger, cron: CronClock, fires: Firing, persisted: int, now: int)
    requires trigger.Valid() && FiresNext(cron, fires)
    ensures persisted <= now ==> IsFirstAfter(trigger, fires, persisted, now, trigger.Coalesce(cron, persisted, now))
    ensures persisted > now ==> trigger.Coalesce(cron, persisted, now) == persisted
  {
    match trigger
    case Interval(p) => CoalescedIsLeast(persisted, now, p);
    case Cron(e, z) => assert IsNextFiring(fires, e, z, now, cron(e, z, now));
  }

  /** Runs seen from one run are the runs seen from a later one, as far as they come after it. */
  lemma OccursFromLater(trigger: Trigger, fires: Firing, from: int, later: int, t: int)
    requires trigger.Valid() && Occurs(trigger, fires, from, later) && later <= t
    ensures Occurs(trigger, fires, from, t) <==> Occurs(trigger, fires, later, t)
  {
    if trigger.Interval? {
      var m: nat :| later == from + m * trigger.period;
      MultiplesFromLater(from, m, later, trigger.period, t);
    }
  }

  lemma MultiplesFromLater(from: int, m: nat, later: int, p: int, t: int)
    requires p > 0 && later == from + m * p && later <= t
    ensures (exists k: nat :: t == from + k * p) <==> exists k: nat :: t == later + k * p
  {
    if k: nat :| t == from + k * p {
      Difference(k, m, p);
      if k < m { MultipleIsFar(m - k, p); }
      assert t == later + (k - m) * p;
    }
    if k: nat :| t == later + k * p {
      Difference(k + m, m, p);
      assert t == from + (k + m) * p;
    }
  }

  lemma Difference(k: int, m: int, p: int)
    ensures (k - m) * p == k * p - m * p
  {
  }
}
