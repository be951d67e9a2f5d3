/** UTC datetimes as the scheduler stores them: microseconds since 0001-01-01T00:00:00, their
    proleptic Gregorian fields, and the text of Python's `datetime.isoformat()`. */
module IsoTime {
  import opened Lexicographic
  import opened Decimal
  import opened Division
  import opened Options

  // ---- The calendar ----

  predicate IsLeap(y: int) {
    y % 4 == 0 && (y % 100 != 0 || y % 400 == 0)
  }

  function DaysInYear(y: int): int {
    if IsLeap(y) then 366 else 365
  }

  function DaysInMonth(y: int, m: int): (d: int)
    requires 1 <= m <= 12
    ensures 28 <= d <= 31
  {
    if m == 2 then (if IsLeap(y) then 29 else 28)
    else if m == 4 || m == 6 || m == 9 || m == 11 then 30
    else 31
  }

  /** Days of the years 1..y-1. */
  function DaysBeforeYear(y: int): int {
    (y - 1) * 365 + (y - 1) / 4 - (y - 1) / 100 + (y - 1) / 400
  }

  /** Days of the months 1..m-1 of year y. */
  function DaysBeforeMonth(y: int, m: int): (d: int)
    requires 1 <= m <= 13
    ensures 0 <= d <= 31 * (m - 1)
    ensures m == 13 ==> d == DaysInYear(y)
  {
    if m == 1 then 0
    else if m == 13 then DaysInYear(y)
    else DaysBeforeMonth(y, m - 1) + DaysInMonth(y, m - 1)
  }

  lemma NextMonth(y: int, m: int)
    requires 1 <= m <= 12
    ensures DaysBeforeMonth(y, m + 1) == DaysBeforeMonth(y, m) + DaysInMonth(y, m)
  {
    if m == 12 {
      assert DaysBeforeMonth(y, 2) == 31;
      assert DaysBeforeMonth(y, 3) == 31 + DaysInMonth(y, 2);
      assert DaysBeforeMonth(y, 4) == DaysBeforeMonth(y, 3) + 31;
      assert DaysBeforeMonth(y, 5) == DaysBeforeMonth(y, 4) + 30;
      assert DaysBeforeMonth(y, 6) == DaysBeforeMonth(y, 5) + 31;
      assert DaysBeforeMonth(y, 7) == DaysBeforeMonth(y, 6) + 30;
      assert DaysBeforeMonth(y, 8) == DaysBeforeMonth(y, 7) + 31;
      assert DaysBeforeMonth(y, 9) == DaysBeforeMonth(y, 8) + 31;
      assert DaysBeforeMonth(y, 10) == DaysBeforeMonth(y, 9) + 30;
      assert DaysBeforeMonth(y, 11) == DaysBeforeMonth(y, 10) + 31;
      assert DaysBeforeMonth(y, 12) == DaysBeforeMonth(y, 11) + 30;
    }
  }

  lemma NextQuotient(y: int, k: int)
    requires k > 0
    ensures y / k == (y - 1) / k + (if y % k == 0 then 1 else 0)
  {
    var q, r := y / k, y % k;
    assert y == q * k + r;
    if r == 0 {
      assert y - 1 == (q - 1) * k + (k - 1) by { assert (q - 1) * k == q * k - k; }
      QuotientIs(y - 1, k, q - 1, k - 1);
    } else {
      QuotientIs(y - 1, k, q, r - 1);
    }
  }

  lemma CenturiesAndFours(y: int)
    ensures y % 400 == 0 ==> y % 100 == 0
    ensures y % 100 == 0 ==> y % 4 == 0
  {
  }

  lemma NextYear(y: int)
    ensures DaysBeforeYear(y + 1) == DaysBeforeYear(y) + DaysInYear(y)
  {
    var before, after := (y - 1) * 365 + (y - 1) / 4 - (y - 1) / 100 + (y - 1) / 400, y * 365 + y / 4 - y / 100 + y / 400;
    assert before == DaysBeforeYear(y) && after == DaysBeforeYear(y + 1);
    CenturiesAndFours(y);
    LeapYears(y);
  }

  lemma LeapYears(y: int)
    requires (y % 400 == 0 ==> y % 100 == 0) && (y % 100 == 0 ==> y % 4 == 0)
    ensures y / 4 - y / 100 + y / 400 == (y - 1) / 4 - (y - 1) / 100 + (y - 1) / 400 + if IsLeap(y) then 1 else 0
  {
    NextQuotient(y, 4);
    NextQuotient(y, 100);
    NextQuotient(y, 400);
  }

  lemma {:induction false} YearsGrow(y: int, z: int)
    requires y <= z
    ensures DaysBeforeYear(y) <= DaysBeforeYear(z)
    decreases z - y
  {
    if y < z {
      NextYear(y);
      YearsGrow(y + 1, z);
    }
  }

  lemma {:induction false} MonthsGrow(y: int, m: int, n: int)
    requires 1 <= m <= n <= 13
    ensures DaysBeforeMonth(y, m) <= DaysBeforeMonth(y, n)
    decreases n - m
  {
    if m < n {
      NextMonth(y, m);
      MonthsGrow(y, m + 1, n);
    }
  }

  // ---- Datetimes ----

  const DAY: int := 86_400_000_000
  const SECOND: int := 1_000_000
  /** One past the last representable instant, 9999-12-31T23:59:59.999999. */
  const END_OF_TIME: int := 3_652_059 * DAY

  datatype Civil = Civil(year: int, month: int, day: int, hour: int, minute: int, second: int, micro: int) {
    predicate Valid() {
      && 1 <= year <= 9999 && 1 <= month <= 12 && 1 <= day <= DaysInMonth(year, month)
      && 0 <= hour < 24 && 0 <= minute < 60 && 0 <= second < 60 && 0 <= micro < SECOND
    }

    function DayNumber(): int
      requires Valid()
    {
      DaysBeforeYear(year) + DaysBeforeMonth(year, month) + day - 1
    }

    function TimeOfDay(): (t: int)
      requires Valid()
      ensures 0 <= t < DAY
    {
      ((hour * 60 + minute) * 60 + second) * SECOND + micro
    }

    function Micros(): int
      requires Valid()
    {
      DayNumber() * DAY + TimeOfDay()
    }

    /** Year to second: what the text spells before the optional fraction. */
    function Numbers(): seq<int> {
      [year, month, day, hour, minute, second]
    }
  }

  lemma TripleLess(x: int, y: int, z: int, u: int, v: int, w: int)
    ensures NumbersLess([x, y, z], [u, v, w]) <==> x < u || (x == u && (y < v || (y == v && z < w)))
  {
    assert [x, y, z][1..] == [y, z] && [u, v, w][1..] == [v, w];
    assert [y, z][1..] == [z] && [v, w][1..] == [w];
    assert NumbersLess([z], [w]) <==> z < w;
    assert NumbersLess([y, z], [v, w]) <==> y < v || (y == v && z < w);
  }

  predicate DateLess(a: Civil, b: Civil) {
    a.year < b.year || (a.year == b.year && (a.month < b.month || (a.month == b.month && a.day < b.day)))
  }

  lemma DayNumberOrder(a: Civil, b: Civil)
    requires a.Valid() && b.Valid() && DateLess(a, b)
    ensures a.DayNumber() < b.DayNumber()
  {
    NextMonth(a.year, a.month);
    MonthsGrow(a.year, a.month + 1, 13);
    if a.year < b.year {
      NextYear(a.year);
      YearsGrow(a.year + 1, b.year);
    } else if a.month < b.month {
      MonthsGrow(a.year, a.month + 1, b.month);
    }
  }

  lemma NumbersLessSplit(xs: seq<int>, ys: seq<int>)
    requires |xs| == |ys| == 6
    ensures NumbersLess(xs, ys) <==>
              NumbersLess(xs[..3], ys[..3]) || (xs[..3] == ys[..3] && NumbersLess(xs[3..], ys[3..]))
  {
    assert xs[..3][1..] == xs[1..][..2] && ys[..3][1..] == ys[1..][..2];
    assert xs[1..][..2][1..] == xs[2..][..1] && ys[1..][..2][1..] == ys[2..][..1];
    assert NumbersLess(xs[2..][..1], ys[2..][..1]) <==> xs[2] < ys[2];
    assert NumbersLess(xs[2..], ys[2..]) <==> xs[2] < ys[2] || (xs[2] == ys[2] && NumbersLess(xs[3..], ys[3..]));
    assert xs[..3] == [xs[0], xs[1], xs[2]] && ys[..3] == [ys[0], ys[1], ys[2]];
  }

  lemma EarlierFieldsEarlierTime(a: Civil, b: Civil)
    requires a.Valid() && b.Valid()
    requires NumbersLess(a.Numbers(), b.Numbers()) || (a.Numbers() == b.Numbers() && a.micro < b.micro)
    ensures a.Micros() < b.Micros()
  {
    var xs, ys := a.Numbers(), b.Numbers();
    NumbersLessSplit(xs, ys);
    assert xs[..3] == [a.year, a.month, a.day] && ys[..3] == [b.year, b.month, b.day];
    assert xs[3..] == [a.hour, a.minute, a.second] && ys[3..] == [b.hour, b.minute, b.second];
    TripleLess(a.year, a.month, a.day, b.year, b.month, b.day);
    TripleLess(a.hour, a.minute, a.second, b.hour, b.minute, b.second);
    if DateLess(a, b) {
      DayNumberOrder(a, b);
    } else {
      SameNumbers(xs[..3], ys[..3]);
      if xs == ys { SameNumbers(xs[3..], ys[3..]); }
      assert a.DayNumber() == b.DayNumber();
    }
  }

  lemma SameNumbers(xs: seq<int>, ys: seq<int>)
    requires |xs| == |ys| == 3 && xs == ys
    ensures xs[0] == ys[0] && xs[1] == ys[1] && xs[2] == ys[2]
  {
  }

  // ---- The stored text ----

  /** A numeral and the separator printed after it. */
  datatype Field = Field(value: int, width: nat, separator: string)

  predicate Printable(fs: seq<Field>) {
    forall i :: 0 <= i < |fs| ==> 0 <= fs[i].value < Pow10(fs[i].width)
  }

  function Join(fs: seq<Field>): string
    requires Printable(fs)
  {
    if fs == [] then "" else Pad(fs[0].value, fs[0].width) + fs[0].separator + Join(fs[1..])
  }

  function Values(fs: seq<Field>): (xs: seq<int>)
    ensures |xs| == |fs|
  {
    seq(|fs|, i requires 0 <= i < |fs| => fs[i].value)
  }

  function Seconds(c: Civil): (fs: seq<Field>)
    requires c.Valid()
    ensures Printable(fs)
  {
    Widths();
    [Field(c.year, 4, "-"), Field(c.month, 2, "-"), Field(c.day, 2, "T"),
     Field(c.hour, 2, ":"), Field(c.minute, 2, ":"), Field(c.second, 2, "")]
  }

  lemma Widths()
    ensures Pow10(2) == 100 && Pow10(4) == 10_000 && Pow10(6) == SECOND
  {
    assert Pow10(1) == 10 && Pow10(2) == 100 && Pow10(3) == 1000 && Pow10(5) == 100_000;
  }

  /** The fraction is printed, with six digits, only when it is not zero. */
  function Fraction(micro: int): string
    requires 0 <= micro < SECOND
  {
    Widths();
    (if micro == 0 then "" else "." + Pad(micro, 6)) + "+00:00"
  }

  function IsoFormat(c: Civil): string
    requires c.Valid()
  {
    Join(Seconds(c)) + Fraction(c.micro)
  }

  predicate SameShape(fs: seq<Field>, gs: seq<Field>) {
    && Printable(fs) && Printable(gs) && |fs| == |gs|
    && forall i :: 0 <= i < |fs| ==> fs[i].width == gs[i].width && fs[i].separator == gs[i].separator
  }

  lemma JoinThen(fs: seq<Field>, a: string)
    requires Printable(fs) && fs != []
    ensures Join(fs) + a == Pad(fs[0].value, fs[0].width) + (fs[0].separator + (Join(fs[1..]) + a))
  {
  }

  lemma FieldOrder(f: Field, g: Field, a: string, b: string)
    requires f.separator == g.separator && f.width == g.width
    requires 0 <= f.value < Pow10(f.width) && 0 <= g.value < Pow10(g.width)
    ensures LexLess(Pad(f.value, f.width) + (f.separator + a), Pad(g.value, g.width) + (g.separator + b)) <==>
              f.value < g.value || (f.value == g.value && LexLess(a, b))
  {
    var p, q := Pad(f.value, f.width), Pad(g.value, g.width);
    PadOrder(f.value, g.value, f.width);
    if f.value == g.value {
      LexLessCommonPrefix(p, f.separator + a, f.separator + b);
      LexLessCommonPrefix(f.separator, a, b);
    } else {
      LexLessDifferentHeads(p, q, f.separator + a, g.separator + b);
    }
  }

  lemma ValuesTail(fs: seq<Field>)
    requires fs != []
    ensures Values(fs)[0] == fs[0].value && Values(fs)[1..] == Values(fs[1..])
    ensures Values(fs) == [fs[0].value] + Values(fs[1..])
  {
  }

  /** Two texts of the same shape compare by their numbers, and by what follows when those agree. */
  lemma {:induction false} JoinOrder(fs: seq<Field>, gs: seq<Field>, a: string, b: string)
    requires SameShape(fs, gs)
    ensures LexLess(Join(fs) + a, Join(gs) + b) <==>
              NumbersLess(Values(fs), Values(gs)) || (Values(fs) == Values(gs) && LexLess(a, b))
  {
    if fs == [] {
      assert Join(fs) + a == a && Join(gs) + b == b;
    } else {
      JoinThen(fs, a);
      JoinThen(gs, b);
      FieldOrder(fs[0], gs[0], Join(fs[1..]) + a, Join(gs[1..]) + b);
      ValuesTail(fs);
      ValuesTail(gs);
      JoinOrder(fs[1..], gs[1..], a, b);
    }
  }

  /** '+' precedes '.', so an absent fraction sorts before every present one. */
  lemma FractionOrder(m: int, n: int)
    requires 0 <= m < SECOND && 0 <= n < SECOND
    ensures LexLess(Fraction(m), Fraction(n)) <==> m < n
  {
    Widths();
    if m == n {
      LexLessTotal(Fraction(m), Fraction(n));
    } else if m != 0 && n != 0 {
      PadOrder(m, n, 6);
      assert Fraction(m) == "." + (Pad(m, 6) + "+00:00") && Fraction(n) == "." + (Pad(n, 6) + "+00:00");
      LexLessCommonPrefix(".", Pad(m, 6) + "+00:00", Pad(n, 6) + "+00:00");
      LexLessDifferentHeads(Pad(m, 6), Pad(n, 6), "+00:00", "+00:00");
    } else {
      assert Fraction(m)[0] == if m == 0 then '+' else '.';
      assert Fraction(n)[0] == if n == 0 then '+' else '.';
    }
  }

  lemma {:induction false} NumbersLessTotal(xs: seq<int>, ys: seq<int>)
    requires |xs| == |ys|
    ensures xs == ys || NumbersLess(xs, ys) || NumbersLess(ys, xs)
  {
    if xs != [] {
      NumbersLessTotal(xs[1..], ys[1..]);
      assert xs == [xs[0]] + xs[1..] && ys == [ys[0]] + ys[1..];
    }
  }

  /** Text order is time order, although some texts carry a fraction and some do not. */
  lemma IsoOrder(a: Civil, b: Civil)
    requires a.Valid() && b.Valid()
    ensures LexLess(IsoFormat(a), IsoFormat(b)) <==> a.Micros() < b.Micros()
    ensures IsoFormat(a) == IsoFormat(b) <==> a == b
    ensures a.Micros() == b.Micros() <==> a == b
  {
    IsoOrderForward(a, b);
    IsoOrderForward(b, a);
    NumbersLessTotal(a.Numbers(), b.Numbers());
    LexLessTotal(IsoFormat(a), IsoFormat(b));
    if a.Numbers() == b.Numbers() && a.micro == b.micro {
      assert a.year == a.Numbers()[0] == b.year && a.month == a.Numbers()[1] == b.month;
      assert a.day == a.Numbers()[2] == b.day && a.hour == a.Numbers()[3] == b.hour;
      assert a.minute == a.Numbers()[4] == b.minute && a.second == a.Numbers()[5] == b.second;
      assert a == b;
    }
  }

  lemma IsoOrderForward(a: Civil, b: Civil)
    requires a.Valid() && b.Valid()
    ensures NumbersLess(a.Numbers(), b.Numbers()) || (a.Numbers() == b.Numbers() && a.micro < b.micro) ==>
              LexLess(IsoFormat(a), IsoFormat(b)) && a.Micros() < b.Micros()
  {
    JoinOrder(Seconds(a), Seconds(b), Fraction(a.micro), Fraction(b.micro));
    FractionOrder(a.micro, b.micro);
    assert Values(Seconds(a)) == a.Numbers() && Values(Seconds(b)) == b.Numbers();
    if NumbersLess(a.Numbers(), b.Numbers()) || (a.Numbers() == b.Numbers() && a.micro < b.micro) {
      EarlierFieldsEarlierTime(a, b);
    }
  }

  // ---- Instants ----

  function YearOf(day: int, y: int): (r: int)
    requires 1 <= y <= 9999 && DaysBeforeYear(y) <= day < DaysBeforeYear(10_000)
    ensures y <= r <= 9999 && DaysBeforeYear(r) <= day < DaysBeforeYear(r + 1)
    decreases 10_000 - y
  {
    if day < DaysBeforeYear(y + 1) then y else YearOf(day, y + 1)
  }

  function MonthOf(y: int, day: int, m: int): (r: int)
    requires 1 <= m <= 12 && DaysBeforeMonth(y, m) <= day < DaysInYear(y)
    ensures m <= r <= 12 && DaysBeforeMonth(y, r) <= day < DaysBeforeMonth(y, r + 1)
    decreases 12 - m
  {
    if day < DaysBeforeMonth(y, m + 1) then m else MonthOf(y, day, m + 1)
  }

  predicate Representable(t: int) {
    0 <= t < END_OF_TIME
  }

  /** The datetime at an instant: what Python's datetime addition computes. */
  function FromMicros(t: int): (c: Civil)
    requires Representable(t)
    ensures c.Valid() && c.Micros() == t
  {
    var day, time := t / DAY, t % DAY;
    var y := YearOf(day, 1);
    NextYear(y);
    var rest := day - DaysBeforeYear(y);
    var m := MonthOf(y, rest, 1);
    NextMonth(y, m);
    var seconds := time / SECOND;
    Civil(y, m, rest - DaysBeforeMonth(y, m) + 1,
          seconds / 3600, seconds / 60 % 60, seconds % 60, time % SECOND)
  }

  function Text(t: int): string
    requires Representable(t)
  {
    IsoFormat(FromMicros(t))
  }

  /** The scheduler's SQL comparisons on stored text are comparisons of instants. */
  lemma TextOrder(s: int, t: int)
    requires Representable(s) && Representable(t)
    ensures LexLess(Text(s), Text(t)) <==> s < t
    ensures LexAtMost(Text(s), Text(t)) <==> s <= t
    ensures Text(s) == Text(t) <==> s == t
  {
    IsoOrder(FromMicros(s), FromMicros(t));
  }

  // ---- Reading the text back ----

  function ReadNumber(s: string, from: nat, width: nat): Option<int>
    requires from + width <= |s|
  {
    var digits := s[from..from + width];
    if AllDigits(digits) then Some(Number(digits)) else None
  }

  function ReadFields(s: string): Option<Civil> {
    if !(|s| == 25 || (|s| == 32 && s[19] == '.')) || s[|s| - 6..] != "+00:00" then None
    else if s[4] != '-' || s[7] != '-' || s[10] != 'T' || s[13] != ':' || s[16] != ':' then None
    else
      var micro := if |s| == 32 then ReadNumber(s, 20, 6) else Some(0);
      match (ReadNumber(s, 0, 4), ReadNumber(s, 5, 2), ReadNumber(s, 8, 2),
             ReadNumber(s, 11, 2), ReadNumber(s, 14, 2), ReadNumber(s, 17, 2), micro)
      case (Some(y), Some(mo), Some(d), Some(h), Some(mi), Some(sec), Some(us)) =>
        Some(Civil(y, mo, d, h, mi, sec, us))
      case _ => None
  }

  /** `datetime.fromisoformat` on the two layouts that `isoformat` prints for UTC. */
  function FromIsoFormat(s: string): Option<Civil> {
    match ReadFields(s)
    case Some(c) => if c.Valid() then Some(c) else None
    case None => None
  }

  lemma JoinSeconds(c: Civil)
    requires c.Valid()
    ensures Pow10(4) == 10_000 && Pow10(2) == 100
    ensures Join(Seconds(c)) == Pad(c.year, 4) + "-" + Pad(c.month, 2) + "-" + Pad(c.day, 2) + "T" +
                                Pad(c.hour, 2) + ":" + Pad(c.minute, 2) + ":" + Pad(c.second, 2)
  {
    hide Pad, DaysInMonth;
    Widths();
    var fs := Seconds(c);
    assert Join(fs[6..]) == "";
    assert fs[5..][1..] == fs[6..] && fs[4..][1..] == fs[5..] && fs[3..][1..] == fs[4..];
    assert fs[2..][1..] == fs[3..] && fs[1..][1..] == fs[2..];
    assert Join(fs[5..]) == Pad(c.second, 2);
    assert Join(fs[4..]) == Pad(c.minute, 2) + ":" + Join(fs[5..]);
    assert Join(fs[3..]) == Pad(c.hour, 2) + ":" + Join(fs[4..]);
    assert Join(fs[2..]) == Pad(c.day, 2) + "T" + Join(fs[3..]);
    assert Join(fs[1..]) == Pad(c.month, 2) + "-" + Join(fs[2..]);
    assert Join(fs) == Pad(c.year, 4) + "-" + Join(fs[1..]);
  }

  lemma ReadPadded(s: string, from: nat, n: int, width: nat)
    requires 0 <= n < Pow10(width) && from + width <= |s|
    requires s[from..from + width] == Pad(n, width)
    ensures ReadNumber(s, from, width) == Some(n)
  {
    NumberOfPad(n, width);
  }

  /** Where the parts of a text in the fixed layout lie. */
  lemma FixedLayout(y: string, mo: string, d: string, h: string, mi: string, sec: string, tail: string)
    requires |y| == 4 && |mo| == 2 && |d| == 2 && |h| == 2 && |mi| == 2 && |sec| == 2
    ensures var s := y + "-" + mo + "-" + d + "T" + h + ":" + mi + ":" + sec + tail;
            && |s| == 19 + |tail|
            && s[0..4] == y && s[5..7] == mo && s[8..10] == d && s[11..13] == h && s[14..16] == mi && s[17..19] == sec
            && s[4] == '-' && s[7] == '-' && s[10] == 'T' && s[13] == ':' && s[16] == ':' && s[19..] == tail
  {
  }

  lemma FormatPieces(c: Civil)
    requires c.Valid()
    ensures Pow10(4) == 10_000 && Pow10(2) == 100
    ensures var s := IsoFormat(c);
            && |s| >= 25
            && s[0..4] == Pad(c.year, 4) && s[5..7] == Pad(c.month, 2) && s[8..10] == Pad(c.day, 2)
            && s[11..13] == Pad(c.hour, 2) && s[14..16] == Pad(c.minute, 2) && s[17..19] == Pad(c.second, 2)
            && s[4] == '-' && s[7] == '-' && s[10] == 'T' && s[13] == ':' && s[16] == ':'
            && s[19..] == Fraction(c.micro)
  {
    JoinSeconds(c);
    FractionLength(c.micro);
    hide Pad, Fraction, Join, Seconds;
    FixedLayout(Pad(c.year, 4), Pad(c.month, 2), Pad(c.day, 2), Pad(c.hour, 2), Pad(c.minute, 2), Pad(c.second, 2), Fraction(c.micro));
  }

  lemma FractionLength(micro: int)
    requires 0 <= micro < SECOND
    ensures |Fraction(micro)| >= 6
  {
    Widths();
  }

  lemma ReadFraction(s: string, micro: int)
    requires |s| >= 19 && 0 <= micro < SECOND && s[19..] == Fraction(micro)
    ensures |s| == 25 || (|s| == 32 && s[19] == '.')
    ensures s[|s| - 6..] == "+00:00"
    ensures (if |s| == 32 then ReadNumber(s, 20, 6) else Some(0)) == Some(micro)
  {
    Widths();
    var tail := s[19..];
    assert |s| == 19 + |tail| && s[|s| - 6..] == tail[|tail| - 6..];
    if micro != 0 {
      assert tail == "." + (Pad(micro, 6) + "+00:00");
      assert s[20..26] == tail[1..7] == Pad(micro, 6);
      ReadPadded(s, 20, micro, 6);
      assert s[19] == tail[0] == '.';
    }
  }

  /** `fromisoformat` undoes `isoformat`. */
  lemma IsoRoundTrip(c: Civil)
    requires c.Valid()
    ensures FromIsoFormat(IsoFormat(c)) == Some(c)
  {
    FormatPieces(c);
    var s := IsoFormat(c);
    ReadPadded(s, 0, c.year, 4);
    ReadPadded(s, 5, c.month, 2);
    ReadPadded(s, 8, c.day, 2);
    ReadPadded(s, 11, c.hour, 2);
    ReadPadded(s, 14, c.minute, 2);
    ReadPadded(s, 17, c.second, 2);
    ReadFraction(s, c.micro);
    assert ReadFields(s) == Some(c);
  }

  /** The instant a stored text denotes. */
  function Instant(s: string): Option<int> {
    match FromIsoFormat(s)
    case Some(c) => Some(c.Micros())
    case None => None
  }

  lemma InstantOfText(t: int)
    requires Representable(t)
    ensures Instant(Text(t)) == Some(t)
  {
    IsoRoundTrip(FromMicros(t));
  }
}
