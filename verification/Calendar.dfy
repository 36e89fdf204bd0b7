/** Days since the Unix epoch to a proleptic Gregorian date, and the listing's time stamps
    (crates/tole-cli/src/main.rs). Leap years and month lengths are those of section 5.7 and
    Appendix C of RFC 3339. */
module Calendar {
  import opened Common
  import opened Text

  datatype Date = Date(year: int, month: int, day: int)

  predicate IsLeap(y: int) { y % 4 == 0 && (y % 100 != 0 || y % 400 == 0) }

  function MonthLength(y: int, m: int): int
  {
    if m == 2 then (if IsLeap(y) then 29 else 28)
    else if m == 4 || m == 6 || m == 9 || m == 11 then 30
    else 31
  }

  predicate ValidDate(d: Date)
  {
    1 <= d.month <= 12 && 1 <= d.day <= MonthLength(d.year, d.month)
  }

  /** The calendar day after `d`. */
  function NextDay(d: Date): Date
  {
    if d.day < MonthLength(d.year, d.month) then Date(d.year, d.month, d.day + 1)
    else if d.month < 12 then Date(d.year, d.month + 1, 1)
    else Date(d.year + 1, 1, 1)
  }

  // --------------------------------------------- the constant-division form

  /** Year within the 400-year era, counted from March. */
  function YearOfEra(doe: int): int
  {
    (doe - doe / 1460 + doe / 36524 - doe / 146096) / 365
  }

  /** First day of the `y`-th March year of an era. */
  function YearStart(y: int): int { 365 * y + y / 4 - y / 100 }

  /** March year of a day of an era, and the day's position in it. */
  function EraParts(era: int, doe: int): (int, int)
  {
    var yoe := YearOfEra(doe);
    (yoe + era * 400, doe - YearStart(yoe))
  }

  function MarchParts(days: int): (int, int)
  {
    var z := days + 719468;
    EraParts(z / 146097, z % 146097)
  }

  /** Month, counted from March, of the `doy`-th day of a March year. */
  function MonthOf(doy: int): int { (5 * doy + 2) / 153 }

  /** First day of the `mp`-th month from March. */
  function FirstDay(mp: int): int { (153 * mp + 2) / 5 }

  /** Date of the `doy`-th day of the March year `y`. */
  function MarchDate(y: int, doy: int): Date
  {
    var mp := MonthOf(doy);
    var mth := if mp < 10 then mp + 3 else mp - 9;
    Date(if mth <= 2 then y + 1 else y, mth, doy - FirstDay(mp) + 1)
  }

  /** The date `civil_from_days` prints. */
  function Civil(days: int): Date
  {
    var (y, doy) := MarchParts(days);
    MarchDate(y, doy)
  }

  /** A day of the era as centuries `c`, four-year cycles `q`, years `t` and days `u`. */
  lemma YearOfEraParts(doe: int, c: int, q: int, t: int, u: int)
    requires 0 <= c <= 3 && 0 <= q <= 24 && 0 <= t <= 3 && 0 <= u <= 365
    requires u == 365 ==> t == 3 && (q == 24 ==> c == 3)
    requires doe == 36524 * c + 1461 * q + 365 * t + u
    ensures YearOfEra(doe) == 100 * c + 4 * q + t
    ensures YearStart(100 * c + 4 * q + t) == doe - u
  {
    var last := if c == 3 && q == 24 && u == 365 then 1 else 0;
    assert doe / 146096 == last;
    assert doe / 36524 == c + last;
    var s := 365 * t + u;
    var k := (24 * c + q + s) / 1460;
    assert 0 <= k <= 1 && (k == 1 ==> t == 3);
    assert doe == 1460 * (25 * c + q) + (24 * c + q + s);
    assert doe / 1460 == 25 * c + q + k;
    assert doe - doe / 1460 + doe / 36524 - doe / 146096 == 365 * (100 * c + 4 * q) + (s - k);
    assert (s - k) / 365 == t;
    assert (100 * c + 4 * q + t) / 4 == 25 * c + q;
    assert (100 * c + 4 * q + t) / 100 == c;
  }

  lemma LeapParts(c: int, q: int, t: int)
    requires 0 <= c <= 3 && 0 <= q <= 24 && 0 <= t <= 3
    ensures IsLeap(100 * c + 4 * q + t + 1) <==> t == 3 && (q == 24 ==> c == 3)
  {
    var z := 100 * c + 4 * q + t + 1;
    assert z == 4 * (25 * c + q) + (t + 1);
    if t == 3 {
      assert z == 100 * c + 4 * (q + 1);
    }
  }

  /** Centuries, four-year cycles and years of a day of the era. */
  lemma EraDigits(doe: int) returns (c: int, q: int, t: int)
    requires 0 <= doe < 146097
    ensures 0 <= c <= 3 && 0 <= q <= 24 && 0 <= t <= 3
    ensures var u := doe - (36524 * c + 1461 * q + 365 * t);
            0 <= u <= 365 && (u == 365 ==> t == 3 && (q == 24 ==> c == 3))
  {
    c := if doe == 146096 then 3 else doe / 36524;
    var r := doe - 36524 * c;
    q := if r == 36524 then 24 else r / 1461;
    var s := r - 1461 * q;
    t := if s == 1460 then 3 else s / 365;
  }

  lemma YearOfEraBounds(doe: int)
    requires 0 <= doe < 146097
    ensures var y := YearOfEra(doe); 0 <= y < 400 && 0 <= doe - YearStart(y) < (if IsLeap(y + 1) then 366 else 365)
  {
    hide YearOfEra, YearStart, IsLeap;
    var c, q, t := EraDigits(doe);
    YearOfEraParts(doe, c, q, t, doe - (36524 * c + 1461 * q + 365 * t));
    LeapParts(c, q, t);
  }

  function MarchYearLength(y: int): int { if IsLeap(y + 1) then 366 else 365 }

  /** A year of the era is found from any of its days. */
  lemma YearOfEraUnique(y: int, doe: int)
    requires 0 <= y < 400 && 0 <= doe < 146097
    requires 0 <= doe - YearStart(y) < MarchYearLength(y)
    ensures YearOfEra(doe) == y
  {
    YearOfEraBounds(doe);
    var z := YearOfEra(doe);
    if z < y { YearStartGap(z, y); }
    if y < z { YearStartGap(y, z); }
  }

  lemma YearStartGap(y: int, z: int)
    requires 0 <= y < z < 400
    ensures YearStart(y) + MarchYearLength(y) <= YearStart(z)
  {
    assert y / 100 == (y / 4) / 25 && z / 100 == (z / 4) / 25;
    assert (y + 1) / 100 == ((y + 1) / 4) / 25;
  }

  lemma LeapPeriod(y: int, era: int)
    ensures IsLeap(y + era * 400) <==> IsLeap(y)
  {
    var z := y + era * 400;
    assert z / 4 == y / 4 + 100 * era && z / 100 == y / 100 + 4 * era && z / 400 == y / 400 + era;
    assert z % 4 == y % 4 && z % 100 == y % 100 && z % 400 == y % 400;
  }

  lemma EraPartsSteps(era: int, doe: int)
    requires 0 <= doe < 146097
    ensures var (y, doy) := EraParts(era, doe);
            0 <= doy < MarchYearLength(y) &&
            (if doe == 146096 then EraParts(era + 1, 0) else EraParts(era, doe + 1)) ==
            if doy + 1 < MarchYearLength(y) then (y, doy + 1) else (y + 1, 0)
  {
    hide YearOfEra;
    var yoe := YearOfEra(doe);
    YearOfEraBounds(doe);
    LeapPeriod(yoe + 1, era);
    assert yoe + 1 + era * 400 == yoe + era * 400 + 1;
    if doe == 146096 {
      YearOfEraParts(doe, 3, 24, 3, 365);
      YearOfEraParts(0, 0, 0, 0, 0);
    } else {
      NextInEra(yoe, doe);
    }
  }

  lemma EraDivision(z: int)
    ensures 0 <= z % 146097 < 146097
    ensures (z + 1) / 146097 == if z % 146097 == 146096 then z / 146097 + 1 else z / 146097
    ensures (z + 1) % 146097 == if z % 146097 == 146096 then 0 else z % 146097 + 1
  {
  }

  lemma MarchPartsSteps(days: int)
    ensures var (y, doy) := MarchParts(days);
            0 <= doy < MarchYearLength(y) &&
            MarchParts(days + 1) == if doy + 1 < MarchYearLength(y) then (y, doy + 1) else (y + 1, 0)
  {
    EraDivision(days + 719468);
    EraPartsSteps((days + 719468) / 146097, (days + 719468) % 146097);
  }

  lemma MonthHolds(doy: int)
    requires 0 <= doy <= 365
    ensures 0 <= MonthOf(doy) <= 11 && FirstDay(MonthOf(doy)) <= doy < FirstDay(MonthOf(doy) + 1)
  {
  }

  lemma MonthIs(doy: int, mp: int)
    requires FirstDay(mp) <= doy < FirstDay(mp + 1)
    ensures MonthOf(doy) == mp
  {
  }

  lemma MonthSpans(mp: int)
    requires 0 <= mp <= 10
    ensures FirstDay(mp + 1) - FirstDay(mp) == if mp == 1 || mp == 3 || mp == 6 || mp == 8 then 30 else 31
    ensures FirstDay(0) == 0 && FirstDay(11) == 337 && FirstDay(12) == 367
  {
  }

  lemma DateSteps(p: (int, int), q: (int, int))
    requires 0 <= p.1 < MarchYearLength(p.0)
    requires q == if p.1 + 1 < MarchYearLength(p.0) then (p.0, p.1 + 1) else (p.0 + 1, 0)
    ensures ValidDate(MarchDate(p.0, p.1))
    ensures MarchDate(q.0, q.1) == NextDay(MarchDate(p.0, p.1))
  {
    hide MonthOf, FirstDay, IsLeap;
    MonthHolds(p.1);
    var mp := MonthOf(p.1);
    MonthSpans(if mp < 11 then mp else 0);
    if q.0 != p.0 {
      MonthSpans(0);
      MonthIs(0, 0);
      MonthIs(p.1, 11);
    } else if p.1 + 1 < FirstDay(mp + 1) {
      MonthIs(p.1 + 1, mp);
    } else if mp < 10 {
      MonthSpans(mp + 1);
      MonthIs(p.1 + 1, mp + 1);
    } else {
      MonthIs(p.1 + 1, mp + 1);
    }
  }

  lemma CivilEpoch()
    ensures Civil(0) == Date(1970, 1, 1)
  {
    hide YearOfEra;
    YearOfEraParts(135080, 3, 17, 1, 306);
    assert MarchParts(0) == (1969, 306);
  }

  lemma NextInEra(yoe: int, doe: int)
    requires 0 <= yoe < 400 && 0 <= doe < 146096
    requires 0 <= doe - YearStart(yoe) < MarchYearLength(yoe)
    ensures doe + 1 - YearStart(yoe) < MarchYearLength(yoe) ==> YearOfEra(doe + 1) == yoe
    ensures doe + 1 - YearStart(yoe) == MarchYearLength(yoe) ==>
              YearOfEra(doe + 1) == yoe + 1 && YearStart(yoe + 1) == doe + 1
  {
    if doe + 1 - YearStart(yoe) < MarchYearLength(yoe) {
      YearOfEraUnique(yoe, doe + 1);
    } else {
      assert (yoe + 1) / 100 == ((yoe + 1) / 4) / 25 && yoe / 100 == (yoe / 4) / 25;
      assert yoe + 1 < 400;
      assert YearStart(yoe + 1) == doe + 1;
      YearOfEraUnique(yoe + 1, doe + 1);
    }
  }

  /** Every integer maps to a valid date, 0 maps to 1970-01-01, and each further day is the calendar
      successor of the one before. */
  lemma CivilCountsDays(days: int)
    ensures ValidDate(Civil(days))
    ensures Civil(0) == Date(1970, 1, 1)
    ensures Civil(days + 1) == NextDay(Civil(days))
  {
    MarchPartsSteps(days);
    DateSteps(MarchParts(days), MarchParts(days + 1));
    CivilEpoch();
  }

  // ------------------------------------------------------ naive day counting

  function YearLength(y: int): int { if IsLeap(y) then 366 else 365 }

  /** Days from 1970-01-01 to January 1st of `y`, one year at a time. */
  function DaysToYear(y: int): int
    decreases if y >= 1970 then y - 1970 else 1970 - y
  {
    if y == 1970 then 0
    else if y > 1970 then DaysToYear(y - 1) + YearLength(y - 1)
    else DaysToYear(y + 1) - YearLength(y)
  }

  /** Days of `y` before the first of month `m`, one month at a time. */
  function DaysToMonth(y: int, m: int): int
    requires 1 <= m <= 13
    decreases m
  {
    if m == 1 then 0 else DaysToMonth(y, m - 1) + MonthLength(y, m - 1)
  }

  function DayNumber(d: Date): int
    requires ValidDate(d)
  {
    DaysToYear(d.year) + DaysToMonth(d.year, d.month) + d.day - 1
  }

  lemma MonthsOfYear(y: int)
    ensures DaysToMonth(y, 13) == YearLength(y)
    ensures DaysToMonth(y, 2) == 31
    ensures DaysToMonth(y, 12) == YearLength(y) - 31
  {
    assert DaysToMonth(y, 4) == DaysToMonth(y, 3) + 31;
    assert DaysToMonth(y, 6) == DaysToMonth(y, 5) + 31;
    assert DaysToMonth(y, 8) == DaysToMonth(y, 7) + 31;
    assert DaysToMonth(y, 10) == DaysToMonth(y, 9) + 30;
    assert DaysToMonth(y, 12) == DaysToMonth(y, 11) + 30;
  }

  lemma NextDayCounts(d: Date)
    requires ValidDate(d)
    ensures ValidDate(NextDay(d)) && DayNumber(NextDay(d)) == DayNumber(d) + 1
  {
    MonthsOfYear(d.year);
    assert d.month == 12 ==> DaysToYear(d.year + 1) == DaysToYear(d.year) + YearLength(d.year);
  }

  /** Whatever starts at the epoch and moves one calendar day at a time is inverse to counting. */
  lemma {:induction false} CountingIsInverse(f: int -> Date, days: int)
    requires f(0) == Date(1970, 1, 1)
    requires forall n :: ValidDate(f(n)) && f(n + 1) == NextDay(f(n))
    ensures DayNumber(f(days)) == days
    decreases if days >= 0 then days else -days
  {
    if days > 0 {
      CountingIsInverse(f, days - 1);
      NextDayCounts(f(days - 1));
      assert f(days - 1 + 1) == NextDay(f(days - 1));
    } else if days < 0 {
      CountingIsInverse(f, days + 1);
      NextDayCounts(f(days));
      assert f(days + 1) == NextDay(f(days));
    }
  }

  /** The closed form agrees with naive counting on every integer. */
  lemma DayNumberOfCivil(days: int)
    ensures ValidDate(Civil(days)) && DayNumber(Civil(days)) == days
  {
    forall n ensures ValidDate(Civil(n)) && Civil(n + 1) == NextDay(Civil(n)) {
      CivilCountsDays(n);
    }
    CivilCountsDays(0);
    CountingIsInverse(Civil, days);
  }

  /** Calendar order of dates. */
  predicate Earlier(d: Date, e: Date)
  {
    d.year < e.year || (d.year == e.year && (d.month < e.month || (d.month == e.month && d.day < e.day)))
  }

  lemma {:induction false} YearsGrow(y: int, z: int)
    requires y < z
    ensures DaysToYear(y) + YearLength(y) <= DaysToYear(z)
    decreases z - y
  {
    assert DaysToYear(y + 1) == DaysToYear(y) + YearLength(y);
    if y + 1 < z { YearsGrow(y + 1, z); }
  }

  lemma {:induction false} MonthsGrow(y: int, m: int, n: int)
    requires 1 <= m < n <= 13
    ensures DaysToMonth(y, m) + MonthLength(y, m) <= DaysToMonth(y, n)
    decreases n - m
  {
    if m + 1 < n { MonthsGrow(y, m, n - 1); }
  }

  lemma EarlierCounts(d: Date, e: Date)
    requires ValidDate(d) && ValidDate(e) && Earlier(d, e)
    ensures DayNumber(d) < DayNumber(e)
  {
    MonthsOfYear(d.year);
    if d.month < 13 { MonthsGrow(d.year, d.month, 13); }
    if d.year < e.year {
      YearsGrow(d.year, e.year);
      if e.month > 1 { MonthsGrow(e.year, 1, e.month); }
    } else if d.month < e.month {
      MonthsGrow(d.year, d.month, e.month);
    }
  }

  /** The conversion is a bijection between the integers and the valid dates: it is inverse to naive
      counting on both sides, and it keeps the order. */
  lemma CivilIsBijection(d: Date, days: int, later: int)
    ensures ValidDate(d) ==> Civil(DayNumber(d)) == d
    ensures days < later <==> Earlier(Civil(days), Civil(later))
  {
    if ValidDate(d) {
      var e := Civil(DayNumber(d));
      DayNumberOfCivil(DayNumber(d));
      if Earlier(d, e) { EarlierCounts(d, e); }
      if Earlier(e, d) { EarlierCounts(e, d); }
    }
    DayNumberOfCivil(days);
    DayNumberOfCivil(later);
    if Earlier(Civil(days), Civil(later)) { EarlierCounts(Civil(days), Civil(later)); }
    if Earlier(Civil(later), Civil(days)) { EarlierCounts(Civil(later), Civil(days)); }
  }

  // --------------------------------------------------------------- printing

  function Zeros(n: nat): (s: string)
    ensures |s| == n
  {
    if n == 0 then "" else "0" + Zeros(n - 1)
  }

  /** `{n:0width}`: zeros after the sign, wider numbers unshortened. */
  function ZeroPadded(n: int, width: nat): string
  {
    var sign, digits := if n < 0 then "-" else "", Numeral(if n < 0 then -n else n, Dec);
    sign + (if |sign| + |digits| < width then Zeros(width - |sign| - |digits|) else "") + digits
  }

  function DateText(d: Date): string
  {
    ZeroPadded(d.year, 4) + "-" + ZeroPadded(d.month, 2) + "-" + ZeroPadded(d.day, 2)
  }

  /** `civil_from_days`. */
  function CivilFromDays(days: int): string { DateText(Civil(days)) }

  /** `fmt_mtime` of a time in seconds since the epoch; earlier times read as the epoch. */
  function FmtMtime(time: int): string
  {
    var secs := if time < 0 then 0 else time;
    Stamp(CivilFromDays(secs / 86400), secs % 86400)
  }

  /** A date text followed by the hours and minutes of a day. */
  function Stamp(date: string, rem: int): string
  {
    date + " " + ZeroPadded(rem / 3600, 2) + ":" + ZeroPadded(rem % 3600 / 60, 2)
  }

  // ------------------------------------------------------ order of the texts

  /** The `width` lowest decimal digits of `n`. */
  function Digits(n: nat, width: nat): (s: string)
    ensures |s| == width
  {
    if width == 0 then "" else Digits(n / 10, width - 1) + [DigitChar(n % 10)]
  }

  /** Fixed-width fields compare left to right. */
  lemma {:induction false} TextLessConcat(p: string, q: string, s: string, t: string)
    requires |p| == |q|
    ensures TextLess(p + s, q + t) <==> TextLess(p, q) || (p == q && TextLess(s, t))
  {
    if p == "" {
      assert p + s == s && q + t == t;
    } else {
      TextLessConcat(p[1..], q[1..], s, t);
      assert (p + s)[1..] == p[1..] + s && (q + t)[1..] == q[1..] + t;
      assert p == [p[0]] + p[1..] && q == [q[0]] + q[1..];
    }
  }

  lemma {:induction false} DigitsOrder(n: nat, m: nat, width: nat)
    requires n < Pow10(width) && m < Pow10(width)
    ensures TextLess(Digits(n, width), Digits(m, width)) <==> n < m
    ensures Digits(n, width) == Digits(m, width) <==> n == m
  {
    if width > 0 {
      DigitsOrder(n / 10, m / 10, width - 1);
      var c, d := DigitChar(n % 10), DigitChar(m % 10);
      TextLessConcat(Digits(n / 10, width - 1), Digits(m / 10, width - 1), [c], [d]);
      assert TextLess([c], [d]) <==> c < d;
      assert Digits(n, width)[..width - 1] == Digits(n / 10, width - 1) && Digits(n, width)[width - 1] == c;
      assert Digits(m, width)[..width - 1] == Digits(m / 10, width - 1) && Digits(m, width)[width - 1] == d;
      assert c == d <==> n % 10 == m % 10;
    }
  }

  lemma {:induction false} PaddedIsDigits(n: nat, width: nat)
    requires n < Pow10(width) && 1 <= width
    ensures |Numeral(n, Dec)| <= width
    ensures ZeroPadded(n, width) == Digits(n, width)
  {
    if width > 1 && n >= 10 {
      PaddedIsDigits(n / 10, width - 1);
      var k := width - |Numeral(n, Dec)|;
      assert Zeros(k) + (Numeral(n / 10, Dec) + [DigitChar(n % 10)]) == Zeros(k) + Numeral(n / 10, Dec) + [DigitChar(n % 10)];
    } else {
      DigitsOfSmall(n, width);
    }
  }

  lemma {:induction false} DigitsOfSmall(n: nat, width: nat)
    requires n < 10 && 1 <= width
    ensures Digits(n, width) == Zeros(width - 1) + [DigitChar(n)]
  {
    if width > 1 {
      DigitsOfSmall(0, width - 1);
      ZerosSnoc(width - 2);
    }
  }

  lemma {:induction false} ZerosSnoc(n: nat)
    ensures Zeros(n) + "0" == Zeros(n + 1)
  {
    if n > 0 {
      ZerosSnoc(n - 1);
      assert "0" + (Zeros(n - 1) + "0") == ("0" + Zeros(n - 1)) + "0";
    }
  }

  /** Appending one fixed-width field to two texts extends their comparison. */
  lemma FieldOrder(p: string, q: string, n: nat, m: nat, width: nat)
    requires |p| == |q| && 1 <= width && n < Pow10(width) && m < Pow10(width)
    ensures |ZeroPadded(n, width)| == |ZeroPadded(m, width)| == width
    ensures TextLess(p + ZeroPadded(n, width), q + ZeroPadded(m, width)) <==> TextLess(p, q) || (p == q && n < m)
    ensures p + ZeroPadded(n, width) == q + ZeroPadded(m, width) <==> p == q && n == m
  {
    PaddedIsDigits(n, width);
    PaddedIsDigits(m, width);
    DigitsOrder(n, m, width);
    var s, t := ZeroPadded(n, width), ZeroPadded(m, width);
    TextLessConcat(p, q, s, t);
    assert (p + s)[..|p|] == p && (p + s)[|p|..] == s;
    assert (q + t)[..|q|] == q && (q + t)[|q|..] == t;
  }

  lemma SeparatorOrder(p: string, q: string, c: char)
    requires |p| == |q|
    ensures TextLess(p + [c], q + [c]) <==> TextLess(p, q)
    ensures p + [c] == q + [c] <==> p == q
  {
    TextLessConcat(p, q, [c], [c]);
    assert (p + [c])[..|p|] == p && (q + [c])[..|q|] == q;
  }

  predicate FourDigitYear(d: Date) { 0 <= d.year <= 9999 }

  lemma DateTextOrder(d: Date, e: Date)
    requires ValidDate(d) && ValidDate(e) && FourDigitYear(d) && FourDigitYear(e)
    ensures |DateText(d)| == |DateText(e)|
    ensures TextLess(DateText(d), DateText(e)) <==> Earlier(d, e)
    ensures DateText(d) == DateText(e) <==> d == e
  {
    assert Pow10(2) == 100 && Pow10(3) == 1000 && Pow10(4) == 10000;
    FieldOrder("", "", d.year, e.year, 4);
    assert forall s: string :: "" + s == s;
    var p, q := ZeroPadded(d.year, 4), ZeroPadded(e.year, 4);
    SeparatorOrder(p, q, '-');
    FieldOrder(p + "-", q + "-", d.month, e.month, 2);
    var p', q' := p + "-" + ZeroPadded(d.month, 2), q + "-" + ZeroPadded(e.month, 2);
    SeparatorOrder(p', q', '-');
    FieldOrder(p' + "-", q' + "-", d.day, e.day, 2);
  }

  /** For times in the years 1970 to 9999 (the epoch included), time stamps order as text exactly as
      the times do to the minute. */
  lemma FmtMtimeOrder(s: int, t: int)
    requires 0 <= s < 253402300800 && 0 <= t < 253402300800
    ensures TextLess(FmtMtime(s), FmtMtime(t)) <==> s / 60 < t / 60
    ensures FmtMtime(s) == FmtMtime(t) <==> s / 60 == t / 60
  {
    hide CivilFromDays, TextLess, Stamp;
    DayTextOrder(s / 86400, t / 86400);
    ClockOrder(CivilFromDays(s / 86400), CivilFromDays(t / 86400), s % 86400, t % 86400);
    MinuteOrder(s, t);
  }

  lemma DayTextOrder(m: int, n: int)
    requires 0 <= m < 2932897 && 0 <= n < 2932897
    ensures |CivilFromDays(m)| == |CivilFromDays(n)|
    ensures TextLess(CivilFromDays(m), CivilFromDays(n)) <==> m < n
    ensures CivilFromDays(m) == CivilFromDays(n) <==> m == n
  {
    hide Civil;
    StampDays(m);
    StampDays(n);
    DateTextOrder(Civil(m), Civil(n));
    CivilIsBijection(Civil(m), m, n);
    CivilIsBijection(Civil(n), n, m);
  }

  /** Exactly the days before 10000-01-01 have four-digit years (from the epoch on). */
  lemma StampDays(days: int)
    requires 0 <= days
    ensures ValidDate(Civil(days)) && 0 <= Civil(days).year
    ensures FourDigitYear(Civil(days)) <==> days < 2932897
  {
    CivilIsBijection(Date(10000, 1, 1), days, 2932897);
    CivilIsBijection(Date(10000, 1, 1), 0, days);
    DayNumberOfCivil(days);
    CivilEpoch();
    CivilEnd();
  }

  lemma CivilEnd()
    ensures Civil(2932897) == Date(10000, 1, 1)
  {
    hide YearOfEra;
    YearOfEraParts(146037, 3, 24, 3, 306);
    assert MarchParts(2932897) == (9999, 306);
  }

  lemma ClockOrder(p: string, q: string, s: int, t: int)
    requires |p| == |q| && 0 <= s < 86400 && 0 <= t < 86400
    ensures TextLess(Stamp(p, s), Stamp(q, t)) <==> TextLess(p, q) || (p == q && s / 60 < t / 60)
    ensures Stamp(p, s) == Stamp(q, t) <==> p == q && s / 60 == t / 60
  {
    assert Pow10(2) == 100;
    SeparatorOrder(p, q, ' ');
    FieldOrder(p + " ", q + " ", s / 3600, t / 3600, 2);
    var p', q' := p + " " + ZeroPadded(s / 3600, 2), q + " " + ZeroPadded(t / 3600, 2);
    SeparatorOrder(p', q', ':');
    FieldOrder(p' + ":", q' + ":", s % 3600 / 60, t % 3600 / 60, 2);
    MinuteOfDay(s);
    MinuteOfDay(t);
  }

  lemma MinuteOfDay(s: int)
    requires 0 <= s < 86400
    ensures s / 60 == 60 * (s / 3600) + s % 3600 / 60 && 0 <= s % 3600 / 60 < 60
  {
  }

  lemma MinuteOrder(s: int, t: int)
    ensures s / 60 < t / 60 <==> s / 86400 < t / 86400 || (s / 86400 == t / 86400 && s % 86400 / 60 < t % 86400 / 60)
    ensures s / 60 == t / 60 <==> s / 86400 == t / 86400 && s % 86400 / 60 == t % 86400 / 60
  {
    assert s / 60 == 1440 * (s / 86400) + s % 86400 / 60;
    assert t / 60 == 1440 * (t / 86400) + t % 86400 / 60;
  }

  // --------------------------------------------------------- reading a stamp

  lemma {:induction false} DigitsRead(n: nat, width: nat)
    requires n < Pow10(width)
    ensures DigitsValue(Digits(n, width), Dec) == Some(n)
  {
    if width > 0 {
      DigitsRead(n / 10, width - 1);
      assert Digits(n, width)[..width - 1] == Digits(n / 10, width - 1);
    }
  }

  /** A two- or four-digit field is its number. */
  lemma FieldReads(n: nat, width: nat)
    requires n < Pow10(width) && 1 <= width
    ensures |ZeroPadded(n, width)| == width && DigitsValue(ZeroPadded(n, width), Dec) == Some(n)
  {
    PaddedIsDigits(n, width);
    DigitsRead(n, width);
  }

  /** What stands where in a text of ten characters with two hyphens. */
  lemma DateLayout(y: string, m: string, d: string)
    requires |y| == 4 && |m| == 2 && |d| == 2
    ensures var s := y + "-" + m + "-" + d;
            |s| == 10 && s[4] == '-' && s[7] == '-' && s[..4] == y && s[5..7] == m && s[8..10] == d
  {
  }

  lemma StampLayout(date: string, h: string, m: string)
    requires |date| == 10 && |h| == 2 && |m| == 2
    ensures var s := date + " " + h + ":" + m;
            |s| == 16 && s[10] == ' ' && s[13] == ':' && s[..10] == date && s[11..13] == h && s[14..16] == m
  {
  }

  /** The date that a text names, digit by digit. */
  predicate NamesDate(s: string, d: Date)
  {
    |s| >= 10 && s[4] == '-' && s[7] == '-' && d.year >= 0 && d.month >= 0 && d.day >= 0 &&
    DigitsValue(s[..4], Dec) == Some(d.year) && DigitsValue(s[5..7], Dec) == Some(d.month) &&
    DigitsValue(s[8..10], Dec) == Some(d.day)
  }

  lemma DateTextReads(d: Date)
    requires ValidDate(d) && FourDigitYear(d)
    ensures |DateText(d)| == 10 && NamesDate(DateText(d), d)
  {
    hide ZeroPadded;
    assert Pow10(2) == 100 && Pow10(3) == 1000 && Pow10(4) == 10000;
    FieldReads(d.year, 4);
    FieldReads(d.month, 2);
    FieldReads(d.day, 2);
    DateLayout(ZeroPadded(d.year, 4), ZeroPadded(d.month, 2), ZeroPadded(d.day, 2));
  }

  /** The stamp of a time reads back: a valid date whose day, counted from the epoch, is the day of the time,
      then the hour and the minute of that day. Earlier times read as the epoch. */
  lemma StampReadsBack(time: int) returns (d: Date, h: nat, m: nat)
    requires time < 253402300800
    ensures var s, t := FmtMtime(time), if time < 0 then 0 else time;
            |s| == 16 && ValidDate(d) && NamesDate(s, d) && DayNumber(d) == t / 86400 &&
            s[10] == ' ' && s[13] == ':' && h < 24 && m < 60 &&
            DigitsValue(s[11..13], Dec) == Some(h) && DigitsValue(s[14..16], Dec) == Some(m) &&
            60 * h + m == t % 86400 / 60
  {
    hide DateText, ZeroPadded, DigitsValue, Civil;
    var t := if time < 0 then 0 else time;
    var rem := t % 86400;
    d, h, m := Civil(t / 86400), rem / 3600, rem % 3600 / 60;
    DayNumberOfCivil(t / 86400);
    StampDays(t / 86400);
    DateTextReads(d);
    MinuteOfDay(rem);
    assert Pow10(2) == 100;
    FieldReads(h, 2);
    FieldReads(m, 2);
    var date := CivilFromDays(t / 86400);
    StampLayout(date, ZeroPadded(h, 2), ZeroPadded(m, 2));
    NamesFront(date, FmtMtime(time), d);
  }

  lemma NamesFront(date: string, s: string, d: Date)
    requires |date| == 10 && |s| >= 10 && s[..10] == date && NamesDate(date, d)
    ensures NamesDate(s, d)
  {
    assert s[..10][..4] == s[..4] && s[..10][5..7] == s[5..7] && s[..10][8..10] == s[8..10];
  }

  /** From the year 10000 on the stamps no longer sort: its first minute prints before the last one
      of 9999. */
  lemma FmtMtimeOrderEnds()
    ensures TextLess(FmtMtime(253402300800), FmtMtime(253402300799))
  {
    hide Civil, DateText, Stamp, TextLess;
    CivilEnd();
    CivilLast();
    FirstDigits();
    assert 253402300800 / 86400 == 2932897 && 253402300799 / 86400 == 2932896;
    FirstDecides(CivilFromDays(2932897), CivilFromDays(2932896), 253402300800 % 86400, 253402300799 % 86400);
  }

  /** All stamps of times below `cap` sort as their times do. */
  ghost predicate StampsSortBelow(cap: int)
  {
    forall s, t :: 0 <= s < cap && 0 <= t < cap ==> (TextLess(FmtMtime(s), FmtMtime(t)) <==> s / 60 < t / 60)
  }

  /** The stamps sort exactly as long as no time lies beyond the end of the year 9999. */
  lemma StampsSortExactly(cap: int)
    ensures StampsSortBelow(cap) <==> cap <= 253402300800
  {
    hide FmtMtime, TextLess;
    if cap <= 253402300800 {
      forall s, t | 0 <= s < cap && 0 <= t < cap
        ensures TextLess(FmtMtime(s), FmtMtime(t)) <==> s / 60 < t / 60
      {
        FmtMtimeOrder(s, t);
      }
    } else {
      FmtMtimeOrderEnds();
    }
  }

  lemma FirstDecides(d: string, e: string, r: int, q: int)
    requires d != "" && e != "" && d[0] < e[0]
    ensures TextLess(Stamp(d, r), Stamp(e, q))
  {
    hide ZeroPadded;
  }

  lemma FirstDigits()
    ensures DateText(Date(10000, 1, 1)) != "" && DateText(Date(10000, 1, 1))[0] == '1'
    ensures DateText(Date(9999, 12, 31)) != "" && DateText(Date(9999, 12, 31))[0] == '9'
  {
    assert Numeral(10, Dec) == Numeral(1, Dec) + "0";
    assert Numeral(100, Dec) == Numeral(10, Dec) + "0";
    assert Numeral(1000, Dec) == Numeral(100, Dec) + "0";
    assert Numeral(10000, Dec) == Numeral(1000, Dec) + "0";
    assert Numeral(99, Dec) == Numeral(9, Dec) + "9";
    assert Numeral(999, Dec) == Numeral(99, Dec) + "9";
    assert Numeral(9999, Dec) == Numeral(999, Dec) + "9";
    assert Numeral(10000, Dec)[0] == '1' && Numeral(9999, Dec)[0] == '9';
    assert |Numeral(10000, Dec)| == 5 && |Numeral(9999, Dec)| == 4;
  }

  lemma CivilLast()
    ensures Civil(2932896) == Date(9999, 12, 31)
  {
    hide YearOfEra;
    YearOfEraParts(146036, 3, 24, 3, 305);
    assert MarchParts(2932896) == (9999, 305);
  }
}
