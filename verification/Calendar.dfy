/**
 The daemon's only calendar: `civil_from_days`, the integer algorithm behind the daily water
 ledger and the log stamp, against the proleptic Gregorian calendar of RFC 3339 (section 5.7 for
 the month lengths, Appendix C for the leap-year rule).
 */
module Calendar {

  datatype Date = Date(year: int, month: int, day: int)

  // --- The calendar itself, stated without the algorithm -----------------------------------------

  predicate IsLeap(y: int) {
    y % 4 == 0 && (y % 100 != 0 || y % 400 == 0)
  }

  function DaysInMonth(y: int, m: int): int
    requires 1 <= m <= 12
  {
    if m == 2 then (if IsLeap(y) then 29 else 28)
    else if m == 4 || m == 6 || m == 9 || m == 11 then 30
    else 31
  }

  predicate IsDate(d: Date) {
    1 <= d.month <= 12 && 1 <= d.day <= DaysInMonth(d.year, d.month)
  }

  /** The day after `d`. */
  function NextDate(d: Date): Date
    requires IsDate(d)
  {
    if d.day < DaysInMonth(d.year, d.month) then Date(d.year, d.month, d.day + 1)
    else if d.month < 12 then Date(d.year, d.month + 1, 1)
    else Date(d.year + 1, 1, 1)
  }

  // --- The algorithm ------------------------------------------------------------------------------

  const ERA_DAYS := 146_097
  const EPOCH_SHIFT := 719_468

  /** Year of the 400-year era from the day of the era; both count from 1 March of the era's year 0. */
  function YearOfEra(doe: int): int {
    (doe - doe / 1460 + doe / 36_524 - doe / 146_096) / 365
  }

  function DayOfYear(doe: int): int {
    var yoe := YearOfEra(doe);
    doe - (365 * yoe + yoe / 4 - yoe / 100)
  }

  function MonthShift(doy: int): int {
    (5 * doy + 2) / 153
  }

  function CivilFromDays(z: int): Date {
    var shifted := z + EPOCH_SHIFT;
    var era := shifted / ERA_DAYS;
    var doe := shifted % ERA_DAYS;
    MarchDate(YearOfEra(doe) + era * 400, DayOfYear(doe))
  }

  /** The date of day `doy` of the year that begins on 1 March of year `y`. */
  function MarchDate(y: int, doy: int): Date {
    var mp := MonthShift(doy);
    var d := doy - (153 * mp + 2) / 5 + 1;
    var m := if mp < 10 then mp + 3 else mp - 9;
    Date(if m <= 2 then y + 1 else y, m, d)
  }

  // --- The inverse --------------------------------------------------------------------------------

  /** The number of days from 1970-01-01 to `d`, by counting whole March-based years and months. */
  function DaysFromCivil(d: Date): int {
    var y := if d.month <= 2 then d.year - 1 else d.year;
    var mp := if d.month > 2 then d.month - 3 else d.month + 9;
    YearDays(y) + (153 * mp + 2) / 5 + d.day - 1 - EPOCH_SHIFT
  }

  /** Days from the March of year 0 to the March of year `y`. */
  function YearDays(y: int): int {
    365 * y + y / 4 - y / 100 + y / 400
  }

  /** Length of the March-based year `yoe` of an era: it ends with the February of year `yoe + 1`. */
  function MarchYearDays(yoe: int): int {
    if IsLeap(yoe + 1) then 366 else 365
  }

  /** The closed formula, on a day written as century, four-year cycle and day of the cycle. */
  lemma YearOfEraInCycle(c: int, q: int, t: int)
    requires 0 <= c < 4 && 0 <= q < 25 && 0 <= t < 1461
    requires q == 24 && c < 3 ==> t < 1460
    ensures YearOfEra(36_524 * c + 1461 * q + t) == 100 * c + 4 * q + (if t == 1460 then 3 else t / 365)
  {
    var doe := 36_524 * c + 1461 * q + t;
    var last := if doe == 146_096 then 1 else 0;
    var lag := if 24 * c + q + t >= 1460 then 1 else 0;
    assert doe / 146_096 == last;
    assert doe / 36_524 == c + last;
    assert doe / 1460 == 25 * c + q + lag;
    assert doe - doe / 1460 + doe / 36_524 - doe / 146_096 == 365 * (100 * c + 4 * q) + t - lag;
  }

  /** Every day of an era falls inside the March-based year the closed formula assigns to it. */
  lemma YearOfEraFits(doe: int)
    requires 0 <= doe < ERA_DAYS
    ensures 0 <= YearOfEra(doe) < 400
    ensures 0 <= DayOfYear(doe) < MarchYearDays(YearOfEra(doe))
  {
    var c := if doe == 146_096 then 3 else doe / 36_524;
    var q := (doe - 36_524 * c) / 1461;
    var t := doe - 36_524 * c - 1461 * q;
    var k := if t == 1460 then 3 else t / 365;
    YearOfEraInCycle(c, q, t);
    YearInCycle(c, q, k);
    hide YearOfEra, IsLeap;
    assert DayOfYear(doe) == t - 365 * k;
  }

  /** Year `k` of four-year cycle `q` of century `c`, and when it ends with a leap February. */
  lemma YearInCycle(c: int, q: int, k: int)
    requires 0 <= c < 4 && 0 <= q < 25 && 0 <= k < 4
    ensures var yoe := 100 * c + 4 * q + k;
      && 0 <= yoe < 400 && yoe / 4 == 25 * c + q && yoe / 100 == c
      && (IsLeap(yoe + 1) <==> k == 3 && (q < 24 || c == 3))
  {
    var yoe := 100 * c + 4 * q + k;
    assert (yoe + 1) % 4 == 0 <==> k == 3;
    assert (yoe + 1) % 100 == 0 <==> k == 3 && q == 24;
    assert (yoe + 1) % 400 == 0 <==> k == 3 && q == 24 && c == 3;
  }

  /** The month arithmetic: thirty-and-a-fraction-day months counted from 1 March. */
  lemma MonthFits(doy: int)
    requires 0 <= doy < 366
    ensures var mp := MonthShift(doy);
      && 0 <= mp <= 11
      && (153 * mp + 2) / 5 <= doy
      && (mp < 11 ==> doy < (153 * (mp + 1) + 2) / 5)
  {
  }

  /** Days of an era that precede its March-based year `yoe`. */
  function YearStart(yoe: int): int {
    365 * yoe + yoe / 4 - yoe / 100
  }

  /** A day of the era belongs to one March-based year only. */
  lemma YearOfEraUnique(doe: int, yoe: int, doy: int)
    requires 0 <= yoe < 400 && 0 <= doy < MarchYearDays(yoe)
    requires doe == YearStart(yoe) + doy
    ensures 0 <= doe < ERA_DAYS
    ensures YearOfEra(doe) == yoe && DayOfYear(doe) == doy
  {
    YearStartStep(yoe);
    YearOfEraFits(doe);
    var found := YearOfEra(doe);
    YearStartStep(found);
    if found < yoe {
      YearStartMonotone(found + 1, yoe);
    } else if yoe < found {
      YearStartMonotone(yoe + 1, found);
    }
  }

  lemma YearStartStep(yoe: int)
    requires 0 <= yoe < 400
    ensures YearStart(yoe) + MarchYearDays(yoe) <= ERA_DAYS
    ensures yoe < 399 ==> YearStart(yoe + 1) == YearStart(yoe) + MarchYearDays(yoe)
  {
    assert YearStart(399) == 145_731;
    if yoe < 399 {
      YearStartMonotone(yoe + 1, 399);
    }
  }

  lemma YearStartMonotone(a: int, b: int)
    requires a <= b
    ensures YearStart(a) <= YearStart(b)
  {
  }

  /** The month arithmetic stays inside the month it lands in, the short last one included. */
  lemma MarchDateIsDate(y: int, doy: int)
    requires 0 <= doy < MarchYearDays(y)
    ensures IsDate(MarchDate(y, doy))
    ensures DaysFromCivil(MarchDate(y, doy)) == YearDays(y) + doy - EPOCH_SHIFT
  {
    MonthFits(doy);
    hide IsLeap, YearDays;
  }

  /** Every day number, negative ones included, names a real date. */
  lemma CivilIsDate(z: int)
    ensures IsDate(CivilFromDays(z))
  {
    hide YearOfEra, DayOfYear, MarchDate, MarchYearDays;
    var shifted := z + EPOCH_SHIFT;
    var era, doe := shifted / ERA_DAYS, shifted % ERA_DAYS;
    YearOfEraFits(doe);
    MarchYearPeriod(YearOfEra(doe), era);
    MarchDateIsDate(YearOfEra(doe) + era * 400, DayOfYear(doe));
  }

  lemma MarchYearPeriod(yoe: int, era: int)
    ensures MarchYearDays(yoe + era * 400) == MarchYearDays(yoe)
  {
    LeapPeriod(yoe + 1, era);
    hide IsLeap;
  }

  /** Day 0 is the epoch. */
  lemma DayZeroIsTheEpoch()
    ensures CivilFromDays(0) == Date(1970, 1, 1)
  {
    hide YearOfEra, DayOfYear, DaysFromCivil;
    EraSplit(4, 135_080);
    assert YearOfEra(135_080) == 369 && DayOfYear(135_080) == 306 by {
      YearOfEraUnique(135_080, 369, 306);
    }
  }

  lemma EraSplit(era: int, doe: int)
    requires 0 <= doe < ERA_DAYS
    ensures (ERA_DAYS * era + doe) / ERA_DAYS == era && (ERA_DAYS * era + doe) % ERA_DAYS == doe
  {
  }

  /** The leap rule repeats every 400 years. */
  lemma LeapPeriod(y: int, era: int)
    ensures IsLeap(y + 400 * era) <==> IsLeap(y)
  {
    Period4(y, era);
    Period100(y, era);
    Period400(y, era);
  }

  lemma Period4(y: int, era: int)
    ensures (y + 400 * era) % 4 == y % 4
  {
    assert y + 400 * era == 4 * (y / 4 + 100 * era) + y % 4;
  }

  lemma Period100(y: int, era: int)
    ensures (y + 400 * era) % 100 == y % 100
  {
    assert y + 400 * era == 100 * (y / 100 + 4 * era) + y % 100;
  }

  lemma Period400(y: int, era: int)
    ensures (y + 400 * era) % 400 == y % 400
  {
    assert y + 400 * era == 400 * (y / 400 + era) + y % 400;
  }

  /** Counting back from the date gives the day number again. */
  lemma DaysOfCivil(z: int)
    ensures DaysFromCivil(CivilFromDays(z)) == z
  {
    hide YearOfEra, DayOfYear, MarchDate, MarchYearDays, YearDays, DaysFromCivil;
    var shifted := z + EPOCH_SHIFT;
    var era, doe := shifted / ERA_DAYS, shifted % ERA_DAYS;
    var yoe, doy := YearOfEra(doe), DayOfYear(doe);
    YearOfEraFits(doe);
    MarchYearPeriod(yoe, era);
    MarchDateIsDate(yoe + era * 400, doy);
    YearSplit(yoe, era);
    DayOfYearIs(doe);
  }

  lemma DayOfYearIs(doe: int)
    ensures doe == YearStart(YearOfEra(doe)) + DayOfYear(doe)
  {
    hide YearOfEra;
  }

  lemma YearSplit(yoe: int, era: int)
    requires 0 <= yoe < 400
    ensures YearDays(yoe + era * 400) == ERA_DAYS * era + YearStart(yoe)
  {
    var y := yoe + era * 400;
    assert y / 4 == yoe / 4 + 100 * era;
    assert y / 100 == yoe / 100 + 4 * era;
    assert y / 400 == era;
  }

  /** Every real date is reached, by exactly the day number that counts up to it. */
  lemma CivilOfDays(d: Date)
    requires IsDate(d)
    ensures CivilFromDays(DaysFromCivil(d)) == d
  {
    hide YearOfEra, DayOfYear, MarchDate, MarchYearDays, YearDays, YearStart, DaysFromCivil;
    var y, doy := MarchDayOf(d);
    var era, yoe := y / 400, y % 400;
    assert y == yoe + era * 400;
    MarchYearPeriod(yoe, era);
    MarchDateIsDate(y, doy);
    YearSplit(yoe, era);
    YearOfEraUnique(YearStart(yoe) + doy, yoe, doy);
    EraSplit(era, YearStart(yoe) + doy);
  }

  /** Every real date is a day of the March-based year it falls in. */
  lemma MarchDayOf(d: Date) returns (y: int, doy: int)
    requires IsDate(d)
    ensures 0 <= doy < MarchYearDays(y) && MarchDate(y, doy) == d
  {
    hide IsLeap;
    var mp := if d.month > 2 then d.month - 3 else d.month + 9;
    y := if d.month <= 2 then d.year - 1 else d.year;
    doy := (153 * mp + 2) / 5 + d.day - 1;
    assert MonthShift(doy) == mp;
  }

  /** One more day number is the next day of the calendar. */
  lemma CivilSuccessor(z: int)
    ensures IsDate(CivilFromDays(z))
    ensures CivilFromDays(z + 1) == NextDate(CivilFromDays(z))
  {
    var d := CivilFromDays(z);
    CivilIsDate(z);
    DaysOfCivil(z);
    NextDateCounts(d);
    CivilOfDays(NextDate(d));
  }

  /** The day after a date is one day further on, across month ends, leap days and year ends. */
  lemma NextDateCounts(d: Date)
    requires IsDate(d)
    ensures IsDate(NextDate(d)) && DaysFromCivil(NextDate(d)) == DaysFromCivil(d) + 1
  {
    YearDaysStep(d.year);
    hide IsLeap, YearDays;
  }

  lemma QuotientStep4(y: int)
    ensures y / 4 - (y - 1) / 4 == if y % 4 == 0 then 1 else 0
  {
    assert y - 1 == if y % 4 == 0 then 4 * (y / 4 - 1) + 3 else 4 * (y / 4) + (y % 4 - 1);
  }

  lemma QuotientStep100(y: int)
    ensures y / 100 - (y - 1) / 100 == if y % 100 == 0 then 1 else 0
    ensures y % 100 == 0 ==> y % 4 == 0
  {
    assert y - 1 == if y % 100 == 0 then 100 * (y / 100 - 1) + 99 else 100 * (y / 100) + (y % 100 - 1);
    assert y == 4 * (25 * (y / 100)) + y % 100;
  }

  lemma QuotientStep400(y: int)
    ensures y / 400 - (y - 1) / 400 == if y % 400 == 0 then 1 else 0
    ensures y % 400 == 0 ==> y % 100 == 0
  {
    assert y - 1 == if y % 400 == 0 then 400 * (y / 400 - 1) + 399 else 400 * (y / 400) + (y % 400 - 1);
    assert y == 100 * (4 * (y / 400)) + y % 400;
  }

  lemma YearDaysStep(y: int)
    ensures YearDays(y) == YearDays(y - 1) + (if IsLeap(y) then 366 else 365)
  {
    QuotientStep4(y);
    QuotientStep100(y);
    QuotientStep400(y);
  }

  /** Two day numbers never share a date. */
  lemma CivilInjective(a: int, b: int)
    requires CivilFromDays(a) == CivilFromDays(b)
    ensures a == b
  {
    DaysOfCivil(a);
    DaysOfCivil(b);
  }

  // --- The day key ---------------------------------------------------------------------------------

  const DAY_MS := 86_400_000

  /** The UTC day of an instant in ms; days before the epoch are negative. */
  function UtcDay(atMs: int): int {
    atMs / DAY_MS
  }

  function Digit(k: int): char
    requires 0 <= k < 10
  {
    ('0' as int + k) as char
  }

  function Decimal(n: nat): string {
    if n < 10 then [Digit(n)] else Decimal(n / 10) + [Digit(n % 10)]
  }

  function Zeros(k: nat): string {
    seq(k, _ => '0')
  }

  function ZeroPadded(n: nat, width: nat): string {
    var digits := Decimal(n);
    if |digits| < width then Zeros(width - |digits|) + digits else digits
  }

  /** Zero padding counts a minus sign as part of the width. */
  function YearText(y: int): string {
    if y >= 0 then ZeroPadded(y, 4) else "-" + ZeroPadded(-y, 3)
  }

  function DateText(d: Date): string
    requires 0 <= d.month && 0 <= d.day
  {
    YearText(d.year) + "-" + ZeroPadded(d.month, 2) + "-" + ZeroPadded(d.day, 2)
  }

  function DayKey(atMs: int): string {
    CivilIsDate(UtcDay(atMs));
    DateText(CivilFromDays(UtcDay(atMs)))
  }

  /** The number a run of decimal digits denotes. */
  function NumberOf(s: string): int {
    if s == "" then 0 else 10 * NumberOf(s[..|s| - 1]) + (s[|s| - 1] as int - '0' as int)
  }

  predicate AllDigits(s: string) {
    forall k :: 0 <= k < |s| ==> '0' <= s[k] <= '9'
  }

  lemma {:induction false} NumberOfDecimal(n: nat)
    ensures NumberOf(Decimal(n)) == n && |Decimal(n)| >= 1
    ensures n < 100 ==> |Decimal(n)| <= 2
    ensures n < 1000 ==> |Decimal(n)| <= 3
    ensures n < 10_000 ==> |Decimal(n)| <= 4
    ensures AllDigits(Decimal(n))
  {
    if n >= 10 {
      NumberOfDecimal(n / 10);
      assert Decimal(n)[..|Decimal(n)| - 1] == Decimal(n / 10);
    }
  }

  lemma {:induction false} NumberOfPadded(k: nat, s: string)
    ensures NumberOf(Zeros(k) + s) == NumberOf(s)
    decreases |s|, k
  {
    if s == "" {
      assert Zeros(k) + s == Zeros(k);
      if k > 0 {
        assert Zeros(k)[..k - 1] == Zeros(k - 1) + "";
        NumberOfPadded(k - 1, "");
      }
    } else {
      assert (Zeros(k) + s)[..k + |s| - 1] == Zeros(k) + s[..|s| - 1];
      NumberOfPadded(k, s[..|s| - 1]);
    }
  }

  lemma ZeroPaddedReads(n: nat, width: nat)
    ensures NumberOf(ZeroPadded(n, width)) == n
    ensures |ZeroPadded(n, width)| >= width && |ZeroPadded(n, width)| >= 1 && AllDigits(ZeroPadded(n, width))
    ensures n < 100 && width == 2 ==> |ZeroPadded(n, width)| == 2
    ensures n < 10_000 && width == 4 ==> |ZeroPadded(n, width)| == 4
  {
    NumberOfDecimal(n);
    if |Decimal(n)| < width {
      NumberOfPadded(width - |Decimal(n)|, Decimal(n));
    }
  }

  /** A date's text names that date only, whatever the sign or length of its year. */
  lemma DateTextInjective(a: Date, b: Date)
    requires IsDate(a) && IsDate(b)
    requires DateText(a) == DateText(b)
    ensures a == b
  {
    hide YearText, ZeroPadded;
    ZeroPaddedReads(a.month, 2);
    ZeroPaddedReads(b.month, 2);
    ZeroPaddedReads(a.day, 2);
    ZeroPaddedReads(b.day, 2);
    var ya, yb := YearText(a.year), YearText(b.year);
    var ma, mb := ZeroPadded(a.month, 2), ZeroPadded(b.month, 2);
    SameTail(ya + "-" + ma + "-", ZeroPadded(a.day, 2), yb + "-" + mb + "-", ZeroPadded(b.day, 2));
    SameTail(ya + "-" + ma, "-", yb + "-" + mb, "-");
    SameTail(ya + "-", ma, yb + "-", mb);
    SameTail(ya, "-", yb, "-");
    YearTextInjective(a.year, b.year);
  }

  /** Texts that agree and end in pieces of one length agree piece by piece. */
  lemma SameTail(a: string, s: string, b: string, t: string)
    requires a + s == b + t && |s| == |t|
    ensures a == b && s == t
  {
    assert (a + s)[..|a|] == a && (a + s)[|a|..] == s;
    assert (b + t)[..|b|] == b && (b + t)[|b|..] == t;
  }

  lemma YearTextInjective(a: int, b: int)
    requires YearText(a) == YearText(b)
    ensures a == b
  {
    hide ZeroPadded;
    if a >= 0 {
      ZeroPaddedReads(a, 4);
      assert YearText(a)[0] != '-';
    } else {
      ZeroPaddedReads(-a, 3);
      assert YearText(a)[1..] == ZeroPadded(-a, 3);
    }
    if b >= 0 {
      ZeroPaddedReads(b, 4);
      assert YearText(b)[0] != '-';
    } else {
      ZeroPaddedReads(-b, 3);
      assert YearText(b)[1..] == ZeroPadded(-b, 3);
    }
  }

  /** Up to the year 9999 the text is year, month and day in four, two and two digits with dashes between. */
  lemma DateTextReads(d: Date)
    requires IsDate(d) && 0 <= d.year < 10_000
    ensures var text := DateText(d);
      && |text| == 10 && text[4] == '-' && text[7] == '-'
      && AllDigits(text[..4]) && AllDigits(text[5..7]) && AllDigits(text[8..])
      && NumberOf(text[..4]) == d.year && NumberOf(text[5..7]) == d.month && NumberOf(text[8..]) == d.day
  {
    hide ZeroPadded, NumberOf, AllDigits, IsLeap;
    ZeroPaddedReads(d.year, 4);
    ZeroPaddedReads(d.month, 2);
    ZeroPaddedReads(d.day, 2);
    var text := DateText(d);
    assert text[..4] == ZeroPadded(d.year, 4) && text[5..7] == ZeroPadded(d.month, 2) && text[8..] == ZeroPadded(d.day, 2);
  }

  /** Two instants share a day key exactly when they fall on the same day of 86 400 000 ms, counted from the epoch. */
  lemma DayKeyIsUtcDay(a: int, b: int)
    ensures DayKey(a) == DayKey(b) <==> a / 86_400_000 == b / 86_400_000
  {
    if DayKey(a) == DayKey(b) {
      CivilIsDate(UtcDay(a));
      CivilIsDate(UtcDay(b));
      DateTextInjective(CivilFromDays(UtcDay(a)), CivilFromDays(UtcDay(b)));
      CivilInjective(UtcDay(a), UtcDay(b));
    }
  }
}
