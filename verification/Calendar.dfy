/**
 Calendar arithmetic of the certificate reader: the conversion of a proleptic
 Gregorian date to a day number with 1970-01-01 as day zero.
 */
module Calendar {

  datatype Date = Date(year: int, month: int, day: int)

  const EPOCH := Date(1970, 1, 1)

  /** Machine division: rounds toward zero. */
  function TruncDiv(a: int, b: int): int
    requires b > 0
  {
    if a >= 0 then a / b else -((-a) / b)
  }

  /** Machine remainder: has the sign of the dividend. */
  function TruncMod(a: int, b: int): int
    requires b > 0
  {
    a - b * TruncDiv(a, b)
  }

  predicate IsLeapYear(year: int) {
    TruncMod(year, 4) == 0 && (TruncMod(year, 100) != 0 || TruncMod(year, 400) == 0)
  }

  function DaysInMonth(year: int, month: int): int {
    if month == 2 then (if IsLeapYear(year) then 29 else 28)
    else if month == 4 || month == 6 || month == 9 || month == 11 then 30
    else 31
  }

  predicate ValidDate(d: Date) {
    1 <= d.month <= 12 && 1 <= d.day <= DaysInMonth(d.year, d.month)
  }

  function AdjustedYear(year: int, month: int): int {
    year - (if month <= 2 then 1 else 0)
  }

  function Era(adjustedYear: int): int {
    if adjustedYear >= 0 then TruncDiv(adjustedYear, 400) else TruncDiv(adjustedYear - 399, 400)
  }

  function MonthOfYear(month: int): int {
    month + (if month > 2 then -3 else 9)
  }

  function DayOfEra(d: Date): int {
    var yearOfEra := AdjustedYear(d.year, d.month) - Era(AdjustedYear(d.year, d.month)) * 400;
    var dayOfYear := TruncDiv(153 * MonthOfYear(d.month) + 2, 5) + d.day - 1;
    yearOfEra * 365 + TruncDiv(yearOfEra, 4) - TruncDiv(yearOfEra, 100) + dayOfYear
  }

  const I64_MAX := 0x7fff_ffff_ffff_ffff
  const I64_MIN := -0x8000_0000_0000_0000

  predicate FitsI64(x: int) {
    I64_MIN <= x <= I64_MAX
  }

  datatype Checked = Overflow | Days(n: int)

  /** The conversion with its overflow checks, in the order in which they are made. */
  function DaysFromCivil(d: Date): Checked {
    var scaled := Era(AdjustedYear(d.year, d.month)) * 146_097;
    if !FitsI64(scaled) then Overflow
    else if !FitsI64(scaled + DayOfEra(d)) then Overflow
    else if !FitsI64(scaled + DayOfEra(d) - 719_468) then Overflow
    else Days(scaled + DayOfEra(d) - 719_468)
  }

  /** The same number without a machine word around it. */
  function DayNumber(d: Date): int {
    Era(AdjustedYear(d.year, d.month)) * 146_097 + DayOfEra(d) - 719_468
  }

  // ---------------------------------------------------------------- counting day by day

  function NextDay(d: Date): Date {
    if d.day < DaysInMonth(d.year, d.month) then d.(day := d.day + 1)
    else if d.month < 12 then Date(d.year, d.month + 1, 1)
    else Date(d.year + 1, 1, 1)
  }

  function PreviousDay(d: Date): Date {
    if d.day > 1 then d.(day := d.day - 1)
    else if d.month > 1 then Date(d.year, d.month - 1, DaysInMonth(d.year, d.month - 1))
    else Date(d.year - 1, 12, 31)
  }

  /** The date reached by counting `n` days on from `d`, one by one. */
  function After(d: Date, n: nat): Date {
    if n == 0 then d else NextDay(After(d, n - 1))
  }

  /** The same, counting back. */
  function Back(d: Date, n: nat): Date {
    if n == 0 then d else PreviousDay(Back(d, n - 1))
  }

  // ---------------------------------------------------------------- the closed form

  lemma EraIsFloor(y: int)
    ensures Era(y) == y / 400
  {
  }

  lemma LeapIsEuclidean(y: int)
    ensures IsLeapYear(y) <==> y % 4 == 0 && (y % 100 != 0 || y % 400 == 0)
  {
  }

  /** Days from the start of era zero to 1 March of the adjusted year. */
  function YearStart(y: int): int {
    365 * y + y / 4 - y / 100 + y / 400
  }

  function MonthStart(month: int): int {
    (153 * MonthOfYear(month) + 2) / 5
  }

  lemma DayNumberForm(d: Date)
    requires 1 <= d.month <= 12
    ensures DayNumber(d) == YearStart(AdjustedYear(d.year, d.month)) + MonthStart(d.month) + d.day - 1 - 719_468
  {
    var y := AdjustedYear(d.year, d.month);
    EraIsFloor(y);
    var e := y / 400;
    var r := y - e * 400;
    assert 0 <= r < 400;
    assert y / 4 == 100 * e + r / 4;
    assert y / 100 == 4 * e + r / 100;
  }

  lemma YearLength(y: int)
    ensures YearStart(y + 1) - YearStart(y) == if IsLeapYear(y + 1) then 366 else 365
  {
    LeapIsEuclidean(y + 1);
    Step(y, 4);
    Step(y, 100);
    Step(y, 400);
    assert (y + 1) % 400 == 0 ==> (y + 1) % 100 == 0;
    assert (y + 1) % 100 == 0 ==> (y + 1) % 4 == 0;
  }

  lemma Step(y: int, k: int)
    requires k == 4 || k == 100 || k == 400
    ensures (y + 1) / k - y / k == if (y + 1) % k == 0 then 1 else 0
  {
  }

  /** Months counted from March: each starts where the previous one ends, and only
      February, the last, may vary. */
  lemma MonthLength(year: int, month: int)
    requires 1 <= month <= 12
    ensures month != 2 && month != 12 ==> MonthStart(month + 1) == MonthStart(month) + DaysInMonth(year, month)
    ensures MonthStart(1) == MonthStart(12) + 31
    ensures MonthStart(3) == 0 && MonthStart(1) == 306 && MonthStart(2) == 337
    ensures month > 2 ==> MonthStart(month) + DaysInMonth(year, month) <= 306
    ensures 0 <= MonthStart(month)
    ensures month != 2 ==> MonthStart(month) + DaysInMonth(year, month) <= 337
  {
  }

  /** One day on in the calendar is one more in the day number, for every valid date. */
  lemma NextDayIsOneMore(d: Date)
    requires ValidDate(d)
    ensures ValidDate(NextDay(d))
    ensures DayNumber(NextDay(d)) == DayNumber(d) + 1
  {
    hide IsLeapYear, YearStart, DayNumber, MonthStart;
    DayNumberForm(d);
    DayNumberForm(NextDay(d));
    MonthLength(d.year, d.month);
    if d.month == 2 { YearLength(d.year - 1); }
  }

  lemma PreviousThenNext(d: Date)
    requires ValidDate(d)
    ensures ValidDate(PreviousDay(d)) && NextDay(PreviousDay(d)) == d
  {
  }

  lemma {:induction false} AfterCounts(d: Date, n: nat)
    requires ValidDate(d)
    ensures ValidDate(After(d, n)) && DayNumber(After(d, n)) == DayNumber(d) + n
  {
    if n > 0 {
      AfterCounts(d, n - 1);
      NextDayIsOneMore(After(d, n - 1));
    }
  }

  lemma {:induction false} BackCounts(d: Date, n: nat)
    requires ValidDate(d)
    ensures ValidDate(Back(d, n)) && DayNumber(Back(d, n)) == DayNumber(d) - n
  {
    if n > 0 {
      BackCounts(d, n - 1);
      PreviousThenNext(Back(d, n - 1));
      NextDayIsOneMore(Back(d, n));
    }
  }

  // ---------------------------------------------------------------- order

  predicate Before(a: Date, b: Date) {
    a.year < b.year || (a.year == b.year && (a.month < b.month || (a.month == b.month && a.day < b.day)))
  }

  lemma {:induction false} YearStartMonotone(a: int, b: int)
    requires a <= b
    ensures YearStart(a) + 365 * (b - a) <= YearStart(b)
    decreases b - a
  {
    if a < b {
      YearStartMonotone(a, b - 1);
      YearLength(b - 1);
    }
  }

  lemma WithinYear(d: Date)
    requires ValidDate(d)
    ensures 0 <= MonthStart(d.month) + d.day - 1
    ensures MonthStart(d.month) + d.day - 1 <
            YearStart(AdjustedYear(d.year, d.month) + 1) - YearStart(AdjustedYear(d.year, d.month))
  {
    MonthLength(d.year, d.month);
    YearLength(AdjustedYear(d.year, d.month));
  }

  lemma {:induction false} MonthsAscend(year: int, a: int, b: int)
    requires 1 <= a < b <= 12 && (a <= 2 <==> b <= 2)
    ensures MonthStart(a) + DaysInMonth(year, a) <= MonthStart(b)
    decreases b
  {
    MonthLength(year, a);
    if a + 1 < b {
      MonthsAscend(year, a, b - 1);
      MonthLength(year, b - 1);
    }
  }

  /** Day numbers follow the calendar order strictly. */
  lemma DayNumberStrict(a: Date, b: Date)
    requires ValidDate(a) && ValidDate(b) && Before(a, b)
    ensures DayNumber(a) < DayNumber(b)
  {
    hide IsLeapYear, YearStart, DayNumber, MonthStart;
    DayNumberForm(a);
    DayNumberForm(b);
    var ya, yb := AdjustedYear(a.year, a.month), AdjustedYear(b.year, b.month);
    if ya < yb {
      WithinYear(a);
      WithinYear(b);
      YearStartMonotone(ya + 1, yb);
    } else if a.year < b.year {
      MonthLength(a.year, a.month);
    } else if a.month < b.month {
      MonthsAscend(a.year, a.month, b.month);
    }
  }

  /** The date with a given day number is unique. */
  lemma DayNumberInjective(a: Date, b: Date)
    requires ValidDate(a) && ValidDate(b) && DayNumber(a) == DayNumber(b)
    ensures a == b
  {
    if Before(a, b) {
      DayNumberStrict(a, b);
    } else if Before(b, a) {
      DayNumberStrict(b, a);
    }
  }

  lemma EpochIsZero()
    ensures DayNumber(EPOCH) == 0
  {
  }

  /** The formula counts days: every date from the epoch on is reached from the epoch by
      that many single days on, and every earlier date by the negated number of single days
      back. */
  lemma CountsDaysFromEpoch(d: Date)
    requires ValidDate(d)
    ensures DayNumber(EPOCH) == 0
    ensures DayNumber(d) >= 0 ==> After(EPOCH, DayNumber(d)) == d
    ensures DayNumber(d) < 0 ==> Back(EPOCH, -DayNumber(d)) == d && After(d, -DayNumber(d)) == EPOCH
  {
    hide DayNumber;
    EpochIsZero();
    var n := DayNumber(d);
    if n >= 0 {
      AfterCounts(EPOCH, n);
      DayNumberInjective(After(EPOCH, n), d);
    } else {
      BackCounts(EPOCH, -n);
      DayNumberInjective(Back(EPOCH, -n), d);
      AfterCounts(d, -n);
      DayNumberInjective(After(d, -n), EPOCH);
    }
  }

  /** The overflow checks never fail for a year of at most four digits. */
  lemma CheckedConversion(d: Date)
    requires ValidDate(d) && 0 <= d.year <= 9999
    ensures DaysFromCivil(d) == Days(DayNumber(d))
    ensures -719_528 <= DayNumber(d) <= 2_932_896
  {
    DayNumberForm(d);
    EraIsFloor(AdjustedYear(d.year, d.month));
    DayNumberRange(d);
  }

  lemma DayNumberRange(d: Date)
    requires ValidDate(d) && 0 <= d.year <= 9999
    ensures -719_528 <= DayNumber(d) <= 2_932_896
  {
    var lo, hi := Date(0, 1, 1), Date(9999, 12, 31);
    assert DayNumber(lo) == -719_528;
    assert DayNumber(hi) == 2_932_896;
    assert d == lo || Before(lo, d);
    assert d == hi || Before(d, hi);
    if d != lo { DayNumberStrict(lo, d); }
    if d != hi { DayNumberStrict(d, hi); }
  }
}
