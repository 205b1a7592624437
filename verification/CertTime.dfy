/**
 Certificate times: the reader of UTCTime and GeneralizedTime values (sections 4.1.2.5.1
 and 4.1.2.5.2 of RFC 5280) and the printer it inverts.
 */
module CertTime {
  import opened Common
  import opened Calendar

  const UTC_TIME: Byte := 0x17
  const GENERALIZED_TIME: Byte := 0x18
  const ZULU: Byte := 90
  const DOT: Byte := 46

  datatype DateTime = DateTime(date: Date, hour: int, minute: int, second: int)

  predicate ValidDateTime(dt: DateTime) {
    ValidDate(dt.date) && 0 <= dt.hour <= 23 && 0 <= dt.minute <= 59 && 0 <= dt.second <= 59
  }

  /** Seconds since the epoch. */
  function Timestamp(dt: DateTime): int {
    DayNumber(dt.date) * 86_400 + dt.hour * 3_600 + dt.minute * 60 + dt.second
  }

  predicate IsDigit(b: Byte) {
    48 <= b <= 57
  }

  predicate AllDigits(v: seq<Byte>) {
    forall i :: 0 <= i < |v| ==> IsDigit(v[i])
  }

  // ---------------------------------------------------------------- the reader

  function DigitValue(b: Byte): int {
    b as int - 48
  }

  /** Multiply and add under the overflow checks of a 64-bit word. */
  function Accumulate(acc: int, v: seq<Byte>): Option<int>
    decreases |v|
  {
    if v == [] then Some(acc)
    else if !FitsI64(acc * 10) || !FitsI64(acc * 10 + DigitValue(v[0])) then None
    else Accumulate(acc * 10 + DigitValue(v[0]), v[1..])
  }

  function ParseDigits(v: seq<Byte>): Option<int> {
    if v == [] || !AllDigits(v) then None else Accumulate(0, v)
  }

  /** The trailing part of a value: month to second and an optional fraction. */
  function ParseFields(year: int, fields: seq<Byte>): Option<int> {
    if |fields| < 10 then None
    else
      var month := ParseDigits(fields[..2]);
      var day := ParseDigits(fields[2..4]);
      var hour := ParseDigits(fields[4..6]);
      var minute := ParseDigits(fields[6..8]);
      var second := ParseDigits(fields[8..10]);
      if month.None? || day.None? || hour.None? || minute.None? || second.None? then None
      else if |fields| > 10 && (fields[10] != DOT || |fields| == 11 || !AllDigits(fields[11..])) then None
      else if !(1 <= month.value <= 12) || day.value == 0 || day.value > DaysInMonth(year, month.value)
              || hour.value > 23 || minute.value > 59 || second.value > 59 then None
      else
        var days := DaysFromCivil(Date(year, month.value, day.value));
        if days.Overflow? || !FitsI64(days.n * 86_400)
           || !FitsI64(days.n * 86_400 + hour.value * 3_600)
           || !FitsI64(days.n * 86_400 + hour.value * 3_600 + minute.value * 60)
           || !FitsI64(days.n * 86_400 + hour.value * 3_600 + minute.value * 60 + second.value) then None
        else Some(days.n * 86_400 + hour.value * 3_600 + minute.value * 60 + second.value)
  }

  function ParseCertificateTime(tag: Byte, value: seq<Byte>): Option<int> {
    if |value| == 0 || value[|value| - 1] != ZULU then None
    else
      var v := value[..|value| - 1];
      if tag == UTC_TIME then
        if |v| != 12 then None
        else
          var year := ParseDigits(v[..2]);
          if year.None? then None
          else ParseFields(if year.value >= 50 then 1900 + year.value else 2000 + year.value, v[2..])
      else if tag == GENERALIZED_TIME then
        if |v| < 14 then None
        else
          var year := ParseDigits(v[..4]);
          if year.None? then None else ParseFields(year.value, v[4..])
      else None
  }

  // ---------------------------------------------------------------- the printer

  function Digit(n: int): Byte
    requires 0 <= n <= 9
  {
    48 + n
  }

  function Two(n: int): seq<Byte>
    requires 0 <= n <= 99
  {
    [Digit(n / 10), Digit(n % 10)]
  }

  function PrintFields(dt: DateTime): (r: seq<Byte>)
    requires ValidDateTime(dt)
    ensures |r| == 10
  {
    Two(dt.date.month) + Two(dt.date.day) + Two(dt.hour) + Two(dt.minute) + Two(dt.second)
  }

  /** An optional fraction of a second. */
  predicate IsFraction(f: seq<Byte>) {
    f == [] || (|f| >= 2 && f[0] == DOT && AllDigits(f[1..]))
  }

  /** The values that denote `dt` under a tag: UTCTime has two year digits and no fraction,
      GeneralizedTime four and perhaps one. */
  ghost predicate Denotes(tag: Byte, value: seq<Byte>, dt: DateTime, fraction: seq<Byte>) {
    && ValidDateTime(dt)
    && IsFraction(fraction)
    && ((tag == UTC_TIME && 1950 <= dt.date.year <= 2049 && fraction == []
         && value == Two(dt.date.year % 100) + PrintFields(dt) + [ZULU])
        || (tag == GENERALIZED_TIME && 0 <= dt.date.year <= 9999
            && value == Two(dt.date.year / 100) + Two(dt.date.year % 100) + PrintFields(dt) + fraction + [ZULU]))
  }

  // ---------------------------------------------------------------- both directions

  lemma ParseTwo(v: seq<Byte>)
    requires |v| == 2
    ensures ParseDigits(v).Some? <==> IsDigit(v[0]) && IsDigit(v[1])
    ensures ParseDigits(v).Some? ==> ParseDigits(v).value == DigitValue(v[0]) * 10 + DigitValue(v[1])
    ensures ParseDigits(v).Some? ==> 0 <= ParseDigits(v).value <= 99 && v == Two(ParseDigits(v).value)
  {
    if IsDigit(v[0]) && IsDigit(v[1]) {
      assert v[1..][1..] == [];
      assert Accumulate(DigitValue(v[0]), v[1..]) == Some(DigitValue(v[0]) * 10 + DigitValue(v[1]));
    }
  }

  lemma ParseFour(v: seq<Byte>)
    requires |v| == 4
    ensures ParseDigits(v).Some? <==> ParseDigits(v[..2]).Some? && ParseDigits(v[2..]).Some?
    ensures ParseDigits(v).Some? ==>
              ParseDigits(v).value == ParseDigits(v[..2]).value * 100 + ParseDigits(v[2..]).value
  {
    ParseTwo(v[..2]);
    ParseTwo(v[2..]);
    if ParseDigits(v[..2]).Some? && ParseDigits(v[2..]).Some? {
      assert AllDigits(v);
      var a, b, c, d := DigitValue(v[0]), DigitValue(v[1]), DigitValue(v[2]), DigitValue(v[3]);
      assert v[1..][1..][1..][1..] == [];
      assert Accumulate(((a * 10) + b) * 10 + c, v[1..][1..][1..]) == Some((((a * 10) + b) * 10 + c) * 10 + d);
      assert Accumulate(a * 10 + b, v[1..][1..]) == Some((((a * 10) + b) * 10 + c) * 10 + d);
      assert Accumulate(a, v[1..]) == Some((((a * 10) + b) * 10 + c) * 10 + d);
    } else {
      assert !AllDigits(v) by {
        assert v[..2][0] == v[0] && v[..2][1] == v[1] && v[2..][0] == v[2] && v[2..][1] == v[3];
      }
    }
  }

  lemma TwoRoundTrip(n: int)
    requires 0 <= n <= 99
    ensures ParseDigits(Two(n)) == Some(n)
  {
    ParseTwo(Two(n));
  }

  /** The checked arithmetic never fails on a valid date and time of a four-digit year. */
  lemma TimestampFits(dt: DateTime)
    requires ValidDateTime(dt) && 0 <= dt.date.year <= 9999
    ensures DaysFromCivil(dt.date) == Days(DayNumber(dt.date))
    ensures FitsI64(DayNumber(dt.date) * 86_400)
    ensures FitsI64(DayNumber(dt.date) * 86_400 + dt.hour * 3_600)
    ensures FitsI64(DayNumber(dt.date) * 86_400 + dt.hour * 3_600 + dt.minute * 60)
    ensures FitsI64(Timestamp(dt))
  {
    CheckedConversion(dt.date);
  }

  lemma PrintedFields(dt: DateTime, fraction: seq<Byte>)
    requires ValidDateTime(dt) && 0 <= dt.date.year <= 9999 && IsFraction(fraction)
    ensures ParseFields(dt.date.year, PrintFields(dt) + fraction) == Some(Timestamp(dt))
  {
    hide DaysFromCivil, DayNumber, IsLeapYear;
    var f := PrintFields(dt) + fraction;
    assert f[..2] == Two(dt.date.month) && f[2..4] == Two(dt.date.day) && f[4..6] == Two(dt.hour);
    assert f[6..8] == Two(dt.minute) && f[8..10] == Two(dt.second);
    TwoRoundTrip(dt.date.month);
    TwoRoundTrip(dt.date.day);
    TwoRoundTrip(dt.hour);
    TwoRoundTrip(dt.minute);
    TwoRoundTrip(dt.second);
    if fraction != [] { assert f[11..] == fraction[1..]; }
    TimestampFits(dt);
  }

  lemma UtcTimeIsRead(dt: DateTime)
    requires ValidDateTime(dt) && 1950 <= dt.date.year <= 2049
    ensures ParseCertificateTime(UTC_TIME, Two(dt.date.year % 100) + PrintFields(dt) + [ZULU]) == Some(Timestamp(dt))
  {
    hide ParseFields, PrintFields, Timestamp, ParseDigits, IsLeapYear;
    var v := Two(dt.date.year % 100) + PrintFields(dt);
    var value := v + [ZULU];
    assert value[..|value| - 1] == v;
    assert v[..2] == Two(dt.date.year % 100);
    assert v[2..] == PrintFields(dt) + [];
    PrintedFields(dt, []);
    TwoRoundTrip(dt.date.year % 100);
  }

  lemma GeneralizedTimeIsRead(dt: DateTime, fraction: seq<Byte>)
    requires ValidDateTime(dt) && 0 <= dt.date.year <= 9999 && IsFraction(fraction)
    ensures ParseCertificateTime(GENERALIZED_TIME,
                                 Two(dt.date.year / 100) + Two(dt.date.year % 100) + PrintFields(dt) +
                                 fraction + [ZULU])
            == Some(Timestamp(dt))
  {
    hide ParseFields, PrintFields, Timestamp, ParseDigits, IsLeapYear;
    var year := Two(dt.date.year / 100) + Two(dt.date.year % 100);
    var v := year + PrintFields(dt) + fraction;
    var value := v + [ZULU];
    assert value[..|value| - 1] == v;
    assert v[..4] == year;
    assert v[4..] == PrintFields(dt) + fraction;
    PrintedFields(dt, fraction);
    assert year[..2] == Two(dt.date.year / 100) && year[2..] == Two(dt.date.year % 100);
    ParseFour(year);
    TwoRoundTrip(dt.date.year / 100);
    TwoRoundTrip(dt.date.year % 100);
  }

  /** Every value that denotes a time is read as that time. */
  lemma DenotedTimeIsRead(tag: Byte, value: seq<Byte>, dt: DateTime, fraction: seq<Byte>)
    requires Denotes(tag, value, dt, fraction)
    ensures ParseCertificateTime(tag, value) == Some(Timestamp(dt))
  {
    if tag == UTC_TIME { UtcTimeIsRead(dt); } else { GeneralizedTimeIsRead(dt, fraction); }
  }

  lemma ReadFields(year: int, fields: seq<Byte>) returns (dt: DateTime, fraction: seq<Byte>)
    requires ParseFields(year, fields).Some? && 0 <= year <= 9999
    ensures ValidDateTime(dt) && dt.date.year == year && IsFraction(fraction)
    ensures fields == PrintFields(dt) + fraction && ParseFields(year, fields) == Some(Timestamp(dt))
  {
    hide DaysFromCivil, DayNumber, IsLeapYear;
    ParseTwo(fields[..2]);
    ParseTwo(fields[2..4]);
    ParseTwo(fields[4..6]);
    ParseTwo(fields[6..8]);
    ParseTwo(fields[8..10]);
    dt := DateTime(Date(year, ParseDigits(fields[..2]).value, ParseDigits(fields[2..4]).value),
                   ParseDigits(fields[4..6]).value, ParseDigits(fields[6..8]).value,
                   ParseDigits(fields[8..10]).value);
    fraction := fields[10..];
    assert |fields| > 10 ==> fraction[1..] == fields[11..];
    TimestampFits(dt);
    assert fields == fields[..2] + fields[2..4] + fields[4..6] + fields[6..8] + fields[8..10] + fraction;
  }

  lemma ReadUtcTime(v: seq<Byte>) returns (dt: DateTime)
    requires ParseCertificateTime(UTC_TIME, v + [ZULU]).Some?
    ensures Denotes(UTC_TIME, v + [ZULU], dt, [])
    ensures ParseCertificateTime(UTC_TIME, v + [ZULU]) == Some(Timestamp(dt))
  {
    hide ParseFields, PrintFields, Timestamp, ParseDigits, IsLeapYear;
    var value := v + [ZULU];
    assert value[..|value| - 1] == v;
    ParseTwo(v[..2]);
    var y := ParseDigits(v[..2]).value;
    var fraction;
    dt, fraction := ReadFields(if y >= 50 then 1900 + y else 2000 + y, v[2..]);
    assert v == v[..2] + v[2..] && v[2..] == PrintFields(dt);
  }

  lemma ReadGeneralizedTime(v: seq<Byte>) returns (dt: DateTime, fraction: seq<Byte>)
    requires ParseCertificateTime(GENERALIZED_TIME, v + [ZULU]).Some?
    ensures Denotes(GENERALIZED_TIME, v + [ZULU], dt, fraction)
    ensures ParseCertificateTime(GENERALIZED_TIME, v + [ZULU]) == Some(Timestamp(dt))
  {
    hide ParseFields, PrintFields, Timestamp, ParseDigits, IsLeapYear;
    var value := v + [ZULU];
    assert value[..|value| - 1] == v;
    var y := v[..4];
    ParseFour(y);
    ParseTwo(y[..2]);
    ParseTwo(y[2..]);
    dt, fraction := ReadFields(ParseDigits(y).value, v[4..]);
    var year := Two(dt.date.year / 100) + Two(dt.date.year % 100);
    assert y == y[..2] + y[2..] == year;
    assert v == y + v[4..] == year + PrintFields(dt) + fraction;
  }

  /** Every value that is read at all denotes a time, and is read as that time. */
  lemma ReadTimeIsDenoted(tag: Byte, value: seq<Byte>) returns (dt: DateTime, fraction: seq<Byte>)
    requires ParseCertificateTime(tag, value).Some?
    ensures Denotes(tag, value, dt, fraction)
    ensures ParseCertificateTime(tag, value) == Some(Timestamp(dt))
  {
    var v := value[..|value| - 1];
    assert value == v + [ZULU];
    if tag == UTC_TIME {
      dt := ReadUtcTime(v);
      fraction := [];
    } else {
      dt, fraction := ReadGeneralizedTime(v);
    }
  }

  predicate Earlier(a: DateTime, b: DateTime) {
    Before(a.date, b.date) ||
    (a.date == b.date && (a.hour < b.hour || (a.hour == b.hour &&
      (a.minute < b.minute || (a.minute == b.minute && a.second < b.second)))))
  }

  lemma EarlierIsSmaller(a: DateTime, b: DateTime)
    requires ValidDateTime(a) && ValidDateTime(b) && Earlier(a, b)
    ensures Timestamp(a) < Timestamp(b)
  {
    if Before(a.date, b.date) { DayNumberStrict(a.date, b.date); }
  }

  /** Read times are ordered exactly as the calendar orders what was written, to whole seconds
      and across both encodings. */
  lemma ReadTimesFollowCalendar(tagA: Byte, a: seq<Byte>, dtA: DateTime, fractionA: seq<Byte>,
                                tagB: Byte, b: seq<Byte>, dtB: DateTime, fractionB: seq<Byte>)
    requires Denotes(tagA, a, dtA, fractionA) && Denotes(tagB, b, dtB, fractionB)
    ensures var ta, tb := ParseCertificateTime(tagA, a), ParseCertificateTime(tagB, b);
            && ta.Some? && tb.Some?
            && (ta.value < tb.value <==> Earlier(dtA, dtB))
            && (ta.value == tb.value <==> dtA == dtB)
  {
    DenotedTimeIsRead(tagA, a, dtA, fractionA);
    DenotedTimeIsRead(tagB, b, dtB, fractionB);
    if Earlier(dtA, dtB) {
      EarlierIsSmaller(dtA, dtB);
    } else if Earlier(dtB, dtA) {
      EarlierIsSmaller(dtB, dtA);
    }
  }
}
