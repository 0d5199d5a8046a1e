/** TOML dates and times: shape test, parsers and printers
    (pkg/toml/datetime_parse.go, pkg/toml/datetime.go; section 5.6 of RFC 3339). */
module TomlDateTime {
  import opened Text
  import opened Decimal

  datatype LocalDate = LocalDate(year: int, month: int, day: int)

  datatype LocalTime = LocalTime(hour: int, minute: int, second: int, nanosecond: int, hasSecond: bool, nanoDigits: int)

  datatype DateTime =
    | OffsetDateTime(date: LocalDate, time: LocalTime, offsetSeconds: int)
    | LocalDateTime(date: LocalDate, time: LocalTime)
    | DateOnly(date: LocalDate)
    | TimeOnly(time: LocalTime)

  const NANOS_PER_SECOND := 1_000_000_000

  // ---------------------------------------------------------------- ranges

  predicate IsLeapYear(year: int) { year % 4 == 0 && (year % 100 != 0 || year % 400 == 0) }

  function DaysInMonth(year: int, month: int): int {
    if month in {1, 3, 5, 7, 8, 10, 12} then 31
    else if month in {4, 6, 9, 11} then 30
    else if month == 2 then (if IsLeapYear(year) then 29 else 28)
    else 0
  }

  predicate ValidDate(d: LocalDate) {
    0 <= d.year <= 9999 && 1 <= d.month <= 12 && 1 <= d.day <= DaysInMonth(d.year, d.month)
  }

  predicate ValidClock(t: LocalTime) {
    && 0 <= t.hour <= 23 && 0 <= t.minute <= 59 && 0 <= t.second <= 59
    && 0 <= t.nanosecond < NANOS_PER_SECOND && 0 <= t.nanoDigits <= 9
    && (t.nanoDigits == 0 ==> t.nanosecond == 0)
  }

  // ---------------------------------------------------------------- digits

  function Pow10(k: nat): (p: nat)
    ensures p > 0
  {
    if k == 0 then 1 else 10 * Pow10(k - 1)
  }

  /** `n` with `k` zeros appended. */
  function Scaled(n: nat, k: nat): nat { if k == 0 then n else Scaled(n, k - 1) * 10 }

  function FixedDigits(raw: Bytes): Option<nat> {
    if AllDigits(raw) then Some(Value(raw)) else None
  }

  /** `parseFixedDigits` as its accumulating loop. */
  method ParseFixedDigits(raw: Bytes) returns (r: Option<nat>)
    ensures r == FixedDigits(raw)
  {
    var v := 0;
    for i := 0 to |raw|
      invariant AllDigits(raw[..i]) && v == Value(raw[..i])
    {
      if !IsDigit(raw[i]) { return None; }
      assert raw[..i + 1][..i] == raw[..i];
      v := v * 10 + DigitValue(raw[i]);
    }
    assert raw[..|raw|] == raw;
    return Some(v);
  }

  function DigitsEnd(raw: Bytes, i: nat): (j: nat)
    requires i <= |raw|
    ensures i <= j <= |raw|
    ensures forall k | i <= k < j :: IsDigit(raw[k])
    ensures j < |raw| ==> !IsDigit(raw[j])
    decreases |raw| - i
  {
    if i < |raw| && IsDigit(raw[i]) then DigitsEnd(raw, i + 1) else i
  }

  // ---------------------------------------------------------------- parsers

  /** Seconds, nanoseconds, fraction width and end of an optional ":SS[.fraction]" at `off`. */
  datatype Subseconds = Subseconds(second: int, nanos: int, digits: int, next: nat)

  function ClockSubseconds(raw: Bytes, off: nat): (r: Option<Subseconds>)
    requires off <= |raw|
    ensures r.Some? ==> off <= r.value.next <= |raw|
  {
    if off >= |raw| || raw[off] != ':' then Some(Subseconds(0, 0, 0, off))
    else if |raw| - (off + 1) < 2 then None
    else
      var second :- FixedDigits(raw[off + 1..off + 3]);
      if off + 3 >= |raw| || raw[off + 3] != '.' then Some(Subseconds(second, 0, 0, off + 3))
      else
        var end := DigitsEnd(raw, off + 4);
        var width := end - (off + 4);
        if width == 0 || width > 9 then None
        else Some(Subseconds(second, Scaled(Value(raw[off + 4..end]), 9 - width), width, end))
  }

  /** The fraction loops of `parseClockSubseconds`: accumulate, then scale to nanoseconds. */
  method ParseFraction(raw: Bytes, start: nat, end: nat) returns (nanos: nat)
    requires start <= end <= |raw| && end - start <= 9 && AllDigits(raw[start..end])
    ensures nanos == Scaled(Value(raw[start..end]), 9 - (end - start))
  {
    nanos := 0;
    for i := start to end
      invariant AllDigits(raw[start..i])
      invariant nanos == Value(raw[start..i])
    {
      assert raw[i] == raw[start..end][i - start];
      assert raw[start..i + 1] == raw[start..i] + [raw[i]];
      nanos := nanos * 10 + DigitValue(raw[i]);
    }
    for k := 0 to 9 - (end - start)
      invariant nanos == Scaled(Value(raw[start..end]), k)
    {
      nanos := nanos * 10;
    }
  }

  method SkipDigits(raw: Bytes, start: nat) returns (next: nat)
    requires start <= |raw|
    ensures next == DigitsEnd(raw, start)
  {
    next := start;
    while next < |raw| && IsDigit(raw[next])
      invariant start <= next <= |raw|
      invariant DigitsEnd(raw, next) == DigitsEnd(raw, start)
    {
      next := next + 1;
    }
  }

  /** `parseClockSubseconds`. */
  method ParseClockSubseconds(raw: Bytes, off: nat) returns (r: Option<Subseconds>)
    requires off <= |raw|
    ensures r == ClockSubseconds(raw, off)
  {
    var next := off;
    if next >= |raw| || raw[next] != ':' { return Some(Subseconds(0, 0, 0, next)); }
    next := next + 1;
    if |raw| - next < 2 { return None; }
    var sec := ParseFixedDigits(raw[next..next + 2]);
    if sec.None? { return None; }
    next := next + 2;
    if next >= |raw| || raw[next] != '.' { return Some(Subseconds(sec.value, 0, 0, next)); }
    var end := SkipDigits(raw, next + 1);
    if end == next + 1 || end - (next + 1) > 9 { return None; }
    var nanos := ParseFraction(raw, next + 1, end);
    return Some(Subseconds(sec.value, nanos, end - (next + 1), end));
  }

  function ParseDatePrefix(raw: Bytes): (r: Option<LocalDate>)
    ensures r.Some? ==> |raw| >= 10 && ValidDate(r.value)
  {
    if |raw| < 10 || raw[4] != '-' || raw[7] != '-' then None else
      var year :- FixedDigits(raw[0..4]);
      var month :- FixedDigits(raw[5..7]);
      var day :- FixedDigits(raw[8..10]);
      var date := LocalDate(year, month, day);
      if ValidDate(date) then Some(date) else None
  }

  function ParseTimePrefix(raw: Bytes): (r: Option<(LocalTime, nat)>)
    ensures r.Some? ==> 5 <= r.value.1 <= |raw| && ValidClock(r.value.0)
  {
    if |raw| < 5 || raw[2] != ':' then None else
      var hour :- FixedDigits(raw[0..2]);
      var minute :- FixedDigits(raw[3..5]);
      var sub :- ClockSubseconds(raw, 5);
      var clock := LocalTime(hour, minute, sub.second, sub.nanos, sub.next > 5, sub.digits);
      if ValidClock(clock) then Some((clock, sub.next)) else None
  }

  function ParseZone(raw: Bytes): Option<int> {
    if raw == "Z" || raw == "z" then Some(0)
    else if |raw| != 6 || (raw[0] != '+' && raw[0] != '-') || raw[3] != ':' then None
    else
      var hour :- FixedDigits(raw[1..3]);
      var minute :- FixedDigits(raw[4..6]);
      if hour > 23 || minute > 59 then None
      else if raw[0] == '-' then Some(-(hour as int * 3600 + minute * 60))
      else Some(hour * 3600 + minute * 60)
  }

  predicate IsSeparator(c: char) { c == 'T' || c == 't' || c == ' ' }

  function ParseOffsetDateTime(raw: Bytes): Option<DateTime> {
    var date :- ParseDatePrefix(raw);
    if |raw| <= 10 || !IsSeparator(raw[10]) then None else
      var clock :- ParseTimePrefix(raw[11..]);
      if 11 + clock.1 >= |raw| then None else
        var zone :- ParseZone(raw[11 + clock.1..]);
        Some(OffsetDateTime(date, clock.0, zone))
  }

  function ParseLocalDateTime(raw: Bytes): Option<DateTime> {
    var date :- ParseDatePrefix(raw);
    if |raw| <= 10 || !IsSeparator(raw[10]) then None else
      var clock :- ParseTimePrefix(raw[11..]);
      if 11 + clock.1 != |raw| then None else Some(LocalDateTime(date, clock.0))
  }

  function ParseLocalDate(raw: Bytes): Option<LocalDate> {
    var date :- ParseDatePrefix(raw);
    if |raw| != 10 then None else Some(date)
  }

  function ParseLocalTime(raw: Bytes): Option<LocalTime> {
    var clock :- ParseTimePrefix(raw);
    if clock.1 != |raw| then None else Some(clock.0)
  }

  // ---------------------------------------------------------------- shape dispatch

  datatype Shape = InvalidShape | OffsetShape | DateTimeShape | DateShape | TimeShape

  predicate HasDateShape(raw: Bytes) {
    |raw| >= 10 && AllDigits(raw[0..4]) && raw[4] == '-' && AllDigits(raw[5..7]) && raw[7] == '-'
        && AllDigits(raw[8..10])
  }

  predicate HasTimeShape(raw: Bytes) {
    |raw| >= 5 && AllDigits(raw[0..2]) && raw[2] == ':' && AllDigits(raw[3..5])
  }

  predicate HasOffsetSuffix(raw: Bytes) {
    exists i | 5 <= i < |raw| :: raw[i] == 'Z' || raw[i] == 'z' || raw[i] == '+' || raw[i] == '-'
  }

  function DateTimeShapeOf(raw: Bytes): Shape {
    if HasDateShape(raw) then
      if |raw| == 10 then DateShape
      else if IsSeparator(raw[10]) then (if HasOffsetSuffix(raw[11..]) then OffsetShape else DateTimeShape)
      else InvalidShape
    else if HasTimeShape(raw) then TimeShape
    else InvalidShape
  }

  /** `parseDateTimeValue`: the shape picks one parser. */
  function ParseDateTime(raw: Bytes): Option<DateTime> {
    match DateTimeShapeOf(raw)
    case OffsetShape => ParseOffsetDateTime(raw)
    case DateTimeShape => ParseLocalDateTime(raw)
    case DateShape => var d :- ParseLocalDate(raw); Some(DateOnly(d))
    case TimeShape => var t :- ParseLocalTime(raw); Some(TimeOnly(t))
    case InvalidShape => None
  }

  /** Which of the four grammars, tried on their own, accept. */
  predicate Accepts(raw: Bytes, v: DateTime) {
    match v
    case OffsetDateTime(_, _, _) => ParseOffsetDateTime(raw) == Some(v)
    case LocalDateTime(_, _) => ParseLocalDateTime(raw) == Some(v)
    case DateOnly(d) => ParseLocalDate(raw) == Some(d)
    case TimeOnly(t) => ParseLocalTime(raw) == Some(t)
  }

  /** The bytes a time prefix may consume: digits, colons and a dot, never an offset mark. */
  lemma TimePrefixBytes(raw: Bytes, k: nat)
    requires ParseTimePrefix(raw).Some? && k < ParseTimePrefix(raw).value.1
    ensures IsDigit(raw[k]) || raw[k] == ':' || raw[k] == '.'
  {
    var sub := ClockSubseconds(raw, 5).value;
    if k < 2 { assert raw[k] == raw[0..2][k]; }
    else if 3 <= k < 5 { assert raw[k] == raw[3..5][k - 3]; }
    else if 6 <= k < 8 { assert raw[k] == raw[6..8][k - 6]; }
    else if 9 <= k { assert raw[k] == raw[9..sub.next][k - 9]; }
  }

  lemma ShapeOfOffset(raw: Bytes)
    requires ParseOffsetDateTime(raw).Some?
    ensures DateTimeShapeOf(raw) == OffsetShape
  {
    var n := ParseTimePrefix(raw[11..]).value.1;
    var rest := raw[11..];
    assert rest[n] == raw[11 + n..][0];
  }

  lemma ShapeOfLocalDateTime(raw: Bytes)
    requires ParseLocalDateTime(raw).Some?
    ensures DateTimeShapeOf(raw) == DateTimeShape
  {
    var rest := raw[11..];
    forall i | 5 <= i < |rest|
      ensures !(rest[i] == 'Z' || rest[i] == 'z' || rest[i] == '+' || rest[i] == '-')
    {
      TimePrefixBytes(rest, i);
    }
  }

  lemma ShapeOfLocalTime(raw: Bytes)
    requires ParseLocalTime(raw).Some?
    ensures DateTimeShapeOf(raw) == TimeShape
  {
    assert |raw| >= 4 ==> raw[0..4][2] == raw[2];
  }

  /** The shape test always picks the only grammar that can accept: parsing yields exactly the
      value some grammar yields, and no text belongs to two grammars. */
  lemma ShapeDecides(raw: Bytes, v: DateTime)
    ensures Accepts(raw, v) <==> ParseDateTime(raw) == Some(v)
  {
    match v {
      case OffsetDateTime(_, _, _) => if Accepts(raw, v) { ShapeOfOffset(raw); }
      case LocalDateTime(_, _) => if Accepts(raw, v) { ShapeOfLocalDateTime(raw); }
      case DateOnly(_) =>
      case TimeOnly(_) => if Accepts(raw, v) { ShapeOfLocalTime(raw); }
    }
  }

  // ---------------------------------------------------------------- printers

  function Zeros(k: nat): (z: Bytes)
    ensures |z| == k
  {
    if k == 0 then [] else Zeros(k - 1) + ['0']
  }

  /** `fmt`'s `%0<width>d` for a non-negative number. */
  function Padded(n: nat, width: nat): Bytes {
    var s := Itoa(n);
    if |s| >= width then s else Zeros(width - |s|) + s
  }

  function AppendDate(d: LocalDate): Bytes
    requires ValidDate(d)
  {
    Padded(d.year, 4) + "-" + Padded(d.month, 2) + "-" + Padded(d.day, 2)
  }

  lemma {:induction false} ItoaWidth(n: nat, k: nat)
    requires Pow10(k) <= n < Pow10(k + 1)
    ensures |Itoa(n)| == k + 1
  {
    if k > 0 { ItoaWidth(n / 10, k - 1); }
  }

  lemma BillionWidth(n: int)
    requires 0 <= n < NANOS_PER_SECOND
    ensures |Itoa(n + NANOS_PER_SECOND)| == 10
  {
    assert Pow10(5) == 100000 && Pow10(10) == 10_000_000_000 && Pow10(9) == NANOS_PER_SECOND by {
      assert Pow10(2) == 100 && Pow10(3) == 1000 && Pow10(4) == 10000;
      assert Pow10(6) == 1_000_000 && Pow10(7) == 10_000_000 && Pow10(8) == 100_000_000;
    }
    ItoaWidth(n + NANOS_PER_SECOND, 9);
  }

  /** The digits after the decimal point: `Itoa(nanos + 1e9)` without its leading 1. */
  function Fraction(nanos: int, width: nat): (f: Bytes)
    requires 0 <= nanos < NANOS_PER_SECOND && width <= 9
  {
    BillionWidth(nanos);
    Itoa(nanos + NANOS_PER_SECOND)[1..1 + width]
  }

  function AppendTime(t: LocalTime): Bytes
    requires ValidClock(t)
  {
    Padded(t.hour, 2) + ":" + Padded(t.minute, 2) +
    (if t.hasSecond then ":" + Padded(t.second, 2) else "") +
    (if t.hasSecond && t.nanoDigits > 0 then "." + Fraction(t.nanosecond, t.nanoDigits) else "")
  }

  function MarshalDate(d: LocalDate): Option<Bytes> {
    if ValidDate(d) then Some(AppendDate(d)) else None
  }

  function MarshalTime(t: LocalTime): Option<Bytes> {
    if ValidClock(t) then Some(AppendTime(t)) else None
  }

  function MarshalDateTime(d: LocalDate, t: LocalTime): Option<Bytes> {
    if ValidDate(d) && ValidClock(t) then Some(AppendDate(d) + "T" + AppendTime(t)) else None
  }

  // ---------------------------------------------------------------- fixed-width digits

  /** The last `w` decimal digits of `n`. */
  function Fixed(n: nat, w: nat): (s: Bytes)
    ensures |s| == w && AllDigits(s)
  {
    if w == 0 then [] else Fixed(n / 10, w - 1) + [DigitChar(n % 10)]
  }

  lemma ValueLast(s: Bytes, d: nat)
    requires AllDigits(s) && d < 10
    ensures AllDigits(s + [DigitChar(d)]) && Value(s + [DigitChar(d)]) == 10 * Value(s) + d
  {
    assert (s + [DigitChar(d)])[..|s|] == s;
  }

  lemma {:induction false} FixedValue(n: nat, w: nat)
    requires n < Pow10(w)
    ensures Value(Fixed(n, w)) == n
  {
    hide Value, AllDigits, DigitChar;
    if w == 0 {
      assert Value([]) == 0 by { EmptyValue(); }
    } else {
      FixedValue(n / 10, w - 1);
      ValueLast(Fixed(n / 10, w - 1), n % 10);
    }
  }

  lemma EmptyValue()
    ensures AllDigits([]) && Value([]) == 0
  {}

  lemma {:induction false} FixedOfValue(s: Bytes)
    requires AllDigits(s)
    ensures Fixed(Value(s), |s|) == s && Value(s) < Pow10(|s|)
  {
    if s != [] {
      FixedOfValue(s[..|s| - 1]);
      assert s == s[..|s| - 1] + [s[|s| - 1]];
    }
  }

  lemma {:induction false} FixedZero(w: nat)
    ensures Fixed(0, w) == Zeros(w)
  {
    if w > 0 { FixedZero(w - 1); }
  }

  lemma {:induction false} PaddedIsFixed(n: nat, w: nat)
    requires w > 0 && n < Pow10(w)
    ensures Padded(n, w) == Fixed(n, w)
  {
    if n < 10 {
      FixedZero(w - 1);
    } else {
      assert Pow10(1) == 10 * Pow10(0);
      PaddedIsFixed(n / 10, w - 1);
    }
  }

  /** `Itoa(10^w + n)` is a 1 followed by the `w` digits of `n`. */
  lemma {:induction false} ItoaBillion(n: nat, w: nat)
    requires n < Pow10(w)
    ensures Itoa(Pow10(w) + n) == "1" + Fixed(n, w)
  {
    if w > 0 {
      ItoaBillion(n / 10, w - 1);
      assert (Pow10(w) + n) / 10 == Pow10(w - 1) + n / 10;
      assert (Pow10(w) + n) % 10 == n % 10;
    } else {
      assert Itoa(1) == "1";
    }
  }

  lemma {:induction false} FixedPrefix(m: nat, w: nat, k: nat)
    ensures Fixed(Scaled(m, k), w + k)[..w] == Fixed(m, w)
  {
    if k > 0 { FixedPrefix(m, w, k - 1); }
  }

  lemma Nine()
    ensures Pow10(9) == NANOS_PER_SECOND && Pow10(2) == 100 && Pow10(4) == 10000
  {
    assert Pow10(3) == 1000 && Pow10(5) == 100000 && Pow10(6) == 1_000_000;
    assert Pow10(7) == 10_000_000 && Pow10(8) == 100_000_000;
  }

  lemma {:induction false} ScaledBound(m: nat, w: nat, k: nat)
    ensures Scaled(m, k) < Pow10(w + k) <==> m < Pow10(w)
  {
    if k > 0 { ScaledBound(m, w, k - 1); }
  }

  lemma ScaledBelowBillion(m: nat, w: nat)
    requires w <= 9 && m < Pow10(w)
    ensures 0 <= Scaled(m, 9 - w) < NANOS_PER_SECOND
  {
    Nine();
    ScaledBound(m, w, 9 - w);
  }

  lemma FractionIsPrefix(n: int, w: nat)
    requires 0 <= n < NANOS_PER_SECOND && w <= 9
    ensures Fraction(n, w) == Fixed(n, 9)[..w]
  {
    Nine();
    var s := Itoa(n + NANOS_PER_SECOND);
    assert s == "1" + Fixed(n, 9) by { ItoaBillion(n, 9); }
    assert s[1..1 + w] == Fixed(n, 9)[..w];
  }

  /** A fraction written with `w` digits prints back as those digits. */
  lemma FractionOfScaled(m: nat, w: nat)
    requires w <= 9 && m < Pow10(w)
    ensures 0 <= Scaled(m, 9 - w) < NANOS_PER_SECOND
    ensures Fraction(Scaled(m, 9 - w), w) == Fixed(m, w)
  {
    hide Pow10, Scaled, Fixed, Fraction;
    ScaledBelowBillion(m, w);
    FractionIsPrefix(Scaled(m, 9 - w), w);
    FixedPrefix(m, w, 9 - w);
  }

  // ---------------------------------------------------------------- round trips, dates

  lemma DatePieces(d: LocalDate)
    requires ValidDate(d)
    ensures AppendDate(d) == Fixed(d.year, 4) + "-" + Fixed(d.month, 2) + "-" + Fixed(d.day, 2)
    ensures Value(Fixed(d.year, 4)) == d.year && Value(Fixed(d.month, 2)) == d.month && Value(Fixed(d.day, 2)) == d.day
  {
    Nine();
    PaddedIsFixed(d.year, 4);
    PaddedIsFixed(d.month, 2);
    PaddedIsFixed(d.day, 2);
    FixedValue(d.year, 4);
    FixedValue(d.month, 2);
    FixedValue(d.day, 2);
  }

  /** Parsing reads back a printed date whatever follows it. */
  lemma ParsePrintedDate(d: LocalDate, rest: Bytes)
    requires ValidDate(d)
    ensures |AppendDate(d)| == 10
    ensures ParseDatePrefix(AppendDate(d) + rest) == Some(d)
  {
    DatePieces(d);
    var raw := AppendDate(d) + rest;
    assert raw[0..4] == Fixed(d.year, 4);
    assert raw[5..7] == Fixed(d.month, 2);
    assert raw[8..10] == Fixed(d.day, 2);
  }

  /** Printing a parsed date gives back its ten bytes. */
  lemma PrintParsedDate(raw: Bytes)
    requires ParseDatePrefix(raw).Some?
    ensures AppendDate(ParseDatePrefix(raw).value) == raw[..10]
  {
    var d := ParseDatePrefix(raw).value;
    DatePieces(d);
    FixedOfValue(raw[0..4]);
    FixedOfValue(raw[5..7]);
    FixedOfValue(raw[8..10]);
    assert raw[..10] == raw[0..4] + "-" + raw[5..7] + "-" + raw[8..10];
  }

  // ---------------------------------------------------------------- round trips, times

  /** The last `k` decimal digits of `n` are zeros. */
  predicate Trailing(n: nat, k: nat) { k == 0 || (n % 10 == 0 && Trailing(n / 10, k - 1)) }

  /** Values a parser can produce: no seconds field means no seconds, and the fraction width
      covers every non-zero digit. */
  predicate WellFormedTime(t: LocalTime) {
    && ValidClock(t)
    && (!t.hasSecond ==> t.second == 0 && t.nanosecond == 0 && t.nanoDigits == 0)
    && (t.hasSecond ==> Trailing(t.nanosecond, 9 - t.nanoDigits))
  }

  /** Bytes that cannot extend a printed time. */
  predicate TimeStops(rest: Bytes) {
    rest == [] || (rest[0] != ':' && rest[0] != '.' && !IsDigit(rest[0]))
  }

  lemma {:induction false} DigitsEndAt(raw: Bytes, i: nat, j: nat)
    requires i <= j <= |raw| && AllDigits(raw[i..j])
    requires j < |raw| ==> !IsDigit(raw[j])
    ensures DigitsEnd(raw, i) == j
    decreases j - i
  {
    if i < j {
      assert raw[i] == raw[i..j][0];
      assert raw[i + 1..j] == raw[i..j][1..];
      DigitsEndAt(raw, i + 1, j);
    }
  }

  /** The part of a printed time after "HH:MM". */
  function SecondsText(t: LocalTime): Bytes
    requires ValidClock(t)
  {
    if !t.hasSecond then ""
    else ":" + Fixed(t.second, 2) + (if t.nanoDigits > 0 then "." + Fraction(t.nanosecond, t.nanoDigits) else "")
  }

  lemma TimePieces(t: LocalTime)
    requires ValidClock(t)
    ensures AppendTime(t) == Fixed(t.hour, 2) + ":" + Fixed(t.minute, 2) + SecondsText(t)
    ensures Value(Fixed(t.hour, 2)) == t.hour && Value(Fixed(t.minute, 2)) == t.minute
    ensures Value(Fixed(t.second, 2)) == t.second
  {
    Nine();
    PaddedIsFixed(t.hour, 2);
    PaddedIsFixed(t.minute, 2);
    PaddedIsFixed(t.second, 2);
    FixedValue(t.hour, 2);
    FixedValue(t.minute, 2);
    FixedValue(t.second, 2);
  }

  lemma {:induction false} Unscale(n: nat, k: nat) returns (m: nat)
    requires Trailing(n, k)
    ensures n == Scaled(m, k)
  {
    if k == 0 { m := n; } else { m := Unscale(n / 10, k - 1); }
  }

  lemma PrintedFraction(t: LocalTime) returns (m: nat)
    requires WellFormedTime(t) && t.hasSecond
    ensures t.nanosecond == Scaled(m, 9 - t.nanoDigits) && m < Pow10(t.nanoDigits)
    ensures Fraction(t.nanosecond, t.nanoDigits) == Fixed(m, t.nanoDigits)
    ensures Value(Fixed(m, t.nanoDigits)) == m
  {
    m := Unscale(t.nanosecond, 9 - t.nanoDigits);
    Nine();
    ScaledBound(m, t.nanoDigits, 9 - t.nanoDigits);
    FractionOfScaled(m, t.nanoDigits);
    FixedValue(m, t.nanoDigits);
  }

  /** The subsecond parser on ":SS" and on ":SS.f" with a fraction of `w` digits. */
  lemma SubsecondsAt(raw: Bytes, off: nat, w: nat)
    requires off + 3 <= |raw| && raw[off] == ':' && AllDigits(raw[off + 1..off + 3])
    requires w == 0 ==> off + 3 == |raw| || raw[off + 3] != '.'
    requires w > 0 ==> w <= 9 && off + 4 + w <= |raw| && raw[off + 3] == '.' && AllDigits(raw[off + 4..off + 4 + w])
    requires w > 0 && off + 4 + w < |raw| ==> !IsDigit(raw[off + 4 + w])
    ensures ClockSubseconds(raw, off) == Some(
              if w == 0 then Subseconds(Value(raw[off + 1..off + 3]), 0, 0, off + 3)
              else Subseconds(Value(raw[off + 1..off + 3]), Scaled(Value(raw[off + 4..off + 4 + w]), 9 - w), w,
                  off + 4 + w))
  {
    if w > 0 { DigitsEndAt(raw, off + 4, off + 4 + w); }
  }

  lemma Middle(pre: Bytes, mid: Bytes, rest: Bytes, i: nat, j: nat)
    requires i <= j <= |mid|
    ensures (pre + mid + rest)[|pre| + i..|pre| + j] == mid[i..j]
  {}

  lemma SecondsTextPieces(t: LocalTime)
    requires WellFormedTime(t) && t.hasSecond
    ensures |SecondsText(t)| == if t.nanoDigits == 0 then 3 else 4 + t.nanoDigits
    ensures SecondsText(t)[0] == ':' && SecondsText(t)[1..3] == Fixed(t.second, 2)
    ensures t.nanoDigits > 0 ==>
              && SecondsText(t)[3] == '.'
              && AllDigits(SecondsText(t)[4..4 + t.nanoDigits])
              && t.nanosecond == Scaled(Value(SecondsText(t)[4..4 + t.nanoDigits]), 9 - t.nanoDigits)
  {
    if t.nanoDigits > 0 {
      var m := PrintedFraction(t);
      assert SecondsText(t)[4..4 + t.nanoDigits] == Fixed(m, t.nanoDigits);
    }
  }

  lemma SubsecondsInside(pre: Bytes, mid: Bytes, rest: Bytes, w: nat)
    requires w <= 9 && TimeStops(rest)
    requires |mid| == (if w == 0 then 3 else 4 + w) && mid[0] == ':' && AllDigits(mid[1..3])
    requires w > 0 ==> mid[3] == '.' && AllDigits(mid[4..4 + w])
    ensures ClockSubseconds(pre + mid + rest, |pre|) == Some(
              Subseconds(Value(mid[1..3]), if w == 0 then 0 else Scaled(Value(mid[4..4 + w]), 9 - w), w, |pre| + |mid|))
  {
    Middle(pre, mid, rest, 1, 3);
    if w > 0 { Middle(pre, mid, rest, 4, 4 + w); }
    SubsecondsAt(pre + mid + rest, |pre|, w);
  }

  lemma ParsePrintedSeconds(pre: Bytes, t: LocalTime, rest: Bytes)
    requires WellFormedTime(t) && TimeStops(rest)
    ensures ClockSubseconds(pre + SecondsText(t) + rest, |pre|) ==
            Some(Subseconds(t.second, t.nanosecond, t.nanoDigits, |pre + SecondsText(t)|))
  {
    hide Fixed, Value, Scaled, Trailing, Fraction;
    if t.hasSecond {
      SecondsTextPieces(t);
      assert Value(Fixed(t.second, 2)) == t.second by { TimePieces(t); }
      SubsecondsInside(pre, SecondsText(t), rest, t.nanoDigits);
    }
  }

  /** Parsing reads back a printed well-formed time whatever stops it. */
  lemma ParsePrintedTime(t: LocalTime, rest: Bytes)
    requires WellFormedTime(t) && TimeStops(rest)
    ensures ParseTimePrefix(AppendTime(t) + rest) == Some((t, |AppendTime(t)|))
  {
    TimePieces(t);
    var pre := Fixed(t.hour, 2) + ":" + Fixed(t.minute, 2);
    var raw := AppendTime(t) + rest;
    ParsePrintedSeconds(pre, t, rest);
    assert raw == pre + SecondsText(t) + rest;
    assert raw[0..2] == Fixed(t.hour, 2);
    assert raw[3..5] == Fixed(t.minute, 2);
  }

  lemma {:induction false} TrailingScaled(m: nat, k: nat)
    ensures Trailing(Scaled(m, k), k)
  {
    if k > 0 {
      TrailingScaled(m, k - 1);
      assert Scaled(m, k) / 10 == Scaled(m, k - 1);
    }
  }

  /** A parsed time is well formed and prints back as the bytes it was read from. */
  lemma PrintParsedTime(raw: Bytes)
    requires ParseTimePrefix(raw).Some?
    ensures WellFormedTime(ParseTimePrefix(raw).value.0)
    ensures AppendTime(ParseTimePrefix(raw).value.0) == raw[..ParseTimePrefix(raw).value.1]
  {
    hide ParseTimePrefix, Value, Fixed, SecondsText, AppendTime, WellFormedTime;
    var (t, n) := ParseTimePrefix(raw).value;
    TimePieces(t);
    ParsedMinutes(raw, t, n);
    FixedOfValue(raw[0..2]);
    FixedOfValue(raw[3..5]);
    PrintParsedSeconds(raw, t, n);
    FiveAndRest(raw, n);
  }

  lemma FiveAndRest(raw: Bytes, n: nat)
    requires 5 <= n <= |raw| && raw[2] == ':'
    ensures raw[..n] == raw[0..2] + ":" + raw[3..5] + raw[5..n]
  {}

  lemma ParsedMinutes(raw: Bytes, t: LocalTime, n: nat)
    requires ParseTimePrefix(raw) == Some((t, n))
    ensures 5 <= n <= |raw| && raw[2] == ':' && AllDigits(raw[0..2]) && AllDigits(raw[3..5])
    ensures t.hour == Value(raw[0..2]) && t.minute == Value(raw[3..5])
  {
    hide ClockSubseconds, Value;
  }

  /** The three ways a time prefix can end, and what it then recorded. */
  lemma ParsedSeconds(raw: Bytes, t: LocalTime, n: nat)
    requires ParseTimePrefix(raw) == Some((t, n))
    ensures n == 5 || n == 8 || 9 < n <= 18
    ensures n == 5 ==> t.second == t.nanosecond == t.nanoDigits == 0 && !t.hasSecond
    ensures n >= 8 ==> t.hasSecond && raw[5] == ':' && AllDigits(raw[6..8]) && t.second == Value(raw[6..8])
    ensures n == 8 ==> t.nanosecond == t.nanoDigits == 0
    ensures n > 8 ==>
      && raw[8] == '.' && AllDigits(raw[9..n]) && t.nanoDigits == n - 9
      && t.nanosecond == Scaled(Value(raw[9..n]), 18 - n)
  {}

  lemma PrintParsedSeconds(raw: Bytes, t: LocalTime, n: nat)
    requires ParseTimePrefix(raw) == Some((t, n))
    ensures WellFormedTime(t)
    ensures SecondsText(t) == raw[5..n]
  {
    hide ParseTimePrefix, Value, Fixed, Fraction, Scaled, Trailing;
    ParsedSeconds(raw, t, n);
    if n >= 8 {
      FixedOfValue(raw[6..8]);
      assert raw[5..8] == ":" + raw[6..8];
      if n > 8 {
        PrintParsedFraction(raw[9..n]);
        assert raw[5..n] == raw[5..8] + "." + raw[9..n];
      } else {
        TrailingZero(9);
      }
    }
  }

  lemma {:induction false} PrintParsedFraction(f: Bytes)
    requires AllDigits(f) && |f| <= 9
    ensures 0 <= Scaled(Value(f), 9 - |f|) < NANOS_PER_SECOND
    ensures Trailing(Scaled(Value(f), 9 - |f|), 9 - |f|)
    ensures Fraction(Scaled(Value(f), 9 - |f|), |f|) == f
  {
    FixedOfValue(f);
    FractionOfScaled(Value(f), |f|);
    TrailingScaled(Value(f), 9 - |f|);
  }

  lemma {:induction false} TrailingZero(k: nat)
    ensures Trailing(0, k)
  {
    if k > 0 { TrailingZero(k - 1); }
  }

  // ---------------------------------------------------------------- the promises

  /** Marshalling a parsed local value gives back the input, with the separator written `T`. */
  lemma MarshalOfParsed(raw: Bytes)
    ensures ParseLocalDate(raw).Some? ==> MarshalDate(ParseLocalDate(raw).value) == Some(raw)
    ensures ParseLocalTime(raw).Some? ==> MarshalTime(ParseLocalTime(raw).value) == Some(raw)
    ensures ParseLocalDateTime(raw).Some? ==>
              var v := ParseLocalDateTime(raw).value;
              MarshalDateTime(v.date, v.time) == Some(raw[10 := 'T'])
  {
    hide ParseDatePrefix, ParseTimePrefix, AppendDate, AppendTime;
    if ParseLocalDate(raw).Some? {
      PrintParsedDate(raw);
      assert raw[..10] == raw;
    }
    if ParseLocalTime(raw).Some? {
      PrintParsedTime(raw);
      assert raw[..|raw|] == raw;
    }
    if ParseLocalDateTime(raw).Some? {
      PrintParsedDate(raw);
      PrintParsedTime(raw[11..]);
      assert raw[11..][..|raw| - 11] == raw[11..];
      assert raw[10 := 'T'] == raw[..10] + "T" + raw[11..];
    }
  }

  /** Every valid date parses back from its text. */
  lemma DateRoundTrip(d: LocalDate)
    requires ValidDate(d)
    ensures MarshalDate(d).Some? && ParseLocalDate(MarshalDate(d).value) == Some(d)
  {
    ParsePrintedDate(d, []);
    assert AppendDate(d) + [] == AppendDate(d);
  }

  /** `MarshalText` accepts every in-range time, but the value comes back exactly when it is well
      formed: a time built without the seconds mark loses its seconds. */
  lemma TimeRoundTrip(t: LocalTime)
    requires ValidClock(t)
    ensures MarshalTime(t).Some?
    ensures ParseLocalTime(MarshalTime(t).value) == Some(t) <==> WellFormedTime(t)
  {
    hide ParseTimePrefix, AppendTime, WellFormedTime;
    var text := AppendTime(t);
    assert text + [] == text;
    if WellFormedTime(t) {
      ParsePrintedTime(t, []);
    } else if ParseLocalTime(text) == Some(t) {
      PrintParsedTime(text);
      assert false;
    }
  }

  lemma DateTimeRoundTrip(d: LocalDate, t: LocalTime)
    requires ValidDate(d) && ValidClock(t)
    ensures MarshalDateTime(d, t).Some?
    ensures ParseLocalDateTime(MarshalDateTime(d, t).value) == Some(LocalDateTime(d, t)) <==> WellFormedTime(t)
  {
    hide ParseDatePrefix, ParseTimePrefix, AppendDate, AppendTime, WellFormedTime;
    var text := AppendDate(d) + "T" + AppendTime(t);
    assert text == AppendDate(d) + ("T" + AppendTime(t));
    ParsePrintedDate(d, "T" + AppendTime(t));
    assert text[11..] == AppendTime(t) == AppendTime(t) + [];
    if WellFormedTime(t) {
      ParsePrintedTime(t, []);
    } else if ParseLocalDateTime(text) == Some(LocalDateTime(d, t)) {
      PrintParsedTime(text[11..]);
      assert false;
    }
  }

  /** Concretely: 01:02:03 without the seconds mark prints as "01:02". */
  lemma SecondsLost()
    ensures ValidClock(LocalTime(1, 2, 3, 0, false, 0))
    ensures MarshalTime(LocalTime(1, 2, 3, 0, false, 0)) == Some("01:02")
  {
    assert Itoa(1) == "1" && Itoa(2) == "2" && Zeros(1) == Zeros(0) + "0";
    assert Padded(1, 2) == "01" && Padded(2, 2) == "02";
    assert "01" + ":" + "02" + "" + "" == "01:02";
  }
}
