/** The exact language of TOML dates and times (pkg/toml/datetime_parse.go; section 5.6 of RFC 3339):
    the calendar, the clock and the zone by definitions of their own, and the texts of each value. */
module TomlCalendar {
  import opened Text
  import opened Decimal
  import opened TomlDateTime

  // ---------------------------------------------------------------- calendar and clock

  /** Leap days up to the end of a year of the proleptic Gregorian calendar. */
  function LeapDays(year: int): int { year / 4 - year / 100 + year / 400 }

  function LeapDay(year: int): int { LeapDays(year) - LeapDays(year - 1) }

  const MONTHS := [31, 28, 31, 30, 31, 30, 31, 31, 30, 31, 30, 31]

  predicate CalendarDay(d: LocalDate) {
    && 0 <= d.year < 10000 && 1 <= d.month <= |MONTHS|
    && 1 <= d.day <= MONTHS[d.month - 1] + if d.month == 2 then LeapDay(d.year) else 0
  }

  lemma QuotientStep(y: int, n: int)
    requires n in {4, 100, 400}
    ensures y / n - (y - 1) / n == if y % n == 0 then 1 else 0
  {}

  /** A year has a leap day exactly if it is a leap year. */
  lemma LeapYears(year: int)
    ensures LeapDay(year) == if IsLeapYear(year) then 1 else 0
  {
    QuotientStep(year, 4);
    QuotientStep(year, 100);
    QuotientStep(year, 400);
    Divides(year);
  }

  lemma Divides(y: int)
    ensures y % 400 == 0 ==> y % 100 == 0
    ensures y % 100 == 0 ==> y % 4 == 0
  {
    if y % 400 == 0 { Hundreds(4 * (y / 400)); }
    if y % 100 == 0 { Fours(25 * (y / 100)); }
  }

  lemma Hundreds(k: int)
    ensures 100 * k % 100 == 0
  {}

  lemma Fours(k: int)
    ensures 4 * k % 4 == 0
  {}

  lemma ValidDates(d: LocalDate)
    ensures ValidDate(d) <==> CalendarDay(d)
  {
    LeapYears(d.year);
  }

  /** The clock shows second `n` of a day. */
  predicate Shows(t: LocalTime, n: int) { t.hour == n / 3600 && t.minute == n / 60 % 60 && t.second == n % 60 }

  /** A clock is valid exactly if it shows a second of the day and a fraction of a second of at most nine
      digits, with no fraction if there are none. */
  lemma ValidClocks(t: LocalTime)
    ensures ValidClock(t) <==>
      && (exists n | 0 <= n < 86400 :: Shows(t, n))
      && 0 <= t.nanosecond < 1_000_000_000 && 0 <= t.nanoDigits < 10
      && (t.nanoDigits == 0 ==> t.nanosecond == 0)
  {
    var n := 3600 * t.hour + 60 * t.minute + t.second;
    if ValidClock(t) { ClockSecond(t.hour, t.minute, t.second); assert Shows(t, n); }
  }

  lemma ClockSecond(h: int, m: int, s: int)
    requires 0 <= h < 24 && 0 <= m < 60 && 0 <= s < 60
    ensures var n := 3600 * h + 60 * m + s; 0 <= n < 86400 && n / 3600 == h && n / 60 % 60 == m && n % 60 == s
  {
    var n := 3600 * h + 60 * m + s;
    assert n == 60 * (60 * h + m) + s;
    assert n / 60 == 60 * h + m;
  }

  // ---------------------------------------------------------------- zones

  /** `Z`, or a sign, hours and minutes. */
  ghost predicate ZoneText(raw: Bytes, offset: int) {
    || (raw in {"Z", "z"} && offset == 0)
    || exists sign, h: nat, m: nat :: Offset(raw, sign, h, m, offset)
  }

  predicate Offset(raw: Bytes, sign: int, h: nat, m: nat, offset: int) {
    && sign in {1, -1} && h < 24 && m < 60 && offset == sign * (3600 * h + 60 * m)
    && raw == (if sign == 1 then "+" else "-") + Fixed(h, 2) + ":" + Fixed(m, 2)
  }

  lemma ZoneExactly(raw: Bytes, offset: int)
    ensures ParseZone(raw) == Some(offset) <==> ZoneText(raw, offset)
  {
    hide Value, Fixed;
    if ParseZone(raw) == Some(offset) && raw != "Z" && raw != "z" {
      var h, m := Value(raw[1..3]), Value(raw[4..6]);
      FixedOfValue(raw[1..3]);
      FixedOfValue(raw[4..6]);
      var sign := if raw[0] == '-' then -1 else 1;
      assert raw == [raw[0]] + raw[1..3] + ":" + raw[4..6];
      assert Offset(raw, sign, h, m, offset);
    }
    if sign, h: nat, m: nat :| Offset(raw, sign, h, m, offset) { ZoneParsed(raw, sign, h, m, offset); }
  }

  lemma ZoneParsed(raw: Bytes, sign: int, h: nat, m: nat, offset: int)
    requires Offset(raw, sign, h, m, offset)
    ensures ParseZone(raw) == Some(offset) && TimeStops(raw)
  {
    hide Value, Fixed;
    Nine();
    FixedValue(h, 2);
    FixedValue(m, 2);
    assert raw[1..3] == Fixed(h, 2) && raw[4..6] == Fixed(m, 2);
    assert |raw| == 6;
  }

  lemma ZoneStops(raw: Bytes, offset: int)
    requires ZoneText(raw, offset)
    ensures raw != "" && TimeStops(raw)
  {
    hide Value, Fixed;
    if sign, h: nat, m: nat :| Offset(raw, sign, h, m, offset) { ZoneParsed(raw, sign, h, m, offset); }
  }

  // ---------------------------------------------------------------- texts of values

  predicate Separator(c: char) { c as int in {0x54, 0x74, 0x20} }

  /** The texts of a value: its printed date and time, either separator, any spelling of the zone. */
  ghost predicate Spelled(raw: Bytes, v: DateTime) {
    match v
    case DateOnly(d) => ValidDate(d) && raw == AppendDate(d)
    case TimeOnly(t) => WellFormedTime(t) && raw == AppendTime(t)
    case LocalDateTime(d, t) =>
      ValidDate(d) && WellFormedTime(t) && exists sep :: Separator(sep) && raw == AppendDate(d) + [sep] + AppendTime(t)
    case OffsetDateTime(d, t, offset) =>
      && ValidDate(d) && WellFormedTime(t)
      && exists sep, zone ::
           Separator(sep) && ZoneText(zone, offset) && raw == AppendDate(d) + [sep] + AppendTime(t) + zone
  }

  lemma LocalSpelled(raw: Bytes, d: LocalDate, t: LocalTime)
    ensures ParseLocalDateTime(raw) == Some(LocalDateTime(d, t)) <==> Spelled(raw, LocalDateTime(d, t))
  {
    hide AppendDate, AppendTime, ParseDatePrefix, ParseTimePrefix, DaysInMonth, Trailing;
    if ParseLocalDateTime(raw) == Some(LocalDateTime(d, t)) {
      PrintParsedDate(raw);
      PrintParsedTime(raw[11..]);
      var rest := raw[11..];
      assert rest[..|rest|] == rest;
      assert raw == raw[..10] + [raw[10]] + rest;
      assert Separator(raw[10]) && raw == AppendDate(d) + [raw[10]] + AppendTime(t);
    }
    if Spelled(raw, LocalDateTime(d, t)) {
      var sep :| Separator(sep) && raw == AppendDate(d) + [sep] + AppendTime(t);
      JoinedRead(raw, d, sep, t, "");
    }
  }

  /** A date, a separator, a time and what stops it are read apart. */
  lemma JoinedRead(raw: Bytes, d: LocalDate, sep: char, t: LocalTime, rest: Bytes)
    requires ValidDate(d) && WellFormedTime(t) && TimeStops(rest)
    requires raw == AppendDate(d) + [sep] + AppendTime(t) + rest
      || (rest == "" && raw == AppendDate(d) + [sep] + AppendTime(t))
    ensures |raw| > 10 && raw[10] == sep && ParseDatePrefix(raw) == Some(d)
    ensures ParseTimePrefix(raw[11..]) == Some((t, |AppendTime(t)|))
    ensures 11 + |AppendTime(t)| <= |raw| && raw[11 + |AppendTime(t)|..] == rest
  {
    hide AppendDate, AppendTime, ParseDatePrefix, ParseTimePrefix, DaysInMonth, Trailing;
    ParsePrintedDate(d, [sep] + AppendTime(t) + rest);
    assert raw == AppendDate(d) + ([sep] + AppendTime(t) + rest);
    ParsePrintedTime(t, rest);
    assert raw[11..] == AppendTime(t) + rest;
  }

  lemma OffsetSpelled(raw: Bytes, d: LocalDate, t: LocalTime, offset: int)
    ensures ParseOffsetDateTime(raw) == Some(OffsetDateTime(d, t, offset))
            <==> Spelled(raw, OffsetDateTime(d, t, offset))
  {
    hide AppendDate, AppendTime, ParseDatePrefix, ParseTimePrefix, DaysInMonth, Trailing, ParseZone, ZoneText;
    if ParseOffsetDateTime(raw) == Some(OffsetDateTime(d, t, offset)) {
      PrintParsedDate(raw);
      PrintParsedTime(raw[11..]);
      var rest, n := raw[11..], |AppendTime(t)|;
      ZoneExactly(raw[11 + n..], offset);
      assert rest == rest[..n] + rest[n..] && rest[n..] == raw[11 + n..];
      assert raw == raw[..10] + [raw[10]] + rest;
      assert Separator(raw[10]) && raw == AppendDate(d) + [raw[10]] + AppendTime(t) + raw[11 + n..];
    }
    if Spelled(raw, OffsetDateTime(d, t, offset)) {
      var sep, zone :| Separator(sep) && ZoneText(zone, offset) && raw == AppendDate(d) + [sep] + AppendTime(t) + zone;
      ZoneStops(zone, offset);
      ZoneExactly(zone, offset);
      JoinedRead(raw, d, sep, t, zone);
    }
  }

  lemma DateSpelled(raw: Bytes, d: LocalDate)
    ensures ParseLocalDate(raw) == Some(d) <==> Spelled(raw, DateOnly(d))
  {
    hide AppendDate, ParseDatePrefix, DaysInMonth;
    if ParseLocalDate(raw) == Some(d) {
      PrintParsedDate(raw);
      assert raw[..10] == raw;
    }
    if Spelled(raw, DateOnly(d)) {
      ParsePrintedDate(d, "");
      assert raw + "" == raw;
    }
  }

  lemma TimeSpelled(raw: Bytes, t: LocalTime)
    ensures ParseLocalTime(raw) == Some(t) <==> Spelled(raw, TimeOnly(t))
  {
    hide AppendTime, ParseTimePrefix, Trailing;
    if ParseLocalTime(raw) == Some(t) {
      PrintParsedTime(raw);
      assert raw[..|raw|] == raw;
    }
    if Spelled(raw, TimeOnly(t)) {
      ParsePrintedTime(t, "");
      assert raw + "" == raw;
    }
  }

  /** The parser gives a value exactly for the texts of that value. */
  lemma ParsedExactly(raw: Bytes, v: DateTime)
    ensures ParseDateTime(raw) == Some(v) <==> Spelled(raw, v)
  {
    hide ParseDateTime, Spelled, ParseLocalDate, ParseLocalTime, ParseLocalDateTime, ParseOffsetDateTime;
    ShapeDecides(raw, v);
    match v {
      case DateOnly(d) => DateSpelled(raw, d);
      case TimeOnly(t) => TimeSpelled(raw, t);
      case LocalDateTime(d, t) => LocalSpelled(raw, d, t);
      case OffsetDateTime(d, t, offset) => OffsetSpelled(raw, d, t, offset);
    }
  }
}
