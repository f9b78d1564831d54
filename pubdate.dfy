/** `_parse_publication_date` (lightcast/core.py:16-18): CPython's
    `datetime.strptime(text, "%a, %d %b %Y %H:%M:%S %z")` in the C locale,
    the RFC 822 date-time layout RSS uses for `pubDate`. `strptime` turns each
    directive into a regular expression, matches the whole text against it
    ignoring case, and then builds a `datetime`, which checks the calendar and
    the offset. Every rejection is a ValueError about the text. */
module PubDate {
  import opened Results
  import opened Strings
  import opened Decimal

  /** What a parsed `pubDate` holds: the `datetime` fields and the weekday
      as written (`strptime` reads it but never compares it with the date). */
  datatype Timestamp = Timestamp(
    weekday: nat,   // 0 is Monday
    year: nat, month: nat, day: nat,
    hour: nat, minute: nat, second: nat,
    offset: int)    // signed UTC offset in microseconds

  /** `calendar.day_abbr` and `calendar.month_abbr` in the C locale. */
  const WeekdayAbbr: seq<string> := ["Mon", "Tue", "Wed", "Thu", "Fri", "Sat", "Sun"]
  const MonthAbbr: seq<string> :=
    ["Jan", "Feb", "Mar", "Apr", "May", "Jun", "Jul", "Aug", "Sep", "Oct", "Nov", "Dec"]

  /** The same names lower-cased, as `strptime` looks them up. */
  const WeekdayNames: seq<string> := ["mon", "tue", "wed", "thu", "fri", "sat", "sun"]
  const MonthNames: seq<string> :=
    ["jan", "feb", "mar", "apr", "may", "jun", "jul", "aug", "sep", "oct", "nov", "dec"]

  const MicrosPerSecond: nat := 1_000_000
  const MicrosPerMinute: nat := 60_000_000
  const MicrosPerDay: nat := 86_400_000_000

  predicate IsLeapYear(y: int) {
    y % 4 == 0 && (y % 100 != 0 || y % 400 == 0)
  }

  function DaysInMonth(year: int, month: int): (n: nat)
    requires 1 <= month <= 12
    ensures 28 <= n <= 31
  {
    if month == 2 then (if IsLeapYear(year) then 29 else 28)
    else if month == 4 || month == 6 || month == 9 || month == 11 then 30
    else 31
  }

  /** What `datetime(...)` and `timezone(...)` accept: a real calendar day
      in years 1-9999, a time of day with seconds below 60, and an offset
      strictly inside one day either way. */
  predicate Valid(t: Timestamp) {
    && t.weekday < 7
    && 1 <= t.year <= 9999
    && 1 <= t.month <= 12
    && 1 <= t.day <= DaysInMonth(t.year, t.month)
    && t.hour <= 23 && t.minute <= 59 && t.second <= 59
    && -(MicrosPerDay as int) < t.offset < MicrosPerDay
  }

  /** `\s` in a `str` pattern: what `str.isspace` accepts, which adds the
      ASCII separators 0x1C-0x1F to the whitespace `int()` skips. */
  predicate IsReSpace(c: char) {
    IsIntSpace(c) || ('\U{1C}' <= c <= '\U{1F}')
  }

  function LowerAscii(c: char): char {
    if 'A' <= c <= 'Z' then (c as int + 32) as char else c
  }

  /** Position of `x` in `names`, if it is there. */
  function IndexOf(names: seq<string>, x: string): (r: Option<nat>)
    ensures r.Some? ==> r.value < |names| && names[r.value] == x
    ensures r.None? ==> x !in names
  {
    if names == [] then None
    else if names[0] == x then Some(0)
    else
      match IndexOf(names[1..], x)
      case None => None
      case Some(k) => Some(k + 1)
  }

  /** `%a` and `%b`: three letters matched against the lower-cased names
      without regard to ASCII case; their index and what follows. Letters
      whose case folds only outside ASCII match no name. */
  function Name(s: string, names: seq<string>): Option<(nat, string)> {
    if |s| < 3 then None
    else
      var k :- IndexOf(names, [LowerAscii(s[0]), LowerAscii(s[1]), LowerAscii(s[2])]);
      Some((k, s[3..]))
  }

  /** A format space, `\s+`: at least one whitespace character, and all
      that follow it. */
  function Spaces(s: string): Option<string> {
    var n := Lead(s, IsReSpace);
    if n == 0 then None else Some(s[n..])
  }

  /** A numeric directive: the ASCII digit run at the front, which must be
      `lo` to `hi` digits long, read as a number. The regular expressions of
      `%d`, `%H`, `%M` and `%S` accept one or two digits and bound their
      values; a value out of range is rejected here by `Valid` instead, the
      outcome being the same ValueError. */
  function Number(s: string, lo: nat, hi: nat): Option<(nat, string)> {
    var n := Lead(s, IsDigit);
    if n < lo || hi < n then None
    else
      assert AllDigits(s[..n]);
      Some((DecimalValue(s[..n]), s[n..]))
  }

  /** A literal character of the format. */
  function Literal(s: string, c: char): Option<string> {
    if s != [] && s[0] == c then Some(s[1..]) else None
  }

  /** `[0-5]\d`: minutes or seconds of an offset. */
  function Sexagesimal(s: string): Option<(nat, string)> {
    if |s| >= 2 && '0' <= s[0] <= '5' && IsDigit(s[1]) then
      Some((DecimalValue(s[..2]), s[2..]))
    else None
  }

  function Pow10(n: nat): (p: nat)
    ensures p >= 1
  {
    if n == 0 then 1 else 10 * Pow10(n - 1)
  }

  /** `(\.\d{1,6})?` up to the end of the text: microseconds, the digits
      padded with zeros on the right. */
  function Fraction(s: string): Option<nat> {
    if s == [] then Some(0)
    else if s[0] == '.' && 2 <= |s| <= 7 && AllDigits(s[1..]) then
      Some(DecimalValue(s[1..]) * Pow10(7 - |s|))
    else None
  }

  /** The optional seconds of an offset, after its minutes: `:?[0-5]\d`,
      then an optional fraction; seconds and microseconds. The colon before
      the seconds must agree with the one before the minutes. */
  function OffsetSeconds(s: string, colon: bool): Option<(nat, nat)> {
    if s == [] then Some((0, 0))
    else
      var secondColon := s[0] == ':';
      var sec :- Sexagesimal(if secondColon then s[1..] else s);
      if secondColon != colon then None
      else
        var micros :- Fraction(sec.1);
        Some((sec.0, micros))
  }

  /** `%z` up to the end of the text: `Z` (upper case only), or a sign, two
      digits of hours, an optional colon and `[0-5]\d` minutes, then the
      optional seconds; the signed offset in microseconds. */
  function ParseOffset(z: string): Option<int> {
    if z == "Z" then Some(0)
    else if |z| < 3 || !(z[0] == '+' || z[0] == '-') || !IsDigit(z[1]) || !IsDigit(z[2]) then None
    else
      var hours := DecimalValue(z[1..3]);
      var colon := |z| > 3 && z[3] == ':';
      var minutes :- Sexagesimal(if colon then z[4..] else z[3..]);
      var seconds :- OffsetSeconds(minutes.1, colon);
      var magnitude := (hours * 3600 + minutes.0 * 60 + seconds.0) * MicrosPerSecond + seconds.1;
      Some(if z[0] == '-' then -magnitude else magnitude)
  }

  /** `%a, %d %b %Y`: weekday index, day, month, year, and the rest. */
  function ScanDate(s: string): Option<(nat, nat, nat, nat, string)> {
    var weekday :- Name(s, WeekdayNames);
    var r :- Literal(weekday.1, ',');
    var date :- ScanDayMonthYear(r);
    Some((weekday.0, date.0, date.1, date.2, date.3))
  }

  /** ` %d %b %Y`: day, month (1 is January), year, and the rest. */
  function ScanDayMonthYear(s: string): Option<(nat, nat, nat, string)> {
    var day :- SpacedNumber(s, 1, 2);
    var month :- SpacedName(day.1, MonthNames);
    var year :- SpacedNumber(month.1, 4, 4);
    Some((day.0, month.0 + 1, year.0, year.1))
  }

  /** A format space followed by a numeric directive. */
  function SpacedNumber(s: string, lo: nat, hi: nat): Option<(nat, string)> {
    var r :- Spaces(s);
    Number(r, lo, hi)
  }

  /** A format space followed by a name directive. */
  function SpacedName(s: string, names: seq<string>): Option<(nat, string)> {
    var r :- Spaces(s);
    Name(r, names)
  }

  /** ` %H:%M:%S`: hour, minute, second, and the rest. */
  function ScanClock(s: string): Option<(nat, nat, nat, string)> {
    var r0 :- Spaces(s);
    var hour :- Number(r0, 1, 2);
    var r1 :- Literal(hour.1, ':');
    var minute :- Number(r1, 1, 2);
    var r2 :- Literal(minute.1, ':');
    var second :- Number(r2, 1, 2);
    Some((hour.0, minute.0, second.0, second.1))
  }

  /** ` %z` up to the end of the text. */
  function ScanZone(s: string): Option<int> {
    var r :- Spaces(s);
    ParseOffset(r)
  }

  /** The text matched against the whole format, field values not yet checked. */
  function Scan(s: string): Option<Timestamp> {
    var date :- ScanDate(s);
    var clock :- ScanClock(date.4);
    var offset :- ScanZone(clock.3);
    Some(Timestamp(date.0, date.3, date.2, date.1, clock.0, clock.1, clock.2, offset))
  }

  /** `_parse_publication_date(text)`: a valid date-time, or a ValueError
      about the text. */
  function ParsePubDate(text: string): (r: Result<Timestamp>)
    ensures r.Success? ==> Valid(r.value)
    ensures r.Failure? ==> r.error == ValueError(text)
  {
    match Scan(text)
    case Some(t) => if Valid(t) then Success(t) else Failure(ValueError(text))
    case None => Failure(ValueError(text))
  }

  // ---------------------------------------------------------------------
  // The canonical RSS spelling, and the round trip through the parser.

  function Pad2(n: nat): (s: string)
    requires n < 100
    ensures |s| == 2 && AllDigits(s)
  {
    [DigitChar(n / 10), DigitChar(n % 10)]
  }

  function Pad4(n: nat): (s: string)
    requires n < 10000
    ensures |s| == 4 && AllDigits(s)
  {
    Pad2(n / 100) + Pad2(n % 100)
  }

  /** `Www,` followed by the day, month and year. */
  function DateText(weekday: nat, day: nat, month: nat, year: nat): string
    requires weekday < 7 && day < 100 && 1 <= month <= 12 && year < 10000
  {
    WeekdayAbbr[weekday] + ("," + DayMonthYearText(day, month, year))
  }

  /** ` DD Mon YYYY`. */
  function DayMonthYearText(day: nat, month: nat, year: nat): string
    requires day < 100 && 1 <= month <= 12 && year < 10000
  {
    " " + (Pad2(day) + (" " + (MonthAbbr[month - 1] + (" " + Pad4(year)))))
  }

  /** ` HH:MM:SS`. */
  function ClockText(hour: nat, minute: nat, second: nat): string
    requires hour < 100 && minute < 100 && second < 100
  {
    " " + (Pad2(hour) + (":" + (Pad2(minute) + (":" + Pad2(second)))))
  }

  /** ` +HHMM` or ` -HHMM`. */
  function ZoneText(sign: char, hours: nat, minutes: nat): string
    requires hours < 100 && minutes < 100
  {
    " " + ([sign] + (Pad2(hours) + Pad2(minutes)))
  }

  /** A timestamp the canonical spelling can carry: valid, with an offset
      in whole minutes. */
  predicate Canonical(t: Timestamp) {
    Valid(t) && t.offset % MicrosPerMinute == 0
  }

  /** The size of the offset in minutes. */
  function OffsetMinutes(t: Timestamp): (m: nat)
    requires Canonical(t)
    ensures m < 1440
    ensures m * MicrosPerMinute == if t.offset < 0 then -t.offset else t.offset
  {
    (if t.offset < 0 then -t.offset else t.offset) / MicrosPerMinute
  }

  /** `Www, DD Mon YYYY HH:MM:SS +HHMM`, the spelling `email.utils.format_datetime`
      writes and feeds carry. */
  function FormatPubDate(t: Timestamp): string
    requires Canonical(t)
  {
    var m := OffsetMinutes(t);
    DateText(t.weekday, t.day, t.month, t.year)
      + (ClockText(t.hour, t.minute, t.second) + ZoneText(if t.offset < 0 then '-' else '+', m / 60, m % 60))
  }

  /** The canonical spelling starts with the weekday's capital and ends
      with a digit of the offset. */
  lemma {:induction false} FormatPubDateEnds(t: Timestamp)
    requires Canonical(t)
    ensures |FormatPubDate(t)| >= 1
    ensures 'A' <= FormatPubDate(t)[0] <= 'Z' && IsDigit(FormatPubDate(t)[|FormatPubDate(t)| - 1])
  {
    NameStep(WeekdayAbbr, WeekdayNames, t.weekday, []);
    var m := OffsetMinutes(t);
    var zone := ZoneText(if t.offset < 0 then '-' else '+', m / 60, m % 60);
    assert zone[|zone| - 1] == Pad2(m % 60)[1];
  }

  /** Every canonical timestamp survives being written out and parsed back. */
  lemma {:induction false} ParseFormat(t: Timestamp)
    requires Canonical(t)
    ensures ParsePubDate(FormatPubDate(t)).Success?
    ensures ParsePubDate(FormatPubDate(t)).value == t
  {
    var m := OffsetMinutes(t);
    var sign := if t.offset < 0 then '-' else '+';
    ScanText(t.weekday, t.day, t.month, t.year, t.hour, t.minute, t.second, sign, m / 60, m % 60);
    ZoneOfMinutes(t);
    ParseScanned(FormatPubDate(t), t);
  }

  /** The sign, hours and minutes the canonical spelling writes give the
      offset back. */
  lemma {:induction false} ZoneOfMinutes(t: Timestamp)
    requires Canonical(t)
    ensures SignedOffset(if t.offset < 0 then '-' else '+', OffsetMinutes(t) / 60, OffsetMinutes(t) % 60) == t.offset
  {
    var m := OffsetMinutes(t);
    assert (m / 60) * 60 + m % 60 == m;
  }

  /** Once the text has matched the format, the parse stands or falls with
      the validity of its fields. */
  lemma {:induction false} ParseScanned(text: string, t: Timestamp)
    requires Scan(text) == Some(t)
    ensures ParsePubDate(text) == if Valid(t) then Success(t) else Failure(ValueError(text))
  {
  }

  lemma {:induction false} ScanDateText(weekday: nat, day: nat, month: nat, year: nat, rest: string)
    requires weekday < 7 && day < 100 && 1 <= month <= 12 && year < 10000
    requires rest != [] && rest[0] == ' '
    ensures ScanDate(DateText(weekday, day, month, year) + rest) == Some((weekday, day, month, year, rest))
  {
    var r := DayMonthYearText(day, month, year) + rest;
    assert DateText(weekday, day, month, year) + rest == WeekdayAbbr[weekday] + ([','] + r);
    NameStep(WeekdayAbbr, WeekdayNames, weekday, [','] + r);
    LiteralStep(',', r);
    ScanDayMonthYearText(day, month, year, rest);
  }

  lemma {:induction false} ScanDayMonthYearText(day: nat, month: nat, year: nat, rest: string)
    requires day < 100 && 1 <= month <= 12 && year < 10000
    requires rest != [] && rest[0] == ' '
    ensures ScanDayMonthYear(DayMonthYearText(day, month, year) + rest) == Some((day, month, year, rest))
  {
    var r3 := Pad4(year) + rest;
    var r2 := MonthAbbr[month - 1] + (" " + r3);
    var r1 := Pad2(day) + (" " + r2);
    DayMonthYearSplit(day, month, year, rest);
    var a := MonthAbbr[month - 1];
    NameStep(MonthAbbr, MonthNames, month - 1, " " + r3);
    assert r2[0] == a[0];
    UpperNotSpace(r2[0]);
    SpacedDayStep(day, r2);
    SpacedMonthStep(month, r3);
    SpacedYearStep(year, rest);
    assert ScanDayMonthYear(" " + r1) == Some((day, month, year, rest));
  }

  lemma {:induction false} SpacedDayStep(day: nat, rest: string)
    requires day < 100 && rest != [] && !IsDigit(rest[0]) && !IsReSpace(rest[0])
    ensures SpacedNumber(" " + (Pad2(day) + (" " + rest)), 1, 2) == Some((day, " " + rest))
  {
    var r := Pad2(day) + (" " + rest);
    assert r[0] == Pad2(day)[0];
    SpaceStep(r);
    Pad2Step(day, " " + rest);
  }

  lemma {:induction false} SpacedMonthStep(month: nat, rest: string)
    requires 1 <= month <= 12
    ensures SpacedName(" " + (MonthAbbr[month - 1] + (" " + rest)), MonthNames) == Some((month - 1, " " + rest))
  {
    var a := MonthAbbr[month - 1];
    var r := a + (" " + rest);
    NameStep(MonthAbbr, MonthNames, month - 1, " " + rest);
    assert r[0] == a[0];
    UpperNotSpace(r[0]);
    SpaceStep(r);
  }

  lemma {:induction false} UpperNotSpace(c: char)
    requires 'A' <= c <= 'Z'
    ensures !IsReSpace(c) && !IsDigit(c)
  {
  }

  lemma {:induction false} SpacedYearStep(year: nat, rest: string)
    requires year < 10000 && rest != [] && rest[0] == ' '
    ensures SpacedNumber(" " + (Pad4(year) + rest), 4, 4) == Some((year, rest))
  {
    var r := Pad4(year) + rest;
    assert IsDigit(r[0]);
    SpaceStep(r);
    Pad4Step(year, rest);
  }

  lemma {:induction false} DayMonthYearSplit(day: nat, month: nat, year: nat, rest: string)
    requires day < 100 && 1 <= month <= 12 && year < 10000
    ensures DayMonthYearText(day, month, year) + rest
         == " " + (Pad2(day) + (" " + (MonthAbbr[month - 1] + (" " + (Pad4(year) + rest)))))
  {
  }

  lemma {:induction false} ScanClockText(hour: nat, minute: nat, second: nat, rest: string)
    requires hour < 100 && minute < 100 && second < 100
    requires rest != [] && rest[0] == ' '
    ensures ScanClock(ClockText(hour, minute, second) + rest) == Some((hour, minute, second, rest))
  {
    var r2 := Pad2(second) + rest;
    var r1 := Pad2(minute) + (":" + r2);
    var r0 := Pad2(hour) + (":" + r1);
    assert ClockText(hour, minute, second) + rest == " " + r0;
    SpaceStep(r0);
    Pad2Step(hour, ":" + r1);
    LiteralStep(':', r1);
    Pad2Step(minute, ":" + r2);
    LiteralStep(':', r2);
    Pad2Step(second, rest);
  }

  lemma {:induction false} ScanZoneText(sign: char, hours: nat, minutes: nat)
    requires sign == '+' || sign == '-'
    requires hours < 100 && minutes < 60
    ensures ScanZone(ZoneText(sign, hours, minutes))
         == Some(SignedOffset(sign, hours, minutes))
  {
    var z := [sign] + (Pad2(hours) + Pad2(minutes));
    SpaceStep(z);
    OffsetStep(sign, hours, minutes);
  }

  /** The offset `±HHMM` stands for, in microseconds. */
  function SignedOffset(sign: char, hours: nat, minutes: nat): int {
    var magnitude := (hours * 60 + minutes) * MicrosPerMinute;
    if sign == '-' then -magnitude else magnitude
  }

  /** `±HHMM` with minutes below 60 reads as that many minutes. */
  lemma {:induction false} OffsetStep(sign: char, hours: nat, minutes: nat)
    requires sign == '+' || sign == '-'
    requires hours < 100 && minutes < 60
    ensures ParseOffset([sign] + (Pad2(hours) + Pad2(minutes)))
         == Some(SignedOffset(sign, hours, minutes))
  {
    var z := [sign] + (Pad2(hours) + Pad2(minutes));
    assert z[1..3] == Pad2(hours) && z[3..] == Pad2(minutes);
    Pad2Value(hours);
    SexagesimalStep(minutes);
    assert (hours * 3600 + minutes * 60 + 0) * MicrosPerSecond + 0 == (hours * 60 + minutes) * MicrosPerMinute;
  }

  lemma {:induction false} SexagesimalStep(n: nat)
    requires n < 60
    ensures Sexagesimal(Pad2(n)) == Some((n, []))
  {
    var s := Pad2(n);
    assert s[0] == DigitChar(n / 10) && n / 10 <= 5;
    assert '0' <= s[0] <= '5' && IsDigit(s[1]);
    assert s[..2] == s && s[2..] == [];
    Pad2Value(n);
  }

  lemma {:induction false} NameStep(abbr: seq<string>, names: seq<string>, i: nat, rest: string)
    requires (abbr, names) == (WeekdayAbbr, WeekdayNames) || (abbr, names) == (MonthAbbr, MonthNames)
    requires i < |abbr|
    ensures Name(abbr[i] + rest, names) == Some((i, rest))
    ensures |abbr[i]| == 3 && 'A' <= abbr[i][0] <= 'Z'
  {
    var s := abbr[i] + rest;
    assert s[3..] == rest;
    assert [LowerAscii(s[0]), LowerAscii(s[1]), LowerAscii(s[2])] == names[i];
    DistinctIndexOf(names, i);
  }

  lemma {:induction false} DistinctIndexOf(names: seq<string>, i: nat)
    requires i < |names|
    requires forall j, k :: 0 <= j < k < |names| ==> names[j] != names[k]
    ensures IndexOf(names, names[i]) == Some(i)
  {
    if i > 0 {
      assert names[1..][i - 1] == names[i];
      DistinctIndexOf(names[1..], i - 1);
    }
  }

  lemma {:induction false} LiteralStep(c: char, rest: string)
    ensures Literal([c] + rest, c) == Some(rest)
  {
    assert ([c] + rest)[1..] == rest;
  }

  lemma {:induction false} SpaceStep(rest: string)
    requires rest != [] && !IsReSpace(rest[0])
    ensures Spaces(" " + rest) == Some(rest)
  {
    var s := " " + rest;
    assert s[..1] == " " && s[1] == rest[0];
    LeadAt(s, IsReSpace, 1);
    assert s[1..] == rest;
  }

  lemma {:induction false} Pad2Value(n: nat)
    requires n < 100
    ensures DecimalValue(Pad2(n)) == n
  {
    var s := Pad2(n);
    assert s[..1] == [s[0]] && s[..1][..0] == [];
    assert DecimalValue(s[..1]) == DigitValue(s[0]) == n / 10;
    assert DecimalValue(s) == 10 * DecimalValue(s[..1]) + DigitValue(s[1]);
  }

  lemma {:induction false} Pad2Step(n: nat, rest: string)
    requires n < 100 && rest != [] && !IsDigit(rest[0])
    ensures Number(Pad2(n) + rest, 1, 2) == Some((n, rest))
  {
    var s := Pad2(n) + rest;
    assert s[..2] == Pad2(n) && s[2..] == rest;
    PrefixDigits(s, 2);
    Pad2Value(n);
  }

  lemma {:induction false} Pad4Step(n: nat, rest: string)
    requires n < 10000 && rest != [] && !IsDigit(rest[0])
    ensures Number(Pad4(n) + rest, 4, 4) == Some((n, rest))
  {
    var s := Pad4(n) + rest;
    assert s[..4] == Pad4(n) && s[4..] == rest;
    PrefixDigits(s, 4);
    Pad4Value(n);
  }

  lemma {:induction false} Pad4Value(n: nat)
    requires n < 10000
    ensures DecimalValue(Pad4(n)) == n
  {
    var hi, lo := Pad2(n / 100), Pad2(n % 100);
    Pad2Value(n / 100);
    var s := hi + lo;
    var s3 := hi + [lo[0]];
    assert s[..3] == s3 && s[3] == lo[1];
    assert s3[..2] == hi && s3[2] == lo[0];
    assert DecimalValue(s3) == 10 * DecimalValue(hi) + DigitValue(lo[0]);
    assert DecimalValue(s) == 10 * DecimalValue(s3) + DigitValue(lo[1]);
    assert DigitValue(lo[0]) == (n % 100) / 10 && DigitValue(lo[1]) == (n % 100) % 10;
  }

  /** The digit run at the front of `s` is exactly `n` long. */
  lemma {:induction false} PrefixDigits(s: string, n: nat)
    requires n <= |s| && AllDigits(s[..n]) && (n < |s| ==> !IsDigit(s[n]))
    ensures Lead(s, IsDigit) == n
  {
    LeadAt(s, IsDigit, n);
  }

  // ---------------------------------------------------------------------
  // What the parser accepts besides the canonical spelling.

  /** The feed example: `Mon, 21 Dec 2020 05:22:00 +0000`. */
  lemma {:induction false} FeedExample()
    ensures ParsePubDate("Mon, 21 Dec 2020 05:22:00 +0000").Success?
    ensures ParsePubDate("Mon, 21 Dec 2020 05:22:00 +0000").value == Timestamp(0, 2020, 12, 21, 5, 22, 0, 0)
  {
    var t := Timestamp(0, 2020, 12, 21, 5, 22, 0, 0);
    assert Canonical(t);
    ParseFormat(t);
    FeedText(t);
  }

  lemma {:induction false} FeedText(t: Timestamp)
    requires t == Timestamp(0, 2020, 12, 21, 5, 22, 0, 0)
    ensures Canonical(t) && FormatPubDate(t) == "Mon, 21 Dec 2020 05:22:00 +0000"
  {
    assert OffsetMinutes(t) == 0;
    var date, clock, zone := DateText(0, 21, 12, 2020), ClockText(5, 22, 0), ZoneText('+', 0, 0);
    assert FormatPubDate(t) == date + (clock + zone);
    DecemberText();
    MorningClockText();
  }

  lemma {:induction false} MorningClockText()
    ensures ClockText(5, 22, 0) + ZoneText('+', 0, 0) == " 05:22:00 +0000"
  {
    ClockDigits();
  }

  lemma {:induction false} DateDigits(day: nat, year: nat)
    requires day == 21 && year == 2020
    ensures Pad2(day) == "21" && Pad4(year) == "2020"
  {
    assert Pad2(20) == "20";
  }

  lemma {:induction false} DecemberText()
    ensures DateText(0, 21, 12, 2020) == "Mon, 21 Dec 2020"
  {
    assert WeekdayAbbr[0] == "Mon";
    DecemberDayText();
  }

  lemma {:induction false} DecemberDayText()
    ensures DayMonthYearText(21, 12, 2020) == " 21 Dec 2020"
  {
    assert MonthAbbr[11] == "Dec";
    DateDigits(21, 2020);
  }

  lemma {:induction false} FebruaryText()
    ensures DateText(6, 30, 2, 2020) == "Sun, 30 Feb 2020"
  {
    assert WeekdayAbbr[6] == "Sun";
    FebruaryDayText();
  }

  lemma {:induction false} FebruaryDayText()
    ensures DayMonthYearText(30, 2, 2020) == " 30 Feb 2020"
  {
    assert MonthAbbr[1] == "Feb";
    assert Pad2(30) == "30";
    assert Pad4(2020) == "2020" by { assert Pad2(20) == "20"; }
  }

  lemma {:induction false} ClockDigits()
    ensures Pad2(5) == "05" && Pad2(22) == "22" && Pad2(0) == "00"
  {
  }

  lemma {:induction false} MidnightUtcText()
    ensures ClockText(0, 0, 0) == " 00:00:00" && ZoneText('+', 0, 0) == " +0000"
  {
    ClockDigits();
  }

  lemma {:induction false} MorningText()
    ensures ClockText(5, 22, 0) == " 05:22:00" && ZoneText('+', 24, 0) == " +2400"
  {
    ClockDigits();
    assert Pad2(24) == "24";
  }

  /** The weekday is read but not checked: a date with the wrong weekday
      parses to the same calendar day. */
  lemma {:induction false} WeekdayUnchecked(t: Timestamp, w: nat)
    requires Canonical(t) && w < 7
    ensures ParsePubDate(FormatPubDate(t.(weekday := w))).Success?
    ensures ParsePubDate(FormatPubDate(t.(weekday := w))).value == t.(weekday := w)
  {
    ParseFormat(t.(weekday := w));
  }

  /** A day the calendar lacks is refused even though every field has the
      right shape. */
  lemma {:induction false} NoFebruary30(text: string)
    requires text == "Sun, 30 Feb 2020 00:00:00 +0000"
    ensures ParsePubDate(text).Failure?
  {
    FebruaryLayout(text);
    ScanText(6, 30, 2, 2020, 0, 0, 0, '+', 0, 0);
    ParseScanned(text, Timestamp(6, 2020, 2, 30, 0, 0, 0, SignedOffset('+', 0, 0)));
  }

  lemma {:induction false} FebruaryLayout(text: string)
    requires text == "Sun, 30 Feb 2020 00:00:00 +0000"
    ensures text == DateText(6, 30, 2, 2020) + (ClockText(0, 0, 0) + ZoneText('+', 0, 0))
  {
    FebruaryText();
    MidnightUtcText();
  }

  /** An offset of a full day is well-formed but refused by `timezone`. */
  lemma {:induction false} FullDayOffsetRefused(text: string)
    requires text == "Mon, 21 Dec 2020 05:22:00 +2400"
    ensures ParsePubDate(text).Failure?
  {
    FullDayLayout(text);
    ScanText(0, 21, 12, 2020, 5, 22, 0, '+', 24, 0);
    ParseScanned(text, Timestamp(0, 2020, 12, 21, 5, 22, 0, SignedOffset('+', 24, 0)));
  }

  lemma {:induction false} FullDayLayout(text: string)
    requires text == "Mon, 21 Dec 2020 05:22:00 +2400"
    ensures text == DateText(0, 21, 12, 2020) + (ClockText(5, 22, 0) + ZoneText('+', 24, 0))
  {
    DecemberText();
    MorningText();
  }

  /** Any text in the canonical layout, valid or not, scans to its fields. */
  lemma {:induction false} ScanText(weekday: nat, day: nat, month: nat, year: nat, hour: nat, minute: nat, second: nat,
                 sign: char, hours: nat, minutes: nat)
    requires weekday < 7 && day < 100 && 1 <= month <= 12 && year < 10000
    requires hour < 100 && minute < 100 && second < 100
    requires (sign == '+' || sign == '-') && hours < 100 && minutes < 60
    ensures Scan(DateText(weekday, day, month, year) + (ClockText(hour, minute, second) + ZoneText(sign, hours, minutes)))
         == Some(Timestamp(weekday, year, month, day, hour, minute, second, SignedOffset(sign, hours, minutes)))
  {
    var zone := ZoneText(sign, hours, minutes);
    ScanDateText(weekday, day, month, year, ClockText(hour, minute, second) + zone);
    ScanClockText(hour, minute, second, zone);
    ScanZoneText(sign, hours, minutes);
  }

  // ---------------------------------------------------------------------
  // The layout a parsed text has, stated piece by piece.

  /** A run of whitespace, as `\s+` matches it. */
  predicate Blank(p: string) {
    |p| >= 1 && forall i :: 0 <= i < |p| ==> IsReSpace(p[i])
  }

  /** `lo` to `hi` ASCII digits worth `v`. */
  predicate Digits(p: string, lo: nat, hi: nat, v: nat) {
    lo <= |p| <= hi && AllDigits(p) && DecimalValue(p) == v
  }

  /** Three letters that spell the lower-case `name` in any ASCII case. */
  predicate NameSpelled(p: string, name: string) {
    |p| == 3 && [LowerAscii(p[0]), LowerAscii(p[1]), LowerAscii(p[2])] == name
  }

  /** A text cut into the pieces of `"%a, %d %b %Y %H:%M:%S %z"`: each
      directive's text, the literal commas and colons, and the whitespace
      the format's spaces match. */
  datatype Pieces = Pieces(
    weekday: string, comma: string, blank1: string, day: string,
    blank2: string, month: string, blank3: string, year: string,
    blank4: string, hour: string, colon1: string, minute: string,
    colon2: string, second: string, blank5: string, zone: string)
  {
    /** The pieces written one after the other. */
    function Text(): string {
      weekday + (comma + (blank1 + (day + (blank2 + (month + (blank3 + (year
        + (blank4 + (hour + (colon1 + (minute + (colon2 + (second + (blank5 + zone))))))))))))))
    }

    /** Each piece is what its directive matches with the fields of `t`,
        the offset ending the text. */
    predicate Layout(t: Timestamp) {
      && t.weekday < 7 && 1 <= t.month <= 12
      && NameSpelled(weekday, WeekdayNames[t.weekday]) && comma == ","
      && Blank(blank1) && Digits(day, 1, 2, t.day)
      && Blank(blank2) && NameSpelled(month, MonthNames[t.month - 1])
      && Blank(blank3) && Digits(year, 4, 4, t.year)
      && Blank(blank4) && Digits(hour, 1, 2, t.hour) && colon1 == ":"
      && Digits(minute, 1, 2, t.minute) && colon2 == ":" && Digits(second, 1, 2, t.second)
      && Blank(blank5) && ParseOffset(zone) == Some(t.offset)
    }
  }

  /** `text` is written in the layout with the fields of `t`, and holds
      nothing before or after it. */
  ghost predicate Spells(text: string, t: Timestamp) {
    exists p: Pieces :: text == p.Text() && p.Layout(t)
  }

  /** A parsed text is in the layout, with the fields it was parsed to:
      whatever the layout does not spell (a named zone such as `GMT`, data
      after the offset, a missing comma) is refused. */
  lemma {:induction false} ParseSpells(text: string, t: Timestamp)
    requires ParsePubDate(text) == Success(t)
    ensures Spells(text, t)
  {
    var r1, r2 := ScanSplit(text, t);
    var w, c, b1, d, b2, m, b3, y := DatePieces(text, t.weekday, t.day, t.month, t.year, r1);
    var b4, h, c1, mi, c2, sec := ClockPieces(r1, t.hour, t.minute, t.second, r2);
    var b5, z := ZonePieces(r2, t.offset);
    var p := Pieces(w, c, b1, d, b2, m, b3, y, b4, h, c1, mi, c2, sec, b5, z);
    assert text == p.Text();
    assert p.Layout(t);
  }

  /** The three parts of the format a scanned text divides into. */
  lemma {:induction false} ScanSplit(text: string, t: Timestamp) returns (r1: string, r2: string)
    requires ParsePubDate(text) == Success(t)
    ensures ScanDate(text) == Some((t.weekday, t.day, t.month, t.year, r1))
    ensures ScanClock(r1) == Some((t.hour, t.minute, t.second, r2))
    ensures ScanZone(r2) == Some(t.offset)
  {
    var date := ScanDate(text).value;
    var clock := ScanClock(date.4).value;
    r1, r2 := date.4, clock.3;
  }

  lemma {:induction false} DatePieces(s: string, weekday: nat, day: nat, month: nat, year: nat, rest: string)
    returns (w: string, c: string, b1: string, d: string, b2: string, m: string, b3: string, y: string)
    requires ScanDate(s) == Some((weekday, day, month, year, rest))
    ensures s == w + (c + (b1 + (d + (b2 + (m + (b3 + (y + rest)))))))
    ensures weekday < 7 && NameSpelled(w, WeekdayNames[weekday]) && c == ","
    ensures Blank(b1) && Digits(d, 1, 2, day)
    ensures 1 <= month <= 12 && Blank(b2) && NameSpelled(m, MonthNames[month - 1])
    ensures Blank(b3) && Digits(y, 4, 4, year)
  {
    var name := Name(s, WeekdayNames).value;
    var r := Literal(name.1, ',').value;
    w := NamePiece(s, WeekdayNames, name.0, name.1);
    c := ",";
    assert name.1 == c + r by { assert name.1[1..] == r; }
    b1, d, b2, m, b3, y := DayMonthYearPieces(r, day, month, year, rest);
  }

  lemma {:induction false} DayMonthYearPieces(s: string, day: nat, month: nat, year: nat, rest: string)
    returns (b1: string, d: string, b2: string, m: string, b3: string, y: string)
    requires ScanDayMonthYear(s) == Some((day, month, year, rest))
    ensures s == b1 + (d + (b2 + (m + (b3 + (y + rest)))))
    ensures Blank(b1) && Digits(d, 1, 2, day)
    ensures 1 <= month <= 12 && Blank(b2) && NameSpelled(m, MonthNames[month - 1])
    ensures Blank(b3) && Digits(y, 4, 4, year)
  {
    var dd := SpacedNumber(s, 1, 2).value;
    var mm := SpacedName(dd.1, MonthNames).value;
    var yy := SpacedNumber(mm.1, 4, 4).value;
    b1, d := SpacedNumberPiece(s, 1, 2, dd.0, dd.1);
    b2, m := SpacedNamePiece(dd.1, MonthNames, mm.0, mm.1);
    b3, y := SpacedNumberPiece(mm.1, 4, 4, yy.0, yy.1);
  }

  lemma {:induction false} ClockPieces(s: string, hour: nat, minute: nat, second: nat, rest: string)
    returns (b: string, h: string, c1: string, m: string, c2: string, sec: string)
    requires ScanClock(s) == Some((hour, minute, second, rest))
    ensures s == b + (h + (c1 + (m + (c2 + (sec + rest)))))
    ensures Blank(b) && Digits(h, 1, 2, hour) && c1 == ":"
    ensures Digits(m, 1, 2, minute) && c2 == ":" && Digits(sec, 1, 2, second)
  {
    var r0 := Spaces(s).value;
    var hh := Number(r0, 1, 2).value;
    var r1 := Literal(hh.1, ':').value;
    var mm := Number(r1, 1, 2).value;
    b, h := SpacedNumberPiece(s, 1, 2, hh.0, hh.1);
    c1, m := ColonNumberPiece(hh.1, mm.0, mm.1);
    c2, sec := ColonNumberPiece(mm.1, second, rest);
  }

  /** `:` followed by a one- or two-digit number. */
  lemma {:induction false} ColonNumberPiece(s: string, v: nat, rest: string) returns (c: string, d: string)
    requires Literal(s, ':').Some? && Number(Literal(s, ':').value, 1, 2) == Some((v, rest))
    ensures s == c + (d + rest) && c == ":" && Digits(d, 1, 2, v)
  {
    var r := Literal(s, ':').value;
    c := ":";
    assert s == c + r by { assert s[1..] == r; }
    d := NumberPiece(r, 1, 2, v, rest);
  }

  lemma {:induction false} ZonePieces(s: string, offset: int) returns (b: string, z: string)
    requires ScanZone(s) == Some(offset)
    ensures s == b + z && Blank(b) && ParseOffset(z) == Some(offset)
  {
    z := Spaces(s).value;
    b := SpacesPiece(s, z);
  }

  /** What `\s+` consumed. */
  lemma {:induction false} SpacesPiece(s: string, rest: string) returns (b: string)
    requires Spaces(s) == Some(rest)
    ensures s == b + rest && Blank(b)
  {
    var n := Lead(s, IsReSpace);
    b := s[..n];
    assert s == b + s[n..];
  }

  /** What a numeric directive consumed. */
  lemma {:induction false} NumberPiece(s: string, lo: nat, hi: nat, v: nat, rest: string) returns (d: string)
    requires Number(s, lo, hi) == Some((v, rest))
    ensures s == d + rest && Digits(d, lo, hi, v)
  {
    var n := Lead(s, IsDigit);
    d := s[..n];
    assert s == d + s[n..];
  }

  /** What a name directive consumed: three letters spelling the name. */
  lemma {:induction false} NamePiece(s: string, names: seq<string>, k: nat, rest: string) returns (w: string)
    requires Name(s, names) == Some((k, rest))
    ensures s == w + rest && k < |names| && NameSpelled(w, names[k])
  {
    w := s[..3];
    assert s == w + s[3..];
  }

  lemma {:induction false} SpacedNumberPiece(s: string, lo: nat, hi: nat, v: nat, rest: string)
    returns (b: string, d: string)
    requires SpacedNumber(s, lo, hi) == Some((v, rest))
    ensures s == b + (d + rest) && Blank(b) && Digits(d, lo, hi, v)
  {
    var r := Spaces(s).value;
    b := SpacesPiece(s, r);
    d := NumberPiece(r, lo, hi, v, rest);
  }

  lemma {:induction false} SpacedNamePiece(s: string, names: seq<string>, k: nat, rest: string)
    returns (b: string, w: string)
    requires SpacedName(s, names) == Some((k, rest))
    ensures s == b + (w + rest) && Blank(b) && k < |names| && NameSpelled(w, names[k])
  {
    var r := Spaces(s).value;
    b := SpacesPiece(s, r);
    w := NamePiece(r, names, k, rest);
  }

  /** The converse: a text in the layout whose fields form a valid
      date-time parses to exactly those fields. */
  lemma {:induction false} SpelledParses(p: Pieces, t: Timestamp)
    requires p.Layout(t) && Valid(t)
    ensures ParsePubDate(p.Text()) == Success(t)
  {
    var zoneText := p.blank5 + p.zone;
    var clockText := p.blank4 + (p.hour + (p.colon1 + (p.minute + (p.colon2 + (p.second + zoneText)))));
    assert zoneText[0] == p.blank5[0];
    assert ScanZone(zoneText) == Some(t.offset) by {
      OffsetShape(p.zone);
      BlankStep(p.blank5, p.zone);
    }
    ClockReads(p.blank4, p.hour, p.minute, p.second, t, zoneText);
    DateReads(p, t, clockText);
    assert Scan(p.Text()) == Some(t);
  }

  /** A text parses to `t` exactly when it spells `t` and `t` is valid. */
  lemma {:induction false} ParsePubDateSpells(text: string, t: Timestamp)
    ensures ParsePubDate(text) == Success(t) <==> Spells(text, t) && Valid(t)
  {
    if ParsePubDate(text) == Success(t) {
      ParseSpells(text, t);
    }
    if Spells(text, t) && Valid(t) {
      var p: Pieces :| text == p.Text() && p.Layout(t);
      SpelledParses(p, t);
    }
  }

  lemma {:induction false} DateReads(p: Pieces, t: Timestamp, rest: string)
    requires p.Layout(t) && rest == p.blank4 + (p.hour + (p.colon1 + (p.minute + (p.colon2 + (p.second + (p.blank5 + p.zone))))))
    ensures ScanDate(p.Text()) == Some((t.weekday, t.day, t.month, t.year, rest))
  {
    var r3 := p.blank3 + (p.year + rest);
    var r2 := p.blank2 + (p.month + r3);
    var r1 := p.blank1 + (p.day + r2);
    assert rest[0] == p.blank4[0];
    SpacedNumberStep(p.blank3, p.year, 4, 4, t.year, rest);
    assert !IsReSpace(p.month[0]) by { MonthInitial(t.month - 1, p.month); }
    assert SpacedName(r2, MonthNames) == Some((t.month - 1, r3)) by {
      BlankStep(p.blank2, p.month + r3);
      SpelledNameStep(p.month, MonthNames, t.month - 1, r3);
    }
    assert r2[0] == p.blank2[0];
    SpacedNumberStep(p.blank1, p.day, 1, 2, t.day, r2);
    assert ScanDayMonthYear(r1) == Some((t.day, t.month, t.year, rest));
    SpelledNameStep(p.weekday, WeekdayNames, t.weekday, "," + r1);
    LiteralStep(',', r1);
  }

  lemma {:induction false} ClockReads(b: string, h: string, m: string, sec: string, t: Timestamp, rest: string)
    requires Blank(b) && Digits(h, 1, 2, t.hour) && Digits(m, 1, 2, t.minute) && Digits(sec, 1, 2, t.second)
    requires rest != [] && IsReSpace(rest[0])
    ensures ScanClock(b + (h + (":" + (m + (":" + (sec + rest)))))) == Some((t.hour, t.minute, t.second, rest))
  {
    var r1 := m + (":" + (sec + rest));
    var r0 := h + (":" + r1);
    assert Spaces(b + r0) == Some(r0) by {
      assert r0[0] == h[0];
      BlankStep(b, r0);
    }
    assert Number(r0, 1, 2) == Some((t.hour, ":" + r1)) by {
      DigitsStep(h, 1, 2, t.hour, ":" + r1);
    }
    ColonDigitsStep(m, t.minute, ":" + (sec + rest));
    ColonDigitsStep(sec, t.second, rest);
  }

  /** `:` and a one- or two-digit number. */
  lemma {:induction false} ColonDigitsStep(d: string, v: nat, rest: string)
    requires Digits(d, 1, 2, v) && rest != [] && !IsDigit(rest[0])
    ensures Literal(":" + (d + rest), ':') == Some(d + rest)
    ensures Number(d + rest, 1, 2) == Some((v, rest))
  {
    LiteralStep(':', d + rest);
    DigitsStep(d, 1, 2, v, rest);
  }

  lemma {:induction false} SpacedNumberStep(b: string, d: string, lo: nat, hi: nat, v: nat, rest: string)
    requires lo >= 1 && Blank(b) && Digits(d, lo, hi, v) && rest != [] && IsReSpace(rest[0])
    ensures SpacedNumber(b + (d + rest), lo, hi) == Some((v, rest))
  {
    assert (d + rest)[0] == d[0];
    BlankStep(b, d + rest);
    DigitsStep(d, lo, hi, v, rest);
  }

  /** `\s+` consumes a whole blank run. */
  lemma {:induction false} BlankStep(b: string, rest: string)
    requires Blank(b) && rest != [] && !IsReSpace(rest[0])
    ensures Spaces(b + rest) == Some(rest)
  {
    var s := b + rest;
    assert s[..|b|] == b && s[|b|] == rest[0] && s[|b|..] == rest;
    LeadAt(s, IsReSpace, |b|);
  }

  /** A numeric directive consumes a whole digit run. */
  lemma {:induction false} DigitsStep(d: string, lo: nat, hi: nat, v: nat, rest: string)
    requires Digits(d, lo, hi, v) && rest != [] && !IsDigit(rest[0])
    ensures Number(d + rest, lo, hi) == Some((v, rest))
  {
    var s := d + rest;
    assert s[..|d|] == d && s[|d|] == rest[0] && s[|d|..] == rest;
    PrefixDigits(s, |d|);
  }

  /** A name in any ASCII case reads as its position. */
  lemma {:induction false} SpelledNameStep(w: string, names: seq<string>, k: nat, rest: string)
    requires names == WeekdayNames || names == MonthNames
    requires k < |names| && NameSpelled(w, names[k])
    ensures Name(w + rest, names) == Some((k, rest))
  {
    var s := w + rest;
    assert s[0] == w[0] && s[1] == w[1] && s[2] == w[2] && s[3..] == rest;
    DistinctIndexOf(names, k);
  }

  /** A month name starts with a letter, never with whitespace. */
  lemma {:induction false} MonthInitial(k: nat, m: string)
    requires k < 12 && NameSpelled(m, MonthNames[k])
    ensures !IsReSpace(m[0])
  {
    assert 'a' <= MonthNames[k][0] <= 'z' by {
      if k < 6 {
        assert k == 0 || k == 1 || k == 2 || k == 3 || k == 4 || k == 5;
      } else {
        assert k == 6 || k == 7 || k == 8 || k == 9 || k == 10 || k == 11;
      }
    }
  }

  /** What `%z` reads is `Z`, or starts with a sign and ends with a digit. */
  lemma {:induction false} OffsetShape(z: string)
    requires ParseOffset(z).Some?
    ensures z == "Z" || (|z| >= 5 && (z[0] == '+' || z[0] == '-') && IsDigit(z[|z| - 1]))
  {
    if z != "Z" {
      var colon := |z| > 3 && z[3] == ':';
      var rest := if colon then z[4..] else z[3..];
      var minutes := Sexagesimal(rest).value;
      assert minutes.1 == rest[2..];
      OffsetSecondsEnd(minutes.1, colon);
      if minutes.1 == [] {
        assert z[|z| - 1] == rest[1];
      } else {
        assert z[|z| - 1] == minutes.1[|minutes.1| - 1];
      }
    }
  }

  lemma {:induction false} OffsetSecondsEnd(s: string, colon: bool)
    requires OffsetSeconds(s, colon).Some?
    ensures s == [] || IsDigit(s[|s| - 1])
  {
    if s != [] {
      var r := if s[0] == ':' then s[1..] else s;
      var sec := Sexagesimal(r).value;
      if sec.1 == [] {
        assert s[|s| - 1] == r[1];
      } else {
        assert sec.1 == r[2..] && AllDigits(sec.1[1..]);
        assert s[|s| - 1] == sec.1[1..][|sec.1| - 2];
      }
    }
  }

  /** The pieces end with the offset. */
  lemma {:induction false} TextEnd(p: Pieces)
    requires p.zone != []
    ensures |p.Text()| >= 1 && p.Text()[|p.Text()| - 1] == p.zone[|p.zone| - 1]
  {
  }

  /** A parsed text ends with a digit of the offset or with `Z`. */
  lemma {:induction false} ParsedEnd(text: string)
    requires ParsePubDate(text).Success?
    ensures text != [] && (IsDigit(text[|text| - 1]) || text[|text| - 1] == 'Z')
  {
    ParseSpells(text, ParsePubDate(text).value);
    SpelledEnd(text, ParsePubDate(text).value);
  }

  lemma {:induction false} SpelledEnd(text: string, t: Timestamp)
    requires Spells(text, t)
    ensures text != [] && (IsDigit(text[|text| - 1]) || text[|text| - 1] == 'Z')
  {
    var p: Pieces :| text == p.Text() && p.Layout(t);
    assert ParseOffset(p.zone).Some? && text == p.Text();
    OffsetShape(p.zone);
    TextEnd(p);
  }

  /** A text ending in anything but a digit or `Z` is refused: a named zone
      (`GMT`, `UTC`, `EST`), or anything written after the offset that does
      not end in a digit. */
  lemma {:induction false} UnzonedEndRefused(text: string)
    requires text == [] || (!IsDigit(text[|text| - 1]) && text[|text| - 1] != 'Z')
    ensures ParsePubDate(text) == Failure(ValueError(text))
  {
    if ParsePubDate(text).Success? {
      ParsedEnd(text);
    }
  }

  /** `%z` refuses the zone names RSS feeds often carry. */
  lemma {:induction false} NamedZoneRefused()
    ensures ParsePubDate("Mon, 21 Dec 2020 05:22:00 GMT").Failure?
    ensures ParsePubDate("Mon, 21 Dec 2020 05:22:00 UTC").Failure?
  {
    UnzonedEndRefused("Mon, 21 Dec 2020 05:22:00 GMT");
    UnzonedEndRefused("Mon, 21 Dec 2020 05:22:00 UTC");
  }

  /** Nothing may follow the offset that `%z` cannot take as its seconds:
      text after a canonical date that starts with whitespace, a letter or
      any character but `0`-`5` and `:` is refused. */
  lemma {:induction false} TrailingDataRefused(t: Timestamp, x: string)
    requires Canonical(t) && x != [] && !('0' <= x[0] <= '5') && x[0] != ':'
    ensures ParsePubDate(FormatPubDate(t) + x) == Failure(ValueError(FormatPubDate(t) + x))
  {
    var m := OffsetMinutes(t);
    var sign := if t.offset < 0 then '-' else '+';
    var zone := ZoneText(sign, m / 60, m % 60);
    var clock := ClockText(t.hour, t.minute, t.second);
    var date := DateText(t.weekday, t.day, t.month, t.year);
    assert FormatPubDate(t) + x == date + (clock + (zone + x));
    ScanDateText(t.weekday, t.day, t.month, t.year, clock + (zone + x));
    ScanClockText(t.hour, t.minute, t.second, zone + x);
    OffsetTrailing(sign, m / 60, m % 60, x);
  }

  lemma {:induction false} OffsetTrailing(sign: char, hours: nat, minutes: nat, x: string)
    requires (sign == '+' || sign == '-') && hours < 100 && minutes < 60
    requires x != [] && !('0' <= x[0] <= '5') && x[0] != ':'
    ensures ScanZone(ZoneText(sign, hours, minutes) + x) == None
  {
    var z := [sign] + (Pad2(hours) + Pad2(minutes)) + x;
    assert ZoneText(sign, hours, minutes) + x == " " + z;
    SpaceStep(z);
    assert z[1..3] == Pad2(hours) && z[3] == Pad2(minutes)[0] && z[3..] == Pad2(minutes) + x;
    var mm := Pad2(minutes) + x;
    assert mm[..2] == Pad2(minutes) && mm[2..] == x;
    assert OffsetSeconds(x, false) == None;
  }

  /** `%z` accepts the offset with or without a colon, to the same value. */
  lemma {:induction false} OffsetColonOptional(sign: char, hours: nat, minutes: nat)
    requires sign == '+' || sign == '-'
    requires hours < 100 && minutes < 60
    ensures ParseOffset([sign] + Pad2(hours) + ":" + Pad2(minutes))
         == ParseOffset([sign] + (Pad2(hours) + Pad2(minutes)))
  {
    var z := [sign] + Pad2(hours) + ":" + Pad2(minutes);
    assert z[1..3] == Pad2(hours) && z[3] == ':' && z[4..] == Pad2(minutes);
    OffsetStep(sign, hours, minutes);
    Pad2Value(hours);
    SexagesimalStep(minutes);
  }

  /** `Z` stands for UTC, but lower-case `z` is refused. */
  lemma {:induction false} ZuluOffset()
    ensures ParseOffset("Z") == Some(0)
    ensures ParseOffset("z") == None
  {
  }
}
