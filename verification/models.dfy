/**
 * The `Memory` record shared by the stores and the pipeline, and its date-time helpers:
 * `validate_datetime` accepts exactly what `datetime.strptime(s.strip(), "%Y/%m/%d %I:%M %p")`
 * accepts, and `clean_datetime` strips.
 */
module Models {
  import opened Wrappers
  import opened Text
  import Gregorian

  /**
   * An identifier as the program handles it: a uuid string from the record store, or the
   * small integer the normaliser substitutes for it.
   */
  datatype Key = Str(s: string) | Int(i: int)

  datatype Memory = Memory(id: Key, content: string, createdAt: string)

  /** What a string accepted by the format "%Y/%m/%d %I:%M %p" denotes. */
  datatype DateTime = DateTime(year: nat, month: nat, day: nat, hour12: nat, minute: nat, pm: bool)

  /** The number of ASCII digits at the start of `s`. */
  function DigitRun(s: string): (n: nat)
    ensures n <= |s| && AllDigits(s[..n])
    ensures n < |s| ==> !IsDigit(s[n])
  {
    if s != [] && IsDigit(s[0]) then
      var n := 1 + DigitRun(s[1..]);
      assert s[..n] == [s[0]] + s[1..][..n - 1];
      n
    else 0
  }

  /** The number of whitespace characters at the start of `s`, as `\s+` consumes them. */
  function SpaceRun(s: string): (n: nat)
    ensures n <= |s| && AllSpace(s[..n])
    ensures n < |s| ==> !IsSpace(s[n])
  {
    if s != [] && IsSpace(s[0]) then
      var n := 1 + SpaceRun(s[1..]);
      assert s[..n] == [s[0]] + s[1..][..n - 1];
      n
    else 0
  }

  /**
   * A one- or two-digit field followed by the separator `sep` (which is not a digit): the
   * field's value and the rest after the separator, when the value lies in `lo..hi`. Every
   * directive of the format is of this shape once the separator is fixed: `%m` and `%I` are
   * `1[0-2]|0[1-9]|[1-9]` (values 1..12), `%d` without its leading-space form is
   * `3[01]|[12]\d|0[1-9]|[1-9]` (1..31) and `%M` is `[0-5]\d|\d` (0..59).
   */
  function Field(s: string, lo: nat, hi: nat): Option<(nat, string)>
  {
    var n := DigitRun(s);
    if 1 <= n <= 2 && lo <= DigitsValue(s[..n]) <= hi then Some((DigitsValue(s[..n]), s[n..]))
    else None
  }

  /** `%d`, including its last alternative ` [1-9]`: a space and one non-zero digit. */
  function DayField(s: string): Option<(nat, string)>
  {
    if s != [] && s[0] == ' ' then
      var t := s[1..];
      if DigitRun(t) == 1 && t[0] != '0' then Some((DigitsValue(t[..1]), t[1..])) else None
    else Field(s, 1, 31)
  }

  /** At least one whitespace character, all of which the pattern's `\s+` consumes. */
  function Spaces(s: string): Option<string>
  {
    var n := SpaceRun(s);
    if n >= 1 then Some(s[n..]) else None
  }

  /**
   * The match of strptime's pattern for "%Y/%m/%d %I:%M %p", which must use up the whole
   * string (otherwise "unconverted data remains"). Each space of the format becomes `\s+`,
   * `%Y` is four digits and `%p` is "am" or "pm" in any case. The stages below read the
   * fields left to right.
   */
  function ParseDateTime(s: string): Option<DateTime>
  {
    if DigitRun(s) != 4 || |s| < 5 || s[4] != '/' then None
    else ParseMonth(DigitsValue(s[..4]), s[5..])
  }

  function ParseMonth(year: nat, s: string): Option<DateTime>
  {
    match Field(s, 1, 12)
    case None => None
    case Some((month, r)) =>
      if r == [] || r[0] != '/' then None else ParseDay(year, month, r[1..])
  }

  function ParseDay(year: nat, month: nat, s: string): Option<DateTime>
  {
    match DayField(s)
    case None => None
    case Some((day, r)) =>
      match Spaces(r)
      case None => None
      case Some(r') => ParseHour(year, month, day, r')
  }

  function ParseHour(year: nat, month: nat, day: nat, s: string): Option<DateTime>
  {
    match Field(s, 1, 12)
    case None => None
    case Some((hour12, r)) =>
      if r == [] || r[0] != ':' then None else ParseMinute(year, month, day, hour12, r[1..])
  }

  function ParseMinute(year: nat, month: nat, day: nat, hour12: nat, s: string): Option<DateTime>
  {
    match Field(s, 0, 59)
    case None => None
    case Some((minute, r)) =>
      match Spaces(r)
      case None => None
      case Some(r') =>
        if Lower(r') == "am" then Some(DateTime(year, month, day, hour12, minute, false))
        else if Lower(r') == "pm" then Some(DateTime(year, month, day, hour12, minute, true))
        else None
  }

  /**
   * The date `datetime.date(year, month, day)` accepts: strptime builds it to compute the day
   * of the year and raises ValueError when it is out of range.
   */
  predicate ValidDate(year: int, month: int, day: int) {
    1 <= year && 1 <= month <= 12 && 1 <= day <= Gregorian.DaysInMonth(year, month)
  }

  /** `Memory.validate_datetime`: true exactly when strptime accepts the stripped string. */
  function ValidateDatetime(s: string): (ok: bool)
    ensures ok <==> ParseDateTime(Strip(s)).Some?
                    && ValidDate(ParseDateTime(Strip(s)).value.year,
                                 ParseDateTime(Strip(s)).value.month,
                                 ParseDateTime(Strip(s)).value.day)
  {
    match ParseDateTime(Strip(s))
    case None => false
    case Some(dt) => ValidDate(dt.year, dt.month, dt.day)
  }

  /** `Memory.clean_datetime` */
  function CleanDatetime(s: string): (r: string)
    ensures r == [] || (!IsSpace(r[0]) && !IsSpace(r[|r| - 1]))
    ensures exists i :: StrippedAt(s, r, i)
  {
    Strip(s)
  }

  lemma CleanDatetimeIdempotent(s: string)
    ensures CleanDatetime(CleanDatetime(s)) == CleanDatetime(s)
  {
    StripIdempotent(s);
  }

  /** Cleaning first never changes the verdict. */
  lemma ValidateAfterClean(s: string)
    ensures ValidateDatetime(CleanDatetime(s)) == ValidateDatetime(s)
  {
    StripIdempotent(s);
  }

  /** Two zero-padded digits. */
  function Pad2(n: nat): (r: string)
    requires n < 100
    ensures |r| == 2 && AllDigits(r) && DigitsValue(r) == n
  {
    var r := [DigitChar(n / 10), DigitChar(n % 10)];
    assert r[..1] == [DigitChar(n / 10)];
    assert r[..1][..0] == [];
    assert DigitsValue(r[..1]) == n / 10;
    assert n / 10 * 10 + n % 10 == n;
    r
  }

  /** Four zero-padded digits. */
  function Pad4(n: nat): (r: string)
    requires n < 10000
    ensures |r| == 4 && AllDigits(r) && DigitsValue(r) == n
  {
    var r := Pad2(n / 100) + Pad2(n % 100);
    assert r[..3] == Pad2(n / 100) + [r[2]];
    assert r[..2] == Pad2(n / 100);
    assert DigitsValue(r[..3]) == DigitsValue(Pad2(n / 100)) * 10 + (r[2] as int - '0' as int);
    r
  }

  /** A date-time within the ranges the format's fields can express. */
  predicate Expressible(dt: DateTime) {
    dt.year < 10000 && 1 <= dt.month <= 12 && 1 <= dt.day <= 31
    && 1 <= dt.hour12 <= 12 && dt.minute <= 59
  }

  /** The canonical rendering "YYYY/MM/DD HH:MM AM", built from its last field backwards. */
  function FormatDateTime(dt: DateTime): string
    requires Expressible(dt)
  {
    Pad4(dt.year) + ("/" + FormatMonth(dt))
  }

  function FormatMonth(dt: DateTime): string
    requires Expressible(dt)
  {
    Pad2(dt.month) + ("/" + FormatDay(dt))
  }

  function FormatDay(dt: DateTime): string
    requires Expressible(dt)
  {
    Pad2(dt.day) + (" " + FormatHour(dt))
  }

  function FormatHour(dt: DateTime): string
    requires Expressible(dt)
  {
    Pad2(dt.hour12) + (":" + FormatMinute(dt))
  }

  function FormatMinute(dt: DateTime): string
    requires Expressible(dt)
  {
    Pad2(dt.minute) + (" " + (if dt.pm then "PM" else "AM"))
  }

  lemma {:induction false} DigitRunPrefix(d: string, rest: string)
    requires AllDigits(d)
    requires rest == [] || !IsDigit(rest[0])
    ensures DigitRun(d + rest) == |d|
    decreases |d|
  {
    if d != [] {
      assert (d + rest)[1..] == d[1..] + rest;
      DigitRunPrefix(d[1..], rest);
    }
  }

  lemma FieldPad2(n: nat, rest: string, lo: nat, hi: nat)
    requires n < 100 && lo <= n <= hi
    requires rest == [] || !IsDigit(rest[0])
    ensures Field(Pad2(n) + rest, lo, hi) == Some((n, rest))
  {
    var s := Pad2(n) + rest;
    DigitRunPrefix(Pad2(n), rest);
    assert s[..2] == Pad2(n);
    assert s[2..] == rest;
  }

  lemma SpacesOne(rest: string)
    requires rest != [] && !IsSpace(rest[0])
    ensures Spaces(" " + rest) == Some(rest)
  {
    assert (" " + rest)[1..] == rest;
  }

  lemma ParseMinuteFormat(dt: DateTime)
    requires Expressible(dt)
    ensures ParseMinute(dt.year, dt.month, dt.day, dt.hour12, FormatMinute(dt)) == Some(dt)
  {
    var meridiem := if dt.pm then "PM" else "AM";
    FieldPad2(dt.minute, " " + meridiem, 0, 59);
    SpacesOne(meridiem);
    assert Lower(meridiem) == (if dt.pm then "pm" else "am");
  }

  lemma ParseHourFormat(dt: DateTime)
    requires Expressible(dt)
    ensures ParseHour(dt.year, dt.month, dt.day, FormatHour(dt)) == Some(dt)
  {
    FieldPad2(dt.hour12, ":" + FormatMinute(dt), 1, 12);
    assert (":" + FormatMinute(dt))[1..] == FormatMinute(dt);
    ParseMinuteFormat(dt);
  }

  lemma ParseDayFormat(dt: DateTime)
    requires Expressible(dt)
    ensures ParseDay(dt.year, dt.month, FormatDay(dt)) == Some(dt)
  {
    FieldPad2(dt.day, " " + FormatHour(dt), 1, 31);
    assert FormatDay(dt)[0] != ' ';
    assert FormatHour(dt)[0] == Pad2(dt.hour12)[0];
    SpacesOne(FormatHour(dt));
    ParseHourFormat(dt);
  }

  lemma ParseMonthFormat(dt: DateTime)
    requires Expressible(dt)
    ensures ParseMonth(dt.year, FormatMonth(dt)) == Some(dt)
  {
    FieldPad2(dt.month, "/" + FormatDay(dt), 1, 12);
    assert ("/" + FormatDay(dt))[1..] == FormatDay(dt);
    ParseDayFormat(dt);
  }

  /** The canonical rendering parses back to the same date-time. */
  lemma ParseFormat(dt: DateTime)
    requires Expressible(dt)
    ensures ParseDateTime(FormatDateTime(dt)) == Some(dt)
  {
    var s := FormatDateTime(dt);
    DigitRunPrefix(Pad4(dt.year), "/" + FormatMonth(dt));
    assert s[..4] == Pad4(dt.year);
    assert s[5..] == FormatMonth(dt);
    ParseMonthFormat(dt);
  }

  /** The canonical rendering starts with a digit and ends with 'M', so stripping keeps it. */
  lemma FormatStripped(dt: DateTime)
    requires Expressible(dt)
    ensures Strip(FormatDateTime(dt)) == FormatDateTime(dt)
  {
    var s := FormatDateTime(dt);
    assert IsDigit(s[0]);
    var mi, h, d, mo := FormatMinute(dt), FormatHour(dt), FormatDay(dt), FormatMonth(dt);
    assert mi[|mi| - 1] == 'M';
    assert h[|h| - 1] == mi[|mi| - 1];
    assert d[|d| - 1] == h[|h| - 1];
    assert mo[|mo| - 1] == d[|d| - 1];
    assert s[|s| - 1] == mo[|mo| - 1];
    StripUnchanged(s);
  }

  /**
   * The canonical rendering of an expressible date-time is accepted exactly when the date
   * exists in the proleptic Gregorian calendar and the year is at least 1.
   */
  lemma ValidateFormat(dt: DateTime)
    requires Expressible(dt)
    ensures ValidateDatetime(FormatDateTime(dt)) <==> ValidDate(dt.year, dt.month, dt.day)
  {
    FormatStripped(dt);
    ParseFormat(dt);
  }

  /** The 29th of February is accepted exactly in leap years. */
  lemma LeapDayVerdict(dt: DateTime)
    requires Expressible(dt) && 1 <= dt.year && dt.month == 2 && dt.day == 29
    ensures ValidateDatetime(FormatDateTime(dt)) <==> Gregorian.IsLeap(dt.year)
  {
    ValidateFormat(dt);
  }
}
