/**
 * The calendar tool the model can call: `calendar.monthcalendar(year, month)` (Monday-first
 * weeks, 0 for the days of neighbouring months) rendered as CSV with a weekday header and
 * "NA" for those days.
 */
module MonthCalendar {
  import opened Wrappers
  import opened Text
  import opened Gregorian
  import Seqs

  const Header: string := "Mon,Tue,Wed,Thu,Fri,Sat,Sun\n"

  /** The blank days before the first: its weekday, as weeks start on Monday. */
  function Leading(year: int, month: int): (b: nat)
    requires 1 <= month <= 12
    ensures b < 7
  {
    Weekday(year, month, 1)
  }

  /** The blank days after the last, filling its week. */
  function Trailing(year: int, month: int): (a: nat)
    requires 1 <= month <= 12
    ensures a < 7 && (Leading(year, month) + DaysInMonth(year, month) + a) % 7 == 0
  {
    (0 - Leading(year, month) - DaysInMonth(year, month)) % 7
  }

  /** `itermonthdays(year, month)`: the blanks as 0, then 1..n, then the blanks as 0. */
  function MonthDays(year: int, month: int): (ds: seq<nat>)
    requires 1 <= month <= 12
    ensures |ds| == Leading(year, month) + DaysInMonth(year, month) + Trailing(year, month)
    ensures |ds| % 7 == 0
  {
    var b := Leading(year, month);
    var n := DaysInMonth(year, month);
    seq(b + n + Trailing(year, month), i => if b <= i < b + n then i - b + 1 else 0)
  }

  /** The flat day list cut into weeks of seven. */
  function Weeks(ds: seq<nat>): (ws: seq<seq<nat>>)
    requires |ds| % 7 == 0
    ensures |ws| == |ds| / 7
    ensures forall i :: 0 <= i < |ws| ==> |ws[i]| == 7
    ensures forall i, j :: 0 <= i < |ws| && 0 <= j < 7 ==> ws[i][j] == ds[7 * i + j]
  {
    seq(|ds| / 7, i requires 0 <= i < |ds| / 7 => ds[7 * i..7 * i + 7])
  }

  /**
   * `calendar.monthcalendar(year, month)`. For a month outside 1..12, `monthrange` raises
   * IllegalMonthError, a ValueError.
   */
  function MonthGrid(year: int, month: int): (r: Result<seq<seq<nat>>>)
    ensures !(1 <= month <= 12) ==>
              r == Err(ValueError("bad month number " + IntToString(month) + "; must be 1-12"))
    ensures 1 <= month <= 12 ==> r.Ok?
  {
    if 1 <= month <= 12 then Ok(Weeks(MonthDays(year, month)))
    else Err(ValueError("bad month number " + IntToString(month) + "; must be 1-12"))
  }

  /** `str(day) if day != 0 else "NA"` for each day of a week. */
  function Cells(week: seq<nat>): (cs: seq<string>)
    ensures |cs| == |week|
    ensures forall j :: 0 <= j < |week| ==> cs[j] == (if week[j] != 0 then NatToString(week[j]) else "NA")
  {
    seq(|week|, j requires 0 <= j < |week| => if week[j] != 0 then NatToString(week[j]) else "NA")
  }

  function WeekLine(week: seq<nat>): string {
    Join(",", Cells(week)) + "\n"
  }

  function WeekLines(ws: seq<seq<nat>>): (ls: seq<string>)
    ensures |ls| == |ws| && forall i :: 0 <= i < |ws| ==> ls[i] == WeekLine(ws[i])
  {
    seq(|ws|, i requires 0 <= i < |ws| => WeekLine(ws[i]))
  }

  /** The loop over the weeks, appending one CSV line each. */
  method RenderWeeks(weeks: seq<seq<nat>>) returns (output: string)
    ensures output == Header + Concat(WeekLines(weeks))
  {
    output := Header;
    for i := 0 to |weeks|
      invariant output == Header + Concat(WeekLines(weeks)[..i])
    {
      var ls := WeekLines(weeks);
      Seqs.TakeStep(ls, i);
      ConcatAppend(ls[..i], ls[i]);
      Seqs.Assoc(Header, Concat(ls[..i]), ls[i]);
      output := output + (Join(",", Cells(weeks[i])) + "\n");
    }
    assert WeekLines(weeks)[..|weeks|] == WeekLines(weeks);
  }

  /** What `get_calendar_for_any_month(month, year)` returns, or the error it raises. */
  function CalendarText(month: int, year: int): Result<string> {
    match MonthGrid(year, month)
    case Err(e) => Err(e)
    case Ok(weeks) => Ok(Header + Concat(WeekLines(weeks)))
  }

  /** `get_calendar_for_any_month(month, year)` */
  method GetCalendarForAnyMonth(month: int, year: int) returns (r: Result<string>)
    ensures r == CalendarText(month, year)
  {
    var cal := MonthGrid(year, month);
    if cal.Err? {
      return Err(cal.error);
    }
    var output := RenderWeeks(cal.value);
    return Ok(output);
  }

  // ---------------------------------------------------------------------------------------
  // Properties of the grid

  /** A month spans four to six weeks. */
  lemma WeekCount(year: int, month: int)
    requires 1 <= month <= 12
    ensures 4 <= |Weeks(MonthDays(year, month))| <= 6
  {
  }

  /**
   * Read in order, the weeks hold the blanks of the first week, then each day 1..n once and
   * ascending, then the blanks of the last week.
   */
  lemma DaysInOrder(year: int, month: int, i: nat, j: nat)
    requires 1 <= month <= 12
    requires i < |Weeks(MonthDays(year, month))| && j < 7
    ensures var b := Leading(year, month);
            var n := DaysInMonth(year, month);
            var d := Weeks(MonthDays(year, month))[i][j];
            (d == 0 <==> 7 * i + j < b || b + n <= 7 * i + j)
            && (d != 0 ==> d == 7 * i + j - b + 1 && 1 <= d <= n)
  {
  }

  /** A blank can only sit before day 1 in the first week or after the last day in the last week. */
  lemma BlanksAtTheEnds(year: int, month: int, i: nat, j: nat)
    requires 1 <= month <= 12
    requires i < |Weeks(MonthDays(year, month))| && j < 7
    requires Weeks(MonthDays(year, month))[i][j] == 0
    ensures (i == 0 && j < Leading(year, month))
            || (i == |Weeks(MonthDays(year, month))| - 1 && j >= 7 - Trailing(year, month))
  {
    DaysInOrder(year, month, i, j);
  }

  lemma ModAdd(x: int, y: int)
    ensures (x % 7 + y) % 7 == (x + y) % 7
  {
    var q := x / 7;
    assert x == 7 * q + x % 7;
    assert x + y == 7 * q + (x % 7 + y);
  }

  lemma DivMod(k: nat)
    ensures 7 * (k / 7) + k % 7 == k
  {
  }

  /** Every day of the month appears, in the column of its weekday. */
  lemma DayInItsColumn(year: int, month: int, d: nat)
    requires 1 <= month <= 12 && 1 <= d <= DaysInMonth(year, month)
    ensures var k := Leading(year, month) + d - 1;
            k / 7 < |Weeks(MonthDays(year, month))|
            && Weeks(MonthDays(year, month))[k / 7][k % 7] == d
            && k % 7 == Weekday(year, month, d)
  {
    var b := Leading(year, month);
    var k := b + d - 1;
    var x := DaysBeforeYear(year) + DaysBeforeMonth(year, month);
    assert b == x % 7;
    ModAdd(x, d - 1);
    DivMod(k);
    var ds := MonthDays(year, month);
    assert k < |ds|;
    assert ds[k] == d;
  }

  // ---------------------------------------------------------------------------------------
  // Properties of the CSV text

  /** A cell is "NA" or a decimal number; either way it has no comma and no newline. */
  lemma CellShape(week: seq<nat>, j: nat)
    requires j < |week|
    ensures Cells(week)[j] == "NA" || (AllDigits(Cells(week)[j]) && Cells(week)[j] != [])
    ensures forall c :: c in Cells(week)[j] ==> c != ',' && c != '\n'
  {
    var cell := Cells(week)[j];
    if week[j] != 0 {
      forall c | c in cell ensures c != ',' && c != '\n' {
        var m :| 0 <= m < |cell| && cell[m] == c;
        assert IsDigit(cell[m]);
      }
    }
  }

  /** Each week gives one line of seven comma-separated fields, ending in a newline. */
  lemma WeekLineShape(year: int, month: int, i: nat)
    requires 1 <= month <= 12 && i < |Weeks(MonthDays(year, month))|
    ensures var week := Weeks(MonthDays(year, month))[i];
            WeekLine(week) == Join(",", Cells(week)) + "\n" && |Cells(week)| == 7
            && forall j :: 0 <= j < 7 ==>
                 Cells(week)[j] == (if week[j] == 0 then "NA" else NatToString(week[j]))
  {
  }

  /**
   * A month outside 1..12 raises the `ValueError` of `monthrange`; otherwise the text is the
   * header followed by one line per week, and it ends with a newline.
   */
  lemma EndsLikeLast(h: string, a: string, last: string)
    requires last != []
    ensures (h + (a + last))[..|h|] == h && (h + (a + last))[|h + (a + last)| - 1] == last[|last| - 1]
  {
  }

  lemma CalendarTextShape(year: int, month: int)
    ensures !(1 <= month <= 12) ==>
              CalendarText(month, year)
              == Err(ValueError("bad month number " + IntToString(month) + "; must be 1-12"))
    ensures 1 <= month <= 12 ==>
              CalendarText(month, year).Ok?
              && CalendarText(month, year).value == Header + Concat(WeekLines(MonthGrid(year, month).value))
              && CalendarText(month, year).value[..|Header|] == Header
              && CalendarText(month, year).value[|CalendarText(month, year).value| - 1] == '\n'
  {
    if 1 <= month <= 12 {
      var ls := WeekLines(MonthGrid(year, month).value);
      var last := ls[|ls| - 1];
      Seqs.LastSplit(ls);
      ConcatAppend(ls[..|ls| - 1], last);
      assert last[|last| - 1] == '\n';
      EndsLikeLast(Header, Concat(ls[..|ls| - 1]), last);
    }
  }
}
