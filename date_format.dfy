/**
 * `format_date` (reverse_search.py, lines 8-16): an ISO 8601 timestamp,
 * with a trailing `Z` read as UTC, shown as `DD Mon YYYY`; an empty value
 * shows as `N/A`, and anything that does not parse is shown unchanged.
 * `datetime.fromisoformat` is a parameter; the rendering
 * (`strftime('%d %b %Y')` in the C locale) is written out, and a reader for
 * the rendered form shows that no information about the date is lost.
 */
module DateFormat {

  import opened Wrappers
  import opened Text
  import opened Json

  type Year = y: int | 1 <= y <= 9999 witness 1
  type Month = m: int | 1 <= m <= 12 witness 1
  type Day = d: int | 1 <= d <= 31 witness 1

  /** The calendar date of a parsed timestamp; the time of day plays no part in the rendering. */
  datatype Date = Date(year: Year, month: Month, day: Day)

  /** `%b` in the C locale. */
  const MonthAbbreviations: seq<string> :=
    ["Jan", "Feb", "Mar", "Apr", "May", "Jun", "Jul", "Aug", "Sep", "Oct", "Nov", "Dec"]

  /** `%d`: the day of the month as two digits. */
  function TwoDigits(n: nat): (r: string)
    requires n < 100
    ensures |r| == 2 && IsDigit(r[0]) && IsDigit(r[1])
    ensures DigitValue(r[0]) * 10 + DigitValue(r[1]) == n
  {
    [DigitChar(n / 10), DigitChar(n % 10)]
  }

  /** `dt.strftime('%d %b %Y')`. */
  function Render(d: Date): (r: string)
    ensures |r| >= 8 && r[2] == ' ' && r[6] == ' '
  {
    TwoDigits(d.day) + " " + MonthAbbreviations[d.month - 1] + " " + Decimal(d.year)
  }

  /** The month whose abbreviation is `name`, searching the table from index `i`. */
  function MonthNamed(name: string, i: nat): Option<Month>
    requires i <= 12
    decreases 12 - i
  {
    if i == 12 then None
    else if MonthAbbreviations[i] == name then Some(i + 1)
    else MonthNamed(name, i + 1)
  }

  /** Reads a `DD Mon YYYY` text back into the date it shows. */
  function ParseRendered(s: string): Option<Date>
  {
    if |s| < 8 || s[2] != ' ' || s[6] != ' ' || !IsDigit(s[0]) || !IsDigit(s[1]) then None
    else if exists i :: 7 <= i < |s| && !IsDigit(s[i]) then None
    else
      var day := DigitValue(s[0]) * 10 + DigitValue(s[1]);
      var year := DecimalValue(s[7..]);
      match MonthNamed(s[3..6], 0)
      case None => None
      case Some(m) => if 1 <= day <= 31 && 1 <= year <= 9999 then Some(Date(year, m, day)) else None
  }

  lemma {:induction false} MonthNamedFinds(m: Month, i: nat)
    requires i <= m - 1
    ensures MonthNamed(MonthAbbreviations[m - 1], i) == Some(m)
    decreases 12 - i
  {
    if i < m - 1 {
      assert MonthAbbreviations[i] != MonthAbbreviations[m - 1];
      MonthNamedFinds(m, i + 1);
    }
  }

  /** The rendered text determines the date: reading it back gives the same day, month and year. */
  lemma RenderRoundTrip(d: Date)
    ensures ParseRendered(Render(d)) == Some(d)
  {
    var s := Render(d);
    var name := MonthAbbreviations[d.month - 1];
    assert |name| == 3;
    assert s[..2] == TwoDigits(d.day);
    assert s[3..6] == name;
    assert s[7..] == Decimal(d.year);
    MonthNamedFinds(d.month, 0);
    DecimalRoundTrip(d.year);
  }

  /** `s.replace('Z', '+00:00')`. */
  function ReplaceZ(s: string): (r: string)
    ensures 'Z' !in r
    ensures 'Z' !in s ==> r == s
  {
    if s == [] then []
    else (if s[0] == 'Z' then "+00:00" else [s[0]]) + ReplaceZ(s[1..])
  }

  /** Replacing works character by character: the text of two parts is replaced part by part. */
  lemma {:induction false} ReplaceZConcat(a: string, b: string)
    ensures ReplaceZ(a + b) == ReplaceZ(a) + ReplaceZ(b)
    decreases |a|
  {
    if a == [] {
      assert a + b == b;
    } else {
      assert (a + b)[0] == a[0] && (a + b)[1..] == a[1..] + b;
      ReplaceZConcat(a[1..], b);
    }
  }

  /**
   * `format_date(value)`. `fromIsoFormat` stands for `datetime.fromisoformat`
   * (`None` where it raises). A value that is not a string makes `.replace`
   * raise, which the bare `except` turns into returning the value itself.
   */
  function FormatDate(v: Value, fromIsoFormat: string -> Option<Date>): (r: Value)
    ensures !Truthy(v) ==> r == Str("N/A")
    ensures Truthy(v) && !v.Str? ==> r == v
    ensures v.Str? && v.s != "" ==>
      match fromIsoFormat(ReplaceZ(v.s))
      case None => r == v
      case Some(d) => r == Str(Render(d)) && ParseRendered(r.s) == Some(d)
  {
    if !Truthy(v) then Str("N/A")
    else if !v.Str? then v
    else
      match fromIsoFormat(ReplaceZ(v.s))
      case None => v
      case Some(d) =>
        RenderRoundTrip(d);
        Str(Render(d))
  }

  lemma RenderExample()
    ensures Render(Date(2024, 1, 5)) == "05 Jan 2024"
  {
    assert TwoDigits(5) == "05";
    assert Decimal(2024) == "2024";
  }

  /** A single trailing `Z` is the only thing replaced when the text before it has none. */
  lemma {:induction false} ReplaceTrailingZ(a: string)
    requires 'Z' !in a
    ensures ReplaceZ(a + "Z") == a + "+00:00"
    decreases |a|
  {
    if a != [] {
      assert (a + "Z")[1..] == a[1..] + "Z";
      ReplaceTrailingZ(a[1..]);
      assert [a[0]] + a[1..] == a;
    }
  }

  /**
   * A UTC timestamp written with a trailing `Z` is read as the same instant
   * written with `+00:00`, and shown as the calendar date it parses to.
   */
  lemma FormatDateUtc(stamp: string, d: Date, fromIsoFormat: string -> Option<Date>)
    requires 'Z' !in stamp
    requires fromIsoFormat(stamp + "+00:00") == Some(d)
    ensures FormatDate(Str(stamp + "Z"), fromIsoFormat) == Str(Render(d))
  {
    ReplaceTrailingZ(stamp);
  }
}
