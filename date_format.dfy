/** `convertDate`: a caller-supplied `yyyy-MM-dd` date becomes the `yyMMdd`
    form the access key needs. A strictly well-formed date is parsed here;
    everything else is handed to `lenient`, which stands for what
    `SimpleDateFormat`'s lenient parser makes of it (a date, or a
    ParseException as None). */
module DateFormat {
  import opened Outcomes
  import Text

  type Month = m: int | 1 <= m <= 12 witness 1
  type DayOfMonth = d: int | 1 <= d <= 31 witness 1

  /** The calendar fields of a parsed `java.util.Date` in the default time zone. */
  datatype Date = Date(yearOfEra: nat, month: Month, day: DayOfMonth)

  predicate IsDigit(c: char) {
    '0' <= c <= '9'
  }

  function DigitValue(c: char): (d: nat)
    requires IsDigit(c)
    ensures d < 10
  {
    c as int - '0' as int
  }

  predicate DigitsAndDashes(s: string) {
    && |s| == 10
    && IsDigit(s[0]) && IsDigit(s[1]) && IsDigit(s[2]) && IsDigit(s[3])
    && s[4] == '-'
    && IsDigit(s[5]) && IsDigit(s[6])
    && s[7] == '-'
    && IsDigit(s[8]) && IsDigit(s[9])
  }

  function YearField(s: string): nat
    requires DigitsAndDashes(s)
  {
    1000 * DigitValue(s[0]) + 100 * DigitValue(s[1]) + 10 * DigitValue(s[2]) + DigitValue(s[3])
  }

  function MonthField(s: string): nat
    requires DigitsAndDashes(s)
  {
    10 * DigitValue(s[5]) + DigitValue(s[6])
  }

  function DayField(s: string): nat
    requires DigitsAndDashes(s)
  {
    10 * DigitValue(s[8]) + DigitValue(s[9])
  }

  predicate IsLeapYear(y: nat) {
    y % 4 == 0 && (y % 100 != 0 || y % 400 == 0)
  }

  function DaysInMonth(y: nat, m: Month): DayOfMonth {
    if m == 2 then (if IsLeapYear(y) then 29 else 28)
    else if m == 4 || m == 6 || m == 9 || m == 11 then 30
    else 31
  }

  /** A date the parser reads literally: four-digit year of the Gregorian
      calendar (from 1583, after the Julian cut-over), a real month and a day
      that month has. */
  predicate IsIsoDate(s: string) {
    && DigitsAndDashes(s)
    && 1583 <= YearField(s)
    && 1 <= MonthField(s) <= 12
    && 1 <= DayField(s) <= DaysInMonth(YearField(s), MonthField(s))
  }

  function ParseDate(s: string, lenient: string -> Option<Date>): Option<Date> {
    if IsIsoDate(s) then Some(Date(YearField(s), MonthField(s), DayField(s)))
    else lenient(s)
  }

  function TwoDigits(n: nat): (r: string)
    requires n < 100
    ensures |r| == 2 && IsDigit(r[0]) && IsDigit(r[1])
  {
    [Text.DigitChar(n / 10), Text.DigitChar(n % 10)]
  }

  /** `SimpleDateFormat("yyMMdd").format(date)`. */
  function FormatYyMmDd(d: Date): (r: string)
    ensures |r| == 6
    ensures forall i :: 0 <= i < 6 ==> IsDigit(r[i])
  {
    TwoDigits(d.yearOfEra % 100) + TwoDigits(d.month) + TwoDigits(d.day)
  }

  /** `convertDate(input)`: null stays null, a parse failure becomes null,
      and a parsed date becomes six digits, so a converted date is never the
      empty string. */
  function ConvertDate(input: Option<string>, lenient: string -> Option<Date>): (r: Option<string>)
    ensures input.None? ==> r.None?
    ensures input.Some? ==> (r.None? <==> ParseDate(input.value, lenient).None?)
    ensures r.Some? ==> |r.value| == 6 && forall i :: 0 <= i < 6 ==> IsDigit(r.value[i])
  {
    match input
    case None => None
    case Some(s) =>
      match ParseDate(s, lenient)
      case None => None
      case Some(d) => Some(FormatYyMmDd(d))
  }

  lemma DigitRoundTrip(c: char)
    requires IsDigit(c)
    ensures Text.DigitChar(DigitValue(c)) == c
  {
  }

  lemma TwoDigitsOf(a: char, b: char)
    requires IsDigit(a) && IsDigit(b)
    ensures TwoDigits(10 * DigitValue(a) + DigitValue(b)) == [a, b]
  {
    var n := 10 * DigitValue(a) + DigitValue(b);
    assert n / 10 == DigitValue(a) && n % 10 == DigitValue(b);
    DigitRoundTrip(a);
    DigitRoundTrip(b);
  }

  /** On a well-formed `yyyy-MM-dd` date the conversion keeps the last two
      digits of the year, then the month, then the day, whatever the lenient
      parser would have done. */
  lemma ConvertIsoDate(s: string, lenient: string -> Option<Date>)
    requires IsIsoDate(s)
    ensures ConvertDate(Some(s), lenient) == Some(s[2..4] + s[5..7] + s[8..10])
  {
    var y := YearField(s);
    assert y % 100 == 10 * DigitValue(s[2]) + DigitValue(s[3]);
    TwoDigitsOf(s[2], s[3]);
    TwoDigitsOf(s[5], s[6]);
    TwoDigitsOf(s[8], s[9]);
    assert s[2..4] == [s[2], s[3]];
    assert s[5..7] == [s[5], s[6]];
    assert s[8..10] == [s[8], s[9]];
  }
}
