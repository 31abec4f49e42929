/**
 * The download name `INGRESOS-EGRESOS DD-MM-YYYY.xlsx`: the date of the run
 * formatted as by `strftime("%d-%m-%Y")`, between a fixed prefix and the
 * spreadsheet extension. The date is an input; no clock is read.
 */
module ExportName {
  import opened Wrappers
  import opened Numeric

  /** A calendar date of the proleptic Gregorian calendar, as Python's `datetime` holds it. */
  datatype Date = Date(day: nat, month: nat, year: nat)

  predicate IsLeapYear(year: nat) {
    year % 4 == 0 && (year % 100 != 0 || year % 400 == 0)
  }

  function DaysInMonth(month: nat, year: nat): (n: nat)
    requires 1 <= month <= 12
    ensures 28 <= n <= 31
  {
    if month == 2 then (if IsLeapYear(year) then 29 else 28)
    else if month == 4 || month == 6 || month == 9 || month == 11 then 30
    else 31
  }

  /** The dates `datetime` can represent: years 1 to 9999. */
  predicate ValidDate(d: Date) {
    1 <= d.year <= 9999 && 1 <= d.month <= 12 && 1 <= d.day <= DaysInMonth(d.month, d.year)
  }

  const Prefix: string := "INGRESOS-EGRESOS "
  const Extension: string := ".xlsx"

  /** `%d-%m-%Y`: two-digit day, two-digit month, four-digit year. */
  function DateText(d: Date): (s: string)
    requires ValidDate(d)
    ensures |s| == 10 && s[2] == '-' && s[5] == '-'
    ensures AllDigits(s[..2]) && AllDigits(s[3..5]) && AllDigits(s[6..])
  {
    Padded(d.day, 2) + "-" + Padded(d.month, 2) + "-" + Padded(d.year, 4)
  }

  /** The name under which the cleaned spreadsheet is offered for download. */
  function OutputFileName(d: Date): (name: string)
    requires ValidDate(d)
    ensures |name| == |Prefix| + 10 + |Extension|
    ensures name[..|Prefix|] == Prefix && name[|Prefix| + 10..] == Extension
  {
    Prefix + DateText(d) + Extension
  }

  /** Reads a date back out of a download name; None for any other text. */
  function ParseOutputFileName(s: string): (r: Option<Date>)
    ensures r.Some? ==> ValidDate(r.value)
  {
    if |s| != 32 || s[..17] != Prefix || s[27..] != Extension || s[19] != '-' || s[22] != '-' then None
    else match (ParseDigits(s[17..19]), ParseDigits(s[20..22]), ParseDigits(s[23..27]))
      case (Some(day), Some(month), Some(year)) =>
        if ValidDate(Date(day, month, year)) then Some(Date(day, month, year)) else None
      case _ => None
  }

  /** The date can be read back from the name: the name determines the date. */
  lemma FileNameRoundTrip(d: Date)
    requires ValidDate(d)
    ensures ParseOutputFileName(OutputFileName(d)) == Some(d)
  {
    var name := OutputFileName(d);
    assert name[17..19] == Padded(d.day, 2);
    assert name[20..22] == Padded(d.month, 2);
    assert name[23..27] == Padded(d.year, 4);
    ParsePadded(d.day, 2);
    ParsePadded(d.month, 2);
    ParsePadded(d.year, 4);
  }

  /** Every text read as a download name is exactly the name of the date it gives. */
  lemma FileNameParseRoundTrip(s: string)
    requires ParseOutputFileName(s).Some?
    ensures OutputFileName(ParseOutputFileName(s).value) == s
  {
    var d := ParseOutputFileName(s).value;
    PaddedParse(s[17..19]);
    PaddedParse(s[20..22]);
    PaddedParse(s[23..27]);
    assert s == s[..17] + s[17..19] + [s[19]] + s[20..22] + [s[22]] + s[23..27] + s[27..];
  }

  /** Different dates give different names. */
  lemma FileNameInjective(d1: Date, d2: Date)
    requires ValidDate(d1) && ValidDate(d2) && d1 != d2
    ensures OutputFileName(d1) != OutputFileName(d2)
  {
    FileNameRoundTrip(d1);
    FileNameRoundTrip(d2);
  }

  /** The name for 5 March 2024. */
  lemma FileNameExample()
    ensures OutputFileName(Date(5, 3, 2024)) == "INGRESOS-EGRESOS 05-03-2024.xlsx"
  {
  }
}
