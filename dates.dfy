/**
 Calendar dates as the parser reads and writes them: input in day/month/year
 form (`strptime` with `'%d/%m/%Y'`), output as `YYYY-MM-DD` (`strftime` with
 `'%Y-%m-%d'`).
 */
module Dates {
  import opened Wrappers
  import Text
  import opened Decimal

  datatype Date = Date(year: nat, month: nat, day: nat)

  /** The Gregorian leap-year rule. */
  predicate IsLeapYear(y: nat)
  {
    y % 4 == 0 && (y % 100 != 0 || y % 400 == 0)
  }

  function DaysInMonth(y: nat, m: nat): (n: nat)
    requires 1 <= m <= 12
    ensures 28 <= n <= 31
  {
    if m == 2 then (if IsLeapYear(y) then 29 else 28)
    else if m == 4 || m == 6 || m == 9 || m == 11 then 30
    else 31
  }

  /** A date Python's `datetime` can hold: years 1 to 9999, a real month and day. */
  predicate ValidDate(d: Date)
  {
    1 <= d.year <= 9999 && 1 <= d.month <= 12 && 1 <= d.day <= DaysInMonth(d.year, d.month)
  }

  /**
   Reads `D/M/YYYY`: a day of one or two ASCII digits, a month of one or two,
   a year of exactly four, separated by '/', nothing before or after, and the
   result a valid calendar date.
   */
  function ParseDayMonthYear(s: string): Option<Date>
  {
    var parts := Text.Split(s, '/');
    if |parts| != 3 then None
    else
      var dd, mm, yyyy := parts[0], parts[1], parts[2];
      if !(IsDigits(dd) && IsDigits(mm) && IsDigits(yyyy)) then None
      else if !(1 <= |dd| <= 2 && 1 <= |mm| <= 2 && |yyyy| == 4) then None
      else
        var d := Date(Value(yyyy), Value(mm), Value(dd));
        if ValidDate(d) then Some(d) else None
  }

  /** `YYYY-MM-DD`, each part zero-padded. */
  function FormatIso(d: Date): string
  {
    Pad(d.year, 4) + "-" + Pad(d.month, 2) + "-" + Pad(d.day, 2)
  }

  /** `DD/MM/YYYY`, each part zero-padded: the form the help text asks for. */
  function FormatDayMonthYear(d: Date): string
  {
    Pad(d.day, 2) + "/" + Pad(d.month, 2) + "/" + Pad(d.year, 4)
  }

  /** The spellings of a day or month number the input accepts: two digits, or one when it fits. */
  function ShortForms(n: nat): set<string>
  {
    {Pad(n, 2)} + (if n < 10 then {Pad(n, 1)} else {})
  }

  /** Every input text that denotes the date `d`. */
  function DayMonthYearForms(d: Date): set<string>
  {
    set dd, mm | dd in ShortForms(d.day) && mm in ShortForms(d.month) :: dd + "/" + mm + "/" + Pad(d.year, 4)
  }

  /** The date field of a message, converted to `YYYY-MM-DD`, or `None` when it does not parse. */
  function NormalizeDate(s: string): Option<string>
  {
    match ParseDayMonthYear(s)
    case None => None
    case Some(d) => Some(FormatIso(d))
  }

  lemma DigitsNoSlash(s: string)
    requires IsDigits(s)
    ensures '/' !in s
  {
  }

  /** A digit string of length one or two spells its own value in one of the accepted ways. */
  lemma ShortFormOf(s: string)
    requires IsDigits(s) && 1 <= |s| <= 2
    ensures s in ShortForms(Value(s))
  {
    PadValue(s);
    if |s| == 1 {
      ValueBound(s);
    }
  }

  /** Every accepted spelling of n denotes n. */
  lemma ShortFormValue(t: string, n: nat)
    requires n < 100 && t in ShortForms(n)
    ensures IsDigits(t) && 1 <= |t| <= 2 && Value(t) == n
  {
    if t == Pad(n, 2) {
      PadRoundTrip(n, 2);
    } else {
      PadRoundTrip(n, 1);
    }
  }

  /** Whatever parses is a valid date, spelled in one of its accepted forms. */
  lemma ParseDayMonthYearSound(s: string, d: Date)
    requires ParseDayMonthYear(s) == Some(d)
    ensures ValidDate(d) && s in DayMonthYearForms(d)
  {
    var parts := Text.Split(s, '/');
    Text.JoinSplit(s, '/');
    Text.JoinThree(parts[0], parts[1], parts[2], '/');
    assert parts == [parts[0], parts[1], parts[2]];
    ShortFormOf(parts[0]);
    ShortFormOf(parts[1]);
    PadValue(parts[2]);
    assert s == parts[0] + "/" + parts[1] + "/" + Pad(d.year, 4);
  }

  /** Every accepted spelling of a valid date parses to that date. */
  lemma ParseDayMonthYearComplete(s: string, d: Date)
    requires ValidDate(d) && s in DayMonthYearForms(d)
    ensures ParseDayMonthYear(s) == Some(d)
  {
    assert Pow10(4) == 10000;
    var dd, mm :| dd in ShortForms(d.day) && mm in ShortForms(d.month)
                  && s == dd + "/" + mm + "/" + Pad(d.year, 4);
    var yyyy := Pad(d.year, 4);
    ShortFormValue(dd, d.day);
    ShortFormValue(mm, d.month);
    PadRoundTrip(d.year, 4);
    DigitsNoSlash(dd);
    DigitsNoSlash(mm);
    DigitsNoSlash(yyyy);
    Text.JoinThree(dd, mm, yyyy, '/');
    Text.SplitJoin([dd, mm, yyyy], '/');
  }

  /**
   The input grammar exactly: a text parses to `d` if and only if `d` is a
   valid date and the text is one of its day/month/year spellings.
   */
  lemma ParseDayMonthYearExact(s: string, d: Date)
    ensures ParseDayMonthYear(s) == Some(d) <==> ValidDate(d) && s in DayMonthYearForms(d)
  {
    if ParseDayMonthYear(s) == Some(d) {
      ParseDayMonthYearSound(s, d);
    }
    if ValidDate(d) && s in DayMonthYearForms(d) {
      ParseDayMonthYearComplete(s, d);
    }
  }

  /** The zero-padded `DD/MM/YYYY` spelling of every valid date is read back as that date. */
  lemma ParseFormatDayMonthYear(d: Date)
    requires ValidDate(d)
    ensures ParseDayMonthYear(FormatDayMonthYear(d)) == Some(d)
  {
    assert FormatDayMonthYear(d) in DayMonthYearForms(d) by {
      assert Pad(d.day, 2) in ShortForms(d.day);
      assert Pad(d.month, 2) in ShortForms(d.month);
    }
    ParseDayMonthYearExact(FormatDayMonthYear(d), d);
  }

  /** `YYYY-MM-DD` layout: ten characters, dashes at 4 and 7, the three numbers in between. */
  lemma FormatIsoLayout(d: Date)
    requires ValidDate(d)
    ensures var r := FormatIso(d);
            && |r| == 10 && r[4] == '-' && r[7] == '-'
            && IsDigits(r[..4]) && IsDigits(r[5..7]) && IsDigits(r[8..])
            && Value(r[..4]) == d.year && Value(r[5..7]) == d.month && Value(r[8..]) == d.day
  {
    var r := FormatIso(d);
    assert Pow10(4) == 10000;
    assert r[..4] == Pad(d.year, 4);
    assert r[5..7] == Pad(d.month, 2);
    assert r[8..] == Pad(d.day, 2);
    PadRoundTrip(d.year, 4);
    PadRoundTrip(d.month, 2);
    PadRoundTrip(d.day, 2);
  }

  /** Distinct valid dates are stored as distinct strings. */
  lemma FormatIsoInjective(d1: Date, d2: Date)
    requires ValidDate(d1) && ValidDate(d2) && FormatIso(d1) == FormatIso(d2)
    ensures d1 == d2
  {
    FormatIsoLayout(d1);
    FormatIsoLayout(d2);
  }

  /** The text spells some valid date in day/month/year form. */
  ghost predicate SpellsValidDate(s: string)
  {
    exists d :: ValidDate(d) && s in DayMonthYearForms(d)
  }

  /**
   A date field is accepted exactly when it spells a valid date, and then it
   becomes the `YYYY-MM-DD` text of that date.
   */
  lemma NormalizeDateSpec(s: string)
    ensures NormalizeDate(s).Some? <==> SpellsValidDate(s)
    ensures NormalizeDate(s).Some? ==>
              exists d :: ValidDate(d) && s in DayMonthYearForms(d) && NormalizeDate(s) == Some(FormatIso(d))
  {
    match ParseDayMonthYear(s)
    case Some(d) =>
      ParseDayMonthYearExact(s, d);
    case None =>
      if SpellsValidDate(s) {
        var d :| ValidDate(d) && s in DayMonthYearForms(d);
        ParseDayMonthYearExact(s, d);
      }
  }

  /** The zero-padded `DD/MM/YYYY` input of a valid date becomes its `YYYY-MM-DD` text. */
  lemma NormalizeDateRoundTrip(d: Date)
    requires ValidDate(d)
    ensures NormalizeDate(FormatDayMonthYear(d)) == Some(FormatIso(d))
  {
    ParseFormatDayMonthYear(d);
  }
}
