/**
 The expense-line parser: one chat message `monto,descripcion,medio_pago[,fecha]`
 becomes an expense record, or is rejected with the reason of the first check
 that failed. The checks run in the source's order: field count, amount, date,
 payment method.
 */
module ExpenseParser {
  import opened Wrappers
  import Text
  import opened Decimal
  import opened Dates

  /** The accepted payment-method labels, in their listed order. */
  const PaymentMethods: seq<string> := ["Efectivo", "TD ICBC", "TC BBVA", "TC ICBC", "AMEX", "TBN"]

  /** Exact, case-sensitive membership in the registry. */
  predicate ValidMethod(m: string)
  {
    m in PaymentMethods
  }

  /** An accepted expense: `monto`, `descripcion`, `medio_pago` and `fecha` (`YYYY-MM-DD`). */
  datatype Expense = Expense(amount: real, description: string, paymentMethod: string, date: string)

  /** Which check rejected the line; the source prints one message per reason and returns None. */
  datatype Rejection = Malformed | BadAmount | BadDate | UnknownMethod

  /** The message split on ',' with every field trimmed. */
  function Fields(line: string): (r: seq<string>)
    ensures |r| >= 1
  {
    Text.TrimAll(Text.Split(line, ','))
  }

  /**
   The checks on the trimmed fields, in the source's order. `today` stands for
   the current date the source reads from the clock when there is no date field.
   */
  function Validate(parts: seq<string>, today: Date): Result<Expense, Rejection>
  {
    if !(3 <= |parts| <= 4) then Failure(Malformed)
    else
      match ParseAmount(parts[0])
      case None => Failure(BadAmount)
      case Some(amount) =>
        var date := if |parts| == 4 then NormalizeDate(parts[3]) else Some(FormatIso(today));
        match date
        case None => Failure(BadDate)
        case Some(fecha) =>
          if !ValidMethod(parts[2]) then Failure(UnknownMethod)
          else Success(Expense(amount, parts[1], parts[2], fecha))
  }

  /** Parses one message: split on ',', trim every field, then validate. */
  function Parse(line: string, today: Date): Result<Expense, Rejection>
  {
    Validate(Fields(line), today)
  }

  /** The outcome of every check, in terms of the trimmed fields. */
  lemma ParseCases(line: string, today: Date)
    ensures var f := Fields(line);
            && (Parse(line, today) == Failure(Malformed) <==> !(3 <= |f| <= 4))
            && (Parse(line, today) == Failure(BadAmount) <==> 3 <= |f| <= 4 && ParseAmount(f[0]).None?)
            && (Parse(line, today) == Failure(BadDate)
                <==> 3 <= |f| <= 4 && ParseAmount(f[0]).Some? && |f| == 4 && NormalizeDate(f[3]).None?)
            && (Parse(line, today) == Failure(UnknownMethod)
                <==> 3 <= |f| <= 4 && ParseAmount(f[0]).Some?
                     && (|f| == 4 ==> NormalizeDate(f[3]).Some?) && f[2] !in PaymentMethods)
            && (Parse(line, today).Success? ==>
                  && 3 <= |f| <= 4
                  && Parse(line, today).value
                     == Expense(ParseAmount(f[0]).value, f[1], f[2],
                                if |f| == 4 then NormalizeDate(f[3]).value else FormatIso(today)))
  {
  }

  /** A message is rejected as malformed exactly when it has neither two nor three commas. */
  lemma ParseMalformed(line: string, today: Date)
    ensures Parse(line, today) == Failure(Malformed) <==> !(2 <= Text.Count(line, ',') <= 3)
  {
    ParseCases(line, today);
    Text.SplitCount(line, ',');
  }

  /**
   With a good field count, the line is rejected for its amount exactly when
   the trimmed first field is not a number.
   */
  lemma ParseBadAmount(line: string, today: Date)
    ensures Parse(line, today) == Failure(BadAmount)
            <==> 2 <= Text.Count(line, ',') <= 3 && ParseAmount(Text.Trim(Text.Split(line, ',')[0])) == None
  {
    ParseCases(line, today);
    Text.SplitCount(line, ',');
  }

  /**
   The date check comes after the amount and before the payment method: a line
   is rejected for its date exactly when it has four fields, a good amount and
   a fourth field that spells no valid date, whatever its payment method.
   */
  lemma ParseBadDate(line: string, today: Date)
    ensures Parse(line, today) == Failure(BadDate)
            <==> var f := Fields(line);
                 |f| == 4 && ParseAmount(f[0]).Some? && !SpellsValidDate(f[3])
  {
    ParseCases(line, today);
    var f := Fields(line);
    if |f| == 4 {
      NormalizeDateSpec(f[3]);
    }
  }

  /**
   The payment-method check is the last one: a line is rejected for it exactly
   when every earlier check passed and the trimmed third field is not in the
   registry.
   */
  lemma ParseUnknownMethod(line: string, today: Date)
    ensures Parse(line, today) == Failure(UnknownMethod)
            <==> var f := Fields(line);
                 3 <= |f| <= 4 && ParseAmount(f[0]).Some?
                 && (|f| == 4 ==> SpellsValidDate(f[3]))
                 && f[2] !in PaymentMethods
  {
    ParseCases(line, today);
    var f := Fields(line);
    if |f| == 4 {
      NormalizeDateSpec(f[3]);
    }
  }

  /**
   What an accepted line yields: the amount its first field denotes, the
   second and third fields exactly as trimmed (no emptiness or sign check), a
   registered payment method, and as date the fourth field in `YYYY-MM-DD`
   form or, for a three-field line, `today` in that form.
   */
  lemma ParseAccepted(line: string, today: Date, e: Expense)
    requires Parse(line, today) == Success(e)
    ensures var f := Text.Split(line, ',');
            && (|f| == 3 || |f| == 4)
            && ParseAmount(Text.Trim(f[0])) == Some(e.amount)
            && e.description == Text.Trim(f[1])
            && e.paymentMethod == Text.Trim(f[2])
            && e.paymentMethod in PaymentMethods
            && (|f| == 3 ==> e.date == FormatIso(today))
            && (|f| == 4 ==> exists d :: ValidDate(d) && Text.Trim(f[3]) in DayMonthYearForms(d)
                                         && e.date == FormatIso(d))
  {
    ParseCases(line, today);
    var f := Fields(line);
    if |f| == 4 {
      NormalizeDateSpec(f[3]);
    }
  }

  /**
   The acceptance condition in one place: a message is accepted exactly when
   it has three or four fields, its first field is a number, its fourth field,
   if any, spells a valid date, and its third field is a registry label.
   */
  lemma ParseSucceeds(line: string, today: Date)
    ensures Parse(line, today).Success?
            <==> var f := Fields(line);
                 3 <= |f| <= 4 && ParseAmount(f[0]).Some?
                 && (|f| == 4 ==> SpellsValidDate(f[3]))
                 && f[2] in PaymentMethods
  {
    ParseCases(line, today);
    var f := Fields(line);
    if |f| == 4 {
      NormalizeDateSpec(f[3]);
    }
  }

  /** Whatever the message, an accepted record's date is the `YYYY-MM-DD` text of a valid date. */
  lemma ParseDateNormalized(line: string, today: Date, e: Expense)
    requires ValidDate(today) && Parse(line, today) == Success(e)
    ensures exists d :: ValidDate(d) && e.date == FormatIso(d)
    ensures |e.date| == 10 && e.date[4] == '-' && e.date[7] == '-'
  {
    ParseAccepted(line, today, e);
    var d :| ValidDate(d) && e.date == FormatIso(d);
    FormatIsoLayout(d);
  }

  /** Text without commas that neither starts nor ends with white space. */
  predicate Clean(s: string)
  {
    ',' !in s && (s == [] || (!Text.IsSpace(s[0]) && !Text.IsSpace(s[|s| - 1])))
  }

  /** Registry labels contain no comma and no surrounding white space. */
  lemma PaymentMethodClean(m: string)
    requires m in PaymentMethods
    ensures Clean(m)
  {
    if m == "Efectivo" {
      assert Clean("Efectivo");
    } else if m == "TD ICBC" {
      assert Clean("TD ICBC");
    } else if m == "TC BBVA" {
      assert Clean("TC BBVA");
    } else if m == "TC ICBC" {
      assert Clean("TC ICBC");
    } else if m == "AMEX" {
      assert Clean("AMEX");
    } else {
      assert m == "TBN";
      assert Clean("TBN");
    }
  }

  lemma DigitsClean(s: string)
    requires IsDigits(s)
    ensures Clean(s)
  {
    if s != [] {
      assert IsDigit(s[0]) && IsDigit(s[|s| - 1]);
    }
  }

  lemma DayMonthYearClean(d: Date)
    ensures Clean(FormatDayMonthYear(d))
  {
    var a, b, c := Pad(d.day, 2), Pad(d.month, 2), Pad(d.year, 4);
    var s := FormatDayMonthYear(d);
    assert s == a + "/" + b + "/" + c;
    forall i | 0 <= i < |s|
      ensures s[i] != ','
    {
      if i < 2 {
        assert s[i] == a[i];
      } else if 3 <= i < 5 {
        assert s[i] == b[i - 3];
      } else if 6 <= i {
        assert s[i] == c[i - 6];
      }
    }
    assert s[0] == a[0] && s[|s| - 1] == c[3];
  }

  /** The fields of `a,b,c` when no part holds a comma. */
  lemma FieldsOfThree(a: string, b: string, c: string)
    requires ',' !in a && ',' !in b && ',' !in c
    ensures Fields(a + "," + b + "," + c) == [Text.Trim(a), Text.Trim(b), Text.Trim(c)]
  {
    var line := a + "," + b + "," + c;
    assert line == Text.Join([a, b, c], ',') by {
      Text.JoinThree(a, b, c, ',');
    }
    Text.SplitJoin([a, b, c], ',');
    var r := Fields(line);
    assert |r| == 3 && r[0] == Text.Trim(a) && r[1] == Text.Trim(b) && r[2] == Text.Trim(c);
  }

  /** The fields of `a,b,c,d` when no part holds a comma. */
  lemma FieldsOfFour(a: string, b: string, c: string, d: string)
    requires ',' !in a && ',' !in b && ',' !in c && ',' !in d
    ensures Fields(a + "," + b + "," + c + "," + d) == [Text.Trim(a), Text.Trim(b), Text.Trim(c), Text.Trim(d)]
  {
    var line := a + "," + b + "," + c + "," + d;
    assert line == Text.Join([a, b, c, d], ',') by {
      Text.JoinFour(a, b, c, d, ',');
    }
    Text.SplitJoin([a, b, c, d], ',');
    var r := Fields(line);
    assert |r| == 4 && r[0] == Text.Trim(a) && r[1] == Text.Trim(b) && r[2] == Text.Trim(c) && r[3] == Text.Trim(d);
  }

  /** The fields of an amount, a description and a payment method that need no trimming but the description. */
  lemma CleanFieldsOfThree(a: string, description: string, payment: string)
    requires Clean(a) && ',' !in description && Clean(payment)
    ensures Fields(a + "," + description + "," + payment) == [a, Text.Trim(description), payment]
  {
    Text.TrimFixed(a);
    Text.TrimFixed(payment);
    FieldsOfThree(a, description, payment);
  }

  /** The same with a date field that needs no trimming either. */
  lemma CleanFieldsOfFour(a: string, description: string, payment: string, t: string)
    requires Clean(a) && ',' !in description && Clean(payment) && Clean(t)
    ensures Fields(a + "," + description + "," + payment + "," + t) == [a, Text.Trim(description), payment, t]
  {
    Text.TrimFixed(a);
    Text.TrimFixed(payment);
    Text.TrimFixed(t);
    FieldsOfFour(a, description, payment, t);
  }

  /** A line of three clean fields has exactly those fields. */
  lemma CleanLineThree(a: string, b: string, c: string)
    requires Clean(a) && Clean(b) && Clean(c)
    ensures Fields(a + "," + b + "," + c) == [a, b, c]
  {
    Text.TrimFixed(a);
    Text.TrimFixed(b);
    Text.TrimFixed(c);
    FieldsOfThree(a, b, c);
  }

  /** A line of four clean fields has exactly those fields. */
  lemma CleanLineFour(a: string, b: string, c: string, d: string)
    requires Clean(a) && Clean(b) && Clean(c) && Clean(d)
    ensures Fields(a + "," + b + "," + c + "," + d) == [a, b, c, d]
  {
    Text.TrimFixed(a);
    Text.TrimFixed(b);
    Text.TrimFixed(c);
    Text.TrimFixed(d);
    FieldsOfFour(a, b, c, d);
  }

  /**
   Three comma-free fields that pass every check, the first and third without
   surrounding white space, make an accepted line dated `today`.
   */
  lemma ParseUndatedFields(a: string, description: string, payment: string, today: Date)
    requires Clean(a) && ',' !in description && payment in PaymentMethods && ParseAmount(a).Some?
    ensures Parse(a + "," + description + "," + payment, today)
            == Success(Expense(ParseAmount(a).value, Text.Trim(description), payment, FormatIso(today)))
  {
    var f := [a, Text.Trim(description), payment];
    assert Validate(f, today)
           == Success(Expense(ParseAmount(a).value, Text.Trim(description), payment, FormatIso(today)));
    PaymentMethodClean(payment);
    CleanFieldsOfThree(a, description, payment);
  }

  /** The same for four fields, the last one a date. */
  lemma ParseDatedFields(a: string, description: string, payment: string, t: string, today: Date)
    requires Clean(a) && ',' !in description && payment in PaymentMethods && Clean(t)
    requires ParseAmount(a).Some? && NormalizeDate(t).Some?
    ensures Parse(a + "," + description + "," + payment + "," + t, today)
            == Success(Expense(ParseAmount(a).value, Text.Trim(description), payment, NormalizeDate(t).value))
  {
    var f := [a, Text.Trim(description), payment, t];
    assert Validate(f, today)
           == Success(Expense(ParseAmount(a).value, Text.Trim(description), payment, NormalizeDate(t).value));
    PaymentMethodClean(payment);
    CleanFieldsOfFour(a, description, payment, t);
  }

  /**
   A three-field message built from a whole amount, a comma-free description
   and a registered payment method is accepted, dated `today`, with the
   description trimmed.
   */
  lemma ParseUndatedLine(n: nat, description: string, payment: string, today: Date)
    requires ',' !in description && payment in PaymentMethods
    ensures Parse(Numeral(n) + "," + description + "," + payment, today)
            == Success(Expense(n as real, Text.Trim(description), payment, FormatIso(today)))
  {
    DigitsClean(Numeral(n));
    ParseNumeral(n);
    ParseUndatedFields(Numeral(n), description, payment, today);
  }

  /**
   A four-field message with a whole amount, a comma-free description, a
   registered payment method and a valid date written `DD/MM/YYYY` is
   accepted, with the date re-emitted as `YYYY-MM-DD`.
   */
  lemma ParseDatedLine(n: nat, description: string, payment: string, d: Date, today: Date)
    requires ',' !in description && payment in PaymentMethods && ValidDate(d)
    ensures Parse(Numeral(n) + "," + description + "," + payment + "," + FormatDayMonthYear(d), today)
            == Success(Expense(n as real, Text.Trim(description), payment, FormatIso(d)))
  {
    DigitsClean(Numeral(n));
    ParseNumeral(n);
    DayMonthYearClean(d);
    NormalizeDateRoundTrip(d);
    ParseDatedFields(Numeral(n), description, payment, FormatDayMonthYear(d), today);
  }

  /**
   The payment method is checked exactly and without normalizing case: a
   three-field line with a good amount is accepted exactly when its trimmed
   third field is a registry label.
   */
  lemma ParseMethodExact(line: string, today: Date)
    requires |Text.Split(line, ',')| == 3 && ParseAmount(Text.Trim(Text.Split(line, ',')[0])).Some?
    ensures Parse(line, today).Success? <==> Text.Trim(Text.Split(line, ',')[2]) in PaymentMethods
  {
    ParseCases(line, today);
  }
}
