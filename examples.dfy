/**
 The parser's behaviour on the messages its own test block tries, and on a
 few more. Each message is written as its fields joined by ",", the text the
 parser receives; every example is proved from the facts that its literal
 fields need no trimming, and what the checks say about those fields.
 */
module ParserExamples {
  import opened Wrappers
  import Text
  import opened Decimal
  import opened Dates
  import opened ExpenseParser

  // "150.75,Cena con amigos,Tarjeta de Crédito BBVA"

  lemma DinnerClean()
    ensures Clean("150.75") && Clean("Cena con amigos") && Clean("Tarjeta de Crédito BBVA") && Clean("TC BBVA")
  {
  }

  lemma DinnerNotWhole()
    ensures !IsDigits("150.75")
  {
    assert "150.75"[3] == '.';
  }

  lemma DinnerSplit()
    ensures Text.Split("150.75", '.') == ["150", "75"]
  {
    assert "150.75" == Text.Join(["150", "75"], '.');
    Text.SplitJoin(["150", "75"], '.');
  }

  lemma DinnerUnsigned()
    ensures ParseAmount("150.75") == ParseUnsigned("150.75")
  {
  }

  lemma DinnerDigits()
    ensures Value("150") == 150 && Value("75") == 75
  {
    assert Pad(150, 3) == "150" && Pad(75, 2) == "75";
    PadRoundTrip(150, 3);
    PadRoundTrip(75, 2);
  }

  lemma DinnerValue()
    ensures DecimalValue("150", "75") == 150.75
  {
    DinnerDigits();
    assert Pow10(2) == 100;
  }

  /** "150.75" denotes exactly 150.75. */
  lemma DinnerAmount()
    ensures ParseAmount("150.75") == Some(150.75)
  {
    DinnerNotWhole();
    DinnerSplit();
    DinnerUnsigned();
    DinnerValue();
    assert ParseUnsigned("150.75") == Some(DecimalValue("150", "75"));
  }

  /**
   The first message the source's test block calls valid is rejected: its
   payment method is spelled out in full, and only "TC BBVA" is registered.
   */
  lemma DinnerUnknownMethod(today: Date)
    ensures Parse("150.75" + "," + "Cena con amigos" + "," + "Tarjeta de Crédito BBVA", today)
            == Failure(UnknownMethod)
  {
    DinnerAmount();
    assert Validate(["150.75", "Cena con amigos", "Tarjeta de Crédito BBVA"], today) == Failure(UnknownMethod);
    DinnerClean();
    CleanLineThree("150.75", "Cena con amigos", "Tarjeta de Crédito BBVA");
  }

  /** With the registered label instead, the same message is accepted with today's date. */
  lemma DinnerAccepted(today: Date)
    ensures Parse("150.75" + "," + "Cena con amigos" + "," + "TC BBVA", today)
            == Success(Expense(150.75, "Cena con amigos", "TC BBVA", FormatIso(today)))
  {
    DinnerAmount();
    assert Validate(["150.75", "Cena con amigos", "TC BBVA"], today)
           == Success(Expense(150.75, "Cena con amigos", "TC BBVA", FormatIso(today)));
    DinnerClean();
    CleanLineThree("150.75", "Cena con amigos", "TC BBVA");
  }

  // "50,Café,Efectivo,12/07/2025"

  lemma CoffeeClean()
    ensures Clean("50") && Clean("Café") && Clean("Efectivo") && Clean("12/07/2025")
  {
  }

  lemma CoffeeDayMonthYear()
    ensures FormatDayMonthYear(Date(2025, 7, 12)) == "12/07/2025"
  {
  }

  lemma CoffeeIso()
    ensures FormatIso(Date(2025, 7, 12)) == "2025-07-12"
  {
  }

  /** "12/07/2025" is 12 July 2025, stored as "2025-07-12". */
  lemma CoffeeDate()
    ensures NormalizeDate("12/07/2025") == Some("2025-07-12")
  {
    CoffeeDayMonthYear();
    CoffeeIso();
    NormalizeDateRoundTrip(Date(2025, 7, 12));
  }

  lemma Fifty()
    ensures ParseAmount("50") == Some(50.0)
  {
    assert Numeral(50) == "50";
    ParseNumeral(50);
  }

  /** "50,Café,Efectivo,12/07/2025" is accepted and its date re-emitted as 2025-07-12. */
  lemma DatedCoffee(today: Date)
    ensures Parse("50" + "," + "Café" + "," + "Efectivo" + "," + "12/07/2025", today)
            == Success(Expense(50.0, "Café", "Efectivo", "2025-07-12"))
  {
    Fifty();
    CoffeeDate();
    assert Validate(["50", "Café", "Efectivo", "12/07/2025"], today)
           == Success(Expense(50.0, "Café", "Efectivo", "2025-07-12"));
    CoffeeClean();
    CleanLineFour("50", "Café", "Efectivo", "12/07/2025");
  }

  // "3000,Alquiler,Transferencia Bancaria"

  lemma RentClean()
    ensures Clean("3000") && Clean("Alquiler") && Clean("Transferencia Bancaria")
  {
  }

  /** A bank transfer is not a registered payment method. */
  lemma RentUnknownMethod(today: Date)
    ensures Parse("3000" + "," + "Alquiler" + "," + "Transferencia Bancaria", today) == Failure(UnknownMethod)
  {
    assert Numeral(3000) == "3000";
    ParseNumeral(3000);
    assert Validate(["3000", "Alquiler", "Transferencia Bancaria"], today) == Failure(UnknownMethod);
    RentClean();
    CleanLineThree("3000", "Alquiler", "Transferencia Bancaria");
  }

  // "cien,Comida,Efectivo"

  lemma WordAmountClean()
    ensures Clean("cien") && Clean("Comida") && Clean("Efectivo")
  {
  }

  /** "cien,Comida,Efectivo": the amount is a word, not a number. */
  lemma WordAmount(today: Date)
    ensures Parse("cien" + "," + "Comida" + "," + "Efectivo", today) == Failure(BadAmount)
  {
    assert Validate(["cien", "Comida", "Efectivo"], today) == Failure(BadAmount);
    WordAmountClean();
    CleanLineThree("cien", "Comida", "Efectivo");
  }

  // "100,Comida,Tarjeta Inexistente"

  lemma MissingCardClean()
    ensures Clean("100") && Clean("Comida") && Clean("Tarjeta Inexistente")
  {
  }

  /** "100,Comida,Tarjeta Inexistente": the payment method is not registered. */
  lemma MissingCard(today: Date)
    ensures Parse("100" + "," + "Comida" + "," + "Tarjeta Inexistente", today) == Failure(UnknownMethod)
  {
    assert Numeral(100) == "100";
    ParseNumeral(100);
    assert Validate(["100", "Comida", "Tarjeta Inexistente"], today) == Failure(UnknownMethod);
    MissingCardClean();
    CleanLineThree("100", "Comida", "Tarjeta Inexistente");
  }

  // "200,Libro,Efectivo,ayer"

  lemma YesterdayClean()
    ensures Clean("200") && Clean("Libro") && Clean("Efectivo") && Clean("ayer")
  {
  }

  /** A word is not a date: it has no '/' at all. */
  lemma YesterdayDate()
    ensures NormalizeDate("ayer") == None
  {
    assert '/' !in "ayer";
    Text.SplitNoSep("ayer", '/');
  }

  lemma TwoHundred()
    ensures ParseAmount("200") == Some(200.0)
  {
    assert Numeral(200) == "200";
    ParseNumeral(200);
  }

  /**
   The date is checked before the payment method: with the date field "ayer",
   the message is rejected for its date whatever its payment method, listed or not.
   */
  lemma YesterdayAnyMethod(payment: string, today: Date)
    requires Clean(payment)
    ensures Parse("200" + "," + "Libro" + "," + payment + "," + "ayer", today) == Failure(BadDate)
  {
    TwoHundred();
    YesterdayDate();
    assert Validate(["200", "Libro", payment, "ayer"], today) == Failure(BadDate);
    YesterdayClean();
    CleanLineFour("200", "Libro", payment, "ayer");
  }

  /** "200,Libro,Efectivo,ayer": the date field is not in day/month/year form. */
  lemma Yesterday(today: Date)
    ensures Parse("200" + "," + "Libro" + "," + "Efectivo" + "," + "ayer", today) == Failure(BadDate)
  {
    YesterdayClean();
    YesterdayAnyMethod("Efectivo", today);
  }

  // "50" and "50,desc,medio,fecha,extra"

  /** "50": one field is too few. */
  lemma TooFewFields(today: Date)
    ensures Parse("50", today) == Failure(Malformed)
  {
    assert ',' !in "50";
    Text.SplitNoSep("50", ',');
  }

  /** Five comma-free parts joined by commas make five fields. */
  lemma FiveFields(a: string, b: string, c: string, d: string, e: string)
    requires ',' !in a && ',' !in b && ',' !in c && ',' !in d && ',' !in e
    ensures |Fields(a + "," + b + "," + c + "," + d + "," + e)| == 5
  {
    var rest := b + "," + c + "," + d + "," + e;
    assert a + "," + b + "," + c + "," + d + "," + e == a + [','] + rest;
    Text.SplitCons(a, rest, ',');
    Text.JoinFour(b, c, d, e, ',');
    Text.SplitJoin([b, c, d, e], ',');
  }

  /** "50,desc,medio,fecha,extra": five fields are too many. */
  lemma TooManyFields(today: Date)
    ensures Parse("50" + "," + "desc" + "," + "medio" + "," + "fecha" + "," + "extra", today) == Failure(Malformed)
  {
    assert ',' !in "50" && ',' !in "desc" && ',' !in "medio" && ',' !in "fecha" && ',' !in "extra";
    FiveFields("50", "desc", "medio", "fecha", "extra");
  }
  // Amounts and descriptions the parser lets through

  lemma Twenty()
    ensures ParseAmount("20") == Some(20.0)
  {
    assert Numeral(20) == "20";
    ParseNumeral(20);
  }

  /** A negative amount is accepted: nothing checks the sign. */
  lemma NegativeAmount()
    ensures ParseAmount("-20") == Some(-20.0)
  {
    Twenty();
    ParseNegated("20");
    assert ['-'] + "20" == "-20";
  }

  /** An empty description is accepted: nothing checks it either. */
  lemma EmptyDescription(today: Date)
    ensures Parse("10" + "," + "" + "," + "Efectivo", today)
            == Success(Expense(10.0, "", "Efectivo", FormatIso(today)))
  {
    assert Numeral(10) == "10";
    assert "Efectivo" in PaymentMethods;
    ParseUndatedLine(10, "", "Efectivo", today);
    Text.TrimFixed("");
  }

  // Dates

  lemma OneDigitForms()
    ensures "1" in ShortForms(1) && "7" in ShortForms(7) && Pad(2025, 4) == "2025"
  {
    assert Pad(1, 1) == "1" && Pad(7, 1) == "7";
  }

  /** Day and month may be written with one digit. */
  lemma OneDigitDate()
    ensures ParseDayMonthYear("1/7/2025") == Some(Date(2025, 7, 1))
  {
    OneDigitForms();
    assert "1/7/2025" == "1" + "/" + "7" + "/" + Pad(2025, 4);
    assert "1/7/2025" in DayMonthYearForms(Date(2025, 7, 1));
    ParseDayMonthYearComplete("1/7/2025", Date(2025, 7, 1));
  }

  lemma LeapDayForms()
    ensures "29" in ShortForms(29) && "02" in ShortForms(2) && Pad(2024, 4) == "2024"
  {
    assert Pad(29, 2) == "29" && Pad(2, 2) == "02";
  }

  /** 29 February exists in a leap year. */
  lemma LeapDay()
    ensures ParseDayMonthYear("29/02/2024") == Some(Date(2024, 2, 29))
  {
    LeapDayForms();
    assert "29/02/2024" == "29" + "/" + "02" + "/" + Pad(2024, 4);
    assert "29/02/2024" in DayMonthYearForms(Date(2024, 2, 29));
    ParseDayMonthYearComplete("29/02/2024", Date(2024, 2, 29));
  }

  lemma NonLeapDaySplit()
    ensures Text.Split("29/02/2023", '/') == ["29", "02", "2023"]
  {
    assert "29/02/2023" == Text.Join(["29", "02", "2023"], '/') by {
      Text.JoinThree("29", "02", "2023", '/');
    }
    Text.SplitJoin(["29", "02", "2023"], '/');
  }

  lemma NonLeapDayValues()
    ensures Value("29") == 29 && Value("02") == 2 && Value("2023") == 2023
  {
    assert Pad(29, 2) == "29" && Pad(2, 2) == "02" && Pad(2023, 4) == "2023";
    assert Pow10(4) == 10000;
    PadRoundTrip(29, 2);
    PadRoundTrip(2, 2);
    PadRoundTrip(2023, 4);
  }

  /** 29 February 2023 is well formed but does not exist, so it is rejected. */
  lemma NonLeapDay()
    ensures ParseDayMonthYear("29/02/2023") == None
  {
    NonLeapDaySplit();
    NonLeapDayValues();
    assert !ValidDate(Date(2023, 2, 29));
  }
}
