# Expense-line parser of expenses_agent

The expense tracker lets a user record a purchase by sending one chat message
of the form `monto,descripcion,medio_pago[,fecha]`: an amount, a description,
a payment method and, optionally, a date written day/month/year. The function
`parsear_gasto_csv` turns such a message into an expense record with the
amount as a number, the description and payment method as text and the date
as `YYYY-MM-DD`; or it rejects the message. The message is split on every
comma, each field is stripped of surrounding white space, and then four checks
run in this order, the first failure ending the parse:

1. there are three or four fields;
2. the first field is a number (Python's `float`);
3. if there is a fourth field it is a date in `%d/%m/%Y` form, converted to
   `%Y-%m-%d`; without one the date is today's;
4. the third field is one of the six labels of `MEDIOS_DE_PAGO_VALIDOS`,
   matched exactly.

The model is pure, as the parser is: datatypes, functions and lemmas in six
modules.

- `Wrappers`: `Option` and `Result`.
- `Text`: `str.split` on one character and `str.strip`, with the white-space
  set of Python's `str.isspace`.
- `Decimal`: digit strings, their values, zero-padded printing (as `strftime`
  prints numbers) and the amount grammar.
- `Dates`: the Gregorian calendar, reading `D/M/YYYY` and writing
  `YYYY-MM-DD`.
- `ExpenseParser`: the registry, the record, the rejection reasons and
  `Parse`.
- `ParserExamples`: the messages of the source's own test block and a few
  edge cases, each proved to give its outcome.

Where the source returns `None` after printing a message, the model returns
`Failure(reason)`, where `reason` says which check failed (`Malformed`,
`BadAmount`, `BadDate` or `UnknownMethod`). The current date, which the source
reads from the clock, is the parameter `today`.

Behaviour of the code worth knowing:

- The code checks the date before the payment method, so a message with both
  a bad date and an unknown method is rejected for its date
  (`ParserExamples.YesterdayAnyMethod`).
- `strptime` accepts a one-digit day or month (`1/7/2025`), although the error
  message at `database_manager.py:100` asks for `DD/MM/AAAA`
  (`ParserExamples.OneDigitDate`).
- The code does not check that the description is non-empty; an empty
  description is accepted (`ParserExamples.EmptyDescription`).
- The code does not reject negative amounts (`Decimal.ParseNegated`,
  `ParserExamples.NegativeAmount`).

The test block at the end of `database_manager.py` lists three messages under
its valid examples, and the code rejects two of them because their payment
method is not in the registry:
`150.75,Cena con amigos,Tarjeta de Crédito BBVA`
(`ParserExamples.DinnerUnknownMethod`) and
`3000,Alquiler,Transferencia Bancaria` (`ParserExamples.RentUnknownMethod`).
With the registered label `TC BBVA` the first is accepted
(`ParserExamples.DinnerAccepted`).

## Model

| member | source | states |
|---|---|---|
| Text.IsSpace | database_manager.py:78 | the white space `strip` removes: exactly the code points for which Python's `str.isspace` holds; its meaning in strip is given by TrimLeftSpec, TrimRightSpec and TrimSlice |
| Text.Split | database_manager.py:78 | splitting on a separator always gives at least one piece, even for the empty message |
| Text.SplitCount | database_manager.py:78 | a message has exactly one more field than it has commas |
| Text.JoinSplit | database_manager.py:78 | joining the pieces with the separator gives back the original text, so splitting loses nothing |
| Text.SplitNoSep | database_manager.py:78 | text without the separator splits into itself alone |
| Text.SplitCons | database_manager.py:78 | a separator after separator-free text closes the first piece, and the rest splits on its own |
| Text.SplitJoin | database_manager.py:78 | splitting a join of separator-free pieces gives back exactly those pieces, empty ones included |
| Text.Trim | database_manager.py:78 | `str.strip`; its contract is carried by TrimSlice (the inner slice with only white space outside and none at its ends), TrimFixed and TrimIdempotent |
| Text.TrimLeftSpec | database_manager.py:78 | left stripping removes a prefix made only of white space, and the longest one: the result starts with no white space |
| Text.TrimRightSpec | database_manager.py:78 | right stripping removes a suffix made only of white space, and the longest one |
| Text.TrimSlice | database_manager.py:78 | a stripped field is a contiguous slice of the original, with only white space outside it and none at either end |
| Text.TrimFixed | database_manager.py:78 | text that neither starts nor ends with white space is left unchanged by strip |
| Text.TrimIdempotent | database_manager.py:78 | stripping twice is stripping once |
| Decimal.Pad | database_manager.py:98 | printing with a fixed width gives exactly that many digits |
| Decimal.PadRoundTrip | database_manager.py:98 | a number below 10^w printed with w digits reads back as itself |
| Decimal.PadValue | database_manager.py:98 | every digit string is its own value printed to its own width, leading zeros included |
| Decimal.ValueNumeral | database_manager.py:85 | the shortest numeral of a natural number denotes that number |
| Decimal.ParseAmount | database_manager.py:84-88 | `float` on the first field, `None` where it raises ValueError; its grammar and value are fixed in both directions by ParseAmountExact |
| Decimal.ParseUnsigned | database_manager.py:85 | an unsigned amount that parses is never negative |
| Decimal.DecimalValue | database_manager.py:85 | the value of `whole.frac` is never negative |
| Decimal.AmountAlphabet | database_manager.py:84-88 | an accepted amount is non-empty and made only of digits, '.', '+' and '-' (a consequence of ParseAmountSound) |
| Decimal.UnsignedSound | database_manager.py:85 | whatever the unsigned reader accepts is digits, an optional '.' and digits, at least one digit in all, with the value they denote |
| Decimal.UnsignedComplete | database_manager.py:85 | every such unsigned form is accepted with its value |
| Decimal.ParseAmountSound | database_manager.py:84-88 | whatever the amount reader accepts is one optional sign and an unsigned form, and the value is that form's, negated after '-' |
| Decimal.ParseAmountComplete | database_manager.py:84-88 | every optional sign followed by an unsigned form is accepted with its signed value |
| Decimal.ParseAmountExact | database_manager.py:84-88 | a text is accepted with value v if and only if it is an optional sign and an unsigned form denoting v |
| Decimal.ParseNumeral | database_manager.py:85 | every whole-number numeral is accepted with its own value |
| Decimal.ParseNegated | database_manager.py:85 | a leading '-' is accepted and negates the value, and a text rejected unsigned stays rejected |
| Decimal.ParseDecimal | database_manager.py:85 | digits, '.', digits (not both empty) are accepted as the whole part plus the fraction over 10 to the number of fraction digits |
| Decimal.ParseFraction | database_manager.py:85 | a whole numeral, '.', and a zero-padded fraction of w digits denote whole + frac / 10^w |
| Dates.DaysInMonth | database_manager.py:98 | every month has between 28 and 31 days |
| Dates.ParseDayMonthYear | database_manager.py:96-101 | `strptime` with `%d/%m/%Y`, `None` where it raises ValueError; what it accepts and returns is fixed in both directions by ParseDayMonthYearExact |
| Dates.FormatIso | database_manager.py:98-103 | `strftime` with `%Y-%m-%d`; its layout and digit values are given by FormatIsoLayout, and FormatIsoInjective shows it loses nothing |
| Dates.NormalizeDate | database_manager.py:94-101 | the date field's conversion; NormalizeDateSpec states when it succeeds and what text it yields |
| Dates.ParseDayMonthYearSound | database_manager.py:96-101 | whatever the date reader accepts is a valid calendar date in years 1 to 9999, spelled in one of its day/month/year forms |
| Dates.ParseDayMonthYearComplete | database_manager.py:96-101 | every day/month/year spelling of a valid date (one- or two-digit day and month, four-digit year) is read back as that date |
| Dates.ParseDayMonthYearExact | database_manager.py:96-101 | the reader accepts a text as date d if and only if d is valid and the text is one of its spellings |
| Dates.ParseFormatDayMonthYear | database_manager.py:98 | the zero-padded `DD/MM/YYYY` text of every valid date is read back as that date |
| Dates.FormatIsoLayout | database_manager.py:98 | the stored date is ten characters, dashes at positions 4 and 7, and the three digit groups denote year, month and day |
| Dates.FormatIsoInjective | database_manager.py:98 | distinct valid dates are stored as distinct texts |
| Dates.NormalizeDateSpec | database_manager.py:94-101 | a date field is accepted exactly when it spells a valid date, and then becomes that date's `YYYY-MM-DD` text |
| Dates.NormalizeDateRoundTrip | database_manager.py:98 | converting the `DD/MM/YYYY` text of a valid date gives its `YYYY-MM-DD` text |
| ExpenseParser.ValidMethod | database_manager.py:106 | exact, case-sensitive membership in the registry; ParseMethodExact ties acceptance to it |
| ExpenseParser.Validate | database_manager.py:80-115 | the four checks in the code's order on the stripped fields; their outcomes are stated by the Parse lemmas below |
| ExpenseParser.Parse | database_manager.py:72-115 | the whole parser; its outcome is fixed by ParseMalformed, ParseBadAmount, ParseBadDate, ParseUnknownMethod, ParseSucceeds and ParseAccepted |
| ExpenseParser.Fields | database_manager.py:78 | a message always has at least one field |
| ExpenseParser.ParseMalformed | database_manager.py:78-82 | a message is rejected as malformed exactly when it has fewer than two or more than three commas |
| ExpenseParser.ParseBadAmount | database_manager.py:84-88 | a message is rejected for its amount exactly when the field count is right and the stripped first field is not a number |
| ExpenseParser.ParseBadDate | database_manager.py:94-101 | a message is rejected for its date exactly when it has four fields, a good amount and a fourth field that spells no valid date, whatever its payment method |
| ExpenseParser.ParseUnknownMethod | database_manager.py:106-108 | a message is rejected for its payment method exactly when every earlier check passed and the stripped third field is not a registry label |
| ExpenseParser.ParseSucceeds | database_manager.py:80-115 | a message is accepted if and only if it has three or four fields, a number first, a valid date fourth when there is a fourth, and a registry label third |
| ExpenseParser.ParseAccepted | database_manager.py:90-115 | an accepted record holds the first field's value, the second and third fields as stripped, a registered method, and the fourth field's date or today's in `YYYY-MM-DD` form |
| ExpenseParser.ParseDateNormalized | database_manager.py:94-103 | the date of every accepted record is the `YYYY-MM-DD` text of a valid date |
| ExpenseParser.PaymentMethodClean | database_manager.py:7-14 | no registry label holds a comma or surrounding white space, so every label can arrive in a message |
| ExpenseParser.FieldsOfThree | database_manager.py:78 | a message of three comma-free parts has exactly their three stripped texts as fields |
| ExpenseParser.FieldsOfFour | database_manager.py:78 | a message of four comma-free parts has exactly their four stripped texts as fields |
| ExpenseParser.CleanFieldsOfThree | database_manager.py:78 | with amount and method needing no stripping, the fields are those texts and the stripped description |
| ExpenseParser.CleanFieldsOfFour | database_manager.py:78 | the same with a date field that needs no stripping |
| ExpenseParser.CleanLineThree | database_manager.py:78 | three comma-free parts without surrounding white space are the message's fields unchanged |
| ExpenseParser.CleanLineFour | database_manager.py:78 | four such parts are the message's fields unchanged |
| ExpenseParser.ParseUndatedFields | database_manager.py:72-115 | a three-field message with a number, a comma-free description and a registry label is accepted, dated today, description stripped |
| ExpenseParser.ParseDatedFields | database_manager.py:72-115 | a four-field message with a number, a comma-free description, a registry label and a valid date is accepted with the converted date |
| ExpenseParser.ParseUndatedLine | database_manager.py:90-115 | a whole amount, any comma-free description and a registry label are accepted as that amount, dated today |
| ExpenseParser.ParseDatedLine | database_manager.py:90-115 | the same with a valid `DD/MM/YYYY` date, re-emitted as `YYYY-MM-DD` |
| ExpenseParser.ParseMethodExact | database_manager.py:106-108 | for a three-field message with a good amount, acceptance holds if and only if the stripped third field is exactly a registry label (no case folding) |
| ParserExamples.DinnerAmount | database_manager.py:124 | `150.75` is read as the exact decimal 150.75 |
| ParserExamples.DinnerUnknownMethod | database_manager.py:124 | `150.75,Cena con amigos,Tarjeta de Crédito BBVA` is rejected for its payment method |
| ParserExamples.DinnerAccepted | database_manager.py:72-115 | `150.75,Cena con amigos,TC BBVA` is accepted as 150.75, dated today |
| ParserExamples.CoffeeDate | database_manager.py:98 | `12/07/2025` becomes `2025-07-12` |
| ParserExamples.DatedCoffee | database_manager.py:129 | `50,Café,Efectivo,12/07/2025` is accepted as 50, `Café`, `Efectivo`, `2025-07-12` |
| ParserExamples.RentUnknownMethod | database_manager.py:134 | `3000,Alquiler,Transferencia Bancaria` is rejected for its payment method |
| ParserExamples.WordAmount | database_manager.py:141 | `cien,Comida,Efectivo` is rejected for its amount |
| ParserExamples.MissingCard | database_manager.py:142 | `100,Comida,Tarjeta Inexistente` is rejected for its payment method |
| ParserExamples.YesterdayDate | database_manager.py:96-101 | `ayer` is not a date |
| ParserExamples.Yesterday | database_manager.py:143 | `200,Libro,Efectivo,ayer` is rejected for its date |
| ParserExamples.YesterdayAnyMethod | database_manager.py:94-108 | with the date field `ayer` the message is rejected for its date whatever its payment method, registered or not: the date is checked first |
| ParserExamples.TooFewFields | database_manager.py:144 | `50` is rejected as malformed |
| ParserExamples.FiveFields | database_manager.py:78-82 | four commas between comma-free parts make five fields |
| ParserExamples.TooManyFields | database_manager.py:145 | `50,desc,medio,fecha,extra` is rejected as malformed |
| ParserExamples.NegativeAmount | database_manager.py:85 | `-20` is accepted as -20 |
| ParserExamples.EmptyDescription | database_manager.py:90 | `10,,Efectivo` is accepted with an empty description |
| ParserExamples.OneDigitDate | database_manager.py:98 | `1/7/2025` is read as 1 July 2025 |
| ParserExamples.LeapDay | database_manager.py:98 | `29/02/2024` is a valid date |
| ParserExamples.NonLeapDay | database_manager.py:98 | `29/02/2023` is rejected |

## Left out

- The database (`setup_database`, `insertar_gasto` and the queries of `database_manager.py`), the HTTP service of `bot_api.py` and the chat bot of `telegram_bot.py` are not part of this model; they store or forward what the parser returns.
- The error messages the parser prints, including the list of valid labels joined for the help text, are left out; the model returns the reason instead.
- The clock: `datetime.now()` is the parameter `today`.
- Decimal.ParseAmount: Python's `float` also accepts exponents (`1e3`), `inf` and `nan`, digit-group underscores (`1_000`) and non-ASCII digits, and rounds to the nearest binary double; the model accepts only signed decimal numerals and keeps their exact value.
- Dates.ParseDayMonthYear: `strptime` accepts non-ASCII Unicode digits in the four year digits and in the second digit of a day from 10 to 29; the model accepts ASCII digits only. The month, the first digit of the day, and days 30 and 31 are ASCII-only in `strptime` as well.
- Dates.FormatIso: always pads the year to four digits; the C library behind `strftime` may print years below 1000 with fewer digits.
