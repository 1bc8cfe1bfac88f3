/**
 Decimal digit strings: their value, fixed-width zero-padded printing (as
 `strftime` prints `%Y`, `%m` and `%d`), shortest printing, and the amount
 grammar the parser accepts for its first field.
 */
module Decimal {
  import opened Wrappers
  import Text

  predicate IsDigit(c: char)
  {
    '0' <= c <= '9'
  }

  predicate IsDigits(s: string)
  {
    forall i :: 0 <= i < |s| ==> IsDigit(s[i])
  }

  function DigitValue(c: char): nat
    requires IsDigit(c)
  {
    (c as int - '0' as int) as nat
  }

  function DigitChar(d: nat): (c: char)
    requires d < 10
    ensures IsDigit(c) && DigitValue(c) == d
  {
    ('0' as int + d) as char
  }

  function Pow10(n: nat): (p: nat)
    ensures p >= 1
  {
    if n == 0 then 1 else 10 * Pow10(n - 1)
  }

  /** The number a digit string denotes, most significant digit first ("" is 0). */
  function Value(s: string): nat
    requires IsDigits(s)
  {
    if s == [] then 0 else 10 * Value(s[..|s| - 1]) + DigitValue(s[|s| - 1])
  }

  /** A digit string of length `n` denotes a number below 10^n. */
  lemma {:induction false} ValueBound(s: string)
    requires IsDigits(s)
    ensures Value(s) < Pow10(|s|)
  {
    if s != [] {
      ValueBound(s[..|s| - 1]);
    }
  }

  /** The last `w` decimal digits of `n`, with leading zeros. */
  function Pad(n: nat, w: nat): (r: string)
    ensures |r| == w && IsDigits(r)
  {
    if w == 0 then "" else Pad(n / 10, w - 1) + [DigitChar(n % 10)]
  }

  /** Padding to `w` digits keeps exactly the value modulo 10^w. */
  lemma {:induction false} ValuePad(n: nat, w: nat)
    ensures Value(Pad(n, w)) == n % Pow10(w)
  {
    if w > 0 {
      ValuePad(n / 10, w - 1);
      var p := Pad(n, w);
      assert p[..|p| - 1] == Pad(n / 10, w - 1);
      ModDiv(n, Pow10(w - 1));
    }
  }

  /** Taking the last digit off and then reducing modulo m is reducing modulo 10 * m. */
  lemma ModDiv(n: nat, m: nat)
    requires m >= 1
    ensures 10 * ((n / 10) % m) + n % 10 == n % (10 * m)
  {
    var q := (n / 10) / m;
    var r := (n / 10) % m;
    assert n / 10 == q * m + r;
    assert n == q * (10 * m) + (10 * r + n % 10);
    DivModUnique(n, 10 * m, q, 10 * r + n % 10);
  }

  /** Quotient and remainder are unique. */
  lemma DivModUnique(n: int, d: int, q: int, t: int)
    requires d > 0 && 0 <= t < d && n == q * d + t
    ensures n % d == t
  {
    var q0, t0 := n / d, n % d;
    assert (q0 - q) * d == t - t0;
    if q0 > q {
      MulAtLeast(q0 - q, d);
    } else if q0 < q {
      MulAtLeast(q - q0, d);
    }
  }

  lemma MulAtLeast(x: int, d: int)
    requires x >= 1 && d > 0
    ensures x * d >= d
  {
  }

  /** A digit string is its own value padded to its own length. */
  lemma {:induction false} PadValue(s: string)
    requires IsDigits(s)
    ensures Pad(Value(s), |s|) == s
  {
    if s != [] {
      var init := s[..|s| - 1];
      PadValue(init);
      var v := Value(s);
      assert v / 10 == Value(init);
      assert v % 10 == DigitValue(s[|s| - 1]);
      assert s == init + [s[|s| - 1]];
    }
  }

  /** A number below 10^w survives padding to `w` digits. */
  lemma PadRoundTrip(n: nat, w: nat)
    requires n < Pow10(w)
    ensures Value(Pad(n, w)) == n
  {
    ValuePad(n, w);
  }

  /** The shortest decimal numeral of `n` (Python's `str(n)`). */
  function Numeral(n: nat): (r: string)
    ensures |r| >= 1 && IsDigits(r)
  {
    if n < 10 then [DigitChar(n)] else Numeral(n / 10) + [DigitChar(n % 10)]
  }

  lemma {:induction false} ValueNumeral(n: nat)
    ensures Value(Numeral(n)) == n
  {
    if n >= 10 {
      ValueNumeral(n / 10);
      var r := Numeral(n);
      assert r[..|r| - 1] == Numeral(n / 10);
    }
  }

  /** The amount grammar: `[+|-]` followed by `digits[.digits*]` or `.digits`. */
  function ParseUnsigned(s: string): (r: Option<real>)
    ensures r.Some? ==> r.value >= 0.0
  {
    if IsDigits(s) then
      if s == [] then None else Some(Value(s) as real)
    else
      var parts := Text.Split(s, '.');
      if |parts| != 2 then None
      else
        var whole, frac := parts[0], parts[1];
        if !IsDigits(whole) || !IsDigits(frac) || whole + frac == [] then None
        else Some(DecimalValue(whole, frac))
  }

  /** The number `whole.frac` denotes. */
  function DecimalValue(whole: string, frac: string): (v: real)
    requires IsDigits(whole) && IsDigits(frac)
    ensures v >= 0.0
  {
    Value(whole) as real + Value(frac) as real / Pow10(|frac|) as real
  }

  /**
   The first field's number: an optional sign, then an unsigned decimal. The
   value is the exact decimal the text denotes.
   */
  function ParseAmount(s: string): (r: Option<real>)
  {
    if s != [] && (s[0] == '+' || s[0] == '-') then
      match ParseUnsigned(s[1..])
      case None => None
      case Some(v) => Some(if s[0] == '-' then -v else v)
    else ParseUnsigned(s)
  }

  predicate IsAmountChar(c: char)
  {
    IsDigit(c) || c == '.' || c == '+' || c == '-'
  }

  /**
   `s` is the unsigned amount `a.b` (or `a` alone when `b` is empty), with at
   least one digit, and `v` is the number it denotes.
   */
  ghost predicate UnsignedForm(s: string, a: string, b: string, v: real)
  {
    IsDigits(a) && IsDigits(b) && a + b != []
    && (s == a + "." + b || (b == [] && s == a))
    && v == DecimalValue(a, b)
  }

  /** `s` is an optional sign `sg` followed by the unsigned amount `a.b`, and `v` its signed value. */
  ghost predicate AmountForm(s: string, sg: string, a: string, b: string, v: real)
  {
    (sg == "" || sg == "+" || sg == "-")
    && IsDigits(a) && IsDigits(b) && a + b != []
    && (s == sg + a + "." + b || (b == [] && s == sg + a))
    && v == (if sg == "-" then -DecimalValue(a, b) else DecimalValue(a, b))
  }

  /** Whatever the unsigned reader accepts is digits, an optional '.', digits, with their value. */
  lemma UnsignedSound(s: string, v: real)
    requires ParseUnsigned(s) == Some(v)
    ensures exists a, b :: UnsignedForm(s, a, b, v)
  {
    if IsDigits(s) {
      assert UnsignedForm(s, s, [], v);
    } else {
      var parts := Text.Split(s, '.');
      Text.JoinSplit(s, '.');
      assert s == parts[0] + "." + parts[1];
      assert UnsignedForm(s, parts[0], parts[1], v);
    }
  }

  /** Every unsigned amount form is accepted with its value. */
  lemma UnsignedComplete(s: string, a: string, b: string, v: real)
    requires UnsignedForm(s, a, b, v)
    ensures ParseUnsigned(s) == Some(v)
  {
    if s == a + "." + b {
      ParseDecimal(a, b);
    }
  }

  /**
   Whatever the amount reader accepts is an optional sign and an unsigned
   amount, and its value is that amount's, negated after '-'.
   */
  lemma ParseAmountSound(s: string, v: real)
    requires ParseAmount(s) == Some(v)
    ensures exists sg, a, b :: AmountForm(s, sg, a, b, v)
  {
    if s != [] && (s[0] == '+' || s[0] == '-') {
      var u := ParseUnsigned(s[1..]).value;
      UnsignedSound(s[1..], u);
      var a, b :| UnsignedForm(s[1..], a, b, u);
      var sg := [s[0]];
      assert s == sg + s[1..];
      assert AmountForm(s, sg, a, b, v);
    } else {
      UnsignedSound(s, v);
      var a, b :| UnsignedForm(s, a, b, v);
      assert s == "" + s;
      assert AmountForm(s, "", a, b, v);
    }
  }

  /** Every signed amount form is accepted with its signed value. */
  lemma ParseAmountComplete(s: string, sg: string, a: string, b: string, v: real)
    requires AmountForm(s, sg, a, b, v)
    ensures ParseAmount(s) == Some(v)
  {
    var u := if s == sg + a + "." + b then a + "." + b else a;
    assert s == sg + u;
    assert UnsignedForm(u, a, b, DecimalValue(a, b));
    UnsignedComplete(u, a, b, DecimalValue(a, b));
    if sg == "" {
      assert s == u;
      if a != [] {
        assert u[0] == a[0] && IsDigit(a[0]);
      } else {
        assert u == "." + b;
      }
    } else {
      assert s[1..] == u;
    }
  }

  /**
   The amount grammar exactly: a text is accepted with value `v` if and only
   if it is an optional sign and an unsigned amount, with `v` its signed value.
   */
  lemma ParseAmountExact(s: string, v: real)
    ensures ParseAmount(s) == Some(v) <==> exists sg, a, b :: AmountForm(s, sg, a, b, v)
  {
    if ParseAmount(s) == Some(v) {
      ParseAmountSound(s, v);
    }
    if exists sg, a, b :: AmountForm(s, sg, a, b, v) {
      var sg, a, b :| AmountForm(s, sg, a, b, v);
      ParseAmountComplete(s, sg, a, b, v);
    }
  }

  /** An accepted amount is non-empty text drawn only from digits, '.', '+' and '-'. */
  lemma AmountAlphabet(s: string)
    requires ParseAmount(s).Some?
    ensures s != [] && forall i :: 0 <= i < |s| ==> IsAmountChar(s[i])
  {
    var v := ParseAmount(s).value;
    ParseAmountSound(s, v);
    var sg, a, b :| AmountForm(s, sg, a, b, v);
    var u := if s == sg + a + "." + b then a + "." + b else a;
    assert s == sg + u;
    forall i | 0 <= i < |s|
      ensures IsAmountChar(s[i])
    {
      if i < |sg| {
        assert s[i] == sg[i];
      } else if i < |sg| + |a| {
        assert s[i] == a[i - |sg|];
      } else if i > |sg| + |a| {
        assert s[i] == b[i - |sg| - |a| - 1];
      }
    }
  }

  /** Every natural number's numeral is accepted with its own value. */
  lemma ParseNumeral(n: nat)
    ensures ParseAmount(Numeral(n)) == Some(n as real)
  {
    ValueNumeral(n);
  }

  /** A leading '-' negates an unsigned amount: negative amounts are accepted. */
  lemma ParseNegated(s: string)
    requires s == [] || (s[0] != '+' && s[0] != '-')
    ensures ParseAmount(['-'] + s) == (match ParseAmount(s)
                                       case None => None
                                       case Some(v) => Some(-v))
  {
    assert (['-'] + s)[1..] == s;
  }

  /** Digits, '.', digits (not both empty) denote the whole part plus the fraction. */
  lemma ParseDecimal(a: string, b: string)
    requires IsDigits(a) && IsDigits(b) && a + b != []
    ensures ParseUnsigned(a + "." + b) == Some(DecimalValue(a, b))
  {
    var s := a + "." + b;
    assert s == Text.Join([a, b], '.');
    assert forall i :: 0 <= i < |[a, b]| ==> '.' !in [a, b][i];
    Text.SplitJoin([a, b], '.');
    assert s[|a|] == '.' && !IsDigit(s[|a|]);
  }

  /**
   A whole numeral, '.', and `frac` written with `w` digits (leading zeros
   allowed) denote whole + frac / 10^w.
   */
  lemma ParseFraction(s: string, whole: nat, frac: nat, w: nat)
    requires w >= 1 && frac < Pow10(w) && s == Numeral(whole) + "." + Pad(frac, w)
    ensures ParseAmount(s) == Some(whole as real + frac as real / Pow10(w) as real)
  {
    var a, b := Numeral(whole), Pad(frac, w);
    ParseDecimal(a, b);
    ValueNumeral(whole);
    PadRoundTrip(frac, w);
    assert s[0] == a[0] && IsDigit(a[0]);
  }
}
