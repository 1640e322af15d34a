/**
 * PHP 8 numeric strings: how the engine reads a number out of text when a string is
 * compared with an integer (`$s > 0`) or cast with `(int)`. A numeric string is optional
 * whitespace, an optional sign, digits with an optional decimal point (or a point followed
 * by digits), an optional exponent, and optional whitespace. Integer forms that fit in 64
 * bits are read exactly; everything else is read as a double.
 */
module NumericStrings {
  import opened Wrappers
  import opened Text

  /** The whitespace PHP 8 allows before and after a numeric string. */
  predicate IsNumericSpace(c: char)
  {
    c == ' ' || c == '\t' || c == '\n' || c == '\r' || c == '\U{B}' || c == '\U{C}'
  }

  predicate AllSpaces(s: string) { forall i :: 0 <= i < |s| ==> IsNumericSpace(s[i]) }

  const LongMax: int := 0x7FFF_FFFF_FFFF_FFFF
  const LongMin: int := -0x8000_0000_0000_0000

  /** 2^1024 - 2^970: the least magnitude that a decimal rounds to an infinite double. */
  const DoubleOverflow: int := 179769313486231580793728971405303415079934132710037826936173778980444968292764750946649017977587207096330286416692887910946555547851940402630657488671505820681908902000708383676273854845817711531764475730270069855571366959622842914819860834936475292719074168444365510704342711559699508093042880177904174497792

  /** 2^1075: a decimal of magnitude at most 1 / 2^1075 rounds to the double 0. */
  const TwoTo1075: int := 404804506614621236704990693437834614099113299528284236713802716054860679135990693783920767402874248990374155728633623822779617474771586953734026799881477019843034848553132722728933815484186432682479535356945490137124014966849385397236206711298319112681620113024717539104666829230461005064372655017292012526615415482186989568

  function Pow10(e: nat): (r: nat)
    ensures r > 0
  {
    if e == 0 then 1 else 10 * Pow10(e - 1)
  }

  /**
   * A decimal number as it is written: the sign, the digits before the point, the digits
   * after the point when there is one, and the exponent when there is one.
   */
  datatype Numeral = Numeral(negative: bool, whole: string, fraction: Option<string>, exponent: Option<int>)
  {
    function FractionDigits(): string { fraction.GetOr("") }

    /** Only digits, and at least one of them before or after the point. */
    predicate Valid()
    {
      AllDigits(whole) && AllDigits(FractionDigits()) && whole + FractionDigits() != ""
    }

    /** The digits read as one integer; the magnitude is this times 10 to the power Scale(). */
    function Mantissa(): nat
      requires Valid()
    {
      DecimalValue(whole + FractionDigits())
    }

    function Scale(): int { exponent.GetOr(0) - |FractionDigits()| }

    /**
     * The magnitude with its fraction cut off: the digits that stand before the decimal point
     * once the exponent has moved it, read as an integer.
     */
    function IntegerPart(): nat
      requires Valid()
    {
      var digits := whole + FractionDigits();
      if Scale() >= 0 then Mantissa() * Pow10(Scale())
      else if -Scale() >= |digits| then 0
      else DecimalValue(digits[..|digits| + Scale()])
    }
  }

  /** No digit is non-zero, or the magnitude is at most 1 / 2^1075: the number reads as the double 0. */
  predicate RoundsToZero(n: Numeral)
    requires n.Valid()
  {
    n.Mantissa() == 0 || (n.Scale() < 0 && n.Mantissa() * TwoTo1075 <= Pow10(-n.Scale()))
  }

  /** The magnitude is at least 2^1024 - 2^970 (an integer), so the number reads as an infinite double. */
  predicate Overflows(n: Numeral)
    requires n.Valid()
  {
    n.IntegerPart() >= DoubleOverflow
  }

  /** The number with its fraction cut off, toward zero. */
  function Truncated(n: Numeral): int
    requires n.Valid()
  {
    var m: int := n.IntegerPart();
    if n.negative then -m else m
  }

  /** A number outside the 64-bit range becomes the nearest end of that range. */
  function Saturated(m: int): (r: int)
    ensures LongMin <= r <= LongMax
    ensures LongMin <= m <= LongMax ==> r == m
  {
    if m > LongMax then LongMax else if m < LongMin then LongMin else m
  }

  // ---------------------------------------------------------------------------
  // Scanning: each step reads a part of the text and gives back what follows it

  /** The text after its leading whitespace. */
  function SkipSpaces(s: string): (r: string)
    ensures |r| <= |s|
  {
    if s != [] && IsNumericSpace(s[0]) then SkipSpaces(s[1..]) else s
  }

  /** The leading digits of `s`, and what follows them. */
  function DigitRun(s: string): (r: (string, string))
    ensures AllDigits(r.0) && r.0 + r.1 == s
  {
    if s != [] && IsDigit(s[0]) then
      var (digits, rest) := DigitRun(s[1..]);
      assert [s[0]] + digits + rest == s;
      ([s[0]] + digits, rest)
    else ([], s)
  }

  /** An optional '-' or '+' at the start: whether it was '-', and what follows it. */
  function Sign(s: string): (r: (bool, string))
  {
    if s != [] && (s[0] == '-' || s[0] == '+') then (s[0] == '-', s[1..]) else (false, s)
  }

  /**
   * An exponent: 'e' or 'E', an optional sign and at least one digit, and what follows it.
   * A marker without digits is not part of the number.
   */
  function ExponentPart(s: string): (r: (Option<int>, string))
  {
    if s != [] && (s[0] == 'e' || s[0] == 'E') then
      var (negative, t) := Sign(s[1..]);
      var (digits, rest) := DigitRun(t);
      if digits == [] then (None, s)
      else
        var magnitude: int := DecimalValue(digits);
        (Some(if negative then -magnitude else magnitude), rest)
    else (None, s)
  }

  /**
   * The number at the start of `s` after leading whitespace, and the text after it, or None
   * when `s` does not start with a number.
   */
  function NumericPrefix(s: string): (r: Option<(Numeral, string)>)
    ensures r.Some? ==> r.value.0.Valid()
  {
    var (negative, t) := Sign(SkipSpaces(s));
    UnsignedPrefix(negative, t)
  }

  /** The digits, point and exponent of a number after its sign, and the text after them. */
  function UnsignedPrefix(negative: bool, t: string): (r: Option<(Numeral, string)>)
    ensures r.Some? ==> r.value.0.Valid() && r.value.0.negative == negative
  {
    var (whole, u) := DigitRun(t);
    if u != [] && u[0] == '.' then
      var (fraction, v) := DigitRun(u[1..]);
      if whole + fraction == [] then None
      else
        var (exponent, rest) := ExponentPart(v);
        Some((Numeral(negative, whole, Some(fraction), exponent), rest))
    else if whole == [] then None
    else
      var (exponent, rest) := ExponentPart(u);
      Some((Numeral(negative, whole, None, exponent), rest))
  }

  /** The number `s` is, when the whole of it, trailing whitespace aside, is numeric. */
  function NumericString(s: string): (r: Option<Numeral>)
    ensures r.Some? ==> r.value.Valid()
  {
    match NumericPrefix(s)
    case None => None
    case Some((n, rest)) => if SkipSpaces(rest) == [] then Some(n) else None
  }

  /**
   * `(int) $s`: the number at the start of the string, whatever follows it; no number gives
   * 0. A number that does not fit in 64 bits is read as a double, and a double is cast by
   * truncation, saturating at the ends of the 64-bit range, with infinity giving 0.
   */
  function IntCast(s: string): int
  {
    match NumericPrefix(s)
    case None => 0
    case Some((n, _)) => if Overflows(n) then 0 else Saturated(Truncated(n))
  }

  // ---------------------------------------------------------------------------
  // Printing numerals, and reading them back

  function SignText(negative: bool): string { if negative then "-" else "" }

  function FractionText(fraction: Option<string>): string
  {
    match fraction
    case None => ""
    case Some(digits) => "." + digits
  }

  function ExponentText(exponent: Option<int>): string
  {
    match exponent
    case None => ""
    case Some(e) => "e" + IntToString(e)
  }

  /** The numeral written out: sign, digits, point and fraction, exponent. */
  function NumeralText(n: Numeral): string
  {
    SignText(n.negative) + n.whole + FractionText(n.fraction) + ExponentText(n.exponent)
  }

  /** A character that would continue a number: a digit, a point or an exponent marker. */
  predicate ContinuesNumber(c: char)
  {
    IsDigit(c) || c == '.' || c == 'e' || c == 'E'
  }

  lemma {:induction false} SkipSpacesOf(pre: string, t: string)
    requires AllSpaces(pre)
    requires t != [] ==> !IsNumericSpace(t[0])
    ensures SkipSpaces(pre + t) == t
  {
    if pre != [] {
      assert (pre + t)[1..] == pre[1..] + t;
      SkipSpacesOf(pre[1..], t);
    }
  }

  lemma {:induction false} DigitRunOf(digits: string, t: string)
    requires AllDigits(digits)
    requires t != [] ==> !IsDigit(t[0])
    ensures DigitRun(digits + t) == (digits, t)
  {
    if digits == [] {
      assert digits + t == t;
    } else {
      assert (digits + t)[0] == digits[0];
      assert (digits + t)[1..] == digits[1..] + t;
      DigitRunOf(digits[1..], t);
      assert [digits[0]] + digits[1..] == digits;
    }
  }

  /** A printed sign (or none) before text that starts with no sign is read back. */
  lemma SignOf(negative: bool, t: string)
    requires t != [] && t[0] != '-' && t[0] != '+'
    ensures Sign(SignText(negative) + t) == (negative, t)
  {
    if negative {
      assert (SignText(negative) + t)[1..] == t;
    } else {
      assert SignText(negative) + t == t;
    }
  }

  /** A printed exponent is read back, and what follows it is left over. */
  lemma ExponentPartOf(exponent: Option<int>, rest: string)
    requires rest != [] ==> !ContinuesNumber(rest[0])
    ensures ExponentPart(ExponentText(exponent) + rest) == (exponent, rest)
  {
    match exponent
    case None =>
      assert ExponentText(exponent) + rest == rest;
    case Some(e) =>
      var magnitude: nat := if e < 0 then -e else e;
      var digits := NatToString(magnitude);
      assert ExponentText(exponent) + rest == "e" + (SignText(e < 0) + (digits + rest));
      SignedExponentOf(e < 0, magnitude, rest);
  }

  lemma SignedExponentOf(negative: bool, magnitude: nat, rest: string)
    requires rest != [] ==> !IsDigit(rest[0])
    requires negative ==> magnitude > 0
    ensures var digits := NatToString(magnitude);
      ExponentPart("e" + (SignText(negative) + (digits + rest)))
        == (Some(if negative then -(magnitude as int) else magnitude), rest)
  {
    var digits := NatToString(magnitude);
    var s := "e" + (SignText(negative) + (digits + rest));
    assert s[0] == 'e' && s[1..] == SignText(negative) + (digits + rest);
    assert (digits + rest)[0] == digits[0];
    SignOf(negative, digits + rest);
    DigitRunOf(digits, rest);
    DecimalOfNatToString(magnitude);
  }

  /**
   * Every valid numeral, after any whitespace and before anything that cannot continue it,
   * is read back as itself, and the text after it is left over.
   */
  lemma NumeralRoundTrip(n: Numeral, pre: string, rest: string)
    requires n.Valid() && AllSpaces(pre)
    requires rest != [] ==> !ContinuesNumber(rest[0])
    ensures NumericPrefix(pre + NumeralText(n) + rest) == Some((n, rest))
  {
    var number := n.whole + (FractionText(n.fraction) + (ExponentText(n.exponent) + rest));
    var signed := SignText(n.negative) + number;
    assert pre + NumeralText(n) + rest == pre + signed by {
      NumeralTextThenRest(n, rest);
      Associative(pre, NumeralText(n), rest);
    }
    assert number[0] == if n.whole != [] then n.whole[0] else '.';
    assert Sign(signed) == (n.negative, number) by {
      SignOf(n.negative, number);
    }
    assert SkipSpaces(pre + signed) == signed by {
      assert !IsNumericSpace(signed[0]);
      SkipSpacesOf(pre, signed);
    }
    UnsignedRoundTrip(n, rest);
  }

  /** A numeral's text followed by more text, grouped from the right. */
  lemma NumeralTextThenRest(n: Numeral, rest: string)
    ensures NumeralText(n) + rest
      == SignText(n.negative) + (n.whole + (FractionText(n.fraction) + (ExponentText(n.exponent) + rest)))
  {
    var sign, whole, fraction, exponent := SignText(n.negative), n.whole, FractionText(n.fraction), ExponentText(n.exponent);
    Associative(sign + whole + fraction, exponent, rest);
    Associative(sign + whole, fraction, exponent + rest);
    Associative(sign, whole, fraction + (exponent + rest));
  }

  lemma Associative(a: string, b: string, c: string)
    ensures a + b + c == a + (b + c)
  {
  }

  /** The digits, point and exponent of a valid numeral are read back. */
  lemma UnsignedRoundTrip(n: Numeral, rest: string)
    requires n.Valid()
    requires rest != [] ==> !ContinuesNumber(rest[0])
    ensures UnsignedPrefix(n.negative, n.whole + (FractionText(n.fraction) + (ExponentText(n.exponent) + rest)))
      == Some((n, rest))
  {
    var tail := ExponentText(n.exponent) + rest;
    assert ExponentPart(tail) == (n.exponent, rest) by {
      ExponentPartOf(n.exponent, rest);
    }
    assert tail != [] ==> !IsDigit(tail[0]) && tail[0] != '.' by {
      if ExponentText(n.exponent) != [] {
        assert tail[0] == 'e';
      }
    }
    if n.fraction.None? {
      WholeRoundTrip(n, tail, rest);
    } else {
      FractionRoundTrip(n, tail, rest);
    }
  }

  /** A numeral without a point: its digits, then the exponent part `tail`. */
  lemma WholeRoundTrip(n: Numeral, tail: string, rest: string)
    requires n.Valid() && n.fraction.None?
    requires ExponentPart(tail) == (n.exponent, rest)
    requires tail != [] ==> !IsDigit(tail[0]) && tail[0] != '.'
    ensures UnsignedPrefix(n.negative, n.whole + (FractionText(n.fraction) + tail)) == Some((n, rest))
  {
    assert FractionText(n.fraction) + tail == tail;
    DigitRunOf(n.whole, tail);
  }

  /** A numeral with a point: its digits, the point and the fraction's digits, then the exponent part `tail`. */
  lemma FractionRoundTrip(n: Numeral, tail: string, rest: string)
    requires n.Valid() && n.fraction.Some?
    requires ExponentPart(tail) == (n.exponent, rest)
    requires tail != [] ==> !IsDigit(tail[0]) && tail[0] != '.'
    ensures UnsignedPrefix(n.negative, n.whole + (FractionText(n.fraction) + tail)) == Some((n, rest))
  {
    var digits := n.fraction.value;
    var afterWhole := FractionText(n.fraction) + tail;
    assert afterWhole[0] == '.' && afterWhole[1..] == digits + tail by {
      assert afterWhole == "." + (digits + tail);
    }
    assert DigitRun(n.whole + afterWhole) == (n.whole, afterWhole) by {
      DigitRunOf(n.whole, afterWhole);
    }
    assert DigitRun(afterWhole[1..]) == (digits, tail) by {
      DigitRunOf(digits, tail);
    }
  }

  /** A valid numeral with whitespace around it is a numeric string, and denotes itself. */
  lemma NumericStringOfText(n: Numeral, pre: string, post: string)
    requires n.Valid() && AllSpaces(pre) && AllSpaces(post)
    ensures NumericString(pre + NumeralText(n) + post) == Some(n)
  {
    if post != [] {
      assert IsNumericSpace(post[0]);
    }
    NumeralRoundTrip(n, pre, post);
    assert post + [] == post;
    SkipSpacesOf(post, []);
  }

  /** `(int)` of a numeral after whitespace and before other text reads the numeral alone. */
  lemma IntCastOfText(n: Numeral, pre: string, rest: string)
    requires n.Valid() && AllSpaces(pre)
    requires rest != [] ==> !ContinuesNumber(rest[0])
    ensures !Overflows(n) ==> IntCast(pre + NumeralText(n) + rest) == Saturated(Truncated(n))
    ensures Overflows(n) ==> IntCast(pre + NumeralText(n) + rest) == 0
  {
    NumeralRoundTrip(n, pre, rest);
  }

  /** An integer's numeral: no point and no exponent. */
  function IntegerNumeral(m: int): (n: Numeral)
    ensures n.Valid()
  {
    Numeral(m < 0, NatToString(if m < 0 then -m else m), None, None)
  }

  lemma IntegerNumeralText(m: int)
    ensures NumeralText(IntegerNumeral(m)) == IntToString(m)
    ensures IntegerNumeral(m).Mantissa() == (if m < 0 then -m else m)
    ensures IntegerNumeral(m).IntegerPart() == (if m < 0 then -m else m)
    ensures Truncated(IntegerNumeral(m)) == m
  {
    var n := IntegerNumeral(m);
    assert n.whole + n.FractionDigits() == n.whole;
    DecimalOfNatToString(if m < 0 then -m else m);
  }

  /**
   * `(int)` reads back a printed integer, skipping whitespace before it and ignoring what
   * follows it: inside the 64-bit range
   * the integer itself, beyond it the nearer end of the range, and 0 once the number is too
   * large even for a double.
   */
  lemma IntCastOfIntToString(m: int, pre: string, rest: string)
    requires AllSpaces(pre)
    requires rest != [] ==> !ContinuesNumber(rest[0])
    ensures -DoubleOverflow < m < DoubleOverflow ==> IntCast(pre + IntToString(m) + rest) == Saturated(m)
    ensures LongMin <= m <= LongMax ==> IntCast(pre + IntToString(m) + rest) == m
    ensures (m <= -DoubleOverflow || DoubleOverflow <= m) ==> IntCast(pre + IntToString(m) + rest) == 0
  {
    IntegerNumeralText(m);
    IntCastOfText(IntegerNumeral(m), pre, rest);
  }

  /** `(int)` of a numeral's text alone. */
  lemma IntCastOfNumeral(n: Numeral)
    requires n.Valid()
    ensures IntCast(NumeralText(n)) == if Overflows(n) then 0 else Saturated(Truncated(n))
  {
    assert "" + NumeralText(n) + "" == NumeralText(n);
    IntCastOfText(n, "", "");
  }

  /** `(int)` with a fraction: the digits after the point are dropped, toward zero. */
  lemma IntCastDropsFraction(m: nat, digits: string)
    requires AllDigits(digits) && m < DoubleOverflow
    ensures IntCast(NatToString(m) + "." + digits) == Saturated(m)
    ensures IntCast("-" + NatToString(m) + "." + digits) == Saturated(-(m as int))
  {
    var whole := NatToString(m);
    var plus := Numeral(false, whole, Some(digits), None);
    var minus := Numeral(true, whole, Some(digits), None);
    assert plus.IntegerPart() == m && minus.IntegerPart() == m by {
      assert plus.FractionDigits() == minus.FractionDigits() == digits;
      assert plus.Scale() == minus.Scale() == -|digits|;
      DecimalOfNatToString(m);
      if digits == [] {
        assert whole + digits == whole;
      } else {
        assert (whole + digits)[..|whole|] == whole;
      }
    }
    assert NumeralText(plus) == NatToString(m) + "." + digits by {
      assert NumeralText(plus) == "" + whole + ("." + digits) + "";
      Associative(whole, ".", digits);
    }
    assert NumeralText(minus) == "-" + NatToString(m) + "." + digits by {
      assert NumeralText(minus) == "-" + whole + ("." + digits) + "";
      Associative("-" + whole, ".", digits);
    }
    IntCastOfNumeral(plus);
    IntCastOfNumeral(minus);
  }

  /** `(int)` with an exponent: the number is scaled by the power of ten before the cast. */
  lemma IntCastScientific(m: nat, e: nat)
    requires m * Pow10(e) < DoubleOverflow
    ensures IntCast(NatToString(m) + "e" + NatToString(e)) == Saturated(m * Pow10(e))
  {
    var n := Numeral(false, NatToString(m), None, Some(e));
    var value := m * Pow10(e);
    assert IntCast(NumeralText(n)) == Saturated(value) by {
      ScientificValue(m, e);
      IntCastOfNumeral(n);
    }
    assert NumeralText(n) == NatToString(m) + "e" + NatToString(e) by {
      ScientificText(m, e);
    }
  }

  lemma ScientificText(m: nat, e: nat)
    ensures NumeralText(Numeral(false, NatToString(m), None, Some(e))) == NatToString(m) + "e" + NatToString(e)
  {
    var digits, power := NatToString(m), NatToString(e);
    calc {
      NumeralText(Numeral(false, digits, None, Some(e)));
      "" + digits + "" + ExponentText(Some(e));
      { assert "" + digits + "" == digits; }
      digits + ExponentText(Some(e));
      { assert IntToString(e) == power; }
      digits + ("e" + power);
      { Associative(digits, "e", power); }
      digits + "e" + power;
    }
  }

  lemma ScientificValue(m: nat, e: nat)
    ensures Numeral(false, NatToString(m), None, Some(e)).Valid()
    ensures Numeral(false, NatToString(m), None, Some(e)).IntegerPart() == m * Pow10(e)
  {
    var n := Numeral(false, NatToString(m), None, Some(e));
    assert n.whole + n.FractionDigits() == n.whole;
    DecimalOfNatToString(m);
  }

  lemma SmallNatToString(d: nat)
    requires d < 10
    ensures NatToString(d) == [DigitChar(d)] && IntToString(d) == [DigitChar(d)]
  {
  }

  /** A number with an exponent is scaled before the cast: `(int) "1e3"` is 1000. */
  lemma IntCastThousandExample()
    ensures IntCast("1e3") == 1000
  {
    var thousand := Numeral(false, "1", None, Some(3));
    assert NumeralText(thousand) == "1e3" by {
      SmallNatToString(3);
      assert DigitChar(3) == '3';
    }
    assert thousand.IntegerPart() == 1000 by {
      assert Pow10(3) == 1000 by {
        assert Pow10(1) == 10 && Pow10(2) == 100;
      }
      assert thousand.whole + thousand.FractionDigits() == "1";
    }
    IntCastOfNumeral(thousand);
  }

  /** `(int) "2.5e1"` is 25: the exponent moves the fraction's digit into the integer part. */
  lemma IntCastTwentyFiveExample()
    ensures IntCast("2.5e1") == 25
  {
    var twentyFive := Numeral(false, "2", Some("5"), Some(1));
    assert NumeralText(twentyFive) == "2.5e1" by {
      SmallNatToString(1);
      assert DigitChar(1) == '1';
    }
    assert twentyFive.IntegerPart() == 25 by {
      assert twentyFive.whole + twentyFive.FractionDigits() == "25";
      assert "25"[..2] == "25";
    }
    IntCastOfNumeral(twentyFive);
  }

  /** The cast skips leading whitespace and stops where the number ends. */
  lemma IntCastMinutesExample()
    ensures IntCast(" 5 minutes") == 5
  {
    assert " " + IntToString(5) + " minutes" == " 5 minutes" by {
      SmallNatToString(5);
      assert DigitChar(5) == '5';
    }
    assert AllSpaces(" ");
    IntCastOfIntToString(5, " ", " minutes");
  }

  /** The cast drops a fraction: `(int) "1.9"` is 1. */
  lemma IntCastFractionExample()
    ensures IntCast("1.9") == 1
  {
    assert NatToString(1) + "." + "9" == "1.9" by {
      SmallNatToString(1);
      assert DigitChar(1) == '1';
    }
    IntCastDropsFraction(1, "9");
  }

  /** A string with no numeric prefix casts to 0. */
  lemma IntCastWordExample()
    ensures IntCast("abc") == 0
  {
    assert NumericPrefix("abc").None? by {
      assert SkipSpaces("abc") == "abc";
      assert DigitRun("abc") == ([], "abc");
    }
  }
}
