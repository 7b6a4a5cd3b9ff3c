/** Numbers as text: decimal digits, the numerals that JavaScript writes, and a reader of JSON numbers. */
module Numerals {
  import opened Texts
  import opened Sequences
  import opened Wrappers

  predicate IsDigit(c: char) {
    '0' <= c <= '9'
  }

  type DigitText = text: string | Only(text, IsDigit)

  function Digit(d: nat): char
    requires d < 10
  {
    '0' + d as char
  }

  function Front(n: nat): string
    decreases n, 0
  {
    if n < 10 then "" else Digits(n / 10)
  }

  function Digits(n: nat): string
    decreases n, 1
  {
    Front(n) + [Digit(n % 10)]
  }

  function Decimal(n: int): string {
    if n < 0 then "-" + Digits(-n) else Digits(n)
  }

  lemma {:induction false} DigitsAreDigits(n: nat)
    ensures Only(Digits(n), IsDigit) && Only(Front(n), IsDigit) && Digits(n) != ""
  {
    if n < 10 {
    } else {
      DigitsAreDigits(n / 10);
    }
  }

  /** The number that decimal digits denote. */
  function Denoted(text: DigitText): nat {
    if text == "" then 0 else 10 * Denoted(text[..|text| - 1]) + (text[|text| - 1] - '0') as nat
  }

  lemma DenotedLast(front: DigitText, d: nat)
    requires d < 10
    ensures Only(front + [Digit(d)], IsDigit) && Denoted(front + [Digit(d)]) == 10 * Denoted(front) + d
  {
    assert (front + [Digit(d)])[..|front|] == front;
  }

  lemma {:induction false} DigitsDenote(n: nat)
    ensures Only(Digits(n), IsDigit) && Denoted(Digits(n)) == n
  {
    DigitsAreDigits(n);
    DenotedLast(Front(n), n % 10);
    if n < 10 {
      assert Denoted("") == 0;
    } else {
      DigitsDenote(n / 10);
    }
  }

  /** A numeral of several digits does not begin with a zero. */
  lemma {:induction false} FirstDigit(n: nat)
    ensures Digits(n) != "" && (Digits(n)[0] == '0' <==> n == 0)
  {
    if n < 10 {
    } else {
      FirstDigit(n / 10);
    }
  }

  lemma {:induction false} DenotesMore(text: DigitText)
    requires text != "" && text[0] != '0'
    ensures Denoted(text) > 0
  {
    if |text| > 1 {
      DenotesMore(text[..|text| - 1]);
    }
  }

  /** Digits without a leading zero. */
  predicate IsPlain(text: string) {
    text != "" && Only(text, IsDigit) && (text[0] == '0' ==> |text| == 1)
  }

  lemma LastDigit(c: char)
    requires IsDigit(c)
    ensures Digit((c - '0') as nat) == c
  {
  }

  lemma {:induction false} PlainIsDigits(text: DigitText)
    requires IsPlain(text)
    ensures Digits(Denoted(text)) == text
  {
    var front, last := text[..|text| - 1], text[|text| - 1];
    LastDigit(last);
    FrontAndLast(text);
    if front == "" {
      assert Denoted(front) == 0;
    } else {
      DenotesMore(front);
      PlainIsDigits(front);
    }
  }

  /** The plain digits are the decimal texts of the natural numbers. */
  lemma PlainIff(text: string, n: nat)
    ensures text == Digits(n) <==> IsPlain(text) && Denoted(text) == n
  {
    DigitsDenote(n);
    DigitsAreDigits(n);
    FirstDigit(n);
    if IsPlain(text) {
      PlainIsDigits(text);
    }
  }

  // ---------------------------------------------------------------------------
  // Numerals

  /** The parts of what `Number::toString` writes for a finite number: sign, digits before and after the point, and
      the exponent, if there is one. */
  datatype Numeral = Numeral(negative: bool, whole: nat, fraction: DigitText, exponent: int)

  function Integer(n: int): Numeral {
    Numeral(n < 0, if n < 0 then -n else n, "", 0)
  }

  function FractionText(fraction: DigitText): string {
    if fraction == "" then "" else "." + fraction
  }

  function ExponentText(exponent: int): string {
    if exponent == 0 then ""
    else
      "e" + (if exponent < 0 then "-" else "+") + Digits(if exponent < 0 then -exponent else exponent)
  }

  function Unsigned(x: Numeral): string {
    Digits(x.whole) + (FractionText(x.fraction) + ExponentText(x.exponent))
  }

  function NumeralText(x: Numeral): string {
    (if x.negative then "-" else "") + Unsigned(x)
  }

  predicate InNumeral(c: char) {
    IsDigit(c) || c == '-' || c == '+' || c == '.' || c == 'e' || c == 'E'
  }

  // ---------------------------------------------------------------------------
  // Reading numbers, by section 6 of RFC 8259

  function LeadingDigits(s: string): (text: DigitText)
    ensures |text| <= |s|
  {
    if s != "" && IsDigit(s[0]) then [s[0]] + LeadingDigits(s[1..]) else ""
  }

  function AfterDigits(s: string): string {
    s[|LeadingDigits(s)|..]
  }

  /** A zero, or digits that do not begin with one. */
  function ReadWhole(s: string): (read: Option<(nat, string)>)
    ensures read.Some? ==> |read.value.1| < |s|
  {
    if s == "" || !IsDigit(s[0]) then None
    else if s[0] == '0' then Some((0, s[1..]))
    else Some((Denoted(LeadingDigits(s)), AfterDigits(s)))
  }

  function ReadFraction(s: string): (read: Option<(DigitText, string)>)
    ensures read.Some? ==> |read.value.1| <= |s|
  {
    if s == "" || s[0] != '.' then Some(("", s))
    else if LeadingDigits(s[1..]) == "" then None
    else Some((LeadingDigits(s[1..]), AfterDigits(s[1..])))
  }

  function ReadExponent(s: string): (read: Option<(int, string)>)
    ensures read.Some? ==> |read.value.1| <= |s|
  {
    if s == "" || (s[0] != 'e' && s[0] != 'E') then Some((0, s))
    else
      var signed := |s| > 1 && (s[1] == '-' || s[1] == '+');
      var digits := if signed then s[2..] else s[1..];
      if LeadingDigits(digits) == "" then None
      else
        var size: int := Denoted(LeadingDigits(digits));
        Some((if signed && s[1] == '-' then -size else size, AfterDigits(digits)))
  }

  /** What follows the sign of a number. */
  function ReadUnsigned(negative: bool, s: string): (read: Option<(Numeral, string)>)
    ensures read.Some? ==> |read.value.1| < |s|
  {
    match ReadWhole(s)
    case None => None
    case Some((whole, s)) =>
      match ReadFraction(s)
      case None => None
      case Some((fraction, s)) =>
        match ReadExponent(s)
        case None => None
        case Some((exponent, s)) => Some((Numeral(negative, whole, fraction, exponent), s))
  }

  /** The number at the start of a text, and the rest of the text. */
  function ReadNumeral(s: string): (read: Option<(Numeral, string)>)
    ensures read.Some? ==> |read.value.1| < |s|
  {
    if s != "" && s[0] == '-' then ReadUnsigned(true, s[1..]) else ReadUnsigned(false, s)
  }

  lemma {:induction false} LeadingDigitsOf(text: DigitText, rest: string)
    requires EndsThere(rest, IsDigit)
    ensures LeadingDigits(text + rest) == text && AfterDigits(text + rest) == rest
  {
    if text == "" {
      assert text + rest == rest;
    } else {
      assert (text + rest)[1..] == text[1..] + rest;
      LeadingDigitsOf(text[1..], rest);
    }
  }

  lemma DigitsRead(n: nat, rest: string)
    requires EndsThere(rest, IsDigit)
    ensures var s := Digits(n) + rest;
            LeadingDigits(s) != "" && Denoted(LeadingDigits(s)) == n && AfterDigits(s) == rest
  {
    DigitsDenote(n);
    DigitsAreDigits(n);
    LeadingDigitsOf(Digits(n), rest);
  }

  lemma WholeReads(n: nat, rest: string)
    requires EndsThere(rest, IsDigit)
    ensures ReadWhole(Digits(n) + rest) == Some((n, rest))
  {
    DigitsRead(n, rest);
    DigitsAreDigits(n);
    FirstDigit(n);
    if n == 0 {
      assert Digits(0) == "0" && ("0" + rest)[1..] == rest;
    }
  }

  /** What may follow the digits before the exponent. */
  predicate EndsFraction(rest: string) {
    EndsThere(rest, IsDigit) && (rest == "" || rest[0] != '.')
  }

  lemma FractionReads(fraction: DigitText, rest: string)
    requires EndsFraction(rest)
    ensures ReadFraction(FractionText(fraction) + rest) == Some((fraction, rest))
    ensures EndsThere(FractionText(fraction) + rest, IsDigit)
  {
    if fraction == "" {
      assert "" + rest == rest;
    } else {
      assert ("." + fraction + rest)[1..] == fraction + rest;
      LeadingDigitsOf(fraction, rest);
    }
  }

  lemma SignedDigitsRead(negative: bool, digits: string)
    requires LeadingDigits(digits) != ""
    ensures var size: int := Denoted(LeadingDigits(digits));
            ReadExponent("e" + (if negative then "-" else "+") + digits)
            == Some((if negative then -size else size, AfterDigits(digits)))
  {
    var s := "e" + (if negative then "-" else "+") + digits;
    assert s[2..] == digits;
  }

  lemma ExponentReads(exponent: int, rest: string)
    requires EndsThere(rest, InNumeral)
    ensures ReadExponent(ExponentText(exponent) + rest) == Some((exponent, rest))
    ensures EndsFraction(ExponentText(exponent) + rest)
  {
    if exponent == 0 {
      assert "" + rest == rest;
    } else {
      var size := if exponent < 0 then -exponent else exponent;
      DigitsRead(size, rest);
      SignedDigitsRead(exponent < 0, Digits(size) + rest);
      AppendAssociates("e" + (if exponent < 0 then "-" else "+"), Digits(size), rest);
    }
  }

  lemma UnsignedReads(x: Numeral, rest: string)
    requires EndsThere(rest, InNumeral)
    ensures ReadUnsigned(x.negative, Unsigned(x) + rest) == Some((x, rest))
  {
    var exponent := ExponentText(x.exponent) + rest;
    var fraction := FractionText(x.fraction) + exponent;
    assert Unsigned(x) + rest == Digits(x.whole) + fraction;
    ExponentReads(x.exponent, rest);
    FractionReads(x.fraction, exponent);
    WholeReads(x.whole, fraction);
  }

  lemma SignReads(negative: bool, s: string)
    requires s != "" && IsDigit(s[0])
    ensures ReadNumeral((if negative then "-" else "") + s) == ReadUnsigned(negative, s)
  {
    if negative {
      assert ("-" + s)[1..] == s;
    } else {
      assert "" + s == s;
    }
  }

  /** A written number is read back, and reading stops behind it. */
  lemma NumeralReads(x: Numeral, rest: string)
    requires EndsThere(rest, InNumeral)
    ensures ReadNumeral(NumeralText(x) + rest) == Some((x, rest))
  {
    UnsignedReads(x, rest);
    DigitsAreDigits(x.whole);
    SignReads(x.negative, Unsigned(x) + rest);
    AppendAssociates(if x.negative then "-" else "", Unsigned(x), rest);
  }

  /** Numbers begin with a digit or a minus sign. */
  lemma NumeralStarts(x: Numeral)
    ensures NumeralText(x) != "" && (IsDigit(NumeralText(x)[0]) || NumeralText(x)[0] == '-')
  {
    DigitsAreDigits(x.whole);
  }

  /** Different numbers have different numerals. */
  lemma NumeralInjective(x: Numeral, y: Numeral)
    requires NumeralText(x) == NumeralText(y)
    ensures x == y
  {
    NumeralReads(x, "");
    NumeralReads(y, "");
  }

  lemma DecimalIsNumeral(n: int)
    ensures NumeralText(Integer(n)) == Decimal(n)
  {
  }

  lemma DecimalInjective(n: int, m: int)
    requires Decimal(n) == Decimal(m)
    ensures n == m
  {
    DecimalIsNumeral(n);
    DecimalIsNumeral(m);
    NumeralInjective(Integer(n), Integer(m));
  }
}
