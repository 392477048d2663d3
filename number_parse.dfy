/** A model of JavaScript's parseFloat (section 19.2.4 of ECMA-262) on the
    finite decimal literals it accepts, computed exactly as a `real`.
    Leading white space is skipped, then the longest prefix of the form
    [sign] digits [. digits] [(e|E) [sign] digits] (with at least one
    mantissa digit) is read and the rest of the text ignored; text without
    such a prefix yields `None`, the model of NaN. */
module NumberParse {
  import opened Wrappers
  import opened Text

  predicate IsDigit(c: char)
  {
    '0' <= c <= '9'
  }

  predicate AllDigits(s: string)
  {
    forall i :: 0 <= i < |s| ==> IsDigit(s[i])
  }

  function DigitValue(c: char): (d: nat)
    requires IsDigit(c)
    ensures d < 10
  {
    (c as int) - ('0' as int)
  }

  function DigitChar(d: nat): (c: char)
    requires d < 10
    ensures IsDigit(c) && DigitValue(c) == d
  {
    ('0' as int + d) as char
  }

  /** The length of the longest all-digit prefix of `s`. */
  function DigitRun(s: string): (n: nat)
    ensures n <= |s|
  {
    if s != [] && IsDigit(s[0]) then 1 + DigitRun(s[1..]) else 0
  }

  /** The run DigitRun measures is all digits and is followed by a non-digit. */
  lemma {:induction false} DigitRunSpec(s: string)
    ensures AllDigits(s[..DigitRun(s)])
    ensures DigitRun(s) == |s| || !IsDigit(s[DigitRun(s)])
  {
    if s != [] && IsDigit(s[0]) {
      DigitRunSpec(s[1..]);
      assert s[..DigitRun(s)] == [s[0]] + s[1..][..DigitRun(s[1..])];
    }
  }

  /** The value of a decimal digit string, most significant digit first. */
  function DigitsValue(d: string): (v: nat)
    requires AllDigits(d)
  {
    if d == [] then 0 else 10 * DigitsValue(d[..|d| - 1]) + DigitValue(d[|d| - 1])
  }

  /** The value of the digits after the decimal point: 0.d1d2... */
  function FractionValue(f: string): (v: real)
    requires AllDigits(f)
    ensures 0.0 <= v < 1.0
  {
    if f == [] then 0.0 else (DigitValue(f[0]) as real + FractionValue(f[1..])) / 10.0
  }

  /** The value of the digits at the front of `s`. */
  function LeadingValue(s: string): (v: nat)
  {
    DigitRunSpec(s);
    DigitsValue(s[..DigitRun(s)])
  }

  /** The value of the fraction digits at the front of `s`. */
  function LeadingFraction(s: string): (v: real)
  {
    DigitRunSpec(s);
    FractionValue(s[..DigitRun(s)])
  }

  /** A decimal literal read from the front of a text, by its parts:
      sign, whole part, fraction (in [0, 1]) and signed exponent. */
  datatype Literal = Literal(negative: bool, whole: nat, fraction: real,
                             expNegative: bool, exponent: nat)

  /** Reads an optional sign. */
  function SplitSign(t: string): (r: (bool, string))
  {
    if t != [] && (t[0] == '+' || t[0] == '-') then (t[0] == '-', t[1..]) else (false, t)
  }

  /** Reads the optional exponent part at the front of `t`; an `e` not
      followed by (a sign and) a digit is not part of the literal, and then
      the exponent is zero. */
  function ScanExponent(t: string): (r: (bool, nat))
  {
    if t != [] && (t[0] == 'e' || t[0] == 'E') then
      var (neg, body) := SplitSign(t[1..]);
      if DigitRun(body) > 0 then (neg, LeadingValue(body)) else (false, 0)
    else
      (false, 0)
  }

  /** The longest decimal-literal prefix of `t`, or None when `t` does not
      begin with one. */
  function ScanLiteral(t: string): (r: Option<Literal>)
  {
    var (negative, body) := SplitSign(t);
    ScanUnsigned(negative, body)
  }

  /** The literal after its sign: digits, then an optional fraction, then an
      optional exponent; at least one digit before or after the point. */
  function ScanUnsigned(negative: bool, body: string): (r: Option<Literal>)
  {
    var i := DigitRun(body);
    var rest := body[i..];
    var hasDot := rest != [] && rest[0] == '.';
    var f := if hasDot then DigitRun(rest[1..]) else 0;
    if i == 0 && f == 0 then
      None
    else
      var after := if hasDot then rest[1 + f..] else rest;
      var (expNegative, exponent) := ScanExponent(after);
      Some(Literal(negative, LeadingValue(body), if hasDot then LeadingFraction(rest[1..]) else 0.0,
                   expNegative, exponent))
  }

  /** m * 10^e when `down` is false, m / 10^e when it is true. */
  function Shift(m: real, e: nat, down: bool): (v: real)
  {
    if e == 0 then m
    else if down then Shift(m, e - 1, down) / 10.0
    else 10.0 * Shift(m, e - 1, down)
  }

  /** The exact value a literal denotes. */
  function Value(lit: Literal): (v: real)
  {
    var m := Shift(lit.whole as real + lit.fraction, lit.exponent, lit.expNegative);
    if lit.negative then -m else m
  }

  /** parseFloat(text), with None standing for NaN. A number is found only
      when the text after its leading white space starts with a digit, a
      sign or a decimal point. */
  function ParseFloat(text: string): (r: Option<real>)
    ensures r.Some? ==> var t := TrimStart(text);
              t != [] && (IsDigit(t[0]) || t[0] == '+' || t[0] == '-' || t[0] == '.')
  {
    ParseLiteral(TrimStart(text))
  }

  /** The value of the literal at the front of `t`, or None. */
  function ParseLiteral(t: string): (r: Option<real>)
  {
    match ScanLiteral(t)
    case None => None
    case Some(lit) => Some(Value(lit))
  }

  /** A digit string that stops before anything a literal could continue
      with is read as a whole number. */
  lemma {:induction false} ScanNumeral(d: string, rest: string)
    requires d != [] && AllDigits(d)
    requires rest == [] || (!IsDigit(rest[0]) && rest[0] != '.' && rest[0] != 'e' && rest[0] != 'E')
    ensures ScanUnsigned(false, d + rest) == Some(Literal(false, DigitsValue(d), 0.0, false, 0))
  {
    DigitRunOfDigitsThen(d, rest);
    assert (d + rest)[..|d|] == d && (d + rest)[|d|..] == rest;
  }

  /** Digits, a point and fraction digits at the end of the text. */
  lemma {:induction false} ScanDecimal(d: string, frac: string)
    requires d != [] && AllDigits(d) && AllDigits(frac)
    ensures ScanUnsigned(false, d + "." + frac) ==
            Some(Literal(false, DigitsValue(d), FractionValue(frac), false, 0))
  {
    var s := d + "." + frac;
    assert s == d + ("." + frac);
    DigitRunOfDigitsThen(d, "." + frac);
    assert s[..|d|] == d && s[|d|..] == "." + frac;
    assert ("." + frac)[1..] == frac;
    DigitRunOfDigitsThen(frac, []);
    assert frac + [] == frac;
    assert frac[..|frac|] == frac;
    assert ("." + frac)[1 + |frac|..] == [];
  }

  /** The decimal numeral of n, without leading zeros. */
  function NatToDigits(n: nat): (s: string)
    ensures s != [] && AllDigits(s) && DigitsValue(s) == n
    ensures s[0] == '0' <==> n == 0
  {
    if n < 10 then [DigitChar(n)]
    else
      var s := NatToDigits(n / 10) + [DigitChar(n % 10)];
      assert s[..|s| - 1] == NatToDigits(n / 10);
      s
  }

  lemma {:induction false} DigitRunOfDigitsThen(d: string, t: string)
    requires AllDigits(d)
    requires t == [] || !IsDigit(t[0])
    ensures DigitRun(d + t) == |d|
    ensures (d + t)[..|d|] == d
  {
    if d != [] {
      assert (d + t)[0] == d[0];
      assert (d + t)[1..] == d[1..] + t;
      DigitRunOfDigitsThen(d[1..], t);
    } else {
      assert d + t == t;
    }
  }

  /** Parsing reads a numeral and stops at the first character that cannot
      continue a literal: parseFloat(String(n) + rest) is n. In particular
      the numeral alone parses back to n. */
  lemma {:induction false} ParseNumeralPrefix(n: nat, rest: string)
    requires rest == [] || (!IsDigit(rest[0]) && rest[0] != '.' && rest[0] != 'e' && rest[0] != 'E')
    ensures ParseFloat(NatToDigits(n) + rest) == Some(n as real)
  {
    var d := NatToDigits(n);
    var s := d + rest;
    assert s[0] == d[0];
    TrimStartNoSpace(s);
    assert SplitSign(s) == (false, s);
    ScanNumeral(d, rest);
  }

  /** A decimal text without sign or exponent (a price typed as "45.50")
      parses to its whole part plus its fraction. */
  lemma {:induction false} ParseDecimalText(d: string, frac: string)
    requires d != [] && AllDigits(d) && AllDigits(frac)
    ensures ParseFloat(d + "." + frac) == Some(DigitsValue(d) as real + FractionValue(frac))
  {
    var s := d + "." + frac;
    assert s[0] == d[0];
    TrimStartNoSpace(s);
    assert SplitSign(s) == (false, s);
    ScanDecimal(d, frac);
  }

  /** parseFloat skips leading white space, as the form's price field relies on. */
  lemma {:induction false} ParseSkipsWhiteSpace(front: string, text: string)
    requires AllWhiteSpace(front)
    ensures ParseFloat(front + text) == ParseFloat(text)
  {
    TrimStartSkipsWhiteSpace(front, text);
  }

  /** A text of white space alone (the empty price field in particular) is NaN. */
  lemma {:induction false} ParseBlankIsNaN(text: string)
    requires AllWhiteSpace(text)
    ensures ParseFloat(text) == None
  {
    TrimStartBlank(text);
  }

  /** NaN stays NaN; a number changes sign. */
  function Negated(v: Option<real>): (r: Option<real>)
  {
    match v
    case None => None
    case Some(x) => Some(-x)
  }

  /** A leading minus sign negates the parsed value and keeps NaN as NaN. */
  lemma {:induction false} ParseNegative(text: string)
    requires text == [] || (!IsWhiteSpace(text[0]) && text[0] != '+' && text[0] != '-')
    ensures ParseFloat("-" + text) == Negated(ParseFloat(text))
  {
    var s := "-" + text;
    assert s[0] == '-';
    TrimStartNoSpace(s);
    TrimStartNoSpace(text);
    ParseLiteralNegative(text);
  }

  lemma {:induction false} ParseLiteralNegative(text: string)
    requires text == [] || (text[0] != '+' && text[0] != '-')
    ensures ParseLiteral("-" + text) == Negated(ParseLiteral(text))
  {
    var s := "-" + text;
    assert s[0] == '-' && s[1..] == text;
    assert SplitSign(s) == (true, text);
    assert SplitSign(text) == (false, text);
    ScanSignIndependent(text);
    match ScanUnsigned(false, text)
    case None =>
    case Some(lit) =>
      ValueNegated(lit);
  }

  lemma {:induction false} ValueNegated(lit: Literal)
    requires !lit.negative
    ensures Value(lit.(negative := true)) == -Value(lit)
  {
  }

  /** The sign does not influence how the rest of the literal is read. */
  lemma {:induction false} ScanSignIndependent(body: string)
    ensures ScanUnsigned(true, body) == (match ScanUnsigned(false, body)
                                         case None => None
                                         case Some(lit) => Some(lit.(negative := true)))
  {
  }

  /** m * 10^e and m / 10^e are not negative when m is not. */
  lemma {:induction false} ShiftNonNegative(m: real, e: nat, down: bool)
    requires m >= 0.0
    ensures Shift(m, e, down) >= 0.0
  {
    if e > 0 {
      ShiftNonNegative(m, e - 1, down);
    }
  }

  /** A text starting with a minus sign parses to NaN or to a number that
      is not above zero. */
  lemma {:induction false} ParseMinusNotPositive(text: string)
    ensures ParseFloat("-" + text).Some? ==> ParseFloat("-" + text).value <= 0.0
  {
    var s := "-" + text;
    assert s[0] == '-' && s[1..] == text;
    TrimStartNoSpace(s);
    assert SplitSign(s) == (true, text);
    match ScanUnsigned(true, text)
    case None =>
    case Some(lit) =>
      assert lit.negative && lit.fraction >= 0.0;
      ShiftNonNegative(lit.whole as real + lit.fraction, lit.exponent, lit.expNegative);
  }
}
