/** Python's decimal integer rendering `str(n)` and the integer and
    rational readers `int(s)` and `Fraction(s)`, restricted to ASCII digits.
 */
module Decimal {
  import opened Results
  import opened Text

  predicate IsDigit(c: char) { '0' <= c <= '9' }

  predicate AllDigits(s: string) {
    forall i :: 0 <= i < |s| ==> IsDigit(s[i])
  }

  function DigitChar(d: nat): (c: char)
    requires d < 10
    ensures IsDigit(c) && c as int - '0' as int == d
  {
    ('0' as int + d) as char
  }

  /** The value of a string of decimal digits, most significant first. */
  function DigitsValue(s: string): nat
    requires AllDigits(s)
  {
    if |s| == 0 then 0 else DigitsValue(s[..|s| - 1]) * 10 + (s[|s| - 1] as int - '0' as int)
  }

  /** `str(n)` for a non-negative integer: digits without a leading zero. */
  function NatToString(n: nat): (s: string)
    ensures |s| > 0 && AllDigits(s) && IsToken(s)
    ensures |s| > 1 ==> s[0] != '0'
  {
    if n < 10 then [DigitChar(n)] else NatToString(n / 10) + [DigitChar(n % 10)]
  }

  lemma {:induction false} NatToStringValue(n: nat)
    ensures DigitsValue(NatToString(n)) == n
  {
    if n >= 10 {
      NatToStringValue(n / 10);
      var s := NatToString(n);
      assert s[..|s| - 1] == NatToString(n / 10);
    }
  }

  /** A non-empty run of digits, or nothing. */
  function ParseNat(s: string): (r: Option<nat>)
    ensures r.Some? <==> |s| > 0 && AllDigits(s)
  {
    if |s| > 0 && AllDigits(s) then Some(DigitsValue(s)) else None
  }

  /** `int(s)`: surrounding whitespace, an optional sign, then digits. */
  function ParseInt(s: string): (r: Option<int>)
  {
    ParseSigned(Strip(s))
  }

  /** An optional sign followed by digits, nothing else. */
  function ParseSigned(t: string): (r: Option<int>)
  {
    if |t| > 0 && (t[0] == '-' || t[0] == '+') then
      match ParseNat(t[1..])
      case Some(n) => Some(if t[0] == '-' then -(n as int) else n as int)
      case None => None
    else
      match ParseNat(t)
      case Some(n) => Some(n as int)
      case None => None
  }

  /** `int` reads back what `str` writes, with either sign. */
  lemma IntRoundTrip(n: nat)
    ensures ParseInt(NatToString(n)) == Some(n as int)
    ensures ParseInt("-" + NatToString(n)) == Some(-(n as int))
  {
    var s := NatToString(n);
    DigitsParse(n);
    StripTight(s);
    NegativeParse(n);
  }

  lemma NegativeParse(n: nat)
    ensures ParseInt("-" + NatToString(n)) == Some(-(n as int))
  {
    DigitsParse(n);
    SignedDigits(NatToString(n));
  }

  lemma SignedDigits(s: string)
    requires ParseNat(s).Some?
    ensures ParseInt("-" + s) == Some(-(ParseNat(s).value as int))
  {
    var m := "-" + s;
    assert Strip(m) == m by {
      assert m[|m| - 1] == s[|s| - 1];
      StripTight(m);
    }
    assert ParseSigned(m) == Some(-(ParseNat(s).value as int)) by {
      assert m[1..] == s;
    }
  }

  lemma DigitsParse(n: nat)
    ensures ParseNat(NatToString(n)) == Some(n)
    ensures ParseSigned(NatToString(n)) == Some(n as int)
  {
    NatToStringValue(n);
  }

  /** A rational number as `Fraction` reads it: the numerator carries the
      sign, the denominator is positive once read. */
  datatype Fraction = Fraction(numerator: int, denominator: nat) {
    function Negated(): Fraction {
      Fraction(-numerator, denominator)
    }
  }

  /** `Fraction(s)` for the integer form `[sign]p` and the ratio form
      `[sign]p/q`, with surrounding whitespace allowed. */
  function ParseFraction(s: string): (r: Result<Fraction>)
    ensures r.Ok? ==> r.value.denominator > 0
  {
    ParseSignedRatio(Strip(s), s)
  }

  /** An optional sign, then an unsigned ratio; `s` is the original text,
      for the error. */
  function ParseSignedRatio(t: string, s: string): (r: Result<Fraction>)
    ensures r.Ok? ==> r.value.denominator > 0
  {
    if |t| > 0 && (t[0] == '-' || t[0] == '+') then
      var v :- ParseRatio(t[1..], s);
      Ok(if t[0] == '-' then v.Negated() else v)
    else
      ParseRatio(t, s)
  }

  /** An unsigned `p` or `p/q`; `s` is the original text, for the error. */
  function ParseRatio(body: string, s: string): (r: Result<Fraction>)
    ensures r.Ok? ==> r.value.numerator >= 0 && r.value.denominator > 0
  {
    var parts := Split(body, '/');
    if |parts| == 1 then
      var p :- Need(ParseNat(body), BadFraction(s));
      Ok(Fraction(p, 1))
    else if |parts| == 2 then
      var p :- Need(ParseNat(parts[0]), BadFraction(s));
      var q :- Need(ParseNat(parts[1]), BadFraction(s));
      if q == 0 then Err(ZeroDenominator(s)) else Ok(Fraction(p, q))
    else
      Err(BadFraction(s))
  }

  /** `str(n)` for any integer. */
  function IntToString(n: int): (s: string)
    ensures |s| > 0 && IsToken(s) && !IsSpace(s[0]) && IsDigit(s[|s| - 1])
    ensures '/' !in s && ',' !in s
    ensures forall i :: 0 <= i < |s| ==> s[i] == '-' || IsDigit(s[i])
  {
    if n < 0 then "-" + NatToString(-n) else NatToString(n)
  }

  /** `int` reads back what `str` writes. */
  lemma IntToStringRoundTrip(n: int)
    ensures ParseInt(IntToString(n)) == Some(n)
  {
    if n < 0 {
      IntRoundTrip(-n);
    } else {
      IntRoundTrip(n);
    }
  }

  /** `str(Fraction(p, q))` for a positive denominator: `p` alone when the
      denominator is one, `p/q` otherwise. */
  function RatioToString(p: int, q: nat): (s: string)
    requires q > 0
    ensures |s| > 0 && IsToken(s) && (s[0] == '-' || IsDigit(s[0])) && IsDigit(s[|s| - 1])
  {
    (if p < 0 then "-" else "") + RatioBodyToString(if p < 0 then -p else p, q)
  }

  /** The unsigned part of `str(Fraction(p, q))`. */
  function RatioBodyToString(m: nat, q: nat): (s: string)
    requires q > 0
    ensures |s| > 0 && IsToken(s) && IsDigit(s[0]) && IsDigit(s[|s| - 1])
  {
    var a := NatToString(m);
    if q == 1 then a else a + "/" + NatToString(q)
  }

  /** The unsigned body `p` or `p/q` reads as the quotient. */
  lemma RatioBody(m: nat, q: nat, s: string)
    requires q > 0
    ensures ParseRatio(RatioBodyToString(m, q), s) == Ok(Fraction(m, q))
  {
    var a, b := NatToString(m), NatToString(q);
    assert '/' !in a && '/' !in b;
    DigitsParse(m);
    DigitsParse(q);
    var body := RatioBodyToString(m, q);
    if q == 1 {
      assert body == a;
      assert Split(body, '/') == [a] by {
        SplitWithout(a, '/');
      }
    } else {
      assert body == a + ['/'] + b;
      assert Split(body, '/') == [a, b] by {
        SplitAfter(a, '/', b);
        SplitWithout(b, '/');
      }
    }
  }

  /** Two parts that read as naturals, the second zero: a zero denominator. */
  lemma ZeroOver(body: string, a: string, b: string, s: string)
    requires Split(body, '/') == [a, b]
    requires ParseNat(a).Some? && ParseNat(b) == Some(0)
    ensures ParseRatio(body, s) == Err(ZeroDenominator(s))
  {
  }

  /** `Fraction` reads back what `str` writes, exactly. */
  lemma FractionRoundTrip(p: int, q: nat)
    requires q > 0
    ensures ParseFraction(RatioToString(p, q)) == Ok(Fraction(p, q))
  {
    if p < 0 {
      FractionNegative(p, q);
    } else {
      FractionUnsigned(p, q);
    }
  }

  lemma FractionUnsigned(p: int, q: nat)
    requires p >= 0 && q > 0
    ensures ParseFraction(RatioToString(p, q)) == Ok(Fraction(p, q))
  {
    var s := RatioToString(p, q);
    RatioText(p, q);
    RatioBody(p, q, s);
    FractionTight(s);
    UnsignedRatio(s, s);
  }

  lemma FractionNegative(p: int, q: nat)
    requires p < 0 && q > 0
    ensures ParseFraction(RatioToString(p, q)) == Ok(Fraction(p, q))
  {
    var m: nat := -p;
    var s := RatioToString(p, q);
    RatioText(p, q);
    RatioBody(m, q, s);
    NegativeFraction(s, Fraction(m, q), Fraction(p, q));
  }

  lemma NegativeFraction(s: string, v: Fraction, w: Fraction)
    requires |s| > 0 && s[0] == '-' && !IsSpace(s[|s| - 1])
    requires ParseRatio(s[1..], s) == Ok(v) && v.Negated() == w
    ensures ParseFraction(s) == Ok(w)
  {
    FractionTight(s);
    NegativeRatio(s, s, v);
  }

  /** The shape of `str(Fraction(p, q))`: a minus sign for a negative
      numerator, then the unsigned body. */
  lemma RatioText(p: int, q: nat)
    requires q > 0
    ensures p >= 0 ==> RatioToString(p, q) == RatioBodyToString(p, q)
    ensures p < 0 ==> RatioToString(p, q)[0] == '-' && RatioToString(p, q)[1..] == RatioBodyToString(-p, q)
  {
  }

  lemma UnsignedRatio(t: string, s: string)
    requires |t| > 0 && IsDigit(t[0])
    ensures ParseSignedRatio(t, s) == ParseRatio(t, s)
  {
  }

  lemma NegativeRatio(t: string, s: string, v: Fraction)
    requires |t| > 0 && t[0] == '-' && ParseRatio(t[1..], s) == Ok(v)
    ensures ParseSignedRatio(t, s) == Ok(v.Negated())
  {
  }

  /** A zero denominator is rejected with its own error: every text that
      strips to an optional sign, a run of digits, a slash and a run of
      digits worth zero. */
  lemma FractionZeroDenominator(s: string, sign: string, a: string, b: string)
    requires |sign| == 0 || sign == "-" || sign == "+"
    requires Strip(s) == sign + a + "/" + b
    requires ParseNat(a).Some? && ParseNat(b) == Some(0)
    ensures ParseFraction(s) == Err(ZeroDenominator(s))
  {
    var body := a + "/" + b;
    assert '/' !in a && '/' !in b by {
      assert forall i :: 0 <= i < |a| ==> IsDigit(a[i]);
      assert forall i :: 0 <= i < |b| ==> IsDigit(b[i]);
    }
    assert Split(body, '/') == [a, b] by {
      assert body == a + ['/'] + b;
      SplitAfter(a, '/', b);
      SplitWithout(b, '/');
    }
    ZeroOver(body, a, b, s);
    var t := Strip(s);
    if |sign| == 0 {
      assert t == body && IsDigit(t[0]);
    } else {
      assert t[0] == sign[0] && t[1..] == body;
    }
  }

  /** A signed numerator and a denominator written with two zeros. */
  lemma ZeroDenominatorExamples()
    ensures ParseFraction(" -3/0") == Err(ZeroDenominator(" -3/0"))
    ensures ParseFraction("5/00") == Err(ZeroDenominator("5/00"))
  {
    assert ParseNat("3") == Some(3) && ParseNat("5") == Some(5);
    assert ParseNat("0") == Some(0);
    assert DigitsValue("00") == DigitsValue("0") * 10;
    assert Strip(" -3/0") == "-" + "3" + "/" + "0" by {
      assert LeadingSpaces(" -3/0") == 1 + LeadingSpaces("-3/0");
      assert TrailingEnd(" -3/0") == 5;
    }
    FractionZeroDenominator(" -3/0", "-", "3", "0");
    assert Strip("5/00") == "" + "5" + "/" + "00" by {
      StripTight("5/00");
    }
    FractionZeroDenominator("5/00", "", "5", "00");
  }

  /** On a text without surrounding whitespace, `Fraction` reads the sign
      and then the ratio. */
  lemma FractionTight(s: string)
    requires |s| > 0 && !IsSpace(s[0]) && !IsSpace(s[|s| - 1])
    ensures ParseFraction(s) == ParseSignedRatio(s, s)
  {
    StripTight(s);
  }

  /** `int(c)` of a single character: its digit value, if it is a digit. */
  lemma ParseIntDigit(c: char)
    ensures ParseInt([c]).Some? <==> IsDigit(c)
    ensures IsDigit(c) ==> ParseInt([c]) == Some(c as int - '0' as int)
  {
    if IsSpace(c) {
      assert AllSpace([c]);
    } else {
      StripTight([c]);
      assert [c][1..] == [];
      if IsDigit(c) {
        assert DigitsValue([c]) == DigitsValue([c][..0]) * 10 + (c as int - '0' as int);
      }
    }
  }

  /** `int` applied to each token: fails on the first it rejects. */
  function ParseInts(ts: seq<string>): (r: Result<seq<int>>)
    ensures r.Ok? ==> |r.value| == |ts|
    ensures r.Ok? <==> forall i :: 0 <= i < |ts| ==> ParseInt(ts[i]).Some?
    ensures r.Ok? ==> forall i :: 0 <= i < |ts| ==> r.value[i] == ParseInt(ts[i]).value
  {
    if |ts| == 0 then Ok([])
    else
      var x :- Need(ParseInt(ts[0]), BadInt(ts[0]));
      var rest :- ParseInts(ts[1..]);
      Ok([x] + rest)
  }

  /** `Fraction` applied to each token: fails on the first it rejects. */
  function ParseFractions(ts: seq<string>): Result<seq<Fraction>>
  {
    MapRead(ParseFraction, ts)
  }
}
