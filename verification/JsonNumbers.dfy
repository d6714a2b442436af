/**
  Number texts in the sense of section 6 of RFC 8259: sign, digits, fraction, exponent, and the value the parser
  reads from them.
 */
module JsonNumbers {
  import opened JsonText
  import opened JsonGrammar
  import opened JsonRoundTrip

  predicate Numeral(d: string) {
    forall k :: 0 <= k < |d| ==> '0' <= d[k] <= '9'
  }

  /** The number decimal digits stand for. */
  function Value(d: string): (n: nat)
    requires Numeral(d)
  {
    if d == [] then 0 else Value(d[..|d| - 1]) * 10 + (d[|d| - 1] as int - '0' as int)
  }

  datatype Sign = NoSign | Plus | Minus

  function SignText(sign: Sign): string {
    match sign
    case NoSign => []
    case Plus => "+"
    case Minus => "-"
  }

  /** An exponent, with its mark in either case. */
  datatype Power = NoPower | Power(upper: bool, sign: Sign, digits: string) {

    /** The parser takes an exponent without digits for 0. */
    predicate Ok() {
      this.Power? ==> Numeral(digits)
    }

    /** Nothing that follows can be taken for more of it. */
    predicate EndsBefore(c: char) {
      EndsNumber(c) && (this.Power? && sign.NoSign? && digits == [] ==> c != '+' && c != '-')
    }

    function Text(): string {
      if this.NoPower? then [] else [if upper then 'E' else 'e'] + (SignText(sign) + digits)
    }

    function Exponent(): int
      requires Ok()
    {
      if this.NoPower? then 0 else if sign.Minus? then 0 - Value(digits) else Value(digits)
    }
  }

  /** The parts of a number text: a minus sign or none, the digits before the point, those behind it, and the exponent. */
  datatype Number = Number(neg: bool, whole: string, frac: string, power: Power) {

    /**
      What the parser takes for a number: at most one leading zero, also before other digits, and digits may lack behind a
      minus sign. The texts of the standard are those with digits, and without such a zero, in whole and exponent.
     */
    predicate Ok() {
      && Numeral(whole) && (whole == [] ==> neg) && (|whole| > 1 && whole[0] == '0' ==> whole[1] != '0')
      && Numeral(frac) && power.Ok()
    }

    function Fractional(): string {
      if frac == [] then [] else "." + frac
    }

    function Text(): string {
      (if neg then "-" else "") + (whole + (Fractional() + power.Text()))
    }

    /** The digits as one number, and the power of ten it is to be taken with. */
    function Mantissa(): int
      requires Ok()
    {
      AllNumeral(whole, frac);
      if neg then 0 - Value(whole + frac) else Value(whole + frac)
    }

    function Exponent(): int
      requires Ok()
    {
      power.Exponent() - |frac|
    }
  }

  lemma AllNumeral(a: string, b: string)
    requires Numeral(a) && Numeral(b)
    ensures Numeral(a + b)
  {
  }

  /** Digits that are read on behind others. */
  lemma {:induction false} ReadValue(s: string, i: nat, p: string, d: string)
    requires Numeral(p) && Numeral(d) && Holds(s, i, d)
    ensures Numeral(p + d) && forall k :: i <= k < i + |d| ==> IsDigit(s[k])
    ensures Reading(s, i, i + |d|, Value(p)) == Value(p + d)
    decreases |d|
  {
    forall k | i <= k < i + |d|
      ensures IsDigit(s[k])
    {
      HoldsAt(s, i, d, k - i);
    }
    AllNumeral(p, d);
    if d == [] {
      assert p + d == p;
    } else {
      var front, last := d[..|d| - 1], d[|d| - 1];
      assert d == front + [last];
      HoldsParts(s, i, front, [last]);
      HoldsAt(s, i, d, |d| - 1);
      ReadValue(s, i, p, front);
      ReadingOn(s, i, i + |front|, Value(p));
      assert (p + d)[..|p + d| - 1] == p + front;
    }
  }

  /** A leading zero adds nothing. */
  lemma {:induction false} LeadingZero(d: string)
    requires Numeral(d)
    ensures Numeral("0" + d) && Value("0" + d) == Value(d)
    decreases |d|
  {
    AllNumeral("0", d);
    if d == [] {
      assert "0" + d == "0" && "0"[..0] == [];
    } else {
      LeadingZero(d[..|d| - 1]);
      assert ("0" + d)[..|"0" + d| - 1] == "0" + d[..|d| - 1];
    }
  }

  lemma WholeValue(s: string, i: nat, d: string)
    requires Numeral(d) && (|d| > 1 && d[0] == '0' ==> d[1] != '0') && Holds(s, i, d) && !IsDigit(At(s, i + |d|))
    ensures WholePart(s, i) == (Value(d), i + |d|)
  {
    hide Reading, Holds, Value, DigitsEnd;
    NoDigits();
    if d != [] {
      HoldsAt(s, i, d, 0);
      if d[0] == '0' {
        var r := d[1..];
        assert d == "0" + r;
        LeadingZero(r);
        HoldsParts(s, i, "0", r);
        if r != [] {
          HoldsAt(s, i + 1, r, 0);
          DigitsValue(s, i + 1, r);
        }
      } else {
        DigitsValue(s, i, d);
      }
    }
  }

  lemma FractionValue(s: string, i: nat, n: Number)
    requires n.Ok() && Holds(s, i, n.Fractional()) && i <= |s|
    requires !IsDigit(At(s, i + |n.Fractional()|)) && (n.frac == [] ==> At(s, i) != '.')
    ensures Numeral(n.whole + n.frac) && |n.Fractional()| == (if n.frac == [] then 0 else 1 + |n.frac|)
    ensures JsonGrammar.Fraction(s, i, Value(n.whole)) == (Value(n.whole + n.frac), i + |n.Fractional()|)
  {
    hide Reading, Holds, Value, Numeral, Power.Text;
    AllNumeral(n.whole, n.frac);
    if n.frac == [] {
      assert n.whole + n.frac == n.whole;
    } else {
      HoldsParts(s, i, ".", n.frac);
      HoldsAt(s, i, ".", 0);
      HoldsAt(s, i + 1, n.frac, 0);
      FirstDigit(n.frac);
      ReadValue(s, i + 1, n.whole, n.frac);
      DigitsEndIs(s, i + 1, i + 1 + |n.frac|);
    }
  }

  lemma FirstDigit(d: string)
    requires Numeral(d) && d != []
    ensures IsDigit(d[0])
  {
  }

  lemma ExponentValue(s: string, i: nat, p: Power)
    requires p.Ok() && Holds(s, i, p.Text()) && i <= |s| && p.EndsBefore(At(s, i + |p.Text()|))
    ensures JsonGrammar.Exponent(s, i) == (p.Exponent(), i + |p.Text()|)
  {
    hide Reading, Holds, Value, DigitsEnd, SignText, Numeral, EndsNumber, JsonGrammar.Exponent, Power.Text, Power.Exponent;
    PowerParts(p);
    if p.Power? {
      var mark := [if p.upper then 'E' else 'e'];
      HoldsParts(s, i, mark, SignText(p.sign) + p.digits);
      HoldsAt(s, i, mark, 0);
      PowerValue(s, i + 1, p.sign, p.digits);
      PowerRead(s, i, p.sign, i + 1 + |SignText(p.sign)|);
    } else {
      NoExponent(s, i);
    }
  }

  lemma PowerParts(p: Power)
    requires p.Ok()
    ensures p.NoPower? ==> p.Text() == [] && p.Exponent() == 0
    ensures p.Power? ==> p.Text() == [if p.upper then 'E' else 'e'] + (SignText(p.sign) + p.digits)
    ensures p.Power? ==> |p.Text()| == 1 + |SignText(p.sign)| + |p.digits|
    ensures p.Power? ==> Numeral(p.digits) && (p.sign.NoSign? ==> SignText(p.sign) == [])
    ensures forall c :: p.EndsBefore(c) ==> EndsNumber(c) && !IsDigit(c) && (p.Power? && p.sign.NoSign? && p.digits == [] ==> c != '+' && c != '-')
    ensures p.Power? ==> p.Exponent() == if p.sign.Minus? then 0 - Value(p.digits) else Value(p.digits)
  {
    hide Value;
  }

  lemma NoExponent(s: string, i: nat)
    requires i <= |s| && EndsNumber(At(s, i))
    ensures JsonGrammar.Exponent(s, i) == (0, i)
  {
  }

  /** The mark, the sign and the place of the digits make the exponent. */
  lemma PowerRead(s: string, i: nat, sign: Sign, k: nat)
    requires i < |s| && (s[i] == 'e' || s[i] == 'E') && i + 1 <= |s|
    requires (At(s, i + 1) == '+' <==> sign.Plus?) && (At(s, i + 1) == '-' <==> sign.Minus?)
    requires k == (if sign.NoSign? then i + 1 else i + 2) && k <= |s|
    ensures var n := Reading(s, k, DigitsEnd(s, k), 0);
            JsonGrammar.Exponent(s, i) == (if sign.Minus? then 0 - n else n, DigitsEnd(s, k))
  {
    hide Reading, DigitsEnd;
  }

  lemma NoDigits()
    ensures Value([]) == 0
  {
  }

  /** The sign and the digits of an exponent. */
  lemma PowerValue(s: string, i: nat, sign: Sign, x: string)
    requires Numeral(x) && Holds(s, i, SignText(sign) + x) && i <= |s| && !IsDigit(At(s, i + |SignText(sign)| + |x|))
    requires sign.NoSign? && x == [] ==> At(s, i) != '+' && At(s, i) != '-'
    ensures (At(s, i) == '+' <==> sign.Plus?) && (At(s, i) == '-' <==> sign.Minus?)
    ensures |SignText(sign)| == (if sign.NoSign? then 0 else 1) && i + |SignText(sign)| <= |s|
    ensures DigitsEnd(s, i + |SignText(sign)|) == i + |SignText(sign)| + |x|
    ensures Reading(s, i + |SignText(sign)|, i + |SignText(sign)| + |x|, 0) == Value(x)
  {
    hide Reading, Holds, DigitsEnd, Value;
    HoldsParts(s, i, SignText(sign), x);
    var k := i + |SignText(sign)|;
    if !sign.NoSign? {
      HoldsAt(s, i, SignText(sign), 0);
    } else if x != [] {
      HoldsAt(s, k, x, 0);
    }
    DigitsValue(s, k, x);
  }

  /** Digits up to where they end. */
  lemma DigitsValue(s: string, k: nat, x: string)
    requires Numeral(x) && Holds(s, k, x) && k <= |s| && !IsDigit(At(s, k + |x|))
    ensures DigitsEnd(s, k) == k + |x| && Reading(s, k, k + |x|, 0) == Value(x)
  {
    hide Holds, Reading, DigitsEnd, Value;
    var none: string := [];
    NoDigits();
    ReadValue(s, k, none, x);
    assert none + x == x;
    DigitsEndIs(s, k, k + |x|);
  }

  /** A number text that nothing continues is read as the number it stands for. */
  lemma NumberMeans(s: string, i: nat, n: Number)
    requires n.Ok() && Holds(s, i, n.Text()) && n.power.EndsBefore(At(s, i + |n.Text()|))
    ensures i < |s| && (s[i] == '-' || IsDigit(s[i]))
    ensures NumberAt(s, i) == Parsed.Ok(Num(n.Mantissa(), n.Exponent()), i + |n.Text()|)
  {
    hide Reading, Holds, JsonGrammar.WholePart, JsonGrammar.Fraction, JsonGrammar.Exponent, Value, DigitsEnd, Number.Fractional,
      Power.Text, Power.Exponent;
    var sign := if n.neg then "-" else "";
    HoldsParts(s, i, sign, n.whole + (n.Fractional() + n.power.Text()));
    var w := i + |sign|;
    if n.neg {
      HoldsAt(s, i, "-", 0);
    }
    HoldsParts(s, w, n.whole, n.Fractional() + n.power.Text());
    if n.whole != [] {
      HoldsAt(s, w, n.whole, 0);
    }
    UnsignedMeans(s, w, n);
  }

  /** The same behind the sign. */
  lemma UnsignedMeans(s: string, w: nat, n: Number)
    requires n.Ok() && Holds(s, w, n.whole + (n.Fractional() + n.power.Text()))
    requires w <= |s| && n.power.EndsBefore(At(s, w + |n.whole| + |n.Fractional()| + |n.power.Text()|))
    ensures var f := w + |n.whole|;
            var e := f + |n.Fractional()|;
            && f <= |s| && e <= |s| && Numeral(n.whole + n.frac) && |n.Fractional()| == (if n.frac == [] then 0 else 1 + |n.frac|)
            && WholePart(s, w) == (Value(n.whole), f) && JsonGrammar.Fraction(s, f, Value(n.whole)) == (Value(n.whole + n.frac), e)
            && JsonGrammar.Exponent(s, e) == (n.power.Exponent(), e + |n.power.Text()|)
  {
    hide Reading, Holds, JsonGrammar.WholePart, JsonGrammar.Fraction, JsonGrammar.Exponent, Value, DigitsEnd, Power.Text,
      Power.Exponent, Power.EndsBefore, Numeral, Number.Fractional, EndsNumber;
    PowerParts(n.power);
    HoldsParts(s, w, n.whole, n.Fractional() + n.power.Text());
    var f := w + |n.whole|;
    HoldsParts(s, f, n.Fractional(), n.power.Text());
    PartsEnd(s, f, n);
    WholeValue(s, w, n.whole);
    FractionValue(s, f, n);
    ExponentValue(s, f + |n.Fractional()|, n.power);
  }

  /** What stands behind the digits is no digit, and no point where there is no fraction. */
  lemma PartsEnd(s: string, f: nat, n: Number)
    requires n.Ok() && Holds(s, f, n.Fractional()) && Holds(s, f + |n.Fractional()|, n.power.Text())
    requires EndsNumber(At(s, f + |n.Fractional()| + |n.power.Text()|))
    ensures f <= |s| && f + |n.Fractional()| <= |s| && !IsDigit(At(s, f))
    ensures !IsDigit(At(s, f + |n.Fractional()|)) && (n.frac == [] ==> At(s, f) != '.')
  {
    hide Holds, Numeral, Power.Text;
    if n.frac != [] {
      HoldsAt(s, f, n.Fractional(), 0);
    }
    PowerFirst(s, f + |n.Fractional()|, n.power);
  }

  lemma PowerFirst(s: string, i: nat, p: Power)
    requires Holds(s, i, p.Text())
    ensures i <= |s| && if p.Power? then At(s, i) == 'e' || At(s, i) == 'E' else p.Text() == []
  {
    hide Holds, SignText;
    if p.Power? {
      HoldsAt(s, i, p.Text(), 0);
    }
  }

  /** The digits the printer writes stand for the number. */
  lemma {:induction false} DigitsMean(n: nat)
    ensures Numeral(Digits(n)) && Value(Digits(n)) == n
    decreases n
  {
    if n >= 10 {
      DigitsMean(n / 10);
      var front := Digits(n / 10);
      assert Digits(n)[..|Digits(n)| - 1] == front;
    } else {
      assert Digits(n)[..0] == [] && Value([]) == 0;
    }
  }
}
