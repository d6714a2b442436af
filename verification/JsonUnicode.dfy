/**
  The escapes of four hexadecimal digits against UTF-16 and UTF-8: section 7 of RFC 8259, and sections 3 and 4 of
  RFC 3629, whose decoder is written down here on its own.
 */
module JsonUnicode {
  import opened JsonText
  import opened JsonGrammar
  import opened JsonEscapes

  /** A code point that is a character: the surrogates are not. */
  type CodePoint = cp: int | 0 <= cp < 0xD800 || 0xDFFF < cp < 0x110000

  predicate Tail(c: char) {
    0x80 <= c as int <= 0xBF
  }

  /** The code point a UTF-8 sequence stands for, -1 if it is none of the well-formed ones. */
  function Decode(b: string): (cp: int)
  {
    if |b| == 1 && b[0] as int <= 0x7F then b[0] as int
    else if |b| == 2 && 0xC2 <= b[0] as int <= 0xDF && Tail(b[1]) then
      (b[0] as int - 0xC0) * 0x40 + (b[1] as int - 0x80)
    else if |b| == 3 && 0xE0 <= b[0] as int <= 0xEF && Tail(b[1]) && Tail(b[2])
            && (b[0] as int == 0xE0 ==> b[1] as int >= 0xA0) && (b[0] as int == 0xED ==> b[1] as int <= 0x9F) then
      (b[0] as int - 0xE0) * 0x1000 + (b[1] as int - 0x80) * 0x40 + (b[2] as int - 0x80)
    else if |b| == 4 && 0xF0 <= b[0] as int <= 0xF4 && Tail(b[1]) && Tail(b[2]) && Tail(b[3])
            && (b[0] as int == 0xF0 ==> b[1] as int >= 0x90) && (b[0] as int == 0xF4 ==> b[1] as int <= 0x8F) then
      (b[0] as int - 0xF0) * 0x40000 + (b[1] as int - 0x80) * 0x1000 + (b[2] as int - 0x80) * 0x40 + (b[3] as int - 0x80)
    else -1
  }

  /** What the parser writes for a code point is its UTF-8. */
  lemma Utf8Decodes(cp: CodePoint)
    ensures Decode(Utf8(cp)) == cp
  {
    hide Decode, Utf8;
    if cp < 0x80 {
      OneByte(cp);
    } else if cp < 0x800 {
      TwoBytes(cp);
    } else if cp < 0x10000 {
      ThreeBytes(cp);
    } else {
      FourBytes(cp);
    }
  }

  lemma OneByte(cp: CodePoint)
    requires cp < 0x80
    ensures Decode(Utf8(cp)) == cp
  {
  }

  lemma Rest(x: nat)
    ensures Tail(Continuation(x)) && Continuation(x) as int - 0x80 == x % 0x40
  {
  }

  lemma TwoBytes(cp: CodePoint)
    requires 0x80 <= cp < 0x800
    ensures Decode(Utf8(cp)) == cp
  {
    hide Continuation, Tail;
    Rest(cp);
    assert |Utf8(cp)| == 2 && Utf8(cp)[0] as int == 0xC0 + cp / 0x40;
  }

  lemma ThreeBytes(cp: CodePoint)
    requires 0x800 <= cp < 0x10000
    ensures Decode(Utf8(cp)) == cp
  {
    hide Continuation, Tail, Decode;
    Rest(cp);
    Rest(cp / 0x40);
    var a, b, c := cp / 0x1000, cp / 0x40 % 0x40, cp % 0x40;
    assert cp == a * 0x1000 + b * 0x40 + c;
    DecodeThree(Utf8(cp), a, b, c);
  }

  lemma DecodeThree(s: string, a: nat, b: nat, c: nat)
    requires |s| == 3 && s[0] as int == 0xE0 + a && a < 0x10 && b < 0x40 && c < 0x40
    requires Tail(s[1]) && Tail(s[2]) && s[1] as int - 0x80 == b && s[2] as int - 0x80 == c
    requires (a == 0 ==> b >= 0x20) && (a == 0xD ==> b < 0x20)
    ensures Decode(s) == a * 0x1000 + b * 0x40 + c
  {
    hide Tail;
  }

  lemma FourBytes(cp: CodePoint)
    requires 0x10000 <= cp
    ensures Decode(Utf8(cp)) == cp
  {
    hide Continuation, Tail, Decode, Utf8;
    FourParts(cp);
    Utf8Four(cp);
    Rest(cp);
    Rest(cp / 0x40);
    Rest(cp / 0x1000);
    DecodeFour(Utf8(cp), cp / 0x40000, cp / 0x1000 % 0x40, cp / 0x40 % 0x40, cp % 0x40);
  }

  lemma Utf8Four(cp: CodePoint)
    requires 0x10000 <= cp
    ensures |Utf8(cp)| == 4 && Utf8(cp)[0] as int == 0xF0 + cp / 0x40000
    ensures Utf8(cp)[1] == Continuation(cp / 0x1000) && Utf8(cp)[2] == Continuation(cp / 0x40) && Utf8(cp)[3] == Continuation(cp)
  {
    hide Continuation;
  }

  lemma FourParts(cp: int)
    requires 0x10000 <= cp < 0x110000
    ensures var a, b := cp / 0x40000, cp / 0x1000 % 0x40;
            && cp == a * 0x40000 + b * 0x1000 + cp / 0x40 % 0x40 * 0x40 + cp % 0x40
            && 0 <= a <= 4 && (a == 0 ==> b >= 0x10) && (a == 4 ==> b < 0x10)
  {
  }

  lemma DecodeFour(s: string, a: nat, b: nat, c: nat, d: nat)
    requires |s| == 4 && s[0] as int == 0xF0 + a && a <= 4 && b < 0x40 && c < 0x40 && d < 0x40
    requires Tail(s[1]) && Tail(s[2]) && Tail(s[3])
    requires s[1] as int - 0x80 == b && s[2] as int - 0x80 == c && s[3] as int - 0x80 == d
    requires (a == 0 ==> b >= 0x10) && (a == 4 ==> b < 0x10)
    ensures Decode(s) == a * 0x40000 + b * 0x1000 + c * 0x40 + d
  {
    hide Tail;
  }

  // ----- escapes -----

  /** A hexadecimal digit in either case. */
  function Spelled(d: int, upper: bool): (c: char)
    requires 0 <= d < 16
  {
    if upper then "0123456789ABCDEF"[d] else "0123456789abcdef"[d]
  }

  function FourHex(n: int, upper: bool): (t: string)
    requires 0 <= n < 0x10000
    ensures |t| == 4
  {
    [Spelled(n / 0x1000, upper), Spelled(n / 0x100 % 0x10, upper), Spelled(n / 0x10 % 0x10, upper), Spelled(n % 0x10, upper)]
  }

  /** A UTF-16 unit as an escape. */
  function UnitText(n: int, upper: bool): (t: string)
    requires 0 <= n < 0x10000
    ensures |t| == 6
  {
    [BACKSLASH, 'u'] + FourHex(n, upper)
  }

  /** The escape of a code point: one unit, or a pair of surrogates. */
  function CodeText(cp: int, upper: bool): (t: string)
    requires 0 <= cp < 0x110000
    ensures |t| >= 6
  {
    if cp < 0x10000 then UnitText(cp, upper)
    else UnitText(0xD800 + (cp - 0x10000) / 0x400, upper) + UnitText(0xDC00 + (cp - 0x10000) % 0x400, upper)
  }

  lemma SpelledValue(d: int, upper: bool)
    requires 0 <= d < 16
    ensures HexValue(Spelled(d, upper)) == d
  {
  }

  lemma FourHexBack(s: string, i: nat, n: int, upper: bool)
    requires 0 <= n < 0x10000 && Holds(s, i, FourHex(n, upper))
    ensures Hex4(s, i) == n && FourPlain(s, i)
  {
    hide Spelled, HexValue, FourHex, Holds;
    HoldsAt(s, i, FourHex(n, upper), 0);
    HoldsAt(s, i, FourHex(n, upper), 1);
    HoldsAt(s, i, FourHex(n, upper), 2);
    HoldsAt(s, i, FourHex(n, upper), 3);
    FourHexValues(n, upper);
    assert n == ((n / 0x1000 * 16 + n / 0x100 % 0x10) * 16 + n / 0x10 % 0x10) * 16 + n % 0x10;
  }

  lemma FourHexValues(n: int, upper: bool)
    requires 0 <= n < 0x10000
    ensures var t := FourHex(n, upper);
            && HexValue(t[0]) == n / 0x1000 && HexValue(t[1]) == n / 0x100 % 0x10
            && HexValue(t[2]) == n / 0x10 % 0x10 && HexValue(t[3]) == n % 0x10
  {
    hide Spelled, HexValue;
    SpelledValue(n / 0x1000, upper);
    SpelledValue(n / 0x100 % 0x10, upper);
    SpelledValue(n / 0x10 % 0x10, upper);
    SpelledValue(n % 0x10, upper);
  }

  lemma UnitBack(s: string, i: nat, n: int, upper: bool)
    requires 0 <= n < 0x10000 && Holds(s, i, UnitText(n, upper))
    ensures i + 6 <= |s| && s[i] == BACKSLASH && s[i + 1] == 'u' && Hex4(s, i + 2) == n && FourPlain(s, i + 2)
  {
    hide Hex4, FourHex, Holds;
    HoldsParts(s, i, [BACKSLASH, 'u'], FourHex(n, upper));
    HoldsAt(s, i, [BACKSLASH, 'u'], 0);
    HoldsAt(s, i, [BACKSLASH, 'u'], 1);
    FourHexBack(s, i + 2, n, upper);
  }

  /** The escape of a code point, in either case of its digits, is read as the UTF-8 of that code point. */
  lemma CodeBack(s: string, i: nat, cp: CodePoint, upper: bool)
    requires cp != 0 && Holds(s, i, CodeText(cp, upper))
    ensures i + |CodeText(cp, upper)| <= |s| && s[i] == BACKSLASH && s[i + 1] == 'u'
    ensures Unescape(s, i) == (Utf8(cp), i + |CodeText(cp, upper)|)
  {
    hide Hex4, Utf8, UnitText, Holds;
    if cp < 0x10000 {
      UnitBack(s, i, cp, upper);
    } else {
      var high, low := 0xD800 + (cp - 0x10000) / 0x400, 0xDC00 + (cp - 0x10000) % 0x400;
      HoldsParts(s, i, UnitText(high, upper), UnitText(low, upper));
      UnitBack(s, i, high, upper);
      UnitBack(s, i + 6, low, upper);
      assert 0x10000 + high % 1024 * 1024 + low % 1024 == cp;
    }
  }

  /**
    Escapes that stand for no character leave nothing behind: the unit 0, a low surrogate of its own, a high one without an
    escape behind it - what is passed over then is the one escape - or with one that is no low surrogate, and
    missing digits.
   */
  lemma NoCharacter(s: string, i: nat)
    requires i + 1 < |s| && s[i] == BACKSLASH && s[i + 1] == 'u'
    ensures Hex4(s, i + 2) == 0 || 0xDC00 <= Hex4(s, i + 2) <= 0xDFFF ==> Unescape(s, i) == ([], i + 6)
    ensures 0xD800 <= Hex4(s, i + 2) <= 0xDBFF ==>
              var pair := i + 7 < |s| && s[i + 6] == BACKSLASH && s[i + 7] == 'u';
              && (!pair ==> Unescape(s, i) == ([], i + 6))
              && (pair && !(0xDC00 <= Hex4(s, i + 8) <= 0xDFFF) ==> Unescape(s, i) == ([], i + 12))
    ensures Hex4(s, i + 2) == 0 <==>
              (exists k :: i + 2 <= k < i + 6 && (k >= |s| || HexValue(s[k]) < 0)) || Zeros(s, i + 2)
  {
    hide Utf8;
    if Hex4(s, i + 2) == 0 && i + 6 <= |s| && forall k :: i + 2 <= k < i + 6 ==> HexValue(s[k]) >= 0 {
      ZeroDigit(s[i + 2]);
      ZeroDigit(s[i + 3]);
      ZeroDigit(s[i + 4]);
      ZeroDigit(s[i + 5]);
      assert s[i + 2..i + 6] == "0000";
    }
    if i + 6 <= |s| && s[i + 2..i + 6] == "0000" {
      assert s[i + 2] == s[i + 2..i + 6][0] && s[i + 3] == s[i + 2..i + 6][1];
      assert s[i + 4] == s[i + 2..i + 6][2] && s[i + 5] == s[i + 2..i + 6][3];
    }
  }

  predicate Zeros(s: string, i: nat) {
    i + 4 <= |s| && s[i..i + 4] == "0000"
  }

  lemma ZeroDigit(c: char)
    ensures HexValue(c) == 0 <==> c == '0'
  {
  }

  // ----- strings of escapes -----

  function AllText(cps: seq<CodePoint>, upper: bool): (t: string)
  {
    if cps == [] then [] else CodeText(cps[0], upper) + AllText(cps[1..], upper)
  }

  function AllBytes(cps: seq<CodePoint>): (b: string)
  {
    if cps == [] then [] else Utf8(cps[0]) + AllBytes(cps[1..])
  }

  lemma {:induction false} AllBack(s: string, i: nat, cps: seq<CodePoint>, upper: bool)
    requires 0 !in cps && Holds(s, i, AllText(cps, upper))
    requires At(s, i + |AllText(cps, upper)|) == QUOTE
    ensures Body(s, i) == Ok(AllBytes(cps), i + |AllText(cps, upper)|) && Complete(s, i)
    decreases |cps|
  {
    hide Utf8, Unescape, CodeText, Holds, Hex4;
    if cps != [] {
      var t := CodeText(cps[0], upper);
      HoldsParts(s, i, t, AllText(cps[1..], upper));
      CodeBack(s, i, cps[0], upper);
      AllBack(s, i + |t|, cps[1..], upper);
      CodeComplete(s, i, cps[0], upper);
    }
  }

  lemma CodeComplete(s: string, i: nat, cp: CodePoint, upper: bool)
    requires Holds(s, i, CodeText(cp, upper)) && i + |CodeText(cp, upper)| <= |s|
    requires Complete(s, i + |CodeText(cp, upper)|)
    ensures Complete(s, i)
  {
    hide Hex4, UnitText, Holds;
    if cp < 0x10000 {
      UnitBack(s, i, cp, upper);
    } else {
      var high, low := 0xD800 + (cp - 0x10000) / 0x400, 0xDC00 + (cp - 0x10000) % 0x400;
      HoldsParts(s, i, UnitText(high, upper), UnitText(low, upper));
      UnitBack(s, i, high, upper);
      UnitBack(s, i + 6, low, upper);
      assert Complete(s, i + 6);
    }
  }

  /** A string literal of escapes is parsed to the UTF-8 of its code points, each of which decodes to what was escaped. */
  lemma EscapesParsed(cps: seq<CodePoint>, upper: bool)
    requires 0 !in cps
    ensures var s := [QUOTE] + AllText(cps, upper) + [QUOTE]; StringAt(s, 0) == Ok(AllBytes(cps), |s|)
    ensures forall k :: 0 <= k < |cps| ==> Decode(Utf8(cps[k])) == cps[k]
  {
    hide Utf8, CodeText, Body, Count, Complete, Decode;
    var t := AllText(cps, upper);
    var s := [QUOTE] + t + [QUOTE];
    assert s[1..1 + |t|] == t;
    AllBack(s, 1, cps, upper);
    CompleteFits(s, 1);
    forall k | 0 <= k < |cps|
      ensures Decode(Utf8(cps[k])) == cps[k]
    {
      Utf8Decodes(cps[k]);
    }
  }

  // ----- the escapes with letters -----

  /** What the printer writes for a character. */
  lemma EscapeTable(c: char)
    requires c != NUL
    ensures Escape(c) ==
            if c == '\"' then "\\\"" else if c == '\\' then "\\\\"
            else if c as int == 8 then "\\b" else if c as int == 12 then "\\f" else if c as int == 10 then "\\n"
            else if c as int == 13 then "\\r" else if c as int == 9 then "\\t"
            else if c as int < 0x20 then "\\u00" + [Spelled(c as int / 16, false), Spelled(c as int % 16, false)]
            else [c]
  {
  }

  /** What the parser reads for a backslash and a character other than u. */
  lemma UnescapeTable(s: string, i: nat)
    requires i + 1 < |s| && s[i] == '\\' && s[i + 1] != 'u'
    ensures var c := s[i + 1];
            Unescape(s, i) ==
            ([if c == 'b' then 8 as char else if c == 'f' then 12 as char else if c == 'n' then 10 as char
              else if c == 'r' then 13 as char else if c == 't' then 9 as char else c], i + 2)
  {
  }

  /** Between the quotes of a printed string stands no control character. */
  lemma {:induction false} NoControls(t: string)
    requires NUL !in t
    ensures forall k :: 0 <= k < |Escaped(t)| ==> Escaped(t)[k] as int >= 0x20
    decreases |t|
  {
    if t != [] {
      NoControls(t[1..]);
      EscapeClean(t[0]);
    }
  }

  lemma EscapeClean(c: char)
    requires c != NUL
    ensures forall k :: 0 <= k < |Escape(c)| ==> Escape(c)[k] as int >= 0x20
  {
    EscapeTable(c);
  }
}
