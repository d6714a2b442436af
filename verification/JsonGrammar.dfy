/**
  What the parser of cJSON accepts, as functions of the text and a place in it: strings with their
  escapes, numbers, arrays, objects.
 */
module JsonGrammar {
  import opened JsonText

  /** A value and the place behind it, the place of an error, or a read past the terminator or a write past the buffer. */
  datatype Parsed<T> = Ok(value: T, next: nat) | Fail(at: nat) | Overrun

  /** The place behind white space. */
  function Skip(s: string, i: nat): (r: nat)
    requires i <= |s|
    ensures i <= r <= |s|
    decreases |s| - i
  {
    if i < |s| && NUL < s[i] <= ' ' then Skip(s, i + 1) else i
  }

  // ----- strings -----

  /** Four hexadecimal digits, 0 when one is missing. */
  function Hex4(s: string, i: nat): (h: nat)
    requires i <= |s|
    ensures h < 0x10000 && (h > 0 ==> i + 4 <= |s|)
  {
    if HexValue(At(s, i)) < 0 then 0
    else if HexValue(At(s, i + 1)) < 0 then 0
    else if HexValue(At(s, i + 2)) < 0 then 0
    else if HexValue(At(s, i + 3)) < 0 then 0
    else ((HexValue(At(s, i)) * 16 + HexValue(At(s, i + 1))) * 16 + HexValue(At(s, i + 2))) * 16 + HexValue(At(s, i + 3))
  }

  function Continuation(x: nat): (c: char) {
    (0x80 + x % 64) as char
  }

  /** The UTF-8 bytes of a code point. */
  function Utf8(uc: nat): (r: string)
    requires uc < 0x110000
    ensures 1 <= |r| <= 4
  {
    if uc < 0x80 then [uc as char]
    else if uc < 0x800 then [(0xC0 + uc / 64) as char, Continuation(uc)]
    else if uc < 0x10000 then [(0xE0 + uc / 4096) as char, Continuation(uc / 64), Continuation(uc)]
    else [(0xF0 + uc / 262144) as char, Continuation(uc / 4096), Continuation(uc / 64), Continuation(uc)]
  }

  /** The bytes an escape stands for, and the place behind it, which can lie past the terminator. */
  function Unescape(s: string, i: nat): (r: (string, nat))
    requires i < |s| && s[i] == BACKSLASH
    ensures r.1 > i + 1 && |r.0| <= r.1 - i
  {
    var c := At(s, i + 1);
    if c == 'b' then ([BACKSPACE], i + 2)
    else if c == 'f' then ([FORMFEED], i + 2)
    else if c == 'n' then (['\n'], i + 2)
    else if c == 'r' then (['\r'], i + 2)
    else if c == 't' then (['\t'], i + 2)
    else if c == 'u' then UnescapeHex(s, i)
    else ([c], i + 2)
  }

  /** An escape of four hexadecimal digits, or two of them for a surrogate pair. */
  function UnescapeHex(s: string, i: nat): (r: (string, nat))
    requires i + 1 < |s| && s[i + 1] == 'u'
    ensures r.1 >= i + 6 && |r.0| <= 4
  {
    var uc := Hex4(s, i + 2);
    if uc == 0 || 0xDC00 <= uc <= 0xDFFF then ([], i + 6)
    else if uc < 0xD800 || 0xDBFF < uc then (Utf8(uc), i + 6)
    else if At(s, i + 6) != BACKSLASH || At(s, i + 7) != 'u' then ([], i + 6)
    else
      var low := Hex4(s, i + 8);
      if low < 0xDC00 || low > 0xDFFF then ([], i + 12)
      else (Utf8(0x10000 + uc % 1024 * 1024 + low % 1024), i + 12)
  }

  /** The contents of a string from place i on, and the place of the quote or terminator that ends it. */
  function Body(s: string, i: nat): (r: Parsed<string>)
    requires i <= |s|
    ensures r.Ok? ==> i <= r.next <= |s|
    ensures !r.Fail?
    decreases |s| - i
  {
    if At(s, i) == QUOTE || At(s, i) == NUL then Ok([], i)
    else
      var (bytes, next) := if s[i] == BACKSLASH then Unescape(s, i) else ([s[i]], i + 1);
      if next > |s| then Overrun
      else
        var rest := Body(s, next);
        if rest.Ok? then Ok(bytes + rest.value, rest.next) else rest
  }

  /** The number of characters of a string, an escape counting for one; none when it reads past the terminator. */
  function Count(s: string, i: nat): (r: Parsed<nat>)
    requires i <= |s|
    ensures !r.Fail?
    decreases |s| - i
  {
    if At(s, i) == QUOTE || At(s, i) == NUL then Ok(0, i)
    else
      var next := if s[i] == BACKSLASH then i + 2 else i + 1;
      if next > |s| then Overrun
      else
        var rest := Count(s, next);
        if rest.Ok? then Ok(1 + rest.value, rest.next) else rest
  }

  /** A string at place i; the buffer for its contents has room for as many bytes as were counted. */
  function StringAt(s: string, i: nat): (r: Parsed<string>)
    requires i <= |s|
    ensures r.Ok? ==> i < r.next <= |s|
  {
    if At(s, i) != QUOTE then Fail(i)
    else
      var count, body := Count(s, i + 1), Body(s, i + 1);
      if count.Ok? && body.Ok? && |body.value| <= count.value then
        Ok(body.value, if At(s, body.next) == QUOTE then body.next + 1 else body.next)
      else Overrun
  }

  // ----- numbers -----

  /** The place behind a run of digits. */
  function DigitsEnd(s: string, i: nat): (r: nat)
    requires i <= |s|
    ensures i <= r <= |s|
    ensures forall k :: i <= k < r ==> IsDigit(s[k])
    ensures r < |s| ==> !IsDigit(s[r])
    decreases |s| - i
  {
    if i < |s| && IsDigit(s[i]) then DigitsEnd(s, i + 1) else i
  }

  /** The digits from i to j, read behind the number acc. */
  function Reading(s: string, i: nat, j: nat, acc: nat): (r: nat)
    requires i <= j <= |s| && forall k :: i <= k < j ==> IsDigit(s[k])
    decreases j - i
  {
    if i == j then acc else Reading(s, i + 1, j, acc * 10 + DigitValue(s[i]))
  }

  /** Digits before the point: one zero, then digits that do not start with zero. */
  function WholePart(s: string, i: nat): (r: (nat, nat))
    requires i <= |s|
    ensures i <= r.1 <= |s| && (i < |s| && IsDigit(s[i]) ==> i < r.1)
  {
    var k := if At(s, i) == '0' then i + 1 else i;
    if '1' <= At(s, k) <= '9' then (Reading(s, k, DigitsEnd(s, k), 0), DigitsEnd(s, k)) else (0, k)
  }

  /** Digits behind the point, read on behind those before it; the point alone is not taken. */
  function Fraction(s: string, i: nat, acc: nat): (r: (nat, nat))
    requires i <= |s|
    ensures i <= r.1 <= |s|
  {
    if At(s, i) == '.' && IsDigit(At(s, i + 1)) then
      (Reading(s, i + 1, DigitsEnd(s, i + 1), acc), DigitsEnd(s, i + 1))
    else (acc, i)
  }

  function Exponent(s: string, i: nat): (r: (int, nat))
    requires i <= |s|
    ensures i <= r.1 <= |s|
  {
    if At(s, i) == 'e' || At(s, i) == 'E' then
      var k := if At(s, i + 1) == '+' || At(s, i + 1) == '-' then i + 2 else i + 1;
      var n := Reading(s, k, DigitsEnd(s, k), 0);
      (if At(s, i + 1) == '-' then 0 - n else n, DigitsEnd(s, k))
    else (0, i)
  }

  /** A number: mantissa times a power of ten. */
  function NumberAt(s: string, i: nat): (r: Parsed<Json>)
    requires i < |s| && (s[i] == '-' || IsDigit(s[i]))
    ensures r.Ok? && i < r.next <= |s|
  {
    var start := if s[i] == '-' then i + 1 else i;
    var (whole, point) := WholePart(s, start);
    var (n, e) := Fraction(s, point, whole);
    var (power, next) := Exponent(s, e);
    Ok(Num(if s[i] == '-' then 0 - n else n, power - (if e > point then e - point - 1 else 0)), next)
  }

  // ----- values -----

  function ValueAt(s: string, i: nat): (r: Parsed<Json>)
    requires i <= |s|
    ensures r.Ok? ==> i < r.next <= |s|
    decreases |s| - i, 0
  {
    if Holds(s, i, "null") then Ok(Null, i + 4)
    else if Holds(s, i, "false") then Ok(False, i + 5)
    else if Holds(s, i, "true") then Ok(True, i + 4)
    else if At(s, i) == QUOTE then
      var r := StringAt(s, i);
      if r.Ok? then Ok(Str(r.value), r.next) else if r.Fail? then Fail(r.at) else Overrun
    else if At(s, i) == '-' || IsDigit(At(s, i)) then NumberAt(s, i)
    else if At(s, i) == '[' then
      if At(s, Skip(s, i + 1)) == ']' then Ok(Arr(NoItem), Skip(s, i + 1) + 1)
      else
        var r := ItemsAt(s, Skip(s, i + 1));
        if r.Ok? then Ok(Arr(r.value), r.next) else if r.Fail? then Fail(r.at) else Overrun
    else if At(s, i) == '{' then
      if At(s, Skip(s, i + 1)) == '}' then Ok(Obj(NoMember), Skip(s, i + 1) + 1)
      else
        var r := MembersAt(s, Skip(s, i + 1));
        if r.Ok? then Ok(Obj(r.value), r.next) else if r.Fail? then Fail(r.at) else Overrun
    else Fail(i)
  }

  /** Values separated by commas, and the bracket that ends them. */
  function ItemsAt(s: string, i: nat): (r: Parsed<Items>)
    requires i <= |s|
    ensures r.Ok? ==> i < r.next <= |s|
    decreases |s| - i, 1
  {
    var v := ValueAt(s, Skip(s, i));
    if v.Fail? then Fail(v.at)
    else if v.Overrun? then Overrun
    else
      var k := Skip(s, v.next);
      if At(s, k) == ',' then
        var rest := ItemsAt(s, k + 1);
        if rest.Ok? then Ok(Item(v.value, rest.value), rest.next) else rest
      else if At(s, k) == ']' then Ok(Item(v.value, NoItem), k + 1)
      else Fail(k)
  }

  /** A name, a colon and a value. */
  function MemberAt(s: string, i: nat): (r: Parsed<(string, Json)>)
    requires i <= |s|
    ensures r.Ok? ==> i < r.next <= |s|
    decreases |s| - i, 1
  {
    var name := StringAt(s, Skip(s, i));
    if name.Fail? then Fail(name.at)
    else if name.Overrun? then Overrun
    else
      var colon := Skip(s, name.next);
      if At(s, colon) != ':' then Fail(colon)
      else
        var v := ValueAt(s, Skip(s, colon + 1));
        if v.Fail? then Fail(v.at)
        else if v.Overrun? then Overrun
        else Ok((name.value, v.value), v.next)
  }

  /** Named values separated by commas, and the brace that ends them. */
  function MembersAt(s: string, i: nat): (r: Parsed<Members>)
    requires i <= |s|
    ensures r.Ok? ==> i < r.next <= |s|
    decreases |s| - i, 2
  {
    var m := MemberAt(s, i);
    if m.Fail? then Fail(m.at)
    else if m.Overrun? then Overrun
    else
      var k := Skip(s, m.next);
      if At(s, k) == ',' then
        var rest := MembersAt(s, k + 1);
        if rest.Ok? then Ok(Member(m.value.0, m.value.1, rest.value), rest.next) else rest
      else if At(s, k) == '}' then Ok(Member(m.value.0, m.value.1, NoMember), k + 1)
      else Fail(k)
  }

  /** A whole text; with nothing but white space behind the value if that is asked for. */
  function Document(s: string, whole: bool): (r: Parsed<Json>)
    ensures r.Ok? ==> r.next <= |s|
  {
    var v := ValueAt(s, Skip(s, 0));
    if whole && v.Ok? then
      if At(s, Skip(s, v.next)) != NUL then Fail(Skip(s, v.next)) else v.(next := Skip(s, v.next))
    else v
  }
}
