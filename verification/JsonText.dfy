/**
  JSON trees, the text cJSON prints for them, and the text positions the parser works on. A text is what
  stands in memory before its terminating NUL; bytes are characters.
 */
module JsonText {

  datatype Json = Null | False | True | Num(mantissa: int, exponent: int) | Str(text: string) | Arr(items: Items) | Obj(members: Members)

  /** The chain of children of an array. */
  datatype Items = NoItem | Item(value: Json, next: Items)

  /** The chain of children of an object, each with its name. */
  datatype Members = NoMember | Member(name: string, value: Json, next: Members)

  const NUL: char := '\0'
  const QUOTE: char := '\"'
  const BACKSLASH: char := '\\'
  const BACKSPACE: char := 8 as char
  const FORMFEED: char := 12 as char

  const INT_MIN := -0x8000_0000
  const INT_MAX := 0x7fff_ffff

  /** Trees the printer writes and the parser reads back: C strings, and numbers that are ints. */
  predicate Plain(t: Json) {
    match t
    case Num(m, e) => e == 0 && INT_MIN <= m <= INT_MAX
    case Str(text) => NUL !in text
    case Arr(items) => PlainItems(items)
    case Obj(members) => PlainMembers(members)
    case _ => true
  }

  predicate PlainItems(xs: Items) {
    match xs
    case NoItem => true
    case Item(v, next) => Plain(v) && PlainItems(next)
  }

  predicate PlainMembers(ms: Members) {
    match ms
    case NoMember => true
    case Member(name, v, next) => NUL !in name && Plain(v) && PlainMembers(next)
  }

  // ----- characters -----

  predicate IsDigit(c: char) {
    '0' <= c <= '9'
  }

  function Digit(d: int): (c: char)
    requires 0 <= d < 10
    ensures IsDigit(c) && DigitValue(c) == d
  {
    (d + 48) as char
  }

  function DigitValue(c: char): (d: int)
    requires IsDigit(c)
    ensures 0 <= d < 10
  {
    c as int - 48
  }

  /** A lower case hexadecimal digit. */
  function HexDigit(d: int): (c: char)
    requires 0 <= d < 16
    ensures HexValue(c) == d
  {
    if d < 10 then (d + 48) as char else (d + 87) as char
  }

  /** The value of a hexadecimal digit, -1 for any other character. */
  function HexValue(c: char): (d: int)
    ensures -1 <= d < 16 && (d >= 0 ==> c != NUL && c != QUOTE && c != BACKSLASH)
  {
    if '0' <= c <= '9' then c as int - 48
    else if 'A' <= c <= 'F' then c as int - 55
    else if 'a' <= c <= 'f' then c as int - 87
    else -1
  }

  // ----- printing -----

  /** sprintf("%d") */
  function Decimal(n: int): (r: string)
    ensures |r| > 0
  {
    if n < 0 then "-" + Digits(-n) else Digits(n)
  }

  function Digits(n: nat): (r: string)
    ensures |r| > 0 && (forall i :: 0 <= i < |r| ==> IsDigit(r[i])) && (r[0] == '0' <==> n == 0)
  {
    if n < 10 then [Digit(n)] else Digits(n / 10) + [Digit(n % 10)]
  }

  /** The letter of a two-character escape, NUL for characters that have none. */
  function Letter(c: char): (r: char)
    ensures r != NUL ==> r in "\"\\bfnrt"
  {
    if c == QUOTE then QUOTE
    else if c == BACKSLASH then BACKSLASH
    else if c == BACKSPACE then 'b'
    else if c == FORMFEED then 'f'
    else if c == '\n' then 'n'
    else if c == '\r' then 'r'
    else if c == '\t' then 't'
    else NUL
  }

  function Escape(c: char): (r: string)
    ensures |r| > 0
  {
    if Letter(c) != NUL then [BACKSLASH, Letter(c)]
    else if c < ' ' then [BACKSLASH, 'u', '0', '0', HexDigit(c as int / 16), HexDigit(c as int % 16)]
    else [c]
  }

  function Escaped(s: string): (r: string) {
    if s == [] then [] else Escape(s[0]) + Escaped(s[1..])
  }

  function Quoted(s: string): (r: string)
    ensures |r| >= 2 && r[0] == QUOTE
  {
    [QUOTE] + Escaped(s) + [QUOTE]
  }

  function Tabs(n: int): (r: string)
    ensures |r| == if n > 0 then n else 0
    ensures forall i :: 0 <= i < |r| ==> r[i] == '\t'
  {
    if n <= 0 then [] else ['\t'] + Tabs(n - 1)
  }

  /** Text that only the formatted form has. */
  function Fmt(fmt: bool, s: string): (r: string) {
    if fmt then s else []
  }

  /** The text of a tree at a nesting depth, formatted or compact. */
  function Print(t: Json, depth: nat, fmt: bool): (r: string)
    ensures |r| > 0
    decreases t
  {
    match t
    case Null => "null"
    case False => "false"
    case True => "true"
    case Num(m, e) => Decimal(m)
    case Str(text) => Quoted(text)
    case Arr(items) => if items.NoItem? then "[]" else "[" + PrintItems(items, depth + 1, fmt) + "]"
    case Obj(members) =>
      if members.NoMember? then "{" + Fmt(fmt, "\n" + Tabs(depth - 1)) + "}"
      else "{" + Fmt(fmt, "\n") + PrintMembers(members, depth + 1, fmt) + Fmt(fmt, Tabs(depth)) + "}"
  }

  function PrintItems(xs: Items, depth: nat, fmt: bool): (r: string)
    decreases xs
  {
    match xs
    case NoItem => []
    case Item(v, next) =>
      Print(v, depth, fmt) + (if next.NoItem? then [] else "," + Fmt(fmt, " ") + PrintItems(next, depth, fmt))
  }

  function PrintMembers(ms: Members, depth: nat, fmt: bool): (r: string)
    decreases ms
  {
    match ms
    case NoMember => []
    case Member(name, v, next) =>
      Fmt(fmt, Tabs(depth)) + Quoted(name) + ":" + Fmt(fmt, "\t") + Print(v, depth, fmt)
      + (if next.NoMember? then [] else ",") + Fmt(fmt, "\n") + PrintMembers(next, depth, fmt)
  }

  // ----- places in a text -----

  /** What is read at a place: the terminator behind the text. */
  function At(s: string, i: nat): (c: char)
    requires i <= |s|
  {
    if i < |s| then s[i] else NUL
  }

  /** p stands in s at place i. */
  predicate Holds(s: string, i: nat, p: string)
    ensures Holds(s, i, p) ==> i + |p| <= |s|
    ensures i <= |s| && p == [] ==> Holds(s, i, p)
  {
    i + |p| <= |s| && s[i..i + |p|] == p
  }

  lemma HoldsParts(s: string, i: nat, a: string, b: string)
    requires Holds(s, i, a + b)
    ensures Holds(s, i, a) && Holds(s, i + |a|, b)
  {
    var p := a + b;
    assert s[i..i + |p|][..|a|] == a;
    assert s[i..i + |p|][|a|..] == b;
  }

  lemma HoldsAt(s: string, i: nat, p: string, k: nat)
    requires Holds(s, i, p) && k < |p|
    ensures i + k < |s| && s[i + k] == p[k] && At(s, i + k) == p[k]
  {
    assert s[i..i + |p|][k] == s[i + k];
  }

  /** strcpy, memcpy and the writes through an advancing pointer: characters stored from place k on. */
  method Store(out: array<char>, k: nat, s: string) returns (end: nat)
    requires k + |s| <= out.Length
    modifies out
    ensures end == k + |s| && out[..end] == old(out[..k]) + s
  {
    var j := 0;
    while j < |s|
      invariant 0 <= j <= |s| && out[..k + j] == old(out[..k]) + s[..j]
    {
      out[k + j] := s[j];
      j := j + 1;
      assert out[..k + j] == out[..k + j - 1] + [s[j - 1]];
      assert s[..j] == s[..j - 1] + [s[j - 1]];
    }
    assert s[..|s|] == s;
    end := k + |s|;
  }
}
