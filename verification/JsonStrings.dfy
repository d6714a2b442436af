/**
  The pieces both printers of cJSON share: measuring and writing an escaped string, writing tabs, the
  length of a printed int, and that no printed text holds a NUL.
 */
module JsonStrings {
  import opened JsonText

  // ----- escaped strings -----

  lemma {:induction false} EscapedAppend(s: string, c: char)
    ensures Escaped(s + [c]) == Escaped(s) + Escape(c)
    decreases |s|
  {
    hide Escape;
    if s == [] {
      assert [c][1..] == [] && Escaped([c]) == Escape(c) + [];
      assert s + [c] == [c];
    } else {
      assert (s + [c])[1..] == s[1..] + [c];
      EscapedAppend(s[1..], c);
    }
  }

  lemma QuotedLength(s: string)
    ensures |Quoted(s)| == |Escaped(s)| + 2
  {
  }

  predicate Special(c: char) {
    NUL < c < ' ' || c == QUOTE || c == BACKSLASH
  }

  lemma {:induction false} EscapedPlain(s: string)
    requires NUL !in s && forall i :: 0 <= i < |s| ==> !Special(s[i])
    ensures Escaped(s) == s
    decreases |s|
  {
    if s != [] {
      EscapedPlain(s[1..]);
      assert Escape(s[0]) == [s[0]];
      assert [s[0]] + s[1..] == s;
    }
  }

  lemma {:induction false} EscapedGrows(s: string, i: nat)
    requires i < |s|
    ensures |Escaped(s[..i])| + |Escape(s[i])| <= |Escaped(s)|
    decreases |s| - i
  {
    hide Escape;
    EscapedAppend(s[..i], s[i]);
    assert s[..i] + [s[i]] == s[..i + 1];
    if i + 1 < |s| {
      EscapedGrows(s, i + 1);
    } else {
      assert s[..i + 1] == s;
    }
  }

  lemma EscapeSize(c: char)
    ensures |Escape(c)| ==
            if c in "\"\\" || c == BACKSPACE || c == FORMFEED || c in "\n\r\t" then 2 else if c < ' ' then 6 else 1
  {
  }

  lemma EscapedNone(s: string)
    requires s == []
    ensures Escaped(s) == []
  {
  }

  /** The passes over a string before it is printed: its escaped length, and whether any character is escaped. */
  method Measure(s: string) returns (len: nat, flag: bool)
    requires NUL !in s
    ensures len == |Escaped(s)| && (!flag ==> Escaped(s) == s)
  {
    hide Escape, Escaped;
    flag := false;
    var i := 0;
    while i < |s|
      invariant 0 <= i <= |s| && (!flag ==> forall k :: 0 <= k < i ==> !Special(s[k]))
    {
      flag := flag || Special(s[i]);
      i := i + 1;
    }
    if !flag {
      EscapedPlain(s);
      return |s|, flag;
    }
    len, i := 0, 0;
    EscapedNone(s[..0]);
    while i < |s|
      invariant 0 <= i <= |s| && len == |Escaped(s[..i])|
    {
      EscapedAppend(s[..i], s[i]);
      EscapeSize(s[i]);
      assert s[..i] + [s[i]] == s[..i + 1];
      len := len + 1;
      if s[i] in "\"\\" || s[i] == BACKSPACE || s[i] == FORMFEED || s[i] in "\n\r\t" {
        len := len + 1;
      } else if s[i] < ' ' {
        len := len + 5;
      }
      i := i + 1;
    }
    assert s[..|s|] == s;
  }

  /** A string is written between quotes, with a terminator. */
  method WriteString(out: array<char>, k: nat, s: string, flag: bool) returns (end: nat)
    requires NUL !in s && k + |Quoted(s)| < out.Length && (!flag ==> Escaped(s) == s)
    modifies out
    ensures end == k + |Quoted(s)| && out[..end] == old(out[..k]) + Quoted(s) && out[end] == NUL
  {
    hide Escaped, Escape;
    ghost var before := out[..k];
    end := Store(out, k, [QUOTE]);
    if !flag {
      end := Store(out, end, s);
    } else {
      var i := 0;
      NoneEscaped(s);
      while i < |s|
        invariant 0 <= i <= |s| && end == k + 1 + |Escaped(s[..i])| && |Escaped(s[..i])| <= |Escaped(s)|
        invariant out[..end] == before + [QUOTE] + Escaped(s[..i])
      {
        EscapedAppend(s[..i], s[i]);
        EscapedGrows(s, i);
        assert s[..i] + [s[i]] == s[..i + 1];
        assert before + [QUOTE] + Escaped(s[..i + 1]) == before + [QUOTE] + Escaped(s[..i]) + Escape(s[i]);
        end := Store(out, end, Escape(s[i]));
        i := i + 1;
      }
      assert s[..|s|] == s;
    }
    assert out[..end] == before + [QUOTE] + Escaped(s);
    assert before + [QUOTE] + Escaped(s) + [QUOTE] == before + Quoted(s);
    end := Store(out, end, [QUOTE]);
    out[end] := NUL;
  }

  lemma NoneEscaped(s: string)
    ensures s[..0] == [] && Escaped(s[..0]) == []
  {
  }

  method Indent(out: array<char>, k: nat, n: int) returns (end: nat)
    requires k + |Tabs(n)| <= out.Length
    modifies out
    ensures end == k + |Tabs(n)| && out[..end] == old(out[..k]) + Tabs(n)
  {
    var i := 0;
    end := k;
    while i < n
      invariant 0 <= i && (i <= n || i == 0) && end == k + i
      invariant out[..end] == old(out[..k]) + Tabs(i)
    {
      out[end] := '\t';
      assert out[..end + 1] == out[..end] + ['\t'];
      assert Tabs(i + 1) == Tabs(i) + ['\t'];
      end, i := end + 1, i + 1;
    }
  }

  // ----- ints -----

  lemma DecimalLength(m: int)
    requires INT_MIN <= m <= INT_MAX
    ensures |Decimal(m)| <= 11
  {
    assert Pow10(5) == 100000;
    assert Pow10(10) == 10000000000;
    DigitsLength(if m < 0 then -m else m, 10);
  }

  function Pow10(k: nat): nat {
    if k == 0 then 1 else 10 * Pow10(k - 1)
  }

  lemma {:induction false} DigitsLength(n: nat, k: nat)
    requires k > 0 && n < Pow10(k)
    ensures |Digits(n)| <= k
    decreases k
  {
    if n >= 10 {
      DigitsLength(n / 10, k - 1);
    }
  }

  // ----- printed text holds no NUL -----

  lemma {:induction false} EscapedNoNul(s: string)
    requires NUL !in s
    ensures NUL !in Escaped(s)
    decreases |s|
  {
    if s != [] {
      EscapeNoNul(s[0]);
      EscapedNoNul(s[1..]);
    }
  }

  lemma EscapeNoNul(c: char)
    requires c != NUL
    ensures NUL !in Escape(c)
  {
    if Letter(c) == NUL && c < ' ' {
      var a, b := HexDigit(c as int / 16), HexDigit(c as int % 16);
      assert HexValue(a) >= 0 && HexValue(b) >= 0;
    }
  }

  lemma DecimalNoNul(m: int)
    ensures NUL !in Decimal(m)
  {
    var d := Digits(if m < 0 then -m else m);
    assert forall i :: 0 <= i < |d| ==> IsDigit(d[i]);
  }

  lemma {:induction false} PrintNoNul(t: Json, depth: nat, fmt: bool)
    requires Plain(t)
    ensures NUL !in Print(t, depth, fmt)
    decreases t
  {
    hide Decimal, Quoted, PrintItems, PrintMembers;
    match t {
      case Num(m, e) => DecimalNoNul(m);
      case Str(text) => QuotedNoNul(text);
      case Arr(items) => ItemsNoNul(items, depth + 1, fmt);
      case Obj(members) => MembersNoNul(members, depth + 1, fmt);
      case _ =>
    }
  }

  lemma QuotedNoNul(s: string)
    requires NUL !in s
    ensures NUL !in Quoted(s)
  {
    EscapedNoNul(s);
  }

  lemma {:induction false} ItemsNoNul(xs: Items, depth: nat, fmt: bool)
    requires PlainItems(xs)
    ensures NUL !in PrintItems(xs, depth, fmt)
    decreases xs
  {
    hide Print;
    if xs.Item? {
      PrintNoNul(xs.value, depth, fmt);
      ItemsNoNul(xs.next, depth, fmt);
    }
  }

  lemma {:induction false} MembersNoNul(ms: Members, depth: nat, fmt: bool)
    requires PlainMembers(ms)
    ensures NUL !in PrintMembers(ms, depth, fmt)
    decreases ms
  {
    hide Print, Quoted;
    if ms.Member? {
      QuotedNoNul(ms.name);
      PrintNoNul(ms.value, depth, fmt);
      MembersNoNul(ms.next, depth, fmt);
    }
  }
}
