/**
  How a formatted text is laid out, read off the text itself: every member of an object stands on a line of its own,
  with one tab for every object and array that is open there, and a tab behind its colon; the values of an array are
  separated by a comma and a space; nothing else is blank.
 */
module JsonLayout {
  import opened JsonText
  import opened JsonRoundTrip
  import opened JsonMinify

  function TabsEnd(s: string, i: nat): (r: nat)
    requires i <= |s|
    ensures i <= r <= |s|
    decreases |s| - i
  {
    if At(s, i) == '\t' then TabsEnd(s, i + 1) else i
  }

  /** The containers that are open, an object or an array each. */
  datatype Open = Object | Array

  function Less(n: int, m: int): int {
    if n > m then n - m else 0
  }

  /**
    The tabs behind a line end: as many as containers are open, one less before the closing brace of an object; two less
    for one without members.
   */
  predicate Indented(s: string, i: nat, open: nat)
    requires i < |s|
  {
    var k := TabsEnd(s, i + 1);
    k - i - 1 == if At(s, k) != '}' then open else if i > 0 && s[i - 1] == '{' then Less(open, 2) else Less(open, 1)
  }

  /** The text from i on is laid out, with these containers open. */
  predicate Laid(s: string, i: nat, open: seq<Open>)
    decreases |s| - i
  {
    if i >= |s| then open == []
    else if s[i] == '\"' then LiteralEnd(s, i + 1) < |s| && Laid(s, LiteralEnd(s, i + 1) + 1, open)
    else if s[i] == '{' then At(s, i + 1) == '\n' && Laid(s, i + 1, open + [Object])
    else if s[i] == '[' then Laid(s, i + 1, open + [Array])
    else if s[i] == '}' then
      open != [] && open[|open| - 1] == Object && i > 0 && s[i - 1] in "\n\t" && Laid(s, i + 1, open[..|open| - 1])
    else if s[i] == ']' then open != [] && open[|open| - 1] == Array && Laid(s, i + 1, open[..|open| - 1])
    else if s[i] == ',' then
      open != [] && if open[|open| - 1] == Object then At(s, i + 1) == '\n' && Laid(s, i + 1, open)
                    else At(s, i + 1) == ' ' && Laid(s, i + 2, open)
    else if s[i] == ':' then At(s, i + 1) == '\t' && Laid(s, i + 2, open)
    else if s[i] == '\n' then Indented(s, i, |open|) && Laid(s, TabsEnd(s, i + 1), open)
    else s[i] > ' ' && Laid(s, i + 1, open)
  }

  // ----- tokens -----

  predicate Simple(c: char) {
    c > ' ' && c !in "\"{}[],:"
  }

  lemma {:induction false} TokenLaid(s: string, i: nat, p: string, open: seq<Open>)
    requires Holds(s, i, p) && forall k :: 0 <= k < |p| ==> Simple(p[k])
    ensures Laid(s, i, open) == Laid(s, i + |p|, open)
    decreases |p|
  {
    hide Holds, Laid;
    if p != [] {
      HoldsAt(s, i, p, 0);
      assert p == [p[0]] + p[1..];
      HoldsParts(s, i, [p[0]], p[1..]);
      SimpleLaid(s, i, open);
      TokenLaid(s, i + 1, p[1..], open);
    }
  }

  lemma SimpleLaid(s: string, i: nat, open: seq<Open>)
    requires i < |s| && Simple(s[i])
    ensures Laid(s, i, open) == Laid(s, i + 1, open)
  {
  }

  lemma QuotedLaid(s: string, i: nat, t: string, open: seq<Open>)
    requires Holds(s, i, Quoted(t)) && NUL !in t
    ensures Laid(s, i, open) == Laid(s, i + |Quoted(t)|, open)
  {
    hide Escaped, Holds;
    var e := i + 1 + |Escaped(t)|;
    HoldsParts(s, i, [QUOTE] + Escaped(t), [QUOTE]);
    HoldsParts(s, i, [QUOTE], Escaped(t));
    HoldsAt(s, i, [QUOTE], 0);
    HoldsAt(s, e, [QUOTE], 0);
    LiteralPassed(s, i + 1, t);
    LiteralStops(s, e);
  }

  lemma {:induction false} TabsPassed(s: string, i: nat, n: int)
    requires i <= |s| && Holds(s, i, Tabs(n)) && At(s, i + |Tabs(n)|) != '\t'
    ensures TabsEnd(s, i) == i + |Tabs(n)|
    decreases n
  {
    hide Holds;
    if n > 0 {
      HoldsParts(s, i, ['\t'], Tabs(n - 1));
      HoldsAt(s, i, ['\t'], 0);
      TabsPassed(s, i + 1, n - 1);
    }
  }

  /** A line end and the tabs behind it. */
  lemma LineLaid(s: string, i: nat, n: int, open: seq<Open>)
    requires i < |s| && s[i] == '\n' && Holds(s, i + 1, Tabs(n)) && At(s, i + 1 + |Tabs(n)|) != '\t'
    requires |Tabs(n)| == if At(s, i + 1 + |Tabs(n)|) != '}' then |open|
                          else if i > 0 && s[i - 1] == '{' then Less(|open|, 2) else Less(|open|, 1)
    ensures Laid(s, i, open) == Laid(s, i + 1 + |Tabs(n)|, open)
  {
    hide Holds;
    TabsPassed(s, i + 1, n);
  }

  lemma BraceLaid(s: string, i: nat, open: seq<Open>)
    requires 0 < i < |s| && s[i] == '}' && s[i - 1] in "\n\t"
    ensures Laid(s, i, open + [Object]) == Laid(s, i + 1, open)
  {
    assert (open + [Object])[..|open|] == open;
  }

  lemma DecimalSimple(m: int)
    ensures forall k :: 0 <= k < |Decimal(m)| ==> Simple(Decimal(m)[k])
  {
    var d := Digits(if m < 0 then -m else m);
    forall k | 0 <= k < |d|
      ensures Simple(d[k])
    {
      assert IsDigit(d[k]);
    }
  }

  /** No value ends in an opening brace. */
  lemma LastSign(t: Json, depth: nat)
    ensures var p := Print(t, depth, true); p[|p| - 1] != '{'
  {
    match t {
      case Num(m, e) => DecimalSimple(m);
      case Str(text) => assert Quoted(text)[|Quoted(text)| - 1] == QUOTE;
      case _ =>
    }
  }

  // ----- values -----

  /** A formatted value keeps a text laid out. */
  lemma {:induction false} ValueLaid(s: string, i: nat, t: Json, open: seq<Open>)
    requires Plain(t) && Holds(s, i, Print(t, |open|, true))
    ensures Laid(s, i, open) == Laid(s, i + |Print(t, |open|, true)|, open)
    decreases t, 0
  {
    hide Holds, Laid, Quoted, Decimal, PrintItems, PrintMembers, Tabs;
    match t {
      case Null => TokenLaid(s, i, "null", open);
      case False => TokenLaid(s, i, "false", open);
      case True => TokenLaid(s, i, "true", open);
      case Num(m, e) =>
        DecimalSimple(m);
        TokenLaid(s, i, Decimal(m), open);
      case Str(text) => QuotedLaid(s, i, text, open);
      case Arr(items) => ArrayLaid(s, i, items, open);
      case Obj(members) => ObjectLaid(s, i, members, open);
    }
  }

  lemma {:induction false} ArrayLaid(s: string, i: nat, xs: Items, open: seq<Open>)
    requires PlainItems(xs) && Holds(s, i, Print(Arr(xs), |open|, true))
    ensures Laid(s, i, open) == Laid(s, i + |Print(Arr(xs), |open|, true)|, open)
    decreases xs, 2
  {
    hide Holds, Laid, PrintItems;
    if xs.NoItem? {
      HoldsAt(s, i, "[]", 0);
      HoldsAt(s, i, "[]", 1);
      BracketsLaid(s, i, i + 1, open);
    } else {
      var body := PrintItems(xs, |open| + 1, true);
      HoldsParts(s, i, "[" + body, "]");
      HoldsParts(s, i, "[", body);
      HoldsAt(s, i, "[", 0);
      HoldsAt(s, i + 1 + |body|, "]", 0);
      ItemsLaid(s, i + 1, xs, open + [Array]);
      BracketsLaid(s, i, i + 1 + |body|, open);
    }
  }

  lemma BracketsLaid(s: string, i: nat, k: nat, open: seq<Open>)
    requires i < k < |s| && s[i] == '[' && s[k] == ']'
    ensures Laid(s, i, open) == Laid(s, i + 1, open + [Array]) && Laid(s, k, open + [Array]) == Laid(s, k + 1, open)
  {
    assert (open + [Array])[..|open|] == open;
  }

  lemma {:induction false} ItemsLaid(s: string, i: nat, xs: Items, open: seq<Open>)
    requires xs.Item? && PlainItems(xs) && open != [] && open[|open| - 1] == Array && Holds(s, i, PrintItems(xs, |open|, true))
    ensures Laid(s, i, open) == Laid(s, i + |PrintItems(xs, |open|, true)|, open)
    decreases xs, 1
  {
    hide Holds, Laid, Print, PrintItems;
    var n := i + |Print(xs.value, |open|, true)|;
    HoldsItem(s, i, xs, |open|, true);
    ValueLaid(s, i, xs.value, open);
    if xs.next.Item? {
      HoldsAt(s, n + 1, " ", 0);
      CommaLaid(s, n, open);
      ItemsLaid(s, n + 2, xs.next, open);
    }
  }

  lemma CommaLaid(s: string, n: nat, open: seq<Open>)
    requires n < |s| && s[n] == ',' && At(s, n + 1) == ' ' && open != [] && open[|open| - 1] == Array
    ensures Laid(s, n, open) == Laid(s, n + 2, open)
  {
  }

  lemma {:induction false} ObjectLaid(s: string, i: nat, ms: Members, open: seq<Open>)
    requires PlainMembers(ms) && Holds(s, i, Print(Obj(ms), |open|, true))
    ensures Laid(s, i, open) == Laid(s, i + |Print(Obj(ms), |open|, true)|, open)
    decreases ms, 3
  {
    hide Holds, Laid, PrintMembers, Tabs;
    if ms.NoMember? {
      EmptyLaid(s, i, open);
    } else {
      var body, tabs := PrintMembers(ms, |open| + 1, true), Tabs(|open|);
      BraceParts(s, i, "\n", body, tabs);
      HoldsAt(s, i, "{", 0);
      HoldsAt(s, i + 1, "\n", 0);
      HoldsAt(s, i + 2 + |body| + |tabs|, "}", 0);
      OpensLaid(s, i, open);
      MembersLaid(s, i + 1, ms, open);
    }
  }

  lemma OpensLaid(s: string, i: nat, open: seq<Open>)
    requires i < |s| && s[i] == '{' && At(s, i + 1) == '\n'
    ensures Laid(s, i, open) == Laid(s, i + 1, open + [Object])
  {
  }

  lemma EmptyLaid(s: string, i: nat, open: seq<Open>)
    requires Holds(s, i, "{" + ("\n" + Tabs(|open| - 1)) + "}")
    ensures Laid(s, i, open) == Laid(s, i + 3 + |Tabs(|open| - 1)|, open)
  {
    hide Holds, Laid, Tabs;
    var tabs := Tabs(|open| - 1);
    HoldsParts(s, i, "{" + ("\n" + tabs), "}");
    HoldsParts(s, i, "{", "\n" + tabs);
    HoldsParts(s, i + 1, "\n", tabs);
    HoldsAt(s, i, "{", 0);
    HoldsAt(s, i + 1, "\n", 0);
    HoldsAt(s, i + 2 + |tabs|, "}", 0);
    OpensLaid(s, i, open);
    LineLaid(s, i + 1, |open| - 1, open + [Object]);
    BeforeBrace(s, i + 2, tabs);
    BraceLaid(s, i + 2 + |tabs|, open);
  }

  /** A closing brace stands behind a line end or a tab. */
  lemma BeforeBrace(s: string, i: nat, tabs: string)
    requires 0 < i && Holds(s, i, tabs) && s[i - 1] == '\n' && forall k :: 0 <= k < |tabs| ==> tabs[k] == '\t'
    ensures i + |tabs| > 0 && i + |tabs| - 1 < |s| && s[i + |tabs| - 1] in "\n\t"
  {
    if tabs != [] {
      HoldsAt(s, i, tabs, |tabs| - 1);
    }
  }

  /** The lines of the members, from the line end before them to the closing brace. */
  lemma {:induction false} MembersLaid(s: string, i: nat, ms: Members, open: seq<Open>)
    requires ms.Member? && PlainMembers(ms) && i < |s| && s[i] == '\n' && Holds(s, i + 1, PrintMembers(ms, |open| + 1, true))
    requires var e := i + 1 + |PrintMembers(ms, |open| + 1, true)|;
             Holds(s, e, Tabs(|open|)) && At(s, e + |Tabs(|open|)|) == '}'
    ensures var e := i + 1 + |PrintMembers(ms, |open| + 1, true)|;
            Laid(s, i, open + [Object]) == Laid(s, e + |Tabs(|open|)| + 1, open)
    decreases ms, 2
  {
    hide Holds, Laid, Print, PrintMembers, Quoted, Tabs, Fmt;
    var inside, d := open + [Object], |open| + 1;
    HoldsMember(s, i + 1, ms, d, true);
    var p := MemberPlaces(i + 1, ms, d, true);
    FmtTrue(Tabs(d));
    FmtTrue("\t");
    FmtTrue("\n");
    HoldsAt(s, p.name, Quoted(ms.name), 0);
    LineLaid(s, i, d, inside);
    QuotedLaid(s, p.name, ms.name, inside);
    HoldsAt(s, p.colon + 1, "\t", 0);
    ColonLaid(s, p.colon, inside);
    ValueLaid(s, p.value, ms.value, inside);
    MemberEnds(s, ms, d, p.end, open);
    if ms.next.NoMember? {
      NoMembers(d);
      ClosesLaid(s, p.end, ms.value, d, open);
    } else {
      NextLine(s, p.end, inside);
      MembersLaid(s, p.end + 1, ms.next, open);
    }
  }

  lemma FmtTrue(s: string)
    ensures Fmt(true, s) == s
  {
  }

  lemma NoMembers(d: nat)
    ensures PrintMembers(NoMember, d, true) == []
  {
  }

  /** What stands behind the value of a member. */
  lemma MemberEnds(s: string, ms: Members, d: nat, end: nat, open: seq<Open>)
    requires ms.Member? && Holds(s, end + (if ms.next.NoMember? then 0 else 1), "\n")
    requires ms.next.Member? ==> end < |s| && s[end] == ','
    ensures At(s, end + if ms.next.NoMember? then 0 else 1) == '\n'
    ensures end + (if ms.next.NoMember? then 0 else 1) < |s|
  {
    hide Holds;
    HoldsAt(s, end + (if ms.next.NoMember? then 0 else 1), "\n", 0);
  }

  lemma ColonLaid(s: string, k: nat, open: seq<Open>)
    requires k < |s| && s[k] == ':' && At(s, k + 1) == '\t'
    ensures Laid(s, k, open) == Laid(s, k + 2, open)
  {
  }

  lemma NextLine(s: string, k: nat, open: seq<Open>)
    requires k < |s| && s[k] == ',' && At(s, k + 1) == '\n' && open != [] && open[|open| - 1] == Object
    ensures Laid(s, k, open) == Laid(s, k + 1, open)
  {
  }

  /** The last line of an object. */
  lemma ClosesLaid(s: string, end: nat, v: Json, d: nat, open: seq<Open>)
    requires d == |open| + 1 && end < |s| && s[end] == '\n' && |Print(v, d, true)| <= end
    requires Holds(s, end - |Print(v, d, true)|, Print(v, d, true))
    requires Holds(s, end + 1, Tabs(|open|)) && At(s, end + 1 + |Tabs(|open|)|) == '}'
    ensures Laid(s, end, open + [Object]) == Laid(s, end + 2 + |Tabs(|open|)|, open)
  {
    hide Holds, Laid, Print, Tabs;
    var p := Print(v, d, true);
    LastSign(v, d);
    HoldsAt(s, end - |p|, p, |p| - 1);
    LineLaid(s, end, |open|, open + [Object]);
    BeforeBrace(s, end + 1, Tabs(|open|));
    BraceLaid(s, end + 1 + |Tabs(|open|)|, open);
  }

  /** A formatted text is laid out. */
  lemma PrintLaid(t: Json)
    requires Plain(t)
    ensures Laid(Print(t, 0, true), 0, [])
  {
    hide Print;
    var s := Print(t, 0, true);
    assert s[0..|s|] == s;
    ValueLaid(s, 0, t, []);
    assert Laid(s, |s|, []);
  }
}
