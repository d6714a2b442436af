/**
  cJSON_Minify, in place on the buffer that holds a text: what is left of any text, and that the
  formatted print of a tree is turned into its compact print.
 */
module JsonMinify {
  import opened JsonText
  import opened JsonRoundTrip

  /** The text that is left; or a read past the terminator, from the place it began, and what was left before that place. */
  datatype Result = Left(text: string) | Past(text: string, at: nat)

  function Prepend(p: string, r: Result): (q: Result) {
    if r.Left? then Left(p + r.text) else Past(p + r.text, r.at)
  }

  predicate IsBlank(c: char) {
    c == ' ' || c == '\t' || c == '\r' || c == '\n'
  }

  predicate AllBlank(p: string) {
    forall k :: 0 <= k < |p| ==> IsBlank(p[k])
  }

  /** The end of the line that place i is in. */
  function LineEnd(s: string, i: nat): (r: nat)
    requires i <= |s|
    ensures i <= r <= |s| && (At(s, r) == NUL || At(s, r) == '\n')
    decreases |s| - i
  {
    if At(s, i) == NUL || At(s, i) == '\n' then i else LineEnd(s, i + 1)
  }

  /** The star that ends a comment, or the terminator. */
  function CommentEnd(s: string, i: nat): (r: nat)
    requires i <= |s|
    ensures i <= r <= |s|
    decreases |s| - i
  {
    if At(s, i) == NUL || (At(s, i) == '*' && At(s, i + 1) == '/') then i else CommentEnd(s, i + 1)
  }

  /** The quote or terminator that ends a string literal; past the terminator when a backslash stands before it. */
  function LiteralEnd(s: string, i: nat): (r: nat)
    requires i <= |s|
    ensures i <= r <= |s| + 1
    decreases |s| - i
  {
    if At(s, i) == NUL || At(s, i) == QUOTE then i
    else if s[i] != BACKSLASH then LiteralEnd(s, i + 1)
    else if i + 1 == |s| then i + 2
    else LiteralEnd(s, i + 2)
  }

  /** What is left of the text from place i on. */
  function Minified(s: string, i: nat): (r: Result)
    requires i <= |s|
    ensures |r.text| <= |s| - i && (r.Past? ==> i <= r.at < |s|)
    decreases |s| - i
  {
    var c := At(s, i);
    if c == NUL then Left([])
    else if IsBlank(c) then Minified(s, i + 1)
    else if c == '/' && At(s, i + 1) == '/' then
      assert LineEnd(s, i) > i by { assert LineEnd(s, i) == LineEnd(s, i + 1); }
      Minified(s, LineEnd(s, i))
    else if c == '/' && At(s, i + 1) == '*' then
      if CommentEnd(s, i) + 2 > |s| then Past([], i) else Minified(s, CommentEnd(s, i) + 2)
    else if c == QUOTE then
      var e := LiteralEnd(s, i + 1);
      if e >= |s| then Past([], i) else Prepend(s[i..e + 1], Minified(s, e + 1))
    else Prepend([c], Minified(s, i + 1))
  }

  // ----- the formatted print becomes the compact print -----

  predicate IsPlain(c: char) {
    c != NUL && !IsBlank(c) && c != '/' && c != QUOTE
  }

  lemma {:induction false} TokenKept(s: string, i: nat, p: string)
    requires Holds(s, i, p) && forall k :: 0 <= k < |p| ==> IsPlain(p[k])
    ensures Minified(s, i) == Prepend(p, Minified(s, i + |p|))
    decreases |p|
  {
    hide Holds, Minified;
    if p != [] {
      HoldsAt(s, i, p, 0);
      assert p == [p[0]] + p[1..];
      HoldsParts(s, i, [p[0]], p[1..]);
      CharKept(s, i);
      TokenKept(s, i + 1, p[1..]);
      PrependTwice([p[0]], p[1..], Minified(s, i + |p|));
    } else {
      PrependNothing(Minified(s, i));
    }
  }

  lemma {:induction false} BlanksDropped(s: string, i: nat, p: string)
    requires Holds(s, i, p) && AllBlank(p)
    ensures Minified(s, i) == Minified(s, i + |p|)
    decreases |p|
  {
    if p != [] {
      HoldsAt(s, i, p, 0);
      assert p == [p[0]] + p[1..];
      HoldsParts(s, i, [p[0]], p[1..]);
      BlanksDropped(s, i + 1, p[1..]);
    }
  }

  lemma EscapePassed(s: string, i: nat, c: char)
    requires Holds(s, i, Escape(c)) && c != NUL
    ensures LiteralEnd(s, i) == LiteralEnd(s, i + |Escape(c)|)
  {
    var e := Escape(c);
    HoldsAt(s, i, e, 0);
    if |e| == 6 {
      HoldsAt(s, i, e, 2);
      HoldsAt(s, i, e, 3);
      HoldsAt(s, i, e, 4);
      HoldsAt(s, i, e, 5);
      assert LiteralEnd(s, i + 2) == LiteralEnd(s, i + 3);
      assert LiteralEnd(s, i + 4) == LiteralEnd(s, i + 5);
    }
  }

  lemma {:induction false} LiteralPassed(s: string, i: nat, t: string)
    requires Holds(s, i, Escaped(t)) && NUL !in t
    ensures LiteralEnd(s, i) == LiteralEnd(s, i + |Escaped(t)|)
    decreases |t|
  {
    hide Holds, Escape, LiteralEnd;
    if t != [] {
      HoldsParts(s, i, Escape(t[0]), Escaped(t[1..]));
      EscapePassed(s, i, t[0]);
      LiteralPassed(s, i + |Escape(t[0])|, t[1..]);
    }
  }

  lemma QuotedKept(s: string, i: nat, t: string)
    requires Holds(s, i, Quoted(t)) && NUL !in t
    ensures Minified(s, i) == Prepend(Quoted(t), Minified(s, i + |Quoted(t)|))
  {
    hide Escaped;
    var e := i + 1 + |Escaped(t)|;
    HoldsParts(s, i, [QUOTE] + Escaped(t), [QUOTE]);
    HoldsParts(s, i, [QUOTE], Escaped(t));
    HoldsAt(s, i, [QUOTE], 0);
    HoldsAt(s, e, [QUOTE], 0);
    LiteralPassed(s, i + 1, t);
    assert LiteralEnd(s, i + 1) == e;
    assert s[i..e + 1] == Quoted(t);
  }

  lemma DecimalPlain(m: int)
    ensures forall k :: 0 <= k < |Decimal(m)| ==> IsPlain(Decimal(m)[k])
  {
    var d := Digits(if m < 0 then -m else m);
    forall k | 0 <= k < |d|
      ensures IsPlain(d[k])
    {
      assert IsDigit(d[k]);
    }
  }

  lemma PrependTwice(p: string, q: string, r: Result)
    ensures Prepend(p, Prepend(q, r)) == Prepend(p + q, r)
  {
    assert p + (q + r.text) == p + q + r.text;
  }

  /** What Minify leaves of a printed value that stands in a text is its compact print. */
  lemma {:induction false} ValueMinified(s: string, i: nat, t: Json, depth: nat, fmt: bool)
    requires Plain(t) && Holds(s, i, Print(t, depth, fmt))
    ensures Minified(s, i) == Prepend(Print(t, depth, false), Minified(s, i + |Print(t, depth, fmt)|))
    decreases t, 0
  {
    hide Holds, Minified, Quoted, Decimal, PrintItems, PrintMembers, Tabs;
    match t {
      case Null => TokenKept(s, i, "null");
      case False => TokenKept(s, i, "false");
      case True => TokenKept(s, i, "true");
      case Num(m, e) =>
        DecimalPlain(m);
        TokenKept(s, i, Decimal(m));
      case Str(text) => QuotedKept(s, i, text);
      case Arr(items) => ArrayMinified(s, i, items, depth, fmt);
      case Obj(members) => ObjectMinified(s, i, members, depth, fmt);
    }
  }

  lemma {:induction false} ArrayMinified(s: string, i: nat, xs: Items, depth: nat, fmt: bool)
    requires PlainItems(xs) && Holds(s, i, Print(Arr(xs), depth, fmt))
    ensures Minified(s, i) == Prepend(Print(Arr(xs), depth, false), Minified(s, i + |Print(Arr(xs), depth, fmt)|))
    decreases xs, 2
  {
    hide Holds, Minified, PrintItems;
    if xs.NoItem? {
      TokenKept(s, i, "[]");
    } else {
      var body, compact := PrintItems(xs, depth + 1, fmt), PrintItems(xs, depth + 1, false);
      HoldsParts(s, i, "[" + body, "]");
      HoldsParts(s, i, "[", body);
      TokenKept(s, i, "[");
      ItemsMinified(s, i + 1, xs, depth + 1, fmt);
      TokenKept(s, i + 1 + |body|, "]");
      var rest := Minified(s, i + 1 + |body| + 1);
      PrependTwice("[", compact, Prepend("]", rest));
      PrependTwice("[" + compact, "]", rest);
    }
  }

  lemma {:induction false} ItemsMinified(s: string, i: nat, xs: Items, depth: nat, fmt: bool)
    requires xs.Item? && PlainItems(xs) && Holds(s, i, PrintItems(xs, depth, fmt))
    ensures Minified(s, i) == Prepend(PrintItems(xs, depth, false), Minified(s, i + |PrintItems(xs, depth, fmt)|))
    decreases xs, 1
  {
    hide Holds, Minified, Print;
    var n := i + |Print(xs.value, depth, fmt)|;
    HoldsItem(s, i, xs, depth, fmt);
    ValueMinified(s, i, xs.value, depth, fmt);
    var p := Print(xs.value, depth, false);
    if xs.next.NoItem? {
      assert PrintItems(xs, depth, false) == p;
    } else {
      var k := n + 1 + |Fmt(fmt, " ")|;
      var q := PrintItems(xs.next, depth, false);
      CharKept(s, n);
      BlanksDropped(s, n + 1, Fmt(fmt, " "));
      ItemsMinified(s, k, xs.next, depth, fmt);
      var rest := Minified(s, k + |PrintItems(xs.next, depth, fmt)|);
      PrependTwice(",", q, rest);
      PrependTwice(p, "," + q, rest);
      assert "," + Fmt(false, " ") == ",";
    }
  }

  lemma CharKept(s: string, i: nat)
    requires i < |s| && IsPlain(s[i])
    ensures Minified(s, i) == Prepend([s[i]], Minified(s, i + 1))
  {
  }

  lemma PrependNothing(r: Result)
    ensures Prepend([], r) == r
  {
    assert [] + r.text == r.text;
  }

  lemma {:induction false} ObjectMinified(s: string, i: nat, ms: Members, depth: nat, fmt: bool)
    requires PlainMembers(ms) && Holds(s, i, Print(Obj(ms), depth, fmt))
    ensures Minified(s, i) == Prepend(Print(Obj(ms), depth, false), Minified(s, i + |Print(Obj(ms), depth, fmt)|))
    decreases ms, 2
  {
    hide Holds, Minified, PrintMembers, Fmt, Tabs;
    if ms.NoMember? {
      var blank := Fmt(fmt, "\n" + Tabs(depth - 1));
      HoldsParts(s, i, "{" + blank, "}");
      HoldsParts(s, i, "{", blank);
      BlankTexts(fmt, depth);
      BraceMinified(s, i, blank, [], [], []);
      assert Print(Obj(ms), depth, false) == "{" + [] + "}" by { FmtFalse("\n" + Tabs(depth - 1)); }
    } else {
      var nl, body, tabs := Fmt(fmt, "\n"), PrintMembers(ms, depth + 1, fmt), Fmt(fmt, Tabs(depth));
      BraceParts(s, i, nl, body, tabs);
      BlankTexts(fmt, depth);
      MembersMinified(s, i + 1 + |nl|, ms, depth + 1, fmt);
      BraceMinified(s, i, nl, body, tabs, PrintMembers(ms, depth + 1, false));
      ObjectCompact(ms, depth);
    }
  }

  lemma BraceParts(s: string, i: nat, nl: string, body: string, tabs: string)
    requires Holds(s, i, "{" + nl + body + tabs + "}")
    ensures Holds(s, i, "{") && Holds(s, i + 1, nl) && Holds(s, i + 1 + |nl|, body)
    ensures Holds(s, i + 1 + |nl| + |body|, tabs) && Holds(s, i + 1 + |nl| + |body| + |tabs|, "}")
  {
    hide Holds;
    HoldsParts(s, i, "{" + nl + body + tabs, "}");
    HoldsParts(s, i, "{" + nl + body, tabs);
    HoldsParts(s, i, "{" + nl, body);
    HoldsParts(s, i, "{", nl);
  }

  lemma ObjectCompact(ms: Members, depth: nat)
    requires ms.Member?
    ensures Print(Obj(ms), depth, false) == "{" + PrintMembers(ms, depth + 1, false) + "}"
  {
    hide PrintMembers, Tabs, Fmt;
    FmtFalse("\n");
    FmtFalse(Tabs(depth));
  }

  lemma FmtFalse(s: string)
    ensures Fmt(false, s) == []
  {
  }

  /** What only the formatted form has is blank. */
  lemma BlankTexts(fmt: bool, depth: nat)
    ensures AllBlank(Fmt(fmt, " ")) && AllBlank(Fmt(fmt, "\n")) && AllBlank(Fmt(fmt, "\t"))
    ensures AllBlank(Fmt(fmt, Tabs(depth))) && AllBlank(Fmt(fmt, "\n" + Tabs(depth - 1)))
  {
  }

  /** A brace, blanks, a body that leaves its compact form, blanks, a brace. */
  lemma BraceMinified(s: string, i: nat, nl: string, body: string, tabs: string, compact: string)
    requires Holds(s, i, "{") && Holds(s, i + 1, nl) && Holds(s, i + 1 + |nl| + |body|, tabs)
    requires Holds(s, i + 1 + |nl| + |body| + |tabs|, "}")
    requires AllBlank(nl) && AllBlank(tabs)
    requires body == compact == [] || Minified(s, i + 1 + |nl|) == Prepend(compact, Minified(s, i + 1 + |nl| + |body|))
    ensures Minified(s, i) == Prepend("{" + compact + "}", Minified(s, i + 1 + |nl| + |body| + |tabs| + 1))
  {
    hide Holds, Minified;
    var e := i + 1 + |nl| + |body| + |tabs|;
    TokenKept(s, i, "{");
    BlanksDropped(s, i + 1, nl);
    BlanksDropped(s, i + 1 + |nl| + |body|, tabs);
    TokenKept(s, e, "}");
    PrependNothing(Minified(s, i + 1 + |nl| + |body|));
    PrependTwice(compact, "}", Minified(s, e + 1));
    PrependTwice("{", compact + "}", Minified(s, e + 1));
    assert "{" + (compact + "}") == "{" + compact + "}";
  }

  lemma CompactMember(ms: Members, depth: nat)
    requires ms.Member?
    ensures PrintMembers(ms, depth, false) ==
            Quoted(ms.name) + (":" + (Print(ms.value, depth, false)
                                      + ((if ms.next.NoMember? then [] else ",") + PrintMembers(ms.next, depth, false))))
  {
    hide Print, Quoted;
  }

  lemma {:induction false} MembersMinified(s: string, i: nat, ms: Members, depth: nat, fmt: bool)
    requires ms.Member? && PlainMembers(ms) && Holds(s, i, PrintMembers(ms, depth, fmt))
    ensures Minified(s, i) == Prepend(PrintMembers(ms, depth, false), Minified(s, i + |PrintMembers(ms, depth, fmt)|))
    decreases ms, 1
  {
    hide Holds, Minified, Print, PrintMembers, Quoted, Tabs, Fmt, Prepend;
    HoldsMember(s, i, ms, depth, fmt);
    var p := MemberPlaces(i, ms, depth, fmt);
    BlankTexts(fmt, depth);
    BlanksDropped(s, i, Fmt(fmt, Tabs(depth)));
    QuotedKept(s, p.name, ms.name);
    CharKept(s, p.colon);
    BlanksDropped(s, p.colon + 1, Fmt(fmt, "\t"));
    ValueMinified(s, p.value, ms.value, depth, fmt);
    MemberRest(s, i, ms, depth, fmt);
    CompactMember(ms, depth);
    var v, end := Print(ms.value, depth, false), Minified(s, i + |PrintMembers(ms, depth, fmt)|);
    var rest := (if ms.next.NoMember? then [] else ",") + PrintMembers(ms.next, depth, false);
    PrependTwice(v, rest, end);
    PrependTwice(":", v + rest, end);
    PrependTwice(Quoted(ms.name), ":" + (v + rest), end);
  }

  /** What is left behind the value of a member. */
  lemma {:induction false} MemberRest(s: string, i: nat, ms: Members, depth: nat, fmt: bool)
    requires ms.Member? && PlainMembers(ms) && MemberHeld(s, i, ms, depth, fmt)
    ensures Minified(s, MemberPlaces(i, ms, depth, fmt).end) ==
            Prepend((if ms.next.NoMember? then [] else ",") + PrintMembers(ms.next, depth, false),
                    Minified(s, i + |PrintMembers(ms, depth, fmt)|))
    decreases ms, 0
  {
    hide Holds, Minified, Print, PrintMembers, Quoted, Tabs, Fmt, Prepend;
    var p := MemberPlaces(i, ms, depth, fmt);
    BlankTexts(fmt, depth);
    var end := Minified(s, i + |PrintMembers(ms, depth, fmt)|);
    if ms.next.NoMember? {
      BlanksDropped(s, p.end, Fmt(fmt, "\n"));
      NothingLeft(depth, fmt);
      NothingLeft(depth, false);
      var none: string := [];
      assert none + PrintMembers(ms.next, depth, false) == none;
      PrependNothing(end);
    } else {
      CharKept(s, p.end);
      BlanksDropped(s, p.end + 1, Fmt(fmt, "\n"));
      MembersMinified(s, p.next, ms.next, depth, fmt);
      PrependTwice(",", PrintMembers(ms.next, depth, false), end);
    }
  }

  /** cJSON_Minify of a formatted or compact print gives the compact print. */
  lemma PrintMinified(t: Json, fmt: bool)
    requires Plain(t)
    ensures Minified(Print(t, 0, fmt), 0) == Left(Print(t, 0, false))
  {
    hide Print;
    var s := Print(t, 0, fmt);
    assert s[0..|s|] == s;
    ValueMinified(s, 0, t, 0, fmt);
    assert Minified(s, |s|) == Left([]);
  }

  // ----- which texts are read past their terminator -----

  /** A comment at i that nothing closes; the star that opens it may close it too. */
  predicate OpenComment(s: string, i: nat) {
    i + 1 < |s| && s[i] == '/' && s[i + 1] == '*' && forall k :: i < k < |s| - 1 ==> !(s[k] == '*' && s[k + 1] == '/')
  }

  /** The backslashes right before k, not counting any before lo. */
  function Backslashes(s: string, lo: nat, k: nat): (n: nat)
    requires k <= |s|
    decreases k
  {
    if k <= lo || s[k - 1] != BACKSLASH then 0 else 1 + Backslashes(s, lo, k - 1)
  }

  /** A quote that an odd number of backslashes stands before does not close a literal that began at lo. */
  predicate Closes(s: string, lo: nat, k: nat) {
    lo <= k < |s| && s[k] == QUOTE && Backslashes(s, lo, k) % 2 == 0
  }

  /** The first quote that closes a literal. */
  ghost predicate ClosesFirst(s: string, lo: nat, e: nat) {
    Closes(s, lo, e) && forall k: nat :: k < e ==> !Closes(s, lo, k)
  }

  ghost predicate NoneCloses(s: string, lo: nat) {
    forall k :: !Closes(s, lo, k)
  }

  /** A literal at i that no quote closes. */
  ghost predicate OpenLiteral(s: string, i: nat) {
    i < |s| && s[i] == QUOTE && NoneCloses(s, i + 1)
  }

  /** The scan finds something at i that is never closed. */
  ghost predicate Unclosed(s: string, i: nat) {
    OpenComment(s, i) || OpenLiteral(s, i)
  }

  lemma {:induction false} CommentOpen(s: string, i: nat)
    requires i <= |s| && NUL !in s
    ensures CommentEnd(s, i) + 2 > |s| <==> forall k :: i <= k < |s| - 1 ==> !(s[k] == '*' && s[k + 1] == '/')
    decreases |s| - i
  {
    if i < |s| && !(s[i] == '*' && At(s, i + 1) == '/') {
      CommentOpen(s, i + 1);
    }
  }

  /** Characters that are passed over do not change which later quotes have an odd number of backslashes before them. */
  lemma {:induction false} SameParity(s: string, p: nat, n: nat, k: nat)
    requires p < n <= k <= |s| && n == if s[p] == BACKSLASH then p + 2 else p + 1
    ensures Backslashes(s, p, k) % 2 == Backslashes(s, n, k) % 2
    decreases k
  {
    if n < k {
      SameParity(s, p, n, k - 1);
    } else if s[p] == BACKSLASH {
      assert Backslashes(s, p, p + 1) == 1 + Backslashes(s, p, p);
    }
  }

  lemma {:induction false} LiteralOpen(s: string, p: nat)
    requires p <= |s| && NUL !in s
    ensures LiteralEnd(s, p) >= |s| <==> NoneCloses(s, p)
    ensures LiteralEnd(s, p) < |s| ==> ClosesFirst(s, p, LiteralEnd(s, p))
    decreases |s| - p
  {
    if p == |s| {
    } else if s[p] == QUOTE {
      assert Closes(s, p, p);
    } else {
      var n := if s[p] == BACKSLASH then p + 2 else p + 1;
      forall k | n <= k < |s|
        ensures Closes(s, p, k) <==> Closes(s, n, k)
      {
        SameParity(s, p, n, k);
      }
      assert Backslashes(s, p, p) == 0;
      assert s[p] == BACKSLASH && p + 1 < |s| ==> Backslashes(s, p, p + 1) == 1;
      if n <= |s| {
        LiteralOpen(s, n);
        assert (forall k :: !Closes(s, p, k)) <==> forall k :: !Closes(s, n, k);
      }
    }
  }

  /** Where what the scan finds at i ends. */
  function Next(s: string, i: nat): (r: nat)
    requires i < |s|
  {
    if s[i] == '/' && At(s, i + 1) == '/' then LineEnd(s, i)
    else if s[i] == '/' && At(s, i + 1) == '*' then CommentEnd(s, i) + 2
    else if s[i] == QUOTE then LiteralEnd(s, i + 1) + 1
    else i + 1
  }

  /** The scan that is at i comes to j. */
  predicate Reaches(s: string, i: nat, j: nat)
    decreases |s| - i
  {
    i == j || (i < |s| && i < Next(s, i) <= |s| && Reaches(s, Next(s, i), j))
  }

  /** What the scan finds at i ends inside the text unless it is never closed. */
  lemma NextInside(s: string, i: nat)
    requires i < |s| && NUL !in s
    ensures i < Next(s, i) && (Next(s, i) > |s| <==> Unclosed(s, i))
  {
    hide Minified;
    if s[i] == '/' && At(s, i + 1) == '/' {
      assert LineEnd(s, i) == LineEnd(s, i + 1);
    } else if s[i] == '/' && At(s, i + 1) == '*' {
      CommentOpen(s, i);
    } else if s[i] == QUOTE {
      LiteralOpen(s, i + 1);
    }
  }

  /** The scan goes on behind what it finds, or past the terminator. */
  lemma MinifiedNext(s: string, i: nat)
    requires i < |s| && NUL !in s
    ensures Next(s, i) > |s| ==> Minified(s, i) == Past([], i)
    ensures i < Next(s, i) <= |s| ==>
              var rest := Minified(s, Next(s, i));
              Minified(s, i).Past? == rest.Past? && (rest.Past? ==> Minified(s, i).at == rest.at)
  {
    hide LiteralEnd, CommentEnd, LineEnd;
  }

  /** A text is read past its terminator exactly when the scan reaches a literal or a comment that is never closed. */
  lemma {:induction false} NotClosed(s: string, i: nat)
    requires i <= |s| && NUL !in s
    ensures Minified(s, i).Past? <==> exists j :: Reaches(s, i, j) && Unclosed(s, j)
    ensures Minified(s, i).Past? ==> Reaches(s, i, Minified(s, i).at) && Unclosed(s, Minified(s, i).at)
    decreases |s| - i
  {
    hide Minified, Next, Unclosed;
    if i == |s| {
      NothingMore(s, i);
      ClosedEnd(s);
    } else {
      NextInside(s, i);
      MinifiedNext(s, i);
      if Next(s, i) <= |s| {
        NotClosed(s, Next(s, i));
      } else {
        assert Reaches(s, i, i);
      }
    }
  }

  lemma ClosedEnd(s: string)
    ensures !Unclosed(s, |s|) && forall j :: Reaches(s, |s|, j) ==> j == |s|
  {
  }

  /** The line and the comment end at the first place they can. */
  lemma {:induction false} LineEndFirst(s: string, i: nat)
    requires i <= |s|
    ensures forall k :: i <= k < LineEnd(s, i) ==> s[k] != NUL && s[k] != '\n'
    decreases |s| - i
  {
    if At(s, i) != NUL && At(s, i) != '\n' {
      LineEndFirst(s, i + 1);
    }
  }

  lemma {:induction false} CommentEndFirst(s: string, i: nat)
    requires i <= |s|
    ensures var e := CommentEnd(s, i); At(s, e) == NUL || (At(s, e) == '*' && At(s, e + 1) == '/')
    ensures forall k :: i <= k < CommentEnd(s, i) ==> s[k] != NUL && !(s[k] == '*' && At(s, k + 1) == '/')
    decreases |s| - i
  {
    if At(s, i) != NUL && !(At(s, i) == '*' && At(s, i + 1) == '/') {
      CommentEndFirst(s, i + 1);
    }
  }

  /** A comment to the end of its line, and one between its marks, leave nothing, whatever stands in them. */
  lemma CommentsDropped(s: string, i: nat, body: string)
    requires NUL !in s
    ensures Holds(s, i, "//" + body) && '\n' !in body && (At(s, i + 2 + |body|) == '\n' || i + 2 + |body| == |s|) ==>
              Minified(s, i) == Minified(s, i + 2 + |body|)
    ensures Holds(s, i, "/*" + body + "*/") && Unbroken("/*" + body + "*/") ==> Minified(s, i) == Minified(s, i + 4 + |body|)
  {
    hide Minified;
    if Holds(s, i, "//" + body) && '\n' !in body && (At(s, i + 2 + |body|) == '\n' || i + 2 + |body| == |s|) {
      LineDropped(s, i, body);
    }
    if Holds(s, i, "/*" + body + "*/") && Unbroken("/*" + body + "*/") {
      BlockDropped(s, i, body);
    }
  }

  /** No star and slash behind the first character but at the end. */
  predicate Unbroken(c: string) {
    forall k :: 1 <= k < |c| - 2 ==> !(c[k] == '*' && c[k + 1] == '/')
  }

  lemma LineDropped(s: string, i: nat, body: string)
    requires NUL !in s && Holds(s, i, "//" + body) && '\n' !in body && (At(s, i + 2 + |body|) == '\n' || i + 2 + |body| == |s|)
    ensures Minified(s, i) == Minified(s, i + 2 + |body|)
  {
    hide LineEnd, Holds;
    var c, e := "//" + body, LineEnd(s, i);
    LineEndFirst(s, i);
    HoldsAt(s, i, c, 0);
    HoldsAt(s, i, c, 1);
    if e < i + |c| {
      HoldsAt(s, i, c, e - i);
      assert false;
    }
  }

  lemma BlockDropped(s: string, i: nat, body: string)
    requires NUL !in s && Holds(s, i, "/*" + body + "*/") && Unbroken("/*" + body + "*/")
    ensures Minified(s, i) == Minified(s, i + 4 + |body|)
  {
    hide CommentEnd, Holds;
    var c, e := "/*" + body + "*/", CommentEnd(s, i);
    CommentEndFirst(s, i);
    HoldsAt(s, i, c, 0);
    HoldsAt(s, i, c, 1);
    HoldsAt(s, i, c, |c| - 2);
    HoldsAt(s, i, c, |c| - 1);
    if e < i + |c| - 2 {
      HoldsAt(s, i, c, e - i);
      HoldsAt(s, i, c, e - i + 1);
      assert false;
    }
  }

  /**
    What one thing leaves: space, tab, return and newline nothing; a literal itself, up to the first quote that closes it;
    any other character that opens no comment itself.
   */
  lemma StepMeans(s: string, i: nat, e: nat)
    requires i < |s| && NUL !in s
    ensures s[i] == ' ' || s[i] == '\t' || s[i] == '\r' || s[i] == '\n' ==> Minified(s, i) == Minified(s, i + 1)
    ensures s[i] == '\"' && ClosesFirst(s, i + 1, e) ==>
              Minified(s, i) == Prepend(s[i..e + 1], Minified(s, e + 1))
    ensures s[i] !in " \t\r\n\"" && (s[i] == '/' ==> At(s, i + 1) != '/' && At(s, i + 1) != '*') ==>
              Minified(s, i) == Prepend([s[i]], Minified(s, i + 1))
  {
    if s[i] == QUOTE {
      LiteralOpen(s, i + 1);
    }
  }

  /** A lone quote and a comment that was only opened. */
  lemma OpenTexts(s: string)
    requires s == [QUOTE] || s == "/*"
    ensures Unclosed(s, 0) && Minified(s, 0) == Past([], 0)
  {
    NextInside(s, 0);
    MinifiedNext(s, 0);
    if s == [QUOTE] {
      assert OpenLiteral(s, 0);
    } else {
      assert OpenComment(s, 0);
    }
  }

  // ----- in place -----

  /** The buffer still holds the text and its terminator from the read index on. */
  predicate Unread(a: array<char>, s: string, json: nat)
    reads a
    ensures Unread(a, s, json) ==> a.Length > |s|
  {
    && a.Length > |s|
    && forall k :: json <= k <= |s| ==> a[k] == At(s, k)
  }

  /** What is before the write index and what the rest will leave make up the result. */
  ghost predicate Progress(a: array<char>, s: string, json: nat, into: nat)
    reads a
  {
    && into <= json <= |s| && Unread(a, s, json)
    && Minified(s, 0) == Prepend(a[..into], Minified(s, json))
  }

  /** The cases of the loop. */
  lemma Taken(s: string, json: nat, before: string)
    requires json < |s| && s[json] != NUL
    ensures var rest := Minified(s, json);
            if IsBlank(s[json]) then rest == Minified(s, json + 1)
            else if s[json] == '/' && At(s, json + 1) == '/' then LineEnd(s, json) > json && rest == Minified(s, LineEnd(s, json))
            else if s[json] == '/' && At(s, json + 1) == '*' then
              rest == if CommentEnd(s, json) + 2 > |s| then Past([], json) else Minified(s, CommentEnd(s, json) + 2)
            else if s[json] == QUOTE then
              var e := LiteralEnd(s, json + 1);
              if e >= |s| then rest == Past([], json)
              else Prepend(before, rest) == Prepend(before + s[json..e + 1], Minified(s, e + 1))
            else Prepend(before, rest) == Prepend(before + [s[json]], Minified(s, json + 1))
  {
    if s[json] == '/' && At(s, json + 1) == '/' {
      assert LineEnd(s, json) == LineEnd(s, json + 1);
    } else if s[json] == QUOTE {
      var e := LiteralEnd(s, json + 1);
      if e < |s| {
        PrependTwice(before, s[json..e + 1], Minified(s, e + 1));
      }
    } else {
      PrependTwice(before, [s[json]], Minified(s, json + 1));
    }
  }

  /** The text from start to the read index stands, copied, behind what was written before; the tail is untouched. */
  ghost predicate Copied(a: array<char>, s: string, start: nat, json: nat, into: nat, before: string, tail: string)
    reads a
    ensures Copied(a, s, start, json, into, before, tail) ==> a.Length > |s| && into == |before| + json - start <= json
    ensures Copied(a, s, start, json, into, before, tail) && json <= |s| ==> a[json] == At(s, json)
  {
    && start <= json <= |s| + 1 && into == |before| + json - start <= json && Unread(a, s, json) && a[|s| + 1..] == tail
    && a[..|before|] == before && (json <= |s| ==> a[..into] == before + s[start..json])
  }

  lemma CopiedText(a: array<char>, s: string, start: nat, json: nat, into: nat, before: string, tail: string)
    requires Copied(a, s, start, json, into, before, tail)
    ensures start <= json && into <= json && Unread(a, s, json) && |before| <= a.Length && a[..|before|] == before
    ensures a[|s| + 1..] == tail && (json <= |s| ==> a[..into] == before + s[start..json])
  {
  }

  lemma NoneCopied(a: array<char>, s: string, start: nat, to: nat)
    requires to <= start <= |s| && Unread(a, s, start)
    ensures Copied(a, s, start, start, to, a[..to], a[|s| + 1..])
  {
    assert a[..to] + s[start..start] == a[..to];
  }

  /** One character is copied to the write index. */
  method Copy(a: array<char>, json: nat, into: nat, ghost s: string, ghost start: nat, ghost before: string, ghost tail: string)
    requires json <= |s| && Copied(a, s, start, json, into, before, tail)
    modifies a
    ensures Copied(a, s, start, json + 1, into + 1, before, tail)
  {
    a[into] := a[json];
    if json < |s| {
      assert s[start..json + 1] == s[start..json] + [s[json]];
      assert a[..into + 1] == a[..into] + [s[json]];
    }
  }

  lemma LiteralGoesOn(s: string, i: nat)
    requires i < |s| && s[i] != NUL && s[i] != QUOTE
    ensures if s[i] != BACKSLASH then LiteralEnd(s, i) == LiteralEnd(s, i + 1)
            else LiteralEnd(s, i) == if i + 1 == |s| then i + 2 else LiteralEnd(s, i + 2)
  {
  }

  lemma LiteralStops(s: string, i: nat)
    requires i <= |s| && (At(s, i) == NUL || At(s, i) == QUOTE)
    ensures LiteralEnd(s, i) == i
  {
  }

  /** One character of a literal is copied, or a backslash and the character behind it. */
  method CopyUnit(a: array<char>, from: nat, to: nat, ghost s: string, ghost start: nat, ghost before: string, ghost tail: string)
    returns (json: nat, into: nat)
    requires start < from < |s| && s[from] != NUL && s[from] != QUOTE && Copied(a, s, start, from, to, before, tail)
    modifies a
    ensures from < json <= |s| + 1 && Copied(a, s, start, json, into, before, tail)
    ensures if json <= |s| then LiteralEnd(s, json) == LiteralEnd(s, from) else LiteralEnd(s, from) >= |s|
  {
    hide LiteralEnd, Copied, Unread;
    LiteralGoesOn(s, from);
    json, into := from, to;
    if a[json] == BACKSLASH {
      Copy(a, json, into, s, start, before, tail);
      json, into := json + 1, into + 1;
    }
    Copy(a, json, into, s, start, before, tail);
    json, into := json + 1, into + 1;
  }

  /** A string literal is copied as it is; past if the text ends in it. */
  method CopyLiteral(a: array<char>, n: nat, start: nat, to: nat, ghost s: string) returns (json: nat, into: nat, past: bool)
    requires to <= start < |s| == n && Unread(a, s, start) && s[start] == QUOTE
    modifies a
    ensures past <==> LiteralEnd(s, start + 1) >= |s|
    ensures !past ==> into <= json && json == LiteralEnd(s, start + 1) + 1 && Unread(a, s, json)
    ensures !past ==> a[..into] == old(a[..to]) + s[start..json]
    ensures a[..to] == old(a[..to]) && a[n + 1..] == old(a[n + 1..])
  {
    hide LiteralEnd, Copied, Unread;
    ghost var before, tail := a[..to], a[n + 1..];
    NoneCopied(a, s, start, to);
    Copy(a, start, to, s, start, before, tail);
    json, into := start + 1, to + 1;
    while a[json] != NUL && a[json] != QUOTE
      invariant start < json <= |s| && Copied(a, s, start, json, into, before, tail)
      invariant LiteralEnd(s, json) == LiteralEnd(s, start + 1)
      decreases |s| - json
    {
      json, into := CopyUnit(a, json, into, s, start, before, tail);
      if json > n {
        CopiedText(a, s, start, json, into, before, tail);
        return json, into, true;
      }
    }
    LiteralStops(s, json);
    Copy(a, json, into, s, start, before, tail);
    json, into := json + 1, into + 1;
    past := json > n;
    CopiedText(a, s, start, json, into, before, tail);
  }

  /** A character that is kept. */
  method CopyOne(a: array<char>, json: nat, into: nat, ghost s: string)
    requires into <= json < |s| && Unread(a, s, json)
    modifies a
    ensures Unread(a, s, json + 1) && a[..into + 1] == old(a[..into]) + [s[json]] && a[|s| + 1..] == old(a[|s| + 1..])
  {
    hide Copied;
    ghost var before, tail := a[..into], a[|s| + 1..];
    NoneCopied(a, s, json, into);
    Copy(a, json, into, s, json, before, tail);
    CopiedText(a, s, json, json + 1, into + 1, before, tail);
    assert s[json..json + 1] == [s[json]];
  }

  method SkipLine(a: array<char>, start: nat, ghost s: string) returns (json: nat)
    requires start <= |s| && Unread(a, s, start)
    ensures json == LineEnd(s, start)
  {
    json := start;
    while a[json] != NUL && a[json] != '\n'
      invariant start <= json <= |s| && LineEnd(s, json) == LineEnd(s, start)
      decreases |s| - json
    {
      json := json + 1;
    }
  }

  method SkipComment(a: array<char>, start: nat, ghost s: string) returns (json: nat)
    requires start <= |s| && Unread(a, s, start)
    ensures json == CommentEnd(s, start) + 2
  {
    json := start;
    while a[json] != NUL && !(a[json] == '*' && a[json + 1] == '/')
      invariant start <= json <= |s| && CommentEnd(s, json) == CommentEnd(s, start)
      decreases |s| - json
    {
      json := json + 1;
    }
    json := json + 2;
  }

  lemma NothingMore(s: string, json: nat)
    requires json <= |s| && At(s, json) == NUL
    ensures Minified(s, json) == Left([])
  {
  }

  /**
    cJSON_Minify, on a buffer whose text has its terminator at n. It reads behind the terminator exactly when it comes to
    a literal or a comment that is never closed, and then what was left before that place is in the buffer; otherwise
    what is left and a terminator are. The rest of the buffer stays as it is.
   */
  method Minify(a: array<char>, n: nat) returns (past: bool)
    requires n < a.Length && a[n] == NUL && NUL !in a[..n]
    modifies a
    ensures var s := old(a[..n]); past <==> exists i :: Reaches(s, 0, i) && Unclosed(s, i)
    ensures var r := Minified(old(a[..n]), 0);
            |r.text| <= n && a[..|r.text|] == r.text && r.Past? == past && (r.Left? ==> a[|r.text|] == NUL)
    ensures a[n + 1..] == old(a[n + 1..])
  {
    hide Minified, Reaches, Unclosed;
    NotClosed(a[..n], 0);
    past := Scan(a, n);
  }

  /** The loop of cJSON_Minify. */
  method Scan(a: array<char>, n: nat) returns (past: bool)
    requires n < a.Length && a[n] == NUL && NUL !in a[..n]
    modifies a
    ensures var r := Minified(old(a[..n]), 0);
            |r.text| <= n && a[..|r.text|] == r.text && r.Past? == past && (r.Left? ==> a[|r.text|] == NUL)
    ensures a[n + 1..] == old(a[n + 1..])
  {
    hide Minified, LineEnd, CommentEnd, LiteralEnd;
    ghost var s := a[..n];
    var json: nat, into: nat := 0, 0;
    PrependNothing(Minified(s, 0));
    while a[json] != NUL
      invariant Progress(a, s, json, into) && a[n + 1..] == old(a[n + 1..])
      decreases |s| - json
    {
      ghost var before := a[..into];
      Taken(s, json, before);
      if a[json] == ' ' || a[json] == '\t' || a[json] == '\r' || a[json] == '\n' {
        json := json + 1;
      } else if a[json] == '/' && a[json + 1] == '/' {
        json := SkipLine(a, json, s);
      } else if a[json] == '/' && a[json + 1] == '*' {
        json := SkipComment(a, json, s);
        if json > n {
          assert before + [] == before;
          return true;
        }
      } else if a[json] == QUOTE {
        json, into, past := CopyLiteral(a, n, json, into, s);
        if past {
          assert before + [] == before;
          return;
        }
      } else {
        CopyOne(a, json, into, s);
        json, into := json + 1, into + 1;
      }
    }
    NothingMore(s, json);
    a[into] := NUL;
    assert a[..into] + [] == a[..into];
    past := false;
  }
}
