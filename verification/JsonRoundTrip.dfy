/**
  Parsing the printed text of a tree gives the tree back, formatted or compact, wherever the text stands.
 */
module JsonRoundTrip {
  import opened JsonText
  import opened JsonGrammar

  // ----- white space -----

  predicate Blank(s: string, i: nat, j: nat) {
    i <= j <= |s| && forall k :: i <= k < j ==> NUL < s[k] <= ' '
  }

  lemma {:induction false} SkipBlank(s: string, i: nat, j: nat)
    requires Blank(s, i, j) && (j < |s| ==> !(NUL < s[j] <= ' '))
    ensures Skip(s, i) == j
    decreases j - i
  {
    if i < j {
      SkipBlank(s, i + 1, j);
    }
  }

  /** White space that the formatted form has before a place. */
  lemma SkipText(s: string, i: nat, blank: string, j: nat)
    requires Holds(s, i, blank) && j == i + |blank| && (j < |s| ==> !(NUL < s[j] <= ' '))
    requires forall k :: 0 <= k < |blank| ==> NUL < blank[k] <= ' '
    ensures Skip(s, i) == j
  {
    forall k | i <= k < j
      ensures NUL < s[k] <= ' '
    {
      HoldsAt(s, i, blank, k - i);
    }
    SkipBlank(s, i, j);
  }

  // ----- strings -----

  /** An escape is read back as the character it was printed for, and counts for at least one. */
  lemma EscapeBack(s: string, i: nat, c: char)
    requires c != NUL && Holds(s, i, Escape(c))
    ensures At(s, i) != QUOTE && At(s, i) != NUL
    ensures if s[i] == BACKSLASH then Unescape(s, i) == ([c], i + |Escape(c)|) else [s[i]] == [c] == Escape(c)
  {
    var e := Escape(c);
    HoldsAt(s, i, e, 0);
    if s[i] == BACKSLASH {
      HoldsAt(s, i, e, 1);
      if Letter(c) == NUL {
        HexBack(s, i, c);
      }
    }
  }

  lemma HexBack(s: string, i: nat, c: char)
    requires NUL < c < ' ' && Letter(c) == NUL && Holds(s, i, Escape(c))
    ensures i + 1 < |s| && s[i + 1] == 'u' && UnescapeHex(s, i) == ([c], i + 6)
  {
    var e := Escape(c);
    HoldsAt(s, i, e, 1);
    HoldsAt(s, i, e, 2);
    HoldsAt(s, i, e, 3);
    HoldsAt(s, i, e, 4);
    HoldsAt(s, i, e, 5);
    var n := c as int;
    assert Hex4(s, i + 2) == n / 16 * 16 + n % 16;
  }

  /** The count passes over an escape and finds at least one character. */
  lemma CountEscape(s: string, i: nat, c: char)
    requires c != NUL && Holds(s, i, Escape(c))
    ensures Count(s, i).Ok? <==> Count(s, i + |Escape(c)|).Ok?
    ensures Count(s, i).Ok? ==> Count(s, i).value >= 1 + Count(s, i + |Escape(c)|).value
  {
    var e := Escape(c);
    HoldsAt(s, i, e, 0);
    if |e| == 6 {
      HoldsAt(s, i, e, 2);
      HoldsAt(s, i, e, 3);
      HoldsAt(s, i, e, 4);
      HoldsAt(s, i, e, 5);
      CountPlain(s, i + 2);
      CountPlain(s, i + 3);
      CountPlain(s, i + 4);
      CountPlain(s, i + 5);
    }
  }

  lemma CountPlain(s: string, i: nat)
    requires i < |s| && HexValue(s[i]) >= 0
    ensures Count(s, i).Ok? <==> Count(s, i + 1).Ok?
    ensures Count(s, i).Ok? ==> Count(s, i).value == 1 + Count(s, i + 1).value
  {
  }

  lemma {:induction false} BodyBack(s: string, i: nat, t: string)
    requires NUL !in t && Holds(s, i, Escaped(t)) && At(s, i + |Escaped(t)|) == QUOTE
    ensures Body(s, i) == Ok(t, i + |Escaped(t)|)
    ensures Count(s, i).Ok? && |t| <= Count(s, i).value
    decreases |t|
  {
    hide Holds, Escape, Unescape;
    if t != [] {
      HoldsParts(s, i, Escape(t[0]), Escaped(t[1..]));
      EscapeBack(s, i, t[0]);
      CountEscape(s, i, t[0]);
      BodyBack(s, i + |Escape(t[0])|, t[1..]);
      assert t == [t[0]] + t[1..];
    }
  }

  lemma StringBack(s: string, i: nat, t: string)
    requires NUL !in t && Holds(s, i, Quoted(t))
    ensures StringAt(s, i) == Ok(t, i + |Quoted(t)|)
  {
    hide Body, Count, Escaped;
    HoldsParts(s, i, [QUOTE] + Escaped(t), [QUOTE]);
    HoldsParts(s, i, [QUOTE], Escaped(t));
    HoldsAt(s, i, [QUOTE], 0);
    HoldsAt(s, i + 1 + |Escaped(t)|, [QUOTE], 0);
    BodyBack(s, i + 1, t);
  }

  // ----- numbers -----

  lemma {:induction false} ReadingOn(s: string, i: nat, j: nat, acc: nat)
    requires i <= j < |s| && forall k :: i <= k <= j ==> IsDigit(s[k])
    ensures Reading(s, i, j + 1, acc) == Reading(s, i, j, acc) * 10 + DigitValue(s[j])
    decreases j - i
  {
    if i < j {
      ReadingOn(s, i + 1, j, acc * 10 + DigitValue(s[i]));
    } else {
      assert Reading(s, j + 1, j + 1, acc * 10 + DigitValue(s[j])) == acc * 10 + DigitValue(s[j]);
    }
  }

  lemma {:induction false} DigitsBack(s: string, i: nat, n: nat)
    requires Holds(s, i, Digits(n))
    ensures forall k :: i <= k < i + |Digits(n)| ==> IsDigit(s[k])
    ensures Reading(s, i, i + |Digits(n)|, 0) == n
    decreases n
  {
    var d := Digits(n);
    forall k | i <= k < i + |d|
      ensures IsDigit(s[k])
    {
      HoldsAt(s, i, d, k - i);
    }
    if n >= 10 {
      HoldsParts(s, i, Digits(n / 10), [Digit(n % 10)]);
      DigitsBack(s, i, n / 10);
      ReadingOn(s, i, i + |d| - 1, 0);
      HoldsAt(s, i, d, |d| - 1);
    } else {
      HoldsAt(s, i, d, 0);
      ReadingOn(s, i, i, 0);
    }
  }

  lemma {:induction false} DigitsEndIs(s: string, i: nat, j: nat)
    requires i <= j <= |s| && (forall k :: i <= k < j ==> IsDigit(s[k])) && !IsDigit(At(s, j))
    ensures DigitsEnd(s, i) == j
    decreases j - i
  {
    if i < j {
      DigitsEndIs(s, i + 1, j);
    }
  }

  /** Nothing behind a number can be taken for more of it. */
  predicate EndsNumber(c: char) {
    !IsDigit(c) && c != '.' && c != 'e' && c != 'E'
  }

  lemma WholeBack(s: string, i: nat, n: nat)
    requires Holds(s, i, Digits(n)) && EndsNumber(At(s, i + |Digits(n)|))
    ensures WholePart(s, i) == (n, i + |Digits(n)|)
  {
    DigitsBack(s, i, n);
    DigitsEndIs(s, i, i + |Digits(n)|);
    HoldsAt(s, i, Digits(n), 0);
  }

  lemma NumberBack(s: string, i: nat, m: int)
    requires Holds(s, i, Decimal(m)) && EndsNumber(At(s, i + |Decimal(m)|))
    ensures i < |s| && (s[i] == '-' || IsDigit(s[i]))
    ensures NumberAt(s, i) == Ok(Num(m, 0), i + |Decimal(m)|)
  {
    HoldsAt(s, i, Decimal(m), 0);
    if m < 0 {
      HoldsParts(s, i, "-", Digits(-m));
      WholeBack(s, i + 1, -m);
    } else {
      WholeBack(s, i, m);
    }
  }

  // ----- values -----

  /** A printed value starts with no white space and no closing bracket. */
  lemma FirstChar(t: Json, depth: nat, fmt: bool)
    ensures Print(t, depth, fmt)[0] > ' ' && Print(t, depth, fmt)[0] !in "]},"
  {
    if t.Num? && t.mantissa >= 0 {
      assert IsDigit(Decimal(t.mantissa)[0]);
    }
  }

  lemma Starts(s: string, i: nat, t: Json, depth: nat, fmt: bool)
    requires Holds(s, i, Print(t, depth, fmt))
    ensures i < |s| && s[i] > ' ' && s[i] !in "]}," && Skip(s, i) == i
  {
    hide Print;
    FirstChar(t, depth, fmt);
    HoldsAt(s, i, Print(t, depth, fmt), 0);
  }

  /** The keywords are read before anything else, and start no other value. */
  lemma NoKeyword(s: string, i: nat)
    requires i < |s| && s[i] != 'n' && s[i] != 'f' && s[i] != 't'
    ensures !Holds(s, i, "null") && !Holds(s, i, "false") && !Holds(s, i, "true")
  {
    NotHeld(s, i, "null");
    NotHeld(s, i, "false");
    NotHeld(s, i, "true");
  }

  lemma NotHeld(s: string, i: nat, p: string)
    requires |p| > 0 && i < |s| && s[i] != p[0]
    ensures !Holds(s, i, p)
  {
    hide Holds;
    if Holds(s, i, p) {
      HoldsAt(s, i, p, 0);
    }
  }

  lemma {:induction false} ValueBack(s: string, i: nat, t: Json, depth: nat, fmt: bool)
    requires Plain(t) && Holds(s, i, Print(t, depth, fmt))
    requires t.Num? ==> EndsNumber(At(s, i + |Print(t, depth, fmt)|))
    ensures ValueAt(s, i) == Ok(t, i + |Print(t, depth, fmt)|)
    decreases t, 0
  {
    hide Skip, StringAt, NumberAt, ItemsAt, MembersAt, Decimal, Quoted, Tabs, PrintItems, PrintMembers;
    var p := Print(t, depth, fmt);
    HoldsAt(s, i, p, 0);
    match t {
      case Null =>
      case False =>
        assert s[i] == 'f';
        NotHeld(s, i, "null");
      case True =>
        assert s[i] == 't';
        NotHeld(s, i, "null");
        NotHeld(s, i, "false");
      case Num(m, e) =>
        NumberBack(s, i, m);
        NoKeyword(s, i);
      case Str(text) =>
        StringBack(s, i, text);
        NoKeyword(s, i);
      case Arr(items) =>
        NoKeyword(s, i);
        ArrayBack(s, i, items, depth, fmt);
      case Obj(members) =>
        NoKeyword(s, i);
        ObjectBack(s, i, members, depth, fmt);
    }
  }

  lemma {:induction false} ArrayBack(s: string, i: nat, xs: Items, depth: nat, fmt: bool)
    requires PlainItems(xs) && Holds(s, i, Print(Arr(xs), depth, fmt))
    ensures var j := Skip(s, i + 1);
            if xs.NoItem? then At(s, j) == ']' && j + 1 == i + |Print(Arr(xs), depth, fmt)|
            else At(s, j) != ']' && ItemsAt(s, j) == Ok(xs, i + |Print(Arr(xs), depth, fmt)|)
    decreases xs, 2
  {
    hide Holds, PrintItems, ItemsAt;
    var p := Print(Arr(xs), depth, fmt);
    if xs.NoItem? {
      HoldsAt(s, i, p, 1);
    } else {
      var body := PrintItems(xs, depth + 1, fmt);
      HoldsParts(s, i, "[" + body, "]");
      HoldsParts(s, i, "[", body);
      HoldsAt(s, i + 1 + |body|, "]", 0);
      HoldsItem(s, i + 1, xs, depth + 1, fmt);
      Starts(s, i + 1, xs.value, depth + 1, fmt);
      ItemsBack(s, i + 1, i + 1, xs, depth + 1, fmt);
    }
  }

  lemma HoldsItem(s: string, i: nat, xs: Items, depth: nat, fmt: bool)
    requires xs.Item? && Holds(s, i, PrintItems(xs, depth, fmt))
    ensures var n := |Print(xs.value, depth, fmt)|;
            && Holds(s, i, Print(xs.value, depth, fmt))
            && (xs.next.NoItem? ==> |PrintItems(xs, depth, fmt)| == n)
            && (xs.next.Item? ==>
                 && i + n < |s| && s[i + n] == ',' && Holds(s, i + n + 1, Fmt(fmt, " "))
                 && Holds(s, i + n + 1 + |Fmt(fmt, " ")|, PrintItems(xs.next, depth, fmt))
                 && |PrintItems(xs, depth, fmt)| == n + 1 + |Fmt(fmt, " ")| + |PrintItems(xs.next, depth, fmt)|)
  {
    hide Holds, Print, Fmt;
    var p := Print(xs.value, depth, fmt);
    if xs.next.NoItem? {
      assert p + [] == p;
    } else {
      HoldsSeparated(s, i, p, Fmt(fmt, " "), PrintItems(xs.next, depth, fmt));
    }
  }

  lemma HoldsSeparated(s: string, i: nat, p: string, space: string, rest: string)
    requires Holds(s, i, p + ("," + space + rest))
    ensures Holds(s, i, p) && i + |p| < |s| && s[i + |p|] == ',' && Holds(s, i + |p| + 1, space)
    ensures Holds(s, i + |p| + 1 + |space|, rest)
  {
    hide Holds;
    HoldsParts(s, i, p, "," + space + rest);
    HoldsParts(s, i + |p|, "," + space, rest);
    HoldsParts(s, i + |p|, ",", space);
    HoldsAt(s, i + |p|, ",", 0);
  }

  lemma OneSpace(fmt: bool)
    ensures forall k :: 0 <= k < |Fmt(fmt, " ")| ==> NUL < Fmt(fmt, " ")[k] <= ' '
  {
  }

  lemma {:induction false} ItemsBack(s: string, i: nat, j: nat, xs: Items, depth: nat, fmt: bool)
    requires xs.Item? && PlainItems(xs) && i <= |s| && Skip(s, i) == j
    requires Holds(s, j, PrintItems(xs, depth, fmt)) && At(s, j + |PrintItems(xs, depth, fmt)|) == ']'
    ensures ItemsAt(s, i) == Ok(xs, j + |PrintItems(xs, depth, fmt)| + 1)
    decreases xs, 1
  {
    hide Holds, Print, PrintItems, ValueAt, Fmt;
    var n := j + |Print(xs.value, depth, fmt)|;
    HoldsItem(s, j, xs, depth, fmt);
    ValueBack(s, j, xs.value, depth, fmt);
    assert Skip(s, n) == n;
    if xs.next.Item? {
      var k := n + 1 + |Fmt(fmt, " ")|;
      HoldsItem(s, k, xs.next, depth, fmt);
      Starts(s, k, xs.next.value, depth, fmt);
      OneSpace(fmt);
      SkipText(s, n + 1, Fmt(fmt, " "), k);
      ItemsBack(s, n + 1, k, xs.next, depth, fmt);
    }
  }

  /** Where the parts of the first member stand. */
  datatype Places = Places(name: nat, colon: nat, value: nat, end: nat, next: nat)

  function MemberPlaces(i: nat, ms: Members, depth: nat, fmt: bool): (r: Places)
    requires ms.Member?
  {
    var name := i + |Fmt(fmt, Tabs(depth))|;
    var colon := name + |Quoted(ms.name)|;
    var value := colon + 1 + |Fmt(fmt, "\t")|;
    var end := value + |Print(ms.value, depth, fmt)|;
    Places(name, colon, value, end, end + (if ms.next.NoMember? then 0 else 1) + |Fmt(fmt, "\n")|)
  }

  predicate MemberHeld(s: string, i: nat, ms: Members, depth: nat, fmt: bool)
    requires ms.Member?
  {
    var p := MemberPlaces(i, ms, depth, fmt);
    && Holds(s, i, Fmt(fmt, Tabs(depth))) && Holds(s, p.name, Quoted(ms.name))
    && p.colon < |s| && s[p.colon] == ':' && Holds(s, p.colon + 1, Fmt(fmt, "\t"))
    && Holds(s, p.value, Print(ms.value, depth, fmt))
    && (ms.next.Member? ==> p.end < |s| && s[p.end] == ',')
    && Holds(s, p.end + (if ms.next.NoMember? then 0 else 1), Fmt(fmt, "\n"))
    && Holds(s, p.next, PrintMembers(ms.next, depth, fmt))
    && i + |PrintMembers(ms, depth, fmt)| == p.next + |PrintMembers(ms.next, depth, fmt)|
  }

  lemma HoldsMember(s: string, i: nat, ms: Members, depth: nat, fmt: bool)
    requires ms.Member? && Holds(s, i, PrintMembers(ms, depth, fmt))
    ensures MemberHeld(s, i, ms, depth, fmt)
  {
    hide Holds, Print, Fmt, Tabs, Quoted;
    var t, q, tab, v := Fmt(fmt, Tabs(depth)), Quoted(ms.name), Fmt(fmt, "\t"), Print(ms.value, depth, fmt);
    var comma := if ms.next.NoMember? then [] else ",";
    var nl, rest := Fmt(fmt, "\n"), PrintMembers(ms.next, depth, fmt);
    var front := t + q + ":" + tab + v;
    assert |front| == |t| + |q| + 1 + |tab| + |v|;
    HoldsTail(s, i, front, comma, nl, rest);
    HoldsFront(s, i, t, q, tab, v);
    if ms.next.Member? {
      HoldsAt(s, i + |front|, ",", 0);
    }
  }

  lemma HoldsTail(s: string, i: nat, front: string, comma: string, nl: string, rest: string)
    requires Holds(s, i, front + comma + nl + rest)
    ensures Holds(s, i, front) && Holds(s, i + |front|, comma) && Holds(s, i + |front| + |comma|, nl)
    ensures Holds(s, i + |front| + |comma| + |nl|, rest)
  {
    hide Holds;
    HoldsParts(s, i, front + comma + nl, rest);
    HoldsParts(s, i, front + comma, nl);
    HoldsParts(s, i, front, comma);
  }

  lemma HoldsFront(s: string, i: nat, t: string, q: string, tab: string, v: string)
    requires Holds(s, i, t + q + ":" + tab + v)
    ensures Holds(s, i, t) && Holds(s, i + |t|, q) && i + |t| + |q| < |s| && s[i + |t| + |q|] == ':'
    ensures Holds(s, i + |t| + |q| + 1, tab) && Holds(s, i + |t| + |q| + 1 + |tab|, v)
  {
    hide Holds;
    HoldsParts(s, i, t + q + ":" + tab, v);
    HoldsParts(s, i, t + q + ":", tab);
    HoldsParts(s, i, t + q, ":");
    HoldsParts(s, i, t, q);
    HoldsAt(s, i + |t + q|, ":", 0);
  }

  /** Blank text behind blank text is blank, up to a character that is not. */
  lemma SkipOn(s: string, i: nat, j: nat, blank: string, k: nat)
    requires Blank(s, i, j) && Holds(s, j, blank) && k == j + |blank| && (k < |s| ==> !(NUL < s[k] <= ' '))
    requires forall x :: 0 <= x < |blank| ==> NUL < blank[x] <= ' '
    ensures Skip(s, i) == k
  {
    forall x | i <= x < k
      ensures NUL < s[x] <= ' '
    {
      if x >= j {
        HoldsAt(s, j, blank, x - j);
      }
    }
    SkipBlank(s, i, k);
  }

  lemma HeldBlank(s: string, i: nat, blank: string)
    requires Holds(s, i, blank) && forall x :: 0 <= x < |blank| ==> NUL < blank[x] <= ' '
    ensures Blank(s, i, i + |blank|)
  {
    forall x | i <= x < i + |blank|
      ensures NUL < s[x] <= ' '
    {
      HoldsAt(s, i, blank, x - i);
    }
  }

  /** What the formatted form adds is white space. */
  lemma Spaces(fmt: bool, n: int)
    ensures forall x :: 0 <= x < |Fmt(fmt, Tabs(n))| ==> NUL < Fmt(fmt, Tabs(n))[x] <= ' '
    ensures forall x :: 0 <= x < |Fmt(fmt, "\t")| ==> NUL < Fmt(fmt, "\t")[x] <= ' '
    ensures forall x :: 0 <= x < |Fmt(fmt, "\n")| ==> NUL < Fmt(fmt, "\n")[x] <= ' '
  {
  }

  /** The name, the colon and the value of a member. */
  lemma MemberBack(s: string, i: nat, j: nat, ms: Members, depth: nat, fmt: bool)
    requires ms.Member? && NUL !in ms.name && Blank(s, i, j) && MemberHeld(s, j, ms, depth, fmt)
    ensures var p := MemberPlaces(j, ms, depth, fmt);
            && Skip(s, i) == p.name && StringAt(s, p.name) == Ok(ms.name, p.colon) && Skip(s, p.colon) == p.colon
            && Skip(s, p.colon + 1) == p.value && s[p.name] == QUOTE && At(s, p.colon) == ':'
  {
    hide Holds, Print, PrintMembers, Fmt, Tabs, Quoted, StringAt, Skip;
    var p := MemberPlaces(j, ms, depth, fmt);
    Spaces(fmt, depth);
    HoldsAt(s, p.name, Quoted(ms.name), 0);
    SkipOn(s, i, j, Fmt(fmt, Tabs(depth)), p.name);
    StringBack(s, p.name, ms.name);
    SkipBlank(s, p.colon, p.colon);
    Starts(s, p.value, ms.value, depth, fmt);
    SkipText(s, p.colon + 1, Fmt(fmt, "\t"), p.value);
  }

  /** Members from place i on: white space to j, the members, white space to the brace at e. */
  lemma {:induction false} MembersBack(s: string, i: nat, j: nat, ms: Members, depth: nat, fmt: bool, e: nat)
    requires ms.Member? && PlainMembers(ms) && Blank(s, i, j) && Holds(s, j, PrintMembers(ms, depth, fmt))
    requires Blank(s, j + |PrintMembers(ms, depth, fmt)|, e) && At(s, e) == '}'
    ensures MembersAt(s, i) == Ok(ms, e + 1)
    decreases ms, 1
  {
    hide Holds, Print, PrintMembers, Fmt, Tabs, Quoted, StringAt, Skip, ValueAt, MemberHeld;
    HoldsMember(s, j, ms, depth, fmt);
    MemberBack(s, i, j, ms, depth, fmt);
    MemberAfter(s, j, ms, depth, fmt, e);
    var p := MemberPlaces(j, ms, depth, fmt);
    ValueBack(s, p.value, ms.value, depth, fmt);
    if ms.next.Member? {
      MembersBack(s, p.end + 1, p.next, ms.next, depth, fmt, e);
    }
  }

  /** What stands behind a value: a comma and the next member, or the brace. */
  lemma MemberAfter(s: string, j: nat, ms: Members, depth: nat, fmt: bool, e: nat)
    requires ms.Member? && MemberHeld(s, j, ms, depth, fmt)
    requires Blank(s, j + |PrintMembers(ms, depth, fmt)|, e) && At(s, e) == '}'
    ensures var p := MemberPlaces(j, ms, depth, fmt);
            && Holds(s, p.value, Print(ms.value, depth, fmt)) && p.end <= |s| && EndsNumber(At(s, p.end))
            && (ms.next.Member? ==>
                 && Skip(s, p.end) == p.end && At(s, p.end) == ',' && Blank(s, p.end + 1, p.next)
                 && Holds(s, p.next, PrintMembers(ms.next, depth, fmt))
                 && Blank(s, p.next + |PrintMembers(ms.next, depth, fmt)|, e))
            && (ms.next.NoMember? ==> Skip(s, p.end) == e)
  {
    hide Holds, Print, PrintMembers, Tabs, Quoted, Skip;
    var p := MemberPlaces(j, ms, depth, fmt);
    Spaces(fmt, depth);
    if ms.next.Member? {
      HeldBlank(s, p.end + 1, Fmt(fmt, "\n"));
      SkipBlank(s, p.end, p.end);
    } else {
      NothingLeft(depth, fmt);
      HeldBlank(s, p.end, Fmt(fmt, "\n"));
      SkipBlank(s, p.end, e);
      if fmt {
        HoldsAt(s, p.end, "\n", 0);
      }
    }
  }

  lemma NothingLeft(depth: nat, fmt: bool)
    ensures PrintMembers(NoMember, depth, fmt) == []
  {
  }

  lemma ObjectParts(s: string, i: nat, ms: Members, depth: nat, fmt: bool)
    requires ms.Member? && Holds(s, i, Print(Obj(ms), depth, fmt))
    ensures var j := i + 1 + |Fmt(fmt, "\n")|;
            var e := i + |Print(Obj(ms), depth, fmt)| - 1;
            && Blank(s, i + 1, j) && Holds(s, j, PrintMembers(ms, depth + 1, fmt))
            && Blank(s, j + |PrintMembers(ms, depth + 1, fmt)|, e) && At(s, e) == '}'
  {
    hide Holds, PrintMembers, Fmt, Tabs;
    var nl, body, tabs := Fmt(fmt, "\n"), PrintMembers(ms, depth + 1, fmt), Fmt(fmt, Tabs(depth));
    HoldsParts(s, i, "{" + nl + body + tabs, "}");
    HoldsParts(s, i, "{" + nl + body, tabs);
    HoldsParts(s, i, "{" + nl, body);
    HoldsParts(s, i, "{", nl);
    HoldsAt(s, i + |"{" + nl + body + tabs|, "}", 0);
    Spaces(fmt, depth);
    HeldBlank(s, i + 1, nl);
    HeldBlank(s, i + |"{" + nl + body|, tabs);
  }

  lemma {:induction false} ObjectBack(s: string, i: nat, ms: Members, depth: nat, fmt: bool)
    requires PlainMembers(ms) && Holds(s, i, Print(Obj(ms), depth, fmt))
    ensures var j := Skip(s, i + 1);
            if ms.NoMember? then At(s, j) == '}' && j + 1 == i + |Print(Obj(ms), depth, fmt)|
            else At(s, j) != '}' && MembersAt(s, j) == Ok(ms, i + |Print(Obj(ms), depth, fmt)|)
    decreases ms, 2
  {
    hide Holds, Print, PrintMembers, MembersAt, MemberHeld, Skip, StringAt, Quoted, Tabs;
    if ms.NoMember? {
      EmptyObject(s, i, depth, fmt);
    } else {
      var e := i + |Print(Obj(ms), depth, fmt)| - 1;
      var j := i + 1 + |Fmt(fmt, "\n")|;
      ObjectParts(s, i, ms, depth, fmt);
      HoldsMember(s, j, ms, depth + 1, fmt);
      MemberBack(s, i + 1, j, ms, depth + 1, fmt);
      MembersBack(s, i + 1, j, ms, depth + 1, fmt, e);
      SkipTwice(s, i + 1);
    }
  }

  lemma EmptyObject(s: string, i: nat, depth: nat, fmt: bool)
    requires Holds(s, i, Print(Obj(NoMember), depth, fmt))
    ensures At(s, Skip(s, i + 1)) == '}' && Skip(s, i + 1) + 1 == i + |Print(Obj(NoMember), depth, fmt)|
  {
    hide Holds, Skip;
    var blank := Fmt(fmt, "\n" + Tabs(depth - 1));
    HoldsParts(s, i, "{" + blank, "}");
    HoldsParts(s, i, "{", blank);
    HoldsAt(s, i + 1 + |blank|, "}", 0);
    SkipText(s, i + 1, blank, i + 1 + |blank|);
  }

  /** Skipping white space before members changes nothing. */
  lemma SkipTwice(s: string, i: nat)
    requires i <= |s|
    ensures Skip(s, Skip(s, i)) == Skip(s, i) && MembersAt(s, Skip(s, i)) == MembersAt(s, i)
  {
    hide Skip, ValueAt, StringAt;
    SkipStops(s, i);
  }

  lemma {:induction false} SkipStops(s: string, i: nat)
    requires i <= |s|
    ensures Skip(s, Skip(s, i)) == Skip(s, i)
    decreases |s| - i
  {
    if i < |s| && NUL < s[i] <= ' ' {
      SkipStops(s, i + 1);
    }
  }

  // ----- documents -----

  /** cJSON_Parse of what cJSON_Print or cJSON_PrintUnformatted wrote, with or without the check for trailing text. */
  lemma ParsePrinted(t: Json, fmt: bool, whole: bool)
    requires Plain(t)
    ensures Document(Print(t, 0, fmt), whole) == Ok(t, |Print(t, 0, fmt)|)
  {
    hide Print, ValueAt;
    var s := Print(t, 0, fmt);
    assert s[0..|s|] == s;
    Starts(s, 0, t, 0, fmt);
    ValueBack(s, 0, t, 0, fmt);
    SkipBlank(s, |s|, |s|);
  }

  /** Two trees with the same text are the same tree. */
  lemma PrintInjective(t: Json, u: Json, fmt: bool, fmt': bool)
    requires Plain(t) && Plain(u) && Print(t, 0, fmt) == Print(u, 0, fmt')
    ensures t == u
  {
    ParsePrinted(t, fmt, false);
    ParsePrinted(u, fmt', false);
  }
}
