/**
  Which texts the parser accepts, stated without its control flow: the places a value stands at, with white space between
  the signs of arrays and objects, in the manner of sections 3 to 5 of RFC 8259. Strings and numbers are the literals
  the parser takes for them.
 */
module JsonLanguage {
  import opened JsonText
  import opened JsonGrammar
  import opened JsonRoundTrip

  /** White space, and control characters with it. */
  predicate Gap(s: string, i: nat, j: nat) {
    i <= j <= |s| && forall k :: i <= k < j ==> 0 < s[k] as int <= 32
  }

  /** The text from i to j is a value. */
  ghost predicate Spans(s: string, i: nat, j: nat, v: Json)
    decreases v, 1
  {
    && i < j <= |s|
    && match v
       case Null => s[i..j] == "null"
       case False => s[i..j] == "false"
       case True => s[i..j] == "true"
       case Str(t) => s[i] == '\"' && StringAt(s, i) == Ok(t, j)
       case Num(m, e) => (s[i] == '-' || '0' <= s[i] <= '9') && NumberAt(s, i) == Ok(Num(m, e), j)
       case Arr(items) => s[i] == '[' && exists k :: ItemsBehind(s, i, k, j, items)
       case Obj(members) => s[i] == '{' && exists k :: MembersBehind(s, i, k, j, members)
  }

  /** Behind the sign at i and white space up to k, the values of an array and its closing bracket. */
  ghost predicate ItemsBehind(s: string, i: nat, k: nat, j: nat, xs: Items)
    decreases xs, 2
  {
    Gap(s, i + 1, k) && k < j <= |s| && if xs.NoItem? then s[k] == ']' && j == k + 1 else exists a, b :: ItemSpans(s, k, a, b, j, xs)
  }

  /** A value up to a, white space up to b, and a comma with more values behind it or the closing bracket. */
  ghost predicate ItemSpans(s: string, k: nat, a: nat, b: nat, j: nat, xs: Items)
    decreases xs, 1
  {
    && xs.Item? && Spans(s, k, a, xs.value) && Gap(s, a, b) && b < j <= |s|
    && if xs.next.NoItem? then s[b] == ']' && j == b + 1 else s[b] == ',' && exists c :: ItemsBehind(s, b, c, j, xs.next)
  }

  ghost predicate MembersBehind(s: string, i: nat, k: nat, j: nat, ms: Members)
    decreases ms, 2
  {
    Gap(s, i + 1, k) && k < j <= |s| && if ms.NoMember? then s[k] == '}' && j == k + 1 else exists p :: MemberSpans(s, k, p, j, ms)
  }

  /** The places in a member: behind its name, its colon, its value, the end of the value, the sign behind that. */
  datatype Stops = Stops(name: nat, colon: nat, value: nat, end: nat, sign: nat)

  ghost predicate MemberSpans(s: string, k: nat, p: Stops, j: nat, ms: Members)
    decreases ms, 1
  {
    && ms.Member? && k < |s| && s[k] == '\"' && StringAt(s, k) == Ok(ms.name, p.name)
    && Gap(s, p.name, p.colon) && p.colon < |s| && s[p.colon] == ':' && Gap(s, p.colon + 1, p.value)
    && Spans(s, p.value, p.end, ms.value) && Gap(s, p.end, p.sign) && p.sign < j <= |s|
    && if ms.next.NoMember? then s[p.sign] == '}' && j == p.sign + 1
       else s[p.sign] == ',' && exists c :: MembersBehind(s, p.sign, c, j, ms.next)
  }

  // ----- what is accepted is such a text -----

  lemma {:induction false} SkipGap(s: string, i: nat)
    requires i <= |s|
    ensures Gap(s, i, Skip(s, i)) && (Skip(s, i) < |s| ==> !(0 < s[Skip(s, i)] as int <= 32))
    decreases |s| - i
  {
    if i < |s| && NUL < s[i] <= ' ' {
      SkipGap(s, i + 1);
    }
  }

  /** An accepted value is a text of the language, for the value that is returned. */
  lemma {:induction false} Sound(s: string, i: nat)
    requires i <= |s| && ValueAt(s, i).Ok?
    ensures Spans(s, i, ValueAt(s, i).next, ValueAt(s, i).value)
    decreases |s| - i, 0
  {
    hide StringAt, NumberAt, Skip, ItemsAt, MembersAt, ValueAt, Spans;
    if At(s, i) == '[' {
      SoundArray(s, i);
    } else if At(s, i) == '{' {
      SoundObject(s, i);
    } else {
      SoundPlain(s, i);
    }
  }

  lemma SoundPlain(s: string, i: nat)
    requires i <= |s| && ValueAt(s, i).Ok? && At(s, i) != '[' && At(s, i) != '{'
    ensures Spans(s, i, ValueAt(s, i).next, ValueAt(s, i).value)
  {
    hide StringAt, NumberAt, Skip, ItemsAt, MembersAt;
    if i < |s| && (s[i] == '-' || IsDigit(s[i])) {
      IsNumber(s, i);
    }
  }

  lemma IsNumber(s: string, i: nat)
    requires i < |s| && (s[i] == '-' || IsDigit(s[i]))
    ensures NumberAt(s, i).Ok? && NumberAt(s, i).value.Num?
  {
  }

  lemma {:induction false} SoundArray(s: string, i: nat)
    requires i < |s| && s[i] == '[' && ValueAt(s, i).Ok?
    ensures Spans(s, i, ValueAt(s, i).next, ValueAt(s, i).value)
    decreases |s| - i - 1, 3
  {
    hide StringAt, NumberAt, Skip, ItemsAt, MembersAt, Gap;
    var k := Skip(s, i + 1);
    SkipGap(s, i + 1);
    NoKeyword(s, i);
    if At(s, k) == ']' {
      assert ItemsBehind(s, i, k, k + 1, NoItem);
    } else {
      SkipAgain(s, i + 1);
      var c := SoundItems(s, i);
    }
  }

  lemma NoKeyword(s: string, i: nat)
    requires i < |s| && s[i] !in "nft"
    ensures !Holds(s, i, "null") && !Holds(s, i, "false") && !Holds(s, i, "true")
  {
    if i + 4 <= |s| {
      assert s[i..i + 4][0] == s[i];
    }
    if i + 5 <= |s| {
      assert s[i..i + 5][0] == s[i];
    }
  }

  /** White space in front makes no difference. */
  lemma SkipAgain(s: string, i: nat)
    requires i <= |s|
    ensures Skip(s, Skip(s, i)) == Skip(s, i)
    ensures ItemsAt(s, Skip(s, i)) == ItemsAt(s, i) && MembersAt(s, Skip(s, i)) == MembersAt(s, i)
  {
    hide ItemsAt, MembersAt, Gap;
    SkipGap(s, i);
    SkipStays(s, i);
    SameItems(s, i, Skip(s, i));
    SameMembers(s, i, Skip(s, i));
  }

  lemma SkipStays(s: string, i: nat)
    requires i <= |s|
    ensures Skip(s, Skip(s, i)) == Skip(s, i)
  {
    SkipGap(s, i);
  }

  lemma SameItems(s: string, i: nat, k: nat)
    requires i <= |s| && k <= |s| && Skip(s, i) == Skip(s, k)
    ensures ItemsAt(s, i) == ItemsAt(s, k)
  {
    hide Skip, ValueAt, MembersAt, MemberAt;
  }

  lemma SameMembers(s: string, i: nat, k: nat)
    requires i <= |s| && k <= |s| && Skip(s, i) == Skip(s, k)
    ensures MembersAt(s, i) == MembersAt(s, k)
  {
    hide Skip, ValueAt, ItemsAt, StringAt;
    assert MemberAt(s, i) == MemberAt(s, k);
  }

  lemma {:induction false} SoundItems(s: string, i: nat) returns (k: nat)
    requires i < |s| && ItemsAt(s, i + 1).Ok?
    ensures ItemsBehind(s, i, k, ItemsAt(s, i + 1).next, ItemsAt(s, i + 1).value)
    decreases |s| - i - 1, 2
  {
    hide StringAt, NumberAt, Skip, ValueAt, MembersAt, Gap;
    var r := ItemsAt(s, i + 1);
    k := Skip(s, i + 1);
    SkipGap(s, i + 1);
    Sound(s, k);
    var a := ValueAt(s, k).next;
    var b := Skip(s, a);
    SkipGap(s, a);
    if At(s, b) == ',' {
      var c := SoundItems(s, b);
    }
    assert ItemSpans(s, k, a, b, r.next, r.value);
    assert ItemsBehind(s, i, k, r.next, r.value);
  }

  lemma {:induction false} SoundObject(s: string, i: nat)
    requires i < |s| && s[i] == '{' && ValueAt(s, i).Ok?
    ensures Spans(s, i, ValueAt(s, i).next, ValueAt(s, i).value)
    decreases |s| - i - 1, 3
  {
    hide StringAt, NumberAt, Skip, ItemsAt, MembersAt, Gap;
    var k := Skip(s, i + 1);
    SkipGap(s, i + 1);
    NoKeyword(s, i);
    if At(s, k) == '}' {
      assert MembersBehind(s, i, k, k + 1, NoMember);
    } else {
      SkipAgain(s, i + 1);
      var c := SoundMembers(s, i);
    }
  }

  /** The places the parser comes by in a member. */
  ghost predicate Walks(s: string, i: nat, p: Stops, name: string, v: Json) {
    && i <= |s| && StringAt(s, Skip(s, i)) == Ok(name, p.name)
    && p.name <= |s| && p.colon == Skip(s, p.name) && p.colon < |s| && s[p.colon] == ':'
    && p.value == Skip(s, p.colon + 1) && ValueAt(s, p.value) == Ok(v, p.end)
    && p.end <= |s| && p.sign == Skip(s, p.end)
  }

  lemma MembersOpen(s: string, i: nat) returns (p: Stops)
    requires i <= |s| && MembersAt(s, i).Ok?
    ensures var r := MembersAt(s, i);
            && r.value.Member? && Walks(s, i, p, r.value.name, r.value.value) && p.sign < |s|
            && (if r.value.next.NoMember? then s[p.sign] == '}' && r.next == p.sign + 1
                else s[p.sign] == ',' && MembersAt(s, p.sign + 1) == Ok(r.value.next, r.next))
  {
    hide Skip, ItemsAt, StringAt, ValueAt, MemberAt, Walks;
    p := MemberOpen(s, i);
    SkipInside(s, i, p);
    if s[p.sign] == ',' {
      SomeMember(s, p.sign + 1);
    }
  }

  lemma MemberOpen(s: string, i: nat) returns (p: Stops)
    requires i <= |s| && MemberAt(s, i).Ok?
    ensures Walks(s, i, p, MemberAt(s, i).value.0, MemberAt(s, i).value.1) && p.end == MemberAt(s, i).next
  {
    hide Skip, ItemsAt, StringAt, ValueAt;
    var name := StringAt(s, Skip(s, i)).next;
    var colon := Skip(s, name);
    var value := Skip(s, colon + 1);
    var end := ValueAt(s, value).next;
    p := Stops(name, colon, value, end, Skip(s, end));
  }

  lemma SkipInside(s: string, i: nat, p: Stops)
    requires i <= |s| && MemberAt(s, i).Ok? && MembersAt(s, i).Ok? && p.end == MemberAt(s, i).next
    requires Walks(s, i, p, MemberAt(s, i).value.0, MemberAt(s, i).value.1)
    ensures p.end <= |s| && p.sign == Skip(s, p.end) < |s| && (s[p.sign] == ',' || s[p.sign] == '}')
  {
    hide Skip, ItemsAt, StringAt, ValueAt, MemberAt;
  }

  lemma SomeMember(s: string, i: nat)
    requires i <= |s|
    ensures MembersAt(s, i).Ok? ==> MembersAt(s, i).value.Member?
  {
    hide Skip, ItemsAt, StringAt, ValueAt;
  }

  lemma MembersClose(s: string, i: nat, p: Stops, name: string, v: Json)
    requires Walks(s, i, p, name, v) && p.sign < |s|
    ensures s[p.sign] == '}' ==> MembersAt(s, i) == Ok(Member(name, v, NoMember), p.sign + 1)
    ensures s[p.sign] == ',' && MembersAt(s, p.sign + 1).Ok? ==>
              MembersAt(s, i) == Ok(Member(name, v, MembersAt(s, p.sign + 1).value), MembersAt(s, p.sign + 1).next)
  {
    hide Skip, ItemsAt, StringAt, ValueAt;
    assert MemberAt(s, i) == Ok((name, v), p.end);
  }

  lemma {:induction false} SoundMembers(s: string, i: nat) returns (k: nat)
    requires i < |s| && MembersAt(s, i + 1).Ok?
    ensures MembersBehind(s, i, k, MembersAt(s, i + 1).next, MembersAt(s, i + 1).value)
    decreases |s| - i - 1, 2
  {
    hide StringAt, NumberAt, Skip, ValueAt, ItemsAt, MembersAt, Gap, Spans;
    var r := MembersAt(s, i + 1);
    k := Skip(s, i + 1);
    SkipGap(s, i + 1);
    var p := MembersOpen(s, i + 1);
    StringStarts(s, k);
    SkipGap(s, p.name);
    SkipGap(s, p.colon + 1);
    Sound(s, p.value);
    SkipGap(s, p.end);
    if r.value.next.Member? {
      var c := SoundMembers(s, p.sign);
    }
    assert MemberSpans(s, k, p, r.next, r.value);
  }

  lemma StringStarts(s: string, i: nat)
    requires i <= |s|
    ensures StringAt(s, i).Ok? ==> At(s, i) == '\"'
  {
  }

  // ----- such a text is accepted -----

  lemma GapSkip(s: string, i: nat, j: nat)
    requires Gap(s, i, j) && (j < |s| ==> !(0 < s[j] as int <= 32))
    ensures Skip(s, i) == j
  {
    SkipBlank(s, i, j);
  }

  /** A value starts with a sign of its own. */
  lemma Starts(s: string, i: nat, j: nat, v: Json)
    requires Spans(s, i, j, v)
    ensures i < j <= |s| && s[i] as int > 32 && s[i] !in "]},:"
  {
    if v.Null? || v.True? || v.False? {
      assert s[i..j][0] == s[i];
    }
  }

  /** A text of the language is accepted, with the value it is a text of. */
  lemma {:induction false} Accepted(s: string, i: nat, j: nat, v: Json)
    requires Spans(s, i, j, v)
    ensures ValueAt(s, i) == Ok(v, j)
    decreases v, 1
  {
    hide StringAt, NumberAt, Skip, ItemsAt, MembersAt, Gap, ItemsBehind, MembersBehind;
    if v.Arr? {
      var k: nat :| ItemsBehind(s, i, k, j, v.items);
      NoKeyword(s, i);
      AcceptedItems(s, i, k, j, v.items);
    } else if v.Obj? {
      var k: nat :| MembersBehind(s, i, k, j, v.members);
      NoKeyword(s, i);
      AcceptedMembers(s, i, k, j, v.members);
    } else {
      AcceptedPlain(s, i, j, v);
    }
  }

  lemma AcceptedPlain(s: string, i: nat, j: nat, v: Json)
    requires Spans(s, i, j, v) && !v.Arr? && !v.Obj?
    ensures ValueAt(s, i) == Ok(v, j)
  {
    hide StringAt, NumberAt, Skip, ItemsAt, MembersAt;
    if v.Null? {
      KeywordAt(s, i, j, "null");
    } else if v.False? {
      KeywordAt(s, i, j, "false");
      OtherWord(s, i, "null");
    } else if v.True? {
      KeywordAt(s, i, j, "true");
      OtherWord(s, i, "null");
      OtherWord(s, i, "false");
    } else {
      NoKeyword(s, i);
    }
  }

  lemma KeywordAt(s: string, i: nat, j: nat, p: string)
    requires i < j <= |s| && s[i..j] == p
    ensures Holds(s, i, p) && j == i + |p| && s[i] == p[0]
  {
    assert s[i..j][0] == s[i];
  }

  lemma OtherWord(s: string, i: nat, p: string)
    requires i < |s| && p != [] && s[i] != p[0]
    ensures !Holds(s, i, p)
  {
    if Holds(s, i, p) {
      HoldsAt(s, i, p, 0);
    }
  }

  lemma {:induction false} AcceptedItems(s: string, i: nat, k: nat, j: nat, xs: Items)
    requires ItemsBehind(s, i, k, j, xs)
    ensures i < |s| && Skip(s, i + 1) == k && k < |s|
    ensures xs.NoItem? ==> s[k] == ']' && j == k + 1
    ensures xs.Item? ==> s[k] != ']' && ItemsAt(s, i + 1) == ItemsAt(s, k) == Ok(xs, j)
    decreases xs, 2
  {
    hide StringAt, NumberAt, Skip, MembersAt, ValueAt, Spans, Gap;
    GapInside(s, i + 1, k);
    if xs.NoItem? {
      GapSkip(s, i + 1, k);
    } else {
      var a, b, c := ItemParts(s, i, k, j, xs);
      Starts(s, k, a, xs.value);
      GapSkip(s, i + 1, k);
      SkipAgain(s, i + 1);
      Accepted(s, k, a, xs.value);
      GapInside(s, a, b);
      GapSkip(s, a, b);
      if xs.next.Item? {
        AcceptedItems(s, b, c, j, xs.next);
      }
    }
  }

  /** The places in the first of several values. */
  lemma ItemParts(s: string, i: nat, k: nat, j: nat, xs: Items) returns (a: nat, b: nat, c: nat)
    requires ItemsBehind(s, i, k, j, xs) && xs.Item?
    ensures Spans(s, k, a, xs.value) && Gap(s, a, b) && b < j <= |s|
    ensures if xs.next.NoItem? then s[b] == ']' && j == b + 1 else s[b] == ',' && ItemsBehind(s, b, c, j, xs.next)
  {
    hide Spans, Gap;
    a, b :| ItemSpans(s, k, a, b, j, xs);
    c := 0;
    if xs.next.Item? {
      c := ItemNext(s, k, a, b, j, xs);
    }
  }

  lemma ItemNext(s: string, k: nat, a: nat, b: nat, j: nat, xs: Items) returns (c: nat)
    requires ItemSpans(s, k, a, b, j, xs) && xs.next.Item?
    ensures ItemsBehind(s, b, c, j, xs.next)
  {
    c :| ItemsBehind(s, b, c, j, xs.next);
  }

  lemma MemberParts(s: string, i: nat, k: nat, j: nat, ms: Members) returns (p: Stops, c: nat)
    requires MembersBehind(s, i, k, j, ms) && ms.Member?
    ensures k < |s| && s[k] == '\"' && StringAt(s, k) == Ok(ms.name, p.name)
    ensures Gap(s, p.name, p.colon) && p.colon < |s| && s[p.colon] == ':' && Gap(s, p.colon + 1, p.value)
    ensures Spans(s, p.value, p.end, ms.value) && Gap(s, p.end, p.sign) && p.sign < j <= |s|
    ensures if ms.next.NoMember? then s[p.sign] == '}' && j == p.sign + 1
            else s[p.sign] == ',' && MembersBehind(s, p.sign, c, j, ms.next)
  {
    hide Spans, Gap, StringAt;
    p :| MemberSpans(s, k, p, j, ms);
    c := 0;
    if ms.next.Member? {
      c := MemberNext(s, k, p, j, ms);
    }
  }

  lemma MembersAhead(s: string, i: nat, k: nat, j: nat, ms: Members)
    requires MembersBehind(s, i, k, j, ms)
    ensures i < k < j <= |s| && Gap(s, i + 1, k) && (ms.NoMember? ==> s[k] == '}' && j == k + 1)
  {
  }

  lemma MemberNext(s: string, k: nat, p: Stops, j: nat, ms: Members) returns (c: nat)
    requires MemberSpans(s, k, p, j, ms) && ms.next.Member?
    ensures MembersBehind(s, p.sign, c, j, ms.next)
  {
    c :| MembersBehind(s, p.sign, c, j, ms.next);
  }

  lemma GapInside(s: string, i: nat, j: nat)
    requires Gap(s, i, j)
    ensures i <= j <= |s|
  {
  }

  lemma {:induction false} AcceptedMembers(s: string, i: nat, k: nat, j: nat, ms: Members)
    requires MembersBehind(s, i, k, j, ms)
    ensures i < |s| && Skip(s, i + 1) == k && k < |s|
    ensures ms.NoMember? ==> s[k] == '}' && j == k + 1
    ensures ms.Member? ==> s[k] != '}' && MembersAt(s, i + 1) == MembersAt(s, k) == Ok(ms, j)
    decreases ms, 2
  {
    hide StringAt, NumberAt, Skip, ItemsAt, ValueAt, MembersAt, Spans, Gap, MembersBehind;
    MembersAhead(s, i, k, j, ms);
    if ms.NoMember? {
      GapSkip(s, i + 1, k);
    } else {
      var p, c := MemberParts(s, i, k, j, ms);
      GapSkip(s, i + 1, k);
      SkipAgain(s, i + 1);
      GapInside(s, p.name, p.colon);
      GapSkip(s, p.name, p.colon);
      Starts(s, p.value, p.end, ms.value);
      GapInside(s, p.colon + 1, p.value);
      GapSkip(s, p.colon + 1, p.value);
      Accepted(s, p.value, p.end, ms.value);
      GapInside(s, p.end, p.sign);
      GapSkip(s, p.end, p.sign);
      MembersClose(s, i + 1, p, ms.name, ms.value);
      if ms.next.Member? {
        AcceptedMembers(s, p.sign, c, j, ms.next);
      }
    }
  }

  // ----- whole texts -----

  /** White space, a value, and nothing but white space behind it if the whole text is asked for. */
  ghost predicate IsText(s: string, whole: bool, i: nat, j: nat, v: Json) {
    Gap(s, 0, i) && Spans(s, i, j, v) && (whole ==> Gap(s, j, |s|))
  }

  /** A text is accepted as a value exactly when it is a text of that value. */
  lemma AcceptedExactly(s: string, whole: bool, v: Json)
    requires NUL !in s
    ensures Document(s, whole).Ok? && Document(s, whole).value == v <==> exists i, j :: IsText(s, whole, i, j, v)
  {
    hide ValueAt, Skip, Spans;
    var d := Document(s, whole);
    var k := Skip(s, 0);
    SkipGap(s, 0);
    if ValueAt(s, k).Ok? {
      SkipGap(s, ValueAt(s, k).next);
      if d.Ok? && d.value == v {
        Sound(s, k);
        assert IsText(s, whole, k, ValueAt(s, k).next, v);
      }
    }
    if exists i, j :: IsText(s, whole, i, j, v) {
      var i, j :| IsText(s, whole, i, j, v);
      Starts(s, i, j, v);
      GapSkip(s, 0, i);
      Accepted(s, i, j, v);
      if whole {
        GapSkip(s, j, |s|);
      }
    }
  }
}
