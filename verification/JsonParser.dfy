/**
  The parser of cJSON, loop by loop, against the grammar. Every allocation is taken to succeed.
 */
module JsonParser {
  import opened JsonText
  import opened JsonGrammar

  method SkipSpace(s: string, i: nat) returns (r: nat)
    requires i <= |s|
    ensures r == Skip(s, i)
  {
    r := i;
    while At(s, r) != NUL && At(s, r) <= ' '
      invariant i <= r <= |s| && Skip(s, r) == Skip(s, i)
      decreases |s| - r
    {
      r := r + 1;
    }
  }

  // ----- strings -----

  /** The first pass over a string counts its characters. */
  method CountString(s: string, i: nat) returns (r: Parsed<nat>)
    requires i <= |s|
    ensures r.Ok? == Count(s, i).Ok? && !r.Fail?
    ensures r.Ok? ==> r.value == Count(s, i).value
  {
    var ptr: nat, len: nat := i, 0;
    while At(s, ptr) != QUOTE && At(s, ptr) != NUL
      invariant i <= ptr <= |s| && Count(s, i).Ok? == Count(s, ptr).Ok?
      invariant Count(s, i).Ok? ==> Count(s, i).value == len + Count(s, ptr).value
      decreases |s| - ptr
    {
      len := len + 1;
      var escape := At(s, ptr) == BACKSLASH;
      ptr := ptr + 1;
      if escape {
        ptr := ptr + 1;
      }
      if ptr > |s| {
        return Overrun;
      }
    }
    r := Ok(len, ptr);
  }

  /** Bytes in front of the contents of a string. */
  function Behind(bytes: string, r: Parsed<string>): (q: Parsed<string>) {
    if r.Ok? then Ok(bytes + r.value, r.next) else r
  }

  lemma BehindTwice(a: string, b: string, r: Parsed<string>)
    ensures Behind(a, Behind(b, r)) == Behind(a + b, r)
  {
    if r.Ok? {
      assert a + (b + r.value) == a + b + r.value;
    }
  }

  lemma BehindNothing(a: string, r: Parsed<string>)
    requires a == []
    ensures Behind(a, r) == r
  {
    if r.Ok? {
      assert a + r.value == r.value;
    }
  }

  /** One character or escape of a string. */
  function Step(s: string, i: nat): (r: (string, nat))
    requires i < |s|
    ensures r.1 > i
  {
    if s[i] == BACKSLASH then Unescape(s, i) else ([s[i]], i + 1)
  }

  lemma BodyStep(s: string, i: nat, before: string)
    requires i <= |s|
    ensures if At(s, i) == QUOTE || At(s, i) == NUL then Behind(before, Body(s, i)) == Ok(before, i)
            else if Step(s, i).1 > |s| then Body(s, i) == Overrun
            else Behind(before, Body(s, i)) == Behind(before + Step(s, i).0, Body(s, Step(s, i).1))
  {
    hide Unescape;
    if At(s, i) == QUOTE || At(s, i) == NUL {
      assert before + [] == before;
    } else if Step(s, i).1 <= |s| {
      BehindTwice(before, Step(s, i).0, Body(s, Step(s, i).1));
    }
  }

  /** parse_string */
  method ParseString(s: string, i: nat) returns (r: Parsed<string>)
    requires i <= |s|
    ensures r == StringAt(s, i)
  {
    hide Body, Count, Step;
    if At(s, i) != QUOTE {
      return Fail(i);
    }
    var count := CountString(s, i + 1);
    if count.Overrun? {
      return Overrun;
    }
    var out := new char[count.value + 1];
    var ptr: nat, k: nat := i + 1, 0;
    BehindNothing(out[..0], Body(s, i + 1));
    while At(s, ptr) != QUOTE && At(s, ptr) != NUL
      invariant i < ptr <= |s| && k < out.Length
      invariant Body(s, i + 1) == Behind(out[..k], Body(s, ptr))
      decreases |s| - ptr
    {
      BodyStep(s, ptr, out[..k]);
      var (bytes, next) := Step(s, ptr);
      if next > |s| || k + |bytes| >= out.Length {
        return Overrun;
      }
      k := Store(out, k, bytes);
      ptr := next;
    }
    BodyStep(s, ptr, out[..k]);
    out[k] := NUL;
    r := Ok(out[..k], if At(s, ptr) == QUOTE then ptr + 1 else ptr);
  }

  // ----- numbers -----

  method ReadDigits(s: string, i: nat, acc: nat) returns (n: nat, next: nat)
    requires i <= |s|
    ensures next == DigitsEnd(s, i) && n == Reading(s, i, next, acc)
  {
    n, next := acc, i;
    while IsDigit(At(s, next))
      invariant i <= next <= |s| && DigitsEnd(s, next) == DigitsEnd(s, i)
      invariant Reading(s, next, DigitsEnd(s, i), n) == Reading(s, i, DigitsEnd(s, i), acc)
      decreases |s| - next
    {
      n, next := n * 10 + DigitValue(s[next]), next + 1;
    }
  }

  method ReadWhole(s: string, i: nat) returns (n: nat, num: nat)
    requires i <= |s|
    ensures (n, num) == WholePart(s, i)
  {
    hide Reading, DigitsEnd;
    n, num := 0, i;
    if At(s, num) == '0' {
      num := num + 1;
    }
    if '1' <= At(s, num) <= '9' {
      n, num := ReadDigits(s, num, n);
    }
  }

  method ReadExponent(s: string, i: nat) returns (power: int, num: nat)
    requires i <= |s|
    ensures (power, num) == Exponent(s, i)
  {
    hide Reading, DigitsEnd;
    power, num := 0, i;
    if At(s, num) == 'e' || At(s, num) == 'E' {
      var negative := false;
      num := num + 1;
      if At(s, num) == '+' {
        num := num + 1;
      } else if At(s, num) == '-' {
        negative, num := true, num + 1;
      }
      power, num := ReadDigits(s, num, 0);
      if negative {
        power := -power;
      }
    }
  }

  /** parse_number */
  method ParseNumber(s: string, i: nat) returns (r: Parsed<Json>)
    requires i < |s| && (s[i] == '-' || IsDigit(s[i]))
    ensures r == NumberAt(s, i)
  {
    hide Reading, DigitsEnd, WholePart, Exponent;
    var n: nat, num: nat, scale := 0, i, 0;
    var negative := At(s, num) == '-';
    if negative {
      num := num + 1;
    }
    n, num := ReadWhole(s, num);
    if At(s, num) == '.' && IsDigit(At(s, num + 1)) {
      var point := num;
      DigitsThere(s, num + 1);
      n, num := ReadDigits(s, num + 1, n);
      scale := num - point - 1;
    }
    var power: int;
    power, num := ReadExponent(s, num);
    r := Ok(Num(if negative then 0 - n else n, power - scale), num);
  }

  lemma DigitsThere(s: string, i: nat)
    requires i <= |s| && IsDigit(At(s, i))
    ensures DigitsEnd(s, i) > i
  {
  }

  // ----- values -----

  /** Values in front of the rest of an array. */
  function InFront(xs: seq<Json>, r: Parsed<Items>): (q: Parsed<Items>)
    decreases |xs|
  {
    if xs == [] then r
    else InFront(xs[..|xs| - 1], if r.Ok? then Ok(Item(xs[|xs| - 1], r.value), r.next) else r)
  }

  lemma InFrontMore(xs: seq<Json>, v: Json, r: Parsed<Items>)
    ensures InFront(xs + [v], r) == InFront(xs, if r.Ok? then Ok(Item(v, r.value), r.next) else r)
  {
    assert (xs + [v])[..|xs|] == xs;
  }

  lemma {:induction false} InFrontFails(xs: seq<Json>, r: Parsed<Items>)
    requires !r.Ok?
    ensures InFront(xs, r) == r
    decreases |xs|
  {
    if xs != [] {
      InFrontFails(xs[..|xs| - 1], r);
    }
  }

  /** The chain of children that a parsed array has. */
  function Chain(xs: seq<Json>): (r: Items)
    decreases |xs|
  {
    if xs == [] then NoItem else Item(xs[0], Chain(xs[1..]))
  }

  lemma {:induction false} InFrontChain(xs: seq<Json>, ys: seq<Json>, n: nat)
    ensures InFront(xs, Ok(Chain(ys), n)) == Ok(Chain(xs + ys), n)
    decreases |xs|
  {
    if xs == [] {
      assert xs + ys == ys;
    } else {
      var m := |xs| - 1;
      var zs := [xs[m]] + ys;
      assert zs[1..] == ys && xs[..m] + zs == xs + ys;
      InFrontChain(xs[..m], zs, n);
    }
  }

  /** parse_value */
  method ParseValue(s: string, i: nat) returns (r: Parsed<Json>)
    requires i <= |s|
    ensures r == ValueAt(s, i)
    decreases |s| - i, 1
  {
    hide Holds, Skip, StringAt, NumberAt, ItemsAt, MembersAt;
    if Holds(s, i, "null") {
      return Ok(Null, i + 4);
    }
    if Holds(s, i, "false") {
      return Ok(False, i + 5);
    }
    if Holds(s, i, "true") {
      return Ok(True, i + 4);
    }
    if At(s, i) == QUOTE {
      var t := ParseString(s, i);
      r := match t case Ok(v, n) => Ok(Str(v), n) case Fail(at) => Fail(at) case Overrun => Overrun;
    } else if At(s, i) == '-' || '0' <= At(s, i) <= '9' {
      r := ParseNumber(s, i);
    } else if At(s, i) == '[' {
      var xs := ParseArray(s, i);
      r := match xs case Ok(v, n) => Ok(Arr(v), n) case Fail(at) => Fail(at) case Overrun => Overrun;
    } else if At(s, i) == '{' {
      var ms := ParseObject(s, i);
      r := match ms case Ok(v, n) => Ok(Obj(v), n) case Fail(at) => Fail(at) case Overrun => Overrun;
    } else {
      r := Fail(i);
    }
  }

  /** One value of an array: the rest of the array is the value and what follows it. */
  lemma ItemStep(s: string, i: nat, xs: seq<Json>)
    requires i <= |s|
    ensures var v := ValueAt(s, Skip(s, i));
            if !v.Ok? then
              InFront(xs, ItemsAt(s, i)) == if v.Fail? then Fail(v.at) else Overrun
            else
              var k := Skip(s, v.next);
              if At(s, k) == ',' then InFront(xs, ItemsAt(s, i)) == InFront(xs + [v.value], ItemsAt(s, k + 1))
              else InFront(xs, ItemsAt(s, i)) == if At(s, k) == ']' then Ok(Chain(xs + [v.value]), k + 1) else Fail(k)
  {
    hide ValueAt, Skip;
    var v := ValueAt(s, Skip(s, i));
    if !v.Ok? {
      InFrontFails(xs, ItemsAt(s, i));
    } else {
      var k := Skip(s, v.next);
      if At(s, k) == ',' {
        InFrontMore(xs, v.value, ItemsAt(s, k + 1));
      } else if At(s, k) == ']' {
        assert Chain([v.value]) == Item(v.value, NoItem);
        InFrontChain(xs, [v.value], k + 1);
      } else {
        InFrontFails(xs, ItemsAt(s, i));
      }
    }
  }

  /** parse_array */
  method ParseArray(s: string, i: nat) returns (r: Parsed<Items>)
    requires i < |s| && s[i] == '['
    ensures var j := Skip(s, i + 1); r == if At(s, j) == ']' then Ok(NoItem, j + 1) else ItemsAt(s, j)
    decreases |s| - i, 0
  {
    hide Skip, ItemsAt, ValueAt, Chain, InFront;
    var value := SkipSpace(s, i + 1);
    if At(s, value) == ']' {
      return Ok(NoItem, value + 1);
    }
    ghost var start := value;
    var xs: seq<Json> := [];
    FrontEmpty(ItemsAt(s, start));
    ItemStep(s, value, xs);
    value := SkipSpace(s, value);
    var child := ParseValue(s, value);
    if !child.Ok? {
      return match child case Fail(at) => Fail(at) case _ => Overrun;
    }
    xs := xs + [child.value];
    value := SkipSpace(s, child.next);
    while At(s, value) == ','
      invariant i < value <= |s| && |xs| > 0
      invariant ItemsAt(s, start) ==
                if At(s, value) == ',' then InFront(xs, ItemsAt(s, value + 1))
                else if At(s, value) == ']' then Ok(Chain(xs), value + 1) else Fail(value)
      decreases |s| - value
    {
      ItemStep(s, value + 1, xs);
      value := SkipSpace(s, value + 1);
      child := ParseValue(s, value);
      if !child.Ok? {
        return match child case Fail(at) => Fail(at) case _ => Overrun;
      }
      xs := xs + [child.value];
      value := SkipSpace(s, child.next);
    }
    r := if At(s, value) == ']' then Ok(Chain(xs), value + 1) else Fail(value);
  }

  lemma FrontEmpty(r: Parsed<Items>)
    ensures InFront([], r) == r
  {
  }

  /** Members in front of the rest of an object. */
  function Before(ms: seq<(string, Json)>, r: Parsed<Members>): (q: Parsed<Members>)
    decreases |ms|
  {
    if ms == [] then r
    else
      var m := ms[|ms| - 1];
      Before(ms[..|ms| - 1], if r.Ok? then Ok(Member(m.0, m.1, r.value), r.next) else r)
  }

  lemma {:induction false} BeforeFails(ms: seq<(string, Json)>, r: Parsed<Members>)
    requires !r.Ok?
    ensures Before(ms, r) == r
    decreases |ms|
  {
    if ms != [] {
      BeforeFails(ms[..|ms| - 1], r);
    }
  }

  /** The chain of children that a parsed object has. */
  function NamedChain(ms: seq<(string, Json)>): (r: Members)
    decreases |ms|
  {
    if ms == [] then NoMember else Member(ms[0].0, ms[0].1, NamedChain(ms[1..]))
  }

  lemma {:induction false} BeforeChain(ms: seq<(string, Json)>, ns: seq<(string, Json)>, n: nat)
    ensures Before(ms, Ok(NamedChain(ns), n)) == Ok(NamedChain(ms + ns), n)
    decreases |ms|
  {
    if ms == [] {
      assert ms + ns == ns;
    } else {
      var k := |ms| - 1;
      var ls := [ms[k]] + ns;
      assert ls[1..] == ns && ms[..k] + ls == ms + ns;
      BeforeChain(ms[..k], ls, n);
    }
  }

  /** One member of an object: the rest of the object is the member and what follows it. */
  lemma MemberStep(s: string, i: nat, ms: seq<(string, Json)>)
    requires i <= |s|
    ensures var m := MemberAt(s, i);
            if !m.Ok? then
              Before(ms, MembersAt(s, i)) == if m.Fail? then Fail(m.at) else Overrun
            else
              var k := Skip(s, m.next);
              if At(s, k) == ',' then Before(ms, MembersAt(s, i)) == Before(ms + [m.value], MembersAt(s, k + 1))
              else Before(ms, MembersAt(s, i)) == if At(s, k) == '}' then Ok(NamedChain(ms + [m.value]), k + 1) else Fail(k)
  {
    hide MemberAt, Skip;
    var m := MemberAt(s, i);
    if !m.Ok? {
      BeforeFails(ms, MembersAt(s, i));
    } else {
      var k := Skip(s, m.next);
      if At(s, k) == ',' {
        assert (ms + [m.value])[..|ms|] == ms;
      } else if At(s, k) == '}' {
        assert NamedChain([m.value]) == Member(m.value.0, m.value.1, NoMember);
        BeforeChain(ms, [m.value], k + 1);
      } else {
        BeforeFails(ms, MembersAt(s, i));
      }
    }
  }

  method ParseMember(s: string, i: nat) returns (r: Parsed<(string, Json)>)
    requires i <= |s|
    ensures r == MemberAt(s, i)
    decreases |s| - i, 2
  {
    hide Skip, StringAt, ValueAt;
    var value := SkipSpace(s, i);
    var name := ParseString(s, value);
    if !name.Ok? {
      return match name case Fail(at) => Fail(at) case _ => Overrun;
    }
    value := SkipSpace(s, name.next);
    if At(s, value) != ':' {
      return Fail(value);
    }
    value := SkipSpace(s, value + 1);
    var child := ParseValue(s, value);
    r := match child case Ok(v, n) => Ok((name.value, v), n) case Fail(at) => Fail(at) case Overrun => Overrun;
  }

  /** parse_object */
  method ParseObject(s: string, i: nat) returns (r: Parsed<Members>)
    requires i < |s| && s[i] == '{'
    ensures var j := Skip(s, i + 1); r == if At(s, j) == '}' then Ok(NoMember, j + 1) else MembersAt(s, j)
    decreases |s| - i, 0
  {
    hide Skip, MemberAt, MembersAt, NamedChain, Before;
    var value := SkipSpace(s, i + 1);
    if At(s, value) == '}' {
      return Ok(NoMember, value + 1);
    }
    ghost var start := value;
    var ms: seq<(string, Json)> := [];
    BeforeEmpty(MembersAt(s, start));
    MemberStep(s, value, ms);
    var child := ParseMember(s, value);
    if !child.Ok? {
      return match child case Fail(at) => Fail(at) case _ => Overrun;
    }
    ms := ms + [child.value];
    value := SkipSpace(s, child.next);
    while At(s, value) == ','
      invariant i < value <= |s|
      invariant MembersAt(s, start) ==
                if At(s, value) == ',' then Before(ms, MembersAt(s, value + 1))
                else if At(s, value) == '}' then Ok(NamedChain(ms), value + 1) else Fail(value)
      decreases |s| - value
    {
      MemberStep(s, value + 1, ms);
      child := ParseMember(s, value + 1);
      if !child.Ok? {
        return match child case Fail(at) => Fail(at) case _ => Overrun;
      }
      ms := ms + [child.value];
      value := SkipSpace(s, child.next);
    }
    r := if At(s, value) == '}' then Ok(NamedChain(ms), value + 1) else Fail(value);
  }

  lemma BeforeEmpty(r: Parsed<Members>)
    ensures Before([], r) == r
  {
  }

  /** cJSON_ParseWithOpts */
  method Parse(s: string, whole: bool) returns (r: Parsed<Json>)
    ensures r == Document(s, whole)
  {
    var start := SkipSpace(s, 0);
    r := ParseValue(s, start);
    if whole && r.Ok? {
      var end := SkipSpace(s, r.next);
      r := if At(s, end) != NUL then Fail(end) else Ok(r.value, end);
    }
  }
}
