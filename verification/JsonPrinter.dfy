/**
  The two printers of cJSON. The unbuffered one allocates a buffer for every value, of a length it works
  out beforehand; the buffered one writes into one buffer that it lets grow. Both write the same text.
  An allocation can fail at any time.
 */
module JsonPrinter {
  import opened Basics
  import opened JsonText
  import opened JsonStrings

  /** cJSON_malloc, which refuses whenever it likes. */
  class Allocator {
    ghost var refusals: nat

    method Allocate(n: nat) returns (a: array?<char>)
      modifies this
      ensures a != null ==> fresh(a) && a.Length == n && refusals == old(refusals)
      ensures a == null ==> refusals == old(refusals) + 1
    {
      if * {
        a := null;
        refusals := refusals + 1;
      } else {
        a := new char[n];
      }
    }

    method Refuse() returns (a: array?<char>)
      modifies this
      ensures a == null && refusals == old(refusals) + 1
    {
      a := null;
      refusals := refusals + 1;
    }
  }

  const ADDRESS_SIZE := 4

  function CountItems(xs: Items): nat {
    if xs.NoItem? then 0 else 1 + CountItems(xs.next)
  }

  function CountMembers(ms: Members): nat {
    if ms.NoMember? then 0 else 1 + CountMembers(ms.next)
  }

  // ----- unbuffered -----

  /** cJSON_strdup, and the writes of a fixed text into a buffer of a given length. */
  method Duplicate(mem: Allocator, s: string, len: nat) returns (r: Option<string>)
    requires |s| < len
    modifies mem
    ensures old(mem.refusals) <= mem.refusals && (r.None? <==> old(mem.refusals) < mem.refusals)
    ensures r.Some? ==> r.value == s
  {
    var out := mem.Allocate(len);
    if out == null {
      return None;
    }
    var end := Store(out, 0, s);
    out[end] := NUL;
    r := Some(out[..end]);
  }

  /** print_string_ptr */
  method PrintString(mem: Allocator, s: string) returns (r: Option<string>)
    requires NUL !in s
    modifies mem
    ensures old(mem.refusals) <= mem.refusals && (r.None? <==> old(mem.refusals) < mem.refusals)
    ensures r.Some? ==> r.value == Quoted(s)
  {
    hide Escaped;
    var len, flag := Measure(s);
    var out := mem.Allocate(len + 3);
    if out == null {
      return None;
    }
    var end := WriteString(out, 0, s, flag);
    r := Some(out[..end]);
  }

  /** print_value without a buffer. */
  method PrintValue(mem: Allocator, t: Json, depth: nat, fmt: bool) returns (r: Option<string>)
    requires Plain(t)
    modifies mem
    ensures old(mem.refusals) <= mem.refusals && (r.None? <==> old(mem.refusals) < mem.refusals)
    ensures r.Some? ==> r.value == Print(t, depth, fmt)
    decreases t, 1
  {
    match t {
      case Null => r := Duplicate(mem, "null", 5);
      case False => r := Duplicate(mem, "false", 6);
      case True => r := Duplicate(mem, "true", 5);
      case Num(m, e) =>
        DecimalLength(m);
        r := Duplicate(mem, Decimal(m), if m == 0 then 2 else 21);
      case Str(text) => r := PrintString(mem, text);
      case Arr(items) => r := PrintArray(mem, items, depth, fmt);
      case Obj(members) => r := PrintObject(mem, members, depth, fmt);
    }
  }

  /** The texts of the values of an array. */
  function Texts(xs: Items, depth: nat, fmt: bool): (r: seq<string>) {
    match xs
    case NoItem => []
    case Item(v, next) => [Print(v, depth, fmt)] + Texts(next, depth, fmt)
  }

  /** What the array printer adds up for the texts. */
  function Space(es: seq<string>, fmt: bool): (n: nat) {
    if es == [] then 0 else Space(es[..|es| - 1], fmt) + |es[|es| - 1]| + 2 + (if fmt then 1 else 0)
  }

  lemma SpaceMore(es: seq<string>, e: string, fmt: bool)
    ensures Space(es + [e], fmt) == Space(es, fmt) + |e| + 2 + (if fmt then 1 else 0)
  {
    assert (es + [e])[..|es|] == es;
  }

  lemma {:induction false} SpaceFront(e: string, es: seq<string>, fmt: bool)
    ensures Space([e] + es, fmt) == |e| + 2 + (if fmt then 1 else 0) + Space(es, fmt)
    decreases |es|
  {
    if es == [] {
      SpaceMore([], e, fmt);
      assert [e] + es == [] + [e];
    } else {
      var n := |es| - 1;
      SpaceFront(e, es[..n], fmt);
      SpaceMore([e] + es[..n], es[n], fmt);
      assert [e] + es == [e] + es[..n] + [es[n]];
    }
  }

  /** The space is enough for the values and what stands between them. */
  lemma {:induction false} ItemsFit(xs: Items, depth: nat, fmt: bool)
    ensures |PrintItems(xs, depth, fmt)| <= Space(Texts(xs, depth, fmt), fmt)
    decreases xs
  {
    hide Print, Space;
    if xs.Item? {
      ItemsFit(xs.next, depth, fmt);
      SpaceFront(Print(xs.value, depth, fmt), Texts(xs.next, depth, fmt), fmt);
    }
  }

  /** Collecting the texts of the values, with the space for them. */
  method CollectItems(mem: Allocator, xs: Items, depth: nat, fmt: bool) returns (r: Option<seq<string>>, len: nat)
    requires PlainItems(xs)
    modifies mem
    ensures old(mem.refusals) <= mem.refusals && (r.None? <==> old(mem.refusals) < mem.refusals)
    ensures r.Some? ==> r.value == Texts(xs, depth, fmt) && len == 5 + Space(r.value, fmt)
    decreases xs, 0
  {
    hide Print, Space, Texts;
    var entries: seq<string> := [];
    var child := xs;
    len := 5;
    SpaceNone(fmt);
    assert entries + Texts(xs, depth, fmt) == Texts(xs, depth, fmt);
    while child.Item?
      invariant PlainItems(child) && Texts(xs, depth, fmt) == entries + Texts(child, depth, fmt)
      invariant len == 5 + Space(entries, fmt) && mem.refusals == old(mem.refusals)
      invariant child == xs || child < xs
      decreases child
    {
      var ret := PrintValue(mem, child.value, depth, fmt);
      if ret.None? {
        return None, len;
      }
      SpaceMore(entries, ret.value, fmt);
      TextsAhead(child, depth, fmt);
      assert entries + Texts(child, depth, fmt) == entries + [ret.value] + Texts(child.next, depth, fmt);
      entries, len := entries + [ret.value], len + |ret.value| + 2 + (if fmt then 1 else 0);
      child := child.next;
    }
    TextsAhead(child, depth, fmt);
    r := Some(entries);
  }

  lemma TextsAhead(xs: Items, depth: nat, fmt: bool)
    ensures Texts(xs, depth, fmt) == if xs.NoItem? then [] else [Print(xs.value, depth, fmt)] + Texts(xs.next, depth, fmt)
  {
    hide Print;
  }

  lemma SpaceNone(fmt: bool)
    ensures Space([], fmt) == 0
  {
  }

  /** print_array without a buffer. */
  method PrintArray(mem: Allocator, xs: Items, depth: nat, fmt: bool) returns (r: Option<string>)
    requires PlainItems(xs)
    modifies mem
    ensures old(mem.refusals) <= mem.refusals && (r.None? <==> old(mem.refusals) < mem.refusals)
    ensures r.Some? ==> r.value == Print(Arr(xs), depth, fmt)
    decreases xs, 1
  {
    hide Texts, Space, PrintItems;
    if xs.NoItem? {
      r := Duplicate(mem, "[]", 3);
      return;
    }
    var table := mem.Allocate(ADDRESS_SIZE * CountItems(xs));
    if table == null {
      return None;
    }
    var entries, len := CollectItems(mem, xs, depth + 1, fmt);
    if entries.None? {
      return None;
    }
    var out := mem.Allocate(len);
    if out == null {
      return None;
    }
    ItemsFit(xs, depth + 1, fmt);
    var k := Store(out, 0, "[");
    k := JoinItems(out, k, xs, depth + 1, fmt, entries.value);
    k := Store(out, k, "]");
    out[k] := NUL;
    r := Some(out[..k]);
  }

  /** The texts are copied one after the other, with separators between them. */
  method JoinItems(out: array<char>, k0: nat, ghost xs: Items, ghost depth: nat, fmt: bool, entries: seq<string>) returns (k: nat)
    requires entries == Texts(xs, depth, fmt) && k0 + |PrintItems(xs, depth, fmt)| <= out.Length
    modifies out
    ensures k == k0 + |PrintItems(xs, depth, fmt)| && out[..k] == old(out[..k0]) + PrintItems(xs, depth, fmt)
  {
    hide Print, Texts, PrintItems;
    ghost var before, child := out[..k0], xs;
    var i := 0;
    k := k0;
    while i < |entries|
      invariant 0 <= i <= |entries| && entries[i..] == Texts(child, depth, fmt)
      invariant k + |PrintItems(child, depth, fmt)| == k0 + |PrintItems(xs, depth, fmt)|
      invariant out[..k] + PrintItems(child, depth, fmt) == before + PrintItems(xs, depth, fmt)
    {
      TextsStep(child, depth, fmt);
      ghost var written, rest := out[..k], PrintItems(child, depth, fmt);
      k := Store(out, k, entries[i]);
      if i != |entries| - 1 {
        k := Store(out, k, ",");
        k := Store(out, k, Fmt(fmt, " "));
      }
      child, i := child.next, i + 1;
      assert out[..k] + PrintItems(child, depth, fmt) == written + rest;
    }
    TextsStep(child, depth, fmt);
  }

  lemma TextsStep(xs: Items, depth: nat, fmt: bool)
    ensures |Texts(xs, depth, fmt)| == 0 <==> xs.NoItem?
    ensures xs.NoItem? ==> PrintItems(xs, depth, fmt) == []
    ensures xs.Item? ==>
              && Texts(xs, depth, fmt)[0] == Print(xs.value, depth, fmt)
              && Texts(xs, depth, fmt)[1..] == Texts(xs.next, depth, fmt)
              && (|Texts(xs, depth, fmt)| == 1 <==> xs.next.NoItem?)
              && PrintItems(xs, depth, fmt) ==
                 Print(xs.value, depth, fmt) + (if xs.next.NoItem? then [] else "," + Fmt(fmt, " ") + PrintItems(xs.next, depth, fmt))
    ensures xs.Item? && xs.next.NoItem? ==> PrintItems(xs.next, depth, fmt) == []
  {
    hide Print;
    if xs.Item? {
      assert Texts(xs.next, depth, fmt) == [] <==> xs.next.NoItem?;
    }
  }

  /** The texts of the names and values of an object. */
  function NamedTexts(ms: Members, depth: nat, fmt: bool): (r: seq<(string, string)>) {
    match ms
    case NoMember => []
    case Member(name, v, next) => [(Quoted(name), Print(v, depth, fmt))] + NamedTexts(next, depth, fmt)
  }

  /** What the object printer adds up for them. */
  function NamedSpace(es: seq<(string, string)>, depth: nat, fmt: bool): (n: nat) {
    if es == [] then 0
    else
      var e := es[|es| - 1];
      NamedSpace(es[..|es| - 1], depth, fmt) + |e.1| + |e.0| + 2 + (if fmt then 2 + depth else 0)
  }

  lemma NamedSpaceMore(es: seq<(string, string)>, e: (string, string), depth: nat, fmt: bool)
    ensures NamedSpace(es + [e], depth, fmt) == NamedSpace(es, depth, fmt) + |e.1| + |e.0| + 2 + (if fmt then 2 + depth else 0)
  {
    assert (es + [e])[..|es|] == es;
  }

  lemma {:induction false} NamedSpaceFront(e: (string, string), es: seq<(string, string)>, depth: nat, fmt: bool)
    ensures NamedSpace([e] + es, depth, fmt) == |e.1| + |e.0| + 2 + (if fmt then 2 + depth else 0) + NamedSpace(es, depth, fmt)
    decreases |es|
  {
    if es == [] {
      NamedSpaceMore([], e, depth, fmt);
      assert [e] + es == [] + [e];
    } else {
      var n := |es| - 1;
      NamedSpaceFront(e, es[..n], depth, fmt);
      NamedSpaceMore([e] + es[..n], es[n], depth, fmt);
      assert [e] + es == [e] + es[..n] + [es[n]];
    }
  }

  /** The space is enough for the members, their indentation and what stands between them. */
  lemma {:induction false} MembersFit(ms: Members, depth: nat, fmt: bool)
    ensures |PrintMembers(ms, depth, fmt)| <= NamedSpace(NamedTexts(ms, depth, fmt), depth, fmt)
    decreases ms
  {
    hide Print, NamedSpace, Quoted;
    if ms.Member? {
      MembersFit(ms.next, depth, fmt);
      NamedSpaceFront((Quoted(ms.name), Print(ms.value, depth, fmt)), NamedTexts(ms.next, depth, fmt), depth, fmt);
    }
  }

  lemma NamedSpaceNone(depth: nat, fmt: bool)
    ensures NamedSpace([], depth, fmt) == 0
  {
  }

  /** Collecting the texts of the names and values; a failure does not stop the loop. */
  method CollectMembers(mem: Allocator, ms: Members, depth: nat, fmt: bool) returns (r: Option<seq<(string, string)>>, len: nat)
    requires PlainMembers(ms)
    modifies mem
    ensures old(mem.refusals) <= mem.refusals && (r.None? <==> old(mem.refusals) < mem.refusals)
    ensures r.Some? ==> r.value == NamedTexts(ms, depth, fmt)
    ensures r.Some? ==> len == 7 + (if fmt then depth else 0) + NamedSpace(r.value, depth, fmt)
    decreases ms, 0
  {
    hide Print, NamedSpace, Quoted, NamedTexts;
    var entries: seq<(string, string)> := [];
    var child, fail := ms, false;
    len := if fmt then 7 + depth else 7;
    NamedSpaceNone(depth, fmt);
    assert entries + NamedTexts(ms, depth, fmt) == NamedTexts(ms, depth, fmt);
    while child.Member?
      invariant PlainMembers(child) && old(mem.refusals) <= mem.refusals && (fail <==> old(mem.refusals) < mem.refusals)
      invariant !fail ==> NamedTexts(ms, depth, fmt) == entries + NamedTexts(child, depth, fmt)
      invariant !fail ==> len == 7 + (if fmt then depth else 0) + NamedSpace(entries, depth, fmt)
      invariant child == ms || child < ms
      decreases child
    {
      var str := PrintString(mem, child.name);
      var ret := PrintValue(mem, child.value, depth, fmt);
      if str.Some? && ret.Some? {
        var e := (str.value, ret.value);
        NamedSpaceMore(entries, e, depth, fmt);
        NamedAhead(child, depth, fmt);
        if !fail {
          assert entries + NamedTexts(child, depth, fmt) == entries + [e] + NamedTexts(child.next, depth, fmt);
        }
        entries := entries + [e];
        len := len + |ret.value| + |str.value| + 2 + (if fmt then 2 + depth else 0);
      } else {
        fail := true;
      }
      child := child.next;
    }
    NamedAhead(child, depth, fmt);
    r := if fail then None else Some(entries);
  }

  lemma NamedAhead(ms: Members, depth: nat, fmt: bool)
    ensures NamedTexts(ms, depth, fmt) ==
            if ms.NoMember? then [] else [(Quoted(ms.name), Print(ms.value, depth, fmt))] + NamedTexts(ms.next, depth, fmt)
  {
    hide Print, Quoted;
  }

  /** print_object without a buffer. */
  method PrintObject(mem: Allocator, ms: Members, depth: nat, fmt: bool) returns (r: Option<string>)
    requires PlainMembers(ms)
    modifies mem
    ensures old(mem.refusals) <= mem.refusals && (r.None? <==> old(mem.refusals) < mem.refusals)
    ensures r.Some? ==> r.value == Print(Obj(ms), depth, fmt)
    decreases ms, 1
  {
    hide NamedTexts, NamedSpace, PrintMembers, Tabs;
    ObjectLength(ms, depth, fmt);
    if ms.NoMember? {
      r := Duplicate(mem, "{" + Fmt(fmt, "\n" + Tabs(depth - 1)) + "}", if fmt then depth + 4 else 3);
      return;
    }
    var entryTable := mem.Allocate(ADDRESS_SIZE * CountMembers(ms));
    if entryTable == null {
      return None;
    }
    var nameTable := mem.Allocate(ADDRESS_SIZE * CountMembers(ms));
    if nameTable == null {
      return None;
    }
    var entries, len := CollectMembers(mem, ms, depth + 1, fmt);
    if entries.None? {
      return None;
    }
    var out := mem.Allocate(len);
    if out == null {
      return None;
    }
    MembersFit(ms, depth + 1, fmt);
    var k := ComposeObject(out, ms, depth, fmt, entries.value);
    out[k] := NUL;
    r := Some(out[..k]);
  }

  lemma ObjectLength(ms: Members, depth: nat, fmt: bool)
    ensures ms.NoMember? ==> |Print(Obj(ms), depth, fmt)| < if fmt then depth + 4 else 3
    ensures ms.Member? ==> |Print(Obj(ms), depth, fmt)| <= 3 + |PrintMembers(ms, depth + 1, fmt)| + if fmt then depth else 0
  {
    hide PrintMembers;
  }

  method ComposeObject(out: array<char>, ghost ms: Members, depth: nat, fmt: bool, entries: seq<(string, string)>) returns (k: nat)
    requires ms.Member? && entries == NamedTexts(ms, depth + 1, fmt)
    requires 3 + |PrintMembers(ms, depth + 1, fmt)| + (if fmt then depth else 0) <= out.Length
    modifies out
    ensures k == |Print(Obj(ms), depth, fmt)| <= out.Length && out[..k] == Print(Obj(ms), depth, fmt)
  {
    hide NamedTexts, PrintMembers, Tabs;
    FmtTabs(depth, fmt);
    k := Store(out, 0, "{");
    k := Store(out, k, Fmt(fmt, "\n"));
    k := JoinMembers(out, k, ms, depth + 1, fmt, entries);
    k := Indent(out, k, if fmt then depth else 0);
    k := Store(out, k, "}");
    assert out[..k] == "{" + Fmt(fmt, "\n") + PrintMembers(ms, depth + 1, fmt) + Fmt(fmt, Tabs(depth)) + "}";
  }

  /** The text of one member: indentation, name, colon, value, comma, line end. */
  function MemberText(name: string, value: string, more: bool, depth: nat, fmt: bool): (r: string) {
    Fmt(fmt, Tabs(depth)) + name + ":" + Fmt(fmt, "\t") + value + (if more then "," else []) + Fmt(fmt, "\n")
  }

  lemma NamedStep(ms: Members, depth: nat, fmt: bool)
    ensures |NamedTexts(ms, depth, fmt)| == 0 <==> ms.NoMember?
    ensures ms.NoMember? ==> PrintMembers(ms, depth, fmt) == []
    ensures ms.Member? ==>
              && NamedTexts(ms, depth, fmt)[0] == (Quoted(ms.name), Print(ms.value, depth, fmt))
              && NamedTexts(ms, depth, fmt)[1..] == NamedTexts(ms.next, depth, fmt)
              && (|NamedTexts(ms, depth, fmt)| == 1 <==> ms.next.NoMember?)
              && PrintMembers(ms, depth, fmt) ==
                 MemberText(Quoted(ms.name), Print(ms.value, depth, fmt), ms.next.Member?, depth, fmt) + PrintMembers(ms.next, depth, fmt)
  {
    hide Print, Quoted, Fmt, Tabs;
    if ms.Member? {
      assert NamedTexts(ms.next, depth, fmt) == [] <==> ms.next.NoMember?;
    }
  }

  /** One member is copied. */
  method JoinMember(out: array<char>, k0: nat, name: string, value: string, depth: nat, fmt: bool, last: bool) returns (k: nat)
    requires k0 + |MemberText(name, value, !last, depth, fmt)| <= out.Length
    modifies out
    ensures k == k0 + |MemberText(name, value, !last, depth, fmt)|
    ensures out[..k] == old(out[..k0]) + MemberText(name, value, !last, depth, fmt)
  {
    hide Tabs, Fmt;
    FmtTabs(depth, fmt);
    k := Indent(out, k0, if fmt then depth else 0);
    k := Store(out, k, name);
    k := Store(out, k, ":");
    k := Store(out, k, Fmt(fmt, "\t"));
    k := Store(out, k, value);
    if !last {
      k := Store(out, k, ",");
    }
    k := Store(out, k, Fmt(fmt, "\n"));
    SameText(old(out[..k0]), Fmt(fmt, Tabs(depth)), name, Fmt(fmt, "\t"), value, if last then [] else ",", Fmt(fmt, "\n"));
  }

  lemma FmtTabs(depth: nat, fmt: bool)
    ensures Tabs(if fmt then depth else 0) == Fmt(fmt, Tabs(depth))
  {
  }

  lemma SameText(before: string, tabs: string, name: string, tab: string, value: string, comma: string, nl: string)
    ensures before + tabs + name + ":" + tab + value + comma + nl == before + (tabs + name + ":" + tab + value + comma + nl)
    ensures before + tabs + name + ":" + tab + value + [] == before + tabs + name + ":" + tab + value
  {
  }

  method JoinMembers(out: array<char>, k0: nat, ghost ms: Members, depth: nat, fmt: bool, entries: seq<(string, string)>) returns (k: nat)
    requires entries == NamedTexts(ms, depth, fmt) && k0 + |PrintMembers(ms, depth, fmt)| <= out.Length
    modifies out
    ensures k == k0 + |PrintMembers(ms, depth, fmt)| && out[..k] == old(out[..k0]) + PrintMembers(ms, depth, fmt)
  {
    hide Print, NamedTexts, PrintMembers, Quoted, Tabs, Fmt, MemberText;
    ghost var before, child := out[..k0], ms;
    var i := 0;
    k := k0;
    while i < |entries|
      invariant 0 <= i <= |entries| && entries[i..] == NamedTexts(child, depth, fmt)
      invariant k + |PrintMembers(child, depth, fmt)| == k0 + |PrintMembers(ms, depth, fmt)|
      invariant out[..k] + PrintMembers(child, depth, fmt) == before + PrintMembers(ms, depth, fmt)
    {
      NamedStep(child, depth, fmt);
      ghost var written, rest := out[..k], PrintMembers(child, depth, fmt);
      k := JoinMember(out, k, entries[i].0, entries[i].1, depth, fmt, i == |entries| - 1);
      child, i := child.next, i + 1;
      assert out[..k] + PrintMembers(child, depth, fmt) == written + rest;
    }
    NamedStep(child, depth, fmt);
  }
}
