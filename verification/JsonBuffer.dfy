/**
  The buffered printer of cJSON: one buffer that grows, a write offset, and strlen to find the end of what
  a nested print wrote.
 */
module JsonBuffer {
  import opened Basics
  import opened JsonText
  import opened JsonStrings
  import opened JsonGrowth
  import opened JsonPrinter

  /** Sizes from here on overflow an int when rounded up to a power of two. */
  const MAX_SIZE := 0x4000_0000

  class PrintBuffer {
    const mem: Allocator
    var buffer: array?<char>
    var length: nat
    var offset: nat

    ghost predicate Valid()
      reads this
    {
      buffer != null ==> buffer.Length == length && offset <= length
    }

    /** What was written before the offset. */
    ghost function Written(): (s: string)
      reads this, buffer
      requires Valid() && buffer != null
    {
      buffer[..offset]
    }

    /** The text was written behind what stood before the offset at first; the offset is somewhere in it. */
    ghost predicate Wrote(before: string, text: string)
      reads this, buffer
    {
      && Valid() && buffer != null
      && |before| <= offset <= |before| + |text| < length
      && buffer[..|before| + |text|] == before + text && buffer[|before| + |text|] == NUL
    }

    constructor (mem: Allocator, prebuffer: nat)
      modifies mem
      ensures this.mem == mem && Valid() && offset == 0 && length == prebuffer
      ensures buffer != null ==> fresh(buffer) && mem.refusals == old(mem.refusals)
      ensures buffer == null ==> mem.refusals == old(mem.refusals) + 1
    {
      this.mem := mem;
      length, offset := prebuffer, 0;
      new;
      buffer := mem.Allocate(prebuffer);
    }

    /** ensure: room for more bytes behind the offset, in a buffer of the next power of two if need be. */
    method Ensure(more: nat) returns (ok: bool)
      requires Valid() && more > 0
      modifies `buffer, `length, mem
      ensures Valid() && (ok <==> buffer != null) && old(mem.refusals) <= mem.refusals
      ensures ok ==> old(buffer) != null && mem.refusals == old(mem.refusals) && offset + more <= length
      ensures ok ==> buffer[..offset] == old(buffer[..offset])
      ensures !ok && old(buffer) != null ==> old(mem.refusals) < mem.refusals
      ensures ok ==> buffer == old(buffer) || fresh(buffer)
      ensures ok && offset + more > old(length) ==> length == Pow2Gt(offset + more)
    {
      hide Pow2Gt;
      if buffer == null {
        return false;
      }
      var needed := more + offset;
      if needed <= length {
        return true;
      }
      var newbuffer: array?<char>;
      if needed > MAX_SIZE {
        newbuffer := mem.Refuse();
      } else {
        PowerEnough(needed);
        newbuffer := mem.Allocate(Pow2Gt(needed));
      }
      if newbuffer == null {
        length, buffer := 0, null;
        return false;
      }
      var end := Store(newbuffer, 0, buffer[..length]);
      length, buffer := Pow2Gt(needed), newbuffer;
      ok := true;
    }

    /** update: the offset moves to the terminator of what was written. */
    method Update(ghost before: string, ghost text: string)
      requires buffer != null ==> Wrote(before, text) && NUL !in text
      modifies `offset
      ensures buffer == null ==> offset == 0
      ensures buffer != null ==> offset == |before| + |text| && Valid() && Written() == before + text
    {
      if buffer == null {
        offset := 0;
        return;
      }
      ghost var end := |before| + |text|;
      var k := offset;
      while buffer[k] != NUL
        invariant offset <= k <= end
        decreases end - k
      {
        k := k + 1;
      }
      offset := k;
    }

    /** A text is written behind the offset, which stays, with a terminator if there is room for it. */
    method Put(s: string, more: nat) returns (ok: bool)
      requires Valid() && more > 0 && |s| <= more
      modifies `buffer, `length, mem, buffer
      ensures Valid() && (ok <==> buffer != null) && old(mem.refusals) <= mem.refusals
      ensures ok ==> old(buffer) != null && mem.refusals == old(mem.refusals) && offset + more <= length
      ensures ok ==> buffer[..offset + |s|] == old(buffer[..offset]) + s
      ensures ok && |s| < more ==> buffer[offset + |s|] == NUL
      ensures !ok && old(buffer) != null ==> old(mem.refusals) < mem.refusals
      ensures ok ==> buffer == old(buffer) || fresh(buffer)
    {
      ok := Ensure(more);
      if !ok {
        return;
      }
      var end := Store(buffer, offset, s);
      if |s| < more {
        buffer[end] := NUL;
      }
    }

    /** The buffer is the one from before or a new one, and is gone exactly when an allocation was refused. */
    twostate predicate Lives()
      reads this, mem
    {
      && Valid() && old(mem.refusals) <= mem.refusals
      && (buffer != null ==> old(buffer) != null && mem.refusals == old(mem.refusals) && (buffer == old(buffer) || fresh(buffer)))
      && (buffer == null && old(buffer) != null ==> old(mem.refusals) < mem.refusals)
    }

    /** A text of known length, with its terminator. */
    method PutText(s: string, more: nat) returns (out: int)
      requires Valid() && |s| < more
      modifies this, mem, buffer
      ensures Lives() && (buffer != null ==> Wrote(old(buffer[..offset]), s) && out == old(offset))
      ensures buffer == null ==> out == -1
    {
      var ok := Put(s, more);
      out := if ok then offset else -1;
    }

    /** print_string_ptr */
    method PutString(s: string) returns (out: int)
      requires Valid() && NUL !in s
      modifies this, mem, buffer
      ensures Lives() && (buffer != null ==> Wrote(old(buffer[..offset]), Quoted(s)) && out == old(offset))
      ensures buffer == null ==> out == -1
    {
      hide Escaped, Quoted, Pow2Gt;
      var len, flag := Measure(s);
      QuotedLength(s);
      var ok := Ensure(len + 3);
      if !ok {
        return -1;
      }
      var end := WriteString(buffer, offset, s, flag);
      out := offset;
    }

    /** print_value; for an object that is not empty and is formatted, the result is no place in the text. */
    method PutValue(t: Json, depth: nat, fmt: bool) returns (out: int)
      requires Valid() && Plain(t)
      modifies this, mem, buffer
      ensures Lives() && (buffer != null ==> Wrote(old(buffer[..offset]), Print(t, depth, fmt)))
      ensures buffer != null ==> out == if t.Obj? && t.members.Member? && fmt then depth else old(offset)
      ensures buffer == null ==> out == -1
      decreases t, 1
    {
      match t {
        case Null => out := PutText("null", 5);
        case False => out := PutText("false", 6);
        case True => out := PutText("true", 5);
        case Num(m, e) =>
          DecimalLength(m);
          out := PutText(Decimal(m), if m == 0 then 2 else 21);
        case Str(text) => out := PutString(text);
        case Arr(items) => out := PutArray(items, depth, fmt);
        case Obj(members) => out := PutObject(members, depth, fmt);
      }
    }

    /** A text is written and the offset moved behind it. */
    method Append(s: string, more: nat) returns (ok: bool)
      requires Valid() && more > 0 && |s| <= more
      modifies this, mem, buffer
      ensures Lives() && (ok <==> buffer != null)
      ensures ok ==> Written() == old(buffer[..offset]) + s
    {
      ok := Put(s, more);
      if ok {
        offset := offset + |s|;
      }
    }

    /** print_array */
    method PutArray(xs: Items, depth: nat, fmt: bool) returns (out: int)
      requires Valid() && PlainItems(xs)
      modifies this, mem, buffer
      ensures Lives() && (buffer != null ==> Wrote(old(buffer[..offset]), Print(Arr(xs), depth, fmt)))
      ensures out == if buffer != null then old(offset) else -1
      decreases xs, 1
    {
      if xs.NoItem? {
        out := PutText("[]", 3);
        return;
      }
      hide PrintItems, Wrote;
      var i := offset;
      var ok := Append("[", 1);
      if !ok {
        return -1;
      }
      ghost var before := old(buffer[..offset]);
      PutItems(xs, depth + 1, fmt);
      if buffer != null {
        assert Written() == before + "[" + PrintItems(xs, depth + 1, fmt);
      }
      ok := Put("]", 2);
      if !ok {
        return -1;
      }
      out := i;
      ArrayWrote(before, PrintItems(xs, depth + 1, fmt));
    }

    lemma ArrayWrote(before: string, items: string)
      requires Valid() && buffer != null && offset == |before| + 1 + |items| && offset + 2 <= length
      requires buffer[..offset + 1] == before + "[" + items + "]" && buffer[offset + 1] == NUL
      ensures Wrote(before, "[" + items + "]")
    {
      assert before + "[" + items + "]" == before + ("[" + items + "]");
    }

    /** A value and the separator behind it, if another value follows. */
    method PutItem(v: Json, more: bool, depth: nat, fmt: bool)
      requires Valid() && Plain(v)
      modifies this, mem, buffer
      ensures Lives()
      ensures buffer != null ==>
                Written() == old(buffer[..offset]) + Print(v, depth, fmt) + (if more then "," + Fmt(fmt, " ") else [])
      decreases v, 2
    {
      hide Print, Wrote;
      PrintNoNul(v, depth, fmt);
      ghost var written := if buffer != null then Written() else [];
      var out := PutValue(v, depth, fmt);
      Update(written, Print(v, depth, fmt));
      if more {
        var ok := Append("," + Fmt(fmt, " "), if fmt then 3 else 2);
      }
    }

    /** The values of an array, with separators between them. */
    method PutItems(xs: Items, depth: nat, fmt: bool)
      requires Valid() && PlainItems(xs)
      modifies this, mem, buffer
      ensures Lives() && (buffer != null ==> Written() == old(buffer[..offset]) + PrintItems(xs, depth, fmt))
      decreases xs, 0
    {
      hide Print, PrintItems, Fmt;
      var child := xs;
      ghost var before := if buffer != null then buffer[..offset] else [];
      while child.Item?
        invariant Lives() && PlainItems(child) && (child == xs || child < xs)
        invariant buffer != null ==> Written() + PrintItems(child, depth, fmt) == before + PrintItems(xs, depth, fmt)
        decreases child
      {
        TextsStep(child, depth, fmt);
        ghost var written := if buffer != null then Written() else [];
        PutItem(child.value, child.next.Item?, depth, fmt);
        if buffer == null {
          return;
        }
        ghost var rest := PrintItems(child, depth, fmt);
        child := child.next;
        assert Written() + PrintItems(child, depth, fmt) == written + rest;
      }
      TextsStep(child, depth, fmt);
    }

    /** Tabs are written and the offset moved behind them. */
    method PutTabs(n: nat) returns (ok: bool)
      requires Valid() && n > 0
      modifies this, mem, buffer
      ensures Lives() && (ok <==> buffer != null)
      ensures ok ==> Written() == old(buffer[..offset]) + Tabs(n)
    {
      hide Tabs;
      ok := Ensure(n);
      if ok {
        offset := Indent(buffer, offset, n);
      }
    }

    /** A member of an object. */
    method PutMember(name: string, v: Json, more: bool, depth: nat, fmt: bool)
      requires Valid() && NUL !in name && Plain(v) && depth > 0
      modifies this, mem, buffer
      ensures Lives()
      ensures buffer != null ==>
                Written() == old(buffer[..offset]) + MemberText(Quoted(name), Print(v, depth, fmt), more, depth, fmt)
      decreases v, 3
    {
      hide Print, Quoted, Tabs;
      ghost var before := if buffer != null then Written() else [];
      if fmt {
        var ok := PutTabs(depth);
      }
      PutName(name, fmt);
      PutMemberValue(v, more, depth, fmt);
      if buffer != null {
        SameText(before, Fmt(fmt, Tabs(depth)), Quoted(name), Fmt(fmt, "\t"), Print(v, depth, fmt), if more then "," else [], Fmt(fmt, "\n"));
        if !fmt {
          assert before + Fmt(fmt, Tabs(depth)) == before;
        }
      }
    }

    method PutMemberValue(v: Json, more: bool, depth: nat, fmt: bool)
      requires Valid() && Plain(v)
      modifies this, mem, buffer
      ensures Lives()
      ensures buffer != null ==>
                Written() == old(buffer[..offset]) + Print(v, depth, fmt) + (if more then "," else []) + Fmt(fmt, "\n")
      decreases v, 2
    {
      hide Print, Wrote;
      ghost var written := if buffer != null then Written() else [];
      PrintNoNul(v, depth, fmt);
      var out := PutValue(v, depth, fmt);
      Update(written, Print(v, depth, fmt));
      var comma := if more then "," else [];
      var ok := Append(comma + Fmt(fmt, "\n"), 1 + |comma| + |Fmt(fmt, "\n")|);
      if buffer != null {
        assert Written() == written + Print(v, depth, fmt) + (comma + Fmt(fmt, "\n"));
      }
    }

    method PutName(name: string, fmt: bool)
      requires Valid() && NUL !in name
      modifies this, mem, buffer
      ensures Lives()
      ensures buffer != null ==> Written() == old(buffer[..offset]) + Quoted(name) + ":" + Fmt(fmt, "\t")
    {
      hide Wrote, Quoted;
      QuotedNoNul(name);
      ghost var written := if buffer != null then Written() else [];
      var out := PutString(name);
      Update(written, Quoted(name));
      var ok := Append(":" + Fmt(fmt, "\t"), if fmt then 2 else 1);
      if buffer != null {
        assert Written() == written + Quoted(name) + (":" + Fmt(fmt, "\t"));
      }
    }

    method PutMembers(ms: Members, depth: nat, fmt: bool)
      requires Valid() && PlainMembers(ms) && depth > 0
      modifies this, mem, buffer
      ensures Lives() && (buffer != null ==> Written() == old(buffer[..offset]) + PrintMembers(ms, depth, fmt))
      decreases ms, 0
    {
      hide Print, PrintMembers, Quoted, MemberText;
      var child := ms;
      ghost var before := if buffer != null then buffer[..offset] else [];
      while child.Member?
        invariant Lives() && PlainMembers(child) && (child == ms || child < ms)
        invariant buffer != null ==> Written() + PrintMembers(child, depth, fmt) == before + PrintMembers(ms, depth, fmt)
        decreases child
      {
        NamedStep(child, depth, fmt);
        ghost var written := if buffer != null then Written() else [];
        PutMember(child.name, child.value, child.next.Member?, depth, fmt);
        if buffer == null {
          return;
        }
        ghost var rest := PrintMembers(child, depth, fmt);
        child := child.next;
        assert Written() + PrintMembers(child, depth, fmt) == written + rest;
      }
      NamedStep(child, depth, fmt);
    }

    /** print_object */
    method PutObject(ms: Members, depth: nat, fmt: bool) returns (out: int)
      requires Valid() && PlainMembers(ms)
      modifies this, mem, buffer
      ensures Lives() && (buffer != null ==> Wrote(old(buffer[..offset]), Print(Obj(ms), depth, fmt)))
      ensures buffer != null ==> out == if ms.Member? && fmt then depth else old(offset)
      ensures buffer == null ==> out == -1
      decreases ms, 1
    {
      hide PrintMembers, Wrote, Tabs;
      ObjectLength(ms, depth, fmt);
      if ms.NoMember? {
        out := PutText("{" + Fmt(fmt, "\n" + Tabs(depth - 1)) + "}", if fmt then depth + 4 else 3);
        return;
      }
      var i := offset;
      ghost var before := if buffer != null then Written() else [];
      var ok := Append("{" + Fmt(fmt, "\n"), if fmt then 3 else 2);
      if !ok {
        return -1;
      }
      PutMembers(ms, depth + 1, fmt);
      ghost var body := PrintMembers(ms, depth + 1, fmt);
      if buffer != null {
        assert Written() == before + ("{" + Fmt(fmt, "\n")) + body;
      }
      ok := Put(Fmt(fmt, Tabs(depth)) + "}", if fmt then depth + 2 else 2);
      if !ok {
        return -1;
      }
      out := if fmt then depth else i;
      ObjectWrote(before, Fmt(fmt, "\n"), body, Fmt(fmt, Tabs(depth)));
    }

    lemma ObjectWrote(before: string, nl: string, body: string, tabs: string)
      requires Valid() && buffer != null && offset == |before| + 1 + |nl| + |body| && offset + |tabs| + 2 <= length
      requires buffer[..offset + |tabs| + 1] == before + ("{" + nl) + body + (tabs + "}") && buffer[offset + |tabs| + 1] == NUL
      ensures Wrote(before, "{" + nl + body + tabs + "}")
    {
      assert before + ("{" + nl) + body + (tabs + "}") == before + ("{" + nl + body + tabs + "}");
    }
  }

  /** cJSON_PrintBuffered: the text of the tree, whatever the size of the first buffer, unless an allocation is refused. */
  method PrintBuffered(mem: Allocator, t: Json, prebuffer: nat, fmt: bool) returns (r: Option<string>)
    requires Plain(t)
    modifies mem
    ensures old(mem.refusals) <= mem.refusals && (r.None? <==> old(mem.refusals) < mem.refusals)
    ensures r.Some? ==> r.value == Print(t, 0, fmt)
  {
    hide Print;
    var p := new PrintBuffer(mem, prebuffer);
    PrintNoNul(t, 0, fmt);
    label made:
    var out := p.PutValue(t, 0, fmt);
    if out < 0 {
      return None;
    }
    ghost var end := |Print(t, 0, fmt)|;
    var k := out;
    assert p.buffer[..end] == Print(t, 0, fmt);
    while p.buffer[k] != NUL
      invariant out <= k <= end
      decreases end - k
    {
      k := k + 1;
    }
    r := Some(p.buffer[out..k]);
  }

  /** The buffered and the unbuffered printer write the same text. */
  method PrintBoth(mem: Allocator, t: Json, prebuffer: nat, fmt: bool) returns (a: Option<string>, b: Option<string>)
    requires Plain(t)
    modifies mem
    ensures a.Some? && b.Some? ==> a == b
  {
    a := PrintBuffered(mem, t, prebuffer, fmt);
    b := PrintValue(mem, t, 0, fmt);
  }
}
