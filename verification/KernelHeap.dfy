/**
  heap_mem_init, malloc and free over the words of memory: block headers in a circular list that is
  kept inside the heap itself, against the list of blocks in address order.
 */
module KernelHeap {
  import opened Basics
  import opened HeapBlocks

  type Memory = map<int, int>

  /** Words of a header: previous header, next header, used flag. */
  const PREV := 0
  const NEXT := 4
  const USED := 8

  function Flag(used: bool): int {
    if used then 1 else 0
  }

  function After(n: nat, i: nat): nat {
    if i + 1 < n then i + 1 else 0
  }

  function Ahead(n: nat, i: nat): int {
    if i > 0 then i - 1 else n - 1
  }

  /** The header of block i is in memory, linked to its neighbours in the circle. */
  predicate Header(mem: Memory, bs: seq<Block>, i: nat)
    requires i < |bs|
  {
    var a := bs[i].addr;
    && a in mem && a + NEXT in mem && a + USED in mem
    && mem[a] == bs[Ahead(|bs|, i)].addr
    && mem[a + NEXT] == bs[After(|bs|, i)].addr
    && mem[a + USED] == Flag(bs[i].used)
  }

  predicate Stored(mem: Memory, bs: seq<Block>) {
    forall i :: 0 <= i < |bs| ==> Header(mem, bs, i)
  }

  /** Word w lies in the header at address a. */
  predicate InHeader(w: int, a: int) {
    a <= w < a + HEADER
  }

  // ----- list.h over memory -----

  /** __list_insert of node behind link. */
  function LinkAfter(mem: Memory, link: int, node: int): (m: Memory)
    requires link + NEXT in mem
  {
    var next := mem[link + NEXT];
    mem[next := node][node + NEXT := next][node := link][link + NEXT := node]
  }

  /** list_remove_node */
  function Unlink(mem: Memory, node: int): (m: Memory)
    requires node in mem && node + NEXT in mem
  {
    var prev, next := mem[node], mem[node + NEXT];
    mem[prev + NEXT := next][next := prev]
  }

  lemma Apart(bs: seq<Block>, begin: int, end: int, i: nat, j: nat)
    requires Tiled(bs, begin, end) && i < |bs| && j < |bs| && i != j
    ensures bs[i].addr + HEADER <= bs[j].addr || bs[j].addr + HEADER <= bs[i].addr
  {
    if i < j {
      Ordered(bs, begin, end, i, j);
    } else {
      Ordered(bs, begin, end, j, i);
    }
  }

  /** Changing the used flag of block k in memory. */
  lemma StoredMark(mem: Memory, bs: seq<Block>, begin: int, end: int, k: nat, used: bool)
    requires Tiled(bs, begin, end) && Stored(mem, bs) && k < |bs|
    ensures Stored(mem[bs[k].addr + USED := Flag(used)], Mark(bs, k, used))
  {
    var m, r := mem[bs[k].addr + USED := Flag(used)], Mark(bs, k, used);
    forall i | 0 <= i < |r|
      ensures Header(m, r, i)
    {
      assert Header(mem, bs, i);
      if i != k {
        Apart(bs, begin, end, i, k);
      }
    }
  }

  /** Inserting a header that lies between block k and the next one. */
  lemma StoredInsert(mem: Memory, bs: seq<Block>, begin: int, end: int, k: nat, b: Block)
    requires Tiled(bs, begin, end) && Stored(mem, bs) && k + 1 < |bs|
    requires bs[k].addr + HEADER <= b.addr && b.addr + HEADER <= bs[k + 1].addr
    requires b.addr + USED in mem && mem[b.addr + USED] == Flag(b.used)
    ensures bs[k].addr + NEXT in mem && Stored(LinkAfter(mem, bs[k].addr, b.addr), InsertAfter(bs, k, b))
  {
    hide Tiled;
    assert Header(mem, bs, k);
    var m, r := LinkAfter(mem, bs[k].addr, b.addr), InsertAfter(bs, k, b);
    forall i | 0 <= i < |r|
      ensures Header(m, r, i)
    {
      if i == k + 1 {
      } else {
        var j := if i <= k then i else i - 1;
        HeaderInsert(mem, bs, begin, end, k, b, j);
      }
    }
  }

  lemma HeaderInsert(mem: Memory, bs: seq<Block>, begin: int, end: int, k: nat, b: Block, j: nat)
    requires Tiled(bs, begin, end) && Stored(mem, bs) && k + 1 < |bs| && j < |bs|
    requires bs[k].addr + HEADER <= b.addr && b.addr + HEADER <= bs[k + 1].addr
    requires bs[k].addr + NEXT in mem
    ensures Header(LinkAfter(mem, bs[k].addr, b.addr), InsertAfter(bs, k, b), if j <= k then j else j + 1)
  {
    hide Tiled, Stored;
    HeaderThere(mem, bs, j);
    HeaderThere(mem, bs, k);
    if j != k {
      Apart(bs, begin, end, j, k);
    }
    if j != k + 1 {
      Apart(bs, begin, end, j, k + 1);
    }
    if j < k {
      Ordered(bs, begin, end, j, k);
    } else if j > k + 1 {
      Ordered(bs, begin, end, k + 1, j);
    }
  }

  lemma StoredRemove(mem: Memory, bs: seq<Block>, begin: int, end: int, k: nat)
    requires Tiled(bs, begin, end) && Stored(mem, bs) && 0 < k && k + 1 < |bs|
    ensures bs[k].addr in mem && bs[k].addr + NEXT in mem && Stored(Unlink(mem, bs[k].addr), Without(bs, k))
  {
    assert Header(mem, bs, k);
    var m, r := Unlink(mem, bs[k].addr), Without(bs, k);
    forall i | 0 <= i < |r|
      ensures Header(m, r, i)
    {
      var j := if i < k then i else i + 1;
      HeaderRemove(mem, bs, begin, end, k, j);
    }
  }

  lemma HeaderRemove(mem: Memory, bs: seq<Block>, begin: int, end: int, k: nat, j: nat)
    requires Tiled(bs, begin, end) && Stored(mem, bs) && 0 < k && k + 1 < |bs| && j < |bs| && j != k
    requires bs[k].addr in mem && bs[k].addr + NEXT in mem
    ensures Header(Unlink(mem, bs[k].addr), Without(bs, k), if j < k then j else j - 1)
  {
    hide Tiled, Stored;
    HeaderThere(mem, bs, j);
    HeaderThere(mem, bs, k);
    if j != k - 1 {
      Apart(bs, begin, end, j, k - 1);
    }
    if j != k + 1 {
      Apart(bs, begin, end, j, k + 1);
    }
  }

  /** A write outside every header changes no header. */
  lemma StoredElsewhere(mem: Memory, bs: seq<Block>, w: int, v: int)
    requires Stored(mem, bs) && forall i :: 0 <= i < |bs| ==> !InHeader(w, bs[i].addr)
    ensures Stored(mem[w := v], bs)
  {
    var m := mem[w := v];
    forall i | 0 <= i < |bs|
      ensures Header(m, bs, i)
    {
      assert Header(mem, bs, i) && !InHeader(w, bs[i].addr);
    }
  }

  /** A word between block k's header and the next one lies in no header. */
  lemma BetweenHeaders(bs: seq<Block>, begin: int, end: int, k: nat, w: int)
    requires Tiled(bs, begin, end) && k + 1 < |bs| && bs[k].addr + HEADER <= w < bs[k + 1].addr
    ensures forall i :: 0 <= i < |bs| ==> !InHeader(w, bs[i].addr)
  {
    forall i | 0 <= i < |bs|
      ensures !InHeader(w, bs[i].addr)
    {
      if i < k {
        Ordered(bs, begin, end, i, k);
      } else if k + 1 < i {
        Ordered(bs, begin, end, k + 1, i);
      }
    }
  }

  // ----- payloads -----

  /** Word w lies in no payload of the live blocks. */
  predicate Outside(live: set<(int, int)>, w: int) {
    forall p :: p in live ==> !(p.0 + HEADER <= w < p.0 + HEADER + p.1)
  }

  /** The payloads of the live blocks hold the same words. */
  ghost predicate Untouched(live: set<(int, int)>, m: Memory, m': Memory)
    ensures m == m' ==> Untouched(live, m, m')
  {
    forall w :: !Outside(live, w) ==> (w in m <==> w in m') && (w in m ==> m[w] == m'[w])
  }

  lemma HeaderOutside(bs: seq<Block>, begin: int, end: int, j: nat, w: int)
    requires Tiled(bs, begin, end) && j < |bs| && InHeader(w, bs[j].addr)
    ensures Outside(Live(bs), w)
  {
    forall p | p in Live(bs)
      ensures !(p.0 + HEADER <= w < p.0 + HEADER + p.1)
    {
      var i :| 0 <= i < |bs| - 1 && bs[i].used && p == (bs[i].addr, Room(bs, i));
      if i < j {
        Before(bs, begin, end, i, j);
      } else if j < i {
        Ordered(bs, begin, end, j, i);
      }
    }
  }

  lemma FreeOutside(bs: seq<Block>, begin: int, end: int, k: nat, w: int)
    requires Tiled(bs, begin, end) && k + 1 < |bs| && !bs[k].used && bs[k].addr <= w < bs[k + 1].addr
    ensures Outside(Live(bs), w)
  {
    forall p | p in Live(bs)
      ensures !(p.0 + HEADER <= w < p.0 + HEADER + p.1)
    {
      var i :| 0 <= i < |bs| - 1 && bs[i].used && p == (bs[i].addr, Room(bs, i));
      if i < k {
        Before(bs, begin, end, i, k);
      } else {
        Before(bs, begin, end, k, i);
      }
    }
  }

  // ----- splitting and merging in memory -----

  /** The writes of malloc on block k: the header of what is left, its links, the used flag. */
  function Carved(mem: Memory, p: int, size: int, split: bool): (m: Memory)
    requires p + NEXT in mem
  {
    var q := p + size + HEADER;
    var m := if split then LinkAfter(mem[q + USED := 0][q := q][q + NEXT := q], p, q) else mem;
    m[p + USED := 1]
  }

  lemma FreshHeader(mem: Memory, bs: seq<Block>, begin: int, end: int, k: nat, q: int)
    requires Tiled(bs, begin, end) && Stored(mem, bs) && k + 1 < |bs|
    requires bs[k].addr + HEADER <= q && q + HEADER <= bs[k + 1].addr
    ensures Stored(mem[q + USED := 0][q := q][q + NEXT := q], bs)
  {
    hide Tiled, Stored;
    BetweenHeaders(bs, begin, end, k, q + USED);
    StoredElsewhere(mem, bs, q + USED, 0);
    BetweenHeaders(bs, begin, end, k, q);
    StoredElsewhere(mem[q + USED := 0], bs, q, q);
    BetweenHeaders(bs, begin, end, k, q + NEXT);
    StoredElsewhere(mem[q + USED := 0][q := q], bs, q + NEXT, q);
  }

  lemma CarvedStored(mem: Memory, bs: seq<Block>, begin: int, end: int, k: nat, size: nat)
    requires Tiled(bs, begin, end) && Stored(mem, bs) && k + 1 < |bs| && Fits(bs, k, size) && size % ALIGNMENT == 0
    ensures bs[k].addr + NEXT in mem
    ensures Stored(Carved(mem, bs[k].addr, size, Splits(bs, k, size)), Take(bs, k, size))
  {
    hide Tiled, Stored, LinkAfter, Mark, InsertAfter;
    HeaderThere(mem, bs, k);
    if Splits(bs, k, size) {
      SplitStored(mem, bs, begin, end, k, size);
    } else {
      StoredMark(mem, bs, begin, end, k, true);
    }
  }

  lemma SplitStored(mem: Memory, bs: seq<Block>, begin: int, end: int, k: nat, size: nat)
    requires Tiled(bs, begin, end) && Stored(mem, bs) && k + 1 < |bs| && Splits(bs, k, size) && size % ALIGNMENT == 0
    requires bs[k].addr + NEXT in mem
    ensures var q := bs[k].addr + size + HEADER;
            Stored(LinkAfter(mem[q + USED := 0][q := q][q + NEXT := q], bs[k].addr, q)[bs[k].addr + USED := 1],
                   Mark(InsertAfter(bs, k, Block(q, false)), k, true))
  {
    hide Tiled, Stored, LinkAfter, Mark;
    var q := bs[k].addr + size + HEADER;
    FreshHeader(mem, bs, begin, end, k, q);
    var m := mem[q + USED := 0][q := q][q + NEXT := q];
    var b := Block(q, false);
    TiledAligned(bs, begin, end, k);
    StoredInsert(m, bs, begin, end, k, b);
    InsertTiled(bs, begin, end, k, b);
    StoredMark(LinkAfter(m, bs[k].addr, q), InsertAfter(bs, k, b), begin, end, k, true);
  }

  lemma HeaderThere(mem: Memory, bs: seq<Block>, k: nat)
    requires Stored(mem, bs) && k < |bs|
    ensures Header(mem, bs, k)
  {
  }

  lemma CarvedUntouched(mem: Memory, bs: seq<Block>, begin: int, end: int, k: nat, size: nat)
    requires Tiled(bs, begin, end) && Stored(mem, bs) && k + 1 < |bs| && Fits(bs, k, size)
    requires bs[k].addr + NEXT in mem
    ensures Untouched(Live(bs), mem, Carved(mem, bs[k].addr, size, Splits(bs, k, size)))
  {
    assert Header(mem, bs, k);
    var p, q, next := bs[k].addr, bs[k].addr + size + HEADER, bs[k + 1].addr;
    hide Tiled, Stored, Live, Outside;
    HeaderOutside(bs, begin, end, k, p + USED);
    HeaderOutside(bs, begin, end, k, p + NEXT);
    HeaderOutside(bs, begin, end, k + 1, next);
    if Splits(bs, k, size) {
      FreeOutside(bs, begin, end, k, q);
      FreeOutside(bs, begin, end, k, q + NEXT);
      FreeOutside(bs, begin, end, k, q + USED);
    }
  }

  /** Unlinking block j removes it, and touches no payload that is clear of the two neighbouring headers. */
  lemma UnlinkKeeps(mem: Memory, bs: seq<Block>, begin: int, end: int, j: nat, live: set<(int, int)>)
    requires Tiled(bs, begin, end) && Stored(mem, bs) && 0 < j && j + 1 < |bs|
    requires Outside(live, bs[j - 1].addr + NEXT) && Outside(live, bs[j + 1].addr)
    ensures bs[j].addr in mem && bs[j].addr + NEXT in mem
    ensures Tiled(Without(bs, j), begin, end) && Stored(Unlink(mem, bs[j].addr), Without(bs, j))
    ensures Untouched(live, mem, Unlink(mem, bs[j].addr))
  {
    StoredRemove(mem, bs, begin, end, j);
    RemoveTiled(bs, begin, end, j);
    hide Tiled, Outside;
    assert Header(mem, bs, j);
  }

  lemma UntouchedTwice(live: set<(int, int)>, m: Memory, m': Memory, m'': Memory)
    requires Untouched(live, m, m') && Untouched(live, m', m'')
    ensures Untouched(live, m, m'')
  {
  }

  // ----- arithmetic of size_t -----

  const WORD := 0x1_0000_0000

  /** ALIGN, with the wrap of size_t. */
  function Align(x: dword): (r: dword)
    ensures r % ALIGNMENT == 0 && (x <= WORD - ALIGNMENT ==> x <= r < x + ALIGNMENT)
    ensures x > WORD - ALIGNMENT ==> r == 0
  {
    (x + ALIGNMENT - 1) / ALIGNMENT * ALIGNMENT % WORD
  }

  function Minus(a: dword, b: int): (r: dword)
    ensures 0 <= b <= a ==> r == a - b
  {
    (a - b) % WORD
  }

  function Plus(a: dword, b: int): (r: dword)
    ensures 0 <= b && a + b < WORD ==> r == a + b
  {
    (a + b) % WORD
  }

  /** The size malloc looks for when asked for a nonzero size. */
  function Rounded(size: dword): (r: dword)
    ensures r % ALIGNMENT == 0
    ensures size <= r <==> size <= WORD - ALIGNMENT
    ensures size <= WORD - ALIGNMENT ==> 12 <= r < (if size < 12 then 12 else size) + 4
    ensures size > WORD - ALIGNMENT ==> r == 0
  {
    Align(if size < MIN_SIZE then MIN_SIZE else size)
  }

  /** The unsigned test of heap_mem_init lets a region pass. */
  predicate Accepted(beginAddr: dword, endAddr: dword) {
    Minus(Align(endAddr), Align(beginAddr)) > 2 * HEADER + MIN_SIZE
  }

  /** The aligned end lies behind the aligned begin, or at the top of memory, where it has wrapped around to 0. */
  predicate Forward(beginAddr: dword, endAddr: dword) {
    Align(endAddr) == 0 || Align(beginAddr) < Align(endAddr)
  }

  /** Where the end marker of a region that passed the test lies. */
  lemma EndPlace(b: dword, e: dword)
    requires b % ALIGNMENT == 0 && e % ALIGNMENT == 0 && Minus(e, b) > 2 * HEADER + MIN_SIZE
    ensures var end := Minus(e, HEADER);
            && end % ALIGNMENT == 0 && b != e
            && (e == 0 || b < e ==> b + HEADER < end && end + HEADER <= WORD && Minus(e, b) == end + HEADER - b)
            && (0 < e < b ==> end <= b || end + HEADER > WORD)
  {
  }

  /** Two blocks that were just linked: one free block and the end marker. */
  lemma TwoBlocks(m: Memory, begin: int, end: int)
    requires begin % ALIGNMENT == 0 && end % ALIGNMENT == 0 && begin + HEADER < end
    requires begin + NEXT in m && m[begin + NEXT] == begin && begin + USED in m && m[begin + USED] == 0
    requires end + USED in m && m[end + USED] == 1
    ensures Good(State([Block(begin, false), Block(end, true)], map[]), begin, end)
    ensures Stored(LinkAfter(m, begin, end), [Block(begin, false), Block(end, true)])
    ensures Lowest([Block(begin, false), Block(end, true)], 0)
  {
    var bs := [Block(begin, false), Block(end, true)];
    var m' := LinkAfter(m, begin, end);
    assert Header(m', bs, 0) && Header(m', bs, 1);
    assert Lowest(bs, 0);
    assert Live(bs) == {};
  }

  // ----- the heap -----

  datatype Outcome = Null | Addr(addr: int) | Halted

  class Heap {
    var mem: Memory
    var begin: int
    var end: int
    var hint: int
    var total: dword
    var used: dword

    /** The blocks in address order, the place of the lowest free one, what the callers hold. */
    ghost var blocks: seq<Block>
    ghost var low: nat
    ghost var held: map<int, nat>

    ghost function Abs(): State
      reads this`blocks, this`held
    {
      State(blocks, held)
    }

    ghost predicate Valid()
      reads this`mem, this`begin, this`end, this`hint, this`blocks, this`low, this`held
      ensures Valid() ==> |blocks| >= 2 && low + 1 < |blocks| && blocks[|blocks| - 1].addr == end
    {
      && 0 <= begin && end + HEADER <= WORD
      && Good(Abs(), begin, end) && Stored(mem, blocks)
      && low + 1 < |blocks| && Lowest(blocks, low) && hint == blocks[low].addr
    }

    /** A header is linked to the next one, and only the end marker is at the end address. */
    lemma Walk(k: nat)
      requires Tiled(blocks, begin, end) && Stored(mem, blocks) && k < |blocks|
      ensures blocks[k].addr == end <==> k + 1 == |blocks|
      ensures blocks[k].addr in mem && blocks[k].addr + NEXT in mem && blocks[k].addr + USED in mem
      ensures mem[blocks[k].addr + USED] == Flag(blocks[k].used)
      ensures k + 1 < |blocks| ==> mem[blocks[k].addr + NEXT] == blocks[k + 1].addr && Room(blocks, k) >= 0
      ensures mem[blocks[k].addr] == blocks[Ahead(|blocks|, k)].addr
      ensures k + 1 == |blocks| ==> blocks[k].used
    {
      assert Header(mem, blocks, k);
      if k + 1 < |blocks| {
        Ordered(blocks, begin, end, k, |blocks| - 1);
      }
    }

    /**
      heap_mem_init: a region that is too small by the unsigned test changes nothing; one that is taken becomes a heap of
      one free block exactly when its aligned end is not before its aligned begin, or has wrapped around to 0.
     */
    method Init(beginAddr: dword, endAddr: dword)
      modifies this
      ensures !Accepted(beginAddr, endAddr) ==> unchanged(this)
      ensures Accepted(beginAddr, endAddr) ==>
                && begin == Align(beginAddr) && end == Minus(Align(endAddr), HEADER) && hint == begin && used == 0
                && total == Minus(Align(endAddr), Align(beginAddr)) - 2 * HEADER
      ensures Accepted(beginAddr, endAddr) ==> (Valid() <==> Forward(beginAddr, endAddr))
      ensures Accepted(beginAddr, endAddr) && Forward(beginAddr, endAddr) ==>
                blocks == [Block(begin, false), Block(end, true)] && held == map[] && total == end - begin - HEADER
    {
      hide Align, Minus, Good, Stored, Lowest, LinkAfter;
      var alignBegin: dword, alignEnd: dword := Align(beginAddr), Align(endAddr);
      if Minus(alignEnd, alignBegin) <= 2 * HEADER + MIN_SIZE {
        return;
      }
      total := Minus(alignEnd, alignBegin) - 2 * HEADER;
      begin, end := alignBegin, Minus(alignEnd, HEADER);
      var m: Memory := mem[begin := begin][begin + NEXT := begin][begin + USED := 0];
      m := m[end := end][end + NEXT := end][end + USED := 1];
      mem := LinkAfter(m, begin, end);
      hint, used := begin, 0;
      EndPlace(alignBegin, alignEnd);
      if Forward(beginAddr, endAddr) {
        blocks, low, held := [Block(begin, false), Block(end, true)], 0, map[];
        TwoBlocks(m, begin, end);
      } else {
        NeverSpans();
      }
    }

    /** What has no room between its ends, or does not end in memory, is no heap. */
    lemma NeverSpans()
      requires end <= begin || end + HEADER > WORD
      ensures !Valid()
    {
      if Valid() {
        Ordered(blocks, begin, end, 0, |blocks| - 1);
      }
    }

    /** The end marker counts as used. */
    lemma Ends()
      requires Valid()
      ensures blocks != [] && blocks[|blocks| - 1].used
    {
    }

    /** The place the search stops at is the first fit. */
    lemma Found(n: nat, k: nat)
      requires Valid() && low <= k < |blocks|
      requires k + 1 == |blocks| || Fits(blocks, k, n)
      requires forall i :: low <= i < k ==> !Fits(blocks, i, n)
      ensures FirstFit(blocks, 0, n) == k
    {
      HintLosesNothing(blocks, low, 0, n);
    }

    /** The search of malloc, from the hint to the end marker. */
    method Search(n: dword) returns (p: int, ghost k: nat)
      requires Valid()
      ensures k < |blocks| && p == blocks[k].addr && k == FirstFit(blocks, 0, n)
      ensures p == end <==> k + 1 == |blocks|
    {
      hide Tiled, Coalesced, HasFree, Matches, Stored, Lowest, FirstFit;
      p, k := hint, low;
      Walk(k);
      while p != end && !(mem[p + USED] == 0 && mem[p + NEXT] - p - HEADER > n)
        invariant low <= k < |blocks| && p == blocks[k].addr && (p == end <==> k + 1 == |blocks|)
        invariant p in mem && p + NEXT in mem && p + USED in mem && mem[p + USED] == Flag(blocks[k].used)
        invariant k + 1 < |blocks| ==> mem[p + NEXT] == blocks[k + 1].addr && Room(blocks, k) >= 0
        invariant forall i :: low <= i < k ==> !Fits(blocks, i, n)
        decreases |blocks| - k
      {
        p, k := mem[p + NEXT], k + 1;
        Walk(k);
      }
      Found(n, k);
    }

    /** The block found is split if enough is left, and marked used. */
    method Carve(p: int, n: dword, ghost k: nat)
      requires Valid() && k + 1 < |blocks| && p == blocks[k].addr && Fits(blocks, k, n) && n % ALIGNMENT == 0
      modifies `mem, `used, `blocks, `held
      ensures blocks == Take(old(blocks), k, n) && used == Plus(old(used), n + HEADER)
      ensures held == old(held)[p := n]
      ensures Tiled(blocks, begin, end) && Stored(mem, blocks)
      ensures Untouched(Live(old(blocks)), old(mem), mem)
    {
      hide Tiled, Coalesced, HasFree, Matches, Stored, Lowest, Take, LinkAfter, Untouched, Live, Plus;
      Walk(k);
      CarvedStored(mem, blocks, begin, end, k, n);
      CarvedUntouched(mem, blocks, begin, end, k, n);
      TakeKeeps(blocks, begin, end, k, n);
      var q := p + n + HEADER;
      var m: Memory := mem;
      if mem[p + NEXT] - p - HEADER - n > HEADER + MIN_SIZE {
        m := m[q + USED := 0];
        m := m[q := q][q + NEXT := q];
        m := LinkAfter(m, p, q);
      }
      m := m[p + USED := 1];
      assert m == Carved(mem, p, n, Splits(blocks, k, n));
      mem, used := m, Plus(used, n + HEADER);
      blocks, held := Take(blocks, k, n), held[p := n];
    }

    /** The hint moves to the lowest free block; without one the kernel assertion fails. */
    method Advance() returns (ok: bool)
      requires Tiled(blocks, begin, end) && Stored(mem, blocks) && low < |blocks| && hint == blocks[low].addr
      requires forall i :: 0 <= i < low ==> blocks[i].used
      modifies `hint, `low
      ensures ok <==> HasFree(blocks)
      ensures ok ==> low + 1 < |blocks| && Lowest(blocks, low) && hint == blocks[low].addr
    {
      hide Tiled, Stored;
      Walk(low);
      while mem[hint + USED] == 1 && hint != end
        invariant low < |blocks| && hint == blocks[low].addr && (hint == end <==> low + 1 == |blocks|)
        invariant hint + NEXT in mem && hint + USED in mem && mem[hint + USED] == Flag(blocks[low].used)
        invariant if low + 1 < |blocks| then mem[hint + NEXT] == blocks[low + 1].addr else blocks[low].used
        invariant forall i :: 0 <= i < low ==> blocks[i].used
        decreases |blocks| - low
      {
        hint, low := mem[hint + NEXT], low + 1;
        Walk(low);
      }
      ok := !(mem[hint + USED] == 1 || hint == end);
      if ok {
        assert Lowest(blocks, low);
      } else {
        assert forall i :: 0 <= i < |blocks| ==> blocks[i].used;
      }
    }

    /** The hint still names the lowest free block when a later one was taken. */
    lemma HintKept(bs: seq<Block>, k: nat, n: nat)
      requires k + 1 < |bs| && low < k && Lowest(bs, low) && blocks == Take(bs, k, n)
      ensures Lowest(blocks, low) && low + 1 < |blocks| && blocks[low] == bs[low] && HasFree(blocks)
    {
      assert Lowest(blocks, low);
    }

    /** The block found is taken and the hint moved on. */
    method Grab(p: int, n: dword, ghost k: nat) returns (ok: bool)
      requires Valid() && k + 1 < |blocks| && p == blocks[k].addr && k == FirstFit(blocks, 0, n) && n % ALIGNMENT == 0
      modifies `mem, `hint, `used, `blocks, `low, `held
      ensures blocks == Take(old(blocks), k, n) && held == old(held)[p := n] && used == Plus(old(used), n + HEADER)
      ensures ok <==> HasFree(blocks)
      ensures ok ==> Stored(mem, blocks) && low + 1 < |blocks| && Lowest(blocks, low) && hint == blocks[low].addr
      ensures Untouched(Live(old(blocks)), old(mem), mem)
    {
      hide Tiled, Coalesced, Matches, Stored, Lowest, Take, Plus, Good, HasFree, Untouched, Live, FirstFit;
      GoodTiled(Abs(), begin, end);
      LowestFits(blocks, low, n);
      TakeKeeps(blocks, begin, end, k, n);
      Carve(p, n, k);
      ok := true;
      if hint == p {
        LowestPrefix(old(blocks), low, k, n);
        ok := Advance();
      } else {
        HintKept(old(blocks), k, n);
      }
    }

    /**
      malloc: the first fit is taken, whatever the hint; null exactly when the size is zero, larger than
      what the counters say is left, or no free block is larger; the kernel stops exactly when no free block is left.
     */
    method Malloc(size: dword) returns (r: Outcome)
      requires Valid()
      modifies `mem, `hint, `used, `blocks, `low, `held
      ensures r.Null? <==> size == 0 || Rounded(size) > Minus(total, old(used)) || NoneLarger(old(blocks), Rounded(size))
      ensures r.Null? ==> unchanged(this)
      ensures !r.Null? ==> used == Plus(old(used), Rounded(size) + HEADER)
      ensures !r.Null? ==> Served(old(blocks), Rounded(size), blocks, r.Addr?)
      ensures r.Addr? ==>
                && Valid() && Step(old(Abs()), Call.Malloc(Rounded(size)), Abs())
                && r.addr == old(blocks)[FirstFit(old(blocks), 0, Rounded(size))].addr + HEADER
      ensures Untouched(Live(old(blocks)), old(mem), mem)
    {
      hide Tiled, Coalesced, Matches, Stored, Lowest, Take, Rounded, Minus, Plus, Good, HasFree, Untouched, Live,
        FirstFit, NoneLarger, Served;
      if size == 0 {
        return Null;
      }
      var n := Rounded(size);
      if n > Minus(total, used) {
        return Null;
      }
      r := Allocate(n);
    }

    /** The search of malloc, and what it does with the block it finds. */
    method Allocate(n: dword) returns (r: Outcome)
      requires Valid() && n % ALIGNMENT == 0
      modifies `mem, `hint, `used, `blocks, `low, `held
      ensures r.Null? <==> NoneLarger(old(blocks), n)
      ensures r.Null? ==> unchanged(this)
      ensures !r.Null? ==> used == Plus(old(used), n + HEADER) && Served(old(blocks), n, blocks, r.Addr?)
      ensures r.Addr? ==>
                && Valid() && Step(old(Abs()), Call.Malloc(n), Abs())
                && r.addr == old(blocks)[FirstFit(old(blocks), 0, n)].addr + HEADER
      ensures Untouched(Live(old(blocks)), old(mem), mem)
    {
      hide Tiled, Coalesced, Matches, Stored, Lowest, Take, Plus, Good, HasFree, Untouched, Live, FirstFit, NoneLarger, Served;
      Ends();
      SearchMeans(blocks, n);
      var p, k := Search(n);
      if p == end {
        return Null;
      }
      TakeServes(blocks, n);
      var ok := Grab(p, n, k);
      if !ok {
        return Halted;
      }
      MallocGood(old(Abs()), n, Abs(), begin, end);
      r := Addr(p + HEADER);
    }

    /** The block after block k is merged into it if it is free. */
    method JoinNext(h: int, ghost k: nat, ghost live: set<(int, int)>)
      requires Tiled(blocks, begin, end) && Stored(mem, blocks) && k + 1 < |blocks| && h == blocks[k].addr
      requires Outside(live, h + NEXT) && (k + 2 < |blocks| ==> Outside(live, blocks[k + 2].addr))
      modifies `mem, `blocks
      ensures blocks == MergeNext(old(blocks), k) && Tiled(blocks, begin, end) && Stored(mem, blocks)
      ensures Untouched(live, old(mem), mem)
    {
      hide Tiled, Stored, Outside, Unlink, Untouched;
      Walk(k);
      Walk(k + 1);
      var next := mem[h + NEXT];
      if mem[next + USED] == 0 {
        UnlinkKeeps(mem, blocks, begin, end, k + 1, live);
        mem := Unlink(mem, next);
        blocks := MergeNext(blocks, k);
      }
    }

    /** Block k is merged into the one before it if that is free; f is the block that is free now. */
    method JoinPrev(h: int, ghost k: nat, ghost live: set<(int, int)>) returns (f: int)
      requires Tiled(blocks, begin, end) && Stored(mem, blocks) && k + 1 < |blocks| && h == blocks[k].addr
      requires k > 0 ==> Outside(live, blocks[k - 1].addr + NEXT) && Outside(live, blocks[k + 1].addr)
      modifies `mem, `blocks
      ensures blocks == MergePrev(old(blocks), k) && Tiled(blocks, begin, end) && Stored(mem, blocks)
      ensures f == if k > 0 && !old(blocks)[k - 1].used then old(blocks)[k - 1].addr else h
      ensures Untouched(live, old(mem), mem)
    {
      hide Tiled, Stored, Outside, Unlink, Untouched;
      Walk(k);
      Walk(if k > 0 then k - 1 else |blocks| - 1);
      var prev := mem[h];
      f := h;
      if mem[prev + USED] == 0 {
        UnlinkKeeps(mem, blocks, begin, end, k, live);
        mem := Unlink(mem, h);
        blocks := MergePrev(blocks, k);
        f := prev;
      }
    }

    /** The block to release has its flag cleared and is merged with both neighbours. */
    method Join(h: int, ghost k: nat) returns (f: int)
      requires Tiled(blocks, begin, end) && Coalesced(blocks) && Stored(mem, blocks)
      requires k + 1 < |blocks| && h == blocks[k].addr && blocks[k].used
      modifies `mem, `blocks
      ensures blocks == Release(old(blocks), k) && Tiled(blocks, begin, end) && Stored(mem, blocks)
      ensures f == if k > 0 && !old(blocks)[k - 1].used then old(blocks)[k - 1].addr else h
      ensures Untouched(Live(old(blocks)), old(mem), mem)
    {
      hide Tiled, Coalesced, Stored, Live, Outside, Untouched;
      ghost var bs, m, live := blocks, mem, Live(blocks);
      ClearOutside(bs, begin, end, k);
      MarkTiled(bs, begin, end, k, false);
      StoredMark(mem, bs, begin, end, k, false);
      FlagUntouched(mem, live, h + USED);
      mem := mem[h + USED := 0];
      blocks := Mark(bs, k, false);
      ghost var m0 := mem;
      JoinNext(h, k, live);
      ghost var m1 := mem;
      f := JoinPrev(h, k, live);
      UntouchedTwice(live, m, m0, m1);
      UntouchedTwice(live, m, m1, mem);
    }

    /** The words a release of block k writes lie in headers. */
    lemma ClearOutside(bs: seq<Block>, b: int, e: int, k: nat)
      requires Tiled(bs, b, e) && k + 1 < |bs|
      ensures Outside(Live(bs), bs[k].addr + USED) && Outside(Live(bs), bs[k].addr + NEXT)
      ensures Outside(Live(bs), bs[k + 1].addr) && (k > 0 ==> Outside(Live(bs), bs[k - 1].addr + NEXT))
      ensures k + 2 < |bs| ==> Outside(Live(bs), bs[k + 2].addr)
    {
      hide Tiled, Outside, Live;
      HeaderOutside(bs, b, e, k, bs[k].addr + USED);
      HeaderOutside(bs, b, e, k, bs[k].addr + NEXT);
      HeaderOutside(bs, b, e, k + 1, bs[k + 1].addr);
      if k > 0 {
        HeaderOutside(bs, b, e, k - 1, bs[k - 1].addr + NEXT);
      }
      if k + 2 < |bs| {
        HeaderOutside(bs, b, e, k + 2, bs[k + 2].addr);
      }
    }

    /** The release itself, with the hint and the counter. */
    method Give(h: int, ghost k: nat)
      requires Valid() && k + 1 < |blocks| && h == blocks[k].addr && blocks[k].used && h in held
      modifies `mem, `hint, `used, `blocks, `low, `held
      ensures Valid() && Step(old(Abs()), Call.Free(h), Abs())
      ensures used == Minus(old(used), Room(old(blocks), k) + HEADER)
      ensures Untouched(Live(old(blocks)), old(mem), mem)
    {
      hide Tiled, Coalesced, HasFree, Matches, Stored, Live, Lowest, Untouched, Release, Minus, LowestAfterRelease;
      ghost var bs, lw := blocks, low;
      Walk(k);
      var size := mem[h + NEXT] - h;
      Inside(bs, begin, end, k);
      HintAfter(bs, begin, end, lw, k);
      ReleaseLowest(bs, lw, k);
      var f := Join(h, k);
      if f < hint {
        hint := f;
      }
      used := Minus(used, size);
      low := LowestAfterRelease(bs, lw, k);
      held := held - {h};
      FreeGood(old(Abs()), h, Abs(), begin, end);
    }

    /**
      free: null and addresses outside the heap are ignored; the kernel stops on a misaligned address and on a
      block that is not in use; otherwise the block is released and merged with its free neighbours.
     */
    method Free(p: int) returns (halted: bool)
      requires Valid()
      requires p == 0 || p <= begin || end <= p || p % ALIGNMENT != 0 ||
               exists k :: 0 <= k < |blocks| - 1 && blocks[k].addr == p - HEADER
      modifies `mem, `hint, `used, `blocks, `low, `held
      ensures p == 0 || p <= begin || end <= p ==> !halted && unchanged(this)
      ensures halted ==> unchanged(this)
      ensures begin < p < end ==> (halted <==> p % ALIGNMENT != 0 || p - HEADER !in old(held))
      ensures begin < p < end && !halted ==> Valid() && Step(old(Abs()), Call.Free(p - HEADER), Abs())
      ensures begin < p < end && !halted ==>
                exists k :: 0 <= k < |old(blocks)| - 1 && old(blocks)[k].addr == p - HEADER
                            && used == Minus(old(used), old(blocks)[k + 1].addr - old(blocks)[k].addr)
      ensures Untouched(Live(old(blocks)), old(mem), mem)
    {
      hide Tiled, Coalesced, HasFree, Matches, Stored, Live, Lowest, Untouched, Release, Minus;
      halted := false;
      if p == 0 || p <= begin || p >= end {
        return;
      }
      if p % ALIGNMENT != 0 {
        return true;
      }
      var h := p - HEADER;
      ghost var k: nat :| k + 1 < |blocks| && blocks[k].addr == h;
      Walk(k);
      HeldIffUsed(Abs(), begin, end, k);
      if mem[h + USED] != 1 {
        return true;
      }
      Give(h, k);
    }

    lemma GoodTiled(s: State, b: int, e: int)
      requires Good(s, b, e)
      ensures Tiled(s.blocks, b, e) && Coalesced(s.blocks)
    {
    }
  }

  /** The address a caller holds is never among those free ignores. */
  lemma HeldInside(s: State, begin: int, end: int, h: int)
    requires Good(s, begin, end) && h in s.held
    ensures begin < h + HEADER < end && h % ALIGNMENT == 0
    ensures exists k :: 0 <= k < |s.blocks| - 1 && s.blocks[k] == Block(h, true)
  {
    var p :| p in Live(s.blocks) && p.0 == h;
    var i :| 0 <= i < |s.blocks| - 1 && s.blocks[i].used && p == (s.blocks[i].addr, Room(s.blocks, i));
    if 0 < i {
      Ordered(s.blocks, begin, end, 0, i);
    }
    if i < |s.blocks| - 2 {
      Ordered(s.blocks, begin, end, i, |s.blocks| - 2);
    }
  }

  /** What malloc returns is large enough exactly when rounding the size up does not wrap. */
  lemma PayloadEnough(bs: seq<Block>, begin: int, end: int, k: nat, size: dword)
    requires Tiled(bs, begin, end) && Coalesced(bs) && 0 <= begin && end + HEADER <= WORD
    requires k + 1 < |bs| && Fits(bs, k, Rounded(size))
    ensures k + 1 < |Take(bs, k, Rounded(size))|
    ensures size <= Room(Take(bs, k, Rounded(size)), k) <==> size <= WORD - ALIGNMENT
  {
    hide Tiled, Coalesced, Take;
    TakeKeeps(bs, begin, end, k, Rounded(size));
    Inside(Take(bs, k, Rounded(size)), begin, end, k);
  }

  /** A request for 2^32 - 1 bytes gets a block without payload. */
  lemma WrappedRequest()
    ensures Rounded(WORD - 1) == 0
    ensures var bs := [Block(4, false), Block(400, true)];
            && Tiled(bs, 4, 400) && FirstFit(bs, 0, Rounded(WORD - 1)) == 0
            && Take(bs, 0, Rounded(WORD - 1)) == [Block(4, true), Block(16, false), Block(400, true)]
  {
    var bs := [Block(4, false), Block(400, true)];
    assert Fits(bs, 0, 0);
    assert Splits(bs, 0, 0);
  }

  /** A place is held by a caller exactly when it is in use. */
  lemma HeldIffUsed(s: State, begin: int, end: int, k: nat)
    requires Good(s, begin, end) && k + 1 < |s.blocks|
    ensures s.blocks[k].used <==> s.blocks[k].addr in s.held
  {
    var a := s.blocks[k].addr;
    if s.blocks[k].used {
      assert (a, Room(s.blocks, k)) in Live(s.blocks);
    } else {
      hide Tiled;
      FreeNotLive(s.blocks, begin, end, k);
    }
  }

  /** Comparing addresses finds the lowest free block after a release. */
  lemma HintAfter(bs: seq<Block>, begin: int, end: int, low: nat, k: nat)
    requires Tiled(bs, begin, end) && Lowest(bs, low) && k + 1 < |bs| && bs[k].used && low + 1 < |bs|
    ensures LowestAfterRelease(bs, low, k) + 1 < |Release(bs, k)|
    ensures var f := if k > 0 && !bs[k - 1].used then bs[k - 1].addr else bs[k].addr;
            Release(bs, k)[LowestAfterRelease(bs, low, k)].addr == if f < bs[low].addr then f else bs[low].addr
  {
    hide Tiled, Release;
    if low < k {
      ReleaseBefore(bs, begin, end, k, low);
      Ordered(bs, begin, end, low, k);
      if k > 0 && !bs[k - 1].used && low < k - 1 {
        Ordered(bs, begin, end, low, k - 1);
      }
    } else {
      ReleaseBefore(bs, begin, end, k, k);
      Ordered(bs, begin, end, k, low);
    }
  }

  /** A release keeps the blocks before it, and the block itself unless it is merged into the one before. */
  lemma ReleaseBefore(bs: seq<Block>, begin: int, end: int, k: nat, i: nat)
    requires Tiled(bs, begin, end) && k + 1 < |bs| && (i < k || (i == k && (k > 0 ==> bs[k - 1].used)))
    ensures i + 1 < |Release(bs, k)| && Release(bs, k)[i].addr == bs[i].addr
  {
    var a := Mark(bs, k, false);
    var b := MergeNext(a, k);
    assert k + 1 < |b|;
    assert b[i].addr == bs[i].addr;
  }

  lemma FlagUntouched(mem: Memory, live: set<(int, int)>, w: int)
    requires Outside(live, w)
    ensures Untouched(live, mem, mem[w := 0])
  {
  }

  /** Taking the lowest free block leaves the used blocks before it. */
  lemma LowestPrefix(bs: seq<Block>, low: nat, k: nat, n: nat)
    requires Lowest(bs, low) && k + 1 < |bs| && (low == k || bs[low].addr == bs[k].addr) && low <= k
    ensures low < |Take(bs, k, n)| && forall i :: 0 <= i < low ==> Take(bs, k, n)[i].used
    ensures Take(bs, k, n)[low].addr == bs[low].addr
  {
  }

  /** Blocks before the lowest free one do not fit. */
  lemma LowestFits(bs: seq<Block>, low: nat, n: nat)
    requires Lowest(bs, low)
    ensures low <= FirstFit(bs, 0, n)
  {
    HintLosesNothing(bs, low, 0, n);
  }

  /** A region from 0x2000 back to 0x1000 is taken for a heap of nearly 4 GiB whose end lies before its begin. */
  method BackwardRegion(h: Heap)
    modifies h
    ensures h.end < h.begin && h.total > 0xFFFF_0000 && !h.Valid()
  {
    hide LinkAfter, Stored, Good;
    h.Init(0x2000, 0x1000);
  }

  /** A region up to the last byte of memory, whose aligned end is 0, is a proper heap. */
  method TopRegion(h: Heap)
    modifies h
    ensures h.Valid() && h.begin == 0x1000 && h.end == WORD - HEADER
  {
    hide LinkAfter, Stored, Good;
    h.Init(0x1000, 0xFFFF_FFFF);
  }
}
