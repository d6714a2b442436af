/**
  The kernel heap seen as a list of blocks in address order: first fit with splitting, release with
  coalescing on both sides, and what every run of the two keeps.
 */
module HeapBlocks {
  import opened Basics

  /** sizeof(heap_mem_t), MALLOC_MIN_SIZE and the alignment of the ports. */
  const HEADER := 12
  const MIN_SIZE := 12
  const ALIGNMENT := 4

  datatype Block = Block(addr: int, used: bool)

  /** Blocks in address order, headers apart, from begin to the end marker, which counts as used; the last block has room. */
  predicate Tiled(bs: seq<Block>, begin: int, end: int) {
    && |bs| >= 2
    && bs[0].addr == begin && bs[|bs| - 1] == Block(end, true) && bs[|bs| - 2].addr + HEADER < end
    && (forall i :: 0 <= i < |bs| ==> bs[i].addr % ALIGNMENT == 0)
    && (forall i :: 0 <= i < |bs| - 1 ==> bs[i].addr + HEADER <= bs[i + 1].addr)
  }

  lemma {:induction false} Ordered(bs: seq<Block>, begin: int, end: int, i: nat, j: nat)
    requires Tiled(bs, begin, end) && i < j < |bs|
    ensures bs[i].addr + HEADER <= bs[j].addr
  {
    assert bs[j - 1].addr + HEADER <= bs[j - 1 + 1].addr;
    if i < j - 1 {
      Ordered(bs, begin, end, i, j - 1);
    }
  }

  /** No two neighbours are both free. */
  predicate Coalesced(bs: seq<Block>) {
    forall i :: 0 <= i < |bs| - 1 ==> bs[i].used || bs[i + 1].used
  }

  /** Block k is free and every block before it is used. */
  predicate Lowest(bs: seq<Block>, k: nat) {
    k < |bs| && !bs[k].used && forall i :: 0 <= i < k ==> bs[i].used
  }

  /** Bytes between a header and the next one. */
  function Room(bs: seq<Block>, k: nat): int
    requires k + 1 < |bs|
  {
    bs[k + 1].addr - bs[k].addr - HEADER
  }

  predicate Fits(bs: seq<Block>, k: nat, size: nat)
    requires k + 1 < |bs|
  {
    !bs[k].used && Room(bs, k) > size
  }

  /** The first block, from place k on, that is free and larger than the size; the place of the end marker if none is. */
  function FirstFit(bs: seq<Block>, k: nat, size: nat): (r: nat)
    requires k < |bs|
    ensures k <= r < |bs|
    ensures r + 1 < |bs| ==> Fits(bs, r, size)
    ensures forall i :: k <= i < r ==> !Fits(bs, i, size)
    decreases |bs| - k
  {
    if k + 1 == |bs| || Fits(bs, k, size) then k else FirstFit(bs, k + 1, size)
  }

  // ----- the edits -----

  function Mark(bs: seq<Block>, k: nat, used: bool): (r: seq<Block>)
    requires k < |bs|
  {
    bs[k := Block(bs[k].addr, used)]
  }

  function InsertAfter(bs: seq<Block>, k: nat, b: Block): (r: seq<Block>)
    requires k < |bs|
    ensures |r| == |bs| + 1
    ensures forall i :: 0 <= i < |r| ==> r[i] == if i <= k then bs[i] else if i == k + 1 then b else bs[i - 1]
  {
    bs[..k + 1] + [b] + bs[k + 1..]
  }

  lemma MarkTiled(bs: seq<Block>, begin: int, end: int, k: nat, used: bool)
    requires Tiled(bs, begin, end) && k + 1 < |bs|
    ensures Tiled(Mark(bs, k, used), begin, end)
  {
  }

  lemma InsertTiled(bs: seq<Block>, begin: int, end: int, k: nat, b: Block)
    requires Tiled(bs, begin, end) && k + 1 < |bs| && b.addr % ALIGNMENT == 0
    requires bs[k].addr + HEADER <= b.addr && b.addr + HEADER < bs[k + 1].addr
    ensures Tiled(InsertAfter(bs, k, b), begin, end)
  {
    var r := InsertAfter(bs, k, b);
    forall i | 0 <= i < |r| - 1
      ensures r[i].addr + HEADER <= r[i + 1].addr
    {
      if k + 1 < i {
        assert bs[i - 1].addr + HEADER <= bs[i - 1 + 1].addr;
      }
    }
  }

  lemma RemoveTiled(bs: seq<Block>, begin: int, end: int, k: nat)
    requires Tiled(bs, begin, end) && 0 < k && k + 1 < |bs|
    ensures Tiled(Without(bs, k), begin, end)
  {
    var r := Without(bs, k);
    forall i | 0 <= i < |r| - 1
      ensures r[i].addr + HEADER <= r[i + 1].addr
    {
      if k <= i {
        assert bs[i + 1].addr + HEADER <= bs[i + 1 + 1].addr;
      } else if i == k - 1 {
        assert bs[k - 1].addr + HEADER <= bs[k - 1 + 1].addr && bs[k].addr + HEADER <= bs[k + 1].addr;
      }
    }
  }

  // ----- malloc and free -----

  predicate Splits(bs: seq<Block>, k: nat, size: nat)
    requires k + 1 < |bs|
  {
    Room(bs, k) - size > HEADER + MIN_SIZE
  }

  /** Taking block k, split when enough is left for a block of the minimal size. */
  function Take(bs: seq<Block>, k: nat, size: nat): (r: seq<Block>)
    requires k + 1 < |bs|
  {
    Mark(if Splits(bs, k, size) then InsertAfter(bs, k, Block(bs[k].addr + size + HEADER, false)) else bs, k, true)
  }

  /** A free block after block k is merged into it. */
  function MergeNext(bs: seq<Block>, k: nat): (r: seq<Block>)
    requires k + 1 < |bs|
    ensures k < |r|
  {
    if !bs[k + 1].used then Without(bs, k + 1) else bs
  }

  /** Block k is merged into a free block before it. */
  function MergePrev(bs: seq<Block>, k: nat): (r: seq<Block>)
    requires k < |bs|
  {
    if k > 0 && !bs[k - 1].used then Without(bs, k) else bs
  }

  /** Releasing block k. */
  function Release(bs: seq<Block>, k: nat): (r: seq<Block>)
    requires k + 1 < |bs|
  {
    MergePrev(MergeNext(Mark(bs, k, false), k), k)
  }

  // ----- what the two keep -----

  lemma TakeKeeps(bs: seq<Block>, begin: int, end: int, k: nat, size: nat)
    requires Tiled(bs, begin, end) && Coalesced(bs) && k + 1 < |bs| && Fits(bs, k, size) && size % ALIGNMENT == 0
    ensures Tiled(Take(bs, k, size), begin, end) && Coalesced(Take(bs, k, size))
    ensures k + 1 < |Take(bs, k, size)| && Take(bs, k, size)[k] == Block(bs[k].addr, true)
    ensures size <= Room(Take(bs, k, size), k)
  {
    hide Tiled, Coalesced, Take;
    TakeTiled(bs, begin, end, k, size);
    TakeCoalesced(bs, k, size);
    TakenBlock(bs, k, size);
  }

  lemma TakeTiled(bs: seq<Block>, begin: int, end: int, k: nat, size: nat)
    requires Tiled(bs, begin, end) && k + 1 < |bs| && Fits(bs, k, size) && size % ALIGNMENT == 0
    ensures Tiled(Take(bs, k, size), begin, end)
  {
    hide Tiled, InsertAfter, Mark;
    if Splits(bs, k, size) {
      var b := Block(bs[k].addr + size + HEADER, false);
      TiledAligned(bs, begin, end, k);
      InsertTiled(bs, begin, end, k, b);
      MarkTiled(InsertAfter(bs, k, b), begin, end, k, true);
    } else {
      MarkTiled(bs, begin, end, k, true);
    }
  }

  lemma TiledAligned(bs: seq<Block>, begin: int, end: int, k: nat)
    requires Tiled(bs, begin, end) && k < |bs|
    ensures bs[k].addr % ALIGNMENT == 0
  {
  }

  lemma TakenBlock(bs: seq<Block>, k: nat, size: nat)
    requires k + 1 < |bs| && Fits(bs, k, size)
    ensures k + 1 < |Take(bs, k, size)| && Take(bs, k, size)[k] == Block(bs[k].addr, true)
    ensures size <= Room(Take(bs, k, size), k)
  {
  }

  // ----- what a request gets -----

  /** No free block has more bytes behind its header than asked for. */
  ghost predicate NoneLarger(bs: seq<Block>, size: nat) {
    forall i :: 0 <= i < |bs| - 1 && !bs[i].used ==> bs[i + 1].addr - bs[i].addr - 12 <= size
  }

  /** Block k is the first free one that is larger than the size. */
  ghost predicate FirstLarger(bs: seq<Block>, k: nat, size: nat) {
    && k + 1 < |bs| && !bs[k].used && bs[k + 1].addr - bs[k].addr - 12 > size
    && forall i :: 0 <= i < k && !bs[i].used ==> bs[i + 1].addr - bs[i].addr - 12 <= size
  }

  /**
    A request of this size was given block k: the whole of it if not more than 24 bytes are left, and exactly the size
    otherwise, with a free block right behind that has the rest; no other block changes.
   */
  ghost predicate GivenFrom(bs: seq<Block>, k: nat, size: nat, r: seq<Block>) {
    && k + 1 < |bs| && k + 1 < |r| && r[..k] == bs[..k] && r[k] == Block(bs[k].addr, true)
    && if bs[k + 1].addr - bs[k].addr - 12 <= size + 24 then r[k + 1..] == bs[k + 1..]
       else r[k + 1] == Block(bs[k].addr + 12 + size, false) && r[k + 2..] == bs[k + 1..]
  }

  /** Block k is the only free one, and a request of this size leaves no free block of it. */
  ghost predicate TakesLast(bs: seq<Block>, k: nat, size: nat) {
    && k + 1 < |bs| && bs[k + 1].addr - bs[k].addr - 12 <= size + 24
    && forall i :: 0 <= i < |bs| && i != k ==> bs[i].used
  }

  /** What the search finds. */
  lemma SearchMeans(bs: seq<Block>, size: nat)
    requires bs != []
    ensures var k := FirstFit(bs, 0, size); if k + 1 == |bs| then NoneLarger(bs, size) else FirstLarger(bs, k, size)
  {
    var k := FirstFit(bs, 0, size);
    forall i | 0 <= i < k && !bs[i].used
      ensures bs[i + 1].addr - bs[i].addr - 12 <= size
    {
      assert !Fits(bs, i, size);
    }
  }

  /** A request gets at least its size and at most 24 bytes more; what is beyond that stays free. */
  lemma TakeGives(bs: seq<Block>, k: nat, size: nat)
    requires FirstLarger(bs, k, size)
    ensures GivenFrom(bs, k, size, Take(bs, k, size))
    ensures var r := Take(bs, k, size); size <= r[k + 1].addr - r[k].addr - 12 <= size + 24
  {
    assert bs == bs[..k] + [bs[k]] + bs[k + 1..];
  }

  /** No free block is left exactly when the request takes the last one whole. */
  lemma TakeLeaves(bs: seq<Block>, k: nat, size: nat)
    requires FirstLarger(bs, k, size) && bs[|bs| - 1].used
    ensures HasFree(Take(bs, k, size)) <==> !TakesLast(bs, k, size)
  {
    hide Take;
    var r := Take(bs, k, size);
    TakeGives(bs, k, size);
    if bs[k + 1].addr - bs[k].addr - 12 <= size + 24 {
      assert forall i :: k < i < |bs| ==> r[i] == r[k + 1..][i - k - 1] == bs[k + 1..][i - k - 1] == bs[i];
      assert forall i :: 0 <= i < k ==> r[i] == r[..k][i] == bs[..k][i] == bs[i];
      assert |r| == |bs|;
      if !TakesLast(bs, k, size) {
        var i :| 0 <= i < |bs| && i != k && !bs[i].used;
        FreeLowest(r, i);
      }
    } else {
      FreeLowest(r, k + 1);
    }
  }

  /** Where a block is free there is a lowest free one. */
  lemma {:induction false} FreeLowest(bs: seq<Block>, i: nat)
    requires i < |bs| && !bs[i].used
    ensures HasFree(bs)
    decreases i
  {
    if !Lowest(bs, i) {
      var j :| 0 <= j < i && !bs[j].used;
      FreeLowest(bs, j);
    }
  }

  /** All of a request that was served: the first larger block, what was taken of it, and whether a free block is left. */
  ghost predicate Served(bs: seq<Block>, size: nat, r: seq<Block>, left: bool) {
    bs != [] &&
    var k := FirstFit(bs, 0, size);
    && FirstLarger(bs, k, size) && GivenFrom(bs, k, size, r) && r == Take(bs, k, size)
    && size <= r[k + 1].addr - r[k].addr - 12 <= size + 24
    && (left <==> !TakesLast(bs, k, size))
  }

  lemma TakeServes(bs: seq<Block>, size: nat)
    requires bs != [] && bs[|bs| - 1].used && FirstFit(bs, 0, size) + 1 < |bs|
    ensures !NoneLarger(bs, size)
    ensures var r := Take(bs, FirstFit(bs, 0, size), size); Served(bs, size, r, HasFree(r))
  {
    hide Take, FirstFit, HasFree;
    var k := FirstFit(bs, 0, size);
    SearchMeans(bs, size);
    TakeGives(bs, k, size);
    TakeLeaves(bs, k, size);
  }

  lemma TakeCoalesced(bs: seq<Block>, k: nat, size: nat)
    requires Coalesced(bs) && k + 1 < |bs| && !bs[k].used
    ensures Coalesced(Take(bs, k, size))
  {
    var r := Take(bs, k, size);
    assert bs[k].used || bs[k + 1].used;
    forall i | 0 <= i < |r| - 1
      ensures r[i].used || r[i + 1].used
    {
      if i < k {
        assert bs[i].used || bs[i + 1].used;
      } else if i > k {
        var j := i - (|r| - |bs|);
        assert j > k ==> bs[j].used || bs[j + 1].used;
      }
    }
  }

  lemma ReleaseKeeps(bs: seq<Block>, begin: int, end: int, k: nat)
    requires Tiled(bs, begin, end) && Coalesced(bs) && k + 1 < |bs| && bs[k].used
    ensures Tiled(Release(bs, k), begin, end) && Coalesced(Release(bs, k))
  {
    var a := Mark(bs, k, false);
    var b := MergeNext(a, k);
    MarkTiled(bs, begin, end, k, false);
    if !a[k + 1].used {
      RemoveTiled(a, begin, end, k + 1);
    }
    assert k + 1 < |b| && b[k + 1].used by {
      assert a[k + 1].used || (k + 2 < |bs| && (bs[k + 1].used || bs[k + 1 + 1].used));
    }
    MergedAfter(bs, k, b);
    if k > 0 && !b[k - 1].used {
      RemoveTiled(b, begin, end, k);
    }
  }

  /** Only the released block can have a free neighbour, and only before it. */
  lemma MergedAfter(bs: seq<Block>, k: nat, b: seq<Block>)
    requires Coalesced(bs) && k + 1 < |bs| && b == MergeNext(Mark(bs, k, false), k) && k + 1 < |b| && b[k + 1].used
    ensures forall i :: 0 <= i < |b| - 1 && i != k - 1 ==> b[i].used || b[i + 1].used
    ensures Coalesced(MergePrev(b, k))
  {
    forall i | 0 <= i < |b| - 1 && i != k - 1
      ensures b[i].used || b[i + 1].used
    {
      if i < k {
        assert bs[i].used || bs[i + 1].used;
      } else if i > k {
        assert bs[i].used || bs[i + 1].used;
        assert i + 2 < |bs| ==> bs[i + 1].used || bs[i + 1 + 1].used;
      }
    }
    var r := MergePrev(b, k);
    forall i | 0 <= i < |r| - 1
      ensures r[i].used || r[i + 1].used
    {
      if |r| < |b| {
        assert i >= k ==> b[i + 1].used || b[i + 1 + 1].used;
      }
    }
  }

  // ----- the hint -----

  /** Starting the search at the lowest free block finds the same block as starting at the first one. */
  lemma {:induction false} HintLosesNothing(bs: seq<Block>, low: nat, k: nat, size: nat)
    requires Lowest(bs, low) && k <= low
    ensures FirstFit(bs, k, size) == FirstFit(bs, low, size)
    decreases low - k
  {
    if k < low {
      HintLosesNothing(bs, low, k + 1, size);
    }
  }

  /** The lowest free block after a release. */
  function LowestAfterRelease(bs: seq<Block>, low: nat, k: nat): nat {
    if k > 0 && k - 1 < |bs| && !bs[k - 1].used then low else if k < low then k else low
  }

  lemma ReleaseLowest(bs: seq<Block>, low: nat, k: nat)
    requires Coalesced(bs) && Lowest(bs, low) && k + 1 < |bs| && bs[k].used && low + 1 < |bs|
    ensures Lowest(Release(bs, k), LowestAfterRelease(bs, low, k))
  {
    var a := Mark(bs, k, false);
    var b := MergeNext(a, k);
    assert forall i :: 0 <= i < k ==> b[i] == bs[i];
    assert b[k] == Block(bs[k].addr, false);
  }

  // ----- live blocks -----

  /** Address of the header and payload size of every block in use. */
  function Live(bs: seq<Block>): (s: set<(int, int)>) {
    set i | 0 <= i < |bs| - 1 && bs[i].used :: (bs[i].addr, Room(bs, i))
  }

  /** A malloc adds exactly one live block, no smaller than asked for, and changes no other. */
  lemma TakeLive(bs: seq<Block>, k: nat, size: nat)
    requires k + 1 < |bs| && Fits(bs, k, size)
    ensures k + 1 < |Take(bs, k, size)|
    ensures Live(Take(bs, k, size)) == Live(bs) + {(bs[k].addr, Room(Take(bs, k, size), k))}
  {
    hide Live, Take;
    TakeShape(bs, k, size);
    var r := Take(bs, k, size);
    forall p | p in Live(bs)
      ensures p in Live(r)
    {
      var i := LivePlace(bs, p);
      TakeMoves(bs, k, size, i);
      IsLive(r, if i < k then i else i + |r| - |bs|);
    }
    forall p | p in Live(r)
      ensures p in Live(bs) + {(bs[k].addr, Room(r, k))}
    {
      var i := LivePlace(r, p);
      if i != k {
        TakeMoves(bs, k, size, if i < k then i else i - (|r| - |bs|));
        IsLive(bs, if i < k then i else i - (|r| - |bs|));
      }
    }
    IsLive(r, k);
  }

  lemma IsLive(bs: seq<Block>, i: nat)
    requires i + 1 < |bs| && bs[i].used
    ensures (bs[i].addr, Room(bs, i)) in Live(bs)
  {
  }

  lemma LivePlace(bs: seq<Block>, p: (int, int)) returns (i: nat)
    requires p in Live(bs)
    ensures i + 1 < |bs| && bs[i].used && p == (bs[i].addr, Room(bs, i))
  {
    i :| 0 <= i < |bs| - 1 && bs[i].used && p == (bs[i].addr, Room(bs, i));
  }

  /** Where the blocks are after block k was taken. */
  lemma TakeShape(bs: seq<Block>, k: nat, size: nat)
    requires k + 1 < |bs|
    ensures var r := Take(bs, k, size);
            && |bs| <= |r| <= |bs| + 1 && r[k] == Block(bs[k].addr, true)
            && (|r| == |bs| + 1 ==> !r[k + 1].used)
  {
  }

  lemma TakeMoves(bs: seq<Block>, k: nat, size: nat, i: nat)
    requires k + 1 < |bs| && i + 1 < |bs| && i != k && |bs| <= |Take(bs, k, size)|
    ensures var r := Take(bs, k, size); var j := if i < k then i else i + |r| - |bs|;
            j + 1 < |r| && r[j] == bs[i] && Room(r, j) == Room(bs, i)
  {
  }

  /** A free removes exactly the block it was given. */
  lemma ReleaseLive(bs: seq<Block>, begin: int, end: int, k: nat)
    requires Tiled(bs, begin, end) && Coalesced(bs) && k + 1 < |bs| && bs[k].used
    ensures Live(Release(bs, k)) == Live(bs) - {(bs[k].addr, Room(bs, k))}
  {
    var b := MergeNext(Mark(bs, k, false), k);
    MergeNextLive(bs, begin, end, k);
    MergePrevLive(b, k);
  }

  lemma MergeNextLive(bs: seq<Block>, begin: int, end: int, k: nat)
    requires Tiled(bs, begin, end) && Coalesced(bs) && k + 1 < |bs| && bs[k].used
    ensures Live(MergeNext(Mark(bs, k, false), k)) == Live(bs) - {(bs[k].addr, Room(bs, k))}
  {
    hide Tiled, Coalesced, Live, MergeNext;
    var b := MergeNext(Mark(bs, k, false), k);
    JoinShape(Mark(bs, k, false), k);
    var d := |bs| - |b|;
    forall p | p in Live(bs) && p != (bs[k].addr, Room(bs, k))
      ensures p in Live(b)
    {
      var i := LivePlace(bs, p);
      JoinMoves(Mark(bs, k, false), k, i);
      IsLive(b, if i < k then i else i - d);
    }
    forall p | p in Live(b)
      ensures p in Live(bs) - {(bs[k].addr, Room(bs, k))}
    {
      var j := LivePlace(b, p);
      var i := if j < k then j else j + d;
      JoinMoves(Mark(bs, k, false), k, i);
      IsLive(bs, i);
      Distinct(bs, begin, end, i, k);
    }
  }

  lemma JoinShape(a: seq<Block>, k: nat)
    requires k + 1 < |a| && !a[k].used
    ensures var b := MergeNext(a, k); |a| - 1 <= |b| <= |a| && b[k] == a[k] && (|b| < |a| <==> !a[k + 1].used)
  {
  }

  /** Where the blocks are after the merge with the next block. */
  lemma JoinMoves(a: seq<Block>, k: nat, i: nat)
    requires k + 1 < |a| && i + 1 < |a| && i != k && (i == k + 1 ==> a[i].used)
    ensures var b := MergeNext(a, k); var j := if i < k then i else i - (|a| - |b|);
            0 <= j && j + 1 < |b| && b[j] == a[i] && Room(b, j) == Room(a, i)
  {
  }

  lemma MergePrevLive(b: seq<Block>, k: nat)
    requires k + 1 < |b| && !b[k].used
    ensures Live(MergePrev(b, k)) == Live(b)
  {
    if k > 0 && !b[k - 1].used {
      assert MergePrev(b, k) == MergeNext(b, k - 1);
      MergedLive(b, k - 1);
    }
  }

  /** Merging a free block into the free one before it changes no live block. */
  lemma MergedLive(a: seq<Block>, k: nat)
    requires k + 2 < |a| && !a[k].used && !a[k + 1].used
    ensures Live(MergeNext(a, k)) == Live(a)
  {
    hide Live, MergeNext;
    var b := MergeNext(a, k);
    JoinShape(a, k);
    var d := |a| - |b|;
    forall p | p in Live(a)
      ensures p in Live(b)
    {
      var i := LivePlace(a, p);
      JoinMoves(a, k, i);
      IsLive(b, if i < k then i else i - d);
    }
    forall p | p in Live(b)
      ensures p in Live(a)
    {
      var j := LivePlace(b, p);
      var i := if j < k then j else j + d;
      JoinMoves(a, k, i);
      IsLive(a, i);
    }
  }

  /** With no block in use the heap is one single free block. */
  lemma AllFree(bs: seq<Block>, begin: int, end: int)
    requires Tiled(bs, begin, end) && Coalesced(bs) && Live(bs) == {}
    ensures bs == [Block(begin, false), Block(end, true)]
  {
    assert forall i :: 0 <= i < |bs| - 1 && bs[i].used ==> (bs[i].addr, Room(bs, i)) in Live(bs);
    NeighbourUsed(bs, 0);
  }

  lemma NeighbourUsed(bs: seq<Block>, i: nat)
    requires Coalesced(bs) && i + 1 < |bs|
    ensures bs[i].used || bs[i + 1].used
  {
  }

  /** Payloads of different live blocks do not overlap, and lie inside the heap. */
  lemma LiveDisjoint(bs: seq<Block>, begin: int, end: int, p: (int, int), q: (int, int))
    requires Tiled(bs, begin, end) && p in Live(bs) && q in Live(bs) && p != q
    ensures begin <= p.0 && p.1 >= 0 && p.0 + HEADER + p.1 <= end
    ensures p.0 + HEADER + p.1 <= q.0 || q.0 + HEADER + q.1 <= p.0
  {
    hide Tiled;
    var i :| 0 <= i < |bs| - 1 && bs[i].used && p == (bs[i].addr, Room(bs, i));
    var j :| 0 <= j < |bs| - 1 && bs[j].used && q == (bs[j].addr, Room(bs, j));
    Inside(bs, begin, end, i);
    if i < j {
      Before(bs, begin, end, i, j);
    } else {
      Before(bs, begin, end, j, i);
    }
  }

  lemma Before(bs: seq<Block>, begin: int, end: int, i: nat, j: nat)
    requires Tiled(bs, begin, end) && i < j < |bs|
    ensures bs[i].addr + HEADER + Room(bs, i) <= bs[j].addr
  {
    if i + 1 < j {
      Ordered(bs, begin, end, i + 1, j);
    }
  }

  lemma Inside(bs: seq<Block>, begin: int, end: int, i: nat)
    requires Tiled(bs, begin, end) && i + 1 < |bs|
    ensures begin <= bs[i].addr && Room(bs, i) >= 0 && bs[i].addr + HEADER + Room(bs, i) <= end
  {
    if 0 < i {
      Ordered(bs, begin, end, 0, i);
    }
    Before(bs, begin, end, i, |bs| - 1);
  }

  lemma Distinct(bs: seq<Block>, begin: int, end: int, i: nat, j: nat)
    requires Tiled(bs, begin, end) && i < |bs| && j < |bs| && i != j
    ensures bs[i].addr != bs[j].addr
  {
    if i < j {
      Ordered(bs, begin, end, i, j);
    } else {
      Ordered(bs, begin, end, j, i);
    }
  }

  // ----- runs -----

  /** A call that returned: a block of the given size was taken, or the block at an address was given back. */
  datatype Call = Malloc(size: nat) | Free(addr: int)

  /** The heap, and what its callers hold: address of the header and size asked for. */
  datatype State = State(blocks: seq<Block>, held: map<int, nat>)

  ghost predicate HasFree(bs: seq<Block>) {
    exists k :: Lowest(bs, k)
  }

  /** One call: malloc takes the first fit and leaves a free block, free gets an address its caller holds. */
  ghost predicate Step(s: State, c: Call, s': State) {
    match c
    case Malloc(size) =>
      && 0 < |s.blocks| && size % ALIGNMENT == 0
      && var k := FirstFit(s.blocks, 0, size);
         && k + 1 < |s.blocks| && s'.blocks == Take(s.blocks, k, size) && HasFree(s'.blocks)
         && s'.held == s.held[s.blocks[k].addr := size]
    case Free(addr) =>
      && addr in s.held && s'.held == s.held - {addr}
      && exists k :: 0 <= k < |s.blocks| - 1 && s.blocks[k] == Block(addr, true) && s'.blocks == Release(s.blocks, k)
  }

  /** Callers hold exactly the live blocks, each at least as large as asked for. */
  ghost predicate Matches(live: set<(int, int)>, held: map<int, nat>) {
    && (forall p :: p in live ==> p.0 in held && held[p.0] <= p.1)
    && (forall a :: a in held ==> exists p :: p in live && p.0 == a)
  }

  lemma MatchesMore(live: set<(int, int)>, held: map<int, nat>, a: int, r: int, size: nat)
    requires Matches(live, held) && size <= r && forall p :: p in live ==> p.0 != a
    ensures Matches(live + {(a, r)}, held[a := size])
  {
    var more, held' := live + {(a, r)}, held[a := size];
    forall b | b in held'
      ensures exists p :: p in more && p.0 == b
    {
      if b == a {
        assert (a, r) in more;
      } else {
        var p :| p in live && p.0 == b;
        assert p in more;
      }
    }
  }

  lemma MatchesLess(live: set<(int, int)>, held: map<int, nat>, a: int, r: int)
    requires Matches(live, held) && forall p :: p in live && p.0 == a ==> p == (a, r)
    ensures Matches(live - {(a, r)}, held - {a})
  {
    var less := live - {(a, r)};
    forall b | b in held - {a}
      ensures exists p :: p in less && p.0 == b
    {
      var p :| p in live && p.0 == b;
      assert p in less;
    }
  }

  lemma MatchesNone(live: set<(int, int)>)
    requires Matches(live, map[])
    ensures live == {}
  {
  }

  ghost predicate Good(s: State, begin: int, end: int) {
    Tiled(s.blocks, begin, end) && Coalesced(s.blocks) && HasFree(s.blocks) && Matches(Live(s.blocks), s.held)
  }

  ghost predicate IsRun(states: seq<State>, calls: seq<Call>) {
    |states| == |calls| + 1 && forall i :: 0 <= i < |calls| ==> Step(states[i], calls[i], states[i + 1])
  }

  lemma MallocGood(s: State, size: nat, s': State, begin: int, end: int)
    requires Good(s, begin, end) && Step(s, Malloc(size), s')
    ensures Good(s', begin, end)
  {
    var k := FirstFit(s.blocks, 0, size);
    hide Tiled, Coalesced, Live, Take, FirstFit, HasFree, Matches;
    TakeKeeps(s.blocks, begin, end, k, size);
    TakeLive(s.blocks, k, size);
    FreeNotLive(s.blocks, begin, end, k);
    MatchesMore(Live(s.blocks), s.held, s.blocks[k].addr, Room(s'.blocks, k), size);
  }

  /** The address of a free block is not live. */
  lemma FreeNotLive(bs: seq<Block>, begin: int, end: int, k: nat)
    requires Tiled(bs, begin, end) && k + 1 < |bs| && !bs[k].used
    ensures forall p :: p in Live(bs) ==> p.0 != bs[k].addr
  {
    forall p | p in Live(bs)
      ensures p.0 != bs[k].addr
    {
      var i :| 0 <= i < |bs| - 1 && bs[i].used && p == (bs[i].addr, Room(bs, i));
      Distinct(bs, begin, end, i, k);
    }
  }

  lemma FreeGood(s: State, addr: int, s': State, begin: int, end: int)
    requires Good(s, begin, end) && Step(s, Free(addr), s')
    ensures Good(s', begin, end)
  {
    var k :| 0 <= k < |s.blocks| - 1 && s.blocks[k] == Block(addr, true) && s'.blocks == Release(s.blocks, k);
    var low :| Lowest(s.blocks, low);
    NotTheEnd(s.blocks, begin, end, low);
    hide Tiled, Coalesced, Live, Release, Lowest, Matches;
    ReleaseKeeps(s.blocks, begin, end, k);
    ReleaseLive(s.blocks, begin, end, k);
    ReleaseLowest(s.blocks, low, k);
    OneLive(s.blocks, begin, end, k);
    MatchesLess(Live(s.blocks), s.held, addr, Room(s.blocks, k));
    assert HasFree(s'.blocks);
  }

  lemma NotTheEnd(bs: seq<Block>, begin: int, end: int, low: nat)
    requires Tiled(bs, begin, end) && Lowest(bs, low)
    ensures low + 1 < |bs|
  {
  }

  /** A live address belongs to one live block only. */
  lemma OneLive(bs: seq<Block>, begin: int, end: int, k: nat)
    requires Tiled(bs, begin, end) && k + 1 < |bs| && bs[k].used
    ensures forall p :: p in Live(bs) && p.0 == bs[k].addr ==> p == (bs[k].addr, Room(bs, k))
  {
    forall p | p in Live(bs) && p.0 == bs[k].addr
      ensures p == (bs[k].addr, Room(bs, k))
    {
      var i :| 0 <= i < |bs| - 1 && bs[i].used && p == (bs[i].addr, Room(bs, i));
      if i != k {
        Distinct(bs, begin, end, i, k);
      }
    }
  }

  /**
    Through every run of malloc and free calls that return, the blocks tile the heap in address order
    with no two free neighbours, and the callers hold exactly the live blocks.
   */
  lemma {:induction false} RunGood(states: seq<State>, calls: seq<Call>, n: nat, begin: int, end: int)
    requires IsRun(states, calls) && n <= |calls| && Good(states[0], begin, end)
    ensures Good(states[n], begin, end)
  {
    if n > 0 {
      RunGood(states, calls, n - 1, begin, end);
      assert Step(states[n - 1], calls[n - 1], states[n - 1 + 1]);
      match calls[n - 1]
      case Malloc(size) => MallocGood(states[n - 1], size, states[n], begin, end);
      case Free(addr) => FreeGood(states[n - 1], addr, states[n], begin, end);
    }
  }

  /** Once every block was given back the heap is one single free block again. */
  lemma AllGivenBack(states: seq<State>, calls: seq<Call>, n: nat, begin: int, end: int)
    requires IsRun(states, calls) && n <= |calls| && Good(states[0], begin, end) && states[n].held == map[]
    ensures states[n].blocks == [Block(begin, false), Block(end, true)]
  {
    RunGood(states, calls, n, begin, end);
    MatchesNone(Live(states[n].blocks));
    AllFree(states[n].blocks, begin, end);
  }
}
