/**
  The cluster link map of fast seek: the table f_lseek(CREATE_LINKMAP) builds from a chain, and the
  lookup that replaces following the chain.
 */
module FatLinkMap {
  import opened Basics
  import opened FatWindow
  import opened FatTable
  import opened FatChains

  /** Length of the maximal run of consecutive cluster numbers that starts at place i of a chain. */
  function RunLen(ch: seq<nat>, i: nat): (k: nat)
    requires i < |ch|
    ensures 1 <= k <= |ch| - i
    ensures forall j :: i <= j < i + k ==> ch[j] == ch[i] + j - i
    ensures i + k < |ch| ==> ch[i + k] != ch[i + k - 1] + 1
    decreases |ch| - i
  {
    if i + 1 < |ch| && ch[i + 1] == ch[i] + 1 then 1 + RunLen(ch, i + 1) else 1
  }

  /** Length and first cluster of each fragment, from place i of the chain on. */
  function Fragments(ch: seq<nat>, i: nat): (t: seq<nat>)
    requires i <= |ch|
    decreases |ch| - i
  {
    if i == |ch| then [] else [RunLen(ch, i), ch[i]] + Fragments(ch, i + RunLen(ch, i))
  }

  /** Places where the next cluster is not the following one. */
  function Breaks(ch: seq<nat>, i: nat): (n: nat)
    requires i < |ch|
    decreases |ch| - i
  {
    if i + 1 == |ch| then 0 else (if ch[i + 1] == ch[i] + 1 then 0 else 1) + Breaks(ch, i + 1)
  }

  lemma {:induction false} BreaksInRun(ch: seq<nat>, i: nat, j: nat)
    requires i < |ch| && i <= j < i + RunLen(ch, i)
    ensures Breaks(ch, i) == Breaks(ch, j)
    decreases j
  {
    if i < j {
      BreaksInRun(ch, i, j - 1);
    }
  }

  /** The table has two items per maximal contiguous fragment. */
  lemma {:induction false} FragmentCount(ch: seq<nat>, i: nat)
    requires i < |ch|
    ensures |Fragments(ch, i)| == 2 + 2 * Breaks(ch, i)
    decreases |ch| - i
  {
    hide RunLen;
    var k := i + RunLen(ch, i);
    BreaksInRun(ch, i, k - 1);
    if k < |ch| {
      FragmentCount(ch, k);
    }
  }

  /** The lookup of clmt_clust in the items after the table size. */
  function Find(t: seq<nat>, cl: nat): (r: nat)
    decreases |t|
  {
    if |t| < 2 || t[0] == 0 then 0
    else if cl < t[0] then cl + t[1]
    else Find(t[2..], cl - t[0])
  }

  /** Looking up a cluster order in the table gives the cluster at that place of the chain, 0 past its end. */
  lemma {:induction false} FindAgrees(ch: seq<nat>, i: nat, cl: nat, rest: seq<nat>)
    requires i <= |ch|
    ensures Find(Fragments(ch, i) + [0] + rest, cl) == if i + cl < |ch| then ch[i + cl] else 0
    decreases |ch| - i
  {
    hide RunLen;
    var t := Fragments(ch, i) + [0] + rest;
    if i == |ch| {
      assert t[0] == 0;
    } else {
      var k := RunLen(ch, i);
      assert t == [k, ch[i]] + (Fragments(ch, i + k) + [0] + rest);
      assert t[2..] == Fragments(ch, i + k) + [0] + rest;
      if cl < k {
        assert ch[i + cl] == ch[i] + cl;
      } else {
        FindAgrees(ch, i + k, cl - k, rest);
      }
    }
  }

  /** The place in the chain an offset falls into. */
  function Place(csize: nat, ofs: nat): (r: nat)
    requires csize > 0
  {
    ofs / SS / csize
  }

  /** clmt_clust */
  method ClmtClust(tbl: array<nat>, csize: nat, ofs: dword) returns (r: int)
    requires tbl.Length > 0 && csize > 0
    requires exists e :: 1 <= e < tbl.Length && e % 2 == 1 && tbl[e] == 0
    ensures r == Find(tbl[1..], Place(csize, ofs))
  {
    ghost var e :| 1 <= e < tbl.Length && e % 2 == 1 && tbl[e] == 0;
    var p := 1;
    var cl := ofs / SS / csize;
    while true
      invariant 1 <= p <= e && p % 2 == 1 && 0 <= cl
      invariant Find(tbl[1..], Place(csize, ofs)) == Find(tbl[p..], cl)
      decreases e - p
    {
      var ncl := tbl[p];
      if ncl == 0 {
        return 0;
      }
      assert p < e;
      if cl < ncl {
        return cl + tbl[p + 1];
      }
      assert tbl[p..][2..] == tbl[p + 2..];
      cl := cl - ncl;
      p := p + 2;
    }
  }

  /** Where place j of a run leads. */
  lemma RunStep(f: seq<nat>, ch: seq<nat>, i: nat, j: nat)
    requires IsChain(f, ch) && i < |ch| && i <= j < i + RunLen(ch, i)
    ensures ch[j] == ch[i] + j - i < |f|
    ensures j + 1 < |ch| ==> f[ch[j]] == ch[j + 1] && (ch[j + 1] == ch[j] + 1 <==> j + 1 < i + RunLen(ch, i))
    ensures j + 1 == |ch| ==> f[ch[j]] >= |f| && i + RunLen(ch, i) == |ch|
  {
  }

  /** The end mark of the chain is the number after its last cluster: the walk runs off the FAT. */
  predicate EndsOnFatEdge(f: seq<nat>, ch: seq<nat>)
    requires IsChain(f, ch)
  {
    f[ch[|ch| - 1]] == ch[|ch| - 1] + 1
  }

  /** A volume of one cluster whose chain ends in the mark 3, which is also the number after that cluster. */
  lemma EdgeExample(f: seq<nat>)
    requires f == [0xFF8, 0xFFF, 3]
    ensures IsChain(f, [2]) && EndsOnFatEdge(f, [2])
  {
  }

  /** One fragment: clusters are followed while the next one is the following one. */
  method Fragment(fs: FatFs, first: dword, ghost ch: seq<nat>, ghost i: nat)
    returns (res: FResult, cl: dword, ncl: dword)
    requires fs.Valid() && IsChain(FatOf(fs), ch) && i < |ch| && ch[i] == first
    modifies fs`disk, fs`wflag, fs`faults, fs`winsect, fs.win
    ensures fs.Valid() && fs.View() == old(fs.View())
    ensures res == FR_OK ==> ncl == RunLen(ch, i)
    ensures res == FR_OK ==> cl == FatOf(fs)[ch[i + RunLen(ch, i) - 1]]
    ensures res == FR_OK && i + RunLen(ch, i) == |ch| ==> !EndsOnFatEdge(FatOf(fs), ch)
    ensures res == FR_INT_ERR ==> i + RunLen(ch, i) == |ch| && EndsOnFatEdge(FatOf(fs), ch)
    ensures res == FR_DISK_ERR ==> fs.faults > old(fs.faults)
    ensures res in {FR_OK, FR_DISK_ERR, FR_INT_ERR}
    ensures Kept(fs)
  {
    hide ViewOf, MirroredOf, Fat, Geometry.Fits, RunLen;
    ghost var f := FatOf(fs);
    RangeSmall(fs);
    cl := first;
    ncl := 0;
    ghost var j := i;
    while true
      invariant fs.Valid() && fs.View() == old(fs.View()) && Kept(fs)
      invariant i <= j <= |ch| && ncl == j - i <= |f|
      invariant j < |ch| ==> j < i + RunLen(ch, i) && cl == ch[j]
      invariant j == |ch| ==> i + RunLen(ch, i) == |ch| && EndsOnFatEdge(f, ch) && cl >= |f|
      decreases |ch| - j
    {
      if j < |ch| {
        RunStep(f, ch, i, j);
      }
      var pcl := cl;
      ncl := ncl + 1;
      cl := GetFat(fs, cl);
      if cl <= 1 {
        return FR_INT_ERR, cl, ncl;
      }
      if cl == BAD {
        return FR_DISK_ERR, cl, ncl;
      }
      if cl != pcl + 1 {
        break;
      }
      j := j + 1;
    }
    res := FR_OK;
  }

  /** The items a table of the given size can hold. */
  predicate Stores(tbl: seq<nat>, ch: seq<nat>) {
    |Fragments(ch, 0)| + 2 <= |tbl| && tbl[1..|Fragments(ch, 0)| + 2] == Fragments(ch, 0) + [0]
  }

  /**
    f_lseek(CREATE_LINKMAP): the reported size is always the size needed, the table is stored when it
    fits, and the walk fails exactly on a chain whose end mark follows its last cluster.
   */
  method CreateLinkMap(fs: FatFs, tbl: array<nat>, sclust: dword, ghost ch: seq<nat>) returns (res: FResult)
    requires fs.Valid()
    requires if sclust == 0 then ch == [] else IsChain(FatOf(fs), ch) && ch[0] == sclust
    requires tbl.Length > 0 && tbl[0] <= tbl.Length
    modifies fs`disk, fs`wflag, fs`faults, fs`winsect, fs.win, tbl
    ensures Kept(fs) && fs.View() == old(fs.View())
    ensures res == FR_INT_ERR ==> ch != [] && EndsOnFatEdge(FatOf(fs), ch)
    ensures ch != [] && EndsOnFatEdge(FatOf(fs), ch) ==> res in {FR_INT_ERR, FR_DISK_ERR}
    ensures res == FR_DISK_ERR ==> fs.faults > old(fs.faults)
    ensures res in {FR_OK, FR_NOT_ENOUGH_CORE} ==> tbl[0] == 2 + |Fragments(ch, 0)|
    ensures res == FR_OK ==> tbl[0] <= old(tbl[0]) && Stores(tbl[..], ch)
    ensures res == FR_NOT_ENOUGH_CORE ==> tbl[0] > old(tbl[0])
    ensures res in {FR_OK, FR_NOT_ENOUGH_CORE, FR_DISK_ERR, FR_INT_ERR}
  {
    hide ViewOf, MirroredOf, Fat, Geometry.Fits, RunLen, IsChain, Fragments, EndsOnFatEdge, Walking;
    ghost var f := FatOf(fs);
    RangeSmall(fs);
    var p, tlen, ulen := 1, tbl[0], 2;
    ghost var i: nat := 0;
    ghost var done: seq<nat> := [];
    var cl: dword := sclust;
    WalkStart(f, ch, sclust);
    while cl != 0 && cl < fs.geo.nFatent
      invariant fs.Valid() && fs.View() == old(fs.View()) && Kept(fs)
      invariant Walking(f, ch, i, cl, done) && ulen == 2 + |done|
      invariant tlen <= tbl.Length && 1 <= p && (ulen <= tlen ==> p == 1 + |done| && tbl[1..p] == done)
      decreases |ch| - i
    {
      var tcl := cl;
      ulen := ulen + 2;
      var ncl;
      WalkOpen(f, ch, i, cl, done);
      res, cl, ncl := Fragment(fs, cl, ch, i);
      if res != FR_OK {
        return;
      }
      WalkStep(f, ch, i, tcl, done, cl);
      if ulen <= tlen {
        StorePair(tbl, p, ncl, tcl);
        p := p + 2;
      }
      done := done + [ncl, tcl];
      i := i + ncl;
    }
    WalkEnd(f, ch, i, cl, done);
    res := CloseTable(tbl, p, tlen, ulen, done);
  }

  /** The walk stands at place i of the chain, with the items of all fragments before it done. */
  ghost predicate Walking(f: seq<nat>, ch: seq<nat>, i: nat, cl: nat, done: seq<nat>) {
    && (ch != [] ==> IsChain(f, ch))
    && i <= |ch|
    && (if i < |ch| then cl == ch[i] && 2 <= cl < |f| else cl == 0 || cl >= |f|)
    && (i == |ch| && ch != [] ==> !EndsOnFatEdge(f, ch))
    && done + Fragments(ch, i) == Fragments(ch, 0)
  }

  lemma WalkStart(f: seq<nat>, ch: seq<nat>, cl: nat)
    requires if cl == 0 then ch == [] else IsChain(f, ch) && ch[0] == cl
    ensures Walking(f, ch, 0, cl, [])
  {
    assert [] + Fragments(ch, 0) == Fragments(ch, 0);
  }

  lemma WalkOpen(f: seq<nat>, ch: seq<nat>, i: nat, cl: nat, done: seq<nat>)
    requires Walking(f, ch, i, cl, done) && cl != 0 && cl < |f|
    ensures IsChain(f, ch) && i < |ch| && ch[i] == cl
  {
  }

  lemma WalkStep(f: seq<nat>, ch: seq<nat>, i: nat, cl: nat, done: seq<nat>, next: nat)
    requires Walking(f, ch, i, cl, done) && cl != 0 && cl < |f| && i < |ch| && IsChain(f, ch)
    requires next == f[ch[i + RunLen(ch, i) - 1]]
    requires i + RunLen(ch, i) == |ch| ==> !EndsOnFatEdge(f, ch)
    ensures Walking(f, ch, i + RunLen(ch, i), next, done + [RunLen(ch, i), cl])
  {
    NextFragment(f, ch, i);
    var item := [RunLen(ch, i), cl];
    assert done + item + Fragments(ch, i + RunLen(ch, i)) == done + Fragments(ch, i);
  }

  lemma WalkEnd(f: seq<nat>, ch: seq<nat>, i: nat, cl: nat, done: seq<nat>)
    requires Walking(f, ch, i, cl, done) && (cl == 0 || cl >= |f|)
    ensures done == Fragments(ch, 0)
    ensures ch != [] ==> IsChain(f, ch) && !EndsOnFatEdge(f, ch)
  {
    NoFragments(ch);
  }

  /** Reports the size needed and ends the table when it fits. */
  method CloseTable(tbl: array<nat>, p: nat, tlen: nat, ulen: nat, ghost done: seq<nat>) returns (res: FResult)
    requires tbl.Length > 0 && tlen <= tbl.Length && ulen == 2 + |done|
    requires ulen <= tlen ==> p == 1 + |done| && tbl[1..p] == done
    modifies tbl
    ensures tbl[0] == ulen
    ensures res == if ulen <= tlen then FR_OK else FR_NOT_ENOUGH_CORE
    ensures res == FR_OK ==> |done| + 2 <= tbl.Length && tbl[..][1..|done| + 2] == done + [0]
  {
    tbl[0] := ulen;
    if ulen <= tlen {
      tbl[p] := 0;
      res := FR_OK;
      assert tbl[..][1..p + 1] == done + [0];
    } else {
      res := FR_NOT_ENOUGH_CORE;
    }
  }

  lemma NoFragments(ch: seq<nat>)
    ensures Fragments(ch, |ch|) == []
  {
  }

  method StorePair(tbl: array<nat>, p: nat, ncl: nat, tcl: nat)
    requires 1 <= p && p + 2 <= tbl.Length
    modifies tbl
    ensures tbl[0] == old(tbl[0]) && tbl[1..p + 2] == old(tbl[1..p]) + [ncl, tcl]
  {
    tbl[p] := ncl;
    tbl[p + 1] := tcl;
  }

  lemma NextFragment(f: seq<nat>, ch: seq<nat>, i: nat)
    requires IsChain(f, ch) && i < |ch|
    ensures i + RunLen(ch, i) <= |ch| && Fragments(ch, i) == [RunLen(ch, i), ch[i]] + Fragments(ch, i + RunLen(ch, i))
    ensures var j := i + RunLen(ch, i);
      2 <= ch[i] < |f| && if j < |ch| then f[ch[j - 1]] == ch[j] && 2 <= ch[j] < |f| else f[ch[j - 1]] >= |f|
  {
  }

  /** Fast seek agrees with the chain: a stored table finds every cluster of the chain and nothing past it. */
  lemma LinkMapAgrees(tbl: seq<nat>, ch: seq<nat>, k: nat)
    requires Stores(tbl, ch)
    ensures Find(tbl[1..], k) == if k < |ch| then ch[k] else 0
  {
    var m := |Fragments(ch, 0)|;
    assert tbl[1..] == Fragments(ch, 0) + [0] + tbl[m + 2..];
    FindAgrees(ch, 0, k, tbl[m + 2..]);
  }

  /** A stored table has its end mark at an odd place, where the walk of the lookup finds it. */
  lemma StoredEnds(tbl: seq<nat>, ch: seq<nat>)
    requires Stores(tbl, ch)
    ensures var e := 1 + |Fragments(ch, 0)|; e < |tbl| && e % 2 == 1 && tbl[e] == 0
  {
    if ch != [] {
      FragmentCount(ch, 0);
    }
    assert tbl[1..|Fragments(ch, 0)| + 2][|Fragments(ch, 0)|] == 0;
  }

  /** The map of a chain can be built and fits a table. */
  ghost predicate Mappable(f: seq<nat>, ch: seq<nat>, items: nat) {
    2 + |Fragments(ch, 0)| <= items && (ch != [] ==> IsChain(f, ch) && !EndsOnFatEdge(f, ch))
  }

  /** A seek with a map that was just built lands on the cluster of the chain at that place, and on 0 past its end. */
  method MapAndSeek(fs: FatFs, tbl: array<nat>, csize: nat, sclust: dword, ofs: dword, ghost ch: seq<nat>)
    returns (res: FResult, r: int)
    requires fs.Valid() && csize > 0
    requires if sclust == 0 then ch == [] else IsChain(FatOf(fs), ch) && ch[0] == sclust
    requires tbl.Length > 0 && tbl[0] <= tbl.Length
    modifies fs`disk, fs`wflag, fs`faults, fs`winsect, fs.win, tbl
    ensures Kept(fs) && fs.View() == old(fs.View())
    ensures res == FR_OK ==> r == if Place(csize, ofs) < |ch| then ch[Place(csize, ofs)] else 0
    ensures old(Mappable(FatOf(fs), ch, tbl[0])) && fs.faults == old(fs.faults) ==> res == FR_OK
  {
    hide ViewOf, MirroredOf, Fat, IsChain, Fragments, EndsOnFatEdge, Stores, Find, Place, Geometry.Fits;
    res := CreateLinkMap(fs, tbl, sclust, ch);
    r := 0;
    if res == FR_OK {
      StoredEnds(tbl[..], ch);
      ghost var e := 1 + |Fragments(ch, 0)|;
      assert tbl[e] == tbl[..][e];
      r := ClmtClust(tbl, csize, ofs);
      assert tbl[1..] == tbl[..][1..];
      LinkMapAgrees(tbl[..], ch, Place(csize, ofs));
    }
  }
}
