/**
  create_chain and remove_chain on a mounted volume, against chains over the plain FAT.
 */
module FatAlloc {
  import opened Basics
  import opened FatWindow
  import opened FatTable
  import opened FatChains

  /** Place of a cluster in the search that starts after scl and wraps around to scl. */
  function Turn(scl: nat, n: nat, c: nat): int {
    if c > scl then c - scl else n - scl + c
  }

  /** Where a search for a free cluster starts. */
  function SearchStart(last: nat, n: nat, clst: nat): nat {
    if clst != 0 then clst else if last == 0 || last >= n then 1 else last
  }

  /** The first entry below 2 that a search meets is that of c. */
  ghost predicate FirstMet(f: seq<nat>, scl: nat, c: nat) {
    2 <= c < |f| && f[c] < 2 && forall d :: 2 <= d < |f| && Turn(scl, |f|, d) < Turn(scl, |f|, c) ==> f[d] > 1
  }

  /** The cached count, when it claims to be known, is the number of free clusters. */
  ghost predicate Counted(fs: FatFs)
    requires fs.Valid()
    reads fs`disk, fs`winsect, fs`wflag, fs`freeClust, fs.win
  {
    fs.freeClust != BAD ==> fs.freeClust == FreeCount(FatOf(fs))
  }

  /** The search of create_chain. */
  method FindFree(fs: FatFs, scl: dword) returns (r: dword)
    requires fs.Valid() && 1 <= scl < fs.geo.nFatent
    modifies fs`disk, fs`wflag, fs`faults, fs`winsect, fs.win
    ensures fs.Valid() && fs.View() == old(fs.View())
    ensures r == BAD ==> fs.faults > old(fs.faults)
    ensures r == 0 ==> forall c :: 2 <= c < fs.geo.nFatent ==> FatOf(fs)[c] > 1
    ensures r == 1 ==> exists c: nat :: FirstMet(FatOf(fs), scl, c) && FatOf(fs)[c] == 1
    ensures 2 <= r < BAD ==> FirstMet(FatOf(fs), scl, r) && FatOf(fs)[r] == 0
    ensures Kept(fs)
  {
    hide ViewOf, MirroredOf, Fat, Geometry.Fits;
    assert fs.geo.nFatent < BAD by { RangeSmall(fs); }
    ghost var f, n := FatOf(fs), fs.geo.nFatent;
    var ncl := scl;
    ghost var turn := 0;
    while true
      invariant fs.Valid() && fs.View() == old(fs.View())
      invariant Kept(fs)
      invariant 1 <= ncl < n && 0 <= turn < n
      invariant ncl == scl ==> turn == 0
      invariant ncl != scl ==> turn == Turn(scl, n, ncl) && ncl >= 2
      invariant forall c :: 2 <= c < n && Turn(scl, n, c) <= turn ==> f[c] > 1
      decreases n - turn
    {
      ncl := ncl + 1;
      if ncl >= fs.geo.nFatent {
        ncl := 2;
        if ncl > scl {
          return 0;
        }
      }
      var cs := GetFat(fs, ncl);
      if cs == 0 {
        break;
      }
      if cs == BAD || cs == 1 {
        assert cs == 1 ==> FirstMet(f, scl, ncl);
        return cs;
      }
      if ncl == scl {
        return 0;
      }
      turn := Turn(scl, n, ncl);
    }
    r := ncl;
  }

  /** What create_chain answered and did, given the FAT it found. */
  ghost predicate Created(f: seq<nat>, f': seq<nat>, scl: nat, clst: nat, r: nat, eoc: nat)
  {
    && |f'| == |f|
    && (clst != 0 && (clst < 2 || clst >= |f| || f[clst] < 2) ==> r == 1 && f' == f)
    && (clst != 0 && 2 <= clst < |f| && 2 <= f[clst] < |f| ==> r == f[clst] && f' == f)
    && (clst == 0 || (2 <= clst < |f| && f[clst] >= |f|) ==> Allocated(f, f', scl, clst, r, eoc))
  }

  /** The search part: a full turn without a free cluster, a bad entry on the way, or the next free cluster. */
  ghost predicate Allocated(f: seq<nat>, f': seq<nat>, scl: nat, clst: nat, r: nat, eoc: nat)
    requires |f| == |f'| && (clst == 0 || clst < |f|)
  {
    && (r == 0 ==> f' == f && forall c :: 2 <= c < |f| ==> f[c] > 1)
    && (r == 1 ==> f' == f && exists c: nat :: FirstMet(f, scl, c) && f[c] == 1)
    && (r >= 2 ==> FirstMet(f, scl, r) && f[r] == 0)
    && (r >= 2 ==> f' == if clst == 0 then f[r := eoc] else f[r := eoc][clst := r])
  }

  /** create_chain */
  method CreateChain(fs: FatFs, clst: dword) returns (r: dword)
    requires fs.Valid()
    modifies fs`disk, fs`wflag, fs`faults, fs`winsect, fs.win, fs`lastClust, fs`freeClust, fs`fsiDirty
    ensures fs.Valid() && RestOf(fs) == old(RestOf(fs))
    ensures r == BAD ==> fs.faults > old(fs.faults)
    ensures r == BAD ==> forall c :: 0 <= c < fs.geo.nFatent && c != clst && old(FatOf(fs))[c] != 0 ==> FatOf(fs)[c] == old(FatOf(fs))[c]
    ensures r != BAD ==> Created(old(FatOf(fs)), FatOf(fs), SearchStart(old(fs.lastClust), fs.geo.nFatent, clst), clst, r, fs.geo.fatType.Range() - 1)
    ensures r != BAD && old(Counted(fs)) ==> Counted(fs)
    ensures r != BAD && FatOf(fs) != old(FatOf(fs)) ==> fs.lastClust == r
    ensures Kept(fs)
  {
    hide ViewOf, MirroredOf, Fat, Geometry.Fits, Rest, Turn, FreeCount;
    RangeSmall(fs);
    ghost var f := FatOf(fs);
    var scl: dword;
    if clst == 0 {
      scl := fs.lastClust;
      if scl == 0 || scl >= fs.geo.nFatent {
        scl := 1;
      }
    } else {
      var cs := GetFat(fs, clst);
      if cs < 2 {
        return 1;
      }
      if cs == BAD {
        return cs;
      }
      if cs < fs.geo.nFatent {
        return cs;
      }
      scl := clst;
    }
    r := FindFree(fs, scl);
    if r < 2 || r == BAD {
      return;
    }
    r := Link(fs, clst, r);
  }

  /** The part of create_chain that follows a successful search. */
  method Link(fs: FatFs, clst: dword, ncl: dword) returns (r: dword)
    requires fs.Valid() && 2 <= ncl < fs.geo.nFatent && FatOf(fs)[ncl] == 0
    requires clst == 0 || (2 <= clst < fs.geo.nFatent && FatOf(fs)[clst] != 0)
    modifies fs`disk, fs`wflag, fs`faults, fs`winsect, fs.win, fs`lastClust, fs`freeClust, fs`fsiDirty
    ensures fs.Valid() && RestOf(fs) == old(RestOf(fs))
    ensures r == ncl || r == BAD
    ensures r == BAD ==> fs.faults > old(fs.faults)
    ensures forall c :: 0 <= c < fs.geo.nFatent && c != clst && old(FatOf(fs))[c] != 0 ==> FatOf(fs)[c] == old(FatOf(fs))[c]
    ensures r == ncl ==> fs.lastClust == ncl
    ensures r == ncl ==> var f := old(FatOf(fs))[ncl := fs.geo.fatType.Range() - 1];
      FatOf(fs) == if clst == 0 then f else f[clst := ncl]
    ensures r == ncl && old(Counted(fs)) ==> Counted(fs)
    ensures Kept(fs)
  {
    hide ViewOf, MirroredOf, Fat, Geometry.Fits, Rest, FreeCount;
    RangeSmall(fs);
    ghost var f, eoc := FatOf(fs), fs.geo.fatType.Range() - 1;
    r := ncl;
    var res := PutFat(fs, ncl, EOC);
    if res == FR_OK && clst != 0 {
      res := PutFat(fs, clst, ncl);
    }
    if res == FR_OK {
      fs.lastClust := ncl;
      if fs.freeClust != BAD {
        fs.freeClust := Sub32(fs.freeClust, 1);
        fs.fsiDirty := true;
      }
      FreeCountUpdate(f, ncl, eoc);
      if clst != 0 {
        FreeCountUpdate(f[ncl := eoc], clst, ncl);
      }
    } else {
      r := BAD;  // both cluster numbers are in range, so the device failed
    }
  }

  /** One round of remove_chain: the cluster is marked empty and counted. */
  method FreeEntry(fs: FatFs, clst: dword) returns (res: FResult)
    requires fs.Valid() && 2 <= clst < fs.geo.nFatent && FatOf(fs)[clst] != 0
    modifies fs`disk, fs`wflag, fs`faults, fs`winsect, fs.win, fs`freeClust, fs`fsiDirty
    ensures fs.Valid() && RestOf(fs) == old(RestOf(fs))
    ensures res == FR_OK ==> FatOf(fs) == old(FatOf(fs))[clst := 0] && Zeros(FatOf(fs)) == old(Zeros(FatOf(fs))) + 1
    ensures res == FR_OK && old(Counted(fs)) ==> Counted(fs)
    ensures res != FR_OK ==> res == FR_DISK_ERR && fs.faults > old(fs.faults)
    ensures forall c :: 0 <= c < fs.geo.nFatent && c != clst ==> FatOf(fs)[c] == old(FatOf(fs))[c]
    ensures Kept(fs)
  {
    hide ViewOf, MirroredOf, Fat, Geometry.Fits, Rest, FreeCount, Zeros;
    RangeSmall(fs);
    ghost var f := FatOf(fs);
    res := PutFat(fs, clst, 0);
    if res == FR_OK {
      ZerosUpdate(f, clst, 0);
      FreeCountUpdate(f, clst, 0);
      FreeCountBound(f[clst := 0]);
      if fs.freeClust != BAD {
        fs.freeClust := (fs.freeClust + 1) % 0x1_0000_0000;
        fs.fsiDirty := true;
      }
    }
  }

  /** remove_chain: it stops on every FAT, cyclic ones included. */
  method RemoveChain(fs: FatFs, first: dword) returns (res: FResult)
    requires fs.Valid()
    modifies fs`disk, fs`wflag, fs`faults, fs`winsect, fs.win, fs`freeClust, fs`fsiDirty
    ensures fs.Valid() && RestOf(fs) == old(RestOf(fs))
    ensures !(2 <= first < fs.geo.nFatent) ==> res == FR_INT_ERR && FatOf(fs) == old(FatOf(fs))
    ensures 2 <= first < fs.geo.nFatent && res != FR_DISK_ERR ==>
      Remove(old(FatOf(fs)), first) == Removal(FatOf(fs), res == FR_OK)
    ensures res == FR_DISK_ERR ==> fs.faults > old(fs.faults)
    ensures res == FR_DISK_ERR ==> forall c :: 0 <= c < fs.geo.nFatent && old(FatOf(fs))[c] == 0 ==> FatOf(fs)[c] == 0
    ensures res in {FR_OK, FR_INT_ERR, FR_DISK_ERR}
    ensures res != FR_DISK_ERR && old(Counted(fs)) ==> Counted(fs)
    ensures Kept(fs)
  {
    hide ViewOf, MirroredOf, Fat, Geometry.Fits, Rest, FreeCount, Zeros;
    RangeSmall(fs);
    if first < 2 || first >= fs.geo.nFatent {
      return FR_INT_ERR;
    }
    res := FR_OK;
    var clst := first;
    while clst < fs.geo.nFatent
      invariant fs.Valid() && RestOf(fs) == old(RestOf(fs)) && clst >= 2 && res == FR_OK
      invariant Remove(old(FatOf(fs)), first) == Remove(FatOf(fs), clst)
      invariant forall c :: 0 <= c < fs.geo.nFatent && old(FatOf(fs))[c] == 0 ==> FatOf(fs)[c] == 0
      invariant old(Counted(fs)) ==> Counted(fs)
      invariant Kept(fs)
      decreases fs.geo.nFatent - Zeros(FatOf(fs))
    {
      var nxt := GetFat(fs, clst);
      if nxt == 0 {
        break;
      }
      if nxt == 1 {
        res := FR_INT_ERR;
        break;
      }
      if nxt == BAD {
        res := FR_DISK_ERR;
        break;
      }
      res := FreeEntry(fs, clst);
      if res != FR_OK {
        break;
      }
      clst := nxt;
    }
  }

  lemma FreeCountBound(f: seq<nat>)
    requires |f| >= 2
    ensures FreeCount(f) <= |f| - 2
  {
  }

  // ----- what the calls do to the chains of a volume -----

  /** A create_chain that changed the FAT is a new chain, or a cluster more on the chain it was asked to stretch. */
  lemma CreatedChange(v: Volume, f': seq<nat>, scl: nat, clst: nat, r: nat, eoc: nat, k: nat) returns (ch: Change)
    requires v.Ok() && |v.fat| <= eoc && Created(v.fat, f', scl, clst, r, eoc) && f' != v.fat
    requires Asked(v, clst, k)
    ensures ch == if clst == 0 then Create(r, eoc) else Stretch(k, r, eoc)
    ensures Enabled(v, ch) && Apply(v, ch).fat == f'
  {
    ch := if clst == 0 then Create(r, eoc) else Stretch(k, r, eoc);
    if clst != 0 {
      ChainAt(v, k);
      OnlyLastEnds(v.fat, v.chains[k], clst);
    }
  }

  /** It changed the FAT exactly when it gave a cluster to a new chain or behind the end of one. */
  lemma CreatedChanges(v: Volume, f': seq<nat>, scl: nat, clst: nat, r: nat, eoc: nat, k: nat)
    requires v.Ok() && |v.fat| <= eoc && Created(v.fat, f', scl, clst, r, eoc) && Asked(v, clst, k)
    ensures f' != v.fat <==> r >= 2 && (clst == 0 || clst == v.chains[k][|v.chains[k]| - 1])
  {
    if clst != 0 {
      ChainAt(v, k);
      OnlyLastEnds(v.fat, v.chains[k], clst);
      LastUsed(v.fat, v.chains[k]);
    }
  }

  /** The only cluster of a chain without a successor is the last. */
  lemma OnlyLastEnds(f: seq<nat>, ch: seq<nat>, c: nat)
    requires IsChain(f, ch) && c in ch
    ensures 2 <= c < |f| && f[c] >= 2 && (f[c] >= |f| ==> c == ch[|ch| - 1])
  {
    var i :| 0 <= i < |ch| && ch[i] == c;
    assert i < |ch| - 1 ==> f[ch[i]] == ch[i + 1];
  }

  /** A chain of a volume, or none for a new chain. */
  ghost predicate Asked(v: Volume, clst: nat, k: nat) {
    clst == 0 || (k < |v.chains| && clst in v.chains[k])
  }

  /** create_chain on a volume with its chains: they stay acyclic, disjoint and ended, and no cluster gets lost. */
  method CreateOn(fs: FatFs, clst: dword, ghost v: Volume, ghost k: nat) returns (r: dword, ghost v': Volume)
    requires fs.Valid() && v.Ok() && v.fat == FatOf(fs) && Asked(v, clst, k)
    modifies fs`disk, fs`wflag, fs`faults, fs`winsect, fs.win, fs`lastClust, fs`freeClust, fs`fsiDirty
    ensures fs.Valid() && RestOf(fs) == old(RestOf(fs)) && Kept(fs)
    ensures r == BAD ==> fs.faults > old(fs.faults)
    ensures r != BAD ==> v'.Ok() && v'.fat == FatOf(fs) && Balance(v'.fat, v'.chains) == Balance(v.fat, v.chains)
    ensures r != BAD && old(Counted(fs)) ==> Counted(fs)
    ensures r < 2 ==> v' == v
    ensures 2 <= r < BAD && (clst == 0 || clst == v.chains[k][|v.chains[k]| - 1]) ==> v' != v
    ensures r != BAD && v' != v ==> v'.chains == if clst == 0 then v.chains + [[r]] else v.chains[k := v.chains[k] + [r]]
  {
    hide ViewOf, MirroredOf, Fat, Geometry.Fits, Rest, FreeCount, Clusters, WellFormed, Created;
    RangeSmall(fs);
    v' := v;
    ghost var scl, eoc := SearchStart(fs.lastClust, fs.geo.nFatent, clst), fs.geo.fatType.Range() - 1;
    r := CreateChain(fs, clst);
    if r != BAD {
      CreatedChanges(v, FatOf(fs), scl, clst, r, eoc, k);
    }
    if r != BAD && FatOf(fs) != v.fat {
      ghost var ch := CreatedChange(v, FatOf(fs), scl, clst, r, eoc, k);
      v' := Apply(v, ch);
      if clst == 0 {
        CreateKeeps(v, r, eoc);
      } else {
        StretchKeeps(v, k, r, eoc);
      }
    }
  }

  /** remove_chain on a volume with its chains: exactly that chain is gone. */
  method RemoveOn(fs: FatFs, first: dword, ghost v: Volume, ghost k: nat) returns (res: FResult, ghost v': Volume)
    requires fs.Valid() && v.Ok() && v.fat == FatOf(fs) && k < |v.chains| && v.chains[k] != [] && first == v.chains[k][0]
    modifies fs`disk, fs`wflag, fs`faults, fs`winsect, fs.win, fs`freeClust, fs`fsiDirty
    ensures fs.Valid() && RestOf(fs) == old(RestOf(fs)) && Kept(fs)
    ensures res != FR_OK ==> res == FR_DISK_ERR && fs.faults > old(fs.faults)
    ensures res == FR_OK ==> v'.Ok() && v'.fat == FatOf(fs) && Balance(v'.fat, v'.chains) == Balance(v.fat, v.chains)
    ensures res == FR_OK ==> v'.chains == Without(v.chains, k) && (old(Counted(fs)) ==> Counted(fs))
  {
    hide ViewOf, MirroredOf, Fat, Geometry.Fits, Rest, FreeCount, Clusters, Remove, WellFormed;
    ChainAt(v, k);
    FirstInside(v.fat, v.chains[k]);
    RemoveChainExact(v.fat, v.chains[k]);
    ReleaseKeeps(v, k);
    v' := Apply(v, Release(k));
    res := RemoveChain(fs, first);
  }

  lemma FirstInside(f: seq<nat>, ch: seq<nat>)
    requires IsChain(f, ch)
    ensures 2 <= ch[0] < |f|
  {
  }

  /** A new chain, a cluster more on chain k, or the end of chain k. */
  datatype Request = New | More(k: nat) | Drop(k: nat)

  /** The first and the last cluster of every chain. */
  ghost predicate Ends(chains: seq<seq<nat>>, heads: seq<dword>, tails: seq<dword>) {
    && |heads| == |tails| == |chains|
    && forall i :: 0 <= i < |chains| ==> chains[i] != [] && heads[i] == chains[i][0] && tails[i] == chains[i][|chains[i]| - 1]
  }

  lemma EndsWithout(chains: seq<seq<nat>>, heads: seq<dword>, tails: seq<dword>, k: nat)
    requires Ends(chains, heads, tails) && k < |chains|
    ensures Ends(Without(chains, k), Without(heads, k), Without(tails, k))
  {
  }

  lemma EndsMore(chains: seq<seq<nat>>, heads: seq<dword>, tails: seq<dword>, r: dword)
    requires Ends(chains, heads, tails)
    ensures Ends(chains + [[r]], heads + [r], tails + [r])
    ensures forall k :: 0 <= k < |chains| ==> Ends(chains[k := chains[k] + [r]], heads, tails[k := r])
  {
  }

  /**
    Any run of requests, until the device fails: all chains stay acyclic, disjoint and ended, free clusters plus chained
    clusters stay the same number, and a count of free clusters that was right stays right.
   */
  method Serve(fs: FatFs, heads: seq<dword>, tails: seq<dword>, requests: seq<Request>, ghost v: Volume)
    returns (ok: bool, ghost v': Volume)
    requires fs.Valid() && v.Ok() && v.fat == FatOf(fs) && Ends(v.chains, heads, tails)
    modifies fs`disk, fs`wflag, fs`faults, fs`winsect, fs.win, fs`lastClust, fs`freeClust, fs`fsiDirty
    ensures fs.Valid() && RestOf(fs) == old(RestOf(fs)) && Kept(fs)
    ensures !ok ==> fs.faults > old(fs.faults)
    ensures ok ==> v'.Ok() && v'.fat == FatOf(fs) && Balance(v'.fat, v'.chains) == Balance(v.fat, v.chains)
    ensures ok && old(Counted(fs)) ==> Counted(fs)
  {
    hide ViewOf, MirroredOf, Fat, Geometry.Fits, Rest, FreeCount, Clusters, Separate, IsChain, Ends, Balance;
    ok, v' := true, v;
    var first, last := heads, tails;
    for i := 0 to |requests|
      invariant fs.Valid() && RestOf(fs) == old(RestOf(fs)) && Kept(fs) && (old(Counted(fs)) ==> Counted(fs))
      invariant v'.Ok() && v'.fat == FatOf(fs) && Balance(v'.fat, v'.chains) == Balance(v.fat, v.chains)
      invariant Ends(v'.chains, first, last)
    {
      ok, first, last, v' := ServeOne(fs, first, last, requests[i], v');
      if !ok {
        return;
      }
    }
  }

  method ServeOne(fs: FatFs, heads: seq<dword>, tails: seq<dword>, q: Request, ghost v: Volume)
    returns (ok: bool, heads': seq<dword>, tails': seq<dword>, ghost v': Volume)
    requires fs.Valid() && v.Ok() && v.fat == FatOf(fs) && Ends(v.chains, heads, tails)
    modifies fs`disk, fs`wflag, fs`faults, fs`winsect, fs.win, fs`lastClust, fs`freeClust, fs`fsiDirty
    ensures fs.Valid() && RestOf(fs) == old(RestOf(fs)) && Kept(fs)
    ensures !ok ==> fs.faults > old(fs.faults)
    ensures ok ==> v'.Ok() && v'.fat == FatOf(fs) && Balance(v'.fat, v'.chains) == Balance(v.fat, v.chains)
    ensures ok ==> Ends(v'.chains, heads', tails') && (old(Counted(fs)) ==> Counted(fs))
  {
    hide ViewOf, MirroredOf, Fat, Geometry.Fits, Rest, FreeCount, Clusters, WellFormed, Balance, Without;
    ok, heads', tails', v' := true, heads, tails, v;
    if q.Drop? {
      if q.k < |heads| {
        var res;
        EndsWithout(v.chains, heads, tails, q.k);
        res, v' := RemoveOn(fs, heads[q.k], v, q.k);
        ok := res == FR_OK;
        heads', tails' := Without(heads, q.k), Without(tails, q.k);
      }
    } else if q.New? || q.k < |tails| {
      if q.More? {
        ChainAt(v, q.k);
        LastUsed(v.fat, v.chains[q.k]);
      }
      var clst: dword := if q.New? then 0 else tails[q.k];
      var r;
      r, v' := CreateOn(fs, clst, v, if q.New? then 0 else q.k);
      ok := r != BAD;
      if ok && r >= 2 {
        EndsMore(v.chains, heads, tails, r);
        heads', tails' := if q.New? then heads + [r] else heads, if q.New? then tails + [r] else tails[q.k := r];
      }
    }
  }
}
