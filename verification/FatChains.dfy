/**
  Cluster chains over a plain FAT (one number per cluster): allocation, release, and what every run
  of the two keeps.
 */
module FatChains {
  import opened Basics

  const EOC := 0x0FFF_FFFF

  // ----- counting free clusters -----

  function Zeros(s: seq<nat>): (n: nat)
    ensures n <= |s|
  {
    if s == [] then 0 else Zeros(s[..|s| - 1]) + if s[|s| - 1] == 0 then 1 else 0
  }

  /** Number of free clusters: entries 0 and 1 are reserved. */
  function FreeCount(f: seq<nat>): (n: nat)
    requires |f| >= 2
  {
    Zeros(f[2..])
  }

  lemma {:induction false} ZerosUpdate(s: seq<nat>, i: nat, x: nat)
    requires i < |s|
    ensures Zeros(s[i := x]) == Zeros(s) - (if s[i] == 0 then 1 else 0) + (if x == 0 then 1 else 0)
  {
    var last := |s| - 1;
    if i == last {
      assert s[i := x][..last] == s[..last];
    } else {
      assert s[i := x][..last] == s[..last][i := x];
      ZerosUpdate(s[..last], i, x);
    }
  }

  lemma FreeCountUpdate(f: seq<nat>, c: nat, x: nat)
    requires 2 <= c < |f|
    ensures FreeCount(f[c := x]) == FreeCount(f) - (if f[c] == 0 then 1 else 0) + (if x == 0 then 1 else 0)
  {
    assert f[c := x][2..] == f[2..][c - 2 := x];
    ZerosUpdate(f[2..], c - 2, x);
  }

  lemma {:induction false} NoZeros(s: seq<nat>)
    ensures Zeros(s) == 0 <==> forall i :: 0 <= i < |s| ==> s[i] != 0
  {
    if s != [] {
      NoZeros(s[..|s| - 1]);
      assert s == s[..|s| - 1] + [s[|s| - 1]];
    }
  }

  // ----- chains -----

  /** Clusters linked in this order, without repetition, the last one carrying an end mark. */
  predicate IsChain(f: seq<nat>, ch: seq<nat>) {
    && ch != []
    && (forall i :: 0 <= i < |ch| ==> 2 <= ch[i] < |f|)
    && (forall i, j :: 0 <= i < j < |ch| ==> ch[i] != ch[j])
    && (forall i :: 0 <= i < |ch| - 1 ==> f[ch[i]] == ch[i + 1])
    && f[ch[|ch| - 1]] >= |f|
  }

  lemma ChainUsed(f: seq<nat>, ch: seq<nat>, c: nat)
    requires IsChain(f, ch) && c in ch
    ensures c < |f| && f[c] >= 2
  {
    var i :| 0 <= i < |ch| && ch[i] == c;
    if i < |ch| - 1 {
      assert f[ch[i]] == ch[i + 1];
    }
  }

  lemma ChainTail(f: seq<nat>, ch: seq<nat>)
    requires IsChain(f, ch) && |ch| > 1
    ensures IsChain(f, ch[1..]) && ch[0] !in ch[1..]
  {
  }

  /** A chain does not see changes to other entries. */
  lemma ChainElsewhere(f: seq<nat>, f': seq<nat>, ch: seq<nat>)
    requires IsChain(f, ch) && |f'| == |f|
    requires forall c :: c in ch ==> c < |f| && f'[c] == f[c]
    ensures IsChain(f', ch)
  {
  }

  /** A free cluster, marked as an end, is a chain of its own. */
  lemma NewChain(f: seq<nat>, r: nat, eoc: nat)
    requires 2 <= r < |f| && f[r] == 0 && eoc >= |f|
    ensures IsChain(f[r := eoc], [r])
  {
  }

  /** A free cluster, marked as an end and linked to the last cluster, stretches the chain. */
  lemma StretchChain(f: seq<nat>, ch: seq<nat>, r: nat, eoc: nat)
    requires IsChain(f, ch) && 2 <= r < |f| && f[r] == 0 && eoc >= |f|
    ensures IsChain(f[r := eoc][ch[|ch| - 1] := r], ch + [r])
  {
    if r in ch {
      ChainUsed(f, ch, r);
    }
  }

  // ----- release -----

  datatype Removal = Removal(fat: seq<nat>, sound: bool)

  /** remove_chain: entries are followed and cleared until an end mark, a free or a bad entry. */
  function Remove(f: seq<nat>, c: nat): (r: Removal)
    requires 2 <= c
    ensures |r.fat| == |f|
    decreases |f| - Zeros(f)
  {
    if c >= |f| || f[c] == 0 then Removal(f, true)
    else if f[c] == 1 then Removal(f, false)
    else
      ZerosUpdate(f, c, 0);
      Remove(f[c := 0], f[c])
  }

  /** The FAT with the clusters of a chain set free. */
  function Cleared(f: seq<nat>, ch: seq<nat>): (r: seq<nat>)
    ensures |r| == |f|
    ensures forall c :: 0 <= c < |f| ==> r[c] == if c in ch then 0 else f[c]
  {
    seq(|f|, c requires 0 <= c < |f| => if c in ch then 0 else f[c])
  }

  /** Clearing a chain is clearing its first cluster, then the chain of the others. */
  lemma ClearedStep(f: seq<nat>, ch: seq<nat>)
    requires IsChain(f, ch)
    ensures |ch| == 1 ==> f[ch[0]] >= |f| && Cleared(f, ch) == f[ch[0] := 0]
    ensures |ch| > 1 ==> f[ch[0]] == ch[1] && IsChain(f[ch[0] := 0], ch[1..])
    ensures |ch| > 1 ==> Cleared(f, ch) == Cleared(f[ch[0] := 0], ch[1..])
  {
    hide IsChain;
    ChainFirst(f, ch);
    assert ch == [ch[0]] + ch[1..];
    if |ch| > 1 {
      ChainTail(f, ch);
      ChainElsewhere(f, f[ch[0] := 0], ch[1..]);
    }
  }

  /** Where the first cluster of a chain leads. */
  lemma ChainFirst(f: seq<nat>, ch: seq<nat>)
    requires IsChain(f, ch)
    ensures ch != [] && 2 <= ch[0] < |f| && forall c :: c in ch ==> 2 <= c < |f|
    ensures if |ch| == 1 then f[ch[0]] >= |f| else f[ch[0]] == ch[1]
  {
  }

  /** On a chain, release frees exactly its clusters. */
  lemma {:induction false} RemoveChainExact(f: seq<nat>, ch: seq<nat>)
    requires IsChain(f, ch)
    ensures Remove(f, ch[0]) == Removal(Cleared(f, ch), true)
    decreases |ch|
  {
    var c := ch[0];
    ZerosUpdate(f, c, 0);
    ClearedStep(f, ch);
    if |ch| > 1 {
      RemoveChainExact(f[c := 0], ch[1..]);
    }
  }

  /** Entries that lead from each to the next, without end mark: the last leads anywhere. */
  predicate IsPath(f: seq<nat>, ch: seq<nat>) {
    && ch != [] && (forall i :: 0 <= i < |ch| ==> 2 <= ch[i] < |f|)
    && (forall i, j :: 0 <= i < j < |ch| ==> ch[i] != ch[j])
    && (forall i :: 0 <= i < |ch| - 1 ==> f[ch[i]] == ch[i + 1])
    && f[ch[|ch| - 1]] >= 2
  }

  /**
    On any FAT, release frees the entries from the first on up to where they end, come back to one of them - a cycle -,
    or lead to a free or a bad entry, and complains about the bad one only.
   */
  lemma {:induction false} RemoveWalk(f: seq<nat>, ch: seq<nat>)
    requires IsPath(f, ch)
    requires var y := f[ch[|ch| - 1]]; y >= |f| || y in ch || f[y] < 2
    ensures var y := f[ch[|ch| - 1]]; Remove(f, ch[0]) == Removal(Cleared(f, ch), !(y < |f| && y !in ch && f[y] == 1))
    decreases |ch|
  {
    hide Cleared;
    var c, y := ch[0], f[ch[|ch| - 1]];
    var g := f[c := 0];
    ZerosUpdate(f, c, 0);
    if |ch| > 1 {
      PathTail(f, ch);
      RemoveWalk(g, ch[1..]);
    } else {
      ClearedOne(f, ch);
    }
  }

  lemma PathTail(f: seq<nat>, ch: seq<nat>)
    requires IsPath(f, ch) && |ch| > 1
    ensures var g := f[ch[0] := 0];
            && IsPath(g, ch[1..]) && Cleared(g, ch[1..]) == Cleared(f, ch) && g[ch[1..][|ch| - 2]] == f[ch[|ch| - 1]]
    ensures f[ch[0]] == ch[1] && forall y :: y in ch <==> y == ch[0] || y in ch[1..]
  {
    hide IsPath, Cleared;
    PathRest(f, ch);
    TailOf(ch);
    ClearedRest(f, ch);
  }

  lemma PathRest(f: seq<nat>, ch: seq<nat>)
    requires IsPath(f, ch) && |ch| > 1
    ensures ch[0] < |f| && f[ch[0]] == ch[1]
    ensures IsPath(f[ch[0] := 0], ch[1..]) && f[ch[0] := 0][ch[1..][|ch| - 2]] == f[ch[|ch| - 1]]
  {
  }

  lemma TailOf(ch: seq<nat>)
    requires ch != []
    ensures forall y :: y in ch <==> y == ch[0] || y in ch[1..]
  {
    assert ch == [ch[0]] + ch[1..];
  }

  lemma ClearedRest(f: seq<nat>, ch: seq<nat>)
    requires ch != [] && ch[0] < |f| && forall y :: y in ch <==> y == ch[0] || y in ch[1..]
    ensures Cleared(f[ch[0] := 0], ch[1..]) == Cleared(f, ch)
  {
  }

  lemma ClearedOne(f: seq<nat>, ch: seq<nat>)
    requires |ch| == 1 && ch[0] < |f|
    ensures Cleared(f, ch) == f[ch[0] := 0]
  {
    assert ch == [ch[0]];
  }

  lemma {:induction false} FreeCountCleared(f: seq<nat>, ch: seq<nat>)
    requires IsChain(f, ch)
    ensures FreeCount(Cleared(f, ch)) == FreeCount(f) + |ch|
    decreases |ch|
  {
    FreeCountUpdate(f, ch[0], 0);
    ClearedStep(f, ch);
    if |ch| > 1 {
      FreeCountCleared(f[ch[0] := 0], ch[1..]);
    }
  }

  // ----- volumes and their runs -----

  /** Chains that share no cluster. */
  predicate Separate(chains: seq<seq<nat>>) {
    forall i, j, c :: 0 <= i < j < |chains| && c in chains[i] ==> c !in chains[j]
  }

  /** The files and directories of a volume: proper chains, pairwise disjoint. */
  predicate WellFormed(f: seq<nat>, chains: seq<seq<nat>>) {
    && |f| >= 2
    && (forall i :: 0 <= i < |chains| ==> IsChain(f, chains[i]))
    && Separate(chains)
  }

  function Clusters(chains: seq<seq<nat>>): (n: nat) {
    if chains == [] then 0 else Clusters(chains[..|chains| - 1]) + |chains[|chains| - 1]|
  }

  lemma {:induction false} ClustersUpdate(chains: seq<seq<nat>>, k: nat, ch: seq<nat>)
    requires k < |chains|
    ensures Clusters(chains[k := ch]) == Clusters(chains) - |chains[k]| + |ch|
  {
    var last := |chains| - 1;
    if k == last {
      assert chains[k := ch][..last] == chains[..last];
    } else {
      assert chains[k := ch][..last] == chains[..last][k := ch];
      ClustersUpdate(chains[..last], k, ch);
    }
  }

  lemma {:induction false} ClustersWithout(chains: seq<seq<nat>>, k: nat)
    requires k < |chains|
    ensures Clusters(Without(chains, k)) == Clusters(chains) - |chains[k]|
  {
    var last := |chains| - 1;
    if k == last {
      assert Without(chains, k) == chains[..last];
    } else {
      assert Without(chains, k)[..last - 1] == Without(chains[..last], k);
      assert Without(chains, k)[last - 1] == chains[last];
      ClustersWithout(chains[..last], k);
    }
  }

  /** Clusters known to be in use or free: what allocation and release move between the two. */
  function Balance(f: seq<nat>, chains: seq<seq<nat>>): (n: nat)
    requires |f| >= 2
  {
    FreeCount(f) + Clusters(chains)
  }

  datatype Volume = Volume(fat: seq<nat>, chains: seq<seq<nat>>) {
    predicate Ok() { WellFormed(fat, chains) }
  }

  /** The effect of one successful create_chain or remove_chain. */
  datatype Change = Create(r: nat, eoc: nat) | Stretch(k: nat, r: nat, eoc: nat) | Release(k: nat)

  predicate Enabled(v: Volume, ch: Change) {
    match ch
    case Create(r, eoc) => 2 <= r < |v.fat| <= eoc && v.fat[r] == 0
    case Stretch(k, r, eoc) => k < |v.chains| && 2 <= r < |v.fat| <= eoc && v.fat[r] == 0
    case Release(k) => k < |v.chains|
  }

  function Apply(v: Volume, ch: Change): (v': Volume)
    requires v.Ok() && Enabled(v, ch)
  {
    match ch
    case Create(r, eoc) => Volume(v.fat[r := eoc], v.chains + [[r]])
    case Stretch(k, r, eoc) =>
      var c := v.chains[k];
      Volume(v.fat[r := eoc][c[|c| - 1] := r], v.chains[k := c + [r]])
    case Release(k) => Volume(Remove(v.fat, v.chains[k][0]).fat, Without(v.chains, k))
  }

  lemma FreeInNone(v: Volume, r: nat, i: nat)
    requires v.Ok() && r < |v.fat| && v.fat[r] == 0 && i < |v.chains|
    ensures r !in v.chains[i]
  {
    if r in v.chains[i] {
      ChainUsed(v.fat, v.chains[i], r);
    }
  }

  lemma CreateKeeps(v: Volume, r: nat, eoc: nat)
    requires v.Ok() && Enabled(v, Create(r, eoc))
    ensures var v' := Apply(v, Create(r, eoc)); v'.Ok() && Balance(v'.fat, v'.chains) == Balance(v.fat, v.chains)
  {
    var v' := Apply(v, Create(r, eoc));
    NewChain(v.fat, r, eoc);
    forall i | 0 <= i < |v.chains|
      ensures IsChain(v'.fat, v.chains[i]) && r !in v.chains[i]
    {
      FreeInNone(v, r, i);
      ChainElsewhere(v.fat, v'.fat, v.chains[i]);
    }
    FreeCountUpdate(v.fat, r, eoc);
    assert v'.chains[..|v'.chains| - 1] == v.chains;
  }

  lemma StretchKeeps(v: Volume, k: nat, r: nat, eoc: nat)
    requires v.Ok() && Enabled(v, Stretch(k, r, eoc))
    ensures var v' := Apply(v, Stretch(k, r, eoc)); v'.Ok() && Balance(v'.fat, v'.chains) == Balance(v.fat, v.chains)
  {
    hide IsChain, FreeCount, Clusters;
    var c := v.chains[k];
    ChainAt(v, k);
    LastUsed(v.fat, c);
    var last := c[|c| - 1];
    var f := v.fat[r := eoc][last := r];
    StretchChain(v.fat, c, r, eoc);
    forall i | 0 <= i < |v.chains|
      ensures r !in v.chains[i] && (i != k ==> IsChain(f, v.chains[i]))
    {
      FreeInNone(v, r, i);
      if i != k {
        ChainAt(v, i);
        ChainUses(v.fat, v.chains[i]);
        assert last in c;
        ChainElsewhere(v.fat, f, v.chains[i]);
      }
    }
    SeparateMore(v.chains, k, r);
    FreeCountUpdate(v.fat, r, eoc);
    FreeCountUpdate(v.fat[r := eoc], last, r);
    ClustersUpdate(v.chains, k, c + [r]);
  }

  lemma LastUsed(f: seq<nat>, ch: seq<nat>)
    requires IsChain(f, ch)
    ensures 2 <= ch[|ch| - 1] < |f| && f[ch[|ch| - 1]] != 0
  {
  }

  lemma SeparateMore(chains: seq<seq<nat>>, k: nat, r: nat)
    requires Separate(chains) && k < |chains| && forall i :: 0 <= i < |chains| ==> r !in chains[i]
    ensures Separate(chains[k := chains[k] + [r]])
  {
  }

  lemma ReleaseKeeps(v: Volume, k: nat)
    requires v.Ok() && Enabled(v, Release(k))
    ensures var v' := Apply(v, Release(k)); v'.Ok() && Balance(v'.fat, v'.chains) == Balance(v.fat, v.chains)
  {
    hide IsChain, Remove, FreeCount, Clusters;
    var f := Cleared(v.fat, v.chains[k]);
    ChainAt(v, k);
    RemoveChainExact(v.fat, v.chains[k]);
    FreeCountCleared(v.fat, v.chains[k]);
    ClustersWithout(v.chains, k);
    var rest := Without(v.chains, k);
    forall i | 0 <= i < |rest|
      ensures IsChain(f, rest[i])
    {
      OtherChain(v, k, if i < k then i else i + 1);
    }
    SeparateWithout(v.chains, k);
  }

  lemma ChainAt(v: Volume, k: nat)
    requires v.Ok() && k < |v.chains|
    ensures IsChain(v.fat, v.chains[k]) && v.chains[k] != [] && v.chains[k][0] >= 2 && |v.fat| >= 2
  {
  }

  /** Clearing one chain leaves the others. */
  lemma OtherChain(v: Volume, k: nat, i: nat)
    requires v.Ok() && k < |v.chains| && i < |v.chains| && i != k
    ensures IsChain(Cleared(v.fat, v.chains[k]), v.chains[i])
  {
    hide IsChain;
    ChainAt(v, i);
    ChainUses(v.fat, v.chains[i]);
    ChainElsewhere(v.fat, Cleared(v.fat, v.chains[k]), v.chains[i]);
  }

  lemma ChainUses(f: seq<nat>, ch: seq<nat>)
    requires IsChain(f, ch)
    ensures forall c :: c in ch ==> c < |f|
  {
  }

  lemma SeparateWithout(chains: seq<seq<nat>>, k: nat)
    requires Separate(chains) && k < |chains|
    ensures Separate(Without(chains, k))
  {
  }

  predicate Step(v: Volume, ch: Change, v': Volume) {
    v.Ok() ==> Enabled(v, ch) && v' == Apply(v, ch)
  }

  /** A run: every state follows from the one before by an enabled change. */
  predicate IsRun(states: seq<Volume>, changes: seq<Change>) {
    && |states| == |changes| + 1
    && forall i :: 0 <= i < |changes| ==> Step(states[i], changes[i], states[i + 1])
  }

  /**
    Through every run of allocations and releases all chains stay acyclic, end-marked and pairwise
    disjoint, and free clusters plus clusters in chains is a constant.
   */
  lemma {:induction false} RunKeeps(states: seq<Volume>, changes: seq<Change>, n: nat)
    requires IsRun(states, changes) && states[0].Ok() && n <= |changes|
    ensures states[n].Ok()
    ensures Balance(states[n].fat, states[n].chains) == Balance(states[0].fat, states[0].chains)
  {
    if n > 0 {
      RunKeeps(states, changes, n - 1);
      var v := states[n - 1];
      assert Step(v, changes[n - 1], states[n]);
      match changes[n - 1]
      case Create(r, eoc) => CreateKeeps(v, r, eoc);
      case Stretch(k, r, eoc) => StretchKeeps(v, k, r, eoc);
      case Release(k) => ReleaseKeeps(v, k);
    }
  }
}
