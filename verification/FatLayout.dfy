/**
  Where the bytes of a file lie: clusters of a chain, sectors of a cluster, and the private sector
  buffer laid over one of them.
 */
module FatLayout {
  import opened Basics
  import opened FatWindow

  predicate Size(csize: nat) {
    csize in {1, 2, 4, 8, 16, 32, 64, 128}
  }

  // ----- sectors and clusters of a file -----

  /** Cluster of a file its sector q is in, counted from the start: the quotient q / csize. */
  function Cidx(csize: nat, q: nat): (r: nat)
  {
    if csize == 0 || q < csize then 0 else 1 + Cidx(csize, q - csize)
  }

  /** Place of sector q in its cluster: the remainder q % csize, which the code takes with a mask. */
  function Coff(csize: nat, q: nat): (r: nat)
    ensures csize > 0 ==> r < csize
  {
    if csize == 0 || q < csize then q else Coff(csize, q - csize)
  }

  lemma DivStep(csize: nat, q: nat)
    requires Size(csize)
    ensures q < csize ==> q / csize == 0 && q % csize == q
    ensures q >= csize ==> q / csize == 1 + (q - csize) / csize && q % csize == (q - csize) % csize
  {
    if csize == 1 {
    } else if csize == 2 {
    } else if csize == 4 {
    } else if csize == 8 {
    } else if csize == 16 {
    } else if csize == 32 {
    } else if csize == 64 {
    } else {
      assert csize == 128;
    }
  }

  lemma {:induction false} CidxIs(csize: nat, q: nat)
    requires Size(csize)
    ensures Cidx(csize, q) == q / csize && Coff(csize, q) == q % csize
    ensures q == Times(Cidx(csize, q), csize) + Coff(csize, q)
  {
    DivStep(csize, q);
    if q >= csize {
      CidxIs(csize, q - csize);
    }
  }

  lemma {:induction false} TimesIs(n: nat, k: nat)
    ensures Times(n, k) == n * k
  {
    if n > 0 {
      TimesIs(n - 1, k);
      assert n * k == k + (n - 1) * k;
    }
  }

  /** Neighbours of file sector q: same cluster, or the boundary of the next one. */
  lemma {:induction false} Slots(csize: nat, q: nat, k: nat)
    requires csize > 0
    ensures q > 0 ==> Cidx(csize, q - 1) == if Coff(csize, q) == 0 then Cidx(csize, q) - 1 else Cidx(csize, q)
    ensures Coff(csize, q) == 0 && q > 0 ==> Cidx(csize, q) > 0
    ensures Coff(csize, q) + k < csize ==> Cidx(csize, q + k) == Cidx(csize, q) && Coff(csize, q + k) == Coff(csize, q) + k
  {
    if q >= csize {
      Slots(csize, q - csize, k);
    }
  }

  /** File sectors of n clusters. */
  lemma {:induction false} Room(csize: nat, n: nat, q: nat)
    requires csize > 0
    ensures q < Times(n, csize) <==> Cidx(csize, q) < n
  {
    if n > 0 && q >= csize {
      Room(csize, n - 1, q - csize);
    }
  }

  /** A place is found again from its cluster and its offset there. */
  lemma {:induction false} Place(csize: nat, c: nat, k: nat)
    requires csize > 0 && k < csize
    ensures Cidx(csize, Times(c, csize) + k) == c && Coff(csize, Times(c, csize) + k) == k
  {
    if c > 0 {
      Place(csize, c - 1, k);
    }
  }

  lemma {:induction false} TimesGrows(csize: nat, c: nat, n: nat)
    requires c < n
    ensures Times(c, csize) + csize <= Times(n, csize)
  {
    if c + 1 < n {
      TimesGrows(csize, c, n - 1);
    }
  }

  /** clust2sect: first sector of a cluster, 0 for a cluster number out of range. */
  function Clust2Sect(g: Geometry, clst: dword): (s: int)
    requires 2 <= g.nFatent < BAD
    ensures 2 <= clst < g.nFatent ==> s == g.database + Times(clst - 2, g.csize)
    ensures !(2 <= clst < g.nFatent) ==> s == 0
  {
    var c := Sub32(clst, 2);
    TimesIs(c, g.csize);
    if c >= g.nFatent - 2 then 0 else c * g.csize + g.database
  }

  /** A chain on a volume whose data area fits the device. */
  predicate Laid(g: Geometry, sectors: nat, chain: seq<nat>) {
    && g.Fits(sectors) && g.DataFits(sectors)
    && (forall i :: 0 <= i < |chain| ==> 2 <= chain[i] < g.nFatent)
    && (forall i, j :: 0 <= i < j < |chain| ==> chain[i] != chain[j])
  }

  /** Number of sectors of the chain. */
  function Cap(g: Geometry, chain: seq<nat>): nat {
    Times(|chain|, g.csize)
  }

  /** Sector of the device that holds sector q of the file. */
  function FileSect(g: Geometry, chain: seq<nat>, q: nat): (s: int) {
    var i := Cidx(g.csize, q);
    if i < |chain| && chain[i] >= 2 then g.database + Times(chain[i] - 2, g.csize) + Coff(g.csize, q) else 0
  }

  /** Cluster a data sector belongs to, and its place there. */
  function OwnerOf(g: Geometry, s: int): (int, int) {
    if s < g.database then (0, 0) else (2 + Cidx(g.csize, s - g.database), Coff(g.csize, s - g.database))
  }

  lemma FileSectFacts(g: Geometry, sectors: nat, chain: seq<nat>, q: nat)
    requires Laid(g, sectors, chain) && q < Cap(g, chain)
    ensures Cidx(g.csize, q) < |chain|
    ensures g.database <= FileSect(g, chain, q) < sectors
    ensures OwnerOf(g, FileSect(g, chain, q)) == (chain[Cidx(g.csize, q)], Coff(g.csize, q))
  {
    hide Times, Cidx, Coff, Geometry.Fits;
    LaidFacts(g, sectors, chain);
    Room(g.csize, |chain|, q);
    var c, k := chain[Cidx(g.csize, q)] - 2, Coff(g.csize, q);
    Place(g.csize, c, k);
    TimesGrows(g.csize, c, g.nFatent - 2);
  }

  lemma LaidFacts(g: Geometry, sectors: nat, chain: seq<nat>)
    requires Laid(g, sectors, chain)
    ensures Size(g.csize) && g.csize > 0 && 2 < g.nFatent
  {
  }

  /** Different sectors of a file lie in different sectors of the device. */
  lemma FileSectInjective(g: Geometry, sectors: nat, chain: seq<nat>, q: nat, r: nat)
    requires Laid(g, sectors, chain) && q < Cap(g, chain) && r < Cap(g, chain)
    requires FileSect(g, chain, q) == FileSect(g, chain, r)
    ensures q == r
  {
    FileSectFacts(g, sectors, chain, q);
    FileSectFacts(g, sectors, chain, r);
    CidxIs(g.csize, q);
    CidxIs(g.csize, r);
  }

  /** Sectors of one cluster follow each other on the device. */
  lemma FileSectRun(g: Geometry, sectors: nat, chain: seq<nat>, q: nat, k: nat)
    requires Laid(g, sectors, chain) && q < Cap(g, chain) && Coff(g.csize, q) + k < g.csize
    ensures q + k < Cap(g, chain) && Cidx(g.csize, q + k) == Cidx(g.csize, q) < |chain|
    ensures FileSect(g, chain, q + k) == FileSect(g, chain, q) + k
  {
    Room(g.csize, |chain|, q);
    Room(g.csize, |chain|, q + k);
    Slots(g.csize, q, k);
  }

  /** A sector of another cluster is none of the file's. */
  lemma Apart(g: Geometry, sectors: nat, chain: seq<nat>, q: nat, k: nat, w: int)
    requires Laid(g, sectors, chain) && q < Cap(g, chain) && Coff(g.csize, q) + k < g.csize
    requires g.database <= w ==> OwnerOf(g, w).0 !in chain
    ensures g.database <= FileSect(g, chain, q) + k < sectors
    ensures FileSect(g, chain, q) + k != w
  {
    hide OwnerOf, FileSect, Laid;
    FileSectRun(g, sectors, chain, q, k);
    FileSectFacts(g, sectors, chain, q + k);
    assert chain[Cidx(g.csize, q)] in chain;
  }

  // ----- the file as a sequence of sectors -----

  /** What sector q of the file holds: the data area with the dirty buffer laid over it. */
  function SectorOf(g: Geometry, rest: seq<Sector>, chain: seq<nat>, dsect: int, buf: Sector, dirty: bool, q: nat): (r: Sector)
    requires Laid(g, |rest|, chain) && q < Cap(g, chain)
  {
    FileSectFacts(g, |rest|, chain, q);
    var s := FileSect(g, chain, q);
    if dirty && s == dsect then buf else rest[s]
  }

  /** The file as a sequence of sectors. */
  function Medium(g: Geometry, rest: seq<Sector>, chain: seq<nat>, dsect: int, buf: Sector, dirty: bool): (m: seq<Sector>)
    requires Laid(g, |rest|, chain)
    ensures |m| == Cap(g, chain)
  {
    seq(Cap(g, chain), q requires 0 <= q < Cap(g, chain) => SectorOf(g, rest, chain, dsect, buf, dirty, q))
  }

  lemma MediumAt(g: Geometry, rest: seq<Sector>, chain: seq<nat>, dsect: int, buf: Sector, dirty: bool, q: nat)
    requires Laid(g, |rest|, chain) && q < Cap(g, chain)
    ensures g.database <= FileSect(g, chain, q) < |rest|
    ensures Medium(g, rest, chain, dsect, buf, dirty)[q] ==
      if dirty && FileSect(g, chain, q) == dsect then buf else rest[FileSect(g, chain, q)]
  {
    FileSectFacts(g, |rest|, chain, q);
  }

  /** Writing the dirty buffer back does not change the file. */
  lemma MediumFlush(g: Geometry, rest: seq<Sector>, chain: seq<nat>, dsect: int, buf: Sector)
    requires Laid(g, |rest|, chain) && 0 <= dsect < |rest|
    ensures Medium(g, rest[dsect := buf], chain, dsect, buf, false) == Medium(g, rest, chain, dsect, buf, true)
  {
    hide Laid, FileSect, Medium;
    forall q | 0 <= q < Cap(g, chain)
      ensures Medium(g, rest[dsect := buf], chain, dsect, buf, false)[q] == Medium(g, rest, chain, dsect, buf, true)[q]
    {
      MediumAt(g, rest, chain, dsect, buf, true, q);
      MediumAt(g, rest[dsect := buf], chain, dsect, buf, false, q);
    }
  }

  /** A clean buffer does not matter. */
  lemma MediumClean(g: Geometry, rest: seq<Sector>, chain: seq<nat>, d: int, b: Sector, d': int, b': Sector)
    requires Laid(g, |rest|, chain)
    ensures Medium(g, rest, chain, d, b, false) == Medium(g, rest, chain, d', b', false)
  {
    hide Laid, FileSect, Medium;
    forall q | 0 <= q < Cap(g, chain)
      ensures Medium(g, rest, chain, d, b, false)[q] == Medium(g, rest, chain, d', b', false)[q]
    {
      MediumAt(g, rest, chain, d, b, false, q);
      MediumAt(g, rest, chain, d', b', false, q);
    }
  }

  /** Dirtying the buffer over sector q of the file replaces that sector. */
  lemma MediumPut(g: Geometry, rest: seq<Sector>, chain: seq<nat>, q: nat, d: int, b: Sector, dirty: bool, b': Sector)
    requires Laid(g, |rest|, chain) && q < Cap(g, chain)
    requires d == FileSect(g, chain, q)
    ensures Medium(g, rest, chain, d, b', true) == Medium(g, rest, chain, d, b, dirty)[q := b']
  {
    hide Laid, FileSect, Medium;
    forall r | 0 <= r < Cap(g, chain)
      ensures Medium(g, rest, chain, d, b', true)[r] == Medium(g, rest, chain, d, b, dirty)[q := b'][r]
    {
      MediumAt(g, rest, chain, d, b', true, r);
      MediumAt(g, rest, chain, d, b, dirty, r);
      if FileSect(g, chain, r) == d {
        FileSectInjective(g, |rest|, chain, q, r);
      }
    }
  }

  /** Storing sectors of the file directly, past a clean buffer, replaces them. */
  lemma MediumWrite(g: Geometry, rest: seq<Sector>, chain: seq<nat>, q: nat, cc: nat, src: seq<Sector>, d: int, b: Sector)
    requires Laid(g, |rest|, chain) && q < Cap(g, chain)
    requires 0 < cc == |src| && Coff(g.csize, q) + cc <= g.csize
    ensures q + cc <= Cap(g, chain) && FileSect(g, chain, q) >= 0
    ensures var m := Medium(g, rest, chain, d, b, false);
      Medium(g, Written(rest, FileSect(g, chain, q), cc, src), chain, d, b, false) == m[..q] + src + m[q + cc..]
  {
    hide Laid, FileSect, Medium, Cap, Written;
    FileSectRun(g, |rest|, chain, q, cc - 1);
    FileSectFacts(g, |rest|, chain, q);
    var s := FileSect(g, chain, q);
    var rest' := Written(rest, s, cc, src);
    var m, m' := Medium(g, rest, chain, d, b, false), Medium(g, rest', chain, d, b, false);
    forall r | 0 <= r < Cap(g, chain)
      ensures m'[r] == if q <= r < q + cc then src[r - q] else m[r]
    {
      MediumAt(g, rest, chain, d, b, false, r);
      MediumAt(g, rest', chain, d, b, false, r);
      InWrittenRun(g, |rest|, chain, q, cc, r);
    }
    Splice(m, m', q, src);
  }

  lemma Splice(m: seq<Sector>, m': seq<Sector>, q: nat, src: seq<Sector>)
    requires |m'| == |m| && q + |src| <= |m|
    requires forall r :: 0 <= r < |m| ==> m'[r] == if q <= r < q + |src| then src[r - q] else m[r]
    ensures m' == m[..q] + src + m[q + |src|..]
  {
  }

  /** The stored sectors are exactly the sectors q, q + 1, ... of the file. */
  lemma InWrittenRun(g: Geometry, sectors: nat, chain: seq<nat>, q: nat, cc: nat, r: nat)
    requires Laid(g, sectors, chain) && q < Cap(g, chain) && r < Cap(g, chain)
    requires 0 < cc && Coff(g.csize, q) + cc <= g.csize
    ensures var s := FileSect(g, chain, q); s <= FileSect(g, chain, r) < s + cc <==> q <= r < q + cc
    ensures q <= r < q + cc ==> FileSect(g, chain, r) == FileSect(g, chain, q) + r - q
  {
    hide Laid, FileSect;
    var s, t := FileSect(g, chain, q), FileSect(g, chain, r);
    if s <= t < s + cc {
      FileSectRun(g, sectors, chain, q, t - s);
      FileSectInjective(g, sectors, chain, q + (t - s), r);
    }
    if q <= r < q + cc {
      FileSectRun(g, sectors, chain, q, r - q);
    }
  }

  /** A chain and its first clusters agree on the sectors they share. */
  lemma MediumPrefix(g: Geometry, rest: seq<Sector>, chain: seq<nat>, n: nat, d: int, b: Sector, dirty: bool)
    requires Laid(g, |rest|, chain) && n <= |chain|
    ensures Laid(g, |rest|, chain[..n]) && Cap(g, chain[..n]) <= Cap(g, chain)
    ensures Medium(g, rest, chain[..n], d, b, dirty) == Medium(g, rest, chain, d, b, dirty)[..Cap(g, chain[..n])]
  {
    LaidFacts(g, |rest|, chain);
    if n < |chain| {
      TimesGrows(g.csize, n, |chain|);
    }
    hide Medium, Geometry.Fits, Geometry.DataFits, FileSect;
    forall q | 0 <= q < Cap(g, chain[..n])
      ensures Medium(g, rest, chain[..n], d, b, dirty)[q] == Medium(g, rest, chain, d, b, dirty)[q]
    {
      MediumAt(g, rest, chain[..n], d, b, dirty, q);
      MediumAt(g, rest, chain, d, b, dirty, q);
      SamePlace(g, |rest|, chain, n, q);
    }
  }

  /** The first clusters of a chain hold the first sectors. */
  lemma SamePlace(g: Geometry, sectors: nat, chain: seq<nat>, n: nat, q: nat)
    requires Laid(g, sectors, chain) && n <= |chain| && q < Cap(g, chain[..n])
    ensures FileSect(g, chain[..n], q) == FileSect(g, chain, q)
  {
    LaidFacts(g, sectors, chain);
    Room(g.csize, n, q);
  }

  /** Consecutive sectors of the file, seen on the device under the dirty buffer. */
  lemma MediumRun(g: Geometry, rest: seq<Sector>, chain: seq<nat>, d: int, b: Sector, dirty: bool, q: nat, cc: nat)
    requires Laid(g, |rest|, chain) && q < Cap(g, chain) && 0 < cc && Coff(g.csize, q) + cc <= g.csize
    ensures q + cc <= Cap(g, chain)
    ensures var s := FileSect(g, chain, q);
      && 0 <= s && s + cc <= |rest|
      && Medium(g, rest, chain, d, b, dirty)[q..q + cc] ==
        if dirty && s <= d < s + cc then rest[s..s + cc][d - s := b] else rest[s..s + cc]
  {
    hide Laid, FileSect, Medium, Cap;
    FileSectRun(g, |rest|, chain, q, cc - 1);
    FileSectFacts(g, |rest|, chain, q);
    FileSectFacts(g, |rest|, chain, q + (cc - 1));
    var s := FileSect(g, chain, q);
    var m := Medium(g, rest, chain, d, b, dirty);
    var have := m[q..q + cc];
    var want := if dirty && s <= d < s + cc then rest[s..s + cc][d - s := b] else rest[s..s + cc];
    forall k | 0 <= k < cc
      ensures have[k] == want[k]
    {
      MediumRunAt(g, rest, chain, d, b, dirty, q, cc, k);
      assert have[k] == m[q + k];
    }
  }

  lemma MediumRunAt(g: Geometry, rest: seq<Sector>, chain: seq<nat>, d: int, b: Sector, dirty: bool, q: nat, cc: nat, k: nat)
    requires Laid(g, |rest|, chain) && q < Cap(g, chain) && k < cc && Coff(g.csize, q) + cc <= g.csize
    ensures q + k < Cap(g, chain)
    ensures var s := FileSect(g, chain, q);
      && 0 <= s && s + k < |rest|
      && Medium(g, rest, chain, d, b, dirty)[q + k] == if dirty && s + k == d then b else rest[s + k]
  {
    hide Laid, FileSect, Medium, Cap;
    FileSectRun(g, |rest|, chain, q, k);
    FileSectFacts(g, |rest|, chain, q);
    MediumAt(g, rest, chain, d, b, dirty, q + k);
  }

  /** The unsigned test for a buffered sector among those of one transfer. */
  lemma AmongTest(sectors: nat, d: dword, s: dword, cc: nat)
    requires s + cc <= sectors <= BAD
    ensures Sub32(d, s) < cc <==> s <= d < s + cc
  {
  }

  /** clust2sect of the cluster of sector q, plus its place there, is the sector of the device. */
  lemma SectorFromCluster(g: Geometry, sectors: nat, chain: seq<nat>, q: nat)
    requires Laid(g, sectors, chain) && q < Cap(g, chain)
    ensures Cidx(g.csize, q) < |chain| && 2 <= chain[Cidx(g.csize, q)] < g.nFatent < BAD
    ensures 0 < Clust2Sect(g, chain[Cidx(g.csize, q)])
    ensures Clust2Sect(g, chain[Cidx(g.csize, q)]) + Coff(g.csize, q) == FileSect(g, chain, q) < BAD
  {
    assert g.nFatent < BAD && 0 < g.database && sectors <= BAD;
    hide Geometry.Fits, Geometry.DataFits, Cidx, Coff, Times, Cap, OwnerOf;
    FileSectFacts(g, sectors, chain, q);
  }

  /** Positions in units of whole clusters, as f_lseek computes them. */
  lemma ClusterUnits(csize: nat, p: nat)
    requires Size(csize)
    ensures csize > 0 && p / (csize * SS) == Cidx(csize, p / SS)
    ensures p - p % (csize * SS) == Times(Cidx(csize, p / SS), csize) * SS
  {
    hide Cidx, Coff, Times;
    var c, k := Cidx(csize, p / SS), Coff(csize, p / SS);
    CidxIs(csize, p / SS);
    TimesIs(c, csize);
    assert csize > 0;
    Units(csize, c, c * csize, k * SS + p % SS);
  }

  lemma Units(csize: nat, c: nat, start: nat, e: nat)
    requires Size(csize) && start == c * csize && e < csize * SS
    ensures (start * SS + e) / (csize * SS) == c && (start * SS + e) % (csize * SS) == e
  {
    if csize == 1 {
    } else if csize == 2 {
    } else if csize == 4 {
    } else if csize == 8 {
    } else if csize == 16 {
    } else if csize == 32 {
    } else if csize == 64 {
    } else {
      assert csize == 128;
    }
  }

  /** A target not before the cluster of position p lies behind the start of that cluster. */
  lemma SeekUnits(csize: nat, p: nat, ofs: nat)
    requires Size(csize) && p > 0 && ofs > 0
    ensures csize > 0
    ensures (p - 1) - (p - 1) % (csize * SS) == Times(Cidx(csize, (p - 1) / SS), csize) * SS
    ensures (ofs - 1) / (csize * SS) >= (p - 1) / (csize * SS) ==> ofs > Times(Cidx(csize, (p - 1) / SS), csize) * SS
  {
    hide Cidx, Coff, Times, Size;
    ClusterUnits(csize, p - 1);
    ClusterUnits(csize, ofs - 1);
    var i, j := Cidx(csize, (p - 1) / SS), Cidx(csize, (ofs - 1) / SS);
    if i < j {
      TimesGrows(csize, i, j);
    }
    ghost var r := (ofs - 1) % (csize * SS);
    assert r >= 0;
  }
}
