/**
  f_getfree: the cached count, or a scan of the FAT - entry by entry for FAT12, sector by sector for
  FAT16 and FAT32 - against counting the entries that are zero.
 */
module FatFreeScan {
  import opened Basics
  import opened FatWindow
  import opened FatCodec
  import opened FatTable
  import opened FatChains

  lemma ZerosNext(f: seq<nat>, lo: nat, e: nat)
    requires lo <= e < |f|
    ensures Zeros(f[lo..e + 1]) == Zeros(f[lo..e]) + if f[e] == 0 then 1 else 0
  {
    assert f[lo..e + 1][..e - lo] == f[lo..e];
  }

  /** Counting from entry 0 counts the reserved entries that are zero as well. */
  lemma ReservedZeros(f: seq<nat>)
    requires |f| >= 2
    ensures Zeros(f) == FreeCount(f) + (if f[0] == 0 then 1 else 0) + (if f[1] == 0 then 1 else 0)
  {
    assert f == f[..2] + f[2..];
    ZerosAppend(f[..2], f[2..]);
    assert f[..2][..1] == [f[0]] && [f[0]][..0] == [];
    assert Zeros([f[0]]) == if f[0] == 0 then 1 else 0;
  }

  lemma {:induction false} ZerosAppend(a: seq<nat>, b: seq<nat>)
    ensures Zeros(a + b) == Zeros(a) + Zeros(b)
  {
    if b == [] {
      assert a + b == a;
    } else {
      assert (a + b)[..|a + b| - 1] == a + b[..|b| - 1];
      ZerosAppend(a, b[..|b| - 1]);
    }
  }

  /** First entry the scan looks at. */
  function ScanFrom(t: FatType): nat {
    if t == FAT12 then 2 else 0
  }

  /**
    f_getfree. When the cached count is not plausible the FAT is scanned up to the entry "scanned";
    an error ends the scan early, and what was counted so far is stored and returned all the same.
   */
  method GetFree(fs: FatFs) returns (res: FResult, nclst: dword, ghost scanned: nat)
    requires fs.Valid()
    modifies fs`disk, fs`wflag, fs`faults, fs`winsect, fs.win, fs`freeClust, fs`fsiDirty
    ensures Kept(fs) && fs.View() == old(fs.View())
    ensures old(fs.freeClust) <= fs.geo.nFatent - 2 ==> res == FR_OK && nclst == old(fs.freeClust) == fs.freeClust
    ensures old(fs.freeClust) > fs.geo.nFatent - 2 ==>
      && ScanFrom(fs.geo.fatType) <= scanned <= fs.geo.nFatent
      && nclst == fs.freeClust == Zeros(FatOf(fs)[ScanFrom(fs.geo.fatType)..scanned])
      && (res == FR_OK ==> scanned == fs.geo.nFatent)
    ensures res == FR_DISK_ERR ==> fs.faults > old(fs.faults)
    ensures res == FR_INT_ERR ==> fs.geo.fatType == FAT12 && 2 <= scanned < fs.geo.nFatent && FatOf(fs)[scanned] == 1
    ensures res in {FR_OK, FR_DISK_ERR, FR_INT_ERR}
  {
    hide ViewOf, MirroredOf, Fat, Geometry.Fits, Zeros;
    RangeSmall(fs);
    res := FR_OK;
    scanned := fs.geo.nFatent;
    if fs.freeClust <= fs.geo.nFatent - 2 {
      nclst := fs.freeClust;
    } else {
      if fs.geo.fatType == FAT12 {
        res, nclst, scanned := ScanEntries(fs);
      } else {
        res, nclst, scanned := ScanSectors(fs);
      }
      fs.freeClust := nclst;
      fs.fsiDirty := true;
    }
  }

  method ScanEntries(fs: FatFs) returns (res: FResult, nfree: dword, ghost scanned: nat)
    requires fs.Valid()
    modifies fs`disk, fs`wflag, fs`faults, fs`winsect, fs.win
    ensures Kept(fs) && fs.View() == old(fs.View())
    ensures 2 <= scanned <= fs.geo.nFatent && nfree == Zeros(FatOf(fs)[2..scanned])
    ensures res == FR_OK ==> scanned == fs.geo.nFatent
    ensures res == FR_DISK_ERR ==> fs.faults > old(fs.faults)
    ensures res == FR_INT_ERR ==> scanned < fs.geo.nFatent && FatOf(fs)[scanned] == 1
    ensures res in {FR_OK, FR_DISK_ERR, FR_INT_ERR}
  {
    hide ViewOf, MirroredOf, Fat, Geometry.Fits;
    RangeSmall(fs);
    ghost var f := FatOf(fs);
    res := FR_OK;
    nfree := 0;
    var clst: dword := 2;
    assert f[2..2] == [];
    while clst < fs.geo.nFatent
      invariant fs.Valid() && fs.View() == old(fs.View()) && Kept(fs)
      invariant 2 <= clst <= fs.geo.nFatent && nfree == Zeros(f[2..clst]) && res == FR_OK
    {
      var stat := GetFat(fs, clst);
      if stat == BAD {
        res := FR_DISK_ERR;
        break;
      }
      if stat == 1 {
        res := FR_INT_ERR;
        break;
      }
      ZerosNext(f, 2, clst);
      if stat == 0 {
        nfree := nfree + 1;
      }
      clst := clst + 1;
    }
    scanned := clst;
  }

  method ScanSectors(fs: FatFs) returns (res: FResult, nfree: dword, ghost scanned: nat)
    requires fs.Valid() && fs.geo.fatType != FAT12
    modifies fs`disk, fs`wflag, fs`faults, fs`winsect, fs.win
    ensures Kept(fs) && fs.View() == old(fs.View())
    ensures scanned <= fs.geo.nFatent && nfree == Zeros(FatOf(fs)[0..scanned])
    ensures res == FR_OK ==> scanned == fs.geo.nFatent
    ensures res == FR_DISK_ERR ==> fs.faults > old(fs.faults)
    ensures res in {FR_OK, FR_DISK_ERR}
  {
    hide ViewOf, MirroredOf, Fat, FatBytes, Geometry.Fits, Geometry.InMirror, InStep, Zeros;
    RangeSmall(fs);
    ghost var f, t := FatOf(fs), fs.geo.fatType;
    var clst := fs.geo.nFatent;
    var sect: int := fs.geo.fatbase;
    var i, p := 0, 0;
    res := FR_OK;
    nfree := 0;
    scanned := 0;
    assert Zeros(f[0..0]) == 0 by { NoZeros(f[0..0]); }
    ScanStart(fs);
    while clst > 0
      invariant fs.Valid() && fs.View() == old(fs.View()) && Kept(fs)
      invariant res == FR_OK && 0 <= clst == fs.geo.nFatent - scanned
      invariant nfree == Zeros(f[0..scanned])
      invariant 0 <= i && InStep(fs, scanned, sect, i, p)
    {
      if i == 0 {
        InFatSector(fs, scanned, sect, p);
        res := fs.MoveWindow(sect);
        sect := sect + 1;
        if res != FR_OK {
          break;
        }
        p := 0;
        i := SS;
        SectorLoaded(fs, scanned, sect);
      }
      var free := IsFree(fs, scanned, sect, i, p);
      ZerosNext(f, 0, scanned);
      EntryDone(fs, scanned, sect, i, p);
      if free {
        nfree := nfree + 1;
      }
      if fs.geo.fatType == FAT16 {
        p := p + 2;
        i := i - 2;
      } else {
        p := p + 4;
        i := i - 4;
      }
      clst := clst - 1;
      scanned := scanned + 1;
    }
  }

  /** The scan stands at entry e: i bytes are left from offset p of the window, sect comes next. */
  ghost predicate InStep(fs: FatFs, e: nat, sect: int, i: int, p: int)
    requires fs.Valid()
    reads fs`disk, fs`winsect, fs`wflag, fs.win
  {
    && fs.geo.fatType != FAT12
    && 0 <= i
    && (if fs.geo.fatType == FAT16 then i % 2 == 0 else i % 4 == 0)
    && Base(fs.geo.fatType, e) == (sect - fs.geo.fatbase) * SS - i
    && (i > 0 ==> p == SS - i && i <= SS && InSector(fs, sect - 1 - fs.geo.fatbase))
    && (i > 0 ==> fs.geo.fatbase < sect <= fs.geo.fatbase + fs.geo.fsize)
  }

  lemma ScanStart(fs: FatFs)
    requires fs.Valid() && fs.geo.fatType != FAT12
    ensures InStep(fs, 0, fs.geo.fatbase, 0, 0)
  {
  }

  lemma InFatSector(fs: FatFs, e: nat, sect: int, p: int)
    requires fs.Valid() && InStep(fs, e, sect, 0, p) && e < fs.geo.nFatent
    ensures fs.geo.fatbase <= sect < fs.geo.fatbase + fs.geo.fsize && sect < |fs.disk|
    ensures !fs.geo.InMirror(sect) && sect < BAD
    ensures Base(fs.geo.fatType, e) == (sect - fs.geo.fatbase) * SS
  {
  }

  lemma SectorLoaded(fs: FatFs, e: nat, sect: int)
    requires fs.Valid() && fs.geo.fatType != FAT12 && InSector(fs, sect - 1 - fs.geo.fatbase)
    requires Base(fs.geo.fatType, e) == (sect - 1 - fs.geo.fatbase) * SS
    requires fs.geo.fatbase < sect <= fs.geo.fatbase + fs.geo.fsize
    ensures InStep(fs, e, sect, SS, 0)
  {
  }

  lemma EntryDone(fs: FatFs, e: nat, sect: int, i: int, p: int)
    requires fs.Valid() && InStep(fs, e, sect, i, p) && i > 0
    ensures fs.geo.fatType == FAT16 ==> i >= 2 && InStep(fs, e + 1, sect, i - 2, p + 2)
    ensures fs.geo.fatType == FAT32 ==> i >= 4 && InStep(fs, e + 1, sect, i - 4, p + 4)
  {
  }

  /** Looks at entry e through the window. */
  method IsFree(fs: FatFs, ghost e: nat, ghost sect: int, ghost i: int, p: int) returns (free: bool)
    requires fs.Valid() && InStep(fs, e, sect, i, p) && e < fs.geo.nFatent && i > 0
    ensures free <==> FatOf(fs)[e] == 0
    ensures i >= if fs.geo.fatType == FAT16 then 2 else 4
  {
    hide ViewOf, MirroredOf, Fat, FatBytes, Geometry.Fits, Dec16, Dec32;
    ghost var v, q := fs.View(), sect - 1 - fs.geo.fatbase;
    FatAt(fs.geo, v, e);
    var s := fs.win[..];
    ByteAt(fs.geo, v, q, p);
    ByteAt(fs.geo, v, q, p + 1);
    if fs.geo.fatType == FAT16 {
      free := Dec16(s[p], s[p + 1]) == 0;
    } else {
      ByteAt(fs.geo, v, q, p + 2);
      ByteAt(fs.geo, v, q, p + 3);
      free := Dec32(s[p], s[p + 1], s[p + 2], s[p + 3]) % 0x1000_0000 == 0;
    }
  }

  /** The reserved entries that are zero and were counted by a scan up to the entry "scanned". */
  function ReservedCounted(t: FatType, f: seq<nat>, scanned: nat): (r: nat)
    requires |f| >= 2
  {
    if t == FAT12 then 0 else Zeros(f[..if scanned < 2 then scanned else 2])
  }

  /**
    What the scan of any FAT type stores is the number of free clusters exactly when as many free clusters lie
    beyond where it ended as it counted reserved entries; so, with reserved entries in use, when none lies beyond.
   */
  lemma CutScan(t: FatType, f: seq<nat>, scanned: nat)
    requires |f| >= 2 && ScanFrom(t) <= scanned <= |f|
    ensures var beyond := f[if scanned < 2 then 2 else scanned..];
            && (Zeros(f[ScanFrom(t)..scanned]) == FreeCount(f) <==> Zeros(beyond) == ReservedCounted(t, f, scanned))
            && (ReservedCounted(t, f, scanned) == 0 ==>
                  (Zeros(f[ScanFrom(t)..scanned]) == FreeCount(f) <==> forall i :: 0 <= i < |beyond| ==> beyond[i] != 0))
  {
    var passed := if scanned < 2 then scanned else 2;
    var lo := if scanned < 2 then 2 else scanned;
    var from := if t == FAT12 then 2 else 0;
    assert f[from..scanned] == (if t == FAT12 then [] else f[..passed]) + f[2..lo];
    ZerosAppend(if t == FAT12 then [] else f[..passed], f[2..lo]);
    assert f[2..] == f[2..lo] + f[lo..];
    ZerosAppend(f[2..lo], f[lo..]);
    NoZeros(f[lo..]);
  }

  /** A complete scan is the number of free clusters exactly when it counted no reserved entry. */
  lemma FullScan(t: FatType, f: seq<nat>)
    requires |f| > 2
    ensures Zeros(f[ScanFrom(t)..|f|]) == FreeCount(f) <==> t == FAT12 || (f[0] != 0 && f[1] != 0)
  {
    CutScan(t, f, |f|);
    NoZeros(f[..2]);
    NoZeros(f[|f|..]);
  }

  /** The mount code takes a volume for FAT16 from 4086 clusters on. */
  const MIN_FAT16 := 4086 + 2

  /** FAT16 with an unused reserved entry and no free cluster: the complete scan finds one. */
  lemma FullScanFails(f: seq<nat>)
    requires |f| >= MIN_FAT16 && f[0] == 0 && forall i :: 1 <= i < |f| ==> f[i] != 0
    ensures FreeCount(f) == 0 && Zeros(f[ScanFrom(FAT16)..|f|]) == 1
  {
    ReservedZeros(f);
    NoZeros(f[2..]);
    assert f[0..|f|] == f;
  }

  /** FAT16 with a free cluster whose first FAT sector cannot be read: the scan stores that none is free. */
  lemma CutScanFails(f: seq<nat>, c: nat)
    requires |f| >= MIN_FAT16 && 2 <= c < |f| && f[c] == 0
    ensures Zeros(f[ScanFrom(FAT16)..0]) == 0 < FreeCount(f)
  {
    NoZeros(f[0..0]);
    NoZeros(f[2..]);
    assert f[2..][c - 2] == 0;
  }

  /** FAT16: a reserved entry that was counted makes up for the free cluster behind the second sector, which cannot be read. */
  lemma CutScanRightByChance(f: seq<nat>, c: nat)
    requires |f| >= MIN_FAT16 && 256 <= c < |f| && f[0] == f[c] == 0 && forall i :: 0 < i < |f| && i != c ==> f[i] != 0
    ensures Zeros(f[ScanFrom(FAT16)..256]) == FreeCount(f) == 1
  {
    hide Zeros;
    OneZero(f[2..], c - 2);
    OneZero(f[0..256], 0);
  }

  lemma OneZero(s: seq<nat>, k: nat)
    requires k < |s| && forall i :: 0 <= i < |s| ==> (s[i] == 0 <==> i == k)
    ensures Zeros(s) == 1
  {
    assert s == s[..k + 1] + s[k + 1..];
    ZerosAppend(s[..k + 1], s[k + 1..]);
    NoZeros(s[k + 1..]);
    ZerosNext(s, 0, k);
    NoZeros(s[0..k]);
    assert s[0..k + 1] == s[..k + 1];
  }
}
