/**
  The one-sector write-back window of a FAT volume and the device under it.

  A volume is seen by the layers above as its "view": the sectors of the device with the dirty
  window laid over them and the redundant FAT copies left out. Window traffic never changes it.
 */
module FatWindow {
  import opened Basics

  const SS := 512
  const BAD: dword := 0xFFFF_FFFF

  type Sector = s: seq<byte> | |s| == SS witness seq(SS, _ => 0)

  const BLANK: Sector := seq(SS, _ => 0)

  datatype FatType = FAT12 | FAT16 | FAT32 {
    /** Number of values an entry can hold. */
    function Range(): nat {
      match this
      case FAT12 => 0x1000
      case FAT16 => 0x1_0000
      case FAT32 => 0x1000_0000
    }
  }

  datatype FResult = FR_OK | FR_DISK_ERR | FR_INT_ERR | FR_DENIED | FR_NOT_ENOUGH_CORE

  /** The product n * k, as repeated addition. */
  function Times(n: nat, k: nat): (r: nat) {
    if n == 0 then 0 else k + Times(n - 1, k)
  }

  /** What mounting a volume establishes once and for all. */
  datatype Geometry = Geometry(
    fatType: FatType,
    csize: nat,      // sectors per cluster
    nFats: nat,      // copies of the FAT
    nFatent: nat,    // FAT entries, the clusters plus two
    fsize: nat,      // sectors per FAT
    fatbase: nat,    // first FAT sector
    database: nat)   // first data sector
  {
    /** Bytes of FAT the entries need. */
    function FatBytesNeeded(): nat {
      match fatType
      case FAT12 => nFatent * 3 / 2 + nFatent % 2
      case FAT16 => nFatent * 2
      case FAT32 => nFatent * 4
    }

    /** The checks of the mount code, for a device of the given number of sectors. */
    predicate Fits(sectors: nat) {
      && csize in {1, 2, 4, 8, 16, 32, 64, 128}
      && nFats in {1, 2}
      && 2 < nFatent < fatType.Range()
      && FatBytesNeeded() <= fsize * SS
      && 0 < fatbase
      && fatbase + (if nFats == 2 then 2 * fsize else fsize) <= database <= sectors <= BAD
    }

    /** The clusters of the data area lie on the device. */
    predicate DataFits(sectors: nat) {
      nFatent >= 2 && database + Times(nFatent - 2, csize) <= sectors
    }

    /** Sector of the FAT the volume works on. */
    predicate InFat(s: int) {
      fatbase <= s < fatbase + fsize
    }

    /** Sector of a redundant copy of the FAT. */
    predicate InMirror(s: int) {
      nFats == 2 && fatbase + fsize <= s < fatbase + 2 * fsize
    }
  }

  /** The sectors with the dirty window laid over them, redundant FAT copies blanked. */
  function ViewOf(g: Geometry, disk: seq<Sector>, winsect: int, win: Sector, wflag: bool): (v: seq<Sector>)
    ensures |v| == |disk|
  {
    seq(|disk|, s requires 0 <= s < |disk| =>
      if g.InMirror(s) then BLANK else if wflag && s == winsect then win else disk[s])
  }

  /** Every FAT sector but the one pending in the window equals its second copy. */
  ghost predicate MirroredOf(g: Geometry, disk: seq<Sector>, winsect: int, wflag: bool) {
    g.nFats == 2 ==>
      forall s {:trigger g.InFat(s)} :: g.InFat(s) && s + g.fsize < |disk| && !(wflag && s == winsect) ==>
        disk[s] == disk[s + g.fsize]
  }

  /** 32-bit unsigned subtraction. */
  function Sub32(a: dword, b: dword): (r: dword)
  {
    if b <= a then a - b else a - b + 0x1_0000_0000
  }

  /** The unsigned test "sector - fatbase < fsize" recognises exactly the sectors of the FAT. */
  lemma WrapTest(g: Geometry, sectors: nat, s: dword)
    requires g.Fits(sectors)
    ensures Sub32(s, g.fatbase) < g.fsize <==> g.InFat(s)
  {
  }

  lemma ViewFlushed(g: Geometry, d: seq<Sector>, d': seq<Sector>, w: int, win: Sector)
    requires 0 <= w < |d| == |d'|
    requires forall i :: 0 <= i < |d| && !g.InMirror(i) ==> d'[i] == d[w := win][i]
    ensures ViewOf(g, d', w, win, false) == ViewOf(g, d, w, win, true)
  {
  }

  lemma MirroredAfterSync(g: Geometry, d: seq<Sector>, d': seq<Sector>, w: int, win: Sector)
    requires g.Fits(|d|) && 0 <= w < |d| && MirroredOf(g, d, w, true)
    requires g.nFats == 2 ==> d' == if g.InFat(w) then d[w := win][w + g.fsize := win] else d[w := win]
    requires !g.InMirror(w)
    ensures MirroredOf(g, d', w, false)
  {
  }

  class FatFs {
    const geo: Geometry
    const win: array<byte>
    var disk: seq<Sector>
    var winsect: dword
    var wflag: bool
    var lastClust: dword
    var freeClust: dword
    var fsiDirty: bool
    /** Device calls that failed so far. */
    ghost var faults: nat

    ghost predicate Valid()
      reads `disk, `winsect, `wflag, win
    {
      && win.Length == SS
      && geo.Fits(|disk|)
      && (winsect < |disk| || (winsect == BAD && !wflag))
      && (!wflag && winsect < |disk| ==> disk[winsect] == win[..])
    }

    ghost function View(): (v: seq<Sector>)
      requires Valid()
      reads `disk, `winsect, `wflag, win
      ensures |v| == |disk|
    {
      ViewOf(geo, disk, winsect, win[..], wflag)
    }

    ghost predicate Mirrored()
      requires Valid()
      reads `disk, `winsect, `wflag, win
    {
      !geo.InMirror(winsect) && MirroredOf(geo, disk, winsect, wflag)
    }

    /** Writes sectors; a call that fails may leave anything in the sectors it was to write. */
    method DiskWrite(data: seq<byte>, s: dword, count: nat) returns (ok: bool)
      requires |data| == count * SS
      modifies this`disk, this`faults
      ensures |disk| == |old(disk)|
      ensures ok ==> s + count <= |disk| && faults == old(faults)
      ensures ok ==> forall i :: 0 <= i < |disk| ==>
        disk[i] == if s <= i < s + count then data[(i - s) * SS .. (i - s) * SS + SS] else old(disk)[i]
      ensures !ok ==> faults > old(faults)
      ensures forall i :: 0 <= i < |disk| && !(s <= i < s + count) ==> disk[i] == old(disk)[i]
    {
      var fail: bool := *;
      ok := !fail && s + count <= |disk|;
      var junk: seq<Sector> := *;
      if ok {
        disk := Written(disk, s, count, Split(data, count));
      } else {
        disk := Written(disk, s, count, junk);
        faults := faults + 1;
      }
    }

    /** Reads sectors; a call that fails delivers anything. */
    method DiskRead(s: dword, count: nat) returns (ok: bool, data: seq<byte>)
      modifies this`faults
      ensures |data| == count * SS
      ensures ok ==> s + count <= |disk| && faults == old(faults)
      ensures ok ==> forall i :: 0 <= i < count ==> data[i * SS .. i * SS + SS] == disk[s + i]
      ensures !ok ==> faults > old(faults)
    {
      var fail: bool := *;
      ok := !fail && s + count <= |disk|;
      if ok {
        data := Join(disk[s .. s + count]);
      } else {
        var junk: seq<byte> := *;
        data := seq(count * SS, i requires 0 <= i < count * SS => if i < |junk| then junk[i] else 0);
        faults := faults + 1;
      }
    }

    /** Stores the window in its own sector; the view survives a failure because the window stays dirty. */
    method WriteWindow() returns (ok: bool)
      requires Valid() && wflag
      modifies this`disk, this`faults
      ensures |disk| == |old(disk)| && View() == old(View())
      ensures ok ==> disk == old(disk)[winsect := win[..]] && faults == old(faults)
      ensures !ok ==> faults > old(faults)
    {
      ok := DiskWrite(win[..], winsect, 1);
      assert win[..][0..SS] == win[..];
    }

    /** Reflects the window to all FAT copies; failures are not reported. */
    method Reflect()
      requires win.Length == SS && geo.Fits(|disk|) && geo.InFat(winsect) && winsect < |disk|
      modifies this`disk, this`faults
      ensures |disk| == |old(disk)| && faults >= old(faults)
      ensures forall i :: 0 <= i < |disk| && !geo.InMirror(i) ==> disk[i] == old(disk)[i]
      ensures faults == old(faults) && geo.nFats == 2 ==> disk == old(disk)[winsect + geo.fsize := win[..]]
    {
      var wsect: int := winsect;
      var nf := geo.nFats;
      while nf >= 2
        invariant 1 <= nf <= geo.nFats && faults >= old(faults)
        invariant nf == geo.nFats ==> wsect == winsect && disk == old(disk) && faults == old(faults)
        invariant |disk| == |old(disk)|
        invariant forall i :: 0 <= i < |disk| && !geo.InMirror(i) ==> disk[i] == old(disk)[i]
        invariant nf < geo.nFats && faults == old(faults) ==> disk == old(disk)[winsect + geo.fsize := win[..]]
      {
        wsect := wsect + geo.fsize;
        var ok := DiskWrite(win[..], wsect, 1);
        assert win[..][0..SS] == win[..];
        nf := nf - 1;
      }
    }

    /** sync_window */
    method SyncWindow() returns (res: FResult)
      requires Valid()
      modifies this`disk, this`wflag, this`faults
      ensures Valid() && |disk| == |old(disk)| && View() == old(View())
      ensures res == FR_OK ==> !wflag
      ensures res != FR_OK ==> res == FR_DISK_ERR && wflag == old(wflag)
      ensures res != FR_OK ==> faults > old(faults)
      ensures faults == old(faults) && old(Mirrored()) ==> Mirrored()
      ensures faults >= old(faults)
    {
      res := FR_OK;
      if wflag {
        var ok := WriteWindow();
        if !ok {
          res := FR_DISK_ERR;
        } else {
          wflag := false;
          WrapTest(geo, |disk|, winsect);
          if Sub32(winsect, geo.fatbase) < geo.fsize {
            Reflect();
          }
          ViewFlushed(geo, old(disk), disk, winsect, win[..]);
          if faults == old(faults) && old(Mirrored()) {
            MirroredAfterSync(geo, old(disk), disk, winsect, win[..]);
          }
        }
      }
    }

    /** move_window */
    method MoveWindow(sector: dword) returns (res: FResult)
      requires Valid()
      modifies this`disk, this`wflag, this`faults, this`winsect, win
      ensures Valid() && |disk| == |old(disk)| && View() == old(View())
      ensures res == FR_OK && sector != BAD ==> winsect == sector < |disk|
      ensures winsect == old(winsect) || winsect == sector || winsect == BAD
      ensures res == FR_OK && sector < |disk| && !geo.InMirror(sector) ==> win[..] == View()[sector]
      ensures res != FR_OK ==> res == FR_DISK_ERR && faults > old(faults)
      ensures faults == old(faults) && old(Mirrored()) && !geo.InMirror(sector) ==> Mirrored()
      ensures faults >= old(faults)
    {
      res := FR_OK;
      if sector != winsect {
        res := SyncWindow();
        if res == FR_OK {
          var ok, data := DiskRead(sector, 1);
          forall i | 0 <= i < SS { win[i] := data[i]; }
          assert win[..] == data;
          assert data[0 * SS .. 0 * SS + SS] == data;
          if ok {
            winsect := sector;
          } else {
            winsect := BAD;
            res := FR_DISK_ERR;
          }
        }
      }
    }
  }

  /** The device after new sectors were stored from s on; sectors missing from src stay. */
  function Written(disk: seq<Sector>, s: nat, count: nat, src: seq<Sector>): (r: seq<Sector>)
    ensures |r| == |disk|
    ensures forall i :: 0 <= i < |disk| ==>
      r[i] == if s <= i < s + count && i - s < |src| then src[i - s] else disk[i]
  {
    seq(|disk|, i requires 0 <= i < |disk| =>
      if s <= i < s + count && i - s < |src| then src[i - s] else disk[i])
  }

  /** The n whole sectors of a byte string. */
  function Split(data: seq<byte>, n: nat): (r: seq<Sector>)
    requires |data| == n * SS
    ensures |r| == n
    ensures forall i :: 0 <= i < n ==> r[i] == data[i * SS .. i * SS + SS]
  {
    seq(n, i requires 0 <= i < n => data[i * SS .. i * SS + SS])
  }

  /** The bytes of consecutive sectors. */
  function Join(ss: seq<Sector>): (r: seq<byte>)
    ensures |r| == |ss| * SS
    ensures forall i :: 0 <= i < |ss| ==> r[i * SS .. i * SS + SS] == ss[i]
  {
    if ss == [] then [] else
      var front := Join(ss[..|ss| - 1]);
      var r := front + ss[|ss| - 1];
      assert forall i :: 0 <= i < |ss| - 1 ==> r[i * SS .. i * SS + SS] == front[i * SS .. i * SS + SS];
      r
  }
}
