/**
  An open file: f_read, f_write, f_lseek and f_truncate with their private sector buffer, against a
  byte string with a position.
 */
module FatFile {
  import opened Basics
  import opened FatWindow
  import opened FatTable
  import opened FatChains
  import opened FatAlloc
  import opened FatLayout
  import opened FatData
  import opened SectorBytes

  /** The cluster of a file in which position p was reached. */
  function LastCluster(csize: nat, p: nat): nat {
    if p == 0 then 0 else Cidx(csize, (p - 1) / SS)
  }

  /** On a sector boundary the last cluster is the current one, or the one before on a cluster boundary. */
  lemma Boundary(csize: nat, p: nat)
    requires csize > 0 && p > 0 && p % SS == 0
    ensures Coff(csize, p / SS) == 0 ==> LastCluster(csize, p) == Cidx(csize, p / SS) - 1
    ensures Coff(csize, p / SS) != 0 ==> LastCluster(csize, p) == Cidx(csize, p / SS)
  {
    assert (p - 1) / SS == p / SS - 1;
    Slots(csize, p / SS, 0);
  }

  /** Laying one sector over a byte string. */
  lemma Overlay(raw: seq<byte>, n: nat, k: nat, s: Sector)
    requires |raw| == n * SS && k < n
    ensures |raw[..k * SS] + s + raw[k * SS + SS..]| == |raw|
    ensures Split(raw[..k * SS] + s + raw[k * SS + SS..], n) == Split(raw, n)[k := s]
  {
    var d := raw[..k * SS] + s + raw[k * SS + SS..];
    forall i | 0 <= i < n
      ensures Split(d, n)[i] == Split(raw, n)[k := s][i]
    {
      assert d[i * SS .. i * SS + SS] == if i == k then s else raw[i * SS .. i * SS + SS];
    }
  }

  class Fil {
    const fs: FatFs
    const buf: array<byte>
    const canRead: bool
    const canWrite: bool
    var dirty: bool
    var written: bool
    var err: FResult
    var fptr: dword
    var fsize: dword
    var sclust: dword
    var clust: dword
    var dsect: dword
    /** The clusters of the file, and the place of a dirty buffer in it. */
    ghost var chain: seq<nat>
    ghost var dq: nat
    /** Clusters of other files, and the FAT and the sectors there were when the file was opened. */
    ghost const foreign: set<nat>
    ghost const fat0: seq<nat>
    ghost const rest0: seq<Sector>

    /** The object f_open leaves behind for a file found in a directory. */
    constructor (vol: FatFs, read: bool, write: bool, start: dword, size: dword, ghost ch: seq<nat>, ghost others: set<nat>)
      requires vol.Valid()
      ensures foreign == others && fat0 == FatOf(vol) && rest0 == RestOf(vol)
      ensures fs == vol && canRead == read && canWrite == write && chain == ch
      ensures fptr == 0 && fsize == size && sclust == start && err == FR_OK && dsect == 0 && !dirty
      ensures buf.Length == SS && fresh(buf)
    {
      fs, canRead, canWrite := vol, read, write;
      buf := new byte[SS];
      dirty, written, err := false, false, FR_OK;
      fptr, fsize, sclust, clust, dsect := 0, size, start, 0, 0;
      chain, dq := ch, 0;
      foreign, fat0, rest0 := others, FatOf(vol), RestOf(vol);
    }

    ghost predicate Held()
      reads fs`disk, fs`winsect, fs`wflag, fs.win, buf
      ensures Held() ==> fs.geo.csize > 0
    {
      fs.Valid() && fs.geo.DataFits(|fs.disk|) && buf.Length == SS && buf != fs.win
    }

    /** The FAT holds the chain of the file. */
    ghost predicate Linked()
      requires Held()
      reads `chain, `sclust, fs`disk, fs`winsect, fs`wflag, fs.win, buf
    {
      if sclust == 0 then chain == [] else IsChain(FatOf(fs), chain) && chain[0] == sclust
    }

    /** The window is not over a cluster the file has or could get. */
    ghost predicate WindowOff()
      requires Held()
      reads `chain, fs`disk, fs`winsect, fs`wflag, fs.win, buf
    {
      fs.geo.database <= fs.winsect < |fs.disk| ==>
        var c := OwnerOf(fs.geo, fs.winsect).0;
        2 <= c < fs.geo.nFatent ==> FatOf(fs)[c] != 0 && c !in chain
    }

    /** A dirty buffer belongs to a sector of the file, a clean one to what the device holds. */
    ghost predicate Buffered()
      requires Held()
      reads `chain, `dirty, `dsect, `dq, fs`disk, fs`winsect, fs`wflag, fs.win, buf
    {
      if dirty then dq < Cap(fs.geo, chain) && FileSect(fs.geo, chain, dq) == dsect
      else dsect != 0 ==> fs.geo.database <= dsect < |fs.disk| && buf[..] == RestOf(fs)[dsect]
    }

    /** The entries and the sectors of other files are what they were. */
    ghost predicate Alone()
      requires Held()
      reads `chain, fs`disk, fs`winsect, fs`wflag, fs.win, buf
    {
      Spares(fs.geo, FatOf(fs), RestOf(fs), chain, foreign, fat0, rest0)
    }

    ghost predicate Inv()
      reads `chain, `sclust, `dirty, `dsect, `dq, fs`disk, fs`winsect, fs`wflag, fs.win, buf
      ensures Inv() ==> Held() && Linked() && Alone()
    {
      Held() && Linked() && WindowOff() && Buffered() && Alone()
    }

    lemma Lays()
      requires Held() && Linked()
      ensures Laid(fs.geo, |fs.disk|, chain) && Size(fs.geo.csize) && |RestOf(fs)| == |fs.disk|
      ensures (chain == [] <==> sclust == 0) && fs.geo.database > 0 && fs.geo.csize > 0
      ensures |fs.disk| <= BAD
    {
    }

    /** The sectors of the file. */
    ghost function Med(): (m: seq<Sector>)
      requires Held() && Linked()
      reads `chain, `sclust, `dirty, `dsect, fs`disk, fs`winsect, fs`wflag, fs.win, buf
      ensures |m| == Cap(fs.geo, chain)
    {
      Lays();
      Medium(fs.geo, RestOf(fs), chain, dsect, buf[..], dirty)
    }

    /** Sector q of the file lies in sector sect of the device. */
    ghost predicate Slot(q: nat, sect: int)
      reads `chain
    {
      q < Cap(fs.geo, chain) && sect == FileSect(fs.geo, chain, q)
    }

    /** The file stands at position p: its cluster is current, and a partly used sector is in the buffer. */
    ghost predicate At(p: nat)
      reads `chain, `clust, `dsect
      ensures At(p) ==> p <= Cap(fs.geo, chain) * SS
    {
      && p <= Cap(fs.geo, chain) * SS
      && (p > 0 ==> LastCluster(fs.geo.csize, p) < |chain| && clust == chain[LastCluster(fs.geo.csize, p)])
      && (p % SS != 0 ==> Slot(p / SS, dsect))
    }

    /** A sector of the file is not in the window. */
    lemma OffWindow(q: nat, k: nat)
      requires Inv() && q < Cap(fs.geo, chain) && Coff(fs.geo.csize, q) + k < fs.geo.csize
      ensures fs.geo.database <= FileSect(fs.geo, chain, q) + k < |fs.disk|
      ensures FileSect(fs.geo, chain, q) + k != fs.winsect
    {
      Lays();
      hide Spares, ViewOf, Fat, Rest, FileSect, Geometry.Fits, Geometry.DataFits, IsChain, Laid, OwnerOf;
      if fs.winsect < |fs.disk| {
        Apart(fs.geo, |fs.disk|, chain, q, k, fs.winsect);
      } else {
        Apart(fs.geo, |fs.disk|, chain, q, k, fs.geo.database - 1);
      }
    }

    /** Sectors of one cluster are in the data area and off the window. */
    lemma RunOff(q: nat, cc: nat)
      requires Inv() && q < Cap(fs.geo, chain) && 0 < cc && Coff(fs.geo.csize, q) + cc <= fs.geo.csize
      ensures q + cc <= Cap(fs.geo, chain) && Direct(fs, FileSect(fs.geo, chain, q), cc)
    {
      Lays();
      hide Spares, ViewOf, Fat, Rest, FileSect, Geometry.Fits, Geometry.DataFits, IsChain, Laid;
      OffWindow(q, 0);
      OffWindow(q, cc - 1);
      FileSectRun(fs.geo, |fs.disk|, chain, q, cc - 1);
      var s := FileSect(fs.geo, chain, q);
      if s <= fs.winsect < s + cc {
        OffWindow(q, fs.winsect - s);
      }
    }

    // ----- the buffer -----

    /** Writes the dirty buffer back. */
    method Flush() returns (ok: bool)
      requires Inv() && dirty
      modifies this`dirty, fs`disk, fs`faults
      ensures Kept(fs) && FatOf(fs) == old(FatOf(fs))
      ensures ok ==> Inv() && !dirty && Med() == old(Med())
      ensures !ok ==> fs.faults > old(fs.faults)
    {
      hide Spares, ViewOf, MirroredOf, Fat, Rest, FileSect, Medium, Geometry.Fits, Geometry.DataFits, IsChain;
      Lays();
      RunOff(dq, 1);
      ghost var rest := RestOf(fs);
      ok := WriteData(fs, buf[..], dsect, 1);
      if ok {
        assert Split(buf[..], 1) == [buf[..]] by { assert buf[..][0 * SS .. 0 * SS + SS] == buf[..]; }
        assert RestOf(fs) == rest[dsect := buf[..]];
        MediumFlush(fs.geo, rest, chain, dsect, buf[..]);
        OwnSector(fs.geo, |fs.disk|, chain, dq, 0);
        NotForeign(fs.geo, FatOf(fs), rest, chain, foreign, fat0, rest0, OwnerOf(fs.geo, dsect).0);
        SparesSector(fs.geo, FatOf(fs), rest, chain, foreign, fat0, rest0, dsect, buf[..]);
        dirty := false;
      }
    }

    /** Reads sector q of the file into the clean buffer. */
    method Fill(sect: dword, ghost q: nat) returns (ok: bool)
      requires Inv() && !dirty && Slot(q, sect)
      modifies this`dsect, buf, fs`faults
      ensures Kept(fs) && fs.View() == old(fs.View())
      ensures ok ==> Inv() && dsect == sect && Med() == old(Med())
      ensures !ok ==> fs.faults > old(fs.faults)
    {
      hide Spares, ViewOf, MirroredOf, Fat, Rest, FileSect, Medium, Geometry.Fits, Geometry.DataFits, IsChain;
      Lays();
      RunOff(q, 1);
      ghost var b, d := buf[..], dsect;
      var data;
      ok, data := ReadData(fs, sect, 1);
      if ok {
        assert data == RestOf(fs)[sect] by {
          assert Split(data, 1)[0] == RestOf(fs)[sect..sect + 1][0];
          assert data[0 * SS .. 0 * SS + SS] == data;
        }
        CopyInto(buf, 0, data);
        assert buf[..] == data;
        dsect := sect;
        MediumClean(fs.geo, RestOf(fs), chain, d, b, dsect, buf[..]);
      }
    }

    /** Brings sector q of the file into the buffer, after writing back another one that is dirty. */
    method Load(sect: dword, ghost q: nat) returns (ok: bool)
      requires Inv() && Slot(q, sect)
      modifies this`dirty, this`dsect, buf, fs`disk, fs`faults
      ensures Kept(fs) && FatOf(fs) == old(FatOf(fs))
      ensures ok ==> Inv() && dsect == sect && Med() == old(Med())
      ensures !ok ==> fs.faults > old(fs.faults)
    {
      hide Spares, ViewOf, MirroredOf, Fat, Rest, FileSect, Medium, Geometry.Fits, Geometry.DataFits, IsChain;
      ok := true;
      if dsect != sect {
        if dirty {
          ok := Flush();
        }
        if ok {
          ok := Fill(sect, q);
        }
      }
    }

    // ----- f_read -----

    /** Reads whole sectors of the file straight to the caller, with the dirty buffer laid over them. */
    method ReadRun(sect: dword, cc: nat, ghost q: nat) returns (ok: bool, data: seq<byte>)
      requires Inv() && Slot(q, sect) && 0 < cc && Coff(fs.geo.csize, q) + cc <= fs.geo.csize
      modifies fs`faults
      ensures Kept(fs) && fs.View() == old(fs.View()) && Inv() && Med() == old(Med())
      ensures |data| == cc * SS
      ensures ok ==> q + cc <= |Med()| && Split(data, cc) == Med()[q..q + cc]
      ensures !ok ==> fs.faults > old(fs.faults)
    {
      hide Spares, ViewOf, MirroredOf, Fat, Rest, FileSect, Geometry.Fits, Geometry.DataFits, IsChain, Laid, Medium,
        Split, Inv, Linked, WindowOff, Buffered, Alone, FatFs.Valid, OwnerOf, Cidx, Coff, Cap;
      Lays();
      RunOff(q, cc);
      AmongTest(|fs.disk|, dsect, sect, cc);
      MediumRun(fs.geo, RestOf(fs), chain, dsect, buf[..], dirty, q, cc);
      ok, data := ReadData(fs, sect, cc);
      if dirty && Sub32(dsect, sect) < cc {
        var k: nat := dsect - sect;
        Overlay(data, cc, k, buf[..]);
        data := data[..k * SS] + buf[..] + data[k * SS + SS..];
      }
    }

    /** Moving the window over the FAT keeps the file as it is. */
    twostate lemma WindowMoved()
      requires old(Inv()) && Kept(fs) && FatOf(fs) == old(FatOf(fs)) && RestOf(fs) == old(RestOf(fs))
      requires buf.Length == SS && buf[..] == old(buf[..]) && chain == old(chain) && sclust == old(sclust)
      requires dsect == old(dsect) && dirty == old(dirty) && dq == old(dq)
      ensures Inv() && Med() == old(Med())
    {
      hide Spares, ViewOf, MirroredOf, Fat, Rest, FileSect, Medium, IsChain, OwnerOf;
    }

    /** The current cluster holds sector q of the file. */
    ghost predicate Current(q: nat)
      reads `chain, `clust
    {
      Cidx(fs.geo.csize, q) < |chain| && clust == chain[Cidx(fs.geo.csize, q)]
    }

    /** The sector of the device under sector q of the file, from its cluster. */
    lemma SectorUnder(q: nat)
      requires Held() && Linked() && q < Cap(fs.geo, chain) && Cidx(fs.geo.csize, q) < |chain| && clust == chain[Cidx(fs.geo.csize, q)]
      ensures 2 <= clust < fs.geo.nFatent < BAD
      ensures 0 < Clust2Sect(fs.geo, clust) && Clust2Sect(fs.geo, clust) + Coff(fs.geo.csize, q) == FileSect(fs.geo, chain, q)
      ensures FileSect(fs.geo, chain, q) < BAD
    {
      Lays();
      hide *;
      SectorFromCluster(fs.geo, |fs.disk|, chain, q);
    }

    /** On a sector boundary, the cluster before the position, and whether it is the one under it. */
    lemma OnBoundary()
      requires Held() && Linked() && At(fptr) && fptr % SS == 0 && fptr / SS < Cap(fs.geo, chain)
      ensures var q := fptr / SS;
        && fs.geo.csize > 0 && fptr / SS % fs.geo.csize == Coff(fs.geo.csize, q) && Cidx(fs.geo.csize, q) < |chain|
        && (Coff(fs.geo.csize, q) != 0 ==> Current(q))
        && (fptr == 0 ==> Cidx(fs.geo.csize, q) == 0 && Coff(fs.geo.csize, q) == 0)
        && (fptr > 0 && Coff(fs.geo.csize, q) == 0 ==> Cidx(fs.geo.csize, q) > 0 && clust == chain[Cidx(fs.geo.csize, q) - 1])
    {
      Lays();
      hide Spares, ViewOf, Fat, Geometry.Fits, Geometry.DataFits, Laid, IsChain, FileSect;
      CidxIs(fs.geo.csize, fptr / SS);
      Room(fs.geo.csize, |chain|, fptr / SS);
      if fptr > 0 {
        Boundary(fs.geo.csize, fptr);
      }
    }

    /** On a cluster boundary, follows the chain to the cluster under the position, for reading. */
    method FollowForRead() returns (res: FResult)
      requires Inv() && At(fptr) && fptr % SS == 0 && fptr / SS < Cap(fs.geo, chain)
      requires Coff(fs.geo.csize, fptr / SS) == 0
      modifies this`clust, fs`disk, fs`wflag, fs`faults, fs`winsect, fs.win
      ensures Kept(fs) && fs.View() == old(fs.View()) && Inv() && Med() == old(Med())
      ensures res == FR_OK ==> Current(fptr / SS)
      ensures res != FR_OK ==> res == FR_DISK_ERR && fs.faults > old(fs.faults)
    {
      hide Spares, ViewOf, MirroredOf, Fat, Rest, FileSect, Medium, Geometry.Fits, Geometry.DataFits, OwnerOf, Laid,
        IsChain, Cidx, Coff, Cap;
      OnBoundary();
      ghost var i := Cidx(fs.geo.csize, fptr / SS);
      var clst;
      ChainRange(FatOf(fs), chain, i);
      RangeSmall(fs);
      if fptr == 0 {
        clst := sclust;
      } else {
        ChainStep(FatOf(fs), chain, i - 1);
        clst := GetFat(fs, clust);
        WindowMoved();
      }
      if clst < 2 {
        return FR_INT_ERR;
      }
      if clst == BAD {
        return FR_DISK_ERR;
      }
      clust := clst;
      res := FR_OK;
    }

    /** Positions reached inside, or at the end of, the cluster of sector q. */
    lemma Reached(q: nat, cc: nat)
      requires Held() && Current(q) && 0 < cc && Coff(fs.geo.csize, q) + cc <= fs.geo.csize
      requires q + cc <= Cap(fs.geo, chain)
      ensures At((q + cc) * SS)
    {
      assert fs.geo.csize > 0;
      hide FatFs.Valid, Geometry.Fits, Geometry.DataFits, Cidx, Coff, Cap;
      var p := (q + cc) * SS;
      assert (p - 1) / SS == q + (cc - 1);
      Slots(fs.geo.csize, q, cc - 1);
    }

    lemma ReachedWithin(q: nat, o: nat)
      requires Current(q) && q < Cap(fs.geo, chain) && 0 < o <= SS && Slot(q, dsect)
      ensures At(q * SS + o)
    {
      var p := q * SS + o;
      assert (p - 1) / SS == q;
      assert o < SS ==> p / SS == q && p % SS == o;
    }

    /** A position inside a sector: that sector is in the buffer and its cluster is current. */
    lemma Within(p: nat)
      requires At(p) && p % SS != 0
      ensures Slot(p / SS, dsect) && Current(p / SS)
    {
      assert (p - 1) / SS == p / SS;
    }

    /** The chunk is what the file holds at the old position, and the position moved past it. */
    twostate predicate Took(btr: nat, chunk: seq<byte>)
      reads this, fs, fs.win, buf
    {
      && old(Inv()) && Inv() && At(fptr) && Med() == old(Med())
      && 0 < |chunk| <= btr && fptr == old(fptr) + |chunk| <= |Med()| * SS
      && chunk == BytesOf(Med(), old(fptr), fptr)
    }

    /** One round of f_read: whole sectors directly, or part of a sector through the buffer. */
    method ReadStep(btr: dword) returns (res: FResult, chunk: seq<byte>)
      requires Inv() && At(fptr) && 0 < btr && fptr + btr <= Cap(fs.geo, chain) * SS && fptr + btr < 0x1_0000_0000
      modifies this`clust, this`dirty, this`dsect, this`fptr, buf, fs`disk, fs`wflag, fs`faults, fs`winsect, fs.win
      ensures Kept(fs) && FatOf(fs) == old(FatOf(fs))
      ensures res == FR_OK ==> Took(btr, chunk)
      ensures res != FR_OK ==> res == FR_DISK_ERR && fs.faults > old(fs.faults)
    {
      hide Spares, ViewOf, MirroredOf, Fat, Rest, FileSect, Medium, Geometry.Fits, Geometry.DataFits, OwnerOf, Laid,
        IsChain, Cidx, Coff, Cap, Med, Linked, WindowOff, Buffered, FatFs.Valid, Inv, At, BytesOf;
      chunk := [];
      ghost var q := fptr / SS;
      if fptr % SS == 0 {
        OnBoundary();
        var csect := fptr / SS % fs.geo.csize;
        if csect == 0 {
          res := FollowForRead();
          if res != FR_OK {
            return;
          }
        }
        SectorUnder(q);
        var sect := Clust2Sect(fs.geo, clust);
        if sect == 0 {
          return FR_INT_ERR, [];
        }
        sect := sect + csect;
        var cc := btr / SS;
        if cc > 0 {
          if csect + cc > fs.geo.csize {
            cc := fs.geo.csize - csect;
          }
          res, chunk := DirectStep(sect, cc, btr, q);
          return;
        }
        var ok := Load(sect, q);
        if !ok {
          return FR_DISK_ERR, [];
        }
      } else {
        Within(fptr);
      }
      res, chunk := BufferStep(btr, fptr % SS, q);
    }

    method DirectStep(sect: dword, cc: nat, btr: nat, ghost q: nat) returns (res: FResult, chunk: seq<byte>)
      requires Inv() && Slot(q, sect) && Current(q) && 0 < cc && Coff(fs.geo.csize, q) + cc <= fs.geo.csize
      requires fptr == q * SS && cc * SS <= btr && fptr + btr < 0x1_0000_0000
      modifies this`fptr, fs`faults
      ensures Kept(fs) && fs.View() == old(fs.View())
      ensures res == FR_OK ==> Took(btr, chunk)
      ensures res != FR_OK ==> res == FR_DISK_ERR && fs.faults > old(fs.faults)
    {
      hide Spares, ViewOf, MirroredOf, Fat, Rest, FileSect, Med, Geometry.Fits, Geometry.DataFits, OwnerOf, Laid,
        IsChain, Cidx, Coff, Cap, At, Split, Linked, WindowOff, Buffered, FatFs.Valid, Kept, BytesOf, Inv;
      var ok;
      ok, chunk := ReadRun(sect, cc, q);
      if !ok {
        return FR_DISK_ERR, [];
      }
      WholeSectors(Med(), q, cc, chunk);
      Reached(q, cc);
      res := FR_OK;
      fptr := fptr + SS * cc;
    }

    /** The buffer over sector q holds what the file holds there. */
    lemma BufferHolds(q: nat)
      requires Inv() && Slot(q, dsect)
      ensures Med()[q] == buf[..]
    {
      Lays();
      hide Spares, ViewOf, Fat, Rest, FileSect, Medium, Geometry.Fits, Geometry.DataFits, OwnerOf, Laid, IsChain, Cap;
      MediumAt(fs.geo, RestOf(fs), chain, dsect, buf[..], dirty, q);
    }

    method BufferStep(btr: nat, o: nat, ghost q: nat) returns (res: FResult, chunk: seq<byte>)
      requires Inv() && Slot(q, dsect) && Current(q) && 0 < btr && fptr + btr < 0x1_0000_0000
      requires fptr == q * SS + o && o < SS
      modifies this`fptr
      ensures res == FR_OK && Took(btr, chunk)
    {
      hide Spares, ViewOf, MirroredOf, Fat, Rest, FileSect, Geometry.Fits, Geometry.DataFits, OwnerOf, IsChain, Cidx,
        Coff, Cap, At, Laid, Med, Linked, WindowOff, Buffered, FatFs.Valid, BytesOf, Inv;
      var rcnt := SS - o;
      if rcnt > btr {
        rcnt := btr;
      }
      BufferHolds(q);
      chunk := buf[..][o..o + rcnt];
      PartOfSector(Med(), q, o, rcnt);
      ReachedWithin(q, o + rcnt);
      fptr := fptr + rcnt;
      res := FR_OK;
    }

    /** The state between calls. */
    ghost predicate Valid()
      reads this, fs, fs.win, buf
      ensures Valid() && err == FR_OK ==> fptr <= fsize
    {
      Held() && (err == FR_OK ==> Inv() && At(fptr) && fptr <= fsize <= Cap(fs.geo, chain) * SS)
    }

    /** The bytes of the file. */
    ghost function Content(): (c: seq<byte>)
      requires Valid() && err == FR_OK
      reads this, fs, fs.win, buf
      ensures |c| == fsize
    {
      BytesOf(Med(), 0, fsize)
    }

    lemma ContentPart(lo: nat, hi: nat)
      requires Valid() && err == FR_OK && lo <= hi <= fsize
      ensures Content()[lo..hi] == BytesOf(Med(), lo, hi)
    {
      hide Med, Linked, WindowOff, Buffered, FatFs.Valid, At;
      Join2(Med(), 0, lo, hi);
      Join2(Med(), 0, hi, fsize);
    }

    /** f_read: exactly the bytes of the file at its position, as many as asked for and there are. */
    method Read(count: dword) returns (res: FResult, data: seq<byte>)
      requires Valid()
      modifies this`clust, this`dirty, this`dsect, this`fptr, this`err, buf, fs`disk, fs`wflag, fs`faults, fs`winsect, fs.win
      ensures Valid() && Kept(fs)
      ensures old(err) != FR_OK ==> res == old(err) && err == old(err) && data == []
      ensures old(err) == FR_OK && !canRead ==> res == FR_DENIED && err == FR_OK && data == [] && fptr == old(fptr) && Content() == old(Content())
      ensures old(err) == FR_OK && canRead ==> res in {FR_OK, FR_DISK_ERR} && err == res
      ensures res == FR_OK ==> Content() == old(Content())
      ensures res in {FR_OK, FR_DENIED} ==> FatOf(fs) == old(FatOf(fs))
      ensures res == FR_OK ==> |data| == (if count < fsize - old(fptr) then count else fsize - old(fptr))
      ensures res == FR_OK ==> fptr == old(fptr) + |data| <= fsize && data == Content()[old(fptr)..fptr]
      ensures res == FR_DISK_ERR && old(err) == FR_OK ==> fs.faults > old(fs.faults)
    {
      hide Spares, ViewOf, MirroredOf, Fat, Rest, FileSect, Geometry.Fits, Geometry.DataFits, OwnerOf, IsChain, Cidx,
        Coff, Cap, At, Laid, Med, Linked, WindowOff, Buffered, FatFs.Valid, BytesOf, Inv;
      data := [];
      if err != FR_OK {
        return err, [];
      }
      if !canRead {
        return FR_DENIED, [];
      }
      var btr: dword := count;
      if btr > fsize - fptr {
        btr := fsize - fptr;
      }
      ghost var p, end, m := fptr, fptr + btr, Med();
      Join2(m, p, p, p);
      while btr > 0
        invariant Kept(fs) && FatOf(fs) == old(FatOf(fs)) && err == FR_OK
        invariant Inv() && At(fptr) && Med() == m
        invariant p <= fptr == end - btr && end <= fsize <= |m| * SS
        invariant data == BytesOf(m, p, fptr)
        decreases btr
      {
        ghost var at := fptr;
        var chunk;
        res, chunk := ReadStep(btr);
        if res != FR_OK {
          err := res;
          return res, data;
        }
        Join2(m, p, at, fptr);
        data := data + chunk;
        btr := btr - |chunk|;
      }
      ContentPart(p, end);
      res := FR_OK;
    }

    // ----- f_write -----

    /** A cluster taken from the free ones and appended to the chain leaves the file as it is. */
    twostate lemma Extended(r: nat)
      requires old(Inv()) && Kept(fs) && RestOf(fs) == old(RestOf(fs)) && buf.Length == SS && buf[..] == old(buf[..])
      requires dsect == old(dsect) && dirty == old(dirty) && dq == old(dq)
      requires chain == old(chain) + [r] && sclust == if old(sclust) == 0 then r else old(sclust)
      requires Grown(old(FatOf(fs)), FatOf(fs), old(chain), r, fs.geo.fatType.Range() - 1)
      ensures Inv() && |old(Med())| <= |Med()| && Med()[..|old(Med())|] == old(Med())
    {
      RangeSmall(fs);
      hide Spares, ViewOf, MirroredOf, Fat, Rest, FileSect, Medium, Laid, Cidx, Coff, IsChain, Grown, Cap;
      GrownChain(old(FatOf(fs)), FatOf(fs), old(chain), r, fs.geo.fatType.Range() - 1);
      LaysThen();
      Lays();
      GrownWindow(r);
      assert chain[..|old(chain)|] == old(chain);
      SparesGrown(fs.geo, old(FatOf(fs)), FatOf(fs), RestOf(fs), old(chain), foreign, fat0, rest0, r, fs.geo.fatType.Range() - 1);
      MediumPrefix(fs.geo, RestOf(fs), chain, |old(chain)|, dsect, buf[..], dirty);
      if dirty {
        SamePlace(fs.geo, |fs.disk|, chain, |old(chain)|, dq);
      }
    }

    twostate lemma GrownWindow(r: nat)
      requires old(Inv()) && Held() && Kept(fs) && chain == old(chain) + [r]
      requires Grown(old(FatOf(fs)), FatOf(fs), old(chain), r, fs.geo.fatType.Range() - 1)
      ensures WindowOff()
    {
      hide Spares, ViewOf, MirroredOf, Fat, Rest, OwnerOf, IsChain;
      RangeSmall(fs);
    }

    twostate lemma LaysThen()
      requires old(Held()) && old(Linked())
      ensures Laid(fs.geo, |old(fs.disk)|, old(chain)) && |old(RestOf(fs))| == |old(fs.disk)|
    {
    }

    /** The file keeps its sectors and may have got clusters more. */
    twostate predicate Followed(res: FResult)
      reads this, fs, fs.win, buf
    {
      && Kept(fs) && old(Inv()) && res in {FR_OK, FR_DISK_ERR, FR_INT_ERR}
      && (res == FR_OK ==> Inv() && old(chain) <= chain && |old(Med())| <= |Med()| && Med()[..|old(Med())|] == old(Med()))
      && (res == FR_OK && NoBad(old(FatOf(fs))) ==> NoBad(FatOf(fs)))
      && (res == FR_DISK_ERR ==> fs.faults > old(fs.faults))
      && (res == FR_INT_ERR ==> !NoBad(old(FatOf(fs))))
    }

    /** What taking a cluster for writing does. */
    twostate predicate Stretched(res: FResult, full: bool)
      reads this, fs, fs.win, buf
    {
      && Followed(res)
      && (full ==> res == FR_OK && chain == old(chain) && clust == old(clust) && Med() == old(Med()) && NoFree(FatOf(fs)))
    }

    /** The first cluster of a file that has none. */
    method FirstForWrite() returns (res: FResult, full: bool)
      requires Inv() && sclust == 0
      modifies this`sclust, this`chain, fs`disk, fs`wflag, fs`faults, fs`winsect, fs.win
      modifies fs`lastClust, fs`freeClust, fs`fsiDirty
      ensures Stretched(res, full)
      ensures res == FR_OK && !full ==> |chain| == 1 && sclust == chain[0] != 0
      ensures full ==> sclust == 0
    {
      hide Spares, ViewOf, MirroredOf, Fat, Rest, FileSect, Medium, Geometry.Fits, Geometry.DataFits, OwnerOf, Laid,
        IsChain, Cidx, Coff, Cap, Turn;
      RangeSmall(fs);
      var clst := CreateChain(fs, 0);
      if clst == 0 {
        WindowMoved();
        return FR_OK, true;
      }
      if clst == 1 {
        return FR_INT_ERR, false;
      }
      if clst == BAD {
        return FR_DISK_ERR, false;
      }
      sclust := clst;
      chain := chain + [clst];
      Extended(clst);
      res, full := FR_OK, false;
    }

    /** The cluster after place i of the chain, stretched when that is its end. */
    method NextForWrite(clst: dword, ghost i: nat) returns (res: FResult, full: bool, next: dword)
      requires Inv() && i < |chain| && clst == chain[i]
      modifies this`chain, fs`disk, fs`wflag, fs`faults, fs`winsect, fs.win
      modifies fs`lastClust, fs`freeClust, fs`fsiDirty
      ensures Stretched(res, full)
      ensures res == FR_OK && !full ==> i + 1 < |chain| && next == chain[i + 1] && 2 <= next < fs.geo.nFatent
      ensures full ==> i + 1 == |chain|
    {
      hide Spares, ViewOf, MirroredOf, Fat, Rest, FileSect, Medium, Geometry.Fits, Geometry.DataFits, OwnerOf, Laid,
        IsChain, Cidx, Coff, Cap, Turn;
      RangeSmall(fs);
      ChainNext(i);
      next := CreateChain(fs, clst);
      if next == 0 {
        WindowMoved();
        return FR_OK, true, 0;
      }
      if next == 1 {
        return FR_INT_ERR, false, 0;
      }
      if next == BAD {
        return FR_DISK_ERR, false, 0;
      }
      if i + 1 < |chain| {
        WindowMoved();
      } else {
        chain := chain + [next];
        Extended(next);
      }
      res, full := FR_OK, false;
    }

    lemma ChainNext(i: nat)
      requires Held() && Linked() && i < |chain|
      ensures 2 <= chain[i] < fs.geo.nFatent && sclust != 0
      ensures if i + 1 < |chain| then FatOf(fs)[chain[i]] == chain[i + 1] && 2 <= chain[i + 1] < fs.geo.nFatent else FatOf(fs)[chain[i]] >= fs.geo.nFatent
    {
      hide Spares, ViewOf, Fat, Geometry.Fits, Geometry.DataFits, FatFs.Valid;
    }

    /** On a cluster boundary, follows or stretches the chain to the cluster under the position. */
    method FollowForWrite() returns (res: FResult, full: bool)
      requires Inv() && At(fptr) && fptr % SS == 0 && Coff(fs.geo.csize, fptr / SS) == 0
      modifies this`clust, this`sclust, this`chain, fs`disk, fs`wflag, fs`faults, fs`winsect, fs.win
      modifies fs`lastClust, fs`freeClust, fs`fsiDirty
      ensures Stretched(res, full)
      ensures res == FR_OK && !full ==> fptr / SS < Cap(fs.geo, chain) && Current(fptr / SS)
    {
      hide Spares, ViewOf, MirroredOf, Fat, Rest, FileSect, Med, Geometry.Fits, Geometry.DataFits, OwnerOf, Laid,
        IsChain, Cidx, Coff, Cap, Linked, WindowOff, Buffered, FatFs.Valid, NoBad, NoFree, At, Inv;
      AtEdge();
      ghost var i := Cidx(fs.geo.csize, fptr / SS);
      var clst: dword;
      if fptr == 0 {
        clst := sclust;
        res, full := FR_OK, false;
        assert Med()[..|Med()|] == Med();
        if clst == 0 {
          res, full := FirstForWrite();
          clst := sclust;
        }
      } else {
        res, full, clst := NextForWrite(clust, i - 1);
      }
      if res == FR_OK && !full {
        clust := clst;
        EdgeMoved(i);
      }
    }

    /** After the chain was stretched at its end, the position is in its last cluster. */
    lemma EdgeMoved(i: nat)
      requires Held() && i == Cidx(fs.geo.csize, fptr / SS) < |chain| && clust == chain[i]
      ensures fptr / SS < Cap(fs.geo, chain) && Current(fptr / SS)
    {
      assert fs.geo.csize > 0;
      Room(fs.geo.csize, |chain|, fptr / SS);
    }

    /** On a cluster boundary the position is at a cluster of the chain or at its end. */
    lemma AtEdge()
      requires Inv() && At(fptr) && fptr % SS == 0 && Coff(fs.geo.csize, fptr / SS) == 0
      ensures var i := Cidx(fs.geo.csize, fptr / SS);
        && i <= |chain| && (fptr / SS < Cap(fs.geo, chain) <==> i < |chain|)
        && (fptr == 0 ==> i == 0) && (fptr > 0 ==> i > 0 && clust == chain[i - 1] && chain != [])
        && (fptr > 0 ==> 2 <= clust < fs.geo.nFatent && (if i < |chain| then FatOf(fs)[clust] == chain[i] else FatOf(fs)[clust] >= fs.geo.nFatent))
        && (i < |chain| ==> 2 <= chain[i] < fs.geo.nFatent)
        && (chain == [] <==> sclust == 0) && (chain != [] ==> sclust == chain[0])
    {
      hide Spares, ViewOf, Fat, Geometry.Fits, Geometry.DataFits, Laid, FileSect, FatFs.Valid, WindowOff, Buffered,
        Alone;
      Lays();
      var q := fptr / SS;
      Room(fs.geo.csize, |chain|, q);
      if fptr > 0 {
        Boundary(fs.geo.csize, fptr);
        LastClusterInside(fs.geo.csize, fptr, |chain|);
      }
    }

    /** Bytes that belong to the file while a write is under way. */
    ghost function Live(): nat
      reads `fsize, `fptr
    {
      if fptr > fsize then fptr else fsize
    }

    /** The chunk now stands in the file at the old position, and the position moved past it. */
    twostate predicate Put(chunk: seq<byte>)
      reads this, fs, fs.win, buf
    {
      && old(Inv()) && Inv() && At(fptr) && chunk != [] && fsize == old(fsize)
      && old(fptr) + |chunk| == fptr && Live() <= |Med()| * SS && old(Live()) <= |old(Med())| * SS
      && BytesOf(Med(), 0, Live()) == Spliced(BytesOf(old(Med()), 0, old(Live())), old(fptr), chunk)
    }

    /** Writes whole sectors of the file straight from the caller, past the clean buffer. */
    method WriteRun(data: seq<byte>, sect: dword, cc: nat, ghost q: nat) returns (ok: bool)
      requires Inv() && !dirty && Slot(q, sect) && 0 < cc && Coff(fs.geo.csize, q) + cc <= fs.geo.csize && |data| == cc * SS
      modifies buf, fs`disk, fs`faults
      ensures Kept(fs) && FatOf(fs) == old(FatOf(fs))
      ensures ok ==> Inv() && q + cc <= |old(Med())| && Med() == old(Med())[..q] + Split(data, cc) + old(Med())[q + cc..]
      ensures !ok ==> fs.faults > old(fs.faults)
    {
      hide Spares, ViewOf, MirroredOf, Fat, Rest, FileSect, Geometry.Fits, Geometry.DataFits, IsChain, Medium, Split,
        Cap, Cidx, Coff, OwnerOf, FatFs.Valid, Laid, Buffered;
      RunOff(q, cc);
      Lays();
      CleanBuffer();
      AmongTest(|fs.disk|, dsect, sect, cc);
      ghost var rest, b := RestOf(fs), buf[..];
      ok := WriteData(fs, data, sect, cc);
      if ok {
        Refresh(data, sect, cc);
        Overwritten(rest, b, q, cc, Split(data, cc));
        SparesRun(fs.geo, FatOf(fs), rest, chain, foreign, fat0, rest0, q, cc, Split(data, cc));
      }
    }

    /** A clean buffer that is in use holds a sector of the device. */
    lemma CleanBuffer()
      requires Inv() && !dirty
      ensures dsect != 0 ==> fs.geo.database <= dsect < |fs.disk| && |RestOf(fs)| == |fs.disk| && buf[..] == RestOf(fs)[dsect]
      ensures Spares(fs.geo, FatOf(fs), RestOf(fs), chain, foreign, fat0, rest0)
    {
      hide ViewOf, MirroredOf, Fat, Rest, Spares;
    }

    /** The buffer follows if its sector is among those written. */
    method Refresh(data: seq<byte>, sect: dword, cc: nat)
      requires buf.Length == SS && |data| == cc * SS && (Sub32(dsect, sect) < cc <==> sect <= dsect < sect + cc)
      modifies buf
      ensures buf[..] == if sect <= dsect < sect + cc then Split(data, cc)[dsect - sect] else old(buf[..])
    {
      hide Split;
      if Sub32(dsect, sect) < cc {
        var k: nat := dsect - sect;
        var part := SliceOf(data, cc, k);
        CopyInto(buf, 0, part);
        assert buf[..] == part;
      }
    }

    /** Sectors of the file were stored on the device, and the clean buffer refilled where it was one of them. */
    lemma Overwritten(rest: seq<Sector>, b: Sector, q: nat, cc: nat, src: seq<Sector>)
      requires Held() && Linked() && !dirty && Laid(fs.geo, |rest|, chain) && |rest| == |fs.disk|
      requires q < Cap(fs.geo, chain) && 0 < cc == |src| && Coff(fs.geo.csize, q) + cc <= fs.geo.csize
      requires dsect != 0 ==> fs.geo.database <= dsect < |rest| && b == rest[dsect]
      requires FileSect(fs.geo, chain, q) >= 0 && RestOf(fs) == Written(rest, FileSect(fs.geo, chain, q), cc, src)
      requires buf[..] == if FileSect(fs.geo, chain, q) <= dsect < FileSect(fs.geo, chain, q) + cc then src[dsect - FileSect(fs.geo, chain, q)] else b
      ensures Buffered() && q + cc <= Cap(fs.geo, chain)
      ensures var m := Medium(fs.geo, rest, chain, dsect, b, false); Med() == m[..q] + src + m[q + cc..]
    {
      hide Spares, ViewOf, Fat, Rest, FileSect, Geometry.Fits, Geometry.DataFits, OwnerOf, IsChain, Cidx, Coff, Cap,
        Laid, Medium, FatFs.Valid;
      MediumWrite(fs.geo, rest, chain, q, cc, src, dsect, b);
      MediumClean(fs.geo, RestOf(fs), chain, dsect, b, dsect, buf[..]);
    }

    method WriteDirect(data: seq<byte>, sect: dword, cc: nat, ghost q: nat) returns (res: FResult)
      requires Inv() && !dirty && Slot(q, sect) && Current(q) && 0 < cc && Coff(fs.geo.csize, q) + cc <= fs.geo.csize
      requires |data| == cc * SS && fptr == q * SS && fptr + |data| < 0x1_0000_0000 && Live() <= |Med()| * SS
      modifies buf, this`fptr, fs`disk, fs`faults
      ensures Kept(fs) && FatOf(fs) == old(FatOf(fs))
      ensures res == FR_OK ==> Put(data)
      ensures res != FR_OK ==> res == FR_DISK_ERR && fs.faults > old(fs.faults)
    {
      hide Spares, ViewOf, MirroredOf, Fat, Rest, FileSect, Med, Geometry.Fits, Geometry.DataFits, OwnerOf, IsChain,
        Cidx, Coff, Cap, At, Laid, Linked, WindowOff, Buffered, FatFs.Valid, BytesOf, Spliced, Split, Kept, Inv;
      ghost var m, live := Med(), Live();
      var ok := WriteRun(data, sect, cc, q);
      if !ok {
        return FR_DISK_ERR;
      }
      PutSectors(m, live, q, cc, data);
      Reached(q, cc);
      fptr := fptr + cc * SS;
      res := FR_OK;
    }

    /** The bytes are copied into the buffer, which now is dirty and belongs to sector q. */
    method Mark(data: seq<byte>, sect: dword, o: nat, ghost q: nat)
      requires Inv() && Slot(q, sect) && o + |data| <= SS && (dsect == sect || !dirty)
      modifies buf, this`dsect, this`dirty, this`dq
      ensures Inv() && dsect == sect && q < |old(Med())| && Med() == old(Med())[q := buf[..]]
      ensures buf[..][..o] == old(buf[..])[..o] && buf[..][o..o + |data|] == data && buf[..][o + |data|..] == old(buf[..])[o + |data|..]
    {
      hide Spares, ViewOf, MirroredOf, Fat, Rest, FileSect, Geometry.Fits, Geometry.DataFits, OwnerOf, IsChain, Cidx,
        Coff, Cap, Laid, Med, Linked, WindowOff, Buffered, FatFs.Valid, Inv, Alone;
      CopyInto(buf, o, data);
      dsect := sect;
      dirty := true;
      dq := q;
      Dirtied(q);
    }

    /** Puts part of a sector into the buffer: one that is in it, or a new one behind the end of the file. */
    method WritePart(data: seq<byte>, sect: dword, o: nat, ghost q: nat) returns (res: FResult)
      requires Inv() && Slot(q, sect) && Current(q) && fptr == q * SS + o && data != [] && o + |data| <= SS
      requires fptr + |data| < 0x1_0000_0000 && Live() <= |Med()| * SS
      requires dsect == sect || (o == 0 && !dirty && fsize <= fptr)
      modifies buf, this`dsect, this`dirty, this`dq, this`fptr
      ensures res == FR_OK && Put(data)
    {
      hide Spares, ViewOf, MirroredOf, Fat, Rest, FileSect, Geometry.Fits, Geometry.DataFits, OwnerOf, IsChain, Cidx,
        Coff, Cap, At, Laid, Med, Linked, WindowOff, Buffered, FatFs.Valid, BytesOf, Spliced, Inv, Alone,
        LastCluster;
      ghost var m, live := Med(), Live();
      if dsect == sect {
        BufferHolds(q);
      }
      Mark(data, sect, o, q);
      PutSector(m, live, q, o, data, buf[..]);
      ReachedWithin(q, o + |data|);
      fptr := fptr + |data|;
      res := FR_OK;
    }

    twostate lemma Dirtied(q: nat)
      requires old(Inv()) && Held() && chain == old(chain) && sclust == old(sclust) && dirty && dq == q && Slot(q, dsect)
      requires FatOf(fs) == old(FatOf(fs)) && RestOf(fs) == old(RestOf(fs))
      requires old(dsect) == dsect || !old(dirty)
      requires fs.winsect == old(fs.winsect) && |fs.disk| == |old(fs.disk)|
      ensures Inv() && q < |old(Med())| && Med() == old(Med())[q := buf[..]]
    {
      Lays();
      hide Spares, ViewOf, Fat, Rest, FileSect, Geometry.Fits, Geometry.DataFits, OwnerOf, IsChain, Cidx, Coff, Cap,
        Laid, Medium, FatFs.Valid;
      var b, d, dirt := old(buf[..]), old(dsect), old(dirty);
      MediumPut(fs.geo, RestOf(fs), chain, q, dsect, b, dirt, buf[..]);
      if d != dsect {
        MediumClean(fs.geo, RestOf(fs), chain, d, b, dsect, b);
      }
    }

    /** What one step of f_write does: some bytes are written, or no cluster is free, or it fails. */
    twostate predicate Advanced(data: seq<byte>, res: FResult, n: nat, full: bool)
      reads this, fs, fs.win, buf
    {
      && Kept(fs) && old(Inv()) && res in {FR_OK, FR_DISK_ERR, FR_INT_ERR}
      && (res == FR_OK && !full ==> 0 < n <= |data| && Put(data[..n]))
      && (full ==> res == FR_OK && n == 0 && NoFree(FatOf(fs)) && Inv() && At(fptr) && Med() == old(Med()) && fptr == old(fptr))
      && (res == FR_OK && NoBad(old(FatOf(fs))) ==> NoBad(FatOf(fs)))
      && (res == FR_DISK_ERR ==> fs.faults > old(fs.faults))
      && (res == FR_INT_ERR ==> !NoBad(old(FatOf(fs))))
    }

    /** One round of f_write: whole sectors directly, or part of a sector through the buffer. */
    method WriteStep(data: seq<byte>) returns (res: FResult, n: nat, full: bool)
      requires Inv() && At(fptr) && data != [] && fptr + |data| < 0x1_0000_0000 && Live() <= |Med()| * SS
      modifies this`clust, this`sclust, this`chain, this`dirty, this`dsect, this`dq, this`fptr, buf
      modifies fs`disk, fs`wflag, fs`faults, fs`winsect, fs.win, fs`lastClust, fs`freeClust, fs`fsiDirty
      ensures Advanced(data, res, n, full)
    {
      hide Spares, ViewOf, MirroredOf, Fat, Rest, FileSect, Med, Geometry.Fits, Geometry.DataFits, OwnerOf, IsChain,
        Cidx, Coff, Cap, Laid, Linked, WindowOff, Buffered, FatFs.Valid, BytesOf, Spliced, Inv, At, NoBad, NoFree;
      if fptr % SS == 0 {
        res, n, full := WriteOnBoundary(data);
      } else {
        Within(fptr);
        n := SS - fptr % SS;
        if n > |data| {
          n := |data|;
        }
        res := WritePart(data[..n], dsect, fptr % SS, fptr / SS);
        full := false;
      }
    }

    /** The round on a sector boundary. */
    method WriteOnBoundary(data: seq<byte>) returns (res: FResult, n: nat, full: bool)
      requires fptr % SS == 0 && Inv() && At(fptr) && data != [] && fptr + |data| < 0x1_0000_0000 && Live() <= |Med()| * SS
      modifies this`clust, this`sclust, this`chain, this`dirty, this`dsect, this`dq, this`fptr, buf
      modifies fs`disk, fs`wflag, fs`faults, fs`winsect, fs.win, fs`lastClust, fs`freeClust, fs`fsiDirty
      ensures Advanced(data, res, n, full)
    {
      hide Spares, ViewOf, MirroredOf, Fat, Rest, FileSect, Med, Geometry.Fits, Geometry.DataFits, OwnerOf, IsChain,
        Cidx, Coff, Cap, Laid, Linked, WindowOff, Buffered, FatFs.Valid, BytesOf, Spliced, Inv, At, NoBad, NoFree;
      ghost var q, m := fptr / SS, Med();
      n := 0;
      OnBoundaryToo();
      var csect := fptr / SS % fs.geo.csize;
      var sect;
      res, full, sect := LocateForWrite();
      if res != FR_OK || full {
        return;
      }
      SamePrefix(m, Med(), Live());
      var cc := |data| / SS;
      if cc > 0 {
        if csect + cc > fs.geo.csize {
          cc := fs.geo.csize - csect;
        }
        n := cc * SS;
        res := WriteDirect(data[..n], sect, cc, q);
        return;
      }
      if dsect != sect && fptr < fsize {
        var ok := Fill(sect, q);
        if !ok {
          return FR_DISK_ERR, 0, false;
        }
      }
      n := |data|;
      res := WritePart(data[..n], sect, 0, q);
    }

    /** On a sector boundary: the cluster under the position, the dirty buffer written back, and the sector. */
    method LocateForWrite() returns (res: FResult, full: bool, sect: dword)
      requires Inv() && At(fptr) && fptr % SS == 0
      modifies this`clust, this`sclust, this`chain, this`dirty
      modifies fs`disk, fs`wflag, fs`faults, fs`winsect, fs.win, fs`lastClust, fs`freeClust, fs`fsiDirty
      ensures Kept(fs)
      ensures res == FR_OK ==> Inv() && |old(Med())| <= |Med()| && Med()[..|old(Med())|] == old(Med())
      ensures res == FR_OK && !full ==> !dirty && Slot(fptr / SS, sect) && Current(fptr / SS)
      ensures full ==> res == FR_OK && NoFree(FatOf(fs)) && At(fptr) && Med() == old(Med())
      ensures res == FR_DISK_ERR ==> fs.faults > old(fs.faults)
      ensures res == FR_INT_ERR ==> !NoBad(old(FatOf(fs)))
      ensures res == FR_OK && NoBad(old(FatOf(fs))) ==> NoBad(FatOf(fs))
      ensures res in {FR_OK, FR_DISK_ERR, FR_INT_ERR}
    {
      hide Spares, ViewOf, MirroredOf, Fat, Rest, FileSect, Med, Geometry.Fits, Geometry.DataFits, OwnerOf, IsChain,
        Cidx, Coff, Cap, Laid, Linked, WindowOff, Buffered, FatFs.Valid, BytesOf, Spliced, Inv, At, NoBad, NoFree;
      res, full, sect := FR_OK, false, 0;
      OnBoundaryToo();
      ghost var q := fptr / SS;
      var csect := fptr / SS % fs.geo.csize;
      if csect == 0 {
        res, full := FollowForWrite();
        if res != FR_OK || full {
          return;
        }
      }
      if dirty {
        var ok := Flush();
        if !ok {
          return FR_DISK_ERR, false, 0;
        }
      }
      SectorUnder(q);
      sect := Clust2Sect(fs.geo, clust);
      if sect == 0 {
        return FR_INT_ERR, false, sect;
      }
      sect := sect + csect;
    }

    /** f_write: the bytes stand in the file at its position; all of them, unless no cluster is free or 4 GiB are reached. */
    method Write(wbuff: seq<byte>) returns (res: FResult, bw: nat)
      requires Valid() && |wbuff| < 0x1_0000_0000
      modifies this`clust, this`sclust, this`chain, this`dirty, this`dsect, this`dq, this`fptr, this`fsize, this`err, this`written, buf
      modifies fs`disk, fs`wflag, fs`faults, fs`winsect, fs.win, fs`lastClust, fs`freeClust, fs`fsiDirty
      ensures Valid() && Kept(fs)
      ensures old(err) != FR_OK ==> res == old(err) && err == old(err) && bw == 0
      ensures old(err) == FR_OK && !canWrite ==> res == FR_DENIED && err == FR_OK && bw == 0 && fptr == old(fptr) && Content() == old(Content())
      ensures old(err) == FR_OK && canWrite ==> res in {FR_OK, FR_DISK_ERR, FR_INT_ERR} && err == res
      ensures res == FR_OK ==> bw <= |wbuff| && fptr == old(fptr) + bw && written
      ensures res == FR_OK ==> Content() == Spliced(old(Content()), old(fptr), wbuff[..bw])
      ensures res == FR_OK && bw < |wbuff| ==> NoFree(FatOf(fs)) || (bw == 0 && old(fptr) + |wbuff| >= 0x1_0000_0000)
      ensures res == FR_DISK_ERR && old(err) == FR_OK ==> fs.faults > old(fs.faults)
      ensures res == FR_INT_ERR && old(err) == FR_OK ==> !NoBad(old(FatOf(fs)))
      ensures res in {FR_OK, FR_DENIED} && NoBad(old(FatOf(fs))) ==> NoBad(FatOf(fs))
    {
      hide Spares, ViewOf, MirroredOf, Fat, Rest, FileSect, Geometry.Fits, Geometry.DataFits, OwnerOf, IsChain, Cidx,
        Coff, Cap, At, Laid, Med, Linked, WindowOff, Buffered, FatFs.Valid, BytesOf, Spliced, NoBad, NoFree, Inv;
      bw := 0;
      if err != FR_OK {
        return err, 0;
      }
      if !canWrite {
        return FR_DENIED, 0;
      }
      var data := wbuff;
      if (fptr + |wbuff|) % 0x1_0000_0000 < fptr {
        data := [];
      }
      WrapCheck(fptr, |wbuff|);
      res, bw := WriteAll(data);
      if res != FR_OK {
        err := res;
        return;
      }
      assert data[..bw] == wbuff[..bw];
      if fptr > fsize {
        fsize := fptr;
      }
      written := true;
    }

    lemma WrapCheck(p: dword, n: nat)
      requires n < 0x1_0000_0000
      ensures (p + n) % 0x1_0000_0000 < p <==> p + n >= 0x1_0000_0000
    {
    }

    /** The loop of f_write. */
    method WriteAll(data: seq<byte>) returns (res: FResult, bw: nat)
      requires Inv() && At(fptr) && fptr <= fsize <= |Med()| * SS && fptr + |data| < 0x1_0000_0000
      modifies this`clust, this`sclust, this`chain, this`dirty, this`dsect, this`dq, this`fptr, buf
      modifies fs`disk, fs`wflag, fs`faults, fs`winsect, fs.win, fs`lastClust, fs`freeClust, fs`fsiDirty
      ensures Kept(fs) && res in {FR_OK, FR_DISK_ERR, FR_INT_ERR} && bw <= |data|
      ensures res == FR_OK ==> Inv() && At(fptr) && fptr == old(fptr) + bw && Live() <= |Med()| * SS
      ensures res == FR_OK ==> BytesOf(Med(), 0, Live()) == Spliced(BytesOf(old(Med()), 0, fsize), old(fptr), data[..bw])
      ensures res == FR_OK && bw < |data| ==> NoFree(FatOf(fs))
      ensures res == FR_DISK_ERR ==> fs.faults > old(fs.faults)
      ensures res == FR_INT_ERR ==> !NoBad(old(FatOf(fs)))
      ensures res == FR_OK && NoBad(old(FatOf(fs))) ==> NoBad(FatOf(fs))
    {
      hide Spares, ViewOf, MirroredOf, Fat, Rest, FileSect, Geometry.Fits, Geometry.DataFits, OwnerOf, IsChain, Cidx,
        Coff, Cap, At, Laid, Med, Linked, WindowOff, Buffered, FatFs.Valid, BytesOf, Spliced, NoBad, NoFree, Inv;
      bw := 0;
      ghost var p, c := fptr, BytesOf(Med(), 0, fsize);
      SplicedNone(c, p);
      assert data[..0] == [];
      var full := false;
      while bw < |data| && !full
        invariant Kept(fs) && Inv() && At(fptr) && bw <= |data|
        invariant fptr == p + bw && Live() <= |Med()| * SS
        invariant BytesOf(Med(), 0, Live()) == Spliced(c, p, data[..bw])
        invariant NoBad(old(FatOf(fs))) ==> NoBad(FatOf(fs))
        invariant full ==> NoFree(FatOf(fs))
        decreases |data| - bw, !full
      {
        var n;
        res, n, full := WriteStep(data[bw..]);
        if res != FR_OK {
          return;
        }
        if !full {
          SplicedTwice(c, p, data[..bw], data[bw..][..n]);
          assert data[..bw] + data[bw..][..n] == data[..bw + n];
          bw := bw + n;
        }
      }
      res := FR_OK;
    }

    /** On a sector boundary off the cluster boundaries, the cluster of the position is current. */
    lemma OnBoundaryToo()
      requires Held() && Linked() && At(fptr) && fptr % SS == 0
      ensures fs.geo.csize > 0 && fptr / SS % fs.geo.csize == Coff(fs.geo.csize, fptr / SS)
      ensures Coff(fs.geo.csize, fptr / SS) != 0 ==> fptr / SS < Cap(fs.geo, chain) && Current(fptr / SS)
    {
      Lays();
      hide Spares, ViewOf, Fat, Geometry.Fits, Geometry.DataFits, Laid, IsChain, FileSect;
      CidxIs(fs.geo.csize, fptr / SS);
      if fptr > 0 {
        Boundary(fs.geo.csize, fptr);
        Room(fs.geo.csize, |chain|, fptr / SS);
      }
    }

    // ----- f_lseek -----

    /** Start of place i of the chain, as a position. */
    ghost function StartOf(i: nat): nat {
      Times(i, fs.geo.csize) * SS
    }

    /** A position inside the cluster at place i, or at its end. */
    lemma InCluster(i: nat, ofs: nat)
      requires Held() && i < |chain| && clust == chain[i] && 0 < ofs <= fs.geo.csize * SS
      ensures var p := StartOf(i) + ofs;
        && p <= Cap(fs.geo, chain) * SS && LastCluster(fs.geo.csize, p) == i
        && p % SS == ofs % SS
        && (ofs % SS != 0 ==> ofs / SS < fs.geo.csize && Current(p / SS) && Coff(fs.geo.csize, p / SS) == ofs / SS && p / SS < Cap(fs.geo, chain))
    {
      assert fs.geo.csize > 0;
      hide FatFs.Valid, Geometry.Fits, Geometry.DataFits;
      var p, csize := StartOf(i) + ofs, fs.geo.csize;
      TimesGrows(csize, i, |chain|);
      assert (ofs - 1) / SS < csize;
      assert (p - 1) / SS == Times(i, csize) + (ofs - 1) / SS;
      Place(csize, i, (ofs - 1) / SS);
      if ofs % SS != 0 {
        assert ofs / SS == (ofs - 1) / SS && p / SS == Times(i, csize) + ofs / SS;
        Room(csize, |chain|, p / SS);
      }
    }

    /** Where a seek starts: the current cluster when the target is not before it, else the first one. */
    lemma SeekStart(ofs: nat)
      requires Held() && Linked() && At(fptr) && fptr > 0 && ofs > 0
      ensures var bcs := fs.geo.csize * SS; var i := LastCluster(fs.geo.csize, fptr);
        && i < |chain| && clust == chain[i] && bcs > 0 && i == Cidx(fs.geo.csize, (fptr - 1) / SS)
        && (fptr - 1) - (fptr - 1) % bcs == Times(i, fs.geo.csize) * SS
        && ((ofs - 1) / bcs >= (fptr - 1) / bcs ==> ofs > Times(i, fs.geo.csize) * SS)
    {
      Lays();
      hide Cidx, Coff, Times, Cap, ViewOf, Fat, Geometry.Fits, Geometry.DataFits, Laid, IsChain, FileSect,
        FatFs.Valid, Size;
      SeekUnits(fs.geo.csize, fptr, ofs);
    }

    lemma MoreClusters(i: nat, target: nat)
      requires i < |chain| && StartOf(i) + fs.geo.csize * SS < target <= Cap(fs.geo, chain) * SS
      ensures i + 1 < |chain|
    {
      assert Times(i + 1, fs.geo.csize) == fs.geo.csize + Times(i, fs.geo.csize);
    }

    /** The cluster following loop of f_lseek: from place i0 on, as far as the target or the chain goes. */
    method Follow(base: nat, first: dword, rest: nat, ghost i0: nat)
      returns (res: FResult, at: nat, ofs: nat, clst: dword, full: bool, ghost i: nat)
      requires Inv() && i0 < |chain| && first == clust == chain[i0] && base == StartOf(i0) && rest > 0
      requires !canWrite ==> base + rest <= Cap(fs.geo, chain) * SS
      modifies this`clust, this`chain, fs`disk, fs`wflag, fs`faults, fs`winsect, fs.win
      modifies fs`lastClust, fs`freeClust, fs`fsiDirty
      ensures Followed(res)
      ensures res == FR_OK ==> i < |chain| && clust == clst == chain[i] && at == StartOf(i) && 0 < ofs <= fs.geo.csize * SS
      ensures res == FR_OK && !full ==> at + ofs == base + rest
      ensures res == FR_OK && full ==> NoFree(FatOf(fs)) && ofs == fs.geo.csize * SS && i + 1 == |chain| && at + ofs < base + rest && canWrite
    {
      hide Spares, ViewOf, MirroredOf, Fat, Rest, FileSect, Med, Geometry.Fits, Geometry.DataFits, OwnerOf, Laid,
        IsChain, Cidx, Coff, Cap, Linked, WindowOff, Buffered, FatFs.Valid, NoBad, NoFree, At, Inv, StartOf;
      var bcs := fs.geo.csize * SS;
      at, ofs, clst, full := base, rest, first, false;
      i := i0;
      res := FR_OK;
      assert Med()[..|Med()|] == Med();
      while ofs > bcs
        invariant res == FR_OK && Followed(res) && i < |chain| && clust == clst == chain[i] && at == StartOf(i)
        invariant 0 < ofs && !full && at + ofs == base + rest
        invariant !canWrite ==> chain == old(chain)
        decreases ofs
      {
        ghost var was := Med();
        NextStart(i);
        if canWrite {
          var next;
          res, full, next := NextForWrite(clst, i);
          if res != FR_OK {
            return;
          }
          assert Med()[..|old(Med())|] == was[..|old(Med())|];
          if full {
            ofs := bcs;
            return;
          }
          clst := next;
        } else {
          MoreClusters(i, base + rest);
          ChainNext(i);
          label Before:
          clst := GetFat(fs, clst);
          WindowMoved@Before();
          if clst == BAD {
            res := FR_DISK_ERR;
            return;
          }
        }
        if clst <= 1 || clst >= fs.geo.nFatent {
          res := FR_INT_ERR;
          return;
        }
        clust := clst;
        i := i + 1;
        at := at + bcs;
        ofs := ofs - bcs;
      }
    }

    lemma NextStart(i: nat)
      ensures StartOf(i + 1) == StartOf(i) + fs.geo.csize * SS
    {
      assert Times(i + 1, fs.geo.csize) == fs.geo.csize + Times(i, fs.geo.csize);
    }

    /** The cluster a seek to a position other than 0 starts from; none when the file has none and cannot get one. */
    method SeekFrom(ofs: dword) returns (res: FResult, full: bool, base: nat, clst: dword, ghost i: nat)
      requires Inv() && At(fptr) && 0 < ofs && (!canWrite ==> ofs <= Cap(fs.geo, chain) * SS)
      modifies this`clust, this`sclust, this`chain, fs`disk, fs`wflag, fs`faults, fs`winsect, fs.win
      modifies fs`lastClust, fs`freeClust, fs`fsiDirty
      ensures Followed(res)
      ensures res == FR_OK && !full ==> i < |chain| && clust == clst == chain[i] && base == StartOf(i) < ofs && clst != 0
      ensures full ==> res == FR_OK && clst == 0 && chain == [] && NoFree(FatOf(fs)) && canWrite
      ensures !canWrite && res == FR_OK ==> chain == old(chain)
    {
      hide Spares, ViewOf, MirroredOf, Fat, Rest, FileSect, Med, Geometry.Fits, Geometry.DataFits, OwnerOf, Laid,
        IsChain, Cidx, Coff, Cap, Linked, WindowOff, Buffered, FatFs.Valid, NoBad, NoFree, Inv, Times;
      res, full, base, clst, i := FR_OK, false, 0, 0, 0;
      assert Med()[..|Med()|] == Med();
      var bcs := fs.geo.csize * SS;
      if fptr > 0 {
        SeekStart(ofs);
      }
      ChainHead(ofs);
      if fptr > 0 && (ofs - 1) / bcs >= (fptr - 1) / bcs {
        base := (fptr - 1) - (fptr - 1) % bcs;
        clst := clust;
        i := LastCluster(fs.geo.csize, fptr);
      } else {
        clst := sclust;
        if clst == 0 {
          res, full := FirstForWrite();
          if res != FR_OK {
            return;
          }
          clst := sclust;
        }
        clust := clst;
      }
    }

    lemma ChainHead(ofs: nat)
      requires Held() && Linked() && 0 < ofs
      ensures StartOf(0) == 0 && (sclust != 0 ==> chain != [] && chain[0] == sclust)
      ensures sclust == 0 ==> chain == [] && Cap(fs.geo, chain) == 0
      ensures forall i :: 0 <= i < |chain| ==> chain[i] != 0
    {
      hide Spares, ViewOf, Fat, FatFs.Valid, Geometry.Fits;
    }

    /** f_lseek: the position, and in write mode a longer file when it lies behind the end; bytes in the gap are not specified. */
    method Lseek(target: dword) returns (res: FResult)
      requires Valid()
      modifies this`clust, this`sclust, this`chain, this`dirty, this`dsect, this`fptr, this`fsize, this`err, this`written, buf
      modifies fs`disk, fs`wflag, fs`faults, fs`winsect, fs.win, fs`lastClust, fs`freeClust, fs`fsiDirty
      ensures Valid() && Kept(fs)
      ensures old(err) != FR_OK ==> res == err == old(err)
      ensures old(err) == FR_OK ==> res == err && res in {FR_OK, FR_DISK_ERR, FR_INT_ERR}
      ensures res == FR_OK ==>
        var t := if target > old(fsize) && !canWrite then old(fsize) else target;
        fptr == t || (canWrite && fptr < t && fptr == Cap(fs.geo, chain) * SS && NoFree(FatOf(fs)))
      ensures res == FR_OK ==> fsize == (if fptr > old(fsize) then fptr else old(fsize)) && Content()[..old(fsize)] == old(Content())
      ensures res == FR_DISK_ERR && old(err) == FR_OK ==> fs.faults > old(fs.faults)
      ensures res == FR_INT_ERR && old(err) == FR_OK ==> !NoBad(old(FatOf(fs)))
      ensures res in {FR_OK, FR_DENIED} && NoBad(old(FatOf(fs))) ==> NoBad(FatOf(fs))
    {
      hide Spares, ViewOf, MirroredOf, Fat, Rest, FileSect, Med, Geometry.Fits, Geometry.DataFits, OwnerOf, Laid,
        IsChain, Cidx, Coff, Cap, Linked, WindowOff, Buffered, FatFs.Valid, NoBad, NoFree, At, Inv, BytesOf;
      if err != FR_OK {
        return err;
      }
      var ofs := target;
      if ofs > fsize && !canWrite {
        ofs := fsize;
      }
      ghost var m := Med();
      if ofs == 0 {
        fptr := 0;
        AtStart();
        SamePrefix(m, Med(), fsize);
        assert Content()[..fsize] == Content();
        return FR_OK;
      }
      res := SeekInto(ofs);
      if res != FR_OK {
        err := res;
        return;
      }
      SamePrefix(m, Med(), fsize);
      ghost var size := fsize;
      if fptr > fsize {
        fsize := fptr;
        written := true;
      }
      Join2(Med(), 0, size, fsize);
    }

    lemma AtStart()
      ensures At(0)
    {
    }

    lemma NoClusters()
      requires chain == []
      ensures At(0) && Cap(fs.geo, chain) * SS == 0
    {
    }

    lemma EndOfChain(i: nat)
      requires i + 1 == |chain|
      ensures StartOf(i) + fs.geo.csize * SS == Cap(fs.geo, chain) * SS
    {
      NextStart(i);
    }

    /** The end of a seek: the position, and the sector of a position inside one in the buffer. */
    method Settle(at: nat, ofs: nat, clst: dword, ghost i: nat) returns (res: FResult)
      requires Inv() && i < |chain| && clust == clst == chain[i] && at == StartOf(i) && 0 < ofs <= fs.geo.csize * SS
      requires at + ofs < 0x1_0000_0000
      modifies this`dirty, this`dsect, this`fptr, buf, fs`disk, fs`faults
      ensures Kept(fs) && FatOf(fs) == old(FatOf(fs))
      ensures res == FR_OK ==> Inv() && Med() == old(Med()) && fptr == at + ofs && At(fptr)
      ensures res != FR_OK ==> res == FR_DISK_ERR && fs.faults > old(fs.faults)
    {
      hide Spares, ViewOf, MirroredOf, Fat, Rest, FileSect, Med, Geometry.Fits, Geometry.DataFits, OwnerOf, Laid,
        IsChain, Cidx, Coff, Cap, Linked, WindowOff, Buffered, FatFs.Valid, Inv, StartOf, LastCluster;
      InCluster(i, ofs);
      fptr := at + ofs;
      var nsect: dword := 0;
      if ofs % SS != 0 {
        SectorUnder(fptr / SS);
        nsect := Clust2Sect(fs.geo, clst);
        if nsect == 0 {
          return FR_INT_ERR;
        }
        nsect := nsect + ofs / SS;
      }
      if fptr % SS != 0 && nsect != dsect {
        var ok := Load(nsect, fptr / SS);
        if !ok {
          return FR_DISK_ERR;
        }
      }
      res := FR_OK;
    }

    /** The part of f_lseek that moves to a position other than 0. */
    method SeekInto(ofs: dword) returns (res: FResult)
      requires Inv() && At(fptr) && 0 < ofs && (!canWrite ==> ofs <= Cap(fs.geo, chain) * SS)
      modifies this`clust, this`sclust, this`chain, this`dirty, this`dsect, this`fptr, buf
      modifies fs`disk, fs`wflag, fs`faults, fs`winsect, fs.win, fs`lastClust, fs`freeClust, fs`fsiDirty
      ensures Followed(res)
      ensures res == FR_OK ==> At(fptr)
      ensures res == FR_OK ==> fptr == ofs || (canWrite && fptr < ofs && fptr == Cap(fs.geo, chain) * SS && NoFree(FatOf(fs)))
    {
      hide Spares, ViewOf, MirroredOf, Fat, Rest, FileSect, Med, Geometry.Fits, Geometry.DataFits, OwnerOf, Laid,
        IsChain, Cidx, Coff, Cap, Linked, WindowOff, Buffered, FatFs.Valid, NoBad, NoFree, At, Inv, StartOf;
      ghost var m := Med();
      var full, base, clst;
      ghost var i;
      res, full, base, clst, i := SeekFrom(ofs);
      if res != FR_OK {
        return;
      }
      fptr := 0;
      if full {
        NoClusters();
        return;
      }
      ghost var m1 := Med();
      var at, rest;
      res, at, rest, clst, full, i := Follow(base, clst, ofs - base, i);
      if res != FR_OK {
        return;
      }
      assert Med()[..|m|] == m1[..|m|];
      res := Settle(at, rest, clst, i);
      if full {
        EndOfChain(i);
      }
    }

    // ----- f_truncate -----

    /** Cuts the chain behind its first n clusters. */
    method CutChain(ghost n: nat) returns (res: FResult)
      requires Held() && Linked() && n <= |chain| != 0 && (fptr == 0 <==> n == 0) && (n > 0 ==> clust == chain[n - 1])
      modifies this`sclust, fs`disk, fs`wflag, fs`faults, fs`winsect, fs.win, fs`freeClust, fs`fsiDirty
      ensures Kept(fs) && RestOf(fs) == old(RestOf(fs)) && sclust == if n == 0 then 0 else old(sclust)
      ensures res == FR_OK ==> Cut(old(FatOf(fs)), FatOf(fs), chain, n)
      ensures res != FR_OK ==> res == FR_DISK_ERR && fs.faults > old(fs.faults)
    {
      hide Spares, ViewOf, MirroredOf, Fat, Rest, Geometry.Fits, Geometry.DataFits, FatFs.Valid, FreeCount, IsChain,
        Remove, Cleared, Cut;
      if fptr == 0 {
        RemoveChainExact(FatOf(fs), chain);
        CutAll(FatOf(fs), chain);
        ChainRange(FatOf(fs), chain, 0);
        res := RemoveChain(fs, sclust);
        sclust := 0;
      } else {
        res := CutBehind(n);
      }
    }

    method CutBehind(ghost n: nat) returns (res: FResult)
      requires Held() && Linked() && 0 < n <= |chain| && clust == chain[n - 1]
      modifies fs`disk, fs`wflag, fs`faults, fs`winsect, fs.win, fs`freeClust, fs`fsiDirty
      ensures Kept(fs) && RestOf(fs) == old(RestOf(fs))
      ensures res == FR_OK ==> Cut(old(FatOf(fs)), FatOf(fs), chain, n)
      ensures res != FR_OK ==> res == FR_DISK_ERR && fs.faults > old(fs.faults)
    {
      hide Spares, ViewOf, MirroredOf, Fat, Rest, Geometry.Fits, Geometry.DataFits, FatFs.Valid, FreeCount, IsChain,
        Remove, Cleared, Cut, Counted;
      RangeSmall(fs);
      ghost var f := FatOf(fs);
      ChainNext(n - 1);
      CutTail(f, chain, n, fs.geo.fatType.Range() - 1);
      var ncl := GetFat(fs, clust);
      if ncl == BAD {
        return FR_DISK_ERR;
      }
      res := FR_OK;
      if ncl < fs.geo.nFatent {
        res := PutFat(fs, clust, EOC);
        if res == FR_OK {
          res := RemoveChain(fs, ncl);
        }
      }
    }

    /** The buffer of a file whose chain was cut is written back, to a sector kept or to one just freed. */
    method FlushAfterCut() returns (ok: bool)
      requires Held() && Linked() && WindowOff() && Alone() && dirty && Direct(fs, dsect, 1) && OwnerOf(fs.geo, dsect).0 !in foreign
      modifies this`dirty, fs`disk, fs`faults
      ensures Kept(fs) && FatOf(fs) == old(FatOf(fs))
      ensures ok ==> Inv() && Med() == old(Med())
      ensures !ok ==> fs.faults > old(fs.faults)
    {
      hide Spares, ViewOf, MirroredOf, Fat, Rest, FileSect, Medium, Geometry.Fits, Geometry.DataFits, IsChain;
      Lays();
      ghost var rest := RestOf(fs);
      ok := WriteData(fs, buf[..], dsect, 1);
      if ok {
        assert Split(buf[..], 1) == [buf[..]] by { assert buf[..][0 * SS .. 0 * SS + SS] == buf[..]; }
        assert RestOf(fs) == rest[dsect := buf[..]];
        MediumFlush(fs.geo, rest, chain, dsect, buf[..]);
        SparesSector(fs.geo, FatOf(fs), rest, chain, foreign, fat0, rest0, dsect, buf[..]);
        dirty := false;
      }
    }

    /** A file whose chain was cut at its position holds the sectors up to there. */
    twostate lemma AfterCut(n: nat)
      requires old(Inv()) && old(At(fptr)) && Kept(fs) && RestOf(fs) == old(RestOf(fs)) && buf.Length == SS && buf[..] == old(buf[..])
      requires Cut(old(FatOf(fs)), FatOf(fs), old(chain), n) && chain == old(chain)[..n] && sclust == if n == 0 then 0 else old(sclust)
      requires fptr == old(fptr) && clust == old(clust) && dsect == old(dsect) && dirty == old(dirty) && dq == old(dq)
      requires old(chain) != [] && n == if fptr == 0 then 0 else LastCluster(fs.geo.csize, fptr) + 1
      ensures Held() && Linked() && WindowOff() && At(fptr) && |Med()| <= |old(Med())| && Med() == old(Med())[..|Med()|]
      ensures Alone() && (dirty ==> Direct(fs, dsect, 1) && OwnerOf(fs.geo, dsect).0 !in foreign)
      ensures !dirty ==> Inv()
    {
      LaysThen();
      if old(dirty) {
        RunOffThen();
      }
      hide Spares, ViewOf, MirroredOf, Fat, Rest, FileSect, Medium, Geometry.Fits, Geometry.DataFits, Laid, OwnerOf;
      assert Linked();
      hide IsChain;
      MediumPrefix(fs.geo, old(RestOf(fs)), old(chain), n, dsect, buf[..], dirty);
      CutPosition(n);
      SparesCut(fs.geo, old(FatOf(fs)), FatOf(fs), RestOf(fs), old(chain), foreign, fat0, rest0, n);
    }

    twostate lemma RunOffThen()
      requires old(Inv()) && old(dirty)
      ensures old(Direct(fs, dsect, 1)) && OwnerOf(fs.geo, old(dsect)).0 !in foreign
    {
      hide Spares, ViewOf, Fat, Rest, FileSect, Geometry.Fits, Geometry.DataFits, IsChain, Laid, OwnerOf, Cidx, Coff,
        Times;
      LaysThen();
      FileSectFacts(fs.geo, |old(fs.disk)|, old(chain), old(dq));
      OwnSector(fs.geo, |old(fs.disk)|, old(chain), old(dq), 0);
      NotForeign(fs.geo, old(FatOf(fs)), old(RestOf(fs)), old(chain), foreign, fat0, rest0, OwnerOf(fs.geo, old(dsect)).0);
      if old(fs.winsect) < |old(fs.disk)| {
        Apart(fs.geo, |old(fs.disk)|, old(chain), old(dq), 0, old(fs.winsect));
      }
    }

    /** The position stays good when the chain ends with its cluster. */
    twostate lemma CutPosition(n: nat)
      requires old(Held()) && old(Linked()) && old(At(fptr)) && fptr == old(fptr) && clust == old(clust) && dsect == old(dsect)
      requires n <= |old(chain)| && chain == old(chain)[..n] && n == if fptr == 0 then 0 else LastCluster(fs.geo.csize, fptr) + 1
      ensures At(fptr)
    {
      LaysThen();
      hide Spares, ViewOf, Fat, FatFs.Valid, Geometry.Fits, Geometry.DataFits, Laid, FileSect, IsChain, Cidx, Coff,
        Times, Linked;
      if fptr > 0 {
        CutReach(fs.geo, |old(fs.disk)|, old(chain), n, fptr);
      }
    }

    /** The chain is cut at the position, and a dirty buffer written back. */
    method CutHere(ghost n: nat) returns (res: FResult)
      requires Inv() && At(fptr) && n == (if fptr == 0 then 0 else LastCluster(fs.geo.csize, fptr) + 1)
      requires chain != [] && n <= |chain| && (fptr == 0 <==> n == 0) && (n > 0 ==> clust == chain[n - 1])
      modifies this`sclust, this`chain, this`dirty
      modifies fs`disk, fs`wflag, fs`faults, fs`winsect, fs.win, fs`freeClust, fs`fsiDirty
      ensures Kept(fs) && res in {FR_OK, FR_DISK_ERR} && (res == FR_DISK_ERR ==> fs.faults > old(fs.faults))
      ensures res == FR_OK ==> Inv() && At(fptr) && |Med()| <= |old(Med())| && Med() == old(Med())[..|Med()|]
      ensures res == FR_OK ==> Cut(old(FatOf(fs)), FatOf(fs), old(chain), n) && chain == old(chain)[..n]
    {
      hide Spares, ViewOf, MirroredOf, Fat, Rest, FileSect, Med, Geometry.Fits, Geometry.DataFits, OwnerOf, Laid,
        IsChain, Cidx, Coff, Cap, Linked, WindowOff, Buffered, FatFs.Valid, Cut, At, Inv, Alone, LastCluster, Direct;
      res := CutChain(n);
      if res == FR_OK {
        chain := chain[..n];
        AfterCut(n);
        if dirty {
          var ok := FlushAfterCut();
          if !ok {
            res := FR_DISK_ERR;
          }
        }
      }
    }

    /** f_truncate: the file ends at its position, and the clusters behind it are free. */
    method Truncate() returns (res: FResult)
      requires Valid()
      modifies this`clust, this`sclust, this`chain, this`dirty, this`fsize, this`err, this`written
      modifies fs`disk, fs`wflag, fs`faults, fs`winsect, fs.win, fs`freeClust, fs`fsiDirty
      ensures Valid() && Kept(fs) && fptr == old(fptr)
      ensures old(err) != FR_OK ==> res == err == old(err)
      ensures old(err) == FR_OK && !canWrite ==> res == FR_DENIED && err == FR_OK && Content() == old(Content())
      ensures old(err) == FR_OK && canWrite ==> res == err && res in {FR_OK, FR_DISK_ERR}
      ensures res == FR_OK ==> Content() == old(Content())[..fptr]
      ensures res == FR_OK && fptr < old(fsize) ==> Cut(old(FatOf(fs)), FatOf(fs), old(chain), |chain|) && chain == old(chain)[..|chain|]
      ensures res == FR_DENIED || (res == FR_OK && fptr == old(fsize)) ==> FatOf(fs) == old(FatOf(fs))
      ensures res == FR_DISK_ERR && old(err) == FR_OK ==> fs.faults > old(fs.faults)
    {
      hide Spares, ViewOf, MirroredOf, Fat, Rest, FileSect, Med, Geometry.Fits, Geometry.DataFits, OwnerOf, Laid,
        IsChain, Cidx, Coff, Cap, Linked, WindowOff, Buffered, FatFs.Valid, Cut, At, Inv, BytesOf, Alone,
        LastCluster, Direct;
      if err != FR_OK {
        return err;
      }
      if !canWrite {
        return FR_DENIED;
      }
      res := FR_OK;
      ghost var m, size := Med(), fsize;
      if fsize > fptr {
        fsize := fptr;
        written := true;
        ghost var n := CutAtPosition(size);
        res := CutHere(n);
        if res != FR_OK {
          err := res;
          return;
        }
        SamePrefix(Med(), m, fptr);
      }
      Join2(m, 0, fptr, size);
    }

    // ----- whole runs -----

    /** A file that was just opened, with the clusters of other files in use and none of its own, is ready for calls. */
    lemma Opened()
      requires Held() && Linked() && WindowOff() && err == FR_OK && fptr == 0 && !dirty && dsect == 0
      requires fsize <= Cap(fs.geo, chain) * SS && fat0 == FatOf(fs) && rest0 == RestOf(fs)
      requires forall c :: c in foreign ==> c < |fat0| && fat0[c] != 0 && c !in chain
      ensures Valid()
    {
      hide ViewOf, Fat, Rest, IsChain, OwnerOf, Cap;
    }

    /** After any run of calls the chain of another file is still there, and so is every sector of it. */
    lemma OtherFiles(other: seq<nat>, q: nat)
      requires Valid() && err == FR_OK && IsChain(fat0, other) && Laid(fs.geo, |rest0|, other)
      requires forall i :: 0 <= i < |other| ==> other[i] in foreign
      ensures IsChain(FatOf(fs), other)
      ensures q < Cap(fs.geo, other) ==>
                var s := FileSect(fs.geo, other, q);
                0 <= s < |rest0| == |RestOf(fs)| && RestOf(fs)[s] == rest0[s]
    {
      hide ViewOf, Fat, Rest, OwnerOf, FileSect, Laid, Cidx, Coff, Cap, FatFs.Valid, WindowOff, Buffered, Linked, At;
      ChainElsewhere(fat0, FatOf(fs), other);
      if q < Cap(fs.geo, other) {
        FileSectFacts(fs.geo, |rest0|, other, q);
      }
    }

    /** What was written is read back after seeking to where it was written. */
    method WriteReadBack(wbuff: seq<byte>) returns (res: FResult, back: seq<byte>, bw: nat)
      requires Valid() && err == FR_OK && canRead && canWrite && |wbuff| < 0x1_0000_0000
      modifies this, buf, fs, fs.win
      ensures res == FR_OK ==> Valid() && err == FR_OK && bw <= |wbuff| && back == wbuff[..bw]
      ensures res == FR_OK ==> Content() == Spliced(old(Content()), old(fptr), wbuff[..bw]) && fptr == old(fptr) + bw
    {
      hide ViewOf, MirroredOf, Fat, Rest, FileSect, Geometry.Fits, Geometry.DataFits, OwnerOf, IsChain, Cidx, Coff,
        Cap, At, Laid, Med, Linked, WindowOff, Buffered, FatFs.Valid, BytesOf, NoBad, NoFree, Inv, Kept;
      back := [];
      var p := fptr;
      ghost var c := Content();
      res, bw := Write(wbuff);
      if res != FR_OK {
        return;
      }
      ghost var d := Content();
      res := Lseek(p);
      if res != FR_OK {
        return;
      }
      assert Content() == d;
      res, back := Read(bw);
      if res == FR_OK {
        assert Spliced(c, p, wbuff[..bw])[p..p + bw] == wbuff[..bw];
      }
    }

    /** How many clusters a cut at the position keeps. */
    lemma CutAtPosition(size: nat) returns (n: nat)
      requires Held() && Linked() && At(fptr) && fptr < size <= Cap(fs.geo, chain) * SS
      ensures n == if fptr == 0 then 0 else LastCluster(fs.geo.csize, fptr) + 1
      ensures chain != [] && n <= |chain| && (fptr == 0 <==> n == 0) && (n > 0 ==> clust == chain[n - 1])
    {
      hide Spares, ViewOf, Fat, FatFs.Valid, Geometry.Fits, Geometry.DataFits, IsChain, FileSect;
      n := if fptr == 0 then 0 else LastCluster(fs.geo.csize, fptr) + 1;
    }
  }

  /** mem_cpy into a buffer. */
  method CopyInto(a: array<byte>, o: nat, data: seq<byte>)
    requires o + |data| <= a.Length
    modifies a
    ensures a[..][..o] == old(a[..])[..o] && a[..][o..o + |data|] == data && a[..][o + |data|..] == old(a[..])[o + |data|..]
  {
    for i := 0 to |data|
      invariant a[..o] == old(a[..o]) && a[o..o + i] == data[..i] && a[o + |data|..] == old(a[o + |data|..])
    {
      a[o + i] := data[i];
    }
    assert data[..|data|] == data;
  }

  function SliceOf(data: seq<byte>, n: nat, k: nat): (r: Sector)
    requires |data| == n * SS && k < n
    ensures r == Split(data, n)[k]
  {
    data[k * SS .. k * SS + SS]
  }

  /** The clusters of other files are none of the chain, and their entries and sectors are as given. */
  ghost predicate Spares(g: Geometry, f: seq<nat>, rest: seq<Sector>, ch: seq<nat>, foreign: set<nat>, fat0: seq<nat>, rest0: seq<Sector>) {
    && |rest| == |rest0| && |f| == |fat0|
    && (forall c :: c in foreign ==> c < |f| && f[c] == fat0[c] && f[c] != 0 && c !in ch)
    && (forall s :: g.database <= s < |rest| && OwnerOf(g, s).0 in foreign ==> rest[s] == rest0[s])
  }

  /** A cluster of the file is no other's. */
  lemma NotForeign(g: Geometry, f: seq<nat>, rest: seq<Sector>, ch: seq<nat>, foreign: set<nat>, fat0: seq<nat>, rest0: seq<Sector>, c: int)
    requires Spares(g, f, rest, ch, foreign, fat0, rest0) && c in ch
    ensures c !in foreign
  {
  }

  /** A sector that belongs to no other file may change. */
  lemma SparesSector(g: Geometry, f: seq<nat>, rest: seq<Sector>, ch: seq<nat>, foreign: set<nat>, fat0: seq<nat>, rest0: seq<Sector>, s: int, b: Sector)
    requires Spares(g, f, rest, ch, foreign, fat0, rest0) && 0 <= s < |rest| && OwnerOf(g, s).0 !in foreign
    ensures Spares(g, f, rest[s := b], ch, foreign, fat0, rest0)
  {
    hide OwnerOf;
  }

  /** Storing sectors of the file touches no other file. */
  lemma SparesRun(g: Geometry, f: seq<nat>, rest: seq<Sector>, ch: seq<nat>, foreign: set<nat>, fat0: seq<nat>, rest0: seq<Sector>, q: nat, cc: nat, src: seq<Sector>)
    requires Spares(g, f, rest, ch, foreign, fat0, rest0) && Laid(g, |rest|, ch)
    requires q < Cap(g, ch) && Coff(g.csize, q) + cc <= g.csize && FileSect(g, ch, q) >= 0
    ensures Spares(g, f, Written(rest, FileSect(g, ch, q), cc, src), ch, foreign, fat0, rest0)
  {
    hide OwnerOf, FileSect, Laid, Cap, Cidx, Coff;
    var s0 := FileSect(g, ch, q);
    var after := Written(rest, s0, cc, src);
    forall s | g.database <= s < |after| && OwnerOf(g, s).0 in foreign
      ensures after[s] == rest0[s]
    {
      if s0 <= s < s0 + cc {
        OwnSector(g, |rest|, ch, q, s - s0);
      }
    }
  }

  lemma OwnSector(g: Geometry, sectors: nat, ch: seq<nat>, q: nat, k: nat)
    requires Laid(g, sectors, ch) && q < Cap(g, ch) && Coff(g.csize, q) + k < g.csize
    ensures OwnerOf(g, FileSect(g, ch, q) + k).0 in ch
  {
    hide OwnerOf, FileSect, Laid, Cidx, Coff;
    FileSectRun(g, sectors, ch, q, k);
    FileSectFacts(g, sectors, ch, q + k);
  }

  lemma SparesGrown(g: Geometry, f: seq<nat>, f': seq<nat>, rest: seq<Sector>, ch: seq<nat>, foreign: set<nat>, fat0: seq<nat>, rest0: seq<Sector>, r: nat, eoc: nat)
    requires Spares(g, f, rest, ch, foreign, fat0, rest0) && Grown(f, f', ch, r, eoc)
    ensures Spares(g, f', rest, ch + [r], foreign, fat0, rest0)
  {
    hide OwnerOf;
    if ch != [] {
      assert ch[|ch| - 1] in ch;
    }
  }

  lemma SparesCut(g: Geometry, f: seq<nat>, f': seq<nat>, rest: seq<Sector>, ch: seq<nat>, foreign: set<nat>, fat0: seq<nat>, rest0: seq<Sector>, n: nat)
    requires Spares(g, f, rest, ch, foreign, fat0, rest0) && Cut(f, f', ch, n)
    ensures Spares(g, f', rest, ch[..n], foreign, fat0, rest0)
  {
    hide OwnerOf, IsChain;
  }

  ghost predicate NoFree(f: seq<nat>) {
    forall c :: 2 <= c < |f| ==> f[c] > 1
  }

  /** No entry has the value 1, which marks an internal error. */
  ghost predicate NoBad(f: seq<nat>) {
    forall c :: 2 <= c < |f| ==> f[c] != 1
  }

  /** The FAT after a free cluster was appended to a chain, or became one. */
  ghost predicate Grown(f: seq<nat>, f': seq<nat>, ch: seq<nat>, r: nat, eoc: nat) {
    && |f'| == |f| && 2 <= r < |f| && f[r] == 0
    && (ch == [] ==> f' == f[r := eoc])
    && (ch != [] ==> ch[|ch| - 1] < |f| && f' == f[r := eoc][ch[|ch| - 1] := r])
  }

  lemma GrownChain(f: seq<nat>, f': seq<nat>, ch: seq<nat>, r: nat, eoc: nat)
    requires Grown(f, f', ch, r, eoc) && eoc >= |f| && (ch != [] ==> IsChain(f, ch))
    ensures IsChain(f', ch + [r]) && (ch + [r])[0] == if ch == [] then r else ch[0]
  {
    if ch == [] {
      NewChain(f, r, eoc);
      assert ch + [r] == [r];
    } else {
      StretchChain(f, ch, r, eoc);
    }
  }

  /** The FAT after a chain was cut behind its first n clusters: the others are free, the last one kept is an end. */
  ghost predicate Cut(f: seq<nat>, f': seq<nat>, ch: seq<nat>, n: nat) {
    && |f'| == |f| && n <= |ch|
    && (n > 0 ==> IsChain(f', ch[..n]))
    && (forall c :: 0 <= c < |f| && c !in ch ==> f'[c] == f[c])
    && (forall i :: n <= i < |ch| ==> ch[i] < |f| && f'[ch[i]] == 0)
  }

  lemma CutAll(f: seq<nat>, ch: seq<nat>)
    requires IsChain(f, ch)
    ensures Cut(f, Cleared(f, ch), ch, 0)
  {
  }

  lemma CutTail(f: seq<nat>, ch: seq<nat>, n: nat, eoc: nat)
    requires IsChain(f, ch) && 0 < n <= |ch| && eoc >= |f|
    ensures ch[n - 1] < |f|
    ensures n == |ch| ==> Cut(f, f, ch, n)
    ensures n < |ch| ==> 2 <= ch[n] && var g := f[ch[n - 1] := eoc];
      && Remove(g, ch[n]) == Removal(Cleared(g, ch[n..]), true)
      && Cut(f, Cleared(g, ch[n..]), ch, n)
  {
    if n == |ch| {
      assert ch[..n] == ch;
    } else {
      CutInside(f, ch, n, eoc);
    }
  }

  lemma CutInside(f: seq<nat>, ch: seq<nat>, n: nat, eoc: nat)
    requires IsChain(f, ch) && 0 < n < |ch| && eoc >= |f|
    ensures var g := f[ch[n - 1] := eoc];
      && Remove(g, ch[n]) == Removal(Cleared(g, ch[n..]), true)
      && Cut(f, Cleared(g, ch[n..]), ch, n)
  {
    hide IsChain, Remove;
    ChainParts(f, ch, n);
    var g := f[ch[n - 1] := eoc];
    Suffix(f, ch, n);
    ChainElsewhere(f, g, ch[n..]);
    RemoveChainExact(g, ch[n..]);
    Prefix(f, g, ch, n);
    ChainElsewhere(g, Cleared(g, ch[n..]), ch[..n]);
  }

  /** The two parts of a chain share no cluster and make up all of it. */
  lemma ChainParts(f: seq<nat>, ch: seq<nat>, n: nat)
    requires IsChain(f, ch) && 0 < n < |ch|
    ensures forall i :: 0 <= i < |ch| ==> 2 <= ch[i] < |f|
    ensures forall c :: c in ch[..n] ==> c !in ch[n..]
    ensures forall c :: c in ch <==> c in ch[..n] || c in ch[n..]
    ensures ch[n - 1] in ch[..n] && forall i :: n <= i < |ch| ==> ch[i] in ch[n..]
  {
    assert ch == ch[..n] + ch[n..];
    assert ch[n - 1] == ch[..n][n - 1];
    forall i | n <= i < |ch|
      ensures ch[i] in ch[n..]
    {
      assert ch[i] == ch[n..][i - n];
    }
  }

  lemma Suffix(f: seq<nat>, ch: seq<nat>, n: nat)
    requires IsChain(f, ch) && n < |ch|
    ensures IsChain(f, ch[n..])
  {
    assert ch[n..][|ch| - n - 1] == ch[|ch| - 1];
  }

  lemma Prefix(f: seq<nat>, g: seq<nat>, ch: seq<nat>, n: nat)
    requires IsChain(f, ch) && 0 < n < |ch| && |g| == |f| && g[ch[n - 1]] >= |f|
    requires forall c :: 0 <= c < |f| && c != ch[n - 1] ==> g[c] == f[c]
    ensures IsChain(g, ch[..n])
  {
    forall i | 0 <= i < n - 1
      ensures g[ch[..n][i]] == ch[..n][i + 1]
    {
      assert f[ch[i]] == ch[i + 1];
    }
  }

  /** A position stays inside the first n clusters when it was reached in the last of them. */
  lemma CutReach(g: Geometry, sectors: nat, chain: seq<nat>, n: nat, p: nat)
    requires Laid(g, sectors, chain) && n <= |chain| && p > 0 && n == LastCluster(g.csize, p) + 1
    ensures p <= Cap(g, chain[..n]) * SS
    ensures p % SS != 0 ==> p / SS < Cap(g, chain[..n]) && FileSect(g, chain[..n], p / SS) == FileSect(g, chain, p / SS)
  {
    LaidFacts(g, sectors, chain);
    hide Laid, FileSect, Cidx, Coff, Times;
    var q := (p - 1) / SS;
    Room(g.csize, n, q);
    assert q < Cap(g, chain[..n]);
    if p % SS != 0 {
      assert q == p / SS;
      SamePlace(g, sectors, chain, n, p / SS);
    }
  }

  lemma LastClusterInside(csize: nat, p: nat, n: nat)
    requires csize > 0 && p > 0 && p <= Times(n, csize) * SS
    ensures LastCluster(csize, p) < n
  {
    assert (p - 1) / SS < Times(n, csize);
    Room(csize, n, (p - 1) / SS);
  }

  lemma ChainRange(f: seq<nat>, ch: seq<nat>, i: nat)
    requires IsChain(f, ch) && i < |ch|
    ensures 2 <= ch[i] < |f|
  {
  }

  lemma ChainStep(f: seq<nat>, ch: seq<nat>, i: nat)
    requires IsChain(f, ch) && i + 1 < |ch|
    ensures 2 <= ch[i] < |f| && f[ch[i]] == ch[i + 1] && 2 <= ch[i + 1] < |f|
  {
  }
}
