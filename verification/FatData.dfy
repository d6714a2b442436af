/**
  Transfers between the caller and the data area that go past the window.
 */
module FatData {
  import opened Basics
  import opened FatWindow
  import opened FatTable

  /** Sectors s .. s + cc of the data area, none of them in the window. */
  ghost predicate Direct(fs: FatFs, s: int, cc: nat)
    requires fs.Valid()
    reads fs`disk, fs`winsect, fs`wflag, fs.win
  {
    fs.geo.database <= s && s + cc <= |fs.disk| && !(s <= fs.winsect < s + cc)
  }

  lemma SameFatBytes(g: Geometry, v: seq<Sector>, v': seq<Sector>)
    requires g.Fits(|v|) && |v| == |v'|
    requires forall s :: 0 <= s < |v| && g.InFat(s) ==> v[s] == v'[s]
    ensures Fat(g, v) == Fat(g, v')
  {
    assert FatBytes(g, v) == FatBytes(g, v') by {
      forall i | 0 <= i < g.fsize * SS
        ensures FatBytes(g, v)[i] == FatBytes(g, v')[i]
      {
        ByteAt(g, v, i / SS, i % SS);
        ByteAt(g, v', i / SS, i % SS);
        assert g.InFat(g.fatbase + i / SS);
      }
    }
  }

  /** The view and the rest after data sectors changed on the device. */
  lemma DataChanged(g: Geometry, d: seq<Sector>, d': seq<Sector>, w: int, win: Sector, dirty: bool, s: int, cc: nat, src: seq<Sector>)
    requires g.Fits(|d|) && |d'| == |d| && g.database <= s && s + cc <= |d| && !(s <= w < s + cc)
    requires d' == Written(d, s, cc, src)
    ensures var v, v' := ViewOf(g, d, w, win, dirty), ViewOf(g, d', w, win, dirty);
      Fat(g, v') == Fat(g, v) && Rest(g, v') == Written(Rest(g, v), s, cc, src)
  {
    var v, v' := ViewOf(g, d, w, win, dirty), ViewOf(g, d', w, win, dirty);
    SameFatBytes(g, v, v');
    forall i | 0 <= i < |v|
      ensures Rest(g, v')[i] == Written(Rest(g, v), s, cc, src)[i]
    {
    }
  }

  lemma MirrorsUntouched(g: Geometry, d: seq<Sector>, d': seq<Sector>, w: int, dirty: bool)
    requires g.Fits(|d|) && |d'| == |d| && MirroredOf(g, d, w, dirty)
    requires forall i :: 0 <= i < g.database ==> d'[i] == d[i]
    ensures MirroredOf(g, d', w, dirty)
  {
  }

  /** Data sectors outside the window are seen as they are on the device. */
  lemma SectorsSeen(g: Geometry, d: seq<Sector>, w: int, win: Sector, dirty: bool, s: int, cc: nat)
    requires g.Fits(|d|) && g.database <= s && s + cc <= |d| && !(s <= w < s + cc)
    ensures Rest(g, ViewOf(g, d, w, win, dirty))[s..s + cc] == d[s..s + cc]
  {
  }

  method WriteData(fs: FatFs, data: seq<byte>, s: dword, cc: nat) returns (ok: bool)
    requires fs.Valid() && Direct(fs, s, cc) && |data| == cc * SS
    modifies fs`disk, fs`faults
    ensures Kept(fs) && FatOf(fs) == old(FatOf(fs))
    ensures ok ==> RestOf(fs) == Written(old(RestOf(fs)), s, cc, Split(data, cc))
    ensures !ok ==> fs.faults > old(fs.faults)
  {
    ghost var d := fs.disk;
    ok := fs.DiskWrite(data, s, cc);
    ghost var src := fs.disk[s..s + cc];
    assert fs.disk == Written(d, s, cc, src);
    if ok {
      assert src == Split(data, cc);
    }
    hide ViewOf, Rest, Fat, FatBytes, MirroredOf;
    DataChanged(fs.geo, d, fs.disk, fs.winsect, fs.win[..], fs.wflag, s, cc, src);
    if MirroredOf(fs.geo, d, fs.winsect, fs.wflag) {
      MirrorsUntouched(fs.geo, d, fs.disk, fs.winsect, fs.wflag);
    }
  }

  method ReadData(fs: FatFs, s: dword, cc: nat) returns (ok: bool, data: seq<byte>)
    requires fs.Valid() && Direct(fs, s, cc)
    modifies fs`faults
    ensures Kept(fs) && fs.View() == old(fs.View()) && |data| == cc * SS
    ensures ok ==> s + cc <= |RestOf(fs)| && Split(data, cc) == RestOf(fs)[s..s + cc]
    ensures !ok ==> fs.faults > old(fs.faults)
  {
    ok, data := fs.DiskRead(s, cc);
    if ok {
      SectorsSeen(fs.geo, fs.disk, fs.winsect, fs.win[..], fs.wflag, s, cc);
      hide ViewOf, Rest;
      assert Split(data, cc) == fs.disk[s..s + cc] by {
        forall i | 0 <= i < cc
          ensures Split(data, cc)[i] == fs.disk[s..s + cc][i]
        {
          assert data[i * SS .. i * SS + SS] == fs.disk[s + i];
        }
      }
    }
  }
}
