/**
  The FAT of a mounted volume: get_fat and put_fat, which reach it through the window.
 */
module FatTable {
  import opened Basics
  import opened FatWindow
  import opened FatCodec

  /** The bytes of the FAT in a view. */
  function FatBytes(g: Geometry, v: seq<Sector>): (b: seq<byte>)
    requires g.Fits(|v|)
    ensures |b| == g.fsize * SS
  {
    seq(g.fsize * SS, i requires 0 <= i < g.fsize * SS => v[g.fatbase + i / SS][i % SS])
  }

  /** Everything outside the FAT; the FAT itself is blanked. */
  function Rest(g: Geometry, v: seq<Sector>): (r: seq<Sector>)
    ensures |r| == |v|
  {
    seq(|v|, s requires 0 <= s < |v| => if g.InFat(s) then BLANK else v[s])
  }

  lemma EntriesFit(g: Geometry, v: seq<Sector>, c: nat)
    requires g.Fits(|v|) && c < g.nFatent
    ensures Holds(g.fatType, FatBytes(g, v), c)
  {
  }

  /** The FAT as the layers above understand it: one number per cluster. */
  function Fat(g: Geometry, v: seq<Sector>): (f: seq<nat>)
    requires g.Fits(|v|)
    ensures |f| == g.nFatent
  {
    seq(g.nFatent, c requires 0 <= c < g.nFatent => EntriesFit(g, v, c); Entry(g.fatType, FatBytes(g, v), c))
  }

  lemma FatAt(g: Geometry, v: seq<Sector>, c: nat)
    requires g.Fits(|v|) && c < g.nFatent
    ensures Holds(g.fatType, FatBytes(g, v), c)
    ensures Fat(g, v)[c] == Entry(g.fatType, FatBytes(g, v), c) < g.fatType.Range()
  {
    EntriesFit(g, v, c);
  }

  /** Byte o of sector q of the FAT. */
  lemma ByteAt(g: Geometry, v: seq<Sector>, q: int, o: int)
    requires g.Fits(|v|) && 0 <= q < g.fsize && 0 <= o < SS
    ensures FatBytes(g, v)[q * SS + o] == v[g.fatbase + q][o]
  {
    assert (q * SS + o) / SS == q && (q * SS + o) % SS == o;
  }

  /** A store into one FAT sector of the view is a store into the bytes of the FAT. */
  lemma Poke(g: Geometry, v: seq<Sector>, q: nat, o: nat, x: byte)
    requires g.Fits(|v|) && q < g.fsize && o < SS
    ensures var s := g.fatbase + q;
      var v' := v[s := v[s][o := x]];
      FatBytes(g, v') == FatBytes(g, v)[q * SS + o := x] && Rest(g, v') == Rest(g, v)
  {
    var s := g.fatbase + q;
    var v' := v[s := v[s][o := x]];
    forall j | 0 <= j < g.fsize * SS
      ensures FatBytes(g, v')[j] == FatBytes(g, v)[q * SS + o := x][j]
    {
      ByteAt(g, v, j / SS, j % SS);
      ByteAt(g, v', j / SS, j % SS);
    }
  }

  ghost function FatOf(fs: FatFs): (f: seq<nat>)
    requires fs.Valid()
    reads fs`disk, fs`winsect, fs`wflag, fs.win
    ensures |f| == fs.geo.nFatent
  {
    Fat(fs.geo, fs.View())
  }

  ghost function RestOf(fs: FatFs): (r: seq<Sector>)
    requires fs.Valid()
    reads fs`disk, fs`winsect, fs`wflag, fs.win
  {
    Rest(fs.geo, fs.View())
  }

  /**
    What every access to the FAT keeps: the copies of the FAT agree as long as the device does not
    fail, and the window only moves to sectors of the FAT.
   */
  twostate predicate Kept(fs: FatFs)
    reads fs, fs.win
  {
    && old(fs.Valid()) && fs.Valid() && |fs.disk| == |old(fs.disk)|
    && fs.faults >= old(fs.faults)
    && (fs.faults == old(fs.faults) && old(fs.Mirrored()) ==> fs.Mirrored())
    && (fs.winsect == old(fs.winsect) || fs.geo.InFat(fs.winsect) || fs.winsect == BAD)
  }

  lemma RangeSmall(fs: FatFs)
    requires fs.Valid()
    ensures 2 < fs.geo.nFatent < fs.geo.fatType.Range() <= 0x1000_0000
  {
  }

  /** Sector q of the FAT is in the window. */
  ghost predicate InSector(fs: FatFs, q: int)
    requires fs.Valid()
    reads fs`disk, fs`winsect, fs`wflag, fs.win
  {
    0 <= q < fs.geo.fsize && fs.winsect == fs.geo.fatbase + q < |fs.disk| && fs.win[..] == fs.View()[fs.winsect]
  }

  /** Brings sector q of the FAT into the window. */
  method Seek(fs: FatFs, q: nat) returns (res: FResult)
    requires fs.Valid() && q < fs.geo.fsize
    modifies fs`disk, fs`wflag, fs`faults, fs`winsect, fs.win
    ensures Kept(fs) && fs.View() == old(fs.View())
    ensures res == FR_OK ==> InSector(fs, q)
    ensures res != FR_OK ==> res == FR_DISK_ERR && fs.faults > old(fs.faults)
  {
    res := fs.MoveWindow(fs.geo.fatbase + q);
  }

  /** Fetches byte o of the FAT sector in the window. */
  method Fetch(fs: FatFs, ghost q: nat, o: nat) returns (x: byte)
    requires fs.Valid() && InSector(fs, q) && o < SS
    ensures q * SS + o < fs.geo.fsize * SS && x == FatBytes(fs.geo, fs.View())[q * SS + o]
  {
    hide FatBytes, Geometry.FatBytesNeeded;
    ByteAt(fs.geo, fs.View(), q, o);
    var s := fs.win[..];
    x := s[o];
  }

  /** Stores byte o of the FAT sector in the window. */
  method Store(fs: FatFs, ghost q: nat, o: nat, x: byte)
    requires fs.Valid() && InSector(fs, q) && o < SS
    modifies fs`wflag, fs.win
    ensures Kept(fs) && InSector(fs, q) && q * SS + o < fs.geo.fsize * SS
    ensures FatBytes(fs.geo, fs.View()) == old(FatBytes(fs.geo, fs.View()))[q * SS + o := x]
    ensures RestOf(fs) == old(RestOf(fs))
  {
    hide FatBytes, Rest, Geometry.FatBytesNeeded;
    ghost var v := fs.View();
    fs.win[o] := x;
    fs.wflag := true;
    assert fs.win[..] == v[fs.winsect][o := x];
    assert fs.View() == v[fs.winsect := v[fs.winsect][o := x]];
    Poke(fs.geo, v, q, o, x);
  }

  /** The two bytes of a FAT16 entry share a sector. */
  lemma Aligned2(c: nat)
    ensures c * 2 == c * 2 / SS * SS + c * 2 % SS && c * 2 % SS + 2 <= SS
  {
    assert c * 2 == c / 256 * SS + c % 256 * 2;
  }

  /** The four bytes of a FAT32 entry share a sector. */
  lemma Aligned4(c: nat)
    ensures c * 4 == c * 4 / SS * SS + c * 4 % SS && c * 4 % SS + 4 <= SS
  {
    assert c * 4 == c / 128 * SS + c % 128 * 4;
  }

  // ----- get_fat -----

  /** get_fat: the entry, 1 for a cluster number out of range, BAD after a device failure. */
  method GetFat(fs: FatFs, clst: dword) returns (val: dword)
    requires fs.Valid()
    modifies fs`disk, fs`wflag, fs`faults, fs`winsect, fs.win
    ensures Kept(fs) && fs.View() == old(fs.View())
    ensures !(2 <= clst < fs.geo.nFatent) ==> val == 1 && fs.faults == old(fs.faults)
    ensures 2 <= clst < fs.geo.nFatent ==> val == FatOf(fs)[clst] || val == BAD
    ensures val == BAD ==> fs.faults > old(fs.faults)
  {
    hide Entry, Holds, MirroredOf, ViewOf, FatBytes, Rest, Geometry.Fits, Geometry.InFat, Geometry.InMirror;
    if clst < 2 || clst >= fs.geo.nFatent {
      val := 1;
    } else {
      ghost var v := fs.View();
      FatAt(fs.geo, v, clst);
      match fs.geo.fatType
      case FAT12 => val := Get12(fs, clst);
      case FAT16 => val := Get16(fs, clst);
      case FAT32 => val := Get32(fs, clst);
    }
  }

  /** The entry is there and its bytes are found. */
  ghost predicate Reads(fs: FatFs, t: FatType, clst: nat)
    reads fs`disk, fs`winsect, fs`wflag, fs.win
  {
    fs.Valid() && fs.geo.fatType == t && clst < fs.geo.nFatent && Holds(t, FatBytes(fs.geo, fs.View()), clst)
  }

  /** What reading an entry gives: the entry, or BAD after a device failure. */
  twostate predicate Got(fs: FatFs, t: FatType, clst: nat, val: dword)
    requires Reads(fs, t, clst)
    reads fs, fs.win
  {
    && (val == Entry(t, FatBytes(fs.geo, fs.View()), clst) || val == BAD)
    && (val == BAD ==> fs.faults > old(fs.faults))
  }

  /** The FAT12 case of get_fat: the two bytes may lie in different sectors. */
  method Get12(fs: FatFs, clst: nat) returns (val: dword)
    requires Reads(fs, FAT12, clst)
    modifies fs`disk, fs`wflag, fs`faults, fs`winsect, fs.win
    ensures Kept(fs) && fs.View() == old(fs.View()) && Got(fs, FAT12, clst, val)
  {
    hide MirroredOf, ViewOf, FatBytes, Rest, Geometry.Fits, Geometry.InFat, Geometry.InMirror, Dec12;
    val := BAD;
    var bc := clst + clst / 2;
    var res, wc := GetByte(fs, bc);
    if res == FR_OK {
      bc := bc + 1;
      var hi;
      res, hi := GetByte(fs, bc);
      if res == FR_OK {
        val := Dec12(wc, hi, clst % 2 == 1);
      }
    }
  }

  /** A byte of the FAT, through the window. */
  method GetByte(fs: FatFs, i: nat) returns (res: FResult, x: byte)
    requires fs.Valid() && i < fs.geo.fsize * SS
    modifies fs`disk, fs`wflag, fs`faults, fs`winsect, fs.win
    ensures Kept(fs) && fs.View() == old(fs.View())
    ensures res == FR_OK ==> x == FatBytes(fs.geo, fs.View())[i]
    ensures res != FR_OK ==> res == FR_DISK_ERR && fs.faults > old(fs.faults)
  {
    hide MirroredOf, ViewOf, FatBytes, Rest, Geometry.Fits, Geometry.InFat, Geometry.InMirror, Kept;
    x := 0;
    res := Seek(fs, i / SS);
    if res == FR_OK {
      x := Fetch(fs, i / SS, i % SS);
    }
  }

  method Get16(fs: FatFs, clst: nat) returns (val: dword)
    requires Reads(fs, FAT16, clst)
    modifies fs`disk, fs`wflag, fs`faults, fs`winsect, fs.win
    ensures Kept(fs) && fs.View() == old(fs.View()) && Got(fs, FAT16, clst, val)
  {
    hide MirroredOf, ViewOf, FatBytes, Rest, Geometry.Fits, Geometry.InFat, Geometry.InMirror, Dec16, Kept;
    val := BAD;
    var i := clst * 2;
    Aligned2(clst);
    var q, o := i / SS, i % SS;
    var res := Seek(fs, q);
    if res == FR_OK {
      var b0 := Fetch(fs, q, o);
      var b1 := Fetch(fs, q, o + 1);
      val := Dec16(b0, b1);
    }
  }

  method Get32(fs: FatFs, clst: nat) returns (val: dword)
    requires Reads(fs, FAT32, clst)
    modifies fs`disk, fs`wflag, fs`faults, fs`winsect, fs.win
    ensures Kept(fs) && fs.View() == old(fs.View()) && Got(fs, FAT32, clst, val)
  {
    hide MirroredOf, ViewOf, FatBytes, Rest, Geometry.Fits, Geometry.InFat, Geometry.InMirror, Dec32;
    val := BAD;
    var i := clst * 4;
    Aligned4(clst);
    var q, o := i / SS, i % SS;
    var res := Seek(fs, q);
    if res == FR_OK {
      var raw := FetchWord(fs, q, o);
      val := raw % 0x1000_0000;
    }
  }

  method FetchWord(fs: FatFs, ghost q: nat, o: nat) returns (w: dword)
    requires fs.Valid() && InSector(fs, q) && o + 4 <= SS
    ensures q * SS + o + 3 < fs.geo.fsize * SS
    ensures var b, i := FatBytes(fs.geo, fs.View()), q * SS + o; w == Dec32(b[i], b[i + 1], b[i + 2], b[i + 3])
  {
    hide ViewOf, FatBytes, Geometry.Fits;
    var b0 := Fetch(fs, q, o);
    var b1 := Fetch(fs, q, o + 1);
    var b2 := Fetch(fs, q, o + 2);
    var b3 := Fetch(fs, q, o + 3);
    w := Dec32(b0, b1, b2, b3);
  }

  // ----- put_fat -----

  /** The entries after the bytes of one entry were stored. */
  lemma FatPut(g: Geometry, v: seq<Sector>, v': seq<Sector>, c: nat, val: dword)
    requires g.Fits(|v|) && |v'| == |v| && c < g.nFatent
    requires Holds(g.fatType, FatBytes(g, v), c)
    requires FatBytes(g, v') == Put(g.fatType, FatBytes(g, v), c, val)
    ensures Fat(g, v') == Fat(g, v)[c := val % g.fatType.Range()]
  {
    hide FatBytes, Put, Entry, Raw, Geometry.Fits;
    forall d | 0 <= d < g.nFatent
      ensures Fat(g, v')[d] == Fat(g, v)[c := val % g.fatType.Range()][d]
    {
      FatAt(g, v, d);
      FatAt(g, v', d);
      PutGet(g.fatType, FatBytes(g, v), c, val, d);
    }
  }

  lemma FatHalfPut(g: Geometry, v: seq<Sector>, v': seq<Sector>, c: nat, val: dword)
    requires g.Fits(|v|) && |v'| == |v| && c < g.nFatent && g.fatType == FAT12
    requires Holds(FAT12, FatBytes(g, v), c)
    requires FatBytes(g, v') == HalfPut(FatBytes(g, v), c, val)
    ensures forall d :: 0 <= d < g.nFatent && d != c ==> Fat(g, v')[d] == Fat(g, v)[d]
  {
    hide FatBytes, HalfPut, Raw, Geometry.Fits;
    forall d | 0 <= d < g.nFatent && d != c
      ensures Fat(g, v')[d] == Fat(g, v)[d]
    {
      FatAt(g, v, d);
      FatAt(g, v', d);
      HalfPutOthers(FatBytes(g, v), c, val, d);
    }
  }

  /**
    put_fat: the entry becomes the value cut to its width and nothing else changes. A device failure
    can spoil at most that one entry.
   */
  method PutFat(fs: FatFs, clst: dword, val: dword) returns (res: FResult)
    requires fs.Valid()
    modifies fs`disk, fs`wflag, fs`faults, fs`winsect, fs.win
    ensures Kept(fs) && RestOf(fs) == old(RestOf(fs))
    ensures !(2 <= clst < fs.geo.nFatent) ==> res == FR_INT_ERR && FatOf(fs) == old(FatOf(fs)) && fs.faults == old(fs.faults)
    ensures 2 <= clst < fs.geo.nFatent ==> res == FR_OK || (res == FR_DISK_ERR && fs.faults > old(fs.faults))
    ensures res == FR_OK ==> FatOf(fs) == old(FatOf(fs))[clst := val % fs.geo.fatType.Range()]
    ensures forall d :: 0 <= d < fs.geo.nFatent && d != clst ==> FatOf(fs)[d] == old(FatOf(fs))[d]
  {
    hide MirroredOf, ViewOf, FatBytes, Rest, Put, HalfPut, Holds, Geometry.Fits, Geometry.InFat, Geometry.InMirror;
    if clst < 2 || clst >= fs.geo.nFatent {
      res := FR_INT_ERR;
    } else {
      ghost var v := fs.View();
      FatAt(fs.geo, v, clst);
      match fs.geo.fatType {
        case FAT12 =>
          ghost var half;
          res, half := Put12Bytes(fs, clst, val);
          if half {
            FatHalfPut(fs.geo, v, fs.View(), clst, val);
          }
        case FAT16 =>
          res := Put16Bytes(fs, clst, val);
        case FAT32 =>
          res := Put32Bytes(fs, clst, val);
      }
      if res == FR_OK {
        FatPut(fs.geo, v, fs.View(), clst, val);
      }
    }
  }

  /** What storing an entry does to the bytes: all of it, or nothing after a device failure. */
  twostate predicate Stored(fs: FatFs, t: FatType, clst: nat, val: dword, res: FResult)
    requires old(Reads(fs, t, clst)) && fs.Valid()
    reads fs, fs.win
  {
    && RestOf(fs) == old(RestOf(fs))
    && (res == FR_OK ==> FatBytes(fs.geo, fs.View()) == Put(t, old(FatBytes(fs.geo, fs.View())), clst, val))
    && (res != FR_OK ==> res == FR_DISK_ERR && fs.faults > old(fs.faults))
  }

  method Put12Bytes(fs: FatFs, clst: nat, val: dword) returns (res: FResult, ghost half: bool)
    requires Reads(fs, FAT12, clst)
    modifies fs`disk, fs`wflag, fs`faults, fs`winsect, fs.win
    ensures Kept(fs) && Stored(fs, FAT12, clst, val, res)
    ensures half ==> res != FR_OK && FatBytes(fs.geo, fs.View()) == HalfPut(old(FatBytes(fs.geo, fs.View())), clst, val)
    ensures res != FR_OK && !half ==> fs.View() == old(fs.View())
  {
    hide MirroredOf, ViewOf, FatBytes, Rest, Geometry.Fits, Geometry.InFat, Geometry.InMirror, Low12, High12;
    half := false;
    var odd := clst % 2 == 1;
    var bc := clst + clst / 2;
    res := EditByte(fs, bc, true, val, odd);
    if res == FR_OK {
      res := EditByte(fs, bc + 1, false, val, odd);
      half := res != FR_OK;
    }
  }

  /** One of the two byte stores of a FAT12 entry. */
  method EditByte(fs: FatFs, i: nat, low: bool, val: dword, odd: bool) returns (res: FResult)
    requires fs.Valid() && i < fs.geo.fsize * SS
    modifies fs`disk, fs`wflag, fs`faults, fs`winsect, fs.win
    ensures Kept(fs) && RestOf(fs) == old(RestOf(fs))
    ensures res == FR_OK ==> var b := old(FatBytes(fs.geo, fs.View()));
      FatBytes(fs.geo, fs.View()) == b[i := if low then Low12(val, b[i], odd) else High12(val, b[i], odd)]
    ensures res != FR_OK ==> res == FR_DISK_ERR && fs.faults > old(fs.faults) && fs.View() == old(fs.View())
  {
    hide MirroredOf, ViewOf, FatBytes, Rest, Geometry.Fits, Geometry.InFat, Geometry.InMirror, Low12, High12;
    var q, o := i / SS, i % SS;
    res := Seek(fs, q);
    if res == FR_OK {
      var p := Fetch(fs, q, o);
      Store(fs, q, o, if low then Low12(val, p, odd) else High12(val, p, odd));
    }
  }

  method Put16Bytes(fs: FatFs, clst: nat, val: dword) returns (res: FResult)
    requires Reads(fs, FAT16, clst)
    modifies fs`disk, fs`wflag, fs`faults, fs`winsect, fs.win
    ensures Kept(fs) && Stored(fs, FAT16, clst, val, res)
    ensures res != FR_OK ==> fs.View() == old(fs.View())
  {
    hide MirroredOf, ViewOf, FatBytes, Rest, Geometry.Fits, Geometry.InFat, Geometry.InMirror;
    var i := clst * 2;
    Aligned2(clst);
    var q, o := i / SS, i % SS;
    res := Seek(fs, q);
    if res == FR_OK {
      Store(fs, q, o, val % 256);
      Store(fs, q, o + 1, val / 256 % 256);
    }
  }

  method Put32Bytes(fs: FatFs, clst: nat, val: dword) returns (res: FResult)
    requires Reads(fs, FAT32, clst)
    modifies fs`disk, fs`wflag, fs`faults, fs`winsect, fs.win
    ensures Kept(fs) && Stored(fs, FAT32, clst, val, res)
    ensures res != FR_OK ==> fs.View() == old(fs.View())
  {
    hide MirroredOf, ViewOf, FatBytes, Rest, Merge32, Geometry.Fits, Geometry.InFat, Geometry.InMirror, Dec32;
    var i := clst * 4;
    Aligned4(clst);
    var q, o := i / SS, i % SS;
    res := Seek(fs, q);
    if res == FR_OK {
      var raw := FetchWord(fs, q, o);
      StoreWord(fs, q, o, Merge32(val, raw));
    }
  }

  method StoreWord(fs: FatFs, ghost q: nat, o: nat, m: dword)
    requires fs.Valid() && InSector(fs, q) && o + 4 <= SS
    modifies fs`wflag, fs.win
    ensures Kept(fs) && q * SS + o + 3 < fs.geo.fsize * SS
    ensures var i := q * SS + o; FatBytes(fs.geo, fs.View()) == old(FatBytes(fs.geo, fs.View()))
      [i := m % 256][i + 1 := m / 256 % 256][i + 2 := m / 0x1_0000 % 256][i + 3 := m / 0x100_0000]
    ensures RestOf(fs) == old(RestOf(fs))
  {
    hide MirroredOf, ViewOf, FatBytes, Rest, Geometry.Fits, Geometry.InFat, Geometry.InMirror;
    Store(fs, q, o, m % 256);
    Store(fs, q, o + 1, m / 256 % 256);
    Store(fs, q, o + 2, m / 0x1_0000 % 256);
    Store(fs, q, o + 3, m / 0x100_0000);
  }
}
