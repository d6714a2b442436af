/**
  Byte strings held in sequences of sectors, and what overwriting a part of them gives.
 */
module SectorBytes {
  import opened Basics
  import opened FatWindow

  /** Byte k of a sequence of sectors. */
  function ByteIn(m: seq<Sector>, k: nat): (b: byte)
    requires k < |m| * SS
  {
    m[k / SS][k % SS]
  }

  /** Bytes lo .. hi of a sequence of sectors. */
  function BytesOf(m: seq<Sector>, lo: nat, hi: nat): (b: seq<byte>)
    requires lo <= hi <= |m| * SS
    ensures |b| == hi - lo
  {
    seq<byte>(hi - lo, k requires 0 <= k < hi - lo => ByteIn(m, lo + k))
  }

  lemma ByteOf(m: seq<Sector>, lo: nat, hi: nat, q: nat, o: nat)
    requires lo <= q * SS + o < hi <= |m| * SS && o < SS
    ensures q < |m| && BytesOf(m, lo, hi)[q * SS + o - lo] == m[q][o]
  {
    assert (q * SS + o) / SS == q && (q * SS + o) % SS == o;
    assert BytesOf(m, lo, hi)[q * SS + o - lo] == ByteIn(m, lo + (q * SS + o - lo));
  }

  lemma Join2(m: seq<Sector>, a: nat, b: nat, c: nat)
    requires a <= b <= c <= |m| * SS
    ensures BytesOf(m, a, b) + BytesOf(m, b, c) == BytesOf(m, a, c)
  {
  }

  /** Part of one sector. */
  lemma PartOfSector(m: seq<Sector>, q: nat, o: nat, n: nat)
    requires q < |m| && o + n <= SS
    ensures q * SS + o + n <= |m| * SS
    ensures BytesOf(m, q * SS + o, q * SS + o + n) == m[q][o..o + n]
  {
    assert (q + 1) * SS <= |m| * SS;
    var a, b := BytesOf(m, q * SS + o, q * SS + o + n), m[q][o..o + n];
    forall k | 0 <= k < n
      ensures a[k] == b[k]
    {
      ByteOf(m, q * SS + o, q * SS + o + n, q, o + k);
    }
  }

  /** Whole sectors. */
  lemma WholeSectors(m: seq<Sector>, q: nat, cc: nat, data: seq<byte>)
    requires q + cc <= |m| && |data| == cc * SS && Split(data, cc) == m[q..q + cc]
    ensures BytesOf(m, q * SS, (q + cc) * SS) == data
  {
    forall k | 0 <= k < cc * SS
      ensures BytesOf(m, q * SS, (q + cc) * SS)[k] == data[k]
    {
      var i, o := k / SS, k % SS;
      ByteOf(m, q * SS, (q + cc) * SS, q + i, o);
      assert m[q..q + cc][i] == m[q + i];
      assert data[i * SS .. i * SS + SS][o] == data[k];
    }
  }

  /** The string with d written over it from p on; it grows when d reaches past its end. */
  function Spliced(c: seq<byte>, p: nat, d: seq<byte>): (r: seq<byte>)
    requires p <= |c|
    ensures |r| == if p + |d| > |c| then p + |d| else |c|
  {
    c[..p] + d + if p + |d| < |c| then c[p + |d|..] else []
  }

  lemma SplicedTwice(c: seq<byte>, p: nat, d: seq<byte>, e: seq<byte>)
    requires p <= |c|
    ensures Spliced(Spliced(c, p, d), p + |d|, e) == Spliced(c, p, d + e)
  {
  }

  lemma SplicedNone(c: seq<byte>, p: nat)
    requires p <= |c|
    ensures Spliced(c, p, []) == c
  {
  }

  /** Live bytes when d was written over them from p on. */
  lemma PutBytes(m: seq<Sector>, m': seq<Sector>, live: nat, p: nat, d: seq<byte>)
    requires |m'| == |m| && p <= live <= |m| * SS && p + |d| <= |m| * SS
    requires forall k :: 0 <= k < p + |d| || 0 <= k < live ==>
               ByteIn(m', k) == if p <= k < p + |d| then d[k - p] else ByteIn(m, k)
    ensures var live' := if p + |d| > live then p + |d| else live;
            BytesOf(m', 0, live') == Spliced(BytesOf(m, 0, live), p, d)
  {
    hide ByteIn;
  }

  /** One byte of a sector that was partly overwritten. */
  lemma SectorByte(m: seq<Sector>, q: nat, o: nat, d: seq<byte>, s: Sector, k: nat)
    requires q < |m| && o + |d| <= SS && k < |m| * SS
    requires s[..o] == m[q][..o] && s[o..o + |d|] == d
    requires s[o + |d|..] == m[q][o + |d|..] || k < q * SS + o + |d|
    ensures ByteIn(m[q := s], k) == if q * SS + o <= k < q * SS + o + |d| then d[k - q * SS - o] else ByteIn(m, k)
  {
    if k / SS == q {
      var j := k % SS;
      if j < o {
        assert s[j] == s[..o][j] && m[q][j] == m[q][..o][j];
      } else if j < o + |d| {
        assert s[j] == s[o..o + |d|][j - o];
      } else {
        assert s[j] == s[o + |d|..][j - o - |d|] && m[q][j] == m[q][o + |d|..][j - o - |d|];
      }
    }
  }

  /** Live bytes after sector q was partly overwritten; bytes past the live ones may be anything. */
  lemma PutSector(m: seq<Sector>, live: nat, q: nat, o: nat, d: seq<byte>, s: Sector)
    requires q < |m| && o + |d| <= SS && q * SS + o <= live <= |m| * SS
    requires s[..o] == m[q][..o] && s[o..o + |d|] == d
    requires s[o + |d|..] == m[q][o + |d|..] || live == q * SS + o
    ensures q * SS + o + |d| <= |m| * SS
    ensures var live' := if q * SS + o + |d| > live then q * SS + o + |d| else live;
      BytesOf(m[q := s], 0, live') == Spliced(BytesOf(m, 0, live), q * SS + o, d)
  {
    hide ByteIn, BytesOf, Spliced;
    assert (q + 1) * SS <= |m| * SS;
    var p := q * SS + o;
    var m' := m[q := s];
    forall k | 0 <= k < p + |d| || 0 <= k < live
      ensures ByteIn(m', k) == if p <= k < p + |d| then d[k - p] else ByteIn(m, k)
    {
      SectorByte(m, q, o, d, s, k);
    }
    PutBytes(m, m', live, p, d);
  }

  /** One byte when whole sectors were overwritten. */
  lemma SectorsByte(m: seq<Sector>, q: nat, cc: nat, data: seq<byte>, k: nat)
    requires q + cc <= |m| && |data| == cc * SS && k < |m| * SS
    ensures var m' := m[..q] + Split(data, cc) + m[q + cc..];
            |m'| == |m| && ByteIn(m', k) == if q * SS <= k < (q + cc) * SS then data[k - q * SS] else ByteIn(m, k)
  {
    var m' := m[..q] + Split(data, cc) + m[q + cc..];
    var i, j := k / SS, k % SS;
    if q <= i < q + cc {
      assert m'[i] == data[(i - q) * SS .. (i - q) * SS + SS];
    } else {
      assert m'[i] == m[i];
    }
  }

  /** Live bytes after whole sectors were overwritten. */
  lemma PutSectors(m: seq<Sector>, live: nat, q: nat, cc: nat, data: seq<byte>)
    requires q + cc <= |m| && q * SS <= live <= |m| * SS && |data| == cc * SS
    ensures var m' := m[..q] + Split(data, cc) + m[q + cc..];
      var live' := if (q + cc) * SS > live then (q + cc) * SS else live;
      |m'| == |m| && live' <= |m| * SS && BytesOf(m', 0, live') == Spliced(BytesOf(m, 0, live), q * SS, data)
  {
    hide ByteIn, BytesOf, Spliced;
    var m' := m[..q] + Split(data, cc) + m[q + cc..];
    assert (q + cc) * SS <= |m| * SS;
    forall k | 0 <= k < q * SS + |data| || 0 <= k < live
      ensures ByteIn(m', k) == if q * SS <= k < q * SS + |data| then data[k - q * SS] else ByteIn(m, k)
    {
      SectorsByte(m, q, cc, data, k);
    }
    PutBytes(m, m', live, q * SS, data);
  }

  /** Live bytes do not see sectors added behind them. */
  lemma SamePrefix(m: seq<Sector>, m': seq<Sector>, live: nat)
    requires live <= |m| * SS && |m| <= |m'| && m'[..|m|] == m
    ensures live <= |m'| * SS && BytesOf(m', 0, live) == BytesOf(m, 0, live)
  {
    forall k | 0 <= k < live
      ensures BytesOf(m', 0, live)[k] == BytesOf(m, 0, live)[k]
    {
      ByteOf(m', 0, live, k / SS, k % SS);
      ByteOf(m, 0, live, k / SS, k % SS);
      assert m'[k / SS] == m'[..|m|][k / SS];
    }
  }
}
