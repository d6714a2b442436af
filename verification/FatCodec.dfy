/**
  FAT entries packed into bytes, for the three FAT types, against the plain sequence of entries.
  FAT12 entries share a byte with a neighbour.
 */
module FatCodec {
  import opened Basics
  import opened FatWindow

  /** First byte of an entry. */
  function Base(t: FatType, c: nat): nat {
    match t
    case FAT12 => c + c / 2
    case FAT16 => c * 2
    case FAT32 => c * 4
  }

  /** The bytes of entry c exist. */
  predicate Holds(t: FatType, b: seq<byte>, c: nat) {
    Base(t, c) + (if t == FAT32 then 3 else 1) < |b|
  }

  // ----- reading -----

  function Dec12(b0: byte, b1: byte, odd: bool): (r: nat)
    ensures r < 0x1000
  {
    if odd then b0 / 16 + b1 * 16 else b0 + b1 % 16 * 256
  }

  function Dec16(b0: byte, b1: byte): (r: nat)
    ensures r < 0x1_0000
  {
    b0 + b1 * 256
  }

  function Dec32(b0: byte, b1: byte, b2: byte, b3: byte): (r: dword) {
    b0 + b1 * 0x100 + b2 * 0x1_0000 + b3 * 0x100_0000
  }

  /** The entry as stored, with the four reserved top bits of FAT32. */
  function Raw(t: FatType, b: seq<byte>, c: nat): (r: dword)
    requires Holds(t, b, c)
    ensures t != FAT32 ==> r < t.Range()
  {
    var i := Base(t, c);
    match t
    case FAT12 => Dec12(b[i], b[i + 1], c % 2 == 1)
    case FAT16 => Dec16(b[i], b[i + 1])
    case FAT32 => Dec32(b[i], b[i + 1], b[i + 2], b[i + 3])
  }

  function Entry(t: FatType, b: seq<byte>, c: nat): (r: nat)
    requires Holds(t, b, c)
  {
    Raw(t, b, c) % t.Range()
  }

  // ----- writing -----

  /** Bitwise or of two four-bit numbers. */
  function OrNibble(a: nat, b: nat): (r: nat)
    requires a < 16 && b < 16
    ensures r < 16
    ensures a == 0 ==> r == b
  {
    OrBit(a, b, 8) + OrBit(a, b, 4) + OrBit(a, b, 2) + OrBit(a, b, 1)
  }

  function OrBit(a: nat, b: nat, m: nat): (r: nat)
    requires m > 0
    ensures r == 0 || r == m
  {
    if a / m % 2 == 1 || b / m % 2 == 1 then m else 0
  }

  /** The stored FAT32 word: the new low 28 bits, with the reserved bits that were there. */
  function Merge32(val: dword, raw: dword): (r: dword)
    ensures r % 0x1000_0000 == val % 0x1000_0000
    ensures val < 0x1000_0000 ==> r / 0x1000_0000 == raw / 0x1000_0000
  {
    val % 0x1000_0000 + OrNibble(val / 0x1000_0000, raw / 0x1000_0000) * 0x1000_0000
  }

  /** First byte stored for a FAT12 entry, given the byte that was there. */
  function Low12(val: dword, p: byte, odd: bool): (r: byte) {
    if odd then p % 16 + val % 16 * 16 else val % 256
  }

  /** Second byte stored for a FAT12 entry, given the byte that was there. */
  function High12(val: dword, p: byte, odd: bool): (r: byte) {
    if odd then val / 16 % 256 else p / 16 * 16 + val / 256 % 16
  }

  /** The bytes between the two stores of a FAT12 entry. */
  function HalfPut(b: seq<byte>, c: nat, val: dword): (b': seq<byte>)
    requires Holds(FAT12, b, c)
    ensures |b'| == |b|
  {
    var i := Base(FAT12, c);
    b[i := Low12(val, b[i], c % 2 == 1)]
  }

  /** The bytes after an entry was stored. */
  function Put(t: FatType, b: seq<byte>, c: nat, val: dword): (b': seq<byte>)
    requires Holds(t, b, c)
    ensures |b'| == |b|
  {
    var i := Base(t, c);
    match t
    case FAT12 =>
      HalfPut(b, c, val)[i + 1 := High12(val, b[i + 1], c % 2 == 1)]
    case FAT16 =>
      b[i := val % 256][i + 1 := val / 256 % 256]
    case FAT32 =>
      var m := Merge32(val, Raw(t, b, c));
      b[i := m % 256][i + 1 := m / 256 % 256][i + 2 := m / 0x1_0000 % 256][i + 3 := m / 0x100_0000]
  }

  // ----- laws -----

  function Octet(b: seq<byte>, i: nat): (x: int) {
    if i < |b| then b[i] else 0
  }

  /** Half bytes of two bytes. */
  lemma HalfBytes(b0: byte, b1: byte)
    ensures Dec12(b0, b1, false) == (b0 as int + 0x100 * b1) % 0x1000 && Dec12(b0, b1, true) == (b0 as int + 0x100 * b1) / 0x10
  {
  }

  /** Where the FAT32 specification, section "FAT Data Structure", has the entries: little-endian words, FAT12 in half bytes. */
  lemma OnDisk(t: FatType, b: seq<byte>, c: nat)
    requires Holds(t, b, c)
    ensures t == FAT12 && c % 2 == 0 ==> Entry(t, b, c) == (Octet(b, 3 * (c / 2)) + 0x100 * Octet(b, 3 * (c / 2) + 1)) % 0x1000
    ensures t == FAT12 && c % 2 == 1 ==> Entry(t, b, c) == (Octet(b, 3 * (c / 2) + 1) + 0x100 * Octet(b, 3 * (c / 2) + 2)) / 0x10
    ensures t == FAT16 ==> Entry(t, b, c) == Octet(b, 2 * c) + 0x100 * Octet(b, 2 * c + 1)
    ensures t == FAT32 ==>
              Entry(t, b, c) ==
              (Octet(b, 4 * c) + 0x100 * Octet(b, 4 * c + 1) + 0x1_0000 * Octet(b, 4 * c + 2) + 0x100_0000 * Octet(b, 4 * c + 3)) % 0x1000_0000
  {
    hide Dec12, Dec16, Dec32;
    var i := Base(t, c);
    if t == FAT12 {
      HalfBytes(b[i], b[i + 1]);
      assert c == c / 2 * 2 + c % 2;
    } else {
      Words(t, b, i);
    }
  }

  lemma Words(t: FatType, b: seq<byte>, i: nat)
    requires t != FAT12 && i + (if t == FAT32 then 3 else 1) < |b|
    ensures t == FAT16 ==> Dec16(b[i], b[i + 1]) == Octet(b, i) + 0x100 * Octet(b, i + 1)
    ensures t == FAT32 ==> Dec32(b[i], b[i + 1], b[i + 2], b[i + 3]) ==
                           Octet(b, i) + 0x100 * Octet(b, i + 1) + 0x1_0000 * Octet(b, i + 2) + 0x100_0000 * Octet(b, i + 3)
  {
  }

  lemma NibblesOdd(val: dword, p: byte)
    ensures Dec12(Low12(val, p, true), High12(val, p, true), true) == val % 0x1000
  {
    assert (p % 16 + val % 16 * 16) / 16 == val % 16;
    assert val % 0x1000 == val % 16 + val / 16 % 256 * 16;
  }

  lemma NibblesEven(val: dword, p: byte)
    ensures Dec12(Low12(val, p, false), High12(val, p, false), false) == val % 0x1000
  {
    assert (p / 16 * 16 + val / 256 % 16) % 16 == val / 256 % 16;
    assert val % 0x1000 == val % 256 + val / 256 % 16 * 256;
  }

  /** Half of a FAT12 store touches no other entry. */
  lemma HalfPutOthers(b: seq<byte>, c: nat, val: dword, d: nat)
    requires Holds(FAT12, b, c) && Holds(FAT12, b, d) && d != c
    ensures Raw(FAT12, HalfPut(b, c, val), d) == Raw(FAT12, b, d)
  {
    if Base(FAT12, c) == Base(FAT12, d) + 1 {
      assert d % 2 == 0 && c == d + 1;
      assert (b[Base(FAT12, c)] % 16 + val % 16 * 16) % 16 == b[Base(FAT12, c)] % 16;
    }
  }

  lemma Put12(b: seq<byte>, c: nat, val: dword, d: nat)
    requires Holds(FAT12, b, c) && Holds(FAT12, b, d)
    ensures Raw(FAT12, Put(FAT12, b, c, val), d) == if d == c then val % 0x1000 else Raw(FAT12, b, d)
  {
    var i := Base(FAT12, c);
    if d != c {
      HalfPutOthers(b, c, val, d);
      if Base(FAT12, d) == i + 1 {
        assert c % 2 == 0 && d == c + 1;
        assert (b[i + 1] / 16 * 16 + val / 256 % 16) / 16 == b[i + 1] / 16;
      }
    } else if c % 2 == 1 {
      NibblesOdd(val, b[i]);
    } else {
      NibblesEven(val, b[i + 1]);
    }
  }

  lemma Word(m: dword)
    ensures Dec32(m % 256, m / 256 % 256, m / 0x1_0000 % 256, m / 0x100_0000) == m
  {
    var x := m / 256;
    assert m / 0x1_0000 == x / 256 && m / 0x100_0000 == x / 256 / 256;
  }

  lemma Put16(b: seq<byte>, c: nat, val: dword, d: nat)
    requires Holds(FAT16, b, c) && Holds(FAT16, b, d)
    ensures Raw(FAT16, Put(FAT16, b, c, val), d) == if d == c then val % 0x1_0000 else Raw(FAT16, b, d)
  {
    assert val % 0x1_0000 == val % 256 + val / 256 % 256 * 256;
  }

  lemma Put32(b: seq<byte>, c: nat, val: dword, d: nat)
    requires Holds(FAT32, b, c) && Holds(FAT32, b, d)
    ensures Raw(FAT32, Put(FAT32, b, c, val), d) ==
      if d == c then Merge32(val, Raw(FAT32, b, c)) else Raw(FAT32, b, d)
  {
    Word(Merge32(val, Raw(FAT32, b, c)));
  }

  /**
    Storing an entry, for every FAT type: the entry reads back as the value cut to its width, every
    other entry stays, and FAT32 keeps its reserved top bits.
   */
  lemma PutGet(t: FatType, b: seq<byte>, c: nat, val: dword, d: nat)
    requires Holds(t, b, c) && Holds(t, b, d)
    ensures Entry(t, Put(t, b, c, val), d) == if d == c then val % t.Range() else Entry(t, b, d)
    ensures d != c || val < t.Range() ==> Raw(t, Put(t, b, c, val), d) / t.Range() == Raw(t, b, d) / t.Range()
  {
    hide Put, Raw;
    match t
    case FAT12 => Put12(b, c, val, d);
    case FAT16 => Put16(b, c, val, d);
    case FAT32 => Put32(b, c, val, d);
  }
}
