/**
  The priority bitmap of the scheduler: the table lookup finds the highest priority that has its bit set.
 */
module ReadyGroup {
  import opened Bits

  const PRIORITIES := 32

  /** sched_priority_remap_table: the highest bit of a byte. */
  function Remap(x: nat): (r: nat)
    requires x < 256
    ensures r < 8 && (x > 0 ==> Pow2(r) <= x < Pow2(r + 1))
  {
    BytePowers();
    if x < 2 then 0
    else if x < 4 then 1
    else if x < 8 then 2
    else if x < 16 then 3
    else if x < 32 then 4
    else if x < 64 then 5
    else if x < 128 then 6
    else 7
  }

  lemma BytePowers()
    ensures Pow2(0) == 1 && Pow2(1) == 2 && Pow2(2) == 4 && Pow2(3) == 8 && Pow2(4) == 16
    ensures Pow2(5) == 32 && Pow2(6) == 64 && Pow2(7) == 128 && Pow2(8) == 256
  {
  }

  /** sched_get_highest_ready_group */
  function Highest(group: nat): (r: nat)
    requires group < 0x1_0000_0000
    ensures r < PRIORITIES
  {
    if group >= 0x100_0000 then Remap(group / 0x100_0000) + 24
    else if group >= 0x1_0000 then Remap(group / 0x1_0000) + 16
    else if group >= 0x100 then Remap(group / 0x100) + 8
    else Remap(group)
  }

  lemma {:induction false} PowSum(a: nat, b: nat)
    ensures Pow2(a + b) == Pow2(a) * Pow2(b)
    decreases a
  {
    if a > 0 {
      PowSum(a - 1, b);
    }
  }

  /** The highest bit of a number and of the same number shifted by n places. */
  lemma ShiftedTop(x: nat, n: nat, r: nat, unit: nat)
    requires unit == 0x100 || unit == 0x1_0000 || unit == 0x100_0000
    requires Pow2(n) == unit && Pow2(r) <= x / unit < Pow2(r + 1)
    ensures Pow2(r + n) <= x < Pow2(r + 1 + n)
  {
    PowSum(r, n);
    PowSum(r + 1, n);
  }

  lemma WordPowers()
    ensures Pow2(8) == 0x100 && Pow2(16) == 0x1_0000 && Pow2(24) == 0x100_0000
  {
    BytePowers();
    PowSum(8, 8);
    PowSum(16, 8);
  }

  lemma HighestPower(group: nat)
    requires 0 < group < 0x1_0000_0000
    ensures Pow2(Highest(group)) <= group < Pow2(Highest(group) + 1)
  {
    hide Pow2, Remap;
    WordPowers();
    if group >= 0x100_0000 {
      ShiftedTop(group, 24, Remap(group / 0x100_0000), 0x100_0000);
    } else if group >= 0x1_0000 {
      ShiftedTop(group, 16, Remap(group / 0x1_0000), 0x1_0000);
    } else if group >= 0x100 {
      ShiftedTop(group, 8, Remap(group / 0x100), 0x100);
    }
  }

  /** The lookup finds the highest bit that is set. */
  lemma HighestBit(group: nat)
    requires 0 < group < 0x1_0000_0000
    ensures Bit(group, Highest(group)) && forall j :: j > Highest(group) ==> !Bit(group, j)
  {
    HighestPower(group);
    var p := TopBit(group);
    if p < Highest(group) {
      Pow2Grows(p + 1, Highest(group));
    } else if p > Highest(group) {
      Pow2Grows(Highest(group) + 1, p);
    }
  }

  /** group |= 1 << p */
  function Set(group: nat, p: nat): (r: nat) {
    Or(group, Pow2(p))
  }

  /** group &= ~(1 << p) */
  function Clear(group: nat, p: nat): (r: nat) {
    AndNot(group, Pow2(p))
  }

  lemma SetBits(group: nat, p: nat, j: nat)
    ensures Bit(Set(group, p), j) <==> j == p || Bit(group, j)
  {
    OrBit(group, Pow2(p), j);
    PowBit(p, j);
  }

  lemma ClearBits(group: nat, p: nat, j: nat)
    ensures Bit(Clear(group, p), j) <==> j != p && Bit(group, j)
  {
    AndNotBit(group, Pow2(p), j);
    PowBit(p, j);
  }

  lemma {:induction false} OrBound(a: nat, b: nat, n: nat)
    requires a < Pow2(n) && b < Pow2(n)
    ensures Or(a, b) < Pow2(n)
    decreases n
  {
    if a > 0 && n > 0 {
      OrBound(a / 2, b / 2, n - 1);
    }
  }

  lemma SetBound(group: nat, p: nat)
    requires group < 0x1_0000_0000 && p < PRIORITIES
    ensures Set(group, p) < 0x1_0000_0000
  {
    Pow2Is();
    assert Pow2(32) == 0x1_0000_0000;
    Pow2Grows(p, 31);
    OrBound(group, Pow2(p), 32);
  }
}
