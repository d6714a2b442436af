/**
  Bits of natural numbers, and the operators |, & ~ and >> on them.
 */
module Bits {

  function Pow2(n: nat): (r: nat)
    ensures r > 0 && (n > 0 ==> r % 2 == 0)
  {
    if n == 0 then 1 else 2 * Pow2(n - 1)
  }

  predicate Bit(x: nat, j: nat) {
    if j == 0 then x % 2 == 1 else Bit(x / 2, j - 1)
  }

  /** x >> n */
  function Shift(x: nat, n: nat): (r: nat)
    ensures r <= x
    decreases n
  {
    if n == 0 then x else Shift(x / 2, n - 1)
  }

  /** a | b */
  function Or(a: nat, b: nat): (r: nat) {
    if a == 0 then b else 2 * Or(a / 2, b / 2) + (if a % 2 == 1 || b % 2 == 1 then 1 else 0)
  }

  lemma {:induction false} ZeroBit(j: nat)
    ensures !Bit(0, j)
  {
    if j > 0 {
      ZeroBit(j - 1);
    }
  }

  lemma {:induction false} OrBit(a: nat, b: nat, j: nat)
    ensures Bit(Or(a, b), j) <==> Bit(a, j) || Bit(b, j)
    decreases j
  {
    if a == 0 {
      ZeroBit(j);
    } else if j > 0 {
      OrBit(a / 2, b / 2, j - 1);
      assert Or(a, b) / 2 == Or(a / 2, b / 2);
    }
  }

  lemma {:induction false} ShiftBit(x: nat, n: nat, j: nat)
    ensures Bit(Shift(x, n), j) <==> Bit(x, j + n)
    decreases n
  {
    if n > 0 {
      ShiftBit(x / 2, n - 1, j);
    }
  }

  /** The place of the highest bit. */
  lemma {:induction false} TopBit(x: nat) returns (p: nat)
    requires x > 0
    ensures Bit(x, p) && (forall j: nat :: j > p ==> !Bit(x, j)) && Pow2(p) <= x < Pow2(p + 1)
    decreases x
  {
    if x == 1 {
      p := 0;
      forall j: nat | j > p
        ensures !Bit(x, j)
      {
        ZeroBit(j - 1);
      }
    } else {
      var q := TopBit(x / 2);
      p := q + 1;
      forall j: nat | j > p
        ensures !Bit(x, j)
      {
        assert !Bit(x / 2, j - 1);
      }
    }
  }

  lemma {:induction false} NoBits(y: nat)
    requires forall j: nat :: !Bit(y, j)
    ensures y == 0
    decreases y
  {
    assert !Bit(y, 0);
    if y > 0 {
      forall j: nat
        ensures !Bit(y / 2, j)
      {
        assert !Bit(y, j + 1);
      }
      NoBits(y / 2);
    }
  }

  lemma {:induction false} Pow2Grows(m: nat, n: nat)
    requires m <= n
    ensures Pow2(m) <= Pow2(n)
    decreases n - m
  {
    if m < n {
      Pow2Grows(m, n - 1);
    }
  }

  lemma Pow2Is()
    ensures Pow2(31) == 0x8000_0000
  {
    assert Pow2(8) == 256;
    assert Pow2(16) == 0x1_0000;
    assert Pow2(24) == 0x100_0000;
  }

  /** a & ~b */
  function AndNot(a: nat, b: nat): (r: nat)
    ensures r <= a
  {
    if a == 0 then 0 else 2 * AndNot(a / 2, b / 2) + (if a % 2 == 1 && b % 2 == 0 then 1 else 0)
  }

  lemma {:induction false} AndNotBit(a: nat, b: nat, j: nat)
    ensures Bit(AndNot(a, b), j) <==> Bit(a, j) && !Bit(b, j)
    decreases j
  {
    if a == 0 {
      ZeroBit(j);
    } else if j > 0 {
      AndNotBit(a / 2, b / 2, j - 1);
      assert AndNot(a, b) / 2 == AndNot(a / 2, b / 2);
    }
  }

  /** 1 << p has bit p and no other. */
  lemma {:induction false} PowBit(p: nat, j: nat)
    ensures Bit(Pow2(p), j) <==> j == p
    decreases p
  {
    if p == 0 {
      if j > 0 {
        ZeroBit(j - 1);
      }
    } else if j > 0 {
      PowBit(p - 1, j - 1);
      assert Pow2(p) / 2 == Pow2(p - 1);
    }
  }
}
