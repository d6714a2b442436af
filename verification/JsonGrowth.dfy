/**
  How large the buffer of the buffered printer grows: pow2gt gives the least power of two that is large enough.
 */
module JsonGrowth {
  import opened Bits

  /** Bit j of y says whether x has a bit set among the n from j on. */
  ghost predicate Smeared(x: nat, y: nat, n: nat) {
    forall j: nat :: Bit(y, j) <==> SetFrom(x, j, n)
  }

  ghost predicate SetFrom(x: nat, j: nat, n: nat) {
    exists i :: j <= i < j + n && Bit(x, i)
  }

  lemma SmearStep(x: nat, y: nat, n: nat)
    requires Smeared(x, y, n)
    ensures Smeared(x, Or(y, Shift(y, n)), 2 * n)
  {
    var z := Or(y, Shift(y, n));
    forall j: nat
      ensures Bit(z, j) <==> SetFrom(x, j, 2 * n)
    {
      OrBit(y, Shift(y, n), j);
      ShiftBit(y, n, j);
      assert Bit(y, j) <==> SetFrom(x, j, n);
      assert Bit(y, j + n) <==> SetFrom(x, j + n, n);
      if SetFrom(x, j, 2 * n) {
        var i :| j <= i < j + 2 * n && Bit(x, i);
        assert i < j + n || j + n <= i < j + n + n;
      }
    }
  }

  /** pow2gt on positive ints. */
  function Pow2Gt(x: nat): (r: nat)
    requires x > 0
    ensures r > 0
  {
    var a := x - 1;
    var b := Or(a, Shift(a, 1));
    var c := Or(b, Shift(b, 2));
    var d := Or(c, Shift(c, 4));
    var e := Or(d, Shift(d, 8));
    Or(e, Shift(e, 16)) + 1
  }

  lemma Filled(a: nat)
    ensures Smeared(a, Pow2Gt(a + 1) - 1, 32)
  {
    var b := Or(a, Shift(a, 1));
    var c := Or(b, Shift(b, 2));
    var d := Or(c, Shift(c, 4));
    var e := Or(d, Shift(d, 8));
    hide Or, Shift;
    assert Smeared(a, a, 1) by {
      forall j: nat
        ensures Bit(a, j) <==> SetFrom(a, j, 1)
      {
      }
    }
    SmearStep(a, a, 1);
    SmearStep(a, b, 2);
    SmearStep(a, c, 4);
    SmearStep(a, d, 8);
    SmearStep(a, e, 16);
  }

  /** Bits 0 to p set and no others. */
  lemma {:induction false} AllOnes(y: nat, p: nat)
    requires forall j: nat :: Bit(y, j) <==> j <= p
    ensures y + 1 == Pow2(p + 1)
    decreases p
  {
    assert Bit(y, 0);
    forall j: nat
      ensures Bit(y / 2, j) <==> j + 1 <= p
    {
      assert Bit(y, j + 1) <==> j + 1 <= p;
    }
    if p == 0 {
      NoBits(y / 2);
      assert Pow2(1) == 2;
    } else {
      AllOnes(y / 2, p - 1);
    }
  }

  /** pow2gt is the least power of two that is not below its argument. */
  lemma LeastPower(x: nat)
    requires 0 < x <= 0x8000_0000
    ensures exists n :: Pow2Gt(x) == Pow2(n) && x <= Pow2(n) && forall m :: x <= Pow2(m) ==> Pow2(n) <= Pow2(m)
  {
    hide Pow2Gt;
    var a: nat, y: nat := x - 1, Pow2Gt(x) - 1;
    Filled(a);
    if a == 0 {
      forall j: nat
        ensures !Bit(y, j)
      {
        assert Bit(y, j) <==> SetFrom(a, j, 32);
        forall i: nat
          ensures !Bit(a, i)
        {
          ZeroBit(i);
        }
      }
      NoBits(y);
      LeastIs(x, 0);
    } else {
      var p := TopBit(a);
      TopSmall(a, p);
      forall j: nat
        ensures Bit(y, j) <==> j <= p
      {
        assert Bit(y, j) <==> SetFrom(a, j, 32);
        if j <= p {
          assert j <= p < j + 32 && Bit(a, p);
        }
      }
      AllOnes(y, p);
      LeastIs(x, p + 1);
    }
  }

  lemma PowerEnough(x: nat)
    requires 0 < x <= 0x8000_0000
    ensures x <= Pow2Gt(x)
  {
    hide Pow2Gt, Pow2;
    LeastPower(x);
  }

  lemma TopSmall(a: nat, p: nat)
    requires Pow2(p) <= a < 0x8000_0000
    ensures p < 31
  {
    if p >= 31 {
      assert Pow2(31) == 0x8000_0000 by { Pow2Is(); }
      Pow2Grows(31, p);
    }
  }

  lemma LeastIs(x: nat, n: nat)
    requires x <= Pow2(n) && (n > 0 ==> Pow2(n - 1) < x)
    ensures forall m :: x <= Pow2(m) ==> Pow2(n) <= Pow2(m)
  {
    forall m: nat | x <= Pow2(m)
      ensures Pow2(n) <= Pow2(m)
    {
      if m < n {
        Pow2Grows(m, n - 1);
      } else {
        Pow2Grows(n, m);
      }
    }
  }
}
