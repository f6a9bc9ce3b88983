/** Single bits of a number, and what masking with one bit or with all others does to it. */
module Bits {
  import opened Words

  predicate Bit(a: nat, n: nat) {
    if n == 0 then a % 2 == 1 else Bit(a / 2, n - 1)
  }

  lemma {:induction false} AndOnes(a: nat, n: nat)
    requires a < Pow2(n)
    ensures BitAnd(a, Pow2(n) - 1) == a
  {
    if n > 0 && a > 0 {
      AndOnes(a / 2, n - 1);
      assert (Pow2(n) - 1) / 2 == Pow2(n - 1) - 1;
    }
  }

  /** Setting a bit. */
  lemma {:induction false} OrPower(a: nat, n: nat)
    ensures BitOr(a, Pow2(n)) == if Bit(a, n) then a else a + Pow2(n)
  {
    if n > 0 {
      OrPower(a / 2, n - 1);
    }
  }

  /** Testing a bit. */
  lemma {:induction false} AndPower(a: nat, n: nat)
    ensures BitAnd(a, Pow2(n)) == if Bit(a, n) then Pow2(n) else 0
  {
    if n > 0 {
      AndPower(a / 2, n - 1);
      ZeroBit(n - 1);
    }
  }

  lemma {:induction false} ZeroBit(n: nat)
    ensures !Bit(0, n)
  {
    if n > 0 {
      ZeroBit(n - 1);
    }
  }

  lemma AndUnfold(a: nat, m: nat)
    ensures BitAnd(a, m) == (if a % 2 == 1 && m % 2 == 1 then 1 else 0) + 2 * BitAnd(a / 2, m / 2)
  {}

  lemma HalfMask(q: nat, p: nat)
    ensures (2 * q - 1 - 2 * p) % 2 == 1 && (2 * q - 1 - 2 * p) / 2 == q - 1 - p
    ensures (2 * q - 2) % 2 == 0 && (2 * q - 2) / 2 == q - 1
  {}

  lemma BitHalf(a: nat, n: nat)
    ensures Bit(a, 0) <==> a % 2 == 1
    ensures Bit(a, n + 1) <==> Bit(a / 2, n)
  {}

  /** Clearing a bit. */
  lemma {:induction false} AndClear(a: nat, n: nat, k: nat)
    requires n < k && a < Pow2(k)
    ensures Pow2(n) < Pow2(k)
    ensures BitAnd(a, Pow2(k) - 1 - Pow2(n)) == if Bit(a, n) then a - Pow2(n) else a
    ensures Bit(a, n) ==> a >= Pow2(n)
  {
    hide BitAnd, Bit, Pow2;
    PowPositive(k - 1);
    if n > 0 {
      PowPositive(n - 1);
      BitHalf(a, n - 1);
      AndClear(a / 2, n - 1, k - 1);
      HalfMask(Pow2(k - 1), Pow2(n - 1));
      AndUnfold(a, Pow2(k) - 1 - Pow2(n));
    } else {
      PowNone();
      BitHalf(a, 0);
      AndOnes(a / 2, k - 1);
      HalfMask(Pow2(k - 1), 0);
      AndUnfold(a, Pow2(k) - 1 - Pow2(n));
    }
  }

  lemma PowNone()
    ensures Pow2(0) == 1
  {}

  lemma PowPositive(k: nat)
    ensures Pow2(k) >= 1 && Pow2(k + 1) == 2 * Pow2(k)
  {}

  /** NOT 7 AND */
  function Aligned(x: Word): (r: Word)
    ensures r == x / 8 * 8
  {
    AlignedIs(x);
    BitAnd(x, BitNot(7))
  }

  lemma AlignedIs(x: Word)
    ensures BitAnd(x, BitNot(7)) == x / 8 * 8
  {
    var y, z := x / 2, x / 4;
    var b := BitNot(7);
    assert b / 2 == TWO63 - 4 && b / 4 == 0x4000_0000_0000_0000 - 2 && b / 8 == 0x2000_0000_0000_0000 - 1;
    assert y / 2 == z && z / 2 == x / 8;
    assert Pow2(61) == 0x2000_0000_0000_0000 by {
      Pow2Is64();
      assert Pow2(64) == 2 * (2 * (2 * Pow2(61)));
    }
    AndOnes(x / 8, 61);
    assert BitAnd(z, b / 4) == 2 * (x / 8);
    assert BitAnd(y, b / 2) == 4 * (x / 8);
  }
}
