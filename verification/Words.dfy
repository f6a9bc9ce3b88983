/** 64-bit cells: wrap-around, the signed reading of a cell, truth flags and bitwise operators. */
module Words {
  const TWO63: int := 0x8000_0000_0000_0000
  const TWO64: int := 0x1_0000_0000_0000_0000

  /** The contents of one cell, read as an unsigned number. */
  type Word = w: int | 0 <= w < TWO64

  const TRUE: Word := TWO64 - 1
  const FALSE: Word := 0

  function Wrap(i: int): Word {
    i % TWO64
  }

  function Signed(w: Word): (i: int)
    ensures -TWO63 <= i < TWO63
  {
    if w < TWO63 then w else w - TWO64
  }

  /** FORTH truth values: all bits set or none. */
  function Flag(b: bool): Word {
    if b then TRUE else FALSE
  }

  /** The cell address that follows `a`; address arithmetic wraps at 2^64. */
  function NextCell(a: Word): Word {
    if a + 8 < TWO64 then a + 8 else a + 8 - TWO64
  }

  function BitNot(a: Word): Word {
    TWO64 - 1 - a
  }

  function BitAnd(a: nat, b: nat): (r: nat)
    ensures r <= a && r <= b
    decreases a
  {
    if a == 0 || b == 0 then 0
    else (if a % 2 == 1 && b % 2 == 1 then 1 else 0) + 2 * BitAnd(a / 2, b / 2)
  }

  function BitOr(a: nat, b: nat): (r: nat)
    ensures a <= r && b <= r
    decreases a + b
  {
    if a == 0 then b
    else if b == 0 then a
    else (if a % 2 == 1 || b % 2 == 1 then 1 else 0) + 2 * BitOr(a / 2, b / 2)
  }

  /** An `n`-bit bound on both operands bounds their disjunction. */
  lemma {:induction false} BitOrBound(a: nat, b: nat, n: nat)
    requires a < Pow2(n) && b < Pow2(n)
    ensures BitOr(a, b) < Pow2(n)
  {
    if a != 0 && b != 0 {
      BitOrBound(a / 2, b / 2, n - 1);
    }
  }

  function Pow2(n: nat): (r: nat)
    ensures r >= 1
  {
    if n == 0 then 1 else 2 * Pow2(n - 1)
  }

  lemma Pow2Is64()
    ensures Pow2(64) == TWO64
  {
    assert Pow2(8) == 256;
    assert Pow2(16) == 0x1_0000;
    assert Pow2(24) == 0x100_0000;
    assert Pow2(32) == 0x1_0000_0000;
    assert Pow2(40) == 0x100_0000_0000;
    assert Pow2(48) == 0x1_0000_0000_0000;
    assert Pow2(56) == 0x100_0000_0000_0000;
  }

  function WordOr(a: Word, b: Word): Word {
    Pow2Is64();
    BitOrBound(a, b, 64);
    BitOr(a, b)
  }

  /** Exclusive or, from the bits set in both subtracted from the bits set in either. */
  function WordXor(a: Word, b: Word): Word {
    WordOr(a, b) - BitAnd(a, b)
  }

  function Abs(i: int): nat {
    if i < 0 then -i else i
  }

  /** The processor's signed division rounds toward zero. */
  function TruncDiv(x: int, y: int): int
    requires y != 0
  {
    if (x < 0) == (y < 0) then Abs(x) / Abs(y) else -(Abs(x) / Abs(y))
  }

  function TruncMod(x: int, y: int): int
    requires y != 0
  {
    x - y * TruncDiv(x, y)
  }
}
