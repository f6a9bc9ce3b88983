/**
 * What the primitives mean, as laws of their effect on the parameter stack: an order for each family of comparisons,
 * sums and products modulo 2^64, quotients with their remainders, and logic bit by bit. Together they leave each of
 * these words one meaning only.
 */
module PrimitiveLaws {
  import opened Words
  import opened Machine
  import opened Bits

  predicate IsComparison(op: Binary) {
    op.Lt? || op.ULt? || op.Le? || op.ULe? || op.Gt? || op.UGt? || op.Ge? || op.UGe? || op.Eq? || op.Ne?
  }

  predicate IsTest(op: Unary) {
    op.LtZero? || op.LeZero? || op.GtZero? || op.UGtZero? || op.GeZero? || op.EqZero? || op.NeZero?
  }

  /** `x y op` leaves true, which is all ones. */
  predicate Yes(x: Word, op: Binary, y: Word) {
    PrimEffect(Bin(op), [y, x], 2) == Left([0xFFFF_FFFF_FFFF_FFFF])
  }

  /** `x op` does. */
  predicate Is(x: Word, op: Unary) {
    PrimEffect(Un(op), [x], 1) == Left([0xFFFF_FFFF_FFFF_FFFF])
  }

  lemma TwoOperands(op: Binary, x: Word, y: Word, ps: seq<Word>, cap: nat)
    ensures PrimEffect(Bin(op), [y, x] + ps, cap) == Left([BinaryResult(op, x, y)] + ps)
    ensures PrimEffect(Bin(op), [y, x], 2) == Left([BinaryResult(op, x, y)])
  {
    hide BinaryResult;
    assert ([y, x] + ps)[2..] == ps && [y, x][2..] == [];
  }

  lemma OneOperand(op: Unary, x: Word, ps: seq<Word>, cap: nat)
    ensures PrimEffect(Un(op), [x] + ps, cap) == Left([UnaryResult(op, x)] + ps)
    ensures PrimEffect(Un(op), [x], 1) == Left([UnaryResult(op, x)])
  {
    hide UnaryResult;
    assert ([x] + ps)[1..] == ps && [x][1..] == [];
  }

  /** On any stack, a comparison takes two cells and leaves true or false in their place. */
  lemma ComparisonsAnswer(op: Binary, x: Word, y: Word, ps: seq<Word>, cap: nat)
    requires IsComparison(op)
    ensures PrimEffect(Bin(op), [y, x] + ps, cap) == Left([if Yes(x, op, y) then 0xFFFF_FFFF_FFFF_FFFF else 0] + ps)
  {
    TwoOperands(op, x, y, ps, cap);
  }

  lemma TestsAnswer(op: Unary, x: Word, ps: seq<Word>, cap: nat)
    requires IsTest(op)
    ensures PrimEffect(Un(op), [x] + ps, cap) == Left([if Is(x, op) then 0xFFFF_FFFF_FFFF_FFFF else 0] + ps)
  {
    OneOperand(op, x, ps, cap);
  }

  /** What a comparison means in terms of its result. */
  lemma YesIs(x: Word, op: Binary, y: Word)
    ensures Yes(x, op, y) <==> BinaryResult(op, x, y) == 0xFFFF_FFFF_FFFF_FFFF
  {
    TwoOperands(op, x, y, [], 2);
  }

  lemma IsIs(x: Word, op: Unary)
    ensures Is(x, op) <==> UnaryResult(op, x) == 0xFFFF_FFFF_FFFF_FFFF
  {
    OneOperand(op, x, [], 1);
  }

  /** `x 1+` */
  predicate Follows(x: Word, y: Word) {
    PrimEffect(Un(AddOne), [x], 1) == Left([y])
  }

  /** The relation `less` is a strict order in which `1+` goes up, except from `last`. */
  predicate GoesUp(less: Binary, x: Word, y: Word, z: Word, last: Word) {
    && !Yes(x, less, x)
    && (Yes(x, less, y) && Yes(y, less, z) ==> Yes(x, less, z))
    && (Follows(x, y) ==> (Yes(x, less, y) <==> x != last))
  }

  /** Exactly one of `less`, `=` and `more` holds; `atMost` and `atLeast` are the complements of `more` and `less`. */
  predicate Divided(less: Binary, more: Binary, atMost: Binary, atLeast: Binary, x: Word, y: Word) {
    && (Yes(x, Eq, y) <==> x == y) && (Yes(x, Ne, y) <==> x != y)
    && (Yes(x, less, y) <==> !Yes(x, more, y) && !Yes(x, Eq, y))
    && (Yes(x, more, y) <==> Yes(y, less, x))
    && (Yes(x, atMost, y) <==> !Yes(x, more, y)) && (Yes(x, atLeast, y) <==> !Yes(x, less, y))
  }

  /** `<` is the order of the cells from -2^63 to 2^63 - 1. */
  lemma SignedOrder(x: Word, y: Word, z: Word)
    ensures GoesUp(Lt, x, y, z, 0x7FFF_FFFF_FFFF_FFFF) && Divided(Lt, Gt, Le, Ge, x, y)
    ensures Yes(x, Lt, y) <==> if (x < 0x8000_0000_0000_0000) == (y < 0x8000_0000_0000_0000) then x < y else y < x
  {
    hide PrimEffect, Yes, Is;
    Compared(x, y);
    Compared(y, z);
    Compared(x, z);
    Compared(y, x);
    Compared(x, x);
    FollowsIs(x, y);
  }

  /** U< is that of the cells from 0 to 2^64 - 1. */
  lemma UnsignedOrder(x: Word, y: Word, z: Word)
    ensures GoesUp(ULt, x, y, z, 0xFFFF_FFFF_FFFF_FFFF) && Divided(ULt, UGt, ULe, UGe, x, y)
    ensures Yes(x, ULt, y) <==> x < y
  {
    hide PrimEffect, Yes, Is;
    Compared(x, y);
    Compared(y, z);
    Compared(x, z);
    Compared(y, x);
    Compared(x, x);
    FollowsIs(x, y);
  }

  lemma Compared(x: Word, y: Word)
    ensures (Yes(x, Lt, y) <==> Signed(x) < Signed(y)) && (Yes(x, Le, y) <==> Signed(x) <= Signed(y))
    ensures (Yes(x, Gt, y) <==> Signed(x) > Signed(y)) && (Yes(x, Ge, y) <==> Signed(x) >= Signed(y))
    ensures (Yes(x, ULt, y) <==> x < y) && (Yes(x, ULe, y) <==> x <= y)
    ensures (Yes(x, UGt, y) <==> x > y) && (Yes(x, UGe, y) <==> x >= y)
    ensures (Yes(x, Eq, y) <==> x == y) && (Yes(x, Ne, y) <==> x != y)
  {
    hide Yes, Signed;
    YesIs(x, Lt, y);
    YesIs(x, Le, y);
    YesIs(x, Gt, y);
    YesIs(x, Ge, y);
    YesIs(x, ULt, y);
    YesIs(x, ULe, y);
    YesIs(x, UGt, y);
    YesIs(x, UGe, y);
    YesIs(x, Eq, y);
    YesIs(x, Ne, y);
  }

  lemma FollowsIs(x: Word, y: Word)
    ensures Follows(x, y) <==> y == if x == 0xFFFF_FFFF_FFFF_FFFF then 0 else x + 1
  {
    OneOperand(AddOne, x, [], 1);
  }

  /** The tests compare with zero. */
  lemma TestsCompareWithZero(x: Word)
    ensures (Is(x, LtZero) <==> Yes(x, Lt, 0)) && (Is(x, LeZero) <==> Yes(x, Le, 0))
    ensures (Is(x, GtZero) <==> Yes(x, Gt, 0)) && (Is(x, GeZero) <==> Yes(x, Ge, 0))
    ensures (Is(x, UGtZero) <==> Yes(x, UGt, 0))
    ensures (Is(x, EqZero) <==> Yes(x, Eq, 0)) && (Is(x, NeZero) <==> Yes(x, Ne, 0))
  {
    hide Yes, Is, PrimEffect;
    Compared(x, 0);
    IsIs(x, LtZero);
    IsIs(x, LeZero);
    IsIs(x, GtZero);
    IsIs(x, GeZero);
    IsIs(x, UGtZero);
    IsIs(x, EqZero);
    IsIs(x, NeZero);
  }

  /** The primitive puts one cell that is `i` modulo 2^64 on `ps`. */
  predicate Puts(e: Effect, i: int, ps: seq<Word>) {
    e.Left? && |e.ps| == 1 + |ps| && e.ps[1..] == ps && (e.ps[0] - i) % 0x1_0000_0000_0000_0000 == 0
  }

  /** Sums and products are those of the integers modulo 2^64. */
  lemma Arithmetic(x: Word, y: Word, ps: seq<Word>, cap: nat)
    ensures Puts(PrimEffect(Bin(Add), [y, x] + ps, cap), x + y, ps)
    ensures Puts(PrimEffect(Bin(Sub), [y, x] + ps, cap), x - y, ps)
    ensures Puts(PrimEffect(Bin(Mul), [y, x] + ps, cap), x * y, ps)
    ensures Puts(PrimEffect(Un(AddOne), [x] + ps, cap), x + 1, ps)
    ensures Puts(PrimEffect(Un(SubOne), [x] + ps, cap), x - 1, ps)
    ensures Puts(PrimEffect(Un(Negate), [x] + ps, cap), 0 - x, ps)
    ensures Puts(PrimEffect(Un(Cells), [x] + ps, cap), 8 * x, ps)
  {
    hide PrimEffect, BinaryResult, UnaryResult, Wrap, Puts;
    Results(x, y);
    TwoOperands(Add, x, y, ps, cap);
    TwoOperands(Sub, x, y, ps, cap);
    TwoOperands(Mul, x, y, ps, cap);
    OneOperand(AddOne, x, ps, cap);
    OneOperand(SubOne, x, ps, cap);
    OneOperand(Negate, x, ps, cap);
    OneOperand(Cells, x, ps, cap);
    PutsWrapped(x + y, ps);
    PutsWrapped(x - y, ps);
    PutsWrapped(x * y, ps);
    PutsWrapped(x + 1, ps);
    PutsWrapped(x - 1, ps);
    PutsWrapped(0 - x, ps);
    PutsWrapped(8 * x, ps);
  }

  lemma PutsWrapped(i: int, ps: seq<Word>)
    ensures Puts(Left([Wrap(i)] + ps), i, ps)
  {
    hide Wrap;
    Congruent(i);
    assert ([Wrap(i)] + ps)[1..] == ps;
  }

  lemma Results(x: Word, y: Word)
    ensures BinaryResult(Add, x, y) == Wrap(x + y) && BinaryResult(Sub, x, y) == Wrap(x - y)
    ensures BinaryResult(Mul, x, y) == Wrap(x * y) && UnaryResult(Negate, x) == Wrap(0 - x)
    ensures UnaryResult(AddOne, x) == Wrap(x + 1) && UnaryResult(SubOne, x) == Wrap(x - 1)
    ensures UnaryResult(Cells, x) == Wrap(8 * x)
  {
    hide Wrap;
  }

  lemma Congruent(i: int)
    ensures (Wrap(i) - i) % 0x1_0000_0000_0000_0000 == 0
  {
    assert Wrap(i) - i == (-(i / 0x1_0000_0000_0000_0000)) * 0x1_0000_0000_0000_0000;
    Multiple(-(i / 0x1_0000_0000_0000_0000));
  }

  lemma Multiple(q: int)
    ensures (q * 0x1_0000_0000_0000_0000) % 0x1_0000_0000_0000_0000 == 0
  {
  }

  /** `q` is what is left of `p` divided by `z` when it is cut towards zero, and `r` the remainder. */
  predicate Quotient(p: int, z: int, q: int, r: int) {
    q * z + r == p && Abs(r) < Abs(z) && (r == 0 || (r < 0 <==> p < 0))
  }

  lemma Negations(q: int, z: int)
    ensures (-q) * z == -(q * z) && q * (-z) == -(q * z) && (-q) * (-z) == q * z
  {
  }

  lemma NatTimes(a: nat, b: nat)
    ensures a * b >= 0 && (a >= 1 ==> a * b >= b) && (a >= 2 ==> a * b >= 2 * b)
  {
  }

  lemma AbsProduct(q: int, z: int)
    ensures Abs(q * z) == Abs(q) * Abs(z)
  {
    NatTimes(Abs(q), Abs(z));
    Negations(q, z);
  }

  lemma Distributes(q: int, q2: int, z: int)
    ensures (q - q2) * z == q * z - q2 * z
  {
  }

  /** There is only one such pair. */
  lemma QuotientUnique(p: int, z: int, q: int, r: int, q2: int, r2: int)
    requires Quotient(p, z, q, r) && Quotient(p, z, q2, r2)
    ensures q == q2 && r == r2
  {
    Distributes(q, q2, z);
    Unequal(q - q2, z, r2 - r);
  }

  /** A multiple of `z` that is smaller than `z` is zero. */
  lemma Unequal(d: int, z: int, m: int)
    requires d * z == m && Abs(m) < Abs(z)
    ensures d == 0 && m == 0
  {
    AbsProduct(d, z);
    NatTimes(Abs(d), Abs(z));
  }

  lemma QuotientFits(x: nat, y: nat)
    requires y != 0
    ensures 0 <= x / y <= x && x / y * y + x % y == x && (x != 0 && y >= 2 ==> x / y < x)
  {
    var q, r := x / y, x % y;
    assert x == y * q + r;
    Negations(q, y);
    if q < 0 {
      NatTimes(-q, y);
    } else {
      NatTimes(y, q);
    }
  }

  lemma TruncIsQuotient(p: int, z: int)
    requires z != 0
    ensures Quotient(p, z, TruncDiv(p, z), TruncMod(p, z))
  {
    hide TruncDiv, TruncMod;
    var q, r := Abs(p) / Abs(z), Abs(p) % Abs(z);
    QuotientFits(Abs(p), Abs(z));
    TruncCases(p, z, q);
    SignedProduct(p, z, q);
    Remainder(p, z, TruncDiv(p, z), TruncMod(p, z), r, q * Abs(z));
  }

  lemma Remainder(p: int, z: int, q: int, m: int, r: nat, k: int)
    requires m == p - q * z && q * z == (if p < 0 then -k else k) && k + r == Abs(p) && r < Abs(z)
    ensures Quotient(p, z, q, m)
  {
  }

  lemma TruncCases(p: int, z: int, q: int)
    requires z != 0 && q == Abs(p) / Abs(z) && q >= 0
    ensures TruncDiv(p, z) == (if (p < 0) == (z < 0) then q else -q) && Abs(TruncDiv(p, z)) == q
    ensures TruncMod(p, z) == p - TruncDiv(p, z) * z
  {
  }

  lemma SignedProduct(p: int, z: int, q: int)
    ensures (if (p < 0) == (z < 0) then q else -q) * z == if p < 0 then -(q * Abs(z)) else q * Abs(z)
  {
    Negations(q, z);
  }

  /** What the three words of a division do when quotient and remainder are the cells `q` and `r`. */
  predicate Divides(quotient: Division, both: Division, remainder: Division, x: Word, y: Word, ps: seq<Word>, cap: nat,
                    q: Word, r: Word) {
    && PrimEffect(Divide(quotient), [y, x] + ps, cap) == Left([q] + ps)
    && PrimEffect(Divide(both), [y, x] + ps, cap) == Left([r, q] + ps)
    && PrimEffect(Divide(remainder), [y, x] + ps, cap) == Left([r] + ps)
  }

  lemma DivisionEffect(op: Division, x: Word, y: Word, ps: seq<Word>, cap: nat)
    requires y != 0
    ensures PrimEffect(Divide(op), [y, x] + ps, cap) == Put(DivisionResult(op, x, y), ps)
  {
    hide DivisionResult, Put;
    assert ([y, x] + ps)[2..] == ps;
  }

  /** U/ leaves the quotient, UMOD the remainder, and U/MOD the remainder above the quotient. */
  lemma UnsignedDivision(x: Word, y: Word, ps: seq<Word>, cap: nat) returns (q: Word, r: Word)
    requires y != 0
    ensures Divides(UDiv, UDivMod, UMod, x, y, ps, cap, q, r) && q * y + r == x && r < y
  {
    hide PrimEffect;
    DivisionEffect(UDiv, x, y, ps, cap);
    DivisionEffect(UDivMod, x, y, ps, cap);
    DivisionEffect(UMod, x, y, ps, cap);
    QuotientFits(x, y);
    q, r := x / y, x % y;
  }

  /** The signed words work with the signed numbers, and the processor refuses -2^63 divided by -1. */
  lemma SignedDivision(x: Word, y: Word, ps: seq<Word>, cap: nat) returns (q: int, r: int)
    requires y != 0
    ensures Quotient(Signed(x), Signed(y), q, r)
    ensures if x == 0x8000_0000_0000_0000 && y == 0xFFFF_FFFF_FFFF_FFFF
            then forall op :: op == Div || op == DivMod || op == Mod ==>
                   PrimEffect(Divide(op), [y, x] + ps, cap) == Failed(DivideTrap)
            else exists w, v: Word :: Signed(w) == q && Signed(v) == r && Divides(Div, DivMod, Mod, x, y, ps, cap, w, v)
  {
    hide PrimEffect, TruncDiv, TruncMod, Signed, Wrap;
    DivisionEffect(Div, x, y, ps, cap);
    DivisionEffect(DivMod, x, y, ps, cap);
    DivisionEffect(Mod, x, y, ps, cap);
    SignedZero(y);
    q, r := TruncDiv(Signed(x), Signed(y)), TruncMod(Signed(x), Signed(y));
    TruncIsQuotient(Signed(x), Signed(y));
    QuotientInRange(x, y);
    if q != TWO63 {
      SignedOf(q);
      SignedOf(r);
      assert Divides(Div, DivMod, Mod, x, y, ps, cap, Wrap(q), Wrap(r));
    }
  }

  lemma SignedZero(y: Word)
    ensures Signed(y) == 0 <==> y == 0
  {
  }

  lemma SignedOf(i: int)
    requires -TWO63 <= i < TWO63
    ensures Signed(Wrap(i)) == i
  {
  }

  lemma QuotientInRange(x: Word, y: Word)
    requires y != 0
    ensures Signed(y) != 0
    ensures var q, r := TruncDiv(Signed(x), Signed(y)), TruncMod(Signed(x), Signed(y));
            && -TWO63 <= q <= TWO63 && -TWO63 <= r < TWO63
            && (q == TWO63 <==> x == 0x8000_0000_0000_0000 && y == 0xFFFF_FFFF_FFFF_FFFF)
  {
    var p, z := Signed(x), Signed(y);
    QuotientFits(Abs(p), Abs(z));
    hide TruncDiv, TruncMod;
    TruncIsQuotient(p, z);
    TruncCases(p, z, Abs(p) / Abs(z));
  }

  lemma ScalingEffect(signed: bool, x: Word, y: Word, z: Word, ps: seq<Word>, cap: nat)
    requires z != 0
    ensures PrimEffect(MulDiv(signed), [z, y, x] + ps, cap) == Put(MulDivResult(signed, x, y, z), ps)
  {
    hide MulDivResult, Put;
    assert ([z, y, x] + ps)[3..] == ps;
  }

  /**
   * The scaling words keep the whole product of their first two operands, and the processor refuses a quotient that is
   * no cell.
   */
  lemma UnsignedScaling(x: Word, y: Word, z: Word, ps: seq<Word>, cap: nat) returns (q: int, r: int)
    requires z != 0
    ensures q * z + r == x * y && 0 <= r < z && 0 <= q
    ensures PrimEffect(MulDiv(false), [z, y, x] + ps, cap)
         == if q < 0x1_0000_0000_0000_0000 then Left([q] + ps) else Failed(DivideTrap)
  {
    hide PrimEffect, MulDivResult;
    ScalingEffect(false, x, y, z, ps, cap);
    NatTimes(x, y);
    q, r := WholeQuotient(x * y, z);
    UnsignedResult(x, y, z, x * y, q);
  }

  lemma WholeQuotient(p: nat, z: nat) returns (q: nat, r: nat)
    requires z != 0
    ensures q * z + r == p && r < z && q == p / z
  {
    QuotientFits(p, z);
    q, r := p / z, p % z;
  }

  lemma UnsignedResult(x: Word, y: Word, z: Word, p: int, q: nat)
    requires z != 0 && p == x * y && q == p / z
    ensures MulDivResult(false, x, y, z) == if q < 0x1_0000_0000_0000_0000 then Left([q]) else Failed(DivideTrap)
  {
    hide Wrap;
    WrapSmall(q);
  }

  lemma WrapSmall(q: nat)
    ensures q < 0x1_0000_0000_0000_0000 ==> Wrap(q) == q
  {
  }

  /** So does the signed word. */
  lemma SignedScaling(x: Word, y: Word, z: Word, ps: seq<Word>, cap: nat) returns (q: int, r: int)
    requires z != 0
    ensures Quotient(Signed(x) * Signed(y), Signed(z), q, r)
    ensures var e := PrimEffect(MulDiv(true), [z, y, x] + ps, cap);
            if -0x8000_0000_0000_0000 <= q < 0x8000_0000_0000_0000
            then exists w: Word :: Signed(w) == q && e == Left([w] + ps)
            else e == Failed(DivideTrap)
  {
    hide PrimEffect, TruncDiv, TruncMod, Signed, Wrap;
    ScalingEffect(true, x, y, z, ps, cap);
    SignedZero(z);
    q, r := TruncDiv(Signed(x) * Signed(y), Signed(z)), TruncMod(Signed(x) * Signed(y), Signed(z));
    TruncIsQuotient(Signed(x) * Signed(y), Signed(z));
    if -TWO63 <= q < TWO63 {
      SignedOf(q);
      assert PrimEffect(MulDiv(true), [z, y, x] + ps, cap) == Left([Wrap(q)] + ps);
    }
  }

  /** The operands of a primitive, */
  function Operands(p: Prim): nat {
    match p
    case Un(_) => 1
    case Bin(_) => 2
    case Divide(_) => 2
    case MulDiv(_) => 3
    case Cell => 0
    case Dup => 1
    case Swap => 2
    case Rot => 3
    case Over => 2
    case Drop => 1
  }

  /** and its errors: operands that are missing come first, then room that is missing or a divisor that is zero. */
  lemma Errors(p: Prim, ps: seq<Word>, cap: nat)
    ensures |ps| < Operands(p) ==> PrimEffect(p, ps, cap) == Failed(StackUnderflow)
    ensures |ps| >= Operands(p) && (p.Cell? || p.Dup? || p.Over?) ==>
              if |ps| < cap then PrimEffect(p, ps, cap).Left? else PrimEffect(p, ps, cap) == Failed(StackOverflow)
    ensures |ps| >= Operands(p) && (p.Un? || p.Bin? || p.Swap? || p.Rot? || p.Drop?) ==> PrimEffect(p, ps, cap).Left?
    ensures |ps| >= Operands(p) && (p.Divide? || p.MulDiv?) && ps[0] == 0 ==>
              PrimEffect(p, ps, cap) == Failed(DivideByZero)
  {
    hide BinaryResult, UnaryResult, DivisionResult, MulDivResult;
  }

  /** ( n1 n2 n3 -- n2 n3 n1 ) and its like, the top to the right. */
  lemma Shuffles(n1: Word, n2: Word, n3: Word, ps: seq<Word>, cap: nat)
    ensures |ps| + 1 < cap ==> PrimEffect(Dup, [n1] + ps, cap) == Left([n1, n1] + ps)
    ensures PrimEffect(Swap, [n2, n1] + ps, cap) == Left([n1, n2] + ps)
    ensures PrimEffect(Rot, [n3, n2, n1] + ps, cap) == Left([n1, n3, n2] + ps)
    ensures |ps| + 2 < cap ==> PrimEffect(Over, [n2, n1] + ps, cap) == Left([n1, n2, n1] + ps)
    ensures PrimEffect(Drop, [n1] + ps, cap) == Left(ps)
    ensures |ps| < cap ==> PrimEffect(Cell, ps, cap) == Left([8] + ps)
  {
    assert ([n2, n1] + ps)[2..] == ps && ([n3, n2, n1] + ps)[3..] == ps && ([n1] + ps)[1..] == ps;
    assert [n1] + ([n1] + ps) == [n1, n1] + ps && [n1] + ([n2, n1] + ps) == [n1, n2, n1] + ps;
  }

  lemma {:induction false} AndBit(a: nat, b: nat, k: nat)
    ensures Bit(BitAnd(a, b), k) <==> Bit(a, k) && Bit(b, k)
    decreases k
  {
    AndUnfold(a, b);
    BitHalf(a, if k == 0 then 0 else k - 1);
    BitHalf(b, if k == 0 then 0 else k - 1);
    if k > 0 {
      AndBit(a / 2, b / 2, k - 1);
    }
  }

  lemma OrUnfold(a: nat, b: nat)
    ensures BitOr(a, b) == (if a % 2 == 1 || b % 2 == 1 then 1 else 0) + 2 * BitOr(a / 2, b / 2)
  {
  }

  lemma BitStep(c: nat, x: nat, k: nat)
    requires c <= 1
    ensures (Bit(c + 2 * x, 0) <==> c == 1) && (Bit(c + 2 * x, k + 1) <==> Bit(x, k))
  {
    BitHalf(c + 2 * x, k);
    assert (c + 2 * x) / 2 == x;
  }

  lemma {:induction false} OrBit(a: nat, b: nat, k: nat)
    ensures Bit(BitOr(a, b), k) <==> Bit(a, k) || Bit(b, k)
    decreases k
  {
    hide BitOr, Bit;
    OrUnfold(a, b);
    var c := if a % 2 == 1 || b % 2 == 1 then 1 else 0;
    BitStep(c, BitOr(a / 2, b / 2), if k == 0 then 0 else k - 1);
    BitHalf(a, if k == 0 then 0 else k - 1);
    BitHalf(b, if k == 0 then 0 else k - 1);
    if k > 0 {
      OrBit(a / 2, b / 2, k - 1);
    }
  }

  lemma {:induction false} XorBit(a: nat, b: nat, k: nat)
    ensures BitAnd(a, b) <= BitOr(a, b) && (Bit(BitOr(a, b) - BitAnd(a, b), k) <==> Bit(a, k) != Bit(b, k))
    decreases k
  {
    hide BitOr, BitAnd, Bit;
    OrUnfold(a, b);
    AndUnfold(a, b);
    AndBelowOr(a / 2, b / 2);
    var c := if (a % 2 == 1) != (b % 2 == 1) then 1 else 0;
    BitStep(c, BitOr(a / 2, b / 2) - BitAnd(a / 2, b / 2), if k == 0 then 0 else k - 1);
    BitHalf(a, if k == 0 then 0 else k - 1);
    BitHalf(b, if k == 0 then 0 else k - 1);
    if k > 0 {
      XorBit(a / 2, b / 2, k - 1);
    }
  }

  lemma AndBelowOr(a: nat, b: nat)
    ensures BitAnd(a, b) <= BitOr(a, b)
  {
    hide BitAnd, BitOr;
  }

  lemma {:induction false} NotBit(a: nat, n: nat, k: nat)
    requires k < n && a < Pow2(n)
    ensures Bit(Pow2(n) - 1 - a, k) <==> !Bit(a, k)
    decreases k
  {
    if k > 0 {
      NotBit(a / 2, n - 1, k - 1);
    }
  }

  /** Bit `k` of the cell on top; false if there is none. */
  predicate TopBit(e: Effect, ps: seq<Word>, k: nat) {
    e.Left? && |e.ps| == 1 + |ps| && e.ps[1..] == ps && Bit(e.ps[0], k)
  }

  /** Logic is done bit by bit. */
  lemma LogicBits(x: Word, y: Word, ps: seq<Word>, cap: nat, k: nat)
    requires k < 64
    ensures TopBit(PrimEffect(Bin(And), [y, x] + ps, cap), ps, k) <==> Bit(x, k) && Bit(y, k)
    ensures TopBit(PrimEffect(Bin(Or), [y, x] + ps, cap), ps, k) <==> Bit(x, k) || Bit(y, k)
    ensures TopBit(PrimEffect(Bin(Xor), [y, x] + ps, cap), ps, k) <==> Bit(x, k) != Bit(y, k)
    ensures TopBit(PrimEffect(Bin(Nand), [y, x] + ps, cap), ps, k) <==> !(Bit(x, k) && Bit(y, k))
    ensures TopBit(PrimEffect(Bin(Nor), [y, x] + ps, cap), ps, k) <==> !(Bit(x, k) || Bit(y, k))
    ensures TopBit(PrimEffect(Bin(Xnor), [y, x] + ps, cap), ps, k) <==> Bit(x, k) == Bit(y, k)
    ensures TopBit(PrimEffect(Un(Not), [x] + ps, cap), ps, k) <==> !Bit(x, k)
  {
    hide PrimEffect, BinaryResult, UnaryResult, BitAnd, WordOr, WordXor, BitNot, Bit;
    TwoOperands(And, x, y, ps, cap);
    TwoOperands(Or, x, y, ps, cap);
    TwoOperands(Xor, x, y, ps, cap);
    TwoOperands(Nand, x, y, ps, cap);
    TwoOperands(Nor, x, y, ps, cap);
    TwoOperands(Xnor, x, y, ps, cap);
    OneOperand(Not, x, ps, cap);
    BitResults(x, y, k);
  }

  lemma BitResults(x: Word, y: Word, k: nat)
    requires k < 64
    ensures Bit(BinaryResult(And, x, y), k) <==> Bit(x, k) && Bit(y, k)
    ensures Bit(BinaryResult(Or, x, y), k) <==> Bit(x, k) || Bit(y, k)
    ensures Bit(BinaryResult(Xor, x, y), k) <==> Bit(x, k) != Bit(y, k)
    ensures Bit(BinaryResult(Nand, x, y), k) <==> !(Bit(x, k) && Bit(y, k))
    ensures Bit(BinaryResult(Nor, x, y), k) <==> !(Bit(x, k) || Bit(y, k))
    ensures Bit(BinaryResult(Xnor, x, y), k) <==> Bit(x, k) == Bit(y, k)
    ensures Bit(UnaryResult(Not, x), k) <==> !Bit(x, k)
  {
    hide BitAnd, BitOr, Bit;
    AndBit(x, y, k);
    OrBit(x, y, k);
    XorBit(x, y, k);
    CellNotBit(BitAnd(x, y), k);
    CellNotBit(WordOr(x, y), k);
    CellNotBit(WordXor(x, y), k);
    CellNotBit(x, k);
  }

  lemma CellNotBit(x: Word, k: nat)
    requires k < 64
    ensures Bit(BitNot(x), k) <==> !Bit(x, k)
  {
    hide Bit, Pow2;
    Pow2Is64();
    NotBit(x, 64, k);
  }
}
