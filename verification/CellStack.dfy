/**
 * The parameter stack as the number words shuffle it, one function for each primitive. Reading below the bottom gives
 * zeros; the words never do so, which their contracts show by naming the whole stack above an arbitrary rest.
 */
module CellStack {
  import opened Words
  import M = Machine

  datatype Stack = Bottom | Cell(top: Word, below: Stack)

  function Top(s: Stack): Word {
    if s.Cell? then s.top else 0
  }

  function Drop(s: Stack): Stack {
    if s.Cell? then s.below else Bottom
  }

  function Dup(s: Stack): Stack {
    Cell(Top(s), s)
  }

  function Swap(s: Stack): Stack {
    Cell(Top(Drop(s)), Cell(Top(s), Drop(Drop(s))))
  }

  function Over(s: Stack): Stack {
    Cell(Top(Drop(s)), s)
  }

  /** ( n1 n2 n3 -- n2 n3 n1 ) */
  function Rot(s: Stack): Stack {
    Cell(Top(Drop(Drop(s))), Cell(Top(s), Cell(Top(Drop(s)), Drop(Drop(Drop(s))))))
  }

  function TwoDup(s: Stack): Stack {
    Over(Over(s))
  }

  function TwoDrop(s: Stack): Stack {
    Drop(Drop(s))
  }

  /** ( n1 n2 n3 -- n3 n1 n2 ) */
  function TwoRot(s: Stack): Stack {
    Rot(Rot(s))
  }

  /** The n-th cell, the top one being the first. */
  function Nth(s: Stack, n: nat): Word
    decreases n
  {
    if n <= 1 then Top(s) else Nth(Drop(s), n - 1)
  }

  /** Without the n-th cell. */
  function Without(s: Stack, n: nat): Stack
    decreases n
  {
    if n <= 1 then Drop(s) else Cell(Top(s), Without(Drop(s), n - 1))
  }

  /** n PICK */
  function Pick(s: Stack, n: nat): Stack {
    Cell(Nth(s, n), s)
  }

  /** n ROLL */
  function Roll(s: Stack, n: nat): Stack {
    Cell(Nth(s, n), Without(s, n))
  }

  function AddInt(s: Stack): Stack {
    Cell(Wrap(Top(Drop(s)) + Top(s)), TwoDrop(s))
  }

  function SubInt(s: Stack): Stack {
    Cell(Wrap(Top(Drop(s)) - Top(s)), TwoDrop(s))
  }

  function MulInt(s: Stack): Stack {
    Cell(Wrap(Top(Drop(s)) * Top(s)), TwoDrop(s))
  }

  function AddOne(s: Stack): Stack {
    Cell(Wrap(Top(s) + 1), Drop(s))
  }

  function SubOne(s: Stack): Stack {
    Cell(Wrap(Top(s) - 1), Drop(s))
  }

  /** The stack as the inner interpreter has it. */
  function Cells(s: Stack): seq<Word> {
    if s.Bottom? then [] else [s.top] + Cells(s.below)
  }

  predicate Leaves(e: M.Effect, s: Stack) {
    e.Left? ==> e.ps == Cells(s)
  }

  /** Wherever a checked primitive succeeds, it does what the word of the same name does here. */
  lemma ShufflesArePrimitives(s: Stack, cap: nat)
    ensures Leaves(M.PrimEffect(M.Drop, Cells(s), cap), Drop(s))
    ensures Leaves(M.PrimEffect(M.Dup, Cells(s), cap), Dup(s))
    ensures Leaves(M.PrimEffect(M.Swap, Cells(s), cap), Swap(s))
    ensures Leaves(M.PrimEffect(M.Over, Cells(s), cap), Over(s))
    ensures Leaves(M.PrimEffect(M.Rot, Cells(s), cap), Rot(s))
  {
    DropDup(s, cap);
    if s.Cell? && s.below.Cell? {
      SwapOver(s.top, s.below.top, s.below.below, cap);
      if s.below.below.Cell? {
        Rotated(s.top, s.below.top, s.below.below.top, s.below.below.below, cap);
      }
    }
  }

  lemma DropDup(s: Stack, cap: nat)
    ensures Leaves(M.PrimEffect(M.Drop, Cells(s), cap), Drop(s))
    ensures Leaves(M.PrimEffect(M.Dup, Cells(s), cap), Dup(s))
  {
  }

  lemma TwoCells(x: Word, y: Word, r: Stack)
    ensures var ps := Cells(Cell(x, Cell(y, r)));
            ps == [x, y] + Cells(r) && ps[0] == x && ps[1] == y && ps[2..] == Cells(r)
  {
    assert Cells(Cell(y, r)) == [y] + Cells(r);
    assert [x] + ([y] + Cells(r)) == [x, y] + Cells(r);
  }

  lemma SwapOver(x: Word, y: Word, r: Stack, cap: nat)
    ensures var s := Cell(x, Cell(y, r));
            && Leaves(M.PrimEffect(M.Swap, Cells(s), cap), Swap(s))
            && Leaves(M.PrimEffect(M.Over, Cells(s), cap), Over(s))
  {
    hide Cells;
    TwoCells(x, y, r);
    TwoCells(y, x, r);
    OneCell(y, Cell(x, Cell(y, r)));
  }

  lemma OneCell(x: Word, r: Stack)
    ensures Cells(Cell(x, r)) == [x] + Cells(r) && Cells(Cell(x, r))[1..] == Cells(r)
  {
  }

  lemma Rotated(x: Word, y: Word, z: Word, r: Stack, cap: nat)
    ensures var s := Cell(x, Cell(y, Cell(z, r))); Leaves(M.PrimEffect(M.Rot, Cells(s), cap), Rot(s))
  {
    hide Cells;
    ThreeCells(x, y, z, r);
    ThreeCells(z, x, y, r);
  }

  lemma ThreeCells(x: Word, y: Word, z: Word, r: Stack)
    ensures var ps := Cells(Cell(x, Cell(y, Cell(z, r))));
            ps == [x, y, z] + Cells(r) && ps[0] == x && ps[1] == y && ps[2] == z && ps[3..] == Cells(r)
  {
    hide Cells;
    OneCell(x, Cell(y, Cell(z, r)));
    TwoCells(y, z, r);
    assert [x] + ([y, z] + Cells(r)) == [x, y, z] + Cells(r);
  }

  lemma SumsArePrimitives(s: Stack, op: M.Binary, cap: nat)
    requires op == M.Add || op == M.Sub || op == M.Mul
    ensures Leaves(M.PrimEffect(M.Bin(op), Cells(s), cap),
                   if op == M.Add then AddInt(s) else if op == M.Sub then SubInt(s) else MulInt(s))
  {
    hide Wrap;
    if s.Cell? && s.below.Cell? {
      TwoCells(s.top, s.below.top, s.below.below);
    }
  }

  lemma StepsArePrimitives(s: Stack, cap: nat)
    ensures Leaves(M.PrimEffect(M.Un(M.AddOne), Cells(s), cap), AddOne(s))
    ensures Leaves(M.PrimEffect(M.Un(M.SubOne), Cells(s), cap), SubOne(s))
  {
    hide Wrap;
    if s.Cell? {
      hide Cells;
      OneCell(s.top, s.below);
      OneCell(Wrap(s.top + 1), s.below);
      OneCell(Wrap(s.top - 1), s.below);
    }
  }
}
