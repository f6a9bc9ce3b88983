/**
 * The engine on its one block of memory: dictionary growing upward, parameter stack and return stack growing
 * downward, with the bounds checks of the machine-code routines. It refines the machine on sequences, so no run
 * takes a pointer out of its region or changes one region through another.
 */
module FlatVm {
  import opened Words
  import opened Machine
  import ControlFlow
  import opened OnePass

  lemma SpanParts(x: int, a: int, j: nat, k: nat)
    ensures InSpan(x, a, j + k) <==> InSpan(x, a, j) || InSpan(x, a + 8 * j, k)
    ensures InSpan(x, a + 8 * j, k) ==> !InSpan(x, a, j) && (x - a) / 8 == j + (x - (a + 8 * j)) / 8
    ensures InSpan(x, a, j) ==> 0 <= (x - a) / 8 < j
  {
  }

  lemma WriteMore(cell: map<Word, Word>, org: Word, code: seq<Word>, ws: seq<Word>)
    requires org + 8 * |code + ws| < TWO64
    ensures WriteCells(cell, org, code + ws) == WriteCells(WriteCells(cell, org, code), org + 8 * |code|, ws)
  {
    hide InSpan, WriteCells;
    var here := org + 8 * |code|;
    var l, r := WriteCells(cell, org, code + ws), WriteCells(WriteCells(cell, org, code), here, ws);
    forall x: Word
      ensures x in l <==> x in r
      ensures x in l ==> l[x] == r[x]
    {
      WrittenTwice(cell, org, code, ws, x);
    }
  }

  lemma WrittenTwice(cell: map<Word, Word>, org: Word, code: seq<Word>, ws: seq<Word>, x: Word)
    requires org + 8 * |code + ws| < TWO64
    ensures var l, r := WriteCells(cell, org, code + ws), WriteCells(WriteCells(cell, org, code), org + 8 * |code|, ws);
            (x in l <==> x in r) && (x in l ==> l[x] == r[x])
  {
    hide InSpan, WriteCells;
    SpanParts(x, org, |code|, |ws|);
    WrittenAt(cell, org, code + ws, x);
    WrittenAt(cell, org, code, x);
    WrittenAt(WriteCells(cell, org, code), org + 8 * |code|, ws, x);
  }

  lemma WrittenAt(cell: map<Word, Word>, a: Word, ws: seq<Word>, x: Word)
    requires a + 8 * |ws| < TWO64
    ensures var w := WriteCells(cell, a, ws);
            && (x in w <==> x in cell || InSpan(x, a, |ws|))
            && (InSpan(x, a, |ws|) ==> 0 <= (x - a) / 8 < |ws| && w[x] == ws[(x - a) / 8])
            && (x in w && !InSpan(x, a, |ws|) ==> w[x] == cell[x])
  {
  }

  lemma ElseCase(n: Nucleus, d: Space, s: Compiling)
    requires s.Open? && InSpace(d, s)
    ensures var e, hole := Emit(d, [ControlFlow.Cfa(n, Jump), 0], s), HereOf(d, s) + 8;
            TokenStep(n, d, ELSE, s)
            == if e.Halted? then e
               else if |s.rs| < 1 then Halted(ReturnUnderflow)
               else
                 var f := Fill(d, s.rs[0], hole + 8, e.(holes := e.holes + [hole]));
                 if f.Halted? then f else f.(rs := [hole] + s.rs[1..])
  {
  }

  lemma RepeatCase(n: Nucleus, d: Space, s: Compiling)
    requires s.Open? && InSpace(d, s)
    ensures TokenStep(n, d, REPEAT, s)
         == if |s.rs| < 1 then Halted(ReturnUnderflow)
            else if HereOf(d, s) + 16 > d.limit then Halted(SpaceOverflow)
            else if |s.rs| < 2 then Halted(Wild)
            else Fill(d, s.rs[0], HereOf(d, s) + 16,
                      Open(s.code + [ControlFlow.Cfa(n, Jump), s.rs[1]], s.rs[2..], s.holes, s.filled))
  {
  }

  lemma Longer(m: seq<Word>, i: nat, k: nat, raw: seq<Word>)
    requires i + k <= |raw| <= |m| && m[i..|raw|] == raw[i..]
    ensures m[..i + k] == m[..i] + raw[i..][..k] && m[i + k..|raw|] == raw[i + k..]
  {
    assert m[i + k..|raw|] == m[i..|raw|][k..];
  }

  /** No sum of an address of the block and a size that ALLOT accepts wraps around. */
  lemma ReserveWraps(here: Word, x: Word)
    requires here <= TWO63 && !IsNegative(x)
    ensures Wrap(here + 8 * Reserved(x)) == here + 8 * Reserved(x)
  {
  }

  lemma TwoOnTop(r: seq<Word>, rest: seq<Word>)
    requires |r| == 2
    ensures [r[0]] + ([r[1]] + rest) == r + rest
  {
  }

  lemma WriteHas(cell: map<Word, Word>, org: Word, code: seq<Word>, i: nat)
    requires org + 8 * |code| < TWO64 && i < |code|
    ensures org + 8 * i in WriteCells(cell, org, code)
  {
    assert InSpan(org + 8 * i, org, |code|);
  }

  lemma WriteOne(cell: map<Word, Word>, a: Word, w: Word)
    requires a + 8 < TWO64
    ensures WriteCells(cell, a, [w]) == cell[a := w]
  {
    assert forall x :: InSpan(x, a, 1) <==> x == a;
  }

  lemma WriteSet(cell: map<Word, Word>, org: Word, code: seq<Word>, i: nat, w: Word)
    requires org + 8 * |code| < TWO64 && i < |code|
    ensures WriteCells(cell, org, code[i := w]) == WriteCells(cell, org, code)[(org + 8 * i) as Word := w]
  {
    assert InSpan(org + 8 * i, org, |code|);
  }

  lemma WriteNone(cell: map<Word, Word>, a: Word)
    ensures WriteCells(cell, a, []) == cell
  {
    assert forall x: Word :: !InSpan(x, a, 0);
  }

  /** The compilation of a string in its three stages. */
  lemma TextStep(n: Nucleus, d: Space, data: seq<Word>, len: Word, s: Compiling, e: Compiling, f: Compiling)
    requires s.Open? && InSpace(d, s) && e == Emit(d, [ControlFlow.Cfa(n, Jump), 0] + data, s) && e.Open?
    requires f == Fill(d, HereOf(d, s) + 8, HereOf(d, e), LogHole(HereOf(d, s) + 8, e))
    ensures TokenStep(n, d, Text(data, len), s)
         == if f.Halted? then f
            else Emit(d, [ControlFlow.Cfa(n, Lit), HereOf(d, s) + 16, ControlFlow.Cfa(n, Lit), len], f)
  {
  }

  lemma TextHalts(n: Nucleus, d: Space, data: seq<Word>, len: Word, s: Compiling)
    requires s.Open? && InSpace(d, s) && Emit(d, [ControlFlow.Cfa(n, Jump), 0] + data, s).Halted?
    ensures TokenStep(n, d, Text(data, len), s) == Emit(d, [ControlFlow.Cfa(n, Jump), 0] + data, s)
  {
  }

  class Fvm {
    const n: Nucleus
    const rom: map<Word, Word>     // the cells of the built-in words, outside the block
    const mem: array<Word>
    const rsize: nat               // cells set aside for the return stack
    const org: Word := n.org       // address of the first cell of the block
    var wp: Word
    var psp: nat                   // the registers count cells from the start of the block
    var rsp: nat
    var dp: nat
    var latest: Word
    var names: seq<seq<Word>>
    var halted: bool
    var fault: Fault
    ghost var holes: seq<Word>     // addresses of the 0 operands compiled, and of the operands filled in
    ghost var filled: seq<Word>

    /** Where the return stack begins and the parameter stack ends. */
    function Top(): nat
      requires rsize <= mem.Length
    {
      mem.Length - rsize
    }

    /**
     * The three pointers are inside their regions; the dictionary and the parameter stack share the rest evenly, and
     * what lies above HERE is as it was at start.
     */
    ghost predicate Valid()
      reads `psp, `rsp, `dp, mem
    {
      && rsize <= mem.Length && org + 8 * mem.Length <= TWO63 && org % 8 == 0
      && 2 * dp <= Top() <= 2 * psp && psp <= Top() <= rsp <= mem.Length
      && n.pcap == Top() / 2 && n.rcap == rsize && n.limit == org + 8 * (Top() / 2)
      && |n.raw| == Top() / 2 && mem[dp..Top() / 2] == n.raw[dp..]
      && forall a <- rom :: !(org <= a < org + 8 * mem.Length)
    }

    ghost function Code(): seq<Word>
      requires Valid()
      reads `psp, `rsp, `dp, mem
    {
      mem[..dp]
    }

    /** The parameter stack, top first, as it lies in memory. */
    ghost function PS(): seq<Word>
      requires Valid()
      reads `psp, `rsp, `dp, mem
    {
      mem[psp..Top()]
    }

    ghost function RS(): seq<Word>
      requires Valid()
      reads `psp, `rsp, `dp, mem
    {
      mem[rsp..]
    }

    function Here(): (here: Word)
      requires Valid()
      reads `psp, `rsp, `dp, mem
      ensures here == org + 8 * |Code()| && here <= n.limit <= TWO63
    {
      org + 8 * dp
    }

    /** The number of cells on the parameter stack, and its `k`-th cell. */
    function Depth(): (d: nat)
      requires Valid()
      reads `psp, `rsp, `dp, mem
      ensures d == |PS()| <= n.pcap
    {
      Top() - psp
    }

    function P(k: nat): (w: Word)
      requires Valid() && k < |PS()|
      reads `psp, `rsp, `dp, mem
      ensures w == PS()[k]
    {
      mem[psp + k]
    }

    /** The same for the return stack. */
    function RDepth(): (d: nat)
      requires Valid()
      reads `psp, `rsp, `dp, mem
      ensures d == |RS()| <= n.rcap
    {
      mem.Length - rsp
    }

    function R(k: nat): (w: Word)
      requires Valid() && k < |RS()|
      reads `psp, `rsp, `dp, mem
      ensures w == RS()[k]
    {
      mem[rsp + k]
    }

    ghost function Cells(): map<Word, Word>
      requires Valid()
      reads `psp, `rsp, `dp, mem
    {
      WriteCells(rom, org, Code())
    }

    /** The state of the machine on sequences that this block of memory stands for. */
    ghost function Abs(): State
      requires Valid()
      reads this, mem
    {
      if halted then Stop(fault) else Go(wp, PS(), RS(), Memory(Cells(), Here(), latest, names))
    }

    /** The layout at start: an empty dictionary, an empty parameter stack, and QUIT as the last return. */
    constructor (n: Nucleus, rom: map<Word, Word>, mem: array<Word>, rsize: nat, quit: Word, start: Word,
                 latest: Word, names: seq<seq<Word>>)
      requires 1 <= rsize <= mem.Length && n.org + 8 * mem.Length <= TWO63 && n.org % 8 == 0
      requires n.pcap == (mem.Length - rsize) / 2 && n.rcap == rsize
      requires n.limit == n.org + 8 * ((mem.Length - rsize) / 2) && n.raw == mem[..(mem.Length - rsize) / 2]
      requires forall a <- rom :: !(n.org <= a < n.org + 8 * mem.Length)
      modifies mem
      ensures Valid() && this.mem == mem && this.n == n && this.rom == rom
      ensures Abs() == Go(start, [], [quit], Memory(rom, n.org, latest, names))
    {
      hide WriteCells;
      this.n, this.rom, this.mem, this.rsize := n, rom, mem, rsize;
      wp, psp, rsp, dp := start, mem.Length - rsize, mem.Length - 1, 0;
      this.latest, this.names, halted, fault := latest, names, false, Wild;
      new;
      mem[mem.Length - 1] := quit;
      assert RS() == [quit] && Code() == [] && PS() == [];
      WriteNone(rom, n.org);
    }

    method Halt(why: Fault)
      requires Valid()
      modifies `halted, `fault
      ensures Valid() && Abs() == Stop(why)
    {
      halted, fault := true, why;
    }

    /** Push on the parameter stack: only that stack changes. */
    method PushP(w: Word)
      requires Valid() && !halted && |PS()| < n.pcap
      modifies this`psp, mem
      ensures Valid() && PS() == [w] + old(PS()) && RS() == old(RS()) && Code() == old(Code())
    {
      psp := psp - 1;
      mem[psp] := w;
    }

    /** Drop `k` cells of the parameter stack. */
    method DropP(k: nat)
      requires Valid() && !halted && k <= |PS()|
      modifies this`psp
      ensures Valid() && PS() == old(PS())[k..] && RS() == old(RS()) && Code() == old(Code())
    {
      psp := psp + k;
    }

    method PushR(w: Word)
      requires Valid() && !halted && |RS()| < n.rcap
      modifies this`rsp, mem
      ensures Valid() && RS() == [w] + old(RS()) && PS() == old(PS()) && Code() == old(Code())
    {
      rsp := rsp - 1;
      mem[rsp] := w;
    }

    method DropR(k: nat)
      requires Valid() && !halted && k <= |RS()|
      modifies this`rsp
      ensures Valid() && RS() == old(RS())[k..] && PS() == old(PS()) && Code() == old(Code())
    {
      rsp := rsp + k;
    }

    /** Overwrite the `k`-th cell of the parameter stack. */
    method SetP(k: nat, w: Word)
      requires Valid() && !halted && k < |PS()|
      modifies mem
      ensures Valid() && PS() == old(PS())[k := w] && RS() == old(RS()) && Code() == old(Code())
    {
      mem[psp + k] := w;
    }

    /** Append one cell to the dictionary. */
    method AppendCell(w: Word)
      requires Valid() && !halted && Here() + 8 <= n.limit
      modifies this`dp, mem
      ensures Valid() && Code() == old(Code()) + [w] && PS() == old(PS()) && RS() == old(RS())
    {
      mem[dp] := w;
      dp := dp + 1;
    }

    /** Store through an address below HERE. */
    method PatchCell(a: Word, w: Word)
      requires Valid() && !halted && InSpan(a, org, |Code()|)
      modifies mem
      ensures Valid() && Code() == old(Code())[(a - org) / 8 := w] && PS() == old(PS()) && RS() == old(RS())
    {
      mem[(a - org) / 8] := w;
    }

    method ReadCell(a: Word) returns (known: bool, w: Word)
      requires Valid() && !halted
      ensures known <==> a in Cells()
      ensures known ==> w == Cells()[a]
    {
      if org <= a < Here() && (a - org) % 8 == 0 {
        assert InSpan(a, org, |Code()|);
        return true, mem[(a - org) / 8];
      } else if a in rom {
        assert !InSpan(a, org, |Code()|);
        return true, rom[a];
      }
      return false, 0;
    }
  
    /** A checked primitive, worked out in place on the parameter stack. */
    method DoPrim(p: Prim)
      requires Valid() && !halted
      modifies this`psp, this`halted, this`fault, mem
      ensures Valid()
      ensures match PrimEffect(p, old(PS()), n.pcap)
              case Left(ps) => !halted && PS() == ps && RS() == old(RS()) && Code() == old(Code())
              case Failed(e) => halted && fault == e
    {
      hide Valid, PS, RS, Code, Here, Depth, P, RDepth, R;
      match p
      case Un(_) => DoArithmetic(p);
      case Bin(_) => DoArithmetic(p);
      case Divide(_) => DoDivision(p);
      case MulDiv(_) => DoDivision(p);
      case Rot => DoRot(p);
      case _ => DoShuffle(p);
    }

    method DoArithmetic(p: Prim)
      requires Valid() && !halted && (p.Un? || p.Bin?)
      modifies this`psp, this`halted, this`fault, mem
      ensures Valid()
      ensures match PrimEffect(p, old(PS()), n.pcap)
              case Left(ps) => !halted && PS() == ps && RS() == old(RS()) && Code() == old(Code())
              case Failed(e) => halted && fault == e
    {
      hide Valid, PS, RS, Code, Here, Depth, P, RDepth, R;
      var depth := Depth();
      if depth < if p.Un? then 1 else 2 {
        halted, fault := true, StackUnderflow;
      } else if p.Un? {
        SetP(0, UnaryResult(p.un, P(0)));
      } else {
        SetP(1, BinaryResult(p.bin, P(1), P(0)));
        DropP(1);
      }
    }

    method DoDivision(p: Prim)
      requires Valid() && !halted && (p.Divide? || p.MulDiv?)
      modifies this`psp, this`halted, this`fault, mem
      ensures Valid()
      ensures match PrimEffect(p, old(PS()), n.pcap)
              case Left(ps) => !halted && PS() == ps && RS() == old(RS()) && Code() == old(Code())
              case Failed(e) => halted && fault == e
    {
      hide Valid, PS, RS, Code, Here, Depth, P, RDepth, R;
      var k, depth := if p.Divide? then 2 else 3, Depth();
      if depth < k {
        halted, fault := true, StackUnderflow;
      } else if P(0) == 0 {
        halted, fault := true, DivideByZero;
      } else if p.Divide? {
        DoDivide(DivisionResult(p.div, P(1), P(0)), 2);
      } else {
        DoDivide(MulDivResult(p.signed, P(2), P(1), P(0)), 3);
      }
    }

    method DoRot(p: Prim)
      requires Valid() && !halted && p.Rot?
      modifies this`psp, this`halted, this`fault, mem
      ensures Valid()
      ensures match PrimEffect(p, old(PS()), n.pcap)
              case Left(ps) => !halted && PS() == ps && RS() == old(RS()) && Code() == old(Code())
              case Failed(e) => halted && fault == e
    {
      hide Valid, PS, RS, Code, Here, Depth, P, RDepth, R;
      if Depth() < 3 {
        halted, fault := true, StackUnderflow;
      } else {
        var x, y, z := P(2), P(1), P(0);
        SetP(2, y);
        SetP(1, z);
        SetP(0, x);
      }
    }

    method DoShuffle(p: Prim)
      requires Valid() && !halted && (p.Cell? || p.Dup? || p.Swap? || p.Over? || p.Drop?)
      modifies this`psp, this`halted, this`fault, mem
      ensures Valid()
      ensures match PrimEffect(p, old(PS()), n.pcap)
              case Left(ps) => !halted && PS() == ps && RS() == old(RS()) && Code() == old(Code())
              case Failed(e) => halted && fault == e
    {
      hide Valid, PS, RS, Code, Here, Depth, P, RDepth, R;
      var depth := Depth();
      var least := if p.Cell? then 0 else if p.Dup? || p.Drop? then 1 else 2;
      if depth < least {
        halted, fault := true, StackUnderflow;
      } else if p.Drop? {
        DropP(1);
      } else if p.Swap? {
        var x, y := P(0), P(1);
        SetP(1, x);
        SetP(0, y);
      } else if depth >= n.pcap {
        halted, fault := true, StackOverflow;
      } else {
        PushP(if p.Cell? then 8 else if p.Dup? then P(0) else P(1));
      }
    }

    /** Replace the `k` operands of a division by its one or two results. */
    method DoDivide(results: Effect, k: nat)
      requires Valid() && !halted && 2 <= k <= |PS()|
      requires results.Left? ==> 1 <= |results.ps| <= 2
      modifies this`psp, this`halted, this`fault, mem
      ensures Valid()
      ensures match results
              case Left(r) => !halted && PS() == r + old(PS())[k..] && RS() == old(RS()) && Code() == old(Code())
              case Failed(e) => halted && fault == e
    {
      hide Valid, PS, RS, Code, Here, Depth, P, RDepth, R;
      if results.Failed? {
        halted, fault := true, results.why;
        return;
      }
      var r := results.ps;
      ghost var depth := Depth();
      DropP(k);
      ghost var rest := PS();
      if |r| == 1 {
        PushP(r[0]);
        assert [r[0]] == r;
      } else {
        PushP(r[1]);
        PushP(r[0]);
        TwoOnTop(r, rest);
      }
    }

    /** The machine-code routine of `op`, after NEXT has fetched it. */
    method DoExec(op: Op)
      requires Valid() && !halted
      modifies this, mem
      ensures Valid() && Abs() == Exec(n, op, old(Abs()))
    {
      hide Valid, PS, RS, Code, Here, Depth, P, RDepth, R;
      match op
      case Pure(p) => DoPrim(p);
      case Exit => DoExit();
      case Lit => DoLit();
      case Jump => DoJump();
      case CondJump => DoCondJump();
      case RunCode => Halt(Wild);
      case QuitFvm => Halt(Quit);
      case ToRet => DoReturnStack(op);
      case FromRet => DoReturnStack(op);
      case Here => DoPush(op);
      case Comma => DoComma();
      case Allot => DoAllot();
      case Compile => DoCompile();
      case Fetch => DoFetch();
      case Store => DoStore();
      case ToLatest => DoPush(op);
      case ToCfa => DoToCfa();
      case Create => DoCreate();
    }

    method DoExit()
      requires Valid() && !halted
      modifies this, mem
      ensures Valid() && Abs() == Exec(n, Exit, old(Abs()))
    {
      hide Valid, PS, RS, Code, Here, Depth, P, RDepth, R, WriteCells;
      if RDepth() < 1 { Halt(ReturnUnderflow); return; }
      wp := R(0);
      DropR(1);
    }

    method DoLit()
      requires Valid() && !halted
      modifies this, mem
      ensures Valid() && Abs() == Exec(n, Lit, old(Abs()))
    {
      hide Valid, PS, RS, Code, Here, Depth, P, RDepth, R, WriteCells;
      if Depth() >= n.pcap { Halt(StackOverflow); return; }
      var known, w := ReadCell(wp);
      if !known { Halt(Wild); return; }
      wp := NextCell(wp);
      PushP(w);
    }

    method DoJump()
      requires Valid() && !halted
      modifies this, mem
      ensures Valid() && Abs() == Exec(n, Jump, old(Abs()))
    {
      hide Valid, PS, RS, Code, Here, Depth, P, RDepth, R, WriteCells;
      var known, w := ReadCell(wp);
      if !known { Halt(Wild); return; }
      wp := w;
    }

    method DoCondJump()
      requires Valid() && !halted
      modifies this, mem
      ensures Valid() && Abs() == Exec(n, CondJump, old(Abs()))
    {
      hide Valid, PS, RS, Code, Here, Depth, P, RDepth, R, WriteCells;
      if Depth() < 1 { Halt(StackUnderflow); return; }
      if P(0) == 0 {
        wp := NextCell(wp);
        DropP(1);
        return;
      }
      var known, w := ReadCell(wp);
      if !known { Halt(Wild); return; }
      wp := w;
      DropP(1);
    }

    method DoReturnStack(op: Op)
      requires Valid() && !halted && (op.ToRet? || op.FromRet?)
      modifies this, mem
      ensures Valid() && Abs() == Exec(n, op, old(Abs()))
    {
      hide Valid, PS, RS, Code, Here, Depth, P, RDepth, R, WriteCells;
      if op.ToRet? {
        if Depth() < 1 { Halt(StackUnderflow); return; }
        if RDepth() >= n.rcap { Halt(ReturnOverflow); return; }
        var w := P(0);
        DropP(1);
        PushR(w);
      } else {
        if Depth() >= n.pcap { Halt(StackOverflow); return; }
        if RDepth() < 1 { Halt(ReturnUnderflow); return; }
        var w := R(0);
        DropR(1);
        PushP(w);
      }
    }

    /** Append a cell and move HERE, or stop when the dictionary space is used up. */
    method DoAppend(w: Word)
      requires Valid() && !halted
      modifies this, mem
      ensures Valid() && Abs() == Append(n, w, old(Abs()))
    {
      hide Valid, PS, RS, Code, Here, Depth, P, RDepth, R, WriteCells;
      if Here() + 8 > n.limit { Halt(SpaceOverflow); return; }
      WriteOne(Cells(), Here(), w);
      LayCells([w]);
    }

    method DoComma()
      requires Valid() && !halted
      modifies this, mem
      ensures Valid() && Abs() == Exec(n, Comma, old(Abs()))
    {
      hide Valid, PS, RS, Code, Here, Depth, P, RDepth, R, WriteCells, Append;
      if Depth() < 1 { Halt(StackUnderflow); return; }
      var w := P(0);
      DropP(1);
      DoAppend(w);
    }

    method DoPush(op: Op)
      requires Valid() && !halted && (op.Here? || op.ToLatest?)
      modifies this, mem
      ensures Valid() && Abs() == Exec(n, op, old(Abs()))
    {
      hide Valid, PS, RS, Code, Here, Depth, P, RDepth, R, WriteCells;
      if Depth() >= n.pcap { Halt(StackOverflow); return; }
      PushP(if op.Here? then Here() else n.latestVar);
    }

    /** ALLOT, checked against the end of the space before HERE moves. */
    method DoAllot()
      requires Valid() && !halted
      modifies this, mem
      ensures Valid() && Abs() == Exec(n, Allot, old(Abs()))
    {
      hide Valid, PS, RS, Code, Here, Depth, P, RDepth, R, WriteCells, Wrap;
      if Depth() < 1 { Halt(StackUnderflow); return; }
      var x := P(0);
      DropP(1);
      if IsNegative(x) { Halt(NegativeAllot); return; }
      var k := Reserved(x);
      ReserveWraps(Here(), x);
      if Wrap(Here() + 8 * k) > n.limit { Halt(SpaceOverflow); return; }
      Skip(k);
    }

    /** HERE moves over `k` cells, which come into the dictionary as they are. */
    method Skip(k: nat)
      requires Valid() && !halted && Here() + 8 * k <= n.limit
      modifies this`dp
      ensures Valid() && PS() == old(PS()) && RS() == old(RS()) && Here() == old(Here()) + 8 * k
      ensures n.org <= old(Here()) && (old(Here()) - n.org) / 8 + k <= |n.raw| && Here() < TWO64
      ensures Cells() == WriteCells(old(Cells()), old(Here()), n.raw[(old(Here()) - n.org) / 8..][..k])
    {
      hide WriteCells, Valid, PS, RS, Code;
      HereIs();
      WriteMore(rom, org, Code(), n.raw[dp..][..k]);
      MoveDp(k);
    }

    lemma HereIs()
      requires Valid()
      ensures Here() == org + 8 * dp && |Code()| == dp <= |n.raw| && n.limit == org + 8 * |n.raw|
    {
    }

    method MoveDp(k: nat)
      requires Valid() && !halted && dp + k <= |n.raw|
      modifies this`dp
      ensures Valid() && PS() == old(PS()) && RS() == old(RS()) && dp == old(dp) + k
      ensures Code() == old(Code()) + n.raw[old(dp)..][..k]
    {
      Longer(mem[..], dp, k, n.raw);
      dp := dp + k;
    }

    method DoCompile()
      requires Valid() && !halted
      modifies this, mem
      ensures Valid() && Abs() == Exec(n, Compile, old(Abs()))
    {
      hide Valid, PS, RS, Code, Here, Depth, P, RDepth, R, WriteCells;
      if Here() + 8 > n.limit { Halt(SpaceOverflow); return; }
      var known, w := ReadCell(wp);
      if !known { Halt(Wild); return; }
      wp := NextCell(wp);
      DoAppend(w);
    }

    method DoFetch()
      requires Valid() && !halted
      modifies this, mem
      ensures Valid() && Abs() == Exec(n, Fetch, old(Abs()))
    {
      hide Valid, PS, RS, Code, Here, Depth, P, RDepth, R, WriteCells;
      if Depth() < 1 { Halt(StackUnderflow); return; }
      if P(0) == n.latestVar {
        SetP(0, latest);
        return;
      }
      var known, w := ReadCell(P(0));
      if !known { Halt(Wild); return; }
      SetP(0, w);
    }

    method DoToCfa()
      requires Valid() && !halted
      modifies this, mem
      ensures Valid() && Abs() == Exec(n, ToCfa, old(Abs()))
    {
      hide Valid, PS, RS, Code, Here, Depth, P, RDepth, R, WriteCells;
      if Depth() < 1 { Halt(StackUnderflow); return; }
      var a := P(0);
      if a == 0 { Halt(NullPointer); return; }
      var known, w := ReadCell(NextCell(a));
      if !known { Halt(Wild); return; }
      SetP(0, CodeField(a, w));
    }
  
    method DoStore()
      requires Valid() && !halted
      modifies this, mem
      ensures Valid() && Abs() == Exec(n, Store, old(Abs()))
    {
      hide Valid, PS, RS, Code, Here, Depth, P, RDepth, R, WriteCells;
      if Depth() < 2 { Halt(StackUnderflow); return; }
      var a, w := P(0), P(1);
      if !(org <= a < Here() && (a - org) % 8 == 0) { Halt(Wild); return; }
      DropP(2);
      StoreCell((a - org) / 8, w);
    }

    method StoreCell(i: nat, w: Word)
      requires Valid() && !halted && i < |Code()|
      modifies mem
      ensures Valid() && PS() == old(PS()) && RS() == old(RS()) && Here() == old(Here())
      ensures var a: Word := org + 8 * i; a in old(Cells()) && Cells() == old(Cells())[a := w]
    {
      hide WriteCells;
      WriteHas(rom, org, Code(), i);
      WriteSet(rom, org, Code(), i, w);
      mem[i] := w;
    }

    method AppendCells(ws: seq<Word>)
      requires Valid() && !halted && Here() + 8 * |ws| <= n.limit
      modifies this`dp, mem
      ensures Valid() && Code() == old(Code()) + ws && PS() == old(PS()) && RS() == old(RS())
    {
      hide Valid, PS, RS, Code, Here;
      for i := 0 to |ws|
        invariant Valid() && !halted
        invariant Code() == old(Code()) + ws[..i] && PS() == old(PS()) && RS() == old(RS())
      {
        AppendCell(ws[i]);
      }
    }

    method LayCells(ws: seq<Word>)
      requires Valid() && !halted && Here() + 8 * |ws| <= n.limit
      modifies this`dp, mem
      ensures Valid() && PS() == old(PS()) && RS() == old(RS())
      ensures Here() == old(Here()) + 8 * |ws| && Cells() == WriteCells(old(Cells()), old(Here()), ws)
    {
      hide Valid, PS, RS, Code, Here, Depth, P, RDepth, R, WriteCells;
      WriteMore(rom, org, Code(), ws);
      AppendCells(ws);
    }

    /** A new header: link and name field, and the new HERE on the stack. */
    method DoCreate()
      requires Valid() && !halted
      modifies this, mem
      ensures Valid() && Abs() == Exec(n, Create, old(Abs()))
    {
      hide Valid, PS, RS, Code, Here, Depth, P, RDepth, R, WriteCells;
      if Depth() >= n.pcap { Halt(StackOverflow); return; }
      if names == [] { Halt(Quit); return; }
      if Here() + 8 + 8 * |names[0]| > n.limit { Halt(SpaceOverflow); return; }
      MakeHeader(names[0]);
      names := names[1..];
    }

    method MakeHeader(name: seq<Word>)
      requires Valid() && !halted && |PS()| < n.pcap && Here() + 8 + 8 * |name| <= n.limit
      modifies this`dp, this`psp, this`latest, mem
      ensures Valid() && RS() == old(RS()) && latest == old(Here()) && Here() == old(Here()) + 8 + 8 * |name|
      ensures PS() == [Here()] + old(PS())
      ensures Cells() == WriteCells(old(Cells()), old(Here()), [old(latest)] + name)
    {
      hide Valid, PS, RS, Code, Here, Depth, P, RDepth, R;
      var header := [latest] + name;
      latest := Here();
      LayCells(header);
      PushP(Here());
    }

    /** Jump through the word address `wa`; RUNCODE takes the next one from the stack. */
    method DoJumpTo(wa: Word)
      requires Valid() && !halted
      modifies this, mem
      ensures Valid() && Abs() == JumpTo(n, wa, old(Abs()))
      decreases |PS()|
    {
      hide Valid, PS, RS, Code, Here, Depth, P, RDepth, R, WriteCells;
      var known, code := ReadCell(wa);
      if !known { Halt(Wild); return; }
      if code == n.docol {
        if RDepth() >= n.rcap { Halt(ReturnOverflow); return; }
        PushR(wp);
        wp := NextCell(wa);
      } else if code == n.douser {
        DoDoUser(wa);
      } else if code !in n.entry {
        Halt(Wild);
      } else if n.entry[code] == RunCode {
        if Depth() < 1 { Halt(StackUnderflow); return; }
        var cfa := P(0);
        DropP(1);
        DoJumpTo(cfa);
      } else {
        DoExec(n.entry[code]);
      }
    }

    method DoDoUser(wa: Word)
      requires Valid() && !halted
      modifies this, mem
      ensures Valid() && Abs() == DoUser(n, wa, old(Abs()))
    {
      hide Valid, PS, RS, Code, Here, Depth, P, RDepth, R, WriteCells;
      if Depth() >= n.pcap { Halt(StackOverflow); return; }
      var known, code := ReadCell(NextCell(wa));
      if !known { Halt(Wild); return; }
      PushP(NextCell(NextCell(wa)));
      if code != 0 {
        if RDepth() >= n.rcap { Halt(ReturnOverflow); return; }
        PushR(wp);
        wp := code;
      }
    }

    /** NEXT. */
    method Next()
      requires Valid()
      modifies this, mem
      ensures Valid() && Abs() == Step(n, old(Abs()))
    {
      hide WriteCells;
      if halted { return; }
      var known, wa := ReadCell(wp);
      if !known { Halt(Wild); return; }
      wp := NextCell(wp);
      DoJumpTo(wa);
    }

    /**
     * Region safety over whole runs: however many steps are run, the pointers stay in their regions (`Valid`) or the
     * run stops, and what the block of memory holds is what the machine on sequences says, where a push on one stack
     * or an append to the dictionary cannot touch anything else.
     */
    method RunSteps(k: nat)
      requires Valid()
      modifies this, mem
      ensures Valid() && Abs() == Run(n, old(Abs()), k)
    {
      ghost var start := Abs();
      for i := 0 to k
        invariant Valid() && Run(n, Abs(), k - i) == Run(n, start, k)
      {
        hide Step;
        Next();
      }
    }
  
    function Dict(): Space
    {
      Space(n.org, n.limit)
    }

    /** What the compiling words see: the dictionary cells, the return stack and the log of operands. */
    ghost function Comp(): (c: Compiling)
      requires Valid()
      reads this, mem
      ensures InSpace(Dict(), c)
    {
      if halted then Halted(fault) else Open(Code(), RS(), holes, filled)
    }

    /** Append cells after the bounds check. */
    method Lay(ws: seq<Word>)
      requires Valid() && !halted
      modifies this`dp, this`halted, this`fault, mem
      ensures Valid() && PS() == old(PS()) && Comp() == Emit(Dict(), ws, old(Comp()))
      ensures !halted ==> Here() == old(Here()) + 8 * |ws|
    {
      hide Valid, PS, RS, Code, Here, Depth, P, RDepth, R;
      if Here() + 8 * |ws| > n.limit {
        halted, fault := true, SpaceOverflow;
      } else {
        AppendCells(ws);
      }
    }

    /** Store through an address taken from the return stack. */
    method Patch(a: Word, w: Word)
      requires Valid() && !halted
      modifies this`filled, this`halted, this`fault, mem
      ensures Valid() && PS() == old(PS()) && Comp() == Fill(Dict(), a, w, old(Comp()))
    {
      hide Valid, PS, RS, Code, Here, Depth, P, RDepth, R;
      if org <= a < Here() && (a - org) % 8 == 0 {
        PatchCell(a, w);
        filled := filled + [a];
      } else {
        halted, fault := true, Wild;
      }
    }

    /** IF, UNLESS and the second half of WHILE: a test with a 0 operand whose address goes on the return stack. */
    method LayTest(test: Word)
      requires Valid() && !halted
      modifies this, mem
      ensures Valid() && PS() == old(PS()) && Comp() == OpenTest(n, Dict(), test, old(Comp()))
    {
      hide Valid, PS, RS, Code, Here, Depth, P, RDepth, R, Emit, PushReturn, LogHole;
      Lay([test, ControlFlow.Cfa(n, CondJump), 0]);
      if halted { return; }
      KeepHole(Here() - 8);
    }

    /** The address of a 0 operand goes on the return stack. */
    method KeepHole(hole: Word)
      requires Valid() && !halted
      modifies this, mem
      ensures Valid() && PS() == old(PS()) && Comp() == PushReturn(n, hole, LogHole(hole, old(Comp())))
    {
      hide Valid, PS, RS, Code, Here, Depth, P, RDepth, R;
      holes := holes + [hole];
      if RDepth() >= n.rcap {
        halted, fault := true, ReturnOverflow;
      } else {
        PushR(hole);
      }
    }

    method DoElse()
      requires Valid() && !halted
      modifies this, mem
      ensures Valid() && PS() == old(PS()) && Comp() == TokenStep(n, Dict(), ELSE, old(Comp()))
    {
      hide Valid, PS, RS, Code, Here, Depth, P, RDepth, R, Fill, TokenStep;
      ElseCase(n, Dict(), Comp());
      var start := Here();
      Lay([ControlFlow.Cfa(n, Jump), 0]);
      if halted { return; }
      if RDepth() < 1 { halted, fault := true, ReturnUnderflow; return; }
      TurnTest(start + 8);
    }

    /** The operand of the test is filled, and the one at `hole` takes its place on the return stack. */
    method TurnTest(hole: Word)
      requires Valid() && !halted && |RS()| >= 1 && hole + 8 == Here()
      modifies this, mem
      ensures Valid() && PS() == old(PS())
      ensures var f := Fill(Dict(), old(RS())[0], hole + 8,
                            Open(old(Code()), old(RS()), old(holes) + [hole], old(filled)));
              Comp() == if f.Halted? then f else f.(rs := [hole] + old(RS())[1..])
    {
      hide Valid, PS, RS, Code, Here, Depth, P, RDepth, R, Fill;
      holes := holes + [hole];
      var a := R(0);
      Patch(a, Here());
      if halted { return; }
      SetR(hole);
    }

    /** Overwrite the top of the return stack. */
    method SetR(w: Word)
      requires Valid() && !halted && |RS()| >= 1
      modifies mem
      ensures Valid() && PS() == old(PS()) && Code() == old(Code()) && RS() == [w] + old(RS())[1..]
    {
      mem[rsp] := w;
    }

    /** Take the address on top of the return stack. */
    method PopR() returns (a: Word)
      requires Valid() && !halted && |RS()| >= 1
      modifies this`rsp
      ensures Valid() && PS() == old(PS()) && Code() == old(Code()) && a == old(RS())[0] && RS() == old(RS())[1..]
    {
      hide Valid, PS, RS, Code, Here, Depth, P, RDepth, R;
      a := R(0);
      DropR(1);
    }

    method DoThen()
      requires Valid() && !halted
      modifies this, mem
      ensures Valid() && PS() == old(PS()) && Comp() == TokenStep(n, Dict(), THEN, old(Comp()))
    {
      hide Valid, PS, RS, Code, Here, Depth, P, RDepth, R, Fill;
      if RDepth() < 1 { halted, fault := true, ReturnUnderflow; return; }
      var a := PopR();
      Patch(a, Here());
    }

    method DoBegin()
      requires Valid() && !halted
      modifies this, mem
      ensures Valid() && PS() == old(PS()) && Comp() == TokenStep(n, Dict(), BEGIN, old(Comp()))
    {
      hide Valid, PS, RS, Code, Here, Depth, P, RDepth, R;
      if RDepth() >= n.rcap { halted, fault := true, ReturnOverflow; return; }
      PushR(Here());
    }

    /** AGAIN and UNTIL. */
    method DoBack(tok: Token)
      requires Valid() && !halted && (tok.AGAIN? || tok.UNTIL?)
      modifies this, mem
      ensures Valid() && PS() == old(PS()) && Comp() == TokenStep(n, Dict(), tok, old(Comp()))
    {
      hide Valid, PS, RS, Code, Here, Depth, P, RDepth, R;
      if RDepth() < 1 { halted, fault := true, ReturnUnderflow; return; }
      var start := R(0);
      DropR(1);
      if tok.AGAIN? {
        Lay([ControlFlow.Cfa(n, Jump), start]);
      } else {
        Lay([n.isFalse, ControlFlow.Cfa(n, CondJump), start]);
      }
    }

    method DoWhile()
      requires Valid() && !halted
      modifies this, mem
      ensures Valid() && PS() == old(PS()) && Comp() == TokenStep(n, Dict(), WHILE, old(Comp()))
    {
      hide Valid, PS, RS, Code, Here, Depth, P, RDepth, R;
      if RDepth() >= n.rcap { halted, fault := true, ReturnOverflow; return; }
      LayTest(n.isFalse);
    }

    method DoRepeat()
      requires Valid() && !halted
      modifies this, mem
      ensures Valid() && PS() == old(PS()) && Comp() == TokenStep(n, Dict(), REPEAT, old(Comp()))
    {
      hide Valid, PS, RS, Code, Here, Depth, P, RDepth, R, Fill, TokenStep, Emit;
      RepeatCase(n, Dict(), Comp());
      if RDepth() < 1 { halted, fault := true, ReturnUnderflow; return; }
      if Here() + 16 > n.limit { halted, fault := true, SpaceOverflow; return; }
      if RDepth() < 2 { halted, fault := true, Wild; return; }
      CloseLoop();
    }

    /** The jump back of REPEAT, and the operand of WHILE. */
    method CloseLoop()
      requires Valid() && !halted && |RS()| >= 2 && Here() + 16 <= n.limit
      modifies this, mem
      ensures Valid() && PS() == old(PS())
      ensures Comp() == Fill(Dict(), old(RS())[0], old(Here()) + 16,
                             Open(old(Code()) + [ControlFlow.Cfa(n, Jump), old(RS())[1]], old(RS())[2..],
                                  old(holes), old(filled)))
    {
      hide Valid, PS, RS, Code, Here, Depth, P, RDepth, R, Fill;
      AppendCells([ControlFlow.Cfa(n, Jump), R(1)]);
      var a := R(0);
      DropR(2);
      Patch(a, Here());
    }

    /** An embedded string whose data cells are `data`. */
    method DoText(data: seq<Word>, len: Word)
      requires Valid() && !halted
      modifies this, mem
      ensures Valid() && PS() == old(PS()) && Comp() == TokenStep(n, Dict(), Text(data, len), old(Comp()))
    {
      hide Valid, PS, RS, Code, Here, Depth, P, RDepth, R, Fill, Emit, TokenStep;
      ghost var s := Comp();
      var start := Here();
      Lay([ControlFlow.Cfa(n, Jump), 0] + data);
      ghost var e := Comp();
      if halted {
        TextHalts(n, Dict(), data, len, s);
        return;
      }
      FillSkip(start + 8);
      TextStep(n, Dict(), data, len, s, e, Comp());
      if halted { return; }
      Lay([ControlFlow.Cfa(n, Lit), start + 16, ControlFlow.Cfa(n, Lit), len]);
    }

    /** The jump over the string that has just been laid is led to HERE. */
    method FillSkip(at: Word)
      requires Valid() && !halted
      modifies this, mem
      ensures Valid() && PS() == old(PS()) && Comp() == Fill(Dict(), at, old(Here()), LogHole(at, old(Comp())))
    {
      hide Valid, PS, RS, Code, Here, Depth, P, RDepth, R, Fill;
      holes := holes + [at];
      Patch(at, Here());
    }

    method DoToken(tok: Token)
      requires Valid() && !halted
      modifies this, mem
      ensures Valid() && PS() == old(PS()) && Comp() == TokenStep(n, Dict(), tok, old(Comp()))
    {
      match tok
      case Number(w) => Lay([ControlFlow.Cfa(n, Lit), w]);
      case Prime(p) => Lay([ControlFlow.Cfa(n, Pure(p))]);
      case Native(op) => Lay([ControlFlow.Cfa(n, op)]);
      case Colon(cfa) => Lay([cfa]);
      case Text(data, len) => DoText(data, len);
      case IF => LayTest(n.isFalse);
      case UNLESS => LayTest(n.isTrue);
      case ELSE => DoElse();
      case THEN => DoThen();
      case BEGIN => DoBegin();
      case AGAIN => DoBack(tok);
      case UNTIL => DoBack(tok);
      case WHILE => DoWhile();
      case REPEAT => DoRepeat();
    }

    /** Compile a whole text, word by word. */
    method CompileText(ts: seq<Token>)
      requires Valid()
      modifies this, mem
      ensures Valid() && PS() == old(PS()) && Comp() == CompileTokens(n, Dict(), ts, old(Comp()))
    {
      ghost var start := Comp();
      for i := 0 to |ts|
        invariant Valid() && PS() == old(PS())
        invariant CompileTokens(n, Dict(), ts[i..], Comp()) == CompileTokens(n, Dict(), ts, start)
      {
        hide TokenStep;
        if halted {
          HaltedStays(n, Dict(), ts[i..], Comp());
          HaltedStays(n, Dict(), ts[i + 1..], Comp());
        } else {
          assert ts[i..][1..] == ts[i + 1..];
          DoToken(ts[i]);
        }
      }
      assert ts[|ts|..] == [];
    }
  }
}
