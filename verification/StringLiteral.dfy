/**
 * S" as it is compiled, byte by byte: the characters are collected in STRBUF, and a jump, the bytes themselves and two
 * literals are appended to the dictionary. The cells this leaves are the code of `Str` in the layout of `ControlFlow`.
 */
module StringLiteral {
  import opened Words
  import opened Bits
  import opened Bytes
  import opened ByteCells
  import opened Machine
  import opened ControlFlow
  import Simulation
  import P = CellStack

  const QUOTE: Byte := 34
  const MAX_LENGTH := 255

  /** How far a string goes: up to the closing quote or the end of the input. */
  function ToQuote(s: seq<Byte>): (n: nat)
    ensures n <= |s|
    ensures forall i :: 0 <= i < n ==> s[i] != QUOTE
    ensures n < |s| ==> s[n] == QUOTE
  {
    if s == [] || s[0] == QUOTE then 0 else 1 + ToQuote(s[1..])
  }

  /** What follows S" in the input without the one space that ends the word. */
  function AfterSpace(s: seq<Byte>): seq<Byte> {
    if s != [] && IsSpace(s[0]) then s[1..] else s
  }

  /** The string: at most 255 bytes of what stands in front of the quote. */
  function Quoted(s: seq<Byte>): (q: seq<Byte>)
    ensures |q| <= MAX_LENGTH
  {
    var n := ToQuote(AfterSpace(s));
    Front(AfterSpace(s), n)
  }

  /** `k` bytes of `t`, but no more than fit into STRBUF. */
  function Front(t: seq<Byte>, k: nat): (q: seq<Byte>)
    requires k <= |t|
    ensures |q| == if k <= MAX_LENGTH then k else MAX_LENGTH
  {
    t[..if k <= MAX_LENGTH then k else MAX_LENGTH]
  }

  lemma FrontStep(t: seq<Byte>, k: nat)
    requires k < |t|
    ensures Front(t, k + 1) == if k < MAX_LENGTH then Front(t, k) + [t[k]] else Front(t, k)
    ensures t[k..] == [t[k]] + t[k + 1..]
  {}

  /** What is left of the input behind the quote. */
  function Unread(s: seq<Byte>): seq<Byte> {
    var t := AfterSpace(s);
    var n := ToQuote(t);
    if n < |t| then t[n + 1..] else []
  }

  /** The cells `len` bytes take. */
  function CellsFor(len: nat): (k: nat)
    ensures len <= 8 * k < len + 8
  {
    (len + 7) / 8
  }

  class Embedder {
    const n: Nucleus
    const strbuf: nat
    const mem: array<Byte>
    var here: nat
    var input: seq<Byte>

    constructor (n: Nucleus, strbuf: nat, size: nat, input: seq<Byte>)
      requires n.org <= n.limit <= size <= TWO63 && n.org % 8 == 0
      requires strbuf + 256 <= size && (strbuf + 256 <= n.org || n.limit <= strbuf)
      ensures Valid() && fresh(mem) && here == n.org && this.input == input
      ensures this.n == n && this.strbuf == strbuf && mem.Length == size
    {
      this.n, this.strbuf, this.input, here := n, strbuf, input, n.org;
      mem := new Byte[size](i => 0);
    }

    /** STRBUF lies outside the dictionary; HERE is a cell address in it. */
    predicate Valid()
      reads this
    {
      && n.org <= here <= n.limit <= mem.Length && mem.Length <= TWO63
      && n.org % 8 == 0 && here % 8 == 0
      && strbuf + 256 <= mem.Length && (strbuf + 256 <= n.org || n.limit <= strbuf)
    }

    function Read(x: nat): Word
      requires x + 8 <= mem.Length
      reads mem
    {
      CellIn(mem[..], x)
    }

    /** Appending a cell, as COMPILE, `,` and LITERAL do. */
    method Append(w: Word) returns (ok: bool)
      requires Valid()
      modifies this`here, mem
      ensures Valid() && ok == (old(here) + 8 <= n.limit)
      ensures here == if ok then old(here) + 8 else old(here)
      ensures ok ==> Read(old(here)) == w
      ensures forall i :: 0 <= i < mem.Length && !(old(here) <= i < here) ==> mem[i] == old(mem[i])
    {
      ok := here + 8 <= n.limit;
      if ok {
        StoreCell(mem, here, w);
        here := here + 8;
      }
    }

    /** ALLOT */
    method Allot(x: Word) returns (ok: bool)
      requires Valid()
      modifies this`here
      ensures Valid() && ok == (!IsNegative(x) && old(here) + 8 * Reserved(x) <= n.limit)
      ensures here == if ok then old(here) + 8 * Reserved(x) else old(here)
    {
      hide Wrap, IsNegative, Reserved;
      AllotIsModulo(x);
      ok := !IsNegative(x);
      if ok {
        WrapDrops(0, here + 8 * Reserved(x));
        ok := Wrap(here + 8 * Reserved(x)) <= n.limit;
      }
      if ok {
        here := here + 8 * Reserved(x);
      }
    }

    /** INPGETCH; -1 at the end. */
    method GetChar() returns (c: int)
      modifies this`input
      ensures if old(input) == [] then c == NONE && input == [] else c == old(input)[0] && input == old(input)[1..]
    {
      if input == [] {
        c := NONE;
      } else {
        c := input[0];
        input := input[1..];
      }
    }

    /** The characters in STRBUF. */
    function Collected(): seq<Byte>
      requires strbuf + 256 <= mem.Length
      reads mem
    {
      mem[strbuf + 1..strbuf + 1 + mem[strbuf]]
    }

    /** SC! */
    method StoreChar(c: Byte)
      requires strbuf + 256 <= mem.Length
      modifies mem
      ensures Collected() == if |old(Collected())| < 255 then old(Collected()) + [c] else old(Collected())
      ensures forall i :: 0 <= i < mem.Length && !(strbuf <= i < strbuf + 256) ==> mem[i] == old(mem[i])
    {
      var len: int := mem[strbuf];
      if len < 255 {
        len := len + 1;
        mem[strbuf] := len;
        mem[strbuf + len] := c;
      }
    }

    /** SKIP1SPC: a character that is no space is given back. */
    method SkipOneSpace()
      modifies this`input
      ensures input == AfterSpace(old(input))
    {
      ghost var was := input;
      var c := GetChar();
      if c != NONE && !IsSpace(c) {
        input := [c] + input;
        assert input == was;
      }
    }

    /** STRLIT */
    method Collect()
      requires strbuf + 256 <= mem.Length
      modifies mem, this`input
      ensures Collected() == Quoted(old(input)) && input == Unread(old(input))
      ensures forall i :: 0 <= i < mem.Length && !(strbuf <= i < strbuf + 256) ==> mem[i] == old(mem[i])
    {
      hide ToQuote, Front;
      mem[strbuf] := 0;
      SkipOneSpace();
      ghost var t := input;
      ghost var k := 0;
      while true
        invariant 0 <= k <= ToQuote(t) && input == t[k..]
        invariant Collected() == Front(t, k)
        invariant forall i :: 0 <= i < mem.Length && !(strbuf <= i < strbuf + 256) ==> mem[i] == old(mem[i])
        decreases |t| - k
      {
        var c := GetChar();
        if c == NONE || c == QUOTE {
          return;
        }
        FrontStep(t, k);
        StoreChar(c);
        k := k + 1;
      }
    }

    /** The program the emitted cells belong to. */
    function Embedded(a: nat, len: Word): Prog
      requires a + 16 + 8 * CellsFor(len) <= mem.Length
      reads mem
    {
      Str(CellsIn(mem[..], a + 16, CellsFor(len)), len)
    }

    /** The jump over the bytes, its target still open, and the place of the target. */
    method CompileJump(stack: P.Stack) returns (ps: P.Stack, ok: bool)
      requires Valid()
      modifies this`here, mem
      ensures Valid() && ok == (old(here) + 16 <= n.limit) && old(here) <= here
      ensures ok ==> here == old(here) + 16 && Read(old(here)) == Cfa(n, Jump) && ps == P.Cell(old(here) + 8, stack)
      ensures forall i :: 0 <= i < mem.Length && !(old(here) <= i < here) ==> mem[i] == old(mem[i])
    {
      ps := stack;
      ok := Append(Cfa(n, Jump));
      if !ok {
        return;
      }
      ok := Append(0);
      if !ok {
        return;
      }
      ps := P.Cell(here - 8, ps);
    }

    /** The stack between ALLOT and CMOVE. */
    ghost function MoveArguments(pos: Word, a: Word, len: Word, rest: P.Stack): P.Stack
      requires strbuf + 256 < TWO64
    {
      P.Cell(len, P.Cell(a, P.Cell(strbuf + 1, P.Cell(len, P.Cell(a, P.Cell(pos, rest))))))
    }

    /** Room for the bytes, in whole cells. */
    method ReserveBytes(stack: P.Stack, ghost pos: Word, ghost rest: P.Stack) returns (ps: P.Stack, ok: bool)
      requires Valid() && stack == P.Cell(pos, rest)
      modifies this`here
      ensures Valid() && ok == (old(here) + 8 * CellsFor(mem[strbuf]) <= n.limit)
      ensures here == if ok then old(here) + 8 * CellsFor(mem[strbuf]) else old(here)
      ensures ok ==> ps == MoveArguments(pos, old(here), mem[strbuf], rest)
    {
      hide Aligned, Wrap, IsNegative, Reserved;
      AllotIsModulo(CellsFor(mem[strbuf]));
      ps := P.Cell(here, P.Cell(mem[strbuf], P.Cell(strbuf + 1, stack)));
      ps := P.Over(ps);
      ok := Allot(Aligned(P.Top(ps) + 7) / 8);
      ps := P.Swap(P.TwoDup(P.Swap(P.Drop(ps))));
      ps := P.Rot(P.Swap(P.Roll(ps, 5)));
    }

    /** The bytes are copied from STRBUF, and the jump is led behind them. */
    method MoveBytes(stack: P.Stack, ghost pos: Word, ghost a: Word, ghost rest: P.Stack) returns (ps: P.Stack)
      requires Valid() && n.org <= pos && pos + 8 == a && a + 8 * CellsFor(mem[strbuf]) == here
      requires stack == MoveArguments(pos, a, mem[strbuf], rest)
      modifies mem
      ensures Valid() && Read(pos) == here && mem[a..a + |old(Collected())|] == old(Collected())
      ensures ps == P.Cell(a, P.Cell(|old(Collected())|, rest))
      ensures forall i :: 0 <= i < mem.Length && !(pos <= i < here) ==> mem[i] == old(mem[i])
    {
      hide CellIn;
      ghost var s := Collected();
      ps := stack;
      CMove(mem, P.Nth(ps, 3), P.Nth(ps, 2), P.Nth(ps, 1));
      assert mem[a..a + |s|] == s;
      ps := P.Drop(P.TwoDrop(ps));
      ps := P.Swap(P.Cell(here, P.Rot(ps)));
      StoreCell(mem, P.Top(ps), P.Nth(ps, 2));
      assert mem[a..a + |s|] == s;
      ps := P.Swap(P.TwoDrop(ps));
    }

    /** LITERAL */
    method Literal(stack: P.Stack, ghost w: Word, ghost rest: P.Stack) returns (ps: P.Stack, ok: bool)
      requires Valid() && stack == P.Cell(w, rest)
      modifies this`here, mem
      ensures Valid() && ok == (old(here) + 16 <= n.limit) && old(here) <= here
      ensures ok ==> here == old(here) + 16 && Read(old(here)) == Cfa(n, Lit) && Read(old(here) + 8) == w && ps == rest
      ensures forall i :: 0 <= i < mem.Length && !(old(here) <= i < here) ==> mem[i] == old(mem[i])
    {
      ps := stack;
      ok := Append(Cfa(n, Lit));
      if !ok {
        return;
      }
      ok := Append(P.Top(ps));
      ps := P.Drop(ps);
    }

    /** The jump, the bytes and the way around them. */
    method CompileSkip(stack: P.Stack) returns (ps: P.Stack, ok: bool)
      requires Valid()
      modifies this`here, mem
      ensures Valid() && old(here) <= here && ok == (old(here) + 16 + 8 * CellsFor(|old(Collected())|) <= n.limit)
      ensures ok ==> here == old(here) + 16 + 8 * CellsFor(|old(Collected())|)
      ensures ok ==> Read(old(here)) == Cfa(n, Jump) && Read(old(here) + 8) == here
      ensures ok ==> mem[old(here) + 16..old(here) + 16 + |old(Collected())|] == old(Collected())
      ensures ok ==> ps == P.Cell(old(here) + 16, P.Cell(|old(Collected())|, stack))
      ensures forall i :: 0 <= i < mem.Length && !(old(here) <= i < here) ==> mem[i] == old(mem[i])
    {
      hide CellIn;
      ps, ok := CompileJump(stack);
      if !ok {
        return;
      }
      ghost var m := mem[..];
      ps, ok := ReserveBytes(ps, old(here) + 8, stack);
      if !ok {
        return;
      }
      assert Collected() == old(Collected());
      ps := MoveBytes(ps, old(here) + 8, old(here) + 16, stack);
      CellFrame(m, mem[..], old(here));
    }

    /** LITERAL LITERAL */
    method CompileLiterals(stack: P.Stack, ghost x: Word, ghost y: Word, ghost rest: P.Stack)
      returns (ps: P.Stack, ok: bool)
      requires Valid() && stack == P.Cell(x, P.Cell(y, rest))
      modifies this`here, mem
      ensures Valid() && ok == (old(here) + 32 <= n.limit) && old(here) <= here
      ensures ok ==> here == old(here) + 32 && ps == rest
      ensures ok ==> Read(old(here)) == Cfa(n, Lit) && Read(old(here) + 8) == x
      ensures ok ==> Read(old(here) + 16) == Cfa(n, Lit) && Read(old(here) + 24) == y
      ensures forall i :: 0 <= i < mem.Length && !(old(here) <= i < here) ==> mem[i] == old(mem[i])
    {
      hide CellIn;
      ps, ok := Literal(stack, x, P.Cell(y, rest));
      if !ok {
        return;
      }
      ghost var m := mem[..];
      ps, ok := Literal(ps, y, rest);
      CellFrame(m, mem[..], old(here));
      CellFrame(m, mem[..], old(here) + 8);
    }

    /** The cells and bytes of the string `s` at `a`. */
    ghost predicate Holds(a: Word, s: seq<Byte>)
      reads mem
    {
      && |s| < 256 && a + 8 * (2 + CellsFor(|s|) + 4) <= mem.Length
      && mem[a + 16..a + 16 + |s|] == s
      && CellsIn(mem[..], a, 2 + CellsFor(|s|) + 4) == Gen(n, Embedded(a, |s|), a)
    }

    /** S" while compiling. */
    method Compile(stack: P.Stack) returns (ps: P.Stack, ok: bool)
      requires Valid()
      modifies this`here, this`input, mem
      ensures Valid() && input == Unread(old(input)) && old(here) <= here
      ensures ok == (old(here) + 8 * (2 + CellsFor(|Quoted(old(input))|) + 4) <= n.limit)
      ensures ok ==> here == old(here) + 8 * (2 + CellsFor(|Quoted(old(input))|) + 4)
      ensures ok ==> ps == stack && Holds(old(here), Quoted(old(input)))
      ensures forall i :: 0 <= i < mem.Length && !(strbuf <= i < strbuf + 256) && !(old(here) <= i < here)
                ==> mem[i] == old(mem[i])
    {
      hide CellIn, Holds, Quoted, Unread;
      Collect();
      ghost var a, s := here, Collected();
      ps, ok := CompileSkip(stack);
      if !ok {
        return;
      }
      ghost var m := mem[..];
      ps, ok := CompileLiterals(ps, a + 16, |s|, stack);
      if ok {
        CellFrame(m, mem[..], a);
        CellFrame(m, mem[..], a + 8);
        assert mem[a + 16..a + 16 + |s|] == m[a + 16..a + 16 + |s|];
        Completed(a, s);
      }
    }

    lemma Completed(a: Word, s: seq<Byte>)
      requires |s| < 256 && a + 8 * (2 + CellsFor(|s|) + 4) <= mem.Length < TWO64
      requires mem[a + 16..a + 16 + |s|] == s
      requires var over := a + 16 + 8 * CellsFor(|s|);
        && Read(a) == Cfa(n, Jump) && Read(a + 8) == over
        && Read(over) == Cfa(n, Lit) && Read(over + 8) == a + 16
        && Read(over + 16) == Cfa(n, Lit) && Read(over + 24) == |s|
      ensures Holds(a, s)
    {
      CodeOfCells(mem[..], n, a, |s|);
    }
  }

  lemma CodeOfCells(m: seq<Byte>, n: Nucleus, a: Word, len: Word)
    requires a + 8 * (2 + CellsFor(len) + 4) <= |m| < TWO64
    requires var over := a + 16 + 8 * CellsFor(len);
      && CellIn(m, a) == Cfa(n, Jump) && CellIn(m, a + 8) == over
      && CellIn(m, over) == Cfa(n, Lit) && CellIn(m, over + 8) == a + 16
      && CellIn(m, over + 16) == Cfa(n, Lit) && CellIn(m, over + 24) == len
    ensures CellsIn(m, a, 2 + CellsFor(len) + 4) == Gen(n, Str(CellsIn(m, a + 16, CellsFor(len)), len), a)
  {
    hide CellIn;
    var k := CellsFor(len);
    var data := CellsIn(m, a + 16, k);
    var code := Gen(n, Str(data, len), a);
    var cells := CellsIn(m, a, 2 + k + 4);
    forall i | 0 <= i < 2 + k + 4
      ensures cells[i] == code[i]
    {
      if 2 <= i < 2 + k {
        assert code[i] == data[i - 2] == CellIn(m, a + 16 + 8 * (i - 2));
        assert a + 16 + 8 * (i - 2) == a + 8 * i;
      }
    }
  }

  /**
   * The text in front of the quote is the string, cut at 255 bytes, with or without one space in front of it, and what
   * follows the quote is left.
   */
  lemma QuotedText(b: Byte, text: seq<Byte>, rest: seq<Byte>)
    requires b == 0 || b == 9 || b == 10 || b == 13 || b == 32
    requires forall i :: 0 <= i < |text| ==> text[i] != 34
    ensures var s := [b] + text + [34] + rest;
      Quoted(s) == (if |text| <= 255 then text else text[..255]) && Unread(s) == rest
    ensures text != [] && text[0] !in {0, 9, 10, 13, 32} ==>
      var s := text + [34] + rest; Quoted(s) == (if |text| <= 255 then text else text[..255]) && Unread(s) == rest
  {
    hide ToQuote;
    var s, t := [b] + text + [34] + rest, text + [34] + rest;
    assert s[1..] == t;
    QuoteAt(text, rest);
    assert t[..|text|] == text && t[|text| + 1..] == rest;
    assert |text| > 255 ==> t[..255] == text[..255];
    assert text != [] ==> t[0] == text[0];
  }

  lemma {:induction false} QuoteAt(text: seq<Byte>, rest: seq<Byte>)
    requires forall i :: 0 <= i < |text| ==> text[i] != 34
    ensures ToQuote(text + [34] + rest) == |text|
  {
    if text != [] {
      assert (text + [34] + rest)[1..] == text[1..] + [34] + rest;
      QuoteAt(text[1..], rest);
    }
  }

  /** The operands in the code of a string. */
  lemma StringCells(n: Nucleus, c: map<Word, Word>, a: Word, data: seq<Word>, len: Word)
    requires CodeAt(c, a, Gen(n, Str(data, len), a))
    ensures var over := a + 8 * (2 + |data|);
      && a in c && c[a] == Cfa(n, Jump) && a + 8 in c && c[a + 8] == over
      && over in c && c[over] == Cfa(n, Lit) && over + 8 in c && c[over + 8] == a + 16
      && over + 16 in c && c[over + 16] == Cfa(n, Lit) && over + 24 in c && c[over + 24] == len
  {
    hide CodeAt, Cfa;
    var jump, push := [Cfa(n, Jump), a + 8 * (2 + |data|)], [Cfa(n, Lit), a + 16, Cfa(n, Lit), len];
    assert Gen(n, Str(data, len), a) == jump + data + push;
    CodeAtParts(c, a, jump + data, push);
    CodeAtParts(c, a, jump, data);
    CodeCell(c, a, jump, 0);
    CodeCell(c, a, jump, 1);
    var over := a + 8 * (2 + |data|);
    CodeCell(c, over, push, 0);
    CodeCell(c, over, push, 1);
    CodeCell(c, over, push, 2);
    CodeCell(c, over, push, 3);
  }

  /** The emitted cells skip the bytes and push where they are and how many: three steps, none inside the data. */
  lemma StringRun(n: Nucleus, s: State, data: seq<Word>, len: Word)
    requires s.Go? && Loaded(n, s.m.cell) && |s.ps| + 2 <= n.pcap
    requires s.wp + 8 * (2 + |data| + 4) < TWO64
    requires CodeAt(s.m.cell, s.wp, Gen(n, Str(data, len), s.wp))
    ensures var a, over := s.wp, s.wp + 8 * (2 + |data|);
      && Step(n, s) == s.(wp := over)
      && Run(n, s, 2) == s.(wp := over + 16, ps := [a + 16] + s.ps)
      && Run(n, s, 3) == s.(wp := over + 32, ps := [len, a + 16] + s.ps)
  {
    hide Step, Run, CodeAt, Loaded, Gen, Cfa;
    var a, over := s.wp, s.wp + 8 * (2 + |data|);
    StringCells(n, s.m.cell, a, data, len);
    var s1 := s.(wp := over);
    var s2 := s1.(wp := over + 16, ps := [a + 16] + s.ps);
    JumpOnce(n, s, over);
    LitOnce(n, s1, a + 16);
    LitOnce(n, s2, len);
    assert [len] + ([a + 16] + s.ps) == [len, a + 16] + s.ps;
    Steps(n, s);
  }

  lemma JumpOnce(n: Nucleus, s: State, target: Word)
    requires s.Go? && Loaded(n, s.m.cell) && s.wp + 16 < TWO64
    requires s.wp in s.m.cell && s.m.cell[s.wp] == Cfa(n, Jump)
    requires s.wp + 8 in s.m.cell && s.m.cell[s.wp + 8] == target
    ensures Step(n, s) == s.(wp := target)
  {
    Simulation.RoutineStep(n, s, Jump);
  }

  lemma LitOnce(n: Nucleus, s: State, w: Word)
    requires s.Go? && Loaded(n, s.m.cell) && s.wp + 16 < TWO64 && |s.ps| < n.pcap
    requires s.wp in s.m.cell && s.m.cell[s.wp] == Cfa(n, Lit)
    requires s.wp + 8 in s.m.cell && s.m.cell[s.wp + 8] == w
    ensures Step(n, s) == s.(wp := s.wp + 16, ps := [w] + s.ps)
  {
    Simulation.RoutineStep(n, s, Lit);
  }

  lemma CodeCell(c: map<Word, Word>, a: Word, code: seq<int>, i: nat)
    requires CodeAt(c, a, code) && i < |code|
    ensures a + 8 * i in c && c[a + 8 * i] == code[i]
  {}

  lemma Steps(n: Nucleus, s: State)
    ensures Run(n, s, 2) == Step(n, Step(n, s)) && Run(n, s, 3) == Step(n, Step(n, Step(n, s)))
  {
    hide Step;
    assert Run(n, s, 2) == Run(n, Step(n, s), 1);
    assert Run(n, s, 3) == Run(n, Step(n, s), 2);
    assert Run(n, Step(n, s), 2) == Run(n, Step(n, Step(n, s)), 1);
  }
}
