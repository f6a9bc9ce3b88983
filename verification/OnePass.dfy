/**
 * The one-pass compiler: each word appends its cells at HERE and keeps the operands still to be filled on the
 * return stack.
 */
module OnePass {
  import opened Words
  import opened Machine
  import opened ControlFlow
  import opened Sequences

  datatype Token =
    | Number(w: Word) | Prime(p: Prim) | Native(op: Op) | Colon(cfa: Word) | Text(data: seq<Word>, len: Word)
    | IF | UNLESS | ELSE | THEN | BEGIN | AGAIN | UNTIL | WHILE | REPEAT

  /** The text of a program: the properly nested token sequences are exactly these. */
  function Tokens(p: Prog): seq<Token> {
    match p
    case Skip => []
    case Seq(p, q) => Tokens(p) + Tokens(q)
    case Literal(w) => [Number(w)]
    case Primitive(p) => [Prime(p)]
    case Access(op) => [Native(op)]
    case Call(cfa) => [Colon(cfa)]
    case Str(data, len) => [Text(data, len)]
    case If(unless, thn) => [if unless then UNLESS else IF] + Tokens(thn) + [THEN]
    case IfElse(unless, thn, els) => [if unless then UNLESS else IF] + Tokens(thn) + [ELSE] + Tokens(els) + [THEN]
    case Until(body) => [BEGIN] + Tokens(body) + [UNTIL]
    case Again(body) => [BEGIN] + Tokens(body) + [AGAIN]
    case While(cond, body) => [BEGIN] + Tokens(cond) + [WHILE] + Tokens(body) + [REPEAT]
  }

  /**
   * The dictionary cells compiled so far, the return stack, and a log of the 0 operands emitted and of the
   * operands filled in.
   */
  datatype Compiling =
    | Open(code: seq<Word>, rs: seq<Word>, holes: seq<Word>, filled: seq<Word>)
    | Halted(why: Fault)

  /** Where the dictionary starts and ends. */
  datatype Space = Space(org: Word, limit: Word)

  function HereOf(d: Space, s: Compiling): int
    requires s.Open?
  {
    d.org + 8 * |s.code|
  }

  ghost predicate InSpace(d: Space, s: Compiling) {
    s.Open? ==> HereOf(d, s) <= d.limit
  }

  /** Append cells, after the check that they fit. */
  function Emit(d: Space, ws: seq<Word>, s: Compiling): (t: Compiling)
    requires InSpace(d, s)
    ensures InSpace(d, t)
  {
    if s.Halted? then s
    else if HereOf(d, s) + 8 * |ws| > d.limit then Halted(SpaceOverflow)
    else s.(code := s.code + ws)
  }

  function PushReturn(n: Nucleus, w: Word, s: Compiling): Compiling {
    if s.Halted? then s
    else if |s.rs| >= n.rcap then Halted(ReturnOverflow)
    else s.(rs := [w] + s.rs)
  }

  /** Store `v` through the address `a`, which a well nested text makes an operand compiled before. */
  function Fill(d: Space, a: Word, v: Word, s: Compiling): (t: Compiling)
    requires InSpace(d, s)
    ensures InSpace(d, t)
    ensures t.Open? ==> s.Open? && |t.code| == |s.code| && t.rs == s.rs && t.holes == s.holes
  {
    if s.Halted? then s
    else if d.org <= a < HereOf(d, s) && (a - d.org) % 8 == 0
    then s.(code := s.code[(a - d.org) / 8 := v], filled := s.filled + [a])
    else Halted(Wild)
  }

  function LogHole(a: Word, s: Compiling): Compiling {
    if s.Halted? then s else s.(holes := s.holes + [a])
  }

  /** The test words leave the address of their 0 operand on the return stack. */
  function OpenTest(n: Nucleus, d: Space, test: Word, s: Compiling): (t: Compiling)
    requires InSpace(d, s)
    ensures InSpace(d, t)
  {
    var e := Emit(d, [test, Cfa(n, CondJump), 0], s);
    if e.Halted? then e
    else
      var hole := HereOf(d, e) - 8;
      PushReturn(n, hole, LogHole(hole, e))
  }

  function TokenStep(n: Nucleus, d: Space, tok: Token, s: Compiling): (t: Compiling)
    requires InSpace(d, s)
    ensures InSpace(d, t)
  {
    if s.Halted? then s
    else match tok
      case Number(w) => Emit(d, [Cfa(n, Lit), w], s)
      case Prime(p) => Emit(d, [Cfa(n, Pure(p))], s)
      case Native(op) => Emit(d, [Cfa(n, op)], s)
      case Colon(cfa) => Emit(d, [cfa], s)
      case Text(data, len) =>
        var e := Emit(d, [Cfa(n, Jump), 0] + data, s);
        if e.Halted? then e
        else
          var start := HereOf(d, s);
          Emit(d, [Cfa(n, Lit), start + 16, Cfa(n, Lit), len],
               Fill(d, start + 8, HereOf(d, e), LogHole(start + 8, e)))
      case IF => OpenTest(n, d, n.isFalse, s)
      case UNLESS => OpenTest(n, d, n.isTrue, s)
      case ELSE =>
        var e := Emit(d, [Cfa(n, Jump), 0], s);
        if e.Halted? then e
        else if |s.rs| < 1 then Halted(ReturnUnderflow)
        else
          var hole := HereOf(d, e) - 8;
          var f := Fill(d, s.rs[0], HereOf(d, e), LogHole(hole, e));
          if f.Halted? then f else f.(rs := [hole] + s.rs[1..])
      case THEN =>
        if |s.rs| < 1 then Halted(ReturnUnderflow)
        else Fill(d, s.rs[0], HereOf(d, s), s.(rs := s.rs[1..]))
      case BEGIN => PushReturn(n, HereOf(d, s), s)
      case AGAIN =>
        if |s.rs| < 1 then Halted(ReturnUnderflow)
        else Emit(d, [Cfa(n, Jump), s.rs[0]], s.(rs := s.rs[1..]))
      case UNTIL =>
        if |s.rs| < 1 then Halted(ReturnUnderflow)
        else Emit(d, [n.isFalse, Cfa(n, CondJump), s.rs[0]], s.(rs := s.rs[1..]))
      case WHILE =>
        if |s.rs| >= n.rcap then Halted(ReturnOverflow) else OpenTest(n, d, n.isFalse, s)
      case REPEAT =>
        if |s.rs| < 1 then Halted(ReturnUnderflow)
        else if HereOf(d, s) + 16 > d.limit then Halted(SpaceOverflow)
        else if |s.rs| < 2 then Halted(Wild)  // the second cell is read without a check
        else
          var e := Emit(d, [Cfa(n, Jump), s.rs[1]], s);
          Fill(d, s.rs[0], HereOf(d, e), e.(rs := s.rs[2..]))
  }

  function CompileTokens(n: Nucleus, d: Space, ts: seq<Token>, s: Compiling): (t: Compiling)
    requires InSpace(d, s)
    ensures InSpace(d, t)
  {
    if ts == [] then s else CompileTokens(n, d, ts[1..], TokenStep(n, d, ts[0], s))
  }

  lemma {:induction false} CompileParts(n: Nucleus, d: Space, x: seq<Token>, y: seq<Token>, s: Compiling)
    requires InSpace(d, s)
    ensures CompileTokens(n, d, x + y, s) == CompileTokens(n, d, y, CompileTokens(n, d, x, s))
    decreases |x|
  {
    hide TokenStep;
    if x == [] {
      assert x + y == y;
    } else {
      assert (x + y)[1..] == x[1..] + y;
      CompileParts(n, d, x[1..], y, TokenStep(n, d, x[0], s));
    }
  }

  lemma CompileOne(n: Nucleus, d: Space, tok: Token, s: Compiling)
    requires InSpace(d, s)
    ensures CompileTokens(n, d, [tok], s) == TokenStep(n, d, tok, s)
  {
    hide TokenStep;
    assert [tok][1..] == [];
  }

  /** Return cells in use at the deepest nesting. */
  function Depth(p: Prog): nat {
    match p
    case Seq(p, q) => Max(Depth(p), Depth(q))
    case If(_, thn) => 1 + Depth(thn)
    case IfElse(_, thn, els) => 1 + Max(Depth(thn), Depth(els))
    case Until(body) => 1 + Depth(body)
    case Again(body) => 1 + Depth(body)
    case While(cond, body) => Max(1 + Depth(cond), 2 + Depth(body))
    case _ => 0
  }

  function Max(a: nat, b: nat): nat {
    if a < b then b else a
  }

  /** The addresses of the operands first compiled as 0, in the order they are emitted. */
  function Holes(p: Prog, a: int): seq<int> {
    match p
    case Seq(p, q) => Holes(p, a) + Holes(q, a + 8 * Size(p))
    case Str(_, _) => [a + 8]
    case If(_, thn) => [a + 16] + Holes(thn, a + 24)
    case IfElse(_, thn, els) =>
      [a + 16] + Holes(thn, a + 24) + [a + 8 * (3 + Size(thn) + 1)] + Holes(els, a + 8 * (3 + Size(thn) + 2))
    case Until(body) => Holes(body, a)
    case Again(body) => Holes(body, a)
    case While(cond, body) =>
      Holes(cond, a) + [a + 8 * (Size(cond) + 2)] + Holes(body, a + 8 * (Size(cond) + 3))
    case _ => []
  }

  /** The same addresses in the order they are filled. */
  function Fills(p: Prog, a: int): seq<int> {
    match p
    case Seq(p, q) => Fills(p, a) + Fills(q, a + 8 * Size(p))
    case Str(_, _) => [a + 8]
    case If(_, thn) => Fills(thn, a + 24) + [a + 16]
    case IfElse(_, thn, els) =>
      Fills(thn, a + 24) + [a + 16] + Fills(els, a + 8 * (3 + Size(thn) + 2)) + [a + 8 * (3 + Size(thn) + 1)]
    case Until(body) => Fills(body, a)
    case Again(body) => Fills(body, a)
    case While(cond, body) =>
      Fills(cond, a) + Fills(body, a + 8 * (Size(cond) + 3)) + [a + 8 * (Size(cond) + 2)]
    case _ => []
  }

  predicate Room(n: Nucleus, d: Space, p: Prog, s: Compiling)
    requires s.Open?
  {
    HereOf(d, s) + 8 * Size(p) <= d.limit && |s.rs| + Depth(p) <= n.rcap
  }

  /** `t` is `s` with the code of `p` appended, nothing else changed and the return stack as before. */
  ghost predicate Extends(n: Nucleus, d: Space, p: Prog, s: Compiling, t: Compiling)
    requires s.Open?
  {
    var a := HereOf(d, s);
    && t.Open?
    && t.code == s.code + Gen(n, p, a)
    && t.rs == s.rs
    && t.holes == s.holes + Holes(p, a)
    && t.filled == s.filled + Fills(p, a)
  }

  /** A state between tokens: everything compiled lies in the dictionary, and the return stack is within bounds. */
  ghost predicate Good(n: Nucleus, d: Space, s: Compiling) {
    s.Open? && InSpace(d, s) && |s.rs| <= n.rcap
  }

  ghost predicate Exact(n: Nucleus, d: Space, p: Prog, s: Compiling)
    requires Good(n, d, s)
  {
    var t := CompileTokens(n, d, Tokens(p), s);
    (Room(n, d, p, s) ==> Extends(n, d, p, s, t)) && (!Room(n, d, p, s) ==> t.Halted?)
  }

  lemma {:induction false} HaltedStays(n: Nucleus, d: Space, ts: seq<Token>, s: Compiling)
    requires s.Halted?
    ensures CompileTokens(n, d, ts, s) == s
  {
    if ts != [] {
      HaltedStays(n, d, ts[1..], s);
    }
  }

  /** Filling the operand that lies `|x|` cells into the code. */
  lemma FillMiddle(d: Space, x: seq<Word>, was: Word, y: seq<Word>, v: Word, s: Compiling)
    requires s.Open? && InSpace(d, s) && s.code == x + [was] + y
    ensures d.org + 8 * |x| < TWO64
    ensures Fill(d, d.org + 8 * |x|, v, s)
         == s.(code := x + [v] + y, filled := s.filled + [d.org + 8 * |x|])
  {
    assert (x + [was] + y)[|x| := v] == x + [v] + y;
  }

  /** A bracketed text: opening word, middle, closing word. */
  lemma CompileBracket(n: Nucleus, d: Space, open: Token, mid: seq<Token>, close: Token, s: Compiling)
    requires InSpace(d, s)
    ensures CompileTokens(n, d, [open] + mid + [close], s)
         == TokenStep(n, d, close, CompileTokens(n, d, mid, TokenStep(n, d, open, s)))
  {
    hide TokenStep;
    CompileParts(n, d, [open] + mid, [close], s);
    CompileParts(n, d, [open], mid, s);
    CompileOne(n, d, open, s);
    CompileOne(n, d, close, CompileTokens(n, d, mid, TokenStep(n, d, open, s)));
  }

  /**
   * Back-patching refines the two-pass layout: on every properly nested text the one-pass compiler appends, cell for
   * cell, the code of the generator that knows all sizes; it succeeds exactly when code and nesting find room.
   */
  lemma {:induction false} OnePassIsLayout(n: Nucleus, d: Space, p: Prog, s: Compiling)
    requires Good(n, d, s)
    ensures Exact(n, d, p, s)
    decreases p, 1
  {
    hide TokenStep;
    match p
    case Skip =>
    case Seq(_, _) => SeqLayout(n, d, p, s);
    case Literal(w) => SimpleLayout(n, d, p, s);
    case Primitive(op) => SimpleLayout(n, d, p, s);
    case Access(_) => SimpleLayout(n, d, p, s);
    case Call(cfa) => SimpleLayout(n, d, p, s);
    case Str(data, len) => StrLayout(n, d, p, s);
    case If(_, _) => IfLayout(n, d, p, s);
    case IfElse(_, _, _) => IfElseLayout(n, d, p, s);
    case Until(_) => LoopLayout(n, d, p, s);
    case Again(_) => LoopLayout(n, d, p, s);
    case While(_, _) => WhileLayout(n, d, p, s);
  }

  lemma SeqTail(n: Nucleus, d: Space, p: Prog, s: Compiling, t: Compiling, u: Compiling)
    requires p.Seq? && s.Open? && Extends(n, d, p.first, s, t) && Extends(n, d, p.second, t, u)
    ensures Extends(n, d, p, s, u)
  {
    var a, b := HereOf(d, s), HereOf(d, t);
    Assoc(s.code, Gen(n, p.first, a), Gen(n, p.second, b));
    Assoc(s.holes, Holes(p.first, a), Holes(p.second, b));
    Assoc(s.filled, Fills(p.first, a), Fills(p.second, b));
  }

  lemma {:induction false} SeqLayout(n: Nucleus, d: Space, p: Prog, s: Compiling)
    requires p.Seq? && Good(n, d, s)
    ensures Exact(n, d, p, s)
    decreases p, 0
  {
    hide TokenStep, CompileTokens, Gen, Holes, Fills;
    var t := CompileTokens(n, d, Tokens(p.first), s);
    var u := CompileTokens(n, d, Tokens(p.second), t);
    CompileParts(n, d, Tokens(p.first), Tokens(p.second), s);
    OnePassIsLayout(n, d, p.first, s);
    if t.Halted? {
      HaltedStays(n, d, Tokens(p.second), t);
    } else {
      OnePassIsLayout(n, d, p.second, t);
      if u.Open? {
        SeqTail(n, d, p, s, t, u);
      }
    }
  }

  lemma SimpleLayout(n: Nucleus, d: Space, p: Prog, s: Compiling)
    requires p.Literal? || p.Primitive? || p.Access? || p.Call?
    requires Good(n, d, s)
    ensures Exact(n, d, p, s)
  {
    CompileOne(n, d, Tokens(p)[0], s);
  }

  lemma StrLayout(n: Nucleus, d: Space, p: Prog, s: Compiling)
    requires p.Str? && Good(n, d, s)
    ensures Exact(n, d, p, s)
  {
    CompileOne(n, d, Text(p.data, p.len), s);
    if HereOf(d, s) + 8 * (2 + |p.data|) <= d.limit {
      StrStep(n, d, p.data, p.len, s);
      StrCode(n, p, HereOf(d, s), s.code);
    }
  }

  /** A string first lays its jump and its data, then fills the jump, then lays the two literals. */
  lemma StrStep(n: Nucleus, d: Space, data: seq<Word>, len: Word, s: Compiling)
    requires Good(n, d, s) && HereOf(d, s) + 8 * (2 + |data|) <= d.limit
    ensures var a, over := HereOf(d, s), HereOf(d, s) + 8 * (2 + |data|);
            TokenStep(n, d, Text(data, len), s)
            == if over + 32 > d.limit then Halted(SpaceOverflow)
               else Open(s.code + [Cfa(n, Jump)] + [over] + data + [Cfa(n, Lit), a + 16, Cfa(n, Lit), len], s.rs,
                         s.holes + [a + 8], s.filled + [a + 8])
  {
    var e := Emit(d, [Cfa(n, Jump), 0] + data, s);
    assert e.code == s.code + [Cfa(n, Jump)] + [0] + data;
    FillMiddle(d, s.code + [Cfa(n, Jump)], 0, data, HereOf(d, e), LogHole(HereOf(d, s) + 8, e));
  }

  lemma StrCode(n: Nucleus, p: Prog, a: int, code: seq<int>)
    requires p.Str?
    ensures code + Gen(n, p, a)
         == code + [Cfa(n, Jump)] + [a + 8 * (2 + |p.data|)] + p.data + [Cfa(n, Lit), a + 16, Cfa(n, Lit), p.len]
  {
  }

  /** IF, UNLESS and WHILE append a test and leave the address of its operand on the return stack. */
  lemma OpenStep(n: Nucleus, d: Space, tok: Token, s: Compiling)
    requires Good(n, d, s) && (tok.IF? || tok.UNLESS? || tok.WHILE?)
    ensures TokenStep(n, d, tok, s)
         == if HereOf(d, s) + 24 > d.limit || |s.rs| >= n.rcap then TokenStep(n, d, tok, s)
            else Open(s.code + [TestWord(n, tok.UNLESS?), Cfa(n, CondJump), 0], [HereOf(d, s) + 16] + s.rs,
                      s.holes + [HereOf(d, s) + 16], s.filled)
    ensures TokenStep(n, d, tok, s).Halted? <==> HereOf(d, s) + 24 > d.limit || |s.rs| >= n.rcap
  {
  }

  lemma BeginStep(n: Nucleus, d: Space, s: Compiling)
    requires Good(n, d, s)
    ensures TokenStep(n, d, BEGIN, s)
         == if |s.rs| >= n.rcap then Halted(ReturnOverflow) else s.(rs := [HereOf(d, s)] + s.rs)
  {
  }

  /** AGAIN and UNTIL jump back to the address that BEGIN left. */
  lemma CloseStep(n: Nucleus, d: Space, tok: Token, start: Word, rest: seq<Word>, s: Compiling)
    requires Good(n, d, s) && (tok.AGAIN? || tok.UNTIL?) && s.rs == [start] + rest
    ensures TokenStep(n, d, tok, s)
         == var jump := if tok.AGAIN? then [Cfa(n, Jump), start] else [n.isFalse, Cfa(n, CondJump), start];
            if HereOf(d, s) + 8 * |jump| > d.limit then Halted(SpaceOverflow)
            else s.(code := s.code + jump, rs := rest)
  {
    assert s.rs[1..] == rest;
  }

  /** THEN fills the operand it finds on the return stack with HERE. */
  lemma ThenStep(n: Nucleus, d: Space, x: seq<Word>, y: seq<Word>, rest: seq<Word>, s: Compiling)
    requires s.Open? && InSpace(d, s) && s.code == x + [0] + y && d.org + 8 * |x| < TWO64
    requires s.rs == [d.org + 8 * |x|] + rest
    ensures TokenStep(n, d, THEN, s)
         == Open(x + [HereOf(d, s)] + y, rest, s.holes, s.filled + [d.org + 8 * |x|])
  {
    assert s.rs[1..] == rest;
    FillMiddle(d, x, 0, y, HereOf(d, s), s.(rs := rest));
  }

  /** ELSE closes the guarded part with a jump to be filled, and fills the operand of the test. */
  lemma ElseStep(n: Nucleus, d: Space, x: seq<Word>, y: seq<Word>, rest: seq<Word>, s: Compiling)
    requires s.Open? && InSpace(d, s) && s.code == x + [0] + y && d.org + 8 * |x| < TWO64
    requires s.rs == [d.org + 8 * |x|] + rest
    ensures TokenStep(n, d, ELSE, s)
         == if HereOf(d, s) + 16 > d.limit then Halted(SpaceOverflow)
            else Open(x + [HereOf(d, s) + 16] + (y + [Cfa(n, Jump), 0]), [HereOf(d, s) + 8] + rest,
                      s.holes + [HereOf(d, s) + 8], s.filled + [d.org + 8 * |x|])
  {
    var e := Emit(d, [Cfa(n, Jump), 0], s);
    assert s.rs[1..] == rest;
    if e.Open? {
      assert s.code + [Cfa(n, Jump), 0] == x + [0] + (y + [Cfa(n, Jump), 0]);
      FillMiddle(d, x, 0, y + [Cfa(n, Jump), 0], HereOf(d, e), LogHole(HereOf(d, e) - 8, e));
    }
  }

  /** REPEAT jumps back to the start of the loop and fills the operand of WHILE with the address behind it. */
  lemma RepeatStep(n: Nucleus, d: Space, x: seq<Word>, y: seq<Word>, start: Word, rest: seq<Word>, s: Compiling)
    requires s.Open? && InSpace(d, s) && s.code == x + [0] + y && d.org + 8 * |x| < TWO64
    requires s.rs == [d.org + 8 * |x|, start] + rest
    ensures TokenStep(n, d, REPEAT, s)
         == if HereOf(d, s) + 16 > d.limit then Halted(SpaceOverflow)
            else Open(x + [HereOf(d, s) + 16] + (y + [Cfa(n, Jump), start]), rest, s.holes,
                      s.filled + [d.org + 8 * |x|])
  {
    var e := Emit(d, [Cfa(n, Jump), start], s);
    assert s.rs[2..] == rest;
    if e.Open? {
      assert s.code + [Cfa(n, Jump), start] == x + [0] + (y + [Cfa(n, Jump), start]);
      FillMiddle(d, x, 0, y + [Cfa(n, Jump), start], HereOf(d, e), e.(rs := rest));
    }
  }

  /** The state in which the test of `p` and then its guarded part have been compiled. */
  ghost predicate Guarded(n: Nucleus, d: Space, p: Prog, s: Compiling, t: Compiling)
    requires s.Open? && (p.If? || p.IfElse?)
  {
    var a := HereOf(d, s);
    && t.Open? && InSpace(d, t)
    && t.code == s.code + [TestWord(n, p.unless), Cfa(n, CondJump), 0] + Gen(n, p.thn, a + 24)
    && t.rs == [a + 16] + s.rs
    && t.holes == s.holes + [a + 16] + Holes(p.thn, a + 24)
    && t.filled == s.filled + Fills(p.thn, a + 24)
  }

  lemma IfCode(n: Nucleus, p: Prog, a: int, code: seq<int>)
    requires p.If?
    ensures code + Gen(n, p, a)
         == code + [TestWord(n, p.unless), Cfa(n, CondJump)] + [a + 8 * Size(p)] + Gen(n, p.thn, a + 24)
  {
    hide Cfa, TestWord;
  }

  lemma IfTail(n: Nucleus, d: Space, p: Prog, s: Compiling, t: Compiling)
    requires p.If? && s.Open? && Guarded(n, d, p, s, t)
    ensures Extends(n, d, p, s, TokenStep(n, d, THEN, t))
  {
    hide TokenStep, Gen, Cfa, TestWord;
    var a := HereOf(d, s);
    var x, y := s.code + [TestWord(n, p.unless), Cfa(n, CondJump)], t.code[|s.code| + 3..];
    assert t.code == x + [0] + y;
    ThenStep(n, d, x, y, s.rs, t);
    IfCode(n, p, a, s.code);
    Assoc(s.holes, [a + 16], Holes(p.thn, a + 24));
    Assoc(s.filled, Fills(p.thn, a + 24), [a + 16]);
  }

  lemma {:induction false} IfLayout(n: Nucleus, d: Space, p: Prog, s: Compiling)
    requires p.If? && Good(n, d, s)
    ensures Exact(n, d, p, s)
    decreases p, 0
  {
    hide TokenStep, CompileTokens;
    var open := if p.unless then UNLESS else IF;
    var s1 := TokenStep(n, d, open, s);
    var s2 := CompileTokens(n, d, Tokens(p.thn), s1);
    CompileBracket(n, d, open, Tokens(p.thn), THEN, s);
    OpenStep(n, d, open, s);
    if s1.Halted? {
      HaltedStays(n, d, Tokens(p.thn), s1);
    } else {
      OnePassIsLayout(n, d, p.thn, s1);
    }
    if s2.Halted? {
      HaltedStep(n, d, THEN, s2);
    } else {
      IfTail(n, d, p, s, s2);
    }
  }

  lemma HaltedStep(n: Nucleus, d: Space, tok: Token, s: Compiling)
    requires s.Halted?
    ensures TokenStep(n, d, tok, s) == s
  {
  }

  /** The state in which `p` is compiled up to and including ELSE. */
  ghost predicate Turned(n: Nucleus, d: Space, p: Prog, s: Compiling, t: Compiling)
    requires s.Open? && p.IfElse?
  {
    var a, hole := HereOf(d, s), HereOf(d, s) + 8 * (3 + Size(p.thn) + 1);
    && t.Open? && InSpace(d, t)
    && t.code == s.code + Test(n, p.unless, hole + 8) + Gen(n, p.thn, a + 24) + [Cfa(n, Jump), 0]
    && t.rs == [hole] + s.rs
    && t.holes == s.holes + [a + 16] + Holes(p.thn, a + 24) + [hole]
    && t.filled == s.filled + (Fills(p.thn, a + 24) + [a + 16])
  }

  lemma ElseTail(n: Nucleus, d: Space, p: Prog, s: Compiling, t: Compiling)
    requires p.IfElse? && s.Open? && Guarded(n, d, p, s, t)
    ensures if HereOf(d, t) + 16 > d.limit then TokenStep(n, d, ELSE, t).Halted?
            else Turned(n, d, p, s, TokenStep(n, d, ELSE, t))
  {
    hide TokenStep, Gen, Holes, Fills;
    var a := HereOf(d, s);
    var x, y := s.code + [TestWord(n, p.unless), Cfa(n, CondJump)], t.code[|s.code| + 3..];
    assert t.code == x + [0] + y;
    ElseStep(n, d, x, y, s.rs, t);
    assert x + [HereOf(d, t) + 16] + (y + [Cfa(n, Jump), 0])
        == s.code + Test(n, p.unless, HereOf(d, t) + 16) + Gen(n, p.thn, a + 24) + [Cfa(n, Jump), 0];
    Assoc(s.filled, Fills(p.thn, a + 24), [a + 16]);
  }

  lemma IfElseTail(n: Nucleus, d: Space, p: Prog, s: Compiling, t: Compiling, u: Compiling)
    requires p.IfElse? && s.Open? && Turned(n, d, p, s, t) && Extends(n, d, p.els, t, u) && InSpace(d, u)
    ensures Extends(n, d, p, s, TokenStep(n, d, THEN, u))
  {
    hide TokenStep, Holes, Fills, Gen, Test;
    var a, hole := HereOf(d, s), HereOf(d, s) + 8 * (3 + Size(p.thn) + 1);
    var x, y := t.code[..|t.code| - 1], u.code[|t.code|..];
    IfElseEnds(n, d, p, s, t, u);
    ThenStep(n, d, x, y, s.rs, u);
    IfElseLogs(p, a, s.holes, s.filled);
  }

  /** The code once the operand of ELSE's jump is filled. */
  lemma IfElseEnds(n: Nucleus, d: Space, p: Prog, s: Compiling, t: Compiling, u: Compiling)
    requires p.IfElse? && s.Open? && Turned(n, d, p, s, t) && Extends(n, d, p.els, t, u) && InSpace(d, u)
    ensures var x, y := t.code[..|t.code| - 1], u.code[|t.code|..];
      && u.code == x + [0] + y
      && d.org + 8 * |x| == HereOf(d, s) + 8 * (3 + Size(p.thn) + 1)
      && x + [HereOf(d, u)] + y == s.code + Gen(n, p, HereOf(d, s))
  {
    hide Gen, Test, Holes, Fills;
    var a, hole := HereOf(d, s), HereOf(d, s) + 8 * (3 + Size(p.thn) + 1);
    var front := s.code + Test(n, p.unless, hole + 8) + Gen(n, p.thn, a + 24);
    var y := u.code[|t.code|..];
    LastHole(front, Cfa(n, Jump), t.code);
    TestLength(n, p.unless, hole + 8);
    Joined(t.code, Gen(n, p.els, hole + 8), u.code);
    IfElseCode(n, p, a, s.code);
  }

  lemma Joined(x: seq<int>, y: seq<int>, all: seq<int>)
    requires all == x + y
    ensures all[|x|..] == y
  {
  }

  lemma LastHole(front: seq<int>, j: int, code: seq<int>)
    requires code == front + [j, 0]
    ensures code[..|code| - 1] == front + [j] && code[..|code| - 1] + [0] == code
  {
  }

  lemma IfElseCode(n: Nucleus, p: Prog, a: int, code: seq<int>)
    requires p.IfElse?
    ensures var elseAt := a + 8 * (3 + Size(p.thn) + 2);
            code + Gen(n, p, a)
            == code + Test(n, p.unless, elseAt) + Gen(n, p.thn, a + 24) + [Cfa(n, Jump)] + [a + 8 * Size(p)]
               + Gen(n, p.els, elseAt)
  {
  }

  lemma IfElseLogs(p: Prog, a: int, holes: seq<int>, filled: seq<int>)
    requires p.IfElse?
    ensures var hole := a + 8 * (3 + Size(p.thn) + 1);
            && holes + Holes(p, a) == holes + [a + 16] + Holes(p.thn, a + 24) + [hole] + Holes(p.els, hole + 8)
            && filled + Fills(p, a)
               == filled + (Fills(p.thn, a + 24) + [a + 16]) + Fills(p.els, hole + 8) + [hole]
  {
  }

  lemma {:induction false} IfElseLayout(n: Nucleus, d: Space, p: Prog, s: Compiling)
    requires p.IfElse? && Good(n, d, s)
    ensures Exact(n, d, p, s)
    decreases p, 0
  {
    hide TokenStep, CompileTokens;
    var open, thn, els := if p.unless then UNLESS else IF, Tokens(p.thn), Tokens(p.els);
    var s1 := TokenStep(n, d, open, s);
    var s2 := CompileTokens(n, d, thn, s1);
    var s3 := TokenStep(n, d, ELSE, s2);
    var s4 := CompileTokens(n, d, els, s3);
    CompileElse(n, d, open, thn, ELSE, els, THEN, s);
    OpenStep(n, d, open, s);
    if s1.Halted? {
      HaltedStays(n, d, thn, s1);
    } else {
      OnePassIsLayout(n, d, p.thn, s1);
    }
    if s2.Halted? {
      HaltedStep(n, d, ELSE, s2);
    } else {
      ElseTail(n, d, p, s, s2);
    }
    if s3.Halted? {
      HaltedStays(n, d, els, s3);
    } else {
      OnePassIsLayout(n, d, p.els, s3);
    }
    if s4.Halted? {
      HaltedStep(n, d, THEN, s4);
    } else {
      IfElseTail(n, d, p, s, s3, s4);
    }
  }

  /** A bracketed text with a turning point. */
  lemma CompileElse(n: Nucleus, d: Space, open: Token, x: seq<Token>, turn: Token, y: seq<Token>, close: Token,
                    s: Compiling)
    requires InSpace(d, s)
    ensures var front := CompileTokens(n, d, x, TokenStep(n, d, open, s));
            CompileTokens(n, d, [open] + x + [turn] + y + [close], s)
            == TokenStep(n, d, close, CompileTokens(n, d, y, TokenStep(n, d, turn, front)))
  {
    hide TokenStep, CompileTokens;
    var s1 := TokenStep(n, d, open, s);
    assert [open] + x + [turn] + y + [close] == [open] + (x + [turn] + y) + [close];
    CompileBracket(n, d, open, x + [turn] + y, close, s);
    CompileParts(n, d, x + [turn], y, s1);
    CompileParts(n, d, x, [turn], s1);
    CompileOne(n, d, turn, CompileTokens(n, d, x, s1));
  }

  lemma {:induction false} LoopLayout(n: Nucleus, d: Space, p: Prog, s: Compiling)
    requires (p.Until? || p.Again?) && Good(n, d, s)
    ensures Exact(n, d, p, s)
    decreases p, 0
  {
    hide TokenStep, CompileTokens;
    var a, body, close := HereOf(d, s), Tokens(p.body), if p.Until? then UNTIL else AGAIN;
    var s1 := TokenStep(n, d, BEGIN, s);
    var s2 := CompileTokens(n, d, body, s1);
    CompileBracket(n, d, BEGIN, body, close, s);
    BeginStep(n, d, s);
    if s1.Halted? {
      HaltedStays(n, d, body, s1);
    } else {
      OnePassIsLayout(n, d, p.body, s1);
    }
    if s2.Halted? {
      HaltedStep(n, d, close, s2);
    } else {
      CloseStep(n, d, close, a, s.rs, s2);
      Assoc(s.code, Gen(n, p.body, a), if p.Until? then Test(n, false, a) else [Cfa(n, Jump), a]);
    }
  }

  /** The state in which the condition and WHILE have been compiled. */
  ghost predicate Looping(n: Nucleus, d: Space, p: Prog, s: Compiling, t: Compiling)
    requires s.Open? && p.While?
  {
    var a, hole := HereOf(d, s), HereOf(d, s) + 8 * (Size(p.cond) + 2);
    && t.Open? && InSpace(d, t)
    && t.code == s.code + Gen(n, p.cond, a) + [n.isFalse, Cfa(n, CondJump), 0]
    && t.rs == [hole, a] + s.rs
    && t.holes == s.holes + Holes(p.cond, a) + [hole]
    && t.filled == s.filled + Fills(p.cond, a)
  }

  lemma WhileTail(n: Nucleus, d: Space, p: Prog, s: Compiling, t: Compiling, u: Compiling)
    requires p.While? && s.Open? && Looping(n, d, p, s, t) && Extends(n, d, p.body, t, u) && InSpace(d, u)
    ensures if HereOf(d, u) + 16 > d.limit then TokenStep(n, d, REPEAT, u).Halted?
            else Extends(n, d, p, s, TokenStep(n, d, REPEAT, u))
  {
    hide TokenStep, Holes, Fills, Gen;
    var a, hole := HereOf(d, s), HereOf(d, s) + 8 * (Size(p.cond) + 2);
    var x, y := t.code[..|t.code| - 1], u.code[|t.code|..];
    assert x == s.code + Gen(n, p.cond, a) + [n.isFalse, Cfa(n, CondJump)];
    assert u.code == x + [0] + y;
    RepeatStep(n, d, x, y, a, s.rs, u);
    WhileCode(n, p, a, s.code);
    WhileLogs(p, a, s.holes, s.filled);
  }

  lemma WhileCode(n: Nucleus, p: Prog, a: int, code: seq<int>)
    requires p.While?
    ensures code + Gen(n, p, a)
         == code + Gen(n, p.cond, a) + [n.isFalse, Cfa(n, CondJump)] + [a + 8 * Size(p)]
            + (Gen(n, p.body, a + 8 * (Size(p.cond) + 3)) + [Cfa(n, Jump), a])
  {
    hide Gen, Size, Cfa;
    var cond, body, end := Gen(n, p.cond, a), Gen(n, p.body, a + 8 * (Size(p.cond) + 3)), a + 8 * Size(p);
    WhileGen(n, p, a);
    TestParts(n, end);
    RegroupLoop(code, cond, [n.isFalse, Cfa(n, CondJump)], [end], body, [Cfa(n, Jump), a]);
  }

  lemma TestParts(n: Nucleus, end: int)
    ensures Test(n, false, end) == [n.isFalse, Cfa(n, CondJump)] + [end]
  {
  }

  lemma RegroupLoop(x: seq<int>, y: seq<int>, t: seq<int>, w: seq<int>, z: seq<int>, b: seq<int>)
    ensures x + (y + (t + w) + z + b) == x + y + t + w + (z + b)
  {
  }

  lemma WhileLogs(p: Prog, a: int, holes: seq<int>, filled: seq<int>)
    requires p.While?
    ensures var hole := a + 8 * (Size(p.cond) + 2);
            && holes + Holes(p, a) == holes + Holes(p.cond, a) + [hole] + Holes(p.body, hole + 8)
            && filled + Fills(p, a) == filled + Fills(p.cond, a) + Fills(p.body, hole + 8) + [hole]
  {
  }

  /** What a part of a text does to HERE and to the return stack. */
  lemma {:induction false} LayoutRoom(n: Nucleus, d: Space, p: Prog, s: Compiling)
    requires Good(n, d, s)
    ensures var t := CompileTokens(n, d, Tokens(p), s);
            if !Room(n, d, p, s) then t.Halted?
            else Extends(n, d, p, s, t) && t.Open? && HereOf(d, t) == HereOf(d, s) + 8 * Size(p) && t.rs == s.rs
    decreases p, 2
  {
    hide CompileTokens, Gen, Holes, Fills;
    OnePassIsLayout(n, d, p, s);
  }

  /** BEGIN, the condition and WHILE. */
  lemma WhileOpens(n: Nucleus, d: Space, p: Prog, s: Compiling, t: Compiling)
    requires p.While? && Good(n, d, s) && InSpace(d, t)
    requires Extends(n, d, p.cond, s.(rs := [HereOf(d, s)] + s.rs), t)
    requires HereOf(d, t) + 24 <= d.limit && |t.rs| < n.rcap
    ensures Looping(n, d, p, s, TokenStep(n, d, WHILE, t))
  {
    hide TokenStep, Gen, Holes, Fills;
    OpenStep(n, d, WHILE, t);
  }

  lemma {:induction false} WhileLayout(n: Nucleus, d: Space, p: Prog, s: Compiling)
    requires p.While? && Good(n, d, s)
    ensures Exact(n, d, p, s)
    decreases p, 0
  {
    hide TokenStep, CompileTokens, Extends, Looping;
    var cond, body := Tokens(p.cond), Tokens(p.body);
    var s1 := TokenStep(n, d, BEGIN, s);
    var s2 := CompileTokens(n, d, cond, s1);
    var s3 := TokenStep(n, d, WHILE, s2);
    var s4 := CompileTokens(n, d, body, s3);
    CompileElse(n, d, BEGIN, cond, WHILE, body, REPEAT, s);
    BeginStep(n, d, s);
    if s1.Halted? {
      HaltedStays(n, d, cond, s1);
    } else {
      LayoutRoom(n, d, p.cond, s1);
    }
    if s2.Halted? {
      HaltedStep(n, d, WHILE, s2);
    } else {
      OpenStep(n, d, WHILE, s2);
    }
    if s3.Halted? {
      HaltedStays(n, d, body, s3);
    } else {
      WhileOpens(n, d, p, s, s2);
      LayoutRoom(n, d, p.body, s3);
    }
    if s4.Halted? {
      HaltedStep(n, d, REPEAT, s4);
    } else {
      WhileTail(n, d, p, s, s3, s4);
    }
  }

  ghost predicate Ascending(xs: seq<int>, lo: int, hi: int) {
    && (forall i :: 0 <= i < |xs| ==> lo <= xs[i] < hi)
    && forall i, j :: 0 <= i < j < |xs| ==> xs[i] < xs[j]
  }

  lemma AscendingParts(xs: seq<int>, lo: int, mid: int, ys: seq<int>, hi: int)
    requires lo <= mid <= hi && Ascending(xs, lo, mid) && Ascending(ys, mid, hi)
    ensures Ascending(xs + ys, lo, hi)
  {
  }

  lemma IfElseAscends(p: Prog, a: int)
    requires p.IfElse?
    requires Ascending(Holes(p.thn, a + 24), a + 24, a + 24 + 8 * Size(p.thn))
    requires var elseAt := a + 8 * (3 + Size(p.thn) + 2);
             Ascending(Holes(p.els, elseAt), elseAt, elseAt + 8 * Size(p.els))
    ensures Ascending(Holes(p, a), a, a + 8 * Size(p))
  {
    hide Ascending;
    var elseAt, end := a + 8 * (3 + Size(p.thn) + 2), a + 8 * Size(p);
    AscendingOne(a + 16, a, a + 24);
    AscendingOne(elseAt - 8, elseAt - 16, elseAt);
    AscendingParts([a + 16], a, a + 24, Holes(p.thn, a + 24), elseAt - 16);
    AscendingParts([a + 16] + Holes(p.thn, a + 24), a, elseAt - 16, [elseAt - 8], elseAt);
    AscendingParts([a + 16] + Holes(p.thn, a + 24) + [elseAt - 8], a, elseAt, Holes(p.els, elseAt), end);
  }

  lemma WhileAscends(p: Prog, a: int)
    requires p.While?
    requires Ascending(Holes(p.cond, a), a, a + 8 * Size(p.cond))
    requires var bodyAt := a + 8 * (Size(p.cond) + 3);
             Ascending(Holes(p.body, bodyAt), bodyAt, bodyAt + 8 * Size(p.body))
    ensures Ascending(Holes(p, a), a, a + 8 * Size(p))
  {
    hide Ascending;
    var b := a + 8 * Size(p.cond);
    AscendingAround(Holes(p.cond, a), a, b, Holes(p.body, b + 24), b + 24 + 8 * Size(p.body), a + 8 * Size(p));
  }

  /** Two parts with one operand between them. */
  lemma AscendingAround(x: seq<int>, a: int, b: int, y: seq<int>, c: int, end: int)
    requires a <= b && Ascending(x, a, b) && b + 24 <= c <= end && Ascending(y, b + 24, c)
    ensures Ascending(x + [b + 16] + y, a, end)
  {
    hide Ascending;
    AscendingOne(b + 16, b, b + 24);
    AscendingParts(x, a, b, [b + 16], b + 24);
    AscendingParts(x + [b + 16], a, b + 24, y, c);
    AscendingWider(x + [b + 16] + y, a, c, end);
  }

  lemma AscendingWider(xs: seq<int>, lo: int, mid: int, hi: int)
    requires Ascending(xs, lo, mid) && mid <= hi
    ensures Ascending(xs, lo, hi)
  {
  }

  lemma AscendingOne(x: int, lo: int, hi: int)
    requires lo <= x < hi
    ensures Ascending([x], lo, hi)
  {
  }

  lemma SeqAscends(p: Prog, a: int)
    requires p.Seq? && Ascending(Holes(p.first, a), a, a + 8 * Size(p.first))
    requires var b := a + 8 * Size(p.first); Ascending(Holes(p.second, b), b, b + 8 * Size(p.second))
    ensures Ascending(Holes(p, a), a, a + 8 * Size(p))
  {
    hide Ascending;
    var b := a + 8 * Size(p.first);
    AscendingParts(Holes(p.first, a), a, b, Holes(p.second, b), a + 8 * Size(p));
  }

  lemma IfAscends(p: Prog, a: int)
    requires p.If? && Ascending(Holes(p.thn, a + 24), a + 24, a + 24 + 8 * Size(p.thn))
    ensures Ascending(Holes(p, a), a, a + 8 * Size(p))
  {
    hide Ascending;
    AscendingOne(a + 16, a, a + 24);
    AscendingParts([a + 16], a, a + 24, Holes(p.thn, a + 24), a + 8 * Size(p));
  }

  lemma LoopAscends(p: Prog, a: int)
    requires (p.Until? || p.Again?) && Ascending(Holes(p.body, a), a, a + 8 * Size(p.body))
    ensures Ascending(Holes(p, a), a, a + 8 * Size(p))
  {
    hide Ascending;
    AscendingWider(Holes(p.body, a), a, a + 8 * Size(p.body), a + 8 * Size(p));
  }

  lemma PlainAscends(p: Prog, a: int)
    requires p.Skip? || p.Literal? || p.Primitive? || p.Access? || p.Call? || p.Str?
    ensures Ascending(Holes(p, a), a, a + 8 * Size(p))
  {
  }

  /** The 0 operands lie in the code of the program, in ascending order, so no two of them coincide. */
  lemma {:induction false} HolesAscend(p: Prog, a: int)
    ensures Ascending(Holes(p, a), a, a + 8 * Size(p))
  {
    hide Ascending, Holes, Size;
    match p
    case Seq(p1, p2) =>
      HolesAscend(p1, a);
      HolesAscend(p2, a + 8 * Size(p1));
      SeqAscends(p, a);
    case IfElse(_, thn, els) =>
      HolesAscend(thn, a + 24);
      HolesAscend(els, a + 8 * (3 + Size(thn) + 2));
      IfElseAscends(p, a);
    case While(cond, body) =>
      HolesAscend(cond, a);
      HolesAscend(body, a + 8 * (Size(cond) + 3));
      WhileAscends(p, a);
    case If(_, thn) =>
      HolesAscend(thn, a + 24);
      IfAscends(p, a);
    case Until(body) =>
      HolesAscend(body, a);
      LoopAscends(p, a);
    case Again(body) =>
      HolesAscend(body, a);
      LoopAscends(p, a);
    case _ =>
      PlainAscends(p, a);
  }

  /** How often `x` occurs. */
  function Times(x: int, xs: seq<int>): nat {
    multiset(xs)[x]
  }

  lemma TimesParts(x: int, xs: seq<int>, ys: seq<int>)
    ensures Times(x, xs + ys) == Times(x, xs) + Times(x, ys)
  {
  }

  /** Each 0 operand is filled exactly once, and nothing else is. */
  lemma {:induction false} FilledOnce(p: Prog, a: int, x: int)
    ensures Times(x, Fills(p, a)) == Times(x, Holes(p, a)) <= 1
    ensures Times(x, Holes(p, a)) == 1 <==> x in Holes(p, a)
  {
    hide Times, Holes, Fills, Ascending;
    HolesAscend(p, a);
    AscendingTimes(x, Holes(p, a), a, a + 8 * Size(p));
    FilledAsOften(p, a, x);
  }

  lemma {:induction false} AscendingTimes(x: int, xs: seq<int>, lo: int, hi: int)
    requires Ascending(xs, lo, hi)
    ensures Times(x, xs) == if x in xs then 1 else 0
    decreases |xs|
  {
    if xs != [] {
      var init, last := xs[..|xs| - 1], xs[|xs| - 1];
      assert xs == init + [last];
      AscendingTimes(x, init, lo, hi);
    }
  }

  lemma {:induction false} FilledAsOften(p: Prog, a: int, x: int)
    ensures Times(x, Fills(p, a)) == Times(x, Holes(p, a))
  {
    hide Times;
    match p
    case Seq(p1, p2) =>
      var b := a + 8 * Size(p1);
      FilledAsOften(p1, a, x);
      FilledAsOften(p2, b, x);
      TimesParts(x, Fills(p1, a), Fills(p2, b));
      TimesParts(x, Holes(p1, a), Holes(p2, b));
    case If(_, thn) =>
      FilledAsOften(thn, a + 24, x);
      TimesParts(x, Fills(thn, a + 24), [a + 16]);
      TimesParts(x, [a + 16], Holes(thn, a + 24));
    case IfElse(_, thn, els) =>
      var b := a + 8 * (3 + Size(thn) + 2);
      FilledAsOften(thn, a + 24, x);
      FilledAsOften(els, b, x);
      TimesFour(x, Fills(thn, a + 24), [a + 16], Fills(els, b), [b - 8]);
      TimesFour(x, [a + 16], Holes(thn, a + 24), [b - 8], Holes(els, b));
    case Until(body) =>
      FilledAsOften(body, a, x);
    case Again(body) =>
      FilledAsOften(body, a, x);
    case While(cond, body) =>
      var b := a + 8 * (Size(cond) + 3);
      FilledAsOften(cond, a, x);
      FilledAsOften(body, b, x);
      TimesFour(x, Fills(cond, a), Fills(body, b), [b - 8], []);
      TimesFour(x, Holes(cond, a), [b - 8], Holes(body, b), []);
      assert Fills(cond, a) + Fills(body, b) + [b - 8] + [] == Fills(p, a);
      assert Holes(cond, a) + [b - 8] + Holes(body, b) + [] == Holes(p, a);
    case _ =>
  }

  lemma TimesFour(x: int, a: seq<int>, b: seq<int>, c: seq<int>, d: seq<int>)
    ensures Times(x, a + b + c + d) == Times(x, a) + Times(x, b) + Times(x, c) + Times(x, d)
  {
  }

  /** Is cell `i` of the code of `p` the operand of a jump? */
  predicate IsOperand(p: Prog, i: nat)
    requires i < Size(p)
  {
    match p
    case Seq(p1, p2) => if i < Size(p1) then IsOperand(p1, i) else IsOperand(p2, i - Size(p1))
    case Str(_, _) => i == 1
    case If(_, thn) => if i < 3 then i == 2 else IsOperand(thn, i - 3)
    case IfElse(_, thn, els) =>
      var t := Size(thn);
      if i < 3 then i == 2
      else if i < 3 + t then IsOperand(thn, i - 3)
      else if i < 5 + t then i == 4 + t
      else IsOperand(els, i - 5 - t)
    case Until(body) => if i < Size(body) then IsOperand(body, i) else i == Size(body) + 2
    case Again(body) => if i < Size(body) then IsOperand(body, i) else i == Size(body) + 1
    case While(cond, body) =>
      var c := Size(cond);
      if i < c then IsOperand(cond, i)
      else if i < c + 3 then i == c + 2
      else if i < c + 3 + Size(body) then IsOperand(body, i - c - 3)
      else i == Size(p) - 1
    case _ => false
  }

  /** No jump leaves the program except for its end. */
  lemma {:induction false} JumpsStayInside(n: Nucleus, p: Prog, a: int, i: nat)
    requires i < Size(p) && IsOperand(p, i)
    ensures a <= Gen(n, p, a)[i] <= a + 8 * Size(p)
    decreases p, 1
  {
    if p.Str? {
      assert Gen(n, p, a)[1] == a + 8 * (2 + |p.data|);
    } else if p.IfElse? {
      IfElseJumps(n, p, a, i);
    } else if p.While? {
      WhileJumps(n, p, a, i);
    } else if p.Seq? {
      SeqJumps(n, p, a, i);
    } else if p.If? {
      IfJumps(n, p, a, i);
    } else {
      LoopJumps(n, p, a, i);
    }
  }

  lemma {:induction false} SeqJumps(n: Nucleus, p: Prog, a: int, i: nat)
    requires p.Seq? && i < Size(p) && IsOperand(p, i)
    ensures a <= Gen(n, p, a)[i] <= a + 8 * Size(p)
    decreases p, 0
  {
    hide Gen, Cfa, Test;
    PartAt(n, p, a, i);
    if i < Size(p.first) {
      JumpsStayInside(n, p.first, a, i);
    } else {
      JumpsStayInside(n, p.second, a + 8 * Size(p.first), i - Size(p.first));
    }
  }

  lemma {:induction false} LoopJumps(n: Nucleus, p: Prog, a: int, i: nat)
    requires (p.Until? || p.Again?) && i < Size(p) && IsOperand(p, i)
    ensures a <= Gen(n, p, a)[i] <= a + 8 * Size(p)
    decreases p, 0
  {
    hide Gen, Cfa, TestWord;
    PartAt(n, p, a, i);
    if i < Size(p.body) {
      JumpsStayInside(n, p.body, a, i);
    }
  }

  lemma {:induction false} IfJumps(n: Nucleus, p: Prog, a: int, i: nat)
    requires p.If? && i < Size(p) && IsOperand(p, i)
    ensures a <= Gen(n, p, a)[i] <= a + 8 * Size(p)
    decreases p, 0
  {
    hide Gen, Cfa, TestWord;
    PartAt(n, p, a, i);
    if i >= 3 {
      JumpsStayInside(n, p.thn, a + 24, i - 3);
    }
  }

  /** Where the cells of the shapes with two parts come from. */
  lemma PartAt(n: Nucleus, p: Prog, a: int, i: nat)
    requires (p.Seq? || p.If? || p.Until? || p.Again?) && i < Size(p)
    ensures Gen(n, p, a)[i] ==
      match p
      case Seq(p1, p2) => (if i < Size(p1) then Gen(n, p1, a)[i] else Gen(n, p2, a + 8 * Size(p1))[i - Size(p1)])
      case If(unless, thn) => (if i < 3 then Test(n, unless, a + 8 * Size(p))[i] else Gen(n, thn, a + 24)[i - 3])
      case Until(body) => (if i < Size(body) then Gen(n, body, a)[i] else Test(n, false, a)[i - Size(body)])
      case Again(body) => (if i < Size(body) then Gen(n, body, a)[i] else [Cfa(n, Jump), a][i - Size(body)])
      case _ => 0
  {
  }

  lemma {:induction false} IfElseJumps(n: Nucleus, p: Prog, a: int, i: nat)
    requires p.IfElse? && i < Size(p) && IsOperand(p, i)
    ensures a <= Gen(n, p, a)[i] <= a + 8 * Size(p)
    decreases p, 0
  {
    hide Gen;
    IfElseAt(n, p, a, i);
    if 3 <= i < 3 + Size(p.thn) {
      JumpsStayInside(n, p.thn, a + 24, i - 3);
    } else if i >= 5 + Size(p.thn) {
      JumpsStayInside(n, p.els, a + 8 * (3 + Size(p.thn) + 2), i - 5 - Size(p.thn));
    }
  }

  lemma {:induction false} WhileJumps(n: Nucleus, p: Prog, a: int, i: nat)
    requires p.While? && i < Size(p) && IsOperand(p, i)
    ensures a <= Gen(n, p, a)[i] <= a + 8 * Size(p)
    decreases p, 0
  {
    hide Gen;
    WhileAt(n, p, a, i);
    if i < Size(p.cond) {
      JumpsStayInside(n, p.cond, a, i);
    } else if Size(p.cond) + 3 <= i < Size(p.cond) + 3 + Size(p.body) {
      JumpsStayInside(n, p.body, a + 8 * (Size(p.cond) + 3), i - Size(p.cond) - 3);
    }
  }

  /** Where the cells of an IF ... ELSE ... THEN come from. */
  lemma IfElseAt(n: Nucleus, p: Prog, a: int, i: int)
    requires p.IfElse? && 0 <= i < Size(p)
    ensures var t, elseAt := Size(p.thn), a + 8 * (3 + Size(p.thn) + 2);
            Gen(n, p, a)[i] == if i < 3 then Test(n, p.unless, elseAt)[i]
                               else if i < 3 + t then Gen(n, p.thn, a + 24)[i - 3]
                               else if i < 5 + t then [Cfa(n, Jump), a + 8 * Size(p)][i - 3 - t]
                               else Gen(n, p.els, elseAt)[i - 5 - t]
  {
    hide Gen, Size, Cfa, Test;
    IfElseGen(n, p, a);
    var t, elseAt := Size(p.thn), a + 8 * (3 + Size(p.thn) + 2);
    TestLength(n, p.unless, elseAt);
    FourAt(Test(n, p.unless, elseAt), Gen(n, p.thn, a + 24), [Cfa(n, Jump), a + 8 * Size(p)], Gen(n, p.els, elseAt), i);
  }

  lemma FourAt(x: seq<int>, y: seq<int>, j: seq<int>, z: seq<int>, i: nat)
    requires i < |x| + |y| + |j| + |z|
    ensures (x + y + j + z)[i] == if i < |x| then x[i]
                                  else if i < |x| + |y| then y[i - |x|]
                                  else if i < |x| + |y| + |j| then j[i - |x| - |y|]
                                  else z[i - |x| - |y| - |j|]
  {
  }

  /** Where the cells of a BEGIN ... WHILE ... REPEAT come from. */
  lemma WhileAt(n: Nucleus, p: Prog, a: int, i: int)
    requires p.While? && 0 <= i < Size(p)
    ensures var c, b := Size(p.cond), Size(p.body);
            Gen(n, p, a)[i] == if i < c then Gen(n, p.cond, a)[i]
                               else if i < c + 3 then Test(n, false, a + 8 * Size(p))[i - c]
                               else if i < c + 3 + b then Gen(n, p.body, a + 8 * (c + 3))[i - c - 3]
                               else [Cfa(n, Jump), a][i - c - 3 - b]
  {
    hide Gen, Test;
    var bodyAt := a + 8 * (Size(p.cond) + 3);
    WhileGen(n, p, a);
    TestLength(n, false, a + 8 * Size(p));
    FourParts(Gen(n, p.cond, a), Test(n, false, a + 8 * Size(p)), Gen(n, p.body, bodyAt), [Cfa(n, Jump), a], i);
  }

  lemma FourParts(x: seq<int>, y: seq<int>, z: seq<int>, w: seq<int>, i: nat)
    requires i < |x| + |y| + |z| + |w|
    ensures (x + y + z + w)[i] == if i < |x| then x[i]
                                  else if i < |x| + |y| then y[i - |x|]
                                  else if i < |x| + |y| + |z| then z[i - |x| - |y|]
                                  else w[i - |x| - |y| - |z|]
  {
  }
}
