/**
 * What the control words do with a flag and with a loop, and the cells each of them compiles to.
 */
module ControlLaws {
  import opened Words
  import opened Machine
  import opened ControlFlow
  import opened OnePass
  import opened Widening
  import opened Definers
  import opened MemoryLaws

  /** IF takes its part when the flag is not zero, UNLESS when it is. */
  predicate Taken(unless: bool, f: Word) {
    if unless then f == 0 else f != 0
  }

  /** The program has addresses and is known. */
  ghost predicate Placeable(lex: Lexicon, p: Prog, a: int) {
    0 <= a && a + 8 * Size(p) < TWO64 && Linkable(lex) && Known(p, lex)
  }

  lemma IfMeans(n: Nucleus, lex: Lexicon, p: Prog, f: Word, a: int, ps: seq<Word>, m: Memory, depth: nat, fuel: nat)
    requires p.If? && Placeable(lex, Seq(Literal(f), p), a) && |ps| < n.pcap && depth < n.rcap
    ensures Means(n, lex, Seq(Literal(f), p), a, ps, m, depth, fuel)
         == if Taken(p.unless, f) then Means(n, lex, p.thn, a + 40, ps, m, depth, fuel) else Done(ps, m)
  {
    hide Linkable, Eval;
    SeqSize(Literal(f), p, lex);
    LiteralMeans(n, lex, f, a, ps, m, depth, fuel);
    SeqMeans(n, lex, Literal(f), p, a, ps, m, depth, fuel, [f] + ps, m);
    IfUnfolds(n, lex, p, a + 16, [f] + ps, m, depth, fuel);
    assert ([f] + ps)[1..] == ps;
  }

  lemma IfElseMeans(n: Nucleus, lex: Lexicon, p: Prog, f: Word, a: int, ps: seq<Word>, m: Memory, depth: nat, fuel: nat)
    requires p.IfElse? && Placeable(lex, Seq(Literal(f), p), a) && |ps| < n.pcap && depth < n.rcap
    ensures Means(n, lex, Seq(Literal(f), p), a, ps, m, depth, fuel)
         == if Taken(p.unless, f) then Means(n, lex, p.thn, a + 40, ps, m, depth, fuel)
            else Means(n, lex, p.els, a + 56 + 8 * Size(p.thn), ps, m, depth, fuel)
  {
    hide Linkable, Eval;
    SeqSize(Literal(f), p, lex);
    LiteralMeans(n, lex, f, a, ps, m, depth, fuel);
    SeqMeans(n, lex, Literal(f), p, a, ps, m, depth, fuel, [f] + ps, m);
    IfUnfolds(n, lex, p, a + 16, [f] + ps, m, depth, fuel);
    assert ([f] + ps)[1..] == ps;
  }

  /** BEGIN DUP WHILE 1- REPEAT */
  const DOWN := While(Primitive(Dup), Primitive(Un(SubOne)))

  /** BEGIN 1- DUP =0 UNTIL */
  const DOWN_TO := Until(Seq(Primitive(Un(SubOne)), Seq(Primitive(Dup), Primitive(Un(EqZero)))))

  lemma DupMeans(n: Nucleus, lex: Lexicon, x: Word, a: Word, ps: seq<Word>, m: Memory, depth: nat, fuel: nat)
    requires Placeable(lex, Primitive(Dup), a) && |ps| + 1 < n.pcap
    ensures Eval(n, lex, Primitive(Dup), a, [x] + ps, m, depth, fuel) == Done([x] + ([x] + ps), m)
  {
    hide Linkable;
  }

  lemma UnaryMeans(n: Nucleus, lex: Lexicon, op: Unary, x: Word, a: Word, ps: seq<Word>, m: Memory, depth: nat,
                   fuel: nat)
    requires Placeable(lex, Primitive(Un(op)), a)
    ensures Eval(n, lex, Primitive(Un(op)), a, [x] + ps, m, depth, fuel) == Done([UnaryResult(op, x)] + ps, m)
  {
    hide Linkable, UnaryResult;
    assert ([x] + ps)[1..] == ps;
  }

  /** A loop that counts down to zero leaves zero, from any number. */
  lemma {:induction false} CountsDown(n: Nucleus, lex: Lexicon, x: Word, a: Word, ps: seq<Word>, m: Memory, depth: nat,
                                      fuel: nat)
    requires Placeable(lex, DOWN, a) && |ps| + 1 < n.pcap && depth < n.rcap && fuel >= x
    ensures Means(n, lex, DOWN, a, [x] + ps, m, depth, fuel) == Done([0] + ps, m)
    decreases fuel
  {
    hide Linkable, Eval;
    WhileUnfolds(n, lex, DOWN, a, [x] + ps, m, depth, fuel);
    DupMeans(n, lex, x, a, ps, m, depth, fuel);
    assert ([x] + ([x] + ps))[1..] == [x] + ps;
    if x > 0 {
      UnaryMeans(n, lex, SubOne, x, a + 32, ps, m, depth, fuel);
      CountsDown(n, lex, x - 1, a, ps, m, depth, fuel - 1);
    }
  }

  /** So does one that tests behind its body, from any number but zero. */
  lemma {:induction false} CountsDownTo(n: Nucleus, lex: Lexicon, x: Word, a: Word, ps: seq<Word>, m: Memory,
                                        depth: nat, fuel: nat)
    requires Placeable(lex, DOWN_TO, a) && |ps| + 1 < n.pcap && depth < n.rcap && fuel >= x >= 1
    ensures Means(n, lex, DOWN_TO, a, [x] + ps, m, depth, fuel) == Done([0] + ps, m)
    decreases fuel
  {
    hide Linkable, Eval;
    LoopUnfolds(n, lex, DOWN_TO, a, [x] + ps, m, depth, fuel);
    OneDown(n, lex, x, a, ps, m, depth, fuel);
    assert ([UnaryResult(EqZero, x - 1)] + ([x - 1] + ps))[1..] == [x - 1] + ps;
    if x > 1 {
      CountsDownTo(n, lex, x - 1, a, ps, m, depth, fuel - 1);
    }
  }

  lemma OneDown(n: Nucleus, lex: Lexicon, x: Word, a: Word, ps: seq<Word>, m: Memory, depth: nat, fuel: nat)
    requires Placeable(lex, DOWN_TO, a) && |ps| + 1 < n.pcap && x >= 1
    ensures Eval(n, lex, DOWN_TO.body, a, [x] + ps, m, depth, fuel)
         == Done([UnaryResult(EqZero, x - 1)] + ([x - 1] + ps), m)
  {
    hide Linkable, Eval;
    var test := Seq(Primitive(Dup), Primitive(Un(EqZero)));
    UnaryMeans(n, lex, SubOne, x, a, ps, m, depth, fuel);
    SeqMeans(n, lex, Primitive(Un(SubOne)), test, a, [x] + ps, m, depth, fuel, [x - 1] + ps, m);
    DupMeans(n, lex, x - 1, a + 8, ps, m, depth, fuel);
    SeqMeans(n, lex, Primitive(Dup), Primitive(Un(EqZero)), a + 8, [x - 1] + ps, m, depth, fuel,
             [x - 1] + ([x - 1] + ps), m);
    UnaryMeans(n, lex, EqZero, x - 1, a + 16, [x - 1] + ps, m, depth, fuel);
  }

  /** BEGIN AGAIN has no end but an error. */
  lemma {:induction false} AgainNeverDone(n: Nucleus, lex: Lexicon, p: Prog, a: Word, ps: seq<Word>, m: Memory,
                                          depth: nat, fuel: nat)
    requires p.Again? && Placeable(lex, p, a)
    ensures !Means(n, lex, p, a, ps, m, depth, fuel).Done?
    decreases fuel
  {
    hide Linkable, Eval;
    LoopUnfolds(n, lex, p, a, ps, m, depth, fuel);
    var o := Eval(n, lex, p.body, a, ps, m, depth, fuel);
    if o.Done? && fuel > 0 {
      AgainNeverDone(n, lex, p, a, o.ps, o.m, depth, fuel - 1);
    }
  }

  /** There is room for the code of `p`, and for what it needs of the return stack. */
  ghost predicate Compilable(n: Nucleus, d: Space, p: Prog, s: Compiling) {
    Good(n, d, s) && Room(n, d, p, s)
  }

  /** The text compiles to these cells behind what was there, and leaves the return stack as it was. */
  ghost predicate CompilesTo(n: Nucleus, d: Space, ts: seq<Token>, s: Compiling, cells: seq<int>) {
    && InSpace(d, s) && s.Open?
    && var t := CompileTokens(n, d, ts, s); t.Open? && t.rs == s.rs && t.code == s.code + cells
  }

  lemma CompilesToGen(n: Nucleus, d: Space, p: Prog, s: Compiling, ts: seq<Token>, cells: seq<int>)
    requires Compilable(n, d, p, s) && Tokens(p) == ts && Gen(n, p, HereOf(d, s)) == cells
    ensures CompilesTo(n, d, ts, s, cells)
  {
    hide Gen, Tokens, CompileTokens;
    OnePassIsLayout(n, d, p, s);
  }

  /** IF p ELSE q THEN: the test jumps behind the jump that ends the first part, and that one behind the second. */
  lemma IfElseCells(n: Nucleus, d: Space, p: Prim, q: Prim, s: Compiling)
    requires Compilable(n, d, IfElse(false, Primitive(p), Primitive(q)), s)
    ensures var a := HereOf(d, s);
      CompilesTo(n, d, [IF, Prime(p), ELSE, Prime(q), THEN], s,
                 [n.isFalse, Cfa(n, CondJump), a + 48, Cfa(n, Pure(p)), Cfa(n, Jump), a + 56, Cfa(n, Pure(q))])
  {
    hide Cfa;
    CompilesToGen(n, d, IfElse(false, Primitive(p), Primitive(q)), s, [IF, Prime(p), ELSE, Prime(q), THEN],
                  [n.isFalse, Cfa(n, CondJump), HereOf(d, s) + 48, Cfa(n, Pure(p)), Cfa(n, Jump), HereOf(d, s) + 56,
                   Cfa(n, Pure(q))]);
  }

  /** UNLESS p THEN */
  lemma UnlessCells(n: Nucleus, d: Space, p: Prim, s: Compiling)
    requires Compilable(n, d, If(true, Primitive(p)), s)
    ensures CompilesTo(n, d, [UNLESS, Prime(p), THEN], s,
                       [n.isTrue, Cfa(n, CondJump), HereOf(d, s) + 32, Cfa(n, Pure(p))])
  {
    hide Cfa;
    CompilesToGen(n, d, If(true, Primitive(p)), s, [UNLESS, Prime(p), THEN],
                  [n.isTrue, Cfa(n, CondJump), HereOf(d, s) + 32, Cfa(n, Pure(p))]);
  }

  /** BEGIN p WHILE q REPEAT */
  lemma WhileCells(n: Nucleus, d: Space, p: Prim, q: Prim, s: Compiling)
    requires Compilable(n, d, While(Primitive(p), Primitive(q)), s)
    ensures var a := HereOf(d, s);
      CompilesTo(n, d, [BEGIN, Prime(p), WHILE, Prime(q), REPEAT], s,
                 [Cfa(n, Pure(p)), n.isFalse, Cfa(n, CondJump), a + 56, Cfa(n, Pure(q)), Cfa(n, Jump), a])
  {
    hide Cfa;
    CompilesToGen(n, d, While(Primitive(p), Primitive(q)), s, [BEGIN, Prime(p), WHILE, Prime(q), REPEAT],
                  [Cfa(n, Pure(p)), n.isFalse, Cfa(n, CondJump), HereOf(d, s) + 56, Cfa(n, Pure(q)), Cfa(n, Jump),
                   HereOf(d, s)]);
  }

  /** BEGIN p UNTIL and BEGIN p AGAIN */
  lemma LoopCells(n: Nucleus, d: Space, p: Prim, s: Compiling)
    requires Compilable(n, d, Until(Primitive(p)), s)
    ensures var a := HereOf(d, s);
      && CompilesTo(n, d, [BEGIN, Prime(p), UNTIL], s, [Cfa(n, Pure(p)), n.isFalse, Cfa(n, CondJump), a])
      && CompilesTo(n, d, [BEGIN, Prime(p), AGAIN], s, [Cfa(n, Pure(p)), Cfa(n, Jump), a])
  {
    hide Cfa;
    CompilesToGen(n, d, Until(Primitive(p)), s, [BEGIN, Prime(p), UNTIL],
                  [Cfa(n, Pure(p)), n.isFalse, Cfa(n, CondJump), HereOf(d, s)]);
    CompilesToGen(n, d, Again(Primitive(p)), s, [BEGIN, Prime(p), AGAIN],
                  [Cfa(n, Pure(p)), Cfa(n, Jump), HereOf(d, s)]);
  }
}
