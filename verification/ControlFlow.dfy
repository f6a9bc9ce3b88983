/**
 * Structured FORTH: the programs the compiling words accept, the code a layout that knows every size in advance
 * gives them, and what they mean.
 */
module ControlFlow {
  import opened Words
  import opened Machine

  datatype Prog =
    | Skip
    | Seq(first: Prog, second: Prog)
    | Literal(w: Word)
    | Primitive(p: Prim)
    | Access(op: Op)                            // a routine that works on memory
    | Call(cfa: Word)
    | Str(data: seq<Word>, len: Word)           // an embedded string: its data cells and its length in bytes
    | If(unless: bool, thn: Prog)               // IF/UNLESS thn THEN
    | IfElse(unless: bool, thn: Prog, els: Prog)
    | Until(body: Prog)                         // BEGIN body UNTIL
    | Again(body: Prog)                         // BEGIN body AGAIN
    | While(cond: Prog, body: Prog)             // BEGIN cond WHILE body REPEAT

  /** The routines that read or write memory and leave the return stack alone. */
  predicate IsAccess(op: Op) {
    op.Here? || op.Comma? || op.Allot? || op.Fetch? || op.Store? || op.ToLatest? || op.ToCfa?
  }

  /** The colon words that are compiled, and the cells that hold code: no program is to change them. */
  datatype Lexicon = Lexicon(body: map<Word, Prog>, code: set<Word>)

  /** Number of cells the program compiles to. */
  function Size(p: Prog): nat {
    match p
    case Skip => 0
    case Seq(p, q) => Size(p) + Size(q)
    case Literal(_) => 2
    case Primitive(_) => 1
    case Access(_) => 1
    case Call(_) => 1
    case Str(data, _) => 2 + |data| + 4
    case If(_, thn) => 3 + Size(thn)
    case IfElse(_, thn, els) => 3 + Size(thn) + 2 + Size(els)
    case Until(body) => Size(body) + 3
    case Again(body) => Size(body) + 2
    case While(cond, body) => Size(cond) + 3 + Size(body) + 2
  }

  function Cfa(n: Nucleus, op: Op): Word {
    if op in n.cfa then n.cfa[op] else 0
  }

  function TestWord(n: Nucleus, unless: bool): Word {
    if unless then n.isTrue else n.isFalse
  }

  /** The test sequence that leaves for `target` when the flag does not lead into the guarded part. */
  function Test(n: Nucleus, unless: bool, target: int): seq<int> {
    [TestWord(n, unless), Cfa(n, CondJump), target]
  }

  /** The code of `p` when it starts at address `a`. */
  function Gen(n: Nucleus, p: Prog, a: int): (code: seq<int>)
    ensures |code| == Size(p)
  {
    match p
    case Skip => []
    case Seq(p, q) => Gen(n, p, a) + Gen(n, q, a + 8 * Size(p))
    case Literal(w) => [Cfa(n, Lit), w]
    case Primitive(p) => [Cfa(n, Pure(p))]
    case Access(op) => [Cfa(n, op)]
    case Call(cfa) => [cfa]
    case Str(data, len) =>
      [Cfa(n, Jump), a + 8 * (2 + |data|)] + data + [Cfa(n, Lit), a + 16, Cfa(n, Lit), len]
    case If(unless, thn) =>
      Test(n, unless, a + 8 * Size(p)) + Gen(n, thn, a + 24)
    case IfElse(unless, thn, els) =>
      var elseAt := a + 8 * (3 + Size(thn) + 2);
      Test(n, unless, elseAt) + Gen(n, thn, a + 24) + [Cfa(n, Jump), a + 8 * Size(p)] + Gen(n, els, elseAt)
    case Until(body) =>
      Gen(n, body, a) + Test(n, false, a)
    case Again(body) =>
      Gen(n, body, a) + [Cfa(n, Jump), a]
    case While(cond, body) =>
      var bodyAt := a + 8 * (Size(cond) + 3);
      Gen(n, cond, a) + Test(n, false, a + 8 * Size(p)) + Gen(n, body, bodyAt) + [Cfa(n, Jump), a]
  }

  lemma TestLength(n: Nucleus, unless: bool, target: int)
    ensures |Test(n, unless, target)| == 3
  {
  }

  lemma SizeParts(p: Prog)
    ensures p.Seq? ==> Size(p) == Size(p.first) + Size(p.second)
    ensures p.IfElse? ==> Size(p) == 3 + Size(p.thn) + 2 + Size(p.els)
    ensures p.While? ==> Size(p) == Size(p.cond) + 3 + Size(p.body) + 2
  {
  }

  lemma SeqGen(n: Nucleus, p: Prog, a: int)
    requires p.Seq?
    ensures Gen(n, p, a) == Gen(n, p.first, a) + Gen(n, p.second, a + 8 * Size(p.first))
    ensures Size(p) == Size(p.first) + Size(p.second)
  {
    hide Test, Cfa, Size;
    SizeParts(p);
  }

  lemma IfElseGen(n: Nucleus, p: Prog, a: int)
    requires p.IfElse?
    ensures var elseAt := a + 8 * (3 + Size(p.thn) + 2);
            Gen(n, p, a) == Test(n, p.unless, elseAt) + Gen(n, p.thn, a + 24) + [Cfa(n, Jump), a + 8 * Size(p)]
                            + Gen(n, p.els, elseAt)
    ensures Size(p) == 3 + Size(p.thn) + 2 + Size(p.els)
  {
    hide Test, Cfa, Size;
    SizeParts(p);
  }

  lemma LoopGen(n: Nucleus, p: Prog, a: int)
    requires p.Until? || p.Again?
    ensures Gen(n, p, a) == Gen(n, p.body, a) + if p.Until? then Test(n, false, a) else [Cfa(n, Jump), a]
    ensures Size(p) == Size(p.body) + if p.Until? then 3 else 2
  {
    hide Test;
  }

  lemma WhileGen(n: Nucleus, p: Prog, a: int)
    requires p.While?
    ensures Gen(n, p, a) == Gen(n, p.cond, a) + Test(n, false, a + 8 * Size(p))
                            + Gen(n, p.body, a + 8 * (Size(p.cond) + 3)) + [Cfa(n, Jump), a]
    ensures Size(p) == Size(p.cond) + 3 + Size(p.body) + 2
  {
    hide Test, Cfa, Size;
    SizeParts(p);
  }

  /**
   * The meaning of a program: the parameter stack and the memory it leaves, the error it stops with, or neither within
   * `fuel`. A program that changes a cell of code has strayed, and no structured meaning from then on.
   */
  datatype Outcome = Done(ps: seq<Word>, m: Memory) | Error(why: Fault) | Unfinished | Strayed

  predicate Ended(o: Outcome) {
    o.Done? || o.Error?
  }

  /** No cell of `code` has changed. */
  predicate Spares(code: set<Word>, m: Memory, m': Memory) {
    forall a <- code :: a in m.cell ==> a in m'.cell && m'.cell[a] == m.cell[a]
  }

  /** Nor has the list of entries. */
  predicate Keeps(code: set<Word>, m: Memory, m': Memory) {
    Spares(code, m, m') && m'.latest == m.latest && m'.names == m.names
  }

  /** IF and its kin call ?FALSE or ?TRUE, a colon word: one return cell first, then the flag is taken. */
  function TestOutcome(n: Nucleus, ps: seq<Word>, m: Memory, depth: nat): Outcome {
    if depth >= n.rcap then Error(ReturnOverflow)
    else if |ps| < 1 then Error(StackUnderflow)
    else Done(ps[1..], m)
  }

  function Literals(n: Nucleus, ws: seq<Word>, ps: seq<Word>, m: Memory): Outcome {
    if ws == [] then Done(ps, m)
    else if |ps| >= n.pcap then Error(StackOverflow)
    else Literals(n, ws[1..], [ws[0]] + ps, m)
  }

  /** What a routine on memory does, wherever it is called from. */
  function AccessOutcome(n: Nucleus, lex: Lexicon, op: Op, ps: seq<Word>, m: Memory): Outcome {
    match Exec(n, op, Go(0, ps, [], m))
    case Stop(e) => Error(e)
    case Go(_, ps', _, m') => if Keeps(lex.code, m, m') then Done(ps', m') else Strayed
  }

  /**
   * Big-step evaluation with `depth` return cells in use. Fuel is spent by loop rounds and colon calls. The start
   * address matters only to embedded strings, which push where their bytes lie.
   */
  function Eval(n: Nucleus, lex: Lexicon, p: Prog, a: Word, ps: seq<Word>, m: Memory, depth: nat, fuel: nat): Outcome
    requires a + 8 * Size(p) < TWO64
    requires Linkable(lex) && Known(p, lex)
    decreases fuel, p
  {
    match p
    case Skip => Done(ps, m)
    case Seq(p, q) =>
      (match Eval(n, lex, p, a, ps, m, depth, fuel)
       case Done(ps', m') => Eval(n, lex, q, a + 8 * Size(p), ps', m', depth, fuel)
       case other => other)
    case Literal(w) => Literals(n, [w], ps, m)
    case Primitive(p) =>
      (match PrimEffect(p, ps, n.pcap)
       case Left(ps') => Done(ps', m)
       case Failed(e) => Error(e))
    case Access(op) => AccessOutcome(n, lex, op, ps, m)
    case Call(cfa) =>
      if depth >= n.rcap then Error(ReturnOverflow)
      else if fuel == 0 then Unfinished
      else Eval(n, lex, lex.body[cfa], cfa + 8, ps, m, depth + 1, fuel - 1)
    case Str(data, len) => Literals(n, [a + 16, len], ps, m)
    case If(unless, thn) =>
      var t := TestOutcome(n, ps, m, depth);
      if !t.Done? || (ps[0] != 0) == unless then t
      else Eval(n, lex, thn, a + 24, t.ps, m, depth, fuel)
    case IfElse(unless, thn, els) =>
      var t := TestOutcome(n, ps, m, depth);
      if !t.Done? then t
      else if (ps[0] != 0) == unless then Eval(n, lex, els, a + 8 * (3 + Size(thn) + 2), t.ps, m, depth, fuel)
      else Eval(n, lex, thn, a + 24, t.ps, m, depth, fuel)
    case Until(body) =>
      (match Eval(n, lex, body, a, ps, m, depth, fuel)
       case Done(ps', m') =>
         var t := TestOutcome(n, ps', m', depth);
         if !t.Done? || ps'[0] != 0 then t
         else if fuel == 0 then Unfinished
         else Eval(n, lex, p, a, t.ps, m', depth, fuel - 1)
       case other => other)
    case Again(body) =>
      (match Eval(n, lex, body, a, ps, m, depth, fuel)
       case Done(ps', m') => if fuel == 0 then Unfinished else Eval(n, lex, p, a, ps', m', depth, fuel - 1)
       case other => other)
    case While(cond, body) =>
      (match Eval(n, lex, cond, a, ps, m, depth, fuel)
       case Done(ps', m') =>
         var t := TestOutcome(n, ps', m', depth);
         if !t.Done? || ps'[0] == 0 then t
         else
           (match Eval(n, lex, body, a + 8 * (Size(cond) + 3), t.ps, m', depth, fuel)
            case Done(ps'', m'') => if fuel == 0 then Unfinished else Eval(n, lex, p, a, ps'', m'', depth, fuel - 1)
            case other => other)
       case other => other)
  }

  /** Every colon word the program calls has a known body, and its accesses to memory are such. */
  predicate Known(p: Prog, lex: Lexicon) {
    match p
    case Skip => true
    case Seq(p, q) => Known(p, lex) && Known(q, lex)
    case Literal(_) => true
    case Primitive(_) => true
    case Access(op) => IsAccess(op)
    case Call(cfa) => cfa in lex.body
    case Str(_, _) => true
    case If(_, thn) => Known(thn, lex)
    case IfElse(_, thn, els) => Known(thn, lex) && Known(els, lex)
    case Until(body) => Known(body, lex)
    case Again(body) => Known(body, lex)
    case While(cond, body) => Known(cond, lex) && Known(body, lex)
  }

  predicate Linkable(lex: Lexicon) {
    forall c <- lex.body :: Known(lex.body[c], lex) && c + 16 + 8 * Size(lex.body[c]) < TWO64
  }

  /** The cells from `a` on hold `code`. */
  ghost predicate CodeAt(cell: map<Word, Word>, a: int, code: seq<int>) {
    && 0 <= a
    && a + 8 * |code| < TWO64
    && forall i :: 0 <= i < |code| ==> a + 8 * i in cell && cell[a + 8 * i] == code[i]
  }

  lemma CodeFront(cell: map<Word, Word>, a: int, x: seq<int>, y: seq<int>)
    requires CodeAt(cell, a, x + y)
    ensures CodeAt(cell, a, x)
  {
    assert forall i :: 0 <= i < |x| ==> (x + y)[i] == x[i];
  }

  lemma CodeBack(cell: map<Word, Word>, a: int, x: seq<int>, y: seq<int>)
    requires CodeAt(cell, a, x + y)
    ensures CodeAt(cell, a + 8 * |x|, y)
  {
    forall i | 0 <= i < |y|
      ensures a + 8 * |x| + 8 * i in cell && cell[a + 8 * |x| + 8 * i] == y[i]
    {
      assert (x + y)[|x| + i] == y[i];
      assert a + 8 * |x| + 8 * i == a + 8 * (|x| + i);
    }
  }

  lemma CodeJoin(cell: map<Word, Word>, a: int, x: seq<int>, y: seq<int>)
    requires CodeAt(cell, a, x) && CodeAt(cell, a + 8 * |x|, y)
    ensures CodeAt(cell, a, x + y)
  {
    forall i | 0 <= i < |x + y|
      ensures a + 8 * i in cell && cell[a + 8 * i] == (x + y)[i]
    {
      if i >= |x| {
        assert a + 8 * |x| + 8 * (i - |x|) == a + 8 * i;
      }
    }
  }

  lemma CodeAtParts(cell: map<Word, Word>, a: int, x: seq<int>, y: seq<int>)
    ensures CodeAt(cell, a, x + y) <==> CodeAt(cell, a, x) && CodeAt(cell, a + 8 * |x|, y)
  {
    hide CodeAt;
    if CodeAt(cell, a, x + y) {
      CodeFront(cell, a, x, y);
      CodeBack(cell, a, x, y);
    }
    if CodeAt(cell, a, x) && CodeAt(cell, a + 8 * |x|, y) {
      CodeJoin(cell, a, x, y);
    }
  }

  lemma CodeEnds(cell: map<Word, Word>, a: int, code: seq<int>)
    requires CodeAt(cell, a, code)
    ensures 0 <= a && a + 8 * |code| < TWO64
  {
  }

  /** The nucleus in memory: each routine's codeword leads to its code, and the built-in colon words are spelled out. */
  ghost predicate Loaded(n: Nucleus, cell: map<Word, Word>) {
    && n.docol != n.douser && n.docol !in n.entry && n.douser !in n.entry
    && (forall op <- n.cfa :: n.cfa[op] in cell && cell[n.cfa[op]] in n.entry && n.entry[cell[n.cfa[op]]] == op)
    && {Exit, Lit, Jump, CondJump, Pure(Un(EqZero)), Pure(Un(NeZero))} <= n.cfa.Keys
    && CodeAt(cell, n.isFalse, [n.docol, Cfa(n, Pure(Un(EqZero))), Cfa(n, Exit)])
    && CodeAt(cell, n.isTrue, [n.docol, Cfa(n, Pure(Un(NeZero))), Cfa(n, Exit)])
  }

  /** Every primitive the program uses is part of the nucleus. */
  predicate Covered(p: Prog, n: Nucleus) {
    match p
    case Skip => true
    case Seq(p, q) => Covered(p, n) && Covered(q, n)
    case Literal(_) => true
    case Primitive(p) => Pure(p) in n.cfa
    case Access(op) => op in n.cfa
    case Call(_) => true
    case Str(_, _) => true
    case If(_, thn) => Covered(thn, n)
    case IfElse(_, thn, els) => Covered(thn, n) && Covered(els, n)
    case Until(body) => Covered(body, n)
    case Again(body) => Covered(body, n)
    case While(cond, body) => Covered(cond, n) && Covered(body, n)
  }

  /** The `k` cells from `a` on are known to hold code. */
  ghost predicate Fenced(lex: Lexicon, a: int, k: nat) {
    forall i :: 0 <= i < k ==> a + 8 * i in lex.code
  }

  lemma FencedWithin(lex: Lexicon, lex2: Lexicon, a: int, k: nat)
    requires lex.code <= lex2.code && Fenced(lex, a, k)
    ensures Fenced(lex2, a, k)
  {
  }

  /** So are the words of the nucleus that compiled code calls, and the colon words. */
  ghost predicate AllFenced(n: Nucleus, lex: Lexicon) {
    && (forall op <- n.cfa :: n.cfa[op] in lex.code)
    && Fenced(lex, n.isFalse, 3) && Fenced(lex, n.isTrue, 3)
    && forall c <- lex.body :: Fenced(lex, c, Size(lex.body[c]) + 2)
  }

  /** The colon words of `lex` lie compiled in memory, each closed by EXIT, and their cells are known to hold code. */
  ghost predicate Linked(n: Nucleus, lex: Lexicon, cell: map<Word, Word>) {
    && Loaded(n, cell)
    && Linkable(lex)
    && AllFenced(n, lex)
    && forall c <- lex.body ::
         Covered(lex.body[c], n) && CodeAt(cell, c, [n.docol] + Gen(n, lex.body[c], c + 8) + [Cfa(n, Exit)])
  }

  lemma LinkedLinkable(n: Nucleus, lex: Lexicon, cell: map<Word, Word>)
    requires Linked(n, lex, cell)
    ensures Linkable(lex)
  {
  }

  /** Fenced code stays as it is. */
  lemma SparesCode(lex: Lexicon, m: Memory, m': Memory, a: int, code: seq<int>)
    requires Spares(lex.code, m, m') && Fenced(lex, a, |code|) && CodeAt(m.cell, a, code)
    ensures CodeAt(m'.cell, a, code)
  {
  }

  lemma SparesLoaded(n: Nucleus, lex: Lexicon, m: Memory, m': Memory)
    requires Spares(lex.code, m, m') && AllFenced(n, lex) && Loaded(n, m.cell)
    ensures Loaded(n, m'.cell)
  {
    hide CodeAt, Fenced;
    SparesCode(lex, m, m', n.isFalse, [n.docol, Cfa(n, Pure(Un(EqZero))), Cfa(n, Exit)]);
    SparesCode(lex, m, m', n.isTrue, [n.docol, Cfa(n, Pure(Un(NeZero))), Cfa(n, Exit)]);
  }

  /** All that is linked stays linked. */
  lemma SparesLinked(n: Nucleus, lex: Lexicon, m: Memory, m': Memory)
    requires Spares(lex.code, m, m') && Linked(n, lex, m.cell)
    ensures Linked(n, lex, m'.cell)
  {
    hide CodeAt, Fenced, Loaded, Spares, Gen;
    SparesLoaded(n, lex, m, m');
    forall c <- lex.body
      ensures CodeAt(m'.cell, c, [n.docol] + Gen(n, lex.body[c], c + 8) + [Cfa(n, Exit)])
    {
      SparesCode(lex, m, m', c, [n.docol] + Gen(n, lex.body[c], c + 8) + [Cfa(n, Exit)]);
    }
  }

  lemma SparesTwice(code: set<Word>, m: Memory, m1: Memory, m2: Memory)
    requires Spares(code, m, m1) && Spares(code, m1, m2)
    ensures Spares(code, m, m2)
  {
  }

  lemma KeepsSame(code: set<Word>, m: Memory)
    ensures Keeps(code, m, m)
  {
  }

  lemma LinkedLoaded(n: Nucleus, lex: Lexicon, cell: map<Word, Word>)
    requires Linked(n, lex, cell)
    ensures Loaded(n, cell) && n.docol != n.douser
  {
  }
}
