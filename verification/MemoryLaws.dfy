/**
 * What the words that work on memory do to each other: a cell laid at HERE is fetched back, and so is one that was
 * stored; what goes to the return stack comes back; a header is linked to the one before it.
 */
module MemoryLaws {
  import opened Words
  import opened Machine
  import opened ControlFlow
  import opened Simulation
  import opened DefiningWords
  import opened Definers
  import Interpreter

  /** HERE x , */
  function Lay(x: Word): Prog {
    Seq(Access(Here), Seq(Literal(x), Access(Comma)))
  }

  /** HERE x , @ */
  function LayFetch(x: Word): Prog {
    Seq(Lay(x), Access(Fetch))
  }

  /** `x a ! a @` */
  function StoreFetch(x: Word, a: Word): Prog {
    Seq(Literal(x), Seq(Literal(a), Seq(Access(Store), Seq(Literal(a), Access(Fetch)))))
  }

  /** There is room for one more cell, and it is neither code nor the address of the variable LATEST. */
  ghost predicate Roomy(n: Nucleus, lex: Lexicon, m: Memory) {
    m.here + 8 <= n.limit && m.here !in lex.code && m.here != n.latestVar && Linkable(lex)
  }

  lemma SeqMeans(n: Nucleus, lex: Lexicon, p: Prog, q: Prog, a: int, ps: seq<Word>, m: Memory, depth: nat, fuel: nat,
                 ps2: seq<Word>, m2: Memory)
    requires 0 <= a && a + 8 * Size(p) + 8 * Size(q) < TWO64 && Linkable(lex) && Known(p, lex) && Known(q, lex)
    requires Means(n, lex, p, a, ps, m, depth, fuel) == Done(ps2, m2)
    ensures Means(n, lex, Seq(p, q), a, ps, m, depth, fuel)
         == Means(n, lex, q, a + 8 * Size(p), ps2, m2, depth, fuel)
  {
    hide Linkable, Eval, Size, Known;
    SeqSize(p, q, lex);
    Interpreter.SeqEval(n, lex, Seq(p, q), a, ps, m, depth, fuel);
  }

  lemma SeqSize(p: Prog, q: Prog, lex: Lexicon)
    ensures Size(Seq(p, q)) == Size(p) + Size(q) && (Known(Seq(p, q), lex) <==> Known(p, lex) && Known(q, lex))
  {
  }

  lemma Sizes(x: Word, a: Word, lex: Lexicon)
    ensures Size(Lay(x)) == 4 && Known(Lay(x), lex) && Size(LayFetch(x)) == 5
    ensures Size(Seq(Literal(a), Access(Fetch))) == 3 && Known(Seq(Literal(a), Access(Fetch)), lex)
    ensures var p := Seq(Access(Store), Seq(Literal(a), Access(Fetch)));
            Size(p) == 4 && Known(p, lex) && Size(Seq(Literal(a), p)) == 6 && Known(Seq(Literal(a), p), lex)
  {
    SeqSize(Literal(x), Access(Comma), lex);
    SeqSize(Access(Here), Seq(Literal(x), Access(Comma)), lex);
    SeqSize(Lay(x), Access(Fetch), lex);
    var q := Seq(Literal(a), Access(Fetch));
    SeqSize(Literal(a), Access(Fetch), lex);
    SeqSize(Access(Store), q, lex);
    SeqSize(Literal(a), Seq(Access(Store), q), lex);
  }

  lemma LiteralMeans(n: Nucleus, lex: Lexicon, w: Word, a: int, ps: seq<Word>, m: Memory, depth: nat, fuel: nat)
    requires 0 <= a && a + 16 < TWO64 && Linkable(lex) && |ps| < n.pcap
    ensures Means(n, lex, Literal(w), a, ps, m, depth, fuel) == Done([w] + ps, m)
  {
    hide Linkable;
    var ws := [w];
    assert ws[1..] == [] && Literals(n, [], ws + ps, m) == Done(ws + ps, m);
  }

  lemma AccessMeans(n: Nucleus, lex: Lexicon, op: Op, a: int, ps: seq<Word>, m: Memory, depth: nat, fuel: nat)
    requires 0 <= a && a + 8 < TWO64 && Linkable(lex) && IsAccess(op)
    ensures Means(n, lex, Access(op), a, ps, m, depth, fuel) == AccessOutcome(n, lex, op, ps, m)
  {
    hide Linkable;
  }

  lemma HereComma(n: Nucleus, lex: Lexicon, x: Word, ps: seq<Word>, m: Memory)
    requires Roomy(n, lex, m) && |ps| < n.pcap
    ensures AccessOutcome(n, lex, Here, ps, m) == Done([m.here] + ps, m)
    ensures AccessOutcome(n, lex, Comma, [x] + ps, m) == Done(ps, m.(cell := m.cell[m.here := x], here := m.here + 8))
  {
    hide Linkable;
    assert ([x] + ps)[1..] == ps;
  }

  lemma FetchCell(n: Nucleus, lex: Lexicon, a: Word, ps: seq<Word>, m: Memory)
    requires a in m.cell && a != n.latestVar
    ensures AccessOutcome(n, lex, Fetch, [a] + ps, m) == Done([m.cell[a]] + ps, m)
  {
    assert ([a] + ps)[1..] == ps;
  }

  lemma StoreCell(n: Nucleus, lex: Lexicon, x: Word, a: Word, ps: seq<Word>, m: Memory)
    requires a in m.cell && InDictionary(n, m, a) && a !in lex.code
    ensures AccessOutcome(n, lex, Store, [a, x] + ps, m) == Done(ps, m.(cell := m.cell[a := x]))
  {
    assert ([a, x] + ps)[2..] == ps;
  }

  /**
   * `HERE x ,` leaves an address above the old stack; the cell at that address becomes `x`, no other cell changes, and
   * HERE is then the next cell.
   */
  lemma LayMeans(n: Nucleus, lex: Lexicon, x: Word, a: int, ps: seq<Word>, m: Memory, depth: nat, fuel: nat)
    requires Roomy(n, lex, m) && |ps| + 2 <= n.pcap && 0 <= a && a + 32 < TWO64
    ensures var o := Means(n, lex, Lay(x), a, ps, m, depth, fuel);
            && o.Done? && |o.ps| == 1 + |ps| && o.ps[1..] == ps && o.ps[0] + 8 < TWO64
            && o.m == m.(cell := m.cell[o.ps[0] := x], here := o.ps[0] + 8)
            && o.ps[0] == m.here
  {
    hide Linkable, Means, AccessOutcome;
    var at := [m.here] + ps;
    AccessMeans(n, lex, Here, a, ps, m, depth, fuel);
    HereComma(n, lex, x, ps, m);
    SeqMeans(n, lex, Access(Here), Seq(Literal(x), Access(Comma)), a, ps, m, depth, fuel, at, m);
    LiteralMeans(n, lex, x, a + 8, at, m, depth, fuel);
    SeqMeans(n, lex, Literal(x), Access(Comma), a + 8, at, m, depth, fuel, [x] + at, m);
    AccessMeans(n, lex, Comma, a + 24, [x] + at, m, depth, fuel);
    HereComma(n, lex, x, at, m);
  }

  /** `HERE x , @` leaves x. */
  lemma LayFetchMeans(n: Nucleus, lex: Lexicon, x: Word, a: int, ps: seq<Word>, m: Memory, depth: nat, fuel: nat)
    requires Roomy(n, lex, m) && |ps| + 2 <= n.pcap && 0 <= a && a + 40 < TWO64
    ensures Means(n, lex, LayFetch(x), a, ps, m, depth, fuel)
         == Done([x] + ps, m.(cell := m.cell[m.here := x], here := m.here + 8))
  {
    hide Linkable, Means, AccessOutcome;
    Sizes(x, x, lex);
    LayMeans(n, lex, x, a, ps, m, depth, fuel);
    var o := Means(n, lex, Lay(x), a, ps, m, depth, fuel);
    assert o.ps == [m.here] + ps;
    SeqMeans(n, lex, Lay(x), Access(Fetch), a, ps, m, depth, fuel, o.ps, o.m);
    AccessMeans(n, lex, Fetch, a + 32, o.ps, o.m, depth, fuel);
    FetchCell(n, lex, m.here, ps, o.m);
  }

  /** `x a ! a @` leaves x, and changes the cell at `a` alone. */
  lemma StoreFetchMeans(n: Nucleus, lex: Lexicon, x: Word, at: Word, a: int, ps: seq<Word>, m: Memory, depth: nat,
                        fuel: nat)
    requires at in m.cell && InDictionary(n, m, at) && at !in lex.code && at != n.latestVar && Linkable(lex)
    requires |ps| + 2 <= n.pcap && 0 <= a && a + 64 < TWO64
    ensures Means(n, lex, StoreFetch(x, at), a, ps, m, depth, fuel) == Done([x] + ps, m.(cell := m.cell[at := x]))
  {
    hide Linkable, Means, AccessOutcome;
    Sizes(x, at, lex);
    var fetch := Seq(Literal(at), Access(Fetch));
    var m2 := m.(cell := m.cell[at := x]);
    LiteralMeans(n, lex, x, a, ps, m, depth, fuel);
    SeqMeans(n, lex, Literal(x), Seq(Literal(at), Seq(Access(Store), fetch)), a, ps, m, depth, fuel, [x] + ps, m);
    LiteralMeans(n, lex, at, a + 16, [x] + ps, m, depth, fuel);
    assert [at] + ([x] + ps) == [at, x] + ps;
    SeqMeans(n, lex, Literal(at), Seq(Access(Store), fetch), a + 16, [x] + ps, m, depth, fuel, [at, x] + ps, m);
    AccessMeans(n, lex, Store, a + 32, [at, x] + ps, m, depth, fuel);
    StoreCell(n, lex, x, at, ps, m);
    SeqMeans(n, lex, Access(Store), fetch, a + 32, [at, x] + ps, m, depth, fuel, ps, m2);
    LiteralMeans(n, lex, at, a + 40, ps, m2, depth, fuel);
    SeqMeans(n, lex, Literal(at), Access(Fetch), a + 40, ps, m2, depth, fuel, [at] + ps, m2);
    AccessMeans(n, lex, Fetch, a + 56, [at] + ps, m2, depth, fuel);
    FetchCell(n, lex, at, ps, m2);
  }

  /** The compiled program is about to run, in a memory with room. */
  ghost predicate Runs(n: Nucleus, lex: Lexicon, p: Prog, s: State) {
    && s.Go? && Standing(n, lex, p, s.wp, s.m) && World(n, lex, s.m) && s.m.here + 8 <= n.limit && |s.ps| + 2 <= n.pcap
  }

  lemma HereApart(n: Nucleus, m: Memory)
    requires Defining(n, m) && m.here + 8 <= n.limit
    ensures m.here != n.latestVar && Placed(n, m)
  {
    hide Loaded, CodeAt;
  }

  lemma WorldRoomy(n: Nucleus, lex: Lexicon, m: Memory)
    requires World(n, lex, m) && m.here + 8 <= n.limit
    ensures Roomy(n, lex, m) && Placed(n, m)
  {
    hide Defining, Linked, Linkable;
    LinkedLinkable(n, lex, m.cell);
    HereApart(n, m);
  }

  /** So does the run of its cells. */
  lemma LayFetchRuns(n: Nucleus, lex: Lexicon, x: Word, s: State) returns (k: nat)
    requires Runs(n, lex, LayFetch(x), s)
    ensures s.Go? && Run(n, s, k)
         == Go(Nth(s.wp, 5), [x] + s.ps, s.rs, s.m.(cell := s.m.cell[s.m.here := x], here := NextCell(s.m.here)))
  {
    hide Run, World, Roomy, Means, Standing, Placed;
    WorldRoomy(n, lex, s.m);
    StandingEnds(n, lex, x, s);
    Sizes(x, x, lex);
    LayFetchMeans(n, lex, x, s.wp, s.ps, s.m, |s.rs|, 0);
    HereBelow(n, lex, s.m);
    k := ProgRun(n, lex, LayFetch(x), s, 0, [x] + s.ps, s.m.(cell := s.m.cell[s.m.here := x], here := s.m.here + 8));
  }

  lemma StandingEnds(n: Nucleus, lex: Lexicon, x: Word, s: State)
    requires s.Go? && Standing(n, lex, LayFetch(x), s.wp, s.m)
    ensures s.wp + 40 < TWO64
  {
    hide Linked, Known, Covered, CodeAt, Fenced, Gen, Size;
    Sizes(x, x, lex);
  }

  lemma HereBelow(n: Nucleus, lex: Lexicon, m: Memory)
    requires Roomy(n, lex, m)
    ensures m.here + 8 < TWO64
  {
    hide Linkable;
  }

  /** Two routines stand at the machine's word pointer. */
  ghost predicate Pair(n: Nucleus, s: State, op: Op, op2: Op) {
    && s.Go? && Loaded(n, s.m.cell) && op in n.cfa && op2 in n.cfa && op != RunCode && op2 != RunCode
    && s.wp + 16 < TWO64 && CodeAt(s.m.cell, s.wp, [Cfa(n, op), Cfa(n, op2)])
  }

  lemma PairCells(n: Nucleus, s: State, op: Op, op2: Op)
    requires Pair(n, s, op, op2)
    ensures s.wp in s.m.cell && s.m.cell[s.wp] == Cfa(n, op)
    ensures s.wp + 8 in s.m.cell && s.m.cell[s.wp + 8] == Cfa(n, op2)
  {
    hide Loaded, Cfa;
    var code := [Cfa(n, op), Cfa(n, op2)];
    assert s.m.cell[s.wp + 8 * 0] == code[0] && s.m.cell[s.wp + 8 * 1] == code[1];
  }

  /** `>R` moves the top cell to the return stack, and `R>` brings it back. */
  lemma ThereAndBack(n: Nucleus, s: State)
    requires Pair(n, s, ToRet, FromRet) && s.ps != [] && |s.ps| <= n.pcap && |s.rs| < n.rcap
    ensures Step(n, s) == Go(s.wp + 8, s.ps[1..], [s.ps[0]] + s.rs, s.m)
    ensures Step(n, Step(n, s)) == s.(wp := s.wp + 16)
  {
    hide Step, Loaded, CodeAt, Cfa;
    PairCells(n, s, ToRet, FromRet);
    RoutineStep(n, s, ToRet);
    var t := Go(s.wp + 8, s.ps[1..], [s.ps[0]] + s.rs, s.m);
    RoutineStep(n, t, FromRet);
    assert t.rs[1..] == s.rs && [s.ps[0]] + s.ps[1..] == s.ps;
  }

  /** Their errors, in the order in which they are found. */
  lemma ReturnStackErrors(n: Nucleus, s: State)
    requires Pair(n, s, ToRet, FromRet)
    ensures s.ps == [] ==> Step(n, s) == Stop(StackUnderflow)
    ensures s.ps != [] && |s.rs| >= n.rcap ==> Step(n, s) == Stop(ReturnOverflow)
    ensures var t := s.(wp := s.wp + 8);
            if |s.ps| >= n.pcap then Step(n, t) == Stop(StackOverflow)
            else s.rs == [] ==> Step(n, t) == Stop(ReturnUnderflow)
  {
    hide Step, Loaded, CodeAt, Cfa;
    PairCells(n, s, ToRet, FromRet);
    RoutineStep(n, s, ToRet);
    RoutineStep(n, s.(wp := s.wp + 8), FromRet);
  }

  /** The cell behind COMPILE is laid at HERE and skipped. */
  lemma CompileStep(n: Nucleus, s: State, x: Word)
    requires s.Go? && Loaded(n, s.m.cell) && Compile in n.cfa && s.wp + 16 < TWO64
    requires CodeAt(s.m.cell, s.wp, [Cfa(n, Compile), x])
    ensures Step(n, s) == if s.m.here + 8 > n.limit then Stop(SpaceOverflow)
                          else s.(wp := s.wp + 16, m := s.m.(cell := s.m.cell[s.m.here := x], here := s.m.here + 8))
  {
    hide Step, Loaded;
    var code := [Cfa(n, Compile), x];
    assert s.m.cell[s.wp + 8 * 0] == code[0] && s.m.cell[s.wp + 8 * 1] == code[1];
    RoutineStep(n, s, Compile);
  }

  /** What the words on memory take from the stack. */
  function Takes(op: Op): nat {
    if op.Store? then 2 else if op.Here? || op.ToLatest? then 0 else 1
  }

  /** Their errors: operands that are missing, or room for the result or for the cell. */
  lemma AccessErrors(n: Nucleus, lex: Lexicon, op: Op, ps: seq<Word>, m: Memory)
    requires IsAccess(op)
    ensures |ps| < Takes(op) ==> AccessOutcome(n, lex, op, ps, m) == Error(StackUnderflow)
    ensures (op.Here? || op.ToLatest?) && |ps| >= n.pcap ==> AccessOutcome(n, lex, op, ps, m) == Error(StackOverflow)
    ensures op.Comma? && ps != [] && m.here + 8 > n.limit ==> AccessOutcome(n, lex, op, ps, m) == Error(SpaceOverflow)
    ensures op.ToCfa? && ps != [] && ps[0] == 0 ==> AccessOutcome(n, lex, op, ps, m) == Error(NullPointer)
  {
    hide CodeField, IsNegative, Reserved, Reserve;
  }

  /** A name field has room for the length byte and the name, and not a cell more. */
  lemma NameFieldFits(name: seq<Word>)
    requires NameField(name)
    ensures var bytes := 1 + name[0] % 32; 8 * |name| - 8 < bytes <= 8 * |name|
  {
  }

  /** The memories agree but for the cells from `lo` up to `hi`. */
  ghost predicate Elsewhere(m: Memory, m': Memory, lo: int, hi: int) {
    forall a: Word | !(lo <= a < hi) :: (a in m'.cell <==> a in m.cell) && (a in m.cell ==> m'.cell[a] == m.cell[a])
  }

  /** What CREATE leaves: a header linked to the one before it, then the codeword and an empty code pointer. */
  lemma CreatedHeader(n: Nucleus, m: Memory)
    requires CreateFits(n, m)
    ensures var c, cells := Created(n, m), [m.latest] + m.names[0] + [n.douser, 0];
            && c.latest == m.here && c.here == m.here + 8 * |cells| && c.names == m.names[1..]
            && Holds(c, m.here, cells) && Elsewhere(m, c, m.here, c.here)
  {
    hide WriteCells;
    var head := [m.latest] + m.names[0];
    HeadCells(n, m);
    var h, c, w := Headed(n, m), Created(n, m), NewWord(n, m);
    forall i | 0 <= i < |head| + 2
      ensures m.here + 8 * i in c.cell && c.cell[m.here + 8 * i] == (head + [n.douser, 0])[i]
    {
      assert i < |head| ==> m.here + 8 * i in h.cell && h.cell[m.here + 8 * i] == head[i];
    }
  }

  lemma HeadCells(n: Nucleus, m: Memory)
    requires CreateFits(n, m)
    ensures Holds(Headed(n, m), m.here, [m.latest] + m.names[0]) && Elsewhere(m, Headed(n, m), m.here, NewWord(n, m))
  {
    hide WriteCells;
    var head := [m.latest] + m.names[0];
    forall i | 0 <= i < |head|
      ensures m.here + 8 * i in Headed(n, m).cell && Headed(n, m).cell[m.here + 8 * i] == head[i]
    {
      WrittenThere(m.cell, m.here, head, i);
    }
    forall a: Word | !(m.here <= a < NewWord(n, m))
      ensures (a in Headed(n, m).cell <==> a in m.cell) && (a in m.cell ==> Headed(n, m).cell[a] == m.cell[a])
    {
      WrittenElsewhere(m.cell, m.here, head, a);
    }
  }

  lemma WrittenThere(cell: map<Word, Word>, a: Word, ws: seq<Word>, i: nat)
    requires i < |ws| && a + 8 * |ws| < TWO64
    ensures a + 8 * i in WriteCells(cell, a, ws) && WriteCells(cell, a, ws)[a + 8 * i] == ws[i]
  {
    assert InSpan(a + 8 * i, a, |ws|) && (a + 8 * i - a) / 8 == i;
  }

  lemma WrittenElsewhere(cell: map<Word, Word>, a: Word, ws: seq<Word>, x: Word)
    requires a + 8 * |ws| < TWO64 && !(a <= x < a + 8 * |ws|)
    ensures (x in WriteCells(cell, a, ws) <==> x in cell) && (x in cell ==> WriteCells(cell, a, ws)[x] == cell[x])
  {
  }
}
