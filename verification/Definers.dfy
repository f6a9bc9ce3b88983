/**
 * Words that make words: CREATE itself, or a colon word that sets up, calls a maker and goes on building behind the new
 * header, with or without DOES>. `: CONSTANT CREATE , DOES> @ ;` is one of them, and so are VARIABLE and ARRAY.
 */
module Definers {
  import opened Words
  import opened Machine
  import opened ControlFlow
  import opened Simulation
  import opened Widening
  import opened DefiningWords

  datatype Maker = ByCreate | ByWord(word: Word, setup: Prog, maker: Maker, build: Prog)

  /** What a maker ends with: EXIT, or DOES> and what the words it makes are to do. */
  datatype Tail = NoTail | Does(prog: Prog)

  function CfaOf(n: Nucleus, mk: Maker): Word {
    if mk.ByCreate? then n.create else mk.word
  }

  /** Where the cell that calls the inner maker, the building part and the end lie. */
  function MakerAt(mk: Maker): Word {
    if mk.ByWord? then Nth(mk.word, 1 + Size(mk.setup)) else 0
  }

  function BuildAt(mk: Maker): Word {
    if mk.ByWord? then Nth(mk.word, 2 + Size(mk.setup)) else 0
  }

  function EndAt(mk: Maker): Word {
    if mk.ByWord? then Nth(mk.word, 2 + Size(mk.setup) + Size(mk.build)) else 0
  }

  function EndCode(n: Nucleus, tail: Tail, a: int): (code: seq<int>)
    ensures |code| == if tail.Does? then Size(tail.prog) + 2 else 1
  {
    if tail.Does? then [n.does] + Gen(n, tail.prog, a + 8) + [Cfa(n, Exit)] else [Cfa(n, Exit)]
  }

  function WordCode(n: Nucleus, mk: Maker, tail: Tail): (code: seq<int>)
    requires mk.ByWord?
    ensures |code| == 2 + Size(mk.setup) + Size(mk.build) + |EndCode(n, tail, EndAt(mk))|
  {
    [n.docol] + Gen(n, mk.setup, mk.word + 8) + [CfaOf(n, mk.maker)] + Gen(n, mk.build, BuildAt(mk))
    + EndCode(n, tail, EndAt(mk))
  }

  /** The meaning of a program if it has one. */
  function Means(n: Nucleus, lex: Lexicon, p: Prog, a: int, ps: seq<Word>, m: Memory, depth: nat, fuel: nat): Outcome {
    if 0 <= a && a + 8 * Size(p) < TWO64 && Linkable(lex) && Known(p, lex)
    then Eval(n, lex, p, a, ps, m, depth, fuel)
    else Unfinished
  }

  /** While a new word is being built, its length byte, its codeword and its code pointer are not to be changed. */
  function Guarding(lex: Lexicon, m: Memory, w: Word): Lexicon {
    Lexicon(lex.body, lex.code + {NextCell(m.latest), w, NextCell(w)})
  }

  /** A maker leaves a stack, a memory and in it a new word at `w`, unless something goes wrong. */
  datatype Birth = Born(ps: seq<Word>, m: Memory, w: Word) | Unborn

  function Birthing(n: Nucleus, lex: Lexicon, mk: Maker, ps: seq<Word>, m: Memory, depth: nat, fuel: nat): Birth
    decreases mk
  {
    match mk
    case ByCreate =>
      if |ps| < n.pcap && depth < n.rcap && CreateFits(n, m) && NameField(m.names[0])
      then Born(ps, Created(n, m), NewWord(n, m)) else Unborn
    case ByWord(word, setup, maker, build) =>
      if depth >= n.rcap then Unborn
      else
        var o := Means(n, lex, setup, word + 8, ps, m, depth + 1, fuel);
        if !o.Done? then Unborn
        else
          var b := Birthing(n, lex, maker, o.ps, o.m, depth + 1, fuel);
          if b.Unborn? then Unborn
          else
            var u := Means(n, Guarding(lex, b.m, b.w), build, BuildAt(mk), b.ps, b.m, depth + 1, fuel);
            if u.Done? then Born(u.ps, u.m, b.w) else Unborn
  }

  /** All cells of `code` lie below HERE or outside the dictionary space. */
  ghost predicate AllStay(n: Nucleus, code: set<Word>, m: Memory) {
    forall a <- code :: a < m.here || !(n.org <= a < n.limit)
  }

  /** The nucleus and the colon words of `lex` are in memory, where what is compiled later does not reach them. */
  ghost predicate World(n: Nucleus, lex: Lexicon, m: Memory) {
    n.org > 0 && Defining(n, m) && Linked(n, lex, m.cell) && AllStay(n, lex.code, m)
  }

  /** The makers are compiled, and what they call is known. */
  ghost predicate Compiled(n: Nucleus, lex: Lexicon, mk: Maker, tail: Tail, m: Memory)
    decreases mk
  {
    match mk
    case ByCreate => tail == NoTail
    case ByWord(word, setup, maker, build) =>
      && Known(setup, lex) && Covered(setup, n) && Known(build, lex) && Covered(build, n)
      && (tail.Does? ==> Known(tail.prog, lex) && Covered(tail.prog, n))
      && CodeAt(m.cell, word, WordCode(n, mk, tail)) && Fenced(lex, word, |WordCode(n, mk, tail)|)
      && Compiled(n, lex, maker, NoTail, m)
  }

  lemma EvolvedStays(n: Nucleus, code: set<Word>, m: Memory, m': Memory)
    requires AllStay(n, code, m) && Evolved(n, m, m')
    ensures AllStay(n, code, m')
  {
  }

  lemma WorldKept(n: Nucleus, lex: Lexicon, m: Memory, m': Memory)
    requires World(n, lex, m) && Evolved(n, m, m') && Spares(lex.code, m, m')
    ensures World(n, lex, m')
  {
    hide Defining, Linked, AllStay, Evolved, Spares;
    EvolvedDefining(n, m, m');
    SparesLinked(n, lex, m, m');
    EvolvedStays(n, lex.code, m, m');
  }

  lemma {:induction false} CompiledKept(n: Nucleus, lex: Lexicon, mk: Maker, tail: Tail, m: Memory, m': Memory)
    requires Compiled(n, lex, mk, tail, m) && Spares(lex.code, m, m')
    ensures Compiled(n, lex, mk, tail, m')
    decreases mk
  {
    hide CodeAt, Fenced, Spares, WordCode;
    if mk.ByWord? {
      SparesCode(lex, m, m', mk.word, WordCode(n, mk, tail));
      CompiledKept(n, lex, mk.maker, NoTail, m, m');
    }
  }

  /** Appending and storing above HERE spares what lies below or outside the space. */
  lemma GrownSpares(n: Nucleus, code: set<Word>, m: Memory, m': Memory)
    requires Grown(n, m, m') && AllStay(n, code, m)
    ensures Spares(code, m, m') && Evolved(n, m, m')
  {
  }

  /** The newest word of `m` is the one at `w`, made out of `m0`, with an empty code pointer. */
  ghost predicate Nascent(n: Nucleus, m0: Memory, m: Memory, w: Word) {
    && Newest(n, m, w) && Made(n, m, w, 0) && m0.here < w && w + 16 < TWO64
    && m0.here <= m.latest && NextCell(m.latest) < m.here
  }

  /** Programs that leave the guarded cells alone leave the new word what it is. */
  lemma NascentKept(n: Nucleus, lex: Lexicon, m0: Memory, m: Memory, w: Word, m': Memory)
    requires Nascent(n, m0, m, w) && Keeps(Guarding(lex, m, w).code, m, m') && Evolved(n, m, m')
    ensures Nascent(n, m0, m', w)
  {
    hide Confined, CodeField;
    var code := Guarding(lex, m, w).code;
    assert NextCell(m.latest) in code && w in code && NextCell(w) in code;
  }

  lemma KnownGuarding(p: Prog, lex: Lexicon, m: Memory, w: Word)
    requires Known(p, lex)
    ensures Known(p, Guarding(lex, m, w))
  {
    KnownWithin(p, lex, Guarding(lex, m, w));
  }

  /** The guarded cells lie below HERE, so the world is as well off with them as code. */
  lemma WorldGuarding(n: Nucleus, lex: Lexicon, m0: Memory, m: Memory, w: Word)
    requires World(n, lex, m) && Nascent(n, m0, m, w)
    ensures World(n, Guarding(lex, m, w), m)
  {
    hide Defining, CodeAt, Loaded, Gen, Newest;
    var lex2 := Guarding(lex, m, w);
    forall c <- lex.body
      ensures Known(lex2.body[c], lex2)
    {
      KnownGuarding(lex.body[c], lex, m, w);
    }
  }

  /** A program that stands at the machine's word pointer and ends: the run that does it. */
  lemma ProgRun(n: Nucleus, lex: Lexicon, p: Prog, s: State, fuel: nat, ps: seq<Word>, m: Memory) returns (k: nat)
    requires s.Go? && Standing(n, lex, p, s.wp, s.m) && Placed(n, s.m)
    requires Means(n, lex, p, s.wp, s.ps, s.m, |s.rs|, fuel) == Done(ps, m)
    ensures Run(n, s, k) == Go(Nth(s.wp, Size(p)), ps, s.rs, m)
    ensures Keeps(lex.code, s.m, m) && Evolved(n, s.m, m)
  {
    hide Step, Run, Standing, Eval, Evolved, Keeps, Placed, Known, Linkable, Size, Loaded, Covered, Path;
    StandingLoaded(n, lex, p, s.wp, s.m);
    var r, t := Home(p, s), s;
    k, t := Simulate(n, lex, p, s, fuel, r);
    PathRuns(n, s, k, t, r, 0);
    RunEvolves(n, s, k);
  }

  /** The addresses of the parts follow one another. */
  predicate Placing(mk: Maker) {
    && mk.ByWord? && mk.word + 8 < TWO64 && mk.word + 8 + 8 * Size(mk.setup) == MakerAt(mk)
    && MakerAt(mk) + 8 == BuildAt(mk) && BuildAt(mk) + 8 * Size(mk.build) == EndAt(mk)
  }

  lemma Places(mk: Maker)
    requires mk.ByWord? && mk.word + 8 * (2 + Size(mk.setup) + Size(mk.build)) < TWO64
    ensures Placing(mk) && Nth(mk.word, 1) == mk.word + 8
  {
  }

  /** The code of a maker in its parts. */
  lemma WordCells(n: Nucleus, lex: Lexicon, mk: Maker, tail: Tail, m: Memory)
    requires mk.ByWord? && Compiled(n, lex, mk, tail, m)
    ensures Placing(mk) && EndAt(mk) + 8 * |EndCode(n, tail, EndAt(mk))| < TWO64
    ensures CodeAt(m.cell, mk.word, [n.docol]) && CodeAt(m.cell, mk.word + 8, Gen(n, mk.setup, mk.word + 8))
    ensures CodeAt(m.cell, MakerAt(mk), [CfaOf(n, mk.maker)])
    ensures CodeAt(m.cell, BuildAt(mk), Gen(n, mk.build, BuildAt(mk)))
    ensures CodeAt(m.cell, EndAt(mk), EndCode(n, tail, EndAt(mk)))
  {
    hide CodeAt, Fenced, Known, Covered, Gen, EndCode, WordCode, Size, CfaOf;
    WordCodeIs(n, mk, tail);
    CodeEnds(m.cell, mk.word, WordCode(n, mk, tail));
    Places(mk);
    CutFive(m.cell, mk.word, n.docol, Gen(n, mk.setup, mk.word + 8), CfaOf(n, mk.maker), Gen(n, mk.build, BuildAt(mk)),
            EndCode(n, tail, EndAt(mk)));
  }

  lemma WordFenced(n: Nucleus, lex: Lexicon, mk: Maker, tail: Tail, m: Memory)
    requires mk.ByWord? && Compiled(n, lex, mk, tail, m) && Placing(mk)
    ensures Fenced(lex, mk.word + 8, Size(mk.setup)) && Fenced(lex, BuildAt(mk), Size(mk.build))
    ensures Fenced(lex, EndAt(mk), |EndCode(n, tail, EndAt(mk))|)
  {
    hide CodeAt, Fenced, Known, Covered, Gen, EndCode, WordCode, Size, CfaOf;
    var k, u, v := |WordCode(n, mk, tail)|, Size(mk.setup), Size(mk.build);
    FencedPart(lex, mk.word, k, 1, u);
    FencedPart(lex, mk.word, k, 2 + u, v);
    FencedPart(lex, mk.word, k, 2 + u + v, |EndCode(n, tail, EndAt(mk))|);
  }

  /** Setup and building part stand ready to run. */
  lemma WordParts(n: Nucleus, lex: Lexicon, mk: Maker, tail: Tail, m: Memory)
    requires mk.ByWord? && Compiled(n, lex, mk, tail, m) && Linked(n, lex, m.cell)
    ensures Placing(mk) && EndAt(mk) + 8 * |EndCode(n, tail, EndAt(mk))| < TWO64
    ensures CodeAt(m.cell, mk.word, [n.docol]) && Standing(n, lex, mk.setup, Nth(mk.word, 1), m)
    ensures CodeAt(m.cell, MakerAt(mk), [CfaOf(n, mk.maker)]) && Standing(n, lex, mk.build, BuildAt(mk), m)
    ensures CodeAt(m.cell, EndAt(mk), EndCode(n, tail, EndAt(mk)))
    ensures Fenced(lex, EndAt(mk), |EndCode(n, tail, EndAt(mk))|)
  {
    hide CodeAt, Fenced, Linked, Known, Covered, Gen, EndCode, WordCode, Size, CfaOf, MakerAt, BuildAt, EndAt;
    WordCells(n, lex, mk, tail, m);
    WordFenced(n, lex, mk, tail, m);
  }

  lemma WordCodeIs(n: Nucleus, mk: Maker, tail: Tail)
    requires mk.ByWord?
    ensures WordCode(n, mk, tail) == [n.docol] + Gen(n, mk.setup, mk.word + 8) + [CfaOf(n, mk.maker)]
                                     + Gen(n, mk.build, BuildAt(mk)) + EndCode(n, tail, EndAt(mk))
  {
  }

  lemma CutFive(cell: map<Word, Word>, a: int, d: int, u: seq<int>, c: int, v: seq<int>, z: seq<int>)
    requires CodeAt(cell, a, [d] + u + [c] + v + z)
    ensures CodeAt(cell, a, [d]) && CodeAt(cell, a + 8, u) && CodeAt(cell, a + 8 * (1 + |u|), [c])
    ensures CodeAt(cell, a + 8 * (2 + |u|), v) && CodeAt(cell, a + 8 * (2 + |u| + |v|), z)
    ensures a + 8 * (2 + |u| + |v| + |z|) < TWO64
  {
    hide CodeAt;
    CodeEnds(cell, a, [d] + u + [c] + v + z);
    CodeAtParts(cell, a, [d] + u + [c] + v, z);
    CodeAtParts(cell, a, [d] + u + [c], v);
    CodeAtParts(cell, a, [d] + u, [c]);
    CodeAtParts(cell, a, [d], u);
  }

  /** A maker is called from `s`. */
  ghost predicate CallsMaker(n: Nucleus, lex: Lexicon, mk: Maker, tail: Tail, s: State) {
    && s.Go? && s.wp + 8 < TWO64 && CodeAt(s.m.cell, s.wp, [CfaOf(n, mk)])
    && World(n, lex, s.m) && Compiled(n, lex, mk, tail, s.m)
  }

  /** What has become of memory when the new word is there. */
  ghost predicate Delivered(n: Nucleus, lex: Lexicon, m0: Memory, m: Memory, w: Word) {
    Evolved(n, m0, m) && Spares(lex.code, m0, m) && Nascent(n, m0, m, w)
  }

  lemma CreateBirth(n: Nucleus, lex: Lexicon, s: State, fuel: nat)
    requires CallsMaker(n, lex, ByCreate, NoTail, s) && Birthing(n, lex, ByCreate, s.ps, s.m, |s.rs|, fuel).Born?
    ensures var b := Birthing(n, lex, ByCreate, s.ps, s.m, |s.rs|, fuel);
            Run(n, s, 8) == Go(NextCell(s.wp), b.ps, s.rs, b.m) && Delivered(n, lex, s.m, b.m, b.w)
  {
    hide Run, CodeAt, Defining, Created, Newest, Spares, Evolved, AllStay, Grown, Linked, NameField;
    DefiningPlaced(n, s.m);
    CreateCodeAt(n, s.m);
    CreateRun(n, s);
    CreatedNewest(n, s.m);
    CreatedLatest(n, s.m);
    GrownSpares(n, lex.code, s.m, Created(n, s.m));
  }

  lemma CreatedLatest(n: Nucleus, m: Memory)
    requires CreateFits(n, m)
    ensures Created(n, m).latest == m.here < NewWord(n, m) && NewWord(n, m) + 16 < TWO64
  {
  }

  /** A maker runs: it returns behind the cell that called it, and the new word is there. */
  lemma {:induction false} BirthRun(n: Nucleus, lex: Lexicon, mk: Maker, s: State, fuel: nat) returns (k: nat)
    requires CallsMaker(n, lex, mk, NoTail, s) && Birthing(n, lex, mk, s.ps, s.m, |s.rs|, fuel).Born?
    ensures var b := Birthing(n, lex, mk, s.ps, s.m, |s.rs|, fuel);
            Run(n, s, k) == Go(NextCell(s.wp), b.ps, s.rs, b.m) && Delivered(n, lex, s.m, b.m, b.w)
    decreases mk, 1
  {
    hide Run, CodeAt, Delivered, World, Compiled, Birthing, Step, Loaded;
    if mk.ByCreate? {
      CreateBirth(n, lex, s, fuel);
      return 8;
    }
    var b := Birthing(n, lex, mk, s.ps, s.m, |s.rs|, fuel);
    k := PrefixRun(n, lex, mk, NoTail, s, fuel);
    EndParts(n, lex, mk, NoTail, b.m);
    var t := Go(EndAt(mk), b.ps, [NextCell(s.wp)] + s.rs, b.m);
    ExitHere(n, t);
    OneMore(n, s, k, t);
    assert t.rs[1..] == s.rs;
    k := k + 1;
  }

  lemma ExitHere(n: Nucleus, t: State)
    requires t.Go? && Loaded(n, t.m.cell) && CodeAt(t.m.cell, t.wp, [Cfa(n, Exit)]) && t.rs != []
    ensures Step(n, t) == t.(wp := t.rs[0], rs := t.rs[1..])
  {
    hide Loaded, Step;
    assert [Cfa(n, Exit)][0] == t.m.cell[t.wp + 8 * 0];
    ExitIs(n, t.m.cell);
    RoutineStep(n, t, Exit);
  }

  lemma ExitIs(n: Nucleus, cell: map<Word, Word>)
    requires Loaded(n, cell)
    ensures Exit in n.cfa
  {
  }

  lemma EndParts(n: Nucleus, lex: Lexicon, mk: Maker, tail: Tail, m: Memory)
    requires mk.ByWord? && Compiled(n, lex, mk, tail, m) && World(n, lex, m)
    ensures EndAt(mk) + 8 < TWO64 && Loaded(n, m.cell) && Defining(n, m)
    ensures CodeAt(m.cell, EndAt(mk), EndCode(n, tail, EndAt(mk)))
  {
    hide CodeAt, Loaded, Compiled, Defining, Linked, EndCode;
    WordParts(n, lex, mk, tail, m);
    LinkedLoaded(n, lex, m.cell);
  }

  /** A maker that is a colon word runs up to its end: the new word is there, and the way back on the return stack. */
  lemma {:induction false} PrefixRun(n: Nucleus, lex: Lexicon, mk: Maker, tail: Tail, s: State, fuel: nat)
    returns (k: nat)
    requires mk.ByWord? && CallsMaker(n, lex, mk, tail, s) && Birthing(n, lex, mk, s.ps, s.m, |s.rs|, fuel).Born?
    ensures |s.rs| < n.rcap
    ensures var b := Birthing(n, lex, mk, s.ps, s.m, |s.rs|, fuel);
            && Run(n, s, k) == Go(EndAt(mk), b.ps, [NextCell(s.wp)] + s.rs, b.m)
            && Delivered(n, lex, s.m, b.m, b.w)
            && World(n, lex, b.m) && Compiled(n, lex, mk, tail, b.m)
    decreases mk, 0
  {
    hide Run, CodeAt, Delivered, World, Compiled, Step, Linked, Means, Standing, Keeps, Evolved, Placed;
    var rs := [NextCell(s.wp)] + s.rs;
    var o := Means(n, lex, mk.setup, mk.word + 8, s.ps, s.m, |rs|, fuel);
    var k1 := SetupRun(n, lex, mk, tail, s, fuel);
    var s1 := Go(MakerAt(mk), o.ps, rs, o.m);
    var k2 := BirthRun(n, lex, mk.maker, s1, fuel);
    RunJoin(n, s, k1, s1, k2);
    var b := Birthing(n, lex, mk.maker, o.ps, o.m, |rs|, fuel);
    var s2 := Go(BuildAt(mk), b.ps, rs, b.m);
    var k3 := BuildRun(n, lex, mk, tail, s.m, o.m, s2, b.w, fuel);
    RunJoin(n, s, k1 + k2, s2, k3);
    k := k1 + k2 + k3;
  }

  /** DOCOL and the setup; the machine stands at the cell that calls the inner maker. */
  lemma SetupRun(n: Nucleus, lex: Lexicon, mk: Maker, tail: Tail, s: State, fuel: nat) returns (k: nat)
    requires mk.ByWord? && CallsMaker(n, lex, mk, tail, s) && |s.rs| < n.rcap
    requires Means(n, lex, mk.setup, mk.word + 8, s.ps, s.m, |s.rs| + 1, fuel).Done?
    ensures var o := Means(n, lex, mk.setup, mk.word + 8, s.ps, s.m, |s.rs| + 1, fuel);
            && Placing(mk)
            && var s1 := Go(MakerAt(mk), o.ps, [NextCell(s.wp)] + s.rs, o.m);
               Run(n, s, k) == s1 && CallsMaker(n, lex, mk.maker, NoTail, s1) && Compiled(n, lex, mk, tail, o.m)
               && Evolved(n, s.m, o.m) && Spares(lex.code, s.m, o.m)
  {
    hide Run, CodeAt, Compiled, Step, Linked, Means, Standing, Evolved, Placed, Defining, Spares, AllStay, EndCode;
    var o := Means(n, lex, mk.setup, mk.word + 8, s.ps, s.m, |s.rs| + 1, fuel);
    WordParts(n, lex, mk, tail, s.m);
    CallsAny(n, s, mk.word);
    var s1 := Entered(s, mk.word);
    NoRun(n, s);
    OneMore(n, s, 0, s);
    DefiningPlaced(n, s.m);
    k := ProgRun(n, lex, mk.setup, s1, fuel, o.ps, o.m);
    RunJoin(n, s, 1, s1, k);
    k := k + 1;
    WorldKept(n, lex, s.m, o.m);
    CompiledKept(n, lex, mk, tail, s.m, o.m);
    WordParts(n, lex, mk, tail, o.m);
    InnerCompiled(n, lex, mk, tail, o.m);
  }

  lemma InnerCompiled(n: Nucleus, lex: Lexicon, mk: Maker, tail: Tail, m: Memory)
    requires mk.ByWord? && Compiled(n, lex, mk, tail, m)
    ensures Compiled(n, lex, mk.maker, NoTail, m)
    ensures Known(mk.build, lex) && Covered(mk.build, n)
  {
    hide CodeAt, Fenced, Known, Covered, WordCode;
  }

  /** The building part, run with the new word guarded. */
  lemma BuildRun(n: Nucleus, lex: Lexicon, mk: Maker, tail: Tail, m0: Memory, m1: Memory, s: State, w: Word, fuel: nat)
    returns (k: nat)
    requires mk.ByWord? && s.Go? && s.wp == BuildAt(mk)
    requires Evolved(n, m0, m1) && Spares(lex.code, m0, m1) && World(n, lex, m1) && Compiled(n, lex, mk, tail, m1)
    requires Delivered(n, lex, m1, s.m, w)
    requires Means(n, Guarding(lex, s.m, w), mk.build, BuildAt(mk), s.ps, s.m, |s.rs|, fuel).Done?
    ensures var u := Means(n, Guarding(lex, s.m, w), mk.build, BuildAt(mk), s.ps, s.m, |s.rs|, fuel);
            && Run(n, s, k) == s.(wp := EndAt(mk), ps := u.ps, m := u.m)
            && Delivered(n, lex, m0, u.m, w) && World(n, lex, u.m) && Compiled(n, lex, mk, tail, u.m)
  {
    hide Run, CodeAt, Compiled, Step, Means, Standing, Keeps, World, Nascent, EndCode, Placed, Delivered, Evolved;
    var lex2 := Guarding(lex, s.m, w);
    var u := Means(n, lex2, mk.build, BuildAt(mk), s.ps, s.m, |s.rs|, fuel);
    BuildReady(n, lex, mk, tail, m1, s.m, w);
    k := ProgRun(n, lex2, mk.build, s, fuel, u.ps, u.m);
    BuildKeeps(n, lex, mk, tail, m0, m1, s.m, u.m, w);
  }

  lemma BuildReady(n: Nucleus, lex: Lexicon, mk: Maker, tail: Tail, m1: Memory, m: Memory, w: Word)
    requires mk.ByWord? && World(n, lex, m1) && Compiled(n, lex, mk, tail, m1) && Delivered(n, lex, m1, m, w)
    ensures Standing(n, Guarding(lex, m, w), mk.build, BuildAt(mk), m) && Placing(mk)
    ensures Placed(n, m) && World(n, lex, m) && Compiled(n, lex, mk, tail, m)
  {
    hide CodeAt, Compiled, Standing, Evolved, Spares, World, Nascent, EndCode, Placed, Guarding;
    WorldKept(n, lex, m1, m);
    CompiledKept(n, lex, mk, tail, m1, m);
    WorldGuarding(n, lex, m1, m, w);
    BuildStands(n, lex, mk, tail, m, w);
    WorldPlaced(n, lex, m);
  }

  lemma BuildKeeps(n: Nucleus, lex: Lexicon, mk: Maker, tail: Tail, m0: Memory, m1: Memory, m2: Memory, m3: Memory,
                   w: Word)
    requires Evolved(n, m0, m1) && Spares(lex.code, m0, m1) && Delivered(n, lex, m1, m2, w)
    requires World(n, lex, m2) && Compiled(n, lex, mk, tail, m2)
    requires Keeps(Guarding(lex, m2, w).code, m2, m3) && Evolved(n, m2, m3)
    ensures Delivered(n, lex, m0, m3, w) && World(n, lex, m3) && Compiled(n, lex, mk, tail, m3)
  {
    hide Compiled, Evolved, Spares, World, Nascent, Guarding;
    SparesLess(lex, m2, w, m3);
    WorldKept(n, lex, m2, m3);
    CompiledKept(n, lex, mk, tail, m2, m3);
    NascentKept(n, lex, m1, m2, w, m3);
    NascentOlder(n, m0, m1, m3, w);
    EvolvedTwice(n, m1, m2, m3);
    EvolvedTwice(n, m0, m1, m3);
    SparesTwice(lex.code, m1, m2, m3);
    SparesTwice(lex.code, m0, m1, m3);
  }

  lemma NascentOlder(n: Nucleus, m0: Memory, m1: Memory, m: Memory, w: Word)
    requires Evolved(n, m0, m1) && Nascent(n, m1, m, w)
    ensures Nascent(n, m0, m, w)
  {
    hide Newest, Made, Confined;
  }

  lemma SparesLess(lex: Lexicon, m: Memory, w: Word, m': Memory)
    requires Spares(Guarding(lex, m, w).code, m, m')
    ensures Spares(lex.code, m, m')
  {
  }

  lemma WorldPlaced(n: Nucleus, lex: Lexicon, m: Memory)
    requires World(n, lex, m)
    ensures Placed(n, m) && Linked(n, lex, m.cell) && Defining(n, m)
  {
    hide Linked, Defining, AllStay;
    DefiningPlaced(n, m);
  }

  lemma BuildStands(n: Nucleus, lex: Lexicon, mk: Maker, tail: Tail, m: Memory, w: Word)
    requires mk.ByWord? && Compiled(n, lex, mk, tail, m) && World(n, lex, m) && World(n, Guarding(lex, m, w), m)
    ensures Standing(n, Guarding(lex, m, w), mk.build, BuildAt(mk), m)
    ensures Placing(mk)
  {
    hide CodeAt, Compiled, Linked, EndCode, Known, Covered, Gen;
    WorldPlaced(n, lex, m);
    WorldPlaced(n, Guarding(lex, m, w), m);
    WordParts(n, lex, mk, tail, m);
    InnerCompiled(n, lex, mk, tail, m);
    KnownGuarding(mk.build, lex, m, w);
  }

  /** Where the part behind DOES> starts. */
  function TailAt(mk: Maker): Word {
    NextCell(EndAt(mk))
  }

  /** DOES> at the end of a maker: the new word gets the code behind it, and control is back at the caller. */
  lemma DoesBirth(n: Nucleus, lex: Lexicon, mk: Maker, tail: Tail, s: State, fuel: nat) returns (k: nat)
    requires mk.ByWord? && tail.Does? && CallsMaker(n, lex, mk, tail, s)
    requires Birthing(n, lex, mk, s.ps, s.m, |s.rs|, fuel).Born? && |s.rs| + 1 < n.rcap
    requires |Birthing(n, lex, mk, s.ps, s.m, |s.rs|, fuel).ps| + 3 <= n.pcap
    ensures var b := Birthing(n, lex, mk, s.ps, s.m, |s.rs|, fuel);
            && Delivered(n, lex, s.m, b.m, b.w) && World(n, lex, b.m) && Compiled(n, lex, mk, tail, b.m)
            && Run(n, s, k) == Go(NextCell(s.wp), b.ps, s.rs, Bound(b.m, b.w, TailAt(mk)))
  {
    hide Run, CodeAt, World, Compiled, Birthing, Step, Delivered, Bound, Newest, Calls, NextCell;
    var b := Birthing(n, lex, mk, s.ps, s.m, |s.rs|, fuel);
    k := PrefixRun(n, lex, mk, tail, s, fuel);
    var t := Go(EndAt(mk), b.ps, [NextCell(s.wp)] + s.rs, b.m);
    CallsDoes(n, lex, mk, tail, t);
    DeliveredNewest(n, lex, s.m, b.m, b.w);
    DoesRun(n, t, b.w, NextCell(s.wp), s.rs);
    RunJoin(n, s, k, t, 18);
    k := k + 18;
  }

  lemma DeliveredNewest(n: Nucleus, lex: Lexicon, m0: Memory, m: Memory, w: Word)
    requires Delivered(n, lex, m0, m, w)
    ensures Newest(n, m, w)
  {
    hide Newest;
  }

  lemma CallsDoes(n: Nucleus, lex: Lexicon, mk: Maker, tail: Tail, t: State)
    requires mk.ByWord? && tail.Does? && t.Go? && t.wp == EndAt(mk)
    requires World(n, lex, t.m) && Compiled(n, lex, mk, tail, t.m)
    ensures Calls(n, t, n.does, DoesCode(n))
  {
    hide CodeAt, World, Compiled, Defining, Loaded, Gen;
    EndParts(n, lex, mk, tail, t.m);
    DoesFirst(n, t.m.cell, tail, EndAt(mk));
    CreateCodeAt(n, t.m);
  }

  lemma DoesFirst(n: Nucleus, cell: map<Word, Word>, tail: Tail, a: int)
    requires tail.Does? && CodeAt(cell, a, EndCode(n, tail, a))
    ensures CodeAt(cell, a, [n.does]) && CodeAt(cell, a + 8, Gen(n, tail.prog, a + 8))
    ensures CodeAt(cell, a + 8 + 8 * Size(tail.prog), [Cfa(n, Exit)])
  {
    hide CodeAt, Gen;
    CodeAtParts(cell, a, [n.does] + Gen(n, tail.prog, a + 8), [Cfa(n, Exit)]);
    CodeAtParts(cell, a, [n.does], Gen(n, tail.prog, a + 8));
  }

  /** Binding the code pointer of a word that was not there before changes no code. */
  lemma BoundSpares(n: Nucleus, lex: Lexicon, m0: Memory, m: Memory, w: Word, at: Word)
    requires World(n, lex, m0) && Delivered(n, lex, m0, m, w)
    ensures Spares(lex.code, m0, Bound(m, w, at)) && Evolved(n, m0, Bound(m, w, at))
    ensures Made(n, Bound(m, w, at), w, at) && Bound(m, w, at).here == m.here
  {
    hide Defining, Linked, Confined;
    BoundConfined(n, m, w, at);
    ConfinedTwice(n, m0, m, Bound(m, w, at));
    assert w + 8 !in lex.code;
  }
}
