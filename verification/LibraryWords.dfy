/**
 * The defining words of the library: VARIABLE, CONSTANT and ARRAY, and the word for values that the engine gives as its
 * example of DOES>. What each of them makes, and what the words they have made do at the end of any session.
 */
module LibraryWords {
  import opened Words
  import opened Machine
  import opened ControlFlow
  import opened Simulation
  import opened DefiningWords
  import opened Definers
  import opened Definitions

  /** `: VARIABLE CREATE 0 , ;` */
  function Variable(word: Word): Maker {
    ByWord(word, Skip, ByCreate, Seq(Literal(0), Access(Comma)))
  }

  /** `: CONSTANT CREATE , DOES> @ ;` */
  function Constant(word: Word): Maker {
    ByWord(word, Skip, ByCreate, Access(Comma))
  }

  /** `: ARRAY CREATE ALLOT ;` */
  function Array(word: Word): Maker {
    ByWord(word, Skip, ByCreate, Access(Allot))
  }

  /** `: VAL VARIABLE DOES> @ ;` */
  function Value(word: Word, variable: Word): Maker {
    ByWord(word, Skip, Variable(variable), Skip)
  }

  const FETCHING := Does(Access(Fetch))

  /** The cells that these definitions are compiled to. */
  lemma LibraryCode(n: Nucleus, a: Word, v: Word)
    ensures WordCode(n, Variable(a), NoTail) == [n.docol, n.create, Cfa(n, Lit), 0, Cfa(n, Comma), Cfa(n, Exit)]
    ensures WordCode(n, Constant(a), FETCHING)
         == [n.docol, n.create, Cfa(n, Comma), n.does, Cfa(n, Fetch), Cfa(n, Exit)]
    ensures WordCode(n, Array(a), NoTail) == [n.docol, n.create, Cfa(n, Allot), Cfa(n, Exit)]
    ensures WordCode(n, Value(a, v), FETCHING) == [n.docol, v, n.does, Cfa(n, Fetch), Cfa(n, Exit)]
  {
    hide Gen, Cfa, WordCode, EndCode;
    PartCodes(n, BuildAt(Variable(a)));
    EndCodes(n, EndAt(Variable(a)));
    WordCodeIs(n, Variable(a), NoTail);
    PartCodes(n, BuildAt(Constant(a)));
    EndCodes(n, EndAt(Constant(a)));
    WordCodeIs(n, Constant(a), FETCHING);
    PartCodes(n, BuildAt(Array(a)));
    EndCodes(n, EndAt(Array(a)));
    WordCodeIs(n, Array(a), NoTail);
    PartCodes(n, BuildAt(Value(a, v)));
    EndCodes(n, EndAt(Value(a, v)));
    WordCodeIs(n, Value(a, v), FETCHING);
    PartCodes(n, a + 8);
  }

  lemma PartCodes(n: Nucleus, a: int)
    ensures Gen(n, Skip, a) == [] && Gen(n, Access(Comma), a) == [Cfa(n, Comma)]
    ensures Gen(n, Access(Allot), a) == [Cfa(n, Allot)] && Gen(n, Access(Fetch), a) == [Cfa(n, Fetch)]
    ensures Gen(n, Seq(Literal(0), Access(Comma)), a) == [Cfa(n, Lit), 0, Cfa(n, Comma)]
  {
    hide Cfa;
    SeqGen(n, Seq(Literal(0), Access(Comma)), a);
  }

  lemma EndCodes(n: Nucleus, a: int)
    ensures EndCode(n, NoTail, a) == [Cfa(n, Exit)]
    ensures EndCode(n, FETCHING, a) == [n.does, Cfa(n, Fetch), Cfa(n, Exit)]
  {
    hide Cfa, Gen;
    PartCodes(n, a + 8);
  }

  /** A maker that starts with CREATE: only its building part decides about the parameter field. */
  lemma CreateFirst(n: Nucleus, lex: Lexicon, mk: Maker, ps: seq<Word>, m: Memory, depth: nat, fuel: nat)
    requires mk.ByWord? && mk.setup == Skip && mk.maker == ByCreate
    requires Birthing(n, lex, mk, ps, m, depth, fuel).Born?
    ensures CreateFits(n, m)
    ensures var b, c, w := Birthing(n, lex, mk, ps, m, depth, fuel), Created(n, m), NewWord(n, m);
      && b.w == w && c.here == w + 16 && w + 16 < TWO64
      && Means(n, Guarding(lex, c, w), mk.build, BuildAt(mk), ps, c, depth + 1, fuel) == Done(b.ps, b.m)
  {
    hide NameField, Guarding;
    MeansSkip(n, lex, mk.word + 8, ps, m, depth + 1, fuel);
    assert Birthing(n, lex, ByCreate, ps, m, depth + 1, fuel).Born?;
  }

  lemma MeansSkip(n: Nucleus, lex: Lexicon, a: int, ps: seq<Word>, m: Memory, depth: nat, fuel: nat)
    ensures var o := Means(n, lex, Skip, a, ps, m, depth, fuel); o.Done? ==> o == Done(ps, m)
  {
  }

  /** `,` takes the top of the stack into the cell at HERE. */
  lemma MeansComma(n: Nucleus, lex: Lexicon, a: int, ps: seq<Word>, m: Memory, depth: nat, fuel: nat)
    ensures var o := Means(n, lex, Access(Comma), a, ps, m, depth, fuel);
      o.Done? ==> && ps != [] && o.ps == ps[1..] && m.here + 8 < TWO64
                  && o.m == m.(cell := m.cell[m.here := ps[0]], here := m.here + 8)
  {
    hide Linkable;
  }

  lemma MeansZero(n: Nucleus, lex: Lexicon, a: int, ps: seq<Word>, m: Memory, depth: nat, fuel: nat)
    ensures var o := Means(n, lex, Seq(Literal(0), Access(Comma)), a, ps, m, depth, fuel);
      o.Done? ==> && o.ps == ps && m.here + 8 < TWO64
                  && o.m == m.(cell := m.cell[m.here := 0], here := m.here + 8)
  {
    hide Linkable, AccessOutcome, Eval;
    var p := Seq(Literal(0), Access(Comma));
    if 0 <= a && a + 8 * Size(p) < TWO64 && Linkable(lex) && Known(p, lex) {
      ZeroFirst(n, lex, a, ps, m, depth, fuel);
      MeansComma(n, lex, a + 16, [0] + ps, m, depth, fuel);
      assert ([0] + ps)[1..] == ps;
    }
  }

  lemma ZeroFirst(n: Nucleus, lex: Lexicon, a: Word, ps: seq<Word>, m: Memory, depth: nat, fuel: nat)
    requires a + 24 < TWO64 && Linkable(lex)
    ensures var o := Eval(n, lex, Seq(Literal(0), Access(Comma)), a, ps, m, depth, fuel);
      o.Done? ==> o == Eval(n, lex, Access(Comma), a + 16, [0] + ps, m, depth, fuel)
  {
    hide Linkable, AccessOutcome;
    var zero := [0];
    assert zero[1..] == [] && Literals(n, [], zero + ps, m) == Done(zero + ps, m);
    assert Eval(n, lex, Literal(0), a, ps, m, depth, fuel) == Literals(n, zero, ps, m);
  }

  /** ALLOT moves HERE by the cells that it reserves. */
  lemma MeansAllot(n: Nucleus, lex: Lexicon, a: int, ps: seq<Word>, m: Memory, depth: nat, fuel: nat)
    ensures var o := Means(n, lex, Access(Allot), a, ps, m, depth, fuel);
      o.Done? ==> ps != [] && !IsNegative(ps[0]) && o.ps == ps[1..] && o.m.here == m.here + 8 * Reserved(ps[0])
  {
    hide Linkable, IsNegative, Reserved, WriteCells;
  }

  /** VARIABLE leaves the stack alone and makes one field, which holds zero. */
  lemma VariableMakes(n: Nucleus, d: Definition, word: Word)
    requires Makes(n, d) && d.maker == Variable(word) && d.tail == NoTail
    ensures d.s.Go? && d.fields == [0] && d.rest == d.s.ps
  {
    hide Compiled, CodeAt, Created, Means, Birthing;
    CreateFirst(n, d.lex, d.maker, d.s.ps, d.s.m, |d.s.rs|, d.fuel);
    var c, w := Created(n, d.s.m), NewWord(n, d.s.m);
    MeansZero(n, Guarding(d.lex, c, w), BuildAt(d.maker), d.s.ps, c, |d.s.rs| + 1, d.fuel);
    OneField(d, 0);
  }

  lemma OneField(d: Definition, x: Word)
    requires Holds(d.m, d.w + 16, d.fields) && d.m.here == EndOf(d) == d.w + 24
    requires d.w + 16 in d.m.cell && d.m.cell[d.w + 16] == x
    ensures d.fields == [x]
  {
    assert d.w + 16 + 8 * 0 in d.m.cell;
  }

  /** CONSTANT takes the number on top of the stack into the one field. */
  lemma ConstantMakes(n: Nucleus, d: Definition, word: Word)
    requires Makes(n, d) && d.maker == Constant(word) && d.tail == FETCHING
    ensures d.s.Go? && d.s.ps != [] && d.fields == [d.s.ps[0]] && d.rest == d.s.ps[1..]
  {
    hide Compiled, CodeAt, Created, Means, Birthing;
    CreateFirst(n, d.lex, d.maker, d.s.ps, d.s.m, |d.s.rs|, d.fuel);
    var c, w := Created(n, d.s.m), NewWord(n, d.s.m);
    MeansComma(n, Guarding(d.lex, c, w), BuildAt(d.maker), d.s.ps, c, |d.s.rs| + 1, d.fuel);
    OneField(d, d.s.ps[0]);
  }

  /** ARRAY makes as many fields as asked for exactly if they are fewer than 2^60; ALLOT drops the upper three bits. */
  lemma ArrayMakes(n: Nucleus, d: Definition, word: Word)
    requires Makes(n, d) && d.maker == Array(word) && d.tail == NoTail
    ensures d.s.Go? && d.s.ps != [] && d.rest == d.s.ps[1..]
    ensures |d.fields| == d.s.ps[0] % TWO61 && (|d.fields| == d.s.ps[0] <==> d.s.ps[0] < TWO60)
  {
    hide Compiled, CodeAt, Created, Means, Birthing, IsNegative, Reserved, Holds;
    CreateFirst(n, d.lex, d.maker, d.s.ps, d.s.m, |d.s.rs|, d.fuel);
    var c, w := Created(n, d.s.m), NewWord(n, d.s.m);
    MeansAllot(n, Guarding(d.lex, c, w), BuildAt(d.maker), d.s.ps, c, |d.s.rs| + 1, d.fuel);
    AllotIsModulo(d.s.ps[0]);
  }

  /** VAL makes what VARIABLE makes. */
  lemma ValueMakes(n: Nucleus, d: Definition, word: Word, variable: Word)
    requires Makes(n, d) && d.maker == Value(word, variable) && d.tail == FETCHING
    ensures d.s.Go? && d.fields == [0] && d.rest == d.s.ps
  {
    hide Compiled, CodeAt, Created, Means, Birthing;
    var v := Variable(variable);
    ValueBirth(n, d.lex, word, v, d.s.ps, d.s.m, |d.s.rs|, d.fuel);
    CreateFirst(n, d.lex, v, d.s.ps, d.s.m, |d.s.rs| + 1, d.fuel);
    var c, w := Created(n, d.s.m), NewWord(n, d.s.m);
    MeansZero(n, Guarding(d.lex, c, w), BuildAt(v), d.s.ps, c, |d.s.rs| + 2, d.fuel);
    OneField(d, 0);
  }

  lemma ValueBirth(n: Nucleus, lex: Lexicon, word: Word, mk: Maker, ps: seq<Word>, m: Memory, depth: nat, fuel: nat)
    requires var b := Birthing(n, lex, ByWord(word, Skip, mk, Skip), ps, m, depth, fuel); b.Born?
    ensures Birthing(n, lex, mk, ps, m, depth + 1, fuel)
         == Birthing(n, lex, ByWord(word, Skip, mk, Skip), ps, m, depth, fuel)
  {
    hide Guarding, Means;
    MeansSkip(n, lex, word + 8, ps, m, depth + 1, fuel);
    var b := Birthing(n, lex, mk, ps, m, depth + 1, fuel);
    if b.Born? {
      MeansSkip(n, Guarding(lex, b.m, b.w), BuildAt(ByWord(word, Skip, mk, Skip)), b.ps, b.m, depth + 1, fuel);
    }
  }

  /** `@` on the address of a field that is there. */
  lemma FetchField(n: Nucleus, lex: Lexicon, a: Word, at: Word, ps: seq<Word>, m: Memory, depth: nat, fuel: nat)
    requires a in m.cell && a != n.latestVar && at + 8 < TWO64 && Linkable(lex)
    ensures Eval(n, lex, Access(Fetch), at, [a] + ps, m, depth, fuel) == Done([m.cell[a]] + ps, m)
  {
    hide Linkable;
    assert ([a] + ps)[1..] == ps;
  }

  lemma LatestNoCell(n: Nucleus, lex: Lexicon, m: Memory)
    requires World(n, lex, m)
    ensures n.latestVar !in m.cell
  {
    hide Linked, AllStay, Loaded, CodeAt;
  }

  lemma FirstField(n: Nucleus, d: Definition, lex: Lexicon, m: Memory)
    requires Stands(n, d, lex, m) && d.fields != [] && d.w + 16 < TWO64
    ensures d.w + 16 in m.cell && (d.fixed ==> m.cell[d.w + 16] == d.fields[0])
  {
    hide HasTail, Made, Owned;
    assert d.w + 16 + 8 * 0 in m.cell;
  }

  /** What a word with a field does when it is called from `s`: its overflows, or `x` pushed. */
  function Pushing(n: Nucleus, s: State, tail: Tail, x: Word): State {
    if s.Stop? then s
    else if |s.ps| >= n.pcap then Stop(StackOverflow)
    else if tail.Does? && |s.rs| >= n.rcap then Stop(ReturnOverflow)
    else s.(wp := NextCell(s.wp), ps := [x] + s.ps)
  }

  /** The word that `d` made in a session is called from `s` at the end of it. */
  ghost predicate CallsAfter(n: Nucleus, lex: Lexicon, m: Memory, ds: seq<Definition>, lex2: Lexicon, m2: Memory,
                             d: Definition, s: State) {
    World(n, lex, m) && Session(n, lex, m, ds, lex2, m2) && d in ds && CallsWord(d, m2, s)
  }

  /** It stands, then, and the call does what its tail means. */
  lemma CalledAfter(n: Nucleus, lex: Lexicon, m: Memory, ds: seq<Definition>, lex2: Lexicon, m2: Memory, d: Definition,
                    s: State) returns (k: nat, t: State)
    requires CallsAfter(n, lex, m, ds, lex2, m2, d, s)
    ensures World(n, lex2, m2) && Stands(n, d, lex2, m2) && Makes(n, d) && d.w + 16 < TWO64 && s.Go?
    ensures MeansTail(n, lex2, d, s, 0, k, t)
  {
    hide World, Session, Stands, Makes, MeansTail;
    var i :| 0 <= i < |ds| && ds[i] == d;
    var _ := WordStands(n, lex, m, ds, lex2, m2, i);
    WordInSpace(n, d, lex2, m2);
    k, t := StandingRun(n, d, lex2, m2, s, 0);
  }

  /** At the end of any session, a word with `@` behind DOES> pushes what its first field then holds. */
  lemma FetchingPushes(n: Nucleus, lex: Lexicon, m: Memory, ds: seq<Definition>, lex2: Lexicon, m2: Memory,
                       d: Definition, s: State) returns (k: nat)
    requires CallsAfter(n, lex, m, ds, lex2, m2, d, s) && d.tail == FETCHING && d.fields != []
    ensures d.w + 16 in m2.cell && (d.fixed ==> m2.cell[d.w + 16] == d.fields[0])
    ensures Run(n, s, k) == Pushing(n, s, FETCHING, m2.cell[d.w + 16])
  {
    hide World, Run, Stands, Session, CodeAt, Path, Eval, Linkable, Makes;
    var t;
    k, t := CalledAfter(n, lex, m, ds, lex2, m2, d, s);
    FirstField(n, d, lex2, m2);
    LatestNoCell(n, lex2, m2);
    FetchField(n, lex2, d.w + 16, TailOf(d), s.ps, m2, |s.rs| + 1, 0);
    PathRuns(n, s, k, t, Region(s.wp, s.wp + 8, s.rs), 0);
  }

  /** So a constant pushes its number, whatever has been made and done since. */
  lemma ConstantPushes(n: Nucleus, lex: Lexicon, m: Memory, ds: seq<Definition>, lex2: Lexicon, m2: Memory,
                       d: Definition, word: Word, s: State) returns (k: nat)
    requires CallsAfter(n, lex, m, ds, lex2, m2, d, s)
    requires d.maker == Constant(word) && d.tail == FETCHING && d.fixed
    ensures d.s.Go? && d.s.ps != [] && Run(n, s, k) == Pushing(n, s, FETCHING, d.s.ps[0])
  {
    hide World, Run, Stands, Makes, Pushing, CallsAfter, MeansTail;
    var _, _ := CalledAfter(n, lex, m, ds, lex2, m2, d, s);
    ConstantMakes(n, d, word);
    k := FetchingPushes(n, lex, m, ds, lex2, m2, d, s);
  }

  /** A variable or an array pushes the address of its own first field. */
  lemma AddressPushes(n: Nucleus, lex: Lexicon, m: Memory, ds: seq<Definition>, lex2: Lexicon, m2: Memory,
                      d: Definition, s: State) returns (k: nat)
    requires CallsAfter(n, lex, m, ds, lex2, m2, d, s) && d.tail == NoTail
    ensures Nth(d.w, 2) == d.w + 16 && Run(n, s, k) == Pushing(n, s, NoTail, Nth(d.w, 2))
    ensures Exist(m2, d.w + 16, |d.fields|)
  {
    hide World, Run, Stands, Session, CodeAt, Path, Linkable, Makes, Exist;
    var t;
    k, t := CalledAfter(n, lex, m, ds, lex2, m2, d, s);
    StandsExist(n, d, lex2, m2);
    PathRuns(n, s, k, t, Region(s.wp, s.wp + 8, s.rs), 0);
  }

  lemma StandsExist(n: Nucleus, d: Definition, lex: Lexicon, m: Memory)
    requires Stands(n, d, lex, m)
    ensures Exist(m, d.w + 16, |d.fields|)
  {
    hide HasTail, Made, Owned, Holds, Exist;
  }
}
