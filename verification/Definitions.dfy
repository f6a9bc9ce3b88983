/**
 * Sessions: any number of words made one after the other, while other words are compiled and programs run between them.
 * Every word made keeps its header, shares no cell with the parameter field of another one, and means its tail from
 * then on; its fields hold what they were given unless they are open to stores.
 */
module Definitions {
  import opened Words
  import opened Machine
  import opened ControlFlow
  import opened Simulation
  import opened Widening
  import opened DefiningWords
  import opened Definers

  /**
   * A word is made by `maker`, called from `s` with the colon words of `lex` compiled; this leaves the stack `rest` and
   * the memory `m`, in which the new word is at `w` with its parameter field. If `fixed`, later programs are not to
   * change the fields.
   */
  datatype Definition = Definition(lex: Lexicon, maker: Maker, tail: Tail, s: State, fuel: nat,
                                   rest: seq<Word>, m: Memory, w: Word, fields: seq<Word>, fixed: bool)

  /** The code the new word leads to: that behind DOES>, or none. */
  function TailOf(d: Definition): Word {
    if d.tail.Does? then TailAt(d.maker) else 0
  }

  function ProgOf(d: Definition): Prog {
    if d.tail.Does? then d.tail.prog else Skip
  }

  /** The address behind its parameter field. */
  function EndOf(d: Definition): int {
    d.w + 16 + 8 * |d.fields|
  }

  /** The memory the definition leaves, */
  function Leaving(d: Definition): Memory {
    if d.tail.Does? then Bound(d.m, d.w, TailOf(d)) else d.m
  }

  /** and the cells that are not to be changed from then on. */
  function Owned(d: Definition): set<Word> {
    Span(d.w, 2 + if d.fixed then |d.fields| else 0)
  }

  function Owning(d: Definition): Lexicon {
    Lexicon(d.lex.body, d.lex.code + Owned(d))
  }

  /** The maker is called, and the new word is what comes of it; DOES> needs a little room more. */
  ghost predicate Makes(n: Nucleus, d: Definition) {
    && d.s.Go? && d.s.wp + 8 < TWO64 && CodeAt(d.s.m.cell, d.s.wp, [CfaOf(n, d.maker)])
    && Compiled(n, d.lex, d.maker, d.tail, d.s.m)
    && Birthing(n, d.lex, d.maker, d.s.ps, d.s.m, |d.s.rs|, d.fuel) == Born(d.rest, d.m, d.w)
    && (d.tail.Does? ==> |d.s.rs| + 1 < n.rcap && |d.rest| + 3 <= n.pcap)
    && d.m.here == EndOf(d) && Holds(d.m, d.w + 16, d.fields)
  }

  /**
   * Life goes on: programs run that change no cell of code, the dictionary grows, and colon words are added where what
   * is compiled later does not reach them.
   */
  ghost predicate Lives(n: Nucleus, lex: Lexicon, m: Memory, lex2: Lexicon, m2: Memory) {
    && Evolved(n, m, m2) && Spares(lex.code, m, m2)
    && Joins(n, lex, lex2, m2.cell) && AllStay(n, lex2.code, m2)
  }

  /** Life leads through the definitions `ds` from `m` with the words of `lex` to `m2` with those of `lex2`. */
  ghost predicate Session(n: Nucleus, lex: Lexicon, m: Memory, ds: seq<Definition>, lex2: Lexicon, m2: Memory)
    decreases |ds|
  {
    if ds == [] then Lives(n, lex, m, lex2, m2)
    else
      && ds[0].s.Go? && Makes(n, ds[0]) && Lives(n, lex, m, ds[0].lex, ds[0].s.m)
      && Session(n, Owning(ds[0]), Leaving(ds[0]), ds[1..], lex2, m2)
  }

  /** There are `k` cells from `a` on. */
  ghost predicate Exist(m: Memory, a: int, k: nat) {
    forall i :: 0 <= i < k ==> a + 8 * i in m.cell
  }

  /** The word made by `d` stands in memory `m`, with its tail, and with its fields if these are fixed. */
  ghost predicate Stands(n: Nucleus, d: Definition, lex: Lexicon, m: Memory) {
    && Made(n, m, d.w, TailOf(d)) && EndOf(d) <= m.here && Exist(m, d.w + 16, |d.fields|)
    && (d.fixed ==> Holds(m, d.w + 16, d.fields))
    && Owned(d) <= lex.code && (d.tail.Does? ==> HasTail(n, lex, m, TailOf(d), d.tail.prog))
  }

  lemma LivesWorld(n: Nucleus, lex: Lexicon, m: Memory, lex2: Lexicon, m2: Memory)
    requires World(n, lex, m) && Lives(n, lex, m, lex2, m2)
    ensures World(n, lex2, m2)
  {
    hide Defining, Linked, Evolved, Spares, AllStay, Joins;
    EvolvedDefining(n, m, m2);
    SparesLinked(n, lex, m, m2);
    JoinsLinked(n, lex, lex2, m2.cell);
  }

  /** A tail that stands goes on standing. */
  lemma TailLives(n: Nucleus, lex: Lexicon, m: Memory, lex2: Lexicon, m2: Memory, at: Word, p: Prog)
    requires HasTail(n, lex, m, at, p) && Lives(n, lex, m, lex2, m2) && World(n, lex2, m2)
    ensures HasTail(n, lex2, m2, at, p)
  {
    hide Defining, Linked, Evolved, Spares, AllStay, CodeAt, Fenced, Known, Covered, Gen;
    SparesCode(lex, m, m2, at, Gen(n, p, at));
    SparesCode(lex, m, m2, at + 8 * Size(p), [Cfa(n, Exit)]);
    FencedWithin(lex, lex2, at, Size(p));
    FencedWithin(lex, lex2, at + 8 * Size(p), 1);
    KnownWithin(p, lex, lex2);
  }

  lemma StandsLives(n: Nucleus, d: Definition, lex: Lexicon, m: Memory, lex2: Lexicon, m2: Memory)
    requires Stands(n, d, lex, m) && Lives(n, lex, m, lex2, m2) && World(n, lex2, m2)
    ensures Stands(n, d, lex2, m2)
  {
    hide HasTail, World, Joins, AllStay, Made, Holds, Spares, Owned, Exist;
    if d.tail.Does? {
      TailLives(n, lex, m, lex2, m2, TailOf(d), d.tail.prog);
    }
    OwnedKept(n, d, lex, m, m2);
    JoinsWithin(n, lex, lex2, m2.cell);
  }

  lemma OwnedKept(n: Nucleus, d: Definition, lex: Lexicon, m: Memory, m2: Memory)
    requires Owned(d) <= lex.code && Spares(lex.code, m, m2) && Evolved(n, m, m2)
    requires Made(n, m, d.w, TailOf(d)) && EndOf(d) <= m.here < TWO64 && Exist(m, d.w + 16, |d.fields|)
    requires d.fixed ==> Holds(m, d.w + 16, d.fields)
    ensures Made(n, m2, d.w, TailOf(d)) && Exist(m2, d.w + 16, |d.fields|)
    ensures d.fixed ==> Holds(m2, d.w + 16, d.fields)
  {
    hide Confined;
    assert InSpan(d.w, d.w, 2 + if d.fixed then |d.fields| else 0) && d.w in Owned(d);
    assert InSpan(d.w + 8, d.w, 2 + if d.fixed then |d.fields| else 0) && d.w + 8 in Owned(d);
    if d.fixed {
      forall i | 0 <= i < |d.fields|
        ensures d.w + 16 + 8 * i in m2.cell && m2.cell[d.w + 16 + 8 * i] == d.fields[i]
      {
        assert InSpan(d.w + 16 + 8 * i, d.w, 2 + |d.fields|) && d.w + 16 + 8 * i in Owned(d);
      }
    }
  }

  lemma LivesTwice(n: Nucleus, lex: Lexicon, m: Memory, lex1: Lexicon, m1: Memory, lex2: Lexicon, m2: Memory)
    requires Lives(n, lex, m, lex1, m1) && Lives(n, lex1, m1, lex2, m2) && World(n, lex1, m1) && World(n, lex2, m2)
    ensures Lives(n, lex, m, lex2, m2)
  {
    hide World, AllStay, Evolved, Joined, Spares;
    EvolvedTwice(n, m, m1, m2);
    SparesFewer(lex.code, lex1.code, m1, m2);
    SparesTwice(lex.code, m, m1, m2);
    forall c <- lex2.body
      ensures Joined(n, lex2, c, m2.cell)
    {
      LinkedJoined(n, lex2, c, m2);
    }
  }

  lemma SparesFewer(code: set<Word>, code2: set<Word>, m: Memory, m2: Memory)
    requires code <= code2 && Spares(code2, m, m2)
    ensures Spares(code, m, m2)
  {
  }

  lemma LinkedJoined(n: Nucleus, lex: Lexicon, c: Word, m: Memory)
    requires World(n, lex, m) && c in lex.body
    ensures Joined(n, lex, c, m.cell)
  {
    hide Defining, AllStay, CodeAt, Fenced, Loaded, Known, Covered;
  }

  /** The cells of the new word are its own. */
  lemma OwningLives(n: Nucleus, d: Definition, m: Memory)
    requires d.s.Go? && World(n, d.lex, d.s.m) && Evolved(n, d.s.m, m) && Spares(d.lex.code, d.s.m, m)
    requires n.org <= d.w && EndOf(d) <= m.here < TWO64
    ensures Lives(n, d.lex, d.s.m, Owning(d), m)
  {
    hide Defining, Linked, Confined, Spares;
    forall a <- Owned(d)
      ensures a < m.here
    {
      assert InSpan(a, d.w, 2 + if d.fixed then |d.fields| else 0);
    }
  }

  /** One definition: control is back at its caller, and the word stands. */
  lemma DefinitionRun(n: Nucleus, d: Definition) returns (k: nat)
    requires d.s.Go? && Makes(n, d) && World(n, d.lex, d.s.m)
    ensures Run(n, d.s, k) == Go(NextCell(d.s.wp), d.rest, d.s.rs, Leaving(d))
    ensures Lives(n, d.lex, d.s.m, Owning(d), Leaving(d)) && World(n, Owning(d), Leaving(d))
    ensures Stands(n, d, Owning(d), Leaving(d)) && d.s.m.here < d.w && Leaving(d).here == EndOf(d)
  {
    hide Run, World, Compiled, Birthing, CodeAt, Delivered, Lives, Owned, HasTail, Holds, Made, Bound, Exist;
    if d.tail.Does? {
      DoesByWord(n, d.lex, d.maker, d.tail, d.s.m);
      k := DoesBirth(n, d.lex, d.maker, d.tail, d.s, d.fuel);
    } else {
      assert d.tail == NoTail;
      k := BirthRun(n, d.lex, d.maker, d.s, d.fuel);
    }
    Lasting(n, d);
    LivesWorld(n, d.lex, d.s.m, Owning(d), Leaving(d));
    if d.tail.Does? {
      TailThere(n, d);
    }
  }

  lemma DoesByWord(n: Nucleus, lex: Lexicon, mk: Maker, tail: Tail, m: Memory)
    requires Compiled(n, lex, mk, tail, m) && tail.Does?
    ensures mk.ByWord?
  {
    hide CodeAt, Fenced, Known, Covered, WordCode;
  }

  /** What the definition leaves in memory lasts. */
  lemma Lasting(n: Nucleus, d: Definition)
    requires d.s.Go? && Makes(n, d) && World(n, d.lex, d.s.m) && Delivered(n, d.lex, d.s.m, d.m, d.w)
    ensures Lives(n, d.lex, d.s.m, Owning(d), Leaving(d)) && Made(n, Leaving(d), d.w, TailOf(d))
    ensures d.s.m.here < d.w && Leaving(d).here == EndOf(d) && Holds(Leaving(d), d.w + 16, d.fields)
    ensures Exist(Leaving(d), d.w + 16, |d.fields|)
    ensures Owned(d) <= Owning(d).code
  {
    hide World, Compiled, Birthing, CodeAt, Lives, Owned, Evolved, Spares, Bound, Delivered, Made, Holds, Exist;
    DeliveredWord(n, d.lex, d.s.m, d.m, d.w);
    if d.tail.Does? {
      BoundSpares(n, d.lex, d.s.m, d.m, d.w, TailOf(d));
      BoundHolds(d.m, d.w, TailOf(d), d.fields);
    }
    OwningLives(n, d, Leaving(d));
    HeldExist(Leaving(d), d.w + 16, d.fields);
  }

  lemma HeldExist(m: Memory, a: int, ws: seq<Word>)
    requires Holds(m, a, ws)
    ensures Exist(m, a, |ws|)
  {
  }

  lemma DeliveredWord(n: Nucleus, lex: Lexicon, m0: Memory, m: Memory, w: Word)
    requires Delivered(n, lex, m0, m, w)
    ensures m0.here < w && n.org <= w && w + 16 < TWO64 && Made(n, m, w, 0)
    ensures Spares(lex.code, m0, m) && Evolved(n, m0, m)
  {
    hide Spares, Evolved, Newest;
  }

  lemma BoundHolds(m: Memory, w: Word, at: Word, fields: seq<Word>)
    requires Holds(m, w + 16, fields) && w + 16 < TWO64
    ensures Holds(Bound(m, w, at), w + 16, fields)
  {
  }

  /** The part behind DOES> stands where the code pointer leads. */
  lemma TailThere(n: Nucleus, d: Definition)
    requires d.s.Go? && Makes(n, d) && d.tail.Does? && World(n, d.lex, d.s.m)
    requires Lives(n, d.lex, d.s.m, Owning(d), Leaving(d)) && World(n, Owning(d), Leaving(d))
    ensures HasTail(n, Owning(d), Leaving(d), TailOf(d), d.tail.prog)
  {
    hide World, Birthing, CodeAt, Lives, Owned, HasTail, Compiled, Leaving;
    DoesByWord(n, d.lex, d.maker, d.tail, d.s.m);
    TailInCode(n, d.lex, d.maker, d.tail, d.s.m);
    TailLives(n, d.lex, d.s.m, Owning(d), Leaving(d), TailOf(d), d.tail.prog);
  }

  lemma TailInCode(n: Nucleus, lex: Lexicon, mk: Maker, tail: Tail, m: Memory)
    requires mk.ByWord? && tail.Does? && Compiled(n, lex, mk, tail, m) && World(n, lex, m)
    ensures HasTail(n, lex, m, TailAt(mk), tail.prog)
  {
    hide Linked, CodeAt, Fenced, Known, Covered, Defining, AllStay, Gen;
    WordParts(n, lex, mk, tail, m);
    DoesFirst(n, m.cell, tail, EndAt(mk));
    FencedPart(lex, EndAt(mk), Size(tail.prog) + 2, 1, Size(tail.prog));
    FencedPart(lex, EndAt(mk), Size(tail.prog) + 2, 1 + Size(tail.prog), 1);
  }

  /** A whole session is life going on. */
  lemma {:induction false} SessionLives(n: Nucleus, lex: Lexicon, m: Memory, ds: seq<Definition>, lex2: Lexicon,
                                        m2: Memory)
    requires World(n, lex, m) && Session(n, lex, m, ds, lex2, m2)
    ensures Lives(n, lex, m, lex2, m2) && World(n, lex2, m2)
    decreases |ds|
  {
    hide World, Lives, Makes, Stands, Run, Leaving, Owning;
    if ds == [] {
      LivesWorld(n, lex, m, lex2, m2);
    } else {
      var d := ds[0];
      LivesWorld(n, lex, m, d.lex, d.s.m);
      var _ := DefinitionRun(n, d);
      SessionLives(n, Owning(d), Leaving(d), ds[1..], lex2, m2);
      LivesTwice(n, lex, m, d.lex, d.s.m, Owning(d), Leaving(d));
      LivesTwice(n, lex, m, Owning(d), Leaving(d), lex2, m2);
    }
  }

  /** Each word made stands at the end of the session, and its definition came back to its caller. */
  lemma {:induction false} WordStands(n: Nucleus, lex: Lexicon, m: Memory, ds: seq<Definition>, lex2: Lexicon,
                                      m2: Memory, i: nat) returns (k: nat)
    requires World(n, lex, m) && Session(n, lex, m, ds, lex2, m2) && i < |ds|
    ensures Stands(n, ds[i], lex2, m2) && World(n, lex2, m2) && ds[i].s.Go? && Makes(n, ds[i])
    ensures World(n, ds[i].lex, ds[i].s.m)
    ensures Run(n, ds[i].s, k) == Go(NextCell(ds[i].s.wp), ds[i].rest, ds[i].s.rs, Leaving(ds[i]))
    decreases |ds|
  {
    hide World, Lives, Makes, Stands, Run, Leaving, Owning;
    var d := ds[0];
    LivesWorld(n, lex, m, d.lex, d.s.m);
    k := DefinitionRun(n, d);
    if i == 0 {
      SessionLives(n, Owning(d), Leaving(d), ds[1..], lex2, m2);
      StandsLives(n, d, Owning(d), Leaving(d), lex2, m2);
    } else {
      k := WordStands(n, Owning(d), Leaving(d), ds[1..], lex2, m2, i - 1);
    }
  }

  lemma LivesHere(n: Nucleus, lex: Lexicon, m: Memory, lex2: Lexicon, m2: Memory)
    requires Lives(n, lex, m, lex2, m2)
    ensures m.here <= m2.here
  {
    hide Confined, Spares, Joins, AllStay;
  }

  /** A later definition starts behind HERE. */
  lemma {:induction false} LaterAbove(n: Nucleus, lex: Lexicon, m: Memory, ds: seq<Definition>, lex2: Lexicon,
                                      m2: Memory, x: nat)
    requires World(n, lex, m) && Session(n, lex, m, ds, lex2, m2) && x < |ds|
    ensures m.here <= ds[x].w
    decreases |ds|
  {
    hide World, Lives, Makes, Stands, Run, Leaving, Owning;
    var d := ds[0];
    LivesWorld(n, lex, m, d.lex, d.s.m);
    LivesHere(n, lex, m, d.lex, d.s.m);
    var _ := DefinitionRun(n, d);
    if x > 0 {
      LaterAbove(n, Owning(d), Leaving(d), ds[1..], lex2, m2, x - 1);
    }
  }

  /** The parameter field of an earlier word ends before a later one begins. */
  lemma {:induction false} FieldsApart(n: Nucleus, lex: Lexicon, m: Memory, ds: seq<Definition>, lex2: Lexicon,
                                       m2: Memory, i: nat, x: nat)
    requires World(n, lex, m) && Session(n, lex, m, ds, lex2, m2) && i < x < |ds|
    ensures EndOf(ds[i]) <= ds[x].w
    decreases |ds|
  {
    hide World, Lives, Makes, Stands, Run, Leaving, Owning, EndOf;
    var d := ds[0];
    LivesWorld(n, lex, m, d.lex, d.s.m);
    var _ := DefinitionRun(n, d);
    if i == 0 {
      LaterAbove(n, Owning(d), Leaving(d), ds[1..], lex2, m2, x - 1);
    } else {
      FieldsApart(n, Owning(d), Leaving(d), ds[1..], lex2, m2, i - 1, x - 1);
    }
  }

  /** The word made by `d` is called in memory `m`. */
  ghost predicate CallsWord(d: Definition, m: Memory, s: State) {
    s.Go? && s.m == m && s.wp + 8 < TWO64 && CodeAt(m.cell, s.wp, [d.w])
  }

  /** Calling the word made by `d` from `s` pushes the address of its fields and does what its tail means. */
  ghost predicate MeansTail(n: Nucleus, lex: Lexicon, d: Definition, s: State, fuel: nat, k: nat, t: State)
    requires s.Go?
  {
    && s.wp + 8 < TWO64 && d.w + 16 < TWO64 && (TailOf(d) == 0 <==> d.tail.NoTail?)
    && TailOf(d) + 8 * Size(ProgOf(d)) < TWO64 && Linkable(lex) && Known(ProgOf(d), lex)
    && Performs(n, s, s, UserOutcome(n, lex, d.w, TailOf(d), ProgOf(d), s, fuel), fuel, k, t)
  }

  lemma StandingRun(n: Nucleus, d: Definition, lex: Lexicon, m: Memory, s: State, fuel: nat) returns (k: nat, t: State)
    requires Stands(n, d, lex, m) && World(n, lex, m) && CallsWord(d, m, s)
    ensures MeansTail(n, lex, d, s, fuel, k, t)
  {
    hide CodeAt, Linked, Path, UserOutcome, Holds, Gen, Performs, Defining, Owned, Standing, Fenced, AllStay;
    LinkedLinkable(n, lex, m.cell);
    if d.tail.Does? {
      StandingLoaded(n, lex, d.tail.prog, TailOf(d), m);
    }
    WordInSpace(n, d, lex, m);
    k, t := UserWordRun(n, lex, d.w, TailOf(d), ProgOf(d), s, fuel);
  }

  lemma WordInSpace(n: Nucleus, d: Definition, lex: Lexicon, m: Memory)
    requires Stands(n, d, lex, m) && World(n, lex, m)
    ensures d.w + 16 < TWO64
  {
    hide CodeAt, Linked, Holds, Owned, HasTail, AllStay;
    DefiningPlaced(n, m);
  }

  /**
   * After any number of definitions, each of them has returned to its caller, the word it made still holds its fields
   * if they are fixed, no other word's fields touch them, and calling it means its tail.
   */
  lemma EveryWordMade(n: Nucleus, lex: Lexicon, m: Memory, ds: seq<Definition>, lex2: Lexicon, m2: Memory, i: nat,
                      s: State, fuel: nat) returns (j: nat, k: nat, t: State)
    requires World(n, lex, m) && Session(n, lex, m, ds, lex2, m2) && i < |ds| && CallsWord(ds[i], m2, s)
    ensures ds[i].s.Go?
    ensures Run(n, ds[i].s, j) == Go(NextCell(ds[i].s.wp), ds[i].rest, ds[i].s.rs, Leaving(ds[i]))
    ensures ds[i].fixed ==> Holds(m2, ds[i].w + 16, ds[i].fields)
    ensures forall x :: 0 <= x < |ds| && x != i ==> EndOf(ds[i]) <= ds[x].w || EndOf(ds[x]) <= ds[i].w
    ensures MeansTail(n, lex2, ds[i], s, fuel, k, t)
  {
    hide World, Session, Leaving, Run, EndOf, TailOf, Makes, Stands, CodeAt, MeansTail, Holds;
    j := WordStands(n, lex, m, ds, lex2, m2, i);
    StandsHolds(n, ds[i], lex2, m2);
    forall x | 0 <= x < |ds| && x != i
      ensures EndOf(ds[i]) <= ds[x].w || EndOf(ds[x]) <= ds[i].w
    {
      if i < x {
        FieldsApart(n, lex, m, ds, lex2, m2, i, x);
      } else {
        FieldsApart(n, lex, m, ds, lex2, m2, x, i);
      }
    }
    k, t := StandingRun(n, ds[i], lex2, m2, s, fuel);
  }

  lemma StandsHolds(n: Nucleus, d: Definition, lex: Lexicon, m: Memory)
    requires Stands(n, d, lex, m)
    ensures d.fixed ==> Holds(m, d.w + 16, d.fields)
  {
  }
}
