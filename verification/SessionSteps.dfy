/**
 * What may happen in a session between two definitions of words: programs that run, stores into open fields, headers,
 * and colon definitions, whose words later setups and tails may then call.
 */
module SessionSteps {
  import opened Words
  import opened Machine
  import opened ControlFlow
  import opened Simulation
  import opened Widening
  import opened OnePass
  import opened ColonDefinitions
  import opened DefiningWords
  import opened Definers
  import opened Definitions

  lemma SameJoins(n: Nucleus, lex: Lexicon, cell: map<Word, Word>)
    ensures Joins(n, lex, lex, cell)
  {
  }

  lemma SameLives(n: Nucleus, lex: Lexicon, m: Memory, m2: Memory)
    requires World(n, lex, m) && Evolved(n, m, m2) && Spares(lex.code, m, m2)
    ensures Lives(n, lex, m, lex, m2)
  {
    hide Defining, Linked, AllStay, Spares, Joins, Evolved;
    SameJoins(n, lex, m2.cell);
    EvolvedStays(n, lex.code, m, m2);
  }

  /** The program at the machine's word pointer ends, without straying. */
  ghost predicate Finishes(n: Nucleus, lex: Lexicon, p: Prog, s: State, fuel: nat, ps: seq<Word>, m: Memory) {
    && s.Go? && Standing(n, lex, p, s.wp, s.m) && World(n, lex, s.m)
    && Means(n, lex, p, s.wp, s.ps, s.m, |s.rs|, fuel) == Done(ps, m)
  }

  /** A program that runs. */
  lemma ProgramLives(n: Nucleus, lex: Lexicon, p: Prog, s: State, fuel: nat, ps: seq<Word>, m: Memory) returns (k: nat)
    requires Finishes(n, lex, p, s, fuel, ps, m)
    ensures s.Go? && Run(n, s, k) == Go(Nth(s.wp, Size(p)), ps, s.rs, m)
    ensures Lives(n, lex, s.m, lex, m) && World(n, lex, m)
  {
    hide Run, Standing, World, Evolved, Spares, Lives, Means, Step, Placed, Size, Linked, Defining;
    WorldPlaced(n, lex, s.m);
    k := ProgRun(n, lex, p, s, fuel, ps, m);
    SameLives(n, lex, s.m, m);
    LivesWorld(n, lex, s.m, lex, m);
  }

  /** `!` is about to change a dictionary cell that is not known to hold code. */
  ghost predicate Storing(n: Nucleus, lex: Lexicon, s: State) {
    && s.Go? && World(n, lex, s.m) && |s.ps| >= 2
    && s.ps[0] in s.m.cell && InDictionary(n, s.m, s.ps[0]) && s.ps[0] !in lex.code
  }

  /** A store. */
  lemma StoreLives(n: Nucleus, lex: Lexicon, s: State)
    requires Storing(n, lex, s)
    ensures var m2 := s.m.(cell := s.m.cell[s.ps[0] := s.ps[1]]);
            Exec(n, Store, s) == s.(ps := s.ps[2..], m := m2) && Lives(n, lex, s.m, lex, m2)
  {
    hide World, Evolved, Lives, Exec, Spares, Placed;
    WorldPlaced(n, lex, s.m);
    StoreEvolves(n, lex, s);
    StoreExec(n, lex, s);
    SameLives(n, lex, s.m, s.m.(cell := s.m.cell[s.ps[0] := s.ps[1]]));
  }

  lemma StoreExec(n: Nucleus, lex: Lexicon, s: State)
    requires Storing(n, lex, s)
    ensures Exec(n, Store, s) == s.(ps := s.ps[2..], m := s.m.(cell := s.m.cell[s.ps[0] := s.ps[1]]))
  {
    hide World;
  }

  lemma StoreEvolves(n: Nucleus, lex: Lexicon, s: State)
    requires Storing(n, lex, s) && Placed(n, s.m)
    ensures var m2 := s.m.(cell := s.m.cell[s.ps[0] := s.ps[1]]); Evolved(n, s.m, m2) && Spares(lex.code, s.m, m2)
  {
    hide World;
  }

  /** A header. */
  lemma HeaderLives(n: Nucleus, lex: Lexicon, m: Memory)
    requires World(n, lex, m) && CreateFits(n, m)
    ensures Lives(n, lex, m, lex, Headed(n, m)) && World(n, lex, Headed(n, m))
  {
    hide World, Evolved, Lives, Headed, Grown, Spares, AllStay;
    WorldPlaced(n, lex, m);
    HeadedGrown(n, m);
    WorldStays(n, lex, m);
    GrownSpares(n, lex.code, m, Headed(n, m));
    SameLives(n, lex, m, Headed(n, m));
    LivesWorld(n, lex, m, lex, Headed(n, m));
  }

  lemma WorldStays(n: Nucleus, lex: Lexicon, m: Memory)
    requires World(n, lex, m)
    ensures AllStay(n, lex.code, m)
  {
    hide Defining, Linked, AllStay;
  }

  /** The dictionary of the machine in memory `m`, as the compiler sees it. */
  ghost predicate ColonStarts(n: Nucleus, lex: Lexicon, rom: map<Word, Word>, p: Prog, c: Compiling, m: Memory) {
    var d := Space(n.org, n.limit);
    World(n, lex, m) && Definable(n, lex, rom, d, p, c) && m.cell == CellsOf(rom, d, c) && m.here == HereOf(d, c)
  }

  /** A colon definition behind its header: from then on its word is one of those that programs may call. */
  lemma ColonLives(n: Nucleus, lex: Lexicon, rom: map<Word, Word>, p: Prog, c: Compiling, m: Memory)
    requires ColonStarts(n, lex, rom, p, c, m)
    ensures var m2 := Seen(Added(n, Space(n.org, n.limit), p, c), m);
            Lives(n, lex, m, Adding(lex, m.here, p), m2) && World(n, Adding(lex, m.here, p), m2)
  {
    hide World, Lives, CellsOf, Joins, Adding, ColonWord, Linked, Around, Known, Covered;
    var d, m2 := Space(n.org, n.limit), Seen(Added(n, Space(n.org, n.limit), p, c), m);
    ColonLinks(n, lex, rom, d, p, c);
    ColonEvolves(n, lex, rom, p, c, m);
    LivesWorld(n, lex, m, Adding(lex, m.here, p), m2);
  }

  lemma ColonEvolves(n: Nucleus, lex: Lexicon, rom: map<Word, Word>, p: Prog, c: Compiling, m: Memory)
    requires ColonStarts(n, lex, rom, p, c, m)
    ensures var m2 := Seen(Added(n, Space(n.org, n.limit), p, c), m);
            Lives(n, lex, m, Adding(lex, m.here, p), m2)
  {
    hide Defining, Linked, CellsOf, ColonWord, Joins, WriteCells, Around, Known, Covered;
    var d := Space(n.org, n.limit);
    var m2 := Seen(Added(n, d, p, c), m);
    ColonLinks(n, lex, rom, d, p, c);
    WorldPlaced(n, lex, m);
    WorldStays(n, lex, m);
  }
}
