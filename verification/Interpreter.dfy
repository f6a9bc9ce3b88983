/**
 * The outer interpreter on numbers and non-immediate words: running them one by one with RUNCODE leaves the same
 * parameter stack and memory as compiling them into a word and running that.
 */
module Interpreter {
  import opened Words
  import opened Machine
  import opened ControlFlow
  import opened Simulation
  import opened Widening

  /** What the interpreter hands to RUNCODE: a routine of the nucleus or a colon word. */
  predicate IsWord(p: Prog) {
    p.Primitive? || p.Access? || p.Call?
  }

  function WordCfa(n: Nucleus, p: Prog): Word
    requires IsWord(p)
  {
    match p
    case Primitive(p) => Cfa(n, Pure(p))
    case Access(op) => Cfa(n, op)
    case Call(cfa) => cfa
  }

  /** The text: numbers and words. */
  predicate IsText(ws: seq<Prog>) {
    forall p <- ws :: p.Literal? || IsWord(p)
  }

  /** The text as one program. */
  function Body(ws: seq<Prog>): Prog {
    if ws == [] then Skip else Seq(ws[0], Body(ws[1..]))
  }

  /** The interpreter stands at its RUNCODE cell; the cell behind it leads back to reading the next word. */
  ghost predicate AtRunCode(n: Nucleus, s: State) {
    && s.Go? && s.wp + 16 < TWO64
    && RunCode in n.cfa && CodeAt(s.m.cell, s.wp, [Cfa(n, RunCode)])
  }

  /** The cell the machine stands at, as a region. */
  function AtCell(s: State): Region {
    if s.Go? then Region(s.wp, s.wp + 8, s.rs) else Region(0, 0, [])
  }

  lemma RoutineCell(n: Nucleus, cell: map<Word, Word>, op: Op)
    requires Loaded(n, cell) && op in n.cfa
    ensures n.cfa[op] in cell && cell[n.cfa[op]] in n.entry && n.entry[cell[n.cfa[op]]] == op
    ensures cell[n.cfa[op]] != n.docol && cell[n.cfa[op]] != n.douser
  {
    hide CodeAt;
  }

  /** RUNCODE with a codeword address on the stack does what a cell holding that address would do. */
  lemma RunCodeStep(n: Nucleus, s: State, cfa: Word)
    requires AtRunCode(n, s) && Loaded(n, s.m.cell)
    ensures Path(n, s.(ps := [cfa] + s.ps), 1, JumpTo(n, cfa, s.(wp := s.wp + 8)), AtCell(s))
  {
    hide Loaded, Exec, DoUser;
    var t := s.(ps := [cfa] + s.ps);
    RoutineCell(n, s.m.cell, RunCode);
    assert [Cfa(n, RunCode)][0] == s.m.cell[s.wp + 8 * 0];
    assert t.ps[1..] == s.ps;
    assert t.(wp := s.wp + 8).(ps := t.ps[1..]) == s.(wp := s.wp + 8);
    OneStep(n, t, AtCell(s));
  }

  lemma EnterFrom(n: Nucleus, s: State, cfa: Word)
    requires s.Go? && s.wp + 8 < TWO64 && CodeAt(s.m.cell, cfa, [n.docol])
    ensures JumpTo(n, cfa, s.(wp := s.wp + 8))
         == if |s.rs| >= n.rcap then Stop(ReturnOverflow) else Entered(s, cfa)
  {
    assert [n.docol][0] == s.m.cell[cfa + 8 * 0];
  }

  lemma RoutineFrom(n: Nucleus, s: State, op: Op)
    requires s.Go? && s.wp + 8 < TWO64 && Loaded(n, s.m.cell) && op in n.cfa && op != RunCode
    ensures JumpTo(n, Cfa(n, op), s.(wp := s.wp + 8)) == Exec(n, op, s.(wp := s.wp + 8))
  {
    hide Loaded, Exec, DoUser;
    RoutineCell(n, s.m.cell, op);
  }

  /** What running a word from the interpreter at `s` has to show for an outcome of its structured meaning. */
  ghost predicate Shows(n: Nucleus, lex: Lexicon, cfa: Word, s: State, o: Outcome, fuel: nat, k: nat, t: State)
    requires s.Go? && s.wp + 8 < TWO64
  {
    && (!o.Strayed? ==> Path(n, s.(ps := [cfa] + s.ps), k, t, AtCell(s)))
    && (o.Unfinished? ==> k >= fuel)
    && (Ended(o) ==> t == After(s, 1, o))
    && (o.Done? ==> Keeps(lex.code, s.m, o.m))
  }

  /** Running a word from the interpreter, against the structured meaning of the word. */
  lemma {:induction false} RunWord(n: Nucleus, lex: Lexicon, p: Prog, s: State, fuel: nat)
    returns (k: nat, t: State)
    requires AtRunCode(n, s)
    requires IsWord(p) && Linked(n, lex, s.m.cell) && Linkable(lex) && Known(p, lex) && Covered(p, n)
    ensures Shows(n, lex, WordCfa(n, p), s, Meaning(n, lex, p, s, fuel), fuel, k, t)
  {
    hide Step, Path, CodeAt, JumpTo, Loaded, Exec, Spares, Linked;
    var cfa := WordCfa(n, p);
    LinkedLoaded(n, lex, s.m.cell);
    KeepsSame(lex.code, s.m);
    RunCodeStep(n, s, cfa);
    if p.Call? {
      k, t := RunColon(n, lex, p, s, fuel);
    } else {
      k, t := 1, JumpTo(n, cfa, s.(wp := s.wp + 8));
      if p.Primitive? {
        RoutineFrom(n, s, Pure(p.p));
        PureExec(n, p.p, s.(wp := s.wp + 8));
      } else {
        RoutineFrom(n, s, p.op);
        AccessAnywhere(n, p.op, s.(wp := s.wp + 8));
      }
    }
  }

  lemma PureExec(n: Nucleus, p: Prim, s: State)
    requires s.Go?
    ensures Exec(n, Pure(p), s) == match PrimEffect(p, s.ps, n.pcap)
                                   case Left(ps) => s.(ps := ps)
                                   case Failed(e) => Stop(e)
  {
  }

  lemma {:induction false} RunColon(n: Nucleus, lex: Lexicon, p: Prog, s: State, fuel: nat)
    returns (k: nat, t: State)
    requires AtRunCode(n, s)
    requires p.Call? && Linked(n, lex, s.m.cell) && Linkable(lex) && Known(p, lex)
    ensures Shows(n, lex, p.cfa, s, Meaning(n, lex, p, s, fuel), fuel, k, t)
  {
    hide Step, Path, CodeAt, Loaded, JumpTo, Linked, Linkable, Known, Eval, Meaning, BodyMeaning, Spares, Standing;
    var cfa, r := p.cfa, AtCell(s);
    var s0 := s.(ps := [cfa] + s.ps);
    KnownCall(p, lex);
    ColonParts(n, lex, cfa, s.m);
    RunCodeStep(n, s, cfa);
    EnterFrom(n, s, cfa);
    CallMeaning(n, lex, p, s, fuel);
    if |s.rs| >= n.rcap {
      return 1, Stop(ReturnOverflow);
    }
    if fuel == 0 {
      NoStep(n, s0, r);
      return 0, s0;
    }
    var s1, o := Entered(s, cfa), BodyMeaning(n, lex, cfa, s, fuel - 1);
    k, t := SimulateBody(n, lex, cfa, s, fuel - 1, r);
    if !o.Strayed? {
      Join(n, s0, 1, s1, k, t, r);
    }
    k := k + 1;
  }

  /** The interpreter after a word or text with this outcome: back at its RUNCODE cell, or stopped. */
  function Said(s: State, o: Outcome): State
    requires s.Go? && Ended(o)
  {
    if o.Done? then s.(ps := o.ps, m := o.m) else Stop(o.why)
  }

  /** The interpreter deals with one word: a number is pushed, anything else goes through RUNCODE. */
  ghost predicate WordRun(n: Nucleus, s: State, p: Prog, u: State)
    requires s.Go? && (p.Literal? || IsWord(p))
  {
    if p.Literal? then u == Push(n, p.w, s)
    else exists k: nat, t: State ::
      Leaves(n, s.(ps := [WordCfa(n, p)] + s.ps), k, t, AtCell(s)) && u == if t.Go? then t.(wp := s.wp) else t
  }

  /** The interpreter deals with a text, word by word. */
  ghost predicate TextRun(n: Nucleus, s: State, ws: seq<Prog>, t: State)
    requires s.Go? && IsText(ws)
    decreases |ws|
  {
    if ws == [] then t == s
    else exists u :: WordRun(n, s, ws[0], u) && if u.Go? then TextRun(n, u, ws[1..], t) else t == u
  }

  /** What the interpreter needs to know of a text and its surroundings; its own cell is code. */
  ghost predicate Speaks(n: Nucleus, lex: Lexicon, s: State, ws: seq<Prog>) {
    && AtRunCode(n, s) && Fenced(lex, s.wp, 1) && Linked(n, lex, s.m.cell) && Linkable(lex) && IsText(ws)
    && forall p <- ws :: Known(p, lex) && Covered(p, n)
  }

  /** What a program means to the interpreter at `s`, its code being at `a`. */
  function Result(n: Nucleus, lex: Lexicon, p: Prog, a: int, s: State, fuel: nat): Outcome {
    if s.Go? && 0 <= a && a + 8 * Size(p) < TWO64 && Linkable(lex) && Known(p, lex)
    then Eval(n, lex, p, a, s.ps, s.m, |s.rs|, fuel)
    else Unfinished
  }

  ghost predicate ProgEnds(n: Nucleus, lex: Lexicon, p: Prog, a: int, s: State, fuel: nat, t: State) {
    s.Go? && var o := Result(n, lex, p, a, s, fuel); Ended(o) && t == Said(s, o)
  }

  /** The text, taken as one program with its code at `a`, ends in `t`, or it changes a cell of code. */
  ghost predicate TextEnds(n: Nucleus, lex: Lexicon, ws: seq<Prog>, a: int, s: State, fuel: nat, t: State) {
    ProgEnds(n, lex, Body(ws), a, s, fuel, t)
  }

  ghost predicate TextStrays(n: Nucleus, lex: Lexicon, ws: seq<Prog>, a: int, s: State, fuel: nat) {
    Result(n, lex, Body(ws), a, s, fuel).Strayed?
  }

  /** One word does so. */
  ghost predicate WordEnds(n: Nucleus, lex: Lexicon, p: Prog, s: State, fuel: nat, u: State) {
    s.Go? && ProgEnds(n, lex, p, s.wp, s, fuel, u)
  }

  ghost predicate WordStrays(n: Nucleus, lex: Lexicon, p: Prog, s: State, fuel: nat) {
    s.Go? && Result(n, lex, p, s.wp, s, fuel).Strayed?
  }

  predicate OneWord(p: Prog, s: State) {
    s.Go? && Size(p) <= 2 && s.wp + 16 < TWO64
  }

  lemma OneLiteral(n: Nucleus, w: Word, ps: seq<Word>, m: Memory)
    ensures Literals(n, [w], ps, m) == if |ps| >= n.pcap then Error(StackOverflow) else Done([w] + ps, m)
  {
    assert [w][1..] == [];
  }

  lemma SpeaksWord(n: Nucleus, lex: Lexicon, p: Prog, s: State)
    requires Speaks(n, lex, s, [p])
    ensures AtRunCode(n, s) && Linked(n, lex, s.m.cell) && Linkable(lex) && Known(p, lex) && Covered(p, n)
    ensures (p.Literal? || IsWord(p)) && OneWord(p, s)
  {
    hide Linked, CodeAt;
    assert p in [p];
  }

  /** Whatever a word leaves behind, the interpreter goes on. */
  lemma SpeaksOn(n: Nucleus, lex: Lexicon, s: State, ws: seq<Prog>, ps: seq<Word>, m: Memory, rest: seq<Prog>)
    requires Speaks(n, lex, s, ws) && Spares(lex.code, s.m, m) && forall p <- rest :: p in ws
    ensures Speaks(n, lex, s.(ps := ps, m := m), rest)
  {
    hide Linked, CodeAt, Spares, Fenced;
    SparesLinked(n, lex, s.m, m);
    SparesCode(lex, s.m, m, s.wp, [Cfa(n, RunCode)]);
  }

  lemma WordEndsRuns(n: Nucleus, lex: Lexicon, p: Prog, s: State, fuel: nat, u: State)
    requires Speaks(n, lex, s, [p]) && WordEnds(n, lex, p, s, fuel, u)
    ensures s.Go? && (p.Literal? || IsWord(p)) && WordRun(n, s, p, u)
    ensures u.Go? ==> u == s.(ps := u.ps, m := u.m) && Spares(lex.code, s.m, u.m)
  {
    hide Step, Path, CodeAt, Loaded, Linked, Known, Covered, Speaks, Spares;
    SpeaksWord(n, lex, p, s);
    if p.Literal? {
      OneLiteral(n, p.w, s.ps, s.m);
      KeepsSame(lex.code, s.m);
    } else {
      var k, t := RunWord(n, lex, p, s, fuel);
      assert Leaves(n, s.(ps := [WordCfa(n, p)] + s.ps), k, t, AtCell(s));
    }
  }

  lemma WordRunEnds(n: Nucleus, lex: Lexicon, p: Prog, s: State, u: State) returns (fuel: nat)
    requires Speaks(n, lex, s, [p]) && (p.Literal? || IsWord(p)) && WordRun(n, s, p, u)
    ensures WordEnds(n, lex, p, s, fuel, u) || WordStrays(n, lex, p, s, fuel)
  {
    hide Step, Path, CodeAt, Loaded, Linked, Known, Covered, Speaks, Spares;
    SpeaksWord(n, lex, p, s);
    fuel := 0;
    if p.Literal? {
      OneLiteral(n, p.w, s.ps, s.m);
    } else {
      var s0 := s.(ps := [WordCfa(n, p)] + s.ps);
      var k: nat, t: State :| Leaves(n, s0, k, t, AtCell(s)) && u == if t.Go? then t.(wp := s.wp) else t;
      fuel := k + 1;
      var j, v := RunWord(n, lex, p, s, fuel);
      if !Meaning(n, lex, p, s, fuel).Strayed? {
        LeavesOnce(n, s0, k, t, j, v, AtCell(s));
      }
    }
  }

  /** Where its code lies does not matter to a number or a word. */
  lemma Placeless(n: Nucleus, lex: Lexicon, p: Prog, a: Word, b: Word, ps: seq<Word>, m: Memory, depth: nat, fuel: nat)
    requires (p.Literal? || IsWord(p)) && a + 8 * Size(p) < TWO64 && b + 8 * Size(p) < TWO64
    requires Linkable(lex) && Known(p, lex)
    ensures Eval(n, lex, p, a, ps, m, depth, fuel) == Eval(n, lex, p, b, ps, m, depth, fuel)
  {
  }

  lemma {:induction false} BodyFits(lex: Lexicon, ws: seq<Prog>)
    requires IsText(ws) && forall p <- ws :: Known(p, lex)
    ensures Known(Body(ws), lex)
  {
    if ws != [] {
      BodyFits(lex, ws[1..]);
    }
  }

  lemma BodyFirst(ws: seq<Prog>)
    requires ws != []
    ensures Size(Body(ws)) == Size(ws[0]) + Size(Body(ws[1..]))
  {
  }

  lemma TextFits(n: Nucleus, lex: Lexicon, s: State, ws: seq<Prog>)
    requires Speaks(n, lex, s, ws)
    ensures s.Go? && s.wp + 16 < TWO64 && Linkable(lex) && Known(Body(ws), lex) && IsText(ws)
    ensures ws != [] ==> Speaks(n, lex, s, [ws[0]]) && Known(ws[0], lex) && (ws[0].Literal? || IsWord(ws[0]))
    ensures ws != [] ==> Known(Body(ws[1..]), lex) && OneWord(ws[0], s)
  {
    hide Linked, CodeAt;
    BodyFits(lex, ws);
    if ws != [] {
      BodyFits(lex, ws[1..]);
    }
  }

  lemma SeqEval(n: Nucleus, lex: Lexicon, p: Prog, a: Word, ps: seq<Word>, m: Memory, depth: nat, fuel: nat)
    requires p.Seq? && a + 8 * Size(p) < TWO64 && Linkable(lex) && Known(p, lex)
    ensures var o := Eval(n, lex, p.first, a, ps, m, depth, fuel);
            Eval(n, lex, p, a, ps, m, depth, fuel)
            == if o.Done? then Eval(n, lex, p.second, a + 8 * Size(p.first), o.ps, o.m, depth, fuel) else o
  {
    hide Linkable;
  }

  /** Evaluating the body of a text: its first word, and if that is done the others. */
  lemma BodyStep(n: Nucleus, lex: Lexicon, s: State, ws: seq<Prog>, a: int, fuel: nat)
    requires Speaks(n, lex, s, ws) && ws != [] && 0 <= a && a + 8 * Size(Body(ws)) < TWO64
    ensures s.Go?
    ensures var o := Result(n, lex, ws[0], s.wp, s, fuel);
            Result(n, lex, Body(ws), a, s, fuel)
            == if !o.Done? then o
               else Result(n, lex, Body(ws[1..]), a + 8 * Size(ws[0]), s.(ps := o.ps, m := o.m), fuel)
  {
    hide Speaks, Linkable, Eval, Known;
    TextFits(n, lex, s, ws);
    Placeless(n, lex, ws[0], a, s.wp, s.ps, s.m, |s.rs|, fuel);
    SeqEval(n, lex, Body(ws), a, s.ps, s.m, |s.rs|, fuel);
  }

  lemma {:induction false} TextEndsRuns(n: Nucleus, lex: Lexicon, ws: seq<Prog>, a: int, s: State, fuel: nat, t: State)
    requires Speaks(n, lex, s, ws) && 0 <= a && a + 8 * Size(Body(ws)) < TWO64 && TextEnds(n, lex, ws, a, s, fuel, t)
    ensures s.Go? && IsText(ws) && TextRun(n, s, ws, t)
    decreases |ws|
  {
    hide Speaks, WordRun, Result, Spares, Linkable, Known, Body;
    TextFits(n, lex, s, ws);
    if ws == [] {
      EmptyText(n, lex, a, s, ws, fuel);
    } else {
      BodyStep(n, lex, s, ws, a, fuel);
      BodyFirst(ws);
      var o := Result(n, lex, ws[0], s.wp, s, fuel);
      var u := Said(s, o);
      WordEndsRuns(n, lex, ws[0], s, fuel, u);
      if u.Go? {
        SpeaksOn(n, lex, s, ws, u.ps, u.m, ws[1..]);
        TextEndsRuns(n, lex, ws[1..], a + 8 * Size(ws[0]), u, fuel, t);
      }
    }
  }

  lemma EmptyText(n: Nucleus, lex: Lexicon, a: int, s: State, ws: seq<Prog>, fuel: nat)
    requires s.Go? && Linkable(lex) && ws == [] && 0 <= a < TWO64
    ensures Result(n, lex, Body(ws), a, s, fuel) == Done(s.ps, s.m) && s.(ps := s.ps, m := s.m) == s
  {
  }

  /** With more fuel, what has ended or strayed does so alike. */
  lemma Longer(n: Nucleus, lex: Lexicon, p: Prog, a: int, s: State, f: nat, g: nat)
    requires f <= g
    ensures var o := Result(n, lex, p, a, s, f); o.Unfinished? || Result(n, lex, p, a, s, g) == o
  {
    hide Eval, Linkable, Known;
    if s.Go? && 0 <= a && a + 8 * Size(p) < TWO64 && Linkable(lex) && Known(p, lex) {
      MoreRoom(n, lex, lex, Same, p, a, s.ps, s.m, |s.rs|, f, |s.rs|, g);
    }
  }

  lemma {:induction false} TextRunEnds(n: Nucleus, lex: Lexicon, ws: seq<Prog>, a: int, s: State, t: State)
    returns (fuel: nat)
    requires Speaks(n, lex, s, ws) && 0 <= a && a + 8 * Size(Body(ws)) < TWO64
    requires s.Go? && IsText(ws) && TextRun(n, s, ws, t)
    ensures TextEnds(n, lex, ws, a, s, fuel, t) || TextStrays(n, lex, ws, a, s, fuel)
    decreases |ws|
  {
    hide Speaks, WordRun, Result, Spares, Linkable, Known, Body;
    TextFits(n, lex, s, ws);
    if ws == [] {
      EmptyText(n, lex, a, s, ws, 0);
      return 0;
    }
    var u :| WordRun(n, s, ws[0], u) && if u.Go? then TextRun(n, u, ws[1..], t) else t == u;
    fuel := WordRunEnds(n, lex, ws[0], s, u);
    if u.Go? && WordEnds(n, lex, ws[0], s, fuel, u) {
      fuel := TextGoesOn(n, lex, ws, a, s, fuel, u, t);
    } else {
      BodyStep(n, lex, s, ws, a, fuel);
    }
  }

  /** The first word has ended in `u`; the others follow. */
  lemma {:induction false} TextGoesOn(n: Nucleus, lex: Lexicon, ws: seq<Prog>, a: int, s: State, f: nat, u: State,
                                      t: State) returns (fuel: nat)
    requires Speaks(n, lex, s, ws) && 0 <= a && a + 8 * Size(Body(ws)) < TWO64 && ws != [] && IsText(ws)
    requires WordEnds(n, lex, ws[0], s, f, u) && u.Go? && TextRun(n, u, ws[1..], t)
    ensures TextEnds(n, lex, ws, a, s, fuel, t) || TextStrays(n, lex, ws, a, s, fuel)
    decreases |ws|, 0
  {
    hide Speaks, WordRun, Result, Spares, Linkable, Known, TextRun, Body;
    TextFits(n, lex, s, ws);
    WordEndsRuns(n, lex, ws[0], s, f, u);
    SpeaksOn(n, lex, s, ws, u.ps, u.m, ws[1..]);
    BodyFirst(ws);
    var b := a + 8 * Size(ws[0]);
    var g := TextRunEnds(n, lex, ws[1..], b, u, t);
    fuel := if f < g then g else f;
    BodyStep(n, lex, s, ws, a, fuel);
    Longer(n, lex, ws[0], s.wp, s, f, fuel);
    Longer(n, lex, Body(ws[1..]), b, u, g, fuel);
  }

  /** Whatever the fuel, the text may stray. */
  ghost predicate MayStray(n: Nucleus, lex: Lexicon, ws: seq<Prog>, a: int, s: State) {
    exists fuel: nat :: TextStrays(n, lex, ws, a, s, fuel)
  }

  /** The text is what the colon word at `word` was compiled from. */
  ghost predicate Compiled(n: Nucleus, lex: Lexicon, word: Word, ws: seq<Prog>, s: State) {
    Speaks(n, lex, s, ws) && word in lex.body && lex.body[word] == Body(ws)
  }

  lemma CompiledFits(n: Nucleus, lex: Lexicon, word: Word, ws: seq<Prog>, s: State)
    requires Compiled(n, lex, word, ws, s)
    ensures Speaks(n, lex, s, ws) && Speaks(n, lex, s, [Call(word)]) && s.Go? && s.wp + 16 < TWO64 && IsText(ws)
    ensures word + 16 + 8 * Size(Body(ws)) < TWO64
    ensures Linkable(lex) && Known(Body(ws), lex) && Known(Call(word), lex) && lex.body[word] == Body(ws)
  {
    hide Linked, CodeAt;
    LinkedBody(lex, word);
  }

  /** Calling the word means what the text means, unless the one return cell that the call takes is missing. */
  lemma CallMeansText(n: Nucleus, lex: Lexicon, word: Word, ws: seq<Prog>, s: State, fuel: nat)
    requires Compiled(n, lex, word, ws, s)
    ensures s.Go?
    ensures var o := Result(n, lex, Call(word), s.wp, s, fuel + 1);
            o == Error(ReturnOverflow) || o == Result(n, lex, Body(ws), word + 8, s, fuel)
  {
    hide Linkable, Known, Speaks, Body, Eval, Compiled;
    CompiledFits(n, lex, word, ws, s);
    CallMeaning(n, lex, Call(word), s, fuel + 1);
    MoreRoom(n, lex, lex, Same, Body(ws), word + 8, s.ps, s.m, |s.rs| + 1, fuel, |s.rs|, fuel);
  }

  lemma CompiledToo(n: Nucleus, lex: Lexicon, word: Word, ws: seq<Prog>, s: State, f: nat, t: State)
    requires Compiled(n, lex, word, ws, s) && TextEnds(n, lex, ws, word + 8, s, f, t)
    ensures s.Go?
    ensures WordRun(n, s, Call(word), t) || WordRun(n, s, Call(word), Stop(ReturnOverflow))
  {
    hide Speaks, Result, Body, WordRun, Spares, Compiled;
    CompiledFits(n, lex, word, ws, s);
    CallMeansText(n, lex, word, ws, s, f);
    var o := Result(n, lex, Call(word), s.wp, s, f + 1);
    WordEndsRuns(n, lex, Call(word), s, f + 1, Said(s, o));
  }

  lemma InterpretedToo(n: Nucleus, lex: Lexicon, word: Word, ws: seq<Prog>, s: State, g: nat, t: State)
    requires Compiled(n, lex, word, ws, s)
    requires WordEnds(n, lex, Call(word), s, g, t) || WordStrays(n, lex, Call(word), s, g)
    ensures s.Go? && IsText(ws)
    ensures || TextEnds(n, lex, ws, word + 8, s, g, t) || t == Stop(ReturnOverflow)
            || TextStrays(n, lex, ws, word + 8, s, g)
  {
    hide Speaks, Result, Body, Compiled;
    CompiledFits(n, lex, word, ws, s);
    Longer(n, lex, Call(word), s.wp, s, g, g + 1);
    CallMeansText(n, lex, word, ws, s, g);
  }

  /**
   * Interpreting equals compiling: running the word that a text was compiled into ends as running the text word by
   * word does, unless the one return cell that the extra call takes is missing. Only of a text that changes a cell of
   * code nothing is said.
   */
  lemma InterpretingIsCompiling(n: Nucleus, lex: Lexicon, word: Word, ws: seq<Prog>, s: State, t: State)
    requires Compiled(n, lex, word, ws, s)
    ensures s.Go? && IsText(ws)
    ensures TextRun(n, s, ws, t) ==>
              || WordRun(n, s, Call(word), t) || WordRun(n, s, Call(word), Stop(ReturnOverflow))
              || MayStray(n, lex, ws, word + 8, s)
    ensures WordRun(n, s, Call(word), t) ==>
              TextRun(n, s, ws, t) || t == Stop(ReturnOverflow) || MayStray(n, lex, ws, word + 8, s)
  {
    hide Speaks, Linkable, Known, Body, WordRun, TextRun, Compiled, TextEnds, TextStrays, WordEnds, WordStrays;
    CompiledFits(n, lex, word, ws, s);
    if TextRun(n, s, ws, t) {
      var f := TextRunEnds(n, lex, ws, word + 8, s, t);
      if TextEnds(n, lex, ws, word + 8, s, f, t) {
        CompiledToo(n, lex, word, ws, s, f, t);
      }
    }
    if WordRun(n, s, Call(word), t) {
      var g := WordRunEnds(n, lex, Call(word), s, t);
      InterpretedToo(n, lex, word, ws, s, g, t);
      if TextEnds(n, lex, ws, word + 8, s, g, t) {
        TextEndsRuns(n, lex, ws, word + 8, s, g, t);
      }
    }
  }
}
