/**
 * Compiler correctness: the emitted cells, run by the inner interpreter, do what the structured program means,
 * in both directions and with the same errors.
 */
module Simulation {
  import opened Words
  import opened Machine
  import opened ControlFlow

  /** The code between `lo` and `hi` running on the return stack `base`, or anything called from it. */
  datatype Region = Region(lo: int, hi: int, base: seq<Word>)

  ghost predicate Above(base: seq<Word>, rs: seq<Word>) {
    |base| < |rs| && rs[|rs| - |base|..] == base
  }

  ghost predicate Inside(s: State, r: Region) {
    s.Go? && (Above(r.base, s.rs) || (s.rs == r.base && r.lo <= s.wp < r.hi))
  }

  /** `t` is `k` steps from `s`, and all states before it are inside `r`. */
  ghost predicate Path(n: Nucleus, s: State, k: nat, t: State, r: Region)
    decreases k
  {
    if k == 0 then s == t else Inside(s, r) && Path(n, Step(n, s), k - 1, t, r)
  }

  lemma {:induction false} Join(n: Nucleus, s: State, j: nat, t: State, k: nat, u: State, r: Region)
    requires Path(n, s, j, t, r) && Path(n, t, k, u, r)
    ensures Path(n, s, j + k, u, r)
    decreases j
  {
    if j != 0 {
      Join(n, Step(n, s), j - 1, t, k, u, r);
    }
  }

  lemma {:induction false} PathRuns(n: Nucleus, s: State, k: nat, t: State, r: Region, j: nat)
    requires Path(n, s, k, t, r)
    ensures Run(n, s, k) == t
    ensures j < k ==> Inside(Run(n, s, j), r)
    decreases k
  {
    if k != 0 {
      PathRuns(n, Step(n, s), k - 1, t, r, if j == 0 then 0 else j - 1);
    }
  }

  /** `size` cells from the current word pointer belong to the region, at its own level or in a call from it. */
  ghost predicate Fits(s: State, size: nat, r: Region) {
    s.Go? && (Above(r.base, s.rs) || (s.rs == r.base && r.lo <= s.wp && s.wp + 8 * size <= r.hi))
  }

  lemma AboveCall(base: seq<Word>, rs: seq<Word>, x: Word)
    requires base == rs || Above(base, rs)
    ensures Above(base, [x] + rs)
  {
    assert ([x] + rs)[|rs| + 1 - |base|..] == rs[|rs| - |base|..];
    assert rs[0..] == rs;
  }

  /** Where a state stands after running code that ends `size` cells on. */
  function After(s: State, size: nat, o: Outcome): State
    requires s.Go? && s.wp + 8 * size < TWO64 && Ended(o)
  {
    match o
    case Done(ps, m) => s.(wp := s.wp + 8 * size, ps := ps, m := m)
    case Error(why) => Stop(why)
  }

  /** A machine-code routine is one step. */
  lemma RoutineStep(n: Nucleus, s: State, op: Op)
    requires s.Go? && Loaded(n, s.m.cell) && op in n.cfa && op != RunCode
    requires s.wp in s.m.cell && s.m.cell[s.wp] == Cfa(n, op)
    ensures Step(n, s) == Exec(n, op, s.(wp := NextCell(s.wp)))
  {
  }

  lemma ColonStep(n: Nucleus, s: State, wa: Word)
    requires s.Go? && s.wp in s.m.cell && s.m.cell[s.wp] == wa
    requires wa in s.m.cell && s.m.cell[wa] == n.docol
    ensures Step(n, s) == if |s.rs| >= n.rcap then Stop(ReturnOverflow)
                          else s.(rs := [NextCell(s.wp)] + s.rs, wp := NextCell(wa))
  {
  }

  /** One step that stays in the region or ends the run. */
  lemma OneStep(n: Nucleus, s: State, r: Region)
    requires Inside(s, r)
    ensures Path(n, s, 1, Step(n, s), r)
  {
    assert Path(n, Step(n, s), 0, Step(n, s), r);
  }

  lemma NoStep(n: Nucleus, s: State, r: Region)
    ensures Path(n, s, 0, s, r)
  {
  }

  lemma PrimitiveRun(n: Nucleus, s: State, op: Prim, r: Region) returns (t: State)
    requires s.Go? && Loaded(n, s.m.cell) && Pure(op) in n.cfa
    requires CodeAt(s.m.cell, s.wp, [Cfa(n, Pure(op))]) && Fits(s, 1, r)
    ensures Path(n, s, 1, t, r)
    ensures t == match PrimEffect(op, s.ps, n.pcap)
                 case Left(ps) => s.(wp := s.wp + 8, ps := ps)
                 case Failed(e) => Stop(e)
  {
    assert [Cfa(n, Pure(op))][0] == s.m.cell[s.wp + 8 * 0];
    RoutineStep(n, s, Pure(op));
    OneStep(n, s, r);
    t := Step(n, s);
  }

  /** DOCOL has kept the word pointer on the return stack. */
  function Entered(s: State, cfa: Word): State
    requires s.Go?
  {
    s.(rs := [NextCell(s.wp)] + s.rs, wp := NextCell(cfa))
  }

  /** Calling a colon word: DOCOL keeps the word pointer on the return stack. */
  lemma EnterRun(n: Nucleus, s: State, cfa: Word, r: Region) returns (t: State)
    requires s.Go? && CodeAt(s.m.cell, s.wp, [cfa]) && CodeAt(s.m.cell, cfa, [n.docol]) && Fits(s, 1, r)
    ensures Path(n, s, 1, t, r)
    ensures t == if |s.rs| >= n.rcap then Stop(ReturnOverflow) else Entered(s, cfa)
    ensures t.Go? ==> Above(r.base, t.rs)
  {
    assert [cfa][0] == s.m.cell[s.wp + 8 * 0] && [n.docol][0] == s.m.cell[cfa + 8 * 0];
    ColonStep(n, s, cfa);
    OneStep(n, s, r);
    AboveCall(r.base, s.rs, NextCell(s.wp));
    t := Step(n, s);
  }

  lemma ExitRun(n: Nucleus, s: State, r: Region) returns (t: State)
    requires s.Go? && Loaded(n, s.m.cell) && CodeAt(s.m.cell, s.wp, [Cfa(n, Exit)]) && Fits(s, 1, r) && s.rs != []
    ensures Path(n, s, 1, t, r)
    ensures t == s.(wp := s.rs[0], rs := s.rs[1..])
  {
    assert [Cfa(n, Exit)][0] == s.m.cell[s.wp + 8 * 0];
    RoutineStep(n, s, Exit);
    OneStep(n, s, r);
    t := Step(n, s);
  }

  /** What ?FALSE and ?TRUE are made of. */
  lemma TestWordCode(n: Nucleus, cell: map<Word, Word>, unless: bool)
    requires Loaded(n, cell)
    ensures var w, test := TestWord(n, unless), Pure(Un(if unless then NeZero else EqZero));
            && test in n.cfa && w + 24 < TWO64
            && CodeAt(cell, w, [n.docol]) && CodeAt(cell, w + 8, [Cfa(n, test)]) && CodeAt(cell, w + 16, [Cfa(n, Exit)])
  {
    var w, test := TestWord(n, unless), Pure(Un(if unless then NeZero else EqZero));
    assert [n.docol] + [Cfa(n, test)] + [Cfa(n, Exit)] == [n.docol, Cfa(n, test), Cfa(n, Exit)];
    CodeAtParts(cell, w, [n.docol] + [Cfa(n, test)], [Cfa(n, Exit)]);
    CodeAtParts(cell, w, [n.docol], [Cfa(n, test)]);
  }

  lemma TestEffect(ps: seq<Word>, unless: bool, cap: nat)
    ensures PrimEffect(Un(if unless then NeZero else EqZero), ps, cap)
         == if |ps| < 1 then Failed(StackUnderflow) else Left([Flag((ps[0] != 0) == unless)] + ps[1..])
  {
  }

  /** Entering ?FALSE or ?TRUE and testing the flag. */
  lemma FlagRun(n: Nucleus, s: State, unless: bool, r: Region) returns (k: nat, t: State)
    requires s.Go? && Loaded(n, s.m.cell) && Fits(s, 1, r)
    requires CodeAt(s.m.cell, s.wp, [TestWord(n, unless)])
    ensures k >= 1 && Path(n, s, k, t, r)
    ensures if |s.rs| >= n.rcap then t == Stop(ReturnOverflow)
            else if |s.ps| < 1 then t == Stop(StackUnderflow)
            else && t == Go(TestWord(n, unless) + 16, [Flag((s.ps[0] != 0) == unless)] + s.ps[1..],
                            [NextCell(s.wp)] + s.rs, s.m)
                 && Above(r.base, t.rs)
  {
    hide Step, Path, CodeAt, Loaded, PrimEffect, Flag;
    var w, test := TestWord(n, unless), Un(if unless then NeZero else EqZero);
    TestWordCode(n, s.m.cell, unless);
    TestEffect(s.ps, unless, n.pcap);
    k := 1;
    t := EnterRun(n, s, w, r);
    if t.Go? {
      var u := PrimitiveRun(n, t, test, r);
      Join(n, s, 1, t, 1, u, r);
      return 2, u;
    }
  }

  /** Calling ?FALSE or ?TRUE replaces the flag and comes back, three steps later. */
  lemma TestWordRun(n: Nucleus, s: State, unless: bool, r: Region) returns (k: nat, t: State)
    requires s.Go? && Loaded(n, s.m.cell) && Fits(s, 1, r)
    requires CodeAt(s.m.cell, s.wp, [TestWord(n, unless)]) && s.wp + 8 < TWO64
    ensures k >= 1 && Path(n, s, k, t, r)
    ensures match TestOutcome(n, s.ps, s.m, |s.rs|)
            case Done(ps, _) => t == s.(wp := s.wp + 8, ps := [Flag((s.ps[0] != 0) == unless)] + ps)
            case Error(e) => t == Stop(e)
            case _ => false
  {
    hide Step, Path, CodeAt, Loaded, Flag;
    TestWordCode(n, s.m.cell, unless);
    k, t := FlagRun(n, s, unless, r);
    if t.Go? {
      var u := ExitRun(n, t, r);
      Join(n, s, k, t, 1, u, r);
      assert t.rs[1..] == s.rs;
      return k + 1, u;
    }
  }

  /** `?JUMP target` takes the flag. */
  lemma CondJumpRun(n: Nucleus, s: State, target: Word, r: Region) returns (t: State)
    requires s.Go? && Loaded(n, s.m.cell) && CodeAt(s.m.cell, s.wp, [Cfa(n, CondJump), target]) && Fits(s, 2, r)
    requires |s.ps| >= 1
    ensures Path(n, s, 1, t, r)
    ensures t == s.(ps := s.ps[1..], wp := if s.ps[0] != 0 then target else s.wp + 16)
  {
    var code := [Cfa(n, CondJump), target];
    assert code[0] == Cfa(n, CondJump) && code[1] == target;
    assert s.m.cell[s.wp + 8 * 0] == code[0] && s.m.cell[s.wp + 8 * 1] == code[1];
    RoutineStep(n, s, CondJump);
    OneStep(n, s, r);
    t := Step(n, s);
  }

  /** `?FALSE ?JUMP target` (or `?TRUE`): take the flag, leave for the target unless the guarded part is to run. */
  lemma TestRun(n: Nucleus, s: State, unless: bool, target: Word, r: Region) returns (k: nat, t: State)
    requires s.Go? && Loaded(n, s.m.cell) && CodeAt(s.m.cell, s.wp, Test(n, unless, target)) && Fits(s, 3, r)
    requires s.wp + 24 < TWO64
    ensures k >= 1 && Path(n, s, k, t, r)
    ensures match TestOutcome(n, s.ps, s.m, |s.rs|)
            case Done(ps, _) => t == s.(ps := ps, wp := if (s.ps[0] != 0) == unless then target else s.wp + 24)
            case Error(e) => t == Stop(e)
            case _ => false
  {
    hide Step, Path, CodeAt, Loaded;
    CodeAtParts(s.m.cell, s.wp, [TestWord(n, unless)], [Cfa(n, CondJump), target]);
    assert [TestWord(n, unless)] + [Cfa(n, CondJump), target] == Test(n, unless, target);
    k, t := TestWordRun(n, s, unless, r);
    if t.Go? {
      var u := CondJumpRun(n, t, target, r);
      Join(n, s, k, t, 1, u, r);
      assert t.ps[1..] == s.ps[1..];
      return k + 1, u;
    }
  }

  /** `JUMP target`. */
  lemma JumpRun(n: Nucleus, s: State, target: Word, r: Region)
    requires s.Go? && Loaded(n, s.m.cell) && CodeAt(s.m.cell, s.wp, [Cfa(n, Jump), target]) && Fits(s, 2, r)
    ensures Path(n, s, 1, s.(wp := target), r)
  {
    var code := [Cfa(n, Jump), target];
    assert code[0] == Cfa(n, Jump) && code[1] == target;
    assert s.m.cell[s.wp + 8 * 0] == Cfa(n, Jump) && s.m.cell[s.wp + 8 * 1] == target;
    RoutineStep(n, s, Jump);
    OneStep(n, s, r);
  }

  /** The code of literals, one LIT each. */
  function LiteralCode(n: Nucleus, ws: seq<Word>): (code: seq<int>)
    ensures |code| == 2 * |ws|
  {
    if ws == [] then [] else [Cfa(n, Lit), ws[0]] + LiteralCode(n, ws[1..])
  }

  lemma LitRun(n: Nucleus, s: State, w: Word, r: Region) returns (t: State)
    requires s.Go? && Loaded(n, s.m.cell) && CodeAt(s.m.cell, s.wp, [Cfa(n, Lit), w]) && Fits(s, 2, r)
    ensures Path(n, s, 1, t, r)
    ensures t == if |s.ps| >= n.pcap then Stop(StackOverflow) else s.(wp := s.wp + 16, ps := [w] + s.ps)
  {
    var code := [Cfa(n, Lit), w];
    assert code[0] == Cfa(n, Lit) && code[1] == w;
    assert s.m.cell[s.wp + 8 * 0] == code[0] && s.m.cell[s.wp + 8 * 1] == code[1];
    RoutineStep(n, s, Lit);
    OneStep(n, s, r);
    t := Step(n, s);
  }

  lemma {:induction false} LiteralsRun(n: Nucleus, s: State, ws: seq<Word>, r: Region) returns (k: nat, t: State)
    requires s.Go? && Loaded(n, s.m.cell) && CodeAt(s.m.cell, s.wp, LiteralCode(n, ws)) && Fits(s, 2 * |ws|, r)
    requires s.wp + 16 * |ws| < TWO64
    ensures Path(n, s, k, t, r)
    ensures var o := Literals(n, ws, s.ps, s.m); Ended(o) && t == After(s, 2 * |ws|, o)
    decreases |ws|
  {
    hide Step, Path, CodeAt, Loaded;
    if ws == [] {
      NoStep(n, s, r);
      return 0, s;
    }
    CodeAtParts(s.m.cell, s.wp, [Cfa(n, Lit), ws[0]], LiteralCode(n, ws[1..]));
    var s1 := LitRun(n, s, ws[0], r);
    if s1.Stop? {
      return 1, s1;
    }
    k, t := LiteralsRun(n, s1, ws[1..], r);
    Join(n, s, 1, s1, k, t, r);
    k := k + 1;
  }

  /** Working on memory, a routine does not care where it was called from. */
  lemma AccessAnywhere(n: Nucleus, op: Op, s: State)
    requires s.Go? && IsAccess(op)
    ensures Exec(n, op, s) == match Exec(n, op, Go(0, s.ps, [], s.m))
                              case Stop(e) => Stop(e)
                              case Go(_, ps, _, m) => s.(ps := ps, m := m)
  {
    hide PrimEffect, WriteCells, IsNegative, Reserved, CodeField, Wrap, InDictionary, NewHeader;
  }

  lemma AccessRun(n: Nucleus, lex: Lexicon, s: State, op: Op, r: Region) returns (t: State)
    requires s.Go? && Loaded(n, s.m.cell) && op in n.cfa && IsAccess(op)
    requires CodeAt(s.m.cell, s.wp, [Cfa(n, op)]) && Fits(s, 1, r)
    ensures Path(n, s, 1, t, r)
    ensures match AccessOutcome(n, lex, op, s.ps, s.m)
            case Done(ps, m) => t == s.(wp := s.wp + 8, ps := ps, m := m) && Keeps(lex.code, s.m, m)
            case Error(e) => t == Stop(e)
            case Unfinished => false
            case Strayed => true
  {
    hide Exec, Spares, Loaded, Step, Keeps;
    assert [Cfa(n, op)][0] == s.m.cell[s.wp + 8 * 0];
    RoutineStep(n, s, op);
    AccessAnywhere(n, op, s.(wp := NextCell(s.wp)));
    OneStep(n, s, r);
    t := Step(n, s);
  }

  /**
   * What a run of the code of `p` from `s` has to show for an outcome of the structured evaluation; of one that has
   * strayed it says nothing.
   */
  ghost predicate Agrees(n: Nucleus, lex: Lexicon, s: State, size: nat, o: Outcome, fuel: nat, k: nat, t: State,
                         r: Region)
    requires s.Go? && s.wp + 8 * size < TWO64
  {
    && (!o.Strayed? ==> Path(n, s, k, t, r))
    && (o.Unfinished? ==> k >= fuel)
    && (Ended(o) ==> t == After(s, size, o))
    && (o.Done? ==> Keeps(lex.code, s.m, o.m))
  }

  /** The code of `p` lies at `a`, fenced, with all that it calls. */
  ghost predicate Standing(n: Nucleus, lex: Lexicon, p: Prog, a: int, m: Memory) {
    && 0 <= a && a + 8 * Size(p) < TWO64
    && Linked(n, lex, m.cell) && Known(p, lex) && Covered(p, n)
    && CodeAt(m.cell, a, Gen(n, p, a)) && Fenced(lex, a, Size(p))
  }

  ghost predicate Ready(n: Nucleus, lex: Lexicon, p: Prog, s: State, r: Region) {
    s.Go? && Standing(n, lex, p, s.wp, s.m) && Fits(s, Size(p), r)
  }

  lemma StandingKept(n: Nucleus, lex: Lexicon, p: Prog, a: Word, m: Memory, m': Memory)
    requires Standing(n, lex, p, a, m) && Spares(lex.code, m, m')
    ensures Standing(n, lex, p, a, m')
  {
    hide Linked, CodeAt, Fenced, Spares, Known, Covered, Gen;
    SparesLinked(n, lex, m, m');
    SparesCode(lex, m, m', a, Gen(n, p, a));
  }

  lemma StandingLoaded(n: Nucleus, lex: Lexicon, p: Prog, a: Word, m: Memory)
    requires Standing(n, lex, p, a, m)
    ensures Loaded(n, m.cell) && Linkable(lex) && Known(p, lex) && Covered(p, n) && a + 8 * Size(p) < TWO64
  {
    hide Loaded, CodeAt, Fenced, Known, Covered, Gen;
  }

  function Meaning(n: Nucleus, lex: Lexicon, p: Prog, s: State, fuel: nat): Outcome
    requires s.Go? && Linkable(lex) && Known(p, lex) && s.wp + 8 * Size(p) < TWO64
  {
    Eval(n, lex, p, s.wp, s.ps, s.m, |s.rs|, fuel)
  }

  lemma FencedPart(lex: Lexicon, a: int, k: nat, i: nat, j: nat)
    requires Fenced(lex, a, k) && i + j <= k
    ensures Fenced(lex, a + 8 * i, j)
  {
    forall x | 0 <= x < j
      ensures a + 8 * i + 8 * x in lex.code
    {
      assert a + 8 * (i + x) in lex.code;
    }
  }

  /** `k` cells in, part `q` of `p` with its code stands by itself. */
  lemma PartStands(n: Nucleus, lex: Lexicon, p: Prog, a: Word, m: Memory, q: Prog, k: nat, x: seq<int>, z: seq<int>)
    requires Standing(n, lex, p, a, m) && Known(q, lex) && Covered(q, n)
    requires |x| == k && Gen(n, p, a) == x + Gen(n, q, a + 8 * k) + z
    ensures a + 8 * k + 8 * Size(q) <= a + 8 * Size(p) < TWO64
    ensures CodeAt(m.cell, a, x) && Standing(n, lex, q, a + 8 * k, m)
    ensures CodeAt(m.cell, a + 8 * k + 8 * Size(q), z)
  {
    hide Linked, CodeAt, Fenced, Known, Covered, Gen;
    var y := Gen(n, q, a + 8 * k);
    CodeAtParts(m.cell, a, x + y, z);
    CodeAtParts(m.cell, a, x, y);
    FencedPart(lex, a, Size(p), k, Size(q));
  }

  lemma Regroup(x: seq<int>, y: seq<int>, j: seq<int>, z: seq<int>)
    ensures x + y + (j + z) == x + y + j + z && x + y + j + z + [] == x + y + j + z
    ensures [] + x + y == x + y && x + y + [] == x + y && [] + x + (y + (z + j)) == x + y + z + j
  {
  }

  lemma SeqParts(n: Nucleus, lex: Lexicon, p: Prog, a: Word, m: Memory)
    requires p.Seq? && Standing(n, lex, p, a, m)
    ensures a + 8 * Size(p.first) < TWO64
    ensures Standing(n, lex, p.first, a, m) && Standing(n, lex, p.second, a + 8 * Size(p.first), m)
  {
    hide Linked, CodeAt, Fenced, Standing, Gen, Size;
    StandingLoaded(n, lex, p, a, m);
    SeqGen(n, p, a);
    var x, y := Gen(n, p.first, a), Gen(n, p.second, a + 8 * Size(p.first));
    Regroup(x, y, [], []);
    PartStands(n, lex, p, a, m, p.first, 0, [], y);
    PartStands(n, lex, p, a, m, p.second, Size(p.first), x, []);
  }

  lemma IfParts(n: Nucleus, lex: Lexicon, p: Prog, a: Word, m: Memory)
    requires p.If? && Standing(n, lex, p, a, m)
    ensures a + 24 + 8 * Size(p.thn) == a + 8 * Size(p) < TWO64
    ensures CodeAt(m.cell, a, Test(n, p.unless, a + 8 * Size(p))) && Standing(n, lex, p.thn, a + 24, m)
  {
    hide Linked, CodeAt, Fenced, Standing;
    StandingLoaded(n, lex, p, a, m);
    var x, y := Test(n, p.unless, a + 8 * Size(p)), Gen(n, p.thn, a + 24);
    assert x + y + [] == x + y;
    PartStands(n, lex, p, a, m, p.thn, 3, x, []);
  }

  lemma IfElseParts(n: Nucleus, lex: Lexicon, p: Prog, a: Word, m: Memory)
    requires p.IfElse? && Standing(n, lex, p, a, m)
    ensures var t, elseAt := a + 24 + 8 * Size(p.thn), a + 8 * (3 + Size(p.thn) + 2);
      && elseAt + 8 * Size(p.els) == a + 8 * Size(p) < TWO64
      && CodeAt(m.cell, a, Test(n, p.unless, elseAt)) && Standing(n, lex, p.thn, a + 24, m)
      && CodeAt(m.cell, t, [Cfa(n, Jump), a + 8 * Size(p)]) && Standing(n, lex, p.els, elseAt, m)
  {
    hide Linked, CodeAt, Fenced, Standing, Gen, Test, Size;
    StandingLoaded(n, lex, p, a, m);
    IfElseGen(n, p, a);
    TestLength(n, p.unless, a + 8 * (3 + Size(p.thn) + 2));
    var elseAt := a + 8 * (3 + Size(p.thn) + 2);
    var x, y := Test(n, p.unless, elseAt), Gen(n, p.thn, a + 24);
    var j, z := [Cfa(n, Jump), a + 8 * Size(p)], Gen(n, p.els, elseAt);
    Regroup(x, y, j, z);
    PartStands(n, lex, p, a, m, p.thn, 3, x, j + z);
    PartStands(n, lex, p, a, m, p.els, 3 + Size(p.thn) + 2, x + y + j, []);
    CodeAtParts(m.cell, a + 24 + 8 * Size(p.thn), j, z);
  }

  lemma LoopParts(n: Nucleus, lex: Lexicon, p: Prog, a: Word, m: Memory)
    requires (p.Until? || p.Again?) && Standing(n, lex, p, a, m)
    ensures a + 8 * Size(p.body) < TWO64 && Standing(n, lex, p.body, a, m)
    ensures CodeAt(m.cell, a + 8 * Size(p.body), if p.Until? then Test(n, false, a) else [Cfa(n, Jump), a])
  {
    hide Linked, CodeAt, Fenced, Standing, Gen, Test, Size;
    StandingLoaded(n, lex, p, a, m);
    LoopGen(n, p, a);
    var y, z := Gen(n, p.body, a), if p.Until? then Test(n, false, a) else [Cfa(n, Jump), a];
    Regroup(y, z, [], []);
    PartStands(n, lex, p, a, m, p.body, 0, [], z);
  }

  lemma WhileParts(n: Nucleus, lex: Lexicon, p: Prog, a: Word, m: Memory)
    requires p.While? && Standing(n, lex, p, a, m)
    ensures var c, bodyAt, end := a + 8 * Size(p.cond), a + 8 * (Size(p.cond) + 3), a + 8 * Size(p);
      && bodyAt + 8 * Size(p.body) + 16 == end < TWO64
      && Standing(n, lex, p.cond, a, m) && CodeAt(m.cell, c, Test(n, false, end))
      && Standing(n, lex, p.body, bodyAt, m) && CodeAt(m.cell, end - 16, [Cfa(n, Jump), a])
  {
    hide Linked, CodeAt, Fenced, Standing, Gen, Test, Size;
    StandingLoaded(n, lex, p, a, m);
    WhileGen(n, p, a);
    TestLength(n, false, a + 8 * Size(p));
    var bodyAt, end := a + 8 * (Size(p.cond) + 3), a + 8 * Size(p);
    var x, y := Gen(n, p.cond, a), Test(n, false, end);
    var z, j := Gen(n, p.body, bodyAt), [Cfa(n, Jump), a];
    Regroup(x, y, j, z);
    PartStands(n, lex, p, a, m, p.cond, 0, [], y + (z + j));
    CodeAtParts(m.cell, a + 8 * Size(p.cond), y, z + j);
    PartStands(n, lex, p, a, m, p.body, Size(p.cond) + 3, x + y, j);
  }

  /** A run up to `t`, and one from there. */
  lemma Continue(n: Nucleus, lex: Lexicon, s: State, j: nat, t: State, size: nat, o: Outcome, fuel: nat, k: nat,
                 u: State, r: Region)
    requires s.Go? && t.Go? && t.wp + 8 * size < TWO64
    requires Path(n, s, j, t, r) && Keeps(lex.code, s.m, t.m) && Agrees(n, lex, t, size, o, fuel, k, u, r)
    ensures !o.Strayed? ==> Path(n, s, j + k, u, r)
    ensures o.Unfinished? ==> j + k >= fuel
    ensures Ended(o) ==> u == After(t, size, o)
    ensures o.Done? ==> Keeps(lex.code, s.m, o.m)
  {
    hide Step, Path, Spares;
    if !o.Strayed? {
      Join(n, s, j, t, k, u, r);
    }
    if o.Done? {
      SparesTwice(lex.code, s.m, t.m, o.m);
    }
  }

  /**
   * The emitted code simulates the structured evaluation: same stack and memory at the end, same error, and as many
   * steps as there was fuel when evaluation does not finish.
   */
  lemma {:induction false} Simulate(n: Nucleus, lex: Lexicon, p: Prog, s: State, fuel: nat, r: Region)
    returns (k: nat, t: State)
    requires Ready(n, lex, p, s, r)
    ensures Agrees(n, lex, s, Size(p), Meaning(n, lex, p, s, fuel), fuel, k, t, r)
    decreases fuel, p, 1
  {
    hide Step, Path, CodeAt, Loaded, PrimEffect, Linked, Standing, Spares, AccessOutcome;
    StandingLoaded(n, lex, p, s.wp, s.m);
    KeepsSame(lex.code, s.m);
    match p
    case Skip =>
      NoStep(n, s, r);
      return 0, s;
    case Seq(_, _) =>
      k, t := SimulateSeq(n, lex, p, s, fuel, r);
    case Literal(w) =>
      StandingCode(n, lex, p, s.wp, s.m);
      assert LiteralCode(n, [w]) == Gen(n, p, s.wp);
      k, t := LiteralsRun(n, s, [w], r);
      LiteralsSpare(n, [w], s.ps, s.m);
    case Primitive(op) =>
      StandingCode(n, lex, p, s.wp, s.m);
      t := PrimitiveRun(n, s, op, r);
      k := 1;
    case Access(op) =>
      StandingCode(n, lex, p, s.wp, s.m);
      t := AccessRun(n, lex, s, op, r);
      k := 1;
    case Call(cfa) =>
      k, t := SimulateCall(n, lex, p, s, fuel, r);
    case Str(data, len) =>
      StandingCode(n, lex, p, s.wp, s.m);
      k, t := SimulateString(n, lex, p, s, fuel, r);
    case If(_, _) =>
      k, t := SimulateIf(n, lex, p, s, fuel, r);
    case IfElse(unless, thn, els) =>
      k, t := SimulateIfElse(n, lex, p, s, fuel, r);
    case Until(body) =>
      k, t := SimulateUntil(n, lex, p, s, fuel, r);
    case Again(body) =>
      k, t := SimulateAgain(n, lex, p, s, fuel, r);
    case While(cond, body) =>
      k, t := SimulateWhile(n, lex, p, s, fuel, r);
  }

  lemma StandingCode(n: Nucleus, lex: Lexicon, p: Prog, a: Word, m: Memory)
    requires Standing(n, lex, p, a, m)
    ensures CodeAt(m.cell, a, Gen(n, p, a))
  {
    hide Linked, CodeAt, Fenced, Known, Covered, Gen;
  }

  lemma {:induction false} LiteralsSpare(n: Nucleus, ws: seq<Word>, ps: seq<Word>, m: Memory)
    ensures var o := Literals(n, ws, ps, m); Ended(o) && (o.Done? ==> o.m == m)
    decreases |ws|
  {
    if ws != [] {
      LiteralsSpare(n, ws[1..], [ws[0]] + ps, m);
    }
  }

  lemma {:induction false} SimulateSeq(n: Nucleus, lex: Lexicon, p: Prog, s: State, fuel: nat, r: Region)
    returns (k: nat, t: State)
    requires p.Seq? && Ready(n, lex, p, s, r)
    ensures Agrees(n, lex, s, Size(p), Meaning(n, lex, p, s, fuel), fuel, k, t, r)
    decreases fuel, p, 0
  {
    hide Step, Path, CodeAt, Loaded, Linked, Standing, Spares;
    StandingLoaded(n, lex, p, s.wp, s.m);
    SeqParts(n, lex, p, s.wp, s.m);
    k, t := Simulate(n, lex, p.first, s, fuel, r);
    if Meaning(n, lex, p.first, s, fuel).Done? {
      StandingKept(n, lex, p.second, t.wp, s.m, t.m);
      var k2, u := Simulate(n, lex, p.second, t, fuel, r);
      Continue(n, lex, s, k, t, Size(p.second), Meaning(n, lex, p.second, t, fuel), fuel, k2, u, r);
      return k + k2, u;
    }
  }

  lemma {:induction false} SimulateIf(n: Nucleus, lex: Lexicon, p: Prog, s: State, fuel: nat, r: Region)
    returns (k: nat, t: State)
    requires p.If? && Ready(n, lex, p, s, r)
    ensures Agrees(n, lex, s, Size(p), Meaning(n, lex, p, s, fuel), fuel, k, t, r)
    decreases fuel, p, 0
  {
    hide Step, Path, CodeAt, Loaded, Linked, Standing, Spares;
    StandingLoaded(n, lex, p, s.wp, s.m);
    IfParts(n, lex, p, s.wp, s.m);
    KeepsSame(lex.code, s.m);
    k, t := TestRun(n, s, p.unless, s.wp + 8 * Size(p), r);
    if t.Go? && (s.ps[0] != 0) != p.unless {
      var k2, u := Simulate(n, lex, p.thn, t, fuel, r);
      Continue(n, lex, s, k, t, Size(p.thn), Meaning(n, lex, p.thn, t, fuel), fuel, k2, u, r);
      return k + k2, u;
    }
  }

  /** The code of a colon word in its three parts. */
  lemma ColonParts(n: Nucleus, lex: Lexicon, cfa: Word, m: Memory)
    requires Linked(n, lex, m.cell) && cfa in lex.body
    ensures Loaded(n, m.cell) && Linkable(lex)
    ensures Known(lex.body[cfa], lex) && cfa + 16 + 8 * Size(lex.body[cfa]) < TWO64
    ensures CodeAt(m.cell, cfa, [n.docol])
    ensures Standing(n, lex, lex.body[cfa], cfa + 8, m)
    ensures CodeAt(m.cell, cfa + 8 + 8 * Size(lex.body[cfa]), [Cfa(n, Exit)])
  {
    hide Loaded, Known, Covered, CodeAt, Fenced, Gen;
    var p := lex.body[cfa];
    var body := Gen(n, p, cfa + 8);
    CodeAtParts(m.cell, cfa, [n.docol] + body, [Cfa(n, Exit)]);
    CodeAtParts(m.cell, cfa, [n.docol], body);
    FencedPart(lex, cfa, Size(p) + 2, 1, Size(p));
  }

  /** The meaning of the body of a colon word called from `s`. */
  function BodyMeaning(n: Nucleus, lex: Lexicon, cfa: Word, s: State, fuel: nat): Outcome
    requires s.Go? && Linkable(lex) && cfa in lex.body
  {
    Eval(n, lex, lex.body[cfa], cfa + 8, s.ps, s.m, |s.rs| + 1, fuel)
  }

  lemma KnownCall(p: Prog, lex: Lexicon)
    requires p.Call? && Known(p, lex)
    ensures p.cfa in lex.body
  {
  }

  lemma CallMeaning(n: Nucleus, lex: Lexicon, p: Prog, s: State, fuel: nat)
    requires p.Call? && s.Go? && s.wp + 8 < TWO64 && Linkable(lex) && Known(p, lex)
    ensures Meaning(n, lex, p, s, fuel)
         == if |s.rs| >= n.rcap then Error(ReturnOverflow)
            else if fuel == 0 then Unfinished
            else BodyMeaning(n, lex, p.cfa, s, fuel - 1)
  {
  }

  /** EXIT at the end of a body returns to the caller `s`. */
  lemma LeaveBody(n: Nucleus, t: State, s: State, r: Region)
    requires t.Go? && s.Go? && s.wp + 8 < TWO64 && Loaded(n, t.m.cell) && CodeAt(t.m.cell, t.wp, [Cfa(n, Exit)])
    requires t.rs == [NextCell(s.wp)] + s.rs && Above(r.base, t.rs)
    ensures Path(n, t, 1, s.(wp := s.wp + 8, ps := t.ps, m := t.m), r)
  {
    hide Step, Path, CodeAt, Loaded;
    var u := ExitRun(n, t, r);
    assert t.rs[1..] == s.rs;
  }

  /** The colon word at `cfa` can be called from `s`. */
  ghost predicate Callable(n: Nucleus, lex: Lexicon, cfa: Word, s: State, r: Region) {
    && s.Go? && s.wp + 8 < TWO64
    && Linked(n, lex, s.m.cell) && cfa in lex.body
    && (r.base == s.rs || Above(r.base, s.rs))
  }

  /** The body of a colon word and its EXIT, for the caller state `s` it returns to. */
  lemma {:induction false} SimulateBody(n: Nucleus, lex: Lexicon, cfa: Word, s: State, fuel: nat, r: Region)
    returns (k: nat, t: State)
    requires Callable(n, lex, cfa, s, r)
    ensures Linkable(lex) && cfa in lex.body
    ensures var o := BodyMeaning(n, lex, cfa, s, fuel);
            && (!o.Strayed? ==> Path(n, Entered(s, cfa), k, t, r))
            && (o.Unfinished? ==> k >= fuel)
            && (Ended(o) ==> t == After(s, 1, o))
            && (o.Done? ==> Keeps(lex.code, s.m, o.m))
    decreases fuel, lex.body[cfa], 2
  {
    hide Step, Path, CodeAt, Loaded, Linked, Linkable, Known, Eval, Above, Standing, Spares;
    ColonParts(n, lex, cfa, s.m);
    AboveCall(r.base, s.rs, NextCell(s.wp));
    var p, s1, o := lex.body[cfa], Entered(s, cfa), BodyMeaning(n, lex, cfa, s, fuel);
    assert o == Meaning(n, lex, p, s1, fuel);
    k, t := Simulate(n, lex, p, s1, fuel, r);
    if o.Done? {
      SparesLinked(n, lex, s.m, t.m);
      ColonParts(n, lex, cfa, t.m);
      LeaveBody(n, t, s, r);
      var u := s.(wp := s.wp + 8, ps := o.ps, m := o.m);
      Join(n, s1, k, t, 1, u, r);
      return k + 1, u;
    }
  }

  /** A colon call: DOCOL, the body one return cell deeper, EXIT. */
  lemma {:induction false} SimulateCall(n: Nucleus, lex: Lexicon, p: Prog, s: State, fuel: nat, r: Region)
    returns (k: nat, t: State)
    requires p.Call? && Ready(n, lex, p, s, r)
    ensures Agrees(n, lex, s, Size(p), Meaning(n, lex, p, s, fuel), fuel, k, t, r)
    decreases fuel, p, 0
  {
    hide Step, Path, CodeAt, Loaded, Linked, Linkable, Known, Eval, Meaning, BodyMeaning, Above, Standing, Spares;
    CallStands(n, lex, p, s.wp, s.m);
    ColonParts(n, lex, p.cfa, s.m);
    CallMeaning(n, lex, p, s, fuel);
    KeepsSame(lex.code, s.m);
    if |s.rs| < n.rcap && fuel == 0 {
      NoStep(n, s, r);
      k, t := 0, s;
      return;
    }
    var s1 := EnterRun(n, s, p.cfa, r);
    k, t := 1, s1;
    if s1.Go? {
      var o := BodyMeaning(n, lex, p.cfa, s, fuel - 1);
      var j, u := SimulateBody(n, lex, p.cfa, s, fuel - 1, r);
      if !o.Strayed? {
        Join(n, s, 1, s1, j, u, r);
      }
      k, t := 1 + j, u;
    }
  }

  lemma CallStands(n: Nucleus, lex: Lexicon, p: Prog, a: Word, m: Memory)
    requires p.Call? && Standing(n, lex, p, a, m)
    ensures Linked(n, lex, m.cell) && Known(p, lex) && p.cfa in lex.body && a + 8 < TWO64 && CodeAt(m.cell, a, [p.cfa])
  {
    hide Linked, CodeAt, Fenced;
  }

  /** An embedded string: jump over the bytes, then push their address and number. */
  lemma SimulateString(n: Nucleus, lex: Lexicon, p: Prog, s: State, fuel: nat, r: Region) returns (k: nat, t: State)
    requires p.Str? && s.Go? && Loaded(n, s.m.cell) && s.wp + 8 * Size(p) < TWO64
    requires CodeAt(s.m.cell, s.wp, Gen(n, p, s.wp)) && Fits(s, Size(p), r)
    ensures Agrees(n, lex, s, Size(p), Literals(n, [s.wp + 16, p.len], s.ps, s.m), fuel, k, t, r)
  {
    hide Step, Path, CodeAt, Loaded, Spares;
    var c, a := s.m.cell, s.wp;
    var skip, load := [Cfa(n, Jump), a + 8 * (2 + |p.data|)], [Cfa(n, Lit), a + 16, Cfa(n, Lit), p.len];
    CodeAtParts(c, a, skip + p.data, load);
    CodeAtParts(c, a, skip, p.data);
    var over := a + 8 * (2 + |p.data|);
    JumpRun(n, s, over, r);
    var s1 := s.(wp := over);
    var pushed: seq<Word> := [a + 16, p.len];
    assert pushed[1..] == [p.len];
    assert LiteralCode(n, [p.len]) == [Cfa(n, Lit), p.len];
    assert LiteralCode(n, pushed) == load;
    k, t := LiteralsRun(n, s1, pushed, r);
    LiteralsSpare(n, pushed, s.ps, s.m);
    KeepsSame(lex.code, s.m);
    Join(n, s, 1, s1, k, t, r);
    k := k + 1;
  }

  lemma {:induction false} SimulateIfElse(n: Nucleus, lex: Lexicon, p: Prog, s: State, fuel: nat, r: Region)
    returns (k: nat, t: State)
    requires p.IfElse? && Ready(n, lex, p, s, r)
    ensures Agrees(n, lex, s, Size(p), Meaning(n, lex, p, s, fuel), fuel, k, t, r)
    decreases fuel, p, 0
  {
    hide Step, Path, CodeAt, Loaded, Linked, Standing, Spares;
    var a := s.wp;
    var elseAt, end := a + 8 * (3 + Size(p.thn) + 2), a + 8 * Size(p);
    StandingLoaded(n, lex, p, a, s.m);
    IfElseParts(n, lex, p, a, s.m);
    KeepsSame(lex.code, s.m);
    k, t := TestRun(n, s, p.unless, elseAt, r);
    if t.Stop? {
      return;
    }
    if (s.ps[0] != 0) == p.unless {
      var k2, u := Simulate(n, lex, p.els, t, fuel, r);
      Continue(n, lex, s, k, t, Size(p.els), Meaning(n, lex, p.els, t, fuel), fuel, k2, u, r);
      return k + k2, u;
    }
    var o := Meaning(n, lex, p.thn, t, fuel);
    var k2, u := Simulate(n, lex, p.thn, t, fuel, r);
    Continue(n, lex, s, k, t, Size(p.thn), o, fuel, k2, u, r);
    k := k + k2;
    if o.Done? {
      StandingKept(n, lex, p, a, s.m, u.m);
      IfElseParts(n, lex, p, a, u.m);
      StandingLoaded(n, lex, p, a, u.m);
      JumpRun(n, u, end, r);
      Join(n, s, k, u, 1, u.(wp := end), r);
      return k + 1, u.(wp := end);
    }
    t := u;
  }

  lemma {:induction false} SimulateUntil(n: Nucleus, lex: Lexicon, p: Prog, s: State, fuel: nat, r: Region)
    returns (k: nat, t: State)
    requires p.Until? && Ready(n, lex, p, s, r)
    ensures Agrees(n, lex, s, Size(p), Meaning(n, lex, p, s, fuel), fuel, k, t, r)
    decreases fuel, p, 0
  {
    hide Step, Path, CodeAt, Loaded, Linked, Standing, Spares;
    StandingLoaded(n, lex, p, s.wp, s.m);
    LoopParts(n, lex, p, s.wp, s.m);
    k, t := Simulate(n, lex, p.body, s, fuel, r);
    if !Meaning(n, lex, p.body, s, fuel).Done? {
      return;
    }
    StandingKept(n, lex, p, s.wp, s.m, t.m);
    LoopParts(n, lex, p, s.wp, t.m);
    StandingLoaded(n, lex, p, s.wp, t.m);
    var k2, u := TestRun(n, t, false, s.wp, r);
    Join(n, s, k, t, k2, u, r);
    var ps := t.ps;
    k, t := k + k2, u;
    if u.Go? && ps[0] == 0 && fuel > 0 {
      var k3, v := Simulate(n, lex, p, u, fuel - 1, r);
      Continue(n, lex, s, k, u, Size(p), Meaning(n, lex, p, u, fuel - 1), fuel - 1, k3, v, r);
      return k + k3, v;
    }
  }

  lemma {:induction false} SimulateAgain(n: Nucleus, lex: Lexicon, p: Prog, s: State, fuel: nat, r: Region)
    returns (k: nat, t: State)
    requires p.Again? && Ready(n, lex, p, s, r)
    ensures Agrees(n, lex, s, Size(p), Meaning(n, lex, p, s, fuel), fuel, k, t, r)
    decreases fuel, p, 0
  {
    hide Step, Path, CodeAt, Loaded, Linked, Standing, Spares;
    StandingLoaded(n, lex, p, s.wp, s.m);
    LoopParts(n, lex, p, s.wp, s.m);
    k, t := Simulate(n, lex, p.body, s, fuel, r);
    if !Meaning(n, lex, p.body, s, fuel).Done? {
      return;
    }
    StandingKept(n, lex, p, s.wp, s.m, t.m);
    LoopParts(n, lex, p, s.wp, t.m);
    StandingLoaded(n, lex, p, s.wp, t.m);
    var u := t.(wp := s.wp);
    JumpRun(n, t, s.wp, r);
    Join(n, s, k, t, 1, u, r);
    k, t := k + 1, u;
    if fuel > 0 {
      var k2, v := Simulate(n, lex, p, u, fuel - 1, r);
      Continue(n, lex, s, k, u, Size(p), Meaning(n, lex, p, u, fuel - 1), fuel - 1, k2, v, r);
      return k + k2, v;
    }
  }

  /** What is left of a WHILE loop once its test has passed: a round, and the loop again. */
  function RoundMeaning(n: Nucleus, lex: Lexicon, p: Prog, a: Word, b: State, fuel: nat): Outcome
    requires p.While? && b.Go? && Linkable(lex) && Known(p, lex) && a + 8 * Size(p) < TWO64
    requires b.wp == a + 8 * (Size(p.cond) + 3)
  {
    var o := Meaning(n, lex, p.body, b, fuel);
    if !o.Done? then o
    else if fuel == 0 then Unfinished
    else Eval(n, lex, p, a, o.ps, o.m, |b.rs|, fuel - 1)
  }

  /** One round of the loop after its test has passed, and the rounds that follow. */
  lemma {:induction false} SimulateRound(n: Nucleus, lex: Lexicon, p: Prog, a: Word, b: State, fuel: nat, r: Region)
    returns (k: nat, t: State)
    requires p.While? && b.Go? && Standing(n, lex, p, a, b.m) && Fits(b.(wp := a), Size(p), r)
    requires b.wp == a + 8 * (Size(p.cond) + 3)
    ensures Linkable(lex) && Known(p, lex) && a + 8 * Size(p) < TWO64
    ensures Agrees(n, lex, b, Size(p.body) + 2, RoundMeaning(n, lex, p, a, b, fuel), fuel, k, t, r)
    decreases fuel, p, 0, 0
  {
    hide Step, Path, CodeAt, Loaded, Linked, Standing, Spares, Eval;
    StandingLoaded(n, lex, p, a, b.m);
    WhileParts(n, lex, p, a, b.m);
    k, t := Simulate(n, lex, p.body, b, fuel, r);
    var o := Meaning(n, lex, p.body, b, fuel);
    if o.Done? {
      StandingKept(n, lex, p, a, b.m, t.m);
      WhileParts(n, lex, p, a, t.m);
      StandingLoaded(n, lex, p, a, t.m);
      var u := t.(wp := a);
      JumpRun(n, t, a, r);
      Join(n, b, k, t, 1, u, r);
      k, t := k + 1, u;
      if fuel > 0 {
        var j, v := Simulate(n, lex, p, u, fuel - 1, r);
        Continue(n, lex, b, k, u, Size(p), Meaning(n, lex, p, u, fuel - 1), fuel - 1, j, v, r);
        k, t := k + j, v;
      }
    }
  }

  lemma {:induction false} SimulateWhile(n: Nucleus, lex: Lexicon, p: Prog, s: State, fuel: nat, r: Region)
    returns (k: nat, t: State)
    requires p.While? && Ready(n, lex, p, s, r)
    ensures Agrees(n, lex, s, Size(p), Meaning(n, lex, p, s, fuel), fuel, k, t, r)
    decreases fuel, p, 0
  {
    hide Step, Path, CodeAt, Loaded, Linked, Standing, Spares;
    var a, end := s.wp, s.wp + 8 * Size(p);
    StandingLoaded(n, lex, p, a, s.m);
    WhileParts(n, lex, p, a, s.m);
    k, t := Simulate(n, lex, p.cond, s, fuel, r);
    if !Meaning(n, lex, p.cond, s, fuel).Done? {
      return;
    }
    var ps := t.ps;
    StandingKept(n, lex, p, a, s.m, t.m);
    WhileParts(n, lex, p, a, t.m);
    StandingLoaded(n, lex, p, a, t.m);
    var k2, u := TestRun(n, t, false, end, r);
    Join(n, s, k, t, k2, u, r);
    k, t := k + k2, u;
    if u.Go? && ps[0] != 0 {
      var k3, v := SimulateRound(n, lex, p, a, u, fuel, r);
      Continue(n, lex, s, k, u, Size(p.body) + 2, RoundMeaning(n, lex, p, a, u, fuel), fuel, k3, v, r);
      return k + k3, v;
    }
  }

  /** The run from `s` first leaves the region in `t`, by reaching its end or by stopping. */
  ghost predicate Leaves(n: Nucleus, s: State, k: nat, t: State, r: Region) {
    Path(n, s, k, t, r) && !Inside(t, r)
  }

  lemma {:induction false} LeavesOnce(n: Nucleus, s: State, j: nat, t: State, k: nat, u: State, r: Region)
    requires Leaves(n, s, j, t, r) && Path(n, s, k, u, r)
    ensures k <= j
    ensures !Inside(u, r) ==> j == k && t == u
    decreases j
  {
    hide Step;
    if j != 0 && k != 0 {
      LeavesOnce(n, Step(n, s), j - 1, t, k - 1, u, r);
    }
  }

  /** The region a program occupies when it runs from `s`. */
  function Home(p: Prog, s: State): Region {
    if s.Go? then Region(s.wp, s.wp + 8 * Size(p), s.rs) else Region(0, 0, [])
  }

  /** The structured evaluation ends within `fuel`, and `t` is where that leaves the machine. */
  ghost predicate Ends(n: Nucleus, lex: Lexicon, p: Prog, s: State, fuel: nat, t: State) {
    && s.Go? && Linkable(lex) && Known(p, lex) && s.wp + 8 * Size(p) < TWO64
    && var o := Meaning(n, lex, p, s, fuel); Ended(o) && t == After(s, Size(p), o)
  }

  /** The program changes a cell of code. */
  ghost predicate Strays(n: Nucleus, lex: Lexicon, p: Prog, s: State, fuel: nat) {
    s.Go? && Linkable(lex) && Known(p, lex) && s.wp + 8 * Size(p) < TWO64 && Meaning(n, lex, p, s, fuel).Strayed?
  }

  lemma AfterOutside(p: Prog, s: State, o: Outcome)
    requires s.Go? && s.wp + 8 * Size(p) < TWO64 && Ended(o)
    ensures !Inside(After(s, Size(p), o), Home(p, s))
  {
  }

  lemma EndsLeaves(n: Nucleus, lex: Lexicon, p: Prog, s: State, fuel: nat, t: State) returns (k: nat)
    requires Ready(n, lex, p, s, Home(p, s)) && Ends(n, lex, p, s, fuel, t)
    ensures Leaves(n, s, k, t, Home(p, s))
  {
    hide Step, Path, Meaning, Standing;
    var u;
    k, u := Simulate(n, lex, p, s, fuel, Home(p, s));
  }

  lemma LeavesEnds(n: Nucleus, lex: Lexicon, p: Prog, s: State, k: nat, t: State)
    requires Ready(n, lex, p, s, Home(p, s)) && Leaves(n, s, k, t, Home(p, s))
    ensures Ends(n, lex, p, s, k + 1, t) || Strays(n, lex, p, s, k + 1)
  {
    hide Step, Path, Meaning, Standing, Inside, Fits;
    StandingLoaded(n, lex, p, s.wp, s.m);
    var o := Meaning(n, lex, p, s, k + 1);
    var j, u := Simulate(n, lex, p, s, k + 1, Home(p, s));
    if !o.Strayed? {
      if Ended(o) {
        AfterOutside(p, s, o);
      }
      LeavesOnce(n, s, k, t, j, u, Home(p, s));
    }
  }

  /**
   * The run of the emitted cells leaves them exactly when the structured evaluation ends, and then in the matching
   * way: at the end of the code with the same parameter stack, the same memory and the return stack of the start, or
   * with the same error. A run that never leaves is one whose evaluation no amount of fuel finishes. Only of a program
   * that changes a cell of code nothing is said.
   */
  lemma CompilerCorrect(n: Nucleus, lex: Lexicon, p: Prog, s: State, t: State)
    requires Ready(n, lex, p, s, Home(p, s))
    ensures (exists fuel: nat :: Ends(n, lex, p, s, fuel, t)) ==> (exists k: nat :: Leaves(n, s, k, t, Home(p, s)))
    ensures (exists k: nat :: Leaves(n, s, k, t, Home(p, s))) ==>
              (exists fuel: nat :: Ends(n, lex, p, s, fuel, t)) || exists fuel: nat :: Strays(n, lex, p, s, fuel)
  {
    hide Ready, Leaves, Ends, Strays;
    if k: nat :| Leaves(n, s, k, t, Home(p, s)) {
      LeavesEnds(n, lex, p, s, k, t);
    }
    if fuel: nat :| Ends(n, lex, p, s, fuel, t) {
      var k := EndsLeaves(n, lex, p, s, fuel, t);
    }
  }

  /** More fuel never changes the result of an evaluation that ended. */
  lemma FuelIsOnlyFuel(n: Nucleus, lex: Lexicon, p: Prog, s: State, f: nat, g: nat)
    requires Ready(n, lex, p, s, Home(p, s)) && Linkable(lex) && Known(p, lex) && s.wp + 8 * Size(p) < TWO64
    requires Ended(Meaning(n, lex, p, s, f)) && Ended(Meaning(n, lex, p, s, g))
    ensures Meaning(n, lex, p, s, f) == Meaning(n, lex, p, s, g)
  {
    hide Step, Path, Meaning, Standing;
    var k, t := Simulate(n, lex, p, s, f, Home(p, s));
    var j, u := Simulate(n, lex, p, s, g, Home(p, s));
    LeavesOnce(n, s, k, t, j, u, Home(p, s));
  }
}
