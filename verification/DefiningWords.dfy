/**
 * CREATE and DOES>: a word whose body is `setup CREATE , ... DOES> tail` makes words that push their parameter field
 * and run the tail.
 */
module DefiningWords {
  import opened Words
  import opened Machine
  import opened ControlFlow
  import opened Simulation

  /** The built-in colon words as they are laid out in the nucleus. */
  function CreateCode(n: Nucleus): seq<int> {
    [n.docol, Cfa(n, Create), Cfa(n, Pure(Drop)), Cfa(n, Lit), n.douser, Cfa(n, Comma), Cfa(n, Lit), 0, Cfa(n, Comma),
     Cfa(n, Exit)]
  }

  function DoesCode(n: Nucleus): seq<int> {
    [n.docol, Cfa(n, ToLatest), Cfa(n, Fetch), Cfa(n, ToCfa), Cfa(n, Pure(Dup)), Cfa(n, Fetch), Cfa(n, Lit), n.douser,
     Cfa(n, Pure(Bin(Ne))), Cfa(n, CondJump), n.does + 8 * 21, Cfa(n, Lit), 8, Cfa(n, Pure(Bin(Add))), Cfa(n, FromRet),
     Cfa(n, Pure(Swap)), Cfa(n, Store), Cfa(n, Lit), n.does + 8 * 20, Cfa(n, ToRet), Cfa(n, Exit), Cfa(n, Pure(Drop)),
     Cfa(n, Exit)]
  }

  lemma CodeLengths(n: Nucleus)
    ensures |CreateCode(n)| == 10 && |DoesCode(n)| == 23
  {
  }

  /** `k` cells at `a` that lie outside the dictionary space. */
  predicate Apart(n: Nucleus, a: Word, k: nat) {
    a + 8 * k <= n.org || n.limit <= a
  }

  /** The nucleus is loaded outside the dictionary space, so compiling cannot overwrite it. */
  ghost predicate Defining(n: Nucleus, m: Memory) {
    && Loaded(n, m.cell)
    && CodeAt(m.cell, n.create, CreateCode(n)) && CodeAt(m.cell, n.does, DoesCode(n))
    && {Create, Comma, ToLatest, Fetch, ToCfa, FromRet, ToRet, Store, Pure(Drop), Pure(Dup), Pure(Swap),
        Pure(Bin(Ne)), Pure(Bin(Add))} <= n.cfa.Keys
    && (forall op <- n.cfa :: Apart(n, n.cfa[op], 1))
    && Apart(n, n.isFalse, 3) && Apart(n, n.isTrue, 3) && Apart(n, n.create, 10) && Apart(n, n.does, 23)
    && Placed(n, m)
    && n.latestVar !in m.cell && Apart(n, n.latestVar, 1)
  }

  /** Only cells of the dictionary space differ. */
  ghost predicate Confined(n: Nucleus, m: Memory, m': Memory) {
    forall a: Word | !(n.org <= a < n.limit) ::
      (a in m.cell <==> a in m'.cell) && (a in m.cell ==> m'.cell[a] == m.cell[a])
  }

  lemma ConfinedCode(n: Nucleus, m: Memory, m': Memory, a: Word, code: seq<int>)
    requires Confined(n, m, m') && CodeAt(m.cell, a, code) && Apart(n, a, |code|)
    ensures CodeAt(m'.cell, a, code)
  {
  }

  lemma StillDefining(n: Nucleus, m: Memory, m': Memory)
    requires Defining(n, m) && Confined(n, m, m')
    requires Placed(n, m')
    ensures Defining(n, m')
  {
    hide CodeAt, Loaded, CreateCode, DoesCode, Cfa;
    CodeLengths(n);
    ConfinedCode(n, m, m', n.create, CreateCode(n));
    ConfinedCode(n, m, m', n.does, DoesCode(n));
    StillLoaded(n, m, m');
  }

  lemma StillLoaded(n: Nucleus, m: Memory, m': Memory)
    requires Defining(n, m) && Confined(n, m, m')
    ensures Loaded(n, m'.cell)
  {
    ConfinedCode(n, m, m', n.isFalse, [n.docol, Cfa(n, Pure(Un(EqZero))), Cfa(n, Exit)]);
    ConfinedCode(n, m, m', n.isTrue, [n.docol, Cfa(n, Pure(Un(NeZero))), Cfa(n, Exit)]);
    forall op <- n.cfa
      ensures n.cfa[op] in m'.cell && m'.cell[n.cfa[op]] == m.cell[n.cfa[op]]
    {
      assert Apart(n, n.cfa[op], 1);
    }
  }

  /** Address of the `i`-th cell of code at `base`. */
  function Nth(base: Word, i: nat): Word {
    if base + 8 * i < TWO64 then base + 8 * i else 0
  }

  /** The machine stands at cell `i` of `code`, which lies at `base`; the nucleus is loaded. */
  ghost predicate At(n: Nucleus, s: State, base: Word, code: seq<int>, i: nat) {
    s.Go? && Defining(n, s.m) && CodeAt(s.m.cell, base, code) && i < |code| && s.wp == Nth(base, i)
  }

  /** One step of a built-in word: cell `i` of its code names a routine. */
  lemma CodeStep(n: Nucleus, s: State, base: Word, code: seq<int>, i: nat, op: Op)
    requires At(n, s, base, code, i) && op in n.cfa && op != RunCode && code[i] == Cfa(n, op)
    ensures Step(n, s) == Exec(n, op, s.(wp := Nth(base, i + 1)))
  {
    hide Defining, CodeAt, Step, Exec, Loaded;
    CodeCell(n, s, base, code, i);
    DefiningLoaded(n, s.m);
    RoutineStep(n, s, op);
  }

  lemma CodeCell(n: Nucleus, s: State, base: Word, code: seq<int>, i: nat)
    requires At(n, s, base, code, i)
    ensures s.wp in s.m.cell && s.m.cell[s.wp] == code[i] && base + 8 * |code| < TWO64
    ensures i + 1 < |code| ==> Nth(base, i + 1) in s.m.cell && s.m.cell[Nth(base, i + 1)] == code[i + 1]
  {
    hide Defining;
    assert s.m.cell[base + 8 * i] == code[i];
    assert i + 1 < |code| ==> s.m.cell[base + 8 * (i + 1)] == code[i + 1];
  }

  lemma DefiningLoaded(n: Nucleus, m: Memory)
    requires Defining(n, m)
    ensures Loaded(n, m.cell) && Placed(n, m)
    ensures {Exit, Lit, CondJump, Create, Comma, ToLatest, Fetch, ToCfa, FromRet, ToRet, Store, Pure(Drop), Pure(Dup),
             Pure(Swap), Pure(Bin(Ne)), Pure(Bin(Add))} <= n.cfa.Keys
    ensures n.latestVar !in m.cell
  {
  }

  /** LIT and its operand. */
  lemma LitStep(n: Nucleus, s: State, base: Word, code: seq<int>, i: nat, w: Word)
    requires At(n, s, base, code, i) && i + 1 < |code| && code[i] == Cfa(n, Lit) && code[i + 1] == w
    requires |s.ps| < n.pcap
    ensures Step(n, s) == s.(wp := Nth(base, i + 2), ps := [w] + s.ps)
  {
    hide Defining, CodeAt, Step, Loaded;
    CodeCell(n, s, base, code, i);
    DefiningLoaded(n, s.m);
    CodeStep(n, s, base, code, i, Lit);
  }

  predicate CreateFits(n: Nucleus, m: Memory) {
    m.names != [] && m.here + 8 + 8 * |m.names[0]| + 16 <= n.limit
  }

  /** The codeword address of the word that CREATE is about to make. */
  function NewWord(n: Nucleus, m: Memory): Word
    requires CreateFits(n, m)
  {
    m.here + 8 + 8 * |m.names[0]|
  }

  /** The header that `_CREATE` lays. */
  function Headed(n: Nucleus, m: Memory): Memory
    requires CreateFits(n, m)
  {
    Memory(WriteCells(m.cell, m.here, [m.latest] + m.names[0]), NewWord(n, m), m.here, m.names[1..])
  }

  /** One more cell. */
  function Laid(m: Memory, w: Word): Memory {
    m.(cell := m.cell[m.here := w], here := NextCell(m.here))
  }

  /** The memory that CREATE leaves: header, codeword and an empty code pointer. */
  function Created(n: Nucleus, m: Memory): Memory
    requires CreateFits(n, m)
  {
    Laid(Laid(Headed(n, m), n.douser), 0)
  }

  /** HERE is a cell of the dictionary space. */
  predicate Placed(n: Nucleus, m: Memory) {
    n.org <= m.here <= n.limit && (m.here - n.org) % 8 == 0 && n.org % 8 == 0
  }

  lemma HeadedConfined(n: Nucleus, m: Memory)
    requires CreateFits(n, m) && Placed(n, m)
    ensures Confined(n, m, Headed(n, m)) && Placed(n, Headed(n, m))
  {
  }

  lemma LaidConfined(n: Nucleus, m: Memory, w: Word)
    requires Placed(n, m) && m.here + 8 <= n.limit
    ensures Confined(n, m, Laid(m, w)) && Placed(n, Laid(m, w))
  {
  }

  lemma {:induction false} OneMore(n: Nucleus, s: State, k: nat, t: State)
    requires Run(n, s, k) == t
    ensures Run(n, s, k + 1) == Step(n, t)
    decreases k
  {
    hide Step;
    if k > 0 {
      OneMore(n, Step(n, s), k - 1, t);
    }
  }

  lemma NoRun(n: Nucleus, s: State)
    ensures Run(n, s, 0) == s
  {
  }

  /** A cell of the running word calls a built-in colon word. */
  ghost predicate Calls(n: Nucleus, s: State, cfa: Word, code: seq<int>) {
    && s.Go? && s.wp + 8 < TWO64 && Defining(n, s.m)
    && CodeAt(s.m.cell, s.wp, [cfa])
    && CodeAt(s.m.cell, cfa, code) && code != [] && code[0] == n.docol
  }

  lemma EnterStep(n: Nucleus, s: State, cfa: Word, code: seq<int>)
    requires Calls(n, s, cfa, code) && |s.rs| < n.rcap
    ensures Step(n, s) == Entered(s, cfa) && Entered(s, cfa).wp == Nth(cfa, 1)
  {
    hide Defining;
    assert [cfa][0] == s.m.cell[s.wp + 8 * 0];
    assert code[0] == s.m.cell[cfa + 8 * 0];
    ColonStep(n, s, cfa);
  }

  lemma CommaStep(n: Nucleus, s: State, base: Word, code: seq<int>, i: nat)
    requires At(n, s, base, code, i) && code[i] == Cfa(n, Comma) && s.ps != [] && s.m.here + 8 <= n.limit
    ensures Step(n, s) == Go(Nth(base, i + 1), s.ps[1..], s.rs, Laid(s.m, s.ps[0]))
  {
    hide Defining, CodeAt, Loaded, Step;
    DefiningLoaded(n, s.m);
    CodeStep(n, s, base, code, i, Comma);
  }

  lemma DropStep(n: Nucleus, s: State, base: Word, code: seq<int>, i: nat)
    requires At(n, s, base, code, i) && code[i] == Cfa(n, Pure(Drop)) && s.ps != []
    ensures Step(n, s) == s.(wp := Nth(base, i + 1), ps := s.ps[1..])
  {
    hide Defining, CodeAt, Loaded, Step;
    DefiningLoaded(n, s.m);
    CodeStep(n, s, base, code, i, Pure(Drop));
  }

  lemma ExitStep(n: Nucleus, s: State, base: Word, code: seq<int>, i: nat)
    requires At(n, s, base, code, i) && code[i] == Cfa(n, Exit) && s.rs != []
    ensures Step(n, s) == s.(wp := s.rs[0], rs := s.rs[1..])
  {
    hide Defining, CodeAt, Loaded, Step;
    DefiningLoaded(n, s.m);
    CodeStep(n, s, base, code, i, Exit);
  }

  ghost predicate AtHeader(n: Nucleus, s: State, base: Word, code: seq<int>, i: nat) {
    At(n, s, base, code, i) && code[i] == Cfa(n, Create) && |s.ps| < n.pcap && CreateFits(n, s.m)
  }

  lemma HeaderStep(n: Nucleus, s: State, base: Word, code: seq<int>, i: nat)
    requires AtHeader(n, s, base, code, i)
    ensures Step(n, s) == Go(Nth(base, i + 1), [NewWord(n, s.m)] + s.ps, s.rs, Headed(n, s.m))
  {
    hide Defining, CodeAt, Loaded, Step, WriteCells;
    DefiningLoaded(n, s.m);
    CodeStep(n, s, base, code, i, Create);
  }

  /** The code of CREATE and DOES> survives every change confined to the dictionary. */
  lemma Survives(n: Nucleus, m: Memory, m': Memory)
    requires Defining(n, m) && Confined(n, m, m') && Placed(n, m')
    ensures Defining(n, m')
    ensures CodeAt(m'.cell, n.create, CreateCode(n)) && CodeAt(m'.cell, n.does, DoesCode(n))
  {
    hide CodeAt, Confined;
    StillDefining(n, m, m');
  }

  /** CREATE, up to the header. */
  lemma CreateHead(n: Nucleus, s: State) returns (t: State)
    requires Calls(n, s, n.create, CreateCode(n))
    requires |s.ps| < n.pcap && |s.rs| < n.rcap && CreateFits(n, s.m)
    ensures Run(n, s, 3) == t == Go(Nth(n.create, 3), s.ps, [NextCell(s.wp)] + s.rs, Headed(n, s.m))
    ensures Defining(n, t.m)
  {
    hide Step, Run, CodeAt, Loaded, Headed, Defining, Confined;
    var code := CreateCode(n);
    NoRun(n, s);
    EnterStep(n, s, n.create, code);
    OneMore(n, s, 0, s);
    var s1 := Entered(s, n.create);
    HeaderStep(n, s1, n.create, code, 1);
    OneMore(n, s, 1, s1);
    var s2 := Go(Nth(n.create, 2), [NewWord(n, s.m)] + s.ps, s1.rs, Headed(n, s.m));
    DefiningLoaded(n, s.m);
    HeadedConfined(n, s.m);
    Survives(n, s.m, s2.m);
    DropStep(n, s2, n.create, code, 2);
    OneMore(n, s, 2, s2);
    assert s2.ps[1..] == s.ps;
    t := Go(Nth(n.create, 3), s.ps, s1.rs, s2.m);
  }

  /** LIT w , */
  lemma LaySteps(n: Nucleus, s: State, base: Word, code: seq<int>, i: nat, w: Word) returns (t: State)
    requires At(n, s, base, code, i) && |s.ps| < n.pcap && s.m.here + 8 <= n.limit
    requires i + 2 < |code| && code[i] == Cfa(n, Lit) && code[i + 1] == w && code[i + 2] == Cfa(n, Comma)
    ensures Run(n, s, 2) == t == Go(Nth(base, i + 3), s.ps, s.rs, Laid(s.m, w))
    ensures Defining(n, t.m) && CodeAt(t.m.cell, n.create, CreateCode(n))
  {
    hide Step, Run, CodeAt, Loaded, Laid, Defining, Confined;
    NoRun(n, s);
    LitStep(n, s, base, code, i, w);
    OneMore(n, s, 0, s);
    var s1 := s.(wp := Nth(base, i + 2), ps := [w] + s.ps);
    CommaStep(n, s1, base, code, i + 2);
    OneMore(n, s, 1, s1);
    assert s1.ps[1..] == s.ps;
    t := Go(Nth(base, i + 3), s.ps, s.rs, Laid(s.m, w));
    DefiningLoaded(n, s.m);
    LaidConfined(n, s.m, w);
    Survives(n, s.m, t.m);
  }

  lemma {:induction false} RunJoin(n: Nucleus, s: State, j: nat, t: State, k: nat)
    requires Run(n, s, j) == t
    ensures Run(n, s, j + k) == Run(n, t, k)
    decreases j
  {
    hide Step;
    if j > 0 {
      RunJoin(n, Step(n, s), j - 1, t, k);
    }
  }

  /** CREATE makes a header, a codeword and an empty code pointer, and leaves both stacks alone. */
  lemma CreateRun(n: Nucleus, s: State)
    requires Calls(n, s, n.create, CreateCode(n))
    requires |s.ps| < n.pcap && |s.rs| < n.rcap && CreateFits(n, s.m)
    ensures Run(n, s, 8) == Go(NextCell(s.wp), s.ps, s.rs, Created(n, s.m)) && Defining(n, Created(n, s.m))
  {
    hide Step, Run, CodeAt, Loaded, Laid, Headed, Defining;
    var code := CreateCode(n);
    var s3 := CreateHead(n, s);
    CreateCodeAt(n, s3.m);
    HeadedHere(n, s.m);
    var s5 := LaySteps(n, s3, n.create, code, 3, n.douser);
    RunJoin(n, s, 3, s3, 2);
    LaidHere(s3.m, n.douser);
    var s7 := LaySteps(n, s5, n.create, code, 6, 0);
    RunJoin(n, s, 5, s5, 2);
    ExitStep(n, s7, n.create, code, 9);
    OneMore(n, s, 7, s7);
    assert s7.rs[1..] == s.rs;
  }

  lemma CreateCodeAt(n: Nucleus, m: Memory)
    requires Defining(n, m)
    ensures CodeAt(m.cell, n.create, CreateCode(n)) && CodeAt(m.cell, n.does, DoesCode(n))
  {
    hide CodeAt, Loaded;
  }

  lemma HeadedHere(n: Nucleus, m: Memory)
    requires CreateFits(n, m)
    ensures Headed(n, m).here == NewWord(n, m)
  {
  }

  lemma LaidHere(m: Memory, w: Word)
    requires m.here + 8 < TWO64
    ensures Laid(m, w).here == m.here + 8
  {
  }

  /** The newest entry is a word made by CREATE, with its codeword at `w`. */
  ghost predicate Newest(n: Nucleus, m: Memory, w: Word) {
    && m.latest != 0 && NextCell(m.latest) in m.cell && CodeField(m.latest, m.cell[NextCell(m.latest)]) == w
    && w + 8 < TWO64 && w in m.cell && m.cell[w] == n.douser
    && w + 8 in m.cell && InDictionary(n, m, w + 8)
  }

  /** The state inside DOES>: at cell `i`, with `ps` and `rs`. */
  function InDoes(n: Nucleus, i: nat, ps: seq<Word>, rs: seq<Word>, m: Memory): State {
    Go(Nth(n.does, i), ps, rs, m)
  }

  /** DOES> finds the codeword of the newest entry, */
  lemma DoesHead(n: Nucleus, s: State, w: Word)
    requires Calls(n, s, n.does, DoesCode(n)) && Newest(n, s.m, w)
    requires |s.ps| < n.pcap && |s.rs| < n.rcap
    ensures Run(n, s, 4) == InDoes(n, 4, [w] + s.ps, [NextCell(s.wp)] + s.rs, s.m)
  {
    hide Step, Run, CodeAt, Loaded, Defining;
    var code, rs, m := DoesCode(n), [NextCell(s.wp)] + s.rs, s.m;
    DefiningLoaded(n, m);
    NoRun(n, s);
    EnterStep(n, s, n.does, code);
    OneMore(n, s, 0, s);
    var s1 := InDoes(n, 1, s.ps, rs, m);
    CodeStep(n, s1, n.does, code, 1, ToLatest);
    OneMore(n, s, 1, s1);
    var s2 := InDoes(n, 2, [n.latestVar] + s.ps, rs, m);
    CodeStep(n, s2, n.does, code, 2, Fetch);
    OneMore(n, s, 2, s2);
    var s3 := InDoes(n, 3, [m.latest] + s.ps, rs, m);
    CodeStep(n, s3, n.does, code, 3, ToCfa);
    OneMore(n, s, 3, s3);
  }

  ghost predicate DoesAt(n: Nucleus, s: State, i: nat, w: Word) {
    s.Go? && At(n, s, n.does, DoesCode(n), i) && Newest(n, s.m, w)
  }

  lemma AddIsNext(w: Word)
    ensures BinaryResult(Add, w, 8) == NextCell(w)
  {
  }

  lemma NeIsFalse(x: Word)
    ensures BinaryResult(Ne, x, x) == 0
  {
  }

  lemma TwoOperands(op: Binary, x: Word, y: Word, ps: seq<Word>, cap: nat)
    ensures PrimEffect(Bin(op), [y, x] + ps, cap) == Left([BinaryResult(op, x, y)] + ps)
  {
    assert ([y, x] + ps)[2..] == ps;
  }

  lemma DupEffect(ps: seq<Word>, cap: nat)
    requires ps != [] && |ps| < cap
    ensures PrimEffect(Dup, ps, cap) == Left([ps[0]] + ps)
  {
  }

  /** looks at its codeword, */
  lemma DoesLook(n: Nucleus, s: State, ps: seq<Word>, w: Word)
    requires DoesAt(n, s, 4, w) && s.ps == [w] + ps && |ps| + 3 <= n.pcap
    ensures Run(n, s, 3) == InDoes(n, 8, [n.douser, n.douser] + s.ps, s.rs, s.m)
  {
    hide Step, Run, CodeAt, Loaded, Defining, PrimEffect;
    var code, rs, m := DoesCode(n), s.rs, s.m;
    DefiningLoaded(n, m);
    NoRun(n, s);
    DupEffect(s.ps, n.pcap);
    CodeStep(n, s, n.does, code, 4, Pure(Dup));
    OneMore(n, s, 0, s);
    var s1 := InDoes(n, 5, [w] + s.ps, rs, m);
    CodeStep(n, s1, n.does, code, 5, Fetch);
    OneMore(n, s, 1, s1);
    var s2 := InDoes(n, 6, [n.douser] + s.ps, rs, m);
    LitStep(n, s2, n.does, code, 6, n.douser);
    OneMore(n, s, 2, s2);
    assert [n.douser, n.douser] + s.ps == [n.douser] + ([n.douser] + s.ps);
  }

  /** sees that CREATE made it, */
  lemma DoesTest(n: Nucleus, s: State, ps: seq<Word>)
    requires At(n, s, n.does, DoesCode(n), 8) && s.ps == [n.douser, n.douser] + ps
    ensures Run(n, s, 2) == InDoes(n, 11, ps, s.rs, s.m)
  {
    hide Step, Run, CodeAt, Loaded, Defining, PrimEffect;
    var code := DoesCode(n);
    DefiningLoaded(n, s.m);
    NeIsFalse(n.douser);
    NoRun(n, s);
    TwoOperands(Ne, n.douser, n.douser, ps, n.pcap);
    CodeStep(n, s, n.does, code, 8, Pure(Bin(Ne)));
    OneMore(n, s, 0, s);
    var s1 := InDoes(n, 9, [0] + ps, s.rs, s.m);
    CodeStep(n, s1, n.does, code, 9, CondJump);
    OneMore(n, s, 1, s1);
    NthNext(n.does, 10, code, s.m.cell);
    assert s1.ps[1..] == ps;
  }

  lemma NthNext(base: Word, i: nat, code: seq<int>, cell: map<Word, Word>)
    requires CodeAt(cell, base, code) && i < |code|
    ensures NextCell(Nth(base, i)) == Nth(base, i + 1)
  {
  }

  /** computes the address of its code pointer, */
  lemma DoesPointer(n: Nucleus, s: State, ps: seq<Word>, w: Word)
    requires DoesAt(n, s, 11, w) && s.ps == [w] + ps && |ps| + 2 <= n.pcap
    ensures Run(n, s, 2) == InDoes(n, 14, [NextCell(w)] + ps, s.rs, s.m)
  {
    hide Step, Run, CodeAt, Loaded, Defining, BinaryResult;
    AddIsNext(w);
    var code, m := DoesCode(n), s.m;
    DefiningLoaded(n, m);
    NoRun(n, s);
    LitStep(n, s, n.does, code, 11, 8);
    OneMore(n, s, 0, s);
    var s1 := InDoes(n, 13, [8] + s.ps, s.rs, m);
    assert s1.ps == [8, w] + ps;
    TwoOperands(Add, w, 8, ps, n.pcap);
    CodeStep(n, s1, n.does, code, 13, Pure(Bin(Add)));
    OneMore(n, s, 1, s1);
    assert s1.ps[2..] == ps;
  }

  /** stores its own return address there, */
  lemma DoesBind(n: Nucleus, s: State, ps: seq<Word>, tail: Word, rs: seq<Word>, w: Word)
    requires DoesAt(n, s, 14, w) && s.ps == [NextCell(w)] + ps && s.rs == [tail] + rs && |ps| + 2 <= n.pcap
    ensures Run(n, s, 3) == InDoes(n, 17, ps, rs, s.m.(cell := s.m.cell[NextCell(w) := tail]))
  {
    hide Step, Run, CodeAt, Loaded, Defining;
    var code, m := DoesCode(n), s.m;
    DefiningLoaded(n, m);
    NoRun(n, s);
    CodeStep(n, s, n.does, code, 14, FromRet);
    OneMore(n, s, 0, s);
    assert s.rs[1..] == rs;
    var s1 := InDoes(n, 15, [tail] + s.ps, rs, m);
    CodeStep(n, s1, n.does, code, 15, Pure(Swap));
    OneMore(n, s, 1, s1);
    assert s1.ps[2..] == ps;
    var s2 := InDoes(n, 16, [NextCell(w), tail] + ps, rs, m);
    CodeStep(n, s2, n.does, code, 16, Store);
    OneMore(n, s, 2, s2);
    assert s2.ps[2..] == ps;
  }

  /** and returns to the caller of the word it stands in. */
  lemma DoesExit(n: Nucleus, s: State, ret: Word, rs: seq<Word>)
    requires At(n, s, n.does, DoesCode(n), 17) && s.rs == [ret] + rs && |s.ps| < n.pcap && |s.rs| < n.rcap
    ensures Run(n, s, 4) == Go(ret, s.ps, rs, s.m)
  {
    hide Step, Run, CodeAt, Loaded, Defining;
    var code, m := DoesCode(n), s.m;
    DefiningLoaded(n, m);
    NoRun(n, s);
    NthPlain(n.does, 20, code, m.cell);
    LitStep(n, s, n.does, code, 17, Nth(n.does, 20));
    OneMore(n, s, 0, s);
    var s1 := InDoes(n, 19, [Nth(n.does, 20)] + s.ps, s.rs, m);
    CodeStep(n, s1, n.does, code, 19, ToRet);
    OneMore(n, s, 1, s1);
    var s2 := InDoes(n, 20, s.ps, [Nth(n.does, 20)] + s.rs, m);
    ExitStep(n, s2, n.does, code, 20);
    OneMore(n, s, 2, s2);
    var s3 := InDoes(n, 20, s.ps, s.rs, m);
    ExitStep(n, s3, n.does, code, 20);
    OneMore(n, s, 3, s3);
  }

  lemma NthPlain(base: Word, i: nat, code: seq<int>, cell: map<Word, Word>)
    requires CodeAt(cell, base, code) && i < |code|
    ensures Nth(base, i) == base + 8 * i
  {
  }

  /** The memory in which the code pointer of the word at `w` leads to `tail`. */
  function Bound(m: Memory, w: Word, tail: Word): Memory {
    m.(cell := m.cell[NextCell(w) := tail])
  }

  lemma BoundSurvives(n: Nucleus, m: Memory, w: Word, tail: Word)
    requires Defining(n, m) && Newest(n, m, w)
    ensures Defining(n, Bound(m, w, tail)) && CodeAt(Bound(m, w, tail).cell, n.does, DoesCode(n))
  {
    hide CodeAt, Loaded, Defining, Bound, Confined, Newest;
    DefiningLoaded(n, m);
    BoundConfined(n, m, w, tail);
    Survives(n, m, Bound(m, w, tail));
  }

  lemma BoundConfined(n: Nucleus, m: Memory, w: Word, tail: Word)
    requires Placed(n, m) && Newest(n, m, w)
    ensures Confined(n, m, Bound(m, w, tail)) && Placed(n, Bound(m, w, tail))
  {
  }

  /**
   * DOES> gives the newest word the code behind it, and returns to the caller of the word it stands in: that code
   * is not run now.
   */
  lemma DoesRun(n: Nucleus, s: State, w: Word, ret: Word, rs: seq<Word>)
    requires Calls(n, s, n.does, DoesCode(n)) && Newest(n, s.m, w)
    requires s.rs == [ret] + rs && |s.ps| + 3 <= n.pcap && |s.rs| < n.rcap
    ensures Run(n, s, 18) == Go(ret, s.ps, rs, Bound(s.m, w, NextCell(s.wp)))
    ensures Defining(n, Bound(s.m, w, NextCell(s.wp)))
  {
    hide Step, Run, CodeAt, Loaded, Defining, Newest;
    var tail, m := NextCell(s.wp), s.m;
    DoesHead(n, s, w);
    var s4 := InDoes(n, 4, [w] + s.ps, [tail] + s.rs, m);
    DoesLook(n, s4, s.ps, w);
    RunJoin(n, s, 4, s4, 3);
    var s7 := InDoes(n, 8, [n.douser, n.douser] + s4.ps, s4.rs, m);
    DoesTest(n, s7, s4.ps);
    RunJoin(n, s, 7, s7, 2);
    var s9 := InDoes(n, 11, [w] + s.ps, [tail] + s.rs, m);
    DoesPointer(n, s9, s.ps, w);
    RunJoin(n, s, 9, s9, 2);
    var s11 := InDoes(n, 14, [NextCell(w)] + s.ps, [tail] + s.rs, m);
    DoesBind(n, s11, s.ps, tail, s.rs, w);
    RunJoin(n, s, 11, s11, 3);
    BoundSurvives(n, m, w, tail);
    var s14 := InDoes(n, 17, s.ps, s.rs, Bound(m, w, tail));
    DoesExit(n, s14, ret, rs);
    RunJoin(n, s, 14, s14, 4);
  }

  /** A name field: length byte, name and padding, in as many cells as the length calls for. */
  predicate NameField(name: seq<Word>) {
    name != [] && |name| == (name[0] % 32 + 8) / 8
  }

  /** `w` is a word made by CREATE whose code pointer leads to `tail`. */
  ghost predicate Made(n: Nucleus, m: Memory, w: Word, tail: Word) {
    && n.org <= w && w + 16 <= m.here && (w - n.org) % 8 == 0
    && w in m.cell && m.cell[w] == n.douser
    && w + 8 in m.cell && m.cell[w + 8] == tail
  }

  /** Nothing below the old HERE has changed. */
  ghost predicate Kept(m: Memory, m': Memory) {
    && m.here <= m'.here
    && forall a: Word | a in m.cell && a < m.here :: a in m'.cell && m'.cell[a] == m.cell[a]
  }

  /** What definitions do to memory: older cells and those outside the dictionary space stay as they are. */
  ghost predicate Grown(n: Nucleus, m: Memory, m': Memory) {
    Kept(m, m') && Confined(n, m, m') && Placed(n, m') && m.cell.Keys <= m'.cell.Keys
  }

  lemma GrownTwice(n: Nucleus, m: Memory, m1: Memory, m2: Memory)
    requires Grown(n, m, m1) && Grown(n, m1, m2)
    ensures Grown(n, m, m2)
  {
  }

  /** The parameter field: the cells from `a` on. */
  ghost predicate Holds(m: Memory, a: int, ws: seq<Word>) {
    forall i :: 0 <= i < |ws| ==> a + 8 * i in m.cell && m.cell[a + 8 * i] == ws[i]
  }

  lemma LaidGrown(n: Nucleus, m: Memory, w: Word)
    requires Placed(n, m) && m.here + 8 <= n.limit
    ensures Grown(n, m, Laid(m, w))
  {
  }

  lemma HeadedName(n: Nucleus, m: Memory)
    requires CreateFits(n, m) && NameField(m.names[0])
    ensures m.here + 8 in Headed(n, m).cell && Headed(n, m).cell[m.here + 8] == m.names[0][0]
    ensures Kept(m, Headed(n, m)) && m.names[0] != []
  {
    assert InSpan(m.here + 8, m.here, 1 + |m.names[0]|) && ([m.latest] + m.names[0])[1] == m.names[0][0];
  }

  lemma CreatedGrown(n: Nucleus, m: Memory)
    requires Placed(n, m) && CreateFits(n, m)
    ensures Grown(n, m, Created(n, m))
  {
    hide Grown, Laid;
    var h := Headed(n, m);
    HeadedGrown(n, m);
    LaidGrown(n, h, n.douser);
    LaidHere(h, n.douser);
    GrownTwice(n, m, h, Laid(h, n.douser));
    LaidGrown(n, Laid(h, n.douser), 0);
    GrownTwice(n, m, Laid(h, n.douser), Laid(Laid(h, n.douser), 0));
  }

  lemma HeadedGrown(n: Nucleus, m: Memory)
    requires Placed(n, m) && CreateFits(n, m)
    ensures Grown(n, m, Headed(n, m)) && Headed(n, m).here == NewWord(n, m) && Placed(n, Headed(n, m))
    ensures NewWord(n, m) + 16 <= n.limit && (NewWord(n, m) - n.org) % 8 == 0
  {
  }

  lemma CreatedNewest(n: Nucleus, m: Memory)
    requires Placed(n, m) && n.org > 0 && CreateFits(n, m) && NameField(m.names[0])
    ensures Newest(n, Created(n, m), NewWord(n, m)) && Made(n, Created(n, m), NewWord(n, m), 0)
    ensures Grown(n, m, Created(n, m)) && Created(n, m).here == NewWord(n, m) + 16
    ensures NextCell(Created(n, m).latest) < Created(n, m).here
  {
    hide WriteCells, CodeField, NameField, Created, Kept, Confined;
    CreatedCells(n, m);
    NameEnds(m.here, m.names[0]);
    CreatedGrown(n, m);
    HeadedGrown(n, m);
  }

  lemma CreatedCells(n: Nucleus, m: Memory)
    requires CreateFits(n, m) && NameField(m.names[0])
    ensures var c, w := Created(n, m), NewWord(n, m);
            && c.latest == m.here && c.here == w + 16 && m.names[0] != []
            && w in c.cell && c.cell[w] == n.douser && w + 8 in c.cell && c.cell[w + 8] == 0
            && m.here + 8 in c.cell && c.cell[m.here + 8] == m.names[0][0]
  {
    hide WriteCells, NameField;
    HeadedName(n, m);
  }

  /** TCFA finds the cell behind the name field. */
  lemma NameEnds(a: Word, name: seq<Word>)
    requires NameField(name) && a + 8 + 8 * |name| < TWO64
    ensures CodeField(a, name[0]) == a + 8 + 8 * |name|
  {
  }

  /** What a run does to memory at most: it stores and appends within the dictionary space. */
  ghost predicate Evolved(n: Nucleus, m: Memory, m': Memory) {
    Confined(n, m, m') && Placed(n, m') && m.here <= m'.here && m.cell.Keys <= m'.cell.Keys
  }

  lemma EvolvedTwice(n: Nucleus, m: Memory, m1: Memory, m2: Memory)
    requires Evolved(n, m, m1) && Evolved(n, m1, m2)
    ensures Evolved(n, m, m2)
  {
  }

  lemma ExecEvolves(n: Nucleus, op: Op, s: State)
    requires s.Go? && Placed(n, s.m)
    ensures Exec(n, op, s).Go? ==> Evolved(n, s.m, Exec(n, op, s).m)
  {
    hide PrimEffect, IsNegative, CodeField, Reserved;
    if op.Allot? && |s.ps| >= 1 {
      ReserveEvolves(n, Reserved(s.ps[0]), s.(ps := s.ps[1..]));
    }
  }

  lemma ReserveEvolves(n: Nucleus, k: nat, s: State)
    requires s.Go? && Placed(n, s.m)
    ensures Reserve(n, k, s).Go? ==> Evolved(n, s.m, Reserve(n, k, s).m)
  {
    if s.m.here + 8 * k < TWO64 {
      WrapDrops(0, s.m.here + 8 * k);
    }
  }

  lemma {:induction false} JumpEvolves(n: Nucleus, wa: Word, s: State)
    requires s.Go? && Placed(n, s.m)
    ensures JumpTo(n, wa, s).Go? ==> Evolved(n, s.m, JumpTo(n, wa, s).m)
    decreases |s.ps|
  {
    hide Exec, Evolved, Placed;
    SameEvolved(n, s.m);
    if wa in s.m.cell && s.m.cell[wa] in n.entry {
      var op := n.entry[s.m.cell[wa]];
      ExecEvolves(n, op, s);
      if op == RunCode && |s.ps| >= 1 {
        JumpEvolves(n, s.ps[0], s.(ps := s.ps[1..]));
      }
    }
  }

  lemma SameEvolved(n: Nucleus, m: Memory)
    requires Placed(n, m)
    ensures Evolved(n, m, m)
  {
  }

  lemma {:induction false} RunEvolves(n: Nucleus, s: State, k: nat)
    requires s.Go? && Placed(n, s.m)
    ensures Run(n, s, k).Go? ==> Evolved(n, s.m, Run(n, s, k).m)
    decreases k
  {
    hide JumpTo, Confined;
    if k == 0 {
      SameEvolved(n, s.m);
    } else {
      var t := Step(n, s);
      if s.wp in s.m.cell {
        JumpEvolves(n, s.m.cell[s.wp], s.(wp := NextCell(s.wp)));
      }
      if t.Go? {
        RunEvolves(n, t, k - 1);
        if Run(n, t, k - 1).Go? {
          EvolvedTwice(n, s.m, t.m, Run(n, t, k - 1).m);
        }
      } else {
        StoppedRun(n, t, k - 1);
      }
    }
  }

  lemma {:induction false} StoppedRun(n: Nucleus, s: State, k: nat)
    requires s.Stop?
    ensures Run(n, s, k) == s
    decreases k
  {
    if k > 0 {
      StoppedRun(n, s, k - 1);
    }
  }

  /** Whatever programs do, the nucleus stays what it is. */
  lemma EvolvedDefining(n: Nucleus, m: Memory, m': Memory)
    requires Defining(n, m) && Evolved(n, m, m')
    ensures Defining(n, m')
  {
    hide Defining, Confined;
    StillDefining(n, m, m');
  }

  lemma CallsAny(n: Nucleus, s: State, word: Word)
    requires s.Go? && s.wp + 8 < TWO64 && |s.rs| < n.rcap
    requires CodeAt(s.m.cell, s.wp, [word]) && CodeAt(s.m.cell, word, [n.docol])
    ensures Step(n, s) == Entered(s, word) && Entered(s, word).wp == word + 8
  {
    assert [word][0] == s.m.cell[s.wp + 8 * 0];
    assert [n.docol][0] == s.m.cell[word + 8 * 0];
    ColonStep(n, s, word);
  }

  lemma DefiningPlaced(n: Nucleus, m: Memory)
    requires Defining(n, m)
    ensures Placed(n, m)
  {
    hide Loaded, CodeAt;
  }

  lemma ConfinedTwice(n: Nucleus, m: Memory, m1: Memory, m2: Memory)
    requires Confined(n, m, m1) && Confined(n, m1, m2)
    ensures Confined(n, m, m2)
  {
  }

  /** The tail of a defining word lies compiled at `at`, closed by EXIT. */
  ghost predicate HasTail(n: Nucleus, lex: Lexicon, m: Memory, at: Word, tail: Prog) {
    && Standing(n, lex, tail, at, m) && at != 0 && at + 8 * Size(tail) + 8 < TWO64
    && CodeAt(m.cell, at + 8 * Size(tail), [Cfa(n, Exit)]) && Fenced(lex, at + 8 * Size(tail), 1)
  }

  /**
   * What a word made by CREATE means: the address of its parameter field on the stack, and then what the code behind
   * DOES> means, if there is any.
   */
  function UserOutcome(n: Nucleus, lex: Lexicon, w: Word, at: Word, tail: Prog, s: State, fuel: nat): Outcome
    requires s.Go? && w + 16 < TWO64 && at + 8 * Size(tail) < TWO64 && Linkable(lex) && Known(tail, lex)
  {
    if |s.ps| >= n.pcap then Error(StackOverflow)
    else if at == 0 then Done([w + 16] + s.ps, s.m)
    else if |s.rs| >= n.rcap then Error(ReturnOverflow)
    else Eval(n, lex, tail, at, [w + 16] + s.ps, s.m, |s.rs| + 1, fuel)
  }

  /** The word at `w` is called from `s`; an empty code pointer leads to no tail. */
  ghost predicate CallsUser(n: Nucleus, lex: Lexicon, w: Word, at: Word, tail: Prog, s: State) {
    && s.Go? && CodeAt(s.m.cell, s.wp, [w]) && s.wp + 8 < TWO64 && w + 16 < TWO64 && Made(n, s.m, w, at)
    && Linked(n, lex, s.m.cell) && Linkable(lex) && Known(tail, lex) && at + 8 * Size(tail) < TWO64
    && (at != 0 ==> HasTail(n, lex, s.m, at, tail))
  }

  /** The step into the word at `w`: its overflows, the address pushed, the code pointer followed if there is one. */
  function UserEntered(n: Nucleus, w: Word, at: Word, s: State): State {
    if s.Stop? then s
    else if |s.ps| >= n.pcap then Stop(StackOverflow)
    else if at == 0 then s.(wp := NextCell(s.wp), ps := [Nth(w, 2)] + s.ps)
    else if |s.rs| >= n.rcap then Stop(ReturnOverflow)
    else Go(at, [Nth(w, 2)] + s.ps, [NextCell(s.wp)] + s.rs, s.m)
  }

  lemma UserStep(n: Nucleus, lex: Lexicon, w: Word, at: Word, tail: Prog, s: State)
    requires CallsUser(n, lex, w, at, tail, s)
    ensures Step(n, s) == UserEntered(n, w, at, s)
  {
    hide HasTail, Linked, Known;
    LinkedLoaded(n, lex, s.m.cell);
    assert [w][0] == s.m.cell[s.wp + 8 * 0];
  }

  /** What a run from the call has to show for the meaning of the word. */
  ghost predicate Performs(n: Nucleus, s: State, s1: State, o: Outcome, fuel: nat, k: nat, t: State)
    requires s.Go? && s.wp + 8 < TWO64
  {
    && (!o.Strayed? ==> Path(n, s1, k, t, Region(s.wp, s.wp + 8, s.rs)))
    && (o.Unfinished? ==> k >= fuel)
    && (Ended(o) ==> t == After(s, 1, o))
  }

  /**
   * A word made by CREATE pushes the address of its own parameter field; with a code pointer it then runs exactly the
   * tail and returns with the return stack of the call. Overflows are those of its codeword routine, in this order.
   */
  lemma {:induction false} UserWordRun(n: Nucleus, lex: Lexicon, w: Word, at: Word, tail: Prog, s: State,
                                       fuel: nat) returns (k: nat, t: State)
    requires CallsUser(n, lex, w, at, tail, s)
    ensures Performs(n, s, s, UserOutcome(n, lex, w, at, tail, s, fuel), fuel, k, t)
  {
    hide Step, Path, CodeAt, Linked, Known, Eval, Made, HasTail;
    var r := Region(s.wp, s.wp + 8, s.rs);
    UserStep(n, lex, w, at, tail, s);
    OneStep(n, s, r);
    k, t := 1, Step(n, s);
    if |s.ps| < n.pcap && at != 0 && |s.rs| < n.rcap {
      k, t := TailRun(n, lex, at, tail, s, t, fuel);
      var o := UserOutcome(n, lex, w, at, tail, s, fuel);
      if !o.Strayed? {
        Join(n, s, 1, Step(n, s), k, t, r);
      }
      k := k + 1;
    }
  }

  /** The tail, entered from `s`, and EXIT behind it. */
  lemma TailRun(n: Nucleus, lex: Lexicon, at: Word, tail: Prog, s: State, s1: State, fuel: nat)
    returns (k: nat, t: State)
    requires s.Go? && s.wp + 8 < TWO64 && HasTail(n, lex, s.m, at, tail)
    requires s1.Go? && s1 == Go(at, s1.ps, [NextCell(s.wp)] + s.rs, s.m)
    ensures Linkable(lex) && Known(tail, lex) && at + 8 * Size(tail) < TWO64
    ensures Performs(n, s, s1, Eval(n, lex, tail, at, s1.ps, s.m, |s.rs| + 1, fuel), fuel, k, t)
  {
    hide Step, Path, CodeAt, Linked, Known, Covered, Eval, Standing, Spares, Loaded, Fenced;
    var r := Region(s.wp, s.wp + 8, s.rs);
    StandingLoaded(n, lex, tail, at, s.m);
    AboveCall(r.base, s.rs, NextCell(s.wp));
    k, t := Simulate(n, lex, tail, s1, fuel, r);
    var o := Meaning(n, lex, tail, s1, fuel);
    if o.Done? {
      StandingKept(n, lex, tail, at, s.m, t.m);
      StandingLoaded(n, lex, tail, at, t.m);
      SparesCode(lex, s.m, t.m, at + 8 * Size(tail), [Cfa(n, Exit)]);
      var u := s.(wp := s.wp + 8, ps := o.ps, m := o.m);
      LeaveBody(n, t, s, r);
      Join(n, s1, k, t, 1, u, r);
      return k + 1, u;
    }
  }
}
