/**
 * What an evaluation makes of more fuel, of fewer return cells in use, and of a memory in which more words are
 * compiled: nothing new, except where it had no end, no room or no such cell before.
 */
module Widening {
  import opened Words
  import opened Machine
  import opened ControlFlow

  /** Seen from another memory: the same one, or one with more cells and a higher HERE. */
  datatype Extra = Same | More(cell: map<Word, Word>, here: Word)

  function Seen(x: Extra, m: Memory): Memory {
    if x.More? then m.(cell := x.cell + m.cell, here := x.here) else m
  }

  /** The colon words of `lex` are still there in `lex2`. */
  ghost predicate Within(lex: Lexicon, lex2: Lexicon) {
    lex.code <= lex2.code && forall c <- lex.body :: c in lex2.body && lex2.body[c] == lex.body[c]
  }

  lemma {:induction false} KnownWithin(p: Prog, lex: Lexicon, lex2: Lexicon)
    requires Within(lex, lex2) && Known(p, lex)
    ensures Known(p, lex2)
  {
    match p
    case Seq(p, q) => KnownWithin(p, lex, lex2); KnownWithin(q, lex, lex2);
    case If(_, thn) => KnownWithin(thn, lex, lex2);
    case IfElse(_, thn, els) => KnownWithin(thn, lex, lex2); KnownWithin(els, lex, lex2);
    case Until(body) => KnownWithin(body, lex, lex2);
    case Again(body) => KnownWithin(body, lex, lex2);
    case While(cond, body) => KnownWithin(cond, lex, lex2); KnownWithin(body, lex, lex2);
    case _ =>
  }

  /** The program does not look at HERE and does not move it. */
  predicate Steady(p: Prog) {
    match p
    case Access(op) => !op.Here? && !op.Comma? && !op.Allot?
    case Seq(p, q) => Steady(p) && Steady(q)
    case If(_, thn) => Steady(thn)
    case IfElse(_, thn, els) => Steady(thn) && Steady(els)
    case Until(body) => Steady(body)
    case Again(body) => Steady(body)
    case While(cond, body) => Steady(cond) && Steady(body)
    case _ => true
  }

  /** Nothing the program may call does so either. */
  ghost predicate AllSteady(lex: Lexicon) {
    forall c <- lex.body :: Steady(lex.body[c])
  }

  /** The new cells lie apart from those of `m`, and so does the code that is new. */
  ghost predicate Beside(x: Extra, lex: Lexicon, lex2: Lexicon, m: Memory) {
    match x
    case Same => lex2 == lex
    case More(cell, here) =>
      && Within(lex, lex2) && m.here <= here && cell.Keys !! m.cell.Keys
      && forall a <- lex2.code :: a in lex.code || a !in m.cell
  }

  /** The program and all it calls is known in both lexicons, and steady if the memories differ. */
  ghost predicate Understood(x: Extra, lex: Lexicon, lex2: Lexicon, p: Prog) {
    && Linkable(lex) && Known(p, lex) && Linkable(lex2) && Known(p, lex2) && Within(lex, lex2)
    && (x.More? ==> Steady(p) && AllSteady(lex))
  }

  /** More fuel keeps every end, and fewer return cells in use or more cells in memory can only cure an error. */
  ghost predicate Matches(x: Extra, o: Outcome, o2: Outcome, shallower: bool, longer: bool) {
    || (longer && o.Unfinished?)
    || (shallower && o == Error(ReturnOverflow))
    || (x.More? && o == Error(Wild))
    || (o.Done? && o2 == Done(o.ps, Seen(x, o.m)))
    || (!o.Done? && o2 == o)
  }

  /** A routine on memory does the same where there are more cells, unless it missed one. */
  lemma AccessRoom(n: Nucleus, lex: Lexicon, lex2: Lexicon, x: Extra, op: Op, ps: seq<Word>, m: Memory)
    requires IsAccess(op) && Beside(x, lex, lex2, m) && (x.More? ==> Steady(Access(op)))
    ensures var o := AccessOutcome(n, lex, op, ps, m);
            && Matches(x, o, AccessOutcome(n, lex2, op, ps, Seen(x, m)), false, false)
            && (o.Done? ==> Beside(x, lex, lex2, o.m))
  {
    if x.More? {
      if op.Store? {
        StoreRoom(n, lex, lex2, x, ps, m);
      } else {
        ReadRoom(n, lex, lex2, x, op, ps, m);
      }
    }
  }

  lemma ReadRoom(n: Nucleus, lex: Lexicon, lex2: Lexicon, x: Extra, op: Op, ps: seq<Word>, m: Memory)
    requires op.Fetch? || op.ToLatest? || op.ToCfa?
    requires x.More? && Beside(x, lex, lex2, m)
    ensures var o := AccessOutcome(n, lex, op, ps, m);
            && Matches(x, o, AccessOutcome(n, lex2, op, ps, Seen(x, m)), false, false)
            && (o.Done? ==> Beside(x, lex, lex2, o.m))
  {
    hide CodeField;
    assert forall a <- m.cell :: a in Seen(x, m).cell && Seen(x, m).cell[a] == m.cell[a];
  }

  lemma StoreRoom(n: Nucleus, lex: Lexicon, lex2: Lexicon, x: Extra, ps: seq<Word>, m: Memory)
    requires x.More? && Beside(x, lex, lex2, m)
    ensures var o := AccessOutcome(n, lex, Store, ps, m);
            && Matches(x, o, AccessOutcome(n, lex2, Store, ps, Seen(x, m)), false, false)
            && (o.Done? ==> Beside(x, lex, lex2, o.m))
  {
    hide Spares;
    if |ps| >= 2 && ps[0] in m.cell && InDictionary(n, m, ps[0]) {
      var a, w := ps[0], ps[1];
      var m' := m.(cell := m.cell[a := w]);
      SeenStore(x, m, a, w);
      SparesSeen(lex, lex2, x, m, a, w);
    }
  }

  lemma SeenStore(x: Extra, m: Memory, a: Word, w: Word)
    requires x.More? && a in m.cell
    ensures var m' := m.(cell := m.cell[a := w]);
            && Seen(x, m') == Seen(x, m).(cell := Seen(x, m).cell[a := w]) && m'.cell.Keys == m.cell.Keys
  {
    assert (x.cell + m.cell)[a := w] == x.cell + m.cell[a := w];
  }

  lemma SparesSeen(lex: Lexicon, lex2: Lexicon, x: Extra, m: Memory, a: Word, w: Word)
    requires x.More? && Beside(x, lex, lex2, m) && a in m.cell
    ensures var m' := m.(cell := m.cell[a := w]);
            Spares(lex.code, m, m') <==> Spares(lex2.code, Seen(x, m), Seen(x, m'))
  {
    var m' := m.(cell := m.cell[a := w]);
    assert Spares(lex.code, m, m') <==> (a in lex.code ==> w == m.cell[a]);
    assert Spares(lex2.code, Seen(x, m), Seen(x, m')) <==> (a in lex2.code ==> w == m.cell[a]);
  }

  lemma {:induction false} MoreRoom(n: Nucleus, lex: Lexicon, lex2: Lexicon, x: Extra, p: Prog, a: Word, ps: seq<Word>,
                                    m: Memory, depth: nat, fuel: nat, depth2: nat, fuel2: nat)
    requires a + 8 * Size(p) < TWO64 && Understood(x, lex, lex2, p) && Beside(x, lex, lex2, m)
    requires depth2 <= depth && fuel <= fuel2
    ensures var o := Eval(n, lex, p, a, ps, m, depth, fuel);
            && Matches(x, o, Eval(n, lex2, p, a, ps, Seen(x, m), depth2, fuel2), depth2 < depth, fuel < fuel2)
            && (o.Done? ==> Beside(x, lex, lex2, o.m))
    decreases fuel, p, 1
  {
    hide Beside, Within, Linkable, AccessOutcome;
    match p
    case Seq(_, _) => SeqRoom(n, lex, lex2, x, p, a, ps, m, depth, fuel, depth2, fuel2);
    case Access(op) => AccessRoom(n, lex, lex2, x, op, ps, m);
    case Call(cfa) => CallRoom(n, lex, lex2, x, p, a, ps, m, depth, fuel, depth2, fuel2);
    case If(_, thn) => IfRoom(n, lex, lex2, x, p, a, ps, m, depth, fuel, depth2, fuel2);
    case IfElse(_, thn, els) => IfRoom(n, lex, lex2, x, p, a, ps, m, depth, fuel, depth2, fuel2);
    case Until(body) => LoopRoom(n, lex, lex2, x, p, a, ps, m, depth, fuel, depth2, fuel2);
    case Again(body) => LoopRoom(n, lex, lex2, x, p, a, ps, m, depth, fuel, depth2, fuel2);
    case While(cond, body) => WhileRoom(n, lex, lex2, x, p, a, ps, m, depth, fuel, depth2, fuel2);
    case Literal(w) => LiteralsSeen(n, [w], ps, m, x);
    case Str(_, len) => LiteralsSeen(n, [a + 16, len], ps, m, x);
    case _ =>
  }

  lemma {:induction false} LiteralsSeen(n: Nucleus, ws: seq<Word>, ps: seq<Word>, m: Memory, x: Extra)
    ensures match Literals(n, ws, ps, m)
            case Done(ps', m') => m' == m && Literals(n, ws, ps, Seen(x, m)) == Done(ps', Seen(x, m))
            case o => Literals(n, ws, ps, Seen(x, m)) == o
    decreases |ws|
  {
    if ws == [] {
    } else {
      LiteralsSeen(n, ws[1..], [ws[0]] + ps, m, x);
    }
  }

  /** A colon call, once it has entered the word. */
  function Entering(n: Nucleus, lex: Lexicon, cfa: Word, ps: seq<Word>, m: Memory, depth: nat, fuel: nat): Outcome
    requires Linkable(lex) && cfa in lex.body
  {
    if depth >= n.rcap then Error(ReturnOverflow)
    else if fuel == 0 then Unfinished
    else Eval(n, lex, lex.body[cfa], cfa + 8, ps, m, depth + 1, fuel - 1)
  }

  lemma CallUnfolds(n: Nucleus, lex: Lexicon, p: Prog, a: Word, ps: seq<Word>, m: Memory, depth: nat, fuel: nat)
    requires p.Call? && a + 8 * Size(p) < TWO64 && Linkable(lex) && Known(p, lex)
    ensures p.cfa in lex.body && Eval(n, lex, p, a, ps, m, depth, fuel) == Entering(n, lex, p.cfa, ps, m, depth, fuel)
  {
    hide Linkable;
  }

  lemma {:induction false} CallRoom(n: Nucleus, lex: Lexicon, lex2: Lexicon, x: Extra, p: Prog, a: Word, ps: seq<Word>,
                                    m: Memory, depth: nat, fuel: nat, depth2: nat, fuel2: nat)
    requires p.Call? && a + 8 * Size(p) < TWO64 && Understood(x, lex, lex2, p) && Beside(x, lex, lex2, m)
    requires depth2 <= depth && fuel <= fuel2
    ensures var o := Eval(n, lex, p, a, ps, m, depth, fuel);
            && Matches(x, o, Eval(n, lex2, p, a, ps, Seen(x, m), depth2, fuel2), depth2 < depth, fuel < fuel2)
            && (o.Done? ==> Beside(x, lex, lex2, o.m))
    decreases fuel, p, 0
  {
    hide Beside, Eval, Linkable, Steady, Size;
    CallUnfolds(n, lex, p, a, ps, m, depth, fuel);
    CallUnfolds(n, lex2, p, a, ps, Seen(x, m), depth2, fuel2);
    if fuel > 0 {
      LinkedBody(lex, p.cfa);
      LinkedBody(lex2, p.cfa);
      MoreRoom(n, lex, lex2, x, lex.body[p.cfa], p.cfa + 8, ps, m, depth + 1, fuel - 1, depth2 + 1, fuel2 - 1);
    }
  }

  lemma LinkedBody(lex: Lexicon, cfa: Word)
    requires Linkable(lex) && cfa in lex.body
    ensures Known(lex.body[cfa], lex) && cfa + 16 + 8 * Size(lex.body[cfa]) < TWO64
  {
  }

  lemma {:induction false} SeqRoom(n: Nucleus, lex: Lexicon, lex2: Lexicon, x: Extra, p: Prog, a: Word, ps: seq<Word>,
                                   m: Memory, depth: nat, fuel: nat, depth2: nat, fuel2: nat)
    requires p.Seq? && a + 8 * Size(p) < TWO64 && Understood(x, lex, lex2, p) && Beside(x, lex, lex2, m)
    requires depth2 <= depth && fuel <= fuel2
    ensures var o := Eval(n, lex, p, a, ps, m, depth, fuel);
            && Matches(x, o, Eval(n, lex2, p, a, ps, Seen(x, m), depth2, fuel2), depth2 < depth, fuel < fuel2)
            && (o.Done? ==> Beside(x, lex, lex2, o.m))
    decreases fuel, p, 0
  {
    hide Linkable, Within, AllSteady, Beside;
    MoreRoom(n, lex, lex2, x, p.first, a, ps, m, depth, fuel, depth2, fuel2);
    var o := Eval(n, lex, p.first, a, ps, m, depth, fuel);
    if o.Done? {
      MoreRoom(n, lex, lex2, x, p.second, a + 8 * Size(p.first), o.ps, o.m, depth, fuel, depth2, fuel2);
    }
  }

  /** IF and its kin behind the test: what the flag leads to. */
  function Branch(n: Nucleus, lex: Lexicon, p: Prog, a: Word, ps: seq<Word>, m: Memory, depth: nat, fuel: nat): Outcome
    requires (p.If? || p.IfElse?) && a + 8 * Size(p) < TWO64 && Linkable(lex) && Known(p, lex)
  {
    var t := TestOutcome(n, ps, m, depth);
    if !t.Done? then t
    else if (ps[0] != 0) != p.unless then Eval(n, lex, p.thn, a + 24, t.ps, m, depth, fuel)
    else if p.If? then t
    else Eval(n, lex, p.els, a + 8 * (3 + Size(p.thn) + 2), t.ps, m, depth, fuel)
  }

  lemma IfUnfolds(n: Nucleus, lex: Lexicon, p: Prog, a: Word, ps: seq<Word>, m: Memory, depth: nat, fuel: nat)
    requires (p.If? || p.IfElse?) && a + 8 * Size(p) < TWO64 && Linkable(lex) && Known(p, lex)
    ensures Eval(n, lex, p, a, ps, m, depth, fuel) == Branch(n, lex, p, a, ps, m, depth, fuel)
  {
    hide Linkable;
  }

  lemma {:induction false} IfRoom(n: Nucleus, lex: Lexicon, lex2: Lexicon, x: Extra, p: Prog, a: Word, ps: seq<Word>,
                                  m: Memory, depth: nat, fuel: nat, depth2: nat, fuel2: nat)
    requires p.If? || p.IfElse?
    requires a + 8 * Size(p) < TWO64 && Understood(x, lex, lex2, p) && Beside(x, lex, lex2, m)
    requires depth2 <= depth && fuel <= fuel2
    ensures var o := Eval(n, lex, p, a, ps, m, depth, fuel);
            && Matches(x, o, Eval(n, lex2, p, a, ps, Seen(x, m), depth2, fuel2), depth2 < depth, fuel < fuel2)
            && (o.Done? ==> Beside(x, lex, lex2, o.m))
    decreases fuel, p, 0
  {
    hide Linkable, Within, AllSteady, Beside, Eval;
    IfUnfolds(n, lex, p, a, ps, m, depth, fuel);
    IfUnfolds(n, lex2, p, a, ps, Seen(x, m), depth2, fuel2);
    if ps != [] {
      MoreRoom(n, lex, lex2, x, p.thn, a + 24, ps[1..], m, depth, fuel, depth2, fuel2);
      if p.IfElse? {
        MoreRoom(n, lex, lex2, x, p.els, a + 8 * (3 + Size(p.thn) + 2), ps[1..], m, depth, fuel, depth2, fuel2);
      }
    }
  }

  /** The rest of a loop behind its body. */
  function LoopRest(n: Nucleus, lex: Lexicon, p: Prog, a: Word, ps: seq<Word>, m: Memory, depth: nat,
                    fuel: nat): Outcome
    requires (p.Until? || p.Again?) && a + 8 * Size(p) < TWO64 && Linkable(lex) && Known(p, lex)
  {
    var t := if p.Until? then TestOutcome(n, ps, m, depth) else Done(ps, m);
    if !t.Done? || (p.Until? && ps[0] != 0) then t
    else if fuel == 0 then Unfinished
    else Eval(n, lex, p, a, t.ps, m, depth, fuel - 1)
  }

  lemma LoopUnfolds(n: Nucleus, lex: Lexicon, p: Prog, a: Word, ps: seq<Word>, m: Memory, depth: nat, fuel: nat)
    requires (p.Until? || p.Again?) && a + 8 * Size(p) < TWO64 && Linkable(lex) && Known(p, lex)
    ensures var o := Eval(n, lex, p.body, a, ps, m, depth, fuel);
            Eval(n, lex, p, a, ps, m, depth, fuel)
            == if o.Done? then LoopRest(n, lex, p, a, o.ps, o.m, depth, fuel) else o
  {
    hide Linkable;
  }

  lemma {:induction false} LoopRoom(n: Nucleus, lex: Lexicon, lex2: Lexicon, x: Extra, p: Prog, a: Word, ps: seq<Word>,
                                    m: Memory, depth: nat, fuel: nat, depth2: nat, fuel2: nat)
    requires p.Until? || p.Again?
    requires a + 8 * Size(p) < TWO64 && Understood(x, lex, lex2, p) && Beside(x, lex, lex2, m)
    requires depth2 <= depth && fuel <= fuel2
    ensures var o := Eval(n, lex, p, a, ps, m, depth, fuel);
            && Matches(x, o, Eval(n, lex2, p, a, ps, Seen(x, m), depth2, fuel2), depth2 < depth, fuel < fuel2)
            && (o.Done? ==> Beside(x, lex, lex2, o.m))
    decreases fuel, p, 0
  {
    hide Linkable, Within, AllSteady, Beside, Eval;
    LoopUnfolds(n, lex, p, a, ps, m, depth, fuel);
    LoopUnfolds(n, lex2, p, a, ps, Seen(x, m), depth2, fuel2);
    MoreRoom(n, lex, lex2, x, p.body, a, ps, m, depth, fuel, depth2, fuel2);
    var o := Eval(n, lex, p.body, a, ps, m, depth, fuel);
    if o.Done? && fuel > 0 {
      if p.Again? {
        MoreRoom(n, lex, lex2, x, p, a, o.ps, o.m, depth, fuel - 1, depth2, fuel2 - 1);
      } else if o.ps != [] {
        MoreRoom(n, lex, lex2, x, p, a, o.ps[1..], o.m, depth, fuel - 1, depth2, fuel2 - 1);
      }
    }
  }

  /** The part of a WHILE loop behind its condition, which has left `ps` and `m`. */
  function WhileRest(n: Nucleus, lex: Lexicon, p: Prog, a: Word, ps: seq<Word>, m: Memory, depth: nat,
                     fuel: nat): Outcome
    requires p.While? && a + 8 * Size(p) < TWO64 && Linkable(lex) && Known(p, lex)
  {
    var t := TestOutcome(n, ps, m, depth);
    if !t.Done? || ps[0] == 0 then t
    else
      var o := Eval(n, lex, p.body, a + 8 * (Size(p.cond) + 3), t.ps, m, depth, fuel);
      if !o.Done? then o else if fuel == 0 then Unfinished else Eval(n, lex, p, a, o.ps, o.m, depth, fuel - 1)
  }

  lemma WhileUnfolds(n: Nucleus, lex: Lexicon, p: Prog, a: Word, ps: seq<Word>, m: Memory, depth: nat, fuel: nat)
    requires p.While? && a + 8 * Size(p) < TWO64 && Linkable(lex) && Known(p, lex)
    ensures var o := Eval(n, lex, p.cond, a, ps, m, depth, fuel);
            Eval(n, lex, p, a, ps, m, depth, fuel)
            == if o.Done? then WhileRest(n, lex, p, a, o.ps, o.m, depth, fuel) else o
  {
    hide Linkable;
  }

  lemma {:induction false} WhileRoom(n: Nucleus, lex: Lexicon, lex2: Lexicon, x: Extra, p: Prog, a: Word, ps: seq<Word>,
                                     m: Memory, depth: nat, fuel: nat, depth2: nat, fuel2: nat)
    requires p.While? && a + 8 * Size(p) < TWO64 && Understood(x, lex, lex2, p) && Beside(x, lex, lex2, m)
    requires depth2 <= depth && fuel <= fuel2
    ensures var o := Eval(n, lex, p, a, ps, m, depth, fuel);
            && Matches(x, o, Eval(n, lex2, p, a, ps, Seen(x, m), depth2, fuel2), depth2 < depth, fuel < fuel2)
            && (o.Done? ==> Beside(x, lex, lex2, o.m))
    decreases fuel, p, 0
  {
    hide Linkable, Within, AllSteady, Beside, Eval;
    WhileUnfolds(n, lex, p, a, ps, m, depth, fuel);
    WhileUnfolds(n, lex2, p, a, ps, Seen(x, m), depth2, fuel2);
    MoreRoom(n, lex, lex2, x, p.cond, a, ps, m, depth, fuel, depth2, fuel2);
    var o := Eval(n, lex, p.cond, a, ps, m, depth, fuel);
    if o.Done? && o.ps != [] {
      var b := a + 8 * (Size(p.cond) + 3);
      MoreRoom(n, lex, lex2, x, p.body, b, o.ps[1..], o.m, depth, fuel, depth2, fuel2);
      var o2 := Eval(n, lex, p.body, b, o.ps[1..], o.m, depth, fuel);
      if o2.Done? && fuel > 0 {
        MoreRoom(n, lex, lex2, x, p, a, o2.ps, o2.m, depth, fuel - 1, depth2, fuel2 - 1);
      }
    }
  }

  /** HERE itself is not steady: it tells the two memories apart. */
  lemma HereTells(n: Nucleus, lex: Lexicon, lex2: Lexicon, x: Extra, ps: seq<Word>, m: Memory)
    requires x.More? && x.here != m.here && |ps| < n.pcap
    ensures var o, o2 := AccessOutcome(n, lex, Here, ps, m), AccessOutcome(n, lex2, Here, ps, Seen(x, m));
            o.Done? && o2.Done? && o.ps != o2.ps
  {
    assert ([m.here] + ps)[0] != ([x.here] + ps)[0];
  }

  /** The colon words that `lex2` has and `lex` has not are compiled. */
  ghost predicate Joins(n: Nucleus, lex: Lexicon, lex2: Lexicon, cell: map<Word, Word>) {
    Within(lex, lex2) && forall c <- lex2.body :: c !in lex.body ==> Joined(n, lex2, c, cell)
  }

  ghost predicate Joined(n: Nucleus, lex: Lexicon, c: Word, cell: map<Word, Word>)
    requires c in lex.body
  {
    var p := lex.body[c];
    && Known(p, lex) && Covered(p, n) && Fenced(lex, c, Size(p) + 2)
    && CodeAt(cell, c, [n.docol] + Gen(n, p, c + 8) + [Cfa(n, Exit)])
  }

  lemma JoinsLinked(n: Nucleus, lex: Lexicon, lex2: Lexicon, cell: map<Word, Word>)
    requires Linked(n, lex, cell) && Joins(n, lex, lex2, cell)
    ensures Linked(n, lex2, cell)
  {
    hide Loaded, CodeAt, Gen, Known, Covered, Fenced;
    FencedWithin(lex, lex2, n.isFalse, 3);
    FencedWithin(lex, lex2, n.isTrue, 3);
    forall c <- lex2.body
      ensures Known(lex2.body[c], lex2) && Covered(lex2.body[c], n) && c + 16 + 8 * Size(lex2.body[c]) < TWO64
      ensures CodeAt(cell, c, [n.docol] + Gen(n, lex2.body[c], c + 8) + [Cfa(n, Exit)])
      ensures Fenced(lex2, c, Size(lex2.body[c]) + 2)
    {
      var p := lex2.body[c];
      if c in lex.body {
        KnownWithin(p, lex, lex2);
        FencedWithin(lex, lex2, c, Size(p) + 2);
      }
      CodeEnds(cell, c, [n.docol] + Gen(n, p, c + 8) + [Cfa(n, Exit)]);
    }
  }

  lemma JoinsWithin(n: Nucleus, lex: Lexicon, lex2: Lexicon, cell: map<Word, Word>)
    requires Joins(n, lex, lex2, cell)
    ensures lex.code <= lex2.code
  {
    hide Joined;
  }

  lemma WithinCode(lex: Lexicon, lex2: Lexicon)
    requires Within(lex, lex2)
    ensures lex.code <= lex2.code
  {
  }
}
