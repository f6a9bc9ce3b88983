/**
 * Colon definitions: what `: T ... ;` lays in the dictionary is a linked word, beside all that was compiled before, and
 * calling it does what interpreting its text did before it was there.
 */
module ColonDefinitions {
  import opened Words
  import opened Machine
  import opened ControlFlow
  import opened Simulation
  import opened OnePass
  import opened Sequences
  import opened Widening
  import opened Interpreter

  /** `: T ... ;` behind the header: `:` leaves DOCOL at HERE, then comes the text, and `;` leaves EXIT. */
  function ColonWord(n: Nucleus, d: Space, p: Prog, s: Compiling): (t: Compiling)
    requires InSpace(d, s)
    ensures InSpace(d, t)
  {
    Emit(d, [Cfa(n, Exit)], CompileTokens(n, d, Tokens(p), Emit(d, [n.docol], s)))
  }

  /** A colon definition lays DOCOL, the code of the text and EXIT, if there is room, and nothing else. */
  lemma ColonDefinition(n: Nucleus, d: Space, p: Prog, s: Compiling)
    requires Good(n, d, s)
    ensures var t := ColonWord(n, d, p, s);
            if HereOf(d, s) + 8 * (Size(p) + 2) <= d.limit && |s.rs| + Depth(p) <= n.rcap
            then t.Open? && t.rs == s.rs
                 && t.code == s.code + ([n.docol] + Gen(n, p, HereOf(d, s) + 8) + [Cfa(n, Exit)])
            else t.Halted?
  {
    hide TokenStep, Gen, Tokens;
    var s1 := Emit(d, [n.docol], s);
    if s1.Halted? {
      HaltedStays(n, d, Tokens(p), s1);
    } else {
      OnePassIsLayout(n, d, p, s1);
      Assoc(s.code, [n.docol], Gen(n, p, HereOf(d, s1)));
      Assoc(s.code, [n.docol] + Gen(n, p, HereOf(d, s1)), [Cfa(n, Exit)]);
    }
  }

  /** Every cell of `cell` is there in `cell'`, unchanged. */
  ghost predicate Extended(cell: map<Word, Word>, cell': map<Word, Word>) {
    forall a <- cell :: a in cell' && cell'[a] == cell[a]
  }

  lemma ExtendedCode(cell: map<Word, Word>, cell': map<Word, Word>, a: int, code: seq<int>)
    requires Extended(cell, cell') && CodeAt(cell, a, code)
    ensures CodeAt(cell', a, code)
  {
  }

  lemma ExtendedLoaded(n: Nucleus, cell: map<Word, Word>, cell': map<Word, Word>)
    requires Extended(cell, cell') && Loaded(n, cell)
    ensures Loaded(n, cell')
  {
    ExtendedCode(cell, cell', n.isFalse, [n.docol, Cfa(n, Pure(Un(EqZero))), Cfa(n, Exit)]);
    ExtendedCode(cell, cell', n.isTrue, [n.docol, Cfa(n, Pure(Un(NeZero))), Cfa(n, Exit)]);
  }

  /** The lexicon with one more colon word, whose cells are code from now on. */
  function Adding(lex: Lexicon, word: Word, p: Prog): Lexicon {
    Lexicon(lex.body[word := p], lex.code + Span(word, Size(p) + 2))
  }

  lemma AddingWithin(lex: Lexicon, word: Word, p: Prog)
    requires word !in lex.body
    ensures Within(lex, Adding(lex, word, p))
    ensures word + 8 * (Size(p) + 2) < TWO64 ==> Fenced(Adding(lex, word, p), word, Size(p) + 2)
  {
    if word + 8 * (Size(p) + 2) < TWO64 {
      forall i | 0 <= i < Size(p) + 2
        ensures word + 8 * i in Adding(lex, word, p).code
      {
        assert InSpan(word + 8 * i, word, Size(p) + 2);
      }
    }
  }

  lemma ExtendedLinked(n: Nucleus, lex: Lexicon, cell: map<Word, Word>, cell': map<Word, Word>)
    requires Linked(n, lex, cell) && Extended(cell, cell')
    ensures Linked(n, lex, cell')
  {
    hide Loaded, CodeAt, Gen, Known, Covered, Extended, AllFenced, Linkable;
    ExtendedLoaded(n, cell, cell');
    forall c <- lex.body
      ensures CodeAt(cell', c, [n.docol] + Gen(n, lex.body[c], c + 8) + [Cfa(n, Exit)])
    {
      ExtendedCode(cell, cell', c, [n.docol] + Gen(n, lex.body[c], c + 8) + [Cfa(n, Exit)]);
    }
  }

  /** One more colon word at a free address. */
  lemma LinkedGrows(n: Nucleus, lex: Lexicon, cell: map<Word, Word>, cell': map<Word, Word>, word: Word, p: Prog)
    requires Linked(n, lex, cell) && Extended(cell, cell') && word !in lex.body
    requires Known(p, Adding(lex, word, p)) && Covered(p, n)
    requires CodeAt(cell', word, [n.docol] + Gen(n, p, word + 8) + [Cfa(n, Exit)])
    ensures Linked(n, Adding(lex, word, p), cell') && Joins(n, lex, Adding(lex, word, p), cell')
  {
    hide Linked, CodeAt, Gen, Known, Covered, Extended, Fenced;
    ExtendedLinked(n, lex, cell, cell');
    CodeEnds(cell', word, [n.docol] + Gen(n, p, word + 8) + [Cfa(n, Exit)]);
    AddingWithin(lex, word, p);
    JoinsLinked(n, lex, Adding(lex, word, p), cell');
  }

  /** The cells of a compiling engine: the dictionary behind `d.org`, and `rom` around it. */
  function CellsOf(rom: map<Word, Word>, d: Space, s: Compiling): map<Word, Word>
    requires s.Open? && InSpace(d, s)
  {
    WriteCells(rom, d.org, s.code)
  }

  /** No cell outside the dictionary lies in its space. */
  ghost predicate Around(rom: map<Word, Word>, d: Space) {
    forall a <- rom :: !(d.org <= a < d.limit)
  }

  lemma WrittenExtends(rom: map<Word, Word>, d: Space, x: seq<Word>, y: seq<Word>)
    requires Around(rom, d) && d.org + 8 * |x + y| <= d.limit
    ensures Extended(WriteCells(rom, d.org, x), WriteCells(rom, d.org, x + y))
    ensures d.org + 8 * |x| < d.limit ==> d.org + 8 * |x| !in WriteCells(rom, d.org, x)
  {
    var cell, cell' := WriteCells(rom, d.org, x), WriteCells(rom, d.org, x + y);
    forall a <- cell
      ensures a in cell' && cell'[a] == cell[a]
    {
      if InSpan(a, d.org, |x|) {
        assert InSpan(a, d.org, |x + y|) && (x + y)[(a - d.org) / 8] == x[(a - d.org) / 8];
      }
    }
  }

  lemma CodeWritten(rom: map<Word, Word>, d: Space, x: seq<Word>, y: seq<Word>)
    requires d.org + 8 * |x + y| <= d.limit
    ensures CodeAt(WriteCells(rom, d.org, x + y), d.org + 8 * |x|, y)
  {
    hide WriteCells;
    var cell, a := WriteCells(rom, d.org, x + y), d.org + 8 * |x|;
    forall i | 0 <= i < |y|
      ensures a + 8 * i in cell && cell[a + 8 * i] == y[i]
    {
      WrittenCell(rom, d.org, x + y, |x| + i);
    }
  }

  lemma WrittenCell(rom: map<Word, Word>, a: Word, code: seq<Word>, i: nat)
    requires i < |code| && a + 8 * |code| < TWO64
    ensures var cell := WriteCells(rom, a, code); a + 8 * i in cell && cell[a + 8 * i] == code[i]
  {
    assert InSpan(a + 8 * i, a, |code|) && (a + 8 * i - a) / 8 == i;
  }

  lemma DefsHaveCells(n: Nucleus, lex: Lexicon, cell: map<Word, Word>, c: Word)
    requires Linked(n, lex, cell) && c in lex.body
    ensures c in cell
  {
    hide Loaded, CodeAt, Gen, Known, Fenced;
    FirstCell(cell, c, [n.docol] + Gen(n, lex.body[c], c + 8) + [Cfa(n, Exit)]);
  }

  lemma FirstCell(cell: map<Word, Word>, a: Word, code: seq<int>)
    requires CodeAt(cell, a, code) && code != []
    ensures a in cell
  {
    assert a + 8 * 0 in cell;
  }

  /** The dictionary in which `p` is to be compiled, with the colon words it may call: its own name among them. */
  ghost predicate Definable(n: Nucleus, lex: Lexicon, rom: map<Word, Word>, d: Space, p: Prog, s: Compiling) {
    && Good(n, d, s) && HereOf(d, s) < d.limit && Known(p, Adding(lex, HereOf(d, s), p)) && Covered(p, n)
    && ColonWord(n, d, p, s).Open? && Around(rom, d) && Linked(n, lex, CellsOf(rom, d, s))
  }

  /** The cells that the definition of `p` adds, and the HERE that it leaves. */
  function Added(n: Nucleus, d: Space, p: Prog, s: Compiling): Extra
    requires s.Open? && InSpace(d, s)
  {
    var t := ColonWord(n, d, p, s);
    if t.Open? && |s.code| <= |t.code|
    then More(WriteCells(map[], HereOf(d, s), t.code[|s.code|..]), HereOf(d, t))
    else Same
  }

  /** The cells of a colon definition follow those of before. */
  lemma ColonCells(n: Nucleus, lex: Lexicon, rom: map<Word, Word>, d: Space, p: Prog, s: Compiling)
    returns (code: seq<Word>)
    requires Definable(n, lex, rom, d, p, s)
    ensures var word, t := HereOf(d, s), ColonWord(n, d, p, s);
            && t.code == s.code + code && t.code[|s.code|..] == code && d.org + 8 * |s.code + code| <= d.limit
            && code == [n.docol] + Gen(n, p, word + 8) + [Cfa(n, Exit)] && |code| == Size(p) + 2
  {
    hide Emit, CompileTokens, Tokens, Linked, Known, Covered, CodeAt, WriteCells, Around, ColonWord;
    ColonDefinition(n, d, p, s);
    var t := ColonWord(n, d, p, s);
    code := t.code[|s.code|..];
    assert code == [n.docol] + Gen(n, p, HereOf(d, s) + 8) + [Cfa(n, Exit)];
  }

  /** A colon definition makes a linked word: everything compiled before stays linked beside it. */
  lemma ColonLinks(n: Nucleus, lex: Lexicon, rom: map<Word, Word>, d: Space, p: Prog, s: Compiling)
    requires Definable(n, lex, rom, d, p, s)
    ensures var word, t := HereOf(d, s), ColonWord(n, d, p, s);
            && word !in lex.body && Linked(n, Adding(lex, word, p), CellsOf(rom, d, t))
            && Joins(n, lex, Adding(lex, word, p), CellsOf(rom, d, t))
            && |t.code| == |s.code| + Size(p) + 2
            && var more := WriteCells(map[], word, t.code[|s.code|..]);
               && CellsOf(rom, d, t) == more + CellsOf(rom, d, s)
               && more.Keys == Span(word, Size(p) + 2) && more.Keys !! CellsOf(rom, d, s).Keys
  {
    hide Linked, Known, Covered, CodeAt, Gen, Extended, WriteCells, Around, Joins, ColonWord, Adding, Span, Size, Cfa;
    var word, t := HereOf(d, s), ColonWord(n, d, p, s);
    var code := ColonCells(n, lex, rom, d, p, s);
    WrittenExtends(rom, d, s.code, code);
    WrittenApart(rom, d, s.code, code);
    CodeWritten(rom, d, s.code, code);
    if word in lex.body {
      DefsHaveCells(n, lex, CellsOf(rom, d, s), word);
    }
    LinkedGrows(n, lex, CellsOf(rom, d, s), CellsOf(rom, d, t), word, p);
  }

  lemma WrittenApart(rom: map<Word, Word>, d: Space, x: seq<Word>, y: seq<Word>)
    requires Around(rom, d) && d.org + 8 * |x + y| <= d.limit
    ensures var here, was := d.org + 8 * |x|, WriteCells(rom, d.org, x);
            && WriteCells(rom, d.org, x + y) == WriteCells(map[], here, y) + was
            && WriteCells(map[], here, y).Keys !! was.Keys && WriteCells(map[], here, y).Keys == Span(here, |y|)
  {
    hide WriteCells, Around, InSpan;
    var here, was, more := d.org + 8 * |x|, WriteCells(rom, d.org, x), WriteCells(map[], d.org + 8 * |x|, y);
    WrittenKeys(here, y);
    forall a: Word
      ensures !(a in was && a in more)
      ensures a in WriteCells(rom, d.org, x + y) <==> a in was || a in more
      ensures a in WriteCells(rom, d.org, x + y)
              ==> WriteCells(rom, d.org, x + y)[a] == if a in was then was[a] else more[a]
    {
      WrittenValue(rom, d, x, y, a);
    }
  }

  lemma WrittenKeys(a: Word, ws: seq<Word>)
    requires a + 8 * |ws| < TWO64
    ensures WriteCells(map[], a, ws).Keys == Span(a, |ws|)
  {
    assert forall x: Word :: x in WriteCells(map[], a, ws) <==> InSpan(x, a, |ws|);
  }

  lemma WrittenParts(a: int, org: int, j: nat, k: nat)
    ensures InSpan(a, org, j + k) <==> InSpan(a, org, j) || InSpan(a, org + 8 * j, k)
    ensures InSpan(a, org + 8 * j, k) ==> !InSpan(a, org, j) && (a - org) / 8 == j + (a - (org + 8 * j)) / 8
    ensures InSpan(a, org, j) ==> 0 <= (a - org) / 8 < j
  {
  }

  lemma WrittenValue(rom: map<Word, Word>, d: Space, x: seq<Word>, y: seq<Word>, a: Word)
    requires Around(rom, d) && d.org + 8 * |x + y| <= d.limit
    ensures var was, more, whole := WriteCells(rom, d.org, x), WriteCells(map[], d.org + 8 * |x|, y),
                                    WriteCells(rom, d.org, x + y);
            && !(a in was && a in more) && (a in whole <==> a in was || a in more)
            && (a in whole ==> whole[a] == if a in was then was[a] else more[a])
  {
    hide InSpan;
    WrittenParts(a, d.org, |x|, |y|);
    SpanBounds(a, d.org, |x + y|);
    SpanBounds(a, d.org + 8 * |x|, |y|);
  }

  lemma SpanBounds(a: int, org: int, k: nat)
    ensures InSpan(a, org, k) ==> org <= a < org + 8 * k && 0 <= (a - org) / 8 < k
  {
  }

  /** The same state in a memory that holds more. */
  function Moved(x: Extra, s: State): State {
    if s.Go? then s.(m := Seen(x, s.m)) else s
  }

  /** The engine of `s` has the dictionary of `c`, and nothing that looks at HERE is said or called. */
  ghost predicate Before(n: Nucleus, lex: Lexicon, rom: map<Word, Word>, d: Space, ws: seq<Prog>, c: Compiling,
                         s: State) {
    && Speaks(n, lex, s, ws) && Definable(n, lex, rom, d, Body(ws), c)
    && s.m.cell == CellsOf(rom, d, c) && s.m.here == HereOf(d, c)
    && Steady(Body(ws)) && AllSteady(lex)
  }

  lemma SpeaksWider(n: Nucleus, lex: Lexicon, lex2: Lexicon, x: Extra, ws: seq<Prog>, s: State)
    requires Speaks(n, lex, s, ws) && Within(lex, lex2) && Linked(n, lex2, Seen(x, s.m).cell)
    ensures Speaks(n, lex2, Moved(x, s), ws)
  {
    hide Linked, CodeAt, Known, Covered, Within, Fenced;
    LinkedLinkable(n, lex2, Seen(x, s.m).cell);
    ExtendedCode(s.m.cell, Seen(x, s.m).cell, s.wp, [Cfa(n, RunCode)]);
    WithinCode(lex, lex2);
    FencedWithin(lex, lex2, s.wp, 1);
    forall p <- ws
      ensures Known(p, lex2)
    {
      KnownWithin(p, lex, lex2);
    }
  }

  /** The definition adds cells beside those of before, and the interpreter can say the text as well as the new word. */
  lemma ColonBeside(n: Nucleus, lex: Lexicon, rom: map<Word, Word>, d: Space, ws: seq<Prog>, c: Compiling, s: State)
    requires Before(n, lex, rom, d, ws, c, s)
    ensures s.Go? && Good(n, d, c) && HereOf(d, c) < d.limit
    ensures var lex2, x := Adding(lex, HereOf(d, c), Body(ws)), Added(n, d, Body(ws), c);
            && Beside(x, lex, lex2, s.m) && Understood(x, lex, lex2, Body(ws)) && Speaks(n, lex, s, ws)
            && Compiled(n, lex2, HereOf(d, c), ws, Moved(x, s))
            && Seen(x, s.m).cell == CellsOf(rom, d, ColonWord(n, d, Body(ws), c))
  {
    hide Linked, CodeAt, WriteCells, Known, Covered, ColonWord, Around, CellsOf, Within, Linkable, AllSteady, Span,
      Speaks;
    var word, p := HereOf(d, c), Body(ws);
    var lex2, x := Adding(lex, word, p), Added(n, d, p, c);
    ColonLinks(n, lex, rom, d, p, c);
    AddingWithin(lex, word, p);
    TextFits(n, lex, s, ws);
    LinkedLinkable(n, lex2, Seen(x, s.m).cell);
    SpeaksWider(n, lex, lex2, x, ws, s);
  }

  /**
   * What a text means to the interpreter before and after: the same, with the same stores, unless it misses a cell
   * before.
   */
  lemma TextMoved(n: Nucleus, lex: Lexicon, lex2: Lexicon, x: Extra, ws: seq<Prog>, a: Word, s: State, fuel: nat)
    requires s.Go? && Beside(x, lex, lex2, s.m) && Understood(x, lex, lex2, Body(ws))
    ensures var o, o2 := Result(n, lex, Body(ws), a, s, fuel), Result(n, lex2, Body(ws), a, Moved(x, s), fuel);
            o == Error(Wild) || o2 == if o.Done? then Done(o.ps, Seen(x, o.m)) else o
  {
    hide Eval, Body, Known, Linkable, Within, Beside, AllSteady;
    if a + 8 * Size(Body(ws)) < TWO64 {
      MoreRoom(n, lex, lex2, x, Body(ws), a, s.ps, s.m, |s.rs|, fuel, |s.rs|, fuel);
    }
  }

  /** What the interpreter makes of a text before the definition it makes of the new word after it. */
  lemma TextThenWord(n: Nucleus, lex: Lexicon, lex2: Lexicon, x: Extra, word: Word, ws: seq<Prog>, s: State, t: State)
    requires s.Go? && Beside(x, lex, lex2, s.m) && Understood(x, lex, lex2, Body(ws)) && Speaks(n, lex, s, ws)
    requires Compiled(n, lex2, word, ws, Moved(x, s))
    requires IsText(ws) && TextRun(n, s, ws, t)
    ensures || WordRun(n, Moved(x, s), Call(word), Moved(x, t))
            || WordRun(n, Moved(x, s), Call(word), Stop(ReturnOverflow))
            || t == Stop(Wild) || MayStray(n, lex, ws, word + 8, s)
  {
    hide Body, Known, Linkable, Within, Beside, AllSteady, Speaks, Compiled, Result, TextRun, WordRun, Understood, Seen;
    CompiledFits(n, lex2, word, ws, Moved(x, s));
    var f := TextRunEnds(n, lex, ws, word + 8, s, t);
    TextMoved(n, lex, lex2, x, ws, word + 8, s, f);
    if TextEnds(n, lex, ws, word + 8, s, f, t) && t != Stop(Wild) {
      CompiledToo(n, lex2, word, ws, Moved(x, s), f, Moved(x, t));
    }
  }

  /** And what it makes of the new word, it made of the text. */
  lemma WordThenText(n: Nucleus, lex: Lexicon, lex2: Lexicon, x: Extra, word: Word, ws: seq<Prog>, s: State, u: State)
    returns (t: State)
    requires s.Go? && Beside(x, lex, lex2, s.m) && Understood(x, lex, lex2, Body(ws)) && Speaks(n, lex, s, ws)
    requires Compiled(n, lex2, word, ws, Moved(x, s))
    requires WordRun(n, Moved(x, s), Call(word), u)
    ensures IsText(ws)
    ensures || (TextRun(n, s, ws, t) && (u == Moved(x, t) || t == Stop(Wild))) || u == Stop(ReturnOverflow)
            || MayStray(n, lex, ws, word + 8, s)
  {
    hide Body, Known, Linkable, Within, Beside, AllSteady, Speaks, Compiled, Result, TextRun, WordRun, Understood, Seen;
    CompiledFits(n, lex2, word, ws, Moved(x, s));
    TextFits(n, lex, s, ws);
    var g := WordRunEnds(n, lex2, Call(word), Moved(x, s), u);
    InterpretedToo(n, lex2, word, ws, Moved(x, s), g, u);
    TextMoved(n, lex, lex2, x, ws, word + 8, s, g);
    var o := Result(n, lex, Body(ws), word + 8, s, g);
    assert o.Strayed? ==> TextStrays(n, lex, ws, word + 8, s, g);
    t := u;
    if Ended(o) {
      t := Said(s, o);
      TextEndsRuns(n, lex, ws, word + 8, s, g, t);
    }
  }

  /**
   * `: T ws ;` and then `T` against the text `ws` itself: what the interpreter does with the text in the memory before
   * the definition, it does with `T` in the memory after it, in both directions and with the same stores, unless the
   * one return cell that the extra call takes is missing, or the text meets an address that was not known before. Only
   * of a text that changes a cell of code nothing is said.
   */
  lemma ColonInterprets(n: Nucleus, lex: Lexicon, rom: map<Word, Word>, d: Space, ws: seq<Prog>, c: Compiling, s: State,
                        u: State) returns (t: State)
    requires Before(n, lex, rom, d, ws, c, s)
    ensures Good(n, d, c) && HereOf(d, c) < TWO64 && s.Go? && IsText(ws)
    ensures var x, call := Added(n, d, Body(ws), c), Call(HereOf(d, c));
      && Seen(x, s.m).cell == CellsOf(rom, d, ColonWord(n, d, Body(ws), c))
      && (TextRun(n, s, ws, u) ==>
            || WordRun(n, Moved(x, s), call, Moved(x, u)) || WordRun(n, Moved(x, s), call, Stop(ReturnOverflow))
            || u == Stop(Wild) || MayStray(n, lex, ws, HereOf(d, c) + 8, s))
      && (WordRun(n, Moved(x, s), call, u) ==>
            || (TextRun(n, s, ws, t) && (u == Moved(x, t) || t == Stop(Wild))) || u == Stop(ReturnOverflow)
            || MayStray(n, lex, ws, HereOf(d, c) + 8, s))
  {
    hide Body, Beside, Speaks, Compiled, TextRun, WordRun, Understood, Before, Added, CellsOf, ColonWord, Seen,
      MayStray;
    ColonBeside(n, lex, rom, d, ws, c, s);
    var word, x := HereOf(d, c), Added(n, d, Body(ws), c);
    var lex2 := Adding(lex, word, Body(ws));
    TextFits(n, lex, s, ws);
    if TextRun(n, s, ws, u) {
      TextThenWord(n, lex, lex2, x, word, ws, s, u);
    }
    t := u;
    if WordRun(n, Moved(x, s), Call(word), u) {
      t := WordThenText(n, lex, lex2, x, word, ws, s, u);
    }
  }
}
