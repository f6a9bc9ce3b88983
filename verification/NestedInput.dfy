/**
 * The input of the outer interpreter: a file read in blocks, one character of putback, and a stack of evaluation
 * contexts, against the plain view of the words still to come.
 */
module NestedInput {
  import opened Bytes
  import opened InputWords

  /** What characters are taken from: the file buffer, or a text under evaluation. */
  datatype Buffer = File | Text(bytes: seq<Byte>)

  datatype Context = Context(buffer: Buffer, pos: nat, putback: int)

  /** The one blank between a text under evaluation and the context it was started from. */
  const TRANSITION := Context(Text([BLANK]), 0, NONE)

  /** Room of the evaluation stack and of one context, in bytes. */
  const STACK_BYTES := 0x5e8 - 0x500
  const CONTEXT_BYTES := 32

  predicate IsPutback(c: int) {
    c == NONE || IsSpace(c)
  }

  /** What a context still holds; the file comes behind all of them. */
  function Rest(buffer: Buffer, pos: nat): seq<Byte> {
    if buffer.Text? && pos <= |buffer.bytes| then buffer.bytes[pos..] else []
  }

  predicate AtEnd(buffer: Buffer, pos: nat) {
    buffer.Text? && pos >= |buffer.bytes|
  }

  /** What the suspended contexts hold, the topmost first. */
  function Tail(saved: seq<Context>): seq<Byte> {
    if saved == [] then [] else Rest(saved[0].buffer, saved[0].pos) + Tail(saved[1..])
  }

  /** The file is read beneath all texts. */
  predicate Nested(saved: seq<Context>) {
    forall i :: 0 <= i < |saved| - 1 ==> saved[i].buffer.Text?
  }

  /**
   * A putback character is restored with its context, but is delivered after the character that follows in it. That
   * does no harm if it is a space and the text in front of the context, `pre`, ends in a space; `strict` says that an
   * empty text will not do because the character delivered last was no space.
   */
  ghost predicate Guarded(strict: bool, pre: seq<Byte>, saved: seq<Context>)
    decreases |saved|
  {
    saved == [] || (
      && IsPutback(saved[0].putback)
      && (saved[0].putback != NONE ==> if pre == [] then !strict else IsSpace(pre[|pre| - 1]))
      && Guarded(strict, pre + Rest(saved[0].buffer, saved[0].pos), saved[1..]))
  }

  lemma {:induction false} GuardedLoosely(strict: bool, pre: seq<Byte>, saved: seq<Context>)
    requires Guarded(strict, pre, saved)
    ensures Guarded(false, pre, saved)
    decreases |saved|
  {
    if saved == [] {
    } else {
      GuardedLoosely(strict, pre + Rest(saved[0].buffer, saved[0].pos), saved[1..]);
    }
  }

  /** The first character of the text has been delivered. */
  lemma {:induction false} GuardedBehind(strict: bool, c: Byte, pre: seq<Byte>, saved: seq<Context>)
    requires Guarded(strict, [c] + pre, saved)
    ensures Guarded(!IsSpace(c), pre, saved)
    decreases |saved|
  {
    if saved == [] {
    } else {
      var rest := Rest(saved[0].buffer, saved[0].pos);
      assert [c] + pre + rest == [c] + (pre + rest);
      assert pre != [] ==> ([c] + pre)[|pre|] == pre[|pre| - 1];
      GuardedBehind(strict, c, pre + rest, saved[1..]);
    }
  }

  /** A text that ends in a space, put in front, guards whatever was guarded before. */
  lemma {:induction false} GuardedInFront(strict: bool, front: seq<Byte>, pre: seq<Byte>, saved: seq<Context>)
    requires Guarded(false, pre, saved) && front != [] && IsSpace(front[|front| - 1])
    ensures Guarded(strict, front + pre, saved)
    decreases |saved|
  {
    if saved == [] {
    } else {
      var rest := Rest(saved[0].buffer, saved[0].pos);
      assert front + pre + rest == front + (pre + rest);
      GuardedInFront(strict, front, pre + rest, saved[1..]);
    }
  }

  /** Leaving an exhausted context for the one beneath. */
  lemma Popped(strict: bool, saved: seq<Context>)
    requires Guarded(strict, [], saved) && Nested(saved) && saved != []
    ensures IsPutback(saved[0].putback) && (strict ==> saved[0].putback == NONE)
    ensures Guarded(strict, Rest(saved[0].buffer, saved[0].pos), saved[1..]) && Nested(saved[1..])
    ensures saved[0].buffer.File? ==> saved[1..] == []
    ensures Tail(saved) == Rest(saved[0].buffer, saved[0].pos) + Tail(saved[1..])
  {
    assert [] + Rest(saved[0].buffer, saved[0].pos) == Rest(saved[0].buffer, saved[0].pos);
  }

  /** What >IN leaves of the current context and the suspended ones. */
  function Settled(c: Context, saved: seq<Context>): (Context, seq<Context>)
    decreases |saved|
  {
    if !AtEnd(c.buffer, c.pos) then (c, saved)
    else if saved == [] then (Context(File, 0, NONE), [])
    else Settled(saved[0], saved[1..])
  }

  function Put(c: int): seq<Byte> {
    if 0 <= c < 256 then [c] else []
  }

  /** The suspended contexts with their putback characters where they belong, in front. */
  function Orders(saved: seq<Context>): seq<Byte> {
    if saved == [] then []
    else Put(saved[0].putback) + (Rest(saved[0].buffer, saved[0].pos) + Orders(saved[1..]))
  }

  /** The putback characters of the contexts that >IN enters. */
  function Restored(c: Context, saved: seq<Context>): seq<Byte>
    decreases |saved|
  {
    if !AtEnd(c.buffer, c.pos) || saved == [] then []
    else Put(saved[0].putback) + Restored(saved[0], saved[1..])
  }

  /** The characters behind the putback character of the context that >IN arrives at. */
  function Beyond(c: Context, saved: seq<Context>, file: seq<Byte>): seq<Byte> {
    var t := Settled(c, saved);
    Rest(t.0.buffer, t.0.pos) + Orders(t.1) + file
  }

  /**
   * The next character keeps the order of the input: no putback character is restored, or only one, and it is the
   * same as the character that follows it or has none behind it.
   */
  predicate Keeps(c: Context, saved: seq<Context>, file: seq<Byte>) {
    var r, p, t := Restored(c, saved), Settled(c, saved).0.putback, Beyond(c, saved, file);
    r == [] || (r == Put(p) && (t == [] || t[0] == p))
  }

  lemma {:induction false} SettledOrder(c: Context, saved: seq<Context>, file: seq<Byte>)
    ensures Rest(c.buffer, c.pos) + Orders(saved) + file == Restored(c, saved) + Beyond(c, saved, file)
    ensures Restored(c, saved) == [] && Put(c.putback) == [] ==> Put(Settled(c, saved).0.putback) == []
    decreases |saved|
  {
    hide Rest, AtEnd;
    if !AtEnd(c.buffer, c.pos) {
      assert Restored(c, saved) + Beyond(c, saved, file) == Beyond(c, saved, file);
    } else if saved == [] {
      FileOnly(0, file);
      NoMore(c.buffer, c.pos);
    } else {
      var d := saved[0];
      SettledOrder(d, saved[1..], file);
      Deeper(Put(d.putback), Rest(d.buffer, d.pos), Orders(saved[1..]), file, Restored(d, saved[1..]),
        Beyond(d, saved[1..], file));
      NoMore(c.buffer, c.pos);
    }
  }

  lemma NoMore(buffer: Buffer, pos: nat)
    ensures AtEnd(buffer, pos) ==> Rest(buffer, pos) == []
  {}

  lemma Deeper(p: seq<Byte>, r: seq<Byte>, o: seq<Byte>, file: seq<Byte>, q: seq<Byte>, b: seq<Byte>)
    requires r + o + file == q + b
    ensures [] + (p + (r + o)) + file == (p + q) + b
  {
    assert [] + (p + (r + o)) + file == p + (r + o + file);
    assert p + q + b == p + (q + b);
  }

  /** One character `x`, or none, is delivered in front of the putback character `p` that was restored. */
  lemma DeliveredOrder(r: seq<Byte>, p: seq<Byte>, x: seq<Byte>, t: seq<Byte>)
    requires |p| <= 1 && |x| <= 1 && (r == [] ==> p == []) && (x == [] ==> t == [])
    ensures x + (p + t) == r + (x + t) <==> r == [] || (r == p && (x == [] || x == p))
  {
    if x + (p + t) == r + (x + t) {
      assert |r| == |p|;
      if r != [] {
        assert (r + (x + t))[0] == r[0];
        if x != [] {
          assert (x + (p + t))[0] == x[0] && (x + (p + t))[1] == p[0] && (r + (x + t))[1] == x[0];
        } else {
          assert (x + (p + t))[0] == p[0];
        }
      }
    }
  }

  /**
   * What ?WORD leaves of `B A`: the blank behind `B` is put back in front of `A`. Behind the text that is evaluated
   * then, the engine delivers `A` first.
   */
  lemma RestoredTooLate()
    ensures var c, saved := Context(Text([BLANK]), 1, NONE), [Context(Text([66, BLANK, 65]), 2, BLANK)];
      && Orders(saved) == [BLANK, 65] && !Keeps(c, saved, [])
      && Settled(c, saved) == (saved[0], []) && Beyond(c, saved, []) == [65]
  {
    var c, d := Context(Text([BLANK]), 1, NONE), Context(Text([66, BLANK, 65]), 2, BLANK);
    var saved := [d];
    assert saved[1..] == [] && Rest(d.buffer, d.pos) == [65] && Put(BLANK) == [BLANK];
    assert Orders([]) == [] && Restored(d, []) == [];
    assert Orders(saved) == [BLANK] + ([65] + []);
    assert Settled(d, []) == (d, []);
    assert Restored(c, saved) == [BLANK] + [];
  }

  class Input {
    const inp: array<Byte>
    const name: array<Byte>
    var ifill: nat
    var ipos: nat
    /** The blocks that the reads to come will deliver; none is empty, and none is left at the end of the file. */
    var blocks: seq<seq<Byte>>
    var evalbuf: Buffer
    var evalpos: nat
    var putback: int
    /** The evaluation stack, top first. */
    var saved: seq<Context>

    /** At start the library, if there is one, is under evaluation, with nothing suspended beneath it. */
    constructor (library: Buffer, blocks: seq<seq<Byte>>)
      requires forall i :: 0 <= i < |blocks| ==> 0 < |blocks[i]| <= 256
      ensures Valid() && fresh(inp) && fresh(name) && saved == [] && Current() == Context(library, 0, NONE)
      ensures Ahead() == Rest(library, 0) + Concat(blocks)
      ensures Words() == WordsOf(Rest(library, 0)) + WordsOf(Concat(blocks)) <==>
              Parted(Rest(library, 0), Concat(blocks))
    {
      inp, name := new Byte[256](i => 0), new Byte[32](i => 0);
      ifill, ipos, this.blocks := 0, 0, blocks;
      evalbuf, evalpos, putback, saved := library, 0, NONE, [];
      new;
      assert FileRest() == Concat(blocks);
      WordsAtSeam(Rest(library, 0), Concat(blocks));
      assert Rest(library, 0) + [] == Rest(library, 0);
    }

    ghost function Current(): Context
      reads `evalbuf, `evalpos, `putback
    {
      Context(evalbuf, evalpos, putback)
    }

    /** The state between two characters. */
    ghost predicate Consistent()
      reads this
    {
      && inp.Length == 256 && name.Length == 32 && inp != name
      && ifill <= 256
      && (forall i :: 0 <= i < |blocks| ==> 0 < |blocks[i]| <= 256)
      && (putback == NONE || 0 <= putback < 256)
      && Nested(saved) && (evalbuf.File? ==> saved == [])
    }

    /** Consistent, and every putback character to be restored stands behind a space, or behind nothing. */
    ghost predicate Loose()
      reads this
    {
      Consistent() && Guarded(false, Rest(evalbuf, evalpos), saved)
    }

    /** The same inside a word: behind a space. */
    ghost predicate Strict()
      reads this
    {
      Consistent() && Guarded(true, Rest(evalbuf, evalpos), saved)
    }

    /** The state between two words. */
    ghost predicate Valid()
      reads this
    {
      Loose() && IsPutback(putback)
    }

    /** What is left of the file. */
    ghost function FileRest(): seq<Byte>
      requires inp.Length == 256 && ifill <= 256
      reads `ifill, `ipos, `blocks, inp
    {
      (if ipos <= ifill then inp[ipos..ifill] else []) + Concat(blocks)
    }

    /** The characters still to come, but for the ones put back. */
    ghost function Ahead(): seq<Byte>
      requires inp.Length == 256 && ifill <= 256
      reads `ifill, `ipos, `blocks, `evalbuf, `evalpos, `saved, inp
    {
      Rest(evalbuf, evalpos) + Tail(saved) + FileRest()
    }

    /** The words still to come. */
    ghost function Words(): seq<seq<Byte>>
      requires inp.Length == 256 && ifill <= 256
      reads `ifill, `ipos, `blocks, `evalbuf, `evalpos, `saved, inp
    {
      WordsOf(Ahead())
    }

    /** _evalpop; without a suspended context the file is read. */
    method EvalPop()
      modifies `evalbuf, `evalpos, `putback, `saved
      ensures if old(saved) == [] then Current() == Context(File, 0, NONE) && saved == []
              else saved == old(saved)[1..] && Current() == old(saved)[0]
    {
      if saved == [] {
        evalbuf, evalpos, putback := File, 0, NONE;
      } else {
        evalbuf, evalpos, putback := saved[0].buffer, saved[0].pos, saved[0].putback;
        saved := saved[1..];
      }
    }

    /** Leaving a context that has come to its end loses nothing. */
    method Leave()
      requires Loose() && AtEnd(evalbuf, evalpos)
      modifies `evalbuf, `evalpos, `putback, `saved
      ensures Loose() && IsPutback(putback) && Ahead() == old(Ahead())
      ensures |saved| < |old(saved)| || (saved == old(saved) == [] && evalbuf.File?)
      ensures old(Strict()) ==> Strict() && putback == NONE
      ensures Settled(old(Current()), old(saved)) == Settled(Current(), saved)
    {
      hide Tail, Guarded, Nested;
      ghost var s := saved;
      if saved != [] {
        Popped(false, s);
        if Strict() {
          Popped(true, s);
        }
      }
      EvalPop();
      Emptied(s, FileRest());
    }

    /** >IN: contexts that have come to their end are left. */
    method ToIn()
      requires Loose() && putback == NONE
      modifies `evalbuf, `evalpos, `putback, `saved
      ensures Loose() && IsPutback(putback) && Ahead() == old(Ahead()) && !AtEnd(evalbuf, evalpos)
      ensures old(Strict()) ==> Strict() && putback == NONE
      ensures Settled(old(Current()), old(saved)) == (Current(), saved)
    {
      hide Loose, Strict, Ahead, FileRest, Guarded, Settled, AtEnd;
      AtBottom();
      while AtEnd(evalbuf, evalpos)
        invariant inp.Length == 256 && ifill <= 256
        invariant Loose() && IsPutback(putback) && Ahead() == old(Ahead())
        invariant old(Strict()) ==> Strict() && putback == NONE
        invariant Settled(old(Current()), old(saved)) == Settled(Current(), saved)
        decreases |saved|, if evalbuf.Text? then 1 else 0
      {
        InText(evalbuf, evalpos);
        Leave();
      }
      SettledHere(Current(), saved);
    }

    lemma AtBottom()
      requires Loose()
      ensures inp.Length == 256 && ifill <= 256
    {}

    /** INPREAD: the next block, or none at the end of the file. */
    method Read()
      requires Consistent() && evalbuf.File? && ipos >= ifill
      modifies `ifill, `ipos, `blocks, inp
      ensures Consistent() && FileRest() == old(FileRest()) && ipos == 0
      ensures ifill == 0 ==> FileRest() == []
    {
      ipos := 0;
      if blocks == [] {
        ifill := 0;
      } else {
        var block := blocks[0];
        forall i | 0 <= i < |block| {
          inp[i] := block[i];
        }
        ifill := |block|;
        blocks := blocks[1..];
        assert inp[..ifill] == block;
      }
    }

    /** The characters in the order in which they stand in the contexts and the file. */
    ghost function Sequence(): seq<Byte>
      requires inp.Length == 256 && ifill <= 256
      reads `ifill, `ipos, `blocks, `evalbuf, `evalpos, `putback, `saved, inp
    {
      Put(putback) + Inside()
    }

    /** The same without the current putback character. */
    ghost function Inside(): seq<Byte>
      requires inp.Length == 256 && ifill <= 256
      reads `ifill, `ipos, `blocks, `evalbuf, `evalpos, `saved, inp
    {
      Rest(evalbuf, evalpos) + Orders(saved) + FileRest()
    }

    /** The next character of the current buffer. */
    method Fetch() returns (c: Byte)
      requires Loose()
      requires if evalbuf.File? then ipos < ifill else !AtEnd(evalbuf, evalpos)
      modifies `ipos, `evalpos
      ensures Loose() && (!IsSpace(c) ==> Strict())
      ensures old(Ahead()) == [c] + Ahead() && old(Inside()) == [c] + Inside()
    {
      hide Guarded, Nested, Concat, Tail, Orders, Rest;
      ghost var tail, orders, file := Tail(saved), Orders(saved), FileRest();
      if evalbuf.File? {
        c := inp[ipos];
        ipos := ipos + 1;
        FileStep(inp[..ifill], ipos, Concat(blocks));
        assert inp[ipos..ifill] == inp[..ifill][ipos..] && inp[ipos - 1..ifill] == inp[..ifill][ipos - 1..];
        FileOnly(evalpos, file);
        FileOnly(evalpos, FileRest());
        NothingGuarded(Rest(File, evalpos), !IsSpace(c));
      } else {
        c := evalbuf.bytes[evalpos];
        TextStep(evalbuf.bytes, evalpos + 1);
        evalpos := evalpos + 1;
        ghost var pre := Rest(evalbuf, evalpos);
        GuardedBehind(false, c, pre, saved);
        GuardedLoosely(!IsSpace(c), pre, saved);
        Forward(c, pre, tail, file);
        Forward(c, pre, orders, file);
      }
    }

    /** INPGETCH */
    method GetChar() returns (c: int)
      requires Loose()
      modifies this, inp
      ensures Loose()
      ensures old(putback) != NONE ==> c == old(putback) && putback == NONE && Ahead() == old(Ahead())
      ensures old(putback) != NONE ==> Put(c) + Sequence() == old(Sequence()) && (old(Strict()) ==> Strict())
      ensures old(putback) == NONE ==> IsPutback(putback) && (c != NONE && !IsSpace(c) ==> Strict())
      ensures old(putback) == NONE && old(Ahead()) == [] ==> c == NONE && Ahead() == [] && Strict()
      ensures old(putback) == NONE && old(Ahead()) != [] ==> 0 <= c < 256 && old(Ahead()) == [c] + Ahead()
      ensures old(putback) == NONE && old(Strict()) ==> putback == NONE
      ensures old(putback) == NONE ==>
                (Put(c) + Sequence() == old(Sequence()) <==> Keeps(old(Current()), old(saved), old(FileRest())))
    {
      hide Guarded, Nested, Concat, Tail, Orders, Rest, Keeps, Settled, Restored, FileRest;
      if putback != NONE {
        c := putback;
        putback := NONE;
        GivenBack(c, Inside());
        return;
      }
      ghost var d, sv, file := Current(), saved, FileRest();
      ToIn();
      assert FileRest() == file;
      ghost var inside := Inside();
      assert inside == Beyond(d, sv, file);
      c := Next();
      Judged(d, sv, file, c, Inside());
    }

    /** The character at the position >IN has settled on. */
    method Next() returns (c: int)
      requires Loose() && !AtEnd(evalbuf, evalpos)
      modifies `ifill, `ipos, `blocks, `evalpos, inp
      ensures Loose() && saved == old(saved) && evalbuf == old(evalbuf)
      ensures c == NONE ==> old(Ahead()) == old(Inside()) == [] && Ahead() == Inside() == [] && Strict()
      ensures c != NONE ==> 0 <= c < 256 && old(Ahead()) == [c] + Ahead() && old(Inside()) == [c] + Inside()
      ensures c != NONE && !IsSpace(c) ==> Strict()
    {
      hide Guarded, Nested, Concat, Tail, Orders, Rest;
      if evalbuf.File? && ipos >= ifill {
        FileOnly(evalpos, FileRest());
        Read();
        if ifill == 0 {
          c := NONE;
          NothingGuarded(Rest(evalbuf, evalpos), true);
          return;
        }
      }
      c := Fetch();
    }

    /** SKIPSPC: the first character that is no space is put back. */
    method SkipSpc()
      requires Loose() && IsPutback(putback)
      modifies this, inp
      ensures Loose()
      ensures Skip(old(Ahead())) == [] ==> IsPutback(putback) && Ahead() == []
      ensures Skip(old(Ahead())) != [] ==> Skip(old(Ahead())) == [putback] + Ahead() && Strict()
    {
      hide Guarded, Nested, Ahead, FileRest, Keeps, Sequence;
      ghost var t := Skip(Ahead());
      while true
        invariant Loose() && IsPutback(putback) && Skip(Ahead()) == t
        decreases |Ahead()|, if putback != NONE then 1 else 0
      {
        ghost var s, wasBack := Ahead(), putback != NONE;
        var c := GetChar();
        if c == NONE {
          return;
        }
        if !IsSpace(c) {
          putback := c;
          SkipNothing(s);
          return;
        }
        if !wasBack {
          SkipOne(s);
        }
      }
    }

    /** The characters of the NAME buffer. */
    function Name(): seq<Byte>
      requires name.Length == 32 && name[0] <= LONGEST
      reads name
    {
      name[1..1 + name[0]]
    }

    /** `k` characters of the text `t` have been taken, the first of which is put back before. */
    ghost predicate Reading(t: seq<Byte>, k: nat)
      reads this, inp
    {
      && Loose() && k <= |t|
      && (t == [] ==> IsPutback(putback) && Ahead() == [])
      && (t != [] && k == 0 ==> t == [putback] + Ahead() && Strict() && !IsSpace(t[0]))
      && (t != [] && k > 0 ==> putback == NONE && Strict() && Ahead() == t[k..])
    }

    /** One more character of a word; a space is put back. */
    method Take(ghost t: seq<Byte>, ghost k: nat) returns (c: int)
      requires Reading(t, k)
      modifies this, inp
      ensures c == NONE || 0 <= c < 256
      ensures c == NONE || IsSpace(c) ==> Valid() && Words() == WordsOf(t[k..]) && (k == |t| || IsSpace(t[k]))
      ensures !(c == NONE || IsSpace(c)) ==> k < |t| && c == t[k] && Reading(t, k + 1)
    {
      hide Guarded, Nested, Ahead, FileRest, Keeps, Sequence;
      c := GetChar();
      if c != NONE && IsSpace(c) {
        putback := c;
        if t != [] {
          WordsOfSpace(c, Ahead());
        }
      }
    }

    /** The spaces in front of a word are skipped. */
    method Start()
      requires Valid()
      modifies this, inp
      ensures Reading(Skip(old(Ahead())), 0) && name.Length == 32 && inp != name
    {
      hide Guarded, Nested, Ahead, FileRest;
      SkipSpc();
    }

    lemma Taken(t: seq<Byte>, k: nat)
      requires Reading(t, k) && 0 < k
      ensures Valid() && Words() == WordsOf(t[k..])
    {
      hide Guarded, Nested, Ahead;
    }

    /** ?WORD: the next word goes to the NAME buffer; its length is zero if there is none. */
    method ReadWord() returns (len: nat)
      requires Valid()
      modifies this, inp, name
      ensures Valid() && name[0] <= LONGEST && len == |Name()|
      ensures if old(Words()) == [] then len == 0 && Words() == []
              else len > 0 && [Name()] + Words() == old(Words())
    {
      hide Guarded, Nested, WordsOf, Skip, Piece, Ahead, FileRest, Reading;
      ghost var t := Skip(Ahead());
      FirstWord(Ahead());
      Start();
      name[0] := 0;
      ghost var k := Collect(t);
      PieceIs(t, LONGEST, k);
      NoWords(t, k);
      len := name[0];
    }

    /** The loop of ?WORD. */
    method Collect(ghost t: seq<Byte>) returns (ghost k: nat)
      requires Reading(t, 0) && name.Length == 32 && inp != name && name[0] == 0
      modifies this, inp, name
      ensures Valid() && k <= LONGEST && k <= |t| && name[0] == k && Name() == UpperAll(t[..k])
      ensures Words() == WordsOf(t[k..])
      ensures forall i :: 0 <= i < k ==> !IsSpace(t[i])
      ensures k == |t| || k == LONGEST || IsSpace(t[k])
    {
      hide Guarded, Nested, Words, WordsOf, Reading, Valid;
      k := 0;
      while true
        invariant Reading(t, k) && k == name[0] < LONGEST && k <= |t|
        invariant forall i :: 0 <= i < k ==> !IsSpace(t[i]) && name[1 + i] == Upper(t[i])
        decreases LONGEST - k
      {
        var c := Take(t, k);
        if c == NONE || IsSpace(c) {
          return;
        }
        name[0] := name[0] + 1;
        name[name[0]] := Upper(c);
        k := k + 1;
        if name[0] >= LONGEST {
          Taken(t, k);
          return;
        }
      }
    }

    /** EVAL: false if the evaluation stack is full. */
    method Eval(text: seq<Byte>) returns (ok: bool)
      requires Valid()
      modifies `evalbuf, `evalpos, `putback, `saved
      ensures Valid() && ok == (CONTEXT_BYTES * (|old(saved)| + 2) <= STACK_BYTES) == (|old(saved)| <= 5)
      ensures Words() == if ok then WordsOf(text) + old(Words()) else old(Words())
    {
      hide Guarded, Nested, Tail, Rest, FileRest, WordsOf;
      ok := CONTEXT_BYTES * (|saved| + 2) <= STACK_BYTES;
      if ok {
        ghost var s := Ahead();
        Pushed(text, Current(), saved, FileRest());
        saved := [TRANSITION, Context(evalbuf, evalpos, putback)] + saved;
        evalbuf, evalpos, putback := Text(text), 0, NONE;
        WordsAcross(text, BLANK, s);
      }
    }
  }

  lemma FileStep(buffer: seq<Byte>, pos: nat, rest: seq<Byte>)
    requires 0 < pos <= |buffer|
    ensures buffer[pos - 1..] + rest == [buffer[pos - 1]] + (buffer[pos..] + rest)
  {
    assert buffer[pos - 1..] == [buffer[pos - 1]] + buffer[pos..];
  }

  lemma TextStep(bytes: seq<Byte>, pos: nat)
    requires 0 < pos <= |bytes|
    ensures Rest(Text(bytes), pos - 1) == [bytes[pos - 1]] + Rest(Text(bytes), pos)
  {
    assert bytes[pos - 1..] == [bytes[pos - 1]] + bytes[pos..];
  }

  lemma Forward(c: Byte, pre: seq<Byte>, tail: seq<Byte>, file: seq<Byte>)
    ensures [c] + pre + tail + file == [c] + (pre + tail + file)
  {}

  /** Only the file is left. */
  lemma FileOnly(pos: nat, file: seq<Byte>)
    ensures Rest(File, pos) == [] && Tail([]) == [] && Orders([]) == [] && [] + [] + file == file
  {}

  lemma NothingGuarded(pre: seq<Byte>, strict: bool)
    ensures Guarded(strict, pre, []) && Nested([])
  {}

  lemma InText(buffer: Buffer, pos: nat)
    ensures AtEnd(buffer, pos) ==> buffer.Text?
  {}

  lemma SettledHere(c: Context, saved: seq<Context>)
    ensures !AtEnd(c.buffer, c.pos) ==> Settled(c, saved) == (c, saved)
  {}

  lemma Emptied(saved: seq<Context>, file: seq<Byte>)
    ensures saved == [] ==> [] + Tail(saved) + file == Rest(File, 0) + Tail([]) + file
    ensures saved != [] ==> Tail(saved) == Rest(saved[0].buffer, saved[0].pos) + Tail(saved[1..])
    ensures Guarded(true, Rest(File, 0), []) && Guarded(false, Rest(File, 0), []) && Nested([])
    ensures [] + Tail(saved) == Tail(saved)
  {}

  lemma GivenBack(c: int, inside: seq<Byte>)
    ensures Put(c) + (Put(NONE) + inside) == Put(c) + inside
  {
    assert Put(NONE) + inside == inside;
  }

  /** Whether the character delivered from behind the restored putback keeps the order. */
  lemma Judged(d: Context, saved: seq<Context>, file: seq<Byte>, c: int, inside: seq<Byte>)
    requires d.putback == NONE && (c == NONE || 0 <= c < 256) && Beyond(d, saved, file) == Put(c) + inside
    requires c == NONE ==> inside == []
    ensures var p := Settled(d, saved).0.putback;
      (Put(c) + (Put(p) + inside) == Put(d.putback) + (Rest(d.buffer, d.pos) + Orders(saved) + file)) <==>
      Keeps(d, saved, file)
  {
    hide Rest, Orders, Settled, Restored, Beyond;
    SettledOrder(d, saved, file);
    var r, p := Restored(d, saved), Settled(d, saved).0.putback;
    DeliveredOrder(r, Put(p), Put(c), inside);
    var whole := Rest(d.buffer, d.pos) + Orders(saved) + file;
    assert Put(d.putback) + whole == whole;
  }

  /** The view of a pushed evaluation: the text, a blank, and what was there before. */
  lemma Pushed(text: seq<Byte>, cur: Context, saved: seq<Context>, file: seq<Byte>)
    requires Guarded(false, Rest(cur.buffer, cur.pos), saved) && Nested(saved) && IsPutback(cur.putback)
    requires cur.buffer.File? ==> saved == []
    ensures var pushed := [TRANSITION, cur] + saved;
      && Guarded(false, Rest(Text(text), 0), pushed) && Nested(pushed)
      && Rest(Text(text), 0) + Tail(pushed) + file
          == text + ([BLANK] + (Rest(cur.buffer, cur.pos) + Tail(saved) + file))
  {
    hide Rest;
    var pushed, rest := [TRANSITION, cur] + saved, Rest(cur.buffer, cur.pos);
    assert pushed[1..] == [cur] + saved && pushed[1..][1..] == saved;
    FreshText(text);
    FreshText([BLANK]);
    assert Tail(pushed) == [BLANK] + (rest + Tail(saved));
    GuardedInFront(false, text + [BLANK], rest, saved);
    assert Guarded(false, text + [BLANK], pushed[1..]);
    assert Guarded(false, text, pushed);
    assert forall i :: 2 <= i < |pushed| ==> pushed[i] == saved[i - 2];
  }

  lemma FreshText(text: seq<Byte>)
    ensures Rest(Text(text), 0) == text
  {}

  lemma SkipNothing(s: seq<Byte>)
    requires s != [] && !IsSpace(s[0])
    ensures Skip(s) == s
  {}

  lemma SkipOne(s: seq<Byte>)
    requires s != [] && IsSpace(s[0])
    ensures Skip(s) == Skip(s[1..])
  {}

  lemma {:induction false} PieceIs(t: seq<Byte>, room: nat, k: nat)
    requires k <= |t| && k <= room && forall i :: 0 <= i < k ==> !IsSpace(t[i])
    requires k == |t| || k == room || IsSpace(t[k])
    ensures Piece(t, room) == k
  {
    if k > 0 {
      PieceIs(t[1..], room - 1, k - 1);
    }
  }
}
