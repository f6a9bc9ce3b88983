/**
 * YU-ASTN-DELETE: a syntax tree is freed, branches first. Memory is cells in live blocks; freeing a block takes its
 * cells away, so that no freed cell can be read or written again.
 */
module AstDelete {
  import opened Words
  import opened CellStack

  const NODE_CELLS := 5
  const NUM_BR := 16
  const PTR_BR := 32

  /** A tree in memory: the address of the node, of its branch array, and the branches. */
  datatype Tree = Node(at: Word, table: Word, branches: seq<Tree>)

  datatype Memory = Memory(cell: map<Word, Word>, live: map<Word, nat>)

  /** The branch array, if there are branches, and the node. */
  function Own(t: Tree): seq<Word> {
    if |t.branches| == 0 then [t.at] else [t.table, t.at]
  }

  /** The blocks of a tree in the order in which they are freed. */
  function Trace(t: Tree): seq<Word>
    decreases t, 0
  {
    TraceFrom(t.branches, 0) + Own(t)
  }

  /** The blocks of the branches from the `k`-th on; the last branch goes first. */
  function TraceFrom(branches: seq<Tree>, k: nat): seq<Word>
    requires k <= |branches|
    decreases branches, |branches| - k
  {
    if k == |branches| then [] else TraceFrom(branches, k + 1) + Trace(branches[k])
  }

  function CellAt(p: Word, i: nat): Word {
    Wrap(p + 8 * i)
  }

  /** Live blocks do not overlap, and all their cells are there. */
  ghost predicate WellFormed(m: Memory) {
    && (forall p <- m.live :: 0 < p && p + 8 * m.live[p] < TWO64)
    && (forall p <- m.live, q <- m.live :: p != q ==> p + 8 * m.live[p] <= q || q + 8 * m.live[q] <= p)
    && (forall p, i :: p in m.live && 0 <= i < m.live[p] ==> CellAt(p, i) in m.cell)
  }

  function Load(m: Memory, p: Word, i: nat): Word {
    if CellAt(p, i) in m.cell then m.cell[CellAt(p, i)] else 0
  }

  /** The node and the branch array of `t` are live and hold what they should. */
  ghost predicate NodeLies(m: Memory, t: Tree) {
    && t.at in m.live && m.live[t.at] == NODE_CELLS
    && |t.branches| < TWO64 && Load(m, t.at, 2) == |t.branches|
    && (t.branches != [] ==>
      && Load(m, t.at, 4) == t.table && t.table in m.live && m.live[t.table] >= |t.branches|
      && forall i :: 0 <= i < |t.branches| ==> Load(m, t.table, i) == t.branches[i].at)
  }

  ghost predicate Lies(m: Memory, t: Tree)
    decreases t, 0
  {
    NodeLies(m, t) && forall i :: 0 <= i < |t.branches| ==> Lies(m, t.branches[i])
  }

  predicate Distinct(s: seq<Word>) {
    forall i, j :: 0 <= i < j < |s| ==> s[i] != s[j]
  }

  /** The blocks named by `s` are as they were. */
  ghost predicate Same(m: Memory, m': Memory, s: seq<Word>) {
    forall p <- s :: p in m.live ==> SameBlock(m, m', p)
  }

  ghost predicate SameBlock(m: Memory, m': Memory, p: Word)
    requires p in m.live
  {
    p in m'.live && m'.live[p] == m.live[p] && forall i :: 0 <= i < m.live[p] ==> Load(m', p, i) == Load(m, p, i)
  }

  lemma {:induction false} TraceHolds(t: Tree)
    ensures t.at in Trace(t) && (t.branches != [] ==> t.table in Trace(t))
  {
    var s := Trace(t);
    assert s[|s| - 1] == t.at;
    if t.branches != [] {
      assert s[|s| - 2] == t.table;
    }
  }

  /** A tree whose blocks stay the same stays in place. */
  lemma {:induction false} LiesFrame(m: Memory, m': Memory, t: Tree)
    requires Lies(m, t) && Same(m, m', Trace(t))
    ensures Lies(m', t)
    decreases t, 0
  {
    TraceHolds(t);
    forall i | 0 <= i < |t.branches|
      ensures Lies(m', t.branches[i])
    {
      Within(t.branches, 0, i);
      assert Same(m, m', Trace(t.branches[i]));
      LiesFrame(m, m', t.branches[i]);
    }
  }

  lemma {:induction false} Within(branches: seq<Tree>, k: nat, i: nat)
    requires k <= i < |branches|
    ensures forall p <- Trace(branches[i]) :: p in TraceFrom(branches, k)
    decreases i - k
  {
    if k < i {
      Within(branches, k + 1, i);
    }
  }

  function Written(m: Memory, p: Word, i: nat, w: Word): Memory {
    m.(cell := m.cell[CellAt(p, i) := w])
  }

  function Released(m: Memory, p: Word): Memory
    requires p in m.live
  {
    Memory(map a | a in m.cell && !(p <= a < p + 8 * m.live[p]) :: m.cell[a], m.live - {p})
  }

  /** All blocks but those of `s` are as they were. */
  ghost predicate Untouched(m: Memory, m': Memory, s: seq<Word>) {
    forall p <- m.live :: p !in s ==> SameBlock(m, m', p)
  }

  lemma CellsApart(m: Memory, p: Word, i: nat, q: Word, j: nat)
    requires WellFormed(m) && p in m.live && q in m.live && i < m.live[p] && j < m.live[q]
    ensures CellAt(p, i) == p + 8 * i && CellAt(p, i) in m.cell
    ensures CellAt(p, i) == CellAt(q, j) ==> p == q && i == j
  {
    hide CellAt;
    CellInBlock(m, p, i);
    CellInBlock(m, q, j);
    assert p != q ==> p + 8 * m.live[p] <= q || q + 8 * m.live[q] <= p;
  }

  lemma CellInBlock(m: Memory, p: Word, i: nat)
    requires WellFormed(m) && p in m.live && i < m.live[p]
    ensures CellAt(p, i) == p + 8 * i && CellAt(p, i) in m.cell
  {
    assert p + 8 * m.live[p] < TWO64;
  }

  lemma WriteFrame(m: Memory, p: Word, i: nat, w: Word)
    requires WellFormed(m) && p in m.live && i < m.live[p]
    ensures var m' := Written(m, p, i, w);
      && WellFormed(m') && Untouched(m, m', [p]) && m'.live == m.live
      && Load(m', p, i) == w && (forall j :: 0 <= j < m.live[p] && j != i ==> Load(m', p, j) == Load(m, p, j))
  {
    forall q, j | q in m.live && 0 <= j < m.live[q]
      ensures CellAt(p, i) == CellAt(q, j) ==> p == q && i == j
    {
      CellsApart(m, p, i, q, j);
    }
  }

  lemma ReleaseFrame(m: Memory, p: Word)
    requires WellFormed(m) && p in m.live
    ensures var m' := Released(m, p);
      && WellFormed(m') && Untouched(m, m', [p]) && m'.live.Keys == m.live.Keys - {p}
      && forall i :: 0 <= i < m.live[p] ==> CellAt(p, i) !in m'.cell
  {
    var m' := Released(m, p);
    forall q, j | q in m'.live && 0 <= j < m.live[q]
      ensures CellAt(q, j) in m'.cell && Load(m', q, j) == Load(m, q, j)
    {
      CellsApart(m, q, j, q, j);
      assert !(p <= q + 8 * j < p + 8 * m.live[p]);
    }
    forall i | 0 <= i < m.live[p]
      ensures CellAt(p, i) !in m'.cell
    {
      CellsApart(m, p, i, p, i);
    }
  }

  /** The node with `k` branches left to be freed, and its branch array. */
  ghost predicate Head(m: Memory, t: Tree, k: nat) {
    && t.at in m.live && m.live[t.at] == NODE_CELLS && t.table in m.live && m.live[t.table] >= |t.branches|
    && k <= |t.branches| < TWO64 && Load(m, t.at, 2) == k && Load(m, t.at, 4) == t.table
  }

  ghost predicate Left(m: Memory, t: Tree, k: nat) {
    forall i :: 0 <= i < k && i < |t.branches| ==> Load(m, t.table, i) == t.branches[i].at && Lies(m, t.branches[i])
  }

  /** The branches from the `k`-th on are gone, and nothing else. */
  ghost predicate Progress(m0: Memory, m: Memory, t: Tree, k: nat) {
    && k <= |t.branches| && WellFormed(m) && Head(m, t, k) && Left(m, t, k)
    && (forall p :: p in m.live <==> p in m0.live && p !in TraceFrom(t.branches, k))
    && Untouched(m0, m, TraceFrom(t.branches, k) + Own(t))
  }

  /** The tree is gone, and nothing else. */
  ghost predicate Gone(m0: Memory, m: Memory, t: Tree) {
    && WellFormed(m)
    && (forall p :: p in m.live <==> p in m0.live && p !in Trace(t))
    && Untouched(m0, m, Trace(t))
  }

  lemma {:induction false} FromIsPrefix(branches: seq<Tree>, k: nat)
    requires k <= |branches|
    ensures TraceFrom(branches, k) <= TraceFrom(branches, 0)
    decreases k
  {
    if k > 0 {
      FromIsPrefix(branches, k - 1);
    }
  }

  /** No block of a tree with distinct blocks is in two of its parts. */
  lemma Parts(t: Tree, k: nat)
    requires Distinct(Trace(t)) && k < |t.branches|
    ensures var child := Trace(t.branches[k]);
      && Distinct(child) && t.at != t.table
      && t.at !in child && t.table !in child
      && (forall p <- child :: p !in TraceFrom(t.branches, k + 1))
      && t.at !in TraceFrom(t.branches, k) && t.table !in TraceFrom(t.branches, k)
  {
    hide Trace, TraceFrom;
    var all, child := Trace(t), Trace(t.branches[k]);
    var from, later := TraceFrom(t.branches, k), TraceFrom(t.branches, k + 1);
    FromIsPrefix(t.branches, k);
    Unfolded(t, k);
    var n := |TraceFrom(t.branches, 0)|;
    assert all[n] == t.table && all[n + 1] == t.at;
    assert forall i :: 0 <= i < |from| ==> all[i] == from[i];
    assert forall i :: 0 <= i < |child| ==> child[i] == all[|later| + i];
    assert forall i :: 0 <= i < |later| ==> later[i] == all[i];
  }

  lemma Unfolded(t: Tree, k: nat)
    requires k < |t.branches|
    ensures Trace(t) == TraceFrom(t.branches, 0) + [t.table, t.at]
    ensures TraceFrom(t.branches, k) == TraceFrom(t.branches, k + 1) + Trace(t.branches[k])
  {}

  lemma Apart(t: Tree, i: nat, k: nat)
    requires Distinct(Trace(t)) && i < k < |t.branches|
    ensures forall p <- Trace(t.branches[i]) :: p !in Trace(t.branches[k])
  {
    Within(t.branches, i + 1, k);
    Parts(t, i);
  }

  lemma SameOf(m: Memory, m': Memory, s: seq<Word>, u: seq<Word>)
    requires Untouched(m, m', s) && forall p <- u :: p !in s
    ensures Same(m, m', u)
  {}

  lemma UntouchedSteps(m: Memory, m': Memory, m'': Memory, s: seq<Word>, u: seq<Word>, all: seq<Word>)
    requires Untouched(m, m', s) && Untouched(m', m'', u)
    requires (forall p <- s :: p in all) && forall p <- u :: p in all
    ensures Untouched(m, m'', all)
  {
    forall p | p in m.live && p !in all
      ensures SameBlock(m, m'', p)
    {
      assert SameBlock(m, m', p) && SameBlock(m', m'', p);
    }
  }

  /** The entries and trees in front of the `k`-th stay, if neither the array nor their blocks are touched. */
  lemma LeftFrame(m: Memory, m': Memory, t: Tree, k: nat)
    requires Left(m, t, k) && k <= |t.branches|
    requires forall i :: 0 <= i < k ==> Load(m', t.table, i) == Load(m, t.table, i)
    requires forall i :: 0 <= i < k ==> Same(m, m', Trace(t.branches[i]))
    ensures Left(m', t, k)
  {
    forall i | 0 <= i < k
      ensures Lies(m', t.branches[i])
    {
      LiesFrame(m, m', t.branches[i]);
    }
  }

  /** First step of a round: the count is lowered. */
  lemma CountDown(m: Memory, t: Tree, k: nat)
    requires WellFormed(m) && Head(m, t, k + 1) && Left(m, t, k + 1) && Distinct(Trace(t))
    ensures var m' := Written(m, t.at, 2, k);
      && WellFormed(m') && Head(m', t, k) && Left(m', t, k + 1) && m'.live == m.live && Untouched(m, m', [t.at])
      && Load(m', t.table, k) == t.branches[k].at && Lies(m', t.branches[k])
  {
    hide Lies, Load, WellFormed, Trace;
    var m' := Written(m, t.at, 2, k);
    WriteFrame(m, t.at, 2, k);
    Parts(t, k);
    assert SameBlock(m, m', t.table);
    forall i | 0 <= i < k + 1
      ensures Same(m, m', Trace(t.branches[i]))
    {
      Parts(t, i);
      SameOf(m, m', [t.at], Trace(t.branches[i]));
    }
    LeftFrame(m, m', t, k + 1);
  }

  /** Second step: the branch is freed. */
  lemma BranchGone(m: Memory, m': Memory, t: Tree, k: nat)
    requires Head(m, t, k) && Left(m, t, k + 1) && k < |t.branches| && Distinct(Trace(t)) && Gone(m, m', t.branches[k])
    ensures Head(m', t, k) && Left(m', t, k)
  {
    hide Lies, Load, WellFormed, Trace;
    Parts(t, k);
    assert SameBlock(m, m', t.table) && SameBlock(m, m', t.at);
    forall i | 0 <= i < k
      ensures Same(m, m', Trace(t.branches[i]))
    {
      Apart(t, i, k);
      SameOf(m, m', Trace(t.branches[k]), Trace(t.branches[i]));
    }
    LeftFrame(m, m', t, k);
  }

  /** Third step: its entry is cleared. */
  lemma EntryCleared(m: Memory, t: Tree, k: nat)
    requires WellFormed(m) && Head(m, t, k) && Left(m, t, k) && k < |t.branches| && Distinct(Trace(t))
    ensures var m' := Written(m, t.table, k, 0);
      WellFormed(m') && Head(m', t, k) && Left(m', t, k) && m'.live == m.live && Untouched(m, m', [t.table])
  {
    hide Lies, Load, WellFormed, Trace;
    var m' := Written(m, t.table, k, 0);
    WriteFrame(m, t.table, k, 0);
    Parts(t, k);
    assert SameBlock(m, m', t.at);
    forall i | 0 <= i < k
      ensures Same(m, m', Trace(t.branches[i]))
    {
      Parts(t, i);
      SameOf(m, m', [t.table], Trace(t.branches[i]));
    }
    LeftFrame(m, m', t, k);
  }

  /** A whole round. */
  lemma Round(m0: Memory, m: Memory, m2: Memory, t: Tree, k: nat)
    requires Progress(m0, m, t, k + 1) && Distinct(Trace(t))
    requires Gone(Written(m, t.at, 2, k), m2, t.branches[k])
    ensures Progress(m0, Written(m2, t.table, k, 0), t, k)
  {
    hide Lies, Load, WellFormed, Trace, Head, Left, TraceFrom;
    BelowCount(m, t, k + 1);
    var m1, m3 := Written(m, t.at, 2, k), Written(m2, t.table, k, 0);
    Unfolded(t, k);
    var all := TraceFrom(t.branches, k) + Own(t);
    CountDown(m, t, k);
    BranchGone(m1, m2, t, k);
    EntryCleared(m2, t, k);
    UntouchedSteps(m0, m, m1, TraceFrom(t.branches, k + 1) + Own(t), [t.at], all);
    UntouchedSteps(m0, m1, m2, all, Trace(t.branches[k]), all);
    UntouchedSteps(m0, m2, m3, all, [t.table], all);
  }

  lemma BelowCount(m: Memory, t: Tree, k: nat)
    requires Head(m, t, k)
    ensures k <= |t.branches| && k < TWO64
  {}

  lemma Start(m: Memory, t: Tree)
    requires WellFormed(m) && Lies(m, t) && Distinct(Trace(t)) && t.branches != []
    ensures Progress(m, m, t, |t.branches|)
  {}

  /** The branches are gone: the array goes, then the node. */
  lemma Finish(m0: Memory, m: Memory, t: Tree)
    requires Progress(m0, m, t, 0) && Distinct(Trace(t)) && t.branches != []
    ensures var m1 := Released(m, t.table);
      && WellFormed(m1) && t.at in m1.live && m1.live[t.at] == NODE_CELLS
      && var m2 := Written(m1, t.at, 4, 0);
      && WellFormed(m2) && t.at in m2.live
      && Gone(m0, Released(m2, t.at), t)
  {
    hide Lies, Load, WellFormed, Trace, Left, TraceFrom;
    Parts(t, 0);
    ReleaseFrame(m, t.table);
    var m1 := Released(m, t.table);
    assert SameBlock(m, m1, t.at);
    WriteFrame(m1, t.at, 4, 0);
    var m2 := Written(m1, t.at, 4, 0);
    ReleaseFrame(m2, t.at);
    Unfolded(t, 0);
    UntouchedSteps(m0, m, m1, Trace(t), [t.table], Trace(t));
    UntouchedSteps(m0, m1, m2, Trace(t), [t.at], Trace(t));
    UntouchedSteps(m0, m2, Released(m2, t.at), Trace(t), [t.at], Trace(t));
  }

  lemma LeafGone(m: Memory, t: Tree)
    requires WellFormed(m) && Lies(m, t) && t.branches == []
    ensures Gone(m, Released(m, t.at), t)
  {
    ReleaseFrame(m, t.at);
  }

  lemma Address(table: Word, k: nat)
    requires k + 1 < TWO64
    ensures Wrap(k + 1 - 1) == k && Wrap(table + Wrap(8 * k)) == CellAt(table, k)
  {}

  lemma NothingFreed(t: Tree)
    ensures TraceFrom(t.branches, |t.branches|) == []
  {}

  lemma LeafTrace(t: Tree)
    requires t.branches == []
    ensures Trace(t) == [t.at]
  {}

  lemma NotNull(m: Memory, t: Tree)
    requires WellFormed(m) && Lies(m, t)
    ensures t.at != 0
  {}

  class Heap {
    var mem: Memory
    /** The blocks freed so far, in order. */
    ghost var freed: seq<Word>

    constructor (mem: Memory)
      requires WellFormed(mem)
      ensures this.mem == mem && freed == []
    {
      this.mem, freed := mem, [];
    }

    /** `@`: only live cells are read. */
    method Fetch(a: Word, ghost p: Word, ghost i: nat) returns (w: Word)
      requires WellFormed(mem) && p in mem.live && i < mem.live[p] && a == CellAt(p, i)
      ensures w == Load(mem, p, i)
    {
      w := mem.cell[a];
    }

    /** `!`: only live cells are written. */
    method Store(a: Word, w: Word, ghost p: Word, ghost i: nat)
      requires WellFormed(mem) && p in mem.live && i < mem.live[p] && a == CellAt(p, i)
      modifies `mem
      ensures mem == Written(old(mem), p, i, w)
    {
      assert a in mem.cell;
      mem := mem.(cell := mem.cell[a := w]);
    }

    /** XFREE: only a live block is freed. */
    method Free(p: Word)
      requires WellFormed(mem) && p in mem.live
      modifies this
      ensures mem == Released(old(mem), p) && freed == old(freed) + [p]
    {
      mem := Released(mem, p);
      freed := freed + [p];
    }

    /** The branch count is lowered; the address of the entry is left. */
    method CountOff(stack: Stack, ghost t: Tree, ghost k: nat, ghost rest: Stack) returns (ps: Stack)
      requires k < |t.branches| && WellFormed(mem) && Head(mem, t, k + 1) && Left(mem, t, k + 1) && Distinct(Trace(t))
      requires stack == Cell(k + 1, Cell(t.at, rest))
      modifies `mem
      ensures mem == Written(old(mem), t.at, 2, k)
      ensures ps == Cell(CellAt(t.table, k), Cell(k, Cell(t.at, rest)))
    {
      hide Lies, Load, Trace, TraceFrom, WellFormed, Left, Wrap;
      CountDown(mem, t, k);
      Address(t.table, k);
      ps := SubOne(stack);
      ps := Swap(Over(AddInt(Cell(NUM_BR, Over(ps)))));
      Store(Top(ps), Nth(ps, 2), t.at, 2);
      ps := AddInt(Cell(PTR_BR, Over(TwoDrop(ps))));
      var table := Fetch(Top(ps), t.at, 4);
      ps := Cell(table, Drop(ps));
      ps := AddInt(Cell(Wrap(8 * Nth(ps, 2)), ps));
    }

    /** One round of the loop: count the branch off, free it, clear its entry. */
    method DropBranch(stack: Stack, ghost m0: Memory, ghost t: Tree, ghost k: nat, ghost rest: Stack)
      returns (ps: Stack)
      requires k < |t.branches| && Progress(m0, mem, t, k + 1) && Distinct(Trace(t))
      requires k + 1 < TWO64 && stack == Cell(k + 1, Cell(t.at, rest))
      modifies this
      ensures Progress(m0, mem, t, k) && freed == old(freed) + Trace(t.branches[k])
      ensures ps == Cell(k, Cell(t.at, rest))
      decreases t, 0
    {
      hide Lies, Load, Trace, TraceFrom, WellFormed, Left, Wrap, CellAt;
      ghost var m := mem;
      CountDown(m, t, k);
      ps := CountOff(stack, t, k, rest);
      var branch := Fetch(Top(ps), t.table, k);
      ps := Cell(branch, ps);
      Parts(t, k);
      NotNull(mem, t.branches[k]);
      ps := Delete(ps, t.branches[k], Drop(ps));
      ghost var gone := mem;
      BranchGone(Written(m, t.at, 2, k), gone, t, k);
      Store(Top(ps), 0, t.table, k);
      ps := Drop(ps);
      Round(m0, m, gone, t, k);
    }

    /** The branch array is freed and forgotten. */
    method DropTable(stack: Stack, ghost m0: Memory, ghost t: Tree, ghost rest: Stack) returns (ps: Stack)
      requires Progress(m0, mem, t, 0) && Distinct(Trace(t)) && t.branches != []
      requires stack == Cell(0, Cell(t.at, rest))
      modifies this
      ensures WellFormed(mem) && t.at in mem.live && Gone(m0, Released(mem, t.at), t)
      ensures freed == old(freed) + [t.table] && ps == stack
    {
      hide Lies, Load, Trace, TraceFrom, WellFormed, Left, Wrap;
      Finish(m0, mem, t);
      ps := AddInt(Cell(PTR_BR, Over(stack)));
      var table := Fetch(Top(ps), t.at, 4);
      Free(table);
      ps := AddInt(Cell(PTR_BR, Over(Drop(ps))));
      ps := Swap(Cell(0, ps));
      Store(Top(ps), Nth(ps, 2), t.at, 4);
      ps := TwoDrop(ps);
    }

    /** The loop over the branches, and the branch array. */
    method DropBranches(stack: Stack, ghost t: Tree, ghost rest: Stack) returns (ps: Stack)
      requires WellFormed(mem) && Lies(mem, t) && Distinct(Trace(t)) && t.branches != []
      requires stack == Cell(Load(mem, t.at, 2), Cell(t.at, rest))
      modifies this
      ensures WellFormed(mem) && t.at in mem.live && Gone(old(mem), Released(mem, t.at), t)
      ensures freed == old(freed) + TraceFrom(t.branches, 0) + [t.table]
      ensures ps == Cell(0, Cell(t.at, rest))
      decreases t, 1
    {
      hide Lies, Load, Trace, TraceFrom, WellFormed, Left, Untouched;
      ps := stack;
      ghost var m0, k := mem, |t.branches|;
      Start(mem, t);
      NothingFreed(t);
      BelowCount(mem, t, k);
      while true
        invariant 0 < k <= |t.branches| && Progress(m0, mem, t, k) && ps == Cell(k, Cell(t.at, rest))
        invariant freed == old(freed) + TraceFrom(t.branches, k)
        decreases k
      {
        ps := DropBranch(ps, m0, t, k - 1, rest);
        Unfolded(t, k - 1);
        k := k - 1;
        if Top(ps) == 0 {
          break;
        }
      }
      ps := DropTable(ps, m0, t, rest);
    }

    /** YU-ASTN-DELETE. A null pointer is left on the stack. */
    method Delete(stack: Stack, ghost t: Tree, ghost rest: Stack) returns (ps: Stack)
      requires WellFormed(mem)
      requires stack == Cell(0, rest) || (stack == Cell(t.at, rest) && Lies(mem, t) && Distinct(Trace(t)))
      modifies this
      ensures stack == Cell(0, rest) ==> ps == stack && mem == old(mem) && freed == old(freed)
      ensures stack != Cell(0, rest) ==> ps == rest && Gone(old(mem), mem, t) && freed == old(freed) + Trace(t)
      decreases t, 2
    {
      hide Load, WellFormed, Trace, Wrap;
      ps := stack;
      if Top(ps) != 0 {
        ps := AddInt(Cell(NUM_BR, Dup(ps)));
        var numbr := Fetch(Top(ps), t.at, 2);
        ps := Cell(numbr, Drop(ps));
        if Top(ps) > 0 {
          ps := DropBranches(ps, t, rest);
          Unfolded(t, 0);
        } else {
          LeafGone(mem, t);
          LeafTrace(t);
        }
        ps := Drop(ps);
        Free(Top(ps));
        ps := Drop(ps);
      }
    }
  }

  /** All blocks of a tree, counted one by one: nodes and branch arrays. */
  function Blocks(t: Tree): multiset<Word>
    decreases t, 0
  {
    multiset(Own(t)) + BlocksFrom(t.branches, 0)
  }

  function BlocksFrom(branches: seq<Tree>, k: nat): multiset<Word>
    requires k <= |branches|
    decreases branches, |branches| - k
  {
    if k == |branches| then multiset{} else Blocks(branches[k]) + BlocksFrom(branches, k + 1)
  }

  /** Every node and every branch array is freed exactly as often as it is in the tree. */
  lemma {:induction false} FreesEachOnce(t: Tree)
    ensures multiset(Trace(t)) == Blocks(t)
    decreases t, 0
  {
    FreesFrom(t.branches, 0);
  }

  lemma {:induction false} FreesFrom(branches: seq<Tree>, k: nat)
    requires k <= |branches|
    ensures multiset(TraceFrom(branches, k)) == BlocksFrom(branches, k)
    decreases branches, |branches| - k
  {
    if k < |branches| {
      FreesEachOnce(branches[k]);
      FreesFrom(branches, k + 1);
    }
  }

  /** A branch is freed as a whole before its parent's array and before its parent. */
  lemma {:induction false} ChildrenFirst(t: Tree, k: nat) returns (front: seq<Word>, back: seq<Word>)
    requires k < |t.branches|
    ensures Trace(t) == front + Trace(t.branches[k]) + back + [t.table, t.at]
  {
    var prefix := TraceFrom(t.branches, k);
    FromIsPrefix(t.branches, k);
    front := TraceFrom(t.branches, k + 1);
    back := TraceFrom(t.branches, 0)[|prefix|..];
    assert TraceFrom(t.branches, 0) == prefix + back;
    Unfolded(t, k);
  }

  /** Of two leaves, the last one is freed first. */
  lemma LastBranchFirst(t: Tree)
    requires |t.branches| == 2 && t.branches[0].branches == [] && t.branches[1].branches == []
    ensures Trace(t) == [t.branches[1].at, t.branches[0].at, t.table, t.at]
  {
    var b, c := t.branches[0], t.branches[1];
    assert TraceFrom(b.branches, 0) == [] && TraceFrom(c.branches, 0) == [];
    assert Trace(b) == [b.at] && Trace(c) == [c.at];
    assert TraceFrom(t.branches, 2) == [];
    assert TraceFrom(t.branches, 1) == [c.at];
  }
}
