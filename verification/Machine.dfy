/**
 * The indirect-threaded inner interpreter on memory cells and two stacks.
 * Stacks are sequences with the top at index 0, the order in which they lie in memory.
 */
module Machine {
  import opened Words

  /** Why a run stops: the engine's error exits, QUIT, and faults the processor itself raises. */
  datatype Fault =
    | StackOverflow | StackUnderflow
    | ReturnOverflow | ReturnUnderflow
    | SpaceOverflow | NegativeAllot | DivideByZero | DivideTrap | NullPointer | Quit
    | Wild  // an access outside the cells the model knows

  datatype Unary = AddOne | SubOne | LtZero | LeZero | GtZero | UGtZero | GeZero | EqZero | NeZero
                 | Negate | Not | Cells
  datatype Binary = Add | Sub | Mul | Lt | ULt | Le | ULe | Gt | UGt | Ge | UGe | Eq | Ne
                  | And | Or | Xor | Nand | Nor | Xnor
  datatype Division = Div | UDiv | DivMod | UDivMod | Mod | UMod
  datatype Prim =
    | Un(un: Unary)
    | Bin(bin: Binary)
    | Divide(div: Division)
    | MulDiv(signed: bool)
    | Cell | Dup | Swap | Rot | Over | Drop

  /** The outcome of a word that works on the parameter stack only. */
  datatype Effect = Left(ps: seq<Word>) | Failed(why: Fault)

  function UnaryResult(op: Unary, x: Word): Word {
    match op
    case AddOne => Wrap(x + 1)
    case SubOne => Wrap(x - 1)
    case LtZero => Flag(Signed(x) < 0)
    case LeZero => Flag(Signed(x) <= 0)
    case GtZero => Flag(Signed(x) > 0)
    case UGtZero => Flag(x > 0)
    case GeZero => Flag(Signed(x) >= 0)
    case EqZero => Flag(x == 0)
    case NeZero => Flag(x != 0)
    case Negate => Wrap(0 - x)
    case Not => BitNot(x)
    case Cells => Wrap(8 * x)
  }

  /** `x` lies beneath `y`. */
  function BinaryResult(op: Binary, x: Word, y: Word): Word {
    match op
    case Add => Wrap(x + y)
    case Sub => Wrap(x - y)
    case Mul => Wrap(x * y)
    case Lt => Flag(Signed(x) < Signed(y))
    case ULt => Flag(x < y)
    case Le => Flag(Signed(x) <= Signed(y))
    case ULe => Flag(x <= y)
    case Gt => Flag(Signed(x) > Signed(y))
    case UGt => Flag(x > y)
    case Ge => Flag(Signed(x) >= Signed(y))
    case UGe => Flag(x >= y)
    case Eq => Flag(x == y)
    case Ne => Flag(x != y)
    case And => BitAnd(x, y)
    case Or => WordOr(x, y)
    case Xor => WordXor(x, y)
    case Nand => BitNot(BitAnd(x, y))
    case Nor => BitNot(WordOr(x, y))
    case Xnor => BitNot(WordXor(x, y))
  }

  /** One division of `x` by `y`; a signed quotient that does not fit raises the processor's trap. */
  function DivisionResult(op: Division, x: Word, y: Word): Effect
    requires y != 0
  {
    if op.UDiv? then Left([x / y])
    else if op.UDivMod? then Left([x % y, x / y])
    else if op.UMod? then Left([x % y])
    else
      var q, r := TruncDiv(Signed(x), Signed(y)), TruncMod(Signed(x), Signed(y));
      if q == TWO63 then Failed(DivideTrap)
      else if op.Div? then Left([Wrap(q)])
      else if op.Mod? then Left([Wrap(r)])
      else Left([Wrap(r), Wrap(q)])
  }

  /** The scaling words keep the full product before dividing. */
  function MulDivResult(signed: bool, x: Word, y: Word, z: Word): Effect
    requires z != 0
  {
    var q := if signed then TruncDiv(Signed(x) * Signed(y), Signed(z)) else (x * y) / z;
    if (if signed then -TWO63 <= q < TWO63 else 0 <= q < TWO64) then Left([Wrap(q)]) else Failed(DivideTrap)
  }

  function Put(results: Effect, rest: seq<Word>): Effect {
    match results
    case Left(r) => Left(r + rest)
    case Failed(e) => Failed(e)
  }

  /** What a checked primitive does to the parameter stack, `cap` cells being its whole room. */
  function PrimEffect(p: Prim, ps: seq<Word>, cap: nat): Effect {
    match p
    case Un(op) =>
      if |ps| < 1 then Failed(StackUnderflow) else Left([UnaryResult(op, ps[0])] + ps[1..])
    case Bin(op) =>
      if |ps| < 2 then Failed(StackUnderflow) else Left([BinaryResult(op, ps[1], ps[0])] + ps[2..])
    case Divide(op) =>
      if |ps| < 2 then Failed(StackUnderflow)
      else if ps[0] == 0 then Failed(DivideByZero)
      else Put(DivisionResult(op, ps[1], ps[0]), ps[2..])
    case MulDiv(signed) =>
      if |ps| < 3 then Failed(StackUnderflow)
      else if ps[0] == 0 then Failed(DivideByZero)
      else Put(MulDivResult(signed, ps[2], ps[1], ps[0]), ps[3..])
    case Cell =>
      if |ps| >= cap then Failed(StackOverflow) else Left([8] + ps)
    case Dup =>
      if |ps| < 1 then Failed(StackUnderflow)
      else if |ps| >= cap then Failed(StackOverflow)
      else Left([ps[0]] + ps)
    case Swap =>
      if |ps| < 2 then Failed(StackUnderflow) else Left([ps[1], ps[0]] + ps[2..])
    case Rot =>
      if |ps| < 3 then Failed(StackUnderflow) else Left([ps[2], ps[0], ps[1]] + ps[3..])
    case Over =>
      if |ps| < 2 then Failed(StackUnderflow)
      else if |ps| >= cap then Failed(StackOverflow)
      else Left([ps[1]] + ps)
    case Drop =>
      if |ps| < 1 then Failed(StackUnderflow) else Left(ps[1..])
  }

  /** Everything a machine-code routine can be. */
  datatype Op =
    | Pure(p: Prim)
    | Exit | Lit | Jump | CondJump | RunCode | QuitFvm
    | ToRet | FromRet
    | Here | Comma | Allot | Compile | Fetch | Store
    | ToLatest | ToCfa | Create

  /**
   * The words built into the engine: where the code of each routine starts, the codeword address of each
   * routine and of the colon words the compiler refers to, the room of the two stacks, and the dictionary space
   * with what its cells hold before they are used.
   */
  datatype Nucleus = Nucleus(
    docol: Word, douser: Word,
    entry: map<Word, Op>,
    cfa: map<Op, Word>,
    isFalse: Word, isTrue: Word, create: Word, does: Word,
    latestVar: Word,
    pcap: nat, rcap: nat, org: Word, limit: Word, raw: seq<Word>)

  /**
   * Memory: the cells by address, HERE, the address of the newest header, and the name fields (length byte,
   * name and padding, as cells) that the words still to come from the input would get.
   */
  datatype Memory = Memory(cell: map<Word, Word>, here: Word, latest: Word, names: seq<seq<Word>>)

  datatype State =
    | Go(wp: Word, ps: seq<Word>, rs: seq<Word>, m: Memory)
    | Stop(why: Fault)

  /** NEXT: fetch the next word address and jump through it. */
  function Step(n: Nucleus, s: State): State {
    if s.Stop? then s
    else if s.wp !in s.m.cell then Stop(Wild)
    else JumpTo(n, s.m.cell[s.wp], s.(wp := NextCell(s.wp)))
  }

  /** Enter the word whose codeword lies at `wa`. */
  function JumpTo(n: Nucleus, wa: Word, s: State): State
    requires s.Go?
    decreases |s.ps|
  {
    if wa !in s.m.cell then Stop(Wild)
    else
      var code := s.m.cell[wa];
      if code == n.docol then
        if |s.rs| >= n.rcap then Stop(ReturnOverflow)
        else s.(rs := [s.wp] + s.rs, wp := NextCell(wa))
      else if code == n.douser then DoUser(n, wa, s)
      else if code !in n.entry then Stop(Wild)
      else if n.entry[code] == RunCode then
        if |s.ps| < 1 then Stop(StackUnderflow)
        else JumpTo(n, s.ps[0], s.(ps := s.ps[1..]))
      else Exec(n, n.entry[code], s)
  }

  /** The codeword routine of words made by CREATE: push the parameter field, then run the DOES> part if any. */
  function DoUser(n: Nucleus, wa: Word, s: State): State
    requires s.Go?
  {
    var codeptr := NextCell(wa);
    if |s.ps| >= n.pcap then Stop(StackOverflow)
    else if codeptr !in s.m.cell then Stop(Wild)
    else
      var pushed := s.(ps := [NextCell(codeptr)] + s.ps);
      if s.m.cell[codeptr] == 0 then pushed
      else if |s.rs| >= n.rcap then Stop(ReturnOverflow)
      else pushed.(rs := [s.wp] + s.rs, wp := s.m.cell[codeptr])
  }

  function Push(n: Nucleus, w: Word, s: State): State
    requires s.Go?
  {
    if |s.ps| >= n.pcap then Stop(StackOverflow) else s.(ps := [w] + s.ps)
  }

  /** Append one cell to the dictionary. */
  function Append(n: Nucleus, w: Word, s: State): State
    requires s.Go?
  {
    if s.m.here + 8 > n.limit then Stop(SpaceOverflow)
    else s.(m := s.m.(cell := s.m.cell[s.m.here := w], here := s.m.here + 8))
  }

  /** Does ALLOT refuse this number? It looks at its sign, and again once it has been multiplied by the cell size. */
  predicate IsNegative(x: Word) {
    Signed(x) < 0 || Signed(Wrap(8 * x)) < 0
  }

  /** How many cells ALLOT reserves: the multiplication by the cell size has dropped the upper bits. */
  function Reserved(x: Word): (k: nat)
    ensures 8 * k < TWO64
  {
    Wrap(8 * x) / 8
  }

  /** ALLOT: HERE moves over cells that keep what they held. */
  function Reserve(n: Nucleus, k: nat, s: State): State
    requires s.Go?
  {
    var here := s.m.here;
    if Wrap(here + 8 * k) > n.limit then Stop(SpaceOverflow)
    else if here < n.org || (here - n.org) / 8 + k > |n.raw| || here + 8 * k >= TWO64 then Stop(Wild)
    else s.(m := s.m.(cell := WriteCells(s.m.cell, here, n.raw[(here - n.org) / 8..][..k]), here := here + 8 * k))
  }

  /** Is `a` a dictionary cell below HERE? Only these are written through addresses. */
  predicate InDictionary(n: Nucleus, m: Memory, a: Word) {
    n.org <= a < m.here && (a - n.org) % 8 == 0
  }

  function Exec(n: Nucleus, op: Op, s: State): State
    requires s.Go?
  {
    match op
    case Pure(p) =>
      (match PrimEffect(p, s.ps, n.pcap)
       case Left(ps) => s.(ps := ps)
       case Failed(e) => Stop(e))
    case Exit =>
      if |s.rs| < 1 then Stop(ReturnUnderflow) else s.(wp := s.rs[0], rs := s.rs[1..])
    case Lit =>
      if |s.ps| >= n.pcap then Stop(StackOverflow)
      else if s.wp !in s.m.cell then Stop(Wild)
      else s.(ps := [s.m.cell[s.wp]] + s.ps, wp := NextCell(s.wp))
    case Jump =>
      if s.wp !in s.m.cell then Stop(Wild) else s.(wp := s.m.cell[s.wp])
    case CondJump =>
      if |s.ps| < 1 then Stop(StackUnderflow)
      else if s.ps[0] == 0 then s.(ps := s.ps[1..], wp := NextCell(s.wp))
      else if s.wp !in s.m.cell then Stop(Wild)
      else s.(ps := s.ps[1..], wp := s.m.cell[s.wp])
    case RunCode => Stop(Wild)  // JumpTo deals with it
    case QuitFvm => Stop(Quit)
    case ToRet =>
      if |s.ps| < 1 then Stop(StackUnderflow)
      else if |s.rs| >= n.rcap then Stop(ReturnOverflow)
      else s.(ps := s.ps[1..], rs := [s.ps[0]] + s.rs)
    case FromRet =>
      if |s.ps| >= n.pcap then Stop(StackOverflow)
      else if |s.rs| < 1 then Stop(ReturnUnderflow)
      else s.(ps := [s.rs[0]] + s.ps, rs := s.rs[1..])
    case Here => Push(n, s.m.here, s)
    case Comma =>
      if |s.ps| < 1 then Stop(StackUnderflow) else Append(n, s.ps[0], s.(ps := s.ps[1..]))
    case Allot =>
      if |s.ps| < 1 then Stop(StackUnderflow)
      else if IsNegative(s.ps[0]) then Stop(NegativeAllot)
      else Reserve(n, Reserved(s.ps[0]), s.(ps := s.ps[1..]))
    case Compile =>
      if s.m.here + 8 > n.limit then Stop(SpaceOverflow)
      else if s.wp !in s.m.cell then Stop(Wild)
      else Append(n, s.m.cell[s.wp], s.(wp := NextCell(s.wp)))
    case Fetch =>
      if |s.ps| < 1 then Stop(StackUnderflow)
      else if s.ps[0] == n.latestVar then s.(ps := [s.m.latest] + s.ps[1..])
      else if s.ps[0] !in s.m.cell then Stop(Wild)
      else s.(ps := [s.m.cell[s.ps[0]]] + s.ps[1..])
    case Store =>
      if |s.ps| < 2 then Stop(StackUnderflow)
      else if s.ps[0] !in s.m.cell || !InDictionary(n, s.m, s.ps[0]) then Stop(Wild)
      else s.(ps := s.ps[2..], m := s.m.(cell := s.m.cell[s.ps[0] := s.ps[1]]))
    case ToLatest => Push(n, n.latestVar, s)
    case ToCfa =>
      if |s.ps| < 1 then Stop(StackUnderflow)
      else if s.ps[0] == 0 then Stop(NullPointer)
      else if NextCell(s.ps[0]) !in s.m.cell then Stop(Wild)
      else s.(ps := [CodeField(s.ps[0], s.m.cell[NextCell(s.ps[0])])] + s.ps[1..])
    case Create =>
      if |s.ps| >= n.pcap then Stop(StackOverflow)
      else if s.m.names == [] then Stop(Quit)
      else NewHeader(n, s.m.names[0], s)
  }

  /** The codeword address of the header at `a`, whose first name cell is `flags`: skip link, length byte and name. */
  function CodeField(a: Word, flags: Word): Word {
    Wrap(a + 8 + (flags % 32 + 1 + 7) / 8 * 8)
  }

  /** Lay out link and name field at HERE, make it the newest entry and leave the new HERE on the stack. */
  function NewHeader(n: Nucleus, name: seq<Word>, s: State): State
    requires s.Go? && s.m.names != []
  {
    if s.m.here + 8 + 8 * |name| > n.limit then Stop(SpaceOverflow)
    else
      var here' := s.m.here + 8 + 8 * |name|;
      s.(ps := [here'] + s.ps,
         m := Memory(WriteCells(s.m.cell, s.m.here, [s.m.latest] + name), here', s.m.here, s.m.names[1..]))
  }

  /** The addresses of `k` cells from `a` on. */
  predicate InSpan(x: int, a: int, k: int) {
    a <= x < a + 8 * k && (x - a) % 8 == 0
  }

  function Span(a: Word, k: nat): set<Word> {
    set x: Word | a <= x < a + 8 * k && InSpan(x, a, k)
  }

  function WriteCells(cell: map<Word, Word>, a: Word, ws: seq<Word>): map<Word, Word>
    requires a + 8 * |ws| < TWO64
  {
    map x | x in cell.Keys + Span(a, |ws|) :: if InSpan(x, a, |ws|) then ws[(x - a) / 8] else cell[x]
  }

  /** `k` steps. */
  function Run(n: Nucleus, s: State, k: nat): State
    decreases k
  {
    if k == 0 then s else Run(n, Step(n, s), k - 1)
  }

  const TWO60: int := 0x1000_0000_0000_0000
  const TWO61: int := 0x2000_0000_0000_0000

  /** ALLOT goes by the number modulo 2^61, and refuses it if that or the number itself is negative as a cell. */
  lemma AllotIsModulo(x: Word)
    ensures IsNegative(x) <==> x >= TWO63 || x % TWO61 >= TWO60
    ensures Reserved(x) == x % TWO61
  {
    var q, y := x / TWO61, x % TWO61;
    assert 8 * x == TWO64 * q + 8 * y;
    WrapDrops(q, 8 * y);
  }

  lemma WrapDrops(q: int, r: nat)
    requires r < TWO64
    ensures Wrap(TWO64 * q + r) == r
  {
  }

  /** The dictionary space, below the middle of the address range, with HERE in it. */
  predicate HasSpace(n: Nucleus, m: Memory) {
    n.org <= m.here <= n.limit <= TWO63 && n.limit == n.org + 8 * |n.raw| && (m.here - n.org) % 8 == 0
  }

  /** HERE moves by as many cells as asked for exactly if they are fewer than 2^60 and there is room for them. */
  lemma AllotMoves(n: Nucleus, s: State)
    requires s.Go? && |s.ps| >= 1 && HasSpace(n, s.m)
    ensures var x, t := s.ps[0], Exec(n, Allot, s);
      && (t.Go? && t.m.here == s.m.here + 8 * x <==> x < TWO60 && s.m.here + 8 * x <= n.limit)
      && (t.Stop? ==> t == Stop(if x >= TWO63 || x % TWO61 >= TWO60 then NegativeAllot else SpaceOverflow))
      && (t.Go? ==> t.ps == s.ps[1..] && t.wp == s.wp && t.rs == s.rs && t.m.here <= n.limit)
      && (t.Go? ==> forall a <- s.m.cell :: a < s.m.here ==> a in t.m.cell && t.m.cell[a] == s.m.cell[a])
  {
    hide WriteCells, Wrap, IsNegative, Reserved;
    var x := s.ps[0];
    AllotIsModulo(x);
    if !IsNegative(x) {
      ReserveMoves(n, Reserved(x), s.(ps := s.ps[1..]));
      assert x == Reserved(x) <==> x < TWO60;
    }
  }

  lemma ReserveMoves(n: Nucleus, k: nat, s: State)
    requires s.Go? && HasSpace(n, s.m) && k < TWO60
    ensures var t := Reserve(n, k, s);
      if s.m.here + 8 * k <= n.limit
      then t.Go? && t == s.(m := t.m) && t.m.here == s.m.here + 8 * k
           && forall a <- s.m.cell :: a < s.m.here ==> a in t.m.cell && t.m.cell[a] == s.m.cell[a]
      else t == Stop(SpaceOverflow)
  {
    WrapDrops(0, s.m.here + 8 * k);
  }

  /** 2^61 + 1 cells are asked for and one is reserved; 2^61 reserve none. */
  lemma AllotWraps(n: Nucleus, s: State)
    requires s.Go? && HasSpace(n, s.m) && s.m.here + 8 <= n.limit
    ensures var t := Exec(n, Allot, s.(ps := [TWO61 + 1] + s.ps)); t.Go? && t.m.here == s.m.here + 8
    ensures var t := Exec(n, Allot, s.(ps := [TWO61] + s.ps)); t.Go? && t.m.here == s.m.here
  {
    hide WriteCells, Wrap, IsNegative, Reserved, Reserve;
    AllotIsModulo(TWO61 + 1);
    AllotIsModulo(TWO61);
    assert ([TWO61 + 1] + s.ps)[1..] == s.ps && ([TWO61] + s.ps)[1..] == s.ps;
    ReserveMoves(n, 1, s);
    ReserveMoves(n, 0, s);
  }
}
