/**
 * The dictionary: a list of headers laid out in raw memory, each with a link to the one before, a byte of name length
 * and flags, and the name; against the list of its entries, newest first.
 */
module Dictionary {
  import opened Words
  import opened Bits
  import opened Bytes
  import opened ByteCells
  import Machine

  const F_IMMEDIATE: Byte := 0x80
  const F_HIDDEN: Byte := 0x20
  const MAX_NAME := 31

  /** Address of the header, name, flags, and the HERE that was left when the entry was made. */
  datatype Entry = Entry(at: nat, name: seq<Byte>, immediate: bool, hidden: bool, cfa: nat)

  /** The byte of name length and flags. */
  function LengthByte(len: nat, immediate: bool, hidden: bool): Byte
    requires len <= MAX_NAME
  {
    len + (if immediate then F_IMMEDIATE else 0) + (if hidden then F_HIDDEN else 0)
  }

  /** The first cell address behind link, length byte and name. */
  function CodeField(at: nat, len: nat): (r: nat)
    ensures r % 8 == 0 && at + 9 + len <= r < at + 9 + len + 8
  {
    (at + 8 + 1 + len + 7) / 8 * 8
  }

  /** For an aligned header, this is where the inner interpreter's TCFA looks. */
  lemma CodeFieldIsMachines(at: Word, flags: Word)
    requires at % 8 == 0 && at + 48 < TWO64
    ensures Machine.CodeField(at, flags) == CodeField(at, flags % 32)
  {
    var k := flags % 32;
    assert (at + 8 + 1 + k + 7) / 8 * 8 == at + (8 + 1 + k + 7) / 8 * 8;
  }

  /** ?MATCHDEF compares one byte of the length. */
  function Key(name: seq<Byte>): seq<Byte> {
    name[..|name| % 256]
  }

  function Cut(name: seq<Byte>): (c: seq<Byte>)
    ensures c <= name && |c| == if |name| <= 31 then |name| else 31
  {
    if |name| <= MAX_NAME then name else name[..MAX_NAME]
  }

  function LinkTo(entries: seq<Entry>): nat {
    if entries == [] then 0 else entries[0].at
  }

  predicate Names(e: Entry, name: seq<Byte>) {
    e.name == name && !e.hidden
  }

  /** The newest entry of that name that is not hidden; 0 if there is none. */
  function Lookup(entries: seq<Entry>, name: seq<Byte>): nat {
    if entries == [] then 0
    else if Names(entries[0], name) then entries[0].at
    else Lookup(entries[1..], name)
  }

  /** A byte with the bits of `mask` set. */
  function OrByte(b: Byte, mask: Byte): Byte {
    OrFits(b, mask);
    BitOr(b, mask)
  }

  lemma OrFits(b: Byte, mask: Byte)
    ensures BitOr(b, mask) < 256
  {
    assert Pow2(8) == 256;
    BitOrBound(b, mask, 8);
  }

  function AndByte(b: Byte, mask: Word): (r: Byte)
    ensures r <= b
  {
    BitAnd(b, mask)
  }

  /** Bit `k` is the parity after `k` halvings. */
  lemma {:induction false} BitIs(b: nat, k: nat)
    ensures Bit(b, k) <==> b / Pow2(k) % 2 == 1
  {
    hide Bit, Pow2;
    BitHalf(b, if k == 0 then 0 else k - 1);
    if k == 0 {
      PowNone();
    } else {
      BitIs(b / 2, k - 1);
      PowPositive(k - 1);
      HalfThenDivide(b, Pow2(k - 1));
    }
  }

  lemma HalfThenDivide(b: nat, p: nat)
    requires p >= 1
    ensures b / 2 / p == b / (2 * p)
  {
    var q := b / (2 * p);
    var r := b % (2 * p);
    assert b == 2 * p * q + r;
    assert b / 2 == p * q + r / 2;
    QuotientIs(b / 2, p, q, r / 2);
  }

  lemma QuotientIs(x: nat, p: nat, q: int, r: int)
    requires p >= 1 && x == p * q + r && 0 <= r < p
    ensures x / p == q
  {
    var d := x / p - q;
    assert x == p * (x / p) + x % p;
    assert p * d == r - x % p;
    Multiples(p, d);
  }

  lemma Multiples(p: nat, d: int)
    ensures (d >= 1 ==> p * d >= p) && (d <= -1 ==> p * d <= 0 - p)
  {
    if d >= 1 {
      assert p * d == p + p * (d - 1);
    }
  }

  lemma FlagPowers()
    ensures Pow2(5) == 32 && Pow2(7) == 128
  {
    assert Pow2(3) == 8 && Pow2(5) == 4 * Pow2(3) && Pow2(7) == 4 * Pow2(5);
  }

  lemma BitFive(b: nat)
    ensures Bit(b, 5) <==> b / 32 % 2 == 1
  {
    hide Bit, Pow2;
    BitIs(b, 5);
    FlagPowers();
  }

  lemma BitSeven(b: nat)
    ensures Bit(b, 7) <==> b / 128 % 2 == 1
  {
    hide Bit, Pow2;
    BitIs(b, 7);
    FlagPowers();
  }

  lemma FlagBits(len: nat, immediate: bool, hidden: bool)
    requires len <= MAX_NAME
    ensures var b := LengthByte(len, immediate, hidden);
      && b % 32 == len && (Bit(b, 5) <==> hidden) && (Bit(b, 7) <==> immediate)
    ensures Pow2(5) == 32 && Pow2(7) == 128
  {
    hide Bit, Pow2;
    var b := LengthByte(len, immediate, hidden);
    BitFive(b);
    BitSeven(b);
    FlagPowers();
  }

  /** The immediate flag is the uppermost bit of the length byte, the hidden flag the third from above. */
  lemma FlagValues(len: nat, immediate: bool, hidden: bool)
    requires len <= 31
    ensures LengthByte(len, immediate, hidden) == len + (if immediate then 0x80 else 0) + (if hidden then 0x20 else 0)
  {
  }

  /** Flags are set, cleared and tested without altering the name length or the other flag. */
  lemma Flags(len: nat, immediate: bool, hidden: bool)
    requires len <= MAX_NAME
    ensures var b := LengthByte(len, immediate, hidden);
      && OrByte(b, F_HIDDEN) == LengthByte(len, immediate, true)
      && OrByte(b, F_IMMEDIATE) == LengthByte(len, true, hidden)
      && AndByte(b, BitNot(F_HIDDEN)) == LengthByte(len, immediate, false)
      && (AndByte(b, F_HIDDEN) != 0 <==> hidden)
  {
    hide Bit, BitAnd, BitOr, Pow2;
    var b := LengthByte(len, immediate, hidden);
    FlagBits(len, immediate, hidden);
    OrPower(b, 5);
    OrPower(b, 7);
    AndPower(b, 5);
    Pow2Is64();
    AndClear(b, 5, 64);
  }

  /** The header of `e` lies in memory, linked to `link`. */
  ghost predicate Laid(m: seq<Byte>, e: Entry, link: nat) {
    && 0 < e.at && e.at % 8 == 0 && |e.name| <= MAX_NAME
    && e.cfa == CodeField(e.at, |e.name|) <= |m|
    && CellIn(m, e.at) == link
    && m[e.at + 8] == LengthByte(|e.name|, e.immediate, e.hidden)
    && m[e.at + 9..e.at + 9 + |e.name|] == e.name
  }

  /** All headers lie below `top`, each above the ones it is linked to. */
  ghost predicate Listed(m: seq<Byte>, entries: seq<Entry>, top: nat) {
    entries == [] || (
      && entries[0].cfa <= top
      && Laid(m, entries[0], LinkTo(entries[1..]))
      && Listed(m, entries[1..], entries[0].at))
  }

  lemma LaidFrame(m: seq<Byte>, m': seq<Byte>, e: Entry, link: nat)
    requires Laid(m, e, link) && |m| == |m'| && forall i :: e.at <= i < e.cfa ==> m[i] == m'[i]
    ensures Laid(m', e, link)
  {
    CellFrame(m, m', e.at);
  }

  lemma {:induction false} ListedFrame(m: seq<Byte>, m': seq<Byte>, entries: seq<Entry>, top: nat)
    requires Listed(m, entries, top) && |m| == |m'| && forall i :: 0 <= i < top && i < |m| ==> m[i] == m'[i]
    ensures Listed(m', entries, top)
  {
    if entries != [] {
      LaidFrame(m, m', entries[0], LinkTo(entries[1..]));
      ListedFrame(m, m', entries[1..], entries[0].at);
    }
  }

  lemma {:induction false} ListedAt(m: seq<Byte>, entries: seq<Entry>, top: nat, i: nat)
    requires Listed(m, entries, top) && i < |entries|
    ensures Laid(m, entries[i], LinkTo(entries[i + 1..]))
  {
    if i > 0 {
      ListedAt(m, entries[1..], entries[0].at, i - 1);
      assert entries[1..][i..] == entries[i + 1..];
    }
  }

  lemma Newest(m: seq<Byte>, entries: seq<Entry>, top: nat)
    requires Listed(m, entries, top) && entries != []
    ensures entries[0].at + 9 + |entries[0].name| <= entries[0].cfa <= top && entries[0].cfa <= |m|
    ensures |entries[0].name| <= MAX_NAME
  {
    hide CellIn, LengthByte;
  }

  /** Another length byte in the newest header. */
  lemma Refitted(m: seq<Byte>, entries: seq<Entry>, top: nat, b: Byte, immediate: bool, hidden: bool)
    requires Listed(m, entries, top) && entries != [] && entries[0].at + 8 < |m|
    requires |entries[0].name| <= MAX_NAME && b == LengthByte(|entries[0].name|, immediate, hidden)
    ensures Listed(m[entries[0].at + 8 := b],
                   [entries[0].(immediate := immediate, hidden := hidden)] + entries[1..], top)
  {
    hide CellIn, LengthByte, Laid;
    var e, m' := entries[0].(immediate := immediate, hidden := hidden), m[entries[0].at + 8 := b];
    RefitLaid(m, entries[0], LinkTo(entries[1..]), b, immediate, hidden);
    ListedFrame(m, m', entries[1..], e.at);
    Added(m', entries[1..], e, top);
  }

  lemma RefitLaid(m: seq<Byte>, e: Entry, link: nat, b: Byte, immediate: bool, hidden: bool)
    requires Laid(m, e, link) && b == LengthByte(|e.name|, immediate, hidden)
    ensures Laid(m[e.at + 8 := b], e.(immediate := immediate, hidden := hidden), link)
  {
    hide CellIn, LengthByte;
    CellFrame(m, m[e.at + 8 := b], e.at);
  }

  class Dict {
    const mem: array<Byte>
    const limit: nat
    var here: nat
    var latest: nat
    ghost var entries: seq<Entry>

    constructor (org: nat, limit: nat, size: nat)
      requires 0 < org <= limit < size < TWO64 && org % 8 == 0
      ensures Valid() && fresh(mem) && entries == [] && here == org
    {
      this.limit, here, latest, entries := limit, org, 0, [];
      mem := new Byte[size](i => 0);
    }

    ghost predicate Valid()
      reads this, mem
    {
      && limit < mem.Length < TWO64
      && 0 < here <= limit && here % 8 == 0
      && latest == LinkTo(entries)
      && Listed(mem[..], entries, here)
    }

    /** Link, length byte and name are written at HERE. */
    method WriteHeader(name: seq<Byte>)
      requires |name| <= MAX_NAME && here + 9 + |name| <= mem.Length && latest < TWO64
      modifies mem
      ensures CellIn(mem[..], here) == latest && mem[here + 8] == |name| && mem[here + 9..here + 9 + |name|] == name
      ensures forall i :: 0 <= i < mem.Length && !(here <= i < here + 9 + |name|) ==> mem[i] == old(mem[i])
    {
      hide CellIn;
      StoreCell(mem, here, latest);
      ghost var m0 := mem[..];
      mem[here + 8] := |name|;
      ghost var m := mem[..];
      CellFrame(m0, m, here);
      var k := 0;
      while k < |name|
        invariant 0 <= k <= |name|
        invariant forall i :: 0 <= i < k ==> mem[here + 9 + i] == name[i]
        invariant forall i :: 0 <= i < mem.Length && !(here + 9 <= i < here + 9 + |name|) ==> mem[i] == m[i]
      {
        mem[here + 9 + k] := name[k];
        k := k + 1;
      }
      CellFrame(m, mem[..], here);
      assert mem[here + 9..here + 9 + |name|] == name;
    }

    /** _CREATE: false if there is no room. */
    method Create(name: seq<Byte>) returns (ok: bool)
      requires Valid()
      modifies this`here, this`latest, this`entries, mem
      ensures Valid()
      ensures ok == (CodeField(old(here), |Cut(name)|) <= limit)
      ensures ok ==> entries == [Entry(old(here), Cut(name), false, false, here)] + old(entries)
      ensures !ok ==> entries == old(entries)
      ensures here == if ok then CodeField(old(here), |Cut(name)|) else old(here)
      ensures forall i :: 0 <= i < mem.Length && !(old(here) <= i < here) ==> mem[i] == old(mem[i])
    {
      hide CellIn, Listed, Laid, Aligned, CodeField, LengthByte;
      ghost var m := mem[..];
      var len := if |name| <= MAX_NAME then |name| else MAX_NAME;
      ok := here + Aligned(8 + 1 + len + 7) <= limit;
      Sizes(here, len);
      if ok {
        LinkFits(m, entries, here);
        WriteHeader(name[..len]);
        ListedFrame(m, mem[..], entries, here);
        latest := here;
        here := Aligned(here + 9 + len + 7);
        HeaderLaid(mem[..], latest, Cut(name), LinkTo(entries));
        Added(mem[..], entries, Entry(latest, Cut(name), false, false, here), here);
        entries := [Entry(latest, Cut(name), false, false, here)] + entries;
      }
    }

    /** What a flag word does to the newest entry: its length byte is replaced. */
    method Refit(b: Byte, ghost immediate: bool, ghost hidden: bool)
      requires Valid() && entries != [] && b == LengthByte(|entries[0].name|, immediate, hidden)
      modifies this`entries, mem
      ensures Valid() && entries == [old(entries)[0].(immediate := immediate, hidden := hidden)] + old(entries)[1..]
      ensures forall i :: 0 <= i < mem.Length && i != latest + 8 ==> mem[i] == old(mem[i])
    {
      hide CellIn, Laid, Listed, LengthByte;
      ghost var m := mem[..];
      Newest(m, entries, here);
      mem[latest + 8] := b;
      assert mem[..] == m[latest + 8 := b];
      Refitted(m, entries, here, b, immediate, hidden);
      entries := [entries[0].(immediate := immediate, hidden := hidden)] + entries[1..];
    }

    /** HIDE */
    method Hide()
      requires Valid() && entries != []
      modifies this`entries, mem
      ensures Valid() && entries == [old(entries)[0].(hidden := true)] + old(entries)[1..]
      ensures forall i :: 0 <= i < mem.Length && i != latest + 8 ==> mem[i] == old(mem[i])
    {
      ghost var e := entries[0];
      Flags(|e.name|, e.immediate, e.hidden);
      Refit(OrByte(mem[latest + 8], F_HIDDEN), e.immediate, true);
    }

    /** UNHIDE */
    method Unhide()
      requires Valid() && entries != []
      modifies this`entries, mem
      ensures Valid() && entries == [old(entries)[0].(hidden := false)] + old(entries)[1..]
      ensures forall i :: 0 <= i < mem.Length && i != latest + 8 ==> mem[i] == old(mem[i])
    {
      ghost var e := entries[0];
      Flags(|e.name|, e.immediate, e.hidden);
      Refit(AndByte(mem[latest + 8], BitNot(F_HIDDEN)), e.immediate, false);
    }

    /** IMMEDIATE */
    method Immediate()
      requires Valid() && entries != []
      modifies this`entries, mem
      ensures Valid() && entries == [old(entries)[0].(immediate := true)] + old(entries)[1..]
      ensures forall i :: 0 <= i < mem.Length && i != latest + 8 ==> mem[i] == old(mem[i])
    {
      ghost var e := entries[0];
      Flags(|e.name|, e.immediate, e.hidden);
      Refit(OrByte(mem[latest + 8], F_IMMEDIATE), true, e.hidden);
    }

    /** `,` */
    method Comma(w: Word) returns (ok: bool)
      requires Valid()
      modifies this`here, mem
      ensures Valid() && ok == (old(here) + 8 <= limit) && here == if ok then old(here) + 8 else old(here)
      ensures forall i :: 0 <= i < mem.Length && !(old(here) <= i < here) ==> mem[i] == old(mem[i])
    {
      hide CellIn, Laid;
      ok := here + 8 <= limit;
      if ok {
        ghost var m := mem[..];
        StoreCell(mem, here, w);
        ListedFrame(m, mem[..], entries, here);
        here := here + 8;
        ListedBelow(mem[..], entries, here - 8, here);
      }
    }

    /**
     * The first half of `:`. _CREATE leaves HERE, not the header, so the hidden flag goes to the byte behind the code
     * field, which is still free: the word is visible under its name at once.
     */
    method Colon(name: seq<Byte>, docol: Word) returns (ok: bool)
      requires Valid()
      modifies this`here, this`latest, this`entries, mem
      ensures Valid()
      ensures ok == (CodeField(old(here), |Cut(name)|) + 8 <= limit)
      ensures ok ==> entries == [Entry(old(here), Cut(name), false, false, here - 8)] + old(entries)
    {
      hide CellIn, Laid, CodeField;
      ok := Create(name);
      if !ok {
        return;
      }
      var address := here;
      ok := Comma(docol);
      if !ok {
        return;
      }
      ghost var m := mem[..];
      mem[address + 8] := OrByte(mem[address + 8], F_HIDDEN);
      ListedFrame(m, mem[..], entries, here);
    }

    /** ?MATCHDEF */
    method MatchDef(name: seq<Byte>, def: nat) returns (b: bool)
      requires def + 9 <= mem.Length && def + 9 + mem[def + 8] % 32 <= mem.Length
      ensures b <==> name != [] && mem[def + 8] % 32 == |name| % 256
                     && mem[def + 9..def + 9 + mem[def + 8] % 32] == Key(name)
    {
      if name == [] {
        return false;
      }
      var len := mem[def + 8] % 32;
      if len != |name| % 256 {
        return false;
      }
      var k := 0;
      while k < len
        invariant 0 <= k <= len
        invariant mem[def + 9..def + 9 + k] == name[..k]
      {
        if mem[def + 9 + k] != name[k] {
          assert mem[def + 9..def + 9 + len][k] != Key(name)[k];
          return false;
        }
        k := k + 1;
      }
      return true;
    }

    /** Is the entry at `def` the one looked for? */
    method Accept(name: seq<Byte>, def: nat, ghost e: Entry, ghost link: nat) returns (b: bool)
      requires Laid(mem[..], e, link) && def == e.at
      ensures b <==> name != [] && Names(e, Key(name))
    {
      hide CellIn, LengthByte, Bit, CodeField, AndByte, OrByte, Pow2;
      Room(mem[..], e, link);
      FlagBits(|e.name|, e.immediate, e.hidden);
      Flags(|e.name|, e.immediate, e.hidden);
      b := MatchDef(name, def);
      if b {
        b := AndByte(mem[def + 8], F_HIDDEN) == 0;
      }
    }

    /** FIND: the newest entry of that name that is not hidden, by a walk along the links. */
    method Find(name: seq<Byte>) returns (def: nat)
      requires Valid() && entries != []
      ensures def == if name == [] then 0 else Lookup(entries, Key(name))
    {
      hide CellIn, Listed, Laid, Names;
      ghost var i := 0;
      def := latest;
      while true
        invariant 0 <= i < |entries| && def == entries[i].at
        invariant name != [] ==> Lookup(entries, Key(name)) == Lookup(entries[i..], Key(name))
        decreases |entries| - i
      {
        ListedAt(mem[..], entries, here, i);
        LinkZero(mem[..], entries, here, i);
        LinkRead(mem[..], entries[i], LinkTo(entries[i + 1..]));
        var found := Accept(name, def, entries[i], LinkTo(entries[i + 1..]));
        if found {
          return;
        }
        assert entries[i..][1..] == entries[i + 1..];
        def := CellIn(mem[..], def);
        if def == 0 {
          return;
        }
        i := i + 1;
      }
    }

    /** >CFA; false for the null pointer. */
    method ToCfa(def: nat) returns (ok: bool, cfa: nat)
      requires Valid() && def + 64 <= TWO64 && def + 16 <= mem.Length
      ensures ok == (def != 0)
      ensures forall i :: 0 <= i < |entries| && entries[i].at == def ==> ok && cfa == entries[i].cfa
    {
      hide CellIn, Listed, Laid, Bit, LengthByte, CodeField;
      ok, cfa := def != 0, 0;
      if ok {
        var al := (mem[def + 8] % 32 + 1) % 256;
        cfa := CodeAddress(def + 8 + al);
      }
      forall i | 0 <= i < |entries| && entries[i].at == def
        ensures ok && cfa == entries[i].cfa
      {
        CfaListed(mem[..], entries, here, i);
      }
    }
  }

  /** The codeword address of an entry comes from its length byte, whatever its flags. */
  lemma CfaListed(m: seq<Byte>, entries: seq<Entry>, top: nat, i: nat)
    requires Listed(m, entries, top) && i < |entries|
    ensures var e := entries[i];
      0 < e.at && e.at + 8 < |m| && e.cfa == (e.at + 8 + (m[e.at + 8] % 32 + 1) % 256 + 7) / 8 * 8
  {
    hide CellIn, Listed, Bit, LengthByte;
    ListedAt(m, entries, top, i);
    FlagBits(|entries[i].name|, entries[i].immediate, entries[i].hidden);
  }

  /** Rounding up to the next cell address. */
  function CodeAddress(a: nat): (r: nat)
    requires a + 7 < TWO64
    ensures r == (a + 7) / 8 * 8
  {
    Aligned(a + 7)
  }

  lemma Sizes(at: nat, len: nat)
    requires at % 8 == 0
    ensures CodeField(at, len) == at + (8 + 1 + len + 7) / 8 * 8 == (at + 9 + len + 7) / 8 * 8
    ensures CodeField(at, len) % 8 == 0 && at + 9 + len <= CodeField(at, len) <= at + 16 + len
  {}

  lemma LinkRead(m: seq<Byte>, e: Entry, link: nat)
    requires Laid(m, e, link)
    ensures e.at + 8 <= |m| && CellIn(m, e.at) == link && e.at > 0
  {}

  lemma Room(m: seq<Byte>, e: Entry, link: nat)
    requires Laid(m, e, link)
    ensures e.at + 16 <= |m| && e.at + 9 + |e.name| <= |m|
  {}

  /** A null link ends the list. */
  lemma LinkZero(m: seq<Byte>, entries: seq<Entry>, top: nat, i: nat)
    requires Listed(m, entries, top) && i < |entries|
    ensures LinkTo(entries[i + 1..]) == 0 <==> i == |entries| - 1
  {
    if i + 1 < |entries| {
      ListedAt(m, entries, top, i + 1);
    }
  }

  /** Entry `i` has that name and is not hidden, and no newer entry is like this. */
  ghost predicate IsNewest(entries: seq<Entry>, name: seq<Byte>, i: nat)
    requires i < |entries|
  {
    && entries[i].name == name && !entries[i].hidden
    && forall j :: 0 <= j < i && entries[j].name == name ==> entries[j].hidden
  }

  /** The entry found is the newest of its name that is not hidden; nothing is found only if there is none. */
  lemma {:induction false} LookupIsNewest(entries: seq<Entry>, name: seq<Byte>)
    requires forall i :: 0 <= i < |entries| ==> entries[i].at > 0
    ensures Lookup(entries, name) == 0 <==>
              forall i :: 0 <= i < |entries| && entries[i].name == name ==> entries[i].hidden
    ensures Lookup(entries, name) != 0 ==>
              exists i :: 0 <= i < |entries| && IsNewest(entries, name, i) && entries[i].at == Lookup(entries, name)
  {
    if entries != [] && Names(entries[0], name) {
      assert IsNewest(entries, name, 0);
    } else if entries != [] {
      var rest := entries[1..];
      LookupIsNewest(rest, name);
      assert forall j :: 0 <= j < |entries| ==> j == 0 || entries[j] == rest[j - 1];
      if Lookup(rest, name) == 0 {
        forall j | 0 <= j < |entries| && entries[j].name == name
          ensures entries[j].hidden
        {
          assert j > 0 ==> rest[j - 1] == entries[j];
        }
      } else {
        var i :| 0 <= i < |rest| && IsNewest(rest, name, i) && rest[i].at == Lookup(rest, name);
        assert entries[i + 1] == rest[i];
        assert IsNewest(entries, name, i + 1);
      }
    }
  }

  /** Once the newest entry is hidden, its name finds the next older visible entry, or nothing. */
  lemma HiddenIsPassedOver(entries: seq<Entry>, name: seq<Byte>)
    requires entries != []
    ensures Lookup([entries[0].(hidden := true)] + entries[1..], name) == Lookup(entries[1..], name)
  {
    var all := [entries[0].(hidden := true)] + entries[1..];
    assert all[1..] == entries[1..];
  }

  lemma ListedBelow(m: seq<Byte>, entries: seq<Entry>, low: nat, top: nat)
    requires Listed(m, entries, low) && low <= top
    ensures Listed(m, entries, top)
  {}

  lemma HeaderLaid(m: seq<Byte>, at: nat, name: seq<Byte>, link: nat)
    requires 0 < at && at % 8 == 0 && |name| <= MAX_NAME && CodeField(at, |name|) <= |m|
    requires CellIn(m, at) == link && m[at + 8] == |name| && m[at + 9..at + 9 + |name|] == name
    ensures Laid(m, Entry(at, name, false, false, CodeField(at, |name|)), link)
  {}

  lemma LinkFits(m: seq<Byte>, entries: seq<Entry>, top: nat)
    requires Listed(m, entries, top)
    ensures LinkTo(entries) <= top
  {}

  lemma Added(m: seq<Byte>, entries: seq<Entry>, e: Entry, top: nat)
    requires Listed(m, entries, e.at) && Laid(m, e, LinkTo(entries)) && e.cfa <= top
    ensures Listed(m, [e] + entries, top)
  {
    assert ([e] + entries)[1..] == entries;
  }
}
