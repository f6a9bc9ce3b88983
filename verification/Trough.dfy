/**
 * The token trough of the Yulark front end: a 1024-byte buffer that is filled from the input, with one character of
 * putback, and from which bites are taken; and the ring buffer of the characters read last.
 */
module Trough {
  import opened Words
  import opened Bits
  import opened Bytes
  import opened ByteCells

  const LIMIT := 1023
  const RING := 64
  const LINE_FEED := 10

  /** 63 AND */
  function Around(x: nat): (r: nat)
    requires x <= RING
    ensures r == if x < RING then x else 0
  {
    AroundIs(x);
    BitAnd(x, 63)
  }

  lemma AroundIs(x: nat)
    requires x <= RING
    ensures BitAnd(x, 63) == if x < RING then x else 0
  {
    assert Pow2(6) == 64;
    if x < RING {
      AndOnes(x, 6);
    } else {
      assert Pow2(5) == 32;
      AndPower(63, 6);
      AndUnfold(64, 63);
      AndUnfold(32, 31);
      AndUnfold(16, 15);
      AndUnfold(8, 7);
      AndUnfold(4, 3);
      AndUnfold(2, 1);
    }
  }

  /** The characters that are put back or still to be read. */
  function Pending(putback: int, unread: seq<Byte>): seq<Byte> {
    if 0 <= putback < 256 then [putback] + unread else unread
  }

  /** How much a fill takes: up to the limit, and on a terminal no further than the end of the line. */
  function Amount(p: seq<Byte>, room: nat, tty: bool): (n: nat)
    ensures n <= |p| && n <= room
    ensures n == room || n == |p| || (tty && p[n] == 10)
    ensures tty ==> forall i :: 0 <= i < n ==> p[i] != 10
  {
    if p == [] || room == 0 || (tty && p[0] == LINE_FEED) then 0 else 1 + Amount(p[1..], room - 1, tty)
  }

  lemma {:induction false} AmountIs(p: seq<Byte>, room: nat, tty: bool, n: nat)
    requires n <= |p| && n <= room && (n == room || n == |p| || (tty && p[n] == LINE_FEED))
    requires tty ==> forall i :: 0 <= i < n ==> p[i] != LINE_FEED
    ensures Amount(p, room, tty) == n
  {
    if n > 0 {
      AmountIs(p[1..], room - 1, tty, n - 1);
    }
  }

  /** One more character recorded: the ring keeps 63. */
  function Recorded(s: seq<Byte>, c: Byte): seq<Byte> {
    if |s| < RING - 1 then s + [c] else s[1..] + [c]
  }

  /** What remains of `s` when all its characters have been recorded. */
  function RecordedAll(s: seq<Byte>): seq<Byte> {
    if s == [] then [] else Recorded(RecordedAll(s[..|s| - 1]), s[|s| - 1])
  }

  /** The last 63 of them. */
  lemma {:induction false} LastRecorded(s: seq<Byte>)
    ensures RecordedAll(s) == if |s| <= 63 then s else s[|s| - 63..]
  {
    if s != [] {
      var t, c := s[..|s| - 1], s[|s| - 1];
      LastRecorded(t);
      assert s == t + [c];
    }
  }

  function NextSlot(r: nat): (n: nat)
    requires r < RING
    ensures n < RING
  {
    if r + 1 < RING then r + 1 else 0
  }

  /** How many slots are in use from `r` up to `w`. */
  function Used(r: nat, w: nat): (n: nat)
    requires r < RING && w < RING
    ensures n < RING
  {
    if w >= r then w - r else w + RING - r
  }

  /** `n` characters from slot `r` on. */
  function RingText(slots: seq<Byte>, r: nat, n: nat): (s: seq<Byte>)
    requires |slots| == RING && r < RING
    ensures |s| == n
    decreases n
  {
    if n == 0 then [] else [slots[r]] + RingText(slots, NextSlot(r), n - 1)
  }

  /** One character behind the others. */
  lemma {:induction false} RingSnoc(slots: seq<Byte>, r: nat, w: nat, c: Byte)
    requires |slots| == RING && r < RING && w < RING
    ensures RingText(slots[w := c], r, Used(r, w) + 1) == RingText(slots, r, Used(r, w)) + [c]
    decreases Used(r, w)
  {
    if r != w {
      RingSnoc(slots, NextSlot(r), w, c);
    }
  }

  lemma RingDrop(slots: seq<Byte>, r: nat, n: nat)
    requires |slots| == RING && r < RING && n > 0
    ensures RingText(slots, r, n)[1..] == RingText(slots, NextSlot(r), n - 1)
  {}

  /** The next character; it takes the place of the oldest one when 63 are there. */
  lemma RingStep(slots: seq<Byte>, r: nat, w: nat, c: Byte)
    requires |slots| == RING && r < RING && w < RING
    ensures var text, w' := RingText(slots, r, Used(r, w)), NextSlot(w);
      if w' != r then |text| < RING - 1 && RingText(slots[w := c], r, Used(r, w')) == text + [c]
      else |text| == RING - 1 && RingText(slots[w := c], NextSlot(r), Used(NextSlot(r), w')) == text[1..] + [c]
  {
    hide RingText;
    var text, n := RingText(slots, r, Used(r, w)), Used(r, w);
    RingSnoc(slots, r, w, c);
    RingDrop(slots[w := c], r, n + 1);
    assert text != [] ==> (text + [c])[1..] == text[1..] + [c];
  }

  /** The bytes from `k` on come to lie at the beginning. */
  method MoveDown(mem: array<Byte>, k: nat, count: nat)
    requires k + count <= mem.Length && count > 0
    modifies mem
    ensures mem[..count - 1] == old(mem[..k + count - 1])[k..] && mem[count - 1] == old(mem[k + count - 1])
  {
    CMove(mem, k, 0, count);
  }

  class Trough {
    const trough: array<Byte>
    const ring: array<Byte>
    const tty: bool
    var fill: nat
    var putback: int
    var unread: seq<Byte>
    var line: nat
    var rpos: nat
    var wpos: nat
    /** The text that has left the trough. */
    ghost var gone: seq<Byte>

    constructor (tty: bool, input: seq<Byte>)
      ensures Valid() && fresh(trough) && fresh(ring) && Whole() == input && Recent() == [] && line == 0
      ensures this.tty == tty && putback == NONE && fill == 0 && gone == [] && Contents() == [] && Ahead() == input
    {
      trough, ring := new Byte[1024](i => 0), new Byte[RING](i => 0);
      this.tty, fill, putback, unread, line, rpos, wpos, gone := tty, 0, NONE, input, 0, 0, 0, [];
    }

    /** Between two words, the byte at the fill position is NUL. */
    predicate Valid()
      reads this, trough
    {
      Shaped() && trough[fill] == 0
    }

    predicate Shaped()
      reads this
    {
      && trough.Length == 1024 && ring.Length == RING && trough != ring
      && fill <= LIMIT
      && (putback == NONE || 0 <= putback < 256)
      && rpos < RING && wpos < RING
    }

    function Contents(): seq<Byte>
      requires fill <= trough.Length
      reads `fill, trough
    {
      trough[..fill]
    }

    function Ahead(): seq<Byte>
      reads `putback, `unread
    {
      Pending(putback, unread)
    }

    /** All text: what has left the trough, what is in it, and what is still to come. */
    ghost function Whole(): seq<Byte>
      requires fill <= trough.Length
      reads `fill, `putback, `unread, `gone, trough
    {
      gone + Contents() + Ahead()
    }

    /** The ring buffer, oldest character first. */
    function Recent(): seq<Byte>
      requires ring.Length == RING && rpos < RING && wpos < RING
      reads `rpos, `wpos, ring
    {
      RingText(ring[..], rpos, Used(rpos, wpos))
    }

    /** YU-RB-PUTCH: at most 63 characters are kept. */
    method RingPut(c: int)
      requires ring.Length == RING && rpos < RING && wpos < RING && (c == NONE || 0 <= c < 256)
      modifies `rpos, `wpos, ring
      ensures rpos < RING && wpos < RING
      ensures Recent() == if c == NONE then old(Recent()) else Recorded(old(Recent()), c)
    {
      hide RingText, Used;
      if c != NONE {
        RingStep(ring[..], rpos, wpos, c);
        ring[wpos] := c;
        assert ring[..] == old(ring[..])[wpos := c];
        wpos := Around(wpos + 1);
        if wpos == rpos {
          rpos := Around(rpos + 1);
        }
      }
    }

    /** YU-RB-GETCH */
    method RingGet() returns (c: int)
      requires ring.Length == RING && rpos < RING && wpos < RING
      modifies `rpos
      ensures rpos < RING
      ensures if old(Recent()) == [] then c == NONE && Recent() == [] else [c] + Recent() == old(Recent())
    {
      if rpos == wpos {
        c := NONE;
      } else {
        c := ring[rpos];
        rpos := Around(rpos + 1);
      }
    }

    /** YU-RDCH: the character put back, or the next one of the input, which is counted and recorded. */
    method ReadChar() returns (c: int)
      requires Shaped()
      modifies `putback, `unread, `line, `rpos, `wpos, ring
      ensures Shaped() && putback == NONE
      ensures if old(Ahead()) == [] then c == NONE && Ahead() == []
              else 0 <= c < 256 && [c] + Ahead() == old(Ahead())
      ensures old(putback) != NONE || old(unread) == [] ==> line == old(line) && Recent() == old(Recent())
      ensures old(putback) == NONE && old(unread) != [] ==> line == old(line) + if c == 10 then 1 else 0
      ensures old(putback) == NONE && old(unread) != [] ==> Recent() == Recorded(old(Recent()), c)
    {
      hide RingText;
      c := putback;
      if c != NONE {
        putback := NONE;
      } else {
        if unread != [] {
          c := unread[0];
          unread := unread[1..];
        }
        if c == LINE_FEED {
          line := line + 1;
        }
        if c != NONE {
          RingPut(c);
        }
      }
    }

    /** The loop of YU-FILL-TROUGH: `k` characters are stored, and one more has been read if there is one. */
    method FillLoop() returns (c: int, ghost k: nat)
      requires Shaped() && fill < LIMIT
      modifies `fill, `putback, `unread, `line, `rpos, `wpos, trough, ring
      ensures Shaped() && putback == NONE && fill == old(fill) + k && k <= |old(Ahead())|
      ensures Contents() == old(Contents()) + old(Ahead())[..k]
      ensures if c == NONE then k == |old(Ahead())| && Ahead() == []
              else 0 <= c < 256 && [c] + Ahead() == old(Ahead())[k..]
      ensures c == NONE || (c == 10 && tty) || fill == 1023
      ensures tty ==> forall i :: 0 <= i < k ==> old(Ahead())[i] != 10
    {
      hide Pending, RingText, Used, Recorded, Recent, Ahead;
      ghost var t, p := Contents(), Ahead();
      k := 0;
      c := ReadChar();
      while !(c == NONE || (c == LINE_FEED && tty)) && fill < LIMIT
        invariant Shaped() && putback == NONE && fill == old(fill) + k && k <= |p|
        invariant Contents() == t + p[..k]
        invariant if c == NONE then k == |p| && Ahead() == [] else 0 <= c < 256 && [c] + Ahead() == p[k..]
        invariant tty ==> forall i :: 0 <= i < k ==> p[i] != LINE_FEED
        decreases |p| - k
      {
        trough[fill] := c;
        fill := fill + 1;
        assert p[k] == c && p[k + 1..] == Ahead();
        k := k + 1;
        c := ReadChar();
      }
    }

    /** YU-FILL-TROUGH */
    method Fill()
      requires Valid()
      modifies `fill, `putback, `unread, `line, `rpos, `wpos, trough, ring
      ensures Valid() && Whole() == old(Whole())
      ensures var n := Amount(old(Ahead()), 1023 - old(fill), tty);
        Contents() == old(Contents()) + old(Ahead())[..n] && Ahead() == old(Ahead())[n..]
    {
      hide Amount;
      ghost var t, p, k := Contents(), Ahead(), 0;
      if fill < LIMIT {
        var c;
        c, k := FillLoop();
        if c != NONE {
          putback := c;
        }
        trough[fill] := 0;
      }
      FilledUp(gone, t, p, k);
      AmountIs(p, LIMIT - old(fill), tty, k);
    }

    /** What is left of the trough is moved to its beginning, with the NUL byte. */
    method Shift(length: nat)
      requires Valid() && length <= fill
      modifies `fill, `gone, trough
      ensures Valid() && Contents() == old(Contents())[length..] && Whole() == old(Whole())
      ensures gone == old(gone) + old(Contents())[..length]
    {
      hide Pending;
      ghost var t := Contents();
      MoveDown(trough, length, fill + 1 - length);
      fill := fill - length;
      Bitten(gone, t, Ahead(), length);
      gone := gone + t[..length];
    }

    /** YU-CHOMP: the bite is returned as a string of its own. */
    method Chomp(length: Word) returns (text: seq<Byte>)
      requires Valid()
      modifies `fill, `gone, trough
      ensures Valid() && Whole() == old(Whole())
      ensures |text| == if length <= old(fill) then length else old(fill)
      ensures text == old(Contents())[..|text|] && Contents() == old(Contents())[|text|..]
      ensures gone == old(gone) + text
    {
      var len := if length > fill then fill else length;
      text := trough[..len];
      assert text == Contents()[..len];
      Shift(len);
    }

    /** YU-CHUCK */
    method Chuck(length: Word)
      requires Valid()
      modifies `fill, `gone, trough
      ensures Valid() && Whole() == old(Whole())
      ensures fill == if length <= old(fill) then old(fill) - length else 0
      ensures Contents() == old(Contents())[old(fill) - fill..]
    {
      var len := if length > fill then fill else length;
      Shift(len);
    }

    /** Does the next character count as a line end to be dropped? */
    predicate DropsLineFeed()
      requires trough.Length == 1024
      reads `putback, `unread, trough
    {
      trough[0] == 0 && Ahead() != [] && Ahead()[0] == LINE_FEED
    }

    /**
     * ?YU-TROUGH-EMPTY: a trough that begins with NUL is refilled, a line feed in front of the new text being dropped;
     * the text stays in order unless that line feed had something in the trough to overtake.
     */
    method IsEmpty() returns (b: bool)
      requires Valid()
      modifies `fill, `putback, `unread, `line, `rpos, `wpos, `gone, trough, ring
      ensures Valid() && (Whole() == old(Whole()) <==> !(old(fill) > 0 && old(DropsLineFeed())))
      ensures gone == old(gone) + if old(DropsLineFeed()) then [10] else []
      ensures old(trough[0]) != 0 ==> !b && Contents() == old(Contents()) && Ahead() == old(Ahead())
      ensures old(trough[0]) == 0 ==> b == (old(Ahead()) == [] || trough[0] == 0)
      ensures old(trough[0]) == 0 ==>
        var q := if old(DropsLineFeed()) then old(Ahead())[1..] else old(Ahead());
        Contents() == old(Contents()) + q[..Amount(q, 1023 - old(fill), tty)]
      ensures Contents() + Ahead()
           == old(Contents()) + if old(DropsLineFeed()) then old(Ahead())[1..] else old(Ahead())
    {
      hide Amount, Pending;
      b := false;
      if trough[0] == 0 {
        b := Refill();
      }
    }

    method Refill() returns (b: bool)
      requires Valid() && trough[0] == 0
      modifies `fill, `putback, `unread, `line, `rpos, `wpos, `gone, trough, ring
      ensures Valid() && (Whole() == old(Whole()) <==> !(old(fill) > 0 && old(DropsLineFeed())))
      ensures gone == old(gone) + if old(DropsLineFeed()) then [10] else []
      ensures b == (old(Ahead()) == [] || trough[0] == 0)
      ensures var q := if old(DropsLineFeed()) then old(Ahead())[1..] else old(Ahead());
        Contents() == old(Contents()) + q[..Amount(q, 1023 - old(fill), tty)]
      ensures Contents() + Ahead()
           == old(Contents()) + if old(DropsLineFeed()) then old(Ahead())[1..] else old(Ahead())
    {
      hide Amount, Pending, RingText, Used, Recorded, Recent, Ahead, Contents;
      ghost var t, p := Contents(), Ahead();
      var c := ReadChar();
      if c == NONE {
        return true;
      }
      GiveBack(c, p);
      ghost var q, n := Ahead(), Amount(Ahead(), LIMIT - fill, tty);
      Fill();
      Refilled(t, q, n);
      b := trough[0] == 0;
    }

    /** The character read is put back, or dropped if it is a line feed. */
    method GiveBack(c: int, ghost p: seq<Byte>)
      requires Valid() && trough[0] == 0 && putback == NONE && 0 <= c < 256 && p == [c] + Ahead()
      modifies `putback, `gone
      ensures Valid() && Ahead() == if c == 10 then p[1..] else p
      ensures gone == old(gone) + if c == 10 then [10] else []
      ensures Whole() == old(gone) + Contents() + p <==> c != 10 || fill == 0
    {
      if c == LINE_FEED {
        Dropped(gone, Contents(), p);
        gone := gone + [LINE_FEED];
      } else {
        putback := c;
      }
    }
  }

  lemma Bitten(g: seq<Byte>, t: seq<Byte>, a: seq<Byte>, k: nat)
    requires k <= |t|
    ensures g + t[..k] + t[k..] + a == g + t + a
  {
    assert g + t[..k] + t[k..] == g + t;
  }

  lemma Refilled(t: seq<Byte>, q: seq<Byte>, k: nat)
    requires k <= |q|
    ensures t + q[..k] + q[k..] == t + q
  {
    assert q[..k] + q[k..] == q;
    assert t + q[..k] + q[k..] == t + (q[..k] + q[k..]);
  }

  /** The line feed overtakes what is in the trough: the text stays in order only if nothing is. */
  lemma Dropped(g: seq<Byte>, t: seq<Byte>, a: seq<Byte>)
    requires a != [] && (t != [] ==> t[0] != a[0])
    ensures g + [a[0]] + t + a[1..] == g + t + a <==> t == []
  {
    var l, r := g + [a[0]] + t + a[1..], g + t + a;
    if t == [] {
      assert l == g + ([a[0]] + a[1..]);
    } else {
      assert l[|g|] == a[0] && r[|g|] == t[0];
    }
  }

  /**
   * A line that begins with NUL, read on a terminal: the trough is taken for empty, and the line feed behind the line
   * leaves before the line does.
   */
  method LineFeedOvertakes() returns (t: Trough, ghost input: seq<Byte>)
    ensures fresh(t) && t.Valid() && t.tty && input == [0, 65, LINE_FEED, 66] && t.Whole() == [LINE_FEED, 0, 65, 66]
  {
    hide Amount, Pending, RingText, Used;
    t, input := FirstLine();
    var b := t.IsEmpty();
    Overtaken(t.gone, t.Contents(), t.Ahead());
  }

  method FirstLine() returns (t: Trough, ghost input: seq<Byte>)
    ensures fresh(t) && fresh(t.trough) && fresh(t.ring) && t.Valid() && t.tty && input == [0, 65, LINE_FEED, 66]
    ensures t.Whole() == input && t.gone == [] && t.fill == 2
    ensures t.Contents() == [0, 65] && t.Ahead() == [10, 66] && t.DropsLineFeed()
  {
    hide Amount, Pending, RingText, Used, Trough.Whole, Trough.Contents, Trough.Ahead;
    t, input := FreshLine();
    LineAmount(input);
    t.Fill();
    InTrough(t);
  }

  method FreshLine() returns (t: Trough, ghost input: seq<Byte>)
    ensures fresh(t) && fresh(t.trough) && fresh(t.ring) && t.Valid() && t.tty && input == [0, 65, LINE_FEED, 66]
    ensures t.Whole() == input && t.Ahead() == input && t.gone == [] && t.Contents() == [] && t.fill == 0
  {
    hide Amount, Pending, RingText, Used;
    input := [0, 65, LINE_FEED, 66];
    t := new Trough(true, [0, 65, LINE_FEED, 66]);
  }

  lemma InTrough(t: Trough)
    requires t.Valid() && t.Contents() == [0, 65] && t.Ahead() == [LINE_FEED, 66]
    ensures t.DropsLineFeed() && t.fill == 2
  {
    hide Pending, RingText, Used;
    assert t.trough[0] == t.Contents()[0];
  }

  lemma Overtaken(g: seq<Byte>, t: seq<Byte>, a: seq<Byte>)
    requires g == [LINE_FEED] && t + a == [0, 65, 66]
    ensures g + t + a == [10, 0, 65, 66]
  {
    assert g + t + a == g + (t + a);
  }

  lemma FilledUp(g: seq<Byte>, t: seq<Byte>, p: seq<Byte>, k: nat)
    requires k <= |p|
    ensures g + (t + p[..k]) + p[k..] == g + t + p
    ensures p[..0] == [] && p[0..] == p && t + [] == t
  {}

  lemma LineAmount(p: seq<Byte>)
    requires p == [0, 65, LINE_FEED, 66]
    ensures Amount(p, 1023, true) == 2 && [] + p[..2] == [0, 65] && p[2..] == [10, 66]
  {
    AmountIs(p, LIMIT, true, 2);
  }
}
