/** Cells as eight bytes, the low byte first. */
module ByteCells {
  import opened Words
  import opened Bytes

  function Join(low: int, high: int): int {
    low + 256 * high
  }

  function Low(w: Word): Byte {
    w % 256
  }

  function High(w: Word): Word {
    w / 256
  }

  lemma Halves(w: Word, bound: int)
    requires w < 256 * bound
    ensures Join(Low(w), High(w)) == w && High(w) < bound
  {}

  /** The cell at `x`, its low byte first. */
  function CellIn(m: seq<Byte>, x: nat): (w: Word)
    requires x + 8 <= |m|
  {
    Join(m[x], Join(m[x + 1], Join(m[x + 2], Join(m[x + 3], Join(m[x + 4], Join(m[x + 5], Join(m[x + 6], m[x + 7])))))))
  }

  /** The first byte counts ones and the last one 2^56. */
  lemma LowByteFirst(m: seq<Byte>, x: nat)
    requires x + 8 <= |m|
    ensures CellIn(m, x) == m[x] as int + 0x100 * (m[x + 1] as int) + 0x1_0000 * (m[x + 2] as int)
                          + 0x100_0000 * (m[x + 3] as int) + 0x1_0000_0000 * (m[x + 4] as int)
                          + 0x100_0000_0000 * (m[x + 5] as int) + 0x1_0000_0000_0000 * (m[x + 6] as int)
                          + 0x100_0000_0000_0000 * (m[x + 7] as int)
  {}

  /** `k` cells from `x` on. */
  function CellsIn(m: seq<Byte>, x: nat, k: nat): (ws: seq<Word>)
    requires x + 8 * k <= |m|
    ensures |ws| == k && forall i :: 0 <= i < k ==> ws[i] == CellIn(m, x + 8 * i)
  {
    if k == 0 then [] else CellsIn(m, x, k - 1) + [CellIn(m, x + 8 * (k - 1))]
  }

  lemma CellFrame(m: seq<Byte>, m': seq<Byte>, x: nat)
    requires x + 8 <= |m| == |m'| && forall i :: x <= i < x + 8 ==> m[i] == m'[i]
    ensures CellIn(m, x) == CellIn(m', x)
  {}

  /** Storing a cell. */
  method StoreCell(mem: array<Byte>, x: nat, w: Word)
    requires x + 8 <= mem.Length
    modifies mem
    ensures CellIn(mem[..], x) == w
    ensures forall i :: 0 <= i < mem.Length && !(x <= i < x + 8) ==> mem[i] == old(mem[i])
  {
    hide Low, High, Join;
    var q1 := High(w);
    Halves(w, 0x100_0000_0000_0000);
    var q2 := High(q1);
    Halves(q1, 0x1_0000_0000_0000);
    var q3 := High(q2);
    Halves(q2, 0x100_0000_0000);
    var q4 := High(q3);
    Halves(q3, 0x1_0000_0000);
    var q5 := High(q4);
    Halves(q4, 0x100_0000);
    var q6 := High(q5);
    Halves(q5, 0x1_0000);
    var q7 := High(q6);
    Halves(q6, 0x100);
    mem[x], mem[x + 1], mem[x + 2], mem[x + 3] := Low(w), Low(q1), Low(q2), Low(q3);
    mem[x + 4], mem[x + 5], mem[x + 6], mem[x + 7] := Low(q4), Low(q5), Low(q6), q7;
  }

  /** CMOVE, upwards or downwards so that overlapping ranges are moved correctly. */
  method CMove(mem: array<Byte>, source: nat, target: nat, count: nat)
    requires source + count <= mem.Length && target + count <= mem.Length
    modifies mem
    ensures forall i :: target <= i < target + count ==> mem[i] == old(mem[i - target + source])
    ensures forall i :: 0 <= i < mem.Length && !(target <= i < target + count) ==> mem[i] == old(mem[i])
  {
    if count == 0 || source == target {
      return;
    }
    var k := 0;
    if source > target {
      while k < count
        invariant 0 <= k <= count
        invariant forall i :: target <= i < target + k ==> mem[i] == old(mem[i - target + source])
        invariant forall i :: 0 <= i < mem.Length && !(target <= i < target + k) ==> mem[i] == old(mem[i])
      {
        mem[target + k] := mem[source + k];
        k := k + 1;
      }
    } else {
      while k < count
        invariant 0 <= k <= count
        invariant forall i :: target + count - k <= i < target + count ==> mem[i] == old(mem[i - target + source])
        invariant forall i :: 0 <= i < mem.Length && !(target + count - k <= i < target + count) ==>
                    mem[i] == old(mem[i])
      {
        k := k + 1;
        mem[target + count - k] := mem[source + count - k];
      }
    }
  }
}
