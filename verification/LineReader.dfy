/** TextInfile::readLine over a buffer that is refilled from a file, against the file split at its newlines. */
module LineReader {
  import opened Bytes
  import opened Growth

  const NEWLINE: Byte := 10

  /** The length of the first line, its newline included. */
  function LineLength(s: seq<Byte>): (n: nat)
    ensures n <= |s| && (s != [] ==> n > 0)
    ensures forall i :: 0 <= i < n - 1 ==> s[i] != 10
    ensures n < |s| ==> s[n - 1] == 10
  {
    if s == [] then 0 else if s[0] == NEWLINE then 1 else 1 + LineLength(s[1..])
  }

  /** A file as its lines. */
  function Lines(s: seq<Byte>): seq<seq<Byte>>
    decreases |s|
  {
    if s == [] then [] else [s[..LineLength(s)]] + Lines(s[LineLength(s)..])
  }

  /** Without a newline. */
  predicate Plain(s: seq<Byte>) {
    forall i :: 0 <= i < |s| ==> s[i] != NEWLINE
  }

  /** A newline at the end and nowhere else. */
  predicate WholeLine(s: seq<Byte>) {
    s != [] && s[|s| - 1] == NEWLINE && Plain(s[..|s| - 1])
  }

  predicate Terminated(line: seq<Byte>) {
    line != [] && line[|line| - 1] == NEWLINE
  }

  function Newlines(s: seq<Byte>): nat {
    if s == [] then 0 else (if s[0] == NEWLINE then 1 else 0) + Newlines(s[1..])
  }

  lemma Split(s: seq<Byte>)
    requires s != []
    ensures var line, rest := s[..LineLength(s)], s[LineLength(s)..];
      && Lines(s) == [line] + Lines(rest) && line + rest == s && |rest| < |s|
      && line != [] && (forall j :: 0 <= j < |line| - 1 ==> line[j] != NEWLINE)
      && (rest != [] ==> Terminated(line))
  {
    hide Lines;
    LinesStep(s);
  }

  lemma LinesStep(s: seq<Byte>)
    requires s != []
    ensures Lines(s) == [s[..LineLength(s)]] + Lines(s[LineLength(s)..])
  {}

  /** The lines together are the file; none is empty, and each has a newline at its end only, the last perhaps none. */
  lemma {:induction false} LinesPartition(s: seq<Byte>)
    ensures Concat(Lines(s)) == s
    ensures forall line <- Lines(s) :: line != [] && forall j :: 0 <= j < |line| - 1 ==> line[j] != 10
    ensures forall i :: 0 <= i < |Lines(s)| - 1 ==> Terminated(Lines(s)[i])
    decreases |s|
  {
    hide LineLength, Terminated;
    if s != [] {
      Split(s);
      LinesPartition(s[LineLength(s)..]);
      var rest := Lines(s[LineLength(s)..]);
      assert Lines(s)[1..] == rest;
      assert forall i :: 1 <= i < |Lines(s)| ==> Lines(s)[i] == rest[i - 1];
    }
  }

  /** The first line goes on behind `t` if there is no newline in `t`. */
  lemma {:induction false} LineLengthBehind(t: seq<Byte>, s: seq<Byte>)
    requires Plain(t)
    ensures LineLength(t + s) == |t| + LineLength(s)
  {
    if t == [] {
      assert t + s == s;
    } else {
      LineLengthBehind(t[1..], s);
      assert (t + s)[1..] == t[1..] + s;
    }
  }

  class TextInfile {
    const memory: array<Byte>
    var memFill: nat
    /** What the file descriptor has still to deliver. */
    var file: seq<Byte>
    const inputLine: ScalingString
    var inputPos: nat
    var inputLineNumber: nat

    /** An opened file: the buffer has been filled once. */
    constructor (file: seq<Byte>, memSize: nat, maxLine: nat, capacity: nat)
      requires memSize > 0 && capacity <= MaxSize(maxLine)
      ensures Valid() && fresh(memory) && fresh(inputLine) && Ahead() == file && inputLineNumber == 1
      ensures inputLine.max == MaxSize(maxLine)
    {
      memory := new Byte[memSize](i => 0);
      inputLine := new ScalingString(maxLine, capacity);
      this.file, memFill, inputPos, inputLineNumber := file, 0, 0, 1;
      new;
      Read();
      assert memory[0..memFill] == memory[..memFill];
    }

    ghost predicate Valid()
      reads this, inputLine
    {
      && memory.Length > 0 && memFill <= memory.Length && inputPos <= memFill && inputLine.Valid() && inputLine.max > 0
      && (memFill < memory.Length ==> file == [])
    }

    /** What has not been returned yet. */
    function Ahead(): seq<Byte>
      requires inputPos <= memFill <= memory.Length
      reads `inputPos, `memFill, `file, memory
    {
      memory[inputPos..memFill] + file
    }

    /** IOBuffer::read on a regular file: as much as fits, less only at the end of the file. */
    method Read()
      requires memory.Length > 0
      modifies `memFill, `file, memory
      ensures memFill <= memory.Length && (memFill < memory.Length ==> file == [])
      ensures memory[..memFill] + file == old(file)
    {
      var n := if |file| <= memory.Length then |file| else memory.Length;
      forall i | 0 <= i < n {
        memory[i] := file[i];
      }
      memFill := n;
      assert memory[..n] == file[..n];
      file := file[n..];
    }

    /** The end of the line in the buffer, behind its newline, or the end of the buffer. */
    method Scan() returns (p: nat, found: bool)
      requires Valid()
      ensures inputPos <= p <= memFill && (!found ==> p == memFill)
      ensures if found then WholeLine(memory[inputPos..p]) else Plain(memory[inputPos..p])
    {
      p := inputPos;
      while p < memFill
        invariant inputPos <= p <= memFill
        invariant forall i :: inputPos <= i < p ==> memory[i] != NEWLINE
      {
        if memory[p] == NEWLINE {
          p, found := p + 1, true;
          assert memory[inputPos..p][..p - inputPos - 1] == memory[inputPos..p - 1];
          return;
        }
        p := p + 1;
      }
      found := false;
    }

    /** The bytes up to `p` go to the line. */
    method Take(p: nat, ghost t: seq<Byte>)
      requires Valid() && inputPos <= p <= memFill && inputLine.contents == Capped(t, inputLine.max)
      modifies `inputPos, inputLine
      ensures Valid() && inputPos == p && old(Ahead()) == memory[old(inputPos)..p] + Ahead()
      ensures inputLine.contents == Capped(t + memory[old(inputPos)..p], inputLine.max)
    {
      ghost var piece := memory[inputPos..p];
      inputLine.Append(memory[inputPos..p]);
      CappedAppend(t, piece, inputLine.max);
      assert memory[inputPos..memFill] == piece + memory[p..memFill];
      inputPos := p;
    }

    /** The next block of the file. */
    method Refill()
      requires Valid() && inputPos == memFill
      modifies `memFill, `file, `inputPos, memory
      ensures Valid() && Ahead() == old(Ahead())
      ensures |file| < |old(file)| || (file == old(file) == [] && memFill == 0)
    {
      assert memory[inputPos..memFill] == [];
      Read();
      inputPos := 0;
      assert memory[0..memFill] == memory[..memFill];
    }

    /** readLine: false at the end of the file; over-long lines come back cut off. */
    method ReadLine() returns (b: bool)
      requires Valid()
      modifies this, memory, inputLine
      ensures Valid() && b == (old(Ahead()) != [])
      ensures var s := old(Ahead());
        && inputLine.contents == Capped(s[..LineLength(s)], inputLine.max)
        && Ahead() == s[LineLength(s)..]
        && inputLineNumber == old(inputLineNumber) + if Terminated(s[..LineLength(s)]) then 1 else 0
    {
      hide LineLength, Capped, Ahead, Plain, WholeLine, Terminated;
      ghost var s, t := Ahead(), [];
      inputLine.Clear();
      NothingYet(s, inputLine.max);
      while true
        invariant Valid() && s == t + Ahead() && inputLine.contents == Capped(t, inputLine.max)
        invariant inputLineNumber == old(inputLineNumber)
        invariant Plain(t)
        decreases |file|, memFill
      {
        var p, found := Scan();
        ghost var piece, a := memory[inputPos..p], Ahead();
        if found {
          Take(p, t);
          inputLineNumber := inputLineNumber + 1;
          LineEnds(s, t, piece, a, Ahead());
          assert s != [];
          return true;
        }
        if p > inputPos {
          Take(p, t);
          Onward(t, piece, Ahead());
          t := t + piece;
        }
        if memFill < memory.Length {
          AtEnd();
          FileEnds(s, t, inputLine.max);
          return inputLine.contents != [];
        }
        Refill();
      }
    }

    lemma AtEnd()
      requires Valid() && inputPos == memFill < memory.Length
      ensures Ahead() == []
    {}

    /** The loop a caller makes of it: all lines of the file, whatever the size of the buffer. */
    method ReadAll() returns (lines: seq<seq<Byte>>)
      requires Valid()
      modifies this, memory, inputLine
      ensures Valid() && Ahead() == []
      ensures var all := Lines(old(Ahead()));
        && |lines| == |all| && (forall i :: 0 <= i < |lines| ==> lines[i] == Capped(all[i], inputLine.max))
        && inputLineNumber == old(inputLineNumber) + Newlines(old(Ahead()))
    {
      hide LineLength, Capped, Ahead, Terminated, Lines, Newlines;
      lines := [];
      ghost var s, all := Ahead(), Lines(Ahead());
      ghost var number := inputLineNumber;
      while true
        invariant Valid() && |lines| <= |all| && Lines(Ahead()) == all[|lines|..]
        invariant inputLineNumber + Newlines(Ahead()) == number + Newlines(s)
        invariant forall i :: 0 <= i < |lines| ==> lines[i] == Capped(all[i], inputLine.max)
        decreases |Ahead()|
      {
        FirstLine(Ahead());
        var b := ReadLine();
        if !b {
          return;
        }
        lines := lines + [inputLine.contents];
      }
    }
  }

  lemma NothingYet(s: seq<Byte>, max: nat)
    ensures s == [] + s && Capped([], max) == [] && Plain([])
  {}

  lemma Onward(t: seq<Byte>, piece: seq<Byte>, rest: seq<Byte>)
    requires Plain(t) && Plain(piece)
    ensures Plain(t + piece)
    ensures t + (piece + rest) == t + piece + rest
  {}

  lemma FileEnds(s: seq<Byte>, t: seq<Byte>, max: nat)
    requires s == t + [] && max > 0 && Plain(t)
    ensures s == t && LineLength(s) == |s| && !Terminated(s) && s[..LineLength(s)] == s && s[LineLength(s)..] == []
    ensures Capped(t, max) == [] <==> s == []
  {
    assert s == t;
    NoNewline(s);
  }

  /** The first line and the others, and the newlines counted. */
  lemma FirstLine(s: seq<Byte>)
    ensures s == [] ==> Lines(s) == [] && Newlines(s) == 0
    ensures s != [] ==>
              Lines(s) != [] && Lines(s)[0] == s[..LineLength(s)] && Lines(s)[1..] == Lines(s[LineLength(s)..])
    ensures s != [] ==> LineLength(s) > 0
    ensures Newlines(s) == Newlines(s[LineLength(s)..]) + if Terminated(s[..LineLength(s)]) then 1 else 0
  {
    CountLine(s);
  }

  lemma {:induction false} CountLine(s: seq<Byte>)
    ensures Newlines(s) == Newlines(s[LineLength(s)..]) + if Terminated(s[..LineLength(s)]) then 1 else 0
  {
    if s != [] && s[0] != NEWLINE {
      CountLine(s[1..]);
      var n := LineLength(s);
      assert s[n..] == s[1..][n - 1..];
      assert s[..n] == [s[0]] + s[1..][..n - 1];
    }
  }

  /** The line is complete with the piece that ends in a newline. */
  lemma LineEnds(s: seq<Byte>, t: seq<Byte>, piece: seq<Byte>, a: seq<Byte>, rest: seq<Byte>)
    requires s == t + a && a == piece + rest && WholeLine(piece) && Plain(t)
    ensures s[..LineLength(s)] == t + piece && s[LineLength(s)..] == rest && Terminated(t + piece)
  {
    var front := t + piece[..|piece| - 1];
    assert s == front + ([NEWLINE] + rest);
    LineLengthBehind(front, [NEWLINE] + rest);
  }

  lemma NoNewline(s: seq<Byte>)
    requires Plain(s)
    ensures LineLength(s) == |s| && !Terminated(s)
  {
    LineLengthBehind(s, []);
    assert s + [] == s;
  }
}
