/**
 * Printing and reading against each other, through the words themselves; and the characters that numbers are made of.
 */
module NumberLaws {
  import opened Words
  import opened Positional
  import opened CellStack
  import opened NumberReader
  import opened NumberWriter
  import N = Numeral

  const UPPER := "0123456789ABCDEFGHIJKLMNOPQRSTUVWXYZ"
  const LOWER := "0123456789abcdefghijklmnopqrstuvwxyz"

  lemma TableOfDigits(d: nat)
    requires d < 36
    ensures UPPER[d] == if d < 10 then ('0' as int + d) as char else ('A' as int + d - 10) as char
    ensures LOWER[d] == if d < 10 then ('0' as int + d) as char else ('a' as int + d - 10) as char
  {
  }

  /** The 36 digits in their order, letters in either case; nothing else is a digit. */
  lemma DigitsInOrder(d: nat, c: char)
    requires d < 36
    ensures DigitOf(UPPER[d]) == d && DigitOf(LOWER[d]) == d
    ensures DigitOf(c) == d ==> c == UPPER[d] || c == LOWER[d]
    ensures DigitOf(c) >= 0 <==> '0' <= c <= '9' || 'A' <= c <= 'Z' || 'a' <= c <= 'z'
  {
    TableOfDigits(d);
    var u, l := UPPER[d], LOWER[d];
    DigitOfTable(d, u, l, c);
  }

  lemma DigitOfTable(d: nat, u: char, l: char, c: char)
    requires d < 36
    requires u == if d < 10 then ('0' as int + d) as char else ('A' as int + d - 10) as char
    requires l == if d < 10 then ('0' as int + d) as char else ('a' as int + d - 10) as char
    ensures DigitOf(u) == d && DigitOf(l) == d && (DigitOf(c) == d ==> c == u || c == l)
  {
  }

  /** Numbers are printed with capital letters. */
  lemma PrintedDigit(d: Word)
    requires d < 36
    ensures Digits(36, d) == [UPPER[d]]
  {
    TableOfDigits(d);
  }

  /** The digit string of base ten is read from the left. */
  lemma ReadFromTheLeft()
    ensures Value(10, "1234") == 1234
  {
    var a, b, c := "1", "12", "123";
    assert a[..0] == [] && b[..1] == a && c[..2] == b && "1234"[..3] == c;
    assert Value(10, a) == 1;
    assert Value(10, b) == 12;
    assert Value(10, c) == 123;
  }

  lemma DigitBytes(base: Word, n: Word, i: nat)
    requires 2 <= base <= 36 && i < |Digits(base, n)|
    ensures Digits(base, n)[i] as int < 256
  {
    hide Digits, Value, DigitOf;
    DigitsAreExact(base, n);
    assert N.IsDigit(base, Digits(base, n)[i]);
    DigitIsByte(Digits(base, n)[i]);
  }

  lemma DigitIsByte(c: char)
    requires DigitOf(c) >= 0
    ensures c as int < 256
  {
  }

  /** The text of `n` in front of the blank, with or without regard to the sign. */
  function Shown(base: Word, n: Word, signed: bool): seq<char>
    requires 2 <= base <= 36
  {
    if signed then Printed(base, n) else Digits(base, n)
  }

  lemma ShownBack(base: Word, n: Word, signed: bool)
    requires 2 <= base <= 36
    ensures var s := Shown(base, n, signed);
      && |s| <= 65 && (forall i :: 0 <= i < |s| ==> s[i] as int < 256)
      && var r := N.Read(base, s); r.Accepted? && N.IsInteger(r.numeral) && N.Mantissa(base, r.numeral) == n
  {
    hide Digits, N.Read, Wrap, N.Mantissa;
    FitsBuffer(base, n);
    SignedRoundTrip(base, n);
    UnsignedRoundTrip(base, n);
    var s := Shown(base, n, signed);
    forall i | 0 <= i < |s|
      ensures s[i] as int < 256
    {
      if signed && n >= TWO63 {
        if i > 0 {
          DigitBytes(base, Wrap(0 - n), i - 1);
        }
      } else {
        DigitBytes(base, n, i);
      }
    }
  }

  /** The text of a number at `at`, with enough room behind it, and away from the buffer of names. */
  predicate Clear(name: Word, at: Word, len: nat) {
    at + len < TWO64 && name + 1 < TWO64 && !(at < name + 1 <= at + len)
  }

  /** `.` or U., and what it has printed in front of the blank. */
  method Print(w: Writer, n: Word, signed: bool) returns (text: seq<char>)
    requires w.Valid() && 2 <= w.base <= 36
    modifies w.dot, w`output
    ensures w.output == old(w.output) + (text + [' ']) && text == Shown(w.base, n, signed)
  {
    hide Printed, Digits;
    var before := |w.output|;
    if signed {
      w.Dot(n);
    } else {
      w.UDot(n);
    }
    Tail(old(w.output), Shown(w.base, n, signed), ' ');
    text := w.output[before..|w.output| - 1];
  }

  /** ?MATCHNUM on a text that shows `n`. */
  method Match(text: seq<char>, ghost n: Word, ghost signed: bool, from: Word, name: Word, at: Word,
               toReal: (Word, Word, Word, Word, Word) -> Word, stack: Stack)
    returns (ps: Stack, base: Word)
    requires 2 <= from <= 36 && text == Shown(from, n, signed) && Clear(name, at, 65)
    ensures ps == Cell(TRUE, Cell(n, stack)) && base == from
  {
    hide Shown, N.Read, Wrap, N.Mantissa;
    ShownBack(from, n, signed);
    var r := new Reader(name, at, text, from, toReal);
    assert r.Rest(at) == text;
    ps := r.MatchNum(Cell(|text|, Cell(at, stack)), at, |text|, stack);
    base := r.base;
  }

  /**
   * What `.` or U. prints is a blank behind a text that ?MATCHNUM, started in the same base, takes for the same cell.
   */
  method PrintAndRead(w: Writer, n: Word, signed: bool, name: Word, at: Word,
                      toReal: (Word, Word, Word, Word, Word) -> Word, stack: Stack)
    returns (text: seq<char>, ps: Stack, base: Word)
    requires w.Valid() && 2 <= w.base <= 36 && Clear(name, at, 65)
    modifies w.dot, w`output
    ensures w.output == old(w.output) + (text + [' '])
    ensures ps == Cell(TRUE, Cell(n, stack)) && base == w.base
  {
    hide Shown;
    text := Print(w, n, signed);
    ps, base := Match(text, n, signed, w.base, name, at, toReal, stack);
  }

  lemma Tail(s: seq<char>, t: seq<char>, c: char)
    ensures var u := s + (t + [c]); u[|s|..|u| - 1] == t && u[|u| - 1] == c && u[..|s|] == s
  {
  }

  lemma RunOfThree(c: char)
    ensures N.DigitRun(10, ['1', c, '2']) == if '0' <= c <= '9' then 3 else 1
    ensures N.DigitRun(10, ['2']) == 1
  {
    var s := ['1', c, '2'];
    assert s[1..] == [c, '2'] && s[1..][1..] == ['2'] && ['2'][1..] == [];
    assert N.DigitRun(10, []) == 0;
  }

  /** What may stand between two digits: a digit, the dot, or one of three marks of an exponent. */
  lemma BetweenDigits(c: char)
    ensures N.Read(10, ['1', c, '2']) ==
      if '0' <= c <= '9' then N.Accepted(N.Numeral([], ['1', c, '2'], [], N.Absent))
      else if c == '.' then N.Accepted(N.Numeral([], ['1'], ['2'], N.Absent))
      else if c == 'e' || c == 'E' || c == '\'' then N.Accepted(N.Numeral([], ['1'], [], N.Exponent(c, [], ['2'])))
      else N.Refused
  {
    hide DigitOf, N.DigitRun;
    var s := ['1', c, '2'];
    RunOfThree(c);
    assert s[..0] == [] && s[0..] == s;
    if '0' <= c <= '9' {
      assert s[..3] == s && s[3..] == [];
    } else {
      assert s[..1] == ['1'] && s[1..] == [c, '2'] && s[1..][1..] == ['2'];
      assert ['2'][..0] == [] && ['2'][0..] == ['2'] && ['2'][..1] == ['2'] && ['2'][1..] == [];
    }
  }

  /** What may stand in front: a digit or a sign. */
  lemma InFront(c: char)
    ensures N.Read(10, [c, '1']).Accepted? <==> '0' <= c <= '9' || c == '+' || c == '-'
  {
    var s := [c, '1'];
    assert s[0..] == s && s[1..] == ['1'] && ['1'][1..] == [] && ['1'][0..] == ['1'] && s[2..] == [];
    assert N.DigitRun(10, []) == 0 && N.DigitRun(10, ['1']) == 1;
    assert N.DigitRun(10, s) == if '0' <= c <= '9' then 2 else 0;
  }

  /** A minus sign counts for mantissa and exponent, each of which has its own. */
  lemma AllParts(minus: bool, less: bool)
    ensures var sign, sign2 := if minus then ['-'] else ['+'], if less then ['-'] else ['+'];
      N.CellsOf(10, N.Numeral(sign, "12", "034", N.Exponent('e', sign2, "5")))
      == N.Cells(if minus then TWO64 - 12 else 12, 34, 3, if less then TWO64 - 5 else 5)
  {
    hide DigitOf;
    Twelve();
  }

  lemma Twelve()
    ensures Value(10, "12") == 12 && Value(10, "034") == 34 && Value(10, "5") == 5
  {
    assert "12"[..1] == "1" && "1"[..0] == [] && "034"[..2] == "03" && "03"[..1] == "0" && "0"[..0] == [];
    assert "5"[..0] == [];
    assert Value(10, "1") == 1 && Value(10, "0") == 0 && Value(10, "5") == 5;
    assert Value(10, "03") == 3;
  }
}
