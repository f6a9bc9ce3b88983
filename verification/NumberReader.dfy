/** ?MATCHNUM and the words it is made of, on the parameter stack; they decide the grammar of `Numeral`. */
module NumberReader {
  import opened Words
  import opened Positional
  import opened CellStack
  import Numeral

  const MINUS_ONE: Word := TRUE

  /** The number base the reader works with. */
  function CheckedBase(base: Word): (b: Word)
    ensures 2 <= b <= 36
  {
    if 2 <= Signed(base) <= 36 then base else 10
  }

  function SignCell(minus: bool): Word {
    if minus then MINUS_ONE else 1
  }

  lemma WrapSmall(i: int)
    requires 0 <= i < TWO64
    ensures Wrap(i) == i
  {}

  /** The stack effect of the loop body of DSEQNCONV. */
  lemma Accumulate(d: Word, c: Word, len: Word, addr: Word, value: Word, rest: Stack, base: Word)
    ensures var s := Roll(Drop(Swap(Cell(d, Cell(c, Cell(len, Cell(addr, Cell(value, rest))))))), 4);
      TwoRot(AddInt(MulInt(Cell(base, s)))) == Cell(len, Cell(addr, Cell(Wrap(d + Wrap(value * base)), rest)))
  {
    hide Wrap;
  }

  /** One more digit, modulo 2^64. */
  lemma Horner(base: Word, s: seq<char>, k: nat)
    requires k < |s| && DigitOf(s[k]) >= 0
    ensures Wrap(DigitOf(s[k]) + Wrap(Wrap(Value(base, s[..k])) * base)) == Wrap(Value(base, s[..k + 1]))
  {
    assert s[..k + 1][..k] == s[..k];
    WrapTimes(Value(base, s[..k]), base);
    WrapPlus(Value(base, s[..k]) * base, DigitOf(s[k]));
  }

  lemma WrapPlus(x: int, y: int)
    ensures Wrap(y + Wrap(x)) == Wrap(x + y)
  {}

  lemma WrapTimes(x: int, y: int)
    ensures Wrap(Wrap(x) * y) == Wrap(x * y)
  {
    var q := x / TWO64;
    assert x * y == Wrap(x) * y + (q * y) * TWO64;
    WrapMultiple(Wrap(x) * y, q * y);
  }

  lemma WrapMultiple(x: int, q: int)
    ensures Wrap(x + q * TWO64) == Wrap(x)
  {}

  lemma RunStarts(base: Word, s: seq<char>)
    requires s != [] && Numeral.IsDigit(base, s[0])
    ensures Numeral.DigitRun(base, s) >= 1 && Value(base, s[..1]) == DigitOf(s[0])
  {
    assert s[..1][..0] == [];
  }

  class Reader {
    /** The address of the NAME buffer; the text of a name begins one byte behind it. */
    const name: Word
    /** The bytes to be read, and their address. */
    const at: Word
    const text: seq<char>
    /** The floating-point conversion of mantissa, fraction, fraction digits, exponent and base. */
    const toReal: (Word, Word, Word, Word, Word) -> Word

    var base: Word
    var address0: Word
    var mantissa: Word
    var fraction: Word
    var fracndig: Word
    var exponent: Word

    constructor (name: Word, at: Word, text: seq<char>, base: Word,
        toReal: (Word, Word, Word, Word, Word) -> Word)
      ensures this.name == name && this.at == at && this.text == text && this.toReal == toReal
      ensures this.base == base
    {
      this.name, this.at, this.text, this.toReal, this.base := name, at, text, toReal, base;
      address0, mantissa, fraction, fracndig, exponent := 0, 0, 0, 0, 0;
    }

    /** The text is made of bytes, and its addresses do not wrap around. */
    predicate Readable() {
      && at + |text| < TWO64 && name + 1 < TWO64
      && (forall i :: 0 <= i < |text| ==> text[i] as int < 256)
    }

    /** No place inside the text is where the text of a name begins: there BACKNCONV would not go back. */
    predicate CanGoBack() {
      !(at < name + 1 <= at + |text|)
    }

    predicate InText(addr: Word, len: Word) {
      at <= addr && addr + len == at + |text|
    }

    /** What is left to be read at `addr`. */
    function Rest(addr: Word): seq<char> {
      if at <= addr <= at + |text| then text[addr - at..] else []
    }

    function CharAt(addr: Word): Word {
      if at <= addr < at + |text| && text[addr - at] as int < 256 then text[addr - at] as int else 0
    }

    lemma RestAt(addr: Word, k: nat)
      requires at <= addr && addr + k <= at + |text| < TWO64
      ensures Rest(addr + k) == Rest(addr)[k..]
    {}

    /** CHECKBASE */
    method CheckBase()
      modifies `base
      ensures base == CheckedBase(old(base)) == if 2 <= old(base) <= 36 then old(base) else 10
    {
      if Signed(base) < 2 || Signed(base) > 36 {
        base := 10;
      }
    }

    /** C@ */
    method CharFetch(stack: Stack) returns (ps: Stack)
      ensures ps == Cell(CharAt(Top(stack)), Drop(stack))
    {
      ps := stack;
      ps := Cell(CharAt(Top(ps)), Drop(ps));
    }

    /** CGETNCONV: the next character, or -1 at the end. */
    method GetChar(stack: Stack, ghost addr: Word, ghost len: Word, ghost rest: Stack) returns (ps: Stack)
      requires Readable() && InText(addr, len) && stack == Cell(len, Cell(addr, rest))
      ensures ps == if len == 0 then Cell(MINUS_ONE, Cell(0, Cell(addr, rest)))
                    else Cell(CharAt(addr), Cell(len - 1, Cell(addr + 1, rest)))
    {
      hide Wrap;
      ps := stack;
      if Top(ps) == 0 {
        ps := Cell(MINUS_ONE, ps);
      } else {
        ps := Dup(Swap(ps));
        ps := CharFetch(ps);
        WrapSmall(len - 1);
        WrapSmall(addr + 1);
        ps := SubOne(Rot(ps));
        ps := AddOne(Rot(ps));
        ps := Rot(Swap(ps));
      }
    }

    /** DIGIT: the value of a character as a digit in the current base, or -1. */
    method Digit(stack: Stack, ghost c: Word, ghost rest: Stack) returns (ps: Stack)
      requires stack == Cell(c, rest) && (c < 256 || c == MINUS_ONE)
      ensures ps == Cell(if c < 256 && Numeral.IsDigit(base, c as char) then DigitOf(c as char) else MINUS_ONE,
                         Cell(c, rest))
    {
      ps := stack;
      var rax := Top(ps);
      if rax != MINUS_ONE {
        if rax < '0' as int {
          rax := MINUS_ONE;
        } else if rax <= '9' as int {
          rax := rax - '0' as int;
        } else if rax < 'A' as int {
          rax := MINUS_ONE;
        } else if rax <= 'Z' as int {
          rax := rax - 'A' as int + 10;
        } else if rax < 'a' as int || rax > 'z' as int {
          rax := MINUS_ONE;
        } else {
          rax := rax - 'a' as int + 10;
        }
        if rax >= base {
          rax := MINUS_ONE;
        }
      }
      ps := Cell(rax, ps);
    }

    /** BACKNCONV: one character back, unless this is where the text of a name begins. */
    method Back(stack: Stack, ghost addr: Word, ghost len: Word, ghost rest: Stack) returns (ps: Stack)
      requires Readable() && at < addr && InText(addr, len) && stack == Cell(len, Cell(addr, rest))
      ensures ps == if addr == name + 1 then stack else Cell(len + 1, Cell(addr - 1, rest))
    {
      hide Wrap;
      ps := stack;
      WrapSmall(name + 1);
      WrapSmall(addr - 1);
      WrapSmall(len + 1);
      ps := Dup(Swap(ps));
      ps := AddOne(Cell(name, ps));
      if Top(ps) == Top(Drop(ps)) {
        ps := Swap(TwoDrop(ps));
      } else {
        ps := TwoDrop(ps);
        ps := SubOne(ps);
        ps := AddOne(Swap(ps));
      }
    }

    /** DSEQNCONV: the digits at the top of the text, their number and their value. */
    method DigitSequence(stack: Stack, ghost addr: Word, ghost len: Word, ghost rest: Stack) returns (ps: Stack)
      requires Readable() && CanGoBack() && InText(addr, len) && stack == Cell(len, Cell(addr, rest))
      requires 2 <= base <= 36
      modifies `address0
      ensures var n := Numeral.DigitRun(base, Rest(addr));
        if n == 0 then Failed(ps, rest)
        else ps == Cell(Wrap(Value(base, Rest(addr)[..n])), Cell(n, Cell(len - n, Cell(addr + n, rest))))
    {
      hide Wrap, DigitOf, Numeral.DigitRun, Numeral.IsDigit, Value;
      ps := stack;
      ghost var s := Rest(addr);
      ghost var n := Numeral.DigitRun(base, s);
      address0 := Top(Over(ps));
      ps := GetChar(ps, addr, len, rest);
      if Top(ps) == MINUS_ONE {
        ps := Cell(0, Cell(0, Drop(ps)));
        return;
      }
      ghost var c := Top(ps) as char;
      assert c == s[0];
      ps := Digit(ps, Top(ps), Drop(ps));
      if Top(ps) == MINUS_ONE {
        ps := Cell(0, Cell(0, Drop(Drop(ps))));
        return;
      }
      ps := TwoRot(Drop(Swap(ps)));
      RunStarts(base, s);
      WrapSmall(DigitOf(c));
      ps := MoreDigits(ps, addr, len, rest);
      WrapSmall(n);
      ps := Swap(SubInt(Cell(address0, Pick(Rot(ps), 3))));
    }

    /** The loop of DSEQNCONV behind its first digit. */
    method MoreDigits(stack: Stack, ghost addr: Word, ghost len: Word, ghost rest: Stack) returns (ps: Stack)
      requires Readable() && CanGoBack() && InText(addr, len) && 2 <= base <= 36
      requires Numeral.DigitRun(base, Rest(addr)) >= 1
      requires stack == Cell(len - 1, Cell(addr + 1, Cell(Wrap(Value(base, Rest(addr)[..1])), rest)))
      ensures var n := Numeral.DigitRun(base, Rest(addr));
        ps == Cell(len - n, Cell(addr + n, Cell(Wrap(Value(base, Rest(addr)[..n])), rest)))
    {
      hide Wrap, DigitOf, Numeral.DigitRun, Numeral.IsDigit, Value, Rest;
      ps := stack;
      ghost var n := Numeral.DigitRun(base, Rest(addr));
      ghost var k := 1;
      while true
        invariant 1 <= k <= n && Converted(ps, addr, len, rest, k)
        decreases n - k
      {
        var more;
        ps, more := NextDigit(ps, addr, len, rest, k);
        if !more {
          return;
        }
        k := k + 1;
      }
    }

    /** `k` digits have been taken: their value lies beneath what is left of the text. */
    ghost predicate Converted(ps: Stack, addr: Word, len: Word, rest: Stack, k: nat)
      requires InText(addr, len) && at + |text| < TWO64
      reads this
    {
      k <= len && ps == Cell(len - k, Cell(addr + k, Cell(Wrap(Value(base, Rest(addr)[..k])), rest)))
    }

    /** One round of that loop: one more digit, or the character is given back. */
    method NextDigit(stack: Stack, ghost addr: Word, ghost len: Word, ghost rest: Stack, ghost k: nat)
      returns (ps: Stack, more: bool)
      requires Readable() && CanGoBack() && InText(addr, len) && 2 <= base <= 36
      requires 1 <= k <= Numeral.DigitRun(base, Rest(addr)) && Converted(stack, addr, len, rest, k)
      ensures more == (k < Numeral.DigitRun(base, Rest(addr)))
      ensures Converted(ps, addr, len, rest, if more then k + 1 else k)
    {
      hide Wrap, DigitOf, Numeral.DigitRun, Numeral.IsDigit, Value;
      ps, more := stack, false;
      ghost var s := Rest(addr);
      ps := GetChar(ps, addr + k, len - k, Drop(Drop(ps)));
      if Top(ps) == MINUS_ONE {
        ps := Drop(ps);
        return;
      }
      assert Top(ps) as char == s[k];
      ps := Digit(ps, Top(ps), Drop(ps));
      if Top(ps) == MINUS_ONE {
        ps := TwoDrop(ps);
        ps := Back(ps, addr + k + 1, len - k - 1, Drop(Drop(ps)));
        return;
      }
      ps := TakeDigit(ps, Nth(ps, 2), len - k - 1, addr + k + 1, rest, s, k);
      more := true;
    }

    /** A digit on top is added to the value of those before it. */
    method TakeDigit(stack: Stack, ghost c: Word, ghost left: Word, ghost next: Word, ghost rest: Stack,
                     ghost s: seq<char>, ghost k: nat)
      returns (ps: Stack)
      requires 2 <= base <= 36 && k < |s| && DigitOf(s[k]) >= 0
      requires stack == Cell(DigitOf(s[k]), Cell(c, Cell(left, Cell(next, Cell(Wrap(Value(base, s[..k])), rest)))))
      ensures ps == Cell(left, Cell(next, Cell(Wrap(Value(base, s[..k + 1])), rest)))
    {
      hide Wrap, DigitOf, Value;
      ps := stack;
      Accumulate(DigitOf(s[k]), c, left, next, Wrap(Value(base, s[..k])), rest, base);
      ps := TwoRot(AddInt(MulInt(Cell(base, Roll(Drop(Swap(ps)), 4)))));
      Horner(base, s, k);
    }

    /** A failed conversion: two zeros above two cells above the rest. */
    static predicate Failed(s: Stack, rest: Stack) {
      Top(s) == 0 && Top(Drop(s)) == 0 && TwoDrop(TwoDrop(s)) == rest
    }

    /** The sign goes below the text; a character that is none is given back. */
    method Sign(stack: Stack, ghost addr: Word, ghost len: Word, ghost rest: Stack) returns (ps: Stack)
      requires Readable() && CanGoBack() && InText(addr, len) && len > 0
      requires stack == Cell(CharAt(addr), Cell(len - 1, Cell(addr + 1, rest)))
      ensures var s := Rest(addr);
        var i := Numeral.SignLength(s);
        ps == Cell(len - i, Cell(addr + i, Cell(SignCell(s[..i] == ['-']), rest)))
    {
      var c := Top(stack);
      assert c as char == Rest(addr)[0];
      ps := Drop(stack);
      if c == '-' as int {
        ps := Rot(Rot(Cell(MINUS_ONE, ps)));
      } else if c == '+' as int {
        ps := Rot(Rot(Cell(1, ps)));
      } else {
        ps := Back(ps, addr + 1, len - 1, rest);
        ps := Rot(Rot(Cell(1, ps)));
      }
    }

    /** SSEQNCONV: a sign and digits. */
    method SignedSequence(stack: Stack, ghost addr: Word, ghost len: Word, ghost rest: Stack) returns (ps: Stack)
      requires Readable() && CanGoBack() && InText(addr, len) && stack == Cell(len, Cell(addr, rest))
      requires 2 <= base <= 36
      modifies `address0
      ensures var s := Rest(addr);
        var i := Numeral.SignLength(s);
        var n := Numeral.DigitRun(base, s[i..]);
        if n == 0 then Failed(ps, rest)
        else ps == Cell(Wrap(Numeral.SignOf(s[..i]) * Value(base, s[i..i + n])),
                        Cell(n, Cell(len - i - n, Cell(addr + i + n, rest))))
    {
      hide Wrap, Numeral.DigitRun, Value, Rest, SignCell, CharAt, Numeral.SignLength;
      ghost var s := Rest(addr);
      ghost var i := Numeral.SignLength(s);
      RestLength(addr, len);
      ps := GetChar(stack, addr, len, rest);
      if Top(ps) == MINUS_ONE {
        NothingRuns(base, s);
        ps := Cell(0, Cell(0, Drop(ps)));
        return;
      }
      ps := Sign(ps, addr, len, rest);
      RestAt(addr, i);
      ps := SignBelow(ps, addr + i, len - i, s[..i] == ['-'], rest);
      SliceOf(s, i, Numeral.DigitRun(base, s[i..]));
    }

    lemma RestLength(addr: Word, len: Word)
      requires Readable() && InText(addr, len)
      ensures |Rest(addr)| == len && CharAt(addr) < 256
    {}

    /** The digits behind the sign, which lies below the text. */
    method SignBelow(stack: Stack, ghost addr: Word, ghost len: Word, ghost minus: bool, ghost rest: Stack)
      returns (ps: Stack)
      requires Readable() && CanGoBack() && InText(addr, len) && 2 <= base <= 36
      requires stack == Cell(len, Cell(addr, Cell(SignCell(minus), rest)))
      modifies `address0
      ensures var n := Numeral.DigitRun(base, Rest(addr));
        if n == 0 then Failed(ps, rest)
        else ps == Cell(Wrap((if minus then -1 else 1) * Value(base, Rest(addr)[..n])),
                        Cell(n, Cell(len - n, Cell(addr + n, rest))))
    {
      hide Wrap, DigitOf, Numeral.DigitRun, Numeral.IsDigit, Value, SignCell;
      ps := stack;
      ghost var n := Numeral.DigitRun(base, Rest(addr));
      ps := DigitSequence(ps, addr, len, Cell(SignCell(minus), rest));
      if Nth(ps, 2) == 0 {
        ps := Cell(0, Cell(0, Drop(Rot(TwoDrop(ps)))));
      } else {
        SignedValue(Value(base, Rest(addr)[..n]), minus);
        ps := MulInt(Roll(ps, 5));
      }
    }

    /** The cells of what has been read so far. */
    predicate Stored(sign: seq<char>, whole: seq<char>, digits: seq<char>)
      reads this
    {
      && mantissa == Wrap(Numeral.SignOf(sign) * Value(base, whole))
      && fraction == Wrap(Value(base, digits)) && fracndig == Wrap(|digits|) && exponent == 0
    }

    /** What the word leaves: a number and true, or two zeros; the cells hold the parts of the number. */
    predicate Answers(ps: Stack, r: Numeral.Reading, rest: Stack)
      reads this
    {
      match r
      case Refused => ps == Cell(0, Cell(0, rest))
      case Accepted(n) =>
        && mantissa == Numeral.Mantissa(base, n) && fraction == Numeral.Fraction(base, n)
        && fracndig == Numeral.FractionDigits(n) && exponent == Numeral.ExponentValue(base, n)
        && ps == Cell(TRUE, Cell(if Numeral.IsInteger(n) then mantissa
                                 else toReal(mantissa, fraction, fracndig, exponent, base), rest))
    }

    /** GETREAL */
    method GetReal(stack: Stack) returns (ps: Stack)
      ensures ps == Cell(TRUE, Cell(toReal(mantissa, fraction, fracndig, exponent, base), stack))
    {
      ps := stack;
      ps := Cell(TRUE, Cell(toReal(mantissa, fraction, fracndig, exponent, base), ps));
    }

    /** Behind the mark. */
    method MatchExponent(stack: Stack, ghost addr: Word, ghost len: Word, ghost rest: Stack, ghost mark: char,
        ghost sign: seq<char>, ghost whole: seq<char>, ghost digits: seq<char>) returns (ps: Stack)
      requires Readable() && CanGoBack() && InText(addr, len) && 2 <= base <= 36
      requires stack == Cell(len, Cell(addr, rest)) && Stored(sign, whole, digits)
      modifies `address0, `exponent
      ensures Answers(ps, Numeral.ReadExponent(base, sign, whole, digits, mark, Rest(addr)), rest)
    {
      hide Wrap, Numeral.DigitRun, Value;
      ps := stack;
      ps := SignedSequence(ps, addr, len, rest);
      if Nth(ps, 2) == 0 {
        ps := Cell(0, Cell(0, TwoDrop(Drop(Drop(ps)))));
        return;
      }
      exponent := Top(ps);
      ps := Drop(Drop(ps));
      if Top(ps) != 0 {
        ps := Cell(0, Cell(0, TwoDrop(ps)));
        return;
      }
      ghost var s := Rest(addr);
      ghost var i := Numeral.SignLength(s);
      assert s[i..i + Numeral.DigitRun(base, s[i..])] == s[i..];
      ps := TwoDrop(ps);
      ps := GetReal(ps);
    }

    /** Behind the digits of the fraction. */
    method MatchMark(stack: Stack, ghost addr: Word, ghost len: Word, ghost rest: Stack,
        ghost sign: seq<char>, ghost whole: seq<char>, ghost digits: seq<char>) returns (ps: Stack)
      requires Readable() && CanGoBack() && InText(addr, len) && 2 <= base <= 36 && digits != []
      requires stack == Cell(len, Cell(addr, rest)) && Stored(sign, whole, digits)
      modifies `address0, `exponent
      ensures Answers(ps, Numeral.ReadTail(base, sign, whole, digits, Rest(addr)), rest)
    {
      hide Wrap, Numeral.DigitRun, Value, Numeral.ReadExponent;
      ps := GetChar(stack, addr, len, rest);
      if Top(ps) == MINUS_ONE {
        ps := TwoDrop(Drop(ps));
        ps := GetReal(ps);
        return;
      }
      var c := Top(ps);
      assert c as char == Rest(addr)[0];
      if c == 'e' as int || c == 'E' as int || c == '\'' as int {
        ps := Drop(ps);
        RestAt(addr, 1);
        ps := MatchExponent(ps, addr + 1, len - 1, rest, Rest(addr)[0], sign, whole, digits);
        return;
      }
      ps := Cell(0, Cell(0, TwoDrop(Drop(ps))));
    }

    /** Behind the dot. */
    method MatchFraction(stack: Stack, ghost addr: Word, ghost len: Word, ghost rest: Stack,
        ghost sign: seq<char>, ghost whole: seq<char>) returns (ps: Stack)
      requires Readable() && CanGoBack() && InText(addr, len) && 2 <= base <= 36
      requires stack == Cell(len, Cell(addr, rest)) && Stored(sign, whole, [])
      modifies `address0, `fraction, `fracndig, `exponent
      ensures var t := Rest(addr);
        var m := Numeral.DigitRun(base, t);
        if m == 0 then Answers(ps, Numeral.Refused, rest)
        else Answers(ps, Numeral.ReadTail(base, sign, whole, t[..m], t[m..]), rest)
    {
      hide Wrap, Numeral.DigitRun, Value, Numeral.ReadTail, Rest;
      ps := stack;
      ghost var t := Rest(addr);
      ghost var m := Numeral.DigitRun(base, t);
      ps := DigitSequence(ps, addr, len, rest);
      if Nth(ps, 2) == 0 {
        ps := Cell(0, Cell(0, TwoDrop(Drop(Drop(ps)))));
        return;
      }
      WrapSmall(m);
      fraction := Top(ps);
      fracndig := Top(Drop(ps));
      ps := Drop(Drop(ps));
      RestAt(addr, m);
      ps := MatchMark(ps, addr + m, len - m, rest, sign, whole, t[..m]);
    }

    /** Behind the digits in front. */
    method MatchTail(stack: Stack, ghost addr: Word, ghost len: Word, ghost rest: Stack,
        ghost sign: seq<char>, ghost whole: seq<char>) returns (ps: Stack)
      requires Readable() && CanGoBack() && InText(addr, len) && 2 <= base <= 36
      requires stack == Cell(len, Cell(addr, rest)) && Stored(sign, whole, [])
      modifies `address0, `fraction, `fracndig, `exponent
      ensures Answers(ps, Numeral.ReadFraction(base, sign, whole, Rest(addr)), rest)
    {
      hide Wrap, Numeral.DigitRun, Value, Numeral.ReadExponent, Numeral.ReadFraction, Numeral.ReadTail;
      ps := stack;
      ghost var s := Rest(addr);
      Numeral.FractionCases(base, sign, whole, s);
      ps := GetChar(ps, addr, len, rest);
      if Top(ps) == MINUS_ONE {
        ps := Drop(TwoDrop(ps));
        ps := Cell(MINUS_ONE, Cell(mantissa, ps));
        return;
      }
      var c := Top(ps);
      assert c as char == s[0] && Rest(addr + 1) == s[1..];
      if c == '.' as int {
        ps := Drop(ps);
        ps := MatchFraction(ps, addr + 1, len - 1, rest, sign, whole);
        return;
      }
      if c == 'e' as int || c == 'E' as int || c == '\'' as int {
        ps := Drop(ps);
        ps := MatchExponent(ps, addr + 1, len - 1, rest, s[0], sign, whole, []);
        return;
      }
      ps := Cell(0, Cell(0, TwoDrop(Drop(ps))));
    }

    /** ?MATCHNUM: a number and true if the text is one, and two zeros if it is not. */
    method MatchNum(stack: Stack, ghost addr: Word, ghost len: Word, ghost rest: Stack) returns (ps: Stack)
      requires Readable() && CanGoBack() && InText(addr, len) && stack == Cell(len, Cell(addr, rest))
      modifies this
      ensures base == if 2 <= old(base) <= 36 then old(base) else 10
      ensures Answers(ps, Numeral.Read(base, Rest(addr)), rest)
    {
      hide Wrap, Numeral.DigitRun, Value, Numeral.ReadFraction, Rest, CheckedBase;
      CheckBase();
      ghost var s := Rest(addr);
      ghost var i := Numeral.SignLength(s);
      ghost var n := Numeral.DigitRun(base, s[i..]);
      ps := SignedSequence(stack, addr, len, rest);
      assert s[i..][..n] == s[i..i + n];
      if Top(Drop(ps)) == 0 {
        ps := Cell(0, Cell(0, TwoDrop(Drop(Drop(ps)))));
        return;
      }
      mantissa := Top(ps);
      fraction, fracndig, exponent := 0, 0, 0;
      ps := Drop(Drop(ps));
      WrapSmall(0);
      ValueOfNothing(base);
      RestAt(addr, i);
      RestAt(addr + i, n);
      ps := MatchTail(ps, addr + i + n, len - i - n, rest, s[..i], s[i..][..n]);
    }
  }

  lemma ValueOfNothing(base: Word)
    ensures Value(base, []) == 0
  {}

  lemma SliceOf(s: seq<char>, i: nat, n: nat)
    requires i + n <= |s|
    ensures s[i..][..n] == s[i..i + n]
  {}

  lemma NothingRuns(base: Word, s: seq<char>)
    ensures s == [] ==> Numeral.SignLength(s) == 0 && Numeral.DigitRun(base, s[0..]) == 0
  {}

  lemma SignedValue(v: int, minus: bool)
    ensures Wrap(Wrap(v) * SignCell(minus)) == Wrap((if minus then -1 else 1) * v)
  {
    WrapTimes(v, SignCell(minus));
    if minus {
      assert v * MINUS_ONE == -v + v * TWO64;
      WrapMultiple(-v, v);
    }
  }
}
