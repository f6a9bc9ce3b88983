/** U>DOT, `.` and the DOT buffer: integers printed in the current base, and the round trip through the reader. */
module NumberWriter {
  import opened Words
  import opened Positional
  import opened Sequences
  import Numeral

  const CAPACITY := 255

  function DigitChar(d: Word): (c: char)
    requires d < 36
    ensures DigitOf(c) == d && c as int < 256
  {
    if d > 9 then (d - 10 + 'A' as int) as char else (d + '0' as int) as char
  }

  function UDiv(n: Word, b: Word): (q: Word)
    requires b >= 2
    ensures n >= b ==> 1 <= q < n
  {
    Division(n, b);
    n / b
  }

  lemma Division(n: nat, b: nat)
    requires b >= 2
    ensures 0 <= n / b <= n && (n >= b ==> 1 <= n / b < n)
  {
    var q, r := n / b, n % b;
    assert n == b * q + r;
    assert q >= 0 ==> b * q >= 2 * q;
    assert q <= 0 ==> b * q <= 0;
  }

  function UMod(n: Word, b: Word): (r: Word)
    requires b >= 2
    ensures r < b
  {
    n % b
  }

  lemma Quotient(n: Word, b: Word, p: nat)
    requires b >= 2
    ensures p <= UDiv(n, b) ==> b * p <= n
    ensures n == UDiv(n, b) * b + UMod(n, b)
  {
    if p <= n / b {
      assert b * p <= b * (n / b);
    }
  }

  /** The digits of `n`, most significant first. */
  function Digits(base: Word, n: Word): (s: seq<char>)
    requires 2 <= base <= 36
    decreases n
  {
    if n < base then [DigitChar(n)] else Digits(base, UDiv(n, base)) + [DigitChar(UMod(n, base))]
  }

  /** What `.` prints in front of the blank. */
  function Printed(base: Word, n: Word): seq<char>
    requires 2 <= base <= 36
  {
    if n < TWO63 then Digits(base, n) else ['-'] + Digits(base, Wrap(0 - n))
  }

  /** What fits into the DOT buffer. */
  function Clip(s: seq<char>): seq<char> {
    if |s| <= CAPACITY then s else s[..CAPACITY]
  }

  class Writer {
    /** A counted string: the length, then up to 255 characters. */
    const dot: array<char>
    var base: Word
    /** What has been sent to the output device. */
    var output: seq<char>

    constructor (base: Word)
      ensures Valid() && fresh(dot) && Buffer() == [] && this.base == base && output == []
    {
      this.base, output := base, [];
      dot := new char[256](i => 0 as char);
    }

    predicate Valid()
      reads dot
    {
      dot.Length == 256 && dot[0] as int <= CAPACITY
    }

    /** The contents of the DOT buffer. */
    function Buffer(): (s: seq<char>)
      requires Valid()
      reads dot
      ensures |s| <= CAPACITY
    {
      dot[1..1 + dot[0] as int]
    }

    /** 0 DOT C! */
    method Clear()
      requires Valid()
      modifies dot
      ensures Valid() && Buffer() == []
    {
      dot[0] := 0 as char;
    }

    /** >DOT */
    method ToDot(c: char)
      requires Valid()
      modifies dot
      ensures Valid() && Buffer() == Clip(old(Buffer()) + [c])
      ensures Buffer() == if |old(Buffer())| < 255 then old(Buffer()) + [c] else old(Buffer())
    {
      var len := dot[0] as int;
      if len < 255 {
        len := len + 1;
        dot[0] := len as char;
        dot[len] := c;
      }
    }

    /** PRINTDOT */
    method PrintDot()
      requires Valid()
      modifies `output
      ensures output == old(output) + Buffer()
    {
      if dot[0] as int != 0 {
        output := output + dot[1..1 + dot[0] as int];
      }
    }

    /** EMIT */
    method EmitChar(c: char)
      requires Valid()
      modifies dot, `output
      ensures Valid() && output == old(output) + [c] && Buffer() == [c]
    {
      Clear();
      ToDot(c);
      PrintDot();
    }

    /** U>DOT */
    method UToDot(n: Word)
      requires Valid() && 2 <= base <= 36
      modifies dot
      ensures Valid() && Buffer() == Clip(old(Buffer()) + Digits(base, n))
      decreases n
    {
      hide UDiv, UMod, Clip;
      var digit := n;
      if n >= base {
        UToDot(UDiv(n, base));
        ClipTwice(old(Buffer()) + Digits(base, UDiv(n, base)), [DigitChar(UMod(n, base))]);
        Assoc(old(Buffer()), Digits(base, UDiv(n, base)), [DigitChar(UMod(n, base))]);
        digit := UMod(n, base);
      }
      if digit > 9 {
        ToDot((digit - 10 + 'A' as int) as char);
      } else {
        ToDot((digit + '0' as int) as char);
      }
    }

    /** U. */
    method UDot(n: Word)
      requires Valid() && 2 <= base <= 36
      modifies dot, `output
      ensures Valid() && output == old(output) + (Digits(base, n) + [' '])
    {
      Clear();
      UToDot(n);
      FitsBuffer(base, n);
      assert [] + Digits(base, n) == Digits(base, n);
      PrintDot();
      EmitChar(' ');
    }

    /** `.` */
    method Dot(n: Word)
      requires Valid() && 2 <= base <= 36
      modifies dot, `output
      ensures Valid() && output == old(output) + (Printed(base, n) + [' '])
    {
      hide Digits, Wrap, Clip;
      Clear();
      var m := n;
      if Signed(n) < 0 {
        ToDot('-');
        m := Wrap(0 - n);
      }
      ghost var sign := if n < TWO63 then [] else ['-'];
      assert [] + sign == sign;
      ClipShort(sign);
      UToDot(m);
      FitsBuffer(base, m);
      ClipShort(sign + Digits(base, m));
      assert Buffer() == Printed(base, n) by {
        assert [] + Digits(base, m) == Digits(base, m);
      }
      PrintDot();
      EmitChar(' ');
      Assoc(old(output), Printed(base, n), [' ']);
    }
  }

  lemma ClipShort(s: seq<char>)
    requires |s| <= CAPACITY
    ensures Clip(s) == s
  {}

  lemma ClipTwice(s: seq<char>, t: seq<char>)
    ensures Clip(Clip(s) + t) == Clip(s + t)
  {
    if |s| > CAPACITY {
      assert (s[..CAPACITY] + t)[..CAPACITY] == s[..CAPACITY] == (s + t)[..CAPACITY];
    }
  }

  /** The printed digits are digits of the base and have the value that is printed; their number is logarithmic. */
  lemma {:induction false} DigitsAreExact(base: Word, n: Word)
    requires 2 <= base <= 36
    ensures Numeral.IsDigits(base, Digits(base, n)) && Value(base, Digits(base, n)) == n
    ensures |Digits(base, n)| >= 2 ==> Pow(base, |Digits(base, n)| - 1) <= n
    ensures Digits(base, n)[0] == '0' <==> n == 0
  {
    hide UDiv, UMod, DigitOf, Value, Pow, DigitChar;
    if n < base {
      SingleDigit(base, n);
    } else {
      var s, c := Digits(base, UDiv(n, base)), DigitChar(UMod(n, base));
      DigitsAreExact(base, UDiv(n, base));
      ValueStep(base, s + [c]);
      assert (s + [c])[..|s|] == s;
      PowStep(base, |s|);
      Quotient(n, base, Pow(base, |s| - 1));
      Quotient(n, base, 1);
    }
  }

  lemma PowStep(base: nat, n: nat)
    requires n >= 1
    ensures Pow(base, n) == base * Pow(base, n - 1) && Pow(base, 0) == 1
  {}

  lemma SingleDigit(base: Word, n: Word)
    requires 2 <= base <= 36 && n < base
    ensures Value(base, [DigitChar(n)]) == n && (DigitChar(n) == '0' <==> n == 0)
  {
    ValueStep(base, [DigitChar(n)]);
    assert [DigitChar(n)][..0] == [];
  }

  /** Even in base two, and with a sign, a number takes at most 65 characters: nothing is ever clipped. */
  lemma FitsBuffer(base: Word, n: Word)
    requires 2 <= base <= 36
    ensures |Digits(base, n)| <= 64 && |Printed(base, n)| <= 65
  {
    LengthBound(base, n);
    LengthBound(base, Wrap(0 - n));
  }

  lemma LengthBound(base: Word, n: Word)
    requires 2 <= base <= 36
    ensures |Digits(base, n)| <= 64
  {
    DigitsAreExact(base, n);
    var k := |Digits(base, n)|;
    if k > 64 {
      PowGrowsFast(base, k - 1);
    }
  }

  lemma {:induction false} PowGrowsFast(base: nat, n: nat)
    requires base >= 2 && n >= 64
    ensures Pow(base, n) >= TWO64
  {
    PowAdds(base, 64, n - 64);
    PowBase(base, 64);
    TwoTo64();
    assert Pow(base, 64) * Pow(base, n - 64) >= Pow(base, 64) by {
      assert Pow(base, n - 64) >= 1;
    }
  }

  lemma {:induction false} PowBase(base: nat, n: nat)
    requires base >= 2
    ensures Pow(base, n) >= Pow2(n)
  {
    if n != 0 {
      PowBase(base, n - 1);
      assert base * Pow(base, n - 1) >= 2 * Pow(base, n - 1);
    }
  }

  lemma TwoTo64()
    ensures Pow2(64) == TWO64
  {
    Pow2Is64();
  }

  /** Digits with or without a minus sign are read back as one integer. */
  lemma ReadBack(base: Word, minus: bool, digits: seq<char>)
    requires Numeral.IsDigits(base, digits)
    ensures var sign := if minus then ['-'] else [];
      Numeral.Read(base, sign + digits) == Numeral.Accepted(Numeral.Numeral(sign, digits, [], Numeral.Absent))
  {
    var sign := if minus then ['-'] else [];
    var n := Numeral.Numeral(sign, digits, [], Numeral.Absent);
    assert digits + ([] + []) == digits;
    assert Numeral.Text(n) == sign + digits;
    Numeral.ReadIsComplete(base, n);
  }

  lemma Negation(n: Word)
    ensures Wrap(-1 * Wrap(0 - n)) == n && Wrap(n) == n
  {}

  /** Parsing what `.` prints returns the cell that was printed, -2^63 included. */
  lemma SignedRoundTrip(base: Word, n: Word)
    requires 2 <= base <= 36
    ensures var r := Numeral.Read(base, Printed(base, n));
      r.Accepted? && Numeral.IsInteger(r.numeral) && Numeral.Mantissa(base, r.numeral) == n
  {
    hide Digits, Value, DigitOf, Numeral.Read, Wrap;
    var m := if n < TWO63 then n else Wrap(0 - n);
    DigitsAreExact(base, m);
    ReadBack(base, n >= TWO63, Digits(base, m));
    assert [] + Digits(base, m) == Digits(base, m);
    Negation(n);
  }

  /** Parsing what U. prints returns the cell that was printed. */
  lemma UnsignedRoundTrip(base: Word, n: Word)
    requires 2 <= base <= 36
    ensures var r := Numeral.Read(base, Digits(base, n));
      r.Accepted? && Numeral.IsInteger(r.numeral) && Numeral.Mantissa(base, r.numeral) == n
  {
    hide Digits, Value, DigitOf, Numeral.Read, Wrap;
    Negation(n);
    DigitsAreExact(base, n);
    ReadBack(base, false, Digits(base, n));
    assert [] + Digits(base, n) == Digits(base, n);
  }
}
