/** Positional notation: digits up to base 36, the value of a digit string, and of a number with dot and exponent. */
module Positional {
  /** What a character stands for as a digit; -1 if it is none. */
  function DigitOf(c: char): (d: int)
    ensures -1 <= d < 36
  {
    if '0' <= c <= '9' then c as int - '0' as int
    else if 'A' <= c <= 'Z' then c as int - 'A' as int + 10
    else if 'a' <= c <= 'z' then c as int - 'a' as int + 10
    else -1
  }

  predicate AllDigits(s: seq<char>) {
    forall i :: 0 <= i < |s| ==> DigitOf(s[i]) >= 0
  }

  function Pow(b: nat, n: nat): (p: nat)
    ensures b >= 1 ==> p >= 1
  {
    if n == 0 then 1 else b * Pow(b, n - 1)
  }

  lemma Associate(x: int, y: int, z: int)
    ensures x * (y * z) == x * y * z
  {}

  lemma {:induction false} PowAdds(b: nat, m: nat, n: nat)
    ensures Pow(b, m + n) == Pow(b, m) * Pow(b, n)
  {
    if m != 0 {
      PowAdds(b, m - 1, n);
      Associate(b, Pow(b, m - 1), Pow(b, n));
    }
  }

  lemma {:induction false} PowGrows(b: nat, n: nat)
    requires b >= 2
    ensures Pow(b, n) > n
  {
    if n != 0 {
      PowGrows(b, n - 1);
      assert b * Pow(b, n - 1) >= 2 * Pow(b, n - 1);
    }
  }

  /** The value of a digit string, most significant digit first. */
  function Value(b: nat, s: seq<char>): int {
    if s == [] then 0 else Value(b, s[..|s| - 1]) * b + DigitOf(s[|s| - 1])
  }

  lemma ValueStep(b: nat, s: seq<char>)
    requires s != []
    ensures Value(b, s) == Value(b, s[..|s| - 1]) * b + DigitOf(s[|s| - 1])
  {}

  lemma Regroup(x: int, p: int, b: int, u: int, d: int)
    ensures (x * p + u) * b + d == x * (b * p) + (u * b + d)
  {
    assert x * p * b == x * (b * p);
  }

  lemma {:induction false} ValueConcat(b: nat, s: seq<char>, t: seq<char>)
    ensures Value(b, s + t) == Value(b, s) * Pow(b, |t|) + Value(b, t)
  {
    hide DigitOf;
    if t == [] {
      assert s + t == s;
    } else {
      var u := t[..|t| - 1];
      ValueConcat(b, s, u);
      ValueStep(b, s + t);
      ValueStep(b, t);
      assert (s + t)[..|s + t| - 1] == s + u;
      Regroup(Value(b, s), Pow(b, |u|), b, Value(b, u), DigitOf(t[|t| - 1]));
    }
  }

  lemma {:induction false} ValueNonNegative(b: nat, s: seq<char>)
    requires AllDigits(s)
    ensures Value(b, s) >= 0
  {
    hide DigitOf;
    if s != [] {
      ValueNonNegative(b, s[..|s| - 1]);
      NatTimes(Value(b, s[..|s| - 1]), b);
    }
  }

  lemma NatTimes(x: nat, y: nat)
    ensures x * y >= 0
  {
  }

  /** A digit string is worth zero exactly if all its digits are. */
  lemma {:induction false} ValueZero(b: nat, s: seq<char>)
    requires AllDigits(s) && b >= 2
    ensures Value(b, s) == 0 <==> forall i :: 0 <= i < |s| ==> s[i] == '0'
  {
    if s != [] {
      var t := s[..|s| - 1];
      ValueNonNegative(b, t);
      ValueZero(b, t);
      if Value(b, t) > 0 {
        assert Value(b, t) * b > 0;
      }
      assert forall i :: 0 <= i < |t| ==> s[i] == t[i];
    }
  }

  function Zeros(n: nat): (z: seq<char>)
    ensures |z| == n && AllDigits(z)
  {
    seq(n, i => '0')
  }

  lemma ValueZeros(b: nat, n: nat)
    requires b >= 2
    ensures Value(b, Zeros(n)) == 0
  {
    ValueZero(b, Zeros(n));
  }

  /** Where the dot is; the length of the text if there is none. */
  function DotAt(s: seq<char>): (k: nat)
    ensures k <= |s|
    ensures forall i :: 0 <= i < k ==> s[i] != '.'
    ensures k < |s| ==> s[k] == '.'
  {
    if s == [] || s[0] == '.' then 0 else 1 + DotAt(s[1..])
  }

  /** The digits of a number without its dot. */
  function Mantissa(s: seq<char>): seq<char> {
    if DotAt(s) < |s| then s[..DotAt(s)] + s[DotAt(s) + 1..] else s
  }

  /** The digits behind the dot. */
  function Places(s: seq<char>): (n: nat)
    ensures n <= |s|
  {
    if DotAt(s) < |s| then |s| - DotAt(s) - 1 else 0
  }

  lemma {:induction false} FirstDot(s: seq<char>, k: nat)
    requires k < |s| && s[k] == '.' && forall i :: 0 <= i < k ==> s[i] != '.'
    ensures DotAt(s) == k
  {
    if k > 0 {
      FirstDot(s[1..], k - 1);
    }
  }

  lemma DotApart(whole: seq<char>, fraction: seq<char>)
    requires AllDigits(whole)
    ensures DotAt(whole + ['.'] + fraction) == |whole|
  {
    hide DotAt, DigitOf;
    var s := whole + ['.'] + fraction;
    forall i | 0 <= i < |whole|
      ensures s[i] != '.'
    {
      DotIsNoDigit(whole[i]);
    }
    FirstDot(s, |whole|);
  }

  lemma DotIsNoDigit(c: char)
    requires DigitOf(c) >= 0
    ensures c != '.'
  {
  }

  lemma MantissaOf(whole: seq<char>, fraction: seq<char>)
    requires AllDigits(whole)
    ensures Mantissa(whole + ['.'] + fraction) == whole + fraction
    ensures Places(whole + ['.'] + fraction) == |fraction|
  {
    hide DotAt, AllDigits;
    DotApart(whole, fraction);
    var s := whole + ['.'] + fraction;
    assert s[..|whole|] == whole && s[|whole| + 1..] == fraction;
  }

  lemma MantissaOfWhole(whole: seq<char>)
    requires AllDigits(whole)
    ensures Mantissa(whole) == whole && Places(whole) == 0
  {
    var k := DotAt(whole);
    assert k == |whole| || DigitOf(whole[k]) >= 0;
  }

  /** m·b^e and n·b^f are the same number. */
  predicate SameNumber(b: nat, m: int, e: int, n: int, f: int) {
    if e >= f then m * Pow(b, e - f) == n else m == n * Pow(b, f - e)
  }

  /** Two texts with exponents, read in base `b`, are the same number. */
  predicate SameValue(b: nat, s: seq<char>, e: int, t: seq<char>, f: int) {
    SameNumber(b, Value(b, Mantissa(s)), e - Places(s), Value(b, Mantissa(t)), f - Places(t))
  }
}
