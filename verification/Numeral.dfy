/** The grammar of number texts, [+-]digits[.digits][(e|E|')[+-]digits], and the greedy reading that decides it. */
module Numeral {
  import opened Words
  import opened Positional

  datatype Exponent = Absent | Exponent(mark: char, sign: seq<char>, digits: seq<char>)

  /** A number text taken apart; `fraction` is empty if there is no dot. */
  datatype Numeral = Numeral(sign: seq<char>, whole: seq<char>, fraction: seq<char>, exponent: Exponent)

  datatype Reading = Refused | Accepted(numeral: Numeral)

  predicate IsDigit(base: nat, c: char) {
    0 <= DigitOf(c) < base
  }

  predicate IsMark(c: char) {
    c == 'e' || c == 'E' || c == '\''
  }

  predicate IsSign(sign: seq<char>) {
    sign == [] || sign == ['+'] || sign == ['-']
  }

  predicate IsDigits(base: nat, s: seq<char>) {
    s != [] && forall i :: 0 <= i < |s| ==> IsDigit(base, s[i])
  }

  predicate WellFormedExponent(base: nat, x: Exponent) {
    x.Absent? || (IsMark(x.mark) && !IsDigit(base, x.mark) && IsSign(x.sign) && IsDigits(base, x.digits))
  }

  /** The grammar: a mark is one only where it is not a digit. */
  predicate WellFormed(base: nat, n: Numeral) {
    && IsSign(n.sign) && IsDigits(base, n.whole)
    && (n.fraction == [] || IsDigits(base, n.fraction))
    && WellFormedExponent(base, n.exponent)
  }

  function ExponentText(x: Exponent): seq<char> {
    if x.Absent? then [] else [x.mark] + (x.sign + x.digits)
  }

  function FractionText(fraction: seq<char>): seq<char> {
    if fraction == [] then [] else ['.'] + fraction
  }

  function Text(n: Numeral): seq<char> {
    n.sign + (n.whole + (FractionText(n.fraction) + ExponentText(n.exponent)))
  }

  /** The length of the digits a text begins with. */
  function DigitRun(base: nat, s: seq<char>): (n: nat)
    ensures n <= |s|
    ensures forall i :: 0 <= i < n ==> IsDigit(base, s[i])
    ensures n < |s| ==> !IsDigit(base, s[n])
  {
    if s == [] || !IsDigit(base, s[0]) then 0 else 1 + DigitRun(base, s[1..])
  }

  function SignLength(s: seq<char>): (n: nat)
    ensures n <= 1 && n <= |s|
  {
    if s != [] && (s[0] == '+' || s[0] == '-') then 1 else 0
  }

  /** What follows a mark: a sign, and digits up to the end of the text. */
  function ReadExponent(base: nat, sign: seq<char>, whole: seq<char>, fraction: seq<char>, mark: char,
                        s: seq<char>): Reading {
    var i := SignLength(s);
    var n := DigitRun(base, s[i..]);
    if n == 0 || i + n != |s| then Refused
    else Accepted(Numeral(sign, whole, fraction, Exponent(mark, s[..i], s[i..])))
  }

  /** What follows the digits before or after the dot. */
  function ReadTail(base: nat, sign: seq<char>, whole: seq<char>, fraction: seq<char>, s: seq<char>): Reading {
    if s == [] then Accepted(Numeral(sign, whole, fraction, Absent))
    else if IsMark(s[0]) then ReadExponent(base, sign, whole, fraction, s[0], s[1..])
    else Refused
  }

  /** What follows the digits in front: perhaps a dot and more digits. */
  function ReadFraction(base: nat, sign: seq<char>, whole: seq<char>, s: seq<char>): Reading {
    if s != [] && s[0] == '.' then
      var t := s[1..];
      var m := DigitRun(base, t);
      if m == 0 then Refused else ReadTail(base, sign, whole, t[..m], t[m..])
    else ReadTail(base, sign, whole, [], s)
  }

  lemma FractionCases(base: nat, sign: seq<char>, whole: seq<char>, s: seq<char>)
    ensures var r := ReadFraction(base, sign, whole, s);
      if s == [] then r == Accepted(Numeral(sign, whole, [], Absent))
      else if s[0] == '.' then
        var m := DigitRun(base, s[1..]);
        r == if m == 0 then Refused else ReadTail(base, sign, whole, s[1..][..m], s[1..][m..])
      else r == if IsMark(s[0]) then ReadExponent(base, sign, whole, [], s[0], s[1..]) else Refused
  {
  }

  function Read(base: nat, s: seq<char>): Reading {
    var sign, t := s[..SignLength(s)], s[SignLength(s)..];
    var n := DigitRun(base, t);
    if n == 0 then Refused else ReadFraction(base, sign, t[..n], t[n..])
  }

  function SignOf(sign: seq<char>): int {
    if sign == ['-'] then -1 else 1
  }

  /** The cells a number text stands for: everything modulo 2^64. */
  function Mantissa(base: nat, n: Numeral): Word {
    Wrap(SignOf(n.sign) * Value(base, n.whole))
  }

  function Fraction(base: nat, n: Numeral): Word {
    Wrap(Value(base, n.fraction))
  }

  function FractionDigits(n: Numeral): Word {
    Wrap(|n.fraction|)
  }

  function ExponentValue(base: nat, n: Numeral): Word {
    if n.exponent.Absent? then 0 else Wrap(SignOf(n.exponent.sign) * Value(base, n.exponent.digits))
  }

  predicate IsInteger(n: Numeral) {
    n.fraction == [] && n.exponent.Absent?
  }

  /** Digits followed by something that is none are read completely and no further. */
  lemma {:induction false} DigitRunOf(base: nat, digits: seq<char>, rest: seq<char>)
    requires forall i :: 0 <= i < |digits| ==> IsDigit(base, digits[i])
    requires rest == [] || !IsDigit(base, rest[0])
    ensures DigitRun(base, digits + rest) == |digits|
  {
    if digits == [] {
      assert digits + rest == rest;
    } else {
      DigitRunOf(base, digits[1..], rest);
      assert (digits + rest)[1..] == digits[1..] + rest;
    }
  }

  lemma Slices(a: seq<char>, b: seq<char>)
    ensures (a + b)[..|a|] == a && (a + b)[|a|..] == b
  {}

  lemma SplitDigits(base: nat, s: seq<char>)
    ensures var n := DigitRun(base, s);
      && s == s[..n] + s[n..]
      && (n > 0 ==> IsDigits(base, s[..n]))
      && (s[n..] == [] || !IsDigit(base, s[n..][0]))
  {}

  lemma SplitSign(s: seq<char>)
    ensures var i := SignLength(s); IsSign(s[..i]) && s == s[..i] + s[i..]
  {}

  lemma SignLengthOf(base: nat, sign: seq<char>, digits: seq<char>, rest: seq<char>)
    requires IsSign(sign) && IsDigits(base, digits)
    ensures SignLength(sign + (digits + rest)) == |sign|
  {
    assert (digits + rest)[0] == digits[0];
  }

  /** Sign and digits behind a mark. */
  lemma ReadExponentIsSound(base: nat, sign: seq<char>, whole: seq<char>, fraction: seq<char>, mark: char, t: seq<char>)
    ensures var r := ReadExponent(base, sign, whole, fraction, mark, t);
      r.Accepted? ==>
        && r.numeral == Numeral(sign, whole, fraction, Exponent(mark, t[..SignLength(t)], t[SignLength(t)..]))
        && IsSign(t[..SignLength(t)]) && IsDigits(base, t[SignLength(t)..])
        && ExponentText(r.numeral.exponent) == [mark] + t
  {
    hide DigitRun, IsDigits, IsDigit, IsSign, SignLength, ExponentText;
    var i := SignLength(t);
    SplitSign(t);
    AllDigitRun(base, t[i..]);
    ExponentParts(mark, t, i);
  }

  lemma AllDigitRun(base: nat, s: seq<char>)
    ensures DigitRun(base, s) == |s| > 0 ==> IsDigits(base, s)
  {
    hide DigitRun, IsDigits, IsDigit;
    SplitDigits(base, s);
    assert s[..|s|] == s;
  }

  lemma ExponentParts(mark: char, t: seq<char>, i: nat)
    requires i <= |t|
    ensures ExponentText(Exponent(mark, t[..i], t[i..])) == [mark] + t
  {
  }

  lemma ReadTailIsSound(base: nat, sign: seq<char>, whole: seq<char>, fraction: seq<char>, s: seq<char>)
    requires IsSign(sign) && IsDigits(base, whole) && (fraction == [] || IsDigits(base, fraction))
    requires s == [] || !IsDigit(base, s[0])
    ensures var r := ReadTail(base, sign, whole, fraction, s);
      r.Accepted? ==> WellFormed(base, r.numeral) && Text(r.numeral) == sign + (whole + (FractionText(fraction) + s))
  {
    hide DigitRun, IsDigits, IsDigit, IsSign, IsMark, FractionText, ReadExponent, ExponentText, SignLength;
    if s == [] {
      NoExponent();
    } else if IsMark(s[0]) {
      ReadExponentIsSound(base, sign, whole, fraction, s[0], s[1..]);
      assert s == [s[0]] + s[1..];
    }
  }

  lemma NoExponent()
    ensures ExponentText(Absent) == []
  {}

  lemma ReadFractionIsSound(base: nat, sign: seq<char>, whole: seq<char>, s: seq<char>)
    requires IsSign(sign) && IsDigits(base, whole) && (s == [] || !IsDigit(base, s[0]))
    ensures var r := ReadFraction(base, sign, whole, s);
      r.Accepted? ==> WellFormed(base, r.numeral) && Text(r.numeral) == sign + (whole + s)
  {
    hide DigitRun, IsDigits, IsDigit, IsSign, ReadTail, WellFormed, Text;
    if s != [] && s[0] == '.' {
      var t := s[1..];
      var m := DigitRun(base, t);
      SplitDigits(base, t);
      if m > 0 {
        ReadTailIsSound(base, sign, whole, t[..m], t[m..]);
        assert s == ['.'] + (t[..m] + t[m..]) == FractionText(t[..m]) + t[m..];
      }
    } else {
      ReadTailIsSound(base, sign, whole, [], s);
      assert FractionText([]) + s == s;
    }
  }

  /** Whatever is accepted is the text of a well-formed numeral. */
  lemma ReadIsSound(base: nat, s: seq<char>)
    ensures Read(base, s).Accepted? ==> WellFormed(base, Read(base, s).numeral) && Text(Read(base, s).numeral) == s
  {
    hide DigitRun, IsDigits, IsDigit, IsSign, ReadFraction, WellFormed, Text;
    var t := s[SignLength(s)..];
    SplitSign(s);
    SplitDigits(base, t);
    if DigitRun(base, t) > 0 {
      ReadFractionIsSound(base, s[..SignLength(s)], t[..DigitRun(base, t)], t[DigitRun(base, t)..]);
    }
  }

  lemma ReadTailOf(base: nat, n: Numeral)
    requires WellFormed(base, n)
    ensures ReadTail(base, n.sign, n.whole, n.fraction, ExponentText(n.exponent)) == Accepted(n)
  {
    hide DigitRun, IsDigit;
    var x := n.exponent;
    if x.Exponent? {
      var t := x.sign + x.digits;
      assert ExponentText(x)[1..] == t;
      assert x.digits + [] == x.digits;
      SignLengthOf(base, x.sign, x.digits, []);
      Slices(x.sign, x.digits);
      DigitRunOf(base, x.digits, []);
    }
  }

  lemma ReadFractionOf(base: nat, n: Numeral)
    requires WellFormed(base, n)
    ensures ReadFraction(base, n.sign, n.whole, FractionText(n.fraction) + ExponentText(n.exponent)) == Accepted(n)
  {
    hide DigitRun, IsDigit, ReadTail, ExponentText;
    var exponent := ExponentText(n.exponent);
    ReadTailOf(base, n);
    NoDigit(base, n);
    if n.fraction == [] {
      assert [] + exponent == exponent;
    } else {
      assert (FractionText(n.fraction) + exponent)[1..] == n.fraction + exponent;
      DigitRunOf(base, n.fraction, exponent);
      Slices(n.fraction, exponent);
    }
  }

  /** Every well-formed numeral is read back from its text. */
  lemma ReadIsComplete(base: nat, n: Numeral)
    requires WellFormed(base, n)
    ensures Read(base, Text(n)) == Accepted(n)
  {
    hide DigitRun, IsDigit, ReadFraction, SignLength, FractionText, ExponentText;
    var tail := FractionText(n.fraction) + ExponentText(n.exponent);
    SignLengthOf(base, n.sign, n.whole, tail);
    Slices(n.sign, n.whole + tail);
    Slices(n.whole, tail);
    NoDigit(base, n);
    DigitRunOf(base, n.whole, tail);
    ReadFractionOf(base, n);
  }

  lemma NoDigit(base: nat, n: Numeral)
    requires WellFormed(base, n)
    ensures var x := ExponentText(n.exponent); x == [] || (!IsDigit(base, x[0]) && x[0] != '.')
    ensures var t := FractionText(n.fraction) + ExponentText(n.exponent);
      t == [] || (!IsDigit(base, t[0]) && (t[0] == '.' <==> n.fraction != []))
  {}

  /** A text is accepted exactly if it is in the grammar, and then it is taken apart in the one possible way. */
  lemma ReadDecides(base: nat, s: seq<char>)
    ensures Read(base, s).Accepted? <==> exists n :: WellFormed(base, n) && Text(n) == s
    ensures forall n :: WellFormed(base, n) && Text(n) == s ==> Read(base, s) == Accepted(n)
  {
    hide Read, WellFormed, Text;
    ReadIsSound(base, s);
    forall n | WellFormed(base, n) && Text(n) == s
      ensures Read(base, s) == Accepted(n)
    {
      ReadIsComplete(base, n);
    }
  }

  lemma TwoTexts()
    ensures Text(Numeral([], "1e2", [], Absent)) == "1e2"
    ensures Text(Numeral([], "1", [], Exponent('e', [], "2"))) == "1e2"
  {}

  /** An 'e' is a digit in base fifteen: the text is then one integer. */
  lemma MarkMayBeDigit()
    ensures Read(15, "1e2") == Accepted(Numeral([], "1e2", [], Absent))
    ensures Read(14, "1e2") == Accepted(Numeral([], "1", [], Exponent('e', [], "2")))
  {
    hide Read, Text;
    ReadIsComplete(15, Numeral([], "1e2", [], Absent));
    ReadIsComplete(14, Numeral([], "1", [], Exponent('e', [], "2")));
    TwoTexts();
  }

  /** The four cells a number is stored in. */
  datatype Cells = Cells(mantissa: Word, fraction: Word, fracndig: Word, exponent: Word)

  function CellsOf(base: nat, n: Numeral): Cells {
    Cells(Mantissa(base, n), Fraction(base, n), FractionDigits(n), ExponentValue(base, n))
  }

  /** The sign is lost exactly if the whole part is worth a multiple of 2^63, zero above all. */
  lemma SignIsLost(base: nat, n: Numeral)
    ensures CellsOf(base, n.(sign := ['-'])) == CellsOf(base, n.(sign := ['+'])) <==>
            Value(base, n.whole) % TWO63 == 0
    ensures CellsOf(base, n.(sign := [])) == CellsOf(base, n.(sign := ['+']))
  {
    OppositeCells(Value(base, n.whole));
  }

  lemma OppositeCells(v: int)
    ensures Wrap(-v) == Wrap(v) <==> v % TWO63 == 0
  {
    var q, r := v / TWO63, v % TWO63;
    assert v == q * TWO63 + r;
    if r == 0 {
      assert v - -v == q * TWO64;
      SameRemainder(-v, v, q);
    } else if Wrap(-v) == Wrap(v) {
      var a, b := v / TWO64, -v / TWO64;
      assert v - -v == (a - b) * TWO64;
      assert v == (a - b) * TWO63;
      Multiple(a - b);
    }
  }

  lemma SameRemainder(x: int, y: int, q: int)
    requires y == x + q * TWO64
    ensures Wrap(x) == Wrap(y)
  {}

  lemma Multiple(q: int)
    ensures (q * TWO63) % TWO63 == 0
  {}

  /** -0.5 and 0.5 are stored alike. */
  lemma HalfLosesSign()
    ensures Read(10, "-0.5") == Accepted(Numeral("-", "0", "5", Absent))
    ensures Read(10, "0.5") == Accepted(Numeral("", "0", "5", Absent))
    ensures CellsOf(10, Numeral("-", "0", "5", Absent)) == CellsOf(10, Numeral("", "0", "5", Absent))
  {
    hide Read, Text, CellsOf, Value;
    var minus, plus := Numeral("-", "0", "5", Absent), Numeral("", "0", "5", Absent);
    HalfTexts();
    ReadIsComplete(10, minus);
    ReadIsComplete(10, plus);
    ValueZero(10, "0");
    SignIsLost(10, plus);
    assert plus.(sign := ['-']) == minus && plus.(sign := []) == plus;
  }

  lemma HalfTexts()
    ensures Text(Numeral("-", "0", "5", Absent)) == "-0.5" && Text(Numeral("", "0", "5", Absent)) == "0.5"
  {
    hide DigitOf;
    var front, tail := "0", "." + "5";
    assert FractionText("5") + ExponentText(Absent) == tail;
    assert front + tail == "0.5" && "-" + "0.5" == "-0.5";
  }

  lemma EightZeros()
    ensures "8000000000000000" == "8" + Zeros(15) && AllDigits("8") && AllDigits("8000000000000000")
  {
    assert "8000000000000000" == "8" + Zeros(15);
  }

  /** So are -2^63 and 2^63 with a fraction, here in base sixteen. */
  lemma LargeLosesSign()
    ensures var whole := "8000000000000000";
      && Value(16, whole) == TWO63
      && CellsOf(16, Numeral("-", whole, "8", Absent)) == CellsOf(16, Numeral("", whole, "8", Absent))
  {
    hide DigitOf, Value, CellsOf, Zeros;
    var whole := "8000000000000000";
    EightZeros();
    ValueConcat(16, "8", Zeros(15));
    ValueZeros(16, 15);
    SixteenTo15();
    EightIsEight();
    var plus := Numeral("", whole, "8", Absent);
    SignIsLost(16, plus);
    assert plus.(sign := ['-']) == Numeral("-", whole, "8", Absent) && plus.(sign := []) == plus;
  }

  lemma EightIsEight()
    ensures Value(16, "8") == 8
  {
    ValueStep(16, "8");
    assert "8"[..0] == [];
  }

  lemma SixteenTo15()
    ensures Pow(16, 15) == 0x1000_0000_0000_0000
  {
    assert Pow(16, 3) == 0x1000;
    assert Pow(16, 5) == 0x10_0000;
    assert Pow(16, 8) == 0x1_0000_0000;
    assert Pow(16, 12) == 0x1_0000_0000_0000;
    assert Pow(16, 10) == 0x100_0000_0000;
  }
}
