/** ZERORUN and NINERUN: the digits at the end of the number buffer are trimmed, or rounded up, in place. */
module TrimRound {
  import opened Positional

  /** Digits with at most one dot. */
  predicate IsDecimal(s: seq<char>) {
    AllDigits(Mantissa(s))
  }

  /** The digits as DIG2CHR writes them: below the base, letters in upper case. */
  predicate Written(base: nat, s: seq<char>) {
    forall i :: 0 <= i < |s| ==> s[i] == '.' || (0 <= DigitOf(s[i]) < base && s[i] <= 'Z')
  }

  /** DIG2CHR of BASE-1. */
  function Nine(base: nat): (c: char)
    requires 2 <= base <= 36
    ensures DigitOf(c) == base - 1
  {
    if base <= 10 then ('0' as int + base - 1) as char else ('A' as int + base - 11) as char
  }

  /** The length without the zeros at the end. */
  function ZeroEnd(s: seq<char>): (n: nat)
    ensures n <= |s|
    ensures n > 0 ==> s[n - 1] != '0'
    ensures forall i :: n <= i < |s| ==> s[i] == '0'
  {
    if s == [] || s[|s| - 1] != '0' then |s| else ZeroEnd(s[..|s| - 1])
  }

  /** The length without the nines and dots at the end: the last of what remains is the digit that is counted up. */
  function NineEnd(base: nat, s: seq<char>): (n: nat)
    requires 2 <= base <= 36
    ensures n <= |s|
    ensures n > 0 ==> s[n - 1] != Nine(base) && s[n - 1] != '.'
    ensures forall i :: n <= i < |s| ==> s[i] == Nine(base) || s[i] == '.'
  {
    if s == [] || (s[|s| - 1] != Nine(base) && s[|s| - 1] != '.') then |s| else NineEnd(base, s[..|s| - 1])
  }

  /** Incrementing a byte. */
  function NextChar(c: char): char {
    ((c as int + 1) % 256) as char
  }

  /** What NINERUN leaves of `s`. */
  function Rounded(base: nat, s: seq<char>): seq<char>
    requires 2 <= base <= 36
  {
    var n := NineEnd(base, s);
    if n == 0 then [] else s[..n - 1] + [NextChar(s[n - 1])]
  }

  method ZeroRun(buffer: array<char>, start: nat, addr: nat) returns (addr': nat)
    requires start <= addr <= buffer.Length
    ensures start <= addr' <= addr
    ensures buffer[start..addr'] == buffer[start..addr][..ZeroEnd(buffer[start..addr])]
  {
    addr' := addr;
    while true
      invariant start <= addr' <= addr
      invariant ZeroEnd(buffer[start..addr]) == ZeroEnd(buffer[start..addr'])
      decreases addr'
    {
      ghost var s := buffer[start..addr'];
      if addr' <= start {
        break;
      }
      addr' := addr' - 1;
      assert s[..|s| - 1] == buffer[start..addr'];
      if buffer[addr'] != '0' {
        addr' := addr' + 1;
        break;
      }
    }
    assert ZeroEnd(buffer[start..addr]) == addr' - start;
  }

  method NineRun(buffer: array<char>, base: nat, start: nat, addr: nat) returns (addr': nat)
    requires start <= addr <= buffer.Length && 2 <= base <= 36
    modifies buffer
    ensures start <= addr' <= addr
    ensures buffer[start..addr'] == Rounded(base, old(buffer[start..addr]))
    ensures buffer[..start] == old(buffer[..start]) && buffer[addr'..] == old(buffer[addr'..])
  {
    var nine := Nine(base);
    ghost var text := buffer[start..addr];
    addr' := addr;
    while true
      invariant start <= addr' <= addr && buffer[..] == old(buffer[..])
      invariant NineEnd(base, text) == NineEnd(base, buffer[start..addr'])
      decreases addr'
    {
      ghost var s := buffer[start..addr'];
      if addr' <= start {
        assert s == [];
        return;
      }
      addr' := addr' - 1;
      assert s[..|s| - 1] == buffer[start..addr'];
      if buffer[addr'] != nine && buffer[addr'] != '.' {
        assert NineEnd(base, text) == |s| && text[..|s|] == s;
        buffer[addr'] := NextChar(buffer[addr']);
        addr' := addr' + 1;
        return;
      }
    }
  }

  lemma {:induction false} ZeroEndTrims(s: seq<char>)
    ensures forall i :: ZeroEnd(s) <= i < |s| ==> s[i] == '0'
    ensures ZeroEnd(s) > 0 ==> s[ZeroEnd(s) - 1] != '0'
  {
    if s != [] && s[|s| - 1] == '0' {
      ZeroEndTrims(s[..|s| - 1]);
      assert forall i :: 0 <= i < |s| - 1 ==> s[..|s| - 1][i] == s[i];
    }
  }

  lemma Grows(m: int, p: int)
    requires p >= 2 && m > 0
    ensures m * p != m
  {
    assert m * (p - 1) > 0;
  }

  /** One more digit. */
  lemma {:induction false} DotAtSnoc(t: seq<char>, c: char)
    ensures DotAt(t + [c]) == if DotAt(t) < |t| || c == '.' then DotAt(t) else |t| + 1
  {
    if t != [] && t[0] != '.' {
      DotAtSnoc(t[1..], c);
      assert (t + [c])[1..] == t[1..] + [c];
    }
  }

  lemma MantissaSnoc(t: seq<char>, c: char)
    requires c != '.'
    ensures Mantissa(t + [c]) == Mantissa(t) + [c]
    ensures Places(t + [c]) == Places(t) + if DotAt(t) < |t| then 1 else 0
  {
    hide DotAt;
    DotAtSnoc(t, c);
    if DotAt(t) < |t| {
      CutSnoc(t, c, DotAt(t));
    }
  }

  lemma CutSnoc(t: seq<char>, c: char, k: nat)
    requires k < |t|
    ensures (t + [c])[..k] + (t + [c])[k + 1..] == t[..k] + t[k + 1..] + [c]
  {}

  lemma MantissaDot(t: seq<char>)
    requires DotAt(t) == |t|
    ensures Mantissa(t + ['.']) == Mantissa(t) && Places(t + ['.']) == Places(t) == 0
  {
    hide DotAt;
    DotAtSnoc(t, '.');
  }

  function Last(s: seq<char>): char {
    if s == [] then '0' else s[|s| - 1]
  }

  lemma OneDot(t: seq<char>)
    requires IsDecimal(t + ['.'])
    ensures DotAt(t) == |t|
  {
    hide DotAt;
    DotAtSnoc(t, '.');
    assert DotAt(t) == |t| || DigitOf(Last(Mantissa(t + ['.']))) >= 0;
  }

  lemma ValueSnoc(b: nat, s: seq<char>, c: char)
    ensures Value(b, s + [c]) == Value(b, s) * b + DigitOf(c)
  {
    assert (s + [c])[..|s|] == s;
  }

  /** The digits behind the one that is counted up are nines: together with one more they are a power of the base. */
  lemma PrefixDigits(t: seq<char>, c: char)
    requires AllDigits(Mantissa(t) + [c])
    ensures AllDigits(Mantissa(t))
  {
    hide DigitOf, Mantissa;
    assert forall i :: 0 <= i < |Mantissa(t)| ==> (Mantissa(t) + [c])[i] == Mantissa(t)[i];
  }

  /** One digit more, and that a nine. */
  lemma OneNineMore(b: nat, m: seq<char>, h: int, k: nat, c: char)
    requires DigitOf(c) == b - 1 && Value(b, m) + 1 == h * Pow(b, k)
    ensures Value(b, m + [c]) + 1 == h * Pow(b, k + 1)
  {
    hide Value, DigitOf;
    ValueSnoc(b, m, c);
    Regroup(h, Pow(b, k), b, 0, 0);
  }

  lemma NineEndSnoc(b: nat, s: seq<char>)
    requires 2 <= b <= 36 && NineEnd(b, s) != |s|
    ensures s != [] && NineEnd(b, s) == NineEnd(b, s[..|s| - 1])
    ensures s[|s| - 1] == '.' || DigitOf(s[|s| - 1]) == b - 1
  {
  }

  lemma {:induction false} NinesAreAPower(b: nat, s: seq<char>)
    requires 2 <= b <= 36 && IsDecimal(s)
    ensures var head := s[..NineEnd(b, s)];
      && IsDecimal(head)
      && |Mantissa(s)| >= |Mantissa(head)|
      && Value(b, Mantissa(s)) + 1 == (Value(b, Mantissa(head)) + 1) * Pow(b, |Mantissa(s)| - |Mantissa(head)|)
  {
    hide Value, DotAt, Places, Mantissa, DigitOf, AllDigits, NineEnd;
    var n := NineEnd(b, s);
    if n == |s| {
      assert s[..n] == s;
      assert Pow(b, 0) == 1;
    } else {
      NineEndSnoc(b, s);
      var t, c := s[..|s| - 1], s[|s| - 1];
      assert s == t + [c] && t[..n] == s[..n];
      if c == '.' {
        OneDot(t);
        MantissaDot(t);
        NinesAreAPower(b, t);
      } else {
        MantissaSnoc(t, c);
        PrefixDigits(t, c);
        NinesAreAPower(b, t);
        OneNineMore(b, Mantissa(t), Value(b, Mantissa(s[..n])) + 1, |Mantissa(t)| - |Mantissa(s[..n])|, c);
      }
    }
  }

  /** How many digits are dropped, against how many places. */
  lemma DroppedPlaces(s: seq<char>, n: nat)
    requires n <= |s|
    ensures |Mantissa(s)| - |Mantissa(s[..n])| == Places(s) - Places(s[..n]) + if n < DotAt(s) then DotAt(s) - n else 0
    ensures Places(s) >= Places(s[..n])
  {
    hide Mantissa, Places, DotAt;
    if n == |s| {
      assert s[..n] == s;
    } else {
      DroppedStep(s, n);
    }
  }

  lemma DroppedStep(s: seq<char>, n: nat)
    requires n < |s|
    ensures |Mantissa(s)| - |Mantissa(s[..n])| == Places(s) - Places(s[..n]) + if n < DotAt(s) then DotAt(s) - n else 0
    ensures Places(s) >= Places(s[..n])
  {
    assert DotAt(s[..n]) == if DotAt(s) < n then DotAt(s) else n by {
      var k, j := DotAt(s), DotAt(s[..n]);
      assert j < n ==> s[j] == s[..n][j];
      assert k < n ==> s[..n][k] == s[k];
    }
  }

  /** Zeros at the end multiply by a power of the base. */
  lemma {:induction false} ZerosAreAPower(b: nat, s: seq<char>)
    requires b >= 2 && IsDecimal(s)
    ensures var head := s[..ZeroEnd(s)];
      && IsDecimal(head)
      && |Mantissa(s)| >= |Mantissa(head)|
      && Value(b, Mantissa(s)) == Value(b, Mantissa(head)) * Pow(b, |Mantissa(s)| - |Mantissa(head)|)
  {
    hide Value, DotAt, Places, Mantissa, DigitOf, AllDigits, ZeroEnd;
    var n := ZeroEnd(s);
    if n == |s| {
      assert s[..n] == s && Pow(b, 0) == 1;
    } else {
      ZeroEndSnoc(s);
      var t, c := s[..|s| - 1], s[|s| - 1];
      assert s == t + [c] && t[..n] == s[..n];
      MantissaSnoc(t, c);
      PrefixDigits(t, c);
      ZerosAreAPower(b, t);
      ValueSnoc(b, Mantissa(t), c);
      ZeroDigit();
      Regroup(Value(b, Mantissa(s[..n])), Pow(b, |Mantissa(t)| - |Mantissa(s[..n])|), b, 0, 0);
    }
  }

  lemma ZeroEndSnoc(s: seq<char>)
    requires ZeroEnd(s) != |s|
    ensures s != [] && s[|s| - 1] == '0' && ZeroEnd(s) == ZeroEnd(s[..|s| - 1])
  {
  }

  lemma ZeroDigit()
    ensures DigitOf('0') == 0
  {}

  /** ZERORUN keeps the number if there is a dot; without one, only if there is nothing to trim or nothing but zeros. */
  lemma ZeroRunKeepsValue(b: nat, s: seq<char>, e: int)
    requires b >= 2 && IsDecimal(s)
    ensures SameValue(b, s[..ZeroEnd(s)], e, s, e) <==> DotAt(s) < |s| || ZeroEnd(s) == |s| || ZeroEnd(s) == 0
  {
    hide Value, DotAt, Places, Mantissa, DigitOf, AllDigits, ZeroEnd, Pow;
    var n := ZeroEnd(s);
    var head := s[..n];
    ZerosAreAPower(b, s);
    DroppedPlaces(s, n);
    ZeroEndTrims(s);
    ValueNonNegative(b, Mantissa(head));
    var kept, places := Value(b, Mantissa(head)), Places(s) - Places(head);
    var gap := if n < DotAt(s) then DotAt(s) - n else 0;
    if n == 0 {
      EmptyNumber(b);
    } else if DotAt(s) == |s| {
      WholePart(b, s, n);
      UnequalPowers(b, kept, places, gap);
    }
  }

  /** 100 becomes 1: without a dot, zeros that count are trimmed as well. */
  lemma ZeroRunTrimsWhole()
    ensures ZeroEnd("100") == 1 && "100"[..1] == "1" && !SameValue(10, "1", 0, "100", 0)
  {
    var s := "100";
    assert s[..2] == "10" && s[..2][..1] == "1";
    assert ZeroEnd(s[..2][..1]) == 1 && ZeroEnd(s[..2]) == 1;
    assert forall i :: 0 <= i < |s| ==> s[i] != '.';
    assert DotAt(s) == 3;
    MantissaOfWhole(s);
    ZeroRunKeepsValue(10, s, 0);
  }

  /** Without a dot, what remains in front of the zeros is not zero. */
  lemma WholePart(b: nat, s: seq<char>, n: nat)
    requires b >= 2 && IsDecimal(s) && DotAt(s) == |s| && 0 < n <= |s| && s[n - 1] != '0'
    ensures Value(b, Mantissa(s[..n])) > 0 && Places(s[..n]) == 0
  {
    hide Value, DigitOf;
    var head := s[..n];
    assert AllDigits(head) && head[n - 1] == s[n - 1];
    MantissaOfWhole(head);
    ValueNonNegative(b, head);
    ValueZero(b, head);
  }

  /** The last digit is counted up. */
  lemma CountUp(b: nat, head: seq<char>)
    requires 2 <= b <= 36 && IsDecimal(head) && Written(b, head) && head != []
    requires head[|head| - 1] != '.' && head[|head| - 1] != Nine(b)
    ensures var r := head[..|head| - 1] + [NextChar(head[|head| - 1])];
      && Places(r) == Places(head)
      && (IsDecimal(r) <==> !(b > 10 && head[|head| - 1] == '9'))
      && (IsDecimal(r) ==> Value(b, Mantissa(r)) == Value(b, Mantissa(head)) + 1)
  {
    hide Value, DotAt, Places, Mantissa;
    var t, c := head[..|head| - 1], head[|head| - 1];
    var d := NextChar(c);
    assert head == t + [c];
    MantissaSnoc(t, c);
    MantissaSnoc(t, d);
    ValueSnoc(b, Mantissa(t), c);
    ValueSnoc(b, Mantissa(t), d);
    NextDigit(b, c);
    assert forall i :: 0 <= i < |Mantissa(t)| ==> Mantissa(head)[i] == Mantissa(t)[i];
    assert Mantissa(t + [d])[|Mantissa(t)|] == d;
  }

  lemma NextDigit(b: nat, c: char)
    requires 2 <= b <= 36 && 0 <= DigitOf(c) < b && c <= 'Z' && c != Nine(b)
    ensures NextChar(c) != '.'
    ensures b > 10 && c == '9' ==> DigitOf(NextChar(c)) == -1
    ensures !(b > 10 && c == '9') ==> DigitOf(NextChar(c)) == DigitOf(c) + 1
  {}

  /** A digit is left to be counted up, it has a successor among the characters, and no digit before the dot is lost. */
  predicate RoundsUp(b: nat, s: seq<char>)
    requires 2 <= b <= 36
  {
    var n := NineEnd(b, s);
    n > 0 && DotAt(s) <= n && !(b > 10 && s[n - 1] == '9')
  }

  /**
   * NINERUN adds one unit in the last place, also across the dot, exactly if it does not run through all digits or
   * through any digit before the dot, and does not have to count up a '9' in a base above ten.
   */
  lemma NineRunAddsOneUnit(b: nat, s: seq<char>, e: int)
    requires 2 <= b <= 36 && IsDecimal(s) && Written(b, s)
    ensures var r := Rounded(b, s);
      IsDecimal(r)
        && SameNumber(b, Value(b, Mantissa(r)), e - Places(r), Value(b, Mantissa(s)) + 1, e - Places(s))
      <==> RoundsUp(b, s)
  {
    hide Value, DotAt, Places, Mantissa, DigitOf, AllDigits, NineEnd, Pow, NextChar, Nine;
    var n, r := NineEnd(b, s), Rounded(b, s);
    var head := s[..n];
    NinesAreAPower(b, s);
    DroppedPlaces(s, n);
    var lost, kept := Value(b, Mantissa(s)) + 1, Value(b, Mantissa(head)) + 1;
    assert kept > 0 by {
      ValueNonNegative(b, Mantissa(head));
    }
    if n == 0 {
      assert lost > 0 by {
        ValueNonNegative(b, Mantissa(s));
      }
      EmptyNumber(b);
    } else {
      CountUp(b, head);
      assert r == head[..|head| - 1] + [NextChar(head[|head| - 1])];
      var gap := if n < DotAt(s) then DotAt(s) - n else 0;
      var places := Places(s) - Places(head);
      assert lost == kept * Pow(b, places + gap);
      UnequalPowers(b, kept, places, gap);
    }
  }

  /** A number that is all nines becomes empty. */
  lemma NineRunEmpties()
    ensures Rounded(10, "9.99") == []
  {
    var s := "9.99";
    assert s[..3] == "9.9" && s[..3][..2] == "9." && s[..3][..2][..1] == "9" && s[..3][..2][..1][..0] == [];
    assert NineEnd(10, s[..3][..2][..1]) == 0 && NineEnd(10, s[..3][..2]) == 0;
  }

  /** 19.9 becomes 2: the nine before the dot is dropped with the others. */
  lemma NineRunDropsWholeDigit()
    ensures Rounded(10, "19.9") == "2" && !RoundsUp(10, "19.9")
  {
    var s := "19.9";
    assert s[..3] == "19." && s[..3][..2] == "19" && s[..3][..2][..1] == "1";
    assert NineEnd(10, s[..3][..2][..1]) == 1 && NineEnd(10, s) == 1;
    assert DotAt(s[1..]) == 1;
  }

  /** In base sixteen the digit after '9' is not the character after '9'. */
  lemma NineRunLeavesDigits()
    ensures Rounded(16, "0.9F") == "0.:" && !RoundsUp(16, "0.9F")
  {
    var s := "0.9F";
    assert s[..3] == "0.9" && s[..3][..2] == "0.";
    assert NineEnd(16, s[..3]) == 3 && NineEnd(16, s) == 3;
  }

  lemma EmptyNumber(b: nat)
    ensures Mantissa([]) == [] && Places([]) == 0 && Value(b, []) == 0
  {}

  lemma UnequalPowers(b: nat, m: int, p: int, gap: nat)
    requires b >= 2 && m > 0 && p + gap >= 0
    ensures p >= 0 ==> (m * Pow(b, p) == m * Pow(b, p + gap) <==> gap == 0)
  {
    if p >= 0 {
      PowAdds(b, p, gap);
      PowGrows(b, gap);
      Associate(m, Pow(b, p), Pow(b, gap));
      if gap > 0 {
        Grows(m * Pow(b, p), Pow(b, gap));
      }
    }
  }
}
