/**
 * FIXUPEXP lays a number `d.ddd` out again so that its exponent shrinks or disappears. The registers that carry the
 * exponent and the digit counts are used in their 16-bit form, the count of leading zeros in its 8-bit form.
 */
module FixupExp {
  import opened Positional

  const WRAP16 := 0x1_0000

  /** The signed reading of the low 16 bits. */
  function Signed16(i: int): (r: int)
    ensures -0x8000 <= r < 0x8000
    ensures -0x8000 <= i < 0x8000 ==> r == i
  {
    if i % WRAP16 < 0x8000 then i % WRAP16 else i % WRAP16 - WRAP16
  }

  function Low16(i: int): (r: int)
    ensures 0 <= r < WRAP16
    ensures 0 <= i < WRAP16 ==> r == i
  {
    i % WRAP16
  }

  /** One leading digit, then perhaps a dot and more digits. */
  predicate IsNumber(s: seq<char>) {
    |s| >= 1 && DigitOf(s[0]) >= 0 && (|s| > 1 ==> s[1] == '.' && AllDigits(s[2..]))
  }

  function Fraction(s: seq<char>): seq<char>
    requires IsNumber(s)
  {
    if |s| > 1 then s[2..] else []
  }

  /** All digits of the number. */
  function Digits(s: seq<char>): seq<char>
    requires IsNumber(s)
  {
    [s[0]] + Fraction(s)
  }

  function WithDot(whole: seq<char>, fraction: seq<char>): seq<char> {
    if fraction == [] then whole else whole + ['.'] + fraction
  }

  /** How far a negative exponent may be worked into the digits. */
  function Limit(maxdig: int, total: int): int {
    if maxdig > total then maxdig - total else total
  }

  function Min(a: int, b: int): int {
    if a <= b then a else b
  }

  /** The text FIXUPEXP writes and the exponent it returns. */
  datatype Layout = Layout(text: seq<char>, exp: int)

  /** The dot moved `shift` places to the right; a leading zero is dropped, missing digits are zeros. */
  function Shifted(s: seq<char>, shift: nat): seq<char>
    requires IsNumber(s)
  {
    var lead, fraction := if s[0] == '0' then [] else [s[0]], Fraction(s);
    if shift < |fraction| then lead + (fraction[..shift] + ['.'] + fraction[shift..])
    else lead + fraction + Zeros(shift - |fraction|)
  }

  function LaidOut(s: seq<char>, maxdig: nat, exp: int): Layout
    requires IsNumber(s)
  {
    var total := |Digits(s)|;
    if exp == 0 || (exp < 0 && maxdig == total) then Layout(WithDot([s[0]], Fraction(s)), exp)
    else if exp < 0 then
      var shift := Min(-exp, Limit(maxdig, total));
      Layout(['0', '.'] + Zeros((shift - 1) % 256) + Digits(s), 0)
    else
      var shift := if exp <= maxdig then exp else total;
      Layout(Shifted(s, shift), exp - shift)
  }

  /**
   * What becomes of the number `s` with exponent `exp`, in terms of digits, dot and exponent. A positive exponent is
   * gone if `maxdig` allows for it, and otherwise lower by the number of digits, and the dot has moved by the
   * difference. A negative one is gone unless all digits are wanted; it is then zeros behind a leading `0.`.
   */
  predicate Relaid(s: seq<char>, maxdig: nat, exp: int, text: seq<char>, newexp: int)
    requires IsNumber(s)
  {
    var total := if |s| == 1 then 1 else |s| - 1;
    && (exp == 0 || (exp < 0 && maxdig == total) ==>
         newexp == exp && Mantissa(text) == Mantissa(s) && Places(text) == total - 1)
    && (exp < 0 && maxdig != total ==>
         var limit := if maxdig > total then maxdig - total else total;
         var zeros := ((if -exp <= limit then -exp else limit) - 1) % 256;
         newexp == 0 && |text| == 2 + zeros + total && text[..2] == "0." && text[2 + zeros..] == Mantissa(s)
         && forall i :: 2 <= i < 2 + zeros ==> text[i] == '0')
    && (0 < exp <= maxdig ==> newexp == 0)
    && (0 < exp && maxdig < exp ==> newexp == exp - total)
    && (0 < exp ==>
         && Places(text) == (if exp - newexp < total - 1 then total - 1 - (exp - newexp) else 0)
         && (s[0] != '0' ==> text != [] && text[0] == s[0]))
  }

  /** STORB: store while there is room. */
  method Store(target: array<char>, j: nat, c: char) returns (j': nat)
    requires j <= target.Length
    modifies target
    ensures j' == if j < target.Length then j + 1 else j
    ensures j' <= target.Length && target[..j] == old(target[..j])
    ensures j < target.Length ==> target[..j'] == old(target[..j]) + [c]
  {
    j' := j;
    if j < target.Length {
      target[j] := c;
      j' := j + 1;
    }
  }

  /** REP STORB. */
  method RepStore(target: array<char>, j: nat, c: char, count: nat) returns (j': nat)
    requires 1 <= count && j + count <= target.Length
    modifies target
    ensures j' == j + count && target[..j'] == old(target[..j]) + seq(count, i => c)
  {
    j' := j;
    var rcx := count;
    while rcx != 0
      invariant rcx <= count && j' == j + (count - rcx)
      invariant target[..j'] == old(target[..j]) + seq(count - rcx, i => c)
    {
      j' := Store(target, j', c);
      rcx := rcx - 1;
    }
  }

  /** REP MOVEB: copy until the count is used up or the source ends; a count of zero wraps around first. */
  method RepMove(target: array<char>, j: nat, s: seq<char>, i: nat, count: nat) returns (j': nat, i': nat)
    requires i <= |s| && j + (|s| - i) <= target.Length
    requires |s| < 0x1_0000_0000_0000_0000
    modifies target
    ensures i' == (if count == 0 then |s| else Min(i + count, |s|))
    ensures j' == j + (i' - i) && j' <= target.Length && target[..j'] == old(target[..j]) + s[i..i']
  {
    j', i' := j, i;
    var rcx: int := count;
    while true
      invariant i <= i' <= |s| && j' == j + (i' - i)
      invariant rcx == if count == 0 && i' > i then 0x1_0000_0000_0000_0000 - (i' - i) else count - (i' - i)
      invariant count != 0 ==> 0 < rcx
      invariant target[..j'] == old(target[..j]) + s[i..i']
      decreases |s| - i'
    {
      if i' >= |s| {
        return;
      }
      j' := Store(target, j', s[i']);
      i' := i' + 1;
      rcx := if rcx == 0 then 0x1_0000_0000_0000_0000 - 1 else rcx - 1;
      if rcx == 0 {
        return;
      }
    }
  }

  /** The digits met in the first `i` characters. */
  function Met(s: seq<char>, i: nat): nat
    requires IsNumber(s) && i <= |s|
  {
    if i <= 1 then i else i - 1
  }

  /** The arguments the routine is called with: counts and exponent that its 16-bit registers can hold, and room. */
  predicate Callable(capacity: nat, s: seq<char>, maxdig: nat, total: nat, exp: int) {
    && IsNumber(s) && total == |Digits(s)| < 0x8000 && maxdig < 0x8000 && -0x8000 < exp < 0x8000
    && |s| <= capacity && |LaidOut(s, maxdig, exp).text| <= capacity
  }

  /** Copy everything, then take back a final dot. */
  method NoShift(target: array<char>, s: seq<char>, total: nat) returns (j: nat)
    requires IsNumber(s) && total == |Digits(s)| < 0x8000 && |s| <= target.Length
    modifies target
    ensures j <= target.Length && target[..j] == WithDot([s[0]], Fraction(s))
  {
    var i;
    j, i := RepMove(target, 0, s, 0, total + 1);
    assert target[..j] == s && DigitOf(s[|s| - 1]) < 0 ==> s[|s| - 1] == '.';
    assert target[j - 1] == s[|s| - 1];
    if target[j - 1] == '.' {
      j := j - 1;
    }
  }

  /** The zeros of a negative exponent: the counter is the low byte of `dx`. */
  method LeadZeros(target: array<char>, j: nat, dx: nat) returns (j': nat)
    requires 1 <= dx && j + (dx - 1) % 256 <= target.Length
    modifies target
    ensures j' == j + (dx - 1) % 256 && target[..j'] == old(target[..j]) + Zeros((dx - 1) % 256)
  {
    j' := j;
    var dl := (dx % 256 - 1) % 256;
    ghost var count := dl;
    assert count == (dx - 1) % 256;
    while dl != 0
      invariant 0 <= dl <= count && j' == j + (count - dl)
      invariant target[..j'] == old(target[..j]) + Zeros(count - dl)
      decreases dl
    {
      j' := Store(target, j', '0');
      dl := dl - 1;
    }
  }

  lemma MetNothing(s: seq<char>)
    requires IsNumber(s)
    ensures Met(s, 0) == 0 && Digits(s)[..0] == [] && Met(s, |s|) == |Digits(s)| > 0
  {}

  /** The next character is the dot or the next digit. */
  lemma MetStep(s: seq<char>, i: nat)
    requires IsNumber(s) && i < |s|
    ensures Met(s, i) <= Met(s, i + 1) <= |Digits(s)|
    ensures if s[i] == '.' then Met(s, i + 1) == Met(s, i)
            else Met(s, i + 1) == Met(s, i) + 1 && Digits(s)[..Met(s, i + 1)] == Digits(s)[..Met(s, i)] + [s[i]]
  {}

  /** All digits of the number, its dot left out. */
  method MoveDigits(target: array<char>, j: nat, s: seq<char>, total: nat) returns (j': nat)
    requires IsNumber(s) && total == |Digits(s)| && j + total <= target.Length
    modifies target
    ensures j' == j + total && target[..j'] == old(target[..j]) + Digits(s)
  {
    hide DigitOf, Digits, Met;
    j' := j;
    var i, rcx := 0, total;
    MetNothing(s);
    while true
      invariant i <= |s| && Met(s, i) <= total
      invariant 1 <= rcx && rcx == total - Met(s, i) && j' == j + Met(s, i)
      invariant target[..j'] == old(target[..j]) + Digits(s)[..Met(s, i)]
      decreases |s| - i
    {
      if i >= |s| {
        return;
      }
      var c := s[i];
      MetStep(s, i);
      i := i + 1;
      if c != '.' {
        j' := Store(target, j', c);
        rcx := rcx - 1;
        if rcx == 0 {
          return;
        }
      }
    }
  }

  function Lead(s: seq<char>): seq<char>
    requires IsNumber(s)
  {
    if s[0] == '0' then [] else [s[0]]
  }

  /** Copy the digits before the dot except zeros; `rcx` counts the digits not yet read. */
  method FetchLead(target: array<char>, s: seq<char>, total: nat) returns (j: nat, i: nat, rcx: nat, dot: bool)
    requires IsNumber(s) && total == |Digits(s)| && |Lead(s)| <= target.Length
    modifies target
    ensures j == |Lead(s)| && target[..j] == Lead(s) && rcx == total - 1
    ensures dot <==> total > 1
    ensures dot ==> i == 2
  {
    j, i, rcx, dot := 0, 0, total, false;
    while true
      invariant i <= 1 && rcx == total - i >= 1
      invariant j == (if i == 0 then 0 else |Lead(s)|) && target[..j] == if i == 0 then [] else Lead(s)
      decreases 2 - i
    {
      if i >= |s| {
        return;
      }
      var c := s[i];
      i := i + 1;
      if c == '.' {
        dot := true;
        return;
      }
      if c != '0' {
        j := Store(target, j, c);
      }
      rcx := rcx - 1;
      if rcx == 0 {
        return;
      }
    }
  }

  /** More places than digits: move them all, let the second move run out of text, then add zeros. */
  method FillZero(target: array<char>, j0: nat, s: seq<char>, rcx: nat, shift: nat) returns (j: nat)
    requires IsNumber(s) && |s| >= 2 && rcx == |Fraction(s)| < shift < 0x8000 && j0 + shift <= target.Length
    modifies target
    ensures j == j0 + shift && target[..j] == old(target[..j0]) + Fraction(s) + Zeros(shift - rcx)
  {
    var i;
    j, i := j0, 2;
    if rcx != 0 {
      j, i := RepMove(target, j, s, i, rcx);
    }
    j, i := RepMove(target, j, s, i, 0);
    assert s[2..] == Fraction(s);
    j := RepStore(target, j, '0', Low16(shift - rcx));
    assert seq(shift - rcx, i => '0') == Zeros(shift - rcx);
  }

  lemma FractionParts(s: seq<char>, shift: nat)
    requires IsNumber(s) && |s| >= 2 && shift <= |Fraction(s)|
    ensures s[2..2 + shift] == Fraction(s)[..shift] && s[2 + shift..] == Fraction(s)[shift..]
    ensures shift == |Fraction(s)| ==> s[2..2 + shift] == Fraction(s)
    ensures s[2 + shift..|s|] == s[2 + shift..]
  {}

  lemma Assemble(a: seq<char>, f: seq<char>, d: seq<char>, g: seq<char>)
    ensures a + f + d + g == a + (f + d + g)
  {}

  /** No more places than digits: the dot moves. */
  method MoveDot(target: array<char>, j0: nat, s: seq<char>, rcx: nat, shift: nat) returns (j: nat)
    requires IsNumber(s) && |s| >= 2 && 1 <= shift <= rcx == |Fraction(s)| < 0x8000
    requires j0 + rcx + (if shift < rcx then 1 else 0) <= target.Length
    modifies target
    ensures j <= target.Length
    ensures target[..j] == old(target[..j0]) + if shift < rcx then Fraction(s)[..shift] + ['.'] + Fraction(s)[shift..]
                                               else Fraction(s)
  {
    var i;
    var dx := rcx - shift;
    j, i := RepMove(target, j0, s, 2, shift);
    ghost var front := target[..j];
    FractionParts(s, shift);
    if dx != 0 {
      j := Store(target, j, '.');
      assert target[..j] == front + ['.'];
      j, i := RepMove(target, j, s, i, dx);
      Assemble(old(target[..j0]), s[2..2 + shift], ['.'], s[2 + shift..]);
    }
  }

  /** A positive exponent: the digits that move in front of the dot, or zeros for those that are missing. */
  method PositiveShift(target: array<char>, s: seq<char>, total: nat, shift: nat) returns (j: nat)
    requires IsNumber(s) && total == |Digits(s)| < 0x8000 && 1 <= shift < 0x8000
    requires |Lead(s)| + (if shift < total - 1 then total else shift) <= target.Length
    modifies target
    ensures j <= target.Length && target[..j] == Shifted(s, shift)
  {
    var i, rcx, dot;
    j, i, rcx, dot := FetchLead(target, s, total);
    if !dot {
      j := RepStore(target, j, '0', shift);
      assert Zeros(shift) == seq(shift, i => '0');
    } else if Signed16(shift) > Signed16(rcx) {
      j := FillZero(target, j, s, rcx, shift);
    } else {
      j := MoveDot(target, j, s, rcx, shift);
    }
  }

  method NegativeShift(target: array<char>, s: seq<char>, total: nat, dx: nat) returns (len: nat)
    requires IsNumber(s) && total == |Digits(s)| && 1 <= dx && 2 + (dx - 1) % 256 + total <= target.Length
    modifies target
    ensures len <= target.Length && target[..len] == ['0', '.'] + Zeros((dx - 1) % 256) + Digits(s)
  {
    len := Store(target, 0, '0');
    len := Store(target, len, '.');
    len := LeadZeros(target, len, dx);
    len := MoveDigits(target, len, s, total);
  }

  /** The registers give back what fits into them. */
  lemma Fits16(i: int)
    requires -0x8000 < i < 0x8000
    ensures Signed16(i) == i && Signed16(Low16(i)) == i
    ensures i >= 0 ==> Low16(i) == i
  {}

  /** A negative exponent: as much of it as the limit allows becomes zeros. */
  method NegativeExp(target: array<char>, s: seq<char>, maxdig: nat, total: nat, exp: int)
    returns (len: nat, newexp: int)
    requires Callable(target.Length, s, maxdig, total, exp) && exp < 0 && maxdig != total
    modifies target
    ensures len <= target.Length && Layout(target[..len], newexp) == LaidOut(s, maxdig, exp)
  {
    hide Signed16, Low16;
    Fits16(maxdig - total);
    Fits16(total);
    Fits16(-exp);
    Fits16(0);
    var dx := Low16(maxdig - total);
    if Signed16(dx) < 0 {
      dx := Low16(total);
    }
    Fits16(Limit(maxdig, total));
    var ax := Low16(-exp);
    if Signed16(ax) <= Signed16(dx) {
      dx := ax;
    } else {
      ax := dx;
    }
    newexp := Signed16(-(ax - dx));
    len := NegativeShift(target, s, total, dx);
  }

  method FixupExp(target: array<char>, s: seq<char>, maxdig: nat, total: nat, exp: int) returns (len: nat, newexp: int)
    requires Callable(target.Length, s, maxdig, total, exp)
    modifies target
    ensures len <= target.Length && Layout(target[..len], newexp) == LaidOut(s, maxdig, exp)
    ensures Relaid(s, maxdig, exp, target[..len], newexp)
  {
    hide Signed16, Low16, Relaid;
    LaidOutRelaid(s, maxdig, exp);
    Fits16(maxdig - total);
    Fits16(maxdig);
    Fits16(total);
    Fits16(exp);
    newexp := exp;
    if Signed16(exp) == 0 || (Signed16(exp) < 0 && Signed16(Low16(maxdig - total)) == 0) {
      len := NoShift(target, s, total);
    } else if Signed16(exp) > 0 {
      var dx := if Signed16(exp) <= Signed16(maxdig) then Low16(exp) else Low16(total);
      Fits16(exp - dx);
      newexp := Signed16(Low16(exp) - dx);
      len := PositiveShift(target, s, total, dx);
    } else {
      len, newexp := NegativeExp(target, s, maxdig, total, exp);
    }
  }

  /** What is done to a negative exponent does not lose any of it. */
  predicate WithinReach(maxdig: nat, total: nat, exp: int) {
    -exp <= Limit(maxdig, total) && -exp <= 256
  }

  predicate AllZero(s: seq<char>) {
    forall i :: 0 <= i < |s| ==> s[i] == '0'
  }

  lemma DigitsAreDigits(s: seq<char>)
    requires IsNumber(s)
    ensures AllDigits(Digits(s)) && AllDigits(Fraction(s)) && AllDigits([s[0]])
    ensures Mantissa(s) == Digits(s) && Places(s) == |Fraction(s)|
  {
    if |s| > 1 {
      assert s == [s[0]] + ['.'] + s[2..];
      MantissaOf([s[0]], s[2..]);
    } else {
      assert s == [s[0]];
      MantissaOfWhole(s);
    }
  }

  /** Leading zeros do not count. */
  lemma LeadingZeros(b: nat, n: nat, s: seq<char>)
    requires b >= 2
    ensures Value(b, Zeros(n) + s) == Value(b, s)
  {
    ValueConcat(b, Zeros(n), s);
    ValueZeros(b, n);
  }

  lemma LeadValue(b: nat, s: seq<char>)
    requires IsNumber(s) && b >= 2
    ensures Value(b, Lead(s) + Fraction(s)) == Value(b, Digits(s))
  {
    if s[0] == '0' {
      LeadingZeros(b, 1, Fraction(s));
      assert Zeros(1) == [s[0]];
      assert Lead(s) + Fraction(s) == Fraction(s);
    }
  }

  /** Moving the dot to the right and the exponent down by as much keeps the number. */
  lemma ShiftedKeepsValue(b: nat, s: seq<char>, shift: nat, exp: int)
    requires IsNumber(s) && b >= 2
    ensures SameValue(b, Shifted(s, shift), exp - shift, s, exp)
  {
    hide Value, DotAt, Mantissa, Places, DigitOf, Shifted, Pow;
    DigitsAreDigits(s);
    LeadValue(b, s);
    ShiftedParts(b, s, shift);
    PowerOfNothing(b);
  }

  lemma DotInside(lead: seq<char>, fraction: seq<char>, k: nat)
    requires k <= |fraction|
    ensures lead + (fraction[..k] + ['.'] + fraction[k..]) == lead + fraction[..k] + ['.'] + fraction[k..]
    ensures lead + fraction[..k] + fraction[k..] == lead + fraction
  {
  }

  lemma PartDigits(s: seq<char>, k: nat)
    requires IsNumber(s) && k <= |Fraction(s)|
    ensures AllDigits(Lead(s) + Fraction(s)[..k])
  {
    hide DigitOf;
    DigitsAreDigits(s);
  }

  /** A dot that moves inside the fraction. */
  lemma MovedInside(s: seq<char>, shift: nat)
    requires IsNumber(s) && shift < |Fraction(s)|
    ensures Mantissa(Shifted(s, shift)) == Lead(s) + Fraction(s) && Places(Shifted(s, shift)) == |Fraction(s)| - shift
  {
    hide DotAt, Mantissa, Places, DigitOf, AllDigits, IsNumber, Fraction;
    PartDigits(s, shift);
    MantissaOf(Lead(s) + Fraction(s)[..shift], Fraction(s)[shift..]);
    DotInside(Lead(s), Fraction(s), shift);
  }

  /** One that moves behind it. */
  lemma MovedBehind(s: seq<char>, shift: nat)
    requires IsNumber(s) && shift >= |Fraction(s)|
    ensures Mantissa(Shifted(s, shift)) == Lead(s) + Fraction(s) + Zeros(shift - |Fraction(s)|)
    ensures Places(Shifted(s, shift)) == 0
  {
    hide DotAt, Mantissa, Places, DigitOf;
    DigitsAreDigits(s);
    MantissaOfWhole(Shifted(s, shift));
  }

  /** The digits and the places behind the dot once it has moved. */
  lemma ShiftedParts(b: nat, s: seq<char>, shift: nat)
    requires IsNumber(s) && b >= 2
    ensures var digits, places := Lead(s) + Fraction(s), |Fraction(s)|;
      if shift < places
      then Value(b, Mantissa(Shifted(s, shift))) == Value(b, digits) && Places(Shifted(s, shift)) == places - shift
      else Value(b, Mantissa(Shifted(s, shift))) == Value(b, digits) * Pow(b, shift - places)
           && Places(Shifted(s, shift)) == 0
  {
    hide Value, DotAt, Mantissa, Places, DigitOf, Pow, Shifted, IsNumber, Lead, Fraction, AllDigits;
    if shift < |Fraction(s)| {
      MovedInside(s, shift);
    } else {
      MovedBehind(s, shift);
      var added := shift - |Fraction(s)|;
      ShiftedDigits(s, added);
      ValueConcat(b, Lead(s) + Fraction(s), Zeros(added));
      ValueZeros(b, added);
    }
  }

  lemma ShiftedDigits(s: seq<char>, n: nat)
    requires IsNumber(s)
    ensures AllDigits(Lead(s) + Fraction(s)) && AllDigits(Lead(s) + Fraction(s) + Zeros(n))
  {
    hide DigitOf;
    DigitsAreDigits(s);
  }

  lemma LaidOutRelaid(s: seq<char>, maxdig: nat, exp: int)
    requires IsNumber(s)
    ensures Relaid(s, maxdig, exp, LaidOut(s, maxdig, exp).text, LaidOut(s, maxdig, exp).exp)
  {
    hide Relaid, LaidOut, DigitOf, AllDigits;
    if exp == 0 || (exp < 0 && maxdig == |Digits(s)|) {
      UnshiftedRelaid(s, maxdig, exp);
    } else if exp < 0 {
      NegativeRelaid(s, maxdig, exp);
    } else {
      PositiveRelaid(s, maxdig, exp);
    }
  }

  lemma UnshiftedRelaid(s: seq<char>, maxdig: nat, exp: int)
    requires IsNumber(s) && (exp == 0 || (exp < 0 && maxdig == |Digits(s)|))
    ensures Relaid(s, maxdig, exp, LaidOut(s, maxdig, exp).text, LaidOut(s, maxdig, exp).exp)
  {
    hide DotAt, Mantissa, Places, DigitOf, AllDigits, WithDot, Shifted, Zeros;
    DigitsAreDigits(s);
    UnshiftedParts(s);
  }

  lemma NegativeRelaid(s: seq<char>, maxdig: nat, exp: int)
    requires IsNumber(s) && exp < 0 && maxdig != |Digits(s)|
    ensures Relaid(s, maxdig, exp, LaidOut(s, maxdig, exp).text, LaidOut(s, maxdig, exp).exp)
  {
    hide DotAt, Mantissa, Places, DigitOf, AllDigits, WithDot, Shifted, Zeros;
    DigitsAreDigits(s);
    NegativeText((Min(-exp, Limit(maxdig, |Digits(s)|)) - 1) % 256, Digits(s));
  }

  lemma PositiveRelaid(s: seq<char>, maxdig: nat, exp: int)
    requires IsNumber(s) && exp > 0
    ensures Relaid(s, maxdig, exp, LaidOut(s, maxdig, exp).text, LaidOut(s, maxdig, exp).exp)
  {
    hide DotAt, Mantissa, Places, DigitOf, AllDigits, WithDot, Shifted, Zeros;
    ShiftedPlaces(s, if exp <= maxdig then exp else |Digits(s)|);
  }

  lemma UnshiftedParts(s: seq<char>)
    requires IsNumber(s)
    ensures Mantissa(WithDot([s[0]], Fraction(s))) == Digits(s) && Places(WithDot([s[0]], Fraction(s))) == |Fraction(s)|
  {
    hide DotAt, Mantissa, Places, DigitOf;
    DigitsAreDigits(s);
    MantissaOf([s[0]], Fraction(s));
    MantissaOfWhole([s[0]]);
  }

  lemma NegativeText(zeros: nat, digits: seq<char>)
    ensures var text := ['0', '.'] + Zeros(zeros) + digits;
      && |text| == 2 + zeros + |digits| && text[..2] == "0." && text[2 + zeros..] == digits
      && forall i :: 2 <= i < 2 + zeros ==> text[i] == '0'
  {
  }

  lemma ShiftedPlaces(s: seq<char>, shift: nat)
    requires IsNumber(s)
    ensures Places(Shifted(s, shift)) == if shift < |Fraction(s)| then |Fraction(s)| - shift else 0
    ensures s[0] != '0' ==> Shifted(s, shift) != [] && Shifted(s, shift)[0] == s[0]
  {
    hide DotAt, Mantissa, Places, DigitOf;
    if shift < |Fraction(s)| {
      MovedInside(s, shift);
    } else {
      MovedBehind(s, shift);
    }
  }

  lemma PowerOfNothing(b: nat)
    ensures Pow(b, 0) == 1
  {
  }

  /** Numbers with the same digits are the same only if they have the same exponent, or if they are zero. */
  lemma SameDigits(b: nat, m: int, e: int, f: int)
    requires b >= 2
    ensures SameNumber(b, m, e, m, f) <==> e == f || m == 0
  {
    var n := if e >= f then e - f else f - e;
    PowGrows(b, n);
    assert n > 0 ==> Pow(b, n) >= 2;
    if m != 0 && n > 0 {
      var p := Pow(b, n);
      assert m * p != m by {
        assert m * (p - 1) != 0;
      }
    }
  }

  lemma CountedZeros(shift: nat, e: nat)
    requires 1 <= shift <= e
    ensures (shift - 1) % 256 + 1 == e <==> shift == e && shift <= 256
  {}

  /** A negative exponent that is worked into the digits: kept exactly if all of it goes in. */
  lemma NegativeKeepsValue(b: nat, s: seq<char>, maxdig: nat, exp: int)
    requires IsNumber(s) && b >= 2 && exp < 0 && maxdig != |Digits(s)|
    ensures SameValue(b, LaidOut(s, maxdig, exp).text, LaidOut(s, maxdig, exp).exp, s, exp)
      <==> WithinReach(maxdig, |Digits(s)|, exp) || AllZero(Digits(s))
  {
    hide Value, DotAt, Mantissa, Places, DigitOf, SameNumber;
    var total := |Digits(s)|;
    var shift := Min(-exp, Limit(maxdig, total));
    var zeros := (shift - 1) % 256;
    var text := LaidOut(s, maxdig, exp).text;
    DigitsAreDigits(s);
    assert text == ['0'] + ['.'] + (Zeros(zeros) + Digits(s));
    assert Zeros(1) == ['0'];
    MantissaOf(['0'], Zeros(zeros) + Digits(s));
    assert ['0'] + (Zeros(zeros) + Digits(s)) == Zeros(zeros + 1) + Digits(s);
    LeadingZeros(b, zeros + 1, Digits(s));
    SameDigits(b, Value(b, Digits(s)), -(zeros + total), exp - |Fraction(s)|);
    ValueZero(b, Digits(s));
    CountedZeros(shift, -exp);
  }

  lemma UnshiftedKeepsValue(b: nat, s: seq<char>, exp: int)
    requires IsNumber(s)
    ensures SameValue(b, WithDot([s[0]], Fraction(s)), exp, s, exp)
  {
    hide Value, DotAt, Mantissa, Places, DigitOf;
    DigitsAreDigits(s);
    assert Fraction(s) != [] ==> s == [s[0]] + ['.'] + Fraction(s);
    assert Fraction(s) == [] ==> Digits(s) == [s[0]];
    MantissaOfWhole([s[0]]);
  }

  /**
   * FIXUPEXP keeps the number it is given, in every base, unless a negative exponent is larger than its limit or than
   * the 256 steps its 8-bit counter can make; the exponent is then lost, which only zero survives.
   */
  lemma KeepsValue(b: nat, s: seq<char>, maxdig: nat, exp: int)
    requires IsNumber(s) && b >= 2
    ensures SameValue(b, LaidOut(s, maxdig, exp).text, LaidOut(s, maxdig, exp).exp, s, exp)
      <==> exp >= 0 || maxdig == |Digits(s)| || WithinReach(maxdig, |Digits(s)|, exp) || AllZero(Digits(s))
  {
    hide SameValue, Shifted;
    var total := |Digits(s)|;
    if exp == 0 || (exp < 0 && maxdig == total) {
      UnshiftedKeepsValue(b, s, exp);
    } else if exp < 0 {
      NegativeKeepsValue(b, s, maxdig, exp);
    } else {
      ShiftedKeepsValue(b, s, if exp <= maxdig then exp else total, exp);
      assert Shifted(s, if exp <= maxdig then exp else total) == LaidOut(s, maxdig, exp).text;
    }
  }

  /** One digit, three places wanted, one allowed: 1e-3 is written as 0.1. */
  lemma LosesExponent()
    ensures LaidOut("1", 2, -3) == Layout("0.1", 0)
    ensures !SameValue(10, "0.1", 0, "1", -3)
  {
    hide SameValue, Value;
    var s := "1";
    assert Limit(2, 1) == 1 && Zeros(0) == [];
    assert ['0', '.'] + Zeros(0) + Digits(s) == "0.1";
    KeepsValue(10, s, 2, -3);
    assert Digits(s)[0] != '0';
  }

  /** 257 places do not fit the 8-bit counter: 1e-257 is written as 0.1 as well, whatever is allowed. */
  lemma WrapsCounter()
    ensures LaidOut("1", 1000, -257) == Layout("0.1", 0)
    ensures !SameValue(10, "0.1", 0, "1", -257)
  {
    hide SameValue, Value;
    var s := "1";
    assert Limit(1000, 1) == 999 && Zeros(0) == [];
    assert ['0', '.'] + Zeros(0) + Digits(s) == "0.1";
    KeepsValue(10, s, 1000, -257);
    assert Digits(s)[0] != '0';
  }
}
