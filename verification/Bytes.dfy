/** Bytes and the character classes of the input words. */
module Bytes {
  type Byte = b: int | 0 <= b < 256

  const NONE := -1
  const BLANK: Byte := 32

  /** ?SPC */
  predicate IsSpace(b: int) {
    b == 32 || b == 9 || b == 10 || b == 13 || b == 0
  }

  /** >UPPER */
  function Upper(b: Byte): Byte {
    if 97 <= b <= 122 then b - 32 else b
  }

  function UpperAll(s: seq<Byte>): (u: seq<Byte>)
    ensures |u| == |s| && forall i :: 0 <= i < |s| ==> u[i] == Upper(s[i])
  {
    seq(|s|, i requires 0 <= i < |s| => Upper(s[i]))
  }

  /** The pieces put together. */
  function Concat(pieces: seq<seq<Byte>>): seq<Byte> {
    if pieces == [] then [] else pieces[0] + Concat(pieces[1..])
  }
}
