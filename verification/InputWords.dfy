/** A text as the list of words in it: runs of non-space characters in upper case, in pieces of at most 31. */
module InputWords {
  import opened Sequences
  import opened Bytes

  const LONGEST := 31

  /** Without the spaces in front. */
  function Skip(s: seq<Byte>): (t: seq<Byte>)
    ensures |t| <= |s|
    ensures t != [] ==> !IsSpace(t[0])
  {
    if s != [] && IsSpace(s[0]) then Skip(s[1..]) else s
  }

  /** The length of the first piece. */
  function Piece(s: seq<Byte>, room: nat): (n: nat)
    ensures n <= |s| && n <= room
    ensures forall i :: 0 <= i < n ==> !IsSpace(s[i])
    ensures n < |s| && n < room ==> IsSpace(s[n])
    ensures s != [] && !IsSpace(s[0]) && room > 0 ==> n > 0
  {
    if s == [] || room == 0 || IsSpace(s[0]) then 0 else 1 + Piece(s[1..], room - 1)
  }

  function WordsOf(s: seq<Byte>): seq<seq<Byte>>
    decreases |s|
  {
    var t := Skip(s);
    if t == [] then [] else
      var n := Piece(t, LONGEST);
      [UpperAll(t[..n])] + WordsOf(t[n..])
  }

  /** Spaces in front do not matter. */
  lemma WordsOfSpace(b: Byte, s: seq<Byte>)
    requires IsSpace(b)
    ensures WordsOf([b] + s) == WordsOf(s)
  {
    assert ([b] + s)[1..] == s;
  }

  lemma {:induction false} SkipAcross(s: seq<Byte>, b: Byte, t: seq<Byte>)
    requires IsSpace(b)
    ensures Skip(s + ([b] + t)) == if Skip(s) == [] then Skip(t) else Skip(s) + ([b] + t)
  {
    if s == [] {
      assert s + ([b] + t) == [b] + t;
      assert ([b] + t)[1..] == t;
    } else if IsSpace(s[0]) {
      SkipAcross(s[1..], b, t);
      assert (s + ([b] + t))[1..] == s[1..] + ([b] + t);
    }
  }

  lemma {:induction false} PieceAcross(s: seq<Byte>, b: Byte, t: seq<Byte>, room: nat)
    requires IsSpace(b)
    ensures Piece(s + ([b] + t), room) == Piece(s, room)
  {
    if s != [] && room != 0 {
      assert (s + ([b] + t))[0] == s[0];
      if !IsSpace(s[0]) {
        PieceAcross(s[1..], b, t, room - 1);
        assert (s + ([b] + t))[1..] == s[1..] + ([b] + t);
      }
    }
  }

  /** The first word and the others. */
  lemma FirstWord(s: seq<Byte>)
    ensures var t := Skip(s);
      if t == [] then WordsOf(s) == []
      else WordsOf(s) == [UpperAll(t[..Piece(t, LONGEST)])] + WordsOf(t[Piece(t, LONGEST)..])
  {
    hide Skip, Piece, UpperAll;
  }

  lemma FiveSpaces(b: Byte)
    requires b == 0 || b == 9 || b == 10 || b == 13 || b == 32
    ensures IsSpace(b)
  {
  }

  /** NUL, tab, line feed, return and blank separate: the words before are followed by the words behind. */
  lemma {:induction false} WordsAcross(s: seq<Byte>, b: Byte, t: seq<Byte>)
    requires b == 0 || b == 9 || b == 10 || b == 13 || b == 32
    ensures WordsOf(s + ([b] + t)) == WordsOf(s) + WordsOf(t)
    decreases |s|
  {
    hide Skip, Piece, WordsOf, UpperAll, IsSpace;
    FiveSpaces(b);
    SkipAcross(s, b, t);
    var u, v := Skip(s), [b] + t;
    if u == [] {
      FirstWord(s);
      SameSkip(s + v, t);
    } else {
      var n := Piece(u, LONGEST);
      PieceAcross(u, b, t, LONGEST);
      FirstWord(s);
      FirstWord(s + v);
      WordsAcross(u[n..], b, t);
      CutBefore(u, v, n);
      Assoc([UpperAll(u[..n])], WordsOf(u[n..]), WordsOf(t));
    }
  }

  lemma CutBefore(u: seq<Byte>, v: seq<Byte>, n: nat)
    requires n <= |u|
    ensures (u + v)[..n] == u[..n] && (u + v)[n..] == u[n..] + v
  {
  }

  lemma SameSkip(s: seq<Byte>, t: seq<Byte>)
    requires Skip(s) == Skip(t)
    ensures WordsOf(s) == WordsOf(t)
  {
    hide Skip, Piece;
  }

  /** The characters behind the last space. */
  function Trailing(s: seq<Byte>): (n: nat)
    ensures n <= |s|
  {
    if s == [] || IsSpace(s[|s| - 1]) then 0 else 1 + Trailing(s[..|s| - 1])
  }

  predicate NoSpace(s: seq<Byte>) {
    forall i :: 0 <= i < |s| ==> !IsSpace(s[i])
  }

  lemma {:induction false} TrailingBehind(s: seq<Byte>, t: seq<Byte>)
    ensures Trailing(s + t) == if NoSpace(t) then |t| + Trailing(s) else Trailing(t)
  {
    if t == [] {
      assert s + t == s;
    } else {
      var u, c := t[..|t| - 1], t[|t| - 1];
      assert (s + t)[..|s + t| - 1] == s + u && t == u + [c];
      TrailingBehind(s, u);
      assert NoSpace(t) <==> NoSpace(u) && !IsSpace(c);
      if !IsSpace(c) && !NoSpace(u) {
        assert Trailing(t) == 1 + Trailing(u);
      }
    }
  }

  lemma {:induction false} SkipSplits(s: seq<Byte>)
    ensures Trailing(s) == Trailing(Skip(s))
  {
    if s == [] {
    } else if IsSpace(s[0]) {
      SkipSplits(s[1..]);
      assert s == [s[0]] + s[1..];
      TrailingBehind([s[0]], s[1..]);
      AllTrailing(s[1..]);
      assert Trailing([s[0]]) == 0;
    }
  }

  /** What is left behind the first piece ends as the text does, up to whole pieces. */
  lemma TrailingPiece(u: seq<Byte>, n: nat)
    requires n <= |u| && NoSpace(u[..n])
    requires n == LONGEST || (n < |u| && IsSpace(u[n]))
    ensures Trailing(u) % LONGEST == Trailing(u[n..]) % LONGEST
  {
    hide Trailing;
    var front, rest := u[..n], u[n..];
    assert u == front + rest;
    TrailingBehind(front, rest);
    AllTrailing(front);
    AllTrailing(rest);
    if NoSpace(rest) {
      assert n == LONGEST by {
        assert n < |u| ==> rest[0] == u[n];
      }
      WholePiece(|rest|);
    }
  }

  lemma WholePiece(x: nat)
    ensures (x + LONGEST) % LONGEST == x % LONGEST
  {}

  lemma {:induction false} AllTrailing(s: seq<Byte>)
    ensures NoSpace(s) ==> Trailing(s) == |s|
  {
    if s == [] {
    } else if NoSpace(s) {
      assert NoSpace(s[..|s| - 1]);
      AllTrailing(s[..|s| - 1]);
    }
  }

  lemma {:induction false} SkipIn(s: seq<Byte>, t: seq<Byte>)
    ensures Skip(s + t) == if Skip(s) == [] then Skip(t) else Skip(s) + t
  {
    if s == [] {
      assert s + t == t;
    } else if IsSpace(s[0]) {
      SkipIn(s[1..], t);
      assert (s + t)[1..] == s[1..] + t;
    }
  }

  lemma {:induction false} PieceIn(s: seq<Byte>, t: seq<Byte>, room: nat)
    ensures Piece(s, room) == room || Piece(s, room) < |s| ==> Piece(s + t, room) == Piece(s, room)
    ensures Piece(s, room) == |s| < room && t != [] && !IsSpace(t[0]) ==> Piece(s + t, room) > |s|
  {
    if s == [] {
      assert s + t == t;
    } else if room != 0 && !IsSpace(s[0]) {
      PieceIn(s[1..], t, room - 1);
      assert (s + t)[1..] == s[1..] + t;
    }
  }

  /** Two texts with nothing in between have their words one after the other, or two of them run together. */
  predicate Parted(s: seq<Byte>, t: seq<Byte>) {
    t == [] || IsSpace(t[0]) || Trailing(s) % LONGEST == 0
  }

  /**
   * The words of the second text follow those of the first exactly if one of them has a space at the seam, or the
   * first ends in whole pieces of 31 characters.
   */
  lemma {:induction false} WordsAtSeam(s: seq<Byte>, t: seq<Byte>)
    ensures WordsOf(s + t) == WordsOf(s) + WordsOf(t) <==> Parted(s, t)
    decreases |s|
  {
    hide Skip, Piece, Trailing;
    var u := Skip(s);
    SkipIn(s, t);
    SkipSplits(s);
    if u == [] {
      assert Trailing([]) == 0 by {
        AllTrailing([]);
      }
      SameSkip(s + t, t);
      assert WordsOf(s) + WordsOf(t) == WordsOf(t);
    } else {
      var n := Piece(u, LONGEST);
      PieceIn(u, t, LONGEST);
      if n == |u| < LONGEST {
        SeamInPiece(s, t);
      } else {
        TrailingPiece(u, n);
        WordsAtSeam(u[n..], t);
        var w := [UpperAll(u[..n])];
        assert (u + t)[..n] == u[..n] && (u + t)[n..] == u[n..] + t;
        SameFront(w, WordsOf(u[n..] + t), WordsOf(u[n..]), WordsOf(t));
      }
    }
  }

  lemma SameFront(w: seq<seq<Byte>>, a: seq<seq<Byte>>, b: seq<seq<Byte>>, c: seq<seq<Byte>>)
    ensures w + a == w + b + c <==> a == b + c
  {
    assert w + b + c == w + (b + c);
    if w + a == w + b + c {
      assert a == (w + a)[|w|..] == (w + (b + c))[|w|..] == b + c;
    }
  }

  /** The first text ends inside its only piece left. */
  lemma SeamInPiece(s: seq<Byte>, t: seq<Byte>)
    requires Skip(s) != [] && Piece(Skip(s), LONGEST) == |Skip(s)| < LONGEST
    ensures WordsOf(s + t) == WordsOf(s) + WordsOf(t) <==> Parted(s, t)
  {
    hide Skip, Piece, Trailing, WordsOf, UpperAll;
    SkipSplits(s);
    AllTrailing(Skip(s));
    if t == [] {
      assert s + t == s;
      FirstWord([]);
      assert Skip([]) == [] && WordsOf(s) + [] == WordsOf(s);
    } else if IsSpace(t[0]) {
      assert t == [t[0]] + t[1..];
      WordsAcross(s, t[0], t[1..]);
      WordsOfSpace(t[0], t[1..]);
    } else {
      LongerFirst(s, t);
    }
  }

  /** The first word becomes longer, so the words of both are not those of one and the other. */
  lemma LongerFirst(s: seq<Byte>, t: seq<Byte>)
    requires Skip(s) != [] && Piece(Skip(s), LONGEST) == |Skip(s)| < LONGEST && t != [] && !IsSpace(t[0])
    ensures WordsOf(s + t) != WordsOf(s) + WordsOf(t)
  {
    hide Skip, Piece, WordsOf;
    SkipIn(s, t);
    PieceIn(Skip(s), t, LONGEST);
    FirstWord(s);
    FirstWord(s + t);
    assert |WordsOf(s + t)[0]| > |Skip(s)| == |WordsOf(s)[0]|;
    assert (WordsOf(s) + WordsOf(t))[0] == WordsOf(s)[0];
  }

  lemma NoWords(t: seq<Byte>, k: nat)
    requires k <= |t|
    ensures t == [] ==> WordsOf(t[k..]) == [] && WordsOf(t) == []
  {}

  /** A library that ends in `A` and a file that begins with `B` give the word `AB`. */
  lemma RunTogether()
    ensures WordsOf([65] + [66]) == [[65, 66]] && WordsOf([65]) + WordsOf([66]) == [[65], [66]]
    ensures !Parted([65], [66])
  {
    assert [65] + [66] == [65, 66] && Piece([65, 66][1..], 30) == 1 && Piece([65, 66], 31) == 2;
    assert Piece([65], 31) == 1 && Piece([66], 31) == 1;
    OneWord([65, 66]);
    OneWord([65]);
    OneWord([66]);
  }

  lemma OneWord(s: seq<Byte>)
    requires s != [] && Piece(s, LONGEST) == |s| && UpperAll(s) == s
    ensures WordsOf(s) == [s]
  {
    assert s[..|s|] == s && s[|s|..] == [];
    NoWords(s[|s|..], 0);
  }

  /** No other byte does. */
  lemma SeparatorsAre(c: Byte)
    ensures WordsOf([65] + [c] + [66]) == [[65], [66]] <==> c == 0 || c == 9 || c == 10 || c == 13 || c == 32
  {
    var s := [65, c, 66];
    assert [65] + [c] + [66] == s && [65] + ([c] + [66]) == s;
    assert s[1..] == [c, 66] && s[1..][1..] == [66];
    if IsSpace(c) {
      WordsAcross([65], c, [66]);
      OneLetter(65);
      OneLetter(66);
    } else {
      assert Piece([66], 29) == 1 && Piece([c, 66], 30) == 2 && Piece(s, 31) == 3;
      FirstWord(s);
      assert s[..3] == s && |UpperAll(s)| == 3;
    }
  }

  /** Small letters become capitals, and every other character stays what it is. */
  lemma OneLetter(b: Byte)
    requires !(b == 0 || b == 9 || b == 10 || b == 13 || b == 32)
    ensures WordsOf([b]) == [[if 97 <= b <= 122 then b - 32 else b]]
  {
    assert [b][1..] == [] && Piece([b], 31) == 1 && [b][..1] == [b];
    FirstWord([b]);
    FirstWord([]);
    assert UpperAll([b]) == [Upper(b)];
  }

  /** A word has at most 31 characters, and a longer run is cut into pieces of that many. */
  lemma PiecesOf31(s: seq<Byte>)
    requires NoSpace(s) && s != []
    ensures WordsOf(s) == if |s| <= 31 then [UpperAll(s)] else [UpperAll(s[..31])] + WordsOf(s[31..])
  {
    hide Skip, Piece, UpperAll;
    NothingSkipped(s);
    FirstWord(s);
    if |s| <= 31 {
      assert s[..|s|] == s && s[|s|..] == [];
      NothingSkipped([]);
      FirstWord([]);
    }
  }

  lemma NothingSkipped(s: seq<Byte>)
    requires NoSpace(s)
    ensures Skip(s) == s && Piece(s, 31) == if |s| <= 31 then |s| else 31
  {
    hide Piece;
  }

  /** The texts differ at most in the case of letters. */
  predicate SameLetters(s: seq<Byte>, t: seq<Byte>) {
    |s| == |t| && forall i :: 0 <= i < |s| ==> SameLetter(s[i], t[i])
  }

  predicate SameLetter(b: Byte, c: Byte) {
    b == c || (97 <= b <= 122 && c == b - 32) || (97 <= c <= 122 && b == c - 32)
  }

  lemma {:induction false} SameSkipped(s: seq<Byte>, t: seq<Byte>)
    requires SameLetters(s, t)
    ensures SameLetters(Skip(s), Skip(t))
  {
    if s != [] && IsSpace(s[0]) {
      assert SameLetter(s[0], t[0]);
      SameSkipped(s[1..], t[1..]);
    }
  }

  lemma {:induction false} SamePiece(s: seq<Byte>, t: seq<Byte>, room: nat)
    requires SameLetters(s, t)
    ensures Piece(s, room) == Piece(t, room)
  {
    if s != [] && room != 0 {
      assert SameLetter(s[0], t[0]);
      SamePiece(s[1..], t[1..], room - 1);
    }
  }

  lemma SameUpper(s: seq<Byte>, t: seq<Byte>)
    requires SameLetters(s, t)
    ensures UpperAll(s) == UpperAll(t)
  {
    forall i | 0 <= i < |s|
      ensures Upper(s[i]) == Upper(t[i])
    {
      assert SameLetter(s[i], t[i]);
    }
  }

  /** The case of letters does not matter. */
  lemma {:induction false} CaseDoesNotMatter(s: seq<Byte>, t: seq<Byte>)
    requires SameLetters(s, t)
    ensures WordsOf(s) == WordsOf(t)
    decreases |s|
  {
    hide Skip, Piece, UpperAll, WordsOf, SameLetter;
    var u, v := Skip(s), Skip(t);
    SameSkipped(s, t);
    FirstWord(s);
    FirstWord(t);
    if u != [] {
      var n := Piece(u, LONGEST);
      SamePiece(u, v, LONGEST);
      SameUpper(u[..n], v[..n]);
      CaseDoesNotMatter(u[n..], v[n..]);
    }
  }

  predicate NoSmallLetter(w: seq<Byte>) {
    forall i :: 0 <= i < |w| ==> !(97 <= w[i] <= 122)
  }

  lemma UpperNotSmall(s: seq<Byte>)
    ensures NoSmallLetter(UpperAll(s))
  {
  }

  /** No word has a small letter in it. */
  lemma {:induction false} WordsAreUpper(s: seq<Byte>)
    ensures forall w <- WordsOf(s) :: NoSmallLetter(w)
    decreases |s|
  {
    hide Skip, Piece, UpperAll, WordsOf, NoSmallLetter;
    FirstWord(s);
    var u := Skip(s);
    if u != [] {
      var n := Piece(u, LONGEST);
      UpperNotSmall(u[..n]);
      WordsAreUpper(u[n..]);
    }
  }
}
