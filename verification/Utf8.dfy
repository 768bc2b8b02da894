/** Well-formed UTF-8 byte strings, by the syntax of section 4 of RFC 3629, and where they may be cut. */
module Utf8 {

  type Byte = b: int | 0 <= b < 256

  predicate Tail(b: Byte) {
    0x80 <= b <= 0xBF
  }

  /** Length of the well-formed character that `s` starts with, or 0. */
  function CharLen(s: seq<Byte>): (n: nat)
    ensures n <= |s|
  {
    if s == [] then 0
    else if s[0] <= 0x7F then 1
    else if 0xC2 <= s[0] <= 0xDF then
      if |s| >= 2 && Tail(s[1]) then 2 else 0
    else if 0xE0 <= s[0] <= 0xEF then
      if |s| >= 3 && Tail(s[1]) && Tail(s[2])
         && (s[0] == 0xE0 ==> s[1] >= 0xA0) && (s[0] == 0xED ==> s[1] <= 0x9F) then 3 else 0
    else if 0xF0 <= s[0] <= 0xF4 then
      if |s| >= 4 && Tail(s[1]) && Tail(s[2]) && Tail(s[3])
         && (s[0] == 0xF0 ==> s[1] >= 0x90) && (s[0] == 0xF4 ==> s[1] <= 0x8F) then 4 else 0
    else 0
  }

  predicate WellFormed(s: seq<Byte>)
    decreases |s|
  {
    s == [] || (CharLen(s) > 0 && WellFormed(s[CharLen(s)..]))
  }

  /** A place where the text may be sliced: both sides are texts. */
  predicate Boundary(s: seq<Byte>, i: nat) {
    i <= |s| && WellFormed(s[..i]) && WellFormed(s[i..])
  }

  lemma {:induction false} WellFormedConcat(a: seq<Byte>, b: seq<Byte>)
    requires WellFormed(a) && WellFormed(b)
    ensures WellFormed(a + b)
    decreases |a|
  {
    if a == [] {
      assert a + b == b;
    } else {
      var n := CharLen(a);
      assert (a + b)[..n] == a[..n] && (a + b)[n..] == a[n..] + b;
      WellFormedConcat(a[n..], b);
    }
  }

  lemma DropTwice(s: seq<Byte>, n: nat, i: nat)
    requires n <= i <= |s|
    ensures s[n..][i - n..] == s[i..] && s[n..][..i - n] == s[..i][n..] && s[..i][..n] == s[..n]
  {
  }

  lemma AsciiAlone(s: seq<Byte>)
    requires s != [] && s[0] < 0x80
    ensures CharLen(s) == 1 && WellFormed(s[..0]) && WellFormed(s[..1]) && s[0..] == s
  {
    assert CharLen(s[..1]) == 1 && s[..1][1..] == [];
  }

  /** The bytes behind the first of a character are no ASCII bytes. */
  lemma AsciiIsBehindFirstChar(s: seq<Byte>, i: nat)
    requires WellFormed(s) && 0 < i < |s| && s[i] < 0x80
    ensures 0 < CharLen(s) <= i && WellFormed(s[CharLen(s)..])
  {
    assert forall k :: 1 <= k < CharLen(s) ==> s[k] >= 0x80;
  }

  /** Before and after an ASCII byte there are always boundaries. */
  lemma {:induction false} AsciiIsBoundary(s: seq<Byte>, i: nat)
    requires WellFormed(s) && i < |s| && s[i] < 0x80
    ensures Boundary(s, i) && Boundary(s, i + 1)
    decreases |s|
  {
    if i == 0 {
      AsciiAlone(s);
    } else {
      AsciiIsBehindFirstChar(s, i);
      var n := CharLen(s);
      AsciiIsBoundary(s[n..], i - n);
      BoundaryBehindFirstChar(s, i);
      BoundaryBehindFirstChar(s, i + 1);
    }
  }

  /** A boundary of the rest behind the first character is a boundary of the text. */
  lemma BoundaryBehindFirstChar(s: seq<Byte>, i: nat)
    requires 0 < CharLen(s) <= i && Boundary(s[CharLen(s)..], i - CharLen(s))
    ensures Boundary(s, i)
  {
    var n := CharLen(s);
    DropTwice(s, n, i);
  }

  /** A text that starts with a text has its first character, and what is left starts with what is left of that. */
  lemma FirstCharOfPrefix(s: seq<Byte>, i: nat) returns (n: nat)
    requires 0 < i <= |s| && WellFormed(s[..i]) && WellFormed(s)
    ensures 0 < n <= i && WellFormed(s[n..]) && WellFormed(s[n..][..i - n]) && s[n..][i - n..] == s[i..]
  {
    n := CharLen(s[..i]);
    DropTwice(s, n, i);
  }

  /** What is left of a text behind a text is a text. */
  lemma {:induction false} RestWellFormed(s: seq<Byte>, i: nat)
    requires i <= |s| && WellFormed(s[..i]) && WellFormed(s)
    ensures WellFormed(s[i..])
    decreases |s|
  {
    if i == 0 {
      assert s[0..] == s;
    } else {
      var n := FirstCharOfPrefix(s, i);
      RestWellFormed(s[n..], i - n);
    }
  }

  /** The text between two boundaries is a text. */
  lemma SliceWellFormed(s: seq<Byte>, i: nat, j: nat)
    requires i <= j && Boundary(s, i) && Boundary(s, j)
    ensures WellFormed(s[i..j])
  {
    assert s[..j][..i] == s[..i] && s[..j][i..] == s[i..j];
    RestWellFormed(s[..j], i);
  }
}
