/**
 The first-object scan over model output. Counting braces with one integer finds the shortest
 brace-balanced substring that starts at the first opening brace, where being balanced is defined by a
 grammar that knows no counter.
 */
module JsonScan {
  import opened Options
  import opened Utf8

  const OPEN: Byte := 0x7B
  const CLOSE: Byte := 0x7D

  // ---------------------------------------------------------------- balanced texts

  /** The grammar: nothing, a byte that is no brace and a balanced text, or `{` balanced `}` balanced. */
  ghost predicate Balanced(w: seq<Byte>)
    decreases |w|
  {
    || w == []
    || (w[0] != OPEN && w[0] != CLOSE && Balanced(w[1..]))
    || (w[0] == OPEN && exists j :: 1 <= j < |w| && w[j] == CLOSE && Balanced(w[1..j]) && Balanced(w[j + 1..]))
  }

  function Weight(b: Byte): int {
    if b == OPEN then 1 else if b == CLOSE then -1 else 0
  }

  /** Opening minus closing braces. */
  function Net(w: seq<Byte>): int {
    if w == [] then 0 else Weight(w[0]) + Net(w[1..])
  }

  lemma {:induction false} NetConcat(a: seq<Byte>, b: seq<Byte>)
    ensures Net(a + b) == Net(a) + Net(b)
  {
    if a == [] {
      assert a + b == b;
    } else {
      assert (a + b)[1..] == a[1..] + b;
      NetConcat(a[1..], b);
    }
  }

  /** No prefix closes more than it opens. */
  ghost predicate NeverBelowZero(w: seq<Byte>) {
    forall k :: 0 <= k <= |w| ==> Net(w[..k]) >= 0
  }

  lemma NetOfPrefix(w: seq<Byte>, m: nat, k: nat)
    requires m <= k <= |w|
    ensures Net(w[..k]) == Net(w[..m]) + Net(w[m..k])
  {
    assert w[..k] == w[..m] + w[m..k];
    NetConcat(w[..m], w[m..k]);
  }

  lemma NetStep(w: seq<Byte>, k: nat)
    requires k < |w|
    ensures Net(w[..k + 1]) == Net(w[..k]) + Weight(w[k])
  {
    NetOfPrefix(w, k, k + 1);
  }

  /** A brace group: what stands between the braces decides about the whole. */
  lemma NetOfGroup(w: seq<Byte>, j: nat, k: nat)
    requires 1 <= j < |w| && k <= |w| && w[0] == OPEN && w[j] == CLOSE
    ensures 1 <= k <= j ==> Net(w[..k]) == 1 + Net(w[1..j][..k - 1])
    ensures j < k ==> Net(w[..k]) == Net(w[1..j]) + Net(w[j + 1..][..k - j - 1])
  {
    assert w[..1] == w[0..1];
    if 1 <= k <= j {
      NetOfPrefix(w, 1, k);
      assert w[1..k] == w[1..j][..k - 1];
    } else if j < k {
      NetOfPrefix(w, 1, j);
      NetStep(w, j);
      NetOfPrefix(w, j + 1, k);
      assert w[j + 1..k] == w[j + 1..][..k - j - 1];
    }
  }

  lemma {:induction false} BalancedCounts(w: seq<Byte>)
    requires Balanced(w)
    ensures Net(w) == 0 && NeverBelowZero(w)
    decreases |w|
  {
    if w == [] {
    } else if w[0] != OPEN {
      BalancedCounts(w[1..]);
      forall k | 0 <= k <= |w|
        ensures Net(w[..k]) >= 0
      {
        if k > 0 {
          assert w[..k][1..] == w[1..][..k - 1];
        }
      }
    } else {
      var j :| 1 <= j < |w| && w[j] == CLOSE && Balanced(w[1..j]) && Balanced(w[j + 1..]);
      BalancedCounts(w[1..j]);
      BalancedCounts(w[j + 1..]);
      GroupCounts(w, j);
    }
  }

  lemma GroupCounts(w: seq<Byte>, j: nat)
    requires 1 <= j < |w| && w[0] == OPEN && w[j] == CLOSE
    requires Net(w[1..j]) == 0 && NeverBelowZero(w[1..j]) && Net(w[j + 1..]) == 0 && NeverBelowZero(w[j + 1..])
    ensures Net(w) == 0 && NeverBelowZero(w)
  {
    forall k | 0 <= k <= |w|
      ensures Net(w[..k]) >= 0
    {
      NetOfGroup(w, j, k);
    }
    NetOfGroup(w, j, |w|);
    assert w[..|w|] == w && w[j + 1..][..|w| - j - 1] == w[j + 1..];
  }

  /** The first prefix after which every opened brace is closed again. */
  lemma {:induction false} FirstReturn(w: seq<Byte>, m: nat) returns (k: nat)
    requires 1 <= m <= |w| && Net(w) == 0 && forall i :: 1 <= i < m ==> Net(w[..i]) > 0
    ensures m <= k <= |w| && Net(w[..k]) <= 0 && forall i :: 1 <= i < k ==> Net(w[..i]) > 0
    decreases |w| - m
  {
    k := m;
    if Net(w[..m]) > 0 {
      assert m < |w| by {
        assert w[..|w|] == w;
      }
      k := FirstReturn(w, m + 1);
    }
  }

  lemma {:induction false} CountsBalanced(w: seq<Byte>)
    requires Net(w) == 0 && NeverBelowZero(w)
    ensures Balanced(w)
    decreases |w|
  {
    if w == [] {
    } else {
      NetStep(w, 0);
      assert w[..1][1..] == [];
      if w[0] != OPEN {
        assert Weight(w[0]) == 0;
        forall k | 0 <= k <= |w[1..]|
          ensures Net(w[1..][..k]) >= 0
        {
          assert w[..k + 1][1..] == w[1..][..k];
        }
        CountsBalanced(w[1..]);
      } else {
        var k := FirstReturn(w, 2);
        GroupSplits(w, k);
        CountsBalanced(w[1..k - 1]);
        CountsBalanced(w[k..]);
        assert w[k - 1 + 1..] == w[k..];
      }
    }
  }

  /** Where the count first returns, a closing brace stands. */
  lemma FirstReturnCloses(w: seq<Byte>, k: nat)
    requires NeverBelowZero(w) && 2 <= k <= |w| && Net(w[..k]) <= 0 && Net(w[..k - 1]) > 0
    ensures w[k - 1] == CLOSE && Net(w[..k]) == 0
  {
    NetStep(w, k - 1);
  }

  lemma InsideGroup(w: seq<Byte>, k: nat)
    requires 2 <= k <= |w| && w[0] == OPEN && w[k - 1] == CLOSE && Net(w[..k]) == 0
    requires forall i :: 1 <= i < k ==> Net(w[..i]) > 0
    ensures Net(w[1..k - 1]) == 0 && NeverBelowZero(w[1..k - 1])
  {
    var v := w[1..k - 1];
    forall i | 0 <= i <= |v|
      ensures Net(w[..i + 1]) == 1 + Net(v[..i]) && Net(v[..i]) >= 0
    {
      NetOfGroup(w, k - 1, i + 1);
      assert Net(w[..i + 1]) > 0;
    }
    NetStep(w, k - 1);
    assert v[..|v|] == v;
  }

  lemma BehindGroup(w: seq<Byte>, k: nat)
    requires k <= |w| && Net(w[..k]) == 0 && Net(w) == 0 && NeverBelowZero(w)
    ensures Net(w[k..]) == 0 && NeverBelowZero(w[k..])
  {
    forall i | 0 <= i <= |w[k..]|
      ensures Net(w[k..][..i]) >= 0
    {
      NetOfPrefix(w, k, k + i);
      assert w[k..][..i] == w[k..k + i] && Net(w[..k + i]) >= 0;
    }
    NetOfPrefix(w, k, |w|);
    assert w[..|w|] == w && w[k..|w|] == w[k..];
  }

  lemma GroupSplits(w: seq<Byte>, k: nat)
    requires w != [] && w[0] == OPEN && Net(w) == 0 && NeverBelowZero(w)
    requires 2 <= k <= |w| && Net(w[..k]) <= 0 && forall i :: 1 <= i < k ==> Net(w[..i]) > 0
    ensures w[k - 1] == CLOSE
    ensures Net(w[1..k - 1]) == 0 && NeverBelowZero(w[1..k - 1]) && Net(w[k..]) == 0 && NeverBelowZero(w[k..])
  {
    FirstReturnCloses(w, k);
    InsideGroup(w, k);
    BehindGroup(w, k);
  }

  /** The grammar and the counter agree on every text. */
  lemma BalancedIffCounts(w: seq<Byte>)
    ensures Balanced(w) <==> Net(w) == 0 && NeverBelowZero(w)
  {
    if Balanced(w) {
      BalancedCounts(w);
    }
    if Net(w) == 0 && NeverBelowZero(w) {
      CountsBalanced(w);
    }
  }

  // ---------------------------------------------------------------- the scan

  predicate NoOpenBefore(s: seq<Byte>, a: nat)
    requires a <= |s|
  {
    forall k :: 0 <= k < a ==> s[k] != OPEN
  }

  /** `a` is where the first opening brace stands. */
  ghost predicate FirstOpen(s: seq<Byte>, a: nat) {
    a < |s| && s[a] == OPEN && NoOpenBefore(s, a)
  }

  /** `s[a..b]` is the shortest balanced text that starts at `a` and is not empty. */
  ghost predicate ShortestBalanced(s: seq<Byte>, a: nat, b: nat) {
    a < b <= |s| && Balanced(s[a..b]) && forall e :: a < e < b ==> !Balanced(s[a..e])
  }

  /** From `a` on every prefix up to `b` has an open brace left. */
  ghost predicate OpenUntil(s: seq<Byte>, a: nat, b: nat)
    requires a <= b <= |s|
  {
    forall e :: a < e <= b ==> Net(s[a..e]) > 0
  }

  lemma OpenIsUnbalanced(s: seq<Byte>, a: nat, b: nat)
    requires a <= b <= |s| && OpenUntil(s, a, b)
    ensures forall e :: a < e <= b ==> !Balanced(s[a..e])
  {
    forall e | a < e <= b
      ensures !Balanced(s[a..e])
    {
      BalancedIffCounts(s[a..e]);
    }
  }

  lemma ReturnIsBalanced(s: seq<Byte>, a: nat, b: nat)
    requires a < b <= |s| && OpenUntil(s, a, b - 1) && Net(s[a..b]) == 0
    ensures ShortestBalanced(s, a, b)
  {
    OpenIsUnbalanced(s, a, b - 1);
    forall k | 0 <= k <= |s[a..b]|
      ensures Net(s[a..b][..k]) >= 0
    {
      assert s[a..b][..k] == s[a..a + k];
    }
    BalancedIffCounts(s[a..b]);
  }

  lemma NetExtends(s: seq<Byte>, a: nat, i: nat)
    requires a <= i < |s|
    ensures Net(s[a..i + 1]) == Net(s[a..i]) + Weight(s[i])
  {
    NetStep(s[a..i + 1], i - a);
    assert s[a..i + 1][..i - a] == s[a..i] && s[a..i + 1][..i - a + 1] == s[a..i + 1];
  }

  /** The first opening brace is matched: a balanced text starts there. */
  ghost predicate FirstIsMatched(s: seq<Byte>) {
    exists a: nat, b: nat :: FirstOpen(s, a) && a < b <= |s| && Balanced(s[a..b])
  }

  /** Counted from the first opening brace, the braces cancel somewhere. */
  ghost predicate CountsBack(s: seq<Byte>) {
    exists a: nat, e: nat :: FirstOpen(s, a) && a < e <= |s| && Net(s[a..e]) == 0
  }

  /** Up to a place where the braces cancel there is a first such place. */
  lemma {:induction false} FirstCancel(s: seq<Byte>, a: nat, m: nat, e: nat) returns (b: nat)
    requires a < m <= e <= |s| && OpenUntil(s, a, m - 1) && Net(s[a..m]) >= 0 && Net(s[a..e]) == 0
    ensures m <= b <= e && OpenUntil(s, a, b - 1) && Net(s[a..b]) == 0
    decreases e - m
  {
    if Net(s[a..m]) == 0 {
      b := m;
    } else {
      NetExtends(s, a, m);
      b := FirstCancel(s, a, m + 1, e);
    }
  }

  /** The first opening brace is matched exactly if the count from it comes back to zero. */
  lemma CountsBackIffMatched(s: seq<Byte>)
    ensures CountsBack(s) <==> FirstIsMatched(s)
  {
    if CountsBack(s) {
      var a: nat, e: nat :| FirstOpen(s, a) && a < e <= |s| && Net(s[a..e]) == 0;
      NetExtends(s, a, a);
      assert s[a..a] == [];
      var b := FirstCancel(s, a, a + 1, e);
      ReturnIsBalanced(s, a, b);
    }
    if FirstIsMatched(s) {
      var a: nat, b: nat :| FirstOpen(s, a) && a < b <= |s| && Balanced(s[a..b]);
      BalancedIffCounts(s[a..b]);
    }
  }

  /** The text from the first opening brace to the closing brace that returns to zero. */
  method SliceObject(s: seq<Byte>, a: nat, i: nat) returns (r: seq<Byte>)
    requires WellFormed(s) && FirstOpen(s, a) && a < i < |s| && s[i] == CLOSE
    requires OpenUntil(s, a, i) && Net(s[a..i + 1]) == 0
    ensures ShortestBalanced(s, a, i + 1) && r == s[a..i + 1] && WellFormed(r)
  {
    ReturnIsBalanced(s, a, i + 1);
    AsciiIsBoundary(s, a);
    AsciiIsBoundary(s, i);
    SliceWellFormed(s, a, i + 1);
    r := s[a..i + 1];
  }

  /** `extract_first_json_object`; the slice is taken at boundaries of the text. */
  method ExtractFirstJsonObject(s: seq<Byte>) returns (r: Option<seq<Byte>>)
    requires WellFormed(s)
    ensures r.Some? ==> exists a: nat, b: nat :: FirstOpen(s, a) && ShortestBalanced(s, a, b) && r.value == s[a..b]
    ensures r.Some? ==> WellFormed(r.value)
    ensures r.Some? <==> CountsBack(s)
    ensures r.Some? <==> FirstIsMatched(s)
  {
    var start: Option<nat> := None;
    var depth := 0;
    for i := 0 to |s|
      invariant start.None? ==> depth == 0 && NoOpenBefore(s, i)
      invariant start.Some? ==> FirstOpen(s, start.value) && start.value < i && OpenUntil(s, start.value, i)
      invariant start.Some? ==> depth == Net(s[start.value..i])
    {
      if s[i] == OPEN {
        if start.None? {
          start := Some(i);
          assert s[i..i] == [];
        }
        NetExtends(s, start.value, i);
        depth := depth + 1;
      } else if s[i] == CLOSE && depth > 0 {
        NetExtends(s, start.value, i);
        depth := depth - 1;
        if depth == 0 {
          var found := SliceObject(s, start.value, i);
          CountsBackIffMatched(s);
          return Some(found);
        }
      } else if start.Some? {
        NetExtends(s, start.value, i);
      }
    }
    if start.Some? {
      OpenIsUnbalanced(s, start.value, |s|);
    }
    assert !CountsBack(s);
    CountsBackIffMatched(s);
    return None;
  }

  // ---------------------------------------------------------------- what the scan misses

  /** Some balanced object stands somewhere in the text. */
  ghost predicate HoldsObject(s: seq<Byte>) {
    exists i, j :: 0 <= i < j <= |s| && s[i] == OPEN && Balanced(s[i..j])
  }

  /** Some closing brace stands behind the first opening one. */
  ghost predicate ClosesLater(s: seq<Byte>) {
    exists a: nat, j: nat :: FirstOpen(s, a) && a < j < |s| && s[j] == CLOSE
  }

  /** The place of the last opening brace before `j`. */
  lemma {:induction false} LastOpenBefore(s: seq<Byte>, a: nat, j: nat) returns (i: nat)
    requires a < j <= |s| && s[a] == OPEN
    ensures a <= i < j && s[i] == OPEN && forall k :: i < k < j ==> s[k] != OPEN
    decreases j
  {
    if s[j - 1] == OPEN {
      i := j - 1;
    } else {
      i := LastOpenBefore(s, a, j - 1);
    }
  }

  /** The place of the first closing brace from `a` on. */
  lemma {:induction false} FirstCloseAfter(s: seq<Byte>, a: nat, j: nat) returns (c: nat)
    requires a <= j < |s| && s[j] == CLOSE
    ensures a <= c <= j && s[c] == CLOSE && forall k :: a <= k < c ==> s[k] != CLOSE
    decreases j - a
  {
    if s[a] == CLOSE {
      c := a;
    } else {
      c := FirstCloseAfter(s, a + 1, j);
    }
  }

  lemma {:induction false} PlainIsBalanced(w: seq<Byte>)
    requires forall k :: 0 <= k < |w| ==> w[k] != OPEN && w[k] != CLOSE
    ensures Balanced(w)
  {
    if w == [] {
    } else {
      PlainIsBalanced(w[1..]);
    }
  }

  /** A brace pair with no brace between is an object. */
  lemma InnermostPairIsObject(s: seq<Byte>, i: nat, c: nat)
    requires i < c < |s| && s[i] == OPEN && s[c] == CLOSE
    requires forall k :: i < k < c ==> s[k] != OPEN && s[k] != CLOSE
    ensures HoldsObject(s)
  {
    var w := s[i..c + 1];
    var j := c - i;
    assert forall k :: 0 <= k < |w[1..j]| ==> w[1..j][k] == s[i + 1 + k];
    PlainIsBalanced(w[1..j]);
    assert w[j] == CLOSE && w[j + 1..] == [];
    assert Balanced(w);
  }

  /** A balanced object somewhere ends with a closing brace behind the first opening one. */
  lemma ObjectCloses(s: seq<Byte>, i: nat, j: nat)
    requires i < j <= |s| && s[i] == OPEN && Balanced(s[i..j])
    ensures ClosesLater(s)
  {
    var w := s[i..j];
    var k :| 1 <= k < |w| && w[k] == CLOSE && Balanced(w[1..k]) && Balanced(w[k + 1..]);
    var a := FirstOpenUpTo(s, i);
    assert s[i + k] == CLOSE;
  }

  lemma {:induction false} FirstOpenUpTo(s: seq<Byte>, i: nat) returns (a: nat)
    requires i < |s| && s[i] == OPEN
    ensures a <= i && FirstOpen(s, a)
    decreases i
  {
    if k :| 0 <= k < i && s[k] == OPEN {
      a := FirstOpenUpTo(s, k);
    } else {
      a := i;
    }
  }

  /** A text holds an object exactly if a closing brace stands behind its first opening one. */
  lemma ObjectIffClosesLater(s: seq<Byte>)
    ensures HoldsObject(s) <==> ClosesLater(s)
  {
    if HoldsObject(s) {
      var i, j :| 0 <= i < j <= |s| && s[i] == OPEN && Balanced(s[i..j]);
      ObjectCloses(s, i, j);
    }
    if ClosesLater(s) {
      var a: nat, j: nat :| FirstOpen(s, a) && a < j < |s| && s[j] == CLOSE;
      var c := FirstCloseAfter(s, a + 1, j);
      var i := LastOpenBefore(s, a, c);
      InnermostPairIsObject(s, i, c);
    }
  }

  /**
   The documented promise, that nothing is returned only when the text holds no object, is kept exactly for the
   texts where the count from the first opening brace comes back to zero, or no closing brace follows it.
   */
  lemma PromiseKeptExactly(s: seq<Byte>)
    ensures (HoldsObject(s) ==> FirstIsMatched(s)) <==> CountsBack(s) || !ClosesLater(s)
  {
    ObjectIffClosesLater(s);
    CountsBackIffMatched(s);
  }

  /** An unmatched first brace hides every balanced object behind it: `{ {}` has one and none is found. */
  lemma UnmatchedBraceHidesLaterObjects()
    ensures var s: seq<Byte> := [OPEN, 0x20, OPEN, CLOSE];
      ShortestBalanced(s, 2, 4) && HoldsObject(s) && !FirstIsMatched(s)
  {
    var s: seq<Byte> := [OPEN, 0x20, OPEN, CLOSE];
    NetExtends(s, 0, 0);
    NetExtends(s, 0, 1);
    NetExtends(s, 0, 2);
    NetExtends(s, 0, 3);
    assert s[0..0] == [] && s[2..2] == [];
    OpenIsUnbalanced(s, 0, 4);
    NetExtends(s, 2, 2);
    NetExtends(s, 2, 3);
    ReturnIsBalanced(s, 2, 4);
  }
}
