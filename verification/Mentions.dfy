/**
 @-mentions. The parser returns exactly the word-start `@` tokens that look like
 paths, in order; replacing them from the last to the first deletes exactly their `@` bytes, and every
 slice taken on the way falls on a UTF-8 boundary.
 */
module Mentions {
  import opened Utf8

  const AT: Byte := 0x40
  const HTTP: seq<Byte> := [0x68, 0x74, 0x74, 0x70]

  predicate IsSpace(b: Byte) {
    b == 0x20 || b == 0x09 || b == 0x0A || b == 0x0C || b == 0x0D
  }

  datatype Mention = Mention(path: seq<Byte>, start: nat, end: nat)

  /** An `@` at the start of the text or after white space. */
  predicate WordStart(s: seq<Byte>, i: nat) {
    i < |s| && s[i] == AT && (i == 0 || IsSpace(s[i - 1]))
  }

  predicate Stops(s: seq<Byte>, i: nat)
    requires i <= |s|
  {
    i == |s| || IsSpace(s[i]) || s[i] == AT
  }

  /** Where a token that is still running at `i` ends. */
  function TokenEnd(s: seq<Byte>, i: nat): (e: nat)
    requires i <= |s|
    ensures i <= e <= |s| && Stops(s, e) && forall k :: i <= k < e ==> !Stops(s, k)
    decreases |s| - i
  {
    if Stops(s, i) then i else TokenEnd(s, i + 1)
  }

  /** The filter on the token's text. */
  predicate LooksLikePath(p: seq<Byte>) {
    (0x2F in p || 0x2E in p) && |p| >= 3 && !(HTTP <= p)
  }

  predicate IsMentionStart(s: seq<Byte>, i: nat) {
    WordStart(s, i) && LooksLikePath(s[i + 1..TokenEnd(s, i + 1)])
  }

  function MentionAt(s: seq<Byte>, i: nat): Mention
    requires i < |s|
  {
    Mention(s[i + 1..TokenEnd(s, i + 1)], i, TokenEnd(s, i + 1))
  }

  /** The mentions that start before `n`, in order. */
  function MentionsBefore(s: seq<Byte>, n: nat): seq<Mention>
    requires n <= |s|
  {
    if n == 0 then []
    else MentionsBefore(s, n - 1) + (if IsMentionStart(s, n - 1) then [MentionAt(s, n - 1)] else [])
  }

  /** Where no `@` stands no mention starts. */
  lemma {:induction false} NoMentionsBetween(s: seq<Byte>, m: nat, n: nat)
    requires m <= n <= |s| && forall k :: m <= k < n ==> s[k] != AT
    ensures MentionsBefore(s, n) == MentionsBefore(s, m)
    decreases n
  {
    if m < n {
      NoMentionsBetween(s, m, n - 1);
    }
  }

  /** A byte that ends a token: a blank, tab, line feed, form feed or carriage return, or another `@`. */
  predicate EndsToken(b: Byte) {
    b == ' ' as int || b == '\t' as int || b == '\n' as int || b == 0x0C || b == '\r' as int || b == '@' as int
  }

  /** Slash or dot, three bytes, and no web address. */
  predicate NamesPath(w: seq<Byte>) {
    && (exists i :: 0 <= i < |w| && (w[i] == '/' as int || w[i] == '.' as int))
    && |w| >= 3
    && !(|w| >= 4 && w[0] == 'h' as int && w[1] == 't' as int && w[2] == 't' as int && w[3] == 'p' as int)
  }

  lemma TokenRuns(s: seq<Byte>, i: nat, n: nat)
    requires i <= n <= |s| && (n == |s| || EndsToken(s[n])) && forall k :: i <= k < n ==> !EndsToken(s[k])
    ensures TokenEnd(s, i) == n
    decreases n - i
  {
    if i < n {
      TokenRuns(s, i + 1, n);
    }
  }

  /** A text that starts with `@` and a token starts with a mention exactly if the token names a path. */
  lemma WhichTokensAreMentions(w: seq<Byte>, tail: seq<Byte>)
    requires forall k :: 0 <= k < |w| ==> !EndsToken(w[k])
    requires tail != [] ==> EndsToken(tail[0])
    ensures MentionsBefore(['@' as int] + w + tail, 1 + |w|) == if NamesPath(w) then [Mention(w, 0, 1 + |w|)] else []
  {
    var s := ['@' as int] + w + tail;
    TokenRuns(s, 1, 1 + |w|);
    assert s[1..1 + |w|] == w;
    MentionsOverToken(s, 0);
    PathsAreNamed(w);
  }

  lemma PathsAreNamed(w: seq<Byte>)
    ensures LooksLikePath(w) <==> NamesPath(w)
  {
    assert HTTP <= w <==> |w| >= 4 && w[0] == HTTP[0] && w[1] == HTTP[1] && w[2] == HTTP[2] && w[3] == HTTP[3];
  }

  method ContainsByte(p: seq<Byte>, b: Byte) returns (r: bool)
    ensures r <==> b in p
  {
    for k := 0 to |p|
      invariant b !in p[..k]
    {
      if p[k] == b {
        return true;
      }
    }
    return false;
  }

  /** The mentions up to the end of a token are those before it and perhaps the token itself. */
  lemma MentionsOverToken(s: seq<Byte>, i: nat)
    requires WordStart(s, i)
    ensures MentionsBefore(s, TokenEnd(s, i + 1)) ==
      MentionsBefore(s, i) + (if LooksLikePath(MentionAt(s, i).path) then [MentionAt(s, i)] else [])
  {
    var e := TokenEnd(s, i + 1);
    forall k | i + 1 <= k < e
      ensures s[k] != AT
    {
      assert !Stops(s, k);
    }
    NoMentionsBetween(s, i + 1, e);
  }

  /** The inner loop: from behind the `@` to the end of the token. */
  method ScanToken(text: seq<Byte>, pathStart: nat) returns (i: nat)
    requires pathStart <= |text|
    ensures i == TokenEnd(text, pathStart)
  {
    i := pathStart;
    while i < |text| && !IsSpace(text[i]) && text[i] != AT
      invariant pathStart <= i <= |text|
      invariant TokenEnd(text, pathStart) == TokenEnd(text, i)
      decreases |text| - i
    {
      i := i + 1;
    }
  }

  method PassesFilter(path: seq<Byte>) returns (r: bool)
    ensures r == LooksLikePath(path)
  {
    var slash := ContainsByte(path, 0x2F);
    var dot := ContainsByte(path, 0x2E);
    r := (slash || dot) && |path| >= 3 && !(HTTP <= path);
  }

  /** `parse_mentions`. Every slice of the text is taken at boundaries. */
  method ParseMentions(text: seq<Byte>) returns (mentions: seq<Mention>)
    requires WellFormed(text)
    ensures mentions == MentionsBefore(text, |text|)
  {
    mentions := [];
    var i := 0;
    while i < |text|
      invariant 0 <= i <= |text|
      invariant mentions == MentionsBefore(text, i)
      decreases |text| - i
    {
      if text[i] == AT {
        if i > 0 && !IsSpace(text[i - 1]) {
          i := i + 1;
          continue;
        }
        var start := i;
        i := i + 1;
        var pathStart := i;
        i := ScanToken(text, pathStart);
        TokenBoundaries(text, start);
        MentionsOverToken(text, start);
        var path := Slice(text, pathStart, i);
        var passes := PassesFilter(path);
        if passes {
          mentions := mentions + [Mention(path, start, i)];
        }
      } else {
        i := i + 1;
      }
    }
  }

  /** `&text[a..b]`: allowed only at boundaries. */
  method Slice(text: seq<Byte>, a: nat, b: nat) returns (r: seq<Byte>)
    requires a <= b <= |text| && Boundary(text, a) && Boundary(text, b)
    ensures r == text[a..b] && WellFormed(r)
  {
    SliceWellFormed(text, a, b);
    r := text[a..b];
  }

  lemma WholeIsBoundary(s: seq<Byte>)
    requires WellFormed(s)
    ensures Boundary(s, |s|)
  {
    assert s[..|s|] == s && s[|s|..] == [];
  }

  lemma TokenBoundaries(s: seq<Byte>, i: nat)
    requires WellFormed(s) && i < |s| && s[i] == AT
    ensures Boundary(s, i) && Boundary(s, i + 1) && Boundary(s, TokenEnd(s, i + 1))
  {
    AsciiIsBoundary(s, i);
    var e := TokenEnd(s, i + 1);
    if e < |s| {
      AsciiIsBoundary(s, e);
    } else {
      WholeIsBoundary(s);
    }
  }

  // ---------------------------------------------------------------- what the mentions are

  ghost predicate StartsBefore(ms: seq<Mention>, n: nat) {
    forall k :: 0 <= k < |ms| ==> ms[k].start < n
  }

  /** Every mention is the token at its start, and they lie apart from each other in increasing order. */
  ghost predicate Ordered(s: seq<Byte>, ms: seq<Mention>) {
    && (forall k :: 0 <= k < |ms| ==> IsMentionStart(s, ms[k].start) && ms[k] == MentionAt(s, ms[k].start))
    && (forall j, k :: 0 <= j < k < |ms| ==> ms[j].end < ms[k].start)
  }

  lemma OrderedAppend(s: seq<Byte>, ms: seq<Mention>, i: nat)
    requires Ordered(s, ms) && StartsBefore(ms, i) && IsMentionStart(s, i)
    ensures Ordered(s, ms + [MentionAt(s, i)]) && StartsBefore(ms + [MentionAt(s, i)], i + 1)
  {
    forall j | 0 <= j < |ms|
      ensures ms[j].end < i
    {
      EarlierTokenEnds(s, ms[j].start, i);
    }
  }

  lemma {:induction false} MentionsOrdered(s: seq<Byte>, n: nat)
    requires n <= |s|
    ensures StartsBefore(MentionsBefore(s, n), n) && Ordered(s, MentionsBefore(s, n))
  {
    if n == 0 {
    } else {
      MentionsOrdered(s, n - 1);
      if IsMentionStart(s, n - 1) {
        OrderedAppend(s, MentionsBefore(s, n - 1), n - 1);
      } else {
        assert MentionsBefore(s, n) == MentionsBefore(s, n - 1);
      }
    }
  }

  lemma {:induction false} EveryTokenIsMentioned(s: seq<Byte>, n: nat, i: nat)
    requires i < n <= |s| && IsMentionStart(s, i)
    ensures MentionAt(s, i) in MentionsBefore(s, n)
    decreases n
  {
    if i < n - 1 {
      EveryTokenIsMentioned(s, n - 1, i);
    } else {
      var before := MentionsBefore(s, i);
      assert (before + [MentionAt(s, i)])[|before|] == MentionAt(s, i);
    }
  }

  /** The mentions lie in bounds, apart from each other and increasing, and are exactly the tokens that pass. */
  lemma MentionsAreTheTokens(s: seq<Byte>)
    ensures Ordered(s, MentionsBefore(s, |s|))
    ensures forall m <- MentionsBefore(s, |s|) :: m.start + 4 <= m.end <= |s|
    ensures forall i :: 0 <= i < |s| && IsMentionStart(s, i) ==> MentionAt(s, i) in MentionsBefore(s, |s|)
  {
    MentionsOrdered(s, |s|);
    forall i | 0 <= i < |s| && IsMentionStart(s, i)
      ensures MentionAt(s, i) in MentionsBefore(s, |s|)
    {
      EveryTokenIsMentioned(s, |s|, i);
    }
  }

  /** A token ends before the white space in front of a later word start. */
  lemma EarlierTokenEnds(s: seq<Byte>, i: nat, n: nat)
    requires i < n && IsMentionStart(s, i) && WordStart(s, n)
    ensures TokenEnd(s, i + 1) < n
  {
    assert Stops(s, n - 1);
  }

  // ---------------------------------------------------------------- rewriting

  predicate IsStart(ms: seq<Mention>, i: nat) {
    exists k :: 0 <= k < |ms| && ms[k].start == i
  }

  /** The bytes from `p` on without the `@` bytes of the mentions. */
  function Kept(s: seq<Byte>, ms: seq<Mention>, p: nat): seq<Byte>
    requires p <= |s|
    decreases |s| - p
  {
    if p == |s| then []
    else (if IsStart(ms, p) then [] else [s[p]]) + Kept(s, ms, p + 1)
  }

  lemma {:induction false} NothingDeletedBetween(s: seq<Byte>, ms: seq<Mention>, p: nat, q: nat)
    requires p <= q <= |s| && forall i :: p <= i < q ==> !IsStart(ms, i)
    ensures Kept(s, ms, p) == s[p..q] + Kept(s, ms, q)
    decreases q - p
  {
    if p == q {
      assert s[p..q] == [];
    } else {
      NothingDeletedBetween(s, ms, p + 1, q);
      Reassociate([s[p]], s[p + 1..q], Kept(s, ms, q));
    }
  }

  /** `String::replace_range`: allowed only at boundaries. */
  method ReplaceRange(s: seq<Byte>, a: nat, b: nat, text: seq<Byte>) returns (r: seq<Byte>)
    requires a <= b <= |s| && Boundary(s, a) && Boundary(s, b) && WellFormed(text)
    ensures r == s[..a] + text + s[b..] && WellFormed(r)
  {
    WellFormedConcat(s[..a], text);
    WellFormedConcat(s[..a] + text, s[b..]);
    r := s[..a] + text + s[b..];
  }

  /** Where the untouched part of the text ends when the mentions from `k` on have been rewritten. */
  function Untouched(s: seq<Byte>, ms: seq<Mention>, k: nat): nat
    requires k <= |ms|
  {
    if k == |ms| then |s| else ms[k].start
  }

  /** The rewriting loop of `expand_mentions`. */
  method RewriteMentions(text: seq<Byte>) returns (cleaned: seq<Byte>)
    requires WellFormed(text)
    ensures cleaned == Kept(text, MentionsBefore(text, |text|), 0)
    ensures WellFormed(cleaned)
  {
    var ms := ParseMentions(text);
    MentionsAreTheTokens(text);
    cleaned := text;
    var k := |ms|;
    assert text == text[..|text|] + Kept(text, ms, |text|);
    while k > 0
      invariant 0 <= k <= |ms|
      invariant WellFormed(cleaned)
      invariant cleaned == text[..Untouched(text, ms, k)] + Kept(text, ms, Untouched(text, ms, k))
    {
      var p := Untouched(text, ms, k);
      k := k - 1;
      var m := ms[k];
      MentionBoundaries(text, ms, k, p, cleaned);
      PathWellFormed(text, m);
      var next := ReplaceRange(cleaned, m.start, m.end, m.path);
      RewriteStep(text, ms, k, p, cleaned);
      cleaned := next;
    }
    NothingDeletedBefore(text, ms);
  }

  lemma NothingDeletedBefore(s: seq<Byte>, ms: seq<Mention>)
    requires Ordered(s, ms)
    ensures var p := Untouched(s, ms, 0); p <= |s| && Kept(s, ms, 0) == s[..p] + Kept(s, ms, p)
  {
    var p := Untouched(s, ms, 0);
    assert forall j :: 0 <= j < |ms| ==> ms[j].start >= p;
    NothingDeletedBetween(s, ms, 0, p);
    assert s[0..p] == s[..p];
  }

  lemma PathWellFormed(s: seq<Byte>, m: Mention)
    requires WellFormed(s) && IsMentionStart(s, m.start) && m == MentionAt(s, m.start)
    ensures WellFormed(m.path)
  {
    TokenBoundaries(s, m.start);
    SliceWellFormed(s, m.start + 1, m.end);
  }

  /** In the partly rewritten text the next mention still stands where it was found, at boundaries. */
  lemma MentionBoundaries(s: seq<Byte>, ms: seq<Mention>, k: nat, p: nat, cleaned: seq<Byte>)
    requires Ordered(s, ms) && k < |ms| && p == Untouched(s, ms, k + 1) && p <= |s|
    requires WellFormed(cleaned) && cleaned == s[..p] + Kept(s, ms, p)
    ensures var m := ms[k]; m.start < m.end <= p && Boundary(cleaned, m.start) && Boundary(cleaned, m.end)
  {
    var m := ms[k];
    assert cleaned[m.start] == s[m.start] == AT;
    AsciiIsBoundary(cleaned, m.start);
    if m.end < p {
      assert cleaned[m.end] == s[m.end];
      AsciiIsBoundary(cleaned, m.end);
    } else {
      assert k + 1 == |ms|;
      assert Kept(s, ms, |s|) == [];
      assert cleaned == s;
      WholeIsBoundary(cleaned);
    }
  }

  lemma RewriteStep(s: seq<Byte>, ms: seq<Mention>, k: nat, p: nat, cleaned: seq<Byte>)
    requires Ordered(s, ms) && k < |ms| && p == Untouched(s, ms, k + 1) && p <= |s|
    requires cleaned == s[..p] + Kept(s, ms, p) && ms[k].start < ms[k].end <= p
    ensures var m := ms[k];
      cleaned[..m.start] + m.path + cleaned[m.end..] == s[..m.start] + Kept(s, ms, m.start)
  {
    var m := ms[k];
    KeptFromMention(s, ms, k, p);
    assert cleaned[..m.start] == s[..m.start];
    assert cleaned[m.end..] == s[m.end..p] + Kept(s, ms, p);
    PathThenRest(s, m, p, Kept(s, ms, p));
    Reassociate(s[..m.start], m.path, cleaned[m.end..]);
  }

  lemma Reassociate(a: seq<Byte>, b: seq<Byte>, c: seq<Byte>)
    ensures a + b + c == a + (b + c)
  {
  }

  lemma PathThenRest(s: seq<Byte>, m: Mention, p: nat, rest: seq<Byte>)
    requires m.start < m.end <= p <= |s| && m.path == s[m.start + 1..m.end]
    ensures m.path + (s[m.end..p] + rest) == s[m.start + 1..p] + rest
  {
    assert s[m.start + 1..p] == m.path + s[m.end..p];
  }

  /** From a mention's start on, everything up to the next mention is kept except its `@`. */
  lemma KeptFromMention(s: seq<Byte>, ms: seq<Mention>, k: nat, p: nat)
    requires Ordered(s, ms) && k < |ms| && p == Untouched(s, ms, k + 1) && p <= |s| && ms[k].start < p
    ensures Kept(s, ms, ms[k].start) == s[ms[k].start + 1..p] + Kept(s, ms, p)
  {
    var m := ms[k];
    assert IsStart(ms, m.start);
    forall i | m.start + 1 <= i < p
      ensures !IsStart(ms, i)
    {
    }
    NothingDeletedBetween(s, ms, m.start + 1, p);
  }
}
