/**
 Glob patterns for model names. `Matches` says declaratively when a pattern matches:
 the text can be divided into one span per pattern character. The matcher with its
 retry loop decides exactly that, and the filter keeps exactly the matching pairs in order.
 */
module ModelGlob {

  /** `*` takes any span, `?` any one character, every other character itself. */
  predicate Fits(p: char, span: string) {
    if p == '*' then true else if p == '?' then |span| == 1 else span == [p]
  }

  function Concat(spans: seq<string>): string {
    if spans == [] then "" else spans[0] + Concat(spans[1..])
  }

  ghost predicate Divides(spans: seq<string>, p: string, t: string) {
    |spans| == |p| && Concat(spans) == t && forall i :: 0 <= i < |p| ==> Fits(p[i], spans[i])
  }

  ghost predicate Matches(p: string, t: string) {
    exists spans :: Divides(spans, p, t)
  }

  // ---------------------------------------------------------------- reading a pattern from the left

  lemma MatchesEmptyPattern(t: string)
    ensures Matches("", t) <==> t == ""
  {
    assert Divides([], "", "");
  }

  /** A pattern matches if its first character fits a prefix and the rest matches what remains. */
  lemma MatchesAfterPrefix(p: string, t: string, n: nat)
    requires p != "" && n <= |t| && Fits(p[0], t[..n]) && Matches(p[1..], t[n..])
    ensures Matches(p, t)
  {
    var spans :| Divides(spans, p[1..], t[n..]);
    var all := [t[..n]] + spans;
    assert all[1..] == spans && t == t[..n] + t[n..];
    assert forall i :: 1 <= i < |p| ==> p[i] == p[1..][i - 1];
    assert Divides(all, p, t);
  }

  /** The span that the first character takes. */
  lemma FirstSpan(p: string, t: string) returns (n: nat)
    requires p != "" && Matches(p, t)
    ensures n <= |t| && Fits(p[0], t[..n]) && Matches(p[1..], t[n..])
  {
    var spans :| Divides(spans, p, t);
    n := |spans[0]|;
    assert t[..n] == spans[0] && t[n..] == Concat(spans[1..]);
    assert forall i :: 0 <= i < |p[1..]| ==> p[1..][i] == p[i + 1] && spans[1..][i] == spans[i + 1];
    assert Divides(spans[1..], p[1..], t[n..]);
  }

  lemma MatchesOne(p: string, t: string)
    requires p != "" && p[0] != '*'
    ensures Matches(p, t) <==> t != "" && Fits(p[0], t[..1]) && Matches(p[1..], t[1..])
  {
    if Matches(p, t) {
      var n := FirstSpan(p, t);
      assert n == 1;
    }
    if t != "" && Fits(p[0], t[..1]) && Matches(p[1..], t[1..]) {
      MatchesAfterPrefix(p, t, 1);
    }
  }

  lemma MatchesStar(p: string, t: string)
    requires p != "" && p[0] == '*'
    ensures Matches(p, t) <==> exists n :: 0 <= n <= |t| && Matches(p[1..], t[n..])
  {
    if Matches(p, t) {
      var n := FirstSpan(p, t);
    }
    if n :| 0 <= n <= |t| && Matches(p[1..], t[n..]) {
      MatchesAfterPrefix(p, t, n);
    }
  }

  /** A trailing star matches every text. */
  lemma MatchesTrailingStar(t: string)
    ensures Matches("*", t)
  {
    MatchesEmptyPattern("");
    assert t[|t|..] == "" && "*"[1..] == "";
    MatchesAfterPrefix("*", t, |t|);
  }

  // ---------------------------------------------------------------- the matcher

  /** One character that is not a star, at position `i` of the pattern and `j` of the text. */
  lemma OneAt(p: string, t: string, i: nat, j: nat)
    requires i < |p| && j <= |t| && p[i] != '*'
    ensures Matches(p[i..], t[j..]) <==> j < |t| && (p[i] == '?' || t[j] == p[i]) && Matches(p[i + 1..], t[j + 1..])
  {
    MatchesOne(p[i..], t[j..]);
    assert p[i..][0] == p[i] && p[i..][1..] == p[i + 1..];
    if j < |t| {
      assert t[j..][1..] == t[j + 1..] && t[j..][..1] == [t[j]];
    }
  }

  lemma StarAt(p: string, t: string, i: nat, j: nat)
    requires i < |p| && j <= |t| && p[i] == '*'
    ensures i + 1 == |p| ==> Matches(p[i..], t[j..])
    ensures Matches(p[i..], t[j..]) <==> exists n :: 0 <= n <= |t[j..]| && Matches(p[i + 1..], t[j..][n..])
  {
    assert p[i..][0] == p[i] && p[i..][1..] == p[i + 1..];
    MatchesStar(p[i..], t[j..]);
    if i + 1 == |p| {
      assert p[i..] == "*";
      MatchesTrailingStar(t[j..]);
    }
  }

  /** `glob_match_inner`: `i` and `j` are the positions of the two iterators. */
  method GlobMatchInner(p: string, t: string) returns (r: bool)
    ensures r <==> Matches(p, t)
    decreases |p|, 0
  {
    var i, j := 0, 0;
    assert p[0..] == p && t[0..] == t;
    while i < |p|
      invariant 0 <= i <= |p| && 0 <= j <= |t|
      invariant Matches(p, t) <==> Matches(p[i..], t[j..])
      decreases |p| - i
    {
      var pc := p[i];
      if pc == '*' {
        StarAt(p, t, i, j);
        i := i + 1;
        if i == |p| {
          return true;
        }
        r := RetryAtEachPosition(p[i..], t[j..]);
        return;
      } else if pc == '?' {
        OneAt(p, t, i, j);
        i := i + 1;
        if j == |t| {
          return false;
        }
        j := j + 1;
      } else {
        OneAt(p, t, i, j);
        i := i + 1;
        if j == |t| || t[j] != pc {
          return false;
        }
        j := j + 1;
      }
    }
    assert p[i..] == "";
    MatchesEmptyPattern(t[j..]);
    return j == |t|;
  }

  /** The loop after a star that is not the last character: the rest of the pattern is tried at every position. */
  method RetryAtEachPosition(p: string, t: string) returns (r: bool)
    ensures r <==> exists n :: 0 <= n <= |t| && Matches(p, t[n..])
    decreases |p|, 1
  {
    var k := 0;
    while true
      invariant 0 <= k <= |t|
      invariant forall n :: 0 <= n < k ==> !Matches(p, t[n..])
      decreases |t| - k
    {
      var here := GlobMatchInner(p, t[k..]);
      if here {
        return true;
      }
      if k == |t| {
        return false;
      }
      k := k + 1;
    }
  }

  method GlobMatch(pattern: string, text: string) returns (r: bool)
    ensures r <==> Matches(pattern, text)
  {
    r := GlobMatchInner(pattern, text);
  }

  // ---------------------------------------------------------------- the scope filter

  datatype ModelId = ModelId(provider: string, model: string)

  function FullName(m: ModelId): string {
    m.provider + "/" + m.model
  }

  predicate Literal(p: string) {
    forall i :: 0 <= i < |p| ==> p[i] != '*' && p[i] != '?'
  }

  /** A pattern that begins literally matches the texts that begin so, if its rest matches theirs. */
  lemma {:induction false} MatchesLiteral(p: string, q: string, t: string)
    requires Literal(p)
    ensures Matches(p + q, t) <==> p <= t && Matches(q, t[|p|..])
    decreases |p|
  {
    if p == "" {
      assert p + q == q && t[0..] == t;
    } else {
      assert (p + q)[1..] == p[1..] + q;
      MatchesOne(p + q, t);
      if t != "" {
        MatchesLiteral(p[1..], q, t[1..]);
        if p[0] == t[0] && p[1..] <= t[1..] {
          assert p == [p[0]] + p[1..] && t == [t[0]] + t[1..];
          assert t[1..][|p[1..]|..] == t[|p|..];
        }
      }
    }
  }

  /** A pattern without wildcards is the full name of one model. */
  lemma NamePattern(m: ModelId, other: ModelId)
    requires Literal(m.provider) && Literal(m.model) && '/' !in m.provider && '/' !in other.provider
    ensures Matches(m.provider + "/" + m.model, FullName(other)) <==> other == m
  {
    var p, t := m.provider + "/" + m.model, FullName(other);
    MatchesLiteral(p, "", t);
    assert p + "" == p;
    MatchesEmptyPattern(t[if |p| <= |t| then |p| else 0..]);
    if p == t {
      SplitAtSlash(m.provider, m.model, other.provider, other.model);
    }
  }

  /** A provider followed by `/` and a star selects the models of that provider. */
  lemma ProviderPattern(provider: string, m: ModelId)
    requires Literal(provider) && '/' !in provider && '/' !in m.provider
    ensures Matches(provider + "/" + "*", FullName(m)) <==> m.provider == provider
  {
    var p, t := provider + "/", FullName(m);
    MatchesLiteral(p, "*", t);
    if p <= t {
      MatchesTrailingStar(t[|p|..]);
      assert t == provider + "/" + t[|p|..];
      SplitAtSlash(provider, t[|p|..], m.provider, m.model);
    }
    if m.provider == provider {
      assert p <= t;
    }
  }

  lemma SplitAtSlash(a: string, x: string, b: string, y: string)
    requires '/' !in a && '/' !in b && a + "/" + x == b + "/" + y
    ensures a == b && x == y
  {
    var t := a + "/" + x;
    assert t[|a|] == '/' && t[|b|] == '/';
    assert forall i :: 0 <= i < |a| ==> t[i] == a[i];
    assert forall i :: 0 <= i < |b| ==> t[i] == b[i];
    assert forall i :: 0 <= i < |a| ==> a[i] in a;
    assert forall i :: 0 <= i < |b| ==> b[i] in b;
    assert a == t[..|a|] && b == t[..|b|] && x == t[|a| + 1..] && y == t[|b| + 1..];
  }

  /** No pattern at all lets every model through. */
  ghost predicate InScope(m: ModelId, patterns: seq<string>) {
    patterns == [] || exists k :: 0 <= k < |patterns| && Matches(patterns[k], FullName(m))
  }

  /** `kept` are the positions of the models in scope, in increasing order. */
  ghost predicate KeepsInScope(models: seq<ModelId>, patterns: seq<string>, kept: seq<nat>) {
    && (forall i :: 0 <= i < |kept| ==> kept[i] < |models| && InScope(models[kept[i]], patterns))
    && (forall i, j :: 0 <= i < j < |kept| ==> kept[i] < kept[j])
    && (forall n :: 0 <= n < |models| && InScope(models[n], patterns) ==> n in kept)
  }

  /** Without patterns every model is kept in its place. */
  lemma {:induction false} NoPatternsKeepAll(models: seq<ModelId>, kept: seq<nat>, i: nat)
    requires KeepsInScope(models, [], kept) && i <= |models|
    ensures i <= |kept| && forall k :: 0 <= k < i ==> kept[k] == k
    ensures i == |models| ==> |kept| == |models|
  {
    if i > 0 {
      NoPatternsKeepAll(models, kept, i - 1);
      assert InScope(models[i - 1], []) && i - 1 in kept;
      var j :| 0 <= j < |kept| && kept[j] == i - 1;
      assert j >= i - 1;
      assert i >= 2 ==> kept[i - 2] < kept[i - 1];
    }
    assert |kept| > i > 0 ==> kept[i - 1] < kept[i];
    assert |kept| > i ==> kept[i] < |models|;
  }

  method MatchesAny(patterns: seq<string>, full: string) returns (r: bool)
    ensures r <==> exists k :: 0 <= k < |patterns| && Matches(patterns[k], full)
  {
    for k := 0 to |patterns|
      invariant forall n :: 0 <= n < k ==> !Matches(patterns[n], full)
    {
      var here := GlobMatch(patterns[k], full);
      if here {
        return true;
      }
    }
    return false;
  }

  /** `filter_models_by_scope`, with the positions of the models kept. */
  method FilterModelsByScope(models: seq<ModelId>, patterns: seq<string>) returns (r: seq<ModelId>, kept: seq<nat>)
    ensures KeepsInScope(models, patterns, kept)
    ensures |r| == |kept| && forall i :: 0 <= i < |r| ==> r[i] == models[kept[i]]
  {
    r, kept := [], [];
    for n := 0 to |models|
      invariant |r| == |kept| && forall i :: 0 <= i < |kept| ==> kept[i] < n && r[i] == models[kept[i]]
      invariant forall i :: 0 <= i < |kept| ==> InScope(models[kept[i]], patterns)
      invariant forall i, j :: 0 <= i < j < |kept| ==> kept[i] < kept[j]
      invariant forall m :: 0 <= m < n && InScope(models[m], patterns) ==> m in kept
    {
      var here := patterns == [];
      if !here {
        here := MatchesAny(patterns, FullName(models[n]));
      }
      if here {
        r := r + [models[n]];
        kept := kept + [n];
      }
    }
  }
}
