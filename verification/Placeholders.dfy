/**
 Placeholder expansion. The code replaces one key after the other, each in the text
 left by the ones before; `Substitute` replaces all of them at once. The two agree when no value reaches the
 placeholder of a later key: it neither holds it nor ends in a beginning of it
 (`ExpansionIsSimultaneous`).
 */
module Placeholders {
  import opened Options

  /** A key of the context with its value rendered as text. */
  datatype Binding = Binding(key: string, value: string)

  predicate IsBrace(c: char) {
    c == '{' || c == '}'
  }

  predicate NoBraces(s: string) {
    forall i :: 0 <= i < |s| ==> !IsBrace(s[i])
  }

  function Hole(key: string): string {
    ['{'] + key + ['}']
  }

  predicate UniqueKeys(bs: seq<Binding>) {
    forall i, j :: 0 <= i < j < |bs| ==> bs[i].key != bs[j].key
  }

  predicate PlainKeys(bs: seq<Binding>) {
    forall i :: 0 <= i < |bs| ==> NoBraces(bs[i].key)
  }

  // ---------------------------------------------------------------- one key at a time

  /** `str::replace`: every occurrence from left to right, without looking at what was put in. */
  function ReplaceAll(t: string, pat: string, v: string): string
    requires pat != ""
  {
    if t == "" then ""
    else if pat <= t then v + ReplaceAll(t[|pat|..], pat, v)
    else [t[0]] + ReplaceAll(t[1..], pat, v)
  }

  function Replaced(t: string, b: Binding): string {
    ReplaceAll(t, Hole(b.key), b.value)
  }

  function OneByOne(t: string, bs: seq<Binding>): string
    decreases |bs|
  {
    if bs == [] then t else OneByOne(Replaced(t, bs[0]), bs[1..])
  }

  predicate Contains(t: string, pat: string) {
    pat <= t || (t != "" && Contains(t[1..], pat))
  }

  lemma {:induction false} NothingToReplace(t: string, pat: string, v: string)
    requires pat != "" && !Contains(t, pat)
    ensures ReplaceAll(t, pat, v) == t
  {
    if t == "" {
    } else {
      NothingToReplace(t[1..], pat, v);
    }
  }

  /** `expand_placeholders`; a context that is not an object leaves the template alone. */
  method ExpandPlaceholders(template: string, context: Option<seq<Binding>>) returns (out: string)
    ensures out == if context.None? then template else OneByOne(template, context.value)
  {
    if context.None? {
      return template;
    }
    out := template;
    var obj := context.value;
    for i := 0 to |obj|
      invariant OneByOne(template, obj) == OneByOne(out, obj[i..])
    {
      assert obj[i..][0] == obj[i] && obj[i..][1..] == obj[i + 1..];
      var placeholder := Hole(obj[i].key);
      if !Contains(out, placeholder) {
        NothingToReplace(out, placeholder, obj[i].value);
        continue;
      }
      out := ReplaceAll(out, placeholder, obj[i].value);
    }
  }

  // ---------------------------------------------------------------- all at once

  /** The binding whose placeholder `t` starts with. */
  function Lead(t: string, bs: seq<Binding>): Option<Binding> {
    if bs == [] then None
    else if Hole(bs[0].key) <= t then Some(bs[0])
    else Lead(t, bs[1..])
  }

  function Substitute(t: string, bs: seq<Binding>): string {
    if t == "" then ""
    else
      var b := Lead(t, bs);
      if b.Some? && |Hole(b.value.key)| <= |t| then b.value.value + Substitute(t[|Hole(b.value.key)|..], bs)
      else [t[0]] + Substitute(t[1..], bs)
  }

  lemma {:induction false} LeadMember(t: string, bs: seq<Binding>)
    ensures Lead(t, bs).Some? ==> Lead(t, bs).value in bs && Hole(Lead(t, bs).value.key) <= t
    ensures Lead(t, bs).None? ==> forall b :: b in bs ==> !(Hole(b.key) <= t)
  {
    if bs != [] && !(Hole(bs[0].key) <= t) {
      LeadMember(t, bs[1..]);
      assert bs == [bs[0]] + bs[1..];
    }
  }

  lemma LeadStartsWithBrace(r: string, bs: seq<Binding>)
    requires Lead(r, bs).Some?
    ensures r != "" && r[0] == '{'
  {
    LeadMember(r, bs);
    assert r[0] == Hole(Lead(r, bs).value.key)[0];
  }

  /** A text starts with at most one placeholder. */
  lemma HolesAreUnique(t: string, k: string, l: string)
    requires NoBraces(k) && NoBraces(l) && Hole(k) <= t && Hole(l) <= t
    ensures k == l
  {
    assert forall i :: 0 <= i < |Hole(k)| ==> Hole(k)[i] == t[i];
    assert forall i :: 0 <= i < |Hole(l)| ==> Hole(l)[i] == t[i];
    assert t[|k| + 1] == '}' && t[|l| + 1] == '}';
    assert forall i :: 1 <= i <= |k| ==> t[i] == k[i - 1] && !IsBrace(t[i]);
    assert forall i :: 1 <= i <= |l| ==> t[i] == l[i - 1] && !IsBrace(t[i]);
    assert |k| == |l|;
    assert forall i :: 0 <= i < |k| ==> k[i] == t[i + 1] == l[i];
  }

  lemma LeadIs(t: string, bs: seq<Binding>, b: Binding)
    requires PlainKeys(bs) && UniqueKeys(bs) && b in bs && Hole(b.key) <= t
    ensures Lead(t, bs) == Some(b)
  {
    LeadMember(t, bs);
    HolesAreUnique(t, Lead(t, bs).value.key, b.key);
  }

  // ---------------------------------------------------------------- when the two agree

  /** `v` ends in the first `n` characters of `h`, and at least one is missing. */
  predicate EndsInBeginning(v: string, h: string, n: nat) {
    0 < n < |h| && n <= |v| && v[|v| - n..] == h[..n]
  }

  /** `v` ends in a beginning of `h`. */
  predicate Partial(v: string, h: string) {
    exists n: nat :: n < |h| && EndsInBeginning(v, h, n)
  }

  /** A value reaches a placeholder if it holds it or ends in a beginning of it. */
  predicate Reaches(v: string, h: string) {
    Contains(v, h) || Partial(v, h)
  }

  /** The value reaches no placeholder of these keys. */
  predicate ReachesNone(v: string, bs: seq<Binding>) {
    forall b <- bs :: !Reaches(v, Hole(b.key))
  }

  /** A beginning of a placeholder, directly followed by a placeholder. */
  predicate TrapAt(t: string, h: string, n: nat, bs: seq<Binding>) {
    0 < n < |h| && n <= |t| && t[..n] == h[..n] && Lead(t[n..], bs).Some?
  }

  predicate Trap(t: string, bs: seq<Binding>) {
    exists b <- bs, n: nat :: n < |Hole(b.key)| && TrapAt(t, Hole(b.key), n, bs)
  }

  /** No placeholder directly follows an unfinished one. */
  predicate Safe(t: string, bs: seq<Binding>) {
    t == "" || (!Trap(t, bs) && Safe(t[1..], bs))
  }

  /** What the first of the bindings must satisfy with respect to the others. */
  predicate FirstIsGood(b: Binding, rest: seq<Binding>) {
    NoBraces(b.key) && PlainKeys(rest) && UniqueKeys([b] + rest) && ReachesNone(b.value, rest)
  }

  /** No value reaches the placeholder of a key that comes after its own. */
  predicate GoodContext(bs: seq<Binding>) {
    bs == [] || (FirstIsGood(bs[0], bs[1..]) && GoodContext(bs[1..]))
  }

  // ---------------------------------------------------------------- putting a value in front

  lemma PartialOfRest(v: string, h: string)
    requires v != "" && Partial(v[1..], h)
    ensures Partial(v, h)
  {
    var n: nat :| n < |h| && EndsInBeginning(v[1..], h, n);
    assert v[1..][|v[1..]| - n..] == v[|v| - n..];
    assert EndsInBeginning(v, h, n);
  }

  lemma RestReachesNone(v: string, bs: seq<Binding>)
    requires v != "" && ReachesNone(v, bs)
    ensures ReachesNone(v[1..], bs)
  {
    forall b <- bs
      ensures !Reaches(v[1..], Hole(b.key))
    {
      if Partial(v[1..], Hole(b.key)) {
        PartialOfRest(v, Hole(b.key));
      }
    }
  }

  lemma {:induction false} SuffixReachesNone(v: string, n: nat, bs: seq<Binding>)
    requires n <= |v| && ReachesNone(v, bs)
    ensures ReachesNone(v[n..], bs)
  {
    if n == 0 {
      assert v[0..] == v;
    } else {
      RestReachesNone(v, bs);
      SuffixReachesNone(v[1..], n - 1, bs);
      assert v[1..][n - 1..] == v[n..];
    }
  }

  /** A proper beginning of a placeholder reaches it. */
  lemma BeginningReaches(v: string, h: string)
    requires 0 < |v| < |h| && v == h[..|v|]
    ensures Reaches(v, h)
  {
    assert v[|v| - |v|..] == v;
    assert EndsInBeginning(v, h, |v|);
  }

  /** No placeholder starts in a value that reaches none, whatever follows the value. */
  lemma NoneLeadsInValue(v: string, x: string, bs: seq<Binding>)
    requires v != "" && ReachesNone(v, bs)
    ensures Lead(v + x, bs).None?
  {
    LeadMember(v + x, bs);
    if Lead(v + x, bs).Some? {
      var b := Lead(v + x, bs).value;
      if |Hole(b.key)| > |v| {
        BeginningReaches(v, Hole(b.key));
      }
      assert false;
    }
  }

  lemma {:induction false} ValuePassesThrough(v: string, x: string, bs: seq<Binding>)
    requires ReachesNone(v, bs)
    ensures Substitute(v + x, bs) == v + Substitute(x, bs)
  {
    if v == "" {
      assert v + x == x;
    } else {
      NoneLeadsInValue(v, x, bs);
      assert (v + x)[1..] == v[1..] + x;
      RestReachesNone(v, bs);
      ValuePassesThrough(v[1..], x, bs);
      assert [v[0]] + (v[1..] + Substitute(x, bs)) == v + Substitute(x, bs);
    }
  }

  lemma NoTrapInValue(v: string, x: string, h: string, n: nat, bs: seq<Binding>, b: Binding)
    requires v != "" && ReachesNone(v, bs) && b in bs && h == Hole(b.key)
    ensures !TrapAt(v + x, h, n, bs)
  {
    if TrapAt(v + x, h, n, bs) {
      if n < |v| {
        assert (v + x)[n..] == v[n..] + x;
        SuffixReachesNone(v, n, bs);
        NoneLeadsInValue(v[n..], x, bs);
      } else {
        assert (v + x)[..n][..|v|] == v && h[..n][..|v|] == h[..|v|];
        BeginningReaches(v, h);
      }
      assert false;
    }
  }

  lemma {:induction false} ValueKeepsSafe(v: string, x: string, bs: seq<Binding>)
    requires ReachesNone(v, bs) && Safe(x, bs)
    ensures Safe(v + x, bs)
  {
    if v == "" {
      assert v + x == x;
    } else {
      assert (v + x)[1..] == v[1..] + x;
      RestReachesNone(v, bs);
      ValueKeepsSafe(v[1..], x, bs);
      forall b <- bs, n: nat
        ensures !TrapAt(v + x, Hole(b.key), n, bs)
      {
        NoTrapInValue(v, x, Hole(b.key), n, bs, b);
      }
    }
  }

  // ---------------------------------------------------------------- replacing one key

  lemma LeadsAmong(u: string, b: Binding, bs: seq<Binding>)
    requires b in bs && Hole(b.key) <= u
    ensures Lead(u, bs).Some?
  {
    LeadMember(u, bs);
  }

  lemma NotReplacedHere(t: string, b: Binding, bs: seq<Binding>)
    requires t != "" && b in bs && Lead(t, bs).None?
    ensures Replaced(t, b) == [t[0]] + Replaced(t[1..], b)
  {
    LeadMember(t, bs);
  }

  /** No placeholder of `b` can stand in the text behind a beginning of another placeholder. */
  lemma NotBehindBeginning(t: string, h: string, n: nat, b: Binding, bs: seq<Binding>, c: Binding)
    requires c in bs && h == Hole(c.key) && !Trap(t, bs)
    requires 0 < n < |h| && n <= |t| && t[..n] == h[..n]
    ensures Lead(t[n..], bs).None?
  {
    if Lead(t[n..], bs).Some? {
      assert TrapAt(t, h, n, bs);
      assert false;
    }
  }

  /**
   If `m` characters of another placeholder stand at the start after replacing, of which `n` were
   there before, they all were: replacing puts nothing into an unfinished placeholder.
   */
  lemma {:induction false} BeginningWasThere(t: string, h: string, n: nat, m: nat,
                                             b: Binding, bs: seq<Binding>, c: Binding)
    requires b in bs && c in bs && h == Hole(c.key) && !Trap(t, bs)
    requires 0 < n <= m <= |h| && n <= |t| && t[..n] == h[..n] && h[n..m] <= Replaced(t[n..], b)
    ensures m <= |t| && t[..m] == h[..m] && Replaced(t[n..], b)[m - n..] == Replaced(t[m..], b)
    decreases m - n
  {
    if n == m {
      assert Replaced(t[n..], b)[0..] == Replaced(t[n..], b);
    } else {
      NotBehindBeginning(t, h, n, b, bs, c);
      var u := t[n..];
      assert u != "";
      NotReplacedHere(u, b, bs);
      assert u[1..] == t[n + 1..];
      assert h[n..m][0] == h[n] && h[n..m][0] == Replaced(u, b)[0];
      assert h[n..m][1..] == h[n + 1..m] && Replaced(u, b)[1..] == Replaced(t[n + 1..], b);
      assert t[..n + 1] == t[..n] + [t[n]] && h[..n + 1] == h[..n] + [h[n]];
      BeginningWasThere(t, h, n + 1, m, b, bs, c);
      assert Replaced(u, b)[m - n..] == Replaced(u, b)[1..][m - n - 1..];
    }
  }

  /** The first character of a text that no placeholder leads stays, and it still opens no placeholder. */
  lemma StaysPlain(t: string, b: Binding, rest: seq<Binding>)
    requires t != "" && !Trap(t, [b] + rest) && Lead(t, [b] + rest).None?
    ensures Replaced(t, b) == [t[0]] + Replaced(t[1..], b)
    ensures Lead(Replaced(t, b), rest).None?
  {
    var bs, r := [b] + rest, Replaced(t, b);
    assert bs[0] == b;
    NotReplacedHere(t, b, bs);
    LeadMember(r, rest);
    if Lead(r, rest).Some? {
      var c := Lead(r, rest).value;
      OpenedBefore(t, b, rest, c, |Hole(c.key)|);
      LeadsAmong(t, c, bs);
      assert false;
    }
  }

  /** A beginning of a placeholder that stands at the start after replacing stood there before. */
  lemma OpenedBefore(t: string, b: Binding, rest: seq<Binding>, c: Binding, m: nat)
    requires t != "" && c in rest && !Trap(t, [b] + rest) && 0 < m <= |Hole(c.key)|
    requires Replaced(t, b) == [t[0]] + Replaced(t[1..], b) && Hole(c.key)[..m] <= Replaced(t, b)
    ensures m <= |t| && t[..m] == Hole(c.key)[..m] && Replaced(t, b)[m..] == Replaced(t[m..], b)
    ensures m == |Hole(c.key)| ==> Hole(c.key) <= t
  {
    var bs, h, r := [b] + rest, Hole(c.key), Replaced(t, b);
    assert bs[0] == b && c in bs;
    assert h[..m][1..] == h[1..m] && r[1..] == Replaced(t[1..], b);
    assert t[..1] == [t[0]] && h[..1] == [h[0]];
    BeginningWasThere(t, h, 1, m, b, bs, c);
    assert r[m..] == r[1..][m - 1..];
    assert m == |h| ==> h[..m] == h;
  }

  /** Replacing does not touch a text that no placeholder of the key can start in. */
  lemma {:induction false} ReplacedAfter(p: string, x: string, b: Binding)
    requires forall i :: 0 <= i < |p| ==> !(Hole(b.key) <= (p + x)[i..])
    ensures Replaced(p + x, b) == p + Replaced(x, b)
  {
    if p == "" {
      assert p + x == x;
    } else {
      assert (p + x)[0..] == p + x && (p + x)[1..] == p[1..] + x;
      forall i | 0 <= i < |p[1..]|
        ensures !(Hole(b.key) <= (p[1..] + x)[i..])
      {
        assert (p[1..] + x)[i..] == (p + x)[i + 1..];
      }
      ReplacedAfter(p[1..], x, b);
      assert [p[0]] + (p[1..] + Replaced(x, b)) == p + Replaced(x, b);
    }
  }

  /** The placeholder of another key survives, and goes on leading. */
  lemma OtherHoleStays(t: string, b: Binding, c: Binding)
    requires NoBraces(b.key) && NoBraces(c.key) && b.key != c.key && Hole(c.key) <= t
    ensures Replaced(t, b) == Hole(c.key) + Replaced(t[|Hole(c.key)|..], b)
  {
    var h, x := Hole(c.key), t[|Hole(c.key)|..];
    assert t == h + x;
    forall i | 0 <= i < |h|
      ensures !(Hole(b.key) <= (h + x)[i..])
    {
      if Hole(b.key) <= (h + x)[i..] {
        assert (h + x)[i..][0] == h[i];
        if i == 0 {
          assert (h + x)[0..] == t;
          HolesAreUnique(t, b.key, c.key);
        }
        assert false;
      }
    }
    ReplacedAfter(h, x, b);
  }

  lemma {:induction false} SafeSuffix(t: string, n: nat, bs: seq<Binding>)
    requires n <= |t| && Safe(t, bs)
    ensures Safe(t[n..], bs)
  {
    if n == 0 {
      assert t[0..] == t;
    } else {
      SafeSuffix(t[1..], n - 1, bs);
      assert t[1..][n - 1..] == t[n..];
    }
  }

  /** Replacing one key and then substituting the others is substituting all of them. */
  lemma {:induction false} ReplaceThenSubstitute(t: string, b: Binding, rest: seq<Binding>)
    requires FirstIsGood(b, rest) && Safe(t, [b] + rest)
    ensures Substitute(Replaced(t, b), rest) == Substitute(t, [b] + rest)
    decreases |t|
  {
    var bs := [b] + rest;
    assert bs[0] == b && bs[1..] == rest;
    if t == "" {
    } else if Hole(b.key) <= t {
      var x := t[|Hole(b.key)|..];
      SafeSuffix(t, |Hole(b.key)|, bs);
      ReplaceThenSubstitute(x, b, rest);
      ValuePassesThrough(b.value, Replaced(x, b), rest);
    } else if Lead(t, rest).Some? {
      var c := Lead(t, rest).value;
      LeadMember(t, rest);
      var h := Hole(c.key);
      OtherHoleStaysAmong(b, rest, c);
      OtherHoleStays(t, b, c);
      SafeSuffix(t, |h|, bs);
      ReplaceThenSubstitute(t[|h|..], b, rest);
      var r := Replaced(t, b);
      assert h <= r && r[|h|..] == Replaced(t[|h|..], b);
      LeadIs(r, rest, c);
      assert Lead(t, bs) == Some(c);
    } else {
      assert Lead(t, bs).None?;
      ReplaceThenSubstitute(t[1..], b, rest);
      StaysPlain(t, b, rest);
      assert Replaced(t, b)[1..] == Replaced(t[1..], b);
    }
  }

  lemma OtherHoleStaysAmong(b: Binding, rest: seq<Binding>, c: Binding)
    requires PlainKeys(rest) && UniqueKeys([b] + rest) && c in rest
    ensures NoBraces(c.key) && b.key != c.key && UniqueKeys(rest)
  {
    var bs := [b] + rest;
    var i :| 0 <= i < |rest| && rest[i] == c;
    assert bs[0] == b && bs[i + 1] == c;
    assert forall i :: 0 <= i < |rest| ==> bs[i + 1] == rest[i];
  }

  /** After replacing a key no placeholder follows an unfinished one at a place where the text stayed. */
  lemma NoTrapAfter(t: string, b: Binding, rest: seq<Binding>, c: Binding, n: nat)
    requires t != "" && c in rest && Safe(t, [b] + rest)
    requires Replaced(t, b) == [t[0]] + Replaced(t[1..], b)
    ensures !TrapAt(Replaced(t, b), Hole(c.key), n, rest)
  {
    var bs, h, r := [b] + rest, Hole(c.key), Replaced(t, b);
    if TrapAt(r, h, n, rest) {
      OpenedBefore(t, b, rest, c, n);
      assert c in bs;
      NotBehindBeginning(t, h, n, b, bs, c);
      NothingLeadsAfter(t, n, b, rest);
      assert false;
    }
  }

  lemma NothingLeadsAfter(t: string, n: nat, b: Binding, rest: seq<Binding>)
    requires n <= |t| && Safe(t, [b] + rest) && Lead(t[n..], [b] + rest).None?
    ensures Lead(Replaced(t[n..], b), rest).None?
  {
    if t[n..] == "" {
      LeadMember("", rest);
      if Lead("", rest).Some? {
        assert false;
      }
    } else {
      SafeSuffix(t, n, [b] + rest);
      StaysPlain(t[n..], b, rest);
    }
  }

  lemma {:induction false} ReplacingKeepsSafe(t: string, b: Binding, rest: seq<Binding>)
    requires FirstIsGood(b, rest) && Safe(t, [b] + rest)
    ensures Safe(Replaced(t, b), rest)
    decreases |t|
  {
    if t == "" {
    } else if Hole(b.key) <= t {
      var x := t[|Hole(b.key)|..];
      SafeSuffix(t, |Hole(b.key)|, [b] + rest);
      ReplacingKeepsSafe(x, b, rest);
      ValueKeepsSafe(b.value, Replaced(x, b), rest);
    } else {
      ReplacingKeepsSafe(t[1..], b, rest);
      assert Replaced(t, b)[1..] == Replaced(t[1..], b);
      forall c <- rest, n: nat
        ensures !TrapAt(Replaced(t, b), Hole(c.key), n, rest)
      {
        NoTrapAfter(t, b, rest, c, n);
      }
    }
  }

  /** Expanding one key after the other is one simultaneous substitution. */
  lemma {:induction false} ExpansionIsSimultaneous(t: string, bs: seq<Binding>)
    requires GoodContext(bs) && Safe(t, bs)
    ensures OneByOne(t, bs) == Substitute(t, bs)
    decreases |bs|
  {
    if bs == [] {
      NothingToSubstitute(t);
    } else {
      assert bs == [bs[0]] + bs[1..];
      ReplacingKeepsSafe(t, bs[0], bs[1..]);
      ReplaceThenSubstitute(t, bs[0], bs[1..]);
      ExpansionIsSimultaneous(Replaced(t, bs[0]), bs[1..]);
    }
  }

  lemma {:induction false} NothingToSubstitute(t: string)
    ensures Substitute(t, []) == t
  {
    if t == "" {
    } else {
      NothingToSubstitute(t[1..]);
    }
  }

  lemma SameLead(t: string, bs: seq<Binding>, cs: seq<Binding>)
    requires PlainKeys(bs) && UniqueKeys(bs) && PlainKeys(cs) && UniqueKeys(cs)
    requires forall b :: b in bs <==> b in cs
    ensures Lead(t, bs) == Lead(t, cs)
  {
    LeadMember(t, bs);
    LeadMember(t, cs);
    if Lead(t, bs).Some? {
      LeadIs(t, cs, Lead(t, bs).value);
    }
  }

  lemma {:induction false} SameSubstitution(t: string, bs: seq<Binding>, cs: seq<Binding>)
    requires PlainKeys(bs) && UniqueKeys(bs) && PlainKeys(cs) && UniqueKeys(cs)
    requires forall b :: b in bs <==> b in cs
    ensures Substitute(t, bs) == Substitute(t, cs)
    decreases |t|
  {
    if t == "" {
    } else {
      SameLead(t, bs, cs);
      var b := Lead(t, bs);
      if b.Some? && |Hole(b.value.key)| <= |t| {
        SameSubstitution(t[|Hole(b.value.key)|..], bs, cs);
      } else {
        SameSubstitution(t[1..], bs, cs);
      }
    }
  }

  /** The order in which the keys are expanded does not matter. */
  lemma OrderDoesNotMatter(t: string, bs: seq<Binding>, cs: seq<Binding>)
    requires GoodContext(bs) && GoodContext(cs) && Safe(t, bs) && Safe(t, cs)
    requires forall b :: b in bs <==> b in cs
    ensures OneByOne(t, bs) == OneByOne(t, cs)
  {
    ExpansionIsSimultaneous(t, bs);
    ExpansionIsSimultaneous(t, cs);
    GoodIsPlain(bs);
    GoodIsPlain(cs);
    SameSubstitution(t, bs, cs);
  }

  lemma GoodIsPlain(bs: seq<Binding>)
    requires GoodContext(bs)
    ensures PlainKeys(bs) && UniqueKeys(bs)
  {
    if bs != [] {
      assert bs == [bs[0]] + bs[1..];
    }
  }

  /** Between any two opening braces there is a closing one. */
  predicate Separated(t: string) {
    forall i, j :: 0 <= i < j < |t| && t[i] == '{' && t[j] == '{' ==> exists m :: i < m < j && t[m] == '}'
  }

  /** An unfinished placeholder directly before another one: two opening braces with no closing one between. */
  lemma TrapIsUnseparated(t: string, bs: seq<Binding>, b: Binding, n: nat)
    requires PlainKeys(bs) && b in bs && TrapAt(t, Hole(b.key), n, bs)
    ensures !Separated(t)
  {
    var h := Hole(b.key);
    LeadStartsWithBrace(t[n..], bs);
    assert t[0] == t[..n][0] == h[..n][0] == '{' && t[n] == '{';
    forall m | 0 < m < n
      ensures t[m] != '}'
    {
      assert t[m] == t[..n][m] == h[..n][m] == b.key[m - 1];
    }
  }

  lemma {:induction false} SeparatedTextIsSafe(t: string, bs: seq<Binding>)
    requires Separated(t) && PlainKeys(bs)
    ensures Safe(t, bs)
  {
    if t == "" {
    } else {
      SeparatedTextIsSafe(t[1..], bs);
      forall b <- bs, n: nat
        ensures !TrapAt(t, Hole(b.key), n, bs)
      {
        if TrapAt(t, Hole(b.key), n, bs) {
          TrapIsUnseparated(t, bs, b, n);
          assert false;
        }
      }
    }
  }

  /** The plain case: keys and values without braces, and a template separated by closing braces. */
  lemma PlainExpansionIsSimultaneous(t: string, bs: seq<Binding>)
    requires PlainKeys(bs) && UniqueKeys(bs) && Separated(t)
    requires forall i :: 0 <= i < |bs| ==> NoBraces(bs[i].value)
    ensures OneByOne(t, bs) == Substitute(t, bs)
  {
    SeparatedTextIsSafe(t, bs);
    forall i, j | 0 <= i < j < |bs|
      ensures !Reaches(bs[i].value, Hole(bs[j].key))
    {
      PlainValueReachesNothing(bs[i].value, bs[j].key);
    }
    PairwiseIsGood(bs);
    ExpansionIsSimultaneous(t, bs);
  }

  lemma {:induction false} ContainsPlace(v: string, h: string) returns (i: nat)
    requires Contains(v, h)
    ensures i <= |v| && h <= v[i..]
  {
    if h <= v {
      i := 0;
      assert v[0..] == v;
    } else {
      i := ContainsPlace(v[1..], h);
      assert v[1..][i..] == v[i + 1..];
      i := i + 1;
    }
  }

  /** A value that reaches a placeholder holds an opening brace. */
  lemma ReachingHoldsBrace(v: string, key: string) returns (i: nat)
    requires Reaches(v, Hole(key))
    ensures i < |v| && v[i] == '{'
  {
    var h := Hole(key);
    if Contains(v, h) {
      i := ContainsPlace(v, h);
      assert v[i] == v[i..][0] == h[0];
    } else {
      var n: nat :| n < |h| && EndsInBeginning(v, h, n);
      i := |v| - n;
      assert v[i] == v[i..][0] == h[..n][0];
    }
  }

  lemma PlainValueReachesNothing(v: string, key: string)
    requires NoBraces(v)
    ensures !Reaches(v, Hole(key))
  {
    if Reaches(v, Hole(key)) {
      var i := ReachingHoldsBrace(v, key);
      assert false;
    }
  }

  /** It is enough to look at the values and the later keys in pairs. */
  lemma {:induction false} PairwiseIsGood(bs: seq<Binding>)
    requires PlainKeys(bs) && UniqueKeys(bs)
    requires forall i, j :: 0 <= i < j < |bs| ==> !Reaches(bs[i].value, Hole(bs[j].key))
    ensures GoodContext(bs)
  {
    if bs == [] {
    } else {
      var rest := bs[1..];
      assert bs == [bs[0]] + rest;
      assert forall i :: 0 <= i < |rest| ==> rest[i] == bs[i + 1];
      forall b <- rest
        ensures !Reaches(bs[0].value, Hole(b.key))
      {
        var j :| 0 <= j < |rest| && rest[j] == b;
        assert b == bs[j + 1];
      }
      PairwiseIsGood(rest);
    }
  }
}
