/**
 When the order of the keys shows. For templates with a closing brace between any two opening ones, that no value
 reaches another key is also the only way to agree with substitution in every order of the keys
 (`SimultaneousInEveryOrderExactly`), up to keys that stand for themselves.
 */
module PlaceholderOrders {
  import opened Placeholders

  // ---------------------------------------------------------------- exactly when they agree

  /** Putting something else in for a text that occurs changes the text. */
  lemma {:induction false} ReplacingChangesLength(w: string, p: string, v: string)
    requires p != ""
    ensures |v| > |p| ==> |ReplaceAll(w, p, v)| >= |w| && (Contains(w, p) ==> |ReplaceAll(w, p, v)| > |w|)
    ensures |v| < |p| ==> |ReplaceAll(w, p, v)| <= |w| && (Contains(w, p) ==> |ReplaceAll(w, p, v)| < |w|)
    decreases |w|
  {
    if w == "" {
    } else if p <= w {
      ReplacingChangesLength(w[|p|..], p, v);
    } else {
      ReplacingChangesLength(w[1..], p, v);
    }
  }

  lemma {:induction false} ReplacingChangesText(w: string, p: string, v: string)
    requires p != "" && Contains(w, p) && v != p
    ensures ReplaceAll(w, p, v) != w
    decreases |w|
  {
    ReplacingChangesLength(w, p, v);
    if |v| == |p| {
      if p <= w {
        assert (v + ReplaceAll(w[|p|..], p, v))[..|p|] == v;
      } else {
        ReplacingChangesText(w[1..], p, v);
        assert ([w[0]] + ReplaceAll(w[1..], p, v))[1..] == ReplaceAll(w[1..], p, v);
      }
    }
  }

  /** Putting a text in for itself changes nothing. */
  lemma {:induction false} ReplacingByItself(w: string, p: string)
    requires p != ""
    ensures ReplaceAll(w, p, p) == w
    decreases |w|
  {
    if w == "" {
    } else if p <= w {
      ReplacingByItself(w[|p|..], p);
      assert ReplaceAll(w, p, p) == p + w[|p|..];
    } else {
      ReplacingByItself(w[1..], p);
      assert ReplaceAll(w, p, p) == [w[0]] + w[1..];
    }
  }

  /** A key whose value is its own placeholder. */
  predicate Identity(b: Binding) {
    b.value == Hole(b.key)
  }

  function Effective(bs: seq<Binding>): (r: seq<Binding>)
    ensures forall b :: b in r <==> b in bs && !Identity(b)
  {
    if bs == [] then []
    else (if Identity(bs[0]) then [] else [bs[0]]) + Effective(bs[1..])
  }

  /** Keys that stand for themselves may be left out of the loop. */
  lemma {:induction false} ExpandingEffective(t: string, bs: seq<Binding>)
    ensures OneByOne(t, bs) == OneByOne(t, Effective(bs))
    decreases |bs|
  {
    if bs == [] {
    } else if Identity(bs[0]) {
      ReplacingByItself(t, Hole(bs[0].key));
      ExpandingEffective(t, bs[1..]);
      assert Effective(bs) == Effective(bs[1..]);
    } else {
      ExpandingEffective(Replaced(t, bs[0]), bs[1..]);
      var e := Effective(bs);
      assert e[0] == bs[0] && e[1..] == Effective(bs[1..]);
    }
  }

  lemma {:induction false} PlainPasses(p: string, x: string, bs: seq<Binding>)
    requires forall i :: 0 <= i < |p| ==> p[i] != '{'
    ensures Substitute(p + x, bs) == p + Substitute(x, bs)
  {
    if p == "" {
      assert p + x == x;
    } else {
      if Lead(p + x, bs).Some? {
        LeadStartsWithBrace(p + x, bs);
        assert false;
      }
      assert (p + x)[1..] == p[1..] + x;
      PlainPasses(p[1..], x, bs);
      assert [p[0]] + (p[1..] + Substitute(x, bs)) == p + Substitute(x, bs);
    }
  }

  /** A placeholder that stands for itself stays as it is without its key. */
  lemma IdentityStays(t: string, bs: seq<Binding>, b: Binding)
    requires PlainKeys(bs) && UniqueKeys(bs) && b in bs && Identity(b) && Hole(b.key) <= t
    ensures var x := t[|Hole(b.key)|..]; Substitute(t, Effective(bs)) == Hole(b.key) + Substitute(x, Effective(bs))
  {
    var es, h, x := Effective(bs), Hole(b.key), t[|Hole(b.key)|..];
    NoEffectiveLead(t, bs, b);
    HoleInFront(t, h, x);
    PlainPasses(h[1..], x, es);
    BraceInFront(h, Substitute(x, es));
  }

  lemma HoleInFront(t: string, h: string, x: string)
    requires h != "" && h <= t && x == t[|h|..]
    ensures t != "" && t[0] == h[0] && t[1..] == h[1..] + x
  {
  }

  lemma BraceInFront(h: string, x: string)
    requires h != ""
    ensures [h[0]] + (h[1..] + x) == h + x
  {
  }

  /** And they may be left out of the substitution. */
  lemma {:induction false} SubstitutingEffective(t: string, bs: seq<Binding>)
    requires PlainKeys(bs) && UniqueKeys(bs) && PlainKeys(Effective(bs)) && UniqueKeys(Effective(bs))
    ensures Substitute(t, bs) == Substitute(t, Effective(bs))
    decreases |t|
  {
    if t == "" {
    } else if Lead(t, bs).None? {
      NoneLeadsEffective(t, bs);
      SubstitutingEffective(t[1..], bs);
    } else {
      LeadMember(t, bs);
      var b := Lead(t, bs).value;
      assert |Hole(b.key)| <= |t|;
      SubstitutingEffective(t[|Hole(b.key)|..], bs);
      if Identity(b) {
        IdentityStays(t, bs, b);
      } else {
        LeadIs(t, Effective(bs), b);
      }
    }
  }

  lemma NoneLeadsEffective(t: string, bs: seq<Binding>)
    requires Lead(t, bs).None?
    ensures Lead(t, Effective(bs)).None?
  {
    LeadMember(t, bs);
    LeadMember(t, Effective(bs));
  }

  lemma NoEffectiveLead(t: string, bs: seq<Binding>, b: Binding)
    requires PlainKeys(bs) && UniqueKeys(bs) && b in bs && Identity(b) && Hole(b.key) <= t
    ensures Lead(t, Effective(bs)).None?
  {
    LeadMember(t, Effective(bs));
    if Lead(t, Effective(bs)).Some? {
      HolesAreUnique(t, b.key, Lead(t, Effective(bs)).value.key);
      assert false;
    }
  }

  lemma {:induction false} EffectiveIsPlain(bs: seq<Binding>)
    requires PlainKeys(bs) && UniqueKeys(bs)
    ensures PlainKeys(Effective(bs)) && UniqueKeys(Effective(bs))
  {
    if bs == [] {
    } else {
      var rest := bs[1..];
      EffectiveIsPlain(rest);
      var es := Effective(rest);
      forall i | 0 <= i < |es|
        ensures es[i].key != bs[0].key
      {
        assert es[i] in rest;
        var k :| 0 <= k < |rest| && rest[k] == es[i];
        assert rest[k] == bs[k + 1];
      }
    }
  }

  /** The context in some order. */
  ghost predicate IsOrdering(cs: seq<Binding>, bs: seq<Binding>) {
    PlainKeys(cs) && UniqueKeys(cs) && forall b :: b in cs <==> b in bs
  }

  /** No value reaches the placeholder of another key, unless that key stands for itself. */
  ghost predicate NoneReaches(bs: seq<Binding>) {
    forall a, b :: a in bs && b in bs && a.key != b.key ==> Identity(b) || !Reaches(a.value, Hole(b.key))
  }

  /** In every order every separated template is expanded as by one simultaneous substitution. */
  ghost predicate SimultaneousInEveryOrder(bs: seq<Binding>) {
    forall cs, t :: IsOrdering(cs, bs) && Separated(t) ==> OneByOne(t, cs) == Substitute(t, bs)
  }

  lemma NoneReachesIsEnough(bs: seq<Binding>, cs: seq<Binding>, t: string)
    requires PlainKeys(bs) && UniqueKeys(bs) && NoneReaches(bs) && IsOrdering(cs, bs) && Separated(t)
    ensures OneByOne(t, cs) == Substitute(t, bs)
  {
    var es := Effective(cs);
    EffectiveIsPlain(cs);
    forall i, j | 0 <= i < j < |es|
      ensures !Reaches(es[i].value, Hole(es[j].key))
    {
      assert es[i] in es && es[j] in es;
    }
    PairwiseIsGood(es);
    SeparatedTextIsSafe(t, es);
    ExpansionIsSimultaneous(t, es);
    ExpandingEffective(t, cs);
    SubstitutingEffective(t, cs);
    SameSubstitution(t, bs, cs);
  }

  // ---------------------------------------------------------------- a value that reaches another key

  /** What must follow the value so that the placeholder it reaches stands there. */
  lemma MissingTail(v: string, h: string) returns (tail: string)
    requires h != "" && Reaches(v, h)
    ensures |tail| < |h| && tail == h[|h| - |tail|..] && Contains(v + tail, h)
  {
    if Contains(v, h) {
      tail := "";
      assert v + tail == v;
    } else {
      var n: nat :| n < |h| && EndsInBeginning(v, h, n);
      tail := h[n..];
      assert v == v[..|v| - n] + h[..n] && h == h[..n] + tail;
      assert v + tail == v[..|v| - n] + h;
      ContainsAtEnd(v[..|v| - n], h);
    }
  }

  lemma {:induction false} ContainsAtEnd(u: string, h: string)
    ensures Contains(u + h, h)
  {
    if u == "" {
      assert u + h == h;
    } else {
      assert (u + h)[1..] == u[1..] + h;
      ContainsAtEnd(u[1..], h);
    }
  }

  /** A template with one brace, its first character, holds no placeholder but the one it starts with. */
  lemma OnePlaceholder(k: string, tail: string, l: string)
    requires NoBraces(k) && NoBraces(l) && k != l && forall i :: 0 <= i < |tail| ==> tail[i] != '{'
    ensures !Contains(Hole(k) + tail, Hole(l))
  {
    var t := Hole(k) + tail;
    if Contains(t, Hole(l)) {
      var i := ContainsPlace(t, Hole(l));
      assert t[i] == t[i..][0] == Hole(l)[0];
      assert t[0..] == t;
      HolesAreUnique(t, k, l);
      assert false;
    }
  }

  lemma {:induction false} OthersLeaveAlone(t: string, bs: seq<Binding>)
    requires forall b <- bs :: !Contains(t, Hole(b.key))
    ensures OneByOne(t, bs) == t
  {
    if bs == [] {
    } else {
      NothingToReplace(t, Hole(bs[0].key), bs[0].value);
      OthersLeaveAlone(t, bs[1..]);
    }
  }

  lemma {:induction false} ExpandConcat(t: string, bs: seq<Binding>, cs: seq<Binding>)
    ensures OneByOne(t, bs + cs) == OneByOne(OneByOne(t, bs), cs)
    decreases |bs|
  {
    if bs == [] {
      assert bs + cs == cs;
    } else {
      assert (bs + cs)[1..] == bs[1..] + cs;
      ExpandConcat(Replaced(t, bs[0]), bs[1..], cs);
    }
  }

  /** Replacing the placeholder at the start of such a template. */
  lemma ReplacedAtStart(b: Binding, tail: string)
    requires forall i :: 0 <= i < |tail| ==> tail[i] != '{'
    ensures Replaced(Hole(b.key) + tail, b) == b.value + tail
  {
    var h := Hole(b.key);
    assert h <= h + tail && (h + tail)[|h|..] == tail;
    NoPlaceholderInTail(tail, b.key);
    NothingToReplace(tail, h, b.value);
  }

  lemma NoPlaceholderInTail(tail: string, key: string)
    requires forall i :: 0 <= i < |tail| ==> tail[i] != '{'
    ensures !Contains(tail, Hole(key))
  {
    if Contains(tail, Hole(key)) {
      var i := ReachingHoldsBrace(tail, key);
      assert false;
    }
  }

  lemma SubstitutedAtStart(b: Binding, tail: string, bs: seq<Binding>)
    requires PlainKeys(bs) && UniqueKeys(bs) && b in bs && forall i :: 0 <= i < |tail| ==> tail[i] != '{'
    ensures Substitute(Hole(b.key) + tail, bs) == b.value + tail
  {
    var h := Hole(b.key);
    assert h <= h + tail && (h + tail)[|h|..] == tail;
    LeadIs(h + tail, bs, b);
    PlainPasses(tail, "", bs);
    assert tail + "" == tail;
  }

  /** When the last two keys are `a` and `b` and the value of `a` reaches `b`, some separated template shows it. */
  lemma ReachedKeyShows(others: seq<Binding>, a: Binding, b: Binding) returns (t: string)
    requires var cs := others + [a, b]; PlainKeys(cs) && UniqueKeys(cs)
    requires !Identity(b) && Reaches(a.value, Hole(b.key))
    ensures Separated(t) && OneByOne(t, others + [a, b]) != Substitute(t, others + [a, b])
  {
    var cs := others + [a, b];
    LastTwo(others, a, b);
    var tail := MissingTail(a.value, Hole(b.key));
    assert forall i :: 0 <= i < |tail| ==> tail[i] == Hole(b.key)[1..][|Hole(b.key)| - |tail| - 1 + i];
    t := Hole(a.key) + tail;
    forall o <- others
      ensures !Contains(t, Hole(o.key))
    {
      OnePlaceholder(a.key, tail, o.key);
    }
    OthersLeaveAlone(t, others);
    ExpandConcat(t, others, [a, b]);
    ReplacedAtStart(a, tail);
    TwoSteps(t, a, b);
    ReplacingChangesText(a.value + tail, Hole(b.key), b.value);
    SubstitutedAtStart(a, tail, cs);
  }

  lemma TwoSteps(t: string, a: Binding, b: Binding)
    ensures OneByOne(t, [a, b]) == Replaced(Replaced(t, a), b)
  {
    assert [a, b][1..] == [b] && [b][1..] == [];
    assert OneByOne(t, [a, b]) == OneByOne(Replaced(t, a), [b]);
    assert OneByOne(Replaced(t, a), [b]) == OneByOne(Replaced(Replaced(t, a), b), []);
  }

  lemma LastTwo(others: seq<Binding>, a: Binding, b: Binding)
    requires var cs := others + [a, b]; PlainKeys(cs) && UniqueKeys(cs)
    ensures NoBraces(a.key) && NoBraces(b.key) && a.key != b.key && a in others + [a, b]
    ensures forall o <- others :: NoBraces(o.key) && o.key != a.key
  {
    var cs, n := others + [a, b], |others|;
    assert cs[n] == a && cs[n + 1] == b;
    forall o <- others
      ensures NoBraces(o.key) && o.key != a.key
    {
      var i :| 0 <= i < n && others[i] == o;
      assert cs[i] == o;
    }
  }

  function Dropping(bs: seq<Binding>, k: string, l: string): (r: seq<Binding>)
    ensures forall b :: b in r <==> b in bs && b.key != k && b.key != l
  {
    if bs == [] then []
    else (if bs[0].key == k || bs[0].key == l then [] else [bs[0]]) + Dropping(bs[1..], k, l)
  }

  lemma {:induction false} DroppingIsPlain(bs: seq<Binding>, k: string, l: string)
    requires PlainKeys(bs) && UniqueKeys(bs)
    ensures PlainKeys(Dropping(bs, k, l)) && UniqueKeys(Dropping(bs, k, l))
  {
    if bs == [] {
    } else {
      var rest := bs[1..];
      DroppingIsPlain(rest, k, l);
      var ds := Dropping(rest, k, l);
      forall i | 0 <= i < |ds|
        ensures ds[i].key != bs[0].key
      {
        assert ds[i] in rest;
        var m :| 0 <= m < |rest| && rest[m] == ds[i];
        assert rest[m] == bs[m + 1];
      }
    }
  }

  lemma KeysFix(bs: seq<Binding>, a: Binding, b: Binding)
    requires UniqueKeys(bs) && a in bs && b in bs && a.key == b.key
    ensures a == b
  {
    var i :| 0 <= i < |bs| && bs[i] == a;
    var j :| 0 <= j < |bs| && bs[j] == b;
    assert i == j;
  }

  /** The order that puts `a` and `b` last. */
  lemma OrderingWithLast(bs: seq<Binding>, a: Binding, b: Binding)
    requires PlainKeys(bs) && UniqueKeys(bs) && a in bs && b in bs && a.key != b.key
    ensures IsOrdering(Dropping(bs, a.key, b.key) + [a, b], bs)
  {
    var others := Dropping(bs, a.key, b.key);
    var cs := others + [a, b];
    DroppingIsPlain(bs, a.key, b.key);
    forall i | 0 <= i < |others|
      ensures others[i].key != a.key && others[i].key != b.key
    {
      assert others[i] in others;
    }
    forall c
      ensures c in cs <==> c in bs
    {
      if c in bs && c.key == a.key {
        KeysFix(bs, a, c);
      }
      if c in bs && c.key == b.key {
        KeysFix(bs, b, c);
      }
      assert cs[|others|] == a && cs[|others| + 1] == b;
      assert c in others ==> c in cs;
    }
  }

  /**
   For any context with plain keys: separated templates are expanded as by one substitution in every order of the
   keys exactly if no value reaches the placeholder of another key, keys that stand for themselves aside.
   */
  lemma SimultaneousInEveryOrderExactly(bs: seq<Binding>)
    requires PlainKeys(bs) && UniqueKeys(bs)
    ensures SimultaneousInEveryOrder(bs) <==> NoneReaches(bs)
  {
    if NoneReaches(bs) {
      forall cs, t | IsOrdering(cs, bs) && Separated(t)
        ensures OneByOne(t, cs) == Substitute(t, bs)
      {
        NoneReachesIsEnough(bs, cs, t);
      }
    } else {
      var a, b :| a in bs && b in bs && a.key != b.key && !Identity(b) && Reaches(a.value, Hole(b.key));
      var cs, t := ReachedKeyBreaks(bs, a, b);
    }
  }

  lemma ReachedKeyBreaks(bs: seq<Binding>, a: Binding, b: Binding) returns (cs: seq<Binding>, t: string)
    requires PlainKeys(bs) && UniqueKeys(bs) && a in bs && b in bs && a.key != b.key
    requires !Identity(b) && Reaches(a.value, Hole(b.key))
    ensures IsOrdering(cs, bs) && Separated(t) && OneByOne(t, cs) != Substitute(t, bs)
  {
    OrderingWithLast(bs, a, b);
    cs := Dropping(bs, a.key, b.key) + [a, b];
    t := ReachedKeyShows(Dropping(bs, a.key, b.key), a, b);
    SameSubstitution(t, bs, cs);
  }

  // ---------------------------------------------------------------- two keys

  lemma TwoKeys(a: Binding, b: Binding)
    requires NoBraces(a.key) && NoBraces(b.key) && a.key != b.key
    ensures PlainKeys([a, b]) && UniqueKeys([a, b]) && [] + [a, b] == [a, b]
  {
  }

  /** Two keys in a given order: only what the value of the first reaches matters. */
  lemma TwoKeysExactly(a: Binding, b: Binding)
    requires NoBraces(a.key) && NoBraces(b.key) && a.key != b.key
    ensures (forall t :: Separated(t) ==> OneByOne(t, [a, b]) == Substitute(t, [a, b]))
      <==> Identity(b) || !Reaches(a.value, Hole(b.key))
  {
    TwoKeys(a, b);
    if Identity(b) || !Reaches(a.value, Hole(b.key)) {
      forall t | Separated(t)
        ensures OneByOne(t, [a, b]) == Substitute(t, [a, b])
      {
        TwoKeysAgree(a, b, t);
      }
    } else {
      var t := ReachedKeyShows([], a, b);
    }
  }

  lemma EffectiveOfTwo(a: Binding, b: Binding)
    ensures Effective([a, b]) == (if Identity(a) then [] else [a]) + (if Identity(b) then [] else [b])
  {
    assert [a, b][1..] == [b] && [b][1..] == [];
    assert Effective([b]) == (if Identity(b) then [] else [b]) + Effective([]);
  }

  lemma TwoKeysAreGood(a: Binding, b: Binding)
    requires NoBraces(a.key) && NoBraces(b.key) && a.key != b.key
    requires Identity(b) || !Reaches(a.value, Hole(b.key))
    ensures PlainKeys(Effective([a, b])) && UniqueKeys(Effective([a, b])) && GoodContext(Effective([a, b]))
  {
    TwoKeys(a, b);
    EffectiveIsPlain([a, b]);
    EffectiveOfTwo(a, b);
    PairwiseIsGood(Effective([a, b]));
  }

  lemma TwoKeysAgree(a: Binding, b: Binding, t: string)
    requires NoBraces(a.key) && NoBraces(b.key) && a.key != b.key && Separated(t)
    requires Identity(b) || !Reaches(a.value, Hole(b.key))
    ensures OneByOne(t, [a, b]) == Substitute(t, [a, b])
  {
    TwoKeys(a, b);
    TwoKeysAreGood(a, b);
    SeparatedTextIsSafe(t, Effective([a, b]));
    ExpansionIsSimultaneous(t, Effective([a, b]));
    ExpandingEffective(t, [a, b]);
    SubstitutingEffective(t, [a, b]);
  }

  /** The order of two keys shows on a placeholder exactly if its value holds the other one, and that is not itself. */
  lemma OrderShowsExactly(a: Binding, b: Binding)
    requires NoBraces(a.key) && NoBraces(b.key) && a.key != b.key
    ensures OneByOne(Hole(a.key), [a, b]) == OneByOne(Hole(a.key), [b, a])
      <==> !Contains(a.value, Hole(b.key)) || Identity(b)
  {
    var t := Hole(a.key);
    assert t + "" == t && a.value + "" == a.value;
    OnePlaceholder(a.key, "", b.key);
    NothingToReplace(t, Hole(b.key), b.value);
    ReplacedAtStart(a, "");
    TwoSteps(t, a, b);
    TwoSteps(t, b, a);
    if !Contains(a.value, Hole(b.key)) {
      NothingToReplace(a.value, Hole(b.key), b.value);
    } else if Identity(b) {
      ReplacingByItself(a.value, Hole(b.key));
    } else {
      ReplacingChangesText(a.value, Hole(b.key), b.value);
    }
  }

  // ---------------------------------------------------------------- two inputs

  /** A template that is a placeholder and a rest without opening braces, and keys `a` and `b` in this order. */
  lemma ExpandedTwice(a: Binding, b: Binding, tail: string)
    requires NoBraces(a.key) && NoBraces(b.key) && a.key != b.key && forall i :: 0 <= i < |tail| ==> tail[i] != '{'
    requires a.value + tail == Hole(b.key)
    ensures OneByOne(Hole(a.key) + tail, [a, b]) == b.value
    ensures Substitute(Hole(a.key) + tail, [a, b]) == Hole(b.key)
  {
    TwoKeys(a, b);
    ReplacedAtStart(a, tail);
    TwoSteps(Hole(a.key) + tail, a, b);
    ReplacedAtStart(b, "");
    assert Hole(b.key) + "" == Hole(b.key) && b.value + "" == b.value;
    SubstitutedAtStart(a, tail, [a, b]);
  }

  /** A value that is the next key's placeholder is expanded again. */
  lemma ValueIsExpandedAgain()
    ensures var bs := [Binding("a", "{b}"), Binding("b", "x")];
      OneByOne("{a}", bs) == "x" && Substitute("{a}", bs) == "{b}"
  {
    assert Hole("a") == "{a}" && Hole("b") == "{b}" && "{a}" + "" == "{a}" && "{b}" + "" == "{b}";
    ExpandedTwice(Binding("a", "{b}"), Binding("b", "x"), "");
  }

  /** A value that only opens a brace is completed to the next key's placeholder by the template. */
  lemma OpenValueIsCompleted()
    ensures var bs := [Binding("a", "{"), Binding("b", "x")];
      OneByOne("{a}b}", bs) == "x" && Substitute("{a}b}", bs) == "{b}"
  {
    assert Hole("a") == "{a}" && Hole("b") == "{b}" && "{a}" + "b}" == "{a}b}" && "{" + "b}" == "{b}";
    ExpandedTwice(Binding("a", "{"), Binding("b", "x"), "b}");
  }
}
