/**
 The filter that strips fake tool-call wrappers from streamed text. `Filter` says
 character by character what passes; the method that searches for markers is proved
 against it. The result does not depend on how the text is cut into deltas as long as no cut goes
 through a marker (`ChunkingDoesNotMatter`), and `CutMattersExactly` says which cuts change it.

 The proofs are about any two marker tables that are `WellShaped`; the tables of the
 source are.
 */
module StreamFilter {
  import opened Options

  datatype MarkerTables = MarkerTables(starts: seq<string>, ends: seq<string>) {
    /** The markers looked for: end markers inside a wrapper, start markers outside. */
    function Sought(inFake: bool): seq<string> {
      if inFake then ends else starts
    }
  }

  const MARKERS: MarkerTables := MarkerTables(
    ["[TOOL_CALL]", "<deepseek:tool_call", "<tool_call", "<invoke ", "<function_calls>"],
    ["[/TOOL_CALL]", "</deepseek:tool_call>", "</tool_call>", "</invoke>", "</function_calls>"])

  // ---------------------------------------------------------------- the marker tables

  predicate IsHead(c: char) {
    c == '<' || c == '['
  }

  /** A marker opens with a bracket and has none inside; an end marker goes on with a slash, a start marker not. */
  predicate MarkerShape(m: string, end: bool) {
    |m| >= 2 && IsHead(m[0]) && (m[1] == '/' <==> end) && forall i :: 1 <= i < |m| ==> !IsHead(m[i])
  }

  /** The markers of a table are told apart by the character at `at`. */
  predicate Lettered(ms: seq<string>, at: nat) {
    && (forall k :: 0 <= k < |ms| ==> at < |ms[k]|)
    && (forall j, k :: 0 <= j < k < |ms| ==> ms[j][at] != ms[k][at])
  }

  predicate WellShaped(t: MarkerTables) {
    && (forall k :: 0 <= k < |t.starts| ==> MarkerShape(t.starts[k], false))
    && (forall k :: 0 <= k < |t.ends| ==> MarkerShape(t.ends[k], true))
    && Lettered(t.starts, 1) && Lettered(t.ends, 2)
  }

  lemma StartsAreWellShaped()
    ensures forall k :: 0 <= k < |MARKERS.starts| ==> MarkerShape(MARKERS.starts[k], false)
  {
    assert MarkerShape("[TOOL_CALL]", false);
    assert MarkerShape("<deepseek:tool_call", false);
    assert MarkerShape("<tool_call", false);
    assert MarkerShape("<invoke ", false);
    assert MarkerShape("<function_calls>", false);
  }

  lemma EndsAreWellShaped()
    ensures forall k :: 0 <= k < |MARKERS.ends| ==> MarkerShape(MARKERS.ends[k], true)
  {
    assert MarkerShape("[/TOOL_CALL]", true);
    assert MarkerShape("</deepseek:tool_call>", true);
    assert MarkerShape("</tool_call>", true);
    assert MarkerShape("</invoke>", true);
    assert MarkerShape("</function_calls>", true);
  }

  lemma MarkersAreLettered()
    ensures Lettered(MARKERS.starts, 1) && Lettered(MARKERS.ends, 2)
  {
    var e, s := MARKERS.ends, MARKERS.starts;
    assert e[0][2] == 'T' && e[1][2] == 'd' && e[2][2] == 't' && e[3][2] == 'i' && e[4][2] == 'f';
    assert s[0][1] == 'T' && s[1][1] == 'd' && s[2][1] == 't' && s[3][1] == 'i' && s[4][1] == 'f';
  }

  lemma MarkersAreWellShaped()
    ensures WellShaped(MARKERS)
  {
    StartsAreWellShaped();
    EndsAreWellShaped();
    MarkersAreLettered();
  }

  // ---------------------------------------------------------------- the specification

  /** The length of the marker that `text` starts with, the first in table order. */
  function Leading(text: string, ms: seq<string>): Option<nat> {
    if ms == [] then None
    else if ms[0] <= text then Some(|ms[0]|)
    else Leading(text, ms[1..])
  }

  /** What passes of text that holds no marker. */
  function Emit(inFake: bool, s: string): string {
    if inFake then "" else s
  }

  lemma EmitConcat(inFake: bool, x: string, y: string, z: string)
    ensures Emit(inFake, x) + (Emit(inFake, y) + z) == Emit(inFake, x + y) + z
    ensures (Emit(inFake, x) + y) + z == Emit(inFake, x) + (y + z)
    ensures Emit(inFake, "") + z == z && z + "" == z
  {
  }

  /**
   Outside a wrapper characters pass, inside they do not; a marker of the kind looked
   for is dropped and changes sides. The second result tells whether the text ends inside a wrapper.
   */
  function Filter(t: MarkerTables, text: string, inFake: bool): (string, bool)
    decreases |text|
  {
    if text == "" then ("", inFake)
    else
      var m := Leading(text, t.Sought(inFake));
      if m.Some? && 0 < m.value <= |text| then Filter(t, text[m.value..], !inFake)
      else
        var rest := Filter(t, text[1..], inFake);
        (Emit(inFake, [text[0]]) + rest.0, rest.1)
  }

  lemma {:induction false} LeadingIsAMarker(text: string, ms: seq<string>)
    ensures Leading(text, ms).Some? ==> exists k :: 0 <= k < |ms| && ms[k] <= text && |ms[k]| == Leading(text, ms).value
    ensures Leading(text, ms).None? ==> forall k :: 0 <= k < |ms| ==> !(ms[k] <= text)
  {
    if ms != [] && !(ms[0] <= text) {
      LeadingIsAMarker(text, ms[1..]);
      if Leading(text, ms).Some? {
        var k :| 0 <= k < |ms[1..]| && ms[1..][k] <= text && |ms[1..][k]| == Leading(text, ms).value;
        assert ms[k + 1] <= text;
      } else {
        forall k | 0 <= k < |ms| ensures !(ms[k] <= text) {
          assert k > 0 ==> ms[k] == ms[1..][k - 1];
        }
      }
    }
  }

  /** A text starts with at most one marker of a lettered table. */
  lemma LeadingIsUnique(text: string, ms: seq<string>, at: nat, k: nat)
    requires Lettered(ms, at) && k < |ms| && ms[k] <= text
    ensures Leading(text, ms) == Some(|ms[k]|)
  {
    LeadingIsAMarker(text, ms);
    var j :| 0 <= j < |ms| && ms[j] <= text && |ms[j]| == Leading(text, ms).value;
    assert ms[j][at] == text[at] == ms[k][at];
  }

  function LetterAt(inFake: bool): nat {
    if inFake then 2 else 1
  }

  /** What a leading marker looks like. */
  lemma LeadingShape(t: MarkerTables, text: string, inFake: bool)
    requires WellShaped(t) && Leading(text, t.Sought(inFake)).Some?
    ensures var n := Leading(text, t.Sought(inFake)).value;
      2 <= n <= |text| && IsHead(text[0]) && (text[1] == '/' <==> inFake) && forall i :: 1 <= i < n ==> !IsHead(text[i])
  {
    LeadingIsAMarker(text, t.Sought(inFake));
    var k :| 0 <= k < |t.Sought(inFake)| && t.Sought(inFake)[k] <= text
      && |t.Sought(inFake)[k]| == Leading(text, t.Sought(inFake)).value;
    assert MarkerShape(t.Sought(inFake)[k], inFake);
  }

  predicate NoHeads(text: string) {
    forall i :: 0 <= i < |text| ==> !IsHead(text[i])
  }

  /** Text without brackets has no markers: it passes whole, or not at all. */
  lemma {:induction false} FilterNoHeads(t: MarkerTables, a: string, b: string, inFake: bool)
    requires WellShaped(t) && NoHeads(a)
    ensures Filter(t, a + b, inFake) == (Emit(inFake, a) + Filter(t, b, inFake).0, Filter(t, b, inFake).1)
    decreases |a|
  {
    if a == "" {
      assert a + b == b;
      EmitConcat(inFake, "", "", Filter(t, b, inFake).0);
    } else {
      if Leading(a + b, t.Sought(inFake)).Some? {
        LeadingShape(t, a + b, inFake);
        assert false;
      }
      assert (a + b)[1..] == a[1..] + b && (a + b)[0] == a[0];
      FilterNoHeads(t, a[1..], b, inFake);
      EmitConcat(inFake, [a[0]], a[1..], Filter(t, b, inFake).0);
      assert [a[0]] + a[1..] == a;
    }
  }

  // ---------------------------------------------------------------- the search

  /** First occurrence of `m` at or after `from`, as `str::find` gives it. */
  function Find(text: string, m: string, from: nat): (r: Option<nat>)
    requires from <= |text|
    ensures r.Some? ==> from <= r.value <= |text| && m <= text[r.value..]
    ensures r.Some? ==> forall j :: from <= j < r.value ==> !(m <= text[j..])
    ensures r.None? ==> forall j :: from <= j <= |text| ==> !(m <= text[j..])
    decreases |text| - from
  {
    if m <= text[from..] then Some(from)
    else if from == |text| then None
    else Find(text, m, from + 1)
  }

  /** `r` is the first place where a marker stands, and the length of that marker. */
  ghost predicate IsFirst(text: string, ms: seq<string>, r: Option<(nat, nat)>) {
    match r
    case None => forall j :: 0 <= j <= |text| ==> Leading(text[j..], ms).None?
    case Some(f) =>
      && f.0 <= |text| && Leading(text[f.0..], ms) == Some(f.1)
      && forall j :: 0 <= j < f.0 ==> Leading(text[j..], ms).None?
  }

  lemma {:induction false} LeadingOfMore(text: string, ms: seq<string>, m: string)
    ensures Leading(text, ms + [m]) ==
      if Leading(text, ms).Some? then Leading(text, ms) else if m <= text then Some(|m|) else None
  {
    if ms == [] {
      assert ms + [m] == [m];
    } else {
      assert (ms + [m])[1..] == ms[1..] + [m];
      LeadingOfMore(text, ms[1..], m);
    }
  }

  /** `find_first_marker`: the least of the places where the markers are found. */
  method FindFirstMarker(text: string, markers: seq<string>) returns (r: Option<(nat, nat)>)
    ensures IsFirst(text, markers, r)
  {
    r := None;
    for i := 0 to |markers|
      invariant IsFirst(text, markers[..i], r)
    {
      var m := markers[i];
      var here := Find(text, m, 0);
      ghost var before := r;
      if here.Some? && (r.None? || here.value < r.value.0) {
        r := Some((here.value, |m|));
      }
      assert markers[..i + 1] == markers[..i] + [m];
      forall j | 0 <= j <= |text|
        ensures Leading(text[j..], markers[..i + 1]) ==
          if Leading(text[j..], markers[..i]).Some? then Leading(text[j..], markers[..i])
          else if m <= text[j..] then Some(|m|) else None
      {
        LeadingOfMore(text[j..], markers[..i], m);
      }
    }
    assert markers[..|markers|] == markers;
  }

  /** The filter up to the first marker. */
  lemma {:induction false} FilterToFirst(t: MarkerTables, text: string, inFake: bool, n: nat)
    requires n <= |text| && forall j :: 0 <= j < n ==> Leading(text[j..], t.Sought(inFake)).None?
    ensures Filter(t, text, inFake) ==
      (Emit(inFake, text[..n]) + Filter(t, text[n..], inFake).0, Filter(t, text[n..], inFake).1)
    decreases n
  {
    if n == 0 {
      assert text[0..] == text;
      EmitConcat(inFake, "", "", Filter(t, text, inFake).0);
    } else {
      assert text[0..] == text;
      assert forall j :: 1 <= j <= n ==> text[j..] == text[1..][j - 1..];
      FilterToFirst(t, text[1..], inFake, n - 1);
      assert text[1..][n - 1..] == text[n..] && text[..n] == [text[0]] + text[1..][..n - 1];
      EmitConcat(inFake, [text[0]], text[1..][..n - 1], Filter(t, text[n..], inFake).0);
    }
  }

  /** The length of the first start marker, in table order, that stands at `idx`. */
  method MarkerLength(t: MarkerTables, text: string) returns (len: nat)
    requires Leading(text, t.starts).Some?
    ensures len == Leading(text, t.starts).value
  {
    len := 1;
    for i := 0 to |t.starts|
      invariant Leading(text, t.starts) == Leading(text, t.starts[i..])
    {
      if t.starts[i] <= text {
        return |t.starts[i]|;
      }
      assert t.starts[i..][1..] == t.starts[i + 1..];
    }
  }

  /** The filter over a text whose first marker is known. */
  lemma FilterFromFirst(t: MarkerTables, text: string, inFake: bool, f: Option<(nat, nat)>)
    requires WellShaped(t) && IsFirst(text, t.Sought(inFake), f)
    ensures f.None? ==> Filter(t, text, inFake) == (Emit(inFake, text), inFake)
    ensures f.Some? ==>
      var n := f.value.0 + f.value.1;
      && f.value.0 < n <= |text|
      && Filter(t, text, inFake) == (Emit(inFake, text[..f.value.0]) + Filter(t, text[n..], !inFake).0, Filter(t, text[n..], !inFake).1)
  {
    if f.None? {
      FilterToFirst(t, text, inFake, |text|);
      assert text[..|text|] == text && text[|text|..] == "" && Emit(inFake, text) + "" == Emit(inFake, text);
    } else {
      var idx := f.value.0;
      FilterToFirst(t, text, inFake, idx);
      LeadingShape(t, text[idx..], inFake);
      assert text[idx..][f.value.1..] == text[idx + f.value.1..];
    }
  }

  /** `filter_fake_tool_delta`. */
  method FilterFakeToolDelta(t: MarkerTables, delta: string, inFake: bool) returns (output: string, nowInFake: bool)
    requires WellShaped(t)
    ensures (output, nowInFake) == Filter(t, delta, inFake)
  {
    output, nowInFake := "", inFake;
    if delta == "" {
      return;
    }
    var rest := delta;
    while true
      invariant output + Filter(t, rest, nowInFake).0 == Filter(t, delta, inFake).0
      invariant Filter(t, rest, nowInFake).1 == Filter(t, delta, inFake).1
      decreases |rest|
    {
      if nowInFake {
        var after := LeaveWrapper(t, rest);
        if after.None? {
          break;
        }
        rest := after.value;
        nowInFake := false;
      } else {
        var before, after := EnterWrapper(t, rest);
        output := output + before;
        if after.None? {
          break;
        }
        rest := after.value;
        nowInFake := true;
      }
    }
    assert output + "" == output;
  }

  /** The branch taken inside a wrapper: what follows the first end marker. */
  method LeaveWrapper(t: MarkerTables, rest: string) returns (after: Option<string>)
    requires WellShaped(t)
    ensures after.None? ==> Filter(t, rest, true) == ("", true)
    ensures after.Some? ==> |after.value| < |rest| && Filter(t, rest, true) == Filter(t, after.value, false)
  {
    var f := FindFirstMarker(rest, t.ends);
    FilterFromFirst(t, rest, true, f);
    if f.None? {
      return None;
    }
    EmitConcat(true, "", "", Filter(t, rest[f.value.0 + f.value.1..], false).0);
    return Some(rest[f.value.0 + f.value.1..]);
  }

  /** The branch taken outside: what precedes the first start marker, and what follows it. */
  method EnterWrapper(t: MarkerTables, rest: string) returns (before: string, after: Option<string>)
    requires WellShaped(t)
    ensures after.None? ==> Filter(t, rest, false) == (before, false)
    ensures after.Some? ==> |after.value| < |rest|
    ensures after.Some? ==>
      Filter(t, rest, false) == (before + Filter(t, after.value, true).0, Filter(t, after.value, true).1)
  {
    var f := FindFirstMarker(rest, t.starts);
    FilterFromFirst(t, rest, false, f);
    if f.None? {
      return rest, None;
    }
    var idx := f.value.0;
    var len := MarkerLength(t, rest[idx..]);
    return rest[..idx], Some(rest[idx + len..]);
  }

  // ---------------------------------------------------------------- one cut

  /** A marker of the table stands across the boundary between `a` and `b`. */
  ghost predicate Straddles(ms: seq<string>, a: string, b: string) {
    exists i, k :: 0 <= i < |a| && 0 <= k < |ms| && StraddlesAt(a, b, i, ms[k])
  }

  predicate StraddlesAt(a: string, b: string, i: nat, m: string)
    requires i < |a|
  {
    m <= a[i..] + b && |a| < i + |m|
  }

  /** Filtering `a` and then `b`, with the state passed on. */
  function FilterBoth(t: MarkerTables, a: string, b: string, inFake: bool): (string, bool) {
    var first := Filter(t, a, inFake);
    var second := Filter(t, b, first.1);
    (first.0 + second.0, second.1)
  }

  lemma StraddlesFromRest(ms: seq<string>, a: string, b: string, n: nat)
    requires n <= |a| && Straddles(ms, a[n..], b)
    ensures Straddles(ms, a, b)
  {
    var i, k :| 0 <= i < |a[n..]| && 0 <= k < |ms| && StraddlesAt(a[n..], b, i, ms[k]);
    assert a[n..][i..] == a[n + i..];
    assert StraddlesAt(a, b, n + i, ms[k]);
  }

  /** A marker that leads the first piece leads the whole. */
  lemma LeadingInPrefix(t: MarkerTables, a: string, b: string, inFake: bool)
    requires WellShaped(t) && Leading(a, t.Sought(inFake)).Some?
    ensures Leading(a + b, t.Sought(inFake)) == Leading(a, t.Sought(inFake))
  {
    var ms := t.Sought(inFake);
    LeadingIsAMarker(a, ms);
    var k :| 0 <= k < |ms| && ms[k] <= a && |ms[k]| == Leading(a, ms).value;
    LeadingIsUnique(a + b, ms, LetterAt(inFake), k);
  }

  lemma ShortPrefix(m: string, a: string, b: string)
    requires m <= a + b
    ensures m <= a || |a| < |m|
  {
  }

  /** A marker that leads the whole but not the first piece straddles the cut, and the piece is its start. */
  lemma LeadingAcross(t: MarkerTables, a: string, b: string, inFake: bool)
    requires WellShaped(t) && a != "" && Leading(a, t.Sought(inFake)).None? && Leading(a + b, t.Sought(inFake)).Some?
    ensures Straddles(t.Sought(inFake), a, b)
    ensures |a| < Leading(a + b, t.Sought(inFake)).value && NoHeads(a[1..])
  {
    var ms := t.Sought(inFake);
    LeadingIsAMarker(a, ms);
    LeadingIsAMarker(a + b, ms);
    LeadingShape(t, a + b, inFake);
    var k :| 0 <= k < |ms| && ms[k] <= a + b && |ms[k]| == Leading(a + b, ms).value;
    ShortPrefix(ms[k], a, b);
    assert a[0..] == a;
    assert StraddlesAt(a, b, 0, ms[k]);
    assert forall i :: 0 <= i < |a[1..]| ==> a[1..][i] == (a + b)[1..][i];
  }

  /** A piece that is the start of a straddling marker passes whole or not at all. */
  lemma FilterBrokenMarker(t: MarkerTables, a: string, inFake: bool)
    requires WellShaped(t) && a != "" && Leading(a, t.Sought(inFake)).None? && NoHeads(a[1..])
    ensures Filter(t, a, inFake) == (Emit(inFake, a), inFake)
  {
    FilterNoHeads(t, a[1..], "", inFake);
    EmitConcat(inFake, [a[0]], a[1..], "");
    assert a[1..] + "" == a[1..] && [a[0]] + a[1..] == a;
    EmitConcat(inFake, "", "", Emit(inFake, a));
  }

  /** Both ways of filtering go over a marker that leads the first piece. */
  lemma FilterOverMarker(t: MarkerTables, a: string, b: string, inFake: bool)
    requires WellShaped(t) && Leading(a, t.Sought(inFake)).Some?
    ensures var n := Leading(a, t.Sought(inFake)).value;
      && 2 <= n <= |a|
      && Filter(t, a, inFake).1 == Filter(t, a[n..], !inFake).1
      && Filter(t, a + b, inFake) == Filter(t, a[n..] + b, !inFake)
      && FilterBoth(t, a, b, inFake) == FilterBoth(t, a[n..], b, !inFake)
  {
    LeadingShape(t, a, inFake);
    LeadingInPrefix(t, a, b, inFake);
    var n := Leading(a, t.Sought(inFake)).value;
    assert (a + b)[n..] == a[n..] + b;
  }

  /** One cut: only a marker of the kind looked for where the first piece ends can matter. */
  lemma {:induction false} CutDoesNotMatter(t: MarkerTables, a: string, b: string, inFake: bool)
    requires WellShaped(t) && !Straddles(t.Sought(Filter(t, a, inFake).1), a, b)
    ensures Filter(t, a + b, inFake) == FilterBoth(t, a, b, inFake)
    decreases |a|
  {
    if a == "" {
      assert a + b == b;
      EmitConcat(inFake, "", "", Filter(t, b, inFake).0);
    } else if Leading(a, t.Sought(inFake)).Some? {
      var n := Leading(a, t.Sought(inFake)).value;
      FilterOverMarker(t, a, b, inFake);
      if Straddles(t.Sought(Filter(t, a[n..], !inFake).1), a[n..], b) {
        StraddlesFromRest(t.Sought(Filter(t, a[n..], !inFake).1), a, b, n);
        assert false;
      }
      CutDoesNotMatter(t, a[n..], b, !inFake);
    } else {
      if Leading(a + b, t.Sought(inFake)).Some? {
        LeadingAcross(t, a, b, inFake);
        FilterBrokenMarker(t, a, inFake);
        assert false;
      }
      if Straddles(t.Sought(Filter(t, a[1..], inFake).1), a[1..], b) {
        StraddlesFromRest(t.Sought(Filter(t, a[1..], inFake).1), a, b, 1);
        assert false;
      }
      CutDoesNotMatter(t, a[1..], b, inFake);
      assert (a + b)[1..] == a[1..] + b && (a + b)[0] == a[0];
      var first := Filter(t, a[1..], inFake);
      EmitConcat(inFake, [a[0]], first.0, Filter(t, b, first.1).0);
    }
  }

  // ---------------------------------------------------------------- any number of cuts

  function Join(pieces: seq<string>): string {
    if pieces == [] then "" else Join(pieces[..|pieces| - 1]) + pieces[|pieces| - 1]
  }

  /** The stream loop: each delta is filtered in turn and the state is kept. */
  function FilterPieces(t: MarkerTables, pieces: seq<string>, inFake: bool): (string, bool) {
    if pieces == [] then ("", inFake)
    else
      var before := FilterPieces(t, pieces[..|pieces| - 1], inFake);
      var last := Filter(t, pieces[|pieces| - 1], before.1);
      (before.0 + last.0, last.1)
  }

  /** No marker of either kind stands across a cut. */
  ghost predicate CleanCuts(t: MarkerTables, pieces: seq<string>) {
    forall i :: 0 < i < |pieces| ==>
      !Straddles(t.starts, Join(pieces[..i]), pieces[i]) && !Straddles(t.ends, Join(pieces[..i]), pieces[i])
  }

  lemma CleanCutsOfPrefix(t: MarkerTables, pieces: seq<string>, n: nat)
    requires CleanCuts(t, pieces) && n <= |pieces|
    ensures CleanCuts(t, pieces[..n])
  {
    forall i | 0 < i < n
      ensures pieces[..n][..i] == pieces[..i] && pieces[..n][i] == pieces[i]
    {
    }
  }

  lemma {:induction false} PiecesDoNotMatter(t: MarkerTables, pieces: seq<string>, inFake: bool)
    requires WellShaped(t) && CleanCuts(t, pieces)
    ensures FilterPieces(t, pieces, inFake) == Filter(t, Join(pieces), inFake)
  {
    if pieces == [] {
    } else {
      var n := |pieces| - 1;
      CleanCutsOfPrefix(t, pieces, n);
      PiecesDoNotMatter(t, pieces[..n], inFake);
      var a, b := Join(pieces[..n]), pieces[n];
      if n == 0 {
        assert a == "" && a + b == b;
        EmitConcat(inFake, "", "", Filter(t, b, inFake).0);
        assert "" + Filter(t, b, inFake).0 == Filter(t, b, inFake).0;
      } else {
        CutDoesNotMatter(t, a, b, inFake);
      }
    }
  }

  /** However the text is cut, if no marker is cut the output and the final state are those of the whole. */
  lemma ChunkingDoesNotMatter(pieces: seq<string>, inFake: bool)
    requires CleanCuts(MARKERS, pieces)
    ensures FilterPieces(MARKERS, pieces, inFake) == Filter(MARKERS, Join(pieces), inFake)
  {
    MarkersAreWellShaped();
    PiecesDoNotMatter(MARKERS, pieces, inFake);
  }

  // ---------------------------------------------------------------- cut start markers

  /** Text filtered from outside a wrapper never emits less than from inside, if both end on the same side. */
  lemma {:induction false} OutsideEmitsMore(t: MarkerTables, text: string)
    requires WellShaped(t)
    ensures Filter(t, text, false).1 == Filter(t, text, true).1 ==> |Filter(t, text, false).0| >= |Filter(t, text, true).0|
    decreases |text|
  {
    if text == "" {
    } else {
      var start, end := Leading(text, t.starts), Leading(text, t.ends);
      if start.Some? {
        LeadingShape(t, text, false);
      }
      if end.Some? {
        LeadingShape(t, text, true);
      }
      if start.None? && end.None? {
        OutsideEmitsMore(t, text[1..]);
      } else if start.Some? && end.None? {
        FilterTail(t, text, start.value, true);
      } else if start.None? && end.Some? {
        FilterTail(t, text, end.value, false);
      }
    }
  }

  /** The rest of a marker, once its bracket is behind, is plain text. */
  lemma FilterTail(t: MarkerTables, text: string, n: nat, inFake: bool)
    requires WellShaped(t) && 2 <= n <= |text| && Leading(text, t.Sought(inFake)).None?
    requires forall i :: 1 <= i < n ==> !IsHead(text[i])
    ensures Filter(t, text, inFake) ==
      (Emit(inFake, text[..n]) + Filter(t, text[n..], inFake).0, Filter(t, text[n..], inFake).1)
  {
    var m := text[1..n];
    assert NoHeads(m);
    assert text[1..] == m + text[n..];
    FilterNoHeads(t, m, text[n..], inFake);
    EmitConcat(inFake, [text[0]], m, Filter(t, text[n..], inFake).0);
    assert [text[0]] + m == text[..n];
  }

  /** Where a marker leads the first piece, no start marker reaches over it. */
  lemma StartMarkerNotAtStart(t: MarkerTables, a: string, b: string, inFake: bool, k: nat)
    requires WellShaped(t) && Leading(a, t.Sought(inFake)).Some? && k < |t.starts|
    ensures !(t.starts[k] <= a + b) || |t.starts[k]| <= |a|
  {
    LeadingShape(t, a, inFake);
    if t.starts[k] <= a + b && |a| < |t.starts[k]| {
      assert MarkerShape(t.starts[k], false) && (a + b)[1] == a[1];
      LeadingInPrefix(t, a, b, inFake);
      if !inFake {
        LeadingIsUnique(a + b, t.starts, 1, k);
      }
      assert false;
    }
  }

  /** A straddling start marker cannot reach into what has been dropped as a marker. */
  lemma StraddlesBehindMarker(t: MarkerTables, a: string, b: string, inFake: bool)
    requires WellShaped(t) && Leading(a, t.Sought(inFake)).Some? && Straddles(t.starts, a, b)
    ensures var n := Leading(a, t.Sought(inFake)).value; n <= |a| && Straddles(t.starts, a[n..], b)
  {
    var ms, n := t.starts, Leading(a, t.Sought(inFake)).value;
    LeadingShape(t, a, inFake);
    var i, k :| 0 <= i < |a| && 0 <= k < |ms| && StraddlesAt(a, b, i, ms[k]);
    StartMarkerNotAtStart(t, a, b, inFake, k);
    assert a[0..] == a && (a[i..] + b)[0] == a[i] && MarkerShape(ms[k], false);
    assert a[n..][i - n..] == a[i..];
    assert StraddlesAt(a[n..], b, i - n, ms[k]);
  }

  /** A cut through a start marker, where start markers are looked for, always changes the result. */
  lemma {:induction false} CutStartMarkerShows(t: MarkerTables, a: string, b: string, inFake: bool)
    requires WellShaped(t) && !Filter(t, a, inFake).1 && Straddles(t.starts, a, b)
    ensures Filter(t, a + b, inFake) != FilterBoth(t, a, b, inFake)
    decreases |a|
  {
    if Leading(a, t.Sought(inFake)).Some? {
      StraddlesBehindMarker(t, a, b, inFake);
      FilterOverMarker(t, a, b, inFake);
      CutStartMarkerShows(t, a[Leading(a, t.Sought(inFake)).value..], b, !inFake);
    } else if Leading(a + b, t.Sought(inFake)).Some? {
      LeadingAcross(t, a, b, inFake);
      FilterBrokenMarker(t, a, inFake);
      BrokenStartMarkerShows(t, a, b);
    } else {
      StraddlesLater(t, a, b, inFake);
      CutStartMarkerShows(t, a[1..], b, inFake);
      PlainInFront(t, a, b, inFake);
    }
  }

  lemma EmitCancels(inFake: bool, p: string, x: string, y: string)
    ensures Emit(inFake, p) + x == Emit(inFake, p) + y ==> x == y
  {
    var q := Emit(inFake, p);
    assert (q + x)[|q|..] == x && (q + y)[|q|..] == y;
  }

  lemma StraddlesLater(t: MarkerTables, a: string, b: string, inFake: bool)
    requires WellShaped(t) && !Filter(t, a, inFake).1 && Straddles(t.starts, a, b)
    requires Leading(a, t.Sought(inFake)).None? && Leading(a + b, t.Sought(inFake)).None?
    ensures a != "" && Straddles(t.starts, a[1..], b)
  {
    var ms := t.starts;
    var i, k :| 0 <= i < |a| && 0 <= k < |ms| && StraddlesAt(a, b, i, ms[k]);
    if i == 0 {
      assert a[0..] + b == a + b;
      LeadingIsUnique(a + b, ms, 1, k);
      assert MarkerShape(ms[k], false);
      assert forall x :: 0 <= x < |a[1..]| ==> a[1..][x] == (a + b)[x + 1];
      FilterBrokenMarker(t, a, inFake);
      assert false;
    }
    assert a[1..][i - 1..] == a[i..];
    assert StraddlesAt(a[1..], b, i - 1, ms[k]);
  }

  lemma BrokenStartMarkerShows(t: MarkerTables, a: string, b: string)
    requires WellShaped(t) && a != "" && Filter(t, a, false) == (a, false)
    requires Leading(a + b, t.starts).Some? && |a| < Leading(a + b, t.starts).value
    ensures Filter(t, a + b, false) != FilterBoth(t, a, b, false)
  {
    LeadingShape(t, a + b, false);
    var k := Leading(a + b, t.starts).value - |a|;
    assert (a + b)[|a| + k..] == b[k..];
    assert forall x :: 0 <= x < k ==> b[..k][x] == (a + b)[|a| + x];
    FilterNoHeads(t, b[..k], b[k..], false);
    assert b[..k] + b[k..] == b;
    OutsideEmitsMore(t, b[k..]);
  }

  // ---------------------------------------------------------------- cut end markers

  /** Behind a start marker both sides are inside a wrapper. */
  lemma SidesAgreeAtStart(t: MarkerTables, text: string)
    requires WellShaped(t) && Leading(text, t.starts).Some?
    ensures Filter(t, text, false) == Filter(t, text, true)
  {
    var n := Leading(text, t.starts).value;
    LeadingShape(t, text, false);
    NoEndAtStart(t, text);
    FilterTail(t, text, n, true);
    EmitConcat(true, "", "", Filter(t, text[n..], true).0);
  }

  lemma NoEndAtStart(t: MarkerTables, text: string)
    requires WellShaped(t) && Leading(text, t.starts).Some?
    ensures Leading(text, t.ends).None?
  {
    LeadingShape(t, text, false);
    if Leading(text, t.ends).Some? {
      LeadingShape(t, text, true);
      assert false;
    }
  }

  /** At an end marker the outside lets the marker pass, the inside does not. */
  lemma SidesDifferAtEnd(t: MarkerTables, text: string)
    requires WellShaped(t) && Leading(text, t.starts).None? && Leading(text, t.ends).Some?
    ensures Filter(t, text, false) != Filter(t, text, true)
  {
    var n := Leading(text, t.ends).value;
    LeadingShape(t, text, true);
    FilterTail(t, text, n, false);
    assert Filter(t, text, true) == Filter(t, text[n..], false);
    assert |Filter(t, text, false).0| == n + |Filter(t, text[n..], false).0|;
  }

  /** At any other character the outside lets that character pass, the inside does not. */
  lemma SidesDifferElsewhere(t: MarkerTables, text: string)
    requires WellShaped(t) && text != "" && Leading(text, t.starts).None? && Leading(text, t.ends).None?
    ensures Filter(t, text, false) != Filter(t, text, true)
  {
    var rest := text[1..];
    OutsideEmitsMore(t, rest);
    assert Filter(t, text, false) == ([text[0]] + Filter(t, rest, false).0, Filter(t, rest, false).1);
    assert Filter(t, text, true) == ("" + Filter(t, rest, true).0, Filter(t, rest, true).1);
    assert |Filter(t, text, false).0| == 1 + |Filter(t, rest, false).0|;
    assert |Filter(t, text, true).0| == |Filter(t, rest, true).0|;
  }

  /** It does not matter on which side of a wrapper filtering goes on exactly if a start marker follows at once. */
  lemma SidesAgreeExactly(t: MarkerTables, text: string)
    requires WellShaped(t)
    ensures Filter(t, text, false) == Filter(t, text, true) <==> Leading(text, t.starts).Some?
  {
    if Leading(text, t.starts).Some? {
      SidesAgreeAtStart(t, text);
    } else if text != "" && Leading(text, t.ends).Some? {
      SidesDifferAtEnd(t, text);
    } else if text != "" {
      SidesDifferElsewhere(t, text);
    }
  }

  /** The rest of `b` behind an end marker that stands at `i` across the cut. */
  function BehindCut(t: MarkerTables, a: string, b: string, i: nat, k: nat): string
    requires i < |a| && k < |t.ends| && StraddlesAt(a, b, i, t.ends[k])
  {
    b[i + |t.ends[k]| - |a|..]
  }

  /** Dropping text before the marker leaves the marker and what is behind it where they are. */
  lemma StraddlesFurtherOn(t: MarkerTables, a: string, b: string, i: nat, k: nat, n: nat)
    requires n <= i < |a| && k < |t.ends| && StraddlesAt(a, b, i, t.ends[k])
    ensures StraddlesAt(a[n..], b, i - n, t.ends[k])
    ensures BehindCut(t, a[n..], b, i - n, k) == BehindCut(t, a, b, i, k)
  {
    assert a[n..][i - n..] == a[i..];
  }

  /** A marker across the cut starts with a bracket. */
  lemma StraddlerHead(t: MarkerTables, a: string, b: string, i: nat, k: nat)
    requires WellShaped(t) && i < |a| && k < |t.ends| && StraddlesAt(a, b, i, t.ends[k])
    ensures IsHead(a[i]) && (i == 0 ==> t.ends[k] <= a + b && |a| < |t.ends[k]|)
  {
    assert MarkerShape(t.ends[k], true) && (a[i..] + b)[0] == a[i];
    assert a[0..] == a;
  }

  /** A straddling end marker lies behind a marker that leads the first piece. */
  lemma EndMarkerBehindMarker(t: MarkerTables, a: string, b: string, inFake: bool, i: nat, k: nat)
    requires WellShaped(t) && Leading(a, t.Sought(inFake)).Some?
    requires i < |a| && k < |t.ends| && StraddlesAt(a, b, i, t.ends[k])
    ensures var n := Leading(a, t.Sought(inFake)).value;
      && n <= i && StraddlesAt(a[n..], b, i - n, t.ends[k])
      && BehindCut(t, a[n..], b, i - n, k) == BehindCut(t, a, b, i, k)
  {
    LeadingShape(t, a, inFake);
    EndMarkerNotAtStart(t, a, b, inFake, k);
    StraddlerHead(t, a, b, i, k);
    StraddlesFurtherOn(t, a, b, i, k, Leading(a, t.Sought(inFake)).value);
  }

  /** Where a marker leads the first piece, no end marker reaches over it. */
  lemma EndMarkerNotAtStart(t: MarkerTables, a: string, b: string, inFake: bool, k: nat)
    requires WellShaped(t) && Leading(a, t.Sought(inFake)).Some? && k < |t.ends|
    ensures !(t.ends[k] <= a + b) || |t.ends[k]| <= |a|
  {
    LeadingShape(t, a, inFake);
    if t.ends[k] <= a + b && |a| < |t.ends[k]| {
      assert MarkerShape(t.ends[k], true) && (a + b)[1] == a[1];
      LeadingInPrefix(t, a, b, inFake);
      if inFake {
        LeadingIsUnique(a + b, t.ends, 2, k);
      }
      assert false;
    }
  }

  /** A straddling end marker that starts where nothing starts yet lies further on. */
  lemma EndMarkerLater(t: MarkerTables, a: string, b: string, inFake: bool, i: nat, k: nat)
    requires WellShaped(t) && Filter(t, a, inFake).1
    requires i < |a| && k < |t.ends| && StraddlesAt(a, b, i, t.ends[k])
    requires Leading(a, t.Sought(inFake)).None? && Leading(a + b, t.Sought(inFake)).None?
    ensures 0 < i && StraddlesAt(a[1..], b, i - 1, t.ends[k])
    ensures BehindCut(t, a[1..], b, i - 1, k) == BehindCut(t, a, b, i, k)
  {
    if i == 0 {
      assert a[0..] + b == a + b;
      LeadingIsUnique(a + b, t.ends, 2, k);
      assert MarkerShape(t.ends[k], true);
      assert forall x :: 0 <= x < |a[1..]| ==> a[1..][x] == (a + b)[x + 1];
      FilterBrokenMarker(t, a, inFake);
      assert false;
    }
    assert a[1..][i - 1..] == a[i..];
  }

  /** Filtering the whole, and the pieces in turn, over one plain character. */
  lemma PlainFirst(t: MarkerTables, a: string, b: string, inFake: bool)
    requires a != "" && Leading(a, t.Sought(inFake)).None? && Leading(a + b, t.Sought(inFake)).None?
    ensures var p, whole, pieces := Emit(inFake, [a[0]]), Filter(t, a[1..] + b, inFake), FilterBoth(t, a[1..], b, inFake);
      && Filter(t, a + b, inFake) == (p + whole.0, whole.1)
      && FilterBoth(t, a, b, inFake) == (p + pieces.0, pieces.1)
  {
    assert (a + b)[1..] == a[1..] + b && (a + b)[0] == a[0];
    var first := Filter(t, a[1..], inFake);
    EmitConcat(inFake, [a[0]], first.0, Filter(t, b, first.1).0);
  }

  /** One plain character in front makes no difference to whether a cut matters. */
  lemma PlainInFront(t: MarkerTables, a: string, b: string, inFake: bool)
    requires WellShaped(t) && a != ""
    requires Leading(a, t.Sought(inFake)).None? && Leading(a + b, t.Sought(inFake)).None?
    ensures Filter(t, a + b, inFake) == FilterBoth(t, a, b, inFake)
      <==> Filter(t, a[1..] + b, inFake) == FilterBoth(t, a[1..], b, inFake)
  {
    PlainFirst(t, a, b, inFake);
    EmitCancels(inFake, [a[0]], Filter(t, a[1..] + b, inFake).0, FilterBoth(t, a[1..], b, inFake).0);
  }

  /** A piece that is the beginning of an end marker, inside a wrapper. */
  lemma BrokenEndMarker(t: MarkerTables, a: string, b: string, k: nat)
    requires WellShaped(t) && a != "" && Filter(t, a, true) == ("", true)
    requires k < |t.ends| && StraddlesAt(a, b, 0, t.ends[k])
    ensures Filter(t, a + b, true) == FilterBoth(t, a, b, true)
      <==> Leading(BehindCut(t, a, b, 0, k), t.starts).Some?
  {
    assert a[0..] + b == a + b;
    LeadingIsUnique(a + b, t.ends, 2, k);
    LeadingShape(t, a + b, true);
    var n := |t.ends[k]| - |a|;
    assert (a + b)[|t.ends[k]|..] == b[n..];
    assert forall x :: 0 <= x < n ==> b[..n][x] == (a + b)[|a| + x];
    FilterNoHeads(t, b[..n], b[n..], true);
    assert b[..n] + b[n..] == b;
    EmitConcat(true, "", "", Filter(t, b[n..], true).0);
    SidesAgreeExactly(t, b[n..]);
  }

  /** A cut through an end marker inside a wrapper goes unnoticed exactly if a start marker follows at once. */
  lemma {:induction false} CutEndMarkerExactly(t: MarkerTables, a: string, b: string, inFake: bool, i: nat, k: nat)
    requires WellShaped(t) && Filter(t, a, inFake).1
    requires i < |a| && k < |t.ends| && StraddlesAt(a, b, i, t.ends[k])
    ensures Filter(t, a + b, inFake) == FilterBoth(t, a, b, inFake)
      <==> Leading(BehindCut(t, a, b, i, k), t.starts).Some?
    decreases |a|
  {
    if Leading(a, t.Sought(inFake)).Some? {
      var n := Leading(a, t.Sought(inFake)).value;
      EndMarkerBehindMarker(t, a, b, inFake, i, k);
      FilterOverMarker(t, a, b, inFake);
      CutEndMarkerExactly(t, a[n..], b, !inFake, i - n, k);
    } else if Leading(a + b, t.Sought(inFake)).Some? {
      LeadingAcross(t, a, b, inFake);
      FilterBrokenMarker(t, a, inFake);
      EndMarkerAtStart(t, a, b, i, k);
      BrokenEndMarker(t, a, b, k);
    } else {
      EndMarkerLater(t, a, b, inFake, i, k);
      FilterOverPlain(t, a, inFake);
      CutEndMarkerExactly(t, a[1..], b, inFake, i - 1, k);
      PlainInFront(t, a, b, inFake);
    }
  }

  lemma FilterOverPlain(t: MarkerTables, a: string, inFake: bool)
    requires a != "" && Leading(a, t.Sought(inFake)).None?
    ensures Filter(t, a, inFake).1 == Filter(t, a[1..], inFake).1
  {
  }

  lemma EndMarkerAtStart(t: MarkerTables, a: string, b: string, i: nat, k: nat)
    requires WellShaped(t) && i < |a| && k < |t.ends| && StraddlesAt(a, b, i, t.ends[k]) && NoHeads(a[1..])
    ensures i == 0
  {
    assert MarkerShape(t.ends[k], true) && (a[i..] + b)[0] == a[i];
    HeadOnlyAtStart(a, i);
  }

  lemma HeadOnlyAtStart(a: string, i: nat)
    requires i < |a| && NoHeads(a[1..])
    ensures i == 0 || !IsHead(a[i])
  {
    assert i == 0 || a[1..][i - 1] == a[i];
  }

  // ---------------------------------------------------------------- exactly which cuts matter

  /** An end marker stands across the cut and no start marker follows it at once. */
  ghost predicate EndCutShows(t: MarkerTables, a: string, b: string) {
    exists i, k :: 0 <= i < |a| && 0 <= k < |t.ends| && EndCutShowsAt(t, a, b, i, k)
  }

  predicate EndCutShowsAt(t: MarkerTables, a: string, b: string, i: nat, k: nat)
    requires i < |a| && k < |t.ends|
  {
    StraddlesAt(a, b, i, t.ends[k]) && Leading(BehindCut(t, a, b, i, k), t.starts).None?
  }

  /**
   A cut changes the result exactly if it goes through a start marker outside a wrapper, or through an end
   marker inside one that no start marker follows at once.
   */
  lemma CutMattersExactly(t: MarkerTables, a: string, b: string, inFake: bool)
    requires WellShaped(t)
    ensures Filter(t, a + b, inFake) != FilterBoth(t, a, b, inFake) <==>
      if Filter(t, a, inFake).1 then EndCutShows(t, a, b) else Straddles(t.starts, a, b)
  {
    if !Straddles(t.Sought(Filter(t, a, inFake).1), a, b) {
      CutDoesNotMatter(t, a, b, inFake);
    } else if !Filter(t, a, inFake).1 {
      CutStartMarkerShows(t, a, b, inFake);
    } else {
      forall i, k | 0 <= i < |a| && 0 <= k < |t.ends| && StraddlesAt(a, b, i, t.ends[k])
        ensures Filter(t, a + b, inFake) == FilterBoth(t, a, b, inFake) <==> !EndCutShowsAt(t, a, b, i, k)
      {
        CutEndMarkerExactly(t, a, b, inFake, i, k);
      }
    }
  }
}
