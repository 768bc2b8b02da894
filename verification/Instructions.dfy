/**
 Collecting project instructions. The loops over directories and file names, which stop and resume per
 directory, collect exactly what one pass over all distinct, readable, non-blank files would: each cut to
 what is left of one shared budget.
 */
module Instructions {
  import opened Characters
  import opened Options

  const MAX_PER_FILE: nat := 4000
  const MAX_TOTAL: nat := 12000
  const MARKER: string := "\n\n[truncated]"

  datatype Canonical = Canonical(path: string)

  /** A place where instructions may stand: its canonical path, and its text if it can be read. */
  datatype File = File(canonical: Canonical, text: Option<string>)

  /** A collected file: what was kept of its text, and whether the marker follows. */
  datatype Part = Part(canonical: Canonical, kept: string, truncated: bool)

  function Content(p: Part): string {
    if p.truncated then p.kept + MARKER else p.kept
  }

  /** `str::trim`. */
  function Trim(s: string): (r: string)
    ensures r != "" ==> !IsSpace(r[0]) && !IsSpace(r[|r| - 1])
    ensures r == "" <==> forall c <- s :: IsSpace(c)
    decreases |s|
  {
    if s == "" then ""
    else if IsSpace(s[0]) then assert s == [s[0]] + s[1..]; Trim(s[1..])
    else if IsSpace(s[|s| - 1]) then Trim(s[..|s| - 1])
    else s
  }

  predicate AllSpace(s: string) {
    forall i :: 0 <= i < |s| ==> IsSpace(s[i])
  }

  /** Trimming takes nothing but white space, and only from the ends. */
  lemma {:induction false} TrimTakesOnlySpace(s: string) returns (before: string, behind: string)
    ensures s == before + Trim(s) + behind && AllSpace(before) && AllSpace(behind)
    decreases |s|
  {
    if s == "" {
      return "", "";
    } else if IsSpace(s[0]) {
      before, behind := TrimTakesOnlySpace(s[1..]);
      SpaceInFront(s, before, Trim(s[1..]), behind);
      before := [s[0]] + before;
    } else if IsSpace(s[|s| - 1]) {
      before, behind := TrimTakesOnlySpace(s[..|s| - 1]);
      SpaceBehind(s, before, Trim(s[..|s| - 1]), behind);
      behind := behind + [s[|s| - 1]];
    } else {
      return "", "";
    }
  }

  lemma SpaceInFront(s: string, a: string, t: string, b: string)
    requires s != "" && IsSpace(s[0]) && s[1..] == a + t + b && AllSpace(a)
    ensures s == [s[0]] + a + t + b && AllSpace([s[0]] + a)
  {
    assert s == [s[0]] + s[1..];
  }

  lemma SpaceBehind(s: string, a: string, t: string, b: string)
    requires s != "" && IsSpace(s[|s| - 1]) && s[..|s| - 1] == a + t + b && AllSpace(b)
    ensures s == a + t + (b + [s[|s| - 1]]) && AllSpace(b + [s[|s| - 1]])
  {
    assert s == s[..|s| - 1] + [s[|s| - 1]];
  }

  /** Length of a character in UTF-8. */
  function CharBytes(c: char): (n: nat)
    ensures 1 <= n <= 4
  {
    if c as int < 0x80 then 1 else if c as int < 0x800 then 2 else if c as int < 0x1_0000 then 3 else 4
  }

  /** `str::len`: the length in bytes. */
  function Bytes(s: string): nat {
    if s == "" then 0 else CharBytes(s[0]) + Bytes(s[1..])
  }

  lemma {:induction false} BytesAtLeastChars(s: string)
    ensures Bytes(s) >= |s|
  {
    if s == "" {
    } else {
      BytesAtLeastChars(s[1..]);
    }
  }

  // ---------------------------------------------------------------- one pass over all files

  /** A file that is to be collected: not seen before, readable, not blank. */
  datatype Candidate = Candidate(canonical: Canonical, trimmed: string)

  function Paths(files: seq<File>): (r: set<Canonical>)
    ensures forall f <- files :: f.canonical in r
  {
    if files == [] then {} else {files[0].canonical} + Paths(files[1..])
  }

  function CandidateOf(f: File): seq<Candidate> {
    if f.text.Some? && Trim(f.text.value) != "" then [Candidate(f.canonical, Trim(f.text.value))] else []
  }

  /** The files to collect: the first one of every canonical path, unless it is unreadable or blank. */
  function Candidates(files: seq<File>, seen: set<Canonical>): seq<Candidate> {
    if files == [] then []
    else
      (if files[0].canonical in seen then [] else CandidateOf(files[0]))
      + Candidates(files[1..], seen + {files[0].canonical})
  }

  function Min(a: nat, b: nat): nat {
    if a <= b then a else b
  }

  /** A candidate cut to what the file limit and the rest of the budget allow. */
  function Cut(c: Candidate, remaining: nat): Part {
    var limit := Min(MAX_PER_FILE, remaining);
    if |c.trimmed| > limit then Part(c.canonical, c.trimmed[..limit], true)
    else Part(c.canonical, c.trimmed, false)
  }

  function Spend(remaining: nat, p: Part): nat {
    if Bytes(Content(p)) <= remaining then remaining - Bytes(Content(p)) else 0
  }

  /** The candidates in turn, each cut to what is left, until nothing is left. */
  function Fill(cs: seq<Candidate>, remaining: nat): seq<Part> {
    if cs == [] || remaining == 0 then []
    else [Cut(cs[0], remaining)] + Fill(cs[1..], Spend(remaining, Cut(cs[0], remaining)))
  }

  function Left(cs: seq<Candidate>, remaining: nat): nat {
    if cs == [] || remaining == 0 then remaining
    else Left(cs[1..], Spend(remaining, Cut(cs[0], remaining)))
  }

  lemma {:induction false} CandidatesConcat(a: seq<File>, b: seq<File>, seen: set<Canonical>)
    ensures Candidates(a + b, seen) == Candidates(a, seen) + Candidates(b, seen + Paths(a))
  {
    if a == [] {
      assert a + b == b && seen + Paths(a) == seen;
    } else {
      assert (a + b)[1..] == a[1..] + b;
      CandidatesConcat(a[1..], b, seen + {a[0].canonical});
      assert seen + {a[0].canonical} + Paths(a[1..]) == seen + Paths(a);
    }
  }

  lemma {:induction false} PathsConcat(a: seq<File>, b: seq<File>)
    ensures Paths(a + b) == Paths(a) + Paths(b)
  {
    if a == [] {
      assert a + b == b;
    } else {
      assert (a + b)[1..] == a[1..] + b;
      PathsConcat(a[1..], b);
    }
  }

  lemma {:induction false} FillConcat(a: seq<Candidate>, b: seq<Candidate>, r: nat)
    ensures Fill(a + b, r) == Fill(a, r) + Fill(b, Left(a, r))
    ensures Left(a + b, r) == Left(b, Left(a, r))
  {
    if a == [] {
      assert a + b == b;
    } else if r > 0 {
      assert (a + b)[0] == a[0] && (a + b)[1..] == a[1..] + b;
      FillConcat(a[1..], b, Spend(r, Cut(a[0], r)));
    }
  }

  // ---------------------------------------------------------------- the loops

  /** What a directory adds, whatever the directories before it have seen and spent. */
  ghost predicate Collects(files: seq<File>, seen: set<Canonical>, remaining: nat,
                           parts: seq<Part>, left: nat) {
    parts == Fill(Candidates(files, seen), remaining) && left == Left(Candidates(files, seen), remaining)
  }

  /** Files behind a point where nothing is left add nothing. */
  lemma SpentStaysSpent(a: seq<File>, b: seq<File>, seen: set<Canonical>, r: nat, parts: seq<Part>)
    requires Collects(a, seen, r, parts, 0)
    ensures Collects(a + b, seen, r, parts, 0)
  {
    CandidatesConcat(a, b, seen);
    FillConcat(Candidates(a, seen), Candidates(b, seen + Paths(a)), r);
  }

  /** One file more. */
  lemma CollectsOneMore(a: seq<File>, f: File, seen: set<Canonical>, r: nat, parts: seq<Part>, left: nat)
    requires Collects(a, seen, r, parts, left)
    ensures var cs := if f.canonical in seen + Paths(a) then [] else CandidateOf(f);
      Collects(a + [f], seen, r, parts + Fill(cs, left), Left(cs, left))
  {
    CandidatesConcat(a, [f], seen);
    assert [f][1..] == [];
    FillConcat(Candidates(a, seen), Candidates([f], seen + Paths(a)), r);
  }

  lemma FillOne(c: Candidate, r: nat)
    requires r > 0
    ensures Fill([c], r) == [Cut(c, r)] && Left([c], r) == Spend(r, Cut(c, r))
  {
    assert [c][1..] == [];
  }

  lemma PathsOneMore(a: seq<File>, f: File)
    ensures Paths(a + [f]) == Paths(a) + {f.canonical}
  {
    PathsConcat(a, [f]);
    assert [f][1..] == [];
  }

  /** The part made of one readable, non-blank file. */
  method MakePart(canonical: Canonical, trimmed: string, remaining: nat) returns (p: Part, left: nat)
    ensures CutFrom(p, Candidate(canonical, trimmed)) && |p.kept| <= remaining
    ensures p.truncated ==> |p.kept| == Min(MAX_PER_FILE, remaining)
    ensures left + |p.kept| <= remaining && (left > 0 ==> left + Bytes(Content(p)) == remaining)
    ensures p == Cut(Candidate(canonical, trimmed), remaining) && left == Spend(remaining, p)
    ensures left == if Bytes(Content(p)) <= remaining then remaining - Bytes(Content(p)) else 0
  {
    PartCost(Candidate(canonical, trimmed), remaining);
    var limit := Min(MAX_PER_FILE, remaining);
    if |trimmed| > limit {
      p := Part(canonical, trimmed[..limit], true);
    } else {
      p := Part(canonical, trimmed, false);
    }
    var size := Bytes(Content(p));
    left := if size <= remaining then remaining - size else 0;
  }

  /** What one file that was not seen before adds, while budget is left. */
  method CollectFile(f: File, remaining: nat) returns (parts: seq<Part>, left: nat)
    requires remaining > 0
    ensures parts == Fill(CandidateOf(f), remaining) && left == Left(CandidateOf(f), remaining)
  {
    if f.text.Some? {
      var trimmed := Trim(f.text.value);
      if trimmed == "" {
        return [], remaining;
      }
      FillOne(Candidate(f.canonical, trimmed), remaining);
      var p, rest := MakePart(f.canonical, trimmed, remaining);
      return [p], rest;
    }
    return [], remaining;
  }

  /** `collect_instructions_in_dir`, over the files its names stand for. */
  method CollectInstructionsInDir(dir: seq<File>, seen: set<Canonical>, remaining: nat)
    returns (parts: seq<Part>, seenAfter: set<Canonical>, left: nat)
    ensures Collects(dir, seen, remaining, parts, left)
    ensures left > 0 ==> seenAfter == seen + Paths(dir)
  {
    parts, seenAfter, left := [], seen, remaining;
    for i := 0 to |dir|
      invariant Collects(dir[..i], seen, remaining, parts, left)
      invariant seenAfter == seen + Paths(dir[..i])
    {
      var f := dir[i];
      assert dir[..i + 1] == dir[..i] + [f];
      CollectsOneMore(dir[..i], f, seen, remaining, parts, left);
      PathsOneMore(dir[..i], f);
      if f.canonical in seenAfter {
        continue;
      }
      seenAfter := seenAfter + {f.canonical};
      if left == 0 {
        SpentStaysSpent(dir[..i], dir[i..], seen, remaining, parts);
        assert dir[..i] + dir[i..] == dir;
        break;
      }
      var more, rest := CollectFile(f, left);
      parts, left := parts + more, rest;
    }
    assert dir[..|dir|] == dir;
  }

  function Flatten(dirs: seq<seq<File>>): seq<File> {
    if dirs == [] then [] else Flatten(dirs[..|dirs| - 1]) + dirs[|dirs| - 1]
  }

  /** `load_project_instructions`, over the directories from the workspace upward. */
  method LoadProjectInstructions(dirs: seq<seq<File>>) returns (parts: seq<Part>)
    ensures parts == Fill(Candidates(Flatten(dirs), {}), MAX_TOTAL)
  {
    parts := [];
    var seen: set<Canonical> := {};
    var remaining := MAX_TOTAL;
    for i := 0 to |dirs|
      invariant Collects(Flatten(dirs[..i]), {}, MAX_TOTAL, parts, remaining)
      invariant remaining > 0 ==> seen == Paths(Flatten(dirs[..i]))
    {
      assert dirs[..i + 1][..i] == dirs[..i];
      ghost var before := Flatten(dirs[..i]);
      ghost var spent := remaining;
      ghost var collected := parts;
      var more, seenAfter, left := CollectInstructionsInDir(dirs[i], seen, remaining);
      if spent == 0 {
        SpentStaysSpent(before, dirs[i], {}, MAX_TOTAL, collected);
        assert more == [];
      } else {
        NextDirectory(before, dirs[i], collected, spent, more, left);
        PathsConcat(before, dirs[i]);
      }
      parts, seen, remaining := parts + more, seenAfter, left;
    }
    assert dirs[..|dirs|] == dirs;
  }

  lemma NextDirectory(before: seq<File>, dir: seq<File>, parts: seq<Part>, r: nat, more: seq<Part>, left: nat)
    requires Collects(before, {}, MAX_TOTAL, parts, r) && Collects(dir, Paths(before), r, more, left)
    ensures Collects(before + dir, {}, MAX_TOTAL, parts + more, left)
  {
    CandidatesConcat(before, dir, {});
    assert {} + Paths(before) == Paths(before);
    FillConcat(Candidates(before, {}), Candidates(dir, Paths(before)), MAX_TOTAL);
  }

  // ---------------------------------------------------------------- what is collected

  function KeptChars(parts: seq<Part>): nat {
    if parts == [] then 0 else |parts[0].kept| + KeptChars(parts[1..])
  }

  function Truncations(parts: seq<Part>): nat {
    if parts == [] then 0 else (if parts[0].truncated then 1 else 0) + Truncations(parts[1..])
  }

  lemma {:induction false} BytesConcat(a: string, b: string)
    ensures Bytes(a + b) == Bytes(a) + Bytes(b)
  {
    if a == "" {
      assert a + b == b;
    } else {
      assert (a + b)[1..] == a[1..] + b;
      BytesConcat(a[1..], b);
    }
  }

  /** A part costs at least its characters, and a truncated one the 13 bytes of the marker more. */
  lemma PartCost(c: Candidate, r: nat)
    ensures var p := Cut(c, r);
      && |p.kept| <= Min(MAX_PER_FILE, r)
      && Bytes(Content(p)) >= |p.kept|
      && (p.truncated ==> |p.kept| == Min(MAX_PER_FILE, r) && Bytes(Content(p)) >= |p.kept| + 13)
  {
    var p := Cut(c, r);
    BytesAtLeastChars(p.kept);
    BytesConcat(p.kept, MARKER);
    assert |MARKER| == 13;
    BytesAtLeastChars(MARKER);
  }

  /** Without the markers the parts never hold more characters than the budget. */
  lemma {:induction false} KeptWithinBudget(cs: seq<Candidate>, r: nat)
    ensures KeptChars(Fill(cs, r)) <= r
    decreases |cs|
  {
    if cs != [] && r > 0 {
      var p := Cut(cs[0], r);
      PartCost(cs[0], r);
      KeptWithinBudget(cs[1..], Spend(r, p));
      assert Fill(cs, r)[1..] == Fill(cs[1..], Spend(r, p));
    }
  }

  /** At most one part per 4013 begun characters of the budget is truncated. */
  lemma {:induction false} FewTruncations(cs: seq<Candidate>, r: nat)
    ensures Truncations(Fill(cs, r)) <= (r + 4012) / 4013
    decreases |cs|
  {
    if cs != [] && r > 0 {
      var p := Cut(cs[0], r);
      PartCost(cs[0], r);
      FewTruncations(cs[1..], Spend(r, p));
      assert Fill(cs, r)[1..] == Fill(cs[1..], Spend(r, p));
    }
  }

  /** What the parts cost: their bytes, markers included. */
  function PartBytes(parts: seq<Part>): nat {
    if parts == [] then 0 else Bytes(Content(parts[0])) + PartBytes(parts[1..])
  }

  /** What is left of a budget is the budget less the bytes of the parts made, down to zero. */
  lemma {:induction false} LeftIsWhatIsNotSpent(cs: seq<Candidate>, r: nat)
    ensures Left(cs, r) == if PartBytes(Fill(cs, r)) <= r then r - PartBytes(Fill(cs, r)) else 0
    decreases |cs|
  {
    if cs != [] && r > 0 {
      var p := Cut(cs[0], r);
      LeftIsWhatIsNotSpent(cs[1..], Spend(r, p));
      assert Fill(cs, r)[1..] == Fill(cs[1..], Spend(r, p));
      NoBytesOfNothing(cs[1..], r, p);
    }
  }

  /** A part that costs more than there is leaves nothing for others. */
  lemma NoBytesOfNothing(rest: seq<Candidate>, r: nat, p: Part)
    ensures Bytes(Content(p)) >= r ==> Fill(rest, Spend(r, p)) == [] && Left(rest, Spend(r, p)) == 0
  {
  }

  function CandidateBytes(cs: seq<Candidate>): nat {
    if cs == [] then 0 else Bytes(cs[0].trimmed) + CandidateBytes(cs[1..])
  }

  function Whole(cs: seq<Candidate>): seq<Part> {
    if cs == [] then [] else [Part(cs[0].canonical, cs[0].trimmed, false)] + Whole(cs[1..])
  }

  lemma FittingTextIsKeptWhole(c: Candidate, r: nat)
    requires 0 < |c.trimmed| <= 4000 && Bytes(c.trimmed) <= r
    ensures r > 0 && Cut(c, r) == Part(c.canonical, c.trimmed, false) && Spend(r, Cut(c, r)) == r - Bytes(c.trimmed)
  {
    BytesAtLeastChars(c.trimmed);
  }

  /** Texts of at most 4000 characters that fit into the budget together are all kept whole and unmarked. */
  lemma {:induction false} FittingTextsAreKeptWhole(cs: seq<Candidate>, r: nat)
    requires forall c <- cs :: 0 < |c.trimmed| <= 4000
    requires CandidateBytes(cs) <= r
    ensures Fill(cs, r) == Whole(cs) && Left(cs, r) == r - CandidateBytes(cs)
    decreases |cs|
  {
    if cs != [] {
      FittingTextIsKeptWhole(cs[0], r);
      assert forall c <- cs[1..] :: c in cs;
      FittingTextsAreKeptWhole(cs[1..], r - Bytes(cs[0].trimmed));
    }
  }

  /** A workspace whose instruction files are short and fit into 12,000 bytes is loaded whole. */
  lemma SmallWorkspaceIsLoadedWhole(dirs: seq<seq<File>>)
    requires forall c <- Candidates(Flatten(dirs), {}) :: |c.trimmed| <= 4000
    requires CandidateBytes(Candidates(Flatten(dirs), {})) <= 12000
    ensures Fill(Candidates(Flatten(dirs), {}), MAX_TOTAL) == Whole(Candidates(Flatten(dirs), {}))
  {
    CandidatesHaveText(Flatten(dirs), {});
    FittingTextsAreKeptWhole(Candidates(Flatten(dirs), {}), MAX_TOTAL);
  }

  lemma {:induction false} CandidatesHaveText(files: seq<File>, seen: set<Canonical>)
    ensures forall c <- Candidates(files, seen) :: c.trimmed != ""
  {
    if files != [] {
      CandidatesHaveText(files[1..], seen + {files[0].canonical});
    }
  }

  ghost predicate DistinctPaths(cs: seq<Candidate>) {
    forall i, j :: 0 <= i < j < |cs| ==> cs[i].canonical != cs[j].canonical
  }

  lemma {:induction false} CandidatesUnseen(files: seq<File>, seen: set<Canonical>)
    ensures forall c <- Candidates(files, seen) :: c.canonical !in seen
    ensures DistinctPaths(Candidates(files, seen))
  {
    if files == [] {
    } else {
      CandidatesUnseen(files[1..], seen + {files[0].canonical});
    }
  }

  /** The parts are, in order, cut from the first candidates, and from all of them while budget is left. */
  lemma {:induction false} PartsAreCutCandidates(cs: seq<Candidate>, r: nat)
    ensures |Fill(cs, r)| <= |cs| && (Left(cs, r) > 0 ==> |Fill(cs, r)| == |cs|)
    ensures forall k :: 0 <= k < |Fill(cs, r)| ==> CutFrom(Fill(cs, r)[k], cs[k])
    decreases |cs|
  {
    if cs != [] && r > 0 {
      PartsAreCutCandidates(cs[1..], Spend(r, Cut(cs[0], r)));
    }
  }

  /** A part keeps its file's trimmed text, or a beginning of it when it is marked as truncated. */
  ghost predicate CutFrom(p: Part, c: Candidate) {
    && p.canonical == c.canonical
    && p.kept <= c.trimmed
    && |p.kept| <= MAX_PER_FILE
    && (p.truncated <==> p.kept != c.trimmed)
  }

  /** For any directories: at most 12,000 characters kept, at most three files cut, no path twice. */
  lemma InstructionsStayInBudget(dirs: seq<seq<File>>)
    ensures var parts := Fill(Candidates(Flatten(dirs), {}), MAX_TOTAL);
      && KeptChars(parts) <= 12000
      && Truncations(parts) <= 3
      && forall i, j :: 0 <= i < j < |parts| ==> parts[i].canonical != parts[j].canonical
  {
    var cs := Candidates(Flatten(dirs), {});
    KeptWithinBudget(cs, MAX_TOTAL);
    FewTruncations(cs, MAX_TOTAL);
    CandidatesUnseen(Flatten(dirs), {});
    PartsAreCutCandidates(cs, MAX_TOTAL);
  }

  /** While budget is left, every readable file with text is collected under its canonical path. */
  lemma NothingMissingWhileBudgetLasts(files: seq<File>, i: nat)
    requires i < |files| && files[i].text.Some? && Trim(files[i].text.value) != ""
    requires files[i].canonical !in Paths(files[..i])
    requires Left(Candidates(files, {}), MAX_TOTAL) > 0
    ensures exists p <- Fill(Candidates(files, {}), MAX_TOTAL) ::
      CutFrom(p, Candidate(files[i].canonical, Trim(files[i].text.value)))
  {
    var cs := Candidates(files, {});
    PartsAreCutCandidates(cs, MAX_TOTAL);
    var c := Candidate(files[i].canonical, Trim(files[i].text.value));
    FirstOfPathIsCandidate(files, i);
    var k :| 0 <= k < |cs| && cs[k] == c;
    assert CutFrom(Fill(cs, MAX_TOTAL)[k], c);
  }

  lemma FirstOfPathIsCandidate(files: seq<File>, i: nat)
    requires i < |files| && files[i].text.Some? && Trim(files[i].text.value) != ""
    requires files[i].canonical !in Paths(files[..i])
    ensures Candidate(files[i].canonical, Trim(files[i].text.value)) in Candidates(files, {})
  {
    assert files == files[..i] + files[i..];
    CandidatesConcat(files[..i], files[i..], {});
    var rest := Candidates(files[i..], {} + Paths(files[..i]));
    assert rest[0] == Candidate(files[i].canonical, Trim(files[i].text.value));
  }
}
