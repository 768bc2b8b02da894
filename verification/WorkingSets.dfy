/**
 The working set of recently used files. Moving a path to the end and evicting from the front keeps,
 for every access history, exactly the 20 most recently accessed distinct paths, latest first.
 */
module WorkingSets {

  const MAX_FILES: nat := 20

  // ---------------------------------------------------------------- most recent paths of a history

  /** One past the place of the last access of `p`; 0 when it was never accessed. */
  function LastAccess<P(==)>(h: seq<P>, p: P): (i: nat)
    ensures i <= |h| && (i == 0 <==> p !in h) && (i > 0 ==> h[i - 1] == p && p !in h[i..])
  {
    if h == [] then 0
    else if h[|h| - 1] == p then |h|
    else LastAccess(h[..|h| - 1], p)
  }

  ghost predicate LatestFirst<P>(h: seq<P>, r: seq<P>) {
    forall i, j :: 0 <= i < j < |r| ==> LastAccess(h, r[i]) > LastAccess(h, r[j])
  }

  /** A path is left out only when the list is full. */
  ghost predicate LeavesOutWhenFull<P(!new)>(h: seq<P>, n: nat, r: seq<P>) {
    forall p <- h :: p in r || |r| == n
  }

  /** A path left out was accessed before every path kept. */
  ghost predicate LeavesOutOlder<P(!new)>(h: seq<P>, r: seq<P>) {
    forall p, q :: p in h && p !in r && q in r ==> LastAccess(h, q) > LastAccess(h, p)
  }

  /** `r` lists the `n` most recently accessed distinct paths of `h`, or all if there are fewer, latest first. */
  ghost predicate MostRecent<P(!new)>(h: seq<P>, n: nat, r: seq<P>) {
    && |r| <= n
    && (forall p <- r :: p in h)
    && LatestFirst(h, r)
    && LeavesOutWhenFull(h, n, r)
    && LeavesOutOlder(h, r)
  }

  /** The description fixes the list. */
  lemma {:induction false} MostRecentIsUnique<P(!new)>(h: seq<P>, n: nat, r: seq<P>, t: seq<P>)
    requires MostRecent(h, n, r) && MostRecent(h, n, t)
    ensures r == t
  {
    SameUpTo(h, n, r, t, |r|);
    SameUpTo(h, n, t, r, |t|);
    assert r[..|r|] == r && t[..|t|] == t;
  }

  lemma {:induction false} SameUpTo<P(!new)>(h: seq<P>, n: nat, r: seq<P>, t: seq<P>, k: nat)
    requires MostRecent(h, n, r) && MostRecent(h, n, t) && k <= |r|
    ensures k <= |t| && r[..k] == t[..k]
  {
    if k == 0 {
    } else {
      SameUpTo(h, n, r, t, k - 1);
      SameNext(h, n, r, t, k - 1);
    }
  }

  /** Behind a common beginning, the next path of `r` is not later than the next of `t`. */
  lemma NotLater<P(!new)>(h: seq<P>, n: nat, r: seq<P>, t: seq<P>, k: nat)
    requires MostRecent(h, n, r) && MostRecent(h, n, t) && k < |r| && k <= |t| && r[..k] == t[..k]
    ensures k < |t| && LastAccess(h, t[k]) >= LastAccess(h, r[k])
  {
    if r[k] in t {
      NotLaterWhenKept(h, r, t, k);
    } else {
      NotLaterWhenLeftOut(h, n, t, k, r[k]);
    }
  }

  lemma NotLaterWhenKept<P(!new)>(h: seq<P>, r: seq<P>, t: seq<P>, k: nat)
    requires LatestFirst(h, r) && LatestFirst(h, t) && k < |r| && k <= |t| && r[..k] == t[..k] && r[k] in t
    ensures k < |t| && LastAccess(h, t[k]) >= LastAccess(h, r[k])
  {
    var m :| 0 <= m < |t| && t[m] == r[k];
    FirstPlacesAgree(r, t, k, m);
    NotAmongFirst(h, r, k, m);
    NotEarlier(h, t, k, m);
  }

  lemma NotEarlier<P(!new)>(h: seq<P>, t: seq<P>, k: nat, m: nat)
    requires LatestFirst(h, t) && k <= m < |t|
    ensures LastAccess(h, t[k]) >= LastAccess(h, t[m])
  {
  }

  lemma NotLaterWhenLeftOut<P(!new)>(h: seq<P>, n: nat, t: seq<P>, k: nat, p: P)
    requires LeavesOutWhenFull(h, n, t) && LeavesOutOlder(h, t) && k < n && p in h && p !in t
    ensures k < |t| && LastAccess(h, t[k]) >= LastAccess(h, p)
  {
    assert |t| == n;
    assert t[k] in t;
  }

  lemma FirstPlacesAgree<P(!new)>(r: seq<P>, t: seq<P>, k: nat, m: nat)
    requires k <= |r| && k <= |t| && r[..k] == t[..k]
    ensures m >= k || r[m] == t[m]
  {
    assert m >= k || r[m] == r[..k][m] == t[..k][m];
  }

  lemma NotAmongFirst<P(!new)>(h: seq<P>, r: seq<P>, k: nat, m: nat)
    requires LatestFirst(h, r) && k < |r|
    ensures m >= k || r[m] != r[k]
  {
    assert m >= k || LastAccess(h, r[m]) > LastAccess(h, r[k]);
  }

  lemma SameNext<P(!new)>(h: seq<P>, n: nat, r: seq<P>, t: seq<P>, k: nat)
    requires MostRecent(h, n, r) && MostRecent(h, n, t) && k < |r| && k <= |t| && r[..k] == t[..k]
    ensures k < |t| && r[..k + 1] == t[..k + 1]
  {
    NotLater(h, n, r, t, k);
    NotLater(h, n, t, r, k);
    SameLastAccess(h, r[k], t[k]);
    assert r[..k + 1] == r[..k] + [r[k]] && t[..k + 1] == t[..k] + [t[k]];
  }

  lemma SameLastAccess<P(!new)>(h: seq<P>, p: P, q: P)
    requires p in h && LastAccess(h, p) == LastAccess(h, q)
    ensures p == q
  {
  }

  /** The first `m` of the most recent `n` paths are the most recent `m`. */
  lemma TopOfMostRecent<P(!new)>(h: seq<P>, n: nat, r: seq<P>, m: nat)
    requires MostRecent(h, n, r) && m <= n
    ensures MostRecent(h, m, if m <= |r| then r[..m] else r)
  {
    if m < |r| {
      TopLeavesOutOlder(h, r, m);
      assert forall p <- r[..m] :: p in r;
    } else if m == |r| {
      assert r[..m] == r;
    }
  }

  lemma TopLeavesOutOlder<P(!new)>(h: seq<P>, r: seq<P>, m: nat)
    requires LatestFirst(h, r) && LeavesOutOlder(h, r) && m <= |r|
    ensures LeavesOutOlder(h, r[..m])
  {
    forall p, q | p in h && p !in r[..m] && q in r[..m]
      ensures LastAccess(h, q) > LastAccess(h, p)
    {
      assert q in r;
      if p in r {
        BehindIsOlder(h, r, m, p, q);
      }
    }
  }

  lemma BehindIsOlder<P(!new)>(h: seq<P>, r: seq<P>, m: nat, p: P, q: P)
    requires LatestFirst(h, r) && m <= |r| && p in r && p !in r[..m] && q in r[..m]
    ensures LastAccess(h, q) > LastAccess(h, p)
  {
    PlaceBehind(r, m, p);
    var j :| m <= j < |r| && r[j] == p;
    var i :| 0 <= i < m && r[..m][i] == q;
    assert LastAccess(h, r[i]) > LastAccess(h, r[j]);
  }

  lemma PlaceBehind<P(!new)>(r: seq<P>, m: nat, p: P)
    requires m <= |r| && p in r && p !in r[..m]
    ensures exists j :: m <= j < |r| && r[j] == p
  {
    var j :| 0 <= j < |r| && r[j] == p;
    InTake(r, m, j);
  }

  lemma InTake<P(!new)>(r: seq<P>, m: nat, j: nat)
    requires m <= |r| && j < |r|
    ensures m <= j || r[j] in r[..m]
  {
    assert m <= j || r[..m][j] == r[j];
  }

  // ---------------------------------------------------------------- one access

  function Without<P(==, !new)>(s: seq<P>, p: P): (r: seq<P>)
    ensures p !in r && |r| <= |s|
    ensures forall q :: q in r <==> q in s && q != p
  {
    if s == [] then []
    else if s[0] == p then Without(s[1..], p)
    else [s[0]] + Without(s[1..], p)
  }

  function Reversed<P>(s: seq<P>): (r: seq<P>)
    ensures |r| == |s| && forall k :: 0 <= k < |s| ==> r[k] == s[|s| - 1 - k]
  {
    seq(|s|, k requires 0 <= k < |s| => s[|s| - 1 - k])
  }

  function Newest<P>(s: seq<P>): seq<P> {
    if |s| > MAX_FILES then s[|s| - MAX_FILES..] else s
  }

  /** The list after an access of `p`. */
  function Touched<P(==, !new)>(files: seq<P>, p: P): seq<P> {
    Newest(Without(files, p) + [p])
  }

  lemma {:induction false} WithoutAppend<P(!new)>(s: seq<P>, q: P, p: P)
    ensures Without(s + [q], p) == Without(s, p) + (if q == p then [] else [q])
  {
    if s == [] {
      assert s + [q] == [q];
      assert [q][1..] == [];
    } else {
      assert (s + [q])[1..] == s[1..] + [q];
      WithoutAppend(s[1..], q, p);
    }
  }

  lemma {:induction false} ReversedWithout<P(!new)>(s: seq<P>, p: P)
    ensures Reversed(Without(s, p)) == Without(Reversed(s), p)
  {
    if s == [] {
    } else {
      var rest := s[1..];
      ReversedWithout(rest, p);
      assert Reversed(s) == Reversed(rest) + [s[0]];
      WithoutAppend(Reversed(rest), s[0], p);
      assert s[0] != p ==> Reversed([s[0]] + Without(rest, p)) == Reversed(Without(rest, p)) + [s[0]];
    }
  }

  /** Read latest first, an access puts the path in front, drops its older place and cuts the list at 20. */
  lemma TouchedReversed<P(!new)>(files: seq<P>, p: P)
    ensures var r := [p] + Without(Reversed(files), p);
      Reversed(Touched(files, p)) == if |r| > MAX_FILES then r[..MAX_FILES] else r
  {
    ReversedWithout(files, p);
    var w := Without(files, p);
    assert Reversed(w + [p]) == [p] + Reversed(w);
  }

  lemma AccessMovesOne<P(!new)>(h: seq<P>, p: P, q: P)
    ensures LastAccess(h + [p], q) == if q == p then |h| + 1 else LastAccess(h, q)
  {
    assert (h + [p])[..|h|] == h;
  }

  /** Dropping one path keeps the others' order: every later place holds a place of the list before. */
  lemma {:induction false} WithoutKeepsOrder<P(!new)>(h: seq<P>, r: seq<P>, p: P)
    requires LatestFirst(h, r)
    ensures LatestFirst(h, Without(r, p))
  {
    if r == [] {
    } else {
      assert LatestFirst(h, r[1..]) by {
        forall i, j | 0 <= i < j < |r[1..]|
          ensures LastAccess(h, r[1..][i]) > LastAccess(h, r[1..][j])
        {
          assert r[1..][i] == r[i + 1] && r[1..][j] == r[j + 1];
        }
      }
      WithoutKeepsOrder(h, r[1..], p);
      forall q | q in r[1..]
        ensures LastAccess(h, r[0]) > LastAccess(h, q)
      {
        var j :| 0 <= j < |r[1..]| && r[1..][j] == q;
        assert r[j + 1] == q;
      }
    }
  }

  /** When a path is left out of a full list, dropping another from it leaves all but one place filled. */
  lemma {:induction false} WithoutLength<P(!new)>(h: seq<P>, r: seq<P>, p: P)
    requires LatestFirst(h, r)
    ensures |Without(r, p)| >= |r| - 1
    ensures p !in r ==> Without(r, p) == r
  {
    if r == [] {
    } else {
      assert LatestFirst(h, r[1..]) by {
        forall i, j | 0 <= i < j < |r[1..]|
          ensures LastAccess(h, r[1..][i]) > LastAccess(h, r[1..][j])
        {
          assert r[1..][i] == r[i + 1] && r[1..][j] == r[j + 1];
        }
      }
      WithoutLength(h, r[1..], p);
      if r[0] == p {
        assert p !in r[1..] by {
          forall j | 0 <= j < |r[1..]|
            ensures r[1..][j] != p
          {
            assert r[1..][j] == r[j + 1];
          }
        }
      }
    }
  }

  /** The access of one path takes the most recent paths of the history to those of the longer history. */
  lemma AccessKeepsMostRecent<P(!new)>(h: seq<P>, n: nat, r: seq<P>, p: P)
    requires MostRecent(h, n, r) && n > 0
    ensures var t := [p] + Without(r, p); MostRecent(h + [p], n, if |t| > n then t[..n] else t)
  {
    var t := [p] + Without(r, p);
    WithoutKeepsOrder(h, r, p);
    WithoutLength(h, r, p);
    AccessInFront(h, Without(r, p), p);
    LeftOutIsOlder(h, r, p);
    if |t| > n {
      CutLast(h + [p], n, t);
    } else {
      FullAfterAccess(h, n, r, p);
    }
  }

  lemma FullAfterAccess<P(!new)>(h: seq<P>, n: nat, r: seq<P>, p: P)
    requires MostRecent(h, n, r) && |Without(r, p)| < n && |Without(r, p)| >= |r| - 1
    ensures LeavesOutWhenFull(h + [p], n, [p] + Without(r, p))
  {
    var t := [p] + Without(r, p);
    forall q <- h + [p]
      ensures q in t || |t| == n
    {
      assert t[0] == p;
      assert forall y <- Without(r, p) :: y in t;
    }
  }

  lemma AccessInFront<P(!new)>(h: seq<P>, w: seq<P>, p: P)
    requires LatestFirst(h, w) && p !in w && forall q <- w :: q in h
    ensures LatestFirst(h + [p], [p] + w) && forall q <- [p] + w :: q in h + [p]
  {
    var t := [p] + w;
    forall i, j | 0 <= i < j < |t|
      ensures LastAccess(h + [p], t[i]) > LastAccess(h + [p], t[j])
    {
      AccessMovesOne(h, p, t[i]);
      AccessMovesOne(h, p, t[j]);
    }
  }

  /** What the longer list leaves out is older than all it keeps. */
  lemma LeftOutIsOlder<P(!new)>(h: seq<P>, r: seq<P>, p: P)
    requires LeavesOutOlder(h, r)
    ensures LeavesOutOlder(h + [p], [p] + Without(r, p))
  {
    var t := [p] + Without(r, p);
    forall x, q | x in h + [p] && x !in t && q in t
      ensures LastAccess(h + [p], q) > LastAccess(h + [p], x)
    {
      assert t[0] == p;
      assert forall y <- Without(r, p) :: y in t;
      AccessMovesOne(h, p, x);
      AccessMovesOne(h, p, q);
      assert x in h && x !in r;
    }
  }

  /** Cutting the oldest path off a list that is one too long. */
  lemma CutLast<P(!new)>(g: seq<P>, n: nat, t: seq<P>)
    requires |t| == n + 1 && LatestFirst(g, t) && LeavesOutOlder(g, t) && forall p <- t :: p in g
    ensures MostRecent(g, n, t[..n])
  {
    forall p, q | p in g && p !in t[..n] && q in t[..n]
      ensures LastAccess(g, q) > LastAccess(g, p)
    {
      if p in t {
        BehindIsOlder(g, t, n, p, q);
      }
    }
  }

  // ---------------------------------------------------------------- the class

  /** A field of a tool's input. */
  datatype Field<P> = Absent | NotText | Text(path: P)

  /** A tool call as far as the working set looks at it. */
  datatype ToolCall<P> =
    | FileTool(filePath: Field<P>, path: Field<P>)
    | ApplyPatch(targets: seq<P>, path: Field<P>)
    | FileSearch(path: Field<P>)
    | Bash(paths: seq<P>)
    | OtherTool

  function FieldPaths<P>(f: Field<P>): seq<P> {
    if f.Text? then [f.path] else []
  }

  /** The paths a tool call accesses, in order. */
  function Accesses<P>(call: ToolCall<P>): seq<P> {
    match call
    case FileTool(filePath, path) => FieldPaths(if filePath.Absent? then path else filePath)
    case ApplyPatch(targets, path) => targets + FieldPaths(path)
    case FileSearch(path) => FieldPaths(path)
    case Bash(paths) => paths
    case OtherTool => []
  }

  /** Which paths a tool call names: the second field of a file tool counts only if the first is missing. */
  lemma NamedPathsAreAccessed<P(!new)>(call: ToolCall<P>, p: P)
    ensures p in Accesses(call) <==>
      || (call.FileTool? && (call.filePath == Text(p) || (call.filePath == Absent && call.path == Text(p))))
      || (call.ApplyPatch? && (p in call.targets || call.path == Text(p)))
      || (call.FileSearch? && call.path == Text(p))
      || (call.Bash? && p in call.paths)
  {
  }

  /** The path that a tool call names last, if it names one. */
  function LastNamed<P(==)>(call: ToolCall<P>): Field<P> {
    match call
    case FileTool(filePath, path) => if filePath == Absent then path else filePath
    case ApplyPatch(targets, path) => if path.Text? || targets == [] then path else Text(targets[|targets| - 1])
    case FileSearch(path) => path
    case Bash(paths) => if paths == [] then Absent else Text(paths[|paths| - 1])
    case OtherTool => Absent
  }

  /** What a tool call names last is then the first of the active files. */
  lemma LastNamedIsInFront<P(!new)>(h: seq<P>, call: ToolCall<P>, n: nat, r: seq<P>)
    requires n > 0 && LastNamed(call).Text? && MostRecent(h + Accesses(call), n, r)
    ensures r != [] && r[0] == LastNamed(call).path
  {
    var g := h + Accesses(call);
    assert Accesses(call) != [] && Accesses(call)[|Accesses(call)| - 1] == LastNamed(call).path;
    LatestIsInFront(g, n, r);
  }

  lemma LatestIsInFront<P(!new)>(h: seq<P>, n: nat, r: seq<P>)
    requires n > 0 && h != [] && MostRecent(h, n, r)
    ensures r != [] && r[0] == h[|h| - 1]
  {
    var p := h[|h| - 1];
    assert LastAccess(h, p) == |h|;
    assert p in h;
    assert p in r || |r| == n;
    assert r[0] in r && LastAccess(h, r[0]) <= |h|;
    assert p in r;
  }

  class WorkingSet<P(==, !new)> {
    // least recent first
    var files: seq<P>
    ghost var history: seq<P>

    ghost predicate Valid()
      reads this
    {
      MostRecent(history, MAX_FILES, Reversed(files))
    }

    constructor ()
      ensures Valid() && history == [] && files == []
    {
      files, history := [], [];
    }

    method Touch(path: P)
      requires Valid()
      modifies this
      ensures Valid() && history == old(history) + [path]
      ensures files == Touched(old(files), path)
    {
      TouchedReversed(files, path);
      AccessKeepsMostRecent(history, MAX_FILES, Reversed(files), path);
      Retain(path);
      files := files + [path];
      Evict();
      history := history + [path];
    }

    /** `files.retain(|p| p != path)`. */
    method Retain(path: P)
      modifies this`files
      ensures files == Without(old(files), path)
    {
      var kept := [];
      for i := 0 to |files|
        invariant files == old(files)
        invariant kept == Without(files[..i], path)
      {
        assert files[..i + 1] == files[..i] + [files[i]];
        WithoutAppend(files[..i], files[i], path);
        if files[i] != path {
          kept := kept + [files[i]];
        }
      }
      assert files[..|files|] == files;
      files := kept;
    }

    /** The loop that removes from the front while there are too many. */
    method Evict()
      modifies this`files
      ensures files == Newest(old(files))
    {
      while |files| > MAX_FILES
        invariant Newest(files) == Newest(old(files))
        decreases |files|
      {
        files := files[1..];
      }
    }

    method ObserveTool(call: ToolCall<P>)
      requires Valid()
      modifies this
      ensures Valid() && history == old(history) + Accesses(call)
    {
      match call
      case FileTool(filePath, path) =>
        var used := if filePath.Absent? then path else filePath;
        TouchField(used);
      case ApplyPatch(targets, path) =>
        TouchAll(targets);
        TouchField(path);
      case FileSearch(path) =>
        TouchField(path);
      case Bash(paths) =>
        TouchAll(paths);
      case OtherTool =>
    }

    method TouchField(f: Field<P>)
      requires Valid()
      modifies this
      ensures Valid() && history == old(history) + FieldPaths(f)
    {
      if f.Text? {
        Touch(f.path);
      }
    }

    method TouchAll(paths: seq<P>)
      requires Valid()
      modifies this
      ensures Valid() && history == old(history) + paths
    {
      for i := 0 to |paths|
        invariant Valid() && history == old(history) + paths[..i]
      {
        Touch(paths[i]);
        assert paths[..i + 1] == paths[..i] + [paths[i]];
      }
      assert paths[..|paths|] == paths;
    }

    /** The active files are the 20 most recently accessed ones, and no other list is. */
    method ActiveFiles() returns (r: seq<P>)
      requires Valid()
      ensures MostRecent(history, 20, r)
      ensures forall t :: MostRecent(history, 20, t) ==> t == r
    {
      r := Reversed(files);
      forall t | MostRecent(history, MAX_FILES, t)
        ensures t == r
      {
        MostRecentIsUnique(history, MAX_FILES, t, r);
      }
    }

    method TopPaths(n: nat) returns (r: seq<P>)
      requires Valid()
      ensures MostRecent(history, if n <= 20 then n else 20, r)
    {
      r := Reversed(files);
      TopOfMostRecent(history, MAX_FILES, r, if n <= MAX_FILES then n else MAX_FILES);
      if n <= |r| {
        r := r[..n];
      }
    }
  }
}
