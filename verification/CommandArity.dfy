/**
 Canonical command prefixes, over any table of known commands: the longest table entry among the first
 three words that are no flags, or else the first such word, in lower case.
 */
module CommandArity {
  import opened Characters

  // ---------------------------------------------------------------- words

  predicate IsWord(w: string) {
    w != "" && forall c <- w :: !IsSpace(c)
  }

  predicate IsFlag(w: string) {
    w != "" && w[0] == '-'
  }

  /** Length of the run of characters that are no white space, at the start of `s`. */
  function WordEnd(s: string): (n: nat)
    ensures n <= |s| && (n == |s| || IsSpace(s[n])) && forall k :: 0 <= k < n ==> !IsSpace(s[k])
  {
    if s == "" || IsSpace(s[0]) then 0 else 1 + WordEnd(s[1..])
  }

  /** `split_whitespace`. */
  function Words(s: string): (r: seq<string>)
    ensures forall w <- r :: IsWord(w)
    decreases |s|
  {
    if s == "" then []
    else if IsSpace(s[0]) then Words(s[1..])
    else [s[..WordEnd(s)]] + Words(s[WordEnd(s)..])
  }

  /** The words that are no flags. */
  function Positional(words: seq<string>): (r: seq<string>)
    ensures forall w <- r :: w in words && !IsFlag(w)
  {
    if words == [] then []
    else (if IsFlag(words[0]) then [] else [words[0]]) + Positional(words[1..])
  }

  // ---------------------------------------------------------------- lower case

  /** A word stays a word, and a flag exactly if it was one. */
  ghost predicate KeepsWord(f: string -> string, w: string) {
    IsWord(w) ==> IsWord(f(w)) && (IsFlag(f(w)) <==> IsFlag(w))
  }

  /** Words are treated apart from each other. */
  ghost predicate KeepsBlank(f: string -> string, a: string, b: string) {
    f(a + " " + b) == f(a) + " " + f(b)
  }

  ghost predicate Idempotent(f: string -> string, s: string) {
    f(f(s)) == f(s)
  }

  /**
   What the results need of `str::to_lowercase`. Letters outside ASCII may change the length of a word, and what
   becomes of a letter may depend on the letters beside it.
   */
  ghost predicate IsLowering(f: string -> string) {
    && f("") == ""
    && (forall w :: KeepsWord(f, w))
    && (forall a, b :: KeepsBlank(f, a, b))
    && (forall s :: Idempotent(f, s))
  }

  type Lowering = f: string -> string | IsLowering(f) ghost witness Ascii()

  function LowerChar(c: char): (r: char)
    ensures IsSpace(r) <==> IsSpace(c)
    ensures r == '-' <==> c == '-'
    ensures r as int == if 'A' <= c <= 'Z' then c as int + ('a' as int - 'A' as int) else c as int
  {
    if 'A' <= c <= 'Z' then (c as int + 32) as char else c
  }

  function AsciiLower(s: string): (r: string)
    ensures |r| == |s| && forall i :: 0 <= i < |s| ==> r[i] == LowerChar(s[i])
  {
    seq(|s|, i requires 0 <= i < |s| => LowerChar(s[i]))
  }

  /** Lower case of ASCII letters is one instance. */
  lemma AsciiIsLowering()
    ensures IsLowering(AsciiLower)
  {
    assert AsciiLower("") == "";
    forall w
      ensures KeepsWord(AsciiLower, w)
    {
    }
    forall a, b
      ensures KeepsBlank(AsciiLower, a, b)
    {
    }
    forall s
      ensures Idempotent(AsciiLower, s)
    {
      assert AsciiLower(AsciiLower(s)) == AsciiLower(s);
    }
  }

  ghost function Ascii(): (f: string -> string)
    ensures IsLowering(f)
  {
    AsciiIsLowering();
    AsciiLower
  }

  // ---------------------------------------------------------------- the prefix

  function Joined(words: seq<string>): string {
    if words == [] then ""
    else if |words| == 1 then words[0]
    else words[0] + " " + Joined(words[1..])
  }

  /** The key looked up for the first `n` positional words. */
  function Key(lower: Lowering, words: seq<string>, n: nat): string
    requires n <= |words|
  {
    lower(Joined(words[..n]))
  }

  /** The longest of the first `n` keys that is in the table; 0 when none is. */
  function LongestKnown(lower: Lowering, table: set<string>, words: seq<string>, n: nat): (k: nat)
    requires n <= |words|
    ensures k <= n && (k > 0 ==> Key(lower, words, k) in table)
    ensures forall j :: k < j <= n ==> Key(lower, words, j) !in table
  {
    if n == 0 then 0
    else if Key(lower, words, n) in table then n
    else LongestKnown(lower, table, words, n - 1)
  }

  function Prefix(lower: Lowering, table: set<string>, words: seq<string>): string {
    var most := if |words| <= 3 then |words| else 3;
    var k := LongestKnown(lower, table, words, most);
    if k > 0 then Key(lower, words, k) else if words != [] then lower(words[0]) else ""
  }

  /** `canonical_prefix`. */
  function CanonicalPrefix(lower: Lowering, table: set<string>, command: string): string {
    Prefix(lower, table, Positional(Words(command)))
  }

  // ---------------------------------------------------------------- what the prefix is

  /** A table entry the command starts with: its first `k` positional words, at most three. */
  ghost predicate Matches(lower: Lowering, table: set<string>, words: seq<string>, k: nat) {
    1 <= k <= 3 && k <= |words| && Key(lower, words, k) in table
  }

  ghost predicate LongestMatch(lower: Lowering, table: set<string>, words: seq<string>, k: nat) {
    Matches(lower, table, words, k) && forall j: nat :: Matches(lower, table, words, j) ==> j <= k
  }

  lemma PrefixOfWords(lower: Lowering, table: set<string>, words: seq<string>, k: nat)
    ensures LongestMatch(lower, table, words, k) ==> Prefix(lower, table, words) == Key(lower, words, k)
    ensures (words != [] && forall j: nat :: !Matches(lower, table, words, j)) ==> Prefix(lower, table, words) == lower(words[0])
  {
    var m := LongestKnown(lower, table, words, if |words| <= 3 then |words| else 3);
    assert m > 0 ==> Matches(lower, table, words, m);
    if LongestMatch(lower, table, words, k) {
      assert m >= k;
    }
  }

  /** The longest entry the command starts with, else its first word in lower case; nothing for flags only. */
  lemma PrefixIsLongestEntry(lower: Lowering, table: set<string>, command: string, k: nat)
    ensures var words := Positional(Words(command)); var p := CanonicalPrefix(lower, table, command);
      && (LongestMatch(lower, table, words, k) ==> p == Key(lower, words, k))
      && ((words != [] && forall j: nat :: !Matches(lower, table, words, j)) ==> p == lower(words[0]))
      && (words == [] <==> p == "")
  {
    PrefixOfWords(lower, table, Positional(Words(command)), k);
    PrefixNonEmpty(lower, table, Positional(Words(command)));
  }

  lemma PrefixNonEmpty(lower: Lowering, table: set<string>, words: seq<string>)
    requires forall w <- words :: IsWord(w)
    ensures words == [] <==> Prefix(lower, table, words) == ""
  {
    var k := LongestKnown(lower, table, words, if |words| <= 3 then |words| else 3);
    if words != [] {
      assert IsWord(words[0]) && KeepsWord(lower, words[0]);
      if k > 0 {
        LowerJoined(lower, words[..k]);
      }
    }
  }

  // ---------------------------------------------------------------- flags make no difference

  lemma {:induction false} WordEndAppend(a: string, b: string)
    requires b == "" || IsSpace(b[0]) || WordEnd(a) < |a|
    ensures WordEnd(a + b) == WordEnd(a)
  {
    if a == "" {
      assert a + b == b;
    } else if !IsSpace(a[0]) {
      assert (a + b)[1..] == a[1..] + b;
      WordEndAppend(a[1..], b);
    }
  }

  lemma FirstWordAcrossSpace(a: string, c: char, b: string)
    requires a != "" && !IsSpace(a[0]) && IsSpace(c)
    ensures var n := WordEnd(a); Words(a + [c] + b) == [a[..n]] + Words(a[n..] + [c] + b)
  {
    var n := WordEnd(a);
    var t := a + [c] + b;
    assert t == a + ([c] + b);
    WordEndAppend(a, [c] + b);
    assert t[..n] == a[..n];
    assert t[n..] == a[n..] + [c] + b;
  }

  lemma Reassociate(x: seq<string>, y: seq<string>, z: seq<string>)
    ensures x + (y + z) == (x + y) + z
  {
  }

  /** White space separates the words of what stands before and behind it. */
  lemma {:induction false} WordsAcrossSpace(a: string, c: char, b: string)
    requires IsSpace(c)
    ensures Words(a + [c] + b) == Words(a) + Words(b)
    decreases |a|
  {
    if a == "" {
      assert (a + [c] + b)[1..] == b;
    } else if IsSpace(a[0]) {
      assert (a + [c] + b)[1..] == a[1..] + [c] + b;
      WordsAcrossSpace(a[1..], c, b);
    } else {
      var n := WordEnd(a);
      FirstWordAcrossSpace(a, c, b);
      WordsAcrossSpace(a[n..], c, b);
      Reassociate([a[..n]], Words(a[n..]), Words(b));
    }
  }

  lemma WordsOfWord(w: string)
    requires IsWord(w)
    ensures Words(w) == [w]
  {
    assert w[..|w|] == w && w[|w|..] == "";
  }

  lemma {:induction false} PositionalConcat(a: seq<string>, b: seq<string>)
    ensures Positional(a + b) == Positional(a) + Positional(b)
  {
    if a == [] {
      assert a + b == b;
    } else {
      assert (a + b)[1..] == a[1..] + b;
      PositionalConcat(a[1..], b);
    }
  }

  lemma PositionalAcrossSpace(a: string, c: char, b: string)
    requires IsSpace(c)
    ensures Positional(Words(a + [c] + b)) == Positional(Words(a)) + Positional(Words(b))
  {
    WordsAcrossSpace(a, c, b);
    PositionalConcat(Words(a), Words(b));
  }

  /** A flag in front of all changes nothing. */
  lemma LeadingFlagMakesNoDifference(lower: Lowering, table: set<string>, flag: string, d: char, b: string)
    requires IsSpace(d) && IsWord(flag) && flag[0] == '-'
    ensures Positional(Words(flag + [d] + b)) == Positional(Words(b))
    ensures CanonicalPrefix(lower, table, flag + [d] + b) == CanonicalPrefix(lower, table, b)
  {
    PositionalAcrossSpace(flag, d, b);
  }

  /** A flag behind all changes nothing. */
  lemma TrailingFlagMakesNoDifference(lower: Lowering, table: set<string>, a: string, c: char, flag: string)
    requires IsSpace(c) && IsWord(flag) && flag[0] == '-'
    ensures CanonicalPrefix(lower, table, a + [c] + flag) == CanonicalPrefix(lower, table, a)
  {
    TrailingFlagIsDropped(a, c, flag);
  }

  lemma TrailingFlagIsDropped(a: string, c: char, flag: string)
    requires IsSpace(c) && IsWord(flag) && flag[0] == '-'
    ensures Positional(Words(a + [c] + flag)) == Positional(Words(a))
  {
    PositionalAcrossSpace(a, c, flag);
  }

  /** A flag put in anywhere between white space changes nothing. */
  lemma FlagsMakeNoDifference(lower: Lowering, table: set<string>, a: string, c: char, flag: string, d: char, b: string)
    requires IsSpace(c) && IsSpace(d) && IsWord(flag) && flag[0] == '-'
    ensures CanonicalPrefix(lower, table, a + [c] + (flag + [d] + b)) == CanonicalPrefix(lower, table, a + [c] + b)
  {
    LeadingFlagMakesNoDifference(lower, table, flag, d, b);
    PositionalAcrossSpace(a, c, flag + [d] + b);
    PositionalAcrossSpace(a, c, b);
  }

  // ---------------------------------------------------------------- idempotence

  function LowerAll(lower: Lowering, words: seq<string>): (r: seq<string>)
    ensures |r| == |words| && forall i :: 0 <= i < |words| ==> r[i] == lower(words[i])
  {
    seq(|words|, i requires 0 <= i < |words| => lower(words[i]))
  }

  predicate ArePositional(words: seq<string>) {
    forall w <- words :: IsWord(w) && w[0] != '-'
  }

  lemma {:induction false} LowerJoined(lower: Lowering, words: seq<string>)
    ensures lower(Joined(words)) == Joined(LowerAll(lower, words))
  {
    if |words| == 0 {
    } else if |words| == 1 {
      assert LowerAll(lower, words) == [lower(words[0])];
    } else {
      assert KeepsBlank(lower, words[0], Joined(words[1..]));
      LowerJoined(lower, words[1..]);
      assert LowerAll(lower, words)[1..] == LowerAll(lower, words[1..]);
    }
  }

  lemma LowerAllPositional(lower: Lowering, words: seq<string>)
    requires ArePositional(words)
    ensures ArePositional(LowerAll(lower, words)) && LowerAll(lower, LowerAll(lower, words)) == LowerAll(lower, words)
  {
    var l := LowerAll(lower, words);
    forall w <- l
      ensures IsWord(w) && !IsFlag(w)
    {
      var i :| 0 <= i < |l| && l[i] == w;
      assert IsWord(words[i]) && !IsFlag(words[i]) && KeepsWord(lower, words[i]);
    }
    forall i | 0 <= i < |words|
      ensures LowerAll(lower, l)[i] == l[i]
    {
      assert Idempotent(lower, words[i]);
    }
  }

  /** Joining words with blanks and splitting again gives the words back. */
  lemma {:induction false} WordsOfJoined(words: seq<string>)
    requires ArePositional(words)
    ensures Positional(Words(Joined(words))) == words
  {
    if |words| == 0 {
    } else {
      var w := words[0];
      assert IsWord(w) && !IsFlag(w);
      WordsOfWord(w);
      assert [w][1..] == [];
      if |words| > 1 {
        WordsOfJoined(words[1..]);
        assert Joined(words) == w + [' '] + Joined(words[1..]);
        WordsAcrossSpace(w, ' ', Joined(words[1..]));
        PositionalConcat([w], Words(Joined(words[1..])));
      }
    }
  }

  /** The words of a prefix are what it was made of, in lower case. */
  lemma KeyWords(lower: Lowering, words: seq<string>, n: nat)
    requires ArePositional(words) && n <= |words|
    ensures Positional(Words(Key(lower, words, n))) == LowerAll(lower, words[..n])
    ensures Key(lower, LowerAll(lower, words[..n]), n) == Key(lower, words, n)
  {
    var t := words[..n];
    LowerJoined(lower, t);
    LowerAllPositional(lower, t);
    WordsOfJoined(LowerAll(lower, t));
    assert LowerAll(lower, t)[..n] == LowerAll(lower, t);
    LowerJoined(lower, LowerAll(lower, t));
  }

  /** Feeding a prefix back gives the same prefix. */
  lemma PrefixIsIdempotent(lower: Lowering, table: set<string>, command: string)
    ensures CanonicalPrefix(lower, table, CanonicalPrefix(lower, table, command)) == CanonicalPrefix(lower, table, command)
  {
    var words := Positional(Words(command));
    var most := if |words| <= 3 then |words| else 3;
    var k := LongestKnown(lower, table, words, most);
    if k > 0 {
      KeyWords(lower, words, k);
    } else if words != [] {
      KeyWords(lower, words, 1);
      assert words[..1] == [words[0]];
      assert Key(lower, words, 1) == lower(words[0]);
    }
  }
}
