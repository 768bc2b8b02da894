/**
 The canonical text that the loop guard uses as the identity of tool arguments.

 `Canonical` is the text of the normal form in which the keys of every object are
 sorted. The main result, `CanonicalTextIsIdentity`, says that two values have
 the same text exactly when they are equal up to the order of object keys at every
 depth. Its two halves are unique readability of the text (`RenderInjective`) and
 the fact that sorting picks one representative of each class (`NormalIffEquivalent`).
 */
module CanonicalJson {

  /** A number stands for the text serde_json prints for it. */
  datatype Json =
    | Null
    | Bool(b: bool)
    | Number(digits: string)
    | Str(s: string)
    | Array(items: seq<Json>)
    | Object(entries: seq<Entry>)

  datatype Entry = Entry(key: string, value: Json)

  predicate UniqueKeys(entries: seq<Entry>) {
    forall i, j :: 0 <= i < j < |entries| ==> entries[i].key != entries[j].key
  }

  predicate IsNumberChar(c: char) {
    '0' <= c <= '9' || c == '-' || c == '+' || c == '.' || c == 'e' || c == 'E'
  }

  /** The number renderings that occur: section 6 of RFC 8259. */
  predicate IsNumberText(t: string) {
    |t| > 0 && (t[0] == '-' || '0' <= t[0] <= '9') && forall i :: 0 <= i < |t| ==> IsNumberChar(t[i])
  }

  /** What serde_json guarantees of a value: keys of an object are distinct. */
  predicate WellFormed(v: Json) {
    match v
    case Number(t) => IsNumberText(t)
    case Array(items) => forall i :: 0 <= i < |items| ==> WellFormed(items[i])
    case Object(entries) =>
      UniqueKeys(entries) && forall i :: 0 <= i < |entries| ==> WellFormed(entries[i].value)
    case _ => true
  }

  /** Equality up to the order of object keys, at every depth. */
  ghost predicate Equivalent(a: Json, b: Json)
    decreases a
  {
    match (a, b)
    case (Array(xs), Array(ys)) =>
      |xs| == |ys| && forall i :: 0 <= i < |xs| ==> Equivalent(xs[i], ys[i])
    case (Object(es), Object(fs)) =>
      EquivalentEntries(es, fs)
    case _ => a == b
  }

  /** Every entry on either side has a counterpart with the same key on the other. */
  ghost predicate EquivalentEntries(es: seq<Entry>, fs: seq<Entry>)
    decreases es, 1
  {
    && (forall i :: 0 <= i < |es| ==> HasTwin(es[i], fs))
    && (forall j :: 0 <= j < |fs| ==> IsTwin(es, fs[j]))
  }

  ghost predicate HasTwin(e: Entry, fs: seq<Entry>)
    decreases e, 1
  {
    exists j :: 0 <= j < |fs| && EquivalentEntry(e, fs[j])
  }

  ghost predicate IsTwin(es: seq<Entry>, f: Entry)
    decreases es, 0
  {
    exists i :: 0 <= i < |es| && EquivalentEntry(es[i], f)
  }

  ghost predicate EquivalentEntry(e: Entry, f: Entry)
    decreases e, 0
  {
    e.key == f.key && Equivalent(e.value, f.value)
  }

  // ---------------------------------------------------------------- key order

  /** Lexicographic order of keys, as `Ord for String` has it. */
  predicate Less(a: string, b: string) {
    b != [] && (a == [] || a[0] < b[0] || (a[0] == b[0] && Less(a[1..], b[1..])))
  }

  lemma {:induction false} LessTotal(a: string, b: string)
    ensures Less(a, b) || a == b || Less(b, a)
  {
    if a != [] && b != [] && a[0] == b[0] {
      LessTotal(a[1..], b[1..]);
      assert a == [a[0]] + a[1..] && b == [b[0]] + b[1..];
    }
  }

  lemma {:induction false} LessTransitive(a: string, b: string, c: string)
    requires Less(a, b) && Less(b, c)
    ensures Less(a, c)
  {
    if a != [] && a[0] == b[0] && b[0] == c[0] {
      LessTransitive(a[1..], b[1..], c[1..]);
    }
  }

  lemma {:induction false} LessIrreflexive(a: string)
    ensures !Less(a, a)
  {
    if a == [] {
    } else {
      LessIrreflexive(a[1..]);
    }
  }

  predicate SortedByKey(es: seq<Entry>) {
    forall i, j :: 0 <= i < j < |es| ==> Less(es[i].key, es[j].key)
  }

  function Insert(e: Entry, es: seq<Entry>): seq<Entry> {
    if es == [] || !Less(es[0].key, e.key) then [e] + es else [es[0]] + Insert(e, es[1..])
  }

  function SortByKey(es: seq<Entry>): seq<Entry> {
    if es == [] then [] else Insert(es[0], SortByKey(es[1..]))
  }

  lemma {:induction false} InsertMembers(e: Entry, es: seq<Entry>)
    ensures forall x :: x in Insert(e, es) <==> x == e || x in es
  {
    if es != [] && Less(es[0].key, e.key) {
      InsertMembers(e, es[1..]);
      assert es == [es[0]] + es[1..];
    }
  }

  lemma {:induction false} InsertSorted(e: Entry, es: seq<Entry>)
    requires SortedByKey(es)
    requires forall x :: x in es ==> x.key != e.key
    ensures SortedByKey(Insert(e, es))
  {
    if es == [] {
    } else if Less(es[0].key, e.key) {
      InsertSorted(e, es[1..]);
      InsertMembers(e, es[1..]);
      var r := Insert(e, es[1..]);
      forall j | 0 <= j < |r|
        ensures Less(es[0].key, r[j].key)
      {
        assert r[j] in r;
      }
    } else {
      LessTotal(es[0].key, e.key);
      assert es[0] in es;
      forall j | 0 <= j < |es|
        ensures Less(e.key, es[j].key)
      {
        if j > 0 {
          LessTransitive(e.key, es[0].key, es[j].key);
        }
      }
    }
  }

  lemma {:induction false} SortMembers(es: seq<Entry>)
    ensures forall x :: x in SortByKey(es) <==> x in es
  {
    if es == [] {
    } else {
      SortMembers(es[1..]);
      InsertMembers(es[0], SortByKey(es[1..]));
      assert es == [es[0]] + es[1..];
    }
  }

  lemma FirstIsMember(es: seq<Entry>)
    ensures es == [] || es[0] in es
  {
  }

  /** Two strictly sorted listings of the same entries are the same listing. */
  lemma {:induction false} SortedUnique(xs: seq<Entry>, ys: seq<Entry>)
    requires SortedByKey(xs) && SortedByKey(ys)
    requires forall x :: x in xs <==> x in ys
    ensures xs == ys
  {
    if xs == [] {
      FirstIsMember(ys);
    } else {
      assert xs[0] in ys;
      assert ys[0] in xs;
      if xs[0] != ys[0] {
        assert Less(ys[0].key, xs[0].key);
        assert Less(xs[0].key, ys[0].key);
        LessTransitive(xs[0].key, ys[0].key, xs[0].key);
        LessIrreflexive(xs[0].key);
        assert false;
      }
      LessIrreflexive(xs[0].key);
      assert xs == [xs[0]] + xs[1..] && ys == [ys[0]] + ys[1..];
      assert xs[0] !in xs[1..] && ys[0] !in ys[1..];
      forall x
        ensures x in xs[1..] <==> x in ys[1..]
      {
        assert x in xs <==> x in ys;
      }
      SortedUnique(xs[1..], ys[1..]);
    }
  }

  // ---------------------------------------------------------------- normal form

  /** Keys sorted at every depth. */
  function Normal(v: Json): Json {
    match v
    case Array(items) => Array(NormalItems(items))
    case Object(entries) => Object(NormalEntries(entries))
    case _ => v
  }

  function NormalItems(items: seq<Json>): (r: seq<Json>)
    ensures |r| == |items|
    ensures forall i :: 0 <= i < |items| ==> r[i] == Normal(items[i])
  {
    if items == [] then [] else [Normal(items[0])] + NormalItems(items[1..])
  }

  function NormalEntry(e: Entry): Entry {
    Entry(e.key, Normal(e.value))
  }

  function NormalEntries(es: seq<Entry>): seq<Entry> {
    if es == [] then [] else Insert(NormalEntry(es[0]), NormalEntries(es[1..]))
  }

  lemma {:induction false} NormalEntriesMembers(es: seq<Entry>)
    ensures forall x :: x in NormalEntries(es) <==> exists i :: 0 <= i < |es| && x == NormalEntry(es[i])
  {
    if es == [] {
    } else {
      NormalEntriesMembers(es[1..]);
      InsertMembers(NormalEntry(es[0]), NormalEntries(es[1..]));
      forall x
        ensures x in NormalEntries(es) <==> exists i :: 0 <= i < |es| && x == NormalEntry(es[i])
      {
        if x in NormalEntries(es[1..]) {
          var i :| 0 <= i < |es[1..]| && x == NormalEntry(es[1..][i]);
          assert x == NormalEntry(es[i + 1]);
        }
        if i :| 0 <= i < |es| && x == NormalEntry(es[i]) {
          if i > 0 {
            assert x == NormalEntry(es[1..][i - 1]);
          }
        }
      }
    }
  }

  lemma {:induction false} NormalEntriesSorted(es: seq<Entry>)
    requires UniqueKeys(es)
    ensures SortedByKey(NormalEntries(es))
  {
    if es == [] {
    } else {
      NormalEntriesSorted(es[1..]);
      NormalEntriesMembers(es[1..]);
      InsertSorted(NormalEntry(es[0]), NormalEntries(es[1..]));
    }
  }

  /** Sorting and then normalising the values gives the normal entries. */
  lemma {:induction false} NormalEntriesOfSorted(es: seq<Entry>)
    ensures |NormalEntries(es)| == |SortByKey(es)|
    ensures forall i :: 0 <= i < |SortByKey(es)| ==> NormalEntries(es)[i] == NormalEntry(SortByKey(es)[i])
  {
    if es == [] {
    } else {
      NormalEntriesOfSorted(es[1..]);
      InsertNormal(es[0], SortByKey(es[1..]), NormalEntries(es[1..]));
    }
  }

  lemma {:induction false} InsertNormal(e: Entry, es: seq<Entry>, ns: seq<Entry>)
    requires |es| == |ns| && forall i :: 0 <= i < |es| ==> ns[i] == NormalEntry(es[i])
    ensures |Insert(NormalEntry(e), ns)| == |Insert(e, es)|
    ensures forall i :: 0 <= i < |Insert(e, es)| ==> Insert(NormalEntry(e), ns)[i] == NormalEntry(Insert(e, es)[i])
  {
    if es == [] {
    } else {
      InsertNormal(e, es[1..], ns[1..]);
    }
  }

  lemma {:induction false} NormalWellFormed(v: Json)
    requires WellFormed(v)
    ensures WellFormed(Normal(v))
  {
    match v
    case Array(items) =>
      forall i | 0 <= i < |items| ensures WellFormed(NormalItems(items)[i]) {
        NormalWellFormed(items[i]);
      }
    case Object(es) =>
      var ns := NormalEntries(es);
      NormalEntriesSorted(es);
      NormalEntriesMembers(es);
      forall i, j | 0 <= i < j < |ns| ensures ns[i].key != ns[j].key {
        LessIrreflexive(ns[i].key);
      }
      forall i | 0 <= i < |ns| ensures WellFormed(ns[i].value) {
        assert ns[i] in ns;
        var k :| 0 <= k < |es| && ns[i] == NormalEntry(es[k]);
        NormalWellFormed(es[k].value);
      }
    case _ =>
  }

  lemma {:induction false} NormalIffEquivalent(a: Json, b: Json)
    requires WellFormed(a) && WellFormed(b)
    ensures Normal(a) == Normal(b) <==> Equivalent(a, b)
    decreases a
  {
    match (a, b)
    case (Array(xs), Array(ys)) =>
      var ns, ms := NormalItems(xs), NormalItems(ys);
      if |xs| == |ys| {
        forall i | 0 <= i < |xs| ensures ns[i] == ms[i] <==> Equivalent(xs[i], ys[i]) {
          NormalIffEquivalent(xs[i], ys[i]);
        }
        if ns == ms {
          forall i | 0 <= i < |xs| ensures Equivalent(xs[i], ys[i]) {
            assert ns[i] == ms[i];
          }
        }
      }
    case (Object(es), Object(fs)) =>
      ObjectNormalIffEquivalent(es, fs);
      assert Normal(a) == Normal(b) <==> NormalEntries(es) == NormalEntries(fs);
    case _ =>
  }

  lemma {:induction false} ObjectNormalIffEquivalent(es: seq<Entry>, fs: seq<Entry>)
    requires WellFormed(Object(es)) && WellFormed(Object(fs))
    ensures NormalEntries(es) == NormalEntries(fs) <==> EquivalentEntries(es, fs)
    decreases es
  {
    forall i, j | 0 <= i < |es| && 0 <= j < |fs|
      ensures NormalEntry(es[i]) == NormalEntry(fs[j]) <==> EquivalentEntry(es[i], fs[j])
    {
      NormalIffEquivalent(es[i].value, fs[j].value);
    }
    PointwiseMatch(es, fs);
    EqualNormalsIffMatch(es, fs);
  }

  ghost predicate NormalsMatch(es: seq<Entry>, fs: seq<Entry>) {
    && (forall i :: 0 <= i < |es| ==> HasNormalTwin(es[i], fs))
    && (forall j :: 0 <= j < |fs| ==> IsNormalTwin(es, fs[j]))
  }

  ghost predicate HasNormalTwin(e: Entry, fs: seq<Entry>) {
    exists j :: 0 <= j < |fs| && NormalEntry(e) == NormalEntry(fs[j])
  }

  ghost predicate IsNormalTwin(es: seq<Entry>, f: Entry) {
    exists i :: 0 <= i < |es| && NormalEntry(es[i]) == NormalEntry(f)
  }

  lemma PointwiseMatch(es: seq<Entry>, fs: seq<Entry>)
    requires forall i, j :: 0 <= i < |es| && 0 <= j < |fs| ==>
      (NormalEntry(es[i]) == NormalEntry(fs[j]) <==> EquivalentEntry(es[i], fs[j]))
    ensures NormalsMatch(es, fs) <==> EquivalentEntries(es, fs)
  {
    forall i | 0 <= i < |es|
      ensures HasNormalTwin(es[i], fs) <==> HasTwin(es[i], fs)
    {
      if HasTwin(es[i], fs) {
        var j :| 0 <= j < |fs| && EquivalentEntry(es[i], fs[j]);
        assert NormalEntry(es[i]) == NormalEntry(fs[j]);
      }
    }
    forall j | 0 <= j < |fs|
      ensures IsNormalTwin(es, fs[j]) <==> IsTwin(es, fs[j])
    {
      if IsTwin(es, fs[j]) {
        var i :| 0 <= i < |es| && EquivalentEntry(es[i], fs[j]);
        assert NormalEntry(es[i]) == NormalEntry(fs[j]);
      }
    }
  }

  lemma EqualNormalsIffMatch(es: seq<Entry>, fs: seq<Entry>)
    requires UniqueKeys(es) && UniqueKeys(fs)
    ensures NormalEntries(es) == NormalEntries(fs) <==> NormalsMatch(es, fs)
  {
    if NormalEntries(es) == NormalEntries(fs) {
      EqualNormalsMatch(es, fs);
    }
    if NormalsMatch(es, fs) {
      MatchingNormalsEqual(es, fs);
    }
  }

  lemma EqualNormalsMatch(es: seq<Entry>, fs: seq<Entry>)
    requires NormalEntries(es) == NormalEntries(fs)
    ensures NormalsMatch(es, fs)
  {
    NormalEntriesMembers(es);
    NormalEntriesMembers(fs);
    forall i | 0 <= i < |es| ensures HasNormalTwin(es[i], fs) {
      assert NormalEntry(es[i]) in NormalEntries(fs);
    }
    forall j | 0 <= j < |fs| ensures IsNormalTwin(es, fs[j]) {
      assert NormalEntry(fs[j]) in NormalEntries(es);
    }
  }

  lemma MatchingNormalsEqual(es: seq<Entry>, fs: seq<Entry>)
    requires UniqueKeys(es) && UniqueKeys(fs) && NormalsMatch(es, fs)
    ensures NormalEntries(es) == NormalEntries(fs)
  {
    NormalEntriesSorted(es);
    NormalEntriesSorted(fs);
    NormalEntriesMembers(es);
    NormalEntriesMembers(fs);
    SortedUnique(NormalEntries(es), NormalEntries(fs));
  }

  // ---------------------------------------------------------------- text

  function Hex(n: nat): char
    requires n < 16
  {
    "0123456789abcdef"[n]
  }

  /** The letter of a two-character escape; 'u' when there is none. */
  function ShortEscape(c: char): char {
    if c == '"' then '"'
    else if c == '\\' then '\\'
    else if c == '\n' then 'n'
    else if c == '\r' then 'r'
    else if c == '\t' then 't'
    else if c as int == 8 then 'b'
    else if c as int == 12 then 'f'
    else 'u'
  }

  /** How serde_json writes one character of a string: section 7 of RFC 8259. */
  function Escape(c: char): string {
    if ShortEscape(c) != 'u' then ['\\', ShortEscape(c)]
    else if c as int < 0x20 then ['\\', 'u', '0', '0', Hex(c as int / 16), Hex(c as int % 16)]
    else [c]
  }

  function EscapeAll(s: string): string {
    if s == [] then [] else Escape(s[0]) + EscapeAll(s[1..])
  }

  function Quote(s: string): string {
    (QUOTE + EscapeAll(s)) + QUOTE
  }

  /** The text of a value, entries in the order given: section 4 of RFC 8259. */
  function Render(v: Json): string {
    match v
    case Null => "null"
    case Bool(b) => if b then "true" else "false"
    case Number(t) => t
    case Str(s) => Quote(s)
    case Array(items) => "[" + RenderItems(items)
    case Object(entries) => "{" + RenderEntries(entries)
  }

  function RenderItems(items: seq<Json>): string {
    if items == [] then "]" else Render(items[0]) + RenderMoreItems(items[1..])
  }

  function RenderMoreItems(items: seq<Json>): string {
    if items == [] then "]" else ("," + Render(items[0])) + RenderMoreItems(items[1..])
  }

  function RenderEntry(e: Entry): string {
    (Quote(e.key) + ":") + Render(e.value)
  }

  function RenderEntries(es: seq<Entry>): string {
    if es == [] then "}" else RenderEntry(es[0]) + RenderMoreEntries(es[1..])
  }

  function RenderMoreEntries(es: seq<Entry>): string {
    if es == [] then "}" else ("," + RenderEntry(es[0])) + RenderMoreEntries(es[1..])
  }

  /** The text that `write_canonical` appends. */
  function Canonical(v: Json): string {
    Render(Normal(v))
  }

  // ---------------------------------------------------------------- unique readability

  lemma Cancel(p: string, x: string, y: string)
    requires p + x == p + y
    ensures x == y
  {
    assert (p + x)[|p|..] == x && (p + y)[|p|..] == y;
  }

  lemma Assoc(p: string, q: string, x: string)
    ensures (p + q) + x == p + (q + x)
  {
  }

  lemma EscapePrefixFree(c: char, d: char, x: string, y: string)
    requires Escape(c) + x == Escape(d) + y
    ensures c == d && x == y
  {
    var p, q := Escape(c), Escape(d);
    var whole := p + x;
    assert forall i :: 0 <= i < |p| ==> whole[i] == p[i];
    assert forall i :: 0 <= i < |q| ==> whole[i] == q[i];
    assert p[0] == q[0];
    assert |p| > 1 <==> |q| > 1;
    if |p| > 1 {
      assert p[1] == q[1];
      if p[1] == 'u' {
        assert p[4] == q[4] && p[5] == q[5];
        HexInjective(c as int / 16, d as int / 16);
        HexInjective(c as int % 16, d as int % 16);
      }
    }
    Cancel(p, x, y);
  }

  lemma HexInjective(m: nat, n: nat)
    requires m < 16 && n < 16 && Hex(m) == Hex(n)
    ensures m == n
  {
    assert forall k: nat :: k < 10 ==> Hex(k) as int == '0' as int + k;
    assert forall k: nat :: 10 <= k < 16 ==> Hex(k) as int == 'a' as int + k - 10;
  }

  const QUOTE: string := ['"']

  /** A closing quote cannot be the start of an escaped character. */
  lemma EscapeIsNotQuote(c: char, x: string, y: string)
    ensures Escape(c) + x != QUOTE + y
  {
    assert (Escape(c) + x)[0] == Escape(c)[0];
    assert (QUOTE + y)[0] == '"';
  }

  lemma {:induction false} QuotedPrefix(s: string, t: string, x: string, y: string)
    requires EscapeAll(s) + (QUOTE + x) == EscapeAll(t) + (QUOTE + y)
    ensures s == t && x == y
  {
    var whole := EscapeAll(s) + (QUOTE + x);
    if s != [] {
      Assoc(Escape(s[0]), EscapeAll(s[1..]), QUOTE + x);
      EscapeIsNotQuote(s[0], EscapeAll(s[1..]) + (QUOTE + x), y);
    }
    if t != [] {
      Assoc(Escape(t[0]), EscapeAll(t[1..]), QUOTE + y);
      EscapeIsNotQuote(t[0], EscapeAll(t[1..]) + (QUOTE + y), x);
    }
    if s == [] {
      assert whole == QUOTE + x;
      assert t == [];
      Cancel(QUOTE, x, y);
    } else {
      assert t == [] ==> whole == QUOTE + y;
      EscapePrefixFree(s[0], t[0], EscapeAll(s[1..]) + (QUOTE + x), EscapeAll(t[1..]) + (QUOTE + y));
      QuotedPrefix(s[1..], t[1..], x, y);
      assert s == [s[0]] + s[1..] && t == [t[0]] + t[1..];
    }
  }

  lemma QuotePrefix(s: string, t: string, x: string, y: string)
    requires Quote(s) + x == Quote(t) + y
    ensures s == t && x == y
  {
    QuoteThen(s, x);
    QuoteThen(t, y);
    Cancel(QUOTE, EscapeAll(s) + (QUOTE + x), EscapeAll(t) + (QUOTE + y));
    QuotedPrefix(s, t, x, y);
  }

  lemma QuoteThen(s: string, x: string)
    ensures Quote(s) + x == QUOTE + (EscapeAll(s) + (QUOTE + x))
  {
    Assoc(QUOTE + EscapeAll(s), QUOTE, x);
    Assoc(QUOTE, EscapeAll(s), QUOTE + x);
  }

  /** What may follow a value inside a larger text. */
  predicate Stops(x: string) {
    x == [] || x[0] == ',' || x[0] == ']' || x[0] == '}'
  }

  lemma NumberNotLonger(s: string, t: string, x: string, y: string)
    requires forall i :: 0 <= i < |t| ==> IsNumberChar(t[i])
    requires Stops(x) && s + x == t + y
    ensures |t| <= |s|
  {
    var whole := s + x;
    assert forall i :: 0 <= i < |t| ==> IsNumberChar(whole[i]);
    assert |s| < |whole| ==> whole[|s|] == x[0] && !IsNumberChar(whole[|s|]);
  }

  lemma {:induction false} NumberPrefix(s: string, t: string, x: string, y: string)
    requires forall i :: 0 <= i < |s| ==> IsNumberChar(s[i])
    requires forall i :: 0 <= i < |t| ==> IsNumberChar(t[i])
    requires Stops(x) && Stops(y) && s + x == t + y
    ensures s == t && x == y
  {
    NumberNotLonger(s, t, x, y);
    NumberNotLonger(t, s, y, x);
    assert (s + x)[..|s|] == s && (t + y)[..|t|] == t;
    assert (s + x)[|s|..] == x && (t + y)[|t|..] == y;
  }

  /** The first character tells the kind of a value. */
  function Kind(c: char): nat {
    if c == 'n' then 0
    else if c == 't' then 1
    else if c == 'f' then 2
    else if c == '"' then 3
    else if c == '[' then 4
    else if c == '{' then 5
    else 6
  }

  function KindOf(v: Json): nat {
    match v
    case Null => 0
    case Bool(b) => if b then 1 else 2
    case Str(_) => 3
    case Array(_) => 4
    case Object(_) => 5
    case Number(_) => 6
  }

  lemma FirstCharacter(v: Json, x: string)
    requires WellFormed(v)
    ensures |Render(v)| > 0 && Kind((Render(v) + x)[0]) == KindOf(v)
  {
    assert (Render(v) + x)[0] == Render(v)[0];
  }

  /** No value's text starts with a closing bracket or a comma. */
  lemma ValueDoesNotStop(v: Json, x: string)
    requires WellFormed(v)
    ensures !Stops(Render(v) + x)
  {
    assert (Render(v) + x)[0] == Render(v)[0];
  }

  lemma {:induction false} RenderPrefix(a: Json, b: Json, x: string, y: string)
    requires WellFormed(a) && WellFormed(b)
    requires Stops(x) && Stops(y) && Render(a) + x == Render(b) + y
    ensures a == b && x == y
    decreases a, 1
  {
    FirstCharacter(a, x);
    FirstCharacter(b, y);
    match a
    case Null =>
      Cancel(Render(a), x, y);
    case Bool(_) =>
      Cancel(Render(a), x, y);
    case Number(t) =>
      NumberPrefix(t, b.digits, x, y);
    case Str(s) =>
      QuotePrefix(s, b.s, x, y);
    case Array(xs) =>
      Assoc("[", RenderItems(xs), x);
      Assoc("[", RenderItems(b.items), y);
      Cancel("[", RenderItems(xs) + x, RenderItems(b.items) + y);
      ItemsPrefix(xs, b.items, x, y);
    case Object(es) =>
      Assoc("{", RenderEntries(es), x);
      Assoc("{", RenderEntries(b.entries), y);
      Cancel("{", RenderEntries(es) + x, RenderEntries(b.entries) + y);
      EntriesPrefix(es, b.entries, x, y);
  }

  lemma MoreItemsStop(xs: seq<Json>, x: string)
    ensures Stops(RenderMoreItems(xs) + x)
  {
    assert (RenderMoreItems(xs) + x)[0] == RenderMoreItems(xs)[0];
  }

  lemma {:induction false} ItemsPrefix(xs: seq<Json>, ys: seq<Json>, x: string, y: string)
    requires WellFormed(Array(xs)) && WellFormed(Array(ys))
    requires RenderItems(xs) + x == RenderItems(ys) + y
    ensures xs == ys && x == y
    decreases xs, 0
  {
    EmptyIffCloses(xs, x);
    EmptyIffCloses(ys, y);
    if xs == [] {
      Cancel("]", x, y);
    } else {
      var r, q := RenderMoreItems(xs[1..]) + x, RenderMoreItems(ys[1..]) + y;
      Assoc(Render(xs[0]), RenderMoreItems(xs[1..]), x);
      Assoc(Render(ys[0]), RenderMoreItems(ys[1..]), y);
      MoreItemsStop(xs[1..], x);
      MoreItemsStop(ys[1..], y);
      RenderPrefix(xs[0], ys[0], r, q);
      MoreItemsPrefix(xs[1..], ys[1..], x, y);
      assert xs == [xs[0]] + xs[1..] && ys == [ys[0]] + ys[1..];
    }
  }

  lemma EmptyIffCloses(xs: seq<Json>, x: string)
    requires WellFormed(Array(xs))
    ensures xs == [] <==> Stops(RenderItems(xs) + x)
  {
    if xs == [] {
      assert (RenderItems(xs) + x)[0] == ']';
    } else {
      Assoc(Render(xs[0]), RenderMoreItems(xs[1..]), x);
      ValueDoesNotStop(xs[0], RenderMoreItems(xs[1..]) + x);
    }
  }

  lemma {:induction false} MoreItemsPrefix(xs: seq<Json>, ys: seq<Json>, x: string, y: string)
    requires WellFormed(Array(xs)) && WellFormed(Array(ys))
    requires RenderMoreItems(xs) + x == RenderMoreItems(ys) + y
    ensures xs == ys && x == y
    decreases xs, 0
  {
    assert (RenderMoreItems(xs) + x)[0] == RenderMoreItems(xs)[0];
    assert (RenderMoreItems(ys) + y)[0] == RenderMoreItems(ys)[0];
    if xs == [] {
      Cancel("]", x, y);
    } else {
      var r, q := RenderMoreItems(xs[1..]) + x, RenderMoreItems(ys[1..]) + y;
      MoreItemsThen(xs, x);
      MoreItemsThen(ys, y);
      Cancel(",", Render(xs[0]) + r, Render(ys[0]) + q);
      MoreItemsStop(xs[1..], x);
      MoreItemsStop(ys[1..], y);
      RenderPrefix(xs[0], ys[0], r, q);
      MoreItemsPrefix(xs[1..], ys[1..], x, y);
      assert xs == [xs[0]] + xs[1..] && ys == [ys[0]] + ys[1..];
    }
  }

  lemma MoreItemsThen(xs: seq<Json>, x: string)
    requires xs != []
    ensures RenderMoreItems(xs) + x == "," + (Render(xs[0]) + (RenderMoreItems(xs[1..]) + x))
  {
    Assoc("," + Render(xs[0]), RenderMoreItems(xs[1..]), x);
    Assoc(",", Render(xs[0]), RenderMoreItems(xs[1..]) + x);
  }

  lemma MoreEntriesStop(es: seq<Entry>, x: string)
    ensures Stops(RenderMoreEntries(es) + x)
  {
    assert (RenderMoreEntries(es) + x)[0] == RenderMoreEntries(es)[0];
  }

  lemma {:induction false} EntryPrefix(e: Entry, f: Entry, x: string, y: string)
    requires WellFormed(e.value) && WellFormed(f.value)
    requires Stops(x) && Stops(y) && RenderEntry(e) + x == RenderEntry(f) + y
    ensures e == f && x == y
    decreases e, 2
  {
    EntryThen(e, x);
    EntryThen(f, y);
    QuotePrefix(e.key, f.key, ":" + (Render(e.value) + x), ":" + (Render(f.value) + y));
    Cancel(":", Render(e.value) + x, Render(f.value) + y);
    RenderPrefix(e.value, f.value, x, y);
  }

  lemma EntryThen(e: Entry, x: string)
    ensures RenderEntry(e) + x == Quote(e.key) + (":" + (Render(e.value) + x))
  {
    Assoc(Quote(e.key) + ":", Render(e.value), x);
    Assoc(Quote(e.key), ":", Render(e.value) + x);
  }

  lemma {:induction false} EntriesPrefix(es: seq<Entry>, fs: seq<Entry>, x: string, y: string)
    requires WellFormed(Object(es)) && WellFormed(Object(fs))
    requires RenderEntries(es) + x == RenderEntries(fs) + y
    ensures es == fs && x == y
    decreases es, 0
  {
    EntriesEmptyIffCloses(es, x);
    EntriesEmptyIffCloses(fs, y);
    if es == [] {
      Cancel("}", x, y);
    } else {
      var r, q := RenderMoreEntries(es[1..]) + x, RenderMoreEntries(fs[1..]) + y;
      Assoc(RenderEntry(es[0]), RenderMoreEntries(es[1..]), x);
      Assoc(RenderEntry(fs[0]), RenderMoreEntries(fs[1..]), y);
      MoreEntriesStop(es[1..], x);
      MoreEntriesStop(fs[1..], y);
      EntryPrefix(es[0], fs[0], r, q);
      MoreEntriesPrefix(es[1..], fs[1..], x, y);
      assert es == [es[0]] + es[1..] && fs == [fs[0]] + fs[1..];
    }
  }

  lemma EntriesEmptyIffCloses(es: seq<Entry>, x: string)
    ensures es == [] <==> Stops(RenderEntries(es) + x)
  {
    if es == [] {
      assert (RenderEntries(es) + x)[0] == '}';
    } else {
      Assoc(RenderEntry(es[0]), RenderMoreEntries(es[1..]), x);
      EntryThen(es[0], RenderMoreEntries(es[1..]) + x);
      QuoteThen(es[0].key, ":" + (Render(es[0].value) + (RenderMoreEntries(es[1..]) + x)));
    }
  }

  lemma {:induction false} MoreEntriesPrefix(es: seq<Entry>, fs: seq<Entry>, x: string, y: string)
    requires WellFormed(Object(es)) && WellFormed(Object(fs))
    requires RenderMoreEntries(es) + x == RenderMoreEntries(fs) + y
    ensures es == fs && x == y
    decreases es, 0
  {
    assert (RenderMoreEntries(es) + x)[0] == RenderMoreEntries(es)[0];
    assert (RenderMoreEntries(fs) + y)[0] == RenderMoreEntries(fs)[0];
    if es == [] {
      Cancel("}", x, y);
    } else {
      var r, q := RenderMoreEntries(es[1..]) + x, RenderMoreEntries(fs[1..]) + y;
      MoreEntriesThen(es, x);
      MoreEntriesThen(fs, y);
      Cancel(",", RenderEntry(es[0]) + r, RenderEntry(fs[0]) + q);
      MoreEntriesStop(es[1..], x);
      MoreEntriesStop(fs[1..], y);
      EntryPrefix(es[0], fs[0], r, q);
      MoreEntriesPrefix(es[1..], fs[1..], x, y);
      assert es == [es[0]] + es[1..] && fs == [fs[0]] + fs[1..];
    }
  }

  lemma MoreEntriesThen(es: seq<Entry>, x: string)
    requires es != []
    ensures RenderMoreEntries(es) + x == "," + (RenderEntry(es[0]) + (RenderMoreEntries(es[1..]) + x))
  {
    Assoc("," + RenderEntry(es[0]), RenderMoreEntries(es[1..]), x);
    Assoc(",", RenderEntry(es[0]), RenderMoreEntries(es[1..]) + x);
  }

  /** Different values have different texts. */
  lemma RenderInjective(a: Json, b: Json)
    requires WellFormed(a) && WellFormed(b) && Render(a) == Render(b)
    ensures a == b
  {
    assert Render(a) + "" == Render(b) + "";
    RenderPrefix(a, b, "", "");
  }

  /** The text identifies a value up to the order of object keys. */
  lemma CanonicalTextIsIdentity(a: Json, b: Json)
    requires WellFormed(a) && WellFormed(b)
    ensures Canonical(a) == Canonical(b) <==> Equivalent(a, b)
  {
    NormalIffEquivalent(a, b);
    NormalWellFormed(a);
    NormalWellFormed(b);
    if Canonical(a) == Canonical(b) {
      RenderInjective(Normal(a), Normal(b));
    }
  }

  // ---------------------------------------------------------------- the writer

  /** Separator that the writer's loops put before item `i`. */
  function Separated(i: nat, text: string): string {
    if i == 0 then text else "," + text
  }

  lemma {:induction false} RenderItemsStep(items: seq<Json>, i: nat)
    requires i < |items|
    ensures RenderRest(items, i) == Separated(i, Render(items[i])) + RenderRest(items, i + 1)
  {
    assert items[i..][0] == items[i] && items[i..][1..] == items[i + 1..];
  }

  /** What is still to be written when `i` items have been written. */
  function RenderRest(items: seq<Json>, i: nat): string
    requires i <= |items|
  {
    if i == 0 then RenderItems(items) else RenderMoreItems(items[i..])
  }

  lemma {:induction false} RenderEntriesStep(es: seq<Entry>, i: nat)
    requires i < |es|
    ensures RenderRestEntries(es, i) == Separated(i, RenderEntry(es[i])) + RenderRestEntries(es, i + 1)
  {
    assert es[i..][0] == es[i] && es[i..][1..] == es[i + 1..];
  }

  function RenderRestEntries(es: seq<Entry>, i: nat): string
    requires i <= |es|
  {
    if i == 0 then RenderEntries(es) else RenderMoreEntries(es[i..])
  }

  /** `write_canonical`: appends to `out`, sorting the entries of each object first. */
  method WriteCanonical(value: Json, out: string) returns (r: string)
    ensures r == out + Canonical(value)
    decreases value, 1
  {
    match value
    case Null => r := out + "null";
    case Bool(b) => r := out + (if b then "true" else "false");
    case Number(t) => r := out + t;
    case Str(s) => r := out + Quote(s);
    case Array(items) =>
      r := WriteItems(items, out + "[");
      Assoc(out, "[", RenderItems(NormalItems(items)));
    case Object(entries) =>
      r := WriteEntries(entries, out + "{");
      Assoc(out, "{", RenderEntries(NormalEntries(entries)));
  }

  /** The loop over the items of an array, and its closing bracket. */
  method WriteItems(items: seq<Json>, out: string) returns (r: string)
    ensures r == out + RenderItems(NormalItems(items))
    decreases items, 0
  {
    r := out;
    ghost var ns := NormalItems(items);
    for i := 0 to |items|
      invariant r + RenderRest(ns, i) == out + RenderItems(ns)
    {
      RenderItemsStep(ns, i);
      ghost var before := r;
      if i > 0 {
        r := r + ",";
      }
      r := WriteCanonical(items[i], r);
      assert r == before + Separated(i, Render(ns[i]));
      Assoc(before, Separated(i, Render(ns[i])), RenderRest(ns, i + 1));
    }
    r := r + "]";
  }

  lemma EntryAppended(before: string, i: nat, key: string, value: string)
    ensures (if i > 0 then before + "," else before) + key + ":" + value == before + Separated(i, (key + ":") + value)
  {
  }

  /** The loop over the sorted entries of an object, and its closing brace. */
  method WriteEntries(entries: seq<Entry>, out: string) returns (r: string)
    ensures r == out + RenderEntries(NormalEntries(entries))
    decreases entries, 0
  {
    r := out;
    var sorted := SortByKey(entries);
    SortMembers(entries);
    NormalEntriesOfSorted(entries);
    ghost var ns := NormalEntries(entries);
    for i := 0 to |sorted|
      invariant r + RenderRestEntries(ns, i) == out + RenderEntries(ns)
    {
      RenderEntriesStep(ns, i);
      ghost var before := r;
      var e := sorted[i];
      assert e in entries;
      if i > 0 {
        r := r + ",";
      }
      r := r + Quote(e.key);
      r := r + ":";
      r := WriteCanonical(e.value, r);
      EntryAppended(before, i, Quote(e.key), Canonical(e.value));
      Assoc(before, Separated(i, RenderEntry(ns[i])), RenderRestEntries(ns, i + 1));
    }
    r := r + "}";
  }
}
