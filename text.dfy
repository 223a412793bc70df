/** The slice of the Kotlin string library the researcher app relies on:
    whitespace and blankness, trimming, ASCII case folding, prefix/suffix and
    substring search, splitting and joining, and decimal integer parsing and
    rendering. Every helper is stated by what it returns, so the modules
    above it can reason about results without unfolding bodies. */
module Text {
  import opened Wrappers

  /** Kotlin `Char.isWhitespace` on the JVM: `Character.isWhitespace` or
      `Character.isSpaceChar`. */
  predicate IsWhitespace(c: char) {
    c == ' ' || c == '\t' || c == '\n' || c == '\U{000B}' || c == '\U{000C}' || c == '\r'
    || ('\U{001C}' <= c <= '\U{001F}') || c == '\U{00A0}' || c == '\U{1680}'
    || ('\U{2000}' <= c <= '\U{200A}') || c == '\U{2028}' || c == '\U{2029}'
    || c == '\U{202F}' || c == '\U{205F}' || c == '\U{3000}'
  }

  /** Kotlin `isBlank`: empty or whitespace only. */
  predicate IsBlank(s: string) {
    forall i :: 0 <= i < |s| ==> IsWhitespace(s[i])
  }

  // ---------------------------------------------------------------- trimming

  /** Drops the longest prefix whose characters satisfy `drop`. */
  function TrimStartBy(s: string, drop: char -> bool): (r: string)
    ensures |r| <= |s| && r == s[|s| - |r|..]
    ensures r == [] || !drop(r[0])
    ensures forall i :: 0 <= i < |s| - |r| ==> drop(s[i])
  {
    if s != [] && drop(s[0]) then
      var r := TrimStartBy(s[1..], drop);
      assert s[1..][|s| - 1 - |r|..] == s[|s| - |r|..];
      assert forall i :: 0 < i < |s| - |r| ==> s[i] == s[1..][i - 1];
      r
    else s
  }

  /** Drops the longest suffix whose characters satisfy `drop`. */
  function TrimEndBy(s: string, drop: char -> bool): (r: string)
    ensures |r| <= |s| && r == s[..|r|]
    ensures r == [] || !drop(r[|r| - 1])
    ensures forall i :: |r| <= i < |s| ==> drop(s[i])
  {
    if s != [] && drop(s[|s| - 1]) then
      var r := TrimEndBy(s[..|s| - 1], drop);
      assert s[..|s| - 1][..|r|] == s[..|r|];
      assert forall i :: |r| <= i < |s| - 1 ==> s[i] == s[..|s| - 1][i];
      r
    else s
  }

  /** Kotlin `trim { drop(it) }`. */
  function TrimBy(s: string, drop: char -> bool): string {
    TrimEndBy(TrimStartBy(s, drop), drop)
  }

  /** Kotlin `String.trim()`. */
  function Trim(s: string): string {
    TrimBy(s, IsWhitespace)
  }

  /** Kotlin `trimStart()`. */
  function TrimStart(s: string): string {
    TrimStartBy(s, IsWhitespace)
  }

  /** The test "is the character `c`". */
  function IsChar(c: char): char -> bool {
    x => x == c
  }

  /** Kotlin `trim(c)` for a single character `c`. */
  function TrimChar(s: string, c: char): string {
    TrimBy(s, IsChar(c))
  }

  /** Kotlin `trimStart(c)` for a single character `c`. */
  function TrimStartChar(s: string, c: char): string {
    TrimStartBy(s, IsChar(c))
  }

  /** The trimmed text is a contiguous slice of the input with no dropped
      character at either end, and everything cut off satisfies `drop`. */
  lemma TrimBySlice(s: string, drop: char -> bool)
    ensures var r := TrimBy(s, drop);
      exists a, b :: 0 <= a <= b <= |s| && r == s[a..b]
        && (forall i :: 0 <= i < a ==> drop(s[i]))
        && (forall i :: b <= i < |s| ==> drop(s[i]))
        && (r == [] || (!drop(r[0]) && !drop(r[|r| - 1])))
  {
    var a, b := TrimCuts(s, drop);
  }

  /** The cut points of `TrimBy`: where the kept slice starts and ends. */
  lemma TrimCuts(s: string, drop: char -> bool) returns (a: nat, b: nat)
    ensures a <= b <= |s| && TrimBy(s, drop) == s[a..b]
    ensures forall i :: 0 <= i < a ==> drop(s[i])
    ensures forall i :: b <= i < |s| ==> drop(s[i])
    ensures var r := TrimBy(s, drop); r == [] || (!drop(r[0]) && !drop(r[|r| - 1]))
  {
    var t := TrimStartBy(s, drop);
    var r := TrimEndBy(t, drop);
    assert TrimBy(s, drop) == r;
    a := |s| - |t|;
    b := a + |r|;
    assert t == s[a..] && r == t[..|r|];
    SliceOfSlice(s, a, |s|, 0, |r|);
    forall i | b <= i < |s| ensures drop(s[i]) {
      assert s[i] == t[i - a];
    }
    if r != [] {
      assert r[0] == t[0] && !drop(t[0]);
    }
  }

  /** Trimming text padded on both sides with dropped characters gives the
      text back, provided neither of its ends is dropped. */
  lemma {:induction false} TrimByPadded(p: string, x: string, q: string, drop: char -> bool)
    requires forall i :: 0 <= i < |p| ==> drop(p[i])
    requires forall i :: 0 <= i < |q| ==> drop(q[i])
    requires x != [] && !drop(x[0]) && !drop(x[|x| - 1])
    ensures TrimBy(p + x + q, drop) == x
  {
    assert p + x + q == p + (x + q) && (x + q)[0] == x[0];
    TrimStartPadded(p, x + q, drop);
    TrimEndPadded(x, q, drop);
  }

  /** Dropped characters in front of text that starts with a kept one are
      all cut, and nothing else. */
  lemma {:induction false} TrimStartPadded(p: string, y: string, drop: char -> bool)
    requires forall i :: 0 <= i < |p| ==> drop(p[i])
    requires y != [] && !drop(y[0])
    decreases |p|
    ensures TrimStartBy(p + y, drop) == y
  {
    if p == [] {
      assert p + y == y;
    } else {
      assert (p + y)[0] == p[0] && (p + y)[1..] == p[1..] + y;
      TrimStartPadded(p[1..], y, drop);
    }
  }

  /** Dropped characters after text that ends with a kept one are all cut,
      and nothing else. */
  lemma {:induction false} TrimEndPadded(y: string, q: string, drop: char -> bool)
    requires forall i :: 0 <= i < |q| ==> drop(q[i])
    requires y != [] && !drop(y[|y| - 1])
    decreases |q|
    ensures TrimEndBy(y + q, drop) == y
  {
    if q == [] {
      assert y + q == y;
    } else {
      var s := y + q;
      assert s[|s| - 1] == q[|q| - 1] && s[..|s| - 1] == y + q[..|q| - 1];
      TrimEndPadded(y, q[..|q| - 1], drop);
    }
  }

  /** Text whose ends are not whitespace is its own trim. */
  lemma TrimUnchanged(x: string)
    requires x != [] && !IsWhitespace(x[0]) && !IsWhitespace(x[|x| - 1])
    ensures Trim(x) == x
  {
    TrimByPadded([], x, [], IsWhitespace);
    assert [] + x + [] == x;
  }

  /** A string is blank exactly when trimming leaves nothing. */
  lemma BlankIffTrimEmpty(s: string)
    ensures IsBlank(s) <==> Trim(s) == []
  {
  }

  /** Trimming twice is trimming once. */
  lemma TrimIdempotent(s: string)
    ensures Trim(Trim(s)) == Trim(s)
  {
    var r := Trim(s);
    TrimBySlice(s, IsWhitespace);
    if r != [] {
      assert TrimStartBy(r, IsWhitespace) == r;
      assert TrimEndBy(r, IsWhitespace) == r;
    }
  }

  /** A trimmed string is never blank unless it is empty. */
  lemma TrimmedNotBlankUnlessEmpty(s: string)
    ensures IsBlank(Trim(s)) <==> Trim(s) == []
  {
    TrimIdempotent(s);
    BlankIffTrimEmpty(Trim(s));
  }

  // ------------------------------------------------------------ case folding

  /** ASCII lower-casing of one character. */
  function LowerChar(c: char): char {
    if 'A' <= c <= 'Z' then (c as int + 32) as char else c
  }

  /** ASCII lower-casing, character by character. */
  function Lower(s: string): (r: string)
    ensures |r| == |s|
    ensures forall i :: 0 <= i < |s| ==> r[i] == LowerChar(s[i])
  {
    seq(|s|, i requires 0 <= i < |s| => LowerChar(s[i]))
  }

  /** Kotlin `equals(other, ignoreCase = true)`, with ASCII folding. */
  predicate EqualsIgnoreCase(a: string, b: string) {
    Lower(a) == Lower(b)
  }

  // ------------------------------------------------------ prefixes, searching

  predicate StartsWith(s: string, p: string) {
    |p| <= |s| && s[..|p|] == p
  }

  predicate EndsWith(s: string, p: string) {
    |p| <= |s| && s[|s| - |p|..] == p
  }

  /** `p` occurs in `s` at index `k`. */
  predicate MatchAt(s: string, p: string, k: nat) {
    k + |p| <= |s| && s[k..k + |p|] == p
  }

  /** Kotlin `indexOf(p, from)`: the leftmost occurrence at or after `from`. */
  function IndexOfFrom(s: string, p: string, from: nat): (r: Option<nat>)
    decreases |s| - from
    ensures r.Some? ==> from <= r.value && MatchAt(s, p, r.value)
    ensures r.Some? ==> forall k :: from <= k < r.value ==> !MatchAt(s, p, k)
    ensures r.None? ==> forall k :: from <= k ==> !MatchAt(s, p, k)
  {
    if from + |p| > |s| then None
    else if MatchAt(s, p, from) then Some(from)
    else IndexOfFrom(s, p, from + 1)
  }

  /** Kotlin `indexOf(p)`. */
  function IndexOf(s: string, p: string): Option<nat> {
    IndexOfFrom(s, p, 0)
  }

  /** Where `p` matches, each of its characters is in place. */
  lemma MatchChar(s: string, p: string, k: nat, i: nat)
    requires i < |p|
    ensures MatchAt(s, p, k) ==> k + i < |s| && s[k + i] == p[i]
  {
    if MatchAt(s, p, k) {
      assert s[k..k + |p|][i] == s[k + i];
    }
  }

  /** The first match is the one at `k` when nothing matches before it. */
  lemma IndexOfExact(s: string, p: string, k: nat)
    requires MatchAt(s, p, k) && forall j :: 0 <= j < k ==> !MatchAt(s, p, j)
    ensures IndexOf(s, p) == Some(k)
  {
  }

  /** Kotlin `contains(p)`. */
  predicate Contains(s: string, p: string) {
    IndexOf(s, p).Some?
  }

  /** Kotlin `contains(p, ignoreCase = true)`, with ASCII folding. */
  predicate ContainsIgnoreCase(s: string, p: string) {
    Contains(Lower(s), Lower(p))
  }

  /** `Contains` holds exactly when some index matches. */
  lemma ContainsIff(s: string, p: string)
    ensures Contains(s, p) <==> exists k: nat :: MatchAt(s, p, k)
  {
  }

  /** A string contains its own prefix. */
  lemma ContainsPrefix(s: string, p: string)
    requires StartsWith(s, p)
    ensures Contains(s, p)
  {
    assert MatchAt(s, p, 0);
  }

  /** If `p` occurs in the prefix `s` of `s + t`, it occurs in `s + t`. */
  lemma ContainsInPrefix(s: string, t: string, p: string)
    requires Contains(s, p)
    ensures Contains(s + t, p)
  {
    var k := IndexOf(s, p).value;
    assert (s + t)[k..k + |p|] == s[k..k + |p|];
    assert MatchAt(s + t, p, k);
  }

  /** If `p` occurs in `t`, it occurs in `s + t`. */
  lemma ContainsInSuffix(s: string, t: string, p: string)
    requires Contains(t, p)
    ensures Contains(s + t, p)
  {
    var k := IndexOf(t, p).value;
    assert (s + t)[|s| + k..|s| + k + |p|] == t[k..k + |p|];
    assert MatchAt(s + t, p, |s| + k);
  }

  /** What occurs in an occurrence occurs in the whole. */
  lemma ContainsTrans(s: string, t: string, p: string)
    requires Contains(s, t) && Contains(t, p)
    ensures Contains(s, p)
  {
    var i := IndexOf(s, t).value;
    var j := IndexOf(t, p).value;
    assert MatchAt(s, t, i) && MatchAt(t, p, j);
    SliceOfSlice(s, i, i + |t|, j, j + |p|);
    assert MatchAt(s, p, i + j);
    ContainsIff(s, p);
  }

  /** Text is its three slices around two cut points. */
  lemma SplitAt3<T>(s: seq<T>, i: nat, j: nat)
    requires i <= j <= |s|
    ensures s == s[..i] + s[i..j] + s[j..]
  {
    assert forall k :: 0 <= k < |s| ==> s[k] == (s[..i] + s[i..j] + s[j..])[k];
  }

  /** A slice of a slice is a slice of the whole. */
  lemma SliceOfSlice<T>(s: seq<T>, a: nat, b: nat, c: nat, d: nat)
    requires a <= b <= |s| && c <= d <= b - a
    ensures s[a..b][c..d] == s[a + c..a + d]
  {
    forall k | 0 <= k < d - c ensures s[a..b][c..d][k] == s[a + c..a + d][k] {
      assert s[a..b][c..d][k] == s[a..b][c + k];
    }
  }

  /** Kotlin `indexOfFirst { it.equals(name, ignoreCase = true) }` over a
      list of strings. */
  function IndexOfFirstIgnoreCase(list: seq<string>, name: string): (r: Option<nat>)
    ensures r.Some? ==> r.value < |list| && EqualsIgnoreCase(list[r.value], name)
    ensures r.Some? ==> forall k :: 0 <= k < r.value ==> !EqualsIgnoreCase(list[k], name)
    ensures r.None? <==> forall k :: 0 <= k < |list| ==> !EqualsIgnoreCase(list[k], name)
  {
    if list == [] then None
    else if EqualsIgnoreCase(list[0], name) then Some(0)
    else match IndexOfFirstIgnoreCase(list[1..], name)
      case None => None
      case Some(k) => Some(k + 1)
  }

  /** Kotlin `lastIndexOf(c)` for a character. */
  function LastIndexOfChar(s: string, c: char): (r: Option<nat>)
    ensures r.Some? ==> r.value < |s| && s[r.value] == c
    ensures r.Some? ==> forall k :: r.value < k < |s| ==> s[k] != c
    ensures r.None? ==> c !in s
  {
    if s == [] then None
    else if s[|s| - 1] == c then Some(|s| - 1)
    else LastIndexOfChar(s[..|s| - 1], c)
  }

  // --------------------------------------------------------- rewriting chars

  /** Replaces every character satisfying `bad` by `rep`, one for one (a
      regex character-class `replace`). */
  function MapBad(s: string, bad: char -> bool, rep: char): (r: string)
    ensures |r| == |s|
    ensures forall i :: 0 <= i < |s| ==> r[i] == (if bad(s[i]) then rep else s[i])
  {
    seq(|s|, i requires 0 <= i < |s| => if bad(s[i]) then rep else s[i])
  }

  /** Kotlin `replace(c.toString(), rep)`: every `c` becomes the string `rep`. */
  function ReplaceChar(s: string, c: char, rep: string): string {
    if s == [] then []
    else (if s[0] == c then rep else [s[0]]) + ReplaceChar(s[1..], c, rep)
  }

  /** A text without `c` is left as it is. */
  lemma {:induction false} ReplaceCharAbsent(s: string, c: char, rep: string)
    requires c !in s
    decreases |s|
    ensures ReplaceChar(s, c, rep) == s
  {
    if s != [] {
      assert c !in s[1..];
      ReplaceCharAbsent(s[1..], c, rep);
      assert [s[0]] + s[1..] == s;
    }
  }

  /** When the replacement has no `c`, no `c` is left. */
  lemma {:induction false} ReplaceCharRemoves(s: string, c: char, rep: string)
    requires c !in rep
    decreases |s|
    ensures c !in ReplaceChar(s, c, rep)
  {
    if s != [] {
      ReplaceCharRemoves(s[1..], c, rep);
    }
  }

  /** Replacing brings in no character that neither the text nor the
      replacement holds. */
  lemma {:induction false} ReplaceCharKeepsOut(s: string, c: char, rep: string, y: char)
    requires y !in s && y !in rep
    decreases |s|
    ensures y !in ReplaceChar(s, c, rep)
  {
    if s != [] {
      assert y != s[0];
      assert y !in s[1..];
      ReplaceCharKeepsOut(s[1..], c, rep, y);
    }
  }

  /** The number of occurrences of `c` in `s`. */
  function CountChar(s: string, c: char): nat {
    multiset(s)[c]
  }

  // -------------------------------------------------------- split and join

  /** Kotlin `split(d)` for a non-empty delimiter: the pieces between
      non-overlapping occurrences found from the left; empty pieces are kept. */
  function Split(s: string, d: string): (r: seq<string>)
    requires |d| > 0
    decreases |s|
    ensures |r| >= 1
  {
    match IndexOf(s, d)
    case None => [s]
    case Some(i) => [s[..i]] + Split(s[i + |d|..], d)
  }

  /** Kotlin `joinToString(sep)`. */
  function Join(parts: seq<string>, sep: string): (r: string)
    decreases |parts|
  {
    if |parts| == 0 then []
    else if |parts| == 1 then parts[0]
    else parts[0] + sep + Join(parts[1..], sep)
  }

  /** Joining one more part appends the separator and the part. */
  lemma {:induction false} JoinSnoc(parts: seq<string>, x: string, sep: string)
    requires |parts| >= 1
    decreases |parts|
    ensures Join(parts + [x], sep) == Join(parts, sep) + sep + x
  {
    if |parts| > 1 {
      assert (parts + [x])[1..] == parts[1..] + [x];
      JoinSnoc(parts[1..], x, sep);
    }
  }

  /** Joining the pieces of a split with the delimiter rebuilds the input. */
  lemma {:induction false} JoinSplit(s: string, d: string)
    requires |d| > 0
    decreases |s|
    ensures Join(Split(s, d), d) == s
  {
    match IndexOf(s, d)
    case None =>
    case Some(i) =>
      var rest := s[i + |d|..];
      JoinSplit(rest, d);
      FoundSplit(s, d, i);
      JoinCons(s[..i], Split(rest, d), d);
  }

  /** Where the delimiter is first found, the input is the text before it,
      the delimiter and the rest, and the split is the text before it
      followed by the split of the rest. */
  lemma FoundSplit(s: string, d: string, i: nat)
    requires |d| > 0 && IndexOf(s, d) == Some(i)
    ensures i + |d| <= |s|
    ensures Split(s, d) == [s[..i]] + Split(s[i + |d|..], d)
    ensures s == s[..i] + d + s[i + |d|..]
  {
    assert MatchAt(s, d, i);
    SplitAt3(s, i, i + |d|);
  }

  /** Joining a part in front of at least one more. */
  lemma JoinCons(x: string, parts: seq<string>, sep: string)
    requires |parts| >= 1
    ensures Join([x] + parts, sep) == x + sep + Join(parts, sep)
  {
    assert ([x] + parts)[1..] == parts;
  }

  /** With a one-character delimiter, no piece contains it. */
  lemma {:induction false} SplitCharPieces(s: string, c: char)
    decreases |s|
    ensures forall k :: 0 <= k < |Split(s, [c])| ==> c !in Split(s, [c])[k]
  {
    match IndexOf(s, [c])
    case None =>
      forall j | 0 <= j < |s| ensures s[j] != c {
        assert !MatchAt(s, [c], j);
      }
    case Some(i) =>
      SplitCharPieces(s[i + 1..], c);
      forall j | 0 <= j < i ensures s[j] != c {
        assert !MatchAt(s, [c], j);
      }
  }

  /** For a one-character pattern: the found index holds the character and
      nothing before it does; no index means the character does not occur. */
  lemma IndexOfChar(s: string, c: char)
    ensures IndexOf(s, [c]).Some? ==> var i := IndexOf(s, [c]).value;
      i < |s| && s[i] == c && c !in s[..i]
    ensures IndexOf(s, [c]).None? ==> c !in s
  {
    match IndexOf(s, [c])
    case Some(i) =>
      assert s[i..i + 1][0] == s[i];
      forall j | 0 <= j < i ensures s[j] != c {
        assert !MatchAt(s, [c], j);
        assert s[j..j + 1][0] == s[j];
      }
    case None =>
      forall j | 0 <= j < |s| ensures s[j] != c {
        assert !MatchAt(s, [c], j);
        assert s[j..j + 1][0] == s[j];
      }
  }

  /** Splitting on a character that does not occur gives the whole input. */
  lemma SplitAbsent(s: string, c: char)
    requires c !in s
    ensures Split(s, [c]) == [s]
  {
    forall k: nat | k < |s| ensures !MatchAt(s, [c], k) {
      assert s[k..k + 1][0] == s[k] != c;
    }
  }

  /** Splitting `a + [c] + b`, where `a` has no `c`, gives `a` followed by
      the pieces of `b`. */
  lemma SplitCons(a: string, c: char, b: string)
    requires c !in a
    ensures Split(a + [c] + b, [c]) == [a] + Split(b, [c])
  {
    var s := a + [c] + b;
    assert MatchAt(s, [c], |a|);
    forall k | 0 <= k < |a| ensures !MatchAt(s, [c], k) {
      assert s[k] == a[k];
    }
    var i := IndexOf(s, [c]).value;
    assert i == |a|;
    assert s[..i] == a;
    assert s[i + 1..] == b;
  }

  /** Kotlin `filter`. */
  function Filter<T>(s: seq<T>, keep: T -> bool): (r: seq<T>)
    ensures |r| <= |s|
    ensures forall x :: x in r ==> x in s && keep(x)
    ensures forall x :: x in s && keep(x) ==> x in r
  {
    if s == [] then [] else (if keep(s[0]) then [s[0]] else []) + Filter(s[1..], keep)
  }

  /** Filtering keeps every occurrence of a passing element and none of
      any other. */
  lemma {:induction false} FilterCount<T>(s: seq<T>, keep: T -> bool, x: T)
    decreases |s|
    ensures multiset(Filter(s, keep))[x] == if keep(x) then multiset(s)[x] else 0
  {
    if s != [] {
      FilterCount(s[1..], keep, x);
      assert s == [s[0]] + s[1..];
    }
  }

  /** Filtering with a test every element passes keeps everything. */
  lemma {:induction false} FilterAll<T>(s: seq<T>, keep: T -> bool)
    requires forall k :: 0 <= k < |s| ==> keep(s[k])
    decreases |s|
    ensures Filter(s, keep) == s
  {
    if s != [] {
      FilterAll(s[1..], keep);
      assert s == [s[0]] + s[1..];
    }
  }

  /** Filtering with a test no element passes keeps nothing. */
  lemma {:induction false} FilterNone<T>(s: seq<T>, keep: T -> bool)
    requires forall k :: 0 <= k < |s| ==> !keep(s[k])
    decreases |s|
    ensures Filter(s, keep) == []
  {
    if s != [] {
      FilterNone(s[1..], keep);
    }
  }

  /** One more element is kept, at the end, exactly when it passes. */
  lemma {:induction false} FilterSnoc<T>(s: seq<T>, x: T, keep: T -> bool)
    decreases |s|
    ensures Filter(s + [x], keep) == Filter(s, keep) + (if keep(x) then [x] else [])
  {
    if s == [] {
      assert [] + [x] == [x];
    } else {
      assert (s + [x])[0] == s[0] && (s + [x])[1..] == s[1..] + [x];
      FilterSnoc(s[1..], x, keep);
    }
  }

  /** Every character of a piece of a split comes from the input. */
  lemma {:induction false} SplitPiecesChars(s: string, d: string)
    requires |d| > 0
    decreases |s|
    ensures forall k, ch :: 0 <= k < |Split(s, d)| && ch in Split(s, d)[k] ==> ch in s
  {
    match IndexOf(s, d)
    case None =>
    case Some(i) =>
      var rest := s[i + |d|..];
      SplitPiecesChars(rest, d);
      assert Split(s, d) == [s[..i]] + Split(rest, d);
      forall k, ch | 0 <= k < |Split(s, d)| && ch in Split(s, d)[k] ensures ch in s {
        if k == 0 {
          assert ch in s[..i];
        } else {
          assert Split(s, d)[k] == Split(rest, d)[k - 1];
          assert ch in rest;
        }
      }
  }

  // ----------------------------------------------------- decimal integers

  const MIN_LONG: int := -0x8000_0000_0000_0000
  const MAX_LONG: int := 0x7FFF_FFFF_FFFF_FFFF
  const MIN_INT: int := -0x8000_0000
  const MAX_INT: int := 0x7FFF_FFFF

  predicate IsDigit(c: char) {
    '0' <= c <= '9'
  }

  predicate AllDigits(s: string) {
    forall i :: 0 <= i < |s| ==> IsDigit(s[i])
  }

  function DigitValue(c: char): nat
    requires IsDigit(c)
  {
    c as int - '0' as int
  }

  /** The value of a run of decimal digits, most significant first. */
  function DigitsValue(s: string): nat
    requires AllDigits(s)
  {
    if s == [] then 0 else DigitsValue(s[..|s| - 1]) * 10 + DigitValue(s[|s| - 1])
  }

  /** The optional sign and the magnitude of a decimal literal, or None when
      the text is not one (no digits, or a character other than a digit
      after the optional leading `+`/`-`). */
  function ParseInteger(s: string): (r: Option<int>)
    ensures r.Some? ==> s != []
    ensures AllDigits(s) && s != [] ==> r == Some(DigitsValue(s))
  {
    if s == [] then None
    else
      var hasSign := s[0] == '-' || s[0] == '+';
      var digits := if hasSign then s[1..] else s;
      if digits == [] || !AllDigits(digits) then None
      else
        var magnitude: int := DigitsValue(digits);
        Some(if s[0] == '-' then -magnitude else magnitude)
  }

  /** Kotlin `toLongOrNull()`: a decimal literal within the 64-bit range. */
  function ParseLong(s: string): (r: Option<int>)
    ensures r.Some? ==> MIN_LONG <= r.value <= MAX_LONG
    ensures r.Some? <==> ParseInteger(s).Some? && MIN_LONG <= ParseInteger(s).value <= MAX_LONG
  {
    match ParseInteger(s)
    case Some(v) => if MIN_LONG <= v <= MAX_LONG then Some(v) else None
    case None => None
  }

  /** Kotlin `toIntOrNull()`: a decimal literal within the 32-bit range. */
  function ParseInt(s: string): (r: Option<int>)
    ensures r.Some? ==> MIN_INT <= r.value <= MAX_INT
    ensures r.Some? <==> ParseInteger(s).Some? && MIN_INT <= ParseInteger(s).value <= MAX_INT
  {
    match ParseInteger(s)
    case Some(v) => if MIN_INT <= v <= MAX_INT then Some(v) else None
    case None => None
  }

  function DigitChar(d: nat): (c: char)
    requires d < 10
    ensures IsDigit(c) && DigitValue(c) == d
  {
    ('0' as int + d) as char
  }

  /** Kotlin `Int.toString()` for a non-negative number. */
  function NatToString(n: nat): (r: string)
    ensures r != [] && AllDigits(r)
  {
    if n < 10 then [DigitChar(n)] else NatToString(n / 10) + [DigitChar(n % 10)]
  }

  /** Kotlin `toString()` of an integer. */
  function IntToString(i: int): (r: string)
    ensures r != []
  {
    if i < 0 then "-" + NatToString(-i) else NatToString(i)
  }

  /** Reading back a rendered number gives the number. */
  lemma {:induction false} NatToStringValue(n: nat)
    ensures DigitsValue(NatToString(n)) == n
  {
    if n >= 10 {
      NatToStringValue(n / 10);
      var s := NatToString(n);
      assert s[..|s| - 1] == NatToString(n / 10);
    }
  }

  /** `toLongOrNull` inverts `toString` on the 64-bit range. */
  lemma ParseLongIntToString(i: int)
    requires MIN_LONG <= i <= MAX_LONG
    ensures ParseLong(IntToString(i)) == Some(i)
  {
    if i < 0 {
      NatToStringValue(-i);
      assert IntToString(i)[1..] == NatToString(-i);
    } else {
      NatToStringValue(i);
    }
  }

  /** `toIntOrNull` inverts `toString` on the 32-bit range. */
  lemma ParseIntIntToString(i: int)
    requires MIN_INT <= i <= MAX_INT
    ensures ParseInt(IntToString(i)) == Some(i)
  {
    ParseLongIntToString(i);
  }

  /** A rendered number has no whitespace to trim. */
  lemma IntToStringTrimmed(i: int)
    ensures Trim(IntToString(i)) == IntToString(i)
  {
    IntToStringEnds(i);
    TrimUnchanged(IntToString(i));
  }

  /** A rendered number starts with a minus sign or a digit and ends with a
      digit; none of those is whitespace or a double quote. */
  lemma IntToStringEnds(i: int)
    ensures var r := IntToString(i);
      && (r[0] == '-' || IsDigit(r[0])) && IsDigit(r[|r| - 1])
      && !IsWhitespace(r[0]) && !IsWhitespace(r[|r| - 1])
      && r[0] != '"' && r[|r| - 1] != '"'
  {
    var r := IntToString(i);
    var digits := if i < 0 then NatToString(-i) else NatToString(i);
    assert r[|r| - 1] == digits[|digits| - 1];
    assert IsDigit(digits[|digits| - 1]);
    assert r[0] == '-' || r[0] == digits[0];
    assert IsDigit(digits[0]);
  }

  function Pow10(k: nat): nat {
    if k == 0 then 1 else 10 * Pow10(k - 1)
  }

  lemma {:induction false} Pow10Positive(k: nat)
    requires k >= 1
    ensures Pow10(k) >= 10
  {
    if k > 1 {
      Pow10Positive(k - 1);
    }
  }

  /** A number has at most `k` decimal digits exactly when it is below
      10^k. */
  lemma {:induction false} NatToStringLength(n: nat, k: nat)
    requires k >= 1
    decreases k
    ensures |NatToString(n)| <= k <==> n < Pow10(k)
  {
    if n >= 10 && k > 1 {
      NatToStringLength(n / 10, k - 1);
    } else if n >= 10 {
      assert k == 1 && Pow10(k) == 10;
      assert NatToString(n / 10) != [];
      assert |NatToString(n)| == |NatToString(n / 10)| + 1;
    } else {
      Pow10Positive(k);
    }
  }

  /** Exactly `k` digits means from 10^(k-1) up to 10^k - 1. */
  lemma DigitCount(n: nat, k: nat)
    requires k >= 2
    ensures |NatToString(n)| == k <==> Pow10(k - 1) <= n < Pow10(k)
  {
    NatToStringLength(n, k);
    NatToStringLength(n, k - 1);
  }

  /** Distinct numbers render to distinct strings. */
  lemma NatToStringInjective(m: nat, n: nat)
    requires NatToString(m) == NatToString(n)
    ensures m == n
  {
    NatToStringValue(m);
    NatToStringValue(n);
  }
}
