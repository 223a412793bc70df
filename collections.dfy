/** Kotlin collection operations the app relies on: `distinct()` and the
    insertion-ordered `linkedSetOf`/`addAll`, the stable `sortedBy`/`sorted`,
    and the natural order of strings (`String.compareTo`). */
module Collections {
  import opened Wrappers
  import Text

  ghost predicate NoDuplicates<T>(s: seq<T>) {
    forall i, j :: 0 <= i < j < |s| ==> s[i] != s[j]
  }

  /** `acc.addAll(s)` on an insertion-ordered set held as the sequence `acc`:
      each element not yet present is appended, in order. */
  function AddAll<T(==)>(acc: seq<T>, s: seq<T>): seq<T>
    decreases |s|
  {
    if s == [] then acc
    else AddAll(if s[0] in acc then acc else acc + [s[0]], s[1..])
  }

  /** What `AddAll` keeps: no duplicates where there were none, exactly
      the elements of both, and the accumulated ones first, unchanged. */
  lemma {:induction false} AddAllFacts<T(!new)>(acc: seq<T>, s: seq<T>)
    decreases |s|
    ensures NoDuplicates(acc) ==> NoDuplicates(AddAll(acc, s))
    ensures forall x :: x in AddAll(acc, s) <==> x in acc || x in s
    ensures |acc| <= |AddAll(acc, s)| && AddAll(acc, s)[..|acc|] == acc
  {
    if s != [] {
      var next := if s[0] in acc then acc else acc + [s[0]];
      AddAllFacts(next, s[1..]);
      var r := AddAll(acc, s);
      assert r[..|next|] == next;
      assert next[..|acc|] == acc;
      assert r[..|acc|] == r[..|next|][..|acc|];
      forall x ensures x in s <==> x == s[0] || x in s[1..] {
        assert s == [s[0]] + s[1..];
      }
    }
  }

  /** Adding one more element keeps what is there and appends the element
      only when it is new: the loop view of `AddAll`. */
  lemma {:induction false} AddAllSnoc<T(!new)>(acc: seq<T>, s: seq<T>, x: T)
    decreases |s|
    ensures AddAll(acc, s + [x]) ==
      (if x in AddAll(acc, s) then AddAll(acc, s) else AddAll(acc, s) + [x])
  {
    if s == [] {
      assert s + [x] == [x];
    } else {
      assert (s + [x])[1..] == s[1..] + [x];
      AddAllSnoc(if s[0] in acc then acc else acc + [s[0]], s[1..], x);
    }
  }

  /** Adding two sequences one after the other adds their concatenation. */
  lemma {:induction false} AddAllAppend<T(!new)>(acc: seq<T>, a: seq<T>, b: seq<T>)
    decreases |a|
    ensures AddAll(acc, a + b) == AddAll(AddAll(acc, a), b)
  {
    if a == [] {
      assert a + b == b;
    } else {
      assert (a + b)[0] == a[0] && (a + b)[1..] == a[1..] + b;
      AddAllAppend(if a[0] in acc then acc else acc + [a[0]], a[1..], b);
    }
  }

  /** Kotlin `distinct()`: first occurrences, in order. */
  function Distinct<T(==,!new)>(s: seq<T>): (r: seq<T>)
    ensures NoDuplicates(r)
    ensures forall x :: x in r <==> x in s
    ensures |r| <= |s|
  {
    DistinctLength(s);
    AddAllFacts([], s);
    AddAll([], s)
  }

  lemma {:induction false} DistinctLength<T(!new)>(s: seq<T>)
    ensures |AddAll([], s)| <= |s|
  {
    AddAllBound([], s);
  }

  lemma {:induction false} AddAllBound<T(!new)>(acc: seq<T>, s: seq<T>)
    decreases |s|
    ensures |AddAll(acc, s)| <= |acc| + |s|
  {
    if s != [] {
      AddAllBound(if s[0] in acc then acc else acc + [s[0]], s[1..]);
    }
  }

  /** A sequence without duplicates is its own `distinct()`. */
  lemma {:induction false} AddAllFresh<T(!new)>(acc: seq<T>, s: seq<T>)
    requires NoDuplicates(acc + s)
    decreases |s|
    ensures AddAll(acc, s) == acc + s
  {
    if s != [] {
      assert s[0] !in acc by {
        forall i | 0 <= i < |acc| ensures acc[i] != s[0] {
          assert (acc + s)[i] == acc[i] && (acc + s)[|acc|] == s[0];
        }
      }
      assert acc + [s[0]] + s[1..] == acc + s;
      AddAllFresh(acc + [s[0]], s[1..]);
    }
  }

  /** The last element of a concatenation with a non-empty end is the
      end's last element. */
  lemma LastOfAppend<T>(a: seq<T>, b: seq<T>)
    requires b != []
    ensures (a + b)[|a + b| - 1] == b[|b| - 1]
  {
  }

  /** Kotlin `mapNotNull`: the present results of `f`, in order. */
  function MapNotNull<T, U>(s: seq<T>, f: T -> Option<U>): (r: seq<U>)
    ensures |r| <= |s|
  {
    if s == [] then []
    else
      var last := f(s[|s| - 1]);
      MapNotNull(s[..|s| - 1], f) + (if last.Some? then [last.value] else [])
  }

  /** One more element adds its result, if it has one, at the end. */
  lemma MapNotNullSnoc<T, U>(s: seq<T>, x: T, f: T -> Option<U>)
    ensures MapNotNull(s + [x], f) == MapNotNull(s, f) + (if f(x).Some? then [f(x).value] else [])
  {
    assert (s + [x])[..|s|] == s;
  }

  /** `map` with a step that can fail: every result, or nothing as soon as
      one element fails. */
  function MapAll<T, U>(s: seq<T>, f: T -> Option<U>): (r: Option<seq<U>>)
    ensures r.Some? ==> (|r.value| == |s| && forall i :: 0 <= i < |s| ==> f(s[i]) == Some(r.value[i]))
    ensures r.None? <==> exists i :: 0 <= i < |s| && f(s[i]).None?
  {
    if s == [] then Some([])
    else
      var init := s[..|s| - 1];
      assert forall i :: 0 <= i < |init| ==> init[i] == s[i];
      match MapAll(init, f)
      case None => None
      case Some(rs) =>
        match f(s[|s| - 1])
        case None => None
        case Some(x) => Some(rs + [x])
  }

  /** Kotlin `firstNotNullOfOrNull`: the result of the first element for
      which `f` gives one. */
  function FirstNotNull<T, U>(s: seq<T>, f: T -> Option<U>): (r: Option<U>)
    ensures r.Some? ==> exists i :: (0 <= i < |s| && f(s[i]) == r
                                     && forall j :: 0 <= j < i ==> f(s[j]).None?)
    ensures r.None? <==> forall i :: 0 <= i < |s| ==> f(s[i]).None?
  {
    if s == [] then None
    else if f(s[0]).Some? then f(s[0])
    else
      var r := FirstNotNull(s[1..], f);
      assert forall i :: 0 < i < |s| ==> s[i] == s[1..][i - 1];
      r
  }

  /** The first element that yields a value decides. */
  lemma {:induction false} FirstNotNullAt<T, U>(s: seq<T>, f: T -> Option<U>, i: nat)
    requires i < |s| && f(s[i]).Some? && forall j :: 0 <= j < i ==> f(s[j]).None?
    decreases i
    ensures FirstNotNull(s, f) == f(s[i])
  {
    if i > 0 {
      assert f(s[0]).None?;
      assert forall j :: 0 <= j < i - 1 ==> s[1..][j] == s[j + 1];
      FirstNotNullAt(s[1..], f, i - 1);
    }
  }

  /** A value is among the results exactly when some element yields it. */
  lemma {:induction false} MapNotNullMembers<T, U>(s: seq<T>, f: T -> Option<U>, y: U)
    ensures y in MapNotNull(s, f) <==> exists i :: 0 <= i < |s| && f(s[i]) == Some(y)
  {
    if s != [] {
      var init := s[..|s| - 1];
      MapNotNullMembers(init, f, y);
      assert forall i :: 0 <= i < |init| ==> init[i] == s[i];
    }
  }

  /** Two equal elements at distinct positions count twice. */
  lemma Multiplicity<T>(s: seq<T>, i: nat, j: nat)
    requires i < j < |s| && s[i] == s[j]
    ensures multiset(s)[s[i]] >= 2
  {
    assert s == s[..i] + [s[i]] + s[i + 1..j] + [s[j]] + s[j + 1..];
  }

  /** Without duplicates nothing counts twice. */
  lemma {:induction false} MultiplicityOfDistinct<T>(s: seq<T>, x: T)
    requires NoDuplicates(s)
    ensures multiset(s)[x] <= 1
  {
    if s != [] {
      assert s == [s[0]] + s[1..];
      MultiplicityOfDistinct(s[1..], x);
      if s[0] == x {
        assert x !in multiset(s[1..]);
      }
    }
  }

  /** A rearrangement of a duplicate-free sequence is duplicate-free. */
  lemma PermutationNoDuplicates<T>(a: seq<T>, b: seq<T>)
    requires multiset(a) == multiset(b) && NoDuplicates(a)
    ensures NoDuplicates(b)
  {
    forall i, j | 0 <= i < j < |b| ensures b[i] != b[j] {
      MultiplicityOfDistinct(a, b[i]);
      if b[i] == b[j] {
        Multiplicity(b, i, j);
      }
    }
  }

  // -------------------------------------------------------------- ordering

  /** The natural order of strings: lexicographic, a prefix first. */
  predicate StrLe(a: string, b: string)
    decreases |a|
  {
    a == [] || (b != [] && (a[0] < b[0] || (a[0] == b[0] && StrLe(a[1..], b[1..]))))
  }

  lemma {:induction false} StrLeTotal(a: string, b: string)
    decreases |a|
    ensures StrLe(a, b) || StrLe(b, a)
  {
    if a != [] && b != [] && a[0] == b[0] {
      StrLeTotal(a[1..], b[1..]);
    }
  }

  lemma {:induction false} StrLeTrans(a: string, b: string, c: string)
    requires StrLe(a, b) && StrLe(b, c)
    decreases |a|
    ensures StrLe(a, c)
  {
    if a != [] && a[0] == b[0] && b[0] == c[0] {
      StrLeTrans(a[1..], b[1..], c[1..]);
    }
  }

  lemma {:induction false} StrLeAntisymmetric(a: string, b: string)
    requires StrLe(a, b) && StrLe(b, a)
    decreases |a|
    ensures a == b
  {
    if a != [] {
      StrLeAntisymmetric(a[1..], b[1..]);
      assert a == [a[0]] + a[1..] && b == [b[0]] + b[1..];
    }
  }

  ghost predicate IsTotalPreorder<T(!new)>(le: (T, T) -> bool) {
    (forall a, b :: le(a, b) || le(b, a))
    && (forall a, b, c :: le(a, b) && le(b, c) ==> le(a, c))
  }

  predicate SortedBy<T>(s: seq<T>, le: (T, T) -> bool) {
    forall i, j :: 0 <= i < j < |s| ==> le(s[i], s[j])
  }

  predicate IntLe(a: int, b: int) {
    a <= b
  }

  lemma IntLeTotal()
    ensures IsTotalPreorder(IntLe)
  {
  }

  /** Inserts `x` before the first element it precedes, so that among
      equivalent elements the earlier input stays first. */
  function Insert<T(!new)>(x: T, s: seq<T>, le: (T, T) -> bool): (r: seq<T>)
    ensures multiset(r) == multiset(s) + multiset{x}
  {
    if s == [] then [x]
    else if le(x, s[0]) then [x] + s
    else
      assert s == [s[0]] + s[1..];
      [s[0]] + Insert(x, s[1..], le)
  }

  lemma {:induction false} InsertSorted<T(!new)>(x: T, s: seq<T>, le: (T, T) -> bool)
    requires IsTotalPreorder(le) && SortedBy(s, le)
    decreases |s|
    ensures SortedBy(Insert(x, s, le), le)
  {
    if s != [] && !le(x, s[0]) {
      var rest := Insert(x, s[1..], le);
      InsertSorted(x, s[1..], le);
      assert le(s[0], x);
      forall j | 0 <= j < |rest| ensures le(s[0], rest[j]) {
        assert rest[j] in multiset(s[1..]) + multiset{x};
        if rest[j] != x {
          assert rest[j] in s[1..];
        }
      }
    }
  }

  /** Kotlin's stable `sortedBy`/`sorted`: ordered and a permutation of the
      input. */
  function SortBy<T(!new)>(s: seq<T>, le: (T, T) -> bool): (r: seq<T>)
    requires IsTotalPreorder(le)
    ensures multiset(r) == multiset(s)
    ensures SortedBy(r, le)
  {
    if s == [] then []
    else
      assert s == [s[0]] + s[1..];
      InsertSorted(s[0], SortBy(s[1..], le), le);
      Insert(s[0], SortBy(s[1..], le), le)
  }

  /** The elements `le` ranks level with `k`. */
  function LevelWith<T>(le: (T, T) -> bool, k: T): T -> bool {
    y => le(k, y) && le(y, k)
  }

  /** Inserting `x` puts it before every element level with it and moves
      no other element of its level. */
  lemma {:induction false} InsertKeepsLevelOrder<T(!new)>(x: T, t: seq<T>, le: (T, T) -> bool, k: T)
    requires IsTotalPreorder(le)
    decreases |t|
    ensures Text.Filter(Insert(x, t, le), LevelWith(le, k))
         == (if LevelWith(le, k)(x) then [x] else []) + Text.Filter(t, LevelWith(le, k))
  {
    var level := LevelWith(le, k);
    if t != [] {
      if le(x, t[0]) {
        FilterCons(x, t, level);
      } else {
        var rest := Insert(x, t[1..], le);
        InsertKeepsLevelOrder(x, t[1..], le, k);
        FilterCons(t[0], rest, level);
        FilterCons(t[0], t[1..], level);
        assert t == [t[0]] + t[1..];
        LevelRanked(le, k, x, t[0]);
      }
    }
  }

  /** Filtering a sequence with a first element: that element if it
      passes, then the rest filtered. */
  lemma FilterCons<T>(x: T, t: seq<T>, keep: T -> bool)
    ensures Text.Filter([x] + t, keep) == (if keep(x) then [x] else []) + Text.Filter(t, keep)
  {
    assert ([x] + t)[0] == x && ([x] + t)[1..] == t;
  }

  /** Two elements level with `k` are ranked either way. */
  lemma LevelRanked<T(!new)>(le: (T, T) -> bool, k: T, x: T, y: T)
    requires IsTotalPreorder(le)
    ensures LevelWith(le, k)(x) && LevelWith(le, k)(y) ==> le(x, y)
  {
    assert le(x, k) && le(k, y) ==> le(x, y);
  }

  /** `sortedBy` is stable: the elements of any one level come out in
      their input order. */
  lemma {:induction false} SortByStable<T(!new)>(s: seq<T>, le: (T, T) -> bool, k: T)
    requires IsTotalPreorder(le)
    decreases |s|
    ensures Text.Filter(SortBy(s, le), LevelWith(le, k)) == Text.Filter(s, LevelWith(le, k))
  {
    if s != [] {
      SortByStable(s[1..], le, k);
      InsertKeepsLevelOrder(s[0], SortBy(s[1..], le), le, k);
    }
  }

  /** Sorting keeps exactly the elements of the input. */
  lemma SortByMembers<T(!new)>(s: seq<T>, le: (T, T) -> bool, x: T)
    requires IsTotalPreorder(le)
    ensures x in SortBy(s, le) <==> x in s
  {
    assert x in multiset(SortBy(s, le)) <==> x in multiset(s);
  }

  /** Sorted integers without duplicates are strictly increasing. */
  lemma SortedDistinctIncreasing(s: seq<int>)
    requires SortedBy(s, IntLe) && NoDuplicates(s)
    ensures forall i, j :: 0 <= i < j < |s| ==> s[i] < s[j]
  {
  }

  /** A sorted sequence without duplicates is the sort of any permutation of
      it: the order does not depend on how the input was arranged. */
  lemma {:induction false} SortedUnique(a: seq<int>, b: seq<int>)
    requires SortedBy(a, IntLe) && SortedBy(b, IntLe) && multiset(a) == multiset(b)
    decreases |a|
    ensures a == b
  {
    if a != [] {
      SortedSameHead(a, b);
      TailMultiset(a);
      TailMultiset(b);
      SortedUnique(a[1..], b[1..]);
      assert a == [a[0]] + a[1..] && b == [b[0]] + b[1..];
    }
  }

  /** Two sorted permutations of a non-empty sequence start alike. */
  lemma SortedSameHead(a: seq<int>, b: seq<int>)
    requires SortedBy(a, IntLe) && SortedBy(b, IntLe) && multiset(a) == multiset(b) && a != []
    ensures b != [] && a[0] == b[0]
  {
    assert |b| == |multiset(b)| == |a|;
    assert a[0] in multiset(b) && b[0] in multiset(a);
    var i :| 0 <= i < |a| && a[i] == b[0];
    var j :| 0 <= j < |b| && b[j] == a[0];
    assert i == 0 || IntLe(a[0], a[i]);
    assert j == 0 || IntLe(b[0], b[j]);
  }

  /** The rest of a sequence holds its elements but the first. */
  lemma TailMultiset<T>(a: seq<T>)
    requires a != []
    ensures multiset(a[1..]) == multiset(a) - multiset{a[0]}
  {
    assert a == [a[0]] + a[1..];
  }
}
