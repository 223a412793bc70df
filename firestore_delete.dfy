/** The desktop Firestore deleter: a participant document and everything
    below it, removed leaf collections first, against an in-memory store.

    The store is the tree of documents under the participant document;
    every document in it exists (Firestore's field-less "missing"
    documents, which page queries skip, are not part of the model).
    Which documents are gone is the deletion log: the addresses removed, in
    the order their batch commits succeeded. A document whose address is in
    the log no longer exists; its subcollections stay in the tree (Firestore
    keeps them, orphaned, when the parent goes first). Every network call
    (a page query, a `listCollections`, a batch commit, the final delete) is
    numbered in the order it is made, and `fails(k)` says whether the k-th
    call throws. */
module FirestoreDelete {
  import opened Wrappers
  import opened DocPath

  /** A document and its subcollections; a collection and its documents in
      `__name__` order. The ids are shown in the progress events only. */
  datatype Doc = Doc(id: string, subs: seq<Coll>)
  datatype Coll = Coll(id: string, docs: seq<Doc>)

  /** Where a document sits below the participant document: a subcollection
      index, then a document index, repeated. The participant document is
      `[]`. */
  type Addr = seq<nat>

  /** `Child(a, k)`: the address `a` extended by the index `k`. */
  function Child(a: Addr, k: nat): Addr {
    a + [k]
  }

  const MIN_BATCH: int := 1
  const MAX_BATCH: int := 500

  /** `request.batchSize.coerceIn(1, 500)`. */
  function CoerceBatch(size: int): (r: int)
    ensures MIN_BATCH <= r <= MAX_BATCH
    ensures MIN_BATCH <= size <= MAX_BATCH ==> r == size
    ensures size < MIN_BATCH ==> r == MIN_BATCH
    ensures size > MAX_BATCH ==> r == MAX_BATCH
  {
    if size < MIN_BATCH then MIN_BATCH else if size > MAX_BATCH then MAX_BATCH else size
  }

  // ------------------------------------------------------------ the tree

  /** The documents of a subtree: the document itself and all below it. */
  function DocSize(d: Doc): nat
    decreases d, 1
  {
    1 + SubsSize(d, |d.subs|)
  }

  /** The documents below the first `n` subcollections of `d`. */
  function SubsSize(d: Doc, n: nat): nat
    requires n <= |d.subs|
    decreases d, 0, n
  {
    if n == 0 then 0 else SubsSize(d, n - 1) + CollSize(d.subs[n - 1])
  }

  /** The documents of a collection and all below them. */
  function CollSize(c: Coll): nat
    decreases c, 1
  {
    DocsSize(c, |c.docs|)
  }

  /** The subtrees of the first `n` documents of `c`. */
  function DocsSize(c: Coll, n: nat): nat
    requires n <= |c.docs|
    decreases c, 0, n
  {
    if n == 0 then 0 else DocsSize(c, n - 1) + DocSize(c.docs[n - 1])
  }

  /** The documents below the documents `i` to `end - 1` of `c`, without
      those documents themselves. */
  function PageSubsSize(c: Coll, i: nat, end: nat): nat
    requires i <= end <= |c.docs|
    decreases end
  {
    if end == i then 0 else PageSubsSize(c, i, end - 1) + SubsSize(c.docs[end - 1], |c.docs[end - 1].subs|)
  }

  /** `rel` is the address of a document of the subtree of `d`, relative
      to `d`. */
  predicate InDoc(d: Doc, rel: Addr)
    decreases d
  {
    rel == [] || (rel[0] < |d.subs| && InColl(d.subs[rel[0]], rel[1..]))
  }

  /** `rel` is the address of a document of `c` or below, relative to `c`. */
  predicate InColl(c: Coll, rel: Addr)
    decreases c
  {
    |rel| >= 1 && rel[0] < |c.docs| && InDoc(c.docs[rel[0]], rel[1..])
  }

  // ------------------------------------------------------------- the log

  /** No entry of the log is `a`, above `a` or below `a`: the subtree at
      `a` is untouched and so are the documents on the way to it. */
  predicate Unrelated(log: seq<Addr>, a: Addr) {
    forall k :: 0 <= k < |log| ==> !(log[k] <= a) && !(a <= log[k])
  }

  /** Leaf first: no document is removed after one of its ancestors, and
      none is removed twice. */
  predicate LeafFirst(log: seq<Addr>) {
    forall i, j :: 0 <= i < j < |log| ==> !(log[i] <= log[j])
  }

  /** `log` extends `log0` by addresses strictly below `a` whose next index
      is below `j`. */
  predicate Grown(log0: seq<Addr>, log: seq<Addr>, a: Addr, j: nat) {
    log0 <= log && forall k :: |log0| <= k < |log| ==> a < log[k] && log[k][|a|] < j
  }

  /** The entries after `log0` lie below the documents of the collection
      at `a`, not on them. */
  predicate Deep(log0: seq<Addr>, log: seq<Addr>, a: Addr) {
    forall k :: |log0| <= k < |log| ==> |log[k]| > |a| + 1
  }

  /** None of the calls numbered `from` to `to - 1` fails. */
  predicate NoFail(fails: nat -> bool, from: nat, to: nat) {
    forall k :: from <= k < to ==> !fails(k)
  }

  /** `collection.orderBy("__name__").limit(batch)`: the indices of the
      first `batch` documents of the collection at `p` that still exist. */
  function Page(c: Coll, p: Addr, log: seq<Addr>, batch: nat): seq<nat> {
    var live := Live(c, p, log, 0);
    if |live| <= batch then live else live[..batch]
  }

  /** The indices from `from` on of the documents that still exist. */
  function Live(c: Coll, p: Addr, log: seq<Addr>, from: nat): seq<nat>
    decreases |c.docs| - from
  {
    if from >= |c.docs| then []
    else if Child(p, from) in log then Live(c, p, log, from + 1)
    else [from] + Live(c, p, log, from + 1)
  }

  /** The indices `i` to `end - 1`. */
  function Range(i: nat, end: nat): (r: seq<nat>)
    requires i <= end
    ensures |r| == end - i
    ensures forall t :: 0 <= t < |r| ==> r[t] == i + t
  {
    seq(end - i, t requires 0 <= t < end - i => i + t)
  }

  /** The addresses of the documents `i` to `end - 1` of the collection at
      `p`: what one batch commit removes. */
  function PageAddrs(p: Addr, i: nat, end: nat): (r: seq<Addr>)
    requires i <= end
    ensures |r| == end - i
    ensures forall t :: 0 <= t < |r| ==> r[t] == Child(p, i + t)
  {
    seq(end - i, t requires 0 <= t < end - i => Child(p, i + t))
  }

  // ----------------------------------------------------- address lemmas

  /** A prefix of `a + [k]` is a prefix of `a` or all of `a + [k]`. */
  lemma PrefixOfChild(e: Addr, a: Addr, k: nat)
    requires e <= Child(a, k)
    ensures e <= a || e == Child(a, k)
  {
    if |e| <= |a| {
      assert e == Child(a, k)[..|e|] == a[..|e|];
    }
  }

  /** What is unrelated to `a` is unrelated to its children. */
  lemma UnrelatedChild(log: seq<Addr>, a: Addr, k: nat)
    requires Unrelated(log, a)
    ensures Unrelated(log, Child(a, k))
  {
    forall t | 0 <= t < |log| ensures !(log[t] <= Child(a, k)) && !(Child(a, k) <= log[t]) {
      if log[t] <= Child(a, k) {
        PrefixOfChild(log[t], a, k);
      }
    }
  }

  /** Entries below a sibling `a + [j]` with `j < k` are unrelated to
      `a + [k]`. */
  lemma SiblingUnrelated(e: Addr, a: Addr, k: nat)
    requires a < e && e[|a|] < k
    ensures !(e <= Child(a, k)) && !(Child(a, k) <= e)
  {
    if e <= Child(a, k) {
      PrefixOfChild(e, a, k);
    }
    assert Child(a, k)[|a|] == k;
  }

  /** The child at `k` stays unrelated while the log grows below siblings
      before `j`, for `k >= j`. */
  lemma UnrelatedAfter(log0: seq<Addr>, log: seq<Addr>, a: Addr, j: nat, k: nat)
    requires j <= k && Unrelated(log0, Child(a, k)) && Grown(log0, log, a, j)
    ensures Unrelated(log, Child(a, k))
  {
    forall t | 0 <= t < |log| ensures !(log[t] <= Child(a, k)) && !(Child(a, k) <= log[t]) {
      if t < |log0| {
        assert log[t] == log0[t];
      } else {
        SiblingUnrelated(log[t], a, k);
      }
    }
  }

  /** What the subtree at `a + [j]` adds is below `a` with index `j`. */
  lemma GrownStep(log0: seq<Addr>, log: seq<Addr>, log2: seq<Addr>, a: Addr, j: nat, m: nat)
    requires Grown(log0, log, a, j) && Grown(log, log2, Child(a, j), m)
    ensures Grown(log0, log2, a, j + 1)
  {
    forall k | |log0| <= k < |log2| ensures a < log2[k] && log2[k][|a|] < j + 1 {
      if k < |log| {
        assert log2[k] == log[k];
      } else {
        assert Child(a, j) < log2[k];
        assert log2[k][|a|] == Child(a, j)[|a|];
      }
    }
  }

  /** Growth below children smaller than `i`, then below children smaller
      than `end`, is growth below children smaller than `end`. */
  lemma GrownTrans(log0: seq<Addr>, log: seq<Addr>, log2: seq<Addr>, a: Addr, i: nat, end: nat)
    requires i <= end && Grown(log0, log, a, i) && Grown(log, log2, a, end)
    ensures Grown(log0, log2, a, end)
  {
    forall k | |log0| <= k < |log2| ensures a < log2[k] && log2[k][|a|] < end {
      if k < |log| {
        assert log2[k] == log[k];
      }
    }
  }

  /** A document whose address is unrelated to everything in the log is
      not in it. */
  lemma UnrelatedAbsent(log: seq<Addr>, a: Addr)
    requires Unrelated(log, a)
    ensures a !in log
  {
  }

  /** Appending removals that no earlier entry is a prefix of keeps the
      log leaf first. */
  lemma LeafFirstAppend(log: seq<Addr>, more: seq<Addr>)
    requires LeafFirst(log) && LeafFirst(more)
    requires forall s, t :: 0 <= s < |log| && 0 <= t < |more| ==> !(log[s] <= more[t])
    ensures LeafFirst(log + more)
  {
    var all := log + more;
    forall s, t | 0 <= s < t < |all| ensures !(all[s] <= all[t]) {
      if t < |log| {
        assert all[s] == log[s] && all[t] == log[t];
      } else if s < |log| {
        assert all[s] == log[s] && all[t] == more[t - |log|];
      } else {
        assert all[s] == more[s - |log|] && all[t] == more[t - |log|];
      }
    }
  }

  /** The documents of one page, removed together, are apart from each
      other. */
  lemma PageAddrsLeafFirst(p: Addr, i: nat, end: nat)
    requires i <= end
    ensures LeafFirst(PageAddrs(p, i, end))
  {
    var more := PageAddrs(p, i, end);
    forall s, t | 0 <= s < t < |more| ensures !(more[s] <= more[t]) {
      assert more[s][|p|] == i + s && more[t][|p|] == i + t;
    }
  }

  // ------------------------------------------------------- page queries

  /** Before `i` all documents are gone and from `i` on none is. */
  predicate GoneBefore(c: Coll, p: Addr, log: seq<Addr>, i: nat) {
    && i <= |c.docs|
    && (forall k :: 0 <= k < i ==> Child(p, k) in log)
    && (forall k :: i <= k < |c.docs| ==> Child(p, k) !in log)
  }

  lemma {:induction false} LiveSkips(c: Coll, p: Addr, log: seq<Addr>, from: nat, i: nat)
    requires from <= i && GoneBefore(c, p, log, i)
    decreases i - from
    ensures Live(c, p, log, from) == Live(c, p, log, i)
  {
    if from < i {
      LiveSkips(c, p, log, from + 1, i);
    }
  }

  lemma {:induction false} LiveRest(c: Coll, p: Addr, log: seq<Addr>, from: nat, i: nat)
    requires i <= from <= |c.docs| && GoneBefore(c, p, log, i)
    decreases |c.docs| - from
    ensures Live(c, p, log, from) == Range(from, |c.docs|)
  {
    if from < |c.docs| {
      LiveRest(c, p, log, from + 1, i);
      assert Range(from, |c.docs|) == [from] + Range(from + 1, |c.docs|);
    }
  }

  /** When the first `i` documents are gone and the rest are there, the
      page query returns the next `batch` of them, or what is left. */
  lemma PageIsRange(c: Coll, p: Addr, log: seq<Addr>, i: nat, batch: nat)
    requires GoneBefore(c, p, log, i)
    ensures var end := if i + batch <= |c.docs| then i + batch else |c.docs|;
      Page(c, p, log, batch) == Range(i, end)
  {
    LiveSkips(c, p, log, 0, i);
    LiveRest(c, p, log, i, i);
  }

  // ---------------------------------------------------------- the counts

  lemma {:induction false} DocsSizeSplit(c: Coll, i: nat, end: nat)
    requires i <= end <= |c.docs|
    decreases end
    ensures DocsSize(c, end) == DocsSize(c, i) + PageSubsSize(c, i, end) + (end - i)
  {
    if end > i {
      DocsSizeSplit(c, i, end - 1);
    }
  }

  // -------------------------------------------------- the page commit

  /** The state of the loop of `deleteCollectionRecursively` after the
      first `i` documents of the collection at `p`: they are gone, the log
      has grown only below them, and it is still leaf first. */
  predicate Progressed(c: Coll, p: Addr, log0: seq<Addr>, log: seq<Addr>, i: nat) {
    && i <= |c.docs|
    && Grown(log0, log, p, i)
    && (forall k :: 0 <= k < i ==> Child(p, k) in log)
    && LeafFirst(log)
  }

  /** Every document of the subtrees of the first `i` documents is gone. */
  ghost predicate Complete(c: Coll, p: Addr, log: seq<Addr>, i: nat) {
    forall rel :: InColl(c, rel) && rel[0] < i ==> p + rel in log
  }

  /** No entry of the log so far is a prefix of a document of the page:
      earlier entries are elsewhere or below earlier documents, and the
      page's own entries are deeper. */
  lemma CommitOrder(p: Addr, log0: seq<Addr>, log: seq<Addr>, log2: seq<Addr>, i: nat, end: nat)
    requires i <= end && Unrelated(log0, p)
    requires Grown(log0, log, p, i) && log <= log2 && Deep(log, log2, p)
    ensures var more := PageAddrs(p, i, end);
      forall s, t :: 0 <= s < |log2| && 0 <= t < |more| ==> !(log2[s] <= more[t])
  {
    var more := PageAddrs(p, i, end);
    forall s, t | 0 <= s < |log2| && 0 <= t < |more| ensures !(log2[s] <= more[t]) {
      assert more[t] == Child(p, i + t);
      var e := log2[s];
      if s < |log0| {
        assert e == log0[s];
      } else if s < |log| {
        assert e == log[s];
        SiblingUnrelated(e, p, i + t);
      }
    }
  }

  /** The commit of the page `i` to `end - 1` moves the loop state from
      `i` to `end`. */
  lemma CommitStep(c: Coll, p: Addr, log0: seq<Addr>, log: seq<Addr>, log2: seq<Addr>, i: nat, end: nat)
    requires i <= end <= |c.docs| && Unrelated(log0, p) && Progressed(c, p, log0, log, i)
    requires Grown(log, log2, p, end) && Deep(log, log2, p) && LeafFirst(log2)
    ensures Progressed(c, p, log0, log2 + PageAddrs(p, i, end), end)
  {
    var more := PageAddrs(p, i, end);
    var log3 := log2 + more;
    GrownTrans(log0, log, log2, p, i, end);
    CommitOrder(p, log0, log, log2, i, end);
    PageAddrsLeafFirst(p, i, end);
    LeafFirstAppend(log2, more);
    forall k | |log0| <= k < |log3| ensures p < log3[k] && log3[k][|p|] < end {
      if k < |log2| {
        assert log3[k] == log2[k];
      } else {
        assert log3[k] == Child(p, i + (k - |log2|));
      }
    }
    forall k | 0 <= k < end ensures Child(p, k) in log3 {
      if k < i {
        assert Child(p, k) in log;
      } else {
        assert more[k - i] == Child(p, k);
      }
    }
  }

  /** The commit of a page whose subtrees are gone completes the page. */
  lemma CommitComplete(c: Coll, p: Addr, log: seq<Addr>, log2: seq<Addr>, i: nat, end: nat)
    requires i <= end <= |c.docs| && Complete(c, p, log, i) && log <= log2
    requires forall k, rel :: i <= k < end && InDoc(c.docs[k], rel) && rel != [] ==> Child(p, k) + rel in log2
    ensures Complete(c, p, log2 + PageAddrs(p, i, end), end)
  {
    var log3 := log2 + PageAddrs(p, i, end);
    forall rel | InColl(c, rel) && rel[0] < end ensures p + rel in log3 {
      var k := rel[0];
      assert rel == [k] + rel[1..];
      if k < i {
        assert p + rel in log;
      } else if rel[1..] == [] {
        assert p + rel == Child(p, k) == PageAddrs(p, i, end)[k - i];
      } else {
        assert p + rel == Child(p, k) + rel[1..];
      }
    }
  }

  /** A subcollection's subtree gone, below the document at `a`. */
  lemma SubComplete(d: Doc, a: Addr, log: seq<Addr>, log2: seq<Addr>, j: nat)
    requires j < |d.subs| && log <= log2
    requires forall rel :: InDoc(d, rel) && rel != [] && rel[0] < j ==> a + rel in log
    requires forall rel :: InColl(d.subs[j], rel) ==> Child(a, j) + rel in log2
    ensures forall rel :: InDoc(d, rel) && rel != [] && rel[0] < j + 1 ==> a + rel in log2
  {
    forall rel | InDoc(d, rel) && rel != [] && rel[0] < j + 1 ensures a + rel in log2 {
      assert rel == [rel[0]] + rel[1..];
      if rel[0] < j {
        assert a + rel in log;
      } else {
        assert a + rel == Child(a, j) + rel[1..];
      }
    }
  }

  // ------------------------------------------------------- the deletion

  /** `deleteCollectionRecursively(collection, batchSize)` for the
      collection at `p`: page by page, the subcollections of the page's
      documents first, then the page in one batch. A failing page query or
      commit returns the count so far; an empty page, or one shorter than
      the batch, ends the loop. The count is the number of documents
      removed, the log stays leaf first and grows only below `p`, and when
      no call fails the whole subtree is gone and the count is its size. */
  method DeleteCollection(c: Coll, p: Addr, batch: int, log0: seq<Addr>, ops0: nat, fails: nat -> bool)
    returns (deleted: nat, log: seq<Addr>, ops: nat)
    requires batch >= 1 && Unrelated(log0, p) && LeafFirst(log0)
    decreases c, 2
    ensures Grown(log0, log, p, |c.docs|) && LeafFirst(log)
    ensures deleted == |log| - |log0| && ops0 <= ops
    ensures NoFail(fails, ops0, ops) ==>
      deleted == CollSize(c) && forall rel :: InColl(c, rel) ==> p + rel in log
  {
    deleted, log, ops := 0, log0, ops0;
    var i: nat := 0;
    while true
      invariant LoopState(c, p, log0, ops0, fails, i, deleted, log, ops)
      decreases |c.docs| - i
    {
      Remaining(c, p, log0, log, i);
      var page := Page(c, p, log, batch);
      var end := if i + batch <= |c.docs| then i + batch else |c.docs|;
      PageIsRange(c, p, log, i, batch);
      if fails(ops) {
        ops := ops + 1;
        GrownWiden(log0, log, p, i, |c.docs|);
        return;
      }
      ops := ops + 1;
      if page == [] {
        break;
      }
      var committed;
      committed, deleted, log, ops := ClearPage(c, p, batch, i, end, log0, ops0, fails, deleted, log, ops);
      if !committed {
        return;
      }
      i := end;
      if |page| < batch {
        break;
      }
    }
    GrownWiden(log0, log, p, i, |c.docs|);
  }

  /** The state of the page loop after the first `i` documents: they and
      their subtrees are gone (all of them when no call has failed), the
      count is what the log gained, and the calls are numbered on. */
  ghost predicate LoopState(c: Coll, p: Addr, log0: seq<Addr>, ops0: nat, fails: nat -> bool,
                            i: nat, deleted: nat, log: seq<Addr>, ops: nat) {
    && Progressed(c, p, log0, log, i)
    && deleted == |log| - |log0| && ops0 <= ops
    && (NoFail(fails, ops0, ops) ==> deleted == DocsSize(c, i) && Complete(c, p, log, i))
  }

  /** One page `i` to `end - 1` of the loop after its query: the
      subcollections of its documents, then the batch commit. A failing
      commit ends the deletion with the count of what the recursive calls
      removed; a successful one moves the loop state on to `end`. */
  method ClearPage(c: Coll, p: Addr, batch: int, i: nat, end: nat, log0: seq<Addr>, ops0: nat, fails: nat -> bool,
                   deleted0: nat, log1: seq<Addr>, ops1: nat)
    returns (committed: bool, deleted: nat, log: seq<Addr>, ops: nat)
    requires batch >= 1 && i <= end <= |c.docs| && Unrelated(log0, p) && GoneBefore(c, p, log1, i)
    requires LoopState(c, p, log0, ops0, fails, i, deleted0, log1, ops1)
    decreases c, 1
    ensures committed ==> LoopState(c, p, log0, ops0, fails, end, deleted, log, ops)
    ensures !committed ==>
      && Grown(log0, log, p, |c.docs|) && LeafFirst(log)
      && deleted == |log| - |log0| && ops0 <= ops && !NoFail(fails, ops0, ops)
  {
    forall k | i <= k < end ensures Unrelated(log1, Child(p, k)) {
      UnrelatedChild(log0, p, k);
      UnrelatedAfter(log0, log1, p, i, k);
    }
    var subDeleted, log2, ops2 := DeletePage(c, p, i, end, batch, log1, ops1, fails);
    if fails(ops2) {
      GrownTrans(log0, log1, log2, p, i, end);
      GrownWiden(log0, log2, p, end, |c.docs|);
      committed, deleted, log, ops := false, deleted0 + subDeleted, log2, ops2 + 1;
      return;
    }
    CommitStep(c, p, log0, log1, log2, i, end);
    if NoFail(fails, ops0, ops2 + 1) {
      CommitComplete(c, p, log1, log2, i, end);
      DocsSizeSplit(c, i, end);
    }
    committed := true;
    deleted := deleted0 + subDeleted + (end - i);
    log := log2 + PageAddrs(p, i, end);
    ops := ops2 + 1;
  }

  /** The documents from `i` on are all still there. */
  lemma Remaining(c: Coll, p: Addr, log0: seq<Addr>, log: seq<Addr>, i: nat)
    requires Unrelated(log0, p) && Progressed(c, p, log0, log, i)
    ensures GoneBefore(c, p, log, i)
  {
    forall k | i <= k < |c.docs| ensures Child(p, k) !in log {
      UnrelatedChild(log0, p, k);
      UnrelatedAfter(log0, log, p, i, k);
      UnrelatedAbsent(log, Child(p, k));
    }
  }

  lemma GrownWiden(log0: seq<Addr>, log: seq<Addr>, p: Addr, i: nat, n: nat)
    requires i <= n && Grown(log0, log, p, i)
    ensures Grown(log0, log, p, n)
  {
  }

  /** The `for (doc in snapshot.documents)` loop: for each document of the
      page `i` to `end - 1`, its subcollections as `listCollections` gives
      them (none when that call fails), each deleted recursively. The
      count is what the recursive calls removed; all of it lies below the
      page's documents. */
  method DeletePage(c: Coll, p: Addr, i: nat, end: nat, batch: int, log0: seq<Addr>, ops0: nat, fails: nat -> bool)
    returns (deleted: nat, log: seq<Addr>, ops: nat)
    requires i <= end <= |c.docs| && batch >= 1 && LeafFirst(log0)
    requires forall k :: i <= k < end ==> Unrelated(log0, Child(p, k))
    decreases c, 0
    ensures Grown(log0, log, p, end) && Deep(log0, log, p) && LeafFirst(log)
    ensures deleted == |log| - |log0| && ops0 <= ops
    ensures NoFail(fails, ops0, ops) ==>
      && deleted == PageSubsSize(c, i, end)
      && forall k, rel :: i <= k < end && InDoc(c.docs[k], rel) && rel != [] ==> Child(p, k) + rel in log
  {
    deleted, log, ops := 0, log0, ops0;
    for k := i to end
      invariant Grown(log0, log, p, k) && Deep(log0, log, p) && LeafFirst(log)
      invariant deleted == |log| - |log0| && ops0 <= ops
      invariant NoFail(fails, ops0, ops) ==>
        && deleted == PageSubsSize(c, i, k)
        && forall k', rel :: i <= k' < k && InDoc(c.docs[k'], rel) && rel != [] ==> Child(p, k') + rel in log
    {
      var listed := !fails(ops);
      ops := ops + 1;
      if listed {
        UnrelatedAfter(log0, log, p, k, k);
        var d, log2, ops2, counts := DeleteSubcollections(c.docs[k], Child(p, k), batch, log, ops, fails);
        PageStep(c, p, log0, log, log2, i, k);
        deleted, log, ops := deleted + d, log2, ops2;
      } else {
        GrownMore(log0, log, p, k);
      }
    }
  }

  lemma GrownMore(log0: seq<Addr>, log: seq<Addr>, p: Addr, k: nat)
    requires Grown(log0, log, p, k)
    ensures Grown(log0, log, p, k + 1)
  {
  }

  /** The subtrees of one more document of the page. */
  lemma PageStep(c: Coll, p: Addr, log0: seq<Addr>, log: seq<Addr>, log2: seq<Addr>, i: nat, k: nat)
    requires i <= k < |c.docs| && Grown(log0, log, p, k) && Deep(log0, log, p)
    requires Grown(log, log2, Child(p, k), |c.docs[k].subs|)
    ensures Grown(log0, log2, p, k + 1) && Deep(log0, log2, p)
  {
    GrownStep(log0, log, log2, p, k, |c.docs[k].subs|);
    forall t | |log0| <= t < |log2| ensures |log2[t]| > |p| + 1 {
      if t < |log| {
        assert log2[t] == log[t];
      } else {
        assert Child(p, k) < log2[t];
      }
    }
  }

  /** `for (sub in subCols) deletedTotal += deleteCollectionRecursively(sub)`
      for the document at `a`, and the same loop over the participant
      document's subcollections: each subcollection in turn, its count in
      `counts`. */
  method DeleteSubcollections(d: Doc, a: Addr, batch: int, log0: seq<Addr>, ops0: nat, fails: nat -> bool)
    returns (deleted: nat, log: seq<Addr>, ops: nat, counts: seq<nat>)
    requires batch >= 1 && Unrelated(log0, a) && LeafFirst(log0)
    decreases d
    ensures Grown(log0, log, a, |d.subs|) && LeafFirst(log)
    ensures deleted == |log| - |log0| == Sum(counts) && |counts| == |d.subs| && ops0 <= ops
    ensures NoFail(fails, ops0, ops) ==>
      && deleted == SubsSize(d, |d.subs|)
      && forall rel :: InDoc(d, rel) && rel != [] ==> a + rel in log
  {
    deleted, log, ops, counts := 0, log0, ops0, [];
    for j := 0 to |d.subs|
      invariant Grown(log0, log, a, j) && LeafFirst(log)
      invariant deleted == |log| - |log0| == Sum(counts) && |counts| == j && ops0 <= ops
      invariant NoFail(fails, ops0, ops) ==>
        && deleted == SubsSize(d, j)
        && forall rel :: InDoc(d, rel) && rel != [] && rel[0] < j ==> a + rel in log
    {
      UnrelatedChild(log0, a, j);
      UnrelatedAfter(log0, log, a, j, j);
      var n, log2, ops2 := DeleteCollection(d.subs[j], Child(a, j), batch, log, ops, fails);
      GrownStep(log0, log, log2, a, j, |d.subs[j].docs|);
      SumSnoc(counts, n);
      if NoFail(fails, ops0, ops2) {
        SubComplete(d, a, log, log2, j);
      }
      deleted, log, ops, counts := deleted + n, log2, ops2, counts + [n];
    }
  }

  function Sum(s: seq<nat>): nat {
    if s == [] then 0 else Sum(s[..|s| - 1]) + s[|s| - 1]
  }

  lemma SumSnoc(s: seq<nat>, x: nat)
    ensures Sum(s + [x]) == Sum(s) + x
  {
    assert (s + [x])[..|s|] == s;
  }

  // ------------------------------------------------- deleteParticipant

  /** Why `deleteParticipant` stops with an `Error` event. */
  datatype Failure =
    | CredentialsMissing(path: string)
    | BadDocRoot(message: string)
    | ConnectFailed
    | ListFailed

  /** The last event of the flow: an error, or `Finished` with the total. */
  datatype Outcome = Failed(failure: Failure) | Finished(deletedTotal: nat)

  /** The checks `deleteParticipant` makes before it removes anything, in
      order: the credential file exists, the document path normalizes, the
      connection opens, and the participant's `listCollections` succeeds.
      The first that does not hold is the failure. */
  function StartFailure(credentialPath: string, credentialExists: bool, docRoot: string, connects: bool,
                        listFails: bool): (r: Option<Failure>)
    ensures !credentialExists ==> r == Some(CredentialsMissing(credentialPath))
    ensures credentialExists && NormalizeDocPath(docRoot).Err? ==>
      r == Some(BadDocRoot(NormalizeDocPath(docRoot).error))
    ensures credentialExists && NormalizeDocPath(docRoot).Ok? && !connects ==> r == Some(ConnectFailed)
    ensures credentialExists && NormalizeDocPath(docRoot).Ok? && connects && listFails ==> r == Some(ListFailed)
    ensures r.None? <==> credentialExists && NormalizeDocPath(docRoot).Ok? && connects && !listFails
  {
    if !credentialExists then Some(CredentialsMissing(credentialPath))
    else
      var normalized := NormalizeDocPath(docRoot);
      if normalized.Err? then Some(BadDocRoot(normalized.error))
      else if !connects then Some(ConnectFailed)
      else if listFails then Some(ListFailed)
      else None
  }

  /** `deleteParticipant`. When a check before the deletion fails, that
      failure is the outcome and nothing is removed. Otherwise every
      subcollection is deleted, each with its own count, and last the
      participant document itself, which adds one when that delete
      succeeds. The total is the sum of those counts and that one, and it is
      the number of documents removed. The log is leaf first, so the
      participant document goes last; when no call fails the total is the
      size of the subtree and all of it is gone. */
  method DeleteParticipant(credentialPath: string, credentialExists: bool, docRoot: string, batchSize: int,
                           connects: bool, root: Doc, fails: nat -> bool)
    returns (outcome: Outcome, counts: seq<nat>, rootDeleted: bool, log: seq<Addr>, ops: nat)
    ensures var failure := StartFailure(credentialPath, credentialExists, docRoot, connects, fails(0));
      failure.Some? ==> outcome == Failed(failure.value) && log == []
    ensures StartFailure(credentialPath, credentialExists, docRoot, connects, fails(0)).None? ==>
      outcome.Finished? && TreeDeleted(root, fails, outcome.deletedTotal, counts, rootDeleted, log, ops)
  {
    counts, rootDeleted, log, ops := [], false, [], 0;
    var failure := StartFailure(credentialPath, credentialExists, docRoot, connects, fails(0));
    if failure.Some? {
      outcome := Failed(failure.value);
      return;
    }
    var total: nat;
    total, counts, rootDeleted, log, ops := DeleteTree(root, CoerceBatch(batchSize), fails);
    outcome := Finished(total);
  }

  /** What the deletion of the participant's subtree leaves: one count per
      subcollection, the total their sum plus one when the participant
      document itself was removed, and that total the number of documents
      removed. The log is leaf first, so the participant document goes
      last. When no call fails (call 0 being the participant's
      `listCollections`), the total is the size of the subtree and all of
      it is gone. */
  ghost predicate TreeDeleted(root: Doc, fails: nat -> bool, total: nat, counts: seq<nat>, rootDeleted: bool,
                              log: seq<Addr>, ops: nat) {
    && |counts| == |root.subs|
    && total == Sum(counts) + (if rootDeleted then 1 else 0) == |log|
    && LeafFirst(log)
    && (rootDeleted <==> [] in log)
    && (rootDeleted ==> log[|log| - 1] == [])
    && (NoFail(fails, 0, ops) ==> total == DocSize(root) && forall rel :: InDoc(root, rel) ==> rel in log)
  }

  /** Lines 61 to 75 of `deleteParticipant`, once the participant's
      `listCollections` (call 0) has succeeded: its subcollections from
      call 1 on, then the participant document itself. */
  method DeleteTree(root: Doc, batch: int, fails: nat -> bool)
    returns (total: nat, counts: seq<nat>, rootDeleted: bool, log: seq<Addr>, ops: nat)
    requires batch >= 1
    ensures TreeDeleted(root, fails, total, counts, rootDeleted, log, ops)
  {
    total, log, ops, counts := DeleteSubcollections(root, [], batch, [], 1, fails);
    RootAbsent(log, |root.subs|);
    var log2 := log + [[]];
    RootLast(log);
    rootDeleted := !fails(ops);
    if rootDeleted {
      if NoFail(fails, 1, ops + 1) {
        RootComplete(root, log);
      }
      total, log := total + 1, log2;
    }
    ops := ops + 1;
  }

  /** The participant document is not removed by its subcollections'
      deletion. */
  lemma RootAbsent(log: seq<Addr>, n: nat)
    requires Grown([], log, [], n)
    ensures [] !in log
  {
    forall k | 0 <= k < |log| ensures log[k] != [] {
      assert [] < log[k];
    }
  }

  /** The participant document removed after everything else keeps the log
      leaf first. */
  lemma RootLast(log: seq<Addr>)
    requires LeafFirst(log) && [] !in log
    ensures LeafFirst(log + [[]])
  {
    forall s, t | 0 <= s < |log| && 0 <= t < 1 ensures !(log[s] <= [[]][t]) {
      assert log[s] != [];
    }
    LeafFirstAppend(log, [[]]);
  }

  /** With its subtrees gone and itself removed, the whole subtree of the
      participant document is gone. */
  lemma RootComplete(root: Doc, log: seq<Addr>)
    requires forall rel :: InDoc(root, rel) && rel != [] ==> [] + rel in log
    ensures forall rel :: InDoc(root, rel) ==> rel in log + [[]]
  {
    forall rel | InDoc(root, rel) ensures rel in log + [[]] {
      if rel != [] {
        assert [] + rel == rel;
      }
    }
  }
}
