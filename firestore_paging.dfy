/** The paging loop of the desktop Firestore exporter: a collection read
    `limit` documents at a time, each document counted, tested and, when
    kept, its keys added to the header, with a progress report after
    every page and a failing page query ending the loop. */
module FirestorePaging {
  import opened Wrappers
  import opened Text
  import opened Collections
  import opened FirestoreDocs

  /** The documents among the first `n` that pass `keep`, in order: what
      the page loop has kept after reading `n` documents. */
  function KeptUpTo(docs: seq<Document>, n: nat, keep: Document -> bool): seq<Document>
    requires n <= |docs|
  {
    if n == 0 then [] else KeptUpTo(docs, n - 1, keep) + (if keep(docs[n - 1]) then [docs[n - 1]] else [])
  }

  /** Keeping documents one at a time is filtering the ones read. */
  lemma {:induction false} KeptUpToIsFilter(docs: seq<Document>, n: nat, keep: Document -> bool)
    requires n <= |docs|
    decreases n
    ensures KeptUpTo(docs, n, keep) == Filter(docs[..n], keep)
  {
    if n > 0 {
      KeptUpToIsFilter(docs, n - 1, keep);
      assert docs[..n - 1] + [docs[n - 1]] == docs[..n];
      FilterSnoc(docs[..n - 1], docs[n - 1], keep);
    }
  }

  /** `limit.coerceAtLeast(1)`. */
  function PageLimit(limit: int): (r: int)
    ensures r >= 1
    ensures limit >= 1 ==> r == limit
    ensures limit < 1 ==> r == 1
  {
    if limit < 1 then 1 else limit
  }

  /** One `onProgress(read, excluded, included)` report. */
  datatype Progress = Progress(read: int, excluded: int, included: int)

  function Min(a: int, b: int): int {
    if a <= b then a else b
  }

  /** The number of page queries a collection of `n` documents takes: one
      per full page and one more that comes back short or empty. */
  function FetchesNeeded(n: nat, limit: int): (r: nat)
    requires limit >= 1
    decreases n
    ensures r >= 1
  {
    if n < limit then 1 else 1 + FetchesNeeded(n - limit, limit)
  }

  /** Where the k-th page query starts: after `k` full pages. */
  function Offset(k: nat, limit: nat): nat {
    if k == 0 then 0 else Offset(k - 1, limit) + limit
  }
  /** The report after the first `n` documents have been read. */
  function ProgressAt(docs: seq<Document>, n: nat, keep: Document -> bool): Progress
    requires n <= |docs|
  {
    Report(ReadingAt(docs, n, keep))
  }

  /** A report whose read count is its excluded and included counts together. */
  predicate Balanced(p: Progress) {
    p.read == p.excluded + p.included
  }

  /** When `k` full pages fit in `n` documents the k-th query is needed. */
  lemma {:induction false} FetchNeeded(k: nat, limit: int, n: nat)
    requires limit >= 1 && Offset(k, limit) <= n
    decreases k
    ensures k < FetchesNeeded(n, limit)
  {
    if k > 0 {
      FetchNeeded(k - 1, limit, n - limit);
    }
  }

  /** A page that starts at `Offset(k)` and reaches the end of the data is
      the last query. */
  lemma {:induction false} LastFetch(k: nat, limit: int, n: nat)
    requires limit >= 1 && Offset(k, limit) <= n < Offset(k, limit) + limit
    decreases k
    ensures FetchesNeeded(n, limit) == k + 1
  {
    if k > 0 {
      LastFetch(k - 1, limit, n - limit);
    }
  }

  /** The keys of the kept documents among the first `n`, one document
      after the other. */
  function KeysUpTo(docs: seq<Document>, n: nat, keep: Document -> bool): seq<string>
    requires n <= |docs|
  {
    if n == 0 then [] else KeysUpTo(docs, n - 1, keep) + (if keep(docs[n - 1]) then Keys(docs[n - 1]) else [])
  }

  /** The header while reading: `id` and the keys of the documents kept
      so far. It is the header of those documents. */
  function HeaderUpTo(docs: seq<Document>, n: nat, keep: Document -> bool): seq<string>
    requires n <= |docs|
  {
    AddAll(["id"], KeysUpTo(docs, n, keep))
  }

  lemma {:induction false} KeysUpToAllKeys(docs: seq<Document>, n: nat, keep: Document -> bool)
    requires n <= |docs|
    decreases n
    ensures KeysUpTo(docs, n, keep) == AllKeys(KeptUpTo(docs, n, keep))
  {
    if n > 0 {
      KeysUpToAllKeys(docs, n - 1, keep);
      var d := docs[n - 1];
      if keep(d) {
        AllKeysSnoc(KeptUpTo(docs, n - 1, keep), d);
      } else {
        assert KeysUpTo(docs, n - 1, keep) + [] == KeysUpTo(docs, n - 1, keep);
        assert KeptUpTo(docs, n - 1, keep) + [] == KeptUpTo(docs, n - 1, keep);
      }
    }
  }

  lemma HeaderUpToHeader(docs: seq<Document>, n: nat, keep: Document -> bool)
    requires n <= |docs|
    ensures HeaderUpTo(docs, n, keep) == Header(KeptUpTo(docs, n, keep))
  {
    KeysUpToAllKeys(docs, n, keep);
  }

  /** The loop's running state: the kept documents, the header keys, and
      the read and excluded counters. */
  datatype Reading = Reading(included: seq<Document>, header: seq<string>, read: nat, excluded: int)

  /** The state once the first `n` documents have been read. */
  function ReadingAt(docs: seq<Document>, n: nat, keep: Document -> bool): Reading
    requires n <= |docs|
  {
    var kept := KeptUpTo(docs, n, keep);
    Reading(kept, HeaderUpTo(docs, n, keep), n, n - |kept|)
  }

  /** `onProgress(readCount, excludedCount, includedCount)` of a state. */
  function Report(st: Reading): Progress {
    Progress(st.read, st.excluded, |st.included|)
  }

  /** The paging loop of `exportSingleCollection`, for any include test.
      `docs` is the collection in query order, read `limit` at a time, each
      page starting after the last document of the previous one. A failing
      query (`failedAt`) reports the state so far and ends the loop; so
      does an empty page, or one shorter than the limit, after which the
      whole collection has been read. Every report is balanced. */
  method PageThrough(docs: seq<Document>, limit: int, keep: Document -> bool, fetchFails: nat -> bool)
    returns (failedAt: Option<nat>, state: Reading, progress: seq<Progress>)
    requires limit >= 1
    ensures state.read <= |docs| && state == ReadingAt(docs, state.read, keep)
    ensures failedAt.Some? ==>
      var k := failedAt.value;
      && k < FetchesNeeded(|docs|, limit) && fetchFails(k)
      && (forall j: nat :: j < k ==> !fetchFails(j))
      && state.read == Offset(k, limit)
      && progress != [] && progress[|progress| - 1] == Report(state)
    ensures failedAt.None? ==>
      && (forall j: nat :: j < FetchesNeeded(|docs|, limit) ==> !fetchFails(j))
      && state.read == |docs|
    ensures forall i :: 0 <= i < |progress| ==> Balanced(progress[i])
  {
    state := Reading([], ["id"], 0, 0);
    var fetches: nat := 0;
    progress := [];
    while true
      invariant Paged(docs, limit, keep, fetchFails, fetches, state, progress)
      decreases |docs| - state.read
    {
      if fetchFails(fetches) {
        progress := progress + [Report(state)];
        FetchNeeded(fetches, limit, |docs|);
        failedAt := Some(fetches);
        return;
      }
      var start := state.read;
      var pageEnd := Min(start + limit, |docs|);
      if pageEnd == start {
        LastFetch(fetches, limit, |docs|);
        break;
      }
      var next := ReadPage(docs, pageEnd, keep, state);
      if pageEnd - start < limit {
        LastFetch(fetches, limit, |docs|);
        PagedLast(docs, limit, keep, fetchFails, fetches, state, progress, pageEnd);
        fetches := fetches + 1;
        state := next;
        progress := progress + [Report(state)];
        break;
      }
      PagedStep(docs, limit, keep, fetchFails, fetches, state, progress, pageEnd);
      fetches := fetches + 1;
      state := next;
      progress := progress + [Report(state)];
    }
    failedAt := None;
  }

  /** The invariant of the paging loop: `fetches` full pages have been
      read, every earlier query succeeded, and every report is balanced. */
  ghost predicate Paged(docs: seq<Document>, limit: int, keep: Document -> bool, fetchFails: nat -> bool,
                        fetches: nat, state: Reading, progress: seq<Progress>) {
    && limit >= 1 && state.read == Offset(fetches, limit) && state.read <= |docs|
    && state == ReadingAt(docs, state.read, keep)
    && (forall j: nat :: j < fetches ==> !fetchFails(j))
    && (forall i :: 0 <= i < |progress| ==> Balanced(progress[i]))
  }

  /** A full page keeps the invariant. */
  lemma PagedStep(docs: seq<Document>, limit: int, keep: Document -> bool, fetchFails: nat -> bool,
                  fetches: nat, state: Reading, progress: seq<Progress>, pageEnd: nat)
    requires Paged(docs, limit, keep, fetchFails, fetches, state, progress) && !fetchFails(fetches)
    requires pageEnd == state.read + limit <= |docs|
    ensures Paged(docs, limit, keep, fetchFails, fetches + 1, ReadingAt(docs, pageEnd, keep),
                  progress + [Report(ReadingAt(docs, pageEnd, keep))])
  {
  }

  /** After the last, short page every query has succeeded, and every report
      is balanced. */
  lemma PagedLast(docs: seq<Document>, limit: int, keep: Document -> bool, fetchFails: nat -> bool,
                  fetches: nat, state: Reading, progress: seq<Progress>, pageEnd: nat)
    requires Paged(docs, limit, keep, fetchFails, fetches, state, progress) && !fetchFails(fetches)
    requires pageEnd == |docs|
    ensures forall j: nat :: j < fetches + 1 ==> !fetchFails(j)
    ensures var p := progress + [Report(ReadingAt(docs, pageEnd, keep))];
            forall i :: 0 <= i < |p| ==> Balanced(p[i])
  {
  }

  /** The `for (doc in snapshot.documents)` loop over one page, up to
      `docs[end - 1]`: every document is counted as read, those the test
      turns away as excluded, and the rest are kept, their keys joining the
      header. */
  method ReadPage(docs: seq<Document>, end: nat, keep: Document -> bool, start: Reading)
    returns (st: Reading)
    requires start.read <= end <= |docs| && start == ReadingAt(docs, start.read, keep)
    ensures st == ReadingAt(docs, end, keep)
  {
    st := start;
    while st.read < end
      invariant start.read <= st.read <= end
      invariant st == ReadingAt(docs, st.read, keep)
      decreases end - st.read
    {
      var doc := docs[st.read];
      var read := st.read + 1;
      if !keep(doc) {
        assert KeysUpTo(docs, read - 1, keep) + [] == KeysUpTo(docs, read - 1, keep);
        assert st.included + [] == st.included;
        st := st.(read := read, excluded := st.excluded + 1);
      } else {
        AddAllAppend(["id"], KeysUpTo(docs, read - 1, keep), Keys(doc));
        st := Reading(st.included + [doc], AddAll(st.header, Keys(doc)), read, st.excluded);
      }
    }
  }
}
