/** Firestore documents as the exporter sees them: field values, the
    document snapshot, and the CSV header built from the kept documents' keys. */
module FirestoreDocs {
  import opened Collections

  /** A Firestore field value, as far as the exporter tells them apart.
      `Structured` stands for a GeoPoint, a document reference, a map or a
      list, which the exporter writes through a JSON encoder; its text is
      taken as given. */
  datatype Value =
    | Null
    | Timestamp(seconds: int, nanos: nat)
    | Number(n: int)
    | Bool(b: bool)
    | Str(s: string)
    | Structured(rendered: string)

  /** A document snapshot: its id and its data as (key, value) pairs in the
      order the map yields them. */
  datatype Document = Document(id: string, fields: seq<(string, Value)>)

  /** Position `i` holds the first pair stored under `key`. */
  predicate FirstHolder(fields: seq<(string, Value)>, key: string, i: nat) {
    i < |fields| && fields[i].0 == key && forall j :: 0 <= j < i ==> fields[j].0 != key
  }

  /** `data[key]`: the value stored under the key, `Null` when absent. */
  function Get(fields: seq<(string, Value)>, key: string): (v: Value)
    ensures (forall i :: 0 <= i < |fields| ==> fields[i].0 != key) ==> v == Null
    ensures forall i: nat :: FirstHolder(fields, key, i) ==> v == fields[i].1
  {
    if fields == [] then Null
    else if fields[0].0 == key then fields[0].1
    else
      assert forall i: nat :: FirstHolder(fields, key, i) ==> i >= 1 && FirstHolder(fields[1..], key, i - 1);
      Get(fields[1..], key)
  }

  /** `data.keys`, in map order. */
  function Keys(d: Document): (ks: seq<string>)
    ensures |ks| == |d.fields|
    ensures forall i :: 0 <= i < |ks| ==> ks[i] == d.fields[i].0
  {
    seq(|d.fields|, i requires 0 <= i < |d.fields| => d.fields[i].0)
  }

  // ------------------------------------------------------- table header

  /** The keys of the documents, one document after the other. */
  function AllKeys(docs: seq<Document>): seq<string> {
    if docs == [] then [] else AllKeys(docs[..|docs| - 1]) + Keys(docs[|docs| - 1])
  }

  lemma {:induction false} AllKeysMembers(docs: seq<Document>, key: string)
    decreases |docs|
    ensures key in AllKeys(docs) <==> exists i :: 0 <= i < |docs| && key in Keys(docs[i])
  {
    if docs != [] {
      var init := docs[..|docs| - 1];
      AllKeysMembers(init, key);
      if key in AllKeys(init) {
        var i :| 0 <= i < |init| && key in Keys(init[i]);
        assert docs[i] == init[i];
      }
      if exists i :: 0 <= i < |docs| && key in Keys(docs[i]) {
        var i :| 0 <= i < |docs| && key in Keys(docs[i]);
        if i < |init| {
          assert init[i] == docs[i];
        }
      }
    }
  }

  /** `linkedSetOf("id")` after `addAll(data.keys)` for every kept document. */
  function Header(included: seq<Document>): seq<string> {
    AddAll(["id"], AllKeys(included))
  }

  /** The header starts with `id` and then lists, without repetition, every
      key of a kept document and nothing else. */
  lemma HeaderShape(included: seq<Document>)
    ensures var h := Header(included);
      && |h| >= 1 && h[0] == "id"
      && NoDuplicates(h)
      && forall key :: key in h <==> key == "id" || exists i :: 0 <= i < |included| && key in Keys(included[i])
  {
    var h := Header(included);
    AddAllFacts(["id"], AllKeys(included));
    assert h[..1] == ["id"];
    forall key ensures key in h <==> key == "id" || exists i :: 0 <= i < |included| && key in Keys(included[i]) {
      AllKeysMembers(included, key);
    }
  }

  lemma AllKeysSnoc(docs: seq<Document>, d: Document)
    ensures AllKeys(docs + [d]) == AllKeys(docs) + Keys(d)
  {
    assert (docs + [d])[..|docs|] == docs;
  }
}
