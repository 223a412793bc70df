/** `ProtocolValidator`: the checks run on a protocol document before it
    is saved. The validator walks the document, appending to one issue
    list; screen ids are collected across the document and block ids per
    screen, across each screen's whole block tree.

    The walk is specified by a scan over the blocks of a screen in
    preorder (`ForestEntries`), each paired with its location text. */
module ProtocolValidator {
  import opened Wrappers
  import opened Text
  import opened ProtocolModels

  datatype Severity = Error | Warning

  datatype Issue = Issue(severity: Severity, message: string, location: Option<string>)

  const SCHEMA_LOCATION: string := "schemaVersion"
  const SCHEMA_MESSAGE_HEAD: string := "지원하지 않는 schemaVersion="
  const SCHEMA_MESSAGE_TAIL: string := " (지원: 1)"
  const SCREEN_ID_BLANK: string := "screen.id 는 비어있을 수 없습니다."
  const SCREEN_ID_REPEATED: string := "screen.id 중복: "
  const BLOCK_ID_BLANK: string := "block.id 는 비어있을 수 없습니다."
  const BLOCK_ID_REPEATED: string := "block.id 중복: "
  const VISIBILITY_BLANK: string := "visibility.expression 이 비어있습니다."
  const SCREENS_HEAD: string := "screens["

  function SchemaMessage(version: int): string {
    SCHEMA_MESSAGE_HEAD + IntToString(version) + SCHEMA_MESSAGE_TAIL
  }

  /** The issues of the version check: one error unless the version is 1. */
  function SchemaIssues(version: int): (r: seq<Issue>)
    ensures version == SUPPORTED_SCHEMA_VERSION <==> r == []
    ensures r != [] ==> r == [Issue(Error, SchemaMessage(version), Some(SCHEMA_LOCATION))]
  {
    if version != SUPPORTED_SCHEMA_VERSION then [Issue(Error, SchemaMessage(version), Some(SCHEMA_LOCATION))] else []
  }

  // ------------------------------------------------------ block trees

  /** A block with its location, `<prefix>/<id>`. */
  datatype Entry = Entry(node: BlockNode, loc: string)

  function BlockLoc(prefix: string, node: BlockNode): string {
    prefix + "/" + node.id
  }

  /** The blocks of a tree in preorder, each with its location; the
      children of a block are located under `<its location>/children`. */
  function Entries(node: BlockNode, prefix: string): (r: seq<Entry>)
    decreases node
    ensures |r| >= 1 && r[0] == Entry(node, BlockLoc(prefix, node))
  {
    [Entry(node, BlockLoc(prefix, node))] + ForestEntries(node.children, BlockLoc(prefix, node) + "/children")
  }

  function ForestEntries(nodes: seq<BlockNode>, prefix: string): seq<Entry>
    decreases nodes
  {
    if nodes == [] then [] else Entries(nodes[0], prefix) + ForestEntries(nodes[1..], prefix)
  }

  /** The entries of a forest are those of its parts, in order. */
  lemma {:induction false} ForestEntriesAppend(a: seq<BlockNode>, b: seq<BlockNode>, prefix: string)
    decreases |a|
    ensures ForestEntries(a + b, prefix) == ForestEntries(a, prefix) + ForestEntries(b, prefix)
  {
    if a == [] {
      assert a + b == b;
    } else {
      assert (a + b)[0] == a[0] && (a + b)[1..] == a[1..] + b;
      ForestEntriesAppend(a[1..], b, prefix);
    }
  }

  lemma ForestEntriesOne(n: BlockNode, prefix: string)
    ensures ForestEntries([n], prefix) == Entries(n, prefix)
  {
    assert [n][1..] == [];
  }

  /** The ids seen and the issues found so far: `validate`'s mutable set
      and list. */
  datatype Scanned = Scanned(ids: set<string>, issues: seq<Issue>)

  /** The issues about one block's id, given the ids seen before it. */
  function IdIssues(e: Entry, seen: set<string>): seq<Issue> {
    if IsBlank(e.node.id) then [Issue(Error, BLOCK_ID_BLANK, Some(e.loc))]
    else if e.node.id in seen then [Issue(Error, BLOCK_ID_REPEATED + e.node.id, Some(e.loc))]
    else []
  }

  /** The warning about a blank visibility expression, if any. */
  function VisibilityIssues(e: Entry): seq<Issue> {
    if e.node.visibility.Some? && IsBlank(e.node.visibility.value.expression) then
      [Issue(Warning, VISIBILITY_BLANK, Some(e.loc + "/visibility"))]
    else []
  }

  /** The ids seen once `e` is checked: a non-blank id is added. */
  function SeenWith(e: Entry, seen: set<string>): set<string> {
    if IsBlank(e.node.id) then seen else seen + {e.node.id}
  }

  /** The checks on one block, before its children. */
  function CheckBlock(e: Entry, st: Scanned): Scanned {
    Scanned(SeenWith(e, st.ids), st.issues + IdIssues(e, st.ids) + VisibilityIssues(e))
  }

  /** `validateBlockTree` on a tree: the block, then its children. */
  function ScanTree(node: BlockNode, prefix: string, st: Scanned): Scanned
    decreases node, 0, 0
  {
    var loc := BlockLoc(prefix, node);
    ScanForest(node.children, 0, loc + "/children", CheckBlock(Entry(node, loc), st))
  }

  /** The trees `nodes[k..]`, in order. */
  function ScanForest(nodes: seq<BlockNode>, k: nat, prefix: string, st: Scanned): Scanned
    requires k <= |nodes|
    decreases nodes, 1, |nodes| - k
  {
    if k == |nodes| then st else ScanForest(nodes, k + 1, prefix, ScanTree(nodes[k], prefix, st))
  }

  /** The reference: checking the blocks one after another in preorder. */
  function Scan(entries: seq<Entry>, st: Scanned): Scanned
    decreases |entries|
  {
    if entries == [] then st else Scan(entries[1..], CheckBlock(entries[0], st))
  }

  /** Scanning two runs of entries is scanning the first, then the second. */
  lemma {:induction false} ScanAppend(a: seq<Entry>, b: seq<Entry>, st: Scanned)
    decreases |a|
    ensures Scan(a + b, st) == Scan(b, Scan(a, st))
  {
    if a == [] {
      assert a + b == b;
    } else {
      assert (a + b)[0] == a[0] && (a + b)[1..] == a[1..] + b;
      ScanAppend(a[1..], b, CheckBlock(a[0], st));
    }
  }

  /** The recursive walk over a tree checks exactly the tree's blocks in
      preorder. */
  lemma {:induction false} ScanTreeIsScan(node: BlockNode, prefix: string, st: Scanned)
    decreases node, 0, 0
    ensures ScanTree(node, prefix, st) == Scan(Entries(node, prefix), st)
  {
    var loc := BlockLoc(prefix, node);
    var head := [Entry(node, loc)];
    var rest := ForestEntries(node.children, loc + "/children");
    ScanAppend(head, rest, st);
    assert Scan(head, st) == CheckBlock(head[0], st);
    ScanForestIsScan(node.children, 0, loc + "/children", CheckBlock(head[0], st));
    assert node.children[0..] == node.children;
  }

  lemma {:induction false} ScanForestIsScan(nodes: seq<BlockNode>, k: nat, prefix: string, st: Scanned)
    requires k <= |nodes|
    decreases nodes, 1, |nodes| - k
    ensures ScanForest(nodes, k, prefix, st) == Scan(ForestEntries(nodes[k..], prefix), st)
  {
    if k < |nodes| {
      assert nodes[k..][0] == nodes[k] && nodes[k..][1..] == nodes[k + 1..];
      ScanTreeIsScan(nodes[k], prefix, st);
      ScanAppend(Entries(nodes[k], prefix), ForestEntries(nodes[k + 1..], prefix), st);
      ScanForestIsScan(nodes, k + 1, prefix, ScanTree(nodes[k], prefix, st));
    }
  }

  /** The per-block checks of `validateBlockTree`, before its children. */
  method CheckHead(node: BlockNode, loc: string, blockIds: set<string>, issues: seq<Issue>)
    returns (ids: set<string>, out: seq<Issue>)
    ensures Scanned(ids, out) == CheckBlock(Entry(node, loc), Scanned(blockIds, issues))
  {
    ids, out := blockIds, issues;
    if IsBlank(node.id) {
      out := out + [Issue(Error, BLOCK_ID_BLANK, Some(loc))];
    } else if node.id in ids {
      out := out + [Issue(Error, BLOCK_ID_REPEATED + node.id, Some(loc))];
    } else {
      ids := ids + {node.id};
    }
    if node.visibility.Some? {
      if IsBlank(node.visibility.value.expression) {
        out := out + [Issue(Warning, VISIBILITY_BLANK, Some(loc + "/visibility"))];
      }
    }
  }

  /** `validateBlockTree`: the block's own checks, then its children's
      trees in order, sharing one seen-set and one issue list. */
  method ValidateBlockTree(node: BlockNode, blockIds: set<string>, issues: seq<Issue>, prefix: string)
    returns (ids: set<string>, out: seq<Issue>)
    decreases node, 0, 0
    ensures Scanned(ids, out) == ScanTree(node, prefix, Scanned(blockIds, issues))
  {
    var loc := BlockLoc(prefix, node);
    ids, out := CheckHead(node, loc, blockIds, issues);
    ids, out := ValidateForest(node.children, ids, out, loc + "/children");
  }

  /** `forEach { validateBlockTree(it, …) }` over a list of trees. */
  method ValidateForest(nodes: seq<BlockNode>, blockIds: set<string>, issues: seq<Issue>, prefix: string)
    returns (ids: set<string>, out: seq<Issue>)
    decreases nodes, 1, |nodes|
    ensures Scanned(ids, out) == ScanForest(nodes, 0, prefix, Scanned(blockIds, issues))
  {
    ids, out := blockIds, issues;
    var k := 0;
    while k < |nodes|
      invariant k <= |nodes|
      invariant ScanForest(nodes, k, prefix, Scanned(ids, out)) == ScanForest(nodes, 0, prefix, Scanned(blockIds, issues))
    {
      ids, out := ValidateBlockTree(nodes[k], ids, out, prefix);
      k := k + 1;
    }
  }

  // ----------------------------------------------------------- screens

  function ScreenIdLoc(index: nat): string {
    SCREENS_HEAD + NatToString(index) + "].id"
  }

  function RootPrefix(index: nat): string {
    SCREENS_HEAD + NatToString(index) + "].rootBlocks"
  }

  /** The issues about the screen id at `index`, given the ids before it. */
  function ScreenIdIssues(screen: ScreenDocument, index: nat, seen: set<string>): seq<Issue> {
    if IsBlank(screen.id) then [Issue(Error, SCREEN_ID_BLANK, Some(ScreenIdLoc(index)))]
    else if screen.id in seen then [Issue(Error, SCREEN_ID_REPEATED + screen.id, Some(ScreenIdLoc(index)))]
    else []
  }

  /** One screen: its id against the screen ids so far, then its block
      trees with a fresh set of block ids. */
  function CheckScreen(screen: ScreenDocument, index: nat, st: Scanned): Scanned {
    var ids := if IsBlank(screen.id) then st.ids else st.ids + {screen.id};
    var blocks := ScanForest(screen.rootBlocks, 0, RootPrefix(index), Scanned({}, st.issues + ScreenIdIssues(screen, index, st.ids)));
    Scanned(ids, blocks.issues)
  }

  /** The screens from `i` on, in order. */
  function ScanScreens(screens: seq<ScreenDocument>, i: nat, st: Scanned): Scanned
    requires i <= |screens|
    decreases |screens| - i
  {
    if i == |screens| then st else ScanScreens(screens, i + 1, CheckScreen(screens[i], i, st))
  }

  /** What `validate` returns: the version check, then every screen. */
  function Issues(document: ProtocolDocument): seq<Issue> {
    ScanScreens(document.screens, 0, Scanned({}, SchemaIssues(document.schemaVersion))).issues
  }

  /** One screen of `validate`'s `forEachIndexed`. */
  method ValidateScreen(screen: ScreenDocument, index: nat, screenIds: set<string>, issues: seq<Issue>)
    returns (ids: set<string>, out: seq<Issue>)
    ensures Scanned(ids, out) == CheckScreen(screen, index, Scanned(screenIds, issues))
  {
    ids, out := screenIds, issues;
    if IsBlank(screen.id) {
      out := out + [Issue(Error, SCREEN_ID_BLANK, Some(ScreenIdLoc(index)))];
    } else if screen.id in ids {
      out := out + [Issue(Error, SCREEN_ID_REPEATED + screen.id, Some(ScreenIdLoc(index)))];
      assert ids + {screen.id} == ids;
    } else {
      ids := ids + {screen.id};
    }
    assert out == issues + ScreenIdIssues(screen, index, screenIds);
    var blockIds: set<string> := {};
    blockIds, out := ValidateForest(screen.rootBlocks, blockIds, out, RootPrefix(index));
  }

  /** `validate`. */
  method Validate(document: ProtocolDocument) returns (issues: seq<Issue>)
    ensures issues == Issues(document)
  {
    issues := [];
    if document.schemaVersion != SUPPORTED_SCHEMA_VERSION {
      issues := [Issue(Error, SchemaMessage(document.schemaVersion), Some(SCHEMA_LOCATION))];
    }
    var screens := document.screens;
    var screenIds: set<string> := {};
    var index := 0;
    while index < |screens|
      invariant index <= |screens|
      invariant ScanScreens(screens, index, Scanned(screenIds, issues)) == ScanScreens(screens, 0, Scanned({}, SchemaIssues(document.schemaVersion)))
    {
      screenIds, issues := ValidateScreen(screens[index], index, screenIds, issues);
      index := index + 1;
    }
  }

  // --------------------------------------------------------- properties

  /** Checking only ever appends issues and adds ids. */
  lemma {:induction false} ScanExtends(entries: seq<Entry>, st: Scanned)
    decreases |entries|
    ensures st.issues <= Scan(entries, st).issues
    ensures st.ids <= Scan(entries, st).ids
  {
    if entries != [] {
      ScanExtends(entries[1..], CheckBlock(entries[0], st));
    }
  }

  lemma ScanForestExtends(nodes: seq<BlockNode>, prefix: string, st: Scanned)
    ensures st.issues <= ScanForest(nodes, 0, prefix, st).issues
  {
    ScanForestIsScan(nodes, 0, prefix, st);
    ScanExtends(ForestEntries(nodes[0..], prefix), st);
  }

  lemma {:induction false} ScanScreensExtends(screens: seq<ScreenDocument>, i: nat, st: Scanned)
    requires i <= |screens|
    decreases |screens| - i
    ensures st.issues <= ScanScreens(screens, i, st).issues
  {
    if i < |screens| {
      ScanForestExtends(screens[i].rootBlocks, RootPrefix(i), Scanned({}, st.issues + ScreenIdIssues(screens[i], i, st.ids)));
      ScanScreensExtends(screens, i + 1, CheckScreen(screens[i], i, st));
    }
  }

  /** A tree's blocks are valid when every id is non-blank, no visibility
      expression is blank, and no two blocks share an id. */
  predicate BlocksValid(entries: seq<Entry>) {
    && (forall i :: 0 <= i < |entries| ==> !IsBlank(entries[i].node.id))
    && (forall i :: 0 <= i < |entries| ==> VisibilityIssues(entries[i]) == [])
    && (forall i, j :: 0 <= i < j < |entries| ==> entries[i].node.id != entries[j].node.id)
  }

  /** Validity of a run of entries, first entry first. */
  lemma BlocksValidCons(entries: seq<Entry>)
    requires entries != []
    ensures BlocksValid(entries) <==>
      && !IsBlank(entries[0].node.id) && VisibilityIssues(entries[0]) == []
      && (forall j :: 0 <= j < |entries[1..]| ==> entries[1..][j].node.id != entries[0].node.id)
      && BlocksValid(entries[1..])
  {
    var rest := entries[1..];
    assert forall j :: 0 <= j < |rest| ==> rest[j] == entries[j + 1];
  }

  /** The scan adds no issue exactly when the blocks are valid and none of
      their ids was seen before. */
  lemma {:induction false} ScanCleanIff(entries: seq<Entry>, st: Scanned)
    decreases |entries|
    ensures Scan(entries, st).issues == st.issues <==>
      BlocksValid(entries) && forall i :: 0 <= i < |entries| ==> entries[i].node.id !in st.ids
  {
    if entries != [] {
      var e, rest := entries[0], entries[1..];
      var st' := CheckBlock(e, st);
      ScanCleanIff(rest, st');
      ScanExtends(rest, st');
      BlocksValidCons(entries);
      assert forall i :: 0 < i < |entries| ==> entries[i] == rest[i - 1];
      if Scan(entries, st).issues == st.issues {
        assert |st'.issues| == |st.issues| + |IdIssues(e, st.ids)| + |VisibilityIssues(e)|;
      }
    }
  }

  /** A screen is in order when its id is non-blank and its block trees
      are valid. */
  predicate ScreenValid(screens: seq<ScreenDocument>, j: nat)
    requires j < |screens|
  {
    !IsBlank(screens[j].id) && BlocksValid(ForestEntries(screens[j].rootBlocks, RootPrefix(j)))
  }

  /** Checking one screen adds no issue exactly when the screen is in order
      and its id is new. */
  lemma CheckScreenCleanIff(screens: seq<ScreenDocument>, j: nat, st: Scanned)
    requires j < |screens|
    ensures CheckScreen(screens[j], j, st).issues == st.issues <==>
      ScreenValid(screens, j) && screens[j].id !in st.ids
  {
    var screen := screens[j];
    var roots := screen.rootBlocks;
    var start := Scanned({}, st.issues + ScreenIdIssues(screen, j, st.ids));
    ScanForestIsScan(roots, 0, RootPrefix(j), start);
    assert roots[0..] == roots;
    ScanCleanIff(ForestEntries(roots, RootPrefix(j)), start);
    ScanExtends(ForestEntries(roots, RootPrefix(j)), start);
  }

  /** The screens from `i` on are each in order, none has an id in `ids`,
      and no two share an id. */
  ghost predicate ScreensCleanFrom(screens: seq<ScreenDocument>, i: nat, ids: set<string>)
    requires i <= |screens|
  {
    && (forall j :: i <= j < |screens| ==> ScreenValid(screens, j) && screens[j].id !in ids)
    && (forall j, k :: i <= j < k < |screens| ==> screens[j].id != screens[k].id)
  }

  /** The screens from `i` on are clean when the first is and the rest are
      clean of its id too. */
  lemma ScreensCleanStep(screens: seq<ScreenDocument>, i: nat, ids: set<string>)
    requires i < |screens|
    ensures ScreensCleanFrom(screens, i, ids) <==>
      ScreenValid(screens, i) && screens[i].id !in ids && ScreensCleanFrom(screens, i + 1, ids + {screens[i].id})
  {
  }

  /** The screens from `i` on add no issue exactly when each is in order,
      none has an id seen before, and no two share an id. */
  lemma {:induction false} ScanScreensCleanIff(screens: seq<ScreenDocument>, i: nat, st: Scanned)
    requires i <= |screens|
    decreases |screens| - i
    ensures ScanScreens(screens, i, st).issues == st.issues <==> ScreensCleanFrom(screens, i, st.ids)
  {
    if i < |screens| {
      var st' := CheckScreen(screens[i], i, st);
      ScanScreensCleanIff(screens, i + 1, st');
      ScanScreensExtends(screens, i + 1, st');
      CheckScreenCleanIff(screens, i, st);
      ScanForestExtends(screens[i].rootBlocks, RootPrefix(i), Scanned({}, st.issues + ScreenIdIssues(screens[i], i, st.ids)));
      ScreensCleanStep(screens, i, st.ids);
    }
  }

  /** A well-formed set of screens: each in order, no two with one id. */
  predicate ScreensValid(screens: seq<ScreenDocument>) {
    && (forall j :: 0 <= j < |screens| ==> ScreenValid(screens, j))
    && (forall j, k :: 0 <= j < k < |screens| ==> screens[j].id != screens[k].id)
  }

  /** A document is valid when its version is 1 and its screens are. */
  predicate DocumentValid(document: ProtocolDocument) {
    document.schemaVersion == SUPPORTED_SCHEMA_VERSION && ScreensValid(document.screens)
  }

  /** `validate` returns no issue exactly for a valid document. */
  lemma IssuesEmptyIff(document: ProtocolDocument)
    ensures Issues(document) == [] <==> DocumentValid(document)
  {
    var st := Scanned({}, SchemaIssues(document.schemaVersion));
    ScanScreensCleanIff(document.screens, 0, st);
    ScanScreensExtends(document.screens, 0, st);
  }

  /** An unsupported version is reported first. */
  lemma SchemaIssueFirst(document: ProtocolDocument)
    requires document.schemaVersion != SUPPORTED_SCHEMA_VERSION
    ensures |Issues(document)| >= 1
    ensures Issues(document)[0] == Issue(Error, SchemaMessage(document.schemaVersion), Some(SCHEMA_LOCATION))
  {
    ScanScreensExtends(document.screens, 0, Scanned({}, SchemaIssues(document.schemaVersion)));
  }

  /** An entry whose non-blank id was seen before it is reported as a
      repeat, at its own location. */
  lemma {:induction false} ScanFlagsSeen(entries: seq<Entry>, st: Scanned, q: nat)
    requires q < |entries| && !IsBlank(entries[q].node.id) && entries[q].node.id in st.ids
    decreases q
    ensures Issue(Error, BLOCK_ID_REPEATED + entries[q].node.id, Some(entries[q].loc)) in Scan(entries, st).issues
  {
    var st' := CheckBlock(entries[0], st);
    if q > 0 {
      ScanFlagsSeen(entries[1..], st', q - 1);
    } else {
      ScanExtends(entries[1..], st');
      assert st'.issues[|st.issues|] == Issue(Error, BLOCK_ID_REPEATED + entries[q].node.id, Some(entries[q].loc));
    }
  }

  /** The later of two blocks with the same non-blank id is reported. */
  lemma {:induction false} ScanFlagsRepeat(entries: seq<Entry>, st: Scanned, p: nat, q: nat)
    requires p < q < |entries| && !IsBlank(entries[q].node.id) && entries[p].node.id == entries[q].node.id
    decreases p
    ensures Issue(Error, BLOCK_ID_REPEATED + entries[q].node.id, Some(entries[q].loc)) in Scan(entries, st).issues
  {
    if p == 0 {
      ScanFlagsSeen(entries[1..], CheckBlock(entries[0], st), q - 1);
    } else {
      ScanFlagsRepeat(entries[1..], CheckBlock(entries[0], st), p - 1, q - 1);
    }
  }

  /** Where the `k`-th root block's own entry sits among the entries. */
  function RootEntryIndex(roots: seq<BlockNode>, k: nat, prefix: string): (p: nat)
    requires k < |roots|
    ensures p < |ForestEntries(roots, prefix)|
    ensures ForestEntries(roots, prefix)[p] == Entry(roots[k], BlockLoc(prefix, roots[k]))
  {
    ForestEntriesAppend(roots[..k], roots[k..], prefix);
    assert roots[..k] + roots[k..] == roots;
    assert roots[k..] == [roots[k]] + roots[k + 1..];
    ForestEntriesAppend([roots[k]], roots[k + 1..], prefix);
    ForestEntriesOne(roots[k], prefix);
    |ForestEntries(roots[..k], prefix)|
  }

  /** Root blocks' entries come in the roots' order. */
  lemma RootEntryOrder(roots: seq<BlockNode>, a: nat, b: nat, prefix: string)
    requires a < b < |roots|
    ensures RootEntryIndex(roots, a, prefix) < RootEntryIndex(roots, b, prefix)
  {
    assert roots[..b] == roots[..a] + roots[a..b];
    ForestEntriesAppend(roots[..a], roots[a..b], prefix);
    assert roots[a..b] == [roots[a]] + roots[a + 1..b];
    ForestEntriesAppend([roots[a]], roots[a + 1..b], prefix);
    ForestEntriesOne(roots[a], prefix);
  }

  /** Scanning the screens splits at any screen. */
  lemma {:induction false} ScanScreensSplit(screens: seq<ScreenDocument>, i: nat, index: nat, st: Scanned)
    requires i <= index <= |screens|
    decreases index - i
    ensures ScanScreens(screens, i, st) == ScanScreens(screens, index, ScanScreens(screens[..index], i, st))
  {
    if i < index {
      assert screens[..index][i] == screens[i];
      ScanScreensSplit(screens, i + 1, index, CheckScreen(screens[i], i, st));
    }
  }

  /** What the screens before `index` leave for the screen at `index`. */
  function Before(document: ProtocolDocument, index: nat): Scanned
    requires index <= |document.screens|
  {
    ScanScreens(document.screens[..index], 0, Scanned({}, SchemaIssues(document.schemaVersion)))
  }

  /** Every issue found on the screen at `index` is among the document's. */
  lemma ScreenIssueIncluded(document: ProtocolDocument, index: nat, x: Issue)
    requires index < |document.screens|
    requires x in CheckScreen(document.screens[index], index, Before(document, index)).issues
    ensures x in Issues(document)
  {
    var screens := document.screens;
    var st := Scanned({}, SchemaIssues(document.schemaVersion));
    ScanScreensSplit(screens, 0, index, st);
    ScanScreensExtends(screens, index + 1, CheckScreen(screens[index], index, Before(document, index)));
  }

  /** Two root blocks of one screen with the same non-blank id: the later
      one is reported as a repeated block id, at its own location. */
  lemma RepeatedRootIdReported(document: ProtocolDocument, index: nat, a: nat, b: nat)
    requires index < |document.screens|
    requires var roots := document.screens[index].rootBlocks;
      a < b < |roots| && roots[a].id == roots[b].id && !IsBlank(roots[b].id)
    ensures var roots := document.screens[index].rootBlocks;
      Issue(Error, BLOCK_ID_REPEATED + roots[b].id, Some(BlockLoc(RootPrefix(index), roots[b]))) in Issues(document)
  {
    var screen := document.screens[index];
    var roots := screen.rootBlocks;
    var prefix := RootPrefix(index);
    var before := Before(document, index);
    var start := Scanned({}, before.issues + ScreenIdIssues(screen, index, before.ids));
    var x := Issue(Error, BLOCK_ID_REPEATED + roots[b].id, Some(BlockLoc(prefix, roots[b])));
    var p := RootEntryIndex(roots, a, prefix);
    var q := RootEntryIndex(roots, b, prefix);
    RootEntryOrder(roots, a, b, prefix);
    ScanFlagsRepeat(ForestEntries(roots, prefix), start, p, q);
    ScanForestIsScan(roots, 0, prefix, start);
    assert roots[0..] == roots;
    ScreenIssueIncluded(document, index, x);
  }

  /** The non-blank ids among the screens from `i` on. */
  lemma {:induction false} ScanScreensIds(screens: seq<ScreenDocument>, i: nat, st: Scanned)
    requires i <= |screens|
    decreases |screens| - i
    ensures st.ids <= ScanScreens(screens, i, st).ids
    ensures forall j :: i <= j < |screens| && !IsBlank(screens[j].id) ==> screens[j].id in ScanScreens(screens, i, st).ids
    ensures forall x :: x in ScanScreens(screens, i, st).ids ==>
      x in st.ids || exists j :: i <= j < |screens| && !IsBlank(screens[j].id) && screens[j].id == x
  {
    if i < |screens| {
      ScanScreensIds(screens, i + 1, CheckScreen(screens[i], i, st));
    }
  }

  /** A later screen repeating an earlier non-blank screen id is reported
      at its own index. */
  lemma RepeatedScreenIdReported(document: ProtocolDocument, a: nat, b: nat)
    requires a < b < |document.screens|
    requires document.screens[a].id == document.screens[b].id && !IsBlank(document.screens[b].id)
    ensures Issue(Error, SCREEN_ID_REPEATED + document.screens[b].id, Some(ScreenIdLoc(b))) in Issues(document)
  {
    var screens := document.screens;
    var before := Before(document, b);
    assert screens[..b][a] == screens[a];
    ScanScreensIds(screens[..b], 0, Scanned({}, SchemaIssues(document.schemaVersion)));
    var x := Issue(Error, SCREEN_ID_REPEATED + screens[b].id, Some(ScreenIdLoc(b)));
    assert screens[b].id in before.ids;
    assert ScreenIdIssues(screens[b], b, before.ids) == [x];
    var start := Scanned({}, before.issues + [x]);
    assert start.issues[|before.issues|] == x;
    ScanForestExtends(screens[b].rootBlocks, RootPrefix(b), start);
    assert CheckScreen(screens[b], b, before).issues == ScanForest(screens[b].rootBlocks, 0, RootPrefix(b), start).issues;
    ScreenIssueIncluded(document, b, x);
  }

  /** The first screen to carry an id is never reported as a repeat. */
  lemma FirstScreenIdNotReported(document: ProtocolDocument, a: nat)
    requires a < |document.screens| && !IsBlank(document.screens[a].id)
    requires forall k :: 0 <= k < a ==> document.screens[k].id != document.screens[a].id
    ensures ScreenIdIssues(document.screens[a], a, Before(document, a).ids) == []
  {
    var screens := document.screens;
    ScanScreensIds(screens[..a], 0, Scanned({}, SchemaIssues(document.schemaVersion)));
    assert forall k :: 0 <= k < a ==> screens[..a][k] == screens[k];
  }

  /** A block-id repeat is reported with the `block.id 중복` message. */
  lemma RepeatMessage(id: string)
    ensures StartsWith(BLOCK_ID_REPEATED + id, "block.id 중복")
  {
    assert (BLOCK_ID_REPEATED + id)[..|"block.id 중복"|] == "block.id 중복";
  }

  /** Every issue of `issues` is located under `p`. */
  predicate AllUnder(issues: seq<Issue>, p: string) {
    forall k :: 0 <= k < |issues| ==> issues[k].location.Some? && p <= issues[k].location.value
  }

  /** Every block of a tree is located under the tree's prefix. */
  lemma {:induction false} EntriesUnder(node: BlockNode, prefix: string)
    decreases node
    ensures forall i :: 0 <= i < |Entries(node, prefix)| ==> prefix <= Entries(node, prefix)[i].loc
  {
    var loc := BlockLoc(prefix, node);
    ForestUnder(node.children, loc + "/children");
    var rest := ForestEntries(node.children, loc + "/children");
    assert prefix <= loc + "/children";
    forall i | 0 < i < |Entries(node, prefix)| ensures prefix <= Entries(node, prefix)[i].loc {
      assert Entries(node, prefix)[i] == rest[i - 1];
      PrefixTrans(prefix, loc + "/children", rest[i - 1].loc);
    }
  }

  lemma {:induction false} ForestUnder(nodes: seq<BlockNode>, prefix: string)
    decreases nodes
    ensures forall i :: 0 <= i < |ForestEntries(nodes, prefix)| ==> prefix <= ForestEntries(nodes, prefix)[i].loc
  {
    if nodes != [] {
      EntriesUnder(nodes[0], prefix);
      ForestUnder(nodes[1..], prefix);
      var e, r := Entries(nodes[0], prefix), ForestEntries(nodes[1..], prefix);
      assert forall i :: |e| <= i < |e| + |r| ==> (e + r)[i] == r[i - |e|];
    }
  }

  lemma PrefixTrans(a: string, b: string, c: string)
    requires a <= b && b <= c
    ensures a <= c
  {
    assert c[..|b|][..|a|] == c[..|a|];
  }

  /** The issues a scan adds are located under a prefix all its blocks
      are under. */
  lemma {:induction false} ScanUnder(entries: seq<Entry>, st: Scanned, p: string)
    requires forall i :: 0 <= i < |entries| ==> p <= entries[i].loc
    decreases |entries|
    ensures |st.issues| <= |Scan(entries, st).issues|
    ensures AllUnder(Scan(entries, st).issues[|st.issues|..], p)
  {
    if entries != [] {
      var e := entries[0];
      var st' := CheckBlock(e, st);
      ScanUnder(entries[1..], st', p);
      ScanExtends(entries[1..], st');
      var r := Scan(entries, st).issues;
      assert p <= e.loc + "/visibility" by { PrefixTrans(p, e.loc, e.loc + "/visibility"); }
      assert AllUnder(st'.issues[|st.issues|..], p);
      forall k | |st.issues| <= k < |r| ensures r[k].location.Some? && p <= r[k].location.value {
        if k < |st'.issues| {
          assert r[k] == st'.issues[|st.issues|..][k - |st.issues|];
        } else {
          assert r[k] == r[|st'.issues|..][k - |st'.issues|];
        }
      }
    }
  }

  /** The issues the screens add are all located under `screens[`. */
  lemma {:induction false} ScanScreensUnder(screens: seq<ScreenDocument>, i: nat, st: Scanned)
    requires i <= |screens|
    decreases |screens| - i
    ensures |st.issues| <= |ScanScreens(screens, i, st).issues|
    ensures AllUnder(ScanScreens(screens, i, st).issues[|st.issues|..], SCREENS_HEAD)
  {
    if i < |screens| {
      var st' := CheckScreen(screens[i], i, st);
      var start := Scanned({}, st.issues + ScreenIdIssues(screens[i], i, st.ids));
      var roots := screens[i].rootBlocks;
      ForestUnder(roots, RootPrefix(i));
      ScanForestIsScan(roots, 0, RootPrefix(i), start);
      assert roots[0..] == roots;
      forall j | 0 <= j < |ForestEntries(roots, RootPrefix(i))|
        ensures SCREENS_HEAD <= ForestEntries(roots, RootPrefix(i))[j].loc
      {
        PrefixTrans(SCREENS_HEAD, RootPrefix(i), ForestEntries(roots, RootPrefix(i))[j].loc);
      }
      ScanUnder(ForestEntries(roots, RootPrefix(i)), start, SCREENS_HEAD);
      ScanScreensUnder(screens, i + 1, st');
      ScanExtends(ForestEntries(roots, RootPrefix(i)), start);
      ScanScreensExtends(screens, i + 1, st');
      assert SCREENS_HEAD <= ScreenIdLoc(i);
      var r := ScanScreens(screens, i, st).issues;
      var m := Scan(ForestEntries(roots, RootPrefix(i)), start).issues;
      assert st'.issues == m;
      forall k | |st.issues| <= k < |r| ensures r[k].location.Some? && SCREENS_HEAD <= r[k].location.value {
        if k < |start.issues| {
          assert r[k] == start.issues[k];
        } else if k < |m| {
          assert r[k] == m[|start.issues|..][k - |start.issues|];
        } else {
          assert r[k] == r[|m|..][k - |m|];
        }
      }
    }
  }

  /** Nothing located under `screens[` is at `schemaVersion`. */
  lemma TailNotAtSchemaVersion(r: seq<Issue>, n: nat)
    requires n <= |r| && AllUnder(r[n..], SCREENS_HEAD)
    ensures forall k :: n <= k < |r| ==> r[k].location != Some(SCHEMA_LOCATION)
  {
    forall k | n <= k < |r| ensures r[k].location != Some(SCHEMA_LOCATION) {
      assert r[k] == r[n..][k - n];
      assert SCHEMA_LOCATION[2] != SCREENS_HEAD[2];
    }
  }

  /** Only the version error is located at `schemaVersion`. */
  lemma OnlySchemaIssueAtSchemaVersion(document: ProtocolDocument, k: nat)
    requires k < |Issues(document)| && Issues(document)[k].location == Some(SCHEMA_LOCATION)
    ensures k == 0 && document.schemaVersion != SUPPORTED_SCHEMA_VERSION
  {
    var st := Scanned({}, SchemaIssues(document.schemaVersion));
    ScanScreensUnder(document.screens, 0, st);
    ScanScreensExtends(document.screens, 0, st);
    TailNotAtSchemaVersion(Issues(document), |st.issues|);
  }

  /** The default document passes validation. */
  lemma DefaultDocumentValid()
    ensures Issues(DEFAULT_DOCUMENT) == []
  {
    var screens := DEFAULT_DOCUMENT.screens;
    assert ForestEntries(screens[0].rootBlocks, RootPrefix(0)) == [];
    assert !IsBlank(screens[0].id) by {
      assert !IsWhitespace(screens[0].id[0]);
    }
    IssuesEmptyIff(DEFAULT_DOCUMENT);
  }
}
