/** The protocol builder's editor (`BuilderViewModel`): the document being
    edited, the selected screen and the selected block, and the edits the
    canvas and the property panel make to the selected screen's root
    blocks. The random part of a new block's id is a parameter. */
module Builder {
  import opened Wrappers
  import opened Text
  import opened ProtocolModels

  // ------------------------------------------------------ list edits

  /** `list.add(k, x)`. */
  function InsertAt<T>(s: seq<T>, k: nat, x: T): (r: seq<T>)
    requires k <= |s|
    ensures |r| == |s| + 1 && r[k] == x
    ensures forall i :: 0 <= i < k ==> r[i] == s[i]
    ensures forall i :: k < i < |r| ==> r[i] == s[i - 1]
  {
    s[..k] + [x] + s[k..]
  }

  /** `list.removeAt(k)`. */
  function RemoveAt<T>(s: seq<T>, k: nat): (r: seq<T>)
    requires k < |s|
    ensures |r| == |s| - 1
    ensures forall i :: 0 <= i < k ==> r[i] == s[i]
    ensures forall i :: k <= i < |r| ==> r[i] == s[i + 1]
  {
    s[..k] + s[k + 1..]
  }

  /** Inserting adds exactly the element and nothing else: removing it
      again gives the list back. */
  lemma InsertRemove<T>(s: seq<T>, k: nat, x: T)
    requires k <= |s|
    ensures RemoveAt(InsertAt(s, k, x), k) == s
    ensures multiset(InsertAt(s, k, x)) == multiset(s) + multiset{x}
  {
    assert RemoveAt(InsertAt(s, k, x), k) == s;
    assert s == s[..k] + s[k..];
  }

  /** `index?.coerceIn(0, size) ?: size`. */
  function Clamp(index: Option<int>, size: nat): (k: nat)
    ensures k <= size
    ensures index.None? ==> k == size
    ensures index.Some? && 0 <= index.value <= size ==> k == index.value
    ensures index.Some? && index.value < 0 ==> k == 0
    ensures index.Some? && index.value > size ==> k == size
  {
    match index
    case None => size
    case Some(i) => if i < 0 then 0 else if i > size then size else i
  }

  /** `indexOfFirst { it.id == id }`, none standing for -1. */
  function IndexOfId(blocks: seq<BlockNode>, id: string): (r: Option<nat>)
    ensures r.Some? ==> r.value < |blocks| && blocks[r.value].id == id
    ensures r.Some? ==> forall j :: 0 <= j < r.value ==> blocks[j].id != id
    ensures r.None? ==> forall j :: 0 <= j < |blocks| ==> blocks[j].id != id
  {
    if blocks == [] then None
    else if blocks[0].id == id then Some(0)
    else match IndexOfId(blocks[1..], id)
      case None => None
      case Some(i) => Some(i + 1)
  }

  /** The first block with `id` sits at `k`. */
  lemma {:induction false} IndexOfIdAt(blocks: seq<BlockNode>, id: string, k: nat)
    requires k < |blocks| && blocks[k].id == id
    requires forall j :: 0 <= j < k ==> blocks[j].id != id
    decreases k
    ensures IndexOfId(blocks, id) == Some(k)
  {
    if k > 0 {
      IndexOfIdAt(blocks[1..], id, k - 1);
    }
  }

  datatype MoveDirection = Up | Down

  /** Where a block at `index` of a list of `size` blocks goes. */
  function MoveTarget(index: nat, size: nat, direction: MoveDirection): (j: nat)
    requires index < size
    ensures j < size
    ensures direction.Up? ==> j == if index == 0 then 0 else index - 1
    ensures direction.Down? ==> j == if index == size - 1 then index else index + 1
  {
    match direction
    case Up => if index - 1 < 0 then 0 else index - 1
    case Down => if index + 1 > size - 1 then size - 1 else index + 1
  }

  /** Two neighbours exchanged. */
  function SwapAdjacent<T>(s: seq<T>, a: nat): (r: seq<T>)
    requires a + 1 < |s|
  {
    s[a := s[a + 1]][a + 1 := s[a]]
  }

  /** The screen edit of `moveRootBlock`: the first block with `id` is taken
      out and put back one place up or down; an unknown id, or a block
      already at that end, leaves the list as it was. */
  function MoveBlock(blocks: seq<BlockNode>, id: string, direction: MoveDirection): (r: seq<BlockNode>)
    ensures |r| == |blocks| && multiset(r) == multiset(blocks)
  {
    match IndexOfId(blocks, id)
    case None => blocks
    case Some(i) =>
      var j := MoveTarget(i, |blocks|, direction);
      if j == i then blocks
      else
        InsertRemove(RemoveAt(blocks, i), j, blocks[i]);
        RemoveInsertBack(blocks, i);
        InsertAt(RemoveAt(blocks, i), j, blocks[i])
  }

  /** Taking an element out and putting it back keeps the multiset. */
  lemma RemoveInsertBack<T>(s: seq<T>, i: nat)
    requires i < |s|
    ensures multiset(RemoveAt(s, i)) + multiset{s[i]} == multiset(s)
  {
    assert s == s[..i] + [s[i]] + s[i + 1..];
    assert RemoveAt(s, i) == s[..i] + s[i + 1..];
  }

  /** Taking the element at `i` out and putting it back one place away
      exchanges it with that neighbour. */
  lemma MoveIsSwap<T>(s: seq<T>, i: nat, j: nat)
    requires i < |s| && j < |s| && (j == i + 1 || j + 1 == i)
    ensures InsertAt(RemoveAt(s, i), j, s[i]) == SwapAdjacent(s, if j < i then j else i)
  {
    var r := InsertAt(RemoveAt(s, i), j, s[i]);
    var a := if j < i then j else i;
    forall k | 0 <= k < |s| ensures r[k] == SwapAdjacent(s, a)[k] {
    }
  }

  /** `moveRootBlock` exactly: nothing moves for an unknown id or at the
      ends, and otherwise the block changes place with its neighbour. */
  lemma MoveBlockCases(blocks: seq<BlockNode>, id: string, direction: MoveDirection)
    ensures IndexOfId(blocks, id).None? ==> MoveBlock(blocks, id, direction) == blocks
    ensures IndexOfId(blocks, id).Some? ==>
      var i := IndexOfId(blocks, id).value;
      && (direction.Up? && i == 0 ==> MoveBlock(blocks, id, direction) == blocks)
      && (direction.Down? && i == |blocks| - 1 ==> MoveBlock(blocks, id, direction) == blocks)
      && (direction.Up? && i > 0 ==> MoveBlock(blocks, id, direction) == SwapAdjacent(blocks, i - 1))
      && (direction.Down? && i < |blocks| - 1 ==> MoveBlock(blocks, id, direction) == SwapAdjacent(blocks, i))
  {
    if IndexOfId(blocks, id).Some? {
      var i := IndexOfId(blocks, id).value;
      var j := MoveTarget(i, |blocks|, direction);
      if j != i {
        MoveIsSwap(blocks, i, j);
      }
    }
  }

  /** Exchanging the same neighbours twice restores the list. */
  lemma SwapTwice<T>(s: seq<T>, a: nat)
    requires a + 1 < |s|
    ensures SwapAdjacent(SwapAdjacent(s, a), a) == s
  {
  }

  /** After moving the first block with `id` up from `i`, the first block
      with `id` sits at `i - 1`. */
  lemma MovedUpIsFirst(blocks: seq<BlockNode>, id: string, i: nat)
    requires IndexOfId(blocks, id) == Some(i) && i > 0
    ensures IndexOfId(SwapAdjacent(blocks, i - 1), id) == Some(i - 1)
  {
    IndexOfIdAt(SwapAdjacent(blocks, i - 1), id, i - 1);
  }

  /** Moving a block up and then down again restores the list, whenever the
      block was not already first. */
  lemma MoveUpThenDown(blocks: seq<BlockNode>, id: string)
    requires IndexOfId(blocks, id).Some? && IndexOfId(blocks, id).value > 0
    ensures MoveBlock(MoveBlock(blocks, id, Up), id, Down) == blocks
  {
    var i := IndexOfId(blocks, id).value;
    MoveBlockCases(blocks, id, Up);
    var moved := SwapAdjacent(blocks, i - 1);
    MovedUpIsFirst(blocks, id, i);
    MoveBlockCases(moved, id, Down);
    SwapTwice(blocks, i - 1);
  }

  /** The screen edit of `deleteRootBlock`: `filterNot { it.id == id }`. */
  function DeleteBlocks(blocks: seq<BlockNode>, id: string): (r: seq<BlockNode>)
    ensures forall b :: b in r ==> b in blocks && b.id != id
    ensures forall b :: b in blocks && b.id != id ==> b in r
  {
    Filter(blocks, (b: BlockNode) => b.id != id)
  }

  /** Deleting an id nobody has changes nothing, and deleting twice is
      deleting once. */
  lemma DeleteBlocksAbsent(blocks: seq<BlockNode>, id: string)
    requires forall k :: 0 <= k < |blocks| ==> blocks[k].id != id
    ensures DeleteBlocks(blocks, id) == blocks
  {
    FilterAll(blocks, (b: BlockNode) => b.id != id);
  }

  lemma DeleteBlocksIdempotent(blocks: seq<BlockNode>, id: string)
    ensures DeleteBlocks(DeleteBlocks(blocks, id), id) == DeleteBlocks(blocks, id)
  {
    var once := DeleteBlocks(blocks, id);
    forall k | 0 <= k < |once| ensures once[k].id != id {
      assert once[k] in once;
    }
    DeleteBlocksAbsent(once, id);
  }

  /** `map { if (it.id != id) it else edit(it) }` over root blocks. */
  function EditBlocks(blocks: seq<BlockNode>, id: string, edit: BlockNode -> BlockNode): (r: seq<BlockNode>)
    ensures |r| == |blocks|
    ensures forall i :: 0 <= i < |blocks| ==> r[i] == if blocks[i].id == id then edit(blocks[i]) else blocks[i]
  {
    seq(|blocks|, i requires 0 <= i < |blocks| => if blocks[i].id == id then edit(blocks[i]) else blocks[i])
  }

  /** Editing blocks by an id none of them has changes nothing. */
  lemma EditBlocksAbsent(blocks: seq<BlockNode>, id: string, edit: BlockNode -> BlockNode)
    requires forall k :: 0 <= k < |blocks| ==> blocks[k].id != id
    ensures EditBlocks(blocks, id, edit) == blocks
  {
  }

  /** `props.toMutableMap().apply { put(key, value) }`. */
  function WithProp(key: string, value: string): BlockNode -> BlockNode {
    (b: BlockNode) => b.(props := b.props[key := value])
  }

  /** Setting a property twice keeps the second value; once set, the key
      maps to the value and every other key keeps its value. */
  lemma WithPropEffect(b: BlockNode, key: string, value: string, other: string)
    ensures WithProp(key, value)(b).props[key] == value
    ensures other != key ==> (other in WithProp(key, value)(b).props <==> other in b.props)
    ensures other != key && other in b.props ==> WithProp(key, value)(b).props[other] == b.props[other]
    ensures WithProp(key, value)(b).children == b.children && WithProp(key, value)(b).id == b.id
  {
  }

  /** The rule `updateSelectedVisibilityExpression` stores: none for a
      blank expression. */
  function VisibilityFor(expression: string): (v: Option<VisibilityRule>)
    ensures v.None? <==> IsBlank(expression)
    ensures v.Some? ==> v.value.expression == expression
  {
    if IsBlank(expression) then None else Some(VisibilityRule(expression))
  }

  function WithVisibility(expression: string): BlockNode -> BlockNode {
    (b: BlockNode) => b.(visibility := VisibilityFor(expression))
  }

  /** `screens.map { if (it.id != screenId) it else it.copy(rootBlocks =
      edit(it.rootBlocks)) }`. */
  function EditScreens(screens: seq<ScreenDocument>, screenId: string, edit: seq<BlockNode> -> seq<BlockNode>)
    : (r: seq<ScreenDocument>)
    ensures |r| == |screens|
    ensures forall i :: 0 <= i < |screens| ==>
      r[i] == if screens[i].id == screenId then screens[i].(rootBlocks := edit(screens[i].rootBlocks)) else screens[i]
  {
    seq(|screens|, i requires 0 <= i < |screens| =>
      if screens[i].id == screenId then screens[i].(rootBlocks := edit(screens[i].rootBlocks)) else screens[i])
  }

  /** Every screen keeps its id and title under a root-block edit; only the
      screens with the selected id get new root blocks. */
  lemma EditScreensKeeps(screens: seq<ScreenDocument>, screenId: string, edit: seq<BlockNode> -> seq<BlockNode>, i: nat)
    requires i < |screens|
    ensures EditScreens(screens, screenId, edit)[i].id == screens[i].id
    ensures EditScreens(screens, screenId, edit)[i].title == screens[i].title
    ensures screens[i].id != screenId ==> EditScreens(screens, screenId, edit)[i] == screens[i]
    ensures screens[i].id == screenId ==> EditScreens(screens, screenId, edit)[i].rootBlocks == edit(screens[i].rootBlocks)
  {
  }

  // ------------------------------------------------------- new blocks

  /** `defaultProps`: the properties a fresh block of each kind starts
      with. */
  function DefaultProps(blockType: BlockType): map<string, string> {
    match blockType
    case Text => map["text" := "텍스트"]
    case Spacer => map["heightDp" := "12"]
    case Button => map["text" := "버튼", "actionId" := ""]
    case TextField => map["label" := "입력", "required" := "false"]
    case Divider => map[]
    case Column => map[]
    case Row => map[]
  }

  /** The defaults with the override laid over them (`putAll`): an
      overridden key takes the override's value, every other default
      stays, and no other key appears. */
  function MergedProps(blockType: BlockType, propsOverride: map<string, string>): (m: map<string, string>)
    ensures forall k :: k in m <==> k in DefaultProps(blockType) || k in propsOverride
    ensures forall k :: k in propsOverride ==> m[k] == propsOverride[k]
    ensures forall k :: k in DefaultProps(blockType) && k !in propsOverride ==> m[k] == DefaultProps(blockType)[k]
  {
    DefaultProps(blockType) + propsOverride
  }

  /** The prefix of a generated id. */
  function IdPrefix(blockType: BlockType): string {
    match blockType
    case Column => "col"
    case Row => "row"
    case Text => "text"
    case Spacer => "spacer"
    case Button => "btn"
    case TextField => "textField"
    case Divider => "div"
  }

  /** `generateId`: the kind's prefix, a dash, and the first eight
      characters of the random UUID text `uuid`. */
  function GenerateId(blockType: BlockType, uuid: string): (id: string)
    ensures |id| == |IdPrefix(blockType)| + 1 + (if |uuid| < 8 then |uuid| else 8)
    ensures id[..|IdPrefix(blockType)| + 1] == IdPrefix(blockType) + "-"
    ensures id[|IdPrefix(blockType)| + 1..] == uuid[..if |uuid| < 8 then |uuid| else 8]
  {
    var tail := if |uuid| < 8 then uuid else uuid[..8];
    IdPrefix(blockType) + "-" + tail
  }

  /** The block `addBlockToRootAt` inserts. */
  function NewRootBlock(blockType: BlockType, propsOverride: map<string, string>, uuid: string): (b: BlockNode)
    ensures b.id == GenerateId(blockType, uuid) && b.blockType == blockType
    ensures b.props == MergedProps(blockType, propsOverride) && b.children == [] && b.visibility.None?
  {
    NewBlock(GenerateId(blockType, uuid), blockType).(props := MergedProps(blockType, propsOverride))
  }

  /** The screen edit of `addBlockToRootAt`. */
  function InsertBlock(node: BlockNode, index: Option<int>): seq<BlockNode> -> seq<BlockNode> {
    (blocks: seq<BlockNode>) => InsertAt(blocks, Clamp(index, |blocks|), node)
  }

  /** The inserted list holds the new block at the clamped index, and
      removing it there gives the old list back. */
  lemma InsertBlockEffect(blocks: seq<BlockNode>, node: BlockNode, index: Option<int>)
    ensures var r := InsertBlock(node, index)(blocks); var k := Clamp(index, |blocks|);
      && |r| == |blocks| + 1 && r[k] == node && RemoveAt(r, k) == blocks
      && multiset(r) == multiset(blocks) + multiset{node}
  {
    InsertRemove(blocks, Clamp(index, |blocks|), node);
  }

  // ----------------------------------------------------------- state

  datatype BuilderUiState = BuilderUiState(
    document: ProtocolDocument,
    selectedScreenId: Option<string>,
    selectedBlockId: Option<string>)

  /** `screens.firstOrNull()?.id`. */
  function FirstScreenId(document: ProtocolDocument): (r: Option<string>)
    ensures r.None? <==> document.screens == []
    ensures r.Some? ==> r.value == document.screens[0].id
  {
    if document.screens == [] then None else Some(document.screens[0].id)
  }

  /** `screens.firstOrNull()?.rootBlocks?.firstOrNull()?.id`. */
  function FirstRootBlockId(document: ProtocolDocument): (r: Option<string>)
    ensures r.None? <==> document.screens == [] || document.screens[0].rootBlocks == []
    ensures r.Some? ==> r.value == document.screens[0].rootBlocks[0].id
  {
    if document.screens == [] || document.screens[0].rootBlocks == [] then None
    else Some(document.screens[0].rootBlocks[0].id)
  }

  /** The document with its screens' root blocks edited on the screen(s)
      with id `screenId`: everything outside those root blocks is kept. */
  function EditDocument(document: ProtocolDocument, screenId: string, edit: seq<BlockNode> -> seq<BlockNode>)
    : (d: ProtocolDocument)
    ensures d.schemaVersion == document.schemaVersion && d.protocolId == document.protocolId
    ensures d.title == document.title && d.settings == document.settings
    ensures |d.screens| == |document.screens|
    ensures forall i :: 0 <= i < |d.screens| ==>
      d.screens[i].id == document.screens[i].id && d.screens[i].title == document.screens[i].title
    ensures forall i :: 0 <= i < |d.screens| && document.screens[i].id != screenId ==> d.screens[i] == document.screens[i]
    ensures forall i :: 0 <= i < |d.screens| && document.screens[i].id == screenId ==>
      d.screens[i].rootBlocks == edit(document.screens[i].rootBlocks)
  {
    document.(screens := EditScreens(document.screens, screenId, edit))
  }

  class BuilderViewModel {
    var uiState: BuilderUiState

    /** The first screen and its first root block start selected. */
    constructor(initial: ProtocolDocument)
      ensures uiState == BuilderUiState(initial, FirstScreenId(initial), FirstRootBlockId(initial))
    {
      uiState := BuilderUiState(initial, FirstScreenId(initial), FirstRootBlockId(initial));
    }

    /** `setDocument`: the new document, its first screen selected and no
        block. */
    method SetDocument(document: ProtocolDocument)
      modifies this
      ensures uiState == BuilderUiState(document, FirstScreenId(document), None)
    {
      uiState := uiState.(document := document, selectedScreenId := FirstScreenId(document), selectedBlockId := None);
    }

    /** `selectScreen`: selecting a screen drops the block selection. */
    method SelectScreen(screenId: string)
      modifies this
      ensures uiState == old(uiState).(selectedScreenId := Some(screenId), selectedBlockId := None)
    {
      uiState := uiState.(selectedScreenId := Some(screenId), selectedBlockId := None);
    }

    /** `selectBlock`. */
    method SelectBlock(blockId: Option<string>)
      modifies this
      ensures uiState == old(uiState).(selectedBlockId := blockId)
    {
      uiState := uiState.(selectedBlockId := blockId);
    }

    /** `addBlockToRootAt`: with no screen selected nothing happens;
        otherwise a fresh block goes into the selected screen's root list
        at the clamped index (the end for none), and it becomes the
        selected block. */
    method AddBlockToRootAt(blockType: BlockType, propsOverride: map<string, string>, index: Option<int>, uuid: string)
      modifies this
      ensures old(uiState).selectedScreenId.None? ==> uiState == old(uiState)
      ensures old(uiState).selectedScreenId.Some? ==>
        var node := NewRootBlock(blockType, propsOverride, uuid);
        uiState == old(uiState).(
          document := EditDocument(old(uiState).document, old(uiState).selectedScreenId.value, InsertBlock(node, index)),
          selectedBlockId := Some(node.id))
    {
      if uiState.selectedScreenId.None? {
        return;
      }
      var screenId := uiState.selectedScreenId.value;
      var node := NewRootBlock(blockType, propsOverride, uuid);
      uiState := uiState.(document := EditDocument(uiState.document, screenId, InsertBlock(node, index)),
                          selectedBlockId := Some(node.id));
    }

    /** `addBlockToRoot(type, propsOverride)`: appending. */
    method AddBlockToRootWith(blockType: BlockType, propsOverride: map<string, string>, uuid: string)
      modifies this
      ensures old(uiState).selectedScreenId.None? ==> uiState == old(uiState)
      ensures old(uiState).selectedScreenId.Some? ==>
        var node := NewRootBlock(blockType, propsOverride, uuid);
        uiState == old(uiState).(
          document := EditDocument(old(uiState).document, old(uiState).selectedScreenId.value, InsertBlock(node, None)),
          selectedBlockId := Some(node.id))
    {
      AddBlockToRootAt(blockType, propsOverride, None, uuid);
    }

    /** `addBlockToRoot(type)`: appending with the defaults only. */
    method AddBlockToRoot(blockType: BlockType, uuid: string)
      modifies this
      ensures old(uiState).selectedScreenId.None? ==> uiState == old(uiState)
      ensures old(uiState).selectedScreenId.Some? ==>
        var node := NewRootBlock(blockType, map[], uuid);
        uiState == old(uiState).(
          document := EditDocument(old(uiState).document, old(uiState).selectedScreenId.value, InsertBlock(node, None)),
          selectedBlockId := Some(node.id))
    {
      AddBlockToRootAt(blockType, map[], None, uuid);
    }

    /** `moveRootBlock`: the selection stays; the selected screen's root
        list is `MoveBlock` of it. */
    method MoveRootBlock(blockId: string, direction: MoveDirection)
      modifies this
      ensures old(uiState).selectedScreenId.None? ==> uiState == old(uiState)
      ensures old(uiState).selectedScreenId.Some? ==>
        uiState == old(uiState).(document := EditDocument(old(uiState).document, old(uiState).selectedScreenId.value,
                                                          blocks => MoveBlock(blocks, blockId, direction)))
    {
      if uiState.selectedScreenId.None? {
        return;
      }
      var screenId := uiState.selectedScreenId.value;
      uiState := uiState.(document := EditDocument(uiState.document, screenId, blocks => MoveBlock(blocks, blockId, direction)));
    }

    /** `deleteRootBlock`: root blocks with the id go; the block selection
        is dropped only when it was that id. */
    method DeleteRootBlock(blockId: string)
      modifies this
      ensures old(uiState).selectedScreenId.None? ==> uiState == old(uiState)
      ensures old(uiState).selectedScreenId.Some? ==>
        uiState == BuilderUiState(
          EditDocument(old(uiState).document, old(uiState).selectedScreenId.value, blocks => DeleteBlocks(blocks, blockId)),
          old(uiState).selectedScreenId,
          if old(uiState).selectedBlockId == Some(blockId) then None else old(uiState).selectedBlockId)
    {
      if uiState.selectedScreenId.None? {
        return;
      }
      var screenId := uiState.selectedScreenId.value;
      var selected := if uiState.selectedBlockId == Some(blockId) then None else uiState.selectedBlockId;
      uiState := uiState.(document := EditDocument(uiState.document, screenId, blocks => DeleteBlocks(blocks, blockId)),
                          selectedBlockId := selected);
    }

    /** `updateSelectedProp`: with a screen and a block selected, the
        root blocks of that screen with that id get `key` set to
        `value`; otherwise nothing happens. */
    method UpdateSelectedProp(key: string, value: string)
      modifies this
      ensures old(uiState).selectedScreenId.None? || old(uiState).selectedBlockId.None? ==> uiState == old(uiState)
      ensures old(uiState).selectedScreenId.Some? && old(uiState).selectedBlockId.Some? ==>
        var blockId := old(uiState).selectedBlockId.value;
        uiState == old(uiState).(document := EditDocument(old(uiState).document, old(uiState).selectedScreenId.value,
          blocks => EditBlocks(blocks, blockId, WithProp(key, value))))
    {
      if uiState.selectedScreenId.None? || uiState.selectedBlockId.None? {
        return;
      }
      var screenId, blockId := uiState.selectedScreenId.value, uiState.selectedBlockId.value;
      uiState := uiState.(document := EditDocument(uiState.document, screenId,
                                                   blocks => EditBlocks(blocks, blockId, WithProp(key, value))));
    }

    /** `updateSelectedVisibilityExpression`: like `UpdateSelectedProp`,
        with the block's visibility set to `VisibilityFor(expression)`. */
    method UpdateSelectedVisibilityExpression(expression: string)
      modifies this
      ensures old(uiState).selectedScreenId.None? || old(uiState).selectedBlockId.None? ==> uiState == old(uiState)
      ensures old(uiState).selectedScreenId.Some? && old(uiState).selectedBlockId.Some? ==>
        var blockId := old(uiState).selectedBlockId.value;
        uiState == old(uiState).(document := EditDocument(old(uiState).document, old(uiState).selectedScreenId.value,
          blocks => EditBlocks(blocks, blockId, WithVisibility(expression))))
    {
      if uiState.selectedScreenId.None? || uiState.selectedBlockId.None? {
        return;
      }
      var screenId, blockId := uiState.selectedScreenId.value, uiState.selectedBlockId.value;
      uiState := uiState.(document := EditDocument(uiState.document, screenId,
                                                   blocks => EditBlocks(blocks, blockId, WithVisibility(expression))));
    }
  }
}
