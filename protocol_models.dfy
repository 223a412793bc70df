/** The protocol document the builder edits (`protocol.json`): screens,
    each a list of block trees, and the study settings. The Kotlin
    defaults of the data classes are the constants and functions below. */
module ProtocolModels {
  import opened Wrappers

  /** The seven block kinds. */
  datatype BlockType = Column | Row | Text | Spacer | Button | TextField | Divider

  /** Every block kind once, in declaration order. */
  const ALL_BLOCK_TYPES: seq<BlockType> := [Column, Row, Text, Spacer, Button, TextField, Divider]

  /** The name a block kind is written under in `protocol.json`. */
  function SerialName(t: BlockType): string {
    match t
    case Column => "column"
    case Row => "row"
    case Text => "text"
    case Spacer => "spacer"
    case Button => "button"
    case TextField => "textField"
    case Divider => "divider"
  }

  /** Reading a block kind back from its serial name; any other text names
      no block kind. */
  function BlockTypeOf(name: string): (r: Option<BlockType>)
    ensures r.Some? ==> SerialName(r.value) == name
  {
    if name == "column" then Some(Column)
    else if name == "row" then Some(Row)
    else if name == "text" then Some(Text)
    else if name == "spacer" then Some(Spacer)
    else if name == "button" then Some(Button)
    else if name == "textField" then Some(TextField)
    else if name == "divider" then Some(Divider)
    else None
  }

  /** Every kind is read back from its serial name, so no two kinds share
      a name. */
  lemma SerialNameRoundTrip(t: BlockType)
    ensures BlockTypeOf(SerialName(t)) == Some(t)
  {
  }

  lemma SerialNamesDistinct(t: BlockType, u: BlockType)
    requires t != u
    ensures SerialName(t) != SerialName(u)
  {
    SerialNameRoundTrip(t);
    SerialNameRoundTrip(u);
  }

  /** There are exactly seven kinds, each listed once. */
  lemma AllBlockTypes(t: BlockType)
    ensures t in ALL_BLOCK_TYPES
    ensures |ALL_BLOCK_TYPES| == 7
    ensures forall i, j :: 0 <= i < j < |ALL_BLOCK_TYPES| ==> ALL_BLOCK_TYPES[i] != ALL_BLOCK_TYPES[j]
  {
    match t
    case Column => assert ALL_BLOCK_TYPES[0] == t;
    case Row => assert ALL_BLOCK_TYPES[1] == t;
    case Text => assert ALL_BLOCK_TYPES[2] == t;
    case Spacer => assert ALL_BLOCK_TYPES[3] == t;
    case Button => assert ALL_BLOCK_TYPES[4] == t;
    case TextField => assert ALL_BLOCK_TYPES[5] == t;
    case Divider => assert ALL_BLOCK_TYPES[6] == t;
  }

  /** A visibility condition attached to a block. */
  datatype VisibilityRule = VisibilityRule(expression: string)

  /** A block: its kind, string properties, child blocks and an optional
      visibility rule. */
  datatype BlockNode = BlockNode(
    id: string,
    blockType: BlockType,
    props: map<string, string>,
    children: seq<BlockNode>,
    visibility: Option<VisibilityRule>)

  /** A block built from an id and a kind alone: no properties, no
      children, always visible. */
  function NewBlock(id: string, blockType: BlockType): (b: BlockNode)
    ensures b.id == id && b.blockType == blockType
    ensures b.props == map[] && b.children == [] && b.visibility.None?
  {
    BlockNode(id, blockType, map[], [], None)
  }

  datatype ScreenDocument = ScreenDocument(id: string, title: string, rootBlocks: seq<BlockNode>)

  datatype ProtocolSettings = ProtocolSettings(
    studyPeriodDays: int,
    collectSensor: bool,
    collectHealth: bool,
    collectSurvey: bool)

  datatype ProtocolDocument = ProtocolDocument(
    schemaVersion: int,
    protocolId: string,
    title: string,
    screens: seq<ScreenDocument>,
    settings: ProtocolSettings)

  /** The one schema version the app reads and writes. */
  const SUPPORTED_SCHEMA_VERSION: int := 1

  /** `ProtocolSettings()`: a 14-day study collecting everything. */
  const DEFAULT_SETTINGS: ProtocolSettings := ProtocolSettings(14, true, true, true)

  /** `ScreenDocument()`. */
  const DEFAULT_SCREEN: ScreenDocument := ScreenDocument("screen-1", "Screen 1", [])

  /** `ProtocolDocument()`. */
  const DEFAULT_DOCUMENT: ProtocolDocument :=
    ProtocolDocument(SUPPORTED_SCHEMA_VERSION, "protocol", "Untitled Protocol", [DEFAULT_SCREEN], DEFAULT_SETTINGS)

  /** `ProtocolDocument(screens = screens)`: the defaults with the given
      screens. */
  function DocumentWithScreens(screens: seq<ScreenDocument>): (d: ProtocolDocument)
    ensures d.screens == screens
    ensures d.schemaVersion == DEFAULT_DOCUMENT.schemaVersion && d.protocolId == DEFAULT_DOCUMENT.protocolId
    ensures d.title == DEFAULT_DOCUMENT.title && d.settings == DEFAULT_DOCUMENT.settings
  {
    DEFAULT_DOCUMENT.(screens := screens)
  }
}
