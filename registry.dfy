/**
 * The registry (`model.html`) parser of the GUI application
 * (`ModelDataParser`): element, folder and folder-content records recovered
 * from the `dataElements.push({...})`, `dataFolders.push({...})` and
 * `dataFoldersContent.push({...})` blocks of the report.
 */
module Registry {
  import opened Wrappers

  /**
   * One `push({...})` block after field extraction: each field name the
   * block declares in the form `name: "text"` (with non-empty text) mapped to
   * the first text captured for it.
   */
  type Block = map<string, string>

  /** The blocks of the three kinds, in the order they appear in the report. */
  datatype RegistryText = RegistryText(elementBlocks: seq<Block>, folderBlocks: seq<Block>, contentBlocks: seq<Block>)

  datatype ElementRecord = ElementRecord(id: string, name: Option<string>, elementType: Option<string>, documentation: Option<string>)

  datatype FolderRecord = FolderRecord(id: string, folderType: Option<string>, name: Option<string>)

  /** A folder-content edge: `folderid` contains `contentid`, of type `contenttype`. */
  datatype ContentEdge = ContentEdge(folderId: string, contentId: string, contentType: string)

  function Field(b: Block, f: string): Option<string> {
    if f in b then Some(b[f]) else None
  }

  predicate HasId(b: Block, k: string) {
    "id" in b && b["id"] == k
  }

  /** `decode_url`: the empty string is returned as is, anything else is URL-decoded. */
  function DecodeUrl(s: string, unquotePlus: string -> string): string {
    if s == "" then s else unquotePlus(s)
  }

  function DecodedField(b: Block, f: string, unquotePlus: string -> string): Option<string> {
    if f in b then Some(DecodeUrl(b[f], unquotePlus)) else None
  }

  /** The record one element block yields; a block without `id` yields none. */
  function ElementOf(b: Block, unquotePlus: string -> string): Option<ElementRecord> {
    if "id" in b then
      Some(ElementRecord(b["id"], DecodedField(b, "name", unquotePlus), Field(b, "type"),
                         DecodedField(b, "documentation", unquotePlus)))
    else None
  }

  function FolderOf(b: Block, unquotePlus: string -> string): Option<FolderRecord> {
    if "id" in b then Some(FolderRecord(b["id"], Field(b, "type"), DecodedField(b, "name", unquotePlus)))
    else None
  }

  /** A content edge needs both ends; a missing `contenttype` reads as 'Unknown'. */
  function EdgeOf(b: Block): Option<ContentEdge> {
    if "folderid" in b && "contentid" in b then
      Some(ContentEdge(b["folderid"], b["contentid"], Field(b, "contenttype").GetOr("Unknown")))
    else None
  }

  /** `self.elements` after the element blocks were read in order (later blocks overwrite). */
  function ElementsOf(blocks: seq<Block>, unquotePlus: string -> string): map<string, ElementRecord> {
    if blocks == [] then map[]
    else
      var d := ElementsOf(blocks[..|blocks| - 1], unquotePlus);
      match ElementOf(blocks[|blocks| - 1], unquotePlus)
      case Some(e) => d[e.id := e]
      case None => d
  }

  function FoldersOf(blocks: seq<Block>, unquotePlus: string -> string): map<string, FolderRecord> {
    if blocks == [] then map[]
    else
      var d := FoldersOf(blocks[..|blocks| - 1], unquotePlus);
      match FolderOf(blocks[|blocks| - 1], unquotePlus)
      case Some(f) => d[f.id := f]
      case None => d
  }

  /** `self.folder_contents`: the complete edges in discovery order. */
  function EdgesOf(blocks: seq<Block>): seq<ContentEdge> {
    if blocks == [] then []
    else
      var es := EdgesOf(blocks[..|blocks| - 1]);
      match EdgeOf(blocks[|blocks| - 1])
      case Some(e) => es + [e]
      case None => es
  }

  /** An element is registered exactly for the ids some block declares: blocks without `id` are dropped. */
  lemma {:induction false} ElementsOfKeys(blocks: seq<Block>, unquotePlus: string -> string, k: string)
    ensures k in ElementsOf(blocks, unquotePlus) <==> exists i :: 0 <= i < |blocks| && HasId(blocks[i], k)
  {
    if blocks != [] {
      var init := blocks[..|blocks| - 1];
      ElementsOfKeys(init, unquotePlus, k);
      if exists i :: 0 <= i < |blocks| && HasId(blocks[i], k) {
        var i :| 0 <= i < |blocks| && HasId(blocks[i], k);
        if i < |init| { assert HasId(init[i], k); }
      }
    }
  }

  /** The record kept for an id is the one built from the last block that declares it. */
  lemma {:induction false} ElementsOfLastWins(blocks: seq<Block>, unquotePlus: string -> string, i: nat)
    requires i < |blocks| && "id" in blocks[i]
    requires forall j :: i < j < |blocks| ==> !HasId(blocks[j], blocks[i]["id"])
    ensures blocks[i]["id"] in ElementsOf(blocks, unquotePlus)
    ensures ElementsOf(blocks, unquotePlus)[blocks[i]["id"]] == ElementOf(blocks[i], unquotePlus).value
  {
    var init := blocks[..|blocks| - 1];
    if i < |blocks| - 1 {
      ElementsOfLastWins(init, unquotePlus, i);
    }
  }

  lemma {:induction false} FoldersOfKeys(blocks: seq<Block>, unquotePlus: string -> string, k: string)
    ensures k in FoldersOf(blocks, unquotePlus) <==> exists i :: 0 <= i < |blocks| && HasId(blocks[i], k)
  {
    if blocks != [] {
      var init := blocks[..|blocks| - 1];
      FoldersOfKeys(init, unquotePlus, k);
      if exists i :: 0 <= i < |blocks| && HasId(blocks[i], k) {
        var i :| 0 <= i < |blocks| && HasId(blocks[i], k);
        if i < |init| { assert HasId(init[i], k); }
      }
    }
  }

  lemma {:induction false} FoldersOfLastWins(blocks: seq<Block>, unquotePlus: string -> string, i: nat)
    requires i < |blocks| && "id" in blocks[i]
    requires forall j :: i < j < |blocks| ==> !HasId(blocks[j], blocks[i]["id"])
    ensures blocks[i]["id"] in FoldersOf(blocks, unquotePlus)
    ensures FoldersOf(blocks, unquotePlus)[blocks[i]["id"]] == FolderOf(blocks[i], unquotePlus).value
  {
    var init := blocks[..|blocks| - 1];
    if i < |blocks| - 1 {
      FoldersOfLastWins(init, unquotePlus, i);
    }
  }

  /** Edges keep their discovery order: reading more blocks only appends. */
  lemma {:induction false} EdgesOfAppend(a: seq<Block>, b: seq<Block>)
    ensures EdgesOf(a + b) == EdgesOf(a) + EdgesOf(b)
    decreases |b|
  {
    if b == [] {
      assert a + b == a;
    } else {
      var b' := b[..|b| - 1];
      assert (a + b)[..|a + b| - 1] == a + b';
      EdgesOfAppend(a, b');
    }
  }

  /** Every edge comes from a block with both ends, and every such block yields its edge. */
  lemma {:induction false} EdgesOfMembers(blocks: seq<Block>, e: ContentEdge)
    ensures e in EdgesOf(blocks) <==> exists i :: 0 <= i < |blocks| && EdgeOf(blocks[i]) == Some(e)
  {
    if blocks != [] {
      var init := blocks[..|blocks| - 1];
      EdgesOfMembers(init, e);
      if exists i :: 0 <= i < |blocks| && EdgeOf(blocks[i]) == Some(e) {
        var i :| 0 <= i < |blocks| && EdgeOf(blocks[i]) == Some(e);
        if i < |init| { assert EdgeOf(init[i]) == Some(e); }
      }
    }
  }

  /** `get_element_documentation`: the documentation text, or '' when there is none. */
  function DocumentationOf(elements: map<string, ElementRecord>, elemId: string): (doc: string)
    ensures elemId !in elements ==> doc == ""
    ensures elemId in elements && elements[elemId].documentation.Some? ==> doc == elements[elemId].documentation.value
    ensures elemId in elements && elements[elemId].documentation.None? ==> doc == ""
  {
    if elemId in elements then elements[elemId].documentation.GetOr("") else ""
  }

  /**
   * The documentation looked up for `k` comes from the last element block that declares `k`,
   * URL-decoded, and is empty when that block has none or no block declares `k`.
   */
  lemma DocumentationFromBlocks(blocks: seq<Block>, unquotePlus: string -> string, k: string, i: nat)
    requires i < |blocks| && HasId(blocks[i], k)
    requires forall j :: i < j < |blocks| ==> !HasId(blocks[j], k)
    ensures DocumentationOf(ElementsOf(blocks, unquotePlus), k) ==
      if "documentation" in blocks[i] then DecodeUrl(blocks[i]["documentation"], unquotePlus) else ""
  {
    ElementsOfLastWins(blocks, unquotePlus, i);
  }

  lemma UndeclaredHasNoDocumentation(blocks: seq<Block>, unquotePlus: string -> string, k: string)
    requires forall i :: 0 <= i < |blocks| ==> !HasId(blocks[i], k)
    ensures DocumentationOf(ElementsOf(blocks, unquotePlus), k) == ""
  {
    ElementsOfKeys(blocks, unquotePlus, k);
  }

  /** The `dataElements` loop of `_parse_content`. */
  method CollectElements(blocks: seq<Block>, unquotePlus: string -> string) returns (elements: map<string, ElementRecord>)
    ensures elements == ElementsOf(blocks, unquotePlus)
  {
    elements := map[];
    for i := 0 to |blocks|
      invariant elements == ElementsOf(blocks[..i], unquotePlus)
    {
      assert blocks[..i + 1][..i] == blocks[..i];
      var b := blocks[i];
      if "id" in b {
        var record := ElementRecord(b["id"], DecodedField(b, "name", unquotePlus), Field(b, "type"),
                                    DecodedField(b, "documentation", unquotePlus));
        elements := elements[record.id := record];
      }
    }
    assert blocks[..|blocks|] == blocks;
  }

  /** The `dataFolders` loop of `_parse_content`. */
  method CollectFolders(blocks: seq<Block>, unquotePlus: string -> string) returns (folders: map<string, FolderRecord>)
    ensures folders == FoldersOf(blocks, unquotePlus)
  {
    folders := map[];
    for i := 0 to |blocks|
      invariant folders == FoldersOf(blocks[..i], unquotePlus)
    {
      assert blocks[..i + 1][..i] == blocks[..i];
      var b := blocks[i];
      if "id" in b {
        var record := FolderRecord(b["id"], Field(b, "type"), DecodedField(b, "name", unquotePlus));
        folders := folders[record.id := record];
      }
    }
    assert blocks[..|blocks|] == blocks;
  }

  /** The `dataFoldersContent` loop of `_parse_content`. */
  method CollectEdges(blocks: seq<Block>) returns (edges: seq<ContentEdge>)
    ensures edges == EdgesOf(blocks)
  {
    edges := [];
    for i := 0 to |blocks|
      invariant edges == EdgesOf(blocks[..i])
    {
      assert blocks[..i + 1][..i] == blocks[..i];
      var b := blocks[i];
      if "folderid" in b && "contentid" in b {
        var contentType := if "contenttype" in b then b["contenttype"] else "Unknown";
        edges := edges + [ContentEdge(b["folderid"], b["contentid"], contentType)];
      }
    }
    assert blocks[..|blocks|] == blocks;
  }

  class ModelDataParser {
    var elements: map<string, ElementRecord>
    var folders: map<string, FolderRecord>
    var folderContents: seq<ContentEdge>
    var loaded: bool

    constructor ()
      ensures elements == map[] && folders == map[] && folderContents == [] && !loaded
    {
      elements, folders, folderContents, loaded := map[], map[], [], false;
    }

    /**
     * `_parse_content`: the previous result is discarded first, so the new
     * state depends on the text alone (parsing the same text twice is the
     * same as parsing it once).
     */
    method ParseContent(content: RegistryText, unquotePlus: string -> string)
      modifies this
      ensures elements == ElementsOf(content.elementBlocks, unquotePlus)
      ensures folders == FoldersOf(content.folderBlocks, unquotePlus)
      ensures folderContents == EdgesOf(content.contentBlocks)
      ensures loaded == old(loaded)
    {
      elements, folders, folderContents := map[], map[], [];
      elements := CollectElements(content.elementBlocks, unquotePlus);
      folders := CollectFolders(content.folderBlocks, unquotePlus);
      folderContents := CollectEdges(content.contentBlocks);
    }

    /** `get_element_documentation` */
    function GetElementDocumentation(elemId: string): (doc: string)
      reads this
      ensures elemId !in elements ==> doc == ""
    {
      DocumentationOf(elements, elemId)
    }
  }
}
