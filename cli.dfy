/**
 * The command-line converter (`html_to_archimate_xml.py`): the module-level registry cache
 * read from `model.html` and `create_archimate_xml`, which writes every relationship of the
 * view in list order and no organizations section.
 */
module Cli {
  import opened Wrappers
  import opened OrderedDict
  import opened Ids
  import opened ViewParser
  import opened Registry
  import opened Document
  import opened ViewExport

  /** The global `MODEL_DATA`: nothing until the first load, then the registry's elements for good. */
  class ModelDataCache {
    var modelData: Option<map<string, ElementRecord>>

    constructor ()
      ensures modelData.None?
    {
      modelData := None;
    }

    /**
     * `load_model_data`: a loaded cache is returned as it is, whatever the arguments; otherwise
     * the elements of the report are read, or none when the report file does not exist.
     */
    method LoadModelData(fileExists: bool, elementBlocks: seq<Block>, unquotePlus: string -> string)
      returns (data: map<string, ElementRecord>)
      modifies this
      ensures old(modelData).Some? ==> modelData == old(modelData)
      ensures old(modelData).None? && !fileExists ==> modelData == Some(map[])
      ensures old(modelData).None? && fileExists ==> modelData == Some(ElementsOf(elementBlocks, unquotePlus))
      ensures modelData == Some(data)
    {
      if modelData.Some? {
        return modelData.value;
      }
      modelData := Some(map[]);
      if !fileExists {
        return map[];
      }
      data := CollectElements(elementBlocks, unquotePlus);
      modelData := Some(data);
    }

    /** `get_element_documentation`: '' before any load. */
    function GetElementDocumentation(elemId: string): (doc: string)
      reads this
      ensures doc == DocumentationOf(DocsOf(modelData), elemId)
    {
      if modelData.Some? then DocumentationOf(modelData.value, elemId) else ""
    }
  }

  /** The elements the documentation is looked up in: none before the cache is loaded. */
  function DocsOf(modelData: Option<map<string, ElementRecord>>): map<string, ElementRecord> {
    modelData.GetOr(map[])
  }

  /** The loop of `create_archimate_xml` that writes the `<elements>` section. */
  method EmitViewElements(elements: Dict<string, ViewElement>, coordinates: Dict<string, Box>, cache: ModelDataCache)
    returns (entries: seq<ElementEntry>)
    ensures entries == ExportedElements(elements, coordinates, DocsOf(cache.modelData))
  {
    var keys := elements.keys;
    var docs := DocsOf(cache.modelData);
    entries := [];
    ghost var ids: seq<string> := [];
    for i := 0 to |keys|
      invariant ids == KeptIds(keys[..i], elements, coordinates)
      invariant forall j :: 0 <= j < |ids| ==> ids[j] in elements.values
      invariant |entries| == |ids|
      invariant forall j :: 0 <= j < |ids| ==> entries[j] == ElementEntryOf(elements, docs, ids[j])
    {
      var k := keys[i];
      assert keys[..i + 1] == keys[..i] + [k];
      ghost var before := KeptIdsSpecStep(keys[..i], k, elements, coordinates);
      if k in elements.values && k in coordinates.values && elements.values[k].elementType !in ExcludedTypes {
        var e := elements.values[k];
        var doc := cache.GetElementDocumentation(k);
        entries := entries + [ElementEntry(k, e.elementType, e.name, if doc != "" then Some(doc) else None)];
        ids := ids + [k];
      }
    }
    assert keys[..|keys|] == keys;
  }

  /** The loop of `create_archimate_xml` that writes the `<relationships>` section. */
  method EmitRelationshipList(rels: seq<ViewRelationship>) returns (entries: seq<RelationshipEntry>)
    ensures entries == RelationshipsInOrder(rels)
  {
    entries := [];
    for i := 0 to |rels|
      invariant |entries| == i
      invariant forall j :: 0 <= j < i ==> entries[j] == RelationshipEntryOf(rels[j])
    {
      entries := entries + [RelationshipEntryOf(rels[i])];
    }
  }

  /**
   * `create_archimate_xml`: the model takes the first fresh id, the view the second and the
   * nodes the following ones; the relationships section is present exactly when the list is
   * non-empty and keeps duplicates; there is no organizations section.
   */
  method CreateArchimateXml(cache: ModelDataCache, elements: Dict<string, ViewElement>, coordinates: Dict<string, Box>,
                            relationships: seq<ViewRelationship>, viewName: string, random: nat -> string)
    returns (doc: ModelDocument)
    ensures doc.identifier == GenId("model", random(0)) && doc.name == viewName
    ensures doc.elements == ExportedElements(elements, coordinates, DocsOf(cache.modelData))
    ensures doc.relationships == if relationships == [] then None else Some(RelationshipsInOrder(relationships))
    ensures doc.organizations.None?
    ensures doc.view == Diagram(GenId("view", random(1)), viewName, ViewNodes(elements, coordinates, random, 2))
  {
    var modelId := GenId("model", random(0));
    var viewId := GenId("view", random(1));
    var elementEntries := EmitViewElements(elements, coordinates, cache);
    var rels: Option<seq<RelationshipEntry>> := None;
    if relationships != [] {
      var entries := EmitRelationshipList(relationships);
      rels := Some(entries);
    }
    var nodes := EmitViewNodes(elements, coordinates, random, 2);
    doc := ModelDocument(modelId, viewName, elementEntries, rels, None, Diagram(viewId, viewName, nodes));
  }
}
