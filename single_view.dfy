/**
 * The GUI application's exporter (`ArchiMateXMLGenerator.create_single_view_xml`): one parsed
 * view becomes a model document with its elements, its relationships keyed by id, the
 * whitelisted folder structure of the registry and the flat z-ordered diagram.
 */
module SingleView {
  import opened Wrappers
  import opened OrderedDict
  import opened Ids
  import opened ViewParser
  import opened Registry
  import opened Document
  import opened OrgItems
  import opened Organizations
  import opened ViewExport

  /** The loop that fills `all_elements`: the view's exported elements, in the view's order. */
  method KeepElements(elements: Dict<string, ViewElement>, coordinates: Dict<string, Box>) returns (kept: Dict<string, ViewElement>)
    requires elements.Valid()
    ensures kept.Valid()
    ensures kept.keys == KeptIds(elements.keys, elements, coordinates)
    ensures forall k :: k in kept.values ==> k in elements.values && kept.values[k] == elements.values[k]
  {
    kept := Empty();
    for i := 0 to |elements.keys|
      invariant kept.Valid()
      invariant kept.keys == KeptIds(elements.keys[..i], elements, coordinates)
      invariant forall k :: k in kept.values ==> k in elements.values && kept.values[k] == elements.values[k]
    {
      var k := elements.keys[i];
      assert elements.keys[..i + 1] == elements.keys[..i] + [k];
      ghost var ids := KeptIdsSpecStep(elements.keys[..i], k, elements, coordinates);
      if k in coordinates.values && elements.values[k].elementType !in ExcludedTypes {
        KeptIdsSpec(elements.keys[..i], elements, coordinates);
        assert k !in elements.keys[..i];
        kept := kept.Put(k, elements.values[k]);
      }
    }
    assert elements.keys[..|elements.keys|] == elements.keys;
  }

  /** The loop over `all_elements` that writes the `<elements>` section. */
  method EmitElements(kept: Dict<string, ViewElement>, docs: map<string, ElementRecord>) returns (entries: seq<ElementEntry>)
    requires kept.Valid()
    ensures entries == ElementEntries(kept.keys, kept, docs)
  {
    entries := [];
    for i := 0 to |kept.keys|
      invariant entries == ElementEntries(kept.keys[..i], kept, docs)
    {
      var k := kept.keys[i];
      var e := kept.values[k];
      var doc := DocumentationOf(docs, k);
      entries := entries + [ElementEntry(k, e.elementType, e.name, if doc != "" then Some(doc) else None)];
    }
    assert kept.keys[..|kept.keys|] == kept.keys;
  }

  /** The loop that fills `all_relationships`. */
  method IndexRelationships(rels: seq<ViewRelationship>) returns (d: Dict<string, ViewRelationship>)
    ensures d == RelationshipsById(rels)
  {
    d := Empty();
    for i := 0 to |rels|
      invariant d == RelationshipsById(rels[..i])
    {
      assert rels[..i + 1][..i] == rels[..i];
      d := d.Put(rels[i].id, rels[i]);
    }
    assert rels[..|rels|] == rels;
  }

  /** The loop over `all_relationships` that writes the `<relationships>` section. */
  method EmitRelationships(d: Dict<string, ViewRelationship>) returns (entries: seq<RelationshipEntry>)
    requires d.Valid()
    ensures entries == RelationshipEntries(d)
  {
    entries := [];
    for i := 0 to |d.keys|
      invariant |entries| == i
      invariant forall j :: 0 <= j < i ==> entries[j] == RelationshipEntryOf(d.values[d.keys[j]])
    {
      entries := entries + [RelationshipEntryOf(d.values[d.keys[i]])];
    }
  }

  /** `valid_ids` of a single-view export: its exported elements, its relationships and its id. */
  function SingleViewIds(view: ViewData): set<string> {
    ValidIds(set k | k in KeptIds(view.elements.keys, view.elements, view.coordinates),
             set k | k in RelationshipsById(view.relationships).values, [view.viewId])
  }

  class ArchiMateXmlGenerator {
    const modelData: ModelDataParser

    constructor (modelData: ModelDataParser)
      ensures this.modelData == modelData
    {
      this.modelData := modelData;
    }

    /**
     * `create_single_view_xml`: the model is identified by the first fresh id and the nodes take
     * the following ones; the organizations section is present exactly when the registry has
     * both folders and folder contents, and then keeps the ancestors of the folders that hold a
     * concept of the view. The export fails only where the folder recursion would not end.
     */
    method CreateSingleViewXml(view: ViewData, random: nat -> string)
      returns (r: Result<ModelDocument, BuildError>, included: set<string>)
      requires view.elements.Valid() && view.coordinates.Valid()
      ensures r.Ok? ==> r.value.identifier == GenId("model", random(0)) && r.value.name == view.viewName
      ensures r.Ok? ==> r.value.elements == ExportedElements(view.elements, view.coordinates, modelData.elements)
      ensures r.Ok? ==> r.value.relationships == RelationshipsSection(view.relationships)
      ensures r.Ok? ==> r.value.view == Diagram(view.viewId, view.viewName, ViewNodes(view.elements, view.coordinates, random, 1))
      ensures modelData.folders == map[] || modelData.folderContents == [] ==> r.Ok? && r.value.organizations.None?
      ensures modelData.folders != map[] && modelData.folderContents != [] ==>
        && (r.Ok? ==> r.value.organizations.Some?)
        && Whitelisted(modelData.folders, modelData.folderContents, SingleViewIds(view), included,
                       if r.Ok? then Ok(r.value.organizations.value) else Err(r.error))
    {
      var modelId := GenId("model", random(0));
      var kept := KeepElements(view.elements, view.coordinates);
      var byId := IndexRelationships(view.relationships);
      var elementEntries := EmitElements(kept, modelData.elements);
      assert elementEntries == ExportedElements(view.elements, view.coordinates, modelData.elements);
      var relationships: Option<seq<RelationshipEntry>> := None;
      if byId.keys != [] {
        var entries := EmitRelationships(byId);
        relationships := Some(entries);
      }
      var organizations: Option<seq<OrgItem>> := None;
      included := {};
      if modelData.folders != map[] && modelData.folderContents != [] {
        var elementIds := set k | k in kept.values;
        assert elementIds == set k | k in KeptIds(view.elements.keys, view.elements, view.coordinates);
        var validIds := ValidIds(elementIds, set k | k in byId.values, [view.viewId]);
        var items;
        items, included := AddOrganizations(modelData.folders, modelData.folderContents, validIds);
        if items.Err? {
          return Err(items.error), included;
        }
        organizations := Some(items.value);
      }
      var nodes := EmitViewNodes(view.elements, view.coordinates, random, 1);
      r := Ok(ModelDocument(modelId, view.viewName, elementEntries, relationships, organizations,
                            Diagram(view.viewId, view.viewName, nodes)));
    }
  }
}
