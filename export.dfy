/**
 * What both generators share: which elements of a view are exported, the element and
 * relationship entries, and the flat z-ordered nodes of the diagram.
 */
module ViewExport {
  import opened Wrappers
  import opened OrderedDict
  import opened Ids
  import opened ViewParser
  import opened Registry
  import opened Document
  import opened ZOrder

  /** An element is exported when it has a box and an ArchiMate type. */
  predicate Kept(elements: Dict<string, ViewElement>, coordinates: Dict<string, Box>, k: string) {
    k in elements.values && k in coordinates.values && elements.values[k].elementType !in ExcludedTypes
  }

  /** The exported ids, in the order of `keys`. */
  function KeptIds(keys: seq<string>, elements: Dict<string, ViewElement>, coordinates: Dict<string, Box>): seq<string> {
    if keys == [] then []
    else
      var init := KeptIds(keys[..|keys| - 1], elements, coordinates);
      var k := keys[|keys| - 1];
      if Kept(elements, coordinates, k) then init + [k] else init
  }

  /** Exactly the kept keys are exported, each once when the keys are distinct. */
  lemma {:induction false} KeptIdsSpec(keys: seq<string>, elements: Dict<string, ViewElement>, coordinates: Dict<string, Box>)
    ensures forall k :: k in KeptIds(keys, elements, coordinates) <==> k in keys && Kept(elements, coordinates, k)
    ensures forall i :: 0 <= i < |KeptIds(keys, elements, coordinates)| ==> Kept(elements, coordinates, KeptIds(keys, elements, coordinates)[i])
    ensures (forall i, j :: 0 <= i < j < |keys| ==> keys[i] != keys[j]) ==>
      forall i, j :: 0 <= i < j < |KeptIds(keys, elements, coordinates)| ==> KeptIds(keys, elements, coordinates)[i] != KeptIds(keys, elements, coordinates)[j]
  {
    if keys != [] {
      var init := keys[..|keys| - 1];
      var k := keys[|keys| - 1];
      KeptIdsSpec(init, elements, coordinates);
      assert keys == init + [k];
      var ids := KeptIdsSpecStep(init, k, elements, coordinates);
      if forall i, j :: 0 <= i < j < |keys| ==> keys[i] != keys[j] {
        assert forall i, j :: 0 <= i < j < |init| ==> init[i] != init[j] by {
          forall i, j | 0 <= i < j < |init| ensures init[i] != init[j] { assert init[i] == keys[i] && init[j] == keys[j]; }
        }
        assert k !in init;
        assert k !in ids;
      }
    }
  }

  lemma KeptIdsSpecStep(init: seq<string>, k: string, elements: Dict<string, ViewElement>, coordinates: Dict<string, Box>)
    returns (ids: seq<string>)
    ensures ids == KeptIds(init, elements, coordinates)
    ensures KeptIds(init + [k], elements, coordinates) == if Kept(elements, coordinates, k) then ids + [k] else ids
  {
    ids := KeptIds(init, elements, coordinates);
    assert (init + [k])[..|init + [k]| - 1] == init;
  }

  /** `<element>` for `k`, with the registry's documentation when it is non-empty. */
  function ElementEntryOf(elements: Dict<string, ViewElement>, docs: map<string, ElementRecord>, k: string): ElementEntry
    requires k in elements.values
  {
    var e := elements.values[k];
    var doc := DocumentationOf(docs, k);
    ElementEntry(k, e.elementType, e.name, if doc != "" then Some(doc) else None)
  }

  function ElementEntries(ids: seq<string>, elements: Dict<string, ViewElement>, docs: map<string, ElementRecord>): seq<ElementEntry>
    requires forall i :: 0 <= i < |ids| ==> ids[i] in elements.values
  {
    seq(|ids|, i requires 0 <= i < |ids| => ElementEntryOf(elements, docs, ids[i]))
  }

  /** `<relationship>`: its name only when non-empty. */
  function RelationshipEntryOf(r: ViewRelationship): RelationshipEntry {
    RelationshipEntry(r.id, r.relType, r.source, r.target, if r.name != "" then Some(r.name) else None)
  }

  /** `all_relationships`: keyed by id, a later duplicate replacing the earlier one in its place. */
  function RelationshipsById(rels: seq<ViewRelationship>): (d: Dict<string, ViewRelationship>)
    ensures d.Valid()
  {
    if rels == [] then Empty()
    else
      var r := rels[|rels| - 1];
      RelationshipsById(rels[..|rels| - 1]).Put(r.id, r)
  }

  /** The ids kept are exactly the ids of the list. */
  lemma {:induction false} RelationshipsByIdKeys(rels: seq<ViewRelationship>, k: string)
    ensures k in RelationshipsById(rels).values <==> exists i :: 0 <= i < |rels| && rels[i].id == k
  {
    if rels != [] {
      var init := rels[..|rels| - 1];
      RelationshipsByIdKeys(init, k);
      if exists i :: 0 <= i < |rels| && rels[i].id == k {
        var i :| 0 <= i < |rels| && rels[i].id == k;
        if i < |init| { assert init[i] == rels[i]; }
      }
    }
  }

  /** The relationship kept for an id is the last one with that id. */
  lemma {:induction false} RelationshipsByIdLastWins(rels: seq<ViewRelationship>, i: nat)
    requires i < |rels| && forall j :: i < j < |rels| ==> rels[j].id != rels[i].id
    ensures rels[i].id in RelationshipsById(rels).values && RelationshipsById(rels).values[rels[i].id] == rels[i]
  {
    if i < |rels| - 1 {
      RelationshipsByIdLastWins(rels[..|rels| - 1], i);
    }
  }

  function RelationshipEntries(d: Dict<string, ViewRelationship>): seq<RelationshipEntry>
    requires d.Valid()
  {
    seq(|d.keys|, i requires 0 <= i < |d.keys| => RelationshipEntryOf(d.values[d.keys[i]]))
  }

  /** The `<elements>` section: one entry per exported element, in the view's order. */
  function ExportedElements(elements: Dict<string, ViewElement>, coordinates: Dict<string, Box>, docs: map<string, ElementRecord>): seq<ElementEntry> {
    var ids := KeptIds(elements.keys, elements, coordinates);
    KeptIdsSpec(elements.keys, elements, coordinates);
    ElementEntries(ids, elements, docs)
  }

  /** Each exported element is written once, with its type, its name and its non-empty documentation. */
  lemma ExportedElementsSpec(elements: Dict<string, ViewElement>, coordinates: Dict<string, Box>, docs: map<string, ElementRecord>)
    ensures var entries := ExportedElements(elements, coordinates, docs);
      && (forall k :: (exists i :: 0 <= i < |entries| && entries[i].identifier == k) <==> k in elements.keys && Kept(elements, coordinates, k))
      && forall i :: 0 <= i < |entries| ==>
        var k := entries[i].identifier;
        && k in elements.values
        && entries[i].elementType == elements.values[k].elementType && entries[i].elementType !in ExcludedTypes
        && entries[i].name == elements.values[k].name
        && (entries[i].documentation.Some? <==> DocumentationOf(docs, k) != "")
        && (entries[i].documentation.Some? ==> entries[i].documentation.value == DocumentationOf(docs, k))
    ensures var entries := ExportedElements(elements, coordinates, docs);
      elements.Valid() ==> forall i, j :: 0 <= i < j < |entries| ==> entries[i].identifier != entries[j].identifier
  {
    var ids := KeptIds(elements.keys, elements, coordinates);
    KeptIdsSpec(elements.keys, elements, coordinates);
    var entries := ExportedElements(elements, coordinates, docs);
    forall k ensures (exists i :: 0 <= i < |entries| && entries[i].identifier == k) <==> k in elements.keys && Kept(elements, coordinates, k) {
      if k in ids {
        var i :| 0 <= i < |ids| && ids[i] == k;
        assert entries[i].identifier == k;
      }
    }
  }

  /** The relationships in list order, duplicates included: what the command-line generator writes. */
  function RelationshipsInOrder(rels: seq<ViewRelationship>): seq<RelationshipEntry> {
    seq(|rels|, i requires 0 <= i < |rels| => RelationshipEntryOf(rels[i]))
  }

  /** The `<relationships>` section of the single-view export: absent when the view has none. */
  function RelationshipsSection(rels: seq<ViewRelationship>): Option<seq<RelationshipEntry>> {
    var d := RelationshipsById(rels);
    if d.keys == [] then None else Some(RelationshipEntries(d))
  }

  function RelationshipIds(rels: seq<ViewRelationship>): seq<string> {
    seq(|rels|, i requires 0 <= i < |rels| => rels[i].id)
  }

  /** Keying by id only drops duplicates: on distinct ids the list order survives. */
  lemma {:induction false} RelationshipsByIdDistinct(rels: seq<ViewRelationship>)
    requires forall i, j :: 0 <= i < j < |rels| ==> rels[i].id != rels[j].id
    ensures RelationshipsById(rels).keys == RelationshipIds(rels)
  {
    if rels != [] {
      var init := rels[..|rels| - 1];
      var r := rels[|rels| - 1];
      RelationshipsByIdDistinct(init);
      var d0 := RelationshipsById(init);
      assert r.id !in d0.keys by {
        forall i | 0 <= i < |init| ensures d0.keys[i] != r.id { assert init[i] == rels[i]; }
      }
      assert RelationshipIds(rels) == RelationshipIds(init) + [r.id];
    }
  }

  /** On distinct ids both generators write the same relationships section. */
  lemma RelationshipsSectionDistinct(rels: seq<ViewRelationship>)
    requires forall i, j :: 0 <= i < j < |rels| ==> rels[i].id != rels[j].id
    ensures RelationshipsSection(rels) == if rels == [] then None else Some(RelationshipsInOrder(rels))
  {
    RelationshipsByIdDistinct(rels);
    var d := RelationshipsById(rels);
    assert |d.keys| == |rels|;
    forall i | 0 <= i < |rels| ensures RelationshipEntries(d)[i] == RelationshipsInOrder(rels)[i] {
      assert d.keys[i] == rels[i].id;
      RelationshipsByIdLastWins(rels, i);
    }
    assert RelationshipEntries(d) == RelationshipsInOrder(rels);
  }

  function IdSet(rels: seq<ViewRelationship>): set<string> {
    set r | r in rels :: r.id
  }

  function EntryIdSet(entries: seq<RelationshipEntry>): set<string> {
    set e | e in entries :: e.identifier
  }

  /** The section is absent exactly when the view lists no relationship; otherwise its entries carry each id of the view exactly once. */
  lemma RelationshipsSectionSpec(rels: seq<ViewRelationship>)
    ensures RelationshipsSection(rels).None? <==> rels == []
    ensures RelationshipsSection(rels).Some? ==>
      EntryIdSet(RelationshipsSection(rels).value) == IdSet(rels)
    ensures RelationshipsSection(rels).Some? ==>
      forall i, j :: 0 <= i < j < |RelationshipsSection(rels).value| ==>
        RelationshipsSection(rels).value[i].identifier != RelationshipsSection(rels).value[j].identifier
  {
    var d := RelationshipsById(rels);
    if rels != [] {
      RelationshipsByIdKeys(rels, rels[0].id);
      assert rels[0].id in d.keys;
    }
    if d.keys != [] {
      var entries := RelationshipEntries(d);
      forall k | k in IdSet(rels) ensures k in EntryIdSet(entries) {
        var r :| r in rels && r.id == k;
        var j :| 0 <= j < |rels| && rels[j] == r;
        RelationshipsByIdKeys(rels, k);
        var i :| 0 <= i < |d.keys| && d.keys[i] == k;
        RelationshipIdStored(rels, k);
        assert entries[i].identifier == k;
      }
      forall k | k in EntryIdSet(entries) ensures k in IdSet(rels) {
        var e :| e in entries && e.identifier == k;
        var i :| 0 <= i < |entries| && entries[i] == e;
        RelationshipIdStored(rels, d.keys[i]);
        RelationshipsByIdKeys(rels, k);
        var j :| 0 <= j < |rels| && rels[j].id == k;
        assert rels[j] in rels;
      }
      forall i | 0 <= i < |entries| ensures entries[i].identifier == d.keys[i] {
        RelationshipIdStored(rels, d.keys[i]);
      }
    }
  }

  /** Each entry of the section is written from the last relationship of the view carrying its id. */
  lemma RelationshipsSectionLastWins(rels: seq<ViewRelationship>)
    ensures RelationshipsSection(rels).Some? ==>
      forall i :: 0 <= i < |RelationshipsSection(rels).value| ==>
        exists j :: (0 <= j < |rels| && RelationshipsSection(rels).value[i] == RelationshipEntryOf(rels[j])
          && forall l :: j < l < |rels| ==> rels[l].id != rels[j].id)
  {
    var d := RelationshipsById(rels);
    if d.keys != [] {
      var entries := RelationshipEntries(d);
      forall i | 0 <= i < |entries|
        ensures exists j :: (0 <= j < |rels| && entries[i] == RelationshipEntryOf(rels[j])
          && forall l :: j < l < |rels| ==> rels[l].id != rels[j].id)
      {
        var k := d.keys[i];
        RelationshipsByIdKeys(rels, k);
        var j := LastWithId(rels, k);
        RelationshipsByIdLastWins(rels, j);
        assert entries[i] == RelationshipEntryOf(rels[j]);
      }
    }
  }

  /** The last position of the list holding a relationship with id `k`. */
  lemma {:induction false} LastWithId(rels: seq<ViewRelationship>, k: string) returns (j: nat)
    requires exists i :: 0 <= i < |rels| && rels[i].id == k
    ensures j < |rels| && rels[j].id == k && forall l :: j < l < |rels| ==> rels[l].id != k
  {
    if rels[|rels| - 1].id == k {
      j := |rels| - 1;
    } else {
      var init := rels[..|rels| - 1];
      var i :| 0 <= i < |rels| && rels[i].id == k;
      assert init[i] == rels[i];
      j := LastWithId(init, k);
      assert init[j] == rels[j];
      forall l | j < l < |rels| ensures rels[l].id != k {
        if l < |init| { assert init[l] == rels[l]; }
      }
    }
  }

  /** The relationship stored under an id carries that id. */
  lemma {:induction false} RelationshipIdStored(rels: seq<ViewRelationship>, k: string)
    requires k in RelationshipsById(rels).values
    ensures RelationshipsById(rels).values[k].id == k
  {
    var init := rels[..|rels| - 1];
    if rels[|rels| - 1].id != k {
      RelationshipIdStored(init, k);
    }
  }

  /** The z-order candidates of the exported ids. */
  function CandidatesOf(ids: seq<string>, coordinates: Dict<string, Box>): seq<NodeCandidate>
    requires forall i :: 0 <= i < |ids| ==> ids[i] in coordinates.values
  {
    seq(|ids|, i requires 0 <= i < |ids| =>
      var b := coordinates.values[ids[i]]; NodeCandidate(ids[i], b, b.w * b.h))
  }

  /** `<node>` for each candidate in order, the `i`-th drawing identifier `random(offset + i)`. */
  function NodesOf(sorted: seq<NodeCandidate>, random: nat -> string, offset: nat): seq<Node> {
    seq(|sorted|, i requires 0 <= i < |sorted| =>
      var c := sorted[i];
      Node(GenId("node", random(offset + i)), c.elemId, c.box.x, c.box.y, c.box.w, c.box.h))
  }

  /** The diagram nodes of a view. */
  function ViewNodes(elements: Dict<string, ViewElement>, coordinates: Dict<string, Box>, random: nat -> string, offset: nat): seq<Node> {
    var ids := KeptIds(elements.keys, elements, coordinates);
    KeptIdsSpec(elements.keys, elements, coordinates);
    NodesOf(SortByAreaDesc(CandidatesOf(ids, coordinates)), random, offset)
  }

  function ElemIds(s: seq<NodeCandidate>): seq<string> {
    if s == [] then [] else [s[0].elemId] + ElemIds(s[1..])
  }

  lemma {:induction false} InsertElemIds(c: NodeCandidate, s: seq<NodeCandidate>)
    ensures multiset(ElemIds(Insert(c, s))) == multiset(ElemIds(s)) + multiset{c.elemId}
  {
    if s != [] && c.area < s[0].area {
      InsertElemIds(c, s[1..]);
      assert Insert(c, s)[1..] == Insert(c, s[1..]);
    } else {
      assert ([c] + s)[1..] == s;
    }
  }

  lemma {:induction false} SortElemIds(s: seq<NodeCandidate>)
    ensures multiset(ElemIds(SortByAreaDesc(s))) == multiset(ElemIds(s))
  {
    if s != [] {
      SortElemIds(s[1..]);
      InsertElemIds(s[0], SortByAreaDesc(s[1..]));
    }
  }

  lemma {:induction false} CandidateElemIds(ids: seq<string>, coordinates: Dict<string, Box>)
    requires forall i :: 0 <= i < |ids| ==> ids[i] in coordinates.values
    ensures ElemIds(CandidatesOf(ids, coordinates)) == ids
  {
    if ids != [] {
      CandidateElemIds(ids[1..], coordinates);
      assert CandidatesOf(ids, coordinates)[1..] == CandidatesOf(ids[1..], coordinates);
    }
  }

  lemma {:induction false} ElemIdsIndex(s: seq<NodeCandidate>, i: nat)
    requires i < |s|
    ensures |ElemIds(s)| == |s| && ElemIds(s)[i] == s[i].elemId
  {
    if i > 0 { ElemIdsIndex(s[1..], i - 1); } else if |s| > 1 { ElemIdsIndex(s[1..], 0); }
  }

  /** What the sort leaves of the candidates of `ids`: the same candidates, ordered, with the same ids. */
  lemma SortedCandidates(ids: seq<string>, coordinates: Dict<string, Box>)
    requires forall i :: 0 <= i < |ids| ==> ids[i] in coordinates.values
    ensures var cands := CandidatesOf(ids, coordinates);
      var sorted := SortByAreaDesc(cands);
      && |sorted| == |ids|
      && NonIncreasing(sorted)
      && multiset(ElemIds(sorted)) == multiset(ids)
      && forall i :: 0 <= i < |sorted| ==> exists m :: 0 <= m < |ids| && sorted[i] == cands[m]
  {
    var cands := CandidatesOf(ids, coordinates);
    var sorted := SortByAreaDesc(cands);
    SortByAreaDescOrdered(cands);
    SortElemIds(cands);
    CandidateElemIds(ids, coordinates);
    assert |sorted| == |cands| by { assert |multiset(sorted)| == |multiset(cands)|; }
    forall i | 0 <= i < |sorted| ensures exists m :: 0 <= m < |ids| && sorted[i] == cands[m] {
      assert sorted[i] in multiset(cands);
    }
  }

  lemma {:induction false} NodesRefs(sorted: seq<NodeCandidate>, random: nat -> string, offset: nat)
    ensures var nodes := NodesOf(sorted, random, offset);
      seq(|nodes|, i requires 0 <= i < |nodes| => nodes[i].elementRef) == ElemIds(sorted)
  {
    var nodes := NodesOf(sorted, random, offset);
    var refs := seq(|nodes|, i requires 0 <= i < |nodes| => nodes[i].elementRef);
    if sorted != [] {
      ElemIdsIndex(sorted, 0);
      forall i | 0 <= i < |sorted| ensures refs[i] == ElemIds(sorted)[i] { ElemIdsIndex(sorted, i); }
    }
  }

  /** The nodes reference the exported elements exactly once each: a permutation of the exported ids. */
  lemma ViewNodesPermutation(elements: Dict<string, ViewElement>, coordinates: Dict<string, Box>, random: nat -> string, offset: nat)
    ensures var nodes := ViewNodes(elements, coordinates, random, offset);
      multiset(seq(|nodes|, i requires 0 <= i < |nodes| => nodes[i].elementRef)) == multiset(KeptIds(elements.keys, elements, coordinates))
  {
    var ids := KeptIds(elements.keys, elements, coordinates);
    KeptIdsSpec(elements.keys, elements, coordinates);
    SortedCandidates(ids, coordinates);
    NodesRefs(SortByAreaDesc(CandidatesOf(ids, coordinates)), random, offset);
  }

  /** Each node carries the box of an exported element unchanged. */
  lemma ViewNodesBoxes(elements: Dict<string, ViewElement>, coordinates: Dict<string, Box>, random: nat -> string, offset: nat)
    ensures var nodes := ViewNodes(elements, coordinates, random, offset);
      forall i :: 0 <= i < |nodes| ==>
        var k := nodes[i].elementRef;
        && Kept(elements, coordinates, k)
        && nodes[i].x == coordinates.values[k].x && nodes[i].y == coordinates.values[k].y
        && nodes[i].w == coordinates.values[k].w && nodes[i].h == coordinates.values[k].h
  {
    var ids := KeptIds(elements.keys, elements, coordinates);
    KeptIdsSpec(elements.keys, elements, coordinates);
    SortedCandidates(ids, coordinates);
  }

  /** Node identifiers are distinct whenever the random parts drawn for them are. */
  lemma ViewNodesDistinctIds(elements: Dict<string, ViewElement>, coordinates: Dict<string, Box>, random: nat -> string, offset: nat)
    requires forall i, j :: offset <= i < j ==> random(i) != random(j)
    ensures var nodes := ViewNodes(elements, coordinates, random, offset);
      forall i, j :: 0 <= i < j < |nodes| ==> nodes[i].identifier != nodes[j].identifier
  {
    var nodes := ViewNodes(elements, coordinates, random, offset);
    forall i, j | 0 <= i < j < |nodes| ensures nodes[i].identifier != nodes[j].identifier {
      if nodes[i].identifier == nodes[j].identifier {
        GenIdInjective("node", random(offset + i), random(offset + j));
      }
    }
  }

  /** Larger boxes come first, so containers are drawn behind what they contain. */
  lemma ViewNodesZOrder(elements: Dict<string, ViewElement>, coordinates: Dict<string, Box>, random: nat -> string, offset: nat)
    ensures var nodes := ViewNodes(elements, coordinates, random, offset);
      forall i, j :: 0 <= i < j < |nodes| ==> nodes[i].w * nodes[i].h >= nodes[j].w * nodes[j].h
  {
    var ids := KeptIds(elements.keys, elements, coordinates);
    KeptIdsSpec(elements.keys, elements, coordinates);
    SortedCandidates(ids, coordinates);
    var cands := CandidatesOf(ids, coordinates);
    var sorted := SortByAreaDesc(cands);
    forall i | 0 <= i < |sorted| ensures sorted[i].area == sorted[i].box.w * sorted[i].box.h {
      var m :| 0 <= m < |ids| && sorted[i] == cands[m];
      assert cands[m].area == cands[m].box.w * cands[m].box.h;
    }
    var nodes := NodesOf(sorted, random, offset);
    assert nodes == ViewNodes(elements, coordinates, random, offset);
    forall i | 0 <= i < |nodes| ensures nodes[i].w * nodes[i].h == sorted[i].area {
      assert nodes[i].w == sorted[i].box.w && nodes[i].h == sorted[i].box.h;
    }
  }

  // -------------------------------------------------------------------------------- loops

  /** The loop that collects `nodes_to_add`. */
  method CollectCandidates(elements: Dict<string, ViewElement>, coordinates: Dict<string, Box>) returns (cands: seq<NodeCandidate>)
    ensures forall k :: k in KeptIds(elements.keys, elements, coordinates) ==> k in coordinates.values
    ensures cands == CandidatesOf(KeptIds(elements.keys, elements, coordinates), coordinates)
  {
    KeptIdsSpec(elements.keys, elements, coordinates);
    cands := [];
    for i := 0 to |elements.keys|
      invariant forall k :: k in KeptIds(elements.keys[..i], elements, coordinates) ==> k in coordinates.values
      invariant cands == CandidatesOf(KeptIds(elements.keys[..i], elements, coordinates), coordinates)
    {
      KeptIdsSpec(elements.keys[..i + 1], elements, coordinates);
      assert elements.keys[..i + 1][..i] == elements.keys[..i];
      var k := elements.keys[i];
      if Kept(elements, coordinates, k) {
        var b := coordinates.values[k];
        cands := cands + [NodeCandidate(k, b, b.w * b.h)];
      }
    }
    assert elements.keys[..|elements.keys|] == elements.keys;
  }

  /** The loop that writes the sorted `<node>` elements. */
  method EmitNodes(sorted: seq<NodeCandidate>, random: nat -> string, offset: nat) returns (nodes: seq<Node>)
    ensures nodes == NodesOf(sorted, random, offset)
  {
    nodes := [];
    for i := 0 to |sorted|
      invariant nodes == NodesOf(sorted[..i], random, offset)
    {
      var c := sorted[i];
      nodes := nodes + [Node(GenId("node", random(offset + i)), c.elemId, c.box.x, c.box.y, c.box.w, c.box.h)];
    }
    assert sorted[..|sorted|] == sorted;
  }

  /** The flat nodes section: candidates, z-order sort, then one node each. */
  method EmitViewNodes(elements: Dict<string, ViewElement>, coordinates: Dict<string, Box>, random: nat -> string, offset: nat)
    returns (nodes: seq<Node>)
    ensures nodes == ViewNodes(elements, coordinates, random, offset)
  {
    var cands := CollectCandidates(elements, coordinates);
    nodes := EmitNodes(SortByAreaDesc(cands), random, offset);
  }
}
