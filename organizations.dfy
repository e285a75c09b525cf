/**
 * `_add_organizations`: the organizations section of a single-view export, restricted to the
 * folders that lead to a concept of the view.
 */
module Organizations {
  import opened Wrappers
  import opened Registry
  import opened Document
  import opened FolderGraph
  import opened OrgItems

  /** `valid_ids`: the kept elements, the relationships and every non-empty view id. */
  function ValidIds(elementIds: set<string>, relationshipIds: set<string>, viewIds: seq<string>): (ids: set<string>)
    ensures forall k :: k in ids <==> k in elementIds || k in relationshipIds || (k in viewIds && k != "")
  {
    elementIds + relationshipIds + set v | v in viewIds && v != ""
  }

  /** The whitelisting index over the registry. */
  function IndexFor(folders: map<string, FolderRecord>, edges: seq<ContentEdge>, validIds: set<string>): FolderIndex {
    FolderIndex(ChildrenMap(edges), folders, validIds)
  }

  /** Registry folders from which some descent reaches a concept of the view. */
  ghost function ContentFolders(x: FolderIndex): set<string> {
    set f | f in x.folders && ReachesContent(x, f)
  }

  /** `for folder_id in root_folder_ids: add_folder_items(orgs_section, folder_id)` */
  method EmitRoots(x: FolderIndex, included: set<string>, roots: seq<string>) returns (r: Items)
    requires forall i :: 0 <= i < |roots| ==> roots[i] in x.folders && roots[i] in included
    ensures r.Ok? ==> |r.value| == |roots| && forall i :: 0 <= i < |roots| ==>
      r.value[i].FolderItem? && r.value[i].folderId == roots[i] && WellFormed(x, included, r.value[i])
    ensures r.Ok? ==> forall i :: 0 <= i < |roots| ==> ItemsOf(x, included, roots[i], |included|) == Ok([r.value[i]])
    ensures r.Err? <==> exists i :: 0 <= i < |roots| && Cyclic(x, included, roots[i])
  {
    var items: seq<OrgItem> := [];
    for i := 0 to |roots|
      invariant |items| == i
      invariant forall j :: 0 <= j < i ==> ItemsOf(x, included, roots[j], |included|) == Ok([items[j]])
    {
      var sub := AddFolderItems(x, included, roots[i], |included|);
      if sub.Err? {
        FailureIffCycle(x, included, roots[i]);
        return Err(sub.error);
      }
      ItemsOfWellFormed(x, included, roots[i], |included|);
      items := items + sub.value;
    }
    forall i | 0 <= i < |roots|
      ensures items[i].FolderItem? && items[i].folderId == roots[i] && WellFormed(x, included, items[i])
      ensures !Cyclic(x, included, roots[i])
    {
      RootItem(x, included, roots[i], items[i]);
    }
    return Ok(items);
  }

  lemma RootItem(x: FolderIndex, included: set<string>, f: string, it: OrgItem)
    requires ItemsOf(x, included, f, |included|) == Ok([it])
    ensures it.FolderItem? && it.folderId == f && WellFormed(x, included, it)
    ensures !Cyclic(x, included, f)
  {
    ItemsOfWellFormed(x, included, f, |included|);
    FailureIffCycle(x, included, f);
  }

  /**
   * What the organizations section promises: the kept folders are the ancestors of the folders
   * with content; the section holds, for each kept root and nothing else, the tree
   * `add_folder_items` builds from it, or the recursion fails exactly when a root reaches a
   * loop in the folder structure.
   */
  ghost predicate Whitelisted(folders: map<string, FolderRecord>, edges: seq<ContentEdge>, validIds: set<string>,
                              included: set<string>, r: Items)
  {
    var x := IndexFor(folders, edges, validIds);
    && (forall f :: f in included <==> AncestorOf(edges, ContentFolders(x), f))
    && (r.Ok? ==> forall i :: 0 <= i < |r.value| ==>
      && r.value[i].FolderItem? && r.value[i].folderId in included && IsRoot(folders, edges, r.value[i].folderId)
      && WellFormed(x, included, r.value[i]))
    && (r.Ok? ==> forall f :: f in included && IsRoot(folders, edges, f) ==>
      exists i :: 0 <= i < |r.value| && r.value[i].FolderItem? && r.value[i].folderId == f)
    && (r.Ok? ==> forall i, j :: 0 <= i < j < |r.value| && r.value[i].FolderItem? && r.value[j].FolderItem? ==>
      r.value[i].folderId != r.value[j].folderId)
    && (r.Ok? ==> forall i :: 0 <= i < |r.value| ==>
      ItemsOf(x, included, r.value[i].folderId, |included|) == Ok([r.value[i]]))
    && (r.Err? <==> exists f :: f in included && IsRoot(folders, edges, f) && Cyclic(x, included, f))
  }

  /** `_add_organizations` from the valid ids on. */
  method AddOrganizations(folders: map<string, FolderRecord>, edges: seq<ContentEdge>, validIds: set<string>)
    returns (r: Items, included: set<string>)
    ensures Whitelisted(folders, edges, validIds, included, r)
  {
    var fc := BuildFolderChildren(edges);
    var x := FolderIndex(fc, folders, validIds);
    var withContent := IncludedFolders(x);
    assert withContent == ContentFolders(x);
    var inc := IncludeAncestors(edges, withContent);
    forall f ensures f in inc <==> AncestorOf(edges, withContent, f) {
      ClosureIsAncestors(edges, withContent, inc, f);
    }
    included := inc;
    var roots := RootFolders(folders, edges, inc);
    forall i | 0 <= i < |roots| ensures roots[i] in x.folders && roots[i] in inc {
      assert roots[i] in roots;
    }
    r := EmitRoots(x, inc, roots);
    if r.Err? {
      return;
    }
    var items := r.value;
    forall f | f in inc && IsRoot(folders, edges, f)
      ensures exists i :: 0 <= i < |items| && items[i].FolderItem? && items[i].folderId == f
    {
      var i :| 0 <= i < |roots| && roots[i] == f;
      assert items[i].folderId == f;
    }
  }

  /**
   * Nothing under a root is dropped: each child of a written folder that is a kept folder or a
   * valid id appears under that folder's item.
   */
  lemma SectionComplete(folders: map<string, FolderRecord>, edges: seq<ContentEdge>, validIds: set<string>,
                        included: set<string>, items: seq<OrgItem>, i: nat, k: nat)
    requires Whitelisted(folders, edges, validIds, included, Ok(items))
    requires i < |items| && k < |Kids(ChildrenMap(edges), items[i].folderId)|
    ensures var x := IndexFor(folders, edges, validIds);
      var c := Kids(x.children, items[i].folderId)[k];
      && items[i].caption == Label(x, items[i].folderId)
      && (c.contentType == "Folder" && c.contentId in included && c.contentId in folders ==>
            exists j :: 0 <= j < |items[i].items| && items[i].items[j].FolderItem? && items[i].items[j].folderId == c.contentId)
      && (!(c.contentType == "Folder" && c.contentId in included) && c.contentId in validIds ==>
            RefItem(c.contentId) in items[i].items)
  {
    var x := IndexFor(folders, edges, validIds);
    FolderItemComplete(x, included, items[i].folderId, |included|, items[i], k);
  }
}
