/**
 * The folder whitelisting of `_add_organizations`: which folders of the model registry are
 * kept because they (transitively) hold a concept of the exported view, which ancestors are
 * added back, and which kept folders are roots.
 */
module FolderGraph {
  import opened Wrappers
  import opened Registry

  /** One `(content_id, content_type)` entry of `folder_children`. */
  datatype Child = Child(contentId: string, contentType: string)

  type FolderChildren = map<string, seq<Child>>

  /** What the whitelisting looks at: the children index, the registry's folders and the ids of the view. */
  datatype FolderIndex = FolderIndex(children: FolderChildren, folders: map<string, FolderRecord>, validIds: set<string>)

  /** `folder_children.get(f, [])` */
  function Kids(fc: FolderChildren, f: string): seq<Child> {
    if f in fc then fc[f] else []
  }

  /** Reference: the content edges of folder `f`, in registry order. */
  function ChildrenOf(edges: seq<ContentEdge>, f: string): seq<Child> {
    if edges == [] then []
    else
      var e := edges[|edges| - 1];
      var init := ChildrenOf(edges[..|edges| - 1], f);
      if e.folderId == f then init + [Child(e.contentId, e.contentType)] else init
  }

  /** `folder_children` after the edges have been added in order. */
  function ChildrenMap(edges: seq<ContentEdge>): FolderChildren {
    if edges == [] then map[]
    else
      var e := edges[|edges| - 1];
      var m := ChildrenMap(edges[..|edges| - 1]);
      m[e.folderId := Kids(m, e.folderId) + [Child(e.contentId, e.contentType)]]
  }

  /** The index lists, for each folder, its content edges in registry order, and has an entry exactly for the folders that have one. */
  lemma {:induction false} ChildrenMapSpec(edges: seq<ContentEdge>, f: string)
    ensures Kids(ChildrenMap(edges), f) == ChildrenOf(edges, f)
    ensures f in ChildrenMap(edges) <==> exists i :: 0 <= i < |edges| && edges[i].folderId == f
  {
    if edges != [] {
      var init := edges[..|edges| - 1];
      ChildrenMapSpec(init, f);
      if exists i :: 0 <= i < |edges| && edges[i].folderId == f {
        var i :| 0 <= i < |edges| && edges[i].folderId == f;
        if i < |init| { assert init[i] == edges[i]; }
      }
    }
  }

  /** The `for fc in folder_contents` loop that builds `folder_children`. */
  method BuildFolderChildren(edges: seq<ContentEdge>) returns (fc: FolderChildren)
    ensures fc == ChildrenMap(edges)
  {
    fc := map[];
    for i := 0 to |edges|
      invariant fc == ChildrenMap(edges[..i])
    {
      assert edges[..i + 1][..i] == edges[..i];
      var e := edges[i];
      if e.folderId !in fc {
        fc := fc[e.folderId := []];
      }
      fc := fc[e.folderId := fc[e.folderId] + [Child(e.contentId, e.contentType)]];
    }
    assert edges[..|edges|] == edges;
  }

  // ---------------------------------------------------------------------------------------
  // folder_has_valid_content: a depth-first search with one visited set per top-level call

  /** The search descends into a child marked 'Folder' or whose id is a registry folder. */
  predicate Descends(x: FolderIndex, c: Child) {
    c.contentType == "Folder" || c.contentId in x.folders
  }

  ghost predicate Edge(x: FolderIndex, f: string, g: string) {
    exists k :: 0 <= k < |Kids(x.children, f)| && Kids(x.children, f)[k].contentId == g && Descends(x, Kids(x.children, f)[k])
  }

  /** `f` directly holds a concept of the view. */
  ghost predicate Hit(x: FolderIndex, f: string) {
    exists k :: 0 <= k < |Kids(x.children, f)| && Kids(x.children, f)[k].contentId in x.validIds
  }

  ghost predicate HitPath(x: FolderIndex, p: seq<string>) {
    && |p| > 0
    && (forall i :: 0 <= i < |p| - 1 ==> Edge(x, p[i], p[i + 1]))
    && Hit(x, p[|p| - 1])
  }

  /** Reference for the search: some descent from `f` reaches a folder holding a concept of the view. */
  ghost predicate ReachesContent(x: FolderIndex, f: string) {
    exists p :: HitPath(x, p) && p[0] == f
  }

  /** `n` holds no concept and all its descents stay in `s`. */
  ghost predicate ClosedAt(x: FolderIndex, s: set<string>, n: string) {
    !Hit(x, n) && forall g :: Edge(x, n, g) ==> g in s
  }

  ghost function ChildIds(fc: FolderChildren): set<string> {
    set f, k | f in fc && 0 <= k < |fc[f]| :: fc[f][k].contentId
  }

  lemma SmallerRemainder(u: set<string>, a: set<string>, b: set<string>, n: string)
    requires a + {n} <= b && n in u && n !in a
    ensures |u - b| < |u - a|
  {
    var r := (u - a) - {n};
    assert u - b <= r;
    assert |r| == |u - a| - 1;
    SubsetCard(u - b, r);
  }

  lemma {:induction false} SubsetCard(a: set<string>, b: set<string>)
    requires a <= b
    ensures |a| <= |b|
    decreases |b|
  {
    if a != {} {
      var e :| e in a;
      SubsetCard(a - {e}, b - {e});
    }
  }

  lemma ClosedGrows(x: FolderIndex, s: set<string>, t: set<string>, n: string)
    requires ClosedAt(x, s, n) && s <= t
    ensures ClosedAt(x, t, n)
  {
  }

  lemma HitHere(x: FolderIndex, f: string, k: nat)
    requires k < |Kids(x.children, f)| && Kids(x.children, f)[k].contentId in x.validIds
    ensures ReachesContent(x, f)
  {
    assert HitPath(x, [f]);
  }

  lemma PrependEdge(x: FolderIndex, f: string, k: nat)
    requires k < |Kids(x.children, f)| && Descends(x, Kids(x.children, f)[k])
    requires ReachesContent(x, Kids(x.children, f)[k].contentId)
    ensures ReachesContent(x, f)
  {
    var g := Kids(x.children, f)[k].contentId;
    var p :| HitPath(x, p) && p[0] == g;
    var q := [f] + p;
    assert Edge(x, f, g);
    assert forall i :: 1 <= i < |q| - 1 ==> q[i] == p[i - 1] && q[i + 1] == p[i];
    assert HitPath(x, q);
  }

  /** A set that holds no concept and is closed under descent blocks every path out of it. */
  lemma ClosedBlocks(x: FolderIndex, s: set<string>, f: string)
    requires f in s
    requires forall n :: n in s ==> ClosedAt(x, s, n)
    ensures !ReachesContent(x, f)
  {
    if p :| HitPath(x, p) && p[0] == f {
      PathStaysIn(x, s, p, |p| - 1);
    }
  }

  lemma {:induction false} PathStaysIn(x: FolderIndex, s: set<string>, p: seq<string>, i: nat)
    requires i < |p| && p[0] in s
    requires forall j :: 0 <= j < |p| - 1 ==> Edge(x, p[j], p[j + 1])
    requires forall n :: n in s ==> ClosedAt(x, s, n)
    ensures p[i] in s
  {
    if i > 0 {
      PathStaysIn(x, s, p, i - 1);
      assert Edge(x, p[i - 1], p[i]);
    }
  }

  /**
   * `folder_has_valid_content(folder_id, visited)`. A folder already visited counts as empty;
   * otherwise it is marked and its children are tried in order, a child id of the view
   * ending the search at once. `visited` is shared with the recursive calls, so it comes
   * back as `visitedOut`.
   */
  method FolderHasValidContent(x: FolderIndex, folderId: string, visited: set<string>, ghost universe: set<string>)
    returns (found: bool, visitedOut: set<string>)
    requires folderId in universe && ChildIds(x.children) <= universe
    ensures visited + {folderId} <= visitedOut
    ensures found ==> ReachesContent(x, folderId)
    ensures !found ==> forall n :: n in visitedOut && n !in visited ==> ClosedAt(x, visitedOut, n)
    decreases |universe - visited|
  {
    if folderId in visited {
      return false, visited;
    }
    visitedOut := visited + {folderId};
    var kids := Kids(x.children, folderId);
    var k := 0;
    while k < |kids|
      invariant 0 <= k <= |kids|
      invariant visited + {folderId} <= visitedOut
      invariant forall j :: 0 <= j < k ==> kids[j].contentId !in x.validIds
      invariant forall j :: 0 <= j < k && Descends(x, kids[j]) ==> kids[j].contentId in visitedOut
      invariant forall n :: n in visitedOut && n !in visited && n != folderId ==> ClosedAt(x, visitedOut, n)
    {
      var c := kids[k];
      if c.contentId in x.validIds {
        HitHere(x, folderId, k);
        return true, visitedOut;
      }
      if Descends(x, c) {
        assert c.contentId in ChildIds(x.children);
        SmallerRemainder(universe, visited, visitedOut, folderId);
        var sub, after := FolderHasValidContent(x, c.contentId, visitedOut, universe);
        if sub {
          PrependEdge(x, folderId, k);
          return true, after;
        }
        forall n | n in visitedOut && n !in visited && n != folderId
          ensures ClosedAt(x, after, n)
        {
          ClosedGrows(x, visitedOut, after, n);
        }
        visitedOut := after;
      }
      k := k + 1;
    }
    found := false;
  }

  /** `folder_has_valid_content(folder_id)` with a fresh visited set: exactly the reference. */
  method HasValidContent(x: FolderIndex, folderId: string) returns (found: bool)
    ensures found <==> ReachesContent(x, folderId)
  {
    ghost var universe := ChildIds(x.children) + {folderId};
    var visitedOut;
    found, visitedOut := FolderHasValidContent(x, folderId, {}, universe);
    if !found {
      ClosedBlocks(x, visitedOut, folderId);
    }
  }

  /** `included_folders` before ancestors are added: the registry folders with content of the view. */
  method IncludedFolders(x: FolderIndex) returns (included: set<string>)
    ensures forall f :: f in included <==> f in x.folders && ReachesContent(x, f)
  {
    included := {};
    var rest := x.folders.Keys;
    while rest != {}
      invariant rest <= x.folders.Keys
      invariant forall f :: f in included <==> f in x.folders && f !in rest && ReachesContent(x, f)
      decreases |rest|
    {
      var f :| f in rest;
      var found := HasValidContent(x, f);
      if found {
        included := included + {f};
      }
      rest := rest - {f};
    }
  }

  // ---------------------------------------------------------------------------------------
  // get_parent_folder and the ancestor closure

  predicate IsParentEdge(e: ContentEdge, f: string) {
    e.contentId == f && e.contentType == "Folder"
  }

  /** `get_parent_folder`: the folder of the first 'Folder' content edge naming `f`, if any. */
  function GetParentFolder(edges: seq<ContentEdge>, f: string): Option<string> {
    if edges == [] then None
    else if IsParentEdge(edges[0], f) then Some(edges[0].folderId)
    else GetParentFolder(edges[1..], f)
  }

  /** The parent found is the one recorded by the first matching edge; none is found exactly when no edge matches. */
  lemma {:induction false} GetParentFolderFirst(edges: seq<ContentEdge>, f: string)
    ensures GetParentFolder(edges, f).None? <==> forall i :: 0 <= i < |edges| ==> !IsParentEdge(edges[i], f)
    ensures GetParentFolder(edges, f).Some? ==>
      exists i :: (0 <= i < |edges| && IsParentEdge(edges[i], f) && edges[i].folderId == GetParentFolder(edges, f).value
        && forall j :: 0 <= j < i ==> !IsParentEdge(edges[j], f))
  {
    if edges != [] && !IsParentEdge(edges[0], f) {
      GetParentFolderFirst(edges[1..], f);
      assert forall i :: 1 <= i < |edges| ==> edges[i] == edges[1..][i - 1];
      if GetParentFolder(edges, f).Some? {
        var i :| 0 <= i < |edges[1..]| && IsParentEdge(edges[1..][i], f) && edges[1..][i].folderId == GetParentFolder(edges, f).value
          && forall j :: 0 <= j < i ==> !IsParentEdge(edges[1..][j], f);
        assert forall j :: 0 <= j < i + 1 ==> !IsParentEdge(edges[j], f) by {
          forall j | 0 <= j < i + 1 ensures !IsParentEdge(edges[j], f) {
            if j > 0 { assert edges[j] == edges[1..][j - 1]; }
          }
        }
        assert edges[i + 1] == edges[1..][i];
      }
    }
  }

  /** The loop of `get_parent_folder`. */
  method FindParentFolder(edges: seq<ContentEdge>, f: string) returns (p: Option<string>)
    ensures p == GetParentFolder(edges, f)
  {
    for i := 0 to |edges|
      invariant GetParentFolder(edges, f) == GetParentFolder(edges[i..], f)
    {
      assert edges[i..][1..] == edges[i + 1..];
      if IsParentEdge(edges[i], f) {
        return Some(edges[i].folderId);
      }
    }
    return None;
  }

  /** The parent the closure follows: `if parent_id and ...` skips a missing or empty one. */
  function StepUp(edges: seq<ContentEdge>, f: string): Option<string> {
    var p := GetParentFolder(edges, f);
    if p.Some? && p.value != "" then p else None
  }

  /** `f` after `k` steps up. */
  function Ascend(edges: seq<ContentEdge>, f: string, k: nat): Option<string> {
    if k == 0 then Some(f)
    else
      match Ascend(edges, f, k - 1)
      case None => None
      case Some(g) => StepUp(edges, g)
  }

  ghost predicate AncestorOf(edges: seq<ContentEdge>, initial: set<string>, f: string) {
    exists g: string, k: nat :: g in initial && Ascend(edges, g, k) == Some(f)
  }

  ghost function ParentIds(edges: seq<ContentEdge>): set<string> {
    if edges == [] then {} else {edges[0].folderId} + ParentIds(edges[1..])
  }

  /** `list(s)`: the elements of a set in an order the model leaves open. */
  method ListOf(s: set<string>) returns (work: seq<string>)
    ensures forall f :: f in work <==> f in s
  {
    work := [];
    var rest := s;
    while rest != {}
      invariant rest <= s
      invariant forall f :: f in work <==> f in s && f !in rest
      decreases |rest|
    {
      var f :| f in rest;
      work := work + [f];
      rest := rest - {f};
    }
  }

  lemma AncestorStep(edges: seq<ContentEdge>, initial: set<string>, f: string)
    requires AncestorOf(edges, initial, f) && StepUp(edges, f).Some?
    ensures AncestorOf(edges, initial, StepUp(edges, f).value)
  {
    var g: string, k: nat :| g in initial && Ascend(edges, g, k) == Some(f);
    assert Ascend(edges, g, k + 1) == StepUp(edges, f);
  }

  lemma {:induction false} ParentIsRecorded(edges: seq<ContentEdge>, f: string)
    requires GetParentFolder(edges, f).Some?
    ensures GetParentFolder(edges, f).value in ParentIds(edges)
  {
    if !IsParentEdge(edges[0], f) {
      ParentIsRecorded(edges[1..], f);
    }
  }

  /** The parent the closure follows from `f`, if any, is in `s`. */
  predicate ParentKept(edges: seq<ContentEdge>, s: set<string>, f: string) {
    StepUp(edges, f).Some? ==> StepUp(edges, f).value in s
  }

  /** What holds of the worklist between steps: everything done has its parent kept, and only ancestors are kept. */
  ghost predicate Worklist(edges: seq<ContentEdge>, initial: set<string>, included: set<string>, work: seq<string>) {
    && initial <= included <= initial + ParentIds(edges)
    && (forall f :: f in work ==> f in included)
    && (forall f :: f in included && f !in work ==> ParentKept(edges, included, f))
    && (forall f :: f in included ==> AncestorOf(edges, initial, f))
  }

  /** Taking `f` off the end of the worklist when its parent is already kept (or absent) keeps the worklist property. */
  lemma WorklistPop(edges: seq<ContentEdge>, initial: set<string>, included: set<string>, work: seq<string>)
    requires work != [] && Worklist(edges, initial, included, work)
    requires ParentKept(edges, included, work[|work| - 1])
    ensures Worklist(edges, initial, included, work[..|work| - 1])
  {
    var f := work[|work| - 1];
    var rest := work[..|work| - 1];
    assert work == rest + [f];
    forall g | g in rest ensures g in included {
      assert g in work;
    }
    forall g | g in included && g !in rest ensures ParentKept(edges, included, g) {
      if g in work {
        assert g == f;
      }
    }
  }

  /** Taking `f` off the end of the worklist and pushing its new parent keeps the worklist property. */
  lemma WorklistPush(edges: seq<ContentEdge>, initial: set<string>, included: set<string>, work: seq<string>)
    requires work != [] && Worklist(edges, initial, included, work)
    requires StepUp(edges, work[|work| - 1]).Some? && StepUp(edges, work[|work| - 1]).value !in included
    ensures var p := StepUp(edges, work[|work| - 1]).value;
      Worklist(edges, initial, included + {p}, work[..|work| - 1] + [p])
  {
    var f := work[|work| - 1];
    var rest := work[..|work| - 1];
    var p := StepUp(edges, f).value;
    var grown := included + {p};
    var next := rest + [p];
    assert work == rest + [f];
    ParentIsRecorded(edges, f);
    assert grown <= initial + ParentIds(edges);
    forall g | g in next ensures g in grown {
      if g != p {
        assert g in rest && g in work;
      }
    }
    forall g | g in grown && g !in next ensures ParentKept(edges, grown, g) {
      assert g in included && g != p;
      if g in work {
        assert g == f;
      } else {
        assert ParentKept(edges, included, g);
      }
    }
    forall g | g in grown ensures AncestorOf(edges, initial, g) {
      if g == p {
        AncestorStep(edges, initial, f);
      }
    }
  }

  /** The `folders_to_check` worklist: the included set gains every ancestor and nothing else. */
  method IncludeAncestors(edges: seq<ContentEdge>, initial: set<string>) returns (included: set<string>)
    ensures initial <= included
    ensures forall f :: f in included ==> ParentKept(edges, included, f)
    ensures forall f :: f in included ==> AncestorOf(edges, initial, f)
  {
    included := initial;
    var work := ListOf(initial);
    forall f | f in initial ensures AncestorOf(edges, initial, f) {
      assert Ascend(edges, f, 0) == Some(f);
    }
    ghost var universe := initial + ParentIds(edges);
    while work != []
      invariant Worklist(edges, initial, included, work)
      decreases |universe - included|, |work|
    {
      ghost var before := work;
      var f := work[|work| - 1];
      work := work[..|work| - 1];
      var parent := FindParentFolder(edges, f);
      if parent.Some? && parent.value != "" && parent.value !in included {
        WorklistPush(edges, initial, included, before);
        SmallerRemainder(universe, included, included + {parent.value}, parent.value);
        included := included + {parent.value};
        work := work + [parent.value];
      } else {
        WorklistPop(edges, initial, included, before);
      }
    }
  }

  /** A closed superset of `initial` made only of ancestors is exactly the set of ancestors. */
  lemma ClosureIsAncestors(edges: seq<ContentEdge>, initial: set<string>, included: set<string>, f: string)
    requires initial <= included
    requires forall g :: g in included ==> ParentKept(edges, included, g)
    requires forall g :: g in included ==> AncestorOf(edges, initial, g)
    ensures f in included <==> AncestorOf(edges, initial, f)
  {
    if AncestorOf(edges, initial, f) {
      var g: string, k: nat :| g in initial && Ascend(edges, g, k) == Some(f);
      AscendStaysIn(edges, included, g, k);
    }
  }

  lemma {:induction false} AscendStaysIn(edges: seq<ContentEdge>, s: set<string>, g: string, k: nat)
    requires g in s
    requires forall h :: h in s ==> ParentKept(edges, s, h)
    ensures Ascend(edges, g, k).Some? ==> Ascend(edges, g, k).value in s
  {
    if k > 0 {
      AscendStaysIn(edges, s, g, k - 1);
    }
  }

  // ---------------------------------------------------------------------------------------
  // root selection

  /** A kept 'Folder' whose parent is missing or is the 'ArchimateModel' folder. */
  predicate IsRoot(folders: map<string, FolderRecord>, edges: seq<ContentEdge>, f: string) {
    && f in folders && folders[f].folderType == Some("Folder")
    && var p := GetParentFolder(edges, f);
       p.None? || (p.value in folders && folders[p.value].folderType == Some("ArchimateModel"))
  }

  /** `root_folder_ids`: each kept root once, in an order the model leaves open (set iteration). */
  method RootFolders(folders: map<string, FolderRecord>, edges: seq<ContentEdge>, included: set<string>)
    returns (roots: seq<string>)
    ensures forall i, j :: 0 <= i < j < |roots| ==> roots[i] != roots[j]
    ensures forall f :: f in roots <==> f in included && IsRoot(folders, edges, f)
  {
    roots := [];
    var rest := included;
    while rest != {}
      invariant rest <= included
      invariant forall i, j :: 0 <= i < j < |roots| ==> roots[i] != roots[j]
      invariant forall f :: f in roots ==> f !in rest
      invariant forall f :: f in roots <==> f in included && f !in rest && IsRoot(folders, edges, f)
      decreases |rest|
    {
      var f :| f in rest;
      if f in folders && folders[f].folderType == Some("Folder") {
        var parent := FindParentFolder(edges, f);
        if parent.None? || (parent.value in folders && folders[parent.value].folderType == Some("ArchimateModel")) {
          roots := roots + [f];
        }
      }
      rest := rest - {f};
    }
  }
}
