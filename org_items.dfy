/**
 * The `<organizations>` section: `add_folder_items` writes each kept root folder as a nested
 * `<item>` tree whose leaves reference concepts of the view.
 */
module OrgItems {
  import opened Wrappers
  import opened Registry
  import opened Document
  import opened FolderGraph

  type Items = Result<seq<OrgItem>, BuildError>

  /** `folder.get('name', 'Unnamed')` */
  function Label(x: FolderIndex, f: string): string
    requires f in x.folders
  {
    x.folders[f].name.GetOr("Unnamed")
  }

  /** Items of two consecutive steps; the first error stops the emission. */
  function Then(a: Items, b: Items): Items {
    match a
    case Err(e) => Err(e)
    case Ok(u) =>
      match b
      case Err(e) => Err(e)
      case Ok(v) => Ok(u + v)
  }

  /**
   * `add_folder_items(parent, f)` with `fuel` levels of folder nesting left. A folder that is
   * unknown or not kept writes nothing; out of fuel, the recursion fails.
   */
  function ItemsOf(x: FolderIndex, included: set<string>, f: string, fuel: nat): Items
    decreases fuel, 0
  {
    if f !in x.folders || f !in included then Ok([])
    else if fuel == 0 then Err(FolderRecursion(f))
    else
      match ChildItems(x, included, Kids(x.children, f), fuel - 1)
      case Err(e) => Err(e)
      case Ok(items) => Ok([FolderItem(f, Label(x, f), items)])
  }

  /** One child: a kept 'Folder' child recurses, a child id of the view becomes a reference. */
  function ChildItem(x: FolderIndex, included: set<string>, c: Child, fuel: nat): Items
    decreases fuel, 1
  {
    if c.contentType == "Folder" && c.contentId in included then ItemsOf(x, included, c.contentId, fuel)
    else if c.contentId in x.validIds then Ok([RefItem(c.contentId)])
    else Ok([])
  }

  function ChildItems(x: FolderIndex, included: set<string>, kids: seq<Child>, fuel: nat): Items
    decreases fuel, 2, |kids|
  {
    if kids == [] then Ok([])
    else Then(ChildItem(x, included, kids[0], fuel), ChildItems(x, included, kids[1..], fuel))
  }

  lemma ThenOkNil(a: Items)
    ensures Then(Ok([]), a) == a
  {
    if a.Ok? { assert [] + a.value == a.value; }
  }

  /** Appending one step's items to what was written so far. */
  lemma ThenAppend(items: seq<OrgItem>, head: Items, rest: Items)
    ensures Then(Ok(items), Then(head, rest)) == if head.Err? then Err(head.error) else Then(Ok(items + head.value), rest)
  {
    if head.Ok? && rest.Ok? {
      assert items + (head.value + rest.value) == items + head.value + rest.value;
    }
  }

  /** The loop and recursion of `add_folder_items`. */
  method AddFolderItems(x: FolderIndex, included: set<string>, folderId: string, fuel: nat) returns (r: Items)
    ensures r == ItemsOf(x, included, folderId, fuel)
    decreases fuel
  {
    if folderId !in x.folders || folderId !in included {
      return Ok([]);
    }
    if fuel == 0 {
      return Err(FolderRecursion(folderId));
    }
    var kids := Kids(x.children, folderId);
    var items: seq<OrgItem> := [];
    assert kids[0..] == kids;
    ThenOkNil(ChildItems(x, included, kids, fuel - 1));
    for k := 0 to |kids|
      invariant ChildItems(x, included, kids, fuel - 1) == Then(Ok(items), ChildItems(x, included, kids[k..], fuel - 1))
    {
      assert kids[k..][1..] == kids[k + 1..];
      var c := kids[k];
      var rest := ChildItems(x, included, kids[k + 1..], fuel - 1);
      ThenAppend(items, ChildItem(x, included, c, fuel - 1), rest);
      if c.contentType == "Folder" && c.contentId in included {
        var sub := AddFolderItems(x, included, c.contentId, fuel - 1);
        if sub.Err? {
          return Err(sub.error);
        }
        items := items + sub.value;
      } else if c.contentId in x.validIds {
        items := items + [RefItem(c.contentId)];
      } else {
        assert items + [] == items;
      }
    }
    assert kids[|kids|..] == [];
    return Ok([FolderItem(folderId, Label(x, folderId), items)]);
  }

  // ---------------------------------------------------------------------------------------
  // referential integrity

  /** `it` was written for one of `kids`: a reference to a child id, or a folder child marked 'Folder'. */
  ghost predicate KidFor(kids: seq<Child>, it: OrgItem) {
    match it
    case RefItem(r) => exists k :: 0 <= k < |kids| && kids[k].contentId == r
    case FolderItem(g, _, _) => exists k :: 0 <= k < |kids| && kids[k] == Child(g, "Folder")
  }

  /**
   * Every reference names a concept of the view; every folder item is a kept registry folder
   * with its label, and every nested item stands for one of that folder's children.
   */
  ghost predicate WellFormed(x: FolderIndex, included: set<string>, it: OrgItem)
    decreases it
  {
    match it
    case RefItem(r) => r in x.validIds
    case FolderItem(f, caption, items) =>
      && f in included && f in x.folders && caption == Label(x, f)
      && ItemsFor(x, included, Kids(x.children, f), items)
  }

  /** Each of `items` is well formed and stands for one of `kids`. */
  ghost predicate ItemsFor(x: FolderIndex, included: set<string>, kids: seq<Child>, items: seq<OrgItem>)
    decreases items
  {
    forall i :: 0 <= i < |items| ==> KidFor(kids, items[i]) && WellFormed(x, included, items[i])
  }

  ghost predicate AllWellFormed(x: FolderIndex, included: set<string>, items: seq<OrgItem>) {
    forall i :: 0 <= i < |items| ==> WellFormed(x, included, items[i])
  }

  /** A kept registry folder writes exactly one well-formed folder item for itself; any other id writes nothing. */
  lemma {:induction false} ItemsOfWellFormed(x: FolderIndex, included: set<string>, f: string, fuel: nat)
    ensures ItemsOf(x, included, f, fuel).Ok? ==>
      var items := ItemsOf(x, included, f, fuel).value;
      && AllWellFormed(x, included, items)
      && (if f in x.folders && f in included then |items| == 1 && items[0].FolderItem? && items[0].folderId == f else items == [])
    decreases fuel, 0
  {
    if f in x.folders && f in included && fuel > 0 {
      ChildItemsWellFormed(x, included, Kids(x.children, f), fuel - 1);
      var sub := ChildItems(x, included, Kids(x.children, f), fuel - 1);
      if sub.Ok? {
        var items := sub.value;
        assert ItemsFor(x, included, Kids(x.children, f), items);
        assert WellFormed(x, included, FolderItem(f, Label(x, f), items));
      }
    }
  }

  lemma {:induction false} ChildItemsWellFormed(x: FolderIndex, included: set<string>, kids: seq<Child>, fuel: nat)
    ensures ChildItems(x, included, kids, fuel).Ok? ==> ItemsFor(x, included, kids, ChildItems(x, included, kids, fuel).value)
    decreases fuel, 2, |kids|
  {
    if kids != [] {
      var c := kids[0];
      var head := ChildItem(x, included, c, fuel);
      var tail := ChildItems(x, included, kids[1..], fuel);
      ChildItemsWellFormed(x, included, kids[1..], fuel);
      if c.contentType == "Folder" && c.contentId in included {
        ItemsOfWellFormed(x, included, c.contentId, fuel);
      }
      assert ChildItems(x, included, kids, fuel) == Then(head, tail);
      if head.Ok? && tail.Ok? {
        var items := head.value + tail.value;
        forall i | 0 <= i < |items| ensures KidFor(kids, items[i]) && WellFormed(x, included, items[i]) {
          if i < |head.value| {
            assert items[i] == head.value[i];
            if c.contentType == "Folder" && c.contentId in included {
              assert kids[0] == Child(c.contentId, "Folder");
            } else {
              assert kids[0].contentId == c.contentId;
            }
          } else {
            var it := tail.value[i - |head.value|];
            assert items[i] == it;
            assert KidFor(kids[1..], it);
            match it
            case RefItem(r) =>
              var k :| 0 <= k < |kids[1..]| && kids[1..][k].contentId == r;
              assert kids[k + 1].contentId == r;
            case FolderItem(g, _, _) =>
              var k :| 0 <= k < |kids[1..]| && kids[1..][k] == Child(g, "Folder");
              assert kids[k + 1] == Child(g, "Folder");
          }
        }
      }
    }
  }

  /** Conversely nothing is dropped: each child a reference or a kept folder stands for gets its item. */
  lemma {:induction false} ChildItemsComplete(x: FolderIndex, included: set<string>, kids: seq<Child>, fuel: nat, k: nat)
    requires k < |kids| && ChildItems(x, included, kids, fuel).Ok?
    ensures var c := kids[k];
      var items := ChildItems(x, included, kids, fuel).value;
      && (c.contentType == "Folder" && c.contentId in included && c.contentId in x.folders ==>
            exists i :: 0 <= i < |items| && items[i].FolderItem? && items[i].folderId == c.contentId)
      && (!(c.contentType == "Folder" && c.contentId in included) && c.contentId in x.validIds ==>
            RefItem(c.contentId) in items)
    decreases |kids|
  {
    var head := ChildItem(x, included, kids[0], fuel);
    var tail := ChildItems(x, included, kids[1..], fuel);
    var items := head.value + tail.value;
    if k == 0 {
      var c := kids[0];
      if c.contentType == "Folder" && c.contentId in included && c.contentId in x.folders {
        ItemsOfWellFormed(x, included, c.contentId, fuel);
        assert items[0] == head.value[0];
      }
    } else {
      ChildItemsComplete(x, included, kids[1..], fuel, k - 1);
      assert kids[1..][k - 1] == kids[k];
      var c := kids[k];
      if c.contentType == "Folder" && c.contentId in included && c.contentId in x.folders {
        var i :| 0 <= i < |tail.value| && tail.value[i].FolderItem? && tail.value[i].folderId == c.contentId;
        assert items[|head.value| + i] == tail.value[i];
      }
    }
  }

  /**
   * The item a folder writes holds its label and, for each of its children, the item that
   * child stands for: no kept folder child and no valid reference is left out.
   */
  lemma FolderItemComplete(x: FolderIndex, included: set<string>, f: string, fuel: nat, it: OrgItem, k: nat)
    requires ItemsOf(x, included, f, fuel) == Ok([it]) && k < |Kids(x.children, f)|
    ensures it.FolderItem? && it.folderId == f && f in x.folders && it.caption == Label(x, f)
    ensures var c := Kids(x.children, f)[k];
      && (c.contentType == "Folder" && c.contentId in included && c.contentId in x.folders ==>
            exists i :: 0 <= i < |it.items| && it.items[i].FolderItem? && it.items[i].folderId == c.contentId)
      && (!(c.contentType == "Folder" && c.contentId in included) && c.contentId in x.validIds ==>
            RefItem(c.contentId) in it.items)
  {
    var sub := ChildItems(x, included, Kids(x.children, f), fuel - 1);
    assert sub.Ok? && it == FolderItem(f, Label(x, f), sub.value);
    ChildItemsComplete(x, included, Kids(x.children, f), fuel - 1, k);
  }

  // ---------------------------------------------------------------------------------------
  // when the recursion does not bottom out

  /** `f` writes `g` as a nested folder item. */
  ghost predicate Nests(x: FolderIndex, included: set<string>, f: string, g: string) {
    && g in included && g in x.folders
    && exists k :: 0 <= k < |Kids(x.children, f)| && Kids(x.children, f)[k] == Child(g, "Folder")
  }

  /** A descent the emission follows, starting at a kept registry folder. */
  ghost predicate Chain(x: FolderIndex, included: set<string>, c: seq<string>) {
    && |c| > 0 && c[0] in included && c[0] in x.folders
    && forall i :: 0 <= i < |c| - 1 ==> Nests(x, included, c[i], c[i + 1])
  }

  /** From `f` the emission can reach a folder nested (transitively) in itself. */
  ghost predicate Cyclic(x: FolderIndex, included: set<string>, f: string) {
    exists c :: Chain(x, included, c) && c[0] == f && exists i, j :: 0 <= i < j < |c| && c[i] == c[j]
  }

  /** A failure at `fuel` exhibits a descent of `fuel + 1` folders. */
  lemma {:induction false} FailureHasChain(x: FolderIndex, included: set<string>, f: string, fuel: nat)
    requires ItemsOf(x, included, f, fuel).Err?
    ensures exists c :: Chain(x, included, c) && c[0] == f && |c| == fuel + 1
    decreases fuel, 0
  {
    if fuel == 0 {
      assert Chain(x, included, [f]);
    } else {
      var g := ChildItemsFailure(x, included, Kids(x.children, f), fuel - 1);
      var c :| Chain(x, included, c) && c[0] == g && |c| == fuel;
      var d := [f] + c;
      assert Nests(x, included, f, g);
      assert forall i :: 1 <= i < |d| - 1 ==> d[i] == c[i - 1] && d[i + 1] == c[i];
      assert Chain(x, included, d);
    }
  }

  lemma {:induction false} ChildItemsFailure(x: FolderIndex, included: set<string>, kids: seq<Child>, fuel: nat)
    returns (g: string)
    requires ChildItems(x, included, kids, fuel).Err?
    ensures exists k :: 0 <= k < |kids| && kids[k] == Child(g, "Folder")
    ensures g in included && g in x.folders
    ensures exists c :: Chain(x, included, c) && c[0] == g && |c| == fuel + 1
    decreases fuel, 2, |kids|
  {
    var c := kids[0];
    if ChildItem(x, included, c, fuel).Err? {
      g := c.contentId;
      assert kids[0] == Child(g, "Folder");
      FailureHasChain(x, included, g, fuel);
    } else {
      g := ChildItemsFailure(x, included, kids[1..], fuel);
      var k :| 0 <= k < |kids[1..]| && kids[1..][k] == Child(g, "Folder");
      assert kids[k + 1] == Child(g, "Folder");
    }
  }

  lemma {:induction false} DistinctCard(c: seq<string>)
    requires forall i, j :: 0 <= i < j < |c| ==> c[i] != c[j]
    ensures |set i | 0 <= i < |c| :: c[i]| == |c|
  {
    if c != [] {
      var init := c[..|c| - 1];
      DistinctCard(init);
      assert (set i | 0 <= i < |c| :: c[i]) == (set i | 0 <= i < |init| :: init[i]) + {c[|c| - 1]};
    }
  }

  /** A descent longer than the number of kept folders visits one of them twice. */
  lemma Pigeonhole(x: FolderIndex, included: set<string>, c: seq<string>)
    requires Chain(x, included, c) && |c| > |included|
    ensures exists i, j :: 0 <= i < j < |c| && c[i] == c[j]
  {
    if forall i, j :: 0 <= i < j < |c| ==> c[i] != c[j] {
      DistinctCard(c);
      var elems := set i | 0 <= i < |c| :: c[i];
      forall e | e in elems ensures e in included {
        var i :| 0 <= i < |c| && c[i] == e;
        if i > 0 { assert Nests(x, included, c[i - 1], c[i]); }
      }
      SubsetCard(elems, included);
    }
  }

  /** Failing with one level of fuel per kept folder means the folder structure loops. */
  lemma FailureMeansCycle(x: FolderIndex, included: set<string>, f: string)
    requires ItemsOf(x, included, f, |included|).Err?
    ensures Cyclic(x, included, f)
  {
    FailureHasChain(x, included, f, |included|);
    var c :| Chain(x, included, c) && c[0] == f && |c| == |included| + 1;
    Pigeonhole(x, included, c);
  }

  lemma {:induction false} ChildFailureFails(x: FolderIndex, included: set<string>, kids: seq<Child>, fuel: nat, k: nat)
    requires k < |kids| && ChildItem(x, included, kids[k], fuel).Err?
    ensures ChildItems(x, included, kids, fuel).Err?
  {
    if k > 0 {
      ChildFailureFails(x, included, kids[1..], fuel, k - 1);
    }
  }

  /** A descent with a repeated folder, one step further down: it still repeats a folder. */
  lemma ShiftLoop(x: FolderIndex, included: set<string>, c: seq<string>, i: nat, j: nat)
    returns (next: seq<string>, i': nat, j': nat)
    requires Chain(x, included, c) && i < j < |c| && c[i] == c[j]
    ensures Chain(x, included, next) && next[0] == c[1] && i' < j' < |next| && next[i'] == next[j']
  {
    if i > 0 {
      next, i', j' := c[1..], i - 1, j - 1;
      forall m | 0 <= m < |next| - 1 ensures Nests(x, included, next[m], next[m + 1]) {
        assert next[m] == c[m + 1] && next[m + 1] == c[m + 2];
      }
    } else {
      next, i', j' := c[1..j + 1] + [c[1]], 0, j;
      assert Nests(x, included, c[0], c[1]);
      forall m | 0 <= m < |next| - 1 ensures Nests(x, included, next[m], next[m + 1]) {
        if m + 1 < j {
          assert next[m] == c[m + 1] && next[m + 1] == c[m + 2];
        } else {
          assert next[m] == c[j] && next[m + 1] == c[1];
        }
      }
    }
  }

  /** A loop reachable from `f` makes the emission fail whatever the fuel. */
  lemma {:induction false} CycleMeansFailure(x: FolderIndex, included: set<string>, c: seq<string>, i: nat, j: nat, fuel: nat)
    requires Chain(x, included, c) && i < j < |c| && c[i] == c[j]
    ensures ItemsOf(x, included, c[0], fuel).Err?
    decreases fuel
  {
    if fuel > 0 {
      var next, i', j' := ShiftLoop(x, included, c, i, j);
      CycleMeansFailure(x, included, next, i', j', fuel - 1);
      assert Nests(x, included, c[0], c[1]);
      var k :| 0 <= k < |Kids(x.children, c[0])| && Kids(x.children, c[0])[k] == Child(c[1], "Folder");
      ChildFailureFails(x, included, Kids(x.children, c[0]), fuel - 1, k);
    }
  }

  /** With one level of fuel per kept folder, the emission fails exactly when the folder structure loops. */
  lemma FailureIffCycle(x: FolderIndex, included: set<string>, f: string)
    ensures ItemsOf(x, included, f, |included|).Err? <==> Cyclic(x, included, f)
  {
    if ItemsOf(x, included, f, |included|).Err? {
      FailureMeansCycle(x, included, f);
    }
    if Cyclic(x, included, f) {
      var c, i, j :| Chain(x, included, c) && c[0] == f && 0 <= i < j < |c| && c[i] == c[j];
      CycleMeansFailure(x, included, c, i, j, |included|);
    }
  }
}
