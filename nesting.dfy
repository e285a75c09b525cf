/**
 * The command-line converter's containment analysis (`build_nesting_tree`, `is_inside`,
 * `get_children`): each box's parent is the smallest other box that encloses it.
 */
module Nesting {
  import opened Wrappers
  import opened OrderedDict
  import opened ViewParser

  /** `is_inside(inner, outer)`: the inner box lies within the outer one, edges included. */
  predicate IsInside(inner: Box, outer: Box) {
    inner.x >= outer.x && inner.y >= outer.y && inner.x2 <= outer.x2 && inner.y2 <= outer.y2
  }

  /** Every box lies within itself. */
  lemma IsInsideReflexive(b: Box)
    ensures IsInside(b, b)
  {
  }

  /** A box within a box within `c` lies within `c`. */
  lemma IsInsideTransitive(a: Box, b: Box, c: Box)
    requires IsInside(a, b) && IsInside(b, c)
    ensures IsInside(a, c)
  {
  }

  /** Two boxes each within the other have the same corners. */
  lemma IsInsideAntisymmetric(a: Box, b: Box)
    requires IsInside(a, b) && IsInside(b, a)
    ensures a.x == b.x && a.y == b.y && a.x2 == b.x2 && a.y2 == b.y2
  {
  }

  function Area(b: Box): int {
    b.w * b.h
  }

  /** `other` may be the parent of `id`: a different key whose box encloses that of `id`. */
  predicate Encloses(coordinates: Dict<string, Box>, id: string, other: string)
    requires id in coordinates.values && other in coordinates.values
  {
    other != id && IsInside(coordinates.values[id], coordinates.values[other])
  }

  /**
   * The inner loop of `build_nesting_tree` over `others`: the enclosing box of smallest area,
   * a later one replacing the best so far only when strictly smaller.
   */
  function BestParent(others: seq<string>, coordinates: Dict<string, Box>, id: string): (r: Option<string>)
    requires id in coordinates.values
    requires forall i :: 0 <= i < |others| ==> others[i] in coordinates.values
    ensures r.Some? ==> r.value in others
  {
    if others == [] then None
    else
      var best := BestParent(others[..|others| - 1], coordinates, id);
      var o := others[|others| - 1];
      if Encloses(coordinates, id, o)
         && (best.None? || Area(coordinates.values[o]) < Area(coordinates.values[best.value]))
      then Some(o)
      else best
  }

  /**
   * The parent found is the first enclosing box of least area: none exactly when nothing
   * encloses the box, otherwise one that encloses it, strictly smaller than every enclosing box
   * before it and no larger than every one after it.
   */
  lemma {:induction false} BestParentSpec(others: seq<string>, coordinates: Dict<string, Box>, id: string)
    requires id in coordinates.values
    requires forall i :: 0 <= i < |others| ==> others[i] in coordinates.values
    ensures var r := BestParent(others, coordinates, id);
      && (r.None? <==> forall i :: 0 <= i < |others| ==> !Encloses(coordinates, id, others[i]))
      && (r.Some? ==> exists i :: 0 <= i < |others| && others[i] == r.value && BestAt(others, coordinates, id, i))
  {
    if others != [] {
      var init := others[..|others| - 1];
      var o := others[|others| - 1];
      BestParentSpec(init, coordinates, id);
      var best := BestParent(init, coordinates, id);
      var r := BestParent(others, coordinates, id);
      if r.Some? {
        if r == best {
          var i :| 0 <= i < |init| && init[i] == best.value && BestAt(init, coordinates, id, i);
          assert others[i] == r.value;
          assert BestAt(others, coordinates, id, i) by {
            forall j | 0 <= j < |others| && j != i && Encloses(coordinates, id, others[j])
              ensures if j < i then Area(coordinates.values[others[j]]) > Area(coordinates.values[r.value])
                      else Area(coordinates.values[others[j]]) >= Area(coordinates.values[r.value])
            {
              if j < |init| { assert others[j] == init[j]; }
            }
          }
        } else {
          var n := |others| - 1;
          assert others[n] == r.value;
          assert BestAt(others, coordinates, id, n) by {
            forall j | 0 <= j < n && Encloses(coordinates, id, others[j])
              ensures Area(coordinates.values[others[j]]) > Area(coordinates.values[r.value])
            {
              assert others[j] == init[j];
              if best.Some? {
                var b :| 0 <= b < |init| && init[b] == best.value && BestAt(init, coordinates, id, b);
              }
            }
          }
        }
      } else {
        forall i | 0 <= i < |others| ensures !Encloses(coordinates, id, others[i]) {
          if i < |init| { assert others[i] == init[i]; }
        }
      }
    }
  }

  /** `others[i]` encloses `id`, every earlier enclosing box is larger and no later one is smaller. */
  predicate BestAt(others: seq<string>, coordinates: Dict<string, Box>, id: string, i: nat)
    requires id in coordinates.values
    requires forall j :: 0 <= j < |others| ==> others[j] in coordinates.values
    requires i < |others|
  {
    && Encloses(coordinates, id, others[i])
    && forall j :: 0 <= j < |others| && j != i && Encloses(coordinates, id, others[j]) ==>
      if j < i then Area(coordinates.values[others[j]]) > Area(coordinates.values[others[i]])
      else Area(coordinates.values[others[j]]) >= Area(coordinates.values[others[i]])
  }

  /** `parent_map`: every key of `coordinates`, in order, mapped to its best parent. */
  function NestingTree(coordinates: Dict<string, Box>): (t: Dict<string, Option<string>>)
    requires coordinates.Valid()
    ensures t.Valid()
  {
    Dict(coordinates.keys, map k | k in coordinates.values :: BestParent(coordinates.keys, coordinates, k))
  }

  /** One more candidate replaces the best so far only when it encloses the box and is strictly smaller. */
  lemma BestParentSnoc(others: seq<string>, o: string, coordinates: Dict<string, Box>, id: string)
    requires id in coordinates.values && o in coordinates.values
    requires forall i :: 0 <= i < |others| ==> others[i] in coordinates.values
    ensures var best := BestParent(others, coordinates, id);
      BestParent(others + [o], coordinates, id)
        == if Encloses(coordinates, id, o) && (best.None? || Area(coordinates.values[o]) < Area(coordinates.values[best.value]))
           then Some(o) else best
  {
    assert (others + [o])[..|others|] == others;
  }

  /** The inner loop of `build_nesting_tree`, with `inf` as the initial best area. */
  method FindBestParent(coordinates: Dict<string, Box>, elemId: string) returns (best: Option<string>)
    requires coordinates.Valid() && elemId in coordinates.values
    ensures best == BestParent(coordinates.keys, coordinates, elemId)
  {
    var items := coordinates.keys;
    best := None;
    var bestArea := 0;
    for j := 0 to |items|
      invariant best == BestParent(items[..j], coordinates, elemId)
      invariant best.Some? ==> best.value in coordinates.values && bestArea == Area(coordinates.values[best.value])
    {
      var otherId := items[j];
      assert otherId in coordinates.values;
      BestParentSnoc(items[..j], otherId, coordinates, elemId);
      assert items[..j + 1] == items[..j] + [otherId];
      if elemId != otherId && IsInside(coordinates.values[elemId], coordinates.values[otherId]) {
        var otherArea := Area(coordinates.values[otherId]);
        if best.None? || otherArea < bestArea {
          best := Some(otherId);
          bestArea := otherArea;
        }
      }
    }
    assert items[..|items|] == items;
  }

  /** `parent_map` after the outer loop has visited the first `i` keys. */
  ghost predicate TreePrefix(coordinates: Dict<string, Box>, parentMap: Dict<string, Option<string>>, i: nat)
    requires coordinates.Valid()
  {
    && i <= |coordinates.keys|
    && parentMap.Valid()
    && parentMap.keys == coordinates.keys[..i]
    && TreeValues(coordinates, parentMap)
  }

  /** Every key visited so far is mapped to its best parent. */
  ghost predicate TreeValues(coordinates: Dict<string, Box>, parentMap: Dict<string, Option<string>>)
    requires coordinates.Valid()
  {
    forall k :: k in parentMap.values ==> k in coordinates.values && parentMap.values[k] == BestParent(coordinates.keys, coordinates, k)
  }

  lemma TreeValuesStep(coordinates: Dict<string, Box>, parentMap: Dict<string, Option<string>>, k: string)
    requires coordinates.Valid() && parentMap.Valid() && TreeValues(coordinates, parentMap) && k in coordinates.values
    ensures TreeValues(coordinates, parentMap.Put(k, None).Put(k, BestParent(coordinates.keys, coordinates, k)))
  {
    var best := BestParent(coordinates.keys, coordinates, k);
    var p2 := parentMap.Put(k, None).Put(k, best);
    assert p2.values == parentMap.values[k := None][k := best];
    forall kk | kk in p2.values ensures kk in coordinates.values && p2.values[kk] == BestParent(coordinates.keys, coordinates, kk) {
      if kk != k {
        assert kk in parentMap.values && p2.values[kk] == parentMap.values[kk];
      }
    }
  }

  lemma TreeKeysStep(coordinates: Dict<string, Box>, parentMap: Dict<string, Option<string>>, i: nat, v: Option<string>)
    requires coordinates.Valid() && parentMap.Valid() && i < |coordinates.keys| && parentMap.keys == coordinates.keys[..i]
    ensures var k := coordinates.keys[i];
      var p2 := parentMap.Put(k, None).Put(k, v);
      p2.Valid() && p2.keys == coordinates.keys[..i + 1]
  {
    var items := coordinates.keys;
    var k := items[i];
    assert k !in parentMap.keys;
    assert parentMap.Put(k, None).keys == items[..i] + [k];
    assert items[..i + 1] == items[..i] + [k];
  }

  lemma TreePrefixStep(coordinates: Dict<string, Box>, parentMap: Dict<string, Option<string>>, i: nat)
    requires coordinates.Valid() && TreePrefix(coordinates, parentMap, i) && i < |coordinates.keys|
    ensures var k := coordinates.keys[i];
      TreePrefix(coordinates, parentMap.Put(k, None).Put(k, BestParent(coordinates.keys, coordinates, k)), i + 1)
  {
    var k := coordinates.keys[i];
    TreeKeysStep(coordinates, parentMap, i, BestParent(coordinates.keys, coordinates, k));
    TreeValuesStep(coordinates, parentMap, k);
  }

  /** `build_nesting_tree` */
  method BuildNestingTree(coordinates: Dict<string, Box>) returns (parentMap: Dict<string, Option<string>>)
    requires coordinates.Valid()
    ensures parentMap == NestingTree(coordinates)
  {
    var items := coordinates.keys;
    parentMap := Empty();
    for i := 0 to |items|
      invariant TreePrefix(coordinates, parentMap, i)
    {
      TreePrefixStep(coordinates, parentMap, i);
      var elemId := items[i];
      parentMap := parentMap.Put(elemId, None);
      var best := FindBestParent(coordinates, elemId);
      parentMap := parentMap.Put(elemId, best);
    }
    TreeComplete(coordinates, parentMap);
  }

  /** After the last key the parent map is the whole tree. */
  lemma TreeComplete(coordinates: Dict<string, Box>, parentMap: Dict<string, Option<string>>)
    requires coordinates.Valid() && TreePrefix(coordinates, parentMap, |coordinates.keys|)
    ensures parentMap == NestingTree(coordinates)
  {
    var items := coordinates.keys;
    assert items[..|items|] == items;
    assert parentMap.keys == items;
    assert forall k :: k in parentMap.values <==> k in coordinates.values;
    TreeMapComplete(coordinates, parentMap.values);
  }

  lemma TreeMapComplete(coordinates: Dict<string, Box>, m: map<string, Option<string>>)
    requires coordinates.Valid()
    requires forall k :: k in m <==> k in coordinates.values
    requires forall k :: k in m ==> m[k] == BestParent(coordinates.keys, coordinates, k)
    ensures m == NestingTree(coordinates).values
  {
  }

  /**
   * What the tree says about each key: it has no parent exactly when no other box encloses it,
   * and otherwise its parent is another key whose box encloses it and has least area.
   */
  lemma NestingTreeParent(coordinates: Dict<string, Box>, k: string)
    requires coordinates.Valid() && k in coordinates.values
    ensures var p := NestingTree(coordinates).values[k];
      && (p.None? <==> forall o :: o in coordinates.values ==> !Encloses(coordinates, k, o))
      && (p.Some? ==> && p.value in coordinates.values && p.value != k
                      && IsInside(coordinates.values[k], coordinates.values[p.value])
                      && forall o :: o in coordinates.values && Encloses(coordinates, k, o) ==>
                           Area(coordinates.values[p.value]) <= Area(coordinates.values[o]))
  {
    var keys := coordinates.keys;
    BestParentSpec(keys, coordinates, k);
    var p := BestParent(keys, coordinates, k);
    if p.None? {
      forall o | o in coordinates.values ensures !Encloses(coordinates, k, o) {
        var i :| 0 <= i < |keys| && keys[i] == o;
      }
    } else {
      var i :| 0 <= i < |keys| && keys[i] == p.value && BestAt(keys, coordinates, k, i);
      forall o | o in coordinates.values && Encloses(coordinates, k, o)
        ensures Area(coordinates.values[p.value]) <= Area(coordinates.values[o])
      {
        var j :| 0 <= j < |keys| && keys[j] == o;
      }
    }
  }

  /** Two boxes that are each other's parent have the same corners. */
  lemma MutualParents(coordinates: Dict<string, Box>, a: string, b: string)
    requires coordinates.Valid() && a in coordinates.values && b in coordinates.values
    requires NestingTree(coordinates).values[a] == Some(b)
    requires NestingTree(coordinates).values[b] == Some(a)
    ensures var ba := coordinates.values[a]; var bb := coordinates.values[b];
      ba.x == bb.x && ba.y == bb.y && ba.x2 == bb.x2 && ba.y2 == bb.y2
  {
    NestingTreeParent(coordinates, a);
    NestingTreeParent(coordinates, b);
  }

  /** `get_children(parent_map, parent_id)`: the keys mapped to `parent`, in the map's order. */
  function Children(keys: seq<string>, parents: map<string, Option<string>>, parent: Option<string>): seq<string>
    requires forall i :: 0 <= i < |keys| ==> keys[i] in parents
  {
    if keys == [] then []
    else
      var init := Children(keys[..|keys| - 1], parents, parent);
      var k := keys[|keys| - 1];
      if parents[k] == parent then init + [k] else init
  }

  function GetChildren(parentMap: Dict<string, Option<string>>, parent: Option<string>): seq<string>
    requires parentMap.Valid()
  {
    Children(parentMap.keys, parentMap.values, parent)
  }

  /** The children of a parent are exactly the keys mapped to it, each once, in key order. */
  lemma {:induction false} ChildrenSpec(keys: seq<string>, parents: map<string, Option<string>>, parent: Option<string>)
    requires forall i :: 0 <= i < |keys| ==> keys[i] in parents
    requires forall i, j :: 0 <= i < j < |keys| ==> keys[i] != keys[j]
    ensures forall k :: k in Children(keys, parents, parent) <==> k in keys && parents[k] == parent
    ensures forall i, j :: 0 <= i < j < |Children(keys, parents, parent)| ==>
      IndexOf(keys, Children(keys, parents, parent)[i]) < IndexOf(keys, Children(keys, parents, parent)[j])
  {
    if keys != [] {
      var init := keys[..|keys| - 1];
      var k := keys[|keys| - 1];
      ChildrenSpec(init, parents, parent);
      var c := Children(init, parents, parent);
      assert keys == init + [k];
      forall m | m in init ensures IndexOf(keys, m) == IndexOf(init, m) {
        IndexOfPrefix(init, k, m);
      }
      if parents[k] == parent {
        IndexOfLast(keys);
        assert k !in init;
        var cs := c + [k];
        forall i, j | 0 <= i < j < |cs| ensures IndexOf(keys, cs[i]) < IndexOf(keys, cs[j]) {
          assert cs[i] in c;
          if j < |c| {
            assert cs[j] in c;
          }
        }
      }
    }
  }

  lemma {:induction false} IndexOfPrefix(init: seq<string>, k: string, m: string)
    requires m in init
    ensures IndexOf(init + [k], m) == IndexOf(init, m)
  {
    if init[0] != m {
      assert (init + [k])[1..] == init[1..] + [k];
      IndexOfPrefix(init[1..], k, m);
    }
  }

  lemma IndexOfLast(keys: seq<string>)
    requires keys != [] && forall i, j :: 0 <= i < j < |keys| ==> keys[i] != keys[j]
    ensures IndexOf(keys, keys[|keys| - 1]) == |keys| - 1
  {
  }

  /** Every key is the child of exactly its own parent entry. */
  lemma GetChildrenSpec(parentMap: Dict<string, Option<string>>, parent: Option<string>)
    requires parentMap.Valid()
    ensures forall k :: k in GetChildren(parentMap, parent) <==> k in parentMap.values && parentMap.values[k] == parent
  {
    ChildrenSpec(parentMap.keys, parentMap.values, parent);
  }
}
