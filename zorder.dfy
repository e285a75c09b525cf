/**
 * Z-order of the flat nodes: `nodes_to_add.sort(key=area, reverse=True)`, a stable sort
 * that puts the largest boxes first so that containers are drawn behind what they hold.
 */
module ZOrder {
  import opened ViewParser

  datatype NodeCandidate = NodeCandidate(elemId: string, box: Box, area: int)

  /** Inserts `c` in front of every candidate whose area is not larger. */
  function Insert(c: NodeCandidate, s: seq<NodeCandidate>): seq<NodeCandidate> {
    if s == [] || c.area >= s[0].area then [c] + s
    else [s[0]] + Insert(c, s[1..])
  }

  /** Python's stable sort by descending area. */
  function SortByAreaDesc(s: seq<NodeCandidate>): seq<NodeCandidate> {
    if s == [] then [] else Insert(s[0], SortByAreaDesc(s[1..]))
  }

  predicate NonIncreasing(s: seq<NodeCandidate>) {
    forall i, j :: 0 <= i < j < |s| ==> s[i].area >= s[j].area
  }

  /** The candidates of one area, in order. */
  function WithArea(s: seq<NodeCandidate>, a: int): seq<NodeCandidate> {
    if s == [] then []
    else if s[0].area == a then [s[0]] + WithArea(s[1..], a)
    else WithArea(s[1..], a)
  }

  /** No candidate of `s` has an area larger than `a`. */
  predicate AtMost(a: int, s: seq<NodeCandidate>) {
    forall i :: 0 <= i < |s| ==> s[i].area <= a
  }

  lemma {:induction false} InsertAtMost(c: NodeCandidate, s: seq<NodeCandidate>, a: int)
    requires AtMost(a, s) && c.area <= a
    ensures AtMost(a, Insert(c, s))
  {
    if s != [] && c.area < s[0].area {
      InsertAtMost(c, s[1..], a);
    }
  }

  lemma {:induction false} InsertMultiset(c: NodeCandidate, s: seq<NodeCandidate>)
    ensures multiset(Insert(c, s)) == multiset(s) + multiset{c}
  {
    if s != [] && c.area < s[0].area {
      InsertMultiset(c, s[1..]);
      assert s == [s[0]] + s[1..];
      assert Insert(c, s) == [s[0]] + Insert(c, s[1..]);
      assert multiset(Insert(c, s)) == multiset{s[0]} + multiset(Insert(c, s[1..]));
    } else {
      assert Insert(c, s) == [c] + s;
    }
  }

  /** The tail of an ordered list is ordered and bounded by its head. */
  lemma Uncons(s: seq<NodeCandidate>)
    requires s != [] && NonIncreasing(s)
    ensures NonIncreasing(s[1..]) && AtMost(s[0].area, s[1..])
  {
    forall i, j | 0 <= i < j < |s[1..]| ensures s[1..][i].area >= s[1..][j].area {
      assert s[1..][i] == s[i + 1] && s[1..][j] == s[j + 1];
    }
    forall i | 0 <= i < |s[1..]| ensures s[1..][i].area <= s[0].area {
      assert s[1..][i] == s[i + 1];
    }
  }

  /** A head no smaller than the first candidate of an ordered list keeps it ordered. */
  lemma Cons(x: NodeCandidate, t: seq<NodeCandidate>)
    requires NonIncreasing(t) && (t != [] ==> x.area >= t[0].area)
    ensures NonIncreasing([x] + t)
  {
    var r := [x] + t;
    forall i, j | 0 <= i < j < |r| ensures r[i].area >= r[j].area {
      assert r[j] == t[j - 1];
      if i > 0 {
        assert r[i] == t[i - 1];
      } else {
        assert t[0].area >= t[j - 1].area;
      }
    }
  }

  lemma {:induction false} InsertKeepsOrder(c: NodeCandidate, s: seq<NodeCandidate>)
    requires NonIncreasing(s)
    ensures NonIncreasing(Insert(c, s))
    ensures multiset(Insert(c, s)) == multiset(s) + multiset{c}
  {
    InsertMultiset(c, s);
    if s != [] && c.area < s[0].area {
      var t := Insert(c, s[1..]);
      Uncons(s);
      InsertKeepsOrder(c, s[1..]);
      InsertAtMost(c, s[1..], s[0].area);
      assert t != [] ==> t[0].area <= s[0].area;
      Cons(s[0], t);
      assert Insert(c, s) == [s[0]] + t;
    } else {
      Cons(c, s);
      assert Insert(c, s) == [c] + s;
    }
  }

  /** The result is ordered largest area first. */
  lemma {:induction false} SortByAreaDescOrdered(s: seq<NodeCandidate>)
    ensures NonIncreasing(SortByAreaDesc(s))
    ensures multiset(SortByAreaDesc(s)) == multiset(s)
  {
    if s != [] {
      SortByAreaDescOrdered(s[1..]);
      InsertKeepsOrder(s[0], SortByAreaDesc(s[1..]));
      assert s == [s[0]] + s[1..];
    }
  }

  lemma {:induction false} InsertWithArea(c: NodeCandidate, s: seq<NodeCandidate>, a: int)
    ensures WithArea(Insert(c, s), a) == if c.area == a then [c] + WithArea(s, a) else WithArea(s, a)
  {
    if s != [] && c.area < s[0].area {
      InsertWithArea(c, s[1..], a);
      assert ([s[0]] + Insert(c, s[1..]))[1..] == Insert(c, s[1..]);
    } else {
      assert ([c] + s)[1..] == s;
    }
  }

  /** Stability: candidates with equal areas keep their original relative order. */
  lemma {:induction false} SortByAreaDescStable(s: seq<NodeCandidate>, a: int)
    ensures WithArea(SortByAreaDesc(s), a) == WithArea(s, a)
  {
    if s != [] {
      SortByAreaDescStable(s[1..], a);
      InsertWithArea(s[0], SortByAreaDesc(s[1..]), a);
    }
  }
}
