/**
 * The two string utilities shared by the GUI application and the
 * command-line converter: relationship type normalisation and the
 * extraction of an `id-<hex>` identifier from a report link.
 */
module Hrefs {
  import opened Wrappers
  import opened Text

  const RelationshipSuffix := "Relationship"

  /** 'AggregationRelationship' becomes 'Aggregation'; other tags are kept verbatim. */
  function FixRelationshipType(relType: string): (r: string)
    ensures EndsWith(relType, RelationshipSuffix) ==> r + RelationshipSuffix == relType
    ensures !EndsWith(relType, RelationshipSuffix) ==> r == relType
  {
    if EndsWith(relType, RelationshipSuffix) then relType[..|relType| - 12] else relType
  }

  /** Exactly the 12-character suffix is removed, whatever precedes it. */
  lemma FixRelationshipTypeStrips(base: string)
    ensures FixRelationshipType(base + RelationshipSuffix) == base
  {
    var s := base + RelationshipSuffix;
    assert s[|s| - 12..] == RelationshipSuffix;
    assert s[..|s| - 12] == base;
  }

  lemma AggregationExample()
    ensures FixRelationshipType("AggregationRelationship") == "Aggregation"
  {
    FixRelationshipTypeStrips("Aggregation");
    assert "Aggregation" + RelationshipSuffix == "AggregationRelationship";
  }

  /** The character class `[a-f0-9-]`. */
  predicate IsIdChar(c: char) {
    ('a' <= c <= 'f') || ('0' <= c <= '9') || c == '-'
  }

  /**
   * `s[i..j]` is a match of the group `(id-[a-f0-9-]+)` that is immediately
   * followed by `.html`: the reference reading of the pattern.
   */
  ghost predicate TokenAt(s: string, i: int, j: int) {
    && 0 <= i && i + 3 < j && j + 5 <= |s|
    && s[i..i + 3] == "id-"
    && (forall k :: i + 3 <= k < j ==> IsIdChar(s[k]))
    && s[j..j + 5] == ".html"
  }

  /** The end of the longest run of `[a-f0-9-]` starting at `k`. */
  function RunEnd(s: string, k: nat): (r: nat)
    requires k <= |s|
    ensures k <= r <= |s|
    ensures forall m :: k <= m < r ==> IsIdChar(s[m])
    ensures r == |s| || !IsIdChar(s[r])
    decreases |s| - k
  {
    if k < |s| && IsIdChar(s[k]) then RunEnd(s, k + 1) else k
  }

  /** The regular expression tried at position `i`: the greedy run, then `.html`. */
  function MatchEnd(s: string, i: nat): (r: Option<nat>)
    requires i <= |s|
    ensures r.Some? ==> TokenAt(s, i, r.value)
  {
    if i + 3 <= |s| && s[i..i + 3] == "id-" then
      var j := RunEnd(s, i + 3);
      if j > i + 3 && j + 5 <= |s| && s[j..j + 5] == ".html" then Some(j) else None
    else None
  }

  /** The greedy run never overshoots: every match at `i` is the one MatchEnd finds. */
  lemma MatchEndComplete(s: string, i: nat, j: int)
    requires TokenAt(s, i, j)
    ensures MatchEnd(s, i) == Some(j)
  {
    var r := RunEnd(s, i + 3);
    assert s[j] == s[j..j + 5][0] == '.';
  }

  /** `re.search` from position `i`: the first position where the pattern matches. */
  function SearchFrom(s: string, i: nat): Option<string>
    requires i <= |s|
    decreases |s| - i
  {
    match MatchEnd(s, i)
    case Some(j) => Some(s[i..j])
    case None => if i < |s| then SearchFrom(s, i + 1) else None
  }

  lemma {:induction false} SearchFromLeftmost(s: string, i: nat)
    requires i <= |s|
    ensures SearchFrom(s, i).Some? ==>
      exists k, j :: i <= k && TokenAt(s, k, j) && SearchFrom(s, i).value == s[k..j]
        && forall k', j' :: i <= k' < k ==> !TokenAt(s, k', j')
    ensures SearchFrom(s, i).None? ==> forall k, j :: i <= k ==> !TokenAt(s, k, j)
    decreases |s| - i
  {
    forall j | TokenAt(s, i, j) ensures MatchEnd(s, i) == Some(j) {
      MatchEndComplete(s, i, j);
    }
    match MatchEnd(s, i)
    case Some(j) =>
    case None =>
      if i < |s| {
        SearchFromLeftmost(s, i + 1);
        if SearchFrom(s, i + 1).Some? {
          var k, j :| i + 1 <= k && TokenAt(s, k, j) && SearchFrom(s, i + 1).value == s[k..j]
            && forall k', j' :: i + 1 <= k' < k ==> !TokenAt(s, k', j');
          assert forall k', j' :: i <= k' < k ==> !TokenAt(s, k', j');
        }
      } else {
        assert forall k, j :: i <= k ==> !TokenAt(s, k, j);
      }
  }

  /** `extract_id_from_href`: None for an empty href. */
  function ExtractIdFromHref(href: string): Option<string> {
    if href == "" then None else SearchFrom(href, 0)
  }

  /**
   * The identifier found is the leftmost `id-[a-f0-9-]+` followed by `.html`;
   * no identifier is found exactly when no such substring exists.
   */
  lemma ExtractIdFromHrefSpec(href: string)
    ensures ExtractIdFromHref(href).Some? ==>
      exists i, j :: TokenAt(href, i, j) && ExtractIdFromHref(href).value == href[i..j]
        && forall i', j' :: 0 <= i' < i ==> !TokenAt(href, i', j')
    ensures ExtractIdFromHref(href).None? <==> forall i, j :: !TokenAt(href, i, j)
  {
    SearchFromLeftmost(href, 0);
    if ExtractIdFromHref(href).Some? {
      var i, j :| TokenAt(href, i, j);
    }
  }

  /** An extracted identifier always carries the `id-` prefix and no more than the id class. */
  lemma ExtractedIdShape(href: string)
    requires ExtractIdFromHref(href).Some?
    ensures StartsWith(ExtractIdFromHref(href).value, "id-")
    ensures |ExtractIdFromHref(href).value| > 3
    ensures forall k :: 3 <= k < |ExtractIdFromHref(href).value| ==> IsIdChar(ExtractIdFromHref(href).value[k])
  {
    ExtractIdFromHrefSpec(href);
    var i, j :| TokenAt(href, i, j) && ExtractIdFromHref(href).value == href[i..j];
    assert href[i..j][..3] == href[i..i + 3];
  }
}

/** Identifiers the program makes up (`gen_id`). */
module Ids {
  /**
   * `gen_id(prefix)`: the prefix, a dash and eight hex digits of a random
   * UUID. The random part is not modelled; it is supplied by the caller.
   */
  function GenId(prefix: string, random: string): (r: string)
    ensures |r| == |prefix| + 1 + |random| && r[..|prefix|] == prefix && r[|prefix|] == '-'
  {
    prefix + "-" + random
  }

  /** Different random parts give different identifiers under the same prefix. */
  lemma GenIdInjective(prefix: string, a: string, b: string)
    requires GenId(prefix, a) == GenId(prefix, b)
    ensures a == b
  {
    var n := |prefix| + 1;
    assert a == GenId(prefix, a)[n..];
    assert b == GenId(prefix, b)[n..];
  }
}
