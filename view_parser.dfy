/**
 * `ViewParser` of the GUI application (identical to `extract_elements`,
 * `extract_coordinates` and `extract_relationships` of the command-line
 * converter): the records one view page yields. The HTML parser's output is
 * taken as given: table rows of cells, and the attributes of the image map's
 * `<area>` tags.
 */
module ViewParser {
  import opened Wrappers
  import opened Text
  import opened Hrefs
  import opened Ids
  import opened OrderedDict

  /** The first `<a>` of a cell: its `href` ('' when absent), stripped text and class list. */
  datatype Link = Link(href: string, text: string, classes: seq<string>)

  datatype Cell = Cell(link: Option<Link>)

  /** The `<td>` cells of one `<tr>`. */
  type Row = seq<Cell>

  /** The attributes of one `<area>`. */
  type Area = map<string, string>

  datatype ImageMap = ImageMap(name: Option<string>, areas: seq<Area>)

  /**
   * A parsed view page: the stripped `<title>` text, the first `<map>`, and the
   * rows of the tables inside `div#elements` and `div#relationships` (no rows
   * when the div or its table is missing).
   */
  datatype ViewDocument = ViewDocument(title: Option<string>, imageMap: Option<ImageMap>,
                                       elementRows: seq<Row>, relationshipRows: seq<Row>)

  datatype ViewElement = ViewElement(id: string, name: string, elementType: string)

  /** A bounding box as stored by `extract_coordinates`. */
  datatype Box = Box(x: int, y: int, w: int, h: int, x2: int, y2: int)

  datatype ViewRelationship = ViewRelationship(id: string, relType: string, source: string, target: string, name: string)

  /** The value `ViewParser.parse` returns. */
  datatype ViewData = ViewData(viewName: string, viewId: string, elements: Dict<string, ViewElement>,
                               relationships: seq<ViewRelationship>, coordinates: Dict<string, Box>)

  const TypeClassPrefix := "i18n-elementtype-"

  /** The type tag carried by the first class that starts with the prefix, with the prefix text removed. */
  function TypeFromClasses(classes: seq<string>): Option<string> {
    if classes == [] then None
    else if StartsWith(classes[0], TypeClassPrefix) then Some(RemoveAll(classes[0], TypeClassPrefix))
    else TypeFromClasses(classes[1..])
  }

  /** The class scan finds a tag exactly when some class has the prefix, and takes the first one. */
  lemma {:induction false} TypeFromClassesFirst(classes: seq<string>)
    ensures TypeFromClasses(classes).None? <==> forall i :: 0 <= i < |classes| ==> !StartsWith(classes[i], TypeClassPrefix)
    ensures TypeFromClasses(classes).Some? ==>
      exists i :: 0 <= i < |classes| && StartsWith(classes[i], TypeClassPrefix)
        && TypeFromClasses(classes).value == RemoveAll(classes[i], TypeClassPrefix)
        && forall j :: 0 <= j < i ==> !StartsWith(classes[j], TypeClassPrefix)
  {
    if classes != [] && !StartsWith(classes[0], TypeClassPrefix) {
      TypeFromClassesFirst(classes[1..]);
      if TypeFromClasses(classes).Some? {
        var i :| 0 <= i < |classes[1..]| && StartsWith(classes[1..][i], TypeClassPrefix)
          && TypeFromClasses(classes[1..]).value == RemoveAll(classes[1..][i], TypeClassPrefix)
          && forall j :: 0 <= j < i ==> !StartsWith(classes[1..][j], TypeClassPrefix);
        assert forall j :: 0 <= j < i + 1 ==> !StartsWith(classes[j], TypeClassPrefix) by {
          forall j | 0 <= j < i + 1 ensures !StartsWith(classes[j], TypeClassPrefix) {
            if j > 0 { assert classes[j] == classes[1..][j - 1]; }
          }
        }
      }
    }
  }

  /** 'i18n-elementtype-Capability' carries the tag 'Capability'. */
  lemma TypeClassTag(tag: string, later: seq<string>)
    requires !Occurs(tag, TypeClassPrefix)
    ensures TypeFromClasses([TypeClassPrefix + tag] + later) == Some(tag)
  {
    var cls := TypeClassPrefix + tag;
    assert cls[..|TypeClassPrefix|] == TypeClassPrefix;
    RemoveAllLeading(TypeClassPrefix, tag);
    RemoveAllAbsent(tag, TypeClassPrefix);
  }

  /** The `for cls in classes: ... break` loop. */
  method FindTypeClass(classes: seq<string>) returns (t: Option<string>)
    ensures t == TypeFromClasses(classes)
  {
    t := None;
    var i := 0;
    while i < |classes|
      invariant 0 <= i <= |classes|
      invariant t == None
      invariant TypeFromClasses(classes) == TypeFromClasses(classes[i..])
    {
      assert classes[i..][1..] == classes[i + 1..];
      if StartsWith(classes[i], TypeClassPrefix) {
        t := Some(RemoveAll(classes[i], TypeClassPrefix));
        break;
      }
      i := i + 1;
    }
  }

  // ---------------------------------------------------------------- elements

  /** The element one row of the elements table describes, if any. */
  function ElementOfRow(row: Row): Option<ViewElement> {
    if |row| >= 2 && row[0].link.Some? then
      var nameLink := row[0].link.value;
      var elemId := ExtractIdFromHref(nameLink.href);
      var elemType := if row[1].link.Some? then TypeFromClasses(row[1].link.value.classes).GetOr("Unknown") else "Unknown";
      if elemId.Some? && nameLink.text != "" then Some(ViewElement(elemId.value, nameLink.text, elemType)) else None
    else None
  }

  /** The dictionary `extract_elements` builds: rows in order, a later row for an id overwriting. */
  function ElementsOfRows(rows: seq<Row>): (r: Dict<string, ViewElement>)
    ensures r.Valid()
  {
    if rows == [] then Empty() else AddRow(ElementsOfRows(rows[..|rows| - 1]), rows[|rows| - 1])
  }

  /** One iteration of the row loop: a well-formed row stores (or overwrites) its element. */
  function AddRow(d: Dict<string, ViewElement>, row: Row): (r: Dict<string, ViewElement>)
    requires d.Valid()
    ensures r.Valid()
  {
    match ElementOfRow(row)
    case Some(e) => d.Put(e.id, e)
    case None => d
  }

  predicate RowFor(row: Row, k: string) {
    ElementOfRow(row).Some? && ElementOfRow(row).value.id == k
  }

  /** One more row: its id joins the listed ones when it is well formed, with that row's element. */
  lemma ElementsOfRowsSnoc(rows: seq<Row>, row: Row, k: string)
    ensures k in ElementsOfRows(rows + [row]).values <==> k in ElementsOfRows(rows).values || RowFor(row, k)
    ensures RowFor(row, k) ==> ElementsOfRows(rows + [row]).values[k] == ElementOfRow(row).value
    ensures !RowFor(row, k) && k in ElementsOfRows(rows).values ==>
      ElementsOfRows(rows + [row]).values[k] == ElementsOfRows(rows).values[k]
  {
    assert (rows + [row])[..|rows|] == rows;
  }

  /** An element is listed exactly for the ids some well-formed row names; each entry is keyed by its own id. */
  lemma {:induction false} ElementsOfRowsKeys(rows: seq<Row>, k: string)
    ensures k in ElementsOfRows(rows).values <==> exists i :: 0 <= i < |rows| && RowFor(rows[i], k)
    ensures k in ElementsOfRows(rows).values ==> ElementsOfRows(rows).values[k].id == k
  {
    if rows != [] {
      var init := rows[..|rows| - 1];
      var last := rows[|rows| - 1];
      assert rows == init + [last];
      ElementsOfRowsKeys(init, k);
      ElementsOfRowsSnoc(init, last, k);
      if k in ElementsOfRows(init).values {
        var i :| 0 <= i < |init| && RowFor(init[i], k);
        assert rows[i] == init[i];
      }
      if exists i :: 0 <= i < |rows| && RowFor(rows[i], k) {
        var i :| 0 <= i < |rows| && RowFor(rows[i], k);
        if i < |init| { assert RowFor(init[i], k); }
      }
    }
  }

  /** The table is scanned row by row. */
  method ExtractElements(rows: seq<Row>) returns (elements: Dict<string, ViewElement>)
    ensures elements == ElementsOfRows(rows)
  {
    elements := Empty();
    for i := 0 to |rows|
      invariant elements == ElementsOfRows(rows[..i])
    {
      assert rows[..i + 1][..i] == rows[..i];
      var cells := rows[i];
      if |cells| >= 2 {
        var nameLink := cells[0].link;
        var typeLink := cells[1].link;
        if nameLink.Some? {
          var name := nameLink.value.text;
          var elemId := ExtractIdFromHref(nameLink.value.href);
          var elemType := "Unknown";
          if typeLink.Some? {
            var tag := FindTypeClass(typeLink.value.classes);
            if tag.Some? {
              elemType := tag.value;
            }
          }
          if elemId.Some? && name != "" {
            elements := elements.Put(elemId.value, ViewElement(elemId.value, name, elemType));
          }
        }
      }
    }
    assert rows[..|rows|] == rows;
  }

  // ------------------------------------------------------------- coordinates

  /** `area.get(name, '')` */
  function Attr(area: Area, name: string): string {
    if name in area then area[name] else ""
  }

  /** `[int(x.strip()) for x in pieces]`, None when some piece raises ValueError. */
  function ParseInts(pieces: seq<string>): (r: Option<seq<int>>)
    ensures r.Some? ==> |r.value| == |pieces|
  {
    if pieces == [] then Some([])
    else
      match PyInt(Strip(pieces[0]))
      case None => None
      case Some(n) =>
        match ParseInts(pieces[1..])
        case None => None
        case Some(ns) => Some([n] + ns)
  }

  /** Two corners (x1, y1), (x2, y2) as a box. */
  function CornersToBox(x1: int, y1: int, x2: int, y2: int): (b: Box)
    ensures b.x == x1 && b.y == y1 && b.x2 == x2 && b.y2 == y2
    ensures b.w == x2 - x1 && b.h == y2 - y1
  {
    Box(x1, y1, x2 - x1, y2 - y1, x2, y2)
  }

  /** `coords` as a box: None when a piece is not an integer or there are fewer than four. */
  function ParseCoords(coords: string): (r: Option<Box>)
    ensures r.Some? ==> r.value.w == r.value.x2 - r.value.x && r.value.h == r.value.y2 - r.value.y
  {
    match ParseInts(Split(coords, ','))
    case None => None
    case Some(parts) =>
      if |parts| >= 4 then Some(CornersToBox(parts[0], parts[1], parts[2], parts[3])) else None
  }

  /** What one `<area>` contributes: skipped unless a rectangle with an element link and four integer coordinates. */
  function BoxOfArea(area: Area): (r: Option<(string, Box)>)
    ensures r.Some? ==> r.value.1.w == r.value.1.x2 - r.value.1.x && r.value.1.h == r.value.1.y2 - r.value.1.y
  {
    if !("shape" in area && area["shape"] == "rect") || Attr(area, "target") == "view" then None
    else
      var elemId := ExtractIdFromHref(Attr(area, "href"));
      if elemId.None? || Attr(area, "coords") == "" then None
      else
        var box := ParseCoords(Attr(area, "coords"));
        if box.None? then None else Some((elemId.value, box.value))
  }

  /** The dictionary `extract_coordinates` builds: areas in order, a later area for an id overwriting. */
  function CoordinatesOf(areas: seq<Area>): (r: Dict<string, Box>)
    ensures r.Valid()
  {
    if areas == [] then Empty() else AddArea(CoordinatesOf(areas[..|areas| - 1]), areas[|areas| - 1])
  }

  /** One iteration of the area loop: an accepted area stores (or overwrites) its box. */
  function AddArea(d: Dict<string, Box>, area: Area): (r: Dict<string, Box>)
    requires d.Valid()
    ensures r.Valid()
  {
    match BoxOfArea(area)
    case Some(entry) => d.Put(entry.0, entry.1)
    case None => d
  }

  function AreasOf(imageMap: Option<ImageMap>): seq<Area> {
    if imageMap.Some? then imageMap.value.areas else []
  }

  predicate AreaFor(area: Area, k: string) {
    BoxOfArea(area).Some? && BoxOfArea(area).value.0 == k
  }

  /** One more area: its id joins the stored ones when it is accepted. */
  lemma CoordinatesOfSnoc(areas: seq<Area>, area: Area, k: string)
    ensures k in CoordinatesOf(areas + [area]).values <==> k in CoordinatesOf(areas).values || AreaFor(area, k)
  {
    assert (areas + [area])[..|areas|] == areas;
  }

  /** Exactly the ids of accepted areas are stored. */
  lemma {:induction false} CoordinatesOfKeys(areas: seq<Area>, k: string)
    ensures k in CoordinatesOf(areas).values <==> exists i :: 0 <= i < |areas| && AreaFor(areas[i], k)
  {
    if areas != [] {
      var init := areas[..|areas| - 1];
      var last := areas[|areas| - 1];
      assert areas == init + [last];
      CoordinatesOfKeys(init, k);
      CoordinatesOfSnoc(init, last, k);
      if k in CoordinatesOf(init).values {
        var i :| 0 <= i < |init| && AreaFor(init[i], k);
        assert areas[i] == init[i];
      }
      if exists i :: 0 <= i < |areas| && AreaFor(areas[i], k) {
        var i :| 0 <= i < |areas| && AreaFor(areas[i], k);
        if i < |init| { assert AreaFor(init[i], k); }
      }
    }
  }

  /** Every stored box has w = x2 - x and h = y2 - y. */
  lemma {:induction false} CoordinatesOfShape(areas: seq<Area>, k: string)
    requires k in CoordinatesOf(areas).values
    ensures var b := CoordinatesOf(areas).values[k]; b.w == b.x2 - b.x && b.h == b.y2 - b.y
  {
    var init := areas[..|areas| - 1];
    if k in CoordinatesOf(init).values {
      CoordinatesOfShape(init, k);
    }
  }

  /** A later area with the same id overwrites the earlier one: the box kept is the last one. */
  lemma {:induction false} CoordinatesOfLastWins(areas: seq<Area>, i: nat)
    requires i < |areas| && BoxOfArea(areas[i]).Some?
    requires forall j :: i < j < |areas| ==> !AreaFor(areas[j], BoxOfArea(areas[i]).value.0)
    ensures BoxOfArea(areas[i]).value.0 in CoordinatesOf(areas).values
    ensures CoordinatesOf(areas).values[BoxOfArea(areas[i]).value.0] == BoxOfArea(areas[i]).value.1
  {
    if i < |areas| - 1 {
      CoordinatesOfLastWins(areas[..|areas| - 1], i);
    }
  }

  /** The dictionary after one more area. */
  lemma CoordinatesOfAppend(areas: seq<Area>, area: Area)
    ensures CoordinatesOf(areas + [area]) == AddArea(CoordinatesOf(areas), area)
  {
    assert (areas + [area])[..|areas|] == areas;
  }

  /** Skipping one area never affects the others. */
  lemma {:induction false} CoordinatesOfSkip(before: seq<Area>, skipped: Area, after: seq<Area>)
    requires BoxOfArea(skipped).None?
    ensures CoordinatesOf(before + [skipped] + after) == CoordinatesOf(before + after)
    decreases |after|
  {
    if after == [] {
      CoordinatesOfAppend(before, skipped);
      assert AddArea(CoordinatesOf(before), skipped) == CoordinatesOf(before);
      assert before + [] == before;
      assert before + [skipped] + [] == before + [skipped];
    } else {
      var init := after[..|after| - 1];
      var last := after[|after| - 1];
      CoordinatesOfSkip(before, skipped, init);
      assert before + [skipped] + after == (before + [skipped] + init) + [last];
      assert before + after == (before + init) + [last];
      CoordinatesOfAppend(before + [skipped] + init, last);
      CoordinatesOfAppend(before + init, last);
    }
  }

  /** `str(n)` of each integer. */
  function ShowInts(ns: seq<int>): (r: seq<string>)
    ensures |r| == |ns|
    ensures forall i :: 0 <= i < |ns| ==> r[i] == ShowInt(ns[i])
  {
    if ns == [] then [] else [ShowInt(ns[0])] + ShowInts(ns[1..])
  }

  /** Integers written out as decimals read back as those integers. */
  lemma {:induction false} ParseIntsShown(ns: seq<int>)
    ensures ParseInts(ShowInts(ns)) == Some(ns)
  {
    if ns != [] {
      var pieces := ShowInts(ns);
      assert pieces == [ShowInt(ns[0])] + ShowInts(ns[1..]);
      assert pieces[0] == ShowInt(ns[0]) && pieces[1..] == ShowInts(ns[1..]);
      ParseIntsShown(ns[1..]);
      PyIntOfShown(ns[0]);
      assert [ns[0]] + ns[1..] == ns;
    }
  }

  /** `x1,y1,x2,y2` written out as decimals reads back as the box with those corners. */
  lemma ParseCoordsRoundTrip(x1: int, y1: int, x2: int, y2: int)
    ensures ParseCoords(Join([ShowInt(x1), ShowInt(y1), ShowInt(x2), ShowInt(y2)], ','))
         == Some(CornersToBox(x1, y1, x2, y2))
  {
    var ns := [x1, y1, x2, y2];
    var pieces := ShowInts(ns);
    assert pieces == [ShowInt(x1), ShowInt(y1), ShowInt(x2), ShowInt(y2)];
    forall k | 0 <= k < |pieces| ensures ',' !in pieces[k] { ShowIntHasNoComma(ns[k]); }
    SplitJoin(pieces, ',');
    ParseIntsShown(ns);
  }

  /** The coordinate list "10,20,160,75" gives x=10, y=20, width 150, height 55. */
  lemma ParseCoordsExample()
    ensures ParseCoords("10,20,160,75") == Some(Box(10, 20, 150, 55, 160, 75))
  {
    ParseCoordsRoundTrip(10, 20, 160, 75);
    assert ShowInt(10) == "10" && ShowInt(20) == "20" && ShowInt(160) == "160" && ShowInt(75) == "75";
    assert Join(["10", "20", "160", "75"], ',') == "10,20,160,75";
  }

  /** The `for area in areas` loop. */
  method ExtractCoordinates(imageMap: Option<ImageMap>) returns (coordinates: Dict<string, Box>)
    ensures coordinates == CoordinatesOf(AreasOf(imageMap))
  {
    coordinates := Empty();
    if imageMap.None? {
      return;
    }
    var areas := imageMap.value.areas;
    for i := 0 to |areas|
      invariant coordinates == CoordinatesOf(areas[..i])
    {
      assert areas[..i + 1][..i] == areas[..i];
      var area := areas[i];
      if !("shape" in area && area["shape"] == "rect") {
        continue;
      }
      var coordsStr, href, target := Attr(area, "coords"), Attr(area, "href"), Attr(area, "target");
      if target == "view" {
        continue;
      }
      var elemId := ExtractIdFromHref(href);
      if elemId.None? || coordsStr == "" {
        continue;
      }
      var box := ParseCoords(coordsStr);
      if box.None? {
        continue;
      }
      coordinates := coordinates.Put(elemId.value, box.value);
    }
    assert areas[..|areas|] == areas;
  }

  // ----------------------------------------------------------- relationships

  /** The relationship one row of the relationships table describes, if any. */
  function RelationshipOfRow(row: Row): Option<ViewRelationship> {
    if |row| >= 4 && row[0].link.Some? && row[1].link.Some? && row[2].link.Some? && row[3].link.Some? then
      var relId := ExtractIdFromHref(row[0].link.value.href);
      var sourceId := ExtractIdFromHref(row[2].link.value.href);
      var targetId := ExtractIdFromHref(row[3].link.value.href);
      var relType := match TypeFromClasses(row[1].link.value.classes)
                     case Some(raw) => FixRelationshipType(raw)
                     case None => "Association";
      if relId.Some? && sourceId.Some? && targetId.Some? then
        Some(ViewRelationship(relId.value, relType, sourceId.value, targetId.value, row[0].link.value.text))
      else None
    else None
  }

  /** The list `extract_relationships` builds: well-formed rows in table order, duplicates kept. */
  function RelationshipsOf(rows: seq<Row>): seq<ViewRelationship> {
    if rows == [] then []
    else
      var rs := RelationshipsOf(rows[..|rows| - 1]);
      match RelationshipOfRow(rows[|rows| - 1])
      case Some(r) => rs + [r]
      case None => rs
  }

  /** Rows are read in order: a longer table only appends. */
  lemma {:induction false} RelationshipsOfAppend(a: seq<Row>, b: seq<Row>)
    ensures RelationshipsOf(a + b) == RelationshipsOf(a) + RelationshipsOf(b)
    decreases |b|
  {
    if b == [] {
      assert a + b == a;
    } else {
      var b' := b[..|b| - 1];
      assert (a + b)[..|a + b| - 1] == a + b';
      RelationshipsOfAppend(a, b');
    }
  }

  /** One more row appends its relationship, if it describes one. */
  lemma RelationshipsOfSnoc(rows: seq<Row>, row: Row, r: ViewRelationship)
    ensures r in RelationshipsOf(rows + [row]) <==> r in RelationshipsOf(rows) || RelationshipOfRow(row) == Some(r)
  {
    assert (rows + [row])[..|rows|] == rows;
    var rs := RelationshipsOf(rows);
    match RelationshipOfRow(row)
    case Some(x) =>
      assert RelationshipsOf(rows + [row]) == rs + [x];
    case None =>
      assert RelationshipsOf(rows + [row]) == rs;
  }

  /** Every listed relationship comes from one row, and every well-formed row is listed. */
  lemma {:induction false} RelationshipsOfMembers(rows: seq<Row>, r: ViewRelationship)
    ensures r in RelationshipsOf(rows) <==> exists i :: 0 <= i < |rows| && RelationshipOfRow(rows[i]) == Some(r)
  {
    if rows != [] {
      var init := rows[..|rows| - 1];
      var last := rows[|rows| - 1];
      assert rows == init + [last];
      RelationshipsOfMembers(init, r);
      RelationshipsOfSnoc(init, last, r);
      if r in RelationshipsOf(init) {
        var i :| 0 <= i < |init| && RelationshipOfRow(init[i]) == Some(r);
        assert rows[i] == init[i];
      }
      if exists i :: 0 <= i < |rows| && RelationshipOfRow(rows[i]) == Some(r) {
        var i :| 0 <= i < |rows| && RelationshipOfRow(rows[i]) == Some(r);
        if i < |init| { assert RelationshipOfRow(init[i]) == Some(r); }
      }
    }
  }

  method ExtractRelationships(rows: seq<Row>) returns (relationships: seq<ViewRelationship>)
    ensures relationships == RelationshipsOf(rows)
  {
    relationships := [];
    for i := 0 to |rows|
      invariant relationships == RelationshipsOf(rows[..i])
    {
      assert rows[..i + 1][..i] == rows[..i];
      var cells := rows[i];
      if |cells| >= 4 {
        var relLink, typeLink, sourceLink, targetLink := cells[0].link, cells[1].link, cells[2].link, cells[3].link;
        if relLink.Some? && typeLink.Some? && sourceLink.Some? && targetLink.Some? {
          var relId := ExtractIdFromHref(relLink.value.href);
          var sourceId := ExtractIdFromHref(sourceLink.value.href);
          var targetId := ExtractIdFromHref(targetLink.value.href);
          var relType := "Association";
          var tag := FindTypeClass(typeLink.value.classes);
          if tag.Some? {
            relType := FixRelationshipType(tag.value);
          }
          if relId.Some? && sourceId.Some? && targetId.Some? {
            relationships := relationships + [ViewRelationship(relId.value, relType, sourceId.value, targetId.value, relLink.value.text)];
          }
        }
      }
    }
    assert rows[..|rows|] == rows;
  }

  // ------------------------------------------------------------------- parse

  /** The map's name without its trailing 'map', or '' when the name is missing or has no such suffix. */
  function MapNameStem(imageMap: Option<ImageMap>): (stem: string)
    ensures stem != "" ==> imageMap.Some? && imageMap.value.name == Some(stem + "map")
  {
    if imageMap.Some? && imageMap.value.name.Some? && EndsWith(imageMap.value.name.value, "map") then
      var name := imageMap.value.name.value;
      assert name == name[..|name| - 3] + "map";
      name[..|name| - 3]
    else ""
  }

  /**
   * `ViewParser.parse`: nothing when no coordinate was read; otherwise the
   * view's records, named by its title ('Unknown View' without one) and
   * identified by the map name's stem, or by a fresh id when the stem is empty.
   */
  method Parse(doc: ViewDocument, random: string) returns (r: Option<ViewData>)
    ensures r.None? <==> CoordinatesOf(AreasOf(doc.imageMap)).keys == []
    ensures r.Some? ==> r.value == ViewData(
      if doc.title.Some? then doc.title.value else "Unknown View",
      if MapNameStem(doc.imageMap) != "" then MapNameStem(doc.imageMap) else GenId("view", random),
      ElementsOfRows(doc.elementRows), RelationshipsOf(doc.relationshipRows), CoordinatesOf(AreasOf(doc.imageMap)))
  {
    var viewName := if doc.title.Some? then doc.title.value else "Unknown View";
    var viewId := "";
    if doc.imageMap.Some? && doc.imageMap.value.name.Some? && doc.imageMap.value.name.value != "" {
      var mapName := doc.imageMap.value.name.value;
      if EndsWith(mapName, "map") {
        viewId := mapName[..|mapName| - 3];
      }
    }
    if viewId == "" {
      viewId := GenId("view", random);
    }
    var elements := ExtractElements(doc.elementRows);
    var coordinates := ExtractCoordinates(doc.imageMap);
    var relationships := ExtractRelationships(doc.relationshipRows);
    if coordinates.keys == [] {
      return None;
    }
    r := Some(ViewData(viewName, viewId, elements, relationships, coordinates));
  }
}
