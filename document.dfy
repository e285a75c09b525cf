/**
 * The ArchiMate Model Exchange document the generators build, as an abstract tree.
 * Serialisation (namespaces, `xml:lang`, pretty printing) is not part of the tree.
 */
module Document {
  import opened Wrappers

  /** `<element identifier= xsi:type=>` with its `<name>` and, when non-empty, `<documentation>`. */
  datatype ElementEntry = ElementEntry(identifier: string, elementType: string, name: string, documentation: Option<string>)

  /** `<relationship identifier= xsi:type= source= target=>` with its `<name>` when non-empty. */
  datatype RelationshipEntry = RelationshipEntry(identifier: string, relType: string, source: string, target: string, name: Option<string>)

  /**
   * An `<item>` of the organizations section: a folder with its `<label>` text (`caption`) and nested items, or
   * a reference to a concept. A folder item also records which folder it was made from;
   * that id is not written out.
   */
  datatype OrgItem =
    | FolderItem(folderId: string, caption: string, items: seq<OrgItem>)
    | RefItem(identifierRef: string)

  /** A flat `<node xsi:type="Element">` with absolute coordinates. */
  datatype Node = Node(identifier: string, elementRef: string, x: int, y: int, w: int, h: int)

  /** `<view xsi:type="Diagram">`; it never holds connections. */
  datatype Diagram = Diagram(identifier: string, name: string, nodes: seq<Node>)

  /** `<model>`: absent optional sections are None. */
  datatype ModelDocument = ModelDocument(
    identifier: string,
    name: string,
    elements: seq<ElementEntry>,
    relationships: Option<seq<RelationshipEntry>>,
    organizations: Option<seq<OrgItem>>,
    view: Diagram)

  /** The folder recursion did not bottom out: Python would raise `RecursionError`. */
  datatype BuildError = FolderRecursion(folderId: string)

  /** Element types of the report that are not ArchiMate concepts and are dropped. */
  const ExcludedTypes: set<string> := {"DiagramModelNote", "DiagramModelReference", "Unknown"}
}
