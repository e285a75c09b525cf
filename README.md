# archi-scraper in Dafny

archi-scraper turns the HTML report that the Archi modelling tool publishes into ArchiMate
Model Exchange Format documents. Two programs do this:

- The GUI application (`scripts/ArchiScraperApp.py`) handles one view page. It reads the
  model registry (`model.html`: its elements, folders and folder contents). It exports the view
  with the registry's documentation and with a whitelisted copy of the folder structure.
- The command-line converter (`scripts/html_to_archimate_xml.py`) handles a few fixed view
  files. It caches the registry's elements in a module-level variable. Its export has no
  folder structure.

This project models the core of both programs:

- the string utilities;
- the registry parser;
- the view parser, which reads the elements table, the image-map coordinates and the
  relationships table;
- the z-order sort;
- both document builders;
- the folder whitelisting with its recursive tree builder;
- the command-line converter's containment analysis.

The XML tree is modelled as a datatype (`Document.ModelDocument`) and is not serialised.

Module layout:

| file | module | models |
|---|---|---|
| `wrappers.dfy` | `Wrappers` | `Option`, `Result` |
| `ordered_dict.dfy` | `OrderedDict` | Python dicts as insertion-ordered key lists plus maps |
| `text.dfy` | `Text` | `str.split`, `str.join`, `strip`, `int()`, `str()` of an int |
| `hrefs.dfy` | `Hrefs`, `Ids` | `fix_relationship_type`, `extract_id_from_href`, `gen_id` |
| `registry.dfy` | `Registry` | `ModelDataParser` |
| `view_parser.dfy` | `ViewParser` | `ViewParser.extract_*`, `ViewParser.parse` |
| `zorder.dfy` | `ZOrder` | `nodes_to_add.sort(key=area, reverse=True)` |
| `document.dfy` | `Document` | the exchange-format tree |
| `export.dfy` | `ViewExport` | the element, relationship and node sections both builders share |
| `folders.dfy` | `FolderGraph` | `folder_children`, `folder_has_valid_content`, `get_parent_folder`, the ancestor closure, the roots |
| `org_items.dfy` | `OrgItems` | `add_folder_items` |
| `organizations.dfy` | `Organizations` | `_add_organizations` |
| `single_view.dfy` | `SingleView` | `ArchiMateXMLGenerator.create_single_view_xml` |
| `nesting.dfy` | `Nesting` | `build_nesting_tree`, `is_inside`, `get_children` |
| `cli.dfy` | `Cli` | `MODEL_DATA`, `load_model_data`, `get_element_documentation`, `create_archimate_xml` |

The command-line copies of `fix_relationship_type`, `extract_id_from_href` and the three
`extract_*` functions differ from the GUI's copies only in comments and `print` calls. Both
programs therefore share one model of each.

Inputs that come from outside the program are parameters:

- BeautifulSoup's parse of a page is given as a `ViewDocument`: table rows of cells, each
  cell's first link (its `href`, stripped text and classes), the `<map>` name and its `<area>`
  attribute maps.
- The regular expressions over `model.html` are given as `Block`s: one map from field name to
  captured text per `push({...})` block.
- `urllib.parse.unquote_plus` is a function parameter.
- The random part of `gen_id` is a function from the call's number to a string. In a build,
  call number 0 is the model id, and the numbers continue in source order.
- Whether `model.html` exists is a boolean parameter.

## Model

| member | source | states |
|---|---|---|
| `Hrefs.FixRelationshipType` | scripts/ArchiScraperApp.py:58-65 | a type ending in 'Relationship' loses exactly that suffix; any other type is returned unchanged |
| `Hrefs.FixRelationshipTypeStrips` | scripts/ArchiScraperApp.py:63-64 | for every base, `base + 'Relationship'` maps back to `base` |
| `Hrefs.AggregationExample` | scripts/ArchiScraperApp.py:59-62 | the docstring's example: 'AggregationRelationship' becomes 'Aggregation' |
| `Hrefs.RunEnd` | scripts/ArchiScraperApp.py:74 | the greedy `[a-f0-9-]+` run: every character before the end is in the class, and the end is the string's end or a character outside it |
| `Hrefs.MatchEnd` | scripts/ArchiScraperApp.py:74 | a match found at a position is an `id-` token followed by `.html` |
| `Hrefs.MatchEndComplete` | scripts/ArchiScraperApp.py:74 | the greedy match at a position misses no token that starts there |
| `Hrefs.SearchFromLeftmost` | scripts/ArchiScraperApp.py:74-77 | `re.search` returns the leftmost token, and returns nothing exactly when no token exists |
| `Hrefs.ExtractIdFromHrefSpec` | scripts/ArchiScraperApp.py:68-77 | the extracted id is the leftmost `id-[a-f0-9-]+` that is directly followed by `.html`; None exactly when there is no such substring |
| `Hrefs.ExtractedIdShape` | scripts/ArchiScraperApp.py:74-76 | an extracted id starts with `id-`, is longer than the prefix, and uses only the class characters after it |
| `Ids.GenIdInjective` | scripts/ArchiScraperApp.py:47-48 | under one prefix, different random parts give different ids, so distinct random parts give distinct node identifiers |
| `Text.RemoveAll` | scripts/ArchiScraperApp.py:228 | `str.replace(pat, '')` never lengthens the string |
| `Text.RemoveAllLeading` | scripts/ArchiScraperApp.py:228 | a leading occurrence of the pattern is deleted |
| `Text.RemoveAllAbsent` | scripts/ArchiScraperApp.py:228 | a string without the pattern is unchanged |
| `Text.JoinSplit` | scripts/ArchiScraperApp.py:268 | joining the pieces of `split(',')` gives the string back |
| `Text.SplitJoin` | scripts/ArchiScraperApp.py:268 | splitting the join of comma-free pieces gives the pieces back |
| `Text.SplitPiecesExcludeSep` | scripts/ArchiScraperApp.py:268 | no piece contains the separator |
| `Text.SplitWithoutSep` | scripts/ArchiScraperApp.py:268 | a string without the separator is one piece |
| `Text.SplitAtFirstSep` | scripts/ArchiScraperApp.py:268 | the first separator ends the first piece |
| `Text.ShowNat` | scripts/ArchiScraperApp.py:268 | `str(n)` of a natural is a non-empty string of decimal digits; it serves the round trips through the `int()` of that line, since the model's nodes keep their coordinates as integers |
| `Text.DigitsValueShowNat` | scripts/ArchiScraperApp.py:268 | the digits of `str(n)` spell `n` |
| `Text.PyIntShowInt` | scripts/ArchiScraperApp.py:268 | `int(str(n)) == n` |
| `Text.PyIntOfShown` | scripts/ArchiScraperApp.py:268 | `int(str(n).strip()) == n` |
| `Text.ShowIntHasNoComma` | scripts/ArchiScraperApp.py:268 | `str(n)` never contains a comma |
| `Registry.ElementsOfKeys` | scripts/ArchiScraperApp.py:116-139 | an element is registered exactly for the ids that some block declares |
| `Registry.ElementsOfLastWins` | scripts/ArchiScraperApp.py:138-139 | the record kept for an id is built from the last block that declares it |
| `Registry.FoldersOfKeys` | scripts/ArchiScraperApp.py:141-162 | a folder is registered exactly for the ids that some block declares |
| `Registry.FoldersOfLastWins` | scripts/ArchiScraperApp.py:161-162 | the folder kept for an id is built from the last block that declares it |
| `Registry.EdgesOfAppend` | scripts/ArchiScraperApp.py:164-181 | content edges keep block order; more blocks only append |
| `Registry.EdgesOfMembers` | scripts/ArchiScraperApp.py:164-181 | the edges are exactly those of blocks with both ends; a missing type reads as 'Unknown' |
| `Registry.DocumentationOf` | scripts/ArchiScraperApp.py:185-189 | the documentation is the record's text, or '' for an unknown id or a record without documentation |
| `Registry.DocumentationFromBlocks` | scripts/ArchiScraperApp.py:134-139 | the documentation of an id is the URL-decoded text of the last block that declares it, or '' when that block has none |
| `Registry.UndeclaredHasNoDocumentation` | scripts/ArchiScraperApp.py:185-189 | an id that no block declares has documentation '' |
| `Registry.CollectElements` | scripts/ArchiScraperApp.py:116-139 | the loop builds `ElementsOf` of the blocks |
| `Registry.CollectFolders` | scripts/ArchiScraperApp.py:141-162 | the loop builds `FoldersOf` of the blocks |
| `Registry.CollectEdges` | scripts/ArchiScraperApp.py:164-181 | the loop builds `EdgesOf` of the blocks |
| `Registry.ModelDataParser.constructor` | scripts/ArchiScraperApp.py:86-91 | a new parser is empty and not loaded |
| `Registry.ModelDataParser.ParseContent` | scripts/ArchiScraperApp.py:107-183 | the new state depends only on the text: the previous state is discarded, and `loaded` is untouched |
| `Registry.ModelDataParser.GetElementDocumentation` | scripts/ArchiScraperApp.py:185-189 | an id without a record has documentation '' |
| `ViewParser.TypeFromClassesFirst` | scripts/ArchiScraperApp.py:223-229 | the type comes from the first class with the `i18n-elementtype-` prefix; no type exactly when no class has the prefix |
| `ViewParser.TypeClassTag` | scripts/ArchiScraperApp.py:226-229 | a leading prefixed class yields its tag |
| `ViewParser.FindTypeClass` | scripts/ArchiScraperApp.py:223-229 | the loop with `break` computes `TypeFromClasses` |
| `ViewParser.ElementsOfRows` | scripts/ArchiScraperApp.py:199-238 | the dictionary is always well formed |
| `ViewParser.ElementsOfRowsKeys` | scripts/ArchiScraperApp.py:199-238 | an id is a key exactly when a row describes it, and its entry carries that id |
| `ViewParser.ElementsOfRowsSnoc` | scripts/ArchiScraperApp.py:212-236 | one more row adds its element under its id, overwriting, and leaves every other entry as it was |
| `ViewParser.ExtractElements` | scripts/ArchiScraperApp.py:199-238 | the row loop builds `ElementsOfRows` |
| `ViewParser.ParseInts` | scripts/ArchiScraperApp.py:268 | the parsed list is as long as the pieces |
| `ViewParser.ParseCoords` | scripts/ArchiScraperApp.py:267-280 | a parsed box has `w == x2 - x` and `h == y2 - y` |
| `ViewParser.BoxOfArea` | scripts/ArchiScraperApp.py:251-280 | an accepted area yields a box of that shape |
| `ViewParser.ParseIntsShown` | scripts/ArchiScraperApp.py:268 | the parse of printed integers gives the integers back |
| `ViewParser.ParseCoordsRoundTrip` | scripts/ArchiScraperApp.py:267-278 | the printed corners `x1,y1,x2,y2` parse back to the box of those corners |
| `ViewParser.ParseCoordsExample` | scripts/ArchiScraperApp.py:270-278 | "10,20,160,75" is the box at (10, 20) of size 150 by 55 |
| `ViewParser.CoordinatesOf` | scripts/ArchiScraperApp.py:241-282 | the dictionary is always well formed |
| `ViewParser.CoordinatesOfKeys` | scripts/ArchiScraperApp.py:241-282 | an id is a key exactly when an accepted area names it |
| `ViewParser.CoordinatesOfSnoc` | scripts/ArchiScraperApp.py:251-280 | one more area adds its id exactly when it is accepted |
| `ViewParser.CoordinatesOfShape` | scripts/ArchiScraperApp.py:271-278 | every stored box has `w == x2 - x` and `h == y2 - y` |
| `ViewParser.CoordinatesOfLastWins` | scripts/ArchiScraperApp.py:271 | the box kept for an id comes from the last accepted area for it |
| `ViewParser.CoordinatesOfSkip` | scripts/ArchiScraperApp.py:252-265 | a skipped area (not a rectangle, a view link, no id, no coordinates, a bad number) changes nothing |
| `ViewParser.ExtractCoordinates` | scripts/ArchiScraperApp.py:241-282 | the area loop with its `continue`s builds `CoordinatesOf` |
| `ViewParser.RelationshipsOfAppend` | scripts/ArchiScraperApp.py:297-326 | relationships keep table order; more rows only append |
| `ViewParser.RelationshipsOfMembers` | scripts/ArchiScraperApp.py:297-326 | the relationships are exactly those of the well-formed rows, duplicates kept |
| `ViewParser.ExtractRelationships` | scripts/ArchiScraperApp.py:285-328 | the row loop builds `RelationshipsOf` |
| `ViewParser.MapNameStem` | scripts/ArchiScraperApp.py:340-345 | a non-empty stem is the map's name minus its trailing 'map' |
| `ViewParser.Parse` | scripts/ArchiScraperApp.py:331-363 | no view exactly when no coordinate was read; otherwise the title (or 'Unknown View'), the map stem (or a fresh 'view' id) and the three extracted tables |
| `ZOrder.InsertKeepsOrder` | scripts/ArchiScraperApp.py:465 | insertion keeps a list ordered by non-increasing area and adds exactly the new candidate |
| `ZOrder.InsertMultiset` | scripts/ArchiScraperApp.py:465 | insertion neither loses nor duplicates a candidate |
| `ZOrder.SortByAreaDescOrdered` | scripts/ArchiScraperApp.py:465 | the sort yields non-increasing areas and a permutation of its input |
| `ZOrder.InsertWithArea` | scripts/ArchiScraperApp.py:465 | insertion puts the new candidate before the others of its area |
| `ZOrder.SortByAreaDescStable` | scripts/ArchiScraperApp.py:465 | stability with `reverse=True`: the candidates of each area keep their input order |
| `ViewExport.KeptIdsSpec` | scripts/ArchiScraperApp.py:396-401 | an element is exported exactly when it has a box and its type is not a note, a reference or 'Unknown'; each is exported once |
| `ViewExport.KeptIdsSpecStep` | scripts/ArchiScraperApp.py:397-401 | one more key appends that key exactly when it is kept |
| `ViewExport.RelationshipsById` | scripts/ArchiScraperApp.py:404-406 | the dictionary is always well formed |
| `ViewExport.ExportedElementsSpec` | scripts/ArchiScraperApp.py:409-420 | the entry ids are exactly the kept elements, pairwise distinct, each with its type, its name, and documentation exactly when the registry's is non-empty |
| `ViewExport.RelationshipsByIdKeys` | scripts/ArchiScraperApp.py:404-406 | the ids kept are exactly the ids of the list |
| `ViewExport.RelationshipsByIdLastWins` | scripts/ArchiScraperApp.py:404-406 | the relationship kept for an id is the last with that id |
| `ViewExport.RelationshipIdStored` | scripts/ArchiScraperApp.py:406 | the relationship stored under an id carries that id |
| `ViewExport.RelationshipsByIdDistinct` | scripts/ArchiScraperApp.py:404-406 | with distinct ids, the list order survives keying |
| `ViewExport.RelationshipsSectionSpec` | scripts/ArchiScraperApp.py:422-433 | the section is absent exactly when the view has no relationship; otherwise its entry identifiers are exactly the view's relationship ids, pairwise distinct |
| `ViewExport.RelationshipsSectionLastWins` | scripts/ArchiScraperApp.py:404-433 | every entry of the section is written from the last relationship of the view carrying its id |
| `ViewExport.LastWithId` | scripts/ArchiScraperApp.py:404-406 | for an id present in the list, returns its last position: the id is there and at no later position |
| `ViewExport.RelationshipsSectionDistinct` | scripts/html_to_archimate_xml.py:368-379 | with distinct ids, the GUI's keyed section equals the converter's list section |
| `ViewExport.SortedCandidates` | scripts/ArchiScraperApp.py:445-465 | the sorted candidates are ordered, are as many as the exported ids, and are a permutation of them |
| `ViewExport.NodesRefs` | scripts/ArchiScraperApp.py:468-480 | one node per sorted candidate, in that order |
| `ViewExport.ViewNodesPermutation` | scripts/ArchiScraperApp.py:445-480 | each exported element gets exactly one node |
| `ViewExport.ViewNodesBoxes` | scripts/ArchiScraperApp.py:472-480 | each node references an exported element and has that element's absolute box |
| `ViewExport.ViewNodesZOrder` | scripts/ArchiScraperApp.py:464-465 | larger nodes come first, so containers are drawn behind their contents |
| `ViewExport.ViewNodesDistinctIds` | scripts/ArchiScraperApp.py:467-472 | nodes get pairwise distinct identifiers whenever the random parts drawn for them differ |
| `ViewExport.CollectCandidates` | scripts/ArchiScraperApp.py:446-462 | the loop collects the exported ids' candidates, each with area `w * h` |
| `ViewExport.EmitNodes` | scripts/ArchiScraperApp.py:468-480 | the loop writes `NodesOf`, the i-th node taking the i-th fresh id |
| `ViewExport.EmitViewNodes` | scripts/ArchiScraperApp.py:445-480 | the nodes section is `ViewNodes` |
| `FolderGraph.ChildrenMapSpec` | scripts/ArchiScraperApp.py:497-503 | a folder is a key exactly when some edge names it; its list holds its edges' children in edge order |
| `FolderGraph.BuildFolderChildren` | scripts/ArchiScraperApp.py:497-503 | the loop builds `ChildrenMap` |
| `FolderGraph.FolderHasValidContent` | scripts/ArchiScraperApp.py:506-520 | a true result means a descent reaches a concept of the view; a false one means every folder it newly visited is closed (nothing below it reaches one); `visited` only grows |
| `FolderGraph.HasValidContent` | scripts/ArchiScraperApp.py:506-520 | a top-level call answers true exactly when some descent from the folder reaches a concept of the view |
| `FolderGraph.IncludedFolders` | scripts/ArchiScraperApp.py:522-526 | the folders kept before the closure are exactly the registry folders that reach content |
| `FolderGraph.GetParentFolderFirst` | scripts/ArchiScraperApp.py:529-533 | the parent is the folder of the first 'Folder' edge naming the child; None exactly when no edge matches |
| `FolderGraph.FindParentFolder` | scripts/ArchiScraperApp.py:529-533 | the loop computes `GetParentFolder` |
| `FolderGraph.ListOf` | scripts/ArchiScraperApp.py:535 | `list(set)` holds exactly the elements of the set |
| `FolderGraph.AncestorStep` | scripts/ArchiScraperApp.py:538-541 | the non-empty parent of an ancestor is an ancestor |
| `FolderGraph.ParentIsRecorded` | scripts/ArchiScraperApp.py:529-533 | a parent found is the folder of some content edge |
| `FolderGraph.IncludeAncestors` | scripts/ArchiScraperApp.py:535-541 | the closure keeps the initial folders, keeps the non-empty parent of each member, and adds only ancestors |
| `FolderGraph.ClosureIsAncestors` | scripts/ArchiScraperApp.py:535-541 | the closure is exactly the set of ancestors of the initial folders |
| `FolderGraph.AscendStaysIn` | scripts/ArchiScraperApp.py:536-541 | a set closed under the parent step holds every ancestor of its members |
| `FolderGraph.RootFolders` | scripts/ArchiScraperApp.py:545-552 | each root is listed once; a folder is listed exactly when it is kept, of type 'Folder', and has no parent or an 'ArchimateModel' parent |
| `OrgItems.AddFolderItems` | scripts/ArchiScraperApp.py:557-570 | the recursion computes `ItemsOf`, failing where Python exceeds its recursion limit |
| `OrgItems.ItemsOfWellFormed` | scripts/ArchiScraperApp.py:557-563 | a registered, kept folder gives one labelled item (its name or 'Unnamed') with well-formed children; any other folder gives nothing |
| `OrgItems.ChildItemsWellFormed` | scripts/ArchiScraperApp.py:565-570 | each child item is a kept 'Folder' child nested in turn, or a reference to a valid id |
| `OrgItems.ChildItemsComplete` | scripts/ArchiScraperApp.py:565-570 | every registered, kept folder child gets its item, and every other child with a valid id gets a reference |
| `OrgItems.FolderItemComplete` | scripts/ArchiScraperApp.py:557-570 | the item a folder writes carries its label and an item for every kept folder child and every valid reference among its children |
| `OrgItems.FailureIffCycle` | scripts/ArchiScraperApp.py:557-570 | with fuel for one level per kept folder, the build fails exactly when the folder reaches a cycle of kept 'Folder' edges |
| `OrgItems.FailureMeansCycle` | scripts/ArchiScraperApp.py:566-568 | a failure exhibits a cycle (by the pigeonhole principle) |
| `OrgItems.FailureHasChain` | scripts/ArchiScraperApp.py:566-568 | a failure with a given fuel exhibits a descent of one more folder than the fuel |
| `OrgItems.CycleMeansFailure` | scripts/ArchiScraperApp.py:566-568 | a reachable cycle makes the build fail, whatever the fuel |
| `Organizations.ValidIds` | scripts/ArchiScraperApp.py:488-493 | the valid ids are the kept elements, the relationships and each non-empty view id |
| `Organizations.EmitRoots` | scripts/ArchiScraperApp.py:572-573 | one item per root, in root order, and it is exactly the tree `add_folder_items` builds from that root; failure exactly when some root reaches a cycle |
| `Organizations.RootItem` | scripts/ArchiScraperApp.py:572-573 | a root that builds is well formed and reaches no cycle |
| `Organizations.AddOrganizations` | scripts/ArchiScraperApp.py:484-575 | the kept folders are the ancestors of the folders with content; the section holds, for each kept root once and nothing else, exactly the tree `add_folder_items` builds from it; failure exactly when a root reaches a cycle |
| `Organizations.SectionComplete` | scripts/ArchiScraperApp.py:557-573 | in a written section, each root carries its label, and every child of it that is a kept folder or a valid id appears under it |
| `SingleView.KeepElements` | scripts/ArchiScraperApp.py:396-401 | `all_elements` holds the exported elements, in view order, with their records |
| `SingleView.EmitElements` | scripts/ArchiScraperApp.py:409-420 | the loop writes `ElementEntries` of `all_elements` |
| `SingleView.IndexRelationships` | scripts/ArchiScraperApp.py:404-406 | the loop builds `RelationshipsById` |
| `SingleView.EmitRelationships` | scripts/ArchiScraperApp.py:423-433 | the loop writes one entry per key, in key order |
| `SingleView.ArchiMateXmlGenerator.constructor` | scripts/ArchiScraperApp.py:372-373 | the generator keeps its registry |
| `SingleView.ArchiMateXmlGenerator.CreateSingleViewXml` | scripts/ArchiScraperApp.py:375-482 | the model takes fresh id 0 and the nodes ids 1 onward; the elements, relationships and nodes sections are the specified ones; organizations are present exactly when the registry has folders and folder contents, and then meet `Whitelisted`, so each root is the full tree `add_folder_items` builds; in the model, failure only through the folder recursion (the digit limit of `str()` is not modelled) |
| `Nesting.BestParent` | scripts/html_to_archimate_xml.py:297-314 | a parent found is one of the candidates |
| `Nesting.BestParentSpec` | scripts/html_to_archimate_xml.py:297-314 | no parent exactly when no other box encloses the box; otherwise the first enclosing box of least area |
| `Nesting.NestingTree` | scripts/html_to_archimate_xml.py:289-316 | the parent map is always well formed |
| `Nesting.FindBestParent` | scripts/html_to_archimate_xml.py:291-314 | the inner loop, with infinity as the first best area, computes `BestParent` |
| `Nesting.TreePrefixStep` | scripts/html_to_archimate_xml.py:293-314 | one outer step maps the next key to its best parent |
| `Nesting.BuildNestingTree` | scripts/html_to_archimate_xml.py:289-316 | every key, in order, maps to its best parent |
| `Nesting.NestingTreeParent` | scripts/html_to_archimate_xml.py:289-323 | a key has no parent exactly when no other box encloses it; otherwise its parent is a different key whose box encloses it and has least area |
| `Nesting.IsInsideReflexive` | scripts/html_to_archimate_xml.py:318-323 | every box is inside itself, edges included |
| `Nesting.IsInsideTransitive` | scripts/html_to_archimate_xml.py:318-323 | a box inside a box inside a third one is inside the third |
| `Nesting.IsInsideAntisymmetric` | scripts/html_to_archimate_xml.py:318-323 | two boxes each inside the other have the same corners |
| `Nesting.MutualParents` | scripts/html_to_archimate_xml.py:318-323 | two boxes that are each other's parent have the same corners |
| `Nesting.ChildrenSpec` | scripts/html_to_archimate_xml.py:325-327 | the children are exactly the keys mapped to the parent, each once, in key order |
| `Nesting.IndexOfPrefix` | scripts/html_to_archimate_xml.py:327 | appending a key does not move the keys before it |
| `Nesting.GetChildrenSpec` | scripts/html_to_archimate_xml.py:325-327 | a key is a child of `p` exactly when the map sends it to `p` (`None` gives the top level) |
| `Cli.ModelDataCache.constructor` | scripts/html_to_archimate_xml.py:30 | the cache starts empty |
| `Cli.ModelDataCache.LoadModelData` | scripts/html_to_archimate_xml.py:63-114 | a loaded cache is returned unchanged whatever the arguments; otherwise the cache becomes the report's elements, or no elements when the file is missing |
| `Cli.ModelDataCache.GetElementDocumentation` | scripts/html_to_archimate_xml.py:116-120 | the documentation is looked up in the cache, giving '' before any load |
| `Cli.EmitViewElements` | scripts/html_to_archimate_xml.py:349-366 | the single filtering loop writes the same element section as the GUI's two loops |
| `Cli.EmitRelationshipList` | scripts/html_to_archimate_xml.py:369-379 | every relationship is written in list order, duplicates included |
| `Cli.CreateArchimateXml` | scripts/html_to_archimate_xml.py:332-441 | the model takes fresh id 0, the view id 1, the nodes ids 2 onward; the relationships section is present exactly when the list is non-empty; there is no organizations section |

## Left out

- I/O: fetching pages (`load_from_url`), reading files, `save_xml`, `prettify_xml`, the XML
  namespaces and `xml:lang` attributes, and the element text. A tree is built, not bytes.
- The GUI (`ArchiScraperApp`), `process_html_file`, `main`, the `generate_*.py` scripts and
  `build_app.py`.
- BeautifulSoup and the regular expressions over `model.html`. Their results are inputs (see
  above). Only `extract_id_from_href`'s pattern is modelled character by character.
- `unquote_plus` and the randomness of `uuid4`. Both are parameters.
- `int()` accepts only ASCII digits in the model. Python also accepts other Unicode decimal
  digits.
- `Text.PyInt`, `Text.ShowInt`: the sign, ASCII digits and single underscores are modelled.
  Non-ASCII decimal digits are not, as said above. The model also has no digit limit. From
  CPython 3.11 (and its security releases 3.10.7 and 3.9.14) on, `int()` and `str()` raise
  `ValueError` for a number of more than 4300 digits (`sys.int_info.default_max_str_digits`).
  On such input the area is skipped by the handler at scripts/ArchiScraperApp.py:279 (and
  scripts/html_to_archimate_xml.py:226), where the model stores it. A box whose width or
  height has more than 4300 digits makes the `str()` at scripts/ArchiScraperApp.py:476-479
  (and scripts/html_to_archimate_xml.py:431-434) raise, and the export fails, where
  `SingleView.ArchiMateXmlGenerator.CreateSingleViewXml` and `Cli.CreateArchimateXml` succeed.
  `Text.PyIntShowInt`, `Text.PyIntOfShown` and `ViewParser.ParseCoordsRoundTrip` hold for
  every integer of the model; in CPython they hold only below that limit.
- The never-filled `relationships` dictionaries, of `ModelDataParser` and of the converter's
  `MODEL_DATA`.
- `print` output. The converter's `node_ids` dictionary is written but never read.
- `OrgItems.AddFolderItems`: the recursion has one level of fuel per kept folder. The fuel
  stands in for Python's recursion limit (about 1000 frames). On acyclic folder trees deeper
  than the limit, the model succeeds where Python raises `RecursionError`. There, the model is
  weaker than the source.
- `FolderGraph.RootFolders`, `FolderGraph.IncludeAncestors`: Python iterates a set in an order
  fixed by string hashes. The model leaves that order open (any order may be chosen). It
  proves what holds for every order.
- `FolderGraph.HasValidContent`, `FolderGraph.FolderHasValidContent`:
  `folder_has_valid_content` recurses once per folder of a descent. A chain of folders deeper
  than Python's recursion limit raises `RecursionError`, and the whole export then fails (the
  handler at scripts/ArchiScraperApp.py:797 reports it). The model always returns an answer.
  There, the model is weaker than the source.
- `FolderItem.folderId` records the folder an item was built from, for the proofs. It is
  not written out.
- Exceptions other than `RecursionError` and the digit-limit `ValueError` above, such as a
  missing dict key, cannot occur on the modelled inputs and are not modelled.
- The command-line converter's `build_nesting_tree` and `get_children` are defined but never
  called by its export. They are modelled on their own.
- The ancestor closure also keeps the `ArchimateModel` folder and any non-empty parent. Such a
  folder is never a root and is not written out. `root_folder_ids` follows set iteration order,
  which the model leaves open.
