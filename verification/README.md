# CyberiadaHSM-Editor state-machine model, in Dafny

This project models the Qt model layer of the CyberiadaHSM-Editor:
`CyberiadaSMModel` in `cyberiadasm_model.cpp`. The object owns two things:
- an ownership tree of typed items: the root, the state-machine root, the
  states and transitions containers, states, initial states, comments and
  transitions;
- `states_map`, an index from identifier strings to items.

It rebuilds both from a parsed CyberiadaML document. It also answers the
tree view's questions about addresses, capabilities, cell contents, renames
and drag payloads.

The modules follow the layers of the source:

| module | file | contents |
|---|---|---|
| `Wrappers` | wrappers.dfy | `Option` |
| `Text` | text.dfy | `QString::trimmed` (Unicode white space per `QChar::isSpace`), decimal rendering, and the place markers of `QString::arg` |
| `Document` | document.dfy | the parsed document: nodes (a tree), edges (a list), geometry as opaque coordinates |
| `Items` | items.dfy | the item arena (`seq<Item>` indexed by handle) and its ownership invariant `WellFormed`, the fixed top of the tree |
| `Identifiers` | identifiers.dfy | the collision rule of `addToMap` and the generated comment ids |
| `Converter` | converter.dfy | `convertNode`, `addChildNodes`, `convertEdge` and the edge loop of `loadGraph` as functions on tree values, with their properties |
| `Adapter` | adapter.dfy | `flags`, `hasIndex`, `index`, `parent`, `rowCount`, `columnCount`, `hasChildren`, `data`, `getIndexIcon`, `setData`'s rule, `mimeData`'s payload, `itemToIndex` |
| `StateMachineModel` | model.dfy | class `SMModel` with the source's fields; its methods change them in place and are proved to produce exactly the tree the functions above describe |
| `Scenarios` | scenarios.dfy | two concrete loads of a light-switch document |

**Item tree.** Items live in an arena. Handle `h` is position `h` of `items`.
- Handles 0 to 3 are the root, the state-machine root, the states container
  (row 0 under the state-machine root) and the transitions container (row 1).
- Every other item has one owner with a smaller handle, which lists it once
  among its children.
- Transition endpoints and index values are live handles.

`WellFormed` states all of this. Every operation that adds or renames items
is proved to keep it.

**Model indexes.** A `QModelIndex` is `Invalid` (default-constructed) or
`Index(row, column, item)` (made by `createIndex`). As in Qt, `IsValid` holds
only for an `Index` whose row and column are both non-negative. Wherever the
source calls `isValid()`, directly or through `isStateIndex` and its kin, the
model tests `IsValid`. Equality of indexes is structural, as in Qt.

## Model

| member | source | states |
|---|---|---|
| Identifiers.CommitKeyIsFewest | cyberiadasm_model.cpp:155-162 | the key `addToMap` commits is `id` followed by the fewest `_` that make it absent from the index: it is not a key, and every shorter candidate is one |
| StateMachineModel.SMModel.AddToMap | cyberiadasm_model.cpp:155-162 | the index gains exactly the committed key, mapped to the item; the new key was absent, the size grows by one, every earlier entry is unchanged, and nothing else changes |
| Text.LowestMarkerIsLowest | cyberiadasm_model.cpp:87 | the marker `arg` substitutes is absent exactly when the format has no `%1`..`%9`, and otherwise occurs in the format and is the lowest-numbered one |
| Text.ArgWithoutMarker | cyberiadasm_model.cpp:87 | `arg` on a format without a place marker returns the format unchanged |
| Identifiers.EveryDrawIsLiteral | cyberiadasm_model.cpp:86-87 | as written, `%d` is no place marker, so every draw's candidate is the literal `id-%d`, whatever number is drawn |
| Identifiers.AsWrittenSecondRequestHangs | cyberiadasm_model.cpp:82-90 | as written, the first request returns `id-%d` and `addToMap` registers it under that key; from then on every draw is a key, so the next request never leaves the loop |
| Identifiers.IntendedFormatGivesCandidate | cyberiadasm_model.cpp:87 | with the intended format `id-%1`, `arg` yields `id-` followed by the drawn number |
| Identifiers.FreshIdIsFresh | cyberiadasm_model.cpp:82-90 | the corrected generator returns a key absent from the index, of the form `id-` followed by a decimal number |
| Identifiers.CandidateRoundTrip | cyberiadasm_model.cpp:86-87 | the number read back from a candidate `id-<n>` is `n`, so distinct draws give distinct candidates |
| Text.DecimalRoundTrip | cyberiadasm_model.cpp:87 | the decimal rendering of `n` is a non-empty digit string whose value is `n` |
| StateMachineModel.SMModel.GenerateID | cyberiadasm_model.cpp:82-90 | the loop returns the corrected generator's fresh key and changes nothing |
| Text.TrimIsInfix | cyberiadasm_model.cpp:112 | `trimmed()` returns a contiguous slice of the text; everything cut off is white space, and the result neither starts nor ends with white space |
| Text.TrimIdempotent | cyberiadasm_model.cpp:112 | trimming twice is trimming once |
| Converter.NodeToItemRules | cyberiadasm_model.cpp:92-115 | an initial node becomes an initial state carrying only its point; a comment gets a fresh generated id, not the node's; any other node becomes a state with the placeholder title when its own is empty and a trimmed action |
| StateMachineModel.SMModel.ConvertNode | cyberiadasm_model.cpp:92-115 | the built item is the one `NodeToItem` describes for the current index |
| StateMachineModel.SMModel.AddChild | cyberiadasm_model.cpp:147 | appending an item to a parent adds one handle at the end of the parent's children, links the item to the parent, and changes nothing else |
| Items.AttachKeepsWellFormed | cyberiadasm_model.cpp:147 | attaching a content item below the states container keeps the ownership invariant |
| Items.InitialTree | cyberiadasm_model.cpp:49-59 | the fresh tree has the fixed top shape, the states container at row 0 and the transitions container at row 1, and an empty index |
| StateMachineModel.SMModel.constructor | cyberiadasm_model.cpp:33-47 | a new model has the default name and the fresh tree |
| StateMachineModel.SMModel.InitTrees | cyberiadasm_model.cpp:49-59 | the fields name the fresh tree's four fixed items |
| StateMachineModel.SMModel.CleanupTrees | cyberiadasm_model.cpp:61-67 | the index is cleared, the whole tree released and the four item pointers set to null; the name and version are kept |
| StateMachineModel.SMModel.Reset | cyberiadasm_model.cpp:74-80 | the tree and index return to the fresh state; the name and version are kept |
| Converter.AddNodesEffect | cyberiadasm_model.cpp:135-153 | walking a sibling list appends exactly the `Attached` handles, in document order, to the parent: top-level nodes contribute their children's items instead of their own; no earlier item changes otherwise |
| Converter.AddNodeEffect | cyberiadasm_model.cpp:138-151 | one node adds its own handle to the parent, or, at the top level, its children's handles |
| Converter.AddNodesIndex | cyberiadasm_model.cpp:145-147 | registration only adds: earlier keys keep their items, the index gains one key per attached node, and each new key names a new item |
| Converter.AddNodeIndex | cyberiadasm_model.cpp:145-147 | the same for one node; a top-level node is not registered |
| Converter.AddNodeItem | cyberiadasm_model.cpp:144-150 | a node below the top level becomes the item at the first free handle: the converted node, owned by the parent, holding its children's items, registered under its committed key |
| Converter.AddNodesKeepsWellFormed | cyberiadasm_model.cpp:135-153 | converting nodes below the states container keeps the ownership invariant |
| Converter.AddNodeKeepsWellFormed | cyberiadasm_model.cpp:138-151 | the same for one node |
| StateMachineModel.SMModel.AddChildNodes | cyberiadasm_model.cpp:135-153 | the recursive sibling walk leaves exactly the tree `AddNodes` describes |
| Converter.EdgeToItemRules | cyberiadasm_model.cpp:117-133 | no transition exactly when the source id or the target id is not a key; otherwise the transition refers to the indexed items, carries the edge's id and trimmed action (also as its title), and its geometry is the edge's source port, target port and polyline |
| StateMachineModel.SMModel.ConvertEdge | cyberiadasm_model.cpp:117-133 | the polyline loop copies every point in order, and the result is the one `EdgeToItem` describes |
| Converter.ResolvedPrefix | cyberiadasm_model.cpp:190-198 | the counted leading edges all resolve, and the edge after them does not |
| Converter.AddEdgesOutcome | cyberiadasm_model.cpp:190-198 | the loop reports the first unresolved edge's id, or nothing; it attaches one transition per resolving edge before it; it leaves the index unchanged |
| Converter.AddEdgesAppends | cyberiadasm_model.cpp:190-198 | the transitions are appended to the transitions container in edge order, and no earlier item changes otherwise: nothing is rolled back |
| Converter.AddEdgesItems | cyberiadasm_model.cpp:190-198 | the `i`-th new item is the transition converted from the `i`-th edge |
| Converter.AddEdgesKeepsWellFormed | cyberiadasm_model.cpp:190-198 | the edge loop keeps the ownership invariant |
| StateMachineModel.SMModel.AddTransitions | cyberiadasm_model.cpp:190-198 | the edge loop leaves exactly the tree and failure report `AddEdges` describes, and keeps the invariant |
| StateMachineModel.SMModel.RenameSM | cyberiadasm_model.cpp:164-170 | an empty name is ignored; otherwise the stored name and the state-machine root's title both become the new name, and nothing else changes |
| StateMachineModel.SMModel.LoadGraph | cyberiadasm_model.cpp:172-201 | after a read error the tree is fresh and the error is reported; otherwise the version is stored, the name is applied, and the tree is exactly `LoadResult` of the document, reporting the first unresolved edge |
| StateMachineModel.NodesLoadedShape | cyberiadasm_model.cpp:172-189 | after the node walk the state-machine root carries the document's name (or the default), the states container holds the items of the nodes below the top level in document order, the transitions container is empty, and the index has one key per such node |
| StateMachineModel.LoadResultShape | cyberiadasm_model.cpp:172-201 | a load holds 4 + (nodes below the top level) + (leading resolving edges) items; the transitions container holds exactly those transitions; the index is the node walk's; the first unresolved edge is reported; the states stay when an edge fails |
| StateMachineModel.LoadTransition | cyberiadasm_model.cpp:190-198 | the `i`-th loaded transition is the `i`-th edge, with endpoints looked up in the index and a trimmed label |
| Scenarios.LightNodes | cyberiadasm_model.cpp:135-153 | in the light-switch document, `s1` and `s2` become items 4 and 5 under the states container, registered under their own ids |
| Scenarios.LightLoads | cyberiadasm_model.cpp:172-201 | the light switch loads with `s1` and `s2` in document order and one transition from `s1` to `s2` labelled `turn_on` |
| Scenarios.MissingTargetKeepsStates | cyberiadasm_model.cpp:190-198 | an edge to a missing state is reported; the two state items and their index entries stay, and the transitions container stays empty |
| Adapter.FlagsCapabilities | cyberiadasm_model.cpp:267-282 | every index is enabled and selectable; drag holds iff the index is valid and names a state or an initial state; drop iff it is the states container's index or a valid index of a state; edit iff it is a valid index of a state or an action, or the state-machine root's index; an index that is not valid gets only the defaults |
| Adapter.HasIndexMatchesRowCount | cyberiadasm_model.cpp:284-359 | no positive column is accepted, so an accepted column is below the column count (a negative one is not refused); under a column-0 or invalid parent, a row is accepted iff it is below the row count; `hasChildren` iff row 0 is accepted |
| Adapter.IndexAtNamesChild | cyberiadasm_model.cpp:299-311 | `index` names the child at the requested row of the parent's item: the child's owner is the parent, and its row is the requested one |
| Adapter.IndexAtLive | cyberiadasm_model.cpp:299-311 | `index` only yields addresses of existing items |
| Adapter.ParentIsOwnerAddress | cyberiadasm_model.cpp:313-331 | `parent` of a valid index of any item but the root is the canonical address of its owner; with a negative row or column it is the invalid index |
| Adapter.ParentThenIndexRoundTrip | cyberiadasm_model.cpp:299-331 | going to the owner with `parent` and back with `index` at the item's row returns the item's own address |
| Adapter.ItemToIndexAsWrittenMisses | cyberiadasm_model.cpp:381-391 | as written, `itemToIndex` of the transitions container is the states container's index, not its own address |
| Adapter.ItemToIndexIsAddress | cyberiadasm_model.cpp:381-391 | the corrected `itemToIndex` yields every item's canonical address |
| Adapter.IconsDistinguishCategories | cyberiadasm_model.cpp:224-249 | the empty icon goes exactly to indexes that are not valid and to the root's; two indexes with the same non-empty icon are valid and name items of one category |
| Adapter.SetDataRules | cyberiadasm_model.cpp:251-265 | an edit is accepted only on a valid index, with the edit role, in column 0, on the state-machine root, a state or an action; empty text is refused for everything but an action and accepted for an action; for non-empty text, acceptance is exactly the editable capability |
| Adapter.SetDataThenData | cyberiadasm_model.cpp:203-265 | an accepted edit is what `data` shows and edits afterwards, and no other item changes; a refused edit leaves the tree unchanged |
| StateMachineModel.SMModel.SetData | cyberiadasm_model.cpp:251-265 | the answer is the rename rule, the tree becomes `SetDataResult`, and the invariant holds |
| Adapter.DraggedIdsAreDragEnabled | cyberiadasm_model.cpp:540-554 | the payload carries the ids of exactly the column-0 indexes whose flags allow dragging, in the order given |
| Adapter.DraggedIdsSnoc | cyberiadasm_model.cpp:546-551 | the payload of a list followed by one index is the list's payload followed by that index's contribution, so the payload can be written front to back |
| StateMachineModel.SMModel.MimeData | cyberiadasm_model.cpp:540-554 | the front-to-back loop writes the ids `DraggedIds` selects, in input order, under the state media type, and changes nothing |

## Left out

- Qt glue is not modelled. This covers `QIcon` loading, `QVariant`, `createIndex`, `qDebug`, and the `beginResetModel`/`endResetModel`/`dataChanged` signals. Icons are an enumeration.
- The parser is out of scope. `cyberiada_read_sm` and `cyberiada_cleanup_sm` are external; the parsed document (or its error code) is an input value.
- Geometry is copied verbatim. Coordinates are `real` and carry no floating-point rounding.
- `move` and `dropMimeData` are not modelled. Their bodies are commented out, so the code promises no behaviour.
- `idToItem`, `indexToItem` and `isTrivialIndex` are not modelled. They are plain lookups that nothing in the model depends on.
- The item classes (`CyberiadaRootItem`, `addChild`, `child`, `row`, `rename`) are not part of this model and are abstracted:
  - an item is a category, an id, a title, a payload, an owner link and a child sequence;
  - `cyberiada_constants.h` is not part of this model, so the default titles and the media type are placeholder strings;
  - the model assumes that building a state item creates no action child item; action items are handled wherever the source tests for them, but none arises from a load;
  - the titles of items whose constructors are not shown are assumed: an initial state gets an empty title, a comment its body, and a transition its trimmed action (cyberiadasm_model.cpp:98, 106, 131).
- The top-level node item built during the walk is never attached or registered, and then leaked. The model only captures that it is not attached or registered.
- The serialised byte stream of `mimeData` is not modelled. The payload is its media type and its list of ids.
- StateMachineModel.SMModel.GenerateID: the random draw `qrand() % 10000` is replaced by a scan from `id-0` upward, and the bound of 10000 is not kept. Only freshness is promised.
- Converter.NodeToItem, `StateMachineModel.LoadResult` and `StateMachineModel.SMModel.LoadGraph` use the corrected generator. For a document with comments their trees hold `id-0`, `id-1`, ...; the program as written registers `id-%d` for the first comment and never returns from the second (see Findings).
- `QString::arg` is modelled for the single-digit markers `%1` to `%9`; two-digit markers and the `%L` prefix are not modelled, and the formats used here contain neither.
- Converter.AttachNode links the item before registering it, while the source registers first (lines 146-147). The two steps touch different fields, so the resulting tree is the same. `SMModel.AddChildNodes` keeps the source's order.
- Aliasing of item pointers is not modelled: handles are indexes into one arena. Memory release (`delete root`) is modelled as emptying the arena.

**No rollback.** An edge with an unknown endpoint does not roll back the load. The edge loop returns and keeps the state items, the index, and the transitions attached before the failing edge; see `Scenarios.MissingTargetKeepsStates`.

## Findings

| source | as written | input that shows it | evidently intended | confidence | as-written member | corrected member |
|---|---|---|---|---|---|---|
| cyberiadasm_model.cpp:82-90 | `QString("id-%d").arg(num)` has no `%1` marker, so every candidate is the literal `id-%d` | a document with two comment nodes: the first registers `id-%d`, and the second request never leaves the loop | a fresh `id-<n>` for the drawn number | high, not executed | Identifiers.AsWrittenSecondRequestHangs | Identifiers.FreshIdIsFresh |
| cyberiadasm_model.cpp:381-391 | `index(parent->row(), 0, itemToIndex(parent))` asks for the parent's row, not the item's | `itemToIndex(trans_root)`: the parent is the state-machine root at row 0, so the result is the states container's index | `index(item->row(), 0, itemToIndex(parent))` | high, not executed | Adapter.ItemToIndexAsWrittenMisses | Adapter.ItemToIndexIsAddress |
