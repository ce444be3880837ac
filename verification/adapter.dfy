/**
 * The contract the tree view queries: addresses (row, column, item), their
 * validity, owner and child counts, cell contents and icons, per-category
 * capabilities, the rename rule and the drag payload. Everything here is a
 * pure function of the tree.
 */
module Adapter {
  import opened Wrappers
  import opened Items

  /** A `QModelIndex`: the default-constructed one, or a row and column
      naming an item (`createIndex`). */
  datatype ModelIndex = Invalid | Index(row: int, column: int, item: Handle)

  /** `QModelIndex::isValid()`: made by `createIndex` with a row and a
      column that are both non-negative. */
  predicate IsValid(i: ModelIndex)
  {
    i.Index? && i.row >= 0 && i.column >= 0
  }

  /** `QModelIndex::column()`: -1 for the invalid index. */
  function Column(i: ModelIndex): int
  {
    if i.Invalid? then -1 else i.column
  }

  function RootIndex(): ModelIndex { Index(0, 0, RootHandle) }
  function SMIndex(): ModelIndex { Index(0, 0, SMRootHandle) }
  function StatesRootIndex(): ModelIndex { Index(0, 0, StatesRootHandle) }
  function TransitionsRootIndex(): ModelIndex { Index(1, 0, TransRootHandle) }

  /** A valid index names an item of the tree. */
  predicate Live(t: Tree, i: ModelIndex)
  {
    IsValid(i) ==> i.item < |t.items|
  }

  /** `isStateIndex`, `isInitialStateIndex`, `isActionIndex`, ...: a valid
      index naming an item of category `c`. */
  predicate IsCategoryIndex(t: Tree, i: ModelIndex, c: Category)
    requires Live(t, i)
  {
    IsValid(i) && t.items[i.item].category == c
  }

  /** The canonical address of item `h`: its row under its owner, column 0. */
  function Address(t: Tree, h: Handle): ModelIndex
    requires h < |t.items|
  {
    Index(Row(t, h), 0, h)
  }

  // ---- capabilities -------------------------------------------------------

  datatype Flag = ItemIsEnabled | ItemIsSelectable | ItemIsDragEnabled | ItemIsDropEnabled | ItemIsEditable

  /** `flags`: what the view may do with the item at `i`. */
  function Flags(t: Tree, i: ModelIndex): set<Flag>
    requires Live(t, i)
  {
    var defaults := {ItemIsEnabled, ItemIsSelectable};
    if i == StatesRootIndex() then defaults + {ItemIsDropEnabled}
    else if IsCategoryIndex(t, i, ItemState) || IsCategoryIndex(t, i, ItemInitialState) then
      defaults + {ItemIsDragEnabled}
      + (if IsCategoryIndex(t, i, ItemState) then {ItemIsDropEnabled, ItemIsEditable} else {})
    else if IsCategoryIndex(t, i, ItemAction) || i == SMIndex() then defaults + {ItemIsEditable}
    else defaults
  }

  /** The capability table: every item is enabled and selectable; states and
      initial states, and nothing else, can be dragged; the states container
      and states, and nothing else, accept drops; states, actions and the
      state-machine root, and nothing else, are editable. */
  lemma FlagsCapabilities(t: Tree, i: ModelIndex)
    requires WellFormed(t) && Live(t, i)
    ensures ItemIsEnabled in Flags(t, i) && ItemIsSelectable in Flags(t, i)
    ensures ItemIsDragEnabled in Flags(t, i)
            <==> IsCategoryIndex(t, i, ItemState) || IsCategoryIndex(t, i, ItemInitialState)
    ensures ItemIsDropEnabled in Flags(t, i)
            <==> i == StatesRootIndex() || IsCategoryIndex(t, i, ItemState)
    ensures ItemIsEditable in Flags(t, i)
            <==> IsCategoryIndex(t, i, ItemState) || IsCategoryIndex(t, i, ItemAction) || i == SMIndex()
  {
  }

  // ---- addressing ---------------------------------------------------------

  /** `hasIndex(row, column, parent)`. */
  function HasIndex(t: Tree, row: int, column: int, parent: ModelIndex): bool
    requires Live(t, parent)
  {
    if column > 0 then false
    else if !IsValid(parent) then row == 0
    else if |t.items[parent.item].children| > 0 then 0 <= row < |t.items[parent.item].children|
    else false
  }

  /** `index(row, column, parent)`: the address of the `row`-th child of
      `parent`, or the invalid index. */
  function IndexAt(t: Tree, row: int, column: int, parent: ModelIndex): ModelIndex
    requires Live(t, parent)
  {
    if !IsValid(parent) || !HasIndex(t, row, column, parent) then Invalid
    else Index(row, column, t.items[parent.item].children[row])
  }

  /** `rowCount(parent)`: the invalid index and the root index both stand
      for the root. */
  function RowCount(t: Tree, parent: ModelIndex): int
    requires Live(t, parent) && |t.items| > 0
  {
    if Column(parent) > 0 then 0
    else if !IsValid(parent) || parent == RootIndex() then |t.items[RootHandle].children|
    else |t.items[parent.item].children|
  }

  /** `columnCount`: the tree has one column. */
  function ColumnCount(t: Tree, parent: ModelIndex): int
  {
    1
  }

  function HasChildren(t: Tree, parent: ModelIndex): bool
    requires Live(t, parent) && |t.items| > 0
  {
    RowCount(t, parent) > 0
  }

  /** The owner lookup `parent` needs: every index it may be asked about
      other than the root's own names an item that has an owner. */
  predicate ParentDefined(t: Tree, i: ModelIndex)
    requires Live(t, i)
  {
    IsValid(i) && i != RootIndex() && i != SMIndex() ==> t.items[i.item].parent.Some?
  }

  /** `parent(index)`. */
  function Parent(t: Tree, i: ModelIndex): ModelIndex
    requires Live(t, i) && ParentDefined(t, i)
  {
    if !IsValid(i) || i == RootIndex() then Invalid
    else if i == SMIndex() then RootIndex()
    else
      var p := t.items[i.item].parent.value;
      if p == RootHandle then RootIndex()
      else if p < |t.items| then Index(Row(t, p), 0, p)
      else Invalid
  }

  /** `hasIndex`, `rowCount` and `columnCount` agree: under a column-0 (or
      invalid) parent the accepted rows are exactly 0 up to the row count,
      and no accepted address has a column at or beyond the column count
      (a negative column is not refused). */
  lemma HasIndexMatchesRowCount(t: Tree, row: int, column: int, parent: ModelIndex)
    requires WellFormed(t) && Live(t, parent) && Column(parent) <= 0
    ensures column > 0 ==> !HasIndex(t, row, column, parent)
    ensures HasIndex(t, row, column, parent) ==> column < ColumnCount(t, parent)
    ensures column <= 0 ==> (HasIndex(t, row, column, parent) <==> 0 <= row < RowCount(t, parent))
    ensures HasChildren(t, parent) <==> HasIndex(t, 0, 0, parent)
  {
  }

  /** `index` addresses a child of the given parent: the item it names is
      owned by the parent's item and sits at the requested row. */
  lemma IndexAtNamesChild(t: Tree, row: int, column: int, parent: ModelIndex)
    requires WellFormed(t) && Live(t, parent) && IsValid(parent) && HasIndex(t, row, column, parent)
    ensures var c := IndexAt(t, row, column, parent);
      && c.Index? && c.row == row && c.column == column && c.item < |t.items|
      && t.items[c.item].parent == Some(parent.item)
      && Row(t, c.item) == row
  {
    var c := t.items[parent.item].children[row];
    assert ChildLinked(t, parent.item, row);
    assert NoDuplicates(t.items[parent.item].children);
  }

  /** In a well-formed tree `index` yields only live addresses. */
  lemma IndexAtLive(t: Tree, row: int, column: int, parent: ModelIndex)
    requires WellFormed(t) && Live(t, parent)
    ensures Live(t, IndexAt(t, row, column, parent))
  {
    if IsValid(parent) && HasIndex(t, row, column, parent) {
      assert ChildLinked(t, parent.item, row);
    }
  }

  /** `parent` of a valid index naming an item other than the root is the
      canonical address of that item's owner; an index with a negative row
      or column is not valid and has no parent. */
  lemma ParentIsOwnerAddress(t: Tree, row: int, column: int, h: Handle)
    requires WellFormed(t) && 0 < h < |t.items|
    ensures ParentDefined(t, Index(row, column, h))
    ensures t.items[h].parent.Some? && t.items[h].parent.value < h
    ensures Parent(t, Index(row, column, h))
            == if row >= 0 && column >= 0 then Address(t, t.items[h].parent.value) else Invalid
  {
    assert Owned(t, h);
  }

  /** Going to the owner and back down by the item's row returns to the
      item's own address. */
  lemma ParentThenIndexRoundTrip(t: Tree, h: Handle)
    requires WellFormed(t) && 0 < h < |t.items|
    ensures ParentDefined(t, Address(t, h))
    ensures IndexAt(t, Row(t, h), 0, Parent(t, Address(t, h))) == Address(t, h)
  {
    ParentIsOwnerAddress(t, Row(t, h), 0, h);
    RowLocatesItem(t, h);
  }

  // ---- itemToIndex ----------------------------------------------------------

  /** `itemToIndex` as written: it asks for row `parent->row()` under the
      parent's index, which names a child of the parent at the parent's own
      row rather than the item itself. */
  function ItemToIndexAsWritten(t: Tree, h: Handle): (i: ModelIndex)
    requires WellFormed(t) && h < |t.items|
    ensures Live(t, i)
    decreases h
  {
    if h == RootHandle then RootIndex()
    else
      assert Owned(t, h);
      var p := t.items[h].parent.value;
      var pi := ItemToIndexAsWritten(t, p);
      IndexAtLive(t, Row(t, p), 0, pi);
      IndexAt(t, Row(t, p), 0, pi)
  }

  /** As written, the transitions container is given the states container's
      index. */
  lemma ItemToIndexAsWrittenMisses(t: Tree)
    requires WellFormed(t)
    ensures ItemToIndexAsWritten(t, TransRootHandle) == StatesRootIndex()
    ensures Address(t, TransRootHandle) == TransitionsRootIndex()
    ensures ItemToIndexAsWritten(t, TransRootHandle) != Address(t, TransRootHandle)
  {
    assert Row(t, SMRootHandle) == 0;
    assert ItemToIndexAsWritten(t, SMRootHandle) == SMIndex();
    var s := t.items[SMRootHandle].children;
    assert s == [StatesRootHandle, TransRootHandle];
    assert IndexOf(s, TransRootHandle) == 1 by {
      assert s[0] != TransRootHandle && s[1] == TransRootHandle;
    }
    assert Row(t, TransRootHandle) == 1;
  }

  /** `itemToIndex` as intended: the item's own row under its owner's index. */
  function ItemToIndex(t: Tree, h: Handle): (i: ModelIndex)
    requires WellFormed(t) && h < |t.items|
    ensures Live(t, i)
    decreases h
  {
    if h == RootHandle then RootIndex()
    else
      assert Owned(t, h);
      var p := t.items[h].parent.value;
      var pi := ItemToIndex(t, p);
      IndexAtLive(t, Row(t, h), 0, pi);
      IndexAt(t, Row(t, h), 0, pi)
  }

  /** The corrected `itemToIndex` yields the item's canonical address, so
      `parent` of it is the owner's and `index` of its row under that returns
      it. */
  lemma {:induction false} ItemToIndexIsAddress(t: Tree, h: Handle)
    requires WellFormed(t) && h < |t.items|
    ensures ItemToIndex(t, h) == Address(t, h)
    decreases h
  {
    if h != RootHandle {
      assert Owned(t, h);
      var p := t.items[h].parent.value;
      RowLocatesItem(t, h);
      ItemToIndexIsAddress(t, p);
      if p != RootHandle { assert Owned(t, p); }
      assert HasIndex(t, Row(t, h), 0, ItemToIndex(t, p));
    }
  }

  // ---- cell contents --------------------------------------------------------

  datatype Role = DisplayRole | DecorationRole | EditRole | ToolTipRole | OtherRole(code: nat)

  datatype Icon =
    | EmptyIcon | SMRootIcon | StateRootIcon | TransRootIcon
    | StateIcon | InitialStateIcon | TransIcon | ActionIcon | CommentIcon

  datatype CellValue = NoValue | TextValue(text: string) | IconValue(icon: Icon)

  /** `getIndexIcon`. */
  function IndexIcon(t: Tree, i: ModelIndex): Icon
    requires Live(t, i)
  {
    if !IsValid(i) then EmptyIcon
    else match t.items[i.item].category
      case ItemSM => SMRootIcon
      case ItemStatesAggr => StateRootIcon
      case ItemTransitionsAggr => TransRootIcon
      case ItemInitialState => InitialStateIcon
      case ItemState => StateIcon
      case ItemComment => CommentIcon
      case ItemTransition => TransIcon
      case ItemAction => ActionIcon
      case ItemRoot => EmptyIcon
  }

  /** Icons tell categories apart: only an index that is not valid and the
      root's get the empty icon, and two indexes with the same non-empty
      icon name items of the same category. */
  lemma IconsDistinguishCategories(t: Tree, i: ModelIndex, j: ModelIndex)
    requires Live(t, i) && Live(t, j)
    ensures IndexIcon(t, i) == EmptyIcon <==> !IsValid(i) || t.items[i.item].category == ItemRoot
    ensures IndexIcon(t, i) == IndexIcon(t, j) && IndexIcon(t, i) != EmptyIcon
            ==> IsValid(i) && IsValid(j) && t.items[i.item].category == t.items[j.item].category
  {
  }

  /** `data(index, role)`. */
  function Data(t: Tree, i: ModelIndex, role: Role): CellValue
    requires Live(t, i)
  {
    if !IsValid(i) || i.column != 0 || i == RootIndex() then NoValue
    else match role
      case DisplayRole => TextValue(t.items[i.item].title)
      case ToolTipRole => TextValue(t.items[i.item].title)
      case EditRole => TextValue(t.items[i.item].title)
      case DecorationRole => IconValue(IndexIcon(t, i))
      case OtherRole(_) => NoValue
  }

  // ---- renaming -------------------------------------------------------------

  /** Whether `setData(index, value, role)` accepts the edit. */
  predicate CanSetData(t: Tree, i: ModelIndex, value: string, role: Role)
    requires Live(t, i)
  {
    && IsValid(i) && role == EditRole && i.column == 0
    && (i == SMIndex() || IsCategoryIndex(t, i, ItemState) || IsCategoryIndex(t, i, ItemAction))
    && (IsCategoryIndex(t, i, ItemAction) || value != [])
  }

  /** The tree after `setData`: the item is retitled when the edit is
      accepted, and nothing changes otherwise. */
  function SetDataResult(t: Tree, i: ModelIndex, value: string, role: Role): Tree
    requires Live(t, i)
  {
    if CanSetData(t, i, value, role) then Retitle(t, i.item, value) else t
  }

  /** The rename rule: only edit-role, column-0 edits of the state-machine
      root, a state or an action are accepted; empty text is refused except
      for an action; and for non-empty text the accepted edits are exactly
      those on items the capability table marks editable. */
  lemma SetDataRules(t: Tree, i: ModelIndex, value: string, role: Role)
    requires WellFormed(t) && Live(t, i)
    ensures CanSetData(t, i, value, role) ==>
      && IsValid(i) && role == EditRole && Column(i) == 0
      && t.items[i.item].category in {ItemSM, ItemState, ItemAction}
    ensures !IsCategoryIndex(t, i, ItemAction) ==> !CanSetData(t, i, [], role)
    ensures IsCategoryIndex(t, i, ItemAction) && Column(i) == 0 ==> CanSetData(t, i, [], EditRole)
    ensures Column(i) == 0 && value != [] ==>
      (CanSetData(t, i, value, EditRole) <==> ItemIsEditable in Flags(t, i))
  {
  }

  /** An accepted edit is what the view reads back, and it touches no other
      item; a refused edit leaves the tree as it was. */
  lemma SetDataThenData(t: Tree, i: ModelIndex, value: string, role: Role)
    requires WellFormed(t) && Live(t, i)
    ensures var r := SetDataResult(t, i, value, role);
      && |r.items| == |t.items| && r.index == t.index
      && (CanSetData(t, i, value, role) ==>
            && Data(r, i, DisplayRole) == TextValue(value)
            && Data(r, i, EditRole) == TextValue(value)
            && (forall x :: 0 <= x < |t.items| && x != i.item ==> r.items[x] == t.items[x]))
      && (!CanSetData(t, i, value, role) ==> r == t)
  {
  }

  // ---- drag payload ---------------------------------------------------------

  /** The media type tagging a drag payload (`CYBERIADA_MIME_TYPE_STATE`). */
  const StateMimeType: string := "application/x-cyberiada-state"

  datatype MimePayload = MimePayload(format: string, ids: seq<string>)

  predicate AllLive(t: Tree, indexes: seq<ModelIndex>)
  {
    forall k :: 0 <= k < |indexes| ==> Live(t, indexes[k])
  }

  /** The ids `mimeData` writes: those of the column-0 indexes naming a state
      or an initial state, in order. */
  function DraggedIds(t: Tree, indexes: seq<ModelIndex>): seq<string>
    requires AllLive(t, indexes)
  {
    if indexes == [] then []
    else
      var i := indexes[0];
      (if Column(i) == 0 && (IsCategoryIndex(t, i, ItemState) || IsCategoryIndex(t, i, ItemInitialState))
       then [t.items[i.item].id] else [])
      + DraggedIds(t, indexes[1..])
  }

  /** Writing the ids of a list and then of one more index is writing the
      ids of the longer list: the payload can be built front to back. */
  lemma {:induction false} DraggedIdsSnoc(t: Tree, indexes: seq<ModelIndex>, i: ModelIndex)
    requires AllLive(t, indexes) && Live(t, i)
    ensures AllLive(t, indexes + [i])
    ensures DraggedIds(t, indexes + [i]) == DraggedIds(t, indexes) + DraggedIds(t, [i])
  {
    var s := indexes + [i];
    assert forall k :: 0 <= k < |s| ==> s[k] == if k < |indexes| then indexes[k] else i;
    if indexes != [] {
      assert s[1..] == indexes[1..] + [i];
      DraggedIdsSnoc(t, indexes[1..], i);
    } else {
      assert s == [i];
    }
  }

  /** The column-0 indexes the capability table lets the view drag, in order. */
  function DragSelection(t: Tree, indexes: seq<ModelIndex>): (s: seq<ModelIndex>)
    requires AllLive(t, indexes)
    ensures AllLive(t, s) && |s| <= |indexes|
  {
    if indexes == [] then []
    else
      (if Column(indexes[0]) == 0 && ItemIsDragEnabled in Flags(t, indexes[0]) then [indexes[0]] else [])
      + DragSelection(t, indexes[1..])
  }

  function IdsOf(t: Tree, indexes: seq<ModelIndex>): seq<string>
    requires forall k :: 0 <= k < |indexes| ==> indexes[k].Index? && indexes[k].item < |t.items|
  {
    seq(|indexes|, k requires 0 <= k < |indexes| => t.items[indexes[k].item].id)
  }

  /** The payload carries the ids of exactly the column-0 indexes whose
      flags allow dragging, in the order given. */
  lemma {:induction false} DraggedIdsAreDragEnabled(t: Tree, indexes: seq<ModelIndex>)
    requires WellFormed(t) && AllLive(t, indexes)
    ensures forall k :: 0 <= k < |DragSelection(t, indexes)| ==>
              DragSelection(t, indexes)[k].Index? && DragSelection(t, indexes)[k].item < |t.items|
    ensures DraggedIds(t, indexes) == IdsOf(t, DragSelection(t, indexes))
  {
    if indexes != [] {
      FlagsCapabilities(t, indexes[0]);
      DraggedIdsAreDragEnabled(t, indexes[1..]);
    }
  }
}
