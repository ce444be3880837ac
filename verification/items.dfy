/**
 * The item tree the model owns: every item has a category tag, an id, a
 * title, a category-specific payload, an owner link and an ordered list of
 * owned children. Items live in an arena and are addressed by handles; the
 * arena is rebuilt from scratch on every reset, which always creates the
 * synthetic root, the state-machine root, the states container and the
 * transitions container, in that order, as handles 0 to 3.
 */
module Items {
  import opened Wrappers
  import opened Document

  type Handle = nat

  const RootHandle: Handle := 0
  const SMRootHandle: Handle := 1
  const StatesRootHandle: Handle := 2
  const TransRootHandle: Handle := 3

  /** Title the state-machine root starts with (`SM_DEFAULT_TITLE`). */
  const SMDefaultTitle: string := "State Machine"
  /** Title given to a state whose document node has none (`CYBERIADA_EMPTY_NODE_TITLE`). */
  const EmptyNodeTitle: string := "<Empty title>"
  const StatesRootTitle: string := "States"
  const TransitionsRootTitle: string := "Transitions"

  datatype Category =
    | ItemRoot | ItemSM | ItemStatesAggr | ItemTransitionsAggr
    | ItemState | ItemInitialState | ItemTransition | ItemAction | ItemComment

  /** The categories that the fixed top of the tree does not use. */
  predicate IsContent(c: Category)
  {
    !(c.ItemRoot? || c.ItemSM? || c.ItemStatesAggr? || c.ItemTransitionsAggr?)
  }

  datatype Size = Size(width: real, height: real)

  datatype StateGeometry = StateGeometry(position: Point, size: Size)

  datatype TransitionGeometry = TransitionGeometry(sourcePort: Point, targetPort: Point, path: seq<Point>)

  /** What an item carries besides its common fields. A transition refers to
      its endpoints by handle; it does not own them. */
  datatype Payload =
    | NoPayload
    | InitialPayload(point: Point)
    | StatePayload(action: string, geometry: StateGeometry)
    | CommentPayload(body: string, geometry: StateGeometry)
    | TransitionPayload(source: Handle, target: Handle, action: string, route: TransitionGeometry)

  datatype Item = Item(
    category: Category,
    id: string,
    title: string,
    payload: Payload,
    parent: Option<Handle>,
    children: seq<Handle>)

  /** The item arena together with the identifier index (`states_map`). */
  datatype Tree = Tree(items: seq<Item>, index: map<string, Handle>)

  function Container(c: Category, title: string, parent: Option<Handle>, children: seq<Handle>): Item
  {
    Item(c, "", title, NoPayload, parent, children)
  }

  /** The tree `initTrees` builds: root -> state-machine root -> {states
      container at row 0, transitions container at row 1}, and an empty index. */
  function InitialTree(): (t: Tree)
    ensures WellFormed(t) && |t.items| == 4 && t.index == map[]
  {
    Tree([Container(ItemRoot, "", None, [SMRootHandle]),
          Container(ItemSM, SMDefaultTitle, Some(RootHandle), [StatesRootHandle, TransRootHandle]),
          Container(ItemStatesAggr, StatesRootTitle, Some(SMRootHandle), []),
          Container(ItemTransitionsAggr, TransitionsRootTitle, Some(SMRootHandle), [])],
         map[])
  }

  predicate NoDuplicates(s: seq<Handle>)
  {
    forall i, j :: 0 <= i < j < |s| ==> s[i] != s[j]
  }

  /** The fixed top of the tree. */
  ghost predicate TopShape(t: Tree)
  {
    && |t.items| >= 4
    && t.items[RootHandle].category == ItemRoot
    && t.items[RootHandle].parent == None
    && t.items[RootHandle].children == [SMRootHandle]
    && t.items[SMRootHandle].category == ItemSM
    && t.items[SMRootHandle].parent == Some(RootHandle)
    && t.items[SMRootHandle].children == [StatesRootHandle, TransRootHandle]
    && t.items[StatesRootHandle].category == ItemStatesAggr
    && t.items[StatesRootHandle].parent == Some(SMRootHandle)
    && t.items[TransRootHandle].category == ItemTransitionsAggr
    && t.items[TransRootHandle].parent == Some(SMRootHandle)
    && forall h :: 4 <= h < |t.items| ==> IsContent(t.items[h].category)
  }

  /** Item `h` has an owner, allocated before it, whose children include it. */
  ghost predicate Owned(t: Tree, h: Handle)
    requires h < |t.items|
  {
    match t.items[h].parent
    case None => false
    case Some(p) => p < h && h in t.items[p].children
  }

  /** The `i`-th child of `h` is a live item whose owner link points back to `h`. */
  ghost predicate ChildLinked(t: Tree, h: Handle, i: nat)
    requires h < |t.items| && i < |t.items[h].children|
  {
    var c := t.items[h].children[i];
    c < |t.items| && t.items[c].parent == Some(h)
  }

  /** A transition refers only to live items. */
  ghost predicate EndpointsLive(t: Tree, h: Handle)
    requires h < |t.items|
  {
    t.items[h].payload.TransitionPayload? ==>
      t.items[h].payload.source < |t.items| && t.items[h].payload.target < |t.items|
  }

  /** The ownership invariant: every item but the root has exactly one owner
      that holds it exactly once, child lists and owner links agree, the index
      and transitions refer only to live items. */
  ghost predicate WellFormed(t: Tree)
  {
    && TopShape(t)
    && (forall h :: 0 < h < |t.items| ==> Owned(t, h))
    && (forall h, i :: 0 <= h < |t.items| && 0 <= i < |t.items[h].children| ==> ChildLinked(t, h, i))
    && (forall h :: 0 <= h < |t.items| ==> NoDuplicates(t.items[h].children))
    && (forall h :: 0 <= h < |t.items| ==> EndpointsLive(t, h))
    && (forall k :: k in t.index ==> t.index[k] < |t.items|)
  }

  /** `parent->addChild(item)`: the item joins the arena as the last child of
      `parent`, with its owner link set to `parent`. */
  function Attach(t: Tree, item: Item, parent: Handle): Tree
    requires parent < |t.items|
  {
    var n := |t.items|;
    var p := t.items[parent];
    Tree(t.items[parent := p.(children := p.children + [n])] + [item.(parent := Some(parent), children := [])],
         t.index)
  }

  /** Attaching a content item whose references are live under any item below
      the fixed top keeps the ownership invariant. */
  lemma AttachKeepsWellFormed(t: Tree, item: Item, parent: Handle)
    requires WellFormed(t) && StatesRootHandle <= parent < |t.items|
    requires IsContent(item.category)
    requires item.payload.TransitionPayload? ==>
               item.payload.source < |t.items| && item.payload.target < |t.items|
    ensures WellFormed(Attach(t, item, parent))
    ensures |Attach(t, item, parent).items| == |t.items| + 1
  {
    var n := |t.items|;
    var r := Attach(t, item, parent);
    forall h | 0 < h < |r.items| ensures Owned(r, h) {
      if h < n {
        assert Owned(t, h);
        assert r.items[h].parent == t.items[h].parent;
      }
    }
    forall h, i | 0 <= h < |r.items| && 0 <= i < |r.items[h].children| ensures ChildLinked(r, h, i) {
      if h != parent {
        assert ChildLinked(t, h, i);
      } else if i < |t.items[h].children| {
        assert ChildLinked(t, h, i);
      }
    }
    forall h | 0 <= h < |r.items| ensures NoDuplicates(r.items[h].children) {
      if h == parent {
        var s := t.items[h].children;
        assert NoDuplicates(s);
        forall i | 0 <= i < |s| ensures s[i] != n { assert ChildLinked(t, h, i); }
      }
    }
    forall h | 0 <= h < |r.items| ensures EndpointsLive(r, h) {
      if h < n { assert EndpointsLive(t, h); }
    }
  }

  /** Position of `x` in `s`, or `|s|` when absent. */
  function IndexOf(s: seq<Handle>, x: Handle): (k: nat)
    ensures k <= |s|
    ensures k < |s| ==> s[k] == x
    ensures forall j :: 0 <= j < k ==> s[j] != x
  {
    if s == [] then 0 else if s[0] == x then 0 else 1 + IndexOf(s[1..], x)
  }

  /** `item->row()`: the item's position among its owner's children; 0 for
      the root. */
  function Row(t: Tree, h: Handle): nat
    requires h < |t.items|
  {
    match t.items[h].parent
    case None => 0
    case Some(p) => if p < |t.items| then IndexOf(t.items[p].children, h) else 0
  }

  /** In a well-formed tree every item other than the root sits at its row in
      its owner's child list. */
  lemma RowLocatesItem(t: Tree, h: Handle)
    requires WellFormed(t) && 0 < h < |t.items|
    ensures t.items[h].parent.Some? && t.items[h].parent.value < h
    ensures Row(t, h) < |t.items[t.items[h].parent.value].children|
    ensures t.items[t.items[h].parent.value].children[Row(t, h)] == h
  {
    assert Owned(t, h);
  }

  /** Every item other than the root has exactly one owner: no other item
      lists it among its children. */
  lemma UniqueOwner(t: Tree, h: Handle, q: Handle)
    requires WellFormed(t) && q < |t.items| && h in t.items[q].children
    ensures h < |t.items| && t.items[h].parent == Some(q) && h != RootHandle
  {
    var i :| 0 <= i < |t.items[q].children| && t.items[q].children[i] == h;
    assert ChildLinked(t, q, i);
  }

  /** `item->rename(title)`: only the title of item `h` changes. */
  function Retitle(t: Tree, h: Handle, title: string): (r: Tree)
    requires h < |t.items|
    ensures |r.items| == |t.items| && r.index == t.index && r.items[h].title == title
    ensures forall x :: 0 <= x < |t.items| && x != h ==> r.items[x] == t.items[x]
  {
    t.(items := t.items[h := t.items[h].(title := title)])
  }

  lemma RetitleKeepsWellFormed(t: Tree, h: Handle, title: string)
    requires WellFormed(t) && h < |t.items|
    ensures WellFormed(Retitle(t, h, title))
  {
    var r := Retitle(t, h, title);
    forall x | 0 < x < |r.items| ensures Owned(r, x) { assert Owned(t, x); }
    forall x, i | 0 <= x < |r.items| && 0 <= i < |r.items[x].children| ensures ChildLinked(r, x, i) {
      assert ChildLinked(t, x, i);
    }
    forall x | 0 <= x < |r.items| ensures EndpointsLive(r, x) { assert EndpointsLive(t, x); }
  }
}
