/**
 * The graph-to-tree converter as functions of the tree it starts from:
 * `convertNode`, `addChildNodes`, `convertEdge` and the edge loop of
 * `loadGraph`. The methods of `StateMachineModel.SMModel` are proved to
 * produce exactly these trees.
 */
module Converter {
  import opened Wrappers
  import opened Text
  import opened Document
  import opened Items
  import opened Identifiers

  function NodeGeometry(r: Rect): StateGeometry
  {
    StateGeometry(Point(r.x, r.y), Size(r.width, r.height))
  }

  /** `convertNode`: the item built for `node` under `parent`, when the
      index holds `keys`. */
  function NodeToItem(node: Node, parent: Handle, keys: set<string>): Item
  {
    match node.kind
    case NodeInitial =>
      Item(ItemInitialState, node.id, "", InitialPayload(Point(node.rect.x, node.rect.y)), Some(parent), [])
    case NodeComment =>
      Item(ItemComment, FreshId(keys), node.action, CommentPayload(node.action, NodeGeometry(node.rect)),
           Some(parent), [])
    case NodeOther(_) =>
      var title := if node.title == [] then EmptyNodeTitle else node.title;
      Item(ItemState, node.id, title, StatePayload(Trim(node.action), NodeGeometry(node.rect)), Some(parent), [])
  }

  /** What `convertNode` promises for each node type: an initial node
      becomes an initial state carrying only its position; a comment gets a
      freshly generated id rather than the node's; any other node becomes a
      state with a non-empty title (the placeholder when the document gives
      none) and a trimmed action. */
  lemma NodeToItemRules(node: Node, parent: Handle, keys: set<string>)
    ensures var item := NodeToItem(node, parent, keys);
      && IsContent(item.category) && item.parent == Some(parent) && item.children == []
      && (node.kind.NodeInitial? ==>
            item.category == ItemInitialState && item.id == node.id
            && item.payload == InitialPayload(Point(node.rect.x, node.rect.y)))
      && (node.kind.NodeComment? ==>
            item.category == ItemComment && item.id !in keys && CandidateNumber(item.id).Some?
            && item.payload.CommentPayload? && item.payload.body == node.action)
      && (node.kind.NodeOther? ==>
            && item.category == ItemState && item.id == node.id && item.title != []
            && (node.title != [] ==> item.title == node.title)
            && (node.title == [] ==> item.title == EmptyNodeTitle)
            && item.payload == StatePayload(Trim(node.action), NodeGeometry(node.rect)))
  {
    FreshIdIsFresh(keys);
  }

  /** `addToMap` on the tree value: `h` is registered under the committed key. */
  function Register(t: Tree, id: string, h: Handle): Tree
  {
    t.(index := t.index[CommitKey(t.index.Keys, id) := h])
  }

  lemma RegisterKeepsWellFormed(t: Tree, id: string, h: Handle)
    requires WellFormed(t) && h < |t.items|
    ensures WellFormed(Register(t, id, h))
  {
    var r := Register(t, id, h);
    assert r.items == t.items;
    forall x | 0 < x < |r.items| ensures Owned(r, x) { assert Owned(t, x); }
    forall x, i | 0 <= x < |r.items| && 0 <= i < |r.items[x].children| ensures ChildLinked(r, x, i) {
      assert ChildLinked(t, x, i);
    }
    forall x | 0 <= x < |r.items| ensures EndpointsLive(r, x) { assert EndpointsLive(t, x); }
  }

  /** The body of the node loop for a node below the top level: the item is
      created, registered, and appended to `parent`. */
  function AttachNode(t: Tree, node: Node, parent: Handle): (r: Tree)
    requires parent < |t.items|
    ensures |r.items| == |t.items| + 1
  {
    var item := NodeToItem(node, parent, t.index.Keys);
    Register(Attach(t, item, parent), item.id, |t.items|)
  }

  /** `addChildNodes(nodes, parent, toplevel)`: the sibling list is walked
      in document order, each node handled by `AddNode`. */
  function AddNodes(t: Tree, nodes: seq<Node>, parent: Handle, toplevel: bool): (r: Tree)
    requires parent < |t.items|
    ensures |r.items| == |t.items| + AttachedCount(nodes, toplevel)
    decreases nodes
  {
    if nodes == [] then t
    else AddNodes(AddNode(t, nodes[0], parent, toplevel), nodes[1..], parent, toplevel)
  }

  /** One node of `addChildNodes`: a top-level node is neither registered nor
      attached and its children go under `parent` instead; any other node is
      registered, appended to `parent`, and its own children are processed
      under its item. */
  function AddNode(t: Tree, node: Node, parent: Handle, toplevel: bool): (r: Tree)
    requires parent < |t.items|
    ensures |r.items| == |t.items| + Consumed(node, toplevel)
    decreases node
  {
    if toplevel then AddNodes(t, node.children, parent, false)
    else AddNodes(AttachNode(t, node, parent), node.children, |t.items|, false)
  }

  /** Number of items one node of the list contributes. */
  function Consumed(node: Node, toplevel: bool): nat
  {
    if toplevel then NodeCount(node.children) else 1 + NodeCount(node.children)
  }

  /** The handles `AddNodes` appends to `parent`, in order, when the arena
      starts at `base`. */
  function Attached(nodes: seq<Node>, base: nat, toplevel: bool): seq<Handle>
    decreases nodes
  {
    if nodes == [] then []
    else
      (if toplevel then Attached(nodes[0].children, base, false) else [base])
      + Attached(nodes[1..], base + Consumed(nodes[0], toplevel), toplevel)
  }

  /** The sibling lists are processed in document order: `parent` gains
      exactly the handles of `Attached` at its end, and no other item that
      existed before changes. */
  lemma {:induction false} AddNodesEffect(t: Tree, nodes: seq<Node>, parent: Handle, toplevel: bool)
    requires parent < |t.items|
    ensures var r := AddNodes(t, nodes, parent, toplevel);
      && (forall x :: 0 <= x < |t.items| && x != parent ==> r.items[x] == t.items[x])
      && r.items[parent] == t.items[parent].(children := t.items[parent].children + Attached(nodes, |t.items|, toplevel))
    decreases nodes
  {
    if nodes != [] {
      var t1 := AddNode(t, nodes[0], parent, toplevel);
      AddNodeEffect(t, nodes[0], parent, toplevel);
      AddNodesEffect(t1, nodes[1..], parent, toplevel);
    }
  }

  lemma {:induction false} AddNodeEffect(t: Tree, node: Node, parent: Handle, toplevel: bool)
    requires parent < |t.items|
    ensures var r := AddNode(t, node, parent, toplevel);
      && (forall x :: 0 <= x < |t.items| && x != parent ==> r.items[x] == t.items[x])
      && r.items[parent] == t.items[parent].(children := t.items[parent].children
                                               + (if toplevel then Attached(node.children, |t.items|, false)
                                                  else [|t.items|]))
    decreases node
  {
    if toplevel {
      AddNodesEffect(t, node.children, parent, false);
    } else {
      var t0 := AttachNode(t, node, parent);
      AddNodesEffect(t0, node.children, |t.items|, false);
    }
  }

  /** Registration only adds keys: every earlier entry keeps its value, the
      index gains exactly one key per attached node, and each new key names
      a newly created item. */
  lemma {:induction false} AddNodesIndex(t: Tree, nodes: seq<Node>, parent: Handle, toplevel: bool)
    requires parent < |t.items|
    ensures var r := AddNodes(t, nodes, parent, toplevel);
      && (forall k :: k in t.index ==> k in r.index && r.index[k] == t.index[k])
      && |r.index| == |t.index| + AttachedCount(nodes, toplevel)
      && (forall k :: k in r.index && k !in t.index ==> |t.items| <= r.index[k] < |r.items|)
    decreases nodes
  {
    if nodes != [] {
      var t1 := AddNode(t, nodes[0], parent, toplevel);
      AddNodeIndex(t, nodes[0], parent, toplevel);
      AddNodesIndex(t1, nodes[1..], parent, toplevel);
    }
  }

  lemma {:induction false} AddNodeIndex(t: Tree, node: Node, parent: Handle, toplevel: bool)
    requires parent < |t.items|
    ensures var r := AddNode(t, node, parent, toplevel);
      && (forall k :: k in t.index ==> k in r.index && r.index[k] == t.index[k])
      && |r.index| == |t.index| + Consumed(node, toplevel)
      && (forall k :: k in r.index && k !in t.index ==> |t.items| <= r.index[k] < |r.items|)
    decreases node
  {
    if toplevel {
      AddNodesIndex(t, node.children, parent, false);
    } else {
      var item := NodeToItem(node, parent, t.index.Keys);
      var key := CommitKey(t.index.Keys, item.id);
      CommitKeyIsFewest(t.index.Keys, item.id);
      var t0 := AttachNode(t, node, parent);
      assert t0.index == t.index[key := |t.items|];
      assert t0.index.Keys == t.index.Keys + {key};
      AddNodesIndex(t0, node.children, |t.items|, false);
    }
  }

  /** A node below the top level becomes the item at the first free handle:
      the converted node, owned by `parent`, holding its own children's
      items, and registered in the index under its committed key. */
  lemma AddNodeItem(t: Tree, node: Node, parent: Handle)
    requires parent < |t.items|
    ensures var r := AddNode(t, node, parent, false);
      var n := |t.items|;
      var item := NodeToItem(node, parent, t.index.Keys);
      && n < |r.items|
      && r.items[n] == item.(children := Attached(node.children, n + 1, false))
      && CommitKey(t.index.Keys, item.id) in r.index
      && r.index[CommitKey(t.index.Keys, item.id)] == n
  {
    var t0 := AttachNode(t, node, parent);
    AddNodesEffect(t0, node.children, |t.items|, false);
    AddNodesIndex(t0, node.children, |t.items|, false);
  }

  /** Converting nodes under the states container, or under any item below
      it, keeps the ownership invariant. */
  lemma {:induction false} AddNodesKeepsWellFormed(t: Tree, nodes: seq<Node>, parent: Handle, toplevel: bool)
    requires WellFormed(t) && StatesRootHandle <= parent < |t.items|
    ensures WellFormed(AddNodes(t, nodes, parent, toplevel))
    decreases nodes
  {
    if nodes != [] {
      var t1 := AddNode(t, nodes[0], parent, toplevel);
      AddNodeKeepsWellFormed(t, nodes[0], parent, toplevel);
      AddNodesKeepsWellFormed(t1, nodes[1..], parent, toplevel);
    }
  }

  lemma {:induction false} AddNodeKeepsWellFormed(t: Tree, node: Node, parent: Handle, toplevel: bool)
    requires WellFormed(t) && StatesRootHandle <= parent < |t.items|
    ensures WellFormed(AddNode(t, node, parent, toplevel))
    decreases node
  {
    if toplevel {
      AddNodesKeepsWellFormed(t, node.children, parent, false);
    } else {
      var item := NodeToItem(node, parent, t.index.Keys);
      NodeToItemRules(node, parent, t.index.Keys);
      AttachKeepsWellFormed(t, item, parent);
      RegisterKeepsWellFormed(Attach(t, item, parent), item.id, |t.items|);
      AddNodesKeepsWellFormed(AttachNode(t, node, parent), node.children, |t.items|, false);
    }
  }

  // ---- edges -------------------------------------------------------------

  /** Both endpoint ids of `e` are keys of the index. */
  predicate Resolves(index: map<string, Handle>, e: Edge)
  {
    e.sourceId in index && e.targetId in index
  }

  /** `convertEdge`: a transition between the items the index gives for the
      edge's endpoint ids, or `None` when either id is not a key. */
  function EdgeToItem(index: map<string, Handle>, e: Edge): Option<Item>
  {
    if Resolves(index, e) then
      var action := Trim(e.action);
      Some(Item(ItemTransition, e.id, action,
                TransitionPayload(index[e.sourceId], index[e.targetId], action,
                                  TransitionGeometry(e.sourcePoint, e.targetPoint, e.polyline)),
                None, []))
    else None
  }

  /** `convertEdge` yields no transition exactly when an endpoint id is
      unknown; otherwise the transition refers to the indexed items and
      carries the edge's id, trimmed action and verbatim geometry. */
  lemma EdgeToItemRules(index: map<string, Handle>, e: Edge)
    ensures EdgeToItem(index, e).None? <==> e.sourceId !in index || e.targetId !in index
    ensures EdgeToItem(index, e).Some? ==>
      var item := EdgeToItem(index, e).value;
      && item.category == ItemTransition && item.id == e.id
      && item.payload.TransitionPayload?
      && item.payload.source == index[e.sourceId] && item.payload.target == index[e.targetId]
      && item.payload.action == Trim(e.action) && item.title == Trim(e.action)
      && item.payload.route == TransitionGeometry(e.sourcePoint, e.targetPoint, e.polyline)
      && item.parent == None && item.children == []
  {
  }

  /** What the edge loop of `loadGraph` leaves: the tree, and the id of the
      edge it stopped at, if any. */
  datatype EdgeLoad = EdgeLoad(tree: Tree, failed: Option<string>)

  /** The edge loop: transitions are appended to the transitions container
      in edge order; the loop stops at the first edge that does not resolve
      and keeps everything attached so far. */
  function AddEdges(t: Tree, edges: seq<Edge>): EdgeLoad
    requires TransRootHandle < |t.items|
    decreases edges
  {
    if edges == [] then EdgeLoad(t, None)
    else
      match EdgeToItem(t.index, edges[0])
      case None => EdgeLoad(t, Some(edges[0].id))
      case Some(item) => AddEdges(Attach(t, item, TransRootHandle), edges[1..])
  }

  /** Number of leading edges whose endpoints all resolve. */
  function ResolvedPrefix(index: map<string, Handle>, edges: seq<Edge>): (k: nat)
    ensures k <= |edges|
    ensures forall i :: 0 <= i < k ==> Resolves(index, edges[i])
    ensures k < |edges| ==> !Resolves(index, edges[k])
  {
    if edges == [] || !Resolves(index, edges[0]) then 0 else 1 + ResolvedPrefix(index, edges[1..])
  }

  function Range(lo: nat, hi: nat): seq<Handle>
    requires lo <= hi
  {
    seq(hi - lo, i => lo + i)
  }

  /** The edge loop stops at the first edge that does not resolve, reporting
      its id, after attaching one transition per resolving edge before it;
      transitions are not registered, so the index is untouched. */
  lemma {:induction false} AddEdgesOutcome(t: Tree, edges: seq<Edge>)
    requires TransRootHandle < |t.items|
    ensures var k := ResolvedPrefix(t.index, edges);
      var r := AddEdges(t, edges);
      && r.failed == (if k < |edges| then Some(edges[k].id) else None)
      && r.tree.index == t.index
      && |r.tree.items| == |t.items| + k
    decreases edges
  {
    if edges != [] && Resolves(t.index, edges[0]) {
      AddEdgesOutcome(Attach(t, EdgeToItem(t.index, edges[0]).value, TransRootHandle), edges[1..]);
    }
  }

  /** The transitions are appended to the transitions container in edge
      order, and no item that existed before changes otherwise: there is no
      rollback of anything attached earlier. */
  lemma {:induction false} AddEdgesAppends(t: Tree, edges: seq<Edge>)
    requires TransRootHandle < |t.items|
    ensures var k := ResolvedPrefix(t.index, edges);
      var n := |t.items|;
      var r := AddEdges(t, edges).tree;
      && |r.items| >= n
      && (forall x :: 0 <= x < n && x != TransRootHandle ==> r.items[x] == t.items[x])
      && r.items[TransRootHandle]
           == t.items[TransRootHandle].(children := t.items[TransRootHandle].children + Range(n, n + k))
    decreases edges
  {
    AddEdgesOutcome(t, edges);
    var n := |t.items|;
    if edges != [] && Resolves(t.index, edges[0]) {
      var t1 := Attach(t, EdgeToItem(t.index, edges[0]).value, TransRootHandle);
      AddEdgesAppends(t1, edges[1..]);
      var k := ResolvedPrefix(t.index, edges);
      assert Range(n, n + k) == [n] + Range(n + 1, n + k);
    } else {
      assert Range(n, n) == [];
    }
  }

  /** The `i`-th new item is the transition built from the `i`-th edge. */
  lemma {:induction false} AddEdgesItems(t: Tree, edges: seq<Edge>, i: nat)
    requires TransRootHandle < |t.items| && i < ResolvedPrefix(t.index, edges)
    ensures |t.items| + i < |AddEdges(t, edges).tree.items|
    ensures AddEdges(t, edges).tree.items[|t.items| + i]
            == EdgeToItem(t.index, edges[i]).value.(parent := Some(TransRootHandle))
    decreases edges
  {
    AddEdgesOutcome(t, edges);
    var t1 := Attach(t, EdgeToItem(t.index, edges[0]).value, TransRootHandle);
    AddEdgesOutcome(t1, edges[1..]);
    if i == 0 {
      AddEdgesAppends(t1, edges[1..]);
    } else {
      AddEdgesItems(t1, edges[1..], i - 1);
      assert edges[1..][i - 1] == edges[i];
    }
  }

  /** The edge loop keeps the ownership invariant. */
  lemma {:induction false} AddEdgesKeepsWellFormed(t: Tree, edges: seq<Edge>)
    requires WellFormed(t)
    ensures WellFormed(AddEdges(t, edges).tree)
    decreases edges
  {
    if edges != [] && Resolves(t.index, edges[0]) {
      var item := EdgeToItem(t.index, edges[0]).value;
      AttachKeepsWellFormed(t, item, TransRootHandle);
      AddEdgesKeepsWellFormed(Attach(t, item, TransRootHandle), edges[1..]);
    }
  }
}
