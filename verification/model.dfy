/**
 * `CyberiadaSMModel`: the object that owns the item tree and the identifier
 * index and rebuilds them from a parsed document. Its fields are the
 * source's; each method is proved to leave exactly the tree the pure
 * functions of `Converter` and `Adapter` describe.
 */
module StateMachineModel {
  import opened Wrappers
  import opened Text
  import opened Document
  import opened Items
  import opened Identifiers
  import opened Converter
  import opened Adapter

  /** What `loadGraph` reports (its diagnostic output). */
  datatype LoadStatus = Loaded | ReadError(code: int) | EdgeError(edgeId: string)

  /** The parser's answer: a document, or its error code. */
  datatype ParseResult = Parsed(sm: StateMachine) | ParseFailed(code: int)

  class SMModel {
    /** The item arena: handle `h` is the item `items[h]`. */
    var items: seq<Item>
    /** The four fixed items; `None` is the null pointer `cleanupTrees`
        leaves behind. */
    var root: Option<Handle>
    var smRoot: Option<Handle>
    var statesRoot: Option<Handle>
    var transRoot: Option<Handle>
    /** `states_map`: identifier to item. */
    var statesMap: map<string, Handle>
    var smName: string
    var smVersion: string

    /** The tree and index as one value. */
    function Snapshot(): Tree
      reads this
    {
      Tree(items, statesMap)
    }

    ghost predicate Valid()
      reads this
    {
      && WellFormed(Snapshot())
      && root == Some(RootHandle) && smRoot == Some(SMRootHandle)
      && statesRoot == Some(StatesRootHandle) && transRoot == Some(TransRootHandle)
    }

    /** The constructor: default name, fresh tree. */
    constructor ()
      ensures Valid() && Snapshot() == InitialTree()
      ensures smName == SMDefaultTitle
    {
      smName := SMDefaultTitle;
      smVersion := "";
      new;
      InitTrees();
    }

    /** `initTrees`: a new root whose first child is the state-machine root,
        whose rows 0 and 1 are the states and transitions containers. */
    method InitTrees()
      modifies this
      ensures Valid() && Snapshot() == InitialTree()
      ensures smName == old(smName) && smVersion == old(smVersion)
    {
      var t := InitialTree();
      items := t.items;
      statesMap := t.index;
      root := Some(RootHandle);
      var sm := t.items[RootHandle].children[0];
      smRoot := Some(sm);
      statesRoot := Some(t.items[sm].children[0]);
      transRoot := Some(t.items[sm].children[1]);
    }

    /** `cleanupTrees`: the index is cleared, the whole tree released, and
        the four item pointers are null. */
    method CleanupTrees()
      modifies this
      ensures items == [] && statesMap == map[]
      ensures root == None && smRoot == None && statesRoot == None && transRoot == None
      ensures smName == old(smName) && smVersion == old(smVersion)
    {
      statesMap := map[];
      items := [];
      root := None;
      smRoot, statesRoot, transRoot := None, None, None;
    }

    /** `reset`: the tree and index are torn down and rebuilt empty; the
        state-machine name is kept. */
    method Reset()
      modifies this
      ensures Valid() && Snapshot() == InitialTree()
      ensures smName == old(smName) && smVersion == old(smVersion)
    {
      CleanupTrees();
      InitTrees();
    }

    /** `generateID`, corrected: tries `id-0`, `id-1`, ... and returns the
        first that is not a key. */
    method GenerateID() returns (s: string)
      ensures s == FreshId(statesMap.Keys)
    {
      var num := 0;
      s := Candidate(num);
      while s in statesMap
        invariant s == Candidate(num)
        invariant FreshIdFrom(statesMap.Keys, num) == FreshId(statesMap.Keys)
        decreases |CandidatesFrom(statesMap.Keys, num)|
      {
        CandidatesShrink(statesMap.Keys, num);
        num := num + 1;
        s := Candidate(num);
      }
    }

    /** `addToMap`: `_` is appended to `id` until it is not a key, and the
        item is registered under the result; earlier entries are kept. */
    method AddToMap(id: string, h: Handle)
      modifies this
      ensures statesMap == old(statesMap)[CommitKey(old(statesMap).Keys, id) := h]
      ensures CommitKey(old(statesMap).Keys, id) !in old(statesMap)
      ensures |statesMap| == |old(statesMap)| + 1
      ensures items == old(items) && smName == old(smName) && smVersion == old(smVersion)
      ensures root == old(root) && smRoot == old(smRoot)
      ensures statesRoot == old(statesRoot) && transRoot == old(transRoot)
    {
      var keys := statesMap.Keys;
      var newId := id;
      ghost var added := 0;
      while newId in keys
        invariant newId == id + Underscores(added)
        invariant SuffixCount(keys, id) == added + SuffixCount(keys, newId)
        modifies {}
        decreases |KeysExtending(keys, newId)|
      {
        ExtendingShrinks(keys, newId);
        assert newId + "_" == id + Underscores(added + 1);
        newId := newId + "_";
        added := added + 1;
      }
      CommitKeyIsFewest(keys, id);
      statesMap := statesMap[newId := h];
    }

    /** `convertNode`: builds the item for `node` (not yet attached). */
    method ConvertNode(node: Node, parent: Handle) returns (item: Item)
      ensures item == NodeToItem(node, parent, statesMap.Keys)
    {
      var geometry := StateGeometry(Point(node.rect.x, node.rect.y), Size(node.rect.width, node.rect.height));
      if node.kind == NodeInitial {
        item := Item(ItemInitialState, node.id, "", InitialPayload(Point(node.rect.x, node.rect.y)), Some(parent), []);
      } else if node.kind == NodeComment {
        var id := GenerateID();
        item := Item(ItemComment, id, node.action, CommentPayload(node.action, geometry), Some(parent), []);
      } else {
        var title := node.title;
        if title == [] {
          title := EmptyNodeTitle;
        }
        item := Item(ItemState, node.id, title, StatePayload(Trim(node.action), geometry), Some(parent), []);
      }
    }

    /** `parent_item->addChild(item)` on the arena. */
    method AddChild(parent: Handle, item: Item) returns (h: Handle)
      requires parent < |items|
      modifies this
      ensures h == |old(items)|
      ensures Snapshot() == Attach(old(Snapshot()), item, parent)
      ensures smName == old(smName) && smVersion == old(smVersion)
      ensures root == old(root) && smRoot == old(smRoot)
      ensures statesRoot == old(statesRoot) && transRoot == old(transRoot)
    {
      h := |items|;
      var p := items[parent];
      items := items[parent := p.(children := p.children + [h])] + [item.(parent := Some(parent), children := [])];
    }

    /** `addChildNodes`: walks the sibling list in order; a top-level node's
        item is built and dropped, and its children go under `parentItem`;
        any other node is registered, attached and recursed into. */
    method AddChildNodes(nodes: seq<Node>, parentItem: Handle, toplevel: bool)
      requires parentItem < |items|
      modifies this
      ensures Snapshot() == AddNodes(old(Snapshot()), nodes, parentItem, toplevel)
      ensures smName == old(smName) && smVersion == old(smVersion)
      ensures root == old(root) && smRoot == old(smRoot)
      ensures statesRoot == old(statesRoot) && transRoot == old(transRoot)
      decreases nodes
    {
      var i := 0;
      while i < |nodes|
        invariant 0 <= i <= |nodes| && parentItem < |items|
        invariant AddNodes(Snapshot(), nodes[i..], parentItem, toplevel)
                  == AddNodes(old(Snapshot()), nodes, parentItem, toplevel)
        invariant smName == old(smName) && smVersion == old(smVersion)
        invariant root == old(root) && smRoot == old(smRoot)
        invariant statesRoot == old(statesRoot) && transRoot == old(transRoot)
      {
        var node := nodes[i];
        ghost var before := Snapshot();
        assert nodes[i..][0] == node && nodes[i..][1..] == nodes[i + 1..];
        var item := ConvertNode(node, parentItem);
        if toplevel {
          AddChildNodes(node.children, parentItem, false);
        } else {
          var h := |items|;
          AddToMap(item.id, h);
          var h' := AddChild(parentItem, item);
          assert Snapshot() == AttachNode(before, node, parentItem);
          AddChildNodes(node.children, h, false);
        }
        assert Snapshot() == AddNode(before, node, parentItem, toplevel);
        i := i + 1;
      }
    }

    /** `convertEdge`: the transition for `edge`, or `None` when an endpoint
        id is not a key. */
    method ConvertEdge(edge: Edge) returns (item: Option<Item>)
      ensures item == EdgeToItem(statesMap, edge)
    {
      var path: seq<Point> := [];
      var k := 0;
      while k < |edge.polyline|
        invariant 0 <= k <= |edge.polyline| && path == edge.polyline[..k]
      {
        path := path + [edge.polyline[k]];
        k := k + 1;
      }
      assert path == edge.polyline;
      var geometry := TransitionGeometry(edge.sourcePoint, edge.targetPoint, path);
      if edge.sourceId !in statesMap || edge.targetId !in statesMap {
        return None;
      }
      var action := Trim(edge.action);
      item := Some(Item(ItemTransition, edge.id, action,
                        TransitionPayload(statesMap[edge.sourceId], statesMap[edge.targetId], action, geometry),
                        None, []));
    }

    /** `renameSM`: an empty name is ignored; otherwise both the stored name
        and the state-machine root's title become `newName`. */
    method RenameSM(newName: string)
      requires Valid()
      modifies this
      ensures Valid()
      ensures smName == (if newName == [] then old(smName) else newName)
      ensures Snapshot() == (if newName == [] then old(Snapshot())
                             else Retitle(old(Snapshot()), SMRootHandle, newName))
      ensures smVersion == old(smVersion)
    {
      if |newName| > 0 {
        smName := newName;
        var sm := smRoot.value;
        RetitleKeepsWellFormed(Snapshot(), sm, smName);
        items := items[sm := items[sm].(title := smName)];
      }
    }

    /** `setData`: renames the item when `CanSetData` holds, reporting
        whether it did. */
    method SetData(index: ModelIndex, value: string, role: Role) returns (ok: bool)
      requires Valid() && Live(Snapshot(), index)
      modifies this
      ensures Valid()
      ensures ok == CanSetData(old(Snapshot()), index, value, role)
      ensures Snapshot() == SetDataResult(old(Snapshot()), index, value, role)
      ensures smName == old(smName) && smVersion == old(smVersion)
    {
      if IsValid(index) && role == EditRole && index.column == 0
         && (index == SMIndex() || items[index.item].category == ItemState
             || items[index.item].category == ItemAction) {
        if items[index.item].category != ItemAction && value == [] {
          return false;
        }
        RetitleKeepsWellFormed(Snapshot(), index.item, value);
        items := items[index.item := items[index.item].(title := value)];
        return true;
      }
      return false;
    }

    /** `mimeData`: the ids of the draggable column-0 indexes, in order,
        tagged with the state media type. */
    method MimeData(indexes: seq<ModelIndex>) returns (payload: MimePayload)
      requires AllLive(Snapshot(), indexes)
      ensures payload == MimePayload(StateMimeType, DraggedIds(Snapshot(), indexes))
    {
      var ids: seq<string> := [];
      for k := 0 to |indexes|
        invariant AllLive(Snapshot(), indexes[..k])
        invariant ids == DraggedIds(Snapshot(), indexes[..k])
      {
        var index := indexes[k];
        DraggedIdsSnoc(Snapshot(), indexes[..k], index);
        assert indexes[..k + 1] == indexes[..k] + [index];
        assert [index][1..] == [];
        if Column(index) == 0
           && (IsCategoryIndex(Snapshot(), index, ItemState)
               || IsCategoryIndex(Snapshot(), index, ItemInitialState)) {
          ids := ids + [items[index.item].id];
        }
      }
      assert indexes[..|indexes|] == indexes;
      payload := MimePayload(StateMimeType, ids);
    }

    /** The edge loop of `loadGraph`: each edge is converted and attached
        under the transitions container, in order; the first edge with an
        unknown endpoint ends the loop, and its id is reported. Transitions
        attached before it stay. */
    method AddTransitions(edges: seq<Edge>) returns (failed: Option<string>)
      requires Valid()
      modifies this
      ensures Valid()
      ensures Snapshot() == AddEdges(old(Snapshot()), edges).tree
      ensures failed == AddEdges(old(Snapshot()), edges).failed
      ensures smName == old(smName) && smVersion == old(smVersion)
    {
      var e := 0;
      while e < |edges|
        invariant 0 <= e <= |edges| && Valid()
        invariant smName == old(smName) && smVersion == old(smVersion)
        invariant AddEdges(Snapshot(), edges[e..]) == AddEdges(old(Snapshot()), edges)
      {
        var edge := edges[e];
        assert edges[e..][0] == edge && edges[e..][1..] == edges[e + 1..];
        var item := ConvertEdge(edge);
        if item.None? {
          return Some(edge.id);
        }
        EdgeToItemRules(statesMap, edge);
        AttachKeepsWellFormed(Snapshot(), item.value, transRoot.value);
        var h := AddChild(transRoot.value, item.value);
        e := e + 1;
      }
      return None;
    }

    /** `loadGraph`: the tree is reset, then rebuilt from the parsed
        document; the edge loop stops at the first unresolved edge. */
    method LoadGraph(parsed: ParseResult) returns (status: LoadStatus)
      requires Valid()
      modifies this
      ensures Valid()
      ensures parsed.ParseFailed? ==>
        status == ReadError(parsed.code) && Snapshot() == InitialTree()
        && smName == old(smName) && smVersion == old(smVersion)
      ensures parsed.Parsed? ==>
        && smVersion == parsed.sm.version
        && smName == (if parsed.sm.name == [] then old(smName) else parsed.sm.name)
        && var load := LoadResult(parsed.sm);
           Snapshot() == load.tree
           && status == (if load.failed.None? then Loaded else EdgeError(load.failed.value))
    {
      Reset();
      if parsed.ParseFailed? {
        return ReadError(parsed.code);
      }
      var sm := parsed.sm;
      smVersion := sm.version;
      RenameSM(sm.name);
      ghost var named := Snapshot();
      AddChildNodes(sm.nodes, statesRoot.value, true);
      AddNodesKeepsWellFormed(named, sm.nodes, StatesRootHandle, true);
      var failed := AddTransitions(sm.edges);
      status := if failed.None? then Loaded else EdgeError(failed.value);
    }
  }

  /** The tree a successfully parsed document leads to. */
  function LoadResult(sm: StateMachine): EdgeLoad
  {
    AddEdges(NodesLoaded(sm), sm.edges)
  }

  /** The tree after node conversion, before the edge loop. */
  function NodesLoaded(sm: StateMachine): (t: Tree)
    ensures |t.items| == 4 + BelowTopCount(sm.nodes)
  {
    var named := if sm.name == [] then InitialTree() else Retitle(InitialTree(), SMRootHandle, sm.name);
    AddNodes(named, sm.nodes, StatesRootHandle, true)
  }

  /** After node conversion the state-machine root carries the document's
      name (or the default one), the states container holds the items of
      the nodes below the top level in document order, the transitions
      container is empty, and the index has one key per such node. */
  lemma {:induction false} NodesLoadedShape(sm: StateMachine)
    ensures var t := NodesLoaded(sm);
      && WellFormed(t)
      && |t.index| == BelowTopCount(sm.nodes)
      && t.items[SMRootHandle].title == (if sm.name == [] then SMDefaultTitle else sm.name)
      && t.items[StatesRootHandle].children == Attached(sm.nodes, 4, true)
      && t.items[TransRootHandle].children == []
  {
    var t0 := InitialTree();
    var named := if sm.name == [] then t0 else Retitle(t0, SMRootHandle, sm.name);
    if sm.name != [] {
      RetitleKeepsWellFormed(t0, SMRootHandle, sm.name);
    }
    AddNodesKeepsWellFormed(named, sm.nodes, StatesRootHandle, true);
    AddNodesEffect(named, sm.nodes, StatesRootHandle, true);
    AddNodesIndex(named, sm.nodes, StatesRootHandle, true);
  }

  /** What a load builds: on top of `NodesLoadedShape`, the transitions
      container holds one transition per leading resolving edge, and the
      index is left as the nodes made it. When an edge does not resolve
      its id is reported and nothing is rolled back: the state items and
      the transitions already attached stay. */
  lemma {:induction false} LoadResultShape(sm: StateMachine)
    ensures var c := BelowTopCount(sm.nodes);
      var k := ResolvedPrefix(NodesLoaded(sm).index, sm.edges);
      var r := LoadResult(sm);
      && WellFormed(r.tree)
      && |r.tree.items| == 4 + c + k
      && r.tree.index == NodesLoaded(sm).index && |r.tree.index| == c
      && r.failed == (if k < |sm.edges| then Some(sm.edges[k].id) else None)
      && r.tree.items[SMRootHandle].title == (if sm.name == [] then SMDefaultTitle else sm.name)
      && r.tree.items[StatesRootHandle].children == Attached(sm.nodes, 4, true)
      && r.tree.items[TransRootHandle].children == Range(4 + c, 4 + c + k)
  {
    var nodes := NodesLoaded(sm);
    NodesLoadedShape(sm);
    AddEdgesKeepsWellFormed(nodes, sm.edges);
    AddEdgesOutcome(nodes, sm.edges);
    AddEdgesAppends(nodes, sm.edges);
  }

  /** The `i`-th transition of a load is the `i`-th edge, its endpoints
      looked up in the index built from the nodes. */
  lemma LoadTransition(sm: StateMachine, i: nat)
    requires i < ResolvedPrefix(NodesLoaded(sm).index, sm.edges)
    ensures var r := LoadResult(sm).tree;
      var h := 4 + BelowTopCount(sm.nodes) + i;
      var e := sm.edges[i];
      && h < |r.items|
      && r.items[h].category == ItemTransition && r.items[h].id == e.id
      && r.items[h].parent == Some(TransRootHandle)
      && r.items[h].payload.TransitionPayload?
      && r.items[h].payload.source == NodesLoaded(sm).index[e.sourceId]
      && r.items[h].payload.target == NodesLoaded(sm).index[e.targetId]
      && r.items[h].title == Trim(e.action)
  {
    var nodes := NodesLoaded(sm);
    AddEdgesItems(nodes, sm.edges, i);
    EdgeToItemRules(nodes.index, sm.edges[i]);
  }
}
