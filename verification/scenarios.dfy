/**
 * Two loads worked through on concrete documents: a light switch with two
 * states and one transition, and the same document whose edge names a
 * state that does not exist.
 */
module Scenarios {
  import opened Wrappers
  import opened Text
  import opened Document
  import opened Items
  import opened Identifiers
  import opened Converter
  import opened StateMachineModel

  const Off := Node(NodeOther(0), "s1", "Off", "", Rect(0.0, 0.0, 10.0, 10.0), [])
  const On := Node(NodeOther(0), "s2", "On", "", Rect(20.0, 0.0, 10.0, 10.0), [])
  /** The document's top-level node, which the converter skips. */
  const Graph := Node(NodeOther(0), "g0", "", "", Rect(0.0, 0.0, 100.0, 100.0), [Off, On])

  /** The light-switch document; its one edge runs from `s1` to `target`. */
  function LightDocument(target: string): StateMachine
  {
    StateMachine("1.0", "Light", [Graph],
                 [Edge("e1", "s1", target, "turn_on", Point(0.0, 0.0), Point(0.0, 0.0), [])])
  }

  /** "turn_on" has no surrounding space, so trimming keeps it. */
  lemma TurnOnTrimmed()
    ensures Trim("turn_on") == "turn_on"
  {
  }

  /** The node part of both loads: `s1` and `s2` become items 4 and 5
      under the states container, registered under their own ids. */
  lemma {:induction false} LightNodes(target: string)
    ensures var t := NodesLoaded(LightDocument(target));
      && |t.items| == 6
      && t.items[StatesRootHandle].children == [4, 5]
      && t.items[4].id == "s1" && t.items[4].title == "Off"
      && t.items[5].id == "s2" && t.items[5].title == "On"
      && t.index == map["s1" := 4, "s2" := 5]
  {
    var t0 := Retitle(InitialTree(), SMRootHandle, "Light");
    assert [Graph][1..] == [] && [Off, On][1..] == [On] && [On][1..] == [];
    assert t0.index == map[] && |t0.items| == 4;
    assert Underscores(0) == [];
    var t1 := AttachNode(t0, Off, StatesRootHandle);
    assert NodeToItem(Off, StatesRootHandle, {}).id == "s1";
    assert CommitKey({}, "s1") == "s1";
    assert t1.index == map["s1" := 4] && |t1.items| == 5;
    var t2 := AttachNode(t1, On, StatesRootHandle);
    assert NodeToItem(On, StatesRootHandle, {"s1"}).id == "s2";
    assert CommitKey({"s1"}, "s2") == "s2";
    assert t2.index == map["s1" := 4, "s2" := 5];
    assert AddNode(t0, Off, StatesRootHandle, false) == t1;
    assert AddNodes(t0, [Off, On], StatesRootHandle, false) == AddNodes(t1, [On], StatesRootHandle, false);
    assert AddNode(t1, On, StatesRootHandle, false) == t2;
    assert AddNodes(t1, [On], StatesRootHandle, false) == t2;
    assert AddNode(t0, Graph, StatesRootHandle, true) == t2;
    assert AddNodes(t0, [Graph], StatesRootHandle, true) == t2;
  }

  /** The expected load: the root is named "Light", the states container
      holds `s1` and `s2` in document order, and the transitions container
      holds one transition from item 4 to item 5 labelled "turn_on". */
  lemma {:induction false} LightLoads()
    ensures var r := LoadResult(LightDocument("s2"));
      && r.failed == None
      && |r.tree.items| == 7
      && r.tree.items[SMRootHandle].title == "Light"
      && r.tree.items[StatesRootHandle].children == [4, 5]
      && r.tree.items[4].id == "s1" && r.tree.items[5].id == "s2"
      && r.tree.items[TransRootHandle].children == [6]
      && r.tree.items[6].id == "e1" && r.tree.items[6].title == "turn_on"
      && r.tree.items[6].payload.TransitionPayload?
      && r.tree.items[6].payload.source == 4 && r.tree.items[6].payload.target == 5
  {
    var sm := LightDocument("s2");
    LightNodes("s2");
    var nodes := NodesLoaded(sm);
    assert Resolves(nodes.index, sm.edges[0]);
    assert ResolvedPrefix(nodes.index, sm.edges) == 1;
    LoadResultShape(sm);
    LoadTransition(sm, 0);
    TurnOnTrimmed();
    AddEdgesAppends(nodes, sm.edges);
    assert Range(6, 7) == [6];
  }

  /** An edge to an unknown state: the load reports `e1`, and the two state
      items stay while the transitions container stays empty. */
  lemma {:induction false} MissingTargetKeepsStates()
    ensures var r := LoadResult(LightDocument("s3"));
      && r.failed == Some("e1")
      && |r.tree.items| == 6
      && r.tree.items[StatesRootHandle].children == [4, 5]
      && r.tree.items[TransRootHandle].children == []
      && r.tree.index == map["s1" := 4, "s2" := 5]
  {
    var sm := LightDocument("s3");
    LightNodes("s3");
    var nodes := NodesLoaded(sm);
    assert !Resolves(nodes.index, sm.edges[0]);
    assert ResolvedPrefix(nodes.index, sm.edges) == 0;
    LoadResultShape(sm);
    assert Range(6, 6) == [];
  }
}
