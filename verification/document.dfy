/**
 * The parsed state-machine document handed over by the external Cyberiada
 * parser: a tree of nodes and a flat list of edges. Geometry is carried as
 * opaque coordinates and copied verbatim.
 */
module Document {

  datatype Point = Point(x: real, y: real)

  datatype Rect = Rect(x: real, y: real, width: real, height: real)

  /** The parser's node types that the converter tells apart; every other
      type (simple, composite, final, choice, ...) is `NodeOther`. */
  datatype NodeType = NodeInitial | NodeComment | NodeOther(tag: nat)

  /** One node; `children` is the node's child list in document order. */
  datatype Node = Node(
    kind: NodeType,
    id: string,
    title: string,
    action: string,
    rect: Rect,
    children: seq<Node>)

  /** One edge; its endpoints are given by the ids of the nodes they join. */
  datatype Edge = Edge(
    id: string,
    sourceId: string,
    targetId: string,
    action: string,
    sourcePoint: Point,
    targetPoint: Point,
    polyline: seq<Point>)

  datatype StateMachine = StateMachine(
    version: string,
    name: string,
    nodes: seq<Node>,
    edges: seq<Edge>)

  /** Number of nodes in a forest, counting every level. */
  function NodeCount(nodes: seq<Node>): nat
    decreases nodes
  {
    if nodes == [] then 0 else 1 + NodeCount(nodes[0].children) + NodeCount(nodes[1..])
  }

  /** Number of nodes strictly below the top level of a forest: the ones the
      converter turns into items when the top level is skipped. */
  function BelowTopCount(nodes: seq<Node>): nat
    decreases nodes
  {
    if nodes == [] then 0 else NodeCount(nodes[0].children) + BelowTopCount(nodes[1..])
  }

  /** Nodes the converter attaches from `nodes`, skipping the top level when
      `toplevel` holds. */
  function AttachedCount(nodes: seq<Node>, toplevel: bool): nat
  {
    if toplevel then BelowTopCount(nodes) else NodeCount(nodes)
  }
}
