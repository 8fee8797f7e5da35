/** The graph snapshot the generator reads and the options it is called with
    (rosgui_rosgraph/lib/dotcode.py:149-164). */
module Graph {

  /** A graph node name. The graph library prefixes topic node names with a
      space so that they cannot collide with process node names; the
      generator strips names before comparing them by name. */
  type Name = string

  /** A directed edge. `caption` is the edge label: in a node/node graph the
      topic that connects the two processes. Edges compare by value. */
  datatype Edge = Edge(start: Name, end: Name, caption: string)

  /** The kind of a node listed in `bad_nodes`: dead, or faulty in some other
      way (the graph library's fault constants are not part of this model). */
  datatype Fault = Dead | OtherFault

  /** `graph_mode`; `UnknownMode` stands for every other string. */
  datatype GraphMode = NodeNode | NodeTopic | NodeTopicAll | UnknownMode

  /** The fields of the graph instance the generator reads: process nodes,
      topic nodes, node/node edges, node/topic edges with a live connection,
      all node/topic edges, and the faulty nodes. */
  datatype Snapshot = Snapshot(
    nnNodes: seq<Name>,
    ntNodes: seq<Name>,
    nnEdges: seq<Edge>,
    ntEdges: seq<Edge>,
    ntAllEdges: seq<Edge>,
    badNodes: map<Name, Fault>)

  /** The options of `generate_dotcode` that affect the graph's content. */
  datatype Options = Options(
    hideSingleConnectionTopics: bool,
    hideDeadEndTopics: bool,
    clusterNamespacesLevel: int,
    accumulateActions: bool,
    quiet: bool)
}
