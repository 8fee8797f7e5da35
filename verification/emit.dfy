/** Drawing the graph (rosgui_rosgraph/lib/dotcode.py:66-101 and 322-383):
    the calls the generator makes on the dot-code factory, recorded as a
    log of events. Topic nodes are named by the graph library's
    `node_topic`, which is a parameter here. */
module Emit {
  import opened Results
  import opened Seqs
  import opened Text
  import opened Graph
  import opened Connections
  import opened Actions
  import opened Cleanup

  /** The graph a node is added to: the root graph or the subgraph of a
      namespace. */
  datatype Container = Root | Cluster(ns: string)

  /** One call on the factory. `AddNode` carries the node name, the optional
      node label, the shape, the url and the optional colour; `AddEdge` the
      two ends, the optional label and the optional url. Edges always go to
      the root graph. */
  datatype Event =
    | AddSubgraph(ns: string)
    | AddNode(container: Container, name: string, nodeLabel: Option<string>, shape: string, url: string,
              colour: Option<string>)
    | AddEdge(start: string, end: string, caption: Option<string>, edgeUrl: Option<string>)

  /** The events so far and the keys of `namespace_clusters`, in the order
      the subgraphs were created. */
  datatype Canvas = Canvas(log: seq<Event>, clusters: seq<string>)

  /** What replaying a log on the factory tracks: the subgraphs created, in
      order, and those that have not received a node yet. */
  datatype Scope = Scope(clusters: seq<string>, empty: set<string>)

  /** One event replayed: creating a subgraph twice, or placing a node in a
      subgraph that does not exist, is a fault. */
  function Step(s: Scope, ev: Event): Option<Scope> {
    match ev
    case AddSubgraph(ns) =>
      if ns in s.clusters then None else Some(Scope(s.clusters + [ns], s.empty + {ns}))
    case AddNode(container, _, _, _, _, _) =>
      if container.Root? then Some(s)
      else if container.ns in s.clusters then Some(Scope(s.clusters, s.empty - {container.ns}))
      else None
    case AddEdge(_, _, _, _) => Some(s)
  }

  /** Replays a log event by event from an empty graph. */
  function Replay(log: seq<Event>): Option<Scope>
    decreases |log|
  {
    if log == [] then Some(Scope([], {}))
    else match Replay(log[..|log| - 1]) {
      case None => None
      case Some(s) => Step(s, log[|log| - 1])
    }
  }

  lemma ReplaySnoc(log: seq<Event>, ev: Event)
    ensures Replay(log + [ev]) == match Replay(log) { case None => None case Some(s) => Step(s, ev) }
  {
    assert (log + [ev])[..|log|] == log;
  }

  /** The log replays without fault, the cluster table lists exactly the
      subgraphs created, and every subgraph has received a node. */
  predicate CanvasOk(c: Canvas) {
    Replay(c.log) == Some(Scope(c.clusters, {}))
  }

  /** Every node placed in a subgraph comes after that subgraph was created. */
  ghost predicate WellScoped(log: seq<Event>) {
    forall i :: 0 <= i < |log| && log[i].AddNode? && log[i].container.Cluster? ==>
      AddSubgraph(log[i].container.ns) in log[..i]
  }

  /** No subgraph is created twice. */
  ghost predicate SubgraphsUnique(log: seq<Event>) {
    forall i, j :: 0 <= i < j < |log| && log[i].AddSubgraph? ==> log[j] != log[i]
  }

  /** The cluster list a faultless replay ends with holds exactly the
      subgraphs the log created. */
  lemma {:induction false} ReplayClusters(log: seq<Event>)
    requires Replay(log).Some?
    ensures forall ns :: ns in Replay(log).value.clusters <==> AddSubgraph(ns) in log
    decreases |log|
  {
    if log != [] {
      var front, ev := log[..|log| - 1], log[|log| - 1];
      assert log == front + [ev];
      ReplaySnoc(front, ev);
      ReplayClusters(front);
      forall ns ensures ns in Replay(log).value.clusters <==> AddSubgraph(ns) in log {
        assert AddSubgraph(ns) in log <==> AddSubgraph(ns) in front || ev == AddSubgraph(ns);
      }
    }
  }

  /** A log that replays without fault creates no subgraph twice and places
      nodes only in subgraphs created before. */
  lemma {:induction false} ReplayMeans(log: seq<Event>)
    requires Replay(log).Some?
    ensures WellScoped(log) && SubgraphsUnique(log)
    decreases |log|
  {
    if log != [] {
      var front, ev := log[..|log| - 1], log[|log| - 1];
      assert log == front + [ev];
      ReplaySnoc(front, ev);
      ReplayMeans(front);
      ReplayClusters(front);
      assert forall i :: 0 <= i < |front| ==> log[i] == front[i] && log[..i] == front[..i];
      assert log[..|front|] == front;
      assert SubgraphsUnique(log) by {
        forall i, j | 0 <= i < j < |log| && log[i].AddSubgraph? ensures log[j] != log[i] {
          if j == |front| {
            assert log[i] in front;
          }
        }
      }
    }
  }

  /** The names of the nodes added, in order. */
  function NodeNames(log: seq<Event>): (r: seq<string>)
    ensures |r| <= |log|
    decreases |log|
  {
    if log == [] then []
    else (if log[0].AddNode? then [log[0].name] else []) + NodeNames(log[1..])
  }

  lemma {:induction false} NodeNamesAppend(a: seq<Event>, b: seq<Event>)
    ensures NodeNames(a + b) == NodeNames(a) + NodeNames(b)
    decreases |a|
  {
    if a == [] {
      assert a + b == b;
    } else {
      assert (a + b)[0] == a[0] && (a + b)[1..] == a[1..] + b;
      NodeNamesAppend(a[1..], b);
    }
  }

  /** The node events of a log, in order. */
  function Nodes(log: seq<Event>): (r: seq<Event>)
    ensures forall ev :: ev in r ==> ev.AddNode?
    decreases |log|
  {
    if log == [] then [] else (if log[0].AddNode? then [log[0]] else []) + Nodes(log[1..])
  }

  /** The node names of a log are those of its node events. */
  lemma {:induction false} NodeNamesOfNodes(log: seq<Event>)
    ensures NodeNames(Nodes(log)) == NodeNames(log)
    decreases |log|
  {
    if log != [] {
      NodeNamesOfNodes(log[1..]);
      var here := if log[0].AddNode? then [log[0]] else [];
      NodeNamesAppend(here, Nodes(log[1..]));
      assert here == [] || here[1..] == [];
    }
  }

  lemma {:induction false} NodesAppend(a: seq<Event>, b: seq<Event>)
    ensures Nodes(a + b) == Nodes(a) + Nodes(b)
    decreases |a|
  {
    if a == [] {
      assert a + b == b;
    } else {
      assert (a + b)[0] == a[0] && (a + b)[1..] == a[1..] + b;
      NodesAppend(a[1..], b);
    }
  }

  /** A log of node events is its own list of nodes, and one of edge
      events has none. */
  lemma {:induction false} NodesOnly(evs: seq<Event>)
    ensures (forall ev :: ev in evs ==> ev.AddNode?) ==> Nodes(evs) == evs
    ensures (forall ev :: ev in evs ==> ev.AddEdge?) ==> Nodes(evs) == []
    decreases |evs|
  {
    if evs != [] {
      assert evs[0] in evs;
      HeadOrTail(evs);
      NodesOnly(evs[1..]);
    }
  }

  /** Adds one event that neither creates a subgraph nor places a node in a
      subgraph that does not exist yet. */
  function Append(c: Canvas, ev: Event): (r: Canvas)
    requires !ev.AddSubgraph?
    requires ev.AddNode? && ev.container.Cluster? ==> ev.container.ns in c.clusters
    ensures r.log == c.log + [ev] && r.clusters == c.clusters
    ensures CanvasOk(c) ==> CanvasOk(r)
  {
    ReplaySnoc(c.log, ev);
    var none: set<string> := {};
    assert ev.AddNode? && ev.container.Cluster? ==> none - {ev.container.ns} == none;
    Canvas(c.log + [ev], c.clusters)
  }

  /** `namespace_clusters[ns]`, created with `add_subgraph_to_graph` if it is
      not there yet. */
  function EnsureCluster(c: Canvas, ns: string): (r: Canvas)
    ensures ns in r.clusters
    ensures forall x :: x in r.clusters <==> x in c.clusters || x == ns
    ensures r.log == c.log || (ns !in c.clusters && r.log == c.log + [AddSubgraph(ns)])
  {
    if ns in c.clusters then c else Canvas(c.log + [AddSubgraph(ns)], c.clusters + [ns])
  }

  /** Creating the subgraph of `ns` if needed and then placing a node in it
      keeps the canvas well formed. */
  lemma PlaceInCluster(c: Canvas, ns: string, ev: Event)
    requires ev.AddNode? && ev.container == Cluster(ns)
    ensures var d := EnsureCluster(c, ns);
            CanvasOk(c) ==> CanvasOk(Append(d, ev))
  {
    var d := EnsureCluster(c, ns);
    if CanvasOk(c) && ns !in c.clusters {
      ReplaySnoc(c.log, AddSubgraph(ns));
      ReplaySnoc(d.log, ev);
      assert ({} + {ns}) - {ns} == {};
    }
  }

  /** Python's `s[1:]`, which is empty for an empty string. */
  function Tail(s: string): (r: string)
    ensures |s| > 0 ==> [s[0]] + r == s
    ensures |s| == 0 ==> r == ""
  {
    if |s| > 0 then s[1..] else ""
  }

  /** `str(n).split('/')[1]`, defined when `n` contains a `/`. */
  function Namespace(n: Name): string
    requires CountChar(n, '/') >= 1
  {
    Split(n, '/')[1]
  }

  /** The test of lines 327-329 and 344-346: clustering is on, the name has
      at least two `/` and a non-empty second segment. */
  predicate TopicClusterable(n: Name, level: int) {
    level > 0 && CountChar(n, '/') > 1 && |Namespace(n)| > 0
  }

  /** The test of lines 360-363: clustering is on, the name has a `/`, and a
      non-empty second segment for which a subgraph already exists. */
  predicate ProcessClusterable(n: Name, level: int, clusters: seq<string>) {
    level > 0 && CountChar(n, '/') >= 1 && |Namespace(n)| > 0 && Namespace(n) in clusters
  }

  /** `_add_topic_node` (lines 95-101): a box named and labelled by the
      topic's display name, linked to `topic:<name>`. */
  function TopicNode(container: Container, n: Name, display: Name -> string): (ev: Event)
    ensures ev.AddNode? && ev.container == container && ev.name == display(n)
    ensures ev.nodeLabel == Some(ev.name) && ev.shape == "box" && ev.url == "topic:" + ev.name && ev.colour == None
  {
    AddNode(container, display(n), Some(display(n)), "box", "topic:" + display(n), None)
  }

  /** The style `_add_node` (lines 72-93) gives a process: a red double
      circle when it is dead, an orange one when it is otherwise faulty, a
      plain ellipse when it is healthy; always linked to its own name. */
  predicate StyledFor(ev: Event, bad: map<Name, Fault>) {
    && ev.AddNode?
    && ev.nodeLabel == None
    && ev.url == ev.name
    && (ev.name !in bad ==> ev.shape == "ellipse" && ev.colour == None)
    && (ev.name in bad ==> ev.shape == "doublecircle")
    && (ev.name in bad && bad[ev.name] == Dead ==> ev.colour == Some("red"))
    && (ev.name in bad && bad[ev.name] == OtherFault ==> ev.colour == Some("orange"))
  }

  /** `_add_node` for the process `n`: nothing for a faulty node in quiet
      mode, otherwise the node in its style. */
  function ProcessNode(container: Container, n: Name, bad: map<Name, Fault>, quiet: bool): (r: Option<Event>)
    ensures r.Some? <==> !(quiet && n in bad)
    ensures r.Some? ==> r.value.AddNode? && r.value.container == container && r.value.name == n
    ensures r.Some? ==> StyledFor(r.value, bad)
  {
    if n in bad then
      if quiet then None
      else
        var colour := if bad[n] == Dead then "red" else "orange";
        Some(AddNode(container, n, None, "doublecircle", n, Some(colour)))
    else Some(AddNode(container, n, None, "ellipse", n, None))
  }

  /** Places one topic-like node: in the subgraph of its namespace when
      `clusterable`, creating it if needed, otherwise in the root graph. */
  function PlaceTopic(c: Canvas, n: Name, clusterable: bool, display: Name -> string): (r: Canvas)
    requires clusterable ==> CountChar(n, '/') >= 1
    ensures CanvasOk(c) ==> CanvasOk(r)
    ensures Nodes(r.log) == Nodes(c.log) + [TopicNode(if clusterable then Cluster(Namespace(n)) else Root, n, display)]
    ensures forall x :: x in r.clusters <==> x in c.clusters || (clusterable && x == Namespace(n))
    ensures c.log <= r.log
  {
    if clusterable then PlaceClustered(c, n, display)
    else
      var ev := TopicNode(Root, n, display);
      NodesAppend(c.log, [ev]);
      Append(c, ev)
  }

  /** The clustered case of `PlaceTopic`. */
  function PlaceClustered(c: Canvas, n: Name, display: Name -> string): (r: Canvas)
    requires CountChar(n, '/') >= 1
    ensures CanvasOk(c) ==> CanvasOk(r)
    ensures Nodes(r.log) == Nodes(c.log) + [TopicNode(Cluster(Namespace(n)), n, display)]
    ensures forall x :: x in r.clusters <==> x in c.clusters || x == Namespace(n)
    ensures c.log <= r.log
  {
    var ns := Namespace(n);
    var d := EnsureCluster(c, ns);
    var ev := TopicNode(Cluster(ns), n, display);
    PlaceInCluster(c, ns, ev);
    NodesAppend(d.log, [ev]);
    NodesAppend(c.log, [AddSubgraph(ns)]);
    assert Nodes([AddSubgraph(ns)]) == [];
    Append(d, ev)
  }

  /** The display names of `topics`, in order. */
  function Labels(topics: seq<Name>, display: Name -> string): (r: seq<string>)
    ensures |r| == |topics|
    ensures forall i :: 0 <= i < |topics| ==> r[i] == display(topics[i])
    decreases |topics|
  {
    if topics == [] then [] else [display(topics[0])] + Labels(topics[1..], display)
  }

  /** Where lines 324-338 put the topic `n`: in the subgraph of its
      namespace exactly when it has an entry in the connection map and its
      name passes the clustering test. */
  function TopicHome(n: Name, conn: ConnectionMap, level: int): (home: Container)
    ensures home.Cluster? <==> n in conn && TopicClusterable(n, level)
    ensures home.Cluster? ==> home.ns == Namespace(n)
  {
    if n in conn && TopicClusterable(n, level) then Cluster(Namespace(n)) else Root
  }

  /** The topic nodes lines 323-338 add, in order. */
  function TopicEvents(topics: seq<Name>, conn: ConnectionMap, level: int, display: Name -> string): (r: seq<Event>)
    ensures |r| == |topics|
    ensures forall i :: 0 <= i < |topics| ==> r[i] == TopicNode(TopicHome(topics[i], conn, level), topics[i], display)
    decreases |topics|
  {
    if topics == [] then []
    else [TopicNode(TopicHome(topics[0], conn, level), topics[0], display)] + TopicEvents(topics[1..], conn, level, display)
  }

  lemma TopicEventsCons(topics: seq<Name>, conn: ConnectionMap, level: int, display: Name -> string)
    requires topics != []
    ensures TopicEvents(topics, conn, level, display) ==
              [TopicNode(TopicHome(topics[0], conn, level), topics[0], display)] + TopicEvents(topics[1..], conn, level, display)
  {
  }

  lemma ConcatAssoc(a: seq<Event>, b: seq<Event>, c: seq<Event>)
    ensures a + b + c == a + (b + c)
  {
  }

  /** The topic nodes are named by the topics' display names. */
  lemma {:induction false} TopicEventsNames(topics: seq<Name>, conn: ConnectionMap, level: int, display: Name -> string)
    ensures NodeNames(TopicEvents(topics, conn, level, display)) == Labels(topics, display)
    decreases |topics|
  {
    if topics != [] {
      var evs := TopicEvents(topics, conn, level, display);
      TopicEventsNames(topics[1..], conn, level, display);
      assert evs[1..] == TopicEvents(topics[1..], conn, level, display);
    }
  }

  /** `x` is the namespace of a topic that goes into a subgraph. */
  ghost predicate TopicCluster(topics: seq<Name>, conn: ConnectionMap, level: int, x: string) {
    exists n :: n in topics && n in conn && TopicClusterable(n, level) && x == Namespace(n)
  }

  /** Lines 323-338: each topic node once, in order; a topic with an entry in
      the connection map whose name passes the clustering test goes to the
      subgraph of its namespace. A subgraph is created for exactly the
      namespaces of such topics. */
  function EmitTopics(c: Canvas, topics: seq<Name>, conn: ConnectionMap, level: int,
                      display: Name -> string): (r: Canvas)
    ensures CanvasOk(c) ==> CanvasOk(r)
    ensures Nodes(r.log) == Nodes(c.log) + TopicEvents(topics, conn, level, display)
    ensures forall x :: x in r.clusters <==> x in c.clusters || TopicCluster(topics, conn, level, x)
    ensures c.log <= r.log
    decreases |topics|
  {
    if topics == [] then assert Nodes(c.log) + [] == Nodes(c.log); c
    else
      var n := topics[0];
      var d := PlaceTopic(c, n, n in conn && TopicClusterable(n, level), display);
      var r := EmitTopics(d, topics[1..], conn, level, display);
      HeadOrTail(topics);
      TopicEventsCons(topics, conn, level, display);
      ConcatAssoc(Nodes(c.log), [TopicNode(TopicHome(n, conn, level), n, display)], TopicEvents(topics[1..], conn, level, display));
      r
  }

  /** The synthetic node of an action group. */
  function ActionNode(g: ActionGroup): Name {
    g.prefix + "/action_topics"
  }

  /** Where lines 341-353 put the synthetic node of `g`: in the subgraph of
      its namespace exactly when its name passes the clustering test. */
  function ActionHome(g: ActionGroup, level: int): (home: Container)
    ensures home.Cluster? <==> TopicClusterable(ActionNode(g), level)
    ensures home.Cluster? ==> home.ns == Namespace(ActionNode(g))
  {
    if TopicClusterable(ActionNode(g), level) then Cluster(Namespace(ActionNode(g))) else Root
  }

  /** The synthetic nodes lines 340-353 add, in order. */
  function ActionEvents(groups: seq<ActionGroup>, level: int, display: Name -> string): (r: seq<Event>)
    ensures |r| == |groups|
    ensures forall i :: 0 <= i < |groups| ==> r[i] == TopicNode(ActionHome(groups[i], level), ActionNode(groups[i]), display)
    decreases |groups|
  {
    if groups == [] then []
    else [TopicNode(ActionHome(groups[0], level), ActionNode(groups[0]), display)] + ActionEvents(groups[1..], level, display)
  }

  lemma ActionEventsCons(groups: seq<ActionGroup>, level: int, display: Name -> string)
    requires groups != []
    ensures ActionEvents(groups, level, display) ==
              [TopicNode(ActionHome(groups[0], level), ActionNode(groups[0]), display)] + ActionEvents(groups[1..], level, display)
  {
  }

  /** The synthetic nodes are named by the display names of `prefix/action_topics`. */
  lemma {:induction false} ActionEventsNames(groups: seq<ActionGroup>, level: int, display: Name -> string)
    ensures NodeNames(ActionEvents(groups, level, display)) == Labels(ActionNodes(groups), display)
    decreases |groups|
  {
    if groups != [] {
      var evs := ActionEvents(groups, level, display);
      ActionEventsNames(groups[1..], level, display);
      assert evs[1..] == ActionEvents(groups[1..], level, display);
      assert ActionNodes(groups)[1..] == ActionNodes(groups[1..]);
    }
  }

  /** `x` is the namespace of a synthetic action node that goes into a subgraph. */
  ghost predicate ActionCluster(groups: seq<ActionGroup>, level: int, x: string) {
    exists g :: g in groups && TopicClusterable(ActionNode(g), level) && x == Namespace(ActionNode(g))
  }

  /** Lines 340-353: one synthetic node per recorded group, placed by the
      same clustering test but without consulting the connection map. */
  function EmitActions(c: Canvas, groups: seq<ActionGroup>, level: int, display: Name -> string): (r: Canvas)
    ensures CanvasOk(c) ==> CanvasOk(r)
    ensures Nodes(r.log) == Nodes(c.log) + ActionEvents(groups, level, display)
    ensures forall x :: x in r.clusters <==> x in c.clusters || ActionCluster(groups, level, x)
    ensures c.log <= r.log
    decreases |groups|
  {
    if groups == [] then assert Nodes(c.log) + [] == Nodes(c.log); c
    else
      var n := ActionNode(groups[0]);
      var d := PlaceTopic(c, n, TopicClusterable(n, level), display);
      var r := EmitActions(d, groups[1..], level, display);
      HeadOrTail(groups);
      ActionEventsCons(groups, level, display);
      ConcatAssoc(Nodes(c.log), [TopicNode(ActionHome(groups[0], level), n, display)], ActionEvents(groups[1..], level, display));
      r
  }

  function ActionNodes(groups: seq<ActionGroup>): (r: seq<Name>)
    ensures |r| == |groups|
    ensures forall i :: 0 <= i < |groups| ==> r[i] == ActionNode(groups[i])
    decreases |groups|
  {
    if groups == [] then [] else [ActionNode(groups[0])] + ActionNodes(groups[1..])
  }

  /** The processes `_add_node` draws: all but the faulty ones in quiet mode. */
  function DrawnIn(bad: map<Name, Fault>, quiet: bool): Name -> bool {
    n => !(quiet && n in bad)
  }

  /** Where lines 359-370 put the process `n`. */
  function ProcessHome(n: Name, conn: ConnectionMap, level: int, clusters: seq<string>): (home: Container)
    ensures home.Cluster? ==> ProcessClusterable(n, level, clusters) && home.ns == Namespace(n)
  {
    if n in conn && ProcessClusterable(n, level, clusters) then Cluster(Namespace(n)) else Root
  }

  /** A process node event as lines 357-370 draw it, given the subgraphs
      that exist: styled by its fault, and in the subgraph of its namespace
      exactly when it has an entry in the connection map and that subgraph
      exists. */
  predicate PlacedProcess(ev: Event, conn: ConnectionMap, bad: map<Name, Fault>, level: int, clusters: seq<string>) {
    && StyledFor(ev, bad)
    && (ev.container.Cluster? <==> ev.name in conn && ProcessClusterable(ev.name, level, clusters))
    && (ev.container.Cluster? ==> ev.container.ns == Namespace(ev.name))
  }

  /** What one round of lines 358-370 adds for the process `n`. */
  function ProcessEvent(n: Name, conn: ConnectionMap, bad: map<Name, Fault>, quiet: bool, level: int,
                        clusters: seq<string>): (r: seq<Event>)
    ensures |r| == (if DrawnIn(bad, quiet)(n) then 1 else 0)
    ensures forall ev :: ev in r ==> PlacedProcess(ev, conn, bad, level, clusters) && ev.name == n
    ensures NodeNames(r) == (if DrawnIn(bad, quiet)(n) then [n] else [])
  {
    match ProcessNode(ProcessHome(n, conn, level, clusters), n, bad, quiet)
    case None => []
    case Some(ev) => assert [ev][1..] == []; [ev]
  }

  /** The process nodes lines 357-370 add, in order, given the subgraphs
      that exist. */
  function ProcessEvents(nn: seq<Name>, conn: ConnectionMap, bad: map<Name, Fault>, quiet: bool, level: int,
                         clusters: seq<string>): (r: seq<Event>)
    ensures forall ev :: ev in r ==> PlacedProcess(ev, conn, bad, level, clusters)
    ensures NodeNames(r) == Filter(nn, DrawnIn(bad, quiet))
    decreases |nn|
  {
    if nn == [] then []
    else
      var here := ProcessEvent(nn[0], conn, bad, quiet, level, clusters);
      var rest := ProcessEvents(nn[1..], conn, bad, quiet, level, clusters);
      NodeNamesAppend(here, rest);
      assert Filter(nn, DrawnIn(bad, quiet)) == NodeNames(here) + Filter(nn[1..], DrawnIn(bad, quiet));
      here + rest
  }

  /** Lines 357-370: each process once, in order, except the faulty ones in
      quiet mode, styled by its fault. It joins the subgraph of its
      namespace only when it has an entry in the connection map and a topic
      or action already created that subgraph; no subgraph is created here. */
  function EmitProcesses(c: Canvas, nn: seq<Name>, conn: ConnectionMap, bad: map<Name, Fault>, quiet: bool,
                         level: int): (r: Canvas)
    ensures CanvasOk(c) ==> CanvasOk(r)
    ensures r.clusters == c.clusters
    ensures r.log == c.log + ProcessEvents(nn, conn, bad, quiet, level, c.clusters)
    ensures Nodes(r.log) == Nodes(c.log) + ProcessEvents(nn, conn, bad, quiet, level, c.clusters)
  {
    var evs := ProcessEvents(nn, conn, bad, quiet, level, c.clusters);
    NodesAppend(c.log, evs);
    NodesOnly(evs);
    AppendAll(c, evs)
  }

  /** `_add_edge` (lines 66-70): the edge with its label, and in a node/node
      graph also a link to its topic. */
  function EdgeEvent(e: Edge, nodeNode: bool): (ev: Event)
    ensures ev.AddEdge? && ev.start == e.start && ev.end == e.end && ev.caption == Some(e.caption)
    ensures ev.edgeUrl.Some? <==> nodeNode
    ensures nodeNode ==> ev.edgeUrl == Some("topic:" + e.caption)
  {
    AddEdge(e.start, e.end, Some(e.caption), if nodeNode then Some("topic:" + e.caption) else None)
  }

  /** The events `_add_edge` produces for `edges`, in order. */
  function EdgeEvents(edges: seq<Edge>, nodeNode: bool): (r: seq<Event>)
    ensures |r| == |edges|
    ensures forall i :: 0 <= i < |edges| ==> r[i] == EdgeEvent(edges[i], nodeNode)
    decreases |edges|
  {
    if edges == [] then [] else [EdgeEvent(edges[0], nodeNode)] + EdgeEvents(edges[1..], nodeNode)
  }

  /** Lines 372-374: the edges whose stripped ends are among `names` are
      drawn, in order, each once. */
  function EmitEdges(c: Canvas, edges: seq<Edge>, names: seq<string>, nodeNode: bool): (r: Canvas)
    ensures r.clusters == c.clusters
    ensures r.log == c.log + EdgeEvents(Filter(edges, AnchoredIn(names)), nodeNode)
    ensures CanvasOk(c) ==> CanvasOk(r)
    ensures Nodes(r.log) == Nodes(c.log)
    decreases |edges|
  {
    if edges == [] then assert c.log + [] == c.log; c
    else
      var e := edges[0];
      if Anchored(e, names) then
        var ev := EdgeEvent(e, nodeNode);
        NodesAppend(c.log, [ev]);
        EmitEdgesStep(c.log, edges, names, nodeNode);
        EmitEdges(Append(c, ev), edges[1..], names, nodeNode)
      else
        EmitEdges(c, edges[1..], names, nodeNode)
  }

  lemma EmitEdgesStep(log: seq<Event>, edges: seq<Edge>, names: seq<string>, nodeNode: bool)
    requires edges != [] && Anchored(edges[0], names)
    ensures log + [EdgeEvent(edges[0], nodeNode)] + EdgeEvents(Filter(edges[1..], AnchoredIn(names)), nodeNode)
            == log + EdgeEvents(Filter(edges, AnchoredIn(names)), nodeNode)
  {
    var e, kept := edges[0], Filter(edges[1..], AnchoredIn(names));
    assert AnchoredIn(names)(e);
    assert Filter(edges, AnchoredIn(names)) == [e] + kept;
    EdgeEventsCons(e, kept, nodeNode);
    ConcatAssoc(log, [EdgeEvent(e, nodeNode)], EdgeEvents(kept, nodeNode));
  }

  lemma EdgeEventsCons(e: Edge, kept: seq<Edge>, nodeNode: bool)
    ensures EdgeEvents([e] + kept, nodeNode) == [EdgeEvent(e, nodeNode)] + EdgeEvents(kept, nodeNode)
  {
    assert ([e] + kept)[0] == e && ([e] + kept)[1..] == kept;
  }

  /** The events `EdgeEvents` makes are those of the listed edges. */
  lemma EdgeEventsMembers(edges: seq<Edge>, nodeNode: bool)
    ensures forall ev :: ev in EdgeEvents(edges, nodeNode) <==> exists e :: e in edges && ev == EdgeEvent(e, nodeNode)
  {
    var evs := EdgeEvents(edges, nodeNode);
    forall ev ensures ev in evs <==> exists e :: e in edges && ev == EdgeEvent(e, nodeNode) {
      if ev in evs {
        var i :| 0 <= i < |evs| && evs[i] == ev;
        assert edges[i] in edges;
      }
      if exists e :: e in edges && ev == EdgeEvent(e, nodeNode) {
        var e :| e in edges && ev == EdgeEvent(e, nodeNode);
        var i :| 0 <= i < |edges| && edges[i] == e;
        assert evs[i] == ev;
      }
    }
  }

  /** The drawn edges are exactly the anchored edges of the list. */
  lemma EmitEdgesDraws(c: Canvas, edges: seq<Edge>, names: seq<string>, nodeNode: bool)
    ensures var r := EmitEdges(c, edges, names, nodeNode);
            forall ev :: ev in r.log[|c.log|..] <==>
              exists e :: e in edges && Anchored(e, names) && ev == EdgeEvent(e, nodeNode)
  {
    var kept := Filter(edges, AnchoredIn(names));
    var evs := EdgeEvents(kept, nodeNode);
    var r := EmitEdges(c, edges, names, nodeNode);
    assert r.log[|c.log|..] == evs;
    EdgeEventsMembers(kept, nodeNode);
    assert forall e :: e in kept <==> e in edges && Anchored(e, names);
  }

  /** The edges lines 376-383 draw for one group: from the synthetic node to
      the end of each recorded outgoing edge, then from the start of each
      recorded incoming edge to it, without label or url. */
  function GroupEdgeEvents(g: ActionGroup): (r: seq<Event>)
    ensures |r| == |g.outgoing| + |g.incoming|
    ensures forall i :: 0 <= i < |g.outgoing| ==>
              r[i] == AddEdge(Tail(g.prefix) + "/action_topics", g.outgoing[i].end, None, None)
    ensures forall i :: 0 <= i < |g.incoming| ==>
              r[|g.outgoing| + i] == AddEdge(g.incoming[i].start, Tail(g.prefix) + "/action_topics", None, None)
    ensures forall ev :: ev in r ==> ev.AddEdge? && ev.caption == None && ev.edgeUrl == None
    ensures forall ev :: ev in r ==> ev.start == Tail(g.prefix) + "/action_topics" || ev.end == Tail(g.prefix) + "/action_topics"
    ensures forall e :: e in g.outgoing ==> AddEdge(Tail(g.prefix) + "/action_topics", e.end, None, None) in r
    ensures forall e :: e in g.incoming ==> AddEdge(e.start, Tail(g.prefix) + "/action_topics", None, None) in r
  {
    var hub := Tail(g.prefix) + "/action_topics";
    var outs := FromHub(hub, g.outgoing);
    var ins := IntoHub(hub, g.incoming);
    assert forall i :: 0 <= i < |ins| ==> (outs + ins)[|outs| + i] == ins[i];
    outs + ins
  }

  /** When `node_topic` drops the leading character of a name, the end the
      group's edges name is the drawn label of its synthetic node exactly
      when the prefix is non-empty. */
  lemma HubIsDrawnNode(g: ActionGroup, display: Name -> string)
    requires forall x :: display(x) == Tail(x)
    ensures display(ActionNode(g)) == Tail(g.prefix) + "/action_topics" <==> g.prefix != ""
  {
    var node := ActionNode(g);
    if g.prefix != "" {
      assert node[1..] == g.prefix[1..] + "/action_topics";
    } else {
      assert display(node) == "action_topics";
      assert (Tail(g.prefix) + "/action_topics")[0] == '/';
    }
  }

  /** An unlabelled edge from `hub` to the end of each of `es`, in order. */
  function FromHub(hub: Name, es: seq<Edge>): (r: seq<Event>)
    ensures |r| == |es|
    ensures forall i :: 0 <= i < |es| ==> r[i] == AddEdge(hub, es[i].end, None, None)
    ensures forall ev :: ev in r ==> ev.AddEdge? && ev.start == hub && ev.caption == None && ev.edgeUrl == None
    ensures forall e :: e in es ==> AddEdge(hub, e.end, None, None) in r
  {
    var r := seq(|es|, i requires 0 <= i < |es| => AddEdge(hub, es[i].end, None, None));
    assert forall e :: e in es ==> AddEdge(hub, e.end, None, None) in r by {
      forall e | e in es ensures AddEdge(hub, e.end, None, None) in r {
        var i :| 0 <= i < |es| && es[i] == e;
        assert r[i] == AddEdge(hub, e.end, None, None);
      }
    }
    r
  }

  /** An unlabelled edge from the start of each of `es` to `hub`, in order. */
  function IntoHub(hub: Name, es: seq<Edge>): (r: seq<Event>)
    ensures |r| == |es|
    ensures forall i :: 0 <= i < |es| ==> r[i] == AddEdge(es[i].start, hub, None, None)
    ensures forall ev :: ev in r ==> ev.AddEdge? && ev.end == hub && ev.caption == None && ev.edgeUrl == None
    ensures forall e :: e in es ==> AddEdge(e.start, hub, None, None) in r
  {
    var r := seq(|es|, i requires 0 <= i < |es| => AddEdge(es[i].start, hub, None, None));
    assert forall e :: e in es ==> AddEdge(e.start, hub, None, None) in r by {
      forall e | e in es ensures AddEdge(e.start, hub, None, None) in r {
        var i :| 0 <= i < |es| && es[i] == e;
        assert r[i] == AddEdge(e.start, hub, None, None);
      }
    }
    r
  }

  /** The synthetic edges of all recorded groups, group after group. */
  function GroupsEdgeEvents(groups: seq<ActionGroup>): (r: seq<Event>)
    ensures forall ev :: ev in r <==> exists g :: g in groups && ev in GroupEdgeEvents(g)
    ensures forall ev :: ev in r ==> ev.AddEdge?
    decreases |groups|
  {
    if groups == [] then []
    else
      HeadOrTail(groups);
      GroupEdgeEvents(groups[0]) + GroupsEdgeEvents(groups[1..])
  }

  /** Lines 376-383 for every recorded group, in order: only edges are added. */
  function EmitActionEdges(c: Canvas, groups: seq<ActionGroup>): (r: Canvas)
    ensures r.clusters == c.clusters && r.log == c.log + GroupsEdgeEvents(groups)
    ensures CanvasOk(c) ==> CanvasOk(r)
    ensures Nodes(r.log) == Nodes(c.log)
  {
    var evs := GroupsEdgeEvents(groups);
    NodesOnly(evs);
    NodesAppend(c.log, evs);
    assert Nodes(c.log) + [] == Nodes(c.log);
    AppendAll(c, evs)
  }

  /** Appends events one by one; none creates a subgraph, and a node goes
      only into a subgraph that exists. */
  function AppendAll(c: Canvas, evs: seq<Event>): (r: Canvas)
    requires forall ev :: ev in evs ==> !ev.AddSubgraph? && (ev.AddNode? && ev.container.Cluster? ==> ev.container.ns in c.clusters)
    ensures r.log == c.log + evs && r.clusters == c.clusters
    ensures CanvasOk(c) ==> CanvasOk(r)
    decreases |evs|
  {
    if evs == [] then assert c.log + evs == c.log; c
    else
      assert evs[0] in evs;
      var d := Append(c, evs[0]);
      HeadOrTail(evs);
      var r := AppendAll(d, evs[1..]);
      assert c.log + evs == c.log + [evs[0]] + evs[1..];
      r
  }
}
