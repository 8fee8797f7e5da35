/** `generate_dotcode` (rosgui_rosgraph/lib/dotcode.py:149-386) as the
    composition of its stages: parse the two filters, select, build the
    connection map, hide topics, collapse actions, settle, and draw. */
module Pipeline {
  import opened Results
  import opened Seqs
  import opened Text
  import opened Patterns
  import opened Graph
  import opened Selection
  import opened Connections
  import opened Pruning
  import opened Actions
  import opened Cleanup
  import opened Emit

  /** What each stage hands to the next. */
  datatype Stages = Stages(selection: Selection, conn: ConnectionMap, pruned: Pruned, collapsed: Collapsed,
                           settled: Settled)

  /** Line 238: the connection map is built only for a graph with topic
      nodes and only when some option needs it; otherwise it stays empty. */
  predicate Connects(mode: GraphMode, opts: Options) {
    mode != NodeNode && (opts.accumulateActions || opts.hideDeadEndTopics || opts.hideSingleConnectionTopics)
  }

  predicate Hides(mode: GraphMode, opts: Options) {
    Connects(mode, opts) && (opts.hideDeadEndTopics || opts.hideSingleConnectionTopics)
  }

  predicate Accumulates(mode: GraphMode, opts: Options) {
    Connects(mode, opts) && opts.accumulateActions
  }

  /** The topic and edge lists after hiding topics and collapsing actions,
      with the recorded groups. */
  datatype Reduced = Reduced(conn: ConnectionMap, pruned: Pruned, collapsed: Collapsed)

  /** Lines 236-297 on the selected sets: build the connection map, hide
      topics, collapse actions, each only when its option asks for it. Only
      the collapse can raise. */
  function Reduce(sel: Selection, mode: GraphMode, opts: Options): (r: Result<Reduced>)
    ensures r.Err? ==> r.error == NotInList && Accumulates(mode, opts)
    ensures r.Ok? ==> r.value.conn == (if Connects(mode, opts) then Connect(sel.edges) else map[])
    ensures r.Ok? ==> IsSubsequence(r.value.collapsed.topics, sel.nt) && IsSubsequence(r.value.collapsed.edges, sel.edges)
    ensures r.Ok? && !Accumulates(mode, opts) ==> r.value.collapsed.groups == []
  {
    var conn := if Connects(mode, opts) then Connect(sel.edges) else map[];
    SubsequenceReflexive(sel.nt);
    SubsequenceReflexive(sel.edges);
    var pruned := if Hides(mode, opts)
                  then Prune(sel.nt, conn, opts.hideSingleConnectionTopics, opts.hideDeadEndTopics, sel.edges)
                  else Pruned(sel.nt, sel.edges);
    SubsequenceReflexive(pruned.topics);
    SubsequenceReflexive(pruned.edges);
    var collapsed :- if Accumulates(mode, opts) then Collapse(pruned.topics, conn, pruned.edges)
                     else Ok(Collapsed(pruned.topics, pruned.edges, []));
    SubsequenceTransitive(collapsed.topics, pruned.topics, sel.nt);
    SubsequenceTransitive(collapsed.edges, pruned.edges, sel.edges);
    Ok(Reduced(conn, pruned, collapsed))
  }

  /** Lines 199-312 on the parsed filters: everything before drawing. An
      unknown mode raises; a malformed pattern raises when a name test
      reaches it; collapsing can raise when two `/feedback` topics give the
      same prefix and both searches find five topics. Nothing else fails. */
  function Plan(snap: Snapshot, nsLists: FilterLists, topicLists: FilterLists, mode: GraphMode, opts: Options,
                rx: Regex): (r: Result<Stages>)
    ensures r == Err(UnboundEdges) <==> mode == UnknownMode
    ensures r.Err? && r.error.BadPattern? ==> BlamesFilter(r.error, nsLists, rx) || BlamesFilter(r.error, topicLists, rx)
    ensures r.Err? && r.error == NotInList ==> Accumulates(mode, opts)
    ensures r.Ok? ==> r.value.settled == Settle(r.value.selection.nn, r.value.collapsed.topics, r.value.collapsed.edges)
    ensures r.Ok? ==> r.value.conn == (if Connects(mode, opts) then Connect(r.value.selection.edges) else map[])
    ensures r.Ok? ==> IsSubsequence(r.value.selection.nn, snap.nnNodes)
    ensures r.Ok? && !Accumulates(mode, opts) ==> r.value.collapsed.groups == []
  {
    var sel :- Choose(snap, mode, nsLists, topicLists, rx := rx, quiet := opts.quiet);
    var red :- Reduce(sel, mode, opts);
    var settled := Settle(sel.nn, red.collapsed.topics, red.collapsed.edges);
    Ok(Stages(sel, red.conn, red.pruned, red.collapsed, settled))
  }

  /** What is drawn comes from the snapshot: the surviving topics and edges
      are subsequences of the snapshot's topic nodes and of the mode's edges. */
  lemma PlanKeepsOrder(snap: Snapshot, nsLists: FilterLists, topicLists: FilterLists, mode: GraphMode,
                       opts: Options, rx: Regex)
    requires Plan(snap, nsLists, topicLists, mode, opts, rx).Ok?
    ensures var st := Plan(snap, nsLists, topicLists, mode, opts, rx).value;
            IsSubsequence(st.settled.topics, snap.ntNodes) && IsSubsequence(st.settled.edges, SourceEdges(snap, mode))
  {
    var st := Plan(snap, nsLists, topicLists, mode, opts, rx).value;
    var sel := st.selection;
    assert sel == Choose(snap, mode, nsLists, topicLists, opts.quiet, rx).value;
    assert IsSubsequence(sel.nt, snap.ntNodes) by {
      if mode == NodeNode {
        EmptySubsequence(snap.ntNodes);
      }
    }
    var red := Reduce(sel, mode, opts).value;
    SubsequenceTransitive(red.collapsed.topics, sel.nt, snap.ntNodes);
    SubsequenceTransitive(st.settled.topics, red.collapsed.topics, snap.ntNodes);
    SubsequenceTransitive(red.collapsed.edges, sel.edges, SourceEdges(snap, mode));
    SubsequenceTransitive(st.settled.edges, red.collapsed.edges, SourceEdges(snap, mode));
  }

  /** The empty list is a subsequence of every list. */
  lemma {:induction false} EmptySubsequence<T(!new)>(s: seq<T>)
    ensures IsSubsequence([], s)
    decreases |s|
  {
    if s != [] {
      EmptySubsequence(s[1..]);
    }
  }

  /** Lines 322-383: topic nodes, synthetic action nodes, process nodes,
      edges, then the edges of the synthetic nodes. The drawing replays
      without fault: each subgraph is created once, before any node is put in
      it, and receives a node. */
  function Draw(st: Stages, snap: Snapshot, mode: GraphMode, opts: Options, display: Name -> string): (c: Canvas)
    ensures CanvasOk(c)
  {
    var level := opts.clusterNamespacesLevel;
    var c0 := Canvas([], []);
    assert CanvasOk(c0);
    var c1 := EmitTopics(c0, st.settled.topics, st.conn, level, display);
    var c2 := EmitActions(c1, st.collapsed.groups, level, display);
    var c3 := EmitProcesses(c2, st.selection.nn, st.conn, snap.badNodes, opts.quiet, level);
    var c4 := EmitEdges(c3, st.settled.edges, st.settled.names, mode == NodeNode);
    EmitActionEdges(c4, st.collapsed.groups)
  }

  /** `generate_dotcode` on parsed filters. */
  function Render(snap: Snapshot, nsLists: FilterLists, topicLists: FilterLists, mode: GraphMode, opts: Options,
                  rx: Regex, display: Name -> string): (r: Result<seq<Event>>)
    ensures r == Err(UnboundEdges) <==> mode == UnknownMode
    ensures r.Err? && r.error.BadPattern? ==> BlamesFilter(r.error, nsLists, rx) || BlamesFilter(r.error, topicLists, rx)
    ensures r.Err? && r.error == NotInList ==> Accumulates(mode, opts)
    ensures r.Ok? ==> Replay(r.value).Some? && Replay(r.value).value.empty == {}
  {
    var st :- Plan(snap, nsLists, topicLists, mode, opts, rx);
    Ok(Draw(st, snap, mode, opts, display).log)
  }

  /** `generate_dotcode` (lines 179-197 parse the filters): the factory calls
      it makes, or the exception it raises. The calls replay without fault
      and leave no subgraph empty. */
  function Generate(snap: Snapshot, nsFilter: string, topicFilter: string, mode: GraphMode, opts: Options,
                    rx: Regex, display: Name -> string): (r: Result<seq<Event>>)
    ensures r == Err(UnboundEdges) <==> mode == UnknownMode
    ensures r.Err? && r.error.BadPattern? ==>
              BlamesFilter(r.error, ParseFilter(nsFilter), rx) || BlamesFilter(r.error, ParseFilter(topicFilter), rx)
    ensures r.Err? && r.error == NotInList ==> Accumulates(mode, opts)
    ensures r.Ok? ==> Replay(r.value).Some? && Replay(r.value).value.empty == {}
  {
    Render(snap, ParseFilter(nsFilter), ParseFilter(topicFilter), mode, opts, rx, display)
  }

  /** A process name whose namespace-filter test reaches a malformed
      pattern makes the generator raise a pattern error: there is no silent
      fallback. */
  lemma ReachedBadPatternRaises(snap: Snapshot, nsFilter: string, topicFilter: string, mode: GraphMode,
                                opts: Options, rx: Regex, display: Name -> string, n: Name)
    requires mode != UnknownMode
    requires n in Hush(snap.nnNodes, opts.quiet)
    requires Selects(ParseFilter(nsFilter).includes, ParseFilter(nsFilter).excludes, n, rx).Err?
    ensures Generate(snap, nsFilter, topicFilter, mode, opts, rx, display).Err?
    ensures Generate(snap, nsFilter, topicFilter, mode, opts, rx, display).error.BadPattern?
  {
    RenderRaises(snap, ParseFilter(nsFilter), ParseFilter(topicFilter), mode, opts, rx, display, n);
  }

  /** The same on parsed filter lists: rendering raises a pattern error. */
  lemma RenderRaises(snap: Snapshot, nsLists: FilterLists, topicLists: FilterLists, mode: GraphMode,
                     opts: Options, rx: Regex, display: Name -> string, n: Name)
    requires mode != UnknownMode
    requires n in Hush(snap.nnNodes, opts.quiet)
    requires Selects(nsLists.includes, nsLists.excludes, n, rx).Err?
    ensures Render(snap, nsLists, topicLists, mode, opts, rx, display).Err?
    ensures Render(snap, nsLists, topicLists, mode, opts, rx, display).error.BadPattern?
  {
    NameRaisesFirst(snap, mode, nsLists, topicLists, opts.quiet, rx, n);
  }

  /** The factory calls of a successful run create each subgraph once and
      add a node to a subgraph only after creating it. */
  lemma GeneratedSubgraphs(snap: Snapshot, nsFilter: string, topicFilter: string, mode: GraphMode, opts: Options,
                           rx: Regex, display: Name -> string)
    requires Generate(snap, nsFilter, topicFilter, mode, opts, rx, display).Ok?
    ensures var log := Generate(snap, nsFilter, topicFilter, mode, opts, rx, display).value;
            WellScoped(log) && SubgraphsUnique(log)
  {
    ReplayMeans(Generate(snap, nsFilter, topicFilter, mode, opts, rx, display).value);
  }

  /** With a known mode, well-formed filter patterns, and (when actions are
      collapsed) topic names that strip apart and one `/feedback` topic per
      prefix, the generator never raises. */
  lemma GenerateSucceeds(snap: Snapshot, nsFilter: string, topicFilter: string, mode: GraphMode, opts: Options,
                         rx: Regex, display: Name -> string)
    requires mode != UnknownMode
    requires ListsWellFormed(ParseFilter(nsFilter), rx) && ListsWellFormed(ParseFilter(topicFilter), rx)
    requires opts.accumulateActions ==> DistinctStripped(snap.ntNodes) && PrefixesDistinct(snap.ntNodes)
    ensures Generate(snap, nsFilter, topicFilter, mode, opts, rx, display).Ok?
  {
    var nsLists, topicLists := ParseFilter(nsFilter), ParseFilter(topicFilter);
    RenderSucceeds(snap, nsLists, topicLists, mode, opts, rx, display);
  }

  /** The same on parsed filter lists: rendering never raises. */
  lemma RenderSucceeds(snap: Snapshot, nsLists: FilterLists, topicLists: FilterLists, mode: GraphMode, opts: Options,
                       rx: Regex, display: Name -> string)
    requires mode != UnknownMode
    requires ListsWellFormed(nsLists, rx) && ListsWellFormed(topicLists, rx)
    requires opts.accumulateActions ==> DistinctStripped(snap.ntNodes) && PrefixesDistinct(snap.ntNodes)
    ensures Render(snap, nsLists, topicLists, mode, opts, rx, display).Ok?
  {
    var sel := Choose(snap, mode, nsLists, topicLists, opts.quiet, rx);
    assert sel.Ok?;
    if Accumulates(mode, opts) {
      ReduceSucceeds(sel.value, snap.ntNodes, mode, opts);
    }
  }

  lemma ReduceSucceeds(sel: Selection, topics: seq<Name>, mode: GraphMode, opts: Options)
    requires IsSubsequence(sel.nt, topics)
    requires DistinctStripped(topics) && PrefixesDistinct(topics)
    ensures Reduce(sel, mode, opts).Ok?
  {
    if Accumulates(mode, opts) {
      var conn := Connect(sel.edges);
      var pruned := if Hides(mode, opts)
                    then Prune(sel.nt, conn, opts.hideSingleConnectionTopics, opts.hideDeadEndTopics, sel.edges)
                    else Pruned(sel.nt, sel.edges);
      if Hides(mode, opts) {
        SubsequenceTransitive(pruned.topics, sel.nt, topics);
      }
      SubsequenceKeepsDistinct(pruned.topics, topics);
      StrippedDistinct(pruned.topics);
      CollapseTopics(pruned.topics, conn, pruned.edges);
    }
  }

  /** The usual namespace filter `/` draws the same graph as `.*`. */
  lemma SlashDrawsAll(snap: Snapshot, topicFilter: string, mode: GraphMode, opts: Options, rx: Regex,
                      display: Name -> string)
    ensures Generate(snap, RootFilter, topicFilter, mode, opts, rx, display) ==
            Generate(snap, MatchAll, topicFilter, mode, opts, rx, display)
  {
    SlashFilterMeansAll();
  }

  /** The nodes a drawing holds: the topics, each in the subgraph of its
      namespace exactly when it has an entry in the connection map and passes
      the clustering test; then the synthetic action nodes, placed by the
      same test; then the drawn processes, each in the subgraph of its
      namespace exactly when it has an entry in the map and that subgraph was
      created for a topic or an action. */
  lemma DrawnNodes(st: Stages, snap: Snapshot, mode: GraphMode, opts: Options, display: Name -> string)
    ensures var c := Draw(st, snap, mode, opts, display);
            var level := opts.clusterNamespacesLevel;
            Nodes(c.log) ==
              TopicEvents(st.settled.topics, st.conn, level, display) + ActionEvents(st.collapsed.groups, level, display)
              + ProcessEvents(st.selection.nn, st.conn, snap.badNodes, opts.quiet, level, c.clusters)
  {
    var level := opts.clusterNamespacesLevel;
    var c0 := Canvas([], []);
    var c1 := EmitTopics(c0, st.settled.topics, st.conn, level, display);
    var c2 := EmitActions(c1, st.collapsed.groups, level, display);
    var c3 := EmitProcesses(c2, st.selection.nn, st.conn, snap.badNodes, opts.quiet, level);
    var c4 := EmitEdges(c3, st.settled.edges, st.settled.names, mode == NodeNode);
    var c5 := EmitActionEdges(c4, st.collapsed.groups);
    assert c5 == Draw(st, snap, mode, opts, display);
    assert Nodes(c1.log) == TopicEvents(st.settled.topics, st.conn, level, display) by {
      assert Nodes(c0.log) == [];
      assert [] + TopicEvents(st.settled.topics, st.conn, level, display) == TopicEvents(st.settled.topics, st.conn, level, display);
    }
  }

  /** The subgraphs a drawing creates: one for the namespace of each
      clustered topic and each clustered synthetic action node. */
  lemma DrawnClusters(st: Stages, snap: Snapshot, mode: GraphMode, opts: Options, display: Name -> string)
    ensures var level := opts.clusterNamespacesLevel;
            forall x :: x in Draw(st, snap, mode, opts, display).clusters <==>
              TopicCluster(st.settled.topics, st.conn, level, x) || ActionCluster(st.collapsed.groups, level, x)
  {
    var level := opts.clusterNamespacesLevel;
    var c1 := EmitTopics(Canvas([], []), st.settled.topics, st.conn, level, display);
    var c2 := EmitActions(c1, st.collapsed.groups, level, display);
    var c3 := EmitProcesses(c2, st.selection.nn, st.conn, snap.badNodes, opts.quiet, level);
    var c4 := EmitEdges(c3, st.settled.edges, st.settled.names, mode == NodeNode);
    assert Draw(st, snap, mode, opts, display).clusters == c2.clusters;
  }

  /** The node names a drawing holds: the topics' display names, the
      synthetic action nodes' display names, then the drawn processes. */
  lemma DrawnNames(st: Stages, snap: Snapshot, mode: GraphMode, opts: Options, display: Name -> string)
    ensures NodeNames(Draw(st, snap, mode, opts, display).log) ==
              Labels(st.settled.topics, display) + Labels(ActionNodes(st.collapsed.groups), display)
              + Filter(st.selection.nn, DrawnIn(snap.badNodes, opts.quiet))
  {
    var level := opts.clusterNamespacesLevel;
    var c := Draw(st, snap, mode, opts, display);
    var t := TopicEvents(st.settled.topics, st.conn, level, display);
    var a := ActionEvents(st.collapsed.groups, level, display);
    var p := ProcessEvents(st.selection.nn, st.conn, snap.badNodes, opts.quiet, level, c.clusters);
    DrawnNodes(st, snap, mode, opts, display);
    NodeNamesOfNodes(c.log);
    NodeNamesAppend(t + a, p);
    NodeNamesAppend(t, a);
    TopicEventsNames(st.settled.topics, st.conn, level, display);
    ActionEventsNames(st.collapsed.groups, level, display);
  }

  /** `x`, stripped, is the stripped name of a process drawn under its own
      name or of a topic drawn under its display name. */
  ghost predicate DrawnEnd(x: string, nn: seq<Name>, topics: seq<Name>, drawn: seq<string>, display: Name -> string) {
    exists n :: Strip(n) == Strip(x) && ((n in nn && n in drawn) || (n in topics && display(n) in drawn))
  }

  /** Both ends of every edge in `edges` are drawn ends. */
  ghost predicate EndsDrawn(edges: seq<Edge>, nn: seq<Name>, topics: seq<Name>, drawn: seq<string>,
                            display: Name -> string) {
    forall e :: e in edges ==> DrawnEnd(e.start, nn, topics, drawn, display) && DrawnEnd(e.end, nn, topics, drawn, display)
  }

  /** Every edge the last pass keeps points at drawn nodes: each end strips
      to the stripped name of a process node drawn under its own name, or of
      a topic drawn under its display name. Quiet mode skips faulty processes but not
      their edges, so the guarantee needs that no selected process is
      faulty there. */
  lemma EdgesPointAtNodes(st: Stages, snap: Snapshot, mode: GraphMode, opts: Options, display: Name -> string)
    requires st.settled == Settle(st.selection.nn, st.collapsed.topics, st.collapsed.edges)
    requires opts.quiet ==> forall n :: n in st.selection.nn ==> n !in snap.badNodes
    ensures EndsDrawn(st.settled.edges, st.selection.nn, st.settled.topics,
                      NodeNames(Draw(st, snap, mode, opts, display).log), display)
  {
    var drawn := NodeNames(Draw(st, snap, mode, opts, display).log);
    DrawnNames(st, snap, mode, opts, display);
    DrawnCovers(st.settled.topics, Labels(ActionNodes(st.collapsed.groups), display), st.selection.nn, snap.badNodes,
                opts.quiet, display);
    EdgesReferToNodes(st.selection.nn, st.collapsed.topics, st.collapsed.edges);
    EndsAreDrawn(st.selection.nn, st.settled.topics, st.settled.edges, drawn, display);
  }

  /** A list of drawn names made of the topic labels, some other labels, and
      the drawn processes holds every topic's label and, when no process is
      skipped, every process. */
  lemma DrawnCovers(topics: seq<Name>, others: seq<string>, nn: seq<Name>, bad: map<Name, Fault>, quiet: bool,
                    display: Name -> string)
    requires quiet ==> forall n :: n in nn ==> n !in bad
    ensures var drawn := Labels(topics, display) + others + Filter(nn, DrawnIn(bad, quiet));
            && (forall n :: n in topics ==> display(n) in drawn)
            && (forall n :: n in nn ==> n in drawn)
  {
    var labels := Labels(topics, display);
    forall n | n in topics ensures display(n) in labels {
      var i :| 0 <= i < |topics| && topics[i] == n;
      assert labels[i] == display(n);
    }
    forall n | n in nn ensures n in Filter(nn, DrawnIn(bad, quiet)) {
      assert DrawnIn(bad, quiet)(n);
    }
  }

  /** The core of the lemma above: edges whose ends strip like a process or a
      topic point at drawn nodes when every process and every topic's label
      is drawn. */
  lemma EndsAreDrawn(nn: seq<Name>, topics: seq<Name>, edges: seq<Edge>, drawn: seq<string>, display: Name -> string)
    requires forall e, x :: e in edges && (x == e.start || x == e.end) ==>
               exists n :: (n in nn || n in topics) && Strip(n) == Strip(x)
    requires forall n :: n in nn ==> n in drawn
    requires forall n :: n in topics ==> display(n) in drawn
    ensures EndsDrawn(edges, nn, topics, drawn, display)
  {
    forall e, x | e in edges && (x == e.start || x == e.end) ensures StripsLike(x, nn, topics) {
      var key := Strip(x);  // the term the requires is triggered on
      assert exists n :: (n in nn || n in topics) && Strip(n) == key;
    }
    forall e | e in edges
      ensures DrawnEnd(e.start, nn, topics, drawn, display) && DrawnEnd(e.end, nn, topics, drawn, display)
    {
      Anchor(nn, topics, e.start, drawn, display);
      Anchor(nn, topics, e.end, drawn, display);
    }
  }

  /** `x` strips like a process or a topic. */
  ghost predicate StripsLike(x: string, nn: seq<Name>, topics: seq<Name>) {
    exists n :: (n in nn || n in topics) && Strip(n) == Strip(x)
  }

  lemma Anchor(nn: seq<Name>, topics: seq<Name>, x: string, drawn: seq<string>, display: Name -> string)
    requires StripsLike(x, nn, topics)
    requires forall n :: n in nn ==> n in drawn
    requires forall n :: n in topics ==> display(n) in drawn
    ensures DrawnEnd(x, nn, topics, drawn, display)
  {
    var n :| (n in nn || n in topics) && Strip(n) == Strip(x);
  }

  /** The same on the generator's own stages: with a selection free of
      faulty processes in quiet mode, no edge the last pass keeps dangles.
      The synthetic action edges are not covered. */
  lemma GeneratedEdgesPointAtNodes(snap: Snapshot, nsLists: FilterLists, topicLists: FilterLists, mode: GraphMode,
                                   opts: Options, rx: Regex, display: Name -> string)
    requires Plan(snap, nsLists, topicLists, mode, opts, rx).Ok?
    requires opts.quiet ==> forall n :: n in snap.nnNodes ==> n !in snap.badNodes
    ensures var st := Plan(snap, nsLists, topicLists, mode, opts, rx).value;
            EndsDrawn(st.settled.edges, st.selection.nn, st.settled.topics,
                      NodeNames(Draw(st, snap, mode, opts, display).log), display)
  {
    var st := Plan(snap, nsLists, topicLists, mode, opts, rx).value;
    SubsequenceMembers(st.selection.nn, snap.nnNodes);
    EdgesPointAtNodes(st, snap, mode, opts, display);
  }

  /** The check of lines 372-373 always passes: every edge that survives the
      last pass is drawn, once, in order. */
  lemma EveryKeptEdgeIsDrawn(c: Canvas, nn: seq<Name>, nt: seq<Name>, edges: seq<Edge>, nodeNode: bool)
    ensures var s := Settle(nn, nt, edges);
            EmitEdges(c, s.edges, s.names, nodeNode).log == c.log + EdgeEvents(s.edges, nodeNode)
  {
    var s := Settle(nn, nt, edges);
    FilterAll(s.edges, AnchoredIn(s.names));
  }
}
