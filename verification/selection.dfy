/** Mode selection, name filtering, quiet filtering and the AND rule
    (rosgui_rosgraph/lib/dotcode.py:144-146, 199-233). */
module Selection {
  import opened Results
  import opened Seqs
  import opened Patterns
  import opened Graph
  import opened Quiet

  /** A name passes a parsed filter: some include hits it and no exclude does. */
  predicate Admits(lists: FilterLists, name: string, rx: Regex) {
    HitsAny(name, lists.includes, rx) && !HitsAny(name, lists.excludes, rx)
  }

  /** Every pattern of the filter compiles or is a literal. */
  predicate ListsWellFormed(lists: FilterLists, rx: Regex) {
    && (forall i :: 0 <= i < |lists.includes| ==> WellFormed(lists.includes[i], rx))
    && (forall i :: 0 <= i < |lists.excludes| ==> WellFormed(lists.excludes[i], rx))
  }

  /** A malformed pattern of the filter. */
  ghost predicate BlamesFilter(err: Error, lists: FilterLists, rx: Regex) {
    exists p :: err == BadPattern(p) && (p in lists.includes || p in lists.excludes) && !WellFormed(p, rx)
  }

  lemma SelectsFails(lists: FilterLists, name: string, rx: Regex)
    requires Selects(lists.includes, lists.excludes, name, rx).Err?
    ensures BlamesFilter(Selects(lists.includes, lists.excludes, name, rx).error, lists, rx)
  {
    var err := Selects(lists.includes, lists.excludes, name, rx).error;
    if MatchesAny(name, lists.includes, rx).Err? {
      assert err == MatchesAny(name, lists.includes, rx).error;
    } else {
      assert err == MatchesAny(name, lists.excludes, rx).error;
    }
  }

  function NameTest(lists: FilterLists, rx: Regex): string -> Result<bool> {
    n => Selects(lists.includes, lists.excludes, n, rx)
  }

  function CaptionTest(lists: FilterLists, rx: Regex): Edge -> Result<bool> {
    (e: Edge) => Selects(lists.includes, lists.excludes, e.caption, rx)
  }

  /** `[n for n in names if matches_any(n, includes) and not matches_any(n, excludes)]`. */
  function SelectNames(names: seq<Name>, lists: FilterLists, rx: Regex): (r: Result<seq<Name>>)
    ensures r.Ok? ==> forall n :: n in r.value <==> n in names && Admits(lists, n, rx)
    ensures r.Ok? ==> IsSubsequence(r.value, names)
    ensures r.Err? <==> exists n :: n in names && Selects(lists.includes, lists.excludes, n, rx).Err?
    ensures r.Err? ==> BlamesFilter(r.error, lists, rx)
    ensures ListsWellFormed(lists, rx) ==> r.Ok?
  {
    var r := FilterR(names, NameTest(lists, rx));
    if r.Err? then
      var n :| n in names && NameTest(lists, rx)(n) == Err(r.error);
      SelectsFails(lists, n, rx);
      r
    else r
  }

  /** The same test on the labels of node/node edges, with the topic lists. */
  function SelectCaptions(edges: seq<Edge>, lists: FilterLists, rx: Regex): (r: Result<seq<Edge>>)
    ensures r.Ok? ==> forall e :: e in r.value <==> e in edges && Admits(lists, e.caption, rx)
    ensures r.Ok? ==> IsSubsequence(r.value, edges)
    ensures r.Err? <==> exists e :: e in edges && Selects(lists.includes, lists.excludes, e.caption, rx).Err?
    ensures r.Err? ==> BlamesFilter(r.error, lists, rx)
    ensures ListsWellFormed(lists, rx) ==> r.Ok?
  {
    var r := FilterR(edges, CaptionTest(lists, rx));
    if r.Err? then
      var e :| e in edges && CaptionTest(lists, rx)(e) == Err(r.error);
      SelectsFails(lists, e.caption, rx);
      r
    else r
  }

  /** `_filter_edges`: the AND rule keeps the edges whose two ends are both
      among `nodes`, in order. */
  function Restrict(edges: seq<Edge>, nodes: seq<Name>): (r: seq<Edge>)
    ensures forall e :: e in r <==> e in edges && e.start in nodes && e.end in nodes
    ensures IsSubsequence(r, edges)
  {
    Filter(edges, (e: Edge) => e.start in nodes && e.end in nodes)
  }

  /** The working sets after the selection stage: process nodes, topic nodes
      (none in a node/node graph) and edges. */
  datatype Selection = Selection(nn: seq<Name>, nt: seq<Name>, edges: seq<Edge>)

  /** The edge set a mode starts from. */
  function SourceEdges(snap: Snapshot, mode: GraphMode): seq<Edge> {
    match mode
    case NodeNode => snap.nnEdges
    case NodeTopic => snap.ntEdges
    case NodeTopicAll => snap.ntAllEdges
    case UnknownMode => []
  }

  /** The quiet node filter applied when `quiet` is set. */
  function Hush(names: seq<Name>, quiet: bool): (r: seq<Name>)
    ensures forall n :: n in r <==> n in names && !(quiet && n in QuietNames)
    ensures IsSubsequence(r, names)
  {
    if quiet then DropQuietNodes(names) else SubsequenceReflexive(names); names
  }

  /** Lines 202-233 of `generate_dotcode`: pick the node and edge sets of the
      mode, drop quiet nodes, filter node names (and, in a node/node graph,
      edge labels), drop quiet edges, then apply the AND rule. An unknown mode
      never assigns `edges`, so the first use of it raises. */
  function Choose(snap: Snapshot, mode: GraphMode, nsLists: FilterLists, topicLists: FilterLists,
                  quiet: bool, rx: Regex): (r: Result<Selection>)
    ensures r == Err(UnboundEdges) <==> mode == UnknownMode
    ensures r.Err? && mode != UnknownMode ==>
              BlamesFilter(r.error, nsLists, rx) || BlamesFilter(r.error, topicLists, rx)
    ensures mode != UnknownMode && ListsWellFormed(nsLists, rx) && ListsWellFormed(topicLists, rx) ==> r.Ok?
    ensures r.Ok? ==> forall n :: n in r.value.nn <==>
              n in snap.nnNodes && !(quiet && n in QuietNames) && Admits(nsLists, n, rx)
    ensures r.Ok? && mode == NodeNode ==> r.value.nt == []
    ensures r.Ok? && mode != NodeNode ==> forall n :: n in r.value.nt <==>
              n in snap.ntNodes && !(quiet && n in QuietNames) && Admits(topicLists, n, rx)
    ensures r.Ok? ==> forall e :: e in r.value.edges <==>
              && e in SourceEdges(snap, mode)
              && (mode == NodeNode ==> Admits(topicLists, e.caption, rx))
              && (quiet ==> QuietKeepsEdge(e))
              && (e.start in r.value.nn || e.start in r.value.nt)
              && (e.end in r.value.nn || e.end in r.value.nt)
    ensures r.Ok? ==> IsSubsequence(r.value.edges, SourceEdges(snap, mode))
    ensures r.Ok? ==> IsSubsequence(r.value.nn, snap.nnNodes)
    ensures r.Ok? && mode != NodeNode ==> IsSubsequence(r.value.nt, snap.ntNodes)
  {
    var picked :- Pick(snap, mode, nsLists, topicLists, quiet, rx);
    var edges := if quiet then DropQuietEdges(picked.edges) else picked.edges;
    var restricted := Restrict(edges, picked.nn + picked.nt);
    if quiet then SubsequenceTransitive(edges, picked.edges, SourceEdges(snap, mode)); SubsequenceTransitive(restricted, edges, SourceEdges(snap, mode));
    Ok(picked.(edges := restricted))
    else SubsequenceTransitive(restricted, edges, SourceEdges(snap, mode));
    Ok(picked.(edges := restricted))
  }

  /** In every known mode the process names are filtered first, so a process
      name whose test raises makes the selection raise a pattern error. */
  lemma NameRaisesFirst(snap: Snapshot, mode: GraphMode, nsLists: FilterLists, topicLists: FilterLists,
                        quiet: bool, rx: Regex, n: Name)
    requires mode != UnknownMode
    requires n in Hush(snap.nnNodes, quiet)
    requires Selects(nsLists.includes, nsLists.excludes, n, rx).Err?
    ensures Choose(snap, mode, nsLists, topicLists, quiet, rx).Err?
    ensures Choose(snap, mode, nsLists, topicLists, quiet, rx).error.BadPattern?
  {
    var names := SelectNames(Hush(snap.nnNodes, quiet), nsLists, rx);
    assert names.Err?;
    assert Pick(snap, mode, nsLists, topicLists, quiet, rx) == Err(names.error);
  }

  /** Lines 202-227: the per-mode part of `Choose`. */
  function Pick(snap: Snapshot, mode: GraphMode, nsLists: FilterLists, topicLists: FilterLists,
                quiet: bool, rx: Regex): (r: Result<Selection>)
    ensures r == Err(UnboundEdges) <==> mode == UnknownMode
    ensures r.Err? && mode != UnknownMode ==>
              BlamesFilter(r.error, nsLists, rx) || BlamesFilter(r.error, topicLists, rx)
    ensures mode != UnknownMode && ListsWellFormed(nsLists, rx) && ListsWellFormed(topicLists, rx) ==> r.Ok?
    ensures r.Ok? ==> forall n :: n in r.value.nn <==>
              n in snap.nnNodes && !(quiet && n in QuietNames) && Admits(nsLists, n, rx)
    ensures r.Ok? && mode == NodeNode ==> r.value.nt == []
    ensures r.Ok? && mode != NodeNode ==> forall n :: n in r.value.nt <==>
              n in snap.ntNodes && !(quiet && n in QuietNames) && Admits(topicLists, n, rx)
    ensures r.Ok? ==> forall e :: e in r.value.edges <==>
              e in SourceEdges(snap, mode) && (mode == NodeNode ==> Admits(topicLists, e.caption, rx))
    ensures r.Ok? ==> IsSubsequence(r.value.edges, SourceEdges(snap, mode))
    ensures r.Ok? ==> IsSubsequence(r.value.nn, snap.nnNodes)
    ensures r.Ok? && mode != NodeNode ==> IsSubsequence(r.value.nt, snap.ntNodes)
  {
    match mode
    case NodeNode =>
      var nn :- SelectNames(Hush(snap.nnNodes, quiet), nsLists, rx);
      SubsequenceTransitive(nn, Hush(snap.nnNodes, quiet), snap.nnNodes);
      var edges :- SelectCaptions(snap.nnEdges, topicLists, rx);
      Ok(Selection(nn, [], edges))
    case NodeTopic =>
      var nn :- SelectNames(Hush(snap.nnNodes, quiet), nsLists, rx);
      SubsequenceTransitive(nn, Hush(snap.nnNodes, quiet), snap.nnNodes);
      var nt :- SelectNames(Hush(snap.ntNodes, quiet), topicLists, rx);
      SubsequenceTransitive(nt, Hush(snap.ntNodes, quiet), snap.ntNodes);
      SubsequenceReflexive(snap.ntEdges);
      Ok(Selection(nn, nt, snap.ntEdges))
    case NodeTopicAll =>
      var nn :- SelectNames(Hush(snap.nnNodes, quiet), nsLists, rx);
      SubsequenceTransitive(nn, Hush(snap.nnNodes, quiet), snap.nnNodes);
      var nt :- SelectNames(Hush(snap.ntNodes, quiet), topicLists, rx);
      SubsequenceTransitive(nt, Hush(snap.ntNodes, quiet), snap.ntNodes);
      SubsequenceReflexive(snap.ntAllEdges);
      Ok(Selection(nn, nt, snap.ntAllEdges))
    case UnknownMode =>
      Err(UnboundEdges)
  }
}
