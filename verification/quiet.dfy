/** Quiet mode (rosgui_rosgraph/lib/dotcode.py:48, 104-115): a fixed list of
    noisy peers and channels is hidden. */
module Quiet {
  import opened Text
  import opened Seqs
  import opened Graph

  const QuietNames: seq<string> := ["/diag_agg", "/runtime_logger", "/pr2_dashboard", "/rviz", "/rosout",
                                    "/cpu_monitor", "/monitor", "/hd_monitor", "/rxloggerlevel", "/clock"]

  const QuietLabels: seq<string> := ["/time", "/clock", "/rosout"]

  /** `_quiet_filter`: a name passes unless some quiet name occurs in it. */
  predicate PassesQuiet(name: string) {
    forall i :: 0 <= i < |QuietNames| ==> !Contains(name, QuietNames[i])
  }

  /** `_quiet_filter_edge`: an edge passes unless its label is a quiet label
      or one of its ends fails `PassesQuiet`. */
  predicate QuietKeepsEdge(e: Edge) {
    e.caption !in QuietLabels && PassesQuiet(e.start) && PassesQuiet(e.end)
  }

  /** The quiet test on nodes (dotcode.py:207, 217-218) is exact membership. */
  function DropQuietNodes(names: seq<Name>): (r: seq<Name>)
    ensures forall n :: n in r <==> n in names && n !in QuietNames
    ensures IsSubsequence(r, names)
  {
    Filter(names, n => n !in QuietNames)
  }

  /** The quiet test on edges (dotcode.py:229-230). */
  function DropQuietEdges(edges: seq<Edge>): (r: seq<Edge>)
    ensures forall e :: e in r <==> e in edges && QuietKeepsEdge(e)
    ensures IsSubsequence(r, edges)
  {
    Filter(edges, QuietKeepsEdge)
  }

  /** `needle` occurs somewhere in `hay`. */
  ghost predicate OccursIn(hay: string, needle: string) {
    exists i :: SliceAt(hay, needle, i)
  }

  /** The edge test is by substring, unlike the node test: an edge is dropped
      when its label is `/time`, `/clock` or `/rosout`, or when a quiet name
      occurs anywhere inside either end. */
  lemma QuietEdgeBySubstring(e: Edge)
    ensures QuietKeepsEdge(e) <==>
              && e.caption != "/time" && e.caption != "/clock" && e.caption != "/rosout"
              && (forall q :: q in QuietNames ==> !OccursIn(e.start, q) && !OccursIn(e.end, q))
  {
    forall q | q in QuietNames
      ensures Contains(e.start, q) <==> OccursIn(e.start, q)
      ensures Contains(e.end, q) <==> OccursIn(e.end, q)
    {
      ContainsAt(e.start, q);
      ContainsAt(e.end, q);
    }
  }

  /** `/rosout_agg` survives the node filter but its edges do not, and a topic
      node ` /rosout` (with the graph library's leading space) is not a quiet
      name at all. */
  lemma QuietNodesExactEdgesBySubstring()
    ensures DropQuietNodes(["/rosout", "/rosout_agg", " /rosout"]) == ["/rosout_agg", " /rosout"]
    ensures DropQuietEdges([Edge("/rosout_agg", "/talker", "/chatter")]) == []
  {
    assert "/rosout_agg" !in QuietNames;
    assert " /rosout" !in QuietNames;
    var q := "/rosout";
    assert q == QuietNames[4];
    assert Contains("/rosout_agg", q) by {
      assert "/rosout_agg"[..|q|] == q;
    }
    assert !QuietKeepsEdge(Edge("/rosout_agg", "/talker", "/chatter"));
  }
}
