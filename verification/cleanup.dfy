/** The last pass before drawing (rosgui_rosgraph/lib/dotcode.py:299-312):
    edges are checked once more against the stripped names of the nodes that
    are left, and topics that no remaining edge touches are dropped. */
module Cleanup {
  import opened Results
  import opened Seqs
  import opened Text
  import opened Graph

  /** Both ends of `e`, stripped, are among `names`. */
  predicate Anchored(e: Edge, names: seq<string>) {
    Strip(e.start) in names && Strip(e.end) in names
  }

  function AnchoredIn(names: seq<string>): Edge -> bool {
    (e: Edge) => Anchored(e, names)
  }

  /** `e` touches the topic `n`: one of its ends strips to `n`'s stripped name. */
  predicate Touches(e: Edge, n: Name) {
    Strip(e.start) == Strip(n) || Strip(e.end) == Strip(n)
  }

  /** The inner loop of lines 304-308: whether some edge touches `n`; the
      search stops at the first such edge. */
  function Kept(edges: seq<Edge>, n: Name): (keep: bool)
    ensures keep <==> exists e :: e in edges && Touches(e, n)
    decreases |edges|
  {
    if edges == [] then false
    else if Touches(edges[0], n) then assert edges[0] in edges; true
    else
      HeadOrTail(edges);
      Kept(edges[1..], n)
  }

  function KeptBy(edges: seq<Edge>): Name -> bool {
    n => Kept(edges, n)
  }

  function Orphaned(edges: seq<Edge>): Name -> bool {
    n => !Kept(edges, n)
  }

  /** The node names, edges and topic nodes the graph is drawn from. */
  datatype Settled = Settled(names: seq<string>, edges: seq<Edge>, topics: seq<Name>)

  /** Lines 299-312: compute `nodenames` from the process and topic nodes,
      keep the edges whose stripped ends are among them, then collect the
      topics no kept edge touches and remove them one by one. The removals
      never raise, and `nodenames` is not recomputed afterwards. */
  function Settle(nn: seq<Name>, nt: seq<Name>, edges: seq<Edge>): (r: Settled)
    ensures forall x :: x in r.names <==> exists n :: (n in nn || n in nt) && Strip(n) == x
    ensures forall e :: e in r.edges <==> e in edges && Anchored(e, r.names)
    ensures IsSubsequence(r.edges, edges)
    ensures r.edges == Filter(edges, AnchoredIn(r.names))
    ensures r.topics == Filter(nt, KeptBy(r.edges))
    ensures forall n :: n in r.topics <==> n in nt && exists e :: e in r.edges && Touches(e, n)
    ensures IsSubsequence(r.topics, nt)
  {
    var names := StripAll(nn) + StripAll(nt);
    var kept := Filter(edges, AnchoredIn(names));
    var orphans := Filter(nt, Orphaned(kept));
    RemoveFiltered(nt, Orphaned(kept), KeptBy(kept));
    var topics := RemoveEach(nt, orphans);
    forall x ensures x in names <==> exists n :: (n in nn || n in nt) && Strip(n) == x {
      StripAllMembers(nn, x);
      StripAllMembers(nt, x);
    }
    Settled(names, kept, topics.value)
  }

  /** Every end of a kept edge is, stripped, the stripped name of a process
      node or of a topic node that survived: no edge points at a removed
      topic. */
  lemma EdgesReferToNodes(nn: seq<Name>, nt: seq<Name>, edges: seq<Edge>)
    ensures var r := Settle(nn, nt, edges);
            forall e, x :: e in r.edges && (x == e.start || x == e.end) ==>
              exists n :: (n in nn || n in r.topics) && Strip(n) == Strip(x)
  {
    var r := Settle(nn, nt, edges);
    forall e, x | e in r.edges && (x == e.start || x == e.end)
      ensures exists n :: (n in nn || n in r.topics) && Strip(n) == Strip(x)
    {
      assert Strip(x) in r.names;
      var n :| (n in nn || n in nt) && Strip(n) == Strip(x);
      if n !in nn {
        assert Touches(e, n);
        assert n in r.topics;
      }
    }
  }

  /** Running the pass again on its own output changes nothing. */
  lemma SettleIdempotent(nn: seq<Name>, nt: seq<Name>, edges: seq<Edge>)
    ensures var r := Settle(nn, nt, edges);
            var s := Settle(nn, r.topics, r.edges);
            s.edges == r.edges && s.topics == r.topics
  {
    var r := Settle(nn, nt, edges);
    var s := Settle(nn, r.topics, r.edges);
    EdgesReferToNodes(nn, nt, edges);
    forall e | e in r.edges ensures Anchored(e, s.names) {
      assert exists n :: (n in nn || n in r.topics) && Strip(n) == Strip(e.start);
      assert exists n :: (n in nn || n in r.topics) && Strip(n) == Strip(e.end);
    }
    FilterAll(r.edges, AnchoredIn(s.names));
    assert s.edges == r.edges;
    forall n | n in r.topics ensures Kept(s.edges, n) {
      var e :| e in r.edges && Touches(e, n);
    }
    FilterNone(r.topics, Orphaned(s.edges));
    RemoveFiltered(r.topics, Orphaned(s.edges), KeptBy(s.edges));
    FilterAll(r.topics, KeptBy(s.edges));
  }
}
