/** Hiding dead-end and single-connection topics
    (rosgui_rosgraph/lib/dotcode.py:247-267): one pass over the topic nodes
    that judges every topic by the connection map built before any removal. */
module Pruning {
  import opened Results
  import opened Seqs
  import opened Graph
  import opened Connections

  /** The removal test of lines 251-260: fewer than two incident edges when
      single-connection topics are hidden, no outgoing edge when dead ends are. */
  predicate Doomed(l: Links, hideSingle: bool, hideDeadEnd: bool) {
    || (hideSingle && |l.outgoing| + |l.incoming| < 2)
    || (hideDeadEnd && |l.outgoing| == 0)
  }

  /** A topic the pass removes: it has an entry in the map and fails the test. */
  predicate Condemned(conn: ConnectionMap, hideSingle: bool, hideDeadEnd: bool, n: Name) {
    n in conn && Doomed(conn[n], hideSingle, hideDeadEnd)
  }

  function Condemns(conn: ConnectionMap, hideSingle: bool, hideDeadEnd: bool): Name -> bool {
    n => Condemned(conn, hideSingle, hideDeadEnd, n)
  }

  function Spares(conn: ConnectionMap, hideSingle: bool, hideDeadEnd: bool): Name -> bool {
    n => !Condemned(conn, hideSingle, hideDeadEnd, n)
  }

  /** The state of the loop: the topics queued for removal and the edge list. */
  datatype Sweep = Sweep(removal: seq<Name>, edges: seq<Edge>)

  /** The loop of lines 249-264 over `topics`: a condemned topic is queued and
      each of its incident edges still in the list is removed once. */
  function Scan(topics: seq<Name>, conn: ConnectionMap, hideSingle: bool, hideDeadEnd: bool,
                edges: seq<Edge>): (r: Sweep)
    ensures r.removal == Filter(topics, Condemns(conn, hideSingle, hideDeadEnd))
    ensures IsSubsequence(r.edges, edges)
    decreases |topics|
  {
    if topics == [] then SubsequenceReflexive(edges); Sweep([], edges)
    else
      var n := topics[0];
      if Condemned(conn, hideSingle, hideDeadEnd, n) then
        var cut := RemovePresent(edges, conn[n].outgoing + conn[n].incoming);
        var rest := Scan(topics[1..], conn, hideSingle, hideDeadEnd, cut);
        SubsequenceTransitive(rest.edges, cut, edges);
        Sweep([n] + rest.removal, rest.edges)
      else
        Scan(topics[1..], conn, hideSingle, hideDeadEnd, edges)
  }

  /** The topic and edge lists after the pass. */
  datatype Pruned = Pruned(topics: seq<Name>, edges: seq<Edge>)

  /** Lines 247-267: scan, then remove the queued topics from the topic list.
      The removals never raise, and the surviving topics are those the test
      spares, in their order; a topic without an entry in the map is never
      removed. */
  function Prune(topics: seq<Name>, conn: ConnectionMap, hideSingle: bool, hideDeadEnd: bool,
                 edges: seq<Edge>): (r: Pruned)
    ensures forall n :: n in r.topics <==> n in topics && !Condemned(conn, hideSingle, hideDeadEnd, n)
    ensures r.topics == Filter(topics, Spares(conn, hideSingle, hideDeadEnd))
    ensures IsSubsequence(r.edges, edges)
  {
    var sweep := Scan(topics, conn, hideSingle, hideDeadEnd, edges);
    RemoveFiltered(topics, Condemns(conn, hideSingle, hideDeadEnd), Spares(conn, hideSingle, hideDeadEnd));
    var remaining := RemoveEach(topics, sweep.removal);
    Pruned(remaining.value, sweep.edges)
  }

  /** A topic of `topics` that the pass condemns. */
  predicate CondemnedIn(topics: seq<Name>, conn: ConnectionMap, hideSingle: bool, hideDeadEnd: bool, n: Name) {
    n in topics && Condemned(conn, hideSingle, hideDeadEnd, n)
  }

  /** Removing the listed incident edges of `n` from a list drawn from the
      edges the map was built from takes out exactly the edges touching `n`. */
  lemma CutIncident(all: seq<Edge>, cur: seq<Edge>, n: Name)
    requires multiset(cur) <= multiset(all)
    ensures var cut := RemovePresent(cur, Filter(all, StartsAt(n)) + Filter(all, EndsAt(n)));
            && multiset(cut) <= multiset(all)
            && forall e :: e in cut <==> e in cur && e.start != n && e.end != n
  {
    forall e ensures var cut := RemovePresent(cur, Filter(all, StartsAt(n)) + Filter(all, EndsAt(n)));
                     e in cut <==> e in cur && e.start != n && e.end != n {
      CutIncidentAt(all, cur, n, e);
    }
  }

  lemma CutIncidentAt(all: seq<Edge>, cur: seq<Edge>, n: Name, e: Edge)
    requires multiset(cur) <= multiset(all)
    ensures var cut := RemovePresent(cur, Filter(all, StartsAt(n)) + Filter(all, EndsAt(n)));
            e in cut <==> e in cur && e.start != n && e.end != n
  {
    var out, inc := Filter(all, StartsAt(n)), Filter(all, EndsAt(n));
    var xs := out + inc;
    var cut := RemovePresent(cur, xs);
    FilterCount(all, StartsAt(n), e);
    FilterCount(all, EndsAt(n), e);
    assert multiset(xs)[e] == multiset(out)[e] + multiset(inc)[e];
    assert multiset(cur)[e] <= multiset(all)[e];
    assert multiset(cut)[e] == if multiset(cur)[e] <= multiset(xs)[e] then 0 else multiset(cur)[e] - multiset(xs)[e];
  }

  /** The entries of `conn` list the edges of `all` that start and end at
      their node, as the map built from `all` does. */
  ghost predicate ListsIncident(conn: ConnectionMap, all: seq<Edge>) {
    forall n :: n in conn ==> conn[n] == Links(Filter(all, StartsAt(n)), Filter(all, EndsAt(n)))
  }

  /** The edges the scan leaves are those of the input list with neither end
      condemned among the scanned topics. */
  lemma {:induction false} ScanEdges(topics: seq<Name>, conn: ConnectionMap, all: seq<Edge>,
                                     hideSingle: bool, hideDeadEnd: bool, cur: seq<Edge>)
    requires ListsIncident(conn, all)
    requires multiset(cur) <= multiset(all)
    ensures forall e :: e in Scan(topics, conn, hideSingle, hideDeadEnd, cur).edges <==>
              && e in cur
              && !CondemnedIn(topics, conn, hideSingle, hideDeadEnd, e.start)
              && !CondemnedIn(topics, conn, hideSingle, hideDeadEnd, e.end)
    decreases |topics|
  {
    if topics != [] {
      var n, rest := topics[0], topics[1..];
      assert forall x :: x in topics <==> x == n || x in rest by {
        assert topics == [n] + rest;
      }
      var r := Scan(topics, conn, hideSingle, hideDeadEnd, cur);
      if Condemned(conn, hideSingle, hideDeadEnd, n) {
        var cut := RemovePresent(cur, conn[n].outgoing + conn[n].incoming);
        CutIncident(all, cur, n);
        ScanEdges(rest, conn, all, hideSingle, hideDeadEnd, cut);
        assert r.edges == Scan(rest, conn, hideSingle, hideDeadEnd, cut).edges;
        forall x ensures CondemnedIn(topics, conn, hideSingle, hideDeadEnd, x) <==>
                         x == n || CondemnedIn(rest, conn, hideSingle, hideDeadEnd, x) {
        }
      } else {
        ScanEdges(rest, conn, all, hideSingle, hideDeadEnd, cur);
        assert r.edges == Scan(rest, conn, hideSingle, hideDeadEnd, cur).edges;
        forall x ensures CondemnedIn(topics, conn, hideSingle, hideDeadEnd, x) <==>
                         CondemnedIn(rest, conn, hideSingle, hideDeadEnd, x) {
        }
      }
    }
  }

  /** All incident edges of a removed topic go, and no other edge does. */
  lemma PruneEdges(topics: seq<Name>, hideSingle: bool, hideDeadEnd: bool, edges: seq<Edge>)
    ensures forall e :: e in Prune(topics, Connect(edges), hideSingle, hideDeadEnd, edges).edges <==>
              && e in edges
              && !CondemnedIn(topics, Connect(edges), hideSingle, hideDeadEnd, e.start)
              && !CondemnedIn(topics, Connect(edges), hideSingle, hideDeadEnd, e.end)
  {
    ScanEdges(topics, Connect(edges), edges, hideSingle, hideDeadEnd, edges);
  }

  /** With dead ends hidden, a topic with an outgoing edge stays even when the
      only topic it feeds is removed and it is left with no outgoing edge: the
      pass does not cascade. */
  lemma NoCascade(t: Name, a: Name, b: Name, c: string)
    requires t != a && t != b && a != b
    ensures var e1, e2 := Edge(t, a, c), Edge(a, b, c);
            var r := Prune([a, b], Connect([e1, e2]), false, true, [e1, e2]);
            && r.topics == [a]
            && r.edges == [e1]
            && forall e :: e in r.edges ==> e.start != a
  {
    var e1, e2 := Edge(t, a, c), Edge(a, b, c);
    var edges := [e1, e2];
    var conn := Connect(edges);
    ChainLinks(t, a, b, c);
    ChainTopics(conn, a, b, edges);
    var r := Prune([a, b], conn, false, true, edges);
    PruneEdges([a, b], false, true, edges);
    assert e1 in r.edges && e2 !in r.edges;
    OnlyFirst(r.edges, e1, e2);
  }

  /** In the map of the chain `t -> a -> b`, `a` has one outgoing edge and
      `b` none. */
  lemma ChainLinks(t: Name, a: Name, b: Name, c: string)
    requires t != a && t != b && a != b
    ensures var conn := Connect([Edge(t, a, c), Edge(a, b, c)]);
            && a in conn && b in conn && conn[a].outgoing == [Edge(a, b, c)] && conn[b].outgoing == []
  {
    var e1, e2 := Edge(t, a, c), Edge(a, b, c);
    var edges := [e1, e2];
    var conn := Connect(edges);
    assert e2 in edges;
    assert a in conn && b in conn;
    assert edges[1..] == [e2] && [e2][1..] == [];
    assert Filter(edges, StartsAt(a)) == [e2];
    assert Filter(edges, StartsAt(b)) == [];
  }

  /** The pass keeps `a` and drops `b` when only `b` is condemned. */
  lemma ChainTopics(conn: ConnectionMap, a: Name, b: Name, edges: seq<Edge>)
    requires !Condemned(conn, false, true, a)
    requires Condemned(conn, false, true, b)
    ensures Prune([a, b], conn, false, true, edges).topics == [a]
  {
    var topics := [a, b];
    assert topics[1..] == [b] && [b][1..] == [];
    assert Filter(topics, Spares(conn, false, true)) == [a] + Filter([b], Spares(conn, false, true));
  }

  lemma OnlyFirst(r: seq<Edge>, e1: Edge, e2: Edge)
    requires IsSubsequence(r, [e1, e2])
    requires e1 in r && e2 !in r
    ensures r == [e1]
  {
    assert [e1, e2][1..] == [e2];
    if IsSubsequence(r, [e2]) {
      SubsequenceMembers(r, [e2]);
    } else {
      SubsequenceOfOne(r[1..], e2);
      assert r == [r[0]] + r[1..];
    }
  }

  lemma SubsequenceOfOne(a: seq<Edge>, x: Edge)
    requires IsSubsequence(a, [x])
    ensures a == [] || a == [x]
  {
    assert [x][1..] == [];
    if !IsSubsequence(a, []) {
      assert a == [a[0]] + a[1..];
    }
  }
}
