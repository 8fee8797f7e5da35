/** The connection map `node_connections` (rosgui_rosgraph/lib/dotcode.py:238-245):
    for every end of an edge, its outgoing and its incoming edges. */
module Connections {
  import opened Seqs
  import opened Graph

  /** The `{'outgoing': [...], 'incoming': [...]}` entry of one node. */
  datatype Links = Links(outgoing: seq<Edge>, incoming: seq<Edge>)

  type ConnectionMap = map<Name, Links>

  function StartsAt(n: Name): Edge -> bool {
    (e: Edge) => e.start == n
  }

  function EndsAt(n: Name): Edge -> bool {
    (e: Edge) => e.end == n
  }

  /** `n` is an end of some edge of `edges`. */
  ghost predicate Touched(edges: seq<Edge>, n: Name) {
    exists e :: e in edges && (e.start == n || e.end == n)
  }

  /** What the map built from `edges` holds: an entry for exactly the ends of
      the edges, listing each node's outgoing and incoming edges in order. */
  ghost predicate Describes(m: ConnectionMap, edges: seq<Edge>) {
    && (forall n :: n in m <==> Touched(edges, n))
    && (forall n :: n in m ==> m[n].outgoing == Filter(edges, StartsAt(n)) && m[n].incoming == Filter(edges, EndsAt(n)))
  }

  /** One round of the loop: create missing entries for both ends, then append
      the edge to the start's outgoing and to the end's incoming list. */
  function Record(m: ConnectionMap, e: Edge): ConnectionMap {
    var m1 := if e.start in m then m else m[e.start := Links([], [])];
    var m2 := if e.end in m1 then m1 else m1[e.end := Links([], [])];
    var m3 := m2[e.start := m2[e.start].(outgoing := m2[e.start].outgoing + [e])];
    m3[e.end := m3[e.end].(incoming := m3[e.end].incoming + [e])]
  }

  /** The connection map of `edges`, built edge by edge. */
  function Connect(edges: seq<Edge>): (m: ConnectionMap)
    ensures Describes(m, edges)
    decreases |edges|
  {
    if edges == [] then map[]
    else
      var front := edges[..|edges| - 1];
      var e := edges[|edges| - 1];
      assert edges == front + [e];
      var m := Connect(front);
      RecordExtends(m, front, e);
      Record(m, e)
  }

  lemma RecordExtends(m: ConnectionMap, edges: seq<Edge>, e: Edge)
    requires Describes(m, edges)
    ensures Describes(Record(m, e), edges + [e])
  {
    var r := Record(m, e);
    var s := edges + [e];
    forall n ensures n in r <==> Touched(s, n) {
      if Touched(edges, n) {
        var x :| x in edges && (x.start == n || x.end == n);
        assert x in s;
      }
      if n == e.start || n == e.end {
        assert e in s;
      }
    }
    forall n | n in r
      ensures r[n].outgoing == Filter(s, StartsAt(n))
      ensures r[n].incoming == Filter(s, EndsAt(n))
    {
      FilterSnoc(edges, e, StartsAt(n));
      FilterSnoc(edges, e, EndsAt(n));
      if n !in m {
        forall x | x in edges ensures !StartsAt(n)(x) && !EndsAt(n)(x) {
          assert !Touched(edges, n);
        }
        FilterNone(edges, StartsAt(n));
        FilterNone(edges, EndsAt(n));
      }
    }
  }

  /** An edge of the list appears in its start's outgoing and its end's
      incoming list, and an entry lists only edges that start (or end) there. */
  lemma ConnectLinks(edges: seq<Edge>, e: Edge, n: Name)
    requires n in Connect(edges)
    ensures e in Connect(edges)[n].outgoing <==> e in edges && e.start == n
    ensures e in Connect(edges)[n].incoming <==> e in edges && e.end == n
  {
  }
}
