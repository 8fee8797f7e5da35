/** Collapsing action topics (rosgui_rosgraph/lib/dotcode.py:269-297): the
    five topics `p/status`, `p/result`, `p/goal`, `p/cancel` and `p/feedback`
    of one action are replaced by a group recorded under the prefix `p`. */
module Actions {
  import opened Results
  import opened Seqs
  import opened Text
  import opened Graph
  import opened Connections

  const ActionSuffixes: seq<string> := ["/status", "/result", "/goal", "/cancel", "/feedback"]

  /** A topic whose name ends in `/feedback` starts a search. */
  predicate IsFeedback(n: Name) {
    EndsWith(n, "/feedback")
  }

  /** `str(n)[:-len('/feedback')].strip()`; Python's slice of a name shorter
      than nine characters is empty. */
  function ActionPrefix(n: Name): string {
    Strip(if |n| >= 9 then n[..|n| - 9] else "")
  }

  /** A clean prefix followed by `/feedback` starts a search for exactly
      that prefix. */
  lemma FeedbackPrefix(p: string)
    requires Strip(p) == p
    ensures IsFeedback(p + "/feedback") && ActionPrefix(p + "/feedback") == p
  {
    var n := p + "/feedback";
    assert n[|n| - 9..] == "/feedback";
    assert n[..|n| - 9] == p;
  }

  function StripsTo(target: string): Name -> bool {
    n => Strip(n) == target
  }

  /** `n`'s stripped name is `prefix` followed by one of `suffixes`. */
  predicate SiblingOf(n: Name, prefix: string, suffixes: seq<string>) {
    exists i :: 0 <= i < |suffixes| && Strip(n) == prefix + suffixes[i]
  }

  /** The nested loops of lines 278-283: for each suffix in turn, every topic
      whose stripped name is the prefix followed by that suffix. */
  function Siblings(topics: seq<Name>, prefix: string, suffixes: seq<string>): (r: seq<Name>)
    ensures forall n :: n in r <==> n in topics && SiblingOf(n, prefix, suffixes)
    decreases |suffixes|
  {
    if suffixes == [] then []
    else
      var r := Filter(topics, StripsTo(prefix + suffixes[0])) + Siblings(topics, prefix, suffixes[1..]);
      assert forall n :: SiblingOf(n, prefix, suffixes) <==>
                         Strip(n) == prefix + suffixes[0] || SiblingOf(n, prefix, suffixes[1..]) by {
        forall n ensures SiblingOf(n, prefix, suffixes) <==>
                         Strip(n) == prefix + suffixes[0] || SiblingOf(n, prefix, suffixes[1..]) {
          if SiblingOf(n, prefix, suffixes) {
            var i :| 0 <= i < |suffixes| && Strip(n) == prefix + suffixes[i];
            if i > 0 {
              assert suffixes[1..][i - 1] == suffixes[i];
            }
          }
          if SiblingOf(n, prefix, suffixes[1..]) {
            var i :| 0 <= i < |suffixes[1..]| && Strip(n) == prefix + suffixes[1..][i];
            assert suffixes[i + 1] == suffixes[1..][i];
          }
        }
      }
      r
  }

  /** `action_topic_nodes` for a prefix. */
  function Members(topics: seq<Name>, prefix: string): seq<Name> {
    Siblings(topics, prefix, ActionSuffixes)
  }

  /** One side of an entry of the connection map. */
  function Side(l: Links, outgoing: bool): seq<Edge> {
    if outgoing then l.outgoing else l.incoming
  }

  /** `action_topic_edges_out` (or `_in`): the union of the outgoing (or
      incoming) edges of the members that have an entry in the map, each edge
      once. */
  function Gather(conn: ConnectionMap, members: seq<Name>, outgoing: bool, acc: seq<Edge>): (r: seq<Edge>)
    ensures forall e :: e in r <==> e in acc || exists m :: m in members && m in conn && e in Side(conn[m], outgoing)
    ensures Distinct(acc) ==> Distinct(r)
    decreases |members|
  {
    if members == [] then acc
    else
      var m := members[0];
      var acc' := if m in conn then AddNew(acc, Side(conn[m], outgoing)) else acc;
      var r := Gather(conn, members[1..], outgoing, acc');
      assert forall x :: x in members <==> x == m || x in members[1..] by {
        assert members == [m] + members[1..];
      }
      r
  }

  /** What `action_nodes[prefix]` records. */
  datatype ActionGroup = ActionGroup(prefix: string, topics: seq<Name>, outgoing: seq<Edge>, incoming: seq<Edge>)

  /** The group the search for `prefix` builds. */
  function GroupOf(topics: seq<Name>, conn: ConnectionMap, prefix: string): ActionGroup {
    var members := Members(topics, prefix);
    ActionGroup(prefix, members, Gather(conn, members, true, []), Gather(conn, members, false, []))
  }

  function Keys(groups: seq<ActionGroup>): set<string> {
    set g | g in groups :: g.prefix
  }

  /** No prefix is recorded twice, as in a dictionary. */
  predicate UniqueKeys(groups: seq<ActionGroup>) {
    forall i, j :: 0 <= i < j < |groups| ==> groups[i].prefix != groups[j].prefix
  }

  /** `action_nodes[g.prefix] = g`: replaces the entry of the same prefix in
      place, or appends a new one. */
  function Put(groups: seq<ActionGroup>, g: ActionGroup): (r: seq<ActionGroup>)
    ensures Keys(r) == Keys(groups) + {g.prefix}
    ensures g in r
    ensures forall h :: h in r ==> h == g || h in groups
    decreases |groups|
  {
    if groups == [] then
      KeysCons(g, []);
      [g]
    else
      var tail := groups[1..];
      KeysSplit(groups);
      HeadOrTail(groups);
      if groups[0].prefix == g.prefix then
        KeysCons(g, tail);
        [g] + tail
      else
        var rest := Put(tail, g);
        KeysCons(groups[0], rest);
        [groups[0]] + rest
  }

  lemma KeysCons(h: ActionGroup, rest: seq<ActionGroup>)
    ensures Keys([h] + rest) == {h.prefix} + Keys(rest)
  {
    var r := [h] + rest;
    assert forall x :: x in r <==> x == h || x in rest;
  }

  lemma KeysSplit(groups: seq<ActionGroup>)
    requires groups != []
    ensures Keys(groups) == {groups[0].prefix} + Keys(groups[1..])
  {
    assert groups == [groups[0]] + groups[1..];
    KeysCons(groups[0], groups[1..]);
  }

  /** Like a dictionary, `Put` never records a prefix twice. */
  lemma {:induction false} PutUnique(groups: seq<ActionGroup>, g: ActionGroup)
    requires UniqueKeys(groups)
    ensures UniqueKeys(Put(groups, g))
    decreases |groups|
  {
    if groups != [] {
      var tail := groups[1..];
      UniqueSplit(groups);
      if groups[0].prefix == g.prefix {
        UniqueCons(g, tail);
      } else {
        PutUnique(tail, g);
        UniqueCons(groups[0], Put(tail, g));
      }
    }
  }

  lemma UniqueSplit(groups: seq<ActionGroup>)
    requires groups != [] && UniqueKeys(groups)
    ensures UniqueKeys(groups[1..])
    ensures forall h :: h in groups[1..] ==> h.prefix != groups[0].prefix
  {
    var tail := groups[1..];
    forall i, j | 0 <= i < j < |tail| ensures tail[i].prefix != tail[j].prefix {
      assert tail[i] == groups[i + 1] && tail[j] == groups[j + 1];
    }
    forall h | h in tail ensures h.prefix != groups[0].prefix {
      var k :| 0 <= k < |tail| && tail[k] == h;
      assert groups[k + 1] == h;
    }
  }

  lemma UniqueCons(h: ActionGroup, rest: seq<ActionGroup>)
    requires UniqueKeys(rest)
    requires forall x :: x in rest ==> x.prefix != h.prefix
    ensures UniqueKeys([h] + rest)
  {
    var r := [h] + rest;
    forall i, j | 0 <= i < j < |r| ensures r[i].prefix != r[j].prefix {
      assert r[j] == rest[j - 1];
      if i == 0 {
        assert r[j] in rest;
      } else {
        assert r[i] == rest[i - 1];
      }
    }
  }

  /** A `/feedback` topic whose search finds five topics. */
  predicate Fires(topics: seq<Name>, n: Name) {
    IsFeedback(n) && |Members(topics, ActionPrefix(n))| == 5
  }

  /** The state of the loop of lines 271-295: the topics queued for removal,
      the edge list and `action_nodes`. */
  datatype Tally = Tally(removal: seq<Name>, edges: seq<Edge>, groups: seq<ActionGroup>)

  /** An edge recorded by a group. */
  predicate InGroup(e: Edge, g: ActionGroup) {
    e in g.outgoing || e in g.incoming
  }

  /** Lines 273-295 for the topic `n`: when the search for its prefix finds
      five topics, queue them, remove their recorded edges from the edge list
      and record the group. */
  function Visit(topics: seq<Name>, conn: ConnectionMap, acc: Tally, n: Name): (r: Tally)
    ensures IsSubsequence(r.edges, acc.edges)
  {
    if Fires(topics, n) then
      var g := GroupOf(topics, conn, ActionPrefix(n));
      var cut := RemovePresent(acc.edges, g.outgoing);
      var edges := RemovePresent(cut, g.incoming);
      SubsequenceTransitive(edges, cut, acc.edges);
      Tally(acc.removal + g.topics, edges, Put(acc.groups, g))
    else
      SubsequenceReflexive(acc.edges);
      acc
  }

  /** On an edge list without duplicates, a firing topic removes exactly the
      edges its group records. */
  lemma VisitEdges(topics: seq<Name>, conn: ConnectionMap, acc: Tally, n: Name)
    requires Distinct(acc.edges)
    ensures Distinct(Visit(topics, conn, acc, n).edges)
    ensures forall e :: e in Visit(topics, conn, acc, n).edges <==>
              e in acc.edges && !(Fires(topics, n) && InGroup(e, GroupOf(topics, conn, ActionPrefix(n))))
  {
    if Fires(topics, n) {
      var g := GroupOf(topics, conn, ActionPrefix(n));
      var cut := RemovePresent(acc.edges, g.outgoing);
      RemovePresentDistinct(acc.edges, g.outgoing);
      RemovePresentDistinct(cut, g.incoming);
    }
  }

  /** Without the hypothesis above the removal is per copy: the guarded
      `remove` of lines 287-292 takes out one copy of each recorded edge, so
      an edge listed twice and recorded on one side of a firing group keeps
      one copy. */
  lemma VisitKeepsCopy(topics: seq<Name>, conn: ConnectionMap, acc: Tally, n: Name, e: Edge)
    requires Fires(topics, n)
    requires acc.edges == [e, e]
    requires e in GroupOf(topics, conn, ActionPrefix(n)).outgoing
    requires e !in GroupOf(topics, conn, ActionPrefix(n)).incoming
    ensures Visit(topics, conn, acc, n).edges == [e]
  {
    var g := GroupOf(topics, conn, ActionPrefix(n));
    OneCopyLeft(acc.edges, e, g.outgoing, g.incoming);
  }

  /** The topics one visited topic queues for removal. */
  function Shot(topics: seq<Name>, n: Name): seq<Name> {
    if Fires(topics, n) then Members(topics, ActionPrefix(n)) else []
  }

  function ShotBy(topics: seq<Name>): Name -> seq<Name> {
    n => Shot(topics, n)
  }

  /** The members of the firing topics of `scan`, in order. */
  function Fired(topics: seq<Name>, scan: seq<Name>): seq<Name> {
    FlatMap(ShotBy(topics), scan)
  }

  /** The loop over `scan` (the topic list itself). */
  function Accumulate(topics: seq<Name>, conn: ConnectionMap, scan: seq<Name>, acc: Tally): (r: Tally)
    ensures IsSubsequence(r.edges, acc.edges)
    decreases |scan|
  {
    if scan == [] then SubsequenceReflexive(acc.edges); acc
    else
      var next := Visit(topics, conn, acc, scan[0]);
      var r := Accumulate(topics, conn, scan[1..], next);
      SubsequenceTransitive(r.edges, next.edges, acc.edges);
      r
  }

  /** The loop queues the members of every firing topic, in order. */
  lemma {:induction false} AccumulateRemoval(topics: seq<Name>, conn: ConnectionMap, scan: seq<Name>, acc: Tally)
    ensures Accumulate(topics, conn, scan, acc).removal == acc.removal + Fired(topics, scan)
    decreases |scan|
  {
    if scan != [] {
      var next := Visit(topics, conn, acc, scan[0]);
      AccumulateRemoval(topics, conn, scan[1..], next);
      assert next.removal == acc.removal + Shot(topics, scan[0]);
    }
  }

  /** The groups the loop holds after `n`. */
  lemma VisitGroups(topics: seq<Name>, conn: ConnectionMap, acc: Tally, n: Name)
    ensures Visit(topics, conn, acc, n).groups ==
              if Fires(topics, n) then Put(acc.groups, GroupOf(topics, conn, ActionPrefix(n))) else acc.groups
  {
  }

  /** The loop keeps the prefixes of `action_nodes` unique. */
  lemma {:induction false} AccumulateUnique(topics: seq<Name>, conn: ConnectionMap, scan: seq<Name>, acc: Tally)
    requires UniqueKeys(acc.groups)
    ensures UniqueKeys(Accumulate(topics, conn, scan, acc).groups)
    decreases |scan|
  {
    if scan != [] {
      VisitGroups(topics, conn, acc, scan[0]);
      if Fires(topics, scan[0]) {
        PutUnique(acc.groups, GroupOf(topics, conn, ActionPrefix(scan[0])));
      }
      AccumulateUnique(topics, conn, scan[1..], Visit(topics, conn, acc, scan[0]));
    }
  }

  /** The loop keeps every recorded prefix and records the prefix of every
      firing topic. */
  lemma {:induction false} AccumulateKeys(topics: seq<Name>, conn: ConnectionMap, scan: seq<Name>, acc: Tally)
    ensures Keys(acc.groups) <= Keys(Accumulate(topics, conn, scan, acc).groups)
    ensures forall t :: t in scan && Fires(topics, t) ==> ActionPrefix(t) in Keys(Accumulate(topics, conn, scan, acc).groups)
    decreases |scan|
  {
    if scan != [] {
      var n := scan[0];
      VisitGroups(topics, conn, acc, n);
      AccumulateKeys(topics, conn, scan[1..], Visit(topics, conn, acc, n));
      HeadOrTail(scan);
    }
  }

  /** Every recorded group is the group of a firing topic's prefix. */
  lemma {:induction false} AccumulateOrigin(topics: seq<Name>, conn: ConnectionMap, scan: seq<Name>, acc: Tally)
    ensures forall g :: g in Accumulate(topics, conn, scan, acc).groups ==>
              (g in acc.groups || exists t :: t in scan && Fires(topics, t) && g == GroupOf(topics, conn, ActionPrefix(t)))
    decreases |scan|
  {
    if scan != [] {
      var n := scan[0];
      VisitGroups(topics, conn, acc, n);
      AccumulateOrigin(topics, conn, scan[1..], Visit(topics, conn, acc, n));
      assert forall x :: x in scan[1..] ==> x in scan;
      assert n in scan;
    }
  }

  /** The topic list, edge list and recorded groups after the stage. */
  datatype Collapsed = Collapsed(topics: seq<Name>, edges: seq<Edge>, groups: seq<ActionGroup>)

  /** Lines 269-297: run the loop over the topics, then remove every queued
      topic with `list.remove`, which raises if a topic was queued more often
      than it occurs. Every recorded group holds five topics, was found from
      a `/feedback` topic with its prefix, and no prefix is recorded twice. */
  function Collapse(topics: seq<Name>, conn: ConnectionMap, edges: seq<Edge>): (r: Result<Collapsed>)
    ensures r.Ok? <==> multiset(Fired(topics, topics)) <= multiset(topics)
    ensures r.Err? ==> r.error == NotInList
    ensures r.Ok? ==> multiset(r.value.topics) == multiset(topics) - multiset(Fired(topics, topics))
    ensures r.Ok? ==> IsSubsequence(r.value.topics, topics) && IsSubsequence(r.value.edges, edges)
    ensures r.Ok? ==> UniqueKeys(r.value.groups)
    ensures r.Ok? ==> forall g :: g in r.value.groups ==>
              && |g.topics| == 5
              && (exists t :: t in topics && IsFeedback(t) && ActionPrefix(t) == g.prefix)
              && g == GroupOf(topics, conn, g.prefix)
  {
    var tally := Accumulate(topics, conn, topics, Tally([], edges, []));
    AccumulateUnique(topics, conn, topics, Tally([], edges, []));
    AccumulateOrigin(topics, conn, topics, Tally([], edges, []));
    AccumulateRemoval(topics, conn, topics, Tally([], edges, []));
    assert [] + Fired(topics, topics) == Fired(topics, topics);
    var rest :- RemoveEach(topics, tally.removal);
    Ok(Collapsed(rest, tally.edges, tally.groups))
  }

  /** The five suffixes cannot be confused: a name ends in at most one of
      them, and then its prefix is determined. */
  lemma SuffixesDistinguish(p: string, q: string, i: int, j: int)
    requires 0 <= i < |ActionSuffixes| && 0 <= j < |ActionSuffixes|
    requires p + ActionSuffixes[i] == q + ActionSuffixes[j]
    ensures i == j && p == q
  {
    var s, t := ActionSuffixes[i], ActionSuffixes[j];
    var w := p + s;
    assert w[|w| - 5..] == s[|s| - 5..];
    assert w[|w| - 5..] == t[|t| - 5..];
    assert i == j;
    assert p == w[..|p|];
  }

  /** Searching with pairwise different suffixes finds every topic once. */
  lemma {:induction false} SiblingsDistinct(topics: seq<Name>, prefix: string, suffixes: seq<string>)
    requires Distinct(topics)
    requires forall i, j :: 0 <= i < j < |suffixes| ==> suffixes[i] != suffixes[j]
    ensures Distinct(Siblings(topics, prefix, suffixes))
    decreases |suffixes|
  {
    if suffixes != [] {
      var rest := suffixes[1..];
      var first := Filter(topics, StripsTo(prefix + suffixes[0]));
      assert forall i :: 0 <= i < |rest| ==> rest[i] == suffixes[i + 1];
      SiblingsDistinct(topics, prefix, rest);
      FilterDistinct(topics, StripsTo(prefix + suffixes[0]));
      forall k | 0 <= k < |rest| ensures prefix + rest[k] != prefix + suffixes[0] {
        assert (prefix + rest[k])[|prefix|..] == rest[k];
        assert (prefix + suffixes[0])[|prefix|..] == suffixes[0];
      }
      DistinctConcat(first, Siblings(topics, prefix, rest));
    }
  }

  lemma MembersDistinct(topics: seq<Name>, prefix: string)
    requires Distinct(topics)
    ensures Distinct(Members(topics, prefix))
  {
    SiblingsDistinct(topics, prefix, ActionSuffixes);
  }

  /** The searches for two different prefixes find disjoint sets of topics. */
  lemma MembersDisjoint(topics: seq<Name>, p: string, q: string)
    requires p != q
    ensures forall x :: x in Members(topics, p) ==> x !in Members(topics, q)
  {
    forall x | x in Members(topics, p) ensures !SiblingOf(x, q, ActionSuffixes) {
      var i :| 0 <= i < |ActionSuffixes| && Strip(x) == p + ActionSuffixes[i];
      forall j | 0 <= j < |ActionSuffixes| ensures Strip(x) != q + ActionSuffixes[j] {
        if Strip(x) == q + ActionSuffixes[j] {
          SuffixesDistinguish(p, q, i, j);
        }
      }
    }
  }

  /** No two `/feedback` topics of the list give the same prefix. */
  ghost predicate PrefixesDistinct(s: seq<Name>) {
    forall i, j :: 0 <= i < j < |s| && IsFeedback(s[i]) && IsFeedback(s[j]) ==> ActionPrefix(s[i]) != ActionPrefix(s[j])
  }

  /** A topic of a group some firing topic of `scan` finds. */
  ghost predicate SwallowedBy(topics: seq<Name>, scan: seq<Name>, x: Name) {
    exists t :: t in scan && Fires(topics, t) && x in Members(topics, ActionPrefix(t))
  }

  lemma {:induction false} FiredMembers(topics: seq<Name>, scan: seq<Name>)
    ensures forall x :: x in Fired(topics, scan) <==> SwallowedBy(topics, scan, x)
    decreases |scan|
  {
    if scan != [] {
      FiredMembers(topics, scan[1..]);
      FiredCons(topics, scan);
      HeadOrTail(scan);
    }
  }

  /** The topics found for a prefix no `/feedback` topic of `scan` gives are
      not queued by `scan`. */
  lemma {:induction false} FiredAvoids(topics: seq<Name>, scan: seq<Name>, p: string)
    requires forall t :: t in scan && IsFeedback(t) ==> ActionPrefix(t) != p
    ensures forall x :: x in Members(topics, p) ==> x !in Fired(topics, scan)
    decreases |scan|
  {
    if scan != [] {
      assert scan[0] in scan;
      assert forall t :: t in scan[1..] ==> t in scan;
      FiredAvoids(topics, scan[1..], p);
      if Fires(topics, scan[0]) {
        MembersDisjoint(topics, p, ActionPrefix(scan[0]));
      }
    }
  }

  /** With pairwise different prefixes, no topic is queued twice. */
  lemma {:induction false} FiredDistinct(topics: seq<Name>, scan: seq<Name>)
    requires Distinct(topics) && PrefixesDistinct(scan)
    ensures Distinct(Fired(topics, scan))
    decreases |scan|
  {
    if scan != [] {
      var rest := scan[1..];
      PrefixesTail(scan);
      FiredDistinct(topics, rest);
      FiredCons(topics, scan);
      if Fires(topics, scan[0]) {
        var p := ActionPrefix(scan[0]);
        FiredAvoids(topics, rest, p);
        MembersDistinct(topics, p);
        DistinctConcat(Members(topics, p), Fired(topics, rest));
      } else {
        assert Fired(topics, scan) == [] + Fired(topics, rest);
      }
    }
  }

  lemma PrefixesTail(scan: seq<Name>)
    requires scan != [] && PrefixesDistinct(scan)
    ensures PrefixesDistinct(scan[1..])
    ensures IsFeedback(scan[0]) ==> forall t :: t in scan[1..] && IsFeedback(t) ==> ActionPrefix(t) != ActionPrefix(scan[0])
  {
    var rest := scan[1..];
    forall i, j | 0 <= i < j < |rest| ensures rest[i] == scan[i + 1] && rest[j] == scan[j + 1] {}
    forall t | t in rest && IsFeedback(t) && IsFeedback(scan[0]) ensures ActionPrefix(t) != ActionPrefix(scan[0]) {
      var k :| 0 <= k < |rest| && rest[k] == t;
      assert scan[k + 1] == t;
    }
  }

  /** Every member of a group is a topic. */
  lemma MembersAreTopics(topics: seq<Name>, prefix: string)
    ensures forall x :: x in Members(topics, prefix) ==> x in topics
  {
  }

  /** With distinct topics and prefixes, every queued topic occurs once in
      the topic list, so the removals never raise. */
  lemma FiredWithin(topics: seq<Name>)
    requires Distinct(topics) && PrefixesDistinct(topics)
    ensures Distinct(Fired(topics, topics))
    ensures multiset(Fired(topics, topics)) <= multiset(topics)
  {
    var f := Fired(topics, topics);
    FiredDistinct(topics, topics);
    FiredMembers(topics, topics);
    forall x | x in f ensures x in topics {
      var t :| t in topics && Fires(topics, t) && x in Members(topics, ActionPrefix(t));
      MembersAreTopics(topics, ActionPrefix(t));
    }
    DistinctWithin(f, topics);
  }

  /** With distinct topics and prefixes, the removals never raise and the
      topics left are exactly those no firing topic's search finds. */
  lemma CollapseTopics(topics: seq<Name>, conn: ConnectionMap, edges: seq<Edge>)
    requires Distinct(topics) && PrefixesDistinct(topics)
    ensures Collapse(topics, conn, edges).Ok?
    ensures forall n :: n in Collapse(topics, conn, edges).value.topics <==>
              n in topics && !SwallowedBy(topics, topics, n)
  {
    var f := Fired(topics, topics);
    FiredWithin(topics);
    var r := Collapse(topics, conn, edges);
    DistinctDifference(topics, f, r.value.topics);
    FiredMembers(topics, topics);
  }

  /** On an edge list without duplicates, the loop removes exactly the edges
      recorded by the groups of the firing topics. */
  lemma {:induction false} AccumulateEdges(topics: seq<Name>, conn: ConnectionMap, scan: seq<Name>, acc: Tally)
    requires Distinct(acc.edges)
    ensures Distinct(Accumulate(topics, conn, scan, acc).edges)
    ensures forall e :: e in Accumulate(topics, conn, scan, acc).edges <==>
              e in acc.edges && !(exists t :: t in scan && Fires(topics, t) && InGroup(e, GroupOf(topics, conn, ActionPrefix(t))))
    decreases |scan|
  {
    if scan != [] {
      var n := scan[0];
      VisitEdges(topics, conn, acc, n);
      AccumulateEdges(topics, conn, scan[1..], Visit(topics, conn, acc, n));
      HeadOrTail(scan);
    }
  }

  /** For an edge of the list the map was built from, a group records it
      exactly when one of its ends is among the group's topics. */
  lemma GroupEdges(topics: seq<Name>, all: seq<Edge>, p: string, e: Edge)
    requires e in all
    ensures InGroup(e, GroupOf(topics, Connect(all), p)) <==>
              e.start in Members(topics, p) || e.end in Members(topics, p)
  {
    var conn := Connect(all);
    var members := Members(topics, p);
    assert e.start in conn && e.end in conn;
    forall m | m in members && m in conn
      ensures e in Side(conn[m], true) <==> e.start == m
      ensures e in Side(conn[m], false) <==> e.end == m
    {
      ConnectLinks(all, e, m);
    }
  }

  /** On an edge list without duplicates, the edges left are those of the
      input with neither end in a group that fires. */
  lemma CollapseEdges(topics: seq<Name>, all: seq<Edge>, edges: seq<Edge>)
    requires Distinct(edges)
    requires forall e :: e in edges ==> e in all
    ensures var r := Collapse(topics, Connect(all), edges);
            r.Ok? ==> && Distinct(r.value.edges)
                      && forall e :: e in r.value.edges <==>
                           e in edges && !SwallowedBy(topics, topics, e.start) && !SwallowedBy(topics, topics, e.end)
  {
    var conn := Connect(all);
    var acc := Tally([], edges, []);
    AccumulateEdges(topics, conn, topics, acc);
    forall e, t | e in edges && t in topics && Fires(topics, t)
      ensures InGroup(e, GroupOf(topics, conn, ActionPrefix(t))) <==>
                e.start in Members(topics, ActionPrefix(t)) || e.end in Members(topics, ActionPrefix(t))
    {
      GroupEdges(topics, all, ActionPrefix(t), e);
    }
  }

  /** No two topics strip to the same name. */
  ghost predicate DistinctStripped(topics: seq<Name>) {
    forall i, j :: 0 <= i < j < |topics| ==> Strip(topics[i]) != Strip(topics[j])
  }

  /** All five topics of the action `p` are present. */
  ghost predicate Complete(topics: seq<Name>, p: string) {
    forall i :: 0 <= i < |ActionSuffixes| ==> Found(topics, p + ActionSuffixes[i])
  }

  lemma {:induction false} StrippedDistinct(topics: seq<Name>)
    requires DistinctStripped(topics)
    ensures Distinct(topics)
    decreases |topics|
  {
    if topics != [] {
      var h, rest := topics[0], topics[1..];
      assert DistinctStripped(rest) by {
        forall i, j | 0 <= i < j < |rest| ensures rest[i] == topics[i + 1] && rest[j] == topics[j + 1] {}
      }
      StrippedDistinct(rest);
      assert h !in rest by {
        forall k | 0 <= k < |rest| ensures rest[k] != h {
          assert rest[k] == topics[k + 1];
        }
      }
      assert topics == [h] + rest;
      assert multiset(topics) == multiset{h} + multiset(rest);
    }
  }

  /** A list whose later elements all differ from the head's stripped name. */
  lemma TailOfDistinctStripped(topics: seq<Name>)
    requires topics != [] && DistinctStripped(topics)
    ensures DistinctStripped(topics[1..])
    ensures forall n :: n in topics[1..] ==> Strip(n) != Strip(topics[0])
  {
    var rest := topics[1..];
    forall i, j | 0 <= i < j < |rest| ensures Strip(rest[i]) != Strip(rest[j]) {
      assert rest[i] == topics[i + 1] && rest[j] == topics[j + 1];
    }
    forall n | n in rest ensures Strip(n) != Strip(topics[0]) {
      var k :| 0 <= k < |rest| && rest[k] == n;
      assert topics[k + 1] == n;
    }
  }

  /** With distinct stripped names, at most one topic strips to a name. */
  lemma {:induction false} StripsToOne(topics: seq<Name>, x: string)
    requires DistinctStripped(topics)
    ensures |Filter(topics, StripsTo(x))| == if Found(topics, x) then 1 else 0
    decreases |topics|
  {
    if topics != [] {
      TailOfDistinctStripped(topics);
      StripsToOne(topics[1..], x);
      StripsToOneStep(topics, x);
    }
  }

  lemma StripsToOneStep(topics: seq<Name>, x: string)
    requires topics != []
    requires forall n :: n in topics[1..] ==> Strip(n) != Strip(topics[0])
    requires |Filter(topics[1..], StripsTo(x))| == if Found(topics[1..], x) then 1 else 0
    ensures |Filter(topics, StripsTo(x))| == if Found(topics, x) then 1 else 0
  {
    var h, rest := topics[0], topics[1..];
    HeadOrTail(topics);
    if Strip(h) == x {
      assert Filter(topics, StripsTo(x)) == [h] + Filter(rest, StripsTo(x));
      assert !Found(rest, x);
    } else {
      assert Filter(topics, StripsTo(x)) == Filter(rest, StripsTo(x));
    }
  }

  /** Some topic strips to `x`. */
  ghost predicate Found(topics: seq<Name>, x: string) {
    exists n :: n in topics && Strip(n) == x
  }

  /** With distinct stripped names, the search finds one topic per suffix at
      most, and as many as there are suffixes exactly when every suffix has
      its topic. */
  lemma {:induction false} SiblingsCount(topics: seq<Name>, p: string, suffixes: seq<string>)
    requires DistinctStripped(topics)
    ensures |Siblings(topics, p, suffixes)| <= |suffixes|
    ensures |Siblings(topics, p, suffixes)| == |suffixes| <==>
              forall i :: 0 <= i < |suffixes| ==> Found(topics, p + suffixes[i])
    decreases |suffixes|
  {
    if suffixes != [] {
      SiblingsCount(topics, p, suffixes[1..]);
      StripsToOne(topics, p + suffixes[0]);
      SiblingsLength(topics, p, suffixes);
      AllFoundSplit(topics, p, suffixes);
    }
  }

  lemma SiblingsLength(topics: seq<Name>, p: string, suffixes: seq<string>)
    requires suffixes != []
    ensures |Siblings(topics, p, suffixes)| ==
              |Filter(topics, StripsTo(p + suffixes[0]))| + |Siblings(topics, p, suffixes[1..])|
  {
  }

  lemma AllFoundSplit(topics: seq<Name>, p: string, suffixes: seq<string>)
    requires suffixes != []
    ensures (forall i :: 0 <= i < |suffixes| ==> Found(topics, p + suffixes[i])) <==>
              Found(topics, p + suffixes[0]) && forall i :: 0 <= i < |suffixes[1..]| ==> Found(topics, p + suffixes[1..][i])
  {
    assert forall i :: 0 <= i < |suffixes[1..]| ==> suffixes[1..][i] == suffixes[i + 1];
    assert forall i :: 0 < i < |suffixes| ==> suffixes[i] == suffixes[1..][i - 1];
  }

  /** Counting five topics is finding all five suffixes, provided no two
      topics strip to the same name. */
  lemma FiveMeansComplete(topics: seq<Name>, p: string)
    requires DistinctStripped(topics)
    ensures |Members(topics, p)| == 5 <==> Complete(topics, p)
  {
    SiblingsCount(topics, p, ActionSuffixes);
  }

  /** When no topic fires, the loop changes nothing. */
  lemma {:induction false} AccumulateIdle(topics: seq<Name>, conn: ConnectionMap, scan: seq<Name>, acc: Tally)
    requires forall t :: t in scan ==> !Fires(topics, t)
    ensures Accumulate(topics, conn, scan, acc) == acc
    ensures Fired(topics, scan) == []
    decreases |scan|
  {
    if scan != [] {
      assert scan[0] in scan;
      assert forall t :: t in scan[1..] ==> t in scan;
      AccumulateIdle(topics, conn, scan[1..], acc);
    }
  }

  /** Without a `/feedback` topic whose search finds five topics, the stage
      leaves topics and edges as they are and records no group. */
  lemma NothingFires(topics: seq<Name>, conn: ConnectionMap, edges: seq<Edge>)
    requires forall t :: t in topics ==> !Fires(topics, t)
    ensures Collapse(topics, conn, edges) == Ok(Collapsed(topics, edges, []))
  {
    AccumulateIdle(topics, conn, topics, Tally([], edges, []));
  }

  lemma FiredAppend(topics: seq<Name>, a: seq<Name>, b: seq<Name>)
    ensures Fired(topics, a + b) == Fired(topics, a) + Fired(topics, b)
  {
    FlatMapAppend(ShotBy(topics), a, b);
  }

  lemma FiredCons(topics: seq<Name>, s: seq<Name>)
    requires s != []
    ensures Fired(topics, s) == Shot(topics, s[0]) + Fired(topics, s[1..])
  {
  }

  lemma {:induction false} FiredContains(topics: seq<Name>, scan: seq<Name>, t: Name)
    requires t in scan && Fires(topics, t)
    ensures multiset(Members(topics, ActionPrefix(t))) <= multiset(Fired(topics, scan))
    decreases |scan|
  {
    var here := Shot(topics, scan[0]);
    assert multiset(Fired(topics, scan)) == multiset(here) + multiset(Fired(topics, scan[1..]));
    if scan[0] != t {
      HeadOrTail(scan);
      FiredContains(topics, scan[1..], t);
    }
  }

  /** Two firing topics with the same prefix queue its five topics twice. */
  lemma FiredTwice(topics: seq<Name>, i: int, j: int)
    requires Distinct(topics)
    requires 0 <= i < j < |topics|
    requires Fires(topics, topics[i]) && Fires(topics, topics[j])
    requires ActionPrefix(topics[i]) == ActionPrefix(topics[j])
    ensures !(multiset(Fired(topics, topics)) <= multiset(topics))
  {
    var front, back := topics[..j], topics[j..];
    SplitAt(topics, i, j);
    var p := ActionPrefix(topics[i]);
    FiredAppend(topics, front, back);
    FiredContains(topics, front, topics[i]);
    FiredContains(topics, back, topics[j]);
    TwiceDoesNotFit(Members(topics, p), Fired(topics, front), Fired(topics, back), topics);
  }

  /** Two `/feedback` topics with the same prefix (such as `/a/feedback` and
      ` /a /feedback`) queue the same five topics twice, and the second
      `list.remove` of a topic raises. */
  lemma DuplicatePrefixRaises(topics: seq<Name>, conn: ConnectionMap, edges: seq<Edge>, i: int, j: int)
    requires Distinct(topics)
    requires 0 <= i < j < |topics|
    requires Fires(topics, topics[i]) && Fires(topics, topics[j])
    requires ActionPrefix(topics[i]) == ActionPrefix(topics[j])
    ensures Collapse(topics, conn, edges) == Err(NotInList)
  {
    FiredTwice(topics, i, j);
  }

  /** `x` is one of the five topics of an action whose `/feedback` topic is
      in the list and whose five topics are all present. */
  ghost predicate Collapsible(topics: seq<Name>, x: Name) {
    exists t :: t in topics && IsFeedback(t) && Complete(topics, ActionPrefix(t))
                && SiblingOf(x, ActionPrefix(t), ActionSuffixes)
  }

  /** With distinct stripped names, a topic fires exactly when it ends in
      `/feedback` and all five topics of its action are present. */
  lemma FiresMeansComplete(topics: seq<Name>, t: Name)
    requires DistinctStripped(topics)
    ensures Fires(topics, t) <==> IsFeedback(t) && Complete(topics, ActionPrefix(t))
  {
    FiveMeansComplete(topics, ActionPrefix(t));
  }

  lemma SwallowedMeansCollapsible(topics: seq<Name>, x: Name)
    requires DistinctStripped(topics)
    ensures SwallowedBy(topics, topics, x) <==> x in topics && Collapsible(topics, x)
  {
    forall t | t in topics ensures Fires(topics, t) <==> IsFeedback(t) && Complete(topics, ActionPrefix(t)) {
      FiresMeansComplete(topics, t);
    }
  }

  /** All or nothing: with distinct stripped topic names and one `/feedback`
      topic per prefix, the stage never raises; it removes exactly the topics
      of the actions that are complete and, on an edge list without
      duplicates, the edges touching them. */
  lemma AllOrNothing(topics: seq<Name>, all: seq<Edge>, edges: seq<Edge>)
    requires DistinctStripped(topics) && PrefixesDistinct(topics)
    requires Distinct(edges)
    requires forall e :: e in edges ==> e in all
    ensures Collapse(topics, Connect(all), edges).Ok?
    ensures forall n :: n in Collapse(topics, Connect(all), edges).value.topics <==>
              n in topics && !Collapsible(topics, n)
    ensures forall e :: e in Collapse(topics, Connect(all), edges).value.edges <==>
              e in edges && !(e.start in topics && Collapsible(topics, e.start))
                         && !(e.end in topics && Collapsible(topics, e.end))
  {
    StrippedDistinct(topics);
    CollapseTopics(topics, Connect(all), edges);
    CollapseEdges(topics, all, edges);
    forall x ensures SwallowedBy(topics, topics, x) <==> x in topics && Collapsible(topics, x) {
      SwallowedMeansCollapsible(topics, x);
    }
  }

  /** With distinct stripped names, every complete action whose `/feedback`
      topic is in the list is recorded, and every recorded group is a
      complete action holding exactly its five topics. */
  lemma GroupsAreCompleteActions(topics: seq<Name>, conn: ConnectionMap, edges: seq<Edge>)
    requires DistinctStripped(topics)
    requires Collapse(topics, conn, edges).Ok?
    ensures var groups := Collapse(topics, conn, edges).value.groups;
            forall t :: t in topics && IsFeedback(t) && Complete(topics, ActionPrefix(t)) ==>
              ActionPrefix(t) in Keys(groups)
    ensures forall g :: g in Collapse(topics, conn, edges).value.groups ==>
              && Complete(topics, g.prefix)
              && forall x :: x in g.topics <==> x in topics && SiblingOf(x, g.prefix, ActionSuffixes)
  {
    CompleteActionsRecorded(topics, conn, edges);
    RecordedGroupsComplete(topics, conn, edges);
  }

  lemma CompleteActionsRecorded(topics: seq<Name>, conn: ConnectionMap, edges: seq<Edge>)
    requires DistinctStripped(topics)
    requires Collapse(topics, conn, edges).Ok?
    ensures var groups := Collapse(topics, conn, edges).value.groups;
            forall t :: t in topics && IsFeedback(t) && Complete(topics, ActionPrefix(t)) ==>
              ActionPrefix(t) in Keys(groups)
  {
    AccumulateKeys(topics, conn, topics, Tally([], edges, []));
    forall t | t in topics && IsFeedback(t) && Complete(topics, ActionPrefix(t)) ensures Fires(topics, t) {
      FiresMeansComplete(topics, t);
    }
  }

  lemma RecordedGroupsComplete(topics: seq<Name>, conn: ConnectionMap, edges: seq<Edge>)
    requires DistinctStripped(topics)
    requires Collapse(topics, conn, edges).Ok?
    ensures forall g :: g in Collapse(topics, conn, edges).value.groups ==>
              && Complete(topics, g.prefix)
              && forall x :: x in g.topics <==> x in topics && SiblingOf(x, g.prefix, ActionSuffixes)
  {
    forall g | g in Collapse(topics, conn, edges).value.groups ensures Complete(topics, g.prefix) {
      FiveMeansComplete(topics, g.prefix);
    }
  }

  /** Leaving topics out keeps the stripped names pairwise different and the
      `/feedback` prefixes pairwise different. */
  lemma SubsequenceKeepsDistinct(a: seq<Name>, b: seq<Name>)
    requires IsSubsequence(a, b)
    ensures DistinctStripped(b) ==> DistinctStripped(a)
    ensures PrefixesDistinct(b) ==> PrefixesDistinct(a)
  {
    var apart := (x: Name, y: Name) => Strip(x) != Strip(y);
    var prefixes := (x: Name, y: Name) => IsFeedback(x) && IsFeedback(y) ==> ActionPrefix(x) != ActionPrefix(y);
    if DistinctStripped(b) {
      assert Pairwise(b, apart);
      SubsequencePairwise(a, b, apart);
    }
    if PrefixesDistinct(b) {
      assert Pairwise(b, prefixes);
      SubsequencePairwise(a, b, prefixes);
    }
  }
}
