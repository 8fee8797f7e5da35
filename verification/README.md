# rosgraph dot-code generation, modelled in Dafny

This project models the graph transformation at the heart of the ROS graph
viewer, `RosGraphDotcodeGenerator.generate_dotcode` in
`rosgui_rosgraph/lib/dotcode.py`, and proves properties of it.

The generator reads a snapshot of a running ROS system:
- process nodes and topic nodes (topic names carry a leading space);
- node/node edges, node/topic edges with a live connection, and all node/topic edges;
- the faulty nodes.

It parses a namespace filter and a topic filter, selects the nodes and edges
of one of three graph modes, and applies the AND rule to the edges. It then
builds the connection map, and optionally:
- hides dead-end and single-connection topics;
- collapses the five topics of each ROS action into one synthetic node.

Next it re-checks edges against the stripped names that are left and drops
orphan topics. Finally it draws everything through a dot-code factory, with
optional namespace clusters.

The model is functional:
- one Dafny module per stage (`Patterns`, `Selection`, `Quiet`,
  `Connections`, `Pruning`, `Actions`, `Cleanup`, `Emit`), composed in
  `Pipeline`;
- `Text` and `Seqs` give the Python string and list operations the code
  relies on (`strip`, `split`, `in`, `list.remove`, comprehensions);
- `Graph` and `Results` hold the snapshot, the options, and the three
  exceptions the code can raise.

Each exception becomes a `Result` error:
- `re.error` for a malformed filter pattern becomes `BadPattern`;
- an unknown graph mode becomes `UnboundEdges`, because `edges` is never
  assigned;
- a `ValueError` from `list.remove` becomes `NotInList`.

The factory is a log of `AddSubgraph`, `AddNode` and `AddEdge` events. The
regular-expression engine is a parameter (`Regex`: whether a pattern compiles,
and `re.match`). So is the graph library's topic label function `node_topic`
(`display`).

Where the code's behaviour is easy to misread, the model follows the code:
- An unknown graph mode raises; it does not give an empty graph
  (`Selection.Choose`).
- An empty filter string is one empty token, so the include list is `[""]`,
  not `[".*"]` (`Patterns.EmptyFilterIsOneEmptyPattern`).
- Two `/feedback` topics whose names strip to the same prefix queue the same
  five topics twice, and the second `list.remove` raises
  (`Actions.DuplicatePrefixRaises`).
- The action groups record every edge incident to their topics, so the
  synthetic node gets edges for them (`Actions.GroupEdges`).
- In quiet mode a faulty process is not drawn but its edges are, so "no
  dangling edge" holds only when no selected process is faulty
  (`Pipeline.EdgesPointAtNodes`).
- The synthetic node of an action is added as `node_topic(prefix +
  '/action_topics')`. Its edges name `prefix[1:] + '/action_topics'`. The
  model keeps both names as written (`Emit.ActionNode`, `Emit.GroupEdgeEvents`).

## Model

| member | source | states |
|---|---|---|
| `Text.Strip` | rosgui_rosgraph/lib/dotcode.py:299 | `str.strip()`: the result is a slice of the name with no whitespace at either end |
| `Text.StripAll` | rosgui_rosgraph/lib/dotcode.py:299 | stripping a list of names strips each one and keeps the length |
| `Text.StripAllMembers` | rosgui_rosgraph/lib/dotcode.py:299-300 | `x` is in the stripped list exactly when some name strips to `x` |
| `Text.StripIdempotent` | rosgui_rosgraph/lib/dotcode.py:273 | stripping a stripped name changes nothing |
| `Text.StripClean` | rosgui_rosgraph/lib/dotcode.py:182 | a token without whitespace at either end strips to itself |
| `Text.StripPadded` | rosgui_rosgraph/lib/dotcode.py:54 | whitespace around a clean core strips away to exactly the core |
| `Text.Split` | rosgui_rosgraph/lib/dotcode.py:181 | `str.split(sep)`: one piece more than separators, no piece holds the separator, and joining the pieces gives the input back |
| `Text.SplitJoin` | rosgui_rosgraph/lib/dotcode.py:181 | splitting a join of separator-free parts gives the parts back |
| `Text.SplitPiece` | rosgui_rosgraph/lib/dotcode.py:181 | a string without the separator splits into itself alone |
| `Text.SecondSegment` | rosgui_rosgraph/lib/dotcode.py:328-331 | in `lead/ns/rest` the name has more than one `/` and its second segment is `ns` |
| `Text.ContainsAt` | rosgui_rosgraph/lib/dotcode.py:107 | Python's substring `in` holds exactly when the needle occurs at some offset |
| `Seqs.Filter` | rosgui_rosgraph/lib/dotcode.py:146 | a list comprehension keeps exactly the elements meeting the condition, in order |
| `Seqs.FilterR` | rosgui_rosgraph/lib/dotcode.py:208 | a comprehension whose condition can raise succeeds only when no condition raises, then keeps the elements whose condition is true; on failure the error is that of some element |
| `Seqs.Delete` | rosgui_rosgraph/lib/dotcode.py:262-264 | takes out the first occurrence of a present element, keeping the rest in order, and leaves a list without it unchanged |
| `Seqs.Remove` | rosgui_rosgraph/lib/dotcode.py:267 | `list.remove` succeeds exactly when the element is present and then takes out its first occurrence, keeping the rest in order |
| `Seqs.RemoveEach` | rosgui_rosgraph/lib/dotcode.py:266-267 | removing a list of elements one by one succeeds exactly when they fit in the list as a multiset, leaves the multiset difference in order, and otherwise raises `ValueError` |
| `Seqs.RemovePresent` | rosgui_rosgraph/lib/dotcode.py:262-264 | `if e in edges: edges.remove(e)` for each listed element leaves the multiset difference, in order |
| `Seqs.RemovePresentDistinct` | rosgui_rosgraph/lib/dotcode.py:262-264 | on a list without duplicates it removes exactly the listed elements |
| `Seqs.RemoveFiltered` | rosgui_rosgraph/lib/dotcode.py:302-312 | collecting the elements that fail a test and then removing them never raises and leaves the elements that pass it |
| `Seqs.AddNew` | rosgui_rosgraph/lib/dotcode.py:282-283 | `set.update` kept in first-seen order: the union, still without duplicates |
| `Seqs.TwiceDoesNotFit` | rosgui_rosgraph/lib/dotcode.py:296-297 | queuing a group twice can never fit in a list without duplicates |
| `Patterns.MatchesAny` | rosgui_rosgraph/lib/dotcode.py:50-59 | false for no patterns; otherwise, unless it raises, true exactly when some pattern equals the stripped name or is a non-literal regex matching it. It raises exactly when some malformed pattern other than the stripped name comes before any hit, and the error names such a pattern; never when all patterns are well formed |
| `Patterns.TryPattern` | rosgui_rosgraph/lib/dotcode.py:54-58 | one round of the loop raises exactly for a malformed pattern that is not the stripped name, naming it; otherwise it answers whether the pattern hits the name |
| `Patterns.LiteralMatchesOnlyItself` | rosgui_rosgraph/lib/dotcode.py:56-57 | a pattern of word characters matches exactly the names that strip to it, whatever the regex engine says |
| `Patterns.LiteralIsNotAPrefixMatch` | rosgui_rosgraph/lib/dotcode.py:54-58 | `foo` does not select `foobar` |
| `Patterns.Selects` | rosgui_rosgraph/lib/dotcode.py:208 | `matches_any(includes) and not matches_any(excludes)`: true exactly when an include hits and no exclude does. It raises exactly when the include loop reaches a malformed pattern, or when an include hits and the exclude loop reaches one; no error for well-formed lists |
| `Patterns.ClassifyTokens` | rosgui_rosgraph/lib/dotcode.py:181-185 | the includes are the tokens not starting with `-`, and the excludes are the `-`-prefixed tokens without their `-`, both in token order; every token lands in exactly one list |
| `Patterns.ParseFilter` | rosgui_rosgraph/lib/dotcode.py:179-187 | the includes are the stripped comma-separated tokens not starting with `-`, in order, except that an empty or `["/"]` include list becomes `[".*"]`; the excludes are the `-`-prefixed stripped tokens without `-`, in order |
| `Patterns.ParseOne` | rosgui_rosgraph/lib/dotcode.py:181-187 | a comma-free filter is one token: an exclude with include-all, or the only include (`/` read as `.*`) |
| `Patterns.PlainInclude` | rosgui_rosgraph/lib/dotcode.py:186-187 | a clean single pattern not starting with `-` is the only include, `/` becoming `.*` |
| `Patterns.SlashFilterMeansAll` | rosgui_rosgraph/lib/dotcode.py:186-187 | the filters `/` and `.*` parse to the same lists, `[".*"]` with no excludes |
| `Patterns.ExcludesOnlyIncludeAll` | rosgui_rosgraph/lib/dotcode.py:182-187 | a filter that is one exclude still includes everything |
| `Patterns.EmptyFilterIsOneEmptyPattern` | rosgui_rosgraph/lib/dotcode.py:181-187 | the empty filter gives the include list `[""]` |
| `Quiet.DropQuietNodes` | rosgui_rosgraph/lib/dotcode.py:206-207 | the node filter drops exactly the names that are quiet names, by exact membership, keeping order |
| `Quiet.DropQuietEdges` | rosgui_rosgraph/lib/dotcode.py:229-230 | the edge filter keeps exactly the edges `_quiet_filter_edge` passes, in order |
| `Quiet.QuietEdgeBySubstring` | rosgui_rosgraph/lib/dotcode.py:104-115 | an edge passes exactly when its label is not `/time`, `/clock` or `/rosout` and no quiet name occurs inside either end |
| `Quiet.QuietNodesExactEdgesBySubstring` | rosgui_rosgraph/lib/dotcode.py:48 | `/rosout_agg` and ` /rosout` survive the node filter, but an edge from `/rosout_agg` does not survive the edge filter |
| `Selection.SelectsFails` | rosgui_rosgraph/lib/dotcode.py:57 | a failing selection test blames a malformed pattern of the filter |
| `Selection.SelectNames` | rosgui_rosgraph/lib/dotcode.py:208 | a node survives name filtering exactly when the filter admits it; order kept; it raises exactly when the test of some name raises, and the error is a malformed filter pattern; no error for well-formed lists |
| `Selection.Admits` | rosgui_rosgraph/lib/dotcode.py:208 | a name passes a parsed filter when some include hits it and no exclude does |
| `Selection.SelectCaptions` | rosgui_rosgraph/lib/dotcode.py:210 | node/node edges survive exactly when the topic filter admits their label; order kept; it raises exactly when the test of some label raises, and the error is a malformed filter pattern |
| `Selection.Restrict` | rosgui_rosgraph/lib/dotcode.py:144-146 | `_filter_edges` keeps exactly the edges with both ends among the nodes, in order, adding none |
| `Selection.Hush` | rosgui_rosgraph/lib/dotcode.py:216-218 | quiet mode drops exactly the quiet names, and otherwise nothing |
| `Selection.Pick` | rosgui_rosgraph/lib/dotcode.py:204-227 | per mode: the process nodes and topic nodes the filters admit (none in node/node mode) and the mode's edge list (label-filtered in node/node mode); an unknown mode is the only source of `UnboundEdges` |
| `Selection.Choose` | rosgui_rosgraph/lib/dotcode.py:202-233 | an edge is kept exactly when it is in the mode's list, passes the label filter (node/node) and the quiet filter, and has both ends among the selected nodes; errors are `UnboundEdges` exactly for an unknown mode, else a blamed pattern |
| `Selection.NameRaisesFirst` | rosgui_rosgraph/lib/dotcode.py:202-221 | in every known mode the process names are filtered first, so a process name whose test raises makes the selection raise a pattern error |
| `Connections.Connect` | rosgui_rosgraph/lib/dotcode.py:238-245 | the map has an entry for exactly the ends of the edges, each listing its outgoing and incoming edges in order |
| `Connections.Record` | rosgui_rosgraph/lib/dotcode.py:240-245 | one round: missing entries for both ends are created empty, then the edge is appended to the start's outgoing and the end's incoming list |
| `Connections.RecordExtends` | rosgui_rosgraph/lib/dotcode.py:240-245 | one loop round keeps the map describing the edges seen so far |
| `Connections.ConnectLinks` | rosgui_rosgraph/lib/dotcode.py:244-245 | an entry's outgoing (incoming) list holds exactly the edges that start (end) at that node |
| `Pruning.Scan` | rosgui_rosgraph/lib/dotcode.py:249-264 | the loop queues exactly the condemned topics, in order, and only removes edges |
| `Pruning.Doomed` | rosgui_rosgraph/lib/dotcode.py:251-260 | a topic is removed when single-connection topics are hidden and it has fewer than two incident edges, or dead ends are hidden and it has no outgoing edge |
| `Pruning.Prune` | rosgui_rosgraph/lib/dotcode.py:247-267 | a topic survives exactly when it has no map entry or passes the single-connection and dead-end tests; the removals never raise |
| `Pruning.CutIncident` | rosgui_rosgraph/lib/dotcode.py:262-264 | removing a topic's listed edges takes out exactly the edges touching it |
| `Pruning.ScanEdges` | rosgui_rosgraph/lib/dotcode.py:249-264 | the loop leaves exactly the edges with neither end a condemned scanned topic |
| `Pruning.PruneEdges` | rosgui_rosgraph/lib/dotcode.py:247-267 | all incident edges of every removed topic go, and no other edge |
| `Pruning.NoCascade` | rosgui_rosgraph/lib/dotcode.py:249-261 | on a chain `t -> a -> b` with dead ends hidden, `b` goes and `a` stays, although `a` is left without an outgoing edge: the test uses the map built before any removal |
| `Pruning.ChainLinks` | rosgui_rosgraph/lib/dotcode.py:238-245 | the map of the chain gives `a` one outgoing edge and `b` none |
| `Actions.Siblings` | rosgui_rosgraph/lib/dotcode.py:277-280 | the search finds exactly the topics whose stripped name is the prefix followed by one of the suffixes |
| `Actions.IsFeedback` | rosgui_rosgraph/lib/dotcode.py:272 | a topic starts a search when its name ends in `/feedback` |
| `Actions.ActionPrefix` | rosgui_rosgraph/lib/dotcode.py:273 | the name without its last nine characters, stripped; empty for a shorter name |
| `Actions.FeedbackPrefix` | rosgui_rosgraph/lib/dotcode.py:272-273 | a clean prefix followed by `/feedback` starts a search for exactly that prefix |
| `Actions.Fires` | rosgui_rosgraph/lib/dotcode.py:272-284 | a `/feedback` topic whose search finds exactly five topics collapses its action |
| `Actions.Gather` | rosgui_rosgraph/lib/dotcode.py:281-283 | the union of the outgoing (or incoming) lists of the members that have a map entry, without duplicates |
| `Actions.Put` | rosgui_rosgraph/lib/dotcode.py:293-295 | `action_nodes[prefix] = ...` records the group and adds its key, keeping the others |
| `Actions.PutUnique` | rosgui_rosgraph/lib/dotcode.py:293-295 | assigning a key keeps the dictionary's keys unique |
| `Actions.Visit` | rosgui_rosgraph/lib/dotcode.py:272-295 | one round only removes edges |
| `Actions.VisitEdges` | rosgui_rosgraph/lib/dotcode.py:287-292 | on an edge list without duplicates, a firing topic removes exactly the edges its group records |
| `Actions.VisitKeepsCopy` | rosgui_rosgraph/lib/dotcode.py:282-292 | an edge listed twice and recorded on one side of a firing group keeps one copy: the guarded `remove` takes out one copy per recorded edge |
| `Actions.Accumulate` | rosgui_rosgraph/lib/dotcode.py:271-295 | the loop only removes edges |
| `Actions.AccumulateRemoval` | rosgui_rosgraph/lib/dotcode.py:286 | the loop queues the members of every firing topic, in order |
| `Actions.AccumulateUnique` | rosgui_rosgraph/lib/dotcode.py:293 | no prefix is recorded twice |
| `Actions.AccumulateKeys` | rosgui_rosgraph/lib/dotcode.py:284-295 | the prefix of every firing topic is recorded and recorded prefixes stay |
| `Actions.AccumulateOrigin` | rosgui_rosgraph/lib/dotcode.py:284-295 | every recorded group is the group of a firing topic's prefix |
| `Actions.AccumulateEdges` | rosgui_rosgraph/lib/dotcode.py:287-292 | on an edge list without duplicates, the loop removes exactly the edges recorded by the groups of the firing topics |
| `Actions.AccumulateIdle` | rosgui_rosgraph/lib/dotcode.py:284 | when no topic fires, the loop changes nothing |
| `Actions.Collapse` | rosgui_rosgraph/lib/dotcode.py:269-297 | succeeds exactly when the queued topics fit in the list, otherwise raises `ValueError`; leaves the multiset difference; records unique prefixes, each group holding five topics found from a `/feedback` topic with that prefix |
| `Actions.SiblingsDistinct` | rosgui_rosgraph/lib/dotcode.py:277-280 | on a list without duplicates the search finds no topic twice |
| `Actions.MembersDisjoint` | rosgui_rosgraph/lib/dotcode.py:277-280 | the searches for two different prefixes find no common topic |
| `Actions.SiblingsCount` | rosgui_rosgraph/lib/dotcode.py:277-284 | with distinct stripped names the search finds at most one topic per suffix, and one for each suffix exactly when all are present |
| `Actions.FiveMeansComplete` | rosgui_rosgraph/lib/dotcode.py:284 | with distinct stripped names, finding five topics means all five action topics exist |
| `Actions.FiresMeansComplete` | rosgui_rosgraph/lib/dotcode.py:272-284 | a topic triggers collapse exactly when it ends in `/feedback` and its action is complete |
| `Actions.FiredMembers` | rosgui_rosgraph/lib/dotcode.py:286 | a topic is queued exactly when a firing topic's search found it |
| `Actions.FiredDistinct` | rosgui_rosgraph/lib/dotcode.py:286 | with distinct topics and prefixes no topic is queued twice |
| `Actions.FiredWithin` | rosgui_rosgraph/lib/dotcode.py:296-297 | with distinct topics and prefixes the queued topics fit in the list |
| `Actions.CollapseTopics` | rosgui_rosgraph/lib/dotcode.py:296-297 | with distinct topics and prefixes the removals never raise, and exactly the topics not found by a firing search remain |
| `Actions.GroupEdges` | rosgui_rosgraph/lib/dotcode.py:281-283 | a group records an edge exactly when one of its ends is among the group's topics |
| `Actions.CollapseEdges` | rosgui_rosgraph/lib/dotcode.py:287-292 | on an edge list without duplicates, the stage removes exactly the edges touching a topic of a firing group |
| `Actions.FiredTwice` | rosgui_rosgraph/lib/dotcode.py:296-297 | two firing topics with one prefix queue its topics twice, more than the list holds |
| `Actions.DuplicatePrefixRaises` | rosgui_rosgraph/lib/dotcode.py:296-297 | then the stage raises `ValueError` |
| `Actions.NothingFires` | rosgui_rosgraph/lib/dotcode.py:284 | with no firing topic the stage leaves topics and edges unchanged and records nothing |
| `Actions.AllOrNothing` | rosgui_rosgraph/lib/dotcode.py:269-297 | with distinct stripped names and prefixes it never raises, removes exactly the topics of complete actions and, on an edge list without duplicates, exactly the edges touching them |
| `Actions.GroupsAreCompleteActions` | rosgui_rosgraph/lib/dotcode.py:284-295 | every complete action is recorded, and every recorded group is a complete action holding exactly its five topics |
| `Actions.SubsequenceKeepsDistinct` | rosgui_rosgraph/lib/dotcode.py:267 | leaving topics out keeps stripped names and prefixes apart |
| `Cleanup.Kept` | rosgui_rosgraph/lib/dotcode.py:303-308 | the inner loop answers whether some edge touches the topic |
| `Cleanup.Settle` | rosgui_rosgraph/lib/dotcode.py:299-312 | the names are the stripped process and topic names; the edges are exactly `Filter(edges, AnchoredIn(names))`, every copy of an edge whose stripped ends are both among them, in order; the topics are exactly `Filter(nt, KeptBy(edges))`, those a remaining edge touches, in order and with their multiplicity; process nodes untouched |
| `Cleanup.EdgesReferToNodes` | rosgui_rosgraph/lib/dotcode.py:299-312 | every end of a remaining edge strips like a process node or a remaining topic |
| `Cleanup.SettleIdempotent` | rosgui_rosgraph/lib/dotcode.py:299-312 | running the pass again on its output changes nothing |
| `Emit.ReplayClusters` | rosgui_rosgraph/lib/dotcode.py:332-333 | the subgraphs a faultless replay knows are exactly those the log created |
| `Emit.ReplayMeans` | rosgui_rosgraph/lib/dotcode.py:332-334 | a faultless log creates no subgraph twice and fills a subgraph only after creating it |
| `Emit.NodeNamesOfNodes` | rosgui_rosgraph/lib/dotcode.py:97-98 | the node names of a log are those of its node events |
| `Emit.Append` | rosgui_rosgraph/lib/dotcode.py:372-374 | adding an event into the root graph or an existing subgraph keeps the drawing faultless |
| `Emit.EnsureCluster` | rosgui_rosgraph/lib/dotcode.py:332-333 | the subgraph exists afterwards and is created only if it was missing |
| `Emit.PlaceInCluster` | rosgui_rosgraph/lib/dotcode.py:332-334 | creating the subgraph if needed and then placing a node in it keeps the drawing faultless |
| `Emit.Tail` | rosgui_rosgraph/lib/dotcode.py:380 | Python's `s[1:]` drops the first character, and of an empty string is empty |
| `Emit.TopicNode` | rosgui_rosgraph/lib/dotcode.py:95-101 | a topic node is a box named and labelled by `node_topic`, linked to `topic:<label>` |
| `Emit.ProcessNode` | rosgui_rosgraph/lib/dotcode.py:72-93 | a faulty process is skipped exactly in quiet mode; otherwise a dead one is a red double circle, another faulty one an orange double circle, and a healthy one an ellipse |
| `Emit.PlaceTopic` | rosgui_rosgraph/lib/dotcode.py:327-336 | a topic node goes into the subgraph of its namespace when clusterable, creating it if needed, else into the root graph |
| `Emit.TopicHome` | rosgui_rosgraph/lib/dotcode.py:325-338 | a topic goes into a subgraph exactly when it has a map entry, clustering is on, it has more than one `/` and a non-empty second segment |
| `Emit.TopicClusterable` | rosgui_rosgraph/lib/dotcode.py:327-329 | clustering is on, the name has more than one `/`, and its second segment is non-empty |
| `Emit.TopicEvents` | rosgui_rosgraph/lib/dotcode.py:324-338 | one node per topic, in order, placed by `TopicHome` |
| `Emit.TopicEventsNames` | rosgui_rosgraph/lib/dotcode.py:96-98 | the topic nodes are named by the topics' labels |
| `Emit.EmitTopics` | rosgui_rosgraph/lib/dotcode.py:323-338 | draws exactly the topic nodes of `TopicEvents`; creates a subgraph for exactly the namespaces of clusterable topics; keeps the drawing faultless |
| `Emit.ActionHome` | rosgui_rosgraph/lib/dotcode.py:344-353 | a synthetic node goes into a subgraph exactly when its name passes the clustering test; the map is not consulted |
| `Emit.ActionNode` | rosgui_rosgraph/lib/dotcode.py:342 | the synthetic node of a group is named `prefix + "/action_topics"` |
| `Emit.ActionEvents` | rosgui_rosgraph/lib/dotcode.py:341-353 | one synthetic node per recorded group, named after `prefix + '/action_topics'` |
| `Emit.ActionEventsNames` | rosgui_rosgraph/lib/dotcode.py:342 | the synthetic nodes are named by the labels of `prefix/action_topics` |
| `Emit.EmitActions` | rosgui_rosgraph/lib/dotcode.py:340-353 | draws exactly the nodes of `ActionEvents`; creates a subgraph for exactly the namespaces of clusterable synthetic nodes |
| `Emit.ProcessHome` | rosgui_rosgraph/lib/dotcode.py:359-370 | a process joins a subgraph only for a non-empty second segment whose subgraph already exists |
| `Emit.ProcessClusterable` | rosgui_rosgraph/lib/dotcode.py:360-363 | clustering is on, the name has a `/`, and its non-empty second segment already has a subgraph |
| `Emit.ProcessEvent` | rosgui_rosgraph/lib/dotcode.py:358-370 | one styled node for the process unless skipped, in a subgraph exactly when it has a map entry and its namespace's subgraph exists |
| `Emit.ProcessEvents` | rosgui_rosgraph/lib/dotcode.py:357-370 | the drawn processes in order, each placed as above |
| `Emit.EmitProcesses` | rosgui_rosgraph/lib/dotcode.py:357-370 | appends exactly `ProcessEvents` for the subgraphs that exist, creates none, keeps the drawing faultless |
| `Emit.EdgeEvent` | rosgui_rosgraph/lib/dotcode.py:66-70 | an edge carries its label, and a `topic:<label>` url exactly in node/node mode |
| `Emit.EdgeEvents` | rosgui_rosgraph/lib/dotcode.py:372-374 | one edge event per edge, in order |
| `Emit.EmitEdges` | rosgui_rosgraph/lib/dotcode.py:372-374 | draws the edges whose stripped ends are among the names, in order, adding no node |
| `Emit.EdgeEventsMembers` | rosgui_rosgraph/lib/dotcode.py:374 | the drawn events are those of the listed edges |
| `Emit.EmitEdgesDraws` | rosgui_rosgraph/lib/dotcode.py:372-374 | the new events are exactly the events of the anchored edges |
| `Emit.GroupEdgeEvents` | rosgui_rosgraph/lib/dotcode.py:378-383 | index by index: first one unlabelled edge from `prefix[1:]/action_topics` to the end of each recorded outgoing edge, then one into it from the start of each recorded incoming edge, and nothing else |
| `Emit.HubIsDrawnNode` | rosgui_rosgraph/lib/dotcode.py:342-383 | when `node_topic` drops the leading character, the hub the action edges name is the synthetic node's drawn label exactly when the prefix is non-empty |
| `Emit.FromHub` | rosgui_rosgraph/lib/dotcode.py:378-380 | one unlabelled edge from the synthetic node to the end of each recorded outgoing edge, in order |
| `Emit.IntoHub` | rosgui_rosgraph/lib/dotcode.py:381-383 | one unlabelled edge from the start of each recorded incoming edge to the synthetic node, in order |
| `Emit.GroupsEdgeEvents` | rosgui_rosgraph/lib/dotcode.py:376-383 | the synthetic edges of all groups are exactly those of some group, all edges |
| `Emit.EmitActionEdges` | rosgui_rosgraph/lib/dotcode.py:376-383 | appends exactly those edges, adding no node or subgraph |
| `Emit.AppendAll` | rosgui_rosgraph/lib/dotcode.py:357-383 | appending events that create no subgraph and use existing ones keeps the drawing faultless |
| `Emit.NodesOnly` | rosgui_rosgraph/lib/dotcode.py:376-383 | edge events add no node, node events are their own node list |
| `Pipeline.Reduce` | rosgui_rosgraph/lib/dotcode.py:236-297 | the map is built exactly when a topic mode asks for it; only the action collapse can raise, with `ValueError`; topics and edges only shrink; no group without collapsing |
| `Pipeline.Plan` | rosgui_rosgraph/lib/dotcode.py:199-312 | `UnboundEdges` exactly for an unknown mode; a `BadPattern` blames a filter pattern; `ValueError` only when collapsing; the last pass is `Settle` of the reduced lists |
| `Pipeline.PlanKeepsOrder` | rosgui_rosgraph/lib/dotcode.py:199-312 | the drawn topics and edges are subsequences of the snapshot's topic nodes and of the mode's edges |
| `Pipeline.Draw` | rosgui_rosgraph/lib/dotcode.py:322-383 | the drawing replays without fault: each subgraph created once, before its nodes, and none left empty |
| `Pipeline.Render` | rosgui_rosgraph/lib/dotcode.py:199-383 | the errors of `Plan`, and on success a faultless drawing |
| `Pipeline.Generate` | rosgui_rosgraph/lib/dotcode.py:149-386 | `generate_dotcode`: the same on the raw filter strings |
| `Pipeline.ReachedBadPatternRaises` | rosgui_rosgraph/lib/dotcode.py:179-221 | with a known mode, a process name whose namespace-filter test reaches a malformed pattern makes `generate_dotcode` raise a pattern error: no silent fallback |
| `Pipeline.RenderRaises` | rosgui_rosgraph/lib/dotcode.py:199-221 | on parsed filter lists: with a known mode, a process name whose namespace-filter test reaches a malformed pattern makes rendering raise a pattern error |
| `Pipeline.GeneratedSubgraphs` | rosgui_rosgraph/lib/dotcode.py:322-353 | a successful run creates each subgraph once and fills it only after creating it |
| `Pipeline.GenerateSucceeds` | rosgui_rosgraph/lib/dotcode.py:149-386 | with a known mode, well-formed patterns, and distinct stripped topic names and prefixes when collapsing, nothing raises |
| `Pipeline.RenderSucceeds` | rosgui_rosgraph/lib/dotcode.py:199-386 | on parsed filter lists: with a known mode, well-formed patterns, and distinct stripped topic names and prefixes when collapsing, selection, reduction and drawing never raise |
| `Pipeline.ReduceSucceeds` | rosgui_rosgraph/lib/dotcode.py:269-297 | with distinct stripped names and prefixes the reduction never raises |
| `Pipeline.SlashDrawsAll` | rosgui_rosgraph/lib/dotcode.py:186-187 | the namespace filter `/` draws the same graph as `.*` |
| `Pipeline.DrawnNodes` | rosgui_rosgraph/lib/dotcode.py:322-370 | the nodes drawn are the topics placed by `TopicHome`, then the synthetic nodes placed by `ActionHome`, then the processes placed by the subgraphs those created |
| `Pipeline.DrawnClusters` | rosgui_rosgraph/lib/dotcode.py:322-353 | a subgraph exists exactly for the namespace of a clustered topic or synthetic node |
| `Pipeline.DrawnNames` | rosgui_rosgraph/lib/dotcode.py:322-370 | the node names drawn are the topic labels, the synthetic labels and the drawn processes, in order |
| `Pipeline.DrawnCovers` | rosgui_rosgraph/lib/dotcode.py:357-370 | every topic's label is drawn, and every process when none is skipped |
| `Pipeline.EdgesPointAtNodes` | rosgui_rosgraph/lib/dotcode.py:372-374 | unless quiet mode skips a selected faulty process, both ends of every edge the last pass keeps strip like a drawn process or the name of a drawn topic |
| `Pipeline.EndsAreDrawn` | rosgui_rosgraph/lib/dotcode.py:372-373 | edges whose ends strip like drawn nodes have drawn ends |
| `Pipeline.GeneratedEdgesPointAtNodes` | rosgui_rosgraph/lib/dotcode.py:372-374 | the same for the generator's own stages, when no process of the snapshot is faulty in quiet mode: every edge the last pass keeps has both ends drawn |
| `Pipeline.EveryKeptEdgeIsDrawn` | rosgui_rosgraph/lib/dotcode.py:372-373 | the check before drawing an edge always passes: every edge left by the last pass is drawn once, in order |

## Left out

- `generate_namespaces` (dotcode.py:117-142) is left out. It depends on `roslib.names.namespace`, which is not part of this model.
- `filter_wrapper.py` is a Qt widget shell with no logic of its own.
- Layout options (`rank`, `ranksep`, `rankdir`, `orientation`, `simplify`), `get_graph` and `create_dot` are left out. They pass values through to the foreign renderer. The model's output is the log of factory calls.
- Python's `re` semantics are a parameter (`Patterns.Regex`): whether a pattern compiles, and `re.match`.
- `rosgraph.impl.graph.node_topic` is a parameter (`display`). The `BadNode` kinds become `Fault`, which is either `Dead` or `OtherFault`.
- A pattern list of `None` is left out. The generator always passes lists.
- Python set and dict iteration order are left out. The action edge sets and `action_nodes` keep first-seen and insertion order. The properties proved do not depend on that order except `Pipeline.DrawnNodes`, `Pipeline.DrawnNames`, `Emit.GroupEdgeEvents`, `Emit.FromHub`, `Emit.IntoHub`, `Emit.ActionEvents`, `Emit.EmitActions` and `Emit.EmitActionEdges`, whose order is the model's.
- `str()` on names is the identity: names are strings.
- Names and filters are Python 2 byte strings, so `str.strip` removes only the six ASCII whitespace characters (`Text.IsSpace`). Unicode whitespace is out of scope.
- `Pipeline.EdgesPointAtNodes` covers only the edges the last pass keeps (dotcode.py:372-374). It makes no claim for the synthetic action edges of dotcode.py:376-383. Those edges name `prefix[1:] + '/action_topics'` and the synthetic node is drawn as `node_topic(prefix + '/action_topics')`. The model does not relate the two because `node_topic` is a parameter; `Emit.HubIsDrawnNode` shows they agree exactly for a non-empty prefix when `node_topic` drops the leading character. Their other ends are recorded before the last pass.
- `Pipeline.GeneratedEdgesPointAtNodes` likewise covers only the edges the last pass keeps, not the synthetic action edges.
- `Actions.AllOrNothing`, `Actions.CollapseTopics`, `Pipeline.GenerateSucceeds` and `Pipeline.RenderSucceeds` assume distinct stripped topic names and one `/feedback` topic per prefix. Without them `list.remove` can raise, and `Actions.DuplicatePrefixRaises` shows when.
- `Actions.VisitEdges`, `Actions.AccumulateEdges`, `Actions.CollapseEdges` and `Actions.AllOrNothing` state their edge claims only for an edge list without duplicates. The recorded edge sets hold each edge once (`set.update`, dotcode.py:282-283), and the guarded `remove` at dotcode.py:287-292 takes out one copy, so a doubled edge keeps a copy. `Actions.VisitKeepsCopy` shows this.
- Edges are compared by value on their start, end and label (`Graph.Edge`). The source's `in`, `remove` and `set.update` on edges (dotcode.py:263-264, 282-283, 288-292) use the equality and hashing of rosgraph's `Edge` class, which is not part of this model; the model assumes they agree.
- `Pipeline.EdgesPointAtNodes` and `Pipeline.GeneratedEdgesPointAtNodes` hold only when no selected process is faulty in quiet mode. The code skips such a process but still draws its edges.
- `Pipeline.EdgesPointAtNodes` matches a topic end by its stripped graph name and then requires that topic's label to be drawn. The model does not relate `node_topic`'s label to the edge's end string, because that function is not part of this model.
