# buildbot-scheduler-graph, modelled in Dafny

buildbot-scheduler-graph draws the schedulers of a buildbot master as graphs.
Each scheduler gets a node labelled `"<name> scheduler"`. It also gets a node
for every builder it notifies and for every builder upstream of it. The
graphs of dependent schedulers are folded into the graphs of the root
schedulers they hang from. Chunked builders such as `"foo 1/8"` … `"foo 8/8"`
can be collapsed into one node `"foo"`.

This project models the in-memory graph engine and proves properties of it.
The engine exists in two versions:

- `buildbot_scheduler_graph.py`:
  - `chunked_builder_pattern`: module `ChunkPattern`, a hand-written matcher
    for the default pattern.
  - `parse_schedulers`: module `Parse`.
  - `merge_graph_info`: module `Merge`.
  - `merge_nodes`: module `Coalesce`, with Python's `str.replace` in
    module `PyString`.
- `graph.py`, the earlier engine: the `graph_objects` builder loop and the
  `merge_schedulers` fixed-point loop, in module `LegacyGraph`.

Module `Types` holds the shared values:

- the scheduler descriptor;
- edges;
- the `" scheduler"` label;
- `Enumerates(order, keys)`. Python does not fix the order in which a dict
  or set iterates; `Enumerates` states that a parameter `order` lists the
  keys of one, each exactly once.

Both sources are imperative, and so is the model:

- Each loop of the source is a `method` with a `while` or `for` loop and its
  invariants. Each method is proved equal to a specification function of its
  inputs: `Parsed`, `Merged`, `MergedNodes`, `Built`, `Isolated`.
- Lemmas about those functions state what the program promises.
- The dictionaries of sets that the source updates in place are value maps of
  datatypes. A method returns the new map.

What is proved, in brief:

- parse_schedulers: each graph holds exactly the scheduler's label, its
  builders and its upstream builders. Edges run out to the builders and in
  from the upstreams; every edge endpoint is a node. `root` holds exactly
  when none of the three upstream relations is set. A later scheduler with
  the same name overwrites an earlier one.
- merge_graph_info:
  - the result keeps exactly the root schedulers;
  - a graph only gains nodes and edges, and every one comes from some input
    graph;
  - closure (every edge endpoint is a node) is preserved;
  - the result is the same in every iteration order. Before the filter of
    line 97 it is the least map covering the input in which every graph
    holding the source of an original edge of `s` holds all of the graph
    of `s`;
  - a graph is merged into another only when a source of its original edges
    is among the other's current nodes, never into itself.
- merge_nodes:
  - the pattern match is characterised, and the basename is the prefix
    before the last space;
  - the group test is an if-and-only-if;
  - `mergeable` is never assigned (`UnboundLocalError`) exactly when no group
    has two or more members;
  - unmatched nodes and groups of one are kept;
  - only the last group visited is written out, with the verdict of the last
    group of two or more.
- graph.py: sharing a builder is symmetric, so one pass of `merge_schedulers`
  deletes *every* scheduler that shares a builder with another. What remains
  is untouched. The second pass merges nothing, so the `while` loop stops,
  and no two remaining schedulers share a builder. A scenario lemma shows an
  aggregating scheduler and its upstream both vanishing.

## Model

| member | source | states |
|---|---|---|
| Types.LabelInjective | buildbot_scheduler_graph.py:33 | two schedulers get the same `"%s scheduler"` label exactly when they have the same name |
| PyString.Replace | buildbot_scheduler_graph.py:138 | `str.replace`: every non-overlapping occurrence, scanning left to right, is replaced, and an empty pattern inserts the replacement at every gap as Python does; a replacement as long as the pattern keeps the length |
| PyString.ReplaceSelf | buildbot_scheduler_graph.py:138 | `str.replace(p, p)` leaves every string unchanged, including for an empty `p` |
| PyString.ReplaceAbsent | buildbot_scheduler_graph.py:151 | a string without an occurrence of a non-empty pattern is left unchanged by `str.replace` |
| PyString.ReplaceWhole | buildbot_scheduler_graph.py:151 | a label equal to the pattern becomes exactly the replacement, the empty pattern included |
| ChunkPattern.LastSpace | buildbot_scheduler_graph.py:16 | the index returned holds a space and no later index does, or it is -1 when the label has no space |
| ChunkPattern.MarkerHasNoSpace | buildbot_scheduler_graph.py:16 | text matching `\d+/\d+$` contains no space |
| ChunkPattern.MatchAtLastSpace | buildbot_scheduler_graph.py:16 | any match of the pattern puts the space before the marker at the label's last space |
| ChunkPattern.Basename | buildbot_scheduler_graph.py:109-111 | `r.match(n)` with `groupdict()["basename"]`: when defined, a prefix of the label ending at a match, followed by the label's last space; undefined when the pattern does not match there |
| ChunkPattern.BasenameMatches | buildbot_scheduler_graph.py:109-111 | `Basename(n)` is defined exactly when `re.match` succeeds, and it is the group `basename` of every match |
| ChunkPattern.BasenameSplits | buildbot_scheduler_graph.py:109-111 | a matching label is basename, one space, and a `\d+/\d+` marker (optionally followed by one newline); the basename has no newline |
| Parse.SchedulerGraph | buildbot_scheduler_graph.py:33-65 | the graph of one scheduler: the label and every notified builder are nodes with an edge out to each builder; every triggering, dependent and aggregated builder is a node with an edge into the label; there are no other nodes or edges, so every edge endpoint is a node |
| Parse.AddBuilders | buildbot_scheduler_graph.py:38-41 | the loop adds every notified builder as a node and an edge from the label |
| Parse.AddUpstream | buildbot_scheduler_graph.py:62-65 | the loop adds every listed builder as a node and an edge into the label |
| Parse.AddDependent | buildbot_scheduler_graph.py:53-57 | the loop adds the builders of every scheduler whose name is `upstream_name`, as nodes with edges into the label |
| Parse.AddSources | buildbot_scheduler_graph.py:42-65 | the three upstream relations add exactly the upstream sources; `root` ends true exactly when none of `trigger`, `upstream_name`, `upstreamBuilders` is set |
| Parse.ParseScheduler | buildbot_scheduler_graph.py:33-65 | the body of the loop builds exactly `SchedulerGraph` |
| Parse.ParseSchedulers | buildbot_scheduler_graph.py:18-67 | the result is the fold `Parsed` of `SchedulerGraph` over the schedulers in order |
| Parse.UpstreamOfStep | buildbot_scheduler_graph.py:53-57 | one more scheduler adds its builders to the dependent sources exactly when its name matches |
| Parse.ParsedKeys | buildbot_scheduler_graph.py:30-35 | the keys are exactly the labels of the input schedulers |
| Parse.ParsedLastWins | buildbot_scheduler_graph.py:30-35 | a label maps to the graph of the last scheduler with that name |
| Parse.ParsedGraphs | buildbot_scheduler_graph.py:30-35 | every parsed graph is the graph of some input scheduler with that label |
| Parse.ParsedClosed | buildbot_scheduler_graph.py:36-65 | in every parsed graph all edge endpoints are nodes, and the graph is that of one input scheduler with its label, whose `root` holds exactly when that scheduler has no upstream relation |
| Parse.TriggerableWithoutEntry | buildbot_scheduler_graph.py:42-48 | for a triggerable scheduler absent from `triggerables`, the trigger relation adds no edge into the label and raises no error, yet the scheduler is not a root |
| Parse.DependentUpstream | buildbot_scheduler_graph.py:50-57 | for a dependent scheduler whose upstream name matches nothing, the dependent relation adds no edge into the label, yet the scheduler is not a root; every matching scheduler contributes all its builders |
| Parse.PlainGraph | buildbot_scheduler_graph.py:36-41 | a scheduler with one builder and no upstream is a root with one node per label and builder and one edge |
| Parse.DependentGraph | buildbot_scheduler_graph.py:50-57 | a dependent scheduler with one builder gets edges from exactly the builders of its upstream and is not a root |
| Parse.DependentOnBase | buildbot_scheduler_graph.py:18-67 | a root "base" notifying "upstream" and "foo" depending on it parse to the two expected graphs, "foo" with an edge from "upstream" |
| Merge.MergeStep | buildbot_scheduler_graph.py:85-95 | one visit of (`s`, `other_s`) changes only `other_s`, never when it is `s`, and only when a source of an original edge of `s` is among the current nodes of `other_s`; it then takes the union of the current graph of `s` and keeps its `root` |
| Merge.MergeRow | buildbot_scheduler_graph.py:83-95 | the inner loop for one `s` keeps the keys and `root` flags and only grows nodes and edges |
| Merge.MergeAll | buildbot_scheduler_graph.py:75-95 | the outer loop keeps the keys and `root` flags and only grows nodes and edges |
| Merge.Roots | buildbot_scheduler_graph.py:97 | the final comprehension keeps exactly the entries whose `root` is true, unchanged |
| Merge.MergeInto | buildbot_scheduler_graph.py:90-95 | scanning the original edges of `s` with `break` at the first match performs exactly `MergeStep` |
| Merge.MergeScheduler | buildbot_scheduler_graph.py:80-95 | the loop over `other_s` for one `s` is `MergeRow`; a root `s` is not skipped |
| Merge.MergeGraphInfo | buildbot_scheduler_graph.py:70-97 | the function returns `Merged`, the root entries after folding every row on a copy of the input |
| Merge.MergeRowInvariants | buildbot_scheduler_graph.py:83-95 | a row keeps every graph within the input's nodes and edges and keeps closure |
| Merge.MergeAllInvariants | buildbot_scheduler_graph.py:75-95 | the outer loop keeps every graph within the input's nodes and edges and keeps closure |
| Merge.MergedKeepsRoots | buildbot_scheduler_graph.py:97 | the result's keys are exactly the input roots; each result graph is a root and a superset of its input graph |
| Merge.MergedOnlyUnions | buildbot_scheduler_graph.py:91-94 | every node and edge of a result graph occurs in some input graph |
| Merge.MergedPreservesClosure | buildbot_scheduler_graph.py:93-94 | if every input graph has its edge endpoints among its nodes, so does every result graph |
| Merge.RowResult | buildbot_scheduler_graph.py:83-95 | one row as a whole: the graph of `s` is unchanged, and every other graph takes the union of the graph of `s` exactly when it held the source of an original edge of `s` at the start of the row |
| Merge.RowPointwise | buildbot_scheduler_graph.py:83-95 | after visiting any duplicate-free list of others, each visited graph is as `RowResult` gives it and every other graph is unchanged, whatever the order of the visits |
| Merge.RowOfAll | buildbot_scheduler_graph.py:83-95 | a row over every key is `RowResult` |
| Merge.RowAbsorbs | buildbot_scheduler_graph.py:75-95 | a row keeps, for every row already run, that each graph holding the source of one of its original edges holds all of its current graph, and adds the same for the new row |
| Merge.MergeAllAbsorbs | buildbot_scheduler_graph.py:75-95 | after the rows of `visited`, every graph holding the source of an original edge of a visited `s` holds all of the current graph of `s` |
| Merge.MergeRowBelow | buildbot_scheduler_graph.py:83-95 | a row stays within any map that contains the current graphs and absorbs in the same sense for every row |
| Merge.MergeAllBelow | buildbot_scheduler_graph.py:75-95 | the outer loop stays within any map that covers the input and absorbs for every row |
| Merge.MergeAllLeast | buildbot_scheduler_graph.py:75-95 | the merged map before the filter of line 97 is the least map that covers the input and absorbs for every row |
| Merge.MergeAllWithinOther | buildbot_scheduler_graph.py:75-95 | the map left in one iteration order lies within the map left in any other |
| Merge.MergeAllOrderIndependent | buildbot_scheduler_graph.py:75-95 | the merging loops leave the same map in every iteration order |
| Merge.MergedOrderIndependent | buildbot_scheduler_graph.py:70-97 | `merge_graph_info` returns the same result in every iteration order of `graph_info` |
| Merge.BaseRowIdle | buildbot_scheduler_graph.py:88-91 | in the two-graph scenario `BaseAndDependent` (a root notifying "upstream" and a scheduler depending on it), the root's row changes nothing: its only edge starts at its own label, which the dependent graph does not hold |
| Merge.DependentRowAbsorbs | buildbot_scheduler_graph.py:88-95 | a dependent graph with an edge from a builder of the root is merged into the root |
| Merge.RootOfAbsorbed | buildbot_scheduler_graph.py:97 | after the merge only the root is kept, holding both graphs |
| Merge.MergedBaseAndDependent | buildbot_scheduler_graph.py:70-97 | `merge_graph_info` on a root and its dependent returns the root alone, holding all nodes and edges of both |
| Merge.DependentMergedIntoBase | buildbot_scheduler_graph.py:70-97 | the graphs of "base" and of "foo" depending on it merge into the single root "base scheduler" |
| Coalesce.RenameEdges | buildbot_scheduler_graph.py:138 | the list comprehension renames both endpoints of every incident edge, keeping length and order |
| Coalesce.RenameEdgesSelf | buildbot_scheduler_graph.py:138 | renaming a member to itself leaves its edge list unchanged (`str.replace(n, n)` is the identity) |
| Coalesce.GroupNodes | buildbot_scheduler_graph.py:106-114 | the loop leaves the unmatched nodes in `merged_nodes` and the groups in `node_groups` |
| Coalesce.ListIncident | buildbot_scheduler_graph.py:115-117 | the loop lists every edge under its source and its destination, in order |
| Coalesce.CheckGroup | buildbot_scheduler_graph.py:126-142 | `mergeable` ends true exactly when every later member has as many incident edges as the first and the same list after renaming itself to the first |
| Coalesce.AddRenamed | buildbot_scheduler_graph.py:149-151 | the loop adds every member's incident edges with the member renamed to the basename |
| Coalesce.CopyIncident | buildbot_scheduler_graph.py:155-156 | the loop adds every member's incident edges unchanged |
| Coalesce.VisitGroups | buildbot_scheduler_graph.py:120-142 | the group loop adds the members of small groups, leaves `mergeable` as the last group of two or more set it, and leaves `basename` and `nodes` bound to the last group |
| Coalesce.WriteLastGroup | buildbot_scheduler_graph.py:144-156 | the block after the loop writes the last group merged into its basename, or copied |
| Coalesce.MergeNodes | buildbot_scheduler_graph.py:100-158 | the function returns `MergedNodes`, or fails (None) where Python raises `UnboundLocalError` |
| Coalesce.GroupsMembers | buildbot_scheduler_graph.py:108-112 | every group is nonempty and holds input nodes whose basename is the group's key |
| Coalesce.GroupsKeys | buildbot_scheduler_graph.py:108-112 | the group keys are exactly the basenames of matching nodes |
| Coalesce.UnmatchedContents | buildbot_scheduler_graph.py:113-114 | a node is in the unmatched set exactly when it is an input node that does not match |
| Coalesce.GroupsComplete | buildbot_scheduler_graph.py:108-112 | every matching input node is in the group of its basename |
| Coalesce.IncidentMapContents | buildbot_scheduler_graph.py:115-117 | an edge is listed under a node exactly when it is an input edge with that node as an endpoint |
| Coalesce.ScanSmall | buildbot_scheduler_graph.py:122-124 | the group loop adds exactly the members of the groups of fewer than two nodes |
| Coalesce.ScanNone | buildbot_scheduler_graph.py:120-126 | `mergeable` stays unassigned exactly when every group visited has fewer than two nodes |
| Coalesce.ScanVerdict | buildbot_scheduler_graph.py:120-142 | otherwise `mergeable` is the verdict on the last group of two or more, with only small groups after it |
| Coalesce.MergedNodesRaises | buildbot_scheduler_graph.py:146 | merge_nodes fails exactly when no basename has a group of two or more nodes |
| Coalesce.MergedNodesKeeps | buildbot_scheduler_graph.py:108-124 | when it returns, every unmatched node and every member of a group of one is in the result |
| Coalesce.MergedNodesStale | buildbot_scheduler_graph.py:120-156 | the group written out is the last one visited, whatever its size, judged by the verdict on the last group of two or more |
| Coalesce.MergedNodesWithin | buildbot_scheduler_graph.py:102-156 | the result nodes are input nodes or basenames |
| Coalesce.GroupsWithin | buildbot_scheduler_graph.py:108-112 | every group holds input nodes only |
| Coalesce.SmallWithin | buildbot_scheduler_graph.py:122-123 | the members added for small groups come from the groups |
| Coalesce.LastGroupEdges | buildbot_scheduler_graph.py:146-156 | the result edges are exactly the input edges incident to the last group: renamed to the basename when mergeable, unchanged otherwise; no other edge is copied |
| Coalesce.NoSpaceNoBasename | buildbot_scheduler_graph.py:16 | a label without a space matches no pattern |
| Coalesce.FooShard | buildbot_scheduler_graph.py:16 | "foo d/d" with digits d has the basename "foo" |
| Coalesce.ShardBasenames | buildbot_scheduler_graph.py:109-111 | "base" does not match; "foo 1/2" and "foo 2/2" have the basename "foo" |
| Coalesce.ShardGroups | buildbot_scheduler_graph.py:108-114 | "base", "foo 1/2", "foo 2/2" give the unmatched "base" and the one group "foo" of both shards |
| Coalesce.SameShardEdges | buildbot_scheduler_graph.py:115-117 | the incident lists of two edges from "base" to the shards |
| Coalesce.ExtraShardEdges | buildbot_scheduler_graph.py:115-117 | the incident lists once "foo 2/2" also has an edge back to "base" |
| Coalesce.SameShardRenamed | buildbot_scheduler_graph.py:138 | renaming "foo 2/2" to "foo 1/2" turns its edge list into that of "foo 1/2" |
| Coalesce.PairWithDifferentCounts | buildbot_scheduler_graph.py:133-136 | two members with different edge counts are not mergeable |
| Coalesce.MergedNodesOfScan | buildbot_scheduler_graph.py:144-156 | once the loop has left its small members and a verdict, the result is the last group written out |
| Coalesce.IncidentOfPair | buildbot_scheduler_graph.py:149-156 | the edges written for a group of two are those of each member |
| Coalesce.RenamedSingletons | buildbot_scheduler_graph.py:149-151 | the renamed edges of two members with one edge each |
| Coalesce.CoalesceShards | buildbot_scheduler_graph.py:100-158 | two shards with the same edges from "base" collapse into the node "foo" with the single edge ("base", "foo") |
| Coalesce.ExtraShardScan | buildbot_scheduler_graph.py:120-136 | a shard with one edge more makes the group unmergeable |
| Coalesce.ExtraShardIncident | buildbot_scheduler_graph.py:155-156 | the edges copied for both shards are all the input edges |
| Coalesce.UnmergeableShards | buildbot_scheduler_graph.py:100-158 | with that extra edge both shards and every edge are copied unchanged |
| LegacyGraph.InitialGraph | graph.py:12-33 | every builder is a node and a builder with an edge from the label; nodes are the label and the builders; a dependent scheduler gets an edge from the raw, unsuffixed `upstream_name`, which is not made a node; an aggregated builder gets an edge unless it is an own builder; every edge starts or ends at the label |
| LegacyGraph.AddOwnBuilders | graph.py:16-20 | the loop adds every builder to `builders` and `nodes`, with an edge from the label |
| LegacyGraph.AddAggregated | graph.py:26-33 | the loop adds every aggregated builder to `builders`, and those not already own builders to `nodes` with an edge into the label |
| LegacyGraph.BuildGraph | graph.py:12-33 | the body of the builder loop builds exactly `InitialGraph` |
| LegacyGraph.BuildGraphInfo | graph.py:8-33 | the builder loop yields `Built`, a later scheduler with the same name replacing the earlier one |
| LegacyGraph.PassStep | graph.py:43-51 | visiting `s` leaves the keys, the graph of `s` and every `builders` set alone; a graph changes only if it is another scheduler sharing a builder with `s`, and each such graph takes the union of the nodes and edges of `s` |
| LegacyGraph.PassState | graph.py:42-51 | the pass keeps the keys |
| LegacyGraph.Isolated | graph.py:52-53 | the schedulers sharing no builder, with their graphs unchanged |
| LegacyGraph.Remaining | graph.py:52-53 | the iteration order after deletions lists the surviving keys once each |
| LegacyGraph.OverlapSymmetric | graph.py:43-47 | sharing a builder is symmetric |
| LegacyGraph.PassStateShape | graph.py:42-51 | through a pass keys and builders never change, nodes and edges only grow, and a scheduler that shares no builder is untouched |
| LegacyGraph.SharingPairRemoved | graph.py:42-53 | two schedulers that share a builder are both deleted by the pass |
| LegacyGraph.IsolatedNoSharing | graph.py:40-57 | after a pass no remaining scheduler shares a builder, so a second pass deletes nothing |
| LegacyGraph.IsolatedShrinks | graph.py:52-57 | a pass that merges something strictly shrinks `graph_info` |
| LegacyGraph.MergeBuilder | graph.py:44-51 | the loop over `other_s` for one builder `b` unions `s` into every other scheduler holding `b`, and reports whether there was one |
| LegacyGraph.MergeOne | graph.py:43-51 | the loop over the builders of `s` performs `PassStep` and reports exactly whether `s` shares a builder |
| LegacyGraph.AbsorbedStep | graph.py:44-51 | visiting one more builder of `s` is one more `BuilderStep` |
| LegacyGraph.MergeSchedulers | graph.py:40-54 | one call of `merge_schedulers` leaves exactly the schedulers sharing no builder, unchanged, and returns true exactly when some scheduler shares a builder |
| LegacyGraph.VisitSchedulers | graph.py:41-51 | the loop over `graph_info` performs the pass and collects in `merged` exactly the schedulers that share a builder |
| LegacyGraph.SharingAmongAll | graph.py:42-49 | `merged` collects the visited schedulers that share a builder |
| LegacyGraph.SharingThroughPass | graph.py:42-51 | whether a scheduler shares a builder does not change during the pass |
| LegacyGraph.PassThenDelete | graph.py:52-53 | deleting the merged schedulers after the pass leaves the isolated ones as built |
| LegacyGraph.DeleteMerged | graph.py:52-53 | every merged scheduler is deleted and the rest are unchanged |
| LegacyGraph.Pass | graph.py:56 | one call of `merge_schedulers` and the order `graph_info` iterates in afterwards |
| LegacyGraph.AfterPass | graph.py:56-57 | a pass on the built graphs or on what a pass left gives the same result, and a merging pass shrinks `graph_info` |
| LegacyGraph.GraphObjects | graph.py:7-57 | the `while` loop terminates, and `graph_info` ends as the built schedulers that share no builder with another, exactly as built |
| LegacyGraph.IsolatedDisjoint | graph.py:43-57 | after the loop no two remaining schedulers share a builder |
| LegacyGraph.AggregatorDropsBoth | graph.py:7-57 | an aggregating scheduler over the builder of "base" shares that builder with it, so neither graph survives |

## Left out

- `main` of buildbot_scheduler_graph.py and graph.py after line 57: argument parsing, `imp.load_source`, loading the triggerables JSON file, pydot graph construction and PNG output. These are I/O and foreign libraries.
- Logging, `print` and `sys.stdout.flush`: they are side-effect-only diagnostics.
- A user-supplied `merge_pattern`: only the default `chunked_builder_pattern` is modelled, as a hand-written matcher. General regular expressions are out of scope.
- Mutation in place and `deepcopy`: the dictionaries of sets are values, so `merge_graph_info` and `merge_nodes` cannot modify their arguments. The model therefore states no separate non-mutation property, and aliasing between the sets is not modelled.
- Iteration orders of dicts and sets are parameters. In graph.py, the passes after a deletion iterate the original order without the deleted keys, as CPython 2 dicts do.
- A scheduler descriptor is a record: `trigger` is a boolean, and an absent or falsy `upstream_name` or `upstreamBuilders` is the empty string or sequence. Other truthy or falsy Python values are not modelled.
- LegacyGraph.GraphObjects: its `ensures` states the final map. The fact that no two remaining schedulers share a builder is proved separately, in `LegacyGraph.IsolatedDisjoint`.
- The chunk pattern works on Python 2 byte strings: `\d` is an ASCII digit and `.` any character but a newline. Unicode digit classes are not modelled.
- test_buildbot_scheduler_graph.py expects keys and nodes such as `'foo'`. The code labels them `'foo scheduler'` (buildbot_scheduler_graph.py:33). The model follows the code.
- The model follows the code where its comments suggest otherwise:
  - `trigger`, `upstream_name` and `upstreamBuilders` are tested one after another (buildbot_scheduler_graph.py:42, 50, 59), so a scheduler may have several of them, and each one adds its sources.
  - The comment at buildbot_scheduler_graph.py:76 says root schedulers are never merged, but line 78 is `pass`, so `merge_graph_info` scans the edges of roots too.
  - Each test at line 91 reads the growing nodes of `other_s` in `new_graph_info`, yet `merge_graph_info` returns the same graphs in every iteration order (`Merge.MergedOrderIndependent`).
  - The comment at buildbot_scheduler_graph.py:119 says the merging is done group by group, but lines 144-156 sit after the loop, so `merge_nodes` writes out only the last group visited.
