/** `merge_nodes` of buildbot_scheduler_graph.py: chunked builder nodes such
    as "foo 1/2" and "foo 2/2" are grouped by basename, a group is tested for
    identical incident edges, and the result sets are filled from the nodes
    that match no pattern, the groups of one member, and the group the loop
    visited last. */
module Coalesce {
  import opened Types
  import opened PyString
  import opened ChunkPattern

  /** The pair `(merged_nodes, merged_edges)` that merge_nodes returns. */
  datatype Coalesced = Coalesced(nodes: set<string>, edges: set<Edge>)

  /** The basenames of the nodes that match the pattern. */
  function Basenames(nodes: seq<string>): set<string>
  {
    if nodes == [] then {}
    else
      match Basename(nodes[|nodes| - 1])
      case None => Basenames(nodes[..|nodes| - 1])
      case Some(b) => Basenames(nodes[..|nodes| - 1]) + {b}
  }

  /** The nodes that do not match the pattern. */
  function Unmatched(nodes: seq<string>): set<string>
  {
    if nodes == [] then {}
    else
      match Basename(nodes[|nodes| - 1])
      case None => Unmatched(nodes[..|nodes| - 1]) + {nodes[|nodes| - 1]}
      case Some(_) => Unmatched(nodes[..|nodes| - 1])
  }

  /** `node_groups` after the loop of lines 108-114 visited `nodes`: each
      basename maps to its matching nodes in visiting order. */
  function Groups(nodes: seq<string>): map<string, seq<string>>
  {
    if nodes == [] then map[]
    else
      var init, n := nodes[..|nodes| - 1], nodes[|nodes| - 1];
      assert nodes == init + [n];
      var g := Groups(init);
      match Basename(n)
      case None => g
      case Some(b) => g[b := Lookup(g, b) + [n]]
  }

  /** Line 116-117 for one edge: it is listed under its source and under its
      destination (twice under a node it loops on). */
  function AddIncident(nodeEdges: map<string, seq<Edge>>, e: Edge): map<string, seq<Edge>>
  {
    var m := nodeEdges[e.0 := Lookup(nodeEdges, e.0) + [e]];
    m[e.1 := Lookup(m, e.1) + [e]]
  }

  /** `node_edges` after the loop of lines 115-117 visited `edges`. */
  function IncidentMap(edges: seq<Edge>): map<string, seq<Edge>>
  {
    if edges == [] then map[]
    else AddIncident(IncidentMap(edges[..|edges| - 1]), edges[|edges| - 1])
  }

  /** Both endpoints of `e` with `member` replaced by `target`, as by
      `str.replace`. */
  function RenameEdge(e: Edge, member: string, target: string): Edge
  {
    (Replace(e.0, member, target), Replace(e.1, member, target))
  }

  /** The list comprehension of line 138. */
  function RenameEdges(es: seq<Edge>, member: string, target: string): (r: seq<Edge>)
    ensures |r| == |es|
    ensures forall i | 0 <= i < |es| :: r[i] == RenameEdge(es[i], member, target)
  {
    seq(|es|, i requires 0 <= i < |es| => RenameEdge(es[i], member, target))
  }

  /** Renaming a member to itself leaves its edge list unchanged. */
  lemma RenameEdgesSelf(es: seq<Edge>, member: string)
    ensures RenameEdges(es, member, member) == es
  {
    forall i | 0 <= i < |es|
      ensures RenameEdge(es[i], member, member) == es[i]
    {
      ReplaceSelf(es[i].0, member);
      ReplaceSelf(es[i].1, member);
    }
  }

  /** Member `n` has as many incident edges as the first member and, with
      its own label replaced by the first member's, the very same list. */
  predicate SameRole(nodeEdges: map<string, seq<Edge>>, n: string, first: string)
  {
    && |Lookup(nodeEdges, n)| == |Lookup(nodeEdges, first)|
    && RenameEdges(Lookup(nodeEdges, n), n, first) == Lookup(nodeEdges, first)
  }

  /** Every later member of the group plays the role of its first member. */
  predicate GroupMergeable(group: seq<string>, nodeEdges: map<string, seq<Edge>>)
    requires |group| > 0
  {
    forall t | 1 <= t < |group| :: SameRole(nodeEdges, group[t], group[0])
  }

  /** What the loop of line 120 leaves behind after visiting `order`: the
      members of the groups of fewer than two nodes, and `mergeable` as the
      last group of two or more left it (None while it is unassigned). */
  datatype Scan = Scan(small: set<string>, verdict: Option<bool>)

  function ScanGroups(groups: map<string, seq<string>>, nodeEdges: map<string, seq<Edge>>, order: seq<string>): (r: Scan)
    requires Elems(order) <= groups.Keys
    ensures r.verdict.Some? ==> order != []
  {
    if order == [] then Scan({}, None)
    else
      var init, b := order[..|order| - 1], order[|order| - 1];
      assert order == init + [b];
      var scan := ScanGroups(groups, nodeEdges, init);
      var group := groups[b];
      if |group| < 2 then scan.(small := scan.small + Elems(group))
      else scan.(verdict := Some(GroupMergeable(group, nodeEdges)))
  }

  /** The incident edges of each member, renamed to the group's basename. */
  function RenamedIncident(members: seq<string>, nodeEdges: map<string, seq<Edge>>, basename: string): set<Edge>
  {
    set n, e | n in members && e in Lookup(nodeEdges, n) :: RenameEdge(e, n, basename)
  }

  /** The incident edges of each member, unchanged. */
  function IncidentOf(members: seq<string>, nodeEdges: map<string, seq<Edge>>): set<Edge>
  {
    set n, e | n in members && e in Lookup(nodeEdges, n) :: e
  }

  /** Lines 143-156: the result sets once the loop is over, from the nodes
      `kept` so far and the last group visited, merged into its basename
      when `mergeable` and copied otherwise. */
  function LastGroup(kept: set<string>, mergeable: bool, basename: string, members: seq<string>, nodeEdges: map<string, seq<Edge>>): Coalesced
  {
    if mergeable then Coalesced(kept + {basename}, RenamedIncident(members, nodeEdges, basename))
    else Coalesced(kept + Elems(members), IncidentOf(members, nodeEdges))
  }

  /** The result of merge_nodes with the default pattern when the sets
      iterate as `nodes` and `edges` and `node_groups` iterates as
      `groupOrder`; None stands for the UnboundLocalError raised at line 146
      when no group of two or more nodes was visited. */
  function MergedNodes(nodes: seq<string>, edges: seq<Edge>, groupOrder: seq<string>): Option<Coalesced>
    requires Enumerates(groupOrder, Basenames(nodes))
  {
    GroupsKeys(nodes);
    var groups := Groups(nodes);
    var nodeEdges := IncidentMap(edges);
    var scan := ScanGroups(groups, nodeEdges, groupOrder);
    match scan.verdict
    case None => None
    case Some(mergeable) =>
      var basename := groupOrder[|groupOrder| - 1];
      Some(LastGroup(Unmatched(nodes) + scan.small, mergeable, basename, groups[basename], nodeEdges))
  }

  /** Lines 102 and 106-114: the nodes that match no pattern, and the
      groups of those that do. */
  method GroupNodes(nodes: seq<string>) returns (mergedNodes: set<string>, nodeGroups: map<string, seq<string>>)
    ensures mergedNodes == Unmatched(nodes)
    ensures nodeGroups == Groups(nodes)
  {
    mergedNodes, nodeGroups := {}, map[];
    for i := 0 to |nodes|
      invariant mergedNodes == Unmatched(nodes[..i])
      invariant nodeGroups == Groups(nodes[..i])
    {
      var n := nodes[i];
      assert nodes[..i + 1] == nodes[..i] + [n];
      assert nodes[..i + 1][..i] == nodes[..i];
      match Basename(n)
      case Some(basename) =>
        nodeGroups := nodeGroups[basename := Lookup(nodeGroups, basename) + [n]];
      case None =>
        mergedNodes := mergedNodes + {n};
    }
    assert nodes[..|nodes|] == nodes;
  }

  /** Lines 107 and 115-117: the incident edges of every node. */
  method ListIncident(edges: seq<Edge>) returns (nodeEdges: map<string, seq<Edge>>)
    ensures nodeEdges == IncidentMap(edges)
  {
    nodeEdges := map[];
    for i := 0 to |edges|
      invariant nodeEdges == IncidentMap(edges[..i])
    {
      var e := edges[i];
      assert edges[..i + 1][..i] == edges[..i];
      nodeEdges := nodeEdges[e.0 := Lookup(nodeEdges, e.0) + [e]];
      nodeEdges := nodeEdges[e.1 := Lookup(nodeEdges, e.1) + [e]];
    }
    assert edges[..|edges|] == edges;
  }

  /** Lines 126-142: a group is mergeable when every later member has as many
      incident edges as the first and the same list once renamed. */
  method CheckGroup(group: seq<string>, nodeEdges: map<string, seq<Edge>>) returns (mergeable: bool)
    requires |group| >= 2
    ensures mergeable <==> GroupMergeable(group, nodeEdges)
  {
    mergeable := true;
    var requiredEdges := Lookup(nodeEdges, group[0]);
    var t := 1;
    while t < |group|
      invariant 1 <= t <= |group|
      invariant mergeable
      invariant forall u | 1 <= u < t :: SameRole(nodeEdges, group[u], group[0])
    {
      var n := group[t];
      if |Lookup(nodeEdges, n)| != |requiredEdges| {
        mergeable := false;
        break;
      }
      var replacedEdges := RenameEdges(Lookup(nodeEdges, n), n, group[0]);
      if requiredEdges != replacedEdges {
        mergeable := false;
        break;
      }
      t := t + 1;
    }
  }

  /** Lines 149-151: each member's incident edges with the member renamed to
      the basename. */
  method AddRenamed(mergedEdges: set<Edge>, members: seq<string>, nodeEdges: map<string, seq<Edge>>, basename: string)
    returns (edges': set<Edge>)
    ensures edges' == mergedEdges + RenamedIncident(members, nodeEdges, basename)
  {
    edges' := mergedEdges;
    for i := 0 to |members|
      invariant edges' == mergedEdges + RenamedIncident(members[..i], nodeEdges, basename)
    {
      var n := members[i];
      var incident := Lookup(nodeEdges, n);
      ghost var before := edges';
      for j := 0 to |incident|
        invariant edges' == before + set e | e in incident[..j] :: RenameEdge(e, n, basename)
      {
        assert incident[..j + 1] == incident[..j] + [incident[j]];
        edges' := edges' + {RenameEdge(incident[j], n, basename)};
      }
      assert incident[..|incident|] == incident;
      assert members[..i + 1] == members[..i] + [n];
    }
    assert members[..|members|] == members;
  }

  /** Lines 155-156: each member's incident edges, unchanged. */
  method CopyIncident(mergedEdges: set<Edge>, members: seq<string>, nodeEdges: map<string, seq<Edge>>)
    returns (edges': set<Edge>)
    ensures edges' == mergedEdges + IncidentOf(members, nodeEdges)
  {
    edges' := mergedEdges;
    for i := 0 to |members|
      invariant edges' == mergedEdges + IncidentOf(members[..i], nodeEdges)
    {
      var n := members[i];
      assert members[..i + 1] == members[..i] + [n];
      edges' := edges' + Elems(Lookup(nodeEdges, n));
    }
    assert members[..|members|] == members;
  }

  /** Lines 120-142: the loop over the groups, which leaves the small groups'
      members in the result, `mergeable` as the last group of two or more set
      it, and `basename` and `nodes` bound to the last group visited. */
  method VisitGroups(nodeGroups: map<string, seq<string>>, nodeEdges: map<string, seq<Edge>>, groupOrder: seq<string>, mergedNodes: set<string>)
    returns (mergedNodes': set<string>, mergeable: Option<bool>, basename: string, members: seq<string>)
    requires Elems(groupOrder) <= nodeGroups.Keys
    ensures mergedNodes' == mergedNodes + ScanGroups(nodeGroups, nodeEdges, groupOrder).small
    ensures mergeable == ScanGroups(nodeGroups, nodeEdges, groupOrder).verdict
    ensures groupOrder != [] ==> basename == groupOrder[|groupOrder| - 1] && members == nodeGroups[basename]
  {
    mergedNodes' := mergedNodes;
    mergeable := None;
    basename, members := "", [];
    for k := 0 to |groupOrder|
      invariant mergedNodes' == mergedNodes + ScanGroups(nodeGroups, nodeEdges, groupOrder[..k]).small
      invariant mergeable == ScanGroups(nodeGroups, nodeEdges, groupOrder[..k]).verdict
      invariant 0 < k ==> basename == groupOrder[k - 1] && members == nodeGroups[basename]
    {
      assert groupOrder[..k + 1][..k] == groupOrder[..k];
      basename := groupOrder[k];
      members := nodeGroups[basename];
      if |members| < 2 {
        mergedNodes' := mergedNodes' + Elems(members);
      } else {
        var ok := CheckGroup(members, nodeEdges);
        mergeable := Some(ok);
      }
    }
    assert groupOrder[..|groupOrder|] == groupOrder;
  }

  method MergeNodes(nodes: seq<string>, edges: seq<Edge>, groupOrder: seq<string>) returns (result: Option<Coalesced>)
    requires Enumerates(groupOrder, Basenames(nodes))
    ensures result == MergedNodes(nodes, edges, groupOrder)
  {
    var mergedNodes, nodeGroups := GroupNodes(nodes);
    var nodeEdges := ListIncident(edges);
    GroupsKeys(nodes);
    var mergeable, basename, members;
    mergedNodes, mergeable, basename, members := VisitGroups(nodeGroups, nodeEdges, groupOrder, mergedNodes);
    match mergeable
    case None =>
      result := None;
    case Some(ok) =>
      var merged := WriteLastGroup(mergedNodes, ok, basename, members, nodeEdges);
      result := Some(merged);
  }

  /** Lines 143-156: the last group visited is written out. */
  method WriteLastGroup(mergedNodes: set<string>, mergeable: bool, basename: string, members: seq<string>, nodeEdges: map<string, seq<Edge>>)
    returns (result: Coalesced)
    ensures result == LastGroup(mergedNodes, mergeable, basename, members, nodeEdges)
  {
    var mergedEdges: set<Edge> := {};
    if mergeable {
      mergedEdges := AddRenamed(mergedEdges, members, nodeEdges, basename);
      result := Coalesced(mergedNodes + {basename}, mergedEdges);
    } else {
      mergedEdges := CopyIncident(mergedEdges, members, nodeEdges);
      result := Coalesced(mergedNodes + Elems(members), mergedEdges);
    }
  }

  /** Every group is nonempty and holds input nodes with its basename. */
  lemma {:induction false} GroupsMembers(nodes: seq<string>)
    ensures forall b | b in Groups(nodes) :: |Groups(nodes)[b]| > 0
    ensures forall b, n | b in Groups(nodes) && n in Groups(nodes)[b] :: n in nodes && Basename(n) == Some(b)
  {
    if nodes != [] {
      var init, n := nodes[..|nodes| - 1], nodes[|nodes| - 1];
      assert nodes == init + [n];
      GroupsMembers(init);
      var g := Groups(init);
      match Basename(n)
      case None =>
        assert Groups(nodes) == g;
      case Some(b0) =>
        assert Groups(nodes) == g[b0 := Lookup(g, b0) + [n]];
    }
  }

  /** The keys of `node_groups` are the basenames of the matching nodes. */
  lemma {:induction false} GroupsKeys(nodes: seq<string>)
    ensures Groups(nodes).Keys == Basenames(nodes)
  {
    if nodes != [] {
      var init, n := nodes[..|nodes| - 1], nodes[|nodes| - 1];
      assert nodes == init + [n];
      GroupsKeys(init);
    }
  }

  /** The nodes kept as they are are exactly those that match no pattern. */
  lemma {:induction false} UnmatchedContents(nodes: seq<string>)
    ensures forall n :: n in Unmatched(nodes) <==> n in nodes && Basename(n).None?
  {
    if nodes != [] {
      var init := nodes[..|nodes| - 1];
      assert nodes == init + [nodes[|nodes| - 1]];
      UnmatchedContents(init);
    }
  }

  /** Every matching node is in the group of its basename. */
  lemma {:induction false} GroupsComplete(nodes: seq<string>)
    ensures forall n | n in nodes && Basename(n).Some? ::
              Basename(n).value in Groups(nodes) && n in Groups(nodes)[Basename(n).value]
  {
    if nodes != [] {
      var init, n := nodes[..|nodes| - 1], nodes[|nodes| - 1];
      assert nodes == init + [n];
      GroupsComplete(init);
      var g := Groups(init);
      match Basename(n)
      case None =>
        assert Groups(nodes) == g;
      case Some(b0) =>
        var g' := g[b0 := Lookup(g, b0) + [n]];
        assert Groups(nodes) == g';
        forall m | m in nodes && Basename(m).Some? ensures Basename(m).value in g' && m in g'[Basename(m).value] {
          if m != n {
            assert m in init;
          }
        }
    }
  }

  /** A node's list in `node_edges` holds exactly the edges of which it is an
      endpoint. */
  lemma {:induction false} IncidentMapContents(edges: seq<Edge>, n: string)
    ensures forall e :: e in Lookup(IncidentMap(edges), n) <==> e in edges && (e.0 == n || e.1 == n)
  {
    if edges != [] {
      var init := edges[..|edges| - 1];
      assert edges == init + [edges[|edges| - 1]];
      IncidentMapContents(init, n);
    }
  }

  /** The loop over the groups leaves behind exactly the members of the
      groups of fewer than two nodes. */
  lemma {:induction false} ScanSmall(groups: map<string, seq<string>>, nodeEdges: map<string, seq<Edge>>, order: seq<string>)
    requires Elems(order) <= groups.Keys
    ensures forall n :: n in ScanGroups(groups, nodeEdges, order).small <==>
              exists k | 0 <= k < |order| :: order[k] in groups && |groups[order[k]]| < 2 && n in groups[order[k]]
  {
    if order != [] {
      var init, b := order[..|order| - 1], order[|order| - 1];
      assert order == init + [b];
      assert Elems(init) <= Elems(order);
      ScanSmall(groups, nodeEdges, init);
      forall k | 0 <= k < |init| ensures order[k] == init[k] {
      }
      var scan := ScanGroups(groups, nodeEdges, order);
      if |groups[b]| < 2 {
        forall n ensures n in scan.small <==> exists k | 0 <= k < |order| :: order[k] in groups && |groups[order[k]]| < 2 && n in groups[order[k]] {
          if n in groups[b] {
            assert order[|order| - 1] == b;
          }
        }
      }
    }
  }

  /** The loop leaves `mergeable` unassigned exactly when every group is
      small. */
  lemma {:induction false} ScanNone(groups: map<string, seq<string>>, nodeEdges: map<string, seq<Edge>>, order: seq<string>)
    requires Elems(order) <= groups.Keys
    ensures ScanGroups(groups, nodeEdges, order).verdict.None? <==>
              forall k | 0 <= k < |order| :: order[k] in groups && |groups[order[k]]| < 2
  {
    if order != [] {
      var init, b := order[..|order| - 1], order[|order| - 1];
      assert order == init + [b];
      assert Elems(init) <= Elems(order);
      assert b in Elems(order);
      ScanNone(groups, nodeEdges, init);
      forall k | 0 <= k < |init| ensures order[k] == init[k] && order[k] in groups {
        assert init[k] in Elems(init);
      }
      if |groups[b]| >= 2 {
        assert order[|order| - 1] == b;
      }
    }
  }

  /** Otherwise `mergeable` is the verdict on the last group of two or more,
      whichever small groups follow it. */
  lemma {:induction false} ScanVerdict(groups: map<string, seq<string>>, nodeEdges: map<string, seq<Edge>>, order: seq<string>)
    requires Elems(order) <= groups.Keys
    ensures ScanGroups(groups, nodeEdges, order).verdict.Some? ==>
              exists k | 0 <= k < |order| :: order[k] in groups && |groups[order[k]]| >= 2 &&
                (forall j | k < j < |order| :: order[j] in groups && |groups[order[j]]| < 2) &&
                ScanGroups(groups, nodeEdges, order).verdict.value == GroupMergeable(groups[order[k]], nodeEdges)
  {
    if order != [] {
      var init, b := order[..|order| - 1], order[|order| - 1];
      assert order == init + [b];
      assert Elems(init) <= Elems(order);
      assert b in Elems(order);
      ScanVerdict(groups, nodeEdges, init);
      var scan := ScanGroups(groups, nodeEdges, order);
      if |groups[b]| < 2 {
        if scan.verdict.Some? {
          var k :| 0 <= k < |init| && init[k] in groups && |groups[init[k]]| >= 2 &&
                   (forall j | k < j < |init| :: init[j] in groups && |groups[init[j]]| < 2) &&
                   scan.verdict.value == GroupMergeable(groups[init[k]], nodeEdges);
          assert order[k] == init[k];
          forall j | k < j < |order| ensures order[j] in groups && |groups[order[j]]| < 2 {
            if j < |init| { assert order[j] == init[j]; }
          }
        }
      } else {
        assert order[|order| - 1] == b && |groups[order[|order| - 1]]| >= 2;
      }
    }
  }

  /** merge_nodes raises UnboundLocalError exactly when no basename has a
      group of two or more nodes. */
  lemma MergedNodesRaises(nodes: seq<string>, edges: seq<Edge>, groupOrder: seq<string>)
    requires Enumerates(groupOrder, Basenames(nodes))
    ensures MergedNodes(nodes, edges, groupOrder).None? <==>
              forall b | b in Groups(nodes) :: |Groups(nodes)[b]| < 2
  {
    GroupsKeys(nodes);
    var groups := Groups(nodes);
    ScanNone(groups, IncidentMap(edges), groupOrder);
    forall b | b in groups ensures exists k | 0 <= k < |groupOrder| :: groupOrder[k] == b {
      assert b in Elems(groupOrder);
    }
    forall k | 0 <= k < |groupOrder| ensures groupOrder[k] in groups {
      assert groupOrder[k] in Elems(groupOrder);
    }
  }

  /** When merge_nodes returns, it keeps every node that matches no pattern
      and every member of a group of one. */
  lemma MergedNodesKeeps(nodes: seq<string>, edges: seq<Edge>, groupOrder: seq<string>)
    requires Enumerates(groupOrder, Basenames(nodes))
    requires MergedNodes(nodes, edges, groupOrder).Some?
    ensures forall n | n in nodes && Basename(n).None? :: n in MergedNodes(nodes, edges, groupOrder).value.nodes
    ensures forall b, n | b in Groups(nodes) && |Groups(nodes)[b]| < 2 && n in Groups(nodes)[b] ::
              n in MergedNodes(nodes, edges, groupOrder).value.nodes
  {
    GroupsKeys(nodes);
    UnmatchedContents(nodes);
    var groups := Groups(nodes);
    var scan := ScanGroups(groups, IncidentMap(edges), groupOrder);
    var b := groupOrder[|groupOrder| - 1];
    assert MergedNodes(nodes, edges, groupOrder).value ==
             LastGroup(Unmatched(nodes) + scan.small, scan.verdict.value, b, groups[b], IncidentMap(edges));
    ScanSmall(groups, IncidentMap(edges), groupOrder);
    forall b, n | b in groups && |groups[b]| < 2 && n in groups[b]
      ensures n in scan.small
    {
      assert b in Elems(groupOrder);
      var k :| 0 <= k < |groupOrder| && groupOrder[k] == b;
    }
  }

  /** When merge_nodes returns, the group it writes out is the last one
      visited, whatever its size, judged by the verdict on the last group of
      two or more: `mergeable` is not reset by the small groups after it. */
  lemma MergedNodesStale(nodes: seq<string>, edges: seq<Edge>, groupOrder: seq<string>)
    requires Enumerates(groupOrder, Basenames(nodes))
    requires MergedNodes(nodes, edges, groupOrder).Some?
    ensures Elems(groupOrder) <= Groups(nodes).Keys
    ensures groupOrder != [] && groupOrder[|groupOrder| - 1] in Groups(nodes)
    ensures exists k | 0 <= k < |groupOrder| ::
              groupOrder[k] in Groups(nodes) && |Groups(nodes)[groupOrder[k]]| >= 2 &&
              (forall j | k < j < |groupOrder| :: groupOrder[j] in Groups(nodes) && |Groups(nodes)[groupOrder[j]]| < 2) &&
              MergedNodes(nodes, edges, groupOrder).value ==
                LastGroup(Unmatched(nodes) + ScanGroups(Groups(nodes), IncidentMap(edges), groupOrder).small,
                          GroupMergeable(Groups(nodes)[groupOrder[k]], IncidentMap(edges)),
                          groupOrder[|groupOrder| - 1], Groups(nodes)[groupOrder[|groupOrder| - 1]], IncidentMap(edges))
  {
    GroupsKeys(nodes);
    var groups := Groups(nodes);
    assert groupOrder[|groupOrder| - 1] in Elems(groupOrder);
    ScanVerdict(groups, IncidentMap(edges), groupOrder);
  }

  /** merge_nodes adds nothing but input nodes and basenames. */
  lemma MergedNodesWithin(nodes: seq<string>, edges: seq<Edge>, groupOrder: seq<string>)
    requires Enumerates(groupOrder, Basenames(nodes))
    requires MergedNodes(nodes, edges, groupOrder).Some?
    ensures MergedNodes(nodes, edges, groupOrder).value.nodes <= Elems(nodes) + Basenames(nodes)
  {
    GroupsKeys(nodes);
    var groups := Groups(nodes);
    var scan := ScanGroups(groups, IncidentMap(edges), groupOrder);
    var b := groupOrder[|groupOrder| - 1];
    assert b in Basenames(nodes) by {
      assert b in Elems(groupOrder);
    }
    assert Unmatched(nodes) <= Elems(nodes) by {
      UnmatchedContents(nodes);
    }
    assert Elems(groups[b]) <= Elems(nodes) && scan.small <= Elems(nodes) by {
      GroupsWithin(nodes);
      SmallWithin(groups, IncidentMap(edges), groupOrder, Elems(nodes));
    }
    assert MergedNodes(nodes, edges, groupOrder).value ==
             LastGroup(Unmatched(nodes) + scan.small, scan.verdict.value, b, groups[b], IncidentMap(edges));
  }

  /** Every group holds input nodes only. */
  lemma {:induction false} GroupsWithin(nodes: seq<string>)
    ensures forall b | b in Groups(nodes) :: Elems(Groups(nodes)[b]) <= Elems(nodes)
  {
    if nodes != [] {
      var init, n := nodes[..|nodes| - 1], nodes[|nodes| - 1];
      assert nodes == init + [n];
      GroupsWithin(init);
      var g := Groups(init);
      assert Elems(init) <= Elems(nodes);
      match Basename(n)
      case None =>
      case Some(b0) =>
        assert Elems(Lookup(g, b0) + [n]) == Elems(Lookup(g, b0)) + {n};
    }
  }

  /** The members of the small groups come from the groups. */
  lemma {:induction false} SmallWithin(groups: map<string, seq<string>>, nodeEdges: map<string, seq<Edge>>, order: seq<string>, universe: set<string>)
    requires Elems(order) <= groups.Keys
    requires forall b | b in groups :: Elems(groups[b]) <= universe
    ensures ScanGroups(groups, nodeEdges, order).small <= universe
  {
    if order != [] {
      var init := order[..|order| - 1];
      assert Elems(init) <= Elems(order);
      SmallWithin(groups, nodeEdges, init, universe);
    }
  }

  /** The edges merge_nodes returns, in terms of the input edges: those
      incident to the last group visited, renamed to its basename when the
      group is mergeable and unchanged otherwise; no other edge survives. */
  lemma LastGroupEdges(kept: set<string>, mergeable: bool, basename: string, members: seq<string>, edges: seq<Edge>)
    ensures mergeable ==>
              LastGroup(kept, mergeable, basename, members, IncidentMap(edges)).edges ==
                set n, e | n in members && e in edges && (e.0 == n || e.1 == n) :: RenameEdge(e, n, basename)
    ensures !mergeable ==>
              LastGroup(kept, mergeable, basename, members, IncidentMap(edges)).edges ==
                set e | e in edges && (e.0 in members || e.1 in members)
  {
    forall n | n in members {
      IncidentMapContents(edges, n);
    }
  }

  /** A label with no space matches no pattern. */
  lemma NoSpaceNoBasename(n: string)
    requires forall j | 0 <= j < |n| :: n[j] != ' '
    ensures Basename(n) == None
  {
  }

  /** "foo " followed by a digit, a slash and a digit is a shard of "foo". */
  lemma FooShard(n: string, c: char, d: char)
    requires IsDigit(c) && IsDigit(d) && n == "foo " + [c, '/', d]
    ensures Basename(n) == Some("foo")
  {
    var u := n[4..];
    assert u == [c, '/', d];
    assert u[..1] == [c] && u[2..] == [d];
    assert ShardAt(u, 1);
    assert n[..3] == "foo" && n[3] == ' ';
    assert MatchesAt(n, 3);
    BasenameMatches(n);
  }

  /** "base" matches no pattern, and the shards "foo 1/2" and "foo 2/2" have
      the basename "foo". */
  lemma ShardBasenames()
    ensures Basename("base") == None
    ensures Basename("foo 1/2") == Some("foo") && Basename("foo 2/2") == Some("foo")
  {
    NoSpaceNoBasename("base");
    FooShard("foo 1/2", '1', '2');
    FooShard("foo 2/2", '2', '2');
  }

  /** How "base", "foo 1/2" and "foo 2/2" are grouped. */
  lemma ShardGroups()
    ensures Basenames(["base", "foo 1/2", "foo 2/2"]) == {"foo"}
    ensures Unmatched(["base", "foo 1/2", "foo 2/2"]) == {"base"}
    ensures Groups(["base", "foo 1/2", "foo 2/2"]) == map["foo" := ["foo 1/2", "foo 2/2"]]
  {
    var nodes := ["base", "foo 1/2", "foo 2/2"];
    ShardBasenames();
    var n1, n2 := nodes[..1], nodes[..2];
    assert n1[..0] == [] && n2[..1] == n1 && nodes[..2] == n2;
    assert n1 == ["base"] && n2 == ["base", "foo 1/2"];
    assert Basenames(n1) == {} && Unmatched(n1) == {"base"} && Groups(n1) == map[];
    assert [] + ["foo 1/2"] == ["foo 1/2"] && ["foo 1/2"] + ["foo 2/2"] == ["foo 1/2", "foo 2/2"];
    assert Basenames(n2) == {"foo"} && Unmatched(n2) == {"base"} && Groups(n2) == map["foo" := ["foo 1/2"]];
  }

  /** The incident lists and the verdict for the shards of `CoalesceShards`. */
  lemma SameShardEdges()
    ensures IncidentMap([("base", "foo 1/2"), ("base", "foo 2/2")]) ==
              map["base" := [("base", "foo 1/2"), ("base", "foo 2/2")], "foo 1/2" := [("base", "foo 1/2")], "foo 2/2" := [("base", "foo 2/2")]]
  {
    var edges := [("base", "foo 1/2"), ("base", "foo 2/2")];
    assert edges[..1][..0] == [] && edges[..1] == [edges[0]];
    assert "base" != "foo 1/2" && "base" != "foo 2/2" && "foo 1/2" != "foo 2/2";
    assert [] + [edges[0]] == [edges[0]] && [edges[0]] + [edges[1]] == [edges[0], edges[1]] && [] + [edges[1]] == [edges[1]];
    assert IncidentMap(edges[..1]) == map["base" := [edges[0]], "foo 1/2" := [edges[0]]];
  }

  /** The incident lists for the shards of `UnmergeableShards`. */
  lemma ExtraShardEdges()
    ensures IncidentMap([("base", "foo 1/2"), ("base", "foo 2/2"), ("foo 2/2", "base")]) ==
              map["base" := [("base", "foo 1/2"), ("base", "foo 2/2"), ("foo 2/2", "base")],
                  "foo 1/2" := [("base", "foo 1/2")],
                  "foo 2/2" := [("base", "foo 2/2"), ("foo 2/2", "base")]]
  {
    var edges := [("base", "foo 1/2"), ("base", "foo 2/2"), ("foo 2/2", "base")];
    var e1, e2 := edges[..1], edges[..2];
    assert e1[..0] == [] && e2[..1] == e1 && edges[..2] == e2;
    assert e1 == [edges[0]] && e2 == [edges[0], edges[1]];
    assert "base" != "foo 1/2" && "base" != "foo 2/2" && "foo 1/2" != "foo 2/2";
    assert [] + [edges[0]] == [edges[0]] && [edges[0]] + [edges[1]] == [edges[0], edges[1]] && [] + [edges[1]] == [edges[1]];
    assert [edges[0], edges[1]] + [edges[2]] == edges && [edges[1]] + [edges[2]] == [edges[1], edges[2]];
    assert IncidentMap(e1) == map["base" := [edges[0]], "foo 1/2" := [edges[0]]];
    assert IncidentMap(e2) == map["base" := [edges[0], edges[1]], "foo 1/2" := [edges[0]], "foo 2/2" := [edges[1]]];
  }

  /** Renaming "foo 2/2" to "foo 1/2" in the edge list of "foo 2/2" gives
      the edge list of "foo 1/2". */
  lemma SameShardRenamed()
    ensures RenameEdges([("base", "foo 2/2")], "foo 2/2", "foo 1/2") == [("base", "foo 1/2")]
  {
    ReplaceWhole("foo 2/2", "foo 1/2");
    assert Replace("base", "foo 2/2", "foo 1/2") == "base";
  }

  /** A pair of members with different edge counts is not mergeable. */
  lemma PairWithDifferentCounts(group: seq<string>, nodeEdges: map<string, seq<Edge>>)
    requires |group| == 2 && |Lookup(nodeEdges, group[1])| != |Lookup(nodeEdges, group[0])|
    ensures !GroupMergeable(group, nodeEdges)
  {
    assert !SameRole(nodeEdges, group[1], group[0]);
  }

  /** merge_nodes once the loop left `small` behind and the verdict `v`. */
  lemma MergedNodesOfScan(nodes: seq<string>, edges: seq<Edge>, groupOrder: seq<string>, small: set<string>, v: bool)
    requires Enumerates(groupOrder, Basenames(nodes))
    requires Elems(groupOrder) <= Groups(nodes).Keys
    requires ScanGroups(Groups(nodes), IncidentMap(edges), groupOrder) == Scan(small, Some(v))
    ensures groupOrder != [] && groupOrder[|groupOrder| - 1] in Groups(nodes)
    ensures MergedNodes(nodes, edges, groupOrder) ==
              Some(LastGroup(Unmatched(nodes) + small, v, groupOrder[|groupOrder| - 1],
                             Groups(nodes)[groupOrder[|groupOrder| - 1]], IncidentMap(edges)))
  {
    GroupsKeys(nodes);
    assert groupOrder[|groupOrder| - 1] in Elems(groupOrder);
  }

  /** The edges of a group of two, unchanged and renamed. */
  lemma IncidentOfPair(a: string, b: string, nodeEdges: map<string, seq<Edge>>, basename: string)
    ensures IncidentOf([a, b], nodeEdges) == Elems(Lookup(nodeEdges, a)) + Elems(Lookup(nodeEdges, b))
    ensures RenamedIncident([a, b], nodeEdges, basename) ==
              (set e | e in Lookup(nodeEdges, a) :: RenameEdge(e, a, basename)) +
              (set e | e in Lookup(nodeEdges, b) :: RenameEdge(e, b, basename))
  {
  }

  /** The renamed edges of a group of two members with one edge each. */
  lemma RenamedSingletons(a: string, b: string, nodeEdges: map<string, seq<Edge>>, basename: string, ea: Edge, eb: Edge)
    requires Lookup(nodeEdges, a) == [ea] && Lookup(nodeEdges, b) == [eb]
    ensures RenamedIncident([a, b], nodeEdges, basename) == {RenameEdge(ea, a, basename), RenameEdge(eb, b, basename)}
  {
    IncidentOfPair(a, b, nodeEdges, basename);
  }

  /** Two shards with the same edges are merged into their basename. */
  lemma CoalesceShards(nodes: seq<string>, edges: seq<Edge>)
    requires nodes == ["base", "foo 1/2", "foo 2/2"]
    requires edges == [("base", "foo 1/2"), ("base", "foo 2/2")]
    ensures Enumerates(["foo"], Basenames(nodes))
    ensures MergedNodes(nodes, edges, ["foo"]) == Some(Coalesced({"base", "foo"}, {("base", "foo")}))
  {
    ShardGroups();
    SameShardEdges();
    var groups := Groups(nodes);
    var nodeEdges := IncidentMap(edges);
    var g := groups["foo"];
    assert "base" != "foo 1/2" && "base" != "foo 2/2" && "foo 1/2" != "foo 2/2";
    assert Lookup(nodeEdges, g[1]) == [("base", "foo 2/2")] && Lookup(nodeEdges, g[0]) == [("base", "foo 1/2")];
    SameShardRenamed();
    assert SameRole(nodeEdges, g[1], g[0]);
    assert GroupMergeable(g, nodeEdges);
    assert ["foo"][..0] == [];
    assert ScanGroups(groups, nodeEdges, ["foo"]) == Scan({}, Some(true));
    MergedNodesOfScan(nodes, edges, ["foo"], {}, true);
    ReplaceWhole("foo 1/2", "foo");
    ReplaceWhole("foo 2/2", "foo");
    assert Replace("base", "foo 1/2", "foo") == "base" && Replace("base", "foo 2/2", "foo") == "base";
    assert RenameEdge(("base", "foo 1/2"), "foo 1/2", "foo") == ("base", "foo");
    assert RenameEdge(("base", "foo 2/2"), "foo 2/2", "foo") == ("base", "foo");
    assert g == [g[0], g[1]];
    RenamedSingletons(g[0], g[1], nodeEdges, "foo", ("base", "foo 1/2"), ("base", "foo 2/2"));
    var kept := Unmatched(nodes) + {};
    assert kept == {"base"};
    assert ["foo"][|["foo"]| - 1] == "foo";
    assert MergedNodes(nodes, edges, ["foo"]) == Some(LastGroup(kept, true, "foo", g, nodeEdges));
    assert RenamedIncident(g, nodeEdges, "foo") == {("base", "foo")};
    assert kept + {"foo"} == {"base", "foo"};
  }

  /** The verdict on the shards of `UnmergeableShards`: "foo 2/2" has one
      edge more than "foo 1/2". */
  lemma ExtraShardScan(nodes: seq<string>, edges: seq<Edge>)
    requires nodes == ["base", "foo 1/2", "foo 2/2"]
    requires edges == [("base", "foo 1/2"), ("base", "foo 2/2"), ("foo 2/2", "base")]
    ensures Groups(nodes) == map["foo" := ["foo 1/2", "foo 2/2"]]
    ensures ScanGroups(Groups(nodes), IncidentMap(edges), ["foo"]) == Scan({}, Some(false))
  {
    ShardGroups();
    ExtraShardEdges();
    var nodeEdges := IncidentMap(edges);
    var g := Groups(nodes)["foo"];
    assert "base" != "foo 1/2" && "base" != "foo 2/2" && "foo 1/2" != "foo 2/2";
    assert |Lookup(nodeEdges, g[1])| == 2 && |Lookup(nodeEdges, g[0])| == 1;
    PairWithDifferentCounts(g, nodeEdges);
    assert ["foo"][..0] == [];
  }

  /** The incident edges of the shards of `UnmergeableShards` are all of them. */
  lemma ExtraShardIncident(edges: seq<Edge>)
    requires edges == [("base", "foo 1/2"), ("base", "foo 2/2"), ("foo 2/2", "base")]
    ensures IncidentOf(["foo 1/2", "foo 2/2"], IncidentMap(edges)) == Elems(edges)
  {
    ExtraShardEdges();
    IncidentOfPair("foo 1/2", "foo 2/2", IncidentMap(edges), "foo");
  }

  /** A shard with an extra edge keeps the group from being merged: both
      shards and every edge touching them are copied unchanged. */
  lemma UnmergeableShards(nodes: seq<string>, edges: seq<Edge>)
    requires nodes == ["base", "foo 1/2", "foo 2/2"]
    requires edges == [("base", "foo 1/2"), ("base", "foo 2/2"), ("foo 2/2", "base")]
    ensures Enumerates(["foo"], Basenames(nodes))
    ensures MergedNodes(nodes, edges, ["foo"]) == Some(Coalesced(Elems(nodes), Elems(edges)))
  {
    ShardGroups();
    ExtraShardScan(nodes, edges);
    MergedNodesOfScan(nodes, edges, ["foo"], {}, false);
    ExtraShardIncident(edges);
    var g := ["foo 1/2", "foo 2/2"];
    var kept := Unmatched(nodes) + {};
    assert kept == {"base"};
    assert ["foo"][|["foo"]| - 1] == "foo";
    assert MergedNodes(nodes, edges, ["foo"]) == Some(LastGroup(kept, false, "foo", g, IncidentMap(edges)));
    assert Elems(g) == {"foo 1/2", "foo 2/2"};
    assert kept + Elems(g) == Elems(nodes);
  }
}
