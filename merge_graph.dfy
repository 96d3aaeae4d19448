/** `merge_graph_info` of buildbot_scheduler_graph.py: every scheduler's graph
    is folded into each other graph that already holds the source of one of
    its edges, on a copy of the input; then only the root graphs are kept. */
module Merge {
  import opened Types
  import opened Parse

  /** Some edge of `edges` starts at a node of `nodes`. */
  predicate Anchored(edges: set<Edge>, nodes: set<string>)
  {
    exists e | e in edges :: e.0 in nodes
  }

  /** `into` after taking the union of the nodes and edges of `g`. */
  function Absorb(into: Graph, g: Graph): Graph
  {
    into.(nodes := into.nodes + g.nodes, edges := into.edges + g.edges)
  }

  /** One visit of the pair (`s`, `other`), lines 85-95: `orig` is the
      input, whose edges are tested, and `cur` the copy being merged into. */
  function MergeStep(orig: map<string, Graph>, cur: map<string, Graph>, s: string, other: string): (r: map<string, Graph>)
    requires s in orig && s in cur && other in cur
    ensures r.Keys == cur.Keys
    // only `other` can change, and never when it is `s` itself
    ensures forall k | k in cur && k != other :: r[k] == cur[k]
    ensures r[other] != cur[other] ==> s != other && Anchored(orig[s].edges, cur[other].nodes)
    // and when it does, it takes the union of the current graph of `s`
    ensures s != other && Anchored(orig[s].edges, cur[other].nodes) ==>
              r[other].nodes == cur[other].nodes + cur[s].nodes &&
              r[other].edges == cur[other].edges + cur[s].edges
    ensures r[other].root == cur[other].root
  {
    if s != other && Anchored(orig[s].edges, cur[other].nodes) then cur[other := Absorb(cur[other], cur[s])]
    else cur
  }

  /** The loop of line 83 for one `s`, after visiting `others`. */
  function MergeRow(orig: map<string, Graph>, cur: map<string, Graph>, s: string, others: seq<string>): (r: map<string, Graph>)
    requires s in orig && s in cur && Elems(others) <= cur.Keys
    ensures r.Keys == cur.Keys
    ensures forall k | k in r :: r[k].root == cur[k].root && cur[k].nodes <= r[k].nodes && cur[k].edges <= r[k].edges
  {
    if others == [] then cur
    else
      var init := others[..|others| - 1];
      assert Elems(init) <= Elems(others);
      MergeStep(orig, MergeRow(orig, cur, s, init), s, others[|others| - 1])
  }

  /** The loop of line 75 after visiting `visited`, every row scanning `order`. */
  function MergeAll(orig: map<string, Graph>, visited: seq<string>, order: seq<string>): (r: map<string, Graph>)
    requires Elems(visited) <= orig.Keys && Elems(order) <= orig.Keys
    ensures r.Keys == orig.Keys
    ensures forall k | k in r :: r[k].root == orig[k].root && orig[k].nodes <= r[k].nodes && orig[k].edges <= r[k].edges
  {
    if visited == [] then orig
    else
      var init := visited[..|visited| - 1];
      assert Elems(init) <= Elems(visited);
      MergeRow(orig, MergeAll(orig, init, order), visited[|visited| - 1], order)
  }

  /** Line 97: the root entries only. */
  function Roots(graphInfo: map<string, Graph>): (r: map<string, Graph>)
    ensures r.Keys == set s | s in graphInfo && graphInfo[s].root
    ensures forall s | s in r :: r[s] == graphInfo[s]
  {
    map s | s in graphInfo && graphInfo[s].root :: graphInfo[s]
  }

  /** The result of merge_graph_info when the dict iterates in `order`. */
  function Merged(graphInfo: map<string, Graph>, order: seq<string>): map<string, Graph>
    requires Enumerates(order, graphInfo.Keys)
  {
    Roots(MergeAll(graphInfo, order, order))
  }

  method MergeGraphInfo(graphInfo: map<string, Graph>, order: seq<string>) returns (result: map<string, Graph>)
    requires Enumerates(order, graphInfo.Keys)
    ensures result == Merged(graphInfo, order)
  {
    // deepcopy: the merging below works on a value of its own
    var newGraphInfo := graphInfo;
    for i := 0 to |order|
      invariant newGraphInfo == MergeAll(graphInfo, order[..i], order)
    {
      assert order[..i + 1][..i] == order[..i];
      newGraphInfo := MergeScheduler(graphInfo, newGraphInfo, order[i], order);
    }
    assert order[..|order|] == order;
    result := map s | s in newGraphInfo && newGraphInfo[s].root :: newGraphInfo[s];
  }

  /** Lines 80-95 for one scheduler `s`. A root scheduler is not skipped:
      the test of line 77 is followed by `pass`. */
  method MergeScheduler(graphInfo: map<string, Graph>, newGraphInfo: map<string, Graph>, s: string, order: seq<string>)
    returns (next: map<string, Graph>)
    requires s in graphInfo && s in newGraphInfo && Elems(order) <= newGraphInfo.Keys
    ensures next == MergeRow(graphInfo, newGraphInfo, s, order)
  {
    next := newGraphInfo;
    for j := 0 to |order|
      invariant next == MergeRow(graphInfo, newGraphInfo, s, order[..j])
    {
      var other := order[j];
      assert order[..j + 1][..j] == order[..j];
      if s != other {
        next := MergeInto(graphInfo, next, s, other);
      }
    }
    assert order[..|order|] == order;
  }

  /** Lines 90-95: scan the original edges of `s` and merge the current graph
      of `s` into `other` at the first edge whose source `other` holds. */
  method MergeInto(graphInfo: map<string, Graph>, newGraphInfo: map<string, Graph>, s: string, other: string)
    returns (next: map<string, Graph>)
    requires s in graphInfo && s in newGraphInfo && other in newGraphInfo && s != other
    ensures next == MergeStep(graphInfo, newGraphInfo, s, other)
  {
    next := newGraphInfo;
    var pending := graphInfo[s].edges;
    while pending != {}
      invariant pending <= graphInfo[s].edges
      invariant next == newGraphInfo
      invariant forall e | e in graphInfo[s].edges && e !in pending :: e.0 !in newGraphInfo[other].nodes
    {
      var edge :| edge in pending;
      if edge.0 in next[other].nodes {
        next := next[other := Absorb(next[other], next[s])];
        break;
      }
      pending := pending - {edge};
    }
  }

  /** Every node of the input graphs. */
  function AllNodes(graphInfo: map<string, Graph>): set<string>
  {
    set s, n | s in graphInfo && n in graphInfo[s].nodes :: n
  }

  /** Every edge of the input graphs. */
  function AllEdges(graphInfo: map<string, Graph>): set<Edge>
  {
    set s, e | s in graphInfo && e in graphInfo[s].edges :: e
  }

  /** `cur` holds nothing that is not in some graph of `orig`. */
  ghost predicate Within(cur: map<string, Graph>, orig: map<string, Graph>)
  {
    forall k | k in cur :: cur[k].nodes <= AllNodes(orig) && cur[k].edges <= AllEdges(orig)
  }

  /** Every edge endpoint of `g` is a node of `g`. */
  ghost predicate Closed(g: Graph)
  {
    forall e | e in g.edges :: e.0 in g.nodes && e.1 in g.nodes
  }

  lemma {:induction false} MergeRowInvariants(orig: map<string, Graph>, cur: map<string, Graph>, s: string, others: seq<string>)
    requires s in orig && s in cur && Elems(others) <= cur.Keys
    ensures Within(cur, orig) ==> Within(MergeRow(orig, cur, s, others), orig)
    ensures (forall k | k in cur :: Closed(cur[k])) ==>
              forall k | k in cur :: Closed(MergeRow(orig, cur, s, others)[k])
  {
    if others != [] {
      var init := others[..|others| - 1];
      assert Elems(init) <= Elems(others);
      MergeRowInvariants(orig, cur, s, init);
    }
  }

  lemma {:induction false} MergeAllInvariants(orig: map<string, Graph>, visited: seq<string>, order: seq<string>)
    requires Elems(visited) <= orig.Keys && Elems(order) <= orig.Keys
    ensures Within(MergeAll(orig, visited, order), orig)
    ensures (forall k | k in orig :: Closed(orig[k])) ==>
              forall k | k in orig :: Closed(MergeAll(orig, visited, order)[k])
  {
    if visited == [] {
      assert Within(orig, orig) by {
        forall k | k in orig ensures orig[k].nodes <= AllNodes(orig) && orig[k].edges <= AllEdges(orig) {
        }
      }
    } else {
      var init := visited[..|visited| - 1];
      assert Elems(init) <= Elems(visited);
      MergeAllInvariants(orig, init, order);
      MergeRowInvariants(orig, MergeAll(orig, init, order), visited[|visited| - 1], order);
    }
  }

  /** The keys of the result are exactly the root schedulers, whose `root`
      flags stay set, and each keeps at least its own nodes and edges. */
  lemma MergedKeepsRoots(graphInfo: map<string, Graph>, order: seq<string>)
    requires Enumerates(order, graphInfo.Keys)
    ensures Merged(graphInfo, order).Keys == set s | s in graphInfo && graphInfo[s].root
    ensures forall s | s in Merged(graphInfo, order) ::
              Merged(graphInfo, order)[s].root &&
              graphInfo[s].nodes <= Merged(graphInfo, order)[s].nodes &&
              graphInfo[s].edges <= Merged(graphInfo, order)[s].edges
  {
  }

  /** Merging only takes unions: every node and edge of a result graph
      comes from some input graph. */
  lemma MergedOnlyUnions(graphInfo: map<string, Graph>, order: seq<string>)
    requires Enumerates(order, graphInfo.Keys)
    ensures forall s | s in Merged(graphInfo, order) ::
              Merged(graphInfo, order)[s].nodes <= AllNodes(graphInfo) &&
              Merged(graphInfo, order)[s].edges <= AllEdges(graphInfo)
  {
    MergeAllInvariants(graphInfo, order, order);
  }

  /** If every input graph has its edge endpoints among its nodes, so does
      every result graph. */
  lemma MergedPreservesClosure(graphInfo: map<string, Graph>, order: seq<string>)
    requires Enumerates(order, graphInfo.Keys)
    requires forall s | s in graphInfo :: Closed(graphInfo[s])
    ensures forall s | s in Merged(graphInfo, order) :: Closed(Merged(graphInfo, order)[s])
  {
    MergeAllInvariants(graphInfo, order, order);
  }

  /** The nodes and edges of `a` are among those of `b`. */
  predicate SubGraph(a: Graph, b: Graph)
  {
    a.nodes <= b.nodes && a.edges <= b.edges
  }

  /** `m` has the keys of `orig` and holds at least each input graph. */
  ghost predicate Covers(m: map<string, Graph>, orig: map<string, Graph>)
  {
    m.Keys == orig.Keys && forall k | k in orig :: SubGraph(orig[k], m[k])
  }

  /** For every `s` of `rows`: a graph of `m` that holds the source of an
      original edge of `s` holds all of the graph of `s` in `m`. */
  ghost predicate AbsorbsRows(orig: map<string, Graph>, m: map<string, Graph>, rows: set<string>)
  {
    forall s, t | s in rows && s in orig && s in m && t in m && Anchored(orig[s].edges, m[t].nodes) ::
      SubGraph(m[s], m[t])
  }

  /** A row as a whole: every other graph is tested and merged into as it
      stood when the row began, since the row changes only the graph it is
      visiting and never the graph of `s`. */
  function RowResult(orig: map<string, Graph>, cur: map<string, Graph>, s: string): (r: map<string, Graph>)
    requires s in orig && s in cur
    ensures r.Keys == cur.Keys && r[s] == cur[s]
    ensures forall k | k in cur && k != s ::
              r[k] == if Anchored(orig[s].edges, cur[k].nodes) then Absorb(cur[k], cur[s]) else cur[k]
  {
    map k | k in cur :: if k != s && Anchored(orig[s].edges, cur[k].nodes) then Absorb(cur[k], cur[s]) else cur[k]
  }

  /** The loop of line 83 changes each visited graph as `RowResult` does and
      leaves the others alone, whatever the order of the visits. */
  lemma {:induction false} RowPointwise(orig: map<string, Graph>, cur: map<string, Graph>, s: string, others: seq<string>)
    requires s in orig && s in cur && Elems(others) <= cur.Keys && NoDup(others)
    ensures forall k | k in cur ::
              MergeRow(orig, cur, s, others)[k] == if k in others then RowResult(orig, cur, s)[k] else cur[k]
  {
    if others != [] {
      var init := others[..|others| - 1];
      var x := others[|others| - 1];
      assert Elems(init) <= Elems(others);
      assert forall i | 0 <= i < |init| :: init[i] == others[i];
      assert x !in init;
      RowPointwise(orig, cur, s, init);
      var mid := MergeRow(orig, cur, s, init);
      assert mid[x] == cur[x] && mid[s] == cur[s];
      forall k | k in cur
        ensures MergeRow(orig, cur, s, others)[k] == if k in others then RowResult(orig, cur, s)[k] else cur[k]
      {
        assert k in others <==> k in init || k == x;
      }
    }
  }

  /** A row over every key is `RowResult`. */
  lemma RowOfAll(orig: map<string, Graph>, cur: map<string, Graph>, s: string, order: seq<string>)
    requires s in orig && s in cur && Enumerates(order, cur.Keys)
    ensures MergeRow(orig, cur, s, order) == RowResult(orig, cur, s)
  {
    RowPointwise(orig, cur, s, order);
  }

  /** Running the row of `u` keeps the absorbing property of the rows run
      before and adds it for `u`. */
  lemma RowAbsorbs(orig: map<string, Graph>, cur: map<string, Graph>, rows: set<string>, u: string)
    requires u in orig && u in cur && AbsorbsRows(orig, cur, rows)
    ensures AbsorbsRows(orig, RowResult(orig, cur, u), rows + {u})
  {
    var next := RowResult(orig, cur, u);
    forall s, t | s in rows + {u} && s in orig && s in next && t in next && Anchored(orig[s].edges, next[t].nodes)
      ensures SubGraph(next[s], next[t])
    {
      if s == t {
      } else if s == u {
        // `t` held the source when the row visited it, so it took the graph of `u`
        assert Anchored(orig[u].edges, cur[t].nodes);
      } else {
        var e :| e in orig[s].edges && e.0 in next[t].nodes;
        if e.0 in cur[t].nodes {
          assert Anchored(orig[s].edges, cur[t].nodes);
          assert SubGraph(cur[s], cur[t]);
          if next[s] != cur[s] {
            var f :| f in orig[u].edges && f.0 in cur[s].nodes;
            if t != u {
              assert Anchored(orig[u].edges, cur[t].nodes);
            }
          }
        } else {
          // the source came with the graph of `u`, which already held `s`
          assert t != u && e.0 in cur[u].nodes;
          assert Anchored(orig[s].edges, cur[u].nodes);
          assert SubGraph(cur[s], cur[u]);
        }
      }
    }
  }

  /** After the rows of `visited`, each of them has absorbed into every
      graph holding the source of one of its original edges. */
  lemma {:induction false} MergeAllAbsorbs(orig: map<string, Graph>, visited: seq<string>, order: seq<string>)
    requires Elems(visited) <= orig.Keys && Enumerates(order, orig.Keys)
    ensures AbsorbsRows(orig, MergeAll(orig, visited, order), Elems(visited))
  {
    if visited != [] {
      var init := visited[..|visited| - 1];
      var u := visited[|visited| - 1];
      assert Elems(init) <= Elems(visited);
      assert Elems(visited) == Elems(init) + {u} by {
        assert visited == init + [u];
      }
      MergeAllAbsorbs(orig, init, order);
      var cur := MergeAll(orig, init, order);
      RowOfAll(orig, cur, u, order);
      RowAbsorbs(orig, cur, Elems(init), u);
    }
  }

  /** A row never leaves a map that covers `cur` and absorbs every row. */
  lemma {:induction false} MergeRowBelow(orig: map<string, Graph>, cur: map<string, Graph>, s: string, others: seq<string>,
                                         m: map<string, Graph>)
    requires s in orig && s in cur && Elems(others) <= cur.Keys && cur.Keys == m.Keys
    requires forall k | k in cur :: SubGraph(cur[k], m[k])
    requires AbsorbsRows(orig, m, orig.Keys)
    ensures forall k | k in cur :: SubGraph(MergeRow(orig, cur, s, others)[k], m[k])
  {
    if others != [] {
      var init := others[..|others| - 1];
      var x := others[|others| - 1];
      assert Elems(init) <= Elems(others);
      MergeRowBelow(orig, cur, s, init, m);
      var mid := MergeRow(orig, cur, s, init);
      if s != x && Anchored(orig[s].edges, mid[x].nodes) {
        assert Anchored(orig[s].edges, m[x].nodes);
      }
    }
  }

  /** Neither does the outer loop. */
  lemma {:induction false} MergeAllBelow(orig: map<string, Graph>, visited: seq<string>, order: seq<string>, m: map<string, Graph>)
    requires Elems(visited) <= orig.Keys && Elems(order) <= orig.Keys
    requires Covers(m, orig) && AbsorbsRows(orig, m, orig.Keys)
    ensures forall k | k in orig :: SubGraph(MergeAll(orig, visited, order)[k], m[k])
  {
    if visited != [] {
      var init := visited[..|visited| - 1];
      assert Elems(init) <= Elems(visited);
      MergeAllBelow(orig, init, order, m);
      MergeRowBelow(orig, MergeAll(orig, init, order), visited[|visited| - 1], order, m);
    }
  }

  /** The merged map, before the filter of line 97, is the least map that
      covers the input and in which every graph holding the source of an
      original edge of `s` holds all of the graph of `s`. */
  lemma MergeAllLeast(graphInfo: map<string, Graph>, order: seq<string>, m: map<string, Graph>)
    requires Enumerates(order, graphInfo.Keys)
    requires Covers(m, graphInfo) && AbsorbsRows(graphInfo, m, graphInfo.Keys)
    ensures Covers(MergeAll(graphInfo, order, order), graphInfo)
    ensures AbsorbsRows(graphInfo, MergeAll(graphInfo, order, order), graphInfo.Keys)
    ensures forall k | k in graphInfo :: SubGraph(MergeAll(graphInfo, order, order)[k], m[k])
  {
    MergeAllAbsorbs(graphInfo, order, order);
    MergeAllBelow(graphInfo, order, order, m);
  }

  /** Two graphs with the same flag, each within the other, are equal. */
  lemma SubGraphAntisymmetric(a: Graph, b: Graph)
    requires SubGraph(a, b) && SubGraph(b, a) && a.root == b.root
    ensures a == b
  {
  }

  /** The map the merging loops leave in one order lies within the map
      they leave in any other. */
  lemma MergeAllWithinOther(graphInfo: map<string, Graph>, o1: seq<string>, o2: seq<string>)
    requires Enumerates(o1, graphInfo.Keys) && Enumerates(o2, graphInfo.Keys)
    ensures forall k | k in graphInfo :: SubGraph(MergeAll(graphInfo, o1, o1)[k], MergeAll(graphInfo, o2, o2)[k])
  {
    var m2 := MergeAll(graphInfo, o2, o2);
    assert Covers(m2, graphInfo);
    MergeAllAbsorbs(graphInfo, o2, o2);
    assert Elems(o2) == graphInfo.Keys;
    MergeAllBelow(graphInfo, o1, o1, m2);
  }

  /** Two maps with the same keys and flags, each within the other, are equal. */
  lemma MapsWithinEachOther(m1: map<string, Graph>, m2: map<string, Graph>)
    requires m1.Keys == m2.Keys
    requires forall k | k in m1 :: SubGraph(m1[k], m2[k]) && SubGraph(m2[k], m1[k]) && m1[k].root == m2[k].root
    ensures m1 == m2
  {
    forall k | k in m1 ensures m1[k] == m2[k] {
      SubGraphAntisymmetric(m1[k], m2[k]);
    }
  }

  /** The merging loops leave the same map in every iteration order. */
  lemma MergeAllOrderIndependent(graphInfo: map<string, Graph>, o1: seq<string>, o2: seq<string>)
    requires Enumerates(o1, graphInfo.Keys) && Enumerates(o2, graphInfo.Keys)
    ensures MergeAll(graphInfo, o1, o1) == MergeAll(graphInfo, o2, o2)
  {
    MergeAllWithinOther(graphInfo, o1, o2);
    MergeAllWithinOther(graphInfo, o2, o1);
    MapsWithinEachOther(MergeAll(graphInfo, o1, o1), MergeAll(graphInfo, o2, o2));
  }

  /** merge_graph_info returns the same graphs in every iteration order,
      although each test of line 91 reads the growing nodes of `other_s`. */
  lemma MergedOrderIndependent(graphInfo: map<string, Graph>, o1: seq<string>, o2: seq<string>)
    requires Enumerates(o1, graphInfo.Keys) && Enumerates(o2, graphInfo.Keys)
    ensures Merged(graphInfo, o1) == Merged(graphInfo, o2)
  {
    MergeAllOrderIndependent(graphInfo, o1, o2);
  }

  /** Two graphs: `lb`, a root notifying "upstream", and `lf`, which depends on it. */
  predicate BaseAndDependent(info: map<string, Graph>, lb: string, lf: string)
  {
    info == map[lb := Graph({lb, "upstream"}, {(lb, "upstream")}, true),
                lf := Graph({lf, "bar", "upstream"}, {(lf, "bar"), ("upstream", lf)}, false)]
  }

  /** The row of the root: none of its edges starts in the other graph. */
  lemma BaseRowIdle(info: map<string, Graph>, lb: string, lf: string)
    requires BaseAndDependent(info, lb, lf) && lb != lf && lb != "upstream" && lb != "bar"
    ensures MergeAll(info, [lb], [lb, lf]) == info
  {
    var order := [lb, lf];
    assert order[..1] == [lb] && order[..1][..0] == [] && [lb][..0] == [];
    assert !Anchored(info[lb].edges, info[lf].nodes);
    assert MergeRow(info, info, lb, order[..1]) == info;
  }

  /** The row of the dependent graph: its edge from "upstream" lands in the root. */
  lemma DependentRowAbsorbs(info: map<string, Graph>, lb: string, lf: string)
    requires BaseAndDependent(info, lb, lf) && lb != lf
    ensures MergeRow(info, info, lf, [lb, lf]) == info[lb := Absorb(info[lb], info[lf])]
  {
    var order := [lb, lf];
    assert order[..1] == [lb] && [lb][..0] == [];
    assert ("upstream", lf) in info[lf].edges;
    assert Anchored(info[lf].edges, info[lb].nodes);
    assert MergeRow(info, info, lf, [lb]) == MergeStep(info, info, lf, lb);
    assert MergeRow(info, info, lf, order) == MergeStep(info, MergeRow(info, info, lf, [lb]), lf, lf);
  }

  /** Merging the two graphs keeps the root alone, holding both. */
  lemma MergedBaseAndDependent(info: map<string, Graph>, lb: string, lf: string)
    requires BaseAndDependent(info, lb, lf)
    requires lb != lf && lb != "upstream" && lb != "bar"
    ensures Enumerates([lb, lf], info.Keys)
    ensures Merged(info, [lb, lf]) ==
              map[lb := Graph({lb, "upstream", lf, "bar"}, {(lb, "upstream"), (lf, "bar"), ("upstream", lf)}, true)]
  {
    var order := [lb, lf];
    BaseRowIdle(info, lb, lf);
    DependentRowAbsorbs(info, lb, lf);
    assert order[..|order| - 1] == [lb];
    assert MergeAll(info, order, order) == MergeRow(info, MergeAll(info, [lb], order), lf, order);
    RootOfAbsorbed(info, lb, lf);
  }

  /** Only the root is kept, holding both graphs. */
  lemma RootOfAbsorbed(info: map<string, Graph>, lb: string, lf: string)
    requires BaseAndDependent(info, lb, lf) && lb != lf
    ensures Roots(info[lb := Absorb(info[lb], info[lf])]) ==
              map[lb := Graph({lb, "upstream", lf, "bar"}, {(lb, "upstream"), (lf, "bar"), ("upstream", lf)}, true)]
  {
    var absorbed := info[lb := Absorb(info[lb], info[lf])];
    assert absorbed.Keys == {lb, lf} && !absorbed[lf].root && absorbed[lb].root;
    assert absorbed[lb] == Graph({lb, "upstream", lf, "bar"}, {(lb, "upstream"), (lf, "bar"), ("upstream", lf)}, true);
    assert Roots(absorbed).Keys == {lb};
  }

  /** The graphs parse_schedulers builds for a root "base" notifying
      "upstream" and for "foo", which depends on it: "foo" is folded into
      "base", and only "base" is kept. */
  lemma DependentMergedIntoBase(info: map<string, Graph>, lb: string, lf: string)
    requires lb == Label("base") && lf == Label("foo")
    requires info == map[lb := Graph({lb, "upstream"}, {(lb, "upstream")}, true),
                         lf := Graph({lf, "bar", "upstream"}, {(lf, "bar"), ("upstream", lf)}, false)]
    ensures Enumerates([lb, lf], info.Keys)
    ensures Merged(info, [lb, lf]) ==
              map[lb := Graph({lb, "upstream", lf, "bar"}, {(lb, "upstream"), (lf, "bar"), ("upstream", lf)}, true)]
  {
    LabelInjective("base", "foo");
    assert |lb| == 14;
    MergedBaseAndDependent(info, lb, lf);
  }
}
