/** The earlier engine of graph.py, `graph_objects`: each scheduler gets a
    graph of nodes, builders and edges, and the `merge_schedulers` pass is
    repeated until it merges nothing. */
module LegacyGraph {
  import opened Types
  import opened Parse

  /** The `defaultdict(set)` of one scheduler; a `builders` key that was never
      written reads as empty, as `.get('builders', [])` does. */
  datatype BuilderGraph = BuilderGraph(nodes: set<string>, builders: set<string>, edges: set<Edge>)

  /** The edge of a dependent scheduler, from the raw `upstream_name`. */
  function DependentEdge(s: Scheduler): set<Edge>
  {
    if s.upstreamName != "" then {(s.upstreamName, Label(s.name))} else {}
  }

  /** The builders of `upstream` that are not among `own`. */
  function NewBuilders(upstream: seq<string>, own: seq<string>): set<string>
  {
    set b | b in upstream && b !in own
  }

  /** The aggregating upstream builders that are not already own builders. */
  function NewUpstream(s: Scheduler): set<string>
  {
    NewBuilders(s.upstreamBuilders, s.builderNames)
  }

  /** Lines 12-33 for one scheduler. */
  function InitialGraph(s: Scheduler): (g: BuilderGraph)
    // every builder is a node and a builder, with an edge from the label
    ensures forall b | b in s.builderNames :: b in g.nodes && b in g.builders && (Label(s.name), b) in g.edges
    // the nodes are the label and the builders, and nothing else
    ensures g.nodes == {Label(s.name)} + g.builders
    ensures g.builders == Elems(s.builderNames) + Elems(s.upstreamBuilders)
    // a dependent scheduler gets an edge from the unsuffixed upstream name
    ensures s.upstreamName != "" ==> (s.upstreamName, Label(s.name)) in g.edges
    // an aggregating upstream builder gets an edge unless it is an own builder
    ensures forall b | b in s.upstreamBuilders && b !in s.builderNames :: (b, Label(s.name)) in g.edges
    // and an own builder (not the upstream name, not the label) gets no edge to the label
    ensures forall b | b in s.builderNames && b != s.upstreamName && b != Label(s.name) :: (b, Label(s.name)) !in g.edges
    // every edge starts at the label or ends there
    ensures forall e | e in g.edges :: e.0 == Label(s.name) || e.1 == Label(s.name)
  {
    var own := Label(s.name);
    BuilderGraph({own} + Elems(s.builderNames) + NewUpstream(s),
                 Elems(s.builderNames) + Elems(s.upstreamBuilders),
                 Outgoing(own, s.builderNames) + DependentEdge(s) + Incoming(NewUpstream(s), own))
  }

  /** `graph_info` after the loop of line 9 visited `ss`: a later scheduler
      with the same name replaces the earlier one. */
  function Built(ss: seq<Scheduler>): map<string, BuilderGraph>
  {
    if ss == [] then map[]
    else
      var last := ss[|ss| - 1];
      Built(ss[..|ss| - 1])[Label(last.name) := InitialGraph(last)]
  }

  /** Lines 8-33: the graph of every scheduler. */
  method BuildGraphInfo(schedulers: seq<Scheduler>) returns (graphInfo: map<string, BuilderGraph>)
    ensures graphInfo == Built(schedulers)
  {
    graphInfo := map[];
    for i := 0 to |schedulers|
      invariant graphInfo == Built(schedulers[..i])
    {
      assert schedulers[..i + 1][..i] == schedulers[..i];
      var graph := BuildGraph(schedulers[i]);
      graphInfo := graphInfo[Label(schedulers[i].name) := graph];
    }
    assert schedulers[..|schedulers|] == schedulers;
  }

  /** Lines 12-33 for one scheduler `s`. */
  method BuildGraph(s: Scheduler) returns (graph: BuilderGraph)
    ensures graph == InitialGraph(s)
  {
    var schedulerName := Label(s.name);
    graph := AddOwnBuilders(BuilderGraph({schedulerName}, {}, {}), schedulerName, s.builderNames);
    if s.upstreamName != "" {
      graph := graph.(edges := graph.edges + {(s.upstreamName, schedulerName)});
    }
    graph := AddAggregated(graph, schedulerName, s.builderNames, s.upstreamBuilders);
  }

  /** Lines 16-20: every builder becomes a node and a builder, with an edge
      from the scheduler. */
  method AddOwnBuilders(graph: BuilderGraph, schedulerName: string, builders: seq<string>) returns (graph': BuilderGraph)
    ensures graph'.nodes == graph.nodes + Elems(builders)
    ensures graph'.builders == graph.builders + Elems(builders)
    ensures graph'.edges == graph.edges + Outgoing(schedulerName, builders)
  {
    graph' := graph;
    for i := 0 to |builders|
      invariant graph'.nodes == graph.nodes + Elems(builders[..i])
      invariant graph'.builders == graph.builders + Elems(builders[..i])
      invariant graph'.edges == graph.edges + Outgoing(schedulerName, builders[..i])
    {
      var builder := builders[i];
      assert builders[..i + 1] == builders[..i] + [builder];
      graph' := graph'.(builders := graph'.builders + {builder}, nodes := graph'.nodes + {builder},
                        edges := graph'.edges + {(schedulerName, builder)});
    }
    assert builders[..|builders|] == builders;
  }

  /** Lines 26-33: an aggregated builder not yet among the builders becomes a
      node and a builder, with an edge into the scheduler. */
  method AddAggregated(graph: BuilderGraph, schedulerName: string, own: seq<string>, upstream: seq<string>) returns (graph': BuilderGraph)
    requires graph.builders == Elems(own)
    ensures graph'.builders == Elems(own) + Elems(upstream)
    ensures graph'.nodes == graph.nodes + NewBuilders(upstream, own)
    ensures graph'.edges == graph.edges + Incoming(NewBuilders(upstream, own), schedulerName)
  {
    graph' := graph;
    for i := 0 to |upstream|
      invariant graph'.builders == Elems(own) + Elems(upstream[..i])
      invariant graph'.nodes == graph.nodes + NewBuilders(upstream[..i], own)
      invariant graph'.edges == graph.edges + Incoming(NewBuilders(upstream[..i], own), schedulerName)
    {
      var builder := upstream[i];
      assert upstream[..i + 1] == upstream[..i] + [builder];
      if builder !in graph'.builders {
        graph' := graph'.(builders := graph'.builders + {builder}, nodes := graph'.nodes + {builder},
                          edges := graph'.edges + {(builder, schedulerName)});
      }
    }
    assert upstream[..|upstream|] == upstream;
  }

  /** `into` after taking the union of the nodes and edges of `g`; the
      builders are not touched. */
  function Absorb(into: BuilderGraph, g: BuilderGraph): BuilderGraph
  {
    into.(nodes := into.nodes + g.nodes, edges := into.edges + g.edges)
  }

  /** Some builder of `a` is also a builder of `b` (lines 43 and 47). */
  predicate Overlap(a: set<string>, b: set<string>)
  {
    exists x | x in a :: x in b
  }

  /** Lines 44-51 for one scheduler `s` and one of its builders `b`: every
      other scheduler with the builder `b` takes the union of `s`. */
  function BuilderStep(cur: map<string, BuilderGraph>, s: string, b: string): map<string, BuilderGraph>
    requires s in cur
  {
    map k | k in cur :: if k != s && b in cur[k].builders then Absorb(cur[k], cur[s]) else cur[k]
  }

  /** Lines 43-51 for one scheduler `s`: every other scheduler that shares a
      builder with it takes the union of its graph. */
  function PassStep(cur: map<string, BuilderGraph>, s: string): (r: map<string, BuilderGraph>)
    requires s in cur
    ensures r.Keys == cur.Keys
    // `s` itself is never merged into, and only nodes and edges grow
    ensures r[s] == cur[s]
    ensures forall k | k in cur :: r[k].builders == cur[k].builders && cur[k].nodes <= r[k].nodes && cur[k].edges <= r[k].edges
    ensures forall k | k in cur && r[k] != cur[k] :: k != s && Overlap(cur[s].builders, cur[k].builders)
    // and a scheduler sharing a builder with `s` takes the union of the graph of `s`
    ensures forall k | k in cur && k != s && Overlap(cur[s].builders, cur[k].builders) ::
              r[k].nodes == cur[k].nodes + cur[s].nodes && r[k].edges == cur[k].edges + cur[s].edges
  {
    map k | k in cur :: if k != s && Overlap(cur[s].builders, cur[k].builders) then Absorb(cur[k], cur[s]) else cur[k]
  }

  /** `graph_info` after the loop of line 42 visited `visited`, before the
      deletions. */
  function PassState(info: map<string, BuilderGraph>, visited: seq<string>): (r: map<string, BuilderGraph>)
    requires Elems(visited) <= info.Keys
    ensures r.Keys == info.Keys
  {
    if visited == [] then info
    else
      var init := visited[..|visited| - 1];
      assert Elems(init) <= Elems(visited);
      PassStep(PassState(info, init), visited[|visited| - 1])
  }

  /** `k` shares a builder with another scheduler `k2`. */
  predicate SharesWith(m: map<string, BuilderGraph>, k: string, k2: string)
  {
    k in m && k2 in m && k != k2 && Overlap(m[k].builders, m[k2].builders)
  }

  /** `k` shares a builder with some other scheduler. */
  predicate SharesAny(m: map<string, BuilderGraph>, k: string)
  {
    exists k2 | k2 in m :: SharesWith(m, k, k2)
  }

  /** The schedulers that share a builder with some other scheduler: those
      the pass adds to `merged`. */
  function Sharing(m: map<string, BuilderGraph>): set<string>
  {
    set k | k in m && SharesAny(m, k)
  }

  /** The schedulers that share no builder, unchanged. */
  function Isolated(m: map<string, BuilderGraph>): (r: map<string, BuilderGraph>)
    ensures r.Keys == m.Keys - Sharing(m)
    ensures forall k | k in r :: r[k] == m[k]
  {
    map k | k in m && k !in Sharing(m) :: m[k]
  }

  /** The iteration order of `graph_info` after deletions: the order before,
      without the deleted keys. */
  function Remaining(order: seq<string>, keys: set<string>): (r: seq<string>)
    ensures NoDup(order) ==> NoDup(r)
    ensures Elems(r) == Elems(order) * keys
  {
    if order == [] then []
    else
      var init, k := order[..|order| - 1], order[|order| - 1];
      assert order == init + [k];
      var r := Remaining(init, keys);
      if k in keys then
        assert NoDup(order) ==> NoDup(init) && k !in Elems(init) by {
          if NoDup(order) {
            forall i | 0 <= i < |init| ensures init[i] != k {
              assert init[i] == order[i];
            }
          }
        }
        assert Elems(r + [k]) == Elems(r) + {k};
        assert Elems(order) == Elems(init) + {k};
        assert NoDup(order) ==> NoDup(r + [k]) by {
          if NoDup(order) {
            assert k !in Elems(r);
            forall i, j | 0 <= i < j < |r + [k]| ensures (r + [k])[i] != (r + [k])[j] {
              if j == |r| {
                assert (r + [k])[i] == r[i] && r[i] in Elems(r);
              } else {
                assert (r + [k])[i] == r[i] && (r + [k])[j] == r[j];
              }
            }
          }
        }
        r + [k]
      else
        assert Elems(order) == Elems(init) + {k};
        r
  }

  /** Sharing a builder is symmetric. */
  lemma OverlapSymmetric(a: set<string>, b: set<string>)
    ensures Overlap(a, b) <==> Overlap(b, a)
  {
    if Overlap(a, b) {
      var x :| x in a && x in b;
    }
    if Overlap(b, a) {
      var x :| x in b && x in a;
    }
  }

  /** Through a pass the keys and the builders never change, nodes and edges
      only grow, and a scheduler that shares no builder is left as it was. */
  lemma {:induction false} PassStateShape(info: map<string, BuilderGraph>, visited: seq<string>)
    requires Elems(visited) <= info.Keys
    ensures forall k | k in info ::
              PassState(info, visited)[k].builders == info[k].builders &&
              info[k].nodes <= PassState(info, visited)[k].nodes &&
              info[k].edges <= PassState(info, visited)[k].edges
    ensures forall k | k in info && k !in Sharing(info) :: PassState(info, visited)[k] == info[k]
  {
    if visited != [] {
      var init, s := visited[..|visited| - 1], visited[|visited| - 1];
      assert Elems(init) <= Elems(visited);
      PassStateShape(info, init);
      var cur := PassState(info, init);
      forall k | k in info && k !in Sharing(info)
        ensures PassStep(cur, s)[k] == info[k]
      {
        OverlapSymmetric(info[s].builders, info[k].builders);
      }
    }
  }

  /** Two schedulers that share a builder are both deleted by the pass. */
  lemma SharingPairRemoved(m: map<string, BuilderGraph>, a: string, b: string, builder: string)
    requires a in m && b in m && a != b
    requires builder in m[a].builders && builder in m[b].builders
    ensures a !in Isolated(m) && b !in Isolated(m)
  {
    assert SharesWith(m, a, b);
    assert SharesWith(m, b, a);
  }

  /** After a pass no two remaining schedulers share a builder, so the next
      pass merges nothing. */
  lemma IsolatedNoSharing(m: map<string, BuilderGraph>)
    ensures Sharing(Isolated(m)) == {}
    ensures Isolated(Isolated(m)) == Isolated(m)
  {
    var r := Isolated(m);
    forall k, k2 | k in r && k2 in r
      ensures !SharesWith(r, k, k2)
    {
      assert !SharesWith(m, k, k2);
    }
  }

  /** A pass that merges something deletes at least one scheduler. */
  lemma IsolatedShrinks(m: map<string, BuilderGraph>)
    requires Sharing(m) != {}
    ensures |Isolated(m)| < |m|
  {
    var k :| k in Sharing(m);
    assert Isolated(m).Keys <= m.Keys - {k};
    assert |m.Keys - {k}| == |m.Keys| - 1;
    SubsetCard(Isolated(m).Keys, m.Keys - {k});
  }

  lemma {:induction false} SubsetCard(a: set<string>, b: set<string>)
    requires a <= b
    ensures |a| <= |b|
    decreases |b|
  {
    if b != {} {
      var x :| x in b;
      SubsetCard(a - {x}, b - {x});
    }
  }

  /** Lines 44-51 for one builder `b` of `s`: the loop over the other
      schedulers. */
  method MergeBuilder(graphInfo: map<string, BuilderGraph>, s: string, b: string, order: seq<string>)
    returns (next: map<string, BuilderGraph>, hit: bool)
    requires s in graphInfo && Enumerates(order, graphInfo.Keys)
    ensures next == BuilderStep(graphInfo, s, b)
    ensures hit <==> exists k | k in graphInfo :: k != s && b in graphInfo[k].builders
  {
    next, hit := graphInfo, false;
    for j := 0 to |order|
      invariant next.Keys == graphInfo.Keys
      invariant forall k | k in graphInfo ::
                  next[k] == if k != s && k in order[..j] && b in graphInfo[k].builders then Absorb(graphInfo[k], graphInfo[s]) else graphInfo[k]
      invariant hit <==> exists k | k in order[..j] :: k != s && b in graphInfo[k].builders
    {
      var other := order[j];
      assert order[..j + 1] == order[..j] + [other];
      assert other in Elems(order);
      if s == other {
        continue;
      }
      if b in next[other].builders {
        hit := true;
        next := next[other := Absorb(next[other], next[s])];
      }
    }
    assert order[..|order|] == order;
    assert forall k | k in graphInfo :: k in Elems(order);
  }

  /** Lines 43-51 for one scheduler `s`: the loop over its builders, which
      reports whether `s` was merged anywhere. */
  method MergeOne(graphInfo: map<string, BuilderGraph>, s: string, order: seq<string>)
    returns (next: map<string, BuilderGraph>, hit: bool)
    requires s in graphInfo && Enumerates(order, graphInfo.Keys)
    ensures next == PassStep(graphInfo, s)
    ensures hit <==> SharesAny(graphInfo, s)
  {
    next, hit := graphInfo, false;
    var pending := graphInfo[s].builders;
    ghost var done: set<string> := {};
    while pending != {}
      invariant pending <= graphInfo[s].builders && done == graphInfo[s].builders - pending
      invariant next == Absorbed(graphInfo, s, done)
      invariant hit <==> exists k | k in graphInfo :: k != s && Overlap(done, graphInfo[k].builders)
      decreases |pending|
    {
      var b :| b in pending;
      var step;
      AbsorbedStep(graphInfo, s, done, b);
      next, step := MergeBuilder(next, s, b, order);
      hit := hit || step;
      pending, done := pending - {b}, done + {b};
    }
    forall k | k in graphInfo ensures SharesWith(graphInfo, s, k) <==> k != s && Overlap(done, graphInfo[k].builders) {
    }
  }

  /** `graph_info` once the builders `done` of `s` have been visited: every
      other scheduler holding one of them has taken the union of `s`. */
  function Absorbed(graphInfo: map<string, BuilderGraph>, s: string, done: set<string>): map<string, BuilderGraph>
    requires s in graphInfo
  {
    map k | k in graphInfo :: if k != s && Overlap(done, graphInfo[k].builders) then Absorb(graphInfo[k], graphInfo[s]) else graphInfo[k]
  }

  /** Visiting one more builder `b` of `s` is one more `BuilderStep`. */
  lemma AbsorbedStep(graphInfo: map<string, BuilderGraph>, s: string, done: set<string>, b: string)
    requires s in graphInfo
    ensures s in Absorbed(graphInfo, s, done)
    ensures BuilderStep(Absorbed(graphInfo, s, done), s, b) == Absorbed(graphInfo, s, done + {b})
  {
    var cur := Absorbed(graphInfo, s, done);
    forall k | k in graphInfo
      ensures BuilderStep(cur, s, b)[k] == Absorbed(graphInfo, s, done + {b})[k]
    {
      assert Overlap(done + {b}, graphInfo[k].builders) <==> Overlap(done, graphInfo[k].builders) || b in graphInfo[k].builders;
    }
  }

  /** Lines 40-54, one call of `merge_schedulers` when `graph_info` iterates
      in `order`: the schedulers that share a builder are merged into each
      other and then all deleted, and the call reports whether any were. */
  method MergeSchedulers(graphInfo: map<string, BuilderGraph>, order: seq<string>)
    returns (next: map<string, BuilderGraph>, changed: bool)
    requires Enumerates(order, graphInfo.Keys)
    ensures next == Isolated(graphInfo)
    ensures changed <==> Sharing(graphInfo) != {}
  {
    var cur, merged := VisitSchedulers(graphInfo, order);
    next := DeleteMerged(cur, merged);
    PassThenDelete(graphInfo, order, next);
    changed := merged != {};
  }

  /** Lines 41-51: the loop over the schedulers, which collects in `merged`
      those that share a builder. */
  method VisitSchedulers(graphInfo: map<string, BuilderGraph>, order: seq<string>)
    returns (cur: map<string, BuilderGraph>, merged: set<string>)
    requires Enumerates(order, graphInfo.Keys)
    ensures cur == PassState(graphInfo, order)
    ensures merged == Sharing(graphInfo)
  {
    cur, merged := graphInfo, {};
    for i := 0 to |order|
      invariant cur == PassState(graphInfo, order[..i])
      invariant merged == SharingAmong(graphInfo, order[..i])
    {
      var s := order[i];
      assert order[..i + 1][..i] == order[..i];
      assert s in Elems(order);
      SharingThroughPass(graphInfo, order[..i], s);
      var hit;
      cur, hit := MergeOne(cur, s, order);
      if hit {
        merged := merged + {s};
      }
    }
    assert order[..|order|] == order;
    SharingAmongAll(graphInfo, order);
  }

  /** The schedulers of `visited` that share a builder, as `merged` collects
      them. */
  function SharingAmong(info: map<string, BuilderGraph>, visited: seq<string>): set<string>
  {
    if visited == [] then {}
    else
      var last := visited[|visited| - 1];
      SharingAmong(info, visited[..|visited| - 1]) + if SharesAny(info, last) then {last} else {}
  }

  lemma {:induction false} SharingAmongAll(info: map<string, BuilderGraph>, visited: seq<string>)
    ensures SharingAmong(info, visited) == Elems(visited) * Sharing(info)
  {
    if visited != [] {
      var init := visited[..|visited| - 1];
      assert visited == init + [visited[|visited| - 1]];
      SharingAmongAll(info, init);
    }
  }

  /** Whether `s` shares a builder is the same before and during a pass. */
  lemma SharingThroughPass(info: map<string, BuilderGraph>, visited: seq<string>, s: string)
    requires Elems(visited) <= info.Keys && s in info
    ensures SharesAny(PassState(info, visited), s) <==> SharesAny(info, s)
  {
    PassStateShape(info, visited);
    var cur := PassState(info, visited);
    forall k | k in info ensures SharesWith(cur, s, k) <==> SharesWith(info, s, k) {
    }
  }

  /** Deleting the sharing schedulers after the pass leaves the isolated ones
      as they were built. */
  lemma PassThenDelete(info: map<string, BuilderGraph>, order: seq<string>, next: map<string, BuilderGraph>)
    requires Elems(order) <= info.Keys
    requires next.Keys == PassState(info, order).Keys - Sharing(info)
    requires forall k | k in next :: next[k] == PassState(info, order)[k]
    ensures next == Isolated(info)
  {
    PassStateShape(info, order);
  }

  /** Lines 52-53: every merged scheduler is deleted. */
  method DeleteMerged(graphInfo: map<string, BuilderGraph>, merged: set<string>) returns (next: map<string, BuilderGraph>)
    ensures next.Keys == graphInfo.Keys - merged
    ensures forall k | k in next :: next[k] == graphInfo[k]
  {
    next := graphInfo;
    var pending := merged;
    while pending != {}
      invariant pending <= merged
      invariant next.Keys == graphInfo.Keys - (merged - pending)
      invariant forall k | k in next :: next[k] == graphInfo[k]
      decreases |pending|
    {
      var s :| s in pending;
      next := next - {s};
      pending := pending - {s};
    }
  }

  /** Lines 8-57: the graphs of `schedulers` once `merge_schedulers` is
      repeated until it returns false, when `graph_info` first iterates in
      `order`. Every scheduler that shares a builder with another is gone,
      and the rest are left exactly as built. */
  method GraphObjects(schedulers: seq<Scheduler>, order: seq<string>) returns (graphInfo: map<string, BuilderGraph>)
    requires Enumerates(order, Built(schedulers).Keys)
    ensures graphInfo == Isolated(Built(schedulers))
  {
    graphInfo := BuildGraphInfo(schedulers);
    ghost var initial := graphInfo;
    var keys := order;
    var more := true;
    while more
      invariant Enumerates(keys, graphInfo.Keys)
      invariant graphInfo == initial || graphInfo == Isolated(initial)
      invariant !more ==> graphInfo == Isolated(initial)
      decreases if more then |graphInfo| + 1 else 0
    {
      var next, changed, nextKeys := Pass(graphInfo, keys);
      AfterPass(initial, graphInfo);
      graphInfo, keys, more := next, nextKeys, changed;
    }
  }

  /** Line 56: one call of `merge_schedulers`, and the order in which
      `graph_info` iterates afterwards. */
  method Pass(graphInfo: map<string, BuilderGraph>, keys: seq<string>)
    returns (next: map<string, BuilderGraph>, changed: bool, nextKeys: seq<string>)
    requires Enumerates(keys, graphInfo.Keys)
    ensures next == Isolated(graphInfo) && (changed <==> Sharing(graphInfo) != {})
    ensures Enumerates(nextKeys, next.Keys)
  {
    next, changed := MergeSchedulers(graphInfo, keys);
    nextKeys := Remaining(keys, next.Keys);
  }

  /** A pass on the built graphs, or on what a first pass left, leaves the
      isolated schedulers, and it deletes something whenever it merges. */
  lemma AfterPass(initial: map<string, BuilderGraph>, graphInfo: map<string, BuilderGraph>)
    requires graphInfo == initial || graphInfo == Isolated(initial)
    ensures Isolated(graphInfo) == Isolated(initial)
    ensures Isolated(graphInfo).Keys <= graphInfo.Keys
    ensures Sharing(graphInfo) != {} ==> |Isolated(graphInfo)| < |graphInfo|
  {
    IsolatedNoSharing(initial);
    if Sharing(graphInfo) != {} {
      IsolatedShrinks(graphInfo);
    }
  }

  /** No two schedulers left by a pass share a builder. */
  lemma IsolatedDisjoint(m: map<string, BuilderGraph>)
    ensures forall a, b | a in Isolated(m) && b in Isolated(m) && a != b ::
              !Overlap(Isolated(m)[a].builders, Isolated(m)[b].builders)
  {
    forall a, b | a in Isolated(m) && b in Isolated(m) && a != b
      ensures !Overlap(Isolated(m)[a].builders, Isolated(m)[b].builders)
    {
      assert !SharesWith(m, a, b);
    }
  }

  /** A scheduler "agg" aggregating over the builder "b1" of "base" shares
      that builder with it, so graph_objects keeps neither graph. */
  lemma AggregatorDropsBoth(ss: seq<Scheduler>)
    requires ss == [Scheduler("base", ["b1"], false, "", []), Scheduler("agg", ["b2"], false, "", ["b1"])]
    ensures Built(ss).Keys == {Label("base"), Label("agg")}
    ensures Isolated(Built(ss)) == map[]
  {
    assert ss[..1][..0] == [] && ss[..1] == [ss[0]];
    assert Built(ss[..1]) == map[Label("base") := InitialGraph(ss[0])];
    var m := Built(ss);
    assert m == map[Label("base") := InitialGraph(ss[0]), Label("agg") := InitialGraph(ss[1])];
    LabelInjective("base", "agg");
    assert "b1" in m[Label("base")].builders && "b1" in m[Label("agg")].builders;
    SharingPairRemoved(m, Label("base"), Label("agg"), "b1");
  }
}
