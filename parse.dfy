/** `parse_schedulers` of buildbot_scheduler_graph.py: one graph per
    scheduler, holding the scheduler's label, the builders it notifies and
    the builders upstream of it. */
module Parse {
  import opened Types

  /** The per-scheduler record `{nodes, edges, root}`. */
  datatype Graph = Graph(nodes: set<string>, edges: set<Edge>, root: bool)

  /** Edges from `src` to each of `targets`. */
  function Outgoing(src: string, targets: seq<string>): set<Edge>
  {
    set b | b in targets :: (src, b)
  }

  /** Edges from each of `sources` to `dst`. */
  function Incoming(sources: set<string>, dst: string): set<Edge>
  {
    set b | b in sources :: (b, dst)
  }

  /** Builders of every scheduler of `all` named `name`. */
  function UpstreamOf(all: seq<Scheduler>, name: string): set<string>
  {
    set u, b | u in all && u.name == name && b in u.builderNames :: b
  }

  /** Builders that feed a triggerable scheduler; a name missing from
      `triggerables` reads as no builders. */
  function TriggerSources(s: Scheduler, triggerables: map<string, seq<string>>): set<string>
  {
    if s.trigger then Elems(Lookup(triggerables, s.name)) else {}
  }

  /** Builders of the scheduler a dependent scheduler waits on. */
  function DependentSources(s: Scheduler, all: seq<Scheduler>): set<string>
  {
    if s.upstreamName != "" then UpstreamOf(all, s.upstreamName) else {}
  }

  /** Every builder that gets an edge into the scheduler's label. */
  function UpstreamSources(s: Scheduler, all: seq<Scheduler>, triggerables: map<string, seq<string>>): set<string>
  {
    TriggerSources(s, triggerables) + DependentSources(s, all) + Elems(s.upstreamBuilders)
  }

  /** The graph parse_schedulers builds for `s`, its descriptors being `all`. */
  function SchedulerGraph(s: Scheduler, all: seq<Scheduler>, triggerables: map<string, seq<string>>): (g: Graph)
    // every edge endpoint is a node
    ensures forall e | e in g.edges :: e.0 in g.nodes && e.1 in g.nodes
    // the label and every notified builder are nodes, with an edge to each builder
    ensures Label(s.name) in g.nodes
    ensures forall b | b in s.builderNames :: b in g.nodes && (Label(s.name), b) in g.edges
    // every upstream builder is a node with an edge into the label
    ensures forall b | b in UpstreamSources(s, all, triggerables) :: b in g.nodes && (b, Label(s.name)) in g.edges
    // and there is nothing else
    ensures forall e | e in g.edges ::
              (e.0 == Label(s.name) && e.1 in s.builderNames) ||
              (e.1 == Label(s.name) && e.0 in UpstreamSources(s, all, triggerables))
    ensures forall n | n in g.nodes ::
              n == Label(s.name) || n in s.builderNames || n in UpstreamSources(s, all, triggerables)
  {
    var own := Label(s.name);
    var sources := UpstreamSources(s, all, triggerables);
    Graph({own} + Elems(s.builderNames) + sources,
          Outgoing(own, s.builderNames) + Incoming(sources, own),
          !s.trigger && s.upstreamName == "" && s.upstreamBuilders == [])
  }

  /** The dictionary after the loop has visited `prefix` of `all`. */
  function Parsed(prefix: seq<Scheduler>, all: seq<Scheduler>, triggerables: map<string, seq<string>>): map<string, Graph>
  {
    if prefix == [] then map[]
    else
      var s := prefix[|prefix| - 1];
      Parsed(prefix[..|prefix| - 1], all, triggerables)[Label(s.name) := SchedulerGraph(s, all, triggerables)]
  }

  /** The loop of lines 38-41: each notified builder becomes a node with an
      edge from the scheduler. */
  method AddBuilders(nodes: set<string>, edges: set<Edge>, schedulerName: string, builders: seq<string>)
    returns (nodes': set<string>, edges': set<Edge>)
    ensures nodes' == nodes + Elems(builders)
    ensures edges' == edges + Outgoing(schedulerName, builders)
  {
    nodes', edges' := nodes, edges;
    for k := 0 to |builders|
      invariant nodes' == nodes + Elems(builders[..k])
      invariant edges' == edges + Outgoing(schedulerName, builders[..k])
    {
      var builder := builders[k];
      assert builders[..k + 1] == builders[..k] + [builder];
      nodes' := nodes' + {builder};
      edges' := edges' + {(schedulerName, builder)};
    }
    assert builders[..|builders|] == builders;
  }

  /** The loops of lines 46-48, 55-57 and 62-65: each upstream builder becomes
      a node with an edge into the scheduler. */
  method AddUpstream(nodes: set<string>, edges: set<Edge>, builders: seq<string>, schedulerName: string)
    returns (nodes': set<string>, edges': set<Edge>)
    ensures nodes' == nodes + Elems(builders)
    ensures edges' == edges + Incoming(Elems(builders), schedulerName)
  {
    nodes', edges' := nodes, edges;
    for k := 0 to |builders|
      invariant nodes' == nodes + Elems(builders[..k])
      invariant edges' == edges + Incoming(Elems(builders[..k]), schedulerName)
    {
      var builder := builders[k];
      assert builders[..k + 1] == builders[..k] + [builder];
      nodes' := nodes' + {builder};
      edges' := edges' + {(builder, schedulerName)};
    }
    assert builders[..|builders|] == builders;
  }

  /** Lines 53-57: the builders of every scheduler named `upstreamName`. */
  method AddDependent(nodes: set<string>, edges: set<Edge>, schedulers: seq<Scheduler>, upstreamName: string, schedulerName: string)
    returns (nodes': set<string>, edges': set<Edge>)
    ensures nodes' == nodes + UpstreamOf(schedulers, upstreamName)
    ensures edges' == edges + Incoming(UpstreamOf(schedulers, upstreamName), schedulerName)
  {
    nodes', edges' := nodes, edges;
    for j := 0 to |schedulers|
      invariant nodes' == nodes + UpstreamOf(schedulers[..j], upstreamName)
      invariant edges' == edges + Incoming(UpstreamOf(schedulers[..j], upstreamName), schedulerName)
    {
      var upstream := schedulers[j];
      assert schedulers[..j + 1] == schedulers[..j] + [upstream];
      UpstreamOfStep(schedulers[..j], upstream, upstreamName);
      if upstream.name == upstreamName {
        nodes', edges' := AddUpstream(nodes', edges', upstream.builderNames, schedulerName);
      }
    }
    assert schedulers[..|schedulers|] == schedulers;
  }

  /** Lines 33-65, the body of the loop over schedulers: the graph of `s`. */
  method ParseScheduler(s: Scheduler, schedulers: seq<Scheduler>, triggerables: map<string, seq<string>>)
    returns (graph: Graph)
    ensures graph == SchedulerGraph(s, schedulers, triggerables)
  {
    var schedulerName := Label(s.name);
    var nodes: set<string> := {schedulerName};
    var edges: set<Edge> := {};
    nodes, edges := AddBuilders(nodes, edges, schedulerName, s.builderNames);
    var root;
    nodes, edges, root := AddSources(nodes, edges, s, schedulers, triggerables);
    graph := Graph(nodes, edges, root);
  }

  /** Lines 42-65: the three upstream relations, each of which clears `root`. */
  method AddSources(nodes: set<string>, edges: set<Edge>, s: Scheduler, schedulers: seq<Scheduler>, triggerables: map<string, seq<string>>)
    returns (nodes': set<string>, edges': set<Edge>, root: bool)
    ensures nodes' == nodes + UpstreamSources(s, schedulers, triggerables)
    ensures edges' == edges + Incoming(UpstreamSources(s, schedulers, triggerables), Label(s.name))
    ensures root <==> !s.trigger && s.upstreamName == "" && s.upstreamBuilders == []
  {
    var schedulerName := Label(s.name);
    nodes', edges' := nodes, edges;
    root := true;
    if s.trigger {
      root := false;
      nodes', edges' := AddUpstream(nodes', edges', Lookup(triggerables, s.name), schedulerName);
    }
    ghost var nodes1, edges1 := nodes', edges';
    if s.upstreamName != "" {
      root := false;
      nodes', edges' := AddDependent(nodes', edges', schedulers, s.upstreamName, schedulerName);
    }
    ghost var nodes2, edges2 := nodes', edges';
    if s.upstreamBuilders != [] {
      root := false;
      nodes', edges' := AddUpstream(nodes', edges', s.upstreamBuilders, schedulerName);
    }
    assert nodes1 == nodes + TriggerSources(s, triggerables);
    assert nodes2 == nodes1 + DependentSources(s, schedulers);
    assert edges1 == edges + Incoming(TriggerSources(s, triggerables), schedulerName);
    assert edges2 == edges1 + Incoming(DependentSources(s, schedulers), schedulerName);
    IncomingUnion(TriggerSources(s, triggerables), DependentSources(s, schedulers), Elems(s.upstreamBuilders), schedulerName);
  }

  method ParseSchedulers(schedulers: seq<Scheduler>, triggerables: map<string, seq<string>>)
    returns (graphInfo: map<string, Graph>)
    ensures graphInfo == Parsed(schedulers, schedulers, triggerables)
  {
    graphInfo := map[];
    for i := 0 to |schedulers|
      invariant graphInfo == Parsed(schedulers[..i], schedulers, triggerables)
    {
      var s := schedulers[i];
      var graph := ParseScheduler(s, schedulers, triggerables);
      assert schedulers[..i + 1][..i] == schedulers[..i];
      graphInfo := graphInfo[Label(s.name) := graph];
    }
    assert schedulers[..|schedulers|] == schedulers;
  }

  lemma UpstreamOfStep(prefix: seq<Scheduler>, u: Scheduler, name: string)
    ensures UpstreamOf(prefix + [u], name) ==
            UpstreamOf(prefix, name) + (if u.name == name then Elems(u.builderNames) else {})
  {
    var lhs, rhs := UpstreamOf(prefix + [u], name), UpstreamOf(prefix, name) + (if u.name == name then Elems(u.builderNames) else {});
    forall b | b in lhs ensures b in rhs {
      var w :| w in prefix + [u] && w.name == name && b in w.builderNames;
      if w != u { assert w in prefix; }
    }
    forall b | b in rhs ensures b in lhs {
      if b in UpstreamOf(prefix, name) {
        var w :| w in prefix && w.name == name && b in w.builderNames;
        assert w in prefix + [u];
      } else {
        assert u in prefix + [u];
      }
    }
  }

  lemma IncomingUnion(a: set<string>, b: set<string>, c: set<string>, dst: string)
    ensures Incoming(a + b + c, dst) == Incoming(a, dst) + Incoming(b, dst) + Incoming(c, dst)
  {
  }

  /** One key per scheduler: its name followed by " scheduler". */
  lemma {:induction false} ParsedKeys(prefix: seq<Scheduler>, all: seq<Scheduler>, triggerables: map<string, seq<string>>)
    ensures Parsed(prefix, all, triggerables).Keys == Labels(prefix)
  {
    if prefix != [] {
      var init := prefix[..|prefix| - 1];
      ParsedKeys(init, all, triggerables);
      assert prefix == init + [prefix[|prefix| - 1]];
    }
  }

  /** A scheduler's graph is the one built for the last scheduler of that
      name: a later scheduler with the same name overwrites an earlier one. */
  lemma {:induction false} ParsedLastWins(prefix: seq<Scheduler>, all: seq<Scheduler>, triggerables: map<string, seq<string>>, i: int)
    requires 0 <= i < |prefix|
    requires forall j | i < j < |prefix| :: prefix[j].name != prefix[i].name
    ensures Label(prefix[i].name) in Parsed(prefix, all, triggerables)
    ensures Parsed(prefix, all, triggerables)[Label(prefix[i].name)] == SchedulerGraph(prefix[i], all, triggerables)
  {
    var last := prefix[|prefix| - 1];
    if i < |prefix| - 1 {
      LabelInjective(last.name, prefix[i].name);
      ParsedLastWins(prefix[..|prefix| - 1], all, triggerables, i);
    }
  }

  /** Every parsed graph is the graph of some scheduler with that label. */
  lemma {:induction false} ParsedGraphs(prefix: seq<Scheduler>, all: seq<Scheduler>, triggerables: map<string, seq<string>>, k: string)
    requires k in Parsed(prefix, all, triggerables)
    ensures exists s | s in prefix :: Label(s.name) == k && Parsed(prefix, all, triggerables)[k] == SchedulerGraph(s, all, triggerables)
  {
    var init, last := prefix[..|prefix| - 1], prefix[|prefix| - 1];
    if k != Label(last.name) {
      ParsedGraphs(init, all, triggerables, k);
      var s :| s in init && Label(s.name) == k && Parsed(init, all, triggerables)[k] == SchedulerGraph(s, all, triggerables);
      assert s in prefix;
    } else {
      assert last in prefix;
    }
  }

  /** In every parsed graph all edge endpoints are nodes, and `root` holds
      exactly for a scheduler with none of the three upstream relations. */
  lemma ParsedClosed(schedulers: seq<Scheduler>, triggerables: map<string, seq<string>>, k: string)
    requires k in Parsed(schedulers, schedulers, triggerables)
    ensures var g := Parsed(schedulers, schedulers, triggerables)[k];
            forall e | e in g.edges :: e.0 in g.nodes && e.1 in g.nodes
    ensures exists s | s in schedulers && Label(s.name) == k ::
              Parsed(schedulers, schedulers, triggerables)[k] == SchedulerGraph(s, schedulers, triggerables) &&
              (Parsed(schedulers, schedulers, triggerables)[k].root <==>
               !s.trigger && s.upstreamName == "" && s.upstreamBuilders == [])
  {
    ParsedGraphs(schedulers, schedulers, triggerables, k);
  }

  /** For a triggerable scheduler missing from `triggerables`, the trigger
      relation adds no edge into its label and raises no error, yet the
      scheduler is not a root. */
  lemma TriggerableWithoutEntry(s: Scheduler, all: seq<Scheduler>, triggerables: map<string, seq<string>>)
    requires s.trigger && s.name !in triggerables
    ensures TriggerSources(s, triggerables) == {}
    ensures !SchedulerGraph(s, all, triggerables).root
  {
  }

  /** For a dependent scheduler whose upstream name matches no scheduler,
      the dependent relation adds no edge into its label, yet the scheduler
      is not a root; every scheduler that does match contributes all of its
      builders. */
  lemma DependentUpstream(s: Scheduler, all: seq<Scheduler>)
    requires s.upstreamName != ""
    ensures (forall u | u in all :: u.name != s.upstreamName) ==> DependentSources(s, all) == {}
    ensures forall u, b | u in all && u.name == s.upstreamName && b in u.builderNames ::
              b in DependentSources(s, all)
    ensures forall triggerables: map<string, seq<string>> :: !SchedulerGraph(s, all, triggerables).root
  {
  }

  /** The graph of a plain scheduler notifying `b`. */
  lemma PlainGraph(s: Scheduler, all: seq<Scheduler>, triggerables: map<string, seq<string>>, b: string)
    requires s.builderNames == [b] && !s.trigger && s.upstreamName == "" && s.upstreamBuilders == []
    ensures SchedulerGraph(s, all, triggerables) == Graph({Label(s.name), b}, {(Label(s.name), b)}, true)
  {
    assert UpstreamSources(s, all, triggerables) == {};
  }

  /** The graph of a dependent scheduler notifying `b` whose upstream
      schedulers hold the builders `sources`. */
  lemma DependentGraph(s: Scheduler, all: seq<Scheduler>, triggerables: map<string, seq<string>>, b: string, sources: set<string>)
    requires s.builderNames == [b] && !s.trigger && s.upstreamName != "" && s.upstreamBuilders == []
    requires UpstreamOf(all, s.upstreamName) == sources
    ensures SchedulerGraph(s, all, triggerables) ==
              Graph({Label(s.name), b} + sources, {(Label(s.name), b)} + Incoming(sources, Label(s.name)), false)
  {
    assert UpstreamSources(s, all, triggerables) == sources;
  }

  /** A dependent scheduler "foo" on "base": "foo" is no root and gets an edge
      from the builder of "base". */
  lemma DependentOnBase(ss: seq<Scheduler>)
    requires ss == [Scheduler("base", ["upstream"], false, "", []), Scheduler("foo", ["bar"], false, "base", [])]
    ensures Parsed(ss, ss, map[]) ==
              map[Label("base") := Graph({Label("base"), "upstream"}, {(Label("base"), "upstream")}, true),
                  Label("foo") := Graph({Label("foo"), "bar", "upstream"}, {(Label("foo"), "bar"), ("upstream", Label("foo"))}, false)]
  {
    var m: map<string, seq<string>> := map[];
    assert ss[..1][..0] == [] && ss[..1] == [ss[0]];
    PlainGraph(ss[0], ss, m, "upstream");
    assert UpstreamOf(ss, "base") == {"upstream"} by {
      assert [] + [ss[0]] == [ss[0]] && [ss[0]] + [ss[1]] == ss;
      UpstreamOfStep([], ss[0], "base");
      UpstreamOfStep([ss[0]], ss[1], "base");
    }
    DependentGraph(ss[1], ss, m, "bar", {"upstream"});
    assert Incoming({"upstream"}, Label("foo")) == {("upstream", Label("foo"))};
    assert Parsed(ss[..1], ss, m) == map[Label("base") := SchedulerGraph(ss[0], ss, m)];
    assert ss[..|ss| - 1] == ss[..1];
    assert Parsed(ss, ss, m) == Parsed(ss[..1], ss, m)[Label("foo") := SchedulerGraph(ss[1], ss, m)];
    LabelInjective("base", "foo");
    assert SchedulerGraph(ss[1], ss, m) ==
             Graph({Label("foo"), "bar", "upstream"}, {(Label("foo"), "bar"), ("upstream", Label("foo"))}, false);
  }
}
