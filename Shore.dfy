/**
  One OCEAN x-ray absorption calculation (the `_xas` instance): its graph
  nodes, its stage flags inferred from the log, its milestone progress, the
  launch on the remote host, its parameter updates and the per-site results.

  The remote session, the files and the clock are not modelled: the log is
  given as its lines, "the remote CNBSE directory is non-empty" as a flag,
  the scheduler's answer as a string, and the result files as a map from
  file name to intensity series. Every call of `save_attributes` is counted
  in `saves`.
*/
module Shore {

  import opened Wrappers
  import opened Text
  import opened Params
  import opened Workflow
  import opened Stages
  import opened Progress
  import opened Launch
  import opened Results

  /** The graph node of a stage, `{name}-{stage}`. */
  function StageNode(name: string, stage: string): string {
    name + "-" + stage
  }

  /** The graph nodes of the stages whose names are in `done`. */
  function StageNodes(name: string, done: set<string>): set<string> {
    set s | s in done :: StageNode(name, s)
  }

  lemma StageNodesAdd(name: string, done: set<string>, s: string)
    ensures StageNodes(name, done + {s}) == StageNodes(name, done) + {StageNode(name, s)}
  {
  }

  function ResultsNode(name: string): string {
    name + "-results"
  }

  /** The nodes of an instance's pipeline chain. */
  function ChainNodes(name: string): set<string> {
    {name, StageNode(name, "parsing"), StageNode(name, "opf"), StageNode(name, "dft"),
     StageNode(name, "prep"), StageNode(name, "screen"), StageNode(name, "cnbse"), ResultsNode(name)}
  }

  /** The edges of the pipeline chain, from the instance through the six
      stages in order to the results node. */
  function ChainEdges(name: string): set<(string, string)> {
    {(name, StageNode(name, "parsing")),
     (StageNode(name, "parsing"), StageNode(name, "opf")),
     (StageNode(name, "opf"), StageNode(name, "dft")),
     (StageNode(name, "dft"), StageNode(name, "prep")),
     (StageNode(name, "prep"), StageNode(name, "screen")),
     (StageNode(name, "screen"), StageNode(name, "cnbse")),
     (StageNode(name, "cnbse"), ResultsNode(name))}
  }

  /** Every declared stage has its node in the chain. */
  lemma ChainHasStages(name: string)
    ensures forall j :: 0 <= j < |Pipeline| ==> StageNode(name, Pipeline[j].name) in ChainNodes(name)
  {
  }

  /** The graph after an instance registered itself: the structure and the
      instance are active, every other node that existed keeps its state,
      and every node that is new starts inactive. */
  predicate Extends(before: map<string, NodeState>, after: map<string, NodeState>, sname: string, name: string) {
    && before.Keys <= after.Keys
    && sname in after && after[sname] == Active
    && name in after && after[name] == Active
    && forall n :: n in after && n != sname && n != name ==>
         after[n] == if n in before then before[n] else Inactive
  }

  lemma ExtendsGrows(before: map<string, NodeState>, mid: map<string, NodeState>, after: map<string, NodeState>, sname: string, name: string)
    requires Extends(before, mid, sname, name) && Grows(mid, after)
    ensures Extends(before, after, sname, name)
  {
  }

  /** The seven `add_instance` calls of the pipeline chain, from the
      instance through the six stages to the results node. */
  method AddChain(graph: Graph, name: string)
    modifies graph
    ensures graph.edges == old(graph.edges) + ChainEdges(name)
    ensures graph.nodes.Keys == old(graph.nodes).Keys + ChainNodes(name)
    ensures Grows(old(graph.nodes), graph.nodes)
  {
    AddPath(graph, name, StageNode(name, "parsing"), StageNode(name, "opf"), StageNode(name, "dft"));
    ghost var n1 := graph.nodes;
    AddPath(graph, StageNode(name, "dft"), StageNode(name, "prep"), StageNode(name, "screen"), StageNode(name, "cnbse"));
    GrowsTrans(old(graph.nodes), n1, graph.nodes);
    ghost var n2 := graph.nodes;
    graph.AddInstance(StageNode(name, "cnbse"), ResultsNode(name));
    GrowsTrans(old(graph.nodes), n2, graph.nodes);
  }

  /** Three `add_instance` calls along the path a -> b -> c -> d. */
  method AddPath(graph: Graph, a: string, b: string, c: string, d: string)
    modifies graph
    ensures graph.edges == old(graph.edges) + {(a, b), (b, c), (c, d)}
    ensures graph.nodes.Keys == old(graph.nodes).Keys + {a, b, c, d}
    ensures Grows(old(graph.nodes), graph.nodes)
  {
    graph.AddInstance(a, b);
    ghost var n1 := graph.nodes;
    graph.AddInstance(b, c);
    GrowsTrans(old(graph.nodes), n1, graph.nodes);
    ghost var n2 := graph.nodes;
    graph.AddInstance(c, d);
    GrowsTrans(old(graph.nodes), n2, graph.nodes);
  }

  /** The graph nodes of the given sites, in site order. */
  function SiteNodeList(n: Naming, sites: seq<int>): (r: seq<string>)
    ensures |r| == |sites|
  {
    seq(|sites|, k requires 0 <= k < |sites| => SiteNode(n, sites[k]))
  }

  /** The names in a sequence. */
  function Elems(ts: seq<string>): set<string> {
    set t | t in ts
  }

  /** The edges from `from` to each name in a sequence. */
  function EdgesFrom(from: string, ts: seq<string>): set<(string, string)> {
    set t | t in ts :: (from, t)
  }

  /** The nodes of the given sites. */
  function SiteNodes(n: Naming, sites: seq<int>): set<string> {
    Elems(SiteNodeList(n, sites))
  }

  /** The edges from `from` to the nodes of the given sites. */
  function SiteEdges(from: string, n: Naming, sites: seq<int>): set<(string, string)> {
    EdgesFrom(from, SiteNodeList(n, sites))
  }

  /** A node is a site node iff it is the node of one of the sites. */
  lemma SiteNodesMembers(n: Naming, sites: seq<int>, m: string)
    ensures m in SiteNodes(n, sites) <==> exists k :: 0 <= k < |sites| && m == SiteNode(n, sites[k])
  {
    var l := SiteNodeList(n, sites);
    if m in SiteNodes(n, sites) {
      var k :| 0 <= k < |l| && l[k] == m;
      assert m == SiteNode(n, sites[k]);
    }
    if exists k :: 0 <= k < |sites| && m == SiteNode(n, sites[k]) {
      var k :| 0 <= k < |sites| && m == SiteNode(n, sites[k]);
      assert l[k] == m;
    }
  }

  lemma ElemsSnoc(from: string, ts: seq<string>, t: string)
    ensures Elems(ts + [t]) == Elems(ts) + {t}
    ensures EdgesFrom(from, ts + [t]) == EdgesFrom(from, ts) + {(from, t)}
  {
    assert forall u :: u in ts + [t] <==> u in ts || u == t;
  }

  /** One `add_instance` from the results node to each site's node, the
      site nodes given in order. */
  method AddSites(graph: Graph, from: string, targets: seq<string>)
    requires from in graph.nodes
    modifies graph
    ensures graph.edges == old(graph.edges) + EdgesFrom(from, targets)
    ensures graph.nodes.Keys == old(graph.nodes).Keys + Elems(targets)
    ensures Grows(old(graph.nodes), graph.nodes)
  {
    for i := 0 to |targets|
      invariant graph.edges == old(graph.edges) + EdgesFrom(from, targets[..i])
      invariant graph.nodes.Keys == old(graph.nodes).Keys + Elems(targets[..i])
      invariant Grows(old(graph.nodes), graph.nodes)
    {
      ghost var mid := graph.nodes;
      assert targets[..i + 1] == targets[..i] + [targets[i]];
      ElemsSnoc(from, targets[..i], targets[i]);
      graph.AddInstance(from, targets[i]);
      GrowsTrans(old(graph.nodes), mid, graph.nodes);
    }
    assert targets[..|targets|] == targets;
  }

  /** The graph wiring of a new instance: the structure node (active), the
      edge to the instance, the instance set active, the pipeline chain and
      one edge from the results node to each site's node. */
  method Wire(graph: Graph, sname: string, name: string, siteNodes: seq<string>)
    modifies graph
    ensures graph.nodes.Keys == old(graph.nodes).Keys + {sname} + ChainNodes(name) + Elems(siteNodes)
    ensures Extends(old(graph.nodes), graph.nodes, sname, name)
    ensures graph.edges == old(graph.edges) + {(sname, name)} + ChainEdges(name) + EdgesFrom(ResultsNode(name), siteNodes)
  {
    ghost var keys := old(graph.nodes).Keys + {sname};
    graph.AddNode(sname, Active);
    graph.AddInstance(sname, name);
    var named := graph.SetState(name, Active);
    assert Extends(old(graph.nodes), graph.nodes, sname, name);
    assert graph.nodes.Keys == keys + {name};
    ghost var registered := graph.nodes;
    AddChain(graph, name);
    assert name in ChainNodes(name);
    assert graph.nodes.Keys == keys + ChainNodes(name);
    ghost var chained := graph.nodes;
    AddSites(graph, ResultsNode(name), siteNodes);
    GrowsTrans(registered, chained, graph.nodes);
    ExtendsGrows(old(graph.nodes), registered, graph.nodes, sname, name);
  }

  /** Every stage in `done` has its node among `nodes`. */
  predicate StagesPresent(nodes: map<string, NodeState>, name: string, done: set<string>) {
    forall k :: k in done ==> StageNode(name, k) in nodes
  }

  /** One more stage considered needs its node iff it is complete. */
  lemma StagesPresentStep(nodes: map<string, NodeState>, name: string, log: seq<string>, j: nat)
    requires j < |Pipeline|
    ensures StagesPresent(nodes, name, DoneAmong(log, j + 1)) <==>
      StagesPresent(nodes, name, DoneAmong(log, j)) && (StageDone(log, Pipeline[j]) ==> StageNode(name, Pipeline[j].name) in nodes)
  {
    DoneAmongStep(log, j);
  }

  /** A stage node missing among the first `a` stages is missing among more. */
  lemma StagesPresentMono(nodes: map<string, NodeState>, name: string, log: seq<string>, a: nat, b: nat)
    requires a <= b <= |Pipeline|
    ensures StagesPresent(nodes, name, DoneAmong(log, b)) ==> StagesPresent(nodes, name, DoneAmong(log, a))
  {
    DoneAmongMono(log, a, b);
  }

  /** One more stage considered activates its node iff it is complete. */
  lemma StageNodesStep(nodes: map<string, NodeState>, name: string, log: seq<string>, j: nat)
    requires j < |Pipeline|
    ensures SetAll(nodes, StageNodes(name, DoneAmong(log, j + 1)), Active) ==
      if StageDone(log, Pipeline[j]) then Mark(SetAll(nodes, StageNodes(name, DoneAmong(log, j)), Active), StageNode(name, Pipeline[j].name), Active)
      else SetAll(nodes, StageNodes(name, DoneAmong(log, j)), Active)
  {
    DoneAmongStep(log, j);
    if StageDone(log, Pipeline[j]) {
      StageNodesAdd(name, DoneAmong(log, j), Pipeline[j].name);
      SetAllAdd(nodes, StageNodes(name, DoneAmong(log, j)), StageNode(name, Pipeline[j].name), Active);
    }
  }

  /** Latching declared stages keeps the flags over the declared stages and
      in {0, 1}. */
  lemma LatchValid(states: map<string, int>, log: seq<string>, j: nat)
    requires states.Keys == StageNames() && forall k :: k in states ==> 0 <= states[k] <= 1
    requires j <= |Pipeline|
    ensures LatchSet(states, DoneAmong(log, j)).Keys == StageNames()
    ensures forall k :: k in LatchSet(states, DoneAmong(log, j)) ==> 0 <= LatchSet(states, DoneAmong(log, j))[k] <= 1
  {
    DoneAmongMono(log, j, |Pipeline|);
  }

  /** The sites `plot` visits: the given ones, or all of the instance's. */
  function PlotSites(sites: seq<int>, all: seq<int>): (r: seq<int>)
    ensures sites != [] ==> r == sites
    ensures sites == [] ==> r == all
  {
    if sites != [] then sites else all
  }

  /** The polarisations `plot` visits: the given ones, or 1, 2, 3. */
  function PlotPols(pols: seq<int>): (r: seq<int>)
    ensures r != []
    ensures pols != [] ==> r == pols
    ensures pols == [] ==> r == [1, 2, 3]
  {
    if pols != [] then pols else [1, 2, 3]
  }

  class Xas {
    const name: string
    const structure: Structure
    const element: string
    const edge: string
    const input: Input
    const workflow: Graph
    const localDir: string
    const remoteDir: Option<string>

    var listIds: seq<int>
    var stagesStates: map<string, int>
    var jobId: Option<string>
    var progress: map<string, int>
    var y: Spectrum
    var commands: seq<string>   // remote commands issued, in order
    var saves: nat              // calls of save_attributes

    /** The stage flags cover exactly the declared stages and are 0 or 1. */
    ghost predicate Valid()
      reads this
    {
      && stagesStates.Keys == StageNames()
      && forall k :: k in stagesStates ==> 0 <= stagesStates[k] <= 1
    }

    /** What the names of this instance's files and nodes are built from. */
    function Names(): Naming {
      Naming(localDir, name, element, edge)
    }

    /** Creates the instance for `input` and wires its nodes into `graph`:
        the structure, the instance, the six stages in order, the results
        node and one node per site. */
    constructor (root: string, graph: Graph, serverRoot: Option<string>, input: Input)
      modifies graph
      ensures name == input.name && structure == input.structure
      ensures element == input.content.element && edge == input.content.edge
      ensures this.input == input && workflow == graph
      ensures localDir == root + "/" + input.structure.name + "/" + input.name
      ensures remoteDir == if serverRoot.Some? then Some(serverRoot.value + "/" + "/" + input.structure.name + "/" + input.name) else None
      ensures |listIds| == CountOf(input.structure.symbols, input.content.element)
      ensures forall i :: 0 <= i < |listIds| ==> listIds[i] == i + 1
      ensures stagesStates == InitialStates && Valid()
      ensures jobId == None && progress == map[] && y == Scalar(0) && commands == [] && saves == 0
      ensures graph.nodes.Keys == old(graph.nodes).Keys + {structure.name} + ChainNodes(name)
                                  + SiteNodes(Names(), listIds)
      ensures Extends(old(graph.nodes), graph.nodes, structure.name, name)
      ensures graph.edges == old(graph.edges) + {(structure.name, name)} + ChainEdges(name)
                             + SiteEdges(ResultsNode(name), Names(), listIds)
    {
      name := input.name;
      structure := input.structure;
      element := input.content.element;
      edge := input.content.edge;
      this.input := input;
      workflow := graph;
      localDir := root + "/" + input.structure.name + "/" + input.name;
      remoteDir := if serverRoot.Some? then Some(serverRoot.value + "/" + "/" + input.structure.name + "/" + input.name) else None;
      listIds := [];
      stagesStates := InitialStates;
      jobId := None;
      progress := map[];
      y := Scalar(0);
      commands := [];
      saves := 0;
      new;
      InitialStatesCoverStages();
      Setup();
    }

    /** The second half of `__init__`: numbers the sites, wires the
        instance into the graph and activates the nodes of flagged stages
        (none, for a new instance). */
    method Setup()
      requires Valid() && stagesStates == InitialStates
      modifies this`listIds, workflow
      ensures Valid()
      ensures |listIds| == CountOf(structure.symbols, element)
      ensures forall i :: 0 <= i < |listIds| ==> listIds[i] == i + 1
      ensures workflow.nodes.Keys == old(workflow.nodes).Keys + {structure.name} + ChainNodes(name)
                                     + SiteNodes(Names(), listIds)
      ensures Extends(old(workflow.nodes), workflow.nodes, structure.name, name)
      ensures workflow.edges == old(workflow.edges) + {(structure.name, name)} + ChainEdges(name)
                                + SiteEdges(ResultsNode(name), Names(), listIds)
    {
      listIds := GetElementOrder(element);
      Wire(workflow, structure.name, name, SiteNodeList(Names(), listIds));
      ghost var wired := workflow.nodes;
      FlaggedInitial();
      var flagged := CheckIfThereIsSomething();
      assert workflow.nodes == wired;
    }

    /** No stage is flagged in a new instance. */
    lemma FlaggedInitial()
      ensures FlaggedAmong(InitialStates, |Pipeline|) == {}
    {
    }

    /** `_get_element_order`: the ids 1, 2, ..., k of the k atoms whose symbol
        is `e`, numbered among the matching atoms only. */
    method GetElementOrder(e: string) returns (output: seq<int>)
      ensures |output| == CountOf(structure.symbols, e)
      ensures forall i :: 0 <= i < |output| ==> output[i] == i + 1
    {
      var symbols := structure.symbols;
      var id := 1;
      output := [];
      for j := 0 to |symbols|
        invariant id == |output| + 1
        invariant |output| == CountOf(symbols[..j], e)
        invariant forall i :: 0 <= i < |output| ==> output[i] == i + 1
      {
        assert symbols[..j + 1][..j] == symbols[..j];
        if symbols[j] == e {
          output := output + [id];
          id := id + 1;
        }
      }
      assert symbols[..|symbols|] == symbols;
    }

    /** `_check_if_there_is_something`: activates the node of every stage
        whose flag is set, in stage order; a missing node raises, which
        ends the pass with the earlier nodes already activated. */
    method CheckIfThereIsSomething() returns (ok: bool)
      requires Valid()
      modifies workflow
      ensures ok <==> StagesPresent(old(workflow.nodes), name, FlaggedAmong(stagesStates, |Pipeline|))
      ensures ok ==> workflow.nodes == SetAll(old(workflow.nodes), StageNodes(name, FlaggedAmong(stagesStates, |Pipeline|)), Active)
      ensures FlaggedAmong(stagesStates, |Pipeline|) == {} ==> ok && workflow.nodes == old(workflow.nodes)
      ensures !ok ==> exists j :: 0 <= j <= |Pipeline| && workflow.nodes == SetAll(old(workflow.nodes), StageNodes(name, FlaggedAmong(stagesStates, j)), Active)
      ensures workflow.nodes.Keys == old(workflow.nodes).Keys
      ensures workflow.edges == old(workflow.edges)
    {
      for j := 0 to |Pipeline|
        invariant workflow.nodes == SetAll(old(workflow.nodes), StageNodes(name, FlaggedAmong(stagesStates, j)), Active)
        invariant StagesPresent(old(workflow.nodes), name, FlaggedAmong(stagesStates, j))
        invariant workflow.edges == old(workflow.edges)
      {
        var k := Pipeline[j].name;
        FlaggedAmongStep(stagesStates, j);
        if stagesStates[k] > 0 {
          ok := workflow.SetState(StageNode(name, k), Active);
          if !ok {
            assert workflow.nodes == SetAll(old(workflow.nodes), StageNodes(name, FlaggedAmong(stagesStates, j)), Active);
            return;
          }
          StageNodesAdd(name, FlaggedAmong(stagesStates, j), k);
          SetAllAdd(old(workflow.nodes), StageNodes(name, FlaggedAmong(stagesStates, j)), StageNode(name, k), Active);
        }
      }
      ok := true;
      if FlaggedAmong(stagesStates, |Pipeline|) == {} {
        assert StageNodes(name, {}) == {};
        SetAllNone(old(workflow.nodes), Active);
      }
    }

    /** `set(key, value)`: updates the instance's parameter dictionary (the
        one it shares with its input's content) and saves iff the key was
        absent or held a different value. */
    method Set(key: string, value: Value) returns (saved: bool)
      modifies input.content, this`saves
      ensures SetResult(input.content.input, saved) == Upsert(old(input.content.input), key, value)
      ensures saves == old(saves) + (if saved then 1 else 0)
    {
      var data := input.content.input;
      if key in data {
        if data[key] != value {
          input.content.input := data[key := value];
          saves := saves + 1;
          saved := true;
        } else {
          saved := false;
        }
      } else {
        input.content.input := data[key := value];
        saves := saves + 1;
        saved := true;
      }
    }

    /** The flags and the nodes once `get_state` has handled the first `j`
        stages, starting from `states0` and `nodes0`. */
    ghost predicate InferredUpTo(log: seq<string>, j: nat, states0: map<string, int>, nodes0: map<string, NodeState>)
      requires j <= |Pipeline|
      reads this, workflow
    {
      && stagesStates == LatchSet(states0, DoneAmong(log, j))
      && workflow.nodes == SetAll(nodes0, StageNodes(name, DoneAmong(log, j)), Active)
    }

    /** `get_state` over the lines of the log: counts, stage by stage, the
        markers some line contains; a stage whose markers are all found is
        latched to 1 and its node activated. A missing stage node raises,
        which ends the pass without saving, the flags of the stages so far
        already latched. */
    method GetState(log: seq<string>) returns (ok: bool)
      modifies this`stagesStates, this`saves, workflow
      ensures ok <==> StagesPresent(old(workflow.nodes), name, DoneStages(log))
      ensures ok ==> stagesStates == Latch(old(stagesStates), log)
      ensures ok ==> workflow.nodes == SetAll(old(workflow.nodes), StageNodes(name, DoneStages(log)), Active)
      ensures !ok ==> exists j :: 0 <= j <= |Pipeline| && InferredUpTo(log, j, old(stagesStates), old(workflow.nodes))
      ensures old(Valid()) ==> Valid()
      ensures saves == old(saves) + (if ok then 1 else 0)
      ensures workflow.nodes.Keys == old(workflow.nodes).Keys && workflow.edges == old(workflow.edges)
    {
      for j := 0 to |Pipeline|
        invariant stagesStates == LatchSet(old(stagesStates), DoneAmong(log, j))
        invariant workflow.nodes == SetAll(old(workflow.nodes), StageNodes(name, DoneAmong(log, j)), Active)
        invariant StagesPresent(old(workflow.nodes), name, DoneAmong(log, j))
        invariant workflow.edges == old(workflow.edges)
        invariant saves == old(saves)
      {
        ok := InferStage(log, j, old(stagesStates), old(workflow.nodes));
        if !ok {
          StagesPresentMono(old(workflow.nodes), name, log, j + 1, |Pipeline|);
          if old(Valid()) {
            LatchValid(old(stagesStates), log, j + 1);
          }
          assert 0 <= j + 1 <= |Pipeline| && InferredUpTo(log, j + 1, old(stagesStates), old(workflow.nodes));
          return;
        }
      }
      if old(Valid()) {
        LatchValid(old(stagesStates), log, |Pipeline|);
      }
      saves := saves + 1;
      ok := true;
    }

    /** One stage of `get_state`: the stage is latched and its node
        activated when every marker is found; a missing node raises. The
        flags and nodes go from the state after the first `j` stages to the
        state after the first `j + 1`. */
    method InferStage(log: seq<string>, j: nat, ghost states0: map<string, int>, ghost nodes0: map<string, NodeState>) returns (ok: bool)
      requires j < |Pipeline|
      requires stagesStates == LatchSet(states0, DoneAmong(log, j))
      requires workflow.nodes == SetAll(nodes0, StageNodes(name, DoneAmong(log, j)), Active)
      requires StagesPresent(nodes0, name, DoneAmong(log, j))
      modifies this`stagesStates, workflow
      ensures stagesStates == LatchSet(states0, DoneAmong(log, j + 1))
      ensures ok <==> StagesPresent(nodes0, name, DoneAmong(log, j + 1))
      ensures workflow.nodes == SetAll(nodes0, StageNodes(name, DoneAmong(log, j + 1)), Active)
      ensures workflow.nodes.Keys == old(workflow.nodes).Keys && workflow.edges == old(workflow.edges)
    {
      var stage := Pipeline[j];
      var count := CountMarkers(log, stage.markers);
      CountFoundAll(log, stage.markers);
      LatchStep(states0, log, j);
      StageNodesStep(nodes0, name, log, j);
      StagesPresentStep(nodes0, name, log, j);
      ok := true;
      if count == |stage.markers| {
        stagesStates := stagesStates[stage.name := 1];
        ok := workflow.SetState(StageNode(name, stage.name), Active);
      }
    }

    /** `extract_progress_info` over the lines of the log: for each line, in
        order, each milestone whose marker the line contains raises its key
        to the milestone's constant. */
    method ExtractProgressInfo(log: seq<string>)
      modifies this`progress
      ensures progress == Raise(old(progress), log)
    {
      for i := 0 to |log|
        invariant progress == Raise(old(progress), log[..i])
      {
        var line := log[i];
        ghost var before := progress;
        ScanLine(line);
        RaiseConcat(old(progress), log[..i], [line]);
        assert log[..i + 1] == log[..i] + [line];
      }
      assert log[..|log|] == log;
    }

    /** The eight milestone tests of `extract_progress_info` on one line. */
    method ScanLine(line: string)
      modifies this`progress
      ensures progress == Raise(old(progress), [line])
    {
      for j := 0 to |Milestones|
        invariant progress == RaiseKeys(old(progress), HitIn(line, j))
      {
        RaiseKeysStep(old(progress), line, j);
        if Contains(line, Milestones[j].marker) {
          progress := progress[Milestones[j].key := Milestones[j].value];
        }
      }
      RaiseLine(old(progress), line);
    }

    /** `_remote_monitor`: the progress dictionary starts from zero and, once
        per poll, is raised by scanning the mirrored log, whose successive
        contents are `snapshots`; the largest value is shown after each scan.
        Polling stops once `ocean` reaches 100, or when the snapshots run
        out (the operator interrupting). Afterwards the instance's node is
        set active and the state saved; a missing node raises instead. */
    method RemoteMonitor(snapshots: seq<seq<string>>) returns (shown: seq<int>, ok: bool)
      modifies this`progress, this`saves, workflow
      ensures |shown| == Polls(snapshots)
      ensures shown == Shown(snapshots, |shown|)
      ensures progress == Polled(snapshots, |shown|)
      ensures ok <==> name in old(workflow.nodes)
      ensures workflow.nodes == Mark(old(workflow.nodes), name, Active) && workflow.edges == old(workflow.edges)
      ensures saves == old(saves) + (if ok then 1 else 0)
    {
      progress := InitialProgress;
      PolledNone(snapshots);
      PolledState(snapshots, 0);
      shown := [];
      var i := 0;
      while progress["ocean"] != 100 && i < |snapshots|
        invariant 0 <= i <= |snapshots|
        invariant shown == Shown(snapshots, i)
        invariant progress == Polled(snapshots, i) && "ocean" in progress
        invariant forall t :: 0 <= t < i - 1 ==> !Found(snapshots[t], DoneMarker)
        invariant Polls(snapshots) == if i > 0 && Found(snapshots[i - 1], DoneMarker) then i else PollsFrom(snapshots, i)
        invariant workflow.nodes == old(workflow.nodes) && workflow.edges == old(workflow.edges)
        invariant saves == old(saves)
        decreases |snapshots| - i
      {
        PolledState(snapshots, i);
        PollsFromStep(snapshots, i);
        Poll(snapshots, i);
        PolledState(snapshots, i + 1);
        shown := shown + [MaxProgress(progress)];
        i := i + 1;
      }
      PolledState(snapshots, i);
      ok := workflow.SetState(name, Active);
      if ok {
        saves := saves + 1;
      }
    }

    /** One poll of `_remote_monitor`: the next snapshot of the log is scanned. */
    method Poll(snapshots: seq<seq<string>>, i: nat)
      requires i < |snapshots| && progress == Polled(snapshots, i)
      modifies this`progress
      ensures progress == Polled(snapshots, i + 1)
    {
      PolledStep(snapshots, i);
      ExtractProgressInfo(snapshots[i]);
    }

    /** `_run_remote` after the input upload: skips when the remote CNBSE
        directory already holds output and `overwrite` is off; otherwise
        submits `job.sh` and records the job number read back from
        `stdout`, or starts the run in the background. */
    method RunRemote(overwrite: bool, cnbseNonEmpty: bool, sbatch: bool, stdout: string) returns (outcome: LaunchOutcome)
      requires remoteDir.Some?
      modifies this`jobId, this`commands
      ensures outcome == Decide(overwrite, cnbseNonEmpty, sbatch, stdout)
      ensures commands == old(commands) + (if outcome == Skipped then []
                                           else if sbatch then [SbatchCommand(remoteDir.value)]
                                           else [BackgroundCommand(remoteDir.value)])
      ensures jobId == if outcome.Submitted? then Some(outcome.id) else old(jobId)
    {
      if cnbseNonEmpty && !overwrite {
        outcome := Skipped;
      } else if sbatch {
        commands := commands + [SbatchCommand(remoteDir.value)];
        var id := ParseJobId(stdout);
        if id.Some? {
          jobId := id;
          outcome := Submitted(id.value);
        } else {
          outcome := NoJobId;
        }
      } else {
        commands := commands + [BackgroundCommand(remoteDir.value)];
        outcome := Dispatched;
      }
    }

    /** `plot`: for each site and polarisation, in order, adds the series of
        the spectrum file when it exists and sets the site's node active,
        or sets it inactive when the file is absent; then saves. A missing
        site node raises, which ends the pass without saving. */
    method Plot(sites: seq<int>, pols: seq<int>, files: map<string, seq<int>>) returns (ok: bool)
      requires SameWidth(files)
      modifies this`y, this`saves, workflow
      ensures ok <==> SitesPresent(old(workflow.nodes), Names(), PlotSites(sites, listIds))
      ensures ok ==> y == Accumulate(files, VisitedFiles(Names(), PlotSites(sites, listIds), PlotPols(pols)))
      ensures ok ==> workflow.nodes == MarkSites(old(workflow.nodes), files, Names(), PlotSites(sites, listIds), PlotPols(pols))
      ensures !ok ==> exists i :: 0 <= i < |PlotSites(sites, listIds)|
                                  && PlottedUpTo(files, PlotSites(sites, listIds), PlotPols(pols), i, old(workflow.nodes))
      ensures workflow.nodes.Keys == old(workflow.nodes).Keys && workflow.edges == old(workflow.edges)
      ensures saves == old(saves) + (if ok then 1 else 0)
    {
      ok := PlotLoop(files, PlotSites(sites, listIds), PlotPols(pols));
      if ok {
        saves := saves + 1;
      }
    }

    /** Where a failed `plot` stops: `ss[i]` is the first site without a
        node; the sites before it were summed and marked, and of site `i`
        only the first polarisation's series was added before the raise. */
    ghost predicate PlottedUpTo(files: map<string, seq<int>>, ss: seq<int>, ps: seq<int>, i: nat, nodes0: map<string, NodeState>)
      requires SameWidth(files) && i < |ss| && ps != []
      reads this, workflow
    {
      && SitesPresent(nodes0, Names(), ss[..i])
      && SiteNode(Names(), ss[i]) !in nodes0
      && y == Accumulate(files, VisitedFiles(Names(), ss[..i], ps) + SiteFiles(Names(), ss[i], ps)[..1])
      && workflow.nodes == MarkSites(nodes0, files, Names(), ss[..i], ps)
    }

    /** The site loop of `plot`, over the sites `ss` and polarisations `ps`. */
    method PlotLoop(files: map<string, seq<int>>, ss: seq<int>, ps: seq<int>) returns (ok: bool)
      requires SameWidth(files) && ps != []
      modifies this`y, workflow
      ensures ok <==> SitesPresent(old(workflow.nodes), Names(), ss)
      ensures ok ==> y == Accumulate(files, VisitedFiles(Names(), ss, ps))
      ensures ok ==> workflow.nodes == MarkSites(old(workflow.nodes), files, Names(), ss, ps)
      ensures !ok ==> exists i :: 0 <= i < |ss| && PlottedUpTo(files, ss, ps, i, old(workflow.nodes))
      ensures workflow.nodes.Keys == old(workflow.nodes).Keys && workflow.edges == old(workflow.edges)
    {
      y := Scalar(0);
      for i := 0 to |ss|
        invariant y == Accumulate(files, VisitedFiles(Names(), ss[..i], ps))
        invariant workflow.nodes == MarkSites(old(workflow.nodes), files, Names(), ss[..i], ps)
        invariant workflow.nodes.Keys == old(workflow.nodes).Keys
        invariant SitesPresent(old(workflow.nodes), Names(), ss[..i])
        invariant workflow.edges == old(workflow.edges)
      {
        var node := SiteNode(Names(), ss[i]);
        ok := PlotSite(files, SiteFiles(Names(), ss[i], ps), node, VisitedFiles(Names(), ss[..i], ps));
        VisitedFilesSnoc(Names(), ss, ps, i);
        MarkSitesSnoc(old(workflow.nodes), files, Names(), ss, ps, i);
        SitesPresentSnoc(old(workflow.nodes), Names(), ss, i);
        if !ok {
          assert !SitesPresent(old(workflow.nodes), Names(), ss) by {
            assert ss[i] in ss;
          }
          assert PlottedUpTo(files, ss, ps, i, old(workflow.nodes));
          return;
        }
      }
      assert ss[..|ss|] == ss;
      ok := true;
    }

    /** The polarisation loop of `plot` for one site, whose spectrum files
        are `siteFiles` and whose graph node is `node`. */
    method PlotSite(files: map<string, seq<int>>, siteFiles: seq<string>, node: string, ghost tried: seq<string>) returns (ok: bool)
      requires SameWidth(files) && siteFiles != []
      requires y == Accumulate(files, tried)
      modifies this`y, workflow
      ensures ok <==> node in old(workflow.nodes)
      ensures ok ==> y == Accumulate(files, tried + siteFiles)
      ensures ok ==> workflow.nodes == Mark(old(workflow.nodes), node, FinalState(files, siteFiles))
      ensures !ok ==> y == Accumulate(files, tried + siteFiles[..1]) && workflow.nodes == old(workflow.nodes)
      ensures workflow.nodes.Keys == old(workflow.nodes).Keys && workflow.edges == old(workflow.edges)
    {
      ok := node in workflow.nodes;
      assert tried + siteFiles[..0] == tried;
      for j := 0 to |siteFiles|
        invariant y == Accumulate(files, tried + siteFiles[..j])
        invariant ok <==> node in old(workflow.nodes)
        invariant ok ==> workflow.nodes == if j == 0 then old(workflow.nodes)
          else Mark(old(workflow.nodes), node, if siteFiles[j - 1] in files then Active else Inactive)
        invariant !ok ==> j == 0 && workflow.nodes == old(workflow.nodes)
        invariant workflow.nodes.Keys == old(workflow.nodes).Keys && workflow.edges == old(workflow.edges)
      {
        var f := siteFiles[j];
        assert tried + siteFiles[..j + 1] == (tried + siteFiles[..j]) + [f];
        AccumulateSnoc(files, tried + siteFiles[..j], f);
        if f in files {
          y := AddSeries(y, files[f]);
          ok := workflow.SetState(node, Active);
        } else {
          ok := workflow.SetState(node, Inactive);
        }
        if !ok {
          return;
        }
      }
      assert siteFiles[..|siteFiles|] == siteFiles;
    }
  }

  /** The marker count of one stage in `get_state`: one `_progress_info`
      scan per marker. */
  method CountMarkers(log: seq<string>, markers: seq<string>) returns (count: nat)
    ensures count == CountFound(log, markers)
  {
    count := 0;
    for m := 0 to |markers|
      invariant count == CountFound(log, markers[..m])
    {
      var found := ProgressInfo(log, markers[m]);
      assert markers[..m + 1][..m] == markers[..m];
      if found {
        count := count + 1;
      }
    }
    assert markers[..|markers|] == markers;
  }
}