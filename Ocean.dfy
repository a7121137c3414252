/**
  The orchestrator (`ocean_wrapper`): it owns the shared workflow graph and
  the registry of instances, and `converge` fans one input out into one
  renamed clone per value of a parameter, each registered as an instance.

  `copy.copy` of an input is a new input object that shares the original's
  content, so the parameter dictionary every clone writes into is one and
  the same; `ConvergeAsWritten` is that behaviour and `Converge` the one
  with a copy of the content per clone.
*/
module Ocean {

  import opened Wrappers
  import opened Text
  import opened Params
  import opened Workflow
  import opened Shore
  import opened Stages
  import opened Results

  /** `f'{name}_{param}'`: the name of the clone made for one value. */
  function CloneName(base: string, v: Value): string {
    base + "_" + Show(v)
  }

  /** Clones of distinct values of the same kind have distinct names. */
  lemma CloneNameInjective(base: string, v: Value, w: Value)
    requires v.Int? == w.Int? && v != w
    ensures CloneName(base, v) != CloneName(base, w)
  {
    var a, b := CloneName(base, v), CloneName(base, w);
    assert a[..|base| + 1] == b[..|base| + 1] == base + "_";
    assert a[|base| + 1..] == Show(v) && b[|base| + 1..] == Show(w);
    if v.Int? {
      IntToStringInjective(v.i, w.i);
    }
  }

  /** The parameter dictionary one content object holds after every clone
      has written its value into it, one after the other. */
  function SharedAfter(data: map<string, Value>, key: string, values: seq<Value>): map<string, Value> {
    if values == [] then data
    else SharedAfter(data, key, values[..|values| - 1])[key := values[|values| - 1]]
  }

  /** Writing the values one after the other leaves the last one, and every
      other key as it was. */
  lemma {:induction false} SharedAfterLast(data: map<string, Value>, key: string, values: seq<Value>)
    requires values != []
    ensures SharedAfter(data, key, values) == data[key := values[|values| - 1]]
  {
    var init := values[..|values| - 1];
    if init != [] {
      SharedAfterLast(data, key, init);
    }
  }

  /** Under a shared content, clone `i` reads its own value iff that value is
      the last one. */
  lemma SharedCloneValue(data: map<string, Value>, key: string, values: seq<Value>, i: int)
    requires 0 <= i < |values|
    ensures key in SharedAfter(data, key, values)
    ensures SharedAfter(data, key, values)[key] == values[i] <==> values[i] == values[|values| - 1]
  {
    SharedAfterLast(data, key, values);
  }

  /** Two values: the clone made for the first reads the second. */
  lemma SharedCloneWitness()
    ensures SharedAfter(map[], "ecut", [Int(1), Int(2)])["ecut"] == Int(2)
    ensures CloneName("base", Int(1)) == "base_1"
  {
    SharedAfterLast(map[], "ecut", [Int(1), Int(2)]);
    assert IntToString(1) == "1";
  }

  /** The parameters a clone is meant to run with: the base's, with `key`
      holding the clone's value. */
  function CloneParams(data: map<string, Value>, key: string, v: Value): (r: map<string, Value>)
    ensures key in r && r[key] == v
    ensures r.Keys == data.Keys + {key}
    ensures forall k :: k in data && k != key ==> r[k] == data[k]
  {
    data[key := v]
  }

  /** The registry after `add_xas` of each instance of `xs`, in order:
      each is stored under its own name, a later one replacing an earlier
      one of the same name. */
  function RegisterAll(instance: map<string, Xas>, xs: seq<Xas>): map<string, Xas> {
    if xs == [] then instance
    else RegisterAll(instance, xs[..|xs| - 1])[xs[|xs| - 1].name := xs[|xs| - 1]]
  }

  /** Registering one more instance is one more map update. */
  lemma RegisterAllSnoc(instance: map<string, Xas>, xs: seq<Xas>, x: Xas)
    ensures RegisterAll(instance, xs + [x]) == RegisterAll(instance, xs)[x.name := x]
  {
    assert (xs + [x])[..|xs|] == xs;
  }

  /** The names of the instances. */
  function NamesOf(xs: seq<Xas>): set<string> {
    set j | 0 <= j < |xs| :: xs[j].name
  }

  /** The last instance's name joins the names of the others. */
  lemma NamesOfSnoc(xs: seq<Xas>)
    requires xs != []
    ensures NamesOf(xs) == NamesOf(xs[..|xs| - 1]) + {xs[|xs| - 1].name}
  {
    var init := xs[..|xs| - 1];
    forall n | n in NamesOf(xs) ensures n in NamesOf(init) + {xs[|xs| - 1].name} {
      var j :| 0 <= j < |xs| && xs[j].name == n;
      if j < |init| {
        assert init[j] == xs[j];
      }
    }
    forall n | n in NamesOf(init) ensures n in NamesOf(xs) {
      var j :| 0 <= j < |init| && init[j].name == n;
      assert xs[j] == init[j];
    }
  }

  /** Registering adds exactly the instances' names. */
  lemma {:induction false} RegisterAllKeys(instance: map<string, Xas>, xs: seq<Xas>)
    ensures RegisterAll(instance, xs).Keys == instance.Keys + NamesOf(xs)
  {
    if xs != [] {
      RegisterAllKeys(instance, xs[..|xs| - 1]);
      NamesOfSnoc(xs);
    }
  }

  /** Each instance's name holds an instance of that name. */
  lemma {:induction false} RegisterAllNamed(instance: map<string, Xas>, xs: seq<Xas>)
    ensures forall j :: 0 <= j < |xs| ==>
      xs[j].name in RegisterAll(instance, xs) && RegisterAll(instance, xs)[xs[j].name].name == xs[j].name
  {
    if xs != [] {
      var init := xs[..|xs| - 1];
      RegisterAllNamed(instance, init);
      forall j | 0 <= j < |init| ensures xs[j] == init[j] {}
    }
  }

  /** The last instance of a name is the one registered under it. */
  lemma {:induction false} RegisterAllLast(instance: map<string, Xas>, xs: seq<Xas>)
    ensures forall j :: 0 <= j < |xs| && (forall l :: j < l < |xs| ==> xs[l].name != xs[j].name) ==>
      xs[j].name in RegisterAll(instance, xs) && RegisterAll(instance, xs)[xs[j].name] == xs[j]
  {
    if xs != [] {
      var init := xs[..|xs| - 1];
      RegisterAllLast(instance, init);
      forall j | 0 <= j < |init| ensures xs[j] == init[j] {}
    }
  }

  /** Entries under other names are left as they were. */
  lemma {:induction false} RegisterAllOthers(instance: map<string, Xas>, xs: seq<Xas>)
    ensures forall k :: k in instance && k !in NamesOf(xs) ==>
      k in RegisterAll(instance, xs) && RegisterAll(instance, xs)[k] == instance[k]
  {
    if xs != [] {
      RegisterAllOthers(instance, xs[..|xs| - 1]);
      NamesOfSnoc(xs);
    }
  }

  /** Registering adds exactly the instances' names; each name then holds an
      instance of that name, and the last instance of that name in `xs`;
      every other entry is left as it was. */
  lemma RegisterAllSpec(instance: map<string, Xas>, xs: seq<Xas>)
    ensures RegisterAll(instance, xs).Keys == instance.Keys + NamesOf(xs)
    ensures forall j :: 0 <= j < |xs| ==> RegisterAll(instance, xs)[xs[j].name].name == xs[j].name
    ensures forall j :: 0 <= j < |xs| && (forall l :: j < l < |xs| ==> xs[l].name != xs[j].name) ==>
      RegisterAll(instance, xs)[xs[j].name] == xs[j]
    ensures forall k :: k in instance && k !in NamesOf(xs) ==> RegisterAll(instance, xs)[k] == instance[k]
  {
    RegisterAllKeys(instance, xs);
    RegisterAllNamed(instance, xs);
    RegisterAllLast(instance, xs);
    RegisterAllOthers(instance, xs);
  }

  /** What the first `|xs|` rounds of `converge` built: clone `clones[j]`
      has the input's structure and the name `{base}_{values[j]}`, and
      `xs[j]` is the instance made for it, of the same name. */
  predicate Fanned(base: string, structure: Structure, values: seq<Value>, clones: seq<Input>, xs: seq<Xas>)
  {
    && |clones| == |xs| <= |values|
    && forall j :: 0 <= j < |xs| ==>
         && xs[j].input == clones[j] && xs[j].name == CloneName(base, values[j])
         && clones[j].name == xs[j].name && clones[j].structure == structure
  }

  lemma FannedSnoc(base: string, structure: Structure, values: seq<Value>, clones: seq<Input>, xs: seq<Xas>, tmp: Input, x: Xas)
    requires Fanned(base, structure, values, clones, xs) && |xs| < |values|
    requires x.input == tmp && x.name == CloneName(base, values[|xs|])
    requires tmp.name == x.name && tmp.structure == structure
    ensures Fanned(base, structure, values, clones + [tmp], xs + [x])
  {
    forall j | 0 <= j < |xs| + 1
      ensures (xs + [x])[j].input == (clones + [tmp])[j]
      ensures (xs + [x])[j].name == CloneName(base, values[j]) && (clones + [tmp])[j].name == (xs + [x])[j].name
      ensures (clones + [tmp])[j].structure == structure
    {
      if j < |xs| {
        assert (xs + [x])[j] == xs[j] && (clones + [tmp])[j] == clones[j];
      }
    }
  }

  /** Every clone holds the given content. */
  predicate Share(clones: seq<Input>, content: Content) {
    forall j :: 0 <= j < |clones| ==> clones[j].content == content
  }

  /** The contents of the inputs. */
  function Contents(inputs: seq<Input>): set<Content> {
    set j | 0 <= j < |inputs| :: inputs[j].content
  }

  lemma ContentsSnoc(inputs: seq<Input>, tmp: Input)
    ensures Contents(inputs + [tmp]) == Contents(inputs) + {tmp.content}
  {
    var c := inputs + [tmp];
    forall j | 0 <= j < |inputs| ensures c[j] == inputs[j] {}
    assert c[|inputs|] == tmp;
  }

  /** Clone `j` has a content of its own, other than `shared`, holding
      `data` with `values[j]` under `key`. */
  predicate OwnCopies(clones: seq<Input>, shared: Content, data: map<string, Value>, key: string, values: seq<Value>)
    reads Contents(clones)
  {
    && |clones| <= |values|
    && (forall j, l :: 0 <= j < l < |clones| ==> clones[j].content != clones[l].content)
    && forall j :: 0 <= j < |clones| ==>
         clones[j].content != shared && clones[j].content.input == CloneParams(data, key, values[j])
  }

  lemma OwnCopiesSnoc(clones: seq<Input>, shared: Content, data: map<string, Value>, key: string, values: seq<Value>, tmp: Input)
    requires OwnCopies(clones, shared, data, key, values) && |clones| < |values|
    requires tmp.content !in Contents(clones) && tmp.content != shared
    requires tmp.content.input == CloneParams(data, key, values[|clones|])
    ensures OwnCopies(clones + [tmp], shared, data, key, values)
  {
    var c := clones + [tmp];
    forall j | 0 <= j < |c|
      ensures c[j].content != shared && c[j].content.input == CloneParams(data, key, values[j])
    {
      if j < |clones| {
        assert c[j] == clones[j];
      }
    }
    forall j, l | 0 <= j < l < |c|
      ensures c[j].content != c[l].content
    {
      assert c[j] == clones[j];
      if l == |clones| {
        assert clones[j].content in Contents(clones);
      } else {
        assert c[l] == clones[l];
      }
    }
  }

  /** One clone as `converge` makes it: `copy.copy(input)`, renamed to
      `{name}_{value}`, with `value` written under `key` into the content it
      shares with `input`. */
  method ShallowClone(input: Input, key: string, v: Value) returns (tmp: Input)
    modifies input.content
    ensures fresh(tmp) && tmp.name == CloneName(input.name, v)
    ensures tmp.structure == input.structure && tmp.content == input.content
    ensures input.content.input == old(input.content.input)[key := v]
  {
    tmp := new Input.ShallowCopy(input, CloneName(input.name, v));
    tmp.content.input := tmp.content.input[key := v];
  }

  /** One clone with a content of its own (`copy.deepcopy(input)`), made
      for the next value: its parameters are `input`'s with that value under
      `key`, its content is new, and `input` is left as it was. */
  method DeepClone(input: Input, key: string, values: seq<Value>, clones: seq<Input>) returns (tmp: Input)
    requires OwnCopies(clones, input.content, input.content.input, key, values) && |clones| < |values|
    ensures fresh(tmp) && fresh(tmp.content)
    ensures tmp.name == CloneName(input.name, values[|clones|]) && tmp.structure == input.structure
    ensures OwnCopies(clones + [tmp], input.content, input.content.input, key, values)
  {
    tmp := new Input.DeepCopy(input, CloneName(input.name, values[|clones|]));
    tmp.content.input := tmp.content.input[key := values[|clones|]];
    OwnCopiesSnoc(clones, input.content, input.content.input, key, values, tmp);
  }

  class OceanWrapper {
    const root: string
    const workflow: Graph
    const serverRoot: Option<string>           // the server's root, when there is one
    var structure: Option<Structure>           // the structure of the last added input
    var instance: map<string, Xas>
    var convDict: map<string, seq<Input>>      // conv_dict[name]['inputs']

    /** The working root is `root`, or the current directory when `root`
        is empty; the graph, the registry and the convergence table start
        empty. */
    constructor (root: string, cwd: string, serverRoot: Option<string>)
      ensures this.root == if root == "" then cwd else root
      ensures this.serverRoot == serverRoot
      ensures fresh(workflow) && workflow.nodes == map[] && workflow.edges == {}
      ensures structure == None && instance == map[] && convDict == map[]
    {
      this.root := if root == "" then cwd else root;
      this.serverRoot := serverRoot;
      workflow := new Graph();
      structure := None;
      instance := map[];
      convDict := map[];
    }

    /** `add_xas`: a new instance for `input`, wired into the shared graph
        and registered under the input's name (replacing any instance of
        that name). */
    method AddXas(input: Input) returns (x: Xas)
      modifies workflow, this`structure, this`instance
      ensures fresh(x) && x.input == input && x.name == input.name && x.workflow == workflow
      ensures x.structure == input.structure && x.element == input.content.element && x.edge == input.content.edge
      ensures x.localDir == root + "/" + input.structure.name + "/" + input.name
      ensures x.remoteDir == if serverRoot.Some? then Some(serverRoot.value + "/" + "/" + input.structure.name + "/" + input.name) else None
      ensures x.jobId == None && x.progress == map[] && x.y == Scalar(0) && x.commands == [] && x.saves == 0
      ensures structure == Some(input.structure)
      ensures instance == old(instance)[input.name := x]
      ensures x.listIds == SiteIds(CountOf(input.structure.symbols, input.content.element))
      ensures x.stagesStates == InitialStates && x.Valid()
      ensures workflow.nodes.Keys == old(workflow.nodes).Keys + {input.structure.name} + ChainNodes(input.name)
                                     + SiteNodes(x.Names(), x.listIds)
      ensures Extends(old(workflow.nodes), workflow.nodes, input.structure.name, input.name)
      ensures workflow.edges == old(workflow.edges) + {(input.structure.name, input.name)} + ChainEdges(input.name)
                                + SiteEdges(ResultsNode(input.name), x.Names(), x.listIds)
    {
      structure := Some(input.structure);
      x := new Xas(root, workflow, serverRoot, input);
      SiteIdsAt(x.listIds, CountOf(input.structure.symbols, input.content.element));
      instance := instance[input.name := x];
    }

    /** The end of one round of `converge`: the clone is appended to the
        input's entry of the convergence table and registered as an
        instance. */
    method Record(base: string, clones: seq<Input>, tmp: Input) returns (x: Xas)
      modifies workflow, this`structure, this`instance, this`convDict
      ensures fresh(x) && x.input == tmp && x.name == tmp.name
      ensures convDict == old(convDict)[base := clones + [tmp]]
      ensures instance == old(instance)[tmp.name := x]
    {
      convDict := convDict[base := clones + [tmp]];
      x := AddXas(tmp);
    }

    /** `Record` within the loop of `converge`: clone `i` joins the fan-out
        and the registry as instance `i`. */
    method RecordRound(base: string, structure: Structure, values: seq<Value>, clones: seq<Input>, xs: seq<Xas>, tmp: Input,
                       ghost before: map<string, Xas>, ghost table: map<string, seq<Input>>) returns (x: Xas)
      requires Fanned(base, structure, values, clones, xs) && |xs| < |values|
      requires tmp.name == CloneName(base, values[|xs|]) && tmp.structure == structure
      requires instance == RegisterAll(before, xs) && convDict == table[base := clones]
      modifies workflow, this`structure, this`instance, this`convDict
      ensures Fanned(base, structure, values, clones + [tmp], xs + [x])
      ensures instance == RegisterAll(before, xs + [x]) && convDict == table[base := clones + [tmp]]
    {
      x := Record(base, clones, tmp);
      FannedSnoc(base, structure, values, clones, xs, tmp, x);
      RegisterAllSnoc(before, xs, x);
    }

    /** One round of `ConvergeAsWritten`: a shallow clone for the next
        value, recorded and registered. */
    method AddShared(input: Input, key: string, values: seq<Value>, clones: seq<Input>, xs: seq<Xas>,
                     ghost before: map<string, Xas>, ghost table: map<string, seq<Input>>) returns (tmp: Input, x: Xas)
      requires Fanned(input.name, input.structure, values, clones, xs) && Share(clones, input.content) && |xs| < |values|
      requires instance == RegisterAll(before, xs) && convDict == table[input.name := clones]
      modifies workflow, this`structure, this`instance, this`convDict, input.content
      ensures fresh(tmp)
      ensures Fanned(input.name, input.structure, values, clones + [tmp], xs + [x]) && Share(clones + [tmp], input.content)
      ensures input.content.input == old(input.content.input)[key := values[|xs|]]
      ensures instance == RegisterAll(before, xs + [x]) && convDict == table[input.name := clones + [tmp]]
    {
      tmp := ShallowClone(input, key, values[|xs|]);
      x := RecordRound(input.name, input.structure, values, clones, xs, tmp, before, table);
    }

    /** `converge` as written: `values` fanned out into clones made by
        `ShallowClone`, each recorded under the input's name in the
        convergence table and registered as an instance (`xs[i]` for
        `clones[i]`). Every clone, and `input` itself, ends up reading the
        parameters of the last write. */
    method ConvergeAsWritten(input: Input, key: string, values: seq<Value>) returns (clones: seq<Input>, xs: seq<Xas>)
      modifies workflow, this`structure, this`instance, this`convDict, input.content
      ensures |clones| == |xs| == |values|
      ensures convDict == old(convDict)[input.name := clones]
      ensures Fanned(input.name, input.structure, values, clones, xs) && Share(clones, input.content)
      ensures input.content.input == SharedAfter(old(input.content.input), key, values)
      ensures instance == RegisterAll(old(instance), xs)
    {
      convDict := convDict[input.name := []];
      clones, xs := [], [];
      var base := input.name;
      ghost var data := input.content.input;
      for i := 0 to |values|
        invariant |clones| == i
        invariant convDict == old(convDict)[base := clones]
        invariant Fanned(base, input.structure, values, clones, xs) && Share(clones, input.content)
        invariant input.content.input == SharedAfter(data, key, values[..i])
        invariant instance == RegisterAll(old(instance), xs)
      {
        assert values[..i + 1][..i] == values[..i];
        var tmp, x := AddShared(input, key, values, clones, xs, old(instance), old(convDict));
        clones, xs := clones + [tmp], xs + [x];
      }
      assert values[..|values|] == values;
    }

    /** One round of `Converge`: a deep clone for the next value, recorded
        and registered. */
    method AddCopy(input: Input, key: string, values: seq<Value>, clones: seq<Input>, xs: seq<Xas>,
                   ghost before: map<string, Xas>, ghost table: map<string, seq<Input>>) returns (tmp: Input, x: Xas)
      requires Fanned(input.name, input.structure, values, clones, xs) && |xs| < |values|
      requires OwnCopies(clones, input.content, input.content.input, key, values)
      requires instance == RegisterAll(before, xs) && convDict == table[input.name := clones]
      modifies workflow, this`structure, this`instance, this`convDict
      ensures fresh(tmp) && fresh(tmp.content)
      ensures Fanned(input.name, input.structure, values, clones + [tmp], xs + [x])
      ensures OwnCopies(clones + [tmp], input.content, input.content.input, key, values)
      ensures instance == RegisterAll(before, xs + [x]) && convDict == table[input.name := clones + [tmp]]
    {
      tmp := DeepClone(input, key, values, clones);
      label cloned:
      x := RecordRound(input.name, input.structure, values, clones, xs, tmp, before, table);
      assert unchanged@cloned(Contents(clones + [tmp]));
    }

    /** `converge` with a copy of the content per clone (`DeepClone`): clone
        `i` runs with the input's parameters and `values[i]` under `key`, no
        two clones share a content, and `input` keeps its parameters. */
    method Converge(input: Input, key: string, values: seq<Value>) returns (clones: seq<Input>, xs: seq<Xas>)
      modifies workflow, this`structure, this`instance, this`convDict
      ensures |clones| == |xs| == |values|
      ensures convDict == old(convDict)[input.name := clones]
      ensures fresh(Contents(clones))
      ensures Fanned(input.name, input.structure, values, clones, xs)
      ensures OwnCopies(clones, input.content, input.content.input, key, values)
      ensures input.content.input == old(input.content.input)
      ensures instance == RegisterAll(old(instance), xs)
    {
      convDict := convDict[input.name := []];
      clones, xs := [], [];
      var base := input.name;
      ghost var data := input.content.input;
      for i := 0 to |values|
        invariant |clones| == i
        invariant convDict == old(convDict)[base := clones]
        invariant fresh(Contents(clones))
        invariant Fanned(base, input.structure, values, clones, xs)
        invariant OwnCopies(clones, input.content, data, key, values)
        invariant instance == RegisterAll(old(instance), xs)
      {
        var tmp, x := AddCopy(input, key, values, clones, xs, old(instance), old(convDict));
        ContentsSnoc(clones, tmp);
        clones, xs := clones + [tmp], xs + [x];
      }
    }
  }
}
