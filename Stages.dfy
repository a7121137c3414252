/**
  The six stages of an OCEAN calculation, each declared by the marker
  substrings its log output must contain, and the inference of which stages
  are complete from the lines of the log.
*/
module Stages {

  import opened Text

  datatype Stage = Stage(name: string, markers: seq<string>)

  /** The declared pipeline, in order. Markers overlap: "Entering DFT stage"
      ends `opf` and starts `dft`, "Entering SCREENing stage" ends `prep`
      and starts `screen`. */
  const Pipeline: seq<Stage> := [
    Stage("parsing", ["Storing parsed data", "Finished running extractPsp", "Done with parsing"]),
    Stage("opf", ["Entering OPF stage", "Entering DFT stage"]),
    Stage("dft", ["Entering DFT stage", "DFT for BSE final states complete", "DFT section is complete"]),
    Stage("prep", ["Entering PREP stage", "Entering SCREENing stage"]),
    Stage("screen", ["Entering SCREENing stage", "Time offset:"]),
    Stage("cnbse", ["CNBSE stage", "Ocean is done"])
  ]

  /** The stage flags of a new instance: every stage at 0. */
  const InitialStates: map<string, int> :=
    map["parsing" := 0, "opf" := 0, "dft" := 0, "prep" := 0, "screen" := 0, "cnbse" := 0]

  /** The names of the declared stages. */
  function StageNames(): set<string> {
    set j | 0 <= j < |Pipeline| :: Pipeline[j].name
  }

  lemma InitialStatesCoverStages()
    ensures InitialStates.Keys == StageNames()
  {
    assert Pipeline[0].name == "parsing" && Pipeline[1].name == "opf" && Pipeline[2].name == "dft";
    assert Pipeline[3].name == "prep" && Pipeline[4].name == "screen" && Pipeline[5].name == "cnbse";
  }

  /** Some line of the log contains `find`. */
  predicate Found(log: seq<string>, find: string) {
    exists i :: 0 <= i < |log| && Contains(log[i], find)
  }

  /** `_progress_info(file, find)`: scans the lines in order and reports
      whether one of them contains `find`. */
  method ProgressInfo(log: seq<string>, find: string) returns (found: bool)
    ensures found <==> Found(log, find)
  {
    var i := 0;
    while i < |log|
      invariant 0 <= i <= |log|
      invariant forall j :: 0 <= j < i ==> !Contains(log[j], find)
    {
      if Contains(log[i], find) {
        return true;
      }
      i := i + 1;
    }
    return false;
  }

  /** A stage is complete when every one of its markers occurs in some
      line, wherever and in whatever order. */
  predicate StageDone(log: seq<string>, st: Stage) {
    forall m :: m in st.markers ==> Found(log, m)
  }

  /** How many of `markers` occur in the log (the `count` of `get_state`). */
  function CountFound(log: seq<string>, markers: seq<string>): nat {
    if markers == [] then 0
    else CountFound(log, markers[..|markers| - 1]) + (if Found(log, markers[|markers| - 1]) then 1 else 0)
  }

  /** The count reaches the number of markers exactly when all are found. */
  lemma {:induction false} CountFoundAll(log: seq<string>, markers: seq<string>)
    ensures CountFound(log, markers) <= |markers|
    ensures CountFound(log, markers) == |markers| <==> forall m :: m in markers ==> Found(log, m)
  {
    if markers != [] {
      var init := markers[..|markers| - 1];
      CountFoundAll(log, init);
      assert markers == init + [markers[|markers| - 1]];
      assert forall m :: m in markers <==> m in init || m == markers[|markers| - 1];
    }
  }

  /** The names of the stages among the first `n` that the log shows complete. */
  function DoneAmong(log: seq<string>, n: nat): set<string>
    requires n <= |Pipeline|
  {
    set j | 0 <= j < n && StageDone(log, Pipeline[j]) :: Pipeline[j].name
  }

  /** One more stage considered adds its name iff it is complete. */
  lemma DoneAmongStep(log: seq<string>, j: nat)
    requires j < |Pipeline|
    ensures DoneAmong(log, j + 1) == DoneAmong(log, j) + (if StageDone(log, Pipeline[j]) then {Pipeline[j].name} else {})
  {
  }

  /** Considering more stages never loses a complete one, and every name
      found is a declared stage's. */
  lemma DoneAmongMono(log: seq<string>, a: nat, b: nat)
    requires a <= b <= |Pipeline|
    ensures DoneAmong(log, a) <= DoneAmong(log, b) <= StageNames()
  {
  }

  /** The names of the stages the log shows complete. */
  function DoneStages(log: seq<string>): set<string> {
    DoneAmong(log, |Pipeline|)
  }

  /** A stage's name is among the done stages iff that stage is complete
      (stage names are distinct). */
  lemma DoneStagesIff(log: seq<string>, j: int)
    requires 0 <= j < |Pipeline|
    ensures Pipeline[j].name in DoneStages(log) <==> StageDone(log, Pipeline[j])
  {
    if Pipeline[j].name in DoneStages(log) {
      var i :| 0 <= i < |Pipeline| && StageDone(log, Pipeline[i]) && Pipeline[i].name == Pipeline[j].name;
      assert i == j;
    }
  }

  /** The stage flags after one inference pass: each complete stage is
      latched to 1, every other flag keeps its previous value. */
  function Latch(states: map<string, int>, log: seq<string>): map<string, int> {
    LatchSet(states, DoneStages(log))
  }

  /** Flags of `done` set to 1, all others kept. */
  function LatchSet(states: map<string, int>, done: set<string>): map<string, int> {
    map k | k in states.Keys + done :: if k in done then 1 else states[k]
  }

  /** Latching one more stage is one more map update. */
  lemma LatchSetAdd(states: map<string, int>, done: set<string>, k: string)
    ensures LatchSet(states, done + {k}) == LatchSet(states, done)[k := 1]
  {
  }

  /** One more stage considered latches it iff it is complete. */
  lemma LatchStep(states: map<string, int>, log: seq<string>, j: nat)
    requires j < |Pipeline|
    ensures LatchSet(states, DoneAmong(log, j + 1)) ==
      if StageDone(log, Pipeline[j]) then LatchSet(states, DoneAmong(log, j))[Pipeline[j].name := 1]
      else LatchSet(states, DoneAmong(log, j))
  {
    DoneAmongStep(log, j);
    if StageDone(log, Pipeline[j]) {
      LatchSetAdd(states, DoneAmong(log, j), Pipeline[j].name);
    }
  }

  /** The names of the stages among the first `n` whose flag is set. */
  function FlaggedAmong(states: map<string, int>, n: nat): set<string>
    requires n <= |Pipeline|
  {
    set j | 0 <= j < n && Pipeline[j].name in states && states[Pipeline[j].name] > 0 :: Pipeline[j].name
  }

  lemma FlaggedAmongStep(states: map<string, int>, j: nat)
    requires j < |Pipeline|
    ensures FlaggedAmong(states, j + 1) == FlaggedAmong(states, j)
      + (if Pipeline[j].name in states && states[Pipeline[j].name] > 0 then {Pipeline[j].name} else {})
  {
  }

  /** Over the declared stages, the flagged names are exactly the keys
      whose flag is positive. */
  lemma FlaggedAll(states: map<string, int>)
    requires states.Keys == StageNames()
    ensures FlaggedAmong(states, |Pipeline|) == set k | k in states && states[k] > 0
  {
  }

  /** A stage's flag after inference is 1 iff the log shows it complete or it
      was 1 already; a stage that is not complete keeps its flag. */
  lemma LatchStage(states: map<string, int>, log: seq<string>, j: int)
    requires 0 <= j < |Pipeline| && Pipeline[j].name in states
    ensures Pipeline[j].name in Latch(states, log)
    ensures StageDone(log, Pipeline[j]) ==> Latch(states, log)[Pipeline[j].name] == 1
    ensures !StageDone(log, Pipeline[j]) ==> Latch(states, log)[Pipeline[j].name] == states[Pipeline[j].name]
  {
    DoneStagesIff(log, j);
  }

  /** Flags in {0, 1} are never lowered. */
  lemma LatchNeverLowers(states: map<string, int>, log: seq<string>)
    requires forall k :: k in states ==> 0 <= states[k] <= 1
    ensures states.Keys <= Latch(states, log).Keys
    ensures forall k :: k in states ==> states[k] <= Latch(states, log)[k] <= 1
  {
  }

  /** Inference on an unchanged log changes nothing the second time. */
  lemma LatchIdempotent(states: map<string, int>, log: seq<string>)
    ensures Latch(Latch(states, log), log) == Latch(states, log)
  {
  }

  /** Only which lines occur matters, not their order or repetition. */
  lemma DoneStagesSameLines(log: seq<string>, log': seq<string>)
    requires forall l :: l in log <==> l in log'
    ensures DoneStages(log) == DoneStages(log')
  {
    forall m: string
      ensures Found(log, m) <==> Found(log', m)
    {
      if Found(log, m) {
        var i :| 0 <= i < |log| && Contains(log[i], m);
        assert log[i] in log';
        var i' :| 0 <= i' < |log'| && log'[i'] == log[i];
      }
      if Found(log', m) {
        var i' :| 0 <= i' < |log'| && Contains(log'[i'], m);
        assert log'[i'] in log;
        var i :| 0 <= i < |log| && log[i] == log'[i'];
      }
    }
  }

  /** A log that grows by appended lines never loses a completed stage. */
  lemma DoneStagesGrow(log: seq<string>, more: seq<string>)
    ensures DoneStages(log) <= DoneStages(log + more)
  {
    forall m: string | Found(log, m)
      ensures Found(log + more, m)
    {
      var i :| 0 <= i < |log| && Contains(log[i], m);
      assert (log + more)[i] == log[i];
    }
  }

  /** The overlapping marker: a log that has only reached the DFT stage
      completes `opf` but not `dft`. */
  lemma OverlapOpfBeforeDft()
    ensures "opf" in DoneStages(["Entering OPF stage", "Entering DFT stage"])
    ensures "dft" !in DoneStages(["Entering OPF stage", "Entering DFT stage"])
  {
    var log := ["Entering OPF stage", "Entering DFT stage"];
    OpfDoneAtDft(log);
    DoneStagesIff(log, 1);
    DftPendingAtDft(log);
    DoneStagesIff(log, 2);
  }

  lemma OpfDoneAtDft(log: seq<string>)
    requires log == ["Entering OPF stage", "Entering DFT stage"]
    ensures StageDone(log, Pipeline[1])
  {
    ContainsSelf(log[0]);
    ContainsSelf(log[1]);
    assert Found(log, "Entering OPF stage");
    assert Found(log, "Entering DFT stage");
  }

  lemma DftPendingAtDft(log: seq<string>)
    requires log == ["Entering OPF stage", "Entering DFT stage"]
    ensures !StageDone(log, Pipeline[2])
  {
    var m := "DFT for BSE final states complete";
    assert m in Pipeline[2].markers;
    assert !Contains(log[0], m) && !Contains(log[1], m);
  }
}
