/**
  Milestone progress of a running calculation: each recognised log substring
  raises one key of the progress dictionary to a fixed percentage, and the
  displayed progress is the largest value in the dictionary.
*/
module Progress {

  import opened Text
  import opened Stages

  datatype Milestone = Milestone(marker: string, key: string, value: int)

  /** The milestones scanned for on every line, in the order they are tested. */
  const Milestones: seq<Milestone> := [
    Milestone("Welcome to OCEAN", "initial", 1),
    Milestone("Entering OPF stage", "opf", 10),
    Milestone("Entering DFT stage", "dft", 30),
    Milestone("SCF stage complete", "scf", 40),
    Milestone("Entering PREP stage", "prep", 50),
    Milestone("Entering SCREENing stage", "screen", 60),
    Milestone("Entering CNBSE stage", "cnbse", 80),
    Milestone("Ocean is done", "ocean", 100)
  ]

  /** Every key a progress dictionary can hold. */
  const Keys: seq<string> := ["initial", "opf", "dft", "scf", "prep", "screen", "cnbse", "ocean"]

  /** The dictionary a monitor starts from; `scf` is absent until seen. */
  const InitialProgress: map<string, int> :=
    map["initial" := 0, "opf" := 0, "dft" := 0, "prep" := 0, "screen" := 0, "cnbse" := 0, "ocean" := 0]

  /** The marker whose presence ends the polling loop. */
  const DoneMarker: string := "Ocean is done"

  /** The constant a key is raised to. */
  function Target(key: string): int {
    if key == "initial" then 1
    else if key == "opf" then 10
    else if key == "dft" then 30
    else if key == "scf" then 40
    else if key == "prep" then 50
    else if key == "screen" then 60
    else if key == "cnbse" then 80
    else if key == "ocean" then 100
    else 0
  }

  /** The keys whose marker occurs in some line of the log. */
  function Hit(log: seq<string>): set<string> {
    set j | 0 <= j < |Milestones| && Found(log, Milestones[j].marker) :: Milestones[j].key
  }

  /** The dictionary after scanning `log`: each hit key holds its constant,
      every other key keeps its value. */
  function Raise(p: map<string, int>, log: seq<string>): map<string, int> {
    map k | k in p.Keys + Hit(log) :: if k in Hit(log) then Target(k) else p[k]
  }

  /** A progress dictionary holds known keys, each at 0 or at its constant. */
  predicate WellFormed(p: map<string, int>) {
    forall k :: k in p ==> k in Keys && (p[k] == 0 || p[k] == Target(k))
  }

  lemma InitialWellFormed()
    ensures WellFormed(InitialProgress) && "ocean" in InitialProgress
    ensures InitialProgress["ocean"] != 100
  {
  }

  function Max(a: int, b: int): int {
    if a < b then b else a
  }

  /** The largest value among `keys` in `p`, counting absent keys as 0. */
  function MaxOver(p: map<string, int>, keys: seq<string>): int {
    if keys == [] then 0
    else
      var k := keys[|keys| - 1];
      Max(MaxOver(p, keys[..|keys| - 1]), if k in p then p[k] else 0)
  }

  /** `max(progress.values())`. */
  function MaxProgress(p: map<string, int>): int {
    MaxOver(p, Keys)
  }

  lemma {:induction false} MaxOverBounds(p: map<string, int>, keys: seq<string>)
    ensures forall k :: k in keys && k in p ==> p[k] <= MaxOver(p, keys)
    ensures MaxOver(p, keys) == 0 || exists k :: k in keys && k in p && p[k] == MaxOver(p, keys)
  {
    if keys != [] {
      var init := keys[..|keys| - 1];
      MaxOverBounds(p, init);
      assert keys == init + [keys[|keys| - 1]];
      assert forall k :: k in keys <==> k in init || k == keys[|keys| - 1];
    }
  }

  /** For a well-formed, non-empty dictionary, MaxProgress is Python's
      `max(progress.values())`: it bounds every value and is one of them. */
  lemma MaxProgressIsMax(p: map<string, int>)
    requires WellFormed(p) && |p| > 0
    ensures forall k :: k in p ==> p[k] <= MaxProgress(p)
    ensures exists k :: k in p && p[k] == MaxProgress(p)
  {
    MaxOverBounds(p, Keys);
    if MaxProgress(p) == 0 {
      var k :| k in p;
      assert p[k] >= 0;
    }
  }

  lemma {:induction false} MaxOverMonotone(p: map<string, int>, q: map<string, int>, keys: seq<string>)
    requires forall k :: k in p ==> k in q && p[k] <= q[k]
    requires forall k :: k in q ==> q[k] >= 0
    ensures MaxOver(p, keys) <= MaxOver(q, keys)
  {
    if keys != [] {
      MaxOverMonotone(p, q, keys[..|keys| - 1]);
    }
  }

  lemma HitKnown(log: seq<string>)
    ensures forall k :: k in Hit(log) ==> k in Keys && Target(k) > 0
  {
  }

  /** Scanning never lowers a value and keeps the dictionary well formed. */
  lemma RaiseNeverLowers(p: map<string, int>, log: seq<string>)
    requires WellFormed(p)
    ensures WellFormed(Raise(p, log))
    ensures forall k :: k in p ==> k in Raise(p, log) && p[k] <= Raise(p, log)[k]
  {
    HitKnown(log);
  }

  /** The displayed progress never decreases from one scan to the next, even
      when the later log shows fewer milestones than an earlier one. */
  lemma ProgressNeverDecreases(p: map<string, int>, log: seq<string>)
    requires WellFormed(p)
    ensures MaxProgress(p) <= MaxProgress(Raise(p, log))
  {
    RaiseNeverLowers(p, log);
    MaxOverMonotone(p, Raise(p, log), Keys);
  }

  /** `ocean` reaches 100 exactly when some line says the run is done (or it
      had reached 100 before). */
  lemma OceanDone(p: map<string, int>, log: seq<string>)
    ensures "ocean" in Raise(p, log) || "ocean" !in p
    ensures ("ocean" in Raise(p, log) && Raise(p, log)["ocean"] == 100)
        <==> Found(log, DoneMarker) || ("ocean" in p && p["ocean"] == 100)
  {
    assert Milestones[7].key == "ocean";
    if "ocean" in Hit(log) {
      var j :| 0 <= j < |Milestones| && Found(log, Milestones[j].marker) && Milestones[j].key == "ocean";
      assert j == 7;
    }
  }

  lemma FoundConcat(a: seq<string>, b: seq<string>, m: string)
    ensures Found(a + b, m) <==> Found(a, m) || Found(b, m)
  {
    if Found(a + b, m) {
      var i :| 0 <= i < |a + b| && Contains((a + b)[i], m);
      if i >= |a| {
        assert b[i - |a|] == (a + b)[i];
      }
    }
    if Found(a, m) {
      var i :| 0 <= i < |a| && Contains(a[i], m);
      assert (a + b)[i] == a[i];
    }
    if Found(b, m) {
      var i :| 0 <= i < |b| && Contains(b[i], m);
      assert (a + b)[|a| + i] == b[i];
    }
  }

  /** The keys hit by two pieces are those hit by either. */
  lemma HitConcat(a: seq<string>, b: seq<string>)
    ensures Hit(a + b) == Hit(a) + Hit(b)
  {
    forall k
      ensures k in Hit(a + b) <==> k in Hit(a) || k in Hit(b)
    {
      if k in Hit(a + b) {
        var j :| 0 <= j < |Milestones| && Found(a + b, Milestones[j].marker) && Milestones[j].key == k;
        FoundConcat(a, b, Milestones[j].marker);
      }
      if k in Hit(a) {
        var j :| 0 <= j < |Milestones| && Found(a, Milestones[j].marker) && Milestones[j].key == k;
        FoundConcat(a, b, Milestones[j].marker);
      }
      if k in Hit(b) {
        var j :| 0 <= j < |Milestones| && Found(b, Milestones[j].marker) && Milestones[j].key == k;
        FoundConcat(a, b, Milestones[j].marker);
      }
    }
  }

  /** Scanning two pieces one after the other is scanning them together. */
  lemma RaiseConcat(p: map<string, int>, a: seq<string>, b: seq<string>)
    ensures Raise(Raise(p, a), b) == Raise(p, a + b)
  {
    HitConcat(a, b);
    var once, twice := Raise(p, a + b), Raise(Raise(p, a), b);
    assert twice.Keys == once.Keys;
    forall k | k in once
      ensures twice[k] == once[k]
    {
    }
  }

  /** On a one-line log, a key is hit iff the line contains its marker. */
  lemma HitLine(line: string)
    ensures forall j :: 0 <= j < |Milestones| ==>
      (Found([line], Milestones[j].marker) <==> Contains(line, Milestones[j].marker))
  {
    forall j | 0 <= j < |Milestones|
      ensures Found([line], Milestones[j].marker) <==> Contains(line, Milestones[j].marker)
    {
      if Contains(line, Milestones[j].marker) {
        assert [line][0] == line;
      }
    }
  }

  /** The keys of the first `j` milestones whose marker is in `line`. */
  function HitIn(line: string, j: nat): set<string>
    requires j <= |Milestones|
  {
    set i | 0 <= i < j && Contains(line, Milestones[i].marker) :: Milestones[i].key
  }

  /** The keys in `hits` raised to their constants, every other key kept. */
  function RaiseKeys(p: map<string, int>, hits: set<string>): map<string, int> {
    map k | k in p.Keys + hits :: if k in hits then Target(k) else p[k]
  }

  lemma HitInStep(line: string, j: nat)
    requires j < |Milestones|
    ensures HitIn(line, j + 1) == HitIn(line, j) + (if Contains(line, Milestones[j].marker) then {Milestones[j].key} else {})
  {
  }

  /** Each milestone's value is the constant of its key. */
  lemma MilestoneTarget(j: nat)
    requires j < |Milestones|
    ensures Target(Milestones[j].key) == Milestones[j].value
  {
  }

  lemma RaiseKeysAdd(p: map<string, int>, hits: set<string>, k: string)
    ensures RaiseKeys(p, hits + {k}) == RaiseKeys(p, hits)[k := Target(k)]
  {
  }

  /** Testing one more milestone on a line sets its key to its value iff
      the line contains its marker. */
  lemma RaiseKeysStep(p: map<string, int>, line: string, j: nat)
    requires j < |Milestones|
    ensures RaiseKeys(p, HitIn(line, j + 1)) ==
      if Contains(line, Milestones[j].marker) then RaiseKeys(p, HitIn(line, j))[Milestones[j].key := Milestones[j].value]
      else RaiseKeys(p, HitIn(line, j))
  {
    HitInStep(line, j);
    if Contains(line, Milestones[j].marker) {
      MilestoneTarget(j);
      RaiseKeysAdd(p, HitIn(line, j), Milestones[j].key);
    }
  }

  /** Scanning one line raises the keys whose marker the line contains. */
  lemma RaiseLine(p: map<string, int>, line: string)
    ensures Raise(p, [line]) == RaiseKeys(p, HitIn(line, |Milestones|))
  {
    HitLine(line);
    assert Hit([line]) == HitIn(line, |Milestones|);
  }

  /** The lines of successive snapshots of the log, one after the other. */
  function Flatten(snaps: seq<seq<string>>): seq<string> {
    if snaps == [] then [] else Flatten(snaps[..|snaps| - 1]) + snaps[|snaps| - 1]
  }

  /** A marker is in the flattened snapshots iff it is in one of them. */
  lemma {:induction false} FoundFlatten(snaps: seq<seq<string>>, m: string)
    ensures Found(Flatten(snaps), m) <==> exists t :: 0 <= t < |snaps| && Found(snaps[t], m)
  {
    if snaps != [] {
      var init := snaps[..|snaps| - 1];
      FoundFlatten(init, m);
      FoundConcat(Flatten(init), snaps[|snaps| - 1], m);
      assert forall t :: 0 <= t < |init| ==> init[t] == snaps[t];
    }
  }

  /** Scanning an empty log changes nothing. */
  lemma RaiseEmpty(p: map<string, int>)
    ensures Raise(p, []) == p
  {
    assert Hit([]) == {};
  }

  /** The dictionary after the first `t` polls of the snapshots. */
  function Polled(snaps: seq<seq<string>>, t: nat): map<string, int>
    requires t <= |snaps|
  {
    Raise(InitialProgress, Flatten(snaps[..t]))
  }

  /** Before any poll the dictionary is the initial one. */
  lemma PolledNone(snaps: seq<seq<string>>)
    ensures Polled(snaps, 0) == InitialProgress
  {
    assert snaps[..0] == [];
    RaiseEmpty(InitialProgress);
  }

  /** After `t` polls the dictionary is well formed, holds `ocean`, and
      `ocean` is at 100 iff one of the polled snapshots says the run is done. */
  lemma PolledState(snaps: seq<seq<string>>, t: nat)
    requires t <= |snaps|
    ensures WellFormed(Polled(snaps, t)) && "ocean" in Polled(snaps, t)
    ensures Polled(snaps, t)["ocean"] == 100 <==> exists u :: 0 <= u < t && Found(snaps[u], DoneMarker)
  {
    InitialWellFormed();
    RaiseNeverLowers(InitialProgress, Flatten(snaps[..t]));
    OceanDone(InitialProgress, Flatten(snaps[..t]));
    FoundFlatten(snaps[..t], DoneMarker);
    assert forall u :: 0 <= u < t ==> snaps[..t][u] == snaps[u];
  }

  /** One more poll scans one more snapshot, and the shown progress does
      not decrease. */
  lemma PolledStep(snaps: seq<seq<string>>, t: nat)
    requires t < |snaps|
    ensures Polled(snaps, t + 1) == Raise(Polled(snaps, t), snaps[t])
    ensures MaxProgress(Polled(snaps, t)) <= MaxProgress(Polled(snaps, t + 1))
  {
    assert snaps[..t + 1][..t] == snaps[..t];
    RaiseConcat(InitialProgress, Flatten(snaps[..t]), snaps[t]);
    PolledState(snaps, t);
    ProgressNeverDecreases(Polled(snaps, t), snaps[t]);
  }

  /** A value no smaller than the last keeps a non-decreasing sequence
      non-decreasing. */
  lemma AppendMonotone(s: seq<int>, x: int)
    requires forall t, u :: 0 <= t <= u < |s| ==> s[t] <= s[u]
    requires s != [] ==> s[|s| - 1] <= x
    ensures forall t, u :: 0 <= t <= u < |s + [x]| ==> (s + [x])[t] <= (s + [x])[u]
  {
  }

  /** The progress shown after each of the first `t` polls. */
  function Shown(snaps: seq<seq<string>>, t: nat): (r: seq<int>)
    requires t <= |snaps|
    ensures |r| == t
  {
    if t == 0 then [] else Shown(snaps, t - 1) + [MaxProgress(Polled(snaps, t))]
  }

  /** The number of polls made from poll `t` on: polling goes on until a
      snapshot says the run is done or the snapshots run out. */
  function PollsFrom(snaps: seq<seq<string>>, t: nat): (r: nat)
    requires t <= |snaps|
    decreases |snaps| - t
    ensures t <= r <= |snaps|
  {
    if t == |snaps| then t
    else if Found(snaps[t], DoneMarker) then t + 1
    else PollsFrom(snaps, t + 1)
  }

  /** The number of polls `_remote_monitor` makes over `snaps`. */
  function Polls(snaps: seq<seq<string>>): nat {
    PollsFrom(snaps, 0)
  }

  /** Polls from `t` on stop right after the first snapshot from `t` on that
      says the run is done, or at the end. */
  lemma {:induction false} PollsFromStops(snaps: seq<seq<string>>, t: nat)
    requires t <= |snaps|
    decreases |snaps| - t
    ensures forall u :: t <= u < PollsFrom(snaps, t) - 1 ==> !Found(snaps[u], DoneMarker)
    ensures PollsFrom(snaps, t) < |snaps| ==> PollsFrom(snaps, t) > t && Found(snaps[PollsFrom(snaps, t) - 1], DoneMarker)
  {
    if t < |snaps| && !Found(snaps[t], DoneMarker) {
      PollsFromStops(snaps, t + 1);
    }
  }

  /** `_remote_monitor` polls until the first snapshot that says the run is
      done, and polls every snapshot when none does; after the polls `ocean`
      is at 100 iff a polled snapshot says the run is done. */
  lemma PollsStop(snaps: seq<seq<string>>)
    ensures Polls(snaps) <= |snaps|
    ensures forall t :: 0 <= t < Polls(snaps) - 1 ==> !Found(snaps[t], DoneMarker)
    ensures Polls(snaps) < |snaps| ==> Polls(snaps) > 0 && Found(snaps[Polls(snaps) - 1], DoneMarker)
    ensures (exists t :: 0 <= t < |snaps| && Found(snaps[t], DoneMarker)) ==>
              Polls(snaps) > 0 && Found(snaps[Polls(snaps) - 1], DoneMarker)
    ensures "ocean" in Polled(snaps, Polls(snaps))
    ensures Polled(snaps, Polls(snaps))["ocean"] == 100 <==> exists t :: 0 <= t < Polls(snaps) && Found(snaps[t], DoneMarker)
  {
    PollsFromStops(snaps, 0);
    PolledState(snaps, Polls(snaps));
    if exists t :: 0 <= t < |snaps| && Found(snaps[t], DoneMarker) {
      var t :| 0 <= t < |snaps| && Found(snaps[t], DoneMarker);
      if Polls(snaps) == |snaps| {
        assert t <= Polls(snaps) - 1;
      }
    }
  }

  /** One poll more than the polls made before a done snapshot. */
  lemma PollsFromStep(snaps: seq<seq<string>>, t: nat)
    requires t < |snaps|
    ensures PollsFrom(snaps, t) == if Found(snaps[t], DoneMarker) then t + 1 else PollsFrom(snaps, t + 1)
  {
  }

  /** The shown progress after poll `k` is the largest value after `k + 1`
      polls, and it never decreases from one poll to the next. */
  lemma {:induction false} ShownMonotone(snaps: seq<seq<string>>, t: nat)
    requires t <= |snaps|
    ensures forall k :: 0 <= k < t ==> Shown(snaps, t)[k] == MaxProgress(Polled(snaps, k + 1))
    ensures forall k, l :: 0 <= k <= l < t ==> Shown(snaps, t)[k] <= Shown(snaps, t)[l]
  {
    if t > 0 {
      ShownMonotone(snaps, t - 1);
      if t > 1 {
        PolledStep(snaps, t - 1);
      }
      AppendMonotone(Shown(snaps, t - 1), MaxProgress(Polled(snaps, t)));
    }
  }
}
