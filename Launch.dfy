/**
  Launching a calculation on the remote host: the commands issued and the
  job identifier read back from the batch scheduler's answer, which is the
  first match of `Submitted batch job (\d+)` in the submission output.
*/
module Launch {

  import opened Wrappers
  import opened Text

  /** What a launch attempt did. */
  datatype LaunchOutcome =
    | Skipped             // results exist and overwrite was not requested
    | Submitted(id: string)  // batch job submitted, identifier read back
    | NoJobId             // batch job submitted, identifier not found
    | Dispatched          // started in the background, no identifier

  const SubmitPrefix: string := "Submitted batch job "

  /** The batch submission run in the remote working directory. */
  function SbatchCommand(remoteDir: string): string {
    "cd " + remoteDir + "; pwd; sbatch job.sh"
  }

  /** The detached background launch run in the remote working directory. */
  function BackgroundCommand(remoteDir: string): string {
    "source ~/miniforge3/bin/activate new ; cd " + remoteDir + "; /home/a.geondzhian/bin/ocean.pl ocean.in > log &"
  }

  /** The greedy `\d+`: the longest prefix of `s` made of digits. */
  function DigitRun(s: string): (r: string)
    ensures |r| <= |s| && r == s[..|r|]
    ensures AllDigits(r)
    ensures |r| < |s| ==> !IsDigit(s[|r|])
    ensures s != [] && IsDigit(s[0]) ==> |r| >= 1
  {
    if s != [] && IsDigit(s[0]) then [s[0]] + DigitRun(s[1..]) else []
  }

  /** The pattern matches at offset `i`: the prefix, then at least one digit. */
  predicate MatchAt(out: string, i: int) {
    0 <= i && i + |SubmitPrefix| < |out|
    && out[i..i + |SubmitPrefix|] == SubmitPrefix
    && IsDigit(out[i + |SubmitPrefix|])
  }

  /** The leftmost match at or after offset `i`. */
  function SearchFrom(out: string, i: nat): (r: Option<string>)
    requires i <= |out|
    decreases |out| - i
    ensures r.None? <==> forall j :: i <= j < |out| ==> !MatchAt(out, j)
    ensures r.Some? ==> (exists j :: i <= j < |out| && MatchAt(out, j)
                                     && (forall l :: i <= l < j ==> !MatchAt(out, l))
                                     && r.value == DigitRun(out[j + |SubmitPrefix|..]))
  {
    if i == |out| then None
    else if MatchAt(out, i) then Some(DigitRun(out[i + |SubmitPrefix|..]))
    else SearchFrom(out, i + 1)
  }

  /** `re.search(r'Submitted batch job (\d+)', output).group(1)`, or None when
      there is no match. A found identifier is a non-empty run of digits that
      follows the leftmost occurrence of the prefix that a digit follows. */
  function ParseJobId(out: string): (r: Option<string>)
    ensures r.None? <==> forall j :: 0 <= j < |out| ==> !MatchAt(out, j)
    ensures r.Some? ==> |r.value| >= 1 && AllDigits(r.value)
    ensures r.Some? ==> (exists j :: 0 <= j < |out| && MatchAt(out, j)
                                     && (forall l :: 0 <= l < j ==> !MatchAt(out, l))
                                     && r.value == DigitRun(out[j + |SubmitPrefix|..]))
  {
    SearchFrom(out, 0)
  }

  /** The announcement round trip: an output that starts with the prefix and
      a digit run yields exactly that run, whatever follows the run. */
  lemma AnnouncementRoundTrip(id: string, tail: string)
    requires |id| >= 1 && AllDigits(id)
    requires tail == [] || !IsDigit(tail[0])
    ensures ParseJobId(SubmitPrefix + id + tail) == Some(id)
  {
    var out := SubmitPrefix + id + tail;
    assert out[..|SubmitPrefix|] == SubmitPrefix;
    assert out[|SubmitPrefix|] == id[0];
    assert MatchAt(out, 0);
    var rest := out[|SubmitPrefix|..];
    assert rest == id + tail;
    DigitRunOf(id, tail);
  }

  lemma {:induction false} DigitRunOf(id: string, tail: string)
    requires AllDigits(id)
    requires tail == [] || !IsDigit(tail[0])
    ensures DigitRun(id + tail) == id
  {
    if id != [] {
      assert (id + tail)[1..] == id[1..] + tail;
      DigitRunOf(id[1..], tail);
    }
  }

  /** A job number printed by the scheduler is read back as that number. */
  lemma JobNumberRoundTrip(n: nat)
    ensures ParseJobId(SubmitPrefix + NatToString(n) + "\n") == Some(NatToString(n))
    ensures DigitsValue(NatToString(n)) == n
  {
    AnnouncementRoundTrip(NatToString(n), "\n");
    NatToStringRoundTrip(n);
  }

  /** An output without the announcement yields no identifier, and so does
      the announcement without a number. */
  lemma NoAnnouncement()
    ensures ParseJobId("Submission failed\n") == None
    ensures ParseJobId(SubmitPrefix) == None
  {
  }

  /** The launch decision of `_run_remote`: skip when the remote CNBSE
      directory already holds output and `overwrite` is off; otherwise
      submit a batch job and read its identifier back, or start the run
      in the background when the host has no batch scheduler. */
  function Decide(overwrite: bool, cnbseNonEmpty: bool, sbatch: bool, stdout: string): (r: LaunchOutcome)
    ensures r == Skipped <==> cnbseNonEmpty && !overwrite
    ensures r == Dispatched <==> !(cnbseNonEmpty && !overwrite) && !sbatch
    ensures r.Submitted? <==> !(cnbseNonEmpty && !overwrite) && sbatch && ParseJobId(stdout).Some?
    ensures r == NoJobId <==> !(cnbseNonEmpty && !overwrite) && sbatch && ParseJobId(stdout).None?
    ensures r.Submitted? ==> r.id == ParseJobId(stdout).value && |r.id| >= 1 && AllDigits(r.id)
  {
    if cnbseNonEmpty && !overwrite then Skipped
    else if sbatch then
      match ParseJobId(stdout)
      case Some(id) => Submitted(id)
      case None => NoJobId
    else Dispatched
  }

  /** A submission the scheduler acknowledges with job number `n` records
      exactly that number, whenever the run is not skipped. */
  lemma SubmissionRecordsJob(overwrite: bool, cnbseNonEmpty: bool, n: nat)
    requires overwrite || !cnbseNonEmpty
    ensures Decide(overwrite, cnbseNonEmpty, true, SubmitPrefix + NatToString(n) + "\n") == Submitted(NatToString(n))
  {
    JobNumberRoundTrip(n);
  }

  /** The scheduler's usual answer yields its job number. */
  lemma TypicalAnswer()
    ensures ParseJobId("Submitted batch job 12345\n") == Some("12345")
  {
    assert "Submitted batch job 12345\n" == SubmitPrefix + "12345" + "\n";
    AnnouncementRoundTrip("12345", "\n");
  }
}
