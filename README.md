# shore: job tracking of OCEAN x-ray absorption calculations, in Dafny

`shore` drives OCEAN x-ray absorption (XAS) calculations. The orchestrator,
`ocean_wrapper`, holds a workflow graph that all instances share and a
registry of calculation instances. Each instance (`_xas`) does the following:

- numbers the absorbing sites of its target element;
- wires its own nodes into the graph: the structure, the instance, six
  pipeline stages, a results node and one node per site;
- infers from the OCEAN log which stages are complete, and latches them;
- turns log milestones into a progress percentage while a remote run is
  polled;
- decides whether to launch, and reads the batch job id back;
- updates its parameter dictionary;
- sums the spectra of the sites and polarisations whose files exist, and
  marks each site node found or missing.

`converge` fans one input out into one renamed clone per value of a
parameter. Each clone is registered as an instance.

The model is split into these modules:

- `Text`: the substring test, and `str` of integers together with its parse.
- `Params`: parameter values, structures, and the input and content objects.
- `Workflow`: the graph (nodes with a state, and edges).
- `Stages`: stage markers and completion inference.
- `Progress`: milestones, the progress dictionary and the polling loop.
- `Launch`: launch decision and job-id parse.
- `Results`: site numbering in file names, spectrum accumulation and site
  node states.
- `Shore`: class `Xas`, which models `_xas`.
- `Ocean`: class `OceanWrapper`, which models `ocean_wrapper`, together
  with `converge`.

State that the source mutates in place is held in class fields. The
parameter dictionary `content.input` lives in a `Content` object, so that
several inputs sharing one content see each other's writes.

Everything outside the process becomes a parameter:

| source dependency | in the model |
|---|---|
| log file | a sequence of lines |
| mirrored log during polling | a sequence of successive snapshots of the whole file |
| "remote CNBSE directory is non-empty" | a flag |
| scheduler's answer | a string |
| spectrum files | a map from file name to intensity series |
| current directory | a string |
| `save_attributes` | counted in `saves`, not written out |

Shell commands that would be sent are recorded in `commands`.

`converge` names clone i after `values[i]` and later runs each clone
(shore/__init__.py:283, 287-290), so each clone is evidently meant to carry
its own value. The code's shallow `copy.copy` makes every clone share one
content instead. The model keeps the code as written next to a corrected
version (see Findings).

## Model

All source paths below are `shore/__init__.py`.

| member | source | states |
|---|---|---|
| Text.NatToString | shore/__init__.py:877 | `str(n)` of a natural number: at least one character, all decimal digits, no leading zero unless n is 0, one digit iff n < 10 |
| Text.NatToStringRoundTrip | shore/__init__.py:877 | the digit string of `str(n)` reads back as n |
| Text.IntToString | shore/__init__.py:283 | `str(i)` of an integer: digits, with a leading '-' followed by digits when negative |
| Text.IntToStringRoundTrip | shore/__init__.py:283 | parsing `str(i)` gives back i |
| Text.IntToStringInjective | shore/__init__.py:283 | distinct integers print differently |
| Text.ContainsSelf | shore/__init__.py:814 | a string contains itself as a substring |
| Workflow.Register | shore/__init__.py:417 | an edge endpoint that is new is added as inactive; existing nodes keep their state; one key is added |
| Workflow.SetAll | shore/__init__.py:522-524 | every existing node of the target set gets the state, every other node keeps its own, and no node is added |
| Workflow.Mark | shore/__init__.py:897 | the one named node, when it exists, gets the state; no node is added and every other node keeps its own |
| Workflow.SetAllAdd | shore/__init__.py:522-524 | setting one more node is one more single-node update |
| Workflow.Graph.AddNode | shore/__init__.py:416 | the node exists afterwards with the given state; edges unchanged |
| Workflow.Graph.AddInstance | shore/__init__.py:417 | adds the edge; both endpoints exist afterwards; old nodes keep their state and new ones are inactive |
| Workflow.Graph.SetState | shore/__init__.py:448 | the assignment succeeds iff the node exists, and then changes only that node; on a missing node nothing changes |
| Params.Upsert | shore/__init__.py:477-487 | afterwards the key holds the value; every other key is unchanged; at most that key is added; a save happens iff the key was absent or held a different value; with no save, the dictionary is unchanged |
| Params.UpsertIdempotent | shore/__init__.py:479-480 | repeating the same `set` changes nothing and does not save |
| Params.Content.Copy | shore/__init__.py:282 | the copied content has the same dictionary, element and edge |
| Params.Input.ShallowCopy | shore/__init__.py:282-283 | `copy.copy` renamed: the new name, the same structure and the same content object |
| Params.Input.DeepCopy | shore/__init__.py:282-283 | the deep-copy counterpart: the new name, the same structure, and a fresh content with equal dictionary, element and edge |
| Stages.InitialStatesCoverStages | shore/__init__.py:438-447 | the initial flag dictionary has exactly one key per declared stage |
| Stages.ProgressInfo | shore/__init__.py:811-817 | `_progress_info` returns true iff some line contains the marker |
| Stages.CountFoundAll | shore/__init__.py:729-735 | the found-marker count is at most the number of markers, and equals it iff every marker is found |
| Stages.DoneAmongStep | shore/__init__.py:728-736 | considering one more stage adds its name iff it is complete |
| Stages.DoneAmongMono | shore/__init__.py:728-736 | considering more stages never loses a completed one, and only declared stage names appear |
| Stages.DoneStagesIff | shore/__init__.py:735 | a stage is among the completed ones iff every one of its markers occurs in some line |
| Stages.LatchStep | shore/__init__.py:735-736 | one more stage considered sets its flag to 1 iff it is complete |
| Stages.LatchStage | shore/__init__.py:735-736 | after inference a complete stage's flag is 1, and an incomplete stage keeps its previous flag |
| Stages.LatchNeverLowers | shore/__init__.py:735-736 | flags in {0, 1} are never lowered, and none is removed |
| Stages.LatchIdempotent | shore/__init__.py:728-737 | inference run a second time on the same log changes nothing |
| Stages.DoneStagesSameLines | shore/__init__.py:731-732 | only which lines occur matters; their order and repetition do not |
| Stages.DoneStagesGrow | shore/__init__.py:728-737 | a log grown by appended lines never loses a completed stage |
| Stages.OverlapOpfBeforeDft | shore/__init__.py:440-441 | through the shared marker, a log that has just entered DFT completes `opf` but not `dft` |
| Stages.FlaggedAll | shore/__init__.py:522-523 | over the declared stages, the flagged names are exactly the keys with a positive flag |
| Shore.CountMarkers | shore/__init__.py:729-734 | the per-stage count equals the number of the stage's markers found in the log |
| Shore.Xas.InferStage | shore/__init__.py:729-737 | one stage of `get_state`: flags and stage nodes move from the state after the first j stages to the state after j + 1; it fails iff the stage is complete and its node is missing |
| Shore.Xas.GetState | shore/__init__.py:728-740 | succeeds iff every completed stage has its node; flags become the latch of the old flags under the log; exactly the completed stages' nodes are set active; on failure the flags and the nodes are those after some first j stages, as the raise leaves them; it saves iff it succeeds; flags that cover the declared stages with values in {0, 1} still do; graph keys and edges unchanged |
| Shore.StagesPresentMono | shore/__init__.py:735-737 | a stage node missing among the first stages stays missing when more stages are considered |
| Shore.StagesPresentStep | shore/__init__.py:735-737 | one more stage needs its node present iff it is complete |
| Shore.StageNodesStep | shore/__init__.py:735-737 | one more stage activates its node iff it is complete |
| Shore.LatchValid | shore/__init__.py:735-736 | latching keeps the flags over exactly the declared stages, each in {0, 1} |
| Progress.InitialWellFormed | shore/__init__.py:744-752 | the starting dictionary holds known keys at 0 and `ocean` is not yet 100 |
| Progress.MaxProgressIsMax | shore/__init__.py:767 | the shown value is `max(progress.values())`: it bounds every value and is one of them |
| Progress.RaiseNeverLowers | shore/__init__.py:819-837 | a scan assigns each hit key its constant, so no value is lowered and the dictionary stays well formed |
| Progress.ProgressNeverDecreases | shore/__init__.py:764-768 | the shown progress never decreases from one scan to the next |
| Progress.OceanDone | shore/__init__.py:836-837 | after a scan, `ocean` is 100 iff some line contains 'Ocean is done' or it was already 100 |
| Progress.FoundConcat | shore/__init__.py:813-815 | a marker is in two pieces of log iff it is in one of them |
| Progress.HitConcat | shore/__init__.py:821-837 | the keys hit by two pieces of log are those hit by either |
| Progress.RaiseConcat | shore/__init__.py:819-837 | scanning two pieces one after the other is scanning their concatenation |
| Progress.RaiseKeysStep | shore/__init__.py:822-837 | testing one more milestone on a line sets its key to its constant iff the line contains its marker |
| Progress.RaiseLine | shore/__init__.py:821-837 | scanning one line raises exactly the keys whose marker the line contains |
| Progress.FoundFlatten | shore/__init__.py:764-766 | a marker is in the polled snapshots taken together iff it is in one of them |
| Progress.PolledState | shore/__init__.py:764-766 | after t polls the dictionary is well formed, and `ocean` is 100 iff a polled snapshot says 'Ocean is done' |
| Progress.PolledStep | shore/__init__.py:764-768 | each poll scans the next snapshot, and the shown progress does not decrease |
| Progress.Shown | shore/__init__.py:767-768 | one shown value per poll |
| Progress.PollsFrom | shore/__init__.py:764-766 | the poll count lies between the start and the number of snapshots |
| Progress.PollsFromStops | shore/__init__.py:764-766 | polling stops right after the first done snapshot, or at the end |
| Progress.PollsStop | shore/__init__.py:764-766 | the loop polls exactly up to the first snapshot containing 'Ocean is done' (every snapshot if none does); afterwards `ocean` is 100 iff a polled snapshot says done |
| Progress.ShownMonotone | shore/__init__.py:767-768 | the value shown after each poll is the maximum of the dictionary then, and the shown sequence is non-decreasing |
| Shore.Xas.ScanLine | shore/__init__.py:821-837 | the eight tests on one line leave the dictionary raised by that line |
| Shore.Xas.ExtractProgressInfo | shore/__init__.py:819-837 | `extract_progress_info` leaves the dictionary raised by the whole log |
| Shore.Xas.Poll | shore/__init__.py:765-766 | one poll moves the dictionary from the state after i polls to the state after i + 1 |
| Shore.Xas.RemoteMonitor | shore/__init__.py:743-782 | the loop makes exactly the polls described by `PollsStop` and shows each poll's maximum; the final dictionary is the one after those polls; afterwards the instance node is active and the state saved iff that node exists |
| Launch.DigitRun | shore/__init__.py:646 | the greedy `\d+`: the longest all-digit prefix, non-empty when the text starts with a digit |
| Launch.SearchFrom | shore/__init__.py:646 | no match from offset i iff the pattern matches nowhere from i; otherwise the digit run after the leftmost match |
| Launch.ParseJobId | shore/__init__.py:646-648 | the job id is the non-empty digit run after the leftmost 'Submitted batch job ' that a digit follows, and is absent iff no such match exists |
| Launch.AnnouncementRoundTrip | shore/__init__.py:646-650 | an announcement of digits id followed by a non-digit yields exactly id |
| Launch.DigitRunOf | shore/__init__.py:646 | a digit string followed by a non-digit is read back whole |
| Launch.JobNumberRoundTrip | shore/__init__.py:646-650 | a job number printed by the scheduler is read back as that number |
| Launch.NoAnnouncement | shore/__init__.py:651-652 | output without the announcement, or with no number after it, yields no id |
| Launch.Decide | shore/__init__.py:635-655 | skip iff the CNBSE directory is non-empty and overwrite is off; otherwise sbatch submits (with an id iff the parse finds one) and the other mode dispatches in the background; a submitted id is a non-empty run of digits |
| Launch.SubmissionRecordsJob | shore/__init__.py:638-650 | whenever the run is not skipped, an acknowledged job number is recorded as that number |
| Launch.TypicalAnswer | shore/__init__.py:646-648 | 'Submitted batch job 12345' yields '12345' |
| Shore.Xas.RunRemote | shore/__init__.py:635-664 | the outcome is `Decide`; a skipped launch issues no command; otherwise the sbatch or background command for the remote directory is issued; the job id changes only on a successful parse, to the parsed id |
| Shore.Xas.Set | shore/__init__.py:477-487 | the instance's dictionary becomes `Upsert` of the old one, and one save is counted iff the update saves |
| Shore.Xas.GetElementOrder | shore/__init__.py:468-475 | the site ids are exactly 1, 2, ..., k, where k is the number of atoms with the element's symbol |
| Shore.Xas.CheckIfThereIsSomething | shore/__init__.py:520-524 | succeeds iff every flagged stage has its node, and then exactly the flagged stages' nodes are active; with nothing flagged the graph is untouched; on failure the nodes are those after activating the flagged stages among some first j; keys and edges unchanged |
| Shore.Xas.FlaggedInitial | shore/__init__.py:447 | a new instance has no flagged stage |
| Shore.AddPath | shore/__init__.py:449-451 | three `add_instance` calls add exactly their edges and endpoints |
| Shore.AddChain | shore/__init__.py:449-456 | the chain adds the instance-through-results edges and nodes; old nodes keep their state and new ones are inactive |
| Shore.AddSites | shore/__init__.py:457-460 | one edge from the results node to each site node, and those nodes |
| Shore.Wire | shore/__init__.py:416-460 | the nodes are the old ones plus the structure, the chain and the sites; structure and instance are active, other old nodes keep their state and new ones are inactive; the edges are exactly those added |
| Shore.ChainHasStages | shore/__init__.py:449-454 | every declared stage has its node in the chain |
| Shore.SiteNodesMembers | shore/__init__.py:457-460 | a node is a site node iff it is the node of one of the sites |
| Shore.ElemsSnoc | shore/__init__.py:457-460 | one more site adds one node and one edge |
| Shore.ExtendsGrows | shore/__init__.py:449-460 | wiring that only adds nodes keeps the structure and instance active |
| Shore.Xas.Setup | shore/__init__.py:420-462 | numbers the sites, wires the graph as `Wire` states, and the stage check leaves the graph as wired |
| Shore.Xas.constructor | shore/__init__.py:395-462 | name, structure, element, edge and directories are taken from the input and parent; site ids are 1, 2, ..., k; the flags start at 0; the graph is wired as `Wire` states |
| Results.AdjustZeros | shore/__init__.py:875-879 | numbers above 9 as they print, so not starting with '0'; numbers up to 9 behind a '0', so 0 to 9 become two digits |
| Results.AdjustZerosValue | shore/__init__.py:875-879 | a padded non-negative site number is all digits and reads back as the number |
| Results.AdjustZerosInjective | shore/__init__.py:875-879 | distinct site numbers pad differently |
| Results.EdgeShort | shore/__init__.py:561-565 | '1s' iff the edge is 'K', '2p' otherwise |
| Results.SiteIdsAt | shore/__init__.py:468-475 | a sequence is `SiteIds(k)` iff it holds k ids numbered 1, 2, ..., k |
| Results.SiteNodeDistinct | shore/__init__.py:897 | distinct sites have distinct graph nodes |
| Results.SiteNodeInjective | shore/__init__.py:897 | distinct sites have distinct graph nodes |
| Results.SpectrumFileInjective | shore/__init__.py:894 | distinct (site, polarisation) pairs load distinct files |
| Results.AddSeries | shore/__init__.py:896 | `y += data[1]` gives a series of the file's width |
| Results.SiteFiles | shore/__init__.py:892-894 | one file per polarisation |
| Results.VisitedFilesAt | shore/__init__.py:891-894 | the file of site i and polarisation j is tried at position i * |pols| + j of the |sites| * |pols| tries |
| Results.VisitedFilesLength | shore/__init__.py:891-892 | the loop tries |sites| * |pols| files |
| Results.Accumulate | shore/__init__.py:887-896 | the result stays integer 0 or becomes a series as wide as every file |
| Results.AccumulateSeries | shore/__init__.py:888-896 | `y` is still the integer 0 iff no tried file exists |
| Results.AccumulateIsSum | shore/__init__.py:891-896 | once a file is found, each entry of `y` is the sum of that column over every file found |
| Results.SumAtNone | shore/__init__.py:891-896 | with no file found, every column sum is 0 |
| Results.MarkSites | shore/__init__.py:891-900 | marking sites adds no node |
| Results.MarkSitesSite | shore/__init__.py:891-900 | a visited site's node ends active iff the file of its last polarisation was found |
| Results.MarkSitesOther | shore/__init__.py:891-900 | a node that is no visited site's node is not touched |
| Shore.PlotSites | shore/__init__.py:889 | the given sites, or all of the instance's sites when none are given |
| Shore.PlotPols | shore/__init__.py:890 | the given polarisations, or 1, 2, 3 |
| Shore.Xas.PlotSite | shore/__init__.py:892-900 | the polarisation loop adds the series of each found file and leaves the node in the state of the last file; it fails iff the node is missing, and then only the first file's series was added and no node changed, as the `KeyError` raised inside the `except` leaves it |
| Shore.Xas.PlotLoop | shore/__init__.py:891-900 | `y` is the accumulation over every tried file, and site nodes are marked as `MarkSites` states; it fails iff some visited site has no node; then, at the first such site, the earlier sites are summed and marked and that site's first file was added (`PlottedUpTo`) |
| Shore.Xas.Plot | shore/__init__.py:886-906 | through the default sites and polarisations, `y` and the site nodes are as `PlotLoop` states, on failure the prefix `PlottedUpTo` reached; it saves iff it succeeds |
| Ocean.OceanWrapper.constructor | shore/__init__.py:261-271 | root is the given one or the current directory; the graph, the registry and the convergence table start empty |
| Ocean.OceanWrapper.AddXas | shore/__init__.py:333-347 | a fresh instance built from the input on the shared graph, with the input's structure, element and edge, its local and remote directories, and no job, progress, spectrum, command or save yet, registered under the input's name (replacing an older one); the structure is remembered; its site ids are `SiteIds(k)` for the k atoms of the element; its flags are the initial ones; the graph gains exactly the structure, chain and site nodes and the structure, chain and site edges; the structure and instance are active, other old nodes keep their state and new ones are inactive |
| Ocean.CloneNameInjective | shore/__init__.py:283 | distinct values of one kind give distinct clone names |
| Ocean.SharedAfterLast | shore/__init__.py:281-284 | writing the values one after another into one dictionary leaves the last value and every other key unchanged |
| Ocean.SharedCloneValue | shore/__init__.py:281-284 | under a shared content, clone i reads its own value iff that value is the last one |
| Ocean.SharedCloneWitness | shore/__init__.py:281-284 | with values 1 and 2, the clone named 'base_1' reads 2 |
| Ocean.CloneParams | shore/__init__.py:284 | a clone's intended parameters are the base's with its value under the key |
| Ocean.NamesOfSnoc | shore/__init__.py:286 | the names of instances grow by the last one's |
| Ocean.RegisterAllKeys | shore/__init__.py:346 | registering adds exactly the instances' names |
| Ocean.RegisterAllNamed | shore/__init__.py:346 | each instance's name holds an instance of that name |
| Ocean.RegisterAllLast | shore/__init__.py:346 | the last instance of each name is the one registered |
| Ocean.RegisterAllOthers | shore/__init__.py:346 | every entry under another name is unchanged |
| Ocean.RegisterAllSnoc | shore/__init__.py:286 | registering one more instance is one more map update under its name |
| Ocean.RegisterAllSpec | shore/__init__.py:286 | all four registry facts about the instances `converge` adds |
| Ocean.FannedSnoc | shore/__init__.py:282-286 | one more round keeps clone i named `{name}_{values[i]}` with its instance i |
| Ocean.ContentsSnoc | shore/__init__.py:282 | one more clone adds its content |
| Ocean.OwnCopiesSnoc | shore/__init__.py:282-284 | one more deep clone with a new content keeps the contents distinct and correct |
| Ocean.ShallowClone | shore/__init__.py:282-284 | a fresh clone named `{name}_{value}` sharing the input's content, into which the value is written |
| Ocean.DeepClone | shore/__init__.py:282-284 | a fresh clone with a fresh content holding the input's parameters with the value under the key; the input is unchanged |
| Ocean.OceanWrapper.Record | shore/__init__.py:285-286 | the clone is appended to the input's convergence entry, and a fresh instance of the clone is registered under the clone's name |
| Ocean.OceanWrapper.RecordRound | shore/__init__.py:285-286 | in the loop: clone i joins the fan-out as `{name}_{values[i]}` with its instance i, and the registry is `RegisterAll` of the instances so far |
| Ocean.OceanWrapper.AddShared | shore/__init__.py:282-286 | one round of `converge` as written |
| Ocean.OceanWrapper.AddCopy | shore/__init__.py:282-286 | one round of `converge` with a deep clone |
| Ocean.OceanWrapper.ConvergeAsWritten | shore/__init__.py:277-286 | len(values) clones are recorded in value order under the input's name; clone i is named `{name}_{values[i]}`; every instance is registered; every clone shares the input's content, which ends as the dictionary after all the writes |
| Ocean.OceanWrapper.Converge | shore/__init__.py:277-286 | as above, but each clone has a fresh content of its own, distinct from the others and from the input's, holding the input's parameters with its value under the key; the input's parameters are unchanged |

## Left out

- The remote session (`connect`, uploads and downloads, `exec_command`, the background channel) is left out. The launch takes the "CNBSE is non-empty" flag, the scheduler mode and the scheduler's stdout as parameters, and records the command text in `commands`.
- Threads, `time.sleep`, the tqdm progress bars and `KeyboardInterrupt` are not modelled. The mirrored log is a sequence of snapshots. An interruption is modelled as the snapshots running out.
- `save_attributes`, `load_attributes` (`fresh=False`) and the state-file path are not modelled: saving is only counted in `saves`. `save()` is empty in this file.
- Files are not modelled: `mkdir`, `write_to_file` of `ocean.in`, `handle_input`, the light file, and `JobScriptCreator`.
- `np.loadtxt`, floating-point data, the energy axis `x` and numpy broadcasting are not modelled. Spectra are integer series that all have one width.
- The matplotlib plotting, `energy_shift` and labels are left out. `_adjust_element` returns its argument on both branches.
- `get_state` downloads into `{local_dir}/logs/log` but reads `{local_dir}/log`. The model takes the lines that are read as a parameter.
- The err/out download of `get_state` is left out, and so is `__read_error_file`.
- `converge`'s final loop, which calls `run()` on the matching instances, is remote I/O, like `run`, `_run_local` and `sync`.
- The graph library itself is not modelled. `add_instance` is assumed to add the edge and to register new endpoints as inactive. Assigning the state of a missing node raises, and that ends the operation.
- Launch.ParseJobId: matches ASCII digits 0-9 only. Python's `\d` also matches other Unicode decimal digits.
- Shore.Xas.Set: the debug print of `self.input[key]` is assumed to succeed.
- Shore.Xas.constructor: the state-file path `self.filename` is left out (see persistence above).
- Ocean.OceanWrapper.constructor: the `jar` directory creation and the `state` dictionary are left out.
- Shore.Xas.GetState: a missing log makes `open` in `_progress_info` raise before any flag is latched, and then nothing is saved. `get_state` reads `{local_dir}/log` but downloads into `{local_dir}/logs/log`, so this can happen. The model assumes every read succeeds.
- Shore.Xas.RemoteMonitor: a log that the mirror has not created yet makes `open` in `extract_progress_info` raise. That exception is not the `KeyboardInterrupt` caught at shore/__init__.py:770, so the node is not activated and nothing is saved. The model assumes every read succeeds.
- Shore.Xas.RunRemote: the launch and the monitor are separate members. The `if monitor` call of `_remote_monitor` at shore/__init__.py:667-668 is `Shore.Xas.RemoteMonitor`, and the catch-all at 670-671, which swallows launch and monitor errors, is not modelled.
- Ocean.OceanWrapper.AddXas: `setattr(self, input.name, tmp)` and `os.chdir` are left out.
- Params.Value: parameter values are integers or strings. Floating-point values are left out.
- Ocean.OceanWrapper.ConvergeAsWritten: freshness of the clone objects is not stated. Only the content sharing and the names are.
- Ocean.OceanWrapper.Converge: freshness is stated for the clones' contents, not for the clone objects.
- Results.AdjustZeros: a negative site number pads to '0-…', and this case is not given a meaning.
- `CalculationResults`, `AtomicStructure`, `info` and the `monitor`/`monitor_remote` variants are outside this model. So is `_check_files_exist`, which only they use.

## Findings

| source | as written | input that shows it | evidently intended | confidence | as-written member | corrected member |
|---|---|---|---|---|---|---|
| shore/__init__.py:282-284 | `copy.copy(input)` shares `input.content`, so every clone writes `key` into the same dictionary. All clones, and the base input, end with the last value. When `run()` rewrites `ocean.in`, every clone runs with that value. | `converge(input, 'ecut', [1, 2])`: clone `base_1` reads `ecut == 2` | each clone runs with its own value, and the base keeps its parameters | not executed | Ocean.OceanWrapper.ConvergeAsWritten | Ocean.OceanWrapper.Converge |

The as-written half is also stated by `Ocean.SharedCloneValue` and
`Ocean.SharedCloneWitness`. The corrected half is built on `Ocean.DeepClone`
and `Ocean.CloneParams`.
