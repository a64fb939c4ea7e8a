# aws-prefix-list in Dafny

`aws-prefix-list` is a command-line tool that keeps two AWS managed prefix
lists in step with a text file of CIDR blocks. One list is for IPv4 and is
named `<name>-ipv4`. The other is for IPv6 and is named `<name>-ipv6`.

- `create` cuts each family's entries into requests of at most 100. The
  first request creates the list with capacity for all entries. The rest
  are add-only modifies.
- `update` finds each list by name and diffs the remote entries against the
  file. It then sends the difference in windows of at most 100 additions
  and 100 removals.

Every modify carries a version the tool has just read. Every mutation is
followed by a wait that polls until the list's state no longer contains
`-in-progress`.

This project models that core as pure functions over sequences and sets:

- `entry_set.dfy`: reading the file.
- `batching.dfy`: cutting entries into requests and windows.
- `diff_engine.dfy`: the diff.
- `prefix_list_api.dfy`: the remote, reduced to what the tool relies on.
- `readiness.dfy`: the readiness wait.
- `session.dfy`: one version-read, modify and wait step.
- `create_flow.dfy`: the create workflow.
- `update_flow.dfy`: the update workflow's window loop.
- `update_workflow.dfy`: the update workflow as a whole.
- `dispatch.dfy`: `main`.

`protocol.dfy` defines the version and readiness protocol over a trace of
remote calls, and the workflows are proved to keep it.

The remote is a small state machine. It has a single writer, the tool. A
modify carrying a version other than the list's current one is refused as
stale. A modify arriving while the last mutation is still settling is
refused as busy. Otherwise the modify changes the entries and bumps the
version. How long each mutation takes to settle, and the id given to a new
list, are parameters (`Env`).

The following are uninterpreted function parameters:

- `net.ParseCIDR` (`parses`);
- `strings.TrimSpace` (`trim`);
- the remote's answers to the readiness poll (`respond`, in `Readiness`).

The file is given as its sequence of lines, or `None` when it cannot be
read. A fatal log (`log.Fatal`) is a failure value that ends the run. A Go
slice panic is a failure value too. The wait's index panic on an empty
response is a flag on the wait's result.

The update loop slices with `SliceMode`. `GoSlice` is Go's rule, under
which `s[lo:hi]` panics when `lo > hi`. `Clamped` is the corrected reading
(see Findings).

## Model

| member | source | states |
|---|---|---|
| EntrySet.ReadIPs | main.go:63-84 | The one-pass loop with a seen-set per family returns exactly the reference lists `Listed(lines, …, IPv4)` and `Listed(lines, …, IPv6)` |
| EntrySet.Admit | main.go:73-81 | The seen-set check appends a filed line's text exactly when it is not yet in the list, and the seen-set stays the set of the list's elements |
| EntrySet.ListedMembership | main.go:70-82 | A value is in the v4 list iff some line trims to it, it is non-empty, parses and contains "."; it is in the v6 list iff the same holds with ":" and no "." (the v4 test wins) |
| EntrySet.CandidatesMembership | main.go:70-82 | A value is among a family's candidate lines iff some line trims to it and is filed under that family |
| EntrySet.Dropped | main.go:93-101 | A text that does not parse, or holds neither "." nor ":", is in neither list |
| EntrySet.FamiliesDisjoint | main.go:72-82 | No value is in both lists |
| EntrySet.ListedFirstSeen | main.go:73-81 | Each list is duplicate-free and ordered by first occurrence among the family's trimmed lines |
| EntrySet.SampleFile | main.go:68-84 | A file with a repeated v4 line, a v6 line, a word and a blank line gives one entry per family |
| Common.Dedup | main.go:73-81 | Keeping first occurrences gives a duplicate-free sequence with the same elements |
| Common.DedupFirstSeenOrder | main.go:73-81 | Keeping first occurrences keeps the first-occurrence order |
| Batching.NumRequests | main.go:105-106 | The rounded-up quotient: enough 100-entry requests for `n` entries and not one more; zero exactly for zero entries |
| Batching.CreateChunk | main.go:112-119 | Chunk `i` has between 1 and 100 entries, and exactly 100 unless it is the last |
| Batching.CreateChunks | main.go:111-119 | There are `NumRequests(N)` chunks, each with 1 to 100 entries |
| Batching.ChunksPrefix | main.go:111-119 | The first `m` chunks put together are the first `min(100m, N)` entries |
| Batching.ChunksReassemble | main.go:111-119 | All chunks put together give the input back exactly |
| Batching.TwoHundredFiftyEntries | main.go:105-119 | 250 entries make chunks of 100, 100 and 50 |
| Batching.Window | main.go:220-227 | A window side fails iff Go slicing is in force and it starts past the end; otherwise it holds at most 100 entries: the slice from `lo`, or nothing when `lo` is past the end |
| Batching.SlicesInRangeMeans | main.go:219-236 | The closed form `SlicesInRange` holds iff every window start the loop visits lies within both sides |
| Batching.LoopRunsIff | main.go:219 | The loop condition at window `c` holds iff `c` is below the number of windows |
| Batching.SlicesInRangeStep | main.go:219-236 | The windows from `c` on are in range iff window `c` is and those after it are |
| Batching.InRangeCases | main.go:219-236 | Under Go slicing one window is always in range, while a one-sided diff longer than one window is not |
| Batching.UnevenSidesExample | main.go:219-236 | 50 adds and 150 removes are not in range: the second window's add slice starts at 100, past 50, and panics |
| DiffEngine.ScanDistinct | main.go:203-210 | On a duplicate-free desired list, the scan queues exactly the desired entries the remote lacks, in order, and the map loses exactly the desired entries |
| DiffEngine.DiffCorrect | main.go:188-216 | The adds are the desired entries the remote lacks, in desired order and duplicate-free. The removes are the remote entries not desired, each once. Adds miss the remote set and removes miss the desired set. Applying both to the remote set gives the desired set |
| DiffEngine.DiffSizes | main.go:203-216 | Each side of the diff is as long as the set difference it enumerates |
| DiffEngine.DiffNonEmpty | main.go:203-216 | When the remote set differs from the desired set, the diff has something to send |
| DiffEngine.InSyncDiffIsEmpty | main.go:203-216 | When the remote set equals the desired set, both sides are empty |
| DiffEngine.RepeatedEntryIsReAdded | main.go:203-210 | On a repeated desired entry the remote holds, the scan deletes it from the map and then queues it for adding |
| PrefixListApi.StateAfterInProgress | main.go:275 | The state the remote reports reads as in progress exactly until the mutation settles |
| PrefixListApi.Modify | main.go:144-152 | The remote accepts a modify iff it carries the current version and nothing is in flight. A refusal is stale or busy. An accepted modify bumps the version by one and removes then adds the entries |
| Readiness.PollEvents | main.go:262-281 | A wait makes at least one call and only describes or sleeps. A normal return ends on a describe that saw the list out of progress. A panic ends on an empty response |
| Readiness.FirstStop | main.go:262-281 | The first describe at which the wait stops lies in range and has no stopping describe before it |
| Readiness.PollLength | main.go:262-281 | A wait that stops at describe `j` made `j - k + 1` describes and `j - k` sleeps, and it panicked iff that response was empty |
| Readiness.PollAlternates | main.go:262-281 | The wait's calls alternate: the `m`-th describe carries the `m`-th response, and a sleep follows every describe but the last |
| Readiness.EmptyResponsePanics | main.go:271-275 | An empty describe response panics at once: the length test never guards the read |
| Readiness.ScriptedWait | main.go:262-281 | Two in-progress states and then a complete one give three describes, two sleeps and a normal return |
| Session.WaitStops | main.go:262-281 | Against the modelled remote, the wait stops exactly at the describe after the last sleep the mutation needs |
| Session.WaitTrace | main.go:262-281 | Against the modelled remote, the wait makes `lag + 1` describes and `lag` sleeps, mutates nothing and ends having seen the list settled |
| Session.SendModify | main.go:142-158 | A version read, then a modify and a wait. It fails iff a mutation is still in flight, and then leaves the list as it was. Otherwise the version goes up by one and the window is applied. It is never refused as stale |
| Session.SendModifyTrace | main.go:142-158 | On a settled list the step keeps the protocol, and its only mutation is the modify carrying the version read |
| Protocol.CreateRound | main.go:125-139 | A create, its wait, then a run that keeps the protocol keep it, and add the create to the mutations |
| Protocol.ModifyRound | main.go:140-158 | A version read, a modify sending that version, a wait, then a run that keeps the protocol keep it, and add the modify to the mutations |
| Protocol.GatedWaits | main.go:155-158 | The gate automaton implies the direct statement: between any two mutations a describe of the list the first one changed, answered about that list, saw it settled |
| Protocol.OtherListDoesNotRelease | main.go:155-158 | After a create of one list, a describe of another list, or a describe answered about another list, does not allow the next modify |
| CreateFlow.CreateRestOutcome | main.go:140-158 | On a settled list the create path's modifies never fail. Each bumps the version by one and adds its chunk, keeping the list's identity |
| CreateFlow.AddModifiesAt | main.go:140-149 | The modifies owed from chunk `i` on: one per chunk, the `m`-th carrying chunk `i + m` as additions and version `version + m` |
| CreateFlow.CreateRestProtocol | main.go:140-158 | The create path's modify loop keeps the protocol |
| CreateFlow.CreateRestMutations | main.go:140-158 | The create path's modify loop makes exactly the owed add-only modifies |
| CreateFlow.CreateOutcome | main.go:103-160 | Create never fails. With no entries nothing is called and no list exists. Otherwise the list holds exactly the desired entries, has capacity for all of them, carries the name and family, is settled, and its version counts the requests |
| CreateFlow.CreateTrace | main.go:103-160 | Create keeps the protocol. Its mutations are one create carrying chunk 0 with capacity for all entries, then the owed modifies starting at version 1 |
| CreateFlow.CreateTwoHundredFifty | main.go:103-160 | 250 entries give one create of the first 100 with capacity 250, then modifies of the next 100 and the last 50 at versions 1 and 2 |
| UpdateFlow.Request | main.go:220-236 | A request fails iff Go slicing is in force and either side's window starts past its end. Otherwise it carries the clamped window pair |
| UpdateFlow.UpdateRoundOutcome | main.go:220-247 | A round succeeds iff neither slice panics and the list is settled. A panic leaves only the version read. A busy list is left as it was. A success applies the window pair and bumps the version |
| UpdateFlow.PairModifiesLength | main.go:219 | One modify is owed per window still to visit |
| UpdateFlow.PairModifiesAt | main.go:219-237 | The `m`-th modify owed pairs the add and remove windows at `(c + m) * 100` and sends version `version + m` |
| UpdateFlow.UpdateLoopOutcome | main.go:219-248 | On a settled list the loop fails only on a slice panic, and does so iff Go slicing is in force and some window is out of range. It keeps the list's identity and ends settled with one version per window |
| UpdateFlow.UpdateLoopFailures | main.go:219-248 | Whatever the list's state, the loop stops early only on a slice panic or a busy refusal |
| UpdateFlow.UpdateLoopBusy | main.go:219-243 | A list still settling when the loop starts is refused at the first modify, with nothing changed |
| UpdateFlow.UpdateLoopEntries | main.go:219-248 | When the two sides share nothing and the loop runs to the end, the list ends as the remote set minus all removes plus all adds |
| UpdateFlow.UpdateRoundTrace | main.go:229-247 | On a settled list a round keeps the protocol. When it succeeds, its only mutation is the modify carrying the window pair and the version read |
| UpdateFlow.UpdateLoopProtocol | main.go:219-248 | On a settled list the loop keeps the protocol, whether it runs to the end or panics |
| UpdateFlow.UpdateLoopMutations | main.go:219-248 | When the loop runs to the end, its mutations are exactly the owed modifies, in window order, each carrying the version read just before it |
| UpdateWorkflow.FirstNamed | main.go:172-178 | The search returns the first position whose list carries the name, and nothing iff no list does |
| UpdateWorkflow.ReadsAreQuiet | main.go:166-198 | The reads before the loop keep the protocol and mutate nothing |
| UpdateWorkflow.UpdateNotFound | main.go:172-182 | The update fails as not found iff no list carries the name or the first that does has an empty id. Then only the describe of all lists was made and nothing changed |
| UpdateWorkflow.UpdateFailures | main.go:162-249 | An update runs to the end or fails as not found, slice panic or busy; never as stale |
| UpdateWorkflow.UpdateOutcome | main.go:162-249 | On a settled list and a duplicate-free desired list, the update fails only on a slice panic. That happens iff Go slicing is in force and the windows leave the shorter side. Only the found list can change |
| UpdateWorkflow.UpdateReachesDesired | main.go:162-249 | With clamped slicing, or Go slicing in range, the found list ends holding exactly the desired entries. It is settled, keeps its identity and capacity, and has gone up one version per window |
| UpdateWorkflow.UpdateTrace | main.go:162-249 | On a settled list the update keeps the protocol. When it runs to the end, its mutations are the owed modifies from the version read |
| UpdateWorkflow.UpdatePanicsOnUnevenDiff | main.go:219-236 | As written, 50 entries to add and 150 to remove end in a slice panic |
| UpdateWorkflow.UpdateBusyWhenUnsettled | main.go:185-243 | A list still settling with something to send is refused at the first modify and left untouched |
| UpdateWorkflow.UpdateInSync | main.go:162-219 | A list that already holds the desired set gets only the three reads and no modify, whatever its state |
| UpdateWorkflow.UpdateKeepsTarget | main.go:172-178 | After an update the search still picks the same position, whose list keeps its id |
| UpdateWorkflow.UpdateTwiceIsQuiet | main.go:162-249 | A second update with the same entries finds the list in sync, makes no mutation and changes nothing |
| Dispatch.NamesDiffer | main.go:47-51 | The `-ipv4` and `-ipv6` names never coincide |
| Dispatch.RunChecks | main.go:29-54 | An empty flag, an unreadable file and an unknown action are each reported exactly when they apply, with no remote call and nothing changed. An accepted run can fail only in `update`, as not found, slice panic or busy |
| Dispatch.UpdateBothFailures | main.go:49-51 | Updating both lists ends in one of the update's outcomes, naming the list not found |
| Dispatch.CreateBothOutcome | main.go:46-48 | `create` keeps the account's lists in front and adds one list per family with entries, v4 first, each with its family's entries |
| Dispatch.CreateBothTrace | main.go:46-48 | The calls of both creates keep the protocol |
| Dispatch.RunCreate | main.go:20-48 | An accepted `create` run never fails. It adds the v4 list and then the v6 list for the families with entries, each holding exactly the file's entries of that family, and keeps the protocol |
| Dispatch.UpdateBothStopsAtV4 | main.go:49-51 | A missing v4 list ends the run after one describe; the v6 list is never looked for |
| Dispatch.UpdateBothReachesDesired | main.go:49-51 | With clamped slicing, or Go slicing whose windows stay in range for both lists, and both lists settled, both lists end holding the desired entries, settled. Every other list is untouched and the protocol holds |
| Dispatch.RunUpdate | main.go:20-51 | An accepted `update` run with clamped slicing, or Go slicing whose windows stay in range, on settled lists, leaves each list holding exactly the file's entries of its family, and keeps the protocol |

## Left out

- AWS calls. The SDK calls become events on an abstract remote. The remote refuses only a stale version or a busy list. Throttling, permission, capacity and network errors are not modelled.
- Remote capacity. The remote does not check `MaxEntries`. An update that grows a list past its capacity is accepted here.
- `net.ParseCIDR` and `strings.TrimSpace`. They are function parameters. CIDR syntax and Unicode whitespace are library behaviour.
- File opening and `bufio.Scanner`. The file is its lines, or `None` when opening or scanning fails. Token-length limits are I/O.
- Loading the configuration and creating the client (lines 38-43). They are not part of this model.
- Flag parsing, `log.Printf` and `fmt.Printf` output. A fatal log is a failure value.
- `time.Sleep`. Sleeps are counted as `Sleep` events; time is not modelled.
- Go map iteration order for the removes. `ComputeDiff` takes some enumeration of the leftover set (`Enumerate`). Every property holds for any order.
- CreateOutcome: `int32(totalEntries)` wraps for 2^31 entries or more; capacity is modelled as the unbounded count.
- Pagination. The describe of all lists (line 167) is one page, with every list the account holds.
- Pagination of the entries read. The read at lines 189-198 is one call that ignores the next-page token. The model hands the diff the list's whole entry set, so it assumes one page holds every entry.
- Failed states. The modelled remote reports only `-in-progress` and `-complete` states. The test at line 275 also stops on a failed state such as `modify-failed`, and the tool then carries on as if the mutation had been applied. `CreateOutcome` and `UpdateReachesDesired` rely on mutations never failing after they are accepted.
- Session.LookUp: `getCurrentVersion` reads `PrefixLists[0]` and would panic on an empty response. The modelled remote always returns the list it is asked about, so that panic is shown only for the readiness wait (`EmptyResponsePanics`).
- Readiness.Poll: the wait has no bound in the tool. Its model takes a bound at which the remote's answer stops the wait. `Session.WaitStops` proves such a bound exists for the modelled remote.
- Describe errors are not modelled. Failing describes (lines 168-170, 256-258 and 268-270) and a failing entries read (lines 193-195) would end the run.
- Dispatch.RunUpdate: stated for lists that are settled when the run starts, and for windows that can be sliced. A list still settling is covered by `UpdateBusyWhenUnsettled`, and Go slicing out of range by `UpdateOutcome`.
- UpdateWorkflow.UpdateList and Dispatch.Run are ghost functions, because the remove side comes from `Enumerate`.

## Findings

| source | as written | input that shows it | evidently intended | confidence | as-written member | corrected member |
|---|---|---|---|---|---|---|
| main.go:219-236 | Both sides are sliced from the same start `i`, with each end clamped to its own length. When one side is shorter than `i`, `addEntries[i:endAdd]` (or `removeEntries[i:endRemove]`) has start greater than end, and Go panics | A list whose diff has 50 entries to add and 150 to remove: the second window starts at 100 and `addEntries[100:50]` panics, after the first window has already been applied | A side that has run out is sent empty, and the update runs to the end with the remote holding the desired set | high (not executed) | UpdateWorkflow.UpdatePanicsOnUnevenDiff | UpdateWorkflow.UpdateReachesDesired |
