# A verified model of harmonik's client-side protocols and planners

This project models, in Dafny 4.11, the parts of `harmonik` that hold state across calls, runs or
processes, and proves what they keep:

- the live-tail client with a resume cursor, against the daemon's log and a link that drops
  (`Follow`, `FollowRuns`, `EventIds`);
- the decision wait, with any number of writers and waiters (`DecisionWait`, `DecisionRuns`);
- the group-completion watcher of `harmonik run` (`Watcher`);
- the three-way merge and the de-duplication of bead ledgers (`BeadRows`, `BeadsMerge`,
  `BeadsMergeOutput`, `BeadsMergeAlgebra`, `BeadsMergeBytes`, `BeadsDedup`);
- the asset planner, its digests and lock, the executor of `sync-assets` and of the auto-apply hook,
  and whole histories of both (`AssetPlan`, `AssetDigest`, `AssetSplice`, `AssetApply`,
  `AssetHistory`, `AssetSkew`, `AssetAgain`, `AssetUpgrade`);
- the respawn command line and the shell words it is read back as (`Respawn`);
- the pilot loader's resume ledger, its runs, killed anywhere, and its edges (`Ledger`, `Loader`,
  `Edges`);
- the config patcher (`RcPrefix`), the session twin's line handler (`Twin`) and the re-runnable
  collector (`Collect`).

`Order`, `Results` and `Texts` hold string order, optional values and line splitting.

Loops of the source are methods with loops, proved against specification functions; the results are
lemmas about those functions and, for the protocols, about every run of a step machine built on
them. `dafny verify dfyconfig.toml` checks everything.

## Assumptions

- **Follow.** A subscription since S delivers matching events with id > S in log order, and a
  heartbeat that names an id is written only after every matching event up to that id. The second
  is not enforced by the daemon's hub (`internal/daemon/subscribe.go:442-475` reads a hub-wide id
  while events may still be queued); `BeatSafeExactly` shows that it is exactly what is needed and
  `OvertakenEventIsLost` what happens without it. The starting anchor is a real event, which it is
  whenever the log was not empty at the drain (`AnchorIsSound`).
- **Decisions.** The subscription is registered before the log is scanned. The client awaits no
  acknowledgement, so this is not enforced either; `StrandedExactly` and `AnswerIsFirstExactly` say
  exactly when it matters. Event ids are distinct.
- **Assets.** The hash has no collisions, is never empty and is written without colons and line
  breaks; it is a parameter of the model. `RulesIn` fixes the program's own destinations, rendering
  and partial updates; the executor's results hold for any such rules. Embedded paths are clean and
  rooted at `assets/`.
- **Loader.** The issue store never gives an id twice and gives ids of the checked shape; mnemonics
  have no comma, quote or line break and are not the word `mnemonic`. A ledger row is appended whole.

## Where code and text disagree

The model follows the code in each case.

- `beadsdedup.go:20-22` says that the later of two records with one timestamp is kept; the earlier is
  (`DedupTie`).
- An explicitly empty label list is written back as `null`, so written ledgers regroup only outside
  one trap (`MergeAssociatesExactly`), although what they say always does (`MergeAssociative`).
- `asset_skew.go:203-205` calls the count without disk hashes an over-estimate; it misses restores
  (`CountsBalance`).
- An auto-apply rebuilds the lock from the applied paths alone (`AutoApplyForgets`), after which all
  other files stop following the binary (`AutoApplyFreezesOthers`, `SyncTakesBackExactly`).
- Hook scripts have no destination, so a project is never in step with a binary that ships them
  (`SkewedForever`).
- A side file `*.harmonik-new` is overwritten whatever it holds (`SideFileIsReplaced`), and it is the
  one file with text of the user's that a sync may overwrite (`OverwritesOnlyShipped`).
- A dependency on an id that ends in a colon is lost when an earlier entry names that issue alone
  (`EachDependencyOnce`, `ColonHides`).
- The loader's ledger is unreadable after a title with an unquoted line break (`ReadBackExactly`,
  `BrokenTitleFails`).
- A run collected between its grade dispatch and its judge outcome is recorded as failed for good
  (`FirstVerdictIsForGood`, `CollectedTooEarly`).

## Model

| member | source | states |
|---|---|---|
| EventIds.EventIdOrder | cmd/harmonik/comms.go:1604-1608 | comparing two event ids (or an id and the empty id) as strings agrees with comparing the 128-bit numbers they write; UUID text form of section 4 of RFC 9562 |
| Follow.RecvFollow | cmd/harmonik/comms.go:1468-1699 | the nested loops give, for any script of dial attempts and streams, the exit code, cursor, printed messages and reconnect delays of the specification OnDials: malformed payloads move the cursor and are not printed, refusals and torn objects exit 1, a park message exits 0 |
| Follow.ExitTable | cmd/harmonik/comms.go:1496-1693 | over every script of dials the loop ends at the first reading that ends it, with that reading's code: 0 for a well-formed park message or a signal, 1 for a refusal, a torn object or a dial or write error, 17 for no daemon at the very first dial; it has printed the well-formed messages up to there and nothing read later |
| Follow.ParkIsLast | cmd/harmonik/comms.go:1684-1687 | a park message is printed last, and with it the exit is 0 |
| Follow.ReconnectPolicy | cmd/harmonik/comms.go:1506-1531 | over any dials each dial that does not end the loop is waited out exactly once: a second after a connection, and twice the delay before it, at most ten seconds, after a dial that found no daemon; exit 17 is given if and only if the first dial finds no daemon |
| Follow.DelaysAfterConnection | cmd/harmonik/comms.go:1518-1531 | so absences after a connection are waited out for 1, 2, 4, 8 and then 10 seconds each |
| FollowRuns.StepKeeps | cmd/harmonik/comms.go:1552-1628 | every step of log, link and client keeps the system invariant and never moves the cursor back |
| FollowRuns.ExactlyOnceInOrder | cmd/harmonik/comms.go:1468-1693 | over every interleaving of appends, subscriptions, sends, heartbeats, deliveries and drops the client has printed exactly the well-formed matching events with anchor < id <= cursor |
| FollowRuns.ExpectedMembers | cmd/harmonik/comms.go:1604-1628 | that expected list holds each such event once, strictly ascending, and nothing else |
| FollowRuns.CaughtUp | cmd/harmonik/comms.go:1489-1491 | when a live subscription has nothing more to send or to read, every well-formed matching event after the anchor has been printed |
| FollowRuns.Drain | internal/daemon/commsrecvhandler_nnwaa.go:166-209 | the scan since a stored cursor gives the well-formed matching messages, the cursor after them and the last id scanned |
| FollowRuns.AnchorIsSound | cmd/harmonik/comms.go:1290-1293 | the anchor that the client chooses is a real event if and only if the log was not empty, and the drain has printed all there is between the old cursor and it |
| FollowRuns.DrainThenFollow | cmd/harmonik/comms.go:1290-1317 | from a log that is not empty, the drain and the follow started at that anchor together print exactly the well-formed matching events from the old cursor to the current one, whatever is logged in between |
| FollowRuns.LoopPrintsExpected | cmd/harmonik/comms.go:1468-1699 | the client of any run is the client loop over the connections read off that run, so whenever the link is closed the loop has printed exactly the expected list |
| FollowRuns.BeatSafeExactly | cmd/harmonik/comms.go:1604-1608 | writing a heartbeat to an open subscription keeps the invariant if and only if it names no id beyond the log and no unsent event is at or below the id it names |
| FollowRuns.OvertakenEventIsLost | cmd/harmonik/comms.go:1604-1608 | if a heartbeat overtakes an unsent event and the link drops, that event is never printed, whatever happens afterwards |
| FollowRuns.OvertakenEventMovesCursorBack | cmd/harmonik/comms.go:1614-1616 | if the overtaken event is then read, the cursor moves back, since a message assigns it without a maximum |
| FollowRuns.EmptyAnchorMisses | cmd/harmonik/comms.go:1489-1491 | from an empty anchor an event logged before the subscription is never printed |
| DecisionWait.TerminalInLog | cmd/harmonik/decisions.go:409-423 | the log scan returns the first terminal of the decision among the events left after dropping redelivered ids |
| DecisionWait.DedupeHarmless | cmd/harmonik/decisions.go:411-417 | dropping redelivered ids never changes which terminal is first |
| DecisionWait.BlockedWait | cmd/harmonik/decisions.go:312-364 | arm, scan, then stream: the outcome is Answered, Refused, Ended or a read error, with its exit code; a stream that ends cleanly or is closed gives 0 without an answer |
| DecisionWait.WaitEnds | cmd/harmonik/decisions.go:312-409 | every armed wait answers with the first event of the log, each id counted once, that resolves the decision with its option or withdraws it with its reason; without one the first refusal or such event of the stream decides, and a stream with neither ends by its ending; exit 1 exactly for a refusal or a read error |
| DecisionWait.StreamAnswers | cmd/harmonik/decisions.go:328-363 | a stream of events answers with its first terminal, and ends unanswered exactly when it has none |
| DecisionRuns.AnswerIsFirstExactly | cmd/harmonik/decisions.go:318-354 | an answer is the first terminal in the log if and only if no other terminal fell between the scan and the registration |
| DecisionRuns.AnswersAreFirst | cmd/harmonik/decisions.go:312-364 | over every interleaving of writers and waiters armed in time, each answer is the first terminal of its decision in the log |
| DecisionRuns.WaitersAgree | cmd/harmonik/decisions.go:312-364 | all answered waiters of one decision give the same answer |
| DecisionRuns.StrandedExactly | cmd/harmonik/decisions.go:318-331 | a blocked waiter has nothing left to read although the log holds a terminal if and only if every terminal fell between its scan and its registration |
| DecisionRuns.NoLostWakeUp | cmd/harmonik/decisions.go:318-354 | a waiter armed in time that blocks while a terminal is logged still has that terminal ahead of it, and reading on returns it |
| DecisionRuns.StuckStays | cmd/harmonik/decisions.go:318-354 | a waiter whose scan and stream both lack a terminal is never answered, whatever happens, until its decision ends a second time |
| DecisionRuns.UnacknowledgedArmStrands | cmd/harmonik/decisions.go:531-558 | a run in which the unacknowledged arm strands a waiter although the log holds its answer, for every continuation without a second terminal |
| Watcher.WatchGroupCompletion | cmd/harmonik/run_via_daemon.go:270-415 | the scan loop with its pending set, run map and failure flag gives the exit code of the specification for every event stream |
| Watcher.NonInterference | cmd/harmonik/run_via_daemon.go:349-390 | deleting every start of a foreign bead and every end of a run not tracked at that point leaves the exit code as it was |
| Watcher.OthersInvisible | cmd/harmonik/run_via_daemon.go:349-390 | two streams that agree after all work of other runs and beads is stripped give one exit code, however it was interleaved |
| Watcher.InvariantHolds | cmd/harmonik/run_via_daemon.go:280-390 | what holds at every loop head: tracked runs are runs of watched beads that started, beads no longer pending had a run that ended, and the flag is set exactly when a tracked run failed |
| Watcher.PendingNeverEmpty | cmd/harmonik/run_via_daemon.go:334-336 | in append mode the pending set is non-empty at every loop head, so the branch that returns 0 for an empty one is dead |
| Watcher.ExitZeroMeans | cmd/harmonik/run_via_daemon.go:330-342 | in append mode exit 0 means that no tracked run failed and that every watched bead had a run that started and completed, or the watched group ended complete-success |
| Watcher.FailureIsFinal | cmd/harmonik/run_via_daemon.go:380-389 | once a tracked run has failed, no continuation of the stream gives 0 |
| Watcher.CompletionIsSeen | cmd/harmonik/run_via_daemon.go:364-390 | if no run of ours fails, our queue is not paused, our group ends in no failure and every watched bead has a run that starts and ends, the watch exits 0, whatever other runs, queues and groups do; no run id is started for two watched beads |
| Watcher.SharedRunIdHides | cmd/harmonik/run_via_daemon.go:349-390 | with one run id for two watched beads that is false: the second start takes the first bead's run away, and the watch exits 1 |
| Watcher.SubmitModeExactly | cmd/harmonik/run_via_daemon.go:344-347 | in submit mode exit 0 means exactly that the first refusal, pause or completion of ours is a notified complete-success |
| Watcher.AppendModeExactly | cmd/harmonik/run_via_daemon.go:270-415 | in append mode, for every stream, exit 0 if and only if some event makes the watch succeed: our group ends complete-success and is notified, or a run of ours ends that leaves no watched bead unfinished; before it came no refusal, pause of our queue or end of our group, not all beads were finished, and no run of ours has failed by then |
| BeadsMerge.RowsToMap | cmd/harmonik/beadsmerge.go:208-216 | the loop keeps one record per id, the specification Latest |
| BeadsMerge.LatestIsEarliestNewest | cmd/harmonik/beadsmerge.go:208-216 | the record kept for an id is the earliest one of greatest timestamp |
| BeadsMerge.UnionStringArray | cmd/harmonik/beadsmerge.go:263-289 | no list when all three are nil; otherwise the sorted union without repeats |
| BeadsMerge.UnionDependencies | cmd/harmonik/beadsmerge.go:291-330 | no list when all three are nil; otherwise the first raw entry of each dependency key, in ascending key order |
| BeadsMerge.UnionLabelsAndDeps | cmd/harmonik/beadsmerge.go:234-261 | the winner with the two united fields, an all-empty label union being written as null |
| BeadsMerge.MergeOne | cmd/harmonik/beadsmerge.go:170-203 | the switch for one id: winner by timestamp, ties to current, unions, pass-through of one-sided rows, nothing for an id of the ancestor alone |
| BeadsMerge.MergeBeadRows | cmd/harmonik/beadsmerge.go:148-206 | merged rows and conflicts for all ids in ascending order |
| BeadsMergeOutput.MergedIds | cmd/harmonik/beadsmerge.go:153-205 | the output is strictly ascending by id over exactly the ids of current or other |
| BeadsMergeOutput.SharedRow | cmd/harmonik/beadsmerge.go:177-192 | a shared row has the greatest timestamp and its scalars, exactly the three-way union of labels, and one entry for each dependency key of the three |
| BeadsMergeOutput.SharedLabels | cmd/harmonik/beadsmerge.go:263-289 | a shared row has a label text under its labels field if and only if one of the three rows has it there |
| BeadsMergeOutput.SharedDependencies | cmd/harmonik/beadsmerge.go:291-330 | of the entries of current, then other, then ancestor, a shared row has the first for each depends_on_id and for each issue_id alone, each once, and no other |
| BeadsMergeOutput.EachDependencyOnce | cmd/harmonik/beadsmerge.go:304-314 | no depends_on_id is named twice, and each that the three rows name is named, but for one that ends in a colon and is hidden by an earlier issue alone |
| BeadsMergeOutput.ColonHides | cmd/harmonik/beadsmerge.go:304-310 | such a pair: an issue alone x before an entry that depends on x:, which is lost |
| BeadsMergeOutput.UnitedLabels | cmd/harmonik/beadsmerge.go:240-248 | the labels read back from the united row are exactly the union |
| BeadsMergeOutput.UnitedDependencyList | cmd/harmonik/beadsmerge.go:250-258 | the written dependency list has one entry per key, in ascending key order |
| BeadsMergeOutput.OneSidedRow | cmd/harmonik/beadsmerge.go:193-196 | a row of one side only passes through unchanged |
| BeadsMergeOutput.ConflictsExact | cmd/harmonik/beadsmerge.go:178-186 | a conflict is logged for an id if and only if both sides tie on time and differ in raw fields, once each, with the texts of both status fields |
| BeadsMergeAlgebra.MergeAssociative | cmd/harmonik/beadsmerge.go:148-206 | with an empty ancestor the merge is associative on what ledgers say, on timestamp ties too |
| BeadsMergeAlgebra.MergeInGroups | cmd/harmonik/beadsmerge.go:148-206 | any number of files may be merged in groups |
| BeadsMergeAlgebra.MergeCommutesExactly | cmd/harmonik/beadsmerge.go:177-192 | the order of two files matters for scalars, labels and dependency keys of an id if and only if both hold it at one timestamp with different scalars |
| BeadsMergeAlgebra.MergeCommutesFully | cmd/harmonik/beadsmerge.go:291-330 | the entries agree as well if and only if both files hold the same entry under every shared dependency key |
| BeadsMergeAlgebra.MergeAbsorbs | cmd/harmonik/beadsmerge.go:148-206 | merging in a file that was already merged, wherever it stood, changes no row |
| BeadsMergeBytes.JoinRowsAssociateExactly | cmd/harmonik/beadsmerge.go:263-288 | three written rows regroup to the same row if and only if they are outside the empty-label trap |
| BeadsMergeBytes.MergeAssociatesExactly | cmd/harmonik/beadsmerge.go:148-206 | regrouping three files leaves the written ledger the same, field for field, if and only if no id held by all three is in the trap |
| BeadsMergeBytes.TrappedFiles | cmd/harmonik/beadsmerge.go:240-248 | three one-row files in the trap: grouped one way the merge writes a null, grouped the other way no field |
| BeadsDedup.DeduplicateBeadRows | cmd/harmonik/beadsdedup.go:88-108 | one record per id, in ascending id order, the one that the merge would pick |
| BeadsDedup.DedupSortedKeepsIds | cmd/harmonik/beadsdedup.go:97-107 | the output is sorted, keeps the id set and is unchanged by a second pass |
| BeadsDedup.DedupTie | cmd/harmonik/beadsdedup.go:92-94 | of two records with one timestamp the earlier is kept, against the help text at lines 20-22 |
| BeadsDedup.DedupFirstIsHarmless | cmd/harmonik/beadsdedup.go:88-108 | de-duplicating ancestor, current and other first changes neither the merge nor its conflicts |
| AssetPlan.Reconcile | cmd/harmonik/asset_reconcile.go:190-273 | the two map loops, the sorted listing and the switch give the specification plan |
| AssetPlan.OneItemPerPath | cmd/harmonik/asset_reconcile.go:196-210 | exactly one item per path of manifest or disk map, strictly ascending |
| AssetPlan.FollowsMatrixExactly | cmd/harmonik/asset_reconcile.go:172-189 | the code decides by the documented matrix if and only if it is not asked about an absent file whose lock hash is empty |
| AssetPlan.LockFromManifest | cmd/harmonik/asset_reconcile.go:40-49 | every manifest path at its shipped hash, and no other path |
| AssetPlan.WriteLock | cmd/harmonik/asset_reconcile.go:59-93 | the entries in ascending path order, format version 0 replaced |
| AssetPlan.ReadLock | cmd/harmonik/asset_reconcile.go:99-122 | an absent file is an empty lock; otherwise the map of the listed entries |
| AssetPlan.LockRoundTrip | cmd/harmonik/asset_reconcile.go:56-122 | a written lock reads back as itself, with version 0 as 1, and writes identically again |
| AssetPlan.Converges | cmd/harmonik/asset_reconcile.go:129-151 | after the documented actions and LockFromManifest a second plan has only Skip and Leave, for any starting lock and disk |
| AssetDigest.ManifestDigest | cmd/harmonik/asset_manifest.go:144-162 | the hash of the listing of the path-to-hash map, whatever the file order |
| AssetDigest.LockDigest | cmd/harmonik/asset_skew.go:138-154 | the hash of the listing of the recorded map |
| AssetDigest.DigestedEqualExactly | cmd/harmonik/asset_skew.go:129-154 | two listings are equal if and only if the path-to-hash maps are |
| AssetDigest.SkewedExactly | cmd/harmonik/asset_skew.go:223-232 | skew is reported if and only if shipped and recorded maps differ |
| AssetDigest.EarlyReturnHidesOnlyRestores | cmd/harmonik/asset_skew.go:230-232 | without skew no plan has a fast-forward or a conflict, for any disk; it creates exactly the shipped files missing from disk |
| AssetDigest.CheckAssetSkew | cmd/harmonik/asset_skew.go:209-268 | errors, digests, verdict and the three counts, with and without disk hashes |
| AssetDigest.CountsBalance | cmd/harmonik/asset_skew.go:203-205 | count with disk + files already there = count without disk + restores; so the promised over-estimate holds if and only if restores do not outnumber files already there |
| AssetDigest.DeletedFileIsMissed | cmd/harmonik/asset_skew.go:203-205 | one deleted file at its recorded hash: the count with disk is 1, the promised over-estimate is 0 |
| AssetSplice.FindManagedRegions | cmd/harmonik/sync_assets_cmd.go:548-569 | the scan finds the spans of the marker regions, none when one is left open |
| AssetSplice.SpliceManagedRegions | cmd/harmonik/sync_assets_cmd.go:525-541 | replacing regions from last to first gives the current outside text woven with the template regions, and fails exactly when the regions do not line up |
| AssetSplice.ParseWoven | cmd/harmonik/sync_assets_cmd.go:525-569 | scanning a woven text finds the same outside text and the template regions, but for line breaks that a region without one swallows |
| AssetSplice.SpliceIdempotentExactly | cmd/harmonik/sync_assets_cmd.go:525-569 | splicing the same template again changes nothing if and only if no region swallows a line break of the project |
| AssetSplice.ReparsedWhole | cmd/harmonik/sync_assets_cmd.go:525-541 | where nothing is swallowed, every outside text is the project's and every region is the template's |
| AssetApply.BuildManifest | cmd/harmonik/asset_manifest.go:103-133 | one classified, hashed entry per embedded file, in ascending path order |
| AssetApply.BuildDiskHashes | cmd/harmonik/sync_assets_cmd.go:65-80 | the installed file's hash per manifest path, empty without a destination or a file |
| AssetApply.ApplyPlan | cmd/harmonik/sync_assets_cmd.go:255-312 | the loop over a plan; an item without an embedded file stops it with code 1 and what was done before stays done |
| AssetApply.LockFromOutcomes | cmd/harmonik/sync_assets_cmd.go:314-340 | the stamped lock: shipped hash for skipped, written and fast-forwarded paths, prior entry for conflicts, nothing for any path without an outcome |
| AssetApply.SyncAssets | cmd/harmonik/sync_assets_cmd.go:161-233 | manifest, hashes, plan, apply and stamp, from files and lock to files and lock; what that leaves in each file is said by the rows of AssetUpgrade |
| AssetApply.AutoApply | cmd/harmonik/asset_skew.go:39-82 | only the Managed fast-forwards are applied, and the lock is stamped from their outcomes alone |
| AssetHistory.LockHoldsShippedHashes | cmd/harmonik/sync_assets_cmd.go:314-340 | after any history of upgrades, edits, syncs, cut syncs, auto-applies and lost locks the lock holds only hashes of bytes shipped for that path |
| AssetHistory.OverwritesOnlyShipped | cmd/harmonik/sync_assets_cmd.go:255-518 | at any point of any history a step of the program leaves an existing file, or replaces bytes an earlier binary shipped for it, or replaces marker regions only, or writes the side file of an item that is in conflict when its turn comes; it deletes none |
| AssetHistory.SideFileIsReplaced | cmd/harmonik/sync_assets_cmd.go:354-363 | that exemption is exact: after such a step the side file holds the shipped or rendered text, whatever it held, unless a later item owns that file |
| AssetHistory.NotesAreLost | cmd/harmonik/sync_assets_cmd.go:354-363 | an edited skill with notes in its side file: one sync replaces the notes |
| AssetHistory.FrameAfter | cmd/harmonik/sync_assets_cmd.go:255-312 | a plan changes no file other than the destinations of its items and their side files |
| AssetSkew.UserTextSurvives | cmd/harmonik/sync_assets_cmd.go:846-858 | under the program's own destinations a file with bytes no binary shipped, and that is not the side file of a conflict met by this step, is never changed, save AGENTS.md inside its marker regions |
| AssetSkew.SkewedForever | cmd/harmonik/sync_assets_cmd.go:262-267 | a binary that ships a file without a destination finds the project skewed after every history, however often it is synced |
| AssetSkew.ScriptsHaveNoDest | cmd/harmonik/sync_assets_cmd.go:33-51 | the hook scripts are such files |
| AssetSkew.SyncClearsSkewExactly | cmd/harmonik/sync_assets_cmd.go:314-340 | after a full sync the skew is gone if and only if every planned item is skipped, fast-forwarded (a router only when its regions can be replaced as its turn comes), or a create that is written or that the lock already agrees with |
| AssetSkew.SyncInDirClearsSkewExactly | cmd/harmonik/sync_assets_cmd.go:367-437 | under the program's own destinations that condition can be read off the plan and the files before the sync |
| AssetSkew.AutoApplyForgets | cmd/harmonik/asset_skew.go:70-73 | an auto-apply that applies anything leaves a lock with exactly the applied paths |
| AssetSkew.StaysUnlocked | cmd/harmonik/asset_skew.go:53-73 | a path outside the lock stays outside it over any upgrades, edits, auto-applies, cut syncs and lost locks, until a full sync |
| AssetSkew.AutoApplyFreezesOthers | cmd/harmonik/asset_skew.go:53-73 | after an auto-apply and any further history without a full sync, a path it did not apply is outside the lock, never fast-forwarded, and in conflict if and only if its file is there and is not the shipped one |
| AssetSkew.SyncTakesBackExactly | cmd/harmonik/sync_assets_cmd.go:314-340 | a full sync takes such a path back if and only if its file is the shipped one, or is gone and can be written; an old version stays outside |
| AssetSkew.OtherSkillIsDropped | cmd/harmonik/asset_skew.go:70-73 | two installed skills, one outdated: the auto-apply drops the other one's entry, and its next version finds the unedited file in conflict |
| AssetAgain.SyncTwiceExactly | cmd/harmonik/sync_assets_cmd.go:161-233 | with separate destinations, a second full sync leaves every file as it is if and only if no router is unstable |
| AssetAgain.UnstableExactly | cmd/harmonik/sync_assets_cmd.go:373-437 | under the program's rules that is: AGENTS.md in conflict, not equal to the raw template after splicing, and a template region that swallowed a line break |
| AssetAgain.SyncTwiceInDir | cmd/harmonik/sync_assets_cmd.go:161-233 | under the program's own rules, with separate destinations, a second full sync leaves every file if and only if no region swallowed a line break of the project's |
| AssetUpgrade.SkillGoes | cmd/harmonik/sync_assets_cmd.go:33-37 | skills/x is installed as .claude/skills/x and replaced as a whole |
| AssetUpgrade.ContextGoes | cmd/harmonik/sync_assets_cmd.go:40-45 | context/x is installed under .harmonik/context without its .tmpl, the handoff template as HANDOFF.md |
| AssetUpgrade.ScaffoldGoes | cmd/harmonik/sync_assets_cmd.go:46-47 | scaffolds/x is installed as x |
| AssetUpgrade.RouterGoes | cmd/harmonik/sync_assets_cmd.go:38-39 | the router template is installed as AGENTS.md |
| AssetUpgrade.RenderReplacesEvery | cmd/harmonik/sync_assets_cmd.go:520-523 | rendering puts the project directory for every occurrence of $PROJECT_DIR and changes nothing else |
| AssetUpgrade.SpanOfHeader | cmd/harmonik/sync_assets_cmd.go:581-597 | the header found is the comment that opens with the TIER marker after blanks only, up to its first end and the line break after it |
| AssetUpgrade.HeaderOfSpan | cmd/harmonik/sync_assets_cmd.go:581-597 | and one is found only in a text that has such a comment |
| AssetUpgrade.MissingIsCreated | cmd/harmonik/sync_assets_cmd.go:373-385 | a full sync brings a missing file back: as shipped, the router rendered |
| AssetUpgrade.CurrentIsKept | cmd/harmonik/sync_assets_cmd.go:262-267 | without a new text for it a file is left as it is, edited or not |
| AssetUpgrade.SkillAfterSync | cmd/harmonik/sync_assets_cmd.go:342-371 | a new version of a skill: an unedited file becomes it, an edited one stays and has the new version beside it |
| AssetUpgrade.ContextAfterSync | cmd/harmonik/sync_assets_cmd.go:439-499 | a new version of a context file: an unedited file gets the new header on its own body when both headers are found, and is left as it is in every other case |
| AssetUpgrade.ScaffoldAfterSync | cmd/harmonik/sync_assets_cmd.go:501-518 | a scaffold that is there is never touched |
| AssetUpgrade.RouterAfterSync | cmd/harmonik/sync_assets_cmd.go:373-437 | a new version of the router: the project's own text around the regions of the rendered template, or, when the regions do not line up, the old text with the rendered template beside it |
| AssetUpgrade.AfterAutoApply | cmd/harmonik/asset_skew.go:53-73 | an auto-apply turns an unedited skill into its new version and leaves every other installed file |
| AssetUpgrade.AllWritten | cmd/harmonik/asset_skew.go:75-81 | and the count it reports is the number of skills applied |
| Respawn.CaptainRespawnCmdString | cmd/harmonik/captain_respawn.go:164-178 | the loop gives the blank-joined quoted arguments |
| Respawn.RoundTripExactly | cmd/harmonik/captain_respawn.go:180-188 | the shell reads the printed words back as the argument list if and only if no argument has a NUL and no unquoted one starts with ~ or #, and the first is no unquoted assignment or reserved word |
| Respawn.RespawnRoundTrip | cmd/harmonik/captain_respawn.go:164-178 | the respawn command is read back as its eleven arguments under exactly that condition on its five values |
| Respawn.RespawnValues | cmd/harmonik/captain_respawn.go:164-178 | read back by the shell, the command has the binary, captain respawn, and after each flag its own value |
| Ledger.AppendMapRow | scripts/load-pilot.py:136-141 | a row is appended to the file text, its title quoted exactly when it has a comma or a quote |
| Ledger.ReadMap | scripts/load-pilot.py:117-125 | no file is an empty map; otherwise the map of the records, header and blank records skipped, a one-field record being an error |
| Ledger.ReadRow | scripts/load-pilot.py:136-141 | csv.reader turns one printed row into its three fields, and any further lines of an unquoted title into records of their own; section 2 of RFC 4180 |
| Ledger.ReadBackExactly | scripts/load-pilot.py:117-141 | for every sequence of rows, reading back gives the map that was written if and only if every title is harmless, and is an error otherwise |
| Ledger.UnbrokenIsHarmless | scripts/load-pilot.py:137-139 | a title without line breaks, with any commas and quotes, is harmless |
| Ledger.BrokenTitleFails | scripts/load-pilot.py:121-124 | a title that is not: after a row whose title is two short lines the ledger cannot be read |
| Loader.Validate | scripts/load-pilot.py:89-96 | accepted if and only if no mnemonic occurs twice, the epic's included |
| Loader.InvNext | scripts/load-pilot.py:367-404 | every effect, kill or failure of a run keeps the invariant of store, ledger and run |
| Loader.LedgerIsSound | scripts/load-pilot.py:367-404 | over any runs killed anywhere the ledger has one row per mnemonic, each row's bead exists, was created for it and is draft, and a bead's parent, if it has one, is recorded |
| Loader.ChildrenAreUnderTheEpic | scripts/load-pilot.py:385-394 | over any history, a bead created in a run on a data file has no parent if and only if it is that file's epic, and otherwise the id that the ledger records for the epic |
| Loader.BeadsPerMnemonic | scripts/load-pilot.py:32-36 | beads created for a mnemonic = one if it is recorded + kills between its create and its append + the one in hand; at most one plus those kills |
| Loader.NeverCreatedAgain | scripts/load-pilot.py:390-392 | once a mnemonic is recorded, no later run creates a bead for it |
| Loader.FinishedIsLoaded | scripts/load-pilot.py:384-405 | a run that comes to its end has every mnemonic of its data file in the ledger |
| Loader.LoadBeads | scripts/load-pilot.py:367-405 | the uninterrupted driver: epic first, then the beads in file order; each new bead has the epic's id as its parent, the epic none, and a ledger row with its mnemonic, its id and its title; created plus skipped is the number of beads |
| Loader.MachineLoads | scripts/load-pilot.py:367-405 | that driver does what the step machine does when no step is a kill |
| Edges.PrefixExactly | scripts/load-pilot.py:289-303 | a mnemonic has a prefix if and only if it is a lower-case word of letters and digits that starts with a letter, a dash or dot, and a rest; the prefix is that word |
| Edges.ResolvesExactly | scripts/load-pilot.py:306-321 | an endpoint resolves to an id if and only if the one map for its prefix has it; a forward reference never does |
| Edges.ProcessEdges | scripts/load-pilot.py:414-453 | every edge is accepted, deferred or rejected, once, as its endpoints resolve and the issue store answers, and dependencies are asked for in file order |
| Edges.FateOf | scripts/load-pilot.py:421-453 | an edge is deferred if and only if its source resolves and its target is a forward reference; a dependency is asked for if and only if both ends are found under their prefixes, and then the issue store alone accepts or rejects it |
| Edges.EdgesHandled | scripts/load-pilot.py:421-453 | over a whole file: the asked dependencies are those of the linked edges, and an edge is rejected if and only if it neither waits nor is linked and accepted |
| Edges.OwnMnemonicResolves | scripts/load-pilot.py:306-313 | once a run has dealt with its beads, whatever runs and kills came before, each of its own mnemonics resolves to a draft bead created for it |
| Edges.OwnEdgeIsAsked | scripts/load-pilot.py:421-451 | so an edge between two of them is never refused by the loader: the dependency between the two beads is asked for, which differ when the mnemonics do, and only the issue store can reject it |
| Edges.EntryStays | scripts/load-pilot.py:390-398 | over any further runs and kills the id recorded for a mnemonic never changes |
| Edges.SameAskedAgain | scripts/load-pilot.py:421-451 | a later run that comes to the same edges asks for the same dependencies in the same order |
| RcPrefix.PatchText | cmd/harmonik/migrate_rc_prefix_cmd.go:148-170 | the text part of the patch: all field lines replaced, or the insertion |
| RcPrefix.InsertRCPrefixLine | cmd/harmonik/migrate_rc_prefix_cmd.go:172-221 | the index loops find daemon line, block end and anchor, and the slices are rebuilt around the new line |
| RcPrefix.LastWriteWins | cmd/harmonik/migrate_rc_prefix_cmd.go:148-170 | patch(patch(c, p), q) = patch(c, q) for every config text and newline-free p and q |
| RcPrefix.PatchSetsEvery | cmd/harmonik/migrate_rc_prefix_cmd.go:156-164 | after a patch there is a field line and every one has the new value |
| RcPrefix.PatchKeepsLines | cmd/harmonik/migrate_rc_prefix_cmd.go:156-161 | with a field line present every line keeps its place: a field line its indentation, with the new value, any other its text |
| RcPrefix.InsertsOneLine | cmd/harmonik/migrate_rc_prefix_cmd.go:200-220 | with a bare daemon line exactly one line is added, after it and before the next top-level line; all others stay in order |
| RcPrefix.InsertsAtAnchor | cmd/harmonik/migrate_rc_prefix_cmd.go:180-220 | with a daemon line the place is exact: in the block of the first one, up to the next line that is neither blank nor indented, after the first line that starts with workflow_mode, else max_concurrent, else target_branch, else after daemon itself |
| RcPrefix.AppendsABlock | cmd/harmonik/migrate_rc_prefix_cmd.go:193-198 | without one the text is kept and a two-line block is put at its end |
| RcPrefix.AppendsText | cmd/harmonik/migrate_rc_prefix_cmd.go:193-198 | as text: the old text, closed by a line break, then daemon: and the indented field, each on its line |
| Texts.TrimSpaceIs | cmd/harmonik/migrate_rc_prefix_cmd.go:184-195 | trimming, which decides what a daemon line, a blank line and an anchor line are, takes all white space from both ends and nothing else |
| Texts.SpacesAre | cmd/harmonik/sync_assets_cmd.go:586-586 | white space is that of unicode.IsSpace, code point by code point |
| Twin.TwinState.HandleLine | cmd/harmonik-twin-session/main.go:306-345 | the new state and the rotated result of one line, by the handler's order of tests |
| Twin.TwinState.TryWriteNonce | cmd/harmonik-twin-session/main.go:347-363 | a nonce disarms, and only its first sight is recorded and written |
| Twin.TwinState.WriteHandoffNonce | cmd/harmonik-twin-session/main.go:365-377 | the nonce line is appended, after a line break if the file lacks one |
| Twin.TwinState.Grow | cmd/harmonik-twin-session/main.go:232-236 | only the tokens change, by the amount |
| Twin.EachNonceOnce | cmd/harmonik-twin-session/main.go:347-377 | for every sequence of lines and ticks the file is the old one with each written nonce appended, and none is written twice or when already seen |
| Twin.WrittenOnOwnLines | cmd/harmonik-twin-session/main.go:365-377 | the file only grows, and each written nonce has a line of its own in it |
| Twin.NonceIsFirst | cmd/harmonik-twin-session/main.go:134-134 | a line yields its first text of the form <!-- KEEPER: ... --> without > inside, and none if and only if it has none |
| Twin.ContainsMeans | cmd/harmonik-twin-session/main.go:311-330 | a command is found anywhere in a line |
| Twin.KindExactly | cmd/harmonik-twin-session/main.go:306-345 | a line of white space is none; else it is the first of /session-handoff, /clear and /session-resume that it contains, in this order |
| Twin.RunCounts | cmd/harmonik-twin-session/main.go:318-328 | after every sequence of lines and ticks the id is the one given by the last rotation, and the tokens are the start value plus the ticks since then |
| Twin.RotatesExactly | cmd/harmonik-twin-session/main.go:318-328 | after any run of a new session a clear rotates if and only if the ticks since the last rotation, or the start, add up to more than nothing; nothing else changes the id |
| Twin.NoRotationWithoutGrowth | cmd/harmonik-twin-session/main.go:321-326 | at or below the start value no sequence of lines rotates the session |
| Twin.RedeliveredExactly | cmd/harmonik-twin-session/main.go:306-377 | a block of lines delivered again, with whatever ids and write failures, changes nothing if and only if under the flag that the first delivery leaves it offers only nonces seen by then and leaves that flag, both told from the state before |
| Twin.BlockTwiceIsOnce | cmd/harmonik-twin-session/main.go:306-377 | so a block that opens with a command always has the effect of one delivery |
| Twin.BlockRepeatedIsOnce | cmd/harmonik-twin-session/main.go:306-377 | any number of deliveries has the effect of one |
| Twin.LineTwiceIsOnce | cmd/harmonik-twin-session/main.go:306-345 | any single line delivered again has no further effect |
| Twin.LateTriggerTakesTwice | cmd/harmonik-twin-session/main.go:336-344 | a block for which it fails: one that shows its nonce before its trigger has it taken only the second time |
| Collect.EvalRunState.Apply | cmd/harmonik/eval_cmd.go:319-387 | one event's update of the per-run record |
| Collect.ReadEvents | cmd/harmonik/eval_cmd.go:281-393 | one separate record per run that the filter lets through, each the fold of that run's events over the whole log |
| Collect.ReadExistingRunIDs | cmd/harmonik/eval_cmd.go:245-279 | exactly the non-empty run ids of the output |
| Collect.WriteRecords | cmd/harmonik/eval_cmd.go:201-243 | the lines for graded runs not yet there, in ascending run id order, and both counters |
| Collect.RunEvalCollect | cmd/harmonik/eval_cmd.go:159-199 | one collect run appends exactly those lines |
| Collect.NeverTwice | cmd/harmonik/eval_cmd.go:201-279 | over any history of log growth and collect runs, filtered or cut short, no non-empty run id comes twice |
| Collect.UnfilteredIsComplete | cmd/harmonik/eval_cmd.go:201-243 | after an unfiltered run the output ids are the old ones and exactly the grade-dispatched runs of the log |
| Collect.EmptyIdRepeats | cmd/harmonik/eval_cmd.go:270-272 | the empty run id never counts as existing, so every unfiltered run adds it again |
| Collect.RecordsAreSnapshots | cmd/harmonik/eval_cmd.go:219-223 | every record is what the log said of its run at some earlier point, after the grade node was dispatched |
| Collect.RecordSaysLast | cmd/harmonik/eval_cmd.go:319-387 | each field of a record is that of the run's last event that sets it, or empty |
| Collect.FirstFieldsAreForGood | cmd/harmonik/eval_cmd.go:395-440 | and stays what it was when the run was first collected |
| Collect.LinesAscend | cmd/harmonik/eval_cmd.go:208-214 | the records of one collect run are written in ascending order of run id |
| Collect.FirstVerdictIsForGood | cmd/harmonik/eval_cmd.go:214-222 | whatever follows the collect run that first writes a run, more events and more collect runs with any filter, the output holds that one record of it, with the verdict of that moment |
| Collect.StillRightExactly | cmd/harmonik/eval_cmd.go:395-404 | for any continuation the written verdicts are still what the log says if and only if no judge of a run written then has spoken since for the first time |
| Collect.VerdictIsFinalExactly | cmd/harmonik/eval_cmd.go:214-222 | they stay so under every continuation if and only if every graded run that the collect run is about to write has been judged |
| Collect.CollectedTooEarly | cmd/harmonik/eval_cmd.go:214-222 | a history that fails: a run collected between its grade dispatch and its judge outcome is failed for good, whatever follows |

## Left out

- Sockets, dialing, signals, timers, presence beats, tmux, git, the issue store's own behaviour and the file system are steps or parameters; partial writes, permissions and directory creation are not modelled.
- JSON, YAML and time-stamp parsing are taken as decoded records; a value that does not decode is a case of its own.
- Strings are sequences of characters, and string order is by code point, which is the order of their UTF-8 bytes.
- FollowRuns.ExactlyOnceInOrder: the daemon's bounded subscriber queue, which drops its oldest events when full, is not part of the link; it is a case of a matching event never sent, outside the first assumption.
- Follow.RecvFollow: errors while printing or marshalling a message are not modelled; each exits 1.
- DecisionWait.BlockedWait: what is printed is the returned terminal, not its text.
- BeadsMergeOutput.ConflictsExact: the source compares the raw bytes of the fields, the model their decoded values, so two rows whose fields differ only in spacing, key order or escapes conflict there and not here.
- AssetPlan.Converges: it is about the actions as documented and LockFromManifest, which no command calls; sync-assets stamps the lock from its outcomes, and AssetAgain says what a second sync of it does.
- AssetHistory.OverwritesOnlyShipped: edits come between steps; an edit of a file between its hashing and its writing within one sync is not a step, and the executor does not look at the file again.
- AssetPlan.Reconcile: the human-readable reason of an item is not kept.
- AssetApply.ApplyPlan: writes succeed whole or the sync is cut between two items; reading a file other than the embedded one does not fail.
- AssetApply.SyncAssets: argument parsing, the dispatch gate, the printed tables and the git commit are left out.
- AssetAgain.SyncTwiceExactly: stated for embedded paths that share no installed file, as the shipped ones do not.
- Respawn.RoundTripExactly: the reader gives up on expansions, patterns, operators and double quotes, which the printer always puts inside single quotes.
- Ledger.ReadMap: text mode's treatment of a carriage return followed by a line feed as one break is two breaks here, which only adds a blank record; the field size limit is not modelled.
- Loader.LoadBeads: dry runs, label expansion, the shape checks of the data file other than unique mnemonics, and the printed progress are left out.
- RcPrefix.PatchText: the pattern is a predicate on lines; reading and writing the file are left out.
- Twin.TwinState.HandleLine: the mutex is left out, lines and ticks being atomic steps, and tokens are unbounded integers.
- Collect.WriteRecords: labels, model names and wall time, which come from other tools or from arithmetic on two recorded strings, are not in the record; building and encoding a record does not fail; a torn last line is not modelled.
- Reading a config as YAML after a patch, so that a second `daemon` key would be seen as one, is left out.
- The daemon, queue, event bus and keeper, the other configuration resolvers, dashboards, twin scenarios, corpus scripts, eval reports, and the promote and handler-state commands are left out: they are straight-line checks, or rest on services that are not modelled.
