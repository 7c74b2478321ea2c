# DAMON control, verified

The library drives DAMON, the Linux data access monitor, through its sysfs directory. A
session stages a hierarchy of kdamonds, contexts, targets and schemes leaf by leaf, turns
kdamonds on, updates them while they run, and finally puts back whatever was staged before
it came. Every one of those steps is a sequence of small kernel writes, any of which may
fail, in a tree that other controllers can write to as well. This project models that
engine and proves what it promises.

## The kernel

`KernelTree` is the writable part of the sysfs tree: a finite map from component paths to
texts, with one law. Writing a count file (`nr_kdamonds`, `nr_schemes`, ...) destroys and
rebuilds every indexed child of its directory; any other write sets one leaf. Which
directories have counts, which leaves a fresh child has and how numbers are printed are
parameters (`Schema`), so attributes the library has never heard of are covered.
`ExampleKernel`, `ExampleReaders` and `ExampleViews` show that what is assumed of a layout, of
the typed readers of its leaves and of a view of quota goals can be met.

`SysfsModel.Sysfs` adds kernel threads, what each running kdamond runs, the write journal and
a ghost record of every access. Turning a kdamond on hands it its staged leaves; committing
does too, except that the kernel settles the targets and drops those marked obsolete
(`TargetLeaves`, `RunningState`). Any access can fail, with EBUSY or otherwise.
After every access anything may happen: kernel threads come and go and other controllers
write what they like. Properties about values are stated for `exclusive` kernels, where only
the `retuned` interval leaves move by themselves; properties about the record of accesses
(what was read before what was sent) hold under any interference.

A third kind says that nothing goes wrong for no reason. On a `steady` kernel no access fails of
itself and threads obey their commands alone; a hierarchy `InOrder` is one where, besides, the
step invariant holds and every kdamond is in the state the session left it. There starting,
stopping, updating, setting goals, replacing, closing, taking snapshots, attaching and recording
all succeed. Where a request is staged, that premise includes that the stagings were completed
and read back as meant, which is a statement about the record (`StagingRecords`); that staging
itself succeeds whenever the kernel has the attributes is proved in `StagingRuns` and `Support`.

## The engine

- `Restoration`, `Snapshots`: capturing the tree, comparing with it, writing it back, and
  the closure of a write journal that a partial rollback restores.
- `Hierarchy`, `Traces`: start, stop and the ownership checks. Its run invariant, kept by
  every operation on a session, says that each `off` and each commit ever sent followed a
  read of the pid owned when that operation began, and that a kdamond regarded as merely
  staged is not one this session left running. Within one call, no `on` or `off` goes to a
  kdamond whose owned values were not compared first (`Guarded`).
  Its step invariant (`InStep`), for kernels nobody else writes to, says that the session
  owns what the kernel holds, that no staged target is marked, and that every identified
  kdamond runs exactly what is staged for it.
- `Updates`, `Rollbacks`, `OnlineUpdates`: the selected online update. `Readbacks` says, field by
  field and without the procedure that decides it, which readbacks count as the request.
  `QuotaGoals`, `GoalUpdates`: the same for the goals of one scheme. `TuningGoals`: which
  leaves the kernel retunes, told from the tree.
- `Transactions`, `Sessions`: whole-hierarchy transactions, opening, replacing and closing,
  and the capability probe; `StoppedRecords`: they write only to a hierarchy just seen stopped.
  `Runs`: whole sessions, any operations in any order, which stay in step until a rollback
  fails. `Standing`, `RuntimeBatches`, `SnapshotQueries`: on-demand snapshots, a private query
  installed and taken out again by two online updates.
- `KernelNodes`, `Support`, `Staging`, `StagingHierarchy`, `StagingRuns`: differential staging
  against a kernel that may lack any optional attribute, with `FilterLayout` and `Equivalence` for
  what counts as the same configuration.
- `ReceiptCodec`, `ReceiptDecoder`, `Receipts`, `CapturedReceipts`: the binary receipt.
  `Attachment`, `PersistentSessions`: sessions rebuilt from one.
- `Alignment`, `Validity`, `ValueComparison`, `Refreshing`: region arithmetic, validity after
  obsolete targets are removed, and the streaming comparison of values.

Methods that change state are proved against specifications on the old and new state; what
those mean is proved in lemmas about the same functions and predicates.

## What the code does not do

- **Receipts with many kdamonds cannot be read back.** The bytes-left check meant for
  lists is also applied to the kdamond count, which no list follows. An otherwise valid
  receipt decodes back to itself if and only if the count is at most 8 plus 12 for each
  running identity (`ReceiptCodec.RoundTrip`); nine stopped kdamonds are a concrete
  failure (`ReceiptCodec.NineStoppedKdamonds`).
- **Two ways of comparing disagree on trailing newlines.** The streaming comparison also
  accepts a captured value that itself ends in a newline when the kernel's text has no
  further one, where a fresh capture would differ; they agree on everything else
  (`ValueComparison.ComparisonAgreesWithCapture`, and `NewlineGoesUnnoticed` at an input).
- **A capability probe can fail without restoring, under a plain error.** When the probe
  succeeds and only the restoration fails, the error is never a rollback error
  (`Sessions.Capabilities`), and once the kdamond count has been rewritten a refused write
  leaves the captured hierarchy if and only if every captured leaf still to be visited has
  the value the kernel creates it with (`RefusedRestorations.RefusedRestoration`); one stopped kdamond with its own refresh
  interval is a concrete hierarchy that is lost (`ExampleKernel.RefusedSecondWrite`).
- **Target filters are not renumbered.** Removing an obsolete target leaves the indices in
  target filters alone: they stay in range, and name the same target if and only if no
  target up to theirs was removed (`Validity.FilterIndexKeepsTarget`, and
  `Validity.FilterNamesAnother` at an input).
- **Some valid goals are never installed.** A goal is read with a node, and with a cgroup path,
  exactly when its metric calls for one, but may be valid with either beyond that; such a goal
  never reads back as requested (`QuotaGoals.ReadGoalsFit`, and `NodeIsNotRead` at an input), so
  its update is undone. Goals that fit their metrics are installed (`UpdateSchemeQuotaGoals`).

## Model

| member | source | states |
|---|---|---|
| `KernelTree.WriteKeepsConsistent` | src/sysfs/test_backend/state.rs:390-495 | whatever leaf is written, on any kernel layout, the leaves present afterwards are exactly those the roots and the present counts call for |
| `KernelTree.TopWriteRestoresSchema` | src/sysfs/test_backend/state.rs:390-420 | rewriting the kdamond count turns any tree, with any garbage below the kdamonds, into one that follows the layout |
| `KernelTree.NoLeafIsDirectory` | src/sysfs/test_backend/state.rs:163-372 | on a lawful layout no leaf, under any counts, is also a directory of another |
| `KernelTree.NameTestIsExact` | src/sysfs/ownership.rs:446-450 | of the leaves a lawful layout has, the name test finds the counts and no others: `nr_accesses_permil` is none |
| `TargetLeaves.TargetWriteStaysBelow` | src/sysfs/test_backend/state.rs:390-495 | a write to a target leaf, even to the number of targets, changes target leaves only |
| `TargetLeaves.RetainedIsDropped` | src/monitor/hierarchy.rs:1161-1169 | what a commit retains of the targets is what dropping the obsolete ones leaves, and none of it is marked |
| `TargetLeaves.TargetLeavesLieBelow` | src/sysfs/test_backend/state.rs:679-775 | the target leaves of a kdamond are exactly what lies below the `targets` directories of its contexts |
| `SysfsModel.Sysfs.Write` | src/sysfs/io.rs:309-322 | an accepted write has the kernel's whole effect and is journalled; a refused one changes nothing and is not journalled; a steady kernel accepts every write the layout allows, the kdamond count while all are off |
| `SysfsModel.Sysfs.Order` | src/sysfs/test_backend/state.rs:679-775 | only accepted commands change what a kdamond runs: `on` hands over its staged subtree, `commit` too except that the kernel settles the targets, dropping those marked obsolete; a goal commit hands over its goals alone; a steady kernel accepts `on` exactly while a kdamond is off, anything else exactly while it is on |
| `SysfsModel.Sysfs.Capture` | src/sysfs/ownership.rs:418-429 | a capture is the staged tree, sorted by path |
| `Paths.PathOrderTotal` | src/sysfs/ownership.rs:399-416 | the component-wise order of captured paths is total and strict |
| `Paths.SubtreeIsContiguous` | src/sysfs/ownership.rs:115-135 | whatever follows a root without lying below it follows the whole subtree, so a subtree is one block |
| `Paths.PartitionPoint` | src/sysfs/ownership.rs:115-122 | the binary search finds the first entry not below the bound |
| `Paths.CaptureIsUnique` | src/sysfs/ownership.rs:186-194 | two sorted captures with the same entries are the same capture |
| `Snapshots.SubtreeBlock` | src/sysfs/ownership.rs:115-135 | partition point and prefix scan visit exactly the entries a full scan for the root would keep, so kdamond 1 never includes kdamond 10 |
| `Snapshots.MatchesUnderExcept` | src/sysfs/ownership.rs:115-135 | undisturbed, the indexed subtree check answers true exactly when every captured value below the root outside the ignored set is in the kernel |
| `Snapshots.MatchesCurrentExcept` | src/sysfs/ownership.rs:93-103 | undisturbed, the comparison answers true exactly when every captured value outside the ignored set is in the kernel |
| `Snapshots.MatchesOutsideExcept` | src/sysfs/ownership.rs:137-151 | the same for the captured values that do not lie below a root |
| `ValueComparison.ReadEquals` | src/sysfs/io.rs:118-149 | over any division of a value into read chunks, the comparison accepts the expected text with or without one newline, and nothing else |
| `ValueComparison.MatchChunk` | src/sysfs/io.rs:158-178 | a chunk either continues the match or makes it impossible for anything that follows |
| `ValueComparison.ComparisonAgreesWithCapture` | src/sysfs/io.rs:118-178 | comparing agrees with capturing afresh except exactly on an expected value that itself ends in a newline |
| `ValueComparison.NewlineGoesUnnoticed` | src/sysfs/io.rs:118-178 | a concrete pair of texts on which they part |
| `ValueComparison.ValueEqualsItsCapture` | src/sysfs/io.rs:118-178 | a value just captured always passes the comparison |
| `Refreshing.RefreshedPathsExcept` | src/sysfs/ownership.rs:153-178 | refreshed captures differ from the old one only at the refreshed paths and agree with the kernel; undisturbed it fails only on an access or on a path never captured |
| `Restoration.ExactRestoration` | src/sysfs/ownership.rs:327-348 | from any tree, writing a captured hierarchy back in restoration order yields exactly that hierarchy and no write is refused |
| `Restoration.KeyLessTransitive` | src/sysfs/ownership.rs:439-444 | the restoration key orders paths: depth, then counts first, then path |
| `Restoration.RebuildSparesRestored` | src/sysfs/ownership.rs:439-450 | rewriting a count in restoration order destroys nothing that was restored before it |
| `Restoration.NextIsPresent` | src/sysfs/ownership.rs:350-384 | the next leaf to restore exists, because the count that owns it is back or was never lost |
| `Restoration.RestorationComplete` | src/sysfs/ownership.rs:350-384 | once every captured leaf of the closure was visited no leaf is missing and none is left over |
| `Restoration.AffectedIsClosed` | src/sysfs/ownership.rs:286-308 | a captured count in the closure of a write journal brings in every captured entry under its parent |
| `Restoration.AffectedIsMinimal` | src/sysfs/ownership.rs:286-308 | every path in the closure is written or lies below the directory of a written count the layout rebuilds: a plain leaf brings in nothing but itself |
| `Restoration.CoveredByWrite` | src/sysfs/io.rs:309-356 | every journalled write keeps: a captured leaf outside the closure of the journal is present and unchanged |
| `Restoration.PartialRollback` | src/sysfs/ownership.rs:286-384 | after any journalled run interleaved with another controller's plain writes, restoring the closure succeeds, restores it whole and leaves nothing extra; every leaf neither written nor below the directory of a written count the layout rebuilds is as found |
| `Restoration.PartialRollbackIsExact` | src/sysfs/ownership.rs:350-384 | without interference a partial rollback returns exactly the captured tree |
| `Snapshots.PathsAffectedByWrites` | src/sysfs/ownership.rs:286-308 | the loop computes the closure of the journal: the paths written, and the captured leaves below the directory of a written count the layout really rebuilds, no others |
| `Snapshots.SortForRestoration` | src/sysfs/ownership.rs:333-336 | the sorted entries are the captured ones in restoration order |
| `Snapshots.WriteBack` | src/sysfs/ownership.rs:327-384 | one leaf at a time, with failures and kernel retuning between any two, the tree stays restorable and captured leaves outside the closure do not move |
| `Snapshots.RestorePathsExcept` | src/sysfs/ownership.rs:350-384 | Ok: the tree has exactly the captured leaves and those in the closure their values; undisturbed it fails only on an access; a leaf outside the closure never changes |
| `Snapshots.RestoreExcept` | src/sysfs/ownership.rs:327-348 | Ok: exactly the captured leaves with the captured values outside the ignored set, from any tree |
| `Snapshots.AgreementFixesShape` | src/sysfs/ownership.rs:186-193 | agreement on the captured values, counts included, already excludes additional leaves |
| `Retries.RetryOrder` | src/monitor/ownership.rs:274-288 | a repeated command is recorded as refused attempts followed by the final one, and takes effect at most once |
| `Traces.StopIsSafe` | src/monitor/hierarchy.rs:672-721 | every `off` attempt of a stop follows a read, in that same stop, of the pid owned when it began |
| `Traces.CommitIsSafe` | src/monitor/hierarchy.rs:780-784 | every attempt at a commit follows reads of the count and of the owned pid made for that commit |
| `Traces.CheckGuards` | src/monitor/hierarchy.rs:184-230 | an intact comparison of the owned values of a kdamond followed by one command to it is what every `on` and `off` is allowed by |
| `RunningState.CommittedRuns` | src/monitor/hierarchy.rs:786-809 | after a commit a kdamond runs the targets that were not marked, in order, and every other leaf as staged |
| `RunningState.CommittedInStep` | src/monitor/hierarchy.rs:780-809 | a commit of targets none of which is marked leaves the kdamond running exactly what is staged |
| `Hierarchy.ManagedHierarchy.VerifyCount` | src/monitor/ownership.rs:219-226 | Ok exactly when the count just read is the staged one |
| `Hierarchy.ManagedHierarchy.VerifyStaged` | src/monitor/ownership.rs:193-204 | Ok: the count was read as staged and the kernel holds every owned value it does not retune |
| `Hierarchy.ManagedHierarchy.VerifyKdamondConfiguration` | src/monitor/ownership.rs:228-243 | Ok only when the owned values below that kdamond are in the kernel, and undisturbed only an access can make it fail when they are |
| `Hierarchy.ManagedHierarchy.RunningThreadPid` | src/monitor/ownership.rs:254-262 | the pid returned was read after the kdamond was read on |
| `Hierarchy.ManagedHierarchy.VerifyRunningIdentityOnly` | src/monitor/hierarchy.rs:614-638 | Ok: the count and then exactly the owned pid were just read |
| `Hierarchy.ManagedHierarchy.VerifyOwnedState` | src/monitor/hierarchy.rs:572-601 | Ok: owned, nobody unidentified, owned values in the kernel, and every kdamond seen on with its pid or seen off; when all that holds and nothing fails of itself, Ok |
| `Hierarchy.ManagedHierarchy.VerifyOwnedIdentitiesOnly` | src/monitor/hierarchy.rs:1006-1035 | the same for identities alone |
| `Hierarchy.ManagedHierarchy.TurnOnAndIdentify` | src/monitor/hierarchy.rs:662-668 | the kdamond turned on is remembered as unidentified until its pid is read, and runs what is staged for it |
| `Hierarchy.ManagedHierarchy.StartOne` | src/monitor/hierarchy.rs:662-670 | Ok: running under a pid captured after its own `on`, with its configuration checked last; on error it is staged, identified, or marked unidentified, never forgotten; `on` is the only command sent; a hierarchy in step stays so, the kdamond just started included, and one in order is Ok |
| `Hierarchy.ManagedHierarchy.StartAll` | src/monitor/hierarchy.rs:151-200 | every kdamond runs under a pid captured after its own `on`, or, short of a failed rollback, all are staged and everything turned on was read off; nothing is sent before all were read off, and no `on` or `off` to a kdamond before, in this call, its owned values were found intact; a hierarchy in step stays so; one in order, owned and staged, is started: Ok, and in order |
| `Hierarchy.ManagedHierarchy.RollbackStarted` | src/monitor/hierarchy.rs:723-753 | Ok only when every kdamond is staged again; no `off` before the owned values of that kdamond were found intact in this call; Ok when the hierarchy is in order |
| `Hierarchy.ManagedHierarchy.StopOne` | src/monitor/hierarchy.rs:672-721 | changes only its own kdamond; when its own reads and commands are good it ends staged, and so it does in a hierarchy in order |
| `Hierarchy.ManagedHierarchy.StopAll` | src/monitor/hierarchy.rs:208-240 | while the count holds, every identified kdamond whose own checks are good ends staged, whatever happens to the others; no `off` to a kdamond before, in this call, its owned values were found intact; nobody is invented running, a hierarchy in step stays so, and one in order is stopped |
| `Updates.ValidateSelectedIndices` | src/monitor/hierarchy.rs:1076-1107 | accepts exactly distinct indices in range of a hierarchy described in full |
| `Updates.StageFrom` | src/sysfs/configuration/staging.rs:788-811 | staging from an observation writes, and journals, below the kdamonds that differ and nowhere else; where only targets differ, only target leaves change |
| `Updates.SendCommit` | src/monitor/hierarchy.rs:780-784 | a commit is sent between two identity checks and Ok means it was accepted and the owned pid read again |
| `Updates.CommitSelected` | src/monitor/hierarchy.rs:780-784 | Ok: every listed kdamond runs what is staged for it; the others run what they ran; Ok whenever the listed kdamonds are on under their pids and nothing fails of itself |
| `Updates.StageAndCommit` | src/monitor/hierarchy.rs:755-784 | Ok: what each selected kdamond runs reads back as the request; whatever interferes, commits follow such a readback, with nothing written after it and every kdamond seen since; undisturbed, with the staging completed and read back, Ok |
| `Updates.CheckStaged` | src/monitor/hierarchy.rs:767-779 | Ok: the record ends with a readback as the request, nothing written since, and every kdamond seen as the session left it |
| `Updates.StageCleaned` | src/monitor/hierarchy.rs:786-809 | after the commit the hierarchy staged reads back as the request without its obsolete targets |
| `Updates.StageAndCommitRunning` | src/monitor/hierarchy.rs:755-814 | both together: the ownership adopted is a capture that agrees with the kernel, the final tree differs from the committed one in target leaves at most, and not at all when no target is obsolete |
| `Rollbacks.AffectedStaysBelow` | src/monitor/hierarchy.rs:816-852 | the closure of an update's journal lies below the selected kdamonds and excludes the kdamond count |
| `Rollbacks.VerifyRollbackBoundary` | src/monitor/hierarchy.rs:989-1004 | undisturbed, no captured value outside the closure has changed, so the boundary check fails only on an access |
| `Rollbacks.RestoreWritten` | src/monitor/hierarchy.rs:816-832 | Ok: every captured value the kernel does not retune is back; unless disturbed only an access can fail it |
| `Rollbacks.RestoreAndCommitRunning` | src/monitor/hierarchy.rs:816-852 | Ok: the staged tree is the captured one and each selected kdamond runs what it stages |
| `Rollbacks.RestoreWrittenAndCommit` | src/monitor/hierarchy.rs:957-971 | the fallback commits what it restored and leaves every other kdamond alone |
| `OnlineUpdates.Prepare` | src/monitor/hierarchy.rs:296-335 | nothing but reads; Ok: a runnable request with unselected kdamonds as staged, and every kdamond of an owned hierarchy seen as left after the rollback state was captured; an acceptable request to a hierarchy in order is prepared |
| `OnlineUpdates.UpdateConfiguration` | src/monitor/hierarchy.rs:291-361 | all or nothing: Ok means every selected kdamond runs the request, the readback has the requested intervals wherever neither the request nor the previous configuration tunes them, unselected kdamonds are described as staged, and only existing targets are marked; any error but a failed rollback leaves the staged tree, and what every identified kdamond runs, as before; staged leaves of unselected kdamonds and what those run never change; short of a failed rollback a hierarchy in step is in step again; nothing but reads unless admissible; on Ok every commit followed a readback as the request; and an acceptable update of a hierarchy in order whose stagings were completed and read back is Ok |
| `Readbacks.AdoptTunedDecides` | src/monitor/hierarchy.rs:1171-1202 | what is adopted from a readback before it is compared makes exactly these acceptable: field by field as requested, except sampling and aggregation intervals where the request or the previous configuration tunes them |
| `Readbacks.AcceptedReadback` | src/monitor/hierarchy.rs:1171-1202 | a readback that passes the comparison is such a one, and of what the readers produce every such one passes |
| `Readbacks.EquivalentReadback` | src/sysfs/configuration/model/hierarchy.rs:71-91 | where nothing is adopted the intervals are the requested ones too |
| `OnlineUpdates.UnselectedAreKept` | src/monitor/hierarchy.rs:316-334 | the test on unselected kdamonds accepts exactly those described as they are staged, intervals not being tuned included |
| `OnlineUpdates.ObsoleteAreExisting` | src/monitor/hierarchy.rs:1109-1150 | the test on marked targets accepts exactly current, unmarked, otherwise unchanged ones |
| `OnlineUpdates.SettledIsWhatRuns` | src/monitor/hierarchy.rs:1152-1169 | after a completed update each selected kdamond runs, leaf by leaf, what the settled hierarchy stages for it, and its targets are the requested ones without the obsolete |
| `OnlineUpdates.InStepAfterUpdate` | src/monitor/hierarchy.rs:755-814 | a completed update leaves every identified kdamond, selected or not, running what is staged for it, and the session owning what the kernel holds |
| `OnlineUpdates.InStepAfterUndo` | src/monitor/hierarchy.rs:816-852 | so does an undone one, and every identified kdamond runs what it ran before the call |
| `OnlineUpdates.OwnedAfterUndo` | src/monitor/hierarchy.rs:834-852 | the ownership renewed by a rollback names exactly the leaves the kernel is retuning |
| `OnlineUpdates.NothingNewElsewhere` | src/monitor/hierarchy.rs:989-1004 | counts outside the selected kdamonds being as captured, so is the list of leaves there |
| `QuotaGoals.WriteKeepsFrame` | src/sysfs/configuration/attributes/quota.rs:169-196 | a write inside the footprint, even of the goal count, changes no leaf outside it |
| `QuotaGoals.StageGoal` | src/sysfs/configuration/attributes/quota.rs:343-360 | writes only leaves of that goal; no leaf of another goal changes; Ok: a goal that fits its metric reads back as requested |
| `QuotaGoals.StageGoals` | src/sysfs/configuration/attributes/quota.rs:169-196 | every path written lies in the ignore set, or below the ignored directory, that the later check uses; Ok: goals that fit their metrics read back as requested; valid goals the kernel has the leaves for are staged unless an access fails |
| `QuotaGoals.StageEach` | src/sysfs/configuration/attributes/quota.rs:169-196 | goal after goal, skipping those observed as requested: Ok means all of them, fitting their metrics, read back as requested |
| `QuotaGoals.GoalsAre` | src/sysfs/configuration/attributes/quota.rs:156-167 | the goals read are those read one by one |
| `QuotaGoals.HeldIsRead` | src/sysfs/configuration/attributes/quota.rs:320-360 | a goal whose texts are staged, and that fits its metric, reads back as itself |
| `QuotaGoals.ReadGoalsFit` | src/sysfs/configuration/attributes/quota.rs:320-341 | goals that are read carry a node, and a cgroup path, exactly when their metric calls for it |
| `QuotaGoals.NodeIsNotRead` | src/sysfs/configuration/attributes/quota.rs:320-341 | a valid goal, user input with a node, is never read back as itself |
| `QuotaGoals.GoalLeavesLieBelow` | src/sysfs/test_backend/state.rs:679-775 | the goal leaves of a kdamond are exactly what lies in the `goals` directories of its schemes |
| `QuotaGoals.CheckElsewhere` | src/monitor/hierarchy.rs:867-893 | undisturbed, true exactly when every owned value outside that footprint is in the kernel |
| `QuotaGoals.FrameKeepsVerdict` | src/monitor/hierarchy.rs:866-898 | staging inside the footprint neither hides nor causes a difference outside it |
| `QuotaGoals.CommitGoals` | src/monitor/hierarchy.rs:912-918 | the kdamond runs the staged goals, and otherwise what it ran |
| `GoalUpdates.StageAndVerifyGoals` | src/monitor/hierarchy.rs:854-912 | a value owned outside the footprint that differs makes it fail; undisturbed, and with nothing retuned, no value check can |
| `GoalUpdates.StageAndCommitGoals` | src/monitor/hierarchy.rs:854-923 | when a value outside the footprint differs, nothing is committed |
| `GoalUpdates.RestoreAndCommitGoals` | src/monitor/hierarchy.rs:925-955 | Ok: captured values are back and the kdamond runs the goals they stage |
| `GoalUpdates.UpdateSchemeQuotaGoals` | src/monitor/hierarchy.rs:363-420 | all or nothing for the goals of one scheme; nothing but reads unless they leave the quota valid; nothing else any kdamond runs is affected, whatever the outcome; short of a failed rollback a hierarchy in step is in step again, and after an error everybody runs what they ran; in a hierarchy in order acceptable goals are installed: Ok |
| `GoalUpdates.InStepAfterGoals` | src/monitor/hierarchy.rs:854-923 | goals staged and committed together leave every kdamond running what is staged for it and the owned volatile leaves valid |
| `Transactions.EnsureStopped` | src/monitor/ownership.rs:64-79 | Ok only after the count, every state read off, and the same count again; Ok on an idle kernel |
| `Transactions.RestoreConfiguration` | src/monitor/ownership.rs:46-62 | Ok only on a fresh capture equal to the old one, every kdamond seen off since the last write; nothing is written but to a hierarchy just seen stopped; undisturbed it fails only on an access or a kdamond somebody started, and on an idle kernel not at all |
| `Transactions.StageAndVerify` | src/monitor/ownership.rs:21-44 | Ok only with a readback equivalent to the request, read between two checks that every kdamond is off, and nothing written after it; nothing is written but to a hierarchy just seen stopped |
| `Transactions.StageConfigurationLocked` | src/monitor/session.rs:166-203 | a non-rollback error means nothing was written, or the last access was a capture equal to the first; Ok means a readback equivalent to the request, and the hierarchy replaced is the one found; a hierarchy that already reads as the request is only read; on an idle kernel a completed and correctly read staging is Ok |
| `Sessions.Open` | src/monitor/session.rs:120-135 | Ok: owns a hierarchy read back as requested, intervals included, in step, remembering the one it replaced; otherwise the tree is as before; a hierarchy that already reads as the request is only read; on an idle kernel a runnable request, completely staged, is opened and in order |
| `Sessions.Close` | src/monitor/hierarchy.rs:1059-1073 | Ok on an owned hierarchy: all stopped, and the last access a capture equal to the hierarchy it had replaced; any error keeps ownership; no `off` before the owned values were found intact; a hierarchy in order that replaced one is closed |
| `Sessions.ReplaceStaged` | src/monitor/hierarchy.rs:525-561 | short of a failed rollback the session owns what it asked for or a configuration it had read back, and stays in step; nothing is written but to a hierarchy just seen stopped; in order and with the staging completed, it is replaced |
| `Sessions.Capabilities` | src/monitor/session.rs:213-238 | Ok, and every failure of the probe itself, ends on a capture equal to the first one; a restoration failing after a successful probe is reported plainly; nothing is written but to a hierarchy just seen stopped; on an idle kernel a probe staged with its one kdamond is all it takes |
| `RefusedRestorations.RefusedRestoration` | src/sysfs/ownership.rs:327-348 | with the top count rewritten, a restoration refused before its step n has restored the captured tree if and only if every leaf not yet visited was captured with the value the kernel creates it with |
| `ExampleKernel.RefusedSecondWrite` | src/monitor/session.rs:230-232 | one stopped kdamond with a refresh interval of its own: whatever is staged, a restoration refused at its second write leaves another tree, at its third the captured one |
| `Runs.OpenAndRun` | src/monitor/hierarchy.rs:120-420 | after opening, any sequence of starts, stops, online updates, goal updates and restagings, failed or not, keeps the hierarchy in step until a rollback fails, and every stop and commit ever sent was justified |
| `Runs.Perform` | src/monitor/hierarchy.rs:151-561 | each operation keeps a hierarchy in step unless its rollback fails |
| `Runs.OpenRunClose` | src/monitor/hierarchy.rs:151-240 | opening, starting and closing gives back the hierarchy found; on an idle kernel, the request runnable and completely staged, it never fails |
| `SnapshotQueries.SnapshotQueryConfiguration` | src/monitor/workflow.rs:623-669 | appends one private scheme per answer after the existing ones, each descriptor names its own scheme, and no target gets marked |
| `SnapshotQueries.QueryLooksAtItsScope` | src/monitor/workflow.rs:606-657 | a query looks at its own target alone, or at all of them, whatever their size, age and activity, only gathers statistics, and may run exactly when its target is among those kept |
| `SnapshotQueries.QueriesKeepRunnable` | src/monitor/workflow.rs:623-669 | a runnable configuration stays runnable with queries for targets it keeps |
| `SnapshotQueries.Monitor.MaterializeSnapshots` | src/monitor/workflow.rs:1175-1226 | two online updates around a refresh: `installed` names the configuration the session stands by and runs, until a rollback fails; Ok ends on the base configuration with results taken while the query was staged and run; an error never changes the cached results; on a hierarchy in order, both configurations runnable and completely staged, there always is an answer |
| `SnapshotQueries.ManySnapshots` | src/monitor/workflow.rs:1175-1226 | over any number of calls, with the session given up, threads dying and intervals retuned in between, the session stands by the configuration `installed` names and runs it until a rollback fails |
| `SnapshotQueries.UpdateExclusive` | src/monitor/session.rs:342-350 | Ok: the session stands by the request; any error but a failed rollback: it stands by what it stood by; a runnable request to a hierarchy in order, completely staged, is Ok |
| `SnapshotQueries.StartMonitor` | src/monitor/workflow.rs:489-517 | a monitor started from a fresh record stands by its base configuration and runs it; on an idle kernel a runnable base, completely staged, is started |
| `SnapshotQueries.MaterializeScoped` | src/monitor/workflow.rs:895-935 | Ok: one result per descriptor in order, everything owned found unchanged afterwards; nothing staged or run changes; in order it is Ok |
| `Standing.StandsAfterUndo` | src/monitor/hierarchy.rs:834-852 | an undone update leaves the session standing by what it stood by, even when it renewed its ownership |
| `Standing.StandsAndStages` | src/monitor/hierarchy.rs:755-814 | the staged tree of a session in step reads back as the configuration it stands by |
| `RuntimeBatches.VerifyRunning` | src/monitor/hierarchy.rs:603-607 | Ok: owned values in the kernel, then the kdamond seen on with its own pid; in order it is Ok |
| `RuntimeBatches.IssueRefresh` | src/monitor/runtime.rs:485-488 | a refresh is sent after the owned pid was read, and changes nothing staged or run; in order it is sent |
| `StagingRuns.StageEitherWay` | src/sysfs/configuration/staging.rs:784-811 | from the current readback or from nothing, success leaves a readback the request is equivalent to, on every kernel; a supported request fails only on a write that failed of itself |
| `Support.ReadIsSupported` | src/sysfs/configuration/staging.rs:592-750 | a configuration that any staged nodes read back as, and whose lists can be counted, is supported, on kernels with both split filter directories or neither: so on a steady one staging succeeds exactly when some nodes read back as the request |
| `StagingRuns.StageFrom` | src/sysfs/configuration/staging.rs:788-811 | one attempt, stopped at any write, leaves the nodes ready for the same attempt again; a supported request is stopped only by a write that failed of itself |
| `StagingRuns.RetryStageFrom` | src/monitor/ownership.rs:26-29 | retries with the first, now stale, observation still reach an equivalent readback; a supported request never fails on a steady kernel |
| `StagingRuns.ReadyFrom` | src/sysfs/configuration/staging.rs:788-811 | an observation may be relied on whenever the staged nodes realise it |
| `StagingRuns.StageCleaned` | src/monitor/hierarchy.rs:786-809 | staging the cleaned configuration against the verified request reaches a readback equivalent to it, and on a steady kernel always does if that is supported |
| `StagingRuns.HierarchyIsReadback` | src/sysfs/configuration/staging.rs:766-777 | what the readers produce has no adaptive filter and has layers in reading order |
| `StagingRuns.StageKdamond` | src/sysfs/configuration/staging.rs:841-875 | per kdamond: ready again after any failure, realised after success |
| `StagingHierarchy.StageContext` | src/sysfs/configuration/staging.rs:113-250 | per context, including absent attributes staged only at their neutral value |
| `StagingHierarchy.StageScheme` | src/sysfs/configuration/staging.rs:592-678 | per scheme, with filters and patterns compared up to kernel normalisation |
| `StagingHierarchy.StagePattern` | src/sysfs/scheme/mod.rs:58-70 | Ok: the pattern stored is equivalent to the request, also on a kernel with 32-bit sizes, where the 64-bit maximum is never stored; only a write that fails of itself can fail it |
| `StagingHierarchy.StageFilter` | src/sysfs/configuration/attributes/filter.rs:147-218 | Ok: the filter reads back as requested, in its layer |
| `StagingHierarchy.StageSemanticFilters` | src/sysfs/configuration/staging.rs:680-750 | for any filter list and any of the three directories present: core holds the filters placed there and the adaptive address, target and weighted-sum ones, operations those placed there and every other adaptive one, unified those placed there, each in order; without split directories no filter placed in one is accepted; reading back gives the canonical form; with a directory for every filter only an access fails it |
| `StagingHierarchy.SplitReadsBack` | src/sysfs/configuration/staging.rs:545-580 | an adaptive filter on a split kernel makes the readback look split |
| `StagingHierarchy.ReadFiltersIsReadback` | src/sysfs/configuration/staging.rs:570-580 | layers always read in canonical order |
| `Staging.EnsureCount` | src/sysfs/configuration/helpers.rs:20-26 | children are rebuilt only when their number differs |
| `Staging.StageTarget` | src/sysfs/configuration/staging.rs:279-320 | per target, with regions written one by one only where they differ |
| `Staging.StageProbe` | src/sysfs/configuration/staging.rs:370-413 | per probe |
| `Staging.StageQuota` | src/sysfs/configuration/attributes/quota.rs:198-262 | per quota, including options absent from the kernel |
| `Staging.StageWatermarks` | src/sysfs/configuration/attributes/watermark.rs:79-103 | per set of watermarks |
| `Equivalence.NormalizationDecidesEquivalence` | src/sysfs/configuration/model/hierarchy.rs:71-91 | rewriting the request towards the readback decides the equivalence exactly, on everything the readers can produce |
| `FilterLayout.CanonicalizeFilterPlacements` | src/sysfs/configuration/helpers.rs:44-75 | in place, the canonical order is the layers one after another |
| `FilterLayout.CanonicalByType` | src/sysfs/configuration/helpers.rs:44-75 | which filters the canonical form puts where, told from placements and filter types alone |
| `Validity.PlaceKeepsValid` | src/sysfs/configuration/staging.rs:693-698 | a valid filter is valid in the directory an adaptive placement gives it |
| `FilterLayout.SortInPlace` | src/sysfs/configuration/helpers.rs:67-74 | the stable sort by layer is the concatenation of the layers |
| `FilterLayout.LayeredOfLayers` | src/sysfs/configuration/helpers.rs:32-75 | three lists of one layer each are already in that order |
| `FilterLayout.FiltersMatchTransitive` | src/sysfs/configuration/helpers.rs:32-42 | matching composes through an intermediate observation |
| `ReceiptCodec.DecodedPrintsBack` | src/monitor/persistent.rs:121-255 | whatever decodes is acceptable and prints as exactly the bytes it came from |
| `ReceiptCodec.RoundTrip` | src/monitor/persistent.rs:121-255 | an acceptable receipt decodes back to itself if and only if its kdamond count is at most 8 plus 12 per identity |
| `ReceiptCodec.PrintedLayout` | src/monitor/persistent.rs:121-150 | one whole receipt with a running kdamond, as literal bytes: magic, version, lengths and texts, values, volatile paths, count, and the identity with its index in eight bytes before its pid in four |
| `ReceiptCodec.NineStoppedKdamonds` | src/monitor/persistent.rs:205-210 | nine stopped kdamonds: an acceptable receipt that prints to bytes the decoder refuses |
| `ReceiptCodec.PrefixFreedom` | src/monitor/persistent.rs:153-255 | no accepted byte string is a proper prefix of another |
| `ReceiptDecoder.ToBytes` | src/monitor/persistent.rs:121-150 | the growing buffer is the specified printing |
| `ReceiptDecoder.FromBytes` | src/monitor/persistent.rs:153-255 | the decoder that advances an offset computes the specified decoding, errors included |
| `ReceiptDecoder.Decoder.ReadCount` | src/monitor/persistent.rs:676-686 | a count is accepted exactly when it does not exceed the bytes left |
| `ReceiptDecoder.Decoder.ReadIdentities` | src/monitor/persistent.rs:212-240 | accepts exactly the ordered, in-range identity lists with positive 31-bit pids |
| `ReceiptDecoder.ValidateConfiguration` | src/monitor/persistent.rs:441-486 | accepts exactly sorted distinct values, ordered volatile paths, the recorded count and the volatile paths the values imply |
| `ReceiptDecoder.RecordsCount` | src/monitor/persistent.rs:460-477 | the binary search finds the recorded kdamond count |
| `Receipts.ExpectedVolatilePaths` | src/monitor/persistent.rs:488-545 | one pass finds exactly the interval leaves of the tuned contexts, or refuses unreadable goals |
| `CapturedReceipts.FromWritableValues` | src/sysfs/ownership.rs:247-284 | accepts exactly ordinary, distinct relative paths and rebuilds a sorted capture with those values |
| `CapturedReceipts.WritableValuesInvert` | src/sysfs/ownership.rs:231-284 | rebuilding a capture from its own writable values gives that capture |
| `CapturedReceipts.WritableValuesAccepted` | src/sysfs/ownership.rs:231-284 | a capture's writable values are always accepted |
| `CapturedReceipts.VolatileFromRawValues` | src/monitor/ownership.rs:151-177 | the volatile paths derived from the typed configuration are those re-derived from the raw values |
| `CapturedReceipts.CapturedReceiptIsConsistent` | src/monitor/persistent.rs:53-82 | a capture whose readback realises the request, retuned intervals apart, gives a receipt that passes all cross-field checks of the decoder |
| `CapturedReceipts.OwnedReceiptIsConsistent` | src/monitor/persistent.rs:53-82 | whatever a session in step owns, after opening, restaging, online updates, goal updates or undone ones, gives a receipt that passes all cross-field checks of the decoder |
| `CapturedReceipts.OwnedCapture` | src/monitor/ownership.rs:151-177 | the owned capture itself shows the tuning that makes the owned leaves volatile |
| `TuningGoals.AdoptTunedKeepsGoals` | src/monitor/hierarchy.rs:1171-1202 | adopting retuned intervals leaves every tuning goal alone |
| `TuningGoals.TunedAsKept` | src/monitor/ownership.rs:151-177 | what is volatile depends only on the counts of kdamonds and contexts and on the tuning goals, not on the intervals themselves |
| `TuningGoals.TunedAsIsUnique` | src/monitor/ownership.rs:151-177 | a tree determines which leaves are volatile and how many kdamonds there are |
| `Attachment.RunningIsValid` | src/monitor/hierarchy.rs:468-490 | the identities recorded are ordered, distinct, in range, and name exactly the running kdamonds |
| `Attachment.AttachStates` | src/monitor/hierarchy.rs:440-455 | accepts exactly ordered in-range identities, and then exactly those kdamonds are running under their pids |
| `Attachment.AttachRestoresStates` | src/monitor/hierarchy.rs:433-490 | identified session states survive being recorded and attached |
| `Attachment.AttachKeepsIdentities` | src/monitor/hierarchy.rs:433-490 | identities survive being attached and recorded again |
| `PersistentSessions.OutsideDecides` | src/sysfs/ownership.rs:105-113 | comparing two captures entry by entry outside the ignored set compares the trees, missing and added leaves included |
| `PersistentSessions.VerifyComplete` | src/monitor/ownership.rs:206-217 | Ok: the kernel holds exactly the recorded leaves; undisturbed it fails only on an access when that is so |
| `PersistentSessions.AttachPersistent` | src/monitor/persistent.rs:276-298 | Ok: a session owning what the receipt says, each kdamond just seen as recorded; otherwise nothing but reads; a kernel that is as recorded is attached to, in order |
| `PersistentSessions.CaptureParts` | src/monitor/persistent.rs:53-70 | Ok: the receipt says what the session owns, all of it just seen in the kernel; a hierarchy in order can always be recorded |
| `PersistentSessions.AttachAndUpdate` | src/monitor/persistent.rs:346-369 | attached to a kernel as recorded, an acceptable update is done and leaves the hierarchy in order |
| `PersistentSessions.AttachedHierarchy.UpdateSelected` | src/monitor/persistent.rs:346-369 | all or nothing, and unless the outcome is uncertain the receipt describes what is left; uncertain leaves the old receipt; identities never change; from a kernel as recorded an acceptable update, completely staged, is done and the kernel is as the new receipt records |
| `PersistentSessions.AttachedHierarchy.Stop` | src/monitor/persistent.rs:375-397 | the receipt names exactly the kdamonds seen running afterwards, none after success, and none it did not name before; from a kernel as recorded everything is stopped and the kernel is as the new receipt records |
| `Alignment.ValidateKernelAligned` | src/sysfs/configuration/helpers.rs:226-259 | for non-empty regions, accepts exactly when every rounded end fits 64 bits and all rounded regions, pairwise, are ordered and disjoint |
| `Alignment.RoundingCovers` | src/sysfs/configuration/helpers.rs:240-250 | the rounded region is the smallest aligned one that covers the original |
| `Alignment.ApartMeansNoSharedBlock` | src/sysfs/configuration/helpers.rs:226-259 | for ordered regions, accepts exactly when nothing overflows and no two regions reach into one block |
| `Alignment.PhysicalRounding` | src/sysfs/configuration/helpers.rs:218-224 | for physical addresses the smallest region is as many units as fit a page, at least one; where units divide the page, rounding units is rounding bytes to pages |
| `Validity.ValidateWeightedProbes` | src/sysfs/configuration/model/context.rs:224-260 | checked products and sums, probe by probe, accept exactly the bounded total |
| `Validity.MaximumHitsFit` | src/sysfs/configuration/model/context.rs:224-236 | the samples counted are as many as fit an aggregation interval, within one and 32 bits |
| `Validity.WeightsFitHits` | src/sysfs/configuration/model/context.rs:224-260 | the weights accepted are exactly those with which no possible hit counts of a region sum to more than 32 bits |
| `Validity.RetainedInOrder` | src/monitor/hierarchy.rs:1161-1169 | the targets kept are the non-obsolete ones, each once and in order |
| `Validity.ObsoleteRemovalKeepsRunnable` | src/monitor/hierarchy.rs:1152-1169 | an accepted running update with every affected kdamond selected is runnable once obsolete targets are gone, and its target filters stay in range |
| `Validity.FilterIndexKeepsTarget` | src/monitor/hierarchy.rs:1161-1169 | a target filter still names its target if and only if no target up to it was removed |
| `Validity.FilterNamesAnother` | src/monitor/hierarchy.rs:1161-1169 | with the first of two targets removed, index 0 is still in range and names the other |
| `ExampleKernel.SmallIsValid` | src/sysfs/test_backend/state.rs:163-240 | a small kernel with the directories and counts of DAMON meets everything assumed of a kernel layout |
| `ExampleKernel.SmallHasDamonNames` | src/sysfs/test_backend/state.rs:163-240 | its names are those receipts rely on |
| `ExampleReaders.ReadersExist` | src/monitor/hierarchy.rs:1152-1169 | on any kernel layout, a settling that really drops marked targets and typed readers that understand them obey every law assumed of readers |
| `ExampleReaders.MarkedIsRead` | src/monitor/hierarchy.rs:1152-1169 | and those readers do read hierarchies with marked targets |
| `ExampleViews.ViewsExist` | src/sysfs/configuration/model.rs:153-176 | on any kernel layout there is a lawful view of goals, under which exactly the goals that fit their metric, unknown ones under no known name, survive being written and read |

## Left out

- SysfsModel.Sysfs.Capture: a capture is one atomic step; the walk over directories and the reads of single files are not interleaved with other controllers, whose changes fall before or after it.
- SysfsModel.Sysfs.Compare: values are compared as they are captured, without the newline sysfs appends; the tolerance for it is in `ValueComparison`.
- Updates.StageFrom: within an online update a kdamond's staging is any sequence of writes below it, of its target leaves when nothing else differs, given up anywhere, which includes what differential staging does; that it realises the request is proved in `StagingRuns`, on typed nodes handed on as values rather than on the shared tree.
- Transactions.StageAndVerify: here too staging is any sequence of writes, and the readback decides.
- StagingRuns.StageFrom: presence of an optional attribute is one property of a kernel, the same in every directory; a known filter type whose own payload file is missing is not modelled.
- Support.ReadIsSupported: on a kernel with one split filter directory and not the other, an adaptive filter may read back from the unified directory that staging would refuse.
- OnlineUpdates.UpdateConfiguration: the claims about values need an `exclusive` kernel; the leaves the kernel retunes by itself are one fixed set, and claims that no value check can fail need it inside the session's volatile paths. That an acceptable update succeeds is claimed with nothing being retuned: the source compares fresh captures with nothing ignored, and those then may differ.
- OnlineUpdates.Prepare: a kdamond count that changes between the ownership check and the read would index out of range in the source; here it is an error.
- GoalUpdates.UpdateSchemeQuotaGoals: the texts of metrics and integers, and the typed reader of a quota, are parameters; goals are read leaf by leaf as the source does, but in one access. Success is claimed with nothing being retuned, as for online updates.
- QuotaGoals.CheckElsewhere: ignored paths are a set, searched by membership; the source keeps a sorted list.
- SnapshotQueries.Monitor.MaterializeSnapshots: the regions read after a refresh are whatever the kernel says; address units, capacity hints and timing of results are not modelled, nor is probing for the query before the monitor starts.
- PersistentSessions.AttachedHierarchy.UpdateSelected: the receipt is its typed content; its path encoding and cross-field checks are in `ReceiptCodec` and `CapturedReceipts`. Identifiers of the running system and the lock path are not compared. What an attached kdamond was running beforehand is not known, so no step invariant is claimed for it.
- Validity.ObsoleteRemovalKeepsRunnable: fixed-width fields hold values of their width by type in the source and are unbounded here where no check depends on it.
- Directories, read-only attributes and runtime files (`state`, `pid`, `stats`, `tried_regions`) are not leaves of the tree; state and pid are read through the thread table.
- Decimal printing and parsing, trimming, UTF-8 and platform strings: a lawful pair of parameters, and texts as sequences of characters or bytes.
- The typed readers of the whole staged tree and of one kdamond's target leaves, and what the kernel makes of committed target leaves, are parameters of `Sysfs` and `Schema` that must agree with each other, with the counts and with the tuning goals (`ReadersLawful`).
- File access, permissions, the advisory lock (held throughout), sleeping between retries, threads and channels of background snapshots.
- Starting a persistent hierarchy, cleanup when a session value is dropped, preparing the snapshot query before a monitor starts: sequences of the operations proved here with best-effort cleanup.
- Passive capability discovery, builders, getters, display texts, kernel name tables and single-attribute handles: they would only add easy members.
- The payloads of errors: paths, expected and observed texts, reasons.
