# Verified model of the backup and restore operator

This project models the parts of the operator in which a mistake would lose or overwrite somebody's data, and proves
what they promise. `dafny verify dfyconfig.toml` checks all of it.

Each file follows one source file or component. Code that works step by step is modelled as methods and classes with
loops over the same state, proved equal to a specification function; the theorems are then about those functions, over
all inputs and all runs. Crashes are possible between any two requests: a step is the list of its effects, a crash keeps
a prefix of the list, and the status patch at the end of a reconcile is what the next reconcile starts from. Go's map
iteration is an arbitrary choice of the next key, so nothing proved depends on it.

| file | models |
|---|---|
| `Basics.dfy`, `Sorting.dfy` | shared definitions; the sorts, their stability, and when a result does not depend on input order |
| `ByteStreams.dfy`, `Encryption.dfy` | readers with short reads; the chunked AES-GCM stream |
| `Checksum.dfy`, `Archive.dfy` | the checksum manifest; packing and extracting a payload tree |
| `Repository.dfy`, `CommitProtocol.dfy` | packages in a repository; the upload and deletion protocols around `.done` |
| `BackupController.dfy`, `BackupSystem.dfy` | the phase machine of a backup task; the machine together with its package and record |
| `EndToEnd.dfy`, `Lifecycle.dfy` | from the packaged payload to the extracted one; the checksum on its way through status and record |
| `Conflict.dfy`, `References.dfy`, `Plan.dfy`, `Stages.dfy` | conflict policies, reference rewriting, the restore plan and its stages |
| `Restorer.dfy`, `RestoreRun.dfy`, `Settling.dfy`, `CrashIdempotence.dfy`, `RenameFollowing.dfy`, `RestoreController.dfy` | applying a plan: effects, frame, precheck, repetition, renames, progress counters |
| `WholeRestore.dfy` | the restore results for the plan of an index, over all four stages |
| `Scheduler.dfy`, `PolicyController.dfy`, `PolicyConcurrency.dfy` | due instants and task names; the policy controller's loop over many reconciles, and what one of them creates, skips and stops |
| `Retention.dfy` | which records are deleted |
| `Admission.dfy` | defaulting and the freeze-once rule |

## Main results

- **Commit point.** After every single repository operation of every run of uploads, crashes and record deletions, a
  `.done` marker stands for an intact package (`MarkerMeansIntact`). A task gets past Uploading only over an intact
  package that holds its archive, even when the repository is tampered with (`VerifiedWasIntact`); that the code's
  reconcile does only what such runs allow is the contract of `ReconcileTask`.
- **End to end.** Over every run from the first reconcile of a task to a restore, a restore past Downloading has extracted
  exactly the packaged payload, or somebody has two archives with one digest (`EveryRestoreIsThePayload`); that a task
  packages once, and a record comes only afterwards, is derived from the phase machine. SHA-256 is not assumed to be
  injective, which no function onto 64 digits is.
- **Stream.** Decryption inverts encryption; accepted streams are exactly the whole-chunk prefixes of encrypted plaintexts.
- **Restore.** Frame over whole interrupted restores (`RestoreFrame`, `OwnPolicyProtects`, `NothingIsDeleted`); what one
  Apply leaves under each policy (`AbsentIsCreated`, `ExistingIsKept`, `ExistingIsOverwritten`, `ExistingIsCopied`); over a whole plan, precheck finds nothing blocked
  exactly when no Apply meets a conflict it cannot resolve (`PrecheckDecides`); crash idempotence of a stage
  (`CrashIdempotentIff`) and of all four stages of a plan (`PlanIdempotentIff`), each exactly; plan order, stage partition
  and plan determinism; references follow renames (`PlanReferencesFollow`).
- **Scheduling.** At most one task per instant, disjoint windows, the concurrency policies over all runs, what a completed
  reconcile does under each (`ForbidRunsFirst`, `AllowRunsAll`, `ReplaceRunsLast`), which instants are due (`DueIff`), and
  exactly-once coverage under RunAll and Allow.
- **Phase machine.** Monotone progress, exact checkpoints, a commit point that only deletion of the task object overrides,
  termination within 10 + max(1, maxAttempts) working reconciles, retries exactly while attempts are left, failure exactly
  after a timeout, a final error or the last attempt (`FailedIff`), bounded retry delays.
- **Retention** refines one closed form, which is exact record by record (`SelectedIff`). **Admission** freezes a spec once; on the policy path, where the controller makes
  the task from a defaulted policy, the hash check then always passes.

## Where the code does not do what it promises

Each of these is proved with its exact condition; the lemma named in brackets shows an input at which it goes wrong.

- `Checksum.RoundTripIff` (`CarriageReturnIsLost`), `CutoffExactIff` (`CutoffWraps`), `DelayExactIff` (`DelayWraps`),
  `NoncesDistinctIff` (`NonceRepeats`): the ranges in which the manifest, the arithmetic and the nonces of one stream are
  exact. The first is a limit of the two checksum functions only: an upload writes manifests of four fixed names, which
  always read back (`ManifestReadsBack`).
- `RemovedFileIff` (`UnlistedFilesGoUnnoticed`): the package check reads the list of files from the manifest itself, so a
  package whose manifest leaves a file out passes without that file.
- `LatestIff` (`LateByAMinute`): with more than a thousand instants in the window the newest are passed over, under every
  policy for missed runs, unless Skip drops everything. A schedule by the minute gets there only under a starting deadline
  of more than 1000 minutes; under the default of an hour it does not.
- `PlanDeterministicIff` (`MergedNamespacesDiffer`): two namespaces that map to one missing target make the plan depend on
  map iteration order.
- `CrashIdempotentIff` (`SlowDeletionLosesTheObject`, `DefinitionAndResourceInOneStage`): a deletion that is accepted but
  not observed in time loses the object until the next attempt; and an item whose API mapping comes with another item of
  its stage fails in an uninterrupted run, and is restored by a second attempt.
- `RepeatedApplyIff` (`FailMeetsItsOwnObject`): after a crash, items created before it meet their own objects as conflicts.
- `EveryItemProcessed` (`MissingObjectUnbalances`): verification counts a missing object as failed without counting it as
  processed, once per patch.
- `RepeatCancelsOwnTaskIff` (`RepeatedRunIsLost`): under Replace, a reconcile repeated after a crash asks the task it has
  just created to stop, as long as something is still due.
- `RestoreIff` (`SwitchedOnTooLate`): the record takes its encryption settings from the repository when it is generated, not
  from packaging; if they were changed in between, every restore of that record fails (safely).
- `Admission.ValidateUpdate` (`UpdateThatPanics`): an early update that sets the hash and removes the spec makes the code
  dereference the missing spec.
- `ControllerUpdateIff` (`PresetHashIsStuck`): a task created with a hash and without the identity of its repository is
  admitted, and then no fill-in by the controller is.

## Model

| member | source | states |
|---|---|---|
| `Sorting.SortFacts` | internal/checksum/checksum.go:81-87 | the sort every sorted list here is specified by is ordered and a permutation |
| `Sorting.SortIsStable` | internal/restore/plan.go:99-104 | tied elements keep their input order |
| `Sorting.SortIgnoresInputOrder` | internal/checksum/checksum.go:51-62 | without ties the result depends on the elements only, not on map iteration order |
| `Sorting.SortIgnoresTailOrder` | internal/restore/plan.go:84-104 | a distinct tail may be permuted without changing the sorted list |
| `Checksum.SortStrings` | internal/checksum/checksum.go:81-87 | the in-place insertion sort leaves the sorted permutation of what the array held |
| `Checksum.SiftDown` | internal/checksum/checksum.go:81-87 | the inner loop inserts one element into the sorted part and leaves the rest alone |
| `Checksum.Manifest` | internal/checksum/checksum.go:51-62 | for every map iteration order the text lists the sorted names with their digests |
| `Checksum.ParseManifest` | internal/checksum/checksum.go:64-79 | the scanner loop computes the line-by-line parse, with its errors for bad and over-long lines |
| `Checksum.ParseLineIff` | internal/checksum/checksum.go:67-76 | a line reads exactly when it is 64 hex digits of either case, two spaces and a non-empty name; its digest is stored in lower case |
| `Checksum.FirstLineDecides` | internal/checksum/checksum.go:67-79 | a manifest is refused at the first line that does not read, and a line that reads adds its entry |
| `Checksum.EqualFoldOnDigests` | internal/checksum/checksum.go:43-49 | on lower-case digests the case-insensitive comparison is equality |
| `Checksum.RoundTrip` | internal/checksum/checksum.go:51-79 | parsing a written manifest returns the map, for well-formed entries |
| `Checksum.RoundTripIff` | internal/checksum/checksum.go:51-79 | the round trip holds exactly for maps of non-empty names without newline or final carriage return, lower-case digests and lines within the scanner buffer |
| `Checksum.CarriageReturnIsLost` | internal/checksum/checksum.go:51-79 | a name that ends in a carriage return does not come back |
| `ByteStreams.BigEndianRoundTrip` | internal/encryption/aesgcm.go:52-57 | fixed-width big-endian numbers read back |
| `ByteStreams.Reader.ReadFull` | internal/encryption/aesgcm.go:76-118 | short reads do not show: the result is the next bytes of the stream |
| `Encryption.NonceInjective` | internal/encryption/aesgcm.go:132-137 | nonces are equal exactly when prefix and counter are |
| `Encryption.NoncesDistinctIff` | internal/encryption/aesgcm.go:37-68 | the nonces of a stream are pairwise distinct exactly up to 2^64 chunks |
| `Encryption.NonceRepeats` | internal/encryption/aesgcm.go:132-137 | chunk 2^64 repeats the nonce of the first |
| `Encryption.Encrypt` | internal/encryption/aesgcm.go:22-69 | the output depends on key, prefix and plaintext only, not on how the reader delivers it; other key lengths are refused |
| `Encryption.Decrypt` | internal/encryption/aesgcm.go:71-119 | writes exactly the chunks that authenticate up to the first failure, and accepts exactly complete streams |
| `Encryption.RoundTrip` | internal/encryption/aesgcm.go:22-119 | decryption inverts encryption for every plaintext, key and prefix |
| `Encryption.AcceptedIsChunkPrefix` | internal/encryption/aesgcm.go:71-119 | with an ideal AEAD and distinct prefixes an accepted stream is a whole-chunk prefix of one encrypted plaintext |
| `Encryption.EveryChunkPrefixIsAccepted` | internal/encryption/aesgcm.go:71-119 | and every such prefix is accepted: truncation at a chunk boundary goes unnoticed by the stream alone |
| `Archive.Create` | internal/archive/archive.go:21-113 | rejects trees with symbolic links, otherwise writes one entry per path in name order |
| `Archive.ArchiveIsDeterministic` | internal/archive/archive.go:21-113 | the archive does not depend on the order of the directory walk |
| `Archive.Extract` | internal/archive/archive.go:115-180 | the loop computes entry-by-entry extraction with its limit and path checks |
| `Archive.UnsafeIff` | internal/archive/archive.go:139-151 | an entry is refused as unsafe exactly when its name is empty, absolute, or climbs above the destination on its way |
| `Archive.ExtractStaysInside` | internal/archive/archive.go:127-165 | for arbitrary archive entries, and however extraction ends, nothing is created outside the destination |
| `Archive.FailedEntryCreatesNothing` | internal/archive/archive.go:137-172 | an entry that fails leaves the destination as it was, although the directories above a file are made before the file is opened |
| `Archive.RoundTripIff` | internal/archive/archive.go:21-180 | extracting a created archive returns the tree exactly when its files fit the limit, and fails otherwise |
| `Archive.RoundTripWithin` | internal/archive/archive.go:115-118 | and no limit, or a negative one, means 20 GiB |
| `Retention.CutoffExactIff` | internal/retention/retention.go:32-34 | the age cutoff is the intended moment exactly up to 106751 days |
| `Retention.CutoffWraps` | internal/retention/retention.go:32-34 | at 106752 days the cutoff lies in the future |
| `Retention.DeleteCount` | internal/retention/retention.go:13-50 | the closed form: never more than there is, never below the minimum number of copies |
| `Retention.Mark` | internal/retention/retention.go:22-39 | the two marking passes mark exactly an oldest-first prefix |
| `Retention.Select` | internal/retention/retention.go:13-50 | selects exactly the oldest-first prefix whose length is the closed form |
| `Retention.CountedIff` | internal/retention/retention.go:15-20 | the records that are counted are exactly those without protection in status or annotation and neither under verification nor being deleted |
| `Retention.SelectedAreFree` | internal/retention/retention.go:13-54 | no selected record is protected in status or annotation, under verification or being deleted |
| `Retention.SelectedIff` | internal/retention/retention.go:22-50 | in creation order a record goes exactly when more than the minimum are left from it on, and they are too many or it is too old |
| `Retention.SelectionIsSafe` | internal/retention/retention.go:13-54 | selected records are eligible, no survivor is older, and enough copies remain |
| `Retention.SelectionIsIdempotent` | internal/retention/retention.go:13-50 | on the survivors the same policy at the same time selects nothing |
| `Retention.SelectionGrows` | internal/retention/retention.go:30-39 | for a fixed order the selection grows with time |
| `References.RewriteValue` | internal/restore/restorer.go:184-224 | gives the specified tree for every order in which the maps deliver their keys |
| `References.RewriteAt` | internal/restore/restorer.go:184-224 | keeps every place and value of the tree but for recognised reference fields, which get the name the rename map holds |
| `References.RecognisedFields` | internal/restore/restorer.go:190-217 | which string fields are references and to which kind, by key and enclosing key; every other string stays |
| `References.RenamedReference` | internal/restore/restorer.go:184-224 | a recognised reference to a renamed object names the copy |
| `References.EmptyRenames` | internal/restore/restorer.go:178-183 | with nothing renamed the object is unchanged |
| `Plan.BuildPlan` | internal/restore/plan.go:43-112 | the result is the sorted plan of the index for some iteration order of the namespace targets |
| `Plan.RestoredIff` | internal/restore/plan.go:52-82 | an entry has an item exactly when claims, inclusion, exclusion and scope admit it; the item is the same object in the namespace its own is mapped to |
| `Plan.PlanFollowsKinds` | internal/restore/plan.go:99-157 | in every plan Namespaces, definitions, storage classes, accounts, secrets, config maps, roles, claims, services and workloads follow one another |
| `Plan.ValidateNamespaceMapping` | internal/restore/plan.go:178-190 | accepts exactly the mappings with non-empty names and distinct targets |
| `Plan.PlanDeterministicIff` | internal/restore/plan.go:84-110 | the plan, and so its hash, is the same for every iteration order exactly when no two namespaces needing a synthetic item share a target |
| `Plan.MergedNamespacesDiffer` | internal/restore/plan.go:84-110 | two namespaces mapped to one by a valid mapping give two different plans |
| `Plan.NamespaceComesFirst` | internal/restore/plan.go:84-104 | every namespaced item has an earlier Namespace item for its target namespace |
| `Plan.OrdersAscend` | internal/restore/plan.go:99-157 | items ascend in restore order, and carry the order of their kind |
| `Plan.PlanTargetsDistinct` | internal/restore/plan.go:52-104 | with an injective mapping no two items have the same target |
| `Stages.PartitionIff` | internal/controller/restore_controller.go:556-569 | the four stages apply every item exactly once exactly when kinds are in their proper scope |
| `Stages.PlansAreProper` | internal/controller/restore_controller.go:556-569 | which holds for plans of well-formed indexes |
| `Stages.PlanExecutionOrder` | internal/controller/restore_controller.go:125-138 | across the stages Namespaces come first, CRDs before everything else, claims before other namespaced items |
| `Stages.StageTargetsDistinct` | internal/controller/restore_controller.go:351-355 | the items of one stage have distinct targets when those of the plan have |
| `Restorer.ResourceRestorer.AvailableName` | internal/restore/restorer.go:121-136 | the loop computes the specified free name |
| `Restorer.FreeNameIff` | internal/restore/restorer.go:121-136 | the name is the first free of the ten candidates, and there is none exactly when all are taken |
| `Restorer.ResourceRestorer.ApplyItem` | internal/restore/restorer.go:39-119 | one Apply has exactly the specified effects on cluster and rename map, for every answer of the API server |
| `Conflict.DecidesIff` | internal/restore/conflict.go:17-28 | the entry for the resource decides, else one for the name before its first dot, else the default; empty entries do not count and no default means Skip |
| `Restorer.AbsentIsCreated` | internal/restore/restorer.go:66-79 | an absent target is created as sent, whatever the policy |
| `Restorer.ExistingIsKept` | internal/restore/restorer.go:72-81 | under Skip an existing target is left alone; under Fail, an unsupported Rename or any other word the item is unresolved |
| `Restorer.ExistingIsOverwritten` | internal/restore/restorer.go:82-98 | under Overwrite exactly the sent object is left; where the update is refused it is deleted and created anew only with both confirmations and for kinds that allow it |
| `Restorer.ExistingIsCopied` | internal/restore/restorer.go:99-113 | under Rename the object stays, and a copy is created under a free name derived from its own and recorded |
| `RestoreRun.EffectsAreLocal` | internal/restore/restorer.go:66-118 | every request writes a free key, or the item's own target under Overwrite |
| `RestoreRun.RestoreFrame` | internal/controller/restore_controller.go:351-382 | after any prefix of a restore with crashes and repeated stages, objects not targeted under Overwrite are unchanged |
| `RestoreRun.OwnPolicyProtects` | internal/restore/conflict.go:17-28 | an object whose own resource policy is not Overwrite is unchanged after any prefix of any restore, whatever the default |
| `RestoreRun.NothingIsDeleted` | internal/restore/restorer.go:82-98 | without both confirmations, and for namespaces, definitions, claims, volumes, secrets and accounts even with them, no prefix of a restore deletes an object |
| `RestoreRun.StageIsRun` | internal/controller/restore_controller.go:337-399 | a stage that runs to its end is such a sequence of calls |
| `RestoreRun.Precheck` | internal/controller/restore_controller.go:292-335 | counts the targets that exist and those whose policy refuses, and fails on unmapped kinds without CRDs in the plan |
| `RestoreRun.PassedMeansResolvable` | internal/controller/restore_controller.go:303-332 | precheck counts nothing blocked exactly when every existing target is resolvable |
| `RestoreRun.PlanIsOneRestore` | internal/controller/restore_controller.go:351-355 | a run over the plan of a well-formed index has distinct targets and one kind per resource |
| `RestoreRun.PrecheckIsSound` | internal/controller/restore_controller.go:303-332 | after a passed precheck no Apply of an uninterrupted restore meets an unresolvable conflict, although the run creates and renames objects |
| `RestoreRun.PrecheckIsTight` | internal/controller/restore_controller.go:303-332 | every conflict precheck refuses would be met |
| `RestoreRun.RepeatedApplyIff` | internal/restore/restorer.go:66-72 | an item created before a crash is unresolved at any later repetition exactly when its policy refuses existing targets |
| `RestoreRun.FailMeetsItsOwnObject` | internal/restore/conflict.go:30-49 | under Fail a repeated item meets the object it created itself |
| `Settling.RunOnIsRunTo` | internal/controller/restore_controller.go:351-382 | the stage run under a deterministic server is the restorer's stage run |
| `Settling.SettleAgainIff` | internal/restore/restorer.go:72-98 | repeating one item changes nothing exactly when it is not stuck in an unobserved deletion |
| `Settling.SameEndIff` | internal/controller/restore_controller.go:351-382 | two clusters lead to the same end exactly when every item settles alike and the rest is equal |
| `CrashIdempotence.CrashKeepsEnd` | internal/controller/restore_controller.go:337-399 | with nothing stuck and nothing late, a crash at any effect does not change where the stage ends, and nothing becomes stuck or late |
| `CrashIdempotence.CrashIdempotentIff` | internal/controller/restore_controller.go:337-399 | under Skip and Overwrite, crashed attempts followed by a whole one leave what one run leaves, exactly when at the start no item is stuck and none is late: not prepared, but prepared once the stage has created its objects, and then changing its target |
| `CrashIdempotence.SlowDeletionLosesTheObject` | internal/restore/restorer.go:82-98 | an object that refuses updates and is slow to go is lost by one attempt and restored by the next |
| `CrashIdempotence.DefinitionAndResourceInOneStage` | internal/controller/restore_controller.go:395-399 | API mappings are refreshed only after the stage, so a custom resource in the stage of its definition is late, and a second attempt restores what the first could not |
| `RenameFollowing.RenameKeyInjective` | internal/restore/restorer.go:160 | without slashes the rename key identifies kind, namespace and name |
| `RenameFollowing.RenameIsKept` | internal/restore/restorer.go:99-113 | a recorded rename stays in the map for the rest of the stage |
| `RenameFollowing.ReferencesFollowRenames` | internal/restore/restorer.go:50-57 | in an uninterrupted stage without transformation, recognised references to a renamed object of smaller order name the copy |
| `WholeRestore.PrecheckDecides` | internal/controller/restore_controller.go:292-382 | for a whole run over the plan of a well-formed index whose objects load, precheck finds nothing blocked exactly when no Apply is unresolved |
| `WholeRestore.PlanPrecheckIsSound` | internal/controller/restore_controller.go:292-382 | and for the beginning of a run, whether objects load or not, a passed precheck leaves no Apply unresolved |
| `WholeRestore.StagesIdempotentIff` | internal/controller/restore_controller.go:125-138 | whatever attempts at whatever stages die, a restore leaves what it leaves without crashes, exactly when no stage has a stuck or late item when its turn comes |
| `WholeRestore.PlanIdempotentIff` | internal/controller/restore_controller.go:125-138 | the same for the four stages of the plan of a well-formed index |
| `WholeRestore.PlanReferencesFollow` | internal/restore/restorer.go:50-57 | in every uninterrupted stage of such a plan, recognised references to a renamed object of smaller order name the copy |
| `RestoreController.ApplyStage` | internal/controller/restore_controller.go:337-400 | applies exactly the stage's items in order and counts every outcome; a crash leaves the saved status alone; FailFast stops at the first failure |
| `RestoreController.TallyByKind` | internal/controller/restore_controller.go:356-382 | each counter counts its own kind of outcome |
| `RestoreController.VerifyRestore` | internal/controller/restore_controller.go:402-440 | waits exactly while an existing claim is unbound, else counts the missing objects and concludes |
| `RestoreController.MissingAndClaims` | internal/controller/restore_controller.go:407-431 | what is counted as missing and as claims, item by item |
| `RestoreController.RestoreCounts` | internal/controller/restore_controller.go:352-440 | along every run under Continue: processed is the finished stages' items, counters exceed it by the missing objects counted in verification, and the task is Completed exactly when nothing failed or was missing |
| `RestoreController.EveryItemProcessed` | internal/controller/restore_controller.go:352-382 | after the last stage processed equals total; the identity processed = created + updated + skipped + renamed + failed holds exactly when verification counted nothing missing |
| `RestoreController.MissingObjectUnbalances` | internal/controller/restore_controller.go:418-424 | one Namespace that vanishes before verification is processed once and accounted for twice |
| `Scheduler.InstantsAreAll` | internal/scheduler/scheduler.go:53-61 | walking from instant to instant finds every firing instant of the window and nothing else |
| `Scheduler.DueTimes` | internal/scheduler/scheduler.go:45-82 | the loop of at most a thousand steps computes the specified due list |
| `Scheduler.DueInWindow` | internal/scheduler/scheduler.go:45-82 | due instants fire, lie after the last evaluation and within the deadline |
| `Scheduler.WindowIff` | internal/scheduler/scheduler.go:49-61 | the window holds exactly the firing instants after the last evaluation and within the deadline |
| `Scheduler.DueIff` | internal/scheduler/scheduler.go:62-81 | of the instants found, RunAll takes the newest up to the catch-up limit, Skip the newest if no more than a minute old, the others the newest |
| `Scheduler.LatestIff` | internal/scheduler/scheduler.go:53-81 | under every missed-run policy no instant is passed over for an earlier one exactly when the window holds at most a thousand instants, or Skip finds the thousandth more than a minute old |
| `Scheduler.LateByAMinute` | internal/scheduler/scheduler.go:45-61 | a schedule of every minute with a starting deadline of at least 1001 minutes, not looked at for 1001 minutes, runs the 1000th; under the default deadline of an hour it runs the latest |
| `Scheduler.RunAllIsComplete` | internal/scheduler/scheduler.go:74-78 | RunAll returns exactly the instants since the last evaluation when they fit deadline and limits |
| `Scheduler.TruncationIsHarmless` | internal/controller/policy_controller.go:177-179 | saving the evaluation time in whole seconds brings no instant back |
| `Scheduler.TaskNameInjective` | internal/scheduler/scheduler.go:84-96 | for one policy the truncated name identifies the second |
| `Scheduler.TaskNameLength` | internal/scheduler/scheduler.go:84-96 | the name has at most 63 characters |
| `PolicyController.AppendLimited` | internal/controller/policy_controller.go:234-240 | the skipped list ends with the new entry and stays within its limit |
| `PolicyController.PolicyStore.ActiveTasks` | internal/controller/policy_controller.go:205-217 | lists exactly the non-terminal tasks, each once |
| `PolicyController.PolicyStore.CancelActive` | internal/controller/policy_controller.go:219-232 | requests cancellation in list order, up to the first task that is not found |
| `PolicyController.PolicyStore.Reconcile` | internal/controller/policy_controller.go:109-187 | the due loop with a crash at any request leaves exactly the specified state |
| `PolicyConcurrency.ForbidWaits` | internal/controller/policy_controller.go:115-119 | Forbid: while a task is active a completed reconcile creates nothing and lists every due instant as skipped |
| `PolicyConcurrency.ForbidRunsFirst` | internal/controller/policy_controller.go:115-175 | Forbid: with no task active it creates exactly the task of the first due instant whose name is free, and lists the due instants after it as skipped |
| `PolicyConcurrency.AllowRunsAll` | internal/controller/policy_controller.go:115-175 | Allow: every due instant has its task afterwards, and nothing else is created, stopped or skipped |
| `PolicyConcurrency.ReplaceRunsLast` | internal/controller/policy_controller.go:115-175 | Replace: the task of the last due instant is there when its name was free, and is the only one neither finished nor asked to stop |
| `PolicyController.OneTaskPerInstant` | internal/controller/policy_controller.go:115-175 | over every run with crashes each scheduled instant gets at most one task |
| `PolicyController.WindowsAreDisjoint` | internal/controller/policy_controller.go:105-187 | an instant looked at by a completed reconcile is not looked at again |
| `PolicyController.ConcurrencyIsKept` | internal/controller/policy_controller.go:110-175 | Forbid: at most one scheduled task is non-terminal; Replace: at most one is neither terminal nor asked to stop |
| `PolicyController.ExactlyOnce` | internal/controller/policy_controller.go:109-187 | under RunAll and Allow a timely crash-free run creates exactly one task per instant of the time it covers |
| `PolicyController.ReconcileCancelsIff` | internal/controller/policy_controller.go:115-124 | a reconcile that gets past its first due instant asks a running task to stop exactly under Replace and when anything is due |
| `PolicyController.RepeatCancelsOwnTaskIff` | internal/controller/policy_controller.go:115-175 | in any run, a reconcile repeated after dying before its status patch asks its own task to stop exactly under Replace and when the window since the saved time still yields a due instant |
| `PolicyController.RepeatedRunIsLost` | internal/controller/policy_controller.go:115-187 | a policy due every minute, with the default deadline, whose first reconcile dies and is repeated at once loses its first run |
| `BackupController.BackupTask.FailStep` | internal/controller/backup_controller.go:657-688 | counts the attempt and retries after the computed delay, or ends the task |
| `BackupController.RetryIff` | internal/controller/backup_controller.go:657-677 | a live step that fails keeps its phase exactly when the failure is retryable and attempts are left, and counts one attempt; otherwise the task is Failed |
| `BackupController.AttemptsAreFailures` | internal/controller/backup_controller.go:657-660 | over every run the attempt counter is the number of failures |
| `BackupController.FailedIff` | internal/controller/backup_controller.go:104-148 | over every run a task is Failed exactly when some reconcile of it timed out, failed without retry, or was its failure number max(1, maxAttempts) |
| `BackupController.CancelIff` | internal/controller/backup_controller.go:79-106 | a reconcile cancels a task exactly when it is deleted, or asked to stop before Uploading |
| `BackupController.BackupTask.Reconcile` | internal/controller/backup_controller.go:74-149 | one reconcile takes exactly the specified step of the phase machine |
| `BackupController.RunForward` | internal/controller/backup_controller.go:83-148 | along every run rank, percentage and checkpoints only grow, and terminal statuses are final |
| `BackupController.CheckpointsAreThePhases` | internal/controller/common.go:93-99 | checkpoints are exactly the phases passed, in order |
| `BackupController.CommittedIsNotCancelled` | internal/controller/common.go:77-83 | absent object deletion a task at Uploading or later never becomes Cancelled |
| `BackupController.VerifiedBefore` | internal/controller/backup_controller.go:131-138 | a task past Uploading got there through one successful verification |
| `BackupController.Terminates` | internal/controller/backup_controller.go:657-679 | at most 10 + max(1, maxAttempts) reconciles are not waits or crashes, and after that many the task is terminal |
| `BackupController.TimeoutEndsTheTask` | internal/controller/backup_controller.go:107-110 | waiting is cut off by the timeout |
| `BackupController.DelayExactIff` | internal/controller/backup_controller.go:670-673 | no retry delay overflows exactly when the backoff is at most a sixty-fourth of the largest duration |
| `BackupController.DelayWraps` | internal/controller/backup_controller.go:670-673 | one nanosecond more, and the seventh delay is negative |
| `BackupController.DelayBounds` | internal/controller/backup_controller.go:670-676 | delays grow with the attempt up to 64 times the backoff and never exceed a positive cap |
| `Repository.VerifyPackage` | internal/controller/backup_controller.go:484-515 | the package check accepts exactly intact packages, for every order of the manifest |
| `Repository.IntactIff` | internal/controller/backup_controller.go:484-515 | a package passes exactly when the marker and the entry for the archive name the checksum and every listed file is there with its listed digest |
| `Repository.TrimFacts` | internal/controller/backup_controller.go:488-491 | the marker is compared without the white space at its ends, all of it and nothing else |
| `Repository.ReplacedFileIff` | internal/controller/backup_controller.go:505-514 | replacing one file of an intact package goes unnoticed exactly when the manifest does not list it or the digest is the listed one |
| `Repository.RemovedFileIff` | internal/controller/backup_controller.go:505-514 | removing it goes unnoticed exactly when the manifest does not list it |
| `Repository.IntactArchive` | internal/controller/record_controller.go:105-134 | an intact package holds an archive with the expected digest |
| `CommitProtocol.Upload` | internal/controller/backup_controller.go:415-471 | an upload cut after any operation leaves the effect of exactly the operations before the cut |
| `CommitProtocol.Finalize` | internal/controller/record_controller.go:224-243 | the same for the ordered deletion |
| `CommitProtocol.ManifestReadsBack` | internal/controller/backup_controller.go:457-460 | the stored manifest parses to the digests of the files |
| `CommitProtocol.UploadCommits` | internal/controller/backup_controller.go:429-464 | a finished upload leaves an intact package whatever was there before |
| `CommitProtocol.UploadKeepsInv` | internal/controller/backup_controller.go:429-464 | an upload cut anywhere keeps the commit invariant |
| `CommitProtocol.FinalizeKeepsInv` | internal/controller/record_controller.go:234-243 | so does a deletion cut anywhere, and its first operation takes the marker away |
| `CommitProtocol.OtherDirKeepsPackage` | internal/controller/backup_controller.go:708-710 | operations in other task directories do not touch the package |
| `CommitProtocol.MarkerMeansIntact` | internal/controller/backup_controller.go:429-464 | after every run ending at any single operation, a marker stands for an intact package |
| `CommitProtocol.MarkerMeansStored` | internal/controller/backup_controller.go:429-464 | and for exactly the task's own four files and their manifest |
| `CommitProtocol.UnlistedFilesGoUnnoticed` | internal/controller/backup_controller.go:505-514 | a package whose manifest lists the archive alone passes without its other files |
| `CommitProtocol.UploadStaysInDir` | internal/controller/backup_controller.go:415-464 | an upload cut anywhere leaves every other directory alone |
| `CommitProtocol.FinalizeStaysInDir` | internal/controller/record_controller.go:224-243 | so does a deletion |
| `CommitProtocol.FinalizeEmpties` | internal/controller/record_controller.go:224-243 | a whole deletion leaves nothing in the directory |
| `BackupSystem.VerifyRecord` | internal/controller/record_controller.go:87-176 | a record is restorable exactly when its repository answers, its package is intact and it does not claim completeness over missing snapshots |
| `BackupSystem.MissingSnapshotsIff` | internal/controller/record_controller.go:144-155 | no snapshot is missing exactly when every named snapshot that was ready still exists |
| `BackupSystem.UploadedIsIntact` | internal/controller/backup_controller.go:131-138 | in every reachable state without tampering a marker means an intact package and a task at Uploading has one |
| `BackupSystem.RunStep` | internal/controller/backup_controller.go:415-521 | the step of a task at Packaging uploads, at Uploading verifies, and reports success exactly when all of it is done or the package is intact |
| `BackupSystem.ReconcileTask` | internal/controller/backup_controller.go:118-148 | one reconcile over the repository, its step included, is an event of the system: what the runs assume of a step is what the code does |
| `BackupSystem.FinishTask` | internal/controller/backup_controller.go:599-638 | a task whose record is verified ends Completed exactly over an intact package with a complete record and all snapshots, otherwise PartiallyFailed or Failed as specified, and waits while the repository does not answer |
| `BackupSystem.VerifiedWasIntact` | internal/controller/backup_controller.go:473-521 | whatever happens to the repository, a task past Uploading was there while its package was intact and held its archive |
| `BackupSystem.VerifiedFilesMatched` | internal/controller/backup_controller.go:473-521 | a task past Uploading was there while every listed file had its listed digest, and without tampering while all four of its files were listed and there |
| `EndToEnd.PackageArchive` | internal/controller/backup_controller.go:350-408 | packages the tree under the repository's settings and returns the digest of the bytes |
| `EndToEnd.Download` | internal/controller/restore_controller.go:191-254 | checks, decrypts and extracts as specified, with each failure |
| `EndToEnd.OpenSealed` | internal/controller/restore_controller.go:220-254 | an archive opens only under the settings it was packaged with |
| `EndToEnd.RestoreIff` | internal/controller/backup_controller.go:535-545 | with the archive in place a restore succeeds exactly when the record's encryption settings are those of packaging and the payload fits the limit; it then extracts the payload |
| `EndToEnd.SwitchedOnTooLate` | internal/controller/backup_controller.go:535-539 | a repository switched to encryption between packaging and the record makes the record of an intact archive unrestorable |
| `EndToEnd.RestoredIsPackaged` | internal/controller/restore_controller.go:191-254 | whatever was done to repository files and settings, a restore past Downloading has extracted exactly the packaged payload, or two archives with one digest were found |
| `Lifecycle.RunIsAnchored` | internal/controller/backup_controller.go:401-408 | along every run of a task, a checksum is saved exactly from packaging on, records come only afterwards, and the checksum of status and record is that of an archive of the payload |
| `Lifecycle.SavedStays` | internal/controller/backup_controller.go:118-149 | a task packages once: a checksum that is saved stays |
| `Lifecycle.EveryRestoreIsThePayload` | internal/controller/backup_controller.go:561-585 | over every run of reconciles, crashes, record generation, record updates, tampering and changed settings, a restore past Downloading has extracted the payload, or two archives with one digest were found |
| `Admission.ValidateUpdate` | api/v1alpha1/webhook_validation.go:292-326 | accepts exactly the permitted updates, and panics exactly on an early update that sets the hash of an unhashed spec and removes the spec |
| `Admission.UpdateThatPanics` | api/v1alpha1/webhook_validation.go:309-310 | a pending one-time task and an update at which it panics |
| `Admission.ExecutionIsFrozen` | api/v1alpha1/webhook_validation.go:292-326 | over accepted updates a set execution spec changes in its repository reference only |
| `Admission.HashedIsConstant` | api/v1alpha1/webhook_validation.go:292-326 | with its hash set, only the cancel fields change |
| `Admission.IdentityAndCancel` | api/v1alpha1/webhook_validation.go:298-325 | identity never changes and cancelRequested is not taken back |
| `Admission.BackupTask.Default` | api/v1alpha1/webhook_defaults.go:113-130 | the assignments give the specified defaulted spec |
| `Admission.DefaultExecutionIff` | api/v1alpha1/webhook_defaults.go:39-47 | which execution specs defaulting leaves alone |
| `Admission.DefaultsOfNothing` | api/v1alpha1/webhook_defaults.go:16-111 | what a policy that says nothing gets |
| `Admission.TaskDefaultsOfNothing` | api/v1alpha1/webhook_defaults.go:113-130 | and a task that says nothing, with or without a policy |
| `Admission.DefaultingIsIdempotent` | api/v1alpha1/webhook_defaults.go:92-130 | defaulting twice is defaulting once |
| `Admission.PolicyTasksAreStoredAsSent` | internal/controller/policy_controller.go:125-154 | defaulting is the identity on tasks made from a defaulted policy, so the stored hash is right |
| `Admission.ControllerUpdateIff` | internal/controller/backup_controller.go:151-196 | the controller's fill-in stores the right hash, and is accepted exactly for valid specs in an early phase of tasks that came without a spec or without a hash |
| `Admission.PresetHashIsStuck` | internal/controller/backup_controller.go:189-196 | a one-time task created with a hash and without the identity of its repository is never filled in |
| `Admission.HashCheckAlwaysPasses` | internal/controller/backup_controller.go:197-203 | on the policy path the controller's hash check passes after every sequence of accepted updates |
| `Admission.ValidateRestoreUpdate` | api/v1alpha1/webhook_validation.go:410-425 | accepts exactly the updates that keep everything but the cancel fields |
| `Admission.RestoreSpecIsConstant` | api/v1alpha1/webhook_validation.go:410-425 | over accepted updates a restore spec is constant and cancellation is not taken back |

## Left out

What the theorems assume, because the code does not establish it:

- The cron library's `Next` is total and returns the first whole-second instant after its argument; an unsatisfiable expression breaks this.
- One writer per task: two controllers reconciling one object at a time, and tasks that finish while a policy reconcile is in progress, are not modelled; other controllers act between reconciles.
- `PolicyController.OneTaskPerInstant`: scheduled tasks are deleted only after their instant has been evaluated, and nobody else uses the names of scheduled tasks; names of different policies may collide by truncation.
- `PolicyController.ConcurrencyIsKept`: the concurrency policy is not edited during the run.
- `WholeRestore.PlanReferencesFollow`: a kind belongs to one resource of the index.
- `RestoreRun.PrecheckIsSound`: only this restore changes the cluster, and kinds without an API mapping at precheck have no objects.
- `Plan.PlanTargetsDistinct`: the effective namespace map is injective on the index; validation checks only the namespaces that are mapped.
- `CrashIdempotence.CrashIdempotentIff`: the API server answers deterministically, it accepts an update that changes nothing, and its answers to the requests for an item do not depend on the other targets of the same stage; only whether an item is prepared may depend on them, and more objects of kinds that are never deleted do not unprepare it.
- `RenameFollowing.ReferencesFollowRenames`: kinds and namespaces contain no slash, and no two objects of one kind share namespace and name; the rename map does not survive a crash, so the stage must be uninterrupted.
- `EndToEnd.RestoredIsPackaged`: the cipher does not open the first chunk under another key, and the codec accepts only gzip data.
- `Encryption.AcceptedIsChunkPrefix`: opening succeeds only on what was sealed under the key, with random prefixes distinct.
- `BackupSystem.UploadedIsIntact`: the repository is not tampered with and the workspace is private to the task, so the files uploaded are the files packaged.
- `BackupController.DelayBounds`: the backoff is not negative and at most a sixty-fourth of the largest duration.

What the model does not capture:

- `References.RewriteValue`: builds the rewritten tree from values instead of assigning into shared maps, so aliasing inside one decoded object is not modelled.
- `Checksum.ParseManifest`: works on the whole text; reading errors of the underlying stream are left out.
- `Repository.VerifyPackage`: trims ASCII white space only around the marker, and leaves out reading errors of objects that exist.
- `CommitProtocol.Finalize`: deletes a directory with its content at once, as the local adapter does; the SFTP adapter refuses a directory that is not empty.
- `Restorer.ExistingIsCopied`: the name inside the copy's metadata is part of its key, and the rest of the object is that of the original.
- `Archive.Extract`: takes a list of entries; header modes, times and entry types other than directories and files are reduced to one unsupported kind.
- Dry runs, cancellation, timeouts and the download phases of a restore task: the model starts at its first apply stage.
- `RestoreController.ApplyStage`: a process that dies inside one item is covered by `RestoreRun` and `CrashIdempotence`, not here; errors, residual resources and messages in the status are left out.
- `BackupController.BackupTask.Reconcile`: steps are reduced to how they end; errors, messages, conditions, metrics and finalizers are left out, and a failed status patch counts as a failed step.
- `PolicyController.PolicyStore.Reconcile`: suspended policies, invalid references, previews, labels, the last and next schedule times and the requeue delay are left out.
- `Admission.ValidateUpdate`: validation of a spec by itself is a parameter, and field groups no rule looks into are opaque text.
- `BackupSystem.VerifyRecord`: expiry, deletion annotations and a snapshot lookup that fails with another error are left out.
- API groups and versions of a resource are part of its name; API mappings are a set of kinds that are known.
- `Lifecycle.EveryRestoreIsThePayload`: of the record spec only the directory, the checksum and whether the archive is encrypted enter the model; the payload is that of one collection, and the key secret may hold any key.
- AES, SHA-256, gzip, tar, cron parsing and time zones are abstract; their laws are stated where they are used.
- Context cancellation, input and output errors, events, metrics and condition lists.
- Resource discovery, collection, sanitizing and CSI snapshots: the payload tree, a well-formed index and the answers of the snapshot step are given.
- The SFTP and local transports, repository health checks, plugin configuration, garbage collection, hooks, charts and the web interface.
