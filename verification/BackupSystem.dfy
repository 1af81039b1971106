/**
 The backup task and its package together: which repository states the phases of the machine stand for, and the
 record controller's decision about what the task leaves behind.
 */
module BackupSystem {
  import opened BackupController
  import opened Basics
  import opened CommitProtocol
  import opened Repository
  import Checksum
  import Sorting

  // ---- the record's own verification ----

  datatype RecordPhase =
    Available | PartiallyAvailable | SnapshotMissing | Broken | RepoUnavailable | Expired | BeingVerified

  datatype Snapshot = Snapshot(namespace: string, name: string, ready: bool)

  /** The part of the immutable record spec that verification reads. */
  datatype Record = Record(dir: string, checksum: string, snapshots: seq<Snapshot>, complete: bool, pvcCount: nat)

  datatype Verdict = Verdict(phase: RecordPhase, restorable: bool)

  function MissingSnapshots(snapshots: seq<Snapshot>, existing: set<Snapshot>): seq<Snapshot> {
    Sorting.Filter(snapshots, (s: Snapshot) => s.name != "" && s.ready && s !in existing)
  }

  /** Missing is a snapshot that was ready when the record was made and is not there any more. */
  lemma MissingSnapshotsIff(snapshots: seq<Snapshot>, existing: set<Snapshot>)
    ensures MissingSnapshots(snapshots, existing) == [] <==>
      forall s :: s in snapshots && s.name != "" && s.ready ==> s in existing
  {
    Sorting.FilterMembers(snapshots, (s: Snapshot) => s.name != "" && s.ready && s !in existing);
    if MissingSnapshots(snapshots, existing) != [] {
      assert MissingSnapshots(snapshots, existing)[0] in MissingSnapshots(snapshots, existing);
    }
  }

  method CountMissing(snapshots: seq<Snapshot>, existing: set<Snapshot>) returns (missing: nat)
    ensures missing == |MissingSnapshots(snapshots, existing)|
  {
    missing := 0;
    var i := 0;
    while i < |snapshots|
      invariant 0 <= i <= |snapshots|
      invariant missing == |MissingSnapshots(snapshots[..i], existing)|
    {
      var s := snapshots[i];
      assert snapshots[..i + 1][..i] == snapshots[..i];
      if s.name != "" && s.ready && s !in existing {
        missing := missing + 1;
      }
      i := i + 1;
    }
    assert snapshots[..i] == snapshots;
  }

  /**
   verify of the record controller, for a record that has not expired: a record can be restored exactly when its
   repository answers, its package is intact, and it does not claim to be complete while snapshots of its claims
   are missing.
   */
  method VerifyRecord(sha: Digest, objects: Objects, reachable: bool, record: Record, existing: set<Snapshot>)
    returns (verdict: Verdict)
    ensures var missing := MissingSnapshots(record.snapshots, existing);
      && (verdict.restorable <==>
            reachable && Intact(sha, objects, record.dir, record.checksum)
              && !(missing != [] && record.complete && record.pvcCount > 0))
      && (verdict.phase == RepoUnavailable <==> !reachable)
      && (verdict.phase == Broken <==> reachable && !Intact(sha, objects, record.dir, record.checksum))
      && (verdict.phase == Available ==> missing == [] && record.complete)
      && (verdict.phase == PartiallyAvailable ==> missing == [] && !record.complete)
      && (verdict.phase == SnapshotMissing ==> missing != [])
      && verdict.phase !in {Expired, BeingVerified}
  {
    if !reachable {
      return Verdict(RepoUnavailable, false);
    }
    var ok, _ := VerifyPackage(sha, objects, record.dir, record.checksum);
    if !ok {
      return Verdict(Broken, false);
    }
    var missing := CountMissing(record.snapshots, existing);
    if missing > 0 {
      return Verdict(SnapshotMissing, !(record.complete && record.pvcCount > 0));
    }
    return Verdict(if record.complete then Available else PartiallyAvailable, true);
  }

  /** waitForRecord: what the record's verdict means for the task. */
  function AnswerFor(v: Verdict): Answer {
    match v.phase
    case Available => Succeeds
    case PartiallyAvailable => SucceedsPartially
    case SnapshotMissing => if v.restorable then SucceedsPartially else Fails(false)
    case Broken => Fails(false)
    case _ => Pends
  }

  // ---- the system ----

  datatype Context = Context(sha: Digest, spec: Spec, package: Package)

  datatype System = System(status: Status, objects: Objects)

  datatype Event =
    | Reconcile(o: Observation, order: seq<string>, stop: nat) // of the task; an upload does `stop` operations
    | FinalizeRecord(stop: nat)
    | OtherTask(op: Op)
    | Tamper(objects: Objects) // anything at all happens to the repository

  /** The steps do what they report, and a record exists only once the package was verified. */
  ghost predicate Possible(c: Context, s: System, e: Event)
    requires Packaged(c.sha, c.package)
  {
    match e
    case Reconcile(o, order, stop) =>
      && Sorting.Enumerates(order, PACKAGE_FILES)
      && (o.answer.Pends? ==> CanPend(s.status.phase))
      && (StepRuns(c.spec, s.status, o) && Reports(o) && s.status.phase == Packaging ==>
        stop >= |UploadOps(c.sha, c.package, order)|)
      && (StepRuns(c.spec, s.status, o) && Reports(o) && s.status.phase == Uploading ==>
            Intact(c.sha, s.objects, c.package.dir, c.package.checksum))
    case FinalizeRecord(_) => Rank(s.status.phase) >= Rank(Verifying)
    case OtherTask(op) => DirOf(op) != c.package.dir
    case Tamper(_) => true
  }

  ghost function After(c: Context, s: System, e: Event): System
    requires Packaged(c.sha, c.package) && Possible(c, s, e)
  {
    match e
    case Reconcile(o, order, stop) =>
      System(Step(c.spec, s.status, o),
             if s.status.phase == Packaging && StepRuns(c.spec, s.status, o)
             then ApplyOps(s.objects, Cut(UploadOps(c.sha, c.package, order), stop)) else s.objects)
    case FinalizeRecord(stop) => s.(objects := ApplyOps(s.objects, Cut(FinalizeOps(c.package.dir), stop)))
    case OtherTask(op) => s.(objects := ApplyOp(s.objects, op))
    case Tamper(objects) => s.(objects := objects)
  }

  // ---- the code does nothing else ----

  /** The step of a task at Packaging or Uploading; `fault` is a request that fails although the process lives. */
  method RunStep(store: Store, c: Context, phase: Phase, retryable: bool, fault: bool, stop: nat)
    returns (answer: Answer, ghost order: seq<string>)
    requires Packaged(c.sha, c.package) && phase in {Packaging, Uploading}
    modifies store
    ensures Sorting.Enumerates(order, PACKAGE_FILES)
    ensures answer in {Succeeds, Fails(retryable)}
    ensures phase == Packaging ==>
      var ops := UploadOps(c.sha, c.package, order);
      store.objects == ApplyOps(old(store.objects), Cut(ops, stop)) && (answer == Succeeds <==> stop >= |ops| && !fault)
    ensures phase == Uploading ==>
      && store.objects == old(store.objects)
      && (answer == Succeeds <==> Intact(c.sha, store.objects, c.package.dir, c.package.checksum) && !fault)
  {
    NamesEnumerate();
    order := NAMES;
    if phase == Packaging {
      var done;
      done, order := Upload(store, c.sha, c.package, stop);
      FourFiles(order);
      answer := if done == |NAMES| + 3 && !fault then Succeeds else Fails(retryable);
    } else {
      var ok, _ := VerifyPackage(c.sha, store.objects, c.package.dir, c.package.checksum);
      answer := if ok && !fault then Succeeds else Fails(retryable);
    }
  }

  /**
   One reconcile of a task over its repository: the step really uploads or verifies, and its outcome goes to the phase
   machine, unless the process dies. Whatever it does is an event of the system. `other` is the answer of the steps
   that do not touch the repository.
   */
  method ReconcileTask(store: Store, task: BackupTask, c: Context, now: int, deleted: bool, cancelRequested: bool,
                       other: Answer, dies: bool, retryable: bool, fault: bool, stop: nat)
    returns (ghost e: Event)
    requires Packaged(c.sha, c.package) && task.spec == c.spec
    requires other.Pends? ==> CanPend(task.persisted.phase)
    modifies store, task
    ensures Possible(c, old(System(task.persisted, store.objects)), e) && e.Reconcile?
    ensures System(task.persisted, store.objects) == After(c, old(System(task.persisted, store.objects)), e)
  {
    NamesEnumerate();
    var s := task.persisted;
    var answer := other;
    ghost var order := NAMES;
    if StepRuns(c.spec, s, Observation(now, deleted, cancelRequested, other)) && s.phase in {Packaging, Uploading} {
      answer, order := RunStep(store, c, s.phase, retryable, fault, stop);
    }
    if dies {
      answer := Dies;
    }
    var o := Observation(now, deleted, cancelRequested, answer);
    var _ := task.Reconcile(o);
    e := Reconcile(o, order, stop);
  }

  /** A task that waits for its record ends as the record's verdict says. */
  lemma CompletionIff(c: Context, s: Status, o: Observation, v: Verdict)
    requires s.phase == GeneratingRecord && StepRuns(c.spec, s, o) && o.answer == AnswerFor(v)
    ensures var t := Step(c.spec, s, o);
      && (t.phase == Completed <==> v.phase == Available)
      && (t.phase == PartiallyFailed <==> v.phase == PartiallyAvailable || (v.phase == SnapshotMissing && v.restorable))
      && (t.phase == Failed <==> v.phase == Broken || (v.phase == SnapshotMissing && !v.restorable))
      && (t == s <==> v.phase in {RepoUnavailable, Expired, BeingVerified})
  {
  }

  /**
   The end of a backup: the record is verified, and the task that waits for it is reconciled over the verdict. It is
   Completed exactly when the repository answers, the package is intact, no snapshot is missing and the record is
   complete; a repository that does not answer makes it wait.
   */
  method FinishTask(task: BackupTask, c: Context, objects: Objects, reachable: bool, record: Record,
                    existing: set<Snapshot>, now: int, deleted: bool, cancelRequested: bool)
    requires task.spec == c.spec && task.persisted.phase == GeneratingRecord
    requires StepRuns(c.spec, task.persisted, Observation(now, deleted, cancelRequested, Pends))
    modifies task
    ensures var intact := Intact(c.sha, objects, record.dir, record.checksum);
      var missing := MissingSnapshots(record.snapshots, existing) != [];
      var fatal := record.complete && record.pvcCount > 0;
      && (task.persisted.phase == Completed <==> reachable && intact && !missing && record.complete)
      && (task.persisted.phase == PartiallyFailed
        <==> reachable && intact && if missing then !fatal else !record.complete)
      && (task.persisted.phase == Failed <==> reachable && (!intact || (missing && fatal)))
      && (task.persisted == old(task.persisted) <==> !reachable)
  {
    var s := task.persisted;
    var verdict := VerifyRecord(c.sha, objects, reachable, record, existing);
    var o := Observation(now, deleted, cancelRequested, AnswerFor(verdict));
    CompletionIff(c, s, o, verdict);
    var _ := task.Reconcile(o);
  }

  // ---- runs ----

  /** A run lists the system states along with the events between them. */
  ghost predicate IsRun(c: Context, states: seq<System>, events: seq<Event>)
    requires Packaged(c.sha, c.package)
  {
    && |states| == |events| + 1
    && states[0].status == START && At(c.package, DONE) !in states[0].objects
    && forall n {:trigger Follows(c, states, events, n)} :: 0 <= n < |events| ==> Follows(c, states, events, n)
  }

  ghost predicate Follows(c: Context, states: seq<System>, events: seq<Event>, n: nat)
    requires Packaged(c.sha, c.package) && n < |events| < |states|
  {
    Possible(c, states[n], events[n]) && states[n + 1] == After(c, states[n], events[n])
  }

  ghost predicate SystemInv(c: Context, s: System) {
    && Inv(c.spec, s.status)
    && CommitInv(c.sha, s.objects, c.package)
    && (s.status.phase == Uploading ==> Intact(c.sha, s.objects, c.package.dir, c.package.checksum))
  }

  /** How a task comes to Uploading. */
  lemma EntersUploading(c: Context, s: Status, o: Observation)
    requires Step(c.spec, s, o).phase == Uploading && s.phase != Uploading
    ensures s.phase == Packaging && StepRuns(c.spec, s, o) && Reports(o)
  {
  }

  lemma ReconcileKeepsInv(c: Context, s: System, e: Event)
    requires Packaged(c.sha, c.package) && SystemInv(c, s) && e.Reconcile? && Possible(c, s, e)
    ensures SystemInv(c, After(c, s, e))
  {
    StepForward(c.spec, s.status, e.o);
    var uploads := s.status.phase == Packaging && StepRuns(c.spec, s.status, e.o);
    if uploads {
      UploadKeepsInv(c.sha, s.objects, c.package, e.order, e.stop);
    }
    if After(c, s, e).status.phase == Uploading && s.status.phase != Uploading {
      EntersUploading(c, s.status, e.o);
      UploadCommits(c.sha, s.objects, c.package, e.order);
    }
  }

  lemma EventKeepsInv(c: Context, s: System, e: Event)
    requires Packaged(c.sha, c.package) && SystemInv(c, s) && Possible(c, s, e) && !e.Tamper?
    ensures SystemInv(c, After(c, s, e))
  {
    match e
    case Reconcile(_, _, _) => ReconcileKeepsInv(c, s, e);
    case FinalizeRecord(stop) => FinalizeKeepsInv(c.sha, s.objects, c.package, stop);
    case OtherTask(op) => OtherDirKeepsPackage(c.sha, s.objects, c.package, op);
  }

  /**
   While nobody tampers with the repository, a marker always stands for an intact package, and a task that reports
   its upload has one: its verification finds nothing wrong.
   */
  lemma {:induction false} UploadedIsIntact(c: Context, states: seq<System>, events: seq<Event>, n: nat)
    requires Packaged(c.sha, c.package) && IsRun(c, states, events) && n < |states|
    requires forall i :: 0 <= i < n ==> !events[i].Tamper?
    ensures SystemInv(c, states[n])
  {
    if n > 0 {
      UploadedIsIntact(c, states, events, n - 1);
      assert Follows(c, states, events, n - 1);
      EventKeepsInv(c, states[n - 1], events[n - 1]);
    }
  }

  /** How a task gets past Uploading. */
  lemma LeavesUploading(c: Context, s: Status, o: Observation)
    requires Step(c.spec, s, o).phase in {Verifying, GeneratingRecord, Completed, PartiallyFailed}
    requires s.phase !in {Verifying, GeneratingRecord, Completed, PartiallyFailed}
    ensures s.phase == Uploading && StepRuns(c.spec, s, o) && Reports(o)
  {
  }

  predicate PastUploading(s: Status) {
    s.phase in {Verifying, GeneratingRecord, Completed, PartiallyFailed}
  }

  /** The package is intact, and its archive is the one the task packaged. */
  ghost predicate HoldsPackage(c: Context, objects: Objects)
    requires Packaged(c.sha, c.package)
  {
    && Intact(c.sha, objects, c.package.dir, c.package.checksum)
    && At(c.package, ARCHIVE) in objects
    && c.sha(objects[At(c.package, ARCHIVE)]) == c.sha(c.package.files[ARCHIVE])
  }

  lemma PassesUploading(c: Context, s: System, e: Event)
    requires Packaged(c.sha, c.package) && Possible(c, s, e)
    requires PastUploading(After(c, s, e).status) && !PastUploading(s.status)
    ensures s.status.phase == Uploading && HoldsPackage(c, s.objects)
  {
    LeavesUploading(c, s.status, e.o);
    IntactArchive(c.sha, s.objects, c.package.dir, c.package.checksum);
  }

  /**
   Whatever happens to the repository, a task past Uploading was there at a moment when its package was intact and
   held the archive it had packaged.
   */
  lemma {:induction false} VerifiedWasIntact(c: Context, states: seq<System>, events: seq<Event>, n: nat)
    returns (i: nat)
    requires Packaged(c.sha, c.package) && IsRun(c, states, events) && n < |states|
    requires PastUploading(states[n].status)
    ensures i < n && states[i].status.phase == Uploading && HoldsPackage(c, states[i].objects)
  {
    i := n - 1;
    if PastUploading(states[n - 1].status) {
      i := VerifiedWasIntact(c, states, events, n - 1);
    } else {
      assert Follows(c, states, events, n - 1);
      PassesUploading(c, states[n - 1], events[n - 1]);
    }
  }

  lemma EventKeepsStored(c: Context, s: System, e: Event)
    requires Packaged(c.sha, c.package) && StoredInv(c.sha, s.objects, c.package) && Possible(c, s, e) && !e.Tamper?
    ensures StoredInv(c.sha, After(c, s, e).objects, c.package)
  {
    match e
    case Reconcile(_, order, stop) => UploadKeepsStored(c.sha, s.objects, c.package, order, stop);
    case FinalizeRecord(stop) => FinalizeKeepsStored(c.sha, s.objects, c.package, stop);
    case OtherTask(op) => OtherDirKeepsStored(c.sha, s.objects, c.package, op);
  }

  lemma {:induction false} RunKeepsStored(c: Context, states: seq<System>, events: seq<Event>, n: nat)
    requires Packaged(c.sha, c.package) && IsRun(c, states, events) && n < |states|
    requires forall i :: 0 <= i < n ==> !events[i].Tamper?
    ensures StoredInv(c.sha, states[n].objects, c.package)
  {
    if n > 0 {
      RunKeepsStored(c, states, events, n - 1);
      assert Follows(c, states, events, n - 1);
      EventKeepsStored(c, states[n - 1], events[n - 1]);
    }
  }

  /** Every file the stored manifest lists has the listed digest. */
  ghost predicate FilesMatchManifest(c: Context, objects: Objects) {
    && At(c.package, MANIFEST) in objects
    && var parsed := Checksum.ParseFrom(Decode(objects[At(c.package, MANIFEST)]), map[]);
      parsed.Parsed? && ListedFilesMatch(c.sha, objects, c.package.dir, parsed.entries)
  }

  /** The four files are those of the task, and the stored manifest lists their digests and nothing else. */
  ghost predicate HoldsAllFiles(c: Context, objects: Objects)
    requires Packaged(c.sha, c.package)
  {
    && (forall name :: name in PACKAGE_FILES ==> Holds(objects, At(c.package, name), c.package.files[name]))
    && At(c.package, MANIFEST) in objects
    && Checksum.ParseFrom(Decode(objects[At(c.package, MANIFEST)]), map[])
      == Checksum.Parsed(map name | name in PACKAGE_FILES :: c.sha(c.package.files[name]))
  }

  /**
   A task past Uploading was there at a moment when every listed file had its listed digest; and if nobody had
   tampered before, the four files were exactly those it had packaged, all of them listed.
   */
  lemma VerifiedFilesMatched(c: Context, states: seq<System>, events: seq<Event>, n: nat) returns (i: nat)
    requires Packaged(c.sha, c.package) && IsRun(c, states, events) && n < |states|
    requires PastUploading(states[n].status)
    ensures i < n && states[i].status.phase == Uploading && FilesMatchManifest(c, states[i].objects)
    ensures (forall j :: 0 <= j < i ==> !events[j].Tamper?) ==> HoldsAllFiles(c, states[i].objects)
  {
    i := VerifiedWasIntact(c, states, events, n);
    IntactIff(c.sha, states[i].objects, c.package.dir, c.package.checksum);
    if forall j :: 0 <= j < i ==> !events[j].Tamper? {
      RunKeepsStored(c, states, events, i);
      ManifestReadsBack(c.sha, c.package);
      assert Digests(c.sha, c.package) == map name | name in PACKAGE_FILES :: c.sha(c.package.files[name]);
    }
  }
}
