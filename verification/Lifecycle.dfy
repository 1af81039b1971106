/**
 A backup from its first reconcile to restore: the checksum travels from the packaged bytes through the task status
 into the record, while the repository, its encryption settings and the record are open to others.
 */
module Lifecycle {
  import opened Archive
  import opened BackupController
  import opened Basics
  import opened ByteStreams
  import opened EndToEnd
  import Encryption
  import Repository

  /** How an archive of the payload was made. */
  datatype Origin = Origin(walk: seq<Path>, settings: Settings, prefix: Bytes)

  /** The part of the record spec a restore reads; the key itself stays in a secret. */
  datatype RecordSpec = RecordSpec(dir: string, checksum: string, encrypted: bool)

  /**
   `status` is the task's place in the phase machine, `settings` are those of the repository, `checksum` that of the
   task status. `saved` remembers how the archive behind the checksum was made.
   */
  datatype State = State(
    status: Status, settings: Settings, checksum: string, saved: Option<Origin>, record: Option<RecordSpec>,
    objects: Repository.Objects)

  /** A reconcile may create the record even when its step fails or the process dies. */
  datatype Event =
    | Reconcile(o: Observation, walk: seq<Path>, prefix: Bytes, creates: bool)
    | UpdateRecord(spec: RecordSpec)                       // somebody submits a changed record
    | DeleteRecord
    | ChangeSettings(settings: Settings)
    | Tamper(objects: Repository.Objects)                  // uploads included

  /** What all of it is about: the platform, the payload, the directory and the frozen execution spec of the backup. */
  datatype Backup = Backup(platform: Platform, tree: Tree, dir: string, spec: Spec)

  ghost predicate IsBackup(b: Backup) {
    Works(b.platform) && WellFormed(b.tree) && NoSymlinks(b.tree)
  }

  ghost predicate MadeFrom(b: Backup, o: Origin) {
    Walks(o.walk, b.tree) && UsableKey(o.settings) && |o.prefix| == Encryption.PREFIX_LENGTH
  }

  ghost function ArchiveBy(b: Backup, o: Origin): Bytes
    requires IsBackup(b) && MadeFrom(b, o)
  {
    ArchiveOf(b.platform, b.tree, o.walk, o.settings, o.prefix)
  }

  /** The step that packages runs to its end. */
  predicate Packages(b: Backup, s: State, o: Observation) {
    s.status.phase == CreatingSnapshots && StepRuns(b.spec, s.status, o) && Reports(o)
  }

  /** The step that generates the record runs. */
  predicate Records(b: Backup, s: State, o: Observation) {
    s.status.phase == Verifying && StepRuns(b.spec, s.status, o)
  }

  /** A step that reports success has done its work. */
  ghost predicate Possible(b: Backup, s: State, e: Event) {
    e.Reconcile? ==>
      && (Packages(b, s, e.o) ==> MadeFrom(b, Origin(e.walk, s.settings, e.prefix)))
      && (Records(b, s, e.o) && Reports(e.o) ==> e.creates)
  }

  /** Admission of record updates: the spec is immutable. */
  predicate AcceptsUpdate(a: RecordSpec, b: RecordSpec) {
    a == b
  }

  /** generateRecord takes a record that exists as it is. */
  function Recorded(b: Backup, s: State): Option<RecordSpec> {
    if s.record.None? then Some(RecordSpec(b.dir, s.checksum, s.settings.Keyed?)) else s.record
  }

  ghost function Saving(b: Backup, s: State, o: Origin): State
    requires IsBackup(b) && MadeFrom(b, o)
  {
    s.(saved := Some(o), checksum := b.platform.sha(ArchiveBy(b, o)))
  }

  function Moved(s: State, status: Status): State {
    s.(status := status)
  }

  ghost function Reconciled(b: Backup, s: State, e: Event): State
    requires IsBackup(b) && e.Reconcile? && Possible(b, s, e)
  {
    var done :=
      if Packages(b, s, e.o) then Saving(b, s, Origin(e.walk, s.settings, e.prefix))
      else if Records(b, s, e.o) && e.creates then s.(record := Recorded(b, s))
      else s;
    Moved(done, Step(b.spec, s.status, e.o))
  }

  ghost function After(b: Backup, s: State, e: Event): State
    requires IsBackup(b) && Possible(b, s, e)
  {
    match e
    case Reconcile(_, _, _, _) => Reconciled(b, s, e)
    case UpdateRecord(spec) =>
      if s.record.Some? && AcceptsUpdate(s.record.value, spec) then s.(record := Some(spec)) else s
    case DeleteRecord => s.(record := None)
    case ChangeSettings(settings) => s.(settings := settings)
    case Tamper(objects) => s.(objects := objects)
  }

  ghost predicate IsRun(b: Backup, states: seq<State>, events: seq<Event>)
    requires IsBackup(b)
  {
    && |states| == |events| + 1
    && states[0].status == START && states[0].saved.None? && states[0].record.None?
    && forall n {:trigger Follows(b, states, events, n)} :: 0 <= n < |events| ==> Follows(b, states, events, n)
  }

  ghost predicate Follows(b: Backup, states: seq<State>, events: seq<Event>, n: nat)
    requires IsBackup(b) && n < |events| < |states|
  {
    Possible(b, states[n], events[n]) && states[n + 1] == After(b, states[n], events[n])
  }

  /** The phases up to packaging, and those after it while the task lives. */
  predicate Early(phase: Phase) {
    Rank(phase) <= Rank(CreatingSnapshots)
  }

  predicate Middle(phase: Phase) {
    !Early(phase) && !Terminal(phase)
  }

  /** No checksum is saved before the task is past packaging, and one is saved from then on. */
  predicate Placed(phase: Phase, saved: bool) {
    (Early(phase) ==> !saved) && (Middle(phase) ==> saved)
  }

  /** The checksum of the status, and that of the record, is the checksum of an archive of the payload. */
  ghost predicate Sound(b: Backup, s: State)
    requires IsBackup(b)
  {
    && (s.saved.Some? ==> MadeFrom(b, s.saved.value) && s.checksum == b.platform.sha(ArchiveBy(b, s.saved.value)))
    && (s.record.Some? ==> s.saved.Some? && s.record.value.dir == b.dir && s.record.value.checksum == s.checksum)
  }

  ghost predicate Anchored(b: Backup, s: State)
    requires IsBackup(b)
  {
    Placed(s.status.phase, s.saved.Some?) && Sound(b, s)
  }

  /** The phase machine passes from the early phases to the middle ones by packaging, and never back. */
  lemma PhasesPass(spec: Spec, s: Status, o: Observation, saved: bool)
    requires Placed(s.phase, saved)
    ensures var packages := s.phase == CreatingSnapshots && StepRuns(spec, s, o) && Reports(o);
      Placed(Step(spec, s, o).phase, saved || packages)
  {
  }

  lemma MovedIsSound(b: Backup, s: State, status: Status)
    requires IsBackup(b)
    ensures Sound(b, Moved(s, status)) <==> Sound(b, s)
  {
  }

  lemma SavingIsSound(b: Backup, s: State, o: Origin)
    requires IsBackup(b) && MadeFrom(b, o) && Sound(b, s) && s.saved.None?
    ensures Sound(b, Saving(b, s, o))
  {
  }

  lemma ReconcileKeepsAnchor(b: Backup, s: State, e: Event)
    requires IsBackup(b) && Anchored(b, s) && e.Reconcile? && Possible(b, s, e)
    ensures Anchored(b, Reconciled(b, s, e))
    ensures s.saved.Some? ==> Reconciled(b, s, e).saved == s.saved && Reconciled(b, s, e).checksum == s.checksum
  {
    var status := Step(b.spec, s.status, e.o);
    PhasesPass(b.spec, s.status, e.o, s.saved.Some?);
    if Packages(b, s, e.o) {
      var o := Origin(e.walk, s.settings, e.prefix);
      SavingIsSound(b, s, o);
      MovedIsSound(b, Saving(b, s, o), status);
    } else if Records(b, s, e.o) && e.creates {
      MovedIsSound(b, s.(record := Recorded(b, s)), status);
    } else {
      MovedIsSound(b, s, status);
    }
  }

  lemma EventKeepsAnchor(b: Backup, s: State, e: Event)
    requires IsBackup(b) && Anchored(b, s) && Possible(b, s, e)
    ensures Anchored(b, After(b, s, e))
    ensures s.saved.Some? ==> After(b, s, e).saved == s.saved && After(b, s, e).checksum == s.checksum
  {
    if e.Reconcile? {
      ReconcileKeepsAnchor(b, s, e);
    }
  }

  /** One event of a run keeps the invariant, and a checksum once saved. */
  lemma StepKeepsAnchor(b: Backup, states: seq<State>, events: seq<Event>, n: nat)
    requires IsBackup(b) && IsRun(b, states, events) && n < |events| && Anchored(b, states[n])
    ensures Anchored(b, states[n + 1]) && Keeps(states[n], states[n + 1])
  {
    assert Follows(b, states, events, n);
    EventKeepsAnchor(b, states[n], events[n]);
  }

  predicate Keeps(s: State, t: State) {
    s.saved.Some? ==> t.saved == s.saved && t.checksum == s.checksum
  }

  lemma {:induction false} RunIsAnchored(b: Backup, states: seq<State>, events: seq<Event>, n: nat)
    requires IsBackup(b) && IsRun(b, states, events) && n < |states|
    ensures Anchored(b, states[n])
  {
    if n > 0 {
      RunIsAnchored(b, states, events, n - 1);
      StepKeepsAnchor(b, states, events, n - 1);
    }
  }

  /** The archive is packaged once: a checksum that is saved stays, whatever happens later. */
  lemma {:induction false} SavedStays(b: Backup, states: seq<State>, events: seq<Event>, i: nat, j: nat)
    requires IsBackup(b) && IsRun(b, states, events) && i <= j < |states| && states[i].saved.Some?
    ensures states[j].saved == states[i].saved && states[j].checksum == states[i].checksum
  {
    if i < j {
      SavedStays(b, states, events, i, j - 1);
      RunIsAnchored(b, states, events, j - 1);
      StepKeepsAnchor(b, states, events, j - 1);
    }
  }

  /**
   Over every run: whatever happened to the repository, to its settings and to the secret, and whatever updates of the
   record were tried, a restore from the record that gets past downloading has extracted exactly the payload, or
   somebody holds two archives with one digest. `settings` are what the restore finds: encryption as the record says,
   under whatever key the secret holds now.
   */
  lemma EveryRestoreIsThePayload(b: Backup, states: seq<State>, events: seq<Event>, n: nat, settings: Settings)
    requires IsBackup(b) && IsRun(b, states, events) && n < |states| && states[n].record.Some?
    requires settings.Keyed? <==> states[n].record.value.encrypted
    requires states[n].saved.Some? && MadeFrom(b, states[n].saved.value) ==>
      var o := states[n].saved.value;
        OtherKeyFails(b.platform, o.settings, settings, o.prefix, Packed(b.platform, b.tree, o.walk))
    ensures states[n].saved.Some? && MadeFrom(b, states[n].saved.value)
    ensures var record := states[n].record.value;
      var got := DownloadOf(b.platform, states[n].objects, record.dir, record.checksum, settings);
      got.Downloaded? ==>
        got.tree == b.tree || Collision(b.platform, states[n].objects, b.dir, ArchiveBy(b, states[n].saved.value))
  {
    RunIsAnchored(b, states, events, n);
    var o, record := states[n].saved.value, states[n].record.value;
    if DownloadOf(b.platform, states[n].objects, record.dir, record.checksum, settings).Downloaded? {
      RestoredIsPackaged(b.platform, b.tree, o.walk, o.settings, o.prefix, states[n].objects, b.dir, settings);
    }
  }
}
