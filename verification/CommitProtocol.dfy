/**
 How a backup package is committed and taken back. Uploading deletes the completion marker first and writes it last;
 finalizing a record deletes it first. So whenever the marker is there, after any single operation of any attempt,
 the package behind it is intact.
 */
module CommitProtocol {
  import opened Basics
  import opened ByteStreams
  import opened Checksum
  import opened Repository
  import opened Sorting

  /** What the workspace of a packaged task holds: its files, and the archive checksum saved in the task status. */
  datatype Package = Package(dir: string, files: map<string, Bytes>, checksum: string)

  /** The workspace is private to the task, so the archive is still the one whose digest was saved. */
  ghost predicate Packaged(sha: Digest, p: Package) {
    IsDigestFunction(sha) && p.files.Keys == PACKAGE_FILES && p.checksum == sha(p.files[ARCHIVE])
  }

  function At(p: Package, name: string): ObjectPath {
    ObjectPath(p.dir, name)
  }

  // ---- what uploading and finalizing do ----

  function Digests(sha: Digest, p: Package): map<string, string> {
    map name | name in p.files :: sha(p.files[name])
  }

  const NAMES: seq<string> := [ARCHIVE, METADATA, INDEX, SNAPSHOTS]

  lemma NamesEnumerate()
    ensures Enumerates(NAMES, PACKAGE_FILES)
  {
    assert |ARCHIVE| == 16 && |METADATA| == 13 && |INDEX| == 10 && |SNAPSHOTS| == 14;
  }

  lemma FourFiles(order: seq<string>)
    requires Enumerates(order, PACKAGE_FILES)
    ensures |order| == |NAMES|
  {
    NamesEnumerate();
    DistinctPermutation(order, NAMES);
    SameElements(order, NAMES);
  }

  /** The manifest lists the four files in sorted order. */
  function ManifestText(sha: Digest, p: Package): string
    requires p.files.Keys == PACKAGE_FILES
  {
    NamesEnumerate();
    EnumerationsSortAlike(PACKAGE_FILES, NAMES, NAMES);
    Render(Digests(sha, p), Sort(NAMES, StringLess))
  }

  function FilePuts(p: Package, order: seq<string>): (ops: seq<Op>)
    requires forall name :: name in order ==> name in p.files
    ensures |ops| == |order|
  {
    seq(|order|, i requires 0 <= i < |order| => Put(At(p, order[i]), p.files[order[i]]))
  }

  function UploadOps(sha: Digest, p: Package, order: seq<string>): seq<Op>
    requires p.files.Keys == PACKAGE_FILES && forall name :: name in order ==> name in p.files
  {
    [Delete(At(p, DONE))] + FilePuts(p, order)
    + [Put(At(p, MANIFEST), Encode(ManifestText(sha, p))), Put(At(p, DONE), Encode(p.checksum + "\n"))]
  }

  function FinalizeOps(dir: string): seq<Op> {
    [Delete(ObjectPath(dir, DONE)), Delete(ObjectPath(dir, MANIFEST)), Delete(ObjectPath(dir, ARCHIVE)),
     Delete(ObjectPath(dir, METADATA)), Delete(ObjectPath(dir, INDEX)), Delete(ObjectPath(dir, SNAPSHOTS)),
     DeleteDir(dir)]
  }

  // ---- the code ----

  class Store {
    var objects: Objects

    constructor (initial: Objects)
      ensures objects == initial
    {
      objects := initial;
    }

    method Do(op: Op)
      modifies this
      ensures objects == ApplyOp(old(objects), op)
    {
      match op
      case Put(path, data) => objects := objects[path := data];
      case Delete(path) => objects := objects - {path};
      case DeleteDir(dir) => objects := map path | path in objects && path.dir != dir :: objects[path];
    }

    /** One more operation after those of `ops`, which takes effect unless `stop` operations have been done. */
    method DoNext(op: Op, stop: nat, done: nat, ghost initial: Objects, ghost ops: seq<Op>) returns (now: nat)
      requires done == |Cut(ops, stop)| && objects == ApplyOps(initial, Cut(ops, stop))
      modifies this
      ensures now == |Cut(ops + [op], stop)| && objects == ApplyOps(initial, Cut(ops + [op], stop))
    {
      CutMore(initial, ops, op, stop);
      if done == stop {
        return done;
      }
      Do(op);
      return done + 1;
    }
  }

  lemma CutMore(initial: Objects, ops: seq<Op>, op: Op, stop: nat)
    ensures if |ops| < stop
      then Cut(ops, stop) == ops && Cut(ops + [op], stop) == ops + [op]
        && ApplyOps(initial, ops + [op]) == ApplyOp(ApplyOps(initial, ops), op)
      else Cut(ops + [op], stop) == Cut(ops, stop) && |Cut(ops, stop)| == stop
  {
    if |ops| < stop {
      ApplyConcat(initial, ops, [op]);
      ApplyOne(ApplyOps(initial, ops), op);
    } else {
      assert Cut(ops + [op], stop) == ops[..stop];
      assert stop == |ops| ==> ops[..stop] == ops;
    }
  }

  /**
   upload. Once `stop` operations have been done the process is dead and the rest has no effect. The files go up in
   whatever order the map delivers them.
   */
  method Upload(store: Store, sha: Digest, p: Package, stop: nat) returns (done: nat, ghost order: seq<string>)
    requires Packaged(sha, p)
    modifies store
    ensures Enumerates(order, PACKAGE_FILES)
    ensures store.objects == ApplyOps(old(store.objects), Cut(UploadOps(sha, p, order), stop))
    ensures done == |Cut(UploadOps(sha, p, order), stop)|
  {
    ghost var initial, start := store.objects, [Delete(At(p, DONE))];
    assert [] + start == start;
    done := store.DoNext(Delete(At(p, DONE)), stop, 0, initial, []);
    var manifest;
    manifest, done, order := PutFiles(store, sha, p, stop, done, initial, start);
    ghost var ops := start + FilePuts(p, order);
    var text := WriteManifest(sha, p, manifest);
    done := store.DoNext(Put(At(p, MANIFEST), Encode(text)), stop, done, initial, ops);
    ops := ops + [Put(At(p, MANIFEST), Encode(text))];
    done := store.DoNext(Put(At(p, DONE), Encode(p.checksum + "\n")), stop, done, initial, ops);
    assert ops + [Put(At(p, DONE), Encode(p.checksum + "\n"))] == UploadOps(sha, p, order);
  }

  /** The loop over the files: hash and put each. */
  method PutFiles(store: Store, sha: Digest, p: Package, stop: nat, before: nat, ghost initial: Objects,
                  ghost start: seq<Op>)
    returns (manifest: map<string, string>, done: nat, ghost order: seq<string>)
    requires p.files.Keys == PACKAGE_FILES
    requires store.objects == ApplyOps(initial, Cut(start, stop)) && before == |Cut(start, stop)|
    modifies store
    ensures manifest == Digests(sha, p) && Enumerates(order, PACKAGE_FILES)
    ensures store.objects == ApplyOps(initial, Cut(start + FilePuts(p, order), stop))
    ensures done == |Cut(start + FilePuts(p, order), stop)|
  {
    var todo := p.files.Keys;
    manifest, order, done := map[], [], before;
    assert start + FilePuts(p, order) == start;
    while todo != {}
      invariant todo <= p.files.Keys
      invariant Enumerates(order, p.files.Keys - todo)
      invariant manifest == map name | name in p.files && name !in todo :: sha(p.files[name])
      invariant store.objects == ApplyOps(initial, Cut(start + FilePuts(p, order), stop))
      invariant done == |Cut(start + FilePuts(p, order), stop)|
      decreases todo
    {
      var name :| name in todo;
      manifest := manifest[name := sha(p.files[name])];
      done := store.DoNext(Put(At(p, name), p.files[name]), stop, done, initial, start + FilePuts(p, order));
      MorePuts(p, start, order, name);
      order := order + [name];
      todo := todo - {name};
    }
    assert p.files.Keys - todo == PACKAGE_FILES;
  }

  lemma MorePuts(p: Package, start: seq<Op>, order: seq<string>, name: string)
    requires name in p.files && forall n :: n in order ==> n in p.files
    ensures start + FilePuts(p, order + [name]) == start + FilePuts(p, order) + [Put(At(p, name), p.files[name])]
  {
    assert FilePuts(p, order + [name]) == FilePuts(p, order) + [Put(At(p, name), p.files[name])];
  }

  method WriteManifest(sha: Digest, p: Package, manifest: map<string, string>) returns (text: string)
    requires p.files.Keys == PACKAGE_FILES && manifest == Digests(sha, p)
    ensures text == ManifestText(sha, p)
  {
    text := Manifest(manifest);
    NamesEnumerate();
  }

  /** The repository part of finalize. */
  method Finalize(store: Store, dir: string, stop: nat) returns (done: nat)
    modifies store
    ensures store.objects == ApplyOps(old(store.objects), Cut(FinalizeOps(dir), stop))
    ensures done == |Cut(FinalizeOps(dir), stop)|
  {
    var names := [DONE, MANIFEST, ARCHIVE, METADATA, INDEX, SNAPSHOTS];
    ghost var initial, ops := store.objects, FinalizeOps(dir);
    done := 0;
    var i := 0;
    assert Cut(ops[..0], stop) == [];
    while i < |names|
      invariant 0 <= i <= |names|
      invariant store.objects == ApplyOps(initial, Cut(ops[..i], stop)) && done == |Cut(ops[..i], stop)|
    {
      done := store.DoNext(Delete(ObjectPath(dir, names[i])), stop, done, initial, ops[..i]);
      assert ops[..i + 1] == ops[..i] + [Delete(ObjectPath(dir, names[i]))];
      i := i + 1;
    }
    done := store.DoNext(DeleteDir(dir), stop, done, initial, ops[..i]);
    assert ops == ops[..i] + [DeleteDir(dir)];
  }

  // ---- a finished upload ----

  ghost predicate Holds(objects: Objects, path: ObjectPath, data: Bytes) {
    path in objects && objects[path] == data
  }

  lemma {:induction false} FilesStored(objects: Objects, p: Package, order: seq<string>, n: nat)
    requires Distinct(order) && n <= |order| && forall name :: name in order ==> name in p.files
    ensures var after := ApplyOps(objects, FilePuts(p, order)[..n]);
      forall i :: 0 <= i < n ==> Holds(after, At(p, order[i]), p.files[order[i]])
  {
    if n > 0 {
      var puts := FilePuts(p, order);
      FilesStored(objects, p, order, n - 1);
      assert puts[..n] == puts[..n - 1] + [puts[n - 1]];
      ApplyConcat(objects, puts[..n - 1], [puts[n - 1]]);
      ApplyOne(ApplyOps(objects, puts[..n - 1]), puts[n - 1]);
    }
  }

  /** After the last two puts the files are still there, with the manifest and the marker beside them. */
  lemma StoredAtEnd(sha: Digest, objects: Objects, p: Package, order: seq<string>)
    requires Packaged(sha, p) && Enumerates(order, PACKAGE_FILES)
    ensures var after := ApplyOps(objects, UploadOps(sha, p, order));
      && (forall name :: name in PACKAGE_FILES ==> Holds(after, At(p, name), p.files[name]))
      && Holds(after, At(p, MANIFEST), Encode(ManifestText(sha, p)))
      && Holds(after, At(p, DONE), Encode(p.checksum + "\n"))
  {
    var first, puts := [Delete(At(p, DONE))], FilePuts(p, order);
    var last := [Put(At(p, MANIFEST), Encode(ManifestText(sha, p))), Put(At(p, DONE), Encode(p.checksum + "\n"))];
    ApplyConcat(objects, first + puts, last);
    ApplyConcat(objects, first, puts);
    var cleared := ApplyOps(objects, first);
    var filled := ApplyOps(cleared, puts);
    FilesStored(cleared, p, order, |order|);
    assert puts[..|order|] == puts;
    LastTwo(filled, last[0], last[1]);
    NamesDiffer();
    forall name | name in PACKAGE_FILES ensures Holds(ApplyOps(filled, last), At(p, name), p.files[name]) {
      var i :| 0 <= i < |order| && order[i] == name;
      assert Holds(filled, At(p, order[i]), p.files[order[i]]);
    }
  }

  lemma LastTwo(objects: Objects, a: Op, b: Op)
    ensures ApplyOps(objects, [a, b]) == ApplyOp(ApplyOp(objects, a), b)
  {
    assert [a, b] == [a] + [b];
    ApplyConcat(objects, [a], [b]);
    ApplyOne(objects, a);
    ApplyOne(ApplyOp(objects, a), b);
  }

  lemma NamesDiffer()
    ensures MANIFEST !in PACKAGE_FILES && DONE !in PACKAGE_FILES && DONE != MANIFEST
  {
    assert |DONE| == 5 && |MANIFEST| == 13 && MANIFEST[0] == 's' && METADATA[0] == 'm';
    assert |ARCHIVE| == 16 && |METADATA| == 13 && |INDEX| == 10 && |SNAPSHOTS| == 14;
  }

  lemma PackageNameFacts(name: string, sum: string)
    requires name in PACKAGE_FILES && IsDigest(sum)
    ensures WellFormedEntry(name, sum) && ByteText(name)
  {
    assert name == ARCHIVE || name == METADATA || name == INDEX || name == SNAPSHOTS;
    assert forall c :: c in name ==> c != '\n' && c as int < 256;
  }

  lemma {:induction false} RenderIsByteText(entries: map<string, string>, names: seq<string>)
    requires forall name :: name in names ==> name in entries && ByteText(name) && IsDigest(entries[name])
    ensures ByteText(Render(entries, names))
  {
    if names != [] {
      RenderIsByteText(entries, names[1..]);
      var line := Line(names[0], entries[names[0]]);
      assert forall c :: c in line ==> c in entries[names[0]] || c == ' ' || c in names[0];
      assert forall c :: c in Render(entries, names) ==> c in line || c == '\n' || c in Render(entries, names[1..]);
    }
  }

  /** Reading the stored manifest gives the digests of the files. */
  lemma ManifestReadsBack(sha: Digest, p: Package)
    requires Packaged(sha, p)
    ensures ParseFrom(Decode(Encode(ManifestText(sha, p))), map[]) == Parsed(Digests(sha, p))
  {
    var digests := Digests(sha, p);
    forall name | name in digests ensures WellFormedEntry(name, digests[name]) && ByteText(name) {
      PackageNameFacts(name, digests[name]);
    }
    NamesEnumerate();
    RoundTrip(digests, NAMES);
    RenderIsByteText(digests, Sort(NAMES, StringLess));
    TextRoundTrip(ManifestText(sha, p));
  }

  lemma MarkerReadsBack(checksum: string)
    requires IsDigest(checksum)
    ensures TrimSpace(Decode(Encode(checksum + "\n"))) == checksum
  {
    TextRoundTrip(checksum + "\n");
    TrimDigest(checksum);
  }

  /** A finished upload leaves an intact package, whatever was in the directory before. */
  lemma UploadCommits(sha: Digest, objects: Objects, p: Package, order: seq<string>)
    requires Packaged(sha, p) && Enumerates(order, PACKAGE_FILES)
    ensures Intact(sha, ApplyOps(objects, UploadOps(sha, p, order)), p.dir, p.checksum)
  {
    var after, digests := ApplyOps(objects, UploadOps(sha, p, order)), Digests(sha, p);
    StoredAtEnd(sha, objects, p, order);
    ManifestReadsBack(sha, p);
    MarkerReadsBack(p.checksum);
    assert ManifestOf(after, p.dir) == Parsed(digests);
    assert Lookup(digests, ARCHIVE) == p.checksum;
    forall name | name in digests ensures Matches(sha, after, p.dir, name, digests[name]) {
      assert Holds(after, At(p, name), p.files[name]);
    }
  }

  // ---- every single operation ----

  /** The invariant: where there is a marker, the package is intact and its archive is the one the task packaged. */
  ghost predicate CommitInv(sha: Digest, objects: Objects, p: Package) {
    At(p, DONE) in objects ==> Intact(sha, objects, p.dir, p.checksum)
  }

  /** An operation that does not put the marker. */
  predicate Unmarking(op: Op, path: ObjectPath) {
    op.Put? ==> op.path != path
  }

  lemma {:induction false} StaysUnmarked(objects: Objects, ops: seq<Op>, path: ObjectPath)
    requires path !in objects && forall op :: op in ops ==> Unmarking(op, path)
    ensures path !in ApplyOps(objects, ops)
    decreases |ops|
  {
    if ops != [] {
      assert Unmarking(ops[0], path);
      StaysUnmarked(ApplyOp(objects, ops[0]), ops[1..], path);
    }
  }

  /** A list that deletes the marker first and does not put it back leaves no marker, wherever it is cut. */
  lemma MarkerGone(objects: Objects, ops: seq<Op>, path: ObjectPath, stop: nat)
    requires 0 < stop <= |ops| && ops[0] == Delete(path)
    requires forall i :: 0 < i < stop ==> Unmarking(ops[i], path)
    ensures path !in ApplyOps(objects, ops[..stop])
  {
    assert ops[..stop][1..] == ops[1..stop];
    StaysUnmarked(ApplyOp(objects, ops[0]), ops[1..stop], path);
  }

  /** An upload that dies after its first operation leaves no marker. */
  lemma PartialUploadUnmarks(sha: Digest, objects: Objects, p: Package, order: seq<string>, stop: nat)
    requires Packaged(sha, p) && Enumerates(order, PACKAGE_FILES) && 0 < stop < |UploadOps(sha, p, order)|
    ensures At(p, DONE) !in ApplyOps(objects, Cut(UploadOps(sha, p, order), stop))
  {
    var ops := UploadOps(sha, p, order);
    NamesDiffer();
    forall i | 0 < i < stop ensures Unmarking(ops[i], At(p, DONE)) {
      if i <= |order| {
        assert ops[i] == Put(At(p, order[i - 1]), p.files[order[i - 1]]);
        assert order[i - 1] in order;
      }
    }
    MarkerGone(objects, ops, At(p, DONE), stop);
  }

  lemma UploadKeepsInv(sha: Digest, objects: Objects, p: Package, order: seq<string>, stop: nat)
    requires Packaged(sha, p) && Enumerates(order, PACKAGE_FILES) && CommitInv(sha, objects, p)
    ensures CommitInv(sha, ApplyOps(objects, Cut(UploadOps(sha, p, order), stop)), p)
  {
    var ops := UploadOps(sha, p, order);
    if stop >= |ops| {
      UploadCommits(sha, objects, p, order);
    } else if stop > 0 {
      PartialUploadUnmarks(sha, objects, p, order, stop);
    }
  }

  lemma FinalizeKeepsInv(sha: Digest, objects: Objects, p: Package, stop: nat)
    requires CommitInv(sha, objects, p)
    ensures CommitInv(sha, ApplyOps(objects, Cut(FinalizeOps(p.dir), stop)), p)
    ensures stop > 0 ==> At(p, DONE) !in ApplyOps(objects, Cut(FinalizeOps(p.dir), stop))
  {
    var ops := FinalizeOps(p.dir);
    assert ops[..|ops|] == ops;
    if stop > 0 {
      MarkerGone(objects, ops, At(p, DONE), if stop < |ops| then stop else |ops|);
    }
  }

  lemma OtherDirKeepsPackage(sha: Digest, objects: Objects, p: Package, op: Op)
    requires DirOf(op) != p.dir
    ensures SameDir(objects, ApplyOp(objects, op), p.dir)
    ensures Intact(sha, objects, p.dir, p.checksum) <==> Intact(sha, ApplyOp(objects, op), p.dir, p.checksum)
    ensures CommitInv(sha, objects, p) <==> CommitInv(sha, ApplyOp(objects, op), p)
  {
    IntactIsLocal(sha, objects, ApplyOp(objects, op), p.dir, p.checksum);
  }

  // ---- runs ----

  /** What happens to the repository: attempts at the upload and at its removal, cut anywhere, and other tasks' work. */
  datatype Event = UploadAttempt(order: seq<string>, stop: nat) | FinalizeAttempt(stop: nat) | OtherTask(op: Op)

  ghost predicate Possible(p: Package, e: Event) {
    match e
    case UploadAttempt(order, _) => Enumerates(order, PACKAGE_FILES)
    case FinalizeAttempt(_) => true
    case OtherTask(op) => DirOf(op) != p.dir
  }

  ghost function Happens(sha: Digest, p: Package, objects: Objects, e: Event): Objects
    requires Packaged(sha, p) && Possible(p, e)
  {
    match e
    case UploadAttempt(order, stop) => ApplyOps(objects, Cut(UploadOps(sha, p, order), stop))
    case FinalizeAttempt(stop) => ApplyOps(objects, Cut(FinalizeOps(p.dir), stop))
    case OtherTask(op) => ApplyOp(objects, op)
  }

  ghost function History(sha: Digest, p: Package, objects: Objects, events: seq<Event>): Objects
    requires Packaged(sha, p) && forall e :: e in events ==> Possible(p, e)
    decreases |events|
  {
    if events == [] then objects else History(sha, p, Happens(sha, p, objects, events[0]), events[1..])
  }

  lemma EventKeepsInv(sha: Digest, p: Package, objects: Objects, e: Event)
    requires Packaged(sha, p) && Possible(p, e) && CommitInv(sha, objects, p)
    ensures CommitInv(sha, Happens(sha, p, objects, e), p)
  {
    match e
    case UploadAttempt(order, stop) => UploadKeepsInv(sha, objects, p, order, stop);
    case FinalizeAttempt(stop) => FinalizeKeepsInv(sha, objects, p, stop);
    case OtherTask(op) => OtherDirKeepsPackage(sha, objects, p, op);
  }

  /**
   After every run that ends anywhere, even in the middle of an attempt, a completion marker stands for an intact
   package: the manifest parses, every file it lists is there with the listed digest, and manifest, marker and task
   agree on the archive.
   */
  lemma {:induction false} MarkerMeansIntact(sha: Digest, p: Package, objects: Objects, events: seq<Event>)
    requires Packaged(sha, p) && forall e :: e in events ==> Possible(p, e)
    requires CommitInv(sha, objects, p)
    ensures CommitInv(sha, History(sha, p, objects, events), p)
    decreases |events|
  {
    if events != [] {
      EventKeepsInv(sha, p, objects, events[0]);
      MarkerMeansIntact(sha, p, Happens(sha, p, objects, events[0]), events[1..]);
    }
  }

  // ---- the whole package ----

  /** Where there is a marker, the four files are the task's own, byte for byte, and the manifest is theirs. */
  ghost predicate StoredInv(sha: Digest, objects: Objects, p: Package)
    requires Packaged(sha, p)
  {
    At(p, DONE) in objects ==>
      && (forall name :: name in PACKAGE_FILES ==> Holds(objects, At(p, name), p.files[name]))
      && Holds(objects, At(p, MANIFEST), Encode(ManifestText(sha, p)))
  }

  lemma UploadKeepsStored(sha: Digest, objects: Objects, p: Package, order: seq<string>, stop: nat)
    requires Packaged(sha, p) && Enumerates(order, PACKAGE_FILES) && StoredInv(sha, objects, p)
    ensures StoredInv(sha, ApplyOps(objects, Cut(UploadOps(sha, p, order), stop)), p)
  {
    if stop >= |UploadOps(sha, p, order)| {
      StoredAtEnd(sha, objects, p, order);
    } else if stop > 0 {
      PartialUploadUnmarks(sha, objects, p, order, stop);
    }
  }

  lemma FinalizeKeepsStored(sha: Digest, objects: Objects, p: Package, stop: nat)
    requires Packaged(sha, p) && StoredInv(sha, objects, p)
    ensures StoredInv(sha, ApplyOps(objects, Cut(FinalizeOps(p.dir), stop)), p)
  {
    if stop > 0 {
      var ops := FinalizeOps(p.dir);
      assert ops[..|ops|] == ops;
      MarkerGone(objects, ops, At(p, DONE), if stop < |ops| then stop else |ops|);
    }
  }

  lemma OtherDirKeepsStored(sha: Digest, objects: Objects, p: Package, op: Op)
    requires Packaged(sha, p) && StoredInv(sha, objects, p) && DirOf(op) != p.dir
    ensures StoredInv(sha, ApplyOp(objects, op), p)
  {
    OtherDirKeepsPackage(sha, objects, p, op);
    assert forall name :: At(p, name).dir == p.dir;
  }

  lemma EventKeepsStored(sha: Digest, p: Package, objects: Objects, e: Event)
    requires Packaged(sha, p) && Possible(p, e) && StoredInv(sha, objects, p)
    ensures StoredInv(sha, Happens(sha, p, objects, e), p)
  {
    match e
    case UploadAttempt(order, stop) => UploadKeepsStored(sha, objects, p, order, stop);
    case FinalizeAttempt(stop) => FinalizeKeepsStored(sha, objects, p, stop);
    case OtherTask(op) => OtherDirKeepsStored(sha, objects, p, op);
  }

  /** After every run a completion marker stands for exactly the four files the task packaged. */
  lemma {:induction false} MarkerMeansStored(sha: Digest, p: Package, objects: Objects, events: seq<Event>)
    requires Packaged(sha, p) && forall e :: e in events ==> Possible(p, e)
    requires StoredInv(sha, objects, p)
    ensures StoredInv(sha, History(sha, p, objects, events), p)
    decreases |events|
  {
    if events != [] {
      EventKeepsStored(sha, p, objects, events[0]);
      MarkerMeansStored(sha, p, Happens(sha, p, objects, events[0]), events[1..]);
    }
  }

  // ---- nothing else is touched, and nothing is left ----

  lemma {:induction false} OpsStayInDir(objects: Objects, ops: seq<Op>, dir: string, other: string)
    requires other != dir && forall op :: op in ops ==> DirOf(op) == dir
    ensures SameDir(objects, ApplyOps(objects, ops), other)
    decreases |ops|
  {
    if ops != [] {
      assert ops[0] in ops;
      OpsStayInDir(ApplyOp(objects, ops[0]), ops[1..], dir, other);
    }
  }

  lemma UploadsInDir(sha: Digest, p: Package, order: seq<string>, op: Op)
    requires Packaged(sha, p) && Enumerates(order, PACKAGE_FILES) && op in UploadOps(sha, p, order)
    ensures DirOf(op) == p.dir
  {
    var puts := FilePuts(p, order);
    if op in puts {
      var i :| 0 <= i < |puts| && puts[i] == op;
    }
  }

  /** An upload cut anywhere leaves every other directory alone. */
  lemma UploadStaysInDir(sha: Digest, objects: Objects, p: Package, order: seq<string>, stop: nat, other: string)
    requires Packaged(sha, p) && Enumerates(order, PACKAGE_FILES) && other != p.dir
    ensures SameDir(objects, ApplyOps(objects, Cut(UploadOps(sha, p, order), stop)), other)
  {
    var ops := UploadOps(sha, p, order);
    forall op | op in Cut(ops, stop) ensures DirOf(op) == p.dir {
      UploadsInDir(sha, p, order, op);
    }
    OpsStayInDir(objects, Cut(ops, stop), p.dir, other);
  }

  /** So does a deletion. */
  lemma FinalizeStaysInDir(objects: Objects, dir: string, stop: nat, other: string)
    requires other != dir
    ensures SameDir(objects, ApplyOps(objects, Cut(FinalizeOps(dir), stop)), other)
  {
    OpsStayInDir(objects, Cut(FinalizeOps(dir), stop), dir, other);
  }

  /** A whole deletion leaves nothing in the directory. */
  lemma FinalizeEmpties(objects: Objects, dir: string)
    ensures forall path :: path in ApplyOps(objects, FinalizeOps(dir)) ==> path.dir != dir
  {
    var ops := FinalizeOps(dir);
    var init, last := ops[..|ops| - 1], ops[|ops| - 1];
    assert ops == init + [last];
    ApplyConcat(objects, init, [last]);
    ApplyOne(ApplyOps(objects, init), last);
  }

  // ---- a manifest that leaves a file out ----

  /** A package whose manifest lists the archive only. */
  function ArchiveAlone(sha: Digest, p: Package): Objects
    requires p.files.Keys == PACKAGE_FILES
  {
    map[At(p, ARCHIVE) := p.files[ARCHIVE],
        At(p, MANIFEST) := Encode(Render(map[ARCHIVE := p.checksum], [ARCHIVE])),
        At(p, DONE) := Encode(p.checksum + "\n")]
  }

  lemma AloneReadsBack(sha: Digest, p: Package)
    requires Packaged(sha, p)
    ensures var entries := map[ARCHIVE := p.checksum];
      ParseFrom(Decode(Encode(Render(entries, [ARCHIVE]))), map[]) == Parsed(entries)
  {
    var entries, names := map[ARCHIVE := p.checksum], [ARCHIVE];
    PackageNameFacts(ARCHIVE, p.checksum);
    assert Sort(names, StringLess) == names;
    RoundTrip(entries, names);
    RenderIsByteText(entries, names);
    TextRoundTrip(Render(entries, names));
  }

  lemma AloneHolds(sha: Digest, p: Package)
    requires p.files.Keys == PACKAGE_FILES
    ensures var objects := ArchiveAlone(sha, p);
      && Holds(objects, At(p, ARCHIVE), p.files[ARCHIVE])
      && Holds(objects, At(p, MANIFEST), Encode(Render(map[ARCHIVE := p.checksum], [ARCHIVE])))
      && Holds(objects, At(p, DONE), Encode(p.checksum + "\n"))
      && At(p, INDEX) !in objects
  {
    NamesDiffer();
    assert |INDEX| == 10 && |ARCHIVE| == 16 && |MANIFEST| == 13 && |DONE| == 5;
  }

  /** The check passes although three of the four files are missing. */
  lemma UnlistedFilesGoUnnoticed(sha: Digest, p: Package)
    requires Packaged(sha, p)
    ensures Intact(sha, ArchiveAlone(sha, p), p.dir, p.checksum) && At(p, INDEX) !in ArchiveAlone(sha, p)
  {
    AloneHolds(sha, p);
    AloneReadsBack(sha, p);
    MarkerReadsBack(p.checksum);
    LowerOfDigest(p.checksum);
    IntactIff(sha, ArchiveAlone(sha, p), p.dir, p.checksum);
  }
}
