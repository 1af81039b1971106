/**
 Backup packages in a repository: a map from object paths to bytes with atomic puts and deletes. Here is what it
 takes for a package to be intact, and the check of it that both the backup task and the record controller run.
 The digest function is a parameter; all that is used of it is that it returns 64 lower-case hex digits.
 */
module Repository {
  import opened Basics
  import opened ByteStreams
  import opened Checksum
  import opened Sorting

  datatype ObjectPath = ObjectPath(dir: string, name: string)

  type Objects = map<ObjectPath, Bytes>

  type Digest = Bytes -> string

  const DONE := ".done"
  const MANIFEST := "sha256sum.txt"
  const ARCHIVE := "resources.tar.gz"
  const METADATA := "metadata.json"
  const INDEX := "index.json"
  const SNAPSHOTS := "snapshots.json"

  const PACKAGE_FILES: set<string> := {ARCHIVE, METADATA, INDEX, SNAPSHOTS}

  ghost predicate IsDigestFunction(sha: Digest) {
    forall b :: IsDigest(sha(b))
  }

  // ---- text ----

  /** A string is a sequence of bytes; a character stands for the byte of the same value. */
  function Encode(s: string): (b: Bytes)
    ensures |b| == |s|
  {
    seq(|s|, i requires 0 <= i < |s| => ((s[i] as int) % 256) as byte)
  }

  function Decode(b: Bytes): (s: string)
    ensures |s| == |b|
  {
    seq(|b|, i requires 0 <= i < |b| => (b[i] as int) as char)
  }

  ghost predicate ByteText(s: string) {
    forall c :: c in s ==> c as int < 256
  }

  lemma TextRoundTrip(s: string)
    requires ByteText(s)
    ensures Decode(Encode(s)) == s
  {
    forall i | 0 <= i < |s| ensures Decode(Encode(s))[i] == s[i] {
      assert s[i] in s;
    }
  }

  predicate IsSpace(c: char) {
    c in {' ', '\t', '\n', '\r', 11 as char, 12 as char}
  }

  function TrimSpace(s: string): string {
    if s != "" && IsSpace(s[0]) then TrimSpace(s[1..])
    else if s != "" && IsSpace(s[|s| - 1]) then TrimSpace(s[..|s| - 1])
    else s
  }

  /** Tab to carriage return, and the space. */
  predicate White(c: char) {
    c == ' ' || 9 <= c as int <= 13
  }

  ghost predicate Blank(s: string) {
    forall c :: c in s ==> White(c)
  }

  lemma {:induction false} TrimmedEnds(s: string)
    ensures var t := TrimSpace(s); t != "" ==> !White(t[0]) && !White(t[|t| - 1])
    decreases |s|
  {
    if s != "" && IsSpace(s[0]) {
      TrimmedEnds(s[1..]);
    } else if s != "" && IsSpace(s[|s| - 1]) {
      TrimmedEnds(s[..|s| - 1]);
    }
  }

  /** Trimming takes white space off both ends, all of it and nothing else. */
  lemma {:induction false} TrimFacts(s: string) returns (left: string, right: string)
    ensures s == left + TrimSpace(s) + right && Blank(left) && Blank(right)
    ensures var t := TrimSpace(s); t != "" ==> !White(t[0]) && !White(t[|t| - 1])
    decreases |s|
  {
    TrimmedEnds(s);
    left, right := "", "";
    if s != "" && IsSpace(s[0]) {
      left, right := TrimFacts(s[1..]);
      assert s == [s[0]] + s[1..] == [s[0]] + left + TrimSpace(s) + right;
      left := [s[0]] + left;
    } else if s != "" && IsSpace(s[|s| - 1]) {
      left, right := TrimFacts(s[..|s| - 1]);
      assert s == s[..|s| - 1] + [s[|s| - 1]] == left + TrimSpace(s) + (right + [s[|s| - 1]]);
      right := right + [s[|s| - 1]];
    }
  }

  lemma TrimDigest(s: string)
    requires IsDigest(s)
    ensures TrimSpace(s + "\n") == s && TrimSpace(s) == s
  {
    assert s[0] in s && s[|s| - 1] in s;
    assert (s + "\n")[..|s|] == s;
  }

  // ---- intact packages ----

  /** The manifest the objects hold for a directory. */
  function ManifestOf(objects: Objects, dir: string): ParseResult {
    var path := ObjectPath(dir, MANIFEST);
    if path in objects then ParseFrom(Decode(objects[path]), map[]) else Malformed
  }

  predicate Matches(sha: Digest, objects: Objects, dir: string, name: string, expected: string) {
    var path := ObjectPath(dir, name);
    path in objects && EqualFold(sha(objects[path]), expected)
  }

  predicate MarkerMatches(objects: Objects, dir: string, checksum: string) {
    var path := ObjectPath(dir, DONE);
    path in objects && EqualFold(TrimSpace(Decode(objects[path])), checksum)
  }

  /**
   The marker is there and names the checksum, the manifest parses and names the checksum for the archive, and
   every file of the manifest is there with the content the manifest names.
   */
  ghost predicate Intact(sha: Digest, objects: Objects, dir: string, checksum: string) {
    var manifest := ManifestOf(objects, dir);
    && MarkerMatches(objects, dir, checksum)
    && manifest.Parsed?
    && EqualFold(Lookup(manifest.entries, ARCHIVE), checksum)
    && forall name :: name in manifest.entries ==> Matches(sha, objects, dir, name, manifest.entries[name])
  }

  /** Every file the manifest lists is there, and has the listed digest up to case. */
  ghost predicate ListedFilesMatch(sha: Digest, objects: Objects, dir: string, entries: map<string, string>) {
    forall name :: name in entries ==>
      ObjectPath(dir, name) in objects && Lower(sha(objects[ObjectPath(dir, name)])) == Lower(entries[name])
  }

  /** What it takes for the check to pass, for a digest `checksum`. */
  lemma IntactIff(sha: Digest, objects: Objects, dir: string, checksum: string)
    requires IsDigest(checksum)
    ensures Intact(sha, objects, dir, checksum) <==>
      && ObjectPath(dir, DONE) in objects
      && Lower(TrimSpace(Decode(objects[ObjectPath(dir, DONE)]))) == checksum
      && ObjectPath(dir, MANIFEST) in objects
      && var parsed := ParseFrom(Decode(objects[ObjectPath(dir, MANIFEST)]), map[]);
        && parsed.Parsed?
        && ARCHIVE in parsed.entries && Lower(parsed.entries[ARCHIVE]) == checksum
        && ListedFilesMatch(sha, objects, dir, parsed.entries)
  {
    LowerOfDigest(checksum);
    var entries := ManifestOf(objects, dir);
    if entries.Parsed? && ARCHIVE !in entries.entries {
      assert |Lower(Lookup(entries.entries, ARCHIVE))| == 0;
    }
    assert forall name :: ObjectPath(dir, name) in objects && entries.Parsed? && name in entries.entries ==>
      (Matches(sha, objects, dir, name, entries.entries[name])
       <==> Lower(sha(objects[ObjectPath(dir, name)])) == Lower(entries.entries[name]));
  }

  /** The check the backup task and the record controller share. The manifest is walked in no particular order. */
  method VerifyPackage(sha: Digest, objects: Objects, dir: string, checksum: string) returns (ok: bool, verified: nat)
    ensures ok <==> Intact(sha, objects, dir, checksum)
    ensures ok ==> verified == |ManifestOf(objects, dir).entries|
  {
    verified := 0;
    if !MarkerMatches(objects, dir, checksum) {
      return false, 0;
    }
    if ObjectPath(dir, MANIFEST) !in objects {
      return false, 0;
    }
    var manifest := ParseManifest(Decode(objects[ObjectPath(dir, MANIFEST)]));
    if !manifest.Parsed? {
      return false, 0;
    }
    var entries := manifest.entries;
    if !EqualFold(Lookup(entries, ARCHIVE), checksum) {
      return false, 0;
    }
    var todo := entries.Keys;
    while todo != {}
      invariant todo <= entries.Keys && verified == |entries| - |todo|
      invariant forall name :: name in entries && name !in todo ==> Matches(sha, objects, dir, name, entries[name])
      decreases todo
    {
      var name :| name in todo;
      if !Matches(sha, objects, dir, name, entries[name]) {
        return false, 0;
      }
      todo := todo - {name};
      verified := verified + 1;
    }
    return true, verified;
  }

  /**
   Replacing one file of an intact package, other than marker and manifest, goes unnoticed exactly when the manifest
   does not list it or the new content has the listed digest.
   */
  lemma ReplacedFileIff(sha: Digest, objects: Objects, dir: string, checksum: string, name: string, data: Bytes)
    requires IsDigest(checksum) && Intact(sha, objects, dir, checksum) && name != MANIFEST && name != DONE
    ensures var entries := ManifestOf(objects, dir).entries;
      Intact(sha, objects[ObjectPath(dir, name) := data], dir, checksum)
      <==> (name in entries ==> Lower(sha(data)) == Lower(entries[name]))
  {
    var after, entries := objects[ObjectPath(dir, name) := data], ManifestOf(objects, dir).entries;
    IntactIff(sha, objects, dir, checksum);
    IntactIff(sha, after, dir, checksum);
    if name in entries && Lower(sha(data)) == Lower(entries[name]) {
      assert ListedFilesMatch(sha, after, dir, entries);
    }
  }

  /** Removing it goes unnoticed exactly when the manifest does not list it. */
  lemma RemovedFileIff(sha: Digest, objects: Objects, dir: string, checksum: string, name: string)
    requires IsDigest(checksum) && Intact(sha, objects, dir, checksum) && name != MANIFEST && name != DONE
    ensures Intact(sha, objects - {ObjectPath(dir, name)}, dir, checksum)
      <==> name !in ManifestOf(objects, dir).entries
  {
    var after, entries := objects - {ObjectPath(dir, name)}, ManifestOf(objects, dir).entries;
    IntactIff(sha, objects, dir, checksum);
    IntactIff(sha, after, dir, checksum);
    if name !in entries {
      assert ListedFilesMatch(sha, after, dir, entries);
    }
  }

  /** What an intact package guarantees about its archive. */
  lemma IntactArchive(sha: Digest, objects: Objects, dir: string, checksum: string)
    requires IsDigestFunction(sha) && Intact(sha, objects, dir, checksum) && IsDigest(checksum)
    ensures ObjectPath(dir, ARCHIVE) in objects && sha(objects[ObjectPath(dir, ARCHIVE)]) == checksum
  {
    var entries := ManifestOf(objects, dir).entries;
    assert |Lower(Lookup(entries, ARCHIVE))| == |Lower(checksum)| == DIGEST_LENGTH;
    assert Matches(sha, objects, dir, ARCHIVE, entries[ARCHIVE]);
    EqualFoldOnDigests(sha(objects[ObjectPath(dir, ARCHIVE)]), checksum);
  }

  // ---- operations ----

  datatype Op = Put(path: ObjectPath, data: Bytes) | Delete(path: ObjectPath) | DeleteDir(dir: string)

  function DirOf(op: Op): string {
    if op.DeleteDir? then op.dir else op.path.dir
  }

  function ApplyOp(objects: Objects, op: Op): Objects {
    match op
    case Put(path, data) => objects[path := data]
    case Delete(path) => objects - {path}
    case DeleteDir(dir) => map path | path in objects && path.dir != dir :: objects[path]
  }

  function ApplyOps(objects: Objects, ops: seq<Op>): Objects
    decreases |ops|
  {
    if ops == [] then objects else ApplyOps(ApplyOp(objects, ops[0]), ops[1..])
  }

  lemma {:induction false} ApplyConcat(objects: Objects, a: seq<Op>, b: seq<Op>)
    ensures ApplyOps(objects, a + b) == ApplyOps(ApplyOps(objects, a), b)
    decreases |a|
  {
    if a == [] {
      assert a + b == b;
    } else {
      assert (a + b)[1..] == a[1..] + b;
      ApplyConcat(ApplyOp(objects, a[0]), a[1..], b);
    }
  }

  lemma ApplyOne(objects: Objects, op: Op)
    ensures ApplyOps(objects, [op]) == ApplyOp(objects, op)
  {
    assert [op][1..] == [];
  }

  /** The package of one directory depends on that directory only. */
  ghost predicate SameDir(a: Objects, b: Objects, dir: string) {
    forall path: ObjectPath :: path.dir == dir ==> (path in a <==> path in b) && (path in a ==> a[path] == b[path])
  }

  lemma IntactIsLocal(sha: Digest, a: Objects, b: Objects, dir: string, checksum: string)
    requires SameDir(a, b, dir)
    ensures Intact(sha, a, dir, checksum) <==> Intact(sha, b, dir, checksum)
  {
    assert ManifestOf(a, dir) == ManifestOf(b, dir);
    assert forall name, sum :: Matches(sha, a, dir, name, sum) <==> Matches(sha, b, dir, name, sum);
  }
}
