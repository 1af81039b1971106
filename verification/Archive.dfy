/**
 Packing a payload tree into a list of archive entries and extracting such a list again. A tree maps
 relative paths, as lists of names, to nodes; its root directory is implicit. The tar and gzip byte formats
 are left to the module that stores archives.
 */
module Archive {
  import opened Basics
  import opened ByteStreams
  import opened Sorting

  type Path = seq<string>

  datatype Node = Directory | File(content: Bytes) | Symlink(target: string)

  type Tree = map<Path, Node>

  datatype EntryKind = DirEntry | RegEntry | OtherEntry

  datatype Entry = Entry(name: string, kind: EntryKind, content: Bytes)

  datatype CreateResult = Created(entries: seq<Entry>) | SymlinkRejected

  /** What there is below the destination when extraction ends, however it ends. */
  datatype ExtractResult =
    | Extracted(tree: Tree, bytes: nat)
    | UnsafePath(tree: Tree) | TooLarge(tree: Tree) | UnsupportedEntry(tree: Tree) | FileSystemError(tree: Tree)

  const DEFAULT_LIMIT: nat := 20 * 1024 * 1024 * 1024

  // ---- names and paths ----

  function Join(p: Path): string {
    if p == [] then "" else if |p| == 1 then p[0] else p[0] + "/" + Join(p[1..])
  }

  function Split(s: string): (p: Path)
    ensures p != []
  {
    if s == "" then [""]
    else
      var rest := Split(s[1..]);
      if s[0] == '/' then [""] + rest else [[s[0]] + rest[0]] + rest[1..]
  }

  /** One component of filepath.Clean on a relative path. */
  function CleanStep(done: Path, part: string): Path {
    if part == "" || part == "." then done
    else if part == ".." && done != [] && done[|done| - 1] != ".." then done[..|done| - 1]
    else done + [part]
  }

  function Clean(done: Path, parts: Path): Path
    decreases |parts|
  {
    if parts == [] then done else Clean(CleanStep(done, parts[0]), parts[1..])
  }

  ghost predicate PlainName(name: string) {
    name != "" && name != "." && name != ".." && '/' !in name
  }

  ghost predicate PlainPath(p: Path) {
    p != [] && forall i :: 0 <= i < |p| ==> PlainName(p[i])
  }

  ghost predicate ParentPresent(t: Tree, p: Path) {
    |p| > 1 ==> p[..|p| - 1] in t && t[p[..|p| - 1]] == Directory
  }

  /** What a directory on disk looks like: plain names, and every parent is a directory. */
  ghost predicate WellFormed(t: Tree) {
    && (forall p :: p in t ==> PlainPath(p))
    && (forall p {:trigger ParentPresent(t, p)} :: p in t ==> ParentPresent(t, p))
  }

  lemma {:induction false} SplitPlain(name: string)
    requires '/' !in name
    ensures Split(name) == [name]
  {
    if name != "" {
      SplitPlain(name[1..]);
      assert name == [name[0]] + name[1..];
    }
  }

  lemma {:induction false} SplitAtSlash(name: string, rest: string)
    requires '/' !in name
    ensures Split(name + "/" + rest) == [name] + Split(rest)
  {
    var s := name + "/" + rest;
    if name == "" {
      assert s[1..] == rest;
    } else {
      assert s[1..] == name[1..] + "/" + rest;
      SplitAtSlash(name[1..], rest);
      assert name == [name[0]] + name[1..];
    }
  }

  lemma {:induction false} SplitJoin(p: Path)
    requires PlainPath(p)
    ensures Split(Join(p)) == p
  {
    assert PlainName(p[0]);
    if |p| == 1 {
      SplitPlain(p[0]);
      assert p == [p[0]];
    } else {
      SplitAtSlash(p[0], Join(p[1..]));
      SplitJoin(p[1..]);
      assert p == [p[0]] + p[1..];
    }
  }

  lemma {:induction false} CleanPlain(done: Path, parts: Path)
    requires forall i :: 0 <= i < |parts| ==> PlainName(parts[i])
    ensures Clean(done, parts) == done + parts
    decreases |parts|
  {
    if parts != [] {
      assert PlainName(parts[0]);
      CleanPlain(done + [parts[0]], parts[1..]);
      assert done + [parts[0]] + parts[1..] == done + parts;
    } else {
      assert done + parts == done;
    }
  }

  // ---- create ----

  function EntryOf(t: Tree, name: string): Entry
    requires Split(name) in t
  {
    match t[Split(name)]
    case File(content) => Entry(name, RegEntry, content)
    case _ => Entry(name, DirEntry, [])
  }

  function EntriesOf(t: Tree, names: seq<string>): (entries: seq<Entry>)
    requires forall n :: n in names ==> Split(n) in t
    ensures |entries| == |names|
  {
    if names == [] then [] else EntriesOf(t, names[..|names| - 1]) + [EntryOf(t, names[|names| - 1])]
  }

  ghost predicate NoSymlinks(t: Tree) {
    forall p :: p in t ==> !t[p].Symlink?
  }

  /** `walk` lists the paths of the tree, each once, in the order the directory walk meets them. */
  ghost predicate Walks(walk: seq<Path>, t: Tree) {
    Distinct(walk) && forall p :: p in walk <==> p in t
  }

  function Names(walk: seq<Path>): (names: seq<string>)
    ensures |names| == |walk|
    ensures forall i :: 0 <= i < |walk| ==> names[i] == Join(walk[i])
  {
    if walk == [] then [] else Names(walk[..|walk| - 1]) + [Join(walk[|walk| - 1])]
  }

  lemma NamesOfWalk(walk: seq<Path>, t: Tree)
    requires WellFormed(t) && Walks(walk, t)
    ensures forall n :: n in Names(walk) ==> Split(n) in t && n == Join(Split(n))
    ensures Distinct(Names(walk))
  {
    forall n | n in Names(walk) ensures Split(n) in t && n == Join(Split(n)) {
      var i :| 0 <= i < |walk| && Names(walk)[i] == n;
      assert walk[i] in walk;
      SplitJoin(walk[i]);
    }
    forall i, j | 0 <= i < j < |walk| ensures Names(walk)[i] != Names(walk)[j] {
      assert walk[i] in walk && walk[j] in walk;
      SplitJoin(walk[i]);
      SplitJoin(walk[j]);
    }
  }

  /** The member names in archive order. */
  function ArchiveNames(walk: seq<Path>): seq<string> {
    Sort(Names(walk), StringLess)
  }

  /** What there is to know about the member names of an archive of `t`. */
  ghost predicate ArchiveOrder(names: seq<string>, t: Tree) {
    && SortedBy(names, StringLess) && Distinct(names)
    && (forall n :: n in names ==> Split(n) in t && n == Join(Split(n)))
    && (forall p :: p in t ==> Join(p) in names)
  }

  lemma ArchiveNamesFacts(walk: seq<Path>, t: Tree)
    requires WellFormed(t) && Walks(walk, t)
    ensures ArchiveOrder(ArchiveNames(walk), t)
  {
    NamesOfWalk(walk, t);
    StringOrder();
    SortFacts(Names(walk), StringLess);
    SameElements(Names(walk), ArchiveNames(walk));
    PermutationKeepsDistinct(Names(walk), ArchiveNames(walk));
    forall p | p in t ensures Join(p) in ArchiveNames(walk) {
      assert p in walk;
      var i :| 0 <= i < |walk| && walk[i] == p;
      assert Names(walk)[i] == Join(p);
    }
  }

  /** The archive does not depend on the order of the directory walk. */
  lemma ArchiveIsDeterministic(t: Tree, walk1: seq<Path>, walk2: seq<Path>)
    requires WellFormed(t) && Walks(walk1, t) && Walks(walk2, t)
    ensures ArchiveNames(walk1) == ArchiveNames(walk2)
  {
    ArchiveNamesFacts(walk1, t);
    ArchiveNamesFacts(walk2, t);
    var a, b := ArchiveNames(walk1), ArchiveNames(walk2);
    DistinctPermutation(a, b);
    StringsNeverTie(a);
    SortedIsUnique(a, b, StringLess);
  }

  /** Create: reject symbolic links, then write one entry per path in name order. */
  method Create(t: Tree, walk: seq<Path>) returns (result: CreateResult)
    requires WellFormed(t) && Walks(walk, t)
    ensures result.Created? <==> NoSymlinks(t)
    ensures forall n :: n in ArchiveNames(walk) ==> Split(n) in t
    ensures result.Created? ==> result.entries == EntriesOf(t, ArchiveNames(walk))
  {
    ArchiveNamesFacts(walk, t);
    var ok, paths := CollectPaths(t, walk);
    if !ok {
      return SymlinkRejected;
    }
    paths := Sort(paths, StringLess);
    var entries := WriteEntries(t, paths);
    return Created(entries);
  }

  /** The directory walk. */
  method CollectPaths(t: Tree, walk: seq<Path>) returns (ok: bool, paths: seq<string>)
    requires Walks(walk, t)
    ensures ok <==> NoSymlinks(t)
    ensures ok ==> paths == Names(walk)
  {
    paths := [];
    var i := 0;
    while i < |walk|
      invariant 0 <= i <= |walk|
      invariant paths == Names(walk[..i])
      invariant forall k :: 0 <= k < i ==> !t[walk[k]].Symlink?
    {
      if t[walk[i]].Symlink? {
        assert walk[i] in t;
        return false, paths;
      }
      assert walk[..i + 1] == walk[..i] + [walk[i]];
      paths := paths + [Join(walk[i])];
      i := i + 1;
    }
    assert walk[..i] == walk;
    return true, paths;
  }

  method WriteEntries(t: Tree, paths: seq<string>) returns (entries: seq<Entry>)
    requires forall n :: n in paths ==> Split(n) in t
    ensures entries == EntriesOf(t, paths)
  {
    entries := [];
    var i := 0;
    while i < |paths|
      invariant 0 <= i <= |paths|
      invariant entries == EntriesOf(t, paths[..i])
    {
      assert paths[..i + 1] == paths[..i] + [paths[i]];
      entries := entries + [EntryOf(t, paths[i])];
      i := i + 1;
    }
    assert paths[..i] == paths;
  }

  // ---- extract ----

  function MkdirAll(t: Tree, p: Path): Option<Tree> {
    if p == [] then Some(t)
    else
      match MkdirAll(t, p[..|p| - 1])
      case None => None
      case Some(t1) =>
        if p !in t1 then Some(t1[p := Directory])
        else if t1[p] == Directory then Some(t1)
        else None
  }

  function WriteFile(t: Tree, p: Path, content: Bytes): Option<Tree> {
    if p == [] then None
    else
      match MkdirAll(t, p[..|p| - 1])
      case None => None
      case Some(t1) => if p in t1 && t1[p] == Directory then None else Some(t1[p := File(content)])
  }

  /** What making a directory and its parents leaves on the disk, however it ends: everything up to the obstacle. */
  function MkdirLeft(t: Tree, p: Path): Tree {
    if p == [] then t
    else
      match MkdirAll(t, p)
      case Some(t1) => t1
      case None => MkdirLeft(t, p[..|p| - 1])
  }

  function Limit(maxBytes: int): nat {
    if maxBytes <= 0 then DEFAULT_LIMIT else maxBytes
  }

  /** One entry. The parents of a file are made before the file is opened. */
  function ExtractEntry(t: Tree, bytes: nat, e: Entry, limit: nat): ExtractResult {
    if e.name == "" || e.name[0] == '/' then UnsafePath(t)
    else
      var p := Clean([], Split(e.name));
      if p != [] && p[0] == ".." then UnsafePath(t)
      else
        match e.kind
        case DirEntry =>
          (match MkdirAll(t, p)
           case None => FileSystemError(MkdirLeft(t, p))
           case Some(t1) => Extracted(t1, bytes))
        case RegEntry =>
          if bytes + |e.content| > limit then TooLarge(t)
          else
            (match WriteFile(t, p, e.content)
             case None => FileSystemError(if p == [] then t else MkdirLeft(t, p[..|p| - 1]))
             case Some(t1) => Extracted(t1, bytes + |e.content|))
        case OtherEntry => UnsupportedEntry(t)
  }

  function ExtractFrom(t: Tree, bytes: nat, entries: seq<Entry>, limit: nat): ExtractResult
    decreases |entries|
  {
    if entries == [] then Extracted(t, bytes)
    else
      match ExtractEntry(t, bytes, entries[0], limit)
      case Extracted(t1, b1) => ExtractFrom(t1, b1, entries[1..], limit)
      case failure => failure
  }

  /** Extract into an empty directory. */
  method Extract(entries: seq<Entry>, maxBytes: int) returns (result: ExtractResult)
    ensures result == ExtractFrom(map[], 0, entries, Limit(maxBytes))
  {
    var limit := Limit(maxBytes);
    var tree: Tree, bytes := map[], 0;
    var i := 0;
    while i < |entries|
      invariant 0 <= i <= |entries|
      invariant ExtractFrom(map[], 0, entries, limit) == ExtractFrom(tree, bytes, entries[i..], limit)
    {
      var step := ExtractEntry(tree, bytes, entries[i], limit);
      if !step.Extracted? {
        return step;
      }
      assert entries[i..][1..] == entries[i + 1..];
      tree, bytes := step.tree, step.bytes;
      i := i + 1;
    }
    return Extracted(tree, bytes);
  }

  // ---- extraction stays inside the destination ----

  /** A cleaned path climbs only at its front: once past the leading "..", all names are plain. */
  ghost predicate Cleaned(p: Path) {
    forall i :: 0 <= i < |p| ==>
      && '/' !in p[i] && p[i] != "" && p[i] != "."
      && (p[i] == ".." ==> p[0] == "..")
  }

  lemma {:induction false} SplitHasNoSlash(s: string)
    ensures forall i :: 0 <= i < |Split(s)| ==> '/' !in Split(s)[i]
  {
    if s != "" {
      SplitHasNoSlash(s[1..]);
    }
  }

  lemma {:induction false} CleanIsCleaned(done: Path, parts: Path)
    requires Cleaned(done) && forall i :: 0 <= i < |parts| ==> '/' !in parts[i]
    ensures Cleaned(Clean(done, parts))
    decreases |parts|
  {
    if parts != [] {
      CleanIsCleaned(CleanStep(done, parts[0]), parts[1..]);
    }
  }

  lemma {:induction false} MkdirKeepsShape(t: Tree, p: Path)
    requires WellFormed(t) && MkdirAll(t, p).Some? && forall i :: 0 <= i < |p| ==> PlainName(p[i])
    ensures WellFormed(MkdirAll(t, p).value)
    ensures p != [] ==> p in MkdirAll(t, p).value && MkdirAll(t, p).value[p] == Directory
    ensures forall q :: q in t ==> q in MkdirAll(t, p).value && MkdirAll(t, p).value[q] == t[q]
  {
    if p != [] {
      MkdirKeepsShape(t, p[..|p| - 1]);
      var t1, t2 := MkdirAll(t, p[..|p| - 1]).value, MkdirAll(t, p).value;
      forall q | q in t2 ensures ParentPresent(t2, q) {
        assert q in t1 ==> ParentPresent(t1, q);
      }
    }
  }

  lemma WriteKeepsShape(t: Tree, p: Path, content: Bytes)
    requires WellFormed(t) && WriteFile(t, p, content).Some? && forall i :: 0 <= i < |p| ==> PlainName(p[i])
    ensures WellFormed(WriteFile(t, p, content).value)
  {
    MkdirKeepsShape(t, p[..|p| - 1]);
    var t1, t2 := MkdirAll(t, p[..|p| - 1]).value, WriteFile(t, p, content).value;
    forall q | q in t2 ensures ParentPresent(t2, q) {
      assert q == p || ParentPresent(t1, q);
    }
  }

  lemma {:induction false} MkdirOfPresent(t: Tree, p: Path)
    requires WellFormed(t) && (p == [] || (p in t && t[p] == Directory))
    ensures MkdirAll(t, p) == Some(t)
  {
    if p != [] {
      assert ParentPresent(t, p);
      MkdirOfPresent(t, p[..|p| - 1]);
    }
  }

  /** Making the parents of a path that exists changes nothing. */
  lemma BlockedPath(t: Tree, p: Path)
    requires WellFormed(t) && p in t
    ensures MkdirAll(t, p[..|p| - 1]) == Some(t)
  {
    assert ParentPresent(t, p);
    if |p| > 1 {
      MkdirOfPresent(t, p[..|p| - 1]);
    }
  }

  lemma {:induction false} MkdirAddsShorter(t: Tree, p: Path, q: Path)
    requires MkdirAll(t, p).Some? && |q| > |p|
    ensures q in MkdirAll(t, p).value <==> q in t
  {
    if p != [] {
      MkdirAddsShorter(t, p[..|p| - 1], q);
    }
  }

  lemma {:induction false} FailedMkdir(t: Tree, p: Path)
    requires WellFormed(t) && MkdirAll(t, p).None?
    ensures MkdirLeft(t, p) == t
  {
    var parent := p[..|p| - 1];
    if MkdirAll(t, parent).None? {
      FailedMkdir(t, parent);
    } else {
      MkdirAddsShorter(t, parent, p);
      BlockedPath(t, p);
      assert MkdirLeft(t, parent) == t;
    }
  }

  /** An entry that fails leaves the destination as it was: what stands in its way has its parents already. */
  lemma FailedEntryCreatesNothing(t: Tree, bytes: nat, e: Entry, limit: nat)
    requires WellFormed(t) && !ExtractEntry(t, bytes, e, limit).Extracted?
    ensures ExtractEntry(t, bytes, e, limit).tree == t
  {
    if ExtractEntry(t, bytes, e, limit).FileSystemError? {
      var p := Clean([], Split(e.name));
      if e.kind == DirEntry {
        FailedMkdir(t, p);
      } else if p != [] {
        var parent := p[..|p| - 1];
        if MkdirAll(t, parent).None? {
          FailedMkdir(t, parent);
        } else {
          MkdirAddsShorter(t, parent, p);
          BlockedPath(t, p);
          assert MkdirLeft(t, parent) == t;
        }
      }
    }
  }

  lemma EntryKeepsShape(t: Tree, bytes: nat, e: Entry, limit: nat)
    requires WellFormed(t)
    ensures WellFormed(ExtractEntry(t, bytes, e, limit).tree)
  {
    if ExtractEntry(t, bytes, e, limit).Extracted? {
      SplitHasNoSlash(e.name);
      CleanIsCleaned([], Split(e.name));
      var p := Clean([], Split(e.name));
      forall i | 0 <= i < |p| ensures PlainName(p[i]) {}
      if e.kind == DirEntry {
        MkdirKeepsShape(t, p);
      } else {
        WriteKeepsShape(t, p, e.content);
      }
    } else {
      FailedEntryCreatesNothing(t, bytes, e, limit);
    }
  }

  /** Whatever the entries say and however extraction ends, it leaves a proper tree below the destination. */
  lemma {:induction false} ExtractStaysInside(t: Tree, bytes: nat, entries: seq<Entry>, limit: nat)
    requires WellFormed(t)
    ensures WellFormed(ExtractFrom(t, bytes, entries, limit).tree)
    decreases |entries|
  {
    if entries != [] {
      EntryKeepsShape(t, bytes, entries[0], limit);
      var step := ExtractEntry(t, bytes, entries[0], limit);
      if step.Extracted? {
        ExtractStaysInside(step.tree, step.bytes, entries[1..], limit);
      }
    }
  }

  /** Walking the components of a name from `depth` levels below the destination: does it ever leave it? */
  predicate Climbs(depth: nat, parts: Path)
    decreases |parts|
  {
    parts != [] &&
    if parts[0] == "" || parts[0] == "." then Climbs(depth, parts[1..])
    else if parts[0] == ".." then depth == 0 || Climbs(depth - 1, parts[1..])
    else Climbs(depth + 1, parts[1..])
  }

  lemma {:induction false} CleanStaysUp(done: Path, parts: Path)
    requires done != [] && done[0] == ".."
    ensures Clean(done, parts) != [] && Clean(done, parts)[0] == ".."
    decreases |parts|
  {
    if parts != [] {
      var next := CleanStep(done, parts[0]);
      assert next != [] && next[0] == "..";
      CleanStaysUp(next, parts[1..]);
    }
  }

  lemma {:induction false} CleanClimbs(done: Path, parts: Path)
    requires forall i :: 0 <= i < |done| ==> done[i] != ".."
    ensures (Clean(done, parts) != [] && Clean(done, parts)[0] == "..") <==> Climbs(|done|, parts)
    decreases |parts|
  {
    if parts != [] {
      var next := CleanStep(done, parts[0]);
      if parts[0] == ".." && done == [] {
        assert next == [".."];
        CleanStaysUp(next, parts[1..]);
      } else {
        CleanClimbs(next, parts[1..]);
      }
    }
  }

  /** An entry is refused as unsafe exactly when its name is empty, absolute, or leaves the destination on its way. */
  lemma UnsafeIff(t: Tree, bytes: nat, e: Entry, limit: nat)
    ensures ExtractEntry(t, bytes, e, limit).UnsafePath?
      <==> e.name == "" || e.name[0] == '/' || Climbs(0, Split(e.name))
  {
    CleanClimbs([], Split(e.name));
  }

  // ---- extraction inverts creation ----

  lemma {:induction false} PrefixIsLess(a: string, b: string)
    requires b != ""
    ensures StringLess(a, a + b)
  {
    if a != "" {
      assert (a + b)[1..] == a[1..] + b;
      PrefixIsLess(a[1..], b);
    } else {
      assert a + b == b;
    }
  }

  lemma {:induction false} JoinParent(p: Path)
    requires |p| > 1
    ensures Join(p) == Join(p[..|p| - 1]) + "/" + p[|p| - 1]
  {
    var parent := p[..|p| - 1];
    if |p| > 2 {
      JoinParent(p[1..]);
      assert p[1..][..|p| - 2] == parent[1..];
      assert parent[0] == p[0];
    } else {
      assert Join(p[1..]) == p[1];
    }
  }

  lemma LessIsEarlier(names: seq<string>, name: string, i: nat)
    requires SortedBy(names, StringLess) && name in names && i < |names| && StringLess(name, names[i])
    ensures name in names[..i]
  {
    var k :| 0 <= k < |names| && names[k] == name;
    StringTrichotomy(name, names[i]);
    assert k < i;
  }

  /** A directory comes before everything in it. */
  lemma ParentsFirst(names: seq<string>, t: Tree, i: nat)
    requires WellFormed(t) && ArchiveOrder(names, t) && i < |names|
    ensures var p := Split(names[i]); |p| > 1 ==> Join(p[..|p| - 1]) in names[..i]
  {
    assert names[i] in names;
    var p := Split(names[i]);
    if |p| > 1 {
      var parent, last := Join(p[..|p| - 1]), "/" + p[|p| - 1];
      JoinParent(p);
      assert names[i] == parent + last;
      PrefixIsLess(parent, last);
      assert ParentPresent(t, p);
      LessIsEarlier(names, parent, i);
    }
  }

  /** The part of the tree whose names are listed. */
  function Part(t: Tree, names: seq<string>): Tree {
    map p | p in t && Join(p) in names :: t[p]
  }

  function Size(entries: seq<Entry>): nat {
    if entries == [] then 0 else Size(entries[..|entries| - 1]) + |entries[|entries| - 1].content|
  }

  lemma {:induction false} ExtractAppend(t: Tree, bytes: nat, entries: seq<Entry>, e: Entry, limit: nat)
    ensures ExtractFrom(t, bytes, entries + [e], limit) ==
      match ExtractFrom(t, bytes, entries, limit)
      case Extracted(t1, b1) => ExtractEntry(t1, b1, e, limit)
      case failure => failure
    decreases |entries|
  {
    var all := entries + [e];
    if entries == [] {
      assert all == [e] && all[1..] == [];
    } else {
      assert all[0] == entries[0] && all[1..] == entries[1..] + [e];
      match ExtractEntry(t, bytes, entries[0], limit)
      case Extracted(t1, b1) => ExtractAppend(t1, b1, entries[1..], e, limit);
      case failure =>
    }
  }

  lemma CleanedName(name: string, p: Path)
    requires PlainPath(p) && name == Join(p)
    ensures name != "" && name[0] != '/' && Clean([], Split(name)) == p && p[0] != ".."
  {
    SplitJoin(p);
    CleanPlain([], p);
    assert [] + p == p;
    JoinStart(p);
    assert PlainName(p[0]);
  }

  lemma AddDirectory(done: Tree, p: Path)
    requires WellFormed(done) && PlainPath(p) && p !in done && ParentPresent(done, p)
    ensures MkdirAll(done, p) == Some(done[p := Directory])
  {
    MkdirOfPresent(done, p[..|p| - 1]);
  }

  lemma AddFile(done: Tree, p: Path, content: Bytes)
    requires WellFormed(done) && PlainPath(p) && p !in done && ParentPresent(done, p)
    ensures WriteFile(done, p, content) == Some(done[p := File(content)])
  {
    MkdirOfPresent(done, p[..|p| - 1]);
  }

  /** Extracting the next member adds exactly its node. */
  lemma ExtractOne(t: Tree, done: Tree, bytes: nat, name: string, limit: nat)
    requires WellFormed(t) && NoSymlinks(t) && Split(name) in t && name == Join(Split(name))
    requires WellFormed(done) && Split(name) !in done
    requires ParentPresent(done, Split(name))
    ensures ExtractEntry(done, bytes, EntryOf(t, name), limit) ==
      if bytes + |EntryOf(t, name).content| > limit && t[Split(name)].File? then TooLarge(done)
      else Extracted(done[Split(name) := t[Split(name)]], bytes + |EntryOf(t, name).content|)
  {
    var p := Split(name);
    CleanedName(name, p);
    match t[p]
    case File(content) => AddFile(done, p, content);
    case Directory => AddDirectory(done, p);
  }

  lemma JoinStart(p: Path)
    requires PlainPath(p)
    ensures Join(p) != "" && Join(p)[0] != '/'
  {
    assert PlainName(p[0]);
    assert p[0][0] in p[0];
  }

  lemma PartGrows(t: Tree, names: seq<string>, name: string)
    requires WellFormed(t) && Split(name) in t && name == Join(Split(name))
    ensures Part(t, names + [name]) == Part(t, names)[Split(name) := t[Split(name)]]
  {
    forall p | p in t && Join(p) == name ensures p == Split(name) {
      SplitJoin(p);
    }
  }

  lemma PartIsWellFormed(names: seq<string>, t: Tree, i: nat)
    requires WellFormed(t) && ArchiveOrder(names, t) && i <= |names|
    ensures WellFormed(Part(t, names[..i]))
  {
    forall p | p in Part(t, names[..i]) ensures ParentPresent(Part(t, names[..i]), p) {
      var k :| 0 <= k < i && names[k] == Join(p);
      SplitJoin(p);
      assert ParentPresent(t, p);
      ParentsFirst(names, t, k);
      ListedEarlier(names, Join(p[..|p| - 1]), k, i);
    }
  }

  lemma ListedEarlier(names: seq<string>, name: string, k: nat, i: nat)
    requires k <= i <= |names|
    ensures name in names[..k] ==> name in names[..i]
  {
    assert names[..k] == names[..i][..k];
  }

  lemma NotYetExtracted(names: seq<string>, t: Tree, i: nat)
    requires WellFormed(t) && ArchiveOrder(names, t) && i < |names|
    ensures Split(names[i]) in t && Split(names[i]) !in Part(t, names[..i])
    ensures ParentPresent(Part(t, names[..i]), Split(names[i]))
  {
    assert names[i] in names;
    assert ParentPresent(t, Split(names[i]));
    ParentsFirst(names, t, i);
  }

  lemma ExtractNext(names: seq<string>, t: Tree, i: nat, bytes: nat, limit: nat)
    requires WellFormed(t) && NoSymlinks(t) && ArchiveOrder(names, t) && i < |names|
    ensures Split(names[i]) in t
    ensures ExtractEntry(Part(t, names[..i]), bytes, EntryOf(t, names[i]), limit) ==
      if bytes + |EntryOf(t, names[i]).content| > limit && t[Split(names[i])].File? then TooLarge(Part(t, names[..i]))
      else Extracted(Part(t, names[..i + 1]), bytes + |EntryOf(t, names[i]).content|)
  {
    var name := names[i];
    assert name in names;
    PartIsWellFormed(names, t, i);
    NotYetExtracted(names, t, i);
    PartWithNext(names, t, i);
    ExtractOne(t, Part(t, names[..i]), bytes, name, limit);
  }

  lemma PartWithNext(names: seq<string>, t: Tree, i: nat)
    requires WellFormed(t) && ArchiveOrder(names, t) && i < |names|
    ensures Split(names[i]) in t
    ensures Part(t, names[..i + 1]) == Part(t, names[..i])[Split(names[i]) := t[Split(names[i])]]
  {
    assert names[i] in names;
    PartGrows(t, names[..i], names[i]);
    assert names[..i + 1] == names[..i] + [names[i]];
  }

  /** What extraction makes of the first `i` members. */
  ghost predicate ExtractsTo(names: seq<string>, t: Tree, i: nat, limit: nat)
    requires i <= |names| && forall n :: n in names ==> Split(n) in t
  {
    var entries := EntriesOf(t, names[..i]);
    var result := ExtractFrom(map[], 0, entries, limit);
    if Size(entries) <= limit then result == Extracted(Part(t, names[..i]), Size(entries)) else result.TooLarge?
  }

  lemma EntriesGrow(names: seq<string>, t: Tree, i: nat)
    requires i < |names| && forall n :: n in names ==> Split(n) in t
    ensures EntriesOf(t, names[..i + 1]) == EntriesOf(t, names[..i]) + [EntryOf(t, names[i])]
    ensures Size(EntriesOf(t, names[..i + 1])) == Size(EntriesOf(t, names[..i])) + |EntryOf(t, names[i]).content|
  {
    assert names[..i + 1][..i] == names[..i];
    var before := EntriesOf(t, names[..i]);
    assert (before + [EntryOf(t, names[i])])[..|before|] == before;
  }

  lemma ExtractMore(names: seq<string>, t: Tree, i: nat, limit: nat)
    requires WellFormed(t) && NoSymlinks(t) && ArchiveOrder(names, t) && i < |names|
    requires ExtractsTo(names, t, i, limit)
    ensures ExtractsTo(names, t, i + 1, limit)
  {
    var before, e := EntriesOf(t, names[..i]), EntryOf(t, names[i]);
    EntriesGrow(names, t, i);
    ExtractAppend(map[], 0, before, e, limit);
    ExtractNext(names, t, i, Size(before), limit);
    assert t[Split(names[i])].File? || e.content == [];
  }

  lemma {:induction false} ExtractPrefix(names: seq<string>, t: Tree, i: nat, limit: nat)
    requires WellFormed(t) && NoSymlinks(t) && ArchiveOrder(names, t) && i <= |names|
    ensures ExtractsTo(names, t, i, limit)
  {
    if i == 0 {
      assert Part(t, names[..0]) == map[];
    } else {
      ExtractPrefix(names, t, i - 1, limit);
      ExtractMore(names, t, i - 1, limit);
    }
  }

  lemma ExtractAll(names: seq<string>, t: Tree, limit: nat)
    requires WellFormed(t) && NoSymlinks(t) && ArchiveOrder(names, t)
    ensures var entries := EntriesOf(t, names);
      var result := ExtractFrom(map[], 0, entries, limit);
      if Size(entries) <= limit then result == Extracted(t, Size(entries)) else result.TooLarge?
  {
    ExtractPrefix(names, t, |names|, limit);
    assert names[..|names|] == names;
    WholeTree(names, t);
  }

  lemma WholeTree(names: seq<string>, t: Tree)
    requires forall p :: p in t ==> Join(p) in names
    ensures Part(t, names) == t
  {
  }

  /** No limit, or a negative one, means 20 GiB. */
  lemma RoundTripWithin(walk: seq<Path>, t: Tree, maxBytes: int)
    requires WellFormed(t) && NoSymlinks(t) && Walks(walk, t)
    ensures forall n :: n in ArchiveNames(walk) ==> Split(n) in t
    ensures var entries := EntriesOf(t, ArchiveNames(walk));
      ExtractFrom(map[], 0, entries, Limit(maxBytes)) == Extracted(t, Size(entries))
      <==> Size(entries) <= if maxBytes > 0 then maxBytes else 21_474_836_480
  {
    RoundTripIff(walk, t, Limit(maxBytes));
  }

  /** Extracting a created archive returns the tree exactly when its files fit the extraction limit. */
  lemma RoundTripIff(walk: seq<Path>, t: Tree, limit: nat)
    requires WellFormed(t) && NoSymlinks(t) && Walks(walk, t)
    ensures forall n :: n in ArchiveNames(walk) ==> Split(n) in t
    ensures var entries := EntriesOf(t, ArchiveNames(walk));
      var result := ExtractFrom(map[], 0, entries, limit);
      if Size(entries) <= limit then result == Extracted(t, Size(entries)) else result.TooLarge?
  {
    ArchiveNamesFacts(walk, t);
    ExtractAll(ArchiveNames(walk), t, limit);
  }
}
