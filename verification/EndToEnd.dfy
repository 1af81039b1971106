/**
 From the payload a task packaged to the tree a restore extracts. In between, anybody may have changed files in the
 repository and its encryption settings; the record's checksum and the archive's authentication must catch it.
 */
module EndToEnd {
  import opened Basics
  import opened Archive
  import opened ByteStreams
  import opened Repository
  import Checksum
  import Encryption

  /** Tar and gzip: entries to bytes and back. */
  datatype Codec = Codec(pack: seq<Entry> -> Bytes, unpack: Bytes -> Option<seq<Entry>>)

  const GZIP_ID1: byte := 0x1f
  const GZIP_ID2: byte := 0x8b

  /** Unpacking undoes packing, and accepts only what starts with the gzip magic (section 2.3.1 of RFC 1952). */
  ghost predicate IsCodec(codec: Codec) {
    && (forall entries :: codec.unpack(codec.pack(entries)) == Some(entries))
    && (forall b :: codec.unpack(b).Some? ==> |b| >= 2 && b[0] == GZIP_ID1 && b[1] == GZIP_ID2)
  }

  /** Whether archives are encrypted, and under which key. */
  datatype Settings = Plain | Keyed(key: Bytes)

  /** Everything below the operator: digest, cipher and codec. */
  datatype Platform = Platform(sha: Digest, cipher: Encryption.Cipher, codec: Codec)

  ghost predicate Works(f: Platform) {
    IsDigestFunction(f.sha) && Encryption.Inverts(f.cipher) && IsCodec(f.codec)
  }

  // ---- packaging ----

  function Sealed(f: Platform, settings: Settings, prefix: Bytes, packed: Bytes): Bytes {
    match settings
    case Plain => packed
    case Keyed(key) => Encryption.Encrypted(f.cipher, key, prefix, packed)
  }

  predicate UsableKey(settings: Settings) {
    settings.Keyed? ==> |settings.key| == Encryption.KEY_LENGTH
  }

  /** The archive of a payload tree. */
  ghost function ArchiveOf(f: Platform, t: Tree, walk: seq<Path>, settings: Settings, prefix: Bytes): Bytes
    requires WellFormed(t) && Walks(walk, t)
  {
    ArchiveNamesFacts(walk, t);
    Sealed(f, settings, prefix, f.codec.pack(EntriesOf(t, ArchiveNames(walk))))
  }

  /** The archive part of packageBackup: create, perhaps encrypt, hash. */
  method PackageArchive(f: Platform, t: Tree, walk: seq<Path>, settings: Settings, prefix: Bytes)
    returns (archive: Option<Bytes>, checksum: string)
    requires Works(f) && WellFormed(t) && Walks(walk, t) && |prefix| == Encryption.PREFIX_LENGTH
    ensures archive.Some? <==> NoSymlinks(t) && UsableKey(settings)
    ensures archive.Some? ==>
      archive.value == ArchiveOf(f, t, walk, settings, prefix) && checksum == f.sha(archive.value)
  {
    checksum := "";
    var created := Create(t, walk);
    if created.SymlinkRejected? {
      return None, checksum;
    }
    var bytes := f.codec.pack(created.entries);
    if settings.Keyed? {
      var plain := new Reader(bytes);
      var encrypted := new Writer();
      var ok := Encryption.Encrypt(f.cipher, settings.key, prefix, encrypted, plain);
      if !ok {
        return None, checksum;
      }
      bytes := encrypted.contents;
    }
    return Some(bytes), f.sha(bytes);
  }

  // ---- restoring ----

  datatype Downloaded = Downloaded(tree: Tree) | NoArchive | ChecksumMismatch | DecryptionFailed | ExtractionFailed

  const LIMIT: nat := 21474836480

  function UnpackTree(f: Platform, packed: Bytes): Downloaded {
    match f.codec.unpack(packed)
    case None => ExtractionFailed
    case Some(entries) =>
      match ExtractFrom(map[], 0, entries, LIMIT)
      case Extracted(tree, _) => Downloaded(tree)
      case _ => ExtractionFailed
  }

  function OpenArchive(f: Platform, settings: Settings, archive: Bytes): Downloaded {
    match settings
    case Plain => UnpackTree(f, archive)
    case Keyed(key) =>
      var opened_ := Encryption.OpenStream(f.cipher, key, archive);
      if opened_.ok then UnpackTree(f, opened_.plain) else DecryptionFailed
  }

  /** What a restore extracts, given the checksum and the encryption settings of the record. */
  function DownloadOf(f: Platform, objects: Objects, dir: string, checksum: string, settings: Settings): Downloaded {
    var path := ObjectPath(dir, ARCHIVE);
    if path !in objects then NoArchive
    else if !Checksum.EqualFold(f.sha(objects[path]), checksum) then ChecksumMismatch
    else OpenArchive(f, settings, objects[path])
  }

  method Download(f: Platform, objects: Objects, dir: string, checksum: string, settings: Settings)
    returns (result: Downloaded)
    ensures result == DownloadOf(f, objects, dir, checksum, settings)
  {
    var path := ObjectPath(dir, ARCHIVE);
    if path !in objects {
      return NoArchive;
    }
    var archive := objects[path];
    if !Checksum.EqualFold(f.sha(archive), checksum) {
      return ChecksumMismatch;
    }
    if settings.Keyed? {
      var encrypted := new Reader(archive);
      var plain := new Writer();
      var ok := Encryption.Decrypt(f.cipher, settings.key, plain, encrypted);
      if !ok {
        return DecryptionFailed;
      }
      archive := plain.contents;
      assert archive == Encryption.OpenStream(f.cipher, settings.key, objects[path]).plain;
    }
    var unpacked := f.codec.unpack(archive);
    if unpacked.None? {
      return ExtractionFailed;
    }
    var extracted := Extract(unpacked.value, LIMIT);
    return if extracted.Extracted? then Downloaded(extracted.tree) else ExtractionFailed;
  }

  // ---- the archive opens to the payload, and only under the settings it was made with ----

  /** The cipher does not open the first chunk of this archive under another key. */
  ghost predicate OtherKeyFails(f: Platform, settings: Settings, other: Settings, prefix: Bytes, packed: Bytes) {
    settings.Keyed? && other.Keyed? && settings.key != other.key ==>
      var chunk := packed[..Min(Encryption.CHUNK, |packed|)];
      var nonce := Encryption.MakeNonce(prefix, 0);
      f.cipher.open(other.key, nonce, f.cipher.seal(settings.key, nonce, chunk, Encryption.MAGIC),
        Encryption.MAGIC).None?
  }

  lemma PackedStart(f: Platform, entries: seq<Entry>)
    requires IsCodec(f.codec)
    ensures var b := f.codec.pack(entries); |b| >= 2 && b[0] == GZIP_ID1 && b[1] == GZIP_ID2
  {
    assert f.codec.unpack(f.codec.pack(entries)).Some?;
  }

  lemma EncryptedStart(f: Platform, key: Bytes, prefix: Bytes, packed: Bytes)
    ensures var b := Encryption.Encrypted(f.cipher, key, prefix, packed);
      |b| >= |Encryption.MAGIC| && b[0] != GZIP_ID1
  {
    assert Encryption.Encrypted(f.cipher, key, prefix, packed)[0] == Encryption.MAGIC[0];
  }

  /** Opening under another key fails at the first chunk. */
  lemma WrongKey(f: Platform, key: Bytes, other: Bytes, prefix: Bytes, packed: Bytes)
    requires Encryption.Inverts(f.cipher) && packed != [] && |prefix| == Encryption.PREFIX_LENGTH && key != other
    requires OtherKeyFails(f, Keyed(key), Keyed(other), prefix, packed)
    ensures !Encryption.OpenStream(f.cipher, other, Encryption.Encrypted(f.cipher, key, prefix, packed)).ok
  {
    var stream := Encryption.Encrypted(f.cipher, key, prefix, packed);
    var n := Min(Encryption.CHUNK, |packed|);
    var sealed := f.cipher.seal(key, Encryption.MakeNonce(prefix, 0), packed[..n], Encryption.MAGIC);
    var frames := Encryption.Frames(f.cipher, key, prefix, packed, 0);
    var head := |Encryption.MAGIC|;
    assert stream[..head] == Encryption.MAGIC;
    assert stream[head..head + Encryption.PREFIX_LENGTH] == prefix;
    assert stream[head + Encryption.PREFIX_LENGTH..] == frames;
    WrongKeyFrame(f, key, other, prefix, packed);
  }

  lemma WrongKeyFrame(f: Platform, key: Bytes, other: Bytes, prefix: Bytes, packed: Bytes)
    requires Encryption.Inverts(f.cipher) && packed != [] && key != other
    requires OtherKeyFails(f, Keyed(key), Keyed(other), prefix, packed)
    ensures !Encryption.OpenFrames(f.cipher, other, prefix, Encryption.Frames(f.cipher, key, prefix, packed, 0), 0).ok
  {
    var n := Min(Encryption.CHUNK, |packed|);
    var sealed := f.cipher.seal(key, Encryption.MakeNonce(prefix, 0), packed[..n], Encryption.MAGIC);
    var rest := Encryption.Frames(f.cipher, key, prefix, packed[n..], Encryption.NextCounter(0));
    var frames := Encryption.Frames(f.cipher, key, prefix, packed, 0);
    assert frames == BigEndian(4, |sealed|) + sealed + rest;
    Encryption.CounterFits();
    BigEndianRoundTrip(4, |sealed|);
    assert frames[..4] == BigEndian(4, |sealed|);
    assert frames[4..4 + |sealed|] == sealed;
  }

  /** What the settings of the record make of an archive packaged under other settings: nothing, unless they agree. */
  lemma OpenSealed(f: Platform, settings: Settings, record: Settings, prefix: Bytes, entries: seq<Entry>)
    requires Works(f) && UsableKey(settings) && |prefix| == Encryption.PREFIX_LENGTH
    requires OtherKeyFails(f, settings, record, prefix, f.codec.pack(entries))
    ensures var packed := f.codec.pack(entries);
      OpenArchive(f, record, Sealed(f, settings, prefix, packed)) ==
        if record == settings then UnpackTree(f, packed)
        else if record.Plain? then ExtractionFailed
        else DecryptionFailed
  {
    var packed := f.codec.pack(entries);
    PackedStart(f, entries);
    match settings
    case Plain =>
      if record.Keyed? && |packed| >= |Encryption.MAGIC| {
        assert packed[..|Encryption.MAGIC|][0] == packed[0];
      }
    case Keyed(key) =>
      EncryptedStart(f, key, prefix, packed);
      if record.Keyed? {
        if record.key == key {
          Encryption.RoundTrip(f.cipher, key, prefix, packed);
        } else {
          WrongKey(f, key, record.key, prefix, packed);
        }
      }
  }

  /** Unpacking the packed payload gives the payload, if it fits the extraction limit. */
  lemma UnpackPayload(f: Platform, t: Tree, walk: seq<Path>)
    requires IsCodec(f.codec) && WellFormed(t) && NoSymlinks(t) && Walks(walk, t)
    ensures forall n :: n in ArchiveNames(walk) ==> Split(n) in t
    ensures var entries := EntriesOf(t, ArchiveNames(walk));
      UnpackTree(f, f.codec.pack(entries)) == if Size(entries) <= LIMIT then Downloaded(t) else ExtractionFailed
  {
    RoundTripIff(walk, t, LIMIT);
  }

  /** The bytes in the repository are other bytes with the same digest. */
  predicate Collision(f: Platform, objects: Objects, dir: string, archive: Bytes) {
    var path := ObjectPath(dir, ARCHIVE);
    path in objects && objects[path] != archive && f.sha(objects[path]) == f.sha(archive)
  }

  /** Which payload, packaged how. */
  ghost predicate Payload(f: Platform, t: Tree, walk: seq<Path>, settings: Settings, prefix: Bytes) {
    && Works(f) && WellFormed(t) && NoSymlinks(t) && Walks(walk, t)
    && UsableKey(settings) && |prefix| == Encryption.PREFIX_LENGTH
  }

  ghost function Packed(f: Platform, t: Tree, walk: seq<Path>): Bytes
    requires WellFormed(t) && Walks(walk, t)
  {
    ArchiveNamesFacts(walk, t);
    f.codec.pack(EntriesOf(t, ArchiveNames(walk)))
  }

  /**
   With the archive in place, a restore succeeds exactly when the record's encryption settings are those the archive
   was packaged under and the payload fits the extraction limit; and then it extracts the payload.
   */
  lemma RestoreIff(f: Platform, t: Tree, walk: seq<Path>, settings: Settings, prefix: Bytes,
                   objects: Objects, dir: string, record: Settings)
    requires Payload(f, t, walk, settings, prefix)
    requires OtherKeyFails(f, settings, record, prefix, Packed(f, t, walk))
    requires ObjectPath(dir, ARCHIVE) in objects
      && objects[ObjectPath(dir, ARCHIVE)] == ArchiveOf(f, t, walk, settings, prefix)
    ensures forall n :: n in ArchiveNames(walk) ==> Split(n) in t
    ensures var got := DownloadOf(f, objects, dir, f.sha(ArchiveOf(f, t, walk, settings, prefix)), record);
      && (got.Downloaded? <==> record == settings && Size(EntriesOf(t, ArchiveNames(walk))) <= LIMIT)
      && (got.Downloaded? ==> got.tree == t)
  {
    UnpackPayload(f, t, walk);
    OpenSealed(f, settings, record, prefix, EntriesOf(t, ArchiveNames(walk)));
  }

  /** Encryption was switched on between packaging and the record: the intact archive cannot be restored. */
  lemma SwitchedOnTooLate(f: Platform, t: Tree, walk: seq<Path>, key: Bytes, dir: string)
    requires Payload(f, t, walk, Plain, [0, 0, 0, 0])
    ensures var archive := ArchiveOf(f, t, walk, Plain, [0, 0, 0, 0]);
      !DownloadOf(f, map[ObjectPath(dir, ARCHIVE) := archive], dir, f.sha(archive), Keyed(key)).Downloaded?
  {
    var archive := ArchiveOf(f, t, walk, Plain, [0, 0, 0, 0]);
    RestoreIff(f, t, walk, Plain, [0, 0, 0, 0], map[ObjectPath(dir, ARCHIVE) := archive], dir, Keyed(key));
  }

  /**
   Whatever was done to the files of the repository and to the settings the record was given: a restore that gets past
   downloading has extracted exactly the packaged payload, or somebody has found two archives with one digest.
   */
  lemma RestoredIsPackaged(f: Platform, t: Tree, walk: seq<Path>, settings: Settings, prefix: Bytes,
                           objects: Objects, dir: string, record: Settings)
    requires Payload(f, t, walk, settings, prefix)
    requires OtherKeyFails(f, settings, record, prefix, Packed(f, t, walk))
    requires DownloadOf(f, objects, dir, f.sha(ArchiveOf(f, t, walk, settings, prefix)), record).Downloaded?
    ensures
      || DownloadOf(f, objects, dir, f.sha(ArchiveOf(f, t, walk, settings, prefix)), record) == Downloaded(t)
      || Collision(f, objects, dir, ArchiveOf(f, t, walk, settings, prefix))
  {
    var archive, path := ArchiveOf(f, t, walk, settings, prefix), ObjectPath(dir, ARCHIVE);
    Checksum.EqualFoldOnDigests(f.sha(objects[path]), f.sha(archive));
    if objects[path] == archive {
      RestoreIff(f, t, walk, settings, prefix, objects, dir, record);
    }
  }
}
