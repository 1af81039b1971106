/**
 The chunked AES-256-GCM stream: magic, nonce prefix, then length-prefixed sealed chunks whose nonces count
 up from zero. The cipher is a parameter; the theorems say which law of it they use.
 */
module Encryption {
  import opened Basics
  import opened ByteStreams

  /** An AEAD with the key as an argument: (key, nonce, text, additional data). */
  datatype Cipher = Cipher(
    seal: (Bytes, Bytes, Bytes, Bytes) -> Bytes,
    open: (Bytes, Bytes, Bytes, Bytes) -> Option<Bytes>)

  /** What the decrypting loop wrote, and whether it accepted the stream. */
  datatype Opened = Opened(plain: Bytes, ok: bool)

  const MAGIC: Bytes := [66, 82, 71, 67, 77, 48, 48, 49]
  const CHUNK: nat := 1048576
  const OVERHEAD: nat := 16
  const KEY_LENGTH: nat := 32
  const PREFIX_LENGTH: nat := 4
  const MAX_UINT32: nat := 0xFFFF_FFFF
  const COUNTER_RANGE: nat := 0x1_0000_0000_0000_0000

  /** Sealing adds a 16-byte tag and opening under the same key, nonce and data undoes it. */
  ghost predicate Inverts(c: Cipher) {
    forall key, nonce, plain, aad ::
      && |c.seal(key, nonce, plain, aad)| == |plain| + OVERHEAD
      && c.open(key, nonce, c.seal(key, nonce, plain, aad), aad) == Some(plain)
  }

  // ---- nonces ----

  function NextCounter(counter: nat): (n: nat)
    ensures n < COUNTER_RANGE
  {
    (counter + 1) % COUNTER_RANGE
  }

  function MakeNonce(prefix: Bytes, counter: nat): Bytes {
    prefix + BigEndian(8, counter)
  }

  lemma CounterFits()
    ensures Pow256(8) == COUNTER_RANGE && Pow256(4) == MAX_UINT32 + 1
  {
    assert Pow256(4) == 256 * 256 * 256 * 256;
    assert Pow256(8) == 256 * 256 * 256 * 256 * Pow256(4);
  }

  lemma NonceInjective(p: Bytes, i: nat, q: Bytes, j: nat)
    requires |p| == |q| && i < COUNTER_RANGE && j < COUNTER_RANGE
    ensures MakeNonce(p, i) == MakeNonce(q, j) <==> p == q && i == j
  {
    CounterFits();
    BigEndianRoundTrip(8, i);
    BigEndianRoundTrip(8, j);
    if MakeNonce(p, i) == MakeNonce(q, j) {
      assert MakeNonce(p, i)[..|p|] == p && MakeNonce(q, j)[..|p|] == q;
      assert MakeNonce(p, i)[|p|..] == BigEndian(8, i) && MakeNonce(q, j)[|p|..] == BigEndian(8, j);
    }
  }

  /** The 64-bit counter in front of chunk `j`. */
  function CounterAt(j: nat): (n: nat)
    ensures n < COUNTER_RANGE
  {
    j % COUNTER_RANGE
  }

  /** The nonces of the first `n` chunks are pairwise distinct exactly when the counter has not wrapped. */
  lemma NoncesDistinctIff(prefix: Bytes, n: nat)
    ensures (forall i, j :: 0 <= i < j < n ==> MakeNonce(prefix, CounterAt(i)) != MakeNonce(prefix, CounterAt(j)))
      <==> n <= COUNTER_RANGE
  {
    if n <= COUNTER_RANGE {
      forall i, j | 0 <= i < j < n ensures MakeNonce(prefix, CounterAt(i)) != MakeNonce(prefix, CounterAt(j)) {
        NonceInjective(prefix, CounterAt(i), prefix, CounterAt(j));
      }
    } else {
      assert CounterAt(0) == CounterAt(COUNTER_RANGE);
      assert 0 <= 0 < COUNTER_RANGE < n
        && MakeNonce(prefix, CounterAt(0)) == MakeNonce(prefix, CounterAt(COUNTER_RANGE));
    }
  }

  /** The first chunk past the range of the counter repeats the first nonce. */
  lemma NonceRepeats(prefix: Bytes)
    ensures MakeNonce(prefix, CounterAt(COUNTER_RANGE)) == MakeNonce(prefix, CounterAt(0))
  {
    assert CounterAt(COUNTER_RANGE) == CounterAt(0);
  }

  // ---- encryption ----

  function Frame(sealed: Bytes): Bytes {
    BigEndian(4, |sealed|) + sealed
  }

  function Frames(c: Cipher, key: Bytes, prefix: Bytes, plain: Bytes, counter: nat): Bytes
    decreases |plain|
  {
    if plain == [] then []
    else
      var n := Min(CHUNK, |plain|);
      Frame(c.seal(key, MakeNonce(prefix, counter), plain[..n], MAGIC))
      + Frames(c, key, prefix, plain[n..], NextCounter(counter))
  }

  /** One turn of the encrypting loop: what is written so far and what the rest will still produce. */
  lemma EncryptStep(c: Cipher, key: Bytes, prefix: Bytes, written: Bytes, plain: Bytes, counter: nat)
    requires plain != []
    ensures var n := Min(CHUNK, |plain|);
      var sealed := c.seal(key, MakeNonce(prefix, counter), plain[..n], MAGIC);
      written + Frames(c, key, prefix, plain, counter)
      == written + BigEndian(4, |sealed|) + sealed + Frames(c, key, prefix, plain[n..], NextCounter(counter))
  {
  }

  /** The stream Encrypt produces for one random prefix. */
  function Encrypted(c: Cipher, key: Bytes, prefix: Bytes, plain: Bytes): Bytes {
    MAGIC + prefix + Frames(c, key, prefix, plain, 0)
  }

  /** Encrypt: the output depends on the plaintext only, not on how the reader chops it up. */
  method Encrypt(c: Cipher, key: Bytes, prefix: Bytes, dst: Writer, src: Reader) returns (ok: bool)
    requires Inverts(c) && |prefix| == PREFIX_LENGTH
    modifies dst, src
    ensures ok <==> |key| == KEY_LENGTH
    ensures ok ==> dst.contents == old(dst.contents) + Encrypted(c, key, prefix, old(src.rest))
    ensures !ok ==> dst.contents == old(dst.contents)
  {
    if |key| != KEY_LENGTH {
      return false;
    }
    ghost var goal := dst.contents + Encrypted(c, key, prefix, src.rest);
    dst.Write(MAGIC);
    dst.Write(prefix);
    assert dst.contents + Frames(c, key, prefix, src.rest, 0) == goal;
    ok := EncryptFrames(c, key, prefix, dst, src);
  }

  /** The encrypting loop. */
  method EncryptFrames(c: Cipher, key: Bytes, prefix: Bytes, dst: Writer, src: Reader) returns (ok: bool)
    requires Inverts(c) && |prefix| == PREFIX_LENGTH
    modifies dst, src
    ensures ok && dst.contents == old(dst.contents) + Frames(c, key, prefix, old(src.rest), 0)
  {
    ghost var goal := dst.contents + Frames(c, key, prefix, src.rest, 0);
    var counter := 0;
    var more := true;
    while more
      invariant dst.contents + Frames(c, key, prefix, src.rest, counter) == goal
      invariant !more ==> src.rest == []
      decreases more, |src.rest|
    {
      ghost var before, written := src.rest, dst.contents;
      var buffer := src.ReadFull(CHUNK);
      if |buffer| > 0 {
        var sealed := c.seal(key, MakeNonce(prefix, counter), buffer, MAGIC);
        if |sealed| > MAX_UINT32 {
          return false;
        }
        EncryptStep(c, key, prefix, written, before, counter);
        dst.Write(BigEndian(4, |sealed|));
        dst.Write(sealed);
        counter := NextCounter(counter);
      }
      more := |buffer| == CHUNK;
    }
    return true;
  }

  // ---- decryption ----

  function OpenFrames(c: Cipher, key: Bytes, prefix: Bytes, stream: Bytes, counter: nat): Opened
    decreases |stream|
  {
    if stream == [] then Opened([], true)
    else if |stream| < 4 then Opened([], false)
    else
      var size := FromBigEndian(stream[..4]);
      if size < OVERHEAD || size > CHUNK + OVERHEAD || |stream| < 4 + size then Opened([], false)
      else
        match c.open(key, MakeNonce(prefix, counter), stream[4..4 + size], MAGIC)
        case None => Opened([], false)
        case Some(plain) =>
          var tail := OpenFrames(c, key, prefix, stream[4 + size..], NextCounter(counter));
          Opened(plain + tail.plain, tail.ok)
  }

  function OpenStream(c: Cipher, key: Bytes, stream: Bytes): Opened {
    if |key| != KEY_LENGTH || |stream| < |MAGIC| + PREFIX_LENGTH || stream[..|MAGIC|] != MAGIC then Opened([], false)
    else OpenFrames(c, key, stream[|MAGIC|..|MAGIC| + PREFIX_LENGTH], stream[|MAGIC| + PREFIX_LENGTH..], 0)
  }

  /** One turn of the decrypting loop on a chunk that authenticates. */
  lemma DecryptStep(c: Cipher, key: Bytes, prefix: Bytes, written: Bytes, stream: Bytes, counter: nat, size: nat,
                    plain: Bytes)
    requires |stream| >= 4 + size && FromBigEndian(stream[..4]) == size && OVERHEAD <= size <= CHUNK + OVERHEAD
    requires c.open(key, MakeNonce(prefix, counter), stream[4..4 + size], MAGIC) == Some(plain)
    ensures var tail := OpenFrames(c, key, prefix, stream[4 + size..], NextCounter(counter));
      var all := OpenFrames(c, key, prefix, stream, counter);
      all.ok == tail.ok && written + all.plain == written + plain + tail.plain
  {
  }

  method Decrypt(c: Cipher, key: Bytes, dst: Writer, src: Reader) returns (ok: bool)
    modifies dst, src
    ensures dst.contents == old(dst.contents) + OpenStream(c, key, old(src.rest)).plain
    ensures ok == OpenStream(c, key, old(src.rest)).ok
  {
    ghost var stream := src.rest;
    if |key| != KEY_LENGTH {
      return false;
    }
    var header := src.ReadFull(|MAGIC|);
    if |header| < |MAGIC| || header != MAGIC {
      return false;
    }
    var prefix := src.ReadFull(PREFIX_LENGTH);
    if |prefix| < PREFIX_LENGTH {
      return false;
    }
    assert prefix == stream[|MAGIC|..|MAGIC| + PREFIX_LENGTH];
    assert src.rest == stream[|MAGIC| + PREFIX_LENGTH..];
    ok := DecryptFrames(c, key, prefix, dst, src);
  }

  /** The decrypting loop. Chunks that authenticate are written even when a later one does not. */
  method DecryptFrames(c: Cipher, key: Bytes, prefix: Bytes, dst: Writer, src: Reader) returns (ok: bool)
    modifies dst, src
    ensures dst.contents == old(dst.contents) + OpenFrames(c, key, prefix, old(src.rest), 0).plain
    ensures ok == OpenFrames(c, key, prefix, old(src.rest), 0).ok
  {
    ghost var all := OpenFrames(c, key, prefix, src.rest, 0);
    ghost var goal := dst.contents + all.plain;
    var counter := 0;
    while true
      invariant dst.contents + OpenFrames(c, key, prefix, src.rest, counter).plain == goal
      invariant OpenFrames(c, key, prefix, src.rest, counter).ok == all.ok
      decreases |src.rest|
    {
      ghost var stream, written := src.rest, dst.contents;
      var length := src.ReadFull(4);
      if |length| == 0 {
        return true;
      }
      if |length| < 4 {
        return false;
      }
      assert length == stream[..4];
      var size := FromBigEndian(length);
      if size < OVERHEAD || size > CHUNK + OVERHEAD {
        return false;
      }
      var sealed := src.ReadFull(size);
      if |sealed| < size {
        return false;
      }
      assert sealed == stream[4..4 + size] && src.rest == stream[4 + size..];
      var unsealed := c.open(key, MakeNonce(prefix, counter), sealed, MAGIC);
      if unsealed.None? {
        return false;
      }
      DecryptStep(c, key, prefix, written, stream, counter, size, unsealed.value);
      dst.Write(unsealed.value);
      counter := NextCounter(counter);
    }
  }

  // ---- decryption inverts encryption ----

  lemma {:induction false} FramesRoundTrip(c: Cipher, key: Bytes, prefix: Bytes, plain: Bytes, counter: nat)
    requires Inverts(c)
    ensures OpenFrames(c, key, prefix, Frames(c, key, prefix, plain, counter), counter) == Opened(plain, true)
    decreases |plain|
  {
    if plain != [] {
      var n := Min(CHUNK, |plain|);
      var sealed := c.seal(key, MakeNonce(prefix, counter), plain[..n], MAGIC);
      var rest := Frames(c, key, prefix, plain[n..], NextCounter(counter));
      var stream := Frames(c, key, prefix, plain, counter);
      assert stream == BigEndian(4, |sealed|) + sealed + rest;
      CounterFits();
      BigEndianRoundTrip(4, |sealed|);
      assert stream[..4] == BigEndian(4, |sealed|);
      assert stream[4..4 + |sealed|] == sealed && stream[4 + |sealed|..] == rest;
      FramesRoundTrip(c, key, prefix, plain[n..], NextCounter(counter));
      assert plain == plain[..n] + plain[n..];
    }
  }

  /** Every plaintext comes back, whatever the key, the prefix and the number of chunks. */
  lemma RoundTrip(c: Cipher, key: Bytes, prefix: Bytes, plain: Bytes)
    requires Inverts(c) && |key| == KEY_LENGTH && |prefix| == PREFIX_LENGTH
    ensures OpenStream(c, key, Encrypted(c, key, prefix, plain)) == Opened(plain, true)
  {
    var stream := Encrypted(c, key, prefix, plain);
    assert stream[..|MAGIC|] == MAGIC;
    assert stream[|MAGIC|..|MAGIC| + PREFIX_LENGTH] == prefix;
    assert stream[|MAGIC| + PREFIX_LENGTH..] == Frames(c, key, prefix, plain, 0);
    FramesRoundTrip(c, key, prefix, plain, 0);
  }

  // ---- and accepts nothing that was not encrypted ----

  /** One call of Encrypt under the key at hand. */
  datatype Encryption = Encryption(prefix: Bytes, plain: Bytes)

  function ChunkCount(plain: Bytes): nat {
    (|plain| + CHUNK - 1) / CHUNK
  }

  /** The first `m` chunks. */
  function Chunks(plain: Bytes, m: nat): Bytes {
    plain[..Min(m * CHUNK, |plain|)]
  }

  function ChunkAt(plain: Bytes, j: nat): Bytes {
    plain[Min(j * CHUNK, |plain|)..Min((j + 1) * CHUNK, |plain|)]
  }

  lemma NextChunk(plain: Bytes, j: nat)
    ensures Chunks(plain, j) + ChunkAt(plain, j) == Chunks(plain, j + 1)
    ensures plain == Chunks(plain, j) + plain[Min(j * CHUNK, |plain|)..]
  {
  }

  /** `plain` is the chunk that the encryptions in `log` sealed under `nonce`. */
  ghost predicate WasSealed(log: seq<Encryption>, i: nat, j: nat, nonce: Bytes, plain: Bytes) {
    && i < |log| && j < ChunkCount(log[i].plain)
    && nonce == MakeNonce(log[i].prefix, CounterAt(j))
    && plain == ChunkAt(log[i].plain, j)
  }

  /** An ideal AEAD: under this key only what was sealed opens, at its own nonce. */
  ghost predicate OpensOnlySealed(c: Cipher, key: Bytes, log: seq<Encryption>) {
    forall nonce, sealed :: c.open(key, nonce, sealed, MAGIC).Some? ==>
      exists i: nat, j: nat :: WasSealed(log, i, j, nonce, c.open(key, nonce, sealed, MAGIC).value)
  }

  /** The random prefixes did not collide, and no stream wrapped its counter. */
  ghost predicate HonestLog(log: seq<Encryption>) {
    && (forall i :: 0 <= i < |log| ==> |log[i].prefix| == PREFIX_LENGTH && ChunkCount(log[i].plain) <= COUNTER_RANGE)
    && (forall i, j :: 0 <= i < j < |log| ==> log[i].prefix != log[j].prefix)
  }

  lemma PrefixIdentifies(log: seq<Encryption>, i: nat, j: nat)
    requires HonestLog(log) && i < |log| && j < |log| && log[i].prefix == log[j].prefix
    ensures i == j
  {
  }

  lemma SealedAt(log: seq<Encryption>, i: nat, j: nat, nonce: Bytes, plain: Bytes)
    requires HonestLog(log) && WasSealed(log, i, j, nonce, plain)
    ensures i < |log| && |log[i].prefix| == PREFIX_LENGTH && j < COUNTER_RANGE && nonce == MakeNonce(log[i].prefix, j)
  {
    assert CounterAt(j) == j;
  }

  lemma SealedUnderPrefix(log: seq<Encryption>, i: nat, t: nat, i': nat, j: nat, plain: Bytes)
    requires HonestLog(log) && i < |log| && t < COUNTER_RANGE
    requires WasSealed(log, i', j, MakeNonce(log[i].prefix, t), plain)
    ensures i' == i && j == t
  {
    SealedAt(log, i', j, MakeNonce(log[i].prefix, t), plain);
    NonceInjective(log[i].prefix, t, log[i'].prefix, j);
    PrefixIdentifies(log, i, i');
  }

  /** What opens at counter `t` under the prefix of encryption `i` is chunk `t` of that encryption. */
  lemma OpenedChunk(c: Cipher, key: Bytes, log: seq<Encryption>, i: nat, t: nat, sealed: Bytes)
    requires OpensOnlySealed(c, key, log) && HonestLog(log) && i < |log| && t < COUNTER_RANGE
    requires c.open(key, MakeNonce(log[i].prefix, t), sealed, MAGIC).Some?
    ensures t < ChunkCount(log[i].plain)
    ensures c.open(key, MakeNonce(log[i].prefix, t), sealed, MAGIC).value == ChunkAt(log[i].plain, t)
  {
    var nonce := MakeNonce(log[i].prefix, t);
    var p := c.open(key, nonce, sealed, MAGIC).value;
    var i': nat, j: nat :| WasSealed(log, i', j, nonce, p);
    SealedUnderPrefix(log, i, t, i', j, p);
  }

  lemma FirstFrame(c: Cipher, key: Bytes, prefix: Bytes, stream: Bytes, t: nat) returns (size: nat)
    requires stream != [] && t + 1 < COUNTER_RANGE && OpenFrames(c, key, prefix, stream, t).ok
    ensures |stream| >= 4 + size && FromBigEndian(stream[..4]) == size && OVERHEAD <= size <= CHUNK + OVERHEAD
    ensures c.open(key, MakeNonce(prefix, t), stream[4..4 + size], MAGIC).Some?
    ensures OpenFrames(c, key, prefix, stream[4 + size..], t + 1).ok
  {
    size := FromBigEndian(stream[..4]);
    assert NextCounter(t) == t + 1;
  }

  /** Under `prefix` only the chunks of `plain` open, each at its own counter. */
  ghost predicate OpensOnlyChunks(c: Cipher, key: Bytes, prefix: Bytes, plain: Bytes) {
    forall t: nat, sealed :: t < COUNTER_RANGE && c.open(key, MakeNonce(prefix, t), sealed, MAGIC).Some? ==>
      && t < ChunkCount(plain)
      && c.open(key, MakeNonce(prefix, t), sealed, MAGIC) == Some(ChunkAt(plain, t))
  }

  /** Frames read from counter `t` on are consecutive chunks of `plain`. */
  lemma {:induction false} OpenedFrames(c: Cipher, key: Bytes, prefix: Bytes, plain: Bytes, stream: Bytes, t: nat)
    returns (m: nat)
    requires OpensOnlyChunks(c, key, prefix, plain)
    requires t + |stream| < COUNTER_RANGE
    requires OpenFrames(c, key, prefix, stream, t).ok
    ensures m == t || m <= ChunkCount(plain)
    ensures Chunks(plain, t) + OpenFrames(c, key, prefix, stream, t).plain == Chunks(plain, m)
    decreases |stream|
  {
    if stream == [] {
      m := t;
    } else {
      var size := FirstFrame(c, key, prefix, stream, t);
      AddChunk(c, key, prefix, plain, stream, t, size);
      m := OpenedFrames(c, key, prefix, plain, stream[4 + size..], t + 1);
    }
  }

  lemma AddChunk(c: Cipher, key: Bytes, prefix: Bytes, plain: Bytes, stream: Bytes, t: nat, size: nat)
    requires t + 1 < COUNTER_RANGE
    requires |stream| >= 4 + size && FromBigEndian(stream[..4]) == size && OVERHEAD <= size <= CHUNK + OVERHEAD
    requires c.open(key, MakeNonce(prefix, t), stream[4..4 + size], MAGIC) == Some(ChunkAt(plain, t))
    ensures Chunks(plain, t) + OpenFrames(c, key, prefix, stream, t).plain
      == Chunks(plain, t + 1) + OpenFrames(c, key, prefix, stream[4 + size..], t + 1).plain
  {
    assert NextCounter(t) == t + 1;
    DecryptStep(c, key, prefix, Chunks(plain, t), stream, t, size, ChunkAt(plain, t));
    NextChunk(plain, t);
  }

  /**
   Any stream the decryptor accepts is a run of whole leading chunks of one plaintext that was encrypted under
   the prefix in its header: nothing reordered, repeated, skipped or spliced. (A file is shorter than 2^64 bytes.)
   */
  lemma AcceptedIsChunkPrefix(c: Cipher, key: Bytes, log: seq<Encryption>, stream: Bytes)
    requires OpensOnlySealed(c, key, log) && HonestLog(log) && |stream| < COUNTER_RANGE
    requires OpenStream(c, key, stream).ok
    ensures OpenStream(c, key, stream).plain == []
      || (exists i: nat, m: nat ::
        && i < |log| && m <= ChunkCount(log[i].plain)
        && log[i].prefix == stream[|MAGIC|..|MAGIC| + PREFIX_LENGTH]
        && OpenStream(c, key, stream).plain == Chunks(log[i].plain, m))
  {
    var prefix := stream[|MAGIC|..|MAGIC| + PREFIX_LENGTH];
    var frames := stream[|MAGIC| + PREFIX_LENGTH..];
    if frames != [] {
      var size := FirstFrame(c, key, prefix, frames, 0);
      var nonce, sealed := MakeNonce(prefix, 0), frames[4..4 + size];
      var i: nat, j: nat :| WasSealed(log, i, j, nonce, c.open(key, nonce, sealed, MAGIC).value);
      NonceInjective(prefix, 0, log[i].prefix, CounterAt(j));
      forall t: nat, s | t < COUNTER_RANGE && c.open(key, MakeNonce(prefix, t), s, MAGIC).Some?
        ensures t < ChunkCount(log[i].plain)
          && c.open(key, MakeNonce(prefix, t), s, MAGIC) == Some(ChunkAt(log[i].plain, t))
      {
        OpenedChunk(c, key, log, i, t, s);
      }
      var m := OpenedFrames(c, key, prefix, log[i].plain, frames, 0);
      assert Chunks(log[i].plain, 0) == [];
      assert OpenStream(c, key, stream).plain == Chunks(log[i].plain, m);
    }
  }

  lemma {:induction false} FramesOfChunks(c: Cipher, key: Bytes, prefix: Bytes, plain: Bytes, m: nat, counter: nat)
    ensures Frames(c, key, prefix, Chunks(plain, m), counter) <= Frames(c, key, prefix, plain, counter)
    decreases m
  {
    if m > 0 && plain != [] {
      var n := Min(CHUNK, |plain|);
      assert Chunks(plain, m)[..n] == plain[..n];
      assert Chunks(plain, m)[n..] == Chunks(plain[n..], m - 1);
      FramesOfChunks(c, key, prefix, plain[n..], m - 1, NextCounter(counter));
    }
  }

  /**
   The bound is tight: for every m a byte prefix of the encrypted stream decrypts to exactly the first m
   chunks. The layer detects every change except truncation between chunks, which the archive checksum covers.
   */
  lemma EveryChunkPrefixIsAccepted(c: Cipher, key: Bytes, prefix: Bytes, plain: Bytes, m: nat)
    requires Inverts(c) && |key| == KEY_LENGTH && |prefix| == PREFIX_LENGTH
    ensures Encrypted(c, key, prefix, Chunks(plain, m)) <= Encrypted(c, key, prefix, plain)
    ensures OpenStream(c, key, Encrypted(c, key, prefix, Chunks(plain, m))) == Opened(Chunks(plain, m), true)
  {
    FramesOfChunks(c, key, prefix, plain, m, 0);
    RoundTrip(c, key, prefix, Chunks(plain, m));
  }
}
