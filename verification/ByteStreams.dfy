/** Bytes, big-endian numbers, and the reader and writer streams the codecs work on. */
module ByteStreams {
  import opened Basics

  newtype byte = x: int | 0 <= x < 256

  type Bytes = seq<byte>

  function Pow256(width: nat): nat {
    if width == 0 then 1 else 256 * Pow256(width - 1)
  }

  /** The low `width` bytes of `n`, most significant first. */
  function BigEndian(width: nat, n: nat): (b: Bytes)
    ensures |b| == width
  {
    if width == 0 then [] else BigEndian(width - 1, n / 256) + [(n % 256) as byte]
  }

  function FromBigEndian(b: Bytes): nat {
    if b == [] then 0 else 256 * FromBigEndian(b[..|b| - 1]) + b[|b| - 1] as nat
  }

  lemma {:induction false} BigEndianRoundTrip(width: nat, n: nat)
    requires n < Pow256(width)
    ensures FromBigEndian(BigEndian(width, n)) == n
  {
    if width > 0 {
      var b := BigEndian(width, n);
      assert b[..|b| - 1] == BigEndian(width - 1, n / 256);
      BigEndianRoundTrip(width - 1, n / 256);
    }
  }

  /** An io.Reader: each call may return fewer bytes than asked for. */
  class Reader {
    var rest: Bytes

    constructor (data: Bytes)
      ensures rest == data
    {
      rest := data;
    }

    method Read(max: nat) returns (chunk: Bytes)
      requires max > 0
      modifies this
      ensures old(rest) == chunk + rest
      ensures |chunk| <= max
      ensures chunk == [] <==> old(rest) == []
    {
      if rest == [] {
        return [];
      }
      var n :| 1 <= n <= max && n <= |rest|;
      chunk := rest[..n];
      rest := rest[n..];
    }

    /** io.ReadFull: the short reads do not show in what it returns. */
    method ReadFull(size: nat) returns (data: Bytes)
      modifies this
      ensures data == old(rest)[..Min(size, |old(rest)|)]
      ensures rest == old(rest)[Min(size, |old(rest)|)..]
    {
      data := [];
      var done := size == 0;
      while !done
        invariant old(rest) == data + rest
        invariant |data| <= size
        invariant done ==> |data| == size || rest == []
        invariant !done ==> |data| < size
        decreases !done, size - |data|
      {
        var chunk := Read(size - |data|);
        assert old(rest) == (data + chunk) + rest;
        data := data + chunk;
        done := chunk == [] || |data| == size;
      }
    }
  }

  /** An io.Writer that keeps what it was given. */
  class Writer {
    var contents: Bytes

    constructor ()
      ensures contents == []
    {
      contents := [];
    }

    method Write(data: Bytes)
      modifies this
      ensures contents == old(contents) + data
    {
      contents := contents + data;
    }
  }
}
