/**
 * The byte pump inside `copyAssetFile`: read up to a 4096-byte buffer from the asset
 * stream, write what was read to the target file, until the stream reports end of input.
 * The streams' behaviour is an oracle: how many bytes each `read` delivers, and which
 * read/write round, if any, throws.
 */
module ChunkedCopy {
  import opened Basics

  /** The size of the copy buffer (`ByteArray(4096)`). */
  const BufferSize: nat := 4096

  /**
   * `readLen(k)` is how many bytes the `k`-th `read` would like to deliver (clamped to what
   * `InputStream.read` may return); `faultAt == Some(k)` makes round `k` throw, either in
   * `read` or in the `write` that follows it, before any of that round's bytes land.
   */
  datatype StreamIo = StreamIo(readLen: nat -> nat, faultAt: Option<nat>)

  /** The bytes that reached the target file, and whether the loop ended at end of input. */
  datatype Copied = Copied(written: Bytes, complete: bool)

  /** An I/O oracle under which nothing throws. */
  function Reliable(readLen: nat -> nat): StreamIo
  {
    StreamIo(readLen, None)
  }

  /** What the `k`-th `read` returns with `remaining` bytes left: at least one, at most a buffer. */
  function ChunkLen(io: StreamIo, k: nat, remaining: nat): (n: nat)
    requires remaining > 0
    ensures 1 <= n <= BufferSize && n <= remaining
  {
    var want := io.readLen(k);
    var capped := if want < 1 then 1 else if want > BufferSize then BufferSize else want;
    if capped > remaining then remaining else capped
  }

  /**
   * The copy from round `k` on, with `data[..pos]` already written: whatever happens, the
   * target holds a prefix of the asset, and it holds all of it once the loop ends normally.
   */
  function Pump(data: Bytes, io: StreamIo, pos: nat, k: nat): (r: Copied)
    requires pos <= |data|
    ensures pos <= |r.written| <= |data| && r.written == data[..|r.written|]
    ensures r.complete ==> r.written == data
    ensures (io.faultAt.None? || io.faultAt.value < k) ==> r == Copied(data, true)
    decreases |data| - pos
  {
    if io.faultAt == Some(k) then Copied(data[..pos], false)
    else if pos == |data| then Copied(data, true)
    else Pump(data, io, pos + ChunkLen(io, k, |data| - pos), k + 1)
  }

  /** The outcome of copying `data` under the stream oracle `io`. */
  function StreamCopy(data: Bytes, io: StreamIo): (r: Copied)
    ensures |r.written| <= |data| && r.written == data[..|r.written|]
    ensures r.complete ==> r.written == data
    ensures io.faultAt.None? ==> r == Copied(data, true)
  {
    Pump(data, io, 0, 0)
  }

  /**
   * The loop of `copyAssetFile` as written: `while (read(buffer) != -1) write(buffer, 0, n)`,
   * with an exception in round `k` ending the copy (it is caught and only logged).
   */
  method CopyStream(data: Bytes, io: StreamIo) returns (written: Bytes, complete: bool)
    ensures Copied(written, complete) == StreamCopy(data, io)
    ensures written == data[..|written|]
    ensures io.faultAt.None? ==> complete && written == data
  {
    written := [];
    complete := false;
    var pos := 0;
    var k := 0;
    while true
      invariant 0 <= pos <= |data|
      invariant written == data[..pos]
      invariant Pump(data, io, pos, k) == StreamCopy(data, io)
      decreases |data| - pos
    {
      if io.faultAt == Some(k) {
        return;
      }
      var bytesRead := if pos == |data| then -1 else ChunkLen(io, k, |data| - pos);
      if bytesRead == -1 {
        complete := true;
        return;
      }
      var buffer := data[pos..pos + bytesRead];
      written := written + buffer;
      pos := pos + bytesRead;
      k := k + 1;
    }
  }
}
