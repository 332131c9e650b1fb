/**
 * The byte streams an upload passes through and the bounded copy between them
 * (`CopyStreamLimited`, Team.cs). A source is a cursor over the bytes the client
 * sends; a destination collects what is written to it.
 */
module Streams {
  import opened Http
  import opened Numbers

  /** Size of the copy buffer. */
  const ChunkSize := 4096

  /** Message of the 413 the copier throws, whatever its limit. */
  const TooLargeMessage := "File exceeds maximum size of 1 GiB"

  /** The limit as the copier applies it: a negative limit writes nothing. */
  function Allowance(maxBytes: int): nat { if maxBytes < 0 then 0 else maxBytes }

  /** The bytes of `s` that fit under `maxBytes`. */
  function Limited(s: seq<byte>, maxBytes: int): (r: seq<byte>)
    ensures |r| <= Allowance(maxBytes) && r <= s
    ensures |s| <= maxBytes ==> r == s
    ensures |s| > Allowance(maxBytes) ==> |r| == Allowance(maxBytes)
  {
    s[..Min(|s|, Allowance(maxBytes))]
  }

  /** Adjacent slices join into one. */
  lemma SliceConcat(s: seq<byte>, i: nat, j: nat, k: nat)
    requires i <= j <= k <= |s|
    ensures s[i..k] == s[i..j] + s[j..k]
  {
    assert forall n :: 0 <= n < k - i ==> s[i..k][n] == (s[i..j] + s[j..k])[n];
  }

  /** Writing the first `w` bytes of the chunk `data[j..j + n]` extends the copy of
      `data[i..j]` to `data[i..j + w]`. */
  lemma ChunkPrefix(data: seq<byte>, i: nat, j: nat, n: nat, w: nat)
    requires i <= j && w <= n && j + n <= |data|
    ensures data[i..j + w] == data[i..j] + data[j..j + n][..w]
  {
    assert data[j..j + n][..w] == data[j..j + w];
    SliceConcat(data, i, j, j + w);
  }

  /** A readable stream: `data` is everything the client will ever send, `pos` how much
      of it has been read. */
  class InputStream {
    const data: seq<byte>
    var pos: nat

    ghost predicate Valid()
      reads this
    {
      pos <= |data|
    }

    /** The bytes not yet read. */
    function Remaining(): seq<byte>
      reads this
      requires Valid()
    {
      data[pos..]
    }

    constructor (data: seq<byte>)
      ensures Valid() && this.data == data && pos == 0
    {
      this.data := data;
      pos := 0;
    }

    /** `ReadAsync(buffer, 0, count)`: the next bytes, at least one and at most `count`
        while any are left (how many is up to the transport), none at the end. */
    method Read(count: nat) returns (chunk: seq<byte>)
      requires Valid()
      modifies this
      ensures Valid() && pos == old(pos) + |chunk| && chunk == data[old(pos)..pos]
      ensures |chunk| <= count
      ensures count > 0 && old(pos) < |data| ==> |chunk| > 0
    {
      var n: nat :| n <= count && pos + n <= |data| && (count > 0 && pos < |data| ==> n > 0);
      chunk := data[pos..pos + n];
      pos := pos + n;
    }
  }

  /** A writable stream: everything written to it, in order. */
  class OutputStream {
    var written: seq<byte>

    constructor ()
      ensures written == []
    {
      written := [];
    }

    method Write(chunk: seq<byte>)
      modifies this
      ensures written == old(written) + chunk
    {
      written := written + chunk;
    }
  }

  /**
   * The outcomes the copier as written can end in for a source holding `s`, whatever
   * the transport's chunking: a 413 needs at least two bytes beyond the limit, and two
   * whole chunks beyond it make the 413 certain. In between, the outcome depends on
   * how the reads fall.
   */
  predicate AsWrittenOutcome(s: seq<byte>, maxBytes: int, r: Outcome) {
    && (r.Fail? ==> r.error == HttpListenerException(413, TooLargeMessage) && |s| >= Allowance(maxBytes) + 2)
    && (|s| >= Allowance(maxBytes) + 2 * ChunkSize ==> r.Fail?)
  }

  /**
   * The copier as written: read a chunk, and only then test whether the limit is
   * reached; write what fits; finally probe one more byte and throw 413 if there is
   * one and the limit was reached. What it writes does not depend on how the
   * transport splits the data: the first `maxBytes` bytes, or all of them if fewer.
   * But the read that ends the loop is thrown away unseen, and so are the bytes of
   * the chunk that crossed the limit, so a 413 needs at least two bytes beyond the
   * limit, and a body just one byte too long is accepted and truncated. At most two
   * chunks can be swallowed, so a source longer than that always gets the 413.
   */
  method CopyStreamLimited(source: InputStream, destination: OutputStream, maxBytes: int) returns (r: Outcome)
    requires source.Valid()
    modifies source, destination
    ensures source.Valid()
    ensures destination.written == old(destination.written) + Limited(old(source.Remaining()), maxBytes)
    ensures r.Fail? ==> r.error == HttpListenerException(413, TooLargeMessage)
    ensures r.Fail? ==> |old(source.Remaining())| >= Allowance(maxBytes) + 2
    ensures |old(source.Remaining())| >= Allowance(maxBytes) + 2 * ChunkSize ==> r.Fail?
    ensures r.Pass? ==> source.pos == |source.data|
  {
    ghost var start := source.pos;
    ghost var before := destination.written;
    var total := 0;
    var bytesRead := source.Read(ChunkSize);
    while |bytesRead| > 0 && total < maxBytes
      invariant source.Valid() && 0 <= total <= Allowance(maxBytes)
      invariant start + total + |bytesRead| <= source.pos
      invariant |bytesRead| <= ChunkSize
      invariant source.pos <= start + total + |bytesRead| + ChunkSize - 1
      invariant bytesRead == source.data[source.pos - |bytesRead|..source.pos]
      invariant total < maxBytes ==> source.pos - |bytesRead| == start + total
      invariant |bytesRead| == 0 ==> source.pos == |source.data|
      invariant destination.written == before + source.data[start..start + total]
      decreases |source.data| - source.pos + |bytesRead|
    {
      var bytesLeftToWrite := maxBytes - total;
      var bytesToWrite := Min(|bytesRead|, if bytesLeftToWrite < 0 then 0 else bytesLeftToWrite);
      destination.Write(bytesRead[..bytesToWrite]);
      ChunkPrefix(source.data, start, start + total, |bytesRead|, bytesToWrite);
      total := total + bytesToWrite;
      bytesRead := source.Read(ChunkSize);
    }
    LoopExit(|source.data| - start, source.pos - start, total, |bytesRead|, maxBytes);
    LimitedSlice(source.data, start, total, maxBytes);
    var probe := source.Read(1);
    if |probe| > 0 && total >= maxBytes {
      return Fail(HttpListenerException(413, TooLargeMessage));
    }
    return Pass;
  }

  /**
   * Where the loop of the copier as written stops, for a source of `size` bytes of
   * which `consumed` have been read, `total` written and the last `last` dropped: the
   * limit or the end of the source has been reached, the probe finds a byte only past
   * two bytes beyond the limit, and at most two chunks' worth is ever read past it.
   */
  lemma LoopExit(size: int, consumed: int, total: int, last: int, maxBytes: int)
    requires 0 <= consumed <= size && 0 <= total <= Allowance(maxBytes)
    requires total + last <= consumed && 0 <= last <= ChunkSize
    requires consumed <= total + last + ChunkSize - 1
    requires total < maxBytes ==> consumed - last == total
    requires last == 0 ==> consumed == size
    requires !(last > 0 && total < maxBytes)
    ensures total == Min(size, Allowance(maxBytes))
    ensures consumed < size ==> total >= maxBytes && size >= Allowance(maxBytes) + 2
    ensures size >= Allowance(maxBytes) + 2 * ChunkSize ==> consumed < size
  {
  }

  /** The first `total` bytes from `start` on are the limited rest of the source. */
  lemma LimitedSlice(data: seq<byte>, start: nat, total: int, maxBytes: int)
    requires start <= |data| && total == Min(|data| - start, Allowance(maxBytes))
    ensures data[start..start + total] == Limited(data[start..], maxBytes)
  {
    assert data[start..][..total] == data[start..start + total];
  }

  /** The truncation, concretely: a three-byte body under a two-byte limit is accepted
      and two bytes are kept, however the transport delivers them. */
  method OneByteTooLongIsAccepted() returns (r: Outcome, offered: seq<byte>, kept: seq<byte>)
    ensures |offered| > 2 && r == Pass && kept == offered[..2]
  {
    offered := [1, 2, 3];
    var source := new InputStream(offered);
    var destination := new OutputStream();
    r := CopyStreamLimited(source, destination, 2);
    kept := destination.written;
  }

  /**
   * The copier as intended: never ask for more than the allowance left, so no byte is
   * read and dropped, then probe one byte. It throws 413 exactly when the source holds
   * more than `maxBytes` bytes.
   */
  method CopyStreamLimitedFixed(source: InputStream, destination: OutputStream, maxBytes: int) returns (r: Outcome)
    requires source.Valid()
    modifies source, destination
    ensures source.Valid()
    ensures destination.written == old(destination.written) + Limited(old(source.Remaining()), maxBytes)
    ensures r.Fail? ==> r.error == HttpListenerException(413, TooLargeMessage)
    ensures r.Fail? <==> |old(source.Remaining())| > Allowance(maxBytes)
  {
    ghost var start := source.pos;
    ghost var before := destination.written;
    var total := 0;
    while total < maxBytes
      invariant source.Valid() && 0 <= total <= Allowance(maxBytes)
      invariant source.pos == start + total
      invariant destination.written == before + source.data[start..start + total]
      decreases Allowance(maxBytes) - total
    {
      var bytesRead := source.Read(Min(ChunkSize, maxBytes - total));
      if |bytesRead| == 0 {
        break;
      }
      destination.Write(bytesRead);
      SliceConcat(source.data, start, start + total, start + total + |bytesRead|);
      total := total + |bytesRead|;
    }
    assert total < Allowance(maxBytes) ==> source.pos == |source.data|;
    assert source.data[start..start + total] == Limited(source.data[start..], maxBytes);
    var probe := source.Read(1);
    if |probe| > 0 && total >= maxBytes {
      return Fail(HttpListenerException(413, TooLargeMessage));
    }
    return Pass;
  }
}
