/** The agent's side of a chunked transfer: reading and writing one file at an offset. */
module RemoteFile {
  import opened Wrappers

  newtype byte = x: int | 0 <= x < 256

  /** A file that may not exist. */
  type Content = Option<seq<byte>>

  datatype FileError = TooLarge | BadRequest | Missing | IoError

  /** Where a call breaks: not at all, before it touches the file, after `written` bytes, or after all its effects. */
  datatype Fault = NoFault | Before | Midway(written: nat) | After

  datatype WriteReply = WriteReply(offset: nat, writtenBytes: nat, totalSize: nat)

  datatype ReadReply = Chunk(offset: nat, bytes: seq<byte>, totalSize: nat, eof: bool) | Failure

  function Min(a: nat, b: nat): nat { if a < b then a else b }

  function Max(a: nat, b: nat): nat { if a < b then b else a }

  /** `base` with `chunk` written over it from `offset` on. */
  function Overlay(base: seq<byte>, offset: nat, chunk: seq<byte>): (r: seq<byte>)
    requires offset <= |base|
    ensures |r| == Max(|base|, offset + |chunk|)
    ensures r[..offset] == base[..offset] && r[offset..offset + |chunk|] == chunk
    ensures forall i :: offset + |chunk| <= i < |base| ==> r[i] == base[i]
  {
    base[..offset] + chunk + (if offset + |chunk| < |base| then base[offset + |chunk|..] else [])
  }

  class File {
    const maxReadBytes: nat
    const maxWriteBytes: nat
    var content: Content

    constructor (maxReadBytes: nat, maxWriteBytes: nat, content: Content)
      ensures this.maxReadBytes == maxReadBytes && this.maxWriteBytes == maxWriteBytes && this.content == content
    {
      this.maxReadBytes := maxReadBytes;
      this.maxWriteBytes := maxWriteBytes;
      this.content := content;
    }

    /** Opens (creating or truncating), seeks and writes; a fault may strike at any point. */
    method WriteFileChunk(offset: nat, chunk: seq<byte>, create: bool, truncate: bool, fault: Fault)
      returns (r: Result<WriteReply, FileError>)
      modifies this
      ensures r.Ok? ==> fault.NoFault? && (create || old(content).Some?) && |chunk| <= maxWriteBytes
      ensures r.Ok? ==>
                var base := if truncate || old(content).None? then [] else old(content).value;
                && offset <= |base|
                && content == Some(Overlay(base, offset, chunk))
                && r.value == WriteReply(offset, |chunk|, Max(|base|, offset + |chunk|))
      ensures r.Err? ==>
                var base := if truncate || old(content).None? then [] else old(content).value;
                || content == old(content)
                || (offset > |base| && old(content).None? && content == Some([]))
                || (offset <= |base|
                    && exists n :: 0 <= n <= |chunk| && content == Some(Overlay(base, offset, chunk[..n])))
      ensures |chunk| > maxWriteBytes ==> r == Err(TooLarge) || fault.Before?
      ensures (&& fault.NoFault? && |chunk| <= maxWriteBytes && !(truncate && offset > 0)
               && (create || old(content).Some?)
               && offset <= (if truncate || old(content).None? then 0 else |old(content).value|)) ==> r.Ok?
    {
      if fault.Before? { return Err(IoError); }
      if |chunk| > maxWriteBytes { return Err(TooLarge); }
      if truncate && offset > 0 { return Err(BadRequest); }
      if content.None? && !create { return Err(Missing); }
      if content.None? || truncate { content := Some([]); }
      var currentSize := |content.value|;
      if offset > currentSize { return Err(BadRequest); }
      ghost var base := content.value;
      if fault.Midway? {
        var n := Min(fault.written, |chunk|);
        content := Some(Overlay(content.value, offset, chunk[..n]));
        return Err(IoError);
      }
      content := Some(Overlay(content.value, offset, chunk));
      if fault.After? {
        assert chunk == chunk[..|chunk|];
        return Err(IoError);
      }
      return Ok(WriteReply(offset, |chunk|, |content.value|));
    }

    /** Reads at most `limit` bytes (0: no limit of the caller's); the system may return fewer, but at least one. */
    method ReadFileChunk(offset: nat, limit: nat, available: nat, fault: Fault) returns (r: ReadReply)
      ensures content.Some? ==> Served(content.value, offset, limit, r)
      ensures r.Chunk? ==> |r.bytes| <= Max(maxReadBytes, 1)
      ensures fault.NoFault? && content.Some? && offset <= |content.value| ==> r.Chunk?
    {
      if !fault.NoFault? || content.None? { return Failure; }
      var totalSize := |content.value|;
      if offset > totalSize { return Failure; }
      if offset == totalSize { return Chunk(offset, [], totalSize, true); }
      var maxRead := Max(maxReadBytes, 1);
      var maxAllowed := if limit > 0 then Min(limit, maxRead) else maxRead;
      var readLen := Min(Min(Max(available, 1), maxAllowed), totalSize - offset);
      var buffer := content.value[offset..offset + readLen];
      return Chunk(offset, buffer, totalSize, offset + readLen >= totalSize);
    }
  }

  /** An answer that the agent may give for a file with this content: a failure, or some of the bytes asked for. */
  predicate Served(content: seq<byte>, offset: nat, limit: nat, r: ReadReply) {
    r.Chunk? ==>
      && offset <= |content|
      && r.offset == offset
      && r.totalSize == |content|
      && offset + |r.bytes| <= |content|
      && r.bytes == content[offset..offset + |r.bytes|]
      && (limit > 0 ==> |r.bytes| <= limit)
      && (r.bytes == [] ==> offset == |content|)
      && (r.eof <==> offset + |r.bytes| == |content|)
  }
}
