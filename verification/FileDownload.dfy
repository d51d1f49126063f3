/** Downloading: the backend's chunk loop over the agent, and the browser's retry loop over ranges of the file. */
module FileDownload {
  import opened Wrappers
  import opened RemoteFile
  import ContentRange

  const AGENT_CHUNK := 256 * 1024
  const DOWNLOAD_RANGE := 1024 * 1024
  const DOWNLOAD_RETRY_LIMIT := 3

  datatype DownloadError =
    AgentFailed | UnexpectedOffset | EmptyBeforeEof | Canceled | NotAdvanced | Disconnected | StreamFailed

  datatype DownloadResult = DownloadResult(startOffset: nat, endOffset: nat, totalSize: nat, downloadedBytes: nat)

  /** What the agent answers to the n-th read of a request, for an offset and a limit. */
  type Agent = (nat, nat, nat) -> ReadReply

  /** Every answer is one that a file with this content allows; short reads and failures may come at any time. */
  ghost predicate Serves(agent: Agent, content: seq<byte>) {
    forall n: nat, offset: nat, limit: nat :: Served(content, offset, limit, agent(n, offset, limit))
  }

  /** Reads inside the file do not fail. */
  ghost predicate Reliable(agent: Agent, content: seq<byte>) {
    forall n: nat, offset: nat, limit: nat :: offset <= |content| ==> agent(n, offset, limit).Chunk?
  }

  ghost predicate Accepts(stream: nat -> bool) { forall n :: stream(n) }

  /** The bytes are those of the file from `offset` on. */
  predicate Emitted(content: seq<byte>, offset: nat, out: seq<byte>) {
    offset + |out| <= |content| && out == content[offset..offset + |out|]
  }

  /** Where a download of `limit` bytes (0: no limit) from `offset` ends. */
  function EndOf(content: seq<byte>, offset: nat, limit: nat): nat {
    if limit == 0 then |content| else Min(|content|, offset + limit)
  }

  /**
   The backend's download. `patience` bounds how many agent calls the request lives for, and `stream` says which pieces
   the response accepts. For any agent at all a limited download makes at most `limit` calls and emits at most `limit`
   bytes; for an agent that serves an unchanging file the emitted bytes are always a prefix of the range asked for, and
   on success the whole of it.
   */
  method DownloadFile(agent: Agent, stream: nat -> bool, offset: nat, limit: nat, patience: nat,
                      ghost content: seq<byte>)
    returns (r: Result<DownloadResult, DownloadError>, out: seq<byte>, calls: nat)
    ensures limit > 0 ==> calls <= limit && |out| <= limit
    ensures calls <= patience
    ensures r.Ok? ==> r.value.startOffset == offset && r.value.downloadedBytes == |out|
                      && r.value.endOffset == (if |out| > 0 then offset + |out| - 1 else offset)
    ensures Serves(agent, content) && offset <= |content| ==> Emitted(content, offset, out)
    ensures Serves(agent, content) && r.Ok? ==> offset <= |content| && r.value.totalSize == |content|
                                                && offset + |out| == EndOf(content, offset, limit)
    ensures (&& Serves(agent, content) && Reliable(agent, content) && Accepts(stream) && offset <= |content|
             && EndOf(content, offset, limit) - offset < patience) ==> r.Ok?
  {
    hide Served, Serves, Reliable, Emitted;
    ghost var serves := Serves(agent, content);
    var at: nat := offset;
    var downloadedBytes: nat := 0;
    var totalSize: nat := 0;
    var remaining: nat := limit;
    out, calls := [], 0;
    var done := false;
    NothingEmitted(content, offset);
    while !done
      invariant at == offset + downloadedBytes && downloadedBytes == |out|
      invariant limit > 0 ==> remaining + downloadedBytes == limit
      invariant limit == 0 ==> remaining == 0
      invariant calls <= patience
      invariant limit > 0 ==> calls <= limit
      invariant !done ==> calls <= downloadedBytes
      invariant serves && offset <= |content| ==> at <= |content| && Emitted(content, offset, out)
      invariant serves && calls > 0 ==> offset <= |content| && totalSize == |content|
      invariant serves && done ==>
                  offset <= |content| && at == EndOf(content, offset, limit) && totalSize == |content|
      invariant serves && !done && offset <= |content| ==> at <= EndOf(content, offset, limit)
      invariant calls == 0 ==> totalSize == 0
      invariant limit > 0 && !done ==> remaining > 0
      decreases !done, patience - calls
    {
      var want := AGENT_CHUNK;
      if remaining > 0 && remaining < want {
        want := remaining;
      }
      if remaining == 0 && limit > 0 {
        break;
      }
      if calls == patience {
        return Err(Canceled), out, calls;
      }
      var reply := agent(calls, at, want);
      AgentFacts(agent, content, calls, at, want);
      calls := calls + 1;
      if reply.Failure? {
        return Err(AgentFailed), out, calls;
      }
      if reply.totalSize > 0 {
        totalSize := reply.totalSize;
      }
      if reply.offset != at {
        return Err(UnexpectedOffset), out, calls;
      }
      if |reply.bytes| > 0 {
        var piece := reply.bytes;
        if remaining > 0 && |piece| > remaining {
          piece := piece[..remaining];
        }
        if !stream(calls - 1) {
          return Err(StreamFailed), out, calls;
        }
        if serves { Extend(content, offset, out, reply.bytes, |piece|); }
        out := out + piece;
        at := at + |piece|;
        downloadedBytes := downloadedBytes + |piece|;
        if remaining > 0 {
          remaining := remaining - |piece|;
        }
      }
      if reply.eof || (limit > 0 && remaining == 0) {
        done := true;
      } else if |reply.bytes| == 0 {
        return Err(EmptyBeforeEof), out, calls;
      }
    }
    if totalSize == 0 {
      totalSize := at;
    }
    var endOffset := offset;
    if downloadedBytes > 0 {
      endOffset := offset + downloadedBytes - 1;
    }
    return Ok(DownloadResult(offset, endOffset, totalSize, downloadedBytes)), out, calls;
  }

  /** What the next answer of a serving agent, and of a reliable one, amounts to. */
  lemma AgentFacts(agent: Agent, content: seq<byte>, n: nat, offset: nat, limit: nat)
    ensures var r := agent(n, offset, limit);
            Serves(agent, content) && r.Chunk? ==>
              && Emitted(content, offset, r.bytes) && offset + |r.bytes| <= |content|
              && r.offset == offset && r.totalSize == |content|
              && (limit > 0 ==> |r.bytes| <= limit)
              && (r.bytes == [] ==> offset == |content|)
              && (r.eof <==> offset + |r.bytes| == |content|)
    ensures Reliable(agent, content) && offset <= |content| ==> agent(n, offset, limit).Chunk?
  {
    if Serves(agent, content) { assert Served(content, offset, limit, agent(n, offset, limit)); }
  }

  lemma NothingEmitted(content: seq<byte>, offset: nat)
    ensures offset <= |content| ==> Emitted(content, offset, [])
  {
  }

  /** Bytes of the file appended to the bytes before them. */
  lemma Extend(content: seq<byte>, offset: nat, out: seq<byte>, bytes: seq<byte>, n: nat)
    requires Emitted(content, offset, out) && Emitted(content, offset + |out|, bytes) && n <= |bytes|
    ensures Emitted(content, offset, out + bytes[..n])
    ensures offset + |out| + n <= |content| && bytes[..|bytes|] == bytes
  {
  }

  /** What arrives in the browser: the bytes, and the total if the response carries a range header. */
  datatype RangePart = RangePart(blob: seq<byte>, totalSize: Option<nat>)

  /** One request of the browser, through the backend's handler. A lost response is seen as an error. */
  method DownloadFileChunk(agent: Agent, stream: nat -> bool, offset: nat, limit: nat, patience: nat, lost: bool,
                           ghost content: seq<byte>)
    returns (r: Result<RangePart, DownloadError>)
    ensures r.Ok? && Serves(agent, content) ==>
              && offset <= |content| && offset + |r.value.blob| == EndOf(content, offset, limit)
              && r.value.blob == content[offset..EndOf(content, offset, limit)]
    ensures r.Ok? && Serves(agent, content) && (offset > 0 || limit > 0) ==> r.value.totalSize == Some(|content|)
    ensures (&& Serves(agent, content) && Reliable(agent, content) && Accepts(stream) && offset <= |content| && !lost
             && EndOf(content, offset, limit) - offset < patience) ==> r.Ok?
  {
    var result, bytes, _ := DownloadFile(agent, stream, offset, limit, patience, content);
    if result.Err? { return Err(result.error); }
    if lost { return Err(Disconnected); }
    var totalSize: Option<nat> := None;
    if offset > 0 || limit > 0 {
      var info := result.value;
      ContentRange.RoundTrip(info.startOffset, info.endOffset, info.totalSize);
      var header := ContentRange.Format(info.startOffset, info.endOffset, info.totalSize);
      totalSize := ContentRange.ParseTotal(header);
    }
    return Ok(RangePart(bytes, totalSize));
  }

  /** How the network and the agent behave towards one request. */
  datatype Way = Way(agent: Agent, stream: nat -> bool, patience: nat, lost: bool)

  ghost predicate Smooth(way: Way, content: seq<byte>) {
    Reliable(way.agent, content) && Accepts(way.stream) && !way.lost && way.patience > DOWNLOAD_RANGE
  }

  /** Of any three requests in a row at least one goes smoothly; the others may fail in any way. */
  ghost predicate OneInThree(net: nat -> Way, content: seq<byte>) {
    forall n: nat :: Smooth(net(n), content) || Smooth(net(n + 1), content) || Smooth(net(n + 2), content)
  }

  lemma OneOfThese(net: nat -> Way, content: seq<byte>, n: nat)
    requires OneInThree(net, content)
    ensures Smooth(net(n), content) || Smooth(net(n + 1), content) || Smooth(net(n + 2), content)
  {
  }

  /**
   The browser's download. Whatever reads come back short and whichever requests fail, a normal return is the whole
   file: nothing lost, nothing twice. It does return as long as one of any three requests in a row goes smoothly.
   */
  method Download(net: nat -> Way, ghost content: seq<byte>) returns (r: Result<seq<byte>, DownloadError>)
    requires forall n :: Serves(net(n).agent, content)
    ensures r.Ok? ==> r.value == content
    ensures OneInThree(net, content) ==> r.Ok?
  {
    hide Serves, Reliable, Accepts, OneInThree;
    var offset: nat := 0;
    var totalSize: Option<nat> := None;
    var chunks: seq<byte> := [];
    var requests: nat := 0;
    while totalSize.None? || offset < totalSize.value
      invariant offset <= |content| && chunks == content[..offset]
      invariant totalSize.None? || totalSize == Some(|content|)
      invariant totalSize.None? ==> offset == 0
      decreases totalSize.None?, |content| - offset
    {
      var success := false;
      var lastError := Disconnected;
      var attempt := 0;
      ghost var start, first := offset, requests;
      while attempt < DOWNLOAD_RETRY_LIMIT && !success
        invariant offset <= |content| && chunks == content[..offset]
        invariant totalSize.None? || totalSize == Some(|content|)
        invariant !success ==> offset == start
        invariant success ==> totalSize.Some? && (offset > start || offset == |content|)
        invariant totalSize.None? ==> offset == 0
        invariant attempt <= DOWNLOAD_RETRY_LIMIT && requests == first + attempt
        invariant !success ==> forall n :: first <= n < requests ==> !Smooth(net(n), content)
        decreases !success, DOWNLOAD_RETRY_LIMIT - attempt
      {
        var way := net(requests);
        assert Serves(way.agent, content);
        requests := requests + 1;
        var answer := DownloadFileChunk(way.agent, way.stream, offset, DOWNLOAD_RANGE, way.patience, way.lost, content);
        if answer.Err? {
          lastError := answer.error;
        } else {
          var chunk := answer.value;
          if chunk.totalSize.Some? {
            totalSize := chunk.totalSize;
          }
          if |chunk.blob| == 0 {
            if totalSize.None? || offset < totalSize.value {
              lastError := NotAdvanced;
            } else {
              success := true;
            }
          } else {
            chunks := chunks + chunk.blob;
            offset := offset + |chunk.blob|;
            success := true;
          }
        }
        attempt := attempt + 1;
      }
      if OneInThree(net, content) { OneOfThese(net, content, first); }
      if !success {
        return Err(lastError);
      }
      if totalSize.Some? && offset >= totalSize.value {
        break;
      }
    }
    return Ok(chunks);
  }
}
