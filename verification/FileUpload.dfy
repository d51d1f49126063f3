/** Uploading: the backend's chunk loop over the request body, and the browser's retry loop over slices of a file. */
module FileUpload {
  import opened Wrappers
  import opened RemoteFile

  const UPLOAD_BUFFER := 256 * 1024
  const UPLOAD_SLICE := 1024 * 1024
  const UPLOAD_RETRY_LIMIT := 3

  /** How one read of the request body ends. */
  datatype ReadEnd = More | Eof | Broken

  /** The result of one read: some bytes and how it ended. */
  datatype ReadEvent = ReadEvent(bytes: seq<byte>, end: ReadEnd)

  datatype UploadError = ReadFailed | InvalidLength | WriteFailed | UnexpectedReply | NotAdvanced | Disconnected

  datatype UploadResult = UploadResult(uploadedBytes: nat, totalSize: nat)

  /** The bytes that the reads deliver, up to the end of the body. */
  function Body(events: seq<ReadEvent>): seq<byte> {
    if events == [] then []
    else if events[0].end.More? then events[0].bytes + Body(events[1..])
    else events[0].bytes
  }

  /** The body is read to its end without an error; when the reads run out the body has ended. */
  predicate Intact(events: seq<ReadEvent>) {
    events == [] || (|events[0].bytes| <= UPLOAD_BUFFER
                    && (events[0].end.Eof? || (events[0].end.More? && Intact(events[1..]))))
  }

  /** What the file may hold once `part` of the body has been written from `offset` on. */
  function WrittenFrom(before: Content, offset: nat, part: seq<byte>): Content
    requires offset == 0 || (before.Some? && offset <= |before.value|)
  {
    if offset == 0 then Some(part) else Some(Overlay(before.value, offset, part))
  }

  /** After a failed request: the file untouched, created empty, or with some prefix of the body written. */
  ghost predicate Disturbed(before: Content, after: Content, offset: nat, body: seq<byte>) {
    || after == before
    || (before.None? && after == Some([]))
    || ((offset == 0 || (before.Some? && offset <= |before.value|)) &&
        exists n :: 0 <= n <= |body| && after == WrittenFrom(before, offset, body[..n]))
  }

  /** The read after `i` reads; when the reads have run out, the end of the body. */
  function EventAt(events: seq<ReadEvent>, i: nat): ReadEvent {
    if i < |events| then events[i] else ReadEvent([], Eof)
  }

  /** The first `i` reads delivered bytes and left the body open. */
  predicate Open(events: seq<ReadEvent>, i: nat) {
    i <= |events| && forall j :: 0 <= j < i ==> events[j].end.More? && |events[j].bytes| <= UPLOAD_BUFFER
  }

  lemma {:induction false} BodyAppend(first: seq<ReadEvent>, rest: seq<ReadEvent>)
    requires forall j :: 0 <= j < |first| ==> first[j].end.More?
    ensures Body(first + rest) == Body(first) + Body(rest)
    decreases |first|
  {
    if first == [] {
      assert first + rest == rest;
    } else {
      assert (first + rest)[1..] == first[1..] + rest;
      BodyAppend(first[1..], rest);
    }
  }

  lemma {:induction false} IntactAppend(first: seq<ReadEvent>, rest: seq<ReadEvent>)
    requires forall j :: 0 <= j < |first| ==> first[j].end.More? && |first[j].bytes| <= UPLOAD_BUFFER
    ensures Intact(first + rest) == Intact(rest)
    decreases |first|
  {
    if first == [] {
      assert first + rest == rest;
    } else {
      assert (first + rest)[1..] == first[1..] + rest;
      IntactAppend(first[1..], rest);
    }
  }

  lemma BodyOne(event: ReadEvent)
    ensures Body([event]) == event.bytes
  {
    assert [event][1..] == [] && event.bytes + [] == event.bytes;
  }

  lemma BodyHead(events: seq<ReadEvent>)
    ensures EventAt(events, 0).bytes <= Body(events)
    ensures EventAt(events, 0).end.Eof? ==> Body(events) == EventAt(events, 0).bytes
    ensures Intact(events) ==> |EventAt(events, 0).bytes| <= UPLOAD_BUFFER && !EventAt(events, 0).end.Broken?
    ensures EventAt(events, 0).end.Eof? && |EventAt(events, 0).bytes| <= UPLOAD_BUFFER ==> Intact(events)
  {
  }

  lemma ReadStep(events: seq<ReadEvent>, i: nat)
    requires Open(events, i)
    ensures var done, event := Body(events[..i]), EventAt(events, i);
            && done + event.bytes <= Body(events)
            && (event.end.More? && |event.bytes| <= UPLOAD_BUFFER ==> Open(events, i + 1))
            && (event.end.More? ==> i < |events| && Body(events[..i + 1]) == done + event.bytes)
            && (event.end.Eof? ==> Body(events) == done + event.bytes)
            && (Intact(events) ==> |event.bytes| <= UPLOAD_BUFFER && !event.end.Broken?)
            && (event.end.Eof? && |event.bytes| <= UPLOAD_BUFFER ==> Intact(events))
  {
    hide Body, Intact;
    var first, rest := events[..i], events[i..];
    assert events == first + rest && EventAt(rest, 0) == EventAt(events, i);
    BodyAppend(first, rest);
    IntactAppend(first, rest);
    BodyHead(rest);
    if i < |events| {
      BodyAppend(first, [events[i]]);
      BodyOne(events[i]);
      assert events[..i + 1] == first + [events[i]];
    }
  }

  /** Writing the next piece where the last one ended is writing both. */
  lemma OverlayExtend(base: seq<byte>, offset: nat, part: seq<byte>, next: seq<byte>)
    requires offset <= |base|
    ensures Overlay(Overlay(base, offset, part), offset + |part|, next) == Overlay(base, offset, part + next)
  {
  }

  lemma WrittenExtend(before: Content, offset: nat, part: seq<byte>, next: seq<byte>)
    requires offset == 0 || (before.Some? && offset <= |before.value|)
    ensures var mid := WrittenFrom(before, offset, part).value;
            && offset + |part| <= |mid|
            && Some(Overlay(mid, offset + |part|, next)) == WrittenFrom(before, offset, part + next)
  {
    if offset == 0 {
      assert Overlay(part, |part|, next) == part + next;
    } else {
      OverlayExtend(before.value, offset, part, next);
    }
  }

  /** Between two reads: `done` is written from `offset` on, or nothing has been written yet. */
  predicate Progress(before: Content, now: Content, offset: nat, done: seq<byte>, wrote: bool, totalSize: nat) {
    && (wrote <==> done != [])
    && (wrote ==> offset == 0 || (before.Some? && offset <= |before.value|))
    && now == (if wrote then WrittenFrom(before, offset, done) else before)
    && totalSize == (if wrote then |now.value| else 0)
  }

  /** The next piece is written where the last one ended. */
  lemma ProgressStep(before: Content, now: Content, after: Content, offset: nat, done: seq<byte>, piece: seq<byte>,
                     wrote: bool, totalSize: nat)
    requires Progress(before, now, offset, done, wrote, totalSize) && piece != []
    requires var base := if (offset + |done| == 0 && !wrote) || now.None? then [] else now.value;
             offset + |done| <= |base| && after == Some(Overlay(base, offset + |done|, piece))
    ensures Progress(before, after, offset, done + piece, true, |after.value|)
  {
    if wrote {
      WrittenExtend(before, offset, done, piece);
    } else {
      assert done + piece == piece && Overlay([], 0, piece) == piece;
    }
  }

  lemma ProgressDisturbs(before: Content, now: Content, offset: nat, body: seq<byte>, done: seq<byte>, wrote: bool,
                         totalSize: nat)
    requires done <= body && Progress(before, now, offset, done, wrote, totalSize)
    ensures Disturbed(before, now, offset, body)
  {
    assert done == body[..|done|];
  }

  /** A write that fails on the way adds some prefix of its piece to what was written before. */
  lemma FailedWriteDisturbs(before: Content, now: Content, after: Content, offset: nat, body: seq<byte>,
                            done: seq<byte>, piece: seq<byte>, wrote: bool, totalSize: nat)
    requires done + piece <= body && Progress(before, now, offset, done, wrote, totalSize)
    requires var base := if (offset + |done| == 0 && !wrote) || now.None? then [] else now.value;
             || after == now
             || (offset + |done| > |base| && now.None? && after == Some([]))
             || (offset + |done| <= |base|
                 && exists n :: 0 <= n <= |piece| && after == Some(Overlay(base, offset + |done|, piece[..n])))
    ensures Disturbed(before, after, offset, body)
  {
    var base := if (offset + |done| == 0 && !wrote) || now.None? then [] else now.value;
    if after == now {
      ProgressDisturbs(before, now, offset, body, done, wrote, totalSize);
    } else if offset + |done| <= |base| {
      var n :| 0 <= n <= |piece| && after == Some(Overlay(base, offset + |done|, piece[..n]));
      assert done + piece[..n] == body[..|done| + n];
      assert Overlay(base, offset + |done|, []) == base;
      if piece[..n] != [] {
        ProgressStep(before, now, after, offset, done, piece[..n], wrote, totalSize);
      } else if !wrote && offset == 0 {
        assert after == Some([]) && body[..0] == [];
      }
    }
  }

  ghost predicate Faultless(faults: nat -> Fault) {
    forall n :: faults(n) == NoFault
  }

  /** The offset lies within what is stored, or the upload starts anew. */
  predicate Fits(content: Content, offset: nat) {
    offset == 0 || (content.Some? && offset <= |content.value|)
  }

  lemma ProgressFits(before: Content, now: Content, offset: nat, done: seq<byte>, wrote: bool, totalSize: nat)
    requires Progress(before, now, offset, done, wrote, totalSize) && Fits(before, offset)
    ensures offset + |done| <= (if (offset + |done| == 0 && !wrote) || now.None? then 0 else |now.value|)
  {
  }

  /** The backend's upload: pieces of the body are written one after another, the first one truncating at offset 0. */
  method UploadFile(file: File, offset: nat, events: seq<ReadEvent>, faults: nat -> Fault)
    returns (r: Result<UploadResult, UploadError>)
    modifies file
    ensures r.Ok? ==> Intact(events) && r.value.uploadedBytes == offset + |Body(events)|
    ensures r.Ok? && (offset == 0 || Body(events) != []) ==>
              && Fits(old(file.content), offset)
              && file.content == WrittenFrom(old(file.content), offset, Body(events))
              && r.value.totalSize == |file.content.value|
    ensures r.Ok? && offset > 0 && Body(events) == [] ==>
              file.content == old(file.content) && r.value.totalSize == offset
    ensures r.Err? ==> Disturbed(old(file.content), file.content, offset, Body(events))
    ensures (&& Intact(events) && Faultless(faults) && UPLOAD_BUFFER <= file.maxWriteBytes
             && Fits(old(file.content), offset)) ==> r.Ok?
  {
    hide Body, Intact, Overlay, Progress, Disturbed, WrittenFrom, Open;
    ghost var before := file.content;
    var at := offset;
    var totalSize: nat := 0;
    var wroteChunk := false;
    var calls: nat := 0;
    var i: nat := 0;
    var eof := false;
    ghost var done: seq<byte> := [];
    NothingYet(before, offset, events);
    while !eof
      invariant i <= |events|
      invariant done == if eof then Body(events) else Body(events[..i])
      invariant if eof then Intact(events) else Open(events, i)
      invariant at == offset + |done|
      invariant Progress(before, file.content, offset, done, wroteChunk, totalSize)
      decreases !eof, |events| - i
    {
      var event := EventAt(events, i);
      ReadStep(events, i);
      ProgressDisturbs(before, file.content, offset, Body(events), done, wroteChunk, totalSize);
      if event.end.Broken? {
        return Err(ReadFailed);
      }
      var readLen := |event.bytes|;
      if readLen > UPLOAD_BUFFER {
        return Err(InvalidLength);
      }
      if readLen > 0 {
        ghost var now := file.content;
        var write := file.WriteFileChunk(at, event.bytes, true, at == 0 && !wroteChunk, faults(calls));
        calls := calls + 1;
        if write.Err? {
          if Fits(before, offset) { ProgressFits(before, now, offset, done, wroteChunk, totalSize); }
          FailedWriteDisturbs(before, now, file.content, offset, Body(events), done, event.bytes, wroteChunk,
                              totalSize);
          return Err(WriteFailed);
        }
        ProgressStep(before, now, file.content, offset, done, event.bytes, wroteChunk, totalSize);
        ProgressDisturbs(before, file.content, offset, Body(events), done + event.bytes, true, |file.content.value|);
        if write.value.offset != at { return Err(UnexpectedReply); }
        if write.value.writtenBytes != readLen { return Err(UnexpectedReply); }
        at := at + readLen;
        totalSize := write.value.totalSize;
        wroteChunk := true;
      }
      assert event.bytes == [] ==> done + event.bytes == done;
      done := done + event.bytes;
      if event.end.Eof? {
        eof := true;
      } else {
        i := i + 1;
      }
    }
    Finished(before, file.content, offset, done, wroteChunk, totalSize);
    if !wroteChunk && offset == 0 {
      var write := file.WriteFileChunk(0, [], true, true, faults(calls));
      if write.Err? {
        EmptyWrite(before, file.content, Body(events));
        return Err(WriteFailed);
      }
      EmptyWrite(before, file.content, Body(events));
      totalSize := write.value.totalSize;
    }
    if totalSize == 0 {
      totalSize := at;
    }
    return Ok(UploadResult(at, totalSize));
  }

  lemma NothingYet(before: Content, offset: nat, events: seq<ReadEvent>)
    ensures Body(events[..0]) == [] && Open(events, 0) && Progress(before, before, offset, [], false, 0)
  {
  }

  lemma Finished(before: Content, now: Content, offset: nat, done: seq<byte>, wrote: bool, totalSize: nat)
    requires Progress(before, now, offset, done, wrote, totalSize)
    ensures wrote <==> done != []
    ensures wrote ==> offset == 0 || (before.Some? && offset <= |before.value|)
    ensures wrote ==> now == WrittenFrom(before, offset, done) && totalSize == |now.value| > 0
    ensures !wrote ==> now == before && totalSize == 0
  {
  }

  lemma EmptyWrite(before: Content, after: Content, body: seq<byte>)
    requires after == before || (exists n :: 0 <= n <= 0 && after == Some(Overlay([], 0, [][..n])))
             || after == Some(Overlay([], 0, []))
    ensures Disturbed(before, after, 0, body)
    ensures after != before ==> after == Some([])
    ensures Overlay([], 0, []) == [] && WrittenFrom(before, 0, []) == Some([])
  {
    assert body[..0] == [];
    assert WrittenFrom(before, 0, body[..0]) == Some([]);
  }

  // ---- the browser's retry loop ----

  /** One attempt as the network lets it happen: how the body arrives, where the agent breaks, and a lost answer. */
  datatype Attempt = Attempt(events: seq<ReadEvent>, faults: nat -> Fault, answerLost: bool)

  /** The body that arrives is the slice that was sent, or breaks off after a part of it. */
  predicate Carries(a: Attempt, slice: seq<byte>) {
    Body(a.events) <= slice && (Intact(a.events) ==> Body(a.events) == slice)
  }

  /** An attempt that nothing goes wrong with. */
  ghost predicate Untroubled(a: Attempt) {
    Intact(a.events) && Faultless(a.faults) && !a.answerLost
  }

  /**
   Of any three requests in a row with the same slice at least one is untroubled; the others may fail at any point.
   */
  ghost predicate OneInThree(net: (nat, seq<byte>) -> Attempt) {
    forall n: nat, slice :: Untroubled(net(n, slice)) || Untroubled(net(n + 1, slice)) || Untroubled(net(n + 2, slice))
  }

  lemma OneOfThese(net: (nat, seq<byte>) -> Attempt, n: nat, slice: seq<byte>)
    requires OneInThree(net)
    ensures Untroubled(net(n, slice)) || Untroubled(net(n + 1, slice)) || Untroubled(net(n + 2, slice))
  {
  }

  /** The remote file is some prefix of the local one. */
  ghost predicate PrefixStored(local: seq<byte>, content: Content) {
    content.Some? && content.value <= local
  }

  /** The state between attempts: nothing confirmed yet, or at least the confirmed bytes stored. */
  ghost predicate Resumable(local: seq<byte>, original: Content, content: Content, confirmed: nat) {
    && confirmed <= |local|
    && (content == original || PrefixStored(local, content))
    && (confirmed > 0 ==> PrefixStored(local, content) && |content.value| >= confirmed)
  }

  /** Writing part of the right slice over a prefix of the file gives a prefix of the file. */
  lemma OverlayOfPrefix(local: seq<byte>, k: nat, offset: nat, part: seq<byte>)
    requires offset <= k <= |local| && offset + |part| <= |local| && part == local[offset..offset + |part|]
    ensures Overlay(local[..k], offset, part) == local[..Max(k, offset + |part|)]
  {
    var o, m := Overlay(local[..k], offset, part), Max(k, offset + |part|);
    forall i | 0 <= i < m ensures o[i] == local[i] {
      if i < offset {
        assert o[i] == o[..offset][i];
      } else if i < offset + |part| {
        assert o[i] == o[offset..offset + |part|][i - offset];
      }
    }
  }

  lemma WrittenIsPrefix(local: seq<byte>, content: Content, offset: nat, part: seq<byte>)
    requires offset + |part| <= |local| && part == local[offset..offset + |part|]
    requires offset == 0 || (PrefixStored(local, content) && offset <= |content.value|)
    ensures PrefixStored(local, WrittenFrom(content, offset, part))
    ensures |WrittenFrom(content, offset, part).value| >= offset + |part|
  {
    if offset == 0 {
      assert part == local[..|part|];
    } else {
      assert content.value == local[..|content.value|];
      OverlayOfPrefix(local, |content.value|, offset, part);
    }
  }

  /** A failed attempt leaves the file resumable from where it was. */
  lemma FailureKeepsResumable(local: seq<byte>, original: Content, before: Content, after: Content, offset: nat,
                              slice: seq<byte>, body: seq<byte>)
    requires Resumable(local, original, before, offset) && body <= slice
    requires offset + |slice| <= |local| && slice == local[offset..offset + |slice|]
    requires Disturbed(before, after, offset, body)
    ensures Resumable(local, original, after, offset)
  {
    if after != before && !(before.None? && after == Some([])) {
      var n :| 0 <= n <= |body| && after == WrittenFrom(before, offset, body[..n]);
      assert body[..n] == local[offset..offset + n];
      WrittenIsPrefix(local, before, offset, body[..n]);
    }
  }

  lemma SuccessAdvances(local: seq<byte>, original: Content, before: Content, offset: nat, slice: seq<byte>)
    requires Resumable(local, original, before, offset)
    requires offset + |slice| <= |local| && slice == local[offset..offset + |slice|]
    requires offset == 0 || (before.Some? && offset <= |before.value|)
    ensures Resumable(local, original, WrittenFrom(before, offset, slice), offset + |slice|)
    ensures PrefixStored(local, WrittenFrom(before, offset, slice))
    ensures |WrittenFrom(before, offset, slice).value| >= offset + |slice|
  {
    WrittenIsPrefix(local, before, offset, slice);
  }

  /**
   The browser's upload. Whatever the remote file held, whichever attempts fail, and whatever prefix of their writes
   they applied: a normal return means that the remote file equals the local one, byte for byte. Otherwise it is
   untouched or holds a prefix of the local file. The loop returns normally whatever fails, as long as one of any three
   requests in a row meets no trouble.
   */
  method UploadFileWithRetry(local: seq<byte>, file: File, net: (nat, seq<byte>) -> Attempt)
    returns (r: Result<UploadResult, UploadError>)
    requires forall n, slice :: Carries(net(n, slice), slice)
    modifies file
    ensures r.Ok? ==> file.content == Some(local) && r.value == UploadResult(|local|, |local|)
    ensures r.Err? ==> file.content == old(file.content) || PrefixStored(local, file.content)
    ensures OneInThree(net) && UPLOAD_BUFFER <= file.maxWriteBytes ==> r.Ok?
  {
    hide Body, Intact, Disturbed, WrittenFrom, Faultless, OneInThree;
    ghost var original := file.content;
    var offset: nat := 0;
    var requests: nat := 0;
    var lastResult := UploadResult(0, 0);
    while offset < |local| || (|local| == 0 && offset == 0)
      invariant Resumable(local, original, file.content, offset)
      invariant offset > 0 ==> lastResult == UploadResult(offset, |file.content.value|)
      decreases |local| - offset
    {
      var sliceEnd := Min(offset + UPLOAD_SLICE, |local|);
      var slice := local[offset..sliceEnd];
      var success := false;
      var lastError := Disconnected;
      var attempt := 0;
      ghost var start, first := offset, requests;
      while attempt < UPLOAD_RETRY_LIMIT && !success
        invariant !success ==> offset == start && Resumable(local, original, file.content, offset)
        invariant success ==> offset == sliceEnd && Resumable(local, original, file.content, offset)
        invariant success ==> PrefixStored(local, file.content) && |file.content.value| >= offset
        invariant success ==> lastResult == UploadResult(offset, |file.content.value|)
        invariant attempt <= UPLOAD_RETRY_LIMIT && requests == first + attempt
        invariant !success && UPLOAD_BUFFER <= file.maxWriteBytes ==>
                    forall n :: first <= n < requests ==> !Untroubled(net(n, slice))
        decreases !success, UPLOAD_RETRY_LIMIT - attempt
      {
        var way := net(requests, slice);
        assert Carries(way, slice);
        requests := requests + 1;
        ghost var before := file.content;
        var answer := UploadFile(file, offset, way.events, way.faults);
        if answer.Err? {
          FailureKeepsResumable(local, original, before, file.content, offset, slice, Body(way.events));
          lastError := answer.error;
        } else {
          SuccessAdvances(local, original, before, offset, slice);
          if way.answerLost {
            lastError := Disconnected;
          } else {
            var advanced: int := answer.value.uploadedBytes - offset;
            if advanced < 0 || (|slice| > 0 && advanced == 0) {
              lastError := NotAdvanced;
            } else {
              offset := answer.value.uploadedBytes;
              lastResult := answer.value;
              success := true;
            }
          }
        }
        attempt := attempt + 1;
      }
      if OneInThree(net) { OneOfThese(net, first, slice); }
      if !success {
        return Err(lastError);
      }
      if |local| == 0 {
        break;
      }
    }
    assert PrefixStored(local, file.content) && |file.content.value| == |local|;
    assert file.content.value == local[..|local|] == local;
    return Ok(lastResult);
  }
}
