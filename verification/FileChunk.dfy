/** FileChunk and FileChunkAssembler: a file as an announced size, pieces and an end mark. */
module FileChunks {
  import opened Bytes
  import opened Chunks
  import opened Decimal
  import opened Wrappers

  const MAX_FILE_SIZE := 256 * 1024 * 1024

  datatype Chunk =
    | Unreadable                                // the message could not be parsed
    | Chunk(mark: byte, content: seq<byte>)

  function StartChunk(size: nat): Chunk {
    Chunk(DATA_START, ToString(size))
  }

  function DataChunk(data: seq<byte>): Chunk {
    Chunk(DATA_CHUNK, data)
  }

  function EndChunk(): Chunk {
    Chunk(DATA_END, [])
  }

  predicate WellAnnounced(content: seq<byte>) {
    content != [] && AllDigits(content) && StringToSize(content) <= MAX_FILE_SIZE
  }

  /** Which announcements are accepted: sizes within the limit, and those that overflow 64 bits. */
  lemma AcceptedAnnouncements(content: seq<byte>)
    requires content != [] && AllDigits(content)
    ensures WellAnnounced(content) <==> Value(content) <= MAX_FILE_SIZE || Value(content) >= TWO_TO_THE_64
    ensures WellAnnounced(content) ==>
              StringToSize(content) == if Value(content) <= MAX_FILE_SIZE then Value(content) else 0
  {
    ExtractDigits(content);
  }

  // ---------------------------------------------------------------- the history of a transfer

  /** The last start mark, the pieces since then in order, and whether an end mark followed. */
  datatype Transfer = Transfer(announced: seq<byte>, data: seq<byte>, ended: bool)

  function LastTransfer(chunks: seq<Chunk>): Option<Transfer> {
    if chunks == [] then None
    else
      var before := LastTransfer(chunks[..|chunks| - 1]);
      match chunks[|chunks| - 1]
      case Unreadable => before
      case Chunk(mark, content) =>
        if mark == DATA_START then Some(Transfer(content, [], false))
        else if before.None? then None
        else if mark == DATA_CHUNK then Some(before.value.(data := before.value.data + content))
        else if mark == DATA_END then Some(before.value.(ended := true))
        else before
  }

  lemma LastTransferStep(chunks: seq<Chunk>, chunk: Chunk)
    ensures var before, after := LastTransfer(chunks), LastTransfer(chunks + [chunk]);
            if chunk.Unreadable? then after == before
            else if chunk.mark == DATA_START then after == Some(Transfer(chunk.content, [], false))
            else if before.None? then after == None
            else if chunk.mark == DATA_CHUNK then
              after == Some(before.value.(data := before.value.data + chunk.content))
            else if chunk.mark == DATA_END then after == Some(before.value.(ended := true))
            else after == before
  {
    assert (chunks + [chunk])[..|chunks|] == chunks;
  }

  /** A transfer in progress: properly announced, not ended, and not longer than announced. */
  ghost predicate OnTrack(t: Option<Transfer>) {
    && t.Some? && !t.value.ended
    && WellAnnounced(t.value.announced)
    && |t.value.data| <= StringToSize(t.value.announced)
  }

  /** A transfer in progress whose data has the announced length. */
  ghost predicate Complete(t: Option<Transfer>) {
    OnTrack(t) && |t.value.data| == StringToSize(t.value.announced)
  }

  ghost predicate Delivers(chunks: seq<Chunk>, file: seq<byte>) {
    LastTransfer(chunks).Some? && file == LastTransfer(chunks).value.data
  }

  predicate IsEnd(chunk: Chunk) {
    chunk.Chunk? && chunk.mark == DATA_END
  }

  /** What is to be reported for a message, by the history before it. */
  ghost function Verdict(chunk: Chunk, t: Option<Transfer>): Progress {
    if chunk.Unreadable? then Error
    else if chunk.mark == DATA_START then
      if WellAnnounced(chunk.content) then Start else Error
    else if !OnTrack(t) then Error
    else if chunk.mark == DATA_CHUNK then
      if |t.value.data| + |chunk.content| <= StringToSize(t.value.announced) then NotFinish else Error
    else if chunk.mark == DATA_END && Complete(t) then Finish
    else Error
  }

  /** Which messages get which report; all others are errors. */
  lemma Verdicts(chunk: Chunk, t: Option<Transfer>)
    ensures Verdict(chunk, t) == Start <==> chunk.Chunk? && chunk.mark == 1 && WellAnnounced(chunk.content)
    ensures Verdict(chunk, t) == NotFinish <==>
              && chunk.Chunk? && chunk.mark == 2 && OnTrack(t)
              && |t.value.data| + |chunk.content| <= StringToSize(t.value.announced)
    ensures Verdict(chunk, t) == Finish <==> chunk.Chunk? && chunk.mark == 3 && Complete(t)
  {
    hide StringToSize, WellAnnounced;
  }

  class FileChunkAssembler {
    var active: bool
    var dataReceived: seq<byte>       // the caller's buffer
    var expectedSize: nat             // and the size it expects

    ghost var history: seq<Chunk>

    /** An active transfer is the last one started, within the size that it announced. */
    ghost predicate Valid()
      reads this
    {
      && (active <==> OnTrack(LastTransfer(history)))
      && (active ==>
            && expectedSize == StringToSize(LastTransfer(history).value.announced) <= MAX_FILE_SIZE
            && dataReceived == LastTransfer(history).value.data)
    }

    constructor ()
      ensures Valid() && !active && history == []
    {
      active, dataReceived, expectedSize, history := false, [], 0, [];
    }

    method Reset()
      modifies this`active
      ensures !active
    {
      active := false;
    }

    /** Takes one message; reports the end of a transfer only when it is complete. */
    method Assemble(chunk: Chunk) returns (result: Progress)
      requires Valid()
      modifies this
      ensures Valid() && history == old(history) + [chunk]
      ensures result == Verdict(chunk, LastTransfer(old(history)))
      ensures result == Finish <==> IsEnd(chunk) && Complete(LastTransfer(old(history)))
      ensures result == Finish ==> !active && Delivers(old(history), dataReceived)
      ensures chunk.Chunk? && chunk.mark == DATA_START && WellAnnounced(chunk.content) ==>
                && result == Start && active && dataReceived == []
                && expectedSize == StringToSize(chunk.content)
      ensures chunk.Chunk? && chunk.mark == DATA_CHUNK && old(active)
              && |old(dataReceived)| + |chunk.content| <= old(expectedSize) ==>
                && result == NotFinish && active && dataReceived == old(dataReceived) + chunk.content
                && expectedSize == old(expectedSize)
      ensures chunk.Chunk? && chunk.mark == DATA_END && old(active) && |old(dataReceived)| == old(expectedSize) ==>
                result == Finish && dataReceived == old(dataReceived)
    {
      hide LastTransfer, StringToSize, AllDigits;
      LastTransferStep(history, chunk);
      history := history + [chunk];
      if chunk.Unreadable? {
        return Error;
      }
      var content := chunk.content;
      if chunk.mark == DATA_START {
        if content == [] || !AllDigits(content) {
          Reset();
          return Error;
        }
        dataReceived := [];
        expectedSize := StringToSize(content);
        if expectedSize > MAX_FILE_SIZE {
          expectedSize := 0;
          Reset();
          return Error;
        }
        active := true;
        return Start;
      } else if chunk.mark == DATA_CHUNK {
        if !active {
          return Error;
        }
        if |content| > expectedSize || |dataReceived| > expectedSize - |content| {
          dataReceived := [];
          expectedSize := 0;
          Reset();
          return Error;
        }
        dataReceived := dataReceived + content;
        return NotFinish;
      } else if chunk.mark == DATA_END {
        if !active {
          return Error;
        }
        if expectedSize != |dataReceived| {
          Reset();
          return Error;
        }
        Reset();
        return Finish;
      }
      return Error;
    }
  }

  /**
   * Every run: a finish is reported exactly when an end mark closes a complete transfer, and
   * then the data is the concatenation of the pieces since its start.
   */
  method Receive(chunks: seq<Chunk>) returns (results: seq<Progress>, files: seq<seq<byte>>)
    ensures |results| == |files| == |chunks|
    ensures forall k :: 0 <= k < |chunks| ==>
              && results[k] == Verdict(chunks[k], LastTransfer(chunks[..k]))
              && (results[k] == Finish <==> IsEnd(chunks[k]) && Complete(LastTransfer(chunks[..k])))
    ensures forall k :: 0 <= k < |chunks| && results[k] == Finish ==> Delivers(chunks[..k], files[k])
  {
    hide LastTransfer, OnTrack, Complete, Delivers, IsEnd, WellAnnounced, Verdict;
    var a := new FileChunkAssembler();
    results, files := [], [];
    var i := 0;
    while i < |chunks|
      invariant 0 <= i <= |chunks| && |results| == |files| == i && fresh(a)
      invariant a.Valid() && a.history == chunks[..i]
      invariant forall k :: 0 <= k < i ==>
                  && results[k] == Verdict(chunks[k], LastTransfer(chunks[..k]))
                  && (results[k] == Finish <==> IsEnd(chunks[k]) && Complete(LastTransfer(chunks[..k])))
      invariant forall k :: 0 <= k < i && results[k] == Finish ==> Delivers(chunks[..k], files[k])
    {
      assert chunks[..i] + [chunks[i]] == chunks[..i + 1];
      var result := a.Assemble(chunks[i]);
      results, files := results + [result], files + [a.dataReceived];
      i := i + 1;
    }
  }

  /** A file within the limit, announced and cut in any way, arrives from any earlier state. */
  method Deliver(a: FileChunkAssembler, file: seq<byte>, pieces: seq<seq<byte>>) returns (last: Progress)
    requires a.Valid() && |file| <= MAX_FILE_SIZE && Concat(pieces) == file
    modifies a
    ensures a.Valid() && last == Finish && a.dataReceived == file && !a.active
  {
    hide LastTransfer, OnTrack, Complete, Concat;
    SizeRoundTrip(|file|);
    var _ := a.Assemble(StartChunk(|file|));
    ConcatNone<byte>();
    assert pieces[..0] == [];
    var i := 0;
    while i < |pieces|
      invariant 0 <= i <= |pieces| && a.Valid() && a.active
      invariant a.expectedSize == |file| && a.dataReceived == Concat(pieces[..i])
    {
      ConcatAppend(pieces[..i], pieces[i]);
      assert pieces[..i] + [pieces[i]] == pieces[..i + 1];
      ConcatPrefix(pieces, i + 1);
      var _ := a.Assemble(DataChunk(pieces[i]));
      i := i + 1;
    }
    assert pieces[..i] == pieces;
    last := a.Assemble(EndChunk());
  }
}
