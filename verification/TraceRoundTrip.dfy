/** What the sink has written, the reader finds again: every chunk, and every client's transitions. */
module TraceRoundTrip {

  import opened Common
  import opened TraceFormat
  import opened TraceReader
  import TraceWriter
  import CallForest
  import CallTree

  // ---------------------------------------------------------------- the walk over a layout

  function OffsetOf(f: seq<byte>, placed: seq<Placed>, i: nat): nat
    requires i <= |placed|
  {
    if i < |placed| then placed[i].offset else |f|
  }

  predicate SegmentSized(c: Chunk) {
    SizeOf(c) <= SEGMENT
  }

  /** What is known of the `i`th chunk: its place in the file, and where the next one is. */
  lemma {:induction false} ChunkOfLayout(f: seq<byte>, placed: seq<Placed>, i: nat)
    requires LaidOut(f, placed, |f|) && i < |placed|
    ensures var p := placed[i];
            && OffsetOf(f, placed, i) == p.offset < EndOf(p) <= |f|
            && EndOf(p) == OffsetOf(f, placed, i + 1)
            && p.offset + CHUNK_HEADER <= |f| && CHUNK_HEADER <= Remaining(p.offset)
            && ChunkAt(f, p.offset, p.chunk)
    decreases |placed| - i
  {
    assert Stored(f, placed[i]);
    TraceWriter.PadFits(placed[i].offset);
    if i + 1 < |placed| {
      ChunkOfLayout(f, placed, i + 1);
    }
  }

  /** The inventory accepts a chunk of the sink iff it is not larger than a segment. */
  lemma {:induction false} SinkChunkChecked(f: seq<byte>, p: Placed)
    requires ChunkAt(f, p.offset, p.chunk) && p.offset + CHUNK_HEADER <= |f| && CHUNK_HEADER <= Remaining(p.offset)
    requires CHUNK_HEADER <= SizeOf(p.chunk) && EndOf(p) <= |f|
    requires SegmentSized(p.chunk) ==> SizeOf(p.chunk) <= Remaining(p.offset)
    ensures U32(f, p.offset + 4) == SizeOf(p.chunk)
    ensures CheckChunk(f, p.offset) == if SegmentSized(p.chunk) then Success else ChunkStraddlesSegment
    ensures U16(f, p.offset) == TRACE_TYPE <==> p.chunk.Trace?
    ensures p.chunk.Trace? ==> p.offset + TRACE_HEADER <= |f| && ClientAt(f, p.offset) == p.chunk.client
  {
    hide ViewEnd, Remaining, U16, U32, BytesAt;
    ChunkInView(|f|, p.offset, CHUNK_HEADER);
    if SegmentSized(p.chunk) {
      ChunkInView(|f|, p.offset, SizeOf(p.chunk));
    }
  }

  function OffsetsFrom(placed: seq<Placed>, i: nat): seq<nat>
    requires i <= |placed|
    decreases |placed| - i
  {
    if i == |placed| then [] else [placed[i].offset] + OffsetsFrom(placed, i + 1)
  }

  ghost predicate AllSegmentSized(placed: seq<Placed>, i: nat) {
    forall k :: i <= k < |placed| ==> SegmentSized(placed[k].chunk)
  }

  /** The walk ends with success iff no chunk of the sink is larger than a segment. */
  lemma {:induction false} WalkSucceeds(f: seq<byte>, placed: seq<Placed>, i: nat)
    requires LaidOut(f, placed, |f|) && TraceWriter.Segmented(placed) && i <= |placed|
    ensures WalkStatus(f, OffsetOf(f, placed, i)) == if AllSegmentSized(placed, i) then Success else ChunkStraddlesSegment
    decreases |placed| - i
  {
    hide LaidOut, ChunkAt, CheckChunk, U16, U32, Remaining, SegmentSized, TraceWriter.Segmented;
    if i < |placed| {
      StepOfLayout(f, placed, i);
      WalkSucceeds(f, placed, i + 1);
      assert AllSegmentSized(placed, i) <==> SegmentSized(placed[i].chunk) && AllSegmentSized(placed, i + 1);
    }
  }

  /** The walk meets exactly the chunks of the layout and its pads, in order. */
  lemma {:induction false} WalkMeetsLayout(f: seq<byte>, placed: seq<Placed>, i: nat)
    requires LaidOut(f, placed, |f|) && TraceWriter.Segmented(placed) && i <= |placed| && AllSegmentSized(placed, i)
    ensures Visited(f, OffsetOf(f, placed, i)) == OffsetsFrom(placed, i)
    decreases |placed| - i
  {
    hide LaidOut, ChunkAt, CheckChunk, U16, U32, Remaining, SegmentSized, TraceWriter.Segmented;
    if i < |placed| {
      StepOfLayout(f, placed, i);
      WalkMeetsLayout(f, placed, i + 1);
    }
  }

  lemma {:induction false} StepOfLayout(f: seq<byte>, placed: seq<Placed>, i: nat)
    requires LaidOut(f, placed, |f|) && TraceWriter.Segmented(placed) && i < |placed|
    ensures var p := placed[i];
            && OffsetOf(f, placed, i) == p.offset && p.offset + CHUNK_HEADER <= |f| && ChunkAt(f, p.offset, p.chunk)
            && p.offset + U32(f, p.offset + 4) == OffsetOf(f, placed, i + 1)
            && CheckChunk(f, p.offset) == (if SegmentSized(p.chunk) then Success else ChunkStraddlesSegment)
            && (U16(f, p.offset) == TRACE_TYPE <==> p.chunk.Trace?)
            && (p.chunk.Trace? ==> p.offset + TRACE_HEADER <= |f| && ClientAt(f, p.offset) == p.chunk.client)
            && (SegmentSized(p.chunk) ==> SizeOf(p.chunk) <= Remaining(p.offset))
  {
    ChunkOfLayout(f, placed, i);
    StoredSize(f, placed, i);
    hide LaidOut, ChunkAt, CheckChunk, U16, U32, Remaining;
    SinkChunkChecked(f, placed[i]);
  }

  lemma {:induction false} StoredSize(f: seq<byte>, placed: seq<Placed>, i: nat)
    requires LaidOut(f, placed, |f|) && TraceWriter.Segmented(placed) && i < |placed|
    ensures CHUNK_HEADER <= SizeOf(placed[i].chunk)
    ensures SegmentSized(placed[i].chunk) ==> SizeOf(placed[i].chunk) <= Remaining(placed[i].offset)
  {
    hide ChunkAt, Remaining;
    assert Stored(f, placed[i]);
  }

  /**
   The inventory compares the size of a chunk with that of a segment, but not with what is left
   of the segment.  An accepted chunk keeps to one segment iff it is no larger than that.
   */
  lemma {:induction false} AcceptedCrossesIff(f: seq<byte>, o: nat)
    requires o < |f| && CheckChunk(f, o) == Success
    ensures o / SEGMENT != (o + U32(f, o + 4) - 1) / SEGMENT <==> U32(f, o + 4) > Remaining(o)
  {
    hide CheckChunk, U32, Remaining;
    TraceWriter.CrossesBoundary(o, U32(f, o + 4));
  }

  /**
   Neither does it compare the end of a chunk with that of the file or the view.  The transitions
   of an accepted chunk can be read iff it has room for its own header and the last whole
   transition ends within the view.
   */
  lemma {:induction false} AcceptedReadableIff(f: seq<byte>, o: nat)
    requires o < |f| && CheckChunk(f, o) == Success && U16(f, o) == TRACE_TYPE
    ensures var size := U32(f, o + 4);
            Readable(f, o) <==> TRACE_HEADER <= size && o + (size - size % TRANSITION) <= ViewEnd(|f|, o)
  {
    hide U32, U16;
    var size := U32(f, o + 4);
    ViewLength(|f|, o);
    hide ViewEnd;
    if TRACE_HEADER <= size {
      assert TRACE_HEADER + TRANSITION * TransitionCount(size) == size - size % TRANSITION;
    } else {
      assert TransitionCount(size) == (size + ULONG_RANGE - TRACE_HEADER) / TRANSITION > VIEW;
    }
  }

  lemma {:induction false} ViewLength(size: nat, o: nat)
    ensures ViewEnd(size, o) <= o + VIEW
  {
  }

  /** A chunk that stays within its segment and the file can be read; so can every one the sink has written. */
  lemma {:induction false} WithinSegmentReadable(f: seq<byte>, o: nat)
    requires o < |f| && CheckChunk(f, o) == Success && U16(f, o) == TRACE_TYPE
    requires TRACE_HEADER <= U32(f, o + 4) <= Remaining(o) && o + U32(f, o + 4) <= |f|
    ensures Readable(f, o)
  {
    hide CheckChunk, U32, U16, Readable, Remaining, ViewEnd;
    AcceptedReadableIff(f, o);
    ChunkInView(|f|, o, U32(f, o + 4));
  }

  /** A file of one chunk that crosses a boundary; it is accepted. */
  lemma {:induction false} StraddlingAccepted() returns (f: seq<byte>)
    ensures CheckFileHeader(f) == Success && WalkStatus(f, FILE_HEADER) == Success
    ensures Visited(f, FILE_HEADER) == [FILE_HEADER]
    ensures FILE_HEADER / SEGMENT != (|f| - 1) / SEGMENT
  {
    hide *;
    f := OnePad();
    OnePadHolds();
    OnePadAccepted(f);
  }

  function OnePad(): seq<byte> {
    FileHeaderBytes() + HeaderBytes(PAD_TYPE, SEGMENT) + seq(SEGMENT - CHUNK_HEADER, _ => 0)
  }

  lemma {:induction false} OnePadHolds()
    ensures |OnePad()| == FILE_HEADER + SEGMENT
    ensures BytesAt(OnePad(), 0, FileHeaderBytes()) && BytesAt(OnePad(), FILE_HEADER, HeaderBytes(PAD_TYPE, SEGMENT))
  {
    hide FileHeaderBytes, HeaderBytes;
  }

  lemma {:induction false} OnePadAccepted(f: seq<byte>)
    requires |f| == FILE_HEADER + SEGMENT
    requires BytesAt(f, 0, FileHeaderBytes()) && BytesAt(f, FILE_HEADER, HeaderBytes(PAD_TYPE, SEGMENT))
    ensures CheckFileHeader(f) == Success && WalkStatus(f, FILE_HEADER) == Success
    ensures Visited(f, FILE_HEADER) == [FILE_HEADER]
    ensures FILE_HEADER / SEGMENT != (|f| - 1) / SEGMENT
  {
    ReadFileHeader(f);
    ReadHeader(f, FILE_HEADER, PAD_TYPE, SEGMENT);
    hide FileHeaderBytes, HeaderBytes, BytesAt, U16, U32;
    assert CheckChunk(f, FILE_HEADER) == Success && FILE_HEADER + U32(f, FILE_HEADER + 4) == |f|;
    hide CheckChunk;
    assert WalkStatus(f, |f|) == Success && Visited(f, |f|) == [];
  }

  // ---------------------------------------------------------------- the chunks of a client

  function BufferFor(c: Chunk, client: ClientId): seq<seq<byte>> {
    if c.Trace? && c.client == client then [c.buffer] else []
  }

  /** The buffers of `client` among the chunks from the `i`th on. */
  function BuffersFrom(placed: seq<Placed>, i: nat, client: ClientId): seq<seq<byte>>
    requires i <= |placed|
    decreases |placed| - i
  {
    if i == |placed| then []
    else
      var c := placed[i].chunk;
      BufferFor(c, client) + BuffersFrom(placed, i + 1, client)
  }

  /** A trace chunk of `client` with this buffer is at `o`, within one segment. */
  ghost predicate TraceAt(f: seq<byte>, o: nat, client: ClientId, buffer: seq<byte>) {
    ChunkAt(f, o, Trace(client, buffer)) && TRACE_HEADER + |buffer| <= Remaining(o)
  }

  /** The offsets recorded for a client are those of its buffers, in order. */
  lemma {:induction false} ClientChunks(f: seq<byte>, placed: seq<Placed>, i: nat, client: ClientId)
    requires LaidOut(f, placed, |f|) && TraceWriter.Segmented(placed) && i <= |placed| && AllSegmentSized(placed, i)
    ensures var offsets, buffers := ChunksFrom(f, OffsetOf(f, placed, i), client), BuffersFrom(placed, i, client);
            |offsets| == |buffers| && forall k :: 0 <= k < |offsets| ==> TraceAt(f, offsets[k], client, buffers[k])
    decreases |placed| - i
  {
    hide LaidOut, ChunkAt, CheckChunk, U16, U32, Remaining, TraceWriter.Segmented, ClientAt;
    if i < |placed| {
      StepOfLayout(f, placed, i);
      ClientChunks(f, placed, i + 1, client);
      ClientStep(f, placed, i, client);
    }
  }

  lemma {:induction false} ClientStep(f: seq<byte>, placed: seq<Placed>, i: nat, client: ClientId)
    requires LaidOut(f, placed, |f|) && TraceWriter.Segmented(placed) && i < |placed| && SegmentSized(placed[i].chunk)
    ensures var c := placed[i].chunk; var mine := c.Trace? && c.client == client;
            && ChunksFrom(f, OffsetOf(f, placed, i), client)
               == (if mine then [placed[i].offset] else []) + ChunksFrom(f, OffsetOf(f, placed, i + 1), client)
            && (mine ==> TraceAt(f, placed[i].offset, client, c.buffer))
  {
    hide LaidOut, ChunkAt, CheckChunk, U16, U32, Remaining, TraceWriter.Segmented;
    StepOfLayout(f, placed, i);
    WalkStepOfClient(f, placed[i].offset, client);
  }

  /** The transitions a buffer holds. */
  function Decode(buffer: seq<byte>): (r: seq<CallTree.Transition>)
    ensures |r| == |buffer| / TRANSITION
    ensures forall i :: 0 <= i < |r| ==> r[i] == DecodeTransition(buffer, TRANSITION * i)
  {
    seq(|buffer| / TRANSITION, i requires 0 <= i < |buffer| / TRANSITION => DecodeTransition(buffer, TRANSITION * i))
  }

  /** Every transition that was put into a buffer comes out again. */
  lemma {:induction false} DecodeBuffer(buffer: seq<byte>, ts: seq<CallTree.Transition>, unused: seq<nat>)
    requires |buffer| == TRANSITION * |ts| && |unused| == |ts|
    requires forall i :: 0 <= i < |ts| ==>
                           Representable(ts[i]) && BytesAt(buffer, TRANSITION * i, EncodeTransition(ts[i], unused[i]))
    ensures Decode(buffer) == ts
  {
    hide BytesAt, EncodeTransition, DecodeTransition, Representable;
    forall i | 0 <= i < |ts| ensures Decode(buffer)[i] == ts[i] {
      DecodeEncoded(buffer, TRANSITION * i, ts[i], unused[i]);
    }
  }

  lemma {:induction false} SameTransition(f: seq<byte>, o: nat, buffer: seq<byte>, a: nat)
    requires BytesAt(f, o, buffer) && a + TRANSITION <= |buffer|
    ensures o + a + TRANSITION <= |f| && DecodeTransition(f, o + a) == DecodeTransition(buffer, a)
  {
    assert forall j :: a <= j < a + TRANSITION ==> f[o + j] == buffer[j];
  }

  lemma {:induction false} TraceInView(f: seq<byte>, o: nat, client: ClientId, buffer: seq<byte>)
    requires TraceAt(f, o, client, buffer)
    ensures Readable(f, o) && BytesAt(f, o + TRACE_HEADER, buffer)
    ensures TransitionCount(U32(f, o + 4)) == |buffer| / TRANSITION
  {
    hide ViewEnd, Remaining, U16;
    var size := TRACE_HEADER + |buffer|;
    assert U32(f, o + 4) == size;
    hide U32;
    assert BytesAt(f, o + TRACE_HEADER, buffer);
    hide BytesAt;
    BytesFit(f, o + TRACE_HEADER, buffer);
    ChunkInView(|f|, o, size);
  }

  /** The reader sees the transitions of the buffer. */
  lemma {:induction false} ReadsBuffer(f: seq<byte>, o: nat, client: ClientId, buffer: seq<byte>)
    requires TraceAt(f, o, client, buffer)
    ensures Readable(f, o) && TransitionsAt(f, o) == Decode(buffer)
  {
    TraceInView(f, o, client, buffer);
    hide *;
    forall i | 0 <= i < |buffer| / TRANSITION ensures TransitionsAt(f, o)[i] == Decode(buffer)[i] {
      SameTransition(f, o + TRACE_HEADER, buffer, TRANSITION * i);
    }
  }

  // ---------------------------------------------------------------- from buffers to calls

  /** The buffers of `client` among the chunks the sink was given. */
  function BuffersOf(chunks: seq<Chunk>, client: ClientId): seq<seq<byte>> {
    if chunks == [] then []
    else
      var c := chunks[|chunks| - 1];
      BuffersOf(chunks[..|chunks| - 1], client) + BufferFor(c, client)
  }

  lemma {:induction false} BuffersOneMore(chunks: seq<Chunk>, c: Chunk, client: ClientId)
    ensures BuffersOf(chunks + [c], client) ==
            BuffersOf(chunks, client) + BufferFor(c, client)
  {
    assert (chunks + [c])[..|chunks|] == chunks;
  }

  /** Pads do not matter: what lies in the file for a client is what the sink was given. */
  lemma {:induction false} BuffersSplit(placed: seq<Placed>, i: nat, client: ClientId)
    requires i <= |placed|
    ensures BuffersOf(TraceWriter.Flushed(placed[..i]), client) + BuffersFrom(placed, i, client)
            == BuffersFrom(placed, 0, client)
  {
    hide *;
    if i > 0 {
      BuffersSplit(placed, i - 1, client);
      FlushedStep(placed, i, client);
      Regroup(BuffersOf(TraceWriter.Flushed(placed[..i - 1]), client), BufferFor(placed[i - 1].chunk, client),
              BuffersFrom(placed, i, client));
    } else {
      NothingFlushed(placed, client);
    }
  }

  lemma {:induction false} NothingFlushed(placed: seq<Placed>, client: ClientId)
    ensures BuffersOf(TraceWriter.Flushed(placed[..0]), client) + BuffersFrom(placed, 0, client)
            == BuffersFrom(placed, 0, client)
  {
    hide BuffersFrom;
    assert BuffersOf(TraceWriter.Flushed(placed[..0]), client) == [];
  }

  lemma {:induction false} FlushedStep(placed: seq<Placed>, i: nat, client: ClientId)
    requires 0 < i <= |placed|
    ensures BuffersOf(TraceWriter.Flushed(placed[..i]), client)
            == BuffersOf(TraceWriter.Flushed(placed[..i - 1]), client) + BufferFor(placed[i - 1].chunk, client)
    ensures BuffersFrom(placed, i - 1, client) == BufferFor(placed[i - 1].chunk, client) + BuffersFrom(placed, i, client)
  {
    hide BuffersOf, TraceWriter.Flushed;
    var p, before := placed[i - 1], placed[..i - 1];
    assert placed[..i] == before + [p];
    TraceWriter.FlushedOneMore(before, p);
    SkipPad(TraceWriter.Flushed(before), p.chunk, client);
  }

  lemma {:induction false} SkipPad(chunks: seq<Chunk>, c: Chunk, client: ClientId)
    ensures BuffersOf(chunks + (if c.Pad? then [] else [c]), client)
            == BuffersOf(chunks, client) + BufferFor(c, client)
  {
    if c.Pad? {
      assert chunks + [] == chunks;
    } else {
      BuffersOneMore(chunks, c, client);
    }
  }

  function DecodeAll(buffers: seq<seq<byte>>): (r: seq<seq<CallTree.Transition>>)
    ensures |r| == |buffers| && forall k :: 0 <= k < |r| ==> r[k] == Decode(buffers[k])
  {
    seq(|buffers|, k requires 0 <= k < |buffers| => Decode(buffers[k]))
  }

  lemma {:induction false} SinkOpens(f: seq<byte>, placed: seq<Placed>)
    requires LaidOut(f, placed, |f|)
    ensures CheckFileHeader(f) == Success && OffsetOf(f, placed, 0) == FILE_HEADER
  {
    hide Stored, BytesAt, U32, U16, FileHeaderBytes;
    ReadFileHeader(f);
  }

  /** All chunks of a client can be read, and hold the transitions of its buffers. */
  lemma {:induction false} ClientReadable(f: seq<byte>, placed: seq<Placed>, client: ClientId)
    requires LaidOut(f, placed, |f|) && TraceWriter.Segmented(placed) && AllSegmentSized(placed, 0)
    ensures var offsets := ChunksFrom(f, FILE_HEADER, client);
            var all := DecodeAll(BuffersOf(TraceWriter.Flushed(placed), client));
            |offsets| == |all| && forall k :: 0 <= k < |offsets| ==>
                                                Readable(f, offsets[k]) && TransitionsAt(f, offsets[k]) == all[k]
  {
    SinkOpens(f, placed);
    hide LaidOut, TraceAt, Readable, TransitionsAt, ChunksFrom, BuffersFrom, BuffersOf, TraceWriter.Flushed,
         TraceWriter.Segmented, AllSegmentSized, Decode;
    ClientChunks(f, placed, 0, client);
    NoBuffersLeft(placed, client);
    var offsets, buffers := ChunksFrom(f, FILE_HEADER, client), BuffersFrom(placed, 0, client);
    forall k | 0 <= k < |offsets| ensures Readable(f, offsets[k]) && TransitionsAt(f, offsets[k]) == Decode(buffers[k]) {
      ReadsBuffer(f, offsets[k], client, buffers[k]);
    }
  }

  lemma {:induction false} NoBuffersLeft(placed: seq<Placed>, client: ClientId)
    ensures BuffersOf(TraceWriter.Flushed(placed), client) == BuffersFrom(placed, 0, client)
  {
    BuffersSplit(placed, |placed|, client);
    assert placed[..|placed|] == placed;
    assert BuffersFrom(placed, |placed|, client) == [];
  }

  /**
   Reads the file of a sink.  It opens iff nothing in it is larger than a segment, and then
   yields for every client the transitions of its buffers, in the order they were processed.
   */
  method ReadSink(sink: TraceWriter.Sink, client: ClientId)
    returns (status: FileStatus, chunks: seq<seq<CallTree.Transition>>)
    requires sink.Valid()
    ensures status == if AllSegmentSized(sink.placed, 0) then Success else ChunkStraddlesSegment
    ensures status == Success ==> chunks == DecodeAll(BuffersOf(TraceWriter.Flushed(sink.placed), client))
  {
    hide LaidOut, TraceWriter.Segmented, AllSegmentSized, Readable, TransitionsAt, WalkStatus, ChunksFrom,
         BuffersOf, TraceWriter.Flushed, CheckFileHeader, DecodeAll;
    ghost var placed, f := sink.placed, sink.file;
    SinkOpens(f, placed);
    WalkSucceeds(f, placed, 0);
    var file := new TraceFile(sink.file);
    status := file.Open();
    chunks := [];
    if status == Success {
      ClientReadable(f, placed, client);
      status, chunks := file.ReadChunks(client);
    }
  }

  /**
   The whole way: the calls a client made, printed as transitions into the buffers the sink
   was given for it, come back as they were, whatever else the sink was given.
   */
  method ReadCallsOfClient(sink: TraceWriter.Sink, client: ClientId)
    returns (status: FileStatus, calls: CallForest.Forest)
    requires sink.Valid() && AllSegmentSized(sink.placed, 0)
    requires BuffersOf(TraceWriter.Flushed(sink.placed), client) != []
    ensures status == Success
    ensures forall g :: CallForest.Complete(g)
              && CallForest.Print(g) == Concat(DecodeAll(BuffersOf(TraceWriter.Flushed(sink.placed), client)))
              ==> calls == g
  {
    var chunks;
    status, chunks := ReadSink(sink, client);
    var enumStatus;
    enumStatus, calls := CallForest.ReadClient(chunks);
  }

  // ---------------------------------------------------------------- a file that cannot be opened

  lemma {:induction false} OversizedFlushed(placed: seq<Placed>, k: nat)
    requires k < |TraceWriter.Flushed(placed)| && !SegmentSized(TraceWriter.Flushed(placed)[k])
    ensures !AllSegmentSized(placed, 0)
    decreases |placed|
  {
    hide SegmentSized;
    var before, last := placed[..|placed| - 1], placed[|placed| - 1];
    if k < |TraceWriter.Flushed(before)| {
      OversizedFlushed(before, k);
      var i :| 0 <= i < |before| && !SegmentSized(before[i].chunk);
      assert placed[i] == before[i];
    } else {
      assert TraceWriter.Flushed(placed)[k] == last.chunk;
    }
  }

  /** An image with more debug data than fits into a segment makes the file of any sink unreadable. */
  method LoadOversizedImage(sink: TraceWriter.Sink, content: seq<byte>, client: ClientId) returns (status: FileStatus)
    requires sink.Valid() && SEGMENT < CHUNK_HEADER + |content| < ULONG_RANGE - ALIGNMENT
    modifies sink
    ensures status == ChunkStraddlesSegment
  {
    hide LaidOut, TraceWriter.Segmented, TraceWriter.Flushed, AllSegmentSized;
    ghost var before := TraceWriter.Flushed(sink.placed);
    sink.OnImageLoad(content);
    ghost var images := sink.images;
    sink.FlushImageInfoEventQueue();
    ghost var flushed := TraceWriter.Flushed(sink.placed);
    TraceWriter.NextImage(before, images);
    OversizedFlushed(sink.placed, |before|);
    var chunks;
    status, chunks := ReadSink(sink, client);
  }

  /** Such a sink, with one image that consists of a segment of zeros. */
  method OversizedImage(junk: nat -> byte) returns (status: FileStatus)
    ensures status == ChunkStraddlesSegment
  {
    var sink := new TraceWriter.Sink(junk);
    status := LoadOversizedImage(sink, seq(SEGMENT, _ => 0), ClientId(0, 0));
  }
}
