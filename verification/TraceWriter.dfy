/** The event sink that writes the chunks of a trace file. */
module TraceWriter {

  import opened Common
  import opened TraceFormat

  const LARGEST_TRACE_BUFFER: nat := SEGMENT - TRACE_HEADER

  /** The chunks a flush adds at `position`: a pad first if the rest of the segment is too small. */
  function Placement(position: nat, c: Chunk): seq<Placed> {
    if Remaining(position) < SizeOf(c)
    then [Placed(position, Pad(Remaining(position))), Placed(position + Remaining(position), c)]
    else [Placed(position, c)]
  }

  lemma {:induction false} PlacementEnds(position: nat, c: Chunk)
    ensures var p, fits := Placement(position, c), SizeOf(c) <= Remaining(position);
            && |p| == (if fits then 1 else 2)
            && p[|p| - 1] == Placed(if fits then position else position + Remaining(position), c)
  {
  }

  /** A chunk crosses a segment boundary only if it is larger than a segment. */
  ghost predicate Segmented(placed: seq<Placed>) {
    forall i :: 0 <= i < |placed| ==>
                  && (WithinSegment(placed[i]) <==> SizeOf(placed[i].chunk) <= SEGMENT)
                  && (placed[i].chunk.Pad? ==> WithinSegment(placed[i]))
  }

  function Flushed(placed: seq<Placed>): seq<Chunk> {
    if placed == [] then []
    else
      var last := placed[|placed| - 1].chunk;
      Flushed(placed[..|placed| - 1]) + if last.Pad? then [] else [last]
  }

  lemma {:induction false} FlushedOneMore(placed: seq<Placed>, p: Placed)
    ensures Flushed(placed + [p]) == Flushed(placed) + if p.chunk.Pad? then [] else [p.chunk]
  {
    assert (placed + [p])[..|placed|] == placed;
  }

  /** What a chunk consists of in memory, header first. */
  ghost predicate HeadAndBody(c: Chunk, head: seq<byte>, body: seq<byte>) {
    match c
    case Pad(_) => false
    case Image(content) => head == HeaderBytes(IMAGE_TYPE, SizeOf(c)) + content && body == []
    case Trace(client, buffer) => head == TraceHeaderBytes(client, SizeOf(c)) && body == buffer && body != []
  }

  lemma {:induction false} PadFits(position: nat)
    requires position % ALIGNMENT == 0
    ensures CHUNK_HEADER <= Remaining(position) && Remaining(position) % ALIGNMENT == 0
  {
  }

  lemma {:induction false} BytesStay(f: seq<byte>, g: seq<byte>, o: nat, bytes: seq<byte>)
    requires BytesAt(f, o, bytes) && |f| <= |g| && forall i :: 0 <= i < |f| ==> g[i] == f[i]
    ensures BytesAt(g, o, bytes)
  {
  }

  lemma {:induction false} HeadSize(head: seq<byte>, body: seq<byte>, c: Chunk)
    requires HeadAndBody(c, head, body)
    ensures SizeOf(c) == |head| + |body| && !c.Pad?
  {
  }

  lemma {:induction false} HeaderStays(f: seq<byte>, g: seq<byte>, o: nat, size: nat)
    requires HeaderAt(f, o, PAD_TYPE, size) && |f| <= |g| && forall i :: 0 <= i < |f| ==> g[i] == f[i]
    ensures HeaderAt(g, o, PAD_TYPE, size)
  {
  }

  lemma {:induction false} NoBytes(f: seq<byte>, o: nat)
    requires o <= |f|
    ensures BytesAt(f, o, [])
  {
  }

  lemma {:induction false} ChunkStored(f: seq<byte>, o: nat, c: Chunk, head: seq<byte>, body: seq<byte>)
    requires HeadAndBody(c, head, body) && SizeOf(c) < 0x1_0000_0000
    requires BytesAt(f, o, head) && BytesAt(f, o + |head|, body)
    ensures ChunkAt(f, o, c) && SizeOf(c) == |head| + |body|
  {
    hide BytesAt, ChunkAt;
    match c
    case Image(content) => ReadImage(f, o, content);
    case Trace(client, buffer) => ReadTrace(f, o, client, buffer);
  }

  /** `f` holds what a flush of `c` at `end` writes, up to its end. */
  ghost predicate FlushedTo(f: seq<byte>, end: nat, c: Chunk) {
    if Remaining(end) < SizeOf(c)
    then HeaderAt(f, end, PAD_TYPE, Remaining(end)) && HoldsChunk(f, end + Remaining(end), c)
    else HoldsChunk(f, end, c)
  }

  ghost predicate HoldsChunk(f: seq<byte>, o: nat, c: Chunk) {
    !c.Pad? && CHUNK_HEADER <= SizeOf(c) && SizeOf(c) % ALIGNMENT == 0 && ChunkAt(f, o, c) && o + SizeOf(c) == |f|
  }

  /** A flush adds its chunks to the layout. */
  lemma {:induction false} FlushLayout(f: seq<byte>, placed: seq<Placed>, end: nat, c: Chunk)
    requires LaidOut(f, placed, end) && Segmented(placed) && FlushedTo(f, end, c)
    ensures LaidOut(f, placed + Placement(end, c), |f|) && Segmented(placed + Placement(end, c))
    ensures Flushed(placed + Placement(end, c)) == Flushed(placed) + [c]
  {
    hide ChunkAt, HeaderAt, LaidOut, Segmented, Flushed, Remaining;
    if Remaining(end) < SizeOf(c) {
      FlushPadded(f, placed, end, c);
    } else {
      FlushFits(f, placed, end, c);
    }
  }

  lemma {:induction false} FlushFits(f: seq<byte>, placed: seq<Placed>, end: nat, c: Chunk)
    requires LaidOut(f, placed, end) && Segmented(placed) && HoldsChunk(f, end, c) && SizeOf(c) <= Remaining(end)
    ensures LaidOut(f, placed + [Placed(end, c)], |f|) && Segmented(placed + [Placed(end, c)])
    ensures Flushed(placed + [Placed(end, c)]) == Flushed(placed) + [c]
  {
    hide *;
    LayoutAligned(f, placed, end);
    FitAppendable(f, end, c);
    OneMore(f, placed, end, Placed(end, c));
    PlacedChunk(f, end, c);
  }

  lemma {:induction false} FitAppendable(f: seq<byte>, end: nat, c: Chunk)
    requires HoldsChunk(f, end, c) && end % ALIGNMENT == 0 && (SizeOf(c) <= SEGMENT ==> SizeOf(c) <= Remaining(end))
    ensures Appendable(f, Placed(end, c))
  {
    hide ChunkAt;
  }

  lemma {:induction false} PlacedChunk(f: seq<byte>, end: nat, c: Chunk)
    requires HoldsChunk(f, end, c)
    ensures !c.Pad? && EndOf(Placed(end, c)) == |f|
  {
    hide ChunkAt;
  }

  lemma {:induction false} FlushPadded(f: seq<byte>, placed: seq<Placed>, end: nat, c: Chunk)
    requires LaidOut(f, placed, end) && Segmented(placed) && HoldsChunk(f, end + Remaining(end), c)
    requires HeaderAt(f, end, PAD_TYPE, Remaining(end)) && Remaining(end) < SizeOf(c) && end + Remaining(end) <= |f|
    ensures LaidOut(f, placed + Placement(end, c), |f|) && Segmented(placed + Placement(end, c))
    ensures Flushed(placed + Placement(end, c)) == Flushed(placed) + [c]
  {
    hide *;
    var r := Remaining(end);
    var pad := Placed(end, Pad(r));
    PadGoesFirst(f, placed, end);
    FreshSegment(end);
    FlushAfterPad(f, placed + [pad], end + r, c);
    PaddedPlacement(end, c);
    assert placed + [pad, Placed(end + r, c)] == (placed + [pad]) + [Placed(end + r, c)];
  }

  lemma {:induction false} PaddedPlacement(end: nat, c: Chunk)
    requires Remaining(end) < SizeOf(c)
    ensures Placement(end, c) == [Placed(end, Pad(Remaining(end))), Placed(end + Remaining(end), c)]
  {
  }

  lemma {:induction false} PadGoesFirst(f: seq<byte>, placed: seq<Placed>, end: nat)
    requires LaidOut(f, placed, end) && Segmented(placed) && HeaderAt(f, end, PAD_TYPE, Remaining(end))
    requires end + Remaining(end) <= |f|
    ensures var placed' := placed + [Placed(end, Pad(Remaining(end)))];
            LaidOut(f, placed', end + Remaining(end)) && Segmented(placed') && Flushed(placed') == Flushed(placed)
  {
    hide *;
    LayoutAligned(f, placed, end);
    PadAppendable(f, end);
    var pad := Placed(end, Pad(Remaining(end)));
    OneMore(f, placed, end, pad);
    assert Flushed(placed) + [] == Flushed(placed);
  }

  lemma {:induction false} PadAppendable(f: seq<byte>, end: nat)
    requires end % ALIGNMENT == 0 && HeaderAt(f, end, PAD_TYPE, Remaining(end)) && end + Remaining(end) <= |f|
    ensures var pad := Placed(end, Pad(Remaining(end))); Appendable(f, pad) && EndOf(pad) == end + Remaining(end)
  {
    PadStored(f, Placed(end, Pad(Remaining(end))));
    hide HeaderAt;
  }

  /** In a fresh segment there is room for any chunk that fits into one. */
  lemma {:induction false} FreshSegment(end: nat)
    ensures Remaining(end + Remaining(end)) == SEGMENT
  {
  }

  lemma {:induction false} FlushAfterPad(f: seq<byte>, placed: seq<Placed>, end: nat, c: Chunk)
    requires LaidOut(f, placed, end) && Segmented(placed) && HoldsChunk(f, end, c) && Remaining(end) == SEGMENT
    ensures LaidOut(f, placed + [Placed(end, c)], |f|) && Segmented(placed + [Placed(end, c)])
    ensures Flushed(placed + [Placed(end, c)]) == Flushed(placed) + [c]
  {
    hide *;
    LayoutAligned(f, placed, end);
    FitAppendable(f, end, c);
    OneMore(f, placed, end, Placed(end, c));
    PlacedChunk(f, end, c);
  }

  lemma {:induction false} LayoutAligned(f: seq<byte>, placed: seq<Placed>, end: nat)
    requires LaidOut(f, placed, end)
    ensures end % ALIGNMENT == 0
  {
  }

  lemma {:induction false} PadStored(f: seq<byte>, pad: Placed)
    requires pad.offset % ALIGNMENT == 0 && pad.chunk == Pad(Remaining(pad.offset))
    requires HeaderAt(f, pad.offset, PAD_TYPE, Remaining(pad.offset))
    ensures Stored(f, pad)
  {
    PadFits(pad.offset);
  }

  /** `p` may follow a layout that ends where it starts. */
  ghost predicate Appendable(f: seq<byte>, p: Placed) {
    && Stored(f, p) && EndOf(p) <= |f|
    && (WithinSegment(p) <==> SizeOf(p.chunk) <= SEGMENT) && (p.chunk.Pad? ==> WithinSegment(p))
  }

  lemma {:induction false} OneMore(f: seq<byte>, placed: seq<Placed>, end: nat, p: Placed)
    requires LaidOut(f, placed, end) && Segmented(placed) && p.offset == end && Appendable(f, p)
    ensures LaidOut(f, placed + [p], EndOf(p)) && Segmented(placed + [p])
    ensures Flushed(placed + [p]) == Flushed(placed) + if p.chunk.Pad? then [] else [p.chunk]
  {
    hide LaidOut, Stored, Flushed, WithinSegment, EndOf;
    LayoutGrows(f, placed, end, p);
    FlushedOneMore(placed, p);
    hide *;
    SegmentedOneMore(f, placed, p);
  }

  lemma {:induction false} SegmentedOneMore(f: seq<byte>, placed: seq<Placed>, p: Placed)
    requires Segmented(placed) && Appendable(f, p)
    ensures Segmented(placed + [p])
  {
    hide WithinSegment, SizeOf, Stored;
    var placed' := placed + [p];
    assert forall i :: 0 <= i < |placed| ==> placed'[i] == placed[i];
  }

  // ---------------------------------------------------------------- what pads cost

  /** A pad only stands directly in front of a chunk for which its room was too small. */
  ghost predicate PadsNeeded(placed: seq<Placed>) {
    forall i :: 0 <= i < |placed| && placed[i].chunk.Pad? ==>
                  i + 1 < |placed| && !placed[i + 1].chunk.Pad? && SizeOf(placed[i].chunk) < SizeOf(placed[i + 1].chunk)
  }

  lemma {:induction false} FlushPadsNeeded(placed: seq<Placed>, position: nat, c: Chunk)
    requires PadsNeeded(placed) && !c.Pad?
    ensures PadsNeeded(placed + Placement(position, c))
  {
  }

  function Total(chunks: seq<Chunk>): nat {
    if chunks == [] then 0 else Total(chunks[..|chunks| - 1]) + SizeOf(chunks[|chunks| - 1])
  }

  lemma {:induction false} LastPlaced(placed: seq<Placed>, end: nat)
    requires placed != [] && Contiguous(placed, end)
    ensures var last := placed[|placed| - 1];
            && end == last.offset + SizeOf(last.chunk)
            && Contiguous(placed[..|placed| - 1], last.offset)
            && Total(Flushed(placed))
               == Total(Flushed(placed[..|placed| - 1])) + if last.chunk.Pad? then 0 else SizeOf(last.chunk)
  {
    hide SizeOf;
    var front, last := placed[..|placed| - 1], placed[|placed| - 1];
    if last.chunk.Pad? {
      assert Flushed(placed) == Flushed(front) + [] == Flushed(front);
    } else {
      assert Flushed(placed) == Flushed(front) + [last.chunk];
      assert (Flushed(front) + [last.chunk])[..|Flushed(front)|] == Flushed(front);
    }
  }

  lemma {:induction false} LastIsNeeded(placed: seq<Placed>)
    requires placed != [] && PadsNeeded(placed)
    ensures var n := |placed| - 1;
            && !placed[n].chunk.Pad?
            && if n > 0 && placed[n - 1].chunk.Pad?
               then SizeOf(placed[n - 1].chunk) < SizeOf(placed[n].chunk) && PadsNeeded(placed[..n - 1])
               else PadsNeeded(placed[..n])
  {
    hide SizeOf;
    var n := |placed| - 1;
    assert !placed[n].chunk.Pad?;
    if n > 1 && placed[n - 1].chunk.Pad? {
      assert !placed[n - 2].chunk.Pad?;
    }
  }

  /** Padding never takes more than the chunks do: the file is at most twice as long as it has to be. */
  lemma {:induction false} PaddingBounded(placed: seq<Placed>, end: nat)
    requires Contiguous(placed, end) && PadsNeeded(placed)
    ensures FILE_HEADER + Total(Flushed(placed)) <= end <= FILE_HEADER + 2 * Total(Flushed(placed))
    decreases |placed|
  {
    if placed == [] {
      assert Flushed(placed) == [];
    } else {
      hide *;
      var n := |placed| - 1;
      LastPlaced(placed, end);
      LastIsNeeded(placed);
      if n > 0 && placed[n - 1].chunk.Pad? {
        LastPlaced(placed[..n], placed[n].offset);
        assert placed[..n][..n - 1] == placed[..n - 1];
        PaddingBounded(placed[..n - 1], placed[n - 1].offset);
      } else {
        PaddingBounded(placed[..n], placed[n].offset);
      }
    }
  }

  // ---------------------------------------------------------------- the sink

  function ImageChunks(images: seq<seq<byte>>): seq<Chunk> {
    seq(|images|, i requires 0 <= i < |images| => Image(images[i]))
  }

  lemma {:induction false} NextImage(flushed: seq<Chunk>, images: seq<seq<byte>>)
    requires images != []
    ensures flushed + ImageChunks(images) == flushed + [Image(images[0])] + ImageChunks(images[1..])
  {
    assert ImageChunks(images) == [Image(images[0])] + ImageChunks(images[1..]);
  }

  lemma {:induction false} ImagesInOrder(flushed: seq<Chunk>, images: seq<seq<byte>>)
    ensures var after := flushed + ImageChunks(images);
            && |after| == |flushed| + |images|
            && forall i :: 0 <= i < |images| ==> after[|flushed| + i] == Image(images[i])
  {
  }

  lemma {:induction false} NoMoreImages(images: seq<seq<byte>>)
    ensures ImageChunks([]) == []
  {
  }

  lemma {:induction false} ImageHead(body: seq<byte>)
    requires Sink.ImageOk(body)
    ensures SizeOf(Image(body)) == CHUNK_HEADER + |body| < 0x1_0000_0000
    ensures SizeOf(Image(body)) % ALIGNMENT == 0 && SizeOf(Image(body)) > CHUNK_HEADER
  {
  }

  lemma {:induction false} TraceSize(client: ClientId, buffer: seq<byte>)
    requires |buffer| % TRANSITION == 0
    ensures SizeOf(Trace(client, buffer)) == TRACE_HEADER + |buffer| && SizeOf(Trace(client, buffer)) % ALIGNMENT == 0
    ensures buffer != [] ==> HeadAndBody(Trace(client, buffer), TraceHeaderBytes(client, TRACE_HEADER + |buffer|), buffer)
  {
    hide TraceHeaderBytes;
  }

  lemma {:induction false} ImageIsHead(body: seq<byte>)
    ensures HeadAndBody(Image(body), HeaderBytes(IMAGE_TYPE, CHUNK_HEADER + |body|) + body, [])
  {
    hide HeaderBytes;
  }

  /** A trace chunk fits into a segment iff its buffer is within the limit set for buffers. */
  lemma {:induction false} BufferLimitFits(client: ClientId, buffer: seq<byte>)
    ensures SizeOf(Trace(client, buffer)) <= SEGMENT <==> |buffer| <= LARGEST_TRACE_BUFFER
  {
  }

  /**
   The debug build asserts that header and transitions together stay within the limit set for
   buffers.  That holds of every buffer in which the four guard bytes of that build had
   room as well; without them a full buffer within the limit is larger.
   */
  lemma {:induction false} AssertedLimit(used: nat, guard: nat)
    requires used % TRANSITION == 0 && used + guard <= LARGEST_TRACE_BUFFER
    ensures TRACE_HEADER + used <= LARGEST_TRACE_BUFFER <==> used != LARGEST_TRACE_BUFFER
    ensures guard == 4 ==> TRACE_HEADER + used <= LARGEST_TRACE_BUFFER
  {
  }

  lemma {:induction false} StoredFacts(f: seq<byte>, placed: seq<Placed>, end: nat, i: nat)
    requires LaidOut(f, placed, end) && Segmented(placed) && i < |placed|
    ensures placed[i].offset % ALIGNMENT == 0 && 0 < CHUNK_HEADER <= SizeOf(placed[i].chunk)
    ensures SizeOf(placed[i].chunk) <= SEGMENT <==> SizeOf(placed[i].chunk) <= Remaining(placed[i].offset)
    ensures placed[i].chunk.Pad? ==> SizeOf(placed[i].chunk) == Remaining(placed[i].offset)
  {
    hide ChunkAt, Remaining;
    assert Stored(f, placed[i]);
  }

  lemma {:induction false} SumIsEnd(p: Placed)
    ensures EndOf(p) == p.offset + SizeOf(p.chunk)
  {
  }

  /** A range crosses a segment boundary iff it is longer than what is left of its segment. */
  lemma {:induction false} CrossesBoundary(o: nat, size: nat)
    requires size > 0
    ensures o / SEGMENT != (o + size - 1) / SEGMENT <==> size > Remaining(o)
  {
  }

  /** A chunk of the file crosses a segment boundary iff it is larger than a segment; pads end on one. */
  lemma {:induction false} StraddlesIffLarger(f: seq<byte>, placed: seq<Placed>, end: nat, i: nat)
    requires LaidOut(f, placed, end) && Segmented(placed) && i < |placed|
    ensures placed[i].offset % ALIGNMENT == 0
    ensures placed[i].offset / SEGMENT != (EndOf(placed[i]) - 1) / SEGMENT <==> SizeOf(placed[i].chunk) > SEGMENT
    ensures placed[i].chunk.Pad? ==> CHUNK_HEADER <= SizeOf(placed[i].chunk) <= SEGMENT
                                     && EndOf(placed[i]) % SEGMENT == 0
  {
    hide *;
    var p := placed[i];
    StoredFacts(f, placed, end, i);
    CrossesBoundary(p.offset, SizeOf(p.chunk));
    SumIsEnd(p);
  }

  class Sink {
    var file: seq<byte>
    var position: nat
    var images: seq<seq<byte>> // the queue of image chunks, the latest first
    const junk: nat -> byte    // what the file system leaves in bytes that are skipped
    ghost var placed: seq<Placed>

    ghost predicate Valid()
      reads this
    {
      && position == |file| && LaidOut(file, placed, |file|) && Segmented(placed) && PadsNeeded(placed)
      && forall i :: 0 <= i < |images| ==> ImageOk(images[i])
    }

    static predicate ImageOk(body: seq<byte>) {
      body != [] && (CHUNK_HEADER + |body|) % ALIGNMENT == 0 && CHUNK_HEADER + |body| < 0x1_0000_0000
    }

    constructor (junk: nat -> byte)
      ensures Valid() && placed == [] && images == [] && file == FileHeaderBytes()
    {
      hide FileHeaderBytes;
      file, position, images, placed, this.junk := FileHeaderBytes(), FILE_HEADER, [], [], junk;
    }

    /** Writes at the current position, which may lie behind the end of the file. */
    method Write(bytes: seq<byte>)
      requires |file| <= position
      modifies `file
      ensures |file| == position + |bytes| && BytesAt(file, position, bytes)
      ensures forall i :: 0 <= i < |old(file)| ==> file[i] == old(file)[i]
    {
      file := file + seq(position - |file|, i requires 0 <= i => junk(i)) + bytes;
    }

    /** Writes header and body of a chunk, in one or two writes. */
    method WriteChunk(head: seq<byte>, body: seq<byte>, ghost c: Chunk)
      requires |file| <= position && HeadAndBody(c, head, body)
      requires SizeOf(c) % ALIGNMENT == 0 && CHUNK_HEADER < SizeOf(c) < 0x1_0000_0000
      modifies `file, `position
      ensures |old(file)| <= |file| == position && forall i :: 0 <= i < |old(file)| ==> file[i] == old(file)[i]
      ensures HoldsChunk(file, old(position), c)
    {
      hide BytesAt, ChunkAt;
      Write(head);
      position := position + |head|;
      ghost var file1 := file;
      NoBytes(file, position);
      if body != [] {
        Write(body);
        position := position + |body|;
      }
      BytesStay(file1, file, old(position), head);
      ChunkStored(file, old(position), c, head, body);
    }

    /** Fills the rest of the segment; of the pad, only the header is written. */
    method WritePad(remaining: nat)
      requires position == |file| && position % ALIGNMENT == 0 && remaining == Remaining(position)
      modifies `file, `position
      ensures position == old(position) + remaining && position % SEGMENT == 0
      ensures |old(file)| <= |file| <= position && forall i :: 0 <= i < |old(file)| ==> file[i] == old(file)[i]
      ensures HeaderAt(file, old(position), PAD_TYPE, remaining)
    {
      hide BytesAt, HeaderAt;
      PadFits(position);
      Write(HeaderBytes(PAD_TYPE, remaining));
      ReadHeader(file, position, PAD_TYPE, remaining);
      position := position + remaining;
    }

    /** Writes a chunk, behind a pad if it would straddle a segment boundary. */
    method FlushChunk(head: seq<byte>, body: seq<byte>, ghost c: Chunk)
      requires Valid() && HeadAndBody(c, head, body)
      requires SizeOf(c) % ALIGNMENT == 0 && CHUNK_HEADER < SizeOf(c) < 0x1_0000_0000
      modifies `file, `position, `placed
      ensures Valid()
      ensures placed == old(placed) + Placement(old(position), c)
      ensures Flushed(placed) == old(Flushed(placed)) + [c]
      ensures var start := if |head| + |body| <= Remaining(old(position)) then old(position)
                           else old(position) + Remaining(old(position));
              && position == |file| == start + |head| + |body|
              && placed != [] && placed[|placed| - 1] == Placed(start, c)
              && |placed| == |old(placed)| + if start == old(position) then 1 else 2
    {
      hide LaidOut, Stored, BytesAt, HoldsChunk, HeaderAt, Segmented, Flushed, Placement, HeadAndBody, ImageOk, Remaining,
           PadsNeeded, SizeOf;
      HeadSize(head, body, c);
      LayoutAligned(file, placed, position);
      var size := |head| + |body|;
      var remaining := Remaining(position);
      ghost var file0, position0 := file, position;
      if remaining < size {
        WritePad(remaining);
      }
      ghost var file1 := file;
      WriteChunk(head, body, c);
      PlacedChunk(file, if remaining < size then position0 + remaining else position0, c);
      if remaining < size {
        HeaderStays(file1, file, position0, remaining);
      }
      LayoutStays(file0, file, placed, position0);
      FlushLayout(file, placed, position0, c);
      FlushPadsNeeded(placed, position0, c);
      PlacementEnds(position0, c);
      placed := placed + Placement(position0, c);
    }

    /** Queues the description of a loaded image, rounded up to the alignment of chunks. */
    method OnImageLoad(content: seq<byte>)
      requires Valid() && content != [] && CHUNK_HEADER + |content| + ALIGNMENT < 0x1_0000_0000
      modifies `images
      ensures Valid() && |images| == |old(images)| + 1 && images[1..] == old(images)
      ensures content <= images[0] && |images[0]| < |content| + ALIGNMENT
      ensures forall i :: |content| <= i < |images[0]| ==> images[0][i] == 0
    {
      var size := (CHUNK_HEADER + |content| + ALIGNMENT - 1) / ALIGNMENT * ALIGNMENT;
      images := [content + seq(size - CHUNK_HEADER - |content|, _ => 0)] + images;
    }

    method FlushImage(event: seq<byte>)
      requires Valid() && ImageOk(event)
      modifies `file, `position, `placed
      ensures Valid() && Flushed(placed) == old(Flushed(placed)) + [Image(event)]
    {
      ImageHead(event);
      ImageIsHead(event);
      hide LaidOut, Segmented, Flushed, ImageOk, HeadAndBody, Placement, HeaderBytes, SizeOf, PadsNeeded;
      FlushChunk(HeaderBytes(IMAGE_TYPE, CHUNK_HEADER + |event|) + event, [], Image(event));
    }

    /** Flushes all queued image chunks, the latest first. */
    method FlushImageInfoEventQueue()
      requires Valid()
      modifies `file, `position, `placed, `images
      ensures Valid() && images == []
      ensures Flushed(placed) == old(Flushed(placed)) + ImageChunks(old(images))
      ensures |Flushed(placed)| == |old(Flushed(placed))| + |old(images)|
      ensures forall i :: 0 <= i < |old(images)| ==>
                            Flushed(placed)[|old(Flushed(placed))| + i] == Image(old(images)[i])
    {
      ImagesInOrder(Flushed(placed), images);
      hide LaidOut, Segmented, Flushed, SizeOf, ImageChunks, HeaderBytes, Placement, PadsNeeded;
      NoMoreImages(images);
      while images != []
        invariant Valid()
        invariant Flushed(placed) + ImageChunks(images) == old(Flushed(placed)) + ImageChunks(old(images))
        decreases |images|
      {
        var event := images[0];
        NextImage(Flushed(placed), images);
        images := images[1..];
        FlushImage(event);
      }
    }

    /** A buffer of transitions is written after the images it may refer to. */
    method OnProcessBuffer(client: ClientId, buffer: seq<byte>)
      requires Valid() && buffer != [] && |buffer| % TRANSITION == 0 && TRACE_HEADER + |buffer| < 0x1_0000_0000
      modifies `file, `position, `placed, `images
      ensures Valid() && images == []
      ensures Flushed(placed) == old(Flushed(placed)) + ImageChunks(old(images)) + [Trace(client, buffer)]
    {
      TraceSize(client, buffer);
      hide LaidOut, Segmented, Flushed, SizeOf, ImageOk, HeadAndBody, Placement, TraceHeaderBytes, ImageChunks,
           PadsNeeded;
      FlushImageInfoEventQueue();
      var totalSize := TRACE_HEADER + |buffer|;
      FlushChunk(TraceHeaderBytes(client, totalSize), buffer, Trace(client, buffer));
    }
  }
}
