/** The layout of a trace file: a file header, then chunks, each with a header of its own. */
module TraceFormat {

  import opened Common
  import opened CallTree

  const SEGMENT: nat := 262144
  const ALIGNMENT: nat := 8
  const FILE_HEADER: nat := 16
  const CHUNK_HEADER: nat := 8
  const TRACE_HEADER: nat := 16 // chunk header and client
  const TRANSITION: nat := 16

  const PAD_TYPE: nat := 0
  const IMAGE_TYPE: nat := 1
  const TRACE_TYPE: nat := 2

  // ---------------------------------------------------------------- fields

  function U16(f: seq<byte>, o: nat): nat
    requires o + 2 <= |f|
  {
    f[o] as int + 256 * f[o + 1] as int
  }

  function U32(f: seq<byte>, o: nat): ulong
    requires o + 4 <= |f|
  {
    f[o] as int + 256 * (f[o + 1] as int + 256 * (f[o + 2] as int + 256 * f[o + 3] as int))
  }

  function U64(f: seq<byte>, o: nat): nat
    requires o + 8 <= |f|
  {
    U32(f, o) as int + 0x1_0000_0000 * U32(f, o + 4) as int
  }

  /** `f` holds `bytes` at offset `o`. */
  ghost predicate BytesAt(f: seq<byte>, o: nat, bytes: seq<byte>) {
    o + |bytes| <= |f| && forall i :: 0 <= i < |bytes| ==> f[o + i] == bytes[i]
  }

  lemma {:induction false} BytesOfParts(f: seq<byte>, o: nat, a: seq<byte>, b: seq<byte>)
    ensures BytesAt(f, o, a + b) <==> BytesAt(f, o, a) && BytesAt(f, o + |a|, b)
  {
    var ab := a + b;
    assert forall i :: 0 <= i < |a| ==> ab[i] == a[i];
    assert forall i :: 0 <= i < |b| ==> ab[|a| + i] == b[i];
    if BytesAt(f, o, ab) {
      forall i | 0 <= i < |b| ensures f[o + |a| + i] == b[i] {
        assert f[o + (|a| + i)] == ab[|a| + i];
      }
    }
    if BytesAt(f, o, a) && BytesAt(f, o + |a|, b) {
      forall i | 0 <= i < |ab| ensures f[o + i] == ab[i] {
        if |a| <= i {
          assert f[o + |a| + (i - |a|)] == b[i - |a|];
        }
      }
    }
  }

  lemma {:induction false} Bytes2(x: nat)
    ensures |LittleEndian(x, 2)| == 2 && LittleEndian(x, 2)[0] == x % 256 && LittleEndian(x, 2)[1] == x / 256 % 256
  {
    assert LittleEndian(x, 2) == [x % 256] + LittleEndian(x / 256, 1);
  }

  lemma {:induction false} Bytes4(x: nat)
    ensures var s := LittleEndian(x, 4);
            |s| == 4 && s[0] == x % 256 && s[1] == x / 256 % 256 && s[2] == x / 256 / 256 % 256
            && s[3] == x / 256 / 256 / 256 % 256
  {
    assert LittleEndian(x, 4) == [x % 256] + LittleEndian(x / 256, 3);
    assert LittleEndian(x / 256, 3) == [x / 256 % 256] + LittleEndian(x / 256 / 256, 2);
    Bytes2(x / 256 / 256);
  }

  lemma {:induction false} ReadU16(f: seq<byte>, o: nat, x: nat)
    requires x < 0x1_0000 && BytesAt(f, o, LittleEndian(x, 2))
    ensures U16(f, o) == x
  {
    Bytes2(x);
    assert f[o + 0] == x % 256 && f[o + 1] == x / 256;
  }

  lemma {:induction false} ReadU32(f: seq<byte>, o: nat, x: ulong)
    requires BytesAt(f, o, LittleEndian(x, 4))
    ensures U32(f, o) == x
  {
    hide LittleEndian;
    Bytes4(x);
    assert f[o + 0] == x % 256 && f[o + 1] == x / 256 % 256 && f[o + 2] == x / 256 / 256 % 256;
    assert f[o + 3] == x / 256 / 256 / 256 % 256;
  }

  // ---------------------------------------------------------------- transitions

  function KindOf(code: nat): Kind {
    match code
    case 0 => Entry
    case 1 => Exit
    case 2 => Unwind
    case _ => Unassigned
  }

  function CodeOf(kind: Kind): nat {
    match kind
    case Entry => 0
    case Exit => 1
    case Unwind => 2
    case Unassigned => 3
  }

  /** Two bits of type, two unused ones, 60 bits of time. */
  function TypeAndTime(t: Transition, unused: nat): nat {
    CodeOf(t.kind) + 4 * (unused % 4) + 16 * t.time
  }

  function EncodeTransition(t: Transition, unused: nat): seq<byte> {
    var word := TypeAndTime(t, unused);
    LittleEndian(word % 0x1_0000_0000, 4) + LittleEndian(word / 0x1_0000_0000, 4)
    + (LittleEndian(t.procedure, 4) + LittleEndian(t.info, 4))
  }

  function DecodeTransition(f: seq<byte>, o: nat): Transition
    requires o + TRANSITION <= |f|
  {
    var word := U64(f, o);
    Transition(KindOf(word % 4), word / 16, U32(f, o + 8), U32(f, o + 12))
  }

  /** The values the fields of a transition can hold. */
  predicate Representable(t: Transition) {
    t.time < 0x1000_0000_0000_0000 && t.procedure < 0x1_0000_0000 && t.info < 0x1_0000_0000
  }

  lemma {:induction false} WordFields(t: Transition, unused: nat)
    requires Representable(t)
    ensures var word := TypeAndTime(t, unused);
            word < 0x1_0000_0000_0000_0000 && KindOf(word % 4) == t.kind && word / 16 == t.time
  {
    SplitWord(CodeOf(t.kind), unused % 4, t.time);
  }

  lemma {:induction false} SplitWord(code: nat, unused: nat, time: nat)
    requires code < 4 && unused < 4
    ensures var word := code + 4 * unused + 16 * time; word % 4 == code && word / 16 == time
  {
    var low := code + 4 * unused;
    assert low + 16 * time == code + 4 * (unused + 4 * time);
  }

  lemma {:induction false} DecodeEncoded(f: seq<byte>, o: nat, t: Transition, unused: nat)
    requires Representable(t) && BytesAt(f, o, EncodeTransition(t, unused))
    ensures o + TRANSITION <= |f| && DecodeTransition(f, o) == t
  {
    hide BytesAt, LittleEndian, U32, TypeAndTime, KindOf;
    WordFields(t, unused);
    var word := TypeAndTime(t, unused);
    var low, high := LittleEndian(word % 0x1_0000_0000, 4), LittleEndian(word / 0x1_0000_0000, 4);
    var p, i := LittleEndian(t.procedure, 4), LittleEndian(t.info, 4);
    BytesOfParts(f, o, low + high, p + i);
    BytesOfParts(f, o, low, high);
    BytesOfParts(f, o + 8, p, i);
    ReadU32(f, o, word % 0x1_0000_0000);
    ReadU32(f, o + 4, word / 0x1_0000_0000);
    ReadU32(f, o + 8, t.procedure);
    ReadU32(f, o + 12, t.info);
    BytesFit(f, o + 12, i);
  }

  /** Which bits of which bytes make up a transition. */
  lemma {:induction false} TransitionBits(f: seq<byte>, o: nat)
    requires o + 16 <= |f|
    ensures var t := DecodeTransition(f, o);
            && t.kind == (if f[o] % 4 == 0 then Entry else if f[o] % 4 == 1 then Exit
                          else if f[o] % 4 == 2 then Unwind else Unassigned)
            && t.time == U32(f, o) / 16 + 0x1000_0000 * U32(f, o + 4)
            && t.procedure == U32(f, o + 8) && t.info == U32(f, o + 12)
  {
    LowBits(U32(f, o), U32(f, o + 4));
    assert U32(f, o) % 4 == f[o] % 4;
  }

  lemma {:induction false} LowBits(low: ulong, high: ulong)
    ensures var word := low + 0x1_0000_0000 * high; word % 4 == low % 4 && word / 16 == low / 16 + 0x1000_0000 * high
  {
    var code, unused := low % 16 % 4, low % 16 / 4;
    SplitWord(code, unused, low / 16);
    SplitWord(code, unused, low / 16 + 0x1000_0000 * high);
  }

  lemma {:induction false} BytesFit(f: seq<byte>, o: nat, bytes: seq<byte>)
    requires BytesAt(f, o, bytes)
    ensures o + |bytes| <= |f|
  {
  }

  // ---------------------------------------------------------------- the file header

  const SIGNATURE: ulong := 0x4352544A // 'CRTJ'
  const VERSION: nat := 0x1000
  const TIMESTAMP_TSC: nat := 1
  const IS_32_BIT: nat := 4

  function FileHeaderBytes(): (r: seq<byte>)
    ensures |r| == FILE_HEADER
  {
    LittleEndian(SIGNATURE, 4) + LittleEndian(VERSION, 2) + LittleEndian(TIMESTAMP_TSC + IS_32_BIT, 2) + LittleEndian(0, 8)
  }

  lemma {:induction false} ReadFileHeader(f: seq<byte>)
    requires BytesAt(f, 0, FileHeaderBytes())
    ensures FILE_HEADER <= |f| && U32(f, 0) == SIGNATURE && U16(f, 4) == VERSION && U16(f, 6) == TIMESTAMP_TSC + IS_32_BIT
  {
    hide BytesAt, LittleEndian, U16, U32;
    var a, b := LittleEndian(SIGNATURE, 4), LittleEndian(VERSION, 2);
    var c, d := LittleEndian(TIMESTAMP_TSC + IS_32_BIT, 2), LittleEndian(0, 8);
    BytesOfParts(f, 0, a + b + c, d);
    BytesOfParts(f, 0, a + b, c);
    BytesOfParts(f, 0, a, b);
    ReadU32(f, 0, SIGNATURE);
    ReadU16(f, 4, VERSION);
    ReadU16(f, 6, TIMESTAMP_TSC + IS_32_BIT);
    BytesFit(f, 8, d);
  }

  // ---------------------------------------------------------------- chunks

  datatype ClientId = ClientId(processId: ulong, threadId: ulong)

  datatype Chunk = Pad(size: nat) | Image(body: seq<byte>) | Trace(client: ClientId, buffer: seq<byte>)

  function SizeOf(c: Chunk): nat {
    match c
    case Pad(size) => size
    case Image(body) => CHUNK_HEADER + |body|
    case Trace(_, buffer) => TRACE_HEADER + |buffer|
  }

  /** The type, the reserved field and the size. */
  function HeaderBytes(chunkType: nat, size: nat): (r: seq<byte>)
    ensures |r| == CHUNK_HEADER
  {
    LittleEndian(chunkType, 2) + LittleEndian(0, 2) + LittleEndian(size, 4)
  }

  function TraceHeaderBytes(client: ClientId, size: nat): (r: seq<byte>)
    ensures |r| == TRACE_HEADER
  {
    HeaderBytes(TRACE_TYPE, size) + (LittleEndian(client.processId, 4) + LittleEndian(client.threadId, 4))
  }

  predicate HeaderAt(f: seq<byte>, o: nat, chunkType: nat, size: nat) {
    o + CHUNK_HEADER <= |f| && U16(f, o) == chunkType && U16(f, o + 2) == 0 && U32(f, o + 4) == size
  }

  lemma {:induction false} ReadHeader(f: seq<byte>, o: nat, chunkType: nat, size: ulong)
    requires BytesAt(f, o, HeaderBytes(chunkType, size)) && chunkType < 0x1_0000
    ensures HeaderAt(f, o, chunkType, size)
  {
    hide BytesAt, LittleEndian, U16, U32;
    var a, b, c := LittleEndian(chunkType, 2), LittleEndian(0, 2), LittleEndian(size, 4);
    BytesOfParts(f, o, a + b, c);
    BytesOfParts(f, o, a, b);
    BytesFit(f, o + 4, c);
    ReadU16(f, o, chunkType);
    ReadU16(f, o + 2, 0);
    ReadU32(f, o + 4, size);
  }

  /** `f` holds the chunk at `o`; of a pad, only the header is defined. */
  ghost predicate ChunkAt(f: seq<byte>, o: nat, c: Chunk) {
    match c
    case Pad(size) => HeaderAt(f, o, PAD_TYPE, size)
    case Image(body) => HeaderAt(f, o, IMAGE_TYPE, SizeOf(c)) && BytesAt(f, o + CHUNK_HEADER, body)
    case Trace(client, buffer) =>
      && HeaderAt(f, o, TRACE_TYPE, SizeOf(c)) && o + TRACE_HEADER <= |f|
      && U32(f, o + 8) == client.processId && U32(f, o + 12) == client.threadId
      && BytesAt(f, o + TRACE_HEADER, buffer)
  }

  lemma {:induction false} ReadImage(f: seq<byte>, o: nat, body: seq<byte>)
    requires CHUNK_HEADER + |body| < 0x1_0000_0000
    requires BytesAt(f, o, HeaderBytes(IMAGE_TYPE, CHUNK_HEADER + |body|) + body)
    ensures ChunkAt(f, o, Image(body))
  {
    hide BytesAt, HeaderBytes, HeaderAt;
    BytesOfParts(f, o, HeaderBytes(IMAGE_TYPE, CHUNK_HEADER + |body|), body);
    ReadHeader(f, o, IMAGE_TYPE, CHUNK_HEADER + |body|);
  }

  lemma {:induction false} ReadTrace(f: seq<byte>, o: nat, client: ClientId, buffer: seq<byte>)
    requires TRACE_HEADER + |buffer| < 0x1_0000_0000
    requires BytesAt(f, o, TraceHeaderBytes(client, TRACE_HEADER + |buffer|)) && BytesAt(f, o + TRACE_HEADER, buffer)
    ensures ChunkAt(f, o, Trace(client, buffer))
  {
    hide BytesAt, HeaderBytes, HeaderAt, LittleEndian;
    var size: ulong := TRACE_HEADER + |buffer|;
    var p, t := LittleEndian(client.processId, 4), LittleEndian(client.threadId, 4);
    BytesOfParts(f, o, HeaderBytes(TRACE_TYPE, size), p + t);
    BytesOfParts(f, o + 8, p, t);
    ReadHeader(f, o, TRACE_TYPE, size);
    ReadU32(f, o + 8, client.processId);
    ReadU32(f, o + 12, client.threadId);
    BytesFit(f, o + TRACE_HEADER, buffer);
  }

  /** Nothing written behind a chunk changes it. */
  lemma {:induction false} ChunkStays(f: seq<byte>, g: seq<byte>, o: nat, c: Chunk)
    requires ChunkAt(f, o, c) && |f| <= |g| && forall i :: 0 <= i < |f| ==> g[i] == f[i]
    ensures ChunkAt(g, o, c)
  {
  }

  // ---------------------------------------------------------------- placement

  datatype Placed = Placed(offset: nat, chunk: Chunk)

  function EndOf(p: Placed): nat {
    p.offset + SizeOf(p.chunk)
  }

  /** How much of the current segment is left at `position`. */
  function Remaining(position: nat): (r: nat)
    ensures 0 < r <= SEGMENT && (position + r) % SEGMENT == 0
  {
    SEGMENT - position % SEGMENT
  }

  /** A chunk lies in one segment; a pad fills one up. */
  predicate WithinSegment(p: Placed) {
    SizeOf(p.chunk) <= Remaining(p.offset) && (p.chunk.Pad? ==> SizeOf(p.chunk) == Remaining(p.offset))
  }

  /** The chunks follow each other without gaps, from the file header up to `end`. */
  ghost predicate Contiguous(placed: seq<Placed>, end: nat) {
    && (if placed == [] then end == FILE_HEADER else placed[0].offset == FILE_HEADER && EndOf(placed[|placed| - 1]) == end)
    && forall i :: 0 < i < |placed| ==> placed[i].offset == EndOf(placed[i - 1])
  }

  /** A chunk that the file holds at an aligned offset. */
  ghost predicate Stored(f: seq<byte>, p: Placed) {
    && p.offset % ALIGNMENT == 0 && SizeOf(p.chunk) % ALIGNMENT == 0 && CHUNK_HEADER <= SizeOf(p.chunk)
    && ChunkAt(f, p.offset, p.chunk)
  }

  /** Up to `end`, the file consists of its header and these chunks. */
  ghost predicate LaidOut(f: seq<byte>, placed: seq<Placed>, end: nat) {
    && BytesAt(f, 0, FileHeaderBytes())
    && Contiguous(placed, end) && end <= |f| && end % ALIGNMENT == 0
    && forall i :: 0 <= i < |placed| ==> Stored(f, placed[i])
  }

  lemma {:induction false} LayoutStays(f: seq<byte>, g: seq<byte>, placed: seq<Placed>, end: nat)
    requires LaidOut(f, placed, end) && |f| <= |g| && forall i :: 0 <= i < |f| ==> g[i] == f[i]
    ensures LaidOut(g, placed, end)
  {
    hide ChunkAt, FileHeaderBytes;
    assert BytesAt(g, 0, FileHeaderBytes());
    forall i | 0 <= i < |placed| ensures Stored(g, placed[i]) {
      assert Stored(f, placed[i]);
      ChunkStays(f, g, placed[i].offset, placed[i].chunk);
    }
  }

  lemma {:induction false} EndAligned(p: Placed)
    requires p.offset % ALIGNMENT == 0 && SizeOf(p.chunk) % ALIGNMENT == 0
    ensures EndOf(p) % ALIGNMENT == 0
  {
  }

  lemma {:induction false} LayoutGrows(f: seq<byte>, placed: seq<Placed>, end: nat, p: Placed)
    requires LaidOut(f, placed, end) && p.offset == end && Stored(f, p) && EndOf(p) <= |f|
    ensures LaidOut(f, placed + [p], EndOf(p))
  {
    hide ChunkAt, FileHeaderBytes, BytesAt, SizeOf;
    EndAligned(p);
    hide Stored, EndOf;
    var placed' := placed + [p];
    assert forall i :: 0 <= i < |placed| ==> placed'[i] == placed[i];
    assert Contiguous(placed', EndOf(p));
  }
}
