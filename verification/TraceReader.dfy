/** Reading a trace file through a sliding view: inventory of its chunks, and their transitions. */
module TraceReader {

  import opened Common
  import opened CallTree
  import opened TraceFormat

  const VIEW: nat := 4 * SEGMENT

  datatype FileStatus =
    | Success | FileEmpty | InvalidSignature | InvalidVersion | InvalidCharacteristics | BitnessNotSupported
    | ReservedFieldsUsed | TruncatedChunk | ChunkStraddlesSegment | UnrecognizedChunkType | NotATraceChunk
    | OutsideView // a field is read that does not lie in the mapped view

  // ---------------------------------------------------------------- what the file says

  /** The end of the view that contains the offset `o` of a file of `size` bytes. */
  function ViewEnd(size: nat, o: nat): (r: nat)
    ensures o < size ==> o < r <= size
  {
    var end := (o / VIEW + 1) * VIEW;
    if end < size then end else size
  }

  function CheckFileHeader(f: seq<byte>): FileStatus {
    if |f| == 0 then FileEmpty
    else if ViewEnd(|f|, 0) < 8 then OutsideView
    else if U32(f, 0) != SIGNATURE then InvalidSignature
    else if U16(f, 4) != VERSION then InvalidVersion
    else
      var timestamp, bitness := U16(f, 6) % 4, U16(f, 6) / 4 % 4;
      if timestamp == 3 || timestamp == 0 || bitness == 0 || bitness == 3 then InvalidCharacteristics
      else if bitness == 2 then BitnessNotSupported
      else Success
  }

  /** The checks made of the chunk at `o`. */
  function CheckChunk(f: seq<byte>, o: nat): (status: FileStatus)
    requires o < |f|
    ensures status == Success ==> o + CHUNK_HEADER <= |f| && CHUNK_HEADER <= U32(f, o + 4) <= SEGMENT
    ensures status == Success && U16(f, o) == TRACE_TYPE ==> o + TRACE_HEADER <= |f|
  {
    var end := ViewEnd(|f|, o);
    if end < o + CHUNK_HEADER then OutsideView
    else if U16(f, o + 2) != 0 then ReservedFieldsUsed
    else if U32(f, o + 4) < CHUNK_HEADER then TruncatedChunk
    else if U32(f, o + 4) > SEGMENT then ChunkStraddlesSegment
    else if U16(f, o) == PAD_TYPE || U16(f, o) == IMAGE_TYPE then Success
    else if U16(f, o) != TRACE_TYPE then UnrecognizedChunkType
    else if end < o + TRACE_HEADER then OutsideView
    else Success
  }

  /** What a file header that is accepted consists of: "JTRC", version 0x1000, 32 bits, one of two timestamp formats. */
  predicate HeaderBytesOk(f: seq<byte>) {
    && |f| >= 8 && f[0] == 0x4A && f[1] == 0x54 && f[2] == 0x52 && f[3] == 0x43
    && f[4] == 0x00 && f[5] == 0x10
    && f[6] % 16 in {5, 6}
  }

  /** The verdict on a file header, byte for byte. */
  lemma {:induction false} FileHeaderVerdicts(f: seq<byte>)
    ensures CheckFileHeader(f) == Success <==> HeaderBytesOk(f)
    ensures CheckFileHeader(f) == FileEmpty <==> |f| == 0
    ensures CheckFileHeader(f) == OutsideView <==> 0 < |f| < 8
    ensures |f| >= 8 ==>
              var signed := f[0] == 0x4A && f[1] == 0x54 && f[2] == 0x52 && f[3] == 0x43;
              var current := signed && f[4] == 0x00 && f[5] == 0x10;
              && (CheckFileHeader(f) == InvalidSignature <==> !signed)
              && (CheckFileHeader(f) == InvalidVersion <==> signed && !current)
              && (CheckFileHeader(f) == InvalidCharacteristics
                  <==> current && (f[6] % 4 in {0, 3} || f[6] / 4 % 4 in {0, 3}))
              && (CheckFileHeader(f) == BitnessNotSupported <==> current && f[6] % 16 in {9, 10})
  {
    if |f| >= 8 {
      assert ViewEnd(|f|, 0) >= 8;
      hide ViewEnd;
      SignatureBytes(f);
      CharacteristicBits(f[6], f[7]);
      hide U32;
    }
  }

  lemma {:induction false} HeaderAccepted(f: seq<byte>)
    ensures CheckFileHeader(f) == Success <==> HeaderBytesOk(f)
  {
    hide *;
    FileHeaderVerdicts(f);
  }

  lemma {:induction false} SignatureBytes(f: seq<byte>)
    requires |f| >= 4
    ensures U32(f, 0) == SIGNATURE <==> f[0] == 0x4A && f[1] == 0x54 && f[2] == 0x52 && f[3] == 0x43
  {
  }

  lemma {:induction false} CharacteristicBits(low: byte, high: byte)
    ensures (low + 256 * high) % 4 == low % 4 && (low + 256 * high) / 4 % 4 == low / 4 % 4
    ensures low % 16 in {5, 6} <==> low % 4 in {1, 2} && low / 4 % 4 == 1
    ensures low % 16 in {9, 10} <==> low % 4 in {1, 2} && low / 4 % 4 == 2
  {
    assert (low + 256 * high) / 4 == low / 4 + 64 * high;
  }

  /** The verdict on a chunk, field by field; where several things are wrong, the first is reported. */
  lemma {:induction false} ChunkVerdicts(f: seq<byte>, o: nat)
    requires o < |f|
    ensures var inView, end := o + 8 <= ViewEnd(|f|, o), ViewEnd(|f|, o);
            var blank := inView && f[o + 2] == 0 && f[o + 3] == 0;
            var sized := blank && 8 <= U32(f, o + 4) <= 262144;
            && (CheckChunk(f, o) == ReservedFieldsUsed <==> inView && !blank)
            && (CheckChunk(f, o) == TruncatedChunk <==> blank && U32(f, o + 4) < 8)
            && (CheckChunk(f, o) == ChunkStraddlesSegment <==> blank && U32(f, o + 4) > 262144)
            && (CheckChunk(f, o) == UnrecognizedChunkType <==> sized && !(f[o] in {0, 1, 2} && f[o + 1] == 0))
            && (CheckChunk(f, o) == OutsideView
                <==> !inView || (sized && f[o] == 2 && f[o + 1] == 0 && end < o + 16))
            && (CheckChunk(f, o) == Success
                <==> sized && f[o + 1] == 0 && (f[o] in {0, 1} || (f[o] == 2 && o + 16 <= end)))
  {
    hide U32, ViewEnd;
  }

  /** The result of walking the chunks from `o` on. */
  function WalkStatus(f: seq<byte>, o: nat): FileStatus
    decreases |f| - o
  {
    if o >= |f| then Success
    else
      var status := CheckChunk(f, o);
      if status == Success then WalkStatus(f, o + U32(f, o + 4)) else status
  }

  /** The offsets met on that walk. */
  function Visited(f: seq<byte>, o: nat): seq<nat>
    decreases |f| - o
  {
    if o >= |f| then []
    else [o] + if CheckChunk(f, o) == Success then Visited(f, o + U32(f, o + 4)) else []
  }

  function ClientAt(f: seq<byte>, o: nat): ClientId
    requires o + TRACE_HEADER <= |f|
  {
    ClientId(U32(f, o + 8), U32(f, o + 12))
  }

  /** The offsets of the trace chunks of `client` met on that walk. */
  function ChunksFrom(f: seq<byte>, o: nat, client: ClientId): seq<nat>
    decreases |f| - o
  {
    if o >= |f| || CheckChunk(f, o) != Success then []
    else
      (if U16(f, o) == TRACE_TYPE && ClientAt(f, o) == client then [o] else [])
      + ChunksFrom(f, o + U32(f, o + 4), client)
  }

  lemma {:induction false} VisitedStep(f: seq<byte>, o: nat)
    requires o < |f|
    ensures CheckChunk(f, o) != Success ==> Visited(f, o) == [o] && WalkStatus(f, o) == CheckChunk(f, o)
    ensures CheckChunk(f, o) == Success ==>
              var next := o + U32(f, o + 4);
              && o + 8 <= |f| && next > o
              && Visited(f, o) == [o] + Visited(f, next) && WalkStatus(f, o) == WalkStatus(f, next)
  {
    hide U32, CheckChunk;
  }

  lemma {:induction false} VisitedNothing(f: seq<byte>, o: nat)
    requires o >= |f|
    ensures Visited(f, o) == [] && WalkStatus(f, o) == Success
    ensures forall client :: ChunksFrom(f, o, client) == []
  {
  }

  /** `p` and `q` are neighbours on the walk. */
  predicate Follows(f: seq<byte>, p: nat, q: nat) {
    p < |f| && CheckChunk(f, p) == Success && q == p + U32(f, p + 4)
  }

  /**
   The walk over any file goes from each accepted chunk to the byte behind it, and ends at the
   first chunk that is not accepted, with its status, or with success behind the end of the file.
   */
  lemma {:induction false} WalkVerdict(f: seq<byte>, o: nat)
    ensures var v := Visited(f, o);
            && (v == [] <==> o >= |f|)
            && (v == [] ==> WalkStatus(f, o) == Success)
            && (v != [] ==> v[0] == o && v[|v| - 1] < |f| && WalkStatus(f, o) == CheckChunk(f, v[|v| - 1]))
            && (v != [] && WalkStatus(f, o) == Success ==> v[|v| - 1] + U32(f, v[|v| - 1] + 4) >= |f|)
            && (forall k :: 0 < k < |v| ==> Follows(f, v[k - 1], v[k]))
    decreases |f| - o
  {
    hide *;
    if o >= |f| {
      VisitedNothing(f, o);
    } else {
      VisitedStep(f, o);
      if CheckChunk(f, o) == Success {
        var next := o + U32(f, o + 4);
        WalkVerdict(f, next);
        FollowsAt(f, o);
        var v, rest := Visited(f, o), Visited(f, next);
        forall k | 0 < k < |v| ensures Follows(f, v[k - 1], v[k]) {
          if k > 1 {
            assert Follows(f, rest[k - 2], rest[k - 1]);
          }
        }
      }
    }
  }

  lemma {:induction false} FollowsAt(f: seq<byte>, o: nat)
    requires o < |f| && CheckChunk(f, o) == Success
    ensures Follows(f, o, o + U32(f, o + 4))
  {
    hide CheckChunk, U32;
  }

  predicate IsChunkOf(f: seq<byte>, o: nat, client: ClientId) {
    && o < |f| && CheckChunk(f, o) == Success && f[o] == 2
    && U32(f, o + 8) == client.processId && U32(f, o + 12) == client.threadId
  }

  /** The chunks listed for a client are the accepted trace chunks on the walk that carry its name, in file order. */
  lemma {:induction false} ListedForClient(f: seq<byte>, o: nat, client: ClientId)
    ensures forall x :: x in ChunksFrom(f, o, client) <==> x in Visited(f, o) && IsChunkOf(f, x, client)
    ensures forall x :: x in Visited(f, o) ==> o <= x
    ensures Increasing(ChunksFrom(f, o, client))
    decreases |f| - o
  {
    hide *;
    if o >= |f| {
      VisitedNothing(f, o);
      NothingIncreases();
    } else {
      VisitedStep(f, o);
      ListedFirst(f, o, client);
      if CheckChunk(f, o) == Success {
        var next := o + U32(f, o + 4);
        ListedForClient(f, next, client);
        IncreasingBehind(o, ChunksFrom(f, next, client));
      } else {
        NothingIncreases();
      }
    }
  }

  ghost predicate Increasing(s: seq<nat>) {
    forall i, j :: 0 <= i < j < |s| ==> s[i] < s[j]
  }

  lemma {:induction false} NothingIncreases()
    ensures Increasing([])
  {
  }

  lemma {:induction false} IncreasingBehind(x: nat, s: seq<nat>)
    requires Increasing(s) && forall y :: y in s ==> x < y
    ensures Increasing([x] + s)
  {
    var xs := [x] + s;
    forall i, j | 0 <= i < j < |xs| ensures xs[i] < xs[j] {
      assert xs[j] == s[j - 1] && s[j - 1] in s;
    }
  }

  lemma {:induction false} ListedFirst(f: seq<byte>, o: nat, client: ClientId)
    requires o < |f|
    ensures CheckChunk(f, o) != Success ==> ChunksFrom(f, o, client) == [] && !IsChunkOf(f, o, client)
    ensures CheckChunk(f, o) == Success ==>
              var rest := ChunksFrom(f, o + U32(f, o + 4), client);
              ChunksFrom(f, o, client) == if IsChunkOf(f, o, client) then [o] + rest else rest
  {
    if CheckChunk(f, o) == Success {
      TypeIsByte(f, o);
    }
    hide CheckChunk, U32, U16;
  }

  lemma {:induction false} TypeIsByte(f: seq<byte>, o: nat)
    requires o < |f| && CheckChunk(f, o) == Success
    ensures U16(f, o) == TRACE_TYPE <==> f[o] == 2
  {
    hide ViewEnd, U32;
  }

  /** How many transitions a chunk of that size holds; the difference is computed in 32 bits. */
  function TransitionCount(size: ulong): nat {
    (size - TRACE_HEADER) % 0x1_0000_0000 / TRANSITION
  }

  /** A chunk of transitions is at `o`, and they can be read without leaving the view. */
  predicate Readable(f: seq<byte>, o: nat) {
    && o < |f| && o + CHUNK_HEADER <= ViewEnd(|f|, o) && U16(f, o) == TRACE_TYPE
    && o + TRACE_HEADER + TRANSITION * TransitionCount(U32(f, o + 4)) <= ViewEnd(|f|, o)
  }

  /** The result of reading the chunk at `o`; a chunk without transitions is not read beyond its header. */
  function ReadStatus(f: seq<byte>, o: nat): FileStatus {
    if o >= |f| || ViewEnd(|f|, o) < o + CHUNK_HEADER then OutsideView
    else if U16(f, o) != TRACE_TYPE then NotATraceChunk
    else if Readable(f, o) || TransitionCount(U32(f, o + 4)) == 0 then Success
    else OutsideView
  }

  lemma {:induction false} ReadableIsRead(f: seq<byte>)
    ensures forall o :: Readable(f, o) ==> ReadStatus(f, o) == Success
  {
  }

  function TransitionsAt(f: seq<byte>, o: nat): (r: seq<Transition>)
    requires Readable(f, o)
    ensures |r| == TransitionCount(U32(f, o + 4))
    ensures forall i :: 0 <= i < |r| ==> r[i] == DecodeTransition(f, o + TRACE_HEADER + TRANSITION * i)
  {
    seq(TransitionCount(U32(f, o + 4)),
        i requires 0 <= i < TransitionCount(U32(f, o + 4)) => DecodeTransition(f, o + TRACE_HEADER + TRANSITION * i))
  }

  // ---------------------------------------------------------------- the view

  datatype View = View(index: nat, offset: nat, bytes: seq<byte>)

  ghost predicate ShowsFile(v: View, f: seq<byte>) {
    && v.offset == v.index * VIEW && v.offset < |f| && v.offset + |v.bytes| == ViewEnd(|f|, v.offset)
    && forall i :: 0 <= i < |v.bytes| ==> v.bytes[i] == f[v.offset + i]
  }

  lemma {:induction false} ViewFields(v: View, f: seq<byte>, a: nat)
    requires ShowsFile(v, f)
    ensures v.offset + |v.bytes| <= |f|
    ensures a + 2 <= |v.bytes| ==> U16(v.bytes, a) == U16(f, v.offset + a)
    ensures a + 4 <= |v.bytes| ==> U32(v.bytes, a) == U32(f, v.offset + a)
    ensures a + 8 <= |v.bytes| ==> U64(v.bytes, a) == U64(f, v.offset + a)
  {
    assert forall i :: 0 <= i < |v.bytes| ==> v.bytes[i] == f[v.offset + i];
  }

  /** A chunk that stays within its segment lies in the view of its first byte. */
  lemma {:induction false} ChunkInView(size: nat, o: nat, chunk: nat)
    requires o < size && o + chunk <= size && chunk <= Remaining(o)
    ensures o + chunk <= ViewEnd(size, o)
  {
    assert o / VIEW == o / SEGMENT / 4;
    assert o + Remaining(o) == (o / SEGMENT + 1) * SEGMENT;
  }

  lemma {:induction false} ViewBounds(size: nat, index: nat, o: nat)
    requires o / VIEW == index && o < size
    ensures var start := index * VIEW;
            && start <= o && ViewEnd(size, o) == ViewEnd(size, start)
            && ViewEnd(size, start) == start + if VIEW < size - start then VIEW else size - start
  {
  }

  function ViewAt(f: seq<byte>, index: nat): (v: View)
    requires index * VIEW < |f|
  {
    var start := index * VIEW;
    var size := if VIEW < |f| - start then VIEW else |f| - start;
    View(index, start, f[start..start + size])
  }

  lemma {:induction false} ViewAtShows(f: seq<byte>, index: nat, o: nat)
    requires o / VIEW == index && o < |f|
    ensures index * VIEW < |f| && ShowsFile(ViewAt(f, index), f)
  {
    ViewBounds(|f|, index, o);
    ViewBounds(|f|, index, index * VIEW);
  }

  lemma {:induction false} ViewSize(v: View, f: seq<byte>, o: nat)
    requires ShowsFile(v, f) && o < |f| && o / VIEW == v.index
    ensures v.offset % 0x10_0000 == 0 && v.offset <= o < v.offset + 0x10_0000
    ensures |v.bytes| == if |f| - v.offset < 0x10_0000 then |f| - v.offset else 0x10_0000
  {
    ViewBounds(|f|, v.index, o);
    ViewBounds(|f|, v.index, v.offset);
    hide ViewEnd;
  }

  /** Two offsets are seen through the same view iff their view index is the same. */
  lemma {:induction false} InSameView(v: View, f: seq<byte>, o: nat)
    requires ShowsFile(v, f) && o < |f| && o / VIEW == v.index
    ensures v.offset <= o < v.offset + |v.bytes| == ViewEnd(|f|, o)
    ensures v.bytes[o - v.offset] == f[o]
  {
    ViewBounds(|f|, v.index, o);
    hide ViewEnd;
    assert f[v.offset + (o - v.offset)] == v.bytes[o - v.offset];
  }

  lemma {:induction false} TransitionInView(v: View, f: seq<byte>, a: nat)
    requires ShowsFile(v, f) && a + TRANSITION <= |v.bytes|
    ensures v.offset + a + TRANSITION <= |f| && DecodeTransition(v.bytes, a) == DecodeTransition(f, v.offset + a)
  {
    hide U32;
    ViewFields(v, f, a);
    ViewFields(v, f, a + 4);
    ViewFields(v, f, a + 8);
    ViewFields(v, f, a + 12);
  }

  function ChunksOf(clients: map<ClientId, seq<nat>>, client: ClientId): seq<nat> {
    if client in clients then clients[client] else []
  }

  lemma {:induction false} WalkStepOfClient(f: seq<byte>, o: nat, c: ClientId)
    requires o < |f| && CheckChunk(f, o) == Success
    ensures ChunksFrom(f, o, c) ==
            (if U16(f, o) == TRACE_TYPE && ClientAt(f, o) == c then [o] else []) + ChunksFrom(f, o + U32(f, o + 4), c)
  {
    hide U16, U32, CheckChunk;
  }

  /** One step of the walk moves one chunk from what is to come to what is registered. */
  lemma {:induction false} WalkStep(
    f: seq<byte>, o: nat, before: map<ClientId, seq<nat>>, after: map<ClientId, seq<nat>>)
    requires o < |f|
    requires after == if CheckChunk(f, o) == Success && U16(f, o) == TRACE_TYPE
                      then before[ClientAt(f, o) := ChunksOf(before, ClientAt(f, o)) + [o]] else before
    ensures CheckChunk(f, o) != Success ==>
              WalkStatus(f, o) == CheckChunk(f, o) && forall c :: ChunksFrom(f, o, c) == []
    ensures CheckChunk(f, o) == Success ==>
              && WalkStatus(f, o) == WalkStatus(f, o + U32(f, o + 4)) && U32(f, o + 4) > 0
              && forall c :: ChunksOf(after, c) + ChunksFrom(f, o + U32(f, o + 4), c)
                             == ChunksOf(before, c) + ChunksFrom(f, o, c)
  {
    hide U16, U32, CheckChunk;
    if CheckChunk(f, o) == Success {
      forall c
        ensures ChunksOf(after, c) + ChunksFrom(f, o + U32(f, o + 4), c) == ChunksOf(before, c) + ChunksFrom(f, o, c)
      {
        WalkStepOfClient(f, o, c);
        hide ChunksFrom, WalkStatus;
        var rest := ChunksFrom(f, o + U32(f, o + 4), c);
        Regroup(ChunksOf(before, c), [o], rest);
        Regroup(ChunksOf(before, c), [], rest);
      }
    }
  }

  class TraceFile {
    const contents: seq<byte>
    var view: Option<View>
    var clients: map<ClientId, seq<nat>>

    ghost predicate Valid()
      reads this
    {
      view.Some? ==> ShowsFile(view.value, contents)
    }

    constructor (contents: seq<byte>)
      ensures Valid() && clients == map[] && this.contents == contents
    {
      this.contents, view, clients := contents, None, map[];
    }

    /** Makes `offset` visible; the result is its place in the view, or nothing at the end of the file. */
    method Map(offset: nat) returns (address: Option<nat>)
      requires Valid()
      modifies `view
      ensures Valid()
      ensures address.None? <==> offset >= |contents|
      ensures address.Some? ==>
                && view.Some? && view.value.offset + address.value == offset && address.value < |view.value.bytes|
                && view.value.bytes[address.value] == contents[offset]
                && view.value.offset + |view.value.bytes| == ViewEnd(|contents|, offset)
                && view.value.offset % 0x10_0000 == 0 && view.value.offset <= offset < view.value.offset + 0x10_0000
                && |view.value.bytes| == if |contents| - view.value.offset < 0x10_0000
                                         then |contents| - view.value.offset else 0x10_0000
    {
      if offset >= |contents| {
        return None;
      }
      var index := offset / VIEW;
      if view.None? || view.value.index != index {
        ViewAtShows(contents, index, offset);
        view := Some(ViewAt(contents, index));
      }
      ViewSize(view.value, contents, offset);
      hide ViewEnd, ShowsFile;
      InSameView(view.value, contents, offset);
      return Some(offset - view.value.offset);
    }

    /** Adds a chunk to the list of its client, which is created if it is new. */
    method RegisterTraceBufferClient(client: ClientId, offset: nat)
      modifies `clients
      ensures clients == old(clients)[client := ChunksOf(old(clients), client) + [offset]]
    {
      if client !in clients {
        clients := clients[client := []];
      }
      clients := clients[client := clients[client] + [offset]];
    }

    /** Checks the chunk at `address` in the view, and registers it if it holds transitions. */
    method InspectChunk(offset: nat, address: nat) returns (status: FileStatus, size: nat)
      requires Valid() && offset < |contents| && view.Some? && view.value.offset + address == offset
      requires view.value.offset + |view.value.bytes| == ViewEnd(|contents|, offset)
      modifies `clients
      ensures status == CheckChunk(contents, offset)
      ensures status == Success ==> size == U32(contents, offset + 4)
      ensures clients ==
              if status == Success && U16(contents, offset) == TRACE_TYPE
              then var client := ClientAt(contents, offset);
                   old(clients)[client := ChunksOf(old(clients), client) + [offset]]
              else old(clients)
    {
      hide ViewEnd, ShowsFile, U16, U32;
      var bytes := view.value.bytes;
      size := 0;
      ViewFields(view.value, contents, address);
      ViewFields(view.value, contents, address + 2);
      ViewFields(view.value, contents, address + 4);
      ViewFields(view.value, contents, address + 8);
      ViewFields(view.value, contents, address + 12);
      if |bytes| < address + CHUNK_HEADER {
        return OutsideView, 0;
      }
      size := U32(bytes, address + 4);
      if U16(bytes, address + 2) != 0 {
        return ReservedFieldsUsed, size;
      } else if size < CHUNK_HEADER {
        return TruncatedChunk, size;
      } else if size > SEGMENT {
        return ChunkStraddlesSegment, size;
      }
      match U16(bytes, address) {
        case 0 =>
        case 1 =>
        case 2 =>
          if |bytes| < address + TRACE_HEADER {
            return OutsideView, size;
          }
          RegisterTraceBufferClient(ClientId(U32(bytes, address + 8), U32(bytes, address + 12)), offset);
        case _ => return UnrecognizedChunkType, size;
      }
      return Success, size;
    }

    /** Walks over all chunks of the file; for any file the walk ends. */
    method PerformFileInventory() returns (status: FileStatus)
      requires Valid() && clients == map[]
      modifies `view, `clients
      ensures Valid() && status == WalkStatus(contents, FILE_HEADER)
      ensures forall c :: ChunksOf(clients, c) == ChunksFrom(contents, FILE_HEADER, c)
      ensures forall c :: c in clients ==> clients[c] != []
    {
      hide ShowsFile, ViewEnd, CheckChunk;
      var offset := FILE_HEADER;
      while true
        invariant Valid() && WalkStatus(contents, offset) == WalkStatus(contents, FILE_HEADER)
        invariant forall c :: ChunksOf(clients, c) + ChunksFrom(contents, offset, c) == ChunksFrom(contents, FILE_HEADER, c)
        invariant forall c :: c in clients ==> clients[c] != []
        decreases |contents| - offset
      {
        var address := Map(offset);
        if address == None {
          return Success;
        }
        ghost var before := clients;
        var size;
        status, size := InspectChunk(offset, address.value);
        WalkStep(contents, offset, before, clients);
        if status != Success {
          return;
        }
        offset := offset + size;
      }
    }

    /** Reads file header and inventory. */
    method Open() returns (status: FileStatus)
      requires Valid() && clients == map[]
      modifies `view, `clients
      ensures Valid()
      ensures status == var header := CheckFileHeader(contents);
                        if header == Success then WalkStatus(contents, FILE_HEADER) else header
      ensures status == Success <==> HeaderBytesOk(contents) && WalkStatus(contents, FILE_HEADER) == Success
      ensures status == Success ==> forall c :: ChunksOf(clients, c) == ChunksFrom(contents, FILE_HEADER, c)
      ensures status == Success ==> forall c :: c in clients ==> clients[c] != []
    {
      HeaderAccepted(contents);
      hide HeaderBytesOk;
      hide ShowsFile, U16, U32;
      if |contents| == 0 {
        return FileEmpty;
      }
      var address := Map(0);
      var bytes := view.value.bytes;
      ViewFields(view.value, contents, 0);
      ViewFields(view.value, contents, 4);
      ViewFields(view.value, contents, 6);
      if |bytes| < 8 {
        return OutsideView;
      }
      if U32(bytes, 0) != SIGNATURE {
        return InvalidSignature;
      }
      if U16(bytes, 4) != VERSION {
        return InvalidVersion;
      }
      var timestamp, bitness := U16(bytes, 6) % 4, U16(bytes, 6) / 4 % 4;
      if timestamp == 3 || timestamp == 0 || bitness == 0 || bitness == 3 {
        return InvalidCharacteristics;
      }
      if bitness == 2 {
        return BitnessNotSupported;
      }
      status := PerformFileInventory();
    }

    /** The transitions of one chunk, as far as it lies in the view. */
    method ReadChunk(offset: nat) returns (status: FileStatus, transitions: seq<Transition>)
      requires Valid()
      modifies `view
      ensures Valid()
      ensures Readable(contents, offset) ==>
                status == Success && transitions == TransitionsAt(contents, offset)
      ensures status == ReadStatus(contents, offset)
      ensures status == Success && !Readable(contents, offset) ==> transitions == []
    {
      hide ShowsFile, ViewEnd, U16, U32, DecodeTransition, TransitionCount;
      transitions := [];
      var address := Map(offset);
      if address.None? {
        return OutsideView, [];
      }
      var v, bytes, start := view.value, view.value.bytes, address.value;
      if |bytes| < start + CHUNK_HEADER {
        return OutsideView, [];
      }
      ViewFields(v, contents, start);
      ViewFields(v, contents, start + 4);
      if U16(bytes, start) != TRACE_TYPE {
        return NotATraceChunk, [];
      }
      var count := TransitionCount(U32(bytes, start + 4));
      while |transitions| < count
        invariant view == Some(v) && |transitions| <= count
        invariant start + TRACE_HEADER + TRANSITION * |transitions| <= |bytes| || transitions == []
        invariant forall i :: 0 <= i < |transitions| ==>
                                && offset + TRACE_HEADER + TRANSITION * i + TRANSITION <= |contents|
                                && transitions[i] == DecodeTransition(contents, offset + TRACE_HEADER + TRANSITION * i)
      {
        var next := start + TRACE_HEADER + TRANSITION * |transitions|;
        if |bytes| < next + TRANSITION {
          return OutsideView, [];
        }
        TransitionInView(v, contents, next);
        transitions := transitions + [DecodeTransition(bytes, next)];
      }
      status := Success;
    }

    /** The transitions of all chunks of a client, in file order. */
    method ReadChunks(client: ClientId) returns (status: FileStatus, chunks: seq<seq<Transition>>)
      requires Valid()
      modifies `view
      ensures Valid()
      ensures var offsets := ChunksOf(clients, client);
              (forall k :: 0 <= k < |offsets| ==> Readable(contents, offsets[k])) ==>
                && status == Success && |chunks| == |offsets|
                && forall k :: 0 <= k < |offsets| ==> chunks[k] == TransitionsAt(contents, offsets[k])
      ensures status == Success <==>
                forall k :: 0 <= k < |ChunksOf(clients, client)| ==>
                              ReadStatus(contents, ChunksOf(clients, client)[k]) == Success
    {
      ReadableIsRead(contents);
      hide ShowsFile, ViewEnd, U16, U32, TransitionsAt, Readable, ReadStatus;
      var offsets := ChunksOf(clients, client);
      chunks := [];
      while |chunks| < |offsets|
        invariant Valid() && |chunks| <= |offsets|
        invariant forall k :: 0 <= k < |chunks| ==>
                                && ReadStatus(contents, offsets[k]) == Success
                                && (Readable(contents, offsets[k]) ==> chunks[k] == TransitionsAt(contents, offsets[k]))
      {
        var transitions;
        status, transitions := ReadChunk(offsets[|chunks|]);
        if status != Success {
          return;
        }
        chunks := chunks + [transitions];
      }
      status := Success;
    }
  }
}
