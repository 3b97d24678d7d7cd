/**
 From traced threads to rebuilt calls: what the buffers of `EventBuffers` hand over is
 written by the sink of `TraceWriter`, found again by `TraceReader`, and turned back into
 calls by `CallForest`.
 */
module TracePipeline {

  import opened Common
  import opened EventBuffers
  import opened TraceFormat
  import TraceWriter
  import TraceReader
  import TraceRoundTrip
  import CallForest
  import CallTree

  // ---------------------------------------------------------------- buffers of a thread

  /** The buffers handed over for thread `t`, in order. */
  function BuffersFor(handed: seq<Delivery>, t: nat): seq<seq<byte>> {
    if handed == [] then []
    else
      var last := handed[|handed| - 1];
      BuffersFor(handed[..|handed| - 1], t) + if last.thread == t then [last.data] else []
  }

  lemma {:induction false} HandedIsFlat(handed: seq<Delivery>, t: nat)
    ensures HandedTo(handed, t) == Concat(BuffersFor(handed, t))
    decreases |handed|
  {
    if handed != [] {
      var before, last := handed[..|handed| - 1], handed[|handed| - 1];
      HandedIsFlat(before, t);
      if last.thread == t {
        ConcatOneMore(BuffersFor(before, t), last.data);
      } else {
        assert BuffersFor(handed, t) == BuffersFor(before, t);
      }
    }
  }

  ghost predicate Whole(buffers: seq<seq<byte>>) {
    forall k :: 0 <= k < |buffers| ==> |buffers[k]| % TRANSITION == 0
  }

  lemma {:induction false} DecodeParts(a: seq<byte>, b: seq<byte>)
    requires |a| % TRANSITION == 0 && |b| % TRANSITION == 0
    ensures TraceRoundTrip.Decode(a + b) == TraceRoundTrip.Decode(a) + TraceRoundTrip.Decode(b)
  {
    hide DecodeTransition;
    var ab, n := a + b, |a| / TRANSITION;
    assert BytesAt(ab, 0, a) && BytesAt(ab, |a|, b);
    hide BytesAt;
    forall i | 0 <= i < |ab| / TRANSITION
      ensures TraceRoundTrip.Decode(ab)[i] == (TraceRoundTrip.Decode(a) + TraceRoundTrip.Decode(b))[i]
    {
      if i < n {
        TraceRoundTrip.SameTransition(ab, 0, a, TRANSITION * i);
      } else {
        TraceRoundTrip.SameTransition(ab, |a|, b, TRANSITION * (i - n));
      }
    }
  }

  /** Cutting the bytes of a thread into buffers does not change its transitions. */
  lemma {:induction false} DecodeFlat(buffers: seq<seq<byte>>)
    requires Whole(buffers)
    ensures |Concat(buffers)| % TRANSITION == 0
    ensures TraceRoundTrip.Decode(Concat(buffers)) == Concat(TraceRoundTrip.DecodeAll(buffers))
    decreases |buffers|
  {
    hide TraceRoundTrip.Decode;
    if buffers == [] {
      assert TraceRoundTrip.Decode([]) == [];
    } else {
      var before, last := buffers[..|buffers| - 1], buffers[|buffers| - 1];
      DecodeFlat(before);
      DecodeParts(Concat(before), last);
      var all := TraceRoundTrip.DecodeAll(buffers);
      assert all[..|all| - 1] == TraceRoundTrip.DecodeAll(before);
    }
  }

  // ---------------------------------------------------------------- writing what is handed over

  /** A delivery of whole transitions, as the event routines reserve them, within the limit for buffers. */
  predicate Writable(d: Delivery) {
    d.data != [] && |d.data| % TRANSITION == 0 && |d.data| <= TraceWriter.LARGEST_TRACE_BUFFER
  }

  /** Nothing the sink has written or queued is larger than a segment. */
  ghost predicate SinkFits(sink: TraceWriter.Sink)
    reads sink
  {
    && (forall k :: 0 <= k < |sink.images| ==> SizeOf(Image(sink.images[k])) <= SEGMENT)
    && AllFit(TraceWriter.Flushed(sink.placed))
  }

  ghost predicate AllFit(chunks: seq<Chunk>) {
    forall k :: 0 <= k < |chunks| ==> SizeOf(chunks[k]) <= SEGMENT
  }

  /** Pads always fit; so a layout fits if the chunks do that were flushed. */
  lemma {:induction false} FlushedFit(placed: seq<Placed>)
    requires TraceWriter.Segmented(placed) && AllFit(TraceWriter.Flushed(placed))
    ensures TraceRoundTrip.AllSegmentSized(placed, 0)
    decreases |placed|
  {
    if placed != [] {
      var before, last := placed[..|placed| - 1], placed[|placed| - 1];
      assert placed == before + [last];
      TraceWriter.FlushedOneMore(before, last);
      assert TraceWriter.Segmented(before);
      FlushedPrefixFits(TraceWriter.Flushed(before), last.chunk);
      FlushedFit(before);
      assert WithinSegment(last) <==> SizeOf(last.chunk) <= SEGMENT;
    }
  }

  lemma {:induction false} FlushedPrefixFits(chunks: seq<Chunk>, c: Chunk)
    requires AllFit(chunks + if c.Pad? then [] else [c])
    ensures AllFit(chunks) && (!c.Pad? ==> SizeOf(c) <= SEGMENT)
  {
    var all := chunks + if c.Pad? then [] else [c];
    assert forall k :: 0 <= k < |chunks| ==> all[k] == chunks[k];
    if !c.Pad? {
      assert all[|chunks|] == c;
    }
  }

  lemma {:induction false} BuffersAfterImages(chunks: seq<Chunk>, images: seq<seq<byte>>, client: ClientId)
    ensures TraceRoundTrip.BuffersOf(chunks + TraceWriter.ImageChunks(images), client)
            == TraceRoundTrip.BuffersOf(chunks, client)
    decreases |images|
  {
    if images == [] {
      assert chunks + TraceWriter.ImageChunks(images) == chunks;
    } else {
      TraceWriter.NextImage(chunks, images);
      TraceRoundTrip.BuffersOneMore(chunks, Image(images[0]), client);
      BuffersAfterImages(chunks + [Image(images[0])], images[1..], client);
    }
  }

  /** One delivery adds one buffer to its client, and nothing to the others. */
  method ProcessDelivery(sink: TraceWriter.Sink, client: ClientId, d: Delivery)
    requires sink.Valid() && SinkFits(sink) && Writable(d)
    modifies sink
    ensures sink.Valid() && SinkFits(sink)
    ensures forall c :: TraceRoundTrip.BuffersOf(TraceWriter.Flushed(sink.placed), c)
                        == old(TraceRoundTrip.BuffersOf(TraceWriter.Flushed(sink.placed), c))
                           + if c == client then [d.data] else []
  {
    hide LaidOut, TraceWriter.Segmented, TraceRoundTrip.BuffersOf, TraceWriter.Flushed, TraceWriter.ImageChunks;
    ghost var before, images := TraceWriter.Flushed(sink.placed), sink.images;
    sink.OnProcessBuffer(client, d.data);
    DeliveryFits(before, images, client, d);
    forall c ensures TraceRoundTrip.BuffersOf(TraceWriter.Flushed(sink.placed), c)
                     == TraceRoundTrip.BuffersOf(before, c) + if c == client then [d.data] else []
    {
      BuffersAfterImages(before, images, c);
      TraceRoundTrip.BuffersOneMore(before + TraceWriter.ImageChunks(images), Trace(client, d.data), c);
    }
  }

  lemma {:induction false} DeliveryFits(chunks: seq<Chunk>, images: seq<seq<byte>>, client: ClientId, d: Delivery)
    requires AllFit(chunks) && Writable(d) && forall k :: 0 <= k < |images| ==> SizeOf(Image(images[k])) <= SEGMENT
    ensures AllFit(chunks + TraceWriter.ImageChunks(images) + [Trace(client, d.data)])
    ensures TRACE_HEADER + |d.data| < 0x1_0000_0000
  {
  }

  /**
   Whatever the interleaving, the callback is given what a sink can write: buffers that hold
   whole transitions of a known thread, at least one, and no more than a buffer holds.
   */
  lemma {:induction false} DeliveriesWritable(p: Pool, steps: seq<Step>, q: Pool)
    requires Initial(p) && p.bufferSize <= TraceWriter.LARGEST_TRACE_BUFFER && Runs(p, steps, q)
    requires Unwritten(steps, {}).Some?
    requires forall k :: 0 <= k < |steps| && steps[k].Reserve? ==> IsWhole(steps[k].bytes, TRANSITION)
    ensures forall k :: 0 <= k < |q.handed| ==> Writable(q.handed[k]) && q.handed[k].thread < |p.current|
  {
    InitialConserved(p);
    InitialEmptyFree(p);
    NothingEmptyHanded(p, steps, q, {});
    RunKeepsWhole(p, steps, q, TRANSITION);
    RunKeepsLabels(p, steps, q);
  }

  ghost predicate DistinctClients(clients: seq<ClientId>) {
    forall t, u :: 0 <= t < u < |clients| ==> clients[t] != clients[u]
  }

  /** The callback of the buffers, for a sink. */
  method ProcessAll(sink: TraceWriter.Sink, handed: seq<Delivery>, clients: seq<ClientId>)
    requires sink.Valid() && SinkFits(sink) && DistinctClients(clients)
    requires forall k :: 0 <= k < |handed| ==> Writable(handed[k]) && handed[k].thread < |clients|
    modifies sink
    ensures sink.Valid() && SinkFits(sink)
    ensures forall t :: 0 <= t < |clients| ==>
                          TraceRoundTrip.BuffersOf(TraceWriter.Flushed(sink.placed), clients[t])
                          == old(TraceRoundTrip.BuffersOf(TraceWriter.Flushed(sink.placed), clients[t]))
                             + BuffersFor(handed, t)
  {
    hide LaidOut, TraceWriter.Segmented, TraceRoundTrip.BuffersOf, TraceWriter.Flushed, BuffersFor, SinkFits, Writable;
    ghost var start := map c: ClientId | c in clients :: TraceRoundTrip.BuffersOf(TraceWriter.Flushed(sink.placed), c);
    NoDeliveries(handed);
    var i := 0;
    while i < |handed|
      invariant i <= |handed| && sink.Valid() && SinkFits(sink)
      invariant forall t :: 0 <= t < |clients| ==>
                              TraceRoundTrip.BuffersOf(TraceWriter.Flushed(sink.placed), clients[t])
                              == start[clients[t]] + BuffersFor(handed[..i], t)
    {
      var d := handed[i];
      ghost var before := TraceWriter.Flushed(sink.placed);
      ProcessDelivery(sink, clients[d.thread], d);
      forall t | 0 <= t < |clients|
        ensures TraceRoundTrip.BuffersOf(TraceWriter.Flushed(sink.placed), clients[t])
                == start[clients[t]] + BuffersFor(handed[..i + 1], t)
      {
        DeliverOneMore(handed, i, t);
        Regroup(start[clients[t]], BuffersFor(handed[..i], t), if d.thread == t then [d.data] else []);
      }
      i := i + 1;
    }
    assert handed[..i] == handed;
  }

  lemma {:induction false} NoDeliveries(handed: seq<Delivery>)
    ensures forall t :: BuffersFor(handed[..0], t) == []
  {
  }

  lemma {:induction false} DeliverOneMore(handed: seq<Delivery>, i: nat, t: nat)
    requires i < |handed|
    ensures BuffersFor(handed[..i + 1], t)
            == BuffersFor(handed[..i], t) + if handed[i].thread == t then [handed[i].data] else []
  {
    assert handed[..i + 1][..i] == handed[..i];
  }

  lemma {:induction false} WholeFor(handed: seq<Delivery>, t: nat)
    requires forall k :: 0 <= k < |handed| ==> Writable(handed[k])
    ensures Whole(BuffersFor(handed, t))
    decreases |handed|
  {
    if handed != [] {
      WholeFor(handed[..|handed| - 1], t);
    }
  }

  /** What the callback was given, written by a sink and read back. */
  method WriteAndRead(
    sink: TraceWriter.Sink, handed: seq<Delivery>, ghost bytes: seq<byte>, clients: seq<ClientId>, t: nat)
    returns (status: TraceReader.FileStatus, calls: CallForest.Forest)
    requires sink.Valid() && SinkFits(sink) && DistinctClients(clients) && t < |clients|
    requires forall k :: 0 <= k < |handed| ==> Writable(handed[k]) && handed[k].thread < |clients|
    requires HandedTo(handed, t) == bytes != []
    requires TraceRoundTrip.BuffersOf(TraceWriter.Flushed(sink.placed), clients[t]) == []
    modifies sink
    ensures status == TraceReader.Success
    ensures forall g :: CallForest.Complete(g) && CallForest.Print(g) == TraceRoundTrip.Decode(bytes) ==> calls == g
  {
    hide LaidOut, TraceWriter.Segmented, TraceRoundTrip.BuffersOf, TraceWriter.Flushed, BuffersFor, SinkFits, Writable,
         TraceRoundTrip.Decode, TraceRoundTrip.DecodeAll, Concat, CallForest.Print, HandedTo;
    ProcessAll(sink, handed, clients);
    ghost var buffers := BuffersFor(handed, t);
    SinkReadable(sink);
    HandedIsFlat(handed, t);
    NothingIsFlat();
    WholeFor(handed, t);
    DecodeFlat(buffers);
    assert TraceRoundTrip.BuffersOf(TraceWriter.Flushed(sink.placed), clients[t]) == buffers;
    status, calls := TraceRoundTrip.ReadCallsOfClient(sink, clients[t]);
  }

  /**
   The whole way.  Threads reserve slices for whole transitions in any interleaving with each
   other and with one collector; in the end thread `t` has given up its buffer and everything is
   drained.  When a sink has written what the callback was given, reading its file gives back
   exactly the calls that thread printed into its slices.
   */
  method TraceAndRead(
    ghost p: Pool, ghost steps: seq<Step>, q: Pool, sink: TraceWriter.Sink, clients: seq<ClientId>, t: nat)
    returns (status: TraceReader.FileStatus, calls: CallForest.Forest)
    requires Initial(p) && |p.private| == 1 && p.bufferSize <= TraceWriter.LARGEST_TRACE_BUFFER
    requires Runs(p, steps, q) && Unwritten(steps, {}).Some?
    requires forall k :: 0 <= k < |steps| && steps[k].Reserve? ==> IsWhole(steps[k].bytes, TRANSITION)
    requires t < |q.reserved| && Drained(q, t) && q.reserved[t] != []
    requires sink.Valid() && SinkFits(sink) && DistinctClients(clients) && |clients| == |p.current|
    requires t < |clients| && TraceRoundTrip.BuffersOf(TraceWriter.Flushed(sink.placed), clients[t]) == []
    modifies sink
    ensures status == TraceReader.Success
    ensures forall g :: CallForest.Complete(g) && CallForest.Print(g) == TraceRoundTrip.Decode(q.reserved[t]) ==> calls == g
  {
    PerThreadOrder(p, steps, q, t);
    DeliveriesWritable(p, steps, q);
    hide *;
    status, calls := WriteAndRead(sink, q.handed, q.reserved[t], clients, t);
  }

  lemma {:induction false} NothingIsFlat()
    ensures Concat<byte>([]) == []
  {
  }

  lemma {:induction false} SinkReadable(sink: TraceWriter.Sink)
    requires sink.Valid() && SinkFits(sink)
    ensures TraceRoundTrip.AllSegmentSized(sink.placed, 0)
  {
    FlushedFit(sink.placed);
  }
}
