/**
 The buffers between traced threads and the collector, as a state machine.

 Every interlocked list operation and every access by the one owner of a buffer is one
 atomic step, so a run of steps is an interleaving of threads and collectors.  Buffers are
 numbered; a list holds numbers, and the contents sit in `memory`, where anybody who
 kept a number could touch them.
 */
module EventBuffers {

  import opened Common

  /** A buffer and the thread that owns or last owned it; `UsedSize` is the length of `data`. */
  datatype Buffer = Buffer(thread: nat, data: seq<byte>)

  /** One call of the process-buffer callback. */
  datatype Delivery = Delivery(thread: nat, data: seq<byte>)

  /**
   `free` and `dirty` are stacks with the top in front.  `current` has an entry per thread,
   `private` the list each collector is working on.  `reserved` and `handed` record what
   threads have written and what the callback has been given.
   */
  datatype Pool = Pool(
    bufferSize: nat, guard: nat,
    free: seq<nat>, dirty: seq<nat>, current: seq<Option<nat>>, private: seq<seq<nat>>,
    memory: seq<Buffer>, reserved: seq<seq<byte>>, handed: seq<Delivery>)

  datatype Step =
    | Retire(t: nat)                      // push the current buffer on the dirty list
    | Acquire(t: nat)                     // pop a free buffer and make it the current one
    | Reserve(t: nat, bytes: seq<byte>)   // take and fill the next slice of the current buffer
    | Flush(c: nat)                       // take the whole dirty list, oldest buffer first
    | Deliver(c: nat)                     // call back for one buffer and free it

  function Reverse<T>(s: seq<T>): (r: seq<T>)
    ensures |r| == |s|
  {
    if s == [] then [] else Reverse(s[1..]) + [s[0]]
  }

  // ---------------------------------------------------------------- steps

  ghost predicate WellFormed(p: Pool) {
    && |p.reserved| == |p.current|
    && (forall k :: 0 <= k < |p.free| ==> p.free[k] < |p.memory|)
    && (forall k :: 0 <= k < |p.dirty| ==> p.dirty[k] < |p.memory|)
    && (forall t :: 0 <= t < |p.current| && p.current[t].Some? ==> p.current[t].value < |p.memory|)
    && (forall c, k :: 0 <= c < |p.private| && 0 <= k < |p.private[c]| ==> p.private[c][k] < |p.memory|)
  }

  ghost predicate Enabled(p: Pool, step: Step)
    requires WellFormed(p)
  {
    match step
    case Retire(t) => t < |p.current| && p.current[t].Some?
    case Acquire(t) => t < |p.current| && p.current[t].None? && p.free != []
    case Reserve(t, bytes) =>
      && t < |p.current| && p.current[t].Some? && bytes != []
      && |p.memory[p.current[t].value].data| + |bytes| + p.guard <= p.bufferSize
    case Flush(c) => c < |p.private| && p.private[c] == []
    case Deliver(c) => c < |p.private| && p.private[c] != []
  }

  function Next(p: Pool, step: Step): Pool
    requires WellFormed(p) && Enabled(p, step)
  {
    match step
    case Retire(t) => p.(dirty := [p.current[t].value] + p.dirty, current := p.current[t := None])
    case Acquire(t) =>
      var b := p.free[0];
      p.(free := p.free[1..], current := p.current[t := Some(b)],
         memory := p.memory[b := p.memory[b].(thread := t)])
    case Reserve(t, bytes) =>
      var b := p.current[t].value;
      p.(memory := p.memory[b := p.memory[b].(data := p.memory[b].data + bytes)],
         reserved := p.reserved[t := p.reserved[t] + bytes])
    case Flush(c) => p.(dirty := [], private := p.private[c := Reverse(p.dirty)])
    case Deliver(c) =>
      var b := p.private[c][0];
      p.(private := p.private[c := p.private[c][1..]], free := [b] + p.free,
         memory := p.memory[b := p.memory[b].(data := [])],
         handed := p.handed + [Delivery(p.memory[b].thread, p.memory[b].data)])
  }

  // ---------------------------------------------------------------- conservation

  /** How often `b` stands in a list. */
  function Count(ids: seq<nat>, b: nat): nat {
    if ids == [] then 0 else (if ids[0] == b then 1 else 0) + Count(ids[1..], b)
  }

  function Held(current: seq<Option<nat>>): seq<nat> {
    if current == [] then []
    else (if current[0].Some? then [current[0].value] else []) + Held(current[1..])
  }

  /** How many places hold `b`: the free list, the dirty list, a thread or a collector's list. */
  function Holders(p: Pool, b: nat): nat {
    Count(p.free, b) + Count(p.dirty, b) + Count(Held(p.current), b) + Count(Concat(p.private), b)
  }

  /** Every buffer is in exactly one place. */
  ghost predicate Conserved(p: Pool) {
    forall b: nat :: Holders(p, b) == if b < |p.memory| then 1 else 0
  }

  lemma {:induction false} CountAppend(x: seq<nat>, y: seq<nat>, b: nat)
    ensures Count(x + y, b) == Count(x, b) + Count(y, b)
    decreases |x|
  {
    if x == [] {
      assert x + y == y;
    } else {
      assert (x + y)[1..] == x[1..] + y;
      CountAppend(x[1..], y, b);
    }
  }

  lemma {:induction false} CountMember(ids: seq<nat>, b: nat)
    ensures b in ids <==> Count(ids, b) > 0
    decreases |ids|
  {
    if ids != [] {
      CountMember(ids[1..], b);
      assert ids == [ids[0]] + ids[1..];
    }
  }

  lemma {:induction false} CountReverse(ids: seq<nat>, b: nat)
    ensures Count(Reverse(ids), b) == Count(ids, b)
    decreases |ids|
  {
    if ids != [] {
      CountReverse(ids[1..], b);
      CountAppend(Reverse(ids[1..]), [ids[0]], b);
    }
  }

  lemma {:induction false} CountHeldUpdate(current: seq<Option<nat>>, t: nat, x: Option<nat>, b: nat)
    requires t < |current|
    ensures Count(Held(current[t := x]), b) + (if current[t] == Some(b) then 1 else 0)
            == Count(Held(current), b) + (if x == Some(b) then 1 else 0)
    decreases |current|
  {
    var updated := current[t := x];
    var head := if current[0].Some? then [current[0].value] else [];
    var head' := if updated[0].Some? then [updated[0].value] else [];
    CountAppend(head, Held(current[1..]), b);
    CountAppend(head', Held(updated[1..]), b);
    if t == 0 {
      assert updated[1..] == current[1..];
    } else {
      assert updated[1..] == current[1..][t - 1 := x];
      CountHeldUpdate(current[1..], t - 1, x, b);
    }
  }

  lemma {:induction false} CountConcatUpdate(lists: seq<seq<nat>>, c: nat, x: seq<nat>, b: nat)
    requires c < |lists|
    ensures Count(Concat(lists[c := x]), b) + Count(lists[c], b) == Count(Concat(lists), b) + Count(x, b)
    decreases |lists|
  {
    var updated, n := lists[c := x], |lists| - 1;
    CountAppend(Concat(lists[..n]), lists[n], b);
    CountAppend(Concat(updated[..n]), updated[n], b);
    if c == n {
      assert updated[..n] == lists[..n];
    } else {
      assert updated[..n] == lists[..n][c := x];
      CountConcatUpdate(lists[..n], c, x, b);
    }
  }

  /** No step, by however many threads and collectors, loses a buffer or gives it to two of them. */
  lemma {:induction false} StepConserves(p: Pool, step: Step, b: nat)
    requires WellFormed(p) && Enabled(p, step)
    ensures Holders(Next(p, step), b) == Holders(p, b)
  {
    match step {
      case Retire(t) =>
        CountHeldUpdate(p.current, t, None, b);
        CountAppend([p.current[t].value], p.dirty, b);
      case Acquire(t) =>
        CountHeldUpdate(p.current, t, Some(p.free[0]), b);
      case Reserve(t, bytes) =>
      case Flush(c) =>
        CountConcatUpdate(p.private, c, Reverse(p.dirty), b);
        CountReverse(p.dirty, b);
      case Deliver(c) =>
        CountConcatUpdate(p.private, c, p.private[c][1..], b);
        CountAppend([p.private[c][0]], p.free, b);
    }
  }

  // ---------------------------------------------------------------- runs

  /** `q` is reached from `p` by `steps`, each enabled when it is taken. */
  ghost predicate Runs(p: Pool, steps: seq<Step>, q: Pool)
    decreases |steps|
  {
    if steps == [] then p == q
    else WellFormed(p) && Enabled(p, steps[0]) && Runs(Next(p, steps[0]), steps[1..], q)
  }

  /** As `BufferCount` buffers leave initialization: all free, nothing written or handed over. */
  ghost predicate Initial(p: Pool) {
    && p.dirty == [] && p.handed == []
    && |p.reserved| == |p.current|
    && (forall t :: 0 <= t < |p.current| ==> p.current[t] == None && p.reserved[t] == [])
    && (forall c :: 0 <= c < |p.private| ==> p.private[c] == [])
    && (forall b :: 0 <= b < |p.memory| ==> p.memory[b].data == [])
    && (forall b: nat :: Count(p.free, b) == if b < |p.memory| then 1 else 0)
  }

  lemma {:induction false} ConservedWellFormed(p: Pool)
    requires Conserved(p) && |p.reserved| == |p.current|
    ensures WellFormed(p)
  {
    forall k | 0 <= k < |p.free| ensures p.free[k] < |p.memory| {
      CountMember(p.free, p.free[k]);
      assert Holders(p, p.free[k]) > 0;
    }
    forall k | 0 <= k < |p.dirty| ensures p.dirty[k] < |p.memory| {
      CountMember(p.dirty, p.dirty[k]);
      assert Holders(p, p.dirty[k]) > 0;
    }
    forall t | 0 <= t < |p.current| && p.current[t].Some? ensures p.current[t].value < |p.memory| {
      HeldCounts(p.current, t);
      assert Holders(p, p.current[t].value) > 0;
    }
    forall c, k | 0 <= c < |p.private| && 0 <= k < |p.private[c]| ensures p.private[c][k] < |p.memory| {
      CountConcatUpdate(p.private, c, [], p.private[c][k]);
      CountMember(p.private[c], p.private[c][k]);
      assert Holders(p, p.private[c][k]) > 0;
    }
  }

  lemma {:induction false} HeldCounts(current: seq<Option<nat>>, t: nat)
    requires t < |current| && current[t].Some?
    ensures Count(Held(current), current[t].value) > 0
  {
    CountHeldUpdate(current, t, None, current[t].value);
  }

  lemma {:induction false} InitialConserved(p: Pool)
    requires Initial(p)
    ensures Conserved(p) && WellFormed(p)
  {
    NothingHeld(p.current);
    NothingPrivate(p.private);
    assert forall b: nat :: Holders(p, b) == Count(p.free, b);
    ConservedWellFormed(p);
  }

  lemma {:induction false} NothingHeld(current: seq<Option<nat>>)
    requires forall t :: 0 <= t < |current| ==> current[t] == None
    ensures Held(current) == []
    decreases |current|
  {
    if current != [] {
      NothingHeld(current[1..]);
    }
  }

  lemma {:induction false} NothingPrivate(lists: seq<seq<nat>>)
    requires forall c :: 0 <= c < |lists| ==> lists[c] == []
    ensures Concat(lists) == []
    decreases |lists|
  {
    if lists != [] {
      NothingPrivate(lists[..|lists| - 1]);
    }
  }

  /**
   In every interleaving of any number of threads and collectors each buffer is, at any
   time, free, dirty, owned by one thread or in the hands of one collector.
   */
  lemma {:induction false} ConservedInEveryRun(p: Pool, steps: seq<Step>, q: Pool)
    requires Conserved(p) && |p.reserved| == |p.current| && Runs(p, steps, q)
    ensures Conserved(q) && WellFormed(q) && |q.memory| == |p.memory|
    decreases |steps|
  {
    ConservedWellFormed(p);
    if steps != [] {
      forall b: nat ensures Holders(Next(p, steps[0]), b) == Holders(p, b) {
        StepConserves(p, steps[0], b);
      }
      ConservedInEveryRun(Next(p, steps[0]), steps[1..], q);
    }
  }

  // ---------------------------------------------------------------- no empty buffer is handed over

  /**
   The threads that have taken a free buffer and not yet written to it, after `steps`; or
   nothing, if one of them has retired such a buffer.
   */
  function Unwritten(steps: seq<Step>, threads: set<nat>): Option<set<nat>>
    decreases |steps|
  {
    if steps == [] then Some(threads)
    else
      match steps[0]
      case Retire(t) => if t in threads then None else Unwritten(steps[1..], threads)
      case Acquire(t) => Unwritten(steps[1..], threads + {t})
      case Reserve(t, _) => Unwritten(steps[1..], threads - {t})
      case _ => Unwritten(steps[1..], threads)
  }

  /** An empty buffer is free, or has just been taken by one of `threads`. */
  ghost predicate EmptyIsFree(p: Pool, threads: set<nat>) {
    forall b :: 0 <= b < |p.memory| && p.memory[b].data == [] ==>
                  Count(p.free, b) > 0 || exists t :: t in threads && t < |p.current| && p.current[t] == Some(b)
  }

  ghost predicate NoneEmpty(handed: seq<Delivery>) {
    forall k :: 0 <= k < |handed| ==> handed[k].data != []
  }

  /** A buffer in a collector's list is not on the free list and not the current one of a thread. */
  lemma {:induction false} PrivateOnly(p: Pool, c: nat)
    requires Conserved(p) && c < |p.private| && p.private[c] != []
    ensures var b := p.private[c][0]; Count(p.free, b) == 0 && forall t :: 0 <= t < |p.current| ==> p.current[t] != Some(b)
  {
    var b := p.private[c][0];
    CountConcatUpdate(p.private, c, [], b);
    CountMember(p.private[c], b);
    assert Holders(p, b) <= 1;
    forall t | 0 <= t < |p.current| ensures p.current[t] != Some(b) {
      if p.current[t] == Some(b) {
        HeldCounts(p.current, t);
      }
    }
  }

  lemma {:induction false} DeliveredNotEmpty(p: Pool, c: nat, threads: set<nat>)
    requires Conserved(p) && WellFormed(p) && Enabled(p, Deliver(c)) && EmptyIsFree(p, threads)
    ensures p.memory[p.private[c][0]].data != []
  {
    PrivateOnly(p, c);
  }

  lemma {:induction false} StepKeepsEmptyFree(p: Pool, step: Step, threads: set<nat>)
    requires Conserved(p) && WellFormed(p) && Enabled(p, step) && EmptyIsFree(p, threads)
    requires step.Retire? ==> step.t !in threads
    ensures EmptyIsFree(Next(p, step),
                        if step.Acquire? then threads + {step.t} else if step.Reserve? then threads - {step.t} else threads)
  {
    var q := Next(p, step);
    var threads' := if step.Acquire? then threads + {step.t} else if step.Reserve? then threads - {step.t} else threads;
    forall b | 0 <= b < |q.memory| && q.memory[b].data == []
      ensures Count(q.free, b) > 0 || exists t :: t in threads' && t < |q.current| && q.current[t] == Some(b)
    {
      if step.Deliver? && b == p.private[step.c][0] {
        assert q.free[0] == b;
      } else {
        assert p.memory[b].data == [];
        if Count(p.free, b) > 0 {
          if step.Acquire? && b == p.free[0] {
            assert q.current[step.t] == Some(b);
          } else if step.Deliver? {
            assert q.free[1..] == p.free;
          }
        } else {
          var t :| t in threads && t < |p.current| && p.current[t] == Some(b);
          assert q.current[t] == Some(b) && t in threads';
        }
      }
    }
  }

  /** If every thread writes to a buffer before it retires it, the callback never gets an empty one. */
  lemma {:induction false} NothingEmptyHanded(p: Pool, steps: seq<Step>, q: Pool, threads: set<nat>)
    requires Conserved(p) && |p.reserved| == |p.current| && EmptyIsFree(p, threads) && NoneEmpty(p.handed)
    requires Runs(p, steps, q) && Unwritten(steps, threads).Some?
    ensures NoneEmpty(q.handed)
    decreases |steps|
  {
    if steps != [] {
      var step, next := steps[0], Next(p, steps[0]);
      ConservedWellFormed(p);
      forall b: nat ensures Holders(next, b) == Holders(p, b) {
        StepConserves(p, step, b);
      }
      StepKeepsEmptyFree(p, step, threads);
      if step.Deliver? {
        DeliveredNotEmpty(p, step.c, threads);
      }
      hide EmptyIsFree;
      NothingEmptyHanded(next, steps[1..], q,
        if step.Acquire? then threads + {step.t} else if step.Reserve? then threads - {step.t} else threads);
    }
  }

  lemma {:induction false} InitialEmptyFree(p: Pool)
    requires Initial(p)
    ensures EmptyIsFree(p, {}) && NoneEmpty(p.handed)
  {
    forall b | 0 <= b < |p.memory| ensures Count(p.free, b) > 0 {
      var n: nat := b;
      assert Count(p.free, n) == 1;
    }
  }

  // ---------------------------------------------------------------- whole events

  predicate IsWhole(data: seq<byte>, n: nat)
    requires n > 0
  {
    |data| % n == 0
  }

  /** Buffers and deliveries consist of events of `n` bytes. */
  ghost predicate WholeEvents(p: Pool, n: nat)
    requires n > 0
  {
    && (forall b :: 0 <= b < |p.memory| ==> IsWhole(p.memory[b].data, n))
    && (forall k :: 0 <= k < |p.handed| ==> IsWhole(p.handed[k].data, n))
  }

  lemma {:induction false} StepKeepsWhole(p: Pool, step: Step, n: nat)
    requires n > 0 && WellFormed(p) && Enabled(p, step) && WholeEvents(p, n)
    requires step.Reserve? ==> IsWhole(step.bytes, n)
    ensures WholeEvents(Next(p, step), n)
  {
    hide IsWhole;
    NothingIsWhole(n);
    if step.Reserve? {
      WholeTogether(p.memory[p.current[step.t].value].data, step.bytes, n);
    }
  }

  lemma {:induction false} NothingIsWhole(n: nat)
    requires n > 0
    ensures IsWhole([], n)
  {
  }

  lemma {:induction false} WholeTogether(a: seq<byte>, b: seq<byte>, n: nat)
    requires n > 0 && IsWhole(a, n) && IsWhole(b, n)
    ensures IsWhole(a + b, n)
  {
    SumOfMultiples(|a|, |b|, n);
  }

  lemma {:induction false} SumOfMultiples(a: nat, b: nat, n: nat)
    requires n > 0 && a % n == 0 && b % n == 0
    ensures (a + b) % n == 0
  {
    assert a == n * (a / n) && b == n * (b / n);
    MultipleMod(a / n + b / n, n);
    assert a + b == n * (a / n + b / n);
  }

  lemma {:induction false} MultipleMod(q: nat, n: nat)
    requires n > 0
    ensures (n * q) % n == 0
  {
    var d, r := q - (n * q) / n, (n * q) % n;
    assert r == n * q - n * ((n * q) / n) == n * d;
    ProductBounds(d, n);
  }

  lemma {:induction false} ProductBounds(d: int, n: int)
    requires n > 0
    ensures (d >= 1 ==> n * d >= n) && (d <= -1 ==> n * d <= -n)
  {
  }

  /** If threads only reserve whole events, no event is ever split between two deliveries. */
  lemma {:induction false} RunKeepsWhole(p: Pool, steps: seq<Step>, q: Pool, n: nat)
    requires n > 0 && Runs(p, steps, q) && WholeEvents(p, n)
    requires forall k :: 0 <= k < |steps| && steps[k].Reserve? ==> IsWhole(steps[k].bytes, n)
    ensures WholeEvents(q, n)
    decreases |steps|
  {
    if steps != [] {
      StepKeepsWhole(p, steps[0], n);
      hide WholeEvents, WellFormed, Enabled, Next, IsWhole;
      var rest := steps[1..];
      forall k | 0 <= k < |rest| && rest[k].Reserve? ensures IsWhole(rest[k].bytes, n) {
        assert rest[k] == steps[k + 1];
      }
      RunKeepsWhole(Next(p, steps[0]), rest, q, n);
    }
  }

  // ---------------------------------------------------------------- slices

  /** `UsedSize` never exceeds the buffer. */
  ghost predicate InBounds(p: Pool) {
    forall b :: 0 <= b < |p.memory| ==> |p.memory[b].data| <= p.bufferSize
  }

  /**
   A reserved slice starts where the used part ended and, guard included, ends inside the
   buffer; until a buffer is handed over its used part only grows.
   */
  lemma {:induction false} SliceOfStep(p: Pool, step: Step, b: nat)
    requires WellFormed(p) && Enabled(p, step) && InBounds(p) && b < |p.memory|
    ensures InBounds(Next(p, step))
    ensures var before, after := p.memory[b].data, Next(p, step).memory[b].data;
            match step
            case Deliver(c) => if b == p.private[c][0] then after == [] else after == before
            case Reserve(t, bytes) =>
              if p.current[t] == Some(b)
              then after == before + bytes && |before| + |bytes| + p.guard <= p.bufferSize
              else after == before
            case _ => after == before
  {
    var q := Next(p, step);
    forall k | 0 <= k < |q.memory| ensures |q.memory[k].data| <= q.bufferSize {
      assert |p.memory[k].data| <= p.bufferSize;
    }
  }

  /** A run in which buffer `b` is not handed over. */
  ghost predicate RunsKeeping(p: Pool, steps: seq<Step>, q: Pool, b: nat)
    decreases |steps|
  {
    if steps == [] then p == q
    else
      && WellFormed(p) && Enabled(p, steps[0])
      && !(steps[0].Deliver? && p.private[steps[0].c][0] == b)
      && RunsKeeping(Next(p, steps[0]), steps[1..], q, b)
  }

  /** What has been written to a buffer stays there until it is handed over. */
  lemma {:induction false} WrittenStays(p: Pool, steps: seq<Step>, q: Pool, b: nat)
    requires RunsKeeping(p, steps, q, b) && b < |p.memory|
    ensures |q.memory| == |p.memory| && p.memory[b].data <= q.memory[b].data
    ensures q.bufferSize == p.bufferSize && q.guard == p.guard
    decreases |steps|
  {
    if steps != [] {
      WrittenStays(Next(p, steps[0]), steps[1..], q, b);
    }
  }

  /** Where in its buffer a request is placed: from the used part on. */
  function SliceStart(p: Pool, t: nat): nat
    requires t < |p.current| && p.current[t].Some? && p.current[t].value < |p.memory|
  {
    |p.memory[p.current[t].value].data|
  }

  ghost predicate ReservesIn(p: Pool, t: nat, bytes: seq<byte>, b: nat) {
    WellFormed(p) && Enabled(p, Reserve(t, bytes)) && p.current[t] == Some(b)
  }

  /**
   Slices of one buffer are disjoint and in bounds: of two requests placed in buffer `b`, by
   whichever threads, and whatever happens in between short of handing `b` over, the second
   slice begins at or behind the end of the first, which still holds what was written to it,
   and both end, guard included, within the buffer.
   */
  lemma {:induction false} SlicesDisjoint(
    p: Pool, t: nat, bytes: seq<byte>, between: seq<Step>, q: Pool, t': nat, bytes': seq<byte>, b: nat)
    requires ReservesIn(p, t, bytes, b) && RunsKeeping(Next(p, Reserve(t, bytes)), between, q, b)
    requires ReservesIn(q, t', bytes', b)
    ensures var start, end := SliceStart(p, t), SliceStart(p, t) + |bytes|;
            var start', end' := SliceStart(q, t'), SliceStart(q, t') + |bytes'|;
            var after := Next(q, Reserve(t', bytes')).memory[b].data;
            && start < end <= start' < end' == |after|
            && end + p.guard <= p.bufferSize && end' + p.guard <= p.bufferSize
            && after[start..end] == bytes && after[start'..end'] == bytes'
  {
    var p1 := Next(p, Reserve(t, bytes));
    WrittenStays(p1, between, q, b);
    assert p1.memory[b].data == p.memory[b].data + bytes;
    assert Next(q, Reserve(t', bytes')).memory[b].data == q.memory[b].data + bytes';
  }

  // ---------------------------------------------------------------- deliveries

  /** Buffers carry the thread that writes to them, and deliveries are no larger than buffers. */
  ghost predicate Labelled(p: Pool) {
    && (forall t :: 0 <= t < |p.current| && p.current[t].Some? ==>
          p.current[t].value < |p.memory| && p.memory[p.current[t].value].thread == t)
    && (forall b :: 0 <= b < |p.memory| && p.memory[b].data != [] ==> p.memory[b].thread < |p.current|)
    && (forall k :: 0 <= k < |p.handed| ==>
          |p.handed[k].data| <= p.bufferSize && (p.handed[k].data != [] ==> p.handed[k].thread < |p.current|))
  }

  /** A free buffer is not the current one of a thread. */
  lemma {:induction false} FreeOnly(p: Pool, t: nat)
    requires Conserved(p) && p.free != [] && t < |p.current|
    ensures p.current[t] != Some(p.free[0])
  {
    CountMember(p.free, p.free[0]);
    assert Holders(p, p.free[0]) <= 1;
    if p.current[t] == Some(p.free[0]) {
      HeldCounts(p.current, t);
      assert false;
    }
  }

  lemma {:induction false} StepKeepsLabels(p: Pool, step: Step)
    requires Conserved(p) && WellFormed(p) && Enabled(p, step) && Labelled(p) && InBounds(p)
    ensures Labelled(Next(p, step)) && |Next(p, step).current| == |p.current|
  {
    hide Conserved;
    if step.Acquire? {
      forall u | 0 <= u < |p.current| ensures p.current[u] != Some(p.free[0]) {
        FreeOnly(p, u);
      }
    }
  }

  lemma {:induction false} RunKeepsLabels(p: Pool, steps: seq<Step>, q: Pool)
    requires Conserved(p) && |p.reserved| == |p.current| && Labelled(p) && InBounds(p) && Runs(p, steps, q)
    ensures Labelled(q) && |q.current| == |p.current| && q.bufferSize == p.bufferSize
    decreases |steps|
  {
    if steps != [] {
      var next := Next(p, steps[0]);
      forall b: nat ensures Holders(next, b) == Holders(p, b) {
        StepConserves(p, steps[0], b);
      }
      StepKeepsLabels(p, steps[0]);
      StepInBounds(p, steps[0]);
      hide Labelled, InBounds;
      RunKeepsLabels(next, steps[1..], q);
    }
  }

  lemma {:induction false} StepInBounds(p: Pool, step: Step)
    requires WellFormed(p) && Enabled(p, step) && InBounds(p)
    ensures InBounds(Next(p, step))
  {
    if p.memory != [] {
      SliceOfStep(p, step, 0);
    }
  }

  // ---------------------------------------------------------------- order

  /** What the buffers `ids` hold for thread `t`, in the order of the list. */
  function Bytes(memory: seq<Buffer>, ids: seq<nat>, t: nat): seq<byte> {
    if ids == [] then []
    else (if ids[0] < |memory| && memory[ids[0]].thread == t then memory[ids[0]].data else [])
         + Bytes(memory, ids[1..], t)
  }

  function HandedTo(log: seq<Delivery>, t: nat): seq<byte> {
    if log == [] then []
    else HandedTo(log[..|log| - 1], t)
         + if log[|log| - 1].thread == t then log[|log| - 1].data else []
  }

  function Current(p: Pool, t: nat): seq<byte> {
    if t < |p.current| && p.current[t].Some? && p.current[t].value < |p.memory|
    then p.memory[p.current[t].value].data else []
  }

  /** Buffers that are waiting for the callback, oldest first. */
  function Queue(p: Pool): seq<nat> {
    Concat(p.private) + Reverse(p.dirty)
  }

  /** What thread `t` has written is with the callback, waiting, or in its current buffer, in that order. */
  ghost predicate InOrder(p: Pool, t: nat) {
    t < |p.reserved|
    && p.reserved[t] == HandedTo(p.handed, t) + Bytes(p.memory, Queue(p), t) + Current(p, t)
  }

  ghost predicate OwnerSet(p: Pool) {
    forall t :: 0 <= t < |p.current| && p.current[t].Some? && p.current[t].value < |p.memory| ==>
                  p.memory[p.current[t].value].thread == t
  }

  ghost predicate FreeEmpty(p: Pool) {
    forall k :: 0 <= k < |p.free| && p.free[k] < |p.memory| ==> p.memory[p.free[k]].data == []
  }

  /** At most one collector is in the middle of a list. */
  ghost predicate OneAtWork(p: Pool) {
    forall c, d :: 0 <= c < |p.private| && 0 <= d < |p.private| && p.private[c] != [] && p.private[d] != [] ==> c == d
  }

  ghost predicate Ordered(p: Pool) {
    && Conserved(p) && WellFormed(p)
    && OwnerSet(p) && FreeEmpty(p) && OneAtWork(p)
    && forall t :: 0 <= t < |p.reserved| ==> InOrder(p, t)
  }

  lemma {:induction false} BytesAppend(memory: seq<Buffer>, x: seq<nat>, y: seq<nat>, t: nat)
    ensures Bytes(memory, x + y, t) == Bytes(memory, x, t) + Bytes(memory, y, t)
    decreases |x|
  {
    if x == [] {
      assert x + y == y;
    } else {
      assert (x + y)[1..] == x[1..] + y;
      BytesAppend(memory, x[1..], y, t);
    }
  }

  /** A buffer that is not waiting may change without the waiting bytes changing. */
  lemma {:induction false} BytesFrame(memory: seq<Buffer>, ids: seq<nat>, t: nat, b: nat, x: Buffer)
    requires b < |memory| && Count(ids, b) == 0
    ensures Bytes(memory[b := x], ids, t) == Bytes(memory, ids, t)
    decreases |ids|
  {
    if ids != [] {
      BytesFrame(memory, ids[1..], t, b, x);
    }
  }

  lemma {:induction false} OnlyPrivate(lists: seq<seq<nat>>, c: nat, x: seq<nat>)
    requires c < |lists|
    requires forall d :: 0 <= d < |lists| && d != c ==> lists[d] == []
    ensures Concat(lists) == lists[c] && Concat(lists[c := x]) == x
    decreases |lists|
  {
    var n := |lists| - 1;
    if c == n {
      NothingPrivate(lists[..n]);
      assert lists[c := x][..n] == lists[..n];
    } else {
      assert lists[c := x][..n] == lists[..n][c := x];
      OnlyPrivate(lists[..n], c, x);
    }
  }

  /** Where `b` cannot be, given one place it is in. */
  lemma {:induction false} ElsewhereAbsent(p: Pool, b: nat)
    requires Conserved(p) && b < |p.memory|
    ensures p.free != [] && b == p.free[0] ==>
              Count(Queue(p), b) == 0 && b !in p.free[1..] && Count(Held(p.current), b) == 0
    ensures Count(Held(p.current), b) > 0 ==> Count(Queue(p), b) == 0 && b !in p.free
    ensures Count(Concat(p.private), b) > 0 ==> Count(Reverse(p.dirty), b) == 0 && b !in p.free
                                                && Count(Concat(p.private), b) == 1 && Count(Held(p.current), b) == 0
  {
    assert Holders(p, b) == 1;
    CountMember(p.free, b);
    CountReverse(p.dirty, b);
    CountAppend(Concat(p.private), Reverse(p.dirty), b);
    if p.free != [] {
      CountMember(p.free[1..], b);
      assert p.free == [p.free[0]] + p.free[1..];
    }
  }

  lemma {:induction false} RetireKeepsOrder(p: Pool, t: nat, u: nat)
    requires Ordered(p) && Enabled(p, Retire(t)) && u < |p.reserved|
    ensures InOrder(Next(p, Retire(t)), u)
  {
    var q, b := Next(p, Retire(t)), p.current[t].value;
    assert InOrder(p, u);
    assert Queue(q) == Queue(p) + [b] by {
      assert q.dirty[1..] == p.dirty;
    }
    BytesAppend(p.memory, Queue(p), [b], u);
    assert Bytes(p.memory, [b], u) == if u == t then p.memory[b].data else [] by {
      assert [b][1..] == [];
    }
  }

  lemma {:induction false} AcquireKeepsOrder(p: Pool, t: nat, u: nat)
    requires Ordered(p) && Enabled(p, Acquire(t)) && u < |p.reserved|
    ensures InOrder(Next(p, Acquire(t)), u)
  {
    var q, b := Next(p, Acquire(t)), p.free[0];
    assert InOrder(p, u);
    ElsewhereAbsent(p, b);
    BytesFrame(p.memory, Queue(p), u, b, q.memory[b]);
    assert Queue(q) == Queue(p);
    if u != t && p.current[u].Some? {
      HeldCounts(p.current, u);
    }
  }

  lemma {:induction false} ReserveKeepsOrder(p: Pool, t: nat, bytes: seq<byte>, u: nat)
    requires Ordered(p) && Enabled(p, Reserve(t, bytes)) && u < |p.reserved|
    ensures InOrder(Next(p, Reserve(t, bytes)), u)
  {
    var q, b := Next(p, Reserve(t, bytes)), p.current[t].value;
    assert InOrder(p, u);
    HeldCounts(p.current, t);
    ElsewhereAbsent(p, b);
    BytesFrame(p.memory, Queue(p), u, b, q.memory[b]);
    assert Queue(q) == Queue(p);
    if u == t {
      assert (HandedTo(p.handed, t) + Bytes(p.memory, Queue(p), t)) + (Current(p, t) + bytes)
          == (HandedTo(p.handed, t) + Bytes(p.memory, Queue(p), t)) + Current(p, t) + bytes;
    }
  }

  /** No collector is working while another takes buffers from the dirty list. */
  ghost predicate Exclusive(p: Pool, step: Step) {
    step.Flush? ==> p.dirty == [] || forall c :: 0 <= c < |p.private| ==> p.private[c] == []
  }

  /** Flushing an empty list changes nothing. */
  lemma {:induction false} FlushNothing(p: Pool, c: nat)
    requires WellFormed(p) && Enabled(p, Flush(c)) && p.dirty == []
    ensures Next(p, Flush(c)) == p
  {
    assert p.private[c := []] == p.private;
  }

  lemma {:induction false} FlushKeepsOrder(p: Pool, c: nat, u: nat)
    requires Ordered(p) && Enabled(p, Flush(c)) && Exclusive(p, Flush(c)) && u < |p.reserved|
    ensures InOrder(Next(p, Flush(c)), u)
  {
    var q := Next(p, Flush(c));
    assert InOrder(p, u);
    if p.dirty == [] {
      FlushNothing(p, c);
    } else {
      NothingPrivate(p.private);
      OnlyPrivate(p.private, c, Reverse(p.dirty));
      assert Queue(q) == Queue(p);
    }
  }

  lemma {:induction false} DeliverKeepsOrder(p: Pool, c: nat, u: nat)
    requires Ordered(p) && Enabled(p, Deliver(c)) && u < |p.reserved|
    ensures InOrder(Next(p, Deliver(c)), u)
  {
    var q, b := Next(p, Deliver(c)), p.private[c][0];
    assert InOrder(p, u);
    DeliverQueue(p, c);
    BytesFrame(p.memory, Queue(q), u, b, q.memory[b]);
    BytesAppend(p.memory, [b], Queue(q), u);
    assert Bytes(p.memory, [b], u) == if p.memory[b].thread == u then p.memory[b].data else [] by {
      assert [b][1..] == [];
    }
    assert HandedTo(q.handed, u) == HandedTo(p.handed, u) + Bytes(p.memory, [b], u) by {
      assert q.handed[..|q.handed| - 1] == p.handed;
    }
    assert Current(q, u) == Current(p, u) by {
      if p.current[u].Some? && p.current[u].value == b {
        HeldCounts(p.current, u);
      }
    }
    hide *;
    assert q.reserved[u] == p.reserved[u];
    InOrderFrom(p, q, u, Bytes(p.memory, [b], u));
  }

  lemma {:induction false} InOrderFrom(p: Pool, q: Pool, u: nat, more: seq<byte>)
    requires InOrder(p, u) && u < |q.reserved| && q.reserved[u] == p.reserved[u] && Current(q, u) == Current(p, u)
    requires HandedTo(q.handed, u) == HandedTo(p.handed, u) + more
    requires Bytes(p.memory, Queue(p), u) == more + Bytes(q.memory, Queue(q), u)
    ensures InOrder(q, u)
  {
    hide HandedTo, Bytes, Queue, Current;
  }

  /** The delivered buffer is the oldest one waiting, and it is in no other place. */
  lemma {:induction false} DeliverQueue(p: Pool, c: nat)
    requires Ordered(p) && Enabled(p, Deliver(c))
    ensures var b := p.private[c][0];
            && Queue(p) == [b] + Queue(Next(p, Deliver(c)))
            && Count(Queue(Next(p, Deliver(c))), b) == 0
            && Count(Held(p.current), b) == 0
  {
    var q, b := Next(p, Deliver(c)), p.private[c][0];
    OnlyPrivate(p.private, c, p.private[c][1..]);
    assert p.private[c] == [b] + p.private[c][1..];
    assert Queue(p) == [b] + Queue(q);
    CountAppend(p.private[c][1..], Reverse(p.dirty), b);
    ElsewhereAbsent(p, b);
  }

  lemma {:induction false} StepKeepsSides(p: Pool, step: Step)
    requires Ordered(p) && Enabled(p, step) && Exclusive(p, step)
    ensures var q := Next(p, step); OwnerSet(q) && FreeEmpty(q) && OneAtWork(q)
  {
    var q := Next(p, step);
    match step {
      case Retire(t) =>
      case Acquire(t) =>
        ElsewhereAbsent(p, p.free[0]);
        forall u | 0 <= u < |q.current| && u != t && q.current[u].Some? ensures q.current[u].value != p.free[0] {
          HeldCounts(p.current, u);
        }
      case Reserve(t, bytes) =>
        HeldCounts(p.current, t);
        ElsewhereAbsent(p, p.current[t].value);
      case Flush(c) =>
        if p.dirty == [] {
          FlushNothing(p, c);
        }
      case Deliver(c) =>
        CountConcatUpdate(p.private, c, [], p.private[c][0]);
        CountMember(p.private[c], p.private[c][0]);
        ElsewhereAbsent(p, p.private[c][0]);
    }
  }

  lemma {:induction false} StepKeepsOrder(p: Pool, step: Step)
    requires Ordered(p) && Enabled(p, step) && Exclusive(p, step)
    ensures Ordered(Next(p, step))
  {
    var q := Next(p, step);
    StepKeepsSides(p, step);
    ConservedInEveryRun(p, [step], q);
    forall u | 0 <= u < |q.reserved| ensures InOrder(q, u) {
      match step {
        case Retire(t) => RetireKeepsOrder(p, t, u);
        case Acquire(t) => AcquireKeepsOrder(p, t, u);
        case Reserve(t, bytes) => ReserveKeepsOrder(p, t, bytes, u);
        case Flush(c) => FlushKeepsOrder(p, c, u);
        case Deliver(c) => DeliverKeepsOrder(p, c, u);
      }
    }
  }

  /** A run in which no collector takes buffers while another still has some. */
  ghost predicate ExclusiveRun(p: Pool, steps: seq<Step>, q: Pool)
    decreases |steps|
  {
    if steps == [] then p == q
    else WellFormed(p) && Enabled(p, steps[0]) && Exclusive(p, steps[0])
         && ExclusiveRun(Next(p, steps[0]), steps[1..], q)
  }

  lemma {:induction false} RunKeepsOrder(p: Pool, steps: seq<Step>, q: Pool)
    requires Ordered(p) && ExclusiveRun(p, steps, q)
    ensures Ordered(q)
    decreases |steps|
  {
    if steps != [] {
      StepKeepsOrder(p, steps[0]);
      RunKeepsOrder(Next(p, steps[0]), steps[1..], q);
    }
  }

  /** With a single collector, or none, every run is exclusive. */
  lemma {:induction false} SingleCollectorIsExclusive(p: Pool, steps: seq<Step>, q: Pool)
    requires Runs(p, steps, q) && |p.private| <= 1
    ensures ExclusiveRun(p, steps, q)
    decreases |steps|
  {
    if steps != [] {
      SingleCollectorIsExclusive(Next(p, steps[0]), steps[1..], q);
    }
  }

  lemma {:induction false} InitialOrdered(p: Pool)
    requires Initial(p)
    ensures Ordered(p)
  {
    InitialConserved(p);
    NothingPrivate(p.private);
    forall t | 0 <= t < |p.reserved| ensures InOrder(p, t) {
      assert Queue(p) == [];
    }
  }

  /** Thread `t` has given up its buffer and no buffer is waiting. */
  ghost predicate Drained(p: Pool, t: nat) {
    && t < |p.current| && p.current[t] == None && p.dirty == []
    && forall c :: 0 <= c < |p.private| ==> p.private[c] == []
  }

  /**
   Under every interleaving with one collector the callback sees, for each thread, a
   prefix of what the thread has written; when the thread's buffer is torn down and
   everything is drained, it has seen all of it.
   */
  lemma PerThreadOrder(p: Pool, steps: seq<Step>, q: Pool, t: nat)
    requires Initial(p) && |p.private| == 1 && Runs(p, steps, q) && t < |q.reserved|
    ensures HandedTo(q.handed, t) <= q.reserved[t]
    ensures Drained(q, t) ==> HandedTo(q.handed, t) == q.reserved[t]
  {
    InitialOrdered(p);
    SingleCollectorIsExclusive(p, steps, q);
    RunKeepsOrder(p, steps, q);
    assert InOrder(q, t);
    if Drained(q, t) {
      NothingPrivate(q.private);
    }
  }

  // ---------------------------------------------------------------- two collectors

  /** In no run does the callback see anything but a prefix of what a thread has written. */
  ghost predicate OrderKept(p: Pool) {
    forall steps, q, t :: Runs(p, steps, q) && 0 <= t < |q.reserved| ==> HandedTo(q.handed, t) <= q.reserved[t]
  }

  /** Two collectors, two buffers, a thread, and buffers that hold a byte beside the guard. */
  predicate CanReorder(p: Pool) {
    |p.private| >= 2 && |p.memory| >= 2 && |p.current| >= 1 && p.guard < p.bufferSize
  }

  /** When the order of delivery is safe, whatever threads and collectors do. */
  lemma {:induction false} OrderKeptIff(p: Pool)
    requires Initial(p)
    ensures OrderKept(p) <==> !CanReorder(p)
  {
    if CanReorder(p) {
      var steps, q := TwoCollectorsReorder(p);
      assert !(HandedTo(q.handed, 0) <= q.reserved[0]);
    } else {
      forall steps, q, t | Runs(p, steps, q) && 0 <= t < |q.reserved| ensures HandedTo(q.handed, t) <= q.reserved[t] {
        OrderInRun(p, steps, q, t);
      }
    }
  }

  lemma {:induction false} OrderInRun(p: Pool, steps: seq<Step>, q: Pool, t: nat)
    requires Initial(p) && !CanReorder(p) && Runs(p, steps, q) && t < |q.reserved|
    ensures HandedTo(q.handed, t) <= q.reserved[t]
  {
    InitialOrdered(p);
    hide InOrder;
    if p.bufferSize <= p.guard {
      SilentRun(p, steps, q);
      NothingHandedTo(q.handed, t);
    } else {
      if |p.private| <= 1 {
        SingleCollectorIsExclusive(p, steps, q);
      } else if |p.memory| <= 1 {
        SingleBufferIsExclusive(p, steps, q);
      } else {
        ThreadsStay(p, steps, q);
        assert false;
      }
      RunKeepsOrder(p, steps, q);
      PrefixInOrder(q, t);
    }
  }

  lemma {:induction false} PrefixInOrder(p: Pool, t: nat)
    requires Ordered(p) && t < |p.reserved|
    ensures HandedTo(p.handed, t) <= p.reserved[t]
  {
    assert InOrder(p, t);
  }

  lemma {:induction false} ThreadsStay(p: Pool, steps: seq<Step>, q: Pool)
    requires Runs(p, steps, q)
    ensures |q.reserved| == |p.reserved|
    decreases |steps|
  {
    if steps != [] {
      ThreadsStay(Next(p, steps[0]), steps[1..], q);
    }
  }

  /** With a single buffer no collector has any while another finds some to take. */
  lemma {:induction false} SingleBufferIsExclusive(p: Pool, steps: seq<Step>, q: Pool)
    requires Conserved(p) && |p.reserved| == |p.current| && |p.memory| <= 1 && Runs(p, steps, q)
    ensures ExclusiveRun(p, steps, q)
    decreases |steps|
  {
    if steps != [] {
      forall b: nat ensures Holders(Next(p, steps[0]), b) == Holders(p, b) {
        StepConserves(p, steps[0], b);
      }
      SingleBufferExclusive(p, steps[0]);
      SingleBufferIsExclusive(Next(p, steps[0]), steps[1..], q);
    }
  }

  lemma {:induction false} SingleBufferExclusive(p: Pool, step: Step)
    requires Conserved(p) && WellFormed(p) && |p.memory| <= 1
    ensures Exclusive(p, step)
  {
    CountMember(p.dirty, 0);
    forall c | 0 <= c < |p.private| ensures p.private[c] == [] || p.dirty == [] {
      CountConcatUpdate(p.private, c, [], 0);
      CountMember(p.private[c], 0);
      assert p.dirty != [] ==> p.dirty[0] == 0;
      assert p.private[c] != [] ==> p.private[c][0] == 0;
      assert Holders(p, 0) <= 1;
    }
  }

  /** Where no byte fits beside the guard, nothing is ever written. */
  ghost predicate Silent(p: Pool) {
    && (forall b :: 0 <= b < |p.memory| ==> p.memory[b].data == [])
    && (forall k :: 0 <= k < |p.handed| ==> p.handed[k].data == [])
  }

  lemma {:induction false} SilentRun(p: Pool, steps: seq<Step>, q: Pool)
    requires Silent(p) && p.bufferSize <= p.guard && Runs(p, steps, q)
    ensures Silent(q)
    decreases |steps|
  {
    if steps != [] {
      SilentStep(p, steps[0]);
      hide Silent;
      SilentRun(Next(p, steps[0]), steps[1..], q);
    }
  }

  lemma {:induction false} SilentStep(p: Pool, step: Step)
    requires WellFormed(p) && Enabled(p, step) && Silent(p) && p.bufferSize <= p.guard
    ensures Silent(Next(p, step))
  {
  }

  lemma {:induction false} NothingHandedTo(log: seq<Delivery>, t: nat)
    requires forall k :: 0 <= k < |log| ==> log[k].data == []
    ensures HandedTo(log, t) == []
    decreases |log|
  {
    if log != [] {
      NothingHandedTo(log[..|log| - 1], t);
    }
  }

  /** Thread 0 writes the byte `x` to the free buffer `b` and gives it up. */
  lemma {:induction false} Fill(p: Pool, b: nat, x: byte, rest: seq<nat>) returns (q: Pool)
    requires WellFormed(p) && |p.current| >= 1 && p.current[0] == None && p.dirty == []
    requires p.free == [b] + rest && b < |p.memory| && p.memory[b].data == [] && p.guard < p.bufferSize
    ensures Runs(p, [Acquire(0), Reserve(0, [x]), Retire(0)], q) && WellFormed(q)
    ensures q == p.(free := rest, dirty := [b], memory := p.memory[b := Buffer(0, [x])],
                    reserved := p.reserved[0 := p.reserved[0] + [x]])
  {
    var steps := [Acquire(0), Reserve(0, [x]), Retire(0)];
    var p1 := FillTakes(p, b, rest);
    var p2 := FillWrites(p1, b, x);
    q := FillGives(p2, b);
    assert p1.memory[b := Buffer(0, [x])] == p.memory[b := Buffer(0, [x])];
    assert p1.current[0 := None] == p.current;
    hide WellFormed, Enabled, Next, Runs;
    RunsThree(p, p1, p2, q, steps);
  }

  lemma {:induction false} FillTakes(p: Pool, b: nat, rest: seq<nat>) returns (q: Pool)
    requires WellFormed(p) && |p.current| >= 1 && p.current[0] == None && p.free == [b] + rest && b < |p.memory|
    ensures Enabled(p, Acquire(0)) && q == Next(p, Acquire(0)) && WellFormed(q)
    ensures q == p.(free := rest, current := p.current[0 := Some(b)], memory := p.memory[b := p.memory[b].(thread := 0)])
  {
    q := Next(p, Acquire(0));
    assert p.free[1..] == rest;
    assert forall k :: 0 <= k < |rest| ==> rest[k] == p.free[k + 1];
  }

  lemma {:induction false} FillWrites(p: Pool, b: nat, x: byte) returns (q: Pool)
    requires WellFormed(p) && |p.current| >= 1 && p.current[0] == Some(b) && b < |p.memory|
    requires p.memory[b] == Buffer(0, []) && p.guard < p.bufferSize
    ensures Enabled(p, Reserve(0, [x])) && q == Next(p, Reserve(0, [x])) && WellFormed(q)
    ensures q == p.(memory := p.memory[b := Buffer(0, [x])], reserved := p.reserved[0 := p.reserved[0] + [x]])
  {
    q := Next(p, Reserve(0, [x]));
    assert [] + [x] == [x];
  }

  lemma {:induction false} FillGives(p: Pool, b: nat) returns (q: Pool)
    requires WellFormed(p) && |p.current| >= 1 && p.current[0] == Some(b) && p.dirty == []
    ensures Enabled(p, Retire(0)) && q == Next(p, Retire(0)) && WellFormed(q)
    ensures q == p.(dirty := [b], current := p.current[0 := None])
  {
    q := Next(p, Retire(0));
    assert [b] + [] == [b];
  }

  /** Collector `c` takes a dirty list of one buffer. */
  lemma {:induction false} FlushOne(p: Pool, b: nat, c: nat) returns (q: Pool)
    requires WellFormed(p) && c < |p.private| && p.private[c] == [] && p.dirty == [b]
    ensures Runs(p, [Flush(c)], q) && WellFormed(q)
    ensures q == p.(dirty := [], private := p.private[c := [b]])
  {
    q := p.(dirty := [], private := p.private[c := [b]]);
    assert [b][1..] == [] && Reverse<nat>([]) == [];
    assert Reverse(p.dirty) == [b];
    assert Next(p, Flush(c)) == q;
    RunsOne(p, Flush(c));
  }

  lemma {:induction false} NewerDelivered(p: Pool, b: nat) returns (q: Pool)
    requires WellFormed(p) && |p.private| >= 2 && p.private[1] == [b] && b < |p.memory|
    requires p.memory[b] == Buffer(0, [2]) && p.handed == []
    ensures Runs(p, [Deliver(1)], q) && HandedTo(q.handed, 0) == [2] && q.reserved == p.reserved
  {
    q := Next(p, Deliver(1));
    RunsOne(p, Deliver(1));
    assert q.handed == [Delivery(0, [2])];
    assert q.handed[..0] == [];
  }

  /** The first two free buffers are different ones. */
  lemma {:induction false} TwoFree(p: Pool) returns (b0: nat, b1: nat, rest: seq<nat>)
    requires Initial(p) && |p.memory| >= 2
    ensures p.free == [b0] + ([b1] + rest) && b0 != b1 && b0 < |p.memory| && b1 < |p.memory|
  {
    CountMember(p.free, 0);
    CountMember(p.free, 1);
    assert p.free != [p.free[0]];
    b0, b1, rest := p.free[0], p.free[1], p.free[2..];
    assert p.free == [b0] + p.free[1..] && p.free[1..] == [b1] + rest;
    CountAppend([b0], p.free[1..], b0);
    CountAppend([b1], rest, b0);
    assert Count(p.free, b0) <= 1 && Count([b0], b0) == 1;
    InitialConserved(p);
  }

  /**
   With two collectors the order is lost: each takes one of two buffers of the same
   thread, and the one with the newer buffer calls back first.
   */
  lemma {:induction false} TwoCollectorsReorder(p: Pool) returns (steps: seq<Step>, q: Pool)
    requires Initial(p) && CanReorder(p)
    ensures Runs(p, steps, q) && |q.reserved| == |p.current|
    ensures q.reserved[0] == [1, 2] && HandedTo(q.handed, 0) == [2]
    ensures !(HandedTo(q.handed, 0) <= q.reserved[0])
  {
    hide Count, Runs, WellFormed, HandedTo;
    InitialConserved(p);
    var b0, b1, rest := TwoFree(p);
    var fill1, fill2 := [Acquire(0), Reserve(0, [1]), Retire(0)], [Acquire(0), Reserve(0, [2]), Retire(0)];
    var p1 := Fill(p, b0, 1, [b1] + rest);
    var p2 := FlushOne(p1, b0, 0);
    var p3 := Fill(p2, b1, 2, rest);
    var p4 := FlushOne(p3, b1, 1);
    q := NewerDelivered(p4, b1);
    assert q.reserved[0] == [] + [1] + [2] == [1, 2];
    hide *;
    RunsAppend(p3, [Flush(1)], p4, [Deliver(1)], q);
    RunsAppend(p2, fill2, p3, [Flush(1)] + [Deliver(1)], q);
    RunsAppend(p1, [Flush(0)], p2, fill2 + ([Flush(1)] + [Deliver(1)]), q);
    RunsAppend(p, fill1, p1, [Flush(0)] + (fill2 + ([Flush(1)] + [Deliver(1)])), q);
    steps := fill1 + ([Flush(0)] + (fill2 + ([Flush(1)] + [Deliver(1)])));
    assert q.reserved[0][0] == 1 && HandedTo(q.handed, 0)[0] == 2;
  }

  /** The smallest pool in which that happens. */
  lemma {:induction false} SmallestReorder() returns (p: Pool, steps: seq<Step>, q: Pool)
    ensures Initial(p) && CanReorder(p) && |p.private| == |p.memory| == 2 && |p.current| == p.bufferSize == 1
    ensures Runs(p, steps, q) && |q.reserved| == 1 && !(HandedTo(q.handed, 0) <= q.reserved[0])
  {
    p := Pool(1, 0, [0, 1], [], [None], [[], []], [Buffer(0, []), Buffer(0, [])], [[]], []);
    forall b: nat ensures Count(p.free, b) == if b < 2 then 1 else 0 {
      assert [0, 1][1..] == [1] && [1][1..] == [];
      assert Count([1], b) == (if b == 1 then 1 else 0) + Count([], b);
    }
    hide Count, Runs, HandedTo;
    steps, q := TwoCollectorsReorder(p);
  }

  lemma {:induction false} RunsThree(p: Pool, p1: Pool, p2: Pool, q: Pool, steps: seq<Step>)
    requires |steps| == 3
    requires WellFormed(p) && Enabled(p, steps[0]) && Next(p, steps[0]) == p1
    requires WellFormed(p1) && Enabled(p1, steps[1]) && Next(p1, steps[1]) == p2
    requires WellFormed(p2) && Enabled(p2, steps[2]) && Next(p2, steps[2]) == q
    ensures Runs(p, steps, q)
  {
    hide *;
    RunsOne(p2, steps[2]);
    assert steps[2..] == [steps[2]];
    RunsStep(p1, steps[1..], q);
    RunsStep(p, steps, q);
  }

  lemma {:induction false} RunsOne(p: Pool, step: Step)
    requires WellFormed(p) && Enabled(p, step)
    ensures Runs(p, [step], Next(p, step))
  {
    assert [step][1..] == [];
  }

  lemma {:induction false} RunsAppend(p: Pool, x: seq<Step>, q: Pool, y: seq<Step>, r: Pool)
    requires Runs(p, x, q) && Runs(q, y, r)
    ensures Runs(p, x + y, r)
    decreases |x|
  {
    if x == [] {
      assert x + y == y;
    } else {
      assert (x + y)[1..] == x[1..] + y;
      RunsAppend(Next(p, x[0]), x[1..], q, y, r);
    }
  }

  lemma {:induction false} RunsStep(p: Pool, steps: seq<Step>, q: Pool)
    requires steps != [] && WellFormed(p) && Enabled(p, steps[0]) && Runs(Next(p, steps[0]), steps[1..], q)
    ensures Runs(p, steps, q)
  {
  }
}
