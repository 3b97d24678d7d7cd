/**
 The routines that drive the buffers of `EventBuffers`, in their own form: fields
 updated in place and loops.  Each is tied to the steps it takes.
 */
module BufferPools {

  import opened Common
  import opened EventBuffers

  const LARGEST_BUFFER: nat := 16 * 1024 * 1024

  // ---------------------------------------------------------------- pointer reversal

  class ListEntry {
    var next: ListEntry?

    constructor ()
      ensures next == null
    {
      next := null;
    }
  }

  ghost function EntryAt(entries: seq<ListEntry>, i: int): ListEntry? {
    if 0 <= i < |entries| then entries[i] else null
  }

  /** `head` is the first entry of a null-terminated list through exactly `entries`. */
  ghost predicate IsList(head: ListEntry?, entries: seq<ListEntry>)
    reads entries
  {
    && (forall i, j :: 0 <= i < j < |entries| ==> entries[i] != entries[j])
    && head == EntryAt(entries, 0)
    && forall i :: 0 <= i < |entries| ==> entries[i].next == EntryAt(entries, i + 1)
  }

  lemma {:induction false} ReverseAt<T>(s: seq<T>, k: nat)
    requires k < |s|
    ensures Reverse(s)[k] == s[|s| - 1 - k]
    decreases |s|
  {
    if k < |s| - 1 {
      ReverseAt(s[1..], k);
    }
  }

  /** Entries linked from the last to the first form the reversed list. */
  lemma {:induction false} BackwardsIsList(head: ListEntry?, entries: seq<ListEntry>)
    requires forall i, j :: 0 <= i < j < |entries| ==> entries[i] != entries[j]
    requires head == EntryAt(entries, |entries| - 1)
    requires forall i :: 0 <= i < |entries| ==> entries[i].next == EntryAt(entries, i - 1)
    ensures IsList(head, Reverse(entries))
  {
    var reversed := Reverse(entries);
    forall k | 0 <= k < |entries| ensures reversed[k] == entries[|entries| - 1 - k] {
      ReverseAt(entries, k);
    }
    hide Reverse;
    forall k | 0 <= k < |entries| ensures reversed[k].next == EntryAt(reversed, k + 1) {
      assert reversed[k].next == EntryAt(entries, |entries| - 1 - k - 1);
    }
  }

  /** Turns the flushed stack, newest buffer first, into the order of processing. */
  method ReverseSlist(list: ListEntry?, ghost entries: seq<ListEntry>) returns (head: ListEntry?)
    requires IsList(list, entries)
    modifies entries
    ensures IsList(head, Reverse(entries))
  {
    hide Reverse;
    var current := list;
    var prev: ListEntry? := null;
    ghost var done := 0;
    while current != null
      invariant done <= |entries|
      invariant current == EntryAt(entries, done)
      invariant prev == EntryAt(entries, done - 1)
      invariant forall i :: 0 <= i < done ==> entries[i].next == EntryAt(entries, i - 1)
      invariant forall i :: done <= i < |entries| ==> entries[i].next == EntryAt(entries, i + 1)
      decreases |entries| - done
    {
      assert current == entries[done];
      var next := current.next;
      current.next := prev;
      prev := current;
      current := next;
      done := done + 1;
    }
    head := prev;
    BackwardsIsList(head, entries);
  }

  // ---------------------------------------------------------------- sizes

  /** Net size plus guard, in 32 bits. */
  function Gross(net: nat, guard: nat): nat {
    (net + guard) % ULONG_RANGE
  }

  /** The size check at the start of `GetBuffer`. */
  predicate Accepted(net: nat, guard: nat, bufferSize: nat) {
    net != 0 && Gross(net, guard) <= bufferSize
  }

  /**
   An accepted request fits into a buffer exactly if adding the guard does not wrap
   around; one that wraps is accepted although it is larger than any buffer.
   */
  lemma {:induction false} AcceptedFits(net: nat, guard: nat, bufferSize: nat)
    requires 0 < net < ULONG_RANGE && guard <= 4 && 4 <= bufferSize <= LARGEST_BUFFER
    ensures Accepted(net, guard, bufferSize) ==> (net + guard <= bufferSize <==> net + guard < ULONG_RANGE)
    ensures Accepted(net, guard, bufferSize) <==> net + guard <= bufferSize || net + guard >= ULONG_RANGE
  {
    if net + guard >= ULONG_RANGE {
      assert Gross(net, guard) == net + guard - ULONG_RANGE;
    }
  }

  // ---------------------------------------------------------------- the global state

  datatype Status = Success | Timeout | Unsuccessful | PatchesActive

  /** Where a reserved slice lies. */
  datatype Slice = Slice(buffer: nat, offset: nat)

  // ---------------------------------------------------------------- steps taken

  lemma {:induction false} NoSteps(p: Pool)
    ensures ExclusiveRun(p, [], p) && Runs(p, [], p)
  {
  }

  /** What holds of the buffers whatever the collectors do. */
  ghost predicate Kept(p: Pool) {
    Conserved(p) && WellFormed(p) && FreeEmpty(p) && InBounds(p)
  }

  /** `q` is reached by `steps`, and exclusively if nobody else was at work. */
  ghost predicate Takes(p: Pool, steps: seq<Step>, q: Pool, alone: bool) {
    Runs(p, steps, q) && (alone ==> ExclusiveRun(p, steps, q))
  }

  lemma {:induction false} ExclusiveAppend(p: Pool, x: seq<Step>, q: Pool, y: seq<Step>, r: Pool)
    requires ExclusiveRun(p, x, q) && ExclusiveRun(q, y, r)
    ensures ExclusiveRun(p, x + y, r)
    decreases |x|
  {
    if x == [] {
      assert x + y == y;
    } else {
      assert (x + y)[1..] == x[1..] + y;
      ExclusiveAppend(Next(p, x[0]), x[1..], q, y, r);
    }
  }

  lemma {:induction false} ExclusiveOne(p: Pool, step: Step)
    requires WellFormed(p) && Enabled(p, step) && Exclusive(p, step)
    ensures ExclusiveRun(p, [step], Next(p, step))
  {
    assert [step][1..] == [];
  }

  lemma {:induction false} ExclusiveRuns(p: Pool, steps: seq<Step>, q: Pool)
    requires ExclusiveRun(p, steps, q)
    ensures Runs(p, steps, q)
    decreases |steps|
  {
    if steps != [] {
      ExclusiveRuns(Next(p, steps[0]), steps[1..], q);
    }
  }

  lemma {:induction false} TakesAppend(p: Pool, x: seq<Step>, q: Pool, y: seq<Step>, r: Pool, alone: bool)
    requires Takes(p, x, q, alone) && Takes(q, y, r, alone)
    ensures Takes(p, x + y, r, alone)
  {
    RunsAppend(p, x, q, y, r);
    if alone {
      ExclusiveAppend(p, x, q, y, r);
    }
  }

  lemma {:induction false} StartTaking(p: Pool, alone: bool)
    ensures Takes(p, [], p, alone)
  {
  }

  lemma {:induction false} TakesMore(p: Pool, steps: seq<Step>, q: Pool, alone: bool, alone': bool)
    requires Takes(p, steps, q, alone) && (alone' ==> alone)
    ensures Takes(p, steps, q, alone')
  {
  }

  lemma {:induction false} RetireTakes(p: Pool, t: nat, q: Pool, alone: bool)
    requires ExclusiveRun(p, [Retire(t)], q)
    ensures Takes(p, [Retire(t)], q, alone)
  {
    ExclusiveRuns(p, [Retire(t)], q);
  }

  lemma {:induction false} AllDrained(p: Pool, steps: seq<Step>, q: Pool)
    requires Ordered(p) && Takes(p, steps, q, true) && forall t :: 0 <= t < |q.current| ==> Drained(q, t)
    ensures forall t :: 0 <= t < |q.reserved| ==> HandedTo(q.handed, t) == q.reserved[t]
  {
    RunKeepsOrder(p, steps, q);
    forall t | 0 <= t < |q.reserved| ensures HandedTo(q.handed, t) == q.reserved[t] {
      assert InOrder(q, t) && Drained(q, t);
      NothingPrivate(q.private);
    }
  }

  /** The first thread that has patched procedures on its stack, if there is one. */
  function FirstActive(active: seq<bool>): nat {
    if active == [] || active[0] then 0 else 1 + FirstActive(active[1..])
  }

  lemma {:induction false} FirstActiveAt(active: seq<bool>, t: nat)
    requires t <= |active| && (forall u :: 0 <= u < t ==> !active[u]) && (t < |active| ==> active[t])
    ensures FirstActive(active) == t
    decreases t
  {
    if t > 0 {
      FirstActiveAt(active[1..], t - 1);
    }
  }

  /** What the callback is given for the buffers `ids`. */
  function Log(memory: seq<Buffer>, ids: seq<nat>): seq<Delivery> {
    if ids == [] then []
    else Log(memory, ids[..|ids| - 1])
         + (var b := ids[|ids| - 1];
            if b < |memory| then [Delivery(memory[b].thread, memory[b].data)] else [])
  }

  lemma {:induction false} LogNothing(memory: seq<Buffer>, ids: seq<nat>)
    ensures Log(memory, []) == [] && Log(memory, ids[..0]) == [] && Log(memory, Reverse([])) == []
  {
    assert ids[..0] == [];
  }

  lemma {:induction false} LogOneMore(memory: seq<Buffer>, ids: seq<nat>, k: nat)
    requires k < |ids| && ids[k] < |memory|
    ensures Log(memory, ids[..k + 1])
            == Log(memory, ids[..k]) + [Delivery(memory[ids[k]].thread, memory[ids[k]].data)]
  {
    assert ids[..k + 1][..k] == ids[..k];
  }

  /** The buffer at the head of a collector's list is not in the rest of it. */
  lemma {:induction false} QueueDistinct(p: Pool, c: nat)
    requires Kept(p) && c < |p.private| && p.private[c] != []
    ensures forall k :: 1 <= k < |p.private[c]| ==> p.private[c][k] != p.private[c][0]
  {
    var b, rest := p.private[c][0], p.private[c][1..];
    CountConcatUpdate(p.private, c, [], b);
    assert Holders(p, b) == 1;
    assert Count(p.private[c], b) == 1 + Count(rest, b);
    CountMember(rest, b);
    forall k | 1 <= k < |p.private[c]| ensures p.private[c][k] != b {
      assert p.private[c][k] == rest[k - 1];
    }
  }

  lemma {:induction false} StepKeepsFreeEmpty(p: Pool, step: Step)
    requires Conserved(p) && WellFormed(p) && FreeEmpty(p) && Enabled(p, step)
    ensures FreeEmpty(Next(p, step))
  {
    if step.Acquire? {
      ElsewhereAbsent(p, p.free[0]);
    } else if step.Reserve? {
      HeldCounts(p.current, step.t);
      ElsewhereAbsent(p, p.current[step.t].value);
    }
  }

  lemma {:induction false} StepTaken(p: Pool, step: Step, q: Pool)
    requires Kept(p) && Enabled(p, step) && q == Next(p, step)
    ensures Kept(q) && Takes(p, [step], q, Exclusive(p, step))
  {
    hide Next, FreeEmpty, Conserved;
    StepInBounds(p, step);
    RunsOne(p, step);
    ConservedInEveryRun(p, [step], q);
    StepKeepsFreeEmpty(p, step);
    if Exclusive(p, step) {
      ExclusiveOne(p, step);
    }
  }

  lemma {:induction false} StepFilled(p: Pool, step: Step, q: Pool)
    requires Kept(p) && Enabled(p, step) && q == Next(p, step) && EmptyIsFree(p, {}) && NoneEmpty(p.handed)
    ensures EmptyIsFree(q, if step.Acquire? then {step.t} else {}) && NoneEmpty(q.handed)
  {
    hide EmptyIsFree;
    StepKeepsEmptyFree(p, step, {});
    if step.Deliver? {
      DeliveredNotEmpty(p, step.c, {});
    }
    assert step.Acquire? ==> {} + {step.t} == {step.t};
    assert step.Reserve? ==> {} - {step.t} == {};
  }

  lemma {:induction false} FilledWith(p: Pool, t: nat)
    ensures EmptyIsFree(p, {}) ==> EmptyIsFree(p, {t})
  {
  }

  // ---------------------------------------------------------------- the pool

  class BufferPool {
    const bufferSize: nat
    const guard: nat
    var free: seq<nat>
    var dirty: seq<nat>
    var current: seq<Option<nat>>
    var private: seq<seq<nat>>
    var memory: seq<Buffer>
    var handed: seq<Delivery>
    var collectorEvent: bool
    var stopCollector: bool
    ghost var reserved: seq<seq<byte>>

    ghost function State(): Pool
      reads this
    {
      Pool(bufferSize, guard, free, dirty, current, private, memory, reserved, handed)
    }

    /** Only free buffers are empty, apart from the ones that `threads` have just taken. */
    ghost predicate Filled(threads: set<nat>)
      reads this
    {
      EmptyIsFree(State(), threads) && NoneEmpty(handed)
    }

    ghost predicate Valid()
      reads this
    {
      Kept(State()) && Filled({})
    }

    ghost predicate Unoccupied()
      reads this
    {
      forall d :: 0 <= d < |private| ==> private[d] == []
    }

    /** The dirty list can be taken without getting ahead of another collector. */
    ghost predicate Alone()
      reads this
    {
      dirty == [] || Unoccupied()
    }

    /** All buffers free; the first one ends up at the bottom of the stack. */
    constructor (bufferCount: nat, bufferSize: nat, guard: nat, threads: nat, collectors: nat)
      ensures this.bufferSize == bufferSize && this.guard == guard
      ensures Initial(State()) && Valid() && Ordered(State())
      ensures |memory| == |free| == bufferCount && |current| == threads && |private| == collectors
      ensures forall k :: 0 <= k < bufferCount ==> free[k] == bufferCount - 1 - k
      ensures !stopCollector && !collectorEvent
    {
      this.bufferSize, this.guard := bufferSize, guard;
      dirty, handed, collectorEvent, stopCollector := [], [], false, false;
      current := seq(threads, _ => None);
      reserved := seq(threads, _ => []);
      private := seq(collectors, _ => []);
      free, memory := [], [];
      new;
      var k := 0;
      while k < bufferCount
        invariant k <= bufferCount && |memory| == |free| == k
        invariant forall b :: 0 <= b < k ==> free[b] == k - 1 - b
        invariant |current| == threads && |private| == collectors
        invariant forall b: nat :: Count(free, b) == if b < k then 1 else 0
        invariant forall b :: 0 <= b < k ==> memory[b].data == []
        invariant dirty == [] && handed == [] && |reserved| == |current| && !stopCollector && !collectorEvent
        invariant forall t :: 0 <= t < |current| ==> current[t] == None && reserved[t] == []
        invariant forall c :: 0 <= c < |private| ==> private[c] == []
      {
        memory := memory + [Buffer(0, [])];
        ghost var before := free;
        free := [k] + free;
        forall b: nat ensures Count(free, b) == Count(before, b) + if b == k then 1 else 0 {
          assert free[1..] == before;
        }
        k := k + 1;
      }
      InitialOrdered(State());
      InitialEmptyFree(State());
    }

    /** Pushes the thread's current buffer on the dirty list. */
    method PushDirty(t: nat)
      requires Valid() && t < |current| && current[t].Some?
      modifies this
      ensures Valid() && State() == Next(old(State()), Retire(t)) && ExclusiveRun(old(State()), [Retire(t)], State())
      ensures current == old(current)[t := None] && private == old(private) && reserved == old(reserved)
      ensures collectorEvent == old(collectorEvent) && stopCollector == old(stopCollector)
    {
      dirty := [current[t].value] + dirty;
      current := current[t := None];
      StepTaken(old(State()), Retire(t), State());
      StepFilled(old(State()), Retire(t), State());
    }

    /** Pops a free buffer for the thread, if there is one. */
    method PopFree(t: nat)
      requires Valid() && t < |current| && current[t].None? && free != []
      modifies this
      ensures Kept(State()) && Filled({t})
      ensures State() == Next(old(State()), Acquire(t)) && ExclusiveRun(old(State()), [Acquire(t)], State())
      ensures memory[current[t].value].data == []
      ensures collectorEvent == old(collectorEvent) && stopCollector == old(stopCollector)
    {
      var newBuffer := free[0];
      assert memory[newBuffer].data == [];
      free := free[1..];
      memory := memory[newBuffer := memory[newBuffer].(thread := t)];
      current := current[t := Some(newBuffer)];
      StepTaken(old(State()), Acquire(t), State());
      StepFilled(old(State()), Acquire(t), State());
    }

    /** The current buffer of the thread has `required` bytes left. */
    predicate HasRoom(t: nat, required: nat)
      reads this
    {
      && t < |current| && current[t].Some? && current[t].value < |memory|
      && |memory[current[t].value].data| + required <= bufferSize
    }

    /** The dirty list once the thread has given up its buffer, if it has one. */
    ghost function DirtyWith(t: nat): seq<nat>
      requires t < |current|
      reads this
    {
      if current[t].Some? then [current[t].value] + dirty else dirty
    }

    /**
     The thread's buffer if it has room for `required` bytes, otherwise a new one, after
     the old one has been pushed on the dirty list.
     */
    method BufferFor(t: nat, required: nat) returns (b: Option<nat>, ghost steps: seq<Step>)
      requires Valid() && t < |current| && required <= bufferSize
      modifies this
      ensures Kept(State()) && Filled({t}) && (b.None? ==> Filled({})) && ExclusiveRun(old(State()), steps, State())
      ensures reserved == old(reserved) && handed == old(handed) && private == old(private)
      ensures |current| == old(|current|) && |memory| == old(|memory|) && stopCollector == old(stopCollector)
      ensures b == current[t]
      ensures b.Some? ==> |memory[b.value].data| + required <= bufferSize
      ensures old(HasRoom(t, required)) ==>
                b == old(current[t]) && State() == old(State()) && collectorEvent == old(collectorEvent)
      ensures old(!HasRoom(t, required)) ==>
                && dirty == old(DirtyWith(t)) && collectorEvent == (old(collectorEvent) || old(current[t].Some?))
                && b == (if old(free) == [] then None else Some(old(free)[0]))
                && free == (if b.Some? then old(free)[1..] else [])
                && (b.Some? ==> memory[b.value].data == [])
    {
      steps := [];
      if current[t].Some? && bufferSize - |memory[current[t].value].data| < required {
        PushDirty(t);
        steps := [Retire(t)];
        // Notify the collector.
        collectorEvent := true;
      }
      if current[t].None? && free != [] {
        ghost var middle := State();
        PopFree(t);
        ExclusiveAppend(old(State()), steps, middle, [Acquire(t)], State());
        steps := steps + [Acquire(t)];
      }
      b := current[t];
      FilledWith(State(), t);
    }

    /**
     Reserves `net` bytes for the thread, which fills them with `bytes`.  A request is
     refused if it is empty, larger than a buffer, or if no buffer is left.
     */
    method GetBuffer(t: nat, net: nat, bytes: seq<byte>) returns (slice: Option<Slice>, ghost steps: seq<Step>)
      requires Valid() && t < |current| && |bytes| == net && net + guard < ULONG_RANGE
      modifies this
      ensures Valid() && ExclusiveRun(old(State()), steps, State())
      ensures handed == old(handed) && private == old(private) && |current| == old(|current|)
      ensures net == 0 || net + guard > bufferSize ==> slice == None && State() == old(State())
      ensures 0 < net && old(HasRoom(t, net + guard)) ==>
                && slice == Some(Slice(old(current[t].value), old(|memory[current[t].value].data|)))
                && current == old(current) && free == old(free) && dirty == old(dirty)
      ensures 0 < net && net + guard <= bufferSize && old(!HasRoom(t, net + guard)) ==>
                && slice == (if old(free) == [] then None else Some(Slice(old(free)[0], 0)))
                && dirty == old(DirtyWith(t)) && (old(current[t].Some?) ==> collectorEvent)
      ensures slice == None ==> reserved == old(reserved)
      ensures slice.Some? ==>
                && current[t] == Some(slice.value.buffer)
                && slice.value.offset + net + guard <= bufferSize
                && |memory[slice.value.buffer].data| == slice.value.offset + net
                && memory[slice.value.buffer].data[slice.value.offset..] == bytes
                && reserved == old(reserved)[t := old(reserved)[t] + bytes]
    {
      hide EmptyIsFree, NoneEmpty;
      slice, steps := None, [];
      if net == 0 || Gross(net, guard) > bufferSize {
        return;
      }
      var b;
      b, steps := BufferFor(t, Gross(net, guard));
      if b.Some? {
        ghost var middle := State();
        var data := memory[b.value].data;
        slice := Some(Slice(b.value, |data|));
        memory := memory[b.value := memory[b.value].(data := data + bytes)];
        reserved := reserved[t := reserved[t] + bytes];
        StepTaken(middle, Reserve(t, bytes), State());
        StepKeepsEmptyFree(middle, Reserve(t, bytes), {t});
        assert {t} - {t} == {};
        ExclusiveAppend(old(State()), steps, middle, [Reserve(t, bytes)], State());
        steps := steps + [Reserve(t, bytes)];
      }
    }

    /** Called by a thread that is about to exit. */
    method TeardownThreadData(t: nat) returns (ghost steps: seq<Step>)
      requires Valid() && t < |current|
      modifies this
      ensures Valid() && ExclusiveRun(old(State()), steps, State())
      ensures current == old(current)[t := None] && dirty == old(DirtyWith(t)) && free == old(free)
      ensures reserved == old(reserved) && handed == old(handed)
    {
      steps := [];
      if current[t].Some? {
        PushDirty(t);
        steps := [Retire(t)];
      }
    }

    /** Takes the whole dirty list, turned so that the oldest buffer comes first. */
    method FlushDirty(c: nat)
      requires Valid() && c < |private| && private[c] == []
      modifies this
      ensures Valid() && State() == Next(old(State()), Flush(c))
      ensures Takes(old(State()), [Flush(c)], State(), old(Alone()))
      ensures dirty == [] && private == old(private)[c := Reverse(old(dirty))]
      ensures current == old(current) && memory == old(memory) && handed == old(handed) && reserved == old(reserved)
      ensures collectorEvent == old(collectorEvent) && stopCollector == old(stopCollector)
    {
      private := private[c := Reverse(dirty)];
      dirty := [];
      StepTaken(old(State()), Flush(c), State());
      StepFilled(old(State()), Flush(c), State());
    }

    /** Calls back for the next buffer of the collector's list and puts it on the free list. */
    method DeliverNext(c: nat)
      requires Valid() && c < |private| && private[c] != []
      modifies this
      ensures Valid() && State() == Next(old(State()), Deliver(c)) && ExclusiveRun(old(State()), [Deliver(c)], State())
      ensures old(private[c][0]) < |memory| == old(|memory|)
      ensures private == old(private)[c := old(private)[c][1..]] && dirty == old(dirty)
      ensures current == old(current) && reserved == old(reserved)
      ensures memory == old(memory[private[c][0] := memory[private[c][0]].(data := [])])
      ensures handed == old(handed + [Delivery(memory[private[c][0]].thread, memory[private[c][0]].data)])
      ensures collectorEvent == old(collectorEvent) && stopCollector == old(stopCollector)
    {
      var b := private[c][0];
      handed := handed + [Delivery(memory[b].thread, memory[b].data)];
      memory := memory[b := memory[b].(data := [])];
      private := private[c := private[c][1..]];
      free := [b] + free;
      StepTaken(old(State()), Deliver(c), State());
      StepFilled(old(State()), Deliver(c), State());
    }

    /** Flushes the dirty list, waiting for the event while there is nothing on it. */
    method FlushOrWait(c: nat) returns (timeout: bool, ghost steps: seq<Step>)
      requires Valid() && c < |private| && private[c] == []
      modifies this
      ensures Valid() && Takes(old(State()), steps, State(), old(Alone()))
      ensures dirty == [] && private == old(private)[c := Reverse(old(dirty))]
      ensures current == old(current) && memory == old(memory) && handed == old(handed) && reserved == old(reserved)
      ensures stopCollector == old(stopCollector)
      ensures timeout <==> old(dirty) == [] && !stopCollector
      ensures timeout ==> !collectorEvent
    {
      hide Next, Takes, EmptyIsFree, NoneEmpty;
      FlushDirty(c);
      timeout, steps := false, [Flush(c)];
      assert private[c] == [] <==> old(dirty) == [];
      while private[c] == [] && !stopCollector
        invariant Valid() && Takes(old(State()), steps, State(), old(Alone())) && !timeout
        invariant dirty == [] && private == old(private)[c := Reverse(old(dirty))]
        invariant current == old(current) && memory == old(memory) && handed == old(handed) && reserved == old(reserved)
        invariant stopCollector == old(stopCollector)
        decreases collectorEvent
      {
        if !collectorEvent {
          return true, steps;
        }
        collectorEvent := false;
        ghost var before := State();
        FlushDirty(c);
        TakesMore(before, [Flush(c)], State(), Alone(), old(Alone()));
        TakesAppend(old(State()), steps, before, [Flush(c)], State(), old(Alone()));
        steps := steps + [Flush(c)];
      }
    }

    /** Calls back for every buffer of the collector's list. */
    method DeliverAll(c: nat) returns (ghost steps: seq<Step>)
      requires Valid() && c < |private|
      modifies this
      ensures Valid() && ExclusiveRun(old(State()), steps, State())
      ensures dirty == old(dirty) && current == old(current) && reserved == old(reserved)
      ensures private == old(private)[c := []]
      ensures handed == old(handed) + Log(old(memory), old(private[c]))
      ensures collectorEvent == old(collectorEvent) && stopCollector == old(stopCollector)
    {
      hide Next, ExclusiveRun, Kept, Log, EmptyIsFree, NoneEmpty;
      ghost var queue := private[c];
      ghost var done := 0;
      steps := [];
      LogNothing(memory, queue);
      NoSteps(State());
      while private[c] != []
        invariant Valid() && ExclusiveRun(old(State()), steps, State())
        invariant c < |private| && done <= |queue| && private == old(private)[c := queue[done..]]
        invariant dirty == old(dirty) && current == old(current) && reserved == old(reserved)
        invariant collectorEvent == old(collectorEvent) && stopCollector == old(stopCollector)
        invariant |memory| == old(|memory|)
        invariant forall k :: done <= k < |queue| ==> queue[k] < |memory| ==> memory[queue[k]] == old(memory)[queue[k]]
        invariant handed == old(handed) + Log(old(memory), queue[..done])
        decreases |private[c]|
      {
        ghost var before := State();
        QueueDistinct(before, c);
        DeliverNext(c);
        ExclusiveAppend(old(State()), steps, before, [Deliver(c)], State());
        steps := steps + [Deliver(c)];
        LogOneMore(old(memory), queue, done);
        done := done + 1;
      }
      assert queue[..done] == queue;
    }

    /**
     Processes what is dirty when it is called, oldest buffer first.  If nothing is, it
     waits for the event, which the model does not set meanwhile, and times out.
     */
    method ProcessBuffers(c: nat) returns (status: Status, ghost steps: seq<Step>)
      requires Valid() && c < |private| && private[c] == []
      modifies this
      ensures Valid() && Takes(old(State()), steps, State(), old(Alone()))
      ensures dirty == [] && current == old(current) && reserved == old(reserved) && private == old(private)
      ensures handed == old(handed) + Log(old(memory), Reverse(old(dirty)))
      ensures stopCollector == old(stopCollector)
      ensures status == (if old(dirty) != [] then Success else if stopCollector then Unsuccessful else Timeout)
    {
      hide Next, ExclusiveRun, Runs, Kept, Log, EmptyIsFree, NoneEmpty;
      var timeout;
      timeout, steps := FlushOrWait(c);
      if timeout {
        LogNothing(memory, private[c]);
        return Timeout, steps;
      }
      if private[c] == [] {
        LogNothing(memory, private[c]);
        return Unsuccessful, steps;
      }
      ghost var before, more := State(), [];
      more := DeliverAll(c);
      ExclusiveRuns(before, more, State());
      TakesAppend(old(State()), steps, before, more, State(), old(Alone()));
      return Success, steps + more;
    }

    /** Calls back until nothing is left; the first part of shutting the collector down. */
    method DrainBuffers(c: nat) returns (ghost steps: seq<Step>)
      requires Valid() && c < |private| && private[c] == [] && !stopCollector
      modifies this
      ensures Valid() && Takes(old(State()), steps, State(), old(Alone()))
      ensures dirty == [] && current == old(current) && reserved == old(reserved) && private == old(private)
      ensures handed == old(handed) + Log(old(memory), Reverse(old(dirty)))
    {
      hide Next, Takes, Kept, Log, EmptyIsFree, NoneEmpty;
      var status;
      status, steps := ProcessBuffers(c);
      while status != Timeout
        invariant Valid() && Takes(old(State()), steps, State(), old(Alone()))
        invariant (status == Success || status == Timeout) && !stopCollector
        invariant dirty == [] && current == old(current) && reserved == old(reserved) && private == old(private)
        invariant handed == old(handed) + Log(old(memory), Reverse(old(dirty)))
        decreases status == Success
      {
        ghost var before, more := State(), [];
        LogNothing(memory, []);
        status, more := ProcessBuffers(c);
        TakesMore(before, more, State(), true, old(Alone()));
        TakesAppend(old(State()), steps, before, more, State(), old(Alone()));
        steps := steps + more;
      }
    }

    /**
     Takes the buffers away from all threads and drains them.  It stops at the first thread
     with patched procedures on its stack; threads before it have lost their buffers by then.
     After a success the callback has seen everything any thread has ever written.
     */
    method Uninitialize(c: nat, active: seq<bool>) returns (status: Status, ghost steps: seq<Step>)
      requires Valid() && c < |private| && private[c] == [] && !stopCollector && |active| == |current|
      modifies this
      ensures Valid() && Takes(old(State()), steps, State(), old(Unoccupied()))
      ensures status == if FirstActive(active) < |active| then PatchesActive else Success
      ensures reserved == old(reserved) && private == old(private)
      ensures |current| == old(|current|)
      ensures forall t :: 0 <= t < |current| ==>
                            current[t] == if t < FirstActive(active) then None else old(current)[t]
      ensures status == Success ==> dirty == []
      ensures status == Success && old(Unoccupied() && Ordered(State())) ==>
                forall t :: 0 <= t < |reserved| ==> HandedTo(handed, t) == reserved[t]
      ensures NoneEmpty(handed)
    {
      hide Next, Takes, Kept, Ordered, Log, EmptyIsFree, NoneEmpty;
      steps := [];
      NoSteps(State());
      StartTaking(State(), old(Unoccupied()));
      var t := 0;
      while t < |current|
        invariant t <= |current| == old(|current|) && Valid()
        invariant Takes(old(State()), steps, State(), old(Unoccupied()))
        invariant private == old(private) && reserved == old(reserved) && !stopCollector
        invariant forall u :: 0 <= u < t ==> !active[u]
        invariant forall u :: 0 <= u < |current| ==> current[u] == if u < t then None else old(current)[u]
      {
        if active[t] {
          FirstActiveAt(active, t);
          return PatchesActive, steps;
        }
        if current[t].Some? {
          ghost var before := State();
          PushDirty(t);
          RetireTakes(before, t, State(), old(Unoccupied()));
          TakesAppend(old(State()), steps, before, [Retire(t)], State(), old(Unoccupied()));
          steps := steps + [Retire(t)];
        }
        t := t + 1;
      }
      FirstActiveAt(active, t);
      ghost var before, alone, more := State(), Alone(), [];
      more := DrainBuffers(c);
      TakesMore(before, more, State(), alone, old(Unoccupied()));
      TakesAppend(old(State()), steps, before, more, State(), old(Unoccupied()));
      steps := steps + more;
      if old(Unoccupied() && Ordered(State())) {
        AllDrained(old(State()), steps, State());
      }
      return Success, steps;
    }
  }
}
