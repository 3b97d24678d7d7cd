/**
 The shadow stack of a thread: return addresses of intercepted calls, and the exception
 registration records hijacked on their behalf.

 A thread is described by the calls in progress, each with the number of registration
 records that existed when it was entered, and by the handlers the program registered.
 `Represents` says which frames and which registration records go with such a
 description; every entry, exit and unwind keeps it.
 */
module ThunkStack {

  import opened Common

  const LOCATIONS: nat := 256
  const BOTTOM: nat := 255 // the slot of the sentinel below the first frame
  const NO_RETURN: nat := 0xDEADBEEF

  /** What a registration record points to: a handler of the program, or the hijacking one. */
  datatype Handler = Own(id: nat) | Thunk

  /** The exception handling part of a frame. `registering` is a slot. */
  datatype Seh =
    | NoRecord(registering: Option<nat>)
    | OwnRecord(record: nat, original: Handler, frameCount: nat)

  datatype Frame = Frame(procedure: nat, returnAddress: nat, seh: Seh)

  /** A call in progress, entered with `height` registration records in the chain. */
  datatype Activation = Activation(procedure: nat, returnAddress: nat, height: nat)

  datatype EntryStatus = Intercepted | StackOverflow | FrameNotFound

  // ---------------------------------------------------------------- representation

  /** The slot of the `k`th call, counted from the oldest. */
  function Slot(k: nat): nat
    requires k < BOTTOM
  {
    BOTTOM - 1 - k
  }

  ghost predicate Ordered(calls: seq<Activation>) {
    forall i, j :: 0 <= i < j < |calls| ==> calls[i].height <= calls[j].height
  }

  /** No older call was entered under the same record. */
  ghost predicate IsOldest(calls: seq<Activation>, k: nat)
    requires k < |calls|
  {
    forall j :: 0 <= j < k ==> calls[j].height != calls[k].height
  }

  /** How many of the `n` oldest calls were entered with `height` records. */
  function CountAt(calls: seq<Activation>, height: nat, n: nat): nat
    requires n <= |calls|
  {
    if n == 0 then 0 else CountAt(calls, height, n - 1) + if calls[n - 1].height == height then 1 else 0
  }

  /** What the exception handling part of the `k`th frame has to be. */
  ghost predicate SehMatches(seh: Seh, calls: seq<Activation>, orig: seq<nat>, k: nat)
    requires k < |calls| < LOCATIONS
  {
    var height := calls[k].height;
    match seh
    case NoRecord(None) => height == 0
    case NoRecord(Some(slot)) =>
      0 < height && slot < BOTTOM && Slot(slot) < k
      && calls[Slot(slot)].height == height && IsOldest(calls, Slot(slot))
    case OwnRecord(record, original, frameCount) =>
      height == record + 1 && record < |orig| && original == Own(orig[record])
      && IsOldest(calls, k) && frameCount == CountAt(calls, height, |calls|)
  }

  ghost predicate FrameMatches(frames: seq<Frame>, calls: seq<Activation>, orig: seq<nat>, k: nat)
    requires |frames| == LOCATIONS && k < |calls| < LOCATIONS
  {
    var frame := frames[Slot(k)];
    frame.procedure == calls[k].procedure && frame.returnAddress == calls[k].returnAddress
    && SehMatches(frame.seh, calls, orig, k)
  }

  ghost predicate InUse(calls: seq<Activation>, record: nat) {
    exists k :: 0 <= k < |calls| && calls[k].height == record + 1
  }

  /** A record is hijacked while a call entered under it is in progress, or when it is stale. */
  ghost predicate RecordMatches(chain: seq<Handler>, calls: seq<Activation>, orig: seq<nat>, stale: set<nat>, r: nat)
    requires r < |chain| == |orig|
  {
    chain[r] == if InUse(calls, r) || r in stale then Thunk else Own(orig[r])
  }

  /**
     The thread has the given calls in progress and the program has registered the handlers
     `orig`, oldest first.  `stale` are the records that stayed hijacked when the frame
     holding their handler was unwound.
   */
  ghost predicate Represents(
    frames: seq<Frame>, sp: nat, chain: seq<Handler>, calls: seq<Activation>, orig: seq<nat>, stale: set<nat>)
  {
    && |frames| == LOCATIONS && |calls| < LOCATIONS && sp == BOTTOM - |calls|
    && frames[BOTTOM].returnAddress == NO_RETURN
    && Ordered(calls) && (forall k :: 0 <= k < |calls| ==> calls[k].height <= |orig|)
    && (forall k :: 0 <= k < |calls| ==> FrameMatches(frames, calls, orig, k))
    && |chain| == |orig| && (forall r :: 0 <= r < |chain| ==> RecordMatches(chain, calls, orig, stale, r))
    && (forall r :: r in stale ==> r < |orig| && !InUse(calls, r))
  }

  // ---------------------------------------------------------------- what the representation says

  lemma {:induction false} CountAppend(calls: seq<Activation>, a: Activation, height: nat, n: nat)
    requires n <= |calls|
    ensures CountAt(calls + [a], height, n) == CountAt(calls, height, n)
  {
    if n > 0 {
      CountAppend(calls, a, height, n - 1);
    }
  }

  lemma {:induction false} OldestExists(calls: seq<Activation>, k: nat) returns (j: nat)
    requires k < |calls|
    ensures j <= k && IsOldest(calls, j) && calls[j].height == calls[k].height
  {
    if IsOldest(calls, k) {
      j := k;
    } else {
      var i :| 0 <= i < k && calls[i].height == calls[k].height;
      j := OldestExists(calls, i);
    }
  }

  /** The oldest call under a record is the one whose frame holds its handler. */
  lemma {:induction false} OldestOwns(seh: Seh, calls: seq<Activation>, orig: seq<nat>, k: nat)
    requires k < |calls| < LOCATIONS && SehMatches(seh, calls, orig, k) && 0 < calls[k].height
    ensures IsOldest(calls, k) <==> seh.OwnRecord?
  {
  }

  /** The frames, from `sp` down to the bottom, that hold the handler of `record`. */
  ghost predicate Holds(frames: seq<Frame>, sp: nat, slot: nat, record: nat)
    requires |frames| == LOCATIONS
  {
    sp <= slot < BOTTOM && frames[slot].seh.OwnRecord? && frames[slot].seh.record == record
  }

  lemma {:induction false} HolderIsOldest(
    frames: seq<Frame>, sp: nat, chain: seq<Handler>, calls: seq<Activation>, orig: seq<nat>, stale: set<nat>,
    slot: nat, record: nat)
    requires Represents(frames, sp, chain, calls, orig, stale) && Holds(frames, sp, slot, record)
    ensures Slot(slot) < |calls| && record < |orig| && InUse(calls, record)
    ensures IsOldest(calls, Slot(slot)) && calls[Slot(slot)].height == record + 1
    ensures frames[slot].seh == OwnRecord(record, Own(orig[record]), CountAt(calls, record + 1, |calls|))
  {
    assert FrameMatches(frames, calls, orig, Slot(slot));
  }

  lemma {:induction false} HolderExists(
    frames: seq<Frame>, sp: nat, chain: seq<Handler>, calls: seq<Activation>, orig: seq<nat>, stale: set<nat>, record: nat)
    returns (slot: nat)
    requires Represents(frames, sp, chain, calls, orig, stale) && InUse(calls, record)
    ensures Holds(frames, sp, slot, record)
  {
    var k :| 0 <= k < |calls| && calls[k].height == record + 1;
    var j := OldestExists(calls, k);
    assert FrameMatches(frames, calls, orig, j);
    OldestOwns(frames[Slot(j)].seh, calls, orig, j);
    slot := Slot(j);
  }

  lemma {:induction false} HolderUnique(
    frames: seq<Frame>, sp: nat, chain: seq<Handler>, calls: seq<Activation>, orig: seq<nat>, stale: set<nat>,
    slot: nat, slot': nat, record: nat)
    requires Represents(frames, sp, chain, calls, orig, stale)
    requires Holds(frames, sp, slot, record) && Holds(frames, sp, slot', record)
    ensures slot == slot'
  {
    hide Represents;
    HolderIsOldest(frames, sp, chain, calls, orig, stale, slot, record);
    HolderIsOldest(frames, sp, chain, calls, orig, stale, slot', record);
    assert IsOldest(calls, Slot(slot)) && IsOldest(calls, Slot(slot'));
  }

  /** A record that is not stale is hijacked iff exactly one frame holds its original handler. */
  lemma {:induction false} HijackedIffOneHolder(
    frames: seq<Frame>, sp: nat, chain: seq<Handler>, calls: seq<Activation>, orig: seq<nat>, stale: set<nat>, record: nat)
    requires Represents(frames, sp, chain, calls, orig, stale) && record < |chain| && record !in stale
    ensures chain[record] == Thunk <==>
            exists slot: nat :: Holds(frames, sp, slot, record) && frames[slot].seh.original == Own(orig[record])
                           && forall slot': nat :: Holds(frames, sp, slot', record) ==> slot' == slot
  {
    assert RecordMatches(chain, calls, orig, stale, record);
    hide Represents;
    if InUse(calls, record) {
      var slot := HolderExists(frames, sp, chain, calls, orig, stale, record);
      HolderIsOldest(frames, sp, chain, calls, orig, stale, slot, record);
      forall slot' | Holds(frames, sp, slot', record) ensures slot' == slot {
        HolderUnique(frames, sp, chain, calls, orig, stale, slot', slot, record);
      }
    } else if slot :| Holds(frames, sp, slot, record) {
      HolderIsOldest(frames, sp, chain, calls, orig, stale, slot, record);
    }
  }

  /** A stale record stays hijacked though no frame holds its handler. */
  lemma {:induction false} StaleHasNoHolder(
    frames: seq<Frame>, sp: nat, chain: seq<Handler>, calls: seq<Activation>, orig: seq<nat>, stale: set<nat>, record: nat)
    requires Represents(frames, sp, chain, calls, orig, stale) && record in stale
    ensures record < |chain| && chain[record] == Thunk
    ensures forall slot: nat :: !Holds(frames, sp, slot, record)
  {
    assert RecordMatches(chain, calls, orig, stale, record);
    forall slot | Holds(frames, sp, slot, record) ensures false {
      HolderIsOldest(frames, sp, chain, calls, orig, stale, slot, record);
    }
  }

  /** How many of the `n` oldest frames refer to the frame in `slot`. */
  function CountReferring(frames: seq<Frame>, slot: nat, n: nat): nat
    requires |frames| == LOCATIONS && n <= BOTTOM
  {
    if n == 0 then 0
    else CountReferring(frames, slot, n - 1) + if frames[Slot(n - 1)].seh == NoRecord(Some(slot)) then 1 else 0
  }

  lemma {:induction false} CountsAgree(
    frames: seq<Frame>, sp: nat, chain: seq<Handler>, calls: seq<Activation>, orig: seq<nat>, stale: set<nat>,
    slot: nat, record: nat, n: nat)
    requires Represents(frames, sp, chain, calls, orig, stale) && Holds(frames, sp, slot, record) && n <= |calls|
    ensures CountAt(calls, record + 1, n) == CountReferring(frames, slot, n) + if Slot(slot) < n then 1 else 0
  {
    HolderIsOldest(frames, sp, chain, calls, orig, stale, slot, record);
    if n > 0 {
      var k := n - 1;
      CountsAgree(frames, sp, chain, calls, orig, stale, slot, record, k);
      assert FrameMatches(frames, calls, orig, k);
      var seh := frames[Slot(k)].seh;
      if calls[k].height == record + 1 && k != Slot(slot) {
        OldestOwns(seh, calls, orig, k);
        assert !IsOldest(calls, k);
        assert IsOldest(calls, Slot(seh.registering.value));
      }
    }
  }

  /** The frame count of a registering frame is one more than the frames that refer to it. */
  lemma {:induction false} FrameCountIsReferences(
    frames: seq<Frame>, sp: nat, chain: seq<Handler>, calls: seq<Activation>, orig: seq<nat>, stale: set<nat>,
    slot: nat, record: nat)
    requires Represents(frames, sp, chain, calls, orig, stale) && Holds(frames, sp, slot, record)
    ensures frames[slot].seh.frameCount == 1 + CountReferring(frames, slot, |calls|)
  {
    HolderIsOldest(frames, sp, chain, calls, orig, stale, slot, record);
    CountsAgree(frames, sp, chain, calls, orig, stale, slot, record, |calls|);
  }

  /** With no call in progress and nothing stale, every record has its own handler back. */
  lemma {:induction false} AllHandlersRestored(
    frames: seq<Frame>, sp: nat, chain: seq<Handler>, calls: seq<Activation>, orig: seq<nat>, stale: set<nat>)
    requires Represents(frames, sp, chain, calls, orig, stale)
    ensures calls == [] && stale == {} ==> sp == BOTTOM
    ensures calls == [] ==> ((forall r :: 0 <= r < |chain| ==> chain[r] == Own(orig[r])) <==> stale == {})
  {
    if calls == [] {
      forall r | 0 <= r < |chain| ensures chain[r] == if r in stale then Thunk else Own(orig[r]) {
        assert RecordMatches(chain, calls, orig, stale, r);
      }
      if r :| r in stale {
        assert r < |chain| && chain[r] != Own(orig[r]);
      }
    }
  }

  /** The handlers are determined by the calls in progress, not by how they were reached. */
  lemma {:induction false} ChainDetermined(
    frames: seq<Frame>, frames': seq<Frame>, sp: nat, sp': nat, chain: seq<Handler>, chain': seq<Handler>,
    calls: seq<Activation>, orig: seq<nat>, stale: set<nat>)
    requires Represents(frames, sp, chain, calls, orig, stale) && Represents(frames', sp', chain', calls, orig, stale)
    ensures sp == sp' && chain == chain'
  {
    forall r | 0 <= r < |chain| ensures chain[r] == chain'[r] {
      assert RecordMatches(chain, calls, orig, stale, r) && RecordMatches(chain', calls, orig, stale, r);
    }
  }

  // ---------------------------------------------------------------- steps

  /** The exception handling part of a frame when a call `a` is entered. */
  function CountedUp(seh: Seh, a: Activation): Seh {
    if seh.OwnRecord? && seh.record + 1 == a.height then seh.(frameCount := seh.frameCount + 1) else seh
  }

  lemma {:induction false} OldestAppend(calls: seq<Activation>, a: Activation, k: nat)
    requires k < |calls|
    ensures IsOldest(calls, k) <==> IsOldest(calls + [a], k)
  {
    var calls' := calls + [a];
    assert forall j :: 0 <= j <= k ==> calls'[j] == calls[j];
  }

  lemma {:induction false} SehAfterCall(seh: Seh, calls: seq<Activation>, a: Activation, orig: seq<nat>, k: nat)
    requires k < |calls| < LOCATIONS - 1
    ensures SehMatches(seh, calls, orig, k) <==> SehMatches(CountedUp(seh, a), calls + [a], orig, k)
  {
    CountAppend(calls, a, calls[k].height, |calls|);
    OldestAppend(calls, a, k);
    if seh.NoRecord? && seh.registering.Some? && seh.registering.value < BOTTOM && Slot(seh.registering.value) < k {
      var j := Slot(seh.registering.value);
      OldestAppend(calls, a, j);
    }
  }

  /** Entering a call under a record changes the chain at most at that record. */
  lemma {:induction false} InUseAfterCall(calls: seq<Activation>, a: Activation, r: nat)
    ensures InUse(calls + [a], r) <==> InUse(calls, r) || a.height == r + 1
  {
    var calls' := calls + [a];
    if InUse(calls, r) {
      var k :| 0 <= k < |calls| && calls[k].height == r + 1;
      assert calls'[k].height == r + 1;
    }
    if a.height == r + 1 {
      assert calls'[|calls|].height == r + 1;
    }
  }

  lemma {:induction false} CallEntered(
    frames: seq<Frame>, frames': seq<Frame>, sp: nat, chain: seq<Handler>, chain': seq<Handler>,
    calls: seq<Activation>, a: Activation, orig: seq<nat>, stale: set<nat>)
    requires Represents(frames, sp, chain, calls, orig, stale) && 0 < sp && a.height == |orig|
    requires forall r :: r in stale ==> r + 1 != |orig|
    requires |frames'| == LOCATIONS && frames'[BOTTOM] == frames[BOTTOM]
    requires forall k :: 0 <= k < |calls| ==> frames'[Slot(k)] == frames[Slot(k)].(seh := CountedUp(frames[Slot(k)].seh, a))
    requires frames'[sp - 1].procedure == a.procedure && frames'[sp - 1].returnAddress == a.returnAddress
    requires SehMatches(frames'[sp - 1].seh, calls + [a], orig, |calls|)
    requires chain' == if chain == [] then [] else chain[|chain| - 1 := Thunk]
    ensures Represents(frames', sp - 1, chain', calls + [a], orig, stale)
  {
    hide SehMatches, InUse, CountAt, CountedUp;
    var calls' := calls + [a];
    forall k | 0 <= k < |calls'| ensures FrameMatches(frames', calls', orig, k) {
      if k < |calls| {
        assert FrameMatches(frames, calls, orig, k);
        SehAfterCall(frames[Slot(k)].seh, calls, a, orig, k);
      }
    }
    forall r | 0 <= r < |chain'| ensures RecordMatches(chain', calls', orig, stale, r) {
      assert RecordMatches(chain, calls, orig, stale, r);
      InUseAfterCall(calls, a, r);
    }
    forall r | r in stale ensures !InUse(calls', r) {
      InUseAfterCall(calls, a, r);
    }
  }

  lemma {:induction false} CallReturned(
    frames: seq<Frame>, frames': seq<Frame>, sp: nat, chain: seq<Handler>, chain': seq<Handler>,
    calls: seq<Activation>, a: Activation, orig: seq<nat>, stale: set<nat>)
    requires Represents(frames, sp, chain, calls + [a], orig, stale) && a.height == |orig|
    requires |frames'| == LOCATIONS && frames'[BOTTOM] == frames[BOTTOM]
    requires forall k :: 0 <= k < |calls| ==> frames[Slot(k)] == frames'[Slot(k)].(seh := CountedUp(frames'[Slot(k)].seh, a))
    requires chain' == if frames[sp].seh.OwnRecord? && frames[sp].seh.record < |chain|
                       then chain[frames[sp].seh.record := frames[sp].seh.original] else chain
    ensures Represents(frames', sp + 1, chain', calls, orig, stale)
  {
    hide SehMatches, InUse, CountAt, CountedUp;
    var calls' := calls + [a];
    assert sp == Slot(|calls|);
    forall k | 0 <= k < |calls| ensures FrameMatches(frames', calls, orig, k) {
      assert FrameMatches(frames, calls', orig, k);
      SehAfterCall(frames'[Slot(k)].seh, calls, a, orig, k);
    }
    forall k | 0 <= k < |calls| ensures calls[k].height <= |orig| {
      assert calls'[k] == calls[k];
    }
    assert Ordered(calls) by {
      assert forall k :: 0 <= k < |calls| ==> calls'[k] == calls[k];
    }
    forall r | 0 <= r < |chain'| ensures RecordMatches(chain', calls, orig, stale, r) {
      RecordAfterReturn(frames, frames', sp, chain, chain', calls, a, orig, stale, r);
    }
    forall r | r in stale ensures !InUse(calls, r) {
      InUseAfterCall(calls, a, r);
    }
  }

  lemma {:induction false} RecordAfterReturn(
    frames: seq<Frame>, frames': seq<Frame>, sp: nat, chain: seq<Handler>, chain': seq<Handler>,
    calls: seq<Activation>, a: Activation, orig: seq<nat>, stale: set<nat>, r: nat)
    requires Represents(frames, sp, chain, calls + [a], orig, stale) && a.height == |orig| && r < |chain|
    requires chain' == if frames[sp].seh.OwnRecord? && frames[sp].seh.record < |chain|
                       then chain[frames[sp].seh.record := frames[sp].seh.original] else chain
    ensures |chain'| == |orig| && RecordMatches(chain', calls, orig, stale, r)
  {
    hide InUse, CountAt;
    var calls', k := calls + [a], |calls|;
    assert RecordMatches(chain, calls', orig, stale, r) && FrameMatches(frames, calls', orig, k);
    InUseAfterCall(calls, a, r);
    if r + 1 == |orig| {
      OldestOwns(frames[sp].seh, calls', orig, k);
      OldestNotInUse(calls, a, r);
    }
  }

  lemma {:induction false} OldestNotInUse(calls: seq<Activation>, a: Activation, r: nat)
    requires a.height == r + 1
    ensures IsOldest(calls + [a], |calls|) <==> !InUse(calls, r)
  {
    var calls' := calls + [a];
    assert forall j :: 0 <= j < |calls| ==> calls'[j] == calls[j];
    if InUse(calls, r) {
      var j :| 0 <= j < |calls| && calls[j].height == r + 1;
      assert calls'[j].height == a.height;
    }
  }

  lemma {:induction false} CountNone(calls: seq<Activation>, r: nat, n: nat)
    requires !InUse(calls, r) && n <= |calls|
    ensures CountAt(calls, r + 1, n) == 0
  {
    if n > 0 {
      CountNone(calls, r, n - 1);
    }
  }

  lemma {:induction false} NewFrameFits(seh: Seh, calls: seq<Activation>, a: Activation, orig: seq<nat>)
    requires |calls| < LOCATIONS - 1 && a.height == |orig|
    requires match seh
             case NoRecord(None) => orig == []
             case NoRecord(Some(s)) =>
               orig != [] && s < BOTTOM && Slot(s) < |calls| && calls[Slot(s)].height == |orig| && IsOldest(calls, Slot(s))
             case OwnRecord(r, o, n) => r + 1 == |orig| && o == Own(orig[r]) && n == 1 && !InUse(calls, r)
    ensures SehMatches(seh, calls + [a], orig, |calls|)
  {
    match seh
    case NoRecord(None) =>
    case NoRecord(Some(s)) =>
      OldestAppend(calls, a, Slot(s));
    case OwnRecord(r, o, n) =>
      OldestNotInUse(calls, a, r);
      CountAppend(calls, a, |orig|, |calls|);
      CountNone(calls, r, |calls|);
  }

  /** Only the frame holding the handler of the top record counts the new call. */
  lemma {:induction false} OthersCountedUp(
    frames: seq<Frame>, frames': seq<Frame>, sp: nat, chain: seq<Handler>,
    calls: seq<Activation>, a: Activation, orig: seq<nat>, stale: set<nat>, holder: Option<nat>)
    requires Represents(frames, sp, chain, calls, orig, stale) && a.height == |orig| && |frames'| == |frames|
    requires if holder.Some?
             then orig != [] && Holds(frames, sp, holder.value, |orig| - 1)
                  && frames'[holder.value] == frames[holder.value].(seh := CountedUp(frames[holder.value].seh, a))
             else orig == [] || !InUse(calls, |orig| - 1)
    requires forall s :: sp <= s < BOTTOM && holder != Some(s) ==> frames'[s] == frames[s]
    ensures forall k :: 0 <= k < |calls| ==> frames'[Slot(k)] == frames[Slot(k)].(seh := CountedUp(frames[Slot(k)].seh, a))
  {
    forall k | 0 <= k < |calls| && holder != Some(Slot(k))
      ensures CountedUp(frames[Slot(k)].seh, a) == frames[Slot(k)].seh
    {
      if CountedUp(frames[Slot(k)].seh, a) != frames[Slot(k)].seh {
        assert Holds(frames, sp, Slot(k), |orig| - 1);
        HolderIsOldest(frames, sp, chain, calls, orig, stale, Slot(k), |orig| - 1);
        HolderUnique(frames, sp, chain, calls, orig, stale, Slot(k), holder.value, |orig| - 1);
        assert false;
      }
    }
  }

  lemma {:induction false} FreeFrameIrrelevant(
    frames: seq<Frame>, frames': seq<Frame>, sp: nat, chain: seq<Handler>, calls: seq<Activation>, orig: seq<nat>, stale: set<nat>)
    requires Represents(frames, sp, chain, calls, orig, stale)
    requires |frames'| == |frames| && forall s :: sp <= s < LOCATIONS ==> frames'[s] == frames[s]
    ensures Represents(frames', sp, chain, calls, orig, stale)
  {
    hide SehMatches, RecordMatches, InUse;
    forall k | 0 <= k < |calls| ensures FrameMatches(frames', calls, orig, k) {
      assert FrameMatches(frames, calls, orig, k);
    }
  }

  /** A call that is the only one under its record counts itself alone. */
  lemma {:induction false} TopOwnerAlone(seh: Seh, calls: seq<Activation>, a: Activation, orig: seq<nat>)
    requires |calls| < LOCATIONS - 1 && SehMatches(seh, calls + [a], orig, |calls|) && seh.OwnRecord?
    ensures seh.frameCount == 1
  {
    OldestNotInUse(calls, a, seh.record);
    CountAppend(calls, a, a.height, |calls|);
    CountNone(calls, seh.record, |calls|);
  }

  lemma {:induction false} CountPositive(calls: seq<Activation>, k: nat, n: nat)
    requires k < n <= |calls|
    ensures CountAt(calls, calls[k].height, n) >= 1
  {
    if k < n - 1 {
      CountPositive(calls, k, n - 1);
    }
  }

  /** The frame the topmost one refers to holds the handler, and counts more than one call. */
  lemma {:induction false} TopHolder(
    frames: seq<Frame>, sp: nat, chain: seq<Handler>, calls: seq<Activation>, a: Activation, orig: seq<nat>, stale: set<nat>,
    holder: nat)
    requires Represents(frames, sp, chain, calls + [a], orig, stale) && frames[sp].seh == NoRecord(Some(holder))
    ensures 0 < a.height && Holds(frames, sp, holder, a.height - 1) && sp != holder && frames[holder].seh.frameCount > 1
  {
    var calls' := calls + [a];
    assert FrameMatches(frames, calls', orig, |calls|);
    var k := Slot(holder);
    assert FrameMatches(frames, calls', orig, k);
    OldestOwns(frames[holder].seh, calls', orig, k);
    CountPositive(calls', k, |calls|);
  }

  /** Of the other frames, only the one referred to counted the call that returns. */
  lemma {:induction false} OthersCountedDown(
    frames: seq<Frame>, frames': seq<Frame>, sp: nat, chain: seq<Handler>,
    calls: seq<Activation>, a: Activation, orig: seq<nat>, stale: set<nat>)
    requires Represents(frames, sp, chain, calls + [a], orig, stale) && |frames'| == |frames|
    requires forall s :: sp <= s < BOTTOM && frames[sp].seh != NoRecord(Some(s)) ==> frames'[s] == frames[s]
    requires forall s: nat :: s < BOTTOM && frames[sp].seh == NoRecord(Some(s)) ==>
                       && frames[s].seh.OwnRecord? && frames[s].seh.frameCount > 1
                       && frames'[s] == frames[s].(seh := frames[s].seh.(frameCount := frames[s].seh.frameCount - 1))
    ensures forall k :: 0 <= k < |calls| ==> frames[Slot(k)] == frames'[Slot(k)].(seh := CountedUp(frames'[Slot(k)].seh, a))
  {
    hide SehMatches, RecordMatches, InUse, CountAt;
    forall k | 0 <= k < |calls| ensures frames[Slot(k)] == frames'[Slot(k)].(seh := CountedUp(frames'[Slot(k)].seh, a)) {
      OneCountedDown(frames, sp, chain, calls, a, orig, stale, k);
    }
  }

  lemma {:induction false} OneCountedDown(
    frames: seq<Frame>, sp: nat, chain: seq<Handler>, calls: seq<Activation>, a: Activation, orig: seq<nat>, stale: set<nat>,
    k: nat)
    requires Represents(frames, sp, chain, calls + [a], orig, stale) && k < |calls|
    ensures var seh := frames[Slot(k)].seh;
            seh.OwnRecord? && seh.record + 1 == a.height <==> frames[sp].seh == NoRecord(Some(Slot(k)))
  {
    hide RecordMatches, InUse, CountAt;
    var calls', top, seh := calls + [a], frames[sp].seh, frames[Slot(k)].seh;
    assert FrameMatches(frames, calls', orig, |calls|) && FrameMatches(frames, calls', orig, k);
    if top == NoRecord(Some(Slot(k))) {
      TopHolder(frames, sp, chain, calls, a, orig, stale, Slot(k));
    }
    if seh.OwnRecord? && seh.record + 1 == a.height {
      assert IsOldest(calls', k) && !IsOldest(calls', |calls|);
      assert IsOldest(calls', Slot(top.registering.value));
    }
  }

  lemma {:induction false} RecordPushed(
    frames: seq<Frame>, sp: nat, chain: seq<Handler>, calls: seq<Activation>, orig: seq<nat>, stale: set<nat>, handler: nat)
    requires Represents(frames, sp, chain, calls, orig, stale)
    ensures Represents(frames, sp, chain + [Own(handler)], calls, orig + [handler], stale)
  {
    var chain', orig' := chain + [Own(handler)], orig + [handler];
    forall k | 0 <= k < |calls| ensures FrameMatches(frames, calls, orig', k) {
      assert FrameMatches(frames, calls, orig, k);
    }
    forall r | 0 <= r < |chain'| ensures RecordMatches(chain', calls, orig', stale, r) {
      if r < |chain| {
        assert RecordMatches(chain, calls, orig, stale, r);
      }
    }
  }

  lemma {:induction false} RecordPopped(
    frames: seq<Frame>, sp: nat, chain: seq<Handler>, calls: seq<Activation>, orig: seq<nat>, stale: set<nat>)
    requires Represents(frames, sp, chain, calls, orig, stale) && orig != []
    requires calls != [] ==> calls[|calls| - 1].height < |orig|
    ensures Represents(frames, sp, chain[..|chain| - 1], calls, orig[..|orig| - 1], stale - {|orig| - 1})
  {
    hide CountAt, IsOldest;
    var n := |orig| - 1;
    var chain', orig' := chain[..n], orig[..n];
    forall k | 0 <= k < |calls| ensures FrameMatches(frames, calls, orig', k) && calls[k].height <= n {
      assert FrameMatches(frames, calls, orig, k);
    }
    forall r | 0 <= r < n ensures RecordMatches(chain', calls, orig', stale - {n}, r) {
      assert RecordMatches(chain, calls, orig, stale, r);
    }
  }

  lemma {:induction false} CountUnwound(calls: seq<Activation>, k: nat, height: nat, n: nat)
    requires k <= n <= |calls| && forall j :: k <= j < n ==> calls[j].height != height
    ensures CountAt(calls, height, n) == CountAt(calls[..k], height, k)
    decreases n
  {
    if n > k {
      CountUnwound(calls, k, height, n - 1);
    } else if k > 0 {
      CountUnwound(calls, k - 1, height, k - 1);
      CountUnwound(calls[..k], k - 1, height, k - 1);
      assert calls[..k][..k - 1] == calls[..k - 1];
    }
  }

  /** The calls from the `k`th on are those entered under the top hijacked record. */
  ghost predicate TopGroup(calls: seq<Activation>, k: nat) {
    k < |calls| && 0 < calls[k].height && IsOldest(calls, k) && calls[|calls| - 1].height == calls[k].height
  }

  lemma {:induction false} TopGroupCount(calls: seq<Activation>, k: nat, n: nat)
    requires Ordered(calls) && TopGroup(calls, k) && k <= n <= |calls|
    ensures CountAt(calls, calls[k].height, n) == n - k
  {
    if n > k {
      TopGroupCount(calls, k, n - 1);
      assert calls[n - 1].height == calls[k].height;
    } else {
      CountBelow(calls, k, calls[k].height);
    }
  }

  lemma {:induction false} CountBelow(calls: seq<Activation>, n: nat, height: nat)
    requires n <= |calls| && forall j :: 0 <= j < n ==> calls[j].height != height
    ensures CountAt(calls, height, n) == 0
  {
    if n > 0 {
      CountBelow(calls, n - 1, height);
    }
  }

  lemma {:induction false} SehUnwound(seh: Seh, calls: seq<Activation>, k: nat, orig: seq<nat>, m: nat, j: nat)
    requires |calls| < LOCATIONS && j < k && TopGroup(calls, k) && Ordered(calls)
    requires calls[k].height <= m + 1 <= |orig| + 1
    requires SehMatches(seh, calls, orig, j)
    ensures SehMatches(seh, calls[..k], orig[..m], j)
  {
    var calls' := calls[..k];
    assert forall i :: 0 <= i < k ==> calls'[i] == calls[i];
    assert forall i :: 0 <= i < k ==> (IsOldest(calls', i) <==> IsOldest(calls, i));
    CountUnwound(calls, k, calls[j].height, |calls|);
  }

  /**
     After the frames of the top hijacked record are popped, and the records above it are
     gone, the rest of the thread is as it was.  The record itself is either dropped, or,
     when its handler catches the exception, stays as a stale one.
   */
  lemma {:induction false} UnwoundRepresents(
    frames: seq<Frame>, sp: nat, chain: seq<Handler>, calls: seq<Activation>, orig: seq<nat>, stale: set<nat>,
    k: nat, catches: bool)
    requires Represents(frames, sp, chain, calls, orig, stale) && TopGroup(calls, k)
    requires forall r :: r in stale ==> r + 1 < calls[k].height
    ensures var record := calls[k].height - 1;
            var m := if catches then record + 1 else record;
            && m <= |orig| == |chain|
            && Represents(frames, BOTTOM - k, chain[..m], calls[..k], orig[..m], if catches then stale + {record} else stale)
  {
    hide SehMatches, CountAt;
    var record := calls[k].height - 1;
    var m := if catches then record + 1 else record;
    var calls', chain', orig' := calls[..k], chain[..m], orig[..m];
    var stale' := if catches then stale + {record} else stale;
    forall j | 0 <= j < k ensures FrameMatches(frames, calls', orig', j) && calls'[j].height <= m {
      assert FrameMatches(frames, calls, orig, j);
      SehUnwound(frames[Slot(j)].seh, calls, k, orig, m, j);
    }
    forall r | 0 <= r < m ensures RecordMatches(chain', calls', orig', stale', r) {
      assert RecordMatches(chain, calls, orig, stale, r);
      InUseUnwound(calls, k, r);
    }
    forall r | r in stale' ensures !InUse(calls', r) {
      InUseUnwound(calls, k, r);
    }
  }

  lemma {:induction false} InUseUnwound(calls: seq<Activation>, k: nat, r: nat)
    requires Ordered(calls) && TopGroup(calls, k)
    ensures InUse(calls[..k], r) <==> InUse(calls, r) && r + 1 != calls[k].height
  {
    var calls' := calls[..k];
    if InUse(calls, r) && r + 1 != calls[k].height {
      var j :| 0 <= j < |calls| && calls[j].height == r + 1;
      assert j < k;
      assert calls'[j].height == r + 1;
    }
    if InUse(calls', r) {
      var j :| 0 <= j < k && calls'[j].height == r + 1;
      assert calls[j].height == r + 1;
    }
  }

  /** Intercepted calls and registered handlers, nested and in sequence. */
  datatype Program =
    | Done
    | Call(procedure: nat, returnAddress: nat, body: Program, next: Program)
    | Guard(handler: nat, body: Program, next: Program)

  function Depth(program: Program): nat {
    match program
    case Done => 0
    case Call(_, _, body, next) => Max(1 + Depth(body), Depth(next))
    case Guard(_, body, next) => Max(Depth(body), Depth(next))
  }

  function Max(a: nat, b: nat): nat {
    if a < b then b else a
  }

  /** No call returns to the address that marks the bottom of the stack. */
  predicate ReturnsSomewhere(program: Program) {
    match program
    case Done => true
    case Call(_, returnAddress, body, next) =>
      returnAddress != NO_RETURN && ReturnsSomewhere(body) && ReturnsSomewhere(next)
    case Guard(_, body, next) => ReturnsSomewhere(body) && ReturnsSomewhere(next)
  }

  // ---------------------------------------------------------------- the thread

  class ThreadData {
    const frames: array<Frame>
    var sp: nat
    var chain: seq<Handler> // the registration records, oldest first
    ghost var calls: seq<Activation>
    ghost var orig: seq<nat>
    ghost var stale: set<nat>

    ghost predicate Valid()
      reads this, frames
    {
      Represents(frames[..], sp, chain, calls, orig, stale)
    }

    constructor ()
      ensures Valid() && fresh(frames) && calls == [] && orig == [] && stale == {}
    {
      frames := new Frame[LOCATIONS](_ => Frame(NO_RETURN, NO_RETURN, NoRecord(None)));
      sp, chain, calls, orig, stale := BOTTOM, [], [], [], {};
    }

    /** Finds the frame that holds the original handler of a record. */
    method LookupFrameForRegistrationRecord(record: nat) returns (slot: Option<nat>)
      requires Valid()
      ensures slot.Some? <==> InUse(calls, record)
      ensures slot.Some? ==> Holds(frames[..], sp, slot.value, record)
    {
      var frame := sp;
      while frame != BOTTOM
        invariant sp <= frame <= BOTTOM
        invariant forall s: nat :: s < frame ==> !Holds(frames[..], sp, s, record)
      {
        if frames[frame].seh.OwnRecord? && frames[frame].seh.record == record {
          HolderIsOldest(frames[..], sp, chain, calls, orig, stale, frame, record);
          return Some(frame);
        }
        frame := frame + 1;
      }
      if InUse(calls, record) {
        ghost var s := HolderExists(frames[..], sp, chain, calls, orig, stale, record);
        assert false;
      }
      return None;
    }

    /**
     Makes the frame below the stack pointer take part in exception handling, for the top
     registration record.  Fails iff that record is stale, and then changes nothing.
     */
    method InstallExceptionHandler() returns (installed: bool)
      requires Valid() && 0 < sp
      modifies frames, `chain
      ensures installed <==> forall r :: r in stale ==> r + 1 != |orig|
      ensures !installed ==> frames[..] == old(frames[..]) && chain == old(chain)
      ensures frames[sp - 1].procedure == old(frames[sp - 1].procedure)
      ensures frames[sp - 1].returnAddress == old(frames[sp - 1].returnAddress)
      ensures installed ==>
                var a := Activation(frames[sp - 1].procedure, frames[sp - 1].returnAddress, |orig|);
                Represents(frames[..], sp - 1, chain, calls + [a], orig, stale)
    {
      hide InUse, CountAt, IsOldest, Ordered, FrameMatches, SehMatches;
      var slot := sp - 1;
      ghost var a := Activation(frames[slot].procedure, frames[slot].returnAddress, |orig|);
      ghost var frames0, chain0 := frames[..], chain;
      if |chain| == 0 {
        frames[slot] := frames[slot].(seh := NoRecord(None));
      } else {
        var top := |chain| - 1;
        assert RecordMatches(chain, calls, orig, stale, top);
        if chain[top] == Thunk {
          var hijacking := LookupFrameForRegistrationRecord(top);
          if hijacking == None {
            return false;
          }
          HolderIsOldest(frames0, sp, chain, calls, orig, stale, hijacking.value, top);
          assert hijacking.value != slot;
          frames[hijacking.value] := frames[hijacking.value].(
            seh := frames[hijacking.value].seh.(frameCount := frames[hijacking.value].seh.frameCount + 1));
          frames[slot] := frames[slot].(seh := NoRecord(hijacking));
        } else {
          frames[slot] := frames[slot].(seh := OwnRecord(top, chain[top], 1));
          chain := chain[top := Thunk];
        }
      }
      installed := true;
      NewFrameFits(frames[slot].seh, calls, a, orig);
      ghost var holder := if frames[slot].seh.NoRecord? then frames[slot].seh.registering else None;
      OthersCountedUp(frames0, frames[..], sp, chain0, calls, a, orig, stale, holder);
      CallEntered(frames0, frames[..], sp, chain0, chain, calls, a, orig, stale);
    }

    /** An intercepted call is entered. */
    method Entry(procedure: nat, returnAddress: nat) returns (status: EntryStatus)
      requires Valid()
      modifies frames, `sp, `chain, `calls
      ensures Valid() && orig == old(orig) && stale == old(stale)
      ensures status == if |old(calls)| == BOTTOM then StackOverflow
                        else if exists r :: r in stale && r + 1 == |orig| then FrameNotFound
                        else Intercepted
      ensures calls == if status == Intercepted then old(calls) + [Activation(procedure, returnAddress, |orig|)]
                       else old(calls)
      ensures status != Intercepted ==> chain == old(chain) && sp == old(sp)
    {
      hide InUse, CountAt, IsOldest, Ordered, SehMatches, RecordMatches;
      if sp == 0 {
        return StackOverflow;
      }
      ghost var frames0 := frames[..];
      frames[sp - 1] := Frame(procedure, returnAddress, frames[sp - 1].seh);
      FreeFrameIrrelevant(frames0, frames[..], sp, chain, calls, orig, stale);
      var installed := InstallExceptionHandler();
      if !installed {
        return FrameNotFound;
      }
      sp := sp - 1;
      calls := calls + [Activation(procedure, returnAddress, |orig|)];
      return Intercepted;
    }

    /** Undoes what `InstallExceptionHandler` did for the topmost frame. */
    method UninstallExceptionHandler()
      requires Valid() && calls != [] && calls[|calls| - 1].height == |orig|
      modifies frames, `chain
      ensures Represents(frames[..], sp + 1, chain, calls[..|calls| - 1], orig, stale)
      ensures frames[sp].procedure == old(frames[sp].procedure)
    {
      hide InUse, CountAt, IsOldest, Ordered, RecordMatches;
      ghost var frames0, chain0, rest, a := frames[..], chain, calls[..|calls| - 1], calls[|calls| - 1];
      assert calls == rest + [a];
      assert FrameMatches(frames0, calls, orig, |rest|);
      match frames[sp].seh {
        case OwnRecord(record, original, frameCount) =>
          TopOwnerAlone(frames0[sp].seh, rest, a, orig);
          assert frameCount == 1;
          chain := chain[record := original];
        case NoRecord(Some(registering)) =>
          TopHolder(frames0, sp, chain, rest, a, orig, stale, registering);
          assert frames[registering].seh.frameCount > 1;
          frames[registering] := frames[registering].(
            seh := frames[registering].seh.(frameCount := frames[registering].seh.frameCount - 1));
        case NoRecord(None) =>
      }
      OthersCountedDown(frames0, frames[..], sp, chain0, rest, a, orig, stale);
      CallReturned(frames0, frames[..], sp, chain0, chain, rest, a, orig, stale);
    }

    /** An intercepted call returns: to the address saved when it was entered. */
    method Exit() returns (target: Option<(nat, nat)>)
      requires Valid() && (calls != [] ==> calls[|calls| - 1].height == |orig|)
      modifies frames, `sp, `chain, `calls
      ensures Valid()
      ensures if old(calls) == [] || old(calls)[|old(calls)| - 1].returnAddress == NO_RETURN
              then target == None && calls == old(calls) && chain == old(chain)
              else var a := old(calls)[|old(calls)| - 1];
                   target == Some((a.procedure, a.returnAddress)) && calls == old(calls)[..|old(calls)| - 1]
    {
      hide InUse, CountAt, IsOldest, Ordered, RecordMatches, SehMatches;
      if calls != [] {
        assert FrameMatches(frames[..], calls, orig, |calls| - 1);
      }
      var returnAddress := frames[sp].returnAddress;
      if returnAddress == NO_RETURN {
        return None;
      }
      UninstallExceptionHandler();
      target := Some((frames[sp].procedure, returnAddress));
      sp := sp + 1;
      calls := calls[..|calls| - 1];
    }

    /** The program registers a handler. */
    method PushRecord(handler: nat)
      requires Valid()
      modifies `chain, `orig
      ensures Valid() && orig == old(orig) + [handler]
    {
      RecordPushed(frames[..], sp, chain, calls, orig, stale, handler);
      chain := chain + [Own(handler)];
      orig := orig + [handler];
    }

    /** The program removes its handler again; no call entered under it is in progress. */
    method PopRecord()
      requires Valid() && orig != [] && (calls != [] ==> calls[|calls| - 1].height < |orig|)
      modifies `chain, `orig, `stale
      ensures Valid() && orig == old(orig)[..|old(orig)| - 1] && stale == old(stale) - {|orig|}
    {
      RecordPopped(frames[..], sp, chain, calls, orig, stale);
      chain := chain[..|chain| - 1];
      orig := orig[..|orig| - 1];
      stale := stale - {|orig|};
    }

    /** Pops the frames of the top hijacked record: exactly as many as its frame counts. */
    method UnwindThunkstack() returns (ghost popped: nat)
      requires Valid() && calls != [] && 0 < calls[|calls| - 1].height
      modifies `sp
      ensures sp == old(sp) + popped && 0 < popped <= |calls|
      ensures Holds(frames[..], old(sp), sp - 1, calls[|calls| - 1].height - 1)
      ensures popped == frames[sp - 1].seh.frameCount
      ensures TopGroup(calls, |calls| - popped)
    {
      hide CountAt, RecordMatches, InUse;
      popped := 0;
      ghost var k := OldestExists(calls, |calls| - 1);
      assert FrameMatches(frames[..], calls, orig, k);
      while frames[sp].seh.NoRecord?
        invariant sp == old(sp) + popped && popped < |calls| - k
        decreases BOTTOM - sp
      {
        popped := popped + 1;
        sp := sp + 1;
      }
      assert FrameMatches(frames[..], calls, orig, |calls| - 1 - popped);
      popped := popped + 1;
      sp := sp + 1;
      TopGroupCount(calls, k, |calls|);
    }

    /**
     One exception reaching the top hijacked record.  If the handler there catches it, the
     record stays registered; otherwise the system drops the record after calling it.
     The representation is kept, and the record is stale afterwards iff the handler caught.
     */
    method Unwind(catches: bool) returns (ghost popped: nat)
      requires Valid() && calls != [] && 0 < calls[|calls| - 1].height
      requires forall r :: r in stale ==> r + 1 < calls[|calls| - 1].height
      modifies `sp, `chain, `calls, `orig, `stale
      ensures Valid()
      ensures 0 < popped <= |old(calls)| && calls == old(calls)[..|old(calls)| - popped]
      ensures old(sp) + popped == sp
      ensures frames[sp - 1].seh.OwnRecord? && popped == frames[sp - 1].seh.frameCount
      ensures forall k :: 0 <= k < |old(calls)| ==>
                            (k < |calls| <==> old(calls)[k].height < old(calls)[|old(calls)| - 1].height)
      ensures var record := old(calls)[|old(calls)| - 1].height - 1;
              && record < |old(orig)|
              && orig == old(orig)[..if catches then record + 1 else record]
              && stale == old(stale) + if catches then {record} else {}
    {
      hide CountAt, SehMatches, RecordMatches, InUse, FrameMatches;
      popped := UnwindThunkstack();
      ghost var k := |calls| - popped;
      UnwoundRepresents(frames[..], BOTTOM - |calls|, chain, calls, orig, stale, k, catches);
      HolderIsOldest(frames[..], BOTTOM - |calls|, chain, calls, orig, stale, sp - 1, calls[|calls| - 1].height - 1);
      var record := frames[sp - 1].seh.record;
      chain := chain[..if catches then record + 1 else record];
      orig := orig[..if catches then record + 1 else record];
      stale := if catches then stale + {record} else stale;
      calls := calls[..k];
    }

    /**
     The next call entered after an exception was handled: it is intercepted iff the record
     was dropped.  When the handler caught, the record still carries the hijacking handler
     and the lookup of the frame that registered it fails.
     */
    method UnwindThenEntry(catches: bool, procedure: nat, returnAddress: nat) returns (status: EntryStatus)
      requires Valid() && stale == {} && calls != [] && 0 < calls[|calls| - 1].height
      modifies frames, this
      ensures Valid()
      ensures status == if catches then FrameNotFound else Intercepted
    {
      assert |calls| <= BOTTOM;
      hide Represents, TopGroup;
      var popped := Unwind(catches);
      assert catches ==> |orig| - 1 in stale;
      status := Entry(procedure, returnAddress);
    }

    /** Runs a program of nested calls and handlers in which no exception occurs. */
    method Run(program: Program) returns (status: EntryStatus)
      requires Valid() && stale == {} && ReturnsSomewhere(program)
      modifies this, frames
      ensures Valid() && stale == {}
      ensures status == if |old(calls)| + Depth(program) > BOTTOM then StackOverflow else Intercepted
      ensures status == Intercepted ==>
                calls == old(calls) && orig == old(orig) && chain == old(chain) && sp == old(sp)
      decreases program, 0
    {
      assert |calls| <= BOTTOM;
      hide Represents;
      ghost var before, chain0, sp0 := frames[..], chain, sp;
      status := Intercepted;
      match program {
        case Done =>
        case Call(procedure, returnAddress, body, next) =>
          status := RunCall(procedure, returnAddress, body);
          if status == Intercepted {
            status := Run(next);
          }
        case Guard(handler, body, next) =>
          status := RunGuarded(handler, body);
          if status == Intercepted {
            status := Run(next);
          }
      }
      if status == Intercepted {
        ChainDetermined(before, frames[..], sp0, sp, chain0, chain, calls, orig, stale);
      }
    }

    method RunCall(procedure: nat, returnAddress: nat, body: Program) returns (status: EntryStatus)
      requires Valid() && stale == {} && ReturnsSomewhere(body) && returnAddress != NO_RETURN
      modifies this, frames
      ensures Valid() && stale == {}
      ensures status == if |old(calls)| + 1 + Depth(body) > BOTTOM then StackOverflow else Intercepted
      ensures status == Intercepted ==> calls == old(calls) && orig == old(orig)
      decreases body, 1
    {
      assert |calls| <= BOTTOM;
      hide Represents;
      status := Entry(procedure, returnAddress);
      if status == Intercepted {
        status := Run(body);
      }
      if status == Intercepted {
        var target := Exit();
        assert target == Some((procedure, returnAddress));
      }
    }

    method RunGuarded(handler: nat, body: Program) returns (status: EntryStatus)
      requires Valid() && stale == {} && ReturnsSomewhere(body)
      modifies this, frames
      ensures Valid() && stale == {}
      ensures status == if |old(calls)| + Depth(body) > BOTTOM then StackOverflow else Intercepted
      ensures status == Intercepted ==> calls == old(calls) && orig == old(orig)
      decreases body, 1
    {
      assert calls != [] ==> calls[|calls| - 1].height <= |orig|;
      hide Represents;
      PushRecord(handler);
      status := Run(body);
      if status == Intercepted {
        PopRecord();
      }
    }
  }
}
