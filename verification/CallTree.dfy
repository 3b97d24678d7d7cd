/**
 Rebuilding calls from the flat stream of entry, exit and unwind transitions that
 the tracer leaves in the chunks of one client.

 `EnumTransitions` is the reader's loop: it counts nesting depth, keeps one open
 call and repairs missing transitions with synthetic ones.  It is proved against
 `Enumerate`, which has no counter: it pairs every entry with the transition that
 closes it.  About `Enumerate` the module proves that printing a forest of calls and
 enumerating it again gives the forest back, and that on every stream the number of
 child calls reported is the number a recursive enumeration finds.
 */
module CallTree {

  import opened Common

  /** The transition type is a two-bit field, and the value 3 has no meaning. */
  datatype Kind = Entry | Exit | Unwind | Unassigned

  /** `info` is the caller's address, the return value or the exception code. */
  datatype Transition = Transition(kind: Kind, time: nat, procedure: nat, info: nat)

  datatype EntryType = NormalEntry | SyntheticEntry

  datatype ExitType = NormalExit | SyntheticExit | ExceptionExit

  /** Names the entry transition of a call: a chunk of the client and an index into it. */
  datatype Handle = Handle(chunk: nat, index: nat)

  /**
   What the callback receives.  `H` is `Handle` for the reader and a position in the
   concatenated stream for the specification.  No handle means a null chunk pointer.
   */
  datatype Call<H> = Call(
    entryType: EntryType, exitType: ExitType, handle: Option<H>, procedure: nat,
    entryTime: nat, exitTime: nat, callerIp: nat, childCalls: nat, result: nat)

  datatype Status = Ok | InvalidArgument | InvalidCallHandle | InvalidTransition

  // ---------------------------------------------------------------- specification

  datatype Closing = ClosedAt(at: nat) | Unclosed | Malformed

  /** Where the call is closed that has `depth` further calls open inside it at position `k`. */
  function ClosingOf(s: seq<Transition>, k: nat, depth: nat): (c: Closing)
    ensures c.ClosedAt? ==> k <= c.at < |s| && s[c.at].kind in {Exit, Unwind}
    decreases |s| - k
  {
    if k >= |s| then Unclosed
    else match s[k].kind
      case Unassigned => Malformed
      case Entry => ClosingOf(s, k + 1, depth + 1)
      case _ => if depth == 0 then ClosedAt(k) else ClosingOf(s, k + 1, depth - 1)
  }

  function CountEntries(s: seq<Transition>, i: nat, j: nat): (n: nat)
    requires i <= j <= |s|
    decreases j
  {
    if i == j then 0
    else CountEntries(s, i, j - 1) + if s[j - 1].kind == Entry then 1 else 0
  }

  function ExitTypeOf(t: Transition): ExitType {
    if t.kind == Exit then NormalExit else ExceptionExit
  }

  /** The calls of a level in the order they are reported, and the status after the last one. */
  datatype Listing = End(status: Status) | More(call: Call<nat>, rest: Listing)

  /**
   Closing `open` with the transition `t`.  If `t` belongs to another procedure, an exit
   and an entry have been lost, and two calls are reported, each with one synthetic end.
   */
  function Deliver(open: Call<nat>, t: Transition, rest: Listing): Listing {
    if open.procedure == t.procedure then
      More(open.(exitTime := t.time, exitType := ExitTypeOf(t), result := t.info), rest)
    else
      More(open.(exitTime := t.time, exitType := SyntheticExit, result := 0),
           More(Call(SyntheticEntry, ExitTypeOf(t), None, t.procedure, t.time, t.time, 0, 0, t.info), rest))
  }

  /** The call whose entry is at `i` as it stands before `j`, while it is open. */
  function OpenCall(s: seq<Transition>, i: nat, j: nat): Call<nat>
    requires i < j <= |s|
  {
    Call(NormalEntry, NormalExit, Some(i), s[i].procedure, s[i].time, 0, s[i].info,
         CountEntries(s, i + 1, j) % ULONG_RANGE, 0)
  }

  /**
   The calls at one level of nesting, from position `i` on.  With `all`, exits without
   an entry are ignored; otherwise the first one ends the level.
   */
  function Enumerate(s: seq<Transition>, i: nat, all: bool): Listing
    decreases |s| - i
  {
    if i >= |s| then End(Ok)
    else match s[i].kind
      case Unassigned => End(InvalidTransition)
      case Entry => (
        match ClosingOf(s, i + 1, 0)
        case Malformed => End(InvalidTransition)
        case Unclosed => End(Ok)
        case ClosedAt(j) => Deliver(OpenCall(s, i, j), s[j], Enumerate(s, j + 1, all)))
      case _ => if all then Enumerate(s, i + 1, all) else End(Ok)
  }

  // ---------------------------------------------------------------- chunks and handles

  /** The position of the transition `h` names in the concatenated stream. */
  function Position(chunks: seq<seq<Transition>>, h: Handle): nat
    requires h.chunk <= |chunks|
  {
    |Concat(chunks[..h.chunk])| + h.index
  }

  predicate IsTransition(chunks: seq<seq<Transition>>, h: Handle) {
    h.chunk < |chunks| && h.index < |chunks[h.chunk]|
  }

  /** A handle of the reader always names a transition. */
  predicate ValidHandle(chunks: seq<seq<Transition>>, c: Call<Handle>) {
    c.handle.Some? ==> IsTransition(chunks, c.handle.value)
  }

  predicate ValidHandles(chunks: seq<seq<Transition>>, calls: seq<Call<Handle>>) {
    forall i :: 0 <= i < |calls| ==> ValidHandle(chunks, calls[i])
  }

  function AtPosition(chunks: seq<seq<Transition>>, c: Call<Handle>): Call<nat>
    requires ValidHandle(chunks, c)
  {
    Call(c.entryType, c.exitType,
         if c.handle.Some? then Some(Position(chunks, c.handle.value)) else None,
         c.procedure, c.entryTime, c.exitTime, c.callerIp, c.childCalls, c.result)
  }

  /** The listing that begins with `calls`, handles read as positions, and goes on with `rest`. */
  function After(chunks: seq<seq<Transition>>, calls: seq<Call<Handle>>, rest: Listing): Listing
    requires ValidHandles(chunks, calls)
    decreases |calls|
  {
    if calls == [] then rest
    else After(chunks, calls[..|calls| - 1], More(AtPosition(chunks, calls[|calls| - 1]), rest))
  }

  lemma {:induction false} AfterOneMore(
    chunks: seq<seq<Transition>>, calls: seq<Call<Handle>>, c: Call<Handle>, rest: Listing)
    requires ValidHandles(chunks, calls) && ValidHandle(chunks, c)
    ensures ValidHandles(chunks, calls + [c])
    ensures After(chunks, calls + [c], rest) == After(chunks, calls, More(AtPosition(chunks, c), rest))
  {
    assert (calls + [c])[..|calls|] == calls;
  }

  lemma {:induction false} ConcatTake(chunks: seq<seq<Transition>>, c: nat)
    requires c < |chunks|
    ensures Concat(chunks[..c + 1]) == Concat(chunks[..c]) + chunks[c]
    ensures |Concat(chunks[..c])| + |chunks[c]| <= |Concat(chunks)|
    ensures forall k :: 0 <= k < |chunks[c]| ==> Concat(chunks)[|Concat(chunks[..c])| + k] == chunks[c][k]
    decreases |chunks|
  {
    assert chunks[..c + 1][..c] == chunks[..c];
    if c + 1 == |chunks| {
      assert chunks[..c + 1] == chunks;
    } else {
      var front := chunks[..|chunks| - 1];
      ConcatTake(front, c);
      assert front[..c] == chunks[..c];
    }
  }

  lemma {:induction false} TransitionAt(chunks: seq<seq<Transition>>, h: Handle)
    requires IsTransition(chunks, h)
    ensures Position(chunks, h) < |Concat(chunks)|
    ensures Concat(chunks)[Position(chunks, h)] == chunks[h.chunk][h.index]
  {
    ConcatTake(chunks, h.chunk);
  }

  lemma {:induction false} ChunkPositions(chunks: seq<seq<Transition>>, c: nat)
    requires c < |chunks|
    ensures Position(chunks, Handle(c, |chunks[c]|)) == Position(chunks, Handle(c + 1, 0))
    ensures forall i :: 0 <= i <= |chunks[c]| ==>
              Position(chunks, Handle(c, i)) == Position(chunks, Handle(c, 0)) + i
    ensures Position(chunks, Handle(|chunks|, 0)) == |Concat(chunks)|
  {
    ConcatTake(chunks, c);
    assert chunks[..|chunks|] == chunks;
  }

  lemma {:induction false} LaterChunk(chunks: seq<seq<Transition>>, g: Handle, h: Handle)
    requires IsTransition(chunks, g) && IsTransition(chunks, h) && g.chunk < h.chunk
    ensures Position(chunks, g) < Position(chunks, h)
  {
    var before := chunks[..h.chunk];
    ConcatTake(before, g.chunk);
    assert before[..g.chunk] == chunks[..g.chunk];
  }

  /** A transition has only one handle, so the position determines the handle a call carries. */
  lemma {:induction false} PositionInjective(chunks: seq<seq<Transition>>, g: Handle, h: Handle)
    requires IsTransition(chunks, g) && IsTransition(chunks, h)
    requires Position(chunks, g) == Position(chunks, h)
    ensures g == h
  {
    if g.chunk < h.chunk {
      LaterChunk(chunks, g, h);
    } else if h.chunk < g.chunk {
      LaterChunk(chunks, h, g);
    }
  }

  // ---------------------------------------------------------------- the open call

  /** `call` is open at `k`, and it is the outermost of `depth` open calls. */
  ghost predicate OpenAt(s: seq<Transition>, k: nat, depth: nat, call: Call<nat>) {
    && depth > 0 && call.handle.Some?
    && var at := call.handle.value;
    && at < k <= |s|
    && s[at].kind == Entry
    && call.(exitTime := 0, exitType := NormalExit, result := 0) == OpenCall(s, at, k)
    && ClosingOf(s, at + 1, 0) == ClosingOf(s, k, depth - 1)
  }

  function Entered<H>(call: Call<H>, h: H, t: Transition): Call<H> {
    call.(entryType := NormalEntry, handle := Some(h), procedure := t.procedure,
          entryTime := t.time, callerIp := t.info, childCalls := 0)
  }

  function Counted<H>(call: Call<H>): Call<H> {
    call.(childCalls := (call.childCalls + 1) % ULONG_RANGE)
  }

  lemma {:induction false} EntryOpens(s: seq<Transition>, k: nat, call: Call<nat>)
    requires k < |s| && s[k].kind == Entry
    ensures OpenAt(s, k + 1, 1, Entered(call, k, s[k]))
  {
  }

  lemma {:induction false} EntryCounts(s: seq<Transition>, k: nat, depth: nat, call: Call<nat>)
    requires OpenAt(s, k, depth, call) && k < |s| && s[k].kind == Entry
    ensures OpenAt(s, k + 1, depth + 1, Counted(call))
  {
    assert CountEntries(s, call.handle.value + 1, k + 1) == CountEntries(s, call.handle.value + 1, k) + 1;
  }

  lemma {:induction false} InnerExit(s: seq<Transition>, k: nat, depth: nat, call: Call<nat>)
    requires OpenAt(s, k, depth, call) && depth > 1 && k < |s| && s[k].kind in {Exit, Unwind}
    ensures OpenAt(s, k + 1, depth - 1, call)
  {
    assert CountEntries(s, call.handle.value + 1, k + 1) == CountEntries(s, call.handle.value + 1, k);
  }

  lemma {:induction false} ClosingExit(s: seq<Transition>, k: nat, call: Call<nat>, all: bool)
    requires OpenAt(s, k, 1, call) && k < |s| && s[k].kind in {Exit, Unwind}
    ensures Enumerate(s, call.handle.value, all) == Deliver(call, s[k], Enumerate(s, k + 1, all))
  {
    assert ClosingOf(s, call.handle.value + 1, 0) == ClosedAt(k);
  }

  /** At a bad transition or at the end of the stream the open call is dropped. */
  lemma {:induction false} OpenDropped(s: seq<Transition>, k: nat, depth: nat, call: Call<nat>, all: bool)
    requires OpenAt(s, k, depth, call)
    requires k < |s| ==> s[k].kind == Unassigned
    ensures Enumerate(s, call.handle.value, all) == End(if k < |s| then InvalidTransition else Ok)
  {
  }

  // ---------------------------------------------------------------- the reader

  function NewCall(): Call<Handle> {
    Call(NormalEntry, NormalExit, None, 0, 0, 0, 0, 0, 0)
  }

  /** Where the enumeration of `caller` starts.  At the end of a chunk there is nothing to skip. */
  function Start(chunks: seq<seq<Transition>>, caller: Handle, skipFirst: bool): nat
    requires caller.chunk < |chunks|
  {
    Position(chunks, caller) + if skipFirst && caller.index < |chunks[caller.chunk]| then 1 else 0
  }

  /**
   What the loop knows before the transition at `k`: `calls` followed by the enumeration
   from the open call, or from `k` if there is none, is the enumeration from `start`.
   */
  ghost predicate LoopState(
    chunks: seq<seq<Transition>>, start: nat, all: bool, k: nat,
    depth: int, call: Call<Handle>, calls: seq<Call<Handle>>)
  {
    var s := Concat(chunks);
    && ValidHandles(chunks, calls) && ValidHandle(chunks, call)
    && k <= |s| && 0 <= depth
    && (depth > 0 <==> call.handle.Some?)
    && (depth > 0 ==> OpenAt(s, k, depth, AtPosition(chunks, call)))
    && var resume := if depth > 0 then Position(chunks, call.handle.value) else k;
    Enumerate(s, start, all) == After(chunks, calls, Enumerate(s, resume, all))
  }

  lemma {:induction false} InitialState(chunks: seq<seq<Transition>>, caller: Handle, skipFirst: bool, all: bool)
    requires caller.chunk < |chunks| && caller.index <= |chunks[caller.chunk]|
    ensures var start := Start(chunks, caller, skipFirst);
            LoopState(chunks, start, all, start, 0, NewCall(), [])
  {
    ConcatTake(chunks, caller.chunk);
  }

  /** The loop ends at the end of the stream, at a bad transition, and at the exit that ends a nested level. */
  lemma {:induction false} ReturnState(
    chunks: seq<seq<Transition>>, start: nat, all: bool, k: nat, depth: int, call: Call<Handle>, calls: seq<Call<Handle>>)
    requires LoopState(chunks, start, all, k, depth, call, calls)
    requires k < |Concat(chunks)| ==>
               var kind := Concat(chunks)[k].kind; kind == Unassigned || (kind != Entry && depth == 0 && !all)
    ensures ValidHandles(chunks, calls)
    ensures var bad := k < |Concat(chunks)| && Concat(chunks)[k].kind == Unassigned;
            Enumerate(Concat(chunks), start, all) == After(chunks, calls, End(if bad then InvalidTransition else Ok))
  {
    hide After;
    if depth > 0 {
      OpenDropped(Concat(chunks), k, depth, AtPosition(chunks, call), all);
    }
  }

  lemma {:induction false} EntryState(
    chunks: seq<seq<Transition>>, start: nat, all: bool, h: Handle, depth: nat, call: Call<Handle>, calls: seq<Call<Handle>>)
    requires IsTransition(chunks, h) && chunks[h.chunk][h.index].kind == Entry
    requires LoopState(chunks, start, all, Position(chunks, h), depth, call, calls)
    ensures LoopState(chunks, start, all, Position(chunks, h) + 1, depth + 1,
                      if depth == 0 then Entered(call, h, chunks[h.chunk][h.index]) else Counted(call), calls)
  {
    hide After, Enumerate, OpenAt, Concat;
    TransitionAt(chunks, h);
    if depth == 0 {
      EntryOpens(Concat(chunks), Position(chunks, h), AtPosition(chunks, call));
    } else {
      EntryCounts(Concat(chunks), Position(chunks, h), depth, AtPosition(chunks, call));
    }
  }

  /** An exit inside the open call, or one without an entry that is ignored at the top level. */
  lemma {:induction false} SkippedExitState(
    chunks: seq<seq<Transition>>, start: nat, all: bool, h: Handle, depth: nat, call: Call<Handle>, calls: seq<Call<Handle>>)
    requires IsTransition(chunks, h) && chunks[h.chunk][h.index].kind in {Exit, Unwind}
    requires depth > 1 || (depth == 0 && all)
    requires LoopState(chunks, start, all, Position(chunks, h), depth, call, calls)
    ensures LoopState(chunks, start, all, Position(chunks, h) + 1, if depth == 0 then 0 else depth - 1, call, calls)
  {
    TransitionAt(chunks, h);
    hide After, OpenAt, Concat;
    if depth > 0 {
      InnerExit(Concat(chunks), Position(chunks, h), depth, AtPosition(chunks, call));
    }
  }

  /** The calls delivered when `t` closes `open`, in terms of the reader's own record. */
  function Closed(open: Call<Handle>, t: Transition): seq<Call<Handle>> {
    if open.procedure == t.procedure then
      [open.(exitTime := t.time, exitType := ExitTypeOf(t), result := t.info)]
    else
      [open.(exitTime := t.time, exitType := SyntheticExit, result := 0),
       Call(SyntheticEntry, ExitTypeOf(t), None, t.procedure, t.time, t.time, 0, 0, t.info)]
  }

  lemma {:induction false} AfterClosed(
    chunks: seq<seq<Transition>>, calls: seq<Call<Handle>>, open: Call<Handle>, t: Transition, rest: Listing)
    requires ValidHandles(chunks, calls) && ValidHandle(chunks, open)
    ensures ValidHandles(chunks, calls + Closed(open, t))
    ensures After(chunks, calls + Closed(open, t), rest)
            == After(chunks, calls, Deliver(AtPosition(chunks, open), t, rest))
  {
    hide After;
    var closed := Closed(open, t);
    if |closed| == 1 {
      AfterOneMore(chunks, calls, closed[0], rest);
    } else {
      assert calls + closed == calls + [closed[0]] + [closed[1]];
      AfterOneMore(chunks, calls, closed[0], More(AtPosition(chunks, closed[1]), rest));
      AfterOneMore(chunks, calls + [closed[0]], closed[1], rest);
    }
  }

  lemma {:induction false} ClosingState(
    chunks: seq<seq<Transition>>, start: nat, all: bool, h: Handle,
    open: Call<Handle>, calls: seq<Call<Handle>>, next: Call<Handle>)
    requires IsTransition(chunks, h) && chunks[h.chunk][h.index].kind in {Exit, Unwind} && next.handle == None
    requires LoopState(chunks, start, all, Position(chunks, h), 1, open, calls)
    ensures LoopState(chunks, start, all, Position(chunks, h) + 1, 0, next, calls + Closed(open, chunks[h.chunk][h.index]))
  {
    TransitionAt(chunks, h);
    hide After, OpenAt, Concat, Enumerate;
    var s, k := Concat(chunks), Position(chunks, h);
    ClosingExit(s, k, AtPosition(chunks, open), all);
    AfterClosed(chunks, calls, open, s[k], Enumerate(s, k + 1, all));
  }

  /** The body of the reader's inner loop: handles the transition `t` named by `h`. */
  method VisitTransition(
    ghost chunks: seq<seq<Transition>>, ghost start: nat, t: Transition, h: Handle, includeAllTopLevel: bool,
    oldDepth: int, oldCall: Call<Handle>, oldCalls: seq<Call<Handle>>)
    returns (returned: Option<Status>, depth: int, call: Call<Handle>, calls: seq<Call<Handle>>)
    requires IsTransition(chunks, h) && t == chunks[h.chunk][h.index]
    requires LoopState(chunks, start, includeAllTopLevel, Position(chunks, h), oldDepth, oldCall, oldCalls)
    ensures returned.None? ==>
              LoopState(chunks, start, includeAllTopLevel, Position(chunks, h) + 1, depth, call, calls)
    ensures returned.Some? ==>
              ValidHandles(chunks, calls)
              && Enumerate(Concat(chunks), start, includeAllTopLevel) == After(chunks, calls, End(returned.value))
  {
    TransitionAt(chunks, h);
    assert oldDepth >= 0;
    hide *;
    returned, depth, call, calls := None, oldDepth, oldCall, oldCalls;
    var depthDelta: int;
    var isEntry: bool;
    match t.kind {
      case Entry =>
        depthDelta, isEntry := 1, true;
      case Exit =>
        depthDelta, isEntry, depth := 0, false, depth - 1;
      case Unwind =>
        depthDelta, isEntry, depth := 0, false, depth - 1;
      case Unassigned =>
        ReturnState(chunks, start, includeAllTopLevel, Position(chunks, h), depth, call, calls);
        returned := Some(InvalidTransition);
        return;
    }
    if depth < 0 {
      if includeAllTopLevel {
        // Missing entry transition: stay at the top level.
        SkippedExitState(chunks, start, includeAllTopLevel, h, 0, call, calls);
        depth := 0;
      } else {
        ReturnState(chunks, start, includeAllTopLevel, Position(chunks, h), 0, call, calls);
        returned := Some(Ok);
        return;
      }
    } else if depth == 0 {
      if isEntry {
        EntryState(chunks, start, includeAllTopLevel, h, 0, call, calls);
        call := Entered(call, h, t);
      } else {
        call, calls := CloseCall(t, call, calls);
        ClosingState(chunks, start, includeAllTopLevel, h, oldCall, oldCalls, call);
      }
    } else if isEntry {
      EntryState(chunks, start, includeAllTopLevel, h, depth, call, calls);
      call := Counted(call);
    } else {
      SkippedExitState(chunks, start, includeAllTopLevel, h, depth + 1, call, calls);
    }
    depth := depth + depthDelta;
  }

  /** Delivers the open call, and a second one when the exit belongs to another procedure. */
  method CloseCall(t: Transition, open: Call<Handle>, oldCalls: seq<Call<Handle>>)
    returns (call: Call<Handle>, calls: seq<Call<Handle>>)
    requires t.kind in {Exit, Unwind}
    ensures call.handle == None && calls == oldCalls + Closed(open, t)
    ensures var exitType := if t.kind == Exit then NormalExit else ExceptionExit;
            if open.procedure == t.procedure then
              calls == oldCalls + [open.(exitTime := t.time, exitType := exitType, result := t.info)]
            else
              && |calls| == |oldCalls| + 2 && calls[..|oldCalls|] == oldCalls
              && calls[|oldCalls|] == open.(exitTime := t.time, exitType := SyntheticExit, result := 0)
              && calls[|oldCalls| + 1]
                 == Call(SyntheticEntry, exitType, None, t.procedure, t.time, t.time, 0, 0, t.info)
  {
    call, calls := open.(exitTime := t.time), oldCalls;
    if call.procedure != t.procedure {
      // Missing exit transition: end the open call and give this exit an entry of its own.
      call := call.(result := 0, exitType := SyntheticExit);
      calls := calls + [call];
      call := call.(entryType := SyntheticEntry, handle := None, procedure := t.procedure,
                    entryTime := t.time, callerIp := 0, childCalls := 0);
    }
    call := call.(exitType := if t.kind == Exit then NormalExit else ExceptionExit, result := t.info);
    calls := calls + [call];
    call := call.(procedure := 0, handle := None);
  }

  /**
   Walks the chunks from `caller` on.  Delivered calls are collected in `calls`, also
   when an error status ends the walk.
   */
  method EnumTransitions(chunks: seq<seq<Transition>>, caller: Handle, skipFirst: bool, includeAllTopLevel: bool)
    returns (status: Status, calls: seq<Call<Handle>>)
    requires caller.chunk < |chunks|
    ensures ValidHandles(chunks, calls)
    ensures caller.index > |chunks[caller.chunk]| ==> status == InvalidCallHandle && calls == []
    ensures caller.index <= |chunks[caller.chunk]| ==>
              Enumerate(Concat(chunks), Start(chunks, caller, skipFirst), includeAllTopLevel)
              == After(chunks, calls, End(status))
  {
    hide LoopState, Position, Concat, Enumerate, After;
    calls := [];
    var c := caller.chunk;
    var currentIndex := caller.index;
    var skip := skipFirst;
    var call, depth := NewCall(), 0;
    ghost var start := Start(chunks, caller, skipFirst);
    ghost var k := start;  // position of the next transition
    ChunkPositions(chunks, c);
    if currentIndex <= |chunks[c]| {
      InitialState(chunks, caller, skipFirst, includeAllTopLevel);
    }
    while c < |chunks|
      invariant caller.chunk <= c <= |chunks|
      invariant c == caller.chunk ==> currentIndex == caller.index && skip == skipFirst && calls == [] && k == start
      invariant c > caller.chunk ==> currentIndex == 0 && !skip && caller.index <= |chunks[caller.chunk]|
                                     && k == Position(chunks, Handle(c, 0))
      invariant caller.index <= |chunks[caller.chunk]| ==>
                  LoopState(chunks, start, includeAllTopLevel, k, depth, call, calls)
    {
      var chunk := chunks[c];
      ChunkPositions(chunks, c);
      if currentIndex > |chunk| {
        return InvalidCallHandle, calls;
      }
      if skip {
        currentIndex := currentIndex + 1;
        skip := false;
      }
      while currentIndex < |chunk|
        invariant currentIndex <= |chunk| + 1
        invariant k == Position(chunks, Handle(c, if currentIndex <= |chunk| then currentIndex else |chunk|))
        invariant LoopState(chunks, start, includeAllTopLevel, k, depth, call, calls)
      {
        var returned;
        returned, depth, call, calls := VisitTransition(chunks, start, chunk[currentIndex], Handle(c, currentIndex),
                                                        includeAllTopLevel, depth, call, calls);
        if returned.Some? {
          return returned.value, calls;
        }
        currentIndex := currentIndex + 1;
        k := k + 1;
      }
      c := c + 1;
      currentIndex := 0;
    }
    ReturnState(chunks, start, includeAllTopLevel, k, depth, call, calls);
    return Ok, calls;
  }

  /** All top-level calls of a client that has left at least one chunk. */
  method EnumCalls(chunks: seq<seq<Transition>>) returns (status: Status, calls: seq<Call<Handle>>)
    requires chunks != []
    ensures ValidHandles(chunks, calls)
    ensures Enumerate(Concat(chunks), 0, true) == After(chunks, calls, End(status))
  {
    assert Start(chunks, Handle(0, 0), false) == 0;
    status, calls := EnumTransitions(chunks, Handle(0, 0), false, true);
  }

  /** The calls made directly inside the call named by `caller`. */
  method EnumChildCalls(chunks: seq<seq<Transition>>, caller: Option<Handle>)
    returns (status: Status, calls: seq<Call<Handle>>)
    requires caller.Some? ==> caller.value.chunk < |chunks|
    ensures ValidHandles(chunks, calls)
    ensures caller == None ==> status == InvalidArgument && calls == []
    ensures caller.Some? && caller.value.index > |chunks[caller.value.chunk]| ==>
              status == InvalidCallHandle && calls == []
    ensures caller.Some? && caller.value.index <= |chunks[caller.value.chunk]| ==>
              Enumerate(Concat(chunks), Start(chunks, caller.value, true), false) == After(chunks, calls, End(status))
    ensures caller.Some? && IsTransition(chunks, caller.value) ==>
              Enumerate(Concat(chunks), Position(chunks, caller.value) + 1, false) == After(chunks, calls, End(status))
  {
    if caller == None {
      return InvalidArgument, [];
    }
    status, calls := EnumTransitions(chunks, caller.value, true, false);
  }
}
