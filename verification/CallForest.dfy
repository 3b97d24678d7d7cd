/**
 What the calls reported by `CallTree.Enumerate` mean for a reader who enumerates a
 client and then, recursively, the children of every call.
 */
module CallForest {

  import opened Common
  import opened CallTree

  // ---------------------------------------------------------------- pairing entries with exits

  /** The entry at `k` is closed at `m`. */
  ghost predicate CallAt(s: seq<Transition>, k: nat, m: nat) {
    k < m < |s| && s[k].kind == Entry && s[m].kind in {Exit, Unwind} && ClosingOf(s, k + 1, 0) == ClosedAt(m)
  }

  /** A call inside the one sought is skipped as a whole. */
  lemma {:induction false} ClosingSkipsCall(s: seq<Transition>, k: nat, depth: nat, more: nat)
    ensures ClosingOf(s, k, depth + 1 + more)
            == match ClosingOf(s, k, depth)
               case ClosedAt(m) => ClosingOf(s, m + 1, more)
               case other => other
    decreases |s| - k
  {
    if k < |s| {
      match s[k].kind {
        case Unassigned =>
        case Entry => ClosingSkipsCall(s, k + 1, depth + 1, more);
        case _ =>
          if depth > 0 {
            ClosingSkipsCall(s, k + 1, depth - 1, more);
          }
      }
    }
  }

  lemma {:induction false} CountSplits(s: seq<Transition>, i: nat, m: nat, j: nat)
    requires i <= m <= j <= |s|
    ensures CountEntries(s, i, j) == CountEntries(s, i, m) + CountEntries(s, m, j)
    decreases j
  {
    if m < j {
      CountSplits(s, i, m, j - 1);
    }
  }

  lemma {:induction false} CountOfCall(s: seq<Transition>, k: nat, m: nat, j: nat)
    requires CallAt(s, k, m) && m < j <= |s|
    ensures CountEntries(s, k, j) == 1 + CountEntries(s, k + 1, m) + CountEntries(s, m + 1, j)
  {
    CountSplits(s, k, k + 1, j);
    CountSplits(s, k + 1, m, j);
    CountSplits(s, m, m + 1, j);
    assert CountEntries(s, k, k + 1) == CountEntries(s, k, k) + 1;
    assert CountEntries(s, m, m + 1) == CountEntries(s, m, m);
  }

  lemma {:induction false} EnumerateCall(s: seq<Transition>, k: nat, all: bool, m: nat)
    requires CallAt(s, k, m)
    ensures Enumerate(s, k, all) == Deliver(OpenCall(s, k, m), s[m], Enumerate(s, m + 1, all))
  {
  }

  // ---------------------------------------------------------------- recursive enumeration

  /** The children of the call whose entry is at `at`. */
  function Children(s: seq<Transition>, at: nat): Listing {
    Enumerate(s, at + 1, false)
  }

  /** Has a normal entry, at or after `lo`.  By `LevelHandles` every handle of a level from `lo` on is in range. */
  predicate Expandable(s: seq<Transition>, c: Call<nat>, lo: nat) {
    c.handle.Some? && lo <= c.handle.value < |s|
  }

  /** How many calls with a normal entry a recursive enumeration of `l` finds. */
  function Found(s: seq<Transition>, l: Listing, lo: nat): nat
    decreases |s| - lo, l
  {
    match l
    case End(_) => 0
    case More(c, rest) =>
      (if Expandable(s, c, lo) then 1 + Found(s, Children(s, c.handle.value), c.handle.value + 1) else 0)
      + Found(s, rest, lo)
  }

  /** How many calls with a real exit it finds. */
  function FoundExits(s: seq<Transition>, l: Listing, lo: nat): nat
    decreases |s| - lo, l
  {
    match l
    case End(_) => 0
    case More(c, rest) =>
      (if c.exitType != SyntheticExit then 1 else 0)
      + (if Expandable(s, c, lo) then FoundExits(s, Children(s, c.handle.value), c.handle.value + 1) else 0)
      + FoundExits(s, rest, lo)
  }

  ghost predicate HandlesFrom(s: seq<Transition>, l: Listing, lo: nat) {
    l.More? ==> (l.call.handle.Some? ==> Expandable(s, l.call, lo)) && HandlesFrom(s, l.rest, lo)
  }

  lemma {:induction false} HandlesFromEarlier(s: seq<Transition>, l: Listing, lo: nat, lo': nat)
    requires lo <= lo' && HandlesFrom(s, l, lo')
    ensures HandlesFrom(s, l, lo) && Found(s, l, lo) == Found(s, l, lo') && Rebuild(s, l, lo) == Rebuild(s, l, lo')
    ensures FoundExits(s, l, lo) == FoundExits(s, l, lo')
    decreases l
  {
    if l.More? {
      HandlesFromEarlier(s, l.rest, lo, lo');
    }
  }

  lemma {:induction false} LevelHandles(s: seq<Transition>, i: nat, all: bool)
    ensures HandlesFrom(s, Enumerate(s, i, all), i)
    decreases |s| - i
  {
    if i < |s| && s[i].kind != Unassigned {
      var closing := ClosingOf(s, i + 1, 0);
      if s[i].kind != Entry {
        LevelHandles(s, i + 1, all);
        HandlesFromEarlier(s, Enumerate(s, i + 1, all), i, i + 1);
      } else if closing.ClosedAt? {
        LevelHandles(s, closing.at + 1, all);
        HandlesFromEarlier(s, Enumerate(s, closing.at + 1, all), i, closing.at + 1);
      }
    }
  }

  /** Where an enumeration of top-level calls gives up: at the first call that is never closed. */
  function Reach(s: seq<Transition>, i: nat): (r: nat)
    requires i <= |s|
    ensures i <= r <= |s|
    decreases |s| - i
  {
    if i == |s| then i
    else match s[i].kind
      case Unassigned => i
      case Entry => if ClosingOf(s, i + 1, 0).ClosedAt? then Reach(s, ClosingOf(s, i + 1, 0).at + 1) else i
      case _ => Reach(s, i + 1)
  }

  /** `all` decides what ends the level: the end of the stream, or the exit at `j` that closed the parent. */
  ghost predicate LevelEnds(s: seq<Transition>, k: nat, all: bool, j: nat) {
    && k <= j <= |s|
    && if all then j == Reach(s, k) else ClosingOf(s, k, 0) == ClosedAt(j)
  }

  lemma {:induction false} LevelsOfCall(s: seq<Transition>, k: nat, all: bool, j: nat, m: nat)
    requires LevelEnds(s, k, all, j) && CallAt(s, k, m)
    ensures m < j && LevelEnds(s, m + 1, all, j) && LevelEnds(s, k + 1, false, m)
  {
    ClosingSkipsCall(s, k + 1, 0, 0);
  }

  lemma {:induction false} FoundInCall(s: seq<Transition>, k: nat, all: bool, m: nat)
    requires CallAt(s, k, m)
    ensures Found(s, Enumerate(s, k, all), k)
            == 1 + Found(s, Children(s, k), k + 1) + Found(s, Enumerate(s, m + 1, all), m + 1)
  {
    EnumerateCall(s, k, all, m);
    LevelHandles(s, m + 1, all);
    HandlesFromEarlier(s, Enumerate(s, m + 1, all), k, m + 1);
    hide Enumerate, ClosingOf, Children, CountEntries;
  }

  /**
   On any stream, enumerating a level finds every entry before the end of the level
   exactly once: as a call of that level or, recursively, below one.
   */
  lemma {:induction false} FoundIsEveryEntry(s: seq<Transition>, k: nat, all: bool, j: nat)
    requires LevelEnds(s, k, all, j)
    ensures Found(s, Enumerate(s, k, all), k) == CountEntries(s, k, j)
    decreases |s| - k
  {
    if k < |s| && s[k].kind == Entry && ClosingOf(s, k + 1, 0).ClosedAt? {
      var m := ClosingOf(s, k + 1, 0).at;
      LevelsOfCall(s, k, all, j, m);
      FoundInCall(s, k, all, m);
      CountOfCall(s, k, m, j);
      hide Enumerate, ClosingOf, Reach, CountEntries, Found;
      FoundIsEveryEntry(s, k + 1, false, m);
      FoundIsEveryEntry(s, m + 1, all, j);
    } else if k < |s| && s[k].kind == Entry && !all {
      ClosingSkipsCall(s, k + 1, 0, 0);
    } else if k < |s| && s[k].kind in {Exit, Unwind} && all {
      FoundIsEveryEntry(s, k + 1, all, j);
      LevelHandles(s, k + 1, all);
      HandlesFromEarlier(s, Enumerate(s, k + 1, all), k, k + 1);
      CountSplits(s, k, k + 1, j);
      assert CountEntries(s, k, k + 1) == CountEntries(s, k, k);
    }
  }

  function StatusOf(l: Listing): Status {
    match l
    case End(status) => status
    case More(_, rest) => StatusOf(rest)
  }

  /** Enumerating the children of a closed call ends at the exit that closed it, without an error. */
  lemma {:induction false} ClosedLevelIsOk(s: seq<Transition>, k: nat, j: nat)
    requires ClosingOf(s, k, 0) == ClosedAt(j)
    ensures StatusOf(Enumerate(s, k, false)) == Ok
    decreases |s| - k
  {
    if s[k].kind == Entry {
      ClosingSkipsCall(s, k + 1, 0, 0);
      ClosedLevelIsOk(s, ClosingOf(s, k + 1, 0).at + 1, j);
    }
  }

  ghost predicate Listed(c: Call<nat>, l: Listing) {
    l.More? && (c == l.call || Listed(c, l.rest))
  }

  /** `c` is one of the calls delivered for the entry at `k` and the exit at `m`. */
  ghost predicate DeliveredFor(s: seq<Transition>, k: nat, m: nat, c: Call<nat>)
    requires k < m < |s|
  {
    var l := Deliver(OpenCall(s, k, m), s[m], End(Ok));
    c == l.call || (l.rest.More? && c == l.rest.call)
  }

  /** Every listed call comes from an entry of the level and the exit that closes it. */
  lemma {:induction false} ListedCall(s: seq<Transition>, i: nat, all: bool, c: Call<nat>) returns (k: nat, m: nat)
    requires Listed(c, Enumerate(s, i, all))
    ensures i <= k && CallAt(s, k, m) && DeliveredFor(s, k, m, c)
    decreases |s| - i
  {
    if s[i].kind == Entry {
      k, m := i, ClosingOf(s, i + 1, 0).at;
      if !DeliveredFor(s, k, m, c) {
        var rest := Enumerate(s, m + 1, all);
        assert Enumerate(s, i, all) == Deliver(OpenCall(s, k, m), s[m], rest);
        hide Enumerate, ClosingOf, OpenCall;
        assert Listed(c, rest);
        k, m := ListedCall(s, m + 1, all, c);
      }
    } else {
      k, m := ListedCall(s, i + 1, all, c);
    }
  }

  /** Its entry and its exit lie within the level: enumerating a level stops at the exit that ends it. */
  lemma {:induction false} ListedInside(s: seq<Transition>, i: nat, all: bool, j: nat, c: Call<nat>) returns (k: nat, m: nat)
    requires LevelEnds(s, i, all, j) && Listed(c, Enumerate(s, i, all))
    ensures i <= k < m < j && CallAt(s, k, m) && DeliveredFor(s, k, m, c)
    ensures c.handle.Some? ==> c.handle == Some(k)
    decreases |s| - i
  {
    if s[i].kind == Entry {
      k, m := i, ClosingOf(s, i + 1, 0).at;
      LevelsOfCall(s, i, all, j, m);
      if !DeliveredFor(s, k, m, c) {
        var rest := Enumerate(s, m + 1, all);
        assert Enumerate(s, i, all) == Deliver(OpenCall(s, k, m), s[m], rest);
        hide Enumerate, ClosingOf, OpenCall, Reach;
        assert Listed(c, rest);
        k, m := ListedInside(s, m + 1, all, j, c);
      }
    } else {
      k, m := ListedInside(s, i + 1, all, j, c);
    }
  }

  /**
   The `ChildCalls` field of a delivered call is what a recursive enumeration of its
   handle finds, up to the width of the field, and that enumeration never fails.
   */
  lemma {:induction false} ChildCallsIsFound(s: seq<Transition>, i: nat, all: bool, c: Call<nat>)
    requires Listed(c, Enumerate(s, i, all)) && c.handle.Some?
    ensures c.childCalls == Found(s, Children(s, c.handle.value), c.handle.value + 1) % ULONG_RANGE
    ensures StatusOf(Children(s, c.handle.value)) == Ok
  {
    var k, m := ListedCall(s, i, all, c);
    assert LevelEnds(s, k + 1, false, m);
    ClosedLevelIsOk(s, k + 1, m);
    FoundIsEveryEntry(s, k + 1, false, m);
    hide Enumerate, ClosingOf, CountEntries, Found, StatusOf;
  }

  /**
   A client's recursive enumeration misses exactly the entries from `Reach` on: those at
   or inside the first top-level call that is never closed, or behind a bad transition.
   */
  lemma {:induction false} TopLevelFindsAll(s: seq<Transition>)
    ensures Found(s, Enumerate(s, 0, true), 0) == CountEntries(s, 0, Reach(s, 0))
    ensures Found(s, Enumerate(s, 0, true), 0) == CountEntries(s, 0, |s|)
            <==> CountEntries(s, Reach(s, 0), |s|) == 0
  {
    assert LevelEnds(s, 0, true, Reach(s, 0));
    FoundIsEveryEntry(s, 0, true, Reach(s, 0));
    CountSplits(s, 0, Reach(s, 0), |s|);
  }

  /** The smallest stream of which something is missed: a call that never ends. */
  lemma {:induction false} UnclosedIsMissed() returns (s: seq<Transition>)
    ensures s == [Transition(Entry, 0, 1, 0)]
    ensures Found(s, Enumerate(s, 0, true), 0) == 0 && CountEntries(s, 0, |s|) == 1
  {
    s := [Transition(Entry, 0, 1, 0)];
    assert ClosingOf(s, 1, 0) == Unclosed;
    assert CountEntries(s, 0, 0) == 0;
  }

  // ---------------------------------------------------------------- shape of delivered calls

  ghost predicate Monotone(s: seq<Transition>) {
    forall i, j :: 0 <= i <= j < |s| ==> s[i].time <= s[j].time
  }

  /** `c` has a real entry, at `k`, or a real exit, at `m`, or both, and then of one procedure. */
  ghost predicate RealEnds(s: seq<Transition>, c: Call<nat>, k: nat, m: nat) {
    && CallAt(s, k, m)
    && !(c.entryType == SyntheticEntry && c.exitType == SyntheticExit)
    && c.exitTime == s[m].time
    && (c.entryType == NormalEntry ==>
          && c.handle == Some(k)
          && s[k] == Transition(Entry, c.entryTime, c.procedure, c.callerIp)
          && (c.exitType == SyntheticExit <==> c.procedure != s[m].procedure))
    && (c.entryType == SyntheticEntry ==> c.handle == None && c.childCalls == 0 && c.entryTime == c.exitTime)
    && (c.exitType != SyntheticExit ==>
          c.procedure == s[m].procedure && c.result == s[m].info
          && (c.exitType == ExceptionExit <==> s[m].kind == Unwind))
  }

  /** No call is synthetic at both ends, and time does not run backwards inside a call. */
  lemma {:induction false} DeliveredEnds(s: seq<Transition>, i: nat, all: bool, c: Call<nat>) returns (k: nat, m: nat)
    requires Listed(c, Enumerate(s, i, all))
    ensures i <= k && RealEnds(s, c, k, m)
    ensures Monotone(s) ==> c.entryTime <= c.exitTime
  {
    k, m := ListedCall(s, i, all, c);
  }

  // ---------------------------------------------------------------- both ends of every call

  function ExitKind(t: Transition): ExitType {
    if t.kind == Exit then NormalExit else ExceptionExit
  }

  /** An exit of the procedure that was entered closes one call, with both ends real. */
  lemma {:induction false} MatchedCall(s: seq<Transition>, k: nat, all: bool, m: nat)
    requires CallAt(s, k, m) && s[k].procedure == s[m].procedure
    ensures var inside := CountEntries(s, k + 1, m) % ULONG_RANGE;
            Enumerate(s, k, all) == More(
              Call(NormalEntry, ExitKind(s[m]), Some(k), s[k].procedure, s[k].time, s[m].time, s[k].info, inside, s[m].info),
              Enumerate(s, m + 1, all))
  {
    EnumerateCall(s, k, all, m);
  }

  /**
   An exit of another procedure gives exactly two calls: the one that was entered, whose exit
   has been lost, and the one that exits here, whose entry has been lost.
   */
  lemma {:induction false} MismatchedCall(s: seq<Transition>, k: nat, all: bool, m: nat)
    requires CallAt(s, k, m) && s[k].procedure != s[m].procedure
    ensures var inside := CountEntries(s, k + 1, m) % ULONG_RANGE;
            Enumerate(s, k, all) == More(
              Call(NormalEntry, SyntheticExit, Some(k), s[k].procedure, s[k].time, s[m].time, s[k].info, inside, 0),
              More(
                Call(SyntheticEntry, ExitKind(s[m]), None, s[m].procedure, s[m].time, s[m].time, 0, 0, s[m].info),
                Enumerate(s, m + 1, all)))
  {
    EnumerateCall(s, k, all, m);
  }

  /** `c` really ended with `t`. */
  predicate EndedBy(c: Call<nat>, t: Transition) {
    c.exitType == ExitKind(t) && c.procedure == t.procedure && c.exitTime == t.time && c.result == t.info
  }

  /** `c` really began with the transition at `k`. */
  predicate BegunAt(s: seq<Transition>, c: Call<nat>, k: nat)
    requires k < |s|
  {
    && c.entryType == NormalEntry && c.handle == Some(k)
    && c.procedure == s[k].procedure && c.entryTime == s[k].time && c.callerIp == s[k].info
  }

  /** `k` belongs to the level that starts at `i`: no call between the two is still open there. */
  ghost predicate AtLevel(s: seq<Transition>, i: nat, k: nat) {
    i <= k && forall k': nat, m': nat :: i <= k' < k && CallAt(s, k', m') ==> m' < k
  }

  lemma {:induction false} CallListed(s: seq<Transition>, k: nat, all: bool, m: nat) returns (b: Call<nat>, e: Call<nat>)
    requires CallAt(s, k, m)
    ensures Listed(b, Enumerate(s, k, all)) && BegunAt(s, b, k)
    ensures Listed(e, Enumerate(s, k, all)) && EndedBy(e, s[m])
    ensures b == e <==> s[k].procedure == s[m].procedure
    ensures forall c :: Listed(c, Enumerate(s, m + 1, all)) ==> Listed(c, Enumerate(s, k, all))
  {
    if s[k].procedure == s[m].procedure {
      MatchedCall(s, k, all, m);
      b := Enumerate(s, k, all).call;
      e := b;
    } else {
      MismatchedCall(s, k, all, m);
      b, e := Enumerate(s, k, all).call, Enumerate(s, k, all).rest.call;
    }
  }

  /**
   No end of a level gets lost: the entry and the exit of each of its calls are the real ends
   of delivered calls, of one and the same iff they belong to the same procedure.
   */
  lemma {:induction false} EndsListed(s: seq<Transition>, i: nat, all: bool, j: nat, k: nat, m: nat)
    returns (b: Call<nat>, e: Call<nat>)
    requires LevelEnds(s, i, all, j) && AtLevel(s, i, k) && k < j && CallAt(s, k, m)
    ensures Listed(b, Enumerate(s, i, all)) && BegunAt(s, b, k)
    ensures Listed(e, Enumerate(s, i, all)) && EndedBy(e, s[m])
    ensures b == e <==> s[k].procedure == s[m].procedure
    decreases |s| - i
  {
    if i == k {
      b, e := CallListed(s, k, all, m);
    } else if s[i].kind == Entry {
      var m' := LevelCall(s, i, all, j);
      LevelsOfCall(s, i, all, j, m');
      b, e := EndsListed(s, m' + 1, all, j, k, m);
      var b', e' := CallListed(s, i, all, m');
    } else {
      b, e := EndsListed(s, i + 1, all, j, k, m);
    }
  }

  /** In front of the end of its level every entry is closed. */
  lemma {:induction false} LevelCall(s: seq<Transition>, i: nat, all: bool, j: nat) returns (m: nat)
    requires LevelEnds(s, i, all, j) && i < j && s[i].kind == Entry
    ensures CallAt(s, i, m)
  {
    if !all {
      ClosingSkipsCall(s, i + 1, 0, 0);
    }
    m := ClosingOf(s, i + 1, 0).at;
  }

  lemma {:induction false} ExitsInCall(s: seq<Transition>, k: nat, all: bool, m: nat)
    requires CallAt(s, k, m)
    ensures FoundExits(s, Enumerate(s, k, all), k)
            == 1 + FoundExits(s, Children(s, k), k + 1) + FoundExits(s, Enumerate(s, m + 1, all), m + 1)
  {
    EnumerateCall(s, k, all, m);
    LevelHandles(s, m + 1, all);
    HandlesFromEarlier(s, Enumerate(s, m + 1, all), k, m + 1);
    hide Enumerate, ClosingOf, Children, CountEntries;
  }

  /** Recursive enumeration finds as many real exits as there are entries: none is dropped or repeated. */
  lemma {:induction false} ExitsMatchEntries(s: seq<Transition>, k: nat, all: bool, j: nat)
    requires LevelEnds(s, k, all, j)
    ensures FoundExits(s, Enumerate(s, k, all), k) == CountEntries(s, k, j)
    decreases |s| - k
  {
    if k < |s| && s[k].kind == Entry && ClosingOf(s, k + 1, 0).ClosedAt? {
      var m := ClosingOf(s, k + 1, 0).at;
      LevelsOfCall(s, k, all, j, m);
      ExitsInCall(s, k, all, m);
      CountOfCall(s, k, m, j);
      hide Enumerate, ClosingOf, Reach, CountEntries, FoundExits;
      ExitsMatchEntries(s, k + 1, false, m);
      ExitsMatchEntries(s, m + 1, all, j);
    } else if k < |s| && s[k].kind == Entry && !all {
      ClosingSkipsCall(s, k + 1, 0, 0);
    } else if k < |s| && s[k].kind in {Exit, Unwind} && all {
      ExitsMatchEntries(s, k + 1, all, j);
      LevelHandles(s, k + 1, all);
      HandlesFromEarlier(s, Enumerate(s, k + 1, all), k, k + 1);
      CountSplits(s, k, k + 1, j);
      assert CountEntries(s, k, k + 1) == CountEntries(s, k, k);
    }
  }

  lemma {:induction false} ListedCalls(chunks: seq<seq<Transition>>, calls: seq<Call<Handle>>, l: Listing, c: Call<nat>)
    requires ValidHandles(chunks, calls) && Listed(c, After(chunks, calls, l)) && !Listed(c, l)
    ensures exists i :: 0 <= i < |calls| && AtPosition(chunks, calls[i]) == c
    decreases |calls|
  {
    if calls != [] {
      var n := |calls| - 1;
      var last := AtPosition(chunks, calls[n]);
      if c != last {
        ListedCalls(chunks, calls[..n], More(last, l), c);
        var i :| 0 <= i < n && AtPosition(chunks, calls[..n][i]) == c;
        assert calls[i] == calls[..n][i];
      }
    }
  }

  /**
   For the calls a client gets from one enumeration, of the top level or of children, whatever
   the chunks: the entry and the exit of each call of the level are reported as real ends.
   */
  lemma {:induction false} EndsReported(
    chunks: seq<seq<Transition>>, calls: seq<Call<Handle>>, status: Status, start: nat, all: bool, j: nat, k: nat, m: nat)
    requires ValidHandles(chunks, calls)
    requires Enumerate(Concat(chunks), start, all) == After(chunks, calls, End(status))
    requires var s := Concat(chunks); LevelEnds(s, start, all, j) && AtLevel(s, start, k) && k < j && CallAt(s, k, m)
    ensures exists i :: 0 <= i < |calls| && BegunAt(Concat(chunks), AtPosition(chunks, calls[i]), k)
    ensures exists i :: 0 <= i < |calls| && EndedBy(AtPosition(chunks, calls[i]), Concat(chunks)[m])
  {
    var b, e := EndsListed(Concat(chunks), start, all, j, k, m);
    hide Enumerate, LevelEnds, AtLevel, BegunAt, EndedBy, CallAt, After;
    ListedCalls(chunks, calls, End(status), b);
    ListedCalls(chunks, calls, End(status), e);
  }

  ghost predicate HasBad(s: seq<Transition>, i: nat) {
    exists k :: i <= k < |s| && s[k].kind == Unassigned
  }

  lemma {:induction false} MalformedIsBad(s: seq<Transition>, k: nat, depth: nat)
    ensures match ClosingOf(s, k, depth)
            case Malformed => HasBad(s, k)
            case Unclosed => !HasBad(s, k)
            case ClosedAt(m) => forall u :: k <= u <= m ==> s[u].kind != Unassigned
    decreases |s| - k
  {
    if k < |s| && s[k].kind != Unassigned {
      var depth' := if s[k].kind == Entry then depth + 1 else if depth > 0 then depth - 1 else 0;
      if s[k].kind == Entry || depth > 0 {
        MalformedIsBad(s, k + 1, depth');
      }
    }
  }

  /** The top level ends with an error iff there is a malformed transition anywhere in the stream. */
  lemma {:induction false} ErrorIffBad(s: seq<Transition>, i: nat)
    ensures StatusOf(Enumerate(s, i, true)) == if HasBad(s, i) then InvalidTransition else Ok
    decreases |s| - i
  {
    if i < |s| && s[i].kind != Unassigned {
      if s[i].kind == Entry {
        MalformedIsBad(s, i + 1, 0);
        var closing := ClosingOf(s, i + 1, 0);
        if closing.ClosedAt? {
          ErrorIffBad(s, closing.at + 1);
        }
      } else {
        ErrorIffBad(s, i + 1);
      }
    }
  }

  // ---------------------------------------------------------------- printing and reading back

  /** How a call began and ended; `NotSeen` and `Lost` stand for synthetic entries and exits. */
  datatype Origin = CalledFrom(ip: nat) | NotSeen
  datatype Outcome = Returned(value: nat) | Raised(code: nat) | Lost

  datatype Invocation = Invocation(procedure: nat, origin: Origin, entryTime: nat, exitTime: nat, outcome: Outcome)

  /** A list of calls, each with the calls made inside it: first child, next sibling. */
  datatype Forest = Leaf | Node(call: Invocation, children: Forest, next: Forest)

  ghost predicate Complete(f: Forest) {
    f.Node? ==> f.call.origin != NotSeen && f.call.outcome != Lost && Complete(f.children) && Complete(f.next)
  }

  function PrintEntry(c: Invocation): Transition {
    Transition(Entry, c.entryTime, c.procedure, if c.origin.CalledFrom? then c.origin.ip else 0)
  }

  function PrintExit(c: Invocation): Transition {
    match c.outcome
    case Returned(v) => Transition(Exit, c.exitTime, c.procedure, v)
    case Raised(code) => Transition(Unwind, c.exitTime, c.procedure, code)
    case Lost => Transition(Exit, c.exitTime, c.procedure, 0)
  }

  function Width(f: Forest): nat {
    if f.Leaf? then 0 else 2 + Width(f.children) + Width(f.next)
  }

  /** The transitions the tracer records while the calls of `f` run. */
  function Print(f: Forest): (r: seq<Transition>)
    ensures |r| == Width(f)
  {
    match f
    case Leaf => []
    case Node(c, children, next) => [PrintEntry(c)] + Print(children) + [PrintExit(c)] + Print(next)
  }

  function InvocationOf<H>(c: Call<H>): Invocation {
    Invocation(
      c.procedure,
      if c.entryType == NormalEntry then CalledFrom(c.callerIp) else NotSeen,
      c.entryTime, c.exitTime,
      match c.exitType
      case NormalExit => Returned(c.result)
      case ExceptionExit => Raised(c.result)
      case SyntheticExit => Lost)
  }

  /** The forest a recursive enumeration of `l` builds. */
  function Rebuild(s: seq<Transition>, l: Listing, lo: nat): Forest
    decreases |s| - lo, l
  {
    match l
    case End(_) => Leaf
    case More(c, rest) =>
      Node(InvocationOf(c),
           if Expandable(s, c, lo) then Rebuild(s, Children(s, c.handle.value), c.handle.value + 1) else Leaf,
           Rebuild(s, rest, lo))
  }

  /** The printed form of `f` stands at position `k` of the stream. */
  ghost predicate PrintedAt(s: seq<Transition>, k: nat, f: Forest)
    decreases f
  {
    && k + Width(f) <= |s|
    && (f.Node? ==>
          var exit := k + 1 + Width(f.children);
          && s[k] == PrintEntry(f.call) && s[exit] == PrintExit(f.call)
          && PrintedAt(s, k + 1, f.children) && PrintedAt(s, exit + 1, f.next))
  }

  lemma {:induction false} SliceSplits(s: seq<Transition>, k: nat, a: seq<Transition>, b: seq<Transition>)
    requires k + |a + b| <= |s| && s[k..k + |a + b|] == a + b
    ensures s[k..k + |a|] == a && s[k + |a|..k + |a| + |b|] == b
    ensures |a| == 1 ==> s[k] == a[0]
    ensures |b| == 1 ==> s[k + |a|] == b[0]
  {
    assert (a + b)[..|a|] == a && (a + b)[|a|..] == b;
    assert s[k..k + |a + b|][..|a|] == s[k..k + |a|];
    assert s[k..k + |a + b|][|a|..] == s[k + |a|..k + |a| + |b|];
  }

  lemma {:induction false} PrintParts(s: seq<Transition>, k: nat, f: Forest)
    requires k + |Print(f)| <= |s| && s[k..k + |Print(f)|] == Print(f) && f.Node?
    ensures var exit := k + 1 + |Print(f.children)|;
            var end := exit + 1 + |Print(f.next)|;
            && end == k + |Print(f)| && s[k] == PrintEntry(f.call) && s[exit] == PrintExit(f.call)
            && s[k + 1..exit] == Print(f.children) && s[exit + 1..end] == Print(f.next)
  {
    var before := [PrintEntry(f.call)] + Print(f.children);
    assert Print(f) == before + [PrintExit(f.call)] + Print(f.next);
    hide *;
    SliceSplits(s, k, before + [PrintExit(f.call)], Print(f.next));
    SliceSplits(s, k, before, [PrintExit(f.call)]);
    SliceSplits(s, k, [PrintEntry(f.call)], Print(f.children));
  }

  lemma {:induction false} PrintedLeaf(s: seq<Transition>, k: nat, f: Forest)
    requires f.Leaf? && k <= |s|
    ensures PrintedAt(s, k, f) && Width(f) == 0
  {
  }

  lemma {:induction false} PrintedNode(s: seq<Transition>, k: nat, f: Forest)
    requires f.Node? && k + Width(f) <= |s|
    ensures var exit := k + 1 + Width(f.children);
            && k < exit < |s| && exit + 1 + Width(f.next) == k + Width(f)
            && (PrintedAt(s, k, f)
                <==> s[k] == PrintEntry(f.call) && s[exit] == PrintExit(f.call)
                     && PrintedAt(s, k + 1, f.children) && PrintedAt(s, exit + 1, f.next))
  {
    hide PrintEntry, PrintExit;
  }

  lemma {:induction false} PrintIsPrinted(s: seq<Transition>, k: nat, f: Forest)
    requires k + |Print(f)| <= |s| && s[k..k + |Print(f)|] == Print(f)
    ensures PrintedAt(s, k, f)
    decreases f
  {
    hide *;
    if f.Leaf? {
      PrintedLeaf(s, k, f);
    } else {
      PrintParts(s, k, f);
      PrintIsPrinted(s, k + 1, f.children);
      PrintIsPrinted(s, k + 2 + Width(f.children), f.next);
      PrintedNode(s, k, f);
    }
  }

  lemma {:induction false} ClosingSkipsForest(s: seq<Transition>, k: nat, f: Forest, depth: nat)
    requires PrintedAt(s, k, f)
    ensures ClosingOf(s, k, depth) == ClosingOf(s, k + Width(f), depth)
    decreases f
  {
    if f.Node? {
      ClosingSkipsForest(s, k + 1, f.children, depth + 1);
      ClosingSkipsForest(s, k + 2 + Width(f.children), f.next, depth);
    }
  }

  lemma {:induction false} PrintedCall(s: seq<Transition>, k: nat, f: Forest)
    requires Complete(f) && f.Node? && PrintedAt(s, k, f)
    ensures var exit := k + 1 + Width(f.children);
            && CallAt(s, k, exit) && s[k].procedure == s[exit].procedure && s[exit].kind in {Exit, Unwind}
            && Complete(f.children) && PrintedAt(s, k + 1, f.children)
            && Complete(f.next) && PrintedAt(s, exit + 1, f.next)
            && Width(f) == 2 + Width(f.children) + Width(f.next)
            && InvocationOf(Deliver(OpenCall(s, k, exit), s[exit], End(Ok)).call) == f.call
  {
    hide *;
    PrintedFits(s, k, f);
    PrintedNode(s, k, f);
    ClosingSkipsForest(s, k + 1, f.children, 0);
    PrintedEnds(s, k, k + 1 + Width(f.children), f);
  }

  lemma {:induction false} PrintedFits(s: seq<Transition>, k: nat, f: Forest)
    requires PrintedAt(s, k, f)
    ensures k + Width(f) <= |s|
  {
  }

  lemma {:induction false} PrintedEnds(s: seq<Transition>, k: nat, exit: nat, f: Forest)
    requires Complete(f) && f.Node? && k < exit < |s|
    requires s[k] == PrintEntry(f.call) && s[exit] == PrintExit(f.call)
    requires ClosingOf(s, k + 1, 0) == ClosingOf(s, exit, 0)
    ensures Complete(f.children) && Complete(f.next)
    ensures CallAt(s, k, exit) && s[k].procedure == s[exit].procedure && s[exit].kind in {Exit, Unwind}
    ensures InvocationOf(Deliver(OpenCall(s, k, exit), s[exit], End(Ok)).call) == f.call
  {
    hide CountEntries;
  }

  lemma {:induction false} RebuildCall(s: seq<Transition>, k: nat, all: bool, m: nat)
    requires CallAt(s, k, m)
    requires s[k].procedure == s[m].procedure
    ensures var rest := Enumerate(s, m + 1, all);
            && Rebuild(s, Enumerate(s, k, all), k)
               == Node(InvocationOf(Deliver(OpenCall(s, k, m), s[m], End(Ok)).call),
                       Rebuild(s, Enumerate(s, k + 1, false), k + 1), Rebuild(s, rest, m + 1))
            && StatusOf(Enumerate(s, k, all)) == StatusOf(rest)
  {
    EnumerateCall(s, k, all, m);
    LevelHandles(s, m + 1, all);
    HandlesFromEarlier(s, Enumerate(s, m + 1, all), k, m + 1);
    hide Enumerate, ClosingOf, CountEntries, InvocationOf;
  }

  lemma {:induction false} RebuildNothing(s: seq<Transition>, k: nat, f: Forest, all: bool)
    requires f.Leaf?
    requires var end := k + Width(f); if all then end == |s| else end < |s| && s[end].kind in {Exit, Unwind}
    ensures Enumerate(s, k, all) == End(Ok)
    ensures StatusOf(Enumerate(s, k, all)) == Ok
    ensures Rebuild(s, Enumerate(s, k, all), k) == f
  {
  }

  /** A printed forest that ends its level is enumerated and rebuilt as it was. */
  lemma {:induction false} RebuildPrinted(s: seq<Transition>, k: nat, f: Forest, all: bool)
    requires Complete(f) && PrintedAt(s, k, f)
    requires var end := k + Width(f); if all then end == |s| else end < |s| && s[end].kind in {Exit, Unwind}
    ensures StatusOf(Enumerate(s, k, all)) == Ok
    ensures Rebuild(s, Enumerate(s, k, all), k) == f
    decreases f
  {
    hide *;
    if f.Leaf? {
      RebuildNothing(s, k, f, all);
    } else {
      var exit := k + 1 + Width(f.children);
      PrintedCall(s, k, f);
      RebuildCall(s, k, all, exit);
      RebuildPrinted(s, k + 1, f.children, false);
      RebuildPrinted(s, exit + 1, f.next, all);
    }
  }

  /**
   Printing any forest of completed calls and enumerating the result rebuilds the forest.
   Together with `EnumTransitions` this holds however the stream is cut into chunks.
   */
  lemma RoundTrip(f: Forest)
    requires Complete(f)
    ensures StatusOf(Enumerate(Print(f), 0, true)) == Ok
    ensures Rebuild(Print(f), Enumerate(Print(f), 0, true), 0) == f
  {
    PrintIsPrinted(Print(f), 0, f);
    RebuildPrinted(Print(f), 0, f, true);
  }

  // ---------------------------------------------------------------- a reader of whole forests

  /** Enumerates the children of every call in `calls`, which list `l`, and of their children. */
  method ReadCalls(
    chunks: seq<seq<Transition>>, calls: seq<Call<Handle>>, ghost status: Status, ghost l: Listing, ghost lo: nat)
    returns (f: Forest)
    requires ValidHandles(chunks, calls) && l == After(chunks, calls, End(status))
    requires HandlesFrom(Concat(chunks), l, lo)
    ensures f == Rebuild(Concat(chunks), l, lo)
    decreases |Concat(chunks)| - lo
  {
    hide Enumerate, HandlesFrom, Concat, Position, Start;
    f := Leaf;
    ghost var s, rest := Concat(chunks), End(status);
    assert calls[..|calls|] == calls;
    var i := |calls|;
    while i > 0
      invariant 0 <= i <= |calls|
      invariant After(chunks, calls[..i], rest) == l
      invariant f == Rebuild(s, rest, lo)
    {
      i := i - 1;
      var c := calls[i];
      ghost var flat := AtPosition(chunks, c);
      assert calls[..i + 1] == calls[..i] + [c];
      AfterOneMore(chunks, calls[..i], c, rest);
      var children := Leaf;
      if c.handle.Some? {
        ghost var at := Position(chunks, c.handle.value);
        ExpandableInside(chunks, calls[..i], flat, rest, lo);
        assert Children(s, at) == Enumerate(s, at + 1, false);
        var childStatus, childCalls := EnumChildCalls(chunks, c.handle);
        LevelHandles(s, at + 1, false);
        children := ReadCalls(chunks, childCalls, childStatus, Children(s, at), at + 1);
      }
      f := Node(InvocationOf(c), children, f);
      rest := More(flat, rest);
    }
    assert calls[..0] == [];
  }

  lemma {:induction false} ExpandableInside(
    chunks: seq<seq<Transition>>, calls: seq<Call<Handle>>, c: Call<nat>, rest: Listing, lo: nat)
    requires ValidHandles(chunks, calls)
    requires HandlesFrom(Concat(chunks), After(chunks, calls, More(c, rest)), lo)
    ensures c.handle.Some? ==> Expandable(Concat(chunks), c, lo)
    decreases |calls|
  {
    if calls != [] {
      var last := AtPosition(chunks, calls[|calls| - 1]);
      HandlesFromSuffix(chunks, calls[..|calls| - 1], More(last, More(c, rest)), lo);
    }
  }

  lemma {:induction false} HandlesFromSuffix(
    chunks: seq<seq<Transition>>, calls: seq<Call<Handle>>, l: Listing, lo: nat)
    requires ValidHandles(chunks, calls) && HandlesFrom(Concat(chunks), After(chunks, calls, l), lo)
    ensures HandlesFrom(Concat(chunks), l, lo)
    decreases |calls|
  {
    if calls != [] {
      HandlesFromSuffix(chunks, calls[..|calls| - 1], More(AtPosition(chunks, calls[|calls| - 1]), l), lo);
    }
  }

  /**
   Reads everything a client did.  Whatever forest the tracer has printed, and wherever the
   stream was cut into chunks, that forest comes back.
   */
  method ReadClient(chunks: seq<seq<Transition>>) returns (status: Status, f: Forest)
    requires chunks != []
    ensures forall g :: Complete(g) && Print(g) == Concat(chunks) ==> status == Ok && f == g
  {
    var calls;
    ghost var s := Concat(chunks);
    status, calls := EnumCalls(chunks);
    LevelHandles(s, 0, true);
    f := ReadCalls(chunks, calls, status, Enumerate(s, 0, true), 0);
    forall g | Complete(g) && Print(g) == s ensures status == Ok && f == g {
      RoundTrip(g);
      StatusAfter(chunks, calls, End(status));
    }
  }

  lemma {:induction false} StatusAfter(chunks: seq<seq<Transition>>, calls: seq<Call<Handle>>, l: Listing)
    requires ValidHandles(chunks, calls)
    ensures StatusOf(After(chunks, calls, l)) == StatusOf(l)
    decreases |calls|
  {
    if calls != [] {
      StatusAfter(chunks, calls[..|calls| - 1], More(AtPosition(chunks, calls[|calls| - 1]), l));
    }
  }
}
