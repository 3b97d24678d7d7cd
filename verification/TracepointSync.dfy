/**
 The tracepoint table of a context and the instrumentation of the process it stands for.

 The session of a context is the patch database of `CodePatches`; the table lists what the
 user has asked for.  The module proves when the two say the same.
 */
module TracepointSync {

  import opened Common
  import CodePatches

  const MAXWORD: nat := 0xFFFF

  datatype Status =
    | Ok | InvalidArgument | Unexpected | NoTraceSession | TracepointExists | TracepointNotFound | StartFailed | StopFailed
    | ReleaseFailed
    | SessionFailed(status: CodePatches.Status)

  // ---------------------------------------------------------------- removing duplicates

  /** The first `n` of the procedures, without repetitions and without those already listed. */
  function Clean(raw: seq<nat>, n: nat, listed: set<nat>): seq<nat>
    requires n <= |raw|
  {
    if n == 0 then []
    else
      Clean(raw, n - 1, listed) + if raw[n - 1] in raw[..n - 1] || raw[n - 1] in listed then [] else [raw[n - 1]]
  }

  /** What is passed down has no duplicates, and covers exactly what was asked for and is not listed. */
  lemma {:induction false} CleanCovers(raw: seq<nat>, n: nat, listed: set<nat>)
    requires n <= |raw|
    ensures CodePatches.Distinct(Clean(raw, n, listed)) && |Clean(raw, n, listed)| <= n
    ensures forall p :: p in Clean(raw, n, listed) <==> p in raw[..n] && p !in listed
  {
    if n > 0 {
      CleanCovers(raw, n - 1, listed);
      assert raw[..n] == raw[..n - 1] + [raw[n - 1]];
    }
  }

  /** What the listed procedures become. */
  ghost function Target(listed: set<nat>, add: bool, procedures: seq<nat>): set<nat> {
    if add then listed + set p | p in procedures else listed - set p | p in procedures
  }

  function Known(listed: set<nat>, add: bool): set<nat> {
    if add then listed else {}
  }

  /** Leaving out duplicates and what is listed makes no difference to the outcome. */
  lemma {:induction false} CleanTarget(listed: set<nat>, add: bool, raw: seq<nat>)
    ensures Target(listed, add, Clean(raw, |raw|, Known(listed, add))) == Target(listed, add, raw)
    ensures Clean(raw, |raw|, Known(listed, add)) == [] ==> Target(listed, add, raw) == listed
  {
    CleanCovers(raw, |raw|, Known(listed, add));
    hide Clean;
    assert raw[..|raw|] == raw;
  }

  /** The array keeps the terms under which procedures may be passed down. */
  lemma {:induction false} CleanPassedDown(code: seq<byte>, raw: seq<nat>, listed: set<nat>, add: bool)
    requires CodePatches.InCode(code, raw)
    ensures var clean := Clean(raw, |raw|, Known(listed, add));
            && CodePatches.Distinct(clean) && CodePatches.InCode(code, clean)
            && (add ==> NoneListed(clean, listed))
  {
    CleanCovers(raw, |raw|, Known(listed, add));
    hide Clean;
    assert raw[..|raw|] == raw;
    var clean := Clean(raw, |raw|, Known(listed, add));
    forall k | 0 <= k < |clean| ensures clean[k] < |code| {
      assert clean[k] in raw;
    }
  }

  function FromSession(s: CodePatches.Status): Status {
    if s == CodePatches.Success then Ok else SessionFailed(s)
  }

  /** What the session says to a batch, and which procedure it blames. */
  function SessionResult(
    code: seq<byte>, procedures: seq<nat>, table: map<nat, CodePatches.Patch>, thunk: nat, add: bool, env: CodePatches.Environment)
    : (Status, Option<nat>)
    requires CodePatches.InCode(code, procedures)
  {
    var (s, failed) := if add then CodePatches.InstrumentResult(code, procedures, thunk, env)
                       else CodePatches.UninstrumentResult(procedures, table, env);
    (FromSession(s), failed)
  }

  /** The outcome of setting or removing tracepoints in a session. */
  ghost function SetResult(
    code: seq<byte>, raw: seq<nat>, table: map<nat, CodePatches.Patch>, thunk: nat,
    listed: set<nat>, add: bool, env: CodePatches.Environment)
    : (Status, Option<nat>)
    requires CodePatches.InCode(code, raw)
  {
    var clean := Clean(raw, |raw|, Known(listed, add));
    CleanPassedDown(code, raw, listed, add);
    if !NoneZero(raw) then (InvalidArgument, None)
    else if clean == [] then (Ok, None)
    else SessionResult(code, clean, table, thunk, add, env)
  }

  /** Everything registered can be removed, as far as the environment allows. */
  lemma {:induction false} RegisteredResult(procedures: seq<nat>, table: map<nat, CodePatches.Patch>, env: CodePatches.Environment)
    requires forall p :: p in procedures ==> p in table
    ensures CodePatches.UninstrumentResult(procedures, table, env) == (CodePatches.EnvironmentStatus(env), None)
  {
    hide CodePatches.EnvironmentStatus;
  }

  ghost predicate NoneListed(procedures: seq<nat>, listed: set<nat>) {
    forall p :: p in procedures ==> p !in listed
  }

  ghost predicate NoneZero(raw: seq<nat>) {
    forall k :: 0 <= k < |raw| ==> raw[k] != 0
  }

  /** Whether the instrumentation of everything listed can be removed in one batch. */
  predicate Removable(tracepoints: map<nat, string>, env: CodePatches.Environment) {
    |tracepoints| == 0 || (|tracepoints| <= MAXWORD && CodePatches.EnvironmentStatus(env) == CodePatches.Success)
  }

  function NotRemoved(tracepoints: map<nat, string>, env: CodePatches.Environment): Status {
    SessionFailed(if |tracepoints| > MAXWORD then CodePatches.InvalidParameter else CodePatches.EnvironmentStatus(env))
  }

  /** What setting or removing tracepoints takes to succeed. */
  ghost predicate Settable(
    code: seq<byte>, raw: seq<nat>, listed: set<nat>, thunk: nat, add: bool, env: CodePatches.Environment)
  {
    && NoneZero(raw)
    && (if add then NewOnesFit(code, raw, listed, thunk) else forall p :: p in raw ==> p in listed)
    && ((add && forall p :: p in raw ==> p in listed) || CodePatches.Permits(env))
  }

  ghost predicate NewOnesFit(code: seq<byte>, raw: seq<nat>, listed: set<nat>, thunk: nat) {
    forall p :: p in raw ==> p in listed || (CodePatches.Instrumentable(code, p) && CodePatches.InReach(p, thunk))
  }

  lemma {:induction false} CleanMembers(raw: seq<nat>, listed: set<nat>)
    ensures forall p :: p in Clean(raw, |raw|, listed) <==> p in raw && p !in listed
  {
    CleanCovers(raw, |raw|, listed);
    hide Clean;
    assert raw[..|raw|] == raw;
  }

  lemma {:induction false} NewOnesAreClean(code: seq<byte>, raw: seq<nat>, clean: seq<nat>, listed: set<nat>, thunk: nat)
    requires forall p :: p in clean <==> p in raw && p !in listed
    ensures NewOnesFit(code, raw, listed, thunk)
            <==> forall k :: 0 <= k < |clean| ==>
                               CodePatches.Instrumentable(code, clean[k]) && CodePatches.InReach(clean[k], thunk)
  {
    hide CodePatches.Instrumentable, CodePatches.InReach;
    if NewOnesFit(code, raw, listed, thunk) {
      forall k | 0 <= k < |clean|
        ensures CodePatches.Instrumentable(code, clean[k]) && CodePatches.InReach(clean[k], thunk)
      {
        assert clean[k] in clean;
      }
    }
  }

  lemma {:induction false} SetSteps(
    code: seq<byte>, raw: seq<nat>, table: map<nat, CodePatches.Patch>, thunk: nat,
    listed: set<nat>, add: bool, env: CodePatches.Environment)
    requires CodePatches.InCode(code, raw)
    ensures var clean := Clean(raw, |raw|, Known(listed, add));
            && CodePatches.InCode(code, clean)
            && (SetResult(code, raw, table, thunk, listed, add, env).0 == Ok
                <==> NoneZero(raw) && (clean == [] || SessionResult(code, clean, table, thunk, add, env).0 == Ok))
  {
    CleanPassedDown(code, raw, listed, add);
    hide SessionResult, Clean, CodePatches.InCode, Known, NoneZero;
  }

  lemma {:induction false} AddingSucceedsIff(
    code: seq<byte>, raw: seq<nat>, clean: seq<nat>, table: map<nat, CodePatches.Patch>, thunk: nat,
    listed: set<nat>, env: CodePatches.Environment)
    requires CodePatches.InCode(code, clean) && CodePatches.Addresses(raw)
    requires forall p :: p in clean <==> p in raw && p !in listed
    ensures SessionResult(code, clean, table, thunk, true, env).0 == Ok
            <==> NewOnesFit(code, raw, listed, thunk) && CodePatches.Permits(env)
  {
    forall k | 0 <= k < |clean| ensures clean[k] < CodePatches.ADDRESS_RANGE {
      assert clean[k] in clean;
    }
    CodePatches.BatchSucceedsIff(code, clean, thunk, env);
    NewOnesAreClean(code, raw, clean, listed, thunk);
    hide CodePatches.InstrumentResult, NewOnesFit, CodePatches.Instrumentable, CodePatches.InReach, CodePatches.InCode;
  }

  lemma {:induction false} RemovingSucceedsIff(
    code: seq<byte>, raw: seq<nat>, clean: seq<nat>, table: map<nat, CodePatches.Patch>, thunk: nat,
    env: CodePatches.Environment)
    requires CodePatches.InCode(code, clean) && forall p :: p in clean <==> p in raw
    ensures SessionResult(code, clean, table, thunk, false, env).0 == Ok
            <==> (forall p :: p in raw ==> p in table) && CodePatches.Permits(env)
  {
    CodePatches.RemovalSucceedsIff(clean, table, env);
    assert (forall k :: 0 <= k < |clean| ==> clean[k] in table) <==> forall p :: p in clean ==> p in table;
    hide CodePatches.UninstrumentResult;
  }

  /**
   Procedures that are listed already do not matter when tracepoints are set; all others must be
   fit to be instrumented.  All must be listed to be removed.
   */
  lemma {:induction false} SetSucceedsIff(
    code: seq<byte>, raw: seq<nat>, table: map<nat, CodePatches.Patch>, thunk: nat, add: bool, env: CodePatches.Environment)
    requires CodePatches.InCode(code, raw) && CodePatches.Addresses(raw) && raw != []
    ensures SetResult(code, raw, table, thunk, table.Keys, add, env).0 == Ok
            <==> Settable(code, raw, table.Keys, thunk, add, env)
  {
    var clean := Clean(raw, |raw|, Known(table.Keys, add));
    CleanMembers(raw, Known(table.Keys, add));
    SetSteps(code, raw, table, thunk, table.Keys, add, env);
    if add {
      AddingSucceedsIff(code, raw, clean, table, thunk, table.Keys, env);
    } else {
      RemovingSucceedsIff(code, raw, clean, table, thunk, env);
    }
    EmptyIff(raw, clean, Known(table.Keys, add));
    hide SetResult, SessionResult, Clean, NoneZero, CodePatches.InCode, CodePatches.Addresses, CodePatches.Instrumentable,
         CodePatches.InReach;
  }

  lemma {:induction false} EmptyIff(raw: seq<nat>, clean: seq<nat>, listed: set<nat>)
    requires raw != [] && forall p :: p in clean <==> p in raw && p !in listed
    ensures clean == [] <==> forall p :: p in raw ==> p in listed
    ensures listed == {} ==> clean != []
  {
    assert raw[0] in raw;
    if clean != [] {
      assert clean[0] in clean;
    }
  }

  /** Entries keep the names they have, and new ones get theirs. */
  ghost predicate NamesKept(before: map<nat, string>, after: map<nat, string>, names: nat -> string) {
    forall p :: p in after ==> after[p] == if p in before then before[p] else names(p)
  }

  lemma {:induction false} AllInCode(
    code: seq<byte>, original: seq<byte>, table: map<nat, CodePatches.Patch>, procedures: seq<nat>, thunk: nat)
    requires CodePatches.Refines(code, original, table, thunk) && forall p :: p in procedures ==> p in table
    ensures CodePatches.InCode(code, procedures)
  {
    forall k | 0 <= k < |procedures| ensures procedures[k] < |code| {
      assert procedures[k] in procedures;
      assert CodePatches.Applied(code, original, procedures[k], table[procedures[k]], thunk);
    }
  }

  class Context {
    var session: CodePatches.PatchDatabase?
    var tracepoints: map<nat, string>
    var traceStarted: bool
    var lockDepth: nat

    ghost predicate Valid()
      reads this, session, if session != null then {session.code} else {}
    {
      session != null ==> session.Valid()
    }

    /** A trace is only ever running in a session. */
    predicate Attached()
      reads this
    {
      traceStarted ==> session != null
    }

    /** The table lists exactly the procedures that are instrumented. */
    ghost predicate InSync()
      reads this, session
    {
      session != null ==> tracepoints.Keys == session.table.Keys
    }

    constructor (session: CodePatches.PatchDatabase?)
      requires session != null ==> session.Valid() && session.table == map[]
      ensures Valid() && InSync() && Attached() && this.session == session && lockDepth == 0 && tracepoints == map[]
    {
      this.session, tracepoints, traceStarted, lockDepth := session, map[], false, 0;
    }

    /** The array to be passed down, and how much of it is used. */
    method CollectClean(add: bool, raw: seq<nat>) returns (ok: bool, clean: array<nat>, count: nat)
      ensures fresh(clean) && clean.Length == |raw| && count <= |raw|
      ensures ok <==> NoneZero(raw)
      ensures ok ==> clean[..count] == Clean(raw, |raw|, Known(tracepoints.Keys, add))
    {
      ghost var listed := Known(tracepoints.Keys, add);
      clean, count := new nat[|raw|], 0;
      var index := 0;
      while index < |raw|
        invariant count <= index <= |raw|
        invariant forall k :: 0 <= k < index ==> raw[k] != 0
        invariant clean[..count] == Clean(raw, index, listed)
      {
        if raw[index] == 0 {
          return false, clean, count;
        }
        var duplicate := false;
        var ref := 0;
        while ref < index && !duplicate
          invariant ref <= index
          invariant duplicate <==> raw[index] in raw[..ref]
          decreases index - ref, !duplicate
        {
          assert raw[..ref + 1] == raw[..ref] + [raw[ref]];
          duplicate := raw[index] == raw[ref];
          ref := ref + 1;
        }
        assert duplicate <==> raw[index] in raw[..index];
        if add {
          duplicate := duplicate || raw[index] in tracepoints;
        }
        if !duplicate {
          clean[count] := raw[index];
          count := count + 1;
        }
        index := index + 1;
      }
      ok := true;
    }

    method AddEntry(procedure: nat, name: string) returns (status: Status)
      modifies `tracepoints
      ensures tracepoints == old(tracepoints)[procedure := name]
      ensures status == if procedure in old(tracepoints) then TracepointExists else Ok
    {
      status := if procedure in tracepoints then TracepointExists else Ok;
      tracepoints := tracepoints[procedure := name];
    }

    method RemoveEntry(procedure: nat) returns (status: Status)
      modifies `tracepoints
      ensures tracepoints == old(tracepoints) - {procedure}
      ensures status == if procedure in old(tracepoints) then Ok else TracepointNotFound
    {
      status := if procedure in tracepoints then Ok else TracepointNotFound;
      tracepoints := tracepoints - {procedure};
    }

    /** Enters the procedures into the table or takes them out, up to the first failure. */
    method UpdateTable(add: bool, procedures: seq<nat>, names: nat -> string) returns (status: Status)
      requires CodePatches.Distinct(procedures)
      modifies `tracepoints
      ensures status == Ok <==> forall p :: p in procedures ==> (p in old(tracepoints) <==> !add)
      ensures status == Ok ==> tracepoints.Keys == Target(old(tracepoints.Keys), add, procedures)
      ensures status == Ok ==> NamesKept(old(tracepoints), tracepoints, names)
    {
      var index := 0;
      status := Ok;
      while index < |procedures|
        invariant index <= |procedures| && status == Ok
        invariant forall k :: 0 <= k < index ==> (procedures[k] in old(tracepoints) <==> !add)
        invariant tracepoints.Keys == if add then old(tracepoints.Keys) + set k | 0 <= k < index :: procedures[k]
                                      else old(tracepoints.Keys) - set k | 0 <= k < index :: procedures[k]
        invariant NamesKept(old(tracepoints), tracepoints, names)
      {
        if add {
          status := AddEntry(procedures[index], names(procedures[index]));
        } else {
          status := RemoveEntry(procedures[index]);
        }
        if status != Ok {
          assert procedures[index] in procedures;
          return;
        }
        index := index + 1;
      }
      assert (set k | 0 <= k < |procedures| :: procedures[k]) == set p | p in procedures;
    }

    /** Instruments what `SetTracePoints` has collected, and brings the table in line. */
    method Instrument(add: bool, procedures: seq<nat>, env: CodePatches.Environment, names: nat -> string)
      returns (status: Status, failed: Option<nat>)
      requires session != null && Valid() && InSync() && CodePatches.InCode(session.code[..], procedures)
      requires CodePatches.Distinct(procedures) && 0 < |procedures| <= MAXWORD
      requires add ==> NoneListed(procedures, tracepoints.Keys)
      modifies this, session, session.code
      ensures session == old(session) && Valid() && InSync()
      ensures lockDepth == old(lockDepth) && traceStarted == old(traceStarted)
      ensures (status, failed) ==
              SessionResult(old(session.code[..]), procedures, old(session.table), session.thunk, add, env)
      ensures status == Ok ==> tracepoints.Keys == Target(old(tracepoints.Keys), add, procedures)
      ensures NamesKept(old(tracepoints), tracepoints, names)
      ensures status != Ok ==> tracepoints == old(tracepoints)
    {
      hide CodePatches.Refines, CodePatches.InstrumentResult, CodePatches.UninstrumentResult, CodePatches.Distinct;
      var s;
      s, failed := session.InstrumentProcedure(
        if add then CodePatches.Instrument else CodePatches.Uninstrument, procedures, env);
      if s != CodePatches.Success {
        return SessionFailed(s), failed;
      }
      status := UpdateTable(add, procedures, names);
    }

    /** With the lock held. */
    method SetInSession(add: bool, raw: seq<nat>, env: CodePatches.Environment, names: nat -> string)
      returns (status: Status, failed: Option<nat>)
      requires session != null && Valid() && InSync() && CodePatches.InCode(session.code[..], raw) && |raw| <= MAXWORD
      modifies this, session, session.code
      ensures Valid() && InSync() && session == old(session)
      ensures lockDepth == old(lockDepth) && traceStarted == old(traceStarted)
      ensures (status, failed) ==
              SetResult(old(session.code[..]), raw, old(session.table), session.thunk, old(tracepoints.Keys), add, env)
      ensures status == Ok ==> tracepoints.Keys == Target(old(tracepoints.Keys), add, raw)
      ensures NamesKept(old(tracepoints), tracepoints, names)
      ensures status != Ok ==> tracepoints == old(tracepoints)
    {
      hide Clean, CodePatches.Distinct, CodePatches.InCode, CodePatches.Refines, Target, Known, NoneListed, SessionResult, NoneZero;
      var ok, clean, count := CollectClean(add, raw);
      if !ok {
        return InvalidArgument, None;
      }
      CleanPassedDown(session.code[..], raw, tracepoints.Keys, add);
      CleanTarget(tracepoints.Keys, add, raw);
      status, failed := Ok, None;
      if count > 0 {
        status, failed := Instrument(add, clean[..count], env, names);
      }
    }

    /** Sets or removes tracepoints: all that are asked for, or none. */
    method SetTracePoints(add: bool, raw: seq<nat>, env: CodePatches.Environment, names: nat -> string)
      returns (status: Status, failed: Option<nat>)
      requires Valid() && InSync() && (session != null ==> CodePatches.InCode(session.code[..], raw))
      modifies this, if session != null then {session, session.code} else {}
      ensures Valid() && InSync() && session == old(session)
      ensures lockDepth == old(lockDepth) && traceStarted == old(traceStarted)
      ensures (status, failed) ==
              if |raw| == 0 || |raw| > MAXWORD then (InvalidArgument, None)
              else if session == null then (NoTraceSession, None)
              else SetResult(old(session.code[..]), raw, old(session.table), session.thunk, old(tracepoints.Keys), add, env)
      ensures CodePatches.Addresses(raw) ==>
                (status == Ok
                 <==> && 0 < |raw| <= 0xFFFF && session != null
                      && Settable(old(session.code[..]), raw, old(tracepoints.Keys), session.thunk, add, env))
      ensures status == Ok ==> tracepoints.Keys == Target(old(tracepoints.Keys), add, raw)
      ensures NamesKept(old(tracepoints), tracepoints, names)
      ensures status != Ok ==> tracepoints == old(tracepoints)
    {
      if |raw| == 0 || |raw| > MAXWORD {
        return InvalidArgument, None;
      }
      if session != null && CodePatches.Addresses(raw) {
        SetSucceedsIff(session.code[..], raw, session.table, session.thunk, add, env);
      }
      hide CodePatches.InCode, CodePatches.Refines, Target, SetResult, Settable, CodePatches.Addresses, NamesKept;
      lockDepth := lockDepth + 1;
      if session == null {
        status, failed := NoTraceSession, None;
      } else {
        status, failed := SetInSession(add, raw, env, names);
      }
      lockDepth := lockDepth - 1;
    }

    /** The procedures in the table, in some order. */
    method CollectProcedures() returns (procedures: array<nat>)
      ensures fresh(procedures) && procedures.Length == |tracepoints| && CodePatches.Distinct(procedures[..])
      ensures forall p :: p in procedures[..] <==> p in tracepoints
    {
      procedures := new nat[|tracepoints|];
      var count, rest := 0, tracepoints.Keys;
      while rest != {}
        invariant rest <= tracepoints.Keys && count + |rest| == |tracepoints|
        invariant CodePatches.Distinct(procedures[..count])
        invariant forall p :: p in procedures[..count] <==> p in tracepoints && p !in rest
        decreases |rest|
      {
        var p :| p in rest;
        ghost var before := procedures[..count];
        procedures[count] := p;
        assert procedures[..count + 1] == before + [p];
        count, rest := count + 1, rest - {p};
      }
      assert procedures[..count] == procedures[..];
    }

    /** Removes the instrumentation of everything in the table, which stays as it is. */
    method RemoveAllTracepointsButKeepThem(env: CodePatches.Environment) returns (status: Status)
      requires session != null && Valid() && InSync()
      modifies session, session.code
      ensures Valid()
      ensures status == if Removable(tracepoints, env) then Ok else NotRemoved(tracepoints, env)
      ensures status == Ok <==> tracepoints == map[] || (|tracepoints| <= 0xFFFF && CodePatches.Permits(env))
      ensures status == Ok ==> session.table.Keys == {}
      ensures status != Ok ==> session.table.Keys == tracepoints.Keys != {}
    {
      if |tracepoints| == 0 {
        return Ok;
      }
      hide CodePatches.Refines, CodePatches.UninstrumentResult, CodePatches.EnvironmentStatus, CodePatches.InCode,
           CodePatches.Distinct;
      var procedures := CollectProcedures();
      assert |procedures[..]| == |tracepoints|;
      RegisteredResult(procedures[..], session.table, env);
      AllInCode(session.code[..], session.original, session.table, procedures[..], session.thunk);
      var s, failed := session.InstrumentProcedure(CodePatches.Uninstrument, procedures[..], env);
      status := if s == CodePatches.Success then Ok else SessionFailed(s);
    }

    /**
     Stops the trace.  The table is emptied in any case; so it agrees with the
     instrumentation afterwards iff that could be removed.
     */
    method StopTrace(env: CodePatches.Environment, stops: bool) returns (status: Status)
      requires Valid() && InSync()
      modifies this, if session != null then {session, session.code} else {}
      ensures Valid() && session == old(session)
      ensures !old(traceStarted) ==> status == Unexpected && InSync() && tracepoints == old(tracepoints)
      ensures status == NoTraceSession <==> old(traceStarted) && session == null
      ensures lockDepth == old(lockDepth) + if status == NoTraceSession then 1 else 0
      ensures old(traceStarted) && session != null ==>
                && tracepoints == map[] && (InSync() <==> Removable(old(tracepoints), env))
                && status == (if !Removable(old(tracepoints), env) then NotRemoved(old(tracepoints), env)
                              else if stops then Ok else StopFailed)
                && (status == Ok ==> session.table.Keys == {} && !traceStarted)
      ensures old(Attached()) ==> Attached()
    {
      hide CodePatches.Refines, Removable, CodePatches.EnvironmentStatus;
      if !traceStarted {
        return Unexpected;
      }
      lockDepth := lockDepth + 1;
      if session == null {
        return NoTraceSession; // the lock stays held
      }
      status := RemoveAllTracepointsButKeepThem(env);
      if status == Ok {
        status := if stops then Ok else StopFailed;
        traceStarted := traceStarted && !stops;
      }
      tracepoints := map[];
      assert tracepoints.Keys == {};
      lockDepth := lockDepth - 1;
    }

    /** Starts a trace in the session, if there is one. */
    method StartTrace(starts: bool) returns (status: Status)
      modifies `traceStarted, `lockDepth
      ensures lockDepth == old(lockDepth) && (old(Attached()) ==> Attached())
      ensures traceStarted == (old(traceStarted) || status == Ok)
      ensures status == if session == null then NoTraceSession else if starts then Ok else StartFailed
    {
      lockDepth := lockDepth + 1;
      if session == null {
        status := NoTraceSession;
      } else {
        status := if starts then Ok else StartFailed;
        traceStarted := traceStarted || starts;
      }
      lockDepth := lockDepth - 1;
    }

    /**
     A whole session: a trace is started, any requests are served, whether they succeed or not,
     and the trace is stopped.  While requests are served the table lists exactly what is
     instrumented, and after a successful stop the code is the original.
     */
    method RunRequests(requests: seq<(bool, seq<nat>, CodePatches.Environment)>, names: nat -> string,
                       env: CodePatches.Environment, starts: bool, stops: bool)
      returns (status: Status)
      requires Valid() && InSync() && !traceStarted
      requires session != null ==> forall r :: r in requests ==> CodePatches.InCode(session.code[..], r.1)
      modifies this, if session != null then {session, session.code} else {}
      ensures session == old(session) && Valid() && Attached() && lockDepth == old(lockDepth)
      ensures status == Ok ==>
                && session != null && starts && stops && tracepoints == map[] && !traceStarted
                && session.code[..] == session.original && session.table == map[]
    {
      hide CodePatches.Refines, Removable, Target, SetResult;
      status := StartTrace(starts);
      if status != Ok {
        return;
      }
      var i := 0;
      while i < |requests|
        invariant session == old(session) && Valid() && InSync() && traceStarted && lockDepth == old(lockDepth)
      {
        var (add, raw, requestEnv) := requests[i];
        assert (add, raw, requestEnv) in requests;
        assert CodePatches.InCode(session.code[..], raw);
        var s, failed := SetTracePoints(add, raw, requestEnv, names);
        i := i + 1;
      }
      status := StopTrace(env, stops);
      if status == Ok {
        CodePatches.NothingRegistered(session.code[..], session.original, session.table, session.thunk);
      }
    }

    /** Gives the session up, after stopping the trace if one is running. */
    method Detach(env: CodePatches.Environment, stops: bool, releases: bool) returns (status: Status)
      requires Valid() && InSync() && Attached()
      modifies this, if session != null then {session, session.code} else {}
      ensures Valid() && Attached() && lockDepth == old(lockDepth)
      ensures old(session) == null ==> status == NoTraceSession && session == null
      ensures old(session) != null ==>
                var stopped := !old(traceStarted) || (Removable(old(tracepoints), env) && stops);
                && (status == Ok <==> stopped && releases) && (status == ReleaseFailed <==> stopped && !releases)
                && session == (if status == Ok then null else old(session))
                && (old(traceStarted) && stopped ==> tracepoints == map[] && old(session).table.Keys == {})
    {
      hide Removable;
      lockDepth := lockDepth + 1;
      if session != null {
        status := Ok;
        if traceStarted {
          status := StopTrace(env, stops);
        }
        if status == Ok {
          if releases {
            session := null;
          } else {
            status := ReleaseFailed;
          }
        }
      } else {
        status := NoTraceSession;
      }
      lockDepth := lockDepth - 1;
    }
  }

  // ---------------------------------------------------------------- a table that says too little

  /** One hotpatchable procedure, with its padding. */
  const HOTPATCHABLE: seq<byte> := [0x90, 0x90, 0x90, 0x90, 0x90, 0x8B, 0xFF]

  lemma {:induction false} HotpatchableSucceeds(env: CodePatches.Environment)
    requires CodePatches.EnvironmentStatus(env) == CodePatches.Success
    ensures CodePatches.InCode(HOTPATCHABLE, [5])
    ensures SetResult(HOTPATCHABLE, [5], map[], 0, {}, true, env) == (Ok, None)
  {
    assert Clean([5], 1, {}) == [5];
    assert CodePatches.ValidatePatch(HOTPATCHABLE, 5) == CodePatches.Success by {
      assert 0x90 in [0x90, 0xCC, 0x00];
    }
    assert CodePatches.NearCall(0, 0).Some?;
  }

  /** A session that runs over that procedure alone. */
  method HotpatchableSession() returns (session: CodePatches.PatchDatabase)
    ensures fresh(session) && fresh(session.code) && session.Valid()
    ensures session.table == map[] && session.thunk == 0 && session.code[..] == HOTPATCHABLE
  {
    hide CodePatches.Refines;
    var code := new byte[|HOTPATCHABLE|](i requires 0 <= i < |HOTPATCHABLE| => HOTPATCHABLE[i]);
    assert code[..] == HOTPATCHABLE;
    session := new CodePatches.PatchDatabase(code, 0);
  }

  lemma {:induction false} OneTarget()
    ensures Target({}, true, [5]) == {5}
  {
    assert 5 in [5];
  }

  /** A running trace with one tracepoint. */
  method TraceOne(names: nat -> string) returns (context: Context)
    ensures fresh(context) && context.Valid() && context.InSync() && context.traceStarted
    ensures context.session != null && fresh(context.session) && fresh(context.session.code)
    ensures context.tracepoints.Keys == {5}
  {
    var allowed := CodePatches.Environment(true, true);
    HotpatchableSucceeds(allowed);
    OneTarget();
    hide CodePatches.Refines, CodePatches.InCode, SetResult, Target;
    var session := HotpatchableSession();
    context := new Context(session);
    var status := context.StartTrace(true);
    assert context.tracepoints.Keys == {};
    var failed;
    status, failed := context.SetTracePoints(true, [5], allowed, names);
  }

  lemma {:induction false} SuspendRefused(tracepoints: map<nat, string>)
    requires tracepoints.Keys == {5}
    ensures var env := CodePatches.Environment(false, true);
            && !Removable(tracepoints, env)
            && NotRemoved(tracepoints, env) == SessionFailed(CodePatches.ThreadSuspendFailure)
  {
    assert |tracepoints| == |tracepoints.Keys| == 1;
  }

  /**
   One tracepoint, set in a session, and a stop while threads cannot be suspended: the table is
   empty, the procedure is still instrumented.
   */
  method StopOutOfSync(names: nat -> string) returns (context: Context, status: Status)
    ensures fresh(context) && context.Valid() && context.session != null
    ensures status == SessionFailed(CodePatches.ThreadSuspendFailure)
    ensures context.tracepoints == map[] && !context.InSync()
  {
    context := TraceOne(names);
    hide CodePatches.Refines, Removable, NotRemoved;
    SuspendRefused(context.tracepoints);
    status := context.StopTrace(CodePatches.Environment(false, true), true);
  }
}
