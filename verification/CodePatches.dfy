/**
 Instrumenting procedures by overwriting the five bytes of padding in front of them and
 the two bytes of their hotpatchable prolog.

 Addresses are indices into `code`.  The module proves that the windows of registered
 procedures never overlap, so that the code is at any time the original code with exactly
 the windows of the registered procedures overwritten, and removing them restores it.
 */
module CodePatches {

  import opened Common

  const ADDRESS_RANGE: nat := 0x1_0000_0000
  const MAXLONG: int := 0x7fff_ffff
  const MAX_PATCH_SET_SIZE: nat := 0xFFFF
  const PADDING: nat := 5    // bytes in front of the procedure
  const PATCH_SIZE: nat := 7 // padding and prolog

  datatype Status =
    | Success | InvalidParameter | ProcTooFar | AlreadyPatched | NotPatchable | AccessViolation
    | NotPatched | ThreadSuspendFailure

  // ---------------------------------------------------------------- instruction encoding

  /** The absolute distance is compared in 64 bits; `address + 5` is computed in 32. */
  function Displacement(address: nat, target: nat): int {
    target - (address + 5) % ADDRESS_RANGE
  }

  predicate IsNear(address: nat, target: nat) {
    -MAXLONG <= Displacement(address, target) <= MAXLONG
  }

  /** A near call to `target` placed at `address`. */
  function NearCall(address: nat, target: nat): (r: Option<seq<byte>>)
    ensures r.Some? ==> |r.value| == 5
  {
    if IsNear(address, target)
    then Some([0xE8] + LittleEndian(Displacement(address, target) % ADDRESS_RANGE, 4))
    else None
  }

  /** Two's complement value of a field of `range` values. */
  function Signed(x: nat, range: nat): int {
    if 2 * x < range then x else x - range
  }

  /** Where a CALL rel32 (E8) at `address` goes. */
  function CallTarget(instruction: seq<byte>, address: nat): nat
    requires |instruction| == 5
  {
    (address + 5 + Signed(FromLittleEndian(instruction[1..]), ADDRESS_RANGE)) % ADDRESS_RANGE
  }

  /** Where a JMP rel8 (EB) at `address` goes. */
  function ShortJumpTarget(instruction: seq<byte>, address: nat): nat
    requires |instruction| == 2
  {
    (address + 2 + Signed(instruction[1], 256)) % ADDRESS_RANGE
  }

  /** A 32-bit field holds a displacement of either sign. */
  lemma {:induction false} DisplacementField(d: int)
    requires -MAXLONG <= d <= MAXLONG
    ensures Signed(FromLittleEndian(LittleEndian(d % ADDRESS_RANGE, 4)), ADDRESS_RANGE) == d
  {
    assert Pow256(4) == ADDRESS_RANGE by {
      assert Pow256(3) == 256 * Pow256(2) && Pow256(2) == 256 * Pow256(1) && Pow256(1) == 256 * Pow256(0);
    }
    LittleEndianInverse(d % ADDRESS_RANGE, 4);
  }

  /** The encoded call goes to its target, for all 32-bit addresses, also where `address + 5` wraps. */
  lemma {:induction false} NearCallReaches(address: nat, target: nat)
    requires address < ADDRESS_RANGE && target < ADDRESS_RANGE && NearCall(address, target).Some?
    ensures NearCall(address, target).value[0] == 0xE8
    ensures CallTarget(NearCall(address, target).value, address) == target
  {
    hide Signed, FromLittleEndian, LittleEndian;
    var d := Displacement(address, target);
    DisplacementField(d);
    assert NearCall(address, target).value[1..] == LittleEndian(d % ADDRESS_RANGE, 4);
  }

  /** What is written over padding and prolog: a call of the thunk, and a jump back to it. */
  function NewCode(procedure: nat, thunk: nat): (r: Option<seq<byte>>)
    ensures r.Some? ==> |r.value| == PATCH_SIZE
    ensures r.Some? ==> r.value[0] == 0xE8 && r.value[5] == 0xEB && r.value[6] == 0xF9
  {
    match NearCall((procedure - PADDING) % ADDRESS_RANGE, thunk)
    case None => None
    case Some(call) => Some(call + [0xEB, (256 - 5 - 2) % 256])
  }

  /** Entering a patched procedure jumps to the padding, and from there calls the thunk. */
  lemma {:induction false} PatchedProcedureCallsThunk(procedure: nat, thunk: nat)
    requires PADDING <= procedure < ADDRESS_RANGE && thunk < ADDRESS_RANGE && NewCode(procedure, thunk).Some?
    ensures var c := NewCode(procedure, thunk).value;
            && ShortJumpTarget(c[5..], procedure) == procedure - PADDING
            && CallTarget(c[..5], procedure - PADDING) == thunk
  {
    NearCallReaches(procedure - PADDING, thunk);
    var call := NearCall(procedure - PADDING, thunk).value;
    assert NewCode(procedure, thunk).value[..5] == call;
  }

  /** Whether the thunk can be called from the padding of a procedure: it is less than 2 GB away. */
  predicate InReach(procedure: nat, thunk: nat) {
    -0x7FFF_FFFF <= thunk - procedure <= 0x7FFF_FFFF
  }

  /** A call is assembled iff the target is in reach of what follows it, on either side. */
  lemma {:induction false} NearCallIff(address: nat, target: nat)
    requires address < ADDRESS_RANGE
    ensures NearCall(address, target).Some?
            <==> InReach(if address + 5 < ADDRESS_RANGE then address + 5 else address + 5 - ADDRESS_RANGE, target)
  {
    hide LittleEndian;
  }

  /** The code for a procedure is assembled iff the thunk is in its reach. */
  lemma {:induction false} NewCodeIff(procedure: nat, thunk: nat)
    requires procedure < ADDRESS_RANGE
    ensures NewCode(procedure, thunk).Some? <==> InReach(procedure, thunk)
  {
    hide NearCall, InReach;
    NearCallIff((procedure - PADDING) % ADDRESS_RANGE, thunk);
  }

  // ---------------------------------------------------------------- instrumentability

  predicate IsAlreadyPatched(code: seq<byte>, procedure: nat)
    requires procedure < |code|
  {
    code[procedure] == 0xEB
  }

  /** The check made for every procedure before its patch is reverted. */
  predicate IsStillPatched(code: seq<byte>, procedure: nat) {
    procedure < |code| && IsAlreadyPatched(code, procedure)
  }

  /** Both the padding and the prolog lie in mapped memory. */
  predicate WindowMapped(code: seq<byte>, procedure: nat) {
    PADDING <= procedure && procedure + 2 <= |code|
  }

  predicate IsPadding(code: seq<byte>, procedure: nat)
    requires WindowMapped(code, procedure)
  {
    exists pad | pad in [0x90, 0xCC, 0x00] ::
      forall i :: procedure - PADDING <= i < procedure ==> code[i] == pad
  }

  predicate IsHotpatchable(code: seq<byte>, procedure: nat)
    requires WindowMapped(code, procedure)
  {
    code[procedure] == 0x8B && code[procedure + 1] == 0xFF
  }

  /** The check made for every procedure of a batch before the first byte is written. */
  function ValidatePatch(code: seq<byte>, procedure: nat): Status
    requires procedure < |code|
  {
    if IsAlreadyPatched(code, procedure) then AlreadyPatched
    else if !WindowMapped(code, procedure) then AccessViolation
    else if IsHotpatchable(code, procedure) && IsPadding(code, procedure) then Success
    else NotPatchable
  }

  /** Five equal bytes of padding, all NOP, INT 3 or zero, in front of MOV EDI, EDI. */
  predicate Instrumentable(code: seq<byte>, p: nat) {
    && 5 <= p && p + 2 <= |code|
    && code[p - 1] in {0x90, 0xCC, 0x00}
    && code[p - 5] == code[p - 4] == code[p - 3] == code[p - 2] == code[p - 1]
    && code[p] == 0x8B && code[p + 1] == 0xFF
  }

  lemma {:induction false} PaddingIff(code: seq<byte>, p: nat)
    requires WindowMapped(code, p)
    ensures IsPadding(code, p)
            <==> && code[p - 1] in {0x90, 0xCC, 0x00}
                 && code[p - 5] == code[p - 4] == code[p - 3] == code[p - 2] == code[p - 1]
  {
    var pads := [0x90, 0xCC, 0x00];
    assert pads[0] in pads && pads[1] in pads && pads[2] in pads;
    if IsPadding(code, p) {
      var pad :| pad in [0x90, 0xCC, 0x00] && forall i :: p - PADDING <= i < p ==> code[i] == pad;
      assert code[p - 5] == pad && code[p - 4] == pad && code[p - 3] == pad && code[p - 2] == pad && code[p - 1] == pad;
    }
  }

  /** What the check says of any bytes. */
  lemma {:induction false} ValidatedIff(code: seq<byte>, p: nat)
    requires p < |code|
    ensures ValidatePatch(code, p) == Success <==> Instrumentable(code, p)
    ensures ValidatePatch(code, p) == AlreadyPatched <==> code[p] == 0xEB
    ensures ValidatePatch(code, p) == AccessViolation <==> code[p] != 0xEB && (p < 5 || p + 2 > |code|)
    ensures ValidatePatch(code, p) in {Success, AlreadyPatched, AccessViolation, NotPatchable}
  {
    if WindowMapped(code, p) {
      PaddingIff(code, p);
    }
    hide IsPadding;
  }

  predicate Apart(p: nat, q: nat) {
    p + PATCH_SIZE <= q || q + PATCH_SIZE <= p
  }

  /** Two instrumentable procedures have disjoint windows. */
  lemma {:induction false} FreshWindowsApart(code: seq<byte>, p: nat, q: nat)
    requires p < q < |code| && ValidatePatch(code, p) == Success && ValidatePatch(code, q) == Success
    ensures Apart(p, q)
  {
    var pad :| pad in [0x90, 0xCC, 0x00] && forall i :: q - PADDING <= i < q ==> code[i] == pad;
    assert code[p] != pad && code[p + 1] != pad;
  }

  predicate IsPatchedAt(code: seq<byte>, r: nat)
    requires WindowMapped(code, r)
  {
    code[r - PADDING] == 0xE8 && code[r] == 0xEB && code[r + 1] == 0xF9
  }

  /** An instrumentable procedure keeps clear of every patched one, whatever the call displacement there is. */
  lemma {:induction false} FreshApartFromPatched(code: seq<byte>, p: nat, r: nat)
    requires p < |code| && ValidatePatch(code, p) == Success && WindowMapped(code, r) && IsPatchedAt(code, r)
    ensures Apart(p, r)
  {
    var pad :| pad in [0x90, 0xCC, 0x00] && forall i :: p - PADDING <= i < p ==> code[i] == pad;
    assert code[r - PADDING] != pad && code[r] != pad && code[r + 1] != pad;
  }

  // ---------------------------------------------------------------- the patch database

  /** A patch: `oldCode` is filled when the patch is applied. */
  datatype Patch = Patch(procedure: nat, newCode: seq<byte>, oldCode: seq<byte>)

  /** Whether suspending the other threads and making the code writable succeeds. */
  datatype Environment = Environment(threadsSuspended: bool, codeWritable: bool)

  predicate InWindow(address: int, procedure: nat) {
    procedure - PADDING <= address < procedure + 2
  }

  /** The window of `procedure` holds `bytes`. */
  ghost predicate HoldsWindow(code: seq<byte>, procedure: nat, bytes: seq<byte>)
    requires WindowMapped(code, procedure)
  {
    |bytes| == PATCH_SIZE && forall k :: 0 <= k < PATCH_SIZE ==> code[procedure - PADDING + k] == bytes[k]
  }

  ghost predicate AllApart(procedures: set<nat>) {
    forall p, q :: p in procedures && q in procedures && p != q ==> Apart(p, q)
  }

  /** A registered patch: its code is in place, and it remembers the original bytes. */
  ghost predicate Applied(code: seq<byte>, original: seq<byte>, p: nat, patch: Patch, thunk: nat) {
    && |code| == |original| && WindowMapped(code, p) && patch.procedure == p
    && NewCode(p, thunk) == Some(patch.newCode)
    && HoldsWindow(code, p, patch.newCode)
    && HoldsWindow(original, p, patch.oldCode)
  }

  /** `code` is `original` with exactly the windows of the registered procedures overwritten. */
  ghost predicate Refines(code: seq<byte>, original: seq<byte>, table: map<nat, Patch>, thunk: nat) {
    && |code| == |original|
    && AllApart(table.Keys)
    && (forall p :: p in table ==> Applied(code, original, p, table[p], thunk))
    && (forall a :: 0 <= a < |code| && (forall p :: p in table ==> !InWindow(a, p)) ==> code[a] == original[a])
  }

  /** The code depends on the original and on what is registered, not on how it came to be. */
  lemma {:induction false} CodeDetermined(
    code: seq<byte>, code': seq<byte>, original: seq<byte>, table: map<nat, Patch>, table': map<nat, Patch>, thunk: nat)
    requires Refines(code, original, table, thunk) && Refines(code', original, table', thunk)
    requires table.Keys == table'.Keys
    ensures code == code' && table == table'
  {
    hide Applied, HoldsWindow, NewCode;
    forall a | 0 <= a < |code| ensures code[a] == code'[a] {
      if p :| p in table && InWindow(a, p) {
        AppliedDetermined(code, code', original, p, table[p], table'[p], thunk);
      }
    }
    forall p | p in table ensures table[p] == table'[p] {
      AppliedDetermined(code, code', original, p, table[p], table'[p], thunk);
    }
  }

  lemma {:induction false} AppliedDetermined(
    code: seq<byte>, code': seq<byte>, original: seq<byte>, p: nat, patch: Patch, patch': Patch, thunk: nat)
    requires Applied(code, original, p, patch, thunk) && Applied(code', original, p, patch', thunk)
    ensures patch == patch'
    ensures forall a :: 0 <= a < |code| && InWindow(a, p) ==> code[a] == code'[a]
  {
    hide NewCode;
    assert patch.oldCode == patch'.oldCode by {
      assert forall k :: 0 <= k < PATCH_SIZE ==> patch.oldCode[k] == patch'.oldCode[k];
    }
    forall a | 0 <= a < |code| && InWindow(a, p) ensures code[a] == code'[a] {
      var k := a - (p - PADDING);
      assert code[p - PADDING + k] == patch.newCode[k] && code'[p - PADDING + k] == patch'.newCode[k];
    }
  }

  lemma {:induction false} NothingRegistered(code: seq<byte>, original: seq<byte>, table: map<nat, Patch>, thunk: nat)
    requires Refines(code, original, table, thunk) && table.Keys == {}
    ensures code == original
  {
  }

  // ---------------------------------------------------------------- a batch

  ghost predicate InCode(code: seq<byte>, procedures: seq<nat>) {
    forall k :: 0 <= k < |procedures| ==> procedures[k] < |code|
  }

  ghost predicate Distinct(procedures: seq<nat>) {
    forall i, j :: 0 <= i < j < |procedures| ==> procedures[i] != procedures[j]
  }

  function Procedures(patches: seq<Patch>): (r: seq<nat>)
    ensures |r| == |patches| && forall k :: 0 <= k < |r| ==> r[k] == patches[k].procedure
  {
    if patches == [] then []
    else Procedures(patches[..|patches| - 1]) + [patches[|patches| - 1].procedure]
  }

  ghost predicate Elsewhere(address: nat, procedures: seq<nat>) {
    forall k :: 0 <= k < |procedures| ==> !InWindow(address, procedures[k])
  }

  /** Only the windows of `procedures` may differ. */
  ghost predicate SameElsewhere(before: seq<byte>, after: seq<byte>, procedures: seq<nat>) {
    |before| == |after| && forall a :: 0 <= a < |before| && Elsewhere(a, procedures) ==> after[a] == before[a]
  }

  datatype Action = Instrument | Uninstrument

  function EnvironmentStatus(env: Environment): Status {
    if !env.threadsSuspended then ThreadSuspendFailure
    else if !env.codeWritable then AccessViolation
    else Success
  }

  ghost predicate AllValid(code: seq<byte>, procedures: seq<nat>)
    requires InCode(code, procedures)
  {
    forall k :: 0 <= k < |procedures| ==> ValidatePatch(code, procedures[k]) == Success
  }

  /** The first procedure of the batch, from `i` on, that cannot be instrumented. */
  function FirstInvalid(code: seq<byte>, procedures: seq<nat>, i: nat): (k: nat)
    requires InCode(code, procedures) && i <= |procedures|
    ensures i <= k <= |procedures|
    ensures k < |procedures| ==> ValidatePatch(code, procedures[k]) != Success
    ensures forall j :: i <= j < k ==> ValidatePatch(code, procedures[j]) == Success
    decreases |procedures| - i
  {
    if i < |procedures| && ValidatePatch(code, procedures[i]) == Success then FirstInvalid(code, procedures, i + 1) else i
  }

  lemma {:induction false} NoneInvalid(code: seq<byte>, procedures: seq<nat>)
    requires InCode(code, procedures)
    ensures AllValid(code, procedures) <==> FirstInvalid(code, procedures, 0) == |procedures|
  {
  }

  /** The first procedure of the batch, from `i` on, from which the thunk is too far. */
  function FirstFar(procedures: seq<nat>, thunk: nat, i: nat): (k: nat)
    requires i <= |procedures|
    ensures i <= k <= |procedures|
    ensures k < |procedures| ==> NewCode(procedures[k], thunk) == None
    ensures forall j :: i <= j < k ==> NewCode(procedures[j], thunk).Some?
    decreases |procedures| - i
  {
    if i < |procedures| && NewCode(procedures[i], thunk).Some? then FirstFar(procedures, thunk, i + 1) else i
  }

  /** The first procedure of the batch, from `i` on, that is not registered. */
  function FirstUnregistered(procedures: seq<nat>, table: map<nat, Patch>, i: nat): (k: nat)
    requires i <= |procedures|
    ensures i <= k <= |procedures|
    ensures k < |procedures| ==> procedures[k] !in table
    ensures forall j :: i <= j < k ==> procedures[j] in table
    decreases |procedures| - i
  {
    if i < |procedures| && procedures[i] in table then FirstUnregistered(procedures, table, i + 1) else i
  }

  /** Status and failed procedure of instrumenting a batch. */
  function InstrumentResult(code: seq<byte>, procedures: seq<nat>, thunk: nat, env: Environment): (Status, Option<nat>)
    requires InCode(code, procedures)
  {
    var far, invalid := FirstFar(procedures, thunk, 0), FirstInvalid(code, procedures, 0);
    if far < |procedures| then (ProcTooFar, Some(procedures[far]))
    else if invalid < |procedures| then (ValidatePatch(code, procedures[invalid]), Some(procedures[invalid]))
    else (EnvironmentStatus(env), None)
  }

  /** Status and failed procedure of removing a batch. */
  function UninstrumentResult(procedures: seq<nat>, table: map<nat, Patch>, env: Environment): (Status, Option<nat>) {
    var missing := FirstUnregistered(procedures, table, 0);
    if missing < |procedures| then (NotPatched, Some(procedures[missing])) else (EnvironmentStatus(env), None)
  }

  predicate Permits(env: Environment) {
    env.threadsSuspended && env.codeWritable
  }

  /** What a batch takes to be instrumented. */
  ghost predicate BatchFits(code: seq<byte>, procedures: seq<nat>, thunk: nat, env: Environment) {
    && (forall k :: 0 <= k < |procedures| ==> Instrumentable(code, procedures[k]) && InReach(procedures[k], thunk))
    && Permits(env)
  }

  ghost predicate Addresses(procedures: seq<nat>) {
    forall k :: 0 <= k < |procedures| ==> procedures[k] < ADDRESS_RANGE
  }

  /** A batch succeeds iff all its procedures are hotpatchable, with padding, and in reach of the thunk. */
  lemma {:induction false} BatchSucceedsIff(code: seq<byte>, procedures: seq<nat>, thunk: nat, env: Environment)
    requires InCode(code, procedures) && Addresses(procedures)
    ensures InstrumentResult(code, procedures, thunk, env).0 == Success <==> BatchFits(code, procedures, thunk, env)
    ensures InstrumentResult(code, procedures, thunk, env).0 == ProcTooFar
            <==> exists k :: 0 <= k < |procedures| && !InReach(procedures[k], thunk)
  {
    forall k | 0 <= k < |procedures|
      ensures ValidatePatch(code, procedures[k]) == Success <==> Instrumentable(code, procedures[k])
      ensures NewCode(procedures[k], thunk).Some? <==> InReach(procedures[k], thunk)
    {
      ValidatedIff(code, procedures[k]);
      NewCodeIff(procedures[k], thunk);
    }
    hide ValidatePatch, NewCode, Instrumentable, InReach;
  }

  /** A removal succeeds iff all of the batch is registered. */
  lemma {:induction false} RemovalSucceedsIff(procedures: seq<nat>, table: map<nat, Patch>, env: Environment)
    ensures UninstrumentResult(procedures, table, env).0 == Success
            <==> (forall k :: 0 <= k < |procedures| ==> procedures[k] in table) && Permits(env)
  {
  }

  /** The patch is in place and its old code is known. */
  ghost predicate Revertible(code: seq<byte>, patch: Patch) {
    WindowMapped(code, patch.procedure) && |patch.oldCode| == PATCH_SIZE && IsStillPatched(code, patch.procedure)
  }

  /** The first `i` patches have been applied: their windows are saved and overwritten. */
  ghost predicate PatchesApplied(
    before: seq<byte>, after: seq<byte>, patches: seq<Patch>, patches': seq<Patch>, i: nat) {
    && i <= |patches| == |patches'| && |before| == |after|
    && (forall k :: 0 <= k < i ==>
          && WindowMapped(before, patches[k].procedure)
          && patches'[k] == patches[k].(oldCode := patches'[k].oldCode)
          && HoldsWindow(before, patches[k].procedure, patches'[k].oldCode)
          && HoldsWindow(after, patches[k].procedure, patches'[k].newCode))
    && (forall k :: i <= k < |patches| ==> patches'[k] == patches[k])
    && SameElsewhere(before, after, Procedures(patches[..i]))
  }

  /** A patch that is not found in the code any more cannot be reverted. */
  ghost predicate Doomed(code: seq<byte>, patch: Patch) {
    !IsStillPatched(code, patch.procedure)
  }

  /** Of the first `i` patches those that are still in the code have been reverted, and nothing else. */
  ghost predicate LiveReverted(before: seq<byte>, after: seq<byte>, patches: seq<Patch>, i: nat) {
    && i <= |patches| && |before| == |after|
    && (forall k :: 0 <= k < i && !Doomed(before, patches[k]) ==>
          && WindowMapped(before, patches[k].procedure)
          && HoldsWindow(after, patches[k].procedure, patches[k].oldCode))
    && (forall a :: 0 <= a < |before| && Clear(before, patches, i, a) ==> after[a] == before[a])
  }

  /** None of the first `i` patches that are still in the code covers `address`. */
  ghost predicate Clear(before: seq<byte>, patches: seq<Patch>, i: nat, address: nat)
    requires i <= |patches|
  {
    forall k :: 0 <= k < i && !Doomed(before, patches[k]) ==> !InWindow(address, patches[k].procedure)
  }

  /** All patches have been reverted. */
  ghost predicate PatchesReverted(before: seq<byte>, after: seq<byte>, patches: seq<Patch>) {
    && |before| == |after|
    && (forall k :: 0 <= k < |patches| ==>
          && WindowMapped(before, patches[k].procedure)
          && HoldsWindow(after, patches[k].procedure, patches[k].oldCode))
    && SameElsewhere(before, after, Procedures(patches))
  }

  lemma {:induction false} NoneDoomed(before: seq<byte>, after: seq<byte>, patches: seq<Patch>)
    requires LiveReverted(before, after, patches, |patches|)
    requires forall k :: 0 <= k < |patches| ==> !Doomed(before, patches[k])
    ensures PatchesReverted(before, after, patches)
  {
    hide HoldsWindow, Doomed;
    forall a | 0 <= a < |before| && Elsewhere(a, Procedures(patches)) ensures after[a] == before[a] {
      forall k | 0 <= k < |patches| ensures !InWindow(a, patches[k].procedure) {
        assert Procedures(patches)[k] == patches[k].procedure;
      }
      assert Clear(before, patches, |patches|, a);
    }
  }

  /** The windows of a validated batch are disjoint. */
  lemma {:induction false} BatchApart(code: seq<byte>, procedures: seq<nat>)
    requires InCode(code, procedures) && Distinct(procedures) && AllValid(code, procedures)
    ensures forall i, j :: 0 <= i < |procedures| && 0 <= j < |procedures| && i != j ==> Apart(procedures[i], procedures[j])
  {
    forall i, j | 0 <= i < |procedures| && 0 <= j < |procedures| && i != j ensures Apart(procedures[i], procedures[j]) {
      if procedures[i] < procedures[j] {
        FreshWindowsApart(code, procedures[i], procedures[j]);
      } else {
        FreshWindowsApart(code, procedures[j], procedures[i]);
      }
    }
  }

  lemma {:induction false} NothingDone(code: seq<byte>, patches: seq<Patch>)
    ensures PatchesApplied(code, code, patches, patches, 0) && LiveReverted(code, code, patches, 0)
  {
  }

  lemma {:induction false} NextUntouched(
    before: seq<byte>, after: seq<byte>, patches: seq<Patch>, patches': seq<Patch>, i: nat)
    requires PatchesApplied(before, after, patches, patches', i) && i < |patches|
    ensures |before| == |after| && |patches'| == |patches| && patches'[i] == patches[i]
  {
  }

  lemma {:induction false} NextUnreverted(before: seq<byte>, after: seq<byte>, patches: seq<Patch>, i: nat)
    requires LiveReverted(before, after, patches, i) && i < |patches|
    ensures |before| == |after|
  {
  }

  lemma {:induction false} WindowKept(before: seq<byte>, after: seq<byte>, p: nat, q: nat, bytes: seq<byte>)
    requires |before| == |after| && WindowMapped(before, p) && HoldsWindow(before, p, bytes) && Apart(p, q)
    requires forall a :: 0 <= a < |before| && !InWindow(a, q) ==> after[a] == before[a]
    ensures HoldsWindow(after, p, bytes)
  {
  }

  lemma {:induction false} ElsewhereOneMore(
    before: seq<byte>, mid: seq<byte>, after: seq<byte>, patches: seq<Patch>, i: nat)
    requires i < |patches| && SameElsewhere(before, mid, Procedures(patches[..i])) && |mid| == |after|
    requires forall a :: 0 <= a < |mid| && !InWindow(a, patches[i].procedure) ==> after[a] == mid[a]
    ensures SameElsewhere(before, after, Procedures(patches[..i + 1]))
  {
    var p, p' := Procedures(patches[..i]), Procedures(patches[..i + 1]);
    forall a | 0 <= a < |before| && Elsewhere(a, p') ensures after[a] == before[a] {
      assert p'[i] == patches[i].procedure;
      forall k | 0 <= k < |p| ensures !InWindow(a, p[k]) {
        assert p'[k] == p[k];
      }
      assert Elsewhere(a, p);
    }
  }

  lemma {:induction false} AppliedOneMore(
    before: seq<byte>, mid: seq<byte>, after: seq<byte>,
    patches: seq<Patch>, patches1: seq<Patch>, patches2: seq<Patch>, i: nat)
    requires PatchesApplied(before, mid, patches, patches1, i) && i < |patches| && |mid| == |after|
    requires WindowMapped(before, patches[i].procedure)
    requires forall j :: 0 <= j < i ==> Apart(patches[i].procedure, patches[j].procedure)
    requires |patches2| == |patches1| && patches2 == patches1[i := patches1[i].(oldCode := patches2[i].oldCode)]
    requires HoldsWindow(mid, patches[i].procedure, patches2[i].oldCode)
    requires HoldsWindow(after, patches[i].procedure, patches2[i].newCode)
    requires forall a :: 0 <= a < |mid| && !InWindow(a, patches[i].procedure) ==> after[a] == mid[a]
    ensures PatchesApplied(before, after, patches, patches2, i + 1)
  {
    var p := patches[i].procedure;
    ElsewhereOneMore(before, mid, after, patches, i);
    forall a | 0 <= a < |before| && InWindow(a, p) ensures mid[a] == before[a] {
      assert Elsewhere(a, Procedures(patches[..i]));
    }
    forall k | 0 <= k < i ensures HoldsWindow(after, patches[k].procedure, patches2[k].newCode) {
      WindowKept(mid, after, patches[k].procedure, p, patches2[k].newCode);
    }
  }

  lemma {:induction false} RevertedOneMore(
    before: seq<byte>, mid: seq<byte>, after: seq<byte>, patches: seq<Patch>, i: nat)
    requires LiveReverted(before, mid, patches, i) && i < |patches| && |mid| == |after|
    requires WindowMapped(before, patches[i].procedure) && !Doomed(before, patches[i])
    requires forall j :: 0 <= j < i && !Doomed(before, patches[j]) ==> Apart(patches[i].procedure, patches[j].procedure)
    requires HoldsWindow(after, patches[i].procedure, patches[i].oldCode)
    requires forall a :: 0 <= a < |mid| && !InWindow(a, patches[i].procedure) ==> after[a] == mid[a]
    ensures LiveReverted(before, after, patches, i + 1)
  {
    hide HoldsWindow, Doomed;
    forall k | 0 <= k < i && !Doomed(before, patches[k])
      ensures HoldsWindow(after, patches[k].procedure, patches[k].oldCode)
    {
      WindowKept(mid, after, patches[k].procedure, patches[i].procedure, patches[k].oldCode);
    }
    forall a | 0 <= a < |before| && Clear(before, patches, i + 1, a) ensures after[a] == before[a] {
      assert Clear(before, patches, i, a);
    }
  }

  lemma {:induction false} SkippedOneMore(before: seq<byte>, after: seq<byte>, patches: seq<Patch>, i: nat)
    requires LiveReverted(before, after, patches, i) && i < |patches| && Doomed(before, patches[i])
    ensures LiveReverted(before, after, patches, i + 1)
  {
    hide HoldsWindow, Doomed;
    forall a | 0 <= a < |before| && Clear(before, patches, i + 1, a) ensures after[a] == before[a] {
      assert Clear(before, patches, i, a);
    }
  }

  // ---------------------------------------------------------------- a batch and the table

  /** `patches` are the table entries of `procedures`. */
  ghost predicate Registered(table: map<nat, Patch>, procedures: seq<nat>, patches: seq<Patch>) {
    |patches| == |procedures|
    && forall k :: 0 <= k < |procedures| ==> procedures[k] in table && patches[k] == table[procedures[k]]
  }

  lemma {:induction false} RegisteredRevertible(
    code: seq<byte>, original: seq<byte>, table: map<nat, Patch>, procedures: seq<nat>, patches: seq<Patch>, thunk: nat)
    requires Refines(code, original, table, thunk) && Distinct(procedures) && Registered(table, procedures, patches)
    ensures Procedures(patches) == procedures && InCode(code, procedures)
    ensures forall k :: 0 <= k < |patches| ==> patches[k].procedure == procedures[k] && Revertible(code, patches[k])
    ensures forall i, j :: 0 <= i < |patches| && 0 <= j < |patches| && i != j ==>
                             Apart(patches[i].procedure, patches[j].procedure)
  {
    hide NewCode, HoldsWindow, Revertible, IsStillPatched;
    forall k | 0 <= k < |patches|
      ensures patches[k].procedure == procedures[k] && Revertible(code, patches[k]) && procedures[k] < |code|
    {
      assert Applied(code, original, procedures[k], table[procedures[k]], thunk);
      AppliedIsRevertible(code, original, procedures[k], patches[k], thunk);
    }
    hide Applied;
    assert Procedures(patches) == procedures;
  }

  lemma {:induction false} AppliedIsRevertible(code: seq<byte>, original: seq<byte>, p: nat, patch: Patch, thunk: nat)
    requires Applied(code, original, p, patch, thunk)
    ensures Revertible(code, patch) && p < |code|
  {
    assert code[p - PADDING + 5] == patch.newCode[5] == 0xEB;
  }

  /** Reverting registered patches and dropping their entries keeps the refinement. */
  lemma {:induction false} BatchUnregistered(
    before: seq<byte>, after: seq<byte>, original: seq<byte>, table: map<nat, Patch>, table': map<nat, Patch>,
    procedures: seq<nat>, patches: seq<Patch>, thunk: nat)
    requires Refines(before, original, table, thunk) && Registered(table, procedures, patches)
    requires Procedures(patches) == procedures && PatchesReverted(before, after, patches)
    requires table' == table - set p | p in procedures
    ensures Refines(after, original, table', thunk)
  {
    hide NewCode;
    forall p | p in table' ensures Applied(after, original, p, table'[p], thunk) {
      assert Applied(before, original, p, table[p], thunk);
      hide Applied;
      forall k | 0 <= k < |procedures| ensures Apart(procedures[k], p) {
        assert procedures[k] in table && p in table && procedures[k] != p;
      }
      OldKeepsApplied(before, after, original, p, table[p], procedures, thunk);
    }
    forall a | 0 <= a < |after| && (forall p :: p in table' ==> !InWindow(a, p)) ensures after[a] == original[a] {
      RevertedByte(before, after, original, table, procedures, patches, thunk, a);
    }
  }

  lemma {:induction false} RevertedByte(
    before: seq<byte>, after: seq<byte>, original: seq<byte>, table: map<nat, Patch>,
    procedures: seq<nat>, patches: seq<Patch>, thunk: nat, a: nat)
    requires Refines(before, original, table, thunk) && Registered(table, procedures, patches) && a < |before|
    requires Procedures(patches) == procedures && PatchesReverted(before, after, patches)
    requires forall p :: p in table && p !in procedures ==> !InWindow(a, p)
    ensures after[a] == original[a]
  {
    hide NewCode, Refines, Applied, HoldsWindow;
    if i :| 0 <= i < |procedures| && InWindow(a, procedures[i]) {
      WindowRestored(before, after, original, table, procedures, patches, thunk, i);
    } else {
      assert Elsewhere(a, procedures);
      OutsideOriginal(before, original, table, thunk, a);
    }
  }

  lemma {:induction false} OutsideOriginal(
    code: seq<byte>, original: seq<byte>, table: map<nat, Patch>, thunk: nat, a: nat)
    requires Refines(code, original, table, thunk) && a < |code| && forall p :: p in table ==> !InWindow(a, p)
    ensures code[a] == original[a]
  {
  }

  lemma {:induction false} WindowRestored(
    before: seq<byte>, after: seq<byte>, original: seq<byte>, table: map<nat, Patch>,
    procedures: seq<nat>, patches: seq<Patch>, thunk: nat, i: nat)
    requires Refines(before, original, table, thunk) && Registered(table, procedures, patches) && i < |procedures|
    requires PatchesReverted(before, after, patches)
    ensures forall a :: 0 <= a < |before| && InWindow(a, procedures[i]) ==> after[a] == original[a]
  {
    hide *;
    RegisteredOldCode(before, original, table, procedures, patches, thunk, i);
    RevertedOldCode(before, after, patches, i);
    SameBytesSameWindow(original, after, procedures[i], patches[i].oldCode);
  }

  lemma {:induction false} RegisteredOldCode(
    code: seq<byte>, original: seq<byte>, table: map<nat, Patch>,
    procedures: seq<nat>, patches: seq<Patch>, thunk: nat, i: nat)
    requires Refines(code, original, table, thunk) && Registered(table, procedures, patches) && i < |procedures|
    ensures |patches| == |procedures| && patches[i].procedure == procedures[i] && |code| == |original|
    ensures WindowMapped(original, procedures[i]) && HoldsWindow(original, procedures[i], patches[i].oldCode)
  {
    hide HoldsWindow, NewCode;
    assert Applied(code, original, procedures[i], table[procedures[i]], thunk);
  }

  lemma {:induction false} RevertedOldCode(before: seq<byte>, after: seq<byte>, patches: seq<Patch>, i: nat)
    requires PatchesReverted(before, after, patches) && i < |patches|
    ensures |before| == |after| && WindowMapped(after, patches[i].procedure)
    ensures HoldsWindow(after, patches[i].procedure, patches[i].oldCode)
  {
    hide HoldsWindow, SameElsewhere;
  }

  lemma {:induction false} SameBytesSameWindow(code: seq<byte>, code': seq<byte>, p: nat, bytes: seq<byte>)
    requires |code| == |code'| && WindowMapped(code, p) && HoldsWindow(code, p, bytes) && HoldsWindow(code', p, bytes)
    ensures forall a :: 0 <= a < |code| && InWindow(a, p) ==> code'[a] == code[a]
  {
    forall a | 0 <= a < |code| && InWindow(a, p) ensures code'[a] == code[a] {
      var k := a - (p - PADDING);
      assert code[p - PADDING + k] == bytes[k] && code'[p - PADDING + k] == bytes[k];
    }
  }

  lemma {:induction false} SameSet(patches: seq<Patch>, procedures: seq<nat>)
    requires |patches| == |procedures| && forall k :: 0 <= k < |patches| ==> patches[k].procedure == procedures[k]
    ensures (set k | 0 <= k < |patches| :: patches[k].procedure) == set p | p in procedures
  {
    forall p | p in procedures ensures p in set k | 0 <= k < |patches| :: patches[k].procedure {
      var k :| 0 <= k < |procedures| && procedures[k] == p;
      assert patches[k].procedure == p;
    }
  }

  lemma {:induction false} SameProcedures(
    before: seq<byte>, after: seq<byte>, patches: seq<Patch>, patches': seq<Patch>)
    requires PatchesApplied(before, after, patches, patches', |patches|)
    ensures |patches'| == |patches| && Procedures(patches') == Procedures(patches)
    ensures forall k :: 0 <= k < |patches| ==> patches'[k].newCode == patches[k].newCode
  {
    assert forall k :: 0 <= k < |patches| ==> patches'[k].procedure == patches[k].procedure;
  }

  /** Applying a validated batch and entering it into the table keeps the refinement. */
  lemma {:induction false} BatchRegistered(
    before: seq<byte>, after: seq<byte>, original: seq<byte>, table: map<nat, Patch>, table': map<nat, Patch>,
    procedures: seq<nat>, patches: seq<Patch>, patches': seq<Patch>, thunk: nat)
    requires Refines(before, original, table, thunk) && InCode(before, procedures) && Distinct(procedures)
    requires AllValid(before, procedures) && Procedures(patches) == procedures && |patches'| == |patches| == |procedures|
    requires forall k :: 0 <= k < |procedures| ==> NewCode(procedures[k], thunk) == Some(patches'[k].newCode)
    requires PatchesApplied(before, after, patches, patches', |patches|)
    requires table'.Keys == table.Keys + set k | 0 <= k < |patches'| :: patches'[k].procedure
    requires forall p :: p in table && p !in procedures ==> table'[p] == table[p]
    requires forall k :: 0 <= k < |patches'| ==> patches'[k].procedure in table' && table'[patches'[k].procedure] == patches'[k]
    ensures Refines(after, original, table', thunk)
  {
    hide *;
    SameProcedures(before, after, patches, patches');
    NewApartFromOld(before, original, table, procedures, thunk);
    BatchApart(before, procedures);
    forall p | p in table' ensures Applied(after, original, p, table'[p], thunk) {
      EntryIsApplied(before, after, original, table, table', procedures, patches, patches', thunk, p);
    }
    AllApartUnion(before, original, table, table', procedures, thunk);
    AppliedElsewhere(before, after, procedures, patches, patches');
    OutsideUnchanged(before, after, original, table, procedures, table', thunk);
    RefinesFromParts(after, original, table', thunk);
  }

  lemma {:induction false} RefinesFromParts(code: seq<byte>, original: seq<byte>, table: map<nat, Patch>, thunk: nat)
    requires |code| == |original| && AllApart(table.Keys)
    requires forall p :: p in table ==> Applied(code, original, p, table[p], thunk)
    requires forall a :: 0 <= a < |code| && (forall p :: p in table ==> !InWindow(a, p)) ==> code[a] == original[a]
    ensures Refines(code, original, table, thunk)
  {
  }

  lemma {:induction false} AllApartUnion(
    code: seq<byte>, original: seq<byte>, table: map<nat, Patch>, table': map<nat, Patch>, procedures: seq<nat>, thunk: nat)
    requires Refines(code, original, table, thunk)
    requires forall p :: p in table' ==> p in table || p in procedures
    requires forall r, k :: r in table && 0 <= k < |procedures| ==> Apart(procedures[k], r)
    requires forall i, j :: 0 <= i < |procedures| && 0 <= j < |procedures| && i != j ==> Apart(procedures[i], procedures[j])
    ensures AllApart(table'.Keys)
  {
  }

  lemma {:induction false} AppliedElsewhere(
    before: seq<byte>, after: seq<byte>, procedures: seq<nat>, patches: seq<Patch>, patches': seq<Patch>)
    requires PatchesApplied(before, after, patches, patches', |patches|) && Procedures(patches) == procedures
    ensures SameElsewhere(before, after, procedures)
    ensures forall k :: 0 <= k < |procedures| ==> procedures[k] == patches'[k].procedure
  {
    assert patches[..|patches|] == patches;
  }

  lemma {:induction false} EntryIsApplied(
    before: seq<byte>, after: seq<byte>, original: seq<byte>, table: map<nat, Patch>, table': map<nat, Patch>,
    procedures: seq<nat>, patches: seq<Patch>, patches': seq<Patch>, thunk: nat, p: nat)
    requires Refines(before, original, table, thunk) && p in table'
    requires PatchesApplied(before, after, patches, patches', |patches|) && Procedures(patches) == procedures
    requires |patches'| == |patches| == |procedures|
    requires forall k :: 0 <= k < |procedures| ==> NewCode(procedures[k], thunk) == Some(patches'[k].newCode)
    requires forall r, k :: r in table && 0 <= k < |procedures| ==> Apart(procedures[k], r)
    requires forall k :: 0 <= k < |procedures| ==> procedures[k] !in table
    requires table'.Keys == table.Keys + set k | 0 <= k < |patches'| :: patches'[k].procedure
    requires forall r :: r in table && r !in procedures ==> table'[r] == table[r]
    requires forall k :: 0 <= k < |patches'| ==> patches'[k].procedure in table' && table'[patches'[k].procedure] == patches'[k]
    ensures Applied(after, original, p, table'[p], thunk)
  {
    hide NewCode;
    AppliedElsewhere(before, after, procedures, patches, patches');
    if p in table {
      hide PatchesApplied, HoldsWindow;
      OldKeepsApplied(before, after, original, p, table[p], procedures, thunk);
    } else {
      var k :| 0 <= k < |patches'| && patches'[k].procedure == p;
      assert procedures[k] == p;
      NewIsApplied(before, after, original, table, p, patches'[k], thunk);
    }
  }

  /** An instrumentable procedure keeps clear of a registered one. */
  lemma {:induction false} OneApart(code: seq<byte>, original: seq<byte>, p: nat, r: nat, patch: Patch, thunk: nat)
    requires p < |code| && Applied(code, original, r, patch, thunk) && ValidatePatch(code, p) == Success
    ensures Apart(p, r)
  {
    assert code[r - PADDING + 0] == 0xE8 && code[r - PADDING + 5] == 0xEB && code[r - PADDING + 6] == 0xF9;
    hide Applied, ValidatePatch;
    FreshApartFromPatched(code, p, r);
  }

  lemma {:induction false} NewApartFromOld(
    code: seq<byte>, original: seq<byte>, table: map<nat, Patch>, procedures: seq<nat>, thunk: nat)
    requires Refines(code, original, table, thunk) && InCode(code, procedures) && AllValid(code, procedures)
    ensures forall r, k :: r in table && 0 <= k < |procedures| ==> Apart(procedures[k], r)
    ensures forall k :: 0 <= k < |procedures| ==> procedures[k] !in table
  {
    hide Applied, ValidatePatch;
    forall r, k | r in table && 0 <= k < |procedures| ensures Apart(procedures[k], r) {
      OneApart(code, original, procedures[k], r, table[r], thunk);
    }
    forall k | 0 <= k < |procedures| ensures procedures[k] !in table {
      assert !Apart(procedures[k], procedures[k]);
    }
  }

  lemma {:induction false} OldKeepsApplied(
    before: seq<byte>, after: seq<byte>, original: seq<byte>, p: nat, patch: Patch, procedures: seq<nat>, thunk: nat)
    requires Applied(before, original, p, patch, thunk) && SameElsewhere(before, after, procedures)
    requires forall k :: 0 <= k < |procedures| ==> Apart(procedures[k], p)
    ensures Applied(after, original, p, patch, thunk)
  {
    hide NewCode;
    forall a | p - PADDING <= a < p + 2 ensures after[a] == before[a] {
      assert Elsewhere(a, procedures);
    }
  }

  lemma {:induction false} NewIsApplied(
    before: seq<byte>, after: seq<byte>, original: seq<byte>, table: map<nat, Patch>, p: nat, patch: Patch, thunk: nat)
    requires Refines(before, original, table, thunk) && |after| == |before|
    requires forall r :: r in table ==> Apart(p, r)
    requires WindowMapped(before, p) && patch.procedure == p && NewCode(p, thunk) == Some(patch.newCode)
    requires HoldsWindow(before, p, patch.oldCode) && HoldsWindow(after, p, patch.newCode)
    ensures Applied(after, original, p, patch, thunk)
  {
    hide NewCode;
    forall k | 0 <= k < PATCH_SIZE ensures original[p - PADDING + k] == patch.oldCode[k] {
      assert forall r :: r in table ==> !InWindow(p - PADDING + k, r);
      assert before[p - PADDING + k] == original[p - PADDING + k];
    }
  }

  lemma {:induction false} OutsideUnchanged(
    before: seq<byte>, after: seq<byte>, original: seq<byte>, table: map<nat, Patch>, procedures: seq<nat>,
    table': map<nat, Patch>, thunk: nat)
    requires Refines(before, original, table, thunk) && SameElsewhere(before, after, procedures)
    requires table.Keys <= table'.Keys && forall k :: 0 <= k < |procedures| ==> procedures[k] in table'
    ensures |after| == |original|
    ensures forall a :: 0 <= a < |after| && (forall p :: p in table' ==> !InWindow(a, p)) ==> after[a] == original[a]
  {
    forall a | 0 <= a < |after| && (forall p :: p in table' ==> !InWindow(a, p)) ensures after[a] == original[a] {
      assert Elsewhere(a, procedures);
    }
  }

  // ---------------------------------------------------------------- the database

  class PatchDatabase {
    const code: array<byte>
    const thunk: nat
    const original: seq<byte>
    var table: map<nat, Patch>

    ghost predicate Valid()
      reads this, code
    {
      Refines(code[..], original, table, thunk)
    }

    constructor (code: array<byte>, thunk: nat)
      ensures Valid() && table == map[] && this.code == code && original == code[..] && this.thunk == thunk
    {
      this.code, this.thunk, original, table := code, thunk, code[..], map[];
    }

    /** Saves the window of one patch and overwrites it. */
    method ApplyPatch(patches: array<Patch>, i: nat)
      requires i < patches.Length && WindowMapped(code[..], patches[i].procedure) && |patches[i].newCode| == PATCH_SIZE
      modifies code, patches
      ensures patches[..] == old(patches[..])[i := old(patches[i]).(oldCode := patches[i].oldCode)]
      ensures HoldsWindow(old(code[..]), patches[i].procedure, patches[i].oldCode)
      ensures HoldsWindow(code[..], patches[i].procedure, patches[i].newCode)
      ensures forall a :: 0 <= a < code.Length && !InWindow(a, patches[i].procedure) ==> code[a] == old(code[a])
    {
      var target := patches[i].procedure - PADDING;
      patches[i] := patches[i].(oldCode := code[target..target + PATCH_SIZE]);
      var newCode := patches[i].newCode;
      forall k | 0 <= k < PATCH_SIZE {
        code[target + k] := newCode[k];
      }
    }

    /** Puts the saved bytes of one patch back. */
    method RevertPatch(patch: Patch)
      requires WindowMapped(code[..], patch.procedure) && |patch.oldCode| == PATCH_SIZE
      modifies code
      ensures HoldsWindow(code[..], patch.procedure, patch.oldCode)
      ensures forall a :: 0 <= a < code.Length && !InWindow(a, patch.procedure) ==> code[a] == old(code[a])
    {
      var target := patch.procedure - PADDING;
      forall k | 0 <= k < PATCH_SIZE {
        code[target + k] := patch.oldCode[k];
      }
    }

    method ValidateAll(patches: array<Patch>) returns (status: Status, failed: Option<nat>)
      requires InCode(code[..], Procedures(patches[..]))
      ensures var procedures := Procedures(patches[..]);
              if AllValid(code[..], procedures) then status == Success && failed == None
              else failed == Some(FirstInvalid(code[..], procedures, 0)) && failed.value < patches.Length
                   && status == ValidatePatch(code[..], procedures[failed.value]) && status != Success
    {
      ghost var procedures := Procedures(patches[..]);
      var i := 0;
      while i < patches.Length
        invariant i <= patches.Length
        invariant forall k :: 0 <= k < i ==> ValidatePatch(code[..], procedures[k]) == Success
        invariant FirstInvalid(code[..], procedures, 0) == FirstInvalid(code[..], procedures, i)
      {
        assert procedures[i] == patches[i].procedure;
        status := ValidatePatch(code[..], patches[i].procedure);
        if status != Success {
          return status, Some(i);
        }
        i := i + 1;
      }
      return Success, None;
    }

    /** The patches that cannot be reverted, because their code is gone or not patched any more. */
    method FindDoomed(patches: array<Patch>) returns (doomed: set<nat>)
      ensures forall i: nat :: i in doomed <==> (i < patches.Length && !IsStillPatched(code[..], patches[i].procedure))
    {
      doomed := {};
      for i := 0 to patches.Length
        invariant forall k: nat :: k in doomed <==> (k < i && !IsStillPatched(code[..], patches[k].procedure))
      {
        if !IsStillPatched(code[..], patches[i].procedure) {
          doomed := doomed + {i};
        }
      }
    }

    /**
     Validates all patches, then applies all of them, or reverts all that are not doomed;
     nothing is written unless every check has succeeded.
     */
    method PatchCode(action: Action, patches: array<Patch>, env: Environment)
      returns (status: Status, failed: Option<nat>)
      requires InCode(code[..], Procedures(patches[..])) && Distinct(Procedures(patches[..]))
      requires action == Instrument ==> forall i :: 0 <= i < patches.Length ==> |patches[i].newCode| == PATCH_SIZE
      requires action == Uninstrument ==>
                 forall i :: 0 <= i < patches.Length ==> Doomed(code[..], patches[i]) || Revertible(code[..], patches[i])
      requires action == Uninstrument ==>
                 forall i, j :: 0 <= i < j < patches.Length ==>
                                  || Doomed(code[..], patches[i]) || Doomed(code[..], patches[j])
                                  || Apart(patches[i].procedure, patches[j].procedure)
      modifies code, patches
      ensures status != Success ==> code[..] == old(code[..]) && patches[..] == old(patches[..])
      ensures failed.Some? ==> status != Success && failed.value < patches.Length
      ensures var procedures := Procedures(old(patches[..]));
              if action == Instrument && !AllValid(old(code[..]), procedures)
              then failed == Some(FirstInvalid(old(code[..]), procedures, 0))
                   && status == ValidatePatch(old(code[..]), procedures[failed.value])
              else failed == None && status == EnvironmentStatus(env)
      ensures status == Success && action == Instrument ==>
                PatchesApplied(old(code[..]), code[..], old(patches[..]), patches[..], patches.Length)
      ensures status == Success && action == Uninstrument ==>
                patches[..] == old(patches[..]) && LiveReverted(old(code[..]), code[..], patches[..], patches.Length)
    {
      hide PatchesApplied, LiveReverted;
      var doomed := {};
      ghost var before, patches0 := code[..], patches[..];
      if action == Instrument {
        status, failed := ValidateAll(patches);
        if status != Success {
          return;
        }
        BatchApart(before, Procedures(patches0));
      } else {
        doomed := FindDoomed(patches);
      }
      failed := None;
      if !env.threadsSuspended {
        return ThreadSuspendFailure, None;
      }
      if !env.codeWritable {
        return AccessViolation, None;
      }
      status := Success;
      var i := 0;
      NothingDone(before, patches0);
      while i < patches.Length
        invariant i <= patches.Length
        invariant action == Instrument ==> forall k :: 0 <= k < patches.Length ==> WindowMapped(before, patches0[k].procedure)
        invariant action == Instrument ==> PatchesApplied(before, code[..], patches0, patches[..], i)
        invariant action == Uninstrument ==> patches[..] == patches0 && LiveReverted(before, code[..], patches0, i)
      {
        ghost var code1, patches1 := code[..], patches[..];
        if action == Instrument {
          NextUntouched(before, code[..], patches0, patches[..], i);
          ApplyPatch(patches, i);
          AppliedOneMore(before, code1, code[..], patches0, patches1, patches[..], i);
        } else if i in doomed {
          SkippedOneMore(before, code[..], patches0, i);
        } else {
          NextUnreverted(before, code[..], patches0, i);
          RevertPatch(patches[i]);
          RevertedOneMore(before, code1, code[..], patches0, i);
        }
        i := i + 1;
      }
    }

    /** Enters the applied patches of a batch into the table. */
    method Register(
      patches: array<Patch>, ghost before: seq<byte>, ghost procedures: seq<nat>, ghost patches0: seq<Patch>)
      requires Refines(before, original, table, thunk) && InCode(before, procedures) && Distinct(procedures)
      requires AllValid(before, procedures) && Procedures(patches0) == procedures
      requires PatchesApplied(before, code[..], patches0, patches[..], |patches0|)
      requires forall k :: 0 <= k < |procedures| ==> NewCode(procedures[k], thunk) == Some(patches0[k].newCode)
      modifies this
      ensures Refines(code[..], original, table, thunk) && table.Keys == old(table.Keys) + set p | p in procedures
    {
      hide *;
      SameProcedures(before, code[..], patches0, patches[..]);
      PutEntries(patches, procedures);
      BatchRegistered(before, code[..], original, old(table), table, procedures, patches0, patches[..], thunk);
      SameSet(patches[..], procedures);
    }

    method PutEntries(patches: array<Patch>, ghost procedures: seq<nat>)
      requires |procedures| == patches.Length && Distinct(procedures)
      requires forall k :: 0 <= k < patches.Length ==> patches[k].procedure == procedures[k]
      modifies this
      ensures table.Keys == old(table.Keys) + set k | 0 <= k < patches.Length :: patches[k].procedure
      ensures forall p :: p in old(table) && p !in procedures ==> table[p] == old(table)[p]
      ensures forall k :: 0 <= k < patches.Length ==>
                            patches[k].procedure in table && table[patches[k].procedure] == patches[k]
    {
      var i := 0;
      while i < patches.Length
        invariant i <= patches.Length
        invariant table.Keys == old(table.Keys) + set k | 0 <= k < i :: patches[k].procedure
        invariant forall p :: p in old(table) && p !in procedures ==> table[p] == old(table)[p]
        invariant forall k :: 0 <= k < i ==> table[patches[k].procedure] == patches[k]
      {
        table := table[patches[i].procedure := patches[i]];
        i := i + 1;
      }
    }

    /** Assembles the patches of a batch, up to the first one from which the thunk is too far. */
    method InitializePatches(procedures: seq<nat>) returns (patches: array<Patch>, tooFar: Option<nat>)
      ensures fresh(patches) && patches.Length == |procedures|
      ensures var far := FirstFar(procedures, thunk, 0);
              tooFar == if far < |procedures| then Some(procedures[far]) else None
      ensures tooFar.None? ==> Procedures(patches[..]) == procedures
                               && forall k :: 0 <= k < patches.Length ==>
                                                NewCode(procedures[k], thunk) == Some(patches[k].newCode)
    {
      patches := new Patch[|procedures|](_ => Patch(0, [], []));
      tooFar := None;
      var i := 0;
      while i < |procedures|
        invariant i <= |procedures| && FirstFar(procedures, thunk, i) == FirstFar(procedures, thunk, 0)
        invariant forall k :: 0 <= k < i ==> patches[k].procedure == procedures[k]
                                             && NewCode(procedures[k], thunk) == Some(patches[k].newCode)
      {
        var newCode := NewCode(procedures[i], thunk);
        if newCode == None {
          return patches, Some(procedures[i]);
        }
        patches[i] := Patch(procedures[i], newCode.value, []);
        i := i + 1;
      }
      assert Procedures(patches[..]) == procedures;
    }

    /** Instruments a batch: either every procedure of it, or none. */
    method InstrumentProcedures(procedures: seq<nat>, env: Environment) returns (status: Status, failed: Option<nat>)
      requires Valid() && InCode(code[..], procedures) && Distinct(procedures)
      modifies this, code
      ensures Valid()
      ensures status != Success ==> code[..] == old(code[..]) && table == old(table)
      ensures status == Success ==> table.Keys == old(table.Keys) + set p | p in procedures
      ensures (status, failed) == InstrumentResult(old(code[..]), procedures, thunk, env)
      ensures Addresses(procedures) ==> (status == Success <==> BatchFits(old(code[..]), procedures, thunk, env))
    {
      hide Refines, PatchesApplied, PatchesReverted, NewCode, ValidatePatch, Procedures, AllValid,
           EnvironmentStatus, FirstInvalid, InCode, Distinct, Revertible, Apart, BatchFits, Addresses;
      if Addresses(procedures) {
        BatchSucceedsIff(code[..], procedures, thunk, env);
      }
      NoneInvalid(code[..], procedures);
      var patches, tooFar := InitializePatches(procedures);
      if tooFar.Some? {
        return ProcTooFar, tooFar;
      }
      ghost var patches0 := patches[..];
      var failedIndex;
      status, failedIndex := PatchCode(Instrument, patches, env);
      if failedIndex.Some? {
        return status, Some(procedures[failedIndex.value]);
      }
      failed := None;
      if status == Success {
        Register(patches, old(code[..]), procedures, patches0);
      }
    }

    /** Looks up the patches of `procedures`, up to the first one that is not registered. */
    method CollectPatches(procedures: seq<nat>) returns (patches: array<Patch>, missing: Option<nat>)
      ensures fresh(patches) && patches.Length == |procedures|
      ensures var first := FirstUnregistered(procedures, table, 0);
              missing == if first < |procedures| then Some(procedures[first]) else None
      ensures missing.None? ==> Registered(table, procedures, patches[..])
    {
      patches := new Patch[|procedures|](_ => Patch(0, [], []));
      missing := None;
      var i := 0;
      while i < |procedures|
        invariant i <= |procedures| && FirstUnregistered(procedures, table, i) == FirstUnregistered(procedures, table, 0)
        invariant forall k :: 0 <= k < i ==> procedures[k] in table && patches[k] == table[procedures[k]]
      {
        if procedures[i] !in table {
          return patches, Some(procedures[i]);
        }
        patches[i] := table[procedures[i]];
        i := i + 1;
      }
    }

    /** Reverts the given patches and takes them out of the table. */
    method UnpatchAndUnregister(patches: array<Patch>, ghost procedures: seq<nat>, env: Environment)
      returns (status: Status)
      requires Valid() && Distinct(procedures) && Registered(table, procedures, patches[..])
      modifies this, code, patches
      ensures Valid() && status == EnvironmentStatus(env)
      ensures status != Success ==> code[..] == old(code[..]) && table == old(table)
      ensures status == Success ==> table.Keys == old(table.Keys) - set p | p in procedures
    {
      hide Refines, PatchesReverted, NewCode, ValidatePatch, Procedures, AllValid, PatchesApplied, InCode, FirstInvalid,
           Distinct;
      RegisteredRevertible(code[..], original, table, procedures, patches[..], thunk);
      var failed;
      status, failed := PatchCode(Uninstrument, patches, env);
      if status == Success {
        NoneDoomed(old(code[..]), code[..], patches[..]);
        RemoveEntries(patches, procedures);
        BatchUnregistered(old(code[..]), code[..], original, old(table), table, procedures, patches[..], thunk);
      }
    }

    method RemoveEntries(patches: array<Patch>, ghost procedures: seq<nat>)
      requires Registered(table, procedures, patches[..])
      requires forall k :: 0 <= k < patches.Length ==> patches[k].procedure == procedures[k]
      modifies this
      ensures table == old(table) - set p | p in procedures
    {
      var i := 0;
      while i < patches.Length
        invariant i <= patches.Length
        invariant table == old(table) - set k | 0 <= k < i :: procedures[k]
      {
        table := table - {patches[i].procedure};
        i := i + 1;
      }
      assert (set k | 0 <= k < |procedures| :: procedures[k]) == set p | p in procedures;
    }

    /** Removes the instrumentation of a batch: of every procedure of it, or of none. */
    method UninstrumentProcedures(procedures: seq<nat>, env: Environment) returns (status: Status, failed: Option<nat>)
      requires Valid() && Distinct(procedures)
      modifies this, code
      ensures Valid()
      ensures status != Success ==> code[..] == old(code[..]) && table == old(table)
      ensures status == Success ==> table.Keys == old(table.Keys) - set p | p in procedures
      ensures (status, failed) == UninstrumentResult(procedures, old(table), env)
      ensures status == Success <==> (forall k :: 0 <= k < |procedures| ==> procedures[k] in old(table)) && Permits(env)
    {
      RemovalSucceedsIff(procedures, table, env);
      hide Refines, NewCode;
      var patches;
      patches, failed := CollectPatches(procedures);
      if failed.Some? {
        return NotPatched, failed;
      }
      status := UnpatchAndUnregister(patches, procedures, env);
    }

    /** The keys of the table, in some order. */
    method TableProcedures() returns (procedures: seq<nat>)
      ensures Distinct(procedures) && (set p | p in procedures) == table.Keys
    {
      procedures := [];
      var rest := table.Keys;
      while rest != {}
        invariant rest <= table.Keys && Distinct(procedures)
        invariant forall p :: p in procedures <==> p in table && p !in rest
        decreases |rest|
      {
        var p :| p in rest;
        procedures := procedures + [p];
        rest := rest - {p};
      }
    }

    /** Removes all instrumentation, which restores the original code. */
    method RemoveInstrumentationAllProcedures(env: Environment) returns (status: Status)
      requires Valid()
      modifies this, code
      ensures Valid()
      ensures status == if old(table) == map[] then Success else EnvironmentStatus(env)
      ensures status == Success <==> old(table) == map[] || Permits(env)
      ensures status == Success ==> table == map[] && code[..] == original
      ensures status != Success ==> code[..] == old(code[..]) && table == old(table)
    {
      if |table| == 0 {
        return Success;
      }
      hide Refines, NewCode, Registered, Distinct, FirstUnregistered, EnvironmentStatus;
      var procedures := TableProcedures();
      var patches, missing := CollectPatches(procedures);
      assert missing == None by {
        assert forall p :: p in procedures ==> p in (set q | q in procedures);
      }
      status := UnpatchAndUnregister(patches, procedures, env);
      if status == Success {
        assert table.Keys == {};
        NothingRegistered(code[..], original, table, thunk);
      }
    }

    /** The exported entry point, without the allocation failures. */
    method InstrumentProcedure(action: Action, procedures: seq<nat>, env: Environment)
      returns (status: Status, failed: Option<nat>)
      requires Valid() && InCode(code[..], procedures) && Distinct(procedures)
      modifies this, code
      ensures Valid()
      ensures (status, failed) ==
              if |procedures| == 0 || |procedures| > MAX_PATCH_SET_SIZE then (InvalidParameter, None)
              else if action == Instrument then InstrumentResult(old(code[..]), procedures, thunk, env)
              else UninstrumentResult(procedures, old(table), env)
      ensures 0 < |procedures| <= 0xFFFF ==>
                if action == Instrument
                then Addresses(procedures) ==> (status == Success <==> BatchFits(old(code[..]), procedures, thunk, env))
                else status == Success
                     <==> (forall k :: 0 <= k < |procedures| ==> procedures[k] in old(table)) && Permits(env)
      ensures status == Success && action == Uninstrument ==> forall p :: p in procedures ==> p in old(table)
      ensures status != Success ==> code[..] == old(code[..]) && table == old(table)
      ensures status == Success ==>
                table.Keys == if action == Instrument then old(table.Keys) + set p | p in procedures
                              else old(table.Keys) - set p | p in procedures
    {
      if |procedures| == 0 || |procedures| > MAX_PATCH_SET_SIZE {
        return InvalidParameter, None;
      }
      match action {
        case Instrument => status, failed := InstrumentProcedures(procedures, env);
        case Uninstrument => status, failed := UninstrumentProcedures(procedures, env);
      }
    }

    /**
     Any sequence of batches, some of which may fail, followed by removing everything
     leaves the code as it was found.
     */
    method RunBatches(batches: seq<(Action, seq<nat>, Environment)>) returns (status: Status)
      requires Valid()
      requires forall b :: b in batches ==> InCode(code[..], b.1) && Distinct(b.1)
      modifies this, code
      ensures Valid() && code[..] == original && table == map[] && status == Success
    {
      var i := 0;
      while i < |batches|
        invariant i <= |batches| && Valid()
      {
        hide Refines;
        var (action, procedures, env) := batches[i];
        assert (action, procedures, env) in batches;
        assert InCode(code[..], procedures);
        var s, f := InstrumentProcedure(action, procedures, env);
        i := i + 1;
      }
      status := RemoveInstrumentationAllProcedures(Environment(true, true));
    }
  }
}
