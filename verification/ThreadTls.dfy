/**
 A 32-bit pointer kept in the spare high bits of two flag words of a thread object: 16 bits
 in one, 14 in the other.  One of the low bits of the first serves as a reentrance guard.
 */
module ThreadTls {

  // 0x8000 is the busy bit; the low 16 bits of the passive word (0xFFFF) and the low 18 bits
  // of the APC word (0x3FFFF) belong to the system.

  predicate Aligned(data: bv32) { data & 3 == 0 }

  function RoundedDown(data: bv32): bv32 { data & 0xFFFFFFFC }

  predicate Busy(passive: bv32) { passive & 0x8000 != 0 }

  function Taken(passive: bv32): bv32 { passive | 0x8000 }

  function Freed(passive: bv32): bv32 { passive & 0xFFFF7FFF }

  function SystemPassive(passive: bv32): bv32 { passive & 0xFFFF }

  function SystemApc(apc: bv32): bv32 { apc & 0x3FFFF }

  /** The low bits of the pointer set none of the bits of the system that are clear. */
  predicate FitsBeside(data: bv32, apc: bv32) { (data & 3) & !(apc >> 16) == 0 }

  function PackedPassive(data: bv32, passive: bv32): bv32 {
    (data & 0xFFFF0000) | (passive & 0xFFFF)
  }

  function PackedApc(data: bv32, apc: bv32): bv32 {
    (data << 16) | (apc & 0x3FFFF)
  }

  function Unpacked(passive: bv32, apc: bv32): bv32 {
    (passive & 0xFFFF0000) | (((apc & 0xFFFC0000) >> 16) & 0xFFFF)
  }

  lemma {:induction false} HighHalf(data: bv32, passive: bv32)
    ensures PackedPassive(data, passive) & 0xFFFF0000 == data & 0xFFFF0000
  {
  }

  lemma {:induction false} LowHalf(data: bv32, apc: bv32)
    ensures ((PackedApc(data, apc) & 0xFFFC0000) >> 16) & 0xFFFF == data & 0xFFFC
  {
  }

  lemma {:induction false} Halves(data: bv32)
    ensures (data & 0xFFFF0000) | (data & 0xFFFC) == data & 0xFFFFFFFC
  {
  }

  lemma {:induction false} UnpackedIsRounded(data: bv32, passive: bv32, apc: bv32)
    ensures Unpacked(PackedPassive(data, passive), PackedApc(data, apc)) == RoundedDown(data)
  {
    HighHalf(data, passive);
    LowHalf(data, apc);
    Halves(data);
    hide PackedPassive, PackedApc;
  }

  lemma {:induction false} RoundedIfAligned(data: bv32)
    ensures RoundedDown(data) == data <==> Aligned(data)
  {
  }

  /** The pointer comes back iff it is aligned; otherwise it comes back rounded down. */
  lemma {:induction false} UnpackPacked(data: bv32, passive: bv32, apc: bv32)
    ensures Unpacked(PackedPassive(data, passive), PackedApc(data, apc)) == RoundedDown(data)
    ensures RoundedDown(data) == data <==> Aligned(data)
  {
    hide *;
    UnpackedIsRounded(data, passive, apc);
    RoundedIfAligned(data);
  }

  lemma {:induction false} Words(data: bv32, passive: bv32, apc: bv32)
    ensures PackedPassive(data, passive) == (data & 0xFFFF0000) | (passive & 0xFFFF)
    ensures PackedApc(data, apc) == (data << 16) | (apc & 0x3FFFF)
  {
  }

  /**
   The bits of the system in the first word are always kept.  Those in the second are kept iff
   the two low bits of the pointer, which fall on them, do not set any that was clear.
   */
  lemma {:induction false} SystemBitsKept(data: bv32, passive: bv32, apc: bv32)
    ensures SystemPassive(PackedPassive(data, passive)) == SystemPassive(passive)
    ensures SystemApc(PackedApc(data, apc)) == SystemApc(apc) <==> FitsBeside(data, apc)
  {
    hide *;
    PassiveBits(data, passive);
    ApcBits(data, apc);
  }

  lemma {:induction false} PassiveBits(data: bv32, passive: bv32)
    ensures SystemPassive(PackedPassive(data, passive)) == SystemPassive(passive)
  {
  }

  lemma {:induction false} ApcBits(data: bv32, apc: bv32)
    ensures SystemApc(PackedApc(data, apc)) == SystemApc(apc) <==> FitsBeside(data, apc)
  {
    hide *;
    if FitsBeside(data, apc) {
      FittingApc(data, apc);
    } else {
      SpillingApc(data, apc);
    }
  }

  lemma {:induction false} FittingApc(data: bv32, apc: bv32)
    requires FitsBeside(data, apc)
    ensures SystemApc(PackedApc(data, apc)) == SystemApc(apc)
  {
  }

  lemma {:induction false} SpillingApc(data: bv32, apc: bv32)
    requires !FitsBeside(data, apc)
    ensures SystemApc(PackedApc(data, apc)) != SystemApc(apc)
  {
  }

  /** Storing under the guard: the pointer survives the release, and the words are otherwise as they were. */
  lemma {:induction false} StoredUnderGuard(data: bv32, passive: bv32, apc: bv32)
    requires Aligned(data) && !Busy(passive)
    ensures var p, a := Freed(PackedPassive(data, Taken(passive))), PackedApc(data, apc);
            Unpacked(p, a) == data && SystemPassive(p) == SystemPassive(passive) && SystemApc(a) == SystemApc(apc)
  {
    hide *;
    GuardedUnpack(data, passive, apc);
    GuardedPassive(data, passive);
    AlignedApc(data, apc);
  }

  lemma {:induction false} GuardedUnpack(data: bv32, passive: bv32, apc: bv32)
    requires Aligned(data)
    ensures Unpacked(Freed(PackedPassive(data, Taken(passive))), PackedApc(data, apc)) == data
  {
  }

  lemma {:induction false} GuardedPassive(data: bv32, passive: bv32)
    requires !Busy(passive)
    ensures SystemPassive(Freed(PackedPassive(data, Taken(passive)))) == SystemPassive(passive)
  {
  }

  lemma {:induction false} AlignedApc(data: bv32, apc: bv32)
    requires Aligned(data)
    ensures SystemApc(PackedApc(data, apc)) == SystemApc(apc)
  {
  }

  lemma {:induction false} BusyBitSet(flags: bv32)
    ensures flags & 0x8000 != 0 ==> flags | 0x8000 == flags
  {
  }

  class Thread {
    var passiveFlags: bv32
    var apcFlags: bv32

    /** Takes the thread for the instrumentation, unless it is taken. */
    method Acquire() returns (acquired: bool)
      modifies `passiveFlags
      ensures acquired <==> !Busy(old(passiveFlags))
      ensures passiveFlags == Taken(old(passiveFlags))
      ensures !acquired ==> passiveFlags == old(passiveFlags)
    {
      var oldValue := passiveFlags;
      BusyBitSet(oldValue);
      passiveFlags := passiveFlags | 0x8000;
      acquired := oldValue & 0x8000 == 0;
    }

    method Release()
      modifies `passiveFlags
      ensures passiveFlags == Freed(old(passiveFlags))
    {
      passiveFlags := passiveFlags & 0xFFFF7FFF;
    }

    /** Stores the pointer rounded down to a multiple of four, beside what belongs to the system. */
    method SetData(data: bv32)
      modifies this
      ensures passiveFlags == PackedPassive(data, old(passiveFlags)) && apcFlags == PackedApc(data, old(apcFlags))
      ensures Unpacked(passiveFlags, apcFlags) == RoundedDown(data) && (RoundedDown(data) == data <==> Aligned(data))
      ensures SystemPassive(passiveFlags) == SystemPassive(old(passiveFlags))
      ensures SystemApc(apcFlags) == SystemApc(old(apcFlags)) <==> FitsBeside(data, old(apcFlags))
    {
      hide *;
      UnpackPacked(data, passiveFlags, apcFlags);
      SystemBitsKept(data, passiveFlags, apcFlags);
      Words(data, passiveFlags, apcFlags);
      var high, low := data & 0xFFFF0000, data << 16;
      passiveFlags := high | (passiveFlags & 0xFFFF);
      apcFlags := low | (apcFlags & 0x3FFFF);
    }

    method GetData() returns (data: bv32)
      ensures data == Unpacked(passiveFlags, apcFlags)
    {
      var high, low := passiveFlags & 0xFFFF0000, apcFlags & 0xFFFC0000;
      data := high | ((low >> 16) & 0xFFFF);
    }

    /** What was stored is what is read, iff it is aligned. */
    method SetThenGet(data: bv32) returns (stored: bv32)
      modifies this
      ensures stored == RoundedDown(data) && (stored == data <==> Aligned(data))
    {
      hide *;
      SetData(data);
      stored := GetData();
    }

    /**
     Data is set while the thread is taken: the pointer survives the release, and the words are
     otherwise as they were.
     */
    method SetWhileAcquired(data: bv32) returns (stored: bool)
      requires Aligned(data)
      modifies this
      ensures stored <==> !Busy(old(passiveFlags))
      ensures stored ==> Unpacked(passiveFlags, apcFlags) == data
      ensures !stored ==> passiveFlags == old(passiveFlags) && apcFlags == old(apcFlags)
      ensures SystemPassive(passiveFlags) == SystemPassive(old(passiveFlags))
      ensures SystemApc(apcFlags) == SystemApc(old(apcFlags))
    {
      hide *;
      ghost var passive0, apc0 := passiveFlags, apcFlags;
      stored := Acquire();
      if stored {
        SetData(data);
        StoredUnderGuard(data, passive0, apc0);
        Release();
      }
    }
  }
}
