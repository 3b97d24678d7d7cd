/** Small definitions shared by the other modules. */
module Common {

  datatype Option<+T> = None | Some(value: T)

  type byte = b: int | 0 <= b < 256

  const ULONG_RANGE: nat := 0x1_0000_0000

  type ulong = x: int | 0 <= x < 0x1_0000_0000

  /** The `n` low bytes of `x`, least significant first. */
  function LittleEndian(x: nat, n: nat): (s: seq<byte>)
    ensures |s| == n
  {
    if n == 0 then [] else [x % 256] + LittleEndian(x / 256, n - 1)
  }

  function FromLittleEndian(s: seq<byte>): nat {
    if s == [] then 0 else s[0] + 256 * FromLittleEndian(s[1..])
  }

  function Pow256(n: nat): nat {
    if n == 0 then 1 else 256 * Pow256(n - 1)
  }

  lemma {:induction false} LittleEndianInverse(x: nat, n: nat)
    requires x < Pow256(n)
    ensures FromLittleEndian(LittleEndian(x, n)) == x
    decreases n
  {
    if n > 0 {
      LittleEndianInverse(x / 256, n - 1);
      assert LittleEndian(x, n)[1..] == LittleEndian(x / 256, n - 1);
    }
  }

  /** The lists one after the other. */
  function Concat<T>(lists: seq<seq<T>>): seq<T> {
    if lists == [] then [] else Concat(lists[..|lists| - 1]) + lists[|lists| - 1]
  }

  lemma {:induction false} ConcatOneMore<T>(lists: seq<seq<T>>, last: seq<T>)
    ensures Concat(lists + [last]) == Concat(lists) + last
  {
    assert (lists + [last])[..|lists|] == lists;
  }

  lemma {:induction false} Regroup<T>(a: seq<T>, b: seq<T>, c: seq<T>)
    ensures a + (b + c) == (a + b) + c
  {
  }
}
