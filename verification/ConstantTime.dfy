/** Comparison of byte strings without an early exit. */
module ConstantTime {
  import opened BitStream

  /** Bitwise exclusive or of numbers below 2^bits. */
  function Xor(a: nat, b: nat, bits: nat): nat {
    if bits == 0 then 0 else 2 * Xor(a / 2, b / 2, bits - 1) + (a % 2 + b % 2) % 2
  }

  /** Bitwise or of numbers below 2^bits. */
  function Or(a: nat, b: nat, bits: nat): nat {
    if bits == 0 then 0 else 2 * Or(a / 2, b / 2, bits - 1) + (if a % 2 == 1 || b % 2 == 1 then 1 else 0)
  }

  lemma {:induction false} XorIsZero(a: nat, b: nat, bits: nat)
    requires a < Pow2(bits) && b < Pow2(bits)
    ensures Xor(a, b, bits) < Pow2(bits)
    ensures Xor(a, b, bits) == 0 <==> a == b
  {
    if bits > 0 {
      XorIsZero(a / 2, b / 2, bits - 1);
    }
  }

  lemma {:induction false} OrIsZero(a: nat, b: nat, bits: nat)
    requires a < Pow2(bits) && b < Pow2(bits)
    ensures Or(a, b, bits) < Pow2(bits)
    ensures Or(a, b, bits) == 0 <==> a == 0 && b == 0
  {
    if bits > 0 {
      OrIsZero(a / 2, b / 2, bits - 1);
    }
  }

  lemma ByteRange()
    ensures Pow2(8) == 256
  {
    assert Pow2(4) == 16;
  }

  /** Accumulating all differences decides equality. */
  method ConstantTimeEqual(left: seq<nat>, right: seq<nat>) returns (equal: bool)
    requires forall i :: 0 <= i < |left| ==> left[i] < 256
    requires forall i :: 0 <= i < |right| ==> right[i] < 256
    ensures equal <==> left == right
  {
    hide Pow2, Xor, Or;
    ByteRange();
    if |left| != |right| {
      return false;
    }
    var difference: nat := 0;
    for index := 0 to |left|
      invariant difference < 256
      invariant difference == 0 <==> left[..index] == right[..index]
    {
      XorIsZero(left[index], right[index], 8);
      OrIsZero(difference, Xor(left[index], right[index], 8), 8);
      assert left[..index + 1] == left[..index] + [left[index]];
      assert right[..index + 1] == right[..index] + [right[index]];
      difference := Or(difference, Xor(left[index], right[index], 8), 8);
    }
    assert left[..|left|] == left && right[..|right|] == right;
    return difference == 0;
  }
}
