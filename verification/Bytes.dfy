/** Bytes as integers, and the few bit operations the C code performs on them.
    Bit 0 is the lowest; the operations recurse through the binary digits. */
module Bytes {

  type byte = x: int | 0 <= x < 256

  predicate Bit(b: nat, k: nat)
  {
    if k == 0 then b % 2 == 1 else Bit(b / 2, k - 1)
  }

  lemma {:induction false} ZeroBits(k: nat)
    ensures !Bit(0, k)
  {
    if k > 0 { ZeroBits(k - 1); }
  }

  /** `b | (1 << k)`, which is what `b |= bittab[k]` does. */
  function OrBit(b: nat, k: nat): (r: nat)
    ensures Bit(r, k)
    ensures forall j: nat :: j != k ==> (Bit(r, j) <==> Bit(b, j))
  {
    if k == 0 then b - b % 2 + 1 else 2 * OrBit(b / 2, k - 1) + b % 2
  }

  /** `b ^ 0377` */
  function Flip(b: byte): (r: byte)
    ensures forall k: nat :: k < 8 ==> (Bit(r, k) <==> !Bit(b, k))
  {
    FlipDigits(b, 8);
    255 - b
  }

  /** `b & 0376` */
  function ClearLow(b: byte): (r: byte)
    ensures !Bit(r, 0)
    ensures forall k: nat :: k != 0 ==> (Bit(r, k) <==> Bit(b, k))
  {
    b - b % 2
  }

  function Exp2(n: nat): (p: nat)
    ensures p > 0
  {
    if n == 0 then 1 else 2 * Exp2(n - 1)
  }

  lemma {:induction false} FlipDigits(b: nat, n: nat)
    requires b < Exp2(n)
    ensures forall k: nat :: k < n ==> (Bit(Exp2(n) - 1 - b, k) <==> !Bit(b, k))
  {
    if n > 0 {
      FlipDigits(b / 2, n - 1);
      assert (Exp2(n) - 1 - b) / 2 == Exp2(n - 1) - 1 - b / 2;
    }
  }

  /** Setting one of the low `n` bits stays below `2^n`. */
  lemma {:induction false} OrBitBound(b: nat, k: nat, n: nat)
    requires k < n && b < Exp2(n)
    ensures OrBit(b, k) < Exp2(n)
  {
    var half := Exp2(n - 1);
    assert Exp2(n) == 2 * half && b / 2 < half;
    if k > 0 {
      OrBitBound(b / 2, k - 1, n - 1);
      var r := OrBit(b / 2, k - 1);
      assert OrBit(b, k) == 2 * r + b % 2 && r < half;
    } else {
      assert OrBit(b, k) == b - b % 2 + 1;
    }
  }

  /** `b |= bittab[k]` on a byte. */
  function Place(b: byte, k: nat): (r: byte)
    requires k < 8
    ensures Bit(r, k)
    ensures forall j: nat :: j != k ==> (Bit(r, j) <==> Bit(b, j))
  {
    OrBitBound(b, k, 8);
    OrBit(b, k)
  }
}
