/** Bytes as integers 0..255, with the bitwise operators of the source given by their effect on
    each binary digit. */
module Bytes {

  type Byte = b: int | 0 <= b < 256

  function Pow2(n: nat): (r: nat)
    ensures r >= 1
  {
    if n == 0 then 1 else 2 * Pow2(n - 1)
  }

  lemma {:induction false} Pow2Add(m: nat, n: nat)
    ensures Pow2(m + n) == Pow2(m) * Pow2(n)
  {
    if m > 0 {
      Pow2Add(m - 1, n);
      assert Pow2(m + n) == 2 * Pow2(m - 1 + n);
    }
  }

  lemma {:induction false} Pow2Monotone(m: nat, n: nat)
    requires m <= n
    ensures Pow2(m) <= Pow2(n)
    decreases n
  {
    if m < n { Pow2Monotone(m, n - 1); }
  }

  lemma SmallPowers()
    ensures Pow2(0) == 1 && Pow2(1) == 2 && Pow2(2) == 4 && Pow2(3) == 8 && Pow2(4) == 16
    ensures Pow2(5) == 32 && Pow2(6) == 64 && Pow2(7) == 128 && Pow2(8) == 256
  {
    assert Pow2(4) == 16;
    assert Pow2(7) == 128;
  }

  /** Quotient and remainder are unique. */
  lemma MultiplesApart(d: int, m: nat)
    ensures d >= 1 ==> d * m >= m
    ensures d <= -1 ==> d * m + m <= 0
  {
    if d <= -1 { assert (d + 1) * m <= 0; }
  }

  lemma ModUnique(a: nat, m: nat, q: int, r: nat)
    requires m > 0 && a == q * m + r && r < m
    ensures a % m == r
  {
    var d := a / m - q;
    assert d * m == r - a % m;
    MultiplesApart(d, m);
  }

  /** Binary digit `k` of `a`, counted from the least significant one. */
  predicate Bit(a: nat, k: nat) {
    if k == 0 then a % 2 == 1 else Bit(a / 2, k - 1)
  }

  datatype Op = XorOp | AndOp | OrOp {
    predicate Apply(x: bool, y: bool) {
      match this
      case XorOp => x != y
      case AndOp => x && y
      case OrOp => x || y
    }
  }

  /** The `n`-bit number whose digits are `op` of the digits of `a` and `b`. */
  function Combine(op: Op, n: nat, a: nat, b: nat): (r: nat)
    ensures r < Pow2(n)
  {
    if n == 0 then 0 else
      (if op.Apply(a % 2 == 1, b % 2 == 1) then 1 else 0) + 2 * Combine(op, n - 1, a / 2, b / 2)
  }

  lemma {:induction false} CombineBit(op: Op, n: nat, a: nat, b: nat, k: nat)
    requires k < n
    ensures Bit(Combine(op, n, a, b), k) == op.Apply(Bit(a, k), Bit(b, k))
  {
    var r := Combine(op, n - 1, a / 2, b / 2);
    var c := Combine(op, n, a, b);
    assert c / 2 == r && (c % 2 == 1 <==> op.Apply(a % 2 == 1, b % 2 == 1));
    if k > 0 { CombineBit(op, n - 1, a / 2, b / 2, k - 1); }
  }

  /** An `n`-bit number is determined by its digits. */
  lemma {:induction false} SameBits(n: nat, a: nat, b: nat)
    requires a < Pow2(n) && b < Pow2(n)
    requires forall k :: 0 <= k < n ==> Bit(a, k) == Bit(b, k)
    ensures a == b
  {
    if n > 0 {
      assert Bit(a, 0) == Bit(b, 0);
      forall k | 0 <= k < n - 1 ensures Bit(a / 2, k) == Bit(b / 2, k) {
        assert Bit(a, k + 1) == Bit(b, k + 1);
      }
      SameBits(n - 1, a / 2, b / 2);
    }
  }

  /** A number is below 2^m exactly when no digit from `m` on is set. */
  lemma {:induction false} HighBitsOff(n: nat, m: nat, a: nat)
    requires m <= n && a < Pow2(n)
    ensures a < Pow2(m) <==> forall k :: m <= k < n ==> !Bit(a, k)
  {
    if a < Pow2(m) {
      forall k | m <= k < n ensures !Bit(a, k) { SmallHasNoBit(m, a, k); }
    } else {
      BigHasBit(n, m, a);
    }
  }

  lemma {:induction false} SmallHasNoBit(m: nat, a: nat, k: nat)
    requires a < Pow2(m) && m <= k
    ensures !Bit(a, k)
  {
    if m == 0 { ZeroBits(k); } else { SmallHasNoBit(m - 1, a / 2, k - 1); }
  }

  lemma {:induction false} BigHasBit(n: nat, m: nat, a: nat)
    requires Pow2(m) <= a < Pow2(n) && m <= n
    ensures exists k :: m <= k < n && Bit(a, k)
  {
    if m > 0 {
      BigHasBit(n - 1, m - 1, a / 2);
      var k :| m - 1 <= k < n - 1 && Bit(a / 2, k);
      assert Bit(a, k + 1);
    } else if a % 2 == 1 {
      assert Bit(a, 0);
    } else {
      BigHasBit(n - 1, 0, a / 2);
      var k :| 0 <= k < n - 1 && Bit(a / 2, k);
      assert Bit(a, k + 1);
    }
  }

  lemma {:induction false} ZeroBits(k: nat)
    ensures !Bit(0, k)
  {
    if k > 0 { ZeroBits(k - 1); }
  }

  /** Of a number below 2^(m+1), digit `m` says whether it reaches 2^m. */
  lemma TopBitTest(m: nat, a: nat)
    requires a < Pow2(m + 1)
    ensures Bit(a, m) <==> a >= Pow2(m)
  {
    HighBitsOff(m + 1, m, a);
    assert Bit(a, m) <==> exists k :: m <= k < m + 1 && Bit(a, k);
  }

  lemma {:induction false} PowerBits(m: nat, k: nat)
    ensures Bit(Pow2(m), k) <==> m == k
  {
    if m == 0 && k > 0 {
      ZeroBits(k - 1);
    } else if m > 0 && k > 0 {
      assert Pow2(m) / 2 == Pow2(m - 1);
      PowerBits(m - 1, k - 1);
    }
  }

  function Xor(a: Byte, b: Byte): Byte { SmallPowers(); Combine(XorOp, 8, a, b) }

  function And(a: Byte, b: Byte): Byte { SmallPowers(); Combine(AndOp, 8, a, b) }

  function Or(a: Byte, b: Byte): Byte { SmallPowers(); Combine(OrOp, 8, a, b) }

  /** The mask `0x80 >> j`, and its complement `~(0x80 >> j)` truncated to a byte. */
  function Mask(j: nat): Byte
    requires j < 8
  {
    SmallPowers();
    Pow2Monotone(7 - j, 7);
    Pow2(7 - j)
  }

  function NotMask(j: nat): Byte
    requires j < 8
  {
    255 - Mask(j)
  }

  lemma XorBit(a: Byte, b: Byte, k: nat)
    requires k < 8
    ensures Bit(Xor(a, b), k) == (Bit(a, k) != Bit(b, k))
  {
    CombineBit(XorOp, 8, a, b, k);
  }

  lemma XorCancels(a: Byte, b: Byte)
    ensures Xor(a, Xor(a, b)) == b
    ensures Xor(Xor(a, b), b) == a
    ensures Xor(a, b) == Xor(b, a)
    ensures Xor(a, b) == 0 <==> a == b
  {
    SmallPowers();
    var x, y, z := Xor(a, b), Xor(a, Xor(a, b)), Xor(Xor(a, b), b);
    forall k | 0 <= k < 8
      ensures Bit(y, k) == Bit(b, k) && Bit(z, k) == Bit(a, k) && Bit(Xor(b, a), k) == Bit(x, k)
      ensures Bit(x, k) == (Bit(a, k) != Bit(b, k)) && !Bit(0, k)
    {
      XorBit(a, b, k);
      XorBit(b, a, k);
      XorBit(a, x, k);
      XorBit(x, b, k);
      ZeroBits(k);
    }
    SameBits(8, y, b);
    SameBits(8, z, a);
    SameBits(8, Xor(b, a), x);
    if x == 0 { SameBits(8, a, b); }
    if a == b { SameBits(8, x, 0); }
  }

  /** `b & (0x80 >> j)` tests digit `7 - j`. */
  lemma MaskTest(b: Byte, j: nat)
    requires j < 8
    ensures And(b, Mask(j)) != 0 <==> Bit(b, 7 - j)
  {
    SmallPowers();
    var r := And(b, Mask(j));
    forall k | 0 <= k < 8 ensures Bit(r, k) <==> k == 7 - j && Bit(b, k) {
      CombineBit(AndOp, 8, b, Mask(j), k);
      PowerBits(7 - j, k);
    }
    forall k | 0 <= k < 8 ensures !Bit(0, k) { ZeroBits(k); }
    if !Bit(b, 7 - j) { SameBits(8, r, 0); }
    if r == 0 { assert Bit(r, 7 - j) <==> Bit(b, 7 - j); }
  }

  lemma {:induction false} ComplementBits(n: nat, m: nat, k: nat)
    requires m < n && k < n
    ensures Pow2(m) <= Pow2(n) - 1
    ensures Bit(Pow2(n) - 1 - Pow2(m), k) <==> k != m
  {
    Pow2Monotone(m + 1, n);
    var c := Pow2(n) - 1 - Pow2(m);
    if m == 0 {
      if k > 0 {
        assert c / 2 == Pow2(n - 1) - 1;
        OnesBits(n - 1, k - 1);
      }
    } else {
      assert c / 2 == Pow2(n - 1) - 1 - Pow2(m - 1) && c % 2 == 1;
      if k > 0 { ComplementBits(n - 1, m - 1, k - 1); }
    }
  }

  lemma {:induction false} OnesBits(n: nat, k: nat)
    requires k < n
    ensures Bit(Pow2(n) - 1, k)
  {
    assert (Pow2(n) - 1) / 2 == Pow2(n - 1) - 1;
    if k > 0 { OnesBits(n - 1, k - 1); }
  }

  /** `b |= m` sets, and `b &= ~m` clears, exactly the digit the mask names. */
  lemma MaskUpdate(b: Byte, j: nat, k: nat)
    requires j < 8 && k < 8
    ensures Bit(Or(b, Mask(j)), k) == (Bit(b, k) || k == 7 - j)
    ensures Bit(And(b, NotMask(j)), k) == (Bit(b, k) && k != 7 - j)
  {
    SmallPowers();
    CombineBit(OrOp, 8, b, Mask(j), k);
    CombineBit(AndOp, 8, b, NotMask(j), k);
    PowerBits(7 - j, k);
    ComplementBits(8, 7 - j, k);
  }
}
