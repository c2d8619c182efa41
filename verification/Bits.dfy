/** Powers of two and bitwise operators on naturals. */
module Bits {

  function Pow2(k: nat): (p: nat)
    ensures p >= 1
  {
    if k == 0 then 1 else 2 * Pow2(k - 1)
  }

  lemma Pow2Next(k: nat)
    ensures Pow2(k + 1) == 2 * Pow2(k)
  {
  }

  lemma {:induction false} Pow2Add(j: nat, k: nat)
    ensures Pow2(j + k) == Pow2(j) * Pow2(k)
  {
    if j > 0 {
      Pow2Add(j - 1, k);
      assert Pow2(j + k) == 2 * Pow2(j - 1 + k);
    }
  }

  datatype Gate = And | Or | Xor

  function GateBit(g: Gate, a: nat, b: nat): nat {
    match g
    case And => if a % 2 == 1 && b % 2 == 1 then 1 else 0
    case Or => if a % 2 == 1 || b % 2 == 1 then 1 else 0
    case Xor => if a % 2 != b % 2 then 1 else 0
  }

  /** The bitwise operator `g` on the binary expansions of `a` and `b`. */
  function Bitwise(g: Gate, a: nat, b: nat): nat
    decreases a + b
  {
    if a == 0 && b == 0 then 0
    else GateBit(g, a, b) + 2 * Bitwise(g, a / 2, b / 2)
  }

  function BitOr(a: nat, b: nat): nat { Bitwise(Or, a, b) }

  lemma {:induction false} OrZeroLeft(b: nat)
    ensures BitOr(0, b) == b
  {
    if b > 0 { OrZeroLeft(b / 2); }
  }

  lemma ShiftIn(a: nat, p: nat, q: nat)
    requires a < 2 * p
    ensures (q * (2 * p)) / 2 == q * p && (q * (2 * p)) % 2 == 0 && a / 2 < p
  {
    assert q * (2 * p) == 2 * (q * p);
  }

  /** Or-ing in a value shifted past every set bit is addition: the fact that makes `v |= x << k` an append. */
  lemma {:induction false} OrShifted(a: nat, b: nat, k: nat)
    requires a < Pow2(k)
    ensures BitOr(a, b * Pow2(k)) == a + b * Pow2(k)
  {
    if k == 0 {
      OrZeroLeft(b);
    } else {
      var p := Pow2(k - 1);
      ShiftIn(a, p, b);
      if a == 0 && b * Pow2(k) == 0 {
      } else {
        OrShifted(a / 2, b, k - 1);
        assert b * Pow2(k) == 2 * (b * p);
      }
    }
  }

  lemma MulAtLeast(p: nat, d: int)
    ensures d >= 1 ==> p * d >= p
    ensures d <= -1 ==> p * d + p <= 0
  {
    if d >= 1 {
      assert p * d == p + p * (d - 1);
    } else if d <= -1 {
      assert p * d + p == p * (d + 1);
    }
  }

  /** Division and remainder of `lo + p * hi` recover the two digits. */
  lemma SplitDigits(lo: nat, hi: int, p: nat)
    requires lo < p
    ensures (lo + p * hi) / p == hi && (lo + p * hi) % p == lo
  {
    var x := lo + p * hi;
    var d := x / p - hi;
    assert p * d == lo - x % p;
    MulAtLeast(p, d);
    assert d == 0;
  }
}
