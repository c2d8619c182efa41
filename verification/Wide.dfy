/** Wide arithmetic on 64-bit words (interp.h): each method works in the interpreter's own 64-bit steps. A value
    assigned to a Word without `% TWO64` is one that is proved not to overflow. */
module Wide {
  import opened Bits
  import opened Words
  import Memory

  /** Schoolbook multiplication on 32-bit halves, as an equation over the integers. */
  lemma Halves(a0: int, a1: int, b0: int, b1: int)
    ensures (a0 + TWO32 * a1) * (b0 + TWO32 * b1) ==
      a0 * b0 + TWO32 * (a0 * b1) + TWO32 * (a1 * b0) + TWO64 * (a1 * b1)
  {
  }

  lemma MulBound(x: int, y: int, m: int)
    requires 0 <= x <= m && 0 <= y <= m
    ensures 0 <= x * y <= m * m
  {
    NonNegative(x, y);
    NonNegative(m - x, y);
    NonNegative(m, m - y);
    assert m * m - x * y == m * (m - y) + (m - x) * y;
  }

  lemma NonNegative(x: int, y: int)
    requires x >= 0 && y >= 0
    ensures x * y >= 0
  {
  }

  /** A 128-bit number has one low and one high word. */
  lemma UniqueSplit(lo: Word, hi: int, x: int)
    requires x == lo + TWO64 * hi
    ensures Split(x) == [lo, hi % TWO64]
  {
    SplitDigits(lo, hi, TWO64);
  }

  /** `mul_wide_u`: the exact 128-bit product. */
  method MulUnsigned(a: Word, b: Word) returns (lo: Word, hi: Word)
    ensures lo + TWO64 * hi == (a as int) * b
    ensures [lo, hi] == Split((a as int) * b)
  {
    hide Split;
    var a0, a1 := a % TWO32, a / TWO32;
    var b0, b1 := b % TWO32, b / TWO32;
    HalfProducts(a0, a1, b0, b1);
    var p0: Word := a0 * b0;
    var p1: Word := a0 * b1;
    var p2: Word := a1 * b0;
    var p3: Word := a1 * b1;
    var c: Word := p0 / TWO32 + p1 % TWO32 + p2 % TWO32;
    lo := JoinHalves(p0 % TWO32, c);
    UnsignedExact(a, b, p0, p1, p2, p3, c, lo);
    hi := p3 + p1 / TWO32 + p2 / TWO32 + c / TWO32;
  }

  lemma UnsignedExact(a: Word, b: Word, p0: Word, p1: Word, p2: Word, p3: Word, c: Word, lo: Word)
    requires p0 == (a % TWO32) * (b % TWO32) && p1 == (a % TWO32) * (b / TWO32)
    requires p2 == (a / TWO32) * (b % TWO32) && p3 == (a / TWO32) * (b / TWO32)
    requires c == p0 / TWO32 + p1 % TWO32 + p2 % TWO32 && lo == p0 % TWO32 + TWO32 * (c % TWO32)
    ensures var high := p3 + p1 / TWO32 + p2 / TWO32 + c / TWO32;
      high < TWO64 && lo + TWO64 * high == (a as int) * b && [lo, high] == Split((a as int) * b)
  {
    hide Split;
    var high := p3 + p1 / TWO32 + p2 / TWO32 + c / TWO32;
    Halves(a % TWO32, a / TWO32, b % TWO32, b / TWO32);
    Assemble(p0, p1, p2, p3, c, lo);
    ProductFits(a, b, lo, high);
    UniqueSplit(lo, high, (a as int) * b);
  }

  lemma HalfProducts(a0: nat, a1: nat, b0: nat, b1: nat)
    requires a0 < TWO32 && a1 < TWO32 && b0 < TWO32 && b1 < TWO32
    ensures a0 * b0 < TWO64 && a0 * b1 < TWO64 && a1 * b0 < TWO64 && a1 * b1 < TWO64
    ensures a0 * b0 >= 0 && a0 * b1 >= 0 && a1 * b0 >= 0 && a1 * b1 >= 0
  {
    MulBound(a0, b0, TWO32 - 1);
    MulBound(a0, b1, TWO32 - 1);
    MulBound(a1, b0, TWO32 - 1);
    MulBound(a1, b1, TWO32 - 1);
  }

  /** The carry bookkeeping is exact. */
  lemma Assemble(p0: nat, p1: nat, p2: nat, p3: nat, c: nat, lo: nat)
    requires c == p0 / TWO32 + p1 % TWO32 + p2 % TWO32 && lo == p0 % TWO32 + TWO32 * (c % TWO32)
    ensures lo + TWO64 * (p3 + p1 / TWO32 + p2 / TWO32 + c / TWO32) == p0 + TWO32 * p1 + TWO32 * p2 + TWO64 * p3
  {
  }

  lemma ProductFits(a: Word, b: Word, lo: Word, high: nat)
    requires lo + TWO64 * high == (a as int) * b
    ensures high < TWO64
  {
    MulBound(a, b, TWO64 - 1);
  }

  lemma ShiftDrops(c: Word)
    ensures (c * TWO32) % TWO64 == (c % TWO32) * TWO32
  {
    SplitDigits((c % TWO32) * TWO32, c / TWO32, TWO64);
  }

  /** `p | (c << 32)` for a 32-bit `p`: the shift drops the high half of `c`, the or appends what is left. */
  method JoinHalves(p: Word, c: Word) returns (lo: Word)
    requires p < TWO32
    ensures lo == p + TWO32 * (c % TWO32)
  {
    hide Pow2, BitOr;
    Memory.Pow2Literals();
    ShiftDrops(c);
    OrShifted(p, c % TWO32, 32);
    lo := BitOr(p, (c * TWO32) % TWO64);
  }

  /** `mul_wide_s`: the two's-complement 128-bit product, by correcting the unsigned one. */
  method MulSigned(a: Word, b: Word) returns (lo: Word, hi: Word)
    ensures [lo, hi] == Split(Signed(W64, a) * Signed(W64, b))
  {
    hide Split, Signed;
    lo, hi := MulUnsigned(a, b);
    ghost var h := hi - Borrowed(a, b) - Borrowed(b, a);
    SubtractTwice(hi, Borrowed(a, b), Borrowed(b, a));
    SignedProduct(a, b, lo, h);
    if a >= TWO64 / 2 {
      hi := (hi - b) % TWO64;
    }
    if b >= TWO64 / 2 {
      hi := (hi - a) % TWO64;
    }
  }

  lemma SubtractTwice(x: int, y: int, z: int)
    ensures ((x - y) % TWO64 - z) % TWO64 == (x - y - z) % TWO64
  {
    var q, r := (x - y) / TWO64, (x - y) % TWO64;
    var q', r' := (r - z) / TWO64, (r - z) % TWO64;
    SplitDigits(r', q + q', TWO64);
  }

  /** What a negative `a` takes off the high word. */
  ghost function Borrowed(a: Word, b: Word): int { if a >= TWO64 / 2 then b else 0 }

  lemma SignedProduct(a: Word, b: Word, lo: Word, h: int)
    requires lo + TWO64 * (h + Borrowed(a, b) + Borrowed(b, a)) == (a as int) * b
    ensures Split(Signed(W64, a) * Signed(W64, b)) == [lo, h % TWO64]
  {
    var sa, sb := if a >= TWO64 / 2 then 1 else 0, if b >= TWO64 / 2 then 1 else 0;
    SignedShift(a, sa);
    SignedShift(b, sb);
    Expand(a, b, sa, sb, TWO64);
    assert sa * b == Borrowed(a, b) && sb * a == Borrowed(b, a);
    var hh := h + TWO64 * (sa * sb);
    assert Signed(W64, a) * Signed(W64, b) == lo + TWO64 * hh;
    hide Signed;
    UniqueSplit(lo, hh, Signed(W64, a) * Signed(W64, b));
    SplitDigits(h % TWO64, h / TWO64 + sa * sb, TWO64);
  }

  lemma SignedShift(a: Word, s: int)
    requires s == if a >= TWO64 / 2 then 1 else 0
    ensures Signed(W64, a) == a - TWO64 * s
  {
  }

  lemma Expand(x: int, y: int, s: int, t: int, p: int)
    ensures (x - p * s) * (y - p * t) == x * y - p * (s * y) - p * (t * x) + p * (p * (s * t))
  {
  }

  /** OP_I64_ADD128: addition modulo 2^128, with the carry found by comparison. */
  method Add128(xlo: Word, xhi: Word, ylo: Word, yhi: Word) returns (lo: Word, hi: Word)
    ensures [lo, hi] == Split(Pair(xlo, xhi) + Pair(ylo, yhi))
    ensures Pair(lo, hi) == (Pair(xlo, xhi) + Pair(ylo, yhi)) % (TWO64 * TWO64)
  {
    lo := (xlo + ylo) % TWO64;
    var c := if lo < xlo then 1 else 0;
    hi := (xhi + yhi + c) % TWO64;
    UniqueSplit(lo, xhi + yhi + c, Pair(xlo, xhi) + Pair(ylo, yhi));
    SplitIsModulo(Pair(xlo, xhi) + Pair(ylo, yhi));
  }

  /** OP_I64_SUB128: subtraction modulo 2^128, with the borrow found by comparison. */
  method Sub128(xlo: Word, xhi: Word, ylo: Word, yhi: Word) returns (lo: Word, hi: Word)
    ensures [lo, hi] == Split(Pair(xlo, xhi) - Pair(ylo, yhi))
    ensures Pair(lo, hi) == (Pair(xlo, xhi) - Pair(ylo, yhi)) % (TWO64 * TWO64)
  {
    lo := (xlo - ylo) % TWO64;
    var borrow := if xlo < ylo then 1 else 0;
    hi := (xhi - yhi - borrow) % TWO64;
    UniqueSplit(lo, xhi - yhi - borrow, Pair(xlo, xhi) - Pair(ylo, yhi));
    SplitIsModulo(Pair(xlo, xhi) - Pair(ylo, yhi));
  }

  /** The two words of Split are the number modulo 2^128. */
  lemma SplitIsModulo(x: int)
    ensures Pair(Split(x)[0], Split(x)[1]) == x % (TWO64 * TWO64)
  {
    var q, r := x / TWO64, x % TWO64;
    var low := r + TWO64 * (q % TWO64);
    assert x == low + (TWO64 * TWO64) * (q / TWO64);
    SplitDigits(low, q / TWO64, TWO64 * TWO64);
  }
}
