/** What the straight-line instructions do, said on words, bits and bytes: for each opcode a law that the interpreter,
    the meaning of source programs and the code for both obey. */
module Instructions {
  import opened Bits
  import opened Words
  import opened Bytecode
  import opened Machine
  import Memory
  import LinearMemory

  /** How many values an operand of this width has. */
  function Size(w: Width): nat { if w.W32? then 0x1_0000_0000 else 0x1_0000_0000_0000_0000 }

  function Places(w: Width): nat { if w.W32? then 32 else 64 }

  /** The number an operand stands for in two's complement. */
  function Reading(w: Width, x: Word): int {
    var a := x % Size(w);
    if a < Size(w) / 2 then a else a - Size(w)
  }

  /** Equal up to multiples of `m`. */
  predicate Congruent(x: int, y: int, m: nat)
    requires m > 0
  {
    (x - y) % m == 0
  }

  function Bit(v: nat, i: nat): (b: nat)
    ensures b < 2
  {
    (v / Pow2(i)) % 2
  }

  function Magnitude(x: int): nat { if x < 0 then -x else x }

  /** `q` is `a / b` rounded toward zero: the rest is smaller than the divisor and has the sign of the dividend. */
  predicate Quotient(a: int, b: int, q: int) { Remainder(a, b, q, a - b * q) }

  predicate Remainder(a: int, b: int, q: int, rest: int) {
    a == b * q + rest && Magnitude(rest) < Magnitude(b) && (a >= 0 ==> rest >= 0) && (a <= 0 ==> rest <= 0)
  }

  // ----- two-operand instructions -----

  /** The result `r` of `x op y`, where it does not trap. */
  ghost predicate Computes(w: Width, op: BinOp, x: Word, y: Word, r: Word) {
    var a, b := x % Size(w), y % Size(w);
    var sa, sb := Reading(w, x), Reading(w, y);
    var p := Pow2(y % Places(w));
    match op
    case Add => r < Size(w) && Congruent(r, a + b, Size(w))
    case Sub => r < Size(w) && Congruent(r, a - b, Size(w))
    case Mul => r < Size(w) && Congruent(r, a * b, Size(w))
    case IAnd => r < Size(w) && forall i: nat :: Bit(r, i) == 1 <==> Bit(a, i) == 1 && Bit(b, i) == 1
    case IOr => r < Size(w) && forall i: nat :: Bit(r, i) == 1 <==> Bit(a, i) == 1 || Bit(b, i) == 1
    case IXor => r < Size(w) && forall i: nat :: Bit(r, i) == 1 <==> Bit(a, i) != Bit(b, i)
    case DivS => r < Size(w) && Quotient(sa, sb, Reading(w, r))
    case DivU => r < Size(w) && Quotient(a, b, r)
    case RemS => r < Size(w) && exists q: int :: Remainder(sa, sb, q, Reading(w, r))
    case RemU => r < Size(w) && exists q: int :: Remainder(a, b, q, r)
    case Shl => r < Size(w) && Congruent(r, a * p, Size(w))
    case ShrS => r < Size(w) && Reading(w, r) * p <= sa < (Reading(w, r) + 1) * p
    case ShrU => r < Size(w) && r * p <= a < (r + 1) * p
    case Eq => r == if a == b then 1 else 0
    case Ne => r == if a == b then 0 else 1
    case LtS => r == if sa < sb then 1 else 0
    case LtU => r == if a < b then 1 else 0
    case LeS => r == if sb < sa then 0 else 1
    case LeU => r == if b < a then 0 else 1
    case GtS => r == if sb < sa then 1 else 0
    case GtU => r == if b < a then 1 else 0
    case GeS => r == if sa < sb then 0 else 1
    case GeU => r == if a < b then 0 else 1
  }

  /** The trap of `x op y`, if it traps. */
  function TrapOf(w: Width, op: BinOp, x: Word, y: Word): Option<Status> {
    if op in {DivS, DivU, RemS, RemU} && y % Size(w) == 0 then Some(TrapDivByZero)
    else if op == DivS && Reading(w, x) == -(Size(w) / 2) && Reading(w, y) == -1 then Some(TrapIntOverflow)
    else None
  }

  lemma ModGap(z: int, m: nat)
    requires m > 0
    ensures 0 <= z % m < m && Congruent(z % m, z, m)
  {
    assert z % m - z == 0 + m * -(z / m);
    SplitDigits(0, -(z / m), m);
  }

  lemma SameReading(w: Width, x: Word)
    ensures Size(w) == Modulus(w) && Places(w) == BitWidth(w) && Signed(w, x) == Reading(w, x)
    ensures -(Size(w) / 2) <= Reading(w, x) < Size(w) / 2
  {
  }

  /** A number within range is what its low bits stand for. */
  lemma ReadBack(w: Width, q: int)
    requires -(Size(w) / 2) <= q < Size(w) / 2
    ensures Low(w, q) < Size(w) && Reading(w, Low(w, q)) == q
  {
    if q >= 0 { SplitDigits(q, 0, Size(w)); } else { SplitDigits(q + Size(w), -1, Size(w)); }
  }

  lemma DivNat(n: nat, b: nat)
    requires b > 0
    ensures var q := n / b; 0 <= q <= n && b * q <= n < b * q + b && (b > 1 && n > 0 ==> q < n)
  {
    var q, rest := n / b, n % b;
    assert n == b * q + rest && 0 <= rest < b;
    MulAtLeast(b, q);
    if q >= 1 { MulAtLeast(q, b - 1); Times(b, q); }
  }

  lemma Times(b: int, q: int)
    ensures b * q == q + q * (b - 1) && b * -q == -(b * q) && -b * -q == b * q && -b * q == -(b * q)
  {
  }

  /** Division by a negative number rounds as division by its opposite. */
  lemma DivNegative(n: nat, b: int)
    requires b < 0
    ensures n / b == -(n / -b)
  {
    var q, rest := n / b, n % b;
    var q', rest' := n / -b, n % -b;
    assert n == b * q + rest && n == -b * q' + rest' && 0 <= rest < -b && 0 <= rest' < -b;
    Times(b, q);
    Times(b, q');
    var d := q' + q;
    assert -b * d == rest - rest' by { assert -b * d == -b * q' + -b * q; }
    MulAtLeast(-b, d);
  }

  lemma Truncated(a: int, b: int, half: int)
    requires b != 0 && half > 0 && -half <= a < half && !(a == -half && b == -1)
    ensures var q := TruncDiv(a, b); Quotient(a, b, q) && -half <= q < half
  {
    var n, c: nat := Magnitude(a), Magnitude(b);
    var t := n / c;
    DivNat(n, c);
    if b < 0 { DivNegative(n, b); }
    Times(b, t);
    Times(c, t);
    if a < 0 && b < 0 && n == half { assert c > 1; }
  }

  lemma Shifted(x: int, p: nat, half: int)
    requires p >= 1 && half > 0 && -half <= x < half
    ensures var q := x / p; q * p <= x < (q + 1) * p && -half <= q < half && (x >= 0 ==> 0 <= q <= x)
  {
    var q := x / p;
    assert x == p * q + x % p && (q + 1) * p == p * q + p;
    if x >= 0 {
      DivNat(x, p);
    } else {
      NegBound(x, p, -q);
    }
  }

  lemma Spread(p: int, a: int, b: int)
    ensures p * (a + b) == p * a + p * b
  {
  }

  lemma Grows(p: int, n: int)
    requires p >= 1 && n >= 0
    ensures p * n >= n
  {
    Spread(n, p - 1, 1);
    assert n * (p - 1) >= 0;
  }

  lemma NegBound(x: int, p: nat, t: int)
    requires p >= 1 && x < 0 && p * -t <= x < p * -t + p
    ensures 0 <= t <= -x
  {
    Times(p, t);
    MulAtLeast(p, t);
    MulAtLeast(p, t + x);
    Spread(p, t + x, -x);
    Grows(p, -x);
    var q, y, z := p * t, p * (t + x), p * -x;
    assert q == y + z;
  }

  lemma {:induction false} BitwiseBits(g: Gate, a: nat, b: nat, i: nat)
    ensures Bit(Bitwise(g, a, b), i) == GateBit(g, Bit(a, i), Bit(b, i))
    decreases i
  {
    hide Bit, Bitwise, GateBit;
    if i == 0 {
      LowestBit(a, i);
      LowestBit(b, i);
      LowestBit(Bitwise(g, a, b), i);
      BitwiseHalf(g, a, b);
    } else {
      BitwiseBits(g, a / 2, b / 2, i - 1);
      HalfBit(a, i);
      HalfBit(b, i);
      HalfBit(Bitwise(g, a, b), i);
      BitwiseHalf(g, a, b);
    }
  }

  lemma LowestBit(v: nat, i: nat)
    requires i == 0
    ensures Bit(v, i) == v % 2
  {
    assert Pow2(i) == 1;
  }

  lemma {:induction false} BitwiseHalf(g: Gate, a: nat, b: nat)
    ensures Bitwise(g, a, b) / 2 == Bitwise(g, a / 2, b / 2)
    ensures Bitwise(g, a, b) % 2 == GateBit(g, a % 2, b % 2)
  {
    var low, rest := GateBit(g, a, b), Bitwise(g, a / 2, b / 2);
    GateOfBits(g, a, b);
    if a != 0 || b != 0 {
      hide GateBit;
      assert Bitwise(g, a, b) == low + 2 * rest;
      hide Bitwise;
      SplitDigits(low, rest, 2);
    }
  }

  lemma GateOfBits(g: Gate, a: nat, b: nat)
    ensures GateBit(g, a, b) == GateBit(g, a % 2, b % 2) < 2 && GateBit(g, 0, 0) == 0
  {
  }

  lemma HalfBit(v: nat, i: nat)
    requires i > 0
    ensures Bit(v, i) == Bit(v / 2, i - 1)
  {
    hide Pow2;
    Pow2Next(i - 1);
    LinearMemory.DivTwice(v, 2, Pow2(i - 1));
  }

  lemma {:induction false} BitwiseBelow(g: Gate, a: nat, b: nat, k: nat)
    requires a < Pow2(k) && b < Pow2(k)
    ensures Bitwise(g, a, b) < Pow2(k)
    decreases k
  {
    if k > 0 && a + b > 0 { BitwiseBelow(g, a / 2, b / 2, k - 1); }
  }

  /** The bits of an operation on the low bits of two words. */
  lemma Bitwisely(w: Width, g: Gate, a: nat, b: nat)
    requires a < Size(w) && b < Size(w)
    ensures var r := Low(w, Bitwise(g, a, b));
      r < Size(w) && forall i: nat :: Bit(r, i) == GateBit(g, Bit(a, i), Bit(b, i))
  {
    hide Bitwise, Pow2;
    Memory.Pow2Literals();
    BitwiseBelow(g, a, b, Places(w));
    forall i: nat
      ensures Bit(Bitwise(g, a, b), i) == GateBit(g, Bit(a, i), Bit(b, i))
    {
      BitwiseBits(g, a, b, i);
    }
  }

  lemma ArithmeticLaw(w: Width, op: BinOp, x: Word, y: Word)
    requires op in {Add, Sub, Mul, Shl, ShrS, ShrU, DivS, DivU, RemS, RemU} && TrapOf(w, op, x, y).None?
    ensures BinEval(w, op, x, y).Val? && Computes(w, op, x, y, BinEval(w, op, x, y).values[0])
  {
    hide BinEval, Computes, Uncut, Low, Reading;
    CutResult(w, op, x, y);
    match op
    case DivU | RemU => UnsignedLaw(w, op, x, y);
    case DivS | RemS => SignedLaw(w, op, x, y);
    case ShrS | ShrU => ShiftLaw(w, x, y);
    case _ => SumLaw(w, op, x, y);
  }

  /** Every two-operand instruction: the operand pushed last is the right one; it traps exactly as the opcode says,
      else pushes the one result; the store stays as it is. */
  lemma BinaryLaw(segments: seq<seq<Byte>>, s: Store, w: Width, op: BinOp, x: Word, y: Word) returns (r: Word)
    ensures var e := Eval(segments, Arith(Bin(w, op)), s, [x, y]);
      match TrapOf(w, op, x, y)
      case Some(st) => e == Fault(st)
      case None => e == Done(s, [r]) && Computes(w, op, x, y, r)
  {
    hide BinEval, Computes, TrapOf, Uncut, Low;
    var e := BinEval(w, op, x, y);
    r := if e.Val? then e.values[0] else 0;
    TrapLaw(w, op, x, y);
    if e.Val? {
      if op in {IAnd, IOr, IXor} {
        GateLaw(w, op, x, y);
      } else if op in {Eq, Ne, LtS, LtU, LeS, LeU, GtS, GtU, GeS, GeU} {
        OrderLaw(w, op, x, y);
      } else {
        ArithmeticLaw(w, op, x, y);
      }
    }
  }

  /** The result before it is cut to the width, of the instructions that cut one. */
  function Uncut(w: Width, op: BinOp, x: Word, y: Word): int
    requires op in {Add, Sub, Mul, Shl, ShrS, ShrU, DivS, DivU, RemS, RemU}
    requires op in {DivS, DivU, RemS, RemU} ==> y % Size(w) != 0
  {
    var a, b := x % Size(w), y % Size(w);
    var sa, sb := Reading(w, x), Reading(w, y);
    var p := Pow2(y % Places(w));
    match op
    case Add => a + b
    case Sub => a - b
    case Mul => a * b
    case Shl => a * p
    case ShrS => sa / p
    case ShrU => a / p
    case DivS => TruncDiv(sa, sb)
    case DivU => a / b
    case RemS => sa - sb * TruncDiv(sa, sb)
    case RemU => a % b
    case _ => assert false; 0
  }

  lemma CutResult(w: Width, op: BinOp, x: Word, y: Word)
    requires op in {Add, Sub, Mul, Shl, ShrS, ShrU, DivS, DivU, RemS, RemU} && TrapOf(w, op, x, y).None?
    ensures BinEval(w, op, x, y) == Val([Low(w, Uncut(w, op, x, y))])
  {
    hide Pow2, Bitwise, TruncDiv, Signed, Reading, Low;
    SameReading(w, x);
    SameReading(w, y);
    SmallModulus(w, y);
    NonZero(w, y);
    LowIsModulo(w, x);
    LowIsModulo(w, y);
  }

  lemma LowIsModulo(w: Width, x: int)
    ensures Low(w, x) == x % Size(w)
  {
  }

  lemma LowGap(w: Width, z: int)
    ensures Low(w, z) < Size(w) && Congruent(Low(w, z), z, Size(w))
  {
    ModGap(z, Size(w));
  }

  lemma SumLaw(w: Width, op: BinOp, x: Word, y: Word)
    requires op in {Add, Sub, Mul, Shl}
    ensures Computes(w, op, x, y, Low(w, Uncut(w, op, x, y)))
  {
    hide Pow2, TruncDiv, Reading, Congruent, Quotient, Remainder, Low;
    LowGap(w, Uncut(w, op, x, y));
  }

  lemma ShiftLaw(w: Width, x: Word, y: Word)
    ensures Computes(w, ShrU, x, y, Low(w, Uncut(w, ShrU, x, y)))
    ensures Computes(w, ShrS, x, y, Low(w, Uncut(w, ShrS, x, y)))
  {
    hide Pow2, TruncDiv, Reading, Congruent, Low;
    var a, sa, p := x % Size(w), Reading(w, x), Pow2(y % Places(w));
    SameReading(w, x);
    Shifted(sa, p, Size(w) / 2);
    ReadBack(w, sa / p);
    Shifted(a, p, Size(w));
    Fits(w, a / p);
  }

  lemma Fits(w: Width, z: int)
    requires 0 <= z < Size(w)
    ensures Low(w, z) == z
  {
  }

  lemma OrderLaw(w: Width, op: BinOp, x: Word, y: Word)
    requires op in {Eq, Ne, LtS, LtU, LeS, LeU, GtS, GtU, GeS, GeU}
    ensures var e := BinEval(w, op, x, y); e.Val? && Computes(w, op, x, y, e.values[0])
  {
    hide Pow2, Bitwise, TruncDiv, Signed, Reading, Low;
    SameReading(w, x);
    SameReading(w, y);
    LowIsModulo(w, x);
    LowIsModulo(w, y);
  }

  lemma SmallModulus(w: Width, y: Word)
    ensures (y % Size(w)) % Places(w) == y % Places(w)
  {
    if w.W32? { } else { }
  }

  lemma GateComputes(w: Width, op: BinOp, g: Gate, x: Word, y: Word, r: Word)
    requires (op == IAnd && g == And) || (op == IOr && g == Or) || (op == IXor && g == Xor)
    requires r < Size(w) && forall i: nat :: Bit(r, i) == GateBit(g, Bit(x % Size(w), i), Bit(y % Size(w), i))
    ensures Computes(w, op, x, y, r)
  {
    hide Bit, Reading, Pow2, Congruent, Quotient, Remainder;
  }

  lemma GateLaw(w: Width, op: BinOp, x: Word, y: Word)
    requires op in {IAnd, IOr, IXor}
    ensures var e := BinEval(w, op, x, y); e.Val? && Computes(w, op, x, y, e.values[0])
  {
    hide Pow2, Bitwise, TruncDiv, Signed, Reading, Bit, Computes, Low;
    var g := if op == IAnd then And else if op == IOr then Or else Xor;
    LowIsModulo(w, x);
    LowIsModulo(w, y);
    Bitwisely(w, g, x % Size(w), y % Size(w));
    GateComputes(w, op, g, x, y, BinEval(w, op, x, y).values[0]);
  }

  lemma UnsignedLaw(w: Width, op: BinOp, x: Word, y: Word)
    requires op in {DivU, RemU} && y % Size(w) != 0
    ensures Computes(w, op, x, y, Low(w, Uncut(w, op, x, y)))
  {
    hide Pow2, TruncDiv, Reading, Remainder, Quotient, Low;
    var a, b := x % Size(w), y % Size(w);
    UnsignedParts(a, b);
    Fits(w, a / b);
    Fits(w, a % b);
  }

  lemma UnsignedParts(a: nat, b: nat)
    requires b > 0
    ensures Quotient(a, b, a / b) && Remainder(a, b, a / b, a % b) && 0 <= a / b <= a && 0 <= a % b <= a
  {
    DivNat(a, b);
    assert a == b * (a / b) + a % b;
    assert b * (a / b) >= 0;
  }

  lemma SignedLaw(w: Width, op: BinOp, x: Word, y: Word)
    requires op in {DivS, RemS} && TrapOf(w, op, x, y).None?
    ensures Computes(w, op, x, y, Low(w, Uncut(w, op, x, y)))
  {
    hide Pow2, TruncDiv, Remainder, Quotient, Low, Reading;
    var sa, sb := Reading(w, x), Reading(w, y);
    SameReading(w, x);
    SameReading(w, y);
    NonZero(w, y);
    if op == DivS {
      Truncated(sa, sb, Size(w) / 2);
      ReadBack(w, TruncDiv(sa, sb));
    } else {
      SignedRest(w, sa, sb);
    }
  }

  lemma NonZero(w: Width, y: Word)
    ensures Reading(w, y) == 0 <==> y % Size(w) == 0
  {
  }

  lemma TrapLaw(w: Width, op: BinOp, x: Word, y: Word)
    ensures match TrapOf(w, op, x, y)
      case Some(st) => BinEval(w, op, x, y) == Bad(st)
      case None => BinEval(w, op, x, y).Val?
  {
    hide Pow2, Bitwise, TruncDiv;
    SameReading(w, x);
    SameReading(w, y);
  }

  /** The most negative number leaves no rest by -1, although the quotient does not fit. */
  lemma SignedRest(w: Width, a: int, b: int)
    requires b != 0 && -(Size(w) / 2) <= a < Size(w) / 2 && -(Size(w) / 2) <= b < Size(w) / 2
    ensures var rest := a - b * TruncDiv(a, b);
      Remainder(a, b, TruncDiv(a, b), rest) && Reading(w, Low(w, rest)) == rest && Low(w, rest) < Size(w)
  {
    Truncated(a, b, Size(w));
    ReadBack(w, a - b * TruncDiv(a, b));
  }

  // ----- one-operand and wide instructions -----

  lemma {:induction false} LeadingBits(v: nat, bits: nat)
    requires v < Pow2(bits)
    ensures var n := LeadingZeros(v, bits);
      if v == 0 then n == bits else n < bits && Pow2(bits - 1 - n) <= v < Pow2(bits - n)
    decreases bits
  {
    if bits > 0 && v < Pow2(bits - 1) { LeadingBits(v, bits - 1); }
  }

  /** The one-operand instructions. Counting leading zeros places the highest set bit. */
  lemma UnaryLaw(segments: seq<seq<Byte>>, s: Store, w: Width, x: Word) returns (n: Word)
    ensures Eval(segments, Arith(Eqz(w)), s, [x]) == Done(s, [if x % Size(w) == 0 then 1 else 0])
    ensures Eval(segments, Arith(Clz(w)), s, [x]) == Done(s, [n])
    ensures var a := x % Size(w);
      if a == 0 then n == Places(w) else n < Places(w) && Pow2(Places(w) - 1 - n) <= a < Pow2(Places(w) - n)
  {
    hide Pow2, LeadingZeros;
    Memory.Pow2Literals();
    LeadingBits(x % Size(w), Places(w));
    n := LeadingZeros(x % Size(w), Places(w));
  }

  /** The conversions between widths keep the number: the low half, as unsigned or as two's complement. */
  lemma ConversionLaw(segments: seq<seq<Byte>>, s: Store, x: Word) returns (r: Word)
    ensures Eval(segments, Arith(Wrap), s, [x]) == Done(s, [x % 0x1_0000_0000])
    ensures Eval(segments, Arith(ExtendU), s, [x]) == Done(s, [x % 0x1_0000_0000])
    ensures Eval(segments, Arith(ExtendS), s, [x]) == Done(s, [r]) && Reading(W64, r) == Reading(W32, x)
  {
    SameReading(W32, x);
    ReadBack(W64, Reading(W32, x));
    r := Low(W64, Reading(W32, x));
  }

  /** Two words as one number of 128 bits, the word pushed first being the low one. */
  function Wide(lo: Word, hi: Word): int { lo + 0x1_0000_0000_0000_0000 * hi }

  const WIDE: nat := 0x1_0000_0000_0000_0000_0000_0000_0000_0000

  lemma SplitWide(x: int)
    ensures Split(x) == [Split(x)[0], Split(x)[1]] && Wide(Split(x)[0], Split(x)[1]) == x % WIDE
  {
    var lo, q := x % TWO64, x / TWO64;
    var hi := q % TWO64;
    assert x == (lo + TWO64 * hi) + WIDE * (q / TWO64);
    SplitDigits(lo + TWO64 * hi, q / TWO64, WIDE);
  }

  lemma PairIsWide(lo: Word, hi: Word)
    ensures Pair(lo, hi) == Wide(lo, hi)
  {
  }

  /** Operands and results in their order on the stack: low word below high word, left operand below right. */
  lemma WideLaw(segments: seq<seq<Byte>>, s: Store, xlo: Word, xhi: Word, ylo: Word, yhi: Word, add: bool)
    returns (lo: Word, hi: Word)
    ensures Eval(segments, Arith(if add then Add128 else Sub128), s, [xlo, xhi, ylo, yhi]) == Done(s, [lo, hi])
    ensures var x, y := Wide(xlo, xhi), Wide(ylo, yhi);
      Wide(lo, hi) == (if add then x + y else x - y) % WIDE
  {
    hide Split, Wide, Pair;
    PairIsWide(xlo, xhi);
    PairIsWide(ylo, yhi);
    var x, y := Wide(xlo, xhi), Wide(ylo, yhi);
    var z := if add then x + y else x - y;
    SplitWide(z);
    lo, hi := Split(z)[0], Split(z)[1];
  }

  /** The double-width products are exact: modulo 2^128 if the factors are signed, over the integers if not. */
  lemma ProductLaw(segments: seq<seq<Byte>>, s: Store, x: Word, y: Word, signed: bool) returns (lo: Word, hi: Word)
    ensures Eval(segments, Arith(if signed then MulWideS else MulWideU), s, [x, y]) == Done(s, [lo, hi])
    ensures Wide(lo, hi) == if signed then (Reading(W64, x) * Reading(W64, y)) % WIDE else (x as int) * y
  {
    hide Split, Signed, Reading, Wide;
    SameReading(W64, x);
    SameReading(W64, y);
    ProductBelow(x, y);
    var z := if signed then Reading(W64, x) * Reading(W64, y) else (x as int) * y;
    SplitWide(z);
    lo, hi := Split(z)[0], Split(z)[1];
  }

  lemma ProductBelow(x: Word, y: Word)
    ensures 0 <= (x as int) * y < WIDE && ((x as int) * y) % WIDE == (x as int) * y
  {
    LinearMemory.MulBelow(x, y, TWO64 - 1);
    LinearMemory.MulBelow(TWO64 - 1, x, TWO64 - 1);
    assert (x as int) * y >= 0;
    SplitDigits((x as int) * y, 0, WIDE);
  }

  // ----- memory, globals and parametric instructions -----

  /** The number in the `n` bytes from `ea` on, lowest byte first. */
  ghost predicate LittleEndian(mem: seq<Byte>, ea: nat, n: nat, v: nat)
    requires ea + n <= |mem|
  {
    v < Pow2(8 * n) && forall i :: 0 <= i < n ==> (v / Pow2(8 * i)) % 256 == mem[ea + i]
  }

  lemma LoadedBytes(mem: seq<Byte>, ea: nat, n: nat)
    requires n <= 8 && ea + n <= |mem|
    ensures LittleEndian(mem, ea, n, Memory.Load(mem, ea, n))
  {
    hide Pow2;
    var bs := mem[ea..ea + n];
    LinearMemory.FromBytesRoundTrip(bs);
    forall i | 0 <= i < n
      ensures (Memory.FromBytes(bs) / Pow2(8 * i)) % 256 == mem[ea + i]
    {
      LinearMemory.ByteAt(Memory.FromBytes(bs), n, i);
    }
  }

  /** Is the whole access inside the accessible memory? */
  predicate Accessible(s: Store, n: nat, off: nat, addr: Word) {
    1 <= n <= 8 && addr % 0x1_0000_0000 + off + n <= s.memSize
  }

  /** A load goes through exactly when the whole access is accessible, changes nothing, and pushes the number in those
      bytes: as two's complement of `n` bytes if signed, cut to 32 bits for a 32-bit destination. */
  lemma LoadLaw(segments: seq<seq<Byte>>, s: Store, n: nat, signed: bool, wide: bool, off: nat, addr: Word)
    returns (u: nat, r: Word)
    ensures var e := Eval(segments, Load(n, signed, wide, off), s, [addr]);
      if !Accessible(s, n, off, addr) then e == Fault(TrapMemOob)
      else
        var v := if signed && u >= Pow2(8 * n - 1) then u - Pow2(8 * n) else u;
        LittleEndian(s.mem, addr % 0x1_0000_0000 + off, n, u) && e == Done(s, [r]) &&
        r == v % (if wide || (n == 8 && !signed) then 0x1_0000_0000_0000_0000 else 0x1_0000_0000)
  {
    hide Pow2, Memory.Load;
    u, r := 0, 0;
    if Accessible(s, n, off, addr) {
      var ea := addr % 0x1_0000_0000 + off;
      u := Memory.Load(s.mem, ea, n);
      LoadedBytes(s.mem, ea, n);
      r := LoadValue(u, n, signed, wide);
      FlaggedValue(u, n, signed, wide);
    }
  }

  lemma FlaggedValue(u: Word, n: nat, signed: bool, wide: bool)
    requires 1 <= n <= 8 && u < Pow2(8 * n)
    ensures var v := if signed && u >= Pow2(8 * n - 1) then u - Pow2(8 * n) else u;
      LoadValue(u, n, signed, wide) ==
      v % (if wide || (n == 8 && !signed) then 0x1_0000_0000_0000_0000 else 0x1_0000_0000)
  {
    hide Pow2;
    var v := if signed && u >= Pow2(8 * n - 1) then u - Pow2(8 * n) else u;
    SplitDigits(u, 0, Pow2(8 * n));
    LinearMemory.LowLow(v);
    SplitDigits(u, 0, TWO64);
  }

  /** Only the bytes `lo..hi` of memory may differ, and nothing else of the store. */
  predicate OnlyBytes(s: Store, s': Store, lo: nat, hi: nat) {
    && s' == s.(mem := s'.mem) && |s'.mem| == |s.mem|
    && forall j :: 0 <= j < |s.mem| && !(lo <= j < hi) ==> s'.mem[j] == s.mem[j]
  }

  /** A store goes through exactly when the whole access is accessible, and writes the low bytes of the word there,
      lowest first, and nowhere else. */
  lemma StoreLaw(segments: seq<seq<Byte>>, s: Store, n: nat, off: nat, addr: Word, v: Word)
    ensures var e, ea := Eval(segments, StoreMem(n, off), s, [addr, v]), addr % 0x1_0000_0000 + off;
      if !Accessible(s, n, off, addr) then e == Fault(TrapMemOob)
      else
        e.Done? && e.pushed == [] && OnlyBytes(s, e.store, ea, ea + n) &&
        forall j :: ea <= j < ea + n ==> e.store.mem[j] == (v / Pow2(8 * (j - ea))) % 256
  {
    hide Pow2, Memory.Bytes;
    if Accessible(s, n, off, addr) {
      forall i | 0 <= i < n
        ensures Memory.Bytes(v, n)[i] == (v / Pow2(8 * i)) % 256
      {
        LinearMemory.ByteAt(v, n, i);
      }
    }
  }

  /** memory.copy: all or nothing, and every byte arrives as it was, whatever the overlap. */
  lemma CopyLaw(segments: seq<seq<Byte>>, s: Store, dst: Word, src: Word, len: Word)
    ensures var e := Eval(segments, MemoryCopy, s, [dst, src, len]);
      var d, from, n := dst % 0x1_0000_0000, src % 0x1_0000_0000, len % 0x1_0000_0000;
      if d + n > s.memSize || from + n > s.memSize then e == Fault(TrapMemOob)
      else
        e.Done? && e.pushed == [] && OnlyBytes(s, e.store, d, d + n) &&
        forall j :: d <= j < d + n ==> e.store.mem[j] == s.mem[from + (j - d)]
  {
  }

  /** memory.fill: all or nothing; the low byte of the value, everywhere in the range. */
  lemma FillLaw(segments: seq<seq<Byte>>, s: Store, dst: Word, v: Word, len: Word)
    ensures var e, d, n := Eval(segments, MemoryFill, s, [dst, v, len]), dst % 0x1_0000_0000, len % 0x1_0000_0000;
      if d + n > s.memSize then e == Fault(TrapMemOob)
      else
        e.Done? && e.pushed == [] && OnlyBytes(s, e.store, d, d + n) &&
        forall j :: d <= j < d + n ==> e.store.mem[j] == v % 256
  {
  }

  /** memory.init: all or nothing; bytes of a segment that has not been dropped. A dropped one is empty. */
  lemma InitLaw(segments: seq<seq<Byte>>, s: Store, seg: nat, dst: Word, src: Word, len: Word)
    requires |segments| == |s.live|
    ensures var e := Eval(segments, MemoryInit(seg), s, [dst, src, len]);
      var d, from, n := dst % 0x1_0000_0000, src % 0x1_0000_0000, len % 0x1_0000_0000;
      if seg >= |s.live| || from + n > (if s.live[seg] then |segments[seg]| else 0) || d + n > s.memSize
      then e == Fault(TrapMemOob)
      else
        e.Done? && e.pushed == [] && OnlyBytes(s, e.store, d, d + n) &&
        forall j :: d <= j < d + n ==> e.store.mem[j] == segments[seg][from + (j - d)]
  {
  }

  /** A dropped segment is empty from then on, and data.drop changes nothing else; both trap on an unknown segment. */
  lemma DropThenInit(segments: seq<seq<Byte>>, s: Store, seg: nat, dst: Word, src: Word, len: Word)
    ensures var e := Eval(segments, DataDrop(seg), s, []);
      if seg >= |s.live| then e == Fault(TrapMemOob)
      else
        e.Done? && e.pushed == [] && e.store == s.(live := e.store.live) && |e.store.live| == |s.live| &&
        (forall g :: 0 <= g < |s.live| && g != seg ==> e.store.live[g] == s.live[g]) &&
        (Eval(segments, MemoryInit(seg), e.store, [dst, src, len]).Done? <==>
         src % 0x1_0000_0000 == 0 && len % 0x1_0000_0000 == 0 && dst % 0x1_0000_0000 <= s.memSize)
  {
  }

  /** memory.size and memory.grow count pages of 65536 bytes. Growing succeeds exactly when the pages are reserved and
      at most 65536; it pushes the old page count, or the 32-bit -1 when it fails and changes nothing. */
  lemma GrowLaw(segments: seq<seq<Byte>>, s: Store, delta: Word)
    requires s.memSize < 0x1_0000_0000_0000
    ensures Eval(segments, MemorySize, s, []) == Done(s, [s.memSize / 65536])
    ensures var e, pages := Eval(segments, MemoryGrow, s, [delta]), s.memSize / 65536 + delta % 0x1_0000_0000;
      if 65536 * pages <= |s.mem| && pages <= 65536
      then e == Done(s.(memSize := 65536 * pages), [s.memSize / 65536])
      else e == Done(s, [0xFFFF_FFFF])
  {
    var pages := s.memSize / 65536 + delta % 0x1_0000_0000;
    assert pages <= |s.mem| / 65536 <==> 65536 * pages <= |s.mem|;
  }

  /** select, drop and the globals. A global reads what was last set, and setting one leaves the others. */
  lemma ParametricLaw(segments: seq<seq<Byte>>, s: Store, x: Word, y: Word, c: Word, g: nat, h: nat)
    ensures Eval(segments, Select, s, [x, y, c]) == Done(s, [if c % 0x1_0000_0000 == 0 then y else x])
    ensures Eval(segments, Drop, s, [x]) == Done(s, [])
    ensures var e := Eval(segments, GlobalSet(g), s, [x]);
      if g >= |s.globals| then e == Fault(UnsupportedOp) && Eval(segments, GlobalGet(g), s, []) == Fault(UnsupportedOp)
      else
        e.Done? && e.pushed == [] && e.store == s.(globals := e.store.globals) &&
        Eval(segments, GlobalGet(g), e.store, []) == Done(e.store, [x]) &&
        (h < |s.globals| && h != g ==> Eval(segments, GlobalGet(h), e.store, []) == Done(e.store, [s.globals[h]]))
  {
  }

  // ----- on the stack of the interpreter -----

  /** The live part of the stack. */
  function Live(vm: Vm): seq<Word> { vm.stack[..vm.sp] }

  /** A straight-line instruction takes its operands off the top of the stack, the last one being on top, and puts its
      results in their place, the last one on top; nothing below changes. A trap leaves the store as it was. */
  lemma OnStack(m: Module, vm: Vm, p: Plain, under: seq<Word>, args: seq<Word>)
    requires vm.status == Running && vm.pc < |m.code| && m.code[vm.pc] == Simple(p)
    requires Live(vm) == under + args && |args| == Pops(p)
    ensures var vm' := Step(m, vm);
      match Eval(m.segments, p, vm.store, args)
      case Fault(st) => vm'.status == st && vm'.store == vm.store
      case Done(s, ws) =>
        if |under| + |ws| > 4096 then vm'.status == TrapStackOverflow && vm'.store == s
        else
          vm'.status == Running && vm'.pc == vm.pc + 1 && vm'.fp == vm.fp && vm'.frames == vm.frames &&
          vm'.fuel == vm.fuel && vm'.store == s && Live(vm') == under + ws
  {
    hide Eval;
    var n := Pops(p);
    assert vm.stack[vm.sp - n..vm.sp] == Live(vm)[vm.sp - n..] == args;
    assert vm.stack[..vm.sp - n] == Live(vm)[..vm.sp - n] == under;
    var e := Eval(m.segments, p, vm.store, args);
    if e.Done? && |under| + |e.pushed| <= 4096 {
      assert e.pushed[..|e.pushed|] == e.pushed;
    }
  }

  /** A host call hands over the arguments in the order they were pushed, with the memory as it is, and the one result
      takes their place; a refusal ends the run. More than 16 arguments do not fit the mailbox. */
  lemma HostCallLaw(m: Module, host: Host, vm: Vm, under: seq<Word>, args: seq<Word>, nr: nat, fn: nat)
    requires vm.status == Running && vm.pc < |m.code| && m.code[vm.pc] == CallHost(|args|, nr, fn)
    requires Live(vm) == under + args
    ensures |args| > 16 ==> Tick(m, host, vm).status == UnsupportedOp
    ensures |args| <= 16 ==>
      var v := Tick(m, host, Tick(m, host, vm));
      var log := vm.store.log + [HostEvent(fn, args, nr, vm.store.mem)];
      v.store == vm.store.(log := log) &&
      match host(log)
      case None => v.status == UnsupportedOp
      case Some(rs) =>
        |rs| <= 1 && |under| + |rs| <= 4096 ==>
          v.status == Running && v.pc == vm.pc + 1 && v.fp == vm.fp && v.frames == vm.frames &&
          v.fuel == vm.fuel && Live(v) == under + rs
  {
    var n := |args|;
    assert vm.stack[vm.sp - n..vm.sp] == Live(vm)[vm.sp - n..] == args;
    assert vm.stack[..vm.sp - n] == Live(vm)[..vm.sp - n] == under;
    var log := vm.store.log + [HostEvent(fn, args, nr, vm.store.mem)];
    if |args| <= 16 && host(log).Some? {
      assert host(log).value[..|host(log).value|] == host(log).value;
    }
  }

  /** Where the interpreter stops without a result: past the end of the code, at `unreachable`, at an opcode it does not
      know, at a call of a function that does not exist, at a return with no frame. The store stays as it was. */
  lemma StopLaw(m: Module, vm: Vm)
    requires vm.status == Running
    ensures var v := Step(m, vm);
      (vm.pc >= |m.code| ==> v.status == TrapUnreachable && v.store == vm.store) &&
      (vm.pc < |m.code| ==>
         match m.code[vm.pc]
         case Unreachable => v.status == TrapUnreachable && v.store == vm.store
         case Unknown => v.status == UnsupportedOp && v.store == vm.store
         case Call(f) => f >= |m.funcs| ==> v.status == UnsupportedOp && v.store == vm.store
         case ReturnCall(f) => f >= |m.funcs| ==> v.status == UnsupportedOp && v.store == vm.store
         case Return => vm.frames == [] ==> v.status == TrapUnreachable && v.store == vm.store
         case EndFunc => vm.frames == [] ==> v.status == TrapUnreachable && v.store == vm.store
         case _ => true)
  {
    hide Eval, Lookup, Memory.Moved, Memory.Written;
  }

  /** An indirect call traps exactly when the slot does not exist, is empty, names no function, or names one of another
      type; else it enters the function as a direct call does. */
  lemma IndirectLaw(m: Module, vm: Vm, ty: nat, under: seq<Word>, i: Word)
    requires vm.status == Running && vm.pc < |m.code| && m.code[vm.pc] == CallIndirect(ty) && Live(vm) == under + [i]
    requires |m.funcType| == |m.funcs| && ty < |m.typeFp|
    requires forall f :: 0 <= f < |m.funcs| ==> m.funcType[f] < |m.typeFp|
    ensures var v, slot := Step(m, vm), i % 0x1_0000_0000;
      if slot < |m.table| && m.table[slot] != 0xFFFF_FFFF && m.table[slot] < |m.funcs| &&
        m.typeFp[m.funcType[m.table[slot]]] == m.typeFp[ty]
      then v == StepCall(m, vm.(pc := vm.pc + 1, sp := vm.sp - 1), m.table[slot])
      else v.status == TrapIndirectCall && v.store == vm.store
  {
    hide Enter;
    assert vm.stack[vm.sp - 1] == Live(vm)[vm.sp - 1] == i;
  }
}
