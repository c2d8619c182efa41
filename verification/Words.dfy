/** Machine words and the integer ALU of the interpreter. */
module Words {
  import opened Bits

  const TWO32: nat := 0x1_0000_0000
  const TWO64: nat := 0x1_0000_0000_0000_0000

  type Word = w: nat | w < TWO64
  type Byte = b: nat | b < 256

  datatype Width = W32 | W64

  function Modulus(w: Width): nat { if w.W32? then TWO32 else TWO64 }

  function BitWidth(w: Width): nat { if w.W32? then 32 else 64 }

  /** The low bits of a word, as the C++ casts `(uint32_t)` and `(uint64_t)` take them. */
  function Low(w: Width, x: int): Word { x % Modulus(w) }

  function Signed(w: Width, x: Word): int {
    var v := Low(w, x);
    if v < Modulus(w) / 2 then v else v - Modulus(w)
  }

  function Flag(b: bool): Word { if b then 1 else 0 }

  /** Division truncating toward zero, as in C++. */
  function TruncDiv(a: int, b: int): int
    requires b != 0
  {
    if a >= 0 then a / b else -((-a) / b)
  }

  datatype Status =
    | Running | Ok
    | TrapUnreachable | TrapStackOverflow | TrapCallDepth | OutOfFuel | UnsupportedOp
    | TrapDivByZero | TrapIntOverflow | TrapMemOob | TrapIndirectCall
    | HostcallPending
    | Undefined  // the C++ code would touch memory outside one of its arrays

  datatype BinOp =
    | Add | Sub | Mul | IAnd | IOr | IXor
    | DivS | DivU | RemS | RemU | Shl | ShrS | ShrU
    | Eq | Ne | LtS | LtU | LeS | LeU | GtS | GtU | GeS | GeU

  datatype Alu =
    | Bin(width: Width, op: BinOp)
    | Eqz(width: Width) | Clz(width: Width)
    | Wrap | ExtendS | ExtendU
    | MulWideU | MulWideS | Add128 | Sub128

  datatype AluResult = Val(values: seq<Word>) | Bad(status: Status)

  function BinEval(w: Width, op: BinOp, x: Word, y: Word): (r: AluResult)
    ensures r.Val? ==> |r.values| == 1
    ensures r.Bad? ==> r.status in {TrapDivByZero, TrapIntOverflow}
  {
    var a, b := Low(w, x), Low(w, y);
    var sa, sb := Signed(w, x), Signed(w, y);
    var k := b % BitWidth(w);
    match op
    case Add => Val([Low(w, a + b)])
    case Sub => Val([Low(w, a - b)])
    case Mul => Val([Low(w, a * b)])
    case IAnd => Val([Low(w, Bitwise(And, a, b))])
    case IOr => Val([Low(w, Bitwise(Or, a, b))])
    case IXor => Val([Low(w, Bitwise(Xor, a, b))])
    case DivS =>
      if sb == 0 then Bad(TrapDivByZero)
      else if sa == -(Modulus(w) / 2) && sb == -1 then Bad(TrapIntOverflow)
      else Val([Low(w, TruncDiv(sa, sb))])
    case DivU => if b == 0 then Bad(TrapDivByZero) else Val([Low(w, a / b)])
    case RemS =>
      if sb == 0 then Bad(TrapDivByZero)
      else Val([Low(w, sa - sb * TruncDiv(sa, sb))])
    case RemU => if b == 0 then Bad(TrapDivByZero) else Val([Low(w, a % b)])
    case Shl => Val([Low(w, a * Pow2(k))])
    case ShrS => Val([Low(w, sa / Pow2(k))])
    case ShrU => Val([Low(w, a / Pow2(k))])
    case Eq => Val([Flag(a == b)])
    case Ne => Val([Flag(a != b)])
    case LtS => Val([Flag(sa < sb)])
    case LtU => Val([Flag(a < b)])
    case LeS => Val([Flag(sa <= sb)])
    case LeU => Val([Flag(a <= b)])
    case GtS => Val([Flag(sa > sb)])
    case GtU => Val([Flag(a > b)])
    case GeS => Val([Flag(sa >= sb)])
    case GeU => Val([Flag(a >= b)])
  }

  /** Number of leading zero bits of a `bits`-wide value. */
  function LeadingZeros(v: nat, bits: nat): (n: nat)
    ensures n <= bits
    decreases bits
  {
    if bits == 0 || v >= Pow2(bits - 1) then 0 else 1 + LeadingZeros(v, bits - 1)
  }

  /** Two words read as one 128-bit number, low half first. */
  function Pair(lo: Word, hi: Word): nat { lo + TWO64 * hi }

  function Split(x: int): (r: seq<Word>)
    ensures |r| == 2
  {
    [x % TWO64, (x / TWO64) % TWO64]
  }

  function AluPops(op: Alu): nat {
    match op
    case Bin(_, _) => 2
    case MulWideU | MulWideS => 2
    case Add128 | Sub128 => 4
    case _ => 1
  }

  function AluPushes(op: Alu): nat {
    match op
    case MulWideU | MulWideS | Add128 | Sub128 => 2
    case _ => 1
  }

  function AluEval(op: Alu, args: seq<Word>): (r: AluResult)
    requires |args| == AluPops(op)
    ensures r.Val? ==> |r.values| == AluPushes(op)
    ensures r.Bad? ==> r.status in {TrapDivByZero, TrapIntOverflow}
  {
    match op
    case Bin(w, o) => BinEval(w, o, args[0], args[1])
    case Eqz(w) => Val([Flag(Low(w, args[0]) == 0)])
    case Clz(w) => Val([LeadingZeros(Low(w, args[0]), BitWidth(w))])
    case Wrap => Val([Low(W32, args[0])])
    case ExtendS => Val([Low(W64, Signed(W32, args[0]))])
    case ExtendU => Val([Low(W32, args[0])])
    case MulWideU =>
      var a: int, b: int := args[0], args[1];
      Val(Split(a * b))
    case MulWideS => Val(Split(Signed(W64, args[0]) * Signed(W64, args[1])))
    case Add128 => Val(Split(Pair(args[0], args[1]) + Pair(args[2], args[3])))
    case Sub128 => Val(Split(Pair(args[0], args[1]) - Pair(args[2], args[3])))
  }
}
