/** The loops over linear memory and the stack (mem.h, interp.h): little-endian loads and stores, copies in both
    directions, fills; and what loads, stores and bulk operations promise each other. */
module LinearMemory {
  import opened Bits
  import opened Words
  import opened Bytecode
  import opened Machine
  import Memory

  /** `mem_load_le`: bytes are or-ed in at growing shifts. */
  method LoadLe(mem: array<Byte>, ea: nat, n: nat) returns (v: Word)
    requires n <= 8 && ea + n <= mem.Length
    ensures v == Memory.Load(mem[..], ea, n)
  {
    hide BitOr, Pow2;
    ghost var bs := mem[..][ea..ea + n];
    var acc: nat := 0;
    assert acc == Memory.FromBytes(bs[..0]);
    for i := 0 to n
      invariant acc == Memory.FromBytes(bs[..i])
    {
      Append(bs[..i], mem[ea + i]);
      assert bs[..i + 1] == bs[..i] + [mem[ea + i]];
      acc := BitOr(acc, mem[ea + i] * Pow2(8 * i));
    }
    assert bs[..n] == bs;
    assert acc == Memory.Load(mem[..], ea, n);
    v := acc;
  }

  /** Or-ing a byte in above `s` appends it. */
  lemma {:induction false} Append(s: seq<Byte>, b: Byte)
    ensures Memory.FromBytes(s + [b]) == BitOr(Memory.FromBytes(s), b * Pow2(8 * |s|))
  {
    OrShifted(Memory.FromBytes(s), b, 8 * |s|);
    AppendSum(s, b);
  }

  lemma {:induction false} AppendSum(s: seq<Byte>, b: Byte)
    ensures Memory.FromBytes(s + [b]) == Memory.FromBytes(s) + b * Pow2(8 * |s|)
  {
    if s == [] {
      assert s + [b] == [b];
      assert Pow2(0) == 1;
    } else {
      AppendSum(s[1..], b);
      assert (s + [b])[1..] == s[1..] + [b];
      Memory.Pow2Bytes(|s|);
      Scale(b, Pow2(8 * (|s| - 1)));
    }
  }

  lemma Scale(b: nat, p: nat)
    ensures 256 * (b * p) == b * (256 * p)
  {
  }

  /** `mem_store_le`: byte `i` is the value shifted right by `8 * i`. */
  method StoreLe(mem: array<Byte>, ea: nat, n: nat, v: Word)
    requires ea + n <= mem.Length
    modifies mem
    ensures mem[..] == Memory.Store(old(mem[..]), ea, n, v)
  {
    for i := 0 to n
      invariant forall j :: 0 <= j < i ==> mem[ea + j] == Memory.Bytes(v, n)[j]
      invariant forall j :: 0 <= j < mem.Length && !(ea <= j < ea + i) ==> mem[j] == old(mem[j])
    {
      mem[ea + i] := (v / Pow2(8 * i)) % 256;
      ByteAt(v, n, i);
    }
  }

  lemma {:induction false} ByteAt(v: nat, n: nat, i: nat)
    requires i < n
    ensures Memory.Bytes(v, n)[i] == (v / Pow2(8 * i)) % 256
    decreases n
  {
    if i == 0 {
      assert Pow2(0) == 1;
    } else {
      ByteAt(v / 256, n - 1, i - 1);
      Memory.Pow2Bytes(i);
      DivTwice(v, 256, Pow2(8 * (i - 1)));
    }
  }

  lemma DivTwice(x: nat, a: nat, b: nat)
    requires a > 0 && b > 0
    ensures a * b > 0 && (x / a) / b == x / (a * b)
  {
    var q, r := x / a, x % a;
    var t, u := q / b, q % b;
    var lo := r + a * u;
    assert x == r + a * (u + b * t);
    assert lo < a * b by {
      assert a * u <= a * (b - 1) by { MulBelow(a, u, b - 1); }
      assert a * (b - 1) == a * b - a;
    }
    assert x == lo + (a * b) * t;
    SplitDigits(lo, t, a * b);
  }

  lemma MulBelow(a: nat, u: int, b: int)
    requires u <= b
    ensures a * u <= a * b
  {
    assert a * b - a * u == a * (b - u);
    assert a * (b - u) >= 0;
  }

  /** The copy loops of memory.copy, unwind, return and return_call: forwards when the target is not above the source,
      backwards otherwise. For every overlap the result is the simultaneous copy. */
  method CopyWithin<T>(a: array<T>, src: nat, dst: nat, n: nat)
    requires src + n <= a.Length && dst + n <= a.Length
    modifies a
    ensures a[..] == Memory.Moved(old(a[..]), src, dst, n)
  {
    hide Memory.Moved;
    ghost var was := a[..];
    if dst <= src {
      for i := 0 to n
        invariant forall j :: 0 <= j < a.Length ==> a[j] == Slot(was, src, dst, dst, dst + i, j)
      {
        a[dst + i] := a[src + i];
      }
    } else {
      for i := n downto 0
        invariant forall j :: 0 <= j < a.Length ==> a[j] == Slot(was, src, dst, dst + i, dst + n, j)
      {
        a[dst + i] := a[src + i];
      }
    }
    MovedSlots(was, src, dst, n);
    assert a[..] == Memory.Moved(was, src, dst, n);
  }

  lemma MovedSlots<T>(was: seq<T>, src: nat, dst: nat, n: nat)
    requires src + n <= |was| && dst + n <= |was|
    ensures forall j :: 0 <= j < |was| ==> Memory.Moved(was, src, dst, n)[j] == Slot(was, src, dst, dst, dst + n, j)
  {
  }

  /** Slot `j` of a copy of which the slots from `lo` to `hi` have been done. */
  ghost function Slot<T>(was: seq<T>, src: nat, dst: nat, lo: nat, hi: nat, j: nat): T
    requires dst <= lo && hi - dst + src <= |was| && j < |was|
  {
    if lo <= j < hi then was[j - dst + src] else was[j]
  }

  /** The loops that write a run of given values: memory.fill and memory.init. */
  method Write<T>(a: array<T>, at: nat, w: seq<T>)
    requires at + |w| <= a.Length
    modifies a
    ensures a[..] == Memory.Written(old(a[..]), at, w)
  {
    for i := 0 to |w|
      invariant forall j :: 0 <= j < i ==> a[at + j] == w[j]
      invariant forall j :: 0 <= j < a.Length && !(at <= j < at + i) ==> a[j] == old(a[j])
    {
      a[at + i] := w[i];
    }
  }

  // ----- loads and stores -----

  lemma {:induction false} BytesRoundTrip(v: nat, n: nat)
    ensures Memory.FromBytes(Memory.Bytes(v, n)) == v % Pow2(8 * n)
    decreases n
  {
    if n == 0 {
      assert Pow2(0) == 1;
    } else {
      BytesRoundTrip(v / 256, n - 1);
      Memory.Pow2Bytes(n);
      ModDigits(v, Pow2(8 * (n - 1)));
      assert Memory.Bytes(v, n)[1..] == Memory.Bytes(v / 256, n - 1);
    }
  }

  lemma ModDigits(v: nat, p: nat)
    requires p > 0
    ensures v % (256 * p) == v % 256 + 256 * ((v / 256) % p)
  {
    var q, r := v / 256, v % 256;
    var lo := r + 256 * (q % p);
    assert q == q % p + p * (q / p);
    assert v == lo + (256 * p) * (q / p);
    SplitDigits(lo, q / p, 256 * p);
  }

  /** Load after store at the same place gives the value modulo 2^(8n); loads of other bytes see what they saw. */
  lemma LoadAfterStore(mem: seq<Byte>, ea: nat, n: nat, v: Word, ea': nat, n': nat)
    requires n <= 8 && ea + n <= |mem| && n' <= 8 && ea' + n' <= |mem|
    ensures Memory.Load(Memory.Store(mem, ea, n, v), ea, n) == v % Pow2(8 * n)
    ensures ea' + n' <= ea || ea + n <= ea' ==>
      Memory.Load(Memory.Store(mem, ea, n, v), ea', n') == Memory.Load(mem, ea', n')
  {
    hide Pow2, Memory.FromBytes, Memory.Bytes;
    BytesRoundTrip(v, n);
    WrittenSlices(mem, ea, Memory.Bytes(v, n), ea', n');
  }

  lemma WrittenSlices(mem: seq<Byte>, at: nat, w: seq<Byte>, at': nat, n': nat)
    requires at + |w| <= |mem| && at' + n' <= |mem|
    ensures Memory.Written(mem, at, w)[at..at + |w|] == w
    ensures at' + n' <= at || at + |w| <= at' ==> Memory.Written(mem, at, w)[at'..at' + n'] == mem[at'..at' + n']
  {
  }

  /** Storing back what was loaded changes nothing. */
  lemma StoreAfterLoad(mem: seq<Byte>, ea: nat, n: nat)
    requires n <= 8 && ea + n <= |mem|
    ensures Memory.Store(mem, ea, n, Memory.Load(mem, ea, n)) == mem
  {
    var bs := mem[ea..ea + n];
    FromBytesRoundTrip(bs);
    assert mem == mem[..ea] + bs + mem[ea + n..];
  }

  lemma {:induction false} FromBytesRoundTrip(bs: seq<Byte>)
    ensures Memory.Bytes(Memory.FromBytes(bs), |bs|) == bs
  {
    if bs != [] {
      FromBytesRoundTrip(bs[1..]);
      SplitDigits(bs[0], Memory.FromBytes(bs[1..]), 256);
      assert bs == [bs[0]] + bs[1..];
    }
  }

  /** `sext64` in the interpreter's own terms: shift left, reinterpret as signed, shift right arithmetically. */
  function Sext64(v: Word, bits: nat): Word
    requires 1 <= bits <= 64
  {
    var sh := 64 - bits;
    Low(W64, Signed(W64, Low(W64, v * Pow2(sh))) / Pow2(sh))
  }

  lemma ScaledMod(v: nat, p: nat, q: nat)
    requires p > 0 && q > 0
    ensures p * q > 0 && (v * p) % (p * q) == (v % q) * p
  {
    var lo := (v % q) * p;
    assert v == v % q + q * (v / q);
    assert v * p == lo + (p * q) * (v / q);
    assert lo < p * q by { MulBelow(p, v % q, q - 1); assert p * (q - 1) == p * q - p; }
    SplitDigits(lo, v / q, p * q);
  }

  lemma DivExact(x: int, p: nat)
    requires p > 0
    ensures (x * p) / p == x
  {
    SplitDigits(0, x, p);
  }

  /** The shifts compute the two's-complement reading of the low bits. */
  lemma Sext64IsSignExtend(v: Word, bits: nat)
    requires 1 <= bits <= 64
    ensures Sext64(v, bits) == Memory.SignExtend(v, bits)
  {
    hide Pow2;
    var p, q, half := Pow2(64 - bits), Pow2(bits), Pow2(bits - 1);
    Memory.Pow2Literals();
    Pow2Add(64 - bits, bits);
    Doubling(bits);
    ScaledMod(v, p, q);
    var low := v % q;
    assert Low(W64, v * p) == low * p;
    SignedScaled(low, p, q, half);
  }

  lemma Doubling(bits: nat)
    requires bits >= 1
    ensures Pow2(bits) == 2 * Pow2(bits - 1)
  {
  }

  lemma SignedScaled(low: nat, p: nat, q: nat, half: nat)
    requires p > 0 && p * q == TWO64 && q == 2 * half && low < q && low * p < TWO64
    ensures Signed(W64, low * p) / p == if low < half then low else low - q
  {
    assert 2 * (p * half) == p * q;
    if low < half {
      MulBelow(p, low, half - 1);
      assert p * (half - 1) == p * half - p;
      assert Signed(W64, low * p) == low * p;
      DivExact(low, p);
    } else {
      MulBelow(p, half, low);
      assert (low - q) * p == low * p - p * q;
      assert Signed(W64, low * p) == (low - q) * p;
      DivExact(low - q, p);
    }
  }

  /** The low `bits` bits of `v` read as a two's-complement number. */
  function SignedBits(v: nat, bits: nat): int
    requires bits >= 1
  {
    var low := v % Pow2(bits);
    if low < Pow2(bits - 1) then low else low - Pow2(bits)
  }

  /** What a load pushes after a store of `v` with the same width and address. */
  function ReadBack(v: Word, n: nat, signed: bool, wide: bool): Word
    requires 1 <= n <= 8
  {
    var x := if signed then SignedBits(v, 8 * n) else v % Pow2(8 * n);
    if wide then Low(W64, x) else if n == 8 && !signed then v else Low(W32, x)
  }

  /** OP_STORE then OP_LOAD. The store goes through exactly when the whole access lies inside the accessible memory,
      over the integers; then the load goes through too and reads the value back as flagged, no byte outside the access
      has changed, and nor has anything else. */
  lemma StoreThenLoad(s: Store, n: nat, off: nat, addr: Word, v: Word, signed: bool, wide: bool)
    ensures EvalStore(s, n, off, addr, v).Done? <==> 1 <= n <= 8 && addr % TWO32 + off + n <= s.memSize
    ensures EvalStore(s, n, off, addr, v).Done? ==>
      var s', ea := EvalStore(s, n, off, addr, v).store, addr % TWO32 + off;
      EvalLoad(s', n, signed, wide, off, addr) == Done(s', [ReadBack(v, n, signed, wide)]) &&
      s' == s.(mem := s'.mem) && |s'.mem| == |s.mem| &&
      forall j :: 0 <= j < |s.mem| && !(ea <= j < ea + n) ==> s'.mem[j] == s.mem[j]
  {
    hide Pow2, Memory.Bytes;
    if EvalStore(s, n, off, addr, v).Done? {
      var ea := addr % TWO32 + off;
      LoadAfterStore(s.mem, ea, n, v, ea, n);
      LoadedValue(v, n, signed, wide);
    }
  }

  lemma LoadedValue(v: Word, n: nat, signed: bool, wide: bool)
    requires 1 <= n <= 8
    ensures v % Pow2(8 * n) < TWO64
    ensures LoadValue(v % Pow2(8 * n), n, signed, wide) == ReadBack(v, n, signed, wide)
  {
    hide Pow2, Memory.SignExtend, SignedBits;
    Memory.Pow2Literals();
    Memory.Pow2Monotone(8 * n, 64);
    var bits := 8 * n;
    var low := v % Pow2(bits);
    ModBelow(v, Pow2(bits));
    if signed {
      SignExtendLow(v, bits, low);
      LowLow(SignedBits(v, bits));
    } else if n == 8 {
      assert low == v;
    }
  }

  lemma ModBelow(v: nat, p: nat)
    requires p > 0
    ensures 0 <= v % p < p && (v % p) % p == v % p
  {
    SplitDigits(v % p, 0, p);
  }

  lemma SignExtendLow(v: Word, bits: nat, low: Word)
    requires 1 <= bits <= 64 && low == v % Pow2(bits)
    ensures Memory.SignExtend(low, bits) == Low(W64, SignedBits(v, bits))
  {
    hide Pow2;
    ModBelow(v, Pow2(bits));
  }

  lemma LowLow(x: int)
    ensures Low(W32, Low(W64, x)) == Low(W32, x)
  {
    var q, r := x / TWO64, x % TWO64;
    SplitDigits(r % TWO32, r / TWO32 + TWO32 * q, TWO32);
  }

  // ----- all or nothing -----

  lemma StoreKept(segments: seq<seq<Byte>>, p: Plain, s: Store, args: seq<Word>)
    requires |args| == Pops(p) && Pushes(p) > Pops(p)
    ensures Eval(segments, p, s, args).Done? ==> Eval(segments, p, s, args).store == s
  {
    hide AluEval;
  }

  /** A step that stops the machine, at a trap, a limit, a suspension or the end of the run, changes no byte of memory,
      no global, no segment flag and not the memory size: bulk operations are all or nothing. */
  lemma StoppingStepKeepsStore(m: Module, vm: Vm)
    requires vm.status == Running && Step(m, vm).status != Running
    ensures Step(m, vm).store == vm.store
  {
    hide Eval, Memory.Moved, Memory.Written;
    if vm.pc < |m.code| {
      var op, v := m.code[vm.pc], vm.(pc := vm.pc + 1);
      if op.Simple? {
        StoppingSimple(m, v, op.p);
      } else {
        ControlKeepsStore(m, v, op);
      }
    }
  }

  lemma ControlKeepsStore(m: Module, vm: Vm, op: CuOp)
    requires !op.Simple?
    ensures Exec(m, op, vm).store == vm.store
  {
    hide Memory.Moved, Memory.Written;
  }

  lemma StoppingSimple(m: Module, vm: Vm, p: Plain)
    requires vm.status == Running && StepSimple(m, vm, p).status != Running
    ensures StepSimple(m, vm, p).store == vm.store
  {
    hide Eval, Memory.Written;
    var n := Pops(p);
    if vm.sp >= n && Pushes(p) > Pops(p) { StoreKept(m.segments, p, vm.store, vm.stack[vm.sp - n..vm.sp]); }
  }
}
