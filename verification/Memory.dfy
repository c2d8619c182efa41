/** Linear memory: little-endian access (mem.h) and overlapping moves. */
module Memory {
  import opened Bits
  import opened Words

  const WASM_PAGE: nat := 65536

  function InBounds(size: nat, ea: nat, n: nat): bool {
    n <= size && ea <= size - n
  }

  /** The simultaneous copy of `n` elements from `src` to `dst`, whatever the overlap. */
  function Moved<T>(s: seq<T>, src: nat, dst: nat, n: nat): (r: seq<T>)
    requires src + n <= |s| && dst + n <= |s|
    ensures |r| == |s|
  {
    s[..dst] + s[src..src + n] + s[dst + n..]
  }

  /** `s` with the elements `w` written from index `at` on. */
  function Written<T>(s: seq<T>, at: nat, w: seq<T>): (r: seq<T>)
    requires at + |w| <= |s|
    ensures |r| == |s|
  {
    s[..at] + w + s[at + |w|..]
  }

  function Repeated(b: Byte, n: nat): (r: seq<Byte>)
    ensures |r| == n
  {
    seq(n, _ => b)
  }

  /** The low `n` little-endian bytes of `v`. */
  function Bytes(v: nat, n: nat): (r: seq<Byte>)
    ensures |r| == n
  {
    if n == 0 then [] else [v % 256] + Bytes(v / 256, n - 1)
  }

  function FromBytes(s: seq<Byte>): (v: nat)
    ensures v < Pow2(8 * |s|)
  {
    if s == [] then 0
    else
      Pow2Bytes(|s|);
      s[0] + 256 * FromBytes(s[1..])
  }

  lemma Pow2Bytes(n: nat)
    requires n > 0
    ensures Pow2(8 * n) == 256 * Pow2(8 * (n - 1))
  {
    Pow2Add(8, 8 * (n - 1));
    assert Pow2(8) == 256 by {
      assert Pow2(4) == 16;
      Pow2Add(4, 4);
    }
  }

  lemma {:induction false} Pow2Monotone(j: nat, k: nat)
    requires j <= k
    ensures Pow2(j) <= Pow2(k)
  {
    if j < k { Pow2Monotone(j, k - 1); }
  }

  lemma Pow2Literals()
    ensures Pow2(8) == 0x100 && Pow2(16) == 0x1_0000 && Pow2(32) == TWO32 && Pow2(64) == TWO64
  {
    assert Pow2(4) == 16;
    Pow2Add(4, 4);
    Pow2Add(8, 8);
    Pow2Add(16, 16);
    Pow2Add(32, 32);
  }

  function Load(mem: seq<Byte>, ea: nat, n: nat): (v: Word)
    requires n <= 8 && ea + n <= |mem|
  {
    Pow2Literals();
    Pow2Monotone(8 * n, 64);
    FromBytes(mem[ea..ea + n])
  }

  function Store(mem: seq<Byte>, ea: nat, n: nat, v: Word): (r: seq<Byte>)
    requires ea + n <= |mem|
    ensures |r| == |mem|
  {
    Written(mem, ea, Bytes(v, n))
  }

  /** `sext64`: the low `bits` bits read as two's complement and widened to 64 bits. */
  function SignExtend(v: Word, bits: nat): Word
    requires 1 <= bits <= 64
  {
    var low := v % Pow2(bits);
    if low < Pow2(bits - 1) then low % TWO64 else (low - Pow2(bits)) % TWO64
  }
}
