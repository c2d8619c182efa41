/** Structural type identity packed into 64 bits (`type_fingerprint`). */
module Fingerprint {
  import opened Bits
  import opened Words
  import opened Wasm
  import opened Bytecode
  import Memory

  function Tag(t: ValType): nat {
    match t
    case I32 => 0
    case I64 => 1
    case F32 => 2
    case F64 => 3
  }

  /** Two bits per value type, first type lowest. */
  function Pack(ts: seq<ValType>): (v: nat)
    ensures v < Pow2(2 * |ts|)
  {
    if ts == [] then 0 else Tag(ts[0]) + 4 * Pack(ts[1..])
  }

  /** Parameter count, result count, parameter tags from bit 16 and result tags from bit 32. */
  function Fp(sig: Sig): nat {
    |sig.params| + 256 * |sig.results| + 65536 * Pack(sig.params) + TWO32 * Pack(sig.results)
  }

  predicate Fits(sig: Sig) { |sig.params| <= 8 && |sig.results| <= 8 }

  lemma {:induction false} PackSnoc(ts: seq<ValType>, t: ValType)
    ensures Pack(ts + [t]) == Pack(ts) + Tag(t) * Pow2(2 * |ts|)
    decreases |ts|
  {
    if ts == [] {
      assert (ts + [t])[1..] == [];
    } else {
      assert (ts + [t])[1..] == ts[1..] + [t];
      PackSnoc(ts[1..], t);
      FourTimes(|ts|);
      hide Pow2, Tag;
      Quadruple(Tag(t), Pow2(2 * (|ts| - 1)));
    }
  }

  lemma {:induction false} FourTimes(n: nat)
    requires n > 0
    ensures Pow2(2 * n) == 4 * Pow2(2 * (n - 1))
  {
    hide Pow2;
    var k := 2 * (n - 1);
    Pow2Next(k);
    Pow2Next(k + 1);
    assert k + 1 + 1 == 2 * n;
  }

  lemma Quadruple(x: nat, p: nat)
    ensures 4 * (x * p) == x * (4 * p)
  {
  }

  lemma {:induction false} PackInjective(a: seq<ValType>, b: seq<ValType>)
    requires |a| == |b| && Pack(a) == Pack(b)
    ensures a == b
    decreases |a|
  {
    if a != [] {
      assert Tag(a[0]) == Tag(b[0]) && Pack(a[1..]) == Pack(b[1..]);
      PackInjective(a[1..], b[1..]);
      assert a == [a[0]] + a[1..] && b == [b[0]] + b[1..];
    }
  }

  lemma PackBound(ts: seq<ValType>)
    requires |ts| <= 8
    ensures Pack(ts) < 65536
  {
    Memory.Pow2Literals();
    Memory.Pow2Monotone(2 * |ts|, 16);
  }

  /** The arity the verifier decodes from a fingerprint is the arity of the type. */
  lemma FpArity(sig: Sig)
    requires |sig.params| <= 8 && |sig.results| <= 8
    ensures Fp(sig) % 256 == |sig.params| && (Fp(sig) / 256) % 256 == |sig.results|
    ensures (Fp(sig) / 65536) % 65536 == Pack(sig.params) && Fp(sig) / TWO32 == Pack(sig.results) && Fp(sig) < TWO64
  {
    hide Pack;
    PackBound(sig.params);
    PackBound(sig.results);
    FourDigits(|sig.params|, |sig.results|, Pack(sig.params), Pack(sig.results));
  }

  /** A number written with two digits of 8 bits and two of 16 has these digits. */
  lemma FourDigits(np: nat, nr: nat, a: nat, b: nat)
    requires np < 256 && nr < 256 && a < 65536 && b < 65536
    ensures var v := np + 256 * nr + 65536 * a + TWO32 * b;
      v % 256 == np && (v / 256) % 256 == nr && (v / 65536) % 65536 == a && v / TWO32 == b && v < TWO64
  {
    var v := np + 256 * nr + 65536 * a + TWO32 * b;
    SplitDigits(np, nr + 256 * (a + 65536 * b), 256);
    SplitDigits(nr, a + 65536 * b, 256);
    SplitDigits(np + 256 * nr, a + 65536 * b, 65536);
    SplitDigits(a, b, 65536);
    SplitDigits(np + 256 * nr + 65536 * a, b, TWO32);
  }

  /** Fingerprints are equal exactly when the signatures are. */
  lemma FpInjective(a: Sig, b: Sig)
    requires |a.params| <= 8 && |a.results| <= 8 && |b.params| <= 8 && |b.results| <= 8
    ensures Fp(a) == Fp(b) <==> a == b
  {
    FpArity(a);
    FpArity(b);
    if Fp(a) == Fp(b) {
      PackInjective(a.params, b.params);
      PackInjective(a.results, b.results);
    }
  }

  lemma NoTags()
    ensures Pack([]) == 0
  {
  }

  /** `type_fingerprint`: or the tags into place, two bits at a time. */
  method TypeFingerprint(sig: Sig) returns (r: Option<nat>)
    ensures r == if |sig.params| <= 8 && |sig.results| <= 8 then Some(Fp(sig)) else None
  {
    hide Pow2, BitOr, Pack, Tag;
    if |sig.params| > 8 || |sig.results| > 8 {
      return None;
    }
    NoTags();
    Memory.Pow2Literals();
    OrShifted(|sig.params|, |sig.results|, 8);
    var fp := BitOr(|sig.params|, |sig.results| * Pow2(8));
    assert sig.params[..0] == [] && sig.results[..0] == [];
    for i := 0 to |sig.params|
      invariant fp == |sig.params| + 256 * |sig.results| + Pow2(16) * Pack(sig.params[..i])
    {
      OrTag(fp, |sig.params| + 256 * |sig.results|, sig.params, i, 16);
      fp := BitOr(fp, Tag(sig.params[i]) * Pow2(16 + 2 * i));
    }
    assert sig.params[..|sig.params|] == sig.params;
    PackBound(sig.params);
    ghost var low := fp;
    for i := 0 to |sig.results|
      invariant fp == low + Pow2(32) * Pack(sig.results[..i])
    {
      OrTag(fp, low, sig.results, i, 32);
      fp := BitOr(fp, Tag(sig.results[i]) * Pow2(32 + 2 * i));
    }
    assert sig.results[..|sig.results|] == sig.results;
    r := Some(fp);
  }

  /** One step of either loop: the next tag lands above every bit set so far. */
  lemma OrTag(fp: nat, low: nat, ts: seq<ValType>, i: nat, shift: nat)
    requires i < |ts| <= 8 && low < Pow2(shift) && fp == low + Pow2(shift) * Pack(ts[..i])
    ensures BitOr(fp, Tag(ts[i]) * Pow2(shift + 2 * i)) == low + Pow2(shift) * Pack(ts[..i + 1])
  {
    hide Pow2, BitOr, Pack, Tag;
    var p, q, x, t := Pow2(shift), Pow2(2 * i), Pack(ts[..i]), Tag(ts[i]);
    Pow2Add(shift, 2 * i);
    Fill(low, p, x, q);
    OrShifted(fp, t, shift + 2 * i);
    assert ts[..i + 1] == ts[..i] + [ts[i]];
    PackSnoc(ts[..i], ts[i]);
    Shuffle(p, q, x, t);
  }

  lemma Fill(low: nat, p: nat, x: nat, q: nat)
    requires low < p && x < q
    ensures low + p * x < p * q
  {
    assert p * q == p * x + p + p * (q - x - 1);
  }

  lemma Shuffle(p: nat, q: nat, x: nat, t: nat)
    ensures p * x + t * (p * q) == p * (x + t * q)
  {
    assert t * (p * q) == p * (t * q);
  }
}
