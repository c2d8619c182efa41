/** What the host calls mean, said on bytes, handles and keys: the layout of canonical keys, vectors read from linear
    memory, and over every run what `has` and `get` find. */
module HostLaws {
  import opened Bits
  import opened Words
  import opened Bytecode
  import opened HostState
  import opened Instructions
  import Memory
  import LinearMemory

  // ----- canonical keys, byte by byte -----

  /** The raw values a key value is made of: the first four elements of a vector, or the value itself. */
  function Values(h: Heap, raw: Word): Option<seq<Word>> {
    if raw % 256 != 75 then Some([raw])
    else if raw / 0x1_0000_0000 >= |h| then None
    else
      var o := h[raw / 0x1_0000_0000];
      Some(o.elems[..if o.len < 4 then o.len else 4])
  }

  /** An address takes 32 bytes of a key, anything else 8. */
  function Span(e: Word): nat { if e % 256 == 77 then 32 else 8 }

  /** Where value `i` starts in the key, behind the storage type. */
  function Offset(es: seq<Word>, i: nat): nat
    requires i <= |es|
  {
    if i == 0 then 1 else Offset(es, i - 1) + Span(es[i - 1])
  }

  /** Byte `b` of a value: of the public key of an address, zero if the address dangles, or of the word, lowest
      first. */
  function ByteOf(h: Heap, e: Word, b: nat): int
    requires b < Span(e)
  {
    if e % 256 != 77 then (e / Pow2(8 * b)) % 256
    else if e / 0x1_0000_0000 < |h| then h[e / 0x1_0000_0000].data[b]
    else 0
  }

  lemma PartLayout(h: Heap, e: Word, b: nat)
    requires b < Span(e)
    ensures |PartBytes(Resolve(h, e))| == Span(e) && PartBytes(Resolve(h, e))[b] == ByteOf(h, e, b)
  {
    hide Pow2;
    if e % 256 != 77 { LinearMemory.ByteAt(e, 8, b); }
  }

  function Resolved(h: Heap, es: seq<Word>): (ps: seq<Part>)
    ensures WfParts(ps)
  {
    seq(|es|, i requires 0 <= i < |es| => Resolve(h, es[i]))
  }

  lemma {:induction false} PartsLayout(h: Heap, es: seq<Word>, i: nat, b: nat)
    ensures 1 + |PartsBytes(Resolved(h, es))| == Offset(es, |es|)
    ensures i < |es| && b < Span(es[i]) ==>
      Offset(es, i) + b < Offset(es, |es|) &&
      ([0] + PartsBytes(Resolved(h, es)))[Offset(es, i) + b] == ByteOf(h, es[i], b)
    decreases |es|
  {
    hide PartBytes, ByteOf, Resolve, Span;
    if es != [] {
      var n := |es| - 1;
      var t, e := es[..n], es[n];
      assert Resolved(h, es)[..n] == Resolved(h, t);
      PartsLayout(h, t, i, b);
      SameOffsets(es, n, n);
      assert |PartBytes(Resolve(h, e))| == Span(e) by { SpanOf(h, e); }
      var key := [0] + PartsBytes(Resolved(h, es));
      assert key == ([0] + PartsBytes(Resolved(h, t))) + PartBytes(Resolve(h, e));
      if i < n {
        SameOffsets(es, n, i);
      } else if i == n && b < Span(e) {
        PartLayout(h, e, b);
      }
    }
  }

  lemma SpanOf(h: Heap, e: Word)
    ensures |PartBytes(Resolve(h, e))| == Span(e)
  {
  }

  lemma {:induction false} SameOffsets(es: seq<Word>, n: nat, i: nat)
    requires i <= n <= |es|
    ensures Offset(es[..n], i) == Offset(es, i)
    decreases i
  {
    if i > 0 { SameOffsets(es, n, i - 1); }
  }

  lemma ContentIs(h: Heap, raw: Word)
    ensures Content(h, raw) ==
      match Values(h, raw)
      case None => None
      case Some(es) => Some(Resolved(h, es))
  {
    if raw % 256 == 75 {
      if raw / 0x1_0000_0000 < |h| {
        assert Elements(h, h[raw / 0x1_0000_0000]) == Resolved(h, Values(h, raw).value);
      }
    } else {
      assert Resolved(h, [raw]) == [Resolve(h, raw)];
    }
  }

  /** The canonical key, byte by byte. There is one exactly when the vector handle is live and the key has at most 128
      bytes: the storage type, then the values one after the other. */
  lemma KeyLayout(h: Heap, raw: Word, stype: Byte, i: nat, b: nat)
    ensures var key, es := CanonKey(h, raw, stype), Values(h, raw);
      (key.Some? <==> es.Some? && Offset(es.value, |es.value|) <= 128) &&
      (key.Some? ==>
         |key.value| == Offset(es.value, |es.value|) && key.value[0] == stype &&
         (i < |es.value| && b < Span(es.value[i]) ==>
            Offset(es.value, i) + b < |key.value| &&
            key.value[Offset(es.value, i) + b] == ByteOf(h, es.value[i], b)))
  {
    hide Resolved, PartsBytes, ByteOf, Span, Values, Offset;
    ContentIs(h, raw);
    var es := Values(h, raw);
    if es.Some? {
      PartsLayout(h, es.value, i, b);
      FirstOffset(es.value, i);
    }
  }

  lemma {:induction false} FirstOffset(es: seq<Word>, i: nat)
    ensures i <= |es| ==> Offset(es, i) >= 1
  {
    if 0 < i <= |es| { FirstOffset(es, i - 1); }
  }

  // ----- vectors -----

  /** Element `i` of a new vector of length `n`, given linear memory: the eight bytes at pointer + 8 * i, lowest first,
      or 0 where there is no such element or no such bytes. */
  ghost predicate ReadElement(mem: seq<Byte>, p: nat, n: nat, i: nat, e: Word) {
    var at := (p + 8 * i) % 0x1_0000_0000;
    if i < n && at + 8 <= |mem| then LittleEndian(mem, at, 8, e) else e == 0
  }

  /** `vec_new_from_linear_memory` with room in the heap: a handle to a new last object, which is the vector of the
      words in memory. Pointer and length are the high halves of the arguments. */
  lemma VecNewLaw(st: State, ptr: Word, len: Word, mem: seq<Byte>)
    requires |st.heap| < 32
    ensures var (st', raw) := Answer(st, VecNew(ptr, len, mem));
      st'.kv == st.kv && raw == |st.heap| * 0x1_0000_0000 + 75 && |st'.heap| == |st.heap| + 1 &&
      st'.heap[..|st.heap|] == st.heap &&
      var o := st'.heap[|st.heap|];
      o.tag == 75 && o.len == len / 0x1_0000_0000 && (forall b :: 0 <= b < 32 ==> o.data[b] == 0) &&
      forall i :: 0 <= i < 4 ==> ReadElement(mem, ptr / 0x1_0000_0000, o.len, i, o.elems[i])
  {
    hide LittleEndian, Memory.Load;
    HandleRoundTrip(|st.heap|, 75);
    var p, n := ptr / 0x1_0000_0000, len / 0x1_0000_0000;
    forall i | 0 <= i < 4
      ensures ReadElement(mem, p, n, i, ElemAt(NewObj(75, n, []), n, p, mem, i))
    {
      var at := (p + 8 * i) % 0x1_0000_0000;
      if at + 8 <= |mem| { LoadedBytes(mem, at, 8); }
    }
  }

  /** On a full heap the same call answers Void and fills object 0, whatever that is. */
  lemma VecNewFullLaw(st: State, ptr: Word, len: Word, mem: seq<Byte>)
    requires |st.heap| == 32
    ensures var (st', raw) := Answer(st, VecNew(ptr, len, mem));
      st'.kv == st.kv && raw == 2 && |st'.heap| == 32 && st'.heap[1..] == st.heap[1..] &&
      var o, o' := st.heap[0], st'.heap[0];
      o'.tag == o.tag && o'.data == o.data && o'.len == len / 0x1_0000_0000 &&
      forall i :: 0 <= i < 4 ==>
        var at := (ptr / 0x1_0000_0000 + 8 * i) % 0x1_0000_0000;
        if i < o'.len && at + 8 <= |mem| then LittleEndian(mem, at, 8, o'.elems[i]) else o'.elems[i] == o.elems[i]
  {
    hide LittleEndian, Memory.Load;
    var p, n, o := ptr / 0x1_0000_0000, len / 0x1_0000_0000, st.heap[0];
    forall i | 0 <= i < 4
      ensures var at, e := (p + 8 * i) % 0x1_0000_0000, ElemAt(o, n, p, mem, i);
        if i < n && at + 8 <= |mem| then LittleEndian(mem, at, 8, e) else e == o.elems[i]
    {
      var at := (p + 8 * i) % 0x1_0000_0000;
      if at + 8 <= |mem| { LoadedBytes(mem, at, 8); }
    }
  }

  lemma BytesInMemory(mem: seq<Byte>, at: nat, v: Word)
    requires at + 8 <= |mem| && LittleEndian(mem, at, 8, v)
    ensures Memory.Bytes(v, 8) == mem[at..at + 8]
  {
    hide Pow2, Memory.Bytes;
    forall i | 0 <= i < 8
      ensures Memory.Bytes(v, 8)[i] == mem[at + i]
    {
      LinearMemory.ByteAt(v, 8, i);
    }
  }

  /** Two words in the same bytes are one. */
  lemma OneWord(mem: seq<Byte>, at: nat, v: Word, w: Word)
    requires at + 8 <= |mem| && LittleEndian(mem, at, 8, v) && LittleEndian(mem, at, 8, w)
    ensures v == w
  {
    hide Pow2, LittleEndian, Memory.Bytes, Memory.FromBytes;
    Memory.Pow2Literals();
    BytesInMemory(mem, at, v);
    BytesInMemory(mem, at, w);
    LinearMemory.BytesRoundTrip(v, 8);
    LinearMemory.BytesRoundTrip(w, 8);
  }

  /** A vector built from up to four words that lie in memory one after the other is made of exactly those words; used
      as a key it stands for them, with addresses resolved. */
  lemma VecOfWords(st: State, ptr: Word, len: Word, mem: seq<Byte>, ws: seq<Word>)
    requires |st.heap| < 32 && len / 0x1_0000_0000 == |ws| <= 4
    requires ptr / 0x1_0000_0000 + 8 * |ws| <= |mem| < 0x1_0000_0000
    requires forall i :: 0 <= i < |ws| ==> LittleEndian(mem, ptr / 0x1_0000_0000 + 8 * i, 8, ws[i])
    ensures var (st', raw) := Answer(st, VecNew(ptr, len, mem));
      Values(st'.heap, raw) == Some(ws) && Content(st'.heap, raw) == Some(Resolved(st'.heap, ws))
  {
    hide LittleEndian, Answer, Content;
    VecNewLaw(st, ptr, len, mem);
    var (st', raw) := Answer(st, VecNew(ptr, len, mem));
    var h, p := |st.heap|, ptr / 0x1_0000_0000;
    var o := st'.heap[h];
    assert raw % 256 == 75 && raw / 0x1_0000_0000 == h by { HandleRoundTrip(h, 75); }
    forall i | 0 <= i < |ws|
      ensures o.elems[i] == ws[i]
    {
      assert ReadElement(mem, p, o.len, i, o.elems[i]);
      OneWord(mem, p + 8 * i, o.elems[i], ws[i]);
    }
    assert o.elems[..|ws|] == ws;
    ContentIs(st'.heap, raw);
  }

  // ----- the ledger -----

  /** Some call of the run puts to `key` while the ledger has room for a new key. */
  predicate EverPut(st: State, cs: seq<Call>, key: Key)
    decreases |cs|
  {
    cs != [] &&
    ((cs[0].Put? && CanonKey(st.heap, cs[0].key, cs[0].stype % 256) == Some(key) && |st.kv| < 16) ||
     EverPut(Answer(st, cs[0]).0, cs[1..], key))
  }

  /** What one call does to the ledger: only a put touches it, and only its own key; a new key needs one of the 16
      slots. */
  lemma PutLaw(st: State, c: Call, key: Key)
    ensures var kv := Answer(st, c).0.kv;
      var mine := c.Put? && CanonKey(st.heap, c.key, c.stype % 256) == Some(key) && (key in st.kv || |st.kv| < 16);
      (key in kv <==> key in st.kv || mine) && (c.Put? ==> Answer(st, c) == (State(st.heap, kv), 2)) &&
      (!mine && key in st.kv ==> kv[key] == st.kv[key]) &&
      (mine ==>
         |kv[key]| == Span(c.val) && forall b :: 0 <= b < |kv[key]| ==> kv[key][b] == ByteOf(st.heap, c.val, b))
  {
    hide CanonKey, MakeVec, Alloc, Memory.Load, Memory.Bytes, ByteOf;
    if c.Put? {
      var bytes := ValBytes(st.heap, c.val);
      assert bytes == PartBytes(Resolve(st.heap, c.val));
      SpanOf(st.heap, c.val);
      forall b | 0 <= b < |bytes|
        ensures bytes[b] == ByteOf(st.heap, c.val, b)
      {
        PartLayout(st.heap, c.val, b);
      }
    }
  }

  /** Over every run, a key is in the ledger exactly when it was there or has been put while there was room. */
  lemma {:induction false} KeyCondition(st: State, cs: seq<Call>, key: Key)
    ensures key in Calls(st, cs).kv <==> key in st.kv || EverPut(st, cs, key)
    decreases |cs|
  {
    hide Answer, CanonKey;
    if cs != [] {
      PutLaw(st, cs[0], key);
      KeyCondition(Answer(st, cs[0]).0, cs[1..], key);
    }
  }

  /** Over every run, `has` answers 1 exactly for the keys that were put, else 0, and `get` answers Void for the others;
      neither changes anything then. */
  lemma HasCondition(st: State, cs: seq<Call>, k: Word, t: Word)
    ensures var end := Calls(st, cs);
      var key := CanonKey(end.heap, k, t % 256);
      var there := key.Some? && (key.value in st.kv || EverPut(st, cs, key.value));
      Answer(end, Has(k, t)) == (end, if there then 1 else 0) && (!there ==> Answer(end, Get(k, t)) == (end, 2))
  {
    hide Calls, CanonKey, EverPut;
    var end := Calls(st, cs);
    var key := CanonKey(end.heap, k, t % 256);
    if key.Some? { KeyCondition(st, cs, key.value); }
  }

  /** What `get` reads off a value in the ledger: 32 bytes come back as a new address object, or Void on a full heap;
      of other values, the word in the first eight bytes. */
  lemma GetLaw(st: State, k: Word, t: Word)
    requires CanonKey(st.heap, k, t % 256).Some? && CanonKey(st.heap, k, t % 256).value in st.kv
    ensures var (st', r) := Answer(st, Get(k, t));
      var v := st.kv[CanonKey(st.heap, k, t % 256).value];
      st'.kv == st.kv &&
      if |v| == 32 && |st.heap| < 32 then
        r == |st.heap| * 0x1_0000_0000 + 77 && |st'.heap| == |st.heap| + 1 && st'.heap[..|st.heap|] == st.heap &&
        st'.heap[|st.heap|].tag == 77 && st'.heap[|st.heap|].data == v
      else st' == st && if |v| == 32 || |v| < 8 then r == 2 else LittleEndian(v, 0, 8, r)
  {
    hide CanonKey, Memory.Load, LittleEndian;
    var v := st.kv[CanonKey(st.heap, k, t % 256).value];
    if |v| >= 8 { LoadedBytes(v, 0, 8); }
  }

  /** An i128 object holds its halves low first; anything that is no live i128 reads as 0; a full heap gives Void. */
  lemma I128Law(st: State, hi: Word, lo: Word, raw: Word)
    ensures |st.heap| >= 32 ==> Answer(st, FromI128(hi, lo)) == (st, 2)
    ensures |st.heap| < 32 ==>
      var (st', r) := Answer(st, FromI128(hi, lo));
      st'.kv == st.kv && r == |st.heap| * 0x1_0000_0000 + 69 && |st'.heap| == |st.heap| + 1 &&
      st'.heap[..|st.heap|] == st.heap &&
      var o := st'.heap[|st.heap|];
      o.tag == 69 && LittleEndian(o.data, 0, 8, lo) && LittleEndian(o.data, 8, 8, hi)
    ensures var h := raw / 0x1_0000_0000;
      if h < |st.heap| && st.heap[h].tag == 69 then
        exists l: Word, u: Word ::
          LittleEndian(st.heap[h].data, 0, 8, l) && LittleEndian(st.heap[h].data, 8, 8, u) &&
          Answer(st, I128Lo(raw)) == (st, l) && Answer(st, I128Hi(raw)) == (st, u)
      else Answer(st, I128Lo(raw)) == (st, 0) && Answer(st, I128Hi(raw)) == (st, 0)
  {
    hide LittleEndian, Memory.Load, Memory.Bytes;
    var h := raw / 0x1_0000_0000;
    if h < |st.heap| {
      LoadedBytes(st.heap[h].data, 0, 8);
      LoadedBytes(st.heap[h].data, 8, 8);
    }
    if |st.heap| < 32 {
      var o := Answer(st, FromI128(hi, lo)).0.heap[|st.heap|];
      PaddedHalves(Memory.Bytes(lo, 8), Memory.Bytes(hi, 8));
      WordBack(lo);
      WordBack(hi);
      LoadedBytes(o.data, 0, 8);
      LoadedBytes(o.data, 8, 8);
    }
  }
}
