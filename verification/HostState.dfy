/** What the in-kernel Soroban host computes (gpu_host.h): an object heap addressed by handles, and a ledger that maps
    canonical keys to values. Guest handles never reach the ledger: keys are built from what the handles stand for. */
module HostState {
  import opened Bits
  import opened Words
  import opened Bytecode
  import Memory
  import LinearMemory

  const OBJ_CAP: nat := 32
  const OBJ_BYTES: nat := 32
  const VEC_ELEMS: nat := 4
  const KEY_MAX: nat := 128
  const VAL_MAX: nat := 32
  const LEDGER_CAP: nat := 16

  const TAG_I128: nat := 69
  const TAG_VEC: nat := 75
  const TAG_ADDRESS: nat := 77
  const VOID: Word := 2
  const TRUE: Word := 1
  const FALSE: Word := 0

  datatype ObjRaw = Obj(tag: nat, len: nat, data: seq<Byte>, elems: seq<Word>)
  type Obj = o: ObjRaw | |o.data| == OBJ_BYTES && |o.elems| == VEC_ELEMS
    witness Obj(0, 0, seq(OBJ_BYTES, _ => 0), seq(VEC_ELEMS, _ => 0))

  type Heap = seq<Obj>
  type Key = seq<Byte>
  type Kv = map<Key, seq<Byte>>

  function MakeObj(handle: nat, tag: Byte): Word
    requires handle < TWO32
  {
    handle * TWO32 + tag
  }

  function Tag(raw: Word): Byte { raw % 256 }

  function Handle(raw: Word): nat { raw / TWO32 }

  lemma HandleRoundTrip(handle: nat, tag: Byte)
    requires handle < TWO32
    ensures Handle(MakeObj(handle, tag)) == handle && Tag(MakeObj(handle, tag)) == tag
  {
    assert handle * TWO32 + tag == 256 * (handle * (TWO32 / 256)) + tag;
  }

  function ObjGet(h: Heap, raw: Word): Option<Obj> {
    if Handle(raw) >= |h| then None else Some(h[Handle(raw)])
  }

  /** The first `OBJ_BYTES` bytes of `data`, padded with zeros. */
  function Padded(data: seq<Byte>): (r: seq<Byte>)
    ensures |r| == OBJ_BYTES
  {
    if |data| >= OBJ_BYTES then data[..OBJ_BYTES] else data + Memory.Repeated(0, OBJ_BYTES - |data|)
  }

  function NewObj(tag: Byte, len: nat, data: seq<Byte>): Obj {
    Obj(tag, len, Padded(data), seq(VEC_ELEMS, _ => 0))
  }

  /** `obj_alloc`: a full heap gives Void instead of a handle. */
  function Alloc(h: Heap, tag: Byte, len: nat, data: seq<Byte>): (Heap, Word) {
    if |h| >= OBJ_CAP then (h, VOID) else (h + [NewObj(tag, len, data)], MakeObj(|h|, tag))
  }

  // ----- canonical keys -----

  /** The public key an address stands for; a dangling handle stands for zeros. */
  function AddressOf(h: Heap, raw: Word): (pk: seq<Byte>)
    ensures |pk| == OBJ_BYTES
  {
    match ObjGet(h, raw)
    case None => Memory.Repeated(0, OBJ_BYTES)
    case Some(o) => o.data
  }

  /** What a key value stands for, with handles resolved. */
  datatype Part = Address(pk: seq<Byte>) | Plain(val: Word)

  predicate WfPart(p: Part) { p.Address? ==> |p.pk| == OBJ_BYTES }

  function Resolve(h: Heap, raw: Word): (p: Part)
    ensures WfPart(p)
  {
    if Tag(raw) == TAG_ADDRESS then Address(AddressOf(h, raw)) else Plain(raw)
  }

  function Elements(h: Heap, o: Obj): (ps: seq<Part>)
    ensures |ps| <= VEC_ELEMS && forall i :: 0 <= i < |ps| ==> WfPart(ps[i])
  {
    var n := if o.len < VEC_ELEMS then o.len else VEC_ELEMS;
    seq(n, i requires 0 <= i < n => Resolve(h, o.elems[i]))
  }

  /** The parts of a key value: the resolved elements of a vector, or the resolved value itself. */
  function Content(h: Heap, raw: Word): Option<seq<Part>> {
    if Tag(raw) == TAG_VEC then
      match ObjGet(h, raw)
      case None => None
      case Some(o) => Some(Elements(h, o))
    else Some([Resolve(h, raw)])
  }

  function PartBytes(p: Part): (r: seq<Byte>)
    requires WfPart(p)
    ensures |r| == if p.Address? then 32 else 8
  {
    if p.Address? then p.pk else Memory.Bytes(p.val, 8)
  }

  predicate WfParts(ps: seq<Part>) { forall i :: 0 <= i < |ps| ==> WfPart(ps[i]) }

  function PartsBytes(ps: seq<Part>): seq<Byte>
    requires WfParts(ps)
  {
    if ps == [] then [] else PartsBytes(ps[..|ps| - 1]) + PartBytes(ps[|ps| - 1])
  }

  /** The key blob for given contents: the storage type, then the parts; None if it does not fit. */
  function KeyOf(stype: Byte, ps: seq<Part>): Option<Key>
    requires WfParts(ps)
  {
    var key := [stype] + PartsBytes(ps);
    if |key| <= KEY_MAX then Some(key) else None
  }

  function CanonKey(h: Heap, raw: Word, stype: Byte): Option<Key> {
    match Content(h, raw)
    case None => None
    case Some(ps) => KeyOf(stype, ps)
  }

  /** As many parts, with addresses in the same places. */
  predicate SameShape(ps: seq<Part>, qs: seq<Part>) {
    |ps| == |qs| && forall i :: 0 <= i < |ps| ==> ps[i].Address? == qs[i].Address?
  }

  lemma PartInjective(p: Part, q: Part)
    requires WfPart(p) && WfPart(q) && p.Address? == q.Address? && PartBytes(p) == PartBytes(q)
    ensures p == q
  {
    hide Memory.Bytes, Pow2;
    if p.Plain? {
      Memory.Pow2Literals();
      LinearMemory.BytesRoundTrip(p.val, 8);
      LinearMemory.BytesRoundTrip(q.val, 8);
    }
  }

  lemma CancelEnd<T>(a: seq<T>, x: seq<T>, b: seq<T>, y: seq<T>)
    requires |x| == |y| && a + x == b + y
    ensures a == b && x == y
  {
    assert |a + x| == |b + y|;
    assert a == (a + x)[..|a|] && b == (b + y)[..|a|] && x == (a + x)[|a|..] && y == (b + y)[|a|..];
  }

  lemma {:induction false} PartsInjective(ps: seq<Part>, qs: seq<Part>)
    requires WfParts(ps) && WfParts(qs) && SameShape(ps, qs) && PartsBytes(ps) == PartsBytes(qs)
    ensures ps == qs
    decreases |ps|
  {
    hide PartBytes;
    if ps != [] {
      var n := |ps| - 1;
      CancelEnd(PartsBytes(ps[..n]), PartBytes(ps[n]), PartsBytes(qs[..n]), PartBytes(qs[n]));
      PartsInjective(ps[..n], qs[..n]);
      PartInjective(ps[n], qs[n]);
      assert ps == ps[..n] + [ps[n]] && qs == qs[..n] + [qs[n]];
    }
  }

  /** Canonical keys of the same shape are equal exactly when storage type and contents are, whichever heaps and handles
      they were built from. The direction from right to left is handle independence. */
  lemma CanonicalKeys(h: Heap, raw: Word, stype: Byte, h': Heap, raw': Word, stype': Byte)
    requires CanonKey(h, raw, stype).Some? && CanonKey(h', raw', stype').Some?
    requires SameShape(Content(h, raw).value, Content(h', raw').value)
    ensures CanonKey(h, raw, stype) == CanonKey(h', raw', stype') <==>
      stype == stype' && Content(h, raw) == Content(h', raw')
  {
    var ps, qs := Content(h, raw).value, Content(h', raw').value;
    var k, k' := [stype] + PartsBytes(ps), [stype'] + PartsBytes(qs);
    if k == k' {
      assert k[0] == stype && k'[0] == stype' && k[1..] == PartsBytes(ps) && k'[1..] == PartsBytes(qs);
      PartsInjective(ps, qs);
    }
  }

  /** Across shapes keys can collide: an address and four plain words with the same bytes have one key. */
  lemma ShapeMatters(stype: Byte)
    ensures var zero := Memory.Repeated(0, OBJ_BYTES);
      KeyOf(stype, [Address(zero)]) == KeyOf(stype, [Plain(0), Plain(0), Plain(0), Plain(0)])
  {
    var zero, four := [Address(Memory.Repeated(0, OBJ_BYTES))], [Plain(0), Plain(0), Plain(0), Plain(0)];
    ZeroParts(four);
    assert zero[..0] == [];
    assert PartsBytes(zero) == Memory.Repeated(0, OBJ_BYTES);
  }

  lemma {:induction false} ZeroParts(ps: seq<Part>)
    requires forall i :: 0 <= i < |ps| ==> ps[i] == Plain(0)
    ensures PartsBytes(ps) == Memory.Repeated(0, 8 * |ps|)
  {
    hide Memory.Bytes;
    if ps != [] {
      var n := |ps| - 1;
      ZeroParts(ps[..n]);
      ZeroBytes(ps[n].val, 8);
      assert Memory.Repeated(0, 8 * n) + Memory.Repeated(0, 8) == Memory.Repeated(0, 8 * |ps|);
    }
  }

  lemma {:induction false} ZeroBytes(v: nat, n: nat)
    requires v == 0
    ensures Memory.Bytes(v, n) == Memory.Repeated(0, n)
    decreases n
  {
    if n > 0 { ZeroBytes(v / 256, n - 1); }
  }

  // ----- the host functions -----

  /** A host call; `vec_new` carries the linear memory it reads. */
  datatype Call =
    | Has(key: Word, stype: Word)
    | Get(key: Word, stype: Word)
    | Put(key: Word, val: Word, stype: Word)
    | VecNew(ptr: Word, len: Word, mem: seq<Byte>)
    | FromI128(hi: Word, lo: Word)
    | I128Lo(obj: Word)
    | I128Hi(obj: Word)

  datatype State = State(heap: Heap, kv: Kv)

  /** The bytes the ledger keeps for a value: the public key of an address, or the raw word. */
  function ValBytes(h: Heap, v: Word): (r: seq<Byte>)
    ensures |r| <= VAL_MAX
  {
    if Tag(v) == TAG_ADDRESS then AddressOf(h, v) else Memory.Bytes(v, 8)
  }

  /** A put into a ledger with no free slot is dropped, unless the key is already there. */
  function PutKv(kv: Kv, key: Key, val: seq<Byte>): Kv {
    if key !in kv && |kv| >= LEDGER_CAP then kv else kv[key := val]
  }

  /** What a stored value reads as: 32 bytes come back as a fresh address object, 8 or more as a word. */
  function GetKv(st: State, key: Option<Key>): (State, Word) {
    if key.None? || key.value !in st.kv then (st, VOID)
    else
      var v := st.kv[key.value];
      if |v| == 32 then
        var (h, raw) := Alloc(st.heap, TAG_ADDRESS, 32, v);
        (st.(heap := h), raw)
      else if |v| >= 8 then (st, Memory.Load(v, 0, 8))
      else (st, VOID)
  }

  /** Element `i` of a vector read from linear memory; out of bounds it keeps what was there. */
  function ElemAt(o: Obj, n: nat, ptr: nat, mem: seq<Byte>, i: nat): Word
    requires i < VEC_ELEMS
  {
    var off := (ptr + 8 * i) % TWO32;
    if i < n && off + 8 <= |mem| then Memory.Load(mem, off, 8) else o.elems[i]
  }

  function FillVec(o: Obj, n: nat, ptr: nat, mem: seq<Byte>): Obj {
    o.(len := n, elems := seq(VEC_ELEMS, i requires 0 <= i < VEC_ELEMS => ElemAt(o, n, ptr, mem, i)))
  }

  /** `vec_new_from_linear_memory` allocates and then fills whatever object its own result resolves to. */
  function MakeVec(h: Heap, ptr: nat, n: nat, mem: seq<Byte>): (Heap, Word) {
    var (h', raw) := Alloc(h, TAG_VEC, n, []);
    if Handle(raw) < |h'| then (h'[Handle(raw) := FillVec(h'[Handle(raw)], n, ptr, mem)], raw) else (h', raw)
  }

  function I128Half(h: Heap, raw: Word, at: nat): Word
    requires at + 8 <= OBJ_BYTES
  {
    match ObjGet(h, raw)
    case None => 0
    case Some(o) => if o.tag == TAG_I128 then Memory.Load(o.data, at, 8) else 0
  }

  /** One host call: the new state and the result. */
  function Answer(st: State, c: Call): (State, Word) {
    match c
    case Has(key, stype) =>
      var k := CanonKey(st.heap, key, stype % 256);
      (st, if k.Some? && k.value in st.kv then TRUE else FALSE)
    case Get(key, stype) => GetKv(st, CanonKey(st.heap, key, stype % 256))
    case Put(key, val, stype) =>
      var k := CanonKey(st.heap, key, stype % 256);
      if k.None? then (st, VOID) else (st.(kv := PutKv(st.kv, k.value, ValBytes(st.heap, val))), VOID)
    case VecNew(ptr, len, mem) =>
      var (h, raw) := MakeVec(st.heap, ptr / TWO32, len / TWO32, mem);
      (st.(heap := h), raw)
    case FromI128(hi, lo) =>
      var (h, raw) := Alloc(st.heap, TAG_I128, 16, Memory.Bytes(lo, 8) + Memory.Bytes(hi, 8));
      (st.(heap := h), raw)
    case I128Lo(obj) => (st, I128Half(st.heap, obj, 0))
    case I128Hi(obj) => (st, I128Half(st.heap, obj, 8))
  }

  function Calls(st: State, cs: seq<Call>): State
    decreases |cs|
  {
    if cs == [] then st else Calls(Answer(st, cs[0]).0, cs[1..])
  }

  // ----- what calls keep -----

  /** The heap as the host keeps it: no more objects than it has room for. */
  predicate WfHeap(h: Heap) { |h| <= OBJ_CAP }

  /** Every call leaves every object as it is. */
  ghost predicate ObjectsSafe(st: State) { forall c: Call :: st.heap <= Answer(st, c).0.heap }

  lemma ObjectsKept(st: State, c: Call)
    requires c.VecNew? ==> |st.heap| < OBJ_CAP
    ensures st.heap <= Answer(st, c).0.heap
  {
    hide CanonKey, Memory.Load, FillVec, Memory.Bytes, NewObj;
    if c.VecNew? { HandleRoundTrip(|st.heap|, TAG_VEC); }
  }

  /** On a full heap `vec_new` gets Void back, takes it for handle 0 and rewrites object 0. So objects are safe from
      every call exactly when the heap has room. */
  lemma ObjectsSafeCondition(st: State)
    requires WfHeap(st.heap)
    ensures ObjectsSafe(st) <==> |st.heap| < 32
  {
    hide CanonKey, Memory.Load, Memory.Bytes, NewObj;
    if |st.heap| < OBJ_CAP {
      forall c: Call ensures st.heap <= Answer(st, c).0.heap { ObjectsKept(st, c); }
    } else {
      var n: nat := if st.heap[0].len == 0 then 1 else 0;
      var c := VecNew(0, n * TWO32, []);
      assert (n * TWO32) / TWO32 == n;
      assert Answer(st, c).0.heap[0].len == n;
      assert !(st.heap <= Answer(st, c).0.heap);
    }
  }

  /** `vec_new` builds a vector only while there is room for it. */
  predicate RoomFor(st: State, cs: seq<Call>)
    decreases |cs|
  {
    cs == [] || ((cs[0].VecNew? ==> |st.heap| < OBJ_CAP) && RoomFor(Answer(st, cs[0]).0, cs[1..]))
  }

  lemma {:induction false} RunKeepsObjects(st: State, cs: seq<Call>)
    requires RoomFor(st, cs)
    ensures st.heap <= Calls(st, cs).heap
    decreases |cs|
  {
    hide Answer;
    if cs != [] {
      ObjectsKept(st, cs[0]);
      RunKeepsObjects(Answer(st, cs[0]).0, cs[1..]);
    }
  }

  /** The handles in a key value are live. */
  predicate LiveKey(h: Heap, raw: Word) {
    if Tag(raw) == TAG_VEC then
      Handle(raw) < |h| && forall i :: 0 <= i < VEC_ELEMS ==> LiveAddress(h, h[Handle(raw)].elems[i])
    else LiveAddress(h, raw)
  }

  predicate LiveAddress(h: Heap, raw: Word) { Tag(raw) == TAG_ADDRESS ==> Handle(raw) < |h| }

  /** A key means the same for as long as its objects live. */
  lemma KeyStable(h: Heap, h': Heap, raw: Word, stype: Byte)
    requires h <= h' && LiveKey(h, raw)
    ensures Content(h', raw) == Content(h, raw) && CanonKey(h', raw, stype) == CanonKey(h, raw, stype)
  {
    if Tag(raw) == TAG_VEC {
      var o := h[Handle(raw)];
      forall i | 0 <= i < VEC_ELEMS
        ensures Resolve(h', o.elems[i]) == Resolve(h, o.elems[i])
      {
        assert LiveAddress(h, o.elems[i]);
      }
      assert Elements(h', o) == Elements(h, o);
    }
  }

  /** No call of the run writes to `key`. */
  predicate NoPutTo(st: State, cs: seq<Call>, key: Key)
    decreases |cs|
  {
    cs == [] ||
    ((cs[0].Put? ==> CanonKey(st.heap, cs[0].key, cs[0].stype % 256) != Some(key)) &&
     NoPutTo(Answer(st, cs[0]).0, cs[1..], key))
  }

  lemma {:induction false} RunKeepsValue(st: State, cs: seq<Call>, key: Key)
    requires key in st.kv && NoPutTo(st, cs, key)
    ensures key in Calls(st, cs).kv && Calls(st, cs).kv[key] == st.kv[key]
    decreases |cs|
  {
    hide CanonKey, Memory.Load, MakeVec, Alloc;
    if cs != [] { RunKeepsValue(Answer(st, cs[0]).0, cs[1..], key); }
  }

  /** Read your writes, over every run: after a put, and any calls that do not write the same canonical key, a get
      through any key value with that canonical key, from whatever handles, gives back what was put: the same word, or
      an address object for the same public key. */
  lemma ReadYourWrites(st: State, k: Word, v: Word, t: Word, cs: seq<Call>, k': Word, t': Word)
    requires CanonKey(st.heap, k, t % 256).Some?
    requires var key := CanonKey(st.heap, k, t % 256).value; key in st.kv || |st.kv| < 16
    requires NoPutTo(Answer(st, Put(k, v, t)).0, cs, CanonKey(st.heap, k, t % 256).value)
    requires CanonKey(Calls(Answer(st, Put(k, v, t)).0, cs).heap, k', t' % 256) == CanonKey(st.heap, k, t % 256)
    ensures var end := Calls(Answer(st, Put(k, v, t)).0, cs);
      var (after, r) := Answer(end, Get(k', t'));
      Answer(end, Has(k', t')).1 == TRUE &&
      (Tag(v) != TAG_ADDRESS || |end.heap| < 32 ==> Resolve(after.heap, r) == Resolve(st.heap, v))
  {
    hide CanonKey, Calls, Memory.Load, Memory.Bytes, NoPutTo;
    var key := CanonKey(st.heap, k, t % 256).value;
    var st1 := Answer(st, Put(k, v, t)).0;
    RunKeepsValue(st1, cs, key);
    var end := Calls(st1, cs);
    assert end.kv[key] == ValBytes(st.heap, v);
    if Tag(v) == TAG_ADDRESS {
      if |end.heap| < OBJ_CAP { HandleRoundTrip(|end.heap|, TAG_ADDRESS); }
    } else {
      WordBack(v);
    }
  }

  lemma WordBack(v: Word)
    ensures Memory.Load(Memory.Bytes(v, 8), 0, 8) == v
  {
    hide Memory.Bytes, Memory.FromBytes, Pow2;
    Memory.Pow2Literals();
    LinearMemory.BytesRoundTrip(v, 8);
    assert Memory.Bytes(v, 8)[0..8] == Memory.Bytes(v, 8);
  }

  /** The keys a run may have in the ledger. */
  function KeysUsed(st: State, cs: seq<Call>): set<Key>
    decreases |cs|
  {
    if cs == [] then st.kv.Keys
    else
      var k := if cs[0].Put? then CanonKey(st.heap, cs[0].key, cs[0].stype % 256) else None;
      (if k.Some? then {k.value} else {}) + KeysUsed(Answer(st, cs[0]).0, cs[1..])
  }

  /** The ledger as an unbounded map: every put takes effect. */
  function IdealKv(st: State, cs: seq<Call>): Kv
    decreases |cs|
  {
    if cs == [] then st.kv
    else
      var st1 := Answer(st, cs[0]).0;
      var k := if cs[0].Put? then CanonKey(st.heap, cs[0].key, cs[0].stype % 256) else None;
      if k.None? then IdealKv(st1, cs[1..])
      else IdealKv(st1.(kv := st.kv[k.value := ValBytes(st.heap, cs[0].val)]), cs[1..])
  }

  lemma {:induction false} KeysOnlyGrow(st: State, cs: seq<Call>)
    ensures st.kv.Keys <= KeysUsed(st, cs)
    decreases |cs|
  {
    hide CanonKey, Memory.Load, MakeVec, Alloc;
    if cs != [] { KeysOnlyGrow(Answer(st, cs[0]).0, cs[1..]); }
  }

  lemma SubsetSize<T>(a: set<T>, b: set<T>)
    requires a <= b
    ensures |a| <= |b|
  {
    assert b == a + (b - a);
  }

  /** Refinement over every run: while the calls use no more than 16 distinct keys, no put is dropped, and the bounded
      ledger holds exactly what an unbounded map would. */
  lemma {:induction false} LedgerIsMap(st: State, cs: seq<Call>)
    requires |KeysUsed(st, cs)| <= 16
    ensures Calls(st, cs).kv == IdealKv(st, cs)
    decreases |cs|
  {
    hide CanonKey, Memory.Load, MakeVec, Alloc, ValBytes;
    if cs != [] {
      var st1 := Answer(st, cs[0]).0;
      var k := if cs[0].Put? then CanonKey(st.heap, cs[0].key, cs[0].stype % 256) else None;
      KeysOnlyGrow(st, cs);
      KeysOnlyGrow(st1, cs[1..]);
      SubsetSize(KeysUsed(st1, cs[1..]), KeysUsed(st, cs));
      if k.Some? && k.value !in st.kv {
        SubsetSize(st.kv.Keys + {k.value}, KeysUsed(st, cs));
        assert |st.kv.Keys + {k.value}| == |st.kv.Keys| + 1;
        assert |st.kv.Keys| == |st.kv|;
      }
      LedgerIsMap(st1, cs[1..]);
    }
  }

  /** An i128 survives the heap: both halves come back, after any calls that leave objects alone. */
  lemma I128RoundTrip(st: State, hi: Word, lo: Word, cs: seq<Call>)
    requires |st.heap| < 32 && RoomFor(Answer(st, FromI128(hi, lo)).0, cs)
    ensures var (st1, raw) := Answer(st, FromI128(hi, lo));
      Answer(Calls(st1, cs), I128Lo(raw)).1 == lo && Answer(Calls(st1, cs), I128Hi(raw)).1 == hi
  {
    hide Calls, RoomFor, Memory.Load, Memory.Bytes;
    var (st1, raw) := Answer(st, FromI128(hi, lo));
    RunKeepsObjects(st1, cs);
    HandleRoundTrip(|st.heap|, TAG_I128);
    var o := Calls(st1, cs).heap[|st.heap|];
    assert o == st1.heap[|st.heap|];
    PaddedHalves(Memory.Bytes(lo, 8), Memory.Bytes(hi, 8));
    WordBack(lo);
    WordBack(hi);
  }

  lemma PaddedHalves(a: seq<Byte>, b: seq<Byte>)
    requires |a| == |b| == 8
    ensures Memory.Load(Padded(a + b), 0, 8) == Memory.Load(a, 0, 8)
    ensures Memory.Load(Padded(a + b), 8, 8) == Memory.Load(b, 0, 8)
  {
    hide Memory.FromBytes;
    assert Padded(a + b)[0..8] == a == a[0..8];
    assert Padded(a + b)[8..16] == b == b[0..8];
  }
}
