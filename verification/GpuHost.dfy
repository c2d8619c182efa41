/** The host state as it is kept (gpu_host.h): an object array with a counter, and parallel arrays of key rows, key
    lengths, value rows and value lengths searched byte by byte. Every method is proved to do to these arrays what
    module HostState says about heaps and maps. */
module GpuHost {
  import opened Words
  import opened Bytecode
  import opened HostState
  import Memory
  import LinearMemory

  // ----- parallel arrays as a map -----

  ghost function Table(ks: seq<Key>, vs: seq<seq<Byte>>): Kv
    requires |ks| == |vs|
  {
    if ks == [] then map[]
    else
      var n := |ks| - 1;
      Table(ks[..n], vs[..n])[ks[n] := vs[n]]
  }

  ghost predicate AllDistinct(ks: seq<Key>) {
    forall i, j :: 0 <= i < j < |ks| ==> ks[i] != ks[j]
  }

  lemma {:induction false} TableKeys(ks: seq<Key>, vs: seq<seq<Byte>>)
    requires |ks| == |vs|
    ensures forall k :: k in Table(ks, vs) <==> k in ks
  {
    if ks != [] {
      var n := |ks| - 1;
      TableKeys(ks[..n], vs[..n]);
      assert ks == ks[..n] + [ks[n]];
    }
  }

  lemma {:induction false} TableSize(ks: seq<Key>, vs: seq<seq<Byte>>)
    requires |ks| == |vs| && AllDistinct(ks)
    ensures |Table(ks, vs)| == |ks|
  {
    if ks != [] {
      var n := |ks| - 1;
      TableSize(ks[..n], vs[..n]);
      TableKeys(ks[..n], vs[..n]);
      var t := Table(ks[..n], vs[..n]);
      assert ks[n] !in ks[..n];
      assert t[ks[n] := vs[n]].Keys == t.Keys + {ks[n]};
      assert |t[ks[n] := vs[n]].Keys| == |t.Keys| + 1;
      assert |t.Keys| == |t| && |t[ks[n] := vs[n]].Keys| == |t[ks[n] := vs[n]]|;
    }
  }

  lemma {:induction false} TableAt(ks: seq<Key>, vs: seq<seq<Byte>>, i: nat)
    requires |ks| == |vs| && AllDistinct(ks) && i < |ks|
    ensures ks[i] in Table(ks, vs) && Table(ks, vs)[ks[i]] == vs[i]
    decreases |ks|
  {
    var n := |ks| - 1;
    if i < n { TableAt(ks[..n], vs[..n], i); }
  }

  lemma {:induction false} TableUpdate(ks: seq<Key>, vs: seq<seq<Byte>>, i: nat, v: seq<Byte>)
    requires |ks| == |vs| && AllDistinct(ks) && i < |ks|
    ensures Table(ks, vs[i := v]) == Table(ks, vs)[ks[i] := v]
    decreases |ks|
  {
    var n := |ks| - 1;
    if i < n {
      TableUpdate(ks[..n], vs[..n], i, v);
      assert vs[i := v][..n] == vs[..n][i := v];
    } else {
      assert vs[i := v][..n] == vs[..n];
    }
  }

  lemma TableAppend(ks: seq<Key>, vs: seq<seq<Byte>>, k: Key, v: seq<Byte>)
    requires |ks| == |vs|
    ensures Table(ks + [k], vs + [v]) == Table(ks, vs)[k := v]
  {
    assert (ks + [k])[..|ks|] == ks && (vs + [v])[..|ks|] == vs;
  }

  // ----- the ledger arrays -----

  ghost function Prefixes(rows: seq<seq<Byte>>, lens: seq<nat>): (ps: seq<seq<Byte>>)
    requires |rows| == |lens| && forall i :: 0 <= i < |rows| ==> lens[i] <= |rows[i]|
    ensures |ps| == |rows| && forall i :: 0 <= i < |rows| ==> ps[i] == rows[i][..lens[i]]
  {
    seq(|rows|, i requires 0 <= i < |rows| => rows[i][..lens[i]])
  }

  /** Copy `data` over the front of row `idx`, byte by byte. */
  method WriteRow(rows: array<seq<Byte>>, idx: nat, data: seq<Byte>)
    requires idx < rows.Length && |data| <= |rows[idx]|
    modifies rows
    ensures |rows[idx]| == |old(rows[idx])| && rows[idx][..|data|] == data
    ensures forall j :: 0 <= j < rows.Length && j != idx ==> rows[j] == old(rows[j])
  {
    var b := 0;
    while b < |data|
      invariant b <= |data| && |rows[idx]| == |old(rows[idx])| && rows[idx][..b] == data[..b]
      invariant forall j :: 0 <= j < rows.Length && j != idx ==> rows[j] == old(rows[j])
    {
      rows[idx] := rows[idx][b := data[b]];
      b := b + 1;
    }
    assert data[..b] == data;
  }

  class Storage {
    const keys: array<seq<Byte>>     // rows of KEY_MAX bytes
    const keyLens: array<nat>
    const values: array<seq<Byte>>   // rows of VAL_MAX bytes
    const valLens: array<nat>
    var count: nat

    /** Rows and lengths have their fixed sizes. */
    ghost predicate Shaped()
      reads this, keys, keyLens, values, valLens
    {
      && keys.Length == keyLens.Length == values.Length == valLens.Length == LEDGER_CAP && count <= LEDGER_CAP
      && keys != values && keyLens != valLens
      && (forall i :: 0 <= i < LEDGER_CAP ==> |keys[i]| == KEY_MAX && |values[i]| == VAL_MAX)
      && (forall i :: 0 <= i < LEDGER_CAP ==> keyLens[i] <= KEY_MAX && valLens[i] <= VAL_MAX)
    }

    ghost function KeySeq(): (ks: seq<Key>)
      requires Shaped()
      reads this, keys, keyLens, values, valLens
      ensures |ks| == count && forall i :: 0 <= i < count ==> ks[i] == keys[i][..keyLens[i]]
    {
      Prefixes(keys[..count], keyLens[..count])
    }

    ghost function ValSeq(): (vs: seq<seq<Byte>>)
      requires Shaped()
      reads this, keys, keyLens, values, valLens
      ensures |vs| == count && forall i :: 0 <= i < count ==> vs[i] == values[i][..valLens[i]]
    {
      Prefixes(values[..count], valLens[..count])
    }

    ghost predicate Valid()
      reads this, keys, keyLens, values, valLens
    {
      Shaped() && AllDistinct(KeySeq())
    }

    ghost function View(): Kv
      requires Valid()
      reads this, keys, keyLens, values, valLens
    {
      Table(KeySeq(), ValSeq())
    }

    constructor ()
      ensures Valid() && fresh(this) && fresh(keys) && fresh(keyLens) && fresh(values) && fresh(valLens) &&
        View() == map[]
    {
      keys := new seq<Byte>[LEDGER_CAP](_ => Memory.Repeated(0, KEY_MAX));
      keyLens := new nat[LEDGER_CAP](_ => 0);
      values := new seq<Byte>[LEDGER_CAP](_ => Memory.Repeated(0, VAL_MAX));
      valLens := new nat[LEDGER_CAP](_ => 0);
      count := 0;
    }

    /** `kv_bytes_eq` against row `i`. */
    method RowIs(i: nat, key: Key) returns (eq: bool)
      requires Valid() && i < count && |key| == keyLens[i]
      ensures eq <==> keys[i][..keyLens[i]] == key
    {
      var b := 0;
      while b < |key|
        invariant b <= |key| && keys[i][..b] == key[..b]
      {
        if keys[i][b] != key[b] {
          return false;
        }
        b := b + 1;
      }
      assert key[..b] == key;
      eq := true;
    }

    /** `kv_find`: the index of the key, or -1 if it is not in the ledger. */
    method Find(key: Key) returns (idx: int)
      requires Valid()
      ensures -1 <= idx < count
      ensures idx >= 0 ==> KeySeq()[idx] == key
      ensures idx >= 0 <==> key in View()
    {
      TableKeys(KeySeq(), ValSeq());
      var i := 0;
      while i < count
        invariant i <= count && forall j :: 0 <= j < i ==> KeySeq()[j] != key
      {
        if keyLens[i] == |key| {
          var eq := RowIs(i, key);
          if eq {
            return i;
          }
        }
        i := i + 1;
      }
      idx := -1;
    }

    /** Write the value of slot `idx`. */
    method SetValue(idx: nat, val: seq<Byte>)
      requires Valid() && idx < count && |val| <= VAL_MAX
      modifies values, valLens
      ensures Valid() && KeySeq() == old(KeySeq()) && ValSeq() == old(ValSeq())[idx := val]
    {
      WriteRow(values, idx, val);
      valLens[idx] := |val|;
    }

    /** Claim the next slot for a key that has none yet; its value is still to be written. */
    method AddKey(key: Key)
      requires Valid() && count < LEDGER_CAP && |key| <= KEY_MAX && key !in KeySeq()
      modifies this, keys, keyLens
      ensures Valid() && count == old(count) + 1
      ensures KeySeq() == old(KeySeq()) + [key]
      ensures ValSeq()[..old(count)] == old(ValSeq())
    {
      WriteRow(keys, count, key);
      keyLens[count] := |key|;
      count := count + 1;
    }

    method AddEntry(key: Key, val: seq<Byte>)
      requires Valid() && count < LEDGER_CAP && |key| <= KEY_MAX && |val| <= VAL_MAX && key !in KeySeq()
      modifies this, keys, keyLens, values, valLens
      ensures Valid() && KeySeq() == old(KeySeq()) + [key] && ValSeq() == old(ValSeq()) + [val]
    {
      hide AllDistinct, Prefixes;
      AddKey(key);
      ghost var vs := ValSeq();
      SetValue(count - 1, val);
      assert vs[|vs| - 1 := val] == vs[..|vs| - 1] + [val];
    }

    /** `gpu_kv_put_raw`: overwrite, or append if there is room, or drop the put. */
    method PutRaw(key: Key, val: seq<Byte>)
      requires Valid() && |key| <= KEY_MAX
      modifies this, keys, keyLens, values, valLens
      ensures Valid()
      ensures View() == PutKv(old(View()), key, if |val| <= VAL_MAX then val else val[..VAL_MAX])
    {
      hide Table, Prefixes, AllDistinct, Shaped;
      ghost var ks, vs := KeySeq(), ValSeq();
      TableSize(ks, vs);
      TableKeys(ks, vs);
      var v := if |val| <= VAL_MAX then val else val[..VAL_MAX];
      var idx := Find(key);
      if idx >= 0 {
        TableUpdate(ks, vs, idx, v);
        SetValue(idx, v);
      } else if count < LEDGER_CAP {
        TableAppend(ks, vs, key, v);
        AddEntry(key, v);
      }
    }
  }

  // ----- the host -----

  lemma NextPart(ps: seq<Part>, i: nat)
    requires WfParts(ps) && i < |ps|
    ensures PartsBytes(ps[..i + 1]) == PartsBytes(ps[..i]) + PartBytes(ps[i])
  {
    assert ps[..i + 1][..i] == ps[..i];
  }

  lemma {:induction false} PrefixFits(ps: seq<Part>, i: nat)
    requires WfParts(ps) && i <= |ps|
    ensures |PartsBytes(ps[..i])| <= |PartsBytes(ps)|
    decreases |ps| - i
  {
    if i < |ps| {
      NextPart(ps, i);
      PrefixFits(ps, i + 1);
    } else {
      assert ps[..i] == ps;
    }
  }

  class Host {
    const objs: array<Obj>
    var nObjs: nat
    const storage: Storage

    ghost function Footprint(): set<object> {
      {this, objs, storage, storage.keys, storage.keyLens, storage.values, storage.valLens}
    }

    ghost predicate Valid()
      reads Footprint()
    {
      && objs.Length == OBJ_CAP && nObjs <= OBJ_CAP && storage.Valid()
      && (objs as object) !in {storage.keys, storage.keyLens, storage.values, storage.valLens}
    }

    ghost function HeapView(): Heap
      requires Valid()
      reads Footprint()
    {
      objs[..nObjs]
    }

    ghost function View(): State
      requires Valid()
      reads Footprint()
    {
      State(HeapView(), storage.View())
    }

    constructor ()
      ensures Valid() && fresh(Footprint()) && View() == State([], map[])
    {
      objs := new Obj[OBJ_CAP];
      nObjs := 0;
      storage := new Storage();
    }

    /** `obj_alloc`. */
    method NewObject(tag: Byte, len: nat, data: seq<Byte>) returns (raw: Word)
      requires Valid()
      modifies this, objs
      ensures Valid() && (HeapView(), raw) == Alloc(old(HeapView()), tag, len, data)
      ensures storage.View() == old(storage.View())
    {
      if nObjs >= OBJ_CAP {
        return VOID;
      }
      var h := nObjs;
      nObjs := nObjs + 1;
      objs[h] := NewObj(tag, len, data);
      raw := MakeObj(h, tag);
      assert objs[..nObjs] == old(objs[..nObjs]) + [NewObj(tag, len, data)];
    }

    /** `obj_get`. */
    method Lookup(raw: Word) returns (o: Option<Obj>)
      requires Valid()
      ensures o == ObjGet(HeapView(), raw)
    {
      var h := raw / TWO32;
      if h >= nObjs {
        return None;
      }
      o := Some(objs[h]);
    }

    /** Append what one value stands for to the key buffer; false if it does not fit. */
    method AppendPart(raw: Word, out: array<Byte>, n: nat) returns (ok: bool, n': nat)
      requires Valid() && out.Length == KEY_MAX && n <= KEY_MAX && out !in Footprint()
      modifies out
      ensures ok <==> n + |PartBytes(Resolve(HeapView(), raw))| <= KEY_MAX
      ensures ok ==> n' == n + |PartBytes(Resolve(HeapView(), raw))|
      ensures ok ==> out[..n'] == old(out[..n]) + PartBytes(Resolve(HeapView(), raw))
    {
      hide Memory.Bytes;
      var bytes: seq<Byte>;
      if raw % 256 == TAG_ADDRESS {
        var a := Lookup(raw);
        bytes := if a.Some? then a.value.data else Memory.Repeated(0, OBJ_BYTES);
      } else {
        bytes := Memory.Bytes(raw, 8);
      }
      assert bytes == PartBytes(Resolve(HeapView(), raw));
      if n + |bytes| > KEY_MAX {
        return false, n;
      }
      LinearMemory.Write(out, n, bytes);
      ok, n' := true, n + |bytes|;
      assert out[..n'] == old(out[..n]) + bytes;
    }

    /** `kv_canon_key`. */
    method BuildKey(raw: Word, stype: Byte, out: array<Byte>) returns (ok: bool, n: nat)
      requires Valid() && out.Length == KEY_MAX && out !in Footprint()
      modifies out
      ensures ok ==> n <= KEY_MAX
      ensures CanonKey(HeapView(), raw, stype) == if ok then Some(out[..n]) else None
    {
      hide PartBytes, Resolve;
      out[0] := stype;
      n := 1;
      assert out[..1] == [stype];
      if raw % 256 == TAG_VEC {
        var e := Lookup(raw);
        if e.None? {
          return false, n;
        }
        ok, n := AppendElements(e.value, stype, out);
      } else {
        ghost var ps := [Resolve(HeapView(), raw)];
        assert ps[..0] == [];
        assert PartsBytes(ps) == PartBytes(ps[0]);
        ok, n := AppendPart(raw, out, n);
      }
    }

    method AppendElements(o: Obj, stype: Byte, out: array<Byte>) returns (ok: bool, n: nat)
      requires Valid() && out.Length == KEY_MAX && out !in Footprint() && out[0] == stype
      modifies out
      ensures ok ==> n <= KEY_MAX
      ensures KeyOf(stype, Elements(HeapView(), o)) == if ok then Some(out[..n]) else None
    {
      hide PartBytes, Resolve, PartsBytes;
      ghost var ps := Elements(HeapView(), o);
      var ne := if o.len < VEC_ELEMS then o.len else VEC_ELEMS;
      n := 1;
      NoParts();
      assert ps[..0] == [] && out[..1] == [stype];
      var i := 0;
      while i < ne
        invariant i <= ne && n <= KEY_MAX
        invariant out[..n] == [stype] + PartsBytes(ps[..i])
      {
        NextPart(ps, i);
        PrefixFits(ps, i + 1);
        ok, n := AppendPart(o.elems[i], out, n);
        if !ok {
          return;
        }
        i := i + 1;
      }
      assert ps[..i] == ps;
      ok := true;
    }

    /** The index of a key value's entry in the ledger, or -1; the key itself if it has one. */
    method FindData(key: Word, stype: Word) returns (idx: int, k: Option<Key>)
      requires Valid()
      ensures k == CanonKey(HeapView(), key, stype % 256) && (k.Some? ==> |k.value| <= KEY_MAX)
      ensures -1 <= idx < storage.count
      ensures idx >= 0 <==> k.Some? && k.value in storage.View()
      ensures idx >= 0 ==> storage.KeySeq()[idx] == k.value
    {
      hide CanonKey;
      var out := new Byte[KEY_MAX];
      var ok, n := BuildKey(key, stype % 256, out);
      if !ok {
        return -1, None;
      }
      k := Some(out[..n]);
      idx := storage.Find(out[..n]);
    }

    method HasData(key: Word, stype: Word) returns (r: Word)
      requires Valid()
      ensures (View(), r) == Answer(View(), Has(key, stype))
    {
      var idx, k := FindData(key, stype);
      r := if idx >= 0 then TRUE else FALSE;
    }

    method GetData(key: Word, stype: Word) returns (r: Word)
      requires Valid()
      modifies this, objs
      ensures Valid() && (View(), r) == Answer(old(View()), Get(key, stype))
    {
      hide CanonKey, Memory.Load, Alloc;
      var idx, k := FindData(key, stype);
      if idx < 0 {
        return VOID;
      }
      TableAt(storage.KeySeq(), storage.ValSeq(), idx);
      var v := storage.values[idx][..storage.valLens[idx]];
      if |v| == 32 {
        r := NewObject(TAG_ADDRESS, 32, v);
      } else if |v| >= 8 {
        r := Memory.Load(v, 0, 8);
      } else {
        r := VOID;
      }
    }

    /** The bytes a put stores: the contents of an address object, zeros for a dangling one, else the word itself. */
    method ValueOf(val: Word) returns (bytes: seq<Byte>)
      requires Valid()
      ensures bytes == ValBytes(HeapView(), val)
    {
      hide Memory.Bytes;
      if val % 256 == TAG_ADDRESS {
        var a := Lookup(val);
        bytes := if a.Some? then a.value.data else Memory.Repeated(0, OBJ_BYTES);
      } else {
        bytes := Memory.Bytes(val, 8);
      }
    }

    method PutData(key: Word, val: Word, stype: Word) returns (r: Word)
      requires Valid()
      modifies storage, storage.keys, storage.keyLens, storage.values, storage.valLens
      ensures Valid() && (View(), r) == Answer(old(View()), Put(key, val, stype))
    {
      hide CanonKey, ValBytes, PutKv;
      r := VOID;
      var idx, k := FindData(key, stype);
      if k.None? {
        return;
      }
      var bytes := ValueOf(val);
      storage.PutRaw(k.value, bytes);
    }

    method NewVec(ptr: Word, len: Word, mem: seq<Byte>) returns (raw: Word)
      requires Valid()
      modifies this, objs
      ensures Valid() && (View(), raw) == Answer(old(View()), VecNew(ptr, len, mem))
    {
      hide NewObj, FillVec;
      var p, n := ptr / TWO32, len / TWO32;
      raw := NewObject(TAG_VEC, n, []);
      var h := raw / TWO32;
      if h < nObjs {
        ghost var was := objs[..nObjs];
        FillElements(h, p, n, mem);
        assert objs[..nObjs] == was[h := FillVec(was[h], n, p, mem)];
      }
    }

    method FillElements(h: nat, p: nat, n: nat, mem: seq<Byte>)
      requires Valid() && h < nObjs
      modifies objs
      ensures Valid() && storage.View() == old(storage.View())
      ensures forall j :: 0 <= j < OBJ_CAP && j != h ==> objs[j] == old(objs[j])
      ensures objs[h] == FillVec(old(objs[h]), n, p, mem)
    {
      hide Memory.Load;
      ghost var was := objs[h];
      var ne := if n < VEC_ELEMS then n else VEC_ELEMS;
      objs[h] := objs[h].(len := n);
      var i := 0;
      while i < ne
        invariant i <= ne
        invariant forall j :: 0 <= j < OBJ_CAP && j != h ==> objs[j] == old(objs[j])
        invariant objs[h] == was.(len := n, elems := objs[h].elems)
        invariant forall j :: 0 <= j < VEC_ELEMS ==>
          objs[h].elems[j] == if j < i then ElemAt(was, n, p, mem, j) else was.elems[j]
      {
        var off := (p + 8 * i) % TWO32;
        if off + 8 <= |mem| {
          objs[h] := objs[h].(elems := objs[h].elems[i := Memory.Load(mem, off, 8)]);
        }
        i := i + 1;
      }
      assert objs[h].elems == FillVec(was, n, p, mem).elems;
    }

    method NewI128(hi: Word, lo: Word) returns (raw: Word)
      requires Valid()
      modifies this, objs
      ensures Valid() && (View(), raw) == Answer(old(View()), FromI128(hi, lo))
    {
      hide Memory.Bytes, Alloc;
      raw := NewObject(TAG_I128, 16, Memory.Bytes(lo, 8) + Memory.Bytes(hi, 8));
    }

    method ReadHalf(raw: Word, at: nat) returns (w: Word)
      requires Valid() && at + 8 <= OBJ_BYTES
      ensures w == I128Half(HeapView(), raw, at)
    {
      hide Memory.Load;
      var e := Lookup(raw);
      w := if e.Some? && e.value.tag == TAG_I128 then Memory.Load(e.value.data, at, 8) else 0;
    }

    /** `gpu_host_dispatch`, for the storage, vector and i128 functions. */
    method Dispatch(c: Call) returns (r: Word)
      requires Valid()
      modifies Footprint()
      ensures Valid() && (View(), r) == Answer(old(View()), c)
    {
      hide CanonKey, Memory.Load, Memory.Bytes, GetKv, PutKv, MakeVec, Alloc;
      match c
      case Has(key, stype) => r := HasData(key, stype);
      case Get(key, stype) => r := GetData(key, stype);
      case Put(key, val, stype) => r := PutData(key, val, stype);
      case VecNew(ptr, len, mem) => r := NewVec(ptr, len, mem);
      case FromI128(hi, lo) => r := NewI128(hi, lo);
      case I128Lo(obj) => r := ReadHalf(obj, 0);
      case I128Hi(obj) => r := ReadHalf(obj, 8);
    }

    /** Any sequence of calls. */
    method DispatchAll(cs: seq<Call>)
      requires Valid()
      modifies Footprint()
      ensures Valid() && View() == Calls(old(View()), cs)
    {
      hide Answer;
      var i := 0;
      while i < |cs|
        invariant i <= |cs| && Valid() && Calls(View(), cs[i..]) == Calls(old(View()), cs)
      {
        assert cs[i..][1..] == cs[i + 1..];
        var r := Dispatch(cs[i]);
        i := i + 1;
      }
    }
  }

  lemma NoParts()
    ensures PartsBytes([]) == []
  {
  }
}
