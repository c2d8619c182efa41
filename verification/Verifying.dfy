/** The verifier and the translator agree. The heights the translator tracked satisfy the verifier at every pc it
    visits, and a translated module is accepted exactly when no reachable point of the source stands higher than 16
    bits count. */
module Verifying {
  import opened Words
  import opened Bytecode
  import opened Wasm
  import opened Emission
  import opened Verifier
  import opened Safety
  import opened Simulation
  import opened Preservation
  import opened Accepting
  import opened Reached
  import Fingerprint
  import Completeness

  /** The translator's tracked heights, with the result count at the final END_FUNC. */
  function HeightsOf(e: Emitted, nr: nat): (ht: seq<int>)
    ensures |ht| == |e.code| + 1
  {
    seq(|e.code|, i requires 0 <= i < |e.code| => e.code[i].ht) + [nr]
  }

  function FuncHeights(p: Program, m: Module, f: nat, pool: seq<Word>): seq<int>
    requires f < |p.funcs| && p.funcs[f].Local? && p.funcs[f].ty < |p.types| && f < |m.funcs|
  {
    match EmitFunc(p, f, m.funcs[f].codeOff, pool)
    case None => []
    case Some(e) => HeightsOf(e, NumResults(p, f))
  }

  lemma BuiltMeta(p: Program, m: Module, pools: seq<seq<Word>>)
    requires IsImage(p, m, pools)
    ensures MetaOk(p, m) && (TableDefined(p) ==> TableLinked(m))
  {
    hide EmitFunc, Fingerprint.Fp;
    forall g | 0 <= g < |p.funcs| && p.funcs[g].Local?
      ensures p.funcs[g].ty < |p.types| && Defined(m, g) &&
              m.funcs[g].nParams == NumParams(p, g) && m.funcs[g].nResults == NumResults(p, g)
    {
      assert FuncBuilt(p, m, g, pools[g]);
    }
    forall t | 0 <= t < |p.types|
      ensures m.typeFp[t] % 256 == |p.types[t].params| && (m.typeFp[t] / 256) % 256 == |p.types[t].results|
    {
      Fingerprint.FpArity(p.types[t]);
    }
    forall i | TableDefined(p) && 0 <= i < |m.table| && m.table[i] < |m.funcs| && m.table[i] != TABLE_NULL
      ensures Defined(m, m.table[i])
    {
      assert p.table[i] >= p.nImports;
      assert p.funcs[m.table[i]].Local?;
    }
    forall g | 0 <= g < |m.funcs| && g < |m.funcType| && m.funcType[g] < |m.typeFp|
      ensures m.typeFp[m.funcType[g]] % 256 == m.funcs[g].nParams &&
              (m.typeFp[m.funcType[g]] / 256) % 256 == m.funcs[g].nResults
    {
      Fingerprint.FpArity(p.types[p.funcs[g].ty]);
      if p.funcs[g].Local? { assert FuncBuilt(p, m, g, pools[g]); }
    }
  }

  ghost function ZoneOf(p: Program, m: Module, f: nat, pool: seq<Word>): Zone
    requires f < |p.funcs| && p.funcs[f].Local? && p.funcs[f].ty < |p.types| && f < |m.funcs|
  {
    Zone(m, m.funcs[f], FuncHeights(p, m, f, pool), EnvOf(p, f))
  }

  lemma FuncZone(p: Program, m: Module, pools: seq<seq<Word>>, f: nat)
    requires IsImage(p, m, pools) && p.nImports <= f < |p.funcs|
    ensures m.funcs[f].codeLen > 0 && ZoneOk(ZoneOf(p, m, f, pools[f]))
  {
    hide EmitFunc, MetaOk, UsesTable;
    BuiltMeta(p, m, pools);
    assert FuncBuilt(p, m, f, pools[f]);
    BodyCode(m, m.funcs[f].codeOff, EmitFunc(p, f, m.funcs[f].codeOff, pools[f]).value.code);
  }

  /** How the code of a function and its heights lie in the module. */
  lemma FuncPlaced(p: Program, m: Module, pools: seq<seq<Word>>, f: nat)
    requires IsImage(p, m, pools) && p.nImports <= f < |p.funcs|
    ensures EmitFunc(p, f, m.funcs[f].codeOff, pools[f]).Some?
    ensures var z, off := ZoneOf(p, m, f, pools[f]), m.funcs[f].codeOff;
      var e := EmitFunc(p, f, off, pools[f]).value;
      var end := off + |e.code|;
      CodeAt(m, off, e.code, [end]) && HeightsAt(z, off, e.code) && end < |m.code| && m.code[end] == EndFunc &&
      HeightAt(z, end) == NumResults(p, f) && m.funcs[f].codeLen == |e.code| + 1 && e.st.consts <= m.consts
  {
    hide EmitFunc, CodeAt, UsesTable;
    assert FuncBuilt(p, m, f, pools[f]);
    BodyCode(m, m.funcs[f].codeOff, EmitFunc(p, f, m.funcs[f].codeOff, pools[f]).value.code);
  }

  lemma FuncFine(p: Program, m: Module, pools: seq<seq<Word>>, f: nat)
    requires IsImage(p, m, pools) && WellTyped(p) && p.nImports <= f < |p.funcs|
    requires ZoneOk(ZoneOf(p, m, f, pools[f]))
    ensures var z := ZoneOf(p, m, f, pools[f]);
      AllFine(z, m.funcs[f].codeOff, m.funcs[f].codeOff + m.funcs[f].codeLen) && HeightAt(z, m.funcs[f].codeOff) == 0
  {
    hide EmitBody, TypeBody, MetaOk, CodeAt, UsesTable, FuncHeights, HeightsAt, HeightAt;
    assert FuncBuilt(p, m, f, pools[f]) && BodyTyped(p, f);
    FuncPlaced(p, m, pools, f);
    var z := ZoneOf(p, m, f, pools[f]);
    var off, nr := m.funcs[f].codeOff, NumResults(p, f);
    var e := EmitFunc(p, f, off, pools[f]).value;
    var end := off + |e.code|;
    var st, labels := Tracked(0, false, pools[f]), [Label(None, 0, nr)];
    var k := Ctx([nr], nr, NumParams(p, f) + p.funcs[f].nLocals);
    BodyTracks(z.env, p.funcs[f].body, off, st, labels, k, 0, Ty(0, false));
    BodyHeads(z.env, p.funcs[f].body, off, st, labels, k, 0, 0);
    StartHeight(z, off, st, e);
    BodyFine(z, k, p.funcs[f].body, off, st, labels, [end], e, 0, 0);
    EndFine(z, end, nr);
    hide Fine;
    assert off + m.funcs[f].codeLen == end + 1;
  }

  lemma EndFine(z: Zone, pc: nat, nr: nat)
    requires ZoneOk(z) && z.f.codeOff <= pc < z.f.codeOff + z.f.codeLen && z.m.code[pc] == EndFunc
    requires HeightAt(z, pc) == nr && nr == z.f.nResults
    ensures Fine(z, pc)
  {
    StepFine(z, pc, EndFunc, nr, Flow(nr, false, None));
  }

  /** What the verifier's int can hold. */
  ghost predicate IntHeights(f: FuncMeta, ht: seq<int>) {
    forall r :: 0 <= r < |ht| ==> f.nParams + f.nLocals + ht[r] <= 0x7FFF_FFFF
  }

  /** The tracked heights solve the verifier's equations, at every pc the translator took for live and however tall the
      function is, as long as an int can count it. So the least solution, which is all the verifier ever visits, has the
      tracked height at every pc. */
  lemma TrackedHeightsClosed(p: Program, m: Module, pools: seq<seq<Word>>, f: nat)
    requires IsImage(p, m, pools) && WellTyped(p) && p.nImports <= f < |p.funcs|
    requires IntHeights(m.funcs[f], FuncHeights(p, m, f, pools[f]))
    ensures Closed(m, m.funcs[f], FuncHeights(p, m, f, pools[f]))
    ensures forall least :: Least(m, m.funcs[f], least) ==> Below(least, FuncHeights(p, m, f, pools[f]))
  {
    hide FuncHeights, NodeOk, OpLinked, FuncBuilt, BodyTyped;
    FuncZone(p, m, pools, f);
    FuncFine(p, m, pools, f);
    var z, g := ZoneOf(p, m, f, pools[f]), m.funcs[f];
    forall r | 0 <= r < g.codeLen && z.ht[r] >= 0
      ensures NodeOk(m, g, z.ht, r)
    {
      assert Fine(z, g.codeOff + r);
    }
  }

  // ----- exactly when -----

  /** At every reachable point of the function its frame fits the 16 bits of `max_stack`. */
  predicate FuncNarrow(p: Program, f: nat)
    requires f < |p.funcs| && p.funcs[f].Local? && p.funcs[f].ty < |p.types|
  {
    var env, nr, b := EnvOf(p, f), NumResults(p, f), p.funcs[f].body;
    var limit := MAX_U16 - env.nParams - env.nLocals;
    var k := Ctx([nr], nr, NumParams(p, f) + p.funcs[f].nLocals);
    BodyNarrow(p, k, b, Ty(0, false), 0, limit) && (BodyPasses(b) || 0 in BodyOuts(b) ==> nr <= limit)
  }

  /** What the verifier reaches of function `f`: a set of its pcs, closed under flow, that every closed set holds. */
  ghost predicate Territory(z: Zone, x: set<nat>, y: set<nat>, limit: int, narrow: bool) {
    && (forall q :: q in x ==> z.f.codeOff <= q < z.f.codeOff + z.f.codeLen && q < |z.m.code| && HeightAt(z, q) >= 0)
    && ClosedUnder(z.m, x) && z.f.codeOff in x
    && (ClosedUnder(z.m, y) && z.f.codeOff in y ==> x <= y)
    && ((forall q :: q in x ==> HeightAt(z, q) <= limit) <==> narrow)
  }

  lemma FuncTerritory(p: Program, m: Module, pools: seq<seq<Word>>, f: nat, y: set<nat>) returns (x: set<nat>)
    requires IsImage(p, m, pools) && WellTyped(p) && p.nImports <= f < |p.funcs|
    ensures var z := ZoneOf(p, m, f, pools[f]);
      Territory(z, x, y, MAX_U16 - z.env.nParams - z.env.nLocals, FuncNarrow(p, f))
  {
    hide EmitBody, TypeBody, CodeAt, UsesTable, FuncHeights, HeightsAt, HeightAt, BodyNarrow, Area;
    assert BodyTyped(p, f);
    FuncPlaced(p, m, pools, f);
    var z := ZoneOf(p, m, f, pools[f]);
    var off, nr, b := m.funcs[f].codeOff, NumResults(p, f), p.funcs[f].body;
    var e := EmitFunc(p, f, off, pools[f]).value;
    var end := off + |e.code|;
    var limit := MAX_U16 - z.env.nParams - z.env.nLocals;
    var l := Label(None, 0, nr);
    var k := Ctx([nr], nr, NumParams(p, f) + p.funcs[f].nLocals);
    var n := BodyNarrow(p, k, b, Ty(0, false), 0, limit);
    var x1 := BodyArea(z, y, k, b, off, Tracked(0, false, pools[f]), [l], [end], e, 0, 0, limit);
    assert [l] == [l] + [] && [end] == [end] + [];
    BlockArea(z, x1, y, off, WayOfBody(b, end, [l], [end]), limit, n, l, [], []);
    var outs;
    x, outs := LastArea(z, x1, y, off, Way(end, BodyPasses(b) || 0 in BodyOuts(b), Outer(BodyOuts(b)), [], []), limit,
      n, nr);
    AreaTerritory(z, x, y, off, Way(end + 1, false, outs, [], []), limit, FuncNarrow(p, f));
  }

  /** The END_FUNC behind the body. */
  lemma LastArea(z: Zone, x1: set<nat>, y: set<nat>, pc: nat, w: Way, limit: int, n: bool, nr: nat)
    returns (x: set<nat>, outs: set<nat>)
    requires Area(z, x1, y, pc, w, limit, n) && pc <= w.end && w.labels == [] && w.ends == []
    requires w.end < |z.m.code| && z.m.code[w.end] == EndFunc && HeightAt(z, w.end) == nr
    ensures Area(z, x, y, pc, Way(w.end + 1, false, outs, [], []), limit, n && (w.passes ==> nr <= limit))
  {
    hide Area, HeightAt;
    if w.passes {
      var v := Way(w.end + 1, false, {}, [], []);
      OneArea(z, y, w.end, v, limit);
      SeqArea(z, x1, {w.end}, y, pc, w, v, limit, n, nr <= limit);
      x, outs := x1 + {w.end}, w.outs + {};
    } else {
      StopArea(z, x1, y, pc, w, w.end + 1, limit, n);
      x, outs := x1, w.outs;
    }
  }

  lemma AreaTerritory(z: Zone, x: set<nat>, y: set<nat>, pc: nat, w: Way, limit: int, narrow: bool)
    requires Area(z, x, y, pc, w, limit, narrow) && !w.passes && w.labels == []
    requires pc == z.f.codeOff && w.end == z.f.codeOff + z.f.codeLen
    ensures Territory(z, x, y, limit, narrow)
  {
  }

  /** The verifier's flow is the flow of the code. */
  lemma FlowGoes(m: Module, f: FuncMeta, op: CuOp, h: int, q: nat, t: nat)
    requires Check(m, f, op, h).Flow?
    ensures var fl := Check(m, f, op, h);
      Goes(op, q, t) <==> (fl.falls && t == q + 1) || (fl.jump.Some? && t == f.codeOff + fl.jump.value)
  {
  }

  /** Where two assignments agree, they agree at the successors. */
  lemma AgreeOn(m: Module, f: FuncMeta, a: seq<int>, b: seq<int>, r: nat, t: nat)
    requires Shaped(m, f) && |a| == |b| == f.codeLen && r < f.codeLen && a[r] == b[r] >= 0
    requires NodeOk(m, f, a, r) && NodeOk(m, f, b, r) && Goes(m.code[f.codeOff + r], f.codeOff + r, t)
    ensures f.codeOff <= t < f.codeOff + f.codeLen && a[t - f.codeOff] == b[t - f.codeOff] >= 0
  {
    hide Check;
    var op := m.code[f.codeOff + r];
    FlowGoes(m, f, op, a[r], f.codeOff + r, t);
    NextNonnegative(m, f, op, a[r]);
  }

  /** `ht` on the pcs in `x` only. */
  function Restrict(ht: seq<int>, off: nat, x: set<nat>): (r: seq<int>)
    ensures |r| == |ht|
  {
    seq(|ht|, i requires 0 <= i < |ht| => if off + i in x then ht[i] else -1)
  }

  /** Solutions survive being cut down to a set closed under flow. */
  lemma RestrictClosed(m: Module, f: FuncMeta, ht: seq<int>, x: set<nat>)
    requires Shaped(m, f) && |ht| == f.codeLen && ht[0] == 0 && f.codeOff in x && ClosedUnder(m, x)
    requires forall r :: 0 <= r < f.codeLen && f.codeOff + r in x ==> ht[r] >= 0 && NodeOk(m, f, ht, r)
    ensures Closed(m, f, Restrict(ht, f.codeOff, x))
  {
    hide Check;
    var rt := Restrict(ht, f.codeOff, x);
    forall r | 0 <= r < f.codeLen && rt[r] >= 0
      ensures NodeOk(m, f, rt, r)
    {
      var q := f.codeOff + r;
      assert q in x && NodeOk(m, f, ht, r);
      var fl := FlowAt(m, f, r, ht[r]);
      if fl.falls {
        FlowGoes(m, f, m.code[q], ht[r], q, q + 1);
      }
      if fl.jump.Some? {
        FlowGoes(m, f, m.code[q], ht[r], q, f.codeOff + fl.jump.value);
        assert f.codeOff + fl.jump.value in x;
      }
    }
  }

  predicate Common(z: Zone, a: seq<int>, q: nat) {
    z.f.codeOff <= q < z.f.codeOff + |a| && HeightAt(z, q) == a[q - z.f.codeOff] >= 0
  }

  /** The pcs an accepted assignment visits at the tracked height are closed under flow. */
  lemma CommonClosed(p: Program, m: Module, pools: seq<seq<Word>>, f: nat, a: seq<int>) returns (y: set<nat>)
    requires IsImage(p, m, pools) && WellTyped(p) && p.nImports <= f < |p.funcs| && Assignment(m, m.funcs[f], a)
    ensures var z, g := ZoneOf(p, m, f, pools[f]), m.funcs[f];
      |z.ht| == g.codeLen && z.ht[0] == 0 && ClosedUnder(m, y) && g.codeOff in y &&
      forall q :: q in y <==> Common(z, a, q)
    ensures var z, g := ZoneOf(p, m, f, pools[f]), m.funcs[f];
      forall q :: q in y ==>
        HeightAt(z, q) <= MAX_U16 - g.nParams - g.nLocals && NodeOk(m, g, z.ht, q - g.codeOff)
  {
    hide FuncHeights, NodeOk, OpLinked, FuncBuilt, BodyTyped, FlowAt, Goes, EnvOf, MetaOk, NumParams, NumResults;
    FuncZone(p, m, pools, f);
    FuncFine(p, m, pools, f);
    var z, g := ZoneOf(p, m, f, pools[f]), m.funcs[f];
    var off := g.codeOff;
    y := set q | off <= q < off + g.codeLen && Common(z, a, q);
    forall q | q in y
      ensures HeightAt(z, q) <= MAX_U16 - g.nParams - g.nLocals && NodeOk(m, g, z.ht, q - off)
    {
      assert Occurs(m, g, a, q - off, a[q - off]);
      assert Fine(z, q);
    }
    forall q, t | q in y && q < |m.code| && Goes(m.code[q], q, t)
      ensures t in y
    {
      AgreeOn(m, g, a, z.ht, q - off, t);
    }
  }

  /** An accepted function is narrow, and a least assignment of it has the tracked height at every pc it visits. */
  lemma AcceptedIsNarrow(p: Program, m: Module, pools: seq<seq<Word>>, f: nat, a: seq<int>)
    requires IsImage(p, m, pools) && WellTyped(p) && p.nImports <= f < |p.funcs| && Assignment(m, m.funcs[f], a)
    ensures FuncNarrow(p, f)
    ensures Least(m, m.funcs[f], a) ==> Below(a, FuncHeights(p, m, f, pools[f]))
  {
    hide FuncHeights, NodeOk, FuncBuilt, BodyTyped, FuncNarrow;
    var z, g := ZoneOf(p, m, f, pools[f]), m.funcs[f];
    var y := CommonClosed(p, m, pools, f, a);
    var x := FuncTerritory(p, m, pools, f, y);
    assert x <= y;
    SameEnv(p, m, pools, f);
    if Least(m, g, a) {
      forall r | 0 <= r < g.codeLen && g.codeOff + r in y
        ensures z.ht[r] == a[r] >= 0
      {
        assert Common(z, a, g.codeOff + r);
      }
      RestrictClosed(m, g, z.ht, y);
      assert Below(a, Restrict(z.ht, g.codeOff, y));
    }
  }

  lemma SameEnv(p: Program, m: Module, pools: seq<seq<Word>>, f: nat)
    requires IsImage(p, m, pools) && p.nImports <= f < |p.funcs|
    ensures m.funcs[f].nParams == EnvOf(p, f).nParams && m.funcs[f].nLocals == EnvOf(p, f).nLocals
  {
    hide EmitFunc, UsesTable;
    assert FuncBuilt(p, m, f, pools[f]);
  }

  /** A narrow function is accepted: the tracked heights, on the pcs that control reaches, are an assignment, and the
      instructions there meet the hypotheses the verifier leaves open. */
  lemma NarrowIsAccepted(p: Program, m: Module, pools: seq<seq<Word>>, f: nat) returns (ht: seq<int>)
    requires IsImage(p, m, pools) && WellTyped(p) && p.nImports <= f < |p.funcs| && FuncNarrow(p, f)
    ensures m.funcs[f].codeLen > 0 && Assignment(m, m.funcs[f], ht) && CodeLinked(m, m.funcs[f], ht)
    ensures Below(ht, FuncHeights(p, m, f, pools[f]))
  {
    hide FuncHeights, NodeOk, OpLinked, FuncBuilt, BodyTyped, FuncNarrow, FlowAt, MetaOk, NumParams, NumResults;
    FuncZone(p, m, pools, f);
    FuncFine(p, m, pools, f);
    SameEnv(p, m, pools, f);
    var z, g := ZoneOf(p, m, f, pools[f]), m.funcs[f];
    var x := FuncTerritory(p, m, pools, f, {});
    forall r | 0 <= r < g.codeLen && g.codeOff + r in x
      ensures z.ht[r] >= 0 && g.nParams + g.nLocals + z.ht[r] <= MAX_U16
      ensures NodeOk(m, g, z.ht, r) && OpLinked(m, g, m.code[g.codeOff + r])
    {
      assert HeightAt(z, g.codeOff + r) == z.ht[r];
      assert Fine(z, g.codeOff + r);
    }
    RestrictClosed(m, g, z.ht, x);
    ht := Restrict(z.ht, g.codeOff, x);
    FitsEverywhere(m, g, ht);
  }

  /** Heights that fit before every instruction fit after it too. */
  lemma FitsEverywhere(m: Module, f: FuncMeta, ht: seq<int>)
    requires Closed(m, f, ht)
    requires forall r :: 0 <= r < |ht| && ht[r] >= 0 ==> f.nParams + f.nLocals + ht[r] <= MAX_U16
    ensures Assignment(m, f, ht)
  {
    hide Check;
    forall r, x | 0 <= r < f.codeLen && Occurs(m, f, ht, r, x)
      ensures f.nParams + f.nLocals + x <= MAX_U16
    {
      assert NodeOk(m, f, ht, r);
      NextOccurs(m, f, ht, r);
      NextNonnegative(m, f, m.code[f.codeOff + r], ht[r]);
    }
  }

  lemma NextOccurs(m: Module, f: FuncMeta, ht: seq<int>, r: nat)
    requires Shaped(m, f) && |ht| == f.codeLen && r < f.codeLen && NodeOk(m, f, ht, r)
    ensures exists q :: 0 <= q < |ht| && ht[q] == FlowAt(m, f, r, ht[r]).next
  {
    var fl := FlowAt(m, f, r, ht[r]);
    if fl.falls {
      assert ht[r + 1] == fl.next;
    } else if fl.jump.Some? {
      assert ht[fl.jump.value] == fl.next;
    } else {
      assert ht[r] == fl.next;
    }
  }

  predicate Narrow(p: Program)
    requires forall f :: p.nImports <= f < |p.funcs| ==> p.funcs[f].Local? && p.funcs[f].ty < |p.types|
  {
    forall f :: p.nImports <= f < |p.funcs| ==> FuncNarrow(p, f)
  }

  /** Lowering output verifies, exactly when it can: a translated well-typed module is accepted if and only if no
      reachable point of its source needs a frame of more than 65535 slots. */
  lemma LoweredVerifies(p: Program, m: Module, pools: seq<seq<Word>>)
    requires IsImage(p, m, pools) && WellTyped(p) && p.nImports < |p.funcs|
    ensures Accepted(m) <==> Narrow(p)
  {
    hide FuncNarrow, Assignment, FuncBuilt;
    if Accepted(m) {
      forall f | p.nImports <= f < |p.funcs|
        ensures FuncNarrow(p, f)
      {
        FuncZone(p, m, pools, f);
        assert FuncAccepted(m, f);
        var a :| Assignment(m, m.funcs[f], a);
        AcceptedIsNarrow(p, m, pools, f, a);
      }
    }
    if Narrow(p) {
      var hts := NarrowHeights(p, m, pools);
      AcceptedFrom(p, m, hts);
    }
  }

  /** The tracked heights of all functions, on the pcs that control reaches. */
  lemma NarrowHeights(p: Program, m: Module, pools: seq<seq<Word>>) returns (hts: Heights)
    requires IsImage(p, m, pools) && WellTyped(p) && Narrow(p)
    ensures Assigned(m, hts) && (TableDefined(p) ==> Linked(m, hts))
    ensures forall f :: p.nImports <= f < |p.funcs| ==>
      m.funcs[f].codeLen > 0 && Below(hts[f], FuncHeights(p, m, f, pools[f]))
  {
    hide FuncNarrow, Assignment, FuncBuilt, FuncHeights, Below, CodeLinked, TableLinked, TableDefined, MetaOk;
    BuiltMeta(p, m, pools);
    hts := [];
    while |hts| < |p.funcs|
      invariant |hts| <= |p.funcs|
      invariant forall f :: p.nImports <= f < |hts| ==>
        m.funcs[f].codeLen > 0 && Assignment(m, m.funcs[f], hts[f]) && CodeLinked(m, m.funcs[f], hts[f]) &&
        Below(hts[f], FuncHeights(p, m, f, pools[f]))
    {
      var ht: seq<int> := [];
      if |hts| >= p.nImports {
        ht := NarrowIsAccepted(p, m, pools, |hts|);
      }
      hts := hts + [ht];
    }
  }

  lemma AcceptedFrom(p: Program, m: Module, hts: Heights)
    requires |hts| == |m.funcs| == |p.funcs| && p.nImports < |p.funcs| && m.nImports == p.nImports
    requires forall f :: 0 <= f < p.nImports ==> m.funcs[f].codeOff == 0 && m.funcs[f].codeLen == 0
    requires forall f :: p.nImports <= f < |p.funcs| ==> m.funcs[f].codeLen > 0 && Assignment(m, m.funcs[f], hts[f])
    ensures Accepted(m)
  {
    hide NodeOk;
    assert Assignment(m, m.funcs[p.nImports], hts[p.nImports]);
    forall fi | 0 <= fi < |m.funcs|
      ensures FuncAccepted(m, fi)
    {
      if fi >= p.nImports { assert Assignment(m, m.funcs[fi], hts[fi]); }
    }
  }

  /** Least assignments, which are what the verifier finds, meet every hypothesis of verifier soundness. */
  lemma LeastLinked(p: Program, m: Module, pools: seq<seq<Word>>, hts: Heights)
    requires Built(p, m, pools) && WellTyped(p) && Assigned(m, hts)
    requires forall f :: p.nImports <= f < |p.funcs| ==> Least(m, m.funcs[f], hts[f])
    ensures Linked(m, hts)
  {
    hide Assignment, FuncBuilt, CodeLinked, Least;
    BuiltMeta(p, m, pools);
    forall f | 0 <= f < |m.funcs| && m.funcs[f].codeLen > 0
      ensures CodeLinked(m, m.funcs[f], hts[f])
    {
      assert f >= p.nImports;
      FuncLinked(p, m, pools, f, hts[f]);
    }
  }

  lemma FuncLinked(p: Program, m: Module, pools: seq<seq<Word>>, f: nat, a: seq<int>)
    requires IsImage(p, m, pools) && WellTyped(p) && p.nImports <= f < |p.funcs|
    requires Assignment(m, m.funcs[f], a) && Least(m, m.funcs[f], a)
    ensures CodeLinked(m, m.funcs[f], a)
  {
    hide FuncHeights, NodeOk, FuncBuilt, BodyTyped, FuncNarrow, Least, OpLinked, FlowAt;
    AcceptedIsNarrow(p, m, pools, f, a);
    FuncZone(p, m, pools, f);
    FuncFine(p, m, pools, f);
    var z, g := ZoneOf(p, m, f, pools[f]), m.funcs[f];
    forall r | 0 <= r < g.codeLen && a[r] >= 0
      ensures OpLinked(m, g, m.code[g.codeOff + r])
    {
      assert Occurs(m, g, a, r, a[r]) && z.ht[r] == a[r];
      assert Fine(z, g.codeOff + r);
    }
  }

  // ----- a function too tall to verify -----

  /** `n` constants, then `unreachable`. */
  function Pile(n: nat): Body {
    if n == 0 then Seq(Trap, End) else Seq(Value(0), Pile(n - 1))
  }

  function Tall(n: nat): Program {
    Program([Sig([], [])], [Local(0, 0, Pile(n))], 0, [], [])
  }

  lemma {:induction false} PileTyped(p: Program, k: Ctx, n: nat, h: nat, limit: int)
    ensures TypeBody(p, k, Pile(n), Ty(h, false)) == Some(Ty(0, true))
    ensures BodyNarrow(p, k, Pile(n), Ty(h, false), 0, limit) <==> h + n <= limit
    ensures !BodyPasses(Pile(n)) && BodyOuts(Pile(n)) == {} && !UsesTable(Pile(n))
    decreases n
  {
    if n > 0 {
      assert TypeInstr(p, k, Value(0), Ty(h, false)) == Some(Ty(h + 1, false));
      PileTyped(p, k, n - 1, h + 1, limit);
    }
  }

  lemma {:induction false} PileStays(n: nat, near: nat)
    ensures Completeness.BodyStays(Pile(n), false, near, 0)
  {
    if n > 0 { PileStays(n - 1, near); }
  }

  /** Valid code that lowers, and verifies exactly up to 65535 constants. */
  lemma TallCode(n: nat)
    ensures WellTyped(Tall(n)) && Completeness.Lowerable(Tall(n)) && (Narrow(Tall(n)) <==> n <= 65535)
  {
    hide Completeness.FuncFits;
    var p := Tall(n);
    PileStays(n, 1);
    PileTyped(p, Ctx([0], 0, 0), n, 0, MAX_U16);
    assert FuncNarrow(p, 0) <==> n <= MAX_U16;
    Completeness.DeadElsesLower(p);
  }
}
