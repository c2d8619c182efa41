/** The translator as the loops it is: over operators, over the patches of an ending block, over br_table targets, and
    over the functions of a program. */
module Translator {
  import opened Words
  import opened Bytecode
  import opened Wasm
  import opened Emission
  import opened Lowering
  import opened Simulation
  import opened Preservation
  import Fingerprint
  import Completeness
  import opened Stubs

  /** End of a block: emit END_FUNC for the function itself, close an open `if`, patch every recorded branch. */
  method EndOfBlock(c: Lower) returns (r: Option<Lower>)
    ensures r == LowerEnd(c)
  {
    if |c.ctrl| == 0 {
      return None;
    }
    var l := c.ctrl[|c.ctrl| - 1];
    var join := |c.code|;
    var code := if l.kind == FuncKind then c.code + [EndFunc] else c.code;
    code := PatchIf(code, l, join);
    ghost var patched := PatchAll(code, l.patches, join);
    var i := 0;
    assert l.patches[0..] == l.patches;
    while i < |l.patches|
      invariant 0 <= i <= |l.patches|
      invariant PatchAll(code, l.patches[i..], join) == patched
    {
      code := PatchB(code, l.patches[i], join);
      assert l.patches[i..][1..] == l.patches[i + 1..];
      i := i + 1;
    }
    r := Some(Lower(code, c.consts, c.ctrl[..|c.ctrl| - 1], l.base + l.nResults, l.deadOnEntry));
  }

  /** br_table: store the index, one comparison per target, then the default. */
  method BranchTableOp(env: Env, c: Lower, ds: seq<nat>, default: nat) returns (r: Option<Lower>)
    ensures r == LowerOp(env, c, BranchTable(ds, default))
  {
    r := EmitConsume(c, LocalSet(env.scratch), 1, 0);
    if r.None? {
      return;
    }
    ghost var first := r.value;
    for i := 0 to |ds|
      invariant r.Some? && LowerChain(env, r.value, ds, i, default) == LowerChain(env, first, ds, 0, default)
    {
      r := LowerLink(env, r.value, ds[i], i);
      if r.None? {
        return;
      }
    }
    r := LowerBranch(env, r.value, default);
    if r.Some? {
      r := Some(r.value.(dead := true));
    }
  }

  /** `lower_operators`: one pass over the operator list. */
  method LowerOperators(env: Env, ops: seq<Operator>, code: seq<CuOp>, consts: seq<Word>) returns (r: Option<Lower>)
    ensures r == Lowered(env, ops, code, consts)
  {
    var c := Start(env, code, consts);
    ghost var whole := LowerAll(env, ops, c);
    var i := 0;
    assert ops[0..] == ops;
    while i < |ops|
      invariant 0 <= i <= |ops|
      invariant LowerAll(env, ops[i..], c) == whole
    {
      var next;
      if ops[i] == OEnd {
        next := EndOfBlock(c);
      } else if ops[i].Op? && ops[i].i.BranchTable? {
        next := BranchTableOp(env, c, ops[i].i.ds, ops[i].i.default);
      } else {
        next := LowerStep(env, c, ops[i]);
      }
      assert next == LowerStep(env, c, ops[i]);
      assert ops[i..][1..] == ops[i + 1..];
      if next.None? {
        return None;
      }
      c := next.value;
      i := i + 1;
    }
    r := if c.ctrl == [] then Some(c) else None;
  }

  /** Some operator of the list is a br_table, so the function needs the scratch local. */
  predicate AnyTable(ops: seq<Operator>) {
    exists j :: 0 <= j < |ops| && ops[j].Op? && ops[j].i.BranchTable?
  }

  lemma AnyTableParts(a: seq<Operator>, b: seq<Operator>)
    ensures AnyTable(a + b) <==> AnyTable(a) || AnyTable(b)
  {
    if AnyTable(a) {
      var j :| 0 <= j < |a| && a[j].Op? && a[j].i.BranchTable?;
      assert (a + b)[j] == a[j];
    }
    if AnyTable(b) {
      var j :| 0 <= j < |b| && b[j].Op? && b[j].i.BranchTable?;
      assert (a + b)[|a| + j] == b[j];
    }
  }

  lemma NoTableBracket(op: Operator)
    requires !op.Op?
    ensures !AnyTable([op])
  {
  }

  lemma {:induction false} ScanInstr(i: Instr)
    ensures AnyTable(FlattenInstr(i)) <==> InstrUsesTable(i)
    decreases i
  {
    hide AnyTable;
    match i
    case Block(np, nr, b) => Bracket(OBlock(np, nr), b);
    case Loop(np, nr, b) => Bracket(OLoop(np, nr), b);
    case IfThen(np, nr, b) => Bracket(OIf(np, nr), b);
    case IfElse(np, nr, b, c) =>
      ScanBody(b);
      ScanBody(c);
      var open := OIf(np, nr);
      NoTableBracket(open);
      NoTableBracket(OElse);
      NoTableBracket(OEnd);
      AnyTableParts([open], Flatten(b));
      AnyTableParts([open] + Flatten(b), [OElse]);
      AnyTableParts([open] + Flatten(b) + [OElse], Flatten(c));
      AnyTableParts([open] + Flatten(b) + [OElse] + Flatten(c), [OEnd]);
    case _ => ScanLeaf(i);
  }

  lemma ScanLeaf(i: Instr)
    ensures AnyTable([Op(i)]) <==> i.BranchTable?
  {
    assert i.BranchTable? ==> [Op(i)][0].i.BranchTable?;
  }

  lemma {:induction false} Bracket(open: Operator, b: Body)
    requires !open.Op?
    ensures AnyTable([open] + Flatten(b) + [OEnd]) <==> UsesTable(b)
    decreases b, 1
  {
    hide AnyTable;
    ScanBody(b);
    NoTableBracket(open);
    NoTableBracket(OEnd);
    AnyTableParts([open], Flatten(b));
    AnyTableParts([open] + Flatten(b), [OEnd]);
  }

  /** The scan of the operator list finds a br_table exactly when the body has one. */
  lemma {:induction false} ScanBody(b: Body)
    ensures AnyTable(Flatten(b)) <==> UsesTable(b)
    decreases b, 0
  {
    if b.Seq? {
      ScanInstr(b.head);
      ScanBody(b.tail);
      AnyTableParts(FlattenInstr(b.head), Flatten(b.tail));
    }
  }

  /** One function body: scratch local, lowering, and its meta. A body that fails to lower becomes a stub that traps,
      behind whatever the failed pass had already added to code and constant pool. */
  method LowerFunction(p: Program, f: nat, code: seq<CuOp>, consts: seq<Word>)
    returns (meta: FuncMeta, code': seq<CuOp>, consts': seq<Word>, refused: bool)
    requires f < |p.funcs| && p.funcs[f].Local? && p.funcs[f].ty < |p.types|
    ensures refused <==> EmitFunc(p, f, |code|, consts).None?
    ensures !refused ==>
      var e := EmitFunc(p, f, |code|, consts).value;
      var env := EnvOf(p, f);
      meta == FuncMeta(|code|, |e.code| + 1, env.nParams, env.nResults, env.nLocals) &&
      code' == code + FuncCode(e.code, |code|) && consts' == e.st.consts
    ensures refused ==>
      consts <= consts' && StubAt(code', meta, NumParams(p, f), NumResults(p, f)) && code <= code'[..meta.codeOff]
  {
    var ops := Flatten(p.funcs[f].body) + [OEnd];
    ScanBody(p.funcs[f].body);
    NoTableBracket(OEnd);
    AnyTableParts(Flatten(p.funcs[f].body), [OEnd]);
    var np, nl, nr := NumParams(p, f), p.funcs[f].nLocals, NumResults(p, f);
    var env := Env(p, np, if AnyTable(ops) then nl + 1 else nl, np + nl, nr);
    assert env == EnvOf(p, f);
    LoweringIsEmission(env, p.funcs[f].body, code, consts);
    var c := LowerOperators(env, ops, code, consts);
    if c.None? {
      var partial: seq<CuOp>, interned: seq<Word> := *, *;
      code' := code + partial + [Unreachable, EndFunc];
      return FuncMeta(|code + partial|, 2, np, nr, 0), code', consts + interned, true;
    }
    meta := FuncMeta(|code|, |c.value.code| - |code|, np, nr, env.nLocals);
    code', consts', refused := c.value.code, c.value.consts, false;
  }

  /** `meta` describes a stub at the end of `code`. */
  predicate StubAt(code: seq<CuOp>, meta: FuncMeta, np: nat, nr: nat) {
    && meta == FuncMeta(meta.codeOff, 2, np, nr, 0) && meta.codeOff + 2 == |code|
    && code[meta.codeOff..] == [Unreachable, EndFunc]
  }

  /** What the front end guarantees before bodies are lowered: imports first, type indices in range, and locals that
      leave room for the scratch local in 16 bits. */
  ghost predicate Translatable(p: Program) {
    && p.nImports <= |p.funcs|
    && (forall f :: 0 <= f < |p.funcs| ==> p.funcs[f].ty < |p.types| && (p.funcs[f].Import? <==> f < p.nImports))
    && (forall f :: p.nImports <= f < |p.funcs| ==> NumParams(p, f) + p.funcs[f].nLocals < 65535)
  }

  method Fingerprints(p: Program) returns (r: Option<seq<nat>>)
    ensures r.Some? <==> forall i :: 0 <= i < |p.types| ==> Fingerprint.Fits(p.types[i])
    ensures r.Some? ==> |r.value| == |p.types| && forall i :: 0 <= i < |p.types| ==>
      r.value[i] == Fingerprint.Fp(p.types[i])
  {
    var fps := [];
    for i := 0 to |p.types|
      invariant |fps| == i
      invariant forall j :: 0 <= j < i ==> Fingerprint.Fits(p.types[j]) && fps[j] == Fingerprint.Fp(p.types[j])
    {
      var fp := Fingerprint.TypeFingerprint(p.types[i]);
      if fp.None? {
        return None;
      }
      fps := fps + [fp.value];
    }
    r := Some(fps);
  }

  /** Code appended later does not disturb a function already built. */
  lemma BuiltGrows(p: Program, m: Module, m': Module, f: nat, pool: seq<Word>)
    requires f < |p.funcs| && p.funcs[f].Local? && p.funcs[f].ty < |p.types| && f < |m.funcs|
    requires FuncBuilt(p, m, f, pool)
    requires m.funcs <= m'.funcs && m.code <= m'.code && m.consts <= m'.consts
    ensures FuncBuilt(p, m', f, pool)
  {
    hide EmitFunc;
    var off := m.funcs[f].codeOff;
    var e := EmitFunc(p, f, off, pool).value;
    assert m'.funcs[f] == m.funcs[f];
    assert m'.code[off..off + |e.code| + 1] == m'.code[..|m.code|][off..off + |e.code| + 1];
  }

  /** Function `f` is a stub in the module. */
  predicate StubBuilt(p: Program, m: Module, f: nat, pool: seq<Word>)
    requires f < |p.funcs| && p.funcs[f].ty < |p.types| && f < |m.funcs|
  {
    var off := m.funcs[f].codeOff;
    && m.funcs[f] == FuncMeta(off, 2, NumParams(p, f), NumResults(p, f), 0)
    && off + 2 <= |m.code| && m.code[off..off + 2] == [Unreachable, EndFunc] && pool <= m.consts
  }

  /** One function of the module, `refused` or not. */
  ghost predicate OneBuilt(p: Program, m: Module, f: nat, pool: seq<Word>, refused: bool)
    requires f < |p.funcs| && p.funcs[f].Local? && p.funcs[f].ty < |p.types| && f < |m.funcs|
  {
    && (if refused then StubBuilt(p, m, f, pool) else FuncBuilt(p, m, f, pool))
    && (WellTyped(p) ==> (refused <==> !Completeness.FuncFits(p, f)))
  }

  /** The modules built so far, as the function loop sees them. */
  ghost predicate Partial(p: Program, m: Module, pools: seq<seq<Word>>, r: set<nat>, n: nat)
    requires Translatable(p) && n <= |p.funcs|
  {
    && |m.funcs| == n == |pools| && (forall f :: f in r ==> p.nImports <= f < n)
    && (forall f :: 0 <= f < n && f < p.nImports ==> m.funcs[f] == FuncMeta(0, 0, NumParams(p, f), NumResults(p, f), 0))
    && (forall f :: p.nImports <= f < n ==> OneBuilt(p, m, f, pools[f], f in r))
  }

  /** Translate a program; None if some signature is out of bounds. The module holds, function by function, exactly the
      structural code of the program in which the refused bodies are stubs. */
  method LowerProgram(p: Program) returns (r: Option<Module>, ghost pools: seq<seq<Word>>, ghost refused: set<nat>)
    requires Translatable(p)
    ensures r.Some? <==> forall i :: 0 <= i < |p.types| ==> Fingerprint.Fits(p.types[i])
    ensures r.Some? ==> IsImage(Stubbed(p, refused), r.value, pools)
    ensures r.Some? && WellTyped(p) ==> refused == Completeness.Unfit(p)
  {
    hide OneBuilt, EmitFunc, EnvOf, WellTyped, StubAt, Fingerprint.Fp;
    pools, refused := [], {};
    var fps := Fingerprints(p);
    if fps.None? {
      return None, pools, refused;
    }
    var m := Module([], [], [], p.nImports, p.table, seq(|p.funcs|, f requires 0 <= f < |p.funcs| => p.funcs[f].ty),
                    fps.value, p.segments);
    while |m.funcs| < |p.funcs|
      invariant |m.funcs| <= |p.funcs| && Partial(p, m, pools, refused, |m.funcs|)
      invariant m.nImports == p.nImports && m.table == p.table && m.segments == p.segments && m.typeFp == fps.value
      invariant |m.funcType| == |p.funcs| && forall f :: 0 <= f < |p.funcs| ==> m.funcType[f] == p.funcs[f].ty
    {
      var f := |m.funcs|;
      ghost var before := m;
      if p.funcs[f].Import? {
        m := m.(funcs := m.funcs + [FuncMeta(0, 0, NumParams(p, f), NumResults(p, f), 0)]);
        pools := pools + [[]];
        ImportStep(p, before, m, pools, refused, f);
      } else {
        var meta, code, consts, refuses := LowerFunction(p, f, m.code, m.consts);
        pools := pools + [m.consts];
        m := m.(funcs := m.funcs + [meta], code := code, consts := consts);
        LocalStep(p, before, m, pools, refused, f, refuses);
        refused := if refuses then refused + {f} else refused;
      }
    }
    AllBuilt(p, m, pools, refused);
    r := Some(m);
  }

  lemma ImportStep(p: Program, m: Module, m': Module, pools: seq<seq<Word>>, r: set<nat>, f: nat)
    requires Translatable(p) && f < |p.funcs| && |pools| == f + 1 && Partial(p, m, pools[..f], r, f)
    requires p.funcs[f].Import? && m'.code == m.code && m'.consts == m.consts
    requires m'.funcs == m.funcs + [FuncMeta(0, 0, NumParams(p, f), NumResults(p, f), 0)]
    ensures Partial(p, m', pools, r, f + 1)
  {
    hide FuncBuilt, StubBuilt;
  }

  /** Code appended later does not disturb a function already built. */
  lemma OneGrows(p: Program, m: Module, m': Module, f: nat, pool: seq<Word>, refused: bool)
    requires f < |p.funcs| && p.funcs[f].Local? && p.funcs[f].ty < |p.types| && f < |m.funcs|
    requires OneBuilt(p, m, f, pool, refused)
    requires m.funcs <= m'.funcs && m.code <= m'.code && m.consts <= m'.consts
    ensures OneBuilt(p, m', f, pool, refused)
  {
    hide FuncBuilt, WellTyped, Completeness.FuncFits;
    if refused {
      var off := m.funcs[f].codeOff;
      assert m'.code[off..off + 2] == m'.code[..|m.code|][off..off + 2];
    } else {
      BuiltGrows(p, m, m', f, pool);
    }
  }

  lemma LocalStep(p: Program, m: Module, m': Module, pools: seq<seq<Word>>, r: set<nat>, f: nat, refused: bool)
    requires Translatable(p) && f < |p.funcs| && |pools| == f + 1 && Partial(p, m, pools[..f], r, f)
    requires p.funcs[f].Local? && pools[f] == m.consts && (refused <==> EmitFunc(p, f, |m.code|, m.consts).None?)
    requires |m'.funcs| == f + 1 && m'.funcs[..f] == m.funcs
    requires !refused ==>
      var e := EmitFunc(p, f, |m.code|, m.consts).value;
      var env := EnvOf(p, f);
      m'.funcs[f] == FuncMeta(|m.code|, |e.code| + 1, env.nParams, env.nResults, env.nLocals) &&
      m'.code == m.code + FuncCode(e.code, |m.code|) && m'.consts == e.st.consts
    requires refused ==>
      m.consts <= m'.consts && StubAt(m'.code, m'.funcs[f], NumParams(p, f), NumResults(p, f)) &&
      m.code <= m'.code[..m'.funcs[f].codeOff]
    ensures Partial(p, m', pools, if refused then r + {f} else r, f + 1)
  {
    hide EmitFunc, FuncBuilt, EnvOf, OneBuilt, StubBuilt, StubAt;
    NewOne(p, m, m', f, refused);
    assert m.funcs <= m'.funcs;
    var r' := if refused then r + {f} else r;
    forall g | p.nImports <= g < f + 1
      ensures OneBuilt(p, m', g, pools[g], g in r')
    {
      if g < f {
        assert OneBuilt(p, m, g, pools[..f][g], g in r);
        OneGrows(p, m, m', g, pools[g], g in r);
      }
    }
  }

  lemma NewOne(p: Program, m: Module, m': Module, f: nat, refused: bool)
    requires Translatable(p) && p.nImports <= f < |p.funcs| && |m.funcs| == f && |m'.funcs| == f + 1
    requires refused <==> EmitFunc(p, f, |m.code|, m.consts).None?
    requires !refused ==>
      var e := EmitFunc(p, f, |m.code|, m.consts).value;
      var env := EnvOf(p, f);
      m'.funcs[f] == FuncMeta(|m.code|, |e.code| + 1, env.nParams, env.nResults, env.nLocals) &&
      m'.code == m.code + FuncCode(e.code, |m.code|) && m'.consts == e.st.consts
    requires refused ==>
      m.consts <= m'.consts && StubAt(m'.code, m'.funcs[f], NumParams(p, f), NumResults(p, f)) &&
      m.code <= m'.code[..m'.funcs[f].codeOff]
    ensures OneBuilt(p, m', f, m.consts, refused) && m.code <= m'.code && m.consts <= m'.consts
  {
    hide EmitFunc, EnvOf, WellTyped, Completeness.FuncFits;
    if WellTyped(p) { Completeness.LoweringCondition(p, f, |m.code|, m.consts); }
    if refused {
      var off := m'.funcs[f].codeOff;
      assert m'.code[off..off + 2] == m'.code[off..];
      assert m.code == m'.code[..off][..|m.code|] == m'.code[..|m.code|];
    } else {
      var e := EmitFunc(p, f, |m.code|, m.consts).value;
      assert m'.code[|m.code|..|m.code| + |e.code| + 1] == FuncCode(e.code, |m.code|);
      PoolGrows(p, m, f);
    }
  }

  lemma PoolGrows(p: Program, m: Module, f: nat)
    requires f < |p.funcs| && p.funcs[f].Local? && p.funcs[f].ty < |p.types| && EmitFunc(p, f, |m.code|, m.consts).Some?
    ensures m.consts <= EmitFunc(p, f, |m.code|, m.consts).value.st.consts
  {
    hide EmitBody;
    var env := EnvOf(p, f);
    BodyPool(env, p.funcs[f].body, |m.code|, Tracked(0, false, m.consts), [Label(None, 0, env.nResults)], true);
  }

  /** What the loop has built is the module of the stubbed program. */
  lemma AllBuilt(p: Program, m: Module, pools: seq<seq<Word>>, r: set<nat>)
    requires Translatable(p) && Partial(p, m, pools, r, |p.funcs|)
    requires m.nImports == p.nImports && m.table == p.table && m.segments == p.segments && |m.typeFp| == |p.types|
    requires forall i :: 0 <= i < |p.types| ==>
      Fingerprint.Fits(p.types[i]) && m.typeFp[i] == Fingerprint.Fp(p.types[i])
    requires |m.funcType| == |p.funcs| && forall f :: 0 <= f < |p.funcs| ==> m.funcType[f] == p.funcs[f].ty
    ensures IsImage(Stubbed(p, r), m, pools)
    ensures WellTyped(p) ==> r == Completeness.Unfit(p)
  {
    hide FuncBuilt, StubBuilt, WellTyped, Completeness.FuncFits, Fingerprint.Fp;
    var p' := Stubbed(p, r);
    forall f | 0 <= f < |p.funcs|
      ensures SameHead(p.funcs[f], p'.funcs[f])
    {
    }
    forall f | p.nImports <= f < |p.funcs|
      ensures FuncBuilt(p', m, f, pools[f])
    {
      assert OneBuilt(p, m, f, pools[f], f in r);
      FinalBuilt(p, m, f, pools[f], r);
    }
    if WellTyped(p) {
      forall f | p.nImports <= f < |p.funcs|
        ensures f in r <==> !Completeness.FuncFits(p, f)
      {
        assert OneBuilt(p, m, f, pools[f], f in r);
      }
      FormedAgain(p);
      assert forall f :: f in r <==> f in Completeness.Unfit(p);
    }
  }

  lemma FormedAgain(p: Program)
    requires WellTyped(p)
    ensures WellFormed(p)
  {
  }

  lemma FinalBuilt(p: Program, m: Module, f: nat, pool: seq<Word>, r: set<nat>)
    requires f < |p.funcs| && p.funcs[f].Local? && p.funcs[f].ty < |p.types| && f < |m.funcs|
    requires if f in r then StubBuilt(p, m, f, pool) else FuncBuilt(p, m, f, pool)
    ensures FuncBuilt(Stubbed(p, r), m, f, pool)
  {
    hide EmitFunc, EnvOf;
    if f in r {
      StubCode(p, r, f, m.funcs[f].codeOff, pool);
      EnvSizes(Stubbed(p, r), f);
    } else {
      KeptCode(p, r, f, m.funcs[f].codeOff, pool);
    }
  }

  lemma EnvSizes(p: Program, f: nat)
    requires f < |p.funcs| && p.funcs[f].Local? && p.funcs[f].ty < |p.types|
    ensures EnvOf(p, f).nParams == NumParams(p, f) && EnvOf(p, f).nResults == NumResults(p, f)
  {
  }
}
