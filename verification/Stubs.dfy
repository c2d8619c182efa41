/** Bodies the translator refuses. It puts a stub that traps in their place and goes on; so what it has translated is
    the program with those bodies replaced by `unreachable`. */
module Stubs {
  import opened Words
  import opened Bytecode
  import opened Wasm
  import opened Emission
  import opened Reached
  import opened Verifying
  import Verifier

  function StubBody(): Body { Seq(Trap, End) }

  function StubFunc(g: Func): Func { if g.Local? then Local(g.ty, 0, StubBody()) else g }

  /** `p` with the bodies of the functions in `r` replaced. */
  function Stubbed(p: Program, r: set<nat>): (p': Program)
    ensures SameHeads(p, p')
  {
    p.(funcs := seq(|p.funcs|, f requires 0 <= f < |p.funcs| => if f in r then StubFunc(p.funcs[f]) else p.funcs[f]))
  }

  predicate SameHead(g: Func, g': Func) { if g.Import? then g' == g else g'.Local? && g'.ty == g.ty }

  /** The same but for bodies and locals. */
  predicate SameHeads(p: Program, p': Program) {
    && p' == p.(funcs := p'.funcs) && |p'.funcs| == |p.funcs|
    && forall f :: 0 <= f < |p.funcs| ==> SameHead(p.funcs[f], p'.funcs[f])
  }

  lemma StubNothing(p: Program)
    ensures Stubbed(p, {}) == p
  {
    assert Stubbed(p, {}).funcs == p.funcs;
  }

  // ----- neither emission nor typing of a body looks at other bodies -----

  lemma SameLink(env: Env, p': Program, d: nat, i: nat, pc: nat, st: Tracked, labels: seq<Label>, reach: bool)
    ensures EmitLink(env.(p := p'), d, i, pc, st, labels, reach) == EmitLink(env, d, i, pc, st, labels, reach)
    ensures EmitBranch(env.(p := p'), d, st, labels, reach) == EmitBranch(env, d, st, labels, reach)
  {
    hide Intern, Find;
  }

  lemma SameGuarded(env: Env, p': Program, d: nat, pc: nat, ht: int, st: Tracked, labels: seq<Label>, reach: bool)
    ensures EmitGuarded(env.(p := p'), d, pc, ht, st, labels, reach) == EmitGuarded(env, d, pc, ht, st, labels, reach)
  {
  }

  lemma {:induction false} SameChain(env: Env, env': Env, ds: seq<nat>, i: nat, default: nat, pc: nat, st: Tracked,
                                     labels: seq<Label>, reach: bool)
    requires i <= |ds| && env' == env.(p := env'.p)
    ensures EmitChain(env', ds, i, default, pc, st, labels, reach)
         == EmitChain(env, ds, i, default, pc, st, labels, reach)
    decreases |ds| - i
  {
    hide EmitLink, EmitBranch;
    if i == |ds| {
      SameLink(env, env'.p, default, i, pc, st, labels, reach);
    } else {
      SameLink(env, env'.p, ds[i], i, pc, st, labels, reach);
      var e1 := EmitLink(env, ds[i], i, pc, st, labels, reach);
      if e1.Some? { SameChain(env, env', ds, i + 1, default, pc + |e1.value.code|, e1.value.st, labels, reach); }
    }
  }

  lemma SameLeaf(env: Env, p': Program, i: Instr, pc: nat, st: Tracked, labels: seq<Label>, reach: bool)
    requires SameHeads(env.p, p') && !i.Block? && !i.Loop? && !i.IfThen? && !i.IfElse?
    ensures EmitInstr(env.(p := p'), i, pc, st, labels, reach) == EmitInstr(env, i, pc, st, labels, reach)
  {
    hide EmitChain, EmitBody, Intern, Find, EmitBranch, EmitGuarded;
    match i
    case Branch(d) => SameLink(env, p', d, 0, pc, st, labels, reach);
    case BranchIf(d) =>
      var st1 := Consume(st, 1, 0);
      if st1.Some? { SameGuarded(env, p', d, pc, Height(st, reach), st1.value, labels, reach); }
    case BranchTable(ds, default) =>
      var st1 := Consume(st, 1, 0);
      if st1.Some? { SameChain(env, env.(p := p'), ds, 0, default, pc + 1, st1.value, labels, reach); }
    case Invoke(f) => if f < |env.p.funcs| { assert SameHead(env.p.funcs[f], p'.funcs[f]); }
    case _ =>
  }

  lemma {:induction false} SameInstr(env: Env, p': Program, i: Instr, pc: nat, st: Tracked, labels: seq<Label>,
                                     reach: bool)
    requires SameHeads(env.p, p')
    ensures EmitInstr(env.(p := p'), i, pc, st, labels, reach) == EmitInstr(env, i, pc, st, labels, reach)
    decreases i, 1
  {
    hide EmitInstr, SameHeads;
    if i.Block? || i.Loop? {
      SameBlock(env, p', i, pc, st, labels, reach);
    } else if i.IfThen? {
      SameIf(env, p', i, pc, st, labels, reach);
    } else if i.IfElse? {
      SameArms(env, p', i, pc, st, labels, reach);
    } else {
      SameLeaf(env, p', i, pc, st, labels, reach);
    }
  }

  lemma {:induction false} SameBlock(env: Env, p': Program, i: Instr, pc: nat, st: Tracked, labels: seq<Label>,
                                     reach: bool)
    requires SameHeads(env.p, p') && (i.Block? || i.Loop?)
    ensures EmitInstr(env.(p := p'), i, pc, st, labels, reach) == EmitInstr(env, i, pc, st, labels, reach)
    decreases i, 0
  {
    hide EmitBody, Close, SameHeads;
    var base := BlockBase(st, i.np);
    if base.Some? {
      var l := if i.Block? then Label(None, base.value, i.nr) else Label(Some(pc), base.value, i.np);
      SameBody(env, p', i.body, pc, st, [l] + labels, reach && !st.dead);
    }
  }

  lemma {:induction false} SameIf(env: Env, p': Program, i: Instr, pc: nat, st: Tracked, labels: seq<Label>,
                                  reach: bool)
    requires SameHeads(env.p, p') && i.IfThen?
    ensures EmitInstr(env.(p := p'), i, pc, st, labels, reach) == EmitInstr(env, i, pc, st, labels, reach)
    decreases i, 0
  {
    hide EmitBody, Close, SameHeads;
    var live := reach && !st.dead;
    var st1 := Consume(st, 1, 0);
    if st1.Some? && BlockBase(st1.value, i.np).Some? {
      var l := Label(None, BlockBase(st1.value, i.np).value, i.nr);
      SameBody(env, p', i.thn, pc + 1, st1.value, [l] + labels, live);
    }
  }

  lemma {:induction false} SameArms(env: Env, p': Program, i: Instr, pc: nat, st: Tracked, labels: seq<Label>,
                                    reach: bool)
    requires SameHeads(env.p, p') && i.IfElse?
    ensures EmitInstr(env.(p := p'), i, pc, st, labels, reach) == EmitInstr(env, i, pc, st, labels, reach)
    decreases i, 0
  {
    hide EmitBody, Close, SameHeads;
    var live := reach && !st.dead;
    var st1 := Consume(st, 1, 0);
    if st1.Some? && BlockBase(st1.value, i.np).Some? {
      var l := Label(None, BlockBase(st1.value, i.np).value, i.nr);
      SameBody(env, p', i.thn, pc + 1, st1.value, [l] + labels, live);
      var e1 := EmitBody(env, i.thn, pc + 1, st1.value, [l] + labels, live);
      if e1.Some? {
        var st2 := Tracked(l.base + i.np, false, e1.value.st.consts);
        SameBody(env, p', i.els, pc + 2 + |e1.value.code|, st2, [l] + labels, live);
      }
    }
  }

  lemma {:induction false} SameBody(env: Env, p': Program, b: Body, pc: nat, st: Tracked, labels: seq<Label>,
                                    reach: bool)
    requires SameHeads(env.p, p')
    ensures EmitBody(env.(p := p'), b, pc, st, labels, reach) == EmitBody(env, b, pc, st, labels, reach)
    decreases b, 0
  {
    hide EmitInstr, SameHeads;
    if b.Seq? {
      SameInstr(env, p', b.head, pc, st, labels, reach);
      var e1 := EmitInstr(env, b.head, pc, st, labels, reach);
      if e1.Some? { SameBody(env, p', b.tail, pc + |e1.value.code|, e1.value.st, labels, reach); }
    }
  }

  lemma {:induction false} SameType(p: Program, p': Program, k: Ctx, i: Instr, t: Ty)
    requires SameHeads(p, p')
    ensures TypeInstr(p', k, i, t) == TypeInstr(p, k, i, t)
    decreases i, 0
  {
    hide TypeBody;
    match i
    case Block(np, nr, b) => SameTypes(p, p', Inner(k, nr), b, Ty(np, false));
    case Loop(np, nr, b) => SameTypes(p, p', Inner(k, np), b, Ty(np, false));
    case IfThen(np, nr, b) => SameTypes(p, p', Inner(k, nr), b, Ty(np, false));
    case IfElse(np, nr, b, c) =>
      SameTypes(p, p', Inner(k, nr), b, Ty(np, false));
      SameTypes(p, p', Inner(k, nr), c, Ty(np, false));
    case Invoke(f) => if f < |p.funcs| { assert SameHead(p.funcs[f], p'.funcs[f]); }
    case TailInvoke(f) => if f < |p.funcs| { assert SameHead(p.funcs[f], p'.funcs[f]); }
    case _ =>
  }

  lemma {:induction false} SameTypes(p: Program, p': Program, k: Ctx, b: Body, t: Ty)
    requires SameHeads(p, p')
    ensures TypeBody(p', k, b, t) == TypeBody(p, k, b, t)
    decreases b, 0
  {
    hide TypeInstr, SameHeads;
    if b.Seq? {
      SameType(p, p', k, b.head, t);
      var u := TypeInstr(p, k, b.head, t);
      if u.Some? { SameTypes(p, p', k, b.tail, u.value); }
    }
  }

  lemma {:induction false} SameNarrow(p: Program, p': Program, k: Ctx, i: Instr, t: Ty, base: int, limit: int)
    requires SameHeads(p, p')
    ensures InstrNarrow(p', k, i, t, base, limit) <==> InstrNarrow(p, k, i, t, base, limit)
    decreases i, 0
  {
    hide BodyNarrow, SameHeads;
    var h := base + t.h;
    match i
    case Block(np, nr, b) => SameNarrows(p, p', Inner(k, nr), b, Ty(np, false), h - np, limit);
    case Loop(np, nr, b) => SameNarrows(p, p', Inner(k, np), b, Ty(np, false), h - np, limit);
    case IfThen(np, nr, b) => SameNarrows(p, p', Inner(k, nr), b, Ty(np, false), h - 1 - np, limit);
    case IfElse(np, nr, b, c) =>
      SameNarrows(p, p', Inner(k, nr), b, Ty(np, false), h - 1 - np, limit);
      SameNarrows(p, p', Inner(k, nr), c, Ty(np, false), h - 1 - np, limit);
    case _ =>
  }

  lemma {:induction false} SameNarrows(p: Program, p': Program, k: Ctx, b: Body, t: Ty, base: int, limit: int)
    requires SameHeads(p, p')
    ensures BodyNarrow(p', k, b, t, base, limit) <==> BodyNarrow(p, k, b, t, base, limit)
    decreases b, 0
  {
    hide InstrNarrow, TypeInstr, SameHeads;
    if b.Seq? {
      SameNarrow(p, p', k, b.head, t, base, limit);
      SameType(p, p', k, b.head, t);
      var u := TypeInstr(p, k, b.head, t);
      if u.Some? { SameNarrows(p, p', k, b.tail, u.value, base, limit); }
    }
  }

  // ----- the stubbed program -----

  /** The code of a function that keeps its body is the same in both programs. */
  lemma KeptCode(p: Program, r: set<nat>, f: nat, off: nat, pool: seq<Word>)
    requires f < |p.funcs| && p.funcs[f].Local? && p.funcs[f].ty < |p.types| && f !in r
    ensures var p' := Stubbed(p, r);
      EnvOf(p', f) == EnvOf(p, f).(p := p') && EmitFunc(p', f, off, pool) == EmitFunc(p, f, off, pool)
  {
    hide EmitBody, UsesTable;
    var env := EnvOf(p, f);
    SameBody(env, Stubbed(p, r), p.funcs[f].body, off, Tracked(0, false, pool), [Label(None, 0, env.nResults)], true);
  }

  /** The code of a stub: UNREACHABLE and END_FUNC, with no locals. */
  lemma StubCode(p: Program, r: set<nat>, f: nat, off: nat, pool: seq<Word>)
    requires f < |p.funcs| && p.funcs[f].Local? && p.funcs[f].ty < |p.types| && f in r
    ensures var p' := Stubbed(p, r);
      var e := EmitFunc(p', f, off, pool);
      e.Some? && e.value.st.consts == pool && FuncCode(e.value.code, off) == [Unreachable, EndFunc] &&
      EnvOf(p', f).nLocals == 0 && |e.value.code| == 1
  {
    var p' := Stubbed(p, r);
    var env := EnvOf(p', f);
    var st, labels := Tracked(0, false, pool), [Label(None, 0, env.nResults)];
    var x := Fixed(Unreachable, 0);
    assert EmitInstr(env, Trap, off, st, labels, true) == Some(Emitted([x], Tracked(0, true, pool)));
    assert EmitBody(env, End, off + 1, Tracked(0, true, pool), labels, true) ==
      Some(Emitted([], Tracked(0, true, pool)));
    assert EmitBody(env, StubBody(), off, st, labels, true) == Some(Emitted([x] + [], Tracked(0, true, pool)));
    assert Resolved([x], [off + 1]) == [Unreachable];
  }

  /** Calling a stub traps and touches nothing. */
  lemma StubTraps(p: Program, r: set<nat>, host: Host, f: nat, args: seq<Word>, s: Store, n: nat)
    requires f < |p.funcs| && p.funcs[f].Local? && p.funcs[f].ty < |p.types| && f in r
    ensures ExecFunc(Stubbed(p, r), host, f, args, s, n) == Trapped(TrapUnreachable, s)
  {
    var p' := Stubbed(p, r);
    var nr := NumResults(p', f);
    var l := args + seq(0, _ => 0);
    assert p'.funcs[f] == Local(p.funcs[f].ty, 0, StubBody());
    assert ExecInstr(p', host, Ctx([nr], nr, |args| + 0), Trap, [], l, s, n) == Trapped(TrapUnreachable, s);
  }

  /** Stubs are well typed and narrow, so the program is if the bodies that are kept are. */
  lemma StubbedTyped(p: Program, r: set<nat>)
    requires WellTyped(p)
    ensures WellTyped(Stubbed(p, r))
  {
    hide TypeBody, TypeInstr;
    var p' := Stubbed(p, r);
    forall f | p'.nImports <= f < |p'.funcs|
      ensures BodyTyped(p', f)
    {
      assert BodyTyped(p, f) && SameHead(p.funcs[f], p'.funcs[f]);
      var nr := NumResults(p, f);
      var k := Ctx([nr], nr, NumParams(p', f) + p'.funcs[f].nLocals);
      if f in r {
        StubTyped(p', k);
      } else {
        SameTypes(p, p', k, p.funcs[f].body, Ty(0, false));
      }
    }
  }

  lemma StubTyped(p: Program, k: Ctx)
    ensures TypeBody(p, k, StubBody(), Ty(0, false)) == Some(Ty(0, true))
    ensures forall limit :: BodyNarrow(p, k, StubBody(), Ty(0, false), 0, limit) <==> 0 <= limit
  {
    assert TypeInstr(p, k, Trap, Ty(0, false)) == Some(Ty(0, true));
    assert TypeBody(p, k, End, Ty(0, true)) == Some(Ty(0, true));
  }

  lemma StubbedNarrow(p: Program, r: set<nat>)
    requires WellTyped(p) && forall f :: p.nImports <= f < |p.funcs| && f in r ==> NumParams(p, f) <= Verifier.MAX_U16
    ensures var p' := Stubbed(p, r);
      WellTyped(p') && (Narrow(p') <==> forall f :: p.nImports <= f < |p.funcs| && f !in r ==> FuncNarrow(p, f))
  {
    hide TypeBody, TypeInstr, FuncNarrow, WellTyped;
    var p' := Stubbed(p, r);
    StubbedTyped(p, r);
    assert WellFormed(p) && WellFormed(p') by { Formed(p); Formed(p'); }
    forall f | p.nImports <= f < |p.funcs|
      ensures FuncNarrow(p', f) <==> f in r || FuncNarrow(p, f)
    {
      assert SameHead(p.funcs[f], p'.funcs[f]);
      if f in r { StubIsNarrow(p, r, f); } else { KeptNarrow(p, r, f); }
    }
  }

  lemma Formed(p: Program)
    requires WellTyped(p)
    ensures WellFormed(p)
  {
  }

  lemma StubIsNarrow(p: Program, r: set<nat>, f: nat)
    requires f < |p.funcs| && p.funcs[f].Local? && p.funcs[f].ty < |p.types| && f in r
    requires NumParams(p, f) <= Verifier.MAX_U16
    ensures FuncNarrow(Stubbed(p, r), f)
  {
    var p' := Stubbed(p, r);
    var nr := NumResults(p', f);
    StubTyped(p', Ctx([nr], nr, NumParams(p', f) + p'.funcs[f].nLocals));
  }

  lemma KeptNarrow(p: Program, r: set<nat>, f: nat)
    requires f < |p.funcs| && p.funcs[f].Local? && p.funcs[f].ty < |p.types| && f !in r
    ensures FuncNarrow(Stubbed(p, r), f) <==> FuncNarrow(p, f)
  {
    hide BodyNarrow, BodyPasses, BodyOuts;
    var p' := Stubbed(p, r);
    var env, nr := EnvOf(p, f), NumResults(p, f);
    var k := Ctx([nr], nr, NumParams(p, f) + p.funcs[f].nLocals);
    SameNarrows(p, p', k, p.funcs[f].body, Ty(0, false), 0, Verifier.MAX_U16 - env.nParams - env.nLocals);
  }
}
