/** Meaning preservation: the simulation of whole bodies, calls and programs. */
module Preservation {
  import opened Words
  import opened Bytecode
  import opened Machine
  import opened Frames
  import opened Wasm
  import opened Emission
  import opened Safety
  import opened Simulation
  import Fingerprint

  /** The machine, started where `i` begins, does in `c` ticks what `i` means. */
  ghost predicate Mirrors(m: Module, host: Host, x: Spot, i: Instr, pc: nat, e: Emitted, stk: seq<Word>,
                          locals: seq<Word>, s: Store, n: nat, am: Am, c: nat, am': Am)
  {
    var o := ExecInstr(x.env.p, host, x.k, i, stk, locals, s, n);
    am' == ATicks(m, host, am, c) && Simulated(o, am', x, pc + |e.code|, |locals|, c, n) &&
    (!ResourceTrap(am'.status) ==> Tracks(x, i, stk, o, e))
  }

  lemma SimData(m: Module, host: Host, x: Spot, i: Instr, pc: nat, st: Tracked, e: Emitted, stk: seq<Word>,
                locals: seq<Word>, s: Store, n: nat, am: Am) returns (c: nat, am': Am)
    requires Ready(m, x, i, pc, st, e, stk, locals, s, am)
    requires i.Nop? || i.Reinterpret? || i.Value?
    ensures Mirrors(m, host, x, i, pc, e, stk, locals, s, n, am, c, am')
  {
    hide ATicks, CodeAt, Here;
    if i.Value? {
      HeadOf(m, pc, e.code, x.ends);
      var k := Find(st.consts, i.v);
      assert m.consts[k] == e.st.consts[k] == i.v;
      TickPush(m, host, am, pc, x.home, locals, x.under + stk, s, i.v);
      Regroup(x.under, stk, [i.v]);
      c, am' := 1, ATicks(m, host, am, 1);
    } else {
      NoTicks(m, host, am);
      c, am' := 0, am;
    }
  }

  lemma SimLocal(m: Module, host: Host, x: Spot, i: Instr, pc: nat, st: Tracked, e: Emitted, stk: seq<Word>,
                 locals: seq<Word>, s: Store, n: nat, am: Am) returns (c: nat, am': Am)
    requires Ready(m, x, i, pc, st, e, stk, locals, s, am) && (i.GetLocal? || i.SetLocal?)
    ensures Mirrors(m, host, x, i, pc, e, stk, locals, s, n, am, c, am')
  {
    hide ATicks, CodeAt, Here;
    HeadOf(m, pc, e.code, x.ends);
    var y := i.x;
    assert y % 65536 == y;
    if i.GetLocal? {
      LocalHere(am, pc, x.home, locals, x.under + stk, s, y);
      TickPush(m, host, am, pc, x.home, locals, x.under + stk, s, locals[y]);
      Regroup(x.under, stk, [locals[y]]);
    } else {
      TickSet(m, host, am, pc, x.home, locals, x.under, stk, s, y);
    }
    c, am' := 1, ATicks(m, host, am, 1);
  }

  lemma NoTicks(m: Module, host: Host, am: Am)
    ensures ATicks(m, host, am, 0) == am
  {
  }

  lemma HeadOf(m: Module, pc: nat, s: seq<Sym>, ends: seq<nat>)
    requires CodeAt(m, pc, s, ends) && |s| >= 1
    ensures pc < |m.code| && m.code[pc] == ResolveOne(s[0], ends) && CodeAt(m, pc + 1, s[1..], ends)
  {
    assert s == [s[0]] + s[1..];
    CodeAtHead(m, pc, s[0], s[1..], ends);
  }

  lemma LocalHere(am: Am, pc: nat, home: Home, locals: seq<Word>, ops: seq<Word>, s: Store, y: nat)
    requires Here(am, pc, home, locals, ops, s) && y < |locals|
    ensures am.acts.Act? && y < |am.acts.locals| == home.nSlots && am.acts.locals[y] == locals[y]
  {
    assert am.acts.locals[..|locals|][y] == locals[y];
  }

  lemma SimTee(m: Module, host: Host, x: Spot, i: Instr, pc: nat, st: Tracked, e: Emitted, stk: seq<Word>,
               locals: seq<Word>, s: Store, n: nat, am: Am) returns (c: nat, am': Am)
    requires Ready(m, x, i, pc, st, e, stk, locals, s, am) && i.TeeLocal?
    ensures Mirrors(m, host, x, i, pc, e, stk, locals, s, n, am, c, am')
  {
    hide ATicks, CodeAt, Here;
    var y, v := i.x, Last(stk, 1)[0];
    assert y % 65536 == y;
    HeadOf(m, pc, e.code, x.ends);
    HeadOf(m, pc + 1, e.code[1..], x.ends);
    TickSet(m, host, am, pc, x.home, locals, x.under, stk, s, y);
    var a := ATicks(m, host, am, 1);
    var l := locals[y := v];
    LocalHere(a, pc + 1, x.home, l, x.under + Wasm.Drop(stk, 1), s, y);
    TickPush(m, host, a, pc + 1, x.home, l, x.under + Wasm.Drop(stk, 1), s, v);
    Then(m, host, am, 1, 1);
    Regroup(x.under, Wasm.Drop(stk, 1), [v]);
    assert Wasm.Drop(stk, 1) + [v] == stk;
    c, am' := 2, ATicks(m, host, a, 1);
  }

  lemma SimBasic(m: Module, host: Host, x: Spot, i: Instr, pc: nat, st: Tracked, e: Emitted, stk: seq<Word>,
                 locals: seq<Word>, s: Store, n: nat, am: Am) returns (c: nat, am': Am)
    requires Ready(m, x, i, pc, st, e, stk, locals, s, am) && i.Basic? && x.env.p.segments == m.segments
    ensures Mirrors(m, host, x, i, pc, e, stk, locals, s, n, am, c, am')
  {
    hide ATicks, CodeAt, Here, Eval;
    HeadOf(m, pc, e.code, x.ends);
    TickSimple(m, host, am, pc, x.home, locals, x.under, stk, s, i.p);
    c, am' := 1, ATicks(m, host, am, 1);
  }

  lemma SimExit(m: Module, host: Host, x: Spot, i: Instr, pc: nat, st: Tracked, e: Emitted, stk: seq<Word>,
                locals: seq<Word>, s: Store, n: nat, am: Am) returns (c: nat, am': Am)
    requires Ready(m, x, i, pc, st, e, stk, locals, s, am) && (i.Ret? || i.Trap?)
    ensures Mirrors(m, host, x, i, pc, e, stk, locals, s, n, am, c, am')
  {
    hide ATicks, CodeAt;
    HeadOf(m, pc, e.code, x.ends);
    if i.Ret? {
      TickReturn(m, host, am, pc, x.home, locals, x.under, stk, s);
    } else {
      OneTick(m, host, am, Unreachable);
    }
    c, am' := 1, ATicks(m, host, am, 1);
  }

  /** Where a branch arrives is what its outcome says. */
  lemma ArrivedAgrees(am: Am, x: Spot, d: nat, stk: seq<Word>, locals: seq<Word>, s: Store, pc: nat, c: nat, n: nat)
    requires SpotOk(x) && c >= 1 && (ResourceTrap(am.status) || Arrived(am, x, d, stk, locals, s))
    requires d < |x.labels| && x.k.labels[d] <= |stk|
    ensures var o := BranchTo(x.k, d, stk, locals, s); o.Jump? && Simulated(o, am, x, pc, |locals|, c, n)
  {
    hide Here;
  }

  lemma SimBranch(m: Module, host: Host, x: Spot, i: Instr, pc: nat, st: Tracked, e: Emitted, stk: seq<Word>,
                  locals: seq<Word>, s: Store, n: nat, am: Am) returns (c: nat, am': Am)
    requires Ready(m, x, i, pc, st, e, stk, locals, s, am) && i.Branch?
    ensures Mirrors(m, host, x, i, pc, e, stk, locals, s, n, am, c, am')
  {
    hide ATicks, CodeAt, Here, EmitBranch, Arrived, Simulated, BranchTo;
    c, am' := TickBranch(m, host, x, i.d, pc, st, e.code, stk, locals, s, am);
    ArrivedAgrees(am', x, i.d, stk, locals, s, pc + |e.code|, c, n);
  }

  lemma SimBranchIf(m: Module, host: Host, x: Spot, i: Instr, pc: nat, st: Tracked, e: Emitted, stk: seq<Word>,
                    locals: seq<Word>, s: Store, n: nat, am: Am) returns (c: nat, am': Am)
    requires Ready(m, x, i, pc, st, e, stk, locals, s, am) && i.BranchIf?
    ensures Mirrors(m, host, x, i, pc, e, stk, locals, s, n, am, c, am')
  {
    hide ATicks, CodeAt, Here, EmitGuarded, Arrived, BranchTo;
    var rest := Wasm.Drop(stk, 1);
    c, am' := TickGuarded(m, host, x, i.d, pc, st.h, e.st, e.code, stk, locals, s, am);
    if Low(W32, Last(stk, 1)[0]) != 0 {
      ArrivedAgrees(am', x, i.d, rest, locals, s, pc + |e.code|, c, n);
    }
  }

  lemma SimTable(m: Module, host: Host, x: Spot, i: Instr, pc: nat, st: Tracked, e: Emitted, stk: seq<Word>,
                 locals: seq<Word>, s: Store, n: nat, am: Am) returns (c: nat, am': Am)
    requires Ready(m, x, i, pc, st, e, stk, locals, s, am) && i.BranchTable?
    ensures Mirrors(m, host, x, i, pc, e, stk, locals, s, n, am, c, am')
  {
    hide ATicks, CodeAt, EmitChain, Arrived, Simulated, BranchTo;
    var st1 := Consume(st, 1, 0).value;
    var e1 := EmitChain(x.env, i.ds, 0, i.default, pc + 1, st1, x.labels, true).value;
    CodeAtHead(m, pc, e.code[0], e1.code, x.ends);
    TickSet(m, host, am, pc, x.home, locals, x.under, stk, s, x.env.scratch);
    var a := ATicks(m, host, am, 1);
    var ix := Low(W32, Last(stk, 1)[0]);
    TargetsFit(x.k, Ty(|stk| - 1, false), i.ds, i.default);
    var c', a' := TickChain(m, host, x, i.ds, 0, i.default, pc + 1, st1, e1, Wasm.Drop(stk, 1), locals, s, ix, a);
    Then(m, host, am, 1, c');
    c, am' := 1 + c', a';
    var d := if ix < |i.ds| then i.ds[ix] else i.default;
    ArrivedAgrees(am', x, d, Wasm.Drop(stk, 1), locals, s, pc + |e.code|, c, n);
  }

  lemma TargetsFit(k: Ctx, t: Ty, ds: seq<nat>, default: nat)
    requires Targets(k, t, ds + [default]) && !t.dead
    ensures forall j :: 0 <= j < |ds| ==> ds[j] < |k.labels| && k.labels[ds[j]] <= t.h
    ensures default < |k.labels| && k.labels[default] <= t.h
  {
    var all := ds + [default];
    assert all[|ds|] == default;
    forall j | 0 <= j < |ds|
      ensures ds[j] < |k.labels| && k.labels[ds[j]] <= t.h
    {
      assert all[j] == ds[j];
    }
  }

  // ----- the constant pool -----

  lemma {:induction false} InstrPool(env: Env, i: Instr, pc: nat, st: Tracked, labels: seq<Label>, reach: bool)
    ensures var e := EmitInstr(env, i, pc, st, labels, reach); e.Some? ==> st.consts <= e.value.st.consts
    decreases i, 1
  {
    hide EmitInstr;
    if i.Block? || i.Loop? {
      BlockPool(env, i, pc, st, labels, reach);
    } else if i.IfThen? {
      IfPool(env, i, pc, st, labels, reach);
    } else if i.IfElse? {
      IfElsePool(env, i, pc, st, labels, reach);
    } else {
      LeafPool(env, i, pc, st, labels, reach);
    }
  }

  lemma {:induction false} BlockPool(env: Env, i: Instr, pc: nat, st: Tracked, labels: seq<Label>, reach: bool)
    requires i.Block? || i.Loop?
    ensures var e := EmitInstr(env, i, pc, st, labels, reach); e.Some? ==> st.consts <= e.value.st.consts
    decreases i, 0
  {
    hide EmitBranch, EmitGuarded, EmitChain, EmitBody, Close;
    var base := BlockBase(st, i.np);
    if base.Some? {
      var l := if i.Block? then Label(None, base.value, i.nr) else Label(Some(pc), base.value, i.np);
      BodyPool(env, i.body, pc, st, [l] + labels, reach && !st.dead);
    }
  }

  lemma {:induction false} IfPool(env: Env, i: Instr, pc: nat, st: Tracked, labels: seq<Label>, reach: bool)
    requires i.IfThen?
    ensures var e := EmitInstr(env, i, pc, st, labels, reach); e.Some? ==> st.consts <= e.value.st.consts
    decreases i, 0
  {
    hide EmitBranch, EmitGuarded, EmitChain, EmitBody, Close;
    var st1 := Consume(st, 1, 0);
    if st1.Some? && BlockBase(st1.value, i.np).Some? {
      var l := Label(None, BlockBase(st1.value, i.np).value, i.nr);
      BodyPool(env, i.thn, pc + 1, st1.value, [l] + labels, reach && !st.dead);
    }
  }

  lemma {:induction false} IfElsePool(env: Env, i: Instr, pc: nat, st: Tracked, labels: seq<Label>, reach: bool)
    requires i.IfElse?
    ensures var e := EmitInstr(env, i, pc, st, labels, reach); e.Some? ==> st.consts <= e.value.st.consts
    decreases i, 0
  {
    hide EmitBranch, EmitGuarded, EmitChain, EmitBody, Close;
    var live := reach && !st.dead;
    var st1 := Consume(st, 1, 0);
    if st1.Some? && BlockBase(st1.value, i.np).Some? {
      var base := BlockBase(st1.value, i.np).value;
      var inner := [Label(None, base, i.nr)] + labels;
      BodyPool(env, i.thn, pc + 1, st1.value, inner, live);
      var e1 := EmitBody(env, i.thn, pc + 1, st1.value, inner, live);
      if e1.Some? {
        BodyPool(env, i.els, pc + 2 + |e1.value.code|, Tracked(base + i.np, false, e1.value.st.consts), inner, live);
      }
    }
  }

  lemma LeafPool(env: Env, i: Instr, pc: nat, st: Tracked, labels: seq<Label>, reach: bool)
    requires !(i.Block? || i.Loop? || i.IfThen? || i.IfElse?)
    ensures var e := EmitInstr(env, i, pc, st, labels, reach); e.Some? ==> st.consts <= e.value.st.consts
  {
    hide EmitBranch, EmitGuarded, EmitChain, EmitBody, Close;
    if i.BranchTable? {
      var st1 := Consume(st, 1, 0);
      if st1.Some? { ChainPool(env, i.ds, 0, i.default, pc + 1, st1.value, labels, reach); }
    }
  }

  lemma {:induction false} BodyPool(env: Env, b: Body, pc: nat, st: Tracked, labels: seq<Label>, reach: bool)
    ensures var e := EmitBody(env, b, pc, st, labels, reach); e.Some? ==> st.consts <= e.value.st.consts
    decreases b, 0
  {
    hide EmitInstr;
    if b.Seq? {
      InstrPool(env, b.head, pc, st, labels, reach);
      var e := EmitInstr(env, b.head, pc, st, labels, reach);
      if e.Some? { BodyPool(env, b.tail, pc + |e.value.code|, e.value.st, labels, reach); }
    }
  }

  // ----- bodies and blocks -----

  ghost predicate ReadyBody(m: Module, x: Spot, b: Body, pc: nat, st: Tracked, e: Emitted, stk: seq<Word>,
                            locals: seq<Word>, s: Store, am: Am)
  {
    && SpotOk(x) && !st.dead && st.h == |x.under| + |stk|
    && EmitBody(x.env, b, pc, st, x.labels, true) == Some(e)
    && CodeAt(m, pc, e.code, x.ends) && e.st.consts <= m.consts
    && TypeBody(x.env.p, x.k, b, Ty(|stk|, false)).Some?
    && (UsesTable(b) ==> x.env.scratch < x.home.nSlots)
    && |locals| == x.k.nLocals
    && Here(am, pc, x.home, locals, x.under + stk, s)
  }

  /** The machine, started where `b` begins, does in `c` ticks what `b` means. */
  ghost predicate MirrorsBody(m: Module, host: Host, x: Spot, b: Body, pc: nat, e: Emitted, stk: seq<Word>,
                              locals: seq<Word>, s: Store, n: nat, am: Am, c: nat, am': Am)
  {
    var o := ExecBody(x.env.p, host, x.k, b, stk, locals, s, n);
    am' == ATicks(m, host, am, c) && Simulated(o, am', x, pc + |e.code|, |locals|, c, n) &&
    (o.Normal? && !ResourceTrap(am'.status) ==>
       TypeBody(x.env.p, x.k, b, Ty(|stk|, false)) == Some(Ty(|o.stk|, false)) &&
       !e.st.dead && e.st.h == |x.under| + |o.stk|)
  }

  /** A block of arity `l.arity` entered on top of `rest`, with `nr` results at its end. */
  ghost predicate ReadyBlock(m: Module, x: Spot, l: Label, end: nat, b: Body, nr: nat, pc: nat, st: Tracked, e: Emitted,
                             rest: seq<Word>, args: seq<Word>, locals: seq<Word>, s: Store, am: Am)
  {
    && SpotOk(x) && !st.dead && st.h == |x.under| + |rest| + |args| && l.base == |x.under| + |rest|
    && EmitBody(x.env, b, pc, st, [l] + x.labels, true) == Some(e)
    && CodeAt(m, pc, e.code, [end] + x.ends) && e.st.consts <= m.consts
    && Ends(TypeBody(x.env.p, Inner(x.k, l.arity), b, Ty(|args|, false)), nr)
    && (UsesTable(b) ==> x.env.scratch < x.home.nSlots)
    && |locals| == x.k.nLocals
    && Here(am, pc, x.home, locals, x.under + (rest + args), s)
  }

  lemma EnterReady(m: Module, x: Spot, l: Label, end: nat, b: Body, nr: nat, pc: nat, st: Tracked, e: Emitted,
                   rest: seq<Word>, args: seq<Word>, locals: seq<Word>, s: Store, am: Am)
    requires ReadyBlock(m, x, l, end, b, nr, pc, st, e, rest, args, locals, s, am)
    ensures ReadyBody(m, Simulation.Enter(x, l, end, x.under + rest), b, pc, st, e, args, locals, s, am)
  {
    hide EmitBody, TypeBody, CodeAt, Here, UsesTable;
    Regroup(x.under, rest, args);
    var y := Simulation.Enter(x, l, end, x.under + rest);
    forall d | 0 <= d < |y.labels|
      ensures y.labels[d].arity == y.k.labels[d] && y.labels[d].base <= |y.under|
    {
      if d > 0 { assert y.labels[d] == x.labels[d - 1] && y.k.labels[d] == x.k.labels[d - 1]; }
    }
  }

  /** Leaving a block or `if`: its end and the branches to it meet at `end`, with its results on top of `rest`. */
  lemma LeaveBlock(o: Outcome, am: Am, x: Spot, l: Label, end: nat, rest: seq<Word>, nl: nat, c: nat, n: nat)
    requires Simulated(o, am, Simulation.Enter(x, l, end, x.under + rest), end, nl, c, n)
    requires |x.labels| == |x.ends| && l.base == |x.under| + |rest| && (o.Jump? && o.d == 0 ==> l.start.None?)
    requires forall d :: 0 <= d < |x.labels| ==> x.labels[d].base <= |x.under|
    ensures Simulated(Leave(o, rest), am, x, end, nl, c, n)
    ensures o.Jump? && o.d == 0 && !ResourceTrap(am.status) ==> |o.vals| == l.arity
  {
    hide Here, Paid;
    var under := x.under + rest;
    if !ResourceTrap(am.status) {
      match o
      case Normal(vs, _, _) => Regroup(x.under, rest, vs);
      case Jump(d, vs, _, _) =>
        if d == 0 {
          assert under[..l.base] == under;
          Regroup(x.under, rest, vs);
        } else {
          var b := x.labels[d - 1].base;
          assert under[..b] == x.under[..b];
        }
      case _ =>
    }
  }

  // ----- calls on the machine -----

  /** The callee's activation, on top of a caller that has given up its arguments. */
  function CalleeHome(a: Am, under: seq<Word>, stk: seq<Word>, f: FuncMeta): Home
    requires a.acts.Act? && f.nParams <= |stk|
  {
    Home(a.acts.(ops := under + Wasm.Drop(stk, f.nParams)), a.pc, f.nResults, f.nParams + f.nLocals)
  }

  lemma EnterHere(a: Am, pc: nat, home: Home, locals: seq<Word>, under: seq<Word>, stk: seq<Word>, s: Store,
                  f: FuncMeta, nl: nat)
    requires Here(a, pc, home, locals, under + stk, s) && f.nParams <= |stk| && nl <= f.nLocals
    ensures var r := AEnter(a, f);
      ResourceTrap(r.status) ||
      Here(r, f.codeOff, CalleeHome(a, under, stk, f), Last(stk, f.nParams) + seq(nl, _ => 0), [], s)
  {
    hide Flat, Depth;
    PopHere(a, pc, home, locals, under, stk, s, f.nParams);
    var args := Last(stk, f.nParams);
    assert (args + Zeros(f.nLocals))[..|args| + nl] == args + seq(nl, _ => 0);
  }

  lemma PaidBack(am: Am, a: Am, pc: nat, home: Home, locals: seq<Word>, under: seq<Word>, stk: seq<Word>, s: Store,
                 f: FuncMeta, vs: seq<Word>, s': Store)
    requires Here(a, pc, home, locals, under + stk, s) && f.nParams <= |stk|
    requires Paid(am, CalleeHome(a, under, stk, f), vs, s')
    ensures Here(am, pc, home, locals, under + (Wasm.Drop(stk, f.nParams) + vs), s')
  {
    Regroup(under, Wasm.Drop(stk, f.nParams), vs);
  }

  /** The machine, started at the entry of `f`, does in `c` ticks what calling it means. */
  ghost predicate Called(p: Program, m: Module, host: Host, f: nat, args: seq<Word>, s: Store, n: nat, am: Am,
                         home: Home, c: nat, am': Am)
    requires f < |p.funcs| && p.funcs[f].Local? && p.funcs[f].ty < |p.types|
  {
    am' == ATicks(m, host, am, c) && FuncAgrees(ExecFunc(p, host, f, args, s, n), am', home, c, n)
  }

  ghost predicate FuncAgrees(o: Outcome, am: Am, home: Home, c: nat, n: nat) {
    ResourceTrap(am.status) ||
    match o
    case Returned(vs, s') => Paid(am, home, vs, s')
    case Trapped(st, s') => am.status == st && TrapStatus(st) && am.store == s'
    case Timeout => am.status == Running && c >= n
    case _ => false
  }

  /** A call seen from the caller: `a` is the caller past the call instruction, `k` ticks into the run. */
  lemma AfterCallAgrees(o: Outcome, am: Am, a: Am, pc: nat, x: Spot, locals: seq<Word>, stk: seq<Word>, s: Store,
                        f: FuncMeta, c: nat, n: nat)
    requires Here(a, pc, x.home, locals, x.under + stk, s) && f.nParams <= |stk|
    requires FuncAgrees(o, am, CalleeHome(a, x.under, stk, f), c, n)
    ensures Simulated(AfterCall(o, Wasm.Drop(stk, f.nParams), locals), am, x, pc, |locals|, c + 1, n + 1)
    ensures o.Returned? && !ResourceTrap(am.status) ==> |o.vals| == f.nResults
  {
    hide Here;
    if !ResourceTrap(am.status) && o.Returned? {
      PaidBack(am, a, pc, x.home, locals, x.under, stk, s, f, o.vals, o.store);
    }
  }

  lemma PastImports(p: Program, m: Module, pools: seq<seq<Word>>, f: nat)
    requires IsImage(p, m, pools) && p.nImports <= f < |p.funcs|
    ensures p.funcs[f].Local?
  {
    hide FuncBuilt;
  }

  lemma MetaOf(p: Program, m: Module, pools: seq<seq<Word>>, f: nat)
    requires IsImage(p, m, pools) && f < |p.funcs| && p.funcs[f].Local?
    ensures p.funcs[f].ty < |p.types| && f < |m.funcs| && f >= p.nImports
    ensures m.funcs[f].nParams == NumParams(p, f) && m.funcs[f].nResults == NumResults(p, f)
    ensures p.funcs[f].nLocals <= m.funcs[f].nLocals
  {
    hide EmitFunc;
    assert FuncBuilt(p, m, f, pools[f]);
  }

  /** A host call: the machine suspends, the driver answers, the results are pushed. */
  lemma TickHost(m: Module, host: Host, am: Am, pc: nat, home: Home, locals: seq<Word>, under: seq<Word>,
                 stk: seq<Word>, s: Store, np: nat, nr: nat, fn: nat) returns (am': Am)
    requires Here(am, pc, home, locals, under + stk, s) && np <= |stk| && np <= MAIL_CAP && WellBehaved(host)
    requires pc < |m.code| && m.code[pc] == CallHost(np, nr, fn)
    ensures am' == ATicks(m, host, am, 2)
    ensures var o := HostCall(host, fn, Last(stk, np), nr, s);
      ResourceTrap(am'.status) ||
      match o
      case Returned(vs, s') => |vs| == nr && Here(am', pc + 1, home, locals, under + (Wasm.Drop(stk, np) + vs), s')
      case Trapped(st, s') => am'.status == st && TrapStatus(st) && am'.store == s'
      case _ => false
  {
    hide Flat;
    OneTick(m, host, am, CallHost(np, nr, fn));
    var a := am.(pc := pc + 1);
    PopHere(a, pc + 1, home, locals, under, stk, s, np);
    var b := ATicks(m, host, am, 1);
    var args := Last(stk, np);
    assert b == APop(a, np).(mail := Mail(fn, args, nr), status := HostcallPending);
    var log := s.log + [HostEvent(fn, args, nr, s.mem)];
    assert EventOf(b.mail, b.store) == HostEvent(fn, args, nr, s.mem);
    assert log[|log| - 1].nResults == nr;
    am' := AResume(host, b);
    assert ATick(m, host, b) == am';
    Then(m, host, am, 1, 1);
    assert ATicks(m, host, b, 1) == ATicks(m, host, am', 0) == am';
    var s' := s.(log := log);
    var v := APop(a, np).(mail := b.mail, store := s', status := Running);
    if host(log).Some? {
      PushHere(v, pc + 1, home, locals, under + Wasm.Drop(stk, np), s', host(log).value);
      Regroup(under, Wasm.Drop(stk, np), host(log).value);
    }
  }

  // ----- the simulation -----

  lemma {:induction false} SimBody(m: Module, host: Host, pools: seq<seq<Word>>, x: Spot, b: Body, pc: nat, st: Tracked,
      e: Emitted, stk: seq<Word>, locals: seq<Word>, s: Store, n: nat, am: Am) returns (c: nat, am': Am)
    requires World(x.env.p, m, host, pools) && ReadyBody(m, x, b, pc, st, e, stk, locals, s, am)
    ensures MirrorsBody(m, host, x, b, pc, e, stk, locals, s, n, am, c, am')
    decreases n, 1, b, 0
  {
    hide ATicks, CodeAt, Here, Paid, World, EmitInstr, ExecInstr, TypeInstr, InstrUsesTable, SpotOk;
    c, am' := 0, am;
    match b
    case End => NoTicks(m, host, am);
    case Seq(i, t) =>
      var e1 := EmitInstr(x.env, i, pc, st, x.labels, true).value;
      var e2 := EmitBody(x.env, t, pc + |e1.code|, e1.st, x.labels, true).value;
      CodeAtParts(m, pc, e1.code, e2.code, x.ends);
      BodyPool(x.env, t, pc + |e1.code|, e1.st, x.labels, true);
      assert e1.st.consts <= m.consts;
      c, am' := SimInstr(m, host, pools, x, i, pc, st, e1, stk, locals, s, n, am);
      var o := ExecInstr(x.env.p, host, x.k, i, stk, locals, s, n);
      if !ResourceTrap(am'.status) && o.Normal? {
        var c', a := SimBody(m, host, pools, x, t, pc + |e1.code|, e1.st, e2, o.stk, o.locals, o.store, n, am');
        Then(m, host, am, c, c');
        c, am' := c + c', a;
      }
  }

  /** The inside of a block, entered with `args` on top of `rest`. */
  lemma {:induction false} SimInside(m: Module, host: Host, pools: seq<seq<Word>>, x: Spot, l: Label, end: nat, b: Body,
      nr: nat, pc: nat, st: Tracked, e: Emitted, rest: seq<Word>, args: seq<Word>, locals: seq<Word>, s: Store, n: nat,
      am: Am) returns (c: nat, am': Am)
    requires World(x.env.p, m, host, pools)
    requires ReadyBlock(m, x, l, end, b, nr, pc, st, e, rest, args, locals, s, am)
    ensures var o := ExecBody(x.env.p, host, Inner(x.k, l.arity), b, args, locals, s, n);
      am' == ATicks(m, host, am, c) &&
      Simulated(o, am', Simulation.Enter(x, l, end, x.under + rest), pc + |e.code|, |locals|, c, n) &&
      (o.Normal? && !ResourceTrap(am'.status) ==> |o.stk| == nr)
    decreases n, 1, b, 1
  {
    hide ATicks, CodeAt, Here, Paid, World, EmitBody, ExecBody, TypeBody, UsesTable, Simulated;
    EnterReady(m, x, l, end, b, nr, pc, st, e, rest, args, locals, s, am);
    c, am' := SimBody(m, host, pools, Simulation.Enter(x, l, end, x.under + rest), b, pc, st, e, args, locals, s, n,
      am);
  }

  lemma {:induction false} SimBlock(m: Module, host: Host, pools: seq<seq<Word>>, x: Spot, i: Instr, pc: nat,
                                    st: Tracked, e: Emitted, stk: seq<Word>, locals: seq<Word>, s: Store, n: nat,
                                    am: Am) returns (c: nat, am': Am)
    requires World(x.env.p, m, host, pools) && Ready(m, x, i, pc, st, e, stk, locals, s, am)
    requires i.Block?
    ensures Mirrors(m, host, x, i, pc, e, stk, locals, s, n, am, c, am')
    decreases n, 1, i, 1
  {
    hide ATicks, CodeAt, Here, Paid, World, EmitBody, ExecBody, TypeBody, UsesTable, Close;
    var rest, args := Wasm.Drop(stk, i.np), Last(stk, i.np);
    var l := Label(None, |x.under| + |rest|, i.nr);
    var e1 := EmitBody(x.env, i.body, pc, st, [l] + x.labels, true).value;
    var end := pc + |e1.code|;
    CodeAtClose(m, pc, e1.code, end, x.ends);
    assert rest + args == stk;
    c, am' := SimInside(m, host, pools, x, l, end, i.body, i.nr, pc, st, e1, rest, args, locals, s, n, am);
    var o := ExecBody(x.env.p, host, Inner(x.k, i.nr), i.body, args, locals, s, n);
    LeaveBlock(o, am', x, l, end, rest, |locals|, c, n);
  }

  lemma {:induction false} SimInstr(m: Module, host: Host, pools: seq<seq<Word>>, x: Spot, i: Instr, pc: nat,
                                    st: Tracked, e: Emitted, stk: seq<Word>, locals: seq<Word>, s: Store, n: nat,
                                    am: Am) returns (c: nat, am': Am)
    requires World(x.env.p, m, host, pools) && Ready(m, x, i, pc, st, e, stk, locals, s, am)
    ensures Mirrors(m, host, x, i, pc, e, stk, locals, s, n, am, c, am')
    decreases n, 1, i, 2
  {
    hide Ready, Mirrors, World;
    match i
    case Block(_, _, _) => c, am' := SimBlock(m, host, pools, x, i, pc, st, e, stk, locals, s, n, am);
    case Loop(_, _, _) => c, am' := SimLoop(m, host, pools, x, i, pc, st, e, stk, locals, s, n, am);
    case IfThen(_, _, _) => c, am' := SimIf(m, host, pools, x, i, pc, st, e, stk, locals, s, n, am);
    case IfElse(_, _, _, _) => c, am' := SimIfElse(m, host, pools, x, i, pc, st, e, stk, locals, s, n, am);
    case Branch(_) => c, am' := SimBranch(m, host, x, i, pc, st, e, stk, locals, s, n, am);
    case BranchIf(_) => c, am' := SimBranchIf(m, host, x, i, pc, st, e, stk, locals, s, n, am);
    case BranchTable(_, _) => c, am' := SimTable(m, host, x, i, pc, st, e, stk, locals, s, n, am);
    case Ret => c, am' := SimExit(m, host, x, i, pc, st, e, stk, locals, s, n, am);
    case Trap => c, am' := SimExit(m, host, x, i, pc, st, e, stk, locals, s, n, am);
    case Invoke(_) => c, am' := SimInvoke(m, host, pools, x, i, pc, st, e, stk, locals, s, n, am);
    case TailInvoke(_) => c, am' := SimTail(m, host, pools, x, i, pc, st, e, stk, locals, s, n, am);
    case InvokeIndirect(_) => c, am' := SimIndirect(m, host, pools, x, i, pc, st, e, stk, locals, s, n, am);
    case TeeLocal(_) => c, am' := SimTee(m, host, x, i, pc, st, e, stk, locals, s, n, am);
    case Basic(_) =>
      SameSegments(x.env.p, m, host, pools);
      c, am' := SimBasic(m, host, x, i, pc, st, e, stk, locals, s, n, am);
    case GetLocal(_) => c, am' := SimLocal(m, host, x, i, pc, st, e, stk, locals, s, n, am);
    case SetLocal(_) => c, am' := SimLocal(m, host, x, i, pc, st, e, stk, locals, s, n, am);
    case _ => c, am' := SimData(m, host, x, i, pc, st, e, stk, locals, s, n, am);
  }

  lemma SameSegments(p: Program, m: Module, host: Host, pools: seq<seq<Word>>)
    requires World(p, m, host, pools)
    ensures p.segments == m.segments
  {
  }

  lemma {:induction false} SimLoop(m: Module, host: Host, pools: seq<seq<Word>>, x: Spot, i: Instr, pc: nat,
                                   st: Tracked, e: Emitted, stk: seq<Word>, locals: seq<Word>, s: Store, n: nat, am: Am)
    returns (c: nat, am': Am)
    requires World(x.env.p, m, host, pools) && Ready(m, x, i, pc, st, e, stk, locals, s, am)
    requires i.Loop?
    ensures Mirrors(m, host, x, i, pc, e, stk, locals, s, n, am, c, am')
    decreases n, 1, i, 1
  {
    hide ATicks, CodeAt, Here, Paid, World, EmitBody, ExecBody, TypeBody, UsesTable, Close;
    var rest, args := Wasm.Drop(stk, i.np), Last(stk, i.np);
    var l := Label(Some(pc), |x.under| + |rest|, i.np);
    var e1 := EmitBody(x.env, i.body, pc, st, [l] + x.labels, true).value;
    var end := pc + |e1.code|;
    CodeAtClose(m, pc, e1.code, end, x.ends);
    assert rest + args == stk;
    c, am' := SimInside(m, host, pools, x, l, end, i.body, i.nr, pc, st, e1, rest, args, locals, s, n, am);
    var o := ExecBody(x.env.p, host, Inner(x.k, i.np), i.body, args, locals, s, n);
    if o.Jump? && o.d == 0 {
      if !ResourceTrap(am'.status) {
        BackToLoop(o, am', x, l, pc, end, rest, |locals|, c, n);
        if n > 0 {
          var stk' := rest + o.vals;
          var c', a := SimInstr(m, host, pools, x, i, pc, st, e, stk', o.locals, o.store, n - 1, am');
          Then(m, host, am, c, c');
          c, am' := c + c', a;
        }
      }
    } else {
      LeaveBlock(o, am', x, l, end, rest, |locals|, c, n);
    }
  }

  /** A branch to a loop label is back at the header with the loop's parameters. */
  lemma BackToLoop(o: Outcome, am: Am, x: Spot, l: Label, pc: nat, end: nat, rest: seq<Word>, nl: nat, c: nat, n: nat)
    requires o.Jump? && o.d == 0 && l.start == Some(pc) && l.base == |x.under| + |rest|
    requires Agrees(o, am, Simulation.Enter(x, l, end, x.under + rest), end, nl, c, n)
    ensures c >= 1 && |o.vals| == l.arity && |o.locals| == nl
    ensures Here(am, pc, x.home, o.locals, x.under + (rest + o.vals), o.store) && am.status == Running
  {
    assert (x.under + rest)[..l.base] == x.under + rest;
    Regroup(x.under, rest, o.vals);
  }

  /** One more tick in front. */
  lemma Later(o: Outcome, am: Am, x: Spot, pc: nat, nl: nat, c: nat, n: nat)
    requires Simulated(o, am, x, pc, nl, c, n)
    ensures Simulated(o, am, x, pc, nl, c + 1, n)
  {
  }

  lemma {:induction false} SimIf(m: Module, host: Host, pools: seq<seq<Word>>, x: Spot, i: Instr, pc: nat, st: Tracked,
      e: Emitted, stk: seq<Word>, locals: seq<Word>, s: Store, n: nat, am: Am) returns (c: nat, am': Am)
    requires World(x.env.p, m, host, pools) && Ready(m, x, i, pc, st, e, stk, locals, s, am)
    requires i.IfThen?
    ensures Mirrors(m, host, x, i, pc, e, stk, locals, s, n, am, c, am')
    decreases n, 1, i, 1
  {
    hide ATicks, CodeAt, Here, Paid, World, EmitBody, ExecBody, TypeBody, UsesTable, Close, Arrived, Eval, HostCall;
    var popped := Wasm.Drop(stk, 1);
    var rest, args := Wasm.Drop(popped, i.np), Last(popped, i.np);
    var l := Label(None, |x.under| + |rest|, i.nr);
    var st1 := Consume(st, 1, 0).value;
    var e1 := EmitBody(x.env, i.thn, pc + 1, st1, [l] + x.labels, true).value;
    var end := pc + 1 + |e1.code|;
    CodeAtHead(m, pc, e.code[0], Close(e1.code, end), x.ends);
    CodeAtClose(m, pc + 1, e1.code, end, x.ends);
    assert rest + args == popped;
    TickBrIfNot(m, host, am, pc, x.home, locals, x.under, stk, s, end);
    var a := ATicks(m, host, am, 1);
    c, am' := 1, a;
    if Low(W32, Last(stk, 1)[0]) != 0 {
      c, am' := SimInside(m, host, pools, x, l, end, i.thn, i.nr, pc + 1, st1, e1, rest, args, locals, s, n, a);
      var o := ExecBody(x.env.p, host, Inner(x.k, i.nr), i.thn, args, locals, s, n);
      LeaveBlock(o, am', x, l, end, rest, |locals|, c, n);
      Later(Leave(o, rest), am', x, end, |locals|, c, n);
      Then(m, host, am, 1, c);
      c := c + 1;
    }
  }

  lemma {:induction false} SimIfElse(m: Module, host: Host, pools: seq<seq<Word>>, x: Spot, i: Instr, pc: nat,
                                     st: Tracked, e: Emitted, stk: seq<Word>, locals: seq<Word>, s: Store, n: nat,
                                     am: Am) returns (c: nat, am': Am)
    requires World(x.env.p, m, host, pools) && Ready(m, x, i, pc, st, e, stk, locals, s, am)
    requires i.IfElse?
    ensures Mirrors(m, host, x, i, pc, e, stk, locals, s, n, am, c, am')
    decreases n, 1, i, 1
  {
    hide ATicks, CodeAt, Here, Paid, World, EmitBody, ExecBody, TypeBody, UsesTable, Close, Arrived, Eval, HostCall;
    var popped := Wasm.Drop(stk, 1);
    var rest, args := Wasm.Drop(popped, i.np), Last(popped, i.np);
    var l := Label(None, |x.under| + |rest|, i.nr);
    var st1 := Consume(st, 1, 0).value;
    var e1 := EmitBody(x.env, i.thn, pc + 1, st1, [l] + x.labels, true).value;
    var mid := pc + 2 + |e1.code|;
    var st2 := Tracked(l.base + i.np, false, e1.st.consts);
    var e2 := EmitBody(x.env, i.els, mid, st2, [l] + x.labels, true).value;
    var end := mid + |e2.code|;
    var br := Fixed(Br(end), Height(e1.st, true));
    ArmsAt(m, pc, e.code, e.code[0], Close(e1.code, end), br, Close(e2.code, end), x.ends);
    CodeAtClose(m, pc + 1, e1.code, end, x.ends);
    CodeAtClose(m, mid, e2.code, end, x.ends);
    BodyPool(x.env, i.els, mid, st2, [l] + x.labels, true);
    assert e1.st.consts <= m.consts;
    assert rest + args == popped;
    TickBrIfNot(m, host, am, pc, x.home, locals, x.under, stk, s, mid);
    var a := ATicks(m, host, am, 1);
    if Low(W32, Last(stk, 1)[0]) != 0 {
      c, am' := SimThen(m, host, pools, x, l, end, i.thn, i.nr, pc + 1, st1, e1, rest, args, locals, s, n, a);
    } else {
      c, am' := SimInside(m, host, pools, x, l, end, i.els, i.nr, mid, st2, e2, rest, args, locals, s, n, a);
      var o := ExecBody(x.env.p, host, Inner(x.k, i.nr), i.els, args, locals, s, n);
      LeaveBlock(o, am', x, l, end, rest, |locals|, c, n);
    }
    var o := ExecInstr(x.env.p, host, x.k, i, stk, locals, s, n);
    Later(o, am', x, end, |locals|, c, n);
    Then(m, host, am, 1, c);
    c := c + 1;
  }

  /** The then-arm of an `if` with `else`: falling out of it jumps over the else arm. */
  lemma {:induction false} SimThen(m: Module, host: Host, pools: seq<seq<Word>>, x: Spot, l: Label, end: nat, b: Body,
      nr: nat, pc: nat, st: Tracked, e: Emitted, rest: seq<Word>, args: seq<Word>, locals: seq<Word>, s: Store, n: nat,
      am: Am) returns (c: nat, am': Am)
    requires World(x.env.p, m, host, pools) && l.start.None? && l.arity == nr
    requires ReadyBlock(m, x, l, end, b, nr, pc, st, e, rest, args, locals, s, am)
    requires pc + |e.code| < |m.code| && m.code[pc + |e.code|] == Br(end)
    ensures var o := ExecBody(x.env.p, host, Inner(x.k, l.arity), b, args, locals, s, n);
      am' == ATicks(m, host, am, c) && Simulated(Leave(o, rest), am', x, end, |locals|, c, n) &&
      (!ResourceTrap(am'.status) ==> (o.Normal? ==> |o.stk| == nr) && (o.Jump? && o.d == 0 ==> |o.vals| == nr))
    decreases n, 1, b, 2
  {
    hide ATicks, CodeAt, Paid, World, EmitBody, ExecBody, TypeBody, UsesTable;
    var y := Simulation.Enter(x, l, end, x.under + rest);
    c, am' := SimInside(m, host, pools, x, l, end, b, nr, pc, st, e, rest, args, locals, s, n, am);
    var o := ExecBody(x.env.p, host, Inner(x.k, l.arity), b, args, locals, s, n);
    if !ResourceTrap(am'.status) && o.Normal? {
      TickBr(m, host, am', pc + |e.code|, x.home, o.locals, y.under + o.stk, o.store, end);
      Then(m, host, am, c, 1);
      c, am' := c + 1, ATicks(m, host, am', 1);
    }
    LeaveBlock(o, am', x, l, end, rest, |locals|, c, n);
  }

  lemma ArmsAt(m: Module, pc: nat, code: seq<Sym>, h: Sym, a: seq<Sym>, br: Sym, b: seq<Sym>, ends: seq<nat>)
    requires code == [h] + a + [br] + b && CodeAt(m, pc, code, ends) && br.lab.None?
    ensures pc + 1 + |a| < |m.code| && m.code[pc] == ResolveOne(h, ends) && m.code[pc + 1 + |a|] == br.op
    ensures CodeAt(m, pc + 1, a, ends) && CodeAt(m, pc + 2 + |a|, b, ends)
  {
    hide CodeAt;
    CodeAtParts(m, pc, [h] + a + [br], b, ends);
    CodeAtParts(m, pc, [h] + a, [br], ends);
    CodeAtHead(m, pc, h, a, ends);
    assert [br] == [br] + [];
    CodeAtHead(m, pc + 1 + |a|, br, [], ends);
  }

  lemma {:induction false} SimInvoke(m: Module, host: Host, pools: seq<seq<Word>>, x: Spot, i: Instr, pc: nat,
                                     st: Tracked, e: Emitted, stk: seq<Word>, locals: seq<Word>, s: Store, n: nat,
                                     am: Am) returns (c: nat, am': Am)
    requires World(x.env.p, m, host, pools) && Ready(m, x, i, pc, st, e, stk, locals, s, am)
    requires i.Invoke?
    ensures Mirrors(m, host, x, i, pc, e, stk, locals, s, n, am, c, am')
    decreases n, 1, i, 1
  {
    hide ATicks, CodeAt, Here, Paid, ExecFunc, IsImage, WellTyped;
    var p, f := x.env.p, i.f;
    HeadOf(m, pc, e.code, x.ends);
    Arity(p, m, pools, f);
    if p.funcs[f].Import? {
      c := 2;
      am' := TickHost(m, host, am, pc, x.home, locals, x.under, stk, s, NumParams(p, f), NumResults(p, f),
        p.funcs[f].fn);
    } else {
      MetaOf(p, m, pools, f);
      c, am' := SimCall(m, host, pools, x, f, am, pc, stk, locals, s, n);
    }
  }

  lemma Arity(p: Program, m: Module, pools: seq<seq<Word>>, f: nat)
    requires IsImage(p, m, pools) && f < |p.funcs|
    ensures p.funcs[f].ty < |p.types| && NumParams(p, f) <= 8
  {
  }

  /** A direct call of a defined function, from the call instruction to the results on the caller's stack. */
  lemma {:induction false} SimCall(m: Module, host: Host, pools: seq<seq<Word>>, x: Spot, f: nat, am: Am, pc: nat,
      stk: seq<Word>, locals: seq<Word>, s: Store, n: nat) returns (c: nat, am': Am)
    requires World(x.env.p, m, host, pools) && f < |x.env.p.funcs| && x.env.p.funcs[f].Local?
    requires x.env.p.funcs[f].ty < |x.env.p.types| && NumParams(x.env.p, f) <= |stk|
    requires Here(am, pc, x.home, locals, x.under + stk, s) && pc < |m.code| && m.code[pc] == Call(f)
    ensures var o := CallOutcome(x.env.p, host, f, stk, locals, s, n);
      am' == ATicks(m, host, am, c) && Simulated(o, am', x, pc + 1, |locals|, c, n) &&
      (o.Normal? && !ResourceTrap(am'.status) ==>
         |o.stk| == |stk| - NumParams(x.env.p, f) + NumResults(x.env.p, f))
    decreases n, 0, 1
  {
    hide ATicks, Paid, ExecFunc, IsImage, WellTyped;
    var p := x.env.p;
    MetaOf(p, m, pools, f);
    OneTick(m, host, am, Call(f));
    var a := am.(pc := pc + 1);
    c, am' := SimEntered(m, host, pools, x, f, a, pc + 1, stk, locals, s, n);
    Then(m, host, am, 1, c);
    c := c + 1;
  }

  /** What a call of a defined function means to its caller, with fuel `n` at the call. */
  function CallOutcome(p: Program, host: Host, f: nat, stk: seq<Word>, locals: seq<Word>, s: Store, n: nat): Outcome
    requires f < |p.funcs| && p.funcs[f].Local? && p.funcs[f].ty < |p.types| && NumParams(p, f) <= |stk|
  {
    var np := NumParams(p, f);
    if n == 0 then Timeout else AfterCall(ExecFunc(p, host, f, Last(stk, np), s, n - 1), Wasm.Drop(stk, np), locals)
  }

  /** From the moment the callee's frame is pushed; `a` is the caller past the call, its arguments still on `stk`. */
  lemma {:induction false} SimEntered(m: Module, host: Host, pools: seq<seq<Word>>, x: Spot, f: nat, a: Am, pc: nat,
      stk: seq<Word>, locals: seq<Word>, s: Store, n: nat) returns (c: nat, am': Am)
    requires World(x.env.p, m, host, pools) && f < |x.env.p.funcs| && x.env.p.funcs[f].Local? && f < |m.funcs|
    requires x.env.p.funcs[f].ty < |x.env.p.types| && NumParams(x.env.p, f) <= |stk|
    requires Here(a, pc, x.home, locals, x.under + stk, s)
    ensures var o := CallOutcome(x.env.p, host, f, stk, locals, s, n);
      am' == ATicks(m, host, AEnter(a, m.funcs[f]), c) && Simulated(o, am', x, pc, |locals|, c + 1, n) &&
      (o.Normal? && !ResourceTrap(am'.status) ==>
         |o.stk| == |stk| - NumParams(x.env.p, f) + NumResults(x.env.p, f))
    decreases n, 0, 0
  {
    hide ATicks, Paid, ExecFunc, IsImage, WellTyped, AEnter, Depth, Flat;
    var p, g := x.env.p, m.funcs[f];
    MetaOf(p, m, pools, f);
    EnterHere(a, pc, x.home, locals, x.under, stk, s, g, p.funcs[f].nLocals);
    var r := AEnter(a, g);
    NoTicks(m, host, r);
    c, am' := 0, r;
    if !ResourceTrap(r.status) && n > 0 {
      var args := Last(stk, g.nParams);
      c, am' := SimFunc(p, m, host, pools, f, args, s, n - 1, r, CalleeHome(a, x.under, stk, g));
      AfterCallAgrees(ExecFunc(p, host, f, args, s, n - 1), am', a, pc, x, locals, stk, s, g, c, n - 1);
    }
  }

  /** A function called on the machine does what it means: `am` is at its entry, in the fresh activation `home`. */
  lemma {:induction false} SimFunc(p: Program, m: Module, host: Host, pools: seq<seq<Word>>, f: nat, args: seq<Word>,
      s: Store, n: nat, am: Am, home: Home) returns (c: nat, am': Am)
    requires World(p, m, host, pools) && f < |p.funcs| && p.funcs[f].Local? && p.funcs[f].ty < |p.types| &&
      f < |m.funcs|
    requires |args| == NumParams(p, f) && home.nResults == m.funcs[f].nResults
    requires home.nSlots == m.funcs[f].nParams + m.funcs[f].nLocals
    requires Here(am, m.funcs[f].codeOff, home, args + seq(p.funcs[f].nLocals, _ => 0), [], s)
    ensures Called(p, m, host, f, args, s, n, am, home, c, am')
    decreases n, 2
  {
    hide ATicks, CodeAt, Paid, Here, EmitBody, ExecBody, World, ReadyBody, TypeBody, UsesTable, Agrees, FuncAgrees;
    var x, e, end := FuncReady(p, m, host, pools, f, args, s, am, home);
    var body, locals := p.funcs[f].body, args + seq(p.funcs[f].nLocals, _ => 0);
    var st := Tracked(0, false, pools[f]);
    c, am' := SimBody(m, host, pools, x, body, m.funcs[f].codeOff, st, e, [], locals, s, n, am);
    var o := ExecBody(p, host, x.k, body, [], locals, s, n);
    var d, a := FuncReturns(m, host, o, am', x, end, |locals|, c, n);
    Then(m, host, am, c, d);
    c, am' := c + d, a;
  }

  /** How a body's outcome becomes the function's. */
  function FuncOutcome(o: Outcome, nr: nat): Outcome {
    match o
    case Normal(vs, _, s') => if |vs| == nr then Returned(vs, s') else Stuck
    case Jump(d, vs, _, s') => if d == 0 then Returned(vs, s') else Stuck
    case _ => o
  }

  lemma FuncReturns(m: Module, host: Host, o: Outcome, am: Am, x: Spot, end: nat, nl: nat, c: nat, n: nat)
    returns (d: nat, am': Am)
    requires Simulated(o, am, x, end, nl, c, n) && end < |m.code| && m.code[end] == EndFunc
    requires |x.labels| == 1 && x.labels[0].start.None? && x.ends == [end] && x.under == []
    requires x.labels[0].arity == x.home.nResults
    requires o.Normal? && !ResourceTrap(am.status) ==> |o.stk| == x.home.nResults
    ensures am' == ATicks(m, host, am, d) && FuncAgrees(FuncOutcome(o, x.home.nResults), am', x.home, c + d, n)
  {
    hide ATicks, Here, Paid;
    NoTicks(m, host, am);
    d, am' := 0, am;
    if !ResourceTrap(am.status) && (o.Normal? || o.Jump?) {
      var vs := FuncEnd(o, am, x, end, nl, c, n);
      var none: seq<Word> := [];
      assert none + vs == vs && Last(vs, |vs|) == vs;
      TickReturn(m, host, am, end, x.home, o.locals, none, vs, o.store);
      d, am' := 1, ATicks(m, host, am, 1);
    }
  }

  /** Falling off the end of a body and branching to its outermost label both arrive at END_FUNC with the results. */
  lemma FuncEnd(o: Outcome, am: Am, x: Spot, end: nat, nl: nat, c: nat, n: nat) returns (vs: seq<Word>)
    requires (o.Normal? || o.Jump?) && Agrees(o, am, x, end, nl, c, n)
    requires |x.labels| == 1 && x.labels[0].start.None? && x.ends == [end] && x.under == []
    requires x.labels[0].arity == x.home.nResults && (o.Normal? ==> |o.stk| == x.home.nResults)
    ensures vs == (if o.Normal? then o.stk else o.vals) && |vs| == x.home.nResults && (o.Jump? ==> o.d == 0)
    ensures Here(am, end, x.home, o.locals, vs, o.store)
  {
    hide Here;
    vs := if o.Normal? then o.stk else o.vals;
    assert x.under + vs == vs;
    if o.Jump? { assert x.under[..x.labels[0].base] + vs == vs; }
  }

  lemma FuncReady(p: Program, m: Module, host: Host, pools: seq<seq<Word>>, f: nat, args: seq<Word>, s: Store, am: Am,
                  home: Home) returns (x: Spot, e: Emitted, end: nat)
    requires World(p, m, host, pools) && f < |p.funcs| && p.funcs[f].Local? && p.funcs[f].ty < |p.types| &&
      f < |m.funcs|
    requires |args| == NumParams(p, f) && home.nResults == m.funcs[f].nResults
    requires home.nSlots == m.funcs[f].nParams + m.funcs[f].nLocals
    requires Here(am, m.funcs[f].codeOff, home, args + seq(p.funcs[f].nLocals, _ => 0), [], s)
    ensures f < |pools|
    ensures var off, nr := m.funcs[f].codeOff, NumResults(p, f);
      var locals := args + seq(p.funcs[f].nLocals, _ => 0);
      && x == Spot(EnvOf(p, f), Ctx([nr], nr, |locals|), [Label(None, 0, nr)], [end], home, [])
      && end == off + |e.code| && home.nResults == nr
      && ReadyBody(m, x, p.funcs[f].body, off, Tracked(0, false, pools[f]), e, [], locals, s, am)
      && end < |m.code| && m.code[end] == EndFunc
      && Ends(TypeBody(p, x.k, p.funcs[f].body, Ty(0, false)), nr)
  {
    hide CodeAt, EmitBody, TypeBody;
    var nr := NumResults(p, f);
    assert FuncBuilt(p, m, f, pools[f]) && BodyTyped(p, f);
    e := EmitFunc(p, f, m.funcs[f].codeOff, pools[f]).value;
    end := m.funcs[f].codeOff + |e.code|;
    BodyCode(m, m.funcs[f].codeOff, e.code);
    x := Spot(EnvOf(p, f), Ctx([nr], nr, |args| + p.funcs[f].nLocals), [Label(None, 0, nr)], [end], home, []);
    var none: seq<Word> := [];
    assert none + none == none;
  }

  lemma BodyCode(m: Module, off: nat, s: seq<Sym>)
    requires off + |s| + 1 <= |m.code| && m.code[off..off + |s| + 1] == FuncCode(s, off)
    ensures CodeAt(m, off, s, [off + |s|]) && m.code[off + |s|] == EndFunc
  {
    var w := m.code[off..off + |s| + 1];
    assert w[|s|] == EndFunc;
    assert m.code[off..off + |s|] == w[..|s|];
  }

  lemma {:induction false} SimIndirect(m: Module, host: Host, pools: seq<seq<Word>>, x: Spot, i: Instr, pc: nat,
                                       st: Tracked, e: Emitted, stk: seq<Word>, locals: seq<Word>, s: Store, n: nat,
                                       am: Am) returns (c: nat, am': Am)
    requires World(x.env.p, m, host, pools) && Ready(m, x, i, pc, st, e, stk, locals, s, am)
    requires i.InvokeIndirect?
    ensures Mirrors(m, host, x, i, pc, e, stk, locals, s, n, am, c, am')
    decreases n, 1, i, 1
  {
    hide ATicks, CodeAt, Paid, ExecFunc, IsImage, WellTyped, AEnter, Lookup, Wasm.Resolve;
    var p := x.env.p;
    HeadOf(m, pc, e.code, x.ends);
    OneTick(m, host, am, CallIndirect(i.ty));
    var a := am.(pc := pc + 1);
    var idx, rest := Low(W32, Last(stk, 1)[0]), Wasm.Drop(stk, 1);
    PopHere(a, pc + 1, x.home, locals, x.under, stk, s, 1);
    SameLookup(p, m, pools, i.ty, idx);
    var found := Wasm.Resolve(p, i.ty, idx);
    if found.None? {
      c, am' := 1, ATicks(m, host, am, 1);
    } else {
      var f := found.value;
      MetaOf(p, m, pools, f);
      c, am' := SimEntered(m, host, pools, x, f, APop(a, 1), pc + 1, rest, locals, s, n);
      Then(m, host, am, 1, c);
      c := c + 1;
    }
  }

  /** Comparing fingerprints finds the same function as comparing types. */
  lemma SameLookup(p: Program, m: Module, pools: seq<seq<Word>>, ty: nat, idx: nat)
    requires IsImage(p, m, pools) && ty < |p.types|
    ensures Lookup(m, ty, idx) == Wasm.Resolve(p, ty, idx)
    ensures var r := Wasm.Resolve(p, ty, idx);
      r.Some? ==> r.value < |p.funcs| && p.funcs[r.value].ty < |p.types| &&
                  (TableDefined(p) ==> p.funcs[r.value].Local?) && p.types[p.funcs[r.value].ty] == p.types[ty]
  {
    hide FuncBuilt;
    if idx < |p.table| {
      var f := p.table[idx];
      if f < |p.funcs| && f != TABLE_NULL {
        Fingerprint.FpInjective(p.types[p.funcs[f].ty], p.types[ty]);
      }
    }
  }

  lemma {:induction false} SimTail(m: Module, host: Host, pools: seq<seq<Word>>, x: Spot, i: Instr, pc: nat,
                                   st: Tracked, e: Emitted, stk: seq<Word>, locals: seq<Word>, s: Store, n: nat, am: Am)
    returns (c: nat, am': Am)
    requires World(x.env.p, m, host, pools) && Ready(m, x, i, pc, st, e, stk, locals, s, am)
    requires i.TailInvoke?
    ensures Mirrors(m, host, x, i, pc, e, stk, locals, s, n, am, c, am')
    decreases n, 1, i, 1
  {
    hide ATicks, CodeAt, Paid, ExecFunc, IsImage, WellTyped, HostCall;
    var p, f := x.env.p, i.f;
    assert p.funcs[f].Local? by { PastImports(p, m, pools, f); }
    HeadOf(m, pc, e.code, x.ends);
    MetaOf(p, m, pools, f);
    var g := m.funcs[f];
    OneTick(m, host, am, ReturnCall(f));
    var a := am.(pc := pc + 1);
    var r := AReturnCall(m, a, f);
    TailHere(m, a, pc + 1, x.home, locals, x.under, stk, s, f, p.funcs[f].nLocals);
    c, am' := 1, r;
    if !ResourceTrap(r.status) && n > 0 {
      var args := Last(stk, g.nParams);
      var home := x.home.(nResults := g.nResults, nSlots := g.nParams + g.nLocals);
      assert home.nResults == x.home.nResults;
      c, am' := SimFunc(p, m, host, pools, f, args, s, n - 1, r, home);
      Then(m, host, am, 1, c);
      c := c + 1;
      TailAgrees(ExecFunc(p, host, f, args, s, n - 1), am', home, x, pc + 1, |locals|, c - 1, n - 1);
    }
  }

  lemma TailHere(m: Module, a: Am, pc: nat, home: Home, locals: seq<Word>, under: seq<Word>, stk: seq<Word>, s: Store,
                 f: nat, nl: nat)
    requires Here(a, pc, home, locals, under + stk, s) && f < |m.funcs| && m.funcs[f].nParams <= |stk|
    requires nl <= m.funcs[f].nLocals
    ensures var r, g := AReturnCall(m, a, f), m.funcs[f];
      ResourceTrap(r.status) ||
      Here(r, g.codeOff, home.(nResults := g.nResults, nSlots := g.nParams + g.nLocals),
           Last(stk, g.nParams) + seq(nl, _ => 0), [], s)
  {
    hide Flat;
    var g := m.funcs[f];
    PopHere(a, pc, home, locals, under, stk, s, g.nParams);
    var args := Last(stk, g.nParams);
    assert (args + Zeros(g.nLocals))[..|args| + nl] == args + seq(nl, _ => 0);
  }

  /** What a tail call returns is returned by its caller. */
  lemma TailAgrees(o: Outcome, am: Am, home: Home, x: Spot, pc: nat, nl: nat, c: nat, n: nat)
    requires FuncAgrees(o, am, home, c, n)
    requires home == x.home.(nSlots := home.nSlots)
    ensures Simulated(o, am, x, pc, nl, c + 1, n + 1)
  {
  }
}
