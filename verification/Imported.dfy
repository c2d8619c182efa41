/** Imports in the table. WebAssembly lets an indirect call reach an import; the translator copies the table as it is,
    the interpreter jumps to the import's empty code, which starts at 0, and so runs whatever lies there. Translation
    keeps the meaning of all programs with a given table exactly when no slot holds an import. */
module Imported {
  import opened Words
  import opened Bytecode
  import opened Machine
  import opened Wasm
  import opened Emission
  import opened Simulation
  import opened EndToEnd
  import opened Stubs
  import opened Unchecked
  import opened Safety
  import Preservation
  import Slices
  import Fingerprint

  /** `p` has the types, imports, table and segments of `q`. */
  predicate SameFront(q: Program, p: Program) {
    && p == q.(funcs := p.funcs)
    && q.nImports <= |p.funcs| && q.nImports <= |q.funcs| && p.funcs[..q.nImports] == q.funcs[..q.nImports]
  }

  /** If the call of `f` has ended after `k` ticks, and not at a limit, it ended as the program means. */
  ghost predicate Faithful(p: Program, m: Module, host: Host, pools: seq<seq<Word>>, f: nat, args: seq<Word>, s: Store,
                           k: nat)
  {
    WellTyped(p) && IsImage(p, m, pools) && f < |m.funcs| && f < |p.funcs| && p.funcs[f].Local? &&
    p.funcs[f].ty < |p.types| && |args| == NumParams(p, f) && |args| + m.funcs[f].nLocals <= STACK_CAP ==>
      var vm := Ticks(m, host, Entry(m.funcs[f], args, s), k);
      Final(vm.status) && !ResourceTrap(vm.status) ==>
        exists n: nat :: SameStory(ExecFunc(p, host, f, args, s, n), m.funcs[f].nResults, vm)
  }

  lemma FrontDefined(q: Program, p: Program, m: Module, host: Host, pools: seq<seq<Word>>, f: nat, args: seq<Word>,
                     s: Store, k: nat)
    requires TableDefined(q) && SameFront(q, p) && WellBehaved(host)
    ensures Faithful(p, m, host, pools, f, args, s, k)
  {
    hide Ticks, ExecFunc, IsImage, Entry, SameStory, WellTyped;
    if WellTyped(p) && IsImage(p, m, pools) && f < |m.funcs| && f < |p.funcs| && p.funcs[f].Local? &&
      p.funcs[f].ty < |p.types| && |args| == NumParams(p, f) && |args| + m.funcs[f].nLocals <= STACK_CAP
    {
      var vm := Ticks(m, host, Entry(m.funcs[f], args, s), k);
      if Final(vm.status) && !ResourceTrap(vm.status) {
        LimitsShown(p, m, host, pools, f, args, s, k);
        ResultIsMeaning(p, m, host, pools, f, args, s, k);
      }
    }
  }

  // ----- a program that calls slot `i` -----

  /** `n` zeros, then the rest. */
  function Pushes(n: nat, rest: Body): Body { if n == 0 then rest else Seq(Value(0), Pushes(n - 1, rest)) }

  function CallSlot(i: Word, ty: nat): Body { Seq(Value(i), Seq(InvokeIndirect(ty), End)) }

  /** Two functions of the slot's own type: one that traps, which comes first, and one that calls the slot. */
  function Caller(q: Program, i: Word): Program
    requires WellFormed(q) && i < |q.table| && q.table[i] < q.nImports
  {
    var ty := q.funcs[q.table[i]].ty;
    q.(funcs := q.funcs[..q.nImports] +
         [Local(ty, 0, StubBody()), Local(ty, 0, Pushes(|q.types[ty].params|, CallSlot(i, ty)))])
  }

  lemma {:induction false} PushesType(p: Program, k: Ctx, n: nat, rest: Body, h: nat)
    ensures TypeBody(p, k, Pushes(n, rest), Ty(h, false)) == TypeBody(p, k, rest, Ty(h + n, false))
    decreases n
  {
    if n > 0 {
      assert TypeInstr(p, k, Value(0), Ty(h, false)) == Some(Ty(h + 1, false));
      PushesType(p, k, n - 1, rest, h + 1);
    }
  }

  lemma SlotTyped(p: Program, k: Ctx, i: Word, ty: nat, h: nat)
    requires ty < |p.types| && h == |p.types[ty].params|
    ensures TypeBody(p, k, CallSlot(i, ty), Ty(h, false)) == Some(Ty(|p.types[ty].results|, false))
  {
    var nr := |p.types[ty].results|;
    assert TypeInstr(p, k, Value(i), Ty(h, false)) == Some(Ty(h + 1, false));
    assert TypeInstr(p, k, InvokeIndirect(ty), Ty(h + 1, false)) == Some(Ty(nr, false));
    assert TypeBody(p, k, End, Ty(nr, false)) == Some(Ty(nr, false));
  }

  lemma CallerTyped(q: Program, i: Word)
    requires WellFormed(q) && i < |q.table| && q.table[i] < q.nImports
    ensures WellTyped(Caller(q, i)) && SameFront(q, Caller(q, i))
  {
    hide TypeBody, TypeInstr, Pushes, CallSlot;
    var p, ty, f := Caller(q, i), q.funcs[q.table[i]].ty, q.nImports;
    var np, nr := |q.types[ty].params|, |q.types[ty].results|;
    var k := Ctx([nr], nr, np + 0);
    forall g | 0 <= g < |p.funcs|
      ensures p.funcs[g].ty < |p.types| && (p.funcs[g].Import? <==> g < f)
    {
      if g < f { assert p.funcs[g] == q.funcs[g]; }
    }
    StubTyped(p, k);
    PushesType(p, k, np, CallSlot(i, ty), 0);
    SlotTyped(p, k, i, ty, np);
    assert BodyTyped(p, f) && BodyTyped(p, f + 1);
  }

  // ----- what it means -----

  lemma ValueMeans(p: Program, host: Host, k: Ctx, v: Word, stk: seq<Word>, locals: seq<Word>, s: Store, fuel: nat)
    ensures ExecInstr(p, host, k, Value(v), stk, locals, s, fuel) == Normal(stk + [v], locals, s)
  {
  }

  lemma {:induction false} PushesMean(p: Program, host: Host, k: Ctx, n: nat, rest: Body, stk: seq<Word>,
                                      locals: seq<Word>, s: Store, fuel: nat)
    ensures ExecBody(p, host, k, Pushes(n, rest), stk, locals, s, fuel)
         == ExecBody(p, host, k, rest, stk + Zeros(n), locals, s, fuel)
    decreases n
  {
    hide ExecInstr;
    if n == 0 {
      assert stk + Zeros(n) == stk;
    } else {
      ValueMeans(p, host, k, 0, stk, locals, s, fuel);
      PushesMean(p, host, k, n - 1, rest, stk + [0], locals, s, fuel);
      assert stk + [0] + Zeros(n - 1) == stk + Zeros(n);
    }
  }

  lemma IndirectMeans(p: Program, host: Host, k: Ctx, i: Word, ty: nat, stk: seq<Word>, locals: seq<Word>, s: Store,
                      fuel: nat)
    requires WellFormed(p) && i < |p.table| && i < TWO32 && p.table[i] < p.nImports && p.table[i] != TABLE_NULL
    requires ty == p.funcs[p.table[i]].ty && |stk| == |p.types[ty].params|
    ensures ExecInstr(p, host, k, InvokeIndirect(ty), stk + [i], locals, s, fuel) ==
      AfterCall(HostCall(host, p.funcs[p.table[i]].fn, stk, |p.types[ty].results|, s), [], locals)
  {
    hide HostCall;
    assert Last(stk + [i], 1) == [i] && Wasm.Drop(stk + [i], 1) == stk;
    assert Low(W32, i) == i;
    assert Last(stk, |stk|) == stk && Wasm.Drop(stk, |stk|) == [];
  }

  lemma SeqMeans(p: Program, host: Host, k: Ctx, i: Instr, rest: Body, stk: seq<Word>, locals: seq<Word>, s: Store,
                 fuel: nat, o: Outcome)
    requires ExecInstr(p, host, k, i, stk, locals, s, fuel) == o
    ensures ExecBody(p, host, k, Seq(i, rest), stk, locals, s, fuel) ==
      if o.Normal? then ExecBody(p, host, k, rest, o.stk, o.locals, o.store, fuel) else o
  {
    hide ExecInstr;
  }

  lemma EndMeans(p: Program, host: Host, k: Ctx, stk: seq<Word>, locals: seq<Word>, s: Store, fuel: nat)
    ensures ExecBody(p, host, k, End, stk, locals, s, fuel) == Normal(stk, locals, s)
  {
    hide ExecInstr;
  }

  /** The call is a host call. */
  lemma SlotMeans(p: Program, host: Host, k: Ctx, i: Word, ty: nat, stk: seq<Word>, locals: seq<Word>, s: Store,
                  fuel: nat)
    requires WellFormed(p) && i < |p.table| && i < TWO32 && p.table[i] < p.nImports && p.table[i] != TABLE_NULL
    requires ty == p.funcs[p.table[i]].ty && |stk| == |p.types[ty].params|
    ensures ExecBody(p, host, k, CallSlot(i, ty), stk, locals, s, fuel) ==
      AfterCall(HostCall(host, p.funcs[p.table[i]].fn, stk, |p.types[ty].results|, s), [], locals)
  {
    hide HostCall, ExecInstr, ExecBody;
    var o := AfterCall(HostCall(host, p.funcs[p.table[i]].fn, stk, |p.types[ty].results|, s), [], locals);
    ValueMeans(p, host, k, i, stk, locals, s, fuel);
    SeqMeans(p, host, k, Value(i), Seq(InvokeIndirect(ty), End), stk, locals, s, fuel, Normal(stk + [i], locals, s));
    IndirectMeans(p, host, k, i, ty, stk, locals, s, fuel);
    SeqMeans(p, host, k, InvokeIndirect(ty), End, stk + [i], locals, s, fuel, o);
    if o.Normal? { EndMeans(p, host, k, o.stk, o.locals, o.store, fuel); }
  }

  /** Whatever the host answers, the program does not trap with `unreachable`. */
  lemma CallerMeans(q: Program, i: Word, host: Host, args: seq<Word>, s: Store, fuel: nat)
    requires WellFormed(q) && i < |q.table| && i < TWO32 && q.table[i] < q.nImports && q.table[i] != TABLE_NULL
    ensures var p, f := Caller(q, i), q.nImports + 1;
      f < |p.funcs| && p.funcs[f].Local? && p.funcs[f].ty < |p.types| &&
      !ExecFunc(p, host, f, args, s, fuel).Timeout? &&
      (var o := ExecFunc(p, host, f, args, s, fuel); o.Trapped? ==> o.status == UnsupportedOp)
  {
    hide ExecBody, Pushes, CallSlot, WellTyped;
    CallerTyped(q, i);
    assert WellFormed(Caller(q, i)) by { Formed(Caller(q, i)); }
    var p, ty, f := Caller(q, i), q.funcs[q.table[i]].ty, q.nImports + 1;
    assert p.funcs[q.table[i]] == q.funcs[q.table[i]];
    var np, nr := |q.types[ty].params|, |q.types[ty].results|;
    var locals := args + seq(0, _ => 0);
    PushesMean(p, host, Ctx([nr], nr, |args| + 0), np, CallSlot(i, ty), [], locals, s, fuel);
    SlotMeans(p, host, Ctx([nr], nr, |args| + 0), i, ty, [] + Zeros(np), locals, s, fuel);
  }

  // ----- what it is translated to -----

  lemma ZeroEmit(env: Env, pc: nat, h: nat, pool: seq<Word>, labels: seq<Label>)
    requires pool == [] || pool == [0]
    ensures EmitInstr(env, Value(0), pc, Tracked(h, false, pool), labels, true) ==
      Some(Emitted([Fixed(Const(0), h)], Tracked(h + 1, false, [0])))
  {
    assert Find(pool, 0) == 0 && Intern(pool, 0) == [0];
  }

  lemma ZeroFirst(env: Env, b: Body, pc: nat, h: nat, pool: seq<Word>, labels: seq<Label>)
    requires pool == [] || pool == [0]
    ensures EmitBody(env, Seq(Value(0), b), pc, Tracked(h, false, pool), labels, true) ==
      match EmitBody(env, b, pc + 1, Tracked(h + 1, false, [0]), labels, true)
      case None => None
      case Some(e) => Some(Emitted([Fixed(Const(0), h)] + e.code, e.st))
  {
    hide EmitInstr;
    ZeroEmit(env, pc, h, pool, labels);
  }

  function ZeroSyms(n: nat, h: nat): seq<Sym> { seq(n, j => Fixed(Const(0), h + j)) }

  lemma {:induction false} PushesEmit(env: Env, n: nat, rest: Body, pc: nat, h: nat, pool: seq<Word>,
                                      labels: seq<Label>)
    requires pool == [] || pool == [0]
    ensures var pool' := if n == 0 then pool else [0];
      var e, e' := EmitBody(env, Pushes(n, rest), pc, Tracked(h, false, pool), labels, true),
                   EmitBody(env, rest, pc + n, Tracked(h + n, false, pool'), labels, true);
      e'.Some? ==>
        e.Some? && e.value.st == e'.value.st &&
        e.value.code == ZeroSyms(n, h) + e'.value.code
    decreases n
  {
    hide EmitBody;
    if n == 0 {
      var e := EmitBody(env, rest, pc, Tracked(h, false, pool), labels, true);
      assert e.Some? ==> ZeroSyms(n, h) + e.value.code == e.value.code;
    } else {
      ZeroFirst(env, Pushes(n - 1, rest), pc, h, pool, labels);
      PushesEmit(env, n - 1, rest, pc + 1, h + 1, [0], labels);
      var e' := EmitBody(env, rest, pc + n, Tracked(h + n, false, [0]), labels, true);
      if e'.Some? {
        assert [Fixed(Const(0), h)] + ZeroSyms(n - 1, h + 1) == ZeroSyms(n, h);
        assert [Fixed(Const(0), h)] + (ZeroSyms(n - 1, h + 1) + e'.value.code) == ZeroSyms(n, h) + e'.value.code;
      }
    }
  }

  lemma SlotEmit(env: Env, i: Word, ty: nat, pc: nat, pool: seq<Word>, labels: seq<Label>, h: nat)
    requires ty < |env.p.types| && h == |env.p.types[ty].params|
    ensures var e := EmitBody(env, CallSlot(i, ty), pc, Tracked(h, false, pool), labels, true);
      e == Some(Emitted([Fixed(Const(Find(pool, i)), h), Fixed(CallIndirect(ty), h + 1)],
                        Tracked(|env.p.types[ty].results|, false, Intern(pool, i))))
  {
    hide Intern, Find;
    var x, y := Fixed(Const(Find(pool, i)), h), Fixed(CallIndirect(ty), h + 1);
    var st1 := Tracked(h + 1, false, Intern(pool, i));
    var st2 := Tracked(|env.p.types[ty].results|, false, Intern(pool, i));
    assert EmitInstr(env, Value(i), pc, Tracked(h, false, pool), labels, true) == Some(Emitted([x], st1));
    assert EmitInstr(env, InvokeIndirect(ty), pc + 1, st1, labels, true) == Some(Emitted([y], st2));
    assert EmitBody(env, End, pc + 2, st2, labels, true) == Some(Emitted([], st2));
    assert EmitBody(env, Seq(InvokeIndirect(ty), End), pc + 1, st1, labels, true) == Some(Emitted([y] + [], st2));
    assert [x] + ([y] + []) == [x, y];
  }

  lemma {:induction false} NoTable(n: nat, i: Word, ty: nat)
    ensures !UsesTable(Pushes(n, CallSlot(i, ty)))
  {
    if n == 0 {
      assert !UsesTable(Seq(InvokeIndirect(ty), End));
    } else {
      NoTable(n - 1, i, ty);
    }
  }

  function Zeroed(n: nat): seq<Word> { if n == 0 then [] else [0] }

  function MainCode(np: nat, pool: seq<Word>, i: Word, ty: nat): seq<CuOp> {
    seq(np, _ => Const(0)) + [Const(Find(pool, i)), CallIndirect(ty), EndFunc]
  }

  /** The module of the caller. */
  ghost function Image(q: Program, i: Word): Module
    requires WellFormed(q) && i < |q.table| && q.table[i] < q.nImports
  {
    var p, ty := Caller(q, i), q.funcs[q.table[i]].ty;
    var np, nr := |q.types[ty].params|, |q.types[ty].results|;
    Module([Unreachable, EndFunc] + MainCode(np, Zeroed(np), i, ty), Intern(Zeroed(np), i),
           seq(q.nImports, f requires 0 <= f < q.nImports => FuncMeta(0, 0, NumParams(q, f), NumResults(q, f), 0)) +
             [FuncMeta(0, 2, np, nr, 0), FuncMeta(2, np + 3, np, nr, 0)],
           q.nImports, q.table,
           seq(|p.funcs|, f requires 0 <= f < |p.funcs| => p.funcs[f].ty),
           seq(|q.types|, t requires 0 <= t < |q.types| => Fingerprint.Fp(q.types[t])), q.segments)
  }

  lemma MainFinished(np: nat, k: nat, ty: nat, ends: seq<nat>)
    ensures Resolved(ZeroSyms(np, 0) + [Fixed(Const(k), np), Fixed(CallIndirect(ty), np + 1)], ends)
         == seq(np, _ => Const(0)) + [Const(k), CallIndirect(ty)]
  {
    var s := ZeroSyms(np, 0) + [Fixed(Const(k), np), Fixed(CallIndirect(ty), np + 1)];
    forall j | 0 <= j < |s|
      ensures Resolved(s, ends)[j] == (seq(np, _ => Const(0)) + [Const(k), CallIndirect(ty)])[j]
    {
      if j < np { assert s[j] == ZeroSyms(np, 0)[j] == Fixed(Const(0), j); }
    }
  }

  lemma MainBuilt(q: Program, i: Word)
    requires WellFormed(q) && i < |q.table| && q.table[i] < q.nImports
    ensures var p, f := Caller(q, i), q.nImports + 1;
      f < |p.funcs| && p.funcs[f].Local? && p.funcs[f].ty < |p.types| && f < |Image(q, i).funcs| &&
      FuncBuilt(p, Image(q, i), f, [])
  {
    hide EmitBody, Pushes, CallSlot, Intern, Find, Fingerprint.Fp;
    var p, m, ty, f := Caller(q, i), Image(q, i), q.funcs[q.table[i]].ty, q.nImports + 1;
    var np, nr := |q.types[ty].params|, |q.types[ty].results|;
    NoTable(np, i, ty);
    var env, labels := EnvOf(p, f), [Label(None, 0, nr)];
    PushesEmit(env, np, CallSlot(i, ty), 2, 0, [], labels);
    SlotEmit(env, i, ty, 2 + np, Zeroed(np), labels, np);
    var e := EmitFunc(p, f, 2, []).value;
    assert e.code == ZeroSyms(np, 0) + [Fixed(Const(Find(Zeroed(np), i)), np), Fixed(CallIndirect(ty), np + 1)];
    MainFinished(np, Find(Zeroed(np), i), ty, [2 + |e.code|]);
    assert FuncCode(e.code, 2) == MainCode(np, Zeroed(np), i, ty);
    assert m.code[2..2 + |e.code| + 1] == MainCode(np, Zeroed(np), i, ty);
  }

  lemma StubIsBuilt(q: Program, i: Word)
    requires WellFormed(q) && i < |q.table| && q.table[i] < q.nImports
    ensures var p, f := Caller(q, i), q.nImports;
      f < |p.funcs| && p.funcs[f].Local? && p.funcs[f].ty < |p.types| && f < |Image(q, i).funcs| &&
      FuncBuilt(p, Image(q, i), f, [])
  {
    hide EmitFunc, Pushes, CallSlot, Fingerprint.Fp;
    var p, m, f := Caller(q, i), Image(q, i), q.nImports;
    assert Stubbed(p, {f}).funcs == p.funcs;
    StubCode(p, {f}, f, 0, []);
    assert m.code[0..2] == [Unreachable, EndFunc];
  }

  lemma CallerBuilt(q: Program, i: Word)
    requires WellFormed(q) && i < |q.table| && q.table[i] < q.nImports
    ensures var p := Caller(q, i); IsImage(p, Image(q, i), seq(|p.funcs|, _ => []))
  {
    hide FuncBuilt, Pushes, CallSlot, MainCode, Fingerprint.Fp, Intern, WellTyped;
    CallerTyped(q, i);
    Formed(Caller(q, i));
    MainBuilt(q, i);
    StubIsBuilt(q, i);
    var p, m := Caller(q, i), Image(q, i);
    forall f | 0 <= f < q.nImports
      ensures m.funcs[f] == FuncMeta(0, 0, NumParams(p, f), NumResults(p, f), 0)
    {
      assert p.funcs[f] == q.funcs[f];
    }
    forall f | p.nImports <= f < |p.funcs|
      ensures FuncBuilt(p, m, f, [])
    {
      assert f == q.nImports || f == q.nImports + 1;
    }
  }

  // ----- what the machine does with it -----

  lemma {:induction false} ZerosRun(m: Module, host: Host, vm: Vm, pc: nat, frames: seq<Frame>, live: seq<Word>, n: nat)
    requires Stands(vm, pc, 0, frames, live) && pc + n <= |m.code| && |live| + n <= STACK_CAP
    requires forall j :: pc <= j < pc + n ==> m.code[j] == Const(0)
    requires n > 0 ==> |m.consts| > 0 && m.consts[0] == 0
    ensures Stands(Ticks(m, host, vm, n), pc + n, 0, frames, live + Zeros(n))
    decreases n
  {
    hide Step, Stands;
    if n == 0 {
      assert live + Zeros(n) == live;
    } else {
      ConstStep(m, vm, pc, 0, frames, live, 0);
      Runs(vm, pc, 0, frames, live);
      TickIsStep(m, host, vm, n);
      ZerosRun(m, host, Step(m, vm), pc + 1, frames, live + [0], n - 1);
      assert live + [0] + Zeros(n - 1) == live + Zeros(n);
    }
  }

  lemma Runs(vm: Vm, pc: nat, fp: nat, frames: seq<Frame>, live: seq<Word>)
    requires Stands(vm, pc, fp, frames, live)
    ensures vm.status == Running && vm.pc == pc
  {
  }

  /** An indirect call that finds an import goes to pc 0. */
  lemma ImportStep(m: Module, vm: Vm, pc: nat, frames: seq<Frame>, live: seq<Word>, ty: nat, g: nat)
    requires Stands(vm, pc, 0, frames, live) && pc < |m.code| && m.code[pc] == CallIndirect(ty) && |live| > 0
    requires Lookup(m, ty, Low(W32, live[|live| - 1])) == Some(g) && g < |m.funcs| && |frames| < FRAME_CAP
    requires m.funcs[g].codeOff == 0 && m.funcs[g].nLocals == 0 && m.funcs[g].nParams < |live|
    ensures Step(m, vm).pc == 0 && Step(m, vm).status == Running && Step(m, vm).store == vm.store
  {
    hide Lookup;
    assert vm.stack[..vm.sp][vm.sp - 1] == vm.stack[vm.sp - 1];
  }

  lemma TrapStep(m: Module, vm: Vm)
    requires vm.pc < |m.code| && m.code[vm.pc] == Unreachable
    ensures Step(m, vm).status == TrapUnreachable
  {
  }

  /** The last three ticks: the index, the call, and the trap of the function that happens to come first. */
  lemma LastTicks(m: Module, host: Host, vm: Vm, pc: nat, k: nat, frames: seq<Frame>, live: seq<Word>, ty: nat, g: nat,
                  n: nat)
    requires Stands(vm, pc, 0, frames, live) && 0 < pc && pc + 1 < |m.code| && |live| < STACK_CAP && n == 3
    requires m.code[pc] == Const(k) && k < |m.consts| && m.code[pc + 1] == CallIndirect(ty) && m.code[0] == Unreachable
    requires Lookup(m, ty, Low(W32, m.consts[k])) == Some(g) && g < |m.funcs| && |frames| < FRAME_CAP
    requires m.funcs[g].codeOff == 0 && m.funcs[g].nLocals == 0 && m.funcs[g].nParams <= |live|
    ensures Ticks(m, host, vm, n).status == TrapUnreachable
  {
    hide Step, Lookup;
    ConstStep(m, vm, pc, 0, frames, live, k);
    var v1, i := Step(m, vm), m.consts[k];
    assert (live + [i])[|live + [i]| - 1] == i;
    ImportStep(m, v1, pc + 1, frames, live + [i], ty, g);
    var v2 := Step(m, v1);
    TrapStep(m, v2);
    TickIsStep(m, host, vm, n);
    TickIsStep(m, host, v1, n - 1);
    TickIsStep(m, host, v2, n - 2);
    ZeroTicks(m, host, Step(m, v2), n - 3);
  }

  lemma SlotResolves(q: Program, i: Word)
    requires WellFormed(q) && i < |q.table| && i < TWO32 && q.table[i] < q.nImports && q.table[i] != TABLE_NULL
    ensures var ty := q.funcs[q.table[i]].ty;
      Lookup(Image(q, i), ty, Low(W32, i)) == Some(q.table[i])
  {
    hide IsImage, Image, Pushes, CallSlot, WellTyped;
    var p, ty := Caller(q, i), q.funcs[q.table[i]].ty;
    assert p.funcs[q.table[i]] == q.funcs[q.table[i]];
    CallerBuilt(q, i);
    assert Low(W32, i) == i;
    Preservation.SameLookup(p, Image(q, i), seq(|p.funcs|, _ => []), ty, i);
  }

  /** The code of the image, instruction by instruction. */
  lemma ImageCode(q: Program, i: Word)
    requires WellFormed(q) && i < |q.table| && q.table[i] < q.nImports
    ensures var m, ty, f := Image(q, i), q.funcs[q.table[i]].ty, q.nImports + 1;
      var np := |q.types[ty].params|;
      && |m.code| == 5 + np && m.code[0] == Unreachable
      && (forall j :: 2 <= j < 2 + np ==> m.code[j] == Const(0))
      && m.code[2 + np] == Const(Find(Zeroed(np), i)) && m.code[3 + np] == CallIndirect(ty)
      && Find(Zeroed(np), i) < |m.consts| && m.consts[Find(Zeroed(np), i)] == i
      && (np > 0 ==> m.consts[0] == 0)
      && |m.funcs| == q.nImports + 2 && m.funcs[f] == FuncMeta(2, np + 3, np, |q.types[ty].results|, 0)
      && m.funcs[q.table[i]] == FuncMeta(0, 0, np, |q.types[ty].results|, 0)
  {
    hide Find, Fingerprint.Fp, Pushes, CallSlot;
    var np := |q.types[q.funcs[q.table[i]].ty].params|;
    assert np > 0 ==> Zeroed(np) <= Intern(Zeroed(np), i);
  }

  lemma CallerRuns(q: Program, i: Word, host: Host, args: seq<Word>, s: Store, k: nat)
    requires WellFormed(q) && i < |q.table| && i < TWO32 && q.table[i] < q.nImports && q.table[i] != TABLE_NULL
    requires |args| == |q.types[q.funcs[q.table[i]].ty].params| && k == |args| + 3
    ensures var m, f := Image(q, i), q.nImports + 1;
      f < |m.funcs| && m.funcs[f].nLocals == 0 &&
      Ticks(m, host, Entry(m.funcs[f], args, s), k).status == TrapUnreachable
  {
    hide Image, Find, Lookup, Ticks, IsImage;
    ImageCode(q, i);
    SlotResolves(q, i);
    var m, ty, f := Image(q, i), q.funcs[q.table[i]].ty, q.nImports + 1;
    var np, root := |args|, [Frame(0, 0, 0, m.funcs[f].nResults)];
    var v0 := Entry(m.funcs[f], args, s);
    assert v0.stack[..np] == args;
    ZerosRun(m, host, v0, 2, root, args, np);
    LastTicks(m, host, Ticks(m, host, v0, np), 2 + np, Find(Zeroed(np), i), root, args + Zeros(np), ty, q.table[i],
              k - np);
    Slices.TicksAdd(m, host, v0, np, k - np);
  }

  lemma CallerUnfaithful(q: Program, i: Word, host: Host, args: seq<Word>, s: Store, k: nat)
    requires WellFormed(q) && i < |q.table| && i < TWO32 && q.table[i] < q.nImports && q.table[i] != TABLE_NULL
    requires |args| == |q.types[q.funcs[q.table[i]].ty].params| && k == |args| + 3
    ensures var p := Caller(q, i);
      !Faithful(p, Image(q, i), host, seq(|p.funcs|, _ => []), q.nImports + 1, args, s, k)
  {
    hide Image, Ticks, IsImage, Entry, ExecFunc, Pushes, CallSlot, WellTyped;
    CallerTyped(q, i);
    CallerBuilt(q, i);
    CallerRuns(q, i, host, args, s, k);
    var p, m, f := Caller(q, i), Image(q, i), q.nImports + 1;
    assert p.funcs[f].ty == q.funcs[q.table[i]].ty;
    var vm := Ticks(m, host, Entry(m.funcs[f], args, s), k);
    forall n: nat
      ensures !SameStory(ExecFunc(p, host, f, args, s, n), m.funcs[f].nResults, vm)
    {
      CallerMeans(q, i, host, args, s, n);
    }
  }

  /** Exactly when translation keeps the meaning of every program with these types, imports and table, whatever its own
      functions are. */
  lemma TableCondition(q: Program, host: Host, s: Store)
    requires WellFormed(q) && WellBehaved(host) && |q.table| <= TWO32
    ensures TableDefined(q) <==>
      forall p, m, pools, f, args, k | SameFront(q, p) :: Faithful(p, m, host, pools, f, args, s, k)
  {
    hide Faithful, WellTyped, Caller, Image, SameFront, WellBehaved;
    forall p, m, pools, f, args, k | TableDefined(q) && SameFront(q, p)
      ensures Faithful(p, m, host, pools, f, args, s, k)
    {
      FrontDefined(q, p, m, host, pools, f, args, s, k);
    }
    if !TableDefined(q) {
      var i: nat :| i < |q.table| && q.table[i] < q.nImports && q.table[i] != TABLE_NULL;
      var np := |q.types[q.funcs[q.table[i]].ty].params|;
      CallerTyped(q, i);
      CallerUnfaithful(q, i, host, Zeros(np), s, np + 3);
    }
  }
}
