/** Lowering preserves meaning: the flat code of a well-typed structured program does what the program means, call by
    call, block by block, until it ends the same way or meets one of the machine's own limits. */
module Simulation {
  import opened Words
  import opened Bytecode
  import opened Machine
  import opened Frames
  import opened Wasm
  import opened Emission
  import opened Safety
  import Fingerprint

  /** The finished code of function `f` sits in the module where its meta says, compiled from the constant pool as it
      was when its turn came. */
  ghost predicate FuncBuilt(p: Program, m: Module, f: nat, pool: seq<Word>)
    requires f < |p.funcs| && p.funcs[f].Local? && p.funcs[f].ty < |p.types| && f < |m.funcs|
  {
    var off := m.funcs[f].codeOff;
    var env := EnvOf(p, f);
    var e := EmitFunc(p, f, off, pool);
    && e.Some?
    && m.funcs[f] == FuncMeta(off, |e.value.code| + 1, env.nParams, env.nResults, env.nLocals)
    && off + |e.value.code| + 1 <= |m.code|
    && m.code[off..off + |e.value.code| + 1] == FuncCode(e.value.code, off)
    && e.value.st.consts <= m.consts
  }

  /** `m` is the translation of `p`, every body of which was lowered without error. */
  ghost predicate IsImage(p: Program, m: Module, pools: seq<seq<Word>>) {
    && WellFormed(p)
    && |m.funcs| == |p.funcs| == |pools| == |m.funcType|
    && m.nImports == p.nImports && m.table == p.table && m.segments == p.segments
    && |m.typeFp| == |p.types|
    && (forall i :: 0 <= i < |p.types| ==> m.typeFp[i] == Fingerprint.Fp(p.types[i]))
    && (forall f :: 0 <= f < |p.funcs| ==> m.funcType[f] == p.funcs[f].ty)
    && (forall f :: p.nImports <= f < |p.funcs| ==> FuncBuilt(p, m, f, pools[f]))
    && (forall f :: p.nImports <= f < |p.funcs| ==> NumParams(p, f) + p.funcs[f].nLocals < 65535)
    && (forall f :: 0 <= f < p.nImports ==> m.funcs[f] == FuncMeta(0, 0, NumParams(p, f), NumResults(p, f), 0))
  }

  /** The same of a program whose table holds no import; the translator does not ask, and translates an indirect call as
      if it always reached code of the program's own. */
  ghost predicate Built(p: Program, m: Module, pools: seq<seq<Word>>) { IsImage(p, m, pools) && TableDefined(p) }

  predicate Owns(m: Module, f: nat, pc: nat) {
    f < |m.funcs| && m.funcs[f].codeOff <= pc < m.funcs[f].codeOff + m.funcs[f].codeLen
  }

  ghost predicate World(p: Program, m: Module, host: Host, pools: seq<seq<Word>>) {
    Built(p, m, pools) && WellTyped(p) && WellBehaved(host)
  }

  /** What stays the same about the running activation. */
  datatype Home = Home(below: Acts, retPc: nat, nResults: nat, nSlots: nat)

  /** Where in a function body we are: the enclosing labels and where they lead, and the operands `under` the current
      block, which it may not touch. */
  datatype Spot = Spot(env: Env, k: Ctx, labels: seq<Label>, ends: seq<nat>, home: Home, under: seq<Word>)

  ghost predicate SpotOk(x: Spot) {
    && |x.labels| == |x.ends| == |x.k.labels|
    && (forall d :: 0 <= d < |x.labels| ==> x.labels[d].arity == x.k.labels[d] && x.labels[d].base <= |x.under|)
    && x.home.nSlots == x.env.nParams + x.env.nLocals
    && x.k.nLocals <= x.home.nSlots && x.k.nLocals < 65535
    && x.env.scratch == x.k.nLocals
    && x.home.nResults == x.k.nRes
  }

  function Target(x: Spot, d: nat): nat
    requires d < |x.labels| && d < |x.ends|
  {
    if x.labels[d].start.Some? then x.labels[d].start.value else x.ends[d]
  }

  function Enter(x: Spot, l: Label, end: nat, under: seq<Word>): Spot {
    x.(k := Inner(x.k, l.arity), labels := [l] + x.labels, ends := [end] + x.ends, under := under)
  }

  /** The machine is about to run `pc` in activation `home`, with these locals, operands and store. */
  ghost predicate Here(am: Am, pc: nat, home: Home, locals: seq<Word>, ops: seq<Word>, s: Store) {
    && am.status == Running && am.pc == pc && am.acts.Act?
    && am.acts.below == home.below && am.acts.retPc == home.retPc && am.acts.nResults == home.nResults
    && |am.acts.locals| == home.nSlots && |locals| <= home.nSlots && am.acts.locals[..|locals|] == locals
    && am.acts.ops == ops && am.store == s
  }

  /** The activation `home` has returned `vs`. */
  ghost predicate Paid(am: Am, home: Home, vs: seq<Word>, s: Store) {
    && |vs| == home.nResults && am.store == s
    && if home.below.Bottom? then am.status == Status.Ok && am.results == vs
       else am.status == Running && am.pc == home.retPc && am.acts == home.below.(ops := home.below.ops + vs)
  }

  /** After `c` ticks the machine has done what outcome `o` says (`n` is the fuel `o` was computed with). */
  ghost predicate Agrees(o: Outcome, am: Am, x: Spot, pc: nat, nl: nat, c: nat, n: nat) {
    match o
    case Normal(stk, l, s) => |l| == nl && Here(am, pc, x.home, l, x.under + stk, s)
    case Jump(d, vs, l, s) =>
      && d < |x.labels| && d < |x.ends| && |l| == nl && c >= 1 && |vs| == x.labels[d].arity
      && x.labels[d].base <= |x.under|
      && Here(am, Target(x, d), x.home, l, x.under[..x.labels[d].base] + vs, s)
    case Returned(vs, s) => Paid(am, x.home, vs, s)
    case Trapped(st, s) => am.status == st && TrapStatus(st) && am.store == s
    case Timeout => am.status == Running && c >= n
    case Stuck => false
  }

  ghost predicate Simulated(o: Outcome, am: Am, x: Spot, pc: nat, nl: nat, c: nat, n: nat) {
    ResourceTrap(am.status) || Agrees(o, am, x, pc, nl, c, n)
  }

  predicate CodeAt(m: Module, pc: nat, s: seq<Sym>, ends: seq<nat>) {
    pc + |s| <= |m.code| && m.code[pc..pc + |s|] == Resolved(s, ends)
  }

  lemma CodeAtParts(m: Module, pc: nat, a: seq<Sym>, b: seq<Sym>, ends: seq<nat>)
    requires CodeAt(m, pc, a + b, ends)
    ensures CodeAt(m, pc, a, ends) && CodeAt(m, pc + |a|, b, ends)
  {
    var whole := m.code[pc..pc + |a + b|];
    forall i | 0 <= i < |a|
      ensures m.code[pc + i] == ResolveOne(a[i], ends)
    {
      assert whole[i] == ResolveOne((a + b)[i], ends);
    }
    forall i | 0 <= i < |b|
      ensures m.code[pc + |a| + i] == ResolveOne(b[i], ends)
    {
      assert whole[|a| + i] == ResolveOne((a + b)[|a| + i], ends);
    }
  }

  lemma CodeAtHead(m: Module, pc: nat, x: Sym, b: seq<Sym>, ends: seq<nat>)
    requires CodeAt(m, pc, [x] + b, ends)
    ensures pc < |m.code| && m.code[pc] == ResolveOne(x, ends) && CodeAt(m, pc + 1, b, ends)
  {
    CodeAtParts(m, pc, [x], b, ends);
    assert m.code[pc..pc + 1][0] == m.code[pc];
    assert Resolved([x], ends)[0] == ResolveOne(x, ends);
  }

  /** Closing a block is resolving with one more end. */
  lemma CodeAtClose(m: Module, pc: nat, s: seq<Sym>, end: nat, ends: seq<nat>)
    requires CodeAt(m, pc, Close(s, end), ends)
    ensures CodeAt(m, pc, s, [end] + ends)
  {
    forall i | 0 <= i < |s|
      ensures ResolveOne(Close(s, end)[i], ends) == ResolveOne(s[i], [end] + ends)
    {
      if s[i].lab.Some? && 0 < s[i].lab.value < |ends| + 1 {
        assert ([end] + ends)[s[i].lab.value] == ends[s[i].lab.value - 1];
      }
    }
    assert Resolved(Close(s, end), ends) == Resolved(s, [end] + ends);
  }

  lemma {:induction false} ATicksAdd(m: Module, host: Host, am: Am, j: nat, k: nat)
    ensures ATicks(m, host, ATicks(m, host, am, j), k) == ATicks(m, host, am, j + k)
    decreases j
  {
    hide ATick;
    if j > 0 { ATicksAdd(m, host, ATick(m, host, am), j - 1, k); }
  }

  lemma {:induction false} AFinalStays(m: Module, host: Host, am: Am, k: nat)
    requires Final(am.status)
    ensures ATicks(m, host, am, k) == am
    decreases k
  {
    hide AStep, AResume;
    if k > 0 { AFinalStays(m, host, am, k - 1); }
  }

  lemma OneTick(m: Module, host: Host, am: Am, op: CuOp)
    requires am.status == Running && am.acts.Act? && am.pc < |m.code| && m.code[am.pc] == op
    ensures ATicks(m, host, am, 1) == AExec(m, op, am.(pc := am.pc + 1))
  {
    hide AExec;
    assert ATicks(m, host, am, 1) == ATicks(m, host, ATick(m, host, am), 0);
  }

  // ----- one instruction -----

  /** Live code for instruction `i` lies at `pc`, the operands of the block so far are `stk`, and the machine is
      there. */
  ghost predicate Ready(m: Module, x: Spot, i: Instr, pc: nat, st: Tracked, e: Emitted, stk: seq<Word>,
                        locals: seq<Word>, s: Store, am: Am)
  {
    && SpotOk(x) && !st.dead && st.h == |x.under| + |stk|
    && EmitInstr(x.env, i, pc, st, x.labels, true) == Some(e)
    && CodeAt(m, pc, e.code, x.ends) && e.st.consts <= m.consts
    && TypeInstr(x.env.p, x.k, i, Ty(|stk|, false)).Some?
    && (InstrUsesTable(i) ==> x.env.scratch < x.home.nSlots)
    && |locals| == x.k.nLocals
    && Here(am, pc, x.home, locals, x.under + stk, s)
  }

  /** When `i` falls through, translator and type checker agree on the height it leaves. */
  ghost predicate Tracks(x: Spot, i: Instr, stk: seq<Word>, o: Outcome, e: Emitted) {
    o.Normal? ==>
      TypeInstr(x.env.p, x.k, i, Ty(|stk|, false)) == Some(Ty(|o.stk|, false)) &&
      !e.st.dead && e.st.h == |x.under| + |o.stk|
  }

  lemma OpsSplit(under: seq<Word>, stk: seq<Word>, n: nat)
    requires n <= |stk|
    ensures var ops := under + stk;
      ops[|ops| - n..] == Last(stk, n) && ops[..|ops| - n] == under + Wasm.Drop(stk, n)
  {
  }

  lemma Regroup(a: seq<Word>, b: seq<Word>, c: seq<Word>)
    ensures a + b + c == a + (b + c)
  {
  }

  lemma PushHere(am: Am, pc: nat, home: Home, locals: seq<Word>, ops: seq<Word>, s: Store, ws: seq<Word>)
    requires Here(am, pc, home, locals, ops, s)
    ensures ResourceTrap(APush(am, ws).status) || Here(APush(am, ws), pc, home, locals, ops + ws, s)
  {
    hide Flat;
  }

  lemma PopHere(am: Am, pc: nat, home: Home, locals: seq<Word>, under: seq<Word>, stk: seq<Word>, s: Store, n: nat)
    requires Here(am, pc, home, locals, under + stk, s) && n <= |stk|
    ensures n <= |am.acts.ops| && Top(am, n) == Last(stk, n)
    ensures Here(APop(am, n), pc, home, locals, under + Wasm.Drop(stk, n), s)
  {
    OpsSplit(under, stk, n);
  }

  // ----- single ticks of the machine, as the simulation sees them -----

  lemma TickPush(m: Module, host: Host, am: Am, pc: nat, home: Home, locals: seq<Word>, ops: seq<Word>, s: Store,
                 w: Word)
    requires Here(am, pc, home, locals, ops, s) && pc < |m.code|
    requires var op := m.code[pc];
      (op.Const? && op.k < |m.consts| && m.consts[op.k] == w) ||
      (op.LocalGet? && op.x < home.nSlots && am.acts.locals[op.x] == w)
    ensures var am' := ATicks(m, host, am, 1);
      ResourceTrap(am'.status) ||
      (Here(am', pc + 1, home, locals, ops + [w], s) && am'.acts.locals == am.acts.locals)
  {
    hide ATicks, Flat;
    OneTick(m, host, am, m.code[pc]);
    PushHere(am.(pc := pc + 1), pc + 1, home, locals, ops, s, [w]);
  }

  lemma TickSet(m: Module, host: Host, am: Am, pc: nat, home: Home, locals: seq<Word>, under: seq<Word>, stk: seq<Word>,
                s: Store, y: nat)
    requires Here(am, pc, home, locals, under + stk, s) && pc < |m.code| && m.code[pc] == LocalSet(y)
    requires |stk| >= 1 && y < home.nSlots
    ensures var am' := ATicks(m, host, am, 1);
      var v := Last(stk, 1)[0];
      am'.acts.Act? && am'.acts.locals == am.acts.locals[y := v] &&
      Here(am', pc + 1, home, if y < |locals| then locals[y := v] else locals, under + Wasm.Drop(stk, 1), s)
  {
    hide ATicks, Flat;
    OneTick(m, host, am, m.code[pc]);
    PopHere(am.(pc := pc + 1), pc + 1, home, locals, under, stk, s, 1);
    var v := Last(stk, 1)[0];
    var l := am.acts.locals;
    if y < |locals| {
      assert l[y := v][..|locals|] == locals[y := v];
    } else {
      assert l[y := v][..|locals|] == locals;
    }
  }

  /** A straight-line instruction: the same `Eval` on both sides. */
  lemma TickSimple(m: Module, host: Host, am: Am, pc: nat, home: Home, locals: seq<Word>, under: seq<Word>,
                   stk: seq<Word>, s: Store, q: Plain)
    requires Here(am, pc, home, locals, under + stk, s) && pc < |m.code| && m.code[pc] == Simple(q) && Pops(q) <= |stk|
    ensures var am' := ATicks(m, host, am, 1);
      match Eval(m.segments, q, s, Last(stk, Pops(q)))
      case Fault(st) => am'.status == st && am'.store == s
      case Done(s', ws) =>
        ResourceTrap(am'.status) ||
        (Here(am', pc + 1, home, locals, under + (Wasm.Drop(stk, Pops(q)) + ws), s') &&
          am'.acts.locals == am.acts.locals)
  {
    hide ATicks, Flat, Eval;
    OneTick(m, host, am, m.code[pc]);
    var a := am.(pc := pc + 1);
    PopHere(a, pc + 1, home, locals, under, stk, s, Pops(q));
    match Eval(m.segments, q, s, Last(stk, Pops(q)))
    case Fault(st) =>
    case Done(s', ws) =>
      PushHere(APop(a, Pops(q)).(store := s'), pc + 1, home, locals, under + Wasm.Drop(stk, Pops(q)), s', ws);
      Regroup(under, Wasm.Drop(stk, Pops(q)), ws);
  }

  lemma TickBr(m: Module, host: Host, am: Am, pc: nat, home: Home, locals: seq<Word>, ops: seq<Word>, s: Store, t: nat)
    requires Here(am, pc, home, locals, ops, s) && pc < |m.code| && m.code[pc] == Br(t)
    ensures var am' := ATicks(m, host, am, 1);
      ResourceTrap(am'.status) || (Here(am', t, home, locals, ops, s) && am'.acts == am.acts)
  {
    hide ATicks;
    OneTick(m, host, am, m.code[pc]);
  }

  lemma TickBrIfNot(m: Module, host: Host, am: Am, pc: nat, home: Home, locals: seq<Word>, under: seq<Word>,
                    stk: seq<Word>, s: Store, t: nat)
    requires Here(am, pc, home, locals, under + stk, s) && pc < |m.code| && m.code[pc] == BrIfNot(t) && |stk| >= 1
    ensures var am' := ATicks(m, host, am, 1);
      Here(am', if Low(W32, Last(stk, 1)[0]) == 0 then t else pc + 1, home, locals, under + Wasm.Drop(stk, 1), s) &&
      am'.acts.locals == am.acts.locals
  {
    hide ATicks;
    OneTick(m, host, am, m.code[pc]);
    PopHere(am.(pc := pc + 1), pc + 1, home, locals, under, stk, s, 1);
  }

  lemma TickUnwind(m: Module, host: Host, am: Am, pc: nat, home: Home, locals: seq<Word>, ops: seq<Word>, s: Store,
                   keep: nat, h: nat)
    requires Here(am, pc, home, locals, ops, s) && pc < |m.code| && m.code[pc] == Unwind(keep, home.nSlots + h)
    requires keep <= h <= |ops|
    ensures var am' := ATicks(m, host, am, 1);
      Here(am', pc + 1, home, locals, ops[..h - keep] + ops[|ops| - keep..], s) && am'.acts.locals == am.acts.locals
  {
    hide ATicks;
    OneTick(m, host, am, m.code[pc]);
  }

  lemma TickReturn(m: Module, host: Host, am: Am, pc: nat, home: Home, locals: seq<Word>, under: seq<Word>,
                   stk: seq<Word>, s: Store)
    requires Here(am, pc, home, locals, under + stk, s) && pc < |m.code| && m.code[pc] in {Return, EndFunc}
    requires |stk| >= home.nResults
    ensures Paid(ATicks(m, host, am, 1), home, Last(stk, home.nResults), s)
  {
    hide ATicks;
    OneTick(m, host, am, m.code[pc]);
    PopHere(am.(pc := pc + 1), pc + 1, home, locals, under, stk, s, home.nResults);
  }

  /** Two ticks' worth of running, composed. */
  lemma Then(m: Module, host: Host, am: Am, c: nat, d: nat)
    ensures ATicks(m, host, am, c + d) == ATicks(m, host, ATicks(m, host, am, c), d)
  {
    ATicksAdd(m, host, am, c, d);
  }

  // ----- branches -----

  /** A branch to label `d` with these operands in the current block has been taken. */
  ghost predicate Arrived(am: Am, x: Spot, d: nat, stk: seq<Word>, locals: seq<Word>, s: Store) {
    d < |x.labels| && d < |x.ends| && x.labels[d].base <= |x.under| && x.labels[d].arity <= |stk| &&
    Here(am, Target(x, d), x.home, locals, x.under[..x.labels[d].base] + Last(stk, x.labels[d].arity), s)
  }

  /** The unwind and jump of a branch take the kept operands to the label. */
  lemma TickBranch(m: Module, host: Host, x: Spot, d: nat, pc: nat, st: Tracked, j: seq<Sym>, stk: seq<Word>,
                   locals: seq<Word>, s: Store, am: Am) returns (c: nat, am': Am)
    requires SpotOk(x) && !st.dead && st.h == |x.under| + |stk| && d < |x.labels| && x.k.labels[d] <= |stk|
    requires EmitBranch(x.env, d, st, x.labels, true) == Some(j) && CodeAt(m, pc, j, x.ends)
    requires Here(am, pc, x.home, locals, x.under + stk, s)
    ensures am' == ATicks(m, host, am, c) && c >= 1
    ensures ResourceTrap(am'.status) || Arrived(am', x, d, stk, locals, s)
  {
    hide ATicks, Here, CodeAt, Arrived, Target;
    var l := x.labels[d];
    if st.h > l.base + l.arity {
      c, am' := TickUnwindJump(m, host, x, d, pc, j, stk, locals, s, am);
    } else {
      c, am' := TickJump(m, host, x, d, pc, j, stk, locals, s, am);
    }
  }

  lemma TickJump(m: Module, host: Host, x: Spot, d: nat, pc: nat, j: seq<Sym>, stk: seq<Word>, locals: seq<Word>,
                 s: Store, am: Am) returns (c: nat, am': Am)
    requires SpotOk(x) && d < |x.labels| && x.k.labels[d] <= |stk| && CodeAt(m, pc, j, x.ends) && |j| == 1
    requires |x.under| + |stk| == x.labels[d].base + x.labels[d].arity && j[0] == JumpTo(d, x.labels[d], j[0].ht)
    requires Here(am, pc, x.home, locals, x.under + stk, s)
    ensures am' == ATicks(m, host, am, c) && c >= 1
    ensures ResourceTrap(am'.status) || Arrived(am', x, d, stk, locals, s)
  {
    hide ATicks, Here, CodeAt;
    var l := x.labels[d];
    KeptOps(x.under, stk, l.base, l.arity);
    assert j == [j[0]] + [];
    CodeAtHead(m, pc, j[0], [], x.ends);
    TickBr(m, host, am, pc, x.home, locals, x.under + stk, s, Target(x, d));
    c, am' := 1, ATicks(m, host, am, 1);
  }

  lemma TickUnwindJump(m: Module, host: Host, x: Spot, d: nat, pc: nat, j: seq<Sym>, stk: seq<Word>, locals: seq<Word>,
                       s: Store, am: Am) returns (c: nat, am': Am)
    requires SpotOk(x) && d < |x.labels| && x.k.labels[d] <= |stk| && CodeAt(m, pc, j, x.ends) && |j| == 2
    requires |x.under| + |stk| > x.labels[d].base + x.labels[d].arity && j[0].lab.None?
    requires var l := x.labels[d]; j[0].op == Unwind(l.arity, x.env.nParams + x.env.nLocals + l.base + l.arity)
    requires j[1] == JumpTo(d, x.labels[d], j[1].ht)
    requires Here(am, pc, x.home, locals, x.under + stk, s)
    ensures am' == ATicks(m, host, am, c) && c >= 1
    ensures ResourceTrap(am'.status) || Arrived(am', x, d, stk, locals, s)
  {
    hide ATicks, Here, CodeAt;
    var l, ops := x.labels[d], x.under + stk;
    KeptOps(x.under, stk, l.base, l.arity);
    assert j == [j[0]] + [j[1]];
    CodeAtHead(m, pc, j[0], [j[1]], x.ends);
    assert [j[1]] == [j[1]] + [];
    CodeAtHead(m, pc + 1, j[1], [], x.ends);
    TickUnwind(m, host, am, pc, x.home, locals, ops, s, l.arity, l.base + l.arity);
    var a := ATicks(m, host, am, 1);
    TickBr(m, host, a, pc + 1, x.home, locals, ops[..l.base] + ops[|ops| - l.arity..], s, Target(x, d));
    Then(m, host, am, 1, 1);
    c, am' := 2, ATicks(m, host, a, 1);
  }

  /** What an unwind keeps of the operands. */
  lemma KeptOps(under: seq<Word>, stk: seq<Word>, base: nat, arity: nat)
    requires base <= |under| && arity <= |stk|
    ensures (under + stk)[..base] == under[..base] && (under + stk)[|under| + |stk| - arity..] == Last(stk, arity)
    ensures |under| + |stk| == base + arity ==> under + stk == under[..base] + Last(stk, arity)
  {
  }

  /** A guarded branch is taken exactly when the operand on top is nonzero as an i32. */
  lemma TickGuarded(m: Module, host: Host, x: Spot, d: nat, pc: nat, ht: int, st: Tracked, g: seq<Sym>, stk: seq<Word>,
                    locals: seq<Word>, s: Store, am: Am) returns (c: nat, am': Am)
    requires SpotOk(x) && !st.dead && |stk| >= 1 && st.h == |x.under| + |stk| - 1
    requires d < |x.labels| && x.k.labels[d] <= |stk| - 1
    requires EmitGuarded(x.env, d, pc, ht, st, x.labels, true) == Some(g) && CodeAt(m, pc, g, x.ends)
    requires Here(am, pc, x.home, locals, x.under + stk, s)
    ensures am' == ATicks(m, host, am, c) && c >= 1
    ensures ResourceTrap(am'.status) ||
      if Low(W32, Last(stk, 1)[0]) != 0 then Arrived(am', x, d, Wasm.Drop(stk, 1), locals, s)
      else Here(am', pc + |g|, x.home, locals, x.under + Wasm.Drop(stk, 1), s) && am'.acts.locals == am.acts.locals
  {
    hide ATicks, EmitBranch, Arrived;
    var j := EmitBranch(x.env, d, st, x.labels, true).value;
    CodeAtHead(m, pc, g[0], j, x.ends);
    TickBrIfNot(m, host, am, pc, x.home, locals, x.under, stk, s, pc + 1 + |j|);
    var a := ATicks(m, host, am, 1);
    if Low(W32, Last(stk, 1)[0]) != 0 {
      c, am' := TickBranch(m, host, x, d, pc + 1, st, j, Wasm.Drop(stk, 1), locals, s, a);
      Then(m, host, am, 1, c);
      c := c + 1;
    } else {
      c, am' := 1, a;
    }
  }

  lemma EqFlag(segments: seq<seq<Byte>>, s: Store, a: Word, b: Word)
    ensures Eval(segments, Arith(Bin(W32, Eq)), s, [a, b]) == Done(s, [Flag(Low(W32, a) == Low(W32, b))])
  {
  }

  /** LOCAL_GET, CONST, I32_EQ: compare a local with a constant. */
  lemma TickCompare(m: Module, host: Host, am: Am, pc: nat, home: Home, locals: seq<Word>, under: seq<Word>,
                    stk: seq<Word>, s: Store, y: nat, k: nat) returns (c: nat, am': Am)
    requires Here(am, pc, home, locals, under + stk, s) && pc + 2 < |m.code| && y < home.nSlots && k < |m.consts|
    requires m.code[pc] == LocalGet(y) && m.code[pc + 1] == Const(k) && m.code[pc + 2] == Simple(Arith(Bin(W32, Eq)))
    ensures am' == ATicks(m, host, am, c) && c >= 1
    ensures ResourceTrap(am'.status) ||
      (Here(am', pc + 3, home, locals, under + (stk + [Flag(Low(W32, am.acts.locals[y]) == Low(W32, m.consts[k]))]),
        s) &&
       am'.acts.locals == am.acts.locals)
  {
    hide ATicks, Eval;
    var w, v := am.acts.locals[y], m.consts[k];
    TickPush(m, host, am, pc, home, locals, under + stk, s, w);
    var a1 := ATicks(m, host, am, 1);
    c, am' := 1, a1;
    if !ResourceTrap(a1.status) {
      TickPush(m, host, a1, pc + 1, home, locals, under + stk + [w], s, v);
      var a2 := ATicks(m, host, a1, 1);
      Then(m, host, am, 1, 1);
      c, am' := 2, a2;
      if !ResourceTrap(a2.status) {
        var full := stk + [w, v];
        assert under + stk + [w] + [v] == under + full;
        assert Last(full, 2) == [w, v] && Wasm.Drop(full, 2) == stk;
        EqFlag(m.segments, s, w, v);
        TickSimple(m, host, a2, pc + 2, home, locals, under, full, s, Arith(Bin(W32, Eq)));
        Then(m, host, am, 2, 1);
        c, am' := 3, ATicks(m, host, a2, 1);
      }
    }
  }

  /** One link of a br_table chain: the branch is taken exactly when the scratch local holds `i`. */
  lemma TickLink(m: Module, host: Host, x: Spot, d: nat, i: nat, pc: nat, st: Tracked, e: Emitted, stk: seq<Word>,
                 locals: seq<Word>, s: Store, am: Am) returns (c: nat, am': Am)
    requires SpotOk(x) && !st.dead && st.h == |x.under| + |stk| && i < TWO32
    requires d < |x.labels| && x.k.labels[d] <= |stk| && x.env.scratch < x.home.nSlots
    requires EmitLink(x.env, d, i, pc, st, x.labels, true) == Some(e) && CodeAt(m, pc, e.code, x.ends)
    requires e.st.consts <= m.consts
    requires Here(am, pc, x.home, locals, x.under + stk, s)
    ensures am' == ATicks(m, host, am, c) && c >= 1
    ensures ResourceTrap(am'.status) ||
      if Low(W32, am.acts.locals[x.env.scratch]) == i then Arrived(am', x, d, stk, locals, s)
      else Here(am', pc + |e.code|, x.home, locals, x.under + stk, s) && am'.acts.locals == am.acts.locals
  {
    hide ATicks, EmitGuarded, Arrived;
    var w := am.acts.locals[x.env.scratch];
    var g := LinkCode(m, x, d, i, pc, st, e);
    c, am' := TickCompare(m, host, am, pc, x.home, locals, x.under, stk, s, x.env.scratch, Find(st.consts, i));
    if !ResourceTrap(am'.status) {
      var top := stk + [Flag(Low(W32, w) == i)];
      assert Last(top, 1)[0] == Flag(Low(W32, w) == i) && Wasm.Drop(top, 1) == stk;
      var c', a4 := TickGuarded(m, host, x, d, pc + 3, st.h + 1, e.st, g, top, locals, s, am');
      Then(m, host, am, c, c');
      c, am' := c + c', a4;
    }
  }

  lemma LinkCode(m: Module, x: Spot, d: nat, i: nat, pc: nat, st: Tracked, e: Emitted) returns (g: seq<Sym>)
    requires !st.dead && i < TWO32
    requires EmitLink(x.env, d, i, pc, st, x.labels, true) == Some(e) && CodeAt(m, pc, e.code, x.ends)
    requires e.st.consts <= m.consts
    ensures EmitGuarded(x.env, d, pc + 3, st.h + 1, e.st, x.labels, true) == Some(g) && CodeAt(m, pc + 3, g, x.ends)
    ensures |e.code| == 3 + |g| && pc + 2 < |m.code| && e.st.h == st.h && !e.st.dead
    ensures m.code[pc] == LocalGet(x.env.scratch) && m.code[pc + 2] == Simple(Arith(Bin(W32, Eq)))
    ensures var k := Find(st.consts, i); m.code[pc + 1] == Const(k) && k < |m.consts| && m.consts[k] == i
  {
    hide EmitGuarded, CodeAt;
    var h, k := st.h, Find(st.consts, i);
    assert i % TWO32 == i;
    g := EmitGuarded(x.env, d, pc + 3, h + 1, e.st, x.labels, true).value;
    var a, b, z := Fixed(LocalGet(x.env.scratch), h), Fixed(Const(k), h + 1), Fixed(Simple(Arith(Bin(W32, Eq))), h + 2);
    assert e.code == [a, b, z] + g == [a] + ([b] + ([z] + g));
    CodeAtHead(m, pc, a, [b] + ([z] + g), x.ends);
    CodeAtHead(m, pc + 1, b, [z] + g, x.ends);
    CodeAtHead(m, pc + 2, z, g, x.ends);
    assert m.consts[k] == e.st.consts[k] == i;
  }

  /** The whole chain: the index picks its target, and anything past the end the default. */
  lemma {:induction false} TickChain(m: Module, host: Host, x: Spot, ds: seq<nat>, i: nat, default: nat, pc: nat,
      st: Tracked, e: Emitted, stk: seq<Word>, locals: seq<Word>, s: Store, ix: nat, am: Am) returns (c: nat, am': Am)
    requires SpotOk(x) && !st.dead && st.h == |x.under| + |stk| && i <= |ds| < TWO32 && i <= ix
    requires x.env.scratch < x.home.nSlots
    requires forall j :: 0 <= j < |ds| ==> ds[j] < |x.labels| && x.k.labels[ds[j]] <= |stk|
    requires default < |x.labels| && x.k.labels[default] <= |stk|
    requires EmitChain(x.env, ds, i, default, pc, st, x.labels, true) == Some(e) && CodeAt(m, pc, e.code, x.ends)
    requires e.st.consts <= m.consts
    requires Here(am, pc, x.home, locals, x.under + stk, s) && Low(W32, am.acts.locals[x.env.scratch]) == ix
    ensures am' == ATicks(m, host, am, c) && c >= 1
    ensures ResourceTrap(am'.status) || Arrived(am', x, if ix < |ds| then ds[ix] else default, stk, locals, s)
    decreases |ds| - i
  {
    hide ATicks, EmitBranch, EmitLink, Arrived;
    if i == |ds| {
      c, am' := TickBranch(m, host, x, default, pc, st, e.code, stk, locals, s, am);
    } else {
      var e1 := EmitLink(x.env, ds[i], i, pc, st, x.labels, true).value;
      LinkState(x.env, ds[i], i, pc, st, x.labels);
      var e2 := EmitChain(x.env, ds, i + 1, default, pc + |e1.code|, e1.st, x.labels, true).value;
      CodeAtParts(m, pc, e1.code, e2.code, x.ends);
      ChainPool(x.env, ds, i + 1, default, pc + |e1.code|, e1.st, x.labels, true);
      c, am' := TickLink(m, host, x, ds[i], i, pc, st, e1, stk, locals, s, am);
      if !ResourceTrap(am'.status) && ix != i {
        var c', a := TickChain(m, host, x, ds, i + 1, default, pc + |e1.code|, e1.st, e2, stk, locals, s, ix, am');
        Then(m, host, am, c, c');
        c, am' := c + c', a;
      }
    }
  }

  lemma LinkState(env: Env, d: nat, i: nat, pc: nat, st: Tracked, labels: seq<Label>)
    requires EmitLink(env, d, i, pc, st, labels, true).Some?
    ensures var e := EmitLink(env, d, i, pc, st, labels, true).value;
      e.st.h == st.h && e.st.dead == st.dead && st.consts <= e.st.consts
  {
    hide EmitGuarded;
  }

  /** Emission only appends to the constant pool. */
  lemma {:induction false} ChainPool(env: Env, ds: seq<nat>, i: nat, default: nat, pc: nat, st: Tracked,
                                     labels: seq<Label>, reach: bool)
    requires i <= |ds|
    ensures var e := EmitChain(env, ds, i, default, pc, st, labels, reach); e.Some? ==> st.consts <= e.value.st.consts
    decreases |ds| - i
  {
    hide EmitBranch, EmitGuarded;
    if i < |ds| {
      var e1 := EmitLink(env, ds[i], i, pc, st, labels, reach);
      if e1.Some? { ChainPool(env, ds, i + 1, default, pc + |e1.value.code|, e1.value.st, labels, reach); }
    }
  }
}
