/** Every run that stays in forward-branching, tail-call-free code halts. */
module Termination {
  import opened Words
  import opened Bytecode
  import opened Machine
  import Memory

  /** Control at `t` is in `ok`, or outside the code, where the next step traps. */
  predicate Safe(m: Module, ok: set<nat>, t: nat) { t in ok || t >= |m.code| }

  /** The instruction at `q` leads only to safe places; a conditional branch goes forward, backward jumps are left to
      BR, which is charged, and there is no tail call. */
  predicate Onward(m: Module, ok: set<nat>, q: nat)
    requires q < |m.code|
  {
    match m.code[q]
    case BrIfNot(t) => q < t && Safe(m, ok, t) && Safe(m, ok, q + 1)
    case Br(t) => Safe(m, ok, t)
    case Return | EndFunc | Unreachable | Unknown => true
    case ReturnCall(_) => false
    case Call(g) => Safe(m, ok, q + 1) && (g < |m.funcs| ==> Safe(m, ok, m.funcs[g].codeOff))
    case CallIndirect(_) =>
      Safe(m, ok, q + 1) &&
      forall i :: 0 <= i < |m.table| && m.table[i] < |m.funcs| && m.table[i] != TABLE_NULL ==>
        Safe(m, ok, m.funcs[m.table[i]].codeOff)
    case _ => Safe(m, ok, q + 1)
  }

  ghost predicate Guarded(m: Module, ok: set<nat>) {
    forall q :: q in ok && q < |m.code| ==> Onward(m, ok, q)
  }

  /** The machine is at a safe place and will return to safe places. */
  ghost predicate Inside(m: Module, ok: set<nat>, vm: Vm) {
    !Final(vm.status) ==>
      Safe(m, ok, vm.pc) && forall i :: 0 < i < |vm.frames| ==> Safe(m, ok, vm.frames[i].retPc)
  }

  function Pow(b: nat, e: nat): nat {
    if e == 0 then 1 else b * Pow(b, e - 1)
  }

  lemma {:induction false} PowPositive(b: nat, e: nat)
    requires b > 0
    ensures Pow(b, e) > 0
  {
    if e > 0 { PowPositive(b, e - 1); }
  }

  /** How far `pc` is from the end of the code, at least 1. */
  function Dist(m: Module, pc: nat): (d: nat)
    ensures 1 <= d <= |m.code| + 1
  {
    if pc < |m.code| then |m.code| - pc + 1 else 1
  }

  function Base(m: Module): nat { |m.code| + 2 }

  /** The distances of all activations read as the digits of one number, the bottom activation most significant. */
  function Rank(m: Module, frames: seq<Frame>, pc: nat): nat
    requires |frames| <= FRAME_CAP
    decreases |frames|
  {
    var n := |frames|;
    Dist(m, pc) * Pow(Base(m), FRAME_CAP - n)
    + if n == 0 then 0 else Rank(m, frames[..n - 1], frames[n - 1].retPc)
  }

  lemma Scaled(d: nat, d': nat, p: nat)
    requires d' < d && p > 0
    ensures d' * p < d * p
  {
    assert d * p == d' * p + (d - d') * p;
    Product(d - d', p);
  }

  lemma Product(a: nat, b: nat)
    requires a > 0 && b > 0
    ensures a * b > 0
  {
  }

  /** A digit of weight `p` under a base `w` never makes up for one unit of the next digit. */
  lemma Carry(d: nat, d': nat, c: nat, w: nat, p: nat)
    requires d' < d && c < w && p > 0
    ensures c * p + d' * (w * p) < d * (w * p)
  {
    Scaled(w, c, p);
    assert (d' + 1) * (w * p) == d' * (w * p) + w * p;
    if d' + 1 < d {
      Product(w, p);
      Scaled(d, d' + 1, w * p);
    }
  }

  lemma MovesForward(m: Module, frames: seq<Frame>, pc: nat, pc': nat)
    requires |frames| <= FRAME_CAP && pc < |m.code| && pc < pc'
    ensures Rank(m, frames, pc') < Rank(m, frames, pc)
  {
    PowPositive(Base(m), FRAME_CAP - |frames|);
    Scaled(Dist(m, pc), Dist(m, pc'), Pow(Base(m), FRAME_CAP - |frames|));
  }

  lemma CallsDown(m: Module, frames: seq<Frame>, pc: nat, fr: Frame, off: nat)
    requires |frames| < FRAME_CAP && pc < |m.code| && fr.retPc == pc + 1
    ensures Rank(m, frames + [fr], off) < Rank(m, frames, pc)
  {
    var n := |frames|;
    var w, p := Base(m), Pow(Base(m), FRAME_CAP - n - 1);
    var fs := frames + [fr];
    assert fs[..n] == frames && fs[n] == fr;
    assert Pow(w, FRAME_CAP - n) == w * p;
    PowPositive(w, FRAME_CAP - n - 1);
    Carry(Dist(m, pc), Dist(m, pc + 1), Dist(m, off), w, p);
    var rest := if n == 0 then 0 else Rank(m, frames[..n - 1], frames[n - 1].retPc);
    assert Rank(m, frames, pc + 1) == Dist(m, pc + 1) * (w * p) + rest;
  }

  lemma ReturnsUp(m: Module, frames: seq<Frame>, pc: nat)
    requires 0 < |frames| <= FRAME_CAP
    ensures Rank(m, frames[..|frames| - 1], frames[|frames| - 1].retPc) < Rank(m, frames, pc)
  {
    PowPositive(Base(m), FRAME_CAP - |frames|);
    Product(Dist(m, pc), Pow(Base(m), FRAME_CAP - |frames|));
  }

  /** What is left of the fuel for backward branches. */
  function FuelLeft(vm: Vm): nat { if vm.fuel > 0 then vm.fuel else 0 }

  predicate Lighter(m: Module, a: Vm, b: Vm) {
    FuelLeft(a) < FuelLeft(b) || (FuelLeft(a) == FuelLeft(b) && Rank(m, a.frames, a.pc) < Rank(m, b.frames, b.pc))
  }

  /** Straight-line instructions leave pc, frames and fuel alone; `vm.pc` is already past the instruction. */
  lemma StaysPut(m: Module, op: CuOp, vm: Vm)
    requires vm.status == Running
    requires op.Const? || op.LocalGet? || op.LocalSet? || op.Simple? || op.Unwind? || op.CallHost? ||
             op.Unreachable? || op.Unknown?
    ensures var v := Exec(m, op, vm); v.pc == vm.pc && v.frames == vm.frames && v.fuel == vm.fuel
  {
    hide Eval;
  }

  lemma EnterShape(vm: Vm, f: FuncMeta)
    requires vm.status == Running
    ensures var v := Enter(vm, f);
      v.fuel == vm.fuel && (v.status == Running ==>
        |vm.frames| < FRAME_CAP && v.pc == f.codeOff && |v.frames| == |vm.frames| + 1 &&
        v.frames == vm.frames + [v.frames[|vm.frames|]] && v.frames[|vm.frames|].retPc == vm.pc)
  {
  }

  /** One step uses up fuel or brings the machine closer to the end of its code. */
  lemma StepDescends(m: Module, ok: set<nat>, vm: Vm)
    requires Guarded(m, ok) && Inside(m, ok, vm) && vm.status == Running
    ensures var v := Step(m, vm); Final(v.status) || Lighter(m, v, vm)
  {
    hide Eval, Rank, Enter, StepConst, StepLocalGet, StepLocalSet, StepSimple, StepUnwind;
    if vm.pc < |m.code| {
      var op, v := m.code[vm.pc], vm.(pc := vm.pc + 1);
      assert Onward(m, ok, vm.pc);
      MovesForward(m, vm.frames, vm.pc, vm.pc + 1);
      match op
      case Br(t) => if t > v.pc { MovesForward(m, vm.frames, vm.pc, t); }
      case BrIfNot(t) => MovesForward(m, vm.frames, vm.pc, t);
      case Call(g) => if g < |m.funcs| { CallDescends(m, v, m.funcs[g]); }
      case CallIndirect(t) =>
        if v.sp > 0 { IndirectDescends(m, v, t); }
      case ReturnCall(_) =>
      case Return | EndFunc => if |v.frames| > 0 { ReturnsUp(m, vm.frames, vm.pc); }
      case _ => StaysPut(m, op, v);
    }
  }

  /** And keeps the machine in safe places. */
  lemma StepInside(m: Module, ok: set<nat>, vm: Vm)
    requires Guarded(m, ok) && Inside(m, ok, vm) && vm.status == Running
    ensures Inside(m, ok, Step(m, vm))
  {
    hide Eval, Enter, StepConst, StepLocalGet, StepLocalSet, StepSimple, StepUnwind, Memory.Moved;
    if vm.pc < |m.code| {
      var op, v := m.code[vm.pc], vm.(pc := vm.pc + 1);
      assert Onward(m, ok, vm.pc);
      match op
      case Call(g) => if g < |m.funcs| { EnterInside(m, ok, v, m.funcs[g]); }
      case CallIndirect(ty) =>
        if v.sp > 0 {
          var found := Lookup(m, ty, Low(W32, v.stack[v.sp - 1]));
          if found.Some? { EnterInside(m, ok, v.(sp := v.sp - 1), m.funcs[found.value]); }
        }
      case Br(_) | BrIfNot(_) | ReturnCall(_) | Return | EndFunc =>
      case _ => StaysPut(m, op, v);
    }
  }

  lemma EnterInside(m: Module, ok: set<nat>, vm: Vm, f: FuncMeta)
    requires vm.status == Running && Inside(m, ok, vm) && Safe(m, ok, f.codeOff)
    ensures Inside(m, ok, Enter(vm, f))
  {
    EnterShape(vm, f);
    EnterStops(vm, f);
    hide Enter;
    var v := Enter(vm, f);
    if v.status == Running {
      forall i | 0 < i < |v.frames|
        ensures Safe(m, ok, v.frames[i].retPc)
      {
        if i < |vm.frames| { assert v.frames[i] == vm.frames[i]; }
      }
    }
  }

  lemma CallDescends(m: Module, vm: Vm, f: FuncMeta)
    requires vm.status == Running && 0 < vm.pc <= |m.code|
    ensures var v := Enter(vm, f); Final(v.status) || Lighter(m, v, vm.(pc := vm.pc - 1))
  {
    hide Rank, Enter;
    EnterShape(vm, f);
    EnterStops(vm, f);
    var v := Enter(vm, f);
    if v.status == Running {
      CallsDown(m, vm.frames, vm.pc - 1, v.frames[|vm.frames|], f.codeOff);
    }
  }

  lemma IndirectDescends(m: Module, vm: Vm, ty: nat)
    requires vm.status == Running && 0 < vm.pc <= |m.code| && vm.sp > 0
    ensures var v := StepCallIndirect(m, vm, ty); Final(v.status) || Lighter(m, v, vm.(pc := vm.pc - 1))
  {
    hide Rank, Enter;
    var found := Lookup(m, ty, Low(W32, vm.stack[vm.sp - 1]));
    if found.Some? { CallDescends(m, vm.(sp := vm.sp - 1), m.funcs[found.value]); }
  }

  lemma EnterStops(vm: Vm, f: FuncMeta)
    requires vm.status == Running
    ensures Enter(vm, f).status == Running || Final(Enter(vm, f).status)
  {
  }

  lemma ResumeShape(host: Host, vm: Vm)
    ensures var v := Resume(host, vm);
      v.fuel == vm.fuel && v.pc == vm.pc && v.frames == vm.frames && v.status != HostcallPending
  {
  }

  /** Termination: machine and driver together reach a final status from any state in guarded code, whatever the host
      answers. */
  lemma {:induction false} Halts(m: Module, host: Host, ok: set<nat>, vm: Vm) returns (k: nat)
    requires Guarded(m, ok) && Inside(m, ok, vm)
    ensures Final(Ticks(m, host, vm, k).status)
    decreases FuelLeft(vm), Rank(m, vm.frames, vm.pc), vm.status == HostcallPending
  {
    hide Step, Resume, Rank, Guarded;
    k := 0;
    if !Final(vm.status) {
      var v := Tick(m, host, vm);
      if vm.status == Running {
        StepDescends(m, ok, vm);
        StepInside(m, ok, vm);
      } else {
        ResumeShape(host, vm);
      }
      if Final(v.status) {
        k := 1;
        assert Ticks(m, host, vm, 1) == Ticks(m, host, v, 0) == v;
      } else {
        k := Halts(m, host, ok, v);
        k := k + 1;
      }
    }
  }

  /** Tail calls are not charged: a function that only tail-calls itself runs forever on any amount of fuel. */
  function TailLoop(): Module {
    Module([ReturnCall(0), EndFunc], [], [FuncMeta(0, 2, 0, 0, 0)], 0, [], [], [], [])
  }

  lemma {:induction false} TailLoopRunsForever(host: Host, vm: Vm, k: nat)
    requires vm.status == Running && vm.pc == 0 && vm.sp == vm.fp
    ensures Ticks(TailLoop(), host, vm, k).status == Running && Ticks(TailLoop(), host, vm, k).fuel == vm.fuel
    decreases k
  {
    if k > 0 {
      var v := Tick(TailLoop(), host, vm);
      assert v.status == Running && v.pc == 0 && v.sp == v.fp && v.fuel == vm.fuel;
      TailLoopRunsForever(host, v, k - 1);
    }
  }
}
