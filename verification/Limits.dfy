/** The machine's own limits: stack slots, frames and fuel. The interpreter reuses their statuses for operand
    underflow, so a status alone proves nothing; here it is said when a limit is reached, and that inside activations
    nothing else gives these statuses. */
module Limits {
  import opened Words
  import opened Bytecode
  import opened Machine
  import opened Frames
  import opened Fuel
  import Memory

  function Overfull(slots: int): Option<Status> { if slots > STACK_CAP then Some(TrapStackOverflow) else None }

  /** A call made with `sp` live slots. */
  function CallLimit(v: Vm, sp: int, f: FuncMeta): Option<Status> {
    if |v.frames| >= FRAME_CAP then Some(TrapCallDepth) else Overfull(sp + f.nLocals)
  }

  /** The limit that stops the next tick, if one does: the stack slots it needs, the frame it needs, or the fuel. */
  function Limit(m: Module, host: Host, v: Vm): Option<Status> {
    if v.status == HostcallPending then
      match host(v.store.log + [EventOf(v.mail, v.store)])
      case None => None
      case Some(rs) => if |rs| <= 1 then Overfull(v.sp + |rs|) else None
    else if v.status != Running || v.pc >= |m.code| then None
    else
      match m.code[v.pc]
      case Const(_) => Overfull(v.sp + 1)
      case LocalGet(_) => Overfull(v.sp + 1)
      case Simple(p) =>
        if v.sp >= Pops(p) && Eval(m.segments, p, v.store, v.stack[v.sp - Pops(p)..v.sp]).Done?
        then Overfull(v.sp - Pops(p) + Pushes(p)) else None
      case Br(t) => if t <= v.pc + 1 && v.fuel <= FUEL_BACKEDGE then Some(OutOfFuel) else None
      case Call(f) => if f < |m.funcs| then CallLimit(v, v.sp, m.funcs[f]) else None
      case ReturnCall(f) =>
        if f < |m.funcs| then Overfull(v.fp + m.funcs[f].nParams + m.funcs[f].nLocals) else None
      case CallIndirect(ty) =>
        if v.sp == 0 then None
        else
          var found := Lookup(m, ty, Low(W32, v.stack[v.sp - 1]));
          if found.Some? && found.value < |m.funcs| then CallLimit(v, v.sp - 1, m.funcs[found.value]) else None
      case _ => None
  }

  /** Some tick of the first `k` was stopped by a limit. */
  ghost predicate LimitHit(m: Module, host: Host, v: Vm, k: nat) {
    exists j: nat :: j < k && Limit(m, host, Ticks(m, host, v, j)).Some?
  }

  /** The function that the next tick calls, by name or through the table. */
  function Callee(m: Module, v: Vm): Option<FuncMeta> {
    if v.status != Running || v.pc >= |m.code| then None
    else
      match m.code[v.pc]
      case Call(f) => if f < |m.funcs| then Some(m.funcs[f]) else None
      case CallIndirect(ty) =>
        if v.sp == 0 then None
        else
          (match Lookup(m, ty, Low(W32, v.stack[v.sp - 1]))
           case None => None
           case Some(f) => if f < |m.funcs| then Some(m.funcs[f]) else None)
      case _ => None
  }

  /** How many slots are in use after the next tick, if there is room for them. */
  function SlotsAfter(m: Module, host: Host, v: Vm): int {
    if v.status == HostcallPending then
      match host(v.store.log + [EventOf(v.mail, v.store)])
      case None => v.sp
      case Some(rs) => if |rs| == 1 then v.sp + 1 else v.sp
    else if v.status != Running || v.pc >= |m.code| then v.sp
    else
      match m.code[v.pc]
      case Const(_) => v.sp + 1
      case LocalGet(_) => v.sp + 1
      case Simple(p) =>
        if v.sp >= Pops(p) && Eval(m.segments, p, v.store, v.stack[v.sp - Pops(p)..v.sp]).Done?
        then v.sp - Pops(p) + Pushes(p) else v.sp
      case Call(_) => if Callee(m, v).Some? then v.sp + Callee(m, v).value.nLocals else v.sp
      case CallIndirect(_) => if Callee(m, v).Some? then v.sp - 1 + Callee(m, v).value.nLocals else v.sp
      case ReturnCall(f) => if f < |m.funcs| then v.fp + m.funcs[f].nParams + m.funcs[f].nLocals else v.sp
      case _ => v.sp
  }

  /** The limits in numbers: a call with 256 frames in use, a backward jump on the last unit of fuel, more than 4096
      slots. */
  lemma LimitNumbers(m: Module, host: Host, v: Vm)
    ensures var deep := Callee(m, v).Some? && |v.frames| == 256;
      Limit(m, host, v) == if deep then Some(TrapCallDepth)
        else if JumpsBack(m, v) && v.fuel <= 1 then Some(OutOfFuel)
        else if SlotsAfter(m, host, v) > 4096 then Some(TrapStackOverflow)
        else None
  {
    hide Eval, Lookup;
  }

  /** The next tick ends in a limit status exactly when it reaches that limit. */
  ghost predicate LimitTells(m: Module, host: Host, v: Vm) {
    var st := Tick(m, host, v).status;
    match Limit(m, host, v)
    case Some(l) => st == l && ResourceTrap(st)
    case None => !ResourceTrap(st)
  }

  lemma PushLimit(v: Vm, ws: seq<Word>)
    requires v.status == Running
    ensures Push(v, ws).status == if v.sp + |ws| > STACK_CAP then TrapStackOverflow else Running
  {
  }

  /** Of the frame machine's states only those matter that the flat machine follows. */
  lemma DataTells(m: Module, host: Host, vm: Vm, am: Am)
    requires Rel(vm, am) && vm.status == Running && am.pc < |m.code| && AStep(m, am).status != Undefined
    requires var op := m.code[am.pc]; op.Const? || op.LocalGet? || op.LocalSet? || op.Unreachable? || op.Unknown?
    ensures LimitTells(m, host, vm)
  {
    var op := m.code[am.pc];
    if op.LocalGet? || op.LocalSet? {
      LocalSlot(vm.(pc := vm.pc + 1), am.(pc := am.pc + 1), op.x);
      if op.LocalSet? { PopRefines(vm.(pc := vm.pc + 1), am.(pc := am.pc + 1), 1); }
    }
    hide Memory.Written, Flat, FramesOf;
  }

  lemma SimpleTells(m: Module, host: Host, vm: Vm, am: Am)
    requires Rel(vm, am) && vm.status == Running && am.pc < |m.code| && AStep(m, am).status != Undefined
    requires m.code[am.pc].Simple?
    ensures LimitTells(m, host, vm)
  {
    hide StepSimple, ASimple, Eval, Flat, FramesOf;
    SimpleStatus(m, vm.(pc := vm.pc + 1), am.(pc := am.pc + 1), m.code[am.pc].p);
  }

  lemma SimpleStatus(m: Module, vm: Vm, am: Am, p: Plain)
    requires Rel(vm, am) && vm.status == Running && am.acts.Act? && ASimple(m, am, p).status != Undefined
    ensures vm.sp >= Pops(p)
    ensures StepSimple(m, vm, p).status ==
      match Eval(m.segments, p, vm.store, vm.stack[vm.sp - Pops(p)..vm.sp])
      case Fault(st) => st
      case Done(_, _) => if vm.sp - Pops(p) + Pushes(p) > STACK_CAP then TrapStackOverflow else Running
  {
    hide Eval, Flat, FramesOf, Push;
    PopRefines(vm, am, Pops(p));
    match Eval(m.segments, p, vm.store, vm.stack[vm.sp - Pops(p)..vm.sp])
    case Fault(_) =>
    case Done(s, ws) => PushLimit(vm.(sp := vm.sp - Pops(p), store := s), ws);
  }

  lemma JumpTells(m: Module, host: Host, vm: Vm, am: Am)
    requires Rel(vm, am) && vm.status == Running && am.pc < |m.code| && AStep(m, am).status != Undefined
    requires m.code[am.pc].Br? || m.code[am.pc].BrIfNot?
    ensures LimitTells(m, host, vm)
  {
    hide Flat, FramesOf;
    if m.code[am.pc].BrIfNot? { PopRefines(vm.(pc := vm.pc + 1), am.(pc := am.pc + 1), 1); }
  }

  lemma MoveQuiet(m: Module, am: Am)
    requires am.acts.Act? && am.status == Running && am.pc < |m.code| && AStep(m, am).status != Undefined
    requires var op := m.code[am.pc]; op.Unwind? || op.Return? || op.EndFunc? || op.CallHost?
    ensures !ResourceTrap(AStep(m, am).status)
  {
  }

  lemma MoveTells(m: Module, host: Host, vm: Vm, am: Am)
    requires Rel(vm, am) && vm.status == Running && am.pc < |m.code| && AStep(m, am).status != Undefined
    requires var op := m.code[am.pc]; op.Unwind? || op.Return? || op.EndFunc? || op.CallHost?
    ensures LimitTells(m, host, vm)
  {
    hide Flat, FramesOf, Step, AExec;
    StepRefines(m, vm, am);
    MoveQuiet(m, am);
  }

  lemma EnterTells(vm: Vm, am: Am, f: FuncMeta)
    requires Rel(vm, am) && vm.status == Running && am.acts.Act? && AEnter(am, f).status != Undefined
    ensures Enter(vm, f).status == (match CallLimit(vm, vm.sp, f) case Some(l) => l case None => Running)
  {
    if Depth(am.acts) < FRAME_CAP { PopRefines(vm, am, f.nParams); }
    hide Flat, Memory.Written;
  }

  lemma CallTells(m: Module, host: Host, vm: Vm, am: Am)
    requires Rel(vm, am) && vm.status == Running && am.pc < |m.code| && AStep(m, am).status != Undefined
    requires m.code[am.pc].Call?
    ensures LimitTells(m, host, vm)
  {
    hide Flat, Enter, AEnter, FramesOf;
    var f := m.code[am.pc].f;
    if f < |m.funcs| { EnterTells(vm.(pc := vm.pc + 1), am.(pc := am.pc + 1), m.funcs[f]); }
  }

  lemma IndirectTells(m: Module, host: Host, vm: Vm, am: Am)
    requires Rel(vm, am) && vm.status == Running && am.pc < |m.code| && AStep(m, am).status != Undefined
    requires m.code[am.pc].CallIndirect?
    ensures LimitTells(m, host, vm)
  {
    hide StepCallIndirect, ACallIndirect, Flat, FramesOf;
    IndirectStatus(m, vm.(pc := vm.pc + 1), am.(pc := am.pc + 1), m.code[am.pc].ty);
  }

  lemma IndirectStatus(m: Module, vm: Vm, am: Am, ty: nat)
    requires Rel(vm, am) && vm.status == Running && am.acts.Act? && ACallIndirect(m, am, ty).status != Undefined
    ensures vm.sp > 0
    ensures var found := Lookup(m, ty, Low(W32, vm.stack[vm.sp - 1]));
      StepCallIndirect(m, vm, ty).status ==
        if found.None? || found.value >= |m.funcs| then TrapIndirectCall
        else match CallLimit(vm, vm.sp - 1, m.funcs[found.value]) case Some(l) => l case None => Running
  {
    hide Flat, FramesOf, Enter, AEnter, Lookup;
    PopRefines(vm, am, 1);
    assert vm.stack[vm.sp - 1..vm.sp][0] == vm.stack[vm.sp - 1];
    var found := Lookup(m, ty, Low(W32, vm.stack[vm.sp - 1]));
    var v := vm.(sp := vm.sp - 1);
    if found.Some? && found.value < |m.funcs| {
      EnterTells(v, APop(am, 1), m.funcs[found.value]);
      assert StepCallIndirect(m, vm, ty) == Enter(v, m.funcs[found.value]);
      assert CallLimit(v, v.sp, m.funcs[found.value]) == CallLimit(vm, vm.sp - 1, m.funcs[found.value]);
    } else {
      assert StepCallIndirect(m, vm, ty).status == TrapIndirectCall;
    }
  }

  lemma TailTells(m: Module, host: Host, vm: Vm, am: Am)
    requires Rel(vm, am) && vm.status == Running && am.pc < |m.code| && AStep(m, am).status != Undefined
    requires m.code[am.pc].ReturnCall?
    ensures LimitTells(m, host, vm)
  {
    var f := m.code[am.pc].f;
    if f < |m.funcs| { PopRefines(vm.(pc := vm.pc + 1), am.(pc := am.pc + 1), m.funcs[f].nParams); }
    FlatSize(am.acts);
    assert BaseOf(am.acts) == |Flat(am.acts.below)|;
    hide Flat, Memory.Written, Memory.Moved, FramesOf, BaseOf;
  }

  lemma TickTells(m: Module, host: Host, vm: Vm, am: Am)
    requires Rel(vm, am) && ATick(m, host, am).status != Undefined && !Final(vm.status)
    ensures LimitTells(m, host, vm)
  {
    if vm.status == HostcallPending {
      hide Flat, Memory.Written;
    } else if vm.pc < |m.code| {
      hide LimitTells, Rel, AStep;
      assert vm.pc == am.pc by { SamePc(vm, am); }
      var op := m.code[vm.pc];
      if op.Call? {
        CallTells(m, host, vm, am);
      } else if op.CallIndirect? {
        IndirectTells(m, host, vm, am);
      } else if op.ReturnCall? {
        TailTells(m, host, vm, am);
      } else if op.Simple? {
        SimpleTells(m, host, vm, am);
      } else if op.Br? || op.BrIfNot? {
        JumpTells(m, host, vm, am);
      } else if op.Unwind? || op.Return? || op.EndFunc? || op.CallHost? {
        MoveTells(m, host, vm, am);
      } else {
        DataTells(m, host, vm, am);
      }
    }
  }

  lemma SamePc(vm: Vm, am: Am)
    requires Rel(vm, am) && !Final(vm.status)
    ensures vm.pc == am.pc && vm.status == am.status
  {
  }

  /** Along every run that stays inside its activations, a limit status appears exactly when a limit was reached. */
  lemma {:induction false} LimitsTold(m: Module, host: Host, vm: Vm, am: Am, k: nat)
    requires Rel(vm, am) && !Final(vm.status)
    requires forall j :: 0 <= j <= k ==> ATicks(m, host, am, j).status != Undefined
    ensures ResourceTrap(Ticks(m, host, vm, k).status) <==> LimitHit(m, host, vm, k)
    decreases k
  {
    hide Tick, ATick, Limit, Rel;
    if k > 0 {
      var v, a := Tick(m, host, vm), ATick(m, host, am);
      assert ATicks(m, host, am, 1) == ATicks(m, host, a, 0) == a;
      TickTells(m, host, vm, am);
      TickRefines(m, host, vm, am);
      forall j | 0 <= j <= k - 1
        ensures ATicks(m, host, a, j).status != Undefined
      {
        assert ATicks(m, host, am, j + 1) == ATicks(m, host, a, j);
      }
      HitLater(m, host, vm, k);
      if Final(v.status) {
        StayFinal(m, host, v, k - 1);
      } else {
        LimitsTold(m, host, v, a, k - 1);
      }
    }
  }

  /** The first tick, or one of those after it. */
  lemma HitLater(m: Module, host: Host, vm: Vm, k: nat)
    requires k > 0
    ensures LimitHit(m, host, vm, k) <==> Limit(m, host, vm).Some? || LimitHit(m, host, Tick(m, host, vm), k - 1)
  {
    hide Tick, Limit;
    var v := Tick(m, host, vm);
    assert Ticks(m, host, vm, 0) == vm;
    if LimitHit(m, host, vm, k) && Limit(m, host, vm).None? {
      var j: nat :| j < k && Limit(m, host, Ticks(m, host, vm, j)).Some?;
      assert Ticks(m, host, vm, j) == Ticks(m, host, v, j - 1);
    }
    if LimitHit(m, host, v, k - 1) {
      var j: nat :| j < k - 1 && Limit(m, host, Ticks(m, host, v, j)).Some?;
      assert Ticks(m, host, vm, j + 1) == Ticks(m, host, v, j);
    }
  }

  lemma {:induction false} StayFinal(m: Module, host: Host, v: Vm, k: nat)
    requires Final(v.status)
    ensures Ticks(m, host, v, k) == v && !LimitHit(m, host, v, k)
    decreases k
  {
    hide Step, Resume;
    if k > 0 {
      StayFinal(m, host, v, k - 1);
      HitLater(m, host, v, k);
    }
  }
}
