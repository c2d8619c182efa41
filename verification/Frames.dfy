/** The frame machine: the interpreter with its stack cut into activations, each owning its locals and operands.
    An instruction that would reach outside its own activation is Undefined here. Where it is not, the flat machine
    of module Machine does exactly the same (StepRefines, TickRefines, TicksRefine). */
module Frames {
  import opened Words
  import opened Bytecode
  import opened Machine
  import Memory

  datatype Acts =
    | Bottom
    | Act(below: Acts, retPc: nat, nResults: nat, locals: seq<Word>, ops: seq<Word>)

  datatype Am = Am(
    pc: nat, acts: Acts, fuel: int, status: Status, store: Store, mail: Mail,
    results: seq<Word>)  // what the entry function returned, once status is Ok

  function Depth(a: Acts): nat {
    if a.Bottom? then 0 else Depth(a.below) + 1
  }

  /** The stack slots of all activations, bottom first. */
  function Flat(a: Acts): seq<Word> {
    if a.Bottom? then [] else Flat(a.below) + a.locals + a.ops
  }

  function BaseOf(a: Acts): nat {
    if a.Bottom? then 0 else |Flat(a.below)|
  }

  function Stop(am: Am, st: Status): Am { am.(status := st) }

  function APush(am: Am, ws: seq<Word>): Am
    requires am.acts.Act?
  {
    if |Flat(am.acts)| + |ws| > STACK_CAP then Stop(am, TrapStackOverflow)
    else am.(acts := am.acts.(ops := am.acts.ops + ws))
  }

  /** Drop the top `n` operands. */
  function APop(am: Am, n: nat): Am
    requires am.acts.Act? && n <= |am.acts.ops|
  {
    am.(acts := am.acts.(ops := am.acts.ops[..|am.acts.ops| - n]))
  }

  function Top(am: Am, n: nat): (ws: seq<Word>)
    requires am.acts.Act? && n <= |am.acts.ops|
    ensures |ws| == n
  {
    am.acts.ops[|am.acts.ops| - n..]
  }

  function AConst(m: Module, am: Am, k: nat): Am
    requires am.acts.Act?
  {
    if k >= |m.consts| then Stop(am, Undefined) else APush(am, [m.consts[k]])
  }

  function ALocalGet(am: Am, x: nat): Am
    requires am.acts.Act?
  {
    if x >= |am.acts.locals| then Stop(am, Undefined) else APush(am, [am.acts.locals[x]])
  }

  function ALocalSet(am: Am, x: nat): Am
    requires am.acts.Act?
  {
    if x >= |am.acts.locals| || |am.acts.ops| < 1 then Stop(am, Undefined)
    else
      var v := Top(am, 1)[0];
      var p := APop(am, 1);
      p.(acts := p.acts.(locals := p.acts.locals[x := v]))
  }

  function ASimple(m: Module, am: Am, p: Plain): Am
    requires am.acts.Act?
  {
    if |am.acts.ops| < Pops(p) then Stop(am, Undefined)
    else
      match Eval(m.segments, p, am.store, Top(am, Pops(p)))
      case Fault(st) => Stop(am, st)
      case Done(s, ws) => APush(APop(am, Pops(p)).(store := s), ws)
  }

  /** Keep the top `keep` operands and cut the rest down to height `b - |locals| - keep`. */
  function AUnwind(am: Am, keep: nat, b: nat): Am
    requires am.acts.Act?
  {
    var h := b - |am.acts.locals|;
    if h < keep || |am.acts.ops| < h then Stop(am, Undefined)
    else am.(acts := am.acts.(ops := am.acts.ops[..h - keep] + Top(am, keep)))
  }

  function ABr(am: Am, target: nat): Am {
    if target <= am.pc then
      var v := am.(fuel := am.fuel - FUEL_BACKEDGE);
      if v.fuel <= 0 then Stop(v, OutOfFuel) else v.(pc := target)
    else am.(pc := target)
  }

  function ABrIfNot(am: Am, target: nat): Am
    requires am.acts.Act?
  {
    if |am.acts.ops| < 1 then Stop(am, Undefined)
    else
      var p := APop(am, 1);
      if Low(W32, Top(am, 1)[0]) == 0 then p.(pc := target) else p
  }

  function AEnter(am: Am, f: FuncMeta): Am
    requires am.acts.Act?
  {
    if Depth(am.acts) >= FRAME_CAP then Stop(am, TrapCallDepth)
    else if |am.acts.ops| < f.nParams then Stop(am, Undefined)
    else if |Flat(am.acts)| + f.nLocals > STACK_CAP then Stop(am, TrapStackOverflow)
    else
      var args := Top(am, f.nParams);
      am.(acts := Act(APop(am, f.nParams).acts, am.pc, f.nResults, args + Zeros(f.nLocals), []), pc := f.codeOff)
  }

  function ACall(m: Module, am: Am, f: nat): Am
    requires am.acts.Act?
  {
    if f >= |m.funcs| then Stop(am, UnsupportedOp) else AEnter(am, m.funcs[f])
  }

  function AReturnCall(m: Module, am: Am, fi: nat): Am
    requires am.acts.Act?
  {
    if fi >= |m.funcs| then Stop(am, UnsupportedOp)
    else
      var f := m.funcs[fi];
      if |am.acts.ops| < f.nParams then Stop(am, Undefined)
      else if BaseOf(am.acts) + f.nParams + f.nLocals > STACK_CAP then Stop(am, TrapStackOverflow)
      else
        var args := Top(am, f.nParams);
        am.(acts := Act(am.acts.below, am.acts.retPc, f.nResults, args + Zeros(f.nLocals), []), pc := f.codeOff)
  }

  function AReturn(am: Am): Am
    requires am.acts.Act?
  {
    var n := am.acts.nResults;
    if |am.acts.ops| < n then Stop(am, Undefined)
    else Deliver(am, am.acts.below, am.acts.retPc, Top(am, n))
  }

  /** Hand the results `vs` to the activations `below`, at `retPc`; with none left the run is over. */
  function Deliver(am: Am, below: Acts, retPc: nat, vs: seq<Word>): Am {
    if below.Bottom? then am.(acts := Bottom, results := vs, status := Ok)
    else am.(acts := below.(ops := below.ops + vs), pc := retPc)
  }

  function ACallHost(am: Am, np: nat, nr: nat, fn: nat): Am
    requires am.acts.Act?
  {
    if np > MAIL_CAP then Stop(am, UnsupportedOp)
    else if |am.acts.ops| < np then Stop(am, Undefined)
    else APop(am, np).(mail := Mail(fn, Top(am, np), nr), status := HostcallPending)
  }

  function ACallIndirect(m: Module, am: Am, ty: nat): Am
    requires am.acts.Act?
  {
    if |am.acts.ops| < 1 then Stop(am, Undefined)
    else
      var p := APop(am, 1);
      match Lookup(m, ty, Low(W32, Top(am, 1)[0]))
      case None => Stop(p, TrapIndirectCall)
      case Some(fi) => if fi < |m.funcs| then AEnter(p, m.funcs[fi]) else Stop(p, TrapIndirectCall)
  }

  function AExec(m: Module, op: CuOp, am: Am): Am
    requires am.acts.Act?
  {
    match op
    case Const(k) => AConst(m, am, k)
    case LocalGet(x) => ALocalGet(am, x)
    case LocalSet(x) => ALocalSet(am, x)
    case Simple(p) => ASimple(m, am, p)
    case Unwind(keep, b) => AUnwind(am, keep, b)
    case Br(t) => ABr(am, t)
    case BrIfNot(t) => ABrIfNot(am, t)
    case Call(f) => ACall(m, am, f)
    case ReturnCall(f) => AReturnCall(m, am, f)
    case CallIndirect(t) => ACallIndirect(m, am, t)
    case CallHost(np, nr, fn) => ACallHost(am, np, nr, fn)
    case Return => AReturn(am)
    case EndFunc => AReturn(am)
    case Unreachable => Stop(am, TrapUnreachable)
    case Unknown => Stop(am, UnsupportedOp)
  }

  function AStep(m: Module, am: Am): Am {
    if am.pc >= |m.code| then Stop(am, TrapUnreachable)
    else if am.acts.Bottom? then Stop(am, Undefined)
    else AExec(m, m.code[am.pc], am.(pc := am.pc + 1))
  }

  function AResume(host: Host, am: Am): Am {
    var log := am.store.log + [EventOf(am.mail, am.store)];
    var v := am.(store := am.store.(log := log), status := Running);
    match host(log)
    case None => Stop(v, UnsupportedOp)
    case Some(rs) => if |rs| > 1 || am.acts.Bottom? then Stop(v, Undefined) else APush(v, rs)
  }

  function ATick(m: Module, host: Host, am: Am): Am {
    if am.status == Running then AStep(m, am)
    else if am.status == HostcallPending then AResume(host, am)
    else am
  }

  function ATicks(m: Module, host: Host, am: Am, k: nat): Am
    decreases k
  {
    if k == 0 then am else ATicks(m, host, ATick(m, host, am), k - 1)
  }

  // ----- the flat machine refines the frame machine -----

  function FramesOf(a: Acts): (fs: seq<Frame>)
    requires |Flat(a)| <= STACK_CAP
    ensures |fs| == Depth(a)
  {
    if a.Bottom? then []
    else FramesOf(a.below) + [Frame(a.retPc, BaseOf(a.below), BaseOf(a), a.nResults)]
  }

  ghost predicate Laid(vm: Vm, a: Acts) {
    && vm.sp == |Flat(a)|
    && vm.stack[..vm.sp] == Flat(a)
    && vm.frames == FramesOf(a)
    && vm.fp == BaseOf(a)
  }

  ghost predicate Rel(vm: Vm, am: Am) {
    && vm.status == am.status
    && vm.store == am.store
    && vm.fuel == am.fuel
    && (!Final(vm.status) ==> vm.pc == am.pc && vm.mail == am.mail && Laid(vm, am.acts))
    && (vm.status == Ok ==> |am.results| <= STACK_CAP && vm.stack[..|am.results|] == am.results)
  }

  lemma PushRefines(vm: Vm, am: Am, ws: seq<Word>)
    requires am.acts.Act? && Rel(vm, am) && vm.status == Running
    ensures Rel(Push(vm, ws), APush(am, ws))
  {
    if |Flat(am.acts)| + |ws| <= STACK_CAP {
      assert ws[..|ws|] == ws;
      var v := Push(vm, ws);
      assert v.stack[..v.sp] == vm.stack[..vm.sp] + ws;
      assert Flat(APush(am, ws).acts) == Flat(am.acts) + ws;
    }
  }

  /** Popping moves the stack pointer down and leaves the activation with fewer operands. */
  lemma PopRefines(vm: Vm, am: Am, n: nat)
    requires am.acts.Act? && Laid(vm, am.acts) && n <= |am.acts.ops|
    ensures vm.sp >= n
    ensures vm.stack[vm.sp - n..vm.sp] == Top(am, n)
    ensures Laid(vm.(sp := vm.sp - n), APop(am, n).acts)
  {
    var a := am.acts;
    var f := Flat(a);
    assert f[|f| - n..] == Top(am, n);
    assert vm.stack[vm.sp - n..vm.sp] == vm.stack[..vm.sp][vm.sp - n..];
    assert f[..|f| - n] == Flat(APop(am, n).acts);
    assert vm.stack[..vm.sp - n] == vm.stack[..vm.sp][..vm.sp - n];
  }

  lemma LocalSlot(vm: Vm, am: Am, x: nat)
    requires am.acts.Act? && Laid(vm, am.acts) && x < |am.acts.locals|
    ensures vm.fp + x < vm.sp && vm.stack[vm.fp + x] == am.acts.locals[x]
  {
    var a := am.acts;
    assert Flat(a)[|Flat(a.below)| + x] == a.locals[x];
    assert vm.stack[..vm.sp][vm.fp + x] == a.locals[x];
  }

  lemma LocalGetRefines(vm: Vm, am: Am, x: nat)
    requires am.acts.Act? && Rel(vm, am) && vm.status == Running
    requires ALocalGet(am, x).status != Undefined
    ensures Rel(StepLocalGet(vm, x), ALocalGet(am, x))
  {
    LocalSlot(vm, am, x);
    PushRefines(vm, am, [am.acts.locals[x]]);
  }

  lemma ConstRefines(m: Module, vm: Vm, am: Am, k: nat)
    requires am.acts.Act? && Rel(vm, am) && vm.status == Running
    requires AConst(m, am, k).status != Undefined
    ensures Rel(StepConst(m, vm, k), AConst(m, am, k))
  {
    PushRefines(vm, am, [m.consts[k]]);
  }

  lemma LocalSetRefines(vm: Vm, am: Am, x: nat)
    requires am.acts.Act? && Rel(vm, am) && vm.status == Running
    requires ALocalSet(am, x).status != Undefined
    ensures Rel(StepLocalSet(vm, x), ALocalSet(am, x))
  {
    var a := am.acts;
    var v := Top(am, 1)[0];
    PopRefines(vm, am, 1);
    assert vm.stack[vm.sp - 1] == v by { assert vm.stack[vm.sp - 1..vm.sp][0] == v; }
    LocalSlot(vm, am, x);
    var p := vm.(sp := vm.sp - 1);
    var b := ALocalSet(am, x).acts;
    var q := StepLocalSet(vm, x);
    assert q.stack[..q.sp] == p.stack[..p.sp][vm.fp + x := v];
    assert Flat(b) == Flat(APop(am, 1).acts)[vm.fp + x := v];
  }

  lemma SimpleRefines(m: Module, vm: Vm, am: Am, p: Plain)
    requires am.acts.Act? && Rel(vm, am) && vm.status == Running
    requires ASimple(m, am, p).status != Undefined
    ensures Rel(StepSimple(m, vm, p), ASimple(m, am, p))
  {
    hide Eval, Flat, FramesOf, Depth, BaseOf, Push;
    var n := Pops(p);
    PopRefines(vm, am, n);
    match Eval(m.segments, p, am.store, Top(am, n))
    case Fault(st) =>
    case Done(s, ws) => PushRefines(vm.(sp := vm.sp - n, store := s), APop(am, n).(store := s), ws);
  }

  lemma MovedPrefix(s: seq<Word>, src: nat, dst: nat, n: nat)
    requires src + n <= |s| && dst + n <= |s|
    ensures Memory.Moved(s, src, dst, n)[..dst + n] == s[..dst] + s[src..src + n]
  {
  }

  /** Moving the top `n` of the live slots `f` down to `k`. */
  lemma MovedDown(stack: seq<Word>, f: seq<Word>, k: nat, n: nat)
    requires |f| <= |stack| && stack[..|f|] == f && k + n <= |f|
    ensures Memory.Moved(stack, |f| - n, k, n)[..k + n] == f[..k] + f[|f| - n..]
  {
    hide Memory.Moved;
    MovedPrefix(stack, |f| - n, k, n);
    calc {
      stack[..k] + stack[|f| - n..|f|];
      { assert stack[..k] == stack[..|f|][..k] && stack[|f| - n..|f|] == stack[..|f|][|f| - n..]; }
      f[..k] + f[|f| - n..];
    }
  }

  /** Moving the kept operands down over the dropped ones, seen on the shared stack. */
  lemma UnwindSlots(stack: seq<Word>, a: Acts, keep: nat, h: nat)
    requires a.Act? && |Flat(a)| <= |stack| && stack[..|Flat(a)|] == Flat(a) && keep <= h <= |a.ops|
    ensures var sp, dest := |Flat(a)|, |Flat(a.below)| + |a.locals| + h;
      dest <= sp && sp - keep <= |stack| - keep &&
      Memory.Moved(stack, sp - keep, dest - keep, keep)[..dest] ==
        Flat(a.(ops := a.ops[..h - keep] + a.ops[|a.ops| - keep..]))
  {
    hide Memory.Moved, Flat;
    FlatSize(a);
    FlatCut(Flat(a), a, h - keep);
    FlatTop(a, keep);
    MoreOps(a.(ops := a.ops[..h - keep]), a.ops[|a.ops| - keep..]);
    MovedDown(stack, Flat(a), |Flat(a.below)| + |a.locals| + h - keep, keep);
  }

  lemma FlatTop(a: Acts, n: nat)
    requires a.Act? && n <= |a.ops|
    ensures n <= |Flat(a)| && Flat(a)[|Flat(a)| - n..] == a.ops[|a.ops| - n..]
  {
  }

  lemma UnwindRefines(vm: Vm, am: Am, keep: nat, b: nat)
    requires am.acts.Act? && Rel(vm, am) && vm.status == Running
    requires AUnwind(am, keep, b).status != Undefined
    ensures Rel(StepUnwind(vm, keep, b), AUnwind(am, keep, b))
  {
    hide Memory.Moved, Flat, FramesOf, Depth;
    var a := am.acts;
    UnwindSlots(vm.stack, a, keep, b - |a.locals|);
    assert BaseOf(a) == |Flat(a.below)|;
    FlatSize(a);
    FlatSize(AUnwind(am, keep, b).acts);
    FrameKept(a, AUnwind(am, keep, b).acts);
    var dest := vm.fp + b;
    assert dest <= vm.sp;
    assert dest % TWO32 == dest;
  }

  /** The frame of an activation does not depend on its operands. */
  lemma FrameKept(a: Acts, b: Acts)
    requires a.Act? && b.Act? && b == a.(ops := b.ops) && |Flat(a)| <= STACK_CAP && |Flat(b)| <= STACK_CAP
    ensures FramesOf(b) == FramesOf(a) && BaseOf(b) == BaseOf(a)
  {
  }

  lemma FlatSize(a: Acts)
    requires a.Act?
    ensures |Flat(a)| == |Flat(a.below)| + |a.locals| + |a.ops|
  {
  }

  lemma FlatCut(f: seq<Word>, a: Acts, h: nat)
    requires a.Act? && f == Flat(a) && h <= |a.ops|
    ensures f[..|Flat(a.below)| + |a.locals| + h] == Flat(a.(ops := a.ops[..h]))
  {
  }

  lemma BrRefines(vm: Vm, am: Am, t: nat)
    requires am.acts.Act? && Rel(vm, am) && vm.status == Running
    ensures Rel(StepBr(vm, t), ABr(am, t))
  {
  }

  lemma CallHostRefines(vm: Vm, am: Am, np: nat, nr: nat, fn: nat)
    requires am.acts.Act? && Rel(vm, am) && vm.status == Running
    requires ACallHost(am, np, nr, fn).status != Undefined
    ensures Rel(StepCallHost(vm, np, nr, fn), ACallHost(am, np, nr, fn))
  {
    if np <= MAIL_CAP { PopRefines(vm, am, np); }
  }

  lemma CallRefines(m: Module, vm: Vm, am: Am, f: nat)
    requires am.acts.Act? && Rel(vm, am) && vm.status == Running
    requires ACall(m, am, f).status != Undefined
    ensures Rel(StepCall(m, vm, f), ACall(m, am, f))
  {
    if f < |m.funcs| { EnterRefines(vm, am, m.funcs[f]); }
  }

  lemma BrIfNotRefines(vm: Vm, am: Am, t: nat)
    requires am.acts.Act? && Rel(vm, am) && vm.status == Running
    requires ABrIfNot(am, t).status != Undefined
    ensures Rel(StepBrIfNot(vm, t), ABrIfNot(am, t))
  {
    PopRefines(vm, am, 1);
    assert vm.stack[vm.sp - 1..vm.sp][0] == vm.stack[vm.sp - 1];
  }

  lemma EnterRefines(vm: Vm, am: Am, f: FuncMeta)
    requires am.acts.Act? && Rel(vm, am) && vm.status == Running
    requires AEnter(am, f).status != Undefined
    ensures Rel(Enter(vm, f), AEnter(am, f))
  {
    hide Flat, FramesOf, Push;
    if Depth(am.acts) < FRAME_CAP {
      var n := f.nParams;
      PopRefines(vm, am, n);
      var called := vm.(frames := vm.frames + [Frame(vm.pc, vm.fp, vm.sp - n, f.nResults)], fp := vm.sp - n);
      PushZeros(called, f.nLocals);
      if vm.sp + f.nLocals <= STACK_CAP {
        var b := AEnter(am, f).acts;
        FlatFresh(b, Top(am, n), Zeros(f.nLocals));
        FrameTop(b);
        assert vm.stack[..vm.sp] == vm.stack[..vm.sp - n] + vm.stack[vm.sp - n..vm.sp];
        var c := |FramesOf(b)| - 1;
        assert FramesOf(b) == FramesOf(b)[..c] + [FramesOf(b)[c]];
      }
    }
  }

  lemma ReturnCallRefines(m: Module, vm: Vm, am: Am, fi: nat)
    requires am.acts.Act? && Rel(vm, am) && vm.status == Running
    requires AReturnCall(m, am, fi).status != Undefined
    ensures Rel(StepReturnCall(m, vm, fi), AReturnCall(m, am, fi))
  {
    hide Memory.Moved, FramesOf, Depth, Flat, BaseOf, Push;
    if fi < |m.funcs| {
      var f := m.funcs[fi];
      var n := f.nParams;
      ReturnSlots(vm.stack, am.acts, n);
      FrameTop(am.acts);
      var moved := vm.(stack := Memory.Moved(vm.stack, vm.sp - n, vm.fp, n), sp := vm.fp + n);
      PushZeros(moved, f.nLocals);
      if vm.fp + n + f.nLocals <= STACK_CAP {
        NewTop(am.acts, f.nResults, Top(am, n), Zeros(f.nLocals));
        var q := StepReturnCall(m, vm, fi);
        assert q.stack[..q.sp] == moved.stack[..moved.sp] + Zeros(f.nLocals);
        assert Laid(q, AReturnCall(m, am, fi).acts);
      }
    }
  }

  lemma PushZeros(vm: Vm, n: nat)
    requires vm.status == Running
    ensures var q := Push(vm, Zeros(n));
      q.frames == vm.frames && q.fp == vm.fp && q.fuel == vm.fuel && q.store == vm.store && q.mail == vm.mail &&
      if vm.sp + n <= STACK_CAP
      then q.status == Running && q.sp == vm.sp + n && q.stack[..q.sp] == vm.stack[..vm.sp] + Zeros(n)
      else q.status == TrapStackOverflow
  {
    assert Zeros(n)[..n] == Zeros(n);
  }

  lemma FlatFresh(b: Acts, args: seq<Word>, zeros: seq<Word>)
    requires b.Act? && b.locals == args + zeros && b.ops == []
    ensures Flat(b) == (Flat(b.below) + args) + zeros && |Flat(b)| == |Flat(b.below)| + |args| + |zeros|
  {
  }

  /** An activation in the place of `a`, with locals `args + zeros`. */
  lemma NewTop(a: Acts, nResults: nat, args: seq<Word>, zeros: seq<Word>)
    requires a.Act? && |Flat(a)| <= STACK_CAP && |Flat(a.below)| + |args| + |zeros| <= STACK_CAP
    ensures var b := Act(a.below, a.retPc, nResults, args + zeros, []);
      var c := |FramesOf(a)| - 1;
      Flat(b) == (Flat(a.below) + args) + zeros && BaseOf(b) == BaseOf(a) && c >= 0 &&
      FramesOf(b) == FramesOf(a)[c := FramesOf(a)[c].(nResults := nResults)]
  {
    hide Flat, FramesOf;
    var b := Act(a.below, a.retPc, nResults, args + zeros, []);
    FlatFresh(b, args, zeros);
    FrameTop(a);
    FrameTop(b);
    var c := |FramesOf(a)| - 1;
    assert FramesOf(a) == FramesOf(a)[..c] + [FramesOf(a)[c]];
    assert FramesOf(b) == FramesOf(b)[..c] + [FramesOf(b)[c]];
  }

  /** Moving the results down onto the caller, seen on the shared stack. */
  lemma ReturnSlots(stack: seq<Word>, a: Acts, n: nat)
    requires a.Act? && |Flat(a)| <= |stack| && stack[..|Flat(a)|] == Flat(a) && n <= |a.ops|
    ensures var sp, base := |Flat(a)|, |Flat(a.below)|;
      base + n <= sp && Memory.Moved(stack, sp - n, base, n)[..base + n] == Flat(a.below) + a.ops[|a.ops| - n..]
  {
    FlatSize(a);
    FlatTop(a, n);
    assert Flat(a)[..|Flat(a.below)|] == Flat(a.below);
    hide Memory.Moved, Flat;
    MovedDown(stack, Flat(a), |Flat(a.below)|, n);
  }

  lemma ReturnRefines(vm: Vm, am: Am)
    requires am.acts.Act? && Rel(vm, am) && vm.status == Running
    requires AReturn(am).status != Undefined
    ensures Rel(StepReturn(vm), AReturn(am))
  {
    hide Memory.Moved, FramesOf, Depth, Flat, BaseOf, StepReturn;
    var n := am.acts.nResults;
    ReturnSlots(vm.stack, am.acts, n);
    FrameTop(am.acts);
    ReturnFields(vm, vm.frames[|vm.frames| - 1]);
    if am.acts.below.Act? {
      MoreOps(am.acts.below, Top(am, n));
      assert Laid(StepReturn(vm), AReturn(am).acts);
    } else {
      assert |Flat(am.acts.below)| == 0 by { FlatNone(am.acts.below); }
    }
  }

  lemma FlatNone(a: Acts)
    requires a.Bottom?
    ensures |Flat(a)| == 0
  {
  }

  lemma ReturnFields(vm: Vm, fr: Frame)
    requires vm.status == Running && |vm.frames| > 0 && fr == vm.frames[|vm.frames| - 1]
    requires vm.sp >= fr.nResults && fr.spBase + fr.nResults <= STACK_CAP
    ensures var q := StepReturn(vm);
      && q.stack == Memory.Moved(vm.stack, vm.sp - fr.nResults, fr.spBase, fr.nResults)
      && q.sp == fr.spBase + fr.nResults && q.fp == fr.fp && q.frames == vm.frames[..|vm.frames| - 1]
      && q.store == vm.store && q.fuel == vm.fuel && q.mail == vm.mail
      && (if |vm.frames| == 1 then q.status == Ok else q.status == Running && q.pc == fr.retPc)
  {
    hide Memory.Moved;
  }

  lemma FrameTop(a: Acts)
    requires a.Act? && |Flat(a)| <= STACK_CAP
    ensures |Flat(a.below)| <= STACK_CAP && BaseOf(a) == |Flat(a.below)|
    ensures var c := |FramesOf(a)| - 1;
      c >= 0 && (c == 0 <==> a.below.Bottom?) && FramesOf(a)[..c] == FramesOf(a.below) &&
      FramesOf(a)[c] == Frame(a.retPc, BaseOf(a.below), BaseOf(a), a.nResults)
  {
  }

  /** Operands pushed on an activation. */
  lemma MoreOps(a: Acts, ws: seq<Word>)
    requires a.Act?
    ensures var b := a.(ops := a.ops + ws);
      Flat(b) == Flat(a) + ws && BaseOf(b) == BaseOf(a) && (|Flat(b)| <= STACK_CAP ==> FramesOf(b) == FramesOf(a))
  {
  }

  lemma CallIndirectRefines(m: Module, vm: Vm, am: Am, ty: nat)
    requires am.acts.Act? && Rel(vm, am) && vm.status == Running
    requires ACallIndirect(m, am, ty).status != Undefined
    ensures Rel(StepCallIndirect(m, vm, ty), ACallIndirect(m, am, ty))
  {
    PopRefines(vm, am, 1);
    assert vm.stack[vm.sp - 1..vm.sp][0] == vm.stack[vm.sp - 1];
    match Lookup(m, ty, Low(W32, Top(am, 1)[0]))
    case None =>
    case Some(fi) =>
      if fi < |m.funcs| { EnterRefines(vm.(sp := vm.sp - 1), APop(am, 1), m.funcs[fi]); }
  }

  /** One interpreter step does what the frame machine does, whenever the frame machine's step is defined. */
  lemma StepRefines(m: Module, vm: Vm, am: Am)
    requires Rel(vm, am) && vm.status == Running
    requires AStep(m, am).status != Undefined
    ensures Rel(Step(m, vm), AStep(m, am))
  {
    hide StepConst, StepLocalGet, StepLocalSet, StepSimple, StepUnwind, StepBr, StepBrIfNot, StepCall, StepReturnCall,
         StepCallIndirect, StepCallHost, StepReturn, AConst, ALocalGet, ALocalSet, ASimple, AUnwind, ABr, ABrIfNot,
         ACall, AReturnCall, ACallIndirect, ACallHost, AReturn, Flat, FramesOf;
    if am.pc < |m.code| {
      var v, a := vm.(pc := vm.pc + 1), am.(pc := am.pc + 1);
      match m.code[am.pc]
      case Const(k) => ConstRefines(m, v, a, k);
      case LocalGet(x) => LocalGetRefines(v, a, x);
      case LocalSet(x) => LocalSetRefines(v, a, x);
      case Simple(p) => SimpleRefines(m, v, a, p);
      case Unwind(keep, b) => UnwindRefines(v, a, keep, b);
      case Br(t) => BrRefines(v, a, t);
      case BrIfNot(t) => BrIfNotRefines(v, a, t);
      case Call(f) => CallRefines(m, v, a, f);
      case ReturnCall(f) => ReturnCallRefines(m, v, a, f);
      case CallIndirect(t) => CallIndirectRefines(m, v, a, t);
      case CallHost(np, nr, fn) => CallHostRefines(v, a, np, nr, fn);
      case Return => ReturnRefines(v, a);
      case EndFunc => ReturnRefines(v, a);
      case Unreachable =>
      case Unknown =>
    }
  }

  lemma TickRefines(m: Module, host: Host, vm: Vm, am: Am)
    requires Rel(vm, am)
    requires ATick(m, host, am).status != Undefined
    ensures Rel(Tick(m, host, vm), ATick(m, host, am))
  {
    hide Step, AStep;
    if vm.status == Running {
      StepRefines(m, vm, am);
    } else if vm.status == HostcallPending {
      var log := vm.store.log + [EventOf(vm.mail, vm.store)];
      var s := vm.store.(log := log);
      match host(log)
      case None =>
      case Some(rs) => PushRefines(vm.(store := s, status := Running), am.(store := s, status := Running), rs);
    }
  }

  /** Whole runs: as long as the frame machine never leaves an activation, both machines stay in step. */
  lemma {:induction false} TicksRefine(m: Module, host: Host, vm: Vm, am: Am, k: nat)
    requires Rel(vm, am)
    requires forall j :: 0 <= j <= k ==> ATicks(m, host, am, j).status != Undefined
    ensures Rel(Ticks(m, host, vm, k), ATicks(m, host, am, k))
    decreases k
  {
    hide Tick, ATick;
    if k > 0 {
      assert ATicks(m, host, am, 1) == ATicks(m, host, ATick(m, host, am), 0) == ATick(m, host, am);
      TickRefines(m, host, vm, am);
      forall j | 0 <= j <= k - 1
        ensures ATicks(m, host, ATick(m, host, am), j).status != Undefined
      {
        assert ATicks(m, host, am, j + 1) == ATicks(m, host, ATick(m, host, am), j);
      }
      TicksRefine(m, host, Tick(m, host, vm), ATick(m, host, am), k - 1);
    }
  }

  lemma EntryRel(m: Module, f: FuncMeta, args: seq<Word>, s: Store)
    requires |args| + f.nLocals <= STACK_CAP
    ensures Rel(Entry(f, args, s), AEntry(f, args, s))
  {
    var vm := Entry(f, args, s);
    var a := AEntry(f, args, s).acts;
    assert Flat(a) == args + Zeros(f.nLocals);
    assert vm.stack[..vm.sp] == args + Zeros(f.nLocals);
    assert FramesOf(a) == [Frame(0, 0, 0, f.nResults)];
  }

  function AEntry(f: FuncMeta, args: seq<Word>, s: Store): Am {
    Am(f.codeOff, Act(Bottom, 0, f.nResults, args + Zeros(f.nLocals), []), INITIAL_FUEL, Running, s,
       Mail(0, [], 0), [])
  }
}
