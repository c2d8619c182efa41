/** The interpreter as a step function over its own state: pc, one shared stack of locals and operands, a frame
    stack, fuel and the store (interp.h, vmstate.h), plus the host-call resume of the driver (run.cpp). */
module Machine {
  import opened Words
  import opened Bytecode
  import Memory

  const STACK_CAP: nat := 4096
  const FRAME_CAP: nat := 256
  const FUEL_BACKEDGE: int := 1
  const INITIAL_FUEL: int := 1_000_000_000_000
  const MAIL_CAP: nat := 16

  datatype FrameRaw = Frame(retPc: nat, fp: nat, spBase: nat, nResults: nat)

  type Frame = f: FrameRaw | f.fp <= STACK_CAP && f.spBase <= STACK_CAP witness Frame(0, 0, 0, 0)

  datatype Mail = Mail(fn: nat, args: seq<Word>, nResults: nat)

  datatype VmRaw = Vm(
    pc: nat, sp: nat, fp: nat,
    frames: seq<Frame>,     // frames[..csp]
    fuel: int,
    status: Status,
    stack: seq<Word>,
    store: Store,
    mail: Mail)

  /** Every state keeps its stack and frame indices inside the arrays the C++ code allocates. */
  predicate WfVm(v: VmRaw) {
    |v.stack| == STACK_CAP && v.sp <= STACK_CAP && v.fp <= STACK_CAP && |v.frames| <= FRAME_CAP
  }

  type Vm = v: VmRaw | WfVm(v)
    witness Vm(0, 0, 0, [], 0, Ok, seq(STACK_CAP, _ => 0), Store([], [], 0, [], []), Mail(0, [], 0))

  function Trap(vm: Vm, st: Status): Vm { vm.(status := st) }

  /** CU_PUSH for each of `ws` in turn; stops with a stack-overflow trap at the first one that does not fit. */
  function Push(vm: Vm, ws: seq<Word>): Vm {
    var n := if |ws| <= STACK_CAP - vm.sp then |ws| else STACK_CAP - vm.sp;
    var v := vm.(stack := Memory.Written(vm.stack, vm.sp, ws[..n]), sp := vm.sp + n);
    if n < |ws| then Trap(v, TrapStackOverflow) else v
  }

  function Zeros(n: nat): (z: seq<Word>)
    ensures |z| == n
  {
    seq(n, _ => 0)
  }

  function StepConst(m: Module, vm: Vm, k: nat): Vm {
    if vm.sp >= STACK_CAP then Trap(vm, TrapStackOverflow)
    else if k >= |m.consts| then Trap(vm, Undefined)
    else Push(vm, [m.consts[k]])
  }

  function StepLocalGet(vm: Vm, x: nat): Vm {
    if vm.sp >= STACK_CAP then Trap(vm, TrapStackOverflow)
    else if vm.fp + x >= STACK_CAP then Trap(vm, Undefined)
    else Push(vm, [vm.stack[vm.fp + x]])
  }

  function StepLocalSet(vm: Vm, x: nat): Vm {
    if vm.sp == 0 || vm.fp + x >= STACK_CAP then Trap(vm, Undefined)
    else vm.(stack := vm.stack[vm.fp + x := vm.stack[vm.sp - 1]], sp := vm.sp - 1)
  }

  function StepSimple(m: Module, vm: Vm, p: Plain): Vm {
    var n := Pops(p);
    if vm.sp < n then Trap(vm, Undefined)
    else
      match Eval(m.segments, p, vm.store, vm.stack[vm.sp - n..vm.sp])
      case Fault(st) => Trap(vm.(sp := vm.sp - FaultPops(p)), st)
      case Done(s, ws) => Push(vm.(sp := vm.sp - n, store := s), ws)
  }

  function StepUnwind(vm: Vm, keep: nat, b: nat): Vm {
    var dest := (vm.fp + b) % TWO32;
    if keep > vm.sp || dest < keep || dest > STACK_CAP then Trap(vm, TrapStackOverflow)
    else vm.(stack := Memory.Moved(vm.stack, vm.sp - keep, dest - keep, keep), sp := dest)
  }

  /** OP_BR with `vm.pc` already past the instruction: only a jump to `pc` or earlier is charged. */
  function StepBr(vm: Vm, target: nat): Vm {
    if target <= vm.pc then
      var v := vm.(fuel := vm.fuel - FUEL_BACKEDGE);
      if v.fuel <= 0 then Trap(v, OutOfFuel) else v.(pc := target)
    else vm.(pc := target)
  }

  function StepBrIfNot(vm: Vm, target: nat): Vm {
    if vm.sp == 0 then Trap(vm, Undefined)
    else
      var v := vm.(sp := vm.sp - 1);
      if Low(W32, vm.stack[vm.sp - 1]) == 0 then v.(pc := target) else v
  }

  /** Push a frame for `f`, zero its locals and jump to its code. */
  function Enter(vm: Vm, f: FuncMeta): Vm {
    if |vm.frames| >= FRAME_CAP then Trap(vm, TrapCallDepth)
    else if vm.sp < f.nParams then Trap(vm, TrapStackOverflow)
    else
      var base := vm.sp - f.nParams;
      var v := Push(vm.(frames := vm.frames + [Frame(vm.pc, vm.fp, base, f.nResults)], fp := base), Zeros(f.nLocals));
      if v.status == TrapStackOverflow then v else v.(pc := f.codeOff)
  }

  function StepCall(m: Module, vm: Vm, f: nat): Vm {
    if f >= |m.funcs| then Trap(vm, UnsupportedOp) else Enter(vm, m.funcs[f])
  }

  function StepReturnCall(m: Module, vm: Vm, fi: nat): Vm {
    if fi >= |m.funcs| then Trap(vm, UnsupportedOp)
    else
      var f := m.funcs[fi];
      if vm.sp < f.nParams then Trap(vm, TrapStackOverflow)
      else if vm.fp + f.nParams > STACK_CAP then Trap(vm, Undefined)
      else
        var moved := Memory.Moved(vm.stack, vm.sp - f.nParams, vm.fp, f.nParams);
        var v := Push(vm.(stack := moved, sp := vm.fp + f.nParams), Zeros(f.nLocals));
        if v.status == TrapStackOverflow then v
        else
          var c := |v.frames|;
          var fs := if c > 0 then v.frames[c - 1 := v.frames[c - 1].(nResults := f.nResults)] else v.frames;
          v.(frames := fs, pc := f.codeOff)
  }

  function StepReturn(vm: Vm): Vm {
    var c := |vm.frames|;
    if c == 0 then Trap(vm, TrapUnreachable)
    else
      var fr := vm.frames[c - 1];
      var v := vm.(frames := vm.frames[..c - 1]);
      var n := fr.nResults;
      if v.sp < n then Trap(v, TrapStackOverflow)
      else if fr.spBase + n > STACK_CAP then Trap(v, Undefined)
      else
        var w := v.(stack := Memory.Moved(v.stack, v.sp - n, fr.spBase, n), sp := fr.spBase + n, fp := fr.fp);
        if c == 1 then Trap(w, Ok) else w.(pc := fr.retPc)
  }

  function StepCallHost(vm: Vm, np: nat, nr: nat, fn: nat): Vm {
    if np > MAIL_CAP then Trap(vm, UnsupportedOp)
    else if vm.sp < np then Trap(vm, TrapStackOverflow)
    else
      vm.(mail := Mail(fn, vm.stack[vm.sp - np..vm.sp], nr), sp := vm.sp - np, status := HostcallPending)
  }

  /** The function a table slot resolves to when its type fingerprint is the expected one. */
  function Lookup(m: Module, ty: nat, idx: nat): Option<nat> {
    if idx >= |m.table| then None
    else
      var fi := m.table[idx];
      if fi == TABLE_NULL || fi >= |m.funcs| || fi >= |m.funcType| || ty >= |m.typeFp| then None
      else if m.funcType[fi] >= |m.typeFp| || m.typeFp[m.funcType[fi]] != m.typeFp[ty] then None
      else Some(fi)
  }

  function StepCallIndirect(m: Module, vm: Vm, ty: nat): Vm {
    if vm.sp == 0 then Trap(vm, Undefined)
    else
      var v := vm.(sp := vm.sp - 1);
      match Lookup(m, ty, Low(W32, vm.stack[vm.sp - 1]))
      case None => Trap(v, TrapIndirectCall)
      case Some(fi) => if fi < |m.funcs| then Enter(v, m.funcs[fi]) else Trap(v, TrapIndirectCall)
  }

  /** One iteration of the interpreter loop. */
  function Step(m: Module, vm: Vm): Vm {
    if vm.pc >= |m.code| then Trap(vm, TrapUnreachable)
    else Exec(m, m.code[vm.pc], vm.(pc := vm.pc + 1))
  }

  /** The switch of the interpreter loop, with `vm.pc` already advanced. */
  function Exec(m: Module, op: CuOp, vm: Vm): Vm {
    match op
    case Const(k) => StepConst(m, vm, k)
    case LocalGet(x) => StepLocalGet(vm, x)
    case LocalSet(x) => StepLocalSet(vm, x)
    case Simple(p) => StepSimple(m, vm, p)
    case Unwind(keep, b) => StepUnwind(vm, keep, b)
    case Br(t) => StepBr(vm, t)
    case BrIfNot(t) => StepBrIfNot(vm, t)
    case Call(f) => StepCall(m, vm, f)
    case ReturnCall(f) => StepReturnCall(m, vm, f)
    case CallIndirect(t) => StepCallIndirect(m, vm, t)
    case CallHost(np, nr, fn) => StepCallHost(vm, np, nr, fn)
    case Return => StepReturn(vm)
    case EndFunc => StepReturn(vm)
    case Unreachable => Trap(vm, TrapUnreachable)
    case Unknown => Trap(vm, UnsupportedOp)
  }

  function EventOf(mail: Mail, s: Store): HostEvent { HostEvent(mail.fn, mail.args, mail.nResults, s.mem) }

  /** The driver's answer to a pending host call. */
  function Resume(host: Host, vm: Vm): Vm {
    var log := vm.store.log + [EventOf(vm.mail, vm.store)];
    var v := vm.(store := vm.store.(log := log), status := Running);
    match host(log)
    case None => Trap(v, UnsupportedOp)
    case Some(rs) => if |rs| > 1 then Trap(v, Undefined) else Push(v, rs)
  }

  /** One transition of machine and driver together; final states stay put. */
  function Tick(m: Module, host: Host, vm: Vm): Vm {
    if vm.status == Running then Step(m, vm)
    else if vm.status == HostcallPending then Resume(host, vm)
    else vm
  }

  function Ticks(m: Module, host: Host, vm: Vm, k: nat): Vm
    decreases k
  {
    if k == 0 then vm else Ticks(m, host, Tick(m, host, vm), k - 1)
  }

  predicate Final(st: Status) { st != Running && st != HostcallPending }

  /** The state in which the driver starts function `f` (run.cpp). */
  function Entry(f: FuncMeta, args: seq<Word>, s: Store): Vm
    requires |args| + f.nLocals <= STACK_CAP
  {
    Vm(f.codeOff, |args| + f.nLocals, 0, [Frame(0, 0, 0, f.nResults)], INITIAL_FUEL, Running,
       args + Zeros(STACK_CAP - |args|), s, Mail(0, [], 0))
  }

  /** Pushes of the driver, which does not look where the stack array ends. */
  function Placed(vm: Vm, ws: seq<Word>): Vm {
    var v := Push(vm, ws);
    if |ws| > STACK_CAP - vm.sp then Trap(v, Undefined) else v
  }

  /** How the driver makes the entry state: it pushes the arguments, then a zero for each local. */
  function Start(f: FuncMeta, args: seq<Word>, s: Store): Vm {
    var v := Placed(Vm(f.codeOff, 0, 0, [Frame(0, 0, 0, f.nResults)], INITIAL_FUEL, Running, Zeros(STACK_CAP), s,
                       Mail(0, [], 0)), args);
    if v.status == Undefined then v else Placed(v, Zeros(f.nLocals))
  }

  /** The entry state is made exactly when the slots fit. */
  lemma StartIsEntry(f: FuncMeta, args: seq<Word>, s: Store)
    ensures Start(f, args, s).store == s
    ensures |args| + f.nLocals <= STACK_CAP ==> Start(f, args, s) == Entry(f, args, s)
    ensures |args| + f.nLocals > STACK_CAP ==> Start(f, args, s).status == Undefined
  {
    if |args| + f.nLocals <= STACK_CAP {
      assert args[..|args|] == args && Zeros(f.nLocals)[..f.nLocals] == Zeros(f.nLocals);
      assert Start(f, args, s).stack == Entry(f, args, s).stack;
    }
  }
}
