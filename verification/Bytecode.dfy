/** CuOp bytecode (cuop.h), modules, and the effect of every straight-line instruction (interp.h). */
module Bytecode {
  import opened Words
  import Memory

  datatype Option<+T> = None | Some(value: T)

  /** A host call as the host sees it: the function, its arguments, the declared result count and linear memory. */
  datatype HostEvent = HostEvent(fn: nat, args: seq<Word>, nResults: nat, mem: seq<Byte>)

  /** A deterministic host answers from the whole history of calls; None means it refused the call. */
  type Host = seq<HostEvent> -> Option<seq<Word>>

  datatype StoreRaw = Store(
    globals: seq<Word>,
    mem: seq<Byte>,        // the whole reservation, max_size bytes
    memSize: nat,          // the accessible prefix
    live: seq<bool>,       // data segments not yet dropped
    log: seq<HostEvent>)

  type Store = s: StoreRaw | s.memSize <= |s.mem| witness Store([], [], 0, [], [])

  datatype Plain =
    | Arith(alu: Alu)
    | Drop | Select
    | GlobalGet(g: nat) | GlobalSet(g: nat)
    | Load(nbytes: nat, signed: bool, wide: bool, off: nat)
    | StoreMem(nbytes: nat, off: nat)
    | MemorySize | MemoryGrow | MemoryCopy | MemoryFill
    | MemoryInit(seg: nat) | DataDrop(seg: nat)

  datatype CuOp =
    | Const(k: nat)
    | LocalGet(x: nat) | LocalSet(x: nat)
    | Simple(p: Plain)
    | Unwind(keep: nat, dest: nat)
    | Br(target: nat) | BrIfNot(target: nat)
    | Call(f: nat) | ReturnCall(f: nat) | CallIndirect(ty: nat)
    | CallHost(nargs: nat, nres: nat, fn: nat)
    | Return | EndFunc | Unreachable
    | Unknown

  datatype FuncMeta = FuncMeta(codeOff: nat, codeLen: nat, nParams: nat, nResults: nat, nLocals: nat)

  const TABLE_NULL: nat := 0xFFFF_FFFF

  datatype Module = Module(
    code: seq<CuOp>,
    consts: seq<Word>,
    funcs: seq<FuncMeta>,
    nImports: nat,
    table: seq<nat>,
    funcType: seq<nat>,
    typeFp: seq<nat>,
    segments: seq<seq<Byte>>)

  function Pops(p: Plain): nat {
    match p
    case Arith(op) => AluPops(op)
    case Drop | GlobalSet(_) | Load(_, _, _, _) | MemoryGrow => 1
    case Select | MemoryCopy | MemoryFill | MemoryInit(_) => 3
    case GlobalGet(_) | MemorySize | DataDrop(_) => 0
    case StoreMem(_, _) => 2
  }

  function Pushes(p: Plain): nat {
    match p
    case Arith(op) => AluPushes(op)
    case GlobalGet(_) | MemorySize | MemoryGrow | Select | Load(_, _, _, _) => 1
    case Drop | GlobalSet(_) | MemoryCopy | MemoryFill | MemoryInit(_) | DataDrop(_) | StoreMem(_, _) => 0
  }

  /** How many operands have been popped when the instruction traps. */
  function FaultPops(p: Plain): (n: nat)
    ensures n <= Pops(p)
  {
    if p.GlobalSet? then 0 else Pops(p)
  }

  datatype Effect = Done(store: Store, pushed: seq<Word>) | Fault(status: Status)

  predicate TrapStatus(st: Status) {
    st in {TrapUnreachable, UnsupportedOp, TrapDivByZero, TrapIntOverflow, TrapMemOob, TrapIndirectCall}
  }

  /** Traps that come from the machine's own limits rather than from the program. */
  predicate ResourceTrap(st: Status) {
    st in {TrapStackOverflow, TrapCallDepth, OutOfFuel}
  }

  function LoadValue(v: Word, nbytes: nat, signed: bool, wide: bool): Word
    requires 1 <= nbytes <= 8
  {
    if signed then
      if wide then Memory.SignExtend(v, nbytes * 8) else Low(W32, Memory.SignExtend(v, nbytes * 8))
    else if !wide && nbytes < 8 then Low(W32, v)
    else v
  }

  function EvalLoad(s: Store, nbytes: nat, signed: bool, wide: bool, off: nat, addr: Word): (e: Effect)
    ensures e.Done? ==> |e.pushed| == 1
    ensures e.Fault? ==> e.status == TrapMemOob
  {
    var ea := Low(W32, addr) + off;
    if nbytes == 0 || nbytes > 8 || !Memory.InBounds(s.memSize, ea, nbytes) then Fault(TrapMemOob)
    else Done(s, [LoadValue(Memory.Load(s.mem, ea, nbytes), nbytes, signed, wide)])
  }

  function EvalStore(s: Store, nbytes: nat, off: nat, addr: Word, v: Word): (e: Effect)
    ensures e.Done? ==> |e.pushed| == 0
    ensures e.Fault? ==> e.status == TrapMemOob
  {
    var ea := Low(W32, addr) + off;
    if nbytes == 0 || nbytes > 8 || !Memory.InBounds(s.memSize, ea, nbytes) then Fault(TrapMemOob)
    else Done(s.(mem := Memory.Store(s.mem, ea, nbytes, v)), [])
  }

  function EvalGrow(s: Store, delta: Word): (e: Effect)
    ensures e.Done? && |e.pushed| == 1
  {
    var before := s.memSize / Memory.WASM_PAGE;
    var pages := before + Low(W32, delta);
    var limit := |s.mem| / Memory.WASM_PAGE;
    if pages > limit || pages > 65536 then Done(s, [TWO32 - 1])
    else Done(s.(memSize := pages * Memory.WASM_PAGE), [Low(W32, before)])
  }

  function EvalCopy(s: Store, dst: Word, src: Word, n: Word): (e: Effect)
    ensures e.Done? ==> |e.pushed| == 0
    ensures e.Fault? ==> e.status == TrapMemOob
  {
    var d, from, len := Low(W32, dst), Low(W32, src), Low(W32, n);
    if from + len > s.memSize || d + len > s.memSize then Fault(TrapMemOob)
    else Done(s.(mem := Memory.Moved(s.mem, from, d, len)), [])
  }

  function EvalFill(s: Store, dst: Word, v: Word, n: Word): (e: Effect)
    ensures e.Done? ==> |e.pushed| == 0
    ensures e.Fault? ==> e.status == TrapMemOob
  {
    var d, len := Low(W32, dst), Low(W32, n);
    if d + len > s.memSize then Fault(TrapMemOob)
    else Done(s.(mem := Memory.Written(s.mem, d, Memory.Repeated(v % 256, len))), [])
  }

  function EvalInit(segments: seq<seq<Byte>>, s: Store, seg: nat, dst: Word, src: Word, n: Word): (e: Effect)
    ensures e.Done? ==> |e.pushed| == 0
    ensures e.Fault? ==> e.status == TrapMemOob
  {
    var d, from, len := Low(W32, dst), Low(W32, src), Low(W32, n);
    if seg >= |s.live| then Fault(TrapMemOob)
    else
      var data := if s.live[seg] && seg < |segments| then segments[seg] else [];
      if from + len > |data| || d + len > s.memSize then Fault(TrapMemOob)
      else Done(s.(mem := Memory.Written(s.mem, d, data[from..from + len])), [])
  }

  /** What a straight-line instruction does to the store and to its operands (`args`, top of stack last). */
  function Eval(segments: seq<seq<Byte>>, p: Plain, s: Store, args: seq<Word>): (e: Effect)
    requires |args| == Pops(p)
    ensures e.Done? ==> |e.pushed| == Pushes(p)
    ensures e.Fault? ==> TrapStatus(e.status)
  {
    match p
    case Arith(op) =>
      (match AluEval(op, args)
       case Val(ws) => Done(s, ws)
       case Bad(st) => Fault(st))
    case Drop => Done(s, [])
    case Select => Done(s, [if Low(W32, args[2]) != 0 then args[0] else args[1]])
    case GlobalGet(g) => if g >= |s.globals| then Fault(UnsupportedOp) else Done(s, [s.globals[g]])
    case GlobalSet(g) =>
      if g >= |s.globals| then Fault(UnsupportedOp)
      else Done(s.(globals := s.globals[g := args[0]]), [])
    case Load(n, signed, wide, off) => EvalLoad(s, n, signed, wide, off, args[0])
    case StoreMem(n, off) => EvalStore(s, n, off, args[0], args[1])
    case MemorySize => Done(s, [Low(W32, s.memSize / Memory.WASM_PAGE)])
    case MemoryGrow => EvalGrow(s, args[0])
    case MemoryCopy => EvalCopy(s, args[0], args[1], args[2])
    case MemoryFill => EvalFill(s, args[0], args[1], args[2])
    case MemoryInit(seg) => EvalInit(segments, s, seg, args[0], args[1], args[2])
    case DataDrop(seg) =>
      if seg >= |s.live| then Fault(TrapMemOob) else Done(s.(live := s.live[seg := false]), [])
  }
}
