/** `run_instance` as it works: one object that updates its stack, frame, global and memory arrays in place. Every
    method is proved equal to the transition of module Machine it stands for. */
module Interpreter {
  import opened Words
  import opened Bytecode
  import opened Machine
  import opened Slices
  import Memory
  import LinearMemory
  import Wide
  import opened Bits

  /** OP_CLZ: count zero bits from the top with a shifting mask. */
  method CountLeadingZeros(v: Word, bits: nat) returns (n: nat)
    requires bits >= 1 && v < Pow2(bits)
    ensures n == LeadingZeros(v, bits)
  {
    n := 0;
    if v == 0 {
      n := bits;
      ZeroHasNone(bits);
    } else {
      var mask := Pow2(bits - 1);
      while (v / mask) % 2 == 0  // (v & mask) == 0 for a one-bit mask
        invariant n < bits && mask == Pow2(bits - 1 - n) && v < 2 * mask
        invariant LeadingZeros(v, bits) == n + LeadingZeros(v, bits - n)
        decreases bits - n
      {
        assert v < mask by { TopBit(v, mask); }
        n := n + 1;
        assert n < bits;
        mask := mask / 2;
      }
      TopBit(v, mask);
    }
  }

  lemma TopBit(v: nat, mask: nat)
    requires mask > 0 && v < 2 * mask
    ensures v < mask <==> (v / mask) % 2 == 0
  {
    if v < mask {
      SplitDigits(v, 0, mask);
    } else {
      SplitDigits(v - mask, 1, mask);
    }
  }

  lemma {:induction false} ZeroHasNone(bits: nat)
    ensures LeadingZeros(0, bits) == bits
  {
    if bits > 0 { ZeroHasNone(bits - 1); }
  }

  method CountFor(w: Width, v: Word) returns (n: nat)
    ensures n == LeadingZeros(Low(w, v), BitWidth(w))
  {
    Memory.Pow2Literals();
    n := CountLeadingZeros(Low(w, v), BitWidth(w));
  }

  /** The arithmetic cases of the switch; the wide ones run their own loops of 64-bit steps. */
  method Compute(op: Alu, args: seq<Word>) returns (r: AluResult)
    requires |args| == AluPops(op)
    ensures r == AluEval(op, args)
  {
    hide Split, BinEval, LeadingZeros;
    match op
    case MulWideU =>
      var lo, hi := Wide.MulUnsigned(args[0], args[1]);
      r := Val([lo, hi]);
    case MulWideS =>
      var lo, hi := Wide.MulSigned(args[0], args[1]);
      r := Val([lo, hi]);
    case Add128 =>
      var lo, hi := Wide.Add128(args[0], args[1], args[2], args[3]);
      r := Val([lo, hi]);
    case Sub128 =>
      var lo, hi := Wide.Sub128(args[0], args[1], args[2], args[3]);
      r := Val([lo, hi]);
    case Clz(w) =>
      var n := CountFor(w, args[0]);
      r := Val([n]);
    case _ =>
      r := AluEval(op, args);
  }

  class Instance {
    const stack: array<Word>
    const frames: array<Frame>
    const globals: array<Word>
    const mem: array<Byte>       // the whole reservation
    const live: array<bool>
    var pc: nat
    var sp: nat
    var fp: nat
    var csp: nat
    var fuel: int
    var status: Status
    var memSize: nat
    var mail: Mail
    var log: seq<HostEvent>

    ghost predicate Valid()
      reads this
    {
      && stack.Length == STACK_CAP && frames.Length == FRAME_CAP
      && sp <= STACK_CAP && fp <= STACK_CAP && csp <= FRAME_CAP && memSize <= mem.Length
      && stack != globals && (stack as object) != mem && (globals as object) != mem
      && (live as object) != stack && (live as object) != globals && (live as object) != mem
      && (frames as object) != stack && (frames as object) != globals && (frames as object) != mem
      && (frames as object) != live
    }

    ghost function StoreView(): Bytecode.Store
      requires Valid()
      reads this, globals, mem, live
    {
      Store(globals[..], mem[..], memSize, live[..], log)
    }

    ghost function View(): Vm
      requires Valid()
      reads this, stack, frames, globals, mem, live
    {
      Vm(pc, sp, fp, frames[..csp], fuel, status, stack[..], StoreView(), mail)
    }

    /** The entry state of `run_cpu`: one frame, the arguments pushed, then the cleared locals. */
    constructor (f: FuncMeta, args: seq<Word>, globals: array<Word>, mem: array<Byte>, size: nat, live: array<bool>)
      requires size <= mem.Length
      requires (globals as object) != mem && (live as object) != globals && (live as object) != mem
      ensures Valid() && fresh(this) && fresh(stack) && fresh(frames)
      ensures this.globals == globals && this.mem == mem && this.live == live
      ensures View() == Start(f, args, Store(globals[..], mem[..], size, live[..], []))
    {
      hide Placed;
      this.globals := globals;
      this.mem := mem;
      this.live := live;
      stack := new Word[STACK_CAP](_ => 0);
      var fs := new Frame[FRAME_CAP];
      fs[0] := Frame(0, 0, 0, f.nResults);
      frames := fs;
      pc, sp, fp, csp := f.codeOff, 0, 0, 1;
      fuel, status, memSize, mail, log := INITIAL_FUEL, Running, size, Mail(0, [], 0), [];
      new;
      assert stack[..] == Zeros(STACK_CAP) && frames[..1] == [Frame(0, 0, 0, f.nResults)];
      Place(args);
      if status == Running {
        Place(Zeros(f.nLocals));
      }
    }

    /** The push loops of `run_cpu`, which do not look where the array ends. */
    method Place(ws: seq<Word>)
      requires Valid() && status == Running
      modifies this, stack
      ensures Valid() && View() == Placed(old(View()), ws) && (status == Running || status == Undefined)
    {
      var i := 0;
      while i < |ws|
        invariant 0 <= i <= |ws| && sp == old(sp) + i <= STACK_CAP
        invariant unchanged(this`pc, this`fp, this`csp, this`fuel, this`status, this`memSize, this`mail, this`log)
        invariant forall j :: 0 <= j < STACK_CAP ==>
          stack[j] == if old(sp) <= j < sp then ws[j - old(sp)] else old(stack[j])
      {
        if sp >= STACK_CAP {
          assert stack[..] == Memory.Written(old(stack[..]), old(sp), ws[..i]);
          status := Undefined;
          return;
        }
        stack[sp] := ws[i];
        sp := sp + 1;
        i := i + 1;
      }
      assert stack[..] == Memory.Written(old(stack[..]), old(sp), ws[..i]);
    }

    method Halt(st: Status)
      requires Valid()
      modifies this
      ensures Valid() && View() == Trap(old(View()), st)
    {
      status := st;
    }

    /** CU_PUSH. */
    method PushWord(w: Word)
      requires Valid() && status == Running
      modifies this, stack
      ensures Valid() && View() == Push(old(View()), [w])
    {
      if sp >= STACK_CAP {
        status := TrapStackOverflow;
        assert stack[..] == Memory.Written(stack[..], sp, []);
      } else {
        stack[sp] := w;
        sp := sp + 1;
        assert stack[..] == Memory.Written(old(stack[..]), old(sp), [w]);
      }
    }

    /** CU_PUSH for each word in turn, until one does not fit. */
    method PushAll(ws: seq<Word>)
      requires Valid() && status == Running
      modifies this, stack
      ensures Valid() && View() == Push(old(View()), ws)
      ensures status == Running || status == TrapStackOverflow
    {
      var i := 0;
      while i < |ws| && sp < STACK_CAP
        invariant 0 <= i <= |ws| && sp == old(sp) + i <= STACK_CAP
        invariant unchanged(this`pc, this`fp, this`csp, this`fuel, this`status, this`memSize, this`mail, this`log)
        invariant forall j :: 0 <= j < STACK_CAP ==>
          stack[j] == if old(sp) <= j < sp then ws[j - old(sp)] else old(stack[j])
      {
        stack[sp] := ws[i];
        sp := sp + 1;
        i := i + 1;
      }
      assert stack[..] == Memory.Written(old(stack[..]), old(sp), ws[..i]);
      if i < |ws| {
        status := TrapStackOverflow;
      }
    }

    method LocalGet(x: nat)
      requires Valid() && status == Running
      modifies this, stack
      ensures Valid() && View() == StepLocalGet(old(View()), x)
    {
      if sp >= STACK_CAP {
        Halt(TrapStackOverflow);
      } else if fp + x >= STACK_CAP {
        Halt(Undefined);
      } else {
        PushWord(stack[fp + x]);
      }
    }

    method LocalSet(x: nat)
      requires Valid() && status == Running
      modifies this, stack
      ensures Valid() && View() == StepLocalSet(old(View()), x)
    {
      if sp == 0 || fp + x >= STACK_CAP {
        Halt(Undefined);
      } else {
        sp := sp - 1;
        stack[fp + x] := stack[sp];
      }
    }

    method LoadConst(m: Module, k: nat)
      requires Valid() && status == Running
      modifies this, stack
      ensures Valid() && View() == StepConst(m, old(View()), k)
    {
      if sp >= STACK_CAP {
        Halt(TrapStackOverflow);
      } else if k >= |m.consts| {
        Halt(Undefined);
      } else {
        PushWord(m.consts[k]);
      }
    }

    method Unwind(keep: nat, b: nat)
      requires Valid() && status == Running
      modifies this, stack
      ensures Valid() && View() == StepUnwind(old(View()), keep, b)
    {
      hide Memory.Moved;
      var dest := (fp + b) % TWO32;
      if keep > sp || dest < keep || dest > STACK_CAP {
        Halt(TrapStackOverflow);
      } else {
        MoveDown(keep, dest - keep);
      }
    }

    method Branch(target: nat)
      requires Valid() && status == Running
      modifies this
      ensures Valid() && View() == StepBr(old(View()), target)
    {
      if target <= pc {
        fuel := fuel - FUEL_BACKEDGE;
        if fuel <= 0 {
          Halt(OutOfFuel);
          return;
        }
      }
      pc := target;
    }

    method BranchIfNot(target: nat)
      requires Valid() && status == Running
      modifies this
      ensures Valid() && View() == StepBrIfNot(old(View()), target)
    {
      if sp == 0 {
        Halt(Undefined);
      } else {
        sp := sp - 1;
        if stack[sp] % TWO32 == 0 {
          pc := target;
        }
      }
    }

    method PushFrame(base: nat, nResults: nat)
      requires Valid() && csp < FRAME_CAP && base <= STACK_CAP
      modifies this, frames
      ensures Valid()
      ensures var v := old(View());
        View() == v.(frames := v.frames + [Frame(v.pc, v.fp, base, nResults)], fp := base)
    {
      frames[csp] := Frame(pc, fp, base, nResults);
      csp := csp + 1;
      fp := base;
      assert frames[..csp] == old(frames[..csp]) + [Frame(old(pc), old(fp), base, nResults)];
    }

    method PopFrame() returns (fr: Frame)
      requires Valid() && csp > 0
      modifies this
      ensures Valid()
      ensures var v := old(View()); var c := |v.frames| - 1; View() == v.(frames := v.frames[..c]) && fr == v.frames[c]
    {
      csp := csp - 1;
      fr := frames[csp];
      assert frames[..csp] == old(frames[..csp])[..csp];
    }

    /** The top frame will return what `f` returns; go on at its code. */
    method Retarget(f: FuncMeta)
      requires Valid()
      modifies this, frames
      ensures Valid()
      ensures var v := old(View());
        var c := |v.frames|;
        var fs := if c > 0 then v.frames[c - 1 := v.frames[c - 1].(nResults := f.nResults)] else v.frames;
        View() == v.(frames := fs, pc := f.codeOff)
    {
      if csp > 0 {
        frames[csp - 1] := frames[csp - 1].(nResults := f.nResults);
      }
      pc := f.codeOff;
    }

    /** Copy the top `n` slots to `dst` and cut the stack behind them. */
    method MoveDown(n: nat, dst: nat)
      requires Valid() && n <= sp && dst + n <= STACK_CAP
      modifies this, stack
      ensures Valid()
      ensures var v := old(View()); View() == v.(stack := Memory.Moved(v.stack, v.sp - n, dst, n), sp := dst + n)
    {
      hide Memory.Moved;
      LinearMemory.CopyWithin(stack, sp - n, dst, n);
      sp := dst + n;
    }

    /** The frame push shared by CALL and CALL_INDIRECT. */
    method EnterFunction(f: FuncMeta)
      requires Valid() && status == Running
      modifies this, stack, frames
      ensures Valid() && View() == Enter(old(View()), f)
    {
      hide Push;
      if csp >= FRAME_CAP {
        Halt(TrapCallDepth);
      } else if sp < f.nParams {
        Halt(TrapStackOverflow);
      } else {
        PushFrame(sp - f.nParams, f.nResults);
        PushAll(Zeros(f.nLocals));
        if status == Running {
          pc := f.codeOff;
        }
      }
    }

    method Call(m: Module, f: nat)
      requires Valid() && status == Running
      modifies this, stack, frames
      ensures Valid() && View() == StepCall(m, old(View()), f)
    {
      if f >= |m.funcs| {
        Halt(UnsupportedOp);
      } else {
        EnterFunction(m.funcs[f]);
      }
    }

    method CallIndirect(m: Module, ty: nat)
      requires Valid() && status == Running
      modifies this, stack, frames
      ensures Valid() && View() == StepCallIndirect(m, old(View()), ty)
    {
      if sp == 0 {
        Halt(Undefined);
        return;
      }
      sp := sp - 1;
      var idx := stack[sp] % TWO32;
      if idx >= |m.table| {
        Halt(TrapIndirectCall);
        return;
      }
      var fi := m.table[idx];
      if fi == TABLE_NULL || fi >= |m.funcs| {
        Halt(TrapIndirectCall);
      } else if fi >= |m.funcType| || ty >= |m.typeFp| {
        Halt(TrapIndirectCall);
      } else if m.funcType[fi] >= |m.typeFp| || m.typeFp[m.funcType[fi]] != m.typeFp[ty] {
        Halt(TrapIndirectCall);
      } else {
        EnterFunction(m.funcs[fi]);
      }
    }

    method ReturnCall(m: Module, fi: nat)
      requires Valid() && status == Running
      modifies this, stack, frames
      ensures Valid() && View() == StepReturnCall(m, old(View()), fi)
    {
      hide Memory.Moved, Push;
      if fi >= |m.funcs| {
        Halt(UnsupportedOp);
        return;
      }
      var f := m.funcs[fi];
      if sp < f.nParams {
        Halt(TrapStackOverflow);
      } else if fp + f.nParams > STACK_CAP {
        Halt(Undefined);
      } else {
        MoveDown(f.nParams, fp);
        PushAll(Zeros(f.nLocals));
        if status == Running {
          Retarget(f);
        }
      }
    }

    method Return()
      requires Valid() && status == Running
      modifies this, stack
      ensures Valid() && View() == StepReturn(old(View()))
    {
      hide Memory.Moved;
      if csp == 0 {
        Halt(TrapUnreachable);
        return;
      }
      var fr := PopFrame();
      if sp < fr.nResults {
        Halt(TrapStackOverflow);
      } else if fr.spBase + fr.nResults > STACK_CAP {
        Halt(Undefined);
      } else {
        MoveDown(fr.nResults, fr.spBase);
        fp := fr.fp;
        if csp == 0 {
          status := Ok;
        } else {
          pc := fr.retPc;
        }
      }
    }

    method CallHost(np: nat, nr: nat, fn: nat)
      requires Valid() && status == Running
      modifies this
      ensures Valid() && View() == StepCallHost(old(View()), np, nr, fn)
    {
      if np > MAIL_CAP {
        Halt(UnsupportedOp);
      } else if sp < np {
        Halt(TrapStackOverflow);
      } else {
        mail := Mail(fn, stack[sp - np..sp], nr);
        sp := sp - np;
        status := HostcallPending;
      }
    }

    method LoadOp(nbytes: nat, signed: bool, wide: bool, off: nat, addr: Word) returns (r: AluResult)
      requires Valid()
      ensures var e := EvalLoad(StoreView(), nbytes, signed, wide, off, addr);
        e == (if r.Val? then Done(StoreView(), r.values) else Fault(r.status))
    {
      var ea := addr % TWO32 + off;
      if nbytes == 0 || nbytes > 8 || nbytes > memSize || ea > memSize - nbytes {
        return Bad(TrapMemOob);
      }
      var v := LinearMemory.LoadLe(mem, ea, nbytes);
      if signed {
        LinearMemory.Sext64IsSignExtend(v, nbytes * 8);
        v := LinearMemory.Sext64(v, nbytes * 8);
        if !wide {
          v := v % TWO32;
        }
      } else if !wide && nbytes < 8 {
        v := v % TWO32;
      }
      r := Val([v]);
    }

    method StoreOp(nbytes: nat, off: nat, addr: Word, v: Word) returns (r: AluResult)
      requires Valid()
      modifies mem
      ensures var e := EvalStore(old(StoreView()), nbytes, off, addr, v);
        if r.Val? then e == Done(StoreView(), r.values) else e == Fault(r.status) && StoreView() == old(StoreView())
    {
      hide Memory.Store;
      var ea := addr % TWO32 + off;
      if nbytes == 0 || nbytes > 8 || nbytes > memSize || ea > memSize - nbytes {
        return Bad(TrapMemOob);
      }
      LinearMemory.StoreLe(mem, ea, nbytes, v);
      r := Val([]);
    }

    method GrowOp(delta: Word) returns (r: AluResult)
      requires Valid()
      modifies this`memSize
      ensures Valid() && r.Val? && EvalGrow(old(StoreView()), delta) == Done(StoreView(), r.values)
    {
      var before := memSize / Memory.WASM_PAGE;
      var pages := before + delta % TWO32;
      if pages > mem.Length / Memory.WASM_PAGE || pages > 65536 {
        r := Val([TWO32 - 1]);
      } else {
        memSize := pages * Memory.WASM_PAGE;
        r := Val([before % TWO32]);
      }
    }

    method CopyOp(dst: Word, src: Word, n: Word) returns (r: AluResult)
      requires Valid()
      modifies mem
      ensures var e := EvalCopy(old(StoreView()), dst, src, n);
        if r.Val? then e == Done(StoreView(), r.values) else e == Fault(r.status) && StoreView() == old(StoreView())
    {
      hide Memory.Moved;
      var d, from, len := dst % TWO32, src % TWO32, n % TWO32;
      if from + len > memSize || d + len > memSize {
        return Bad(TrapMemOob);
      }
      LinearMemory.CopyWithin(mem, from, d, len);
      r := Val([]);
    }

    method FillOp(dst: Word, v: Word, n: Word) returns (r: AluResult)
      requires Valid()
      modifies mem
      ensures var e := EvalFill(old(StoreView()), dst, v, n);
        if r.Val? then e == Done(StoreView(), r.values) else e == Fault(r.status) && StoreView() == old(StoreView())
    {
      hide Memory.Written;
      var d, len := dst % TWO32, n % TWO32;
      if d + len > memSize {
        return Bad(TrapMemOob);
      }
      LinearMemory.Write(mem, d, Memory.Repeated(v % 256, len));
      r := Val([]);
    }

    method InitOp(segments: seq<seq<Byte>>, seg: nat, dst: Word, src: Word, n: Word) returns (r: AluResult)
      requires Valid()
      modifies mem
      ensures var e := EvalInit(segments, old(StoreView()), seg, dst, src, n);
        if r.Val? then e == Done(StoreView(), r.values) else e == Fault(r.status) && StoreView() == old(StoreView())
    {
      hide Memory.Written;
      var d, from, len := dst % TWO32, src % TWO32, n % TWO32;
      if seg >= live.Length {
        return Bad(TrapMemOob);
      }
      var data := if live[seg] && seg < |segments| then segments[seg] else [];
      if from + len > |data| || d + len > memSize {
        return Bad(TrapMemOob);
      }
      LinearMemory.Write(mem, d, data[from..from + len]);
      r := Val([]);
    }

    /** The straight-line cases of the switch, operands already popped. */
    method Apply(segments: seq<seq<Byte>>, p: Plain, args: seq<Word>) returns (r: AluResult)
      requires Valid() && |args| == Pops(p)
      modifies this`memSize, globals, mem, live
      ensures Valid()
      ensures var e := Eval(segments, p, old(StoreView()), args);
        if r.Val? then e == Done(StoreView(), r.values) else e == Fault(r.status) && StoreView() == old(StoreView())
    {
      hide AluEval, EvalLoad, EvalStore, EvalGrow, EvalCopy, EvalFill, EvalInit;
      match p
      case Arith(op) => r := Compute(op, args);
      case Drop => r := Val([]);
      case Select => r := Val([if args[2] % TWO32 != 0 then args[0] else args[1]]);
      case GlobalGet(g) => r := if g >= globals.Length then Bad(UnsupportedOp) else Val([globals[g]]);
      case GlobalSet(g) =>
        if g >= globals.Length {
          r := Bad(UnsupportedOp);
        } else {
          globals[g] := args[0];
          r := Val([]);
        }
      case Load(n, signed, wide, off) => r := LoadOp(n, signed, wide, off, args[0]);
      case StoreMem(n, off) => r := StoreOp(n, off, args[0], args[1]);
      case MemorySize => r := Val([(memSize / Memory.WASM_PAGE) % TWO32]);
      case MemoryGrow => r := GrowOp(args[0]);
      case MemoryCopy => r := CopyOp(args[0], args[1], args[2]);
      case MemoryFill => r := FillOp(args[0], args[1], args[2]);
      case MemoryInit(seg) => r := InitOp(segments, seg, args[0], args[1], args[2]);
      case DataDrop(seg) =>
        if seg >= live.Length {
          r := Bad(TrapMemOob);
        } else {
          live[seg] := false;
          r := Val([]);
        }
    }

    method Straight(m: Module, p: Plain)
      requires Valid() && status == Running
      modifies this, stack, globals, mem, live
      ensures Valid() && View() == StepSimple(m, old(View()), p)
    {
      hide Eval, Push;
      var n := Pops(p);
      if sp < n {
        Halt(Undefined);
        return;
      }
      var args := stack[sp - n..sp];
      assert args == stack[..][sp - n..sp];
      var r := Apply(m.segments, p, args);
      assert stack[..] == old(stack[..]) && frames[..csp] == old(frames[..csp]);
      assert View() == old(View()).(store := StoreView());
      Settle(p, r);
    }

    /** Pop the operands of a straight-line instruction, then trap or push what it computed. */
    method Settle(p: Plain, r: AluResult)
      requires Valid() && status == Running && sp >= Pops(p)
      modifies this, stack
      ensures Valid()
      ensures var v := old(View());
        View() == match r
                  case Bad(st) => Trap(v.(sp := v.sp - FaultPops(p)), st)
                  case Val(ws) => Push(v.(sp := v.sp - Pops(p)), ws)
    {
      hide Push;
      match r
      case Bad(st) =>
        sp := sp - FaultPops(p);
        Halt(st);
      case Val(ws) =>
        sp := sp - Pops(p);
        PushAll(ws);
    }

    /** One turn of the interpreter loop: fetch, advance, switch. */
    method StepOnce(m: Module)
      requires Valid() && status == Running
      modifies this, stack, frames, globals, mem, live
      ensures Valid() && View() == Step(m, old(View()))
    {
      hide Exec;
      if pc >= |m.code| {
        Halt(TrapUnreachable);
        return;
      }
      var op := m.code[pc];
      pc := pc + 1;
      Dispatch(m, op);
    }

    method Dispatch(m: Module, op: CuOp)
      requires Valid() && status == Running
      modifies this, stack, frames, globals, mem, live
      ensures Valid() && View() == Exec(m, op, old(View()))
    {
      hide StepConst, StepLocalGet, StepLocalSet, StepSimple, StepUnwind, StepBr, StepBrIfNot, StepCall, StepReturnCall,
           StepCallIndirect, StepCallHost, StepReturn;
      match op
      case Const(k) => LoadConst(m, k);
      case LocalGet(x) => LocalGet(x);
      case LocalSet(x) => LocalSet(x);
      case Simple(p) => Straight(m, p);
      case Unwind(keep, b) => Unwind(keep, b);
      case _ => Control(m, op);
    }

    method Control(m: Module, op: CuOp)
      requires Valid() && status == Running
      requires !op.Const? && !op.LocalGet? && !op.LocalSet? && !op.Simple? && !op.Unwind?
      modifies this, stack, frames
      ensures Valid() && View() == Exec(m, op, old(View()))
    {
      hide StepBr, StepBrIfNot, StepCall, StepReturnCall, StepCallIndirect, StepCallHost, StepReturn;
      match op
      case Br(t) => Branch(t);
      case BrIfNot(t) => BranchIfNot(t);
      case Call(f) => Call(m, f);
      case ReturnCall(f) => ReturnCall(m, f);
      case CallIndirect(t) => CallIndirect(m, t);
      case CallHost(np, nr, fn) => CallHost(np, nr, fn);
      case Return => Return();
      case EndFunc => Return();
      case Unreachable => Halt(TrapUnreachable);
      case Unknown => Halt(UnsupportedOp);
    }

    /** `run_instance`: at most `maxSteps` turns of the loop. */
    method RunInstance(m: Module, maxSteps: nat)
      requires Valid() && status == Running
      modifies this, stack, frames, globals, mem, live
      ensures Valid() && View() == RunSlice(m, old(View()), maxSteps)
    {
      hide Step;
      var step := 0;
      while step < maxSteps && status == Running
        invariant Valid() && step <= maxSteps
        invariant RunSlice(m, View(), maxSteps - step) == RunSlice(m, old(View()), maxSteps)
      {
        StepOnce(m);
        step := step + 1;
      }
    }

    /** The driver's answer to a pending host call. */
    method AnswerHost(host: Host)
      requires Valid() && status == HostcallPending
      modifies this, stack
      ensures Valid() && View() == Resume(host, old(View()))
    {
      hide Push;
      log := log + [HostEvent(mail.fn, mail.args, mail.nResults, mem[..])];
      status := Running;
      match host(log)
      case None => Halt(UnsupportedOp);
      case Some(rs) =>
        if |rs| > 1 {
          Halt(Undefined);
        } else {
          PushAll(rs);
        }
    }

    /** One turn of the driver's loop. The memory view is rebuilt from the saved size, or is the one first built. */
    method Turn(m: Module, host: Host, maxSteps: nat, size: nat, rebuild: bool) returns (stopped: bool)
      requires Valid() && !Final(status) && size <= mem.Length
      modifies this, stack, frames, globals, mem, live
      ensures Valid()
      ensures View() == DriverRound(m, host, old(View()), maxSteps, size, rebuild)
      ensures stopped <==> HostStops(host, old(View()))
    {
      hide RunSlice, Resume;
      stopped := false;
      if status == HostcallPending {
        AnswerHost(host);
        stopped := status != Running;
      }
      SliceStops(m, View(), maxSteps);
      if status == Running {
        if !rebuild {
          memSize := size;
        }
        RunInstance(m, maxSteps);
      }
    }

    /** The driver loop, for a run that has ended after `r` rounds; says whether it returned at a host call. */
    method RunRounds(m: Module, host: Host, maxSteps: nat, size: nat, rebuild: bool, ghost r: nat)
      returns (stopped: bool)
      requires Valid() && size <= mem.Length
      requires Final(Driven(m, host, View(), maxSteps, size, rebuild, r).status)
      modifies this, stack, frames, globals, mem, live
      ensures Valid() && View() == Driven(m, host, old(View()), maxSteps, size, rebuild, r)
      ensures stopped <==> HostStopped(m, host, old(View()), maxSteps, size, rebuild, r)
    {
      hide DriverRound, Driven, HostStops, HostStopped;
      ghost var i := 0;
      stopped := false;
      while !Final(status)
        invariant Valid() && i <= r
        invariant Driven(m, host, View(), maxSteps, size, rebuild, r - i)
               == Driven(m, host, old(View()), maxSteps, size, rebuild, r)
        invariant HostStopped(m, host, old(View()), maxSteps, size, rebuild, r) <==>
          stopped || HostStopped(m, host, View(), maxSteps, size, rebuild, r - i)
        decreases r - i
      {
        assert i < r by { NoRounds(m, host, View(), maxSteps, size, rebuild, r - i); }
        DrivenStep(m, host, View(), maxSteps, size, rebuild, r - i);
        StoppedNext(m, host, View(), maxSteps, size, rebuild, r - i);
        var stops := Turn(m, host, maxSteps, size, rebuild);
        stopped := stopped || stops;
        i := i + 1;
      }
      NeverStopped(m, host, View(), maxSteps, size, rebuild, r - i);
      DrivenStays(m, host, View(), maxSteps, size, rebuild, r - i);
    }
  }

  /** The state after `r` rounds of either driver. */
  ghost function Driven(m: Module, host: Host, vm: Vm, maxSteps: nat, size: nat, rebuild: bool, r: nat): Vm
    requires size <= |vm.store.mem|
  {
    if rebuild then Rounds(m, host, vm, maxSteps, r) else CpuRounds(m, host, vm, maxSteps, size, r)
  }

  /** One round of either driver. */
  ghost function DriverRound(m: Module, host: Host, vm: Vm, maxSteps: nat, size: nat, rebuild: bool): Vm
    requires size <= |vm.store.mem|
  {
    if rebuild then Round(m, host, vm, maxSteps) else CpuRound(m, host, vm, maxSteps, size)
  }

  /** The driver returns from a pending host call: the host refused, or its result did not fit. */
  predicate HostStops(host: Host, vm: Vm) { vm.status == HostcallPending && Answer(host, vm).status != Running }

  /** It does so within `r` rounds. Then, and only then, it leaves the module's memory size as it was. */
  ghost predicate HostStopped(m: Module, host: Host, vm: Vm, maxSteps: nat, size: nat, rebuild: bool, r: nat)
    requires size <= |vm.store.mem|
    decreases r
  {
    r > 0 && (HostStops(host, vm) ||
              (var w := DriverRound(m, host, vm, maxSteps, size, rebuild);
               size <= |w.store.mem| && HostStopped(m, host, w, maxSteps, size, rebuild, r - 1)))
  }

  lemma StoppedNext(m: Module, host: Host, vm: Vm, maxSteps: nat, size: nat, rebuild: bool, r: nat)
    requires size <= |vm.store.mem| && r > 0
    ensures var w := DriverRound(m, host, vm, maxSteps, size, rebuild);
      size <= |w.store.mem| ==>
        (HostStopped(m, host, vm, maxSteps, size, rebuild, r) <==>
         HostStops(host, vm) || HostStopped(m, host, w, maxSteps, size, rebuild, r - 1))
  {
    hide DriverRound, HostStops;
  }

  lemma {:induction false} NeverStopped(m: Module, host: Host, vm: Vm, maxSteps: nat, size: nat, rebuild: bool, r: nat)
    requires size <= |vm.store.mem| && Final(vm.status)
    ensures !HostStopped(m, host, vm, maxSteps, size, rebuild, r)
    decreases r
  {
    hide RunSlice;
    SliceStops(m, vm, maxSteps);
    if r > 0 { NeverStopped(m, host, vm, maxSteps, size, rebuild, r - 1); }
  }

  /** A driver that stops at a host call ends with the status of a refusal, or with a full stack. */
  lemma {:induction false} StoppedStatus(m: Module, host: Host, vm: Vm, maxSteps: nat, size: nat, rebuild: bool, r: nat)
    requires size <= |vm.store.mem| && HostStopped(m, host, vm, maxSteps, size, rebuild, r)
    ensures Driven(m, host, vm, maxSteps, size, rebuild, r).status in {UnsupportedOp, TrapStackOverflow, Undefined}
    decreases r
  {
    hide RunSlice, Round, CpuRound;
    DrivenStep(m, host, vm, maxSteps, size, rebuild, r);
    var w := DriverRound(m, host, vm, maxSteps, size, rebuild);
    if HostStops(host, vm) {
      StopRound(m, host, vm, maxSteps, size, rebuild);
      DrivenStays(m, host, w, maxSteps, size, rebuild, r - 1);
    } else {
      StoppedStatus(m, host, w, maxSteps, size, rebuild, r - 1);
    }
  }

  lemma StopRound(m: Module, host: Host, vm: Vm, maxSteps: nat, size: nat, rebuild: bool)
    requires size <= |vm.store.mem| && HostStops(host, vm)
    ensures var w := DriverRound(m, host, vm, maxSteps, size, rebuild);
      Final(w.status) && w.status in {UnsupportedOp, TrapStackOverflow, Undefined} && |w.store.mem| == |vm.store.mem|
  {
    hide RunSlice;
    SliceStops(m, Answer(host, vm), maxSteps);
  }

  lemma DrivenStep(m: Module, host: Host, vm: Vm, maxSteps: nat, size: nat, rebuild: bool, r: nat)
    requires size <= |vm.store.mem| && r > 0
    ensures var w := DriverRound(m, host, vm, maxSteps, size, rebuild);
      size <= |w.store.mem| ==>
        Driven(m, host, vm, maxSteps, size, rebuild, r) == Driven(m, host, w, maxSteps, size, rebuild, r - 1)
  {
    hide Round, CpuRound;
    StoreLengths(m, host, vm, maxSteps, size);
  }

  lemma {:induction false} DrivenStays(m: Module, host: Host, vm: Vm, maxSteps: nat, size: nat, rebuild: bool, r: nat)
    requires Final(vm.status) && size <= |vm.store.mem|
    ensures Driven(m, host, vm, maxSteps, size, rebuild, r) == vm
    decreases r
  {
    hide RunSlice;
    SliceStops(m, vm, maxSteps);
    if r > 0 { DrivenStays(m, host, vm, maxSteps, size, rebuild, r - 1); }
  }

  /** The drivers read `nResults` words off the stack array, without looking where it ends. */
  function Handed(f: FuncMeta, st: Status): Status {
    if st == Ok && f.nResults > STACK_CAP then Undefined else st
  }

  /** The drivers: entry checks, then slices until the machine stops. `run_cpu` starts every slice with the memory size
      `size` its view was built with; the kernel rebuilds the view. The run is given by the number `r` of rounds after
      which it has ended; what is left in the globals, memory, segment flags and memory size is what those rounds lead
      to, except that a refused host call leaves the memory size as it was. */
  method Drive(m: Module, host: Host, g: nat, args: seq<Word>, globals: array<Word>, mem: array<Byte>, size: nat,
               live: array<bool>, maxSteps: nat, rebuild: bool, ghost r: nat)
    returns (status: Status, results: seq<Word>, newSize: nat)
    requires size <= mem.Length
    requires (globals as object) != mem && (live as object) != globals && (live as object) != mem
    requires g < |m.funcs| && |args| == m.funcs[g].nParams ==>
      Final(Driven(m, host, Start(m.funcs[g], args, Store(globals[..], mem[..], size, live[..], [])), maxSteps, size,
                   rebuild, r).status)
    modifies globals, mem, live
    ensures g >= |m.funcs| || |args| != m.funcs[g].nParams ==>
      status == UnsupportedOp && results == [] && newSize == size
    ensures g < |m.funcs| && |args| == m.funcs[g].nParams ==>
      var s := Store(old(globals[..]), old(mem[..]), size, old(live[..]), []);
      var e := Driven(m, host, Start(m.funcs[g], args, s), maxSteps, size, rebuild, r);
      status == Handed(m.funcs[g], e.status) &&
      results == (if status == Ok then e.stack[..m.funcs[g].nResults] else []) &&
      globals[..] == e.store.globals && mem[..] == e.store.mem && live[..] == e.store.live &&
      newSize == if HostStopped(m, host, Start(m.funcs[g], args, s), maxSteps, size, rebuild, r) then size
                 else e.store.memSize
  {
    results, newSize := [], size;
    if g >= |m.funcs| || |args| != m.funcs[g].nParams {
      return UnsupportedOp, [], size;
    }
    hide Start, Driven, HostStopped;
    var vm := new Instance(m.funcs[g], args, globals, mem, size, live);
    var stopped := vm.RunRounds(m, host, maxSteps, size, rebuild, r);
    if !stopped {
      newSize := vm.memSize;
    }
    status := Handed(m.funcs[g], vm.status);
    if status == Ok {
      results := vm.stack[..m.funcs[g].nResults];
    }
  }

  lemma NoRounds(m: Module, host: Host, vm: Vm, maxSteps: nat, size: nat, rebuild: bool, r: nat)
    requires size <= |vm.store.mem|
    ensures r == 0 ==> Driven(m, host, vm, maxSteps, size, rebuild, r) == vm
  {
  }
}
