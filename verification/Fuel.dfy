/** Fuel over whole runs: what a call has, what spends it, and when it is gone. */
module Fuel {
  import opened Words
  import opened Bytecode
  import opened Machine
  import Memory

  /** The next tick takes a BR whose target is not beyond the pc behind it. */
  predicate JumpsBack(m: Module, v: Vm) {
    v.status == Running && v.pc < |m.code| && m.code[v.pc].Br? && m.code[v.pc].target <= v.pc + 1
  }

  /** How many of the first `k` ticks do so. */
  function BackJumps(m: Module, host: Host, v: Vm, k: nat): (n: nat)
    ensures n <= k
    decreases k
  {
    if k == 0 then 0 else (if JumpsBack(m, v) then 1 else 0) + BackJumps(m, host, Tick(m, host, v), k - 1)
  }

  /** Fuel and status in step: it is gone exactly when the run has ended for that reason. */
  predicate InStep(v: Vm) { v.fuel >= 0 && (v.status == OutOfFuel <==> v.fuel == 0) }

  lemma SimpleKeepsFuel(m: Module, v: Vm, p: Plain)
    requires v.status == Running
    ensures StepSimple(m, v, p).fuel == v.fuel && StepSimple(m, v, p).status != OutOfFuel
  {
    hide Eval;
  }

  lemma CallKeepsFuel(m: Module, v: Vm, op: CuOp)
    requires v.status == Running && (op.Call? || op.ReturnCall? || op.CallIndirect? || op.Return? || op.EndFunc?)
    ensures Exec(m, op, v).fuel == v.fuel && Exec(m, op, v).status != OutOfFuel
  {
    hide Lookup, Memory.Moved, Memory.Written;
  }

  lemma TickFuel(m: Module, host: Host, v: Vm)
    requires InStep(v)
    ensures InStep(Tick(m, host, v)) && Tick(m, host, v).fuel == v.fuel - (if JumpsBack(m, v) then 1 else 0)
  {
    hide StepSimple, StepCall, StepReturnCall, StepCallIndirect, StepReturn, Memory.Moved, Memory.Written;
    if v.status == Running && v.pc < |m.code| {
      var op, w := m.code[v.pc], v.(pc := v.pc + 1);
      if op.Simple? {
        SimpleKeepsFuel(m, w, op.p);
      } else if op.Call? || op.ReturnCall? || op.CallIndirect? || op.Return? || op.EndFunc? {
        CallKeepsFuel(m, w, op);
      }
    }
  }

  lemma {:induction false} TicksFuel(m: Module, host: Host, v: Vm, k: nat)
    requires InStep(v)
    ensures InStep(Ticks(m, host, v, k)) && Ticks(m, host, v, k).fuel == v.fuel - BackJumps(m, host, v, k)
    decreases k
  {
    hide Tick, InStep;
    if k > 0 {
      TickFuel(m, host, v);
      TicksFuel(m, host, Tick(m, host, v), k - 1);
    }
  }

  /** Every call of every module has fuel for 10^12 backward jumps: each costs one, nothing else costs any, and the run
      ends out of fuel exactly when that many have been made. */
  lemma FuelLaw(m: Module, host: Host, f: FuncMeta, args: seq<Word>, s: Store, k: nat)
    ensures var v := Start(f, args, s);
      var jumps := BackJumps(m, host, v, k);
      Ticks(m, host, v, k).fuel == 1_000_000_000_000 - jumps &&
      (Ticks(m, host, v, k).status == OutOfFuel <==> jumps == 1_000_000_000_000)
  {
    hide Ticks, Memory.Written;
    TicksFuel(m, host, Start(f, args, s), k);
  }

  /** So no shorter run ends for lack of fuel. */
  lemma ShortRuns(m: Module, host: Host, f: FuncMeta, args: seq<Word>, s: Store, k: nat)
    requires k < 1_000_000_000_000
    ensures Ticks(m, host, Start(f, args, s), k).status != OutOfFuel
  {
    hide Ticks, Start;
    FuelLaw(m, host, f, args, s, k);
  }
}
