/** The whole way: a structured program, lowered, verified, and run by a driver in slices on real arrays, gives what the
    program means. */
module Pipeline {
  import opened Words
  import opened Bytecode
  import opened Machine
  import opened Limits
  import opened Wasm
  import opened Slices
  import opened EndToEnd
  import opened Simulation
  import opened Safety
  import opened Verifier
  import opened Verifying
  import opened Emission
  import opened Stubs
  import Interpreter
  import Preservation
  import Translator
  import Completeness

  /** What a caller of the driver sees, and what the program means. The driver hands back the memory size `size'`;
      after a trap it may be the old one, because a refused host call does not write it back. */
  ghost predicate Means(o: Outcome, status: Status, results: seq<Word>, globals: seq<Word>, mem: seq<Byte>,
                        live: seq<bool>, size: nat, size': nat)
  {
    match o
    case Returned(vs, s) =>
      && status == Status.Ok && results == vs && globals == s.globals && mem == s.mem && live == s.live
      && size' == s.memSize
    case Trapped(st, s) =>
      && status == st && results == [] && globals == s.globals && mem == s.mem && live == s.live
      && (size' == s.memSize || (st == UnsupportedOp && size' == size))
    case _ => false
  }

  /** The rounds a driver needs for a halting run; the CPU driver only where the memory size cannot change under it. */
  lemma RoundsToEnd(m: Module, host: Host, vm: Vm, maxSteps: nat, rebuild: bool, k: nat)
    requires maxSteps >= 1 && (rebuild || SizeFixed(m, vm.store)) && Final(Ticks(m, host, vm, k).status)
    ensures Interpreter.Driven(m, host, vm, maxSteps, vm.store.memSize, rebuild, k) == Ticks(m, host, vm, k)
  {
    hide Ticks, Rounds, CpuRounds;
    if !rebuild { StaleViewHarmless(m, host, vm, maxSteps, k); }
    var j := RoundsAreTicks(m, host, vm, maxSteps, k);
    SameFinal(m, host, vm, k, j);
  }

  lemma CallMeta(p: Program, m: Module, pools: seq<seq<Word>>, f: nat)
    requires IsImage(p, m, pools) && f < |p.funcs| && p.funcs[f].Local? && p.funcs[f].ty < |p.types|
    ensures f < |m.funcs| && m.funcs[f].nParams == NumParams(p, f) && m.funcs[f].nResults <= STACK_CAP
    ensures m.funcs[f].nLocals == EnvOf(p, f).nLocals
  {
    hide EmitFunc;
    Preservation.MetaOf(p, m, pools, f);
    assert FuncBuilt(p, m, f, pools[f]);
    assert |p.types[p.funcs[f].ty].results| <= 8;
  }

  /** How the call of `f` on store `s` ended after `n` ticks: at a limit that was reached on the way, or as the program
      means. */
  ghost predicate Ended(p: Program, m: Module, host: Host, f: nat, args: seq<Word>, s: Store, n: nat, status: Status,
                        results: seq<Word>, globals: seq<Word>, mem: seq<Byte>, live: seq<bool>, size': nat)
    requires f < |m.funcs|
  {
    var vm0 := Start(m.funcs[f], args, s);
    && f < |p.funcs| && p.funcs[f].Local? && p.funcs[f].ty < |p.types|
    && status == Ticks(m, host, vm0, n).status && Final(status)
    && (ResourceTrap(status) <==> LimitHit(m, host, vm0, n))
    && (LimitHit(m, host, vm0, n) ||
        Means(ExecFunc(p, host, f, args, s, n + 1), status, results, globals, mem, live, s.memSize, size'))
  }

  /** The call needs no limit to come back: the program makes no tail calls, or it has an outcome with this fuel. */
  ghost predicate ComesBack(p: Program, host: Host, f: nat, args: seq<Word>, s: Store, fuel: nat) {
    && f < |p.funcs| && p.funcs[f].Local? && p.funcs[f].ty < |p.types|
    && (TailFree(p) || ExecFunc(p, host, f, args, s, fuel) != Timeout)
  }

  /** Run function `f` of a translated program on the given globals, memory and segment flags, where the program makes
      no tail calls or has an outcome with some amount of `fuel`. The call always comes back, for every slice length and
      through either driver, and what it leaves is what the program means, unless a limit of the machine was reached or
      the entry frame is larger than the whole stack. */
  method RunTranslated(ghost p: Program, m: Module, host: Host, ghost pools: seq<seq<Word>>, f: nat, args: seq<Word>,
                       globals: array<Word>, mem: array<Byte>, size: nat, live: array<bool>, maxSteps: nat,
                       rebuild: bool, ghost fuel: nat)
    returns (status: Status, results: seq<Word>, size': nat, ghost n: nat)
    requires World(p, m, host, pools) && maxSteps >= 1
    requires f < |p.funcs| && p.funcs[f].Local? && p.funcs[f].ty < |p.types| && f < |m.funcs|
    requires |args| == NumParams(p, f)
    requires size <= mem.Length && (globals as object) != mem && (live as object) != globals && (live as object) != mem
    requires ComesBack(p, host, f, args, Store(globals[..], mem[..], size, live[..], []), fuel)
    requires rebuild || SizeFixed(m, Store(globals[..], mem[..], size, live[..], []))
    modifies globals, mem, live
    ensures if |args| + m.funcs[f].nLocals > STACK_CAP then status == Undefined else
      Ended(p, m, host, f, args, Store(old(globals[..]), old(mem[..]), size, old(live[..]), []), n, status,
            results, globals[..], mem[..], live[..], size')
  {
    hide Ticks, ExecFunc, IsImage, TailFree, Interpreter.Driven, Interpreter.HostStopped, SizeFixed, WellTyped,
      LimitHit, Start;
    ghost var s := Store(globals[..], mem[..], size, live[..], []);
    ghost var vm0 := Start(m.funcs[f], args, s);
    CallMeta(p, m, pools, f);
    StartIsEntry(m.funcs[f], args, s);
    n := 0;
    if |args| + m.funcs[f].nLocals <= STACK_CAP {
      n := TotalCorrectness(p, m, host, pools, f, args, s, fuel);
    } else {
      FinalStays(m, host, vm0, n);
    }
    RoundsToEnd(m, host, vm0, maxSteps, rebuild, n);
    if Interpreter.HostStopped(m, host, vm0, maxSteps, size, rebuild, n) {
      Interpreter.StoppedStatus(m, host, vm0, maxSteps, size, rebuild, n);
    }
    status, results, size' := Interpreter.Drive(m, host, f, args, globals, mem, size, live, maxSteps, rebuild, n);
  }

  /** The program the translator really translates: refused bodies are stubs. */
  ghost function Translated(p: Program): (p': Program)
    requires WellFormed(p)
    ensures SameHeads(p, p')
  {
    Stubbed(p, Completeness.Unfit(p))
  }

  lemma TranslatedWorld(p: Program)
    requires Translator.Translatable(p) && WellTyped(p)
    ensures WellFormed(p) && WellTyped(Translated(p)) && (TailFree(p) ==> TailFree(Translated(p)))
    ensures Completeness.Lowerable(p) ==> Translated(p) == p
    ensures Narrow(Translated(p)) <==>
      forall f :: p.nImports <= f < |p.funcs| && f !in Completeness.Unfit(p) ==> FuncNarrow(p, f)
    ensures forall f :: 0 <= f < |p.funcs| ==> SameHead(p.funcs[f], Translated(p).funcs[f])
  {
    hide TypeBody, FuncNarrow, Completeness.FuncFits;
    if Completeness.Lowerable(p) {
      assert Completeness.Unfit(p) == {};
      StubNothing(p);
    }
    StubbedTyped(p, Completeness.Unfit(p));
    StubbedNarrow(p, Completeness.Unfit(p));
  }

  /** Translate, verify and run. Nothing is assumed of the translated module. It is accepted exactly when no kept
      function of the program has a reachable point of more than 65535 slots; then the run always comes back, and what
      it leaves is what the program means, with a trap in place of every refused body, unless a limit of the machine
      was reached or the entry frame is larger than the whole stack. Nothing is touched if the verifier refuses. The
      program makes no tail calls, or has an outcome with some amount of `fuel`. */
  method CompileAndRun(p: Program, host: Host, f: nat, args: seq<Word>, globals: array<Word>, mem: array<Byte>,
                       size: nat, live: array<bool>, maxSteps: nat, ghost fuel: nat)
    returns (accepted: bool, status: Status, results: seq<Word>, size': nat, ghost m: Module,
      ghost pools: seq<seq<Word>>,
             ghost n: nat)
    requires Translator.Translatable(p) && WellTyped(p) && TableDefined(p)
    requires WellBehaved(host) && maxSteps >= 1
    requires f < |p.funcs| && p.funcs[f].Local? && p.funcs[f].ty < |p.types|
    requires |args| == NumParams(p, f)
    requires size <= mem.Length && (globals as object) != mem && (live as object) != globals && (live as object) != mem
    requires ComesBack(Translated(p), host, f, args, Store(globals[..], mem[..], size, live[..], []), fuel)
    modifies globals, mem, live
    ensures WellFormed(p) && Built(Translated(p), m, pools) && (accepted <==> Narrow(Translated(p)))
    ensures Completeness.Lowerable(p) ==> Translated(p) == p
    ensures f < |m.funcs| && SameHead(p.funcs[f], Translated(p).funcs[f])
    ensures accepted ==>
      if |args| + m.funcs[f].nLocals > STACK_CAP then status == Undefined else
      Ended(Translated(p), m, host, f, args, Store(old(globals[..]), old(mem[..]), size, old(live[..]), []), n, status,
            results, globals[..], mem[..], live[..], size')
    ensures !accepted ==>
      status == UnsupportedOp && results == [] && size' == size &&
      globals[..] == old(globals[..]) && mem[..] == old(mem[..]) && live[..] == old(live[..])
  {
    hide ExecFunc, IsImage, TailFree, WellTyped, Ended, WellBehaved, Narrow, Accepted, Completeness.Unfit, Recorded;
    TranslatedWorld(p);
    ghost var p' := Translated(p);
    var lowered, constants, refused := Translator.LowerProgram(p);
    pools := constants;
    var code := lowered.value;
    m := code;
    CallMeta(p', m, pools, f);
    LoweredVerifies(p', m, pools);
    var maxStack;
    accepted, maxStack := VerifyCuop(code);
    if !accepted {
      status, results, size', n := UnsupportedOp, [], size, 0;
      return;
    }
    status, results, size', n := RunTranslated(p', code, host, pools, f, args, globals, mem, size, live, maxSteps,
      true, fuel);
  }

  /** Safety of the same chain: from the verifier's own answer on the translation of a well-typed program, with a host
      that answers as declared and an entry frame that fits the stack, no run leaves the arrays, and at every
      instruction boundary the frame of the running function is at most its recorded `max_stack`. */
  lemma TranslatedRunsAreSafe(p: Program, m: Module, host: Host, pools: seq<seq<Word>>, maxStack: seq<nat>, f: nat,
                              args: seq<Word>, s: Store, k: nat) returns (hts: Heights, fi: nat)
    requires World(p, m, host, pools) && f < |p.funcs| && p.funcs[f].Local? && p.funcs[f].ty < |p.types|
    requires |args| == NumParams(p, f) && f < |m.funcs| && |args| + m.funcs[f].nLocals <= STACK_CAP
    requires Accepted(m) && |maxStack| == |m.funcs|
    requires forall i :: 0 <= i < |m.funcs| ==> Recorded(m, i, maxStack[i])
    ensures Assigned(m, hts)
    ensures var vm := Ticks(m, host, Entry(m.funcs[f], args, s), k);
      vm.status != Undefined &&
      (vm.status == Running ==> InFunction(m, hts, vm, fi) && vm.sp - vm.fp <= maxStack[fi])
  {
    hide Ticks, Entry, InFunction, Recorded, Accepted, Least, Below, WellTyped, FuncBuilt;
    CallMeta(p, m, pools, f);
    FuncZone(p, m, pools, f);
    var any := Assignments(m);
    var least := RecordedHeights(m, any, maxStack);
    forall i | p.nImports <= i < |p.funcs|
      ensures m.funcs[i].codeLen > 0
    {
      FuncZone(p, m, pools, i);
    }
    LeastLinked(p, m, pools, least);
    hts, fi := StackBound(m, host, least, maxStack, f, args, s, k);
  }
}
