/** What holds of every program the translator accepts: its code means what the program means, and halts. */
module EndToEnd {
  import opened Words
  import opened Bytecode
  import opened Machine
  import opened Frames
  import opened Limits
  import opened Wasm
  import opened Emission
  import opened Simulation
  import opened Preservation
  import opened Targets
  import Slices
  import Meaning
  import Termination

  // ----- lowering preserves meaning -----

  /** The interpreter's state and the program's outcome tell the same story; a function returns `nr` results. */
  ghost predicate SameStory(o: Outcome, nr: nat, vm: Vm) {
    match o
    case Returned(vs, s) => vm.status == Status.Ok && |vs| == nr <= STACK_CAP && vm.stack[..|vs|] == vs && vm.store == s
    case Trapped(st, s) => vm.status == st && TrapStatus(st) && vm.store == s
    case _ => false
  }

  lemma {:induction false} NeverUndefined(m: Module, host: Host, am: Am, c: nat, j: nat)
    requires ATicks(m, host, am, c).status != Undefined && j <= c
    ensures ATicks(m, host, am, j).status != Undefined
  {
    hide ATicks;
    Then(m, host, am, j, c - j);
    if Final(ATicks(m, host, am, j).status) { AFinalStays(m, host, ATicks(m, host, am, j), c - j); }
  }

  /** A run from the entry of a translated function never leaves its activations; so it ends in a limit status exactly
      when a limit was reached. */
  lemma LimitsShown(p: Program, m: Module, host: Host, pools: seq<seq<Word>>, f: nat, args: seq<Word>, s: Store, k: nat)
    requires World(p, m, host, pools) && f < |p.funcs| && p.funcs[f].Local? && p.funcs[f].ty < |p.types| &&
      f < |m.funcs|
    requires |args| == NumParams(p, f) && |args| + m.funcs[f].nLocals <= STACK_CAP
    ensures var vm := Entry(m.funcs[f], args, s);
      ResourceTrap(Ticks(m, host, vm, k).status) <==> LimitHit(m, host, vm, k)
    ensures forall j :: 0 <= j <= k ==> ATicks(m, host, AEntry(m.funcs[f], args, s), j).status != Undefined
  {
    hide ATicks, Ticks, ExecFunc, IsImage, Entry, AEntry, LimitHit;
    var g := m.funcs[f];
    MetaOf(p, m, pools, f);
    var am := AEntry(g, args, s);
    var home := Home(Bottom, 0, g.nResults, g.nParams + g.nLocals);
    EntryHere(g, args, s, p.funcs[f].nLocals, home);
    var c, am' := SimFunc(p, m, host, pools, f, args, s, k + 1, am, home);
    StoryOf(p, m, host, f, args, s, k + 1, am, home, c, am');
    forall j | 0 <= j <= k
      ensures ATicks(m, host, am, j).status != Undefined
    {
      if j <= c {
        NeverUndefined(m, host, am, c, j);
      } else {
        Then(m, host, am, c, j - c);
        AFinalStays(m, host, am', j - c);
      }
    }
    EntryRel(m, g, args, s);
    EntryRuns(g, args, s);
    LimitsTold(m, host, Entry(g, args, s), am, k);
  }

  lemma EntryRuns(g: FuncMeta, args: seq<Word>, s: Store)
    requires |args| + g.nLocals <= STACK_CAP
    ensures Entry(g, args, s).status == Running
  {
  }

  /** A call of a defined function, from the driver's entry state: with any amount `n` of source fuel, some number `c`
      of interpreter ticks ends as the program does, or a limit of the machine is reached on the way; and if the
      program is still running when its fuel is gone, the interpreter is still running after at least `n` ticks. */
  lemma MeaningPreserved(p: Program, m: Module, host: Host, pools: seq<seq<Word>>, f: nat, args: seq<Word>, s: Store,
                         n: nat) returns (c: nat)
    requires World(p, m, host, pools) && f < |p.funcs| && p.funcs[f].Local? && p.funcs[f].ty < |p.types| &&
      f < |m.funcs|
    requires |args| == NumParams(p, f) && |args| + m.funcs[f].nLocals <= STACK_CAP
    ensures var vm0, o := Entry(m.funcs[f], args, s), ExecFunc(p, host, f, args, s, n);
      var vm := Ticks(m, host, vm0, c);
      (LimitHit(m, host, vm0, c) && ResourceTrap(vm.status)) || SameStory(o, m.funcs[f].nResults, vm) ||
      (o.Timeout? && vm.status == Running && c >= n)
  {
    hide ATicks, Ticks, ExecFunc, IsImage, Entry, AEntry, LimitHit;
    var g := m.funcs[f];
    MetaOf(p, m, pools, f);
    var am := AEntry(g, args, s);
    var home := Home(Bottom, 0, g.nResults, g.nParams + g.nLocals);
    EntryHere(g, args, s, p.funcs[f].nLocals, home);
    var am';
    c, am' := SimFunc(p, m, host, pools, f, args, s, n, am, home);
    StoryOf(p, m, host, f, args, s, n, am, home, c, am');
    LimitsShown(p, m, host, pools, f, args, s, c);
    EntryRel(m, g, args, s);
    TicksRefine(m, host, Entry(g, args, s), am, c);
  }

  lemma EntryHere(g: FuncMeta, args: seq<Word>, s: Store, nl: nat, home: Home)
    requires |args| == g.nParams && nl <= g.nLocals && home == Home(Bottom, 0, g.nResults, g.nParams + g.nLocals)
    ensures Here(AEntry(g, args, s), g.codeOff, home, args + seq(nl, _ => 0), [], s)
  {
    assert (args + Zeros(g.nLocals))[..|args| + nl] == args + seq(nl, _ => 0);
  }

  lemma StoryOf(p: Program, m: Module, host: Host, f: nat, args: seq<Word>, s: Store, n: nat, am: Am, home: Home,
                c: nat, am': Am)
    requires f < |p.funcs| && p.funcs[f].Local? && p.funcs[f].ty < |p.types| && home.below == Bottom
    requires Called(p, m, host, f, args, s, n, am, home, c, am')
    ensures am' == ATicks(m, host, am, c) && am'.status != Undefined
    ensures var o := ExecFunc(p, host, f, args, s, n);
      ResourceTrap(am'.status) ||
      (o.Returned? && am'.status == Status.Ok && am'.results == o.vals && |o.vals| == home.nResults &&
        am'.store == o.store) ||
      (o.Trapped? && am'.status == o.status && TrapStatus(am'.status) && am'.store == o.store) ||
      (o.Timeout? && am'.status == Running && c >= n)
  {
    hide ATicks, ExecFunc;
  }

  /** The other direction: whenever the interpreter ends without having reached a limit, the program means exactly that,
      already with fuel one more than the ticks taken. So nothing is computed that the program does not mean. */
  lemma ResultIsMeaning(p: Program, m: Module, host: Host, pools: seq<seq<Word>>, f: nat, args: seq<Word>, s: Store,
                        k: nat)
    requires World(p, m, host, pools) && f < |p.funcs| && p.funcs[f].Local? && p.funcs[f].ty < |p.types| &&
      f < |m.funcs|
    requires |args| == NumParams(p, f) && |args| + m.funcs[f].nLocals <= STACK_CAP
    requires var vm0 := Entry(m.funcs[f], args, s);
      Final(Ticks(m, host, vm0, k).status) && !LimitHit(m, host, vm0, k)
    ensures SameStory(ExecFunc(p, host, f, args, s, k + 1), m.funcs[f].nResults,
                      Ticks(m, host, Entry(m.funcs[f], args, s), k))
  {
    hide Ticks, ExecFunc, IsImage, Entry, LimitHit;
    var vm0 := Entry(m.funcs[f], args, s);
    LimitsShown(p, m, host, pools, f, args, s, k);
    var c := MeaningPreserved(p, m, host, pools, f, args, s, k + 1);
    if c > k {
      Slices.TicksAdd(m, host, vm0, k, c - k);
      Slices.FinalStays(m, host, Ticks(m, host, vm0, k), c - k);
    } else {
      Slices.TicksAdd(m, host, vm0, c, k - c);
      if Final(Ticks(m, host, vm0, c).status) { Slices.FinalStays(m, host, Ticks(m, host, vm0, c), k - c); }
    }
  }

  /** Both directions at once, whatever the fuel: if the program has an outcome, a run that ends without reaching a
      limit ends with it, and some run length does end. */
  lemma Agreement(p: Program, m: Module, host: Host, pools: seq<seq<Word>>, f: nat, args: seq<Word>, s: Store, n: nat,
                  k: nat) returns (c: nat)
    requires World(p, m, host, pools) && f < |p.funcs| && p.funcs[f].Local? && p.funcs[f].ty < |p.types| &&
      f < |m.funcs|
    requires |args| == NumParams(p, f) && |args| + m.funcs[f].nLocals <= STACK_CAP
    requires ExecFunc(p, host, f, args, s, n) != Timeout
    ensures Final(Ticks(m, host, Entry(m.funcs[f], args, s), c).status)
    ensures var vm0 := Entry(m.funcs[f], args, s);
      Final(Ticks(m, host, vm0, k).status) && !LimitHit(m, host, vm0, k) ==>
      SameStory(ExecFunc(p, host, f, args, s, n), m.funcs[f].nResults, Ticks(m, host, vm0, k))
  {
    hide Ticks, ExecFunc, IsImage, Entry, LimitHit;
    c := MeaningPreserved(p, m, host, pools, f, args, s, n);
    var vm0 := Entry(m.funcs[f], args, s);
    if Final(Ticks(m, host, vm0, k).status) && !LimitHit(m, host, vm0, k) {
      ResultIsMeaning(p, m, host, pools, f, args, s, k);
      if n <= k + 1 {
        Meaning.MeaningUnique(p, host, f, args, s, n, k + 1);
      } else {
        Meaning.MeaningUnique(p, host, f, args, s, k + 1, n);
      }
    }
  }

  /** Exactly when a call comes back: the program has an outcome, or a limit of the machine is reached. */
  lemma HaltingCondition(p: Program, m: Module, host: Host, pools: seq<seq<Word>>, f: nat, args: seq<Word>, s: Store)
    requires World(p, m, host, pools) && f < |p.funcs| && p.funcs[f].Local? && p.funcs[f].ty < |p.types| &&
      f < |m.funcs|
    requires |args| == NumParams(p, f) && |args| + m.funcs[f].nLocals <= STACK_CAP
    ensures var vm0 := Entry(m.funcs[f], args, s);
      (exists k: nat :: Final(Ticks(m, host, vm0, k).status)) <==>
      (exists n: nat :: ExecFunc(p, host, f, args, s, n) != Timeout) || (exists k: nat :: LimitHit(m, host, vm0, k))
  {
    hide Ticks, ExecFunc, IsImage, Entry, LimitHit;
    var vm0 := Entry(m.funcs[f], args, s);
    if k: nat :| Final(Ticks(m, host, vm0, k).status) {
      if !LimitHit(m, host, vm0, k) {
        ResultIsMeaning(p, m, host, pools, f, args, s, k);
        assert ExecFunc(p, host, f, args, s, k + 1) != Timeout;
      }
    }
    if n: nat :| ExecFunc(p, host, f, args, s, n) != Timeout {
      var c := Agreement(p, m, host, pools, f, args, s, n, 0);
    }
    if k: nat :| LimitHit(m, host, vm0, k) {
      LimitsShown(p, m, host, pools, f, args, s, k);
    }
  }

  // ----- lowered code halts -----

  ghost predicate TailFree(p: Program) {
    forall f :: 0 <= f < |p.funcs| && p.funcs[f].Local? ==> !BodyHasTail(p.funcs[f].body)
  }

  /** The pcs of the functions of the module; anything else in its code is never run. */
  function OwnedPcs(m: Module): set<nat> { set q: nat, f: nat | f < |m.funcs| && q < |m.code| && Owns(m, f, q) :: q }

  /** Built code leads only to built code: branches stay in their function, conditional ones go strictly forward,
      control does not run off the end of a function, and calls go to functions with a body. */
  lemma BuiltGuarded(p: Program, m: Module, pools: seq<seq<Word>>)
    requires Built(p, m, pools) && TailFree(p)
    ensures Termination.Guarded(m, OwnedPcs(m))
  {
    forall q | q in OwnedPcs(m) && q < |m.code|
      ensures Termination.Onward(m, OwnedPcs(m), q)
    {
      var f: nat :| f < |m.funcs| && Owns(m, f, q);
      PlacedOp(p, m, pools, f, q);
    }
  }

  lemma PlacedOp(p: Program, m: Module, pools: seq<seq<Word>>, f: nat, q: nat)
    requires Built(p, m, pools) && TailFree(p) && Owns(m, f, q) && q < |m.code|
    ensures Termination.Onward(m, OwnedPcs(m), q)
  {
    hide EmitFunc, BodyHasTail, LoopsIn, Termination.Onward;
    assert f >= p.nImports;
    assert FuncBuilt(p, m, f, pools[f]);
    var off := m.funcs[f].codeOff;
    var e := EmitFunc(p, f, off, pools[f]).value;
    FuncAimed(p, f, off, pools[f]);
    var env := EnvOf(p, f);
    LocalFunc(p, f, off, pools[f]);
    var code := FuncCode(e.code, off);
    assert code[q - off] == m.code[off..off + |code|][q - off] == m.code[q];
    if q - off < |e.code| {
      assert m.code[q] == ResolveOne(e.code[q - off], [off + |e.code|]);
      OwnedTarget(m, f, q + 1);
      OnwardFrom(p, m, pools, f, q, e.code[q - off], off + |e.code|);
    } else {
      EndOnward(m, q);
    }
  }

  lemma LocalFunc(p: Program, f: nat, off: nat, pool: seq<Word>)
    requires f < |p.funcs| && p.funcs[f].Local? && p.funcs[f].ty < |p.types|
    ensures var e := EmitFunc(p, f, off, pool); e.Some? ==> LocalCalls(p, e.value.code)
  {
    hide EmitBody;
    var env := EnvOf(p, f);
    BodyLocal(env, p.funcs[f].body, off, Tracked(0, false, pool), [Label(None, 0, env.nResults)], true);
  }

  lemma EndOnward(m: Module, q: nat)
    requires q < |m.code| && m.code[q] == EndFunc
    ensures Termination.Onward(m, OwnedPcs(m), q)
  {
  }

  lemma OwnedTarget(m: Module, f: nat, t: nat)
    requires f < |m.funcs| && m.funcs[f].codeOff <= t < m.funcs[f].codeOff + m.funcs[f].codeLen
    ensures Termination.Safe(m, OwnedPcs(m), t)
  {
    if t < |m.code| { assert Owns(m, f, t); }
  }

  /** Where a function with a body starts. */
  lemma StartSafe(p: Program, m: Module, pools: seq<seq<Word>>, g: nat)
    requires Built(p, m, pools) && g < |p.funcs| && p.funcs[g].Local?
    ensures g < |m.funcs| && Termination.Safe(m, OwnedPcs(m), m.funcs[g].codeOff)
  {
    hide EmitFunc;
    assert FuncBuilt(p, m, g, pools[g]);
    OwnedTarget(m, g, m.funcs[g].codeOff);
  }

  lemma OnwardFrom(p: Program, m: Module, pools: seq<seq<Word>>, f: nat, q: nat, x: Sym, end: nat)
    requires Built(p, m, pools) && Owns(m, f, q) && q < |m.code| && m.code[q] == ResolveOne(x, [end])
    requires Termination.Safe(m, OwnedPcs(m), q + 1)
    requires x.op.Call? ==> x.op.f < |p.funcs| && p.funcs[x.op.f].Local?
    requires var off, len := m.funcs[f].codeOff, m.funcs[f].codeLen;
      match m.code[q]
      case BrIfNot(t) => q < t < off + len
      case Br(t) => off <= t < off + len
      case ReturnCall(_) => false
      case _ => true
    ensures Termination.Onward(m, OwnedPcs(m), q)
  {
    hide OwnedPcs, FuncBuilt;
    match m.code[q]
    case BrIfNot(t) => OwnedTarget(m, f, t);
    case Br(t) => OwnedTarget(m, f, t);
    case Call(g) => StartSafe(p, m, pools, g);
    case CallIndirect(_) =>
      forall i | 0 <= i < |m.table| && m.table[i] < |m.funcs| && m.table[i] != TABLE_NULL
        ensures Termination.Safe(m, OwnedPcs(m), m.funcs[m.table[i]].codeOff)
      {
        StartSafe(p, m, pools, p.table[i]);
      }
    case _ =>
  }

  /** Termination: every run of a translated tail-call-free program ends, from any state inside its functions and
      whatever the host answers. */
  lemma LoweredHalts(p: Program, m: Module, host: Host, pools: seq<seq<Word>>, vm: Vm) returns (k: nat)
    requires Built(p, m, pools) && TailFree(p) && Termination.Inside(m, OwnedPcs(m), vm)
    ensures Final(Ticks(m, host, vm, k).status)
  {
    hide Ticks;
    BuiltGuarded(p, m, pools);
    k := Termination.Halts(m, host, OwnedPcs(m), vm);
  }

  /** All together: a call into a translated program that makes no tail calls, or has an outcome with some amount of
      `fuel`, ends, and either it reached a limit of the machine or its status, results, memory, globals and host calls
      are what the program means. */
  lemma TotalCorrectness(p: Program, m: Module, host: Host, pools: seq<seq<Word>>, f: nat, args: seq<Word>, s: Store,
                         fuel: nat)
    returns (k: nat)
    requires World(p, m, host, pools)
    requires f < |p.funcs| && p.funcs[f].Local? && p.funcs[f].ty < |p.types| && f < |m.funcs|
    requires TailFree(p) || ExecFunc(p, host, f, args, s, fuel) != Timeout
    requires |args| == NumParams(p, f) && |args| + m.funcs[f].nLocals <= STACK_CAP
    ensures var vm0 := Entry(m.funcs[f], args, s);
      var vm := Ticks(m, host, vm0, k);
      Final(vm.status) && (ResourceTrap(vm.status) <==> LimitHit(m, host, vm0, k)) &&
      (LimitHit(m, host, vm0, k) || SameStory(ExecFunc(p, host, f, args, s, k + 1), m.funcs[f].nResults, vm))
  {
    hide Ticks, ExecFunc, Entry, IsImage, TailFree, LimitHit;
    var vm0 := Entry(m.funcs[f], args, s);
    if TailFree(p) {
      EntryInside(p, m, pools, f, args, s);
      k := LoweredHalts(p, m, host, pools, vm0);
    } else {
      k := Agreement(p, m, host, pools, f, args, s, fuel, 0);
    }
    LimitsShown(p, m, host, pools, f, args, s, k);
    if !LimitHit(m, host, vm0, k) {
      ResultIsMeaning(p, m, host, pools, f, args, s, k);
    }
  }

  lemma EntryInside(p: Program, m: Module, pools: seq<seq<Word>>, f: nat, args: seq<Word>, s: Store)
    requires Built(p, m, pools) && f < |p.funcs| && p.funcs[f].Local? && f < |m.funcs|
    requires |args| + m.funcs[f].nLocals <= STACK_CAP
    ensures Termination.Inside(m, OwnedPcs(m), Entry(m.funcs[f], args, s))
  {
    hide FuncBuilt, OwnedPcs;
    StartSafe(p, m, pools, f);
  }
}
