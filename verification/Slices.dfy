/** Bounded slices and host-call suspension: `run_instance` stops after `max_steps` instructions or at a host call, and
    the driver (run.cpp) keeps calling it. The cuts do not show in the result. */
module Slices {
  import opened Words
  import opened Bytecode
  import opened Machine
  import Memory

  /** One call of `run_instance`. */
  function RunSlice(m: Module, vm: Vm, maxSteps: nat): Vm
    decreases maxSteps
  {
    if maxSteps == 0 || vm.status != Running then vm else RunSlice(m, Step(m, vm), maxSteps - 1)
  }

  function Answer(host: Host, vm: Vm): Vm {
    if vm.status == HostcallPending then Resume(host, vm) else vm
  }

  /** One turn of the driver's loop: answer a pending host call, then run a slice if the machine is still running. The
      memory view is rebuilt from the saved memory size. */
  function Round(m: Module, host: Host, vm: Vm, maxSteps: nat): Vm {
    RunSlice(m, Answer(host, vm), maxSteps)
  }

  function Rounds(m: Module, host: Host, vm: Vm, maxSteps: nat, r: nat): Vm
    decreases r
  {
    if r == 0 then vm else Rounds(m, host, Round(m, host, vm, maxSteps), maxSteps, r - 1)
  }

  lemma {:induction false} TicksAdd(m: Module, host: Host, vm: Vm, j: nat, k: nat)
    ensures Ticks(m, host, Ticks(m, host, vm, j), k) == Ticks(m, host, vm, j + k)
    decreases j
  {
    hide Tick;
    if j > 0 { TicksAdd(m, host, Tick(m, host, vm), j - 1, k); }
  }

  lemma {:induction false} FinalStays(m: Module, host: Host, vm: Vm, k: nat)
    requires Final(vm.status)
    ensures Ticks(m, host, vm, k) == vm
    decreases k
  {
    hide Step, Resume;
    if k > 0 { FinalStays(m, host, vm, k - 1); }
  }

  /** A slice is some number of ticks, and makes progress when there is any to be made. */
  lemma {:induction false} SliceIsTicks(m: Module, host: Host, vm: Vm, maxSteps: nat) returns (j: nat)
    ensures RunSlice(m, vm, maxSteps) == Ticks(m, host, vm, j)
    ensures maxSteps >= 1 && vm.status == Running ==> j >= 1
    decreases maxSteps
  {
    hide Step, Resume;
    j := 0;
    if maxSteps > 0 && vm.status == Running {
      j := SliceIsTicks(m, host, Step(m, vm), maxSteps - 1);
      assert Tick(m, host, vm) == Step(m, vm);
      j := j + 1;
    }
  }

  lemma RoundIsTicks(m: Module, host: Host, vm: Vm, maxSteps: nat) returns (j: nat)
    requires maxSteps >= 1
    ensures Round(m, host, vm, maxSteps) == Ticks(m, host, vm, j)
    ensures !Final(vm.status) ==> j >= 1
  {
    hide Step, Resume, RunSlice;
    j := SliceIsTicks(m, host, Answer(host, vm), maxSteps);
    if vm.status == HostcallPending {
      assert Tick(m, host, vm) == Resume(host, vm);
      assert Ticks(m, host, vm, j + 1) == Ticks(m, host, Tick(m, host, vm), j);
      j := j + 1;
    }
  }

  lemma {:induction false} RoundsAreTicks(m: Module, host: Host, vm: Vm, maxSteps: nat, r: nat) returns (j: nat)
    requires maxSteps >= 1
    ensures Rounds(m, host, vm, maxSteps, r) == Ticks(m, host, vm, j)
    ensures j >= r || Final(Ticks(m, host, vm, j).status)
    decreases r
  {
    hide Tick, Round;
    j := 0;
    if r > 0 {
      var i := RoundIsTicks(m, host, vm, maxSteps);
      var v := Round(m, host, vm, maxSteps);
      var l := RoundsAreTicks(m, host, v, maxSteps, r - 1);
      TicksAdd(m, host, vm, i, l);
      j := i + l;
      if Final(vm.status) { FinalStays(m, host, vm, j); }
    }
  }

  /** Slice and suspend independence: if a run cut into slices of `a` steps ends, the run cut into slices of `b` steps
      ends too, in the very same state: status, stack, frames, fuel, globals, memory and host log. */
  lemma SliceIndependence(m: Module, host: Host, vm: Vm, a: nat, b: nat, r: nat) returns (r': nat)
    requires a >= 1 && b >= 1 && Final(Rounds(m, host, vm, a, r).status)
    ensures Rounds(m, host, vm, b, r') == Rounds(m, host, vm, a, r)
  {
    hide Ticks, Rounds;
    var i := RoundsAreTicks(m, host, vm, a, r);
    r' := i;
    var j := RoundsAreTicks(m, host, vm, b, r');
    SameFinal(m, host, vm, i, j);
  }

  lemma SameFinal(m: Module, host: Host, vm: Vm, i: nat, j: nat)
    requires Final(Ticks(m, host, vm, i).status)
    requires j >= i || Final(Ticks(m, host, vm, j).status)
    ensures Ticks(m, host, vm, i) == Ticks(m, host, vm, j)
  {
    hide Tick;
    if i <= j {
      TicksAdd(m, host, vm, i, j - i);
      FinalStays(m, host, Ticks(m, host, vm, i), j - i);
    } else {
      TicksAdd(m, host, vm, j, i - j);
      FinalStays(m, host, Ticks(m, host, vm, j), i - j);
    }
  }

  // ----- what memory keeps through a run -----

  /** Bytes beyond the accessible size are zero, and sizes are whole pages. */
  ghost predicate ZeroBeyond(s: Store) {
    s.memSize % Memory.WASM_PAGE == 0 && forall i :: s.memSize <= i < |s.mem| ==> s.mem[i] == 0
  }

  /** No page is left to grow into. */
  predicate Full(s: Store) {
    s.memSize % Memory.WASM_PAGE == 0 && s.memSize / Memory.WASM_PAGE == |s.mem| / Memory.WASM_PAGE
  }

  lemma EvalKeepsZero(segments: seq<seq<Byte>>, p: Plain, s: Store, args: seq<Word>)
    requires |args| == Pops(p) && ZeroBeyond(s)
    ensures var e := Eval(segments, p, s, args);
      e.Done? ==>
        ZeroBeyond(e.store) && |e.store.mem| == |s.mem| && e.store.memSize >= s.memSize && e.store.log == s.log
  {
    hide AluEval, Memory.Load, Memory.Bytes, LoadValue;
    if p.MemoryGrow? {
      GrowKeepsZero(s, args[0]);
    }
  }

  lemma GrowKeepsZero(s: Store, delta: Word)
    requires ZeroBeyond(s)
    ensures ZeroBeyond(EvalGrow(s, delta).store) && EvalGrow(s, delta).store.memSize >= s.memSize
  {
    var before := s.memSize / Memory.WASM_PAGE;
    assert s.memSize == before * Memory.WASM_PAGE;
  }

  /** The effect of the straight-line instruction the machine is about to run, if it is at one. */
  function SimpleEffect(m: Module, vm: Vm): Option<Effect> {
    if vm.pc < |m.code| && m.code[vm.pc].Simple? && Pops(m.code[vm.pc].p) <= vm.sp then
      var p := m.code[vm.pc].p;
      Some(Eval(m.segments, p, vm.store, vm.stack[vm.sp - Pops(p)..vm.sp]))
    else None
  }

  /** A step changes the store only through `Eval`. */
  lemma StepStore(m: Module, vm: Vm)
    requires vm.status == Running
    ensures Step(m, vm).store == vm.store ||
      (SimpleEffect(m, vm).Some? && SimpleEffect(m, vm).value.Done? &&
        Step(m, vm).store == SimpleEffect(m, vm).value.store)
  {
    hide Eval, Memory.Moved, Memory.Written, Lookup;
  }

  /** Grown pages read as zero: along every run, every byte past the accessible size stays zero and the size never
      shrinks. */
  lemma {:induction false} RunsKeepZeroBeyond(m: Module, host: Host, vm: Vm, k: nat)
    requires ZeroBeyond(vm.store)
    ensures var s := Ticks(m, host, vm, k).store;
      ZeroBeyond(s) && |s.mem| == |vm.store.mem| && s.memSize >= vm.store.memSize
    decreases k
  {
    hide Step, Eval;
    if k > 0 {
      if vm.status == Running {
        StepStore(m, vm);
        if Step(m, vm).store != vm.store {
          var p := m.code[vm.pc].p;
          EvalKeepsZero(m.segments, p, vm.store, vm.stack[vm.sp - Pops(p)..vm.sp]);
        }
      }
      RunsKeepZeroBeyond(m, host, Tick(m, host, vm), k - 1);
    }
  }

  // ----- the CPU driver's memory view -----

  /** `run_cpu` builds its memory view once, before the loop, so each of its slices starts from that first size. */
  function CpuRound(m: Module, host: Host, vm: Vm, maxSteps: nat, size: nat): Vm
    requires size <= |vm.store.mem|
  {
    var v := Answer(host, vm);
    if v.status != Running then v
    else RunSlice(m, v.(store := v.store.(memSize := size)), maxSteps)
  }

  lemma StoreLengths(m: Module, host: Host, vm: Vm, maxSteps: nat, size: nat)
    requires size <= |vm.store.mem|
    ensures |CpuRound(m, host, vm, maxSteps, size).store.mem| == |vm.store.mem|
  {
    hide Step, RunSlice;
    var v := Answer(host, vm);
    if v.status == Running {
      SliceLength(m, v.(store := v.store.(memSize := size)), maxSteps);
    }
  }

  lemma {:induction false} SliceLength(m: Module, vm: Vm, maxSteps: nat)
    ensures |RunSlice(m, vm, maxSteps).store.mem| == |vm.store.mem|
    decreases maxSteps
  {
    hide Step;
    if maxSteps > 0 && vm.status == Running {
      StepLength(m, vm);
      SliceLength(m, Step(m, vm), maxSteps - 1);
    }
  }

  lemma StepLength(m: Module, vm: Vm)
    requires vm.status == Running
    ensures |Step(m, vm).store.mem| == |vm.store.mem|
  {
    hide Step, Eval;
    StepStore(m, vm);
    if Step(m, vm).store != vm.store {
      var p := m.code[vm.pc].p;
      EvalLength(m.segments, p, vm.store, vm.stack[vm.sp - Pops(p)..vm.sp]);
    }
  }

  lemma EvalLength(segments: seq<seq<Byte>>, p: Plain, s: Store, args: seq<Word>)
    requires |args| == Pops(p)
    ensures var e := Eval(segments, p, s, args); e.Done? ==> |e.store.mem| == |s.mem|
    ensures var e := Eval(segments, p, s, args); e.Done? && (!p.MemoryGrow? || Full(s)) ==> e.store.memSize == s.memSize
  {
    hide AluEval, Memory.Load, Memory.Bytes, LoadValue;
    if p.MemoryGrow? && Full(s) {
      var before := s.memSize / Memory.WASM_PAGE;
      assert s.memSize == before * Memory.WASM_PAGE;
    }
  }

  function CpuRounds(m: Module, host: Host, vm: Vm, maxSteps: nat, size: nat, r: nat): Vm
    requires size <= |vm.store.mem|
    decreases r
  {
    if r == 0 then vm
    else
      StoreLengths(m, host, vm, maxSteps, size);
      CpuRounds(m, host, CpuRound(m, host, vm, maxSteps, size), maxSteps, size, r - 1)
  }

  ghost predicate GrowFree(m: Module) {
    forall pc :: 0 <= pc < |m.code| ==> m.code[pc] != Simple(MemoryGrow)
  }

  /** The memory size cannot change: the program never grows memory, or memory has no room to grow. */
  ghost predicate SizeFixed(m: Module, s: Store) { GrowFree(m) || Full(s) }

  lemma {:induction false} SliceKeepsSize(m: Module, vm: Vm, maxSteps: nat)
    requires SizeFixed(m, vm.store)
    ensures var s := RunSlice(m, vm, maxSteps).store;
      s.memSize == vm.store.memSize && |s.mem| == |vm.store.mem|
    decreases maxSteps
  {
    hide Step, Eval;
    if maxSteps > 0 && vm.status == Running {
      StepStore(m, vm);
      if Step(m, vm).store != vm.store {
        var p := m.code[vm.pc].p;
        EvalLength(m.segments, p, vm.store, vm.stack[vm.sp - Pops(p)..vm.sp]);
      }
      SliceKeepsSize(m, Step(m, vm), maxSteps - 1);
    }
  }

  /** Where the size is fixed, the stale view is no different: `run_cpu` is the driver with the rebuilt view, and so is
      independent of its slices. */
  lemma {:induction false} StaleViewHarmless(m: Module, host: Host, vm: Vm, maxSteps: nat, r: nat)
    requires SizeFixed(m, vm.store)
    ensures CpuRounds(m, host, vm, maxSteps, vm.store.memSize, r) == Rounds(m, host, vm, maxSteps, r)
    decreases r
  {
    hide Step, RunSlice;
    if r > 0 {
      var v := Answer(host, vm);
      assert v.store.memSize == vm.store.memSize && v.store.(memSize := vm.store.memSize) == v.store;
      SliceKeepsSize(m, v, maxSteps);
      assert v.status != Running ==> RunSlice(m, v, maxSteps) == v by { SliceStops(m, v, maxSteps); }
      StaleViewHarmless(m, host, Round(m, host, vm, maxSteps), maxSteps, r - 1);
    }
  }

  lemma SliceStops(m: Module, vm: Vm, maxSteps: nat)
    ensures vm.status != Running ==> RunSlice(m, vm, maxSteps) == vm
  {
  }

  /** Grow by one page, then report the size. */
  function GrowProbe(): Module {
    Module([Const(0), Simple(MemoryGrow), Simple(Drop), Simple(MemorySize), EndFunc],
           [1], [FuncMeta(0, 5, 0, 1, 0)], 0, [], [], [], [])
  }

  const MEM_MAX_PAGES: nat := 1024

  /** A memory as the translator lays it out: whole pages within the reservation, at most 1024 of them. */
  predicate Paged(s: Store) {
    s.memSize % Memory.WASM_PAGE == 0 && |s.mem| <= MEM_MAX_PAGES * Memory.WASM_PAGE
  }

  /** The probe started on store `s`, after its first three instructions and with the accessible size `size`. */
  function Probed(s: Store, size: nat): Vm
    requires size <= |s.mem|
  {
    var w: Word := Low(W32, s.memSize / Memory.WASM_PAGE);
    Vm(3, 0, 0, [Frame(0, 0, 0, 1)], INITIAL_FUEL, Running, [w] + Zeros(STACK_CAP - 1),
       s.(memSize := size), Mail(0, [], 0))
  }

  lemma SimpleStep(m: Module, vm: Vm, p: Plain, s: Store, ws: seq<Word>)
    requires vm.status == Running && vm.pc < |m.code| && m.code[vm.pc] == Simple(p) && Pops(p) <= vm.sp
    requires Eval(m.segments, p, vm.store, vm.stack[vm.sp - Pops(p)..vm.sp]) == Done(s, ws)
    requires vm.sp - Pops(p) + |ws| <= STACK_CAP
    ensures var at := vm.sp - Pops(p);
      Step(m, vm) == vm.(pc := vm.pc + 1, store := s, sp := at + |ws|, stack := Memory.Written(vm.stack, at, ws))
  {
    hide Eval, Memory.Written;
    assert ws[..|ws|] == ws;
  }

  lemma GrowOnePage(m: Module, s: Store)
    requires Paged(s) && !Full(s)
    ensures s.memSize + Memory.WASM_PAGE <= |s.mem|
    ensures Eval(m.segments, MemoryGrow, s, [1]) ==
      Done(s.(memSize := s.memSize + Memory.WASM_PAGE), [Low(W32, s.memSize / Memory.WASM_PAGE)])
  {
    var pages := s.memSize / Memory.WASM_PAGE;
    assert (pages + 1) * Memory.WASM_PAGE == s.memSize + Memory.WASM_PAGE;
  }

  lemma ProbeGrows(s: Store)
    requires Paged(s) && !Full(s)
    ensures s.memSize + Memory.WASM_PAGE <= |s.mem|
    ensures var v := Entry(GrowProbe().funcs[0], [], s);
      var v1, v2 := Step(GrowProbe(), v), Step(GrowProbe(), Step(GrowProbe(), v));
      v.status == Running && v1.status == Running && v2.status == Running &&
      Step(GrowProbe(), v2) == Probed(s, s.memSize + Memory.WASM_PAGE)
  {
    hide Eval;
    var m := GrowProbe();
    var v := Entry(m.funcs[0], [], s);
    assert v.stack == Zeros(STACK_CAP);
    var v1 := v.(pc := 1, sp := 1, stack := [1] + Zeros(STACK_CAP - 1));
    assert Step(m, v) == v1 by {
      assert Memory.Written(v.stack, 0, [1]) == v1.stack;
      assert [1][..1] == [1];
    }
    hide Step;
    GrowOnePage(m, s);
    assert v1.stack[0..1] == [1];
    var w := Low(W32, s.memSize / Memory.WASM_PAGE);
    var grown := s.(memSize := s.memSize + Memory.WASM_PAGE);
    SimpleStep(m, v1, MemoryGrow, grown, [w]);
    assert Memory.Written(v1.stack, 0, [w]) == [w] + Zeros(STACK_CAP - 1);
    var v2 := Step(m, v1);
    DropStep(m, v2);
  }

  lemma DropStep(m: Module, vm: Vm)
    requires vm.status == Running && vm.pc < |m.code| && m.code[vm.pc] == Simple(Drop) && vm.sp > 0
    ensures Step(m, vm) == vm.(pc := vm.pc + 1, sp := vm.sp - 1)
  {
    assert Memory.Written(vm.stack, vm.sp - 1, []) == vm.stack;
  }

  lemma SizeEval(segments: seq<seq<Byte>>, s: Store)
    requires |s.mem| <= MEM_MAX_PAGES * Memory.WASM_PAGE
    ensures var w: Word := s.memSize / Memory.WASM_PAGE; Eval(segments, MemorySize, s, []) == Done(s, [w])
  {
  }

  lemma SizeStep(s: Store, size: nat)
    requires size <= |s.mem| <= MEM_MAX_PAGES * Memory.WASM_PAGE
    ensures var w: Word, v := size / Memory.WASM_PAGE, Probed(s, size);
      Step(GrowProbe(), v) == v.(pc := 4, sp := 1, stack := Memory.Written(v.stack, 0, [w]))
  {
    hide Step, Memory.Written, Eval;
    var m, v := GrowProbe(), Probed(s, size);
    var w: Word := size / Memory.WASM_PAGE;
    SizeEval(m.segments, v.store);
    assert v.stack[0..0] == [];
    SimpleStep(m, v, MemorySize, v.store, [w]);
  }

  lemma TwoSteps(m: Module, v: Vm, a: nat)
    requires a >= 2 && v.status == Running && Step(m, v).status == Running && Final(Step(m, Step(m, v)).status)
    ensures RunSlice(m, v, a) == Step(m, Step(m, v))
  {
    hide Step;
    var v1 := Step(m, v);
    assert RunSlice(m, v, a) == RunSlice(m, v1, a - 1) == RunSlice(m, Step(m, v1), a - 2);
  }

  /** From there the probe ends in two steps with the number of pages its view shows. */
  lemma ProbeReports(s: Store, size: nat, a: nat)
    requires size <= |s.mem| <= MEM_MAX_PAGES * Memory.WASM_PAGE && a >= 2
    ensures var e := RunSlice(GrowProbe(), Probed(s, size), a);
      e.status == Ok && e.stack[0] == size / Memory.WASM_PAGE
  {
    hide Step, RunSlice;
    SizeStep(s, size);
    ProbeReturns(Step(GrowProbe(), Probed(s, size)));
    TwoSteps(GrowProbe(), Probed(s, size), a);
  }

  lemma ProbeReturns(vm: Vm)
    requires vm.status == Running && vm.pc == 4 && vm.sp == 1 && vm.frames == [Frame(0, 0, 0, 1)]
    ensures Step(GrowProbe(), vm).status == Ok && Step(GrowProbe(), vm).stack[0] == vm.stack[0]
  {
    assert Step(GrowProbe(), vm) == StepReturn(vm.(pc := 5));
  }

  /** Two ways of cutting the same `run_cpu` call that both end must end alike. */
  ghost predicate CpuSliceIndependent(s: Store) {
    forall m: Module, host: Host, f: FuncMeta, args: seq<Word>, a: nat, b: nat, r: nat, q: nat ::
      Startable(f, args) && a >= 1 && b >= 1 ==>
      var v := Entry(f, args, s);
      var x, y := CpuRounds(m, host, v, a, s.memSize, r), CpuRounds(m, host, v, b, s.memSize, q);
      Final(x.status) && Final(y.status) ==> x == y
  }

  predicate Startable(f: FuncMeta, args: seq<Word>) {
    |args| == f.nParams && |args| + f.nLocals <= STACK_CAP
  }

  lemma FixedSizeAgrees(m: Module, host: Host, v: Vm, a: nat, b: nat, r: nat, q: nat)
    requires SizeFixed(m, v.store) && a >= 1 && b >= 1
    ensures var x, y := CpuRounds(m, host, v, a, v.store.memSize, r), CpuRounds(m, host, v, b, v.store.memSize, q);
      Final(x.status) && Final(y.status) ==> x == y
  {
    hide Ticks, Rounds, CpuRounds;
    StaleViewHarmless(m, host, v, a, r);
    StaleViewHarmless(m, host, v, b, q);
    var i := RoundsAreTicks(m, host, v, a, r);
    var j := RoundsAreTicks(m, host, v, b, q);
    if Final(Ticks(m, host, v, i).status) && Final(Ticks(m, host, v, j).status) { SameFinal(m, host, v, i, j); }
  }

  /** The probe run in one slice of five steps and in two of three steps reports different sizes. */
  lemma ProbeDiverges(host: Host, s: Store) returns (a: nat, b: nat, r: nat, q: nat)
    requires Paged(s) && !Full(s)
    ensures a >= 1 && b >= 1
    ensures var m := GrowProbe();
      var v := Entry(m.funcs[0], [], s);
      var x, y := CpuRounds(m, host, v, a, s.memSize, r), CpuRounds(m, host, v, b, s.memSize, q);
      x.status == Ok && y.status == Ok && x.stack[0] == y.stack[0] as int + 1
  {
    hide Step, RunSlice, Probed, Entry;
    a, b, r, q := 5, 3, 1, 2;
    var m := GrowProbe();
    var v := Entry(m.funcs[0], [], s);
    var size := s.memSize;
    ProbeGrows(s);
    var grown := size + Memory.WASM_PAGE;
    ProbeReports(s, grown, 2);
    ProbeReports(s, size, b);
    assert grown / Memory.WASM_PAGE == size / Memory.WASM_PAGE + 1;
    ThreeSteps(m, v, a, b);
    ProbeViews(s, size, grown);
    var v2 := Probed(s, grown);
    OneRound(m, host, v, a, size, r);
    OneRound(m, host, v, b, size, q);
    OneRound(m, host, v2, b, size, q - 1);
  }

  lemma ProbeViews(s: Store, size: nat, grown: nat)
    requires size == s.memSize && grown <= |s.mem|
    ensures var v := Entry(GrowProbe().funcs[0], [], s); v.(store := v.store.(memSize := size)) == v
    ensures var v := Probed(s, grown); v.status == Running && v.(store := v.store.(memSize := size)) == Probed(s, size)
  {
  }

  lemma ThreeSteps(m: Module, v: Vm, a: nat, b: nat)
    requires v.status == Running && Step(m, v).status == Running && Step(m, Step(m, v)).status == Running
    requires a == 5 && b == 3
    ensures var w := Step(m, Step(m, Step(m, v))); RunSlice(m, v, a) == RunSlice(m, w, 2) && RunSlice(m, v, b) == w
  {
    hide Step;
    var v1 := Step(m, v);
    var v2 := Step(m, v1);
    assert RunSlice(m, v, a) == RunSlice(m, v1, 4) == RunSlice(m, v2, 3);
    assert RunSlice(m, v, b) == RunSlice(m, v1, 2) == RunSlice(m, v2, 1);
  }

  lemma OneRound(m: Module, host: Host, v: Vm, a: nat, size: nat, r: nat)
    requires v.status == Running && size <= |v.store.mem| && r >= 1
    ensures var w := RunSlice(m, v.(store := v.store.(memSize := size)), a);
      |w.store.mem| == |v.store.mem| && CpuRounds(m, host, v, a, size, r) == CpuRounds(m, host, w, a, size, r - 1)
  {
    hide RunSlice;
    StoreLengths(m, host, v, a, size);
  }

  /** Exactly when `run_cpu` is safe to slice: its results never depend on `max_steps` if and only if memory has no
      page left to grow into. */
  lemma CpuSliceCondition(s: Store)
    requires Paged(s)
    ensures CpuSliceIndependent(s) <==> Full(s)
  {
    hide CpuRounds, Ticks, Step;
    if Full(s) {
      forall m: Module, host: Host, f: FuncMeta, args: seq<Word>, a: nat, b: nat, r: nat, q: nat
        | Startable(f, args) && a >= 1 && b >= 1
        ensures var v := Entry(f, args, s);
          var x, y := CpuRounds(m, host, v, a, s.memSize, r), CpuRounds(m, host, v, b, s.memSize, q);
          Final(x.status) && Final(y.status) ==> x == y
      {
        FixedSizeAgrees(m, host, Entry(f, args, s), a, b, r, q);
      }
    } else {
      var host: Host := log => None;
      var m := GrowProbe();
      var a, b, r, q := ProbeDiverges(host, s);
      var v := Entry(m.funcs[0], [], s);
      var x, y := CpuRounds(m, host, v, a, s.memSize, r), CpuRounds(m, host, v, b, s.memSize, q);
      assert Startable(m.funcs[0], []);
      assert !CpuSliceIndependent(s);
    }
  }
}
