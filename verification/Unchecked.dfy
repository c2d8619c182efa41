/** Why verifier soundness needs its hypotheses: accepted modules whose runs leave the heights, because the verifier
    does not look at how much an UNWIND keeps, at the result count of a tail call's target, or at whether a function
    that is called, directly or through the table, has any code. The driver adds one of its own: it does not look
    whether the arguments and locals of a frame fit its stack. */
module Unchecked {
  import opened Words
  import opened Bytecode
  import opened Machine
  import opened Verifier
  import opened Safety

  /** A caller that pushes 7 and calls a function without results, which pushes 9 and unwinds keeping it below height
      0. */
  function Thief(): Module {
    Module([Const(0), Call(1), EndFunc, Const(1), Unwind(1, 0), EndFunc],
           [7, 9], [FuncMeta(0, 3, 0, 1, 0), FuncMeta(3, 3, 0, 0, 0)], 0, [], [], [], [])
  }

  /** A caller that expects one result from a function that tail-calls one without results. */
  function Mismatch(): Module {
    Module([Call(1), EndFunc, ReturnCall(2), EndFunc, EndFunc],
           [], [FuncMeta(0, 2, 0, 1, 0), FuncMeta(2, 2, 0, 1, 0), FuncMeta(4, 1, 0, 0, 0)], 0, [], [], [], [])
  }

  /** A function with one local that calls an import, whose code starts at 0 and has length 0. */
  function CallsImport(): Module {
    Module([Call(0), EndFunc],
           [], [FuncMeta(0, 0, 0, 0, 0), FuncMeta(0, 2, 0, 0, 1)], 1, [], [], [], [])
  }

  /** The same through a table slot that holds the import. */
  function TablesImport(): Module {
    Module([LocalGet(0), CallIndirect(0), EndFunc],
           [], [FuncMeta(0, 0, 0, 0, 0), FuncMeta(0, 3, 0, 0, 1)], 1, [0], [0, 0], [0], [])
  }

  lemma FuncOk(m: Module, fi: nat, ht: seq<int>)
    requires fi < |m.funcs| && Assignment(m, m.funcs[fi], ht)
    ensures FuncAccepted(m, fi)
  {
    hide NodeOk;
  }

  lemma ThiefFirst()
    ensures Assignment(Thief(), Thief().funcs[0], [0, 1, 1])
  {
  }

  lemma ThiefSecond()
    ensures Assignment(Thief(), Thief().funcs[1], [0, 1, 0])
  {
  }

  lemma ThiefAccepted()
    ensures Accepted(Thief())
  {
    hide Assignment, FuncAccepted;
    ThiefFirst();
    ThiefSecond();
    FuncOk(Thief(), 0, [0, 1, 1]);
    FuncOk(Thief(), 1, [0, 1, 0]);
  }

  lemma MismatchFirst()
    ensures Assignment(Mismatch(), Mismatch().funcs[0], [0, 1])
  {
  }

  lemma MismatchSecond()
    ensures Assignment(Mismatch(), Mismatch().funcs[1], [0, -1])
  {
  }

  lemma MismatchThird()
    ensures Assignment(Mismatch(), Mismatch().funcs[2], [0])
  {
  }

  lemma MismatchAccepted()
    ensures Accepted(Mismatch())
  {
    hide Assignment, FuncAccepted;
    MismatchFirst();
    MismatchSecond();
    MismatchThird();
    FuncOk(Mismatch(), 0, [0, 1]);
    FuncOk(Mismatch(), 1, [0, -1]);
    FuncOk(Mismatch(), 2, [0]);
  }

  /** The interpreter at `pc` with `frames`, frame pointer and stack pointer as given, and `live` the slots below
      `sp`. */
  predicate Stands(vm: Vm, pc: nat, fp: nat, frames: seq<Frame>, live: seq<Word>) {
    vm.status == Running && vm.pc == pc && vm.fp == fp && vm.frames == frames && vm.sp == |live| &&
      vm.stack[..vm.sp] == live
  }

  lemma ConstStep(m: Module, vm: Vm, pc: nat, fp: nat, frames: seq<Frame>, live: seq<Word>, k: nat)
    requires Stands(vm, pc, fp, frames, live) && pc < |m.code| && m.code[pc] == Const(k) && k < |m.consts| &&
      |live| < STACK_CAP
    ensures Stands(Step(m, vm), pc + 1, fp, frames, live + [m.consts[k]])
  {
    var ws := [m.consts[k]];
    assert ws[..1] == ws;
    assert Step(m, vm).stack[..|live| + 1] == vm.stack[..|live|] + ws;
  }

  lemma CallStep(m: Module, vm: Vm, pc: nat, fp: nat, frames: seq<Frame>, live: seq<Word>, g: nat)
    requires Stands(vm, pc, fp, frames, live) && pc < |m.code| && m.code[pc] == Call(g) && g < |m.funcs|
    requires |frames| < FRAME_CAP && m.funcs[g].nParams == 0 && m.funcs[g].nLocals == 0
    ensures Stands(Step(m, vm), m.funcs[g].codeOff, |live|,
               frames + [Frame(pc + 1, fp, |live|, m.funcs[g].nResults)], live)
  {
    hide Enter;
    EnterPlain(vm.(pc := pc + 1), m.funcs[g]);
  }

  lemma TailStep(m: Module, vm: Vm, pc: nat, fp: nat, frames: seq<Frame>, live: seq<Word>, g: nat)
    requires Stands(vm, pc, fp, frames, live) && pc < |m.code| && m.code[pc] == ReturnCall(g) && g < |m.funcs|
    requires |frames| > 0 && m.funcs[g].nParams == 0 && m.funcs[g].nLocals == 0 && fp == |live|
    ensures var c := |frames| - 1;
      Stands(Step(m, vm), m.funcs[g].codeOff, fp, frames[c := frames[c].(nResults := m.funcs[g].nResults)], live)
  {
    assert Step(m, vm).stack == vm.stack;
  }

  lemma UnwindStep(m: Module, vm: Vm, pc: nat, fp: nat, frames: seq<Frame>, live: seq<Word>)
    requires Stands(vm, pc, fp, frames, live) && pc < |m.code| && m.code[pc] == Unwind(1, 0) && |live| == 2 && fp == 1
    ensures Stands(Step(m, vm), pc + 1, fp, frames, [live[1]])
  {
    assert Step(m, vm).stack[0] == vm.stack[1] == vm.stack[..2][1];
  }

  lemma ReturnStep(m: Module, vm: Vm, pc: nat, fp: nat, frames: seq<Frame>, live: seq<Word>)
    requires Stands(vm, pc, fp, frames, live) && pc < |m.code| && m.code[pc] == EndFunc && |frames| > 1
    requires var fr := frames[|frames| - 1]; fr.nResults == 0 && fr.spBase == |live|
    ensures var fr := frames[|frames| - 1]; Stands(Step(m, vm), fr.retPc, fr.fp, frames[..|frames| - 1], live)
  {
    assert Step(m, vm).stack == vm.stack;
  }

  lemma TickIsStep(m: Module, host: Host, vm: Vm, n: nat)
    requires vm.status == Running && n > 0
    ensures Ticks(m, host, vm, n) == Ticks(m, host, Step(m, vm), n - 1)
  {
    hide Step;
  }

  /** Caller integrity fails for the accepted module Thief: back in the caller, its operand 7 has become 9. */
  lemma UnwindCanReachTheCaller(host: Host, s: Store) returns (k: nat)
    ensures Accepted(Thief())
    ensures var vm := Ticks(Thief(), host, Entry(Thief().funcs[0], [], s), k);
      Stands(vm, 2, 0, [Frame(0, 0, 0, 1)], [9])
  {
    hide Step, Ticks, Accepted;
    ThiefAccepted();
    var m := Thief();
    var root := [Frame(0, 0, 0, 1)];
    var v0 := Entry(m.funcs[0], [], s);
    assert Stands(v0, 0, 0, root, []);
    ConstStep(m, v0, 0, 0, root, [], 0);
    var v1 := Step(m, v0);
    CallStep(m, v1, 1, 0, root, [7], 1);
    var v2, both := Step(m, v1), root + [Frame(2, 0, 1, 0)];
    ConstStep(m, v2, 3, 1, both, [7], 1);
    var v3 := Step(m, v2);
    UnwindStep(m, v3, 4, 1, both, [7, 9]);
    var v4 := Step(m, v3);
    ReturnStep(m, v4, 5, 1, both, [9]);
    assert both[..1] == root;
    k := 5;
    FiveTicks(m, host, v0, k);
  }

  lemma FiveTicks(m: Module, host: Host, v0: Vm, k: nat)
    requires k == 5 && v0.status == Running
    requires var v1 := Step(m, v0); var v2 := Step(m, v1); var v3 := Step(m, v2); var v4 := Step(m, v3);
      v1.status == Running && v2.status == Running && v3.status == Running && v4.status == Running
    ensures Ticks(m, host, v0, k) == Step(m, Step(m, Step(m, Step(m, Step(m, v0)))))
  {
    hide Step;
    var v1 := Step(m, v0);
    var v2 := Step(m, v1);
    var v3 := Step(m, v2);
    var v4 := Step(m, v3);
    TickIsStep(m, host, v0, k);
    TickIsStep(m, host, v1, k - 1);
    TickIsStep(m, host, v2, k - 2);
    TickIsStep(m, host, v3, k - 3);
    TickIsStep(m, host, v4, k - 4);
  }

  /** The height at the caller's second pc is forced to 1. */
  lemma MismatchHeight(hts: Heights)
    requires Assigned(Mismatch(), hts)
    ensures |hts| == 3 && |hts[0]| == 2 && hts[0][1] == 1
  {
    var m := Mismatch();
    assert Assignment(m, m.funcs[0], hts[0]);
    assert NodeOk(m, m.funcs[0], hts[0], 0);
  }

  /** Verifier soundness fails for the accepted module Mismatch: the caller resumes without the operand its height
      promises, so no function's heights fit the state. */
  lemma TailCallCanLoseResults(host: Host, s: Store, hts: Heights, fi: nat) returns (k: nat)
    requires Assigned(Mismatch(), hts)
    ensures Accepted(Mismatch())
    ensures var vm := Ticks(Mismatch(), host, Entry(Mismatch().funcs[0], [], s), k);
      vm.status == Running && !InFunction(Mismatch(), hts, vm, fi)
  {
    hide Step, Ticks, Accepted, Assigned;
    MismatchAccepted();
    MismatchHeight(hts);
    var m := Mismatch();
    var root := [Frame(0, 0, 0, 1)];
    var v0 := Entry(m.funcs[0], [], s);
    assert Stands(v0, 0, 0, root, []);
    CallStep(m, v0, 0, 0, root, [], 1);
    var v1, both := Step(m, v0), root + [Frame(1, 0, 0, 1)];
    TailStep(m, v1, 2, 0, both, [], 2);
    var v2, cut := Step(m, v1), root + [Frame(1, 0, 0, 0)];
    assert both[1 := both[1].(nResults := 0)] == cut;
    ReturnStep(m, v2, 4, 0, cut, []);
    assert cut[..1] == root;
    k := 3;
    TickIsStep(m, host, v0, k);
    TickIsStep(m, host, v1, k - 1);
    TickIsStep(m, host, v2, k - 2);
    ZeroTicks(m, host, Step(m, v2), k - 3);
  }

  lemma ZeroTicks(m: Module, host: Host, vm: Vm, n: nat)
    requires n == 0
    ensures Ticks(m, host, vm, n) == vm
  {
  }

  // ----- an entry frame larger than the stack -----

  /** A function with `n` locals that returns at once. */
  function Roomy(n: nat): Module { Module([EndFunc], [], [FuncMeta(0, 1, 0, 0, n)], 0, [], [], [], []) }

  lemma RoomyHeights(n: nat)
    ensures Assignment(Roomy(n), Roomy(n).funcs[0], [0]) <==> n <= MAX_U16
  {
    assert Occurs(Roomy(n), Roomy(n).funcs[0], [0], 0, 0);
  }

  /** Any assignment starts with height 0. */
  lemma RoomyNeeds(n: nat)
    requires Accepted(Roomy(n))
    ensures n <= MAX_U16
  {
    var m := Roomy(n);
    assert FuncAccepted(m, 0);
    var ht :| Assignment(m, m.funcs[0], ht);
    assert ht == [0];
    RoomyHeights(n);
  }

  /** The verifier accepts up to 65535 slots; the driver leaves its stack array from 4097 on. */
  lemma EntryCanOverrun(n: nat, s: Store)
    ensures Accepted(Roomy(n)) <==> n <= 65535
    ensures Start(Roomy(n).funcs[0], [], s).status == Undefined <==> n > 4096
  {
    hide Assignment;
    RoomyHeights(n);
    if n <= MAX_U16 { FuncOk(Roomy(n), 0, [0]); }
    if Accepted(Roomy(n)) { RoomyNeeds(n); }
    StartIsEntry(Roomy(n).funcs[0], [], s);
  }

  // ----- calls of functions without code -----

  lemma CallsImportSecond()
    ensures Assignment(CallsImport(), CallsImport().funcs[1], [0, 0])
  {
  }

  lemma TablesImportClosed()
    ensures Closed(TablesImport(), TablesImport().funcs[1], [0, 1, 0])
  {
  }

  lemma TablesImportSecond()
    ensures Assignment(TablesImport(), TablesImport().funcs[1], [0, 1, 0])
  {
    hide NodeOk;
    TablesImportClosed();
  }

  lemma ImportsAccepted()
    ensures Accepted(CallsImport()) && Accepted(TablesImport())
  {
    hide Assignment;
    CallsImportSecond();
    TablesImportSecond();
    assert FuncAccepted(CallsImport(), 0) && FuncAccepted(TablesImport(), 0);
    FuncOk(CallsImport(), 1, [0, 0]);
    FuncOk(TablesImport(), 1, [0, 1, 0]);
  }

  /** With no room for the local of function 1 above the frame pointer, no function's heights fit. */
  lemma NoRoom(m: Module, hts: Heights, vm: Vm, fi: nat, frames: seq<Frame>)
    requires Assigned(m, hts) && m in {CallsImport(), TablesImport()} && Stands(vm, 0, 1, frames, [0])
    ensures !InFunction(m, hts, vm, fi)
  {
    hide Assigned;
  }

  /** Verifier soundness fails for the accepted module CallsImport: one call, and the machine is back at the start of
      the caller's own code, in a frame without the local it needs. */
  lemma CallCanEnterAnImport(host: Host, s: Store, hts: Heights, fi: nat) returns (k: nat)
    requires Assigned(CallsImport(), hts)
    ensures Accepted(CallsImport())
    ensures var vm := Ticks(CallsImport(), host, Entry(CallsImport().funcs[1], [], s), k);
      vm.status == Running && !InFunction(CallsImport(), hts, vm, fi)
  {
    hide Step, Ticks, Accepted, Assigned, InFunction;
    ImportsAccepted();
    var m := CallsImport();
    var root := [Frame(0, 0, 0, 0)];
    var v0 := Entry(m.funcs[1], [], s);
    assert v0.stack[..1] == [0];
    assert Stands(v0, 0, 0, root, [0]);
    CallStep(m, v0, 0, 0, root, [0], 0);
    k := 1;
    TickIsStep(m, host, v0, k);
    ZeroTicks(m, host, Step(m, v0), k - 1);
    NoRoom(m, hts, Step(m, v0), fi, root + [Frame(1, 0, 1, 0)]);
  }

  lemma LocalGetStep(m: Module, vm: Vm, pc: nat, fp: nat, frames: seq<Frame>, live: seq<Word>, x: nat)
    requires Stands(vm, pc, fp, frames, live) && pc < |m.code| && m.code[pc] == LocalGet(x)
    requires fp + x < |live| < STACK_CAP
    ensures Stands(Step(m, vm), pc + 1, fp, frames, live + [live[fp + x]])
  {
    var ws := [vm.stack[fp + x]];
    assert vm.stack[..vm.sp][fp + x] == vm.stack[fp + x];
    assert ws[..1] == ws;
    assert Step(m, vm).stack[..|live| + 1] == vm.stack[..|live|] + ws;
  }

  /** A frame for a function without parameters and locals. */
  lemma EnterPlain(vm: Vm, f: FuncMeta)
    requires |vm.frames| < FRAME_CAP && f.nParams == 0 && f.nLocals == 0 && vm.status == Running
    ensures Enter(vm, f) == vm.(frames := vm.frames + [Frame(vm.pc, vm.fp, vm.sp, f.nResults)], fp := vm.sp,
                                pc := f.codeOff)
  {
    assert Enter(vm, f).stack == vm.stack;
  }

  lemma IndirectStep(m: Module, vm: Vm, pc: nat, fp: nat, frames: seq<Frame>, live: seq<Word>, ty: nat, g: nat)
    requires Stands(vm, pc, fp, frames, live) && pc < |m.code| && m.code[pc] == CallIndirect(ty) && |live| > 0
    requires Lookup(m, ty, Low(W32, live[|live| - 1])) == Some(g) && g < |m.funcs|
    requires |frames| < FRAME_CAP && m.funcs[g].nParams == 0 && m.funcs[g].nLocals == 0
    ensures var n := |live| - 1;
      Stands(Step(m, vm), m.funcs[g].codeOff, n, frames + [Frame(pc + 1, fp, n, m.funcs[g].nResults)], live[..n])
  {
    hide Lookup, Enter;
    assert vm.stack[..vm.sp][vm.sp - 1] == vm.stack[vm.sp - 1];
    EnterPlain(vm.(pc := pc + 1, sp := vm.sp - 1), m.funcs[g]);
    assert vm.stack[..vm.sp - 1] == vm.stack[..vm.sp][..vm.sp - 1];
  }

  /** The same for the accepted module TablesImport and an indirect call. */
  lemma TableCanHoldAnImport(host: Host, s: Store, hts: Heights, fi: nat) returns (k: nat)
    requires Assigned(TablesImport(), hts)
    ensures Accepted(TablesImport())
    ensures var vm := Ticks(TablesImport(), host, Entry(TablesImport().funcs[1], [], s), k);
      vm.status == Running && !InFunction(TablesImport(), hts, vm, fi)
  {
    hide Step, Ticks, Accepted, Assigned, InFunction;
    ImportsAccepted();
    var m := TablesImport();
    var root := [Frame(0, 0, 0, 0)];
    var v0 := Entry(m.funcs[1], [], s);
    assert v0.stack[..1] == [0];
    assert Stands(v0, 0, 0, root, [0]);
    LocalGetStep(m, v0, 0, 0, root, [0], 0);
    var v1 := Step(m, v0);
    IndirectStep(m, v1, 1, 0, root, [0, 0], 0, 0);
    assert [0, 0][..1] == [0];
    var v2 := Step(m, v1);
    k := 2;
    TickIsStep(m, host, v0, k);
    TickIsStep(m, host, v1, k - 1);
    ZeroTicks(m, host, v2, k - 2);
    NoRoom(m, hts, v2, fi, root + [Frame(2, 0, 1, 0)]);
  }
}
