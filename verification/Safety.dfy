/** Soundness of the verifier over whole runs, on the frame machine and through it on the interpreter. */
module Safety {
  import opened Words
  import opened Bytecode
  import opened Machine
  import opened Frames
  import opened Verifier

  /** One height assignment per function. */
  type Heights = seq<seq<int>>

  ghost predicate Assigned(m: Module, hts: Heights) {
    && |hts| == |m.funcs|
    && forall fi :: 0 <= fi < |m.funcs| && m.funcs[fi].codeLen > 0 ==> Assignment(m, m.funcs[fi], hts[fi])
  }

  predicate Defined(m: Module, g: nat) { g < |m.funcs| && m.funcs[g].codeLen > 0 }

  /** What the verifier leaves unchecked about one instruction of function `f`: calls go to defined functions, a tail
      call returns as many results as its caller, an unwind keeps no more than it leaves. */
  predicate OpLinked(m: Module, f: FuncMeta, op: CuOp) {
    match op
    case Call(g) => g < |m.funcs| ==> Defined(m, g)
    case ReturnCall(g) => g < |m.funcs| ==> Defined(m, g) && m.funcs[g].nResults == f.nResults
    case Unwind(keep, b) => keep <= UnwindHeight(f, b) && b < TWO32  // the operand is a 32-bit field
    case _ => true
  }

  ghost predicate CodeLinked(m: Module, f: FuncMeta, ht: seq<int>) {
    f.codeOff + f.codeLen <= |m.code| && |ht| == f.codeLen &&
    forall r :: 0 <= r < f.codeLen && ht[r] >= 0 ==> OpLinked(m, f, m.code[f.codeOff + r])
  }

  /** The table holds defined functions, and a function's meta agrees with the fingerprint of its type. */
  ghost predicate TableLinked(m: Module) {
    && (forall i :: 0 <= i < |m.table| && m.table[i] < |m.funcs| && m.table[i] != TABLE_NULL ==> Defined(m, m.table[i]))
    && forall g :: 0 <= g < |m.funcs| && g < |m.funcType| && m.funcType[g] < |m.typeFp| ==>
         m.typeFp[m.funcType[g]] % 256 == m.funcs[g].nParams &&
         (m.typeFp[m.funcType[g]] / 256) % 256 == m.funcs[g].nResults
  }

  /** The unchecked hypotheses, asked only of the instructions the assignment visits. */
  ghost predicate Linked(m: Module, hts: Heights) {
    && TableLinked(m)
    && |hts| == |m.funcs|
    && forall fi :: 0 <= fi < |m.funcs| && m.funcs[fi].codeLen > 0 ==> CodeLinked(m, m.funcs[fi], hts[fi])
  }

  /** The host answers with the declared number of results, which the mailbox limits to one. */
  ghost predicate WellBehaved(host: Host) {
    forall log: seq<HostEvent> :: |log| > 0 && host(log).Some? ==>
      |host(log).value| == log[|log| - 1].nResults && |host(log).value| <= 1
  }

  /** The functions the activations run, bottom first. */
  datatype Fns = NoFn | Fn(below: Fns, fi: nat)

  /** The top activation, about to run `pc` once `owed` results have arrived, obeys the heights of function `fi`. */
  ghost predicate TopTyped(m: Module, hts: Heights, a: Acts, fi: nat, pc: nat, owed: nat) {
    && a.Act? && Defined(m, fi) && fi < |hts|
    && (var f := m.funcs[fi];
        && f.codeOff <= pc < f.codeOff + f.codeLen
        && |hts[fi]| == f.codeLen
        && |a.locals| == f.nParams + f.nLocals
        && a.nResults == f.nResults
        && hts[fi][pc - f.codeOff] == |a.ops| + owed)
  }

  /** Every activation obeys the heights of its function: the top one at `pc`, the others at their return address. */
  ghost predicate Typed(m: Module, hts: Heights, a: Acts, fs: Fns, pc: nat, owed: nat) {
    if a.Bottom? then fs.NoFn?
    else fs.Fn? && TopTyped(m, hts, a, fs.fi, pc, owed) && Typed(m, hts, a.below, fs.below, a.retPc, a.nResults)
  }

  function Owed(am: Am): nat { if am.status == HostcallPending then am.mail.nResults else 0 }

  /** The invariant of verified runs. */
  ghost predicate Sound(m: Module, hts: Heights, am: Am, fs: Fns) {
    am.status != Undefined &&
    (!Final(am.status) ==> am.acts.Act? && Typed(m, hts, am.acts, fs, am.pc, Owed(am)))
  }

  lemma NodeAt(m: Module, hts: Heights, fi: nat, pc: nat)
    requires Assigned(m, hts) && Linked(m, hts) && Defined(m, fi)
    requires m.funcs[fi].codeOff <= pc < m.funcs[fi].codeOff + m.funcs[fi].codeLen
    requires hts[fi][pc - m.funcs[fi].codeOff] >= 0
    ensures pc < |m.code| && OpLinked(m, m.funcs[fi], m.code[pc])
    ensures NodeOk(m, m.funcs[fi], hts[fi], pc - m.funcs[fi].codeOff)
    ensures m.funcs[fi].nParams + m.funcs[fi].nLocals + hts[fi][pc - m.funcs[fi].codeOff] <= MAX_U16
  {
    hide Check, FlowAt, TableLinked;
    var f, r := m.funcs[fi], pc - m.funcs[fi].codeOff;
    assert Assignment(m, f, hts[fi]);
    assert CodeLinked(m, f, hts[fi]);
    assert Occurs(m, f, hts[fi], r, hts[fi][r]);
  }

  lemma EnterSound(m: Module, hts: Heights, am: Am, fs: Fns, g: nat)
    requires Assigned(m, hts) && Defined(m, g) && am.status == Running && am.acts.Act?
    requires |am.acts.ops| >= m.funcs[g].nParams
    requires Typed(m, hts, APop(am, m.funcs[g].nParams).acts, fs, am.pc, m.funcs[g].nResults)
    ensures Sound(m, hts, AEnter(am, m.funcs[g]), Fn(fs, g))
  {
    assert Assignment(m, m.funcs[g], hts[g]);
  }

  /** The running activation is at relative pc `rel` of `f`, its pc already advanced, and `op` is the instruction
      there. */
  ghost predicate At(m: Module, hts: Heights, op: CuOp, am: Am, fs: Fns, f: FuncMeta, rel: nat) {
    && am.status == Running && am.acts.Act? && fs.Fn?
    && TopTyped(m, hts, am.acts, fs.fi, f.codeOff + rel, 0)
    && f == m.funcs[fs.fi] && Shaped(m, f) && rel < f.codeLen
    && am.pc == f.codeOff + rel + 1 && op == m.code[f.codeOff + rel] && OpLinked(m, f, op)
    && NodeOk(m, f, hts[fs.fi], rel)
    && Typed(m, hts, am.acts.below, fs.below, am.acts.retPc, am.acts.nResults)
    && f.nParams + f.nLocals + hts[fs.fi][rel] <= MAX_U16
  }

  /** `a` and `b` are the same activation but for the values it holds. */
  predicate SameFrame(a: Acts, b: Acts) {
    a.Act? && b.Act? && a.below == b.below && a.retPc == b.retPc && a.nResults == b.nResults && |a.locals| == |b.locals|
  }

  /** An instruction that leaves the height the verifier computed, and moves where the verifier looked, is sound. */
  lemma MoveSound(m: Module, hts: Heights, op: CuOp, am: Am, fs: Fns, f: FuncMeta, rel: nat, am': Am)
    requires At(m, hts, op, am, fs, f, rel)
    requires am'.status != Undefined
    requires !Final(am'.status) ==>
      SameFrame(am.acts, am'.acts) && var fl := Check(m, f, op, |am.acts.ops|);
      |am'.acts.ops| + Owed(am') == fl.next &&
      ((fl.falls && am'.pc == am.pc) || (fl.jump.Some? && am'.pc == f.codeOff + fl.jump.value))
    ensures Sound(m, hts, am', fs)
  {
    hide Check;
  }

  /** What the verifier has established about the instruction at hand. */
  lemma AtGives(m: Module, hts: Heights, op: CuOp, am: Am, fs: Fns, f: FuncMeta, rel: nat)
    requires At(m, hts, op, am, fs, f, rel)
    ensures am.status == Running && am.acts.Act? && OpLinked(m, f, op)
    ensures Check(m, f, op, |am.acts.ops|).Flow?
    ensures |am.acts.locals| == f.nParams + f.nLocals && am.acts.nResults == f.nResults
    ensures f.nParams + f.nLocals + |am.acts.ops| <= MAX_U16
  {
    hide Check, OpLinked, Typed;
  }

  lemma DataSound(m: Module, hts: Heights, op: CuOp, am: Am, fs: Fns, f: FuncMeta, rel: nat)
    requires At(m, hts, op, am, fs, f, rel)
    requires op.Const? || op.LocalGet? || op.LocalSet?
    ensures Sound(m, hts, AExec(m, op, am), fs)
  {
    hide Flat, At, Sound, TopTyped;
    AtGives(m, hts, op, am, fs, f, rel);
    MoveSound(m, hts, op, am, fs, f, rel, AExec(m, op, am));
  }

  lemma UnwindSound(m: Module, hts: Heights, op: CuOp, am: Am, fs: Fns, f: FuncMeta, rel: nat)
    requires At(m, hts, op, am, fs, f, rel) && op.Unwind?
    ensures Sound(m, hts, AExec(m, op, am), fs)
  {
    hide Flat, At, Sound, TopTyped;
    AtGives(m, hts, op, am, fs, f, rel);
    assert AExec(m, op, am) == AUnwind(am, op.keep, op.dest);
    MoveSound(m, hts, op, am, fs, f, rel, AUnwind(am, op.keep, op.dest));
  }

  lemma SimpleSound(m: Module, hts: Heights, op: CuOp, am: Am, fs: Fns, f: FuncMeta, rel: nat)
    requires At(m, hts, op, am, fs, f, rel) && op.Simple?
    ensures Sound(m, hts, AExec(m, op, am), fs)
  {
    hide Eval, Flat, At, Sound, TopTyped;
    AtGives(m, hts, op, am, fs, f, rel);
    MoveSound(m, hts, op, am, fs, f, rel, ASimple(m, am, op.p));
  }

  lemma JumpSound(m: Module, hts: Heights, op: CuOp, am: Am, fs: Fns, f: FuncMeta, rel: nat)
    requires At(m, hts, op, am, fs, f, rel) && (op.Br? || op.BrIfNot?)
    ensures Sound(m, hts, AExec(m, op, am), fs)
  {
    hide Flat, At, Sound, TopTyped;
    AtGives(m, hts, op, am, fs, f, rel);
    var next := if op.Br? then ABr(am, op.target) else ABrIfNot(am, op.target);
    assert AExec(m, op, am) == next;
    MoveSound(m, hts, op, am, fs, f, rel, next);
  }

  lemma StopSound(m: Module, hts: Heights, op: CuOp, am: Am, fs: Fns, f: FuncMeta, rel: nat)
    requires At(m, hts, op, am, fs, f, rel) && (op.CallHost? || op.Unreachable? || op.Unknown?)
    ensures Sound(m, hts, AExec(m, op, am), fs)
  {
    hide Flat, At, Sound, TopTyped;
    AtGives(m, hts, op, am, fs, f, rel);
    MoveSound(m, hts, op, am, fs, f, rel, AExec(m, op, am));
  }

  lemma CallSound(m: Module, hts: Heights, op: CuOp, am: Am, fs: Fns, f: FuncMeta, rel: nat)
    requires Assigned(m, hts) && At(m, hts, op, am, fs, f, rel) && op.Call?
    ensures Sound(m, hts, AExec(m, op, am), Fn(fs, op.f))
  {
    hide AEnter;
    EnterSound(m, hts, am, fs, op.f);
  }

  lemma IndirectSound(m: Module, hts: Heights, op: CuOp, am: Am, fs: Fns, f: FuncMeta, rel: nat) returns (fs': Fns)
    requires Assigned(m, hts) && TableLinked(m) && At(m, hts, op, am, fs, f, rel) && op.CallIndirect?
    ensures Sound(m, hts, AExec(m, op, am), fs')
  {
    hide AEnter;
    fs' := fs;
    var found := Lookup(m, op.ty, Low(W32, Top(am, 1)[0]));
    if found.Some? {
      EnterSound(m, hts, APop(am, 1), fs, found.value);
      fs' := Fn(fs, found.value);
    }
  }

  lemma TailCallSound(m: Module, hts: Heights, op: CuOp, am: Am, fs: Fns, f: FuncMeta, rel: nat)
    requires Assigned(m, hts) && At(m, hts, op, am, fs, f, rel) && op.ReturnCall?
    ensures Sound(m, hts, AExec(m, op, am), Fn(fs.below, op.f))
  {
    hide Flat, NodeOk;
    AtGives(m, hts, op, am, fs, f, rel);
    assert AExec(m, op, am) == AReturnCall(m, am, op.f);
    assert Assignment(m, m.funcs[op.f], hts[op.f]);
  }

  lemma ReturnSound(m: Module, hts: Heights, op: CuOp, am: Am, fs: Fns, f: FuncMeta, rel: nat)
    requires At(m, hts, op, am, fs, f, rel) && (op.Return? || op.EndFunc?)
    ensures Sound(m, hts, AExec(m, op, am), fs.below)
  {
    hide NodeOk;
    AtGives(m, hts, op, am, fs, f, rel);
    assert AExec(m, op, am) == AReturn(am);
    assert Typed(m, hts, am.acts.below, fs.below, am.acts.retPc, am.acts.nResults);
  }

  /** Every step of verified code keeps the invariant. */
  lemma StepSound(m: Module, hts: Heights, am: Am, fs: Fns) returns (fs': Fns)
    requires Assigned(m, hts) && Linked(m, hts) && am.status == Running && Sound(m, hts, am, fs)
    ensures Sound(m, hts, AStep(m, am), fs')
  {
    hide AExec, NodeOk, OpLinked;
    var f := m.funcs[fs.fi];
    var rel := am.pc - f.codeOff;
    NodeAt(m, hts, fs.fi, am.pc);
    var op, next := m.code[am.pc], am.(pc := am.pc + 1);
    assert At(m, hts, op, next, fs, f, rel);
    fs' := fs;
    match op
    case Const(_) | LocalGet(_) | LocalSet(_) => DataSound(m, hts, op, next, fs, f, rel);
    case Unwind(_, _) => UnwindSound(m, hts, op, next, fs, f, rel);
    case Simple(_) => SimpleSound(m, hts, op, next, fs, f, rel);
    case Call(g) =>
      CallSound(m, hts, op, next, fs, f, rel);
      fs' := Fn(fs, g);
    case CallIndirect(_) => fs' := IndirectSound(m, hts, op, next, fs, f, rel);
    case ReturnCall(g) =>
      TailCallSound(m, hts, op, next, fs, f, rel);
      fs' := Fn(fs.below, g);
    case Return | EndFunc =>
      ReturnSound(m, hts, op, next, fs, f, rel);
      fs' := fs.below;
    case Br(_) | BrIfNot(_) => JumpSound(m, hts, op, next, fs, f, rel);
    case CallHost(_, _, _) | Unreachable | Unknown => StopSound(m, hts, op, next, fs, f, rel);
  }

  lemma TickSound(m: Module, host: Host, hts: Heights, am: Am, fs: Fns) returns (fs': Fns)
    requires Assigned(m, hts) && Linked(m, hts) && WellBehaved(host) && Sound(m, hts, am, fs)
    ensures Sound(m, hts, ATick(m, host, am), fs')
  {
    hide AStep, AResume, Sound, Linked, Assigned, WellBehaved;
    fs' := fs;
    if am.status == Running {
      fs' := StepSound(m, hts, am, fs);
    } else if am.status == HostcallPending {
      ResumeSound(host, m, hts, am, fs);
    }
  }

  lemma ResumeSound(host: Host, m: Module, hts: Heights, am: Am, fs: Fns)
    requires WellBehaved(host) && am.status == HostcallPending && Sound(m, hts, am, fs)
    ensures Sound(m, hts, AResume(host, am), fs)
  {
    hide Flat;
    var log := am.store.log + [EventOf(am.mail, am.store)];
    assert log[|log| - 1].nResults == am.mail.nResults;
    assert host(log).Some? ==> |host(log).value| == am.mail.nResults;
  }

  lemma {:induction false} TicksSound(m: Module, host: Host, hts: Heights, am: Am, fs: Fns, k: nat) returns (fs': Fns)
    requires Assigned(m, hts) && Linked(m, hts) && WellBehaved(host) && Sound(m, hts, am, fs)
    ensures Sound(m, hts, ATicks(m, host, am, k), fs')
    decreases k
  {
    hide ATick;
    if k == 0 {
      fs' := fs;
    } else {
      fs' := TickSound(m, host, hts, am, fs);
      fs' := TicksSound(m, host, hts, ATick(m, host, am), fs', k - 1);
    }
  }

  /** An accepted module has an assignment for each of its functions. */
  lemma Assignments(m: Module) returns (hts: Heights)
    requires Accepted(m)
    ensures Assigned(m, hts)
  {
    hts := [];
    while |hts| < |m.funcs|
      invariant |hts| <= |m.funcs|
      invariant forall fi :: 0 <= fi < |hts| && m.funcs[fi].codeLen > 0 ==> Assignment(m, m.funcs[fi], hts[fi])
    {
      assert FuncAccepted(m, |hts|);
      if m.funcs[|hts|].codeLen > 0 {
        var ht :| Assignment(m, m.funcs[|hts|], ht);
        hts := hts + [ht];
      } else {
        hts := hts + [[]];
      }
    }
  }

  lemma EntrySound(m: Module, hts: Heights, g: nat, args: seq<Word>, s: Store)
    requires Assigned(m, hts) && Defined(m, g) && |args| == m.funcs[g].nParams
    ensures Sound(m, hts, AEntry(m.funcs[g], args, s), Fn(NoFn, g))
  {
    assert Assignment(m, m.funcs[g], hts[g]);
  }

  /** The flat-machine reading of the invariant: the running function's code holds `pc`, the stack pointer is exactly
      where the verifier's height puts it, and the top frame starts at `fp`. */
  ghost predicate InFunction(m: Module, hts: Heights, vm: Vm, fi: nat)
    requires Assigned(m, hts)
  {
    && Defined(m, fi)
    && (var f := m.funcs[fi];
        && f.codeOff <= vm.pc < f.codeOff + f.codeLen
        && hts[fi][vm.pc - f.codeOff] >= 0
        && vm.sp + (if vm.status == HostcallPending then vm.mail.nResults else 0)
           == vm.fp + f.nParams + f.nLocals + hts[fi][vm.pc - f.codeOff])
    && |vm.frames| > 0
    && vm.frames[|vm.frames| - 1].spBase == vm.fp
  }

  /** Verifier soundness over whole runs: from the entry of any defined function of an accepted module, no number of
      steps, calls, tail calls, indirect calls or host suspensions leads outside the arrays or off the heights. */
  lemma VerifiedRunsAreSafe(m: Module, host: Host, hts: Heights, g: nat, args: seq<Word>, s: Store, k: nat)
    returns (fi: nat)
    requires Assigned(m, hts) && Linked(m, hts) && WellBehaved(host)
    requires Defined(m, g) && |args| == m.funcs[g].nParams && |args| + m.funcs[g].nLocals <= STACK_CAP
    ensures var vm := Ticks(m, host, Entry(m.funcs[g], args, s), k);
            vm.status != Undefined && (!Final(vm.status) ==> InFunction(m, hts, vm, fi))
  {
    hide ATick, Tick, Entry, AEntry, Rel, Sound, InFunction, Linked, WellBehaved, Flat;
    var f := m.funcs[g];
    var am := AEntry(f, args, s);
    EntrySound(m, hts, g, args, s);
    forall j | 0 <= j <= k
      ensures ATicks(m, host, am, j).status != Undefined
    {
      var fs := TicksSound(m, host, hts, am, Fn(NoFn, g), j);
      SoundIsDefined(m, hts, ATicks(m, host, am, j), fs);
    }
    EntryRel(m, f, args, s);
    TicksRefine(m, host, Entry(f, args, s), am, k);
    var fs := TicksSound(m, host, hts, am, Fn(NoFn, g), k);
    fi := ReadFlat(m, hts, Ticks(m, host, Entry(f, args, s), k), ATicks(m, host, am, k), fs);
  }

  /** What an instruction must be to make sense in function `f`: known, with its indices in range, its branches inside
      the function. */
  predicate Sensible(m: Module, f: FuncMeta, op: CuOp) {
    match op
    case Unknown => false
    case Const(k) => k < |m.consts|
    case LocalGet(x) => x < f.nParams + f.nLocals
    case LocalSet(x) => x < f.nParams + f.nLocals
    case Call(g) => g < |m.funcs|
    case ReturnCall(g) => g < |m.funcs|
    case CallIndirect(t) => t < |m.typeFp|
    case Br(t) => f.codeOff <= t < f.codeOff + f.codeLen
    case BrIfNot(t) => f.codeOff <= t < f.codeOff + f.codeLen
    case _ => true
  }

  /** What the verifier checks of each instruction holds of every instruction a verified run comes to. So of the traps
      for bad code, only those for missing globals, dropped host calls and bad table slots are left. */
  lemma VerifiedInstructions(m: Module, host: Host, hts: Heights, g: nat, args: seq<Word>, s: Store, k: nat)
    returns (fi: nat)
    requires Assigned(m, hts) && Linked(m, hts) && WellBehaved(host)
    requires Defined(m, g) && |args| == m.funcs[g].nParams && |args| + m.funcs[g].nLocals <= STACK_CAP
    ensures var vm := Ticks(m, host, Entry(m.funcs[g], args, s), k);
      vm.status == Running ==>
        vm.pc < |m.code| && InFunction(m, hts, vm, fi) && Sensible(m, m.funcs[fi], m.code[vm.pc])
  {
    hide Ticks, Entry, Linked, WellBehaved;
    fi := VerifiedRunsAreSafe(m, host, hts, g, args, s, k);
    var vm := Ticks(m, host, Entry(m.funcs[g], args, s), k);
    if vm.status == Running {
      var f := m.funcs[fi];
      assert Assignment(m, f, hts[fi]);
      assert NodeOk(m, f, hts[fi], vm.pc - f.codeOff);
    }
  }

  /** An accepted module has functions and code; every function lies inside the code and ends in a return, or is an
      import without code. */
  lemma AcceptedShape(m: Module, fi: nat)
    requires Accepted(m) && fi < |m.funcs|
    ensures var f := m.funcs[fi];
      f.codeOff + f.codeLen <= |m.code| && 0 < |m.code| &&
      if f.codeLen == 0 then fi < m.nImports else m.code[f.codeOff + f.codeLen - 1] in {Return, EndFunc}
  {
    hide NodeOk;
    assert FuncAccepted(m, fi);
  }

  /** Exactly when a driver's run stays inside the arrays: the driver pushes arguments and locals unchecked, and the
      verifier lets a frame have many more slots than the stack. */
  lemma EntryCondition(m: Module, host: Host, hts: Heights, g: nat, args: seq<Word>, s: Store)
    requires Assigned(m, hts) && Linked(m, hts) && WellBehaved(host)
    requires Defined(m, g) && |args| == m.funcs[g].nParams
    ensures (forall k: nat :: Ticks(m, host, Start(m.funcs[g], args, s), k).status != Undefined) <==>
      m.funcs[g].nParams + m.funcs[g].nLocals <= 4096
  {
    hide Tick, Entry, Start, InFunction, Assigned, Linked, WellBehaved;
    var f := m.funcs[g];
    StartIsEntry(f, args, s);
    if |args| + f.nLocals <= STACK_CAP {
      forall k: nat
        ensures Ticks(m, host, Start(f, args, s), k).status != Undefined
      {
        var fi := VerifiedRunsAreSafe(m, host, hts, g, args, s, k);
      }
    } else {
      assert Ticks(m, host, Start(f, args, s), 0).status == Undefined;
    }
  }

  lemma SoundIsDefined(m: Module, hts: Heights, am: Am, fs: Fns)
    requires Sound(m, hts, am, fs)
    ensures am.status != Undefined
  {
  }

  lemma ReadFlat(m: Module, hts: Heights, vm: Vm, am: Am, fs: Fns) returns (fi: nat)
    requires Assigned(m, hts) && Rel(vm, am) && Sound(m, hts, am, fs)
    ensures vm.status != Undefined && (!Final(vm.status) ==> InFunction(m, hts, vm, fi))
  {
    hide Rel, Flat;
    fi := if fs.Fn? then fs.fi else 0;
    if !Final(am.status) { TopFlat(vm, am); }
    assert vm.status == am.status by { SameStatus(vm, am); }
  }

  lemma SameStatus(vm: Vm, am: Am)
    requires Rel(vm, am)
    ensures vm.status == am.status
  {
  }

  /** Where the top activation lies on the flat stack. */
  lemma TopFlat(vm: Vm, am: Am)
    requires Rel(vm, am) && !Final(am.status) && am.acts.Act?
    ensures vm.status == am.status && vm.pc == am.pc && vm.mail == am.mail
    ensures vm.sp == vm.fp + |am.acts.locals| + |am.acts.ops|
    ensures |vm.frames| > 0 && vm.frames[|vm.frames| - 1].spBase == vm.fp
  {
    assert |Flat(am.acts)| == |Flat(am.acts.below)| + |am.acts.locals| + |am.acts.ops|;
  }

  lemma HeightBound(m: Module, f: FuncMeta, fi: nat, ht: seq<int>, r: nat, maxStack: nat)
    requires fi < |m.funcs| && f == m.funcs[fi] && Recorded(m, fi, maxStack)
    requires Least(m, f, ht) && r < f.codeLen && ht[r] >= 0
    ensures f.nParams + f.nLocals + ht[r] <= maxStack
  {
    hide NodeOk, FlowAt;
    var least :| Least(m, f, least) && Peak(m, f, least, maxStack - f.nParams - f.nLocals);
    LeastUnique(m, f, least, ht);
    assert Occurs(m, f, least, r, ht[r]);
  }

  /** The verifier's records name the least assignment of every function. */
  lemma RecordedHeights(m: Module, hts: Heights, maxStack: seq<nat>) returns (least: Heights)
    requires Assigned(m, hts)
    requires |maxStack| == |m.funcs| && forall i :: 0 <= i < |m.funcs| ==> Recorded(m, i, maxStack[i])
    ensures Assigned(m, least)
    ensures forall i :: 0 <= i < |m.funcs| && m.funcs[i].codeLen > 0 ==>
      Least(m, m.funcs[i], least[i]) && Below(least[i], hts[i])
  {
    hide Occurs, NodeOk;
    least := [];
    while |least| < |m.funcs|
      invariant |least| <= |m.funcs|
      invariant forall i :: 0 <= i < |least| && m.funcs[i].codeLen > 0 ==>
        Assignment(m, m.funcs[i], least[i]) && Least(m, m.funcs[i], least[i]) && Below(least[i], hts[i])
    {
      var i := |least|;
      var f := m.funcs[i];
      if f.codeLen > 0 {
        assert Recorded(m, i, maxStack[i]) && Assignment(m, f, hts[i]);
        var ht :| Least(m, f, ht) && Peak(m, f, ht, maxStack[i] - f.nParams - f.nLocals);
        PeakFits(m, f, ht, maxStack[i] - f.nParams - f.nLocals, hts[i]);
        least := least + [ht];
      } else {
        least := least + [[]];
      }
    }
  }

  /** A smaller assignment visits fewer instructions, so it asks less. */
  lemma LinkedBelow(m: Module, hts: Heights, least: Heights)
    requires Linked(m, hts) && Assigned(m, hts) && Assigned(m, least)
    requires forall i :: 0 <= i < |m.funcs| && m.funcs[i].codeLen > 0 ==> Below(least[i], hts[i])
    ensures Linked(m, least)
  {
    hide OpLinked, NodeOk, TableLinked;
    forall i | 0 <= i < |m.funcs| && m.funcs[i].codeLen > 0
      ensures CodeLinked(m, m.funcs[i], least[i])
    {
      assert CodeLinked(m, m.funcs[i], hts[i]) && Assignment(m, m.funcs[i], least[i]);
    }
  }

  /** The stack bound: at every instruction boundary of every run, the activation stays within the `max_stack` that the
      verifier recorded for the function it runs. */
  lemma StackBound(m: Module, host: Host, hts: Heights, maxStack: seq<nat>, g: nat, args: seq<Word>, s: Store, k: nat)
    returns (least: Heights, fi: nat)
    requires Assigned(m, hts) && Linked(m, hts) && WellBehaved(host)
    requires |maxStack| == |m.funcs| && forall i :: 0 <= i < |m.funcs| ==> Recorded(m, i, maxStack[i])
    requires Defined(m, g) && |args| == m.funcs[g].nParams && |args| + m.funcs[g].nLocals <= STACK_CAP
    ensures Assigned(m, least)
    ensures var vm := Ticks(m, host, Entry(m.funcs[g], args, s), k);
      vm.status != Undefined &&
      (vm.status == Running ==> InFunction(m, least, vm, fi) && vm.sp - vm.fp <= maxStack[fi])
  {
    hide Ticks, Entry, Tick, InFunction, Recorded, Least, Assigned, Linked, WellBehaved, Below;
    least := RecordedHeights(m, hts, maxStack);
    LinkedBelow(m, hts, least);
    fi := VerifiedRunsAreSafe(m, host, least, g, args, s, k);
    StackBoundAt(m, least, maxStack, Ticks(m, host, Entry(m.funcs[g], args, s), k), fi);
  }

  lemma StackBoundAt(m: Module, hts: Heights, maxStack: seq<nat>, vm: Vm, fi: nat)
    requires Assigned(m, hts)
    requires forall i :: 0 <= i < |m.funcs| && m.funcs[i].codeLen > 0 ==> Least(m, m.funcs[i], hts[i])
    requires |maxStack| == |m.funcs| && forall i :: 0 <= i < |m.funcs| ==> Recorded(m, i, maxStack[i])
    requires !Final(vm.status) ==> InFunction(m, hts, vm, fi)
    ensures vm.status == Running ==> InFunction(m, hts, vm, fi) && vm.sp - vm.fp <= maxStack[fi]
  {
    if vm.status == Running {
      HeightBound(m, m.funcs[fi], fi, hts[fi], vm.pc - m.funcs[fi].codeOff, maxStack[fi]);
    }
  }
}
