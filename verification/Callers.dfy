/** Caller integrity: from a call to its matching return, nothing below the callee's frame changes, and the caller gets
    back its locals and operands with exactly the declared results on top. */
module Callers {
  import opened Words
  import opened Bytecode
  import opened Machine
  import opened Frames
  import opened Limits
  import opened Safety
  import opened Verifier

  /** The activations `u` lie untouched at the bottom of `a`. */
  predicate Above(a: Acts, u: Acts) {
    a == u || (a.Act? && Above(a.below, u))
  }

  lemma {:induction false} AbovePrefix(a: Acts, u: Acts)
    requires Above(a, u)
    ensures |Flat(u)| <= |Flat(a)| && Flat(a)[..|Flat(u)|] == Flat(u)
  {
    if a == u {
      assert Flat(u)[..|Flat(u)|] == Flat(u);
    } else {
      AbovePrefix(a.below, u);
      assert Flat(a)[..|Flat(u)|] == Flat(a.below)[..|Flat(u)|];
    }
  }

  /** The activation that runs directly on `u` owes it `n` results at `retPc`. */
  predicate Debt(a: Acts, u: Acts, retPc: nat, n: nat) {
    a.Act? && if a.below == u then a.retPc == retPc && a.nResults == n else Debt(a.below, u, retPc, n)
  }

  lemma {:induction false} DebtIsAbove(a: Acts, u: Acts, retPc: nat, n: nat)
    requires Debt(a, u, retPc, n)
    ensures Above(a.below, u) && Above(a, u)
  {
    if a.below != u { DebtIsAbove(a.below, u, retPc, n); }
  }

  /** The callee has just delivered `n` results on top of the untouched caller `u`. */
  predicate ReturnedTo(am: Am, u: Acts, retPc: nat, n: nat) {
    u.Act? && am.status == Running && am.pc == retPc && am.acts.Act? &&
    am.acts == u.(ops := am.acts.ops) && u.ops <= am.acts.ops && |am.acts.ops| == |u.ops| + n
  }

  /** The tick from `prev` to `am` was that delivery: the `n` words that arrived are the callee's topmost operands. */
  predicate Delivered(m: Module, prev: Am, am: Am, u: Acts, retPc: nat, n: nat) {
    && ReturnedTo(am, u, retPc, n)
    && prev.status == Running && prev.pc < |m.code| && (m.code[prev.pc].Return? || m.code[prev.pc].EndFunc?)
    && prev.acts.Act? && prev.acts.below == u && n <= |prev.acts.ops|
    && am.acts.ops == u.ops + prev.acts.ops[|prev.acts.ops| - n..]
  }

  lemma StepKeepsBelow(m: Module, op: CuOp, am: Am)
    requires am.status == Running && am.acts.Act?
    requires !op.Return? && !op.EndFunc? && !op.Call? && !op.CallIndirect?
    ensures var s := AExec(m, op, am);
      s.acts.Act? && s.acts.below == am.acts.below && s.acts.retPc == am.acts.retPc &&
      (!(op.ReturnCall? && op.f < |m.funcs| && !Final(s.status)) ==> s.acts.nResults == am.acts.nResults) &&
      (op.ReturnCall? && op.f < |m.funcs| && !Final(s.status) ==> s.acts.nResults == m.funcs[op.f].nResults)
  {
    hide Eval, Flat;
  }

  /** A callee's own step leaves the debt to its caller standing, or stops, or pays it. */
  lemma StepAbove(m: Module, am: Am, u: Acts, retPc: nat, n: nat)
    requires am.status == Running && Debt(am.acts, u, retPc, n) && u.Act?
    requires am.pc < |m.code| && m.code[am.pc].ReturnCall? && m.code[am.pc].f < |m.funcs| ==>
      m.funcs[m.code[am.pc].f].nResults == am.acts.nResults
    ensures var s := AStep(m, am);
      Final(s.status) || Debt(s.acts, u, retPc, n) || Delivered(m, am, s, u, retPc, n)
  {
    hide Eval, Flat;
    if am.pc < |m.code| {
      var op, a := m.code[am.pc], am.(pc := am.pc + 1);
      if op.Return? || op.EndFunc? {
        assert AStep(m, am) == AReturn(a);
        if am.acts.below != u { assert Debt(am.acts.below, u, retPc, n); }
      } else if op.Call? || op.CallIndirect? {
        DebtIsAbove(am.acts, u, retPc, n);
        CallAbove(m, op, a, u, retPc, n);
      } else {
        hide AExec;
        StepKeepsBelow(m, op, a);
      }
    }
  }

  lemma {:induction false} Smaller(a: Acts, u: Acts)
    requires Above(a, u)
    ensures Depth(a) >= Depth(u)
  {
    if a != u { Smaller(a.below, u); }
  }

  lemma CallAbove(m: Module, op: CuOp, am: Am, u: Acts, retPc: nat, n: nat)
    requires am.status == Running && Debt(am.acts, u, retPc, n) && Above(am.acts.below, u) && u.Act?
    requires op.Call? || op.CallIndirect?
    ensures var s := AExec(m, op, am); Final(s.status) || Debt(s.acts, u, retPc, n)
  {
    hide Flat;
    Smaller(am.acts.below, u);
    var s := AExec(m, op, am);
    if !Final(s.status) {
      assert s.acts.below.below == am.acts.below && Depth(s.acts.below) > Depth(u);
    }
  }

  lemma TickAbove(m: Module, host: Host, hts: Heights, am: Am, fs: Fns, u: Acts, retPc: nat, n: nat)
    requires Assigned(m, hts) && Linked(m, hts) && Sound(m, hts, am, fs)
    requires !Final(am.status) && Debt(am.acts, u, retPc, n) && u.Act?
    ensures var s := ATick(m, host, am);
      Final(s.status) || Debt(s.acts, u, retPc, n) || Delivered(m, am, s, u, retPc, n)
  {
    hide AStep, AResume, NodeOk, Assignment;
    if am.status == Running {
      NodeAt(m, hts, fs.fi, am.pc);
      StepAbove(m, am, u, retPc, n);
    } else {
      ResumeAbove(host, am, u, retPc, n);
    }
  }

  lemma ResumeAbove(host: Host, am: Am, u: Acts, retPc: nat, n: nat)
    requires Debt(am.acts, u, retPc, n)
    ensures var s := AResume(host, am); Final(s.status) || Debt(s.acts, u, retPc, n)
  {
    hide Flat;
  }

  /** The run of a callee, cut at `r`: until then the debt stands; at `r` it has been paid exactly, or the whole run is
      over, or the `k` steps are used up. */
  lemma {:induction false} CalleeRun(m: Module, host: Host, hts: Heights, am: Am, fs: Fns, u: Acts, retPc: nat, n: nat,
                                     k: nat) returns (r: nat)
    requires Assigned(m, hts) && Linked(m, hts) && WellBehaved(host) && Sound(m, hts, am, fs)
    requires !Final(am.status) && Debt(am.acts, u, retPc, n) && u.Act?
    ensures r <= k
    ensures forall j :: 0 <= j < r ==> Debt(ATicks(m, host, am, j).acts, u, retPc, n)
    ensures var e := ATicks(m, host, am, r);
      Final(e.status) || (r > 0 && Delivered(m, ATicks(m, host, am, r - 1), e, u, retPc, n)) ||
      (r == k && Debt(e.acts, u, retPc, n))
    decreases k
  {
    hide ATick, Sound, Linked, WellBehaved, Debt, Delivered;
    r := 0;
    if k > 0 {
      var s := ATick(m, host, am);
      TickAbove(m, host, hts, am, fs, u, retPc, n);
      assert ATicks(m, host, am, 0) == am && ATicks(m, host, am, 1) == ATicks(m, host, s, 0) == s;
      if Final(s.status) || Delivered(m, am, s, u, retPc, n) {
        r := 1;
      } else {
        var fs' := TickSound(m, host, hts, am, fs);
        var q := CalleeRun(m, host, hts, s, fs', u, retPc, n, k - 1);
        r := q + 1;
        assert q > 0 ==> ATicks(m, host, am, q) == ATicks(m, host, s, q - 1);
        forall j | 0 <= j < r
          ensures Debt(ATicks(m, host, am, j).acts, u, retPc, n)
        {
          if j > 0 { assert ATicks(m, host, am, j) == ATicks(m, host, s, j - 1); }
        }
      }
    }
  }

  /** The state `e` after a tick from `prev` is the return to the caller of `vm`'s top frame: its pc, frame pointer and
      frames, every slot below the callee's frame as it was, and above them exactly the words the callee left on top. */
  predicate ReturnsExactly(vm: Vm, prev: Vm, e: Vm) {
    && |vm.frames| > 1
    && (var fr := vm.frames[|vm.frames| - 1];
        && e.pc == fr.retPc && e.fp == fr.fp && e.frames == vm.frames[..|vm.frames| - 1]
        && e.sp == vm.fp + fr.nResults && e.stack[..vm.fp] == vm.stack[..vm.fp]
        && fr.nResults <= prev.sp && e.stack[vm.fp..e.sp] == prev.stack[prev.sp - fr.nResults..prev.sp])
  }

  /** Caller integrity on the interpreter. `vm` has just entered a callee whose frame starts at `vm.fp`. Until the
      matching return no slot below `vm.fp` changes; at the return the caller resumes exactly where it was, with exactly
      the callee's results on top. */
  lemma CallerIntegrity(m: Module, host: Host, hts: Heights, vm: Vm, am: Am, fs: Fns, k: nat) returns (r: nat)
    requires Assigned(m, hts) && Linked(m, hts) && WellBehaved(host) && Sound(m, hts, am, fs)
    requires Rel(vm, am) && !Final(vm.status) && am.acts.below.Act?
    ensures r <= k
    ensures forall j :: 0 <= j <= r && !Final(Ticks(m, host, vm, j).status) ==>
      Ticks(m, host, vm, j).stack[..vm.fp] == vm.stack[..vm.fp]
    ensures |vm.frames| > 1
    ensures var e := Ticks(m, host, vm, r);
      Final(e.status) || (r == k && |e.frames| >= |vm.frames|) ||
      (r > 0 && ReturnsExactly(vm, Ticks(m, host, vm, r - 1), e))
  {
    hide ATick, Tick, Linked, WellBehaved, Typed, Assigned, Delivered, ReturnsExactly;
    var u, retPc, n := am.acts.below, am.acts.retPc, am.acts.nResults;
    r := CalleeRun(m, host, hts, am, fs, u, retPc, n, k);
    assert |vm.frames| == Depth(am.acts) == Depth(u) + 1 > 1;
    forall j | 0 <= j <= r
      ensures Rel(Ticks(m, host, vm, j), ATicks(m, host, am, j))
    {
      BothRun(m, host, hts, vm, am, fs, j);
    }
    var e, s := Ticks(m, host, vm, r), ATicks(m, host, am, r);
    if !Final(e.status) {
      if r > 0 && Delivered(m, ATicks(m, host, am, r - 1), s, u, retPc, n) {
        Returning(m, vm, am, Ticks(m, host, vm, r - 1), ATicks(m, host, am, r - 1), e, s);
      } else {
        AtReturn(vm, am, e, s);
      }
    }
    forall j | 0 <= j <= r && !Final(Ticks(m, host, vm, j).status)
      ensures Ticks(m, host, vm, j).stack[..vm.fp] == vm.stack[..vm.fp]
    {
      if j < r || Debt(s.acts, u, retPc, n) {
        CallerSlots(vm, am, Ticks(m, host, vm, j), ATicks(m, host, am, j), u, retPc, n);
      } else {
        ReturnedSlots(vm, Ticks(m, host, vm, r - 1), e);
      }
    }
  }

  lemma ReturnedSlots(vm: Vm, prev: Vm, e: Vm)
    requires ReturnsExactly(vm, prev, e)
    ensures e.stack[..vm.fp] == vm.stack[..vm.fp]
  {
  }

  lemma Returning(m: Module, vm: Vm, am: Am, prev: Vm, a: Am, e: Vm, s: Am)
    requires Rel(vm, am) && Rel(prev, a) && Rel(e, s) && !Final(vm.status) && !Final(e.status)
    requires am.acts.Act? && Delivered(m, a, s, am.acts.below, am.acts.retPc, am.acts.nResults)
    ensures ReturnsExactly(vm, prev, e)
  {
    var u, n := am.acts.below, am.acts.nResults;
    AtReturn(vm, am, e, s);
    CallerSlots(vm, am, e, s, u, am.acts.retPc, n);
    PopRefines(prev, a, n);
    FrameTop(am.acts);
    assert e.stack[vm.fp..e.sp] == e.stack[..e.sp][vm.fp..];
    ResultSlots(u, s.acts, Top(a, n));
  }

  /** The results lie right above the caller's own slots. */
  lemma ResultSlots(u: Acts, b: Acts, vs: seq<Word>)
    requires u.Act? && b == u.(ops := u.ops + vs)
    ensures |Flat(b)| == |Flat(u)| + |vs| && Flat(b)[|Flat(u)|..] == vs
  {
    assert Flat(b) == Flat(u) + vs;
  }

  lemma BothRun(m: Module, host: Host, hts: Heights, vm: Vm, am: Am, fs: Fns, k: nat)
    requires Assigned(m, hts) && Linked(m, hts) && WellBehaved(host) && Sound(m, hts, am, fs) && Rel(vm, am)
    ensures Rel(Ticks(m, host, vm, k), ATicks(m, host, am, k))
  {
    hide ATick, Tick, Linked, WellBehaved, Rel;
    forall j | 0 <= j <= k
      ensures ATicks(m, host, am, j).status != Undefined
    {
      var fs' := TicksSound(m, host, hts, am, fs, j);
    }
    TicksRefine(m, host, vm, am, k);
  }

  /** On verified runs a limit status always means that a limit was reached. */
  lemma SoundLimits(m: Module, host: Host, hts: Heights, vm: Vm, am: Am, fs: Fns, k: nat)
    requires Assigned(m, hts) && Linked(m, hts) && WellBehaved(host) && Sound(m, hts, am, fs) && Rel(vm, am)
    requires !Final(vm.status)
    ensures ResourceTrap(Ticks(m, host, vm, k).status) <==> LimitHit(m, host, vm, k)
  {
    hide ATick, Tick, Linked, WellBehaved, Rel, LimitHit;
    forall j | 0 <= j <= k
      ensures ATicks(m, host, am, j).status != Undefined
    {
      var fs' := TicksSound(m, host, hts, am, fs, j);
    }
    LimitsTold(m, host, vm, am, k);
  }

  lemma CallerSlots(vm: Vm, am: Am, e: Vm, s: Am, u: Acts, retPc: nat, n: nat)
    requires Rel(vm, am) && Rel(e, s) && !Final(vm.status) && !Final(e.status)
    requires am.acts.Act? && u == am.acts.below
    requires Debt(s.acts, u, retPc, n) || ReturnedTo(s, u, retPc, n)
    ensures e.stack[..vm.fp] == vm.stack[..vm.fp]
  {
    var c := |Flat(u)|;
    assert vm.stack[..c] == vm.stack[..vm.sp][..c] == Flat(u);
    if Debt(s.acts, u, retPc, n) {
      DebtIsAbove(s.acts, u, retPc, n);
      AbovePrefix(s.acts, u);
    } else {
      assert Flat(s.acts)[..c] == Flat(u);
    }
    assert e.stack[..c] == e.stack[..e.sp][..c];
  }

  lemma {:induction false} DebtDepth(a: Acts, u: Acts, retPc: nat, n: nat)
    requires Debt(a, u, retPc, n)
    ensures Depth(a) > Depth(u)
  {
    if a.below != u { DebtDepth(a.below, u, retPc, n); }
  }

  lemma AtReturn(vm: Vm, am: Am, e: Vm, s: Am)
    requires Rel(vm, am) && Rel(e, s) && !Final(vm.status) && !Final(e.status)
    requires am.acts.Act? && am.acts.below.Act?
    ensures ReturnedTo(s, am.acts.below, am.acts.retPc, am.acts.nResults) ==>
      var fr := vm.frames[|vm.frames| - 1];
      e.pc == fr.retPc && e.fp == fr.fp && e.frames == vm.frames[..|vm.frames| - 1] && e.sp == vm.fp + fr.nResults
    ensures Debt(s.acts, am.acts.below, am.acts.retPc, am.acts.nResults) ==> |e.frames| >= |vm.frames|
  {
    var u := am.acts.below;
    assert |vm.frames| == Depth(u) + 1;
    if ReturnedTo(s, u, am.acts.retPc, am.acts.nResults) {
      assert FramesOf(s.acts) == FramesOf(u) == vm.frames[..|vm.frames| - 1];
      assert BaseOf(s.acts) == BaseOf(u);
      assert |Flat(s.acts)| == |Flat(u)| + am.acts.nResults;
    }
    if Debt(s.acts, u, am.acts.retPc, am.acts.nResults) {
      DebtDepth(s.acts, u, am.acts.retPc, am.acts.nResults);
    }
  }
}
