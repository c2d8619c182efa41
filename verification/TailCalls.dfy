/** Tail calls are calls: RETURN_CALL delivers to the outer caller exactly what CALL followed by RETURN would, whenever
    the latter meets no limit; and it does so in the frame it already has. */
module TailCalls {
  import opened Words
  import opened Bytecode
  import opened Machine
  import opened Frames
  import opened Limits
  import opened Safety
  import opened Callers
  import Memory
  import Simulation

  /** The top `n` activations of `a` stand on `u`. */
  predicate Tops(a: Acts, n: nat, u: Acts) {
    if n == 0 then a == u else a.Act? && Tops(a.below, n - 1, u)
  }

  /** The top `n` activations of `a`, moved onto `v` and returning there at `ret`. */
  function Graft(a: Acts, n: nat, v: Acts, ret: nat): Acts
    requires n >= 1 && Depth(a) >= n
    decreases n
  {
    if n == 1 then a.(below := v, retPc := ret) else a.(below := Graft(a.below, n - 1, v, ret))
  }

  lemma {:induction false} TopsDepth(a: Acts, n: nat, u: Acts)
    requires Tops(a, n, u)
    ensures Depth(a) == Depth(u) + n
    decreases n
  {
    if n > 0 { TopsDepth(a.below, n - 1, u); }
  }

  lemma {:induction false} GraftSize(a: Acts, n: nat, u: Acts, v: Acts, ret: nat)
    requires n >= 1 && Tops(a, n, u) && Depth(a) >= n
    ensures |Flat(Graft(a, n, v, ret))| == |Flat(a)| - |Flat(u)| + |Flat(v)|
    ensures Depth(Graft(a, n, v, ret)) == Depth(a) - Depth(u) + Depth(v)
    ensures n >= 2 ==> BaseOf(Graft(a, n, v, ret)) == BaseOf(a) - |Flat(u)| + |Flat(v)|
    decreases n
  {
    TopsDepth(a, n, u);
    if n > 1 {
      TopsDepth(a.below, n - 1, u);
      GraftSize(a.below, n - 1, u, v, ret);
    }
  }

  /** `v` leaves at least as much room as `u`. */
  predicate Roomier(v: Acts, u: Acts) { |Flat(v)| <= |Flat(u)| && Depth(v) <= Depth(u) }

  /** Two machines in the same place of the same computation, one on `u`, the other on `v`. */
  ghost predicate Twins(a: Am, b: Am, n: nat, u: Acts, v: Acts, ret: nat) {
    n >= 1 && Tops(a.acts, n, u) && Depth(a.acts) >= n && b == a.(acts := Graft(a.acts, n, v, ret))
  }

  /** The same results have arrived, on `u` at `retU` and on `v` at `ret`. */
  ghost predicate BothPaid(a: Am, b: Am, u: Acts, v: Acts, retU: nat, ret: nat, vs: seq<Word>) {
    && u.Act? && a.status == Running && a.pc == retU && a.acts == u.(ops := u.ops + vs)
    && b == Deliver(a, v, ret, vs).(pc := b.pc) && (v.Act? ==> b.pc == ret)
  }

  lemma PushTwins(a: Am, b: Am, n: nat, u: Acts, v: Acts, ret: nat, ws: seq<Word>)
    requires Twins(a, b, n, u, v, ret) && Roomier(v, u) && a.acts.Act?
    ensures ResourceTrap(APush(a, ws).status) || Twins(APush(a, ws), APush(b, ws), n, u, v, ret)
  {
    GraftSize(a.acts, n, u, v, ret);
  }

  lemma LocalTwins(m: Module, op: CuOp, a: Am, b: Am, n: nat, u: Acts, v: Acts, ret: nat)
    requires Twins(a, b, n, u, v, ret) && a.acts.Act? && b.acts.Act?
    requires op.LocalSet? || op.Unwind? || op.Br? || op.BrIfNot? || op.CallHost? || op.Unreachable? || op.Unknown?
    ensures Twins(AExec(m, op, a), AExec(m, op, b), n, u, v, ret)
  {
    hide Flat, Eval, APush, AEnter, AReturn, AReturnCall, ACallIndirect;
    if op.LocalSet? || op.Unwind? { OperandTwins(m, op, a, b, n, u, v, ret); }
  }

  lemma OperandTwins(m: Module, op: CuOp, a: Am, b: Am, n: nat, u: Acts, v: Acts, ret: nat)
    requires Twins(a, b, n, u, v, ret) && a.acts.Act? && b.acts.Act?
    requires op.LocalSet? || op.Unwind?
    ensures Twins(AExec(m, op, a), AExec(m, op, b), n, u, v, ret)
  {
    hide Flat;
  }

  lemma PushingTwins(m: Module, op: CuOp, a: Am, b: Am, n: nat, u: Acts, v: Acts, ret: nat)
    requires Twins(a, b, n, u, v, ret) && Roomier(v, u) && a.acts.Act? && b.acts.Act?
    requires op.Const? || op.LocalGet? || op.Simple?
    ensures ResourceTrap(AExec(m, op, a).status) || Twins(AExec(m, op, a), AExec(m, op, b), n, u, v, ret)
  {
    hide Flat, Eval, APush;
    match op
    case Const(k) => if k < |m.consts| { PushTwins(a, b, n, u, v, ret, [m.consts[k]]); }
    case LocalGet(x) => if x < |a.acts.locals| { PushTwins(a, b, n, u, v, ret, [a.acts.locals[x]]); }
    case Simple(p) =>
      if |a.acts.ops| >= Pops(p) {
        match Eval(m.segments, p, a.store, Top(a, Pops(p)))
        case Fault(_) =>
        case Done(s, ws) =>
          PushTwins(APop(a, Pops(p)).(store := s), APop(b, Pops(p)).(store := s), n, u, v, ret, ws);
      }
  }

  lemma PopTwins(a: Am, b: Am, k: nat, n: nat, u: Acts, v: Acts, ret: nat)
    requires Twins(a, b, n, u, v, ret) && a.acts.Act? && b.acts.Act? && k <= |a.acts.ops|
    ensures k <= |b.acts.ops| && Twins(APop(a, k), APop(b, k), n, u, v, ret)
  {
  }

  lemma NestTwins(a: Am, b: Am, c: Am, d: Am, n: nat, u: Acts, v: Acts, ret: nat)
    requires Twins(a, b, n, u, v, ret) && c.acts.Act? && d.acts.Act?
    requires c.acts.below == a.acts && d == c.(acts := c.acts.(below := b.acts))
    ensures Twins(c, d, n + 1, u, v, ret)
  {
    TopsDepth(a.acts, n, u);
  }

  lemma EnterTwins(a: Am, b: Am, f: FuncMeta, n: nat, u: Acts, v: Acts, ret: nat)
    requires Twins(a, b, n, u, v, ret) && Roomier(v, u) && a.acts.Act? && b.acts.Act? && a.status == Running
    ensures var a', b' := AEnter(a, f), AEnter(b, f);
      ResourceTrap(a'.status) || Twins(a', b', n, u, v, ret) || Twins(a', b', n + 1, u, v, ret)
  {
    GraftSize(a.acts, n, u, v, ret);
    hide Flat, Graft, Tops, Depth;
    if |a.acts.ops| >= f.nParams {
      PopTwins(a, b, f.nParams, n, u, v, ret);
      if AEnter(a, f).acts != a.acts {
        NestTwins(APop(a, f.nParams), APop(b, f.nParams), AEnter(a, f), AEnter(b, f), n, u, v, ret);
      }
    }
  }

  lemma IndirectTwins(m: Module, ty: nat, a: Am, b: Am, n: nat, u: Acts, v: Acts, ret: nat)
    requires Twins(a, b, n, u, v, ret) && Roomier(v, u) && a.acts.Act? && b.acts.Act? && a.status == Running
    ensures var a', b' := ACallIndirect(m, a, ty), ACallIndirect(m, b, ty);
      ResourceTrap(a'.status) || Twins(a', b', n, u, v, ret) || Twins(a', b', n + 1, u, v, ret)
  {
    hide Flat, Tops, Depth, AEnter;
    if |a.acts.ops| >= 1 {
      PopTwins(a, b, 1, n, u, v, ret);
      match Lookup(m, ty, Low(W32, Top(a, 1)[0]))
      case None =>
      case Some(fi) => if fi < |m.funcs| { EnterTwins(APop(a, 1), APop(b, 1), m.funcs[fi], n, u, v, ret); }
    }
  }

  lemma TailTwins(m: Module, f: nat, a: Am, b: Am, n: nat, u: Acts, v: Acts, ret: nat)
    requires Twins(a, b, n, u, v, ret) && Roomier(v, u) && a.acts.Act? && b.acts.Act?
    ensures var a', b' := AReturnCall(m, a, f), AReturnCall(m, b, f);
      ResourceTrap(a'.status) || Twins(a', b', n, u, v, ret)
  {
    GraftSize(a.acts, n, u, v, ret);
    hide Flat;
    if n == 1 {
      assert Tops(a.acts.below, 0, u);
      assert b.acts.below == v;
    }
  }

  lemma ReturnTwins(a: Am, b: Am, n: nat, u: Acts, v: Acts, ret: nat) returns (vs: seq<Word>)
    requires Twins(a, b, n, u, v, ret) && a.acts.Act? && b.acts.Act? && a.status == Running && u.Act?
    ensures var a', b' := AReturn(a), AReturn(b);
      Twins(a', b', n, u, v, ret) || (n >= 2 && Twins(a', b', n - 1, u, v, ret)) ||
      (n == 1 && |vs| == a.acts.nResults && a.acts.below == u && BothPaid(a', b', u, v, a.acts.retPc, ret, vs))
  {
    hide Flat;
    vs := [];
    if |a.acts.ops| >= a.acts.nResults {
      vs := Top(a, a.acts.nResults);
      if n == 1 {
        assert Tops(a.acts.below, 0, u);
      } else {
        var d := a.acts.below;
        assert Tops(d, n - 1, u) && d.Act?;
        assert Depth(d.(ops := d.ops + vs)) == Depth(d);
        assert Graft(d.(ops := d.ops + vs), n - 1, v, ret) == Graft(d, n - 1, v, ret).(ops := d.ops + vs);
      }
    }
  }

  /** The two machines are still together, at whatever depth. */
  ghost predicate Together(a: Am, b: Am, u: Acts, v: Acts, ret: nat) {
    exists n: nat :: Twins(a, b, n, u, v, ret)
  }

  ghost predicate Paired(a: Am, b: Am, u: Acts, v: Acts, retU: nat, ret: nat, nr: nat) {
    exists vs: seq<Word> :: |vs| == nr && BothPaid(a, b, u, v, retU, ret, vs)
  }

  lemma TwinStep(m: Module, a: Am, b: Am, n: nat, u: Acts, v: Acts, retU: nat, ret: nat, nr: nat)
    requires Twins(a, b, n, u, v, ret) && Roomier(v, u) && a.status == Running && u.Act?
    requires Debt(a.acts, u, retU, nr)
    ensures var a', b' := AStep(m, a), AStep(m, b);
      ResourceTrap(a'.status) || Together(a', b', u, v, ret) || Paired(a', b', u, v, retU, ret, nr)
  {
    hide Flat, Tops, Depth, AExec, AEnter, AReturn, AReturnCall, ACallIndirect, Graft;
    assert b.acts.Act? by { GraftAct(a.acts, n, v, ret); }
    if a.pc < |m.code| {
      var op, c, d := m.code[a.pc], a.(pc := a.pc + 1), b.(pc := b.pc + 1);
      assert Twins(c, d, n, u, v, ret);
      ExecTwins(m, op, c, d, n, u, v, retU, ret, nr);
    } else {
      assert Twins(AStep(m, a), AStep(m, b), n, u, v, ret);
    }
  }

  lemma GraftAct(a: Acts, n: nat, v: Acts, ret: nat)
    requires n >= 1 && Depth(a) >= n
    ensures Graft(a, n, v, ret).Act?
  {
  }

  lemma ExecTwins(m: Module, op: CuOp, a: Am, b: Am, n: nat, u: Acts, v: Acts, retU: nat, ret: nat, nr: nat)
    requires Twins(a, b, n, u, v, ret) && Roomier(v, u) && a.status == Running && u.Act? && a.acts.Act? && b.acts.Act?
    requires Debt(a.acts, u, retU, nr)
    ensures var a', b' := AExec(m, op, a), AExec(m, op, b);
      ResourceTrap(a'.status) || Together(a', b', u, v, ret) || Paired(a', b', u, v, retU, ret, nr)
  {
    hide Flat, Tops, Depth, Graft, AEnter, AReturn, AReturnCall, ACallIndirect, ASimple, AConst, ALocalGet, ALocalSet,
         AUnwind, ABr, ABrIfNot, ACallHost, Twins, BothPaid;
    match op
    case Const(_) => PushingTwins(m, op, a, b, n, u, v, ret);
    case LocalGet(_) => PushingTwins(m, op, a, b, n, u, v, ret);
    case Simple(_) => PushingTwins(m, op, a, b, n, u, v, ret);
    case Call(f) =>
      if f < |m.funcs| {
        EnterTwins(a, b, m.funcs[f], n, u, v, ret);
      } else {
        StopTwins(a, b, UnsupportedOp, n, u, v, ret);
      }
    case ReturnCall(f) => TailTwins(m, f, a, b, n, u, v, ret);
    case CallIndirect(t) => IndirectTwins(m, t, a, b, n, u, v, ret);
    case Return => var vs := ReturnTwins(a, b, n, u, v, ret);
    case EndFunc => var vs := ReturnTwins(a, b, n, u, v, ret);
    case _ => LocalTwins(m, op, a, b, n, u, v, ret);
  }

  lemma StopTwins(a: Am, b: Am, st: Status, n: nat, u: Acts, v: Acts, ret: nat)
    requires Twins(a, b, n, u, v, ret)
    ensures Twins(Stop(a, st), Stop(b, st), n, u, v, ret)
  {
  }

  lemma TwinResume(host: Host, a: Am, b: Am, n: nat, u: Acts, v: Acts, ret: nat)
    requires Twins(a, b, n, u, v, ret) && Roomier(v, u) && a.acts.Act?
    ensures ResourceTrap(AResume(host, a).status) || Together(AResume(host, a), AResume(host, b), u, v, ret)
  {
    hide Flat, Tops, Depth, APush;
    GraftAct(a.acts, n, v, ret);
    var log := a.store.log + [EventOf(a.mail, a.store)];
    var s := a.store.(log := log);
    var c, d := a.(store := s, status := Running), b.(store := s, status := Running);
    assert Twins(c, d, n, u, v, ret);
    match host(log)
    case None => StopTwins(c, d, UnsupportedOp, n, u, v, ret);
    case Some(rs) =>
      if |rs| > 1 {
        StopTwins(c, d, Undefined, n, u, v, ret);
      } else {
        PushTwins(c, d, n, u, v, ret, rs);
      }
  }

  lemma TwinTick(m: Module, host: Host, a: Am, b: Am, u: Acts, v: Acts, retU: nat, ret: nat, nr: nat)
    requires Together(a, b, u, v, ret) && Roomier(v, u) && !Final(a.status) && u.Act?
    requires Debt(a.acts, u, retU, nr)
    ensures var a', b' := ATick(m, host, a), ATick(m, host, b);
      ResourceTrap(a'.status) || Together(a', b', u, v, ret) || Paired(a', b', u, v, retU, ret, nr)
  {
    hide AStep, AResume, Roomier, Tops, Graft, BothPaid;
    var n: nat :| Twins(a, b, n, u, v, ret);
    if a.status == Running {
      TwinStep(m, a, b, n, u, v, retU, ret, nr);
    } else {
      TwinResume(host, a, b, n, u, v, ret);
    }
  }

  /** The lock-step run: after `i` ticks of both, the machine on `u` has hit a limit, or both have been paid, or both
      have stopped together, or the `k` ticks are used up. */
  lemma {:induction false} TwinRun(m: Module, host: Host, hts: Heights, a: Am, fs: Fns, b: Am, u: Acts, v: Acts,
                                   retU: nat, ret: nat, nr: nat, k: nat) returns (i: nat)
    requires Assigned(m, hts) && Linked(m, hts) && WellBehaved(host) && Sound(m, hts, a, fs)
    requires Together(a, b, u, v, ret) && Roomier(v, u) && !Final(a.status) && u.Act? && Debt(a.acts, u, retU, nr)
    ensures i <= k
    ensures var x, y := ATicks(m, host, a, i), ATicks(m, host, b, i);
      ResourceTrap(x.status) || Paired(x, y, u, v, retU, ret, nr) ||
      (Together(x, y, u, v, ret) && (Final(x.status) || i == k))
    decreases k
  {
    hide ATick, Sound, Linked, WellBehaved, Debt, Roomier, Together, Paired;
    i := 0;
    if k > 0 {
      var x, y := ATick(m, host, a), ATick(m, host, b);
      TwinTick(m, host, a, b, u, v, retU, ret, nr);
      TickAbove(m, host, hts, a, fs, u, retU, nr);
      if ResourceTrap(x.status) || Paired(x, y, u, v, retU, ret, nr) || Final(x.status) {
        i := 1;
        assert ATicks(m, host, a, 1) == ATicks(m, host, x, 0) && ATicks(m, host, b, 1) == ATicks(m, host, y, 0);
      } else {
        NotBoth(x, y, u, v, retU, ret, nr);
        var fs' := TickSound(m, host, hts, a, fs);
        i := TwinRun(m, host, hts, x, fs', y, u, v, retU, ret, nr, k - 1);
        i := i + 1;
      }
    }
  }

  /** Standing on `u` and having returned to it exclude each other. */
  lemma NotBoth(x: Am, y: Am, u: Acts, v: Acts, retU: nat, ret: nat, nr: nat)
    requires Together(x, y, u, v, ret) && u.Act?
    ensures !ReturnedTo(x, u, retU, nr)
  {
    var n: nat :| Twins(x, y, n, u, v, ret);
    TopsDepth(x.acts, n, u);
  }

  /** RETURN and END_FUNC, one case of the interpreter's switch. */
  predicate Leaving(op: CuOp) { op.Return? || op.EndFunc? }

  /** Two ways to leave a function: CALL `g` at `p` with RETURN or END_FUNC behind it, or RETURN_CALL `g` at `q`. */
  predicate TwoWays(m: Module, am: Am, p: nat, q: nat, g: nat) {
    && am.status == Running && am.acts.Act? && g < |m.funcs|
    && p + 1 < |m.code| && q < |m.code|
    && m.code[p] == Call(g) && Leaving(m.code[p + 1]) && m.code[q] == ReturnCall(g)
    && m.funcs[g].nResults == am.acts.nResults
  }

  /** What is left of a finished run. */
  predicate SameEnd(x: Am, y: Am) {
    x.status == y.status && x.store == y.store && x.fuel == y.fuel && (x.status == Ok ==> x.results == y.results)
  }

  /** After CALL on one side and RETURN_CALL on the other, the two machines are in the same place of `g`. */
  lemma Departure(m: Module, am: Am, p: nat, q: nat, g: nat)
    requires TwoWays(m, am, p, q, g) && |am.acts.ops| >= m.funcs[g].nParams
    ensures var x, y := AStep(m, am.(pc := p)), AStep(m, am.(pc := q));
      var u := APop(am, m.funcs[g].nParams).acts;
      ResourceTrap(x.status) ||
      (x.status == Running && Twins(x, y, 1, u, am.acts.below, am.acts.retPc) && Roomier(am.acts.below, u) &&
       Debt(x.acts, u, p + 1, am.acts.nResults))
  {
    hide AStep, Flat, Roomier;
    DepartureShape(m, am, p, q, g);
    var x, u := AStep(m, am.(pc := p)), APop(am, m.funcs[g].nParams).acts;
    if !ResourceTrap(x.status) { OnTop(x.acts, u); }
  }

  lemma DepartureShape(m: Module, am: Am, p: nat, q: nat, g: nat)
    requires TwoWays(m, am, p, q, g) && |am.acts.ops| >= m.funcs[g].nParams
    ensures var x, y := AStep(m, am.(pc := p)), AStep(m, am.(pc := q));
      var u := APop(am, m.funcs[g].nParams).acts;
      ResourceTrap(x.status) ||
      (x.status == Running && x.acts.Act? && x.acts.below == u && x.acts.retPc == p + 1 &&
       x.acts.nResults == am.acts.nResults && Roomier(am.acts.below, u) &&
       y == x.(acts := x.acts.(below := am.acts.below, retPc := am.acts.retPc)))
  {
    var f := m.funcs[g];
    var u := APop(am, f.nParams).acts;
    FlatSize(am.acts);
    FlatSize(u);
    assert Depth(am.acts) == Depth(u) == Depth(u.below) + 1 && BaseOf(am.acts) == |Flat(u.below)|;
    hide Flat, Depth, BaseOf;
    assert AStep(m, am.(pc := p)) == AEnter(am.(pc := p + 1), f);
    assert AStep(m, am.(pc := q)) == AReturnCall(m, am.(pc := q + 1), g);
  }

  lemma OnTop(a: Acts, u: Acts)
    requires a.Act? && a.below == u
    ensures Tops(a, 1, u) && Depth(a) >= 1
  {
    assert Tops(a.below, 0, u);
  }

  /** One more step, the RETURN, and the caller on `u` hands on what the tail-called function has already delivered. */
  lemma Arrival(m: Module, x: Am, y: Am, u: Acts, p: nat, nr: nat)
    requires u.Act? && u.nResults == nr && p + 1 < |m.code| && Leaving(m.code[p + 1])
    requires Paired(x, y, u, u.below, p + 1, u.retPc, nr)
    ensures var z := AStep(m, x); x.status == Running && z == y.(pc := z.pc) && (u.below.Act? ==> z == y)
  {
    var vs: seq<Word> :| |vs| == nr && BothPaid(x, y, u, u.below, p + 1, u.retPc, vs);
    assert Top(x.(pc := x.pc + 1), nr) == vs;
  }

  /** The CALL has come back and its RETURN has run: both machines are in one and the same state, in the outer
      caller. */
  ghost predicate Rejoined(m: Module, host: Host, a: Am, b: Am, i: nat, outer: Acts, retPc: nat, nr: nat) {
    ATicks(m, host, a, i + 1) == ATicks(m, host, b, i) && ReturnedTo(ATicks(m, host, b, i), outer, retPc, nr)
  }

  /** The CALL side has finished the whole run without hitting a limit, and the RETURN_CALL side has finished alike. */
  ghost predicate EndedAlike(m: Module, host: Host, a: Am, b: Am, i: nat) {
    exists j: nat {:trigger ATicks(m, host, a, j)} :: j <= i + 1 && Final(ATicks(m, host, a, j).status) &&
      (ResourceTrap(ATicks(m, host, a, j).status) || SameEnd(ATicks(m, host, a, j), ATicks(m, host, b, i)))
  }

  /** Tail calls are calls. Either the CALL side hits a limit of the machine, or both sides end with the same status,
      store, fuel and results, or the RETURN_CALL side reaches, one step earlier, the very state in which the CALL side
      resumes the outer caller, with exactly the declared results on the outer caller's operands; or `k` is too
      small. */
  lemma TailCallIsCall(m: Module, host: Host, hts: Heights, am: Am, fs: Fns, p: nat, q: nat, g: nat, k: nat)
    returns (i: nat)
    requires Assigned(m, hts) && Linked(m, hts) && WellBehaved(host)
    requires TwoWays(m, am, p, q, g) && Sound(m, hts, am.(pc := p), fs)
    ensures i <= k + 1
    ensures var a, b := am.(pc := p), am.(pc := q);
      EndedAlike(m, host, a, b, i) || Rejoined(m, host, a, b, i, am.acts.below, am.acts.retPc, am.acts.nResults) ||
      (i == k + 1 && !Final(ATicks(m, host, a, i).status))
  {
    hide Assigned, Linked, WellBehaved, AStep, Sound, EndedAlike, Rejoined, Together, Debt, Paired, Roomier;
    var a, b := am.(pc := p), am.(pc := q);
    var x, y := ATick(m, host, a), ATick(m, host, b);
    var fs' := TickSound(m, host, hts, a, fs);
    assert ATicks(m, host, a, 1) == ATicks(m, host, x, 0);
    if ResourceTrap(x.status) {
      i := 0;
      EndsAlike(m, host, a, b, 1, 0);
    } else {
      SoundIsDefined(m, hts, x, fs');
      EnoughArguments(m, a, g);
      Departure(m, am, p, q, g);
      var u := APop(am, m.funcs[g].nParams).acts;
      var nr := am.acts.nResults;
      assert Together(x, y, u, u.below, u.retPc) by { Together1(x, y, u, u.below, u.retPc); }
      i := TwinRun(m, host, hts, x, fs', y, u, u.below, p + 1, u.retPc, nr, k);
      i := i + 1;
      assert ATicks(m, host, a, i) == ATicks(m, host, x, i - 1) && ATicks(m, host, b, i) == ATicks(m, host, y, i - 1);
      AfterTwinRun(m, host, a, b, u, p, nr, i);
    }
  }

  lemma Together1(x: Am, y: Am, u: Acts, v: Acts, ret: nat)
    requires Twins(x, y, 1, u, v, ret)
    ensures Together(x, y, u, v, ret)
  {
  }

  lemma EndsAlike(m: Module, host: Host, a: Am, b: Am, j: nat, i: nat)
    requires j <= i + 1 && Final(ATicks(m, host, a, j).status)
    requires ResourceTrap(ATicks(m, host, a, j).status) || SameEnd(ATicks(m, host, a, j), ATicks(m, host, b, i))
    ensures EndedAlike(m, host, a, b, i)
  {
  }

  lemma AfterTwinRun(m: Module, host: Host, a: Am, b: Am, u: Acts, p: nat, nr: nat, i: nat)
    requires u.Act? && u.nResults == nr && p + 1 < |m.code| && Leaving(m.code[p + 1])
    requires var x, y := ATicks(m, host, a, i), ATicks(m, host, b, i);
      ResourceTrap(x.status) || Paired(x, y, u, u.below, p + 1, u.retPc, nr) || Together(x, y, u, u.below, u.retPc)
    ensures EndedAlike(m, host, a, b, i) || Rejoined(m, host, a, b, i, u.below, u.retPc, nr) ||
      (!Final(ATicks(m, host, a, i).status) &&
       !Paired(ATicks(m, host, a, i), ATicks(m, host, b, i), u, u.below, p + 1, u.retPc, nr))
  {
    hide ATicks, Paired, Together, EndedAlike, Rejoined;
    var x, y := ATicks(m, host, a, i), ATicks(m, host, b, i);
    if Paired(x, y, u, u.below, p + 1, u.retPc, nr) {
      AfterArrival(m, host, a, b, u, p, nr, i);
    } else if Final(x.status) {
      if !ResourceTrap(x.status) { StoppedAlike(x, y, u, u.below, u.retPc); }
      EndsAlike(m, host, a, b, i, i);
    }
  }

  lemma EnoughArguments(m: Module, a: Am, g: nat)
    requires a.status == Running && a.acts.Act? && a.pc < |m.code| && m.code[a.pc] == Call(g) && g < |m.funcs|
    requires AStep(m, a).status != Undefined && !ResourceTrap(AStep(m, a).status)
    ensures |a.acts.ops| >= m.funcs[g].nParams
  {
    assert AStep(m, a) == AEnter(a.(pc := a.pc + 1), m.funcs[g]);
  }

  /** No run on `u` ends with status Ok without first returning to `u`. */
  lemma StoppedAlike(x: Am, y: Am, u: Acts, v: Acts, ret: nat)
    requires Together(x, y, u, v, ret)
    ensures SameEnd(x, y)
  {
    var n: nat :| Twins(x, y, n, u, v, ret);
  }

  lemma AfterArrival(m: Module, host: Host, a: Am, b: Am, u: Acts, p: nat, nr: nat, i: nat)
    requires u.Act? && u.nResults == nr && p + 1 < |m.code| && Leaving(m.code[p + 1])
    requires Paired(ATicks(m, host, a, i), ATicks(m, host, b, i), u, u.below, p + 1, u.retPc, nr)
    ensures EndedAlike(m, host, a, b, i) || Rejoined(m, host, a, b, i, u.below, u.retPc, nr)
  {
    hide AStep, Paired;
    var x, y := ATicks(m, host, a, i), ATicks(m, host, b, i);
    Arrival(m, x, y, u, p, nr);
    Simulation.ATicksAdd(m, host, a, i, 1);
    assert ATicks(m, host, x, 1) == ATicks(m, host, ATick(m, host, x), 0) == AStep(m, x);
    PaidState(x, y, u, p, nr);
    if u.below.Bottom? {
      assert Final(ATicks(m, host, a, i + 1).status);
    }
  }

  lemma PaidState(x: Am, y: Am, u: Acts, p: nat, nr: nat)
    requires u.Act? && Paired(x, y, u, u.below, p + 1, u.retPc, nr)
    ensures u.below.Act? ==> ReturnedTo(y, u.below, u.retPc, nr)
    ensures u.below.Bottom? ==> y.status == Ok
  {
  }

  /** The same, for whole runs: what the CALL version ends with, short of a limit, the RETURN_CALL version ends with
      too, and in no more steps. */
  lemma TailCallRunIsCallRun(m: Module, host: Host, hts: Heights, am: Am, fs: Fns, p: nat, q: nat, g: nat, k: nat)
    returns (i: nat)
    requires Assigned(m, hts) && Linked(m, hts) && WellBehaved(host)
    requires TwoWays(m, am, p, q, g) && Sound(m, hts, am.(pc := p), fs)
    requires Final(ATicks(m, host, am.(pc := p), k).status)
    ensures i <= k
    ensures var e := ATicks(m, host, am.(pc := p), k);
      ResourceTrap(e.status) || SameEnd(e, ATicks(m, host, am.(pc := q), i))
  {
    hide Assigned, Linked, WellBehaved, ATick, Sound, ReturnedTo;
    var a, b := am.(pc := p), am.(pc := q);
    i := TailCallIsCall(m, host, hts, am, fs, p, q, g, k - 1);
    if EndedAlike(m, host, a, b, i) {
      var j: nat :| j <= i + 1 && Final(ATicks(m, host, a, j).status) &&
        (ResourceTrap(ATicks(m, host, a, j).status) || SameEnd(ATicks(m, host, a, j), ATicks(m, host, b, i)));
      OneEnd(m, host, a, j, k);
    } else if Rejoined(m, host, a, b, i, am.acts.below, am.acts.retPc, am.acts.nResults) {
      LateEnd(m, host, a, i + 1, k);
      Simulation.ATicksAdd(m, host, a, i + 1, k - i - 1);
      Simulation.ATicksAdd(m, host, b, i, k - i - 1);
      i := k - 1;
    }
  }

  lemma OneEnd(m: Module, host: Host, a: Am, j: nat, k: nat)
    requires Final(ATicks(m, host, a, j).status) && Final(ATicks(m, host, a, k).status)
    ensures ATicks(m, host, a, j) == ATicks(m, host, a, k)
  {
    var i, l := if j <= k then j else k, if j <= k then k else j;
    Simulation.ATicksAdd(m, host, a, i, l - i);
    Simulation.AFinalStays(m, host, ATicks(m, host, a, i), l - i);
  }

  lemma LateEnd(m: Module, host: Host, a: Am, j: nat, k: nat)
    requires !Final(ATicks(m, host, a, j).status) && Final(ATicks(m, host, a, k).status)
    ensures j < k
  {
    if k <= j {
      Simulation.ATicksAdd(m, host, a, k, j - k);
      Simulation.AFinalStays(m, host, ATicks(m, host, a, k), j - k);
    }
  }

  // ----- on the interpreter's own stack -----

  /** Equal but for the dead slots above the stack pointer. */
  ghost predicate SameLive(x: Vm, y: Vm) {
    && x.pc == y.pc && x.sp == y.sp && x.fp == y.fp && x.frames == y.frames && x.fuel == y.fuel && x.status == y.status
    && x.stack[..x.sp] == y.stack[..y.sp] && x.store == y.store && x.mail == y.mail
  }

  /** Equal finished runs: same status, store and fuel, and the same `n` results at the bottom of the stack. */
  predicate SameFinish(x: Vm, y: Vm, n: nat) {
    && x.status == y.status && x.store == y.store && x.fuel == y.fuel
    && (x.status == Ok ==> n <= STACK_CAP && x.stack[..n] == y.stack[..n])
  }

  /** Tail calls are calls, on the interpreter: when CALL followed by RETURN gets back to the outer caller, RETURN_CALL
      has led, one step earlier, to the same program counter, frames, live stack, fuel and store. */
  lemma TailCallRejoins(m: Module, host: Host, hts: Heights, vm: Vm, am: Am, fs: Fns, p: nat, q: nat, g: nat, k: nat)
    returns (i: nat)
    requires Assigned(m, hts) && Linked(m, hts) && WellBehaved(host)
    requires TwoWays(m, am, p, q, g) && Sound(m, hts, am.(pc := p), fs) && Sound(m, hts, am.(pc := q), fs)
    requires Rel(vm, am)
    ensures i <= k + 1
    ensures var x, y := Ticks(m, host, vm.(pc := p), i + 1), Ticks(m, host, vm.(pc := q), i);
      var fr := vm.frames[|vm.frames| - 1];
      (x.status == Running && SameLive(x, y) && x.pc == fr.retPc && x.frames == vm.frames[..|vm.frames| - 1] &&
       x.sp == vm.fp + fr.nResults && x.stack[..vm.fp] == vm.stack[..vm.fp]) ||
      (exists j: nat :: j <= i + 1 && Final(Ticks(m, host, vm.(pc := p), j).status) &&
         (LimitHit(m, host, vm.(pc := p), j) || SameFinish(Ticks(m, host, vm.(pc := p), j), y,
                                                           |ATicks(m, host, am.(pc := p), j).results|))) ||
      (i == k + 1 && !Final(Ticks(m, host, vm.(pc := p), i).status))
  {
    hide Assigned, Linked, WellBehaved, ATick, Tick, Sound, Typed, LimitHit, SameFinish, SameEnd;
    var a, b := am.(pc := p), am.(pc := q);
    i := TailCallIsCall(m, host, hts, am, fs, p, q, g, k);
    BothRun(m, host, hts, vm.(pc := q), b, fs, i);
    if EndedAlike(m, host, a, b, i) {
      var j: nat :| j <= i + 1 && Final(ATicks(m, host, a, j).status) &&
        (ResourceTrap(ATicks(m, host, a, j).status) || SameEnd(ATicks(m, host, a, j), ATicks(m, host, b, i)));
      BothRun(m, host, hts, vm.(pc := p), a, fs, j);
      SoundLimits(m, host, hts, vm.(pc := p), a, fs, j);
      Finished(Ticks(m, host, vm.(pc := p), j), ATicks(m, host, a, j), Ticks(m, host, vm.(pc := q), i),
               ATicks(m, host, b, i));
    } else if Rejoined(m, host, a, b, i, am.acts.below, am.acts.retPc, am.acts.nResults) {
      BothRun(m, host, hts, vm.(pc := p), a, fs, i + 1);
      var x, y, z := Ticks(m, host, vm.(pc := p), i + 1), Ticks(m, host, vm.(pc := q), i), ATicks(m, host, b, i);
      AtReturn(vm, am, x, z);
      CallerSlots(vm, am, x, z, am.acts.below, am.acts.retPc, am.acts.nResults);
    } else {
      BothRun(m, host, hts, vm.(pc := p), a, fs, i);
    }
  }

  lemma Finished(x: Vm, a: Am, y: Vm, b: Am)
    requires Rel(x, a) && Rel(y, b) && Final(a.status)
    ensures Final(x.status) && x.status == a.status
    ensures SameEnd(a, b) ==> SameFinish(x, y, |a.results|)
  {
  }

  /** The instruction at `pc` neither opens nor closes a frame. */
  predicate StaysInFrame(m: Module, pc: nat) {
    pc < |m.code| ==> var op := m.code[pc]; !op.Call? && !op.CallIndirect? && !op.Return? && !op.EndFunc?
  }

  /** Any chain of tail calls, with any straight-line code, jumps and host calls between them, leaves the frame pointer,
      the number of frames and everything but the result count of the top frame as they were. */
  lemma {:induction false} TailChain(m: Module, host: Host, vm: Vm, k: nat)
    requires forall j :: 0 <= j < k && Ticks(m, host, vm, j).status == Running ==>
      StaysInFrame(m, Ticks(m, host, vm, j).pc)
    ensures SameFrames(vm, Ticks(m, host, vm, k))
    decreases k
  {
    hide Tick, StaysInFrame;
    if k > 0 {
      var v := Tick(m, host, vm);
      assert Ticks(m, host, vm, 0) == vm;
      FrameTick(m, host, vm);
      forall j | 0 <= j < k - 1 && Ticks(m, host, v, j).status == Running
        ensures StaysInFrame(m, Ticks(m, host, v, j).pc)
      {
        assert Ticks(m, host, vm, j + 1) == Ticks(m, host, v, j);
      }
      TailChain(m, host, v, k - 1);
    }
  }

  predicate SameFrames(v: Vm, w: Vm) {
    && w.fp == v.fp && |w.frames| == |v.frames|
    && (|v.frames| > 0 ==>
          var c := |v.frames| - 1;
          w.frames[..c] == v.frames[..c] && w.frames[c] == v.frames[c].(nResults := w.frames[c].nResults))
  }

  lemma FrameTick(m: Module, host: Host, vm: Vm)
    requires vm.status == Running ==> StaysInFrame(m, vm.pc)
    ensures SameFrames(vm, Tick(m, host, vm))
  {
    hide Eval, Memory.Moved, Memory.Written;
  }
}
