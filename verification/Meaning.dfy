/** The meaning of a program does not depend on how much fuel its semantics was given, once that is enough. */
module Meaning {
  import opened Words
  import opened Bytecode
  import opened Wasm

  predicate Structured(i: Instr) { i.Block? || i.IfThen? || i.IfElse? }

  predicate Calling(i: Instr) { i.Invoke? || i.TailInvoke? || i.InvokeIndirect? }

  lemma FlatFuel(p: Program, host: Host, k: Ctx, i: Instr, stk: seq<Word>, locals: seq<Word>, s: Store, n: nat, n': nat)
    requires !Structured(i) && !i.Loop? && !Calling(i)
    ensures ExecInstr(p, host, k, i, stk, locals, s, n') == ExecInstr(p, host, k, i, stk, locals, s, n)
  {
    hide Eval;
  }

  lemma {:induction false} InstrFuel(p: Program, host: Host, k: Ctx, i: Instr, stk: seq<Word>, locals: seq<Word>,
                                     s: Store, n: nat)
    requires ExecInstr(p, host, k, i, stk, locals, s, n) != Timeout
    ensures ExecInstr(p, host, k, i, stk, locals, s, n + 1) == ExecInstr(p, host, k, i, stk, locals, s, n)
    decreases n, 0, i, 2
  {
    hide ExecInstr;
    if Structured(i) {
      StructuredFuel(p, host, k, i, stk, locals, s, n);
    } else if i.Loop? {
      LoopFuel(p, host, k, i, stk, locals, s, n);
    } else if Calling(i) {
      CallFuel(p, host, k, i, stk, locals, s, n);
    } else {
      FlatFuel(p, host, k, i, stk, locals, s, n, n + 1);
    }
  }

  lemma {:induction false} StructuredFuel(p: Program, host: Host, k: Ctx, i: Instr, stk: seq<Word>, locals: seq<Word>,
                                          s: Store, n: nat)
    requires Structured(i) && ExecInstr(p, host, k, i, stk, locals, s, n) != Timeout
    ensures ExecInstr(p, host, k, i, stk, locals, s, n + 1) == ExecInstr(p, host, k, i, stk, locals, s, n)
    decreases n, 0, i, 1
  {
    hide ExecBody, ExecFunc, Eval, HostCall;
    if i.Block? {
      if |stk| >= i.np { BodyFuel(p, host, Inner(k, i.nr), i.body, Last(stk, i.np), locals, s, n); }
    } else {
      IfFuel(p, host, k, i, stk, locals, s, n);
    }
  }

  lemma {:induction false} IfFuel(p: Program, host: Host, k: Ctx, i: Instr, stk: seq<Word>, locals: seq<Word>, s: Store,
                                  n: nat)
    requires (i.IfThen? || i.IfElse?) && ExecInstr(p, host, k, i, stk, locals, s, n) != Timeout
    ensures ExecInstr(p, host, k, i, stk, locals, s, n + 1) == ExecInstr(p, host, k, i, stk, locals, s, n)
    decreases n, 0, i, 0
  {
    hide ExecBody, ExecFunc, Eval, HostCall, Leave;
    if |stk| >= 1 + i.np {
      var on := Low(W32, Last(stk, 1)[0]) != 0;
      var args := Last(Wasm.Drop(stk, 1), i.np);
      if on {
        LeaveTimeout(ExecBody(p, host, Inner(k, i.nr), i.thn, args, locals, s, n), Wasm.Drop(Wasm.Drop(stk, 1), i.np));
        BodyFuel(p, host, Inner(k, i.nr), i.thn, args, locals, s, n);
      } else if i.IfElse? {
        LeaveTimeout(ExecBody(p, host, Inner(k, i.nr), i.els, args, locals, s, n), Wasm.Drop(Wasm.Drop(stk, 1), i.np));
        BodyFuel(p, host, Inner(k, i.nr), i.els, args, locals, s, n);
      }
    }
  }

  lemma LeaveTimeout(o: Outcome, under: seq<Word>)
    ensures Leave(o, under) == Timeout <==> o == Timeout
  {
  }

  /** One iteration of a loop. */
  lemma LoopOnce(p: Program, host: Host, k: Ctx, i: Instr, stk: seq<Word>, locals: seq<Word>, s: Store, n: nat)
    requires i.Loop?
    ensures ExecInstr(p, host, k, i, stk, locals, s, n) ==
      if |stk| < i.np then Stuck
      else
        var o, under := ExecBody(p, host, Inner(k, i.np), i.body, Last(stk, i.np), locals, s, n), Wasm.Drop(stk, i.np);
        if o.Jump? && o.d == 0 then
          if n == 0 then Timeout else ExecInstr(p, host, k, i, under + o.vals, o.locals, o.store, n - 1)
        else Leave(o, under)
  {
    hide ExecBody, Leave;
  }

  lemma {:induction false} LoopFuel(p: Program, host: Host, k: Ctx, i: Instr, stk: seq<Word>, locals: seq<Word>,
                                    s: Store, n: nat)
    requires i.Loop? && ExecInstr(p, host, k, i, stk, locals, s, n) != Timeout
    ensures ExecInstr(p, host, k, i, stk, locals, s, n + 1) == ExecInstr(p, host, k, i, stk, locals, s, n)
    decreases n, 0, i, 0
  {
    hide ExecInstr, ExecBody, Leave;
    var np := i.np;
    LoopOnce(p, host, k, i, stk, locals, s, n);
    LoopOnce(p, host, k, i, stk, locals, s, n + 1);
    if |stk| >= np {
      LeaveTimeout(ExecBody(p, host, Inner(k, np), i.body, Last(stk, np), locals, s, n), Wasm.Drop(stk, np));
      BodyFuel(p, host, Inner(k, np), i.body, Last(stk, np), locals, s, n);
      var o := ExecBody(p, host, Inner(k, np), i.body, Last(stk, np), locals, s, n);
      if o.Jump? && o.d == 0 { InstrFuel(p, host, k, i, Wasm.Drop(stk, np) + o.vals, o.locals, o.store, n - 1); }
    }
  }

  /** What a call of `f` brings back to its caller. */
  function Callee(p: Program, host: Host, f: nat, args: seq<Word>, s: Store, n: nat): Outcome
    requires f < |p.funcs| && p.funcs[f].ty < |p.types|
  {
    if p.funcs[f].Import? then HostCall(host, p.funcs[f].fn, args, NumResults(p, f), s)
    else if n == 0 then Timeout
    else ExecFunc(p, host, f, args, s, n - 1)
  }

  lemma DirectCall(p: Program, host: Host, k: Ctx, i: Instr, stk: seq<Word>, locals: seq<Word>, s: Store, n: nat)
    requires i.Invoke? || i.TailInvoke?
    ensures ExecInstr(p, host, k, i, stk, locals, s, n) ==
      if i.f >= |p.funcs| || p.funcs[i.f].ty >= |p.types| || |stk| < NumParams(p, i.f) then Stuck
      else
        var np := NumParams(p, i.f);
        var o := Callee(p, host, i.f, Last(stk, np), s, n);
        if i.Invoke? then AfterCall(o, Wasm.Drop(stk, np), locals) else o
  {
    hide ExecFunc, HostCall;
  }

  lemma IndirectCall(p: Program, host: Host, k: Ctx, i: Instr, stk: seq<Word>, locals: seq<Word>, s: Store, n: nat)
    requires i.InvokeIndirect? && |stk| >= 1
    ensures ExecInstr(p, host, k, i, stk, locals, s, n) ==
      match Resolve(p, i.ty, Low(W32, Last(stk, 1)[0]))
      case None => Trapped(TrapIndirectCall, s)
      case Some(f) =>
        var rest, np := Wasm.Drop(stk, 1), NumParams(p, f);
        if |rest| < np then Stuck
        else AfterCall(Callee(p, host, f, Last(rest, np), s, n), Wasm.Drop(rest, np), locals)
  {
    hide ExecFunc, HostCall, Low;
  }

  lemma AfterTimeout(o: Outcome, stk: seq<Word>, locals: seq<Word>)
    ensures AfterCall(o, stk, locals) == Timeout <==> o == Timeout
  {
  }

  lemma {:induction false} CallFuel(p: Program, host: Host, k: Ctx, i: Instr, stk: seq<Word>, locals: seq<Word>,
                                    s: Store, n: nat)
    requires Calling(i) && ExecInstr(p, host, k, i, stk, locals, s, n) != Timeout
    ensures ExecInstr(p, host, k, i, stk, locals, s, n + 1) == ExecInstr(p, host, k, i, stk, locals, s, n)
    decreases n, 0, i, 1
  {
    hide ExecInstr, ExecFunc, HostCall, AfterCall;
    if i.InvokeIndirect? {
      IndirectFuel(p, host, k, i, stk, locals, s, n);
    } else {
      DirectCall(p, host, k, i, stk, locals, s, n);
      DirectCall(p, host, k, i, stk, locals, s, n + 1);
      if i.f < |p.funcs| && p.funcs[i.f].ty < |p.types| && |stk| >= NumParams(p, i.f) {
        var np := NumParams(p, i.f);
        AfterTimeout(Callee(p, host, i.f, Last(stk, np), s, n), Wasm.Drop(stk, np), locals);
        if p.funcs[i.f].Local? { FuncFuel(p, host, i.f, Last(stk, np), s, n - 1); }
      }
    }
  }

  lemma {:induction false} IndirectFuel(p: Program, host: Host, k: Ctx, i: Instr, stk: seq<Word>, locals: seq<Word>,
                                        s: Store, n: nat)
    requires i.InvokeIndirect? && ExecInstr(p, host, k, i, stk, locals, s, n) != Timeout
    ensures ExecInstr(p, host, k, i, stk, locals, s, n + 1) == ExecInstr(p, host, k, i, stk, locals, s, n)
    decreases n, 0, i, 0
  {
    hide ExecFunc, HostCall, AfterCall, Low;
    if |stk| >= 1 {
      hide ExecInstr;
      IndirectCall(p, host, k, i, stk, locals, s, n);
      IndirectCall(p, host, k, i, stk, locals, s, n + 1);
      var rest, found := Wasm.Drop(stk, 1), Resolve(p, i.ty, Low(W32, Last(stk, 1)[0]));
      if found.Some? && |rest| >= NumParams(p, found.value) {
        var np := NumParams(p, found.value);
        AfterTimeout(Callee(p, host, found.value, Last(rest, np), s, n), Wasm.Drop(rest, np), locals);
        if p.funcs[found.value].Local? { FuncFuel(p, host, found.value, Last(rest, np), s, n - 1); }
      }
    }
  }

  lemma {:induction false} BodyFuel(p: Program, host: Host, k: Ctx, b: Body, stk: seq<Word>, locals: seq<Word>,
                                    s: Store, n: nat)
    requires ExecBody(p, host, k, b, stk, locals, s, n) != Timeout
    ensures ExecBody(p, host, k, b, stk, locals, s, n + 1) == ExecBody(p, host, k, b, stk, locals, s, n)
    decreases n, 0, b, 0
  {
    hide ExecInstr;
    if b.Seq? {
      InstrFuel(p, host, k, b.head, stk, locals, s, n);
      var o := ExecInstr(p, host, k, b.head, stk, locals, s, n);
      if o.Normal? { BodyFuel(p, host, k, b.tail, o.stk, o.locals, o.store, n); }
    }
  }

  lemma {:induction false} FuncFuel(p: Program, host: Host, f: nat, args: seq<Word>, s: Store, n: nat)
    requires f < |p.funcs| && p.funcs[f].Local? && p.funcs[f].ty < |p.types|
    requires ExecFunc(p, host, f, args, s, n) != Timeout
    ensures ExecFunc(p, host, f, args, s, n + 1) == ExecFunc(p, host, f, args, s, n)
    decreases n, 1
  {
    hide ExecBody;
    var nr := NumResults(p, f);
    var k := Ctx([nr], nr, |args| + p.funcs[f].nLocals);
    var l := args + seq(p.funcs[f].nLocals, _ => 0);
    BodyFuel(p, host, k, p.funcs[f].body, [], l, s, n);
  }

  /** Two amounts of fuel that are both enough give the same outcome. */
  lemma {:induction false} MeaningUnique(p: Program, host: Host, f: nat, args: seq<Word>, s: Store, n: nat, n': nat)
    requires f < |p.funcs| && p.funcs[f].Local? && p.funcs[f].ty < |p.types|
    requires n <= n' && ExecFunc(p, host, f, args, s, n) != Timeout
    ensures ExecFunc(p, host, f, args, s, n') == ExecFunc(p, host, f, args, s, n)
    decreases n' - n
  {
    hide ExecFunc;
    if n < n' {
      FuncFuel(p, host, f, args, s, n);
      MeaningUnique(p, host, f, args, s, n + 1, n');
    }
  }
}
