/** Structured WebAssembly function bodies: their stack discipline and their meaning, after section 4.4.8 of the
    WebAssembly Core Specification 2.0. This is the reference the lowering is measured against; it knows nothing of
    program counters, frames or limits. */
module Wasm {
  import opened Words
  import opened Bytecode

  datatype ValType = I32 | I64 | F32 | F64

  datatype Sig = Sig(params: seq<ValType>, results: seq<ValType>)

  datatype Instr =
    | Nop
    | Reinterpret                    // the float/integer bit casts: one operand, same bits
    | Value(v: Word)                 // i32.const, i64.const and the float constants, as bits
    | GetLocal(x: nat) | SetLocal(x: nat) | TeeLocal(x: nat)
    | Basic(p: Plain)
    | Block(np: nat, nr: nat, body: Body)
    | Loop(np: nat, nr: nat, body: Body)
    | IfThen(np: nat, nr: nat, thn: Body)
    | IfElse(np: nat, nr: nat, thn: Body, els: Body)
    | Branch(d: nat) | BranchIf(d: nat) | BranchTable(ds: seq<nat>, default: nat)
    | Ret | Trap
    | Invoke(f: nat) | TailInvoke(f: nat) | InvokeIndirect(ty: nat)

  datatype Body = End | Seq(head: Instr, tail: Body)

  datatype Func =
    | Import(ty: nat, fn: nat)
    | Local(ty: nat, nLocals: nat, body: Body)

  datatype Program = Program(types: seq<Sig>, funcs: seq<Func>, nImports: nat, table: seq<nat>,
    segments: seq<seq<Byte>>)

  function NumParams(p: Program, f: nat): nat
    requires f < |p.funcs| && p.funcs[f].ty < |p.types|
  {
    |p.types[p.funcs[f].ty].params|
  }

  function NumResults(p: Program, f: nat): nat
    requires f < |p.funcs| && p.funcs[f].ty < |p.types|
  {
    |p.types[p.funcs[f].ty].results|
  }

  /** Imports come first, type indices exist and signatures fit a fingerprint. */
  ghost predicate WellFormed(p: Program) {
    && p.nImports <= |p.funcs|
    && (forall i :: 0 <= i < |p.types| ==> |p.types[i].params| <= 8 && |p.types[i].results| <= 8)
    && (forall f :: 0 <= f < |p.funcs| ==> p.funcs[f].ty < |p.types| && (p.funcs[f].Import? <==> f < p.nImports))
  }

  /** No table slot holds an import. */
  predicate TableDefined(p: Program) {
    forall i :: 0 <= i < |p.table| ==> p.table[i] >= p.nImports || p.table[i] == TABLE_NULL
  }

  // ----- stack discipline -----

  /** Operand height inside the current block, and whether the position is unreachable (stack-polymorphic). */
  datatype Ty = Ty(h: nat, dead: bool)

  /** Label arities, innermost first, the result count and the number of locals. */
  datatype Ctx = Ctx(labels: seq<nat>, nRes: nat, nLocals: nat)

  function PopTy(t: Ty, n: nat): Option<Ty> {
    if t.h >= n then Some(Ty(t.h - n, t.dead)) else if t.dead then Some(Ty(0, true)) else None
  }

  function Move(t: Ty, pops: nat, pushes: nat): Option<Ty> {
    match PopTy(t, pops)
    case None => None
    case Some(u) => Some(Ty(u.h + pushes, u.dead))
  }

  /** Control never gets past this instruction. */
  function Diverge(t: Ty, pops: nat): Option<Ty> {
    if PopTy(t, pops).None? then None else Some(Ty(0, true))
  }

  predicate Ends(t: Option<Ty>, n: nat) {
    t.Some? && (t.value.h == n || (t.value.dead && t.value.h <= n))
  }

  function Inner(k: Ctx, arity: nat): Ctx { k.(labels := [arity] + k.labels) }

  predicate Targets(k: Ctx, t: Ty, ds: seq<nat>) {
    forall i :: 0 <= i < |ds| ==> ds[i] < |k.labels| && PopTy(t, k.labels[ds[i]]).Some?
  }

  function TypeInstr(p: Program, k: Ctx, i: Instr, t: Ty): Option<Ty>
    decreases i
  {
    match i
    case Nop => Some(t)
    case Reinterpret => Move(t, 1, 1)
    case Value(_) => Move(t, 0, 1)
    case GetLocal(x) => if x < k.nLocals then Move(t, 0, 1) else None
    case SetLocal(x) => if x < k.nLocals then Move(t, 1, 0) else None
    case TeeLocal(x) => if x < k.nLocals then Move(t, 1, 1) else None
    case Basic(q) => Move(t, Pops(q), Pushes(q))
    case Block(np, nr, body) => if Ends(TypeBody(p, Inner(k, nr), body, Ty(np, false)), nr) then Move(t, np, nr)
      else None
    case Loop(np, nr, body) => if Ends(TypeBody(p, Inner(k, np), body, Ty(np, false)), nr) then Move(t, np, nr)
      else None
    case IfThen(np, nr, thn) =>
      if np == nr && Ends(TypeBody(p, Inner(k, nr), thn, Ty(np, false)), nr) then Move(t, 1 + np, nr) else None
    case IfElse(np, nr, thn, els) =>
      if Ends(TypeBody(p, Inner(k, nr), thn, Ty(np, false)), nr) &&
        Ends(TypeBody(p, Inner(k, nr), els, Ty(np, false)), nr)
      then Move(t, 1 + np, nr) else None
    case Branch(d) => if d < |k.labels| then Diverge(t, k.labels[d]) else None
    case BranchIf(d) => if d < |k.labels| then Move(t, 1 + k.labels[d], k.labels[d]) else None
    case BranchTable(ds, default) =>
      (match PopTy(t, 1)
       case None => None
       case Some(u) => if |ds| < TWO32 && Targets(k, u, ds + [default]) then Diverge(t, 1) else None)
    case Ret => Diverge(t, k.nRes)
    case Trap => Diverge(t, 0)
    case Invoke(f) =>
      if f < |p.funcs| && p.funcs[f].ty < |p.types| then Move(t, NumParams(p, f), NumResults(p, f)) else None
    case TailInvoke(f) =>
      if f < |p.funcs| && p.funcs[f].ty < |p.types| && NumResults(p, f) == k.nRes
      then Diverge(t, NumParams(p, f)) else None
    case InvokeIndirect(ty) =>
      if ty < |p.types| then Move(t, 1 + |p.types[ty].params|, |p.types[ty].results|) else None
  }

  function TypeBody(p: Program, k: Ctx, b: Body, t: Ty): Option<Ty>
    decreases b
  {
    match b
    case End => Some(t)
    case Seq(i, rest) =>
      match TypeInstr(p, k, i, t)
      case None => None
      case Some(u) => TypeBody(p, k, rest, u)
  }

  predicate BodyTyped(p: Program, f: nat)
    requires f < |p.funcs| && p.funcs[f].ty < |p.types| && p.funcs[f].Local?
  {
    var nr := NumResults(p, f);
    Ends(TypeBody(p, Ctx([nr], nr, NumParams(p, f) + p.funcs[f].nLocals), p.funcs[f].body, Ty(0, false)), nr)
  }

  /** Every body obeys the stack discipline of validation. */
  ghost predicate WellTyped(p: Program) {
    WellFormed(p) && forall f :: p.nImports <= f < |p.funcs| ==> BodyTyped(p, f)
  }

  // ----- meaning -----

  datatype Outcome =
    | Normal(stk: seq<Word>, locals: seq<Word>, store: Store)
    | Jump(d: nat, vals: seq<Word>, locals: seq<Word>, store: Store)   // a branch on its way to label d
    | Returned(vals: seq<Word>, store: Store)
    | Trapped(status: Status, store: Store)
    | Timeout                                                          // the fuel ran out
    | Stuck                                                            // outside the stack discipline

  function Last(s: seq<Word>, n: nat): (r: seq<Word>)
    requires n <= |s|
    ensures |r| == n
  {
    s[|s| - n..]
  }

  function Drop(s: seq<Word>, n: nat): (r: seq<Word>)
    requires n <= |s|
    ensures |r| == |s| - n
  {
    s[..|s| - n]
  }

  /** Leaving a block that was entered on top of `under`. */
  function Leave(o: Outcome, under: seq<Word>): Outcome {
    match o
    case Normal(vs, l, s) => Normal(under + vs, l, s)
    case Jump(d, vs, l, s) => if d == 0 then Normal(under + vs, l, s) else Jump(d - 1, vs, l, s)
    case _ => o
  }

  function BranchTo(k: Ctx, d: nat, stk: seq<Word>, locals: seq<Word>, s: Store): Outcome {
    if d >= |k.labels| || |stk| < k.labels[d] then Stuck else Jump(d, Last(stk, k.labels[d]), locals, s)
  }

  /** The function a table slot holds, when it exists and its type is structurally the expected one. */
  function Resolve(p: Program, ty: nat, idx: nat): Option<nat> {
    if idx >= |p.table| then None
    else
      var f := p.table[idx];
      if f == TABLE_NULL || f >= |p.funcs| || p.funcs[f].ty >= |p.types| || ty >= |p.types| then None
      else if p.types[p.funcs[f].ty] != p.types[ty] then None
      else Some(f)
  }

  /** A call as the caller sees it. */
  function AfterCall(o: Outcome, stk: seq<Word>, locals: seq<Word>): Outcome {
    match o
    case Returned(vs, s) => Normal(stk + vs, locals, s)
    case _ => o
  }

  function HostCall(host: Host, fn: nat, args: seq<Word>, nr: nat, s: Store): Outcome {
    var log := s.log + [HostEvent(fn, args, nr, s.mem)];
    var s' := s.(log := log);
    match host(log)
    case None => Trapped(UnsupportedOp, s')
    case Some(rs) => if |rs| == nr then Returned(rs, s') else Stuck
  }

  /** Run one instruction with fuel `n` for calls and loop iterations. */
  function ExecInstr(p: Program, host: Host, k: Ctx, i: Instr, stk: seq<Word>, locals: seq<Word>, s: Store, n: nat)
    : Outcome
    decreases n, 0, i
  {
    match i
    case Nop => Normal(stk, locals, s)
    case Reinterpret => if |stk| < 1 then Stuck else Normal(stk, locals, s)
    case Value(v) => Normal(stk + [v], locals, s)
    case GetLocal(x) => if x >= |locals| then Stuck else Normal(stk + [locals[x]], locals, s)
    case SetLocal(x) =>
      if x >= |locals| || |stk| < 1 then Stuck else Normal(Drop(stk, 1), locals[x := Last(stk, 1)[0]], s)
    case TeeLocal(x) =>
      if x >= |locals| || |stk| < 1 then Stuck else Normal(stk, locals[x := Last(stk, 1)[0]], s)
    case Basic(q) =>
      if |stk| < Pops(q) then Stuck
      else (match Eval(p.segments, q, s, Last(stk, Pops(q)))
            case Fault(st) => Trapped(st, s)
            case Done(s', ws) => Normal(Drop(stk, Pops(q)) + ws, locals, s'))
    case Block(np, nr, body) =>
      if |stk| < np then Stuck
      else Leave(ExecBody(p, host, Inner(k, nr), body, Last(stk, np), locals, s, n), Drop(stk, np))
    case Loop(np, nr, body) =>
      if |stk| < np then Stuck
      else
        var o := ExecBody(p, host, Inner(k, np), body, Last(stk, np), locals, s, n);
        if o.Jump? && o.d == 0 then
          if n == 0 then Timeout
          else ExecInstr(p, host, k, i, Drop(stk, np) + o.vals, o.locals, o.store, n - 1)
        else Leave(o, Drop(stk, np))
    case IfThen(np, nr, thn) =>
      if |stk| < 1 + np then Stuck
      else
        var rest := Drop(stk, 1);
        if Low(W32, Last(stk, 1)[0]) != 0 then
          Leave(ExecBody(p, host, Inner(k, nr), thn, Last(rest, np), locals, s, n), Drop(rest, np))
        else Normal(rest, locals, s)
    case IfElse(np, nr, thn, els) =>
      if |stk| < 1 + np then Stuck
      else
        var rest := Drop(stk, 1);
        if Low(W32, Last(stk, 1)[0]) != 0 then
          Leave(ExecBody(p, host, Inner(k, nr), thn, Last(rest, np), locals, s, n), Drop(rest, np))
        else Leave(ExecBody(p, host, Inner(k, nr), els, Last(rest, np), locals, s, n), Drop(rest, np))
    case Branch(d) => BranchTo(k, d, stk, locals, s)
    case BranchIf(d) =>
      if |stk| < 1 then Stuck
      else if Low(W32, Last(stk, 1)[0]) != 0 then BranchTo(k, d, Drop(stk, 1), locals, s)
      else Normal(Drop(stk, 1), locals, s)
    case BranchTable(ds, default) =>
      if |stk| < 1 then Stuck
      else
        var ix := Low(W32, Last(stk, 1)[0]);
        BranchTo(k, if ix < |ds| then ds[ix] else default, Drop(stk, 1), locals, s)
    case Ret => if |stk| < k.nRes then Stuck else Returned(Last(stk, k.nRes), s)
    case Trap => Trapped(TrapUnreachable, s)
    case Invoke(f) =>
      if f >= |p.funcs| || p.funcs[f].ty >= |p.types| || |stk| < NumParams(p, f) then Stuck
      else
        var np := NumParams(p, f);
        if p.funcs[f].Import? then
          AfterCall(HostCall(host, p.funcs[f].fn, Last(stk, np), NumResults(p, f), s), Drop(stk, np), locals)
        else if n == 0 then Timeout
        else AfterCall(ExecFunc(p, host, f, Last(stk, np), s, n - 1), Drop(stk, np), locals)
    case TailInvoke(f) =>
      if f >= |p.funcs| || p.funcs[f].ty >= |p.types| || |stk| < NumParams(p, f) then Stuck
      else
        var args := Last(stk, NumParams(p, f));
        if p.funcs[f].Import? then HostCall(host, p.funcs[f].fn, args, NumResults(p, f), s)
        else if n == 0 then Timeout
        else ExecFunc(p, host, f, args, s, n - 1)
    case InvokeIndirect(ty) =>
      if |stk| < 1 then Stuck
      else (match Resolve(p, ty, Low(W32, Last(stk, 1)[0]))
            case None => Trapped(TrapIndirectCall, s)
            case Some(f) =>
              var rest := Drop(stk, 1);
              var np := NumParams(p, f);
              if |rest| < np then Stuck
              else if p.funcs[f].Import? then
                AfterCall(HostCall(host, p.funcs[f].fn, Last(rest, np), NumResults(p, f), s), Drop(rest, np), locals)
              else if n == 0 then Timeout
              else AfterCall(ExecFunc(p, host, f, Last(rest, np), s, n - 1), Drop(rest, np), locals))
  }

  function ExecBody(p: Program, host: Host, k: Ctx, b: Body, stk: seq<Word>, locals: seq<Word>, s: Store, n: nat)
    : Outcome
    decreases n, 0, b
  {
    match b
    case End => Normal(stk, locals, s)
    case Seq(i, rest) =>
      match ExecInstr(p, host, k, i, stk, locals, s, n)
      case Normal(stk', l', s') => ExecBody(p, host, k, rest, stk', l', s', n)
      case o => o
  }

  /** Call a defined function: Returned, Trapped, Timeout or Stuck. */
  function ExecFunc(p: Program, host: Host, f: nat, args: seq<Word>, s: Store, n: nat): (o: Outcome)
    requires f < |p.funcs| && p.funcs[f].Local? && p.funcs[f].ty < |p.types|
    ensures !o.Normal? && !o.Jump?
    decreases n, 1
  {
    var nr := NumResults(p, f);
    var k := Ctx([nr], nr, |args| + p.funcs[f].nLocals);
    match ExecBody(p, host, k, p.funcs[f].body, [], args + seq(p.funcs[f].nLocals, _ => 0), s, n)
    case Normal(vs, _, s') => if |vs| == nr then Returned(vs, s') else Stuck
    case Jump(d, vs, _, s') => if d == 0 then Returned(vs, s') else Stuck
    case o => o
  }
}
