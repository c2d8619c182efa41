/** What the lowering emits, said structurally: the code of a body is put together from the code of its parts, with
    branches to enclosing blocks left symbolic until the block is closed. Module Lowering proves that the one-pass,
    back-patching translator computes exactly this. Every emitted instruction also records the operand height the
    translator tracked there, or -1 where it knew the code to be dead or an enclosing block starts in dead code, as
    around an else arm that it takes for live. */
module Emission {
  import opened Words
  import opened Bytecode
  import opened Wasm

  /** One emitted instruction; `lab` is the enclosing block it still has to be pointed at. */
  datatype Sym = Sym(op: CuOp, lab: Option<nat>, ht: int)

  /** The translator's tracked state. */
  datatype Tracked = Tracked(h: nat, dead: bool, consts: seq<Word>)

  /** An enclosing block: the loop header if it is a loop, the height below its operands, and its label arity. */
  datatype Label = Label(start: Option<nat>, base: nat, arity: nat)

  /** What the translator knows about the function at hand; `nLocals` includes the scratch local of br_table. */
  datatype Env = Env(p: Program, nParams: nat, nLocals: nat, scratch: nat, nResults: nat)

  datatype Emitted = Emitted(code: seq<Sym>, st: Tracked)

  function Height(st: Tracked, reach: bool): int { if reach && !st.dead then st.h else -1 }

  function Fixed(op: CuOp, ht: int): Sym { Sym(op, None, ht) }

  function Consume(st: Tracked, pops: nat, pushes: nat): Option<Tracked> {
    if st.dead then Some(st) else if st.h < pops then None else Some(st.(h := st.h - pops + pushes))
  }

  /** The index of `v` in the pool, or its length if absent. */
  function Find(pool: seq<Word>, v: Word): (k: nat)
    ensures k <= |pool| && (k < |pool| ==> pool[k] == v)
  {
    if pool == [] || pool[0] == v then 0 else 1 + Find(pool[1..], v)
  }

  function Intern(pool: seq<Word>, v: Word): (r: seq<Word>)
    ensures pool <= r && Find(pool, v) < |r| && r[Find(pool, v)] == v
  {
    if Find(pool, v) < |pool| then pool else pool + [v]
  }

  function One(op: CuOp, pops: nat, pushes: nat, st: Tracked, reach: bool): Option<Emitted> {
    match Consume(st, pops, pushes)
    case None => None
    case Some(st') => Some(Emitted([Fixed(op, Height(st, reach))], st'))
  }

  function Cut(op: CuOp, st: Tracked, reach: bool): Option<Emitted> {
    Some(Emitted([Fixed(op, Height(st, reach))], st.(dead := true)))
  }

  function JumpTo(d: nat, l: Label, ht: int): Sym {
    match l.start
    case Some(start) => Sym(Br(start), None, ht)
    case None => Sym(Br(0), Some(d), ht)
  }

  /** The unwind (if the stack is taller than the label wants) and the jump of a branch. */
  function EmitBranch(env: Env, d: nat, st: Tracked, labels: seq<Label>, reach: bool): Option<seq<Sym>> {
    if d >= |labels| then None
    else
      var l := labels[d];
      var dest := l.base + l.arity;
      if st.dead then Some([JumpTo(d, l, -1)])
      else if st.h < dest then None
      else if st.h > dest then
        Some([Fixed(Unwind(l.arity, env.nParams + env.nLocals + dest), Height(st, reach)),
              JumpTo(d, l, Height(st.(h := dest), reach))])
      else Some([JumpTo(d, l, Height(st, reach))])
  }

  /** A branch taken only when the operand on top is nonzero; `st` is the state after popping it. */
  function EmitGuarded(env: Env, d: nat, pc: nat, ht: int, st: Tracked, labels: seq<Label>, reach: bool)
    : Option<seq<Sym>>
  {
    match EmitBranch(env, d, st, labels, reach)
    case None => None
    case Some(j) => Some([Fixed(BrIfNot(pc + 1 + |j|), ht)] + j)
  }

  /** Target number `i` of a br_table: compare the scratch local with `i` and branch to label `d` if they agree. */
  function EmitLink(env: Env, d: nat, i: nat, pc: nat, st: Tracked, labels: seq<Label>, reach: bool): Option<Emitted> {
    var v := i % TWO32;
    var st' := st.(consts := Intern(st.consts, v));
    var h := Height(st, reach);
    var up := if h < 0 then 0 else 1;
    match EmitGuarded(env, d, pc + 3, h + up, st', labels, reach)
    case None => None
    case Some(g) =>
      Some(Emitted([Fixed(LocalGet(env.scratch), h), Fixed(Const(Find(st.consts, v)), h + up),
                    Fixed(Simple(Arith(Bin(W32, Eq))), h + 2 * up)] + g, st'))
  }

  /** The comparison chain of br_table, from target number `i` on. */
  function EmitChain(env: Env, ds: seq<nat>, i: nat, default: nat, pc: nat, st: Tracked, labels: seq<Label>,
                     reach: bool)
    : Option<Emitted>
    requires i <= |ds|
    decreases |ds| - i
  {
    if i == |ds| then
      match EmitBranch(env, default, st, labels, reach)
      case None => None
      case Some(j) => Some(Emitted(j, st.(dead := true)))
    else
      match EmitLink(env, ds[i], i, pc, st, labels, reach)
      case None => None
      case Some(e1) =>
        match EmitChain(env, ds, i + 1, default, pc + |e1.code|, e1.st, labels, reach)
        case None => None
        case Some(e2) => Some(Emitted(e1.code + e2.code, e2.st))
  }

  /** `patch_b`: overwrite the branch operand of an instruction. */
  function SetTarget(op: CuOp, b: nat): CuOp {
    match op
    case Br(_) => Br(b)
    case BrIfNot(_) => BrIfNot(b)
    case _ => op
  }

  /** Close a block: branches to it now know where it ends, and branches further out are one level nearer. */
  function CloseOne(x: Sym, end: nat): Sym {
    match x.lab
    case None => x
    case Some(d) => if d == 0 then Sym(SetTarget(x.op, end), None, x.ht) else x.(lab := Some(d - 1))
  }

  function Close(s: seq<Sym>, end: nat): (r: seq<Sym>)
    ensures |r| == |s|
  {
    seq(|s|, i requires 0 <= i < |s| => CloseOne(s[i], end))
  }

  /** `push_ctrl`: the height below a block's parameters. */
  function BlockBase(st: Tracked, np: nat): Option<nat> {
    if st.dead then Some(0) else if st.h < np then None else Some(st.h - np)
  }

  function EmitInstr(env: Env, i: Instr, pc: nat, st: Tracked, labels: seq<Label>, reach: bool): Option<Emitted>
    decreases i
  {
    var ht := Height(st, reach);
    var live := reach && !st.dead;
    match i
    case Nop => Some(Emitted([], st))
    case Reinterpret =>
      (match Consume(st, 1, 1)
       case None => None
       case Some(st') => Some(Emitted([], st')))
    case Value(v) => One(Const(Find(st.consts, v)), 0, 1, st.(consts := Intern(st.consts, v)), reach)
    case GetLocal(x) => One(LocalGet(x % 65536), 0, 1, st, reach)
    case SetLocal(x) => One(LocalSet(x % 65536), 1, 0, st, reach)
    case TeeLocal(x) =>
      Some(Emitted([Fixed(LocalSet(x % 65536), ht), Fixed(LocalGet(x % 65536), if ht < 0 then ht else ht - 1)], st))
    case Basic(q) => One(Simple(q), Pops(q), Pushes(q), st, reach)
    case Block(np, nr, body) =>
      (match BlockBase(st, np)
       case None => None
       case Some(base) =>
         match EmitBody(env, body, pc, st, [Label(None, base, nr)] + labels, live)
         case None => None
         case Some(e) => Some(Emitted(Close(e.code, pc + |e.code|), Tracked(base + nr, st.dead, e.st.consts))))
    case Loop(np, nr, body) =>
      (match BlockBase(st, np)
       case None => None
       case Some(base) =>
         match EmitBody(env, body, pc, st, [Label(Some(pc), base, np)] + labels, live)
         case None => None
         case Some(e) => Some(Emitted(Close(e.code, pc + |e.code|), Tracked(base + nr, st.dead, e.st.consts))))
    case IfThen(np, nr, thn) =>
      (match Consume(st, 1, 0)
       case None => None
       case Some(st1) =>
         match BlockBase(st1, np)
         case None => None
         case Some(base) =>
           match EmitBody(env, thn, pc + 1, st1, [Label(None, base, nr)] + labels, live)
           case None => None
           case Some(e) =>
             var end := pc + 1 + |e.code|;
             Some(Emitted([Fixed(BrIfNot(end), ht)] + Close(e.code, end), Tracked(base + nr, st.dead, e.st.consts))))
    case IfElse(np, nr, thn, els) =>
      (match Consume(st, 1, 0)
       case None => None
       case Some(st1) =>
         match BlockBase(st1, np)
         case None => None
         case Some(base) =>
           var inner := [Label(None, base, nr)] + labels;
           match EmitBody(env, thn, pc + 1, st1, inner, live)
           case None => None
           case Some(e1) =>
             var mid := pc + 2 + |e1.code|;
             match EmitBody(env, els, mid, Tracked(base + np, false, e1.st.consts), inner, live)
             case None => None
             case Some(e2) =>
               var end := mid + |e2.code|;
               Some(Emitted([Fixed(BrIfNot(mid), ht)] + Close(e1.code, end) + [Fixed(Br(end), Height(e1.st, live))]
                            + Close(e2.code, end),
                            Tracked(base + nr, st.dead, e2.st.consts))))
    case Branch(d) =>
      (match EmitBranch(env, d, st, labels, reach)
       case None => None
       case Some(j) => Some(Emitted(j, st.(dead := true))))
    case BranchIf(d) =>
      (match Consume(st, 1, 0)
       case None => None
       case Some(st1) =>
         match EmitGuarded(env, d, pc, ht, st1, labels, reach)
         case None => None
         case Some(g) => Some(Emitted(g, st1)))
    case BranchTable(ds, default) =>
      (match Consume(st, 1, 0)
       case None => None
       case Some(st1) =>
         match EmitChain(env, ds, 0, default, pc + 1, st1, labels, reach)
         case None => None
         case Some(e) => Some(Emitted([Fixed(LocalSet(env.scratch), ht)] + e.code, e.st)))
    case Ret => Cut(Return, st, reach)
    case Trap => Cut(Unreachable, st, reach)
    case Invoke(f) =>
      if f >= |env.p.funcs| || env.p.funcs[f].ty >= |env.p.types| then None
      else
        var np, nr := NumParams(env.p, f), NumResults(env.p, f);
        if env.p.funcs[f].Import? then One(CallHost(np, nr, env.p.funcs[f].fn), np, nr, st, reach)
        else One(Call(f), np, nr, st, reach)
    case TailInvoke(f) => if f < env.p.nImports then None else Cut(ReturnCall(f), st, reach)
    case InvokeIndirect(ty) =>
      if ty >= |env.p.types| then None
      else One(CallIndirect(ty), 1 + |env.p.types[ty].params|, |env.p.types[ty].results|, st, reach)
  }

  function EmitBody(env: Env, b: Body, pc: nat, st: Tracked, labels: seq<Label>, reach: bool): Option<Emitted>
    decreases b
  {
    match b
    case End => Some(Emitted([], st))
    case Seq(i, rest) =>
      match EmitInstr(env, i, pc, st, labels, reach)
      case None => None
      case Some(e1) =>
        match EmitBody(env, rest, pc + |e1.code|, e1.st, labels, reach)
        case None => None
        case Some(e2) => Some(Emitted(e1.code + e2.code, e2.st))
  }

  /** Point every open branch at the end of its block. */
  function ResolveOne(x: Sym, ends: seq<nat>): CuOp {
    if x.lab.Some? && x.lab.value < |ends| then SetTarget(x.op, ends[x.lab.value]) else x.op
  }

  function Resolved(s: seq<Sym>, ends: seq<nat>): (r: seq<CuOp>)
    ensures |r| == |s|
  {
    seq(|s|, i requires 0 <= i < |s| => ResolveOne(s[i], ends))
  }

  /** The finished code of a function: its body, with branches to the function label going to the final END_FUNC. */
  function FuncCode(s: seq<Sym>, off: nat): (r: seq<CuOp>)
    ensures |r| == |s| + 1
  {
    Resolved(s, [off + |s|]) + [EndFunc]
  }

  /** The translator keeps the scratch local past all declared ones, only when some br_table needs it. */
  function EnvOf(p: Program, f: nat): Env
    requires f < |p.funcs| && p.funcs[f].Local? && p.funcs[f].ty < |p.types|
  {
    var np, nl := NumParams(p, f), p.funcs[f].nLocals;
    var n := if UsesTable(p.funcs[f].body) then nl + 1 else nl;
    Env(p, np, n, np + nl, NumResults(p, f))
  }

  predicate UsesTable(b: Body)
    decreases b
  {
    match b
    case End => false
    case Seq(i, rest) => InstrUsesTable(i) || UsesTable(rest)
  }

  predicate InstrUsesTable(i: Instr)
    decreases i
  {
    match i
    case BranchTable(_, _) => true
    case Block(_, _, b) => UsesTable(b)
    case Loop(_, _, b) => UsesTable(b)
    case IfThen(_, _, b) => UsesTable(b)
    case IfElse(_, _, b, c) => UsesTable(b) || UsesTable(c)
    case _ => false
  }

  function EmitFunc(p: Program, f: nat, off: nat, pool: seq<Word>): Option<Emitted>
    requires f < |p.funcs| && p.funcs[f].Local? && p.funcs[f].ty < |p.types|
  {
    var env := EnvOf(p, f);
    EmitBody(env, p.funcs[f].body, off, Tracked(0, false, pool), [Label(None, 0, env.nResults)], true)
  }
}
