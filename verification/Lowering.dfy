/** The translator (`lower_operators`): one pass over the flat operator list with a stack of open blocks, a tracked
    operand height, and forward branches patched when their block ends. */
module Lowering {
  import opened Words
  import opened Bytecode
  import opened Wasm
  import opened Emission

  /** An operator as it comes off the binary: structured control is brackets, everything else is as in the AST. */
  datatype Operator =
    | Op(i: Instr)
    | OBlock(np: nat, nr: nat) | OLoop(np: nat, nr: nat) | OIf(np: nat, nr: nat)
    | OElse | OEnd

  function FlattenInstr(i: Instr): seq<Operator>
    decreases i
  {
    match i
    case Block(np, nr, b) => [OBlock(np, nr)] + Flatten(b) + [OEnd]
    case Loop(np, nr, b) => [OLoop(np, nr)] + Flatten(b) + [OEnd]
    case IfThen(np, nr, b) => [OIf(np, nr)] + Flatten(b) + [OEnd]
    case IfElse(np, nr, b, c) => [OIf(np, nr)] + Flatten(b) + [OElse] + Flatten(c) + [OEnd]
    case _ => [Op(i)]
  }

  function Flatten(b: Body): seq<Operator>
    decreases b
  {
    match b
    case End => []
    case Seq(i, rest) => FlattenInstr(i) + Flatten(rest)
  }

  datatype Kind = FuncKind | BlockKind | LoopKind | IfKind

  datatype Ctrl = Ctrl(
    kind: Kind, start: nat, brIfNot: Option<nat>, elseBr: Option<nat>, patches: seq<nat>, hasElse: bool,
    base: nat, nParams: nat, nResults: nat, deadOnEntry: bool)

  /** The translator's variables. */
  datatype Lower = Lower(code: seq<CuOp>, consts: seq<Word>, ctrl: seq<Ctrl>, h: nat, dead: bool)

  function LabelArity(c: Ctrl): nat { if c.kind == LoopKind then c.nParams else c.nResults }

  function Emit(c: Lower, op: CuOp): Lower { c.(code := c.code + [op]) }

  function ConsumeH(c: Lower, pops: nat, pushes: nat): Option<Lower> {
    if c.dead then Some(c) else if c.h < pops then None else Some(c.(h := c.h - pops + pushes))
  }

  function EmitConsume(c: Lower, op: CuOp, pops: nat, pushes: nat): Option<Lower> {
    ConsumeH(Emit(c, op), pops, pushes)
  }

  function PatchB(code: seq<CuOp>, pc: nat, b: nat): (r: seq<CuOp>)
    ensures |r| == |code|
  {
    if pc < |code| then code[pc := SetTarget(code[pc], b)] else code
  }

  function PatchAll(code: seq<CuOp>, pcs: seq<nat>, b: nat): (r: seq<CuOp>)
    ensures |r| == |code|
    decreases |pcs|
  {
    if pcs == [] then code else PatchAll(PatchB(code, pcs[0], b), pcs[1..], b)
  }

  function PushCtrl(c: Lower, kind: Kind, np: nat, nr: nat, brIfNot: Option<nat>): Option<Lower> {
    if !c.dead && c.h < np then None
    else
      var base := if c.dead then 0 else c.h - np;
      Some(c.(ctrl := c.ctrl + [Ctrl(kind, |c.code|, brIfNot, None, [], false, base, np, nr, c.dead)]))
  }

  function EmitUnwind(env: Env, c: Lower, l: Ctrl): Option<Lower> {
    var dest := l.base + LabelArity(l);
    if c.h < dest then None
    else if c.h > dest then Some(Emit(c, Unwind(LabelArity(l), env.nParams + env.nLocals + dest)))
    else Some(c)
  }

  function EmitJump(c: Lower, idx: nat): Lower
    requires idx < |c.ctrl|
  {
    var l := c.ctrl[idx];
    if l.kind == LoopKind then Emit(c, Br(l.start))
    else Emit(c.(ctrl := c.ctrl[idx := l.(patches := l.patches + [|c.code|])]), Br(0))
  }

  /** `resolve_br`, the unwind and the jump of one branch. */
  function LowerBranch(env: Env, c: Lower, d: nat): Option<Lower> {
    if d >= |c.ctrl| then None
    else
      var idx := |c.ctrl| - 1 - d;
      if c.dead then Some(EmitJump(c, idx))
      else
        match EmitUnwind(env, c, c.ctrl[idx])
        case None => None
        case Some(c') => Some(EmitJump(c', idx))
  }

  /** A placeholder BR_IF_NOT, the branch, and the patch that lets the placeholder skip it. */
  function LowerGuarded(env: Env, c: Lower, d: nat): Option<Lower> {
    match LowerBranch(env, Emit(c, BrIfNot(0)), d)
    case None => None
    case Some(c') => Some(c'.(code := PatchB(c'.code, |c.code|, |c'.code|)))
  }

  /** One target of a br_table: LOCAL_GET scratch, CONST i, I32_EQ, then the guarded branch. */
  function LowerLink(env: Env, c: Lower, d: nat, i: nat): Option<Lower> {
    var v := i % TWO32;
    var c1 := Emit(Emit(Emit(c.(consts := Intern(c.consts, v)), LocalGet(env.scratch)), Const(Find(c.consts, v))),
                   Simple(Arith(Bin(W32, Eq))));
    LowerGuarded(env, c1, d)
  }

  function LowerChain(env: Env, c: Lower, ds: seq<nat>, i: nat, default: nat): Option<Lower>
    requires i <= |ds|
    decreases |ds| - i
  {
    if i == |ds| then
      match LowerBranch(env, c, default)
      case None => None
      case Some(c') => Some(c'.(dead := true))
    else
      match LowerLink(env, c, ds[i], i)
      case None => None
      case Some(c2) => LowerChain(env, c2, ds, i + 1, default)
  }

  function LowerOp(env: Env, c: Lower, i: Instr): Option<Lower> {
    match i
    case Nop => Some(c)
    case Reinterpret => ConsumeH(c, 1, 1)
    case Value(v) => EmitConsume(c.(consts := Intern(c.consts, v)), Const(Find(c.consts, v)), 0, 1)
    case GetLocal(x) => EmitConsume(c, LocalGet(x % 65536), 0, 1)
    case SetLocal(x) => EmitConsume(c, LocalSet(x % 65536), 1, 0)
    case TeeLocal(x) => Some(Emit(Emit(c, LocalSet(x % 65536)), LocalGet(x % 65536)))
    case Basic(q) => EmitConsume(c, Simple(q), Pops(q), Pushes(q))
    case Branch(d) =>
      (match LowerBranch(env, c, d)
       case None => None
       case Some(c') => Some(c'.(dead := true)))
    case BranchIf(d) =>
      (match ConsumeH(c, 1, 0)
       case None => None
       case Some(c1) => LowerGuarded(env, c1, d))
    case BranchTable(ds, default) =>
      (match EmitConsume(c, LocalSet(env.scratch), 1, 0)
       case None => None
       case Some(c1) => LowerChain(env, c1, ds, 0, default))
    case Ret => Some(Emit(c, Return).(dead := true))
    case Trap => Some(Emit(c, Unreachable).(dead := true))
    case Invoke(f) =>
      if f >= |env.p.funcs| || env.p.funcs[f].ty >= |env.p.types| then None
      else
        var np, nr := NumParams(env.p, f), NumResults(env.p, f);
        if env.p.funcs[f].Import? then EmitConsume(c, CallHost(np, nr, env.p.funcs[f].fn), np, nr)
        else EmitConsume(c, Call(f), np, nr)
    case TailInvoke(f) => if f < env.p.nImports then None else Some(Emit(c, ReturnCall(f)).(dead := true))
    case InvokeIndirect(ty) =>
      if ty >= |env.p.types| then None
      else EmitConsume(c, CallIndirect(ty), 1 + |env.p.types[ty].params|, |env.p.types[ty].results|)
    case _ => None
  }

  function LowerElse(c: Lower): Option<Lower> {
    if |c.ctrl| == 0 then None
    else
      var n := |c.ctrl|;
      var l := c.ctrl[n - 1];
      if l.kind != IfKind then None
      else
        var c1 := Emit(c, Br(0));
        var code := if l.brIfNot.Some? then PatchB(c1.code, l.brIfNot.value, |c1.code|) else c1.code;
        Some(c1.(code := code, ctrl := c.ctrl[n - 1 := l.(elseBr := Some(|c.code|), hasElse := true)],
                 h := l.base + l.nParams, dead := false))
  }

  /** The jump of an `if` still open at its end: the BR over the else arm, or the BR_IF_NOT when there was none. */
  function PatchIf(code: seq<CuOp>, l: Ctrl, join: nat): (r: seq<CuOp>)
    ensures |r| == |code|
  {
    if l.kind != IfKind then code
    else
      var open := if l.hasElse then l.elseBr else l.brIfNot;
      if open.Some? then PatchB(code, open.value, join) else code
  }

  function LowerEnd(c: Lower): Option<Lower> {
    if |c.ctrl| == 0 then None
    else
      var n := |c.ctrl|;
      var l := c.ctrl[n - 1];
      var join := |c.code|;
      var c1 := if l.kind == FuncKind then Emit(c, EndFunc) else c;
      var code := PatchAll(PatchIf(c1.code, l, join), l.patches, join);
      Some(Lower(code, c.consts, c.ctrl[..n - 1], l.base + l.nResults, l.deadOnEntry))
  }

  function LowerStep(env: Env, c: Lower, op: Operator): Option<Lower> {
    match op
    case Op(i) => LowerOp(env, c, i)
    case OBlock(np, nr) => PushCtrl(c, BlockKind, np, nr, None)
    case OLoop(np, nr) => PushCtrl(c, LoopKind, np, nr, None)
    case OIf(np, nr) =>
      (match ConsumeH(c, 1, 0)
       case None => None
       case Some(c1) => PushCtrl(Emit(c1, BrIfNot(0)), IfKind, np, nr, Some(|c.code|)))
    case OElse => LowerElse(c)
    case OEnd => LowerEnd(c)
  }

  function LowerAll(env: Env, ops: seq<Operator>, c: Lower): Option<Lower>
    decreases |ops|
  {
    if ops == [] then Some(c)
    else
      match LowerStep(env, c, ops[0])
      case None => None
      case Some(c') => LowerAll(env, ops[1..], c')
  }

  /** The translator's variables before the first operator. */
  function Start(env: Env, code: seq<CuOp>, consts: seq<Word>): Lower {
    Lower(code, consts, [Ctrl(FuncKind, |code|, None, None, [], false, 0, 0, env.nResults, false)], 0, false)
  }

  // ----- what a structured piece adds to the translator's variables -----

  function LabelOf(c: Ctrl): Label {
    Label(if c.kind == LoopKind then Some(c.start) else None, c.base, LabelArity(c))
  }

  function Labels(ctrl: seq<Ctrl>): (r: seq<Label>)
    ensures |r| == |ctrl|
  {
    seq(|ctrl|, d requires 0 <= d < |ctrl| => LabelOf(ctrl[|ctrl| - 1 - d]))
  }

  function Code(s: seq<Sym>): (r: seq<CuOp>)
    ensures |r| == |s|
  {
    seq(|s|, i requires 0 <= i < |s| => s[i].op)
  }

  /** Where, from `off` on, the open branches to label `d` sit. */
  function Positions(s: seq<Sym>, d: nat, off: nat): seq<nat> {
    if s == [] then []
    else (if s[0].lab == Some(d) then [off] else []) + Positions(s[1..], d, off + 1)
  }

  function AddPatches(ctrl: seq<Ctrl>, s: seq<Sym>, off: nat): (r: seq<Ctrl>)
    ensures |r| == |ctrl|
  {
    seq(|ctrl|, j requires 0 <= j < |ctrl| =>
      ctrl[j].(patches := ctrl[j].patches + Positions(s, |ctrl| - 1 - j, off)))
  }

  function TrackedOf(c: Lower): Tracked { Tracked(c.h, c.dead, c.consts) }

  /** The variables after emitting `e`: its code appended, its open branches recorded with their blocks. */
  function After(c: Lower, e: Emitted): Lower {
    Lower(c.code + Code(e.code), e.st.consts, AddPatches(c.ctrl, e.code, |c.code|), e.st.h, e.st.dead)
  }

  function AfterAll(env: Env, ops: seq<Operator>, c: Lower, e: Option<Emitted>): Option<Lower> {
    match e
    case None => None
    case Some(x) => LowerAll(env, ops, After(c, x))
  }

  lemma {:induction false} PositionsConcat(a: seq<Sym>, b: seq<Sym>, d: nat, off: nat)
    ensures Positions(a + b, d, off) == Positions(a, d, off) + Positions(b, d, off + |a|)
    decreases |a|
  {
    if a == [] {
      assert a + b == b;
    } else {
      assert (a + b)[1..] == a[1..] + b;
      PositionsConcat(a[1..], b, d, off + 1);
    }
  }

  lemma {:induction false} PositionsClose(s: seq<Sym>, end: nat, d: nat, off: nat)
    ensures Positions(Close(s, end), d, off) == Positions(s, d + 1, off)
    decreases |s|
  {
    if s != [] {
      assert Close(s, end)[1..] == Close(s[1..], end);
      PositionsClose(s[1..], end, d, off + 1);
    }
  }

  lemma AddPatchesTwice(ctrl: seq<Ctrl>, a: seq<Sym>, b: seq<Sym>, off: nat)
    ensures AddPatches(AddPatches(ctrl, a, off), b, off + |a|) == AddPatches(ctrl, a + b, off)
  {
    forall j | 0 <= j < |ctrl|
      ensures AddPatches(AddPatches(ctrl, a, off), b, off + |a|)[j] == AddPatches(ctrl, a + b, off)[j]
    {
      var d := |ctrl| - 1 - j;
      PositionsConcat(a, b, d, off);
      assert ctrl[j].patches + Positions(a, d, off) + Positions(b, d, off + |a|)
          == ctrl[j].patches + (Positions(a, d, off) + Positions(b, d, off + |a|));
    }
  }

  lemma AddNoPatches(ctrl: seq<Ctrl>, s: seq<Sym>, off: nat)
    requires forall i :: 0 <= i < |s| ==> s[i].lab.None?
    ensures AddPatches(ctrl, s, off) == ctrl
  {
    forall j | 0 <= j < |ctrl|
      ensures AddPatches(ctrl, s, off)[j] == ctrl[j]
    {
      NoPositions(s, |ctrl| - 1 - j, off);
    }
  }

  lemma {:induction false} NoPositions(s: seq<Sym>, d: nat, off: nat)
    requires forall i :: 0 <= i < |s| ==> s[i].lab != Some(d)
    ensures Positions(s, d, off) == []
    decreases |s|
  {
    if s != [] { NoPositions(s[1..], d, off + 1); }
  }

  /** Emitting two pieces one after the other is emitting their concatenation. */
  lemma AfterTwice(c: Lower, a: Emitted, b: Emitted)
    ensures After(After(c, a), b) == After(c, Emitted(a.code + b.code, b.st))
  {
    AddPatchesTwice(c.ctrl, a.code, b.code, |c.code|);
    assert Code(a.code + b.code) == Code(a.code) + Code(b.code);
    assert c.code + Code(a.code) + Code(b.code) == c.code + (Code(a.code) + Code(b.code));
  }

  lemma LabelsAfter(c: Lower, e: Emitted)
    ensures Labels(After(c, e).ctrl) == Labels(c.ctrl)
  {
    var a := After(c, e).ctrl;
    forall d | 0 <= d < |a|
      ensures Labels(a)[d] == Labels(c.ctrl)[d]
    {
      assert LabelOf(a[|a| - 1 - d]) == LabelOf(c.ctrl[|a| - 1 - d]);
    }
  }

  lemma LabelsPush(ctrl: seq<Ctrl>, l: Ctrl)
    ensures Labels(ctrl + [l]) == [LabelOf(l)] + Labels(ctrl)
  {
    var a, b := Labels(ctrl + [l]), [LabelOf(l)] + Labels(ctrl);
    forall d | 0 <= d < |a|
      ensures a[d] == b[d]
    {
      assert d > 0 ==> (ctrl + [l])[|ctrl| - d] == ctrl[|ctrl| - d];
    }
  }

  lemma {:induction false} PatchAllConcat(code: seq<CuOp>, a: seq<nat>, b: seq<nat>, t: nat)
    ensures PatchAll(code, a + b, t) == PatchAll(PatchAll(code, a, t), b, t)
    decreases |a|
  {
    if a == [] {
      assert a + b == b;
    } else {
      assert (a + b)[1..] == a[1..] + b && (a + b)[0] == a[0];
      PatchAllConcat(PatchB(code, a[0], t), a[1..], b, t);
    }
  }

  lemma CloseHead(s: seq<Sym>, end: nat)
    requires |s| > 0
    ensures Code(s) == [s[0].op] + Code(s[1..])
    ensures Code(Close(s, end)) == [CloseOne(s[0], end).op] + Code(Close(s[1..], end))
  {
    assert Close(s, end) == [CloseOne(s[0], end)] + Close(s[1..], end);
  }

  lemma PatchFirst(code: seq<CuOp>, s: seq<Sym>, off: nat, end: nat)
    requires |s| > 0
    ensures PatchAll(code, Positions(s, 0, off), end)
         == PatchAll(if s[0].lab == Some(0) then PatchB(code, off, end) else code, Positions(s[1..], 0, off + 1), end)
  {
    hide PatchB;
    var rest := Positions(s[1..], 0, off + 1);
    if s[0].lab == Some(0) {
      assert ([off] + rest)[1..] == rest;
    } else {
      assert [] + rest == rest;
    }
  }

  lemma HeadOfCode(pre: seq<CuOp>, op: CuOp, c: seq<CuOp>, post: seq<CuOp>)
    ensures (pre + [op]) + c + post == pre + ([op] + c) + post == pre + [op] + (c + post)
  {
  }

  lemma PatchOne(pre: seq<CuOp>, s: seq<Sym>, post: seq<CuOp>, end: nat)
    requires |s| > 0
    ensures var op, t := CloseOne(s[0], end).op, s[1..];
      PatchAll(pre + Code(s) + post, Positions(s, 0, |pre|), end)
      == PatchAll((pre + [op]) + Code(t) + post, Positions(t, 0, |pre| + 1), end)
  {
    hide Code, Close, PatchAll, PatchB, Positions;
    var x, c := s[0], Code(s[1..]);
    CloseHead(s, end);
    PatchFirst(pre + Code(s) + post, s, |pre|, end);
    HeadOfCode(pre, x.op, c, post);
    HeadOfCode(pre, CloseOne(x, end).op, c, post);
    PatchHead(pre, x.op, c + post, end);
  }

  /** Patching the recorded positions of a block is closing it. */
  lemma {:induction false} PatchIsClose(pre: seq<CuOp>, s: seq<Sym>, post: seq<CuOp>, end: nat)
    ensures PatchAll(pre + Code(s) + post, Positions(s, 0, |pre|), end) == pre + Code(Close(s, end)) + post
    decreases |s|
  {
    if s == [] {
      assert Code(s) == Code(Close(s, end)) == [];
    } else {
      hide Code, Close, PatchAll, PatchB, Positions;
      var op := CloseOne(s[0], end).op;
      PatchOne(pre, s, post, end);
      PatchIsClose(pre + [op], s[1..], post, end);
      CloseHead(s, end);
      HeadOfCode(pre, op, Code(Close(s[1..], end)), post);
    }
  }

  // ----- the translator computes the structural emission -----

  /** Emission `e` from `c`, as a translator state. */
  function Emitting(c: Lower, e: Option<Emitted>): Option<Lower> {
    match e
    case None => None
    case Some(x) => Some(After(c, x))
  }

  function Jumping(c: Lower, j: Option<seq<Sym>>): Option<Lower> {
    match j
    case None => None
    case Some(s) => Some(After(c, Emitted(s, TrackedOf(c))))
  }

  lemma JumpEmits(c: Lower, d: nat, ht: int)
    requires d < |c.ctrl|
    ensures EmitJump(c, |c.ctrl| - 1 - d)
         == After(c, Emitted([JumpTo(d, Labels(c.ctrl)[d], ht)], TrackedOf(c)))
  {
    var idx := |c.ctrl| - 1 - d;
    var l, x := c.ctrl[idx], JumpTo(d, Labels(c.ctrl)[d], ht);
    assert Code([x]) == [x.op];
    assert Labels(c.ctrl)[d] == LabelOf(l);
    if l.kind == LoopKind {
      AddNoPatches(c.ctrl, [x], |c.code|);
    } else {
      var a, b := c.ctrl[idx := l.(patches := l.patches + [|c.code|])], AddPatches(c.ctrl, [x], |c.code|);
      forall j | 0 <= j < |a|
        ensures a[j] == b[j]
      {
        var dj: nat := |c.ctrl| - 1 - j;
        assert [x][1..] == [];
        assert Positions([x], dj, |c.code|) == if dj == d then [|c.code|] else [];
      }
      assert a == b;
    }
  }

  lemma OneEmits(c: Lower, op: CuOp, ht: int, st: Tracked)
    requires st.consts == c.consts
    ensures After(c, Emitted([Fixed(op, ht)], st)) == Emit(c, op).(h := st.h, dead := st.dead)
  {
    AddNoPatches(c.ctrl, [Fixed(op, ht)], |c.code|);
    assert Code([Fixed(op, ht)]) == [op];
  }

  lemma BranchEmits(env: Env, c: Lower, d: nat, reach: bool)
    ensures LowerBranch(env, c, d) == Jumping(c, EmitBranch(env, d, TrackedOf(c), Labels(c.ctrl), reach))
  {
    if d < |c.ctrl| {
      var l := Labels(c.ctrl)[d];
      var dest := l.base + l.arity;
      if c.dead {
        JumpEmits(c, d, -1);
      } else if c.h == dest {
        JumpEmits(c, d, Height(TrackedOf(c), reach));
      } else if c.h > dest {
        var u := Fixed(Unwind(l.arity, env.nParams + env.nLocals + dest), Height(TrackedOf(c), reach));
        var j := JumpTo(d, l, Height(TrackedOf(c).(h := dest), reach));
        OneEmits(c, u.op, u.ht, TrackedOf(c));
        var c' := Emit(c, u.op);
        JumpEmits(c', d, j.ht);
        AfterTwice(c, Emitted([u], TrackedOf(c)), Emitted([j], TrackedOf(c)));
        assert [u] + [j] == [u, j];
      }
    }
  }

  lemma GuardedEmits(env: Env, c: Lower, d: nat, ht: int, reach: bool)
    ensures LowerGuarded(env, c, d) ==
      Jumping(c, EmitGuarded(env, d, |c.code|, ht, TrackedOf(c), Labels(c.ctrl), reach))
  {
    hide LowerBranch, EmitBranch, Labels, AddPatches;
    var c1 := Emit(c, BrIfNot(0));
    BranchEmits(env, c1, d, reach);
    var j := EmitBranch(env, d, TrackedOf(c), Labels(c.ctrl), reach);
    if j.Some? {
      var c2 := After(c1, Emitted(j.value, TrackedOf(c)));
      var skip := Fixed(BrIfNot(|c.code| + 1 + |j.value|), ht);
      var g := [skip] + j.value;
      OneEmits(c, BrIfNot(0), ht, TrackedOf(c));
      var hole := Fixed(BrIfNot(0), ht);
      AfterTwice(c, Emitted([hole], TrackedOf(c)), Emitted(j.value, TrackedOf(c)));
      assert PatchB(c2.code, |c.code|, |c2.code|) == c.code + Code(g) by {
        assert c2.code == c.code + [BrIfNot(0)] + Code(j.value);
        assert Code(g) == [skip.op] + Code(j.value);
      }
      AddSame(c.ctrl, [hole] + j.value, g, |c.code|);
    }
  }

  /** Only the open branches matter to the recorded patches. */
  lemma AddSame(ctrl: seq<Ctrl>, a: seq<Sym>, b: seq<Sym>, off: nat)
    requires |a| == |b| && forall i :: 0 <= i < |a| ==> a[i].lab == b[i].lab
    ensures AddPatches(ctrl, a, off) == AddPatches(ctrl, b, off)
  {
    forall j | 0 <= j < |ctrl|
      ensures AddPatches(ctrl, a, off)[j] == AddPatches(ctrl, b, off)[j]
    {
      PositionsSame(a, b, |ctrl| - 1 - j, off);
    }
  }

  lemma {:induction false} PositionsSame(a: seq<Sym>, b: seq<Sym>, d: nat, off: nat)
    requires |a| == |b| && forall i :: 0 <= i < |a| ==> a[i].lab == b[i].lab
    ensures Positions(a, d, off) == Positions(b, d, off)
    decreases |a|
  {
    if a != [] { PositionsSame(a[1..], b[1..], d, off + 1); }
  }

  lemma ThreeEmit(c: Lower, x: Sym, y: Sym, z: Sym, st: Tracked)
    requires x.lab.None? && y.lab.None? && z.lab.None?
    ensures After(c, Emitted([x, y, z], st))
         == Emit(Emit(Emit(c, x.op), y.op), z.op).(h := st.h, dead := st.dead, consts := st.consts)
  {
    AddNoPatches(c.ctrl, [x, y, z], |c.code|);
    assert Code([x, y, z]) == [x.op, y.op, z.op];
  }

  lemma LinkEmits(env: Env, c: Lower, d: nat, i: nat, reach: bool)
    ensures LowerLink(env, c, d, i) == Emitting(c, EmitLink(env, d, i, |c.code|, TrackedOf(c), Labels(c.ctrl), reach))
  {
    hide LowerGuarded, EmitGuarded, Labels, AddPatches, Intern, Find, Code;
    var v := i % TWO32;
    var st := TrackedOf(c).(consts := Intern(c.consts, v));
    var h := Height(TrackedOf(c), reach);
    var up := if h < 0 then 0 else 1;
    var three := [Fixed(LocalGet(env.scratch), h), Fixed(Const(Find(c.consts, v)), h + up),
                  Fixed(Simple(Arith(Bin(W32, Eq))), h + 2 * up)];
    ThreeEmit(c, three[0], three[1], three[2], st);
    var c1 := After(c, Emitted(three, st));
    GuardedEmits(env, c1, d, h + up, reach);
    LabelsAfter(c, Emitted(three, st));
    var g := EmitGuarded(env, d, |c.code| + 3, h + up, st, Labels(c.ctrl), reach);
    if g.Some? { AfterTwice(c, Emitted(three, st), Emitted(g.value, st)); }
  }

  lemma {:induction false} ChainEmits(env: Env, c: Lower, ds: seq<nat>, i: nat, default: nat, reach: bool)
    requires i <= |ds|
    ensures LowerChain(env, c, ds, i, default)
         == Emitting(c, EmitChain(env, ds, i, default, |c.code|, TrackedOf(c), Labels(c.ctrl), reach))
    decreases |ds| - i
  {
    hide LowerBranch, EmitBranch, LowerLink, EmitLink, Labels, AddPatches, Code;
    if i == |ds| {
      BranchEmits(env, c, default, reach);
    } else {
      LinkEmits(env, c, ds[i], i, reach);
      var e1 := EmitLink(env, ds[i], i, |c.code|, TrackedOf(c), Labels(c.ctrl), reach);
      if e1.Some? {
        var c1 := After(c, e1.value);
        ChainEmits(env, c1, ds, i + 1, default, reach);
        LabelsAfter(c, e1.value);
        var e2 := EmitChain(env, ds, i + 1, default, |c1.code|, e1.value.st, Labels(c.ctrl), reach);
        if e2.Some? { AfterTwice(c, e1.value, e2.value); }
      }
    }
  }

  lemma OpEmits(env: Env, c: Lower, i: Instr, reach: bool)
    requires FlattenInstr(i) == [Op(i)]
    ensures LowerOp(env, c, i) == Emitting(c, EmitInstr(env, i, |c.code|, TrackedOf(c), Labels(c.ctrl), reach))
  {
    hide LowerBranch, EmitBranch, LowerGuarded, EmitGuarded, LowerChain, EmitChain, Labels, AddPatches, Code, Intern,
      Find;
    var st := TrackedOf(c);
    var ht := Height(st, reach);
    match i
    case Nop => NoneEmits(c, st);
    case Reinterpret => if !st.dead && st.h >= 1 { NoneEmits(c, st); } else { NoneEmits(c, st); }
    case Branch(d) => BranchEmits(env, c, d, reach);
    case BranchIf(d) =>
      if ConsumeH(c, 1, 0).Some? {
        var c1 := ConsumeH(c, 1, 0).value;
        GuardedEmits(env, c1, d, ht, reach);
      }
    case BranchTable(ds, default) =>
      if ConsumeH(c, 1, 0).Some? {
        var st1 := Consume(st, 1, 0).value;
        OneEmits(c, LocalSet(env.scratch), ht, st1);
        var first := Emitted([Fixed(LocalSet(env.scratch), ht)], st1);
        var c1 := After(c, first);
        assert EmitConsume(c, LocalSet(env.scratch), 1, 0) == Some(c1);
        ChainEmits(env, c1, ds, 0, default, reach);
        LabelsAfter(c, first);
        var e := EmitChain(env, ds, 0, default, |c.code| + 1, st1, Labels(c.ctrl), reach);
        if e.Some? { AfterTwice(c, first, e.value); }
      }
    case TeeLocal(x) =>
      var a, b := Fixed(LocalSet(x % 65536), ht), Fixed(LocalGet(x % 65536), if ht < 0 then ht else ht - 1);
      OneEmits(c, a.op, a.ht, st);
      OneEmits(Emit(c, a.op), b.op, b.ht, st);
      AfterTwice(c, Emitted([a], st), Emitted([b], st));
      assert [a] + [b] == [a, b];
    case _ => SimpleOpEmits(env, c, i, reach);
  }

  lemma NoneEmits(c: Lower, st: Tracked)
    ensures After(c, Emitted([], st)) == c.(h := st.h, dead := st.dead, consts := st.consts)
  {
    AddNoPatches(c.ctrl, [], |c.code|);
    assert Code([]) == [];
  }

  /** The operators that emit a single instruction. */
  lemma CallOpEmits(env: Env, c: Lower, i: Instr, reach: bool)
    requires i.Invoke? || i.TailInvoke? || i.InvokeIndirect?
    ensures LowerOp(env, c, i) == Emitting(c, EmitInstr(env, i, |c.code|, TrackedOf(c), Labels(c.ctrl), reach))
  {
    hide Labels, AddPatches, Code, After, Intern, Find, EmitBody, EmitBranch, EmitGuarded, EmitChain, Close,
      LowerBranch, LowerGuarded, LowerChain;
    var e := EmitInstr(env, i, |c.code|, TrackedOf(c), Labels(c.ctrl), reach);
    if e.Some? {
      var x := e.value.code[0];
      OneEmits(c, x.op, x.ht, e.value.st);
    }
  }

  lemma SimpleOpEmits(env: Env, c: Lower, i: Instr, reach: bool)
    requires FlattenInstr(i) == [Op(i)]
    requires !i.Nop? && !i.Reinterpret? && !i.Branch? && !i.BranchIf? && !i.BranchTable? && !i.TeeLocal?
    ensures LowerOp(env, c, i) == Emitting(c, EmitInstr(env, i, |c.code|, TrackedOf(c), Labels(c.ctrl), reach))
  {
    hide Labels, AddPatches, Code, Intern, Find, After, EmitBody, EmitBranch, EmitGuarded, EmitChain, Close, Flatten,
      LowerBranch, LowerGuarded, LowerChain, LowerLink;
    var e := EmitInstr(env, i, |c.code|, TrackedOf(c), Labels(c.ctrl), reach);
    if i.Invoke? || i.TailInvoke? || i.InvokeIndirect? {
      CallOpEmits(env, c, i, reach);
    } else if e.Some? {
      var x := e.value.code[0];
      OneEmits(c.(consts := e.value.st.consts), x.op, x.ht, e.value.st);
      PoolApart(c, e.value);
    }
  }

  lemma PoolApart(c: Lower, e: Emitted)
    ensures After(c.(consts := e.st.consts), e) == After(c, e)
  {
  }

  // ----- blocks -----

  lemma PopPatches(ctrl: seq<Ctrl>, l: Ctrl, s: seq<Sym>, end: nat, off: nat)
    ensures AddPatches(ctrl + [l], s, off)[..|ctrl|] == AddPatches(ctrl, Close(s, end), off)
    ensures AddPatches(ctrl + [l], s, off)[|ctrl|] == l.(patches := l.patches + Positions(s, 0, off))
  {
    var a, b := AddPatches(ctrl + [l], s, off), AddPatches(ctrl, Close(s, end), off);
    forall j | 0 <= j < |ctrl|
      ensures a[..|ctrl|][j] == b[j]
    {
      PositionsClose(s, end, |ctrl| - 1 - j, off);
      assert (ctrl + [l])[j] == ctrl[j];
    }
  }

  /** Ending a block or loop whose body emitted `e`. */
  lemma EndBlock(c: Lower, l: Ctrl, e: Emitted)
    requires l.kind in {BlockKind, LoopKind} && l.patches == []
    ensures var end := |c.code| + |e.code|;
      LowerEnd(After(c.(ctrl := c.ctrl + [l]), e))
      == Some(After(c, Emitted(Close(e.code, end), Tracked(l.base + l.nResults, l.deadOnEntry, e.st.consts))))
  {
    hide AddPatches, Positions, PatchB, PatchAll, Close, Code;
    var end := |c.code| + |e.code|;
    var c1 := After(c.(ctrl := c.ctrl + [l]), e);
    PopPatches(c.ctrl, l, e.code, end, |c.code|);
    PatchIsClose(c.code, e.code, [], end);
    assert c.code + Code(e.code) + [] == c1.code;
    assert c.code + Code(Close(e.code, end)) + [] == c.code + Code(Close(e.code, end));
    assert [] + Positions(e.code, 0, |c.code|) == Positions(e.code, 0, |c.code|);
  }

  lemma PatchHead(pre: seq<CuOp>, op: CuOp, post: seq<CuOp>, b: nat)
    ensures PatchB(pre + [op] + post, |pre|, b) == pre + [SetTarget(op, b)] + post
  {
  }

  lemma AddPatchesHead(ctrl: seq<Ctrl>, x: Sym, s: seq<Sym>, off: nat)
    requires x.lab.None?
    ensures AddPatches(ctrl, [x] + s, off) == AddPatches(ctrl, s, off + 1)
  {
    AddPatchesTwice(ctrl, [x], s, off);
    AddNoPatches(ctrl, [x], off);
  }

  lemma CodeParts(a: seq<Sym>, b: seq<Sym>)
    ensures Code(a + b) == Code(a) + Code(b)
  {
  }

  /** Ending an `if` without `else`; `c` is the state before the condition's BR_IF_NOT. */
  lemma EndIf(c: Lower, l: Ctrl, e: Emitted, ht: int)
    requires l.kind == IfKind && l.patches == [] && !l.hasElse && l.brIfNot == Some(|c.code|)
    ensures var end := |c.code| + 1 + |e.code|;
      var c1 := Emit(c, BrIfNot(0));
      LowerEnd(After(c1.(ctrl := c.ctrl + [l]), e))
      == Some(After(c, Emitted([Fixed(BrIfNot(end), ht)] + Close(e.code, end),
                               Tracked(l.base + l.nResults, l.deadOnEntry, e.st.consts))))
  {
    hide AddPatches, Positions, PatchB, PatchAll;
    var end := |c.code| + 1 + |e.code|;
    var x := Fixed(BrIfNot(end), ht);
    var c1 := Emit(c, BrIfNot(0));
    var pre := c.code + [BrIfNot(end)];
    PopPatches(c.ctrl, l, e.code, end, |c1.code|);
    PatchHead(c.code, BrIfNot(0), Code(e.code), end);
    PatchIsClose(pre, e.code, [], end);
    assert pre + Code(e.code) + [] == pre + Code(e.code);
    assert [] + Positions(e.code, 0, |pre|) == Positions(e.code, 0, |pre|);
    AddPatchesHead(c.ctrl, x, Close(e.code, end), |c.code|);
    CodeParts([x], Close(e.code, end));
    assert Code([x]) == [BrIfNot(end)];
    assert pre + Code(Close(e.code, end)) + [] == c.code + ([BrIfNot(end)] + Code(Close(e.code, end)));
  }

  /** The state just after `else`: the then-arm `e1` is emitted and the condition's BR_IF_NOT points past its BR. */
  function AtElse(c: Lower, l: Ctrl, e1: Emitted): Lower {
    var mid := |c.code| + 2 + |e1.code|;
    Lower(c.code + [BrIfNot(mid)] + Code(e1.code) + [Br(0)], e1.st.consts,
          AddPatches(c.ctrl, Close(e1.code, mid), |c.code| + 1)
          + [l.(patches := Positions(e1.code, 0, |c.code| + 1), elseBr := Some(mid - 1), hasElse := true)],
          l.base + l.nParams, false)
  }

  lemma ElseCode(pre: seq<CuOp>, body: seq<CuOp>, mid: nat)
    ensures PatchB(pre + [BrIfNot(0)] + body + [Br(0)], |pre|, mid) == pre + [BrIfNot(mid)] + body + [Br(0)]
  {
    hide PatchB;
    PatchHead(pre, BrIfNot(0), body + [Br(0)], mid);
    RegroupBody(pre, BrIfNot(0), body);
    RegroupBody(pre, BrIfNot(mid), body);
  }

  lemma RegroupBody(pre: seq<CuOp>, x: CuOp, body: seq<CuOp>)
    ensures pre + [x] + body + [Br(0)] == pre + [x] + (body + [Br(0)])
  {
  }

  lemma ElseCtrl(ctrl: seq<Ctrl>, l: Ctrl, s: seq<Sym>, mid: nat, off: nat)
    requires l.patches == []
    ensures var cs := AddPatches(ctrl + [l], s, off);
      var l' := l.(patches := Positions(s, 0, off));
      cs[|ctrl|] == l' && forall x: Ctrl :: cs[|ctrl| := x] == AddPatches(ctrl, Close(s, mid), off) + [x]
  {
    hide AddPatches, Positions, Close;
    PopPatches(ctrl, l, s, mid, off);
    assert [] + Positions(s, 0, off) == Positions(s, 0, off);
    var cs := AddPatches(ctrl + [l], s, off);
    forall x: Ctrl
      ensures cs[|ctrl| := x] == AddPatches(ctrl, Close(s, mid), off) + [x]
    {
      assert cs[|ctrl| := x] == cs[..|ctrl|] + [x];
    }
  }

  lemma ElseAfterThen(c: Lower, l: Ctrl, e1: Emitted)
    requires l.kind == IfKind && l.patches == [] && l.brIfNot == Some(|c.code|)
    ensures LowerElse(After(Emit(c, BrIfNot(0)).(ctrl := c.ctrl + [l]), e1)) == Some(AtElse(c, l, e1))
  {
    hide AddPatches, Positions, PatchB, Code, Close;
    var mid := |c.code| + 2 + |e1.code|;
    ElseCtrl(c.ctrl, l, e1.code, mid, |c.code| + 1);
    ElseCode(c.code, Code(e1.code), mid);
  }

  /** The patches of both arms, applied at the end of the `if`. */
  lemma PatchArms(pre: seq<CuOp>, s1: seq<Sym>, s2: seq<Sym>, end: nat)
    ensures var ps := Positions(s1, 0, |pre|) + Positions(s2, 0, |pre| + |s1| + 1);
      PatchAll(PatchB(pre + Code(s1) + [Br(0)] + Code(s2), |pre| + |s1|, end), ps, end)
      == pre + Code(Close(s1, end)) + [Br(end)] + Code(Close(s2, end))
  {
    hide Positions, PatchB, PatchAll, Code, Close;
    var ps1, ps2 := Positions(s1, 0, |pre|), Positions(s2, 0, |pre| + |s1| + 1);
    var a, b, a', b' := Code(s1), Code(s2), Code(Close(s1, end)), Code(Close(s2, end));
    PatchHead(pre + a, Br(0), b, end);
    RegroupCode(pre, a, Br(end), b);
    PatchAllConcat(pre + a + [Br(end)] + b, ps1, ps2, end);
    PatchIsClose(pre, s1, [Br(end)] + b, end);
    RegroupCode(pre, a', Br(end), b);
    PatchIsClose(pre + a' + [Br(end)], s2, [], end);
    assert pre + a' + [Br(end)] + b + [] == pre + a' + [Br(end)] + b;
    assert pre + a' + [Br(end)] + b' + [] == pre + a' + [Br(end)] + b';
  }

  lemma RegroupCode(pre: seq<CuOp>, a: seq<CuOp>, x: CuOp, b: seq<CuOp>)
    ensures pre + a + [x] + b == pre + a + ([x] + b)
  {
  }

  /** Close only looks at the target for branches to the block itself. */
  lemma ClosePositions(s: seq<Sym>, a: nat, b: nat, ctrl: seq<Ctrl>, off: nat)
    ensures AddPatches(ctrl, Close(s, a), off) == AddPatches(ctrl, Close(s, b), off)
  {
    AddSame(ctrl, Close(s, a), Close(s, b), off);
  }

  lemma EndIfElse(c: Lower, l: Ctrl, e1: Emitted, e2: Emitted, ht: int, ht': int)
    requires l.kind == IfKind && l.patches == []
    ensures var mid := |c.code| + 2 + |e1.code|;
      var end := mid + |e2.code|;
      LowerEnd(After(AtElse(c, l, e1), e2))
      == Some(After(c, Emitted([Fixed(BrIfNot(mid), ht)] + Close(e1.code, end) + [Fixed(Br(end), ht')]
                               + Close(e2.code, end),
                               Tracked(l.base + l.nResults, l.deadOnEntry, e2.st.consts))))
  {
    hide AddPatches, Positions, PatchB, PatchAll, Code, Close;
    var mid := |c.code| + 2 + |e1.code|;
    var end := mid + |e2.code|;
    var pre := c.code + [BrIfNot(mid)];
    var a := AtElse(c, l, e1);
    var outer := AddPatches(c.ctrl, Close(e1.code, mid), |pre|);
    var l' := l.(patches := Positions(e1.code, 0, |pre|), elseBr := Some(mid - 1), hasElse := true);
    PopPatches(outer, l', e2.code, end, |a.code|);
    PatchArms(pre, e1.code, e2.code, end);
    var x, y := Fixed(BrIfNot(mid), ht), Fixed(Br(end), ht');
    var s1, s2 := Close(e1.code, end), Close(e2.code, end);
    ArmsCode(c.code, x, s1, y, s2);
    assert LowerEnd(After(a, e2)).value.code == pre + Code(s1) + [Br(end)] + Code(s2);
    ClosePositions(e1.code, mid, end, c.ctrl, |pre|);
    AddPatchesTwice(c.ctrl, s1, [y] + s2, |pre|);
    AddPatchesHead(AddPatches(c.ctrl, s1, |pre|), y, s2, |pre| + |s1|);
    AddPatchesHead(c.ctrl, x, s1 + ([y] + s2), |c.code|);
    assert [x] + s1 + [y] + s2 == [x] + (s1 + ([y] + s2));
  }

  lemma ArmsCode(code: seq<CuOp>, x: Sym, s1: seq<Sym>, y: Sym, s2: seq<Sym>)
    ensures code + Code([x] + s1 + [y] + s2) == code + [x.op] + Code(s1) + [y.op] + Code(s2)
  {
    CodeParts([x] + s1 + [y], s2);
    CodeParts([x] + s1, [y]);
    CodeParts([x], s1);
    assert Code([x]) == [x.op] && Code([y]) == [y.op];
  }

  // ----- the induction over structure -----

  lemma FirstOp(env: Env, op: Operator, rest: seq<Operator>, c: Lower)
    ensures LowerAll(env, [op] + rest, c)
         == var r := LowerStep(env, c, op); if r.None? then None else LowerAll(env, rest, r.value)
  {
    assert ([op] + rest)[1..] == rest;
  }

  lemma BracketOps(open: Operator, b: seq<Operator>, rest: seq<Operator>)
    ensures [open] + b + [OEnd] + rest == [open] + (b + ([OEnd] + rest))
  {
  }

  /** Running the translator over the operators of one instruction emits exactly its structural code. */
  lemma {:induction false} InstrLowers(env: Env, i: Instr, c: Lower, rest: seq<Operator>, reach: bool)
    ensures LowerAll(env, FlattenInstr(i) + rest, c)
         == AfterAll(env, rest, c, EmitInstr(env, i, |c.code|, TrackedOf(c), Labels(c.ctrl), reach))
    decreases i
  {
    hide LowerAll, EmitBody, Flatten, LowerOp, LowerEnd, LowerElse, After, Labels, Close;
    match i
    case Block(np, nr, body) => BlockLowers(env, i, c, rest, reach);
    case Loop(np, nr, body) => BlockLowers(env, i, c, rest, reach);
    case IfThen(np, nr, thn) => IfLowers(env, i, c, rest, reach);
    case IfElse(np, nr, thn, els) => IfElseLowers(env, i, c, rest, reach);
    case _ =>
      OpEmits(env, c, i, reach);
      FirstOp(env, Op(i), rest, c);
  }

  lemma {:induction false} BlockLowers(env: Env, i: Instr, c: Lower, rest: seq<Operator>, reach: bool)
    requires i.Block? || i.Loop?
    ensures LowerAll(env, FlattenInstr(i) + rest, c)
         == AfterAll(env, rest, c, EmitInstr(env, i, |c.code|, TrackedOf(c), Labels(c.ctrl), reach))
    decreases i, 0
  {
    hide LowerAll, EmitBody, Flatten, LowerEnd, After, Labels, Close;
    var kind := if i.Block? then BlockKind else LoopKind;
    var open := if i.Block? then OBlock(i.np, i.nr) else OLoop(i.np, i.nr);
    BracketOps(open, Flatten(i.body), rest);
    FirstOp(env, open, Flatten(i.body) + ([OEnd] + rest), c);
    var pushed := PushCtrl(c, kind, i.np, i.nr, None);
    if pushed.Some? {
      var c1 := pushed.value;
      var l := c1.ctrl[|c.ctrl|];
      LabelsPush(c.ctrl, l);
      var live := reach && !c.dead;
      BodyLowers(env, i.body, c1, [OEnd] + rest, live);
      var e := EmitBody(env, i.body, |c.code|, TrackedOf(c), [LabelOf(l)] + Labels(c.ctrl), live);
      if e.Some? {
        FirstOp(env, OEnd, rest, After(c1, e.value));
        EndBlock(c, l, e.value);
      }
    }
  }

  lemma {:induction false} IfLowers(env: Env, i: Instr, c: Lower, rest: seq<Operator>, reach: bool)
    requires i.IfThen?
    ensures LowerAll(env, FlattenInstr(i) + rest, c)
         == AfterAll(env, rest, c, EmitInstr(env, i, |c.code|, TrackedOf(c), Labels(c.ctrl), reach))
    decreases i, 0
  {
    hide LowerAll, EmitBody, Flatten, LowerEnd, After, Labels, Close;
    BracketOps(OIf(i.np, i.nr), Flatten(i.thn), rest);
    FirstOp(env, OIf(i.np, i.nr), Flatten(i.thn) + ([OEnd] + rest), c);
    if ConsumeH(c, 1, 0).Some? {
      var c0 := ConsumeH(c, 1, 0).value;
      var pushed := PushCtrl(Emit(c0, BrIfNot(0)), IfKind, i.np, i.nr, Some(|c.code|));
      if pushed.Some? {
        var c1 := pushed.value;
        var l := c1.ctrl[|c.ctrl|];
        LabelsPush(c.ctrl, l);
        var live := reach && !c.dead;
        BodyLowers(env, i.thn, c1, [OEnd] + rest, live);
        var e := EmitBody(env, i.thn, |c.code| + 1, TrackedOf(c0), [LabelOf(l)] + Labels(c.ctrl), live);
        if e.Some? {
          FirstOp(env, OEnd, rest, After(c1, e.value));
          EndIf(c0, l, e.value, Height(TrackedOf(c), reach));
          AfterHeight(c, c0, Emitted([Fixed(BrIfNot(|c.code| + 1 + |e.value.code|), Height(TrackedOf(c), reach))]
                                     + Close(e.value.code, |c.code| + 1 + |e.value.code|),
                                     Tracked(l.base + l.nResults, l.deadOnEntry, e.value.st.consts)));
        }
      }
    }
  }

  /** The height before does not matter to what emission leaves. */
  lemma AfterHeight(a: Lower, b: Lower, e: Emitted)
    requires a.code == b.code && a.ctrl == b.ctrl
    ensures After(a, e) == After(b, e)
  {
  }

  lemma ArmsOps(open: Operator, a: seq<Operator>, b: seq<Operator>, rest: seq<Operator>)
    ensures [open] + a + [OElse] + b + [OEnd] + rest == [open] + (a + ([OElse] + (b + ([OEnd] + rest))))
  {
  }

  lemma {:induction false} IfElseLowers(env: Env, i: Instr, c: Lower, rest: seq<Operator>, reach: bool)
    requires i.IfElse?
    ensures LowerAll(env, FlattenInstr(i) + rest, c)
         == AfterAll(env, rest, c, EmitInstr(env, i, |c.code|, TrackedOf(c), Labels(c.ctrl), reach))
    decreases i, 0
  {
    hide LowerAll, EmitBody, Flatten, LowerEnd, LowerElse, After, Labels, Close, AtElse, LowerOp, EmitBranch,
      EmitGuarded, EmitChain, Intern, Find;
    var open := OIf(i.np, i.nr);
    var tail := Flatten(i.els) + ([OEnd] + rest);
    ArmsOps(open, Flatten(i.thn), Flatten(i.els), rest);
    FirstOp(env, open, Flatten(i.thn) + ([OElse] + tail), c);
    if ConsumeH(c, 1, 0).Some? {
      var c0 := ConsumeH(c, 1, 0).value;
      var pushed := PushCtrl(Emit(c0, BrIfNot(0)), IfKind, i.np, i.nr, Some(|c.code|));
      if pushed.Some? {
        var c1 := pushed.value;
        var l := c1.ctrl[|c.ctrl|];
        LabelsPush(c.ctrl, l);
        var live := reach && !c.dead;
        var inner := [LabelOf(l)] + Labels(c.ctrl);
        BodyLowers(env, i.thn, c1, [OElse] + tail, live);
        var e1 := EmitBody(env, i.thn, |c.code| + 1, TrackedOf(c0), inner, live);
        if e1.Some? {
          FirstOp(env, OElse, tail, After(c1, e1.value));
          ElseAfterThen(c0, l, e1.value);
          var a := AtElse(c0, l, e1.value);
          AtElseShape(c0, l, e1.value);
          BodyLowers(env, i.els, a, [OEnd] + rest, live);
          var e2 := EmitBody(env, i.els, |a.code|, TrackedOf(a), inner, live);
          if e2.Some? {
            FirstOp(env, OEnd, rest, After(a, e2.value));
            EndIfElse(c0, l, e1.value, e2.value, Height(TrackedOf(c), reach), Height(e1.value.st, live));
            var e := EmitInstr(env, i, |c.code|, TrackedOf(c), Labels(c.ctrl), reach);
            AfterHeight(c, c0, e.value);
          }
        }
      }
    }
  }

  lemma AtElseShape(c: Lower, l: Ctrl, e1: Emitted)
    ensures var a := AtElse(c, l, e1);
      |a.code| == |c.code| + 2 + |e1.code| && TrackedOf(a) == Tracked(l.base + l.nParams, false, e1.st.consts) &&
      Labels(a.ctrl) == [LabelOf(l)] + Labels(c.ctrl)
  {
    hide Labels;
    var a := AtElse(c, l, e1);
    var outer := AddPatches(c.ctrl, Close(e1.code, |a.code|), |c.code| + 1);
    LabelsPush(outer, a.ctrl[|c.ctrl|]);
    LabelsPatched(c.ctrl, Close(e1.code, |a.code|), |c.code| + 1);
  }

  lemma LabelsPatched(ctrl: seq<Ctrl>, s: seq<Sym>, off: nat)
    ensures Labels(AddPatches(ctrl, s, off)) == Labels(ctrl)
  {
    var a := AddPatches(ctrl, s, off);
    forall d | 0 <= d < |a|
      ensures Labels(a)[d] == Labels(ctrl)[d]
    {
      assert LabelOf(a[|a| - 1 - d]) == LabelOf(ctrl[|a| - 1 - d]);
    }
  }

  lemma {:induction false} BodyLowers(env: Env, b: Body, c: Lower, rest: seq<Operator>, reach: bool)
    ensures LowerAll(env, Flatten(b) + rest, c)
         == AfterAll(env, rest, c, EmitBody(env, b, |c.code|, TrackedOf(c), Labels(c.ctrl), reach))
    decreases b
  {
    hide LowerAll, EmitInstr, FlattenInstr, After, Labels;
    match b
    case End =>
      assert [] + rest == rest;
      NoneEmits(c, TrackedOf(c));
    case Seq(i, t) =>
      assert FlattenInstr(i) + Flatten(t) + rest == FlattenInstr(i) + (Flatten(t) + rest);
      InstrLowers(env, i, c, Flatten(t) + rest, reach);
      var e1 := EmitInstr(env, i, |c.code|, TrackedOf(c), Labels(c.ctrl), reach);
      if e1.Some? {
        var c1 := After(c, e1.value);
        AfterShape(c, e1.value);
        BodyLowers(env, t, c1, rest, reach);
        LabelsAfter(c, e1.value);
        var e2 := EmitBody(env, t, |c1.code|, e1.value.st, Labels(c.ctrl), reach);
        if e2.Some? { AfterTwice(c, e1.value, e2.value); }
      }
  }

  lemma AfterShape(c: Lower, e: Emitted)
    ensures |After(c, e).code| == |c.code| + |e.code| && TrackedOf(After(c, e)) == e.st
  {
  }

  /** What `lower_operators` returns for a whole body: nothing on an error, else the finished code and the constant
      pool. `ops` is the operator list of the body with its final End. */
  function Lowered(env: Env, ops: seq<Operator>, code: seq<CuOp>, consts: seq<Word>): Option<Lower> {
    match LowerAll(env, ops, Start(env, code, consts))
    case None => None
    case Some(c) => if c.ctrl == [] then Some(c) else None
  }

  /** The translator's one pass with back-patching computes the structural code: it fails exactly when the structural
      emission does, and otherwise appends exactly that code, every open branch pointing at the end of its block, with
      no placeholder left. */
  lemma LoweringIsEmission(env: Env, b: Body, code: seq<CuOp>, consts: seq<Word>)
    ensures var e := EmitBody(env, b, |code|, Tracked(0, false, consts), [Label(None, 0, env.nResults)], true);
      var r := Lowered(env, Flatten(b) + [OEnd], code, consts);
      (r.Some? <==> e.Some?) &&
      (r.Some? ==> r.value.code == code + FuncCode(e.value.code, |code|) && r.value.consts == e.value.st.consts)
  {
    hide LowerAll, EmitBody, After, Labels;
    var c := Start(env, code, consts);
    assert Labels(c.ctrl) == [Label(None, 0, env.nResults)] by { LabelsOne(c.ctrl[0]); }
    BodyLowers(env, b, c, [OEnd], true);
    var e := EmitBody(env, b, |code|, Tracked(0, false, consts), [Label(None, 0, env.nResults)], true);
    if e.Some? {
      var c1 := After(c, e.value);
      FirstOp(env, OEnd, [], c1);
      assert [OEnd] + [] == [OEnd];
      EndFunction(c, e.value);
      NoMoreOps(env, LowerEnd(c1).value);
    }
  }

  lemma NoMoreOps(env: Env, c: Lower)
    ensures LowerAll(env, [], c) == Some(c)
  {
  }

  lemma LabelsOne(l: Ctrl)
    ensures Labels([l]) == [LabelOf(l)]
  {
  }

  lemma EndFunction(c: Lower, e: Emitted)
    requires |c.ctrl| == 1 && c.ctrl[0].kind == FuncKind && c.ctrl[0].patches == []
    ensures var r := LowerEnd(After(c, e));
      r.Some? && r.value.ctrl == [] && r.value.consts == e.st.consts &&
        r.value.code == c.code + FuncCode(e.code, |c.code|)
  {
    hide Positions, PatchAll;
    var end := |c.code| + |e.code|;
    var l := c.ctrl[0];
    assert [] + [l] == c.ctrl;
    PopPatches([], l, e.code, end, |c.code|);
    PatchIsClose(c.code, e.code, [EndFunc], end);
    assert [] + Positions(e.code, 0, |c.code|) == Positions(e.code, 0, |c.code|);
    ClosedIsResolved(e.code, end);
  }

  /** Closing the function label resolves everything that can be resolved. */
  lemma ClosedIsResolved(s: seq<Sym>, end: nat)
    ensures Code(Close(s, end)) == Resolved(s, [end])
  {
  }
}
