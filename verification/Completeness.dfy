/** When the translator succeeds. It refuses tail calls of imports; otherwise its only trouble with valid code is the
    `else` arm of an `if` in dead code, which it takes for live: a branch from there to a label outside the `if` can
    fail. The exact condition is said in terms of the typing; in particular, without either every well-typed body is
    lowered. */
module Completeness {
  import opened Words
  import opened Bytecode
  import opened Wasm
  import opened Emission
  import opened Accepting

  predicate Stops(i: Instr) { i.Branch? || i.BranchTable? || i.Ret? || i.Trap? || i.TailInvoke? }

  /** No branch leaves the else arm of an if in dead code, and no tail call goes to one of the `n` imports; `near`
      counts the enclosing labels a branch may use. */
  predicate InstrStays(i: Instr, dead: bool, near: nat, n: nat)
    decreases i
  {
    match i
    case Block(_, _, b) => BodyStays(b, dead, near + 1, n)
    case Loop(_, _, b) => BodyStays(b, dead, near + 1, n)
    case IfThen(_, _, b) => BodyStays(b, dead, near + 1, n)
    case IfElse(_, _, b, c) => BodyStays(b, dead, near + 1, n) && BodyStays(c, false, if dead then 1 else near + 1, n)
    case Branch(d) => dead || d < near
    case BranchIf(d) => dead || d < near
    case BranchTable(ds, default) => dead || (default < near && forall j :: 0 <= j < |ds| ==> ds[j] < near)
    case TailInvoke(f) => f >= n
    case _ => true
  }

  predicate BodyStays(b: Body, dead: bool, near: nat, n: nat)
    decreases b
  {
    b.Seq? ==> InstrStays(b.head, dead, near, n) && BodyStays(b.tail, dead || Stops(b.head), near, n)
  }

  lemma TypedStops(p: Program, k: Ctx, i: Instr, t: Ty)
    requires TypeInstr(p, k, i, t).Some? && !t.dead
    ensures TypeInstr(p, k, i, t).value.dead <==> Stops(i)
  {
    hide TypeBody;
  }

  // ----- exactly when -----

  /** Where the operands under a block start, for the translator: at 0 in dead code. */
  function BaseOfBlock(t: Ty, dead: bool, base: int, np: nat): int { if dead then 0 else base + t.h - np }

  /** Every branch that the translator takes for live finds the operands its label wants, and no tail call goes to an
      import. Heights come from the typing;
      `base` is what the translator has under the current block and `tops` what it wants at each enclosing label. */
  predicate InstrFits(p: Program, k: Ctx, i: Instr, t: Ty, dead: bool, base: int, tops: seq<int>)
    decreases i
  {
    match i
    case Block(np, nr, b) =>
      var u := BaseOfBlock(t, dead, base, np);
      BodyFits(p, Inner(k, nr), b, Ty(np, false), dead, u, [u + nr] + tops)
    case Loop(np, nr, b) =>
      var u := BaseOfBlock(t, dead, base, np);
      BodyFits(p, Inner(k, np), b, Ty(np, false), dead, u, [u + np] + tops)
    case IfThen(np, nr, b) =>
      var u := BaseOfBlock(t, dead, base - 1, np);
      BodyFits(p, Inner(k, nr), b, Ty(np, false), dead, u, [u + nr] + tops)
    case IfElse(np, nr, b, c) =>
      var u := BaseOfBlock(t, dead, base - 1, np);
      BodyFits(p, Inner(k, nr), b, Ty(np, false), dead, u, [u + nr] + tops) &&
      BodyFits(p, Inner(k, nr), c, Ty(np, false), false, u, [u + nr] + tops)
    case Branch(d) => Wanted(tops, d, dead, base + t.h)
    case BranchIf(d) => Wanted(tops, d, dead, base + t.h - 1)
    case BranchTable(ds, default) =>
      Wanted(tops, default, dead, base + t.h - 1) &&
      forall j :: 0 <= j < |ds| ==> Wanted(tops, ds[j], dead, base + t.h - 1)
    case TailInvoke(f) => f >= p.nImports
    case _ => true
  }

  predicate Wanted(tops: seq<int>, d: nat, dead: bool, h: int) { dead || (d < |tops| && tops[d] <= h) }

  predicate BodyFits(p: Program, k: Ctx, b: Body, t: Ty, dead: bool, base: int, tops: seq<int>)
    decreases b
  {
    b.Seq? ==>
      InstrFits(p, k, b.head, t, dead, base, tops) &&
      (TypeInstr(p, k, b.head, t).Some? ==>
         BodyFits(p, k, b.tail, TypeInstr(p, k, b.head, t).value, dead || Stops(b.head), base, tops))
  }

  /** The translator's state as the condition sees it. */
  ghost predicate Seen(st: Tracked, labels: seq<Label>, k: Ctx, base: int, t: Ty, tops: seq<int>) {
    && |labels| == |k.labels| == |tops|
    && (!st.dead ==> !t.dead && st.h == base + t.h && base >= 0)
    && forall d :: 0 <= d < |labels| ==> tops[d] == labels[d].base + labels[d].arity
  }

  lemma BranchExact(env: Env, d: nat, st: Tracked, labels: seq<Label>, reach: bool, k: Ctx, base: int, t: Ty,
                    tops: seq<int>)
    requires Seen(st, labels, k, base, t, tops) && d < |k.labels|
    ensures EmitBranch(env, d, st, labels, reach).Some? <==> Wanted(tops, d, st.dead, base + t.h)
  {
  }

  ghost predicate AllWanted(tops: seq<int>, ds: seq<nat>, i: nat, default: nat, dead: bool, h: int) {
    Wanted(tops, default, dead, h) && forall j :: i <= j < |ds| ==> Wanted(tops, ds[j], dead, h)
  }

  lemma {:induction false} ChainExact(env: Env, ds: seq<nat>, i: nat, default: nat, pc: nat, st: Tracked,
                                      labels: seq<Label>, reach: bool, k: Ctx, base: int, t: Ty, tops: seq<int>)
    requires Seen(st, labels, k, base, t, tops) && i <= |ds| && Targets(k, t, ds + [default])
    ensures EmitChain(env, ds, i, default, pc, st, labels, reach).Some? <==>
      AllWanted(tops, ds, i, default, st.dead, base + t.h)
    decreases |ds| - i
  {
    hide EmitBranch, Intern, Find, Wanted;
    var all := ds + [default];
    if i == |ds| {
      assert all[i] == default;
      BranchExact(env, default, st, labels, reach, k, base, t, tops);
    } else {
      assert all[i] == ds[i];
      var st' := st.(consts := Intern(st.consts, i % TWO32));
      BranchExact(env, ds[i], st', labels, reach, k, base, t, tops);
      var e := EmitLink(env, ds[i], i, pc, st, labels, reach);
      if e.Some? {
        ChainExact(env, ds, i + 1, default, pc + |e.value.code|, e.value.st, labels, reach, k, base, t, tops);
      }
    }
  }

  lemma PlainExact(env: Env, i: Instr, pc: nat, st: Tracked, labels: seq<Label>, reach: bool, k: Ctx, base: int, t: Ty,
                   tops: seq<int>)
    requires Seen(st, labels, k, base, t, tops) && TypeInstr(env.p, k, i, t).Some?
    requires WellFormed(env.p) && !Nested(i) && !i.Branch? && !i.BranchIf? && !i.BranchTable?
    ensures EmitInstr(env, i, pc, st, labels, reach).Some? <==> InstrFits(env.p, k, i, t, st.dead, base, tops)
  {
    hide EmitBranch, EmitChain, EmitBody, TypeBody, Intern, Find, Close, BodyFits, Targets, Wanted;
  }

  lemma LeafExact(env: Env, i: Instr, pc: nat, st: Tracked, labels: seq<Label>, reach: bool, k: Ctx, base: int, t: Ty,
                  tops: seq<int>)
    requires Seen(st, labels, k, base, t, tops) && TypeInstr(env.p, k, i, t).Some?
    requires WellFormed(env.p) && !Nested(i)
    ensures EmitInstr(env, i, pc, st, labels, reach).Some? <==> InstrFits(env.p, k, i, t, st.dead, base, tops)
  {
    hide EmitBranch, EmitChain, EmitBody, TypeBody, Intern, Find, Close, BodyFits, EmitLink;
    match i
    case Branch(d) => BranchExact(env, d, st, labels, reach, k, base, t, tops);
    case BranchIf(d) =>
      var st1 := Consume(st, 1, 0).value;
      BranchExact(env, d, st1, labels, reach, k, base, PopTy(t, 1).value, tops);
    case BranchTable(ds, default) =>
      var st1 := Consume(st, 1, 0).value;
      ChainExact(env, ds, 0, default, pc + 1, st1, labels, reach, k, base, PopTy(t, 1).value, tops);
    case _ => PlainExact(env, i, pc, st, labels, reach, k, base, t, tops);
  }

  lemma {:induction false} InstrExact(env: Env, i: Instr, pc: nat, st: Tracked, labels: seq<Label>, reach: bool, k: Ctx,
                                      base: int, t: Ty, tops: seq<int>)
    requires Seen(st, labels, k, base, t, tops) && TypeInstr(env.p, k, i, t).Some? && WellFormed(env.p)
    ensures EmitInstr(env, i, pc, st, labels, reach).Some? <==> InstrFits(env.p, k, i, t, st.dead, base, tops)
    decreases i, 1
  {
    hide EmitInstr, TypeInstr, InstrFits, Seen;
    if i.Block? || i.Loop? {
      BlockExact(env, i, pc, st, labels, reach, k, base, t, tops);
    } else if i.IfThen? || i.IfElse? {
      IfExact(env, i, pc, st, labels, reach, k, base, t, tops);
    } else {
      LeafExact(env, i, pc, st, labels, reach, k, base, t, tops);
    }
  }

  lemma {:induction false} BlockExact(env: Env, i: Instr, pc: nat, st: Tracked, labels: seq<Label>, reach: bool, k: Ctx,
                                      base: int, t: Ty, tops: seq<int>)
    requires Seen(st, labels, k, base, t, tops) && TypeInstr(env.p, k, i, t).Some? && WellFormed(env.p)
    requires i.Block? || i.Loop?
    ensures EmitInstr(env, i, pc, st, labels, reach).Some? <==> InstrFits(env.p, k, i, t, st.dead, base, tops)
    decreases i, 0
  {
    hide EmitBody, TypeBody, BodyFits;
    var u := BlockBase(st, i.np).value;
    var arity := if i.Block? then i.nr else i.np;
    var l := Label(if i.Block? then None else Some(pc), u, arity);
    SeenInside(st, labels, k, base, t, tops, i.np, l);
    BodyExact(env, i.body, pc, st, [l] + labels, reach && !st.dead, Inner(k, arity), u, Ty(i.np, false),
              [u + arity] + tops);
  }

  lemma SeenInside(st: Tracked, labels: seq<Label>, k: Ctx, base: int, t: Ty, tops: seq<int>, np: nat, l: Label)
    requires Seen(st, labels, k, base, t, tops)
    requires !st.dead ==> t.h >= np && l.base == st.h - np
    ensures Seen(st, [l] + labels, Inner(k, l.arity), l.base, Ty(np, false), [l.base + l.arity] + tops)
  {
  }

  lemma {:induction false} IfExact(env: Env, i: Instr, pc: nat, st: Tracked, labels: seq<Label>, reach: bool, k: Ctx,
                                   base: int, t: Ty, tops: seq<int>)
    requires Seen(st, labels, k, base, t, tops) && TypeInstr(env.p, k, i, t).Some? && WellFormed(env.p)
    requires i.IfThen? || i.IfElse?
    ensures EmitInstr(env, i, pc, st, labels, reach).Some? <==> InstrFits(env.p, k, i, t, st.dead, base, tops)
    decreases i, 0
  {
    hide EmitBody, TypeBody, BodyFits, EmitBranch, EmitGuarded, EmitChain, Targets, Intern, Find, Close, Wanted;
    var st1, t1 := Consume(st, 1, 0).value, PopTy(t, 1).value;
    var u := BlockBase(st1, i.np).value;
    var l := Label(None, u, i.nr);
    var live, k', tops' := reach && !st.dead, Inner(k, i.nr), [u + i.nr] + tops;
    SeenInside(st1, labels, k, base, t1, tops, i.np, l);
    BodyExact(env, i.thn, pc + 1, st1, [l] + labels, live, k', u, Ty(i.np, false), tops');
    var e1 := EmitBody(env, i.thn, pc + 1, st1, [l] + labels, live);
    if i.IfElse? && e1.Some? {
      var st2 := Tracked(u + i.np, false, e1.value.st.consts);
      assert Seen(st2, [l] + labels, k', u, Ty(i.np, false), tops');
      BodyExact(env, i.els, pc + 2 + |e1.value.code|, st2, [l] + labels, live, k', u, Ty(i.np, false), tops');
    }
  }

  lemma {:induction false} BodyExact(env: Env, b: Body, pc: nat, st: Tracked, labels: seq<Label>, reach: bool, k: Ctx,
                                     base: int, t: Ty, tops: seq<int>)
    requires Seen(st, labels, k, base, t, tops) && TypeBody(env.p, k, b, t).Some? && WellFormed(env.p)
    ensures EmitBody(env, b, pc, st, labels, reach).Some? <==> BodyFits(env.p, k, b, t, st.dead, base, tops)
    decreases b, 0
  {
    hide EmitInstr, TypeInstr, InstrFits, Seen;
    if b.Seq? {
      InstrExact(env, b.head, pc, st, labels, reach, k, base, t, tops);
      var e := EmitInstr(env, b.head, pc, st, labels, reach);
      if e.Some? {
        NextSeen(env, b.head, pc, st, labels, reach, k, base, t, tops);
        BodyExact(env, b.tail, pc + |e.value.code|, e.value.st, labels, reach, k, base,
                  TypeInstr(env.p, k, b.head, t).value, tops);
      }
    }
  }

  lemma NextSeen(env: Env, i: Instr, pc: nat, st: Tracked, labels: seq<Label>, reach: bool, k: Ctx, base: int, t: Ty,
                 tops: seq<int>)
    requires Seen(st, labels, k, base, t, tops) && TypeInstr(env.p, k, i, t).Some?
    requires EmitInstr(env, i, pc, st, labels, reach).Some?
    ensures var e, u := EmitInstr(env, i, pc, st, labels, reach).value, TypeInstr(env.p, k, i, t).value;
      Seen(e.st, labels, k, base, u, tops) && e.st.dead == (st.dead || Stops(i))
  {
    hide EmitInstr, TypeInstr;
    if st.dead {
      InstrDead(env, i, pc, st, labels, reach);
    } else {
      InstrTracks(env, i, pc, st, labels, reach, k, base, t.h);
      TypedStops(env.p, k, i, t);
    }
  }

  /** The condition for one function: at entry nothing lies below, and the function label wants the results. */
  predicate FuncFits(p: Program, f: nat)
    requires f < |p.funcs| && p.funcs[f].Local? && p.funcs[f].ty < |p.types|
  {
    var nr := NumResults(p, f);
    BodyFits(p, Ctx([nr], nr, NumParams(p, f) + p.funcs[f].nLocals), p.funcs[f].body, Ty(0, false), false, 0, [nr])
  }

  /** Exactly when the translator lowers a function of a well-typed program. */
  lemma LoweringCondition(p: Program, f: nat, off: nat, pool: seq<Word>)
    requires WellTyped(p) && p.nImports <= f < |p.funcs|
    ensures EmitFunc(p, f, off, pool).Some? <==> FuncFits(p, f)
  {
    hide EmitBody, TypeBody, BodyFits;
    assert BodyTyped(p, f);
    var env := EnvOf(p, f);
    var nr := NumResults(p, f);
    var k := Ctx([nr], nr, NumParams(p, f) + p.funcs[f].nLocals);
    BodyExact(env, p.funcs[f].body, off, Tracked(0, false, pool), [Label(None, 0, nr)], true, k, 0, Ty(0, false), [nr]);
  }

  // ----- a condition on the text alone -----

  /** The `near` innermost labels want no more than their arity on top of `base`. */
  ghost predicate Near(k: Ctx, t: Ty, dead: bool, base: int, tops: seq<int>, near: nat) {
    && near <= |tops| == |k.labels|
    && (!dead ==> !t.dead && forall d :: 0 <= d < near ==> tops[d] <= base + k.labels[d])
  }

  /** Entering a block that takes `np` operands and whose label wants `arity`. */
  lemma NearInside(k: Ctx, t: Ty, dead: bool, base: int, tops: seq<int>, near: nat, np: nat, u: int, arity: nat)
    requires Near(k, t, dead, base, tops, near) && (!dead ==> u >= base)
    ensures Near(Inner(k, arity), Ty(np, false), dead, u, [u + arity] + tops, near + 1)
    ensures Near(Inner(k, arity), Ty(np, false), false, u, [u + arity] + tops, if dead then 1 else near + 1)
  {
  }

  lemma {:induction false} InstrStaysFits(p: Program, k: Ctx, i: Instr, t: Ty, dead: bool, base: int, tops: seq<int>,
                                          near: nat)
    requires TypeInstr(p, k, i, t).Some? && InstrStays(i, dead, near, p.nImports) && Near(k, t, dead, base, tops, near)
    ensures InstrFits(p, k, i, t, dead, base, tops)
    decreases i, 0
  {
    hide TypeBody, BodyStays, BodyFits;
    match i
    case Block(np, nr, b) =>
      var u := BaseOfBlock(t, dead, base, np);
      NearInside(k, t, dead, base, tops, near, np, u, nr);
      BodyStaysFits(p, Inner(k, nr), b, Ty(np, false), dead, u, [u + nr] + tops, near + 1);
    case Loop(np, nr, b) =>
      var u := BaseOfBlock(t, dead, base, np);
      NearInside(k, t, dead, base, tops, near, np, u, np);
      BodyStaysFits(p, Inner(k, np), b, Ty(np, false), dead, u, [u + np] + tops, near + 1);
    case IfThen(np, nr, b) =>
      var u := BaseOfBlock(t, dead, base - 1, np);
      NearInside(k, t, dead, base, tops, near, np, u, nr);
      BodyStaysFits(p, Inner(k, nr), b, Ty(np, false), dead, u, [u + nr] + tops, near + 1);
    case IfElse(np, nr, b, c) =>
      var u := BaseOfBlock(t, dead, base - 1, np);
      NearInside(k, t, dead, base, tops, near, np, u, nr);
      BodyStaysFits(p, Inner(k, nr), b, Ty(np, false), dead, u, [u + nr] + tops, near + 1);
      BodyStaysFits(p, Inner(k, nr), c, Ty(np, false), false, u, [u + nr] + tops, if dead then 1 else near + 1);
    case BranchTable(ds, default) =>
      if !dead { TableFits(k, ds, default, PopTy(t, 1).value, base, tops, near); }
    case _ =>
  }

  lemma TableFits(k: Ctx, ds: seq<nat>, default: nat, t: Ty, base: int, tops: seq<int>, near: nat)
    requires Near(k, t, false, base, tops, near) && Targets(k, t, ds + [default])
    requires default < near && forall j :: 0 <= j < |ds| ==> ds[j] < near
    ensures Wanted(tops, default, false, base + t.h)
    ensures forall j :: 0 <= j < |ds| ==> Wanted(tops, ds[j], false, base + t.h)
  {
    var all := ds + [default];
    assert all[|ds|] == default;
    forall j | 0 <= j < |ds|
      ensures Wanted(tops, ds[j], false, base + t.h)
    {
      assert all[j] == ds[j];
    }
  }

  lemma {:induction false} BodyStaysFits(p: Program, k: Ctx, b: Body, t: Ty, dead: bool, base: int, tops: seq<int>,
                                         near: nat)
    requires TypeBody(p, k, b, t).Some? && BodyStays(b, dead, near, p.nImports) && Near(k, t, dead, base, tops, near)
    ensures BodyFits(p, k, b, t, dead, base, tops)
    decreases b, 0
  {
    hide TypeInstr, InstrStays, InstrFits;
    if b.Seq? {
      InstrStaysFits(p, k, b.head, t, dead, base, tops, near);
      if !dead { TypedStops(p, k, b.head, t); }
      BodyStaysFits(p, k, b.tail, TypeInstr(p, k, b.head, t).value, dead || Stops(b.head), base, tops, near);
    }
  }

  ghost predicate DeadElsesStay(p: Program) {
    forall f :: 0 <= f < |p.funcs| && p.funcs[f].Local? ==> BodyStays(p.funcs[f].body, false, 1, p.nImports)
  }

  ghost predicate Lowerable(p: Program) {
    WellFormed(p) && forall f :: p.nImports <= f < |p.funcs| ==> FuncFits(p, f)
  }

  /** The functions of a well-formed program whose bodies the translator refuses. */
  ghost function Unfit(p: Program): set<nat>
    requires WellFormed(p)
  {
    set f: nat | p.nImports <= f < |p.funcs| && !FuncFits(p, f)
  }

  /** Every well-typed program whose dead else arms stay inside, and which tail-calls no import, can be lowered. */
  lemma DeadElsesLower(p: Program)
    requires WellTyped(p) && DeadElsesStay(p)
    ensures Lowerable(p)
  {
    hide TypeBody, BodyStays, BodyFits;
    forall f | p.nImports <= f < |p.funcs|
      ensures FuncFits(p, f)
    {
      assert BodyTyped(p, f);
      var nr := NumResults(p, f);
      var k := Ctx([nr], nr, NumParams(p, f) + p.funcs[f].nLocals);
      BodyStaysFits(p, k, p.funcs[f].body, Ty(0, false), false, 0, [nr], 1);
    }
  }

  /** The arm `else br (d + 1) end` of an `if` with `np` parameters, in dead code. */
  function DeadIf(np: nat, nr: nat, thn: Body, d: nat): Instr { IfElse(np, nr, thn, Seq(Branch(d + 1), End)) }

  /** Exactly when a branch out of a dead else arm is refused: the arm is tracked from height 0, so it finds its `np`
      parameters and no more, whatever lies under the enclosing blocks. */
  lemma DeadElseBranch(env: Env, np: nat, nr: nat, d: nat, pc: nat, st: Tracked, labels: seq<Label>, reach: bool)
    requires st.dead && d < |labels|
    ensures EmitInstr(env, DeadIf(np, nr, End, d), pc, st, labels, reach).Some? <==>
      labels[d].base + labels[d].arity <= np
  {
    hide EmitBody;
    var inner := [Label(None, 0, nr)] + labels;
    assert inner[d + 1] == labels[d];
    assert EmitBody(env, End, pc + 1, st, inner, false) == Some(Emitted([], st)) by {
      EmptyBody(env, pc + 1, st, inner, false);
    }
    OneBranch(env, d + 1, pc + 2, Tracked(np, false, st.consts), inner, false);
  }

  lemma EmptyBody(env: Env, pc: nat, st: Tracked, labels: seq<Label>, reach: bool)
    ensures EmitBody(env, End, pc, st, labels, reach) == Some(Emitted([], st))
  {
  }

  lemma OneBranch(env: Env, d: nat, pc: nat, st: Tracked, labels: seq<Label>, reach: bool)
    ensures EmitBody(env, Seq(Branch(d), End), pc, st, labels, reach).Some? <==>
      EmitBranch(env, d, st, labels, reach).Some?
  {
    hide EmitBranch;
    var e := EmitInstr(env, Branch(d), pc, st, labels, reach);
    if e.Some? { EmptyBody(env, pc + |e.value.code|, e.value.st, labels, reach); }
  }

  /** Such an `if` is valid wherever its target label takes no operands. */
  lemma DeadElseTyped(p: Program, k: Ctx, d: nat)
    requires d < |k.labels| && k.labels[d] == 0
    ensures TypeInstr(p, k, DeadIf(0, 0, End, d), Ty(0, true)) == Some(Ty(0, true))
  {
    assert TypeBody(p, Inner(k, 0), End, Ty(0, false)) == Some(Ty(0, false));
    assert Inner(k, 0).labels[d + 1] == 0;
    assert TypeInstr(p, Inner(k, 0), Branch(d + 1), Ty(0, false)) == Some(Ty(0, true));
    assert TypeBody(p, Inner(k, 0), End, Ty(0, true)) == Some(Ty(0, true));
    assert TypeBody(p, Inner(k, 0), Seq(Branch(d + 1), End), Ty(0, false)) == Some(Ty(0, true));
  }

  /** `i32.const 0; block; unreachable; if; else; br 1; end; end; drop`: in dead code, an else arm that branches out of
      a block which stands on one operand. */
  function DeadPart(): Body { Seq(Trap, Seq(DeadIf(0, 0, End, 0), End)) }

  function Around(): Body { Seq(Block(0, 0, DeadPart()), Seq(Basic(Plain.Drop), End)) }

  function RefusedBody(): Body { Seq(Value(0), Around()) }

  function RefusedProgram(): Program { Program([Sig([], [])], [Local(0, 0, RefusedBody())], 0, [], []) }

  lemma DeadPartTyped(p: Program, k: Ctx)
    requires |k.labels| > 0 && k.labels[0] == 0
    ensures TypeBody(p, k, DeadPart(), Ty(0, false)) == Some(Ty(0, true))
  {
    hide DeadIf;
    DeadElseTyped(p, k, 0);
    assert TypeInstr(p, k, Trap, Ty(0, false)) == Some(Ty(0, true));
    assert TypeBody(p, k, End, Ty(0, true)) == Some(Ty(0, true));
    assert TypeBody(p, k, Seq(DeadIf(0, 0, End, 0), End), Ty(0, true)) == Some(Ty(0, true));
  }

  /** In the dead else arm nothing is tracked, but the label of the block wants the operand under it. */
  lemma DeadPartUnfit(p: Program, k: Ctx, base: int, tops: seq<int>)
    requires |tops| > 0 && tops[0] > 0
    ensures !BodyFits(p, k, DeadPart(), Ty(0, false), false, base, tops)
  {
    var t := Ty(0, true);
    var arm := Seq(Branch(1), End);
    assert ([0] + tops)[1] == tops[0];
    assert !InstrFits(p, Inner(k, 0), Branch(1), Ty(0, false), false, 0, [0] + tops);
    assert !BodyFits(p, Inner(k, 0), arm, Ty(0, false), false, 0, [0] + tops);
    assert !InstrFits(p, k, DeadIf(0, 0, End, 0), t, true, base, tops);
    assert !BodyFits(p, k, Seq(DeadIf(0, 0, End, 0), End), t, true, base, tops);
    assert TypeInstr(p, k, Trap, Ty(0, false)) == Some(t);
  }

  lemma SeqTyped(p: Program, k: Ctx, i: Instr, rest: Body, t: Ty, u: Ty, v: Ty)
    requires TypeInstr(p, k, i, t) == Some(u) && TypeBody(p, k, rest, u) == Some(v)
    ensures TypeBody(p, k, Seq(i, rest), t) == Some(v)
  {
    hide TypeInstr;
  }

  lemma BlockTyped(p: Program, k: Ctx, b: Body, t: Ty)
    requires Ends(TypeBody(p, Inner(k, 0), b, Ty(0, false)), 0)
    ensures TypeInstr(p, k, Block(0, 0, b), t) == Some(t)
  {
    hide TypeBody;
  }

  lemma DropTyped(p: Program, k: Ctx, h: nat)
    ensures TypeBody(p, k, Seq(Basic(Plain.Drop), End), Ty(h + 1, false)) == Some(Ty(h, false))
    ensures TypeInstr(p, k, Value(0), Ty(h, false)) == Some(Ty(h + 1, false))
  {
    assert TypeInstr(p, k, Basic(Plain.Drop), Ty(h + 1, false)) == Some(Ty(h, false));
    assert TypeBody(p, k, End, Ty(h, false)) == Some(Ty(h, false));
  }

  lemma RefusedTyped(p: Program, k: Ctx)
    ensures TypeBody(p, k, RefusedBody(), Ty(0, false)) == Some(Ty(0, false))
  {
    hide DeadPart, TypeBody, TypeInstr;
    DeadPartTyped(p, Inner(k, 0));
    BlockTyped(p, k, DeadPart(), Ty(1, false));
    DropTyped(p, k, 0);
    SeqTyped(p, k, Block(0, 0, DeadPart()), Seq(Basic(Plain.Drop), End), Ty(1, false), Ty(1, false), Ty(0, false));
    SeqTyped(p, k, Value(0), Around(), Ty(0, false), Ty(1, false), Ty(0, false));
  }

  lemma AroundUnfit(p: Program, k: Ctx, tops: seq<int>)
    ensures !BodyFits(p, k, Around(), Ty(1, false), false, 0, tops)
  {
    hide DeadPart;
    DeadPartUnfit(p, Inner(k, 0), 1, [1] + tops);
    assert !InstrFits(p, k, Block(0, 0, DeadPart()), Ty(1, false), false, 0, tops);
  }

  lemma SeqUnfit(p: Program, k: Ctx, i: Instr, rest: Body, t: Ty, u: Ty, base: int, tops: seq<int>)
    requires TypeInstr(p, k, i, t) == Some(u) && !Stops(i) && !BodyFits(p, k, rest, u, false, base, tops)
    ensures !BodyFits(p, k, Seq(i, rest), t, false, base, tops)
  {
    hide TypeInstr, InstrFits;
  }

  /** Valid WebAssembly that the translator refuses. */
  lemma ValidButRefused()
    ensures WellTyped(RefusedProgram()) && !Lowerable(RefusedProgram())
  {
    hide Around, TypeBody, TypeInstr, BodyFits;
    var p, k := RefusedProgram(), Ctx([0], 0, 0);
    RefusedTyped(p, k);
    AroundUnfit(p, k, [0]);
    DropTyped(p, k, 0);
    SeqUnfit(p, k, Value(0), Around(), Ty(0, false), Ty(1, false), 0, [0]);
    assert BodyTyped(p, 0);
    assert !FuncFits(p, 0);
  }
}
