/** The operand heights the translator tracked solve the verifier's equations for the code it emitted, wherever an int
    can count them; and what the translator knew to be dead carries no height. */
module Accepting {
  import opened Words
  import opened Bytecode
  import opened Wasm
  import opened Emission
  import opened Verifier
  import opened Safety
  import opened Simulation
  import opened Preservation

  // ----- dead code carries no heights -----

  predicate AllDead(s: seq<Sym>) {
    forall i :: 0 <= i < |s| ==> s[i].ht == -1
  }

  lemma BranchDead(env: Env, d: nat, st: Tracked, labels: seq<Label>, reach: bool)
    requires !reach || st.dead
    ensures var j := EmitBranch(env, d, st, labels, reach); j.Some? ==> AllDead(j.value)
  {
  }

  lemma {:induction false} ChainDead(env: Env, ds: seq<nat>, i: nat, default: nat, pc: nat, st: Tracked,
                                     labels: seq<Label>, reach: bool)
    requires i <= |ds| && (!reach || st.dead)
    ensures var e := EmitChain(env, ds, i, default, pc, st, labels, reach); e.Some? ==> AllDead(e.value.code)
    decreases |ds| - i
  {
    hide EmitBranch, Intern, Find;
    if i == |ds| {
      BranchDead(env, default, st, labels, reach);
    } else {
      var e1 := EmitLink(env, ds[i], i, pc, st, labels, reach);
      BranchDead(env, ds[i], st.(consts := Intern(st.consts, i % TWO32)), labels, reach);
      if e1.Some? {
        assert AllDead(e1.value.code);
        ChainDead(env, ds, i + 1, default, pc + |e1.value.code|, e1.value.st, labels, reach);
      }
    }
  }

  lemma {:induction false} ChainStops(env: Env, ds: seq<nat>, i: nat, default: nat, pc: nat, st: Tracked,
                                      labels: seq<Label>, reach: bool)
    requires i <= |ds|
    ensures var e := EmitChain(env, ds, i, default, pc, st, labels, reach); e.Some? ==> e.value.st.dead
    decreases |ds| - i
  {
    hide EmitBranch, EmitLink;
    if i < |ds| {
      var e1 := EmitLink(env, ds[i], i, pc, st, labels, reach);
      if e1.Some? { ChainStops(env, ds, i + 1, default, pc + |e1.value.code|, e1.value.st, labels, reach); }
    }
  }

  lemma CloseDead(s: seq<Sym>, end: nat)
    requires AllDead(s)
    ensures AllDead(Close(s, end))
  {
  }

  lemma {:induction false} InstrDead(env: Env, i: Instr, pc: nat, st: Tracked, labels: seq<Label>, reach: bool)
    requires !reach || st.dead
    ensures var e := EmitInstr(env, i, pc, st, labels, reach);
      e.Some? ==> AllDead(e.value.code) && (st.dead ==> e.value.st.dead)
    decreases i
  {
    hide EmitBody, Close;
    match i
    case Block(np, nr, body) =>
      if BlockBase(st, np).Some? {
        var inner := [Label(None, BlockBase(st, np).value, nr)] + labels;
        var e := EmitBody(env, body, pc, st, inner, false);
        if e.Some? { InsideDead(env, body, pc, st, inner, pc + |e.value.code|); }
      }
    case Loop(np, nr, body) =>
      if BlockBase(st, np).Some? {
        var inner := [Label(Some(pc), BlockBase(st, np).value, np)] + labels;
        var e := EmitBody(env, body, pc, st, inner, false);
        if e.Some? { InsideDead(env, body, pc, st, inner, pc + |e.value.code|); }
      }
    case IfThen(np, nr, thn) =>
      var st1 := Consume(st, 1, 0);
      if st1.Some? && BlockBase(st1.value, np).Some? {
        var inner := [Label(None, BlockBase(st1.value, np).value, nr)] + labels;
        var e := EmitBody(env, thn, pc + 1, st1.value, inner, false);
        if e.Some? { InsideDead(env, thn, pc + 1, st1.value, inner, pc + 1 + |e.value.code|); }
      }
    case IfElse(np, nr, thn, els) =>
      var st1 := Consume(st, 1, 0);
      if st1.Some? && BlockBase(st1.value, np).Some? {
        var base := BlockBase(st1.value, np).value;
        var inner := [Label(None, base, nr)] + labels;
        var e1 := EmitBody(env, thn, pc + 1, st1.value, inner, false);
        if e1.Some? {
          var mid, st2 := pc + 2 + |e1.value.code|, Tracked(base + np, false, e1.value.st.consts);
          var e2 := EmitBody(env, els, mid, st2, inner, false);
          if e2.Some? {
            var end := mid + |e2.value.code|;
            InsideDead(env, thn, pc + 1, st1.value, inner, end);
            InsideDead(env, els, mid, st2, inner, end);
            ArmsDead(Fixed(BrIfNot(mid), -1), Close(e1.value.code, end), Fixed(Br(end), -1), Close(e2.value.code, end));
          }
        }
      }
    case _ => LeafDead(env, i, pc, st, labels, reach);
  }

  lemma ArmsDead(x: Sym, a: seq<Sym>, y: Sym, b: seq<Sym>)
    requires x.ht == -1 && y.ht == -1 && AllDead(a) && AllDead(b)
    ensures AllDead([x] + a + [y] + b)
  {
  }

  lemma {:induction false} InsideDead(env: Env, b: Body, pc: nat, st: Tracked, labels: seq<Label>, end: nat)
    ensures var e := EmitBody(env, b, pc, st, labels, false); e.Some? ==> AllDead(Close(e.value.code, end))
    decreases b, 1
  {
    hide EmitBody;
    BodyDead(env, b, pc, st, labels, false);
    var e := EmitBody(env, b, pc, st, labels, false);
    if e.Some? { CloseDead(e.value.code, end); }
  }

  lemma LeafDead(env: Env, i: Instr, pc: nat, st: Tracked, labels: seq<Label>, reach: bool)
    requires !reach || st.dead
    requires !i.Block? && !i.Loop? && !i.IfThen? && !i.IfElse?
    ensures var e := EmitInstr(env, i, pc, st, labels, reach);
      e.Some? ==> AllDead(e.value.code) && (st.dead ==> e.value.st.dead)
  {
    hide EmitBranch, EmitChain, EmitBody, Intern, Find;
    match i
    case Branch(d) => BranchDead(env, d, st, labels, reach);
    case BranchIf(d) =>
      var st1 := Consume(st, 1, 0);
      if st1.Some? { BranchDead(env, d, st1.value, labels, reach); }
    case BranchTable(ds, default) =>
      var st1 := Consume(st, 1, 0);
      if st1.Some? {
        ChainDead(env, ds, 0, default, pc + 1, st1.value, labels, reach);
        ChainStops(env, ds, 0, default, pc + 1, st1.value, labels, reach);
      }
    case _ =>
  }

  lemma {:induction false} BodyDead(env: Env, b: Body, pc: nat, st: Tracked, labels: seq<Label>, reach: bool)
    requires !reach || st.dead
    ensures var e := EmitBody(env, b, pc, st, labels, reach);
      e.Some? ==> AllDead(e.value.code) && (st.dead ==> e.value.st.dead)
    decreases b, 0
  {
    hide EmitInstr;
    if b.Seq? {
      InstrDead(env, b.head, pc, st, labels, reach);
      var e := EmitInstr(env, b.head, pc, st, labels, reach);
      if e.Some? { BodyDead(env, b.tail, pc + |e.value.code|, e.value.st, labels, reach); }
    }
  }

  // ----- translator and type checker agree on live code -----

  ghost predicate Matching(labels: seq<Label>, k: Ctx) {
    |labels| == |k.labels| && forall d :: 0 <= d < |labels| ==> labels[d].arity == k.labels[d]
  }

  lemma MatchingInner(labels: seq<Label>, k: Ctx, l: Label)
    requires Matching(labels, k)
    ensures Matching([l] + labels, Inner(k, l.arity))
  {
    forall d | 0 <= d < |labels| + 1
      ensures ([l] + labels)[d].arity == Inner(k, l.arity).labels[d]
    {
      if d > 0 { assert ([l] + labels)[d] == labels[d - 1] && ([l.arity] + k.labels)[d] == k.labels[d - 1]; }
    }
  }

  /** Instructions with bodies of their own. */
  predicate Nested(i: Instr) { i.Block? || i.Loop? || i.IfThen? || i.IfElse? }

  lemma CallTracks(env: Env, i: Instr, pc: nat, st: Tracked, labels: seq<Label>, reach: bool, k: Ctx, base: nat, h: nat)
    requires !st.dead && st.h == base + h && TypeInstr(env.p, k, i, Ty(h, false)).Some? &&
      (i.Invoke? || i.TailInvoke? || i.InvokeIndirect?)
    ensures var e, t := EmitInstr(env, i, pc, st, labels, reach), TypeInstr(env.p, k, i, Ty(h, false)).value;
      e.Some? ==> e.value.st.dead == t.dead && (!t.dead ==> e.value.st.h == base + t.h)
  {
    hide EmitBranch, EmitGuarded, EmitChain, EmitBody, TypeBody, Intern, Find, Close, Targets;
  }

  lemma LeafTracks(env: Env, i: Instr, pc: nat, st: Tracked, labels: seq<Label>, reach: bool, k: Ctx, base: nat, h: nat)
    requires !st.dead && st.h == base + h && TypeInstr(env.p, k, i, Ty(h, false)).Some? && !Nested(i)
    ensures var e, t := EmitInstr(env, i, pc, st, labels, reach), TypeInstr(env.p, k, i, Ty(h, false)).value;
      e.Some? ==> e.value.st.dead == t.dead && (!t.dead ==> e.value.st.h == base + t.h)
  {
    hide EmitBranch, EmitGuarded, EmitChain, EmitBody, TypeBody, Intern, Find, Close, Targets;
    if i.BranchTable? {
      var st1 := Consume(st, 1, 0);
      if st1.Some? { ChainStops(env, i.ds, 0, i.default, pc + 1, st1.value, labels, reach); }
    } else if i.Invoke? || i.TailInvoke? || i.InvokeIndirect? {
      CallTracks(env, i, pc, st, labels, reach, k, base, h);
    }
  }

  lemma NestedTracks(env: Env, i: Instr, pc: nat, st: Tracked, labels: seq<Label>, reach: bool, k: Ctx, base: nat,
                     h: nat)
    requires !st.dead && st.h == base + h && TypeInstr(env.p, k, i, Ty(h, false)).Some? && Nested(i)
    ensures var e, t := EmitInstr(env, i, pc, st, labels, reach), TypeInstr(env.p, k, i, Ty(h, false)).value;
      e.Some? ==> e.value.st.dead == t.dead && (!t.dead ==> e.value.st.h == base + t.h)
  {
    hide EmitBranch, EmitGuarded, EmitChain, EmitBody, TypeBody, Intern, Find, Close;
  }

  /** On live code the tracked height is the base of the block plus the checker's height, and both know alike whether
      the end is reached. */
  lemma InstrTracks(env: Env, i: Instr, pc: nat, st: Tracked, labels: seq<Label>, reach: bool, k: Ctx, base: nat,
                    h: nat)
    requires !st.dead && st.h == base + h && TypeInstr(env.p, k, i, Ty(h, false)).Some?
    ensures var e, t := EmitInstr(env, i, pc, st, labels, reach), TypeInstr(env.p, k, i, Ty(h, false)).value;
      e.Some? ==> e.value.st.dead == t.dead && (!t.dead ==> e.value.st.h == base + t.h)
  {
    hide EmitInstr, TypeInstr;
    if Nested(i) {
      NestedTracks(env, i, pc, st, labels, reach, k, base, h);
    } else {
      LeafTracks(env, i, pc, st, labels, reach, k, base, h);
    }
  }

  lemma {:induction false} BodyTracks(env: Env, b: Body, pc: nat, st: Tracked, labels: seq<Label>, k: Ctx, base: nat,
                                      t: Ty)
    requires st.dead == t.dead && (!t.dead ==> st.h == base + t.h) && TypeBody(env.p, k, b, t).Some?
    ensures var e, t' := EmitBody(env, b, pc, st, labels, true), TypeBody(env.p, k, b, t).value;
      e.Some? ==> e.value.st.dead == t'.dead && (!t'.dead ==> e.value.st.h == base + t'.h)
    decreases b
  {
    hide EmitInstr, TypeInstr;
    if b.Seq? {
      var i := b.head;
      var e, u := EmitInstr(env, i, pc, st, labels, true), TypeInstr(env.p, k, i, t).value;
      if t.dead {
        InstrDead(env, i, pc, st, labels, true);
        StaysDead(env.p, k, i, t);
      } else {
        InstrTracks(env, i, pc, st, labels, true, k, base, t.h);
      }
      if e.Some? { BodyTracks(env, b.tail, pc + |e.value.code|, e.value.st, labels, k, base, u); }
    }
  }

  lemma StaysDead(p: Program, k: Ctx, i: Instr, t: Ty)
    requires t.dead && TypeInstr(p, k, i, t).Some?
    ensures TypeInstr(p, k, i, t).value.dead
  {
    hide TypeBody;
  }

  // ----- the height at the first instruction of live code -----

  /** Live code starts at the tracked height; if there is none, nothing changes. */
  predicate Heads(e: Emitted, st: Tracked) {
    if |e.code| > 0 then e.code[0].ht == st.h else !e.st.dead && e.st.h == st.h
  }

  lemma LeafHeads(env: Env, i: Instr, pc: nat, st: Tracked, labels: seq<Label>, k: Ctx, h: nat)
    requires !st.dead && TypeInstr(env.p, k, i, Ty(h, false)).Some?
    requires !i.Block? && !i.Loop? && !i.IfThen? && !i.IfElse?
    ensures var e := EmitInstr(env, i, pc, st, labels, true); e.Some? ==> Heads(e.value, st)
  {
    hide EmitBody, TypeBody, EmitChain, Intern, Find;
  }

  lemma {:induction false} InstrHeads(env: Env, i: Instr, pc: nat, st: Tracked, labels: seq<Label>, k: Ctx, base: nat,
                                      h: nat)
    requires !st.dead && st.h == base + h && TypeInstr(env.p, k, i, Ty(h, false)).Some?
    ensures var e := EmitInstr(env, i, pc, st, labels, true); e.Some? ==> Heads(e.value, st)
    decreases i
  {
    hide EmitBody, TypeBody;
    if i.Block? || i.Loop? {
      var b := st.h - i.np;
      var l := if i.Block? then Label(None, b, i.nr) else Label(Some(pc), b, i.np);
      InsideHeads(env, i.body, pc, st, [l] + labels, Inner(k, l.arity), b, i.np, i.nr);
    } else if i.IfThen? || i.IfElse? {
    } else {
      LeafHeads(env, i, pc, st, labels, k, h);
    }
  }

  lemma {:induction false} InsideHeads(env: Env, b: Body, pc: nat, st: Tracked, labels: seq<Label>, k: Ctx, base: nat,
                                       np: nat, nr: nat)
    requires !st.dead && st.h == base + np && Ends(TypeBody(env.p, k, b, Ty(np, false)), nr)
    ensures var e := EmitBody(env, b, pc, st, labels, true);
      e.Some? ==> if |e.value.code| > 0 then e.value.code[0].ht == st.h else st.h == base + nr
    decreases b, 1
  {
    hide EmitBody, TypeBody;
    BodyHeads(env, b, pc, st, labels, k, base, np);
    BodyTracks(env, b, pc, st, labels, k, base, Ty(np, false));
  }

  lemma {:induction false} BodyHeads(env: Env, b: Body, pc: nat, st: Tracked, labels: seq<Label>, k: Ctx, base: nat,
                                     h: nat)
    requires !st.dead && st.h == base + h && TypeBody(env.p, k, b, Ty(h, false)).Some?
    ensures var e := EmitBody(env, b, pc, st, labels, true); e.Some? ==> Heads(e.value, st)
    decreases b, 0
  {
    hide EmitInstr, TypeInstr;
    if b.Seq? {
      InstrHeads(env, b.head, pc, st, labels, k, base, h);
      InstrTracks(env, b.head, pc, st, labels, true, k, base, h);
      var e := EmitInstr(env, b.head, pc, st, labels, true);
      if e.Some? && |e.value.code| == 0 {
        var t := TypeInstr(env.p, k, b.head, Ty(h, false)).value;
        BodyHeads(env, b.tail, pc, e.value.st, labels, k, base, t.h);
      }
    }
  }

  // ----- every visited pc satisfies its equations -----

  /** A function's code with a candidate assignment, and the environment it was emitted in. */
  datatype Zone = Zone(m: Module, f: FuncMeta, ht: seq<int>, env: Env)

  ghost predicate ZoneOk(z: Zone) {
    && Shaped(z.m, z.f) && |z.ht| == z.f.codeLen
    && z.f.nParams == z.env.nParams && z.f.nLocals == z.env.nLocals && z.f.nResults == z.env.nResults
    && z.f.nParams + z.f.nLocals <= MAX_U16
    && MetaOk(z.env.p, z.m)
  }

  /** The module's tables agree with the program's types. */
  ghost predicate MetaOk(p: Program, m: Module) {
    && |m.funcs| == |p.funcs|
    && (forall g :: p.nImports <= g < |p.funcs| ==> p.funcs[g].Local?)
    && (forall g :: 0 <= g < |p.funcs| && p.funcs[g].Local? ==>
          p.funcs[g].ty < |p.types| && Defined(m, g) &&
          m.funcs[g].nParams == NumParams(p, g) && m.funcs[g].nResults == NumResults(p, g))
    && |m.typeFp| == |p.types|
    && (forall t :: 0 <= t < |p.types| ==>
          m.typeFp[t] % 256 == |p.types[t].params| && (m.typeFp[t] / 256) % 256 == |p.types[t].results|)
  }

  /** The candidate height at an absolute pc. */
  function HeightAt(z: Zone, pc: nat): int {
    if z.f.codeOff <= pc < z.f.codeOff + |z.ht| then z.ht[pc - z.f.codeOff] else -2
  }

  ghost predicate HeightsAt(z: Zone, pc: nat, s: seq<Sym>) {
    z.f.codeOff <= pc && pc + |s| < z.f.codeOff + z.f.codeLen && forall i :: 0 <= i < |s| ==>
      HeightAt(z, pc + i) == s[i].ht
  }

  const INT_MAX: nat := 0x7FFF_FFFF

  /** One pc, if visited at a height the verifier's int can hold, is as the verifier and the linking hypotheses want
      it. */
  ghost predicate Fine(z: Zone, pc: nat)
    requires ZoneOk(z)
  {
    0 <= HeightAt(z, pc) <= INT_MAX - z.f.nParams - z.f.nLocals ==>
      NodeOk(z.m, z.f, z.ht, pc - z.f.codeOff) && OpLinked(z.m, z.f, z.m.code[pc])
  }

  ghost predicate AllFine(z: Zone, lo: nat, hi: nat)
    requires ZoneOk(z)
  {
    forall q :: lo <= q < hi ==> Fine(z, q)
  }

  lemma HeightsParts(z: Zone, pc: nat, a: seq<Sym>, b: seq<Sym>)
    requires HeightsAt(z, pc, a + b)
    ensures HeightsAt(z, pc, a) && HeightsAt(z, pc + |a|, b)
  {
    forall i | 0 <= i < |a|
      ensures HeightAt(z, pc + i) == a[i].ht
    {
      assert (a + b)[i] == a[i];
    }
    forall i | 0 <= i < |b|
      ensures HeightAt(z, pc + |a| + i) == b[i].ht
    {
      assert (a + b)[|a| + i] == b[i];
    }
  }

  lemma HeadHeight(z: Zone, pc: nat, x: Sym)
    requires HeightsAt(z, pc, [x])
    ensures HeightAt(z, pc) == x.ht
  {
    assert HeightAt(z, pc + 0) == [x][0].ht;
  }

  lemma HeightsClose(z: Zone, pc: nat, s: seq<Sym>, end: nat)
    requires HeightsAt(z, pc, Close(s, end))
    ensures HeightsAt(z, pc, s)
  {
    forall i | 0 <= i < |s|
      ensures HeightAt(z, pc + i) == s[i].ht
    {
      assert Close(s, end)[i].ht == s[i].ht;
    }
  }

  lemma DeadFine(z: Zone, pc: nat, s: seq<Sym>)
    requires ZoneOk(z) && HeightsAt(z, pc, s) && AllDead(s)
    ensures AllFine(z, pc, pc + |s|)
  {
    forall q | pc <= q < pc + |s|
      ensures Fine(z, q)
    {
      assert HeightAt(z, pc + (q - pc)) == s[q - pc].ht;
    }
  }

  /** A visited instruction whose flow leads where the heights say. */
  lemma StepFine(z: Zone, pc: nat, op: CuOp, h: nat, fl: Flow)
    requires ZoneOk(z) && z.f.codeOff <= pc < z.f.codeOff + z.f.codeLen && z.m.code[pc] == op && HeightAt(z, pc) == h
    requires OpLinked(z.m, z.f, op) && Check(z.m, z.f, op, h) == fl && fl.Flow? && fl.next >= 0
    requires fl.falls ==> HeightAt(z, pc + 1) == fl.next
    requires fl.jump.Some? ==> HeightAt(z, z.f.codeOff + fl.jump.value) == fl.next
    ensures Fine(z, pc)
  {
    hide Check, OpLinked;
  }

  /** Branch targets are in the function, at the height their label wants. */
  ghost predicate Leads(z: Zone, labels: seq<Label>, ends: seq<nat>) {
    |labels| == |ends| &&
    forall d :: 0 <= d < |labels| ==>
      HeightAt(z, if labels[d].start.Some? then labels[d].start.value else ends[d]) == labels[d].base + labels[d].arity
  }

  lemma LeadsInner(z: Zone, labels: seq<Label>, ends: seq<nat>, l: Label, end: nat)
    requires Leads(z, labels, ends)
    requires HeightAt(z, if l.start.Some? then l.start.value else end) == l.base + l.arity
    ensures Leads(z, [l] + labels, [end] + ends)
  {
    var ls, es := [l] + labels, [end] + ends;
    forall d | 0 <= d < |ls|
      ensures HeightAt(z, if ls[d].start.Some? then ls[d].start.value else es[d]) == ls[d].base + ls[d].arity
    {
      if d > 0 { assert ls[d] == labels[d - 1] && es[d] == ends[d - 1]; }
    }
  }

  /** The jump of a branch. */
  lemma JumpFine(z: Zone, pc: nat, d: nat, labels: seq<Label>, ends: seq<nat>, x: Sym)
    requires ZoneOk(z) && Leads(z, labels, ends) && d < |labels|
    requires x == JumpTo(d, labels[d], labels[d].base + labels[d].arity)
    requires z.f.codeOff <= pc < z.f.codeOff + z.f.codeLen && z.m.code[pc] == ResolveOne(x, ends) &&
      HeightAt(z, pc) == x.ht
    ensures Fine(z, pc)
  {
    var l := labels[d];
    var t := if l.start.Some? then l.start.value else ends[d];
    var h := l.base + l.arity;
    assert z.m.code[pc] == Br(t);
    StepFine(z, pc, Br(t), h, Flow(h, false, Some(t - z.f.codeOff)));
  }

  lemma BranchFine(z: Zone, d: nat, pc: nat, st: Tracked, labels: seq<Label>, ends: seq<nat>, j: seq<Sym>)
    requires ZoneOk(z) && Leads(z, labels, ends) && !st.dead
    requires EmitBranch(z.env, d, st, labels, true) == Some(j) && CodeAt(z.m, pc, j, ends) && HeightsAt(z, pc, j)
    ensures AllFine(z, pc, pc + |j|) && HeightAt(z, pc) == st.h
  {
    hide Fine, CodeAt;
    var l := labels[d];
    var dest := l.base + l.arity;
    if st.h > dest {
      assert j == [j[0]] + [j[1]] && [j[1]] == [j[1]] + [];
      CodeAtHead(z.m, pc, j[0], [j[1]], ends);
      CodeAtHead(z.m, pc + 1, j[1], [], ends);
      HeightsParts(z, pc, [j[0]], [j[1]]);
      HeadHeight(z, pc, j[0]);
      HeadHeight(z, pc + 1, j[1]);
      UnwindFine(z, pc, l.arity, dest, st.h);
      JumpFine(z, pc + 1, d, labels, ends, j[1]);
    } else {
      assert j == [j[0]] + [];
      CodeAtHead(z.m, pc, j[0], [], ends);
      HeadHeight(z, pc, j[0]);
      JumpFine(z, pc, d, labels, ends, j[0]);
    }
  }

  lemma UnwindFine(z: Zone, pc: nat, keep: nat, dest: nat, h: nat)
    requires ZoneOk(z) && z.f.codeOff <= pc < z.f.codeOff + z.f.codeLen && keep <= dest <= h
    requires z.m.code[pc] == Unwind(keep, z.env.nParams + z.env.nLocals + dest)
    requires HeightAt(z, pc) == h && HeightAt(z, pc + 1) == dest
    ensures Fine(z, pc)
  {
    var b := z.env.nParams + z.env.nLocals + dest;
    if z.f.nParams + z.f.nLocals + h <= INT_MAX {
      assert b % TWO32 == b;
      StepFine(z, pc, Unwind(keep, b), h, Flow(dest, true, None));
    }
  }

  /** A guarded branch falls through to the height after the pop. */
  lemma GuardedFine(z: Zone, d: nat, pc: nat, st: Tracked, labels: seq<Label>, ends: seq<nat>, g: seq<Sym>)
    requires ZoneOk(z) && Leads(z, labels, ends) && !st.dead
    requires EmitGuarded(z.env, d, pc, st.h + 1, st, labels, true) == Some(g)
    requires CodeAt(z.m, pc, g, ends) && HeightsAt(z, pc, g) && HeightAt(z, pc + |g|) == st.h
    ensures AllFine(z, pc, pc + |g|) && HeightAt(z, pc) == st.h + 1
  {
    hide Fine, CodeAt, EmitBranch;
    var j := EmitBranch(z.env, d, st, labels, true).value;
    var x := Fixed(BrIfNot(pc + 1 + |j|), st.h + 1);
    CodeAtHead(z.m, pc, x, j, ends);
    HeightsParts(z, pc, [x], j);
    HeadHeight(z, pc, x);
    BranchFine(z, d, pc + 1, st, labels, ends, j);
    StepFine(z, pc, x.op, st.h + 1, Flow(st.h, true, Some(pc + 1 + |j| - z.f.codeOff)));
  }

  /** An instruction that falls through from height `h` to the height of the next pc. */
  lemma FallFine(z: Zone, pc: nat, x: Sym, ends: seq<nat>, next: nat)
    requires ZoneOk(z) && CodeAt(z.m, pc, [x], ends) && HeightsAt(z, pc, [x]) && x.lab.None? && x.ht >= 0
    requires OpLinked(z.m, z.f, x.op) && Check(z.m, z.f, x.op, x.ht) == Flow(next, true, None)
    requires HeightAt(z, pc + 1) == next
    ensures Fine(z, pc)
  {
    hide OpLinked, Check, Fine;
    assert [x] == [x] + [];
    CodeAtHead(z.m, pc, x, [], ends);
    HeadHeight(z, pc, x);
    StepFine(z, pc, x.op, x.ht, Flow(next, true, None));
  }

  /** An instruction control never passes. */
  lemma CutFine(z: Zone, pc: nat, x: Sym, ends: seq<nat>)
    requires ZoneOk(z) && CodeAt(z.m, pc, [x], ends) && HeightsAt(z, pc, [x]) && x.lab.None? && x.ht >= 0
    requires OpLinked(z.m, z.f, x.op) && Check(z.m, z.f, x.op, x.ht) == Flow(x.ht, false, None)
    ensures Fine(z, pc)
  {
    hide OpLinked, Check, Fine;
    assert [x] == [x] + [];
    CodeAtHead(z.m, pc, x, [], ends);
    HeadHeight(z, pc, x);
    StepFine(z, pc, x.op, x.ht, Flow(x.ht, false, None));
  }

  lemma LinkFine(z: Zone, d: nat, i: nat, pc: nat, st: Tracked, labels: seq<Label>, ends: seq<nat>, e: Emitted)
    requires ZoneOk(z) && Leads(z, labels, ends) && !st.dead && z.env.scratch < z.f.nParams + z.f.nLocals
    requires EmitLink(z.env, d, i, pc, st, labels, true) == Some(e) && e.st.consts <= z.m.consts
    requires CodeAt(z.m, pc, e.code, ends) && HeightsAt(z, pc, e.code) && HeightAt(z, pc + |e.code|) == st.h
    ensures AllFine(z, pc, pc + |e.code|) && HeightAt(z, pc) == st.h
  {
    hide Fine, CodeAt, EmitGuarded, Intern, Find, HeightsAt, HeightAt;
    var h, k := st.h, Find(st.consts, i % TWO32);
    var g := EmitGuarded(z.env, d, pc + 3, h + 1, e.st, labels, true).value;
    var a, b, c := Fixed(LocalGet(z.env.scratch), h), Fixed(Const(k), h + 1), Fixed(Simple(Arith(Bin(W32, Eq))), h + 2);
    assert e.code == [a, b, c] + g == [a] + ([b] + ([c] + g));
    CodeAtParts(z.m, pc, [a], [b] + ([c] + g), ends);
    CodeAtParts(z.m, pc + 1, [b], [c] + g, ends);
    CodeAtParts(z.m, pc + 2, [c], g, ends);
    HeightsParts(z, pc, [a], [b] + ([c] + g));
    HeightsParts(z, pc + 1, [b], [c] + g);
    HeightsParts(z, pc + 2, [c], g);
    GuardedFine(z, d, pc + 3, e.st, labels, ends, g);
    HeadHeight(z, pc, a);
    HeadHeight(z, pc + 1, b);
    HeadHeight(z, pc + 2, c);
    PoolIndex(z, st, i % TWO32, e);
    CompareFine(z, pc, a, b, c, ends, h, k);
  }

  lemma PoolIndex(z: Zone, st: Tracked, v: Word, e: Emitted)
    requires e.st.consts == Intern(st.consts, v) && e.st.consts <= z.m.consts
    ensures Find(st.consts, v) < |z.m.consts|
  {
  }

  lemma CompareFine(z: Zone, pc: nat, a: Sym, b: Sym, c: Sym, ends: seq<nat>, h: nat, k: nat)
    requires ZoneOk(z) && z.env.scratch < z.f.nParams + z.f.nLocals && k < |z.m.consts|
    requires a == Fixed(LocalGet(z.env.scratch), h) && b == Fixed(Const(k), h + 1)
    requires c == Fixed(Simple(Arith(Bin(W32, Eq))), h + 2)
    requires CodeAt(z.m, pc, [a], ends) && CodeAt(z.m, pc + 1, [b], ends) && CodeAt(z.m, pc + 2, [c], ends)
    requires HeightsAt(z, pc, [a]) && HeightsAt(z, pc + 1, [b]) && HeightsAt(z, pc + 2, [c])
    requires HeightAt(z, pc + 1) == h + 1 && HeightAt(z, pc + 2) == h + 2 && HeightAt(z, pc + 3) == h + 1
    ensures Fine(z, pc) && Fine(z, pc + 1) && Fine(z, pc + 2)
  {
    hide Fine, CodeAt, HeightsAt;
    FallFine(z, pc, a, ends, h + 1);
    FallFine(z, pc + 1, b, ends, h + 2);
    FallFine(z, pc + 2, c, ends, h + 1);
  }

  lemma {:induction false} ChainFine(z: Zone, ds: seq<nat>, i: nat, default: nat, pc: nat, st: Tracked,
                                     labels: seq<Label>, ends: seq<nat>, e: Emitted)
    requires ZoneOk(z) && Leads(z, labels, ends) && !st.dead && z.env.scratch < z.f.nParams + z.f.nLocals && i <= |ds|
    requires EmitChain(z.env, ds, i, default, pc, st, labels, true) == Some(e) && e.st.consts <= z.m.consts
    requires CodeAt(z.m, pc, e.code, ends) && HeightsAt(z, pc, e.code)
    ensures AllFine(z, pc, pc + |e.code|) && HeightAt(z, pc) == st.h
    decreases |ds| - i
  {
    hide Fine, CodeAt, EmitLink, EmitBranch, ZoneOk;
    if i == |ds| {
      BranchFine(z, default, pc, st, labels, ends, e.code);
    } else {
      var e1 := EmitLink(z.env, ds[i], i, pc, st, labels, true).value;
      LinkState(z.env, ds[i], i, pc, st, labels);
      var e2 := EmitChain(z.env, ds, i + 1, default, pc + |e1.code|, e1.st, labels, true).value;
      CodeAtParts(z.m, pc, e1.code, e2.code, ends);
      HeightsParts(z, pc, e1.code, e2.code);
      ChainPool(z.env, ds, i + 1, default, pc + |e1.code|, e1.st, labels, true);
      ChainFine(z, ds, i + 1, default, pc + |e1.code|, e1.st, labels, ends, e2);
      LinkFine(z, ds[i], i, pc, st, labels, ends, e1);
    }
  }

  // ----- instructions and bodies -----

  /** Live, well-typed code of `i` lies at `pc`, its labels lead to the right heights, and so does its end. */
  ghost predicate Placed(z: Zone, k: Ctx, i: Instr, pc: nat, st: Tracked, labels: seq<Label>, ends: seq<nat>,
                         e: Emitted, base: nat, h: nat)
  {
    && ZoneOk(z) && Leads(z, labels, ends) && Matching(labels, k) && !st.dead && st.h == base + h
    && k.nLocals <= z.f.nParams + z.f.nLocals && k.nRes == z.f.nResults
    && (InstrUsesTable(i) ==> z.env.scratch < z.f.nParams + z.f.nLocals)
    && EmitInstr(z.env, i, pc, st, labels, true) == Some(e) && e.st.consts <= z.m.consts
    && CodeAt(z.m, pc, e.code, ends) && HeightsAt(z, pc, e.code)
    && TypeInstr(z.env.p, k, i, Ty(h, false)).Some?
    && (!e.st.dead ==> HeightAt(z, pc + |e.code|) == e.st.h)
  }

  lemma OneCode(z: Zone, pc: nat, e: Emitted, ends: seq<nat>)
    requires CodeAt(z.m, pc, e.code, ends) && |e.code| == 1
    ensures CodeAt(z.m, pc, [e.code[0]], ends) && e.code == [e.code[0]]
  {
    assert e.code == [e.code[0]];
  }

  /** Instructions that emit one operation and fall through. */
  lemma PlainFine(z: Zone, k: Ctx, i: Instr, pc: nat, st: Tracked, labels: seq<Label>, ends: seq<nat>, e: Emitted,
                  base: nat, h: nat)
    requires Placed(z, k, i, pc, st, labels, ends, e, base, h)
    requires i.Value? || i.GetLocal? || i.SetLocal? || i.Basic?
    ensures AllFine(z, pc, pc + |e.code|)
  {
    hide Fine, CodeAt;
    OneCode(z, pc, e, ends);
    if i.Value? { PoolIndex(z, st, i.v, e); }
    FallFine(z, pc, e.code[0], ends, e.st.h);
  }

  lemma CallFine(z: Zone, k: Ctx, i: Instr, pc: nat, st: Tracked, labels: seq<Label>, ends: seq<nat>, e: Emitted,
                 base: nat, h: nat)
    requires Placed(z, k, i, pc, st, labels, ends, e, base, h) && (i.Invoke? || i.InvokeIndirect?)
    ensures AllFine(z, pc, pc + |e.code|)
  {
    hide Fine, CodeAt;
    OneCode(z, pc, e, ends);
    FallFine(z, pc, e.code[0], ends, e.st.h);
  }

  lemma ExitFine(z: Zone, k: Ctx, i: Instr, pc: nat, st: Tracked, labels: seq<Label>, ends: seq<nat>, e: Emitted,
                 base: nat, h: nat)
    requires Placed(z, k, i, pc, st, labels, ends, e, base, h) && (i.Ret? || i.Trap? || i.TailInvoke?)
    ensures AllFine(z, pc, pc + |e.code|)
  {
    hide Fine, CodeAt;
    OneCode(z, pc, e, ends);
    CutFine(z, pc, e.code[0], ends);
  }

  lemma TeeFine(z: Zone, k: Ctx, i: Instr, pc: nat, st: Tracked, labels: seq<Label>, ends: seq<nat>, e: Emitted,
                base: nat, h: nat)
    requires Placed(z, k, i, pc, st, labels, ends, e, base, h) && i.TeeLocal?
    ensures AllFine(z, pc, pc + |e.code|)
  {
    hide Fine, CodeAt;
    var a, b := e.code[0], e.code[1];
    assert e.code == [a] + [b];
    CodeAtParts(z.m, pc, [a], [b], ends);
    HeightsParts(z, pc, [a], [b]);
    assert HeightAt(z, pc + 1) == b.ht;
    FallFine(z, pc, a, ends, st.h - 1);
    FallFine(z, pc + 1, b, ends, st.h);
  }

  lemma JumpsFine(z: Zone, k: Ctx, i: Instr, pc: nat, st: Tracked, labels: seq<Label>, ends: seq<nat>, e: Emitted,
                  base: nat, h: nat)
    requires Placed(z, k, i, pc, st, labels, ends, e, base, h) && (i.Branch? || i.BranchIf? || i.BranchTable?)
    ensures AllFine(z, pc, pc + |e.code|)
  {
    hide Fine, CodeAt, EmitBranch, EmitGuarded, EmitChain;
    match i
    case Branch(d) => BranchFine(z, d, pc, st, labels, ends, e.code);
    case BranchIf(d) => GuardedFine(z, d, pc, e.st, labels, ends, e.code);
    case BranchTable(ds, default) =>
      var st1 := Consume(st, 1, 0).value;
      var e1 := EmitChain(z.env, ds, 0, default, pc + 1, st1, labels, true).value;
      var x := Fixed(LocalSet(z.env.scratch), st.h);
      CodeAtParts(z.m, pc, [x], e1.code, ends);
      HeightsParts(z, pc, [x], e1.code);
      ChainFine(z, ds, 0, default, pc + 1, st1, labels, ends, e1);
      FallFine(z, pc, x, ends, st1.h);
  }

  ghost predicate PlacedBody(z: Zone, k: Ctx, b: Body, pc: nat, st: Tracked, labels: seq<Label>, ends: seq<nat>,
                             e: Emitted, base: nat, h: nat)
  {
    && ZoneOk(z) && Leads(z, labels, ends) && Matching(labels, k) && !st.dead && st.h == base + h
    && k.nLocals <= z.f.nParams + z.f.nLocals && k.nRes == z.f.nResults
    && (UsesTable(b) ==> z.env.scratch < z.f.nParams + z.f.nLocals)
    && EmitBody(z.env, b, pc, st, labels, true) == Some(e) && e.st.consts <= z.m.consts
    && CodeAt(z.m, pc, e.code, ends) && HeightsAt(z, pc, e.code)
    && TypeBody(z.env.p, k, b, Ty(h, false)).Some?
    && (!e.st.dead ==> HeightAt(z, pc + |e.code|) == e.st.h)
  }

  lemma {:induction false} BodyFine(z: Zone, k: Ctx, b: Body, pc: nat, st: Tracked, labels: seq<Label>, ends: seq<nat>,
                                    e: Emitted, base: nat, h: nat)
    requires PlacedBody(z, k, b, pc, st, labels, ends, e, base, h)
    ensures AllFine(z, pc, pc + |e.code|)
    decreases b, 0
  {
    hide Fine, CodeAt, EmitInstr, TypeInstr, ZoneOk, Leads, Matching, InstrUsesTable, HeightsAt, HeightAt;
    if b.Seq? {
      var i, t := b.head, b.tail;
      var e1 := EmitInstr(z.env, i, pc, st, labels, true).value;
      var mid := pc + |e1.code|;
      var e2 := EmitBody(z.env, t, mid, e1.st, labels, true).value;
      CodeAtParts(z.m, pc, e1.code, e2.code, ends);
      HeightsParts(z, pc, e1.code, e2.code);
      BodyPool(z.env, t, mid, e1.st, labels, true);
      assert e1.st.consts <= z.m.consts;
      InstrTracks(z.env, i, pc, st, labels, true, k, base, h);
      var u := TypeInstr(z.env.p, k, i, Ty(h, false)).value;
      if e1.st.dead {
        BodyDead(z.env, t, mid, e1.st, labels, true);
        DeadFine(z, mid, e2.code);
      } else {
        assert u == Ty(u.h, false);
        BodyFine(z, k, t, mid, e1.st, labels, ends, e2, base, u.h);
        BodyHeads(z.env, t, mid, e1.st, labels, k, base, u.h);
        StartHeight(z, mid, e1.st, e2);
      }
      InstrFine(z, k, i, pc, st, labels, ends, e1, base, h);
    }
  }

  /** Live code begins at its tracked height, whether or not it has an instruction of its own. */
  lemma StartHeight(z: Zone, pc: nat, st: Tracked, e: Emitted)
    requires HeightsAt(z, pc, e.code) && Heads(e, st) && (!e.st.dead ==> HeightAt(z, pc + |e.code|) == e.st.h)
    ensures HeightAt(z, pc) == st.h
  {
    if |e.code| > 0 { assert HeightAt(z, pc + 0) == e.code[0].ht; }
  }

  /** The inside of a block whose end is at the height it should be. */
  lemma {:induction false} InsideFine(z: Zone, k: Ctx, b: Body, pc: nat, st: Tracked, labels: seq<Label>,
                                      ends: seq<nat>, l: Label, end: nat, e: Emitted, np: nat, nr: nat)
    requires ZoneOk(z) && Leads(z, labels, ends) && Matching(labels, k) && !st.dead && st.h == l.base + np
    requires k.nLocals <= z.f.nParams + z.f.nLocals && k.nRes == z.f.nResults
    requires UsesTable(b) ==> z.env.scratch < z.f.nParams + z.f.nLocals
    requires EmitBody(z.env, b, pc, st, [l] + labels, true) == Some(e) && e.st.consts <= z.m.consts
    requires CodeAt(z.m, pc, Close(e.code, end), ends) && HeightsAt(z, pc, Close(e.code, end))
    requires Ends(TypeBody(z.env.p, Inner(k, l.arity), b, Ty(np, false)), nr)
    requires !e.st.dead ==> HeightAt(z, pc + |e.code|) == l.base + nr
    requires if l.start.Some? then l.start.value == pc && l.arity == np else HeightAt(z, end) == l.base + l.arity
    ensures AllFine(z, pc, pc + |e.code|) && HeightAt(z, pc) == st.h
    decreases b, 1
  {
    hide Fine, CodeAt, EmitBody, TypeBody, ZoneOk, Leads, Matching, UsesTable, HeightsAt, HeightAt, Close;
    CodeAtClose(z.m, pc, e.code, end, ends);
    HeightsClose(z, pc, e.code, end);
    MatchingInner(labels, k, l);
    BodyTracks(z.env, b, pc, st, [l] + labels, Inner(k, l.arity), l.base, Ty(np, false));
    BodyHeads(z.env, b, pc, st, [l] + labels, Inner(k, l.arity), l.base, np);
    StartHeight(z, pc, st, e);
    LeadsInner(z, labels, ends, l, end);
    BodyFine(z, Inner(k, l.arity), b, pc, st, [l] + labels, [end] + ends, e, l.base, np);
  }

  lemma {:induction false} InstrFine(z: Zone, k: Ctx, i: Instr, pc: nat, st: Tracked, labels: seq<Label>,
                                     ends: seq<nat>, e: Emitted, base: nat, h: nat)
    requires Placed(z, k, i, pc, st, labels, ends, e, base, h)
    ensures AllFine(z, pc, pc + |e.code|)
    decreases i, 1
  {
    hide Placed, Fine;
    match i
    case Nop => NothingEmitted(z, k, i, pc, st, labels, ends, e, base, h);
    case Reinterpret => NothingEmitted(z, k, i, pc, st, labels, ends, e, base, h);
    case Value(_) => PlainFine(z, k, i, pc, st, labels, ends, e, base, h);
    case GetLocal(_) => PlainFine(z, k, i, pc, st, labels, ends, e, base, h);
    case SetLocal(_) => PlainFine(z, k, i, pc, st, labels, ends, e, base, h);
    case Basic(_) => PlainFine(z, k, i, pc, st, labels, ends, e, base, h);
    case TeeLocal(_) => TeeFine(z, k, i, pc, st, labels, ends, e, base, h);
    case Block(_, _, _) => BlockFine(z, k, i, pc, st, labels, ends, e, base, h);
    case Loop(_, _, _) => BlockFine(z, k, i, pc, st, labels, ends, e, base, h);
    case IfThen(_, _, _) => IfFine(z, k, i, pc, st, labels, ends, e, base, h);
    case IfElse(_, _, _, _) => IfElseFine(z, k, i, pc, st, labels, ends, e, base, h);
    case Branch(_) => JumpsFine(z, k, i, pc, st, labels, ends, e, base, h);
    case BranchIf(_) => JumpsFine(z, k, i, pc, st, labels, ends, e, base, h);
    case BranchTable(_, _) => JumpsFine(z, k, i, pc, st, labels, ends, e, base, h);
    case Ret => ExitFine(z, k, i, pc, st, labels, ends, e, base, h);
    case Trap => ExitFine(z, k, i, pc, st, labels, ends, e, base, h);
    case TailInvoke(_) => ExitFine(z, k, i, pc, st, labels, ends, e, base, h);
    case Invoke(_) => CallFine(z, k, i, pc, st, labels, ends, e, base, h);
    case InvokeIndirect(_) => CallFine(z, k, i, pc, st, labels, ends, e, base, h);
  }

  lemma NothingEmitted(z: Zone, k: Ctx, i: Instr, pc: nat, st: Tracked, labels: seq<Label>, ends: seq<nat>, e: Emitted,
                       base: nat, h: nat)
    requires Placed(z, k, i, pc, st, labels, ends, e, base, h) && (i.Nop? || i.Reinterpret?)
    ensures |e.code| == 0
  {
  }

  lemma {:induction false} BlockFine(z: Zone, k: Ctx, i: Instr, pc: nat, st: Tracked, labels: seq<Label>,
                                     ends: seq<nat>, e: Emitted, base: nat, h: nat)
    requires Placed(z, k, i, pc, st, labels, ends, e, base, h) && (i.Block? || i.Loop?)
    ensures AllFine(z, pc, pc + |e.code|)
    decreases i, 0
  {
    hide Fine, CodeAt, EmitBody, TypeBody, ZoneOk, Leads, Matching, UsesTable, HeightsAt, HeightAt, Close;
    var b := st.h - i.np;
    var l := if i.Block? then Label(None, b, i.nr) else Label(Some(pc), b, i.np);
    var e1 := EmitBody(z.env, i.body, pc, st, [l] + labels, true).value;
    InsideFine(z, k, i.body, pc, st, labels, ends, l, pc + |e1.code|, e1, i.np, i.nr);
  }

  lemma {:induction false} IfFine(z: Zone, k: Ctx, i: Instr, pc: nat, st: Tracked, labels: seq<Label>, ends: seq<nat>,
                                  e: Emitted, base: nat, h: nat)
    requires Placed(z, k, i, pc, st, labels, ends, e, base, h) && i.IfThen?
    ensures AllFine(z, pc, pc + |e.code|)
    decreases i, 0
  {
    hide Fine, CodeAt, EmitBody, TypeBody, ZoneOk, Leads, Matching, UsesTable, HeightsAt, HeightAt, Close;
    var st1 := Consume(st, 1, 0).value;
    var l := Label(None, st1.h - i.np, i.nr);
    var e1 := EmitBody(z.env, i.thn, pc + 1, st1, [l] + labels, true).value;
    var end := pc + 1 + |e1.code|;
    var x := Fixed(BrIfNot(end), st.h);
    CodeAtHead(z.m, pc, x, Close(e1.code, end), ends);
    HeightsParts(z, pc, [x], Close(e1.code, end));
    HeadHeight(z, pc, x);
    InsideFine(z, k, i.thn, pc + 1, st1, labels, ends, l, end, e1, i.np, i.nr);
    SkipFine(z, pc, st1.h, end);
  }

  /** A BR_IF_NOT with both successors at the height after the pop. */
  lemma SkipFine(z: Zone, pc: nat, h: nat, t: nat)
    requires ZoneOk(z) && z.f.codeOff <= pc < z.f.codeOff + z.f.codeLen && z.m.code[pc] == BrIfNot(t)
    requires HeightAt(z, pc) == h + 1 && HeightAt(z, pc + 1) == h && HeightAt(z, t) == h
    ensures Fine(z, pc)
  {
    hide Fine;
    StepFine(z, pc, BrIfNot(t), h + 1, Flow(h, true, Some(t - z.f.codeOff)));
  }

  lemma {:induction false} IfElseFine(z: Zone, k: Ctx, i: Instr, pc: nat, st: Tracked, labels: seq<Label>,
                                      ends: seq<nat>, e: Emitted, base: nat, h: nat)
    requires Placed(z, k, i, pc, st, labels, ends, e, base, h) && i.IfElse?
    ensures AllFine(z, pc, pc + |e.code|)
    decreases i, 0
  {
    hide Fine, CodeAt, EmitBody, TypeBody, ZoneOk, Leads, Matching, UsesTable, HeightsAt, HeightAt, Close;
    var st1 := Consume(st, 1, 0).value;
    var l := Label(None, st1.h - i.np, i.nr);
    var inner := [l] + labels;
    var e1 := EmitBody(z.env, i.thn, pc + 1, st1, inner, true).value;
    var mid := pc + 2 + |e1.code|;
    var st2 := Tracked(l.base + i.np, false, e1.st.consts);
    var e2 := EmitBody(z.env, i.els, mid, st2, inner, true).value;
    var end := mid + |e2.code|;
    var x, y := Fixed(BrIfNot(mid), st.h), Fixed(Br(end), Height(e1.st, true));
    var a, b := Close(e1.code, end), Close(e2.code, end);
    ArmsAt(z.m, pc, e.code, x, a, y, b, ends);
    ArmHeights(z, pc, x, a, y, b);
    BodyPool(z.env, i.els, mid, st2, inner, true);
    assert e1.st.consts <= z.m.consts;
    ArmTracks(z, k, i.thn, pc + 1, st1, labels, l, e1, i.np, i.nr);
    InsideFine(z, k, i.thn, pc + 1, st1, labels, ends, l, end, e1, i.np, i.nr);
    InsideFine(z, k, i.els, mid, st2, labels, ends, l, end, e2, i.np, i.nr);
    SkipFine(z, pc, st1.h, mid);
    OverFine(z, pc + 1 + |a|, end, y.ht, l.base + i.nr);
    JoinFine(z, pc, pc + 1 + |a|, end);
  }

  lemma JoinFine(z: Zone, pc: nat, br: nat, end: nat)
    requires ZoneOk(z) && pc < br < end && Fine(z, pc) && AllFine(z, pc + 1, br) && Fine(z, br) &&
      AllFine(z, br + 1, end)
    ensures AllFine(z, pc, end)
  {
    hide Fine;
  }

  lemma ArmHeights(z: Zone, pc: nat, x: Sym, a: seq<Sym>, y: Sym, b: seq<Sym>)
    requires HeightsAt(z, pc, [x] + a + [y] + b)
    ensures HeightAt(z, pc) == x.ht && HeightsAt(z, pc + 1, a) && HeightAt(z, pc + 1 + |a|) == y.ht &&
      HeightsAt(z, pc + 2 + |a|, b)
    ensures z.f.codeOff <= pc && pc + 2 + |a| + |b| < z.f.codeOff + z.f.codeLen
  {
    hide HeightAt;
    HeightsParts(z, pc, [x] + a + [y], b);
    HeightsParts(z, pc, [x] + a, [y]);
    HeightsParts(z, pc, [x], a);
    HeadHeight(z, pc, x);
    HeadHeight(z, pc + 1 + |a|, y);
  }

  lemma ArmTracks(z: Zone, k: Ctx, b: Body, pc: nat, st: Tracked, labels: seq<Label>, l: Label, e: Emitted, np: nat,
                  nr: nat)
    requires !st.dead && st.h == l.base + np && EmitBody(z.env, b, pc, st, [l] + labels, true) == Some(e)
    requires Ends(TypeBody(z.env.p, Inner(k, l.arity), b, Ty(np, false)), nr)
    ensures !e.st.dead ==> e.st.h == l.base + nr
  {
    hide EmitBody, TypeBody;
    BodyTracks(z.env, b, pc, st, [l] + labels, Inner(k, l.arity), l.base, Ty(np, false));
  }

  /** The BR over the else arm, if it is reached. */
  lemma OverFine(z: Zone, pc: nat, end: nat, ht: int, h: nat)
    requires ZoneOk(z) && z.f.codeOff <= pc < z.f.codeOff + z.f.codeLen && z.m.code[pc] == Br(end) &&
      HeightAt(z, pc) == ht
    requires HeightAt(z, end) == h && (ht == -1 || ht == h)
    ensures Fine(z, pc)
  {
    if ht == h { StepFine(z, pc, Br(end), h, Flow(h, false, Some(end - z.f.codeOff))); }
  }
}
