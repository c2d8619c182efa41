/** Which of the emitted code the verifier visits, and how high it stands there. Control flow is read off the source:
    past which instructions it gets, and to which labels it may branch. The pcs found this way are exactly those that
    every set closed under the successors of the flat code must contain. */
module Reached {
  import opened Words
  import opened Bytecode
  import opened Wasm
  import opened Emission
  import opened Simulation
  import opened Accepting
  import Preservation

  // ----- control flow of the source -----

  /** Some path gets past the instruction. */
  predicate Passes(i: Instr)
    decreases i
  {
    match i
    case Block(_, _, b) => BodyPasses(b) || 0 in BodyOuts(b)
    case Loop(_, _, b) => BodyPasses(b)
    case IfElse(_, _, b, c) => BodyPasses(b) || BodyPasses(c) || 0 in BodyOuts(b) || 0 in BodyOuts(c)
    case Branch(_) | BranchTable(_, _) | Ret | Trap | TailInvoke(_) => false
    case _ => true
  }

  predicate BodyPasses(b: Body)
    decreases b
  {
    b.Seq? ==> Passes(b.head) && BodyPasses(b.tail)
  }

  /** The labels some path branches to. */
  function Outs(i: Instr): set<nat>
    decreases i
  {
    match i
    case Block(_, _, b) => Outer(BodyOuts(b))
    case Loop(_, _, b) => Outer(BodyOuts(b))
    case IfThen(_, _, b) => Outer(BodyOuts(b))
    case IfElse(_, _, b, c) => Outer(BodyOuts(b) + BodyOuts(c))
    case Branch(d) => {d}
    case BranchIf(d) => {d}
    case BranchTable(ds, default) => From(ds, 0) + {default}
    case _ => {}
  }

  function BodyOuts(b: Body): set<nat>
    decreases b
  {
    match b
    case End => {}
    case Seq(i, rest) => Outs(i) + if Passes(i) then BodyOuts(rest) else {}
  }

  /** Labels as seen from outside the block. */
  function Outer(s: set<nat>): set<nat> { set d | d in s && d > 0 :: d - 1 }

  function From(ds: seq<nat>, i: nat): set<nat>
    requires i <= |ds|
  {
    set d | d in ds[i..]
  }

  // ----- heights of the source -----

  /** At every point some path reaches, the operands of the function number at most `limit`. Heights come from the
      typing; `base` lie under the current block. */
  predicate InstrNarrow(p: Program, k: Ctx, i: Instr, t: Ty, base: int, limit: int)
    decreases i
  {
    var h := base + t.h;
    match i
    case Nop | Reinterpret => true
    case Block(np, nr, b) => BodyNarrow(p, Inner(k, nr), b, Ty(np, false), h - np, limit)
    case Loop(np, nr, b) => BodyNarrow(p, Inner(k, np), b, Ty(np, false), h - np, limit)
    case IfThen(np, nr, b) => h <= limit && BodyNarrow(p, Inner(k, nr), b, Ty(np, false), h - 1 - np, limit)
    case IfElse(np, nr, b, c) =>
      && h <= limit
      && BodyNarrow(p, Inner(k, nr), b, Ty(np, false), h - 1 - np, limit)
      && (BodyPasses(b) ==> h - 1 - np + nr <= limit)
      && BodyNarrow(p, Inner(k, nr), c, Ty(np, false), h - 1 - np, limit)
    case BranchTable(ds, _) => h + (if ds == [] then 0 else 1) <= limit  // index and comparison operand
    case _ => h <= limit
  }

  predicate BodyNarrow(p: Program, k: Ctx, b: Body, t: Ty, base: int, limit: int)
    decreases b
  {
    b.Seq? ==>
      InstrNarrow(p, k, b.head, t, base, limit) &&
      (Passes(b.head) && TypeInstr(p, k, b.head, t).Some? ==>
         BodyNarrow(p, k, b.tail, TypeInstr(p, k, b.head, t).value, base, limit))
  }

  // ----- control flow of the flat code -----

  /** The verifier goes from `op` at `q` to `t`. */
  predicate Goes(op: CuOp, q: nat, t: nat) {
    match op
    case Br(b) => t == b
    case BrIfNot(b) => t == b || t == q + 1
    case Return | EndFunc | Unreachable | ReturnCall(_) | Unknown => false
    case _ => t == q + 1
  }

  ghost predicate ClosedUnder(m: Module, y: set<nat>) {
    forall q, t :: q in y && q < |m.code| && Goes(m.code[q], q, t) ==> t in y
  }

  function Dest(labels: seq<Label>, ends: seq<nat>, d: nat): nat
    requires d < |labels| == |ends|
  {
    if labels[d].start.Some? then labels[d].start.value else ends[d]
  }

  /** Where control may leave a piece of code that ends at `end`. */
  datatype Way = Way(end: nat, passes: bool, outs: set<nat>, labels: seq<Label>, ends: seq<nat>)

  ghost predicate Exits(w: Way, t: nat) {
    |w.labels| == |w.ends| &&
    ((t == w.end && w.passes) || exists d :: d in w.outs && d < |w.labels| && t == Dest(w.labels, w.ends, d))
  }

  /** `x` is what control reaches of the code from `pc` on: it leaves `x` only by the exits, any closed set `y` with
      `pc` in it holds all of `x` and the exits, and `x` stays within `limit` exactly when `narrow` says so. */
  ghost predicate Area(z: Zone, x: set<nat>, y: set<nat>, pc: nat, w: Way, limit: int, narrow: bool) {
    && |w.labels| == |w.ends|
    && (forall q :: q in x ==> pc <= q < w.end && q < |z.m.code| && HeightAt(z, q) >= 0)
    && (forall q, t :: q in x && Goes(z.m.code[q], q, t) ==> t in x || Exits(w, t))
    && (pc in x || (pc == w.end && w.passes))
    && (ClosedUnder(z.m, y) && pc in y ==> x <= y && forall t :: Exits(w, t) ==> t in y)
    && ((forall q :: q in x ==> HeightAt(z, q) <= limit) <==> narrow)
  }

  /** One instruction of the flat code. */
  lemma OneArea(z: Zone, y: set<nat>, pc: nat, w: Way, limit: int)
    requires pc < |z.m.code| && HeightAt(z, pc) >= 0 && w.end == pc + 1 && |w.labels| == |w.ends|
    requires forall t :: Goes(z.m.code[pc], pc, t) <==> Exits(w, t)
    ensures Area(z, {pc}, y, pc, w, limit, HeightAt(z, pc) <= limit)
  {
  }

  /** Code that control gets past, followed by more. */
  lemma SeqArea(z: Zone, x1: set<nat>, x2: set<nat>, y: set<nat>, pc: nat, w1: Way, w2: Way, limit: int, n1: bool,
                n2: bool)
    requires Area(z, x1, y, pc, w1, limit, n1) && Area(z, x2, y, w1.end, w2, limit, n2) && w1.passes
    requires w1.labels == w2.labels && w1.ends == w2.ends && pc <= w1.end <= w2.end
    ensures Area(z, x1 + x2, y, pc, w2.(outs := w1.outs + w2.outs), limit, n1 && n2)
  {
    hide HeightAt, Goes;
  }

  /** Code that control does not get past: what follows does not matter. */
  lemma StopArea(z: Zone, x: set<nat>, y: set<nat>, pc: nat, w: Way, end: nat, limit: int, n: bool)
    requires Area(z, x, y, pc, w, limit, n) && !w.passes && w.end <= end
    ensures Area(z, x, y, pc, w.(end := end), limit, n)
  {
  }

  /** Leaving a block: its own label leads to its end, or to its start if it is a loop. */
  lemma BlockArea(z: Zone, x: set<nat>, y: set<nat>, pc: nat, w: Way, limit: int, n: bool, l: Label, labels: seq<Label>,
                  ends: seq<nat>)
    requires Area(z, x, y, pc, w, limit, n) && w.labels == [l] + labels && w.ends == [w.end] + ends
    requires |labels| == |ends| && (l.start.Some? ==> l.start.value == pc)
    ensures var passes := w.passes || (l.start.None? && 0 in w.outs);
      Area(z, x, y, pc, Way(w.end, passes, Outer(w.outs), labels, ends), limit, n)
  {
    var v := Way(w.end, w.passes || (l.start.None? && 0 in w.outs), Outer(w.outs), labels, ends);
    forall t | Exits(w, t)
      ensures Exits(v, t) || (t == pc && pc in x)
    {
      if !(t == w.end && w.passes) {
        var d :| d in w.outs && d < |w.labels| && t == Dest(w.labels, w.ends, d);
        if d > 0 { assert d - 1 in v.outs && t == Dest(labels, ends, d - 1); }
      }
    }
    forall t | Exits(v, t)
      ensures Exits(w, t)
    {
      if t == w.end && v.passes {
        if !w.passes { assert t == Dest(w.labels, w.ends, 0); }
      } else {
        var d :| d in v.outs && d < |v.labels| && t == Dest(v.labels, v.ends, d);
        assert d + 1 in w.outs && t == Dest(w.labels, w.ends, d + 1);
      }
    }
  }

  /** A BR_IF_NOT between two pieces of code, the first of which does not run into the second. */
  lemma ForkArea(z: Zone, x1: set<nat>, x2: set<nat>, y: set<nat>, pc: nat, w1: Way, w2: Way, limit: int, n1: bool,
                 n2: bool)
    requires pc < |z.m.code| && z.m.code[pc] == BrIfNot(w1.end) && HeightAt(z, pc) >= 0 && pc < w1.end <= w2.end
    requires Area(z, x1, y, pc + 1, w1, limit, n1) && !w1.passes && Area(z, x2, y, w1.end, w2, limit, n2)
    requires w1.labels == w2.labels && w1.ends == w2.ends
    ensures Area(z, {pc} + x1 + x2, y, pc, w2.(outs := w1.outs + w2.outs), limit, HeightAt(z, pc) <= limit && n1 && n2)
  {
    assert ClosedUnder(z.m, y) && pc in y ==> pc + 1 in y && w1.end in y;
  }

  // ----- branches -----

  lemma BranchArea(z: Zone, y: set<nat>, d: nat, pc: nat, st: Tracked, labels: seq<Label>, ends: seq<nat>, j: seq<Sym>,
                   limit: int) returns (x: set<nat>)
    requires EmitBranch(z.env, d, st, labels, true) == Some(j) && !st.dead && |labels| == |ends|
    requires CodeAt(z.m, pc, j, ends) && HeightsAt(z, pc, j)
    ensures Area(z, x, y, pc, Way(pc + |j|, false, {d}, labels, ends), limit, st.h <= limit)
  {
    hide CodeAt, HeightsAt, HeightAt, Area;
    if |j| == 2 {
      assert j == [j[0]] + [j[1]] && [j[1]] == [j[1]] + [];
      CodeAtHead(z.m, pc, j[0], [j[1]], ends);
      CodeAtHead(z.m, pc + 1, j[1], [], ends);
      HeightsParts(z, pc, [j[0]], [j[1]]);
      HeadHeight(z, pc, j[0]);
      HeadHeight(z, pc + 1, j[1]);
      var w, v := Way(pc + 1, true, {}, labels, ends), Way(pc + 2, false, {d}, labels, ends);
      OneArea(z, y, pc, w, limit);
      JumpArea(z, y, d, pc + 1, v, j[1], limit);
      SeqArea(z, {pc}, {pc + 1}, y, pc, w, v, limit, st.h <= limit, j[1].ht <= limit);
      assert {} + {d} == {d};
      x := {pc} + {pc + 1};
    } else {
      assert j == [j[0]] + [];
      CodeAtHead(z.m, pc, j[0], [], ends);
      HeadHeight(z, pc, j[0]);
      JumpArea(z, y, d, pc, Way(pc + 1, false, {d}, labels, ends), j[0], limit);
      x := {pc};
    }
  }

  lemma JumpArea(z: Zone, y: set<nat>, d: nat, pc: nat, w: Way, j: Sym, limit: int)
    requires pc < |z.m.code| && z.m.code[pc] == ResolveOne(j, w.ends) && HeightAt(z, pc) == j.ht >= 0
    requires |w.labels| == |w.ends| && d < |w.labels| && j == JumpTo(d, w.labels[d], j.ht)
    requires w.end == pc + 1 && !w.passes && w.outs == {d}
    ensures Area(z, {pc}, y, pc, w, limit, j.ht <= limit)
  {
    hide HeightAt, Area;
    assert z.m.code[pc] == Br(Dest(w.labels, w.ends, d));
    OneArea(z, y, pc, w, limit);
  }

  lemma GuardedArea(z: Zone, y: set<nat>, d: nat, pc: nat, st: Tracked, labels: seq<Label>, ends: seq<nat>, g: seq<Sym>,
                    limit: int) returns (x: set<nat>)
    requires EmitGuarded(z.env, d, pc, st.h + 1, st, labels, true) == Some(g) && !st.dead && |labels| == |ends|
    requires CodeAt(z.m, pc, g, ends) && HeightsAt(z, pc, g)
    ensures Area(z, x, y, pc, Way(pc + |g|, true, {d}, labels, ends), limit, st.h + 1 <= limit)
  {
    hide CodeAt, HeightsAt, HeightAt, EmitBranch, Area;
    var j := EmitBranch(z.env, d, st, labels, true).value;
    var end := pc + 1 + |j|;
    var op := Fixed(BrIfNot(end), st.h + 1);
    CodeAtHead(z.m, pc, op, j, ends);
    HeightsParts(z, pc, [op], j);
    HeadHeight(z, pc, op);
    var x1 := BranchArea(z, y, d, pc + 1, st, labels, ends, j, limit);
    var w1, w2 := Way(end, false, {d}, labels, ends), Way(end, true, {}, labels, ends);
    NoArea(z, y, end, w2, limit);
    ForkArea(z, x1, {}, y, pc, w1, w2, limit, st.h <= limit, true);
    assert {d} + {} == {d};
    x := {pc} + x1 + {};
  }

  lemma NoArea(z: Zone, y: set<nat>, pc: nat, w: Way, limit: int)
    requires w.end == pc && w.passes && w.outs == {} && |w.labels| == |w.ends|
    ensures Area(z, {}, y, pc, w, limit, true)
  {
  }

  /** One instruction that control only falls through. */
  lemma FallArea(z: Zone, y: set<nat>, pc: nat, x: Sym, labels: seq<Label>, ends: seq<nat>, limit: int)
    requires CodeAt(z.m, pc, [x], ends) && HeightsAt(z, pc, [x]) && x.lab.None? && x.ht >= 0 && |labels| == |ends|
    requires forall q: nat, t: nat :: Goes(x.op, q, t) <==> t == q + 1
    ensures Area(z, {pc}, y, pc, Way(pc + 1, true, {}, labels, ends), limit, x.ht <= limit)
  {
    hide CodeAt, HeightAt, Area, Goes;
    assert [x] == [x] + [];
    CodeAtHead(z.m, pc, x, [], ends);
    HeadHeight(z, pc, x);
    OneArea(z, y, pc, Way(pc + 1, true, {}, labels, ends), limit);
  }

  lemma LinkArea(z: Zone, y: set<nat>, d: nat, i: nat, pc: nat, st: Tracked, labels: seq<Label>, ends: seq<nat>,
                 e: Emitted, limit: int) returns (x: set<nat>)
    requires EmitLink(z.env, d, i, pc, st, labels, true) == Some(e) && !st.dead && |labels| == |ends|
    requires CodeAt(z.m, pc, e.code, ends) && HeightsAt(z, pc, e.code)
    ensures Area(z, x, y, pc, Way(pc + |e.code|, true, {d}, labels, ends), limit, st.h + 2 <= limit)
  {
    hide CodeAt, EmitGuarded, Intern, Find, HeightsAt, HeightAt, Area;
    var h, k := st.h, Find(st.consts, i % TWO32);
    var g := EmitGuarded(z.env, d, pc + 3, h + 1, e.st, labels, true).value;
    var a, b, c := Fixed(LocalGet(z.env.scratch), h), Fixed(Const(k), h + 1), Fixed(Simple(Arith(Bin(W32, Eq))), h + 2);
    assert e.code == [a, b, c] + g == [a] + ([b] + ([c] + g));
    CodeAtParts(z.m, pc, [a], [b] + ([c] + g), ends);
    CodeAtParts(z.m, pc + 1, [b], [c] + g, ends);
    CodeAtParts(z.m, pc + 2, [c], g, ends);
    HeightsParts(z, pc, [a], [b] + ([c] + g));
    HeightsParts(z, pc + 1, [b], [c] + g);
    HeightsParts(z, pc + 2, [c], g);
    var w3 := Way(pc + |e.code|, true, {d}, labels, ends);
    var xg := GuardedArea(z, y, d, pc + 3, e.st, labels, ends, g, limit);
    FallArea(z, y, pc + 2, c, labels, ends, limit);
    FallArea(z, y, pc + 1, b, labels, ends, limit);
    FallArea(z, y, pc, a, labels, ends, limit);
    FallSeq(z, {pc + 2}, xg, y, pc + 2, w3, limit, h + 2 <= limit, h + 1 <= limit, h + 2 <= limit);
    FallSeq(z, {pc + 1}, {pc + 2} + xg, y, pc + 1, w3, limit, h + 1 <= limit, h + 2 <= limit, h + 2 <= limit);
    x := {pc} + ({pc + 1} + ({pc + 2} + xg));
    FallSeq(z, {pc}, {pc + 1} + ({pc + 2} + xg), y, pc, w3, limit, h <= limit, h + 2 <= limit, h + 2 <= limit);
  }

  /** A straight-line instruction in front of more code. */
  lemma FallSeq(z: Zone, x1: set<nat>, x2: set<nat>, y: set<nat>, pc: nat, w: Way, limit: int, n1: bool, n2: bool,
                n: bool)
    requires Area(z, x1, y, pc, Way(pc + 1, true, {}, w.labels, w.ends), limit, n1)
    requires Area(z, x2, y, pc + 1, w, limit, n2) && pc + 1 <= w.end && (n <==> n1 && n2)
    ensures Area(z, x1 + x2, y, pc, w, limit, n)
  {
    hide Area;
    SeqArea(z, x1, x2, y, pc, Way(pc + 1, true, {}, w.labels, w.ends), w, limit, n1, n2);
    assert {} + w.outs == w.outs;
    assert w.(outs := w.outs) == w;
  }

  lemma {:induction false} ChainArea(z: Zone, y: set<nat>, ds: seq<nat>, i: nat, default: nat, pc: nat, st: Tracked,
                                     labels: seq<Label>, ends: seq<nat>, e: Emitted, limit: int) returns (x: set<nat>)
    requires i <= |ds| && EmitChain(z.env, ds, i, default, pc, st, labels, true) == Some(e) && !st.dead
    requires |labels| == |ends| && CodeAt(z.m, pc, e.code, ends) && HeightsAt(z, pc, e.code)
    ensures Area(z, x, y, pc, Way(pc + |e.code|, false, From(ds, i) + {default}, labels, ends), limit,
                 st.h + (if i < |ds| then 2 else 0) <= limit)
    decreases |ds| - i
  {
    hide CodeAt, EmitLink, EmitBranch, HeightsAt, HeightAt, Area;
    if i == |ds| {
      x := BranchArea(z, y, default, pc, st, labels, ends, e.code, limit);
      assert From(ds, i) + {default} == {default};
    } else {
      var e1 := EmitLink(z.env, ds[i], i, pc, st, labels, true).value;
      LinkState(z.env, ds[i], i, pc, st, labels);
      var e2 := EmitChain(z.env, ds, i + 1, default, pc + |e1.code|, e1.st, labels, true).value;
      CodeAtParts(z.m, pc, e1.code, e2.code, ends);
      HeightsParts(z, pc, e1.code, e2.code);
      var x1 := LinkArea(z, y, ds[i], i, pc, st, labels, ends, e1, limit);
      var x2 := ChainArea(z, y, ds, i + 1, default, pc + |e1.code|, e1.st, labels, ends, e2, limit);
      var w1, w2 := Way(pc + |e1.code|, true, {ds[i]}, labels, ends),
        Way(pc + |e.code|, false, From(ds, i + 1) + {default}, labels, ends);
      SeqArea(z, x1, x2, y, pc, w1, w2, limit, st.h + 2 <= limit, st.h + (if i + 1 < |ds| then 2 else 0) <= limit);
      assert {ds[i]} + (From(ds, i + 1) + {default}) == From(ds, i) + {default};
      x := x1 + x2;
    }
  }

  // ----- instructions and bodies -----

  /** Live, well-typed code of `i` lies at `pc`. */
  ghost predicate Spread(z: Zone, k: Ctx, i: Instr, pc: nat, st: Tracked, labels: seq<Label>, ends: seq<nat>,
                         e: Emitted, base: nat, h: nat)
  {
    && !st.dead && st.h == base + h && Matching(labels, k) && |labels| == |ends|
    && EmitInstr(z.env, i, pc, st, labels, true) == Some(e) && CodeAt(z.m, pc, e.code, ends) && HeightsAt(z, pc, e.code)
    && TypeInstr(z.env.p, k, i, Ty(h, false)).Some?
  }

  ghost predicate SpreadBody(z: Zone, k: Ctx, b: Body, pc: nat, st: Tracked, labels: seq<Label>, ends: seq<nat>,
                             e: Emitted, base: nat, h: nat)
  {
    && !st.dead && st.h == base + h && Matching(labels, k) && |labels| == |ends|
    && EmitBody(z.env, b, pc, st, labels, true) == Some(e) && CodeAt(z.m, pc, e.code, ends) && HeightsAt(z, pc, e.code)
    && TypeBody(z.env.p, k, b, Ty(h, false)).Some?
  }

  function WayOf(i: Instr, end: nat, labels: seq<Label>, ends: seq<nat>): Way {
    Way(end, Passes(i), Outs(i), labels, ends)
  }

  function WayOfBody(b: Body, end: nat, labels: seq<Label>, ends: seq<nat>): Way {
    Way(end, BodyPasses(b), BodyOuts(b), labels, ends)
  }

  lemma LeafArea(z: Zone, y: set<nat>, k: Ctx, i: Instr, pc: nat, st: Tracked, labels: seq<Label>, ends: seq<nat>,
                 e: Emitted, base: nat, h: nat, limit: int) returns (x: set<nat>)
    requires Spread(z, k, i, pc, st, labels, ends, e, base, h)
    requires !Nested(i) && !i.Branch? && !i.BranchIf? && !i.BranchTable? && !i.TeeLocal?
    ensures Area(z, x, y, pc, WayOf(i, pc + |e.code|, labels, ends), limit,
                 InstrNarrow(z.env.p, k, i, Ty(h, false), base, limit))
  {
    hide CodeAt, HeightAt, Area, Intern, Find;
    var w := WayOf(i, pc + |e.code|, labels, ends);
    if i.Nop? || i.Reinterpret? {
      NoArea(z, y, pc, w, limit);
      x := {};
    } else {
      assert e.code == [e.code[0]] + [];
      CodeAtHead(z.m, pc, e.code[0], [], ends);
      HeadHeight(z, pc, e.code[0]);
      OneArea(z, y, pc, w, limit);
      x := {pc};
    }
  }

  lemma TeeArea(z: Zone, y: set<nat>, k: Ctx, i: Instr, pc: nat, st: Tracked, labels: seq<Label>, ends: seq<nat>,
                e: Emitted, base: nat, h: nat, limit: int) returns (x: set<nat>)
    requires Spread(z, k, i, pc, st, labels, ends, e, base, h) && i.TeeLocal?
    ensures Area(z, x, y, pc, WayOf(i, pc + |e.code|, labels, ends), limit,
                 InstrNarrow(z.env.p, k, i, Ty(h, false), base, limit))
  {
    hide CodeAt, HeightAt, HeightsAt, Area;
    var a, b := e.code[0], e.code[1];
    assert e.code == [a] + [b];
    CodeAtParts(z.m, pc, [a], [b], ends);
    HeightsParts(z, pc, [a], [b]);
    FallArea(z, y, pc, a, labels, ends, limit);
    FallArea(z, y, pc + 1, b, labels, ends, limit);
    var w := WayOf(i, pc + |e.code|, labels, ends);
    FallSeq(z, {pc}, {pc + 1}, y, pc, w, limit, st.h <= limit, st.h - 1 <= limit, st.h <= limit);
    x := {pc} + {pc + 1};
  }

  lemma BranchesArea(z: Zone, y: set<nat>, k: Ctx, i: Instr, pc: nat, st: Tracked, labels: seq<Label>, ends: seq<nat>,
                     e: Emitted, base: nat, h: nat, limit: int) returns (x: set<nat>)
    requires Spread(z, k, i, pc, st, labels, ends, e, base, h) && (i.Branch? || i.BranchIf? || i.BranchTable?)
    ensures Area(z, x, y, pc, WayOf(i, pc + |e.code|, labels, ends), limit,
                 InstrNarrow(z.env.p, k, i, Ty(h, false), base, limit))
  {
    hide CodeAt, HeightAt, HeightsAt, Area, EmitBranch, EmitGuarded, EmitChain;
    match i
    case Branch(d) => x := BranchArea(z, y, d, pc, st, labels, ends, e.code, limit);
    case BranchIf(d) => x := GuardedArea(z, y, d, pc, e.st, labels, ends, e.code, limit);
    case BranchTable(ds, default) =>
      var st1 := Consume(st, 1, 0).value;
      var e1 := EmitChain(z.env, ds, 0, default, pc + 1, st1, labels, true).value;
      var op := Fixed(LocalSet(z.env.scratch), st.h);
      CodeAtParts(z.m, pc, [op], e1.code, ends);
      HeightsParts(z, pc, [op], e1.code);
      FallArea(z, y, pc, op, labels, ends, limit);
      var x1 := ChainArea(z, y, ds, 0, default, pc + 1, st1, labels, ends, e1, limit);
      var w := WayOf(i, pc + |e.code|, labels, ends);
      FallSeq(z, {pc}, x1, y, pc, w, limit, st.h <= limit, st1.h + (if 0 < |ds| then 2 else 0) <= limit,
              InstrNarrow(z.env.p, k, i, Ty(h, false), base, limit));
      x := {pc} + x1;
  }

  lemma {:induction false} InstrArea(z: Zone, y: set<nat>, k: Ctx, i: Instr, pc: nat, st: Tracked, labels: seq<Label>,
                                     ends: seq<nat>, e: Emitted, base: nat, h: nat, limit: int) returns (x: set<nat>)
    requires Spread(z, k, i, pc, st, labels, ends, e, base, h)
    ensures Area(z, x, y, pc, WayOf(i, pc + |e.code|, labels, ends), limit,
                 InstrNarrow(z.env.p, k, i, Ty(h, false), base, limit))
    decreases i, 1
  {
    hide Spread, InstrNarrow, WayOf, Area;
    if i.Block? || i.Loop? {
      x := InBlockArea(z, y, k, i, pc, st, labels, ends, e, base, h, limit);
    } else if i.IfThen? {
      x := IfArea(z, y, k, i, pc, st, labels, ends, e, base, h, limit);
    } else if i.IfElse? {
      x := IfElseArea(z, y, k, i, pc, st, labels, ends, e, base, h, limit);
    } else if i.TeeLocal? {
      x := TeeArea(z, y, k, i, pc, st, labels, ends, e, base, h, limit);
    } else if i.Branch? || i.BranchIf? || i.BranchTable? {
      x := BranchesArea(z, y, k, i, pc, st, labels, ends, e, base, h, limit);
    } else {
      x := LeafArea(z, y, k, i, pc, st, labels, ends, e, base, h, limit);
    }
  }

  /** The code of a block's body, seen with the label of the block. */
  lemma {:induction false} InsideArea(z: Zone, y: set<nat>, k: Ctx, b: Body, pc: nat, st: Tracked, labels: seq<Label>,
                                      ends: seq<nat>, l: Label, end: nat, e: Emitted, np: nat, limit: int)
    returns (x: set<nat>)
    requires !st.dead && st.h == l.base + np && Matching(labels, k) && |labels| == |ends|
    requires EmitBody(z.env, b, pc, st, [l] + labels, true) == Some(e)
    requires CodeAt(z.m, pc, Close(e.code, end), ends) && HeightsAt(z, pc, Close(e.code, end))
    requires TypeBody(z.env.p, Inner(k, l.arity), b, Ty(np, false)).Some?
    ensures Area(z, x, y, pc, WayOfBody(b, pc + |e.code|, [l] + labels, [end] + ends), limit,
                 BodyNarrow(z.env.p, Inner(k, l.arity), b, Ty(np, false), l.base, limit))
    decreases b, 1
  {
    hide CodeAt, EmitBody, TypeBody, Matching, HeightsAt, HeightAt, Close, Area, BodyNarrow;
    CodeAtClose(z.m, pc, e.code, end, ends);
    HeightsClose(z, pc, e.code, end);
    MatchingInner(labels, k, l);
    x := BodyArea(z, y, Inner(k, l.arity), b, pc, st, [l] + labels, [end] + ends, e, l.base, np, limit);
  }

  lemma {:induction false} InBlockArea(z: Zone, y: set<nat>, k: Ctx, i: Instr, pc: nat, st: Tracked, labels: seq<Label>,
                                       ends: seq<nat>, e: Emitted, base: nat, h: nat, limit: int) returns (x: set<nat>)
    requires Spread(z, k, i, pc, st, labels, ends, e, base, h) && (i.Block? || i.Loop?)
    ensures Area(z, x, y, pc, WayOf(i, pc + |e.code|, labels, ends), limit,
                 InstrNarrow(z.env.p, k, i, Ty(h, false), base, limit))
    decreases i, 0
  {
    hide CodeAt, EmitBody, TypeBody, Matching, HeightsAt, HeightAt, Close, Area, BodyNarrow;
    var b := st.h - i.np;
    var l := if i.Block? then Label(None, b, i.nr) else Label(Some(pc), b, i.np);
    var e1 := EmitBody(z.env, i.body, pc, st, [l] + labels, true).value;
    var end := pc + |e1.code|;
    var n := BodyNarrow(z.env.p, Inner(k, l.arity), i.body, Ty(i.np, false), b, limit);
    x := InsideArea(z, y, k, i.body, pc, st, labels, ends, l, end, e1, i.np, limit);
    BlockArea(z, x, y, pc, WayOfBody(i.body, end, [l] + labels, [end] + ends), limit, n, l, labels, ends);
  }

  lemma {:induction false} IfArea(z: Zone, y: set<nat>, k: Ctx, i: Instr, pc: nat, st: Tracked, labels: seq<Label>,
                                  ends: seq<nat>, e: Emitted, base: nat, h: nat, limit: int) returns (x: set<nat>)
    requires Spread(z, k, i, pc, st, labels, ends, e, base, h) && i.IfThen?
    ensures Area(z, x, y, pc, WayOf(i, pc + |e.code|, labels, ends), limit,
                 InstrNarrow(z.env.p, k, i, Ty(h, false), base, limit))
    decreases i, 0
  {
    hide CodeAt, EmitBody, TypeBody, Matching, HeightsAt, HeightAt, Close, Area, BodyNarrow;
    var st1 := Consume(st, 1, 0).value;
    var l := Label(None, st1.h - i.np, i.nr);
    var e1 := EmitBody(z.env, i.thn, pc + 1, st1, [l] + labels, true).value;
    var end := pc + 1 + |e1.code|;
    var op := Fixed(BrIfNot(end), st.h);
    var labels', ends' := [l] + labels, [end] + ends;
    CodeAtHead(z.m, pc, op, Close(e1.code, end), ends);
    HeightsParts(z, pc, [op], Close(e1.code, end));
    HeadHeight(z, pc, op);
    var n := BodyNarrow(z.env.p, Inner(k, i.nr), i.thn, Ty(i.np, false), l.base, limit);
    var x1 := InsideArea(z, y, k, i.thn, pc + 1, st1, labels, ends, l, end, e1, i.np, limit);
    var w0, w1 := Way(pc + 1, true, {0}, labels', ends'), WayOfBody(i.thn, end, labels', ends');
    GuardArea(z, y, pc, w0, end, limit);
    SeqArea(z, {pc}, x1, y, pc, w0, w1, limit, st.h <= limit, n);
    x := {pc} + x1;
    BlockArea(z, x, y, pc, w1.(outs := {0} + w1.outs), limit, st.h <= limit && n, l, labels, ends);
    assert Outer({0} + w1.outs) == Outer(w1.outs);
  }

  /** The test of an `if`: fall into the arm, or jump to the end, which is where label 0 leads. */
  lemma GuardArea(z: Zone, y: set<nat>, pc: nat, w: Way, end: nat, limit: int)
    requires pc < |z.m.code| && z.m.code[pc] == BrIfNot(end) && HeightAt(z, pc) >= 0
    requires w.end == pc + 1 && w.passes && w.outs == {0} && |w.labels| == |w.ends| > 0
    requires w.labels[0].start.None? && w.ends[0] == end
    ensures Area(z, {pc}, y, pc, w, limit, HeightAt(z, pc) <= limit)
  {
    hide Area, HeightAt;
    assert Dest(w.labels, w.ends, 0) == end;
    OneArea(z, y, pc, w, limit);
  }

  lemma {:induction false} IfElseArea(z: Zone, y: set<nat>, k: Ctx, i: Instr, pc: nat, st: Tracked, labels: seq<Label>,
                                      ends: seq<nat>, e: Emitted, base: nat, h: nat, limit: int) returns (x: set<nat>)
    requires Spread(z, k, i, pc, st, labels, ends, e, base, h) && i.IfElse?
    ensures Area(z, x, y, pc, WayOf(i, pc + |e.code|, labels, ends), limit,
                 InstrNarrow(z.env.p, k, i, Ty(h, false), base, limit))
    decreases i, 0
  {
    hide CodeAt, EmitBody, TypeBody, Matching, HeightsAt, HeightAt, Close, Area, BodyNarrow;
    var st1 := Consume(st, 1, 0).value;
    var l := Label(None, st1.h - i.np, i.nr);
    var inner := [l] + labels;
    var e1 := EmitBody(z.env, i.thn, pc + 1, st1, inner, true).value;
    var mid := pc + 2 + |e1.code|;
    var st2 := Tracked(l.base + i.np, false, e1.st.consts);
    var e2 := EmitBody(z.env, i.els, mid, st2, inner, true).value;
    var end := mid + |e2.code|;
    var op, br := Fixed(BrIfNot(mid), st.h), Fixed(Br(end), Height(e1.st, true));
    var a, b := Close(e1.code, end), Close(e2.code, end);
    Preservation.ArmsAt(z.m, pc, e.code, op, a, br, b, ends);
    ArmHeights(z, pc, op, a, br, b);
    var ends' := [end] + ends;
    var x1 := InsideArea(z, y, k, i.thn, pc + 1, st1, labels, ends, l, end, e1, i.np, limit);
    var x2 := InsideArea(z, y, k, i.els, mid, st2, labels, ends, l, end, e2, i.np, limit);
    var w1, w2 := WayOfBody(i.thn, mid - 1, inner, ends'), WayOfBody(i.els, end, inner, ends');
    var n1 := BodyNarrow(z.env.p, Inner(k, i.nr), i.thn, Ty(i.np, false), l.base, limit);
    var n2 := BodyNarrow(z.env.p, Inner(k, i.nr), i.els, Ty(i.np, false), l.base, limit);
    if BodyPasses(i.thn) {
      PassingArm(z, k, i.thn, pc + 1, st1, labels, l, e1, i.np, i.nr);
    }
    x := ArmsArea(z, x1, x2, y, pc, w1, w2, limit, n1, n2, br.ht, l, labels, ends);
  }

  /** The two arms of an `if`, each with its area, put together. */
  lemma ArmsArea(z: Zone, x1: set<nat>, x2: set<nat>, y: set<nat>, pc: nat, w1: Way, w2: Way, limit: int, n1: bool,
                 n2: bool, ht: int, l: Label, labels: seq<Label>, ends: seq<nat>) returns (x: set<nat>)
    requires Area(z, x1, y, pc + 1, w1, limit, n1) && Area(z, x2, y, w1.end + 1, w2, limit, n2)
    requires pc + 1 <= w1.end < w2.end && l.start.None? && |labels| == |ends|
    requires w1.labels == w2.labels == [l] + labels && w1.ends == w2.ends == [w2.end] + ends
    requires w1.end < |z.m.code| && z.m.code[pc] == BrIfNot(w1.end + 1) && HeightAt(z, pc) >= 0
    requires z.m.code[w1.end] == Br(w2.end) && HeightAt(z, w1.end) == ht && (w1.passes ==> ht >= 0)
    ensures Area(z, x, y, pc,
                 Way(w2.end, w1.passes || w2.passes || 0 in w1.outs || 0 in w2.outs, Outer(w1.outs + w2.outs), labels,
                     ends),
                 limit, HeightAt(z, pc) <= limit && n1 && (w1.passes ==> ht <= limit) && n2)
  {
    hide Area, HeightAt;
    var x3, w3, n3 := ThenArea(z, x1, y, pc + 1, w1, limit, n1, w2.end, ht);
    ForkArea(z, x3, x2, y, pc, w3, w2, limit, n3, n2);
    x := {pc} + x3 + x2;
    var w := w2.(outs := w3.outs + w2.outs);
    BlockArea(z, x, y, pc, w, limit, HeightAt(z, pc) <= limit && n3 && n2, l, labels, ends);
    assert Outer(w.outs) == Outer(w1.outs + w2.outs);
  }

  /** An arm that control gets past ends at the height of the block's results. */
  lemma PassingArm(z: Zone, k: Ctx, b: Body, pc: nat, st: Tracked, labels: seq<Label>, l: Label, e: Emitted, np: nat,
                   nr: nat)
    requires !st.dead && st.h == l.base + np && EmitBody(z.env, b, pc, st, [l] + labels, true) == Some(e)
    requires Ends(TypeBody(z.env.p, Inner(k, l.arity), b, Ty(np, false)), nr) && BodyPasses(b)
    ensures Height(e.st, true) == l.base + nr
  {
    hide EmitBody, TypeBody;
    BodyTracks(z.env, b, pc, st, [l] + labels, Inner(k, l.arity), l.base, Ty(np, false));
    PassesLive(z.env.p, Inner(k, l.arity), b, Ty(np, false));
  }

  lemma {:induction false} PassesLive(p: Program, k: Ctx, b: Body, t: Ty)
    requires TypeBody(p, k, b, t).Some? && BodyPasses(b) && !t.dead
    ensures !TypeBody(p, k, b, t).value.dead
    decreases b
  {
    hide TypeInstr;
    if b.Seq? {
      PassLive(p, k, b.head, t);
      PassesLive(p, k, b.tail, TypeInstr(p, k, b.head, t).value);
    }
  }

  lemma PassLive(p: Program, k: Ctx, i: Instr, t: Ty)
    requires TypeInstr(p, k, i, t).Some? && Passes(i) && !t.dead
    ensures !TypeInstr(p, k, i, t).value.dead
  {
    hide TypeBody;
  }

  /** The then arm with the BR behind it, which is reached only if control gets past the arm. */
  lemma ThenArea(z: Zone, x: set<nat>, y: set<nat>, pc: nat, w: Way, limit: int, n: bool, end: nat, ht: int)
    returns (x': set<nat>, w': Way, n': bool)
    requires Area(z, x, y, pc, w, limit, n) && pc <= w.end
    requires w.end < |z.m.code| && z.m.code[w.end] == Br(end) && HeightAt(z, w.end) == ht && (w.passes ==> ht >= 0)
    requires |w.labels| > 0 && w.labels[0].start.None? && |w.ends| > 0 && w.ends[0] == end
    ensures Area(z, x', y, pc, w', limit, n') && !w'.passes && w'.end == w.end + 1
    ensures w'.labels == w.labels && w'.ends == w.ends && w'.outs == w.outs + (if w.passes then {0} else {})
    ensures n' <==> n && (w.passes ==> ht <= limit)
  {
    assert |w.labels| == |w.ends|;
    hide Area, HeightAt;
    if w.passes {
      var v := Way(w.end + 1, false, {0}, w.labels, w.ends);
      assert Dest(w.labels, w.ends, 0) == end;
      OneArea(z, y, w.end, v, limit);
      SeqArea(z, x, {w.end}, y, pc, w, v, limit, n, ht <= limit);
      x', w', n' := x + {w.end}, v.(outs := w.outs + v.outs), n && ht <= limit;
    } else {
      StopArea(z, x, y, pc, w, w.end + 1, limit, n);
      x', w', n' := x, w.(end := w.end + 1), n;
      assert w.outs + {} == w.outs;
    }
  }

  lemma {:induction false} BodyArea(z: Zone, y: set<nat>, k: Ctx, b: Body, pc: nat, st: Tracked, labels: seq<Label>,
                                    ends: seq<nat>, e: Emitted, base: nat, h: nat, limit: int) returns (x: set<nat>)
    requires SpreadBody(z, k, b, pc, st, labels, ends, e, base, h)
    ensures Area(z, x, y, pc, WayOfBody(b, pc + |e.code|, labels, ends), limit,
                 BodyNarrow(z.env.p, k, b, Ty(h, false), base, limit))
    decreases b, 0
  {
    hide CodeAt, EmitInstr, TypeInstr, Matching, HeightsAt, HeightAt, Area, InstrNarrow, Passes, Outs;
    if b.Seq? {
      var i, t := b.head, b.tail;
      var e1 := EmitInstr(z.env, i, pc, st, labels, true).value;
      var mid := pc + |e1.code|;
      var e2 := EmitBody(z.env, t, mid, e1.st, labels, true).value;
      CodeAtParts(z.m, pc, e1.code, e2.code, ends);
      HeightsParts(z, pc, e1.code, e2.code);
      var n1 := InstrNarrow(z.env.p, k, i, Ty(h, false), base, limit);
      var w1, w := WayOf(i, mid, labels, ends), WayOfBody(b, pc + |e.code|, labels, ends);
      var x1 := InstrArea(z, y, k, i, pc, st, labels, ends, e1, base, h, limit);
      if Passes(i) {
        InstrTracks(z.env, i, pc, st, labels, true, k, base, h);
        PassLive(z.env.p, k, i, Ty(h, false));
        var u := TypeInstr(z.env.p, k, i, Ty(h, false)).value;
        assert u == Ty(u.h, false);
        var x2 := BodyArea(z, y, k, t, mid, e1.st, labels, ends, e2, base, u.h, limit);
        SeqArea(z, x1, x2, y, pc, w1, WayOfBody(t, pc + |e.code|, labels, ends), limit, n1,
                BodyNarrow(z.env.p, k, t, u, base, limit));
        x := x1 + x2;
      } else {
        StopArea(z, x1, y, pc, w1, pc + |e.code|, limit, n1);
        assert w1.outs + {} == w1.outs;
        x := x1;
      }
    } else {
      NoArea(z, y, pc, WayOfBody(b, pc + |e.code|, labels, ends), limit);
      x := {};
    }
  }
}
