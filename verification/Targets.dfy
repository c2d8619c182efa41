/** Where branches of lowered code go: after back-patching no placeholder is left, conditional branches are strictly
    forward, and a backward branch goes to the header of a loop around it. */
module Targets {
  import opened Words
  import opened Bytecode
  import opened Wasm
  import opened Emission

  /** The code ranges of the loops of a body: header pc and the pc just past the loop. */
  function LoopsOf(env: Env, i: Instr, pc: nat, st: Tracked, labels: seq<Label>, reach: bool): set<(nat, nat)>
    decreases i
  {
    var live := reach && !st.dead;
    match i
    case Block(np, nr, body) =>
      (match BlockBase(st, np)
       case None => {}
       case Some(base) => LoopsIn(env, body, pc, st, [Label(None, base, nr)] + labels, live))
    case Loop(np, nr, body) =>
      (match BlockBase(st, np)
       case None => {}
       case Some(base) =>
         var inner := [Label(Some(pc), base, np)] + labels;
         match EmitBody(env, body, pc, st, inner, live)
         case None => {}
         case Some(e) => {(pc, pc + |e.code|)} + LoopsIn(env, body, pc, st, inner, live))
    case IfThen(np, nr, thn) =>
      (match Consume(st, 1, 0)
       case None => {}
       case Some(st1) =>
         match BlockBase(st1, np)
         case None => {}
         case Some(base) => LoopsIn(env, thn, pc + 1, st1, [Label(None, base, nr)] + labels, live))
    case IfElse(np, nr, thn, els) =>
      (match Consume(st, 1, 0)
       case None => {}
       case Some(st1) =>
         match BlockBase(st1, np)
         case None => {}
         case Some(base) =>
           var inner := [Label(None, base, nr)] + labels;
           match EmitBody(env, thn, pc + 1, st1, inner, live)
           case None => {}
           case Some(e1) =>
             LoopsIn(env, thn, pc + 1, st1, inner, live)
             + LoopsIn(env, els, pc + 2 + |e1.code|, Tracked(base + np, false, e1.st.consts), inner, live))
    case _ => {}
  }

  function LoopsIn(env: Env, b: Body, pc: nat, st: Tracked, labels: seq<Label>, reach: bool): set<(nat, nat)>
    decreases b
  {
    match b
    case End => {}
    case Seq(i, rest) =>
      LoopsOf(env, i, pc, st, labels, reach)
      + match EmitInstr(env, i, pc, st, labels, reach)
        case None => {}
        case Some(e) => LoopsIn(env, rest, pc + |e.code|, e.st, labels, reach)
  }

  /** Every loop of an instruction lies in its code, the header not behind the end. */
  lemma {:induction false} LoopsFrom(env: Env, i: Instr, pc: nat, st: Tracked, labels: seq<Label>, reach: bool)
    requires EmitInstr(env, i, pc, st, labels, reach).Some?
    ensures var end := pc + |EmitInstr(env, i, pc, st, labels, reach).value.code|;
      forall l :: l in LoopsOf(env, i, pc, st, labels, reach) ==> pc <= l.0 <= l.1 <= end
    decreases i
  {
    hide LoopsIn, EmitBody, Close;
    var live := reach && !st.dead;
    match i
    case Block(np, nr, body) =>
      LoopsInFrom(env, body, pc, st, [Label(None, BlockBase(st, np).value, nr)] + labels, live);
    case Loop(np, nr, body) =>
      LoopsInFrom(env, body, pc, st, [Label(Some(pc), BlockBase(st, np).value, np)] + labels, live);
    case IfThen(np, nr, thn) =>
      var st1 := Consume(st, 1, 0).value;
      LoopsInFrom(env, thn, pc + 1, st1, [Label(None, BlockBase(st1, np).value, nr)] + labels, live);
    case IfElse(np, nr, thn, els) =>
      var st1 := Consume(st, 1, 0).value;
      var base := BlockBase(st1, np).value;
      var inner := [Label(None, base, nr)] + labels;
      LoopsInFrom(env, thn, pc + 1, st1, inner, live);
      var e1 := EmitBody(env, thn, pc + 1, st1, inner, live).value;
      LoopsInFrom(env, els, pc + 2 + |e1.code|, Tracked(base + np, false, e1.st.consts), inner, live);
    case _ =>
  }

  /** The same for a body. */
  lemma {:induction false} LoopsInFrom(env: Env, b: Body, pc: nat, st: Tracked, labels: seq<Label>, reach: bool)
    requires EmitBody(env, b, pc, st, labels, reach).Some?
    ensures var end := pc + |EmitBody(env, b, pc, st, labels, reach).value.code|;
      forall l :: l in LoopsIn(env, b, pc, st, labels, reach) ==> pc <= l.0 <= l.1 <= end
    decreases b
  {
    hide LoopsOf, EmitInstr;
    if b.Seq? {
      LoopsFrom(env, b.head, pc, st, labels, reach);
      var e := EmitInstr(env, b.head, pc, st, labels, reach).value;
      LoopsInFrom(env, b.tail, pc + |e.code|, e.st, labels, reach);
    }
  }

  /** Some loop of `loops` has its header at `t` and contains `q`. */
  predicate LoopAround(loops: set<(nat, nat)>, t: nat, q: nat) {
    exists l :: l in loops && l.0 == t && t <= q < l.1
  }

  predicate OuterLoop(labels: seq<Label>, t: nat) {
    exists d :: 0 <= d < |labels| && labels[d].start == Some(t)
  }

  /** What an emitted instruction at `q` may be: a branch is still open towards an enclosing block, or strictly forward
      within reach, or back to the header of a loop around it. `tails` says whether tail calls may occur. */
  predicate Aimed(x: Sym, q: nat, hi: nat, labels: seq<Label>, loops: set<(nat, nat)>, tails: bool) {
    match x.op
    case BrIfNot(t) => x.lab.None? && q < t <= hi
    case Br(t) =>
      if x.lab.Some? then x.lab.value < |labels| && labels[x.lab.value].start.None?
      else q < t <= hi || LoopAround(loops, t, q) || OuterLoop(labels, t)
    case ReturnCall(_) => tails && x.lab.None?
    case _ => x.lab.None?
  }

  ghost predicate AllAimed(s: seq<Sym>, pc: nat, hi: nat, labels: seq<Label>, loops: set<(nat, nat)>, tails: bool) {
    forall j :: 0 <= j < |s| ==> Aimed(s[j], pc + j, hi, labels, loops, tails)
  }

  lemma AimedParts(a: seq<Sym>, b: seq<Sym>, pc: nat, hi: nat, labels: seq<Label>, loops: set<(nat, nat)>, tails: bool)
    requires AllAimed(a, pc, hi, labels, loops, tails) && AllAimed(b, pc + |a|, hi, labels, loops, tails)
    ensures AllAimed(a + b, pc, hi, labels, loops, tails)
  {
    hide Aimed;
    forall j | 0 <= j < |a + b|
      ensures Aimed((a + b)[j], pc + j, hi, labels, loops, tails)
    {
      if j < |a| {
        assert Aimed(a[j], pc + j, hi, labels, loops, tails);
      } else {
        assert Aimed(b[j - |a|], pc + |a| + (j - |a|), hi, labels, loops, tails);
      }
    }
  }

  /** More reach and more loops only allow more. */
  lemma AimedWider(s: seq<Sym>, pc: nat, hi: nat, hi': nat, labels: seq<Label>, loops: set<(nat, nat)>,
                   loops': set<(nat, nat)>, tails: bool)
    requires AllAimed(s, pc, hi, labels, loops, tails) && hi <= hi' && loops <= loops'
    ensures AllAimed(s, pc, hi', labels, loops', tails)
  {
    forall j | 0 <= j < |s|
      ensures Aimed(s[j], pc + j, hi', labels, loops', tails)
    {
      var x := s[j];
      assert Aimed(x, pc + j, hi, labels, loops, tails);
      if x.op.Br? && LoopAround(loops, x.op.target, pc + j) {
        var l :| l in loops && l.0 == x.op.target && l.0 <= pc + j < l.1;
        assert l in loops';
      }
    }
  }

  lemma CloseAimed(x: Sym, q: nat, pc: nat, end: nat, labels: seq<Label>, l: Label, loops: set<(nat, nat)>, tails: bool)
    requires Aimed(x, q, end, [l] + labels, loops, tails) && pc <= q < end
    requires l.start.Some? ==> l.start.value == pc && (pc, end) in loops
    ensures Aimed(CloseOne(x, end), q, end, labels, loops, tails)
  {
    var ls := [l] + labels;
    if x.op.Br? {
      if x.lab.Some? && x.lab.value > 0 {
        assert ls[x.lab.value] == labels[x.lab.value - 1];
      } else if x.lab.None? && OuterLoop(ls, x.op.target) {
        var d :| 0 <= d < |ls| && ls[d].start == Some(x.op.target);
        if d == 0 {
          var loop := (pc, end);
          assert loop in loops && loop.0 == x.op.target && x.op.target <= q < loop.1;
        } else {
          assert labels[d - 1] == ls[d];
        }
      }
    }
  }

  lemma BranchAimed(env: Env, d: nat, st: Tracked, labels: seq<Label>, reach: bool, pc: nat, hi: nat, tails: bool)
    ensures var j := EmitBranch(env, d, st, labels, reach);
      j.Some? ==> AllAimed(j.value, pc, hi, labels, {}, tails)
  {
    if d < |labels| && labels[d].start.Some? { assert OuterLoop(labels, labels[d].start.value); }
  }

  lemma GuardedAimed(env: Env, d: nat, pc: nat, ht: int, st: Tracked, labels: seq<Label>, reach: bool, tails: bool)
    ensures var g := EmitGuarded(env, d, pc, ht, st, labels, reach);
      g.Some? ==> AllAimed(g.value, pc, pc + |g.value|, labels, {}, tails)
  {
    hide EmitBranch;
    var j := EmitBranch(env, d, st, labels, reach);
    if j.Some? {
      BranchAimed(env, d, st, labels, reach, pc + 1, pc + 1 + |j.value|, tails);
      AimedParts([Fixed(BrIfNot(pc + 1 + |j.value|), ht)], j.value, pc, pc + 1 + |j.value|, labels, {}, tails);
    }
  }

  lemma {:induction false} ChainAimed(env: Env, ds: seq<nat>, i: nat, default: nat, pc: nat, st: Tracked,
                                      labels: seq<Label>, reach: bool, tails: bool)
    requires i <= |ds|
    ensures var e := EmitChain(env, ds, i, default, pc, st, labels, reach);
      e.Some? ==> AllAimed(e.value.code, pc, pc + |e.value.code|, labels, {}, tails)
    decreases |ds| - i
  {
    hide EmitBranch, EmitLink;
    if i == |ds| {
      var j := EmitBranch(env, default, st, labels, reach);
      if j.Some? { BranchAimed(env, default, st, labels, reach, pc, pc + |j.value|, tails); }
    } else {
      LinkAimed(env, ds[i], i, pc, st, labels, reach, tails);
      var e1 := EmitLink(env, ds[i], i, pc, st, labels, reach);
      if e1.Some? {
        var mid := pc + |e1.value.code|;
        ChainAimed(env, ds, i + 1, default, mid, e1.value.st, labels, reach, tails);
        var e2 := EmitChain(env, ds, i + 1, default, mid, e1.value.st, labels, reach);
        if e2.Some? {
          AimedWider(e1.value.code, pc, mid, mid + |e2.value.code|, labels, {}, {}, tails);
          AimedParts(e1.value.code, e2.value.code, pc, mid + |e2.value.code|, labels, {}, tails);
        }
      }
    }
  }

  lemma LinkAimed(env: Env, d: nat, i: nat, pc: nat, st: Tracked, labels: seq<Label>, reach: bool, tails: bool)
    ensures var e := EmitLink(env, d, i, pc, st, labels, reach);
      e.Some? ==> AllAimed(e.value.code, pc, pc + |e.value.code|, labels, {}, tails)
  {
    hide EmitGuarded, Intern, Find;
    var e := EmitLink(env, d, i, pc, st, labels, reach);
    if e.Some? {
      var h := Height(st, reach);
      var up := if h < 0 then 0 else 1;
      GuardedAimed(env, d, pc + 3, h + up, e.value.st, labels, reach, tails);
      var g := EmitGuarded(env, d, pc + 3, h + up, e.value.st, labels, reach).value;
      AimedParts(e.value.code[..3], g, pc, pc + 3 + |g|, labels, {}, tails);
      assert e.value.code == e.value.code[..3] + g;
    }
  }

  predicate HasTail(i: Instr)
    decreases i
  {
    match i
    case TailInvoke(_) => true
    case Block(_, _, b) => BodyHasTail(b)
    case Loop(_, _, b) => BodyHasTail(b)
    case IfThen(_, _, b) => BodyHasTail(b)
    case IfElse(_, _, b, c) => BodyHasTail(b) || BodyHasTail(c)
    case _ => false
  }

  predicate BodyHasTail(b: Body)
    decreases b
  {
    b.Seq? && (HasTail(b.head) || BodyHasTail(b.tail))
  }

  lemma LeafAimed(env: Env, i: Instr, pc: nat, st: Tracked, labels: seq<Label>, reach: bool)
    requires !i.Block? && !i.Loop? && !i.IfThen? && !i.IfElse?
    ensures var e := EmitInstr(env, i, pc, st, labels, reach);
      e.Some? ==> AllAimed(e.value.code, pc, pc + |e.value.code|, labels, {}, HasTail(i))
  {
    hide EmitBranch, EmitGuarded, EmitChain, EmitBody, Intern, Find;
    match i
    case Branch(d) =>
      var j := EmitBranch(env, d, st, labels, reach);
      if j.Some? { BranchAimed(env, d, st, labels, reach, pc, pc + |j.value|, false); }
    case BranchIf(d) =>
      var st1 := Consume(st, 1, 0);
      if st1.Some? { GuardedAimed(env, d, pc, Height(st, reach), st1.value, labels, reach, false); }
    case BranchTable(ds, default) =>
      var st1 := Consume(st, 1, 0);
      if st1.Some? {
        ChainAimed(env, ds, 0, default, pc + 1, st1.value, labels, reach, false);
        var e := EmitChain(env, ds, 0, default, pc + 1, st1.value, labels, reach);
        if e.Some? {
          var x := Fixed(LocalSet(env.scratch), Height(st, reach));
          AimedParts([x], e.value.code, pc, pc + 1 + |e.value.code|, labels, {}, false);
        }
      }
    case _ =>
  }

  lemma {:induction false} InsideAimed(env: Env, b: Body, pc: nat, st: Tracked, labels: seq<Label>, live: bool,
                                       l: Label, end: nat, loops: set<(nat, nat)>, tails: bool)
    requires EmitBody(env, b, pc, st, [l] + labels, live).Some?
    requires var e := EmitBody(env, b, pc, st, [l] + labels, live).value;
      l.start.None? || (l.start.value == pc && (pc, pc + |e.code|) in loops && end == pc + |e.code|)
    requires LoopsIn(env, b, pc, st, [l] + labels, live) <= loops && (BodyHasTail(b) ==> tails)
    requires end >= pc + |EmitBody(env, b, pc, st, [l] + labels, live).value.code|
    ensures var e := EmitBody(env, b, pc, st, [l] + labels, live).value;
      AllAimed(Close(e.code, end), pc, end, labels, loops, tails)
    decreases b, 1
  {
    hide EmitBody, LoopsIn, AllAimed;
    BodyAimed(env, b, pc, st, [l] + labels, live);
    var e := EmitBody(env, b, pc, st, [l] + labels, live).value;
    var mine := LoopsIn(env, b, pc, st, [l] + labels, live);
    TailsAllowed(e.code, pc, pc + |e.code|, [l] + labels, mine, BodyHasTail(b), tails);
    AimedWider(e.code, pc, pc + |e.code|, end, [l] + labels, mine, loops, tails);
    ClosedAimed(e.code, pc, end, labels, l, loops, tails);
  }

  lemma TailsAllowed(s: seq<Sym>, pc: nat, hi: nat, labels: seq<Label>, loops: set<(nat, nat)>, a: bool, b: bool)
    requires AllAimed(s, pc, hi, labels, loops, a) && (a ==> b)
    ensures AllAimed(s, pc, hi, labels, loops, b)
  {
    forall j | 0 <= j < |s|
      ensures Aimed(s[j], pc + j, hi, labels, loops, b)
    {
      assert Aimed(s[j], pc + j, hi, labels, loops, a);
    }
  }

  /** Closing a block keeps its code aimed: its own branches become forward ones, and its loop, if it is one, is now
      among the loops around them. */
  lemma ClosedAimed(s: seq<Sym>, pc: nat, end: nat, labels: seq<Label>, l: Label, loops: set<(nat, nat)>, tails: bool)
    requires AllAimed(s, pc, end, [l] + labels, loops, tails) && end >= pc + |s|
    requires l.start.Some? ==> l.start.value == pc && (pc, end) in loops
    ensures AllAimed(Close(s, end), pc, end, labels, loops, tails)
  {
    forall j | 0 <= j < |s|
      ensures Aimed(Close(s, end)[j], pc + j, end, labels, loops, tails)
    {
      assert Aimed(s[j], pc + j, end, [l] + labels, loops, tails);
      CloseAimed(s[j], pc + j, pc, end, labels, l, loops, tails);
    }
  }

  lemma {:induction false} InstrAimed(env: Env, i: Instr, pc: nat, st: Tracked, labels: seq<Label>, reach: bool)
    ensures var e := EmitInstr(env, i, pc, st, labels, reach);
      e.Some? ==> AllAimed(e.value.code, pc, pc + |e.value.code|, labels, LoopsOf(env, i, pc, st, labels, reach),
        HasTail(i))
    decreases i
  {
    hide EmitBody, LoopsIn, Close, AllAimed, BodyHasTail;
    var live := reach && !st.dead;
    var e := EmitInstr(env, i, pc, st, labels, reach);
    var loops := LoopsOf(env, i, pc, st, labels, reach);
    if e.Some? {
      match i
      case Block(np, nr, body) =>
        var l := Label(None, BlockBase(st, np).value, nr);
        InsideAimed(env, body, pc, st, labels, live, l, pc + |e.value.code|, loops, HasTail(i));
      case Loop(np, nr, body) =>
        var l := Label(Some(pc), BlockBase(st, np).value, np);
        InsideAimed(env, body, pc, st, labels, live, l, pc + |e.value.code|, loops, HasTail(i));
      case IfThen(np, nr, thn) =>
        var st1 := Consume(st, 1, 0).value;
        var l := Label(None, BlockBase(st1, np).value, nr);
        var e1 := EmitBody(env, thn, pc + 1, st1, [l] + labels, live).value;
        var end := pc + 1 + |e1.code|;
        InsideAimed(env, thn, pc + 1, st1, labels, live, l, end, loops, HasTail(i));
        OneAimed(Fixed(BrIfNot(end), Height(st, reach)), pc, end, labels, loops, HasTail(i));
        AimedParts([Fixed(BrIfNot(end), Height(st, reach))], Close(e1.code, end), pc, end, labels, loops, HasTail(i));
      case IfElse(np, nr, thn, els) => ArmsAimed(env, i, pc, st, labels, reach);
      case _ => LeafAimed(env, i, pc, st, labels, reach);
    }
  }

  lemma NoneAimed(pc: nat, labels: seq<Label>, loops: set<(nat, nat)>, tails: bool)
    ensures AllAimed([], pc, pc, labels, loops, tails)
  {
  }

  lemma OneAimed(x: Sym, pc: nat, hi: nat, labels: seq<Label>, loops: set<(nat, nat)>, tails: bool)
    requires Aimed(x, pc, hi, labels, loops, tails)
    ensures AllAimed([x], pc, hi, labels, loops, tails)
  {
  }

  lemma {:induction false} ArmsAimed(env: Env, i: Instr, pc: nat, st: Tracked, labels: seq<Label>, reach: bool)
    requires i.IfElse? && EmitInstr(env, i, pc, st, labels, reach).Some?
    ensures var e := EmitInstr(env, i, pc, st, labels, reach).value;
      AllAimed(e.code, pc, pc + |e.code|, labels, LoopsOf(env, i, pc, st, labels, reach), HasTail(i))
    decreases i, 0
  {
    hide EmitBody, LoopsIn, Close, AllAimed, BodyHasTail;
    var live := reach && !st.dead;
    var e := EmitInstr(env, i, pc, st, labels, reach).value;
    var loops, tails := LoopsOf(env, i, pc, st, labels, reach), HasTail(i);
    var st1 := Consume(st, 1, 0).value;
    var l := Label(None, BlockBase(st1, i.np).value, i.nr);
    var e1 := EmitBody(env, i.thn, pc + 1, st1, [l] + labels, live).value;
    var mid, st2 := pc + 2 + |e1.code|, Tracked(l.base + i.np, false, e1.st.consts);
    var e2 := EmitBody(env, i.els, mid, st2, [l] + labels, live).value;
    var end := mid + |e2.code|;
    InsideAimed(env, i.thn, pc + 1, st1, labels, live, l, end, loops, tails);
    InsideAimed(env, i.els, mid, st2, labels, live, l, end, loops, tails);
    var x, y := Fixed(BrIfNot(mid), Height(st, reach)), Fixed(Br(end), Height(e1.st, live));
    var a, b := Close(e1.code, end), Close(e2.code, end);
    OneAimed(x, pc, end, labels, loops, tails);
    OneAimed(y, mid - 1, end, labels, loops, tails);
    AimedParts([x], a, pc, end, labels, loops, tails);
    AimedParts([x] + a, [y], pc, end, labels, loops, tails);
    AimedParts([x] + a + [y], b, pc, end, labels, loops, tails);
  }

  lemma {:induction false} BodyAimed(env: Env, b: Body, pc: nat, st: Tracked, labels: seq<Label>, reach: bool)
    ensures var e := EmitBody(env, b, pc, st, labels, reach);
      e.Some? ==>
        AllAimed(e.value.code, pc, pc + |e.value.code|, labels, LoopsIn(env, b, pc, st, labels, reach), BodyHasTail(b))
    decreases b, 0
  {
    hide EmitInstr, LoopsOf, LoopsIn, HasTail, BodyHasTail, AllAimed;
    if b.End? {
      NoneAimed(pc, labels, LoopsIn(env, b, pc, st, labels, reach), BodyHasTail(b));
    } else {
      InstrAimed(env, b.head, pc, st, labels, reach);
      var e1 := EmitInstr(env, b.head, pc, st, labels, reach);
      if e1.Some? {
        var mid := pc + |e1.value.code|;
        BodyAimed(env, b.tail, mid, e1.value.st, labels, reach);
        var e2 := EmitBody(env, b.tail, mid, e1.value.st, labels, reach);
        if e2.Some? {
          JoinAimed(env, b, pc, st, labels, reach, e1.value.code, e2.value.code, mid);
        }
      }
    }
  }

  lemma JoinAimed(env: Env, b: Body, pc: nat, st: Tracked, labels: seq<Label>, reach: bool, c1: seq<Sym>, c2: seq<Sym>,
                  mid: nat)
    requires b.Seq? && EmitInstr(env, b.head, pc, st, labels, reach).Some?
    requires var e1 := EmitInstr(env, b.head, pc, st, labels, reach).value;
      c1 == e1.code && mid == pc + |c1| &&
      AllAimed(c1, pc, mid, labels, LoopsOf(env, b.head, pc, st, labels, reach), HasTail(b.head)) &&
      AllAimed(c2, mid, mid + |c2|, labels, LoopsIn(env, b.tail, mid, e1.st, labels, reach), BodyHasTail(b.tail))
    ensures AllAimed(c1 + c2, pc, mid + |c2|, labels, LoopsIn(env, b, pc, st, labels, reach), BodyHasTail(b))
  {
    hide EmitInstr, LoopsOf, HasTail, AllAimed;
    var e1 := EmitInstr(env, b.head, pc, st, labels, reach).value;
    var all, tails, hi := LoopsIn(env, b, pc, st, labels, reach), BodyHasTail(b), mid + |c2|;
    var l1, l2 := LoopsOf(env, b.head, pc, st, labels, reach), LoopsIn(env, b.tail, mid, e1.st, labels, reach);
    assert all == l1 + l2;
    TailsAllowed(c1, pc, mid, labels, l1, HasTail(b.head), tails);
    AimedWider(c1, pc, mid, hi, labels, l1, all, tails);
    TailsAllowed(c2, mid, hi, labels, l2, BodyHasTail(b.tail), tails);
    AimedWider(c2, mid, hi, hi, labels, l2, all, tails);
    AimedParts(c1, c2, pc, hi, labels, all, tails);
  }

  /** The finished code of a function: every branch stays inside it, conditional branches go strictly forward, a jump
      that does not go forward goes to the header of a loop around it, and tail calls come only from tail calls. */
  ghost predicate WellAimed(code: seq<CuOp>, off: nat, loops: set<(nat, nat)>, tails: bool) {
    forall j :: 0 <= j < |code| ==>
      match code[j]
      case BrIfNot(t) => off + j < t < off + |code|
      case Br(t) => off + j < t < off + |code| || (off <= t && LoopAround(loops, t, off + j))
      case ReturnCall(_) => tails
      case _ => true
  }

  lemma FuncAimed(p: Program, f: nat, off: nat, pool: seq<Word>)
    requires f < |p.funcs| && p.funcs[f].Local? && p.funcs[f].ty < |p.types| && EmitFunc(p, f, off, pool).Some?
    ensures var e := EmitFunc(p, f, off, pool).value;
      var env := EnvOf(p, f);
      WellAimed(FuncCode(e.code, off), off,
                LoopsIn(env, p.funcs[f].body, off, Tracked(0, false, pool), [Label(None, 0, env.nResults)], true),
                BodyHasTail(p.funcs[f].body))
  {
    hide EmitBody, LoopsIn, BodyHasTail;
    var env := EnvOf(p, f);
    var st, labels := Tracked(0, false, pool), [Label(None, 0, env.nResults)];
    var e := EmitFunc(p, f, off, pool).value;
    BodyAimed(env, p.funcs[f].body, off, st, labels, true);
    LoopsInFrom(env, p.funcs[f].body, off, st, labels, true);
    var loops, tails := LoopsIn(env, p.funcs[f].body, off, st, labels, true), BodyHasTail(p.funcs[f].body);
    var end := off + |e.code|;
    var code := FuncCode(e.code, off);
    forall j | 0 <= j < |e.code|
      ensures match code[j]
        case BrIfNot(t) => off + j < t < off + |code|
        case Br(t) => off + j < t < off + |code| || (off <= t && LoopAround(loops, t, off + j))
        case ReturnCall(_) => tails
        case _ => true
    {
      assert Aimed(e.code[j], off + j, end, labels, loops, tails);
      assert code[j] == ResolveOne(e.code[j], [end]);
    }
  }

  // ----- direct calls -----

  /** CALL goes to functions with a body only; imports are called through CALL_HOST. */
  predicate LocalCalls(p: Program, s: seq<Sym>) {
    forall j :: 0 <= j < |s| && s[j].op.Call? ==> s[j].op.f < |p.funcs| && p.funcs[s[j].op.f].Local?
  }

  lemma LocalParts(p: Program, a: seq<Sym>, b: seq<Sym>)
    requires LocalCalls(p, a) && LocalCalls(p, b)
    ensures LocalCalls(p, a + b)
  {
  }

  lemma LocalClose(p: Program, s: seq<Sym>, end: nat)
    requires LocalCalls(p, s)
    ensures LocalCalls(p, Close(s, end))
  {
  }

  lemma LinkLocal(env: Env, d: nat, i: nat, pc: nat, st: Tracked, labels: seq<Label>, reach: bool)
    ensures var e := EmitLink(env, d, i, pc, st, labels, reach); e.Some? ==> LocalCalls(env.p, e.value.code)
    ensures var j := EmitBranch(env, d, st, labels, reach); j.Some? ==> LocalCalls(env.p, j.value)
  {
    hide Intern, Find;
  }

  lemma {:induction false} ChainLocal(env: Env, ds: seq<nat>, i: nat, default: nat, pc: nat, st: Tracked,
                                      labels: seq<Label>, reach: bool)
    requires i <= |ds|
    ensures var e := EmitChain(env, ds, i, default, pc, st, labels, reach); e.Some? ==> LocalCalls(env.p, e.value.code)
    decreases |ds| - i
  {
    hide EmitLink, EmitBranch, LocalCalls;
    LinkLocal(env, if i < |ds| then ds[i] else default, i, pc, st, labels, reach);
    if i < |ds| {
      var e1 := EmitLink(env, ds[i], i, pc, st, labels, reach);
      if e1.Some? {
        var mid := pc + |e1.value.code|;
        ChainLocal(env, ds, i + 1, default, mid, e1.value.st, labels, reach);
        var e2 := EmitChain(env, ds, i + 1, default, mid, e1.value.st, labels, reach);
        if e2.Some? { LocalParts(env.p, e1.value.code, e2.value.code); }
      }
    }
  }

  lemma LeafLocal(env: Env, i: Instr, pc: nat, st: Tracked, labels: seq<Label>, reach: bool)
    requires !i.Block? && !i.Loop? && !i.IfThen? && !i.IfElse?
    ensures var e := EmitInstr(env, i, pc, st, labels, reach); e.Some? ==> LocalCalls(env.p, e.value.code)
  {
    hide EmitChain, EmitBody, Intern, Find;
    if i.BranchTable? {
      var st1 := Consume(st, 1, 0);
      if st1.Some? { ChainLocal(env, i.ds, 0, i.default, pc + 1, st1.value, labels, reach); }
    }
  }

  lemma {:induction false} InstrLocal(env: Env, i: Instr, pc: nat, st: Tracked, labels: seq<Label>, reach: bool)
    ensures var e := EmitInstr(env, i, pc, st, labels, reach); e.Some? ==> LocalCalls(env.p, e.value.code)
    decreases i, 1
  {
    if i.Block? || i.Loop? || i.IfThen? || i.IfElse? {
      if EmitInstr(env, i, pc, st, labels, reach).Some? { NestedLocal(env, i, pc, st, labels, reach); }
    } else {
      LeafLocal(env, i, pc, st, labels, reach);
    }
  }

  lemma {:induction false} NestedLocal(env: Env, i: Instr, pc: nat, st: Tracked, labels: seq<Label>, reach: bool)
    requires (i.Block? || i.Loop? || i.IfThen? || i.IfElse?) && EmitInstr(env, i, pc, st, labels, reach).Some?
    ensures LocalCalls(env.p, EmitInstr(env, i, pc, st, labels, reach).value.code)
    decreases i, 0
  {
    hide EmitBody, Close;
    var live := reach && !st.dead;
    if i.Block? || i.Loop? {
      var base := BlockBase(st, i.np).value;
      var l := if i.Block? then Label(None, base, i.nr) else Label(Some(pc), base, i.np);
      BodyLocal(env, i.body, pc, st, [l] + labels, live);
      var e := EmitBody(env, i.body, pc, st, [l] + labels, live).value;
      LocalClose(env.p, e.code, pc + |e.code|);
    } else {
      var st1 := Consume(st, 1, 0).value;
      var l := Label(None, BlockBase(st1, i.np).value, i.nr);
      BodyLocal(env, i.thn, pc + 1, st1, [l] + labels, live);
      var e1 := EmitBody(env, i.thn, pc + 1, st1, [l] + labels, live).value;
      if i.IfThen? {
        LocalClose(env.p, e1.code, pc + 1 + |e1.code|);
      } else {
        var mid, st2 := pc + 2 + |e1.code|, Tracked(l.base + i.np, false, e1.st.consts);
        BodyLocal(env, i.els, mid, st2, [l] + labels, live);
        var e2 := EmitBody(env, i.els, mid, st2, [l] + labels, live).value;
        LocalClose(env.p, e1.code, mid + |e2.code|);
        LocalClose(env.p, e2.code, mid + |e2.code|);
      }
    }
  }

  lemma {:induction false} BodyLocal(env: Env, b: Body, pc: nat, st: Tracked, labels: seq<Label>, reach: bool)
    ensures var e := EmitBody(env, b, pc, st, labels, reach); e.Some? ==> LocalCalls(env.p, e.value.code)
    decreases b, 0
  {
    hide EmitInstr;
    if b.Seq? {
      InstrLocal(env, b.head, pc, st, labels, reach);
      var e1 := EmitInstr(env, b.head, pc, st, labels, reach);
      if e1.Some? {
        var mid := pc + |e1.value.code|;
        BodyLocal(env, b.tail, mid, e1.value.st, labels, reach);
        var e2 := EmitBody(env, b.tail, mid, e1.value.st, labels, reach);
        if e2.Some? { LocalParts(env.p, e1.value.code, e2.value.code); }
      }
    }
  }
}
