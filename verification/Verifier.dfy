/** The bytecode verifier (verify.cpp): a worklist that gives every reachable pc of a function one operand height. */
module Verifier {
  import opened Words
  import opened Bytecode

  const MAX_U16: nat := 65535

  datatype Flow =
    | Reject
    | Flow(next: int, falls: bool, jump: Option<nat>)  // height after, fallthrough?, branch target inside the function

  /** The operand height an UNWIND leaves, read through the C++ `(int)` cast of its 32-bit operand. */
  function UnwindHeight(f: FuncMeta, b: nat): int {
    var w := b % TWO32;
    (if w < TWO32 / 2 then w else w - TWO32) - f.nParams - f.nLocals
  }

  /** The switch of the verifier: what one instruction at height `h` demands and where it leads. */
  function Check(m: Module, f: FuncMeta, op: CuOp, h: int): Flow {
    match op
    case Const(k) => if k >= |m.consts| then Reject else Flow(h + 1, true, None)
    case LocalGet(x) => if x >= (f.nParams + f.nLocals) % 65536 then Reject else Flow(h + 1, true, None)
    case LocalSet(x) => if h < 1 || x >= (f.nParams + f.nLocals) % 65536 then Reject else Flow(h - 1, true, None)
    case Simple(p) => if h < Pops(p) then Reject else Flow(h - Pops(p) + Pushes(p), true, None)
    case Unwind(_, b) =>
      var d := UnwindHeight(f, b);
      if d < 0 || h < d then Reject else Flow(d, true, None)
    case Br(t) =>
      if t < f.codeOff || t >= f.codeOff + f.codeLen then Reject else Flow(h, false, Some(t - f.codeOff))
    case BrIfNot(t) =>
      if h < 1 || t < f.codeOff || t >= f.codeOff + f.codeLen then Reject
      else Flow(h - 1, true, Some(t - f.codeOff))
    case Call(g) =>
      if g >= |m.funcs| || h < m.funcs[g].nParams then Reject
      else Flow(h - m.funcs[g].nParams + m.funcs[g].nResults, true, None)
    case ReturnCall(g) => if g >= |m.funcs| || h < m.funcs[g].nParams then Reject else Flow(h, false, None)
    case Return => if h < f.nResults then Reject else Flow(h, false, None)
    case EndFunc => if h < f.nResults then Reject else Flow(h, false, None)
    case Unreachable => Flow(h, false, None)
    case CallHost(np, nr, _) => if h < np then Reject else Flow(h - np + nr, true, None)
    case CallIndirect(t) =>
      if h < 1 || t >= |m.typeFp| || h < 1 + m.typeFp[t] % 256 then Reject
      else Flow(h - 1 - m.typeFp[t] % 256 + (m.typeFp[t] / 256) % 256, true, None)
    case Unknown => Reject
  }

  predicate Shaped(m: Module, f: FuncMeta) {
    && f.codeOff + f.codeLen <= |m.code|
    && f.codeLen > 0
    && m.code[f.codeOff + f.codeLen - 1] in {Return, EndFunc}
  }

  function FlowAt(m: Module, f: FuncMeta, rel: nat, h: int): Flow
    requires Shaped(m, f) && rel < f.codeLen
  {
    Check(m, f, m.code[f.codeOff + rel], h)
  }

  /** The height equations at one pc. */
  predicate NodeOk(m: Module, f: FuncMeta, ht: seq<int>, rel: nat)
    requires Shaped(m, f) && |ht| == f.codeLen && rel < f.codeLen
  {
    var fl := FlowAt(m, f, rel, ht[rel]);
    && fl.Flow?
    && (fl.jump.Some? ==> fl.jump.value < f.codeLen && ht[fl.jump.value] == fl.next)
    && (fl.falls ==> rel + 1 < f.codeLen && ht[rel + 1] == fl.next)
  }

  /** A height assignment (-1 for pcs it leaves out) that starts at 0 and satisfies every equation. */
  ghost predicate Closed(m: Module, f: FuncMeta, ht: seq<int>) {
    && Shaped(m, f)
    && |ht| == f.codeLen
    && ht[0] == 0
    && forall r :: 0 <= r < f.codeLen && ht[r] >= 0 ==> NodeOk(m, f, ht, r)
  }

  /** The height `x` occurs at pc `r`, before or after its instruction. */
  predicate Occurs(m: Module, f: FuncMeta, ht: seq<int>, r: nat, x: int)
    requires Shaped(m, f) && |ht| == f.codeLen && r < f.codeLen
  {
    ht[r] >= 0 && (x == ht[r] || (var fl := FlowAt(m, f, r, ht[r]); fl.Flow? && x == fl.next))
  }

  /** `peak` is the greatest height that occurs. */
  ghost predicate Peak(m: Module, f: FuncMeta, ht: seq<int>, peak: int)
    requires Shaped(m, f) && |ht| == f.codeLen
  {
    && (exists r :: 0 <= r < f.codeLen && Occurs(m, f, ht, r, peak))
    && forall r, x :: 0 <= r < f.codeLen && Occurs(m, f, ht, r, x) ==> x <= peak
  }

  /** What acceptance of a function means, without any algorithm. */
  ghost predicate Assignment(m: Module, f: FuncMeta, ht: seq<int>) {
    && Closed(m, f, ht)
    && forall r, x :: 0 <= r < f.codeLen && Occurs(m, f, ht, r, x) ==> f.nParams + f.nLocals + x <= MAX_U16
  }

  ghost predicate FuncAccepted(m: Module, fi: nat)
    requires fi < |m.funcs|
  {
    var f := m.funcs[fi];
    && f.codeOff + f.codeLen <= |m.code|
    && (if f.codeLen == 0 then fi < m.nImports else exists ht :: Assignment(m, f, ht))
  }

  ghost predicate Accepted(m: Module) {
    |m.funcs| > 0 && |m.code| > 0 && forall fi :: 0 <= fi < |m.funcs| ==> FuncAccepted(m, fi)
  }

  /** `a` gives every pc that `ht` visits the same height. */
  ghost predicate Below(ht: seq<int>, a: seq<int>) {
    |ht| == |a| && forall r :: 0 <= r < |ht| && ht[r] >= 0 ==> a[r] == ht[r]
  }

  ghost predicate Least(m: Module, f: FuncMeta, ht: seq<int>) {
    Closed(m, f, ht) && forall a :: Closed(m, f, a) ==> Below(ht, a)
  }

  function Visited(ht: seq<int>): (n: nat)
    ensures n <= |ht|
  {
    if ht == [] then 0 else (if ht[0] >= 0 then 1 else 0) + Visited(ht[1..])
  }

  lemma {:induction false} VisitedUpdate(ht: seq<int>, r: nat, h: int)
    requires r < |ht| && ht[r] < 0 <= h
    ensures Visited(ht[r := h]) == Visited(ht) + 1
  {
    if r > 0 {
      VisitedUpdate(ht[1..], r - 1, h);
      assert ht[r := h][1..] == ht[1..][r - 1 := h];
    } else {
      assert ht[r := h][1..] == ht[1..];
    }
  }

  lemma {:induction false} VisitedNone(n: nat)
    ensures Visited(seq(n, _ => -1)) == 0
  {
    if n > 0 {
      VisitedNone(n - 1);
      assert seq(n, _ => -1)[1..] == seq(n - 1, _ => -1);
    }
  }

  ghost predicate Distinct(s: seq<nat>) {
    forall i, j :: 0 <= i < j < |s| ==> s[i] != s[j]
  }

  /** The verifier's working state: every visited pc is either waiting in `work` or satisfies its equations, and no
      closed assignment disagrees with a height already given. */
  ghost predicate Working(m: Module, f: FuncMeta, ht: seq<int>, work: seq<nat>, cur: set<nat>) {
    && Shaped(m, f)
    && |ht| == f.codeLen
    && ht[0] == 0
    && Distinct(work)
    && (forall w :: w in work ==> w < f.codeLen && ht[w] >= 0)
    && (forall r :: 0 <= r < f.codeLen && ht[r] >= 0 && r !in work && r !in cur ==> NodeOk(m, f, ht, r))
    && (forall a :: Closed(m, f, a) ==> Below(ht, a))
  }

  lemma NodeStable(m: Module, f: FuncMeta, ht: seq<int>, ht': seq<int>, r: nat)
    requires Shaped(m, f) && |ht| == f.codeLen && r < f.codeLen
    requires Below(ht, ht') && ht[r] >= 0 && NodeOk(m, f, ht, r)
    ensures NodeOk(m, f, ht', r)
  {
    hide Check;
    NextNonnegative(m, f, m.code[f.codeOff + r], ht[r]);
  }

  /** The `join` lambda: propagate height `h` to `rel`. */
  method Join(m: Module, f: FuncMeta, ht: seq<int>, work: seq<nat>, rel: nat, h: int, ghost cur: nat)
    returns (ok: bool, ht': seq<int>, work': seq<nat>)
    requires Working(m, f, ht, work, {cur})
    requires h >= 0 && cur < f.codeLen && cur !in work && ht[cur] >= 0
    requires forall a :: Closed(m, f, a) ==> rel < f.codeLen && a[rel] == h
    ensures ok ==> Working(m, f, ht', work', {cur}) && cur !in work' && rel < f.codeLen && ht'[rel] == h
    ensures ok ==> Below(ht, ht') && Visited(ht') + |work| == Visited(ht) + |work'|
    ensures ok ==> forall w :: w in work ==> w in work'
    ensures ok ==> forall r :: 0 <= r < f.codeLen && ht[r] < 0 <= ht'[r] ==> r in work'
    ensures !ok ==> forall a :: !Closed(m, f, a)
  {
    hide NodeOk, FlowAt;
    ht', work' := ht, work;
    if rel >= f.codeLen {
      ok := false;
    } else if ht[rel] < 0 {
      ok := true;
      ht' := ht[rel := h];
      work' := work + [rel];
      VisitedUpdate(ht, rel, h);
      assert Below(ht, ht');
      forall r | 0 <= r < f.codeLen && ht'[r] >= 0 && r !in work' && r != cur
        ensures NodeOk(m, f, ht', r)
      {
        assert rel in work' && r != rel && r !in work;
        NodeStable(m, f, ht, ht', r);
      }
    } else {
      ok := ht[rel] == h;
    }
  }

  /** Every closed assignment must accept the instruction at a pc whose height is already forced. */
  lemma ForcedFlow(m: Module, f: FuncMeta, ht: seq<int>, rel: nat)
    requires Shaped(m, f) && |ht| == f.codeLen && rel < f.codeLen && ht[rel] >= 0
    requires forall a :: Closed(m, f, a) ==> Below(ht, a)
    ensures forall a :: Closed(m, f, a) ==> NodeOk(m, f, a, rel) && a[rel] == ht[rel]
  {
  }

  /** Process one pc taken off the worklist: check its instruction and join its successors. */
  method Visit(m: Module, f: FuncMeta, ht: seq<int>, work: seq<nat>, rel: nat)
    returns (ok: bool, ht': seq<int>, work': seq<nat>, next: int)
    requires Working(m, f, ht, work, {rel}) && rel < f.codeLen && rel !in work && ht[rel] >= 0
    ensures ok ==> Working(m, f, ht', work', {}) && Below(ht, ht')
    ensures ok ==> Visited(ht') + |work| == Visited(ht) + |work'|
    ensures ok ==> FlowAt(m, f, rel, ht[rel]).Flow? && next == FlowAt(m, f, rel, ht[rel]).next && next >= 0
    ensures ok ==> rel !in work' && forall w :: w in work ==> w in work'
    ensures ok ==> forall r :: 0 <= r < f.codeLen && ht[r] < 0 <= ht'[r] ==> r in work'
    ensures !ok ==> forall a :: !Closed(m, f, a)
  {
    hide Check;
    ForcedFlow(m, f, ht, rel);
    ht', work', next := ht, work, 0;
    var fl := FlowAt(m, f, rel, ht[rel]);
    if fl.Reject? {
      return false, ht', work', next;
    }
    NextNonnegative(m, f, m.code[f.codeOff + rel], ht[rel]);
    next := fl.next;
    ok := true;
    if fl.jump.Some? {
      ok, ht', work' := Join(m, f, ht', work', fl.jump.value, next, rel);
    }
    if ok && fl.falls {
      ok, ht', work' := Join(m, f, ht', work', rel + 1, next, rel);
    }
  }

  /** `maxH` is the greatest height that occurs at a pc already processed. */
  ghost predicate PeakSoFar(m: Module, f: FuncMeta, ht: seq<int>, work: seq<nat>, maxH: int) {
    && Shaped(m, f) && |ht| == f.codeLen && maxH >= 0
    && (exists r :: 0 <= r < f.codeLen && Occurs(m, f, ht, r, maxH))
    && forall r, x :: 0 <= r < f.codeLen && r !in work && Occurs(m, f, ht, r, x) ==> x <= maxH
  }

  function Max(a: int, b: int): int { if a > b then a else b }

  /** Processing `rel` raises the peak to its heights before and after. */
  lemma PeakStep(m: Module, f: FuncMeta, ht: seq<int>, work: seq<nat>, maxH: int, rel: nat, ht': seq<int>,
                 work': seq<nat>, next: int)
    requires PeakSoFar(m, f, ht, work + [rel], maxH) && rel < f.codeLen && ht[rel] >= 0
    requires Below(ht, ht') && forall w :: w in work ==> w in work'
    requires forall r :: 0 <= r < f.codeLen && ht[r] < 0 <= ht'[r] ==> r in work'
    requires FlowAt(m, f, rel, ht[rel]).Flow? && next == FlowAt(m, f, rel, ht[rel]).next
    ensures PeakSoFar(m, f, ht', work', Max(Max(maxH, ht[rel]), next))
  {
    hide FlowAt;
    var top := Max(Max(maxH, ht[rel]), next);
    var w: nat :| w < f.codeLen && Occurs(m, f, ht, w, maxH);
    assert Occurs(m, f, ht', w, maxH) && Occurs(m, f, ht', rel, ht[rel]) && Occurs(m, f, ht', rel, next);
    forall r, x | 0 <= r < f.codeLen && r !in work' && Occurs(m, f, ht', r, x)
      ensures x <= top
    {
      if r != rel { assert r !in work + [rel] && Occurs(m, f, ht, r, x); }
    }
  }

  lemma StartState(m: Module, f: FuncMeta, ht: seq<int>)
    requires Shaped(m, f) && |ht| == f.codeLen && ht[0] == 0 && forall r :: 0 < r < f.codeLen ==> ht[r] == -1
    ensures Working(m, f, ht, [0], {}) && PeakSoFar(m, f, ht, [0], 0)
  {
    hide NodeOk, FlowAt;
    assert Occurs(m, f, ht, 0, 0);
  }

  /** The worklist loop: heights are propagated until nothing waits. It fails exactly when the height equations have no
      solution, and otherwise finds the least one. */
  method Solve(m: Module, f: FuncMeta) returns (ok: bool, ht: seq<int>, maxH: int, processed: nat)
    requires Shaped(m, f)
    ensures ok ==> Least(m, f, ht) && maxH >= 0 && Peak(m, f, ht, maxH)
    ensures !ok ==> forall a :: !Closed(m, f, a)
    ensures processed <= f.codeLen
  {
    hide NodeOk, FlowAt, Occurs, Check;
    VisitedNone(f.codeLen);
    var unvisited := seq(f.codeLen, _ => -1);
    VisitedUpdate(unvisited, 0, 0);
    ht := unvisited[0 := 0];
    var work: seq<nat> := [0];
    ok, maxH, processed := true, 0, 0;
    StartState(m, f, ht);
    while work != []
      invariant Working(m, f, ht, work, {}) && PeakSoFar(m, f, ht, work, maxH)
      invariant ok && processed + |work| == Visited(ht)
      decreases f.codeLen - processed
    {
      var rel := work[|work| - 1];
      var h := ht[rel];
      ghost var rest, before := work[..|work| - 1], ht;
      TakeOff(m, f, ht, work);
      work := work[..|work| - 1];
      processed := processed + 1;
      var next;
      ok, ht, work, next := Visit(m, f, ht, work, rel);
      if !ok { return; }
      PeakStep(m, f, before, rest, maxH, rel, ht, work, next);
      maxH := Max(Max(maxH, h), next);
    }
  }

  lemma TakeOff(m: Module, f: FuncMeta, ht: seq<int>, work: seq<nat>)
    requires Working(m, f, ht, work, {}) && work != []
    ensures var rel, rest := work[|work| - 1], work[..|work| - 1];
      work == rest + [rel] && rel < f.codeLen && ht[rel] >= 0 && rel !in rest && Working(m, f, ht, rest, {rel})
  {
    hide NodeOk, Closed;
    var rel, rest := work[|work| - 1], work[..|work| - 1];
    assert work == rest + [rel] && rel in work;
    assert Distinct(rest) && rel !in rest;
    forall r | 0 <= r < f.codeLen && ht[r] >= 0 && r !in rest && r !in {rel}
      ensures NodeOk(m, f, ht, r)
    {
      assert r !in work;
    }
  }

  /** One function: accepted exactly when a height assignment exists, and then the least one is returned together with
      the greatest height it reaches. No pc is processed twice (`processed` counts the pops of the worklist). */
  method VerifyFunc(m: Module, f: FuncMeta) returns (ok: bool, ht: seq<int>, maxStack: nat, processed: nat)
    requires f.codeOff + f.codeLen <= |m.code| && f.codeLen > 0
    ensures ok <==> exists a :: Assignment(m, f, a)
    ensures ok ==> Assignment(m, f, ht) && Least(m, f, ht)
    ensures ok ==> maxStack <= MAX_U16 && Peak(m, f, ht, maxStack - f.nParams - f.nLocals)
    ensures processed <= f.codeLen
  {
    hide NodeOk, FlowAt, Occurs;
    maxStack, processed := 0, 0;
    if m.code[f.codeOff + f.codeLen - 1] !in {Return, EndFunc} {
      return false, [], maxStack, processed;
    }
    var maxH;
    ok, ht, maxH, processed := Solve(m, f);
    if !ok {
      return;
    }
    var maxSp := f.nParams + f.nLocals + maxH;
    forall a | Assignment(m, f, a)
      ensures maxSp <= MAX_U16
    {
      PeakFits(m, f, ht, maxH, a);
    }
    if maxSp > MAX_U16 {
      return false, ht, maxStack, processed;
    }
    maxStack := maxSp;
    assert Assignment(m, f, ht);
  }

  lemma NextNonnegative(m: Module, f: FuncMeta, op: CuOp, h: int)
    requires h >= 0 && Check(m, f, op, h).Flow?
    ensures Check(m, f, op, h).next >= 0
  {
  }

  /** An assignment that fits is at least as tall as the least one. */
  lemma PeakFits(m: Module, f: FuncMeta, ht: seq<int>, peak: int, a: seq<int>)
    requires Least(m, f, ht) && Peak(m, f, ht, peak) && Assignment(m, f, a)
    ensures f.nParams + f.nLocals + peak <= MAX_U16
  {
    var r: nat :| r < f.codeLen && Occurs(m, f, ht, r, peak);
    assert a[r] == ht[r] && Occurs(m, f, a, r, peak);
  }

  /** The least assignment is the only one on the pcs it visits: whatever order a worklist takes, it ends here. */
  lemma LeastUnique(m: Module, f: FuncMeta, a: seq<int>, b: seq<int>)
    requires Least(m, f, a) && Least(m, f, b)
    ensures forall r :: 0 <= r < f.codeLen && (a[r] >= 0 || b[r] >= 0) ==> a[r] == b[r]
  {
    assert Below(a, b) && Below(b, a);
  }

  /** The whole module, with the `max_stack` it records for every function. */
  method VerifyCuop(m: Module) returns (ok: bool, maxStack: seq<nat>)
    ensures ok <==> Accepted(m)
    ensures ok ==> |maxStack| == |m.funcs|
    ensures ok ==> forall fi :: 0 <= fi < |m.funcs| ==> Recorded(m, fi, maxStack[fi])
  {
    maxStack := [];
    if |m.funcs| == 0 || |m.code| == 0 {
      return false, maxStack;
    }
    ok := true;
    while |maxStack| < |m.funcs|
      invariant |maxStack| <= |m.funcs|
      invariant forall fi :: 0 <= fi < |maxStack| ==> FuncAccepted(m, fi) && Recorded(m, fi, maxStack[fi])
    {
      var f := m.funcs[|maxStack|];
      ghost var acceptable := FuncAccepted(m, |maxStack|);
      if f.codeOff + f.codeLen > |m.code| {
        assert !acceptable;
        return false, maxStack;
      }
      if f.codeLen == 0 {
        if |maxStack| >= m.nImports {
          assert !acceptable;
          return false, maxStack;
        }
        maxStack := maxStack + [f.nParams];
      } else {
        var accepted, ht, peak, _ := VerifyFunc(m, f);
        if !accepted {
          assert !acceptable;
          return false, maxStack;
        }
        assert Recorded(m, |maxStack|, peak);
        maxStack := maxStack + [peak];
      }
    }
  }

  /** `max_stack`: parameters, locals and the greatest operand height any reachable instruction sees or leaves. */
  ghost predicate Recorded(m: Module, fi: nat, maxStack: nat)
    requires fi < |m.funcs|
  {
    var f := m.funcs[fi];
    if f.codeLen == 0 then maxStack == f.nParams
    else exists ht :: Least(m, f, ht) && Peak(m, f, ht, maxStack - f.nParams - f.nLocals)
  }
}
