/** Laws of structured control, which say independently of any one instruction's rule how the instructions relate: an
    `if` is one of two blocks, a conditional or table branch is a branch, a branch out of a block is the branch one
    level further out, a loop that branches back never ends. */
module Structured {
  import opened Words
  import opened Bytecode
  import opened Wasm
  import Meaning

  /** `if` takes the block `a` when the low 32 bits of the operand are not zero, else the block `b`; without an else
      arm, `b` is empty. */
  lemma IfIsBlock(p: Program, host: Host, k: Ctx, np: nat, nr: nat, a: Body, b: Body, stk: seq<Word>, c: Word,
                  locals: seq<Word>, s: Store, n: nat)
    requires |stk| >= np
    ensures ExecInstr(p, host, k, IfElse(np, nr, a, b), stk + [c], locals, s, n)
         == ExecInstr(p, host, k, Block(np, nr, if c % 0x1_0000_0000 == 0 then b else a), stk, locals, s, n)
    ensures ExecInstr(p, host, k, IfThen(np, nr, a), stk + [c], locals, s, n)
         == ExecInstr(p, host, k, IfElse(np, nr, a, End), stk + [c], locals, s, n)
  {
    hide Leave;
    TopOperand(stk, c);
    Empty(p, host, Inner(k, nr), Last(stk, np), locals, s, n);
    LeaveNormal(stk, np, locals, s);
  }

  lemma TopOperand(stk: seq<Word>, c: Word)
    ensures Last(stk + [c], 1) == [c] && Wasm.Drop(stk + [c], 1) == stk
  {
  }

  lemma Empty(p: Program, host: Host, k: Ctx, stk: seq<Word>, locals: seq<Word>, s: Store, n: nat)
    ensures ExecBody(p, host, k, End, stk, locals, s, n) == Normal(stk, locals, s)
  {
  }

  lemma LeaveNormal(stk: seq<Word>, np: nat, locals: seq<Word>, s: Store)
    requires np <= |stk|
    ensures Leave(Normal(Last(stk, np), locals, s), Wasm.Drop(stk, np)) == Normal(stk, locals, s)
  {
    Rejoin(stk, np);
  }

  /** br_if branches when the low 32 bits are not zero; br_table to the target its unsigned index selects, or to the
      default. */
  lemma BranchesAreBranches(p: Program, host: Host, k: Ctx, d: nat, ds: seq<nat>, stk: seq<Word>, c: Word,
                            locals: seq<Word>, s: Store, n: nat)
    ensures ExecInstr(p, host, k, BranchIf(d), stk + [c], locals, s, n) ==
      if c % 0x1_0000_0000 == 0 then Normal(stk, locals, s) else ExecInstr(p, host, k, Branch(d), stk, locals, s, n)
    ensures var i := c % 0x1_0000_0000;
      ExecInstr(p, host, k, BranchTable(ds, d), stk + [c], locals, s, n) ==
      ExecInstr(p, host, k, Branch(if i < |ds| then ds[i] else d), stk, locals, s, n)
  {
    hide BranchTo;
    TopOperand(stk, c);
  }

  lemma BlockOnce(p: Program, host: Host, k: Ctx, np: nat, nr: nat, b: Body, stk: seq<Word>, locals: seq<Word>,
                  s: Store, n: nat)
    requires |stk| >= np
    ensures ExecInstr(p, host, k, Block(np, nr, b), stk, locals, s, n) ==
      Leave(ExecBody(p, host, Inner(k, nr), b, Last(stk, np), locals, s, n), Wasm.Drop(stk, np))
  {
    hide ExecBody, Leave;
  }

  /** Branching out of a block delivers as many of its topmost operands as the block has results, on top of what lay
      under it, and skips the rest; a branch to an outer label is the same branch taken outside. */
  lemma BranchLeaves(p: Program, host: Host, k: Ctx, np: nat, nr: nat, d: nat, rest: Body, under: seq<Word>,
                     args: seq<Word>, locals: seq<Word>, s: Store, n: nat)
    requires |args| == np
    ensures nr <= np ==>
      ExecInstr(p, host, k, Block(np, nr, Seq(Branch(0), rest)), under + args, locals, s, n) ==
        Normal(under + args[np - nr..], locals, s)
    ensures d < |k.labels| && k.labels[d] <= np ==>
      ExecInstr(p, host, k, Block(np, nr, Seq(Branch(d + 1), rest)), under + args, locals, s, n) ==
        ExecInstr(p, host, k, Branch(d), under + args, locals, s, n)
  {
    hide ExecInstr, ExecBody;
    var stk, k' := under + args, Inner(k, nr);
    assert Last(stk, np) == args && Wasm.Drop(stk, np) == under;
    BlockOnce(p, host, k, np, nr, Seq(Branch(0), rest), stk, locals, s, n);
    BlockOnce(p, host, k, np, nr, Seq(Branch(d + 1), rest), stk, locals, s, n);
    Branching(p, host, k', 0, rest, args, locals, s, n);
    Branching(p, host, k', d + 1, rest, args, locals, s, n);
    Branching(p, host, k, d, rest, stk, locals, s, n);
    if d < |k.labels| && k.labels[d] <= np {
      assert k'.labels[d + 1] == k.labels[d];
      assert Last(stk, k.labels[d]) == Last(args, k.labels[d]);
    }
  }

  lemma Branching(p: Program, host: Host, k: Ctx, d: nat, rest: Body, stk: seq<Word>, locals: seq<Word>, s: Store,
                  n: nat)
    ensures ExecBody(p, host, k, Seq(Branch(d), rest), stk, locals, s, n) == BranchTo(k, d, stk, locals, s)
    ensures ExecInstr(p, host, k, Branch(d), stk, locals, s, n) == BranchTo(k, d, stk, locals, s)
  {
    hide BranchTo;
    assert ExecInstr(p, host, k, Branch(d), stk, locals, s, n) == BranchTo(k, d, stk, locals, s);
    JumpsOrStuck(k, d, stk, locals, s);
  }

  lemma JumpsOrStuck(k: Ctx, d: nat, stk: seq<Word>, locals: seq<Word>, s: Store)
    ensures !BranchTo(k, d, stk, locals, s).Normal?
  {
  }

  /** A loop that does not branch runs once. */
  lemma LoopRunsOnce(p: Program, host: Host, k: Ctx, np: nat, nr: nat, b: Body, stk: seq<Word>, locals: seq<Word>,
                     s: Store, n: nat)
    requires |stk| >= np && !ExecBody(p, host, Inner(k, np), b, Last(stk, np), locals, s, n).Jump?
    ensures ExecInstr(p, host, k, Loop(np, nr, b), stk, locals, s, n) ==
      Leave(ExecBody(p, host, Inner(k, np), b, Last(stk, np), locals, s, n), Wasm.Drop(stk, np))
  {
    hide ExecBody, ExecInstr, Leave;
    Meaning.LoopOnce(p, host, k, Loop(np, nr, b), stk, locals, s, n);
  }

  lemma JumpHome(k: Ctx, args: seq<Word>, locals: seq<Word>, s: Store)
    ensures BranchTo(Inner(k, |args|), 0, args, locals, s) == Jump(0, args, locals, s)
  {
    assert Last(args, |args|) == args;
  }

  lemma Rejoin(stk: seq<Word>, np: nat)
    requires |stk| >= np
    ensures Wasm.Drop(stk, np) + Last(stk, np) == stk
  {
  }

  /** A loop that branches back at once has no outcome, with any fuel. */
  lemma {:induction false} LoopsBack(p: Program, host: Host, k: Ctx, np: nat, nr: nat, rest: Body, stk: seq<Word>,
                                     locals: seq<Word>, s: Store, n: nat)
    requires |stk| >= np
    ensures ExecInstr(p, host, k, Loop(np, nr, Seq(Branch(0), rest)), stk, locals, s, n) == Timeout
    decreases n
  {
    hide ExecBody, ExecInstr, BranchTo, Leave;
    Meaning.LoopOnce(p, host, k, Loop(np, nr, Seq(Branch(0), rest)), stk, locals, s, n);
    Branching(p, host, Inner(k, np), 0, rest, Last(stk, np), locals, s, n);
    JumpHome(k, Last(stk, np), locals, s);
    Rejoin(stk, np);
    if n > 0 { LoopsBack(p, host, k, np, nr, rest, stk, locals, s, n - 1); }
  }

  /** A call takes the topmost operands as arguments, the last one on top, and leaves the results in their place. */
  lemma CallTakesTop(p: Program, host: Host, k: Ctx, f: nat, under: seq<Word>, args: seq<Word>, locals: seq<Word>,
                     s: Store, n: nat)
    requires f < |p.funcs| && p.funcs[f].Local? && p.funcs[f].ty < |p.types| && |args| == NumParams(p, f) && n > 0
    ensures var o := ExecInstr(p, host, k, Invoke(f), under + args, locals, s, n);
      match ExecFunc(p, host, f, args, s, n - 1)
      case Returned(vs, s') => o == Normal(under + vs, locals, s')
      case other => o == other
  {
    hide ExecFunc;
    assert Last(under + args, |args|) == args && Wasm.Drop(under + args, |args|) == under;
  }

  /** A local holds what was set last, and setting one leaves the others. */
  lemma LocalsHold(p: Program, host: Host, k: Ctx, x: nat, y: nat, stk: seq<Word>, v: Word, locals: seq<Word>, s: Store,
                   n: nat)
    requires x < |locals| && y < |locals|
    ensures var o := ExecInstr(p, host, k, SetLocal(x), stk + [v], locals, s, n);
      o.Normal? && o.stk == stk && o.store == s && |o.locals| == |locals| &&
      ExecInstr(p, host, k, GetLocal(y), stk, o.locals, s, n) ==
        Normal(stk + [if x == y then v else locals[y]], o.locals, s) &&
      ExecInstr(p, host, k, TeeLocal(x), stk + [v], locals, s, n) == Normal(stk + [v], o.locals, s)
  {
    TopOperand(stk, v);
  }
}
