/** Loop-invariant code motion: finding natural loops and emptying them. */
module Licm {
  import opened Ir
  import opened Graph
  import opened Functions
  import opened Dominators
  import opened Semantics
  import opened SsaForm
  import opened Edits
  import opened Verify
  import opened Hoist

  // ------------------------------------------------------------------ equivalence

  ghost predicate AgreesTotal(types: seq<Ty>, code: Code, code': Code, c: Context, world: World, n: nat) {
    c.types == types && TotalMachine(c.m) && Secluded(c, code) ==>
      Secluded(c, code') && Observe(Run(c, code', world, n)) == Observe(Run(c, code, world, n))
  }

  /** On every machine whose only traps are divisions. */
  ghost predicate PreservesTotal(types: seq<Ty>, code: Code, code': Code) {
    forall c: Context, world: World, n: nat {:trigger AgreesTotal(types, code, code', c, world, n)} ::
      AgreesTotal(types, code, code', c, world, n)
  }

  lemma PreservesTotalTransitive(types: seq<Ty>, x: Code, y: Code, z: Code)
    requires PreservesTotal(types, x, y) && PreservesTotal(types, y, z)
    ensures PreservesTotal(types, x, z)
  {
    forall c: Context, world: World, n: nat
      ensures AgreesTotal(types, x, z, c, world, n)
    {
      assert AgreesTotal(types, x, y, c, world, n) && AgreesTotal(types, y, z, c, world, n);
    }
  }

  lemma HoistSecluded(t: Tree, c: Context, code: Code, b: nat, i: nat, d: nat)
    requires Hoistable(t, code, b, i, d) && Secluded(c, code)
    ensures Secluded(c, Hoisted(code, b, i, d))
  {
    var r: Code := Hoisted(code, b, i, d);
    forall x: nat, k: nat | x < |r| && k < |r[x]|
      ensures r[x][k].dst.Some? && r[x][k].dst.value in c.private ==> r[x][k].op == Alloca
      ensures forall v | v in c.private :: !Escapes(r[x][k], v)
    {
      BackIs(t, code, b, i, d, x, k);
    }
  }

  lemma HoistStep(t: Tree, types: seq<Ty>, code: Code, b: nat, i: nat, d: nat)
    requires Hoistable(t, code, b, i, d)
    ensures Ssa(t, Hoisted(code, b, i, d)) && PreservesTotal(types, code, Hoisted(code, b, i, d))
  {
    HoistSsa(t, code, b, i, d);
    forall c: Context, world: World, n: nat
      ensures AgreesTotal(types, code, Hoisted(code, b, i, d), c, world, n)
    {
      if c.types == types && TotalMachine(c.m) && Secluded(c, code) {
        HoistSecluded(t, c, code, b, i, d);
        HoistPreservesRuns(t, c, code, b, i, d, world, n);
      }
    }
  }

  // ------------------------------------------------------------------- natural loops

  /** Reverse postorder: every block but the entry has a predecessor before it. */
  ghost predicate EarlierPreds(t: Tree) {
    && |t.rank| == |t.preds|
    && forall y: nat {:trigger HasEarlier(t, y)} | y < |t.rank| && t.rank[y] > 0 :: HasEarlier(t, y)
  }

  ghost predicate HasEarlier(t: Tree, y: nat)
    requires y < |t.rank| == |t.preds|
  {
    exists q :: q in t.preds[y] && q < |t.rank| && t.rank[q] < t.rank[y]
  }

  lemma AnalysesEarlier(n: Numbering, idom: seq<int>)
    requires Numbered(n)
    ensures EarlierPreds(Tree(n.rank, idom, n.preds))
  {
    var t := Tree(n.rank, idom, n.preds);
    forall y: nat | y < |t.rank| && t.rank[y] > 0
      ensures HasEarlier(t, y)
    {
      assert HasEarlierPred(n, y);
    }
  }

  /** The source of a back edge: a predecessor of the header that it dominates. */
  ghost predicate Tail(t: Tree, header: nat, q: nat)
    requires header < |t.preds|
  {
    q in t.preds[header] && Anc(t.rank, t.idom, header, q)
  }

  /** A path from `y` to a tail that does not pass the header. */
  ghost predicate ToTail(t: Tree, header: nat, path: seq<nat>, y: nat)
    requires header < |t.preds|
  {
    && |path| > 0 && path[0] == y && header !in path && Tail(t, header, path[|path| - 1])
    && forall k: nat {:trigger Step(t, path, k)} | k + 1 < |path| :: Step(t, path, k)
  }

  ghost predicate Step(t: Tree, path: seq<nat>, k: nat)
    requires k + 1 < |path|
  {
    path[k + 1] < |t.preds| && path[k] in t.preds[path[k + 1]]
  }

  ghost predicate ReachesTail(t: Tree, header: nat, y: nat)
    requires header < |t.preds|
  {
    exists path :: ToTail(t, header, path, y)
  }

  /** The natural loop of a header: the header, and what reaches a tail without passing it. */
  ghost predicate NaturalLoop(t: Tree, header: nat, inLoop: seq<bool>)
    requires header < |t.preds|
  {
    |inLoop| == |t.preds| && forall y: nat {:trigger ReachesTail(t, header, y)} | y < |inLoop| ::
      inLoop[y] <==> y == header || ReachesTail(t, header, y)
  }

  lemma TailReaches(t: Tree, header: nat, q: nat)
    requires header < |t.preds| && Tail(t, header, q) && q != header
    ensures ReachesTail(t, header, q)
  {
    assert ToTail(t, header, [q], q);
  }

  lemma PredReaches(t: Tree, header: nat, y: nat, q: nat)
    requires header < |t.preds| && y < |t.preds| && q in t.preds[y] && q != header && ReachesTail(t, header, y)
    ensures ReachesTail(t, header, q)
  {
    var path :| ToTail(t, header, path, y);
    var longer := [q] + path;
    forall k: nat | k + 1 < |longer|
      ensures Step(t, longer, k)
    {
      assert k > 0 ==> Step(t, path, k - 1);
    }
    assert ToTail(t, header, longer, q);
  }

  /** The header and what has been found to reach a tail without passing it. `pending`
      are the blocks whose predecessors are still to be looked at. */
  ghost predicate LoopSoFar(t: Tree, header: nat, inLoop: seq<bool>, pending: seq<nat>) {
    match t
    case Tree(rank, idom, preds) =>
      && |inLoop| == |rank| == |preds| && header < |inLoop| && inLoop[header] && rank[header] >= 0
      && (forall y: nat {:trigger Under(t, header, y)} | y < |inLoop| && inLoop[y] :: Under(t, header, y))
      && (forall y: nat {:trigger ReachesTail(t, header, y)} | y < |inLoop| && inLoop[y] && y != header ::
          ReachesTail(t, header, y))
      && (forall y {:trigger y in pending} | y in pending :: y < |inLoop| && inLoop[y] && y != header)
      && (forall y: nat, q: nat {:trigger q in preds[y]} | y < |inLoop| && inLoop[y] && y != header &&
          y !in pending && q in preds[y] ::
            q < |inLoop| && inLoop[q])
  }

  ghost predicate Under(t: Tree, header: nat, y: nat) {
    y < |t.rank| && t.rank[y] >= 0 && Anc(t.rank, t.idom, header, y)
  }

  ghost predicate LoopBody(t: Tree, header: nat, inLoop: seq<bool>) {
    LoopSoFar(t, header, inLoop, [])
  }

  /** A predecessor of a block of the loop is dominated by the header too. */
  lemma PredBelowHeader(t: Tree, code: Code, header: nat, y: nat, q: nat)
    requires TreeOf(t, code) && y < |code| && t.rank[y] >= 0 && y != header
    requires Anc(t.rank, t.idom, header, y) && q in t.preds[y]
    ensures q < |code| && t.rank[q] >= 0 && Anc(t.rank, t.idom, header, q)
  {
    assert EdgeInTree(t, code, q, y);
    AncTransitive(t.rank, t.idom, header, t.idom[y], q);
  }

  ghost predicate Includes(more: seq<bool>, marks: seq<bool>) {
    |more| == |marks| && forall y: nat {:trigger StaysMarked(more, marks, y)} | y < |marks| ::
      StaysMarked(more, marks, y)
  }

  ghost predicate StaysMarked(more: seq<bool>, marks: seq<bool>, y: nat)
    requires y < |more| == |marks|
  {
    marks[y] ==> more[y]
  }

  lemma IncludesMore(more: seq<bool>, marks: seq<bool>, even: seq<bool>)
    requires Includes(more, marks) && Includes(even, more)
    ensures Includes(even, marks)
  {
    forall y: nat | y < |marks|
      ensures StaysMarked(even, marks, y)
    {
      assert StaysMarked(more, marks, y) && StaysMarked(even, more, y);
    }
  }

  lemma IncludesMarked(marks: seq<bool>, y: nat)
    requires y < |marks|
    ensures Includes(marks[y := true], marks)
  {
  }

  /** Mark the predecessors of one block that are not marked yet. */
  method MarkPreds(f: Function, ghost t: Tree, header: nat, block: nat, marks: seq<bool>, pending: seq<nat>)
    returns (inLoop: seq<bool>, stack: seq<nat>)
    requires t == TreeFor(f) && TreeOf(t, f.code)
    requires LoopSoFar(t, header, marks, pending + [block])
    ensures LoopSoFar(t, header, inLoop, stack) && Includes(inLoop, marks)
    ensures Unmarked(inLoop) < Unmarked(marks) || (Unmarked(inLoop) == Unmarked(marks) && stack == pending)
  {
    inLoop, stack := marks, pending;
    assert block in pending + [block];
    for i: nat := 0 to |f.preds[block]|
      invariant LoopSoFar(t, header, inLoop, stack + [block]) && Includes(inLoop, marks)
      invariant PredsMarked(t, block, i, inLoop)
      invariant Unmarked(inLoop) < Unmarked(marks) || (Unmarked(inLoop) == Unmarked(marks) && stack == pending)
    {
      var pred := f.preds[block][i];
      PredIsBlock(t, f.code, header, inLoop, stack, block, i);
      if !inLoop[pred] {
        MarkPred(t, f.code, header, inLoop, stack, block, i, marks);
        inLoop := inLoop[pred := true];
        stack := stack + [pred];
      }
    }
    Finished(t, header, inLoop, stack, block);
  }

  ghost predicate PredsMarked(t: Tree, block: nat, n: nat, inLoop: seq<bool>) {
    match t
    case Tree(_, _, preds) =>
      block < |preds| && n <= |preds[block]| && forall j | 0 <= j < n ::
        preds[block][j] < |inLoop| && inLoop[preds[block][j]]
  }

  lemma PredIsBlock(t: Tree, code: Code, header: nat, inLoop: seq<bool>, stack: seq<nat>, block: nat, i: nat)
    requires TreeOf(t, code) && LoopSoFar(t, header, inLoop, stack + [block])
    requires block < |t.preds| && i < |t.preds[block]|
    ensures t.preds[block][i] < |inLoop| == |code| && t.rank[t.preds[block][i]] >= 0
    ensures Anc(t.rank, t.idom, header, t.preds[block][i])
  {
    assert block in stack + [block];
    assert Under(t, header, block);
    assert t.preds[block][i] in t.preds[block];
    PredBelowHeader(t, code, header, block, t.preds[block][i]);
  }

  lemma MarkPred(t: Tree, code: Code, header: nat, inLoop: seq<bool>, stack: seq<nat>, block: nat, i: nat,
      marks: seq<bool>)
    requires TreeOf(t, code) && LoopSoFar(t, header, inLoop, stack + [block]) && Includes(inLoop, marks)
    requires block < |t.preds| && i < |t.preds[block]| && t.preds[block][i] < |inLoop| && !inLoop[t.preds[block][i]]
    ensures var pred := t.preds[block][i];
            && LoopSoFar(t, header, inLoop[pred := true], stack + [pred] + [block])
            && Includes(inLoop[pred := true], marks) && Includes(inLoop[pred := true], inLoop)
            && Unmarked(inLoop[pred := true]) == Unmarked(inLoop) - 1
  {
    var pred := t.preds[block][i];
    MarkOne(inLoop, pred);
    PredIsBlock(t, code, header, inLoop, stack, block, i);
    assert block in stack + [block] && ReachesTail(t, header, block);
    PredReaches(t, header, block, pred);
    MarkKeeps(t, code, header, inLoop, stack, block, pred);
    IncludesMarked(inLoop, pred);
    IncludesMore(inLoop, marks, inLoop[pred := true]);
  }

  lemma MarkKeeps(t: Tree, code: Code, header: nat, inLoop: seq<bool>, stack: seq<nat>, block: nat, pred: nat)
    requires LoopSoFar(t, header, inLoop, stack + [block]) && pred < |inLoop| && !inLoop[pred]
    requires t.rank[pred] >= 0 && Anc(t.rank, t.idom, header, pred) && ReachesTail(t, header, pred)
    ensures LoopSoFar(t, header, inLoop[pred := true], stack + [pred] + [block])
  {
    forall y | y in stack + [pred] + [block]
      ensures y in stack + [block] || y == pred
    {
    }
    forall y | y in stack + [block]
      ensures y in stack + [pred] + [block]
    {
    }
    assert pred in stack + [pred] + [block];
    assert Under(t, header, pred);
    assert pred != header;
  }

  lemma Finished(t: Tree, header: nat, inLoop: seq<bool>, stack: seq<nat>, block: nat)
    requires LoopSoFar(t, header, inLoop, stack + [block]) && block < |t.preds|
    requires PredsMarked(t, block, |t.preds[block]|, inLoop)
    ensures LoopSoFar(t, header, inLoop, stack)
  {
    assert forall y | y in stack :: y in stack + [block];
    assert forall y | y in stack + [block] :: y in stack || y == block;
  }

  /** Add the loop of the back edge from `tail`. */
  method CollectLoop(f: Function, ghost t: Tree, header: nat, tail: nat, marks: seq<bool>) returns (inLoop: seq<bool>)
    requires t == TreeFor(f) && TreeOf(t, f.code) && header < |f.code| == |marks| && t.rank[header] >= 0
    requires tail < |f.code| && t.rank[tail] >= 0 && Tail(t, header, tail)
    requires marks == seq(|marks|, _ => false) || LoopBody(t, header, marks)
    ensures LoopBody(t, header, inLoop) && Includes(inLoop, marks) && inLoop[tail]
  {
    inLoop := marks[header := true];
    var stack: seq<nat> := [];
    if tail != header {
      inLoop := inLoop[tail := true];
      stack := [tail];
    }
    ghost var began := inLoop;
    BeginLoop(t, header, tail, marks, began);
    while |stack| > 0
      invariant LoopSoFar(t, header, inLoop, stack) && Includes(inLoop, began)
      decreases Unmarked(inLoop), |stack|
    {
      var block := stack[|stack| - 1];
      var rest := stack[..|stack| - 1];
      assert stack == rest + [block];
      ghost var was := inLoop;
      inLoop, stack := MarkPreds(f, t, header, block, inLoop, rest);
      IncludesMore(was, began, inLoop);
    }
    IncludesMore(began, marks, inLoop);
    assert StaysMarked(inLoop, began, tail);
  }

  /** The header and the tail are marked. */
  lemma BeginLoop(t: Tree, header: nat, tail: nat, marks: seq<bool>, began: seq<bool>)
    requires header < |marks| == |t.rank| == |t.preds| && tail < |marks| && t.rank[header] >= 0 && t.rank[tail] >= 0
    requires Tail(t, header, tail) && began == marks[header := true][tail := true]
    requires marks == seq(|marks|, _ => false) || LoopBody(t, header, marks)
    ensures LoopSoFar(t, header, began, if tail == header then [] else [tail]) && Includes(began, marks)
  {
    if tail != header {
      TailReaches(t, header, tail);
    }
    assert Under(t, header, header) && Under(t, header, tail);
    IncludesMarked(marks, header);
    IncludesMarked(marks[header := true], tail);
    IncludesMore(marks[header := true], marks, began);
  }

  /** What reaches a tail is in the loop, if the tails are. */
  lemma {:induction false} ReachingIsInLoop(t: Tree, header: nat, inLoop: seq<bool>, path: seq<nat>, y: nat)
    requires LoopBody(t, header, inLoop) && ToTail(t, header, path, y)
    requires forall q: nat {:trigger Tail(t, header, q)} | Tail(t, header, q) :: q < |inLoop| && inLoop[q]
    ensures y < |inLoop| && inLoop[y]
    decreases |path|
  {
    if |path| > 1 {
      assert Step(t, path, 0);
      forall k: nat | k + 1 < |path[1..]|
        ensures Step(t, path[1..], k)
      {
        assert Step(t, path, k + 1);
      }
      ReachingIsInLoop(t, header, inLoop, path[1..], path[1]);
    }
  }

  lemma BodyIsNatural(t: Tree, header: nat, inLoop: seq<bool>)
    requires LoopBody(t, header, inLoop)
    requires forall q: nat {:trigger Tail(t, header, q)} | Tail(t, header, q) :: q < |inLoop| && inLoop[q]
    ensures NaturalLoop(t, header, inLoop)
  {
    forall y: nat | y < |inLoop| && ReachesTail(t, header, y)
      ensures inLoop[y]
    {
      var path :| ToTail(t, header, path, y);
      ReachingIsInLoop(t, header, inLoop, path, y);
    }
  }

  /** Whatever lies between the header and a block of the loop, in the dominator tree, is
      in the loop. */
  lemma {:induction false} ChainInLoop(t: Tree, code: Code, header: nat, inLoop: seq<bool>, y: nat, x: nat)
    requires TreeOf(t, code) && EarlierPreds(t) && LoopBody(t, header, inLoop)
    requires y < |inLoop| && inLoop[y]
    requires Anc(t.rank, t.idom, header, x) && Anc(t.rank, t.idom, x, y)
    ensures x < |inLoop| && inLoop[x]
    decreases t.rank[y]
  {
    assert Under(t, header, y);
    if x != y {
      AncRank(t.rank, t.idom, x, y);
      AncRank(t.rank, t.idom, header, x);
      assert y != 0;
      assert HasParent(t.rank, t.idom, y);
      assert HasEarlier(t, y);
      var q :| q in t.preds[y] && q < |t.rank| && t.rank[q] < t.rank[y];
      assert EdgeInTree(t, code, q, y);
      ChainInLoop(t, code, header, inLoop, q, t.idom[y]);
      ChainInLoop(t, code, header, inLoop, t.idom[y], x);
    }
  }

  // ---------------------------------------------------------------------- hoisting

  /** The header's immediate dominator is outside. */
  lemma ParentOutside(t: Tree, code: Code, header: nat, inLoop: seq<bool>)
    requires TreeOf(t, code) && LoopBody(t, header, inLoop) && header != 0
    ensures HasParent(t.rank, t.idom, header) && !inLoop[t.idom[header]]
  {
    assert HasParent(t.rank, t.idom, header);
    if inLoop[t.idom[header]] {
      assert Under(t, header, t.idom[header]);
      AncRank(t.rank, t.idom, header, t.idom[header]);
    }
  }

  /** Nothing that defines the value lives inside the loop. */
  ghost predicate Outside(code: Code, inLoop: seq<bool>, v: nat) {
    forall a: nat, j: nat {:trigger DefinedAt(code, v, a, j)} | DefinedAt(code, v, a, j) && a < |inLoop| :: !inLoop[a]
  }

  ghost predicate Movable(code: Code, inLoop: seq<bool>, i: Instr) {
    Safe(i) && forall k | 0 <= k < |i.args| :: Outside(code, inLoop, i.args[k])
  }

  method DefinedOutside(f: Function, v: nat, inLoop: seq<bool>) returns (r: bool)
    requires UniqueDefs(f.code) && |inLoop| == |f.code|
    ensures r <==> Outside(f.code, inLoop, v)
  {
    var a, j, found := FindDef(f.code, v);
    if !found {
      return true;
    }
    assert DefinedAt(f.code, v, a, j);
    r := !inLoop[a];
  }

  method IsMovable(f: Function, ins: Instr, inLoop: seq<bool>) returns (r: bool)
    requires UniqueDefs(f.code) && |inLoop| == |f.code|
    ensures r <==> Movable(f.code, inLoop, ins)
  {
    if !Safe(ins) {
      return false;
    }
    for k: nat := 0 to |ins.args|
      invariant forall j | 0 <= j < k :: Outside(f.code, inLoop, ins.args[j])
    {
      var outside := DefinedOutside(f, ins.args[k], inLoop);
      if !outside {
        return false;
      }
    }
    r := true;
  }

  /** A value from outside the loop, in scope within it, is available at the end of the
      header's immediate dominator. */
  lemma OutsideIsAbove(t: Tree, code: Code, header: nat, inLoop: seq<bool>, b: nat, i: nat, u: nat)
    requires Ssa(t, code) && EarlierPreds(t) && LoopBody(t, header, inLoop) && HasParent(t.rank, t.idom, header)
    requires b < |code| && inLoop[b] && i <= |code[b]| && u in ScopeAt(t, code, b, i) && Outside(code, inLoop, u)
    ensures t.idom[header] < |code| && u in ScopeOut(t, code, t.idom[header])
  {
    assert Under(t, header, b);
    var a, j := InScopeSite(t, code, b, i, u);
    assert a != b;
    AncRank(t.rank, t.idom, a, b);
    if t.rank[a] <= t.rank[header] {
      AncLinear(t.rank, t.idom, a, header, b);
      assert a != header;
      assert Anc(t.rank, t.idom, a, t.idom[header]);
      assert u in Defs(code[a]);
      if a != t.idom[header] {
        ScopeAnc(t, code, a, t.idom[header]);
      }
    } else {
      AncLinear(t.rank, t.idom, header, a, b);
      ChainInLoop(t, code, header, inLoop, b, a);
    }
  }

  lemma MovableIsHoistable(t: Tree, code: Code, header: nat, inLoop: seq<bool>, b: nat, i: nat)
    requires Ssa(t, code) && EarlierPreds(t) && LoopBody(t, header, inLoop) && HasParent(t.rank, t.idom, header)
    requires t.idom[header] < |inLoop| && !inLoop[t.idom[header]]
    requires b < |code| && inLoop[b] && i < |code[b]| && Movable(code, inLoop, code[b][i])
    ensures Hoistable(t, code, b, i, t.idom[header])
  {
    var d: nat := t.idom[header];
    assert Under(t, header, b) && Under(t, header, header);
    assert Anc(t.rank, t.idom, d, header);
    AncTransitive(t.rank, t.idom, d, header, b);
    assert BlockOk(t, code, b);
    assert InstrOk(t, code, b, i);
    assert UseInScope(t, code, b, i);
    assert BlockOk(t, code, d);
    forall k | 0 <= k < |code[b][i].args|
      ensures code[b][i].args[k] in ScopeOut(t, code, d)
    {
      OutsideIsAbove(t, code, header, inLoop, b, i, code[b][i].args[k]);
    }
  }

  /** How many instructions the first `n` blocks hold that are in the loop. */
  function LoopSize(code: Code, inLoop: seq<bool>, n: nat): nat
    requires n <= |code| == |inLoop|
  {
    if n == 0 then 0 else LoopSize(code, inLoop, n - 1) + (if inLoop[n - 1] then |code[n - 1]| else 0)
  }

  lemma {:induction false} LoopSizeDrops(x: Code, y: Code, inLoop: seq<bool>, b: nat, n: nat)
    requires |x| == |y| == |inLoop| && n <= |x| && b < |x| && inLoop[b] && |y[b]| < |x[b]|
    requires forall a | 0 <= a < |x| && a != b && inLoop[a] :: |y[a]| == |x[a]|
    ensures LoopSize(y, inLoop, n) <= LoopSize(x, inLoop, n)
    ensures b < n ==> LoopSize(y, inLoop, n) < LoopSize(x, inLoop, n)
    decreases n
  {
    if n > 0 {
      LoopSizeDrops(x, y, inLoop, b, n - 1);
    }
  }

  /** The body while a loop is being emptied. */
  ghost predicate Emptying(t: Tree, types: seq<Ty>, start: Code, code: Code, header: nat, inLoop: seq<bool>,
      changes: nat) {
    match t
    case Tree(rank, idom, _) =>
      && Ssa(t, code) && EarlierPreds(t) && LoopBody(t, header, inLoop) && HasParent(rank, idom, header)
      && idom[header] < |inLoop| && !inLoop[idom[header]]
      && |start| == |code| == |inLoop| && PreservesTotal(types, start, code)
      && LoopSize(code, inLoop, |code|) + changes <= LoopSize(start, inLoop, |start|)
      && (if changes == 0 then code == start else !StuckBelow(start, inLoop, |start|))
  }

  lemma MoveOne(t: Tree, types: seq<Ty>, start: Code, code: Code, header: nat, inLoop: seq<bool>, changes: nat,
      b: nat, i: nat)
    requires Emptying(t, types, start, code, header, inLoop, changes)
    requires b < |code| && inLoop[b] && i < |code[b]| && Movable(code, inLoop, code[b][i])
    ensures var d := t.idom[header];
            && Hoistable(t, code, b, i, d)
            && Emptying(t, types, start, Hoisted(code, b, i, d), header, inLoop, changes + 1)
            && |Hoisted(code, b, i, d)[b]| == |code[b]| - 1
  {
    var d: nat := t.idom[header];
    MovableIsHoistable(t, code, header, inLoop, b, i);
    HoistStep(t, types, code, b, i, d);
    PreservesTotalTransitive(types, start, code, Hoisted(code, b, i, d));
    LoopSizeDrops(code, Hoisted(code, b, i, d), inLoop, b, |code|);
    assert StuckBelow(code, inLoop, |code|) ==> StuckBlock(code, inLoop, b);
  }

  ghost predicate Stuck(code: Code, inLoop: seq<bool>, b: nat, n: nat)
    requires b < |code| && n <= |code[b]|
  {
    forall i {:trigger Movable(code, inLoop, code[b][i])} | 0 <= i < n :: !Movable(code, inLoop, code[b][i])
  }

  /** Nothing left in the first `n` blocks of the loop can move. */
  ghost predicate StuckBelow(code: Code, inLoop: seq<bool>, n: nat)
    requires n <= |code| == |inLoop|
  {
    forall b: nat {:trigger StuckBlock(code, inLoop, b)} | b < n && inLoop[b] :: StuckBlock(code, inLoop, b)
  }

  /** Unless something moved, the body is as it was, and nothing in those blocks can. */
  ghost predicate NoneMoved(t: Tree, was: Code, now: Code, inLoop: seq<bool>, n: nat, moved: nat) {
    match t
    case Tree(_, _, _) => |now| == |inLoop| && n <= |now| && (moved == 0 ==> now == was && StuckBelow(now, inLoop, n))
  }

  /** The same, part of the way through a block. */
  ghost predicate NoneMovedHere(t: Tree, was: Code, now: Code, inLoop: seq<bool>, b: nat, i: nat, moved: nat) {
    match t
    case Tree(_, _, _) =>
      |now| == |was| && b < |now| && i <= |now[b]| && (moved == 0 ==> now == was && Stuck(now, inLoop, b, i))
  }

  lemma NoneMovedStep(t: Tree, was: Code, mid: Code, now: Code, inLoop: seq<bool>, b: nat, i: nat, moved: nat,
      hoisted: bool)
    requires NoneMovedHere(t, was, mid, inLoop, b, i, moved) && b < |mid| == |now| && i < |mid[b]|
    requires if hoisted then |now[b]| == |mid[b]| - 1 else now == mid && !Movable(now, inLoop, now[b][i])
    ensures if hoisted then NoneMovedHere(t, was, now, inLoop, b, i, moved + 1)
            else NoneMovedHere(t, was, now, inLoop, b, i + 1, moved)
  {
  }

  lemma NoneMovedNext(t: Tree, was: Code, mid: Code, now: Code, inLoop: seq<bool>, b: nat, moved: nat, more: nat)
    requires NoneMoved(t, was, mid, inLoop, b, moved) && b < |mid| == |now|
    requires more == 0 ==> now == mid && (inLoop[b] ==> StuckBlock(now, inLoop, b))
    ensures NoneMoved(t, was, now, inLoop, b + 1, moved + more)
  {
  }

  ghost predicate StuckBlock(code: Code, inLoop: seq<bool>, b: nat)
    requires b < |code|
  {
    Stuck(code, inLoop, b, |code[b]|)
  }

  /** Unlink one instruction and link it in front of another block's terminator. */
  method MoveBefore(f: Function, b: nat, i: nat, d: nat)
    requires b < |f.code| && i < |f.code[b]| && d < |f.code| && b != d && |f.code[d]| > 0
    modifies f`code
    ensures f.code == Hoisted(old(f.code), b, i, d)
  {
    HoistedIs(f.code, b, i, d);
    var moved := f.code[b][i];
    Remove(f, b, i);
    var n := |f.code[d]| - 1;
    f.code := f.code[d := f.code[d][..n] + [moved, f.code[d][n]]];
  }

  method TryHoist(f: Function, ghost t: Tree, ghost start: Code, header: nat, inLoop: seq<bool>, b: nat, i: nat,
      ghost before: nat)
    returns (hoisted: bool)
    requires t == TreeFor(f) && Emptying(t, f.types, start, f.code, header, inLoop, before)
    requires b < |f.code| && b < |inLoop| && inLoop[b] && i < |f.code[b]|
    modifies f`code
    ensures |f.code| == |old(f.code)|
    ensures Emptying(t, f.types, start, f.code, header, inLoop, before + if hoisted then 1 else 0)
    ensures hoisted ==> |f.code[b]| == |old(f.code)[b]| - 1
    ensures !hoisted ==> f.code == old(f.code) && !Movable(f.code, inLoop, f.code[b][i])
  {
    hoisted := IsMovable(f, f.code[b][i], inLoop);
    if hoisted {
      MoveOne(t, f.types, start, f.code, header, inLoop, before, b, i);
      MoveBefore(f, b, i, f.idom[header]);
    }
  }

  method HoistFromBlock(f: Function, ghost t: Tree, ghost start: Code, header: nat, inLoop: seq<bool>, b: nat,
      before: nat)
    returns (moved: nat)
    requires t == TreeFor(f) && Emptying(t, f.types, start, f.code, header, inLoop, before)
    requires b < |f.code| && b < |inLoop| && inLoop[b]
    modifies f`code
    ensures |f.code| == |old(f.code)|
    ensures Emptying(t, f.types, start, f.code, header, inLoop, before + moved)
    ensures moved == 0 ==> f.code == old(f.code) && StuckBlock(f.code, inLoop, b)
  {
    var i: nat := 0;
    moved := 0;
    while i < |f.code[b]|
      invariant b < |f.code|
      invariant Emptying(t, f.types, start, f.code, header, inLoop, before + moved)
      invariant NoneMovedHere(t, old(f.code), f.code, inLoop, b, i, moved)
      decreases |f.code[b]| - i
    {
      ghost var mid := f.code;
      var hoisted := TryHoist(f, t, start, header, inLoop, b, i, before + moved);
      NoneMovedStep(t, old(f.code), mid, f.code, inLoop, b, i, moved, hoisted);
      if hoisted {
        moved := moved + 1;
      } else {
        i := i + 1;
      }
    }
  }

  method HoistRound(f: Function, ghost t: Tree, ghost start: Code, header: nat, inLoop: seq<bool>, before: nat)
    returns (moved: nat)
    requires t == TreeFor(f) && Emptying(t, f.types, start, f.code, header, inLoop, before)
    modifies f`code
    ensures Emptying(t, f.types, start, f.code, header, inLoop, before + moved)
    ensures NoneMoved(t, old(f.code), f.code, inLoop, |inLoop|, moved)
  {
    moved := 0;
    for b: nat := 0 to |inLoop|
      invariant Emptying(t, f.types, start, f.code, header, inLoop, before + moved)
      invariant NoneMoved(t, old(f.code), f.code, inLoop, b, moved)
    {
      ghost var mid := f.code;
      var more := 0;
      if f.rpoIndex[b] >= 0 && inLoop[b] {
        more := HoistFromBlock(f, t, start, header, inLoop, b, before + moved);
      } else {
        InLoopReachable(t, f.types, start, f.code, header, inLoop, before + moved, b);
      }
      NoneMovedNext(t, old(f.code), mid, f.code, inLoop, b, moved, more);
      moved := moved + more;
    }
  }

  lemma InLoopReachable(t: Tree, types: seq<Ty>, start: Code, code: Code, header: nat, inLoop: seq<bool>,
      changes: nat, b: nat)
    requires Emptying(t, types, start, code, header, inLoop, changes) && b < |inLoop|
    ensures b < |t.rank| && (inLoop[b] ==> t.rank[b] >= 0)
  {
    assert inLoop[b] ==> Under(t, header, b);
  }

  /** Empty one loop: rounds until nothing in it can move. */
  method HoistFromLoop(f: Function, ghost t: Tree, header: nat, inLoop: seq<bool>) returns (changes: nat)
    requires t == TreeFor(f) && Ssa(t, f.code) && EarlierPreds(t) && LoopBody(t, header, inLoop)
    modifies f`code
    ensures Ssa(t, f.code) && |f.code| == |old(f.code)| == |inLoop| && PreservesTotal(f.types, old(f.code), f.code)
    ensures header != 0 ==> StuckBelow(f.code, inLoop, |f.code|)
    ensures changes == 0 <==> header == 0 || StuckBelow(old(f.code), inLoop, |old(f.code)|)
    ensures changes == 0 ==> f.code == old(f.code)
  {
    ghost var start := f.code;
    assert PreservesTotal(f.types, start, start);
    var target := f.idom[header];
    changes := 0;
    if header != 0 {
      ParentOutside(t, f.code, header, inLoop);
    }
    if target < 0 || inLoop[target] {
      return;
    }
    assert BlockOk(t, f.code, target);
    if !HasTerminator(f.code[target]) {
      return;
    }
    var movedThisRound := 1;
    while movedThisRound > 0
      invariant 0 <= movedThisRound && t == TreeFor(f) && |f.code| == |start|
      invariant Emptying(t, f.types, start, f.code, header, inLoop, changes)
      invariant movedThisRound == 0 ==> StuckBelow(f.code, inLoop, |inLoop|)
      decreases LoopSize(start, inLoop, |start|) - changes, movedThisRound
    {
      movedThisRound := HoistRound(f, t, start, header, inLoop, changes);
      changes := changes + movedThisRound;
    }
  }

  /** The loop of one header: all its back edges together. */
  method LoopOf(f: Function, ghost t: Tree, header: nat) returns (inLoop: seq<bool>, hasBackEdge: bool)
    requires t == TreeFor(f) && TreeOf(t, f.code) && header < |f.code| && t.rank[header] >= 0
    ensures hasBackEdge ==> LoopBody(t, header, inLoop) && NaturalLoop(t, header, inLoop)
    ensures hasBackEdge <==> HasTail(t, header)
  {
    inLoop := seq(|f.code|, _ => false);
    hasBackEdge := false;
    WalkableTree(t, f.code);
    for i: nat := 0 to |f.preds[header]|
      invariant |inLoop| == |f.code| && LoopUpTo(t, header, inLoop, hasBackEdge, i)
    {
      var pred := f.preds[header][i];
      PredReachable(t, f.code, header, pred);
      var back := WalksTo(f, header, pred);
      ghost var was, had := inLoop, hasBackEdge;
      if f.rpoIndex[pred] >= 0 && back {
        assert Tail(t, header, pred);
        inLoop := CollectLoop(f, t, header, pred, inLoop);
        hasBackEdge := true;
      }
      OneMorePred(t, header, was, had, inLoop, i);
    }
    LoopComplete(t, header, inLoop, hasBackEdge);
  }

  lemma PredReachable(t: Tree, code: Code, header: nat, pred: nat)
    requires TreeOf(t, code) && header < |t.preds| && pred in t.preds[header]
    ensures pred < |code| && t.rank[pred] >= 0
  {
    assert EdgeInTree(t, code, pred, header);
  }

  /** The back edges among the first `n` predecessors have been collected. */
  ghost predicate LoopUpTo(t: Tree, header: nat, inLoop: seq<bool>, hasBackEdge: bool, n: nat) {
    match t
    case Tree(_, _, preds) =>
      && header < |preds| && n <= |preds[header]|
      && (if hasBackEdge then LoopBody(t, header, inLoop) else inLoop == seq(|inLoop|, _ => false))
      && (hasBackEdge <==> exists j: nat :: j < n && Tail(t, header, preds[header][j]))
      && (forall j: nat {:trigger Collected(t, header, inLoop, j)} | j < n :: Collected(t, header, inLoop, j))
  }

  ghost predicate Collected(t: Tree, header: nat, inLoop: seq<bool>, j: nat)
    requires header < |t.preds| && j < |t.preds[header]|
  {
    var q := t.preds[header][j];
    Tail(t, header, q) ==> q < |inLoop| && inLoop[q]
  }

  lemma OneMorePred(t: Tree, header: nat, was: seq<bool>, had: bool, inLoop: seq<bool>, n: nat)
    requires LoopUpTo(t, header, was, had, n) && n < |t.preds[header]|
    requires var q := t.preds[header][n];
             if Tail(t, header, q) then LoopBody(t, header, inLoop) && Includes(inLoop, was) && q < |inLoop| &&
               inLoop[q]
             else inLoop == was
    ensures LoopUpTo(t, header, inLoop, had || Tail(t, header, t.preds[header][n]), n + 1)
  {
    forall j: nat | j < n + 1
      ensures Collected(t, header, inLoop, j)
    {
      if j < n && Tail(t, header, t.preds[header][n]) {
        var q := t.preds[header][j];
        assert Collected(t, header, was, j);
        assert Tail(t, header, q) ==> StaysMarked(inLoop, was, q);
      } else {
        assert j < n ==> Collected(t, header, was, j);
      }
    }
  }

  lemma LoopComplete(t: Tree, header: nat, inLoop: seq<bool>, hasBackEdge: bool)
    requires header < |t.preds| && LoopUpTo(t, header, inLoop, hasBackEdge, |t.preds[header]|)
    ensures hasBackEdge ==> NaturalLoop(t, header, inLoop)
    ensures hasBackEdge <==> HasTail(t, header)
  {
    forall q: nat | Tail(t, header, q)
      ensures q < |inLoop| && inLoop[q] && hasBackEdge
    {
      var j: nat :| j < |t.preds[header]| && t.preds[header][j] == q;
      assert Collected(t, header, inLoop, j);
    }
    if hasBackEdge {
      BodyIsNatural(t, header, inLoop);
    }
  }

  ghost predicate HasTail(t: Tree, header: nat)
    requires header < |t.preds|
  {
    exists q :: Tail(t, header, q)
  }

  /** No instruction can leave the loop of a header. */
  ghost predicate HeaderStuck(t: Tree, code: Code, header: nat)
    requires header < |code| == |t.preds| == |t.rank|
  {
    match t
    case Tree(rank, _, _) =>
      rank[header] >= 0 && HasTail(t, header) ==>
        forall inLoop: seq<bool> {:trigger NaturalLoop(t, header, inLoop)} | NaturalLoop(t, header, inLoop) ::
          StuckBelow(code, inLoop, |code|)
  }

  /** Nothing can be moved out of the loops of the first `n` blocks; the entry has nothing
      in front of it to move to. */
  ghost predicate NothingMovable(t: Tree, code: Code, n: nat)
    requires n <= |code| == |t.preds| == |t.rank|
  {
    forall header: nat {:trigger HeaderStuck(t, code, header)} | 0 < header < n :: HeaderStuck(t, code, header)
  }

  lemma OneLoop(t: Tree, code: Code, header: nat, inLoop: seq<bool>)
    requires header < |code| == |t.preds| == |t.rank| && t.rank[header] >= 0 && HasTail(t, header)
    requires NaturalLoop(t, header, inLoop)
    ensures HeaderStuck(t, code, header) <==> StuckBelow(code, inLoop, |code|)
  {
    forall other: seq<bool> | NaturalLoop(t, header, other)
      ensures other == inLoop
    {
      forall y: nat | y < |inLoop|
        ensures other[y] == inLoop[y]
      {
        assert ReachesTail(t, header, y) || !ReachesTail(t, header, y);
      }
    }
  }

  lemma WalkableTree(t: Tree, code: Code)
    requires TreeOf(t, code)
    ensures Walkable(t, code)
  {
    forall b: nat, p: nat | b < |code| && p in t.preds[b]
      ensures p < |code| && t.rank[p] >= 0
    {
      assert EdgeInTree(t, code, p, b);
    }
  }

  /** Loop-invariant code motion: runs are preserved, and instructions are moved exactly
      when there is one whose operands come from outside its loop. */
  method OptLicm(f: Function) returns (changes: nat)
    requires Ssa(TreeFor(f), f.code) && EarlierPreds(TreeFor(f))
    modifies f`code
    ensures Ssa(TreeFor(f), f.code) && PreservesTotal(f.types, old(f.code), f.code)
    ensures changes == 0 <==> NothingMovable(TreeFor(f), old(f.code), |old(f.code)|)
    ensures changes == 0 ==> f.code == old(f.code)
  {
    ghost var t := TreeFor(f);
    changes := 0;
    assert PreservesTotal(f.types, f.code, f.code);
    for header: nat := 0 to |f.code|
      invariant t == TreeFor(f) && Ssa(t, f.code) && |f.code| == |old(f.code)|
      invariant PreservesTotal(f.types, old(f.code), f.code)
      invariant Moving(t, old(f.code), f.code, header, changes)
    {
      if f.rpoIndex[header] < 0 {
        NoLoop(t, old(f.code), f.code, header, changes);
      } else {
        var inLoop, hasBackEdge := LoopOf(f, t, header);
        if !hasBackEdge {
          NoLoop(t, old(f.code), f.code, header, changes);
        } else {
          ghost var before := f.code;
          var more := HoistFromLoop(f, t, header, inLoop);
          PreservesTotalTransitive(f.types, old(f.code), before, f.code);
          MovedOn(t, old(f.code), before, f.code, header, inLoop, changes, more);
          changes := changes + more;
        }
      }
    }
  }

  /** What has been moved out of the loops of the first `n` blocks. */
  ghost predicate Moving(t: Tree, was: Code, now: Code, n: nat, changes: nat) {
    match t
    case Tree(rank, _, preds) =>
      && n <= |was| == |rank| == |preds|
      && if changes == 0 then now == was && NothingMovable(t, was, n) else !NothingMovable(t, was, |was|)
  }

  lemma MovedOn(t: Tree, was: Code, mid: Code, now: Code, header: nat, inLoop: seq<bool>, changes: nat, more: nat)
    requires Moving(t, was, mid, header, changes) && header < |was| == |mid| == |inLoop|
    requires t.rank[header] >= 0 && HasTail(t, header) && NaturalLoop(t, header, inLoop)
    requires more == 0 <==> header == 0 || StuckBelow(mid, inLoop, |mid|)
    requires more == 0 ==> now == mid
    ensures Moving(t, was, now, header + 1, changes + more)
  {
    OneLoop(t, mid, header, inLoop);
    if changes == 0 && more == 0 {
      NothingMovableNext(t, was, header);
    } else if changes == 0 {
      SomethingMovable(t, was, header);
    }
  }

  lemma NothingMovableNext(t: Tree, code: Code, header: nat)
    requires header < |code| == |t.preds| == |t.rank| && NothingMovable(t, code, header)
    requires header == 0 || HeaderStuck(t, code, header)
    ensures NothingMovable(t, code, header + 1)
  {
  }

  lemma SomethingMovable(t: Tree, code: Code, header: nat)
    requires 0 < header < |code| == |t.preds| == |t.rank| && !HeaderStuck(t, code, header)
    ensures !NothingMovable(t, code, |code|)
  {
  }

  lemma NoLoop(t: Tree, was: Code, now: Code, header: nat, changes: nat)
    requires Moving(t, was, now, header, changes) && header < |was|
    requires t.rank[header] < 0 || !HasTail(t, header)
    ensures Moving(t, was, now, header + 1, changes)
  {
    assert HeaderStuck(t, was, header);
  }
}
