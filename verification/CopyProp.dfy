/** Copies, and phis that are not a choice at all. */
module CopyProp {
  import opened Ir
  import opened Graph
  import opened Functions
  import opened Dominators
  import opened Semantics
  import opened SsaForm
  import opened Rewrite
  import opened Edits
  import opened Equivalence
  import opened Verify

  // -------------------------------------------------------------------- trivial phis

  /** Apart from itself, the phi has one operand. */
  ghost predicate Only(phi: Instr, w: nat) {
    && Some(w) != phi.dst && w in phi.args
    && forall k | 0 <= k < |phi.args| :: Some(phi.args[k]) == phi.dst || phi.args[k] == w
  }

  method TrivialPhiValue(phi: Instr) returns (only: Option<nat>)
    ensures only.Some? ==> Only(phi, only.value)
    ensures only.None? ==> forall w :: !Only(phi, w)
  {
    only := None;
    for i: nat := 0 to |phi.args|
      invariant only.None? ==> forall k | 0 <= k < i :: Some(phi.args[k]) == phi.dst
      invariant only.Some? ==> only != phi.dst && only.value in phi.args[..i]
      invariant only.Some? ==> forall k | 0 <= k < i :: Some(phi.args[k]) == phi.dst || phi.args[k] == only.value
    {
      var arg := phi.args[i];
      if Some(arg) != phi.dst {
        if only.None? {
          only := Some(arg);
          assert phi.args[..i + 1][i] == arg;
        } else if only.value != arg {
          assert arg in phi.args && only.value in phi.args;
          return None;
        }
      }
      assert phi.args[..i + 1] == phi.args[..i] + [arg];
    }
  }

  /** The tree answers the question of dominance, both ways. */
  ghost predicate Faithful(t: Tree, code: Code) {
    && |t.rank| == |code|
    && forall a: nat, b: nat {:trigger Anc(t.rank, t.idom, a, b)} {:trigger Dominates(Flow(code), a, b)}
         | b < |code| && t.rank[b] >= 0 :: Anc(t.rank, t.idom, a, b) <==> Dominates(Flow(code), a, b)
  }

  lemma {:induction false} OnPath(t: Tree, code: Code, path: seq<nat>, b: nat)
    requires TreeOf(t, code) && PathTo(Flow(code), path, b)
    ensures b < |code| && t.rank[b] >= 0
    ensures |path| > 1 ==> path[|path| - 2] in t.preds[b] && PathTo(Flow(code), path[..|path| - 1], path[|path| - 2])
    decreases |path|
  {
    if |path| > 1 {
      var q, init := path[|path| - 2], path[..|path| - 1];
      assert path[|path| - 2 + 1] == b;
      assert Edge(Flow(code), q, b);
      forall i | 0 <= i < |init| - 1
        ensures Edge(Flow(code), init[i], init[i + 1])
      {
        assert Edge(Flow(code), path[i], path[i + 1]);
      }
      OnPath(t, code, init, q);
      assert Leads(code, q, b);
      assert EdgeInTree(t, code, q, b);
    }
  }

  /** A path to a block, cut at its first visit. */
  lemma {:induction false} FirstVisit(g: Graph, path: seq<nat>, b: nat) returns (first: seq<nat>)
    requires PathTo(g, path, b)
    ensures PathTo(g, first, b) && b !in first[..|first| - 1] && forall x | x in first :: x in path
    decreases |path|
  {
    if b in path[..|path| - 1] {
      var i :| 0 <= i < |path| - 1 && path[i] == b;
      var shorter := path[..i + 1];
      forall j | 0 <= j < |shorter| - 1
        ensures Edge(g, shorter[j], shorter[j + 1])
      {
        assert Edge(g, path[j], path[j + 1]);
      }
      first := FirstVisit(g, shorter, b);
    } else {
      first := path;
    }
  }

  /** Along each edge a trivial phi takes its one value, or itself: so the definition of
      one of the two is above the block the edge leaves. */
  lemma OneOrItself(t: Tree, code: Code, b: nat, i: nat, v: nat, w: nat, a: nat, j: nat, q: nat)
    requires Ssa(t, code) && DefinedAt(code, v, b, i) && code[b][i].op == Phi && Only(code[b][i], w)
    requires DefinedAt(code, w, a, j) && q in t.preds[b]
    ensures q < |code| && t.rank[q] >= 0
    ensures Anc(t.rank, t.idom, a, q) || Anc(t.rank, t.idom, b, q)
  {
    var e := PhiEdge(t, code, b, i, q);
    var x, k := InScopeSite(t, code, q, |code[q]|, code[b][i].args[e]);
  }

  lemma PhiEdge(t: Tree, code: Code, b: nat, i: nat, q: nat) returns (e: nat)
    requires Ssa(t, code) && b < |code| && i < |code[b]| && code[b][i].op == Phi && q in t.preds[b]
    ensures q < |code| && t.rank[q] >= 0
    ensures e < |code[b][i].args| && code[b][i].args[e] in ScopeAt(t, code, q, |code[q]|)
  {
    assert t.rank[b] >= 0;
    assert BlockOk(t, code, b);
    assert InstrOk(t, code, b, i);
    assert PhiInScope(t, code, b, code[b][i]);
    assert EdgeInTree(t, code, q, b);
    e :| 0 <= e < |code[b][i].from| && code[b][i].from[e] == q;
    ScopeEnd(t, code, q);
  }

  /** Coming to a trivial phi for the first time, control has passed the definition of
      its one value. */
  lemma PassedOnTheWay(t: Tree, code: Code, b: nat, i: nat, v: nat, w: nat, a: nat, j: nat, path: seq<nat>)
    requires Ssa(t, code) && Faithful(t, code) && DefinedAt(code, v, b, i) && code[b][i].op == Phi
    requires Only(code[b][i], w)
    requires DefinedAt(code, w, a, j) && PathTo(Flow(code), path, b)
    ensures a in path && a != b
  {
    var first := FirstVisit(Flow(code), path, b);
    OnPath(t, code, first, b);
    NotInEntry(t, code, b, i);
    var q, init := first[|first| - 2], first[..|first| - 1];
    OneOrItself(t, code, b, i, v, w, a, j, q);
    assert Dominates(Flow(code), a, q) || Dominates(Flow(code), b, q);
    assert a in init;
    assert a in first;
  }

  lemma NotInEntry(t: Tree, code: Code, b: nat, i: nat)
    requires Ssa(t, code) && b < |code| && i < |code[b]| && code[b][i].op == Phi
    ensures b != 0
  {
    PhisFirst(t, code, 0);
  }

  lemma OnlyDominates(t: Tree, code: Code, b: nat, i: nat, v: nat, w: nat, a: nat, j: nat)
    requires Ssa(t, code) && Faithful(t, code) && DefinedAt(code, v, b, i) && code[b][i].op == Phi
    requires Only(code[b][i], w)
    requires DefinedAt(code, w, a, j)
    ensures t.rank[b] >= 0 && Anc(t.rank, t.idom, a, b) && a != b
  {
    assert t.rank[b] >= 0;
    forall path | PathTo(Flow(code), path, b)
      ensures a in path && a != b
    {
      PassedOnTheWay(t, code, b, i, v, w, a, j, path);
    }
    assert Dominates(Flow(code), a, b);
    Unreached(t, code, b);
  }

  /** The one value of a trivial phi is defined strictly above the phi's block. */
  lemma OnlyIsAbove(t: Tree, code: Code, b: nat, i: nat, v: nat, w: nat)
    requires Ssa(t, code) && Faithful(t, code) && DefinedAt(code, v, b, i) && code[b][i].op == Phi
    requires Only(code[b][i], w)
    ensures w in ScopeIn(t, code, b)
  {
    var a, j := OnlyDefined(t, code, b, i, w);
    OnlyDominates(t, code, b, i, v, w, a, j);
    ScopeAnc(t, code, a, b);
    assert w in Defs(code[a]);
  }

  lemma OnlyDefined(t: Tree, code: Code, b: nat, i: nat, w: nat) returns (a: nat, j: nat)
    requires Ssa(t, code) && b < |code| && i < |code[b]| && code[b][i].op == Phi && Only(code[b][i], w)
    ensures DefinedAt(code, w, a, j)
  {
    assert t.rank[b] >= 0;
    assert BlockOk(t, code, b);
    assert InstrOk(t, code, b, i);
    var phi := code[b][i];
    assert PhiInScope(t, code, b, phi);
    var e :| 0 <= e < |phi.args| && phi.args[e] == w;
    ScopeEnd(t, code, phi.from[e]);
    a, j := InScopeSite(t, code, phi.from[e], |code[phi.from[e]]|, w);
  }

  /** Some path leads to every block that has a position. */
  lemma Unreached(t: Tree, code: Code, b: nat)
    requires TreeOf(t, code) && Faithful(t, code) && b < |code| && t.rank[b] >= 0
    ensures exists path :: PathTo(Flow(code), path, b)
  {
    if forall path :: !PathTo(Flow(code), path, b) {
      assert Dominates(Flow(code), |code|, b);
      AncRank(t.rank, t.idom, |code|, b);
    }
  }

  // ------------------------------------------------------------------------ types

  /** A copy has its operand's width, a phi the width of each of its operands. */
  ghost predicate TypedMove(types: seq<Ty>, i: Instr) {
    i.op == Copy || i.op == Phi ==>
      && i.dst.Some?
      && (i.op == Copy ==> |i.args| == 1)
      && forall k | 0 <= k < |i.args| :: Wide(types, i.args[k]) == Wide(types, i.dst.value)
  }

  ghost predicate TypedMoves(types: seq<Ty>, code: Code) {
    forall b, i {:trigger TypedMove(types, code[b][i])} | 0 <= b < |code| && 0 <= i < |code[b]| ::
        TypedMove(types, code[b][i])
  }

  lemma ReplaceKeepsTypes(types: seq<Ty>, code: Code, v: nat, w: nat)
    requires TypedMoves(types, code) && Wide(types, v) == Wide(types, w)
    ensures TypedMoves(types, RewriteCode(Replace(v, w), code))
  {
    var p := Replace(v, w);
    var r := RewriteCode(p, code);
    forall b: nat, k: nat | b < |r| && k < |r[b]|
      ensures TypedMove(types, r[b][k])
    {
      OriginIs(p, code[b], k);
      assert TypedMove(types, code[b][Origin(p, code[b], k)]);
    }
  }

  lemma ReplaceKeepsFaithful(t: Tree, code: Code, v: nat, w: nat)
    requires Ssa(t, code) && Faithful(t, code)
    ensures Faithful(t, RewriteCode(Replace(v, w), code))
  {
    var r := RewriteCode(Replace(v, w), code);
    forall b: nat | b < |code|
      ensures Flow(r)[b] == Flow(code)[b]
    {
      RewriteFlow(t, Replace(v, w), code, b);
    }
    assert Flow(r) == Flow(code);
  }

  // --------------------------------------------------------------------- the sweeps

  /** What an instruction can be replaced by. */
  ghost predicate MovesFrom(i: Instr, w: nat) {
    || (i.op == Copy && i.args == [w] && i.dst != Some(w))
    || (i.op == Phi && Only(i, w))
  }

  /** Neither a copy nor a trivial phi. */
  ghost predicate Settled(i: Instr) {
    forall w {:trigger MovesFrom(i, w)} :: !MovesFrom(i, w)
  }

  /** No copy and no trivial phi is left. */
  ghost predicate AllSettled(code: Code) {
    forall a: nat, k: nat {:trigger Settled(code[a][k])} | a < |code| && k < |code[a]| :: Settled(code[a][k])
  }

  /** How many instructions there are. */
  function Size(code: Code): nat {
    SizeTo(code, |code|)
  }

  function SizeTo(code: Code, n: nat): nat
    requires n <= |code|
  {
    if n == 0 then 0 else SizeTo(code, n - 1) + |code[n - 1]|
  }

  lemma {:induction false} SizeMonotone(x: Code, y: Code, b: nat, n: nat)
    requires |x| == |y| && n <= |x| && b < |x| && |y[b]| < |x[b]| && forall a | 0 <= a < |x| :: |y[a]| <= |x[a]|
    ensures SizeTo(y, n) <= SizeTo(x, n) && (b < n ==> SizeTo(y, n) < SizeTo(x, n))
    decreases n
  {
    if n > 0 {
      SizeMonotone(x, y, b, n - 1);
    }
  }

  lemma ReplaceShrinks(code: Code, v: nat, w: nat, b: nat, i: nat)
    requires UniqueDefs(code) && DefinedAt(code, v, b, i)
    ensures Size(RewriteCode(Replace(v, w), code)) < Size(code)
    ensures |RewriteCode(Replace(v, w), code)[b]| == |code[b]| - 1
  {
    var kept := RewriteCode(Redirect(v, w), code);
    DropOne(Replace(v, w), code, v, b, i);
    forall a | 0 <= a < |code|
      ensures |kept[a]| == |code[a]|
    {
      RewriteKeepsAll(Redirect(v, w), code[a]);
    }
    SizeMonotone(code, RewriteCode(Replace(v, w), code), b, |code|);
  }

  /** The body during a sweep. */
  ghost predicate Propagating(t: Tree, types: seq<Ty>, start: Code, code: Code, changes: nat) {
    && Ssa(t, code) && Faithful(t, code) && TypedMoves(types, code) && |code| == |start|
    && Preserves(types, start, code) && Size(code) + changes <= Size(start)
    && (changes == 0 ==> code == start)
  }

  lemma MoveStep(t: Tree, types: seq<Ty>, start: Code, code: Code, changes: nat, b: nat, i: nat, w: nat)
    requires Propagating(t, types, start, code, changes)
    requires b < |code| && i < |code[b]| && MovesFrom(code[b][i], w)
    ensures code[b][i].dst.Some?
    ensures var r := RewriteCode(Replace(code[b][i].dst.value, w), code);
            Propagating(t, types, start, r, changes + 1) && |r[b]| == |code[b]| - 1
  {
    var ins := code[b][i];
    assert TypedMove(types, ins);
    var v := ins.dst.value;
    var r := RewriteCode(Replace(v, w), code);
    assert DefinedAt(code, v, b, i);
    MoveReplaceable(t, types, code, b, i, v, w);
    ReplaceStep(t, types, code, v, w, b, i);
    PreservesTransitive(types, start, code, r);
    ReplaceKeepsTypes(types, code, v, w);
    ReplaceKeepsFaithful(t, code, v, w);
    ReplaceShrinks(code, v, w, b, i);
  }

  lemma MoveReplaceable(t: Tree, types: seq<Ty>, code: Code, b: nat, i: nat, v: nat, w: nat)
    requires Ssa(t, code) && Faithful(t, code) && TypedMoves(types, code)
    requires DefinedAt(code, v, b, i) && MovesFrom(code[b][i], w)
    ensures Replaceable(t, types, code, v, w, b, i)
  {
    var ins := code[b][i];
    assert TypedMove(types, ins);
    assert t.rank[b] >= 0;
    assert BlockOk(t, code, b);
    assert InstrOk(t, code, b, i);
    if ins.op == Copy {
      assert UseInScope(t, code, b, i);
      assert ins.args[0] == w;
    } else {
      OnlyIsAbove(t, code, b, i, v, w);
      var e :| 0 <= e < |ins.args| && ins.args[e] == w;
      assert OnlyValue(t, code, v, w, b, ins);
    }
  }

  /** What one instruction can be replaced by, if anything. */
  method Replacement(ins: Instr) returns (r: Option<nat>)
    ensures r.Some? ==> MovesFrom(ins, r.value)
    ensures r.None? ==> Settled(ins)
  {
    r := None;
    if ins.op == Copy && |ins.args| == 1 {
      r := Some(ins.args[0]);
    } else if ins.op == Phi {
      r := TrivialPhiValue(ins);
    }
    if r.None? || r == ins.dst {
      return None;
    }
  }

  method SweepBlock(f: Function, ghost t: Tree, ghost start: Code, b: nat, done: nat) returns (changes: nat)
    requires Propagating(t, f.types, start, f.code, done) && b < |f.code|
    modifies f`code
    ensures Propagating(t, f.types, start, f.code, done + changes)
    ensures changes == 0 ==> f.code == old(f.code) && forall k: nat | k < |f.code[b]| :: Settled(f.code[b][k])
    ensures AllSettled(old(f.code)) ==> changes == 0
  {
    var i: nat := 0;
    changes := 0;
    while i < |f.code[b]|
      invariant |f.code| == |start| && i <= |f.code[b]|
      invariant Propagating(t, f.types, start, f.code, done + changes)
      invariant changes == 0 ==> f.code == old(f.code) && forall k: nat | k < i :: Settled(f.code[b][k])
      invariant AllSettled(old(f.code)) ==> changes == 0
      decreases |f.code[b]| - i
    {
      var ins := f.code[b][i];
      var replacement := Replacement(ins);
      if replacement.Some? {
        assert !Settled(f.code[b][i]);
        MoveStep(t, f.types, start, f.code, done + changes, b, i, replacement.value);
        assert DefinedAt(f.code, ins.dst.value, b, i);
        var _ := ReplaceAndRemove(f, b, i, ins.dst.value, replacement.value);
        changes := changes + 1;
      } else {
        i := i + 1;
      }
    }
  }

  method Sweep(f: Function, ghost t: Tree, ghost start: Code, done: nat) returns (changes: nat)
    requires t == TreeFor(f) && Propagating(t, f.types, start, f.code, done)
    modifies f`code
    ensures Propagating(t, f.types, start, f.code, done + changes)
    ensures changes == 0 ==> f.code == old(f.code) && AllSettled(f.code)
    ensures AllSettled(old(f.code)) ==> changes == 0
  {
    changes := 0;
    for b: nat := 0 to |f.code|
      invariant |f.code| == |start|
      invariant Propagating(t, f.types, start, f.code, done + changes)
      invariant changes == 0 ==> f.code == old(f.code)
      invariant AllSettled(old(f.code)) ==> changes == 0
      invariant changes == 0 ==>
                  forall a: nat, k: nat {:trigger Settled(f.code[a][k])} | a < b && k < |f.code[a]| ::
                      Settled(f.code[a][k])
    {
      if f.rpoIndex[b] >= 0 {
        var more := SweepBlock(f, t, start, b, done + changes);
        changes := changes + more;
      }
    }
  }

  /** Copy propagation. The sweeps end, since each change removes an instruction; the body
      is equivalent, and neither a copy nor a trivial phi is left in it. */
  method OptPropagateCopies(f: Function) returns (changes: nat)
    requires Ssa(TreeFor(f), f.code) && Faithful(TreeFor(f), f.code) && TypedMoves(f.types, f.code)
    modifies f`code
    ensures Ssa(TreeFor(f), f.code) && Preserves(f.types, old(f.code), f.code)
    ensures AllSettled(f.code) && TypedMoves(f.types, f.code)
    ensures changes == 0 <==> AllSettled(old(f.code))
    ensures changes == 0 ==> f.code == old(f.code)
  {
    ghost var t, start := TreeFor(f), f.code;
    PreservesReflexive(f.types, start);
    changes := 0;
    var changedThisRound := 1;
    while changedThisRound > 0
      invariant 0 <= changedThisRound
      invariant t == TreeFor(f) && Propagating(t, f.types, start, f.code, changes)
      invariant changedThisRound == 0 ==> AllSettled(f.code)
      invariant changedThisRound > 0 && changes == 0 ==> f.code == start
      invariant AllSettled(start) ==> changes == 0
      decreases Size(start) - changes, changedThisRound
    {
      changedThisRound := Sweep(f, t, start, changes);
      changes := changes + changedThisRound;
    }
  }
}
