/** Two bodies that cannot be told apart, and the single edit that every redundancy
    pass repeats: redirect the uses of a value to an equal one and remove it. */
module Equivalence {
  import opened Ir
  import opened Graph
  import opened Semantics
  import opened SsaForm
  import opened Rewrite
  import opened Simulation
  import opened Edits

  /** What one invocation shows, before and after. */
  ghost predicate Agrees(types: seq<Ty>, code: Code, code': Code, c: Context, world: World, n: nat) {
    c.types == types && Secluded(c, code) ==>
      Secluded(c, code') && Observe(Run(c, code', world, n)) == Observe(Run(c, code, world, n))
  }

  ghost predicate AgreesUntrapped(types: seq<Ty>, code: Code, code': Code, c: Context, world: World, n: nat) {
    c.types == types && Secluded(c, code) ==>
      && Secluded(c, code')
      && (Observe(Run(c, code, world, n)).Trapped? ||
          Observe(Run(c, code', world, n)) == Observe(Run(c, code, world, n)))
  }

  /** On every machine, every choice of private slots the original allows, every arguments
      and initial world, after any number of blocks, both show the same. */
  ghost predicate Preserves(types: seq<Ty>, code: Code, code': Code) {
    forall c: Context, world: World, n: nat {:trigger Agrees(types, code, code', c, world, n)} ::
      Agrees(types, code, code', c, world, n)
  }

  /** As above, except that a run of the original that traps is excused. */
  ghost predicate PreservesUntrapped(types: seq<Ty>, code: Code, code': Code) {
    forall c: Context, world: World, n: nat {:trigger AgreesUntrapped(types, code, code', c, world, n)} ::
      AgreesUntrapped(types, code, code', c, world, n)
  }

  lemma PreservesReflexive(types: seq<Ty>, code: Code)
    ensures Preserves(types, code, code)
  {
  }

  lemma PreservesTransitive(types: seq<Ty>, x: Code, y: Code, z: Code)
    requires Preserves(types, x, y) && Preserves(types, y, z)
    ensures Preserves(types, x, z)
  {
    forall c: Context, world: World, n: nat
      ensures Agrees(types, x, z, c, world, n)
    {
      assert Agrees(types, x, y, c, world, n) && Agrees(types, y, z, c, world, n);
    }
  }

  lemma PreservesUntrappedTransitive(types: seq<Ty>, x: Code, y: Code, z: Code)
    requires PreservesUntrapped(types, x, y) && PreservesUntrapped(types, y, z)
    ensures PreservesUntrapped(types, x, z)
  {
    forall c: Context, world: World, n: nat
      ensures AgreesUntrapped(types, x, z, c, world, n)
    {
      assert AgreesUntrapped(types, x, y, c, world, n) && AgreesUntrapped(types, y, z, c, world, n);
    }
  }

  // --------------------------------------------------------------- private slots

  lemma NotPrivate(c: Context, code: Code, v: nat, b: nat, i: nat)
    requires Secluded(c, code) && DefinedAt(code, v, b, i) && code[b][i].op != Alloca
    ensures v !in c.private
  {
  }

  lemma OperandNotPrivate(c: Context, code: Code, b: nat, i: nat, k: nat)
    requires Secluded(c, code) && b < |code| && i < |code[b]| && k < |code[b][i].args|
    requires code[b][i].op != Load && code[b][i].op != Store
    ensures code[b][i].args[k] !in c.private
  {
    assert Escapes(code[b][i], code[b][i].args[k]);
  }

  /** A rewriting that redirects nothing to or from a private slot leaves the slots private. */
  lemma RewriteSecluded(c: Context, p: Plan, code: Code)
    requires Secluded(c, code) && p.slots == {}
    requires forall v | v in p.sub :: v !in c.private && p.sub[v] !in c.private
    ensures Secluded(c, RewriteCode(p, code))
  {
    var r: Code := RewriteCode(p, code);
    forall b: nat, k: nat | b < |r| && k < |r[b]| && r[b][k].dst.Some? && r[b][k].dst.value in c.private
      ensures r[b][k].op == Alloca
    {
      OriginIs(p, code[b], k);
    }
    forall b: nat, k: nat, v | b < |r| && k < |r[b]| && v in c.private
      ensures !Escapes(r[b][k], v)
    {
      OriginIs(p, code[b], k);
      var i := Origin(p, code[b], k);
      assert !Escapes(code[b][i], v);
      assert forall j | 0 <= j < |code[b][i].args| :: NameFor(p, code[b][i].args[j]) == v ==> code[b][i].args[j] == v;
    }
  }

  // ------------------------------------------------------- replacing one value

  /** The value `w`, available at the definition of `v`, is what `v` always is: the
      same computation, the operand of a copy, or the one value a phi can take. */
  ghost predicate Replaceable(t: Tree, types: seq<Ty>, code: Code, v: nat, w: nat, b: nat, i: nat) {
    && DefinedAt(code, v, b, i) && v != w
    && Wide(types, v) == Wide(types, w)
    && w in ScopeAt(t, code, b, i)
    && (|| SameAsEarlier(types, code, w, code[b][i])
        || (code[b][i].op == Copy && code[b][i].args == [w])
        || OnlyValue(t, code, v, w, b, code[b][i]))
  }

  ghost predicate SameAsEarlier(types: seq<Ty>, code: Code, w: nat, i: Instr) {
    && IsPure(i)
    && exists a: nat, j: nat :: DefinedAt(code, w, a, j) && IsPure(code[a][j]) && SameExpression(types, code[a][j], i)
  }

  ghost predicate OnlyValue(t: Tree, code: Code, v: nat, w: nat, b: nat, phi: Instr) {
    && phi.op == Phi
    && w in ScopeIn(t, code, b)
    && w in phi.args
    && forall k | 0 <= k < |phi.args| :: phi.args[k] == v || phi.args[k] == w
  }

  lemma ReplaceSupplied(t: Tree, types: seq<Ty>, code: Code, v: nat, w: nat, b: nat, i: nat)
    requires Ssa(t, code) && Replaceable(t, types, code, v, w, b, i)
    ensures Supplied(t, Replace(v, w), code)
  {
    var p := Replace(v, w);
    forall a: nat, j: nat | a < |code| && t.rank[a] >= 0 && j < |code[a]| && !Dropped(p, code[a][j])
      ensures SuppliedAt(t, p, code, a, j)
    {
      assert BlockOk(t, code, a);
      assert InstrOk(t, code, a, j);
      var ins := code[a][j];
      forall k | 0 <= k < |ins.args|
        ensures if ins.op != Phi then NameFor(p, ins.args[k]) in ScopeAt(t, code, a, j) - p.gone
                else k < |ins.from| && ins.from[k] < |code| &&
                     NameFor(p, ins.args[k]) in ScopeOut(t, code, ins.from[k]) - p.gone
      {
        if ins.op != Phi {
          assert UseInScope(t, code, a, j);
          if ins.args[k] == v {
            ScopeTransitive(t, code, a, j, b, i, v);
          }
        } else {
          assert PhiInScope(t, code, a, ins);
          var q := ins.from[k];
          assert EdgeInTree(t, code, q, a);
          ScopeEnd(t, code, q);
          if ins.args[k] == v {
            ScopeTransitive(t, code, q, |code[q]|, b, i, v);
          }
        }
      }
    }
  }

  lemma ReplaceConservative(t: Tree, c: Context, code: Code, v: nat, w: nat, b: nat, i: nat)
    requires Ssa(t, code) && Replaceable(t, c.types, code, v, w, b, i) && Secluded(c, code)
    ensures Conservative(c, Replace(v, w))
  {
    NotPrivate(c, code, v, b, i);
    if SameAsEarlier(c.types, code, w, code[b][i]) {
      var a: nat, j: nat :| DefinedAt(code, w, a, j) && IsPure(code[a][j]) &&
          SameExpression(c.types, code[a][j], code[b][i]);
      NotPrivate(c, code, w, a, j);
    } else {
      var k :| 0 <= k < |code[b][i].args| && code[b][i].args[k] == w;
      OperandNotPrivate(c, code, b, i, k);
    }
  }

  lemma ReplaceSimplifies(t: Tree, c: Context, code: Code, v: nat, w: nat, b: nat, i: nat)
    requires Ssa(t, code) && Replaceable(t, c.types, code, v, w, b, i) && Secluded(c, code)
    ensures Simplifies(t, c, Replace(v, w), code, true)
  {
    var p := Replace(v, w);
    ReplaceSupplied(t, c.types, code, v, w, b, i);
    ReplaceConservative(t, c, code, v, w, b, i);
    forall a: nat, j: nat | a < |code| && j < |code[a]| && Dropped(p, code[a][j])
      ensures Justified(t, c, p, code, true, a, j)
    {
      assert DefinedAt(code, v, a, j);
      assert a == b && j == i;
    }
  }

  lemma ReplaceAgrees(t: Tree, c: Context, code: Code, v: nat, w: nat, b: nat, i: nat, world: World, n: nat)
    requires Ssa(t, code) && Replaceable(t, c.types, code, v, w, b, i) && Secluded(c, code)
    ensures Agrees(c.types, code, RewriteCode(Replace(v, w), code), c, world, n)
  {
    ReplaceConservative(t, c, code, v, w, b, i);
    RewriteSecluded(c, Replace(v, w), code);
    ReplaceSimplifies(t, c, code, v, w, b, i);
    SimplificationPreservesRuns(t, c, Replace(v, w), code, true, world, n);
  }

  /** The edit preserves single assignment form and every run. */
  lemma ReplaceStep(t: Tree, types: seq<Ty>, code: Code, v: nat, w: nat, b: nat, i: nat)
    requires Ssa(t, code) && Replaceable(t, types, code, v, w, b, i)
    ensures Ssa(t, RewriteCode(Replace(v, w), code))
    ensures Preserves(types, code, RewriteCode(Replace(v, w), code))
  {
    ReplaceSupplied(t, types, code, v, w, b, i);
    RewriteSsa(t, Replace(v, w), code);
    forall c: Context, world: World, n: nat
      ensures Agrees(types, code, RewriteCode(Replace(v, w), code), c, world, n)
    {
      if c.types == types && Secluded(c, code) {
        ReplaceAgrees(t, c, code, v, w, b, i, world, n);
      }
    }
  }
}
