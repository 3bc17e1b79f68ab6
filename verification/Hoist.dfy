/** Moving one computation up to the end of a dominating block.

    The moved instruction may now run where it did not run before, so it must not be
    able to trap; and it must compute the same there, which holds because its operands
    are in scope at the new place and never change while they are. */
module Hoist {
  import opened Ir
  import opened Graph
  import opened Dominators
  import opened Semantics
  import opened SsaForm
  import opened Soundness
  import opened Rewrite
  import opened Simulation
  import opened Edits

  /** What can be executed where the original might not have: pure, and no division. */
  predicate Safe(i: Instr) {
    IsPure(i) && i.op != Div && i.op != Mod && i.op != Alloca && i.op != Param
  }

  /** Only division and remainder can trap. */
  ghost predicate TotalMachine(m: Machine) {
    forall e: Expr, vals: seq<int> {:trigger m.compute(e, vals)} | e.op != Div && e.op != Mod ::
        m.compute(e, vals).Some?
  }

  /** Where an instruction of the new body was. */
  function Back(code: Code, b: nat, i: nat, d: nat, x: nat, k: nat): (nat, nat)
    requires d < |code| && |code[d]| > 0
  {
    if x == b then (b, if k < i then k else k + 1)
    else if x == d && k == |code[d]| - 1 then (b, i)
    else if x == d && k == |code[d]| then (d, k - 1)
    else (x, k)
  }

  function Grown(code: Code, b: nat, d: nat, x: nat): int
    requires x < |code|
  {
    if x == b then |code[x]| - 1 else if x == d then |code[x]| + 1 else |code[x]|
  }

  /** Instruction `i` of block `b` relinked in front of the terminator of block `d`. */
  function Hoisted(code: Code, b: nat, i: nat, d: nat): (r: Code)
    requires b < |code| && i < |code[b]| && d < |code| && b != d && |code[d]| > 0
    ensures |r| == |code|
  {
    seq(|code|, x requires 0 <= x < |code| =>
      seq(Grown(code, b, d, x), k requires 0 <= k < Grown(code, b, d, x) =>
        code[Back(code, b, i, d, x, k).0][Back(code, b, i, d, x, k).1]))
  }

  /** In terms of the edits: unlink, then link in front of the last instruction. */
  lemma HoistedIs(code: Code, b: nat, i: nat, d: nat)
    requires b < |code| && i < |code[b]| && d < |code| && b != d && |code[d]| > 0
    ensures var n := |code[d]| - 1;
            Hoisted(code, b, i, d) == Removed(code, b, i)[d := code[d][..n] + [code[b][i], code[d][n]]]
  {
    var n: nat := |code[d]| - 1;
    var r, e := Hoisted(code, b, i, d), Removed(code, b, i)[d := code[d][..n] + [code[b][i], code[d][n]]];
    assert r[b] == e[b];
    assert r[d] == e[d];
    forall x | 0 <= x < |code|
      ensures r[x] == e[x]
    {
    }
  }

  ghost predicate Hoistable(t: Tree, code: Code, b: nat, i: nat, d: nat) {
    && Ssa(t, code) && b < |code| && d < |code| && b != d
    && t.rank[b] >= 0 && t.rank[d] >= 0 && Anc(t.rank, t.idom, d, b)
    && i < |code[b]| && Safe(code[b][i])
    && |code[d]| > 0
    && forall k | 0 <= k < |code[b][i].args| :: code[b][i].args[k] in ScopeOut(t, code, d)
  }

  lemma BackIs(t: Tree, code: Code, b: nat, i: nat, d: nat, x: nat, k: nat)
    requires Hoistable(t, code, b, i, d)
    requires x < |code| && k < |Hoisted(code, b, i, d)[x]|
    ensures var (y, j) := Back(code, b, i, d, x, k);
            y < |code| && j < |code[y]| && Hoisted(code, b, i, d)[x][k] == code[y][j]
  {
  }

  /** The position in the new body that comes after the same instructions. */
  function Ahead(code: Code, b: nat, i: nat, d: nat, x: nat, k: nat): nat
    requires d < |code|
  {
    if x == b && k > i then k - 1
    else if x == d && k == |code[d]| then k + 1
    else k
  }

  /** What is where: `r` has the instructions of `code`, the moved one apart. */
  ghost predicate PlaceOk(code: Code, r: Code, b: nat, i: nat, d: nat, x: nat, k: nat)
    requires b < |code| && i < |code[b]| && d < |code| && x < |code| == |r| && k <= |code[x]|
  {
    var k' := Ahead(code, b, i, d, x, k);
    && k' <= |r[x]|
    && (k == |code[x]| <==> k' == |r[x]|)
    && (k < |code[x]| && !(x == b && k == i) && !(x == d && k == |code[d]| - 1) ==>
          k' < |r[x]| && r[x][k'] == code[x][k] && Ahead(code, b, i, d, x, k + 1) == k' + 1)
    && (x == b && k == i ==> Ahead(code, b, i, d, x, k + 1) == k')
    && (x == d && k == |code[d]| - 1 ==> |r[d]| == k' + 2 && r[d][k'] == code[b][i] && r[d][k' + 1] == code[d][k])
  }

  lemma AheadIs(t: Tree, code: Code, b: nat, i: nat, d: nat, x: nat, k: nat)
    requires Hoistable(t, code, b, i, d) && x < |code| && k <= |code[x]|
    ensures PlaceOk(code, Hoisted(code, b, i, d), b, i, d, x, k)
  {
    NotLast(t, code, b, i);
    PlaceIs(code, b, i, d, x, k);
  }

  lemma PlaceIs(code: Code, b: nat, i: nat, d: nat, x: nat, k: nat)
    requires b < |code| && i < |code[b]| - 1 && d < |code| && b != d && |code[d]| > 0
    requires x < |code| && k <= |code[x]|
    ensures PlaceOk(code, Hoisted(code, b, i, d), b, i, d, x, k)
  {
  }

  // --------------------------------------------------------------- single assignment

  lemma HoistDefs(t: Tree, code: Code, b: nat, i: nat, d: nat, x: nat, u: nat)
    requires Hoistable(t, code, b, i, d) && x < |code| && u in Defs(code[x])
    ensures u in Defs(Hoisted(code, b, i, d)[x]) || (x == b && Some(u) == code[b][i].dst)
  {
    var k: nat :| k < |code[x]| && code[x][k].dst.Some? && code[x][k].dst.value == u;
    var r: Code := Hoisted(code, b, i, d);
    if x == b && k == i {
    } else if x == d && k == |code[d]| - 1 {
      AheadIs(t, code, b, i, d, x, k);
      assert r[d][k + 1].dst == Some(u);
    } else {
      AheadIs(t, code, b, i, d, x, k);
      assert r[x][Ahead(code, b, i, d, x, k)].dst == Some(u);
    }
  }

  lemma MovedDef(t: Tree, code: Code, b: nat, i: nat, d: nat)
    requires Hoistable(t, code, b, i, d)
    ensures code[b][i].dst.Some? && code[b][i].dst.value in Defs(Hoisted(code, b, i, d)[d])
  {
    AheadIs(t, code, b, i, d, d, |code[d]| - 1);
    assert Hoisted(code, b, i, d)[d][|code[d]| - 1] == code[b][i];
  }

  lemma HoistFlow(t: Tree, code: Code, b: nat, i: nat, d: nat, x: nat)
    requires Hoistable(t, code, b, i, d) && x < |code|
    ensures Successors(Hoisted(code, b, i, d)[x]) == Successors(code[x])
    ensures HasTerminator(Hoisted(code, b, i, d)[x]) <==> HasTerminator(code[x])
  {
    NotLast(t, code, b, i);
    HoistEnd(code, b, i, d, x);
    if |code[x]| > 0 {
      SameEnd(code[x], Hoisted(code, b, i, d)[x]);
    } else {
      assert Hoisted(code, b, i, d)[x] == [];
    }
  }

  lemma HoistEnd(code: Code, b: nat, i: nat, d: nat, x: nat)
    requires b < |code| && i < |code[b]| - 1 && d < |code| && b != d && |code[d]| > 0 && x < |code|
    ensures var r: Block := Hoisted(code, b, i, d)[x];
            if |code[x]| > 0 then |r| > 0 && r[|r| - 1] == code[x][|code[x]| - 1] else r == []
  {
  }

  lemma SameEnd(x: Block, y: Block)
    requires |x| > 0 && |y| > 0 && x[|x| - 1] == y[|y| - 1]
    ensures Successors(x) == Successors(y) && (HasTerminator(x) <==> HasTerminator(y))
  {
  }

  lemma NotLast(t: Tree, code: Code, b: nat, i: nat)
    requires Ssa(t, code) && b < |code| && t.rank[b] >= 0 && i < |code[b]| && Safe(code[b][i])
    ensures i < |code[b]| - 1 && Leading(code[b]) <= i
  {
    assert BlockOk(t, code, b);
    assert InstrOk(t, code, b, i);
  }

  lemma HoistTree(t: Tree, code: Code, b: nat, i: nat, d: nat)
    requires Hoistable(t, code, b, i, d)
    ensures TreeOf(t, Hoisted(code, b, i, d))
  {
    var r: Code := Hoisted(code, b, i, d);
    forall q: nat, x: nat
      ensures Leads(r, q, x) <==> Leads(code, q, x)
    {
      if q < |code| {
        HoistFlow(t, code, b, i, d, q);
      }
    }
    forall x: nat, q: nat | x < |code| && q in t.preds[x]
      ensures EdgeInTree(t, r, q, x)
    {
      assert EdgeInTree(t, code, q, x);
    }
  }

  lemma HoistUnique(t: Tree, code: Code, b: nat, i: nat, d: nat)
    requires Hoistable(t, code, b, i, d)
    ensures UniqueDefs(Hoisted(code, b, i, d))
  {
    var r: Code := Hoisted(code, b, i, d);
    forall v: nat, x: nat, k: nat, y: nat, j: nat | DefinedAt(r, v, x, k) && DefinedAt(r, v, y, j)
      ensures x == y && k == j
    {
      BackIs(t, code, b, i, d, x, k);
      BackIs(t, code, b, i, d, y, j);
      var (x0, k0) := Back(code, b, i, d, x, k);
      var (y0, j0) := Back(code, b, i, d, y, j);
      assert DefinedAt(code, v, x0, k0) && DefinedAt(code, v, y0, j0);
      BackInjective(t, code, b, i, d, x, k, y, j);
    }
  }

  lemma BackInjective(t: Tree, code: Code, b: nat, i: nat, d: nat, x: nat, k: nat, y: nat, j: nat)
    requires Hoistable(t, code, b, i, d)
    requires x < |code| && k < |Hoisted(code, b, i, d)[x]| && y < |code| && j < |Hoisted(code, b, i, d)[y]|
    requires Back(code, b, i, d, x, k) == Back(code, b, i, d, y, j)
    ensures x == y && k == j
  {
  }

  /** Scopes only grow. */
  lemma HoistScopeIn(t: Tree, code: Code, b: nat, i: nat, d: nat, x: nat, u: nat)
    requires Hoistable(t, code, b, i, d) && TreeOf(t, Hoisted(code, b, i, d))
    requires x < |code| && t.rank[x] >= 0 && u in ScopeIn(t, code, x)
    ensures u in ScopeIn(t, Hoisted(code, b, i, d), x)
  {
    var r: Code := Hoisted(code, b, i, d);
    var a, j := ScopeWitness(t, code, x, u);
    HoistDefs(t, code, b, i, d, a, u);
    if u in Defs(r[a]) {
      ScopeAnc(t, r, a, x);
    } else {
      MovedInScope(t, code, b, i, d, x);
    }
  }

  /** The moved value is in scope in `b` and below. */
  lemma MovedInScope(t: Tree, code: Code, b: nat, i: nat, d: nat, x: nat)
    requires Hoistable(t, code, b, i, d) && TreeOf(t, Hoisted(code, b, i, d))
    requires x < |code| && t.rank[x] >= 0 && Anc(t.rank, t.idom, b, x)
    ensures code[b][i].dst.Some? && code[b][i].dst.value in ScopeIn(t, Hoisted(code, b, i, d), x)
  {
    MovedDef(t, code, b, i, d);
    AncTransitive(t.rank, t.idom, d, b, x);
    AncRank(t.rank, t.idom, d, b);
    AncRank(t.rank, t.idom, b, x);
    ScopeAnc(t, Hoisted(code, b, i, d), d, x);
  }

  lemma HoistScopeAt(t: Tree, code: Code, b: nat, i: nat, d: nat, x: nat, k: nat)
    requires Hoistable(t, code, b, i, d) && TreeOf(t, Hoisted(code, b, i, d))
    requires x < |code| && t.rank[x] >= 0 && k <= |code[x]|
    ensures var r, k' := Hoisted(code, b, i, d), Ahead(code, b, i, d, x, k);
            k' <= |r[x]| && ScopeAt(t, code, x, k) <= ScopeAt(t, r, x, k')
  {
    var r, k' := Hoisted(code, b, i, d), Ahead(code, b, i, d, x, k);
    AheadIs(t, code, b, i, d, x, k);
    forall u | u in ScopeAt(t, code, x, k)
      ensures u in ScopeAt(t, r, x, k')
    {
      if u in ScopeIn(t, code, x) {
        HoistScopeIn(t, code, b, i, d, x, u);
      } else {
        var j := InDefs(code, x, k, u);
        if x == b && j == i {
          MovedInScope(t, code, b, i, d, b);
        } else {
          BeforeToo(t, code, b, i, d, x, k, j);
        }
      }
    }
  }

  lemma BeforeToo(t: Tree, code: Code, b: nat, i: nat, d: nat, x: nat, k: nat, j: nat)
    requires Hoistable(t, code, b, i, d)
    requires x < |code| && j < k <= |code[x]| && !(x == b && j == i) && code[x][j].dst.Some?
    ensures var r, k' := Hoisted(code, b, i, d), Ahead(code, b, i, d, x, k);
            k' <= |r[x]| && code[x][j].dst.value in Defs(r[x][..k'])
  {
    var r, k' := Hoisted(code, b, i, d), Ahead(code, b, i, d, x, k);
    AheadIs(t, code, b, i, d, x, k);
    AheadIs(t, code, b, i, d, x, j);
    var j' := if x == d && j == |code[d]| - 1 then j + 1 else Ahead(code, b, i, d, x, j);
    assert r[x][..k'][j'] == code[x][j];
  }

  lemma HoistScopeOut(t: Tree, code: Code, b: nat, i: nat, d: nat, x: nat)
    requires Hoistable(t, code, b, i, d) && TreeOf(t, Hoisted(code, b, i, d))
    requires x < |code| && t.rank[x] >= 0
    ensures ScopeOut(t, code, x) <= ScopeOut(t, Hoisted(code, b, i, d), x)
  {
    HoistScopeAt(t, code, b, i, d, x, |code[x]|);
    AheadIs(t, code, b, i, d, x, |code[x]|);
    ScopeEnd(t, code, x);
    ScopeEnd(t, Hoisted(code, b, i, d), x);
  }

  lemma HoistLeading(t: Tree, code: Code, b: nat, i: nat, d: nat, x: nat)
    requires Hoistable(t, code, b, i, d) && x < |code| && t.rank[x] >= 0
    ensures var r := Hoisted(code, b, i, d);
            Leading(r[x]) == Leading(code[x]) && r[x][..Leading(r[x])] == code[x][..Leading(code[x])]
    ensures Leading(code[x]) < |code[x]|
    ensures Ahead(code, b, i, d, x, Leading(code[x])) == Leading(code[x])
  {
    var r: Code := Hoisted(code, b, i, d);
    assert BlockOk(t, code, x);
    assert InstrOk(t, code, x, |code[x]| - 1);
    NotLast(t, code, b, i);
    forall k | 0 <= k < Leading(code[x])
      ensures k < |r[x]| && r[x][k] == code[x][k]
    {
      AheadIs(t, code, b, i, d, x, k);
    }
    AfterPhis(t, code, b, i, d, x);
    SameStart(code[x], r[x]);
  }

  lemma AfterPhis(t: Tree, code: Code, b: nat, i: nat, d: nat, x: nat)
    requires Hoistable(t, code, b, i, d) && x < |code| && t.rank[x] >= 0 && Leading(code[x]) < |code[x]|
    ensures var r: Code, n := Hoisted(code, b, i, d), Leading(code[x]);
            n < |r[x]| ==> r[x][n].op != Phi
  {
    var n := Leading(code[x]);
    if n < |Hoisted(code, b, i, d)[x]| {
      BackIs(t, code, b, i, d, x, n);
      PhisFirst(t, code, x);
      NotLast(t, code, b, i);
      var (y, j) := Back(code, b, i, d, x, n);
      if y == x {
        assert Leading(code[x]) <= j < |code[x]|;
      } else {
        assert j == i && y == b;
      }
    }
  }

  lemma SameStart(x: Block, y: Block)
    requires Leading(x) <= |y| && forall k | 0 <= k < Leading(x) :: y[k] == x[k]
    requires Leading(x) < |y| ==> y[Leading(x)].op != Phi
    ensures Leading(y) == Leading(x) && y[..Leading(y)] == x[..Leading(x)]
  {
    LeadingIs(y, Leading(x));
  }

  lemma HoistSsa(t: Tree, code: Code, b: nat, i: nat, d: nat)
    requires Hoistable(t, code, b, i, d)
    ensures Ssa(t, Hoisted(code, b, i, d))
  {
    var r: Code := Hoisted(code, b, i, d);
    HoistTree(t, code, b, i, d);
    HoistUnique(t, code, b, i, d);
    EntryIsFirst(t, code);
    HoistLeading(t, code, b, i, d, 0);
    forall x: nat | x < |code| && t.rank[x] >= 0
      ensures BlockOk(t, r, x)
    {
      assert BlockOk(t, code, x);
      HoistFlow(t, code, b, i, d, x);
      forall k: nat | k < |r[x]|
        ensures InstrOk(t, r, x, k)
      {
        HoistInstrOk(t, code, b, i, d, x, k);
      }
    }
    assert forall x: nat | x < |code| && t.rank[x] < 0 :: r[x] == code[x];
  }

  lemma HoistInstrOk(t: Tree, code: Code, b: nat, i: nat, d: nat, x: nat, k: nat)
    requires Hoistable(t, code, b, i, d) && TreeOf(t, Hoisted(code, b, i, d))
    requires x < |code| && t.rank[x] >= 0 && k < |Hoisted(code, b, i, d)[x]|
    ensures InstrOk(t, Hoisted(code, b, i, d), x, k)
  {
    BackIs(t, code, b, i, d, x, k);
    var (y, j) := Back(code, b, i, d, x, k);
    assert BlockOk(t, code, y);
    assert InstrOk(t, code, y, j);
    HoistLeading(t, code, b, i, d, x);
    HoistOrder(t, code, b, i, d, x, k);
    if code[y][j].op == Phi {
      HoistPhiInScope(t, code, b, i, d, x, code[y][j]);
    } else {
      HoistUses(t, code, b, i, d, x, k);
    }
  }

  lemma HoistOrder(t: Tree, code: Code, b: nat, i: nat, d: nat, x: nat, k: nat)
    requires Hoistable(t, code, b, i, d)
    requires x < |code| && t.rank[x] >= 0 && k < |Hoisted(code, b, i, d)[x]|
    ensures var r: Code := Hoisted(code, b, i, d);
            && (IsTerminator(r[x][k].op) ==> k == |r[x]| - 1)
            && (r[x][k].op == Phi <==> k < Leading(r[x]))
  {
    BackIs(t, code, b, i, d, x, k);
    NotLast(t, code, b, i);
    HoistLeading(t, code, b, i, d, x);
    var (y, j) := Back(code, b, i, d, x, k);
    assert BlockOk(t, code, y);
    assert InstrOk(t, code, y, j);
    var r: Code := Hoisted(code, b, i, d);
    assert IsTerminator(code[y][j].op) ==> j == |code[y]| - 1;
    assert |r[x]| == if x == b then |code[x]| - 1 else if x == d then |code[x]| + 1 else |code[x]|;
  }

  lemma HoistPhiInScope(t: Tree, code: Code, b: nat, i: nat, d: nat, x: nat, phi: Instr)
    requires Hoistable(t, code, b, i, d) && TreeOf(t, Hoisted(code, b, i, d))
    requires x < |code| && PhiInScope(t, code, x, phi)
    ensures PhiInScope(t, Hoisted(code, b, i, d), x, phi)
  {
    forall k | 0 <= k < |phi.from|
      ensures phi.args[k] in ScopeOut(t, Hoisted(code, b, i, d), phi.from[k])
    {
      assert EdgeInTree(t, code, phi.from[k], x);
      HoistScopeOut(t, code, b, i, d, phi.from[k]);
    }
  }

  /** The operands of each instruction are in scope where it is now. */
  lemma HoistUses(t: Tree, code: Code, b: nat, i: nat, d: nat, x: nat, k: nat)
    requires Hoistable(t, code, b, i, d) && TreeOf(t, Hoisted(code, b, i, d))
    requires x < |code| && t.rank[x] >= 0 && k < |Hoisted(code, b, i, d)[x]|
    requires Hoisted(code, b, i, d)[x][k].op != Phi
    ensures UseInScope(t, Hoisted(code, b, i, d), x, k)
  {
    var r: Code := Hoisted(code, b, i, d);
    BackIs(t, code, b, i, d, x, k);
    var (y, j) := Back(code, b, i, d, x, k);
    assert BlockOk(t, code, y);
    assert InstrOk(t, code, y, j);
    assert UseInScope(t, code, y, j);
    if y != x {
      MovedUses(t, code, b, i, d);
    } else {
      HoistScopeAt(t, code, b, i, d, x, j);
      AheadIs(t, code, b, i, d, x, j);
      var k' := Ahead(code, b, i, d, x, j);
      assert k' <= k;
      DefsPrefix(r[x], k', k);
    }
  }

  lemma MovedUses(t: Tree, code: Code, b: nat, i: nat, d: nat)
    requires Hoistable(t, code, b, i, d) && TreeOf(t, Hoisted(code, b, i, d))
    ensures UseInScope(t, Hoisted(code, b, i, d), d, |code[d]| - 1)
  {
    var n: nat := |code[d]| - 1;
    AheadIs(t, code, b, i, d, d, n);
    HoistScopeAt(t, code, b, i, d, d, n);
    TerminatorDefinesNothing(t, code, d);
  }

  lemma TerminatorDefinesNothing(t: Tree, code: Code, d: nat)
    requires Ssa(t, code) && d < |code| && t.rank[d] >= 0
    ensures |code[d]| > 0 && ScopeAt(t, code, d, |code[d]| - 1) == ScopeOut(t, code, d)
  {
    assert BlockOk(t, code, d);
    assert InstrOk(t, code, d, |code[d]| - 1);
    ScopeStep(t, code, d, |code[d]| - 1);
    ScopeEnd(t, code, d);
  }

  // ------------------------------------------------------------------ the same runs

  /** The two environments agree on a scope. */
  ghost predicate AgreeOn(scope: set<nat>, env: map<nat, int>, env': map<nat, int>) {
    forall v | v in scope :: v in env && v in env' && env[v] == env'[v]
  }

  /** Both runs are before the instruction that was `k` of block `x`. */
  ghost predicate InTime(t: Tree, c: Context, code: Code, r: Code, x: nat, k: nat, k': nat, st: State, st': State)
    requires x < |code| && k <= |code[x]| && x < |r| && k' <= |r[x]|
  {
    match st
    case State(env, cells, world) =>
      && AgreeOn(ScopeAt(t, code, x, k), env, st'.env)
      && Intact(t, c, code, x, k, env) && Intact(t, c, r, x, k', st'.env)
      && st'.cells == cells && st'.world == world
  }

  ghost predicate StartOk(code: Code, r: Code, x: nat)
    requires x < |code| == |r|
  {
    Leading(r[x]) == Leading(code[x]) < |code[x]| && r[x][..Leading(r[x])] == code[x][..Leading(code[x])]
  }

  /** The setting: the body before and after. */
  ghost predicate Moving(t: Tree, c: Context, code: Code, r: Code, b: nat, i: nat, d: nat) {
    && Hoistable(t, code, b, i, d) && Ssa(t, r) && TotalMachine(c.m) && |r| == |code|
    && i < |code[b]| - 1 && Leading(code[b]) <= i
    && code[b][i].dst.value in ScopeIn(t, r, b)
    && (forall x: nat, k: nat {:trigger PlaceOk(code, r, b, i, d, x, k)} | x < |code| && k <= |code[x]| ::
        PlaceOk(code, r, b, i, d, x, k))
    && (forall x: nat {:trigger StartOk(code, r, x)} | x < |code| && t.rank[x] >= 0 :: StartOk(code, r, x))
  }

  lemma HoistMoving(t: Tree, c: Context, code: Code, b: nat, i: nat, d: nat)
    requires Hoistable(t, code, b, i, d) && TotalMachine(c.m)
    ensures Moving(t, c, code, Hoisted(code, b, i, d), b, i, d)
  {
    var r := Hoisted(code, b, i, d);
    HoistSsa(t, code, b, i, d);
    NotLast(t, code, b, i);
    MovedInScope(t, code, b, i, d, b);
    forall x: nat, k: nat | x < |code| && k <= |code[x]|
      ensures PlaceOk(code, r, b, i, d, x, k)
    {
      AheadIs(t, code, b, i, d, x, k);
    }
    forall x: nat | x < |code| && t.rank[x] >= 0
      ensures StartOk(code, r, x)
    {
      HoistLeading(t, code, b, i, d, x);
    }
  }

  const NO_CHANGE := Plan({}, {}, map[])

  /** An instruction whose operands agree does the same in both runs. */
  lemma SameStep(c: Context, i: Instr, st: State, st': State)
    requires Shaped(i) && i.op != Phi && AgreeOn(set k | 0 <= k < |i.args| :: i.args[k], st.env, st'.env)
    requires st.cells == st'.cells && st.world == st'.world
    ensures SameOutcome(i, st, st', Exec(c, i, st), Exec(c, i, st'))
  {
    assert NamesFor(NO_CHANGE, i.args) == i.args;
    assert Rename(NO_CHANGE, i) == i;
    KeptStep(c, NO_CHANGE, i, st, st');
  }

  /** An instruction that stays where it is. */
  lemma StayStep(t: Tree, c: Context, code: Code, r: Code, x: nat, k: nat, k': nat, st: State, st': State)
    requires Ssa(t, code) && Ssa(t, r) && x < |code| == |r| && t.rank[x] >= 0
    requires Leading(code[x]) <= k < |code[x]| && Leading(r[x]) <= k' < |r[x]| && r[x][k'] == code[x][k]
    requires InTime(t, c, code, r, x, k, k', st, st')
    ensures var o, o' := Exec(c, code[x][k], st), Exec(c, code[x][k], st');
            && SameOutcome(code[x][k], st, st', o, o')
            && (o.Continue? ==> InTime(t, c, code, r, x, k + 1, k' + 1, o.st, o'.st))
  {
    var ins := code[x][k];
    assert BlockOk(t, code, x);
    assert InstrOk(t, code, x, k);
    assert UseInScope(t, code, x, k);
    SameStep(c, ins, st, st');
    var o, o' := Exec(c, ins, st), Exec(c, ins, st');
    if o.Continue? {
      StepIntact(t, c, code, x, k, st, o.st);
      StepIntact(t, c, r, x, k', st', o'.st);
      ScopeStep(t, code, x, k);
    }
  }

  lemma SafeRuns(c: Context, i: Instr, st: State)
    requires Safe(i) && TotalMachine(c.m) && Assigned(st.env, i.args)
    ensures Evaluate(c, i, Values(st.env, i.args)).Some?
    ensures Exec(c, i, st) == Continue(st.(env := st.env[i.dst.value := Evaluate(c, i, Values(st.env, i.args)).value]))
  {
    assert ExprOf(c.types, i).op == i.op;
    PureRuns(c, i, st);
  }

  /** Where it was: only the original runs it, and gets what the new run has already. */
  lemma LeftStep(t: Tree, c: Context, code: Code, r: Code, b: nat, i: nat, d: nat, st: State, st': State)
    requires Moving(t, c, code, r, b, i, d)
    requires i <= |r[b]| && InTime(t, c, code, r, b, i, i, st, st')
    ensures var o := Exec(c, code[b][i], st);
            o.Continue? && InTime(t, c, code, r, b, i + 1, i, o.st, st')
  {
    var ins := code[b][i];
    var v := ins.dst.value;
    OperandsAssigned(t, c, code, b, i, st);
    SafeRuns(c, ins, st);
    var o := Exec(c, ins, st);
    StepIntact(t, c, code, b, i, st, o.st);
    ScopeStep(t, code, b, i);
    MovedHolds(t, c, code, r, b, i, d, st'.env);
    assert BlockOk(t, code, b);
    assert InstrOk(t, code, b, i);
    assert UseInScope(t, code, b, i);
    assert Values(st'.env, ins.args) == Values(st.env, ins.args);
    assert DefinedAt(code, v, b, i);
    DefNotInScope(t, code, b, i, v);
  }

  lemma MovedHolds(t: Tree, c: Context, code: Code, r: Code, b: nat, i: nat, d: nat, env: map<nat, int>)
    requires Moving(t, c, code, r, b, i, d) && i <= |r[b]| && Intact(t, c, r, b, i, env)
    ensures Holds(c, code[b][i], env)
  {
    var n := |code[d]| - 1;
    assert PlaceOk(code, r, b, i, d, d, n);
    assert r[d][n] == code[b][i];
    assert Holds(c, r[d][n], env);
  }

  /** Where it is now: only the new run executes it. */
  lemma ArrivedStep(t: Tree, c: Context, code: Code, r: Code, b: nat, i: nat, d: nat, st: State, st': State)
    requires Moving(t, c, code, r, b, i, d)
    requires |r[d]| == |code[d]| + 1 && InTime(t, c, code, r, d, |code[d]| - 1, |code[d]| - 1, st, st')
    ensures var o' := Exec(c, code[b][i], st');
            o'.Continue? && InTime(t, c, code, r, d, |code[d]| - 1, |code[d]|, st, o'.st)
  {
    var n: nat := |code[d]| - 1;
    var ins := code[b][i];
    assert PlaceOk(code, r, b, i, d, d, n);
    assert StartOk(code, r, d);
    OperandsAssigned(t, c, r, d, n, st');
    SafeRuns(c, ins, st');
    StepIntact(t, c, r, d, n, st', Exec(c, ins, st').st);
    NotYetDefined(t, code, b, i, d, n);
  }

  lemma NotYetDefined(t: Tree, code: Code, b: nat, i: nat, d: nat, n: nat)
    requires Hoistable(t, code, b, i, d) && n <= |code[d]|
    ensures code[b][i].dst.Some? && code[b][i].dst.value !in ScopeAt(t, code, d, n)
  {
    var v := code[b][i].dst.value;
    assert DefinedAt(code, v, b, i);
    if v in ScopeAt(t, code, d, n) {
      var a, j := InScopeSite(t, code, d, n, v);
      AncRank(t.rank, t.idom, b, d);
      AncRank(t.rank, t.idom, d, b);
    }
  }

  ghost predicate InTimeOutcome(t: Tree, c: Context, code: Code, r: Code, x: nat, o: Outcome, o': Outcome)
    requires x < |code| && x < |r|
  {
    match o
    case Goto(y, st) => o'.Goto? && o'.block == y && InTime(t, c, code, r, x, |code[x]|, |r[x]|, st, o'.st)
    case _ => o' == o && !o.Continue?
  }

  /** The terminator, in both. */
  lemma LastStep(t: Tree, c: Context, code: Code, r: Code, x: nat, k: nat, k': nat, st: State, st': State)
    requires Ssa(t, code) && Ssa(t, r) && x < |code| == |r| && t.rank[x] >= 0
    requires Leading(code[x]) <= k && k == |code[x]| - 1 && Leading(r[x]) <= k' && k' == |r[x]| - 1
    requires r[x][k'] == code[x][k]
    requires InTime(t, c, code, r, x, k, k', st, st')
    ensures InTimeOutcome(t, c, code, r, x, ExecFrom(c, code[x][k..], st), ExecFrom(c, r[x][k'..], st'))
  {
    StayStep(t, c, code, r, x, k, k', st, st');
    OperandsAssigned(t, c, code, x, k, st);
    Proceeds(c, code[x][k], st);
    OperandsAssigned(t, c, r, x, k', st');
    Proceeds(c, code[x][k], st');
    TerminatorScope(t, code, x, k);
    TerminatorScope(t, r, x, k');
  }

  lemma TerminatorScope(t: Tree, code: Code, x: nat, k: nat)
    requires Ssa(t, code) && x < |code| && t.rank[x] >= 0 && k == |code[x]| - 1
    ensures ScopeAt(t, code, x, k) == ScopeAt(t, code, x, |code[x]|)
  {
    TerminatorDefinesNothing(t, code, x);
    ScopeEnd(t, code, x);
  }

  lemma {:induction false} RestInTime(t: Tree, c: Context, code: Code, r: Code, b: nat, i: nat, d: nat, x: nat,
      k: nat, k': nat, st: State, st': State)
    requires Moving(t, c, code, r, b, i, d)
    requires x < |code| && t.rank[x] >= 0 && Leading(code[x]) <= k < |code[x]|
    requires k' == Ahead(code, b, i, d, x, k) <= |r[x]|
    requires InTime(t, c, code, r, x, k, k', st, st')
    ensures InTimeOutcome(t, c, code, r, x, ExecFrom(c, code[x][k..], st), ExecFrom(c, r[x][k'..], st'))
    decreases |code[x]| - k, 1
  {
    if x == b && k == i {
      RestAfterLeft(t, c, code, r, b, i, d, k', st, st');
    } else if x == d && k == |code[d]| - 1 {
      ArrivedRest(t, c, code, r, b, i, d, st, st');
    } else if k == |code[x]| - 1 {
      EndRest(t, c, code, r, b, i, d, x, st, st');
    } else {
      RestAfterStaying(t, c, code, r, b, i, d, x, k, k', st, st');
    }
  }

  lemma RestAfterLeft(t: Tree, c: Context, code: Code, r: Code, b: nat, i: nat, d: nat, k': nat, st: State, st': State)
    requires Moving(t, c, code, r, b, i, d)
    requires b < |code| && t.rank[b] >= 0 && Leading(code[b]) <= i < |code[b]|
    requires k' == Ahead(code, b, i, d, b, i) <= |r[b]|
    requires InTime(t, c, code, r, b, i, k', st, st')
    ensures InTimeOutcome(t, c, code, r, b, ExecFrom(c, code[b][i..], st), ExecFrom(c, r[b][k'..], st'))
    decreases |code[b]| - i, 0
  {
    LeftStep(t, c, code, r, b, i, d, st, st');
    ExecStep(c, code[b], i, st);
    RestInTime(t, c, code, r, b, i, d, b, i + 1, k', Exec(c, code[b][i], st).st, st');
  }

  lemma RestAfterStaying(t: Tree, c: Context, code: Code, r: Code, b: nat, i: nat, d: nat, x: nat, k: nat, k': nat,
      st: State, st': State)
    requires Moving(t, c, code, r, b, i, d)
    requires x < |code| && t.rank[x] >= 0 && Leading(code[x]) <= k < |code[x]| - 1 && !(x == b && k == i)
    requires k' == Ahead(code, b, i, d, x, k) <= |r[x]|
    requires InTime(t, c, code, r, x, k, k', st, st')
    ensures InTimeOutcome(t, c, code, r, x, ExecFrom(c, code[x][k..], st), ExecFrom(c, r[x][k'..], st'))
    decreases |code[x]| - k, 0
  {
    StaysInTime(t, c, code, r, b, i, d, x, k, k', st, st');
    var o, o' := Exec(c, code[x][k], st), Exec(c, code[x][k], st');
    ExecStep(c, code[x], k, st);
    ExecStep(c, r[x], k', st');
    if o.Continue? {
      RestInTime(t, c, code, r, b, i, d, x, k + 1, k' + 1, o.st, o'.st);
    }
  }

  lemma EndRest(t: Tree, c: Context, code: Code, r: Code, b: nat, i: nat, d: nat, x: nat, st: State, st': State)
    requires Moving(t, c, code, r, b, i, d)
    requires x < |code| && x != d && t.rank[x] >= 0 && Leading(code[x]) <= |code[x]| - 1
    requires var k := |code[x]| - 1;
             && Ahead(code, b, i, d, x, k) <= |r[x]|
             && InTime(t, c, code, r, x, k, Ahead(code, b, i, d, x, k), st, st')
    ensures var k := |code[x]| - 1;
            InTimeOutcome(t, c, code, r, x, ExecFrom(c, code[x][k..], st),
              ExecFrom(c, r[x][Ahead(code, b, i, d, x, k)..], st'))
  {
    var k: nat := |code[x]| - 1;
    assert PlaceOk(code, r, b, i, d, x, k);
    assert PlaceOk(code, r, b, i, d, x, k + 1);
    assert StartOk(code, r, x);
    LastStep(t, c, code, r, x, k, Ahead(code, b, i, d, x, k), st, st');
  }

  lemma ArrivedRest(t: Tree, c: Context, code: Code, r: Code, b: nat, i: nat, d: nat, st: State, st': State)
    requires Moving(t, c, code, r, b, i, d) && Leading(code[d]) <= |code[d]| - 1 <= |r[d]|
    requires InTime(t, c, code, r, d, |code[d]| - 1, |code[d]| - 1, st, st')
    ensures InTimeOutcome(t, c, code, r, d, ExecFrom(c, code[d][|code[d]| - 1..], st),
        ExecFrom(c, r[d][|code[d]| - 1..], st'))
  {
    var n: nat := |code[d]| - 1;
    assert PlaceOk(code, r, b, i, d, d, n);
    assert StartOk(code, r, d);
    ArrivedStep(t, c, code, r, b, i, d, st, st');
    var next := Exec(c, code[b][i], st').st;
    LastStep(t, c, code, r, d, n, n + 1, st, next);
    RunsFirst(c, r[d], n, code[b][i], st', next);
  }

  lemma RunsFirst(c: Context, block: Block, n: nat, i: Instr, st: State, next: State)
    requires n < |block| && block[n] == i && Exec(c, i, st) == Continue(next)
    ensures ExecFrom(c, block[n..], st) == ExecFrom(c, block[n + 1..], next)
  {
    ExecStep(c, block, n, st);
  }

  lemma StaysInTime(t: Tree, c: Context, code: Code, r: Code, b: nat, i: nat, d: nat, x: nat, k: nat, k': nat,
      st: State, st': State)
    requires Moving(t, c, code, r, b, i, d)
    requires x < |code| && t.rank[x] >= 0 && Leading(code[x]) <= k < |code[x]| - 1
    requires k' == Ahead(code, b, i, d, x, k) <= |r[x]|
    requires !(x == b && k == i) && !(x == d && k == |code[d]| - 1)
    requires InTime(t, c, code, r, x, k, k', st, st')
    ensures k' < |r[x]| && r[x][k'] == code[x][k] && Ahead(code, b, i, d, x, k + 1) == k' + 1
    ensures var o, o' := Exec(c, code[x][k], st), Exec(c, code[x][k], st');
            if o.Continue? then o'.Continue? && InTime(t, c, code, r, x, k + 1, k' + 1, o.st, o'.st)
            else o' == o && !o.Goto?
  {
    assert PlaceOk(code, r, b, i, d, x, k);
    assert StartOk(code, r, x);
    StayStep(t, c, code, r, x, k, k', st, st');
    OperandsAssigned(t, c, code, x, k, st);
    Proceeds(c, code[x][k], st);
  }

  // ------------------------------------------------------------- entering a block

  lemma {:induction false} MergeSame(phis: Block, q: nat, env: map<nat, int>, env': map<nat, int>)
    requires forall k {:trigger Arriving(phis[k], Some(q), env)} | 0 <= k < |phis| ::
               Arriving(phis[k], Some(q), env) == Arriving(phis[k], Some(q), env')
    ensures Merge(phis, Some(q), env) == Merge(phis, Some(q), env')
    decreases |phis|
  {
    if phis != [] {
      forall k | 0 <= k < |phis[1..]|
        ensures Arriving(phis[1..][k], Some(q), env) == Arriving(phis[1..][k], Some(q), env')
      {
        assert phis[1..][k] == phis[k + 1];
      }
      MergeSame(phis[1..], q, env, env');
      assert Arriving(phis[0], Some(q), env) == Arriving(phis[0], Some(q), env');
    }
  }

  lemma ArrivesSame(t: Tree, c: Context, code: Code, q: nat, x: nat, k: nat, env: map<nat, int>, env': map<nat, int>)
    requires Ssa(t, code) && x < |code| && t.rank[x] >= 0 && q in t.preds[x] && q < |code|
    requires AgreeOn(ScopeOut(t, code, q), env, env') && k < Leading(code[x])
    ensures Arriving(code[x][k], Some(q), env) == Arriving(code[x][k], Some(q), env')
  {
    assert BlockOk(t, code, x);
    assert InstrOk(t, code, x, k);
    assert PhiInScope(t, code, x, code[x][k]);
    var e := EdgeIndex(code[x][k].from, q);
    assert code[x][k].args[e] in ScopeOut(t, code, q);
  }

  lemma EnterInTime(t: Tree, c: Context, code: Code, r: Code, b: nat, i: nat, d: nat, q: nat, x: nat, st: State,
      st': State)
    returns (m: map<nat, int>)
    requires Moving(t, c, code, r, b, i, d)
    requires x < |code| && t.rank[x] >= 0 && q in t.preds[x] && q < |code|
    requires InTime(t, c, code, r, q, |code[q]|, |r[q]|, st, st')
    ensures Leading(r[x]) == Leading(code[x]) < |code[x]|
    ensures Merge(code[x][..Leading(code[x])], Some(q), st.env) == Some(m)
    ensures Merge(r[x][..Leading(r[x])], Some(q), st'.env) == Some(m)
    ensures InTime(t, c, code, r, x, Leading(code[x]), Leading(code[x]), st.(env := st.env + m),
        st'.(env := st'.env + m))
  {
    var n := Leading(code[x]);
    assert StartOk(code, r, x);
    ScopeEnd(t, code, q);
    forall k | 0 <= k < n
      ensures Arriving(code[x][..n][k], Some(q), st.env) == Arriving(code[x][..n][k], Some(q), st'.env)
    {
      ArrivesSame(t, c, code, q, x, k, st.env, st'.env);
    }
    MergeSame(code[x][..n], q, st.env, st'.env);
    EnterIntact(t, c, code, q, x, st.env);
    EnterIntact(t, c, r, q, x, st'.env);
    m := Merge(code[x][..n], Some(q), st.env).value;
    AgreeAfter(t, c, code, q, x, st.env, st'.env, m);
  }

  lemma AgreeAfter(t: Tree, c: Context, code: Code, q: nat, x: nat, env: map<nat, int>, env': map<nat, int>,
      m: map<nat, int>)
    requires Ssa(t, code) && x < |code| && t.rank[x] >= 0 && q in t.preds[x] && q < |code|
    requires AgreeOn(ScopeOut(t, code, q), env, env') && Intact(t, c, code, q, |code[q]|, env)
    requires Merge(code[x][..Leading(code[x])], Some(q), env) == Some(m)
    ensures AgreeOn(ScopeAt(t, code, x, Leading(code[x])), env + m, env' + m)
  {
    ScopeEdge(t, code, q, x);
    var was := OldMerge(t, c, code, q, x, env);
  }

  ghost predicate RunsInTime(t: Tree, c: Context, code: Code, r: Code, cfg: Config, cfg': Config) {
    match cfg
    case Halted(o) => cfg' == cfg
    case At(x, prev, st) =>
      && cfg'.At? && cfg'.block == x && cfg'.prev == prev && |code| == |r|
      && (match prev
          case None => cfg' == cfg && st.env == map[]
          case Some(q) => q < |code| && InTime(t, c, code, r, q, |code[q]|, |r[q]|, st, cfg'.st))
  }

  lemma BlockInTime(t: Tree, c: Context, code: Code, r: Code, b: nat, i: nat, d: nat, cfg: Config, cfg': Config)
    requires Moving(t, c, code, r, b, i, d) && cfg.At?
    requires Arrived(t, c, code, cfg) && RunsInTime(t, c, code, r, cfg, cfg')
    ensures InTimeOutcome(t, c, code, r, cfg.block, ExecBlock(c, code, cfg.block, cfg.prev, cfg.st),
                          ExecBlock(c, r, cfg.block, cfg.prev, cfg'.st))
  {
    var x, n := cfg.block, Leading(code[cfg.block]);
    assert StartOk(code, r, x);
    assert PlaceOk(code, r, b, i, d, x, n);
    if cfg.prev.Some? {
      var m := EnterInTime(t, c, code, r, b, i, d, cfg.prev.value, x, cfg.st, cfg'.st);
      BlockIs(c, code, x, cfg.prev, cfg.st, m);
      BlockIs(c, r, x, cfg.prev, cfg'.st, m);
      RestInTime(t, c, code, r, b, i, d, x, n, n, cfg.st.(env := cfg.st.env + m), cfg'.st.(env := cfg'.st.env + m));
    } else {
      StartInTime(t, c, code, r, cfg.st);
      BlockIs(c, code, x, cfg.prev, cfg.st, map[]);
      BlockIs(c, r, x, cfg.prev, cfg'.st, map[]);
      RestInTime(t, c, code, r, b, i, d, x, n, n, cfg.st, cfg.st);
    }
  }

  lemma StartInTime(t: Tree, c: Context, code: Code, r: Code, st: State)
    requires Ssa(t, code) && Ssa(t, r) && st.env == map[]
    ensures code[0][..0] == [] && r[0][..0] == [] && st.(env := st.env + map[]) == st
    ensures InTime(t, c, code, r, 0, 0, 0, st, st)
  {
    EntryIsFirst(t, code);
    EntryIsFirst(t, r);
    assert Defs([]) == {};
  }

  /** The moved instruction computes what it computed: on every machine whose only traps
      are divisions, and after any number of blocks, both bodies show the same. */
  lemma HoistPreservesRuns(t: Tree, c: Context, code: Code, b: nat, i: nat, d: nat, world: World, n: nat)
    requires Hoistable(t, code, b, i, d) && TotalMachine(c.m)
    ensures Ssa(t, Hoisted(code, b, i, d))
    ensures Observe(Run(c, Hoisted(code, b, i, d), world, n)) == Observe(Run(c, code, world, n))
  {
    var r: Code := Hoisted(code, b, i, d);
    HoistMoving(t, c, code, b, i, d);
    var rel := (x: Config, y: Config) => Arrived(t, c, code, x) && RunsInTime(t, c, code, r, x, y);
    forall x, y | rel(x, y)
      ensures rel(Next(c, code, x), Next(c, r, y))
    {
      NextArrives(t, c, code, x);
      if x.At? {
        BlockInTime(t, c, code, r, b, i, d, x, y);
      }
    }
    RunArrives(t, c, code, world, 0);
    Lockstep(c, code, c, r, world, n, rel);
  }
}
