/** Children in the dominator tree, so that a walk can descend it. */
module DomChildren {
  import opened Ir
  import opened Functions
  import opened Dominators
  import opened SsaForm
  import opened Verify

  /** The lists hold each reachable block once, with its immediate dominator. */
  ghost predicate ChildrenOf(t: Tree, children: seq<seq<nat>>) {
    && |children| == |t.idom| == |t.rank|
    && (forall a: nat, b: nat {:trigger b in children[a]} | a < |children| ::
          b in children[a] <==> b < |t.rank| && t.rank[b] >= 0 && t.idom[b] == a)
    && (forall a: nat, i, j | a < |children| && 0 <= i < j < |children[a]| :: children[a][i] != children[a][j])
  }

  method BuildChildren(f: Function) returns (children: seq<seq<nat>>)
    requires TreeOf(TreeFor(f), f.code)
    ensures ChildrenOf(TreeFor(f), children)
  {
    children := seq(|f.code|, _ => []);
    for b: nat := 0 to |f.code|
      invariant |children| == |f.code|
      invariant forall a: nat, x: nat {:trigger x in children[a]} | a < |children| ::
                  x in children[a] <==> x < b && f.rpoIndex[x] >= 0 && f.idom[x] == a
      invariant forall a: nat, i, j | a < |children| && 0 <= i < j < |children[a]| :: children[a][i] != children[a][j]
    {
      if f.rpoIndex[b] >= 0 && f.idom[b] >= 0 {
        var parent := f.idom[b];
        assert b != 0;
        assert HasParent(f.rpoIndex, f.idom, b);
        assert b !in children[parent];
        children := children[parent := children[parent] + [b]];
      }
    }
  }

  ghost function Subtree(t: Tree, b: nat): set<nat> {
    set x: nat | x < |t.rank| && t.rank[x] >= 0 && Anc(t.rank, t.idom, b, x)
  }

  lemma ChildSmaller(t: Tree, code: Code, a: nat, b: nat)
    requires TreeOf(t, code) && a < |code| && t.rank[a] >= 0
    requires b < |code| && t.rank[b] >= 0 && t.idom[b] == a
    ensures b != 0 && Subtree(t, b) < Subtree(t, a) && a !in Subtree(t, b)
    ensures Anc(t.rank, t.idom, a, b)
  {
    assert HasParent(t.rank, t.idom, b);
    assert Anc(t.rank, t.idom, a, b);
    forall x | x in Subtree(t, b)
      ensures x in Subtree(t, a)
    {
      AncTransitive(t.rank, t.idom, a, b, x);
    }
    if a in Subtree(t, b) {
      AncRank(t.rank, t.idom, b, a);
    }
    assert a in Subtree(t, a);
  }

  /** The subtrees of two children have nothing in common. */
  lemma ChildrenDisjoint(t: Tree, code: Code, a: nat, b: nat, c: nat, x: nat)
    requires TreeOf(t, code) && a < |code| && t.rank[a] >= 0
    requires b < |code| && t.rank[b] >= 0 && t.idom[b] == a
    requires c < |code| && t.rank[c] >= 0 && t.idom[c] == a
    requires x in Subtree(t, b) && x in Subtree(t, c)
    ensures b == c
  {
    assert HasParent(t.rank, t.idom, b) && HasParent(t.rank, t.idom, c);
    if b != c {
      if t.rank[b] <= t.rank[c] {
        AncLinear(t.rank, t.idom, b, c, x);
        AncRank(t.rank, t.idom, b, a);
      } else {
        AncLinear(t.rank, t.idom, c, b, x);
        AncRank(t.rank, t.idom, c, a);
      }
    }
  }

  /** A subtree is its root and the subtrees of the root's children. */
  lemma {:induction false} SubtreeCovered(t: Tree, code: Code, a: nat, x: nat) returns (c: nat)
    requires TreeOf(t, code) && a < |code| && t.rank[a] >= 0
    requires x in Subtree(t, a) && x != a
    ensures c < |code| && t.rank[c] > 0 && t.idom[c] == a && x in Subtree(t, c)
    decreases t.rank[x]
  {
    assert HasParent(t.rank, t.idom, x);
    if t.idom[x] == a {
      c := x;
    } else {
      c := SubtreeCovered(t, code, a, t.idom[x]);
    }
  }

  /** Which blocks are done after `k` children. */
  ghost predicate Progress(t: Tree, kids: seq<nat>, k: nat, block: nat, seen: set<nat>, done: set<nat>) {
    && seen + {block} <= done
    && (forall j | 0 <= j < k && j < |kids| :: Subtree(t, kids[j]) <= done)
    && (forall j | k <= j < |kids| :: done !! Subtree(t, kids[j]))
  }

  lemma MoreProgress(t: Tree, code: Code, children: seq<seq<nat>>, k: nat, block: nat, seen: set<nat>, done: set<nat>)
    requires TreeOf(t, code) && ChildrenOf(t, children) && block < |code| && t.rank[block] >= 0
    requires k < |children[block]| && Progress(t, children[block], k, block, seen, done)
    ensures Progress(t, children[block], k + 1, block, seen, done + Subtree(t, children[block][k]))
  {
    var kids := children[block];
    forall j | k < j < |kids|
      ensures Subtree(t, kids[k]) !! Subtree(t, kids[j])
    {
      assert kids[j] in children[block] && kids[k] in children[block];
      forall x | x in Subtree(t, kids[j]) && x in Subtree(t, kids[k])
        ensures false
      {
        ChildrenDisjoint(t, code, block, kids[j], kids[k], x);
      }
    }
  }

  lemma KidsApart(t: Tree, code: Code, children: seq<seq<nat>>, block: nat, seen: set<nat>)
    requires TreeOf(t, code) && ChildrenOf(t, children) && block < |code| && t.rank[block] >= 0
    requires seen !! Subtree(t, block)
    ensures Progress(t, children[block], 0, block, seen, seen + {block})
  {
    var kids := children[block];
    forall j | 0 <= j < |kids|
      ensures (seen + {block}) !! Subtree(t, kids[j])
    {
      assert kids[j] in children[block];
      ChildSmaller(t, code, block, kids[j]);
    }
  }

  ghost function ReachableBlocks(t: Tree): set<nat> {
    set b: nat | b < |t.rank| && t.rank[b] >= 0
  }

  /** Every block that has a position is below the entry. */
  lemma WholeTree(t: Tree, code: Code)
    requires TreeOf(t, code)
    ensures Subtree(t, 0) == ReachableBlocks(t)
  {
    forall b: nat | b < |code| && t.rank[b] >= 0
      ensures Anc(t.rank, t.idom, 0, b)
    {
      BelowEntry(t, code, b);
    }
  }

  lemma {:induction false} BelowEntry(t: Tree, code: Code, b: nat)
    requires TreeOf(t, code) && b < |code| && t.rank[b] >= 0
    ensures Anc(t.rank, t.idom, 0, b)
    decreases t.rank[b]
  {
    if b != 0 {
      assert HasParent(t.rank, t.idom, b);
      BelowEntry(t, code, t.idom[b]);
    }
  }
}
