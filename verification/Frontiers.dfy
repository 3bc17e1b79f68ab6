/** Dominance frontiers: where what a block defines can first meet something else. */
module Frontiers {
  import opened Graph
  import opened Functions
  import opened Dominators

  /** The definition: `a` dominates a predecessor of `x` but does not strictly dominate `x`. */
  ghost predicate InFrontier(n: Numbering, a: nat, x: nat)
    requires Numbered(n)
  {
    && x < |n.g| && n.rank[x] >= 0
    && (exists p :: p in n.preds[x] && Dominates(n.g, a, p))
    && !(Dominates(n.g, a, x) && a != x)
  }

  /** The frontier lists hold exactly that, each member once. */
  ghost predicate FrontiersExact(n: Numbering, frontier: seq<seq<nat>>)
    requires Numbered(n)
  {
    && |frontier| == |n.g|
    && NoRepeats(n, frontier)
    && (forall a: nat, x: nat {:trigger x in frontier[a]} {:trigger InFrontier(n, a, x)}
          | a < |n.g| && n.rank[a] >= 0 :: x in frontier[a] <==> InFrontier(n, a, x))
  }

  ghost predicate NoRepeats(n: Numbering, frontier: seq<seq<nat>>)
    requires |n.rank| == |n.g| == |frontier|
  {
    forall a: nat, i, j | a < |n.g| && n.rank[a] >= 0 && 0 <= i < j < |frontier[a]| ::
      frontier[a][i] != frontier[a][j]
  }

  /** The blocks a walk up from `q` passes before it reaches `stop` (-1: to the root). */
  ghost predicate Climbed(n: Numbering, idom: seq<int>, q: nat, stop: int, a: nat) {
    Anc(n.rank, idom, a, q) && !(stop >= 0 && Anc(n.rank, idom, a, stop))
  }

  /** The blocks passed from the predecessor `q` of `x` up to `x`'s dominator. */
  ghost predicate Passed(n: Numbering, idom: seq<int>, x: nat, q: nat, a: nat)
    requires Numbered(n) && |idom| == |n.g| && x < |n.g|
  {
    Climbed(n, idom, q, idom[x], a)
  }

  /** What the loops put on `a`'s list. */
  ghost predicate Collected(n: Numbering, idom: seq<int>, a: nat, x: nat)
    requires Numbered(n) && |idom| == |n.g|
  {
    && x < |n.g| && n.rank[x] >= 0 && |n.preds[x]| >= 2
    && exists q :: q in n.preds[x] && Passed(n, idom, x, q, a)
  }

  lemma PassedIsFrontier(n: Numbering, idom: seq<int>, a: nat, x: nat)
    requires Numbered(n) && DomTree(n, idom) && Exact(n, idom)
    requires x < |n.g| && n.rank[x] >= 0
    ensures InFrontier(n, a, x) <==> exists q :: q in n.preds[x] && Passed(n, idom, x, q, a)
  {
    assert n.rank[n.rpo[0]] == 0;
    assert n.rank[x] == 0 ==> n.rpo[n.rank[x]] == x;
    assert n.rank[x] > 0 ==> HasParent(n.rank, idom, x);
    assert (Dominates(n.g, a, x) && a != x) <==> idom[x] >= 0 && Anc(n.rank, idom, a, idom[x]) by {
      assert Anc(n.rank, idom, a, x) <==> Dominates(n.g, a, x);
      if a == x && idom[x] >= 0 && Anc(n.rank, idom, a, idom[x]) {
        AncRank(n.rank, idom, a, idom[x]);
      }
    }
    forall q | q in n.preds[x]
      ensures Anc(n.rank, idom, a, q) <==> Dominates(n.g, a, q)
    {
    }
  }

  /** A block other than the entry with a single way in is on no frontier. */
  lemma OneWayIn(n: Numbering, idom: seq<int>, a: nat, x: nat)
    requires Numbered(n) && DomTree(n, idom) && Exact(n, idom)
    requires x < |n.g| && n.rank[x] > 0 && |n.preds[x]| < 2
    ensures !InFrontier(n, a, x)
  {
    var p := EarlierPred(n, idom, x);
    assert n.preds[x] == [p];
    if InFrontier(n, a, x) {
      assert Dominates(n.g, a, p);
      assert Anc(n.rank, idom, a, p);
      AncRank(n.rank, idom, a, p);
      forall path | PathTo(n.g, path, x)
        ensures a in path
      {
        assert |path| > 1 by {
          assert n.rank[n.rpo[0]] == 0;
        }
        var q := path[|path| - 2];
        assert path[|path| - 2 + 1] == x;
        assert Edge(n.g, q, x);
        assert PathTo(n.g, path[..|path| - 1], q);
        PathInRange(n, path[..|path| - 1], q);
        assert q in n.preds[x];
        assert a in path[..|path| - 1];
      }
    }
  }

  /** With a single edge back to the entry, the entry is on a frontier the loops miss. */
  lemma EntryFrontierMissed(n: Numbering, idom: seq<int>) returns (p: nat)
    requires Numbered(n) && DomTree(n, idom) && Exact(n, idom) && |n.preds[0]| == 1
    ensures p < |n.g| && n.rank[p] >= 0 && InFrontier(n, p, 0) && !Collected(n, idom, p, 0)
  {
    assert n.rank[n.rpo[0]] == 0;
    p := n.preds[0][0];
    assert p in n.preds[0];
    assert Anc(n.rank, idom, p, p);
    assert Dominates(n.g, p, p);
    if Dominates(n.g, p, 0) {
      EntryDominatedOnlyByItself(n.g, p);
    }
  }

  /** The loops collect the dominance frontiers exactly when the entry block does not
      have precisely one predecessor; the verifier's demand that it has none is enough. */
  lemma CollectedIsFrontier(n: Numbering, idom: seq<int>)
    requires Numbered(n) && DomTree(n, idom) && Exact(n, idom)
    ensures |n.preds[0]| != 1 <==>
            forall a: nat, x: nat :: Collected(n, idom, a, x) <==> InFrontier(n, a, x)
  {
    assert n.rank[n.rpo[0]] == 0;
    forall a: nat, x: nat
      ensures Collected(n, idom, a, x) ==> InFrontier(n, a, x)
      ensures InFrontier(n, a, x) && (x != 0 || |n.preds[0]| != 1) ==> Collected(n, idom, a, x)
    {
      if x < |n.g| && n.rank[x] >= 0 {
        PassedIsFrontier(n, idom, a, x);
        if n.rank[x] > 0 && |n.preds[x]| < 2 {
          OneWayIn(n, idom, a, x);
        } else if n.rank[x] == 0 {
          assert n.rpo[n.rank[x]] == x;
        }
      }
    }
    if |n.preds[0]| == 1 {
      var p := EntryFrontierMissed(n, idom);
    }
  }

  // ------------------------------------------------------------------ the loops

  method AddFrontier(f: Function, block: nat, member: nat)
    requires block < |f.frontier|
    modifies f`frontier
    ensures |f.frontier| == |old(f.frontier)|
    ensures forall a | 0 <= a < |f.frontier| :: f.frontier[a] ==
              if a == block && member !in old(f.frontier)[a] then old(f.frontier)[a] + [member] else old(f.frontier)[a]
  {
    for i := 0 to |f.frontier[block]|
      invariant f.frontier == old(f.frontier)
      invariant member !in f.frontier[block][..i]
    {
      if f.frontier[block][i] == member {
        return;
      }
    }
    assert f.frontier[block][..|f.frontier[block]|] == f.frontier[block];
    f.frontier := f.frontier[block := f.frontier[block] + [member]];
  }

  /** The lists after a walk from `q` to `stop` has added `block` to each block it passed. */
  ghost predicate Grown(n: Numbering, idom: seq<int>, before: seq<seq<nat>>, after: seq<seq<nat>>, block: nat, q: nat,
      stop: int)
    requires |n.rank| == |n.g|
  {
    && |before| == |after| == |n.g|
    && (forall a: nat, x: nat {:trigger x in after[a]} | a < |n.g| && n.rank[a] >= 0 ::
          x in after[a] <==> x in before[a] || (x == block && Climbed(n, idom, q, stop, a)))
    && NoRepeats(n, after)
  }

  /** Above `runner` are `runner` itself and what is above its parent. */
  lemma WalkStep(n: Numbering, idom: seq<int>, q: nat, runner: nat, a: nat)
    requires Numbered(n) && DomTree(n, idom)
    requires runner < |n.g| && n.rank[runner] >= 0 && Anc(n.rank, idom, runner, q)
    ensures Climbed(n, idom, q, idom[runner], a) <==> Climbed(n, idom, q, runner, a) || a == runner
  {
    ParentOrRoot(n, idom, runner);
    if idom[runner] >= 0 && Anc(n.rank, idom, runner, idom[runner]) {
      AncRank(n.rank, idom, runner, idom[runner]);
    }
  }

  lemma ParentOrRoot(n: Numbering, idom: seq<int>, x: nat)
    requires Numbered(n) && DomTree(n, idom) && x < |n.g| && n.rank[x] >= 0
    ensures if x == 0 then idom[x] == -1 else HasParent(n.rank, idom, x)
    ensures x == 0 <==> n.rank[x] == 0
  {
    assert n.rank[n.rpo[0]] == 0 && n.rpo[n.rank[x]] == x;
  }

  lemma GrowStep(n: Numbering, idom: seq<int>, before: seq<seq<nat>>, now: seq<seq<nat>>, after: seq<seq<nat>>,
      block: nat, q: nat, runner: nat)
    requires Numbered(n) && DomTree(n, idom)
    requires runner < |n.g| && n.rank[runner] >= 0 && Anc(n.rank, idom, runner, q)
    requires Grown(n, idom, before, now, block, q, runner) && |after| == |now|
    requires forall a | 0 <= a < |now| :: after[a] ==
               if a == runner && block !in now[a] then now[a] + [block] else now[a]
    ensures Grown(n, idom, before, after, block, q, idom[runner])
  {
    forall a: nat, x: nat | a < |n.g| && n.rank[a] >= 0
      ensures x in after[a] <==> x in before[a] || (x == block && Climbed(n, idom, q, idom[runner], a))
    {
      WalkStep(n, idom, q, runner, a);
      assert x in after[a] <==> x in now[a] || (a == runner && x == block);
    }
  }

  /** Walk up from one predecessor, adding the merge to the list of each block passed. */
  method AddWalk(f: Function, ghost n: Numbering, block: nat, q: nat)
    requires n == f.Analysis() && Numbered(n) && DomTree(n, f.idom)
    requires |f.frontier| == |n.g| && NoRepeats(n, f.frontier)
    requires block < |n.g| && n.rank[block] >= 0 && q in n.preds[block]
    modifies f`frontier
    ensures Grown(n, f.idom, old(f.frontier), f.frontier, block, q, f.idom[block])
  {
    var runner: int := q;
    ParentOrRoot(n, f.idom, block);
    while runner >= 0 && runner != f.idom[block]
      invariant n == f.Analysis()
      invariant -1 <= runner < |n.g|
      invariant runner >= 0 ==> n.rank[runner] >= 0 && Anc(n.rank, f.idom, runner, q)
      invariant f.idom[block] >= 0 ==> runner >= 0 && Anc(n.rank, f.idom, f.idom[block], runner)
      invariant Grown(n, f.idom, old(f.frontier), f.frontier, block, q, runner)
      decreases if runner >= 0 then n.rank[runner] + 1 else 0
    {
      ghost var now := f.frontier;
      ParentOrRoot(n, f.idom, runner);
      AddFrontier(f, runner, block);
      GrowStep(n, f.idom, old(f.frontier), now, f.frontier, block, q, runner);
      assert f.idom[runner] >= 0 ==> Anc(n.rank, f.idom, f.idom[runner], q) by {
        if f.idom[runner] >= 0 {
          AncTransitive(n.rank, f.idom, f.idom[runner], runner, q);
        }
      }
      runner := f.idom[runner];
    }
  }

  /** The lists once the first `i` blocks, and `k` predecessors of the next, are done. */
  ghost predicate CollectedSoFar(n: Numbering, idom: seq<int>, i: nat, k: nat, a: nat, x: nat)
    requires Numbered(n) && |idom| == |n.g|
  {
    && x < |n.g| && n.rank[x] >= 0 && |n.preds[x]| >= 2
    && exists j :: 0 <= j < |n.preds[x]| && (n.rank[x] < i || (n.rank[x] == i && j < k)) &&
                   Passed(n, idom, x, n.preds[x][j], a)
  }

  ghost predicate ListsHold(n: Numbering, idom: seq<int>, frontier: seq<seq<nat>>, i: nat, k: nat)
    requires Numbered(n) && |idom| == |n.g|
  {
    && |frontier| == |n.g|
    && (forall a: nat, x: nat {:trigger x in frontier[a]} | a < |n.g| && n.rank[a] >= 0 ::
          x in frontier[a] <==> CollectedSoFar(n, idom, i, k, a, x))
    && NoRepeats(n, frontier)
  }

  lemma WalkDone(n: Numbering, idom: seq<int>, before: seq<seq<nat>>, after: seq<seq<nat>>, i: nat, k: nat)
    requires Numbered(n) && |idom| == |n.g| && i < |n.rpo|
    requires |n.preds[n.rpo[i]]| >= 2 && k < |n.preds[n.rpo[i]]|
    requires ListsHold(n, idom, before, i, k)
    requires Grown(n, idom, before, after, n.rpo[i], n.preds[n.rpo[i]][k], idom[n.rpo[i]])
    ensures ListsHold(n, idom, after, i, k + 1)
  {
    var block := n.rpo[i];
    var q := n.preds[block][k];
    forall a: nat, x: nat | a < |n.g| && n.rank[a] >= 0
      ensures x in after[a] <==> CollectedSoFar(n, idom, i, k + 1, a, x)
    {
      assert x in after[a] <==> CollectedSoFar(n, idom, i, k, a, x) || (x == block && Passed(n, idom, block, q, a));
      if CollectedSoFar(n, idom, i, k + 1, a, x) && !CollectedSoFar(n, idom, i, k, a, x) {
        assert n.rpo[n.rank[x]] == x;
      }
    }
  }

  lemma BlockDone(n: Numbering, idom: seq<int>, frontier: seq<seq<nat>>, i: nat, k: nat)
    requires Numbered(n) && |idom| == |n.g| && i < |n.rpo|
    requires ListsHold(n, idom, frontier, i, k)
    requires k == |n.preds[n.rpo[i]]| || (k == 0 && |n.preds[n.rpo[i]]| < 2)
    ensures ListsHold(n, idom, frontier, i + 1, 0)
  {
    forall a: nat, x: nat | a < |n.g| && n.rank[a] >= 0
      ensures CollectedSoFar(n, idom, i, k, a, x) <==> CollectedSoFar(n, idom, i + 1, 0, a, x)
    {
      if x < |n.g| && n.rank[x] >= 0 {
        assert n.rpo[n.rank[x]] == x;
      }
    }
  }

  lemma AllDone(n: Numbering, idom: seq<int>, frontier: seq<seq<nat>>)
    requires Numbered(n) && |idom| == |n.g| && ListsHold(n, idom, frontier, |n.rpo|, 0)
    ensures forall a: nat, x: nat {:trigger x in frontier[a]} | a < |n.g| && n.rank[a] >= 0 ::
              x in frontier[a] <==> Collected(n, idom, a, x)
  {
    forall a: nat, x: nat | a < |n.g| && n.rank[a] >= 0
      ensures CollectedSoFar(n, idom, |n.rpo|, 0, a, x) <==> Collected(n, idom, a, x)
    {
      if Collected(n, idom, a, x) {
        var q :| q in n.preds[x] && Passed(n, idom, x, q, a);
        var j :| 0 <= j < |n.preds[x]| && n.preds[x][j] == q;
      }
    }
  }

  /** Dominance frontiers, by walking up from each predecessor of each merge. */
  method ComputeFrontiers(f: Function)
    requires Numbered(f.Analysis()) && DomTree(f.Analysis(), f.idom) && Exact(f.Analysis(), f.idom)
    requires |f.frontier| == |f.code|
    modifies f`frontier
    ensures |f.frontier| == |f.code| && NoRepeats(f.Analysis(), f.frontier)
    ensures FrontiersExact(f.Analysis(), f.frontier) <==> |f.preds[0]| != 1
  {
    ghost var n := f.Analysis();
    for i := 0 to |f.rpo|
      invariant n == f.Analysis() && |f.frontier| == |n.g|
      invariant forall j | 0 <= j < i :: f.frontier[f.rpo[j]] == []
    {
      f.frontier := f.frontier[f.rpo[i] := []];
    }
    assert ListsHold(n, f.idom, f.frontier, 0, 0) by {
      assert forall a: nat | a < |n.g| && n.rank[a] >= 0 :: n.rpo[n.rank[a]] == a;
    }
    for i: nat := 0 to |f.rpo|
      invariant n == f.Analysis()
      invariant ListsHold(n, f.idom, f.frontier, i, 0)
    {
      var block := f.rpo[i];
      var k: nat := 0;
      if |f.preds[block]| >= 2 {
        while k < |f.preds[block]|
          invariant 0 <= k <= |n.preds[block]|
          invariant n == f.Analysis()
          invariant ListsHold(n, f.idom, f.frontier, i, k)
        {
          ghost var before := f.frontier;
          AddWalk(f, n, block, f.preds[block][k]);
          WalkDone(n, f.idom, before, f.frontier, i, k);
          k := k + 1;
        }
      }
      BlockDone(n, f.idom, f.frontier, i, k);
    }
    AllDone(n, f.idom, f.frontier);
    WhenExact(n, f.idom, f.frontier);
  }

  lemma WhenExact(n: Numbering, idom: seq<int>, frontier: seq<seq<nat>>)
    requires Numbered(n) && DomTree(n, idom) && Exact(n, idom)
    requires |frontier| == |n.g| && NoRepeats(n, frontier)
    requires forall a: nat, x: nat {:trigger x in frontier[a]} | a < |n.g| && n.rank[a] >= 0 ::
               x in frontier[a] <==> Collected(n, idom, a, x)
    ensures FrontiersExact(n, frontier) <==> |n.preds[0]| != 1
  {
    CollectedIsFrontier(n, idom);
    if |n.preds[0]| == 1 {
      var p := EntryFrontierMissed(n, idom);
      assert 0 !in frontier[p];
    }
  }
}
