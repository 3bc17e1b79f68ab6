/** Immediate dominators by the iteration of Cooper, Harvey and Kennedy.

    `ComputeDominators` goes over the blocks in reverse postorder until nothing changes;
    the lemmas before it show that each assignment to an immediate dominator keeps five invariants, which together
    give termination and, at the fixed point, dominance exactly. */
module Dominators {
  import opened Graph
  import opened Functions
  import opened Ir

  // ------------------------------------------------------- the dominator tree

  /** Walking up `idom` from `x` meets `a`. The walk stops at a block whose parent
      is missing or not earlier, so it is the same walk whether the entry is its
      own parent (during the iteration) or has none (afterwards). */
  ghost predicate Anc(rank: seq<int>, idom: seq<int>, a: nat, x: nat)
    decreases if x < |rank| && rank[x] >= 0 then rank[x] else 0
  {
    a == x || (HasParent(rank, idom, x) && Anc(rank, idom, a, idom[x]))
  }

  ghost predicate HasParent(rank: seq<int>, idom: seq<int>, x: nat) {
    && x < |rank| && x < |idom|
    && 0 <= idom[x] < |rank|
    && 0 <= rank[idom[x]] < rank[x]
  }

  lemma {:induction false} AncRank(rank: seq<int>, idom: seq<int>, a: nat, x: nat)
    requires Anc(rank, idom, a, x) && x < |rank| && rank[x] >= 0
    ensures a < |rank| && 0 <= rank[a] <= rank[x]
    ensures a != x ==> rank[a] < rank[x]
    decreases rank[x]
  {
    if a != x {
      AncRank(rank, idom, a, idom[x]);
    }
  }

  lemma {:induction false} AncTransitive(rank: seq<int>, idom: seq<int>, a: nat, b: nat, x: nat)
    requires Anc(rank, idom, a, b) && Anc(rank, idom, b, x)
    ensures Anc(rank, idom, a, x)
    decreases if x < |rank| && rank[x] >= 0 then rank[x] else 0
  {
    if b != x {
      AncTransitive(rank, idom, a, b, idom[x]);
    }
  }

  /** Two ancestors of one block lie on one chain. */
  lemma {:induction false} AncLinear(rank: seq<int>, idom: seq<int>, a: nat, b: nat, x: nat)
    requires x < |rank| && rank[x] >= 0
    requires Anc(rank, idom, a, x) && Anc(rank, idom, b, x)
    requires a < |rank| && b < |rank| && rank[a] <= rank[b]
    ensures Anc(rank, idom, a, b)
    decreases rank[x]
  {
    if b != x {
      AncRank(rank, idom, b, x);
      assert a != x;
      AncLinear(rank, idom, a, b, idom[x]);
    }
  }

  // -------------------------------------------------- one step of the iteration

  ghost predicate Processed(idom: seq<int>, x: nat) {
    x < |idom| && idom[x] >= 0
  }

  /** The partly built tree: parents are earlier in reverse postorder, a block is
      processed only after everything before it, and the entry is its own parent. */
  ghost predicate Shape(n: Numbering, idom: seq<int>)
    requires Numbered(n)
  {
    && |idom| == |n.g|
    && idom[0] == 0
    && (forall x: nat {:trigger idom[x]} | x < |n.g| && x != 0 && idom[x] >= 0 ::
          n.rank[x] >= 0 && HasParent(n.rank, idom, x))
    && (forall x: nat, y: nat {:trigger Before(n, y, x)} | Before(n, y, x) && idom[x] >= 0 :: idom[y] >= 0)
  }

  ghost predicate Before(n: Numbering, y: nat, x: nat)
    requires |n.rank| == |n.g|
  {
    x < |n.g| && y < |n.g| && 0 <= n.rank[y] < n.rank[x]
  }

  /** What is an ancestor of every processed predecessor is an ancestor of the parent. */
  ghost predicate Closed(n: Numbering, idom: seq<int>)
    requires Numbered(n) && Shape(n, idom)
  {
    forall x: nat, a: nat {:trigger CommonAnc(n, idom, a, x)} | x < |n.g| && x != 0 && idom[x] >= 0 &&
        CommonAnc(n, idom, a, x) ::
      Anc(n.rank, idom, a, idom[x])
  }

  ghost predicate CommonAnc(n: Numbering, idom: seq<int>, a: nat, x: nat)
    requires Numbered(n) && |idom| == |n.g| && x < |n.g|
  {
    forall p | p in n.preds[x] && Processed(idom, p) :: Anc(n.rank, idom, a, p)
  }

  /** No true dominator has been lost. */
  ghost predicate Complete(n: Numbering, idom: seq<int>)
    requires Numbered(n) && Shape(n, idom)
  {
    forall x: nat, a: nat {:trigger Dominates(n.g, a, x)} | x < |n.g| && idom[x] >= 0 && Dominates(n.g, a, x) ::
        Anc(n.rank, idom, a, x)
  }

  /** Blocks before position `i` have been recomputed in this pass, the others in the
      one before: so a parent's chain passes through every earlier predecessor, except
      for the part of it that this pass may already have moved. */
  ghost predicate Ordered(n: Numbering, idom: seq<int>, i: int)
    requires Numbered(n) && Shape(n, idom)
  {
    forall x: nat, p: nat, z: nat {:trigger p in n.preds[x], Anc(n.rank, idom, z, idom[x])}
      | x < |n.g| && x != 0 && idom[x] >= 0 && p in n.preds[x] && p < |n.g| && n.rank[p] < n.rank[x]
        && z < |n.g| && Anc(n.rank, idom, z, idom[x]) && (n.rank[x] < i || n.rank[z] >= i)
      :: Anc(n.rank, idom, z, p)
  }

  ghost predicate Invariant(n: Numbering, idom: seq<int>, i: int) {
    && Numbered(n)
    && Shape(n, idom)
    && Closed(n, idom)
    && Complete(n, idom)
    && Ordered(n, idom, i)
  }

  /** `m` is the nearest common ancestor of the processed predecessors of `c`. */
  ghost predicate Meet(n: Numbering, idom: seq<int>, c: nat, m: nat)
    requires Numbered(n) && |idom| == |n.g| && c < |n.g|
  {
    && m < |n.g|
    && CommonAnc(n, idom, m, c)
    && forall a: nat | CommonAnc(n, idom, a, c) :: Anc(n.rank, idom, a, m)
  }

  /** The setting of one assignment `c->idom = m`. */
  ghost predicate Update(n: Numbering, idom: seq<int>, i: int, c: nat, m: nat) {
    && Invariant(n, idom, i)
    && 0 < i < |n.rpo|
    && c == n.rpo[i]
    && (forall y: nat | Before(n, y, c) :: idom[y] >= 0)
    && Meet(n, idom, c, m)
  }

  lemma EarlierPred(n: Numbering, idom: seq<int>, x: nat) returns (p: nat)
    requires Numbered(n) && x < |n.g| && n.rank[x] > 0
    ensures p in n.preds[x] && p < |n.g| && 0 <= n.rank[p] < n.rank[x] && Edge(n.g, p, x)
  {
    assert HasEarlierPred(n, x);
    p :| p in n.preds[x] && p < |n.g| && n.rank[p] < n.rank[x];
  }

  /** The new parent is strictly earlier than the block, and already processed. */
  lemma MeetIsEarlier(n: Numbering, idom: seq<int>, i: int, c: nat, m: nat)
    requires Update(n, idom, i, c, m)
    ensures 0 <= n.rank[m] < n.rank[c] && idom[m] >= 0
    ensures !Anc(n.rank, idom, c, m)
  {
    var p := EarlierPred(n, idom, c);
    assert Before(n, p, c);
    AncRank(n.rank, idom, m, p);
    if Anc(n.rank, idom, c, m) {
      AncRank(n.rank, idom, c, m);
    }
  }

  /** Ancestors are processed, so a block not yet processed has no descendant. */
  lemma {:induction false} AncProcessed(n: Numbering, idom: seq<int>, a: nat, x: nat)
    requires Numbered(n) && Shape(n, idom)
    requires x < |n.g| && idom[x] >= 0 && Anc(n.rank, idom, a, x)
    ensures a < |n.g| && idom[a] >= 0 && n.rank[a] >= 0
    decreases if n.rank[x] >= 0 then n.rank[x] else 0
  {
    if a != x {
      assert Before(n, idom[x], x);
      AncProcessed(n, idom, a, idom[x]);
    }
  }

  /** Below `c` nothing moves: a block that does not descend from `c` keeps its ancestors. */
  lemma {:induction false} AncElsewhere(n: Numbering, idom: seq<int>, c: nat, m: nat, a: nat, x: nat)
    requires Numbered(n) && |idom| == |n.g| && c < |n.g| && m < |n.g|
    requires !Anc(n.rank, idom, c, x)
    ensures Anc(n.rank, idom[c := m], a, x) <==> Anc(n.rank, idom, a, x)
    decreases if x < |n.rank| && n.rank[x] >= 0 then n.rank[x] else 0
  {
    if HasParent(n.rank, idom, x) {
      AncElsewhere(n, idom, c, m, a, idom[x]);
    }
  }

  /** A descendant of `c` keeps its chain up to `c`, and continues from the new parent. */
  lemma {:induction false} AncBelow(n: Numbering, idom: seq<int>, c: nat, m: nat, a: nat, x: nat)
    requires Numbered(n) && |idom| == |n.g| && c < |n.g| && m < |n.g|
    requires 0 <= n.rank[m] < n.rank[c]
    requires x < |n.g| && n.rank[x] >= 0 && Anc(n.rank, idom, c, x)
    ensures Anc(n.rank, idom[c := m], a, x) <==>
            (Anc(n.rank, idom, a, x) && Anc(n.rank, idom, c, a)) || Anc(n.rank, idom, a, m)
    decreases n.rank[x]
  {
    assert !Anc(n.rank, idom, c, m) by {
      if Anc(n.rank, idom, c, m) { AncRank(n.rank, idom, c, m); }
    }
    if x == c {
      AncElsewhere(n, idom, c, m, a, m);
      if Anc(n.rank, idom, a, c) && Anc(n.rank, idom, c, a) && a != c {
        AncRank(n.rank, idom, a, c);
        AncRank(n.rank, idom, c, a);
      }
    } else {
      AncBelow(n, idom, c, m, a, idom[x]);
      if a == x {
        assert Anc(n.rank, idom, c, a);
      }
    }
  }

  /** Moving `c` to a meet of its predecessors only removes ancestors. */
  lemma AncShrinks(n: Numbering, idom: seq<int>, i: int, c: nat, m: nat, a: nat, x: nat)
    requires Update(n, idom, i, c, m)
    requires x < |n.g| && idom[x] >= 0
    requires Anc(n.rank, idom[c := m], a, x)
    ensures Anc(n.rank, idom, a, x)
  {
    MeetIsEarlier(n, idom, i, c, m);
    if Anc(n.rank, idom, c, x) {
      AncProcessed(n, idom, c, x);
      AncBelow(n, idom, c, m, a, x);
      if Anc(n.rank, idom, a, m) {
        assert Anc(n.rank, idom, m, idom[c]);
        AncTransitive(n.rank, idom, a, m, idom[c]);
        assert Anc(n.rank, idom, a, c);
        AncTransitive(n.rank, idom, a, c, x);
      }
    } else {
      AncElsewhere(n, idom, c, m, a, x);
    }
  }

  lemma UpdateShape(n: Numbering, idom: seq<int>, i: int, c: nat, m: nat)
    requires Update(n, idom, i, c, m)
    ensures Shape(n, idom[c := m])
  {
    MeetIsEarlier(n, idom, i, c, m);
    MoveShape(n, idom, c, m);
  }

  lemma MoveShape(n: Numbering, idom: seq<int>, c: nat, m: nat)
    requires Numbered(n) && Shape(n, idom)
    requires c < |n.g| && m < |n.g| && 0 <= n.rank[m] < n.rank[c]
    requires forall y: nat | Before(n, y, c) :: idom[y] >= 0
    ensures Shape(n, idom[c := m])
  {
    var after := idom[c := m];
    assert n.rank[0] == 0;
    forall x: nat, y: nat | Before(n, y, x) && after[x] >= 0
      ensures after[y] >= 0
    {
      assert idom[y] >= 0;
    }
    forall x: nat | x < |n.g| && x != 0 && after[x] >= 0
      ensures n.rank[x] >= 0 && HasParent(n.rank, after, x)
    {
      if x != c {
        assert HasParent(n.rank, idom, x);
      }
    }
  }

  /** Every block whose chain goes through `c` has an earlier predecessor whose chain does. */
  lemma PredBelow(n: Numbering, idom: seq<int>, i: int, c: nat, m: nat, x: nat) returns (p: nat)
    requires Update(n, idom, i, c, m)
    requires x < |n.g| && x != c && idom[x] >= 0 && Anc(n.rank, idom, c, x)
    ensures p in n.preds[x] && p < |n.g| && 0 <= n.rank[p] < n.rank[x] && Edge(n.g, p, x)
    ensures idom[p] >= 0 && Anc(n.rank, idom, c, p)
  {
    AncRank(n.rank, idom, c, x);
    p := EarlierPred(n, idom, x);
    assert Before(n, p, x);
  }

  lemma UpdateClosed(n: Numbering, idom: seq<int>, i: int, c: nat, m: nat)
    requires Update(n, idom, i, c, m)
    ensures Shape(n, idom[c := m]) && Closed(n, idom[c := m])
  {
    var after := idom[c := m];
    UpdateShape(n, idom, i, c, m);
    MeetIsEarlier(n, idom, i, c, m);
    forall x: nat, a: nat | x < |n.g| && x != 0 && after[x] >= 0 && CommonAnc(n, after, a, x)
      ensures Anc(n.rank, after, a, after[x])
    {
      CommonAncShrinks(n, idom, i, c, m, a, x);
      if x == c {
        AncElsewhere(n, idom, c, m, a, m);
      } else if Anc(n.rank, idom, c, idom[x]) {
        var p := PredBelow(n, idom, i, c, m, x);
        assert Processed(after, p);
        assert Anc(n.rank, after, a, p);
        AncBelow(n, idom, c, m, a, p);
        AncBelow(n, idom, c, m, a, idom[x]);
      } else {
        AncElsewhere(n, idom, c, m, a, idom[x]);
      }
    }
  }

  lemma CommonAncShrinks(n: Numbering, idom: seq<int>, i: int, c: nat, m: nat, a: nat, x: nat)
    requires Update(n, idom, i, c, m)
    requires x < |n.g| && CommonAnc(n, idom[c := m], a, x)
    ensures CommonAnc(n, idom, a, x)
  {
    forall p | p in n.preds[x] && Processed(idom, p)
      ensures Anc(n.rank, idom, a, p)
    {
      assert Processed(idom[c := m], p);
      AncShrinks(n, idom, i, c, m, a, p);
    }
  }

  /** A dominator of a block below `c`, itself above `c`, survives the move of `c`. */
  lemma {:induction false} DominatorSurvives(n: Numbering, idom: seq<int>, i: int, c: nat, m: nat, a: nat, x: nat)
    requires Update(n, idom, i, c, m)
    requires x < |n.g| && Anc(n.rank, idom, c, x) && (x == c || idom[x] >= 0)
    requires Dominates(n.g, a, x) && !Anc(n.rank, idom, c, a)
    ensures Anc(n.rank, idom, a, m)
    decreases n.rank[x]
  {
    assert a != c;
    if x == c {
      forall p | p in n.preds[c] && Processed(idom, p)
        ensures Anc(n.rank, idom, a, p)
      {
        DominatesPred(n.g, a, p, c);
      }
      assert CommonAnc(n, idom, a, c);
    } else {
      var p := PredBelow(n, idom, i, c, m, x);
      assert a != x;
      DominatesPred(n.g, a, p, x);
      DominatorSurvives(n, idom, i, c, m, a, p);
    }
  }

  lemma UpdateComplete(n: Numbering, idom: seq<int>, i: int, c: nat, m: nat)
    requires Update(n, idom, i, c, m)
    ensures Shape(n, idom[c := m]) && Complete(n, idom[c := m])
  {
    var after := idom[c := m];
    UpdateShape(n, idom, i, c, m);
    MeetIsEarlier(n, idom, i, c, m);
    forall x: nat, a: nat | x < |n.g| && after[x] >= 0 && Dominates(n.g, a, x)
      ensures Anc(n.rank, after, a, x)
    {
      if Anc(n.rank, idom, c, x) {
        if x != c {
          AncProcessed(n, idom, c, x);
        }
        AncBelow(n, idom, c, m, a, x);
        if !Anc(n.rank, idom, c, a) {
          DominatorSurvives(n, idom, i, c, m, a, x);
        } else if x == c && a != c {
          AncDominatesItself(n, idom, i, c, m, a);
        }
      } else {
        AncElsewhere(n, idom, c, m, a, x);
      }
    }
  }

  lemma AncDominatesItself(n: Numbering, idom: seq<int>, i: int, c: nat, m: nat, a: nat)
    requires Update(n, idom, i, c, m)
    requires Dominates(n.g, a, c) && a != c
    ensures Anc(n.rank, idom, a, m)
  {
    forall p | p in n.preds[c] && Processed(idom, p)
      ensures Anc(n.rank, idom, a, p)
    {
      DominatesPred(n.g, a, p, c);
    }
    assert CommonAnc(n, idom, a, c);
  }

  lemma UpdateOrdered(n: Numbering, idom: seq<int>, i: int, c: nat, m: nat)
    requires Update(n, idom, i, c, m)
    ensures Shape(n, idom[c := m]) && Ordered(n, idom[c := m], i + 1)
  {
    var after := idom[c := m];
    UpdateShape(n, idom, i, c, m);
    forall x: nat, p: nat, z: nat
      | x < |n.g| && x != 0 && after[x] >= 0 && p in n.preds[x] && p < |n.g| && n.rank[p] < n.rank[x]
        && z < |n.g| && Anc(n.rank, after, z, after[x]) && (n.rank[x] < i + 1 || n.rank[z] >= i + 1)
      ensures Anc(n.rank, after, z, p)
    {
      if x == c {
        OrderedAtMoved(n, idom, i, c, m, p, z);
      } else {
        OrderedElsewhere(n, idom, i, c, m, x, p, z);
      }
    }
  }

  lemma OrderedAtMoved(n: Numbering, idom: seq<int>, i: int, c: nat, m: nat, p: nat, z: nat)
    requires Update(n, idom, i, c, m)
    requires p in n.preds[c] && p < |n.g| && n.rank[p] < n.rank[c]
    requires Anc(n.rank, idom[c := m], z, m)
    ensures Anc(n.rank, idom[c := m], z, p)
  {
    MeetIsEarlier(n, idom, i, c, m);
    assert Before(n, p, c);
    assert Processed(idom, p);
    OrderedMoved(n, idom, c, m, p, z);
  }

  lemma OrderedElsewhere(n: Numbering, idom: seq<int>, i: int, c: nat, m: nat, x: nat, p: nat, z: nat)
    requires Update(n, idom, i, c, m)
    requires x < |n.g| && x != 0 && x != c && idom[x] >= 0
    requires p in n.preds[x] && p < |n.g| && n.rank[p] < n.rank[x]
    requires z < |n.g| && Anc(n.rank, idom[c := m], z, idom[x]) && (n.rank[x] < i + 1 || n.rank[z] >= i + 1)
    ensures Anc(n.rank, idom[c := m], z, p)
  {
    assert n.rank[c] == i && n.rpo[n.rank[x]] == x;
    ParentShrinks(n, idom, i, c, m, z, x);
    assert n.rank[x] < i || n.rank[z] >= i;
    assert Anc(n.rank, idom, z, p);
    if Anc(n.rank, idom, c, p) {
      AncRank(n.rank, idom, c, p);
    }
    OrderedKept(n, idom, c, m, p, z);
  }

  lemma ParentShrinks(n: Numbering, idom: seq<int>, i: int, c: nat, m: nat, z: nat, x: nat)
    requires Update(n, idom, i, c, m)
    requires x < |n.g| && x != 0 && idom[x] >= 0
    requires Anc(n.rank, idom[c := m], z, idom[x])
    ensures Anc(n.rank, idom, z, idom[x])
    ensures 0 <= n.rank[m] < n.rank[c]
  {
    assert Before(n, idom[x], x);
    AncShrinks(n, idom, i, c, m, z, idom[x]);
    MeetIsEarlier(n, idom, i, c, m);
  }

  lemma OrderedKept(n: Numbering, idom: seq<int>, c: nat, m: nat, p: nat, z: nat)
    requires Numbered(n) && |idom| == |n.g|
    requires c < |n.g| && m < |n.g| && 0 <= n.rank[m] < n.rank[c]
    requires p < |n.g| && n.rank[p] >= 0 && z < |n.g|
    requires Anc(n.rank, idom, z, p)
    requires Anc(n.rank, idom, c, p) ==> n.rank[z] > n.rank[c]
    ensures Anc(n.rank, idom[c := m], z, p)
  {
    if Anc(n.rank, idom, c, p) {
      AncLinear(n.rank, idom, c, z, p);
      AncBelow(n, idom, c, m, z, p);
    } else {
      AncElsewhere(n, idom, c, m, z, p);
    }
  }

  lemma OrderedMoved(n: Numbering, idom: seq<int>, c: nat, m: nat, p: nat, z: nat)
    requires Numbered(n) && |idom| == |n.g|
    requires c < |n.g| && m < |n.g| && 0 <= n.rank[m] < n.rank[c]
    requires p < |n.g| && 0 <= n.rank[p] < n.rank[c] && Anc(n.rank, idom, m, p)
    requires Anc(n.rank, idom[c := m], z, m)
    ensures Anc(n.rank, idom[c := m], z, p)
  {
    NotBelowEarlier(n, idom, c, m);
    NotBelowEarlier(n, idom, c, p);
    AncElsewhere(n, idom, c, m, z, m);
    AncElsewhere(n, idom, c, m, z, p);
    AncTransitive(n.rank, idom, z, m, p);
  }

  lemma NotBelowEarlier(n: Numbering, idom: seq<int>, c: nat, x: nat)
    requires Numbered(n) && c < |n.g| && x < |n.g| && 0 <= n.rank[x] < n.rank[c]
    ensures !Anc(n.rank, idom, c, x)
  {
    if Anc(n.rank, idom, c, x) {
      AncRank(n.rank, idom, c, x);
    }
  }

  /** One assignment of the iteration keeps every invariant. */
  lemma UpdateKeepsInvariant(n: Numbering, idom: seq<int>, i: int, c: nat, m: nat)
    requires Update(n, idom, i, c, m)
    ensures Invariant(n, idom[c := m], i + 1)
    ensures 0 <= n.rank[m] < n.rank[c]
    ensures idom[c] >= 0 && idom[c] != m ==> idom[c] < |n.g| && n.rank[m] < n.rank[idom[c]]
  {
    UpdateClosed(n, idom, i, c, m);
    UpdateComplete(n, idom, i, c, m);
    UpdateOrdered(n, idom, i, c, m);
    MeetIsEarlier(n, idom, i, c, m);
    if idom[c] >= 0 && idom[c] != m {
      assert Anc(n.rank, idom, m, idom[c]);
      AncRank(n.rank, idom, m, idom[c]);
    }
  }

  // ----------------------------------------------------------- the iteration

  /** The tree as the iteration sees it: unreachable blocks take no part. */
  ghost function View(n: Numbering, idom: seq<int>): (v: seq<int>)
    requires |n.rank| == |n.g| == |idom|
    ensures |v| == |idom|
    ensures forall b | 0 <= b < |idom| :: v[b] == if n.rank[b] >= 0 then idom[b] else -1
  {
    seq(|idom|, b requires 0 <= b < |idom| => if n.rank[b] >= 0 then idom[b] else -1)
  }

  /** Taking one step up from the later of two blocks keeps their common ancestors. */
  lemma StepUp(rank: seq<int>, idom: seq<int>, a: nat, b: nat)
    requires a < |rank| && b < |rank| && 0 <= rank[b] < rank[a] && HasParent(rank, idom, a)
    ensures forall z: nat :: Anc(rank, idom, z, a) && Anc(rank, idom, z, b) <==>
                             Anc(rank, idom, z, idom[a]) && Anc(rank, idom, z, b)
  {
    forall z: nat
      ensures Anc(rank, idom, z, a) && Anc(rank, idom, z, b) <==>
              Anc(rank, idom, z, idom[a]) && Anc(rank, idom, z, b)
    {
      if Anc(rank, idom, a, b) {
        AncRank(rank, idom, a, b);
      }
    }
  }

  /** A block whose chain reaches the entry through processed blocks. */
  ghost predicate Rooted(n: Numbering, idom: seq<int>)
    requires |n.rank| == |n.g| == |idom|
  {
    forall x: nat {:trigger HasParent(n.rank, idom, x)} | x < |n.g| && n.rank[x] > 0 && idom[x] >= 0 ::
      HasParent(n.rank, idom, x) && idom[idom[x]] >= 0
  }

  method Intersect(f: Function, x: nat, y: nat) returns (m: nat)
    requires Numbered(f.Analysis()) && |f.idom| == |f.code|
    requires x < |f.code| && y < |f.code| && f.rpoIndex[x] >= 0 && f.rpoIndex[y] >= 0
    requires f.idom[x] >= 0 && f.idom[y] >= 0 && Rooted(f.Analysis(), f.idom)
    ensures m < |f.code| && f.rpoIndex[m] >= 0 && f.idom[m] >= 0
    ensures forall z: nat :: Anc(f.rpoIndex, f.idom, z, x) && Anc(f.rpoIndex, f.idom, z, y) <==>
                             Anc(f.rpoIndex, f.idom, z, m)
  {
    var a: nat, b: nat := x, y;
    while a != b
      invariant a < |f.code| && b < |f.code| && f.rpoIndex[a] >= 0 && f.rpoIndex[b] >= 0
      invariant f.idom[a] >= 0 && f.idom[b] >= 0
      invariant forall z: nat :: Anc(f.rpoIndex, f.idom, z, x) && Anc(f.rpoIndex, f.idom, z, y) <==>
                                 Anc(f.rpoIndex, f.idom, z, a) && Anc(f.rpoIndex, f.idom, z, b)
      decreases f.rpoIndex[a] + f.rpoIndex[b]
    {
      ghost var before := f.rpoIndex[a] + f.rpoIndex[b];
      assert f.rpo[f.rpoIndex[a]] == a && f.rpo[f.rpoIndex[b]] == b;
      while f.rpoIndex[a] > f.rpoIndex[b]
        invariant a < |f.code| && f.rpoIndex[a] >= 0 && f.idom[a] >= 0
        invariant f.rpoIndex[a] + f.rpoIndex[b] < before ||
                  (f.rpoIndex[a] + f.rpoIndex[b] == before && f.rpoIndex[a] != f.rpoIndex[b])
        invariant forall z: nat :: Anc(f.rpoIndex, f.idom, z, x) && Anc(f.rpoIndex, f.idom, z, y) <==>
                                   Anc(f.rpoIndex, f.idom, z, a) && Anc(f.rpoIndex, f.idom, z, b)
        decreases f.rpoIndex[a]
      {
        StepUp(f.rpoIndex, f.idom, a, b);
        a := f.idom[a];
      }
      while f.rpoIndex[b] > f.rpoIndex[a]
        invariant b < |f.code| && f.rpoIndex[b] >= 0 && f.idom[b] >= 0
        invariant f.rpoIndex[a] + f.rpoIndex[b] < before ||
                  (f.rpoIndex[a] + f.rpoIndex[b] == before && f.rpoIndex[b] > f.rpoIndex[a])
        invariant forall z: nat :: Anc(f.rpoIndex, f.idom, z, x) && Anc(f.rpoIndex, f.idom, z, y) <==>
                                   Anc(f.rpoIndex, f.idom, z, a) && Anc(f.rpoIndex, f.idom, z, b)
        decreases f.rpoIndex[b]
      {
        StepUp(f.rpoIndex, f.idom, b, a);
        b := f.idom[b];
      }
    }
    m := a;
  }

  /** The finished tree: the entry is its root, every other reachable block has an
      earlier parent, and that parent is above every predecessor of the block. */
  ghost predicate DomTree(n: Numbering, idom: seq<int>)
    requires Numbered(n)
  {
    && |idom| == |n.g|
    && idom[0] == -1
    && (forall x: nat {:trigger HasParent(n.rank, idom, x)} | x < |n.g| && n.rank[x] > 0 :: HasParent(n.rank, idom, x))
    && (forall x: nat, p: nat {:trigger p in n.preds[x]} | x < |n.g| && n.rank[x] > 0 && p in n.preds[x] ::
          idom[x] >= 0 && Anc(n.rank, idom, idom[x], p))
  }

  /** Walking the tree answers the dominance question, both ways. */
  ghost predicate Exact(n: Numbering, idom: seq<int>)
    requires Numbered(n)
  {
    forall a: nat, b: nat {:trigger Anc(n.rank, idom, a, b)} {:trigger Dominates(n.g, a, b)}
      | b < |n.g| && n.rank[b] >= 0 ::
      Anc(n.rank, idom, a, b) <==> Dominates(n.g, a, b)
  }

  lemma {:induction false} AncView(n: Numbering, idom: seq<int>, a: nat, x: nat)
    requires |n.rank| == |n.g| == |idom| && x < |n.g| && n.rank[x] >= 0
    ensures Anc(n.rank, View(n, idom), a, x) <==> Anc(n.rank, idom, a, x)
    decreases n.rank[x]
  {
    if HasParent(n.rank, idom, x) {
      AncView(n, idom, a, idom[x]);
    }
  }

  /** The entry's scaffolding parent is never followed. */
  lemma {:induction false} AncSameWalk(rank: seq<int>, idom: seq<int>, other: seq<int>, a: nat, x: nat)
    requires |idom| == |other| == |rank| && x < |rank| && rank[x] >= 0
    requires forall y: nat | y < |rank| && rank[y] > 0 :: idom[y] == other[y]
    ensures Anc(rank, idom, a, x) <==> Anc(rank, other, a, x)
    decreases rank[x]
  {
    if rank[x] > 0 && HasParent(rank, idom, x) {
      AncSameWalk(rank, idom, other, a, idom[x]);
    }
  }

  /** An ancestor in a finished tree is on every path: the meaning of the tree, one way. */
  lemma {:induction false} AncOnPath(n: Numbering, idom: seq<int>, a: nat, x: nat, path: seq<nat>)
    requires Numbered(n) && DomTree(n, idom)
    requires x < |n.g| && n.rank[x] >= 0 && Anc(n.rank, idom, a, x) && PathTo(n.g, path, x)
    ensures a in path
    decreases |path|
  {
    if a != x {
      if |path| == 1 {
        assert false;
      } else {
        var p := path[|path| - 2];
        assert path[|path| - 2 + 1] == x;
        assert Edge(n.g, p, x);
        var shorter := path[..|path| - 1];
        assert PathTo(n.g, shorter, p);
        PathInRange(n, shorter, p);
        assert p in n.preds[x];
        AncTransitive(n.rank, idom, a, idom[x], p);
        AncOnPath(n, idom, a, p, shorter);
      }
    }
  }

  lemma {:induction false} PathInRange(n: Numbering, path: seq<nat>, b: nat)
    requires Numbered(n) && PathTo(n.g, path, b)
    ensures b < |n.g| && n.rank[b] >= 0
    decreases |path|
  {
    if |path| > 1 {
      var p := path[|path| - 2];
      assert path[|path| - 2 + 1] == b;
      assert Edge(n.g, p, b);
      assert PathTo(n.g, path[..|path| - 1], p);
      PathInRange(n, path[..|path| - 1], p);
    }
  }

  // How far the parents still have to move: a bound for the number of changes.
  ghost function Potential(n: Numbering, idom: seq<int>, k: nat): nat
    requires Numbered(n) && |idom| == |n.g| && k <= |n.rpo|
  {
    if k == 0 then 0 else Potential(n, idom, k - 1) + Height(n, idom, n.rpo[k - 1])
  }

  ghost function Height(n: Numbering, idom: seq<int>, x: nat): nat
    requires Numbered(n) && |idom| == |n.g| && x < |n.g|
  {
    if 0 <= idom[x] < |n.g| && n.rank[idom[x]] >= 0 then n.rank[idom[x]] else |n.rpo|
  }

  lemma {:induction false} PotentialDrops(n: Numbering, idom: seq<int>, c: nat, m: nat, k: nat)
    requires Numbered(n) && |idom| == |n.g| && k <= |n.rpo|
    requires c < |n.g| && n.rank[c] >= 0 && m < |n.g| && 0 <= n.rank[m] < Height(n, idom, c)
    ensures k <= n.rank[c] ==> Potential(n, idom[c := m], k) == Potential(n, idom, k)
    ensures n.rank[c] < k ==> Potential(n, idom[c := m], k) < Potential(n, idom, k)
  {
    if k > 0 {
      PotentialDrops(n, idom, c, m, k - 1);
      assert n.rank[n.rpo[k - 1]] == k - 1;
    }
  }

  lemma InitialInvariant(n: Numbering, v: seq<int>)
    requires Numbered(n) && |v| == |n.g|
    requires forall x: nat | x < |n.g| :: v[x] == if x == 0 then 0 else -1
    ensures Invariant(n, v, 1)
  {
    assert n.rank[n.rpo[0]] == 0;
    forall a: nat | Dominates(n.g, a, 0)
      ensures Anc(n.rank, v, a, 0)
    {
      EntryDominatedOnlyByItself(n.g, a);
    }
  }

  lemma NextPass(n: Numbering, v: seq<int>)
    requires Invariant(n, v, |n.rpo|)
    ensures Invariant(n, v, 1)
  {
  }

  /** All blocks are processed and every parent is the meet of its block's predecessors. */
  ghost predicate Fixed(n: Numbering, v: seq<int>)
    requires Numbered(n) && |v| == |n.g|
  {
    && (forall x: nat | x < |n.g| && n.rank[x] >= 0 :: v[x] >= 0)
    && (forall x: nat | x < |n.g| && n.rank[x] > 0 && v[x] >= 0 :: Meet(n, v, x, v[x]))
  }

  /** At the fixed point the tree is the dominator tree. */
  lemma FixedIsExact(n: Numbering, v: seq<int>, idom: seq<int>)
    requires Invariant(n, v, 1) && Fixed(n, v)
    requires |idom| == |n.g| && idom[0] == -1
    requires forall x: nat | x < |n.g| && n.rank[x] > 0 :: idom[x] == v[x]
    ensures DomTree(n, idom) && Exact(n, idom)
  {
    assert n.rank[n.rpo[0]] == 0;
    forall x: nat, p: nat | x < |n.g| && n.rank[x] > 0 && p in n.preds[x]
      ensures Anc(n.rank, idom, idom[x], p)
    {
      assert Meet(n, v, x, v[x]);
      assert Processed(v, p);
      AncSameWalk(n.rank, v, idom, v[x], p);
    }
    forall x: nat | x < |n.g| && n.rank[x] > 0
      ensures HasParent(n.rank, idom, x)
    {
      assert HasParent(n.rank, v, x);
    }
    forall a: nat, b: nat | b < |n.g| && n.rank[b] >= 0
      ensures Anc(n.rank, idom, a, b) <==> Dominates(n.g, a, b)
    {
      AncSameWalk(n.rank, v, idom, a, b);
      if Anc(n.rank, idom, a, b) {
        forall path | PathTo(n.g, path, b)
          ensures a in path
        {
          AncOnPath(n, idom, a, b, path);
        }
      }
    }
  }

  ghost predicate CommonAncUpTo(n: Numbering, idom: seq<int>, a: nat, x: nat, k: nat)
    requires Numbered(n) && |idom| == |n.g| && x < |n.g| && k <= |n.preds[x]|
  {
    forall j | 0 <= j < k && Processed(idom, n.preds[x][j]) :: Anc(n.rank, idom, a, n.preds[x][j])
  }

  lemma CommonAncStep(n: Numbering, idom: seq<int>, x: nat, k: nat)
    requires Numbered(n) && |idom| == |n.g| && x < |n.g| && k < |n.preds[x]|
    ensures forall a: nat :: CommonAncUpTo(n, idom, a, x, k + 1) <==>
              CommonAncUpTo(n, idom, a, x, k) &&
              (Processed(idom, n.preds[x][k]) ==> Anc(n.rank, idom, a, n.preds[x][k]))
  {
  }

  lemma CommonAncAll(n: Numbering, idom: seq<int>, x: nat)
    requires Numbered(n) && |idom| == |n.g| && x < |n.g|
    ensures forall a: nat :: CommonAncUpTo(n, idom, a, x, |n.preds[x]|) <==> CommonAnc(n, idom, a, x)
  {
  }

  /** The meet of the first `k` predecessors that have been processed; -1 for none. */
  ghost predicate MeetSoFar(n: Numbering, idom: seq<int>, x: nat, k: nat, m: int)
    requires Numbered(n) && |idom| == |n.g| && x < |n.g|
  {
    match n
    case Numbering(_, _, rank, preds) =>
      && k <= |preds[x]| && -1 <= m < |rank|
      && (if m < 0 then forall j | 0 <= j < k :: !Processed(idom, preds[x][j])
          else && rank[m] >= 0 && idom[m] >= 0
               && forall a: nat :: CommonAncUpTo(n, idom, a, x, k) <==> Anc(rank, idom, a, m))
  }

  lemma MeetNext(n: Numbering, idom: seq<int>, x: nat, k: nat, m: int, m': int)
    requires Numbered(n) && |idom| == |n.g| && x < |n.g|
    requires MeetSoFar(n, idom, x, k, m) && k < |n.preds[x]| && n.preds[x][k] < |n.g|
    requires if idom[n.preds[x][k]] < 0 then m' == m
             else if m < 0 then m' == n.preds[x][k]
             else 0 <= m' < |n.g| && n.rank[m'] >= 0 && idom[m'] >= 0 &&
                  forall z: nat ::
                      Anc(n.rank, idom, z, n.preds[x][k]) && Anc(n.rank, idom, z, m) <==> Anc(n.rank, idom, z, m')
    ensures MeetSoFar(n, idom, x, k + 1, m')
  {
    assert n.preds[x][k] in n.preds[x];
    CommonAncStep(n, idom, x, k);
  }

  lemma MeetDone(n: Numbering, idom: seq<int>, x: nat, m: int)
    requires Numbered(n) && |idom| == |n.g| && x < |n.g| && n.rank[x] > 0
    requires MeetSoFar(n, idom, x, |n.preds[x]|, m)
    requires forall y: nat | Before(n, y, x) :: idom[y] >= 0
    ensures 0 <= m < |n.g| && n.rank[m] >= 0
    ensures CommonAnc(n, idom, m, x)
    ensures forall a: nat | CommonAnc(n, idom, a, x) :: Anc(n.rank, idom, a, m)
  {
    var early := EarlierPred(n, idom, x);
    assert Before(n, early, x);
    assert Processed(idom, early);
    CommonAncAll(n, idom, x);
    assert Anc(n.rank, idom, m, m);
  }

  /** The loop over a block's predecessors computes their meet. */
  method MeetOfPreds(f: Function, ghost n: Numbering, block: nat) returns (newIdom: int)
    requires n == f.Analysis() && Numbered(n) && |f.idom| == |n.g|
    requires Rooted(n, f.idom) && f.idom[0] >= 0
    requires block < |n.g| && n.rank[block] > 0
    requires forall y: nat | Before(n, y, block) :: f.idom[y] >= 0
    ensures 0 <= newIdom < |n.g| && n.rank[newIdom] >= 0
    ensures CommonAnc(n, f.idom, newIdom, block)
    ensures forall a: nat | CommonAnc(n, f.idom, a, block) :: Anc(n.rank, f.idom, a, newIdom)
  {
    newIdom := -1;
    for p: nat := 0 to |f.preds[block]|
      invariant MeetSoFar(n, f.idom, block, p, newIdom)
    {
      var pred := f.preds[block][p];
      assert pred in n.preds[block];
      ghost var before := newIdom;
      if f.idom[pred] >= 0 {
        if newIdom >= 0 {
          newIdom := Intersect(f, pred, newIdom);
        } else {
          newIdom := pred;
        }
      }
      MeetNext(n, f.idom, block, p, before, newIdom);
    }
    MeetDone(n, f.idom, block, newIdom);
  }

  lemma ShapeIsRooted(n: Numbering, idom: seq<int>)
    requires Numbered(n) && |idom| == |n.g| && Shape(n, View(n, idom))
    ensures Rooted(n, idom) && idom[0] >= 0
  {
    var v := View(n, idom);
    assert n.rank[n.rpo[0]] == 0;
    forall x: nat | x < |n.g| && n.rank[x] > 0 && idom[x] >= 0
      ensures HasParent(n.rank, idom, x) && idom[idom[x]] >= 0
    {
      assert HasParent(n.rank, v, x);
      assert Before(n, idom[x], x);
      assert v[idom[x]] >= 0;
    }
  }

  lemma MeetInView(n: Numbering, idom: seq<int>, c: nat, m: nat)
    requires Numbered(n) && |idom| == |n.g| && c < |n.g| && m < |n.g| && n.rank[m] >= 0
    requires CommonAnc(n, idom, m, c)
    requires forall a: nat | CommonAnc(n, idom, a, c) :: Anc(n.rank, idom, a, m)
    ensures Meet(n, View(n, idom), c, m)
  {
    var v := View(n, idom);
    forall a: nat
      ensures CommonAnc(n, v, a, c) <==> CommonAnc(n, idom, a, c)
    {
      CommonAncView(n, idom, a, c);
    }
    forall a: nat | CommonAnc(n, v, a, c)
      ensures Anc(n.rank, v, a, m)
    {
      AncView(n, idom, a, m);
    }
  }

  lemma CommonAncView(n: Numbering, idom: seq<int>, a: nat, c: nat)
    requires Numbered(n) && |idom| == |n.g| && c < |n.g|
    ensures CommonAnc(n, View(n, idom), a, c) <==> CommonAnc(n, idom, a, c)
  {
    var v := View(n, idom);
    forall p | p in n.preds[c]
      ensures Processed(v, p) <==> Processed(idom, p)
      ensures Anc(n.rank, v, a, p) <==> Anc(n.rank, idom, a, p)
    {
      AncView(n, idom, a, p);
    }
  }

  /** What holds between two blocks of one pass. */
  ghost predicate PassInvariant(n: Numbering, idom: seq<int>, i: int) {
    && Numbered(n)
    && |idom| == |n.g|
    && 1 <= i <= |n.rpo|
    && Invariant(n, View(n, idom), i)
    && ProcessedBelow(n, idom, i)
  }

  ghost predicate ProcessedBelow(n: Numbering, idom: seq<int>, i: int)
    requires |n.rank| == |n.g| == |idom|
  {
    forall x: nat | x < |n.g| && 0 <= n.rank[x] < i :: idom[x] >= 0
  }

  /** Every block visited so far in this pass was found to be settled already. */
  ghost predicate SettledBelow(n: Numbering, v: seq<int>, i: int)
    requires Numbered(n) && |v| == |n.g|
  {
    forall x: nat | x < |n.g| && 0 < n.rank[x] < i && v[x] >= 0 :: Meet(n, v, x, v[x])
  }

  /** One visit of a block, whether or not its parent changes. */
  lemma VisitKeepsInvariant(n: Numbering, idom: seq<int>, i: int, c: nat, m: nat)
    requires PassInvariant(n, idom, i) && i < |n.rpo|
    requires c == n.rpo[i] && m < |n.g| && Meet(n, View(n, idom), c, m)
    ensures PassInvariant(n, idom[c := m], i + 1)
    ensures idom[c] != m ==> 0 <= n.rank[m] < Height(n, idom, c)
  {
    var v := View(n, idom);
    assert n.rank[c] == i;
    assert Update(n, v, i, c, m) by {
      forall y: nat | Before(n, y, c)
        ensures v[y] >= 0
      {
      }
    }
    UpdateKeepsInvariant(n, v, i, c, m);
    assert View(n, idom[c := m]) == v[c := m];
    VisitedProcessed(n, idom, i, c, m);
  }

  lemma VisitedProcessed(n: Numbering, idom: seq<int>, i: int, c: nat, m: nat)
    requires Numbered(n) && |idom| == |n.g| && 1 <= i < |n.rpo|
    requires c == n.rpo[i] && ProcessedBelow(n, idom, i)
    ensures ProcessedBelow(n, idom[c := m], i + 1)
  {
    forall x: nat | x < |n.g| && 0 <= n.rank[x] < i + 1
      ensures idom[c := m][x] >= 0
    {
      assert n.rpo[n.rank[x]] == x;
    }
  }

  lemma StaysSettled(n: Numbering, v: seq<int>, i: int, c: nat)
    requires Numbered(n) && |v| == |n.g| && 1 <= i < |n.rpo|
    requires c == n.rpo[i] && SettledBelow(n, v, i) && v[c] >= 0 && Meet(n, v, c, v[c])
    ensures SettledBelow(n, v, i + 1)
  {
    forall x: nat | x < |n.g| && 0 < n.rank[x] < i + 1 && v[x] >= 0
      ensures Meet(n, v, x, v[x])
    {
      assert n.rpo[n.rank[x]] == x;
    }
  }

  /** The body of the sweep: give one block the meet of its predecessors. */
  method VisitBlock(f: Function, ghost n: Numbering, i: nat) returns (moved: bool)
    requires n == f.Analysis() && PassInvariant(n, f.idom, i) && i < |f.rpo|
    modifies f`idom
    ensures PassInvariant(n, f.idom, i + 1)
    ensures moved ==> Potential(n, f.idom, |n.rpo|) < old(Potential(n, f.idom, |n.rpo|))
    ensures !moved ==> f.idom == old(f.idom)
    ensures !moved && SettledBelow(n, View(n, f.idom), i) ==> SettledBelow(n, View(n, f.idom), i + 1)
  {
    var block := f.rpo[i];
    ShapeIsRooted(n, f.idom);
    var newIdom := MeetOfPreds(f, n, block);
    Visited(n, f.idom, i, block, newIdom);
    moved := f.idom[block] != newIdom;
    if moved {
      f.idom := f.idom[block := newIdom];
    }
  }

  lemma Visited(n: Numbering, idom: seq<int>, i: nat, c: nat, m: nat)
    requires PassInvariant(n, idom, i) && i < |n.rpo| && c == n.rpo[i]
    requires m < |n.g| && n.rank[m] >= 0 && CommonAnc(n, idom, m, c)
    requires forall a: nat | CommonAnc(n, idom, a, c) :: Anc(n.rank, idom, a, m)
    ensures idom[c] != m ==> PassInvariant(n, idom[c := m], i + 1)
    ensures idom[c] != m ==> Potential(n, idom[c := m], |n.rpo|) < Potential(n, idom, |n.rpo|)
    ensures idom[c] == m ==> PassInvariant(n, idom, i + 1)
    ensures idom[c] == m && SettledBelow(n, View(n, idom), i) ==> SettledBelow(n, View(n, idom), i + 1)
  {
    MeetInView(n, idom, c, m);
    VisitKeepsInvariant(n, idom, i, c, m);
    if idom[c] != m {
      PotentialDrops(n, idom, c, m, |n.rpo|);
    } else {
      assert idom[c := m] == idom;
      if SettledBelow(n, View(n, idom), i) {
        StaysSettled(n, View(n, idom), i, c);
      }
    }
  }

  /** One sweep over the blocks in reverse postorder. */
  method OnePass(f: Function, ghost n: Numbering) returns (changed: bool)
    requires n == f.Analysis() && PassInvariant(n, f.idom, 1)
    modifies f`idom
    ensures PassInvariant(n, f.idom, 1)
    ensures !changed ==> Fixed(n, View(n, f.idom))
    ensures changed ==> Potential(n, f.idom, |n.rpo|) < old(Potential(n, f.idom, |n.rpo|))
    ensures !changed ==> f.idom == old(f.idom)
  {
    changed := false;
    var i: nat := 1;
    while i < |f.rpo|
      invariant n == f.Analysis()
      invariant PassInvariant(n, f.idom, i)
      invariant !changed ==> f.idom == old(f.idom)
      invariant !changed ==> SettledBelow(n, View(n, f.idom), i)
      invariant changed ==> Potential(n, f.idom, |n.rpo|) < old(Potential(n, f.idom, |n.rpo|))
    {
      var moved := VisitBlock(f, n, i);
      changed := changed || moved;
      i := i + 1;
    }
    EndPass(n, f.idom);
  }

  lemma EndPass(n: Numbering, idom: seq<int>)
    requires PassInvariant(n, idom, |n.rpo|)
    ensures PassInvariant(n, idom, 1)
    ensures SettledBelow(n, View(n, idom), |n.rpo|) ==> Fixed(n, View(n, idom))
  {
    NextPass(n, View(n, idom));
  }

  /** Immediate dominators. The iteration ends on every graph, and what it leaves
      behind answers dominance exactly. */
  method ComputeDominators(f: Function)
    requires Numbered(f.Analysis()) && |f.idom| == |f.code|
    modifies f`idom
    ensures DomTree(f.Analysis(), f.idom)
    ensures Exact(f.Analysis(), f.idom)
  {
    ghost var n := f.Analysis();
    for i := 0 to |f.rpo|
      invariant |f.idom| == |f.code|
      invariant forall j | 0 <= j < i :: f.idom[f.rpo[j]] == -1
    {
      f.idom := f.idom[f.rpo[i] := -1];
    }
    f.idom := f.idom[0 := 0];
    Initially(n, f.idom);

    var changed := true;
    while changed
      invariant n == f.Analysis()
      invariant PassInvariant(n, f.idom, 1)
      invariant !changed ==> Fixed(n, View(n, f.idom))
      decreases Potential(n, f.idom, |n.rpo|), changed
    {
      changed := OnePass(f, n);
    }
    ghost var fixed := View(n, f.idom);
    f.idom := f.idom[0 := -1];
    FixedIsExact(n, fixed, f.idom);
  }

  lemma Initially(n: Numbering, idom: seq<int>)
    requires Numbered(n) && |idom| == |n.g| && idom[0] == 0
    requires forall j | 0 < j < |n.rpo| :: idom[n.rpo[j]] == -1
    ensures PassInvariant(n, idom, 1)
  {
    var v := View(n, idom);
    assert n.rank[n.rpo[0]] == 0;
    forall x: nat | x < |n.g|
      ensures v[x] == if x == 0 then 0 else -1
    {
      if n.rank[x] >= 0 {
        assert n.rpo[n.rank[x]] == x;
      }
    }
    InitialInvariant(n, v);
  }

  /** Every block with a position but the entry has a parent. */
  ghost predicate Parented(rank: seq<int>, idom: seq<int>) {
    && |rank| == |idom| > 0 && idom[0] == -1
    && forall b: nat {:trigger HasParent(rank, idom, b)} | 0 < b < |rank| && rank[b] >= 0 :: HasParent(rank, idom, b)
  }

  lemma DomTreeParented(n: Numbering, idom: seq<int>)
    requires Numbered(n) && DomTree(n, idom)
    ensures Parented(n.rank, idom)
  {
    assert n.rank[n.rpo[0]] == 0;
    forall b: nat | 0 < b < |n.rank| && n.rank[b] >= 0
      ensures HasParent(n.rank, idom, b)
    {
      assert n.rpo[n.rank[b]] == b;
    }
  }

  /** Going up the tree from `b`, is `a` met? */
  method WalksTo(f: Function, a: nat, b: nat) returns (r: bool)
    requires Parented(f.rpoIndex, f.idom) && b < |f.rpoIndex| && f.rpoIndex[b] >= 0
    ensures r <==> Anc(f.rpoIndex, f.idom, a, b)
  {
    ghost var rank := f.rpoIndex;
    var x: int := b;
    while x >= 0
      invariant -1 <= x < |rank| && (x >= 0 ==> rank[x] >= 0)
      invariant Anc(rank, f.idom, a, b) <==> x >= 0 && Anc(rank, f.idom, a, x)
      decreases if x >= 0 then rank[x] + 1 else 0
    {
      if x == a {
        return true;
      }
      assert x > 0 ==> HasParent(rank, f.idom, x);
      x := f.idom[x];
    }
    r := false;
  }

  /** The query: does `a` dominate `b`? */
  method IrDominates(f: Function, a: nat, b: nat) returns (r: bool)
    requires Numbered(f.Analysis()) && DomTree(f.Analysis(), f.idom) && Exact(f.Analysis(), f.idom)
    requires b < |f.code| && f.rpoIndex[b] >= 0
    ensures r <==> Dominates(Flow(f.code), a, b)
  {
    DomTreeParented(f.Analysis(), f.idom);
    r := WalksTo(f, a, b);
  }
}
