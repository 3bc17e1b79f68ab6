/** The control flow graph as a mathematical object: edges, paths from the entry,
    reachability, and dominance in its textbook form (every path goes through).
    Nothing here is an algorithm; these are the meanings that the analyses in
    `Cfg`, `Dominators` and `Frontiers` are proved to compute. */
module Graph {

  /** Successor lists, indexed by block id. Block 0 is the entry. */
  type Graph = seq<seq<nat>>

  /** A graph with the results of the CFG pass: blocks in reverse postorder, each
      block's position in that order (-1 when unreachable), predecessor lists. */
  datatype Numbering = Numbering(g: Graph, rpo: seq<nat>, rank: seq<int>, preds: seq<seq<nat>>)

  ghost predicate ValidGraph(g: Graph) {
    && |g| > 0
    && forall b, s | 0 <= b < |g| && s in g[b] :: s < |g|
  }

  ghost predicate Edge(g: Graph, p: nat, b: nat) {
    p < |g| && b in g[p]
  }

  ghost predicate PathTo(g: Graph, path: seq<nat>, b: nat) {
    && |path| > 0
    && path[0] == 0
    && path[|path| - 1] == b
    && forall i | 0 <= i < |path| - 1 :: Edge(g, path[i], path[i + 1])
  }

  ghost predicate Reachable(g: Graph, b: nat) {
    exists path :: PathTo(g, path, b)
  }

  /** `a` dominates `b`: no path from the entry reaches `b` without visiting `a`. */
  ghost predicate Dominates(g: Graph, a: nat, b: nat) {
    forall path | PathTo(g, path, b) :: a in path
  }

  /** What the CFG pass establishes and every later analysis assumes. */
  ghost predicate Numbered(n: Numbering) {
    && ValidGraph(n.g)
    && |n.rank| == |n.preds| == |n.g|
    && 0 < |n.rpo|
    && n.rpo[0] == 0
    && (forall i | 0 <= i < |n.rpo| :: n.rpo[i] < |n.g| && n.rank[n.rpo[i]] == i)
    && (forall b | 0 <= b < |n.g| :: -1 <= n.rank[b] < |n.rpo|)
    && (forall b | 0 <= b < |n.g| && n.rank[b] >= 0 :: n.rpo[n.rank[b]] == b)
    && (forall p: nat, b: nat {:trigger Edge(n.g, p, b)} | p < |n.g| && n.rank[p] >= 0 && Edge(n.g, p, b) ::
        n.rank[b] >= 0)
    && PredsExact(n)
    && (forall b {:trigger HasEarlierPred(n, b)} | 0 <= b < |n.g| && n.rank[b] > 0 :: HasEarlierPred(n, b))
  }

  /** Only reachable blocks have a position. */
  ghost predicate Grounded(n: Numbering)
    requires |n.rank| == |n.g|
  {
    forall b: nat | b < |n.g| :: n.rank[b] >= 0 <==> Reachable(n.g, b)
  }

  /** The predecessor lists hold exactly the edges leaving reachable blocks. */
  ghost predicate PredsExact(n: Numbering)
    requires |n.rank| == |n.preds| == |n.g|
  {
    && (forall b: nat, p: nat {:trigger p in n.preds[b]} | b < |n.g| && p in n.preds[b] ::
          p < |n.g| && n.rank[p] >= 0 && Edge(n.g, p, b))
    && (forall b: nat, p: nat {:trigger Edge(n.g, p, b)} | b < |n.g| && Edge(n.g, p, b) && n.rank[p] >= 0 ::
          p in n.preds[b])
    && (forall b: nat, i, j | b < |n.g| && 0 <= i < j < |n.preds[b]| :: n.preds[b][i] != n.preds[b][j])
  }

  /** Reverse postorder puts some predecessor of every block but the entry first. */
  ghost predicate HasEarlierPred(n: Numbering, b: nat)
    requires |n.rank| == |n.preds| == |n.g|
    requires b < |n.g|
  {
    exists p :: p in n.preds[b] && p < |n.g| && n.rank[p] < n.rank[b]
  }

  lemma EntryReachable(g: Graph)
    ensures Reachable(g, 0)
  {
    assert PathTo(g, [0], 0);
  }

  lemma ReachableStep(g: Graph, p: nat, b: nat)
    requires Reachable(g, p) && Edge(g, p, b)
    ensures Reachable(g, b)
  {
    var path :| PathTo(g, path, p);
    assert PathTo(g, path + [b], b);
  }

  /** A strict dominator of a block dominates each of its predecessors. */
  lemma DominatesPred(g: Graph, a: nat, p: nat, b: nat)
    requires Dominates(g, a, b) && a != b && Edge(g, p, b)
    ensures Dominates(g, a, p)
  {
    forall path | PathTo(g, path, p)
      ensures a in path
    {
      assert PathTo(g, path + [b], b);
      assert a in path + [b];
    }
  }

  lemma EntryDominatedOnlyByItself(g: Graph, a: nat)
    requires Dominates(g, a, 0)
    ensures a == 0
  {
    assert PathTo(g, [0], 0);
    assert a in [0];
  }

  /** How many are not marked yet. */
  function Unmarked(marks: seq<bool>): nat {
    if marks == [] then 0 else (if marks[0] then 0 else 1) + Unmarked(marks[1..])
  }

  lemma {:induction false} MarkOne(marks: seq<bool>, b: nat)
    requires b < |marks| && !marks[b]
    ensures Unmarked(marks[b := true]) == Unmarked(marks) - 1
    decreases |marks|
  {
    if b > 0 {
      MarkOne(marks[1..], b - 1);
      assert marks[b := true][1..] == marks[1..][b - 1 := true];
    } else {
      assert marks[b := true][1..] == marks[1..];
    }
  }
}
