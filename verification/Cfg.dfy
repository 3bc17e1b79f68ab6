/** Predecessors, reverse postorder, and which blocks anything can reach. */
module Cfg {
  import opened Ir
  import opened Graph
  import opened Functions

  /** `out` extends `order` by blocks that were not visited before and are now. */
  ghost predicate Extends(g: Graph, before: seq<bool>, order: seq<nat>, after: seq<bool>, out: seq<nat>) {
    && |before| == |after| == |g|
    && |order| <= |out| && out[..|order|] == order
    && (forall b: nat | b < |g| && before[b] :: after[b])
    && (forall b: nat | b < |g| && after[b] && !before[b] :: exists i :: |order| <= i < |out| && out[i] == b)
    && (forall i | |order| <= i < |out| :: out[i] < |g| && !before[out[i]] && after[out[i]])
    && (forall i, j | |order| <= i < j < |out| :: out[i] != out[j])
  }

  /** Every successor of a finished block has been visited. */
  ghost predicate SuccessorsVisited(g: Graph, after: seq<bool>, out: seq<nat>, from: nat)
    requires |after| == |g|
  {
    forall i, s: nat | from <= i < |out| && out[i] < |g| && s in g[out[i]] :: s < |g| && after[s]
  }

  /** The block at position `i` is entered from one that finishes later, or from `parent`. */
  ghost predicate EnteredFromLater(g: Graph, out: seq<nat>, i: nat)
    requires i < |out|
  {
    exists j :: i < j < |out| && Edge(g, out[j], out[i])
  }

  ghost predicate AllReachable(g: Graph, out: seq<nat>, from: nat) {
    forall i | from <= i < |out| :: Reachable(g, out[i])
  }

  ghost function Unvisited(visited: seq<bool>): set<nat> {
    set b: nat | b < |visited| && !visited[b]
  }

  /** What the search of one block has established before that block is finished. */
  ghost predicate Searching(g: Graph, before: seq<bool>, order: seq<nat>, now: seq<bool>, out: seq<nat>, block: nat) {
    && ValidGraph(g)
    && block < |g| == |before|
    && !before[block]
    && Extends(g, before[block := true], order, now, out)
    && SuccessorsVisited(g, now, out, |order|)
    && AllReachable(g, out, |order|)
    && forall j | |order| <= j < |out| :: EnteredFromLater(g, out, j) || Edge(g, block, out[j])
  }

  ghost predicate Searched(g: Graph, before: seq<bool>, order: seq<nat>, after: seq<bool>, out: seq<nat>, block: nat) {
    && block < |g|
    && Extends(g, before, order, after, out)
    && after[block]
    && SuccessorsVisited(g, after, out, |order|)
    && AllReachable(g, out, |order|)
    && (if before[block] then out == order else |out| > |order| && out[|out| - 1] == block)
    && forall i | |order| <= i < |out| - 1 :: EnteredFromLater(g, out, i)
  }

  /** Searching one successor. */
  lemma SearchStep(g: Graph, before: seq<bool>, order: seq<nat>, v1: seq<bool>, o1: seq<nat>, s: nat, v2: seq<bool>,
      o2: seq<nat>, block: nat)
    requires Searching(g, before, order, v1, o1, block)
    requires Edge(g, block, s) && Searched(g, v1, o1, v2, o2, s)
    ensures Searching(g, before, order, v2, o2, block)
    ensures forall b | 0 <= b < |v1| && v1[b] :: v2[b]
  {
    Chained(g, before[block := true], order, v1, o1, v2, o2);
    forall j | |order| <= j < |o2|
      ensures EnteredFromLater(g, o2, j) || Edge(g, block, o2[j])
    {
      if j < |o1| {
        assert o2[j] == o1[j];
        if EnteredFromLater(g, o1, j) {
          var k :| j < k < |o1| && Edge(g, o1[k], o1[j]);
          assert o2[k] == o1[k];
        }
      }
    }
    StillVisited(g, v1, o1, v2, o2, |order|);
    forall i | |order| <= i < |o2|
      ensures Reachable(g, o2[i])
    {
      if i < |o1| {
        assert o2[i] == o1[i];
      }
    }
  }

  lemma StillVisited(g: Graph, v1: seq<bool>, o1: seq<nat>, v2: seq<bool>, o2: seq<nat>, from: nat)
    requires |v1| == |v2| == |g| && |o1| <= |o2| && o2[..|o1|] == o1
    requires SuccessorsVisited(g, v1, o1, from) && SuccessorsVisited(g, v2, o2, |o1|)
    requires forall b | 0 <= b < |g| && v1[b] :: v2[b]
    ensures SuccessorsVisited(g, v2, o2, from)
  {
    forall i, s: nat | from <= i < |o2| && o2[i] < |g| && s in g[o2[i]]
      ensures s < |g| && v2[s]
    {
      if i < |o1| {
        assert o2[i] == o2[..|o1|][i] == o1[i];
        assert s < |g| && v1[s];
        assert v2[s];
      } else {
        assert v2[s];
      }
    }
  }

  /** Recording the block itself. */
  lemma SearchDone(g: Graph, before: seq<bool>, order: seq<nat>, now: seq<bool>, out: seq<nat>, block: nat)
    requires Searching(g, before, order, now, out, block) && Reachable(g, block)
    requires forall s: nat | s in g[block] :: s < |g| && now[s]
    ensures Searched(g, before, order, now, out + [block], block)
  {
    var all := out + [block];
    assert all[|all| - 1] == block;
    RecordExtends(g, before, order, now, out, block);
    forall j | |order| <= j < |all| - 1
      ensures EnteredFromLater(g, all, j)
    {
      assert all[j] == out[j];
      if EnteredFromLater(g, out, j) {
        var k :| j < k < |out| && Edge(g, out[k], out[j]);
        assert all[k] == out[k];
      } else {
        assert Edge(g, all[|all| - 1], all[j]);
      }
    }
    forall i, s: nat | |order| <= i < |all| && all[i] < |g| && s in g[all[i]]
      ensures s < |g| && now[s]
    {
      if i < |out| {
        assert all[i] == out[i];
      }
    }
  }

  lemma RecordExtends(g: Graph, before: seq<bool>, order: seq<nat>, now: seq<bool>, out: seq<nat>, block: nat)
    requires block < |g| == |before| && !before[block]
    requires Extends(g, before[block := true], order, now, out)
    ensures Extends(g, before, order, now, out + [block])
  {
    var all := out + [block];
    assert all[..|order|] == out[..|order|];
    forall b: nat | b < |g| && now[b] && !before[b]
      ensures exists i :: |order| <= i < |all| && all[i] == b
    {
      if b == block {
        assert all[|out|] == b;
      } else {
        assert !before[block := true][b];
        var i :| |order| <= i < |out| && out[i] == b;
        assert all[i] == b;
      }
    }
  }

  lemma Chained(g: Graph, v0: seq<bool>, o0: seq<nat>, v1: seq<bool>, o1: seq<nat>, v2: seq<bool>, o2: seq<nat>)
    requires Extends(g, v0, o0, v1, o1) && Extends(g, v1, o1, v2, o2)
    ensures Extends(g, v0, o0, v2, o2)
  {
  }

  lemma FewerUnvisited(before: seq<bool>, now: seq<bool>, block: nat)
    requires |now| == |before| && block < |now| && !before[block] && now[block]
    requires forall b | 0 <= b < |before| && before[b] :: now[b]
    ensures Unvisited(now) < Unvisited(before)
  {
    assert block in Unvisited(before) && block !in Unvisited(now);
  }

  /** Depth-first search: a block is recorded after its successors. */
  method Postorder(f: Function, ghost g: Graph, block: nat, order: seq<nat>) returns (out: seq<nat>)
    requires g == Flow(f.code) && ValidGraph(g) && |f.visited| == |g| && block < |g|
    requires Reachable(g, block)
    modifies f`visited
    ensures Searched(g, old(f.visited), order, f.visited, out, block)
    decreases Unvisited(f.visited)
  {
    out := order;
    if f.visited[block] {
      return;
    }
    ghost var before := f.visited;
    f.visited := f.visited[block := true];
    var successors := Successors(f.code[block]);
    var i := 0;
    while i < |successors|
      invariant 0 <= i <= |successors|
      invariant Searching(g, before, order, f.visited, out, block)
      invariant forall k | 0 <= k < i :: successors[k] < |g| && f.visited[successors[k]]
    {
      assert Edge(g, block, successors[i]);
      ReachableStep(g, block, successors[i]);
      FewerUnvisited(before, f.visited, block);
      ghost var v1, o1 := f.visited, out;
      out := Postorder(f, g, successors[i], out);
      SearchStep(g, before, order, v1, o1, successors[i], f.visited, out, block);
      i := i + 1;
    }
    SearchDone(g, before, order, f.visited, out, block);
    out := out + [block];
  }

  // ------------------------------------------------------ what the search means

  /** A reverse postorder: the entry first, exactly the reachable blocks, each once,
      each but the entry after some predecessor. */
  ghost predicate ReversePostorder(g: Graph, rpo: seq<nat>) {
    && 0 < |rpo| && rpo[0] == 0
    && (forall i | 0 <= i < |rpo| :: rpo[i] < |g| && Reachable(g, rpo[i]))
    && (forall b: nat | Reachable(g, b) :: exists i :: 0 <= i < |rpo| && rpo[i] == b)
    && (forall i, j | 0 <= i < j < |rpo| :: rpo[i] != rpo[j])
    && (forall i | 0 < i < |rpo| :: EnteredFromEarlier(g, rpo, i))
  }

  ghost predicate EnteredFromEarlier(g: Graph, rpo: seq<nat>, i: nat)
    requires i < |rpo|
  {
    exists j :: 0 <= j < i && Edge(g, rpo[j], rpo[i])
  }

  /** Everything on a path from the entry has been visited. */
  lemma {:induction false} PathVisited(g: Graph, visited: seq<bool>, out: seq<nat>, path: seq<nat>, b: nat)
    requires ValidGraph(g) && |visited| == |g|
    requires Searched(g, seq(|g|, _ => false), [], visited, out, 0)
    requires PathTo(g, path, b)
    ensures b < |g| && visited[b]
    decreases |path|
  {
    if |path| > 1 {
      var p := path[|path| - 2];
      assert path[|path| - 2 + 1] == b;
      assert Edge(g, p, b);
      assert PathTo(g, path[..|path| - 1], p);
      PathVisited(g, visited, out, path[..|path| - 1], p);
      var i :| 0 <= i < |out| && out[i] == p;
      assert b in g[out[i]];
    }
  }

  lemma SearchIsReversePostorder(g: Graph, visited: seq<bool>, out: seq<nat>, rpo: seq<nat>)
    requires ValidGraph(g) && |visited| == |g|
    requires Searched(g, seq(|g|, _ => false), [], visited, out, 0)
    requires |rpo| == |out| && forall i | 0 <= i < |rpo| :: rpo[i] == out[|out| - 1 - i]
    ensures ReversePostorder(g, rpo)
  {
    forall b: nat | Reachable(g, b)
      ensures exists i :: 0 <= i < |rpo| && rpo[i] == b
    {
      var path :| PathTo(g, path, b);
      PathVisited(g, visited, out, path, b);
      var i :| 0 <= i < |out| && out[i] == b;
      assert rpo[|out| - 1 - i] == b;
    }
    forall i | 0 < i < |rpo|
      ensures EnteredFromEarlier(g, rpo, i)
    {
      assert EnteredFromLater(g, out, |out| - 1 - i);
      var j :| |out| - 1 - i < j < |out| && Edge(g, out[j], out[|out| - 1 - i]);
      assert rpo[|out| - 1 - j] == out[j];
    }
  }

  /** The function body with the unreachable blocks emptied. */
  function Pruned(code: Code, rpoIndex: seq<int>): (c: Code)
    requires |rpoIndex| == |code|
    ensures |c| == |code|
    ensures forall b | 0 <= b < |code| :: c[b] == if rpoIndex[b] < 0 then [] else code[b]
  {
    seq(|code|, b requires 0 <= b < |code| => if rpoIndex[b] < 0 then [] else code[b])
  }

  /** Emptying what cannot be reached changes no path. */
  lemma PrunedPaths(code: Code, rpoIndex: seq<int>, path: seq<nat>, b: nat)
    requires |rpoIndex| == |code| && ValidGraph(Flow(code))
    requires forall x: nat | x < |code| :: rpoIndex[x] >= 0 <==> Reachable(Flow(code), x)
    ensures PathTo(Flow(Pruned(code, rpoIndex)), path, b) <==> PathTo(Flow(code), path, b)
  {
    var g, h := Flow(code), Flow(Pruned(code, rpoIndex));
    if PathTo(g, path, b) {
      forall i | 0 <= i < |path| - 1
        ensures Edge(h, path[i], path[i + 1])
      {
        assert Edge(g, path[i], path[i + 1]);
        assert PathTo(g, path[..i + 1], path[i]);
      }
    }
    if PathTo(h, path, b) {
      forall i | 0 <= i < |path| - 1
        ensures Edge(g, path[i], path[i + 1])
      {
        assert Edge(h, path[i], path[i + 1]);
      }
    }
  }

  lemma PrunedReachable(code: Code, rpoIndex: seq<int>)
    requires |rpoIndex| == |code| && ValidGraph(Flow(code))
    requires forall x: nat | x < |code| :: rpoIndex[x] >= 0 <==> Reachable(Flow(code), x)
    ensures ValidGraph(Flow(Pruned(code, rpoIndex)))
    ensures forall b: nat :: Reachable(Flow(Pruned(code, rpoIndex)), b) <==> Reachable(Flow(code), b)
  {
    forall b: nat
      ensures Reachable(Flow(Pruned(code, rpoIndex)), b) <==> Reachable(Flow(code), b)
    {
      if path :| PathTo(Flow(code), path, b) {
        PrunedPaths(code, rpoIndex, path, b);
      }
      if path :| PathTo(Flow(Pruned(code, rpoIndex)), path, b) {
        PrunedPaths(code, rpoIndex, path, b);
      }
    }
  }

  // -------------------------------------------------------------------- the pass

  method Reverse(s: seq<nat>) returns (r: seq<nat>)
    ensures |r| == |s| && forall i | 0 <= i < |s| :: r[i] == s[|s| - 1 - i]
  {
    r := s;
    for i := 0 to |s| / 2
      invariant |r| == |s|
      invariant forall k | 0 <= k < i :: r[k] == s[|s| - 1 - k] && r[|s| - 1 - k] == s[k]
      invariant forall k | i <= k < |s| - i :: r[k] == s[k]
    {
      r := r[i := r[|s| - 1 - i]][|s| - 1 - i := r[i]];
    }
  }

  method NumberBlocks(f: Function)
    requires |f.rpoIndex| == |f.code|
    requires forall b | 0 <= b < |f.code| :: f.rpoIndex[b] == -1
    requires forall i | 0 <= i < |f.rpo| :: f.rpo[i] < |f.code|
    requires forall i, j | 0 <= i < j < |f.rpo| :: f.rpo[i] != f.rpo[j]
    modifies f`rpoIndex
    ensures |f.rpoIndex| == |f.code|
    ensures forall i | 0 <= i < |f.rpo| :: f.rpoIndex[f.rpo[i]] == i
    ensures forall b | 0 <= b < |f.code| :: f.rpoIndex[b] == -1 ||
              (0 <= f.rpoIndex[b] < |f.rpo| && f.rpo[f.rpoIndex[b]] == b)
  {
    for i := 0 to |f.rpo|
      invariant |f.rpoIndex| == |f.code|
      invariant forall k | 0 <= k < i :: f.rpoIndex[f.rpo[k]] == k
      invariant forall b | 0 <= b < |f.code| :: f.rpoIndex[b] == -1 ||
                  (0 <= f.rpoIndex[b] < i && f.rpo[f.rpoIndex[b]] == b)
    {
      f.rpoIndex := f.rpoIndex[f.rpo[i] := i];
    }
  }

  method DropUnreachable(f: Function)
    requires |f.rpoIndex| == |f.code|
    modifies f`code
    ensures f.code == Pruned(old(f.code), f.rpoIndex)
  {
    var b := 0;
    while b < |f.code|
      invariant 0 <= b <= |f.code| == |old(f.code)|
      invariant forall k | 0 <= k < |f.code| :: f.code[k] ==
                  if k < b && f.rpoIndex[k] < 0 then [] else old(f.code)[k]
    {
      if f.rpoIndex[b] < 0 {
        while |f.code[b]| > 0
          invariant |f.code| == |old(f.code)| && b < |f.code|
          invariant forall k | 0 <= k < |f.code| && k != b :: f.code[k] ==
                      if k < b && f.rpoIndex[k] < 0 then [] else old(f.code)[k]
          decreases |f.code[b]|
        {
          f.code := f.code[b := f.code[b][1..]];
        }
      }
      b := b + 1;
    }
  }

  ghost predicate Recorded(g: Graph, rpo: seq<nat>, rank: seq<int>, i: nat, k: nat, p: nat, b: nat)
    requires |rank| == |g| && p < |g|
  {
    0 <= rank[p] < i || (i < |rpo| && p == rpo[i] && b in g[p][..Least(k, |g[p]|)])
  }

  /** The edges recorded once the first `i` blocks, and `k` successors of the next, are done. */
  ghost predicate EdgesRecorded(g: Graph, rpo: seq<nat>, rank: seq<int>, preds: seq<seq<nat>>, i: nat, k: nat)
    requires |rank| == |preds| == |g| && i <= |rpo|
  {
    && (forall b: nat, p: nat {:trigger p in preds[b]} | b < |g| ::
          p in preds[b] <==> p < |g| && Edge(g, p, b) && Recorded(g, rpo, rank, i, k, p, b))
    && (forall b: nat, x, y | b < |g| && 0 <= x < y < |preds[b]| :: preds[b][x] != preds[b][y])
  }

  function Least(a: nat, b: nat): nat {
    if a < b then a else b
  }

  lemma RecordEdge(g: Graph, rpo: seq<nat>, rank: seq<int>, preds: seq<seq<nat>>, i: nat, k: nat)
    requires |rank| == |preds| == |g| && i < |rpo| && rpo[i] < |g| && rank[rpo[i]] == i
    requires k < |g[rpo[i]]| && g[rpo[i]][k] < |g|
    requires forall x, y | 0 <= x < y < |g[rpo[i]]| :: g[rpo[i]][x] != g[rpo[i]][y]
    requires EdgesRecorded(g, rpo, rank, preds, i, k)
    ensures var s := g[rpo[i]][k];
            EdgesRecorded(g, rpo, rank, preds[s := preds[s] + [rpo[i]]], i, k + 1)
  {
    var q := rpo[i];
    var s := g[q][k];
    var after := preds[s := preds[s] + [q]];
    assert g[q][..k + 1] == g[q][..k] + [s];
    assert q !in preds[s];
    forall b: nat, p: nat | b < |g|
      ensures p in after[b] <==> p < |g| && Edge(g, p, b) && Recorded(g, rpo, rank, i, k + 1, p, b)
    {
      assert p in after[b] <==> p in preds[b] || (b == s && p == q);
    }
  }

  lemma NextBlock(g: Graph, rpo: seq<nat>, rank: seq<int>, preds: seq<seq<nat>>, i: nat)
    requires |rank| == |preds| == |g| && i < |rpo| && rpo[i] < |g| && rank[rpo[i]] == i
    requires forall b | 0 <= b < |g| && rank[b] == i :: b == rpo[i]
    requires EdgesRecorded(g, rpo, rank, preds, i, |g[rpo[i]]|)
    ensures EdgesRecorded(g, rpo, rank, preds, i + 1, 0)
  {
    var q := rpo[i];
    assert g[q][..|g[q]|] == g[q];
  }

  method RecordPreds(f: Function, ghost g: Graph)
    requires g == Flow(f.code) && ValidGraph(g) && |f.rpoIndex| == |f.preds| == |g|
    requires forall b | 0 <= b < |g| :: f.preds[b] == []
    requires forall i | 0 <= i < |f.rpo| :: f.rpo[i] < |g| && f.rpoIndex[f.rpo[i]] == i
    requires forall b | 0 <= b < |g| && f.rpoIndex[b] >= 0 :: f.rpoIndex[b] < |f.rpo| && f.rpo[f.rpoIndex[b]] == b
    modifies f`preds
    ensures |f.preds| == |g| && EdgesRecorded(g, f.rpo, f.rpoIndex, f.preds, |f.rpo|, 0)
  {
    var i: nat := 0;
    while i < |f.rpo|
      invariant 0 <= i <= |f.rpo| && |f.preds| == |g|
      invariant EdgesRecorded(g, f.rpo, f.rpoIndex, f.preds, i, 0)
    {
      var block := f.rpo[i];
      var successors := Successors(f.code[block]);
      var s: nat := 0;
      while s < |successors|
        invariant 0 <= s <= |successors| && |f.preds| == |g|
        invariant EdgesRecorded(g, f.rpo, f.rpoIndex, f.preds, i, s)
      {
        assert successors[s] in g[block];
        RecordEdge(g, f.rpo, f.rpoIndex, f.preds, i, s);
        f.preds := f.preds[successors[s] := f.preds[successors[s]] + [block]];
        s := s + 1;
      }
      NextBlock(g, f.rpo, f.rpoIndex, f.preds, i);
      i := i + 1;
    }
  }

  lemma AllNumbered(n: Numbering)
    requires ValidGraph(n.g) && |n.rank| == |n.preds| == |n.g|
    requires ReversePostorder(n.g, n.rpo)
    requires forall i | 0 <= i < |n.rpo| :: n.rank[n.rpo[i]] == i
    requires forall b | 0 <= b < |n.g| :: n.rank[b] == -1 || (0 <= n.rank[b] < |n.rpo| && n.rpo[n.rank[b]] == b)
    requires EdgesRecorded(n.g, n.rpo, n.rank, n.preds, |n.rpo|, 0)
    ensures Numbered(n) && Grounded(n)
  {
    forall p: nat, b: nat | p < |n.g| && n.rank[p] >= 0 && Edge(n.g, p, b)
      ensures n.rank[b] >= 0
    {
      assert Reachable(n.g, n.rpo[n.rank[p]]);
      ReachableStep(n.g, p, b);
      var i :| 0 <= i < |n.rpo| && n.rpo[i] == b;
    }
    forall b: nat | b < |n.g|
      ensures n.rank[b] >= 0 <==> Reachable(n.g, b)
    {
      if Reachable(n.g, b) {
        var i :| 0 <= i < |n.rpo| && n.rpo[i] == b;
      }
    }
    forall b | 0 <= b < |n.g| && n.rank[b] > 0
      ensures HasEarlierPred(n, b)
    {
      assert EnteredFromEarlier(n.g, n.rpo, n.rank[b]);
      var j :| 0 <= j < n.rank[b] && Edge(n.g, n.rpo[j], n.rpo[n.rank[b]]);
      assert n.rpo[j] in n.preds[b];
    }
  }

  /** Same reachable blocks, same paths: an order for the full body serves the pruned one. */
  lemma PrunedOrder(code: Code, rpoIndex: seq<int>, rpo: seq<nat>)
    requires |rpoIndex| == |code| && ValidGraph(Flow(code)) && ReversePostorder(Flow(code), rpo)
    requires forall x: nat | x < |code| :: rpoIndex[x] >= 0 <==> Reachable(Flow(code), x)
    ensures ValidGraph(Flow(Pruned(code, rpoIndex))) && ReversePostorder(Flow(Pruned(code, rpoIndex)), rpo)
  {
    var g, h := Flow(code), Flow(Pruned(code, rpoIndex));
    PrunedReachable(code, rpoIndex);
    forall i | 0 < i < |rpo|
      ensures EnteredFromEarlier(h, rpo, i)
    {
      assert EnteredFromEarlier(g, rpo, i);
      var j :| 0 <= j < i && Edge(g, rpo[j], rpo[i]);
      assert Edge(h, rpo[j], rpo[i]);
    }
  }

  /** The search, and the numbering it gives. */
  method OrderBlocks(f: Function, ghost g: Graph)
    requires g == Flow(f.code) && ValidGraph(g)
    modifies f`rpo, f`rpoIndex, f`visited
    ensures ReversePostorder(g, f.rpo) && |f.rpoIndex| == |g|
    ensures forall i | 0 <= i < |f.rpo| :: f.rpoIndex[f.rpo[i]] == i
    ensures forall b | 0 <= b < |g| ::
              f.rpoIndex[b] == -1 || (0 <= f.rpoIndex[b] < |f.rpo| && f.rpo[f.rpoIndex[b]] == b)
    ensures forall b: nat | b < |g| :: f.rpoIndex[b] >= 0 <==> Reachable(g, b)
  {
    f.rpoIndex := seq(|f.code|, _ => -1);
    f.visited := seq(|f.code|, _ => false);
    EntryReachable(g);
    var order := Postorder(f, g, 0, []);
    f.rpo := Reverse(order);
    SearchIsReversePostorder(g, f.visited, order, f.rpo);
    NumberBlocks(f);
    OnlyReachableNumbered(g, f.rpo, f.rpoIndex);
  }

  /** Predecessors, reverse postorder and reachability, with unreachable code dropped. */
  method AnalyzeCfg(f: Function)
    requires ValidGraph(Flow(f.code))
    requires |f.idom| == |f.frontier| == |f.code|
    modifies f`code, f`rpo, f`rpoIndex, f`preds, f`visited
    ensures f.Analyzed()
    ensures |f.rpoIndex| == |old(f.code)| && f.code == Pruned(old(f.code), f.rpoIndex)
    ensures forall b: nat | b < |f.code| :: f.rpoIndex[b] >= 0 <==> Reachable(Flow(old(f.code)), b)
  {
    ghost var code := f.code;
    f.preds := seq(|f.code|, _ => []);
    OrderBlocks(f, Flow(code));
    DropUnreachable(f);
    PrunedOrder(code, f.rpoIndex, f.rpo);
    RecordPreds(f, Flow(f.code));
    AllNumbered(f.Analysis());
  }

  lemma OnlyReachableNumbered(g: Graph, rpo: seq<nat>, rank: seq<int>)
    requires |rank| == |g| && ReversePostorder(g, rpo)
    requires forall i | 0 <= i < |rpo| :: rank[rpo[i]] == i
    requires forall b | 0 <= b < |g| :: rank[b] == -1 || (0 <= rank[b] < |rpo| && rpo[rank[b]] == b)
    ensures forall b: nat | b < |g| :: rank[b] >= 0 <==> Reachable(g, b)
  {
    forall b: nat | b < |g|
      ensures rank[b] >= 0 <==> Reachable(g, b)
    {
      if Reachable(g, b) {
        var i :| 0 <= i < |rpo| && rpo[i] == b;
      }
    }
  }
}
