/** Single assignment, and what it guarantees at run time.

    The central fact, which every rewriting pass rests on: wherever a definition is
    in scope its value is assigned, and if it was computed by a pure instruction,
    the operands still hold the values it was computed from. */
module SsaForm {
  import opened Ir
  import opened Graph
  import opened Dominators
  import opened Semantics

  /** What the passes read of the analyses: positions in reverse postorder, immediate
      dominators, predecessors. */
  datatype Tree = Tree(rank: seq<int>, idom: seq<int>, preds: seq<seq<nat>>)

  ghost predicate Leads(code: Code, p: nat, b: nat) {
    p < |code| && b in Successors(code[p])
  }

  /** `t` is the dominator tree of this body, and nothing branches to the entry. */
  ghost predicate TreeOf(t: Tree, code: Code) {
    && |code| > 0 && |t.rank| == |t.idom| == |t.preds| == |code|
    && t.rank[0] == 0 && t.idom[0] == -1 && t.preds[0] == []
    && (forall b: nat {:trigger HasParent(t.rank, t.idom, b)} | 0 < b < |code| && t.rank[b] >= 0 ::
          HasParent(t.rank, t.idom, b))
    && (forall b: nat, p: nat {:trigger p in t.preds[b]} | b < |code| && p in t.preds[b] ::
          EdgeInTree(t, code, p, b))
    && (forall p: nat, b: nat {:trigger Leads(code, p, b)} | Leads(code, p, b) && t.rank[p] >= 0 ::
          b < |code| && p in t.preds[b])
  }

  /** An edge into `b`: the parent of `b` is above the block the edge leaves. */
  ghost predicate EdgeInTree(t: Tree, code: Code, p: nat, b: nat) {
    && p < |code| && b < |code| && |t.rank| == |t.idom| == |code|
    && t.rank[p] >= 0 && t.rank[b] > 0 && t.idom[b] >= 0
    && Leads(code, p, b)
    && Anc(t.rank, t.idom, t.idom[b], p)
  }

  /** The analyses deliver such a tree whenever the entry has no predecessor. */
  lemma AnalysesGiveTree(n: Numbering, idom: seq<int>, code: Code)
    requires Numbered(n) && n.g == Flow(code) && DomTree(n, idom) && n.preds[0] == []
    ensures TreeOf(Tree(n.rank, idom, n.preds), code)
  {
    assert n.rank[n.rpo[0]] == 0;
    forall b: nat | b < |code| && n.rank[b] == 0
      ensures b == 0
    {
      assert n.rpo[n.rank[b]] == b;
    }
    forall b: nat, p: nat | b < |code| && p in n.preds[b]
      ensures EdgeInTree(Tree(n.rank, idom, n.preds), code, p, b)
    {
      assert Edge(n.g, p, b);
    }
    forall p: nat, b: nat | Leads(code, p, b) && n.rank[p] >= 0
      ensures b < |code| && p in n.preds[b]
    {
      assert Edge(n.g, p, b);
    }
  }

  // ----------------------------------------------------------------------- scope

  ghost function Defs(block: Block): set<nat> {
    set i | 0 <= i < |block| && block[i].dst.Some? :: block[i].dst.value
  }

  /** The values defined in the blocks that strictly dominate `b`. */
  ghost function ScopeIn(t: Tree, code: Code, b: nat): set<nat>
    decreases if b < |t.rank| && t.rank[b] >= 0 then t.rank[b] else 0
  {
    if HasParent(t.rank, t.idom, b) && t.idom[b] < |code| then
      ScopeIn(t, code, t.idom[b]) + Defs(code[t.idom[b]])
    else {}
  }

  /** ... and those defined before position `i` of `b` itself. */
  ghost function ScopeAt(t: Tree, code: Code, b: nat, i: nat): set<nat>
    requires b < |code| && i <= |code[b]|
  {
    ScopeIn(t, code, b) + Defs(code[b][..i])
  }

  ghost function ScopeOut(t: Tree, code: Code, b: nat): set<nat>
    requires b < |code|
  {
    ScopeIn(t, code, b) + Defs(code[b])
  }

  ghost predicate DefinedAt(code: Code, v: nat, b: nat, i: nat) {
    b < |code| && i < |code[b]| && code[b][i].dst == Some(v)
  }

  ghost predicate UniqueDefs(code: Code) {
    forall v: nat, b: nat, i: nat, c: nat, j: nat | DefinedAt(code, v, b, i) && DefinedAt(code, v, c, j) ::
      b == c && i == j
  }

  // ---------------------------------------------------------------- well-formedness

  /** Which operations produce a value, and how many operands each takes. */
  ghost predicate Shaped(i: Instr) {
    && (IsTerminator(i.op) || i.op == Store ==> i.dst.None?)
    && (i.op == Phi ==> i.dst.Some? && |i.from| == |i.args|)
    && (i.op == Br ==> |i.args| == 1)
  }

  ghost predicate UseInScope(t: Tree, code: Code, b: nat, i: nat)
    requires b < |code| && i < |code[b]|
  {
    forall k | 0 <= k < |code[b][i].args| :: code[b][i].args[k] in ScopeAt(t, code, b, i)
  }

  /** One operand for each way in, each available at the end of the block it comes from. */
  ghost predicate PhiInScope(t: Tree, code: Code, b: nat, phi: Instr) {
    && b < |t.preds|
    && |phi.from| == |phi.args|
    && (forall p | p in t.preds[b] :: p in phi.from)
    && (forall k | 0 <= k < |phi.from| ::
          phi.from[k] < |code| && phi.from[k] in t.preds[b] && phi.args[k] in ScopeOut(t, code, phi.from[k]))
    && (forall j, k | 0 <= j < k < |phi.from| :: phi.from[j] != phi.from[k])
  }

  ghost predicate BlockOk(t: Tree, code: Code, b: nat)
    requires b < |code|
  {
    && HasTerminator(code[b])
    && (forall i {:trigger InstrOk(t, code, b, i)} | 0 <= i < |code[b]| :: InstrOk(t, code, b, i))
  }

  ghost predicate InstrOk(t: Tree, code: Code, b: nat, i: nat)
    requires b < |code| && i < |code[b]|
  {
    && Shaped(code[b][i])
    && (IsTerminator(code[b][i].op) ==> i == |code[b]| - 1)
    && (code[b][i].op == Phi <==> i < Leading(code[b]))
    && (if code[b][i].op == Phi then PhiInScope(t, code, b, code[b][i]) else UseInScope(t, code, b, i))
  }

  ghost predicate Ssa(t: Tree, code: Code) {
    && TreeOf(t, code)
    && UniqueDefs(code)
    && Leading(code[0]) == 0
    && (forall b: nat {:trigger BlockOk(t, code, b)} | b < |code| && t.rank[b] >= 0 :: BlockOk(t, code, b))
    && (forall b: nat | b < |code| && t.rank[b] < 0 :: code[b] == [])
  }

  // ---------------------------------------------------------------- facts on scope

  lemma EntryIsFirst(t: Tree, code: Code)
    requires TreeOf(t, code)
    ensures ScopeIn(t, code, 0) == {}
    ensures forall b: nat | b < |code| && t.rank[b] == 0 :: b == 0
  {
    forall b: nat | b < |code| && t.rank[b] == 0
      ensures b == 0
    {
      assert b != 0 ==> HasParent(t.rank, t.idom, b);
    }
  }

  lemma {:induction false} ScopeWitness(t: Tree, code: Code, b: nat, v: nat) returns (a: nat, j: nat)
    requires v in ScopeIn(t, code, b)
    ensures DefinedAt(code, v, a, j) && a != b && Anc(t.rank, t.idom, a, b)
    ensures HasParent(t.rank, t.idom, b)
    decreases if b < |t.rank| && t.rank[b] >= 0 then t.rank[b] else 0
  {
    var d := t.idom[b];
    if v in Defs(code[d]) {
      a := d;
      j :| 0 <= j < |code[d]| && code[d][j].dst.Some? && code[d][j].dst.value == v;
    } else {
      a, j := ScopeWitness(t, code, d, v);
      AncRank(t.rank, t.idom, a, d);
    }
  }

  /** What is available at the end of a strict dominator is available. */
  lemma {:induction false} ScopeAnc(t: Tree, code: Code, a: nat, b: nat)
    requires TreeOf(t, code) && b < |code| && t.rank[b] >= 0
    requires Anc(t.rank, t.idom, a, b) && a != b
    ensures a < |code| && ScopeOut(t, code, a) <= ScopeIn(t, code, b)
    decreases t.rank[b]
  {
    if a != t.idom[b] {
      ScopeAnc(t, code, a, t.idom[b]);
    }
  }

  /** What is available when a block is entered was available at the end of the block
      control came from. */
  lemma ScopeEdge(t: Tree, code: Code, p: nat, b: nat)
    requires TreeOf(t, code) && b < |code| && p in t.preds[b]
    ensures p < |code| && t.rank[p] >= 0 && t.rank[b] > 0
    ensures ScopeIn(t, code, b) <= ScopeOut(t, code, p)
  {
    assert EdgeInTree(t, code, p, b);
    assert b != 0;
    assert HasParent(t.rank, t.idom, b);
    if t.idom[b] != p {
      ScopeAnc(t, code, t.idom[b], p);
    }
  }

  lemma DefsPrefix(block: Block, i: nat, j: nat)
    requires i <= j <= |block|
    ensures Defs(block[..i]) <= Defs(block[..j]) <= Defs(block)
  {
    forall v | v in Defs(block[..i])
      ensures v in Defs(block[..j])
    {
      var k :| 0 <= k < i && block[..i][k].dst.Some? && block[..i][k].dst.value == v;
      assert block[..j][k] == block[k];
    }
    forall v | v in Defs(block[..j])
      ensures v in Defs(block)
    {
      var k :| 0 <= k < j && block[..j][k].dst.Some? && block[..j][k].dst.value == v;
      assert block[..j][k] == block[k];
    }
  }

  lemma DefsHead(block: Block)
    requires |block| > 0
    ensures Defs(block) == Defs(block[1..]) + (if block[0].dst.Some? then {block[0].dst.value} else {})
  {
    forall v
      ensures v in Defs(block) <==> v in Defs(block[1..]) || (block[0].dst.Some? && v == block[0].dst.value)
    {
      if v in Defs(block[1..]) {
        var k :| 0 <= k < |block[1..]| && block[1..][k].dst.Some? && block[1..][k].dst.value == v;
        assert block[k + 1].dst.Some? && block[k + 1].dst.value == v;
      }
      if v in Defs(block) {
        var k :| 0 <= k < |block| && block[k].dst.Some? && block[k].dst.value == v;
        assert k == 0 || block[1..][k - 1] == block[k];
      }
    }
  }

  lemma DefsStep(block: Block, i: nat)
    requires i < |block|
    ensures Defs(block[..i + 1]) ==
            Defs(block[..i]) + (if block[i].dst.Some? then {block[i].dst.value} else {})
  {
    assert block[..i + 1] == block[..i] + [block[i]];
    var s := block[..i];
    forall v
      ensures v in Defs(s + [block[i]]) <==> v in Defs(s) || (block[i].dst.Some? && v == block[i].dst.value)
    {
      if v in Defs(s) {
        var k :| 0 <= k < |s| && s[k].dst.Some? && s[k].dst.value == v;
        assert (s + [block[i]])[k] == s[k];
      }
      if block[i].dst.Some? && v == block[i].dst.value {
        assert (s + [block[i]])[|s|] == block[i];
      }
    }
  }

  lemma ScopeStep(t: Tree, code: Code, b: nat, i: nat)
    requires b < |code| && i < |code[b]|
    ensures ScopeAt(t, code, b, i + 1) ==
            ScopeAt(t, code, b, i) + (if code[b][i].dst.Some? then {code[b][i].dst.value} else {})
  {
    DefsStep(code[b], i);
  }

  lemma ScopeEnd(t: Tree, code: Code, b: nat)
    requires b < |code|
    ensures ScopeAt(t, code, b, |code[b]|) == ScopeOut(t, code, b)
  {
    assert code[b][..|code[b]|] == code[b];
  }

  lemma InDefs(code: Code, b: nat, n: nat, v: nat) returns (j: nat)
    requires b < |code| && n <= |code[b]| && v in Defs(code[b][..n])
    ensures j < n && DefinedAt(code, v, b, j)
  {
    j :| 0 <= j < n && code[b][..n][j].dst.Some? && code[b][..n][j].dst.value == v;
  }

  /** A value is not in scope where it is being defined. */
  lemma DefNotInScope(t: Tree, code: Code, b: nat, i: nat, v: nat)
    requires UniqueDefs(code) && DefinedAt(code, v, b, i)
    ensures v !in ScopeAt(t, code, b, i)
  {
    if v in ScopeAt(t, code, b, i) {
      if v in ScopeIn(t, code, b) {
        var a, j := ScopeWitness(t, code, b, v);
      } else {
        var j := InDefs(code, b, i, v);
      }
    }
  }

  /** The site of a definition in scope: before this point, or in a strict dominator. */
  lemma InScopeSite(t: Tree, code: Code, b: nat, n: nat, v: nat) returns (a: nat, j: nat)
    requires b < |code| && n <= |code[b]| && v in ScopeAt(t, code, b, n)
    ensures DefinedAt(code, v, a, j)
    ensures (a == b && j < n) || (a != b && Anc(t.rank, t.idom, a, b) && HasParent(t.rank, t.idom, b))
  {
    if v in ScopeIn(t, code, b) {
      a, j := ScopeWitness(t, code, b, v);
    } else {
      a := b;
      j := InDefs(code, b, n, v);
    }
  }

  /** Scope is transitive: where a definition is in scope, so are its operands. */
  lemma OperandsInScope(t: Tree, code: Code, b: nat, n: nat, a: nat, j: nat)
    requires Ssa(t, code) && b < |code| && t.rank[b] >= 0 && n <= |code[b]|
    requires a < |code| && j < |code[a]| && code[a][j].op != Phi && code[a][j].dst.Some?
    requires code[a][j].dst.value in ScopeAt(t, code, b, n)
    ensures forall k | 0 <= k < |code[a][j].args| :: code[a][j].args[k] in ScopeAt(t, code, b, n)
  {
    var v := code[a][j].dst.value;
    assert DefinedAt(code, v, a, j);
    var a', j' := InScopeSite(t, code, b, n, v);
    assert a' == a && j' == j;
    assert t.rank[a] >= 0;
    assert BlockOk(t, code, a);
    assert InstrOk(t, code, a, j);
    assert UseInScope(t, code, a, j);
    if a == b {
      DefsPrefix(code[b], j, n);
    } else {
      DefsPrefix(code[a], j, |code[a]|);
      ScopeAnc(t, code, a, b);
    }
  }

  /** Whatever is in scope at a definition is in scope wherever the definition is. */
  lemma ScopeTransitive(t: Tree, code: Code, b: nat, n: nat, a: nat, j: nat, v: nat)
    requires TreeOf(t, code) && UniqueDefs(code) && b < |code| && t.rank[b] >= 0 && n <= |code[b]|
    requires DefinedAt(code, v, a, j) && v in ScopeAt(t, code, b, n)
    ensures ScopeAt(t, code, a, j) <= ScopeAt(t, code, b, n)
  {
    var a', j' := InScopeSite(t, code, b, n, v);
    assert a' == a && j' == j;
    if a == b {
      DefsPrefix(code[b], j, n);
    } else {
      DefsPrefix(code[a], j, |code[a]|);
      ScopeAnc(t, code, a, b);
    }
  }
}
