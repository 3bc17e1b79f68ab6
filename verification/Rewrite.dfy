/** Rewriting in place: some instructions go, and operands are renamed.

    Removing a redundant computation, propagating a copy, deleting dead code and
    promoting a slot all change a body in this one way, so what it does to blocks,
    edges, scope and single assignment is settled here once. */
module Rewrite {
  import opened Ir
  import opened Dominators
  import opened Semantics
  import opened SsaForm

  /** `gone`: values whose instruction is removed. `slots`: frame slots whose stores are
      removed. `sub`: what to read instead. */
  datatype Plan = Plan(gone: set<nat>, slots: set<nat>, sub: map<nat, nat>)

  function NameFor(p: Plan, v: nat): nat {
    if v in p.sub then p.sub[v] else v
  }

  function NamesFor(p: Plan, args: seq<nat>): (r: seq<nat>)
    ensures |r| == |args|
    ensures forall k | 0 <= k < |args| :: r[k] == NameFor(p, args[k])
  {
    seq(|args|, k requires 0 <= k < |args| => NameFor(p, args[k]))
  }

  function Rename(p: Plan, i: Instr): Instr {
    i.(args := NamesFor(p, i.args))
  }

  predicate Dropped(p: Plan, i: Instr) {
    (i.dst.Some? && i.dst.value in p.gone) ||
    (i.op == Store && |i.args| == 2 && i.args[0] in p.slots)
  }

  function RewriteBlock(p: Plan, block: Block): Block {
    if block == [] then []
    else (if Dropped(p, block[0]) then [] else [Rename(p, block[0])]) + RewriteBlock(p, block[1..])
  }

  function RewriteCode(p: Plan, code: Code): (r: Code)
    ensures |r| == |code|
    ensures forall b | 0 <= b < |code| :: r[b] == RewriteBlock(p, code[b])
  {
    seq(|code|, b requires 0 <= b < |code| => RewriteBlock(p, code[b]))
  }

  // ------------------------------------------------------------- shape of a block

  lemma {:induction false} RewriteAppend(p: Plan, x: Block, y: Block)
    ensures RewriteBlock(p, x + y) == RewriteBlock(p, x) + RewriteBlock(p, y)
  {
    if x == [] {
      assert x + y == y;
    } else {
      assert (x + y)[1..] == x[1..] + y;
      RewriteAppend(p, x[1..], y);
    }
  }

  lemma RewriteHead(p: Plan, i: Instr, rest: Block)
    ensures RewriteBlock(p, [i] + rest) == (if Dropped(p, i) then [] else [Rename(p, i)]) + RewriteBlock(p, rest)
  {
    assert ([i] + rest)[1..] == rest;
  }

  lemma RewriteSplit(p: Plan, block: Block, i: nat)
    requires i <= |block|
    ensures RewriteBlock(p, block) == RewriteBlock(p, block[..i]) + RewriteBlock(p, block[i..])
  {
    RewriteAppend(p, block[..i], block[i..]);
    assert block[..i] + block[i..] == block;
  }

  /** A block keeps the terminator it ends with. */
  lemma RewriteLast(p: Plan, block: Block)
    requires |block| > 0 && !Dropped(p, block[|block| - 1])
    ensures var r := RewriteBlock(p, block);
            |r| > 0 && r[|r| - 1] == Rename(p, block[|block| - 1])
  {
    var n := |block| - 1;
    RewriteSplit(p, block, n);
    assert block[n..] == [block[n]];
    assert RewriteBlock(p, [block[n]]) == [Rename(p, block[n])] + RewriteBlock(p, []);
  }

  lemma {:induction false} RewritePhis(p: Plan, block: Block)
    requires forall k | 0 <= k < |block| :: block[k].op == Phi
    ensures forall k | 0 <= k < |RewriteBlock(p, block)| :: RewriteBlock(p, block)[k].op == Phi
  {
    if block != [] {
      RewritePhis(p, block[1..]);
    }
  }

  lemma {:induction false} RewriteNoPhis(p: Plan, block: Block)
    requires forall k | 0 <= k < |block| :: block[k].op != Phi
    ensures forall k | 0 <= k < |RewriteBlock(p, block)| :: RewriteBlock(p, block)[k].op != Phi
  {
    if block != [] {
      RewriteNoPhis(p, block[1..]);
    }
  }

  lemma {:induction false} LeadingIs(block: Block, n: nat)
    requires n <= |block|
    requires forall k | 0 <= k < n :: block[k].op == Phi
    requires n < |block| ==> block[n].op != Phi
    ensures Leading(block) == n
  {
    if n > 0 {
      LeadingIs(block[1..], n - 1);
    }
  }

  /** The phis a block starts with are rewritten to those the new block starts with. */
  lemma RewriteLeading(p: Plan, block: Block)
    requires forall k | Leading(block) <= k < |block| :: block[k].op != Phi
    ensures var n, r := Leading(block), RewriteBlock(p, block);
            && Leading(r) == |RewriteBlock(p, block[..n])|
            && r[..Leading(r)] == RewriteBlock(p, block[..n])
            && r[Leading(r)..] == RewriteBlock(p, block[n..])
            && forall k | Leading(r) <= k < |r| :: r[k].op != Phi
  {
    var n, r := Leading(block), RewriteBlock(p, block);
    RewriteSplit(p, block, n);
    RewritePhis(p, block[..n]);
    RewriteNoPhis(p, block[n..]);
    LeadingIs(r, |RewriteBlock(p, block[..n])|);
  }

  // ------------------------------------------------------ where instructions come from

  /** The position in the old block of the instruction at position `k` of the new one. */
  ghost function Origin(p: Plan, block: Block, k: nat): nat
    requires k < |RewriteBlock(p, block)|
  {
    if Dropped(p, block[0]) then 1 + Origin(p, block[1..], k)
    else if k == 0 then 0
    else 1 + Origin(p, block[1..], k - 1)
  }

  lemma {:induction false} OriginIs(p: Plan, block: Block, k: nat)
    requires k < |RewriteBlock(p, block)|
    ensures var i := Origin(p, block, k);
            && i < |block| && !Dropped(p, block[i]) && RewriteBlock(p, block)[k] == Rename(p, block[i])
            && RewriteBlock(p, block[..i]) == RewriteBlock(p, block)[..k]
  {
    var i := Origin(p, block, k);
    if Dropped(p, block[0]) {
      OriginIs(p, block[1..], k);
      assert block[..i][1..] == block[1..][..i - 1];
    } else if k > 0 {
      OriginIs(p, block[1..], k - 1);
      assert block[..i][1..] == block[1..][..i - 1];
      assert RewriteBlock(p, block)[..k] == [Rename(p, block[0])] + RewriteBlock(p, block[1..])[..k - 1];
    }
  }

  lemma {:induction false} OriginInjective(p: Plan, block: Block, j: nat, k: nat)
    requires j < |RewriteBlock(p, block)| && k < |RewriteBlock(p, block)|
    requires Origin(p, block, j) == Origin(p, block, k)
    ensures j == k
  {
    if Dropped(p, block[0]) {
      OriginInjective(p, block[1..], j, k);
    } else if j > 0 && k > 0 {
      OriginInjective(p, block[1..], j - 1, k - 1);
    }
  }

  /** Every instruction that is not dropped is found again. */
  lemma {:induction false} Survives(p: Plan, block: Block, i: nat) returns (k: nat)
    requires i < |block| && !Dropped(p, block[i])
    ensures k < |RewriteBlock(p, block)| && Origin(p, block, k) == i
  {
    if i == 0 {
      k := 0;
    } else {
      var k' := Survives(p, block[1..], i - 1);
      k := if Dropped(p, block[0]) then k' else k' + 1;
    }
  }

  // --------------------------------------------------------------------- scope

  /** Dropping an instruction that has a result always means that the result is gone. */
  ghost predicate StoresHaveNoResult(block: Block) {
    forall k | 0 <= k < |block| && block[k].op == Store :: block[k].dst.None?
  }

  lemma {:induction false} RewriteDefs(p: Plan, block: Block)
    requires StoresHaveNoResult(block)
    ensures Defs(RewriteBlock(p, block)) == Defs(block) - p.gone
  {
    if block != [] {
      assert block[0].op == Store ==> block[0].dst.None?;
      RewriteDefs(p, block[1..]);
      DefsHead(block);
      if Dropped(p, block[0]) {
        assert RewriteBlock(p, block) == RewriteBlock(p, block[1..]);
      } else {
        assert RewriteBlock(p, block)[0] == Rename(p, block[0]);
        DefsHead(RewriteBlock(p, block));
        assert RewriteBlock(p, block)[1..] == RewriteBlock(p, block[1..]);
      }
    }
  }

  ghost predicate AllStoresPlain(code: Code) {
    forall b | 0 <= b < |code| :: StoresHaveNoResult(code[b])
  }

  lemma {:induction false} RewriteScopeIn(t: Tree, p: Plan, code: Code, b: nat)
    requires AllStoresPlain(code)
    ensures ScopeIn(t, RewriteCode(p, code), b) == ScopeIn(t, code, b) - p.gone
    decreases if b < |t.rank| && t.rank[b] >= 0 then t.rank[b] else 0
  {
    if HasParent(t.rank, t.idom, b) && t.idom[b] < |code| {
      RewriteScopeIn(t, p, code, t.idom[b]);
      RewriteDefs(p, code[t.idom[b]]);
    }
  }

  lemma RewriteScopeAt(t: Tree, p: Plan, code: Code, b: nat, i: nat, k: nat)
    requires AllStoresPlain(code) && b < |code| && i <= |code[b]| && k <= |RewriteBlock(p, code[b])|
    requires RewriteBlock(p, code[b][..i]) == RewriteBlock(p, code[b])[..k]
    ensures ScopeAt(t, RewriteCode(p, code), b, k) == ScopeAt(t, code, b, i) - p.gone
  {
    RewriteScopeIn(t, p, code, b);
    assert StoresHaveNoResult(code[b]);
    RewriteDefs(p, code[b][..i]);
  }

  lemma RewriteScopeOut(t: Tree, p: Plan, code: Code, b: nat)
    requires AllStoresPlain(code) && b < |code|
    ensures ScopeOut(t, RewriteCode(p, code), b) == ScopeOut(t, code, b) - p.gone
  {
    RewriteScopeIn(t, p, code, b);
    RewriteDefs(p, code[b]);
  }

  // ---------------------------------------------------------- single assignment

  /** Every operand of an instruction that stays has something to be renamed to, which is
      in scope there and is not itself gone. */
  ghost predicate Supplied(t: Tree, p: Plan, code: Code) {
    forall b: nat, i: nat {:trigger SuppliedAt(t, p, code, b, i)}
      | b < |code| && b < |t.rank| && t.rank[b] >= 0 && i < |code[b]| && !Dropped(p, code[b][i]) ::
      SuppliedAt(t, p, code, b, i)
  }

  ghost predicate SuppliedAt(t: Tree, p: Plan, code: Code, b: nat, i: nat)
    requires b < |code| && i < |code[b]|
  {
    var ins := code[b][i];
    forall k | 0 <= k < |ins.args| ::
      if ins.op != Phi then NameFor(p, ins.args[k]) in ScopeAt(t, code, b, i) - p.gone
      else k < |ins.from| && ins.from[k] < |code| &&
           NameFor(p, ins.args[k]) in ScopeOut(t, code, ins.from[k]) - p.gone
  }

  lemma RewriteUnique(p: Plan, code: Code)
    requires UniqueDefs(code)
    ensures UniqueDefs(RewriteCode(p, code))
  {
    var r := RewriteCode(p, code);
    forall v: nat, b: nat, i: nat, c: nat, j: nat | DefinedAt(r, v, b, i) && DefinedAt(r, v, c, j)
      ensures b == c && i == j
    {
      OriginIs(p, code[b], i);
      OriginIs(p, code[c], j);
      assert DefinedAt(code, v, b, Origin(p, code[b], i));
      assert DefinedAt(code, v, c, Origin(p, code[c], j));
      OriginInjective(p, code[b], i, j);
    }
  }

  /** Edges are where they were. */
  lemma RewriteFlow(t: Tree, p: Plan, code: Code, b: nat)
    requires Ssa(t, code) && b < |code|
    ensures Successors(RewriteBlock(p, code[b])) == Successors(code[b])
    ensures HasTerminator(code[b]) <==> HasTerminator(RewriteBlock(p, code[b]))
  {
    if t.rank[b] >= 0 {
      assert BlockOk(t, code, b);
      assert InstrOk(t, code, b, |code[b]| - 1);
      RewriteLast(p, code[b]);
    }
  }

  lemma RewriteTree(t: Tree, p: Plan, code: Code)
    requires Ssa(t, code)
    ensures TreeOf(t, RewriteCode(p, code))
  {
    var r := RewriteCode(p, code);
    forall q: nat, b: nat
      ensures Leads(r, q, b) <==> Leads(code, q, b)
    {
      if q < |code| {
        RewriteFlow(t, p, code, q);
      }
    }
    forall b: nat, q: nat | b < |code| && q in t.preds[b]
      ensures EdgeInTree(t, r, q, b)
    {
      assert EdgeInTree(t, code, q, b);
    }
  }

  lemma SsaStoresPlain(t: Tree, code: Code)
    requires Ssa(t, code)
    ensures AllStoresPlain(code)
  {
    forall b: nat, k: nat | b < |code| && k < |code[b]| && code[b][k].op == Store
      ensures code[b][k].dst.None?
    {
      assert BlockOk(t, code, b);
      assert InstrOk(t, code, b, k);
    }
  }

  lemma PhisFirst(t: Tree, code: Code, b: nat)
    requires Ssa(t, code) && b < |code| && t.rank[b] >= 0
    ensures forall k | Leading(code[b]) <= k < |code[b]| :: code[b][k].op != Phi
  {
    assert BlockOk(t, code, b);
    forall k | Leading(code[b]) <= k < |code[b]|
      ensures code[b][k].op != Phi
    {
      assert InstrOk(t, code, b, k);
    }
  }

  lemma RewriteEntry(t: Tree, p: Plan, code: Code)
    requires Ssa(t, code)
    ensures Leading(RewriteCode(p, code)[0]) == 0
  {
    PhisFirst(t, code, 0);
    RewriteLeading(p, code[0]);
    assert code[0][..0] == [];
  }

  lemma RewriteBlockOk(t: Tree, p: Plan, code: Code, b: nat)
    requires Ssa(t, code) && Supplied(t, p, code) && AllStoresPlain(code)
    requires b < |code| && t.rank[b] >= 0
    ensures BlockOk(t, RewriteCode(p, code), b)
  {
    var r := RewriteCode(p, code);
    RewriteFlow(t, p, code, b);
    assert BlockOk(t, code, b);
    forall k: nat | k < |r[b]|
      ensures InstrOk(t, r, b, k)
    {
      RewriteInstrOk(t, p, code, b, k);
    }
  }

  /** A supplied rewriting keeps single assignment form. */
  lemma RewriteSsa(t: Tree, p: Plan, code: Code)
    requires Ssa(t, code) && Supplied(t, p, code)
    ensures Ssa(t, RewriteCode(p, code))
  {
    RewriteTree(t, p, code);
    RewriteUnique(p, code);
    SsaStoresPlain(t, code);
    RewriteEntry(t, p, code);
    forall b: nat | b < |code| && t.rank[b] >= 0
      ensures BlockOk(t, RewriteCode(p, code), b)
    {
      RewriteBlockOk(t, p, code, b);
    }
  }

  lemma RewriteInstrOk(t: Tree, p: Plan, code: Code, b: nat, k: nat)
    requires Ssa(t, code) && Supplied(t, p, code) && AllStoresPlain(code)
    requires b < |code| && t.rank[b] >= 0 && k < |RewriteBlock(p, code[b])|
    ensures InstrOk(t, RewriteCode(p, code), b, k)
  {
    var i := Origin(p, code[b], k);
    OriginIs(p, code[b], k);
    assert BlockOk(t, code, b);
    assert InstrOk(t, code, b, i);
    assert SuppliedAt(t, p, code, b, i);
    RewriteOrder(t, p, code, b, k);
    if code[b][i].op == Phi {
      RewritePhiInScope(t, p, code, b, i);
    } else {
      RewriteScopeAt(t, p, code, b, i, k);
    }
  }

  lemma RewriteOrder(t: Tree, p: Plan, code: Code, b: nat, k: nat)
    requires Ssa(t, code) && b < |code| && t.rank[b] >= 0 && k < |RewriteBlock(p, code[b])|
    ensures var r := RewriteBlock(p, code[b]);
            && (IsTerminator(r[k].op) ==> k == |r| - 1)
            && (r[k].op == Phi <==> k < Leading(r))
  {
    var r := RewriteBlock(p, code[b]);
    var i := Origin(p, code[b], k);
    OriginIs(p, code[b], k);
    assert BlockOk(t, code, b);
    assert InstrOk(t, code, b, i);
    PhisFirst(t, code, b);
    RewriteLeading(p, code[b]);
    if IsTerminator(r[k].op) {
      RewriteSplit(p, code[b], i);
      assert code[b][i..] == [code[b][i]];
      assert RewriteBlock(p, [code[b][i]]) == [Rename(p, code[b][i])] + RewriteBlock(p, []);
    }
  }

  lemma RewritePhiInScope(t: Tree, p: Plan, code: Code, b: nat, i: nat)
    requires Ssa(t, code) && AllStoresPlain(code)
    requires b < |code| && t.rank[b] >= 0 && i < |code[b]| && code[b][i].op == Phi
    requires SuppliedAt(t, p, code, b, i)
    ensures PhiInScope(t, RewriteCode(p, code), b, Rename(p, code[b][i]))
  {
    var phi := code[b][i];
    assert BlockOk(t, code, b);
    assert InstrOk(t, code, b, i);
    assert PhiInScope(t, code, b, phi);
    forall k | 0 <= k < |phi.from|
      ensures NameFor(p, phi.args[k]) in ScopeOut(t, RewriteCode(p, code), phi.from[k])
    {
      RewriteScopeOut(t, p, code, phi.from[k]);
    }
  }
}
