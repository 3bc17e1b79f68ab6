/** Each load of a promoted slot replaced by a copy of the value the slot holds.
    The two bodies go through the same states. */
module Forwarding {
  import opened Ir
  import opened Dominators
  import opened Semantics
  import opened SsaForm
  import opened Soundness
  import opened Rewrite
  import opened Slots

  ghost predicate Reads(m: Promo, i: Instr) {
    i.op == Load && |i.args| == 1 && i.args[0] in m.slots
  }

  /** A load of a slot that has a value to be read becomes a copy of it. */
  ghost function Forward(t: Tree, code: Code, m: Promo, b: nat, i: nat): Instr
    requires b < |code| && i < |code[b]|
  {
    var ins := code[b][i];
    if Reads(m, ins) && Cur(t, code, m, b, i, ins.args[0]).Some? then
      ins.(op := Copy, args := [Cur(t, code, m, b, i, ins.args[0]).value])
    else ins
  }

  ghost function ForwardBlock(t: Tree, code: Code, m: Promo, b: nat): (r: Block)
    requires b < |code|
    ensures |r| == |code[b]|
    ensures forall i | 0 <= i < |r| :: r[i] == Forward(t, code, m, b, i)
  {
    seq(|code[b]|, i requires 0 <= i < |code[b]| => Forward(t, code, m, b, i))
  }

  ghost function ForwardCode(t: Tree, code: Code, m: Promo): (r: Code)
    ensures |r| == |code|
    ensures forall b | 0 <= b < |code| :: r[b] == ForwardBlock(t, code, m, b)
  {
    seq(|code|, b requires 0 <= b < |code| => ForwardBlock(t, code, m, b))
  }

  // --------------------------------------------------------------- single assignment

  lemma {:induction false} SameResultsSameDefs(x: Block, y: Block)
    requires |x| == |y| && forall k | 0 <= k < |x| :: x[k].dst == y[k].dst
    ensures Defs(x) == Defs(y)
  {
    forall v | v in Defs(x)
      ensures v in Defs(y)
    {
      var k :| 0 <= k < |x| && x[k].dst.Some? && x[k].dst.value == v;
      assert y[k].dst.Some? && y[k].dst.value == v;
    }
    forall v | v in Defs(y)
      ensures v in Defs(x)
    {
      var k :| 0 <= k < |y| && y[k].dst.Some? && y[k].dst.value == v;
      assert x[k].dst.Some? && x[k].dst.value == v;
    }
  }

  lemma {:induction false} ForwardScopeIn(t: Tree, code: Code, m: Promo, b: nat)
    ensures ScopeIn(t, ForwardCode(t, code, m), b) == ScopeIn(t, code, b)
    decreases if b < |t.rank| && t.rank[b] >= 0 then t.rank[b] else 0
  {
    if HasParent(t.rank, t.idom, b) && t.idom[b] < |code| {
      var d: nat := t.idom[b];
      ForwardScopeIn(t, code, m, d);
      SameResultsSameDefs(code[d], ForwardBlock(t, code, m, d));
    }
  }

  lemma ForwardScope(t: Tree, code: Code, m: Promo, b: nat, i: nat)
    requires b < |code| && i <= |code[b]|
    ensures ScopeAt(t, ForwardCode(t, code, m), b, i) == ScopeAt(t, code, b, i)
    ensures ScopeOut(t, ForwardCode(t, code, m), b) == ScopeOut(t, code, b)
  {
    ForwardScopeIn(t, code, m, b);
    SameResultsSameDefs(code[b], ForwardBlock(t, code, m, b));
    SameResultsSameDefs(code[b][..i], ForwardBlock(t, code, m, b)[..i]);
  }

  lemma ForwardLeading(t: Tree, code: Code, m: Promo, b: nat)
    requires b < |code|
    ensures Leading(ForwardBlock(t, code, m, b)) == Leading(code[b])
    ensures ForwardBlock(t, code, m, b)[..Leading(code[b])] == code[b][..Leading(code[b])]
    ensures Successors(ForwardBlock(t, code, m, b)) == Successors(code[b])
    ensures HasTerminator(ForwardBlock(t, code, m, b)) <==> HasTerminator(code[b])
  {
    SamePhis(code[b], ForwardBlock(t, code, m, b));
    SameLast(code[b], ForwardBlock(t, code, m, b));
  }

  lemma SameLast(x: Block, y: Block)
    requires |x| == |y|
    requires |x| > 0 ==> y[|y| - 1] == x[|x| - 1] || (x[|x| - 1].op == Load && y[|y| - 1].op == Copy)
    ensures Successors(y) == Successors(x) && (HasTerminator(y) <==> HasTerminator(x))
  {
  }

  lemma SamePhis(x: Block, y: Block)
    requires |x| == |y| && forall k | 0 <= k < |x| :: y[k] == x[k] || (x[k].op == Load && y[k].op == Copy)
    ensures Leading(y) == Leading(x) && y[..Leading(x)] == x[..Leading(x)]
  {
    var n := Leading(x);
    assert forall k | 0 <= k < n :: y[k] == x[k];
    LeadingIs(y, n);
  }

  lemma ForwardTree(t: Tree, code: Code, m: Promo)
    requires TreeOf(t, code)
    ensures TreeOf(t, ForwardCode(t, code, m))
  {
    var r := ForwardCode(t, code, m);
    forall q: nat, b: nat
      ensures Leads(r, q, b) <==> Leads(code, q, b)
    {
      if q < |code| {
        ForwardLeading(t, code, m, q);
      }
    }
    forall b: nat, q: nat | b < |code| && q in t.preds[b]
      ensures EdgeInTree(t, r, q, b)
    {
      assert EdgeInTree(t, code, q, b);
    }
  }

  lemma ForwardPhiOk(t: Tree, code: Code, m: Promo, b: nat, phi: Instr)
    requires PhiInScope(t, code, b, phi)
    ensures PhiInScope(t, ForwardCode(t, code, m), b, phi)
  {
    forall k | 0 <= k < |phi.from|
      ensures phi.args[k] in ScopeOut(t, ForwardCode(t, code, m), phi.from[k])
    {
      ForwardScope(t, code, m, phi.from[k], 0);
    }
  }

  lemma ForwardUses(t: Tree, code: Code, m: Promo, b: nat, i: nat)
    requires Placed(t, code, m) && b < |code| && t.rank[b] >= 0 && Leading(code[b]) <= i < |code[b]|
    requires UseInScope(t, code, b, i)
    ensures UseInScope(t, ForwardCode(t, code, m), b, i)
  {
    var ins := code[b][i];
    ForwardScope(t, code, m, b, i);
    if Reads(m, ins) && Cur(t, code, m, b, i, ins.args[0]).Some? {
      AfterZeros(t, code, m, b, i);
      CurInScope(t, code, m, b, i, ins.args[0]);
    }
  }

  lemma ForwardInstrOk(t: Tree, code: Code, m: Promo, b: nat, i: nat)
    requires Placed(t, code, m) && b < |code| && t.rank[b] >= 0 && i < |code[b]|
    ensures InstrOk(t, ForwardCode(t, code, m), b, i)
  {
    ForwardLeading(t, code, m, b);
    assert BlockOk(t, code, b);
    assert InstrOk(t, code, b, i);
    if code[b][i].op == Phi {
      ForwardPhiOk(t, code, m, b, code[b][i]);
    } else {
      ForwardUses(t, code, m, b, i);
    }
  }

  lemma ZeroAt(code: Code, m: Promo, i: nat)
    requires ZerosFirst(code, m) && i < |code[0]|
    ensures i < m.zeros ==> ZeroConst(code[0][i])
  {
  }

  lemma AfterZeros(t: Tree, code: Code, m: Promo, b: nat, i: nat)
    requires Placed(t, code, m) && b < |code| && i < |code[b]| && code[b][i].op == Load
    ensures b == 0 ==> m.zeros <= i
  {
    if b == 0 {
      ZeroAt(code, m, i);
    }
  }

  lemma ForwardSsa(t: Tree, code: Code, m: Promo)
    requires Placed(t, code, m)
    ensures Ssa(t, ForwardCode(t, code, m))
  {
    var r := ForwardCode(t, code, m);
    ForwardTree(t, code, m);
    ForwardLeading(t, code, m, 0);
    forall v: nat, b: nat, i: nat
      ensures DefinedAt(r, v, b, i) <==> DefinedAt(code, v, b, i)
    {
    }
    forall b: nat | b < |code| && t.rank[b] >= 0
      ensures BlockOk(t, r, b)
    {
      ForwardLeading(t, code, m, b);
      assert BlockOk(t, code, b);
      forall i: nat | i < |r[b]|
        ensures InstrOk(t, r, b, i)
      {
        ForwardInstrOk(t, code, m, b, i);
      }
    }
  }

  // ------------------------------------------------------------------ the same runs

  lemma LoadIsCopy(c: Context, m: Promo, i: Instr, w: nat, st: State)
    requires Reads(m, i) && m.slots <= c.private && i.dst.Some?
    requires Assigned(st.env, i.args) && Mirrored(Some(w), i.args[0], st)
    ensures Exec(c, i.(op := Copy, args := [w]), st) == Exec(c, i, st)
  {
  }

  lemma ForwardStep(t: Tree, c: Context, code: Code, m: Promo, b: nat, i: nat, st: State)
    requires Placed(t, code, m) && m.slots <= c.private
    requires b < |code| && t.rank[b] >= 0 && Leading(code[b]) <= i < |code[b]|
    requires Ready(t, c, code, m, b, i, st)
    ensures Exec(c, Forward(t, code, m, b, i), st) == Exec(c, code[b][i], st)
  {
    var ins := code[b][i];
    if Reads(m, ins) && Cur(t, code, m, b, i, ins.args[0]).Some? {
      AfterZeros(t, code, m, b, i);
      OperandsAssigned(t, c, code, b, i, st);
      assert AccessOk(ins);
      LoadIsCopy(c, m, ins, Cur(t, code, m, b, i, ins.args[0]).value, st);
    }
  }

  lemma {:induction false} RestForward(t: Tree, c: Context, code: Code, m: Promo, b: nat, i: nat, st: State)
    requires Placed(t, code, m) && m.slots <= c.private
    requires b < |code| && t.rank[b] >= 0 && Leading(code[b]) <= i < |code[b]|
    requires Ready(t, c, code, m, b, i, st)
    ensures var o := ExecFrom(c, code[b][i..], st);
            && ExecFrom(c, ForwardBlock(t, code, m, b)[i..], st) == o
            && (o.Goto? ==> Mirrors(t, code, m, b, |code[b]|, o.st))
    decreases |code[b]| - i
  {
    var r := ForwardBlock(t, code, m, b);
    ForwardStep(t, c, code, m, b, i, st);
    var o := Exec(c, code[b][i], st);
    assert code[b][i..][1..] == code[b][i + 1..] && r[i..][1..] == r[i + 1..];
    OperandsAssigned(t, c, code, b, i, st);
    Proceeds(c, code[b][i], st);
    if o.Continue? {
      StepReady(t, c, code, m, b, i, st, o.st);
      RestForward(t, c, code, m, b, i + 1, o.st);
    } else if o.Goto? {
      TerminatorMirrors(t, c, code, m, b, i, st);
    }
  }

  lemma TerminatorMirrors(t: Tree, c: Context, code: Code, m: Promo, b: nat, i: nat, st: State)
    requires Placed(t, code, m)
    requires b < |code| && t.rank[b] >= 0 && i == |code[b]| - 1 && IsTerminator(code[b][i].op)
    requires Ready(t, c, code, m, b, i, st)
    ensures Mirrors(t, code, m, b, |code[b]|, st)
  {
    if b == 0 {
      ZeroAt(code, m, i);
    }
    forall s | s in m.slots
      ensures Mirrored(Cur(t, code, m, b, |code[b]|, s), s, st)
    {
      CurStep(t, code, m, b, i, s);
      assert Mirrored(Cur(t, code, m, b, i, s), s, st);
    }
  }

  /** The one configuration both runs are in. */
  ghost predicate Together(t: Tree, c: Context, code: Code, m: Promo, cfg: Config, cfg': Config) {
    && cfg == cfg' && Arrived(t, c, code, cfg)
    && (cfg.At? ==> match cfg.prev
                    case None => cfg.st.env == map[] && cfg.st.cells == map[]
                    case Some(q) => Mirrors(t, code, m, q, |code[q]|, cfg.st))
  }

  lemma BlockForward(t: Tree, c: Context, code: Code, m: Promo, cfg: Config)
    requires Placed(t, code, m) && m.slots <= c.private
    requires Together(t, c, code, m, cfg, cfg) && cfg.At?
    ensures var o := ExecBlock(c, code, cfg.block, cfg.prev, cfg.st);
            && ExecBlock(c, ForwardCode(t, code, m), cfg.block, cfg.prev, cfg.st) == o
            && (o.Goto? ==> Mirrors(t, code, m, cfg.block, |code[cfg.block]|, o.st))
  {
    var b, n := cfg.block, Leading(code[cfg.block]);
    ForwardLeading(t, code, m, b);
    assert BlockOk(t, code, b);
    assert InstrOk(t, code, b, |code[b]| - 1);
    if cfg.prev.Some? {
      var merged := EdgeReady(t, c, code, m, cfg.prev.value, b, cfg.st);
      BlockIs(c, code, b, cfg.prev, cfg.st, merged);
      BlockIs(c, ForwardCode(t, code, m), b, cfg.prev, cfg.st, merged);
      RestForward(t, c, code, m, b, n, cfg.st.(env := cfg.st.env + merged));
    } else {
      EntryForward(t, c, code, m, cfg.st);
    }
  }

  lemma EdgeReady(t: Tree, c: Context, code: Code, m: Promo, q: nat, b: nat, st: State) returns (merged: map<nat, int>)
    requires Placed(t, code, m)
    requires b < |code| && t.rank[b] >= 0 && q in t.preds[b] && q < |code|
    requires Intact(t, c, code, q, |code[q]|, st.env) && Mirrors(t, code, m, q, |code[q]|, st)
    ensures Merge(code[b][..Leading(code[b])], Some(q), st.env) == Some(merged)
    ensures Ready(t, c, code, m, b, Leading(code[b]), st.(env := st.env + merged))
  {
    EnterIntact(t, c, code, q, b, st.env);
    merged := Merge(code[b][..Leading(code[b])], Some(q), st.env).value;
    assert b != 0;
    EnterReady(t, c, code, m, q, b, st, merged);
  }

  lemma EntryForward(t: Tree, c: Context, code: Code, m: Promo, st: State)
    requires Placed(t, code, m) && m.slots <= c.private && st.env == map[] && st.cells == map[]
    ensures var o := ExecBlock(c, code, 0, None, st);
            && ExecBlock(c, ForwardCode(t, code, m), 0, None, st) == o
            && (o.Goto? ==> Mirrors(t, code, m, 0, |code[0]|, o.st))
  {
    var r := ForwardBlock(t, code, m, 0);
    ForwardLeading(t, code, m, 0);
    EntryIsFirst(t, code);
    assert BlockOk(t, code, 0);
    assert code[0][..0] == [] && r[..0] == [];
    assert st.env + map[] == st.env;
    assert Defs(code[0][..0]) == {};
    StartReady(t, c, code, m, st);
    BlockIs(c, code, 0, None, st, map[]);
    BlockIs(c, ForwardCode(t, code, m), 0, None, st, map[]);
    RestForward(t, c, code, m, 0, 0, st);
  }

  /** Every run goes through the same states. */
  lemma ForwardingPreservesRuns(t: Tree, c: Context, code: Code, m: Promo, world: World, n: nat)
    requires Placed(t, code, m) && m.slots <= c.private
    ensures Ssa(t, ForwardCode(t, code, m))
    ensures Run(c, ForwardCode(t, code, m), world, n) == Run(c, code, world, n)
  {
    var r := ForwardCode(t, code, m);
    ForwardSsa(t, code, m);
    var rel := (x: Config, y: Config) => Together(t, c, code, m, x, y);
    forall x, y | rel(x, y)
      ensures rel(Next(c, code, x), Next(c, r, y))
    {
      NextArrives(t, c, code, x);
      if x.At? {
        BlockForward(t, c, code, m, x);
      }
    }
    RunArrives(t, c, code, world, 0);
    Lockstep(c, code, c, r, world, n, rel);
  }
}
