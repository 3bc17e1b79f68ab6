/** Running a body in single assignment form: no run reads an unassigned value, and
    what a pure instruction computed stays true wherever its result is in scope. */
module Soundness {
  import opened Ir
  import opened Graph
  import opened Semantics
  import opened SsaForm

  /** The result of a pure instruction is what its operands, as they are now, give. */
  ghost predicate Holds(c: Context, i: Instr, env: map<nat, int>) {
    && i.dst.Some? && i.dst.value in env
    && Assigned(env, i.args)
    && Evaluate(c, i, Values(env, i.args)) == Some(env[i.dst.value])
  }

  ghost predicate AllAssigned(scope: set<nat>, env: map<nat, int>) {
    forall v | v in scope :: v in env
  }

  ghost predicate AllHold(c: Context, code: Code, scope: set<nat>, env: map<nat, int>) {
    forall b: nat, i: nat {:trigger Holds(c, code[b][i], env)}
      | b < |code| && i < |code[b]| && IsPure(code[b][i]) && code[b][i].dst.value in scope ::
      Holds(c, code[b][i], env)
  }

  /** What is true of the environment when control is before instruction `i` of block `b`. */
  ghost predicate Intact(t: Tree, c: Context, code: Code, b: nat, i: nat, env: map<nat, int>)
    requires b < |code| && i <= |code[b]|
  {
    && AllAssigned(ScopeAt(t, code, b, i), env)
    && AllHold(c, code, ScopeAt(t, code, b, i), env)
  }

  /** Assigning what is not an operand leaves a computation true. */
  lemma HoldsElsewhere(c: Context, i: Instr, env: map<nat, int>, after: map<nat, int>)
    requires Holds(c, i, env)
    requires i.dst.value in after && after[i.dst.value] == env[i.dst.value]
    requires forall k | 0 <= k < |i.args| :: i.args[k] in after && after[i.args[k]] == env[i.args[k]]
    ensures Holds(c, i, after)
  {
    assert Values(after, i.args) == Values(env, i.args);
  }

  /** An environment that agrees on a scope keeps what holds in it. */
  lemma AllHoldAgree(t: Tree, c: Context, code: Code, b: nat, i: nat, env: map<nat, int>, after: map<nat, int>)
    requires Ssa(t, code) && b < |code| && t.rank[b] >= 0 && i <= |code[b]|
    requires Intact(t, c, code, b, i, env)
    requires forall v | v in ScopeAt(t, code, b, i) :: v in after && after[v] == env[v]
    ensures Intact(t, c, code, b, i, after)
  {
    forall a: nat, j: nat
      | a < |code| && j < |code[a]| && IsPure(code[a][j]) && code[a][j].dst.value in ScopeAt(t, code, b, i)
      ensures Holds(c, code[a][j], after)
    {
      assert Holds(c, code[a][j], env);
      OperandsInScope(t, code, b, i, a, j);
      HoldsElsewhere(c, code[a][j], env, after);
    }
  }

  /** One instruction. */
  lemma StepIntact(t: Tree, c: Context, code: Code, b: nat, i: nat, st: State, after: State)
    requires Ssa(t, code) && b < |code| && t.rank[b] >= 0 && Leading(code[b]) <= i < |code[b]|
    requires Intact(t, c, code, b, i, st.env)
    requires Exec(c, code[b][i], st) == Continue(after)
    ensures Intact(t, c, code, b, i + 1, after.env)
  {
    var ins := code[b][i];
    assert BlockOk(t, code, b);
    assert InstrOk(t, code, b, i);
    ScopeStep(t, code, b, i);
    if ins.dst.Some? {
      var d := ins.dst.value;
      assert DefinedAt(code, d, b, i);
      DefNotInScope(t, code, b, i, d);
      AssignsOnlyDst(c, ins, st, after);
      AllHoldAgree(t, c, code, b, i, st.env, after.env);
      forall a: nat, j: nat
        | a < |code| && j < |code[a]| && IsPure(code[a][j]) && code[a][j].dst.value in ScopeAt(t, code, b, i + 1)
        ensures Holds(c, code[a][j], after.env)
      {
        if code[a][j].dst.value == d {
          assert DefinedAt(code, d, a, j);
          ComputedHolds(t, c, code, b, i, st, after);
        }
      }
    } else {
      NoDstNoChange(c, ins, st, after);
    }
  }

  lemma AssignsOnlyDst(c: Context, i: Instr, st: State, after: State)
    requires i.dst.Some? && Shaped(i) && i.op != Phi
    requires Exec(c, i, st) == Continue(after)
    ensures i.dst.value in after.env
    ensures forall v | v in st.env && v != i.dst.value :: v in after.env && after.env[v] == st.env[v]
    ensures forall v | v in after.env && v != i.dst.value :: v in st.env
  {
  }

  lemma NoDstNoChange(c: Context, i: Instr, st: State, after: State)
    requires i.dst.None? && Exec(c, i, st) == Continue(after)
    ensures after.env == st.env
  {
  }

  lemma ComputedHolds(t: Tree, c: Context, code: Code, b: nat, i: nat, st: State, after: State)
    requires Ssa(t, code) && b < |code| && t.rank[b] >= 0 && Leading(code[b]) <= i < |code[b]|
    requires Exec(c, code[b][i], st) == Continue(after)
    requires IsPure(code[b][i])
    ensures Holds(c, code[b][i], after.env)
  {
    var ins := code[b][i];
    assert BlockOk(t, code, b);
    assert InstrOk(t, code, b, i);
    assert UseInScope(t, code, b, i);
    DefNotInScope(t, code, b, i, ins.dst.value);
    PureStep(c, ins, st, after);
    assert Values(after.env, ins.args) == Values(st.env, ins.args);
  }

  lemma PureStep(c: Context, i: Instr, st: State, after: State)
    requires IsPure(i) && Exec(c, i, st) == Continue(after)
    ensures Assigned(st.env, i.args)
    ensures Evaluate(c, i, Values(st.env, i.args)).Some?
    ensures after == st.(env := st.env[i.dst.value := Evaluate(c, i, Values(st.env, i.args)).value])
  {
  }

  /** With its operands assigned, an instruction runs; only a terminator leaves the block. */
  lemma Proceeds(c: Context, i: Instr, st: State)
    requires Shaped(i) && Assigned(st.env, i.args)
    ensures Exec(c, i, st) != Wrong
    ensures Exec(c, i, st).Goto? ==> IsTerminator(i.op) && Exec(c, i, st).st == st
    ensures Exec(c, i, st).Goto? ==> Exec(c, i, st).block in Successors([i])
    ensures IsTerminator(i.op) ==> !Exec(c, i, st).Continue?
  {
  }

  /** Whatever runs next is never an unassigned operand. */
  lemma OperandsAssigned(t: Tree, c: Context, code: Code, b: nat, i: nat, st: State)
    requires Ssa(t, code) && b < |code| && t.rank[b] >= 0 && Leading(code[b]) <= i < |code[b]|
    requires AllAssigned(ScopeAt(t, code, b, i), st.env)
    ensures Shaped(code[b][i]) && Assigned(st.env, code[b][i].args)
    ensures IsTerminator(code[b][i].op) <==> i == |code[b]| - 1
    ensures i == |code[b]| - 1 ==> Successors([code[b][i]]) == Successors(code[b])
    ensures i == |code[b]| - 1 ==> ScopeAt(t, code, b, i) == ScopeAt(t, code, b, |code[b]|)
  {
    assert BlockOk(t, code, b);
    assert InstrOk(t, code, b, i);
    assert UseInScope(t, code, b, i);
    ScopeStep(t, code, b, i);
  }

  /** The rest of a block. */
  lemma {:induction false} RestIntact(t: Tree, c: Context, code: Code, b: nat, i: nat, st: State)
    requires Ssa(t, code) && b < |code| && t.rank[b] >= 0 && Leading(code[b]) <= i < |code[b]|
    requires Intact(t, c, code, b, i, st.env)
    ensures var o := ExecFrom(c, code[b][i..], st);
            && o != Wrong && !o.Continue?
            && (o.Goto? ==> o.block in Successors(code[b]) && Intact(t, c, code, b, |code[b]|, o.st.env))
    decreases |code[b]| - i
  {
    OperandsAssigned(t, c, code, b, i, st);
    Proceeds(c, code[b][i], st);
    var o := Exec(c, code[b][i], st);
    assert code[b][i..][1..] == code[b][i + 1..];
    if o.Continue? {
      StepIntact(t, c, code, b, i, st, o.st);
      RestIntact(t, c, code, b, i + 1, o.st);
    }
  }

  // ------------------------------------------------------------- entering a block

  lemma {:induction false} MergeAssigns(phis: seq<Instr>, prev: nat, env: map<nat, int>)
    requires forall k | 0 <= k < |phis| :: phis[k].dst.Some? && Arriving(phis[k], Some(prev), env).Some?
    ensures Merge(phis, Some(prev), env).Some?
    ensures Merge(phis, Some(prev), env).value.Keys == Defs(phis)
  {
    if phis != [] {
      MergeAssigns(phis[1..], prev, env);
      DefsHead(phis);
    }
  }

  /** A phi finds its operand for the edge taken, and the operand is assigned. */
  lemma PhiArrives(t: Tree, c: Context, code: Code, p: nat, b: nat, k: nat, env: map<nat, int>)
    requires Ssa(t, code) && b < |code| && t.rank[b] >= 0 && p in t.preds[b]
    requires p < |code| && Intact(t, c, code, p, |code[p]|, env)
    requires k < Leading(code[b])
    ensures code[b][k].dst.Some? && Arriving(code[b][k], Some(p), env).Some?
  {
    assert BlockOk(t, code, b);
    assert InstrOk(t, code, b, k);
    var phi := code[b][k];
    assert PhiInScope(t, code, b, phi);
    var e := EdgeIndex(phi.from, p);
    assert e < |phi.from|;
    ScopeEnd(t, code, p);
  }

  /** Taking the edge from `p` to `b`: the phis are assigned, all at once. */
  lemma EnterIntact(t: Tree, c: Context, code: Code, p: nat, b: nat, env: map<nat, int>)
    requires Ssa(t, code) && b < |code| && t.rank[b] >= 0 && p in t.preds[b]
    requires p < |code| && Intact(t, c, code, p, |code[p]|, env)
    ensures Leading(code[b]) < |code[b]|
    ensures var m := Merge(code[b][..Leading(code[b])], Some(p), env);
            m.Some? && Intact(t, c, code, b, Leading(code[b]), env + m.value)
  {
    var n := Leading(code[b]);
    assert BlockOk(t, code, b);
    assert InstrOk(t, code, b, |code[b]| - 1);
    forall k | 0 <= k < n
      ensures code[b][..n][k].dst.Some? && Arriving(code[b][..n][k], Some(p), env).Some?
    {
      PhiArrives(t, c, code, p, b, k, env);
    }
    MergeAssigns(code[b][..n], p, env);
    var m := Merge(code[b][..n], Some(p), env);
    ScopeEdge(t, code, p, b);
    ScopeEnd(t, code, p);
    PhisIntact(t, c, code, p, b, env, env + m.value);
  }

  lemma PhisIntact(t: Tree, c: Context, code: Code, p: nat, b: nat, env: map<nat, int>, after: map<nat, int>)
    requires Ssa(t, code) && b < |code| && t.rank[b] >= 0
    requires p < |code| && t.rank[p] >= 0 && Intact(t, c, code, p, |code[p]|, env)
    requires ScopeIn(t, code, b) <= ScopeAt(t, code, p, |code[p]|)
    requires after.Keys == env.Keys + Defs(code[b][..Leading(code[b])])
    requires forall v | v in env && v !in Defs(code[b][..Leading(code[b])]) :: after[v] == env[v]
    ensures Intact(t, c, code, b, Leading(code[b]), after)
  {
    var n := Leading(code[b]);
    forall v | v in ScopeIn(t, code, b)
      ensures v in env && v !in Defs(code[b][..n]) && after[v] == env[v]
    {
      InheritedIsNotPhi(t, code, b, v);
    }
    forall a: nat, j: nat
      | a < |code| && j < |code[a]| && IsPure(code[a][j]) && code[a][j].dst.value in ScopeAt(t, code, b, n)
      ensures Holds(c, code[a][j], after)
    {
      var d := code[a][j].dst.value;
      assert DefinedAt(code, d, a, j);
      if d !in ScopeIn(t, code, b) {
        var k := InDefs(code, b, n, d);
        assert false;
      }
      assert Holds(c, code[a][j], env);
      assert ScopeIn(t, code, b) == ScopeAt(t, code, b, 0);
      OperandsInScope(t, code, b, 0, a, j);
      HoldsElsewhere(c, code[a][j], env, after);
    }
  }

  lemma InheritedIsNotPhi(t: Tree, code: Code, b: nat, v: nat)
    requires UniqueDefs(code) && b < |code| && v in ScopeIn(t, code, b)
    ensures v !in Defs(code[b])
  {
    if v in Defs(code[b]) {
      assert code[b][..|code[b]|] == code[b];
      var j := InDefs(code, b, |code[b]|, v);
      DefNotInScope(t, code, b, j, v);
    }
  }

  // ------------------------------------------------------------------ whole runs

  /** Where a run can be: at the start, or on an edge with everything in scope intact. */
  ghost predicate Arrived(t: Tree, c: Context, code: Code, cfg: Config) {
    match cfg
    case Halted(o) => o != Wrong && !o.Continue? && !o.Goto?
    case At(b, prev, st) =>
      && b < |code| && b < |t.rank| && b < |t.preds| && t.rank[b] >= 0
      && (prev.None? ==> b == 0)
      && (prev.Some? ==> prev.value in t.preds[b] && prev.value < |code| &&
                         Intact(t, c, code, prev.value, |code[prev.value]|, st.env))
  }

  lemma NextArrives(t: Tree, c: Context, code: Code, cfg: Config)
    requires Ssa(t, code) && Arrived(t, c, code, cfg)
    ensures Arrived(t, c, code, Next(c, code, cfg))
  {
    if cfg.At? {
      var b := cfg.block;
      var n := Leading(code[b]);
      BlockRuns(t, c, code, cfg);
      var o := ExecBlock(c, code, b, cfg.prev, cfg.st);
      if o.Goto? {
        assert Leads(code, b, o.block);
        assert EdgeInTree(t, code, b, o.block);
      }
    }
  }

  /** One block of a run: its outcome is that of its instructions after the phis. */
  lemma BlockRuns(t: Tree, c: Context, code: Code, cfg: Config)
    requires Ssa(t, code) && Arrived(t, c, code, cfg) && cfg.At?
    ensures var o := ExecBlock(c, code, cfg.block, cfg.prev, cfg.st);
            && o != Wrong && !o.Continue?
            && (o.Goto? ==> o.block in Successors(code[cfg.block]) &&
                            Intact(t, c, code, cfg.block, |code[cfg.block]|, o.st.env))
  {
    var b := cfg.block;
    var n := Leading(code[b]);
    assert BlockOk(t, code, b);
    assert InstrOk(t, code, b, |code[b]| - 1);
    if cfg.prev.Some? {
      EnterIntact(t, c, code, cfg.prev.value, b, cfg.st.env);
      var m := Merge(code[b][..n], cfg.prev, cfg.st.env);
      RestIntact(t, c, code, b, n, cfg.st.(env := cfg.st.env + m.value));
    } else {
      EntryIsFirst(t, code);
      assert code[b][..n] == [];
      assert Defs(code[b][..0]) == {};
      assert cfg.st.(env := cfg.st.env + map[]) == cfg.st;
      RestIntact(t, c, code, b, 0, cfg.st);
    }
  }

  lemma {:induction false} RunArrives(t: Tree, c: Context, code: Code, world: World, n: nat)
    requires Ssa(t, code)
    ensures Arrived(t, c, code, Run(c, code, world, n))
    decreases n
  {
    EntryIsFirst(t, code);
    if n > 0 {
      RunArrives(t, c, code, world, n - 1);
      NextArrives(t, c, code, Run(c, code, world, n - 1));
    }
  }

  /** A body in single assignment form never goes wrong, on any arguments and any machine:
      no unassigned value is read, every phi has an operand for the edge taken, and
      control leaves every block through its terminator. */
  lemma NeverWrong(t: Tree, c: Context, code: Code, world: World, n: nat)
    requires Ssa(t, code)
    ensures Observe(Run(c, code, world, n)) != WentWrong
  {
    RunArrives(t, c, code, world, n);
  }
}
