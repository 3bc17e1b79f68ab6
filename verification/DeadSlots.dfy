/** Removing frame slots that are only ever written. */
module DeadSlots {
  import opened Ir
  import opened Semantics
  import opened SsaForm
  import opened Soundness
  import opened Rewrite
  import opened Simulation

  /** Remove the slots and every store to one. */
  function Drop(slots: set<nat>): Plan {
    Plan(slots, slots, map[])
  }

  /** The slots are allocated, stored to, and mentioned nowhere else. */
  ghost predicate OnlyWritten(slots: set<nat>, i: Instr) {
    && (forall k | 0 <= k < |i.args| && i.args[k] in slots :: k == 0 && i.op == Store && |i.args| == 2)
    && (i.dst.Some? && i.dst.value in slots ==> i.op == Alloca && i.args == [])
  }

  ghost predicate AllOnlyWritten(slots: set<nat>, code: Code) {
    forall b, i | 0 <= b < |code| && 0 <= i < |code[b]| :: OnlyWritten(slots, code[b][i])
  }

  function Without(slots: set<nat>, st: State): State {
    State(st.env - slots, st.cells - slots, st.world)
  }

  ghost predicate LessOutcome(slots: set<nat>, o: Outcome, o': Outcome) {
    match o
    case Continue(a) => o' == Continue(Without(slots, a))
    case Goto(b, a) => o' == Goto(b, Without(slots, a))
    case Wrong => true
    case _ => o' == o
  }

  lemma RenameNothing(slots: set<nat>, i: Instr)
    ensures Rename(Drop(slots), i) == i
  {
    assert NamesFor(Drop(slots), i.args) == i.args;
  }

  lemma KeptLess(c: Context, c': Context, slots: set<nat>, i: Instr, st: State)
    requires c' == c.(private := c.private - slots)
    requires OnlyWritten(slots, i) && !Dropped(Drop(slots), i)
    ensures LessOutcome(slots, Exec(c, i, st), Exec(c', i, Without(slots, st)))
  {
    var st' := Without(slots, st);
    assert forall k | 0 <= k < |i.args| :: i.args[k] !in slots;
    if Assigned(st.env, i.args) {
      assert Assigned(st'.env, i.args);
      assert Values(st'.env, i.args) == Values(st.env, i.args);
      assert Direct(c'.private, i) <==> Direct(c.private, i);
      DstLess(slots, i, st);
      if i.op in {Load, Store, MemCpy, Call, Param, Alloca} {
        KeptMemoryLess(c, c', slots, i, st);
      } else {
        KeptPlainLess(c, c', slots, i, st);
      }
    }
  }

  lemma DstLess(slots: set<nat>, i: Instr, st: State)
    requires i.dst.Some? ==> i.dst.value !in slots
    ensures forall x, w ::
              Without(slots, SetDst(i, x, st.(world := w))) == SetDst(i, x, Without(slots, st).(world := w))
  {
    forall x, w
      ensures Without(slots, SetDst(i, x, st.(world := w))) == SetDst(i, x, Without(slots, st).(world := w))
    {
      if i.dst.Some? {
        assert st.env[i.dst.value := x] - slots == (st.env - slots)[i.dst.value := x];
      }
    }
  }

  lemma KeptMemoryLess(c: Context, c': Context, slots: set<nat>, i: Instr, st: State)
    requires c' == c.(private := c.private - slots) && !Dropped(Drop(slots), i)
    requires forall k | 0 <= k < |i.args| :: i.args[k] !in slots
    requires var st' := Without(slots, st);
             Assigned(st.env, i.args) && Assigned(st'.env, i.args) && Values(st'.env, i.args) == Values(st.env, i.args)
    requires Direct(c'.private, i) <==> Direct(c.private, i)
    requires forall x, w ::
               Without(slots, SetDst(i, x, st.(world := w))) == SetDst(i, x, Without(slots, st).(world := w))
    requires i.op in {Load, Store, MemCpy, Call, Param, Alloca}
    ensures LessOutcome(slots, Exec(c, i, st), Exec(c', i, Without(slots, st)))
  {
    assert st.(world := st.world) == st;
    var st' := Without(slots, st);
    assert st'.(world := st'.world) == st';
    if i.op == Store && Direct(c.private, i) {
      assert st.cells[i.args[0] := st.env[i.args[1]]] - slots == (st.cells - slots)[i.args[0] := st.env[i.args[1]]];
    }
  }

  lemma KeptPlainLess(c: Context, c': Context, slots: set<nat>, i: Instr, st: State)
    requires c' == c.(private := c.private - slots) && !Dropped(Drop(slots), i)
    requires var st' := Without(slots, st);
             Assigned(st.env, i.args) && Assigned(st'.env, i.args) && Values(st'.env, i.args) == Values(st.env, i.args)
    requires forall x, w ::
               Without(slots, SetDst(i, x, st.(world := w))) == SetDst(i, x, Without(slots, st).(world := w))
    requires i.op !in {Load, Store, MemCpy, Call, Param, Alloca}
    ensures LessOutcome(slots, Exec(c, i, st), Exec(c', i, Without(slots, st)))
  {
    assert st.(world := st.world) == st;
    var st' := Without(slots, st);
    assert st'.(world := st'.world) == st';
  }

  lemma DroppedLess(c: Context, slots: set<nat>, i: Instr, st: State)
    requires slots <= c.private && OnlyWritten(slots, i) && Dropped(Drop(slots), i) && Shaped(i)
    ensures var o := Exec(c, i, st);
            o == Wrong || (o.Continue? && Without(slots, o.st) == Without(slots, st))
  {
  }

  lemma {:induction false} RestLess(c: Context, c': Context, slots: set<nat>, block: Block, st: State)
    requires c' == c.(private := c.private - slots) && slots <= c.private
    requires forall k | 0 <= k < |block| :: OnlyWritten(slots, block[k]) && Shaped(block[k])
    ensures LessOutcome(slots, ExecFrom(c, block, st),
        ExecFrom(c', RewriteBlock(Drop(slots), block), Without(slots, st)))
    decreases |block|
  {
    if block != [] {
      var o := Exec(c, block[0], st);
      assert block[0..] == block;
      if Dropped(Drop(slots), block[0]) {
        DroppedLess(c, slots, block[0], st);
        if o.Continue? {
          RestLess(c, c', slots, block[1..], o.st);
        }
        DroppedThenRest(c, Drop(slots), block, 0, st, st);
      } else {
        RenameNothing(slots, block[0]);
        KeptLess(c, c', slots, block[0], st);
        if o.Continue? {
          RestLess(c, c', slots, block[1..], o.st);
        }
        KeptThenRest(c, Drop(slots), block, 0, st, st);
        KeptThenRest(c', Drop(slots), block, 0, st, Without(slots, st));
      }
    }
  }

  /** Phis mention no slot. */
  lemma {:induction false} MergeLess(slots: set<nat>, phis: Block, prev: Option<nat>, env: map<nat, int>)
    requires forall k | 0 <= k < |phis| :: OnlyWritten(slots, phis[k]) && phis[k].op == Phi
    ensures RewriteBlock(Drop(slots), phis) == phis
    ensures Merge(phis, prev, env - slots) == Merge(phis, prev, env)
    ensures Merge(phis, prev, env).Some? ==> Merge(phis, prev, env).value.Keys !! slots
    decreases |phis|
  {
    if phis != [] {
      MergeLess(slots, phis[1..], prev, env);
      RenameNothing(slots, phis[0]);
      assert OnlyWritten(slots, phis[0]);
    }
  }

  ghost predicate RunsLess(slots: set<nat>, cfg: Config, cfg': Config) {
    match cfg
    case Halted(o) => o == Wrong || cfg' == cfg
    case At(b, prev, st) => cfg' == At(b, prev, Without(slots, st))
  }

  lemma BlockLess(t: Tree, c: Context, c': Context, slots: set<nat>, code: Code, b: nat, prev: Option<nat>, st: State)
    requires Ssa(t, code) && AllOnlyWritten(slots, code)
    requires c' == c.(private := c.private - slots) && slots <= c.private
    requires b < |code| && t.rank[b] >= 0
    ensures LessOutcome(slots, ExecBlock(c, code, b, prev, st),
                        ExecBlock(c', RewriteCode(Drop(slots), code), b, prev, Without(slots, st)))
  {
    PhisLess(t, slots, code, b, prev, st.env);
    AllShaped(t, code, b);
    var m := Merge(code[b][..Leading(code[b])], prev, st.env);
    if m.Some? {
      AfterPhisLess(c, c', slots, code, RewriteCode(Drop(slots), code), b, prev, st, m.value);
    }
  }

  lemma PhisLess(t: Tree, slots: set<nat>, code: Code, b: nat, prev: Option<nat>, env: map<nat, int>)
    requires Ssa(t, code) && AllOnlyWritten(slots, code)
    requires b < |code| && t.rank[b] >= 0
    ensures var n, r := Leading(code[b]), RewriteBlock(Drop(slots), code[b]);
            var m := Merge(code[b][..n], prev, env);
            && r[Leading(r)..] == RewriteBlock(Drop(slots), code[b][n..])
            && Merge(r[..Leading(r)], prev, env - slots) == m
            && (m.Some? ==> (env + m.value) - slots == (env - slots) + m.value)
  {
    var n := Leading(code[b]);
    PhisFirst(t, code, b);
    RewriteLeading(Drop(slots), code[b]);
    MergeAround(slots, code[b][..n], prev, env);
  }

  lemma MergeAround(slots: set<nat>, phis: Block, prev: Option<nat>, env: map<nat, int>)
    requires forall k | 0 <= k < |phis| :: OnlyWritten(slots, phis[k]) && phis[k].op == Phi
    ensures RewriteBlock(Drop(slots), phis) == phis
    ensures var m := Merge(phis, prev, env);
            && Merge(phis, prev, env - slots) == m
            && (m.Some? ==> (env + m.value) - slots == (env - slots) + m.value)
  {
    MergeLess(slots, phis, prev, env);
    if Merge(phis, prev, env).Some? {
      AddAround(slots, env, Merge(phis, prev, env).value);
    }
  }

  lemma AddAround(slots: set<nat>, env: map<nat, int>, m: map<nat, int>)
    requires m.Keys !! slots
    ensures (env + m) - slots == (env - slots) + m
  {
  }

  lemma AfterPhisLess(c: Context, c': Context, slots: set<nat>, code: Code, r: Code, b: nat, prev: Option<nat>,
      st: State, m: map<nat, int>)
    requires c' == c.(private := c.private - slots) && slots <= c.private && b < |code| == |r|
    requires forall k | 0 <= k < |code[b]| :: OnlyWritten(slots, code[b][k]) && Shaped(code[b][k])
    requires r[b][Leading(r[b])..] == RewriteBlock(Drop(slots), code[b][Leading(code[b])..])
    requires Merge(code[b][..Leading(code[b])], prev, st.env) == Some(m)
    requires Merge(r[b][..Leading(r[b])], prev, st.env - slots) == Some(m)
    requires (st.env + m) - slots == (st.env - slots) + m
    ensures LessOutcome(slots, ExecBlock(c, code, b, prev, st), ExecBlock(c', r, b, prev, Without(slots, st)))
  {
    var after := st.(env := st.env + m);
    BlockIs(c, code, b, prev, st, m);
    BlockIs(c', r, b, prev, Without(slots, st), m);
    TailLess(c, c', slots, code[b], Leading(code[b]), after);
  }

  lemma TailLess(c: Context, c': Context, slots: set<nat>, block: Block, n: nat, st: State)
    requires c' == c.(private := c.private - slots) && slots <= c.private && n <= |block|
    requires forall k | 0 <= k < |block| :: OnlyWritten(slots, block[k]) && Shaped(block[k])
    ensures LessOutcome(slots, ExecFrom(c, block[n..], st),
                        ExecFrom(c', RewriteBlock(Drop(slots), block[n..]), Without(slots, st)))
  {
    RestLess(c, c', slots, block[n..], st);
  }

  lemma AllShaped(t: Tree, code: Code, b: nat)
    requires Ssa(t, code) && b < |code| && t.rank[b] >= 0
    ensures forall k | 0 <= k < |code[b]| :: Shaped(code[b][k])
  {
    assert BlockOk(t, code, b);
    forall k | 0 <= k < |code[b]|
      ensures Shaped(code[b][k])
    {
      assert InstrOk(t, code, b, k);
    }
  }

  /** Slots that are never read can go. */
  lemma DroppingPreservesRuns(t: Tree, c: Context, c': Context, slots: set<nat>, code: Code, world: World, n: nat)
    requires Ssa(t, code) && AllOnlyWritten(slots, code)
    requires c' == c.(private := c.private - slots) && slots <= c.private
    ensures Ssa(t, RewriteCode(Drop(slots), code))
    ensures Observe(Run(c', RewriteCode(Drop(slots), code), world, n)) == Observe(Run(c, code, world, n))
  {
    var r := RewriteCode(Drop(slots), code);
    DropSupplied(t, slots, code);
    RewriteSsa(t, Drop(slots), code);
    var rel := (x: Config, y: Config) => Arrived(t, c, code, x) && RunsLess(slots, x, y);
    forall x, y | rel(x, y)
      ensures rel(Next(c, code, x), Next(c', r, y))
    {
      NextArrives(t, c, code, x);
      if x.At? {
        BlockLess(t, c, c', slots, code, x.block, x.prev, x.st);
        BlockRuns(t, c, code, x);
      }
    }
    RunArrives(t, c, code, world, 0);
    Lockstep(c, code, c', r, world, n, rel);
  }

  lemma DropSupplied(t: Tree, slots: set<nat>, code: Code)
    requires Ssa(t, code) && AllOnlyWritten(slots, code)
    ensures Supplied(t, Drop(slots), code)
  {
    var p := Drop(slots);
    forall b: nat, i: nat | b < |code| && t.rank[b] >= 0 && i < |code[b]| && !Dropped(p, code[b][i])
      ensures SuppliedAt(t, p, code, b, i)
    {
      assert OnlyWritten(slots, code[b][i]);
      assert BlockOk(t, code, b);
      assert InstrOk(t, code, b, i);
      if code[b][i].op == Phi {
        assert PhiInScope(t, code, b, code[b][i]);
      } else {
        assert UseInScope(t, code, b, i);
      }
    }
  }
}
