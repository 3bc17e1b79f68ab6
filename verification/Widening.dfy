/** Adding instructions whose results nothing reads yet: constants at the front of the
    entry, phis at the front of other blocks. The body stays in single assignment form
    and shows the same behaviour. */
module Widening {
  import opened Ir
  import opened Dominators
  import opened Semantics
  import opened SsaForm
  import opened Soundness
  import opened Rewrite

  function Inserted(front: seq<Block>, code: Code): (r: Code)
    requires |front| == |code|
    ensures |r| == |code|
    ensures forall b | 0 <= b < |code| :: r[b] == front[b] + code[b]
  {
    seq(|code|, b requires 0 <= b < |code| => front[b] + code[b])
  }

  /** A constant that needs nothing. */
  ghost predicate PlainConst(i: Instr) {
    i.op == Const && i.dst.Some? && i.args == []
  }

  ghost predicate Insertable(t: Tree, front: seq<Block>, code: Code) {
    && Ssa(t, code) && |front| == |code|
    && UniqueDefs(Inserted(front, code))
    && (forall k | 0 <= k < |front[0]| :: PlainConst(front[0][k]))
    && (forall b: nat | 0 < b < |code| :: FrontOk(t, front, code, b))
  }

  ghost predicate FrontOk(t: Tree, front: seq<Block>, code: Code, b: nat)
    requires |front| == |code| && b < |code| && b < |t.rank|
  {
    && (t.rank[b] < 0 ==> front[b] == [])
    && forall k | 0 <= k < |front[b]| ::
         front[b][k].op == Phi && front[b][k].dst.Some? && PhiInScope(t, Inserted(front, code), b, front[b][k])
  }

  // --------------------------------------------------------------- single assignment

  lemma DefsAppend(x: Block, y: Block)
    ensures Defs(x + y) == Defs(x) + Defs(y)
  {
    forall v
      ensures v in Defs(x + y) <==> v in Defs(x) || v in Defs(y)
    {
      if v in Defs(x) {
        var k :| 0 <= k < |x| && x[k].dst.Some? && x[k].dst.value == v;
        assert (x + y)[k] == x[k];
      }
      if v in Defs(y) {
        var k :| 0 <= k < |y| && y[k].dst.Some? && y[k].dst.value == v;
        assert (x + y)[|x| + k] == y[k];
      }
    }
  }

  /** Scopes only grow. */
  lemma {:induction false} ScopeInGrows(t: Tree, front: seq<Block>, code: Code, b: nat)
    requires |front| == |code|
    ensures ScopeIn(t, code, b) <= ScopeIn(t, Inserted(front, code), b)
    decreases if b < |t.rank| && t.rank[b] >= 0 then t.rank[b] else 0
  {
    if HasParent(t.rank, t.idom, b) && t.idom[b] < |code| {
      ScopeInGrows(t, front, code, t.idom[b]);
      DefsAppend(front[t.idom[b]], code[t.idom[b]]);
    }
  }

  lemma ScopeGrows(t: Tree, front: seq<Block>, code: Code, b: nat, i: nat)
    requires |front| == |code| && b < |code| && i <= |code[b]|
    ensures ScopeAt(t, code, b, i) <= ScopeAt(t, Inserted(front, code), b, |front[b]| + i)
    ensures ScopeOut(t, code, b) <= ScopeOut(t, Inserted(front, code), b)
  {
    ScopeInGrows(t, front, code, b);
    DefsAppend(front[b], code[b]);
    DefsAppend(front[b], code[b][..i]);
    assert (front[b] + code[b])[..|front[b]| + i] == front[b] + code[b][..i];
  }

  lemma InsertedFlow(t: Tree, front: seq<Block>, code: Code, b: nat)
    requires Insertable(t, front, code) && b < |code|
    ensures HasTerminator(front[b] + code[b]) <==> HasTerminator(code[b])
    ensures Successors(front[b] + code[b]) == Successors(code[b])
  {
    EntryIsFirst(t, code);
    if t.rank[b] >= 0 {
      assert BlockOk(t, code, b);
    } else {
      assert b != 0;
      assert FrontOk(t, front, code, b);
    }
  }

  lemma InsertedTree(t: Tree, front: seq<Block>, code: Code)
    requires Insertable(t, front, code)
    ensures TreeOf(t, Inserted(front, code))
  {
    var r := Inserted(front, code);
    forall q: nat, b: nat
      ensures Leads(r, q, b) <==> Leads(code, q, b)
    {
      if q < |code| {
        InsertedFlow(t, front, code, q);
      }
    }
    forall b: nat, q: nat | b < |code| && q in t.preds[b]
      ensures EdgeInTree(t, r, q, b)
    {
      assert EdgeInTree(t, code, q, b);
    }
  }

  /** The phis a block starts with now: the new ones, then the old. */
  lemma InsertedLeading(t: Tree, front: seq<Block>, code: Code, b: nat)
    requires Insertable(t, front, code) && b < |code| && t.rank[b] >= 0
    ensures b == 0 ==> Leading(front[b] + code[b]) == 0 == Leading(code[b])
    ensures b != 0 ==> Leading(front[b] + code[b]) == |front[b]| + Leading(code[b])
  {
    var r := front[b] + code[b];
    if b == 0 {
      assert |front[0]| > 0 ==> r[0] == front[0][0];
      assert |front[0]| == 0 ==> r == code[0];
    } else {
      assert FrontOk(t, front, code, b);
      LeadingIs(r, |front[b]| + Leading(code[b]));
    }
  }

  lemma NewInstrOk(t: Tree, front: seq<Block>, code: Code, b: nat, k: nat)
    requires Insertable(t, front, code) && b < |code| && t.rank[b] >= 0 && k < |front[b]|
    ensures InstrOk(t, Inserted(front, code), b, k)
  {
    InsertedLeading(t, front, code, b);
    assert BlockOk(t, code, b);
    assert Inserted(front, code)[b][k] == front[b][k];
    assert b != 0 ==> FrontOk(t, front, code, b);
  }

  lemma OldPhiOk(t: Tree, front: seq<Block>, code: Code, b: nat, phi: Instr)
    requires |front| == |code| && PhiInScope(t, code, b, phi)
    ensures PhiInScope(t, Inserted(front, code), b, phi)
  {
    forall j | 0 <= j < |phi.from|
      ensures phi.args[j] in ScopeOut(t, Inserted(front, code), phi.from[j])
    {
      ScopeGrows(t, front, code, phi.from[j], 0);
    }
  }

  lemma OldInstrOk(t: Tree, front: seq<Block>, code: Code, b: nat, i: nat)
    requires Insertable(t, front, code) && b < |code| && t.rank[b] >= 0 && i < |code[b]|
    ensures InstrOk(t, Inserted(front, code), b, |front[b]| + i)
  {
    InsertedLeading(t, front, code, b);
    assert BlockOk(t, code, b);
    assert InstrOk(t, code, b, i);
    assert Inserted(front, code)[b][|front[b]| + i] == code[b][i];
    if code[b][i].op == Phi {
      OldPhiOk(t, front, code, b, code[b][i]);
      assert b != 0;
    } else {
      assert UseInScope(t, code, b, i);
      ScopeGrows(t, front, code, b, i);
    }
  }

  lemma InsertedBlockOk(t: Tree, front: seq<Block>, code: Code, b: nat)
    requires Insertable(t, front, code) && b < |code| && t.rank[b] >= 0
    ensures BlockOk(t, Inserted(front, code), b)
  {
    InsertedFlow(t, front, code, b);
    assert BlockOk(t, code, b);
    forall k: nat | k < |Inserted(front, code)[b]|
      ensures InstrOk(t, Inserted(front, code), b, k)
    {
      if k < |front[b]| {
        NewInstrOk(t, front, code, b, k);
      } else {
        OldInstrOk(t, front, code, b, k - |front[b]|);
      }
    }
  }

  lemma InsertedSsa(t: Tree, front: seq<Block>, code: Code)
    requires Insertable(t, front, code)
    ensures Ssa(t, Inserted(front, code))
  {
    var r := Inserted(front, code);
    InsertedTree(t, front, code);
    EntryIsFirst(t, code);
    InsertedLeading(t, front, code, 0);
    forall b: nat | b < |code| && t.rank[b] >= 0
      ensures BlockOk(t, r, b)
    {
      InsertedBlockOk(t, front, code, b);
    }
    forall b: nat | b < |code| && t.rank[b] < 0
      ensures r[b] == []
    {
      assert b != 0;
      assert FrontOk(t, front, code, b);
    }
  }

  // ------------------------------------------------------------------ the same runs

  /** The values of the new instructions. */
  ghost function NewValues(front: seq<Block>): set<nat> {
    set b: nat, v | b < |front| && v in Defs(front[b]) :: v
  }

  /** The new environment has what the old one has, and perhaps new values. */
  ghost predicate Wider(added: set<nat>, env: map<nat, int>, env': map<nat, int>) {
    forall v | v in env :: v !in added && v in env' && env'[v] == env[v]
  }

  ghost predicate WiderState(added: set<nat>, st: State, st': State) {
    Wider(added, st.env, st'.env) && st.cells == st'.cells && st.world == st'.world
  }

  ghost predicate WiderOutcome(added: set<nat>, o: Outcome, o': Outcome) {
    match o
    case Continue(a) => o'.Continue? && WiderState(added, a, o'.st)
    case Goto(b, a) => o'.Goto? && o'.block == b && WiderState(added, a, o'.st)
    case Wrong => true
    case _ => o' == o
  }

  /** An old instruction: what it mentions has the type it had, and it assigns nothing new. */
  ghost predicate Known(types: seq<Ty>, types': seq<Ty>, added: set<nat>, i: Instr) {
    && (i.dst.Some? ==> i.dst.value !in added && TyOf(types', i.dst.value) == TyOf(types, i.dst.value))
    && forall k | 0 <= k < |i.args| :: TyOf(types', i.args[k]) == TyOf(types, i.args[k])
  }

  lemma KnownExpr(types: seq<Ty>, types': seq<Ty>, added: set<nat>, i: Instr)
    requires Known(types, types', added, i)
    ensures ExprOf(types', i) == ExprOf(types, i)
  {
    assert ExprOf(types', i).operands == ExprOf(types, i).operands;
  }

  lemma StepWider(c: Context, c': Context, added: set<nat>, i: Instr, st: State, st': State)
    requires c' == c.(types := c'.types) && ExprOf(c'.types, i) == ExprOf(c.types, i)
    requires i.dst.Some? ==> i.dst.value !in added
    requires WiderState(added, st, st')
    ensures WiderOutcome(added, Exec(c, i, st), Exec(c', i, st'))
  {
    if Assigned(st.env, i.args) {
      assert Values(st'.env, i.args) == Values(st.env, i.args);
      if i.op in {Load, Store, MemCpy, Call, Param, Alloca} {
        MemoryWider(c, c', added, i, st, st');
      } else {
        PlainWider(c, c', added, i, st, st');
      }
    }
  }

  lemma MemoryWider(c: Context, c': Context, added: set<nat>, i: Instr, st: State, st': State)
    requires c' == c.(types := c'.types) && ExprOf(c'.types, i) == ExprOf(c.types, i)
    requires i.dst.Some? ==> i.dst.value !in added
    requires WiderState(added, st, st') && Assigned(st.env, i.args) && Assigned(st'.env, i.args)
    requires Values(st'.env, i.args) == Values(st.env, i.args)
    requires i.op in {Load, Store, MemCpy, Call, Param, Alloca}
    ensures WiderOutcome(added, Exec(c, i, st), Exec(c', i, st'))
  {
  }

  lemma PlainWider(c: Context, c': Context, added: set<nat>, i: Instr, st: State, st': State)
    requires c' == c.(types := c'.types) && ExprOf(c'.types, i) == ExprOf(c.types, i)
    requires i.dst.Some? ==> i.dst.value !in added
    requires WiderState(added, st, st') && Assigned(st.env, i.args) && Assigned(st'.env, i.args)
    requires Values(st'.env, i.args) == Values(st.env, i.args)
    requires i.op !in {Load, Store, MemCpy, Call, Param, Alloca}
    ensures WiderOutcome(added, Exec(c, i, st), Exec(c', i, st'))
  {
  }

  lemma {:induction false} RestWider(c: Context, c': Context, added: set<nat>, block: Block, st: State, st': State)
    requires c' == c.(types := c'.types)
    requires forall k | 0 <= k < |block| :: Known(c.types, c'.types, added, block[k])
    requires WiderState(added, st, st')
    ensures WiderOutcome(added, ExecFrom(c, block, st), ExecFrom(c', block, st'))
    decreases |block|
  {
    if block != [] {
      KnownExpr(c.types, c'.types, added, block[0]);
      StepWider(c, c', added, block[0], st, st');
      var o := Exec(c, block[0], st);
      if o.Continue? {
        RestWider(c, c', added, block[1..], o.st, Exec(c', block[0], st').st);
      }
    }
  }

  /** Old phis receive what they did; new ones only add. */
  lemma {:induction false} MergeWider(added: set<nat>, x: Block, y: Block, prev: Option<nat>, env: map<nat, int>,
      env': map<nat, int>)
    requires Wider(added, env, env') && Defs(x) <= added && Defs(y) !! added
    requires Merge(y, prev, env).Some? && Merge(x + y, prev, env').Some?
    ensures Wider(added, env + Merge(y, prev, env).value, env' + Merge(x + y, prev, env').value)
    decreases |x| + |y|
  {
    if x != [] {
      assert (x + y)[1..] == x[1..] + y;
      DefsHead(x);
      MergeWider(added, x[1..], y, prev, env, env');
    } else if y != [] {
      assert x + y == y;
      assert [] + y[1..] == y[1..];
      DefsHead(y);
      MergeWider(added, [], y[1..], prev, env, env');
    }
  }

  /** The constants at the front of the entry only add to the environment. */
  lemma {:induction false} ConstsRun(c: Context, added: set<nat>, front: Block, block: Block, st: State, st': State)
    returns (after: State)
    requires forall k | 0 <= k < |front| :: PlainConst(front[k])
    requires WiderState(added, st, st') && Defs(front) <= added
    ensures ExecFrom(c, front + block, st') == ExecFrom(c, block, after)
    ensures WiderState(added, st, after)
    decreases |front|
  {
    if front == [] {
      assert front + block == block;
      after := st';
    } else {
      ConstRuns(c, front[0], st');
      assert (front + block)[1..] == front[1..] + block;
      DefsHead(front);
      after := ConstsRun(c, added, front[1..], block, st, st'.(env := st'.env[front[0].dst.value := front[0].imm]));
    }
  }

  lemma ConstRuns(c: Context, i: Instr, st: State)
    requires PlainConst(i)
    ensures Exec(c, i, st) == Continue(st.(env := st.env[i.dst.value := i.imm]))
  {
  }

  ghost predicate AllKnown(types: seq<Ty>, types': seq<Ty>, added: set<nat>, code: Code) {
    forall b, k | 0 <= b < |code| && 0 <= k < |code[b]| :: Known(types, types', added, code[b][k])
  }

  /** The two runs after the same number of blocks. */
  ghost predicate RunsWider(added: set<nat>, cfg: Config, cfg': Config) {
    match cfg
    case Halted(o) => cfg' == cfg
    case At(b, prev, st) => cfg'.At? && cfg'.block == b && cfg'.prev == prev && WiderState(added, st, cfg'.st)
  }

  /** The setting: a body, the same body with new instructions, and the types of both. */
  ghost predicate Setting(t: Tree, c: Context, c': Context, front: seq<Block>, code: Code) {
    && Insertable(t, front, code) && Ssa(t, Inserted(front, code))
    && c' == c.(types := c'.types) && AllKnown(c.types, c'.types, NewValues(front), code)
  }

  lemma OldDefs(types: seq<Ty>, types': seq<Ty>, added: set<nat>, code: Code, b: nat, n: nat)
    requires AllKnown(types, types', added, code) && b < |code| && n <= |code[b]|
    ensures Defs(code[b][..n]) !! added
  {
    forall v | v in Defs(code[b][..n])
      ensures v !in added
    {
      var k := InDefs(code, b, n, v);
      assert Known(types, types', added, code[b][k]);
    }
  }

  lemma BlockWider(t: Tree, c: Context, c': Context, front: seq<Block>, code: Code, cfg: Config, cfg': Config)
    requires Setting(t, c, c', front, code)
    requires cfg.At? && RunsWider(NewValues(front), cfg, cfg')
    requires Arrived(t, c, code, cfg) && Arrived(t, c', Inserted(front, code), cfg')
    ensures WiderOutcome(NewValues(front), ExecBlock(c, code, cfg.block, cfg.prev, cfg.st),
                         ExecBlock(c', Inserted(front, code), cfg.block, cfg.prev, cfg'.st))
  {
    if cfg.block == 0 {
      EntryWider(t, c, c', front, code, cfg.prev, cfg.st, cfg'.st);
    } else {
      OtherWider(t, c, c', front, code, cfg, cfg');
    }
  }

  lemma EntryWider(t: Tree, c: Context, c': Context, front: seq<Block>, code: Code, prev: Option<nat>, st: State,
      st': State)
    requires Setting(t, c, c', front, code)
    requires WiderState(NewValues(front), st, st')
    ensures WiderOutcome(NewValues(front), ExecBlock(c, code, 0, prev, st),
        ExecBlock(c', Inserted(front, code), 0, prev, st'))
  {
    InsertedLeading(t, front, code, 0);
    ConstsFirst(c, c', NewValues(front), front[0], code[0], st, st');
    NoPhisYet(c, code, prev, st);
    NoPhisYet(c', Inserted(front, code), prev, st');
  }

  lemma ConstsFirst(c: Context, c': Context, added: set<nat>, front: Block, block: Block, st: State, st': State)
    requires c' == c.(types := c'.types) && Defs(front) <= added && WiderState(added, st, st')
    requires forall k | 0 <= k < |front| :: PlainConst(front[k])
    requires forall k | 0 <= k < |block| :: Known(c.types, c'.types, added, block[k])
    ensures WiderOutcome(added, ExecFrom(c, block, st), ExecFrom(c', front + block, st'))
  {
    var after := ConstsRun(c', added, front, block, st, st');
    RestWider(c, c', added, block, st, after);
  }

  lemma NoPhisYet(c: Context, code: Code, prev: Option<nat>, st: State)
    requires |code| > 0 && Leading(code[0]) == 0
    ensures ExecBlock(c, code, 0, prev, st) == ExecFrom(c, code[0], st)
  {
    assert code[0][..0] == [] && code[0][0..] == code[0];
    assert st.(env := st.env + map[]) == st;
    BlockIs(c, code, 0, prev, st, map[]);
  }

  lemma OtherWider(t: Tree, c: Context, c': Context, front: seq<Block>, code: Code, cfg: Config, cfg': Config)
    requires Setting(t, c, c', front, code)
    requires cfg.At? && cfg.block != 0 && RunsWider(NewValues(front), cfg, cfg')
    requires Arrived(t, c, code, cfg) && Arrived(t, c', Inserted(front, code), cfg')
    ensures WiderOutcome(NewValues(front), ExecBlock(c, code, cfg.block, cfg.prev, cfg.st),
                         ExecBlock(c', Inserted(front, code), cfg.block, cfg.prev, cfg'.st))
  {
    var b, r := cfg.block, Inserted(front, code);
    EnterWider(t, c, c', front, code, cfg.prev.value, b, cfg.st.env, cfg'.st.env);
    var m, m' := Merge(code[b][..Leading(code[b])], cfg.prev, cfg.st.env), Merge(r[b][..Leading(r[b])], cfg.prev,
        cfg'.st.env);
    SameTail(front[b], code[b]);
    AfterPhisWider(c, c', NewValues(front), code, r, b, cfg.prev, cfg.st, cfg'.st, m.value, m'.value);
  }

  lemma AfterPhisWider(c: Context, c': Context, added: set<nat>, code: Code, r: Code, b: nat, prev: Option<nat>,
      st: State, st': State, m: map<nat, int>, m': map<nat, int>)
    requires c' == c.(types := c'.types) && b < |code| == |r|
    requires r[b][Leading(r[b])..] == code[b][Leading(code[b])..]
    requires forall k | 0 <= k < |code[b]| :: Known(c.types, c'.types, added, code[b][k])
    requires Merge(code[b][..Leading(code[b])], prev, st.env) == Some(m)
    requires Merge(r[b][..Leading(r[b])], prev, st'.env) == Some(m')
    requires Wider(added, st.env + m, st'.env + m') && WiderState(added, st, st')
    ensures WiderOutcome(added, ExecBlock(c, code, b, prev, st), ExecBlock(c', r, b, prev, st'))
  {
    BlockIs(c, code, b, prev, st, m);
    BlockIs(c', r, b, prev, st', m');
    RestWider(c, c', added, code[b][Leading(code[b])..], st.(env := st.env + m), st'.(env := st'.env + m'));
  }

  lemma SameTail(front: Block, block: Block)
    requires Leading(front + block) == |front| + Leading(block)
    ensures (front + block)[Leading(front + block)..] == block[Leading(block)..]
  {
  }

  lemma EnterWider(t: Tree, c: Context, c': Context, front: seq<Block>, code: Code, q: nat, b: nat,
      env: map<nat, int>, env': map<nat, int>)
    requires Setting(t, c, c', front, code) && 0 < b < |code| && t.rank[b] >= 0 && q in t.preds[b] && q < |code|
    requires Intact(t, c, code, q, |code[q]|, env)
    requires var r := Inserted(front, code); Intact(t, c', r, q, |r[q]|, env')
    requires Wider(NewValues(front), env, env')
    ensures var r, n := Inserted(front, code), Leading(code[b]);
            && Leading(r[b]) == |front[b]| + n
            && var m, m' := Merge(code[b][..n], Some(q), env), Merge(r[b][..Leading(r[b])], Some(q), env');
               m.Some? && m'.Some? && Wider(NewValues(front), env + m.value, env' + m'.value)
  {
    var r, n := Inserted(front, code), Leading(code[b]);
    InsertedLeading(t, front, code, b);
    PhisMerge(t, c, code, q, b, env);
    PhisMerge(t, c', r, q, b, env');
    OldDefs(c.types, c'.types, NewValues(front), code, b, n);
    LeadingWider(NewValues(front), front[b], code[b], r[b], Some(q), env, env');
  }

  lemma PhisMerge(t: Tree, c: Context, code: Code, q: nat, b: nat, env: map<nat, int>)
    requires Ssa(t, code) && b < |code| && t.rank[b] >= 0 && q in t.preds[b]
    requires q < |code| && Intact(t, c, code, q, |code[q]|, env)
    ensures Merge(code[b][..Leading(code[b])], Some(q), env).Some?
  {
    EnterIntact(t, c, code, q, b, env);
  }

  lemma LeadingWider(added: set<nat>, front: Block, block: Block, r: Block, prev: Option<nat>, env: map<nat, int>,
      env': map<nat, int>)
    requires r == front + block && Leading(r) == |front| + Leading(block)
    requires Wider(added, env, env') && Defs(front) <= added && Defs(block[..Leading(block)]) !! added
    requires Merge(block[..Leading(block)], prev, env).Some? && Merge(r[..Leading(r)], prev, env').Some?
    ensures Wider(added, env + Merge(block[..Leading(block)], prev, env).value,
                  env' + Merge(r[..Leading(r)], prev, env').value)
  {
    assert r[..Leading(r)] == front + block[..Leading(block)];
    MergeWider(added, front, block[..Leading(block)], prev, env, env');
  }

  lemma NextWider(t: Tree, c: Context, c': Context, front: seq<Block>, code: Code, cfg: Config, cfg': Config)
    requires Setting(t, c, c', front, code) && RunsWider(NewValues(front), cfg, cfg')
    requires Arrived(t, c, code, cfg) && Arrived(t, c', Inserted(front, code), cfg')
    ensures RunsWider(NewValues(front), Next(c, code, cfg), Next(c', Inserted(front, code), cfg'))
  {
    if cfg.At? {
      BlockWider(t, c, c', front, code, cfg, cfg');
      BlockRuns(t, c, code, cfg);
    }
  }

  /** New constants and phis change nothing that can be seen. */
  lemma InsertionPreservesRuns(t: Tree, c: Context, c': Context, front: seq<Block>, code: Code, world: World, n: nat)
    requires Insertable(t, front, code)
    requires c' == c.(types := c'.types) && AllKnown(c.types, c'.types, NewValues(front), code)
    ensures Ssa(t, Inserted(front, code))
    ensures Observe(Run(c', Inserted(front, code), world, n)) == Observe(Run(c, code, world, n))
  {
    var r := Inserted(front, code);
    InsertedSsa(t, front, code);
    var rel := (x: Config, y: Config) =>
      Arrived(t, c, code, x) && Arrived(t, c', r, y) && RunsWider(NewValues(front), x, y);
    forall x, y | rel(x, y)
      ensures rel(Next(c, code, x), Next(c', r, y))
    {
      NextWider(t, c, c', front, code, x, y);
      NextArrives(t, c, code, x);
      NextArrives(t, c', r, y);
    }
    RunArrives(t, c, code, world, 0);
    RunArrives(t, c', r, world, 0);
    Lockstep(c, code, c', r, world, n, rel);
  }
}
