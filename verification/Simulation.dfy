/** Rewriting preserves every run.

    A rewritten body is run in step with the original, block by block. Wherever a
    value is in scope, the original's environment gives it what the new one gives the
    value it was renamed to. The passes only have to justify each removed instruction. */
module Simulation {
  import opened Ir
  import opened Graph
  import opened Semantics
  import opened SsaForm
  import opened Soundness
  import opened Rewrite

  /** A value whose uses can be redirected: it stays, or it has a replacement. */
  predicate Tracked(p: Plan, v: nat) {
    v !in p.gone || v in p.sub
  }

  /** The two environments agree on a scope, up to renaming. */
  ghost predicate Sync(p: Plan, scope: set<nat>, env: map<nat, int>, env': map<nat, int>) {
    forall v | v in scope && Tracked(p, v) :: v in env && NameFor(p, v) in env' && env[v] == env'[NameFor(p, v)]
  }

  // ------------------------------------------------------------ why one may be removed

  /** Nothing reads it, and running it does nothing but compute. */
  ghost predicate Unread(p: Plan, i: Instr) {
    i.dst.Some? && i.dst.value !in p.sub && !HasSideEffects(i)
  }

  /** The same expression: opcode, immediate, text, symbol, operands and result type. */
  predicate SameExpression(types: seq<Ty>, x: Instr, y: Instr) {
    && x.op == y.op && |x.args| == |y.args| && x.imm == y.imm
    && (x.dst.Some? && y.dst.Some? ==> TyOf(types, x.dst.value) == TyOf(types, y.dst.value))
    && x.text == y.text && x.sym == y.sym
    && forall k | 0 <= k < |x.args| :: x.args[k] == y.args[k]
  }

  /** It computes what an instruction in scope has computed already. */
  ghost predicate Recomputes(t: Tree, c: Context, p: Plan, code: Code, b: nat, i: nat)
    requires b < |code| && i < |code[b]|
  {
    var ins := code[b][i];
    && IsPure(ins) && ins.dst.value in p.sub
    && p.sub[ins.dst.value] in ScopeAt(t, code, b, i)
    && exists a: nat, j: nat :: DefinedAt(code, p.sub[ins.dst.value], a, j) &&
                                IsPure(code[a][j]) && SameExpression(c.types, code[a][j], ins)
  }

  /** It copies a value, or another copy that goes with it. */
  ghost predicate Copies(t: Tree, p: Plan, code: Code, b: nat, i: nat)
    requires b < |code| && i < |code[b]|
  {
    var ins := code[b][i];
    && ins.op == Copy && |ins.args| == 1 && ins.dst.Some? && ins.dst.value in p.sub
    && p.sub[ins.dst.value] == NameFor(p, ins.args[0])
    && p.sub[ins.dst.value] in ScopeAt(t, code, b, i)
  }

  /** A phi that can only ever be one value, which is defined strictly above it. */
  ghost predicate OneValued(t: Tree, code: Code, p: Plan, b: nat, phi: Instr) {
    && phi.op == Phi && phi.dst.Some? && phi.dst.value in p.sub
    && p.sub[phi.dst.value] in ScopeIn(t, code, b)
    && forall k | 0 <= k < |phi.args| :: phi.args[k] == phi.dst.value || phi.args[k] == p.sub[phi.dst.value]
  }

  ghost predicate Justified(t: Tree, c: Context, p: Plan, code: Code, strict: bool, b: nat, i: nat)
    requires b < |code| && i < |code[b]|
  {
    || (!strict && Unread(p, code[b][i]))
    || Recomputes(t, c, p, code, b, i)
    || Copies(t, p, code, b, i)
    || OneValued(t, code, p, b, code[b][i])
  }

  /** A renaming that changes neither the width of an operand nor what a private slot is. */
  ghost predicate Conservative(c: Context, p: Plan) {
    && (forall v | v in p.sub :: v in p.gone && p.sub[v] !in p.gone && Wide(c.types, p.sub[v]) == Wide(c.types, v))
    && (forall v | v in p.sub :: v !in c.private && p.sub[v] !in c.private)
  }

  /** The conditions under which a rewriting is a simplification: with `strict` it
      preserves traps too, without it an unread computation that traps may go. */
  ghost predicate Simplifies(t: Tree, c: Context, p: Plan, code: Code, strict: bool) {
    && Ssa(t, code) && Supplied(t, p, code) && Conservative(c, p) && p.slots == {}
    && forall b: nat, i: nat {:trigger Dropped(p, code[b][i])}
         | b < |code| && i < |code[b]| && Dropped(p, code[b][i]) :: Justified(t, c, p, code, strict, b, i)
  }

  // ---------------------------------------------------------------- one instruction

  /** The operands of an instruction, and of its renamed form, have the same values. */
  ghost predicate OperandsAgree(p: Plan, i: Instr, env: map<nat, int>, env': map<nat, int>) {
    forall k | 0 <= k < |i.args| ::
      i.args[k] in env && NameFor(p, i.args[k]) in env' && env[i.args[k]] == env'[NameFor(p, i.args[k])]
  }

  /** After an instruction: the same result, the same slots, the same world. */
  ghost predicate SameOutcome(i: Instr, st: State, st': State, o: Outcome, o': Outcome) {
    match o
    case Continue(a) =>
      && o'.Continue? && a.cells == o'.st.cells && a.world == o'.st.world
      && (if i.dst.Some? && i.op != Phi then
            && i.dst.value in a.env
            && a.env == st.env[i.dst.value := a.env[i.dst.value]]
            && o'.st.env == st'.env[i.dst.value := a.env[i.dst.value]]
          else a.env == st.env && o'.st.env == st'.env)
    case Goto(b, a) => o' == Goto(b, st') && a == st
    case Return(_, _) => o' == o
    case Trap(_) => o' == o
    case Wrong => false
  }

  lemma RenamedExpr(c: Context, p: Plan, i: Instr)
    requires forall k | 0 <= k < |i.args| :: Wide(c.types, NameFor(p, i.args[k])) == Wide(c.types, i.args[k])
    ensures ExprOf(c.types, Rename(p, i)) == ExprOf(c.types, i)
  {
    assert ExprOf(c.types, Rename(p, i)).operands == ExprOf(c.types, i).operands;
  }

  lemma KeptStep(c: Context, p: Plan, i: Instr, st: State, st': State)
    requires Shaped(i) && Conservative(c, p) && i.op != Phi
    requires OperandsAgree(p, i, st.env, st'.env)
    requires st.cells == st'.cells && st.world == st'.world
    ensures SameOutcome(i, st, st', Exec(c, i, st), Exec(c, Rename(p, i), st'))
  {
    RenamedExpr(c, p, i);
    var vals := Values(st.env, i.args);
    assert Values(st'.env, Rename(p, i).args) == vals;
    assert Direct(c.private, Rename(p, i)) <==> Direct(c.private, i);
    assert Direct(c.private, i) ==> Rename(p, i).args[0] == i.args[0];
    KeptResult(c, p, i, vals, st, st');
  }

  lemma KeptResult(c: Context, p: Plan, i: Instr, vals: seq<int>, st: State, st': State)
    requires Shaped(i) && i.op != Phi
    requires Assigned(st.env, i.args) && vals == Values(st.env, i.args)
    requires Assigned(st'.env, Rename(p, i).args) && vals == Values(st'.env, Rename(p, i).args)
    requires st.cells == st'.cells && st.world == st'.world
    requires ExprOf(c.types, Rename(p, i)) == ExprOf(c.types, i)
    requires Direct(c.private, Rename(p, i)) <==> Direct(c.private, i)
    requires Direct(c.private, i) ==> Rename(p, i).args[0] == i.args[0]
    ensures SameOutcome(i, st, st', Exec(c, i, st), Exec(c, Rename(p, i), st'))
  {
    if i.op in {Load, Store, MemCpy, Call, Param, Alloca} {
      KeptMemory(c, p, i, vals, st, st');
    } else {
      KeptPlain(c, p, i, vals, st, st');
    }
  }

  lemma KeptMemory(c: Context, p: Plan, i: Instr, vals: seq<int>, st: State, st': State)
    requires Shaped(i) && i.op != Phi
    requires Assigned(st.env, i.args) && vals == Values(st.env, i.args)
    requires Assigned(st'.env, Rename(p, i).args) && vals == Values(st'.env, Rename(p, i).args)
    requires st.cells == st'.cells && st.world == st'.world
    requires ExprOf(c.types, Rename(p, i)) == ExprOf(c.types, i)
    requires Direct(c.private, Rename(p, i)) <==> Direct(c.private, i)
    requires Direct(c.private, i) ==> Rename(p, i).args[0] == i.args[0]
    requires i.op in {Load, Store, MemCpy, Call, Param, Alloca}
    ensures SameOutcome(i, st, st', Exec(c, i, st), Exec(c, Rename(p, i), st'))
  {
  }

  lemma KeptPlain(c: Context, p: Plan, i: Instr, vals: seq<int>, st: State, st': State)
    requires Shaped(i) && i.op != Phi
    requires Assigned(st.env, i.args) && vals == Values(st.env, i.args)
    requires Assigned(st'.env, Rename(p, i).args) && vals == Values(st'.env, Rename(p, i).args)
    requires st.cells == st'.cells && st.world == st'.world
    requires ExprOf(c.types, Rename(p, i)) == ExprOf(c.types, i)
    requires Direct(c.private, Rename(p, i)) <==> Direct(c.private, i)
    requires Direct(c.private, i) ==> Rename(p, i).args[0] == i.args[0]
    requires i.op !in {Load, Store, MemCpy, Call, Param, Alloca}
    ensures SameOutcome(i, st, st', Exec(c, i, st), Exec(c, Rename(p, i), st'))
  {
  }

  // ------------------------------------------------------------------- the relation

  /** Both runs are before instruction `i` of block `b`. */
  ghost predicate InStep(t: Tree, c: Context, p: Plan, code: Code, b: nat, i: nat, st: State, st': State)
    requires b < |code| && i <= |code[b]|
  {
    && Sync(p, ScopeAt(t, code, b, i), st.env, st'.env)
    && Intact(t, c, code, b, i, st.env)
    && st.cells == st'.cells && st.world == st'.world
  }

  /** A replacement is in scope wherever what it replaces is. */
  lemma ReplacementFollows(t: Tree, c: Context, p: Plan, code: Code, strict: bool, b: nat, i: nat, u: nat)
    requires Simplifies(t, c, p, code, strict)
    requires b < |code| && t.rank[b] >= 0 && i <= |code[b]| && u in ScopeAt(t, code, b, i) && u in p.sub
    ensures p.sub[u] in ScopeAt(t, code, b, i)
  {
    var a, j := InScopeSite(t, code, b, i, u);
    assert Dropped(p, code[a][j]);
    assert Justified(t, c, p, code, strict, a, j);
    assert t.rank[a] >= 0;
    assert BlockOk(t, code, a);
    assert InstrOk(t, code, a, j);
    assert p.sub[u] in ScopeAt(t, code, a, j);
    ScopeTransitive(t, code, b, i, a, j, u);
  }

  /** The operands of an instruction that stays have the same values in both runs. */
  lemma KeptOperands(t: Tree, c: Context, p: Plan, code: Code, strict: bool, b: nat, i: nat, st: State, st': State)
    requires Simplifies(t, c, p, code, strict) && b < |code| && t.rank[b] >= 0
    requires Leading(code[b]) <= i < |code[b]| && !Dropped(p, code[b][i])
    requires InStep(t, c, p, code, b, i, st, st')
    ensures Shaped(code[b][i]) && code[b][i].op != Phi
    ensures OperandsAgree(p, code[b][i], st.env, st'.env)
  {
    assert BlockOk(t, code, b);
    assert InstrOk(t, code, b, i);
    assert UseInScope(t, code, b, i);
    assert SuppliedAt(t, p, code, b, i);
  }

  /** An instruction that stays keeps the runs in step. */
  lemma KeptKeeps(t: Tree, c: Context, p: Plan, code: Code, strict: bool, b: nat, i: nat, st: State, st': State)
    requires Simplifies(t, c, p, code, strict) && b < |code| && t.rank[b] >= 0
    requires Leading(code[b]) <= i < |code[b]| && !Dropped(p, code[b][i])
    requires InStep(t, c, p, code, b, i, st, st')
    ensures var o, o' := Exec(c, code[b][i], st), Exec(c, Rename(p, code[b][i]), st');
            && SameOutcome(code[b][i], st, st', o, o')
            && (o.Continue? ==> InStep(t, c, p, code, b, i + 1, o.st, o'.st))
  {
    KeptOperands(t, c, p, code, strict, b, i, st, st');
    KeptStep(c, p, code[b][i], st, st');
    var o, o' := Exec(c, code[b][i], st), Exec(c, Rename(p, code[b][i]), st');
    if o.Continue? {
      StepIntact(t, c, code, b, i, st, o.st);
      ScopeStep(t, code, b, i);
      if code[b][i].dst.Some? {
        var d := code[b][i].dst.value;
        assert DefinedAt(code, d, b, i);
        DefNotInScope(t, code, b, i, d);
        forall u | u in ScopeAt(t, code, b, i) && u in p.sub
          ensures p.sub[u] != d
        {
          ReplacementFollows(t, c, p, code, strict, b, i, u);
        }
      }
    }
  }

  /** A removed instruction, run only by the original, gives its value what the
      replacement has already; or traps, when that is allowed to go. */
  lemma DroppedKeeps(t: Tree, c: Context, p: Plan, code: Code, strict: bool, b: nat, i: nat, st: State, st': State)
    requires Simplifies(t, c, p, code, strict) && b < |code| && t.rank[b] >= 0
    requires Leading(code[b]) <= i < |code[b]| && Dropped(p, code[b][i])
    requires InStep(t, c, p, code, b, i, st, st')
    ensures var o := Exec(c, code[b][i], st);
            || (o.Trap? && !strict)
            || (o.Continue? && InStep(t, c, p, code, b, i + 1, o.st, st'))
  {
    var ins := code[b][i];
    OperandsAssigned(t, c, code, b, i, st);
    assert BlockOk(t, code, b);
    assert InstrOk(t, code, b, i);
    DroppedValue(t, c, p, code, strict, b, i, st, st');
    var o := Exec(c, ins, st);
    if o.Continue? {
      StepIntact(t, c, code, b, i, st, o.st);
      ScopeStep(t, code, b, i);
      var d := ins.dst.value;
      assert DefinedAt(code, d, b, i);
      DefNotInScope(t, code, b, i, d);
    }
  }

  /** What running a removed instruction amounts to. */
  ghost predicate Redundant(p: Plan, strict: bool, scope: set<nat>, st: State, d: nat, o: Outcome) {
    || (o.Trap? && !strict)
    || (o.Continue? && d in o.st.env && o.st == st.(env := st.env[d := o.st.env[d]]) &&
        (d in p.sub ==> p.sub[d] in scope && p.sub[d] in st.env && o.st.env[d] == st.env[p.sub[d]]))
  }

  lemma DroppedValue(t: Tree, c: Context, p: Plan, code: Code, strict: bool, b: nat, i: nat, st: State, st': State)
    requires Simplifies(t, c, p, code, strict) && b < |code| && t.rank[b] >= 0
    requires Leading(code[b]) <= i < |code[b]| && Dropped(p, code[b][i])
    requires InStep(t, c, p, code, b, i, st, st')
    requires Assigned(st.env, code[b][i].args) && code[b][i].op != Phi && Shaped(code[b][i])
    ensures code[b][i].dst.Some?
    ensures Redundant(p, strict, ScopeAt(t, code, b, i), st, code[b][i].dst.value, Exec(c, code[b][i], st))
  {
    var ins := code[b][i];
    assert Justified(t, c, p, code, strict, b, i);
    if Recomputes(t, c, p, code, b, i) {
      RecomputedValue(t, c, p, code, b, i, st);
    } else if Copies(t, p, code, b, i) {
      assert BlockOk(t, code, b);
      assert InstrOk(t, code, b, i);
      assert UseInScope(t, code, b, i);
      SameUnderName(c, p, ScopeAt(t, code, b, i), ins.args[0], st.env, st'.env);
      CopiedValue(c, ins, st);
    } else {
      UnreadRuns(c, p, ins, st);
    }
  }

  lemma RecomputedValue(t: Tree, c: Context, p: Plan, code: Code, b: nat, i: nat, st: State)
    requires b < |code| && i < |code[b]| && Recomputes(t, c, p, code, b, i)
    requires Intact(t, c, code, b, i, st.env) && Assigned(st.env, code[b][i].args)
    ensures Redundant(p, true, ScopeAt(t, code, b, i), st, code[b][i].dst.value, Exec(c, code[b][i], st))
  {
    var ins := code[b][i];
    var w := p.sub[ins.dst.value];
    var a: nat, j: nat :| DefinedAt(code, w, a, j) && IsPure(code[a][j]) && SameExpression(c.types, code[a][j], ins);
    assert Holds(c, code[a][j], st.env);
    SameValue(c, code[a][j], ins, st.env);
    PureRuns(c, ins, st);
  }

  /** A pure instruction whose operands are assigned either traps or assigns its value. */
  lemma PureRuns(c: Context, i: Instr, st: State)
    requires IsPure(i) && Assigned(st.env, i.args)
    ensures Exec(c, i, st) ==
            match Evaluate(c, i, Values(st.env, i.args))
            case None => Trap(st.world)
            case Some(x) => Continue(st.(env := st.env[i.dst.value := x]))
  {
  }

  lemma CopiedValue(c: Context, i: Instr, st: State)
    requires i.op == Copy && |i.args| == 1 && i.dst.Some? && Assigned(st.env, i.args)
    ensures Exec(c, i, st) == Continue(st.(env := st.env[i.dst.value := st.env[i.args[0]]]))
  {
  }

  /** A value and what it is renamed to are the same in the original run. */
  lemma SameUnderName(c: Context, p: Plan, scope: set<nat>, u: nat, env: map<nat, int>, env': map<nat, int>)
    requires Conservative(c, p) && Sync(p, scope, env, env')
    requires u in scope && NameFor(p, u) in scope && Tracked(p, u) && Tracked(p, NameFor(p, u))
    ensures u in env && NameFor(p, u) in env && env[u] == env[NameFor(p, u)]
  {
  }

  lemma SameValue(c: Context, x: Instr, y: Instr, env: map<nat, int>)
    requires IsPure(x) && IsPure(y) && SameExpression(c.types, x, y) && Assigned(env, x.args)
    ensures Assigned(env, y.args)
    ensures Evaluate(c, y, Values(env, y.args)) == Evaluate(c, x, Values(env, x.args))
  {
    assert x.args == y.args;
    assert ExprOf(c.types, x) == ExprOf(c.types, y);
  }

  lemma UnreadRuns(c: Context, p: Plan, i: Instr, st: State)
    requires Unread(p, i) && Assigned(st.env, i.args) && i.op != Phi
    ensures var o, d := Exec(c, i, st), i.dst.value;
            o.Trap? || (o.Continue? && d in o.st.env && o.st == st.(env := st.env[d := o.st.env[d]]))
  {
  }

  /** The outcomes of the rest of a block. */
  ghost predicate InStepOutcome(t: Tree, c: Context, p: Plan, code: Code, strict: bool, b: nat, o: Outcome, o': Outcome)
    requires b < |code|
  {
    || (o.Trap? && !strict)
    || (!o.Goto? && o' == o)
    || (o.Goto? && o'.Goto? && o.block == o'.block && InStep(t, c, p, code, b, |code[b]|, o.st, o'.st))
  }

  lemma {:induction false} RestInStep(t: Tree, c: Context, p: Plan, code: Code, strict: bool, b: nat, i: nat,
      st: State, st': State)
    requires Simplifies(t, c, p, code, strict) && b < |code| && t.rank[b] >= 0
    requires Leading(code[b]) <= i <= |code[b]|
    requires InStep(t, c, p, code, b, i, st, st')
    ensures InStepOutcome(t, c, p, code, strict, b, ExecFrom(c, code[b][i..], st),
                          ExecFrom(c, RewriteBlock(p, code[b][i..]), st'))
    decreases |code[b]| - i
  {
    if i < |code[b]| {
      var o := Exec(c, code[b][i], st);
      if Dropped(p, code[b][i]) {
        DroppedKeeps(t, c, p, code, strict, b, i, st, st');
        if o.Continue? {
          RestInStep(t, c, p, code, strict, b, i + 1, o.st, st');
        }
        DroppedThenRest(c, p, code[b], i, st, st');
      } else {
        KeptKeeps(t, c, p, code, strict, b, i, st, st');
        if o.Continue? {
          RestInStep(t, c, p, code, strict, b, i + 1, o.st, Exec(c, Rename(p, code[b][i]), st').st);
        } else if o.Goto? {
          OperandsAssigned(t, c, code, b, i, st);
          Proceeds(c, code[b][i], st);
        }
        KeptThenRest(c, p, code[b], i, st, st');
      }
    }
  }

  lemma DroppedThenRest(c: Context, p: Plan, block: Block, i: nat, st: State, st': State)
    requires i < |block| && Dropped(p, block[i])
    ensures RewriteBlock(p, block[i..]) == RewriteBlock(p, block[i + 1..])
    ensures var o := Exec(c, block[i], st);
            ExecFrom(c, block[i..], st) == if o.Continue? then ExecFrom(c, block[i + 1..], o.st) else o
  {
    assert block[i..][1..] == block[i + 1..];
    assert RewriteBlock(p, block[i..]) == [] + RewriteBlock(p, block[i + 1..]);
  }

  lemma KeptThenRest(c: Context, p: Plan, block: Block, i: nat, st: State, st': State)
    requires i < |block| && !Dropped(p, block[i])
    ensures var o := Exec(c, block[i], st);
            ExecFrom(c, block[i..], st) == if o.Continue? then ExecFrom(c, block[i + 1..], o.st) else o
    ensures var o' := Exec(c, Rename(p, block[i]), st');
            ExecFrom(c, RewriteBlock(p, block[i..]), st') ==
              if o'.Continue? then ExecFrom(c, RewriteBlock(p, block[i + 1..]), o'.st) else o'
  {
    assert block[i..][1..] == block[i + 1..];
    var r := RewriteBlock(p, block[i..]);
    assert r[0] == Rename(p, block[i]) && r[1..] == RewriteBlock(p, block[i + 1..]);
  }

  // ------------------------------------------------------------- entering a block

  ghost predicate DistinctResults(phis: seq<Instr>) {
    && (forall k | 0 <= k < |phis| :: phis[k].dst.Some?)
    && (forall j, k | 0 <= j < k < |phis| :: phis[j].dst != phis[k].dst)
  }

  /** After the parallel assignment each phi has what arrived for it. */
  lemma {:induction false} MergeLookup(phis: seq<Instr>, prev: Option<nat>, env: map<nat, int>, k: nat)
    requires DistinctResults(phis) && k < |phis| && Merge(phis, prev, env).Some?
    ensures Arriving(phis[k], prev, env).Some?
    ensures var m := Merge(phis, prev, env).value;
            phis[k].dst.value in m && m[phis[k].dst.value] == Arriving(phis[k], prev, env).value
  {
    if k > 0 {
      MergeLookup(phis[1..], prev, env, k - 1);
    }
  }

  lemma PhisDistinct(code: Code, b: nat, n: nat)
    requires UniqueDefs(code) && b < |code| && n <= |code[b]|
    requires forall k | 0 <= k < n :: code[b][k].dst.Some?
    ensures DistinctResults(code[b][..n])
  {
    forall j, k | 0 <= j < k < n
      ensures code[b][j].dst != code[b][k].dst
    {
      if code[b][j].dst == code[b][k].dst {
        assert DefinedAt(code, code[b][j].dst.value, b, j);
        assert DefinedAt(code, code[b][j].dst.value, b, k);
      }
    }
  }

  /** A phi that stays receives the same along the edge in both runs. */
  lemma KeptPhi(t: Tree, c: Context, p: Plan, code: Code, strict: bool, q: nat, b: nat, k: nat, st: State, st': State)
    requires Simplifies(t, c, p, code, strict) && b < |code| && t.rank[b] >= 0 && q in t.preds[b]
    requires q < |code| && InStep(t, c, p, code, q, |code[q]|, st, st')
    requires k < Leading(code[b]) && !Dropped(p, code[b][k])
    ensures var x := Arriving(code[b][k], Some(q), st.env);
            x.Some? && Arriving(Rename(p, code[b][k]), Some(q), st'.env) == x
  {
    var phi := code[b][k];
    assert BlockOk(t, code, b);
    assert InstrOk(t, code, b, k);
    assert PhiInScope(t, code, b, phi);
    assert SuppliedAt(t, p, code, b, k);
    var e := EdgeIndex(phi.from, q);
    ScopeEnd(t, code, q);
    assert NameFor(p, phi.args[e]) in ScopeOut(t, code, q) - p.gone;
  }

  /** A phi that is removed would have received what its one value is. */
  lemma DroppedPhi(t: Tree, c: Context, p: Plan, code: Code, strict: bool, q: nat, b: nat, k: nat, st: State,
      st': State)
    requires Simplifies(t, c, p, code, strict) && b < |code| && t.rank[b] >= 0 && q in t.preds[b]
    requires q < |code| && InStep(t, c, p, code, q, |code[q]|, st, st')
    requires k < Leading(code[b]) && Dropped(p, code[b][k])
    ensures var x := Arriving(code[b][k], Some(q), st.env);
            && x.Some? && code[b][k].dst.Some?
            && (code[b][k].dst.value in p.sub ==>
                  var w := p.sub[code[b][k].dst.value];
                  w in ScopeIn(t, code, b) && w in st'.env && x.value == st'.env[w])
  {
    var phi := code[b][k];
    assert BlockOk(t, code, b);
    assert InstrOk(t, code, b, k);
    assert Justified(t, c, p, code, strict, b, k);
    PhiArrives(t, c, code, q, b, k, st.env);
    if phi.dst.value in p.sub {
      ScopeEnd(t, code, q);
      OneValueArrives(t, p, code, q, b, phi, st.env, st'.env);
    }
  }

  lemma OneValueArrives(t: Tree, p: Plan, code: Code, q: nat, b: nat, phi: Instr, env: map<nat, int>,
      env': map<nat, int>)
    requires q < |code| && b < |code| && OneValued(t, code, p, b, phi) && PhiInScope(t, code, b, phi)
    requires q in t.preds[b] && Sync(p, ScopeOut(t, code, q), env, env')
    requires p.sub[phi.dst.value] !in p.gone && p.sub[phi.dst.value] !in p.sub
    ensures var x, w := Arriving(phi, Some(q), env), p.sub[phi.dst.value];
            x.Some? && w in env' && x.value == env'[w]
  {
    var e := EdgeIndex(phi.from, q);
    assert phi.args[e] in ScopeOut(t, code, q);
    assert Tracked(p, phi.args[e]);
  }

  /** `m` is the parallel assignment of `phis`, one entry for each. */
  ghost predicate Merged(phis: seq<Instr>, q: nat, env: map<nat, int>, m: map<nat, int>) {
    && DistinctResults(phis)
    && Merge(phis, Some(q), env) == Some(m)
    && m.Keys == Defs(phis)
  }

  lemma OldMerge(t: Tree, c: Context, code: Code, q: nat, b: nat, env: map<nat, int>) returns (m: map<nat, int>)
    requires Ssa(t, code) && b < |code| && t.rank[b] >= 0 && q in t.preds[b]
    requires q < |code| && Intact(t, c, code, q, |code[q]|, env)
    ensures Merged(code[b][..Leading(code[b])], q, env, m)
  {
    var n := Leading(code[b]);
    var phis := code[b][..n];
    forall k | 0 <= k < n
      ensures phis[k].dst.Some? && Arriving(phis[k], Some(q), env).Some?
    {
      PhiArrives(t, c, code, q, b, k, env);
      assert phis[k] == code[b][k];
    }
    PhisDistinct(code, b, n);
    MergeAssigns(phis, q, env);
    m := Merge(phis, Some(q), env).value;
  }

  lemma NewMerge(t: Tree, c: Context, p: Plan, code: Code, strict: bool, q: nat, b: nat, st: State, st': State)
    returns (m: map<nat, int>)
    requires Simplifies(t, c, p, code, strict) && b < |code| && t.rank[b] >= 0 && q in t.preds[b]
    requires q < |code| && InStep(t, c, p, code, q, |code[q]|, st, st')
    ensures Merged(RewriteBlock(p, code[b][..Leading(code[b])]), q, st'.env, m)
  {
    var phis := code[b][..Leading(code[b])];
    var phis' := RewriteBlock(p, phis);
    forall j: nat | j < |phis'|
      ensures phis'[j].dst.Some? && Arriving(phis'[j], Some(q), st'.env).Some?
    {
      NewArrives(t, c, p, code, strict, q, b, st, st', j);
    }
    var was := OldMerge(t, c, code, q, b, st.env);
    RewriteDistinct(p, phis);
    MergeAssigns(phis', q, st'.env);
    m := Merge(phis', Some(q), st'.env).value;
  }

  lemma NewArrives(t: Tree, c: Context, p: Plan, code: Code, strict: bool, q: nat, b: nat, st: State, st': State,
      j: nat)
    requires Simplifies(t, c, p, code, strict) && b < |code| && t.rank[b] >= 0 && q in t.preds[b]
    requires q < |code| && InStep(t, c, p, code, q, |code[q]|, st, st')
    requires j < |RewriteBlock(p, code[b][..Leading(code[b])])|
    ensures var phi := RewriteBlock(p, code[b][..Leading(code[b])])[j];
            phi.dst.Some? && Arriving(phi, Some(q), st'.env).Some?
  {
    var phis := code[b][..Leading(code[b])];
    OriginIs(p, phis, j);
    var k := Origin(p, phis, j);
    assert phis[k] == code[b][k];
    PhiArrives(t, c, code, q, b, k, st.env);
    KeptPhi(t, c, p, code, strict, q, b, k, st, st');
  }

  lemma RewriteDistinct(p: Plan, phis: seq<Instr>)
    requires DistinctResults(phis)
    ensures DistinctResults(RewriteBlock(p, phis))
  {
    var r := RewriteBlock(p, phis);
    forall k | 0 <= k < |r|
      ensures r[k].dst.Some?
    {
      OriginIs(p, phis, k);
    }
    forall j, k | 0 <= j < k < |r|
      ensures r[j].dst != r[k].dst
    {
      OriginIs(p, phis, j);
      OriginIs(p, phis, k);
      if Origin(p, phis, j) == Origin(p, phis, k) {
        OriginInjective(p, phis, j, k);
      }
    }
  }

  /** Both runs take the same edge. */
  lemma EnterInStep(t: Tree, c: Context, p: Plan, code: Code, strict: bool, q: nat, b: nat, st: State, st': State)
    requires Simplifies(t, c, p, code, strict) && b < |code| && t.rank[b] >= 0 && q in t.preds[b]
    requires q < |code| && InStep(t, c, p, code, q, |code[q]|, st, st')
    ensures var phis := code[b][..Leading(code[b])];
            var m, m' := Merge(phis, Some(q), st.env), Merge(RewriteBlock(p, phis), Some(q), st'.env);
            && m.Some? && m'.Some?
            && InStep(t, c, p, code, b, Leading(code[b]),
                      st.(env := st.env + m.value), st'.(env := st'.env + m'.value))
  {
    var m := OldMerge(t, c, code, q, b, st.env);
    var m' := NewMerge(t, c, p, code, strict, q, b, st, st');
    EnterIntact(t, c, code, q, b, st.env);
    MergedInStep(t, c, p, code, strict, q, b, st, st', m, m');
  }

  lemma MergedInStep(t: Tree, c: Context, p: Plan, code: Code, strict: bool, q: nat, b: nat, st: State, st': State,
      m: map<nat, int>, m': map<nat, int>)
    requires Simplifies(t, c, p, code, strict) && b < |code| && t.rank[b] >= 0 && q in t.preds[b]
    requires q < |code| && InStep(t, c, p, code, q, |code[q]|, st, st')
    requires Merged(code[b][..Leading(code[b])], q, st.env, m)
    requires Merged(RewriteBlock(p, code[b][..Leading(code[b])]), q, st'.env, m')
    ensures Sync(p, ScopeAt(t, code, b, Leading(code[b])), st.env + m, st'.env + m')
  {
    var n := Leading(code[b]);
    SsaStoresPlain(t, code);
    assert StoresHaveNoResult(code[b]);
    RewriteDefs(p, code[b][..n]);
    DefsPrefix(code[b], n, n);
    forall u | u in ScopeAt(t, code, b, n) && Tracked(p, u)
      ensures u in st.env + m && NameFor(p, u) in st'.env + m' && (st.env + m)[u] == (st'.env + m')[NameFor(p, u)]
    {
      if u in ScopeIn(t, code, b) {
        InheritedInStep(t, c, p, code, strict, q, b, st, st', m, m', u);
      } else {
        PhiInStep(t, c, p, code, strict, q, b, st, st', m, m', u);
      }
    }
  }

  lemma InheritedInStep(t: Tree, c: Context, p: Plan, code: Code, strict: bool, q: nat, b: nat, st: State, st': State,
      m: map<nat, int>, m': map<nat, int>, u: nat)
    requires Simplifies(t, c, p, code, strict) && b < |code| && t.rank[b] >= 0 && q in t.preds[b]
    requires q < |code| && InStep(t, c, p, code, q, |code[q]|, st, st')
    requires m.Keys <= Defs(code[b]) && m'.Keys <= Defs(code[b])
    requires u in ScopeIn(t, code, b) && Tracked(p, u)
    ensures NameFor(p, u) in ScopeIn(t, code, b)
    ensures u in st.env + m && NameFor(p, u) in st'.env + m' && (st.env + m)[u] == (st'.env + m')[NameFor(p, u)]
  {
    ScopeEdge(t, code, q, b);
    ScopeEnd(t, code, q);
    assert ScopeAt(t, code, b, 0) == ScopeIn(t, code, b);
    if u in p.sub {
      ReplacementFollows(t, c, p, code, strict, b, 0, u);
    }
    InheritedIsNotPhi(t, code, b, u);
    InheritedIsNotPhi(t, code, b, NameFor(p, u));
  }

  lemma PhiInStep(t: Tree, c: Context, p: Plan, code: Code, strict: bool, q: nat, b: nat, st: State, st': State,
      m: map<nat, int>, m': map<nat, int>, u: nat)
    requires Simplifies(t, c, p, code, strict) && b < |code| && t.rank[b] >= 0 && q in t.preds[b]
    requires q < |code| && InStep(t, c, p, code, q, |code[q]|, st, st')
    requires Merged(code[b][..Leading(code[b])], q, st.env, m)
    requires Merged(RewriteBlock(p, code[b][..Leading(code[b])]), q, st'.env, m')
    requires m'.Keys <= Defs(code[b])
    requires u in Defs(code[b][..Leading(code[b])]) && Tracked(p, u)
    ensures u in st.env + m && NameFor(p, u) in st'.env + m' && (st.env + m)[u] == (st'.env + m')[NameFor(p, u)]
  {
    var n := Leading(code[b]);
    var phis := code[b][..n];
    var k := InDefs(code, b, n, u);
    assert phis[k] == code[b][k];
    MergeLookup(phis, Some(q), st.env, k);
    if Dropped(p, code[b][k]) {
      DroppedPhi(t, c, p, code, strict, q, b, k, st, st');
      assert u in p.gone;
      InheritedIsNotPhi(t, code, b, p.sub[u]);
    } else {
      KeptPhi(t, c, p, code, strict, q, b, k, st, st');
      var j := Survives(p, phis, k);
      OriginIs(p, phis, j);
      MergeLookup(RewriteBlock(p, phis), Some(q), st'.env, j);
    }
  }

  // ------------------------------------------------------------------ whole runs

  /** The two runs after the same number of blocks. */
  ghost predicate RunsInStep(t: Tree, c: Context, p: Plan, code: Code, strict: bool, cfg: Config, cfg': Config) {
    || (!strict && cfg.Halted? && cfg.outcome.Trap?)
    || (cfg.Halted? && cfg' == cfg)
    || (&& cfg.At? && cfg'.At? && cfg.block == cfg'.block && cfg.prev == cfg'.prev
        && (match cfg.prev
            case None => cfg == cfg' && cfg.st.env == map[]
            case Some(q) => q < |code| && InStep(t, c, p, code, q, |code[q]|, cfg.st, cfg'.st)))
  }

  /** A block, once its phis are assigned in both runs. */
  lemma BlockInStep(t: Tree, c: Context, p: Plan, code: Code, strict: bool, b: nat, prev: Option<nat>, st: State,
      st': State, m: map<nat, int>, m': map<nat, int>)
    requires Simplifies(t, c, p, code, strict) && b < |code| && t.rank[b] >= 0
    requires Merge(code[b][..Leading(code[b])], prev, st.env) == Some(m)
    requires Merge(RewriteBlock(p, code[b][..Leading(code[b])]), prev, st'.env) == Some(m')
    requires InStep(t, c, p, code, b, Leading(code[b]), st.(env := st.env + m), st'.(env := st'.env + m'))
    ensures InStepOutcome(t, c, p, code, strict, b, ExecBlock(c, code, b, prev, st),
                          ExecBlock(c, RewriteCode(p, code), b, prev, st'))
  {
    PhisFirst(t, code, b);
    RewriteLeading(p, code[b]);
    RestInStep(t, c, p, code, strict, b, Leading(code[b]), st.(env := st.env + m), st'.(env := st'.env + m'));
  }

  lemma ConfigInStep(t: Tree, c: Context, p: Plan, code: Code, strict: bool, cfg: Config, cfg': Config)
    requires Simplifies(t, c, p, code, strict) && cfg.At?
    requires Arrived(t, c, code, cfg) && RunsInStep(t, c, p, code, strict, cfg, cfg')
    ensures cfg.block < |code|
    ensures InStepOutcome(t, c, p, code, strict, cfg.block, ExecBlock(c, code, cfg.block, cfg.prev, cfg.st),
                          ExecBlock(c, RewriteCode(p, code), cfg.block, cfg.prev, cfg'.st))
  {
    var b := cfg.block;
    var phis := code[b][..Leading(code[b])];
    if cfg.prev.Some? {
      EnterInStep(t, c, p, code, strict, cfg.prev.value, b, cfg.st, cfg'.st);
      BlockInStep(t, c, p, code, strict, b, cfg.prev, cfg.st, cfg'.st,
                  Merge(phis, cfg.prev, cfg.st.env).value, Merge(RewriteBlock(p, phis), cfg.prev, cfg'.st.env).value);
    } else {
      StartInStep(t, c, p, code, cfg.st);
      BlockInStep(t, c, p, code, strict, b, cfg.prev, cfg.st, cfg'.st, map[], map[]);
    }
  }

  lemma OutcomeToConfig(t: Tree, c: Context, p: Plan, code: Code, strict: bool, cfg: Config, cfg': Config)
    requires cfg.At? && cfg'.At? && cfg.block == cfg'.block && cfg.prev == cfg'.prev && cfg.block < |code|
    requires InStepOutcome(t, c, p, code, strict, cfg.block, ExecBlock(c, code, cfg.block, cfg.prev, cfg.st),
                           ExecBlock(c, RewriteCode(p, code), cfg.block, cfg.prev, cfg'.st))
    ensures RunsInStep(t, c, p, code, strict, Next(c, code, cfg), Next(c, RewriteCode(p, code), cfg'))
  {
  }

  lemma NextInStep(t: Tree, c: Context, p: Plan, code: Code, strict: bool, cfg: Config, cfg': Config)
    requires Simplifies(t, c, p, code, strict)
    requires Arrived(t, c, code, cfg) && RunsInStep(t, c, p, code, strict, cfg, cfg')
    ensures RunsInStep(t, c, p, code, strict, Next(c, code, cfg), Next(c, RewriteCode(p, code), cfg'))
  {
    if cfg.At? {
      ConfigInStep(t, c, p, code, strict, cfg, cfg');
      OutcomeToConfig(t, c, p, code, strict, cfg, cfg');
    }
  }

  lemma StartInStep(t: Tree, c: Context, p: Plan, code: Code, st: State)
    requires Ssa(t, code) && st.env == map[]
    ensures Leading(code[0]) == 0
    ensures Merge(code[0][..0], None, st.env) == Some(map[])
    ensures Merge(RewriteBlock(p, code[0][..0]), None, st.env) == Some(map[])
    ensures InStep(t, c, p, code, 0, 0, st.(env := st.env + map[]), st.(env := st.env + map[]))
  {
    EntryIsFirst(t, code);
    assert code[0][..0] == [];
    assert Defs(code[0][..0]) == {};
    assert ScopeAt(t, code, 0, 0) == {};
  }

  lemma StartTogether(t: Tree, c: Context, p: Plan, code: Code, strict: bool, world: World)
    ensures RunsInStep(t, c, p, code, strict, Run(c, code, world, 0), Run(c, RewriteCode(p, code), world, 0))
  {
  }

  lemma RunInStep(t: Tree, c: Context, p: Plan, code: Code, strict: bool, world: World, n: nat)
    requires Simplifies(t, c, p, code, strict)
    ensures RunsInStep(t, c, p, code, strict, Run(c, code, world, n), Run(c, RewriteCode(p, code), world, n))
  {
    var rel := (x: Config, y: Config) => Arrived(t, c, code, x) && RunsInStep(t, c, p, code, strict, x, y);
    forall x, y | rel(x, y)
      ensures rel(Next(c, code, x), Next(c, RewriteCode(p, code), y))
    {
      NextInStep(t, c, p, code, strict, x, y);
      NextArrives(t, c, code, x);
    }
    RunArrives(t, c, code, world, 0);
    StartTogether(t, c, p, code, strict, world);
    Lockstep(c, code, c, RewriteCode(p, code), world, n, rel);
  }

  /** A simplification preserves every run: for every machine, arguments and initial
      world, after any number of blocks the rewritten body shows the same behaviour.
      Without `strict`, an original that traps is excused. */
  lemma SimplificationPreservesRuns(t: Tree, c: Context, p: Plan, code: Code, strict: bool, world: World, n: nat)
    requires Simplifies(t, c, p, code, strict)
    ensures Ssa(t, RewriteCode(p, code))
    ensures Observe(Run(c, RewriteCode(p, code), world, n)) == Observe(Run(c, code, world, n)) ||
            (!strict && Observe(Run(c, code, world, n)).Trapped?)
  {
    RewriteSsa(t, p, code);
    RunInStep(t, c, p, code, strict, world, n);
  }
}
