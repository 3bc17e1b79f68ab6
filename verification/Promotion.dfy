/** Slot promotion as a transformation: phis and zeros inserted, loads replaced by the
    values they read, stores and slots removed. Every run is preserved.

    The proof takes it apart: insert (`Widening`), turn loads into copies (`Forwarding`),
    propagate the copies (`Simulation`), drop the slots nothing reads (`DeadSlots`). */
module Promotion {
  import opened Ir
  import opened Dominators
  import opened Semantics
  import opened SsaForm
  import opened Rewrite
  import opened Simulation
  import opened Slots
  import opened Forwarding
  import opened DeadSlots

  /** What removes the loads, the stores and the slots, and resolves every operand. */
  function FullPlan(slots: set<nat>, sub: map<nat, nat>): Plan {
    Plan(sub.Keys + slots, slots, sub)
  }

  /** A slot is used as the address of loads and stores, and nothing else. */
  ghost predicate SlotUse(slots: set<nat>, i: Instr) {
    && (forall k | 0 <= k < |i.args| && i.args[k] in slots :: k == 0 && (i.op == Load || i.op == Store))
    && (i.dst.Some? && i.dst.value in slots ==> i.op == Alloca && i.args == [])
  }

  ghost predicate AllSlotUse(slots: set<nat>, code: Code) {
    forall b, i | 0 <= b < |code| && 0 <= i < |code[b]| :: SlotUse(slots, code[b][i])
  }

  /** A property of every value that can be in a slot. */
  ghost predicate AllSources(code: Code, m: Promo, ok: (nat, nat) -> bool) {
    && (forall s: nat, b: nat, i: nat {:trigger Stores(code[b][i], s)}
          | s in m.slots && b < |code| && i < |code[b]| && Stores(code[b][i], s) :: ok(s, code[b][i].args[1]))
    && (forall s: nat, b: nat {:trigger (s, b) in m.phi} | (s, b) in m.phi :: ok(s, m.phi[(s, b)]))
    && (forall s: nat {:trigger s in m.zero} | s in m.zero :: ok(s, m.zero[s]))
  }

  lemma CurAll(t: Tree, code: Code, m: Promo, b: nat, i: nat, s: nat, ok: (nat, nat) -> bool)
    requires AllSources(code, m, ok) && s in m.slots && b < |code| && i <= |code[b]|
    requires Cur(t, code, m, b, i, s).Some?
    ensures ok(s, Cur(t, code, m, b, i, s).value)
    decreases if b < |t.rank| && t.rank[b] >= 0 then t.rank[b] else 0, 1
  {
    if LastStored(code[b][..i], s).Some? {
      var k := StoredAt(code[b][..i], s);
      assert Stores(code[b][k], s);
    } else {
      CurInAll(t, code, m, b, s, ok);
    }
  }

  lemma CurInAll(t: Tree, code: Code, m: Promo, b: nat, s: nat, ok: (nat, nat) -> bool)
    requires AllSources(code, m, ok) && s in m.slots && b < |code|
    requires CurIn(t, code, m, b, s).Some?
    ensures ok(s, CurIn(t, code, m, b, s).value)
    decreases if b < |t.rank| && t.rank[b] >= 0 then t.rank[b] else 0, 0
  {
    if (s, b) !in m.phi && HasParent(t.rank, t.idom, b) && t.idom[b] < |code| {
      CurInParent(t, code, m, b, s);
      CurAll(t, code, m, t.idom[b], |code[t.idom[b]]|, s, ok);
    }
  }

  /** Each slot has one type, which is that of every value stored to or loaded from it. */
  ghost predicate TypedSlots(types: seq<Ty>, code: Code, m: Promo) {
    && m.slots <= m.ty.Keys
    && AllSources(code, m, (s: nat, v: nat) => s in m.ty && Wide(types, v) == WidthOf(m.ty[s]))
    && (forall b: nat, i: nat {:trigger Reads(m, code[b][i])}
          | b < |code| && i < |code[b]| && Reads(m, code[b][i]) && code[b][i].dst.Some? ::
          Wide(types, code[b][i].dst.value) == WidthOf(m.ty[code[b][i].args[0]]))
  }

  /** The replacement of each load: the value in the slot, followed to the end. */
  ghost predicate Resolved(t: Tree, code: Code, m: Promo, sub: map<nat, nat>) {
    && (forall v | v in sub :: sub[v] !in sub)
    && (forall v: nat, b: nat, i: nat {:trigger DefinedAt(code, v, b, i)}
          | DefinedAt(code, v, b, i) :: v in sub <==> Reads(m, code[b][i]))
    && (forall v | v in sub :: exists b: nat, i: nat :: DefinedAt(code, v, b, i))
    && (forall b: nat, i: nat {:trigger Reads(m, code[b][i])}
          | b < |code| && i < |code[b]| && Reads(m, code[b][i]) && code[b][i].dst.Some? ::
          ReadsCur(t, code, m, sub, b, i))
  }

  ghost predicate ReadsCur(t: Tree, code: Code, m: Promo, sub: map<nat, nat>, b: nat, i: nat)
    requires b < |code| && i < |code[b]| && Reads(m, code[b][i]) && code[b][i].dst.Some?
  {
    var cur := Cur(t, code, m, b, i, code[b][i].args[0]);
    && cur.Some? && code[b][i].dst.value in sub
    && sub[code[b][i].dst.value] == (if cur.value in sub then sub[cur.value] else cur.value)
  }

  /** All that the pass establishes before it applies the replacements. `code` is the body
      with the phis and zeros inserted. */
  ghost predicate Renamed(t: Tree, types: seq<Ty>, code: Code, m: Promo, sub: map<nat, nat>) {
    && Placed(t, code, m) && AllSlotUse(m.slots, code)
    && TypedSlots(types, code, m) && Resolved(t, code, m, sub)
  }

  // ------------------------------------------------------------------- resolution

  lemma LoadDefined(t: Tree, code: Code, m: Promo, sub: map<nat, nat>, v: nat) returns (b: nat, i: nat)
    requires Resolved(t, code, m, sub) && v in sub
    ensures DefinedAt(code, v, b, i) && Reads(m, code[b][i])
  {
    b, i :| DefinedAt(code, v, b, i);
  }

  /** What a load is replaced by is in scope at the load, and of its type. */
  lemma {:induction false} ResolvedInScope(t: Tree, types: seq<Ty>, code: Code, m: Promo, sub: map<nat, nat>, v: nat,
      b: nat, i: nat)
    requires Renamed(t, types, code, m, sub)
    requires v in sub && DefinedAt(code, v, b, i)
    ensures sub[v] in ScopeAt(t, code, b, i)
    ensures Wide(types, sub[v]) == Wide(types, v)
    decreases t.rank[b], i
  {
    var s := code[b][i].args[0];
    assert Reads(m, code[b][i]);
    assert ReadsCur(t, code, m, sub, b, i);
    assert t.rank[b] >= 0;
    var w := Cur(t, code, m, b, i, s).value;
    LoadAfterPhis(t, code, m, b, i);
    CurInScope(t, code, m, b, i, s);
    CurAll(t, code, m, b, i, s, (s: nat, v: nat) => s in m.ty && Wide(types, v) == WidthOf(m.ty[s]));
    if w in sub {
      var a, j := InScopeSite(t, code, b, i, w);
      if a != b {
        AncRank(t.rank, t.idom, a, b);
      }
      ResolvedInScope(t, types, code, m, sub, w, a, j);
      ScopeTransitive(t, code, b, i, a, j, w);
    }
  }

  lemma LoadAfterPhis(t: Tree, code: Code, m: Promo, b: nat, i: nat)
    requires Placed(t, code, m) && b < |code| && i < |code[b]| && code[b][i].op == Load
    ensures t.rank[b] >= 0 && Leading(code[b]) <= i && (b == 0 ==> m.zeros <= i)
  {
    AfterZeros(t, code, m, b, i);
  }

  /** What a load is replaced by is not a slot, nor any private one. */
  lemma {:induction false} ResolvedNotIn(t: Tree, types: seq<Ty>, code: Code, m: Promo, sub: map<nat, nat>, v: nat,
      b: nat, i: nat, bad: set<nat>)
    requires Renamed(t, types, code, m, sub)
    requires AllSources(code, m, (s: nat, v: nat) => v !in bad)
    requires v in sub && DefinedAt(code, v, b, i)
    ensures sub[v] !in bad
    decreases t.rank[b], i
  {
    var s := code[b][i].args[0];
    assert Reads(m, code[b][i]);
    assert ReadsCur(t, code, m, sub, b, i);
    assert t.rank[b] >= 0;
    var w := Cur(t, code, m, b, i, s).value;
    LoadAfterPhis(t, code, m, b, i);
    CurInScope(t, code, m, b, i, s);
    CurAll(t, code, m, b, i, s, (s: nat, v: nat) => v !in bad);
    if w in sub {
      var a, j := InScopeSite(t, code, b, i, w);
      if a != b {
        AncRank(t.rank, t.idom, a, b);
      }
      ResolvedNotIn(t, types, code, m, sub, w, a, j, bad);
    }
  }

  // ---------------------------------------------------------- propagating the copies

  /** Propagating the copies the loads have become. */
  function CopyPlan(sub: map<nat, nat>): Plan {
    Plan(sub.Keys, {}, sub)
  }

  lemma CopiesSupplied(t: Tree, types: seq<Ty>, code: Code, m: Promo, sub: map<nat, nat>)
    requires Renamed(t, types, code, m, sub)
    ensures Ssa(t, ForwardCode(t, code, m)) && Supplied(t, CopyPlan(sub), ForwardCode(t, code, m))
  {
    var r, p := ForwardCode(t, code, m), CopyPlan(sub);
    ForwardSsa(t, code, m);
    forall b: nat, i: nat | b < |r| && t.rank[b] >= 0 && i < |r[b]| && !Dropped(p, r[b][i])
      ensures SuppliedAt(t, p, r, b, i)
    {
      CopiesSuppliedAt(t, types, code, m, sub, b, i);
    }
  }

  lemma CopiesSuppliedAt(t: Tree, types: seq<Ty>, code: Code, m: Promo, sub: map<nat, nat>, b: nat, i: nat)
    requires Renamed(t, types, code, m, sub) && Ssa(t, ForwardCode(t, code, m))
    requires b < |code| && t.rank[b] >= 0 && i < |code[b]|
    ensures SuppliedAt(t, CopyPlan(sub), ForwardCode(t, code, m), b, i)
  {
    var r, p := ForwardCode(t, code, m), CopyPlan(sub);
    var ins: Instr := r[b][i];
    assert BlockOk(t, r, b);
    assert InstrOk(t, r, b, i);
    forall k | 0 <= k < |ins.args|
      ensures if ins.op != Phi then NameFor(p, ins.args[k]) in ScopeAt(t, r, b, i) - p.gone
              else k < |ins.from| && ins.from[k] < |r| &&
                   NameFor(p, ins.args[k]) in ScopeOut(t, r, ins.from[k]) - p.gone
    {
      if ins.op == Phi {
        assert PhiInScope(t, r, b, ins);
        var q := ins.from[k];
        assert EdgeInTree(t, r, q, b);
        ForwardScope(t, code, m, q, |code[q]|);
        ScopeEnd(t, code, q);
        NamedInScope(t, types, code, m, sub, q, |code[q]|, ins.args[k]);
      } else {
        assert UseInScope(t, r, b, i);
        ForwardScope(t, code, m, b, i);
        NamedInScope(t, types, code, m, sub, b, i, ins.args[k]);
      }
    }
  }

  lemma NamedInScope(t: Tree, types: seq<Ty>, code: Code, m: Promo, sub: map<nat, nat>, b: nat, i: nat, u: nat)
    requires Renamed(t, types, code, m, sub)
    requires b < |code| && t.rank[b] >= 0 && i <= |code[b]| && u in ScopeAt(t, code, b, i)
    ensures NameFor(CopyPlan(sub), u) in ScopeAt(t, code, b, i) - sub.Keys
  {
    if u in sub {
      var a, j := InScopeSite(t, code, b, i, u);
      ResolvedInScope(t, types, code, m, sub, u, a, j);
      ScopeTransitive(t, code, b, i, a, j, u);
    }
  }

  /** The private slots of an invocation are only ever slots, and no value in a slot
      being promoted is the address of one. */
  ghost predicate Apart(c: Context, code: Code, m: Promo) {
    && m.slots <= c.private
    && (forall b: nat, i: nat {:trigger code[b][i]} | b < |code| && i < |code[b]| && code[b][i].dst.Some? &&
        code[b][i].dst.value in c.private ::
          code[b][i].op == Alloca)
    && AllSources(code, m, (s: nat, v: nat) => v !in c.private)
  }

  lemma CopiesConservative(t: Tree, c: Context, code: Code, m: Promo, sub: map<nat, nat>)
    requires Renamed(t, c.types, code, m, sub) && Apart(c, code, m)
    ensures Conservative(c, CopyPlan(sub))
  {
    forall v | v in sub
      ensures v !in c.private && sub[v] !in c.private && Wide(c.types, sub[v]) == Wide(c.types, v)
    {
      var b, i := LoadDefined(t, code, m, sub, v);
      ResolvedInScope(t, c.types, code, m, sub, v, b, i);
      ResolvedNotIn(t, c.types, code, m, sub, v, b, i, c.private);
    }
  }

  lemma CopiesSimplify(t: Tree, c: Context, code: Code, m: Promo, sub: map<nat, nat>)
    requires Renamed(t, c.types, code, m, sub) && Apart(c, code, m)
    ensures Simplifies(t, c, CopyPlan(sub), ForwardCode(t, code, m), true)
  {
    var r, p := ForwardCode(t, code, m), CopyPlan(sub);
    CopiesSupplied(t, c.types, code, m, sub);
    CopiesConservative(t, c, code, m, sub);
    forall b: nat, i: nat | b < |r| && i < |r[b]| && Dropped(p, r[b][i])
      ensures Justified(t, c, p, r, true, b, i)
    {
      var v := code[b][i].dst.value;
      assert DefinedAt(code, v, b, i);
      assert Reads(m, code[b][i]);
      assert ReadsCur(t, code, m, sub, b, i);
      ResolvedInScope(t, c.types, code, m, sub, v, b, i);
      ForwardScope(t, code, m, b, i);
      assert Copies(t, p, r, b, i);
    }
  }

  // -------------------------------------------------------------- dropping the slots

  lemma SlotsOnlyWritten(t: Tree, types: seq<Ty>, code: Code, m: Promo, sub: map<nat, nat>)
    requires Renamed(t, types, code, m, sub)
    requires AllSources(code, m, (s: nat, v: nat) => v !in m.slots)
    ensures AllOnlyWritten(m.slots, RewriteCode(CopyPlan(sub), ForwardCode(t, code, m)))
  {
    var r, p := ForwardCode(t, code, m), CopyPlan(sub);
    var out := RewriteCode(p, r);
    forall b: nat, k: nat | b < |out| && k < |out[b]|
      ensures OnlyWritten(m.slots, out[b][k])
    {
      OriginIs(p, r[b], k);
      KeptOnlyWritten(t, types, code, m, sub, b, Origin(p, r[b], k));
    }
  }

  lemma KeptOnlyWritten(t: Tree, types: seq<Ty>, code: Code, m: Promo, sub: map<nat, nat>, b: nat, i: nat)
    requires Renamed(t, types, code, m, sub)
    requires AllSources(code, m, (s: nat, v: nat) => v !in m.slots)
    requires b < |code| && i < |code[b]| && !Dropped(CopyPlan(sub), code[b][i])
    ensures OnlyWritten(m.slots, Rename(CopyPlan(sub), Forward(t, code, m, b, i)))
  {
    var ins, p := code[b][i], CopyPlan(sub);
    assert SlotUse(m.slots, ins) && AccessOk(ins);
    if ins.dst.Some? {
      assert DefinedAt(code, ins.dst.value, b, i);
    }
    assert !Reads(m, ins);
    forall k | 0 <= k < |ins.args|
      ensures NameFor(p, ins.args[k]) in m.slots ==> NameFor(p, ins.args[k]) == ins.args[k]
    {
      if ins.args[k] in sub {
        var a, j := LoadDefined(t, code, m, sub, ins.args[k]);
        ResolvedNotIn(t, types, code, m, sub, ins.args[k], a, j, m.slots);
      }
    }
  }

  // ------------------------------------------------------------- both steps as one

  ghost predicate SlotsUnresolved(slots: set<nat>, sub: map<nat, nat>) {
    && slots !! sub.Keys
    && forall v | v in sub :: sub[v] !in slots
  }

  /** A load, and the copy it has become, both go; anything else is the same. */
  ghost predicate SameButLoads(sub: map<nat, nat>, x: Instr, y: Instr) {
    x == y || (x.dst == y.dst && x.dst.Some? && x.dst.value in sub)
  }

  lemma {:induction false} TwoStepsBlock(slots: set<nat>, sub: map<nat, nat>, x: Block, y: Block)
    requires SlotsUnresolved(slots, sub) && |x| == |y|
    requires forall k | 0 <= k < |x| :: SameButLoads(sub, x[k], y[k])
    ensures RewriteBlock(Drop(slots), RewriteBlock(CopyPlan(sub), y)) == RewriteBlock(FullPlan(slots, sub), x)
    decreases |x|
  {
    if x != [] {
      TwoStepsBlock(slots, sub, x[1..], y[1..]);
      assert SameButLoads(sub, x[0], y[0]);
      if Dropped(CopyPlan(sub), y[0]) {
        assert Dropped(FullPlan(slots, sub), x[0]);
        assert RewriteBlock(CopyPlan(sub), y) == RewriteBlock(CopyPlan(sub), y[1..]);
      } else {
        TwoStepsInstr(slots, sub, x[0]);
        assert RewriteBlock(CopyPlan(sub), y) == [Rename(CopyPlan(sub), x[0])] + RewriteBlock(CopyPlan(sub), y[1..]);
        RewriteAppend(Drop(slots), [Rename(CopyPlan(sub), x[0])], RewriteBlock(CopyPlan(sub), y[1..]));
        assert RewriteBlock(Drop(slots), [Rename(CopyPlan(sub), x[0])]) ==
               (if Dropped(FullPlan(slots, sub), x[0]) then [] else [Rename(FullPlan(slots, sub), x[0])]) +
                 RewriteBlock(Drop(slots), []);
      }
    }
  }

  lemma TwoStepsInstr(slots: set<nat>, sub: map<nat, nat>, i: Instr)
    requires SlotsUnresolved(slots, sub) && !Dropped(CopyPlan(sub), i)
    ensures var j := Rename(CopyPlan(sub), i);
            && (Dropped(Drop(slots), j) <==> Dropped(FullPlan(slots, sub), i))
            && Rename(Drop(slots), j) == Rename(FullPlan(slots, sub), i)
  {
    var j := Rename(CopyPlan(sub), i);
    RenameNothing(slots, j);
    assert NamesFor(FullPlan(slots, sub), i.args) == NamesFor(CopyPlan(sub), i.args);
  }

  lemma TwoSteps(t: Tree, types: seq<Ty>, code: Code, m: Promo, sub: map<nat, nat>)
    requires Renamed(t, types, code, m, sub) && SlotsUnresolved(m.slots, sub)
    ensures RewriteCode(Drop(m.slots), RewriteCode(CopyPlan(sub), ForwardCode(t, code, m))) ==
            RewriteCode(FullPlan(m.slots, sub), code)
  {
    forall b: nat | b < |code|
      ensures RewriteBlock(Drop(m.slots), RewriteBlock(CopyPlan(sub), ForwardBlock(t, code, m, b))) ==
              RewriteBlock(FullPlan(m.slots, sub), code[b])
    {
      forall k: nat | k < |code[b]|
        ensures SameButLoads(sub, code[b][k], Forward(t, code, m, b, k))
      {
        if Reads(m, code[b][k]) {
          assert AccessOk(code[b][k]);
          assert DefinedAt(code, code[b][k].dst.value, b, k);
        }
      }
      TwoStepsBlock(m.slots, sub, code[b], ForwardBlock(t, code, m, b));
    }
  }

  lemma Unresolved(t: Tree, types: seq<Ty>, code: Code, m: Promo, sub: map<nat, nat>)
    requires Renamed(t, types, code, m, sub)
    requires AllSources(code, m, (s: nat, v: nat) => v !in m.slots)
    ensures SlotsUnresolved(m.slots, sub)
  {
    forall v | v in sub
      ensures v !in m.slots && sub[v] !in m.slots
    {
      var b, i := LoadDefined(t, code, m, sub, v);
      ResolvedNotIn(t, types, code, m, sub, v, b, i, m.slots);
      assert SlotUse(m.slots, code[b][i]);
    }
  }

  // ---------------------------------------------------------------------- the whole

  lemma NoSlotIsASource(c: Context, code: Code, m: Promo)
    requires Apart(c, code, m)
    ensures AllSources(code, m, (s: nat, v: nat) => v !in m.slots)
  {
  }

  /** From the point where phis and zeros are in place. */
  lemma ReplacingPreservesRuns(t: Tree, c: Context, code: Code, m: Promo, sub: map<nat, nat>, world: World, n: nat)
    requires Renamed(t, c.types, code, m, sub) && Apart(c, code, m)
    ensures Ssa(t, RewriteCode(FullPlan(m.slots, sub), code))
    ensures Observe(Run(c.(private := c.private - m.slots), RewriteCode(FullPlan(m.slots, sub), code), world, n)) ==
            Observe(Run(c, code, world, n))
  {
    var copies := ForwardCode(t, code, m);
    ForwardingPreservesRuns(t, c, code, m, world, n);
    CopiesSimplify(t, c, code, m, sub);
    SimplificationPreservesRuns(t, c, CopyPlan(sub), copies, true, world, n);
    NoSlotIsASource(c, code, m);
    SlotsOnlyWritten(t, c.types, code, m, sub);
    DroppingPreservesRuns(t, c, c.(private := c.private - m.slots), m.slots, RewriteCode(CopyPlan(sub), copies),
        world, n);
    Unresolved(t, c.types, code, m, sub);
    TwoSteps(t, c.types, code, m, sub);
  }
}
