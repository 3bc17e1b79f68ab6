/** What a frame slot holds, as a value.

    At every point the slot's content is the value last stored in the block, or the
    phi placed for the slot there, or whatever it was at the end of the immediate
    dominator, or the zero it started with. The last step is right because a block
    with no phi for the slot is in no dominance frontier of a block that defines it. */
module Slots {
  import opened Ir
  import opened Dominators
  import opened Semantics
  import opened SsaForm
  import opened Soundness
  import opened Simulation

  /** The slots being promoted, the phi placed for a slot in a block, the zero read
      from a slot before anything is stored, how many zeros the entry starts with, and
      the type of each slot's content. */
  datatype Promo = Promo(slots: set<nat>, phi: map<(nat, nat), nat>, zero: map<nat, nat>, zeros: nat, ty: map<nat, Ty>)

  predicate Stores(i: Instr, s: nat) {
    i.op == Store && |i.args| == 2 && i.args[0] == s
  }

  function LastStored(block: Block, s: nat): Option<nat> {
    if block == [] then None
    else if Stores(block[|block| - 1], s) then Some(block[|block| - 1].args[1])
    else LastStored(block[..|block| - 1], s)
  }

  /** The value in slot `s` before instruction `i` of block `b`. */
  ghost function Cur(t: Tree, code: Code, m: Promo, b: nat, i: nat, s: nat): Option<nat>
    requires b < |code| && i <= |code[b]|
  {
    var stored := LastStored(code[b][..i], s);
    if stored.Some? then stored else CurIn(t, code, m, b, s)
  }

  ghost function CurOut(t: Tree, code: Code, m: Promo, b: nat, s: nat): Option<nat>
    requires b < |code|
  {
    Cur(t, code, m, b, |code[b]|, s)
  }

  /** ... and where the block begins. */
  ghost function CurIn(t: Tree, code: Code, m: Promo, b: nat, s: nat): Option<nat>
    decreases if b < |t.rank| && t.rank[b] >= 0 then t.rank[b] else 0
  {
    if (s, b) in m.phi then Some(m.phi[(s, b)])
    else if HasParent(t.rank, t.idom, b) && t.idom[b] < |code| then
      var stored := LastStored(code[t.idom[b]], s);
      if stored.Some? then stored else CurIn(t, code, m, t.idom[b], s)
    else if s in m.zero then Some(m.zero[s])
    else None
  }

  lemma CurInParent(t: Tree, code: Code, m: Promo, b: nat, s: nat)
    requires HasParent(t.rank, t.idom, b) && t.idom[b] < |code| && (s, b) !in m.phi
    ensures CurIn(t, code, m, b, s) == CurOut(t, code, m, t.idom[b], s)
  {
    var d: nat := t.idom[b];
    assert code[d][..|code[d]|] == code[d];
  }

  // -------------------------------------------------------------- what is required

  /** Loads and stores have their operands, and a load has a result. */
  ghost predicate AccessOk(i: Instr) {
    && (i.op == Load ==> |i.args| == 1 && i.dst.Some?)
    && (i.op == Store ==> |i.args| == 2)
  }

  ghost predicate AllAccessOk(code: Code) {
    forall b, i {:trigger AccessOk(code[b][i])} | 0 <= b < |code| && 0 <= i < |code[b]| :: AccessOk(code[b][i])
  }

  /** A block defines the slot: it stores to it, or has a phi for it. */
  ghost predicate Defines(code: Code, m: Promo, x: nat, s: nat) {
    x < |code| && (LastStored(code[x], s).Some? || (s, x) in m.phi)
  }

  /** `b` is in the dominance frontier of `x`: `x` is above a predecessor of `b`, but not
      above `b`'s parent. */
  ghost predicate Meets(t: Tree, x: nat, b: nat) {
    && b < |t.preds| && b < |t.idom| && t.idom[b] >= 0
    && exists q :: q in t.preds[b] && Anc(t.rank, t.idom, x, q) && !Anc(t.rank, t.idom, x, t.idom[b])
  }

  /** A phi wherever two values of a slot can first meet. */
  ghost predicate PhisClosed(t: Tree, code: Code, m: Promo) {
    forall s: nat, x: nat, b: nat {:trigger Defines(code, m, x, s), Meets(t, x, b)}
      | s in m.slots && Defines(code, m, x, s) && Meets(t, x, b) :: (s, b) in m.phi
  }

  /** The phi for `s` in `b` takes along each edge what the slot holds there. */
  ghost predicate PhiFilled(t: Tree, code: Code, m: Promo, b: nat, s: nat) {
    && (s, b) in m.phi && b < |code|
    && exists k: nat ::
        k < Leading(code[b]) && DefinedAt(code, m.phi[(s, b)], b, k) && TakesCur(t, code, m, code[b][k], s)
  }

  ghost predicate TakesCur(t: Tree, code: Code, m: Promo, phi: Instr, s: nat) {
    && |phi.from| == |phi.args|
    && forall j | 0 <= j < |phi.from| ::
         phi.from[j] < |code| && CurOut(t, code, m, phi.from[j], s) == Some(phi.args[j])
  }

  /** The constant zeros the entry starts with. */
  ghost predicate ZerosFirst(code: Code, m: Promo) {
    && |code| > 0 && m.zeros <= |code[0]|
    && (forall k | 0 <= k < m.zeros :: ZeroConst(code[0][k]))
    && (forall s | s in m.zero :: m.zero[s] in Defs(code[0][..m.zeros]))
  }

  ghost predicate ZeroConst(i: Instr) {
    i.op == Const && i.imm == 0 && i.dst.Some? && i.args == []
  }

  /** A body with its phis and zeros in place, its loads and stores still there. */
  ghost predicate Placed(t: Tree, code: Code, m: Promo) {
    && Ssa(t, code) && AllAccessOk(code) && ZerosFirst(code, m) && PhisClosed(t, code, m)
    && (forall s: nat, b: nat | (s, b) in m.phi ::
        s in m.slots && 0 < b < |code| && t.rank[b] >= 0 && PhiFilled(t, code, m, b, s))
  }

  // -------------------------------------------------------------------- structure

  /** Where no phi was placed, the slot holds at the end of every predecessor what it
      holds at the end of the immediate dominator. */
  lemma {:induction false} SameAlongEdge(t: Tree, code: Code, m: Promo, q: nat, x: nat, b: nat, s: nat)
    requires TreeOf(t, code) && PhisClosed(t, code, m) && s in m.slots && (s, b) !in m.phi
    requires b < |code| && q in t.preds[b] && q < |code| && t.rank[q] >= 0 && t.idom[b] >= 0
    requires x < |code| && t.rank[x] >= 0
    requires Anc(t.rank, t.idom, x, q) && Anc(t.rank, t.idom, t.idom[b], x)
    ensures t.idom[b] < |code| && CurOut(t, code, m, x, s) == CurOut(t, code, m, t.idom[b], s)
    decreases t.rank[x]
  {
    if x != t.idom[b] {
      if Anc(t.rank, t.idom, x, t.idom[b]) {
        AncRank(t.rank, t.idom, t.idom[b], x);
        AncRank(t.rank, t.idom, x, t.idom[b]);
      }
      assert Meets(t, x, b);
      assert !Defines(code, m, x, s);
      AncTransitive(t.rank, t.idom, t.idom[x], x, q);
      SameAlongEdge(t, code, m, q, t.idom[x], b, s);
      CurInParent(t, code, m, x, s);
      assert code[x][..|code[x]|] == code[x];
    } else {
      AncRank(t.rank, t.idom, x, q);
    }
  }

  lemma {:induction false} StoredAt(block: Block, s: nat) returns (k: nat)
    requires LastStored(block, s).Some?
    ensures k < |block| && Stores(block[k], s) && LastStored(block, s) == Some(block[k].args[1])
  {
    k := |block| - 1;
    if !Stores(block[k], s) {
      k := StoredAt(block[..k], s);
    }
  }

  lemma {:induction false} NothingStored(block: Block, s: nat)
    requires forall k | 0 <= k < |block| :: block[k].op != Store
    ensures LastStored(block, s) == None
  {
    if block != [] {
      NothingStored(block[..|block| - 1], s);
    }
  }

  /** What the slot holds is available: at the end of the phis and zeros, and after. */
  lemma CurInScope(t: Tree, code: Code, m: Promo, b: nat, i: nat, s: nat)
    requires Placed(t, code, m) && s in m.slots
    requires b < |code| && t.rank[b] >= 0 && Leading(code[b]) <= i <= |code[b]| && (b == 0 ==> m.zeros <= i)
    requires Cur(t, code, m, b, i, s).Some?
    ensures Cur(t, code, m, b, i, s).value in ScopeAt(t, code, b, i)
    decreases t.rank[b], 1
  {
    if LastStored(code[b][..i], s).Some? {
      var k := StoredAt(code[b][..i], s);
      assert code[b][..i][k] == code[b][k];
      StoredInScope(t, code, b, k, i, s);
    } else {
      CurInInScope(t, code, m, b, s);
      DefsPrefix(code[b], Leading(code[b]), i);
      if b == 0 {
        DefsPrefix(code[b], m.zeros, i);
      }
    }
  }

  lemma StoredInScope(t: Tree, code: Code, b: nat, k: nat, i: nat, s: nat)
    requires Ssa(t, code) && b < |code| && t.rank[b] >= 0 && k < i <= |code[b]| && Stores(code[b][k], s)
    ensures code[b][k].args[1] in ScopeAt(t, code, b, i)
  {
    assert BlockOk(t, code, b);
    assert InstrOk(t, code, b, k);
    assert UseInScope(t, code, b, k);
    DefsPrefix(code[b], k, i);
  }

  lemma CurInInScope(t: Tree, code: Code, m: Promo, b: nat, s: nat)
    requires Placed(t, code, m) && s in m.slots
    requires b < |code| && t.rank[b] >= 0
    requires CurIn(t, code, m, b, s).Some?
    ensures CurIn(t, code, m, b, s).value in
              ScopeIn(t, code, b) + Defs(code[b][..Leading(code[b])]) +
                (if b == 0 then Defs(code[0][..m.zeros]) else {})
    decreases t.rank[b], 0
  {
    if (s, b) in m.phi {
      assert PhiFilled(t, code, m, b, s);
      var k: nat :| k < Leading(code[b]) && DefinedAt(code, m.phi[(s, b)], b, k);
      assert code[b][..Leading(code[b])][k] == code[b][k];
    } else if b != 0 {
      assert HasParent(t.rank, t.idom, b);
      var d: nat := t.idom[b];
      CurInParent(t, code, m, b, s);
      CurInScope(t, code, m, d, |code[d]|, s);
      ScopeEnd(t, code, d);
    }
  }

  // --------------------------------------------------------------- the slot's mirror

  /** Each slot being promoted holds the value it is said to hold. */
  ghost predicate Mirrors(t: Tree, code: Code, m: Promo, b: nat, i: nat, st: State)
    requires b < |code| && i <= |code[b]|
  {
    forall s {:trigger Cur(t, code, m, b, i, s)} | s in m.slots :: Mirrored(Cur(t, code, m, b, i, s), s, st)
  }

  ghost predicate Mirrored(cur: Option<nat>, s: nat, st: State) {
    match cur
    case None => Cell(st.cells, s) == 0
    case Some(v) => v in st.env && st.env[v] == Cell(st.cells, s)
  }

  lemma CurStep(t: Tree, code: Code, m: Promo, b: nat, i: nat, s: nat)
    requires b < |code| && i < |code[b]|
    ensures Cur(t, code, m, b, i + 1, s) ==
            if Stores(code[b][i], s) then Some(code[b][i].args[1]) else Cur(t, code, m, b, i, s)
  {
    assert code[b][..i + 1][..i] == code[b][..i];
  }

  /** One instruction. */
  lemma StepMirrors(t: Tree, c: Context, code: Code, m: Promo, b: nat, i: nat, st: State, after: State)
    requires Placed(t, code, m) && m.slots <= c.private
    requires b < |code| && t.rank[b] >= 0 && Leading(code[b]) <= i < |code[b]| && (b == 0 ==> m.zeros <= i)
    requires Mirrors(t, code, m, b, i, st)
    requires Exec(c, code[b][i], st) == Continue(after)
    ensures Mirrors(t, code, m, b, i + 1, after)
  {
    var ins := code[b][i];
    assert AccessOk(ins);
    assert BlockOk(t, code, b);
    assert InstrOk(t, code, b, i);
    forall s | s in m.slots
      ensures Mirrored(Cur(t, code, m, b, i + 1, s), s, after)
    {
      CurStep(t, code, m, b, i, s);
      assert Mirrored(Cur(t, code, m, b, i, s), s, st);
      if Stores(ins, s) {
        StoreRuns(c, ins, st, s);
      } else {
        if Cur(t, code, m, b, i, s).Some? {
          CurInScope(t, code, m, b, i, s);
        }
        if ins.dst.Some? {
          assert DefinedAt(code, ins.dst.value, b, i);
          DefNotInScope(t, code, b, i, ins.dst.value);
        }
        OtherCellsKept(c, ins, st, after, s);
      }
    }
  }

  lemma StoreRuns(c: Context, i: Instr, st: State, s: nat)
    requires Stores(i, s) && s in c.private && Exec(c, i, st).Continue?
    ensures Assigned(st.env, i.args)
    ensures Exec(c, i, st) == Continue(st.(cells := st.cells[s := st.env[i.args[1]]]))
  {
  }

  lemma OtherCellsKept(c: Context, i: Instr, st: State, after: State, s: nat)
    requires !Stores(i, s) && AccessOk(i) && Shaped(i) && s in c.private
    requires Exec(c, i, st) == Continue(after)
    ensures Cell(after.cells, s) == Cell(st.cells, s)
    ensures forall v | v in st.env && i.dst != Some(v) :: v in after.env && after.env[v] == st.env[v]
  {
  }

  /** Taking an edge. */
  lemma EnterMirrors(t: Tree, c: Context, code: Code, m: Promo, q: nat, b: nat, st: State, merged: map<nat, int>)
    requires Placed(t, code, m)
    requires b < |code| && t.rank[b] >= 0 && q in t.preds[b] && q < |code|
    requires Intact(t, c, code, q, |code[q]|, st.env) && Mirrors(t, code, m, q, |code[q]|, st)
    requires Merged(code[b][..Leading(code[b])], q, st.env, merged)
    ensures Mirrors(t, code, m, b, Leading(code[b]), st.(env := st.env + merged))
  {
    var n := Leading(code[b]);
    var after := st.(env := st.env + merged);
    forall s | s in m.slots
      ensures Mirrored(Cur(t, code, m, b, n, s), s, after)
    {
      assert Mirrored(Cur(t, code, m, q, |code[q]|, s), s, st);
      NothingStored(code[b][..n], s);
      if (s, b) in m.phi {
        PhiMirrors(t, code, m, q, b, s, st, merged);
      } else {
        InheritedMirrors(t, code, m, q, b, s, st, merged);
      }
    }
  }

  lemma PhiMirrors(t: Tree, code: Code, m: Promo, q: nat, b: nat, s: nat, st: State, merged: map<nat, int>)
    requires Placed(t, code, m) && (s, b) in m.phi && q < |code| && b < |code| && q in t.preds[b]
    requires Mirrored(CurOut(t, code, m, q, s), s, st)
    requires Merged(code[b][..Leading(code[b])], q, st.env, merged)
    ensures Mirrored(CurIn(t, code, m, b, s), s, st.(env := st.env + merged))
  {
    var n := Leading(code[b]);
    assert PhiFilled(t, code, m, b, s);
    var k: nat :| k < n && DefinedAt(code, m.phi[(s, b)], b, k) && TakesCur(t, code, m, code[b][k], s);
    assert code[b][..n][k] == code[b][k];
    MergeLookup(code[b][..n], Some(q), st.env, k);
    var e := EdgeIndex(code[b][k].from, q);
    assert CurOut(t, code, m, q, s) == Some(code[b][k].args[e]);
  }

  lemma InheritedMirrors(t: Tree, code: Code, m: Promo, q: nat, b: nat, s: nat, st: State, merged: map<nat, int>)
    requires Placed(t, code, m) && s in m.slots && (s, b) !in m.phi
    requires b < |code| && t.rank[b] >= 0 && q in t.preds[b] && q < |code|
    requires Mirrored(CurOut(t, code, m, q, s), s, st)
    requires Merged(code[b][..Leading(code[b])], q, st.env, merged)
    ensures Mirrored(CurIn(t, code, m, b, s), s, st.(env := st.env + merged))
  {
    assert EdgeInTree(t, code, q, b);
    assert b != 0;
    assert HasParent(t.rank, t.idom, b);
    SameAlongEdge(t, code, m, q, q, b, s);
    CurInParent(t, code, m, b, s);
    if CurIn(t, code, m, b, s).Some? {
      var d: nat := t.idom[b];
      CurInScope(t, code, m, d, |code[d]|, s);
      ScopeEnd(t, code, d);
      InheritedIsNotPhi(t, code, b, CurIn(t, code, m, b, s).value);
      DefsPrefix(code[b], Leading(code[b]), Leading(code[b]));
    }
  }

  lemma ZeroRuns(c: Context, i: Instr, st: State)
    requires ZeroConst(i)
    ensures Exec(c, i, st) == Continue(st.(env := st.env[i.dst.value := 0]))
  {
  }

  lemma StartMirrors(t: Tree, code: Code, m: Promo, st: State)
    requires Placed(t, code, m) && st.cells == map[]
    requires forall v | v in Defs(code[0][..m.zeros]) :: v in st.env && st.env[v] == 0
    ensures Mirrors(t, code, m, 0, m.zeros, st)
  {
    forall s | s in m.slots
      ensures Mirrored(Cur(t, code, m, 0, m.zeros, s), s, st)
    {
      forall k | 0 <= k < m.zeros
        ensures code[0][..m.zeros][k].op != Store
      {
        assert ZeroConst(code[0][k]);
      }
      NothingStored(code[0][..m.zeros], s);
    }
  }

  /** What is true before instruction `i` of `b`: in the entry, first of the zeros. */
  ghost predicate Ready(t: Tree, c: Context, code: Code, m: Promo, b: nat, i: nat, st: State)
    requires b < |code| && i <= |code[b]|
  {
    && Intact(t, c, code, b, i, st.env)
    && (if b == 0 && i < m.zeros then ZerosSoFar(code, i, st) else Mirrors(t, code, m, b, i, st))
  }

  ghost predicate ZerosSoFar(code: Code, i: nat, st: State)
    requires |code| > 0 && i <= |code[0]|
  {
    st.cells == map[] && forall v | v in Defs(code[0][..i]) :: v in st.env && st.env[v] == 0
  }

  lemma StepZero(t: Tree, c: Context, code: Code, m: Promo, i: nat, st: State, after: State)
    requires Placed(t, code, m) && i < m.zeros && ZerosSoFar(code, i, st)
    requires Exec(c, code[0][i], st) == Continue(after)
    ensures ZerosSoFar(code, i + 1, after)
  {
    assert ZeroConst(code[0][i]);
    ZeroRuns(c, code[0][i], st);
    DefsStep(code[0], i);
  }

  lemma StepReady(t: Tree, c: Context, code: Code, m: Promo, b: nat, i: nat, st: State, after: State)
    requires Placed(t, code, m) && m.slots <= c.private
    requires b < |code| && t.rank[b] >= 0 && Leading(code[b]) <= i < |code[b]|
    requires Ready(t, c, code, m, b, i, st) && Exec(c, code[b][i], st) == Continue(after)
    ensures Ready(t, c, code, m, b, i + 1, after)
  {
    StepIntact(t, c, code, b, i, st, after);
    if b == 0 && i < m.zeros {
      StepZero(t, c, code, m, i, st, after);
      if i + 1 == m.zeros {
        StartMirrors(t, code, m, after);
      }
    } else {
      StepMirrors(t, c, code, m, b, i, st, after);
    }
  }

  lemma StartReady(t: Tree, c: Context, code: Code, m: Promo, st: State)
    requires Placed(t, code, m) && st.cells == map[] && Intact(t, c, code, 0, 0, st.env)
    ensures Ready(t, c, code, m, 0, 0, st)
  {
    assert Defs(code[0][..0]) == {};
    if m.zeros == 0 {
      StartMirrors(t, code, m, st);
    }
  }

  lemma EnterReady(t: Tree, c: Context, code: Code, m: Promo, q: nat, b: nat, st: State, merged: map<nat, int>)
    requires Placed(t, code, m)
    requires 0 < b < |code| && t.rank[b] >= 0 && q in t.preds[b] && q < |code|
    requires Intact(t, c, code, q, |code[q]|, st.env) && Mirrors(t, code, m, q, |code[q]|, st)
    requires Merge(code[b][..Leading(code[b])], Some(q), st.env) == Some(merged)
    ensures Ready(t, c, code, m, b, Leading(code[b]), st.(env := st.env + merged))
  {
    EnterIntact(t, c, code, q, b, st.env);
    var same := OldMerge(t, c, code, q, b, st.env);
    EnterMirrors(t, c, code, m, q, b, st, merged);
  }
}
