/** Building SSA form: the driver, and what it guarantees. */
module BuildSsa {
  import opened Ir
  import opened Graph
  import opened Functions
  import opened Dominators
  import opened Frontiers
  import opened Semantics
  import opened SsaForm
  import opened Verify
  import opened Rewrite
  import opened Edits
  import opened DomChildren
  import opened Widening
  import opened Slots
  import opened Forwarding
  import opened Promotion
  import opened PhiPlacement
  import opened Renaming
  import opened Resolution
  import opened Assembly

  // -------------------------------------------------------------- what is promoted

  /** A slot of scalar type whose address goes nowhere but into loads and stores.
      `pointee` gives the scalar type an address points to, if it is one. */
  ghost predicate Promotable(code: Code, pointee: seq<Option<Ty>>, v: nat) {
    && v < |pointee| && pointee[v].Some?
    && forall b, i | 0 <= b < |code| && 0 <= i < |code[b]| :: !Escapes(code[b][i], v)
  }

  ghost predicate Candidate(code: Code, pointee: seq<Option<Ty>>, v: nat) {
    && |code| > 0 && Promotable(code, pointee, v)
    && exists i :: 0 <= i < |code[0]| && code[0][i].op == Alloca && code[0][i].dst == Some(v)
  }

  method IsPromotable(f: Function, pointee: seq<Option<Ty>>, v: nat) returns (r: bool)
    ensures r <==> Promotable(f.code, pointee, v)
  {
    if v >= |pointee| || pointee[v].None? {
      return false;
    }
    for b: nat := 0 to |f.code|
      invariant forall a, i | 0 <= a < b && 0 <= i < |f.code[a]| :: !Escapes(f.code[a][i], v)
    {
      for i: nat := 0 to |f.code[b]|
        invariant forall j | 0 <= j < i :: !Escapes(f.code[b][j], v)
      {
        var ins := f.code[b][i];
        for k: nat := 0 to |ins.args|
          invariant forall j | 0 <= j < k :: ins.args[j] == v ==> j == 0 && (ins.op == Load || ins.op == Store)
        {
          if ins.args[k] == v && !(k == 0 && (ins.op == Load || ins.op == Store)) {
            assert Escapes(f.code[b][i], v);
            return false;
          }
        }
      }
    }
    r := true;
  }

  /** The builder after the first `n` instructions of the entry have been considered. */
  ghost predicate Collected(code: Code, pointee: seq<Option<Ty>>, n: nat, slots: seq<nat>, promotionOf: map<nat, nat>,
      ty: seq<Ty>)
    requires |code| > 0 && n <= |code[0]|
  {
    && Indexed(slots, promotionOf) && |ty| == |slots|
    && (forall v :: v in slots <==> Promotable(code, pointee, v) && exists i ::
        0 <= i < n && code[0][i].op == Alloca && code[0][i].dst == Some(v))
    && (forall p | 0 <= p < |slots| :: slots[p] < |pointee| && pointee[slots[p]] == Some(ty[p]))
  }

  lemma CollectOne(code: Code, pointee: seq<Option<Ty>>, n: nat, slots: seq<nat>, promotionOf: map<nat, nat>,
      ty: seq<Ty>, v: nat)
    requires |code| > 0 && n < |code[0]| && UniqueDefs(code)
    requires Collected(code, pointee, n, slots, promotionOf, ty)
    requires code[0][n].op == Alloca && code[0][n].dst == Some(v) && Promotable(code, pointee, v)
    ensures Collected(code, pointee, n + 1, slots + [v], promotionOf[v := |slots|], ty + [pointee[v].value])
  {
    assert DefinedAt(code, v, 0, n);
    if v in slots {
      var i: nat :| i < n && code[0][i].op == Alloca && code[0][i].dst == Some(v);
      assert DefinedAt(code, v, 0, i);
    }
    forall u
      ensures u in slots + [v] <==>
              Promotable(code, pointee, u) && exists i ::
                0 <= i < n + 1 && code[0][i].op == Alloca && code[0][i].dst == Some(u)
    {
      assert u in slots + [v] <==> u in slots || u == v;
    }
  }

  method CollectPromotions(f: Function, bld: Builder, pointee: seq<Option<Ty>>)
    requires |f.code| > 0 && UniqueDefs(f.code)
    modifies bld
    ensures Collected(f.code, pointee, |f.code[0]|, bld.slots, bld.promotionOf, bld.ty)
    ensures |bld.phis| == |bld.stack| == |bld.undefined| == |bld.slots|
    ensures forall p | 0 <= p < |bld.phis| :: bld.phis[p] == seq(|f.code|, _ => None)
    ensures forall p | 0 <= p < |bld.phis| :: bld.stack[p] == [] && bld.undefined[p] == None
    ensures bld.zeros == [] && bld.replacement == map[]
  {
    bld.slots, bld.ty, bld.promotionOf := [], [], map[];
    for i: nat := 0 to |f.code[0]|
      invariant Collected(f.code, pointee, i, bld.slots, bld.promotionOf, bld.ty)
    {
      var ins := f.code[0][i];
      if ins.op == Alloca && ins.dst.Some? {
        var promotable := IsPromotable(f, pointee, ins.dst.value);
        if promotable {
          CollectOne(f.code, pointee, i, bld.slots, bld.promotionOf, bld.ty, ins.dst.value);
          bld.promotionOf := bld.promotionOf[ins.dst.value := |bld.slots|];
          bld.slots := bld.slots + [ins.dst.value];
          bld.ty := bld.ty + [pointee[ins.dst.value].value];
        }
      }
    }
    var none := seq(|f.code|, _ => None);
    bld.phis := seq(|bld.slots|, _ => none);
    bld.stack := seq(|bld.slots|, _ => []);
    bld.undefined := seq(|bld.slots|, _ => None);
    bld.zeros, bld.replacement := [], map[];
  }

  // ------------------------------------------------------------------ placing phis

  /** The rows done so far: each right, their values all new and different. */
  ghost predicate RowsDone(code: Code, rank: seq<int>, frontier: seq<seq<nat>>, slots: seq<nat>, ty: seq<Ty>,
      phis: seq<seq<Option<Instr>>>, n: nat, types0: seq<Ty>, types: seq<Ty>)
    requires |code| == |rank| && |slots| == |ty| == |phis| && n <= |phis|
  {
    && |types| >= |types0| && types[..|types0|] == types0
    && (forall p | 0 <= p < n :: |phis[p]| == |code|)
    && (forall p: nat, b: nat {:trigger phis[p][b]} | p < n && b < |code| ::
          && (phis[p][b].Some? <==> InIteratedFrontier(code, rank, frontier, slots[p], b))
          && (phis[p][b].Some? ==> rank[b] >= 0 && FreshPhi(phis[p][b].value, |types0|, types, ty[p])))
    && (forall p: nat, b: nat, q: nat, c: nat {:trigger phis[p][b], phis[q][c]}
          | p < n && q < n && b < |code| && c < |code| && phis[p][b].Some? && phis[q][c].Some?
            && phis[p][b].value.dst == phis[q][c].value.dst :: p == q && b == c)
  }

  ghost predicate FreshPhi(phi: Instr, low: nat, types: seq<Ty>, ty: Ty) {
    phi.dst.Some? && phi == Emit(Phi).(dst := phi.dst) && low <= phi.dst.value < |types| && types[phi.dst.value] == ty
  }

  lemma OneMoreRow(code: Code, rank: seq<int>, frontier: seq<seq<nat>>, slots: seq<nat>, ty: seq<Ty>,
      before: seq<seq<Option<Instr>>>, after: seq<seq<Option<Instr>>>, n: nat, types0: seq<Ty>, types1: seq<Ty>,
      types2: seq<Ty>)
    requires |code| == |rank| && |slots| == |ty| == |before| == |after| && n < |before|
    requires RowsDone(code, rank, frontier, slots, ty, before, n, types0, types1)
    requires after == before[n := after[n]]
    requires RowRight(code, rank, frontier, slots[n], after[n], types1, types2, ty[n])
    ensures RowsDone(code, rank, frontier, slots, ty, after, n + 1, types0, types2)
  {
    assert types2[..|types0|] == types1[..|types0|];
    assert forall v | 0 <= v < |types1| :: types2[v] == types2[..|types1|][v];
  }

  method PlaceAll(f: Function, bld: Builder)
    requires FrontierOk(f.code, f.rpoIndex, f.frontier)
    requires |bld.phis| == |bld.slots| == |bld.ty|
    requires forall p | 0 <= p < |bld.phis| :: bld.phis[p] == seq(|f.code|, _ => None)
    modifies f`types, bld`phis
    ensures |bld.phis| == |bld.slots|
    ensures RowsDone(f.code, f.rpoIndex, f.frontier, bld.slots, bld.ty, bld.phis, |bld.phis|, old(f.types), f.types)
  {
    for p: nat := 0 to |bld.slots|
      invariant |bld.phis| == |bld.slots|
      invariant RowsDone(f.code, f.rpoIndex, f.frontier, bld.slots, bld.ty, bld.phis, p, old(f.types), f.types)
      invariant forall q | p <= q < |bld.phis| :: bld.phis[q] == seq(|f.code|, _ => None)
    {
      ghost var before, types1 := bld.phis, f.types;
      PlacePhis(f, bld, p);
      OneMoreRow(f.code, f.rpoIndex, f.frontier, bld.slots, bld.ty, before, bld.phis, p, old(f.types), types1, f.types);
    }
  }

  // ---------------------------------------------------------------- describing it

  ghost predicate HasPhi(slots: seq<nat>, phis: seq<seq<Option<Instr>>>, s: nat, b: nat, v: nat) {
    exists p: nat ::
        p < |slots| && p < |phis| && b < |phis[p]| && slots[p] == s && phis[p][b].Some? &&
          phis[p][b].value.dst == Some(v)
  }

  ghost predicate Describes(m: Promo, slots: seq<nat>, ty: seq<Ty>, phis: seq<seq<Option<Instr>>>) {
    && m.zero == map[] && m.zeros == 0 && |slots| == |ty|
    && (forall s :: s in m.slots <==> s in slots)
    && (forall p | 0 <= p < |slots| :: slots[p] in m.ty && m.ty[slots[p]] == ty[p])
    && (forall s: nat, b: nat, v: nat {:trigger HasPhi(slots, phis, s, b, v)} ::
          HasPhi(slots, phis, s, b, v) ==> (s, b) in m.phi && m.phi[(s, b)] == v)
    && (forall s: nat, b: nat {:trigger (s, b) in m.phi} | (s, b) in m.phi :: HasPhi(slots, phis, s, b, m.phi[(s, b)]))
  }

  ghost function IndexIn(slots: seq<nat>, s: nat): (p: nat)
    requires s in slots
    ensures p < |slots| && slots[p] == s
  {
    var p: nat :| p < |slots| && slots[p] == s; p
  }

  lemma Describe(slots: seq<nat>, ty: seq<Ty>, phis: seq<seq<Option<Instr>>>) returns (m: Promo)
    requires |slots| == |ty| == |phis| && forall p, q | 0 <= p < q < |slots| :: slots[p] != slots[q]
    ensures Describes(m, slots, ty, phis)
  {
    var keys := set p: nat, b: nat | p < |slots| && b < |phis[p]| && phis[p][b].Some? &&
        phis[p][b].value.dst.Some? :: (slots[p], b);
    var phi := map k | k in keys :: phis[IndexIn(slots, k.0)][k.1].value.dst.value;
    m := Promo(Elements(slots), phi, map[], 0, map s | s in slots :: ty[IndexIn(slots, s)]);
    forall s: nat, b: nat, v: nat | HasPhi(slots, phis, s, b, v)
      ensures (s, b) in m.phi && m.phi[(s, b)] == v
    {
      var p: nat :| p < |slots| && p < |phis| && b < |phis[p]| && slots[p] == s && phis[p][b].Some? &&
          phis[p][b].value.dst == Some(v);
      assert (slots[p], b) in keys;
      assert IndexIn(slots, s) == p;
    }
    forall s: nat, b: nat | (s, b) in m.phi
      ensures HasPhi(slots, phis, s, b, m.phi[(s, b)])
    {
      assert (s, b) in keys;
      var p: nat :| p < |slots| && b < |phis[p]| && phis[p][b].Some? && phis[p][b].value.dst.Some? && slots[p] == s;
      assert IndexIn(slots, s) == p;
    }
  }

  /** Where the walk starts. */
  lemma WalkStarts(t: Tree, code: Code, m: Promo, types0: seq<Ty>, rank: seq<int>, frontier: seq<seq<nat>>, w: View)
    requires Ssa(t, code) && AllAccessOk(code) && |rank| == |code| && Describes(m, w.slots, w.ty, w.phis)
    requires Indexed(w.slots, w.promotionOf) && |w.slots| == |w.ty| == |w.phis| == |w.stack| == |w.undefined|
    requires RowsDone(code, rank, frontier, w.slots, w.ty, w.phis, |w.phis|, types0, w.types)
    requires forall p | 0 <= p < |w.phis| :: w.stack[p] == [] && w.undefined[p] == None
    requires w.zeros == [] && w.replacement == map[] && w.now == code
    ensures Entered(t, code, m, w.types, w, {}, 0, 0)
  {
    RowsTables(code, m, rank, frontier, w.slots, w.ty, w.phis, w.undefined, types0, w.types);
    RowsFilled(t, code, m, rank, frontier, w.slots, w.ty, w.phis, types0, w.types);
    NothingDone(code, m);
    EntryIsFirst(t, code);
    assert Defs([]) == {};
    assert forall s | s in m.slots :: s in w.slots;
  }

  lemma NothingDone(code: Code, m: Promo)
    ensures CodeDone(code, m, code, {}, 0, 0)
  {
    forall x: nat | x < |code|
      ensures BlockNow(code, m, code[x], {}, 0, 0, x)
    {
      assert code[x][..0] == [] && [] + code[x][0..] == code[x];
    }
  }

  lemma RowsTables(code: Code, m: Promo, rank: seq<int>, frontier: seq<seq<nat>>, slots: seq<nat>, ty: seq<Ty>,
      phis: seq<seq<Option<Instr>>>, undefined: seq<Option<nat>>, types0: seq<Ty>, types: seq<Ty>)
    requires |code| == |rank| && |slots| == |ty| == |phis| == |undefined| && Describes(m, slots, ty, phis)
    requires forall p, q | 0 <= p < q < |slots| :: slots[p] != slots[q]
    requires RowsDone(code, rank, frontier, slots, ty, phis, |phis|, types0, types)
    requires forall p | 0 <= p < |phis| :: undefined[p] == None
    ensures Tables(m, slots, phis, undefined, |code|)
  {
    forall p: nat, b: nat | p < |slots| && b < |code|
      ensures phis[p][b].Some? <==> (slots[p], b) in m.phi
      ensures phis[p][b].Some? ==> phis[p][b].value.op == Phi && phis[p][b].value.dst == Some(m.phi[(slots[p], b)])
    {
      if phis[p][b].Some? {
        assert FreshPhi(phis[p][b].value, |types0|, types, ty[p]);
        assert HasPhi(slots, phis, slots[p], b, phis[p][b].value.dst.value);
      }
    }
  }

  lemma RowsIds(code: Code, m: Promo, rank: seq<int>, frontier: seq<seq<nat>>, slots: seq<nat>, ty: seq<Ty>,
      phis: seq<seq<Option<Instr>>>, types0: seq<Ty>, types: seq<Ty>)
    requires |code| == |rank| && |slots| == |ty| == |phis| && Describes(m, slots, ty, phis)
    requires RowsDone(code, rank, frontier, slots, ty, phis, |phis|, types0, types)
    ensures PhiIds(m, |types0|, |types|)
    ensures PhiTypes(types, m)
  {
    forall s: nat, b: nat | (s, b) in m.phi
      ensures |types0| <= m.phi[(s, b)] < |types| && s in m.ty && TyOf(types, m.phi[(s, b)]) == m.ty[s]
    {
      assert HasPhi(slots, phis, s, b, m.phi[(s, b)]);
    }
    forall j, k | j in m.phi && k in m.phi && m.phi[j] == m.phi[k]
      ensures j == k
    {
      assert (j.0, j.1) in m.phi && (k.0, k.1) in m.phi;
      assert HasPhi(slots, phis, j.0, j.1, m.phi[j]) && HasPhi(slots, phis, k.0, k.1, m.phi[k]);
    }
  }

  lemma RowsFilled(t: Tree, code: Code, m: Promo, rank: seq<int>, frontier: seq<seq<nat>>, slots: seq<nat>,
      ty: seq<Ty>, phis: seq<seq<Option<Instr>>>, types0: seq<Ty>, types: seq<Ty>)
    requires |code| == |rank| && |slots| == |ty| == |phis|
    requires RowsDone(code, rank, frontier, slots, ty, phis, |phis|, types0, types)
    ensures PhisFilled(t, code, m, slots, phis, {}, 0, [], 0, 0)
  {
    forall q: nat, x: nat | q < |slots| && x < |phis[q]| && phis[q][x].Some?
      ensures Filled(t, code, m, slots[q], x, {}, phis[q][x].value)
      ensures !EdgeGiven([], 0, 0, x, q)
    {
      assert FreshPhi(phis[q][x].value, |types0|, types, ty[q]);
    }
  }

  // ---------------------------------------------------------------- frontier closed

  /** The analyses, as one. */
  ghost predicate Analysed(n: Numbering, idom: seq<int>, frontier: seq<seq<nat>>, t: Tree, code: Code) {
    && Numbered(n) && n.g == Flow(code) && DomTree(n, idom) && Exact(n, idom) && FrontiersExact(n, frontier)
    && t == Tree(n.rank, idom, n.preds) && TreeOf(t, code)
  }

  /** The rows are closed in the sense the renaming needs. */
  lemma RowsClosed(n: Numbering, idom: seq<int>, t: Tree, code: Code, m: Promo, frontier: seq<seq<nat>>,
      slots: seq<nat>, ty: seq<Ty>, phis: seq<seq<Option<Instr>>>, types0: seq<Ty>, types: seq<Ty>)
    requires Analysed(n, idom, frontier, t, code) && |slots| == |ty| == |phis| && Describes(m, slots, ty, phis)
    requires RowsDone(code, n.rank, frontier, slots, ty, phis, |phis|, types0, types)
    ensures PhisClosed(t, code, m)
  {
    forall s: nat, x: nat, b: nat | s in m.slots && Defines(code, m, x, s) && Meets(t, x, b)
      ensures (s, b) in m.phi
    {
      assert s in slots;
      var p := IndexIn(slots, s);
      MeetsIsFrontier(n, idom, frontier, t, code, x, b);
      MemberOfRow(code, m, n.rank, frontier, slots, ty, phis, types0, types, s, x);
      FrontierOfMember(code, n.rank, frontier, s, x, b);
      assert phis[p][b].Some?;
      assert FreshPhi(phis[p][b].value, |types0|, types, ty[p]);
      assert HasPhi(slots, phis, s, b, phis[p][b].value.dst.value);
    }
  }

  lemma MemberOfRow(code: Code, m: Promo, rank: seq<int>, frontier: seq<seq<nat>>, slots: seq<nat>, ty: seq<Ty>,
      phis: seq<seq<Option<Instr>>>, types0: seq<Ty>, types: seq<Ty>, s: nat, x: nat)
    requires |code| == |rank| && |slots| == |ty| == |phis| && Describes(m, slots, ty, phis)
    requires RowsDone(code, rank, frontier, slots, ty, phis, |phis|, types0, types)
    requires s in m.slots && Defines(code, m, x, s)
    ensures StoresTo(code, x, s) || InIteratedFrontier(code, rank, frontier, s, x)
  {
    if LastStored(code[x], s).Some? {
      var k := StoredAt(code[x], s);
    } else {
      assert HasPhi(slots, phis, s, x, m.phi[(s, x)]);
      var p: nat :| p < |slots| && x < |phis[p]| && slots[p] == s && phis[p][x].Some?;
    }
  }

  lemma MeetsIsFrontier(n: Numbering, idom: seq<int>, frontier: seq<seq<nat>>, t: Tree, code: Code, x: nat, b: nat)
    requires Analysed(n, idom, frontier, t, code)
    requires x < |code| && Meets(t, x, b)
    ensures n.rank[x] >= 0 && b < |code| && n.rank[b] >= 0 && b in frontier[x]
  {
    var q :| q in t.preds[b] && Anc(t.rank, t.idom, x, q) && !Anc(t.rank, t.idom, x, t.idom[b]);
    assert EdgeInTree(t, code, q, b);
    AncRank(t.rank, t.idom, x, q);
    assert Passed(n, idom, b, q, x);
    PassedIsFrontier(n, idom, x, b);
  }

  lemma RowsPlaced(n: Numbering, idom: seq<int>, t: Tree, code: Code, m: Promo, frontier: seq<seq<nat>>,
      slots: seq<nat>, ty: seq<Ty>, phis: seq<seq<Option<Instr>>>, types0: seq<Ty>, types: seq<Ty>)
    requires Analysed(n, idom, frontier, t, code) && |slots| == |ty| == |phis| && Describes(m, slots, ty, phis)
    requires RowsDone(code, n.rank, frontier, slots, ty, phis, |phis|, types0, types)
    ensures forall s: nat, b: nat | (s, b) in m.phi :: s in m.slots && 0 < b < |code| && t.rank[b] >= 0
  {
    forall s: nat, b: nat | (s, b) in m.phi
      ensures s in m.slots && 0 < b < |code| && t.rank[b] >= 0
    {
      assert HasPhi(slots, phis, s, b, m.phi[(s, b)]);
      var p: nat :| p < |slots| && b < |phis[p]| && slots[p] == s && phis[p][b].Some?;
      assert slots[p] in slots;
      NeverEntry(n, idom, frontier, t, code, s, b);
    }
  }

  /** Nothing leads to the entry, so it is in no iterated frontier. */
  lemma NeverEntry(n: Numbering, idom: seq<int>, frontier: seq<seq<nat>>, t: Tree, code: Code, s: nat, b: nat)
    requires Analysed(n, idom, frontier, t, code) && InIteratedFrontier(code, n.rank, frontier, s, b)
    ensures b != 0
  {
    var others := set x: nat | x < |n.rank| && n.rank[x] > 0;
    forall x: nat, y: nat | x < |code| && n.rank[x] >= 0 && y in frontier[x]
      ensures y in others
    {
      assert InFrontier(n, x, y);
      assert n.preds[0] == [] && n.rpo[0] == 0;
      assert n.rpo[n.rank[y]] == y;
    }
    assert ClosedUnderFrontier(code, n.rank, frontier, s, others);
  }

  // ------------------------------------------------------------- putting it together

  /** The phis of one block, linked in front of it. */
  method LinkPhis(f: Function, bld: Builder, b: nat)
    requires 0 < b < |f.code| && forall p | 0 <= p < |bld.phis| :: b < |bld.phis[p]|
    modifies f`code
    ensures f.code == old(f.code)[b := FrontBlock(bld.phis, b, |bld.phis|) + old(f.code)[b]]
  {
    assert FrontBlock(bld.phis, b, 0) + f.code[b] == f.code[b];
    assert f.code[b := f.code[b]] == f.code;
    for p: nat := 0 to |bld.phis|
      invariant f.code == old(f.code)[b := FrontBlock(bld.phis, b, p) + old(f.code)[b]]
    {
      if bld.phis[p][b].Some? {
        f.code := f.code[b := [bld.phis[p][b].value] + f.code[b]];
        assert [bld.phis[p][b].value] + (FrontBlock(bld.phis, b, p) + old(f.code)[b]) ==
               FrontBlock(bld.phis, b, p + 1) + old(f.code)[b];
      } else {
        assert FrontBlock(bld.phis, b, p + 1) == FrontBlock(bld.phis, b, p);
      }
    }
  }

  /** All that was emitted in front, linked in. */
  method LinkFront(f: Function, bld: Builder)
    requires |f.code| > 0 && forall p | 0 <= p < |bld.phis| :: |bld.phis[p]| == |f.code|
    modifies f`code
    ensures f.code == Inserted(Front(bld.phis, bld.zeros, |old(f.code)|), old(f.code))
  {
    ghost var start := f.code;
    ghost var front := Front(bld.phis, bld.zeros, |start|);
    f.code := f.code[0 := bld.zeros + f.code[0]];
    for b: nat := 1 to |f.code|
      invariant |f.code| == |start|
      invariant forall a | 0 <= a < |start| :: f.code[a] == if a < b then front[a] + start[a] else start[a]
    {
      LinkPhis(f, bld, b);
    }
  }

  /** Removing the instructions that define some values, and nothing else. */
  function Without(values: set<nat>): Plan {
    Plan(values, {}, map[])
  }

  lemma {:induction false} WithoutMore(values: set<nat>, v: nat, block: Block)
    ensures RewriteBlock(Without({v}), RewriteBlock(Without(values), block)) ==
        RewriteBlock(Without(values + {v}), block)
    decreases |block|
  {
    if block != [] {
      WithoutMore(values, v, block[1..]);
      RenameNothingGone(values, block[0]);
      RenameNothingGone({v}, block[0]);
      RenameNothingGone(values + {v}, block[0]);
      RewriteHead(Without({v}), block[0], RewriteBlock(Without(values), block[1..]));
      if Dropped(Without(values), block[0]) {
        assert RewriteBlock(Without(values), block) == RewriteBlock(Without(values), block[1..]);
      }
    }
  }

  lemma RenameNothingGone(values: set<nat>, i: Instr)
    ensures Rename(Without(values), i) == i
  {
    assert NamesFor(Without(values), i.args) == i.args;
  }

  lemma {:induction false} WithoutNothing(block: Block)
    ensures RewriteBlock(Without({}), block) == block
    decreases |block|
  {
    if block != [] {
      WithoutNothing(block[1..]);
      RenameNothingGone({}, block[0]);
    }
  }

  ghost predicate HasDef(code: Code, v: nat) {
    exists b: nat, i: nat :: DefinedAt(code, v, b, i)
  }

  method RemoveAllocas(f: Function, slots: seq<nat>)
    requires UniqueDefs(f.code) && forall p, q | 0 <= p < q < |slots| :: slots[p] != slots[q]
    requires forall p | 0 <= p < |slots| :: HasDef(f.code, slots[p])
    modifies f`code
    ensures f.code == RewriteCode(Without(Elements(slots)), old(f.code))
  {
    ghost var start := f.code;
    AllStay(start);
    for p: nat := 0 to |slots|
      invariant f.code == RewriteCode(Without(Elements(slots[..p])), start)
    {
      ghost var before := f.code;
      StillThere(start, slots, p);
      RewriteUnique(Without(Elements(slots[..p])), start);
      var b, i, found := FindDef(f.code, slots[p]);
      RemoveOne(before, slots[p], b, i);
      Remove(f, b, i);
      OneMoreGone(start, slots, p);
    }
    assert slots[..|slots|] == slots;
  }

  lemma AllStay(code: Code)
    ensures RewriteCode(Without(Elements([])), code) == code
  {
    assert Elements([]) == {};
    forall b | 0 <= b < |code|
      ensures RewriteBlock(Without({}), code[b]) == code[b]
    {
      WithoutNothing(code[b]);
    }
  }

  lemma RemoveOne(code: Code, v: nat, b: nat, i: nat)
    requires UniqueDefs(code) && DefinedAt(code, v, b, i)
    ensures Removed(code, b, i) == RewriteCode(Without({v}), code)
  {
    DropOne(Without({v}), code, v, b, i);
    AllStay(code);
    assert Elements([]) == {};
  }

  lemma OneMoreGone(code: Code, slots: seq<nat>, p: nat)
    requires p < |slots|
    ensures RewriteCode(Without({slots[p]}), RewriteCode(Without(Elements(slots[..p])), code)) ==
            RewriteCode(Without(Elements(slots[..p + 1])), code)
  {
    assert slots[..p + 1] == slots[..p] + [slots[p]];
    assert Elements(slots[..p + 1]) == Elements(slots[..p]) + {slots[p]};
    forall b | 0 <= b < |code|
      ensures RewriteBlock(Without({slots[p]}), RewriteBlock(Without(Elements(slots[..p])), code[b])) ==
              RewriteBlock(Without(Elements(slots[..p + 1])), code[b])
    {
      WithoutMore(Elements(slots[..p]), slots[p], code[b]);
    }
  }

  lemma StillThere(code: Code, slots: seq<nat>, p: nat)
    requires UniqueDefs(code) && p < |slots| && forall i, j | 0 <= i < j < |slots| :: slots[i] != slots[j]
    requires HasDef(code, slots[p])
    ensures HasDef(RewriteCode(Without(Elements(slots[..p])), code), slots[p])
  {
    var b: nat, i: nat :| DefinedAt(code, slots[p], b, i);
    var k := DefSurvives(Without(Elements(slots[..p])), code, slots[p], b, i);
  }

  // ---------------------------------------------------------- the edits, as one plan

  function Resolving(sub: map<nat, nat>): Plan {
    Plan({}, {}, sub)
  }

  lemma {:induction false} ThreeSteps(slots: set<nat>, sub: map<nat, nat>, block: Block)
    requires SlotsUnresolved(slots, sub)
    ensures RewriteBlock(Without(slots),
        RewriteBlock(Resolving(sub), RewriteBlock(Plan(sub.Keys, slots, map[]), block))) ==
            RewriteBlock(FullPlan(slots, sub), block)
    decreases |block|
  {
    if block != [] {
      var first := Plan(sub.Keys, slots, map[]);
      var i := block[0];
      ThreeSteps(slots, sub, block[1..]);
      assert NamesFor(first, i.args) == i.args;
      if !Dropped(first, i) {
        var j, rest := Rename(Resolving(sub), i), RewriteBlock(first, block[1..]);
        assert RewriteBlock(first, block) == [i] + rest;
        RewriteHead(Resolving(sub), i, rest);
        RewriteHead(Without(slots), j, RewriteBlock(Resolving(sub), rest));
        RenameNothingGone(slots, j);
        assert NamesFor(FullPlan(slots, sub), i.args) == NamesFor(Resolving(sub), i.args);
      } else {
        assert RewriteBlock(first, block) == RewriteBlock(first, block[1..]);
        assert Dropped(FullPlan(slots, sub), i);
      }
    }
  }

  // ------------------------------------------------------------------ the walk's end

  lemma WalkEnds(n: Numbering, idom: seq<int>, t: Tree, code: Code, m: Promo, m': Promo, frontier: seq<seq<nat>>,
      phis: seq<seq<Option<Instr>>>, types0: seq<Ty>, base: seq<Ty>, w: View)
    requires Analysed(n, idom, frontier, t, code) && Ssa(t, code) && AllAccessOk(code) && ValuesBelow(code, |types0|)
    requires |w.slots| == |w.ty| == |phis| && Describes(m, w.slots, w.ty, phis)
    requires RowsDone(code, n.rank, frontier, w.slots, w.ty, phis, |phis|, types0, base)
    requires Between(t, code, m', base, w, {} + Subtree(t, 0)) && NoZeros(m') == NoZeros(m)
    ensures Walked(t, code, m', types0, base, w) && PhiTypes(base, m')
    ensures w.now == RewriteCode(Removal(code, m'), code)
    ensures m'.slots == m.slots && m'.ty == m.ty
  {
    assert m'.slots == NoZeros(m').slots && m'.phi == NoZeros(m').phi && m'.ty == NoZeros(m').ty;
    WholeTree(t, code);
    assert {} + Subtree(t, 0) == ReachableBlocks(t);
    RowsIds(code, m, n.rank, frontier, w.slots, w.ty, phis, types0, base);
    RowsPlaced(n, idom, t, code, m, frontier, w.slots, w.ty, phis, types0, base);
    RowsClosed(n, idom, t, code, m, frontier, w.slots, w.ty, phis, types0, base);
    ClosedSame(t, code, m, m');
    CodeFinished(t, code, m', w.now);
  }

  lemma ClosedSame(t: Tree, code: Code, m: Promo, m': Promo)
    requires PhisClosed(t, code, m) && m'.slots == m.slots && m'.phi == m.phi
    ensures PhisClosed(t, code, m')
  {
    forall s: nat, x: nat, b: nat | s in m'.slots && Defines(code, m', x, s) && Meets(t, x, b)
      ensures (s, b) in m'.phi
    {
      assert Defines(code, m, x, s);
    }
  }

  lemma CodeFinished(t: Tree, code: Code, m: Promo, now: Code)
    requires Ssa(t, code) && CodeDone(code, m, now, ReachableBlocks(t), 0, 0)
    ensures now == RewriteCode(Removal(code, m), code)
  {
    forall b: nat | b < |code|
      ensures now[b] == RewriteBlock(Removal(code, m), code[b])
    {
      assert BlockNow(code, m, now[b], ReachableBlocks(t), 0, 0, b);
      assert code[b] == [] || b in ReachableBlocks(t);
      EntryIsFirst(t, code);
    }
  }

  // -------------------------------------------------------------------- the edits

  /** The walk removes exactly the loads it has replacements for. */
  lemma RemovalIs(t: Tree, code: Code, m: Promo, types0: seq<Ty>, base: seq<Ty>, w: View)
    requires Walked(t, code, m, types0, base, w)
    ensures Removal(code, m) == Plan(w.replacement.Keys, m.slots, map[])
  {
    var gone := Removal(code, m).gone;
    forall v | v in gone
      ensures v in w.replacement
    {
      var b: nat, i: nat :| b < |code| && i < |code[b]| && Reads(m, code[b][i]) && code[b][i].dst.Some? &&
          code[b][i].dst.value == v;
      OldLoadReplaced(t, code, m, types0, base, w, b, i);
    }
    forall v | v in w.replacement
      ensures v in gone
    {
      assert ReplacedLoad(code, m, ReachableBlocks(t), 0, 0, v);
      var x: nat, j: nat :| DefinedAt(code, v, x, j) && Reads(m, code[x][j]) && Past(ReachableBlocks(t), 0, 0, x, j);
    }
  }

  /** What was emitted in front is not removed. */
  lemma FrontUntouched(t: Tree, code: Code, m: Promo, types0: seq<Ty>, base: seq<Ty>, w: View, b: nat)
    requires Walked(t, code, m, types0, base, w) && b < |code|
    ensures RewriteBlock(Removal(code, m), FrontFor(code, w)[b]) == FrontFor(code, w)[b]
  {
    var p, front := Removal(code, m), FrontFor(code, w)[b];
    forall k: nat | k < |front|
      ensures !Dropped(p, front[k]) && Rename(p, front[k]) == front[k]
    {
      WalkedNoStores(t, code, m, types0, base, w);
      InFront(FrontFor(code, w), code, b, k);
      GoneIsOld(code, m, |types0|);
      if front[k].dst.Some? {
        assert DefinedAt(Inserted(FrontFor(code, w), code), front[k].dst.value, b, k);
        NewOrOld(t, code, m, types0, base, w, front[k].dst.value, b, k);
      }
      assert NamesFor(p, front[k].args) == front[k].args;
    }
    RewriteKeepsAll(p, front);
  }

  lemma GoneIsOld(code: Code, m: Promo, limit: nat)
    requires ValuesBelow(code, limit)
    ensures forall v | v in Removal(code, m).gone :: v < limit
  {
    forall v | v in Removal(code, m).gone
      ensures v < limit
    {
      var b: nat, i: nat :| b < |code| && i < |code[b]| && Reads(m, code[b][i]) && code[b][i].dst.Some? &&
          code[b][i].dst.value == v;
      assert Below(code[b][i], limit);
    }
  }

  /** Linking the front in after the walk is linking it in before. */
  lemma LinkedIs(t: Tree, code: Code, m: Promo, types0: seq<Ty>, base: seq<Ty>, w: View)
    requires Walked(t, code, m, types0, base, w)
    ensures Inserted(FrontFor(code, w), RewriteCode(Removal(code, m), code)) ==
        RewriteCode(Removal(code, m), Code1(code, w))
  {
    var p := Removal(code, m);
    forall b: nat | b < |code|
      ensures FrontFor(code, w)[b] + RewriteBlock(p, code[b]) == RewriteBlock(p, FrontFor(code, w)[b] + code[b])
    {
      FrontUntouched(t, code, m, types0, base, w, b);
      RewriteAppend(p, FrontFor(code, w)[b], code[b]);
    }
  }

  /** All the edits together. */
  lemma EditsAre(t: Tree, code: Code, m: Promo, types0: seq<Ty>, base: seq<Ty>, w: View, sub: map<nat, nat>)
    requires Walked(t, code, m, types0, base, w) && sub.Keys == w.replacement.Keys && SlotsUnresolved(m.slots, sub)
    ensures RewriteCode(Without(m.slots),
        RewriteCode(Resolving(sub), Inserted(FrontFor(code, w), RewriteCode(Removal(code, m), code)))) ==
            RewriteCode(FullPlan(m.slots, sub), Code1(code, w))
  {
    LinkedIs(t, code, m, types0, base, w);
    RemovalIs(t, code, m, types0, base, w);
    forall b: nat | b < |code|
      ensures RewriteBlock(Without(m.slots),
          RewriteBlock(Resolving(sub), RewriteBlock(Plan(sub.Keys, m.slots, map[]), Code1(code, w)[b]))) ==
              RewriteBlock(FullPlan(m.slots, sub), Code1(code, w)[b])
    {
      ThreeSteps(m.slots, sub, Code1(code, w)[b]);
    }
  }

  /** The slots are still there to be removed. */
  lemma SlotsRemain(t: Tree, code: Code, m: Promo, types0: seq<Ty>, base: seq<Ty>, w: View, sub: map<nat, nat>,
      now: Code)
    requires Walked(t, code, m, types0, base, w)
    requires now == RewriteCode(Resolving(sub), Inserted(FrontFor(code, w), RewriteCode(Removal(code, m), code)))
    requires forall s | s in m.slots :: IsSlot(code, s)
    ensures UniqueDefs(now) && forall s | s in m.slots :: HasDef(now, s)
  {
    LinkedIs(t, code, m, types0, base, w);
    InsertedUnique(t, code, m, types0, base, w);
    RewriteUnique(Removal(code, m), Code1(code, w));
    RewriteUnique(Resolving(sub), RewriteCode(Removal(code, m), Code1(code, w)));
    forall s | s in m.slots
      ensures HasDef(now, s)
    {
      assert IsSlot(code, s);
      var b: nat, i: nat :| b < |code| && i < |code[b]| && code[b][i].op == Alloca && code[b][i].dst == Some(s);
      SlotSurvives(t, code, m, types0, base, w, sub, b, i);
    }
  }

  lemma SlotSurvives(t: Tree, code: Code, m: Promo, types0: seq<Ty>, base: seq<Ty>, w: View, sub: map<nat, nat>,
      b: nat, i: nat)
    requires Walked(t, code, m, types0, base, w)
    requires b < |code| && i < |code[b]| && code[b][i].op == Alloca && code[b][i].dst.Some?
    ensures HasDef(RewriteCode(Resolving(sub), RewriteCode(Removal(code, m), Code1(code, w))), code[b][i].dst.value)
  {
    var p, r := Removal(code, m), Code1(code, w);
    var i1 := |FrontFor(code, w)[b]| + i;
    InFront(FrontFor(code, w), code, b, i1);
    RemovalDrops(code, m, b, i);
    var k := DefSurvives(p, r, code[b][i].dst.value, b, i1);
    var k2 := DefSurvives(Resolving(sub), RewriteCode(p, r), code[b][i].dst.value, b, k);
  }

  lemma DefSurvives(p: Plan, code: Code, v: nat, b: nat, i: nat) returns (k: nat)
    requires DefinedAt(code, v, b, i) && !Dropped(p, code[b][i])
    ensures DefinedAt(RewriteCode(p, code), v, b, k) && RewriteCode(p, code)[b][k].op == code[b][i].op
  {
    k := Survives(p, code[b], i);
    OriginIs(p, code[b], k);
  }

  // ------------------------------------------------------------------------ driver

  /** Loads and stores through an address have the width of what it points to: the front end
      converts where they differ. */
  ghost predicate PointeeTypes(types: seq<Ty>, code: Code, pointee: seq<Option<Ty>>) {
    forall b: nat, i: nat {:trigger TypedAccess(types, code[b][i], pointee)} | b < |code| && i < |code[b]| ::
      TypedAccess(types, code[b][i], pointee)
  }

  ghost predicate TypedAccess(types: seq<Ty>, i: Instr, pointee: seq<Option<Ty>>) {
    && (i.op == Store && |i.args| == 2 && i.args[0] < |pointee| && pointee[i.args[0]].Some? ==>
          Wide(types, i.args[1]) == WidthOf(pointee[i.args[0]].value))
    && (i.op == Load && |i.args| == 1 && i.args[0] < |pointee| && pointee[i.args[0]].Some? && i.dst.Some? ==>
          Wide(types, i.dst.value) == WidthOf(pointee[i.args[0]].value))
  }

  ghost predicate AllocasPlain(code: Code) {
    forall b, i {:trigger code[b][i]} | 0 <= b < |code| && 0 <= i < |code[b]| && code[b][i].op == Alloca ::
        code[b][i].args == []
  }

  lemma CandidatesOk(code: Code, types: seq<Ty>, pointee: seq<Option<Ty>>, slots: seq<nat>,
      promotionOf: map<nat, nat>, ty: seq<Ty>, phis: seq<seq<Option<Instr>>>, m: Promo)
    requires |code| > 0 && UniqueDefs(code) && AllocasPlain(code) && PointeeTypes(types, code, pointee)
    requires Collected(code, pointee, |code[0]|, slots, promotionOf, ty) && Describes(m, slots, ty, phis)
    ensures forall s | s in m.slots :: IsSlot(code, s) && Candidate(code, pointee, s)
    ensures AllSlotUse(m.slots, code) && SlotTypes(types, code, m)
  {
    forall s | s in m.slots
      ensures IsSlot(code, s) && Candidate(code, pointee, s)
    {
      assert s in slots;
    }
    forall b: nat, i: nat | b < |code| && i < |code[b]|
      ensures SlotUse(m.slots, code[b][i])
    {
      CandidateUse(code, pointee, m.slots, b, i);
    }
    forall s: nat | s in m.slots
      ensures s < |pointee| && s in m.ty && pointee[s] == Some(m.ty[s])
    {
      assert s in slots;
      var p := IndexIn(slots, s);
    }
    forall s: nat, b: nat, i: nat | s in m.slots && b < |code| && i < |code[b]| && Stores(code[b][i], s)
      ensures s in m.ty && Wide(types, code[b][i].args[1]) == WidthOf(m.ty[s])
    {
      assert TypedAccess(types, code[b][i], pointee);
    }
    forall b: nat, i: nat | b < |code| && i < |code[b]| && Reads(m, code[b][i]) && code[b][i].dst.Some?
      ensures code[b][i].args[0] in m.ty && Wide(types, code[b][i].dst.value) == WidthOf(m.ty[code[b][i].args[0]])
    {
      assert TypedAccess(types, code[b][i], pointee);
    }
  }

  lemma CandidateUse(code: Code, pointee: seq<Option<Ty>>, slots: set<nat>, b: nat, i: nat)
    requires |code| > 0 && UniqueDefs(code) && AllocasPlain(code) && b < |code| && i < |code[b]|
    requires forall s | s in slots :: Candidate(code, pointee, s)
    ensures SlotUse(slots, code[b][i])
  {
    var ins := code[b][i];
    forall k | 0 <= k < |ins.args| && ins.args[k] in slots
      ensures k == 0 && (ins.op == Load || ins.op == Store)
    {
      assert Candidate(code, pointee, ins.args[k]);
      assert !Escapes(code[b][i], ins.args[k]);
    }
    if ins.dst.Some? && ins.dst.value in slots {
      assert Candidate(code, pointee, ins.dst.value);
      var j: nat :| j < |code[0]| && code[0][j].op == Alloca && code[0][j].dst == Some(ins.dst.value);
      assert DefinedAt(code, ins.dst.value, 0, j) && DefinedAt(code, ins.dst.value, b, i);
    }
  }

  /** What one invocation shows, before and after. */
  ghost predicate PromotionAgrees(types: seq<Ty>, code: Code, types': seq<Ty>, code': Code, slots: set<nat>,
      c: Context, world: World, n: nat) {
    c.types == types && slots <= c.private && Secluded(c, code) && OwnSlots(c, code) ==>
      Observe(Run(Promoted(c, types', slots), code', world, n)) == Observe(Run(c, code, world, n))
  }

  /** On every machine, every arguments and initial world, whatever else is private. */
  ghost predicate PromotionPreserves(types: seq<Ty>, code: Code, types': seq<Ty>, code': Code, slots: set<nat>) {
    forall c: Context, world: World,
        n: nat {:trigger PromotionAgrees(types, code, types', code', slots, c, world, n)} ::
      PromotionAgrees(types, code, types', code', slots, c, world, n)
  }

  /** Nothing mentions the slots any more. */
  ghost predicate NoSlotLeft(slots: set<nat>, code: Code) {
    forall b, i {:trigger Unmentioned(slots, code[b][i])} | 0 <= b < |code| && 0 <= i < |code[b]| ::
        Unmentioned(slots, code[b][i])
  }

  ghost predicate Unmentioned(slots: set<nat>, i: Instr) {
    && (forall k | 0 <= k < |i.args| :: i.args[k] !in slots)
    && (i.dst.Some? ==> i.dst.value !in slots)
  }

  lemma SlotsGone(slots: set<nat>, sub: map<nat, nat>, code: Code)
    requires AllSlotUse(slots, code) && AllAccessOk(code) && SlotsUnresolved(slots, sub)
    requires forall b: nat, i: nat {:trigger code[b][i]} | b < |code| && i < |code[b]| && code[b][i].op == Load &&
        |code[b][i].args| == 1 &&
               code[b][i].args[0] in slots && code[b][i].dst.Some? :: code[b][i].dst.value in sub
    ensures NoSlotLeft(slots, RewriteCode(FullPlan(slots, sub), code))
  {
    var p := FullPlan(slots, sub);
    var out := RewriteCode(p, code);
    forall b: nat, k: nat | b < |out| && k < |out[b]|
      ensures Unmentioned(slots, out[b][k])
    {
      OriginIs(p, code[b], k);
      var i := Origin(p, code[b], k);
      assert SlotUse(slots, code[b][i]) && AccessOk(code[b][i]);
    }
  }

  /** What promotion promises of the new body. */
  ghost predicate PromotedTo(t: Tree, types0: seq<Ty>, code: Code, types: seq<Ty>, out: Code, slots: set<nat>) {
    match t
    case Tree(_, _, _) =>
      && Ssa(t, out) && PromotionPreserves(types0, code, types, out, slots) && NoSlotLeft(slots, out)
      && (WellBuilt(code) ==> WellBuilt(out))
  }

  /** The result, from the state the walk ended in. */
  lemma Finished(t: Tree, code: Code, m: Promo, types0: seq<Ty>, base: seq<Ty>, w: View, out: Code)
    requires Walked(t, code, m, types0, base, w) && AllSlotUse(m.slots, code)
    requires forall s | s in m.slots :: IsSlot(code, s)
    requires SlotTypes(types0, code, m) && PhiTypes(base, m)
    requires Acyclic(t, Code1(code, w), w.replacement)
    requires out == RewriteCode(Without(m.slots), RewriteCode(Resolving(Resolutions(t, Code1(code, w), w.replacement)),
                                                              Inserted(FrontFor(code, w),
                                                                RewriteCode(Removal(code, m), code))))
    ensures PromotedTo(t, types0, code, w.types, out, m.slots)
  {
    var sub := Resolutions(t, Code1(code, w), w.replacement);
    WalkedRenamed(t, code, m, types0, base, w);
    NoSlotStored(t, code, m, types0, base, w);
    Unresolved(t, w.types, Code1(code, w), Promo1(m, w), sub);
    EditsAre(t, code, m, types0, base, w, sub);
    WalkedPreserves(t, code, m, types0, base, w, out);
    if WellBuilt(code) {
      RewrittenWellBuilt(t, code, m, types0, base, w, FullPlan(m.slots, sub));
    }
    assert Placed(t, Code1(code, w), Promo1(m, w));
    forall b: nat, i: nat | b < |Code1(code, w)| && i < |Code1(code, w)[b]| && Reads(m, Code1(code, w)[b][i])
      ensures Code1(code, w)[b][i].dst.Some? && Code1(code, w)[b][i].dst.value in sub
    {
      LoadReplaced(t, code, m, types0, base, w, b, i);
    }
    SlotsGone(m.slots, sub, Code1(code, w));
  }

  /** Every instruction has its number of operands and its result, as it was built. */
  ghost predicate WellBuilt(code: Code) {
    forall b: nat, i: nat {:trigger BuiltInstr(code[b][i])} | b < |code| && i < |code[b]| :: BuiltInstr(code[b][i])
  }

  ghost predicate BuiltInstr(i: Instr) {
    ArityOk(i) && ResultOk(i)
  }

  /** Built like that, except that a phi may still lack edges. */
  ghost predicate BuiltButEdges(i: Instr) {
    if i.op == Phi then i.dst.Some? else BuiltInstr(i)
  }

  /** What is in front is built like that too. */
  lemma FrontWellBuilt(t: Tree, code: Code, m: Promo, types0: seq<Ty>, base: seq<Ty>, w: View, b: nat, i: nat)
    requires Walked(t, code, m, types0, base, w) && WellBuilt(code)
    requires b < |code| && i < |Code1(code, w)[b]|
    ensures BuiltButEdges(Code1(code, w)[b][i])
  {
    var front := FrontFor(code, w);
    InFront(front, code, b, i);
    if i >= |front[b]| {
      assert BuiltInstr(code[b][i - |front[b]|]);
    } else if b == 0 {
      assert ZeroConst(w.zeros[i]);
    } else {
      var p := FrontPhi(t, code, m, types0, base, w, b, i);
    }
  }

  /** Single assignment form gives a phi as many edges as operands. */
  lemma RenamedWellBuilt(t: Tree, out: Code, b: nat, k: nat, p: Plan, i: Instr)
    requires Ssa(t, out) && b < |out| && k < |out[b]| && out[b][k] == Rename(p, i) && BuiltButEdges(i)
    ensures BuiltInstr(out[b][k])
  {
    assert BlockOk(t, out, b);
    assert InstrOk(t, out, b, k);
  }

  lemma RewrittenWellBuilt(t: Tree, code: Code, m: Promo, types0: seq<Ty>, base: seq<Ty>, w: View, p: Plan)
    requires Walked(t, code, m, types0, base, w) && WellBuilt(code) && Ssa(t, RewriteCode(p, Code1(code, w)))
    ensures WellBuilt(RewriteCode(p, Code1(code, w)))
  {
    var now := Code1(code, w);
    forall b: nat, i: nat | b < |now| && i < |now[b]|
      ensures BuiltButEdges(now[b][i])
    {
      FrontWellBuilt(t, code, m, types0, base, w, b, i);
    }
    AllWellBuilt(t, now, p);
  }

  lemma AllWellBuilt(t: Tree, now: Code, p: Plan)
    requires Ssa(t, RewriteCode(p, now))
    requires forall b: nat, i: nat {:trigger BuiltButEdges(now[b][i])} | b < |now| && i < |now[b]| ::
               BuiltButEdges(now[b][i])
    ensures WellBuilt(RewriteCode(p, now))
  {
    var out := RewriteCode(p, now);
    forall b: nat, k: nat | b < |out| && k < |out[b]|
      ensures BuiltInstr(out[b][k])
    {
      OriginIs(p, now[b], k);
      RenamedWellBuilt(t, out, b, k, p, now[b][Origin(p, now[b], k)]);
    }
  }

  /** A body in single assignment form passes the checks exactly when it is built like that. */
  lemma WellBuiltIsAccepted(t: Tree, code: Code)
    requires Ssa(t, code) && PredsListed(t)
    ensures WellBuilt(code) <==> Built(t, code) && Accepts(t, code)
  {
    if WellBuilt(code) {
      forall b, i | 0 <= b < |code| && 0 <= i < |code[b]|
        ensures ResultOk(code[b][i]) && ArityOk(code[b][i])
      {
        assert BuiltInstr(code[b][i]);
      }
      SsaIsAccepted(t, code);
    } else if Built(t, code) && Accepts(t, code) {
      forall b: nat, i: nat | b < |code| && i < |code[b]|
        ensures BuiltInstr(code[b][i])
      {
        assert BlockAccepted(t, code, b);
        assert InstrAccepted(t, code, b, i);
      }
    }
  }

  lemma NoSlotStored(t: Tree, code: Code, m: Promo, types0: seq<Ty>, base: seq<Ty>, w: View)
    requires Walked(t, code, m, types0, base, w) && AllSlotUse(m.slots, code)
    requires forall s | s in m.slots :: IsSlot(code, s)
    ensures AllSources(Code1(code, w), Promo1(m, w), (s: nat, v: nat) => v !in m.slots)
  {
    SlotsBelow(code, m, |types0|);
    StoredNotSlot(code, m);
    SourcesFrom(t, code, m, types0, base, w, m.slots);
    SourcesShift(t, code, m, types0, base, w, (s: nat, v: nat) => v !in m.slots);
  }

  lemma WalkedPreserves(t: Tree, code: Code, m: Promo, types0: seq<Ty>, base: seq<Ty>, w: View, out: Code)
    requires Walked(t, code, m, types0, base, w) && AllSlotUse(m.slots, code)
    requires forall s | s in m.slots :: IsSlot(code, s)
    requires SlotTypes(types0, code, m) && PhiTypes(base, m)
    requires Acyclic(t, Code1(code, w), w.replacement)
    requires out == RewriteCode(FullPlan(m.slots, Resolutions(t, Code1(code, w), w.replacement)), Code1(code, w))
    ensures Ssa(t, out) && PromotionPreserves(types0, code, w.types, out, m.slots)
  {
    var c0 := Context(Machine((e, vals) => None, (e, vals, world) => None, (e, vals, world) => None, v => 0), types0,
        m.slots, []);
    forall c: Context, world: World, n: nat
      ensures PromotionAgrees(types0, code, w.types, out, m.slots, c, world, n)
    {
      if c.types == types0 && m.slots <= c.private && Secluded(c, code) && OwnSlots(c, code) {
        PromotionPreservesRuns(t, c, code, m, types0, base, w, world, n);
      }
    }
    SlotsSecluded(c0, code, m);
    PromotionPreservesRuns(t, c0, code, m, types0, base, w, World(map[], []), 0);
  }

  lemma SlotsSecluded(c: Context, code: Code, m: Promo)
    requires c.private == m.slots && AllSlotUse(m.slots, code) && forall s | s in m.slots :: IsSlot(code, s)
    ensures Secluded(c, code) && OwnSlots(c, code)
  {
    forall b, i | 0 <= b < |code| && 0 <= i < |code[b]| && code[b][i].dst.Some? && code[b][i].dst.value in c.private
      ensures code[b][i].op == Alloca
    {
      assert SlotUse(m.slots, code[b][i]);
    }
    forall b, i, v | 0 <= b < |code| && 0 <= i < |code[b]| && v in c.private
      ensures !Escapes(code[b][i], v)
    {
      assert SlotUse(m.slots, code[b][i]);
    }
  }

  lemma NothingPromoted(types: seq<Ty>, code: Code)
    ensures PromotionPreserves(types, code, types, code, {}) && NoSlotLeft({}, code)
  {
    forall c: Context, world: World, n: nat
      ensures PromotionAgrees(types, code, types, code, {}, c, world, n)
    {
      assert c.private - {} == c.private;
      assert c.types == types ==> Promoted(c, types, {}) == c;
    }
  }

  lemma FrontiersUsable(n: Numbering, idom: seq<int>, frontier: seq<seq<nat>>, t: Tree, code: Code)
    requires Analysed(n, idom, frontier, t, code)
    ensures FrontierOk(code, n.rank, frontier)
  {
    forall x: nat, y: nat | x < |frontier| && n.rank[x] >= 0 && y in frontier[x]
      ensures y < |code| && n.rank[y] >= 0
    {
      assert InFrontier(n, x, y);
    }
  }

  lemma CandidatesAre(code: Code, pointee: seq<Option<Ty>>, slots: seq<nat>, promotionOf: map<nat, nat>, ty: seq<Ty>)
    requires |code| > 0 && Collected(code, pointee, |code[0]|, slots, promotionOf, ty)
    ensures forall v :: v in slots <==> Candidate(code, pointee, v)
  {
  }

  /** The walk over the whole tree. */
  method RenameAll(f: Function, bld: Builder, ghost n: Numbering, ghost t: Tree, ghost code: Code, ghost m: Promo,
      ghost types0: seq<Ty>)
    returns (ghost m': Promo)
    requires Analysed(n, f.idom, f.frontier, t, code) && t == TreeFor(f) && f.code == code
    requires Ssa(t, code) && AllAccessOk(code) && ValuesBelow(code, |types0|)
    requires Indexed(bld.slots, bld.promotionOf)
    requires |bld.slots| == |bld.ty| == |bld.phis| == |bld.stack| == |bld.undefined|
    requires Describes(m, bld.slots, bld.ty, bld.phis)
    requires RowsDone(code, n.rank, f.frontier, bld.slots, bld.ty, bld.phis, |bld.phis|, types0, f.types)
    requires forall p | 0 <= p < |bld.phis| :: bld.stack[p] == [] && bld.undefined[p] == None
    requires bld.zeros == [] && bld.replacement == map[]
    modifies f`code, f`types, bld`undefined, bld`zeros, bld`replacement, bld`stack, bld`phis
    ensures Walked(t, code, m', types0, old(f.types), ViewOf(f, bld)) && PhiTypes(old(f.types), m')
    ensures f.code == RewriteCode(Removal(code, m'), code) && m'.slots == m.slots && m'.ty == m.ty
  {
    ghost var base, phis := f.types, bld.phis;
    var children := BuildChildren(f);
    WalkStarts(t, code, m, types0, n.rank, f.frontier, ViewOf(f, bld));
    m' := RenameBlock(f, bld, children, t, code, m, base, {}, 0);
    WalkEnds(n, f.idom, t, code, m, m', f.frontier, phis, types0, base, ViewOf(f, bld));
  }

  /** Link the new instructions in, resolve every operand, and unlink the slots. */
  method Finish(f: Function, bld: Builder, ghost t: Tree, ghost code: Code, ghost m: Promo, ghost types0: seq<Ty>,
      ghost base: seq<Ty>)
    requires Walked(t, code, m, types0, base, ViewOf(f, bld)) && AllSlotUse(m.slots, code)
    requires forall s | s in m.slots :: IsSlot(code, s)
    requires SlotTypes(types0, code, m) && PhiTypes(base, m)
    requires f.code == RewriteCode(Removal(code, m), code)
    modifies f`code
    ensures PromotedTo(t, types0, code, f.types, f.code, m.slots)
  {
    ghost var w := ViewOf(f, bld);
    WalkedAcyclic(t, code, m, types0, base, w);
    LinkFront(f, bld);
    ApplyReplacements(f, t, Code1(code, w), bld.replacement);
    SlotsRemain(t, code, m, types0, base, w, Resolutions(t, Code1(code, w), w.replacement), f.code);
    RemoveAllocas(f, bld.slots);
    assert Elements(bld.slots) == m.slots;
    Finished(t, code, m, types0, base, w, f.code);
  }

  /** Turn every promotable slot of the entry into values. */
  method BuildSsa(f: Function, pointee: seq<Option<Ty>>) returns (ghost slots: set<nat>)
    requires Analysed(f.Analysis(), f.idom, f.frontier, TreeFor(f), f.code)
    requires Ssa(TreeFor(f), f.code) && AllAccessOk(f.code) && AllocasPlain(f.code)
    requires ValuesBelow(f.code, |f.types|) && PointeeTypes(f.types, f.code, pointee)
    modifies f`code, f`types
    ensures Ssa(TreeFor(f), f.code)
    ensures forall v :: v in slots <==> Candidate(old(f.code), pointee, v)
    ensures PromotionPreserves(old(f.types), old(f.code), f.types, f.code, slots)
    ensures NoSlotLeft(slots, f.code)
    ensures WellBuilt(old(f.code)) ==> WellBuilt(f.code)
  {
    ghost var t, code, types0, n := TreeFor(f), f.code, f.types, f.Analysis();
    var bld := new Builder();
    CollectPromotions(f, bld, pointee);
    CandidatesAre(code, pointee, bld.slots, bld.promotionOf, bld.ty);
    if |bld.slots| == 0 {
      NothingPromoted(types0, code);
      return {};
    }
    FrontiersUsable(n, f.idom, f.frontier, t, code);
    PlaceAll(f, bld);
    ghost var m := Describe(bld.slots, bld.ty, bld.phis);
    CandidatesOk(code, types0, pointee, bld.slots, bld.promotionOf, bld.ty, bld.phis, m);
    ghost var base := f.types;
    ghost var m' := RenameAll(f, bld, n, t, code, m, types0);
    SameSlotTypes(types0, code, m, m');
    Finish(f, bld, t, code, m', types0, base);
    slots := m.slots;
  }

  lemma SameSlotTypes(types: seq<Ty>, code: Code, m: Promo, m': Promo)
    requires SlotTypes(types, code, m) && m'.slots == m.slots && m'.ty == m.ty
    ensures SlotTypes(types, code, m')
  {
    assert forall ins :: Reads(m, ins) <==> Reads(m', ins);
  }
}
