/** After the walk: the phis and zeros put in front of their blocks make a body that
    `Promotion` applies to. */
module Assembly {
  import opened Ir
  import opened Dominators
  import opened Semantics
  import opened SsaForm
  import opened Rewrite
  import opened Edits
  import opened DomChildren
  import opened Widening
  import opened Slots
  import opened Forwarding
  import opened Promotion
  import opened Renaming
  import opened Resolution

  // -------------------------------------------------------------- phis in front

  /** The phis of block `b`: each was emitted in front of the ones placed before. */
  function FrontBlock(phis: seq<seq<Option<Instr>>>, b: nat, n: nat): Block
    requires n <= |phis| && forall p | 0 <= p < n :: b < |phis[p]|
  {
    if n == 0 then []
    else (if phis[n - 1][b].Some? then [phis[n - 1][b].value] else []) + FrontBlock(phis, b, n - 1)
  }

  ghost function Owner(phis: seq<seq<Option<Instr>>>, b: nat, n: nat, k: nat): nat
    requires n <= |phis| && forall p | 0 <= p < n :: b < |phis[p]|
    requires k < |FrontBlock(phis, b, n)|
  {
    if phis[n - 1][b].None? then Owner(phis, b, n - 1, k)
    else if k == 0 then n - 1
    else Owner(phis, b, n - 1, k - 1)
  }

  lemma {:induction false} OwnerIs(phis: seq<seq<Option<Instr>>>, b: nat, n: nat, k: nat)
    requires n <= |phis| && forall p | 0 <= p < n :: b < |phis[p]|
    requires k < |FrontBlock(phis, b, n)|
    ensures var p := Owner(phis, b, n, k); p < n && phis[p][b] == Some(FrontBlock(phis, b, n)[k])
    decreases n
  {
    if phis[n - 1][b].None? {
      OwnerIs(phis, b, n - 1, k);
    } else if k > 0 {
      OwnerIs(phis, b, n - 1, k - 1);
    }
  }

  lemma {:induction false} OwnerInjective(phis: seq<seq<Option<Instr>>>, b: nat, n: nat, j: nat, k: nat)
    requires n <= |phis| && forall p | 0 <= p < n :: b < |phis[p]|
    requires j < |FrontBlock(phis, b, n)| && k < |FrontBlock(phis, b, n)|
    requires Owner(phis, b, n, j) == Owner(phis, b, n, k)
    ensures j == k
    decreases n
  {
    if phis[n - 1][b].None? {
      OwnerInjective(phis, b, n - 1, j, k);
    } else if j > 0 && k > 0 {
      OwnerInjective(phis, b, n - 1, j - 1, k - 1);
    } else if j > 0 {
      OwnerIs(phis, b, n - 1, j - 1);
    } else if k > 0 {
      OwnerIs(phis, b, n - 1, k - 1);
    }
  }

  lemma {:induction false} FrontHas(phis: seq<seq<Option<Instr>>>, b: nat, n: nat, p: nat) returns (k: nat)
    requires n <= |phis| && forall p | 0 <= p < n :: b < |phis[p]|
    requires p < n && phis[p][b].Some?
    ensures k < |FrontBlock(phis, b, n)| && FrontBlock(phis, b, n)[k] == phis[p][b].value
    decreases n
  {
    if p == n - 1 {
      k := 0;
    } else {
      var k' := FrontHas(phis, b, n - 1, p);
      k := if phis[n - 1][b].Some? then k' + 1 else k';
    }
  }

  function Front(phis: seq<seq<Option<Instr>>>, zeros: Block, blocks: nat): (front: seq<Block>)
    requires forall p | 0 <= p < |phis| :: |phis[p]| == blocks
    ensures |front| == blocks
    ensures forall b | 0 <= b < blocks :: front[b] == if b == 0 then zeros else FrontBlock(phis, b, |phis|)
  {
    seq(blocks, b requires 0 <= b < blocks => if b == 0 then zeros else FrontBlock(phis, b, |phis|))
  }

  // ------------------------------------------------------------- what the walk left

  /** The values of the phis are new, and all different. */
  ghost predicate PhiIds(m: Promo, low: nat, high: nat) {
    && (forall k | k in m.phi :: low <= m.phi[k] < high)
    && (forall j, k | j in m.phi && k in m.phi && m.phi[j] == m.phi[k] :: j == k)
  }

  ghost predicate Walked(t: Tree, code: Code, m: Promo, types0: seq<Ty>, base: seq<Ty>, w: View) {
    match t
    case Tree(rank, _, _) =>
      && Ssa(t, code) && AllAccessOk(code) && ValuesBelow(code, |types0|)
      && |types0| <= |base| && base[..|types0|] == types0
      && Tables(m, w.slots, w.phis, w.undefined, |code|)
      && ZerosOk(m, w.zeros, base, w.types)
      && LoadsNamed(t, code, m, w.replacement, ReachableBlocks(t), 0, 0)
      && PhisFilled(t, code, m, w.slots, w.phis, ReachableBlocks(t), 0, [], 0, 0)
      && PhiIds(m, |types0|, |base|)
      && PhisClosed(t, code, m)
      && (forall s: nat, b: nat | (s, b) in m.phi :: s in m.slots && 0 < b < |code| && rank[b] >= 0)
  }

  ghost function FrontFor(code: Code, w: View): seq<Block>
    requires forall p | 0 <= p < |w.phis| :: |w.phis[p]| == |code|
  {
    Front(w.phis, w.zeros, |code|)
  }

  lemma FrontPhi(t: Tree, code: Code, m: Promo, types0: seq<Ty>, base: seq<Ty>, w: View, b: nat, k: nat)
      returns (p: nat)
    requires Walked(t, code, m, types0, base, w)
    requires 0 < b < |code| && k < |FrontFor(code, w)[b]|
    ensures p == Owner(w.phis, b, |w.phis|, k) < |w.phis| == |w.slots|
    ensures w.phis[p][b] == Some(FrontFor(code, w)[b][k])
    ensures (w.slots[p], b) in m.phi
    ensures FrontFor(code, w)[b][k].op == Phi && FrontFor(code, w)[b][k].dst == Some(m.phi[(w.slots[p], b)])
    ensures Filled(t, code, m, w.slots[p], b, ReachableBlocks(t), FrontFor(code, w)[b][k])
  {
    p := Owner(w.phis, b, |w.phis|, k);
    OwnerIs(w.phis, b, |w.phis|, k);
    assert !EdgeGiven([], 0, 0, b, p);
  }

  lemma PhiInFront(t: Tree, code: Code, m: Promo, types0: seq<Ty>, base: seq<Ty>, w: View, s: nat, b: nat)
      returns (k: nat)
    requires Walked(t, code, m, types0, base, w) && (s, b) in m.phi
    ensures 0 < b < |code| && k < |FrontFor(code, w)[b]|
    ensures FrontFor(code, w)[b][k].op == Phi && FrontFor(code, w)[b][k].dst == Some(m.phi[(s, b)])
    ensures Filled(t, code, m, s, b, ReachableBlocks(t), FrontFor(code, w)[b][k])
  {
    assert s in m.slots;
    var p: nat :| p < |w.slots| && w.slots[p] == s;
    assert w.phis[p][b].Some?;
    k := FrontHas(w.phis, b, |w.phis|, p);
    assert !EdgeGiven([], 0, 0, b, p);
  }

  // -------------------------------------------------------------- single assignment

  /** A definition in front is new; one in the body is old. */
  lemma NewOrOld(t: Tree, code: Code, m: Promo, types0: seq<Ty>, base: seq<Ty>, w: View, v: nat, b: nat, k: nat)
    requires Walked(t, code, m, types0, base, w)
    requires DefinedAt(Inserted(FrontFor(code, w), code), v, b, k)
    ensures k < |FrontFor(code, w)[b]| <==> v >= |types0|
    ensures k < |FrontFor(code, w)[b]| ==> (b == 0 <==> v >= |base|)
  {
    var front: seq<Block> := FrontFor(code, w);
    if k < |front[b]| {
      if b == 0 {
        assert ZeroConst(w.zeros[k]);
      } else {
        var p := FrontPhi(t, code, m, types0, base, w, b, k);
      }
    } else {
      assert Below(code[b][k - |front[b]|], |types0|);
    }
  }

  lemma SameFront(t: Tree, code: Code, m: Promo, types0: seq<Ty>, base: seq<Ty>, w: View, b: nat, k: nat, c: nat,
      j: nat)
    requires Walked(t, code, m, types0, base, w)
    requires b < |code| && c < |code| && k < |FrontFor(code, w)[b]| && j < |FrontFor(code, w)[c]|
    requires (b == 0 <==> c == 0)
    requires FrontFor(code, w)[b][k].dst.Some? && FrontFor(code, w)[b][k].dst == FrontFor(code, w)[c][j].dst
    ensures b == c && k == j
  {
    if b != 0 {
      var p := FrontPhi(t, code, m, types0, base, w, b, k);
      var q := FrontPhi(t, code, m, types0, base, w, c, j);
      assert (w.slots[p], b) == (w.slots[q], c);
      assert p == q;
      OwnerInjective(w.phis, b, |w.phis|, k, j);
    }
  }

  lemma OldSame(front: seq<Block>, code: Code, v: nat, b: nat, k: nat, c: nat, j: nat)
    requires |front| == |code| && UniqueDefs(code) && b < |code| && c < |code| && |front[b]| <= k && |front[c]| <= j
    requires DefinedAt(Inserted(front, code), v, b, k) && DefinedAt(Inserted(front, code), v, c, j)
    ensures b == c && k == j
  {
    assert DefinedAt(code, v, b, k - |front[b]|) && DefinedAt(code, v, c, j - |front[c]|);
  }

  lemma InsertedUnique(t: Tree, code: Code, m: Promo, types0: seq<Ty>, base: seq<Ty>, w: View)
    requires Walked(t, code, m, types0, base, w)
    ensures UniqueDefs(Inserted(FrontFor(code, w), code))
  {
    var front: seq<Block> := FrontFor(code, w);
    var r := Inserted(front, code);
    forall v: nat, b: nat, k: nat, c: nat, j: nat | DefinedAt(r, v, b, k) && DefinedAt(r, v, c, j)
      ensures b == c && k == j
    {
      NewOrOld(t, code, m, types0, base, w, v, b, k);
      NewOrOld(t, code, m, types0, base, w, v, c, j);
      if v >= |types0| {
        SameFront(t, code, m, types0, base, w, b, k, c, j);
      } else {
        OldSame(front, code, v, b, k, c, j);
      }
    }
  }

  // ----------------------------------------------------------------------- scope

  /** What a slot holds at the end of a block is available there. */
  lemma {:induction false} CurInInserted(t: Tree, code: Code, m: Promo, types0: seq<Ty>, base: seq<Ty>, w: View,
      b: nat, s: nat)
    requires Walked(t, code, m, types0, base, w) && s in m.slots
    requires b < |code| && t.rank[b] >= 0 && CurOut(t, code, m, b, s).Some?
    ensures CurOut(t, code, m, b, s).value in ScopeOut(t, Inserted(FrontFor(code, w), code), b)
    decreases t.rank[b]
  {
    var front: seq<Block> := FrontFor(code, w);
    assert code[b][..|code[b]|] == code[b];
    if LastStored(code[b], s).Some? {
      var k := StoredAt(code[b], s);
      StoredInScope(t, code, b, k, |code[b]|, s);
      ScopeEnd(t, code, b);
      ScopeGrows(t, front, code, b, 0);
    } else {
      DefsAppend(front[b], code[b]);
      if (s, b) in m.phi {
        var k := PhiInFront(t, code, m, types0, base, w, s, b);
        assert m.phi[(s, b)] in Defs(front[b]);
      } else if b == 0 {
        assert m.zero[s] in Defs(w.zeros);
      } else {
        assert HasParent(t.rank, t.idom, b);
        CurInParent(t, code, m, b, s);
        CurInInserted(t, code, m, types0, base, w, t.idom[b], s);
      }
    }
  }

  lemma FrontPhiInScope(t: Tree, code: Code, m: Promo, types0: seq<Ty>, base: seq<Ty>, w: View, b: nat, k: nat)
    requires Walked(t, code, m, types0, base, w)
    requires 0 < b < |code| && t.rank[b] >= 0 && k < |FrontFor(code, w)[b]|
    ensures PhiInScope(t, Inserted(FrontFor(code, w), code), b, FrontFor(code, w)[b][k])
  {
    var p := FrontPhi(t, code, m, types0, base, w, b, k);
    var phi := FrontFor(code, w)[b][k];
    forall q | q in t.preds[b]
      ensures q in phi.from
    {
      assert EdgeInTree(t, code, q, b);
    }
    forall j | 0 <= j < |phi.from|
      ensures phi.from[j] < |code| && phi.from[j] in t.preds[b]
      ensures phi.args[j] in ScopeOut(t, Inserted(FrontFor(code, w), code), phi.from[j])
    {
      assert phi.from[j] in phi.from;
      assert Leads(code, phi.from[j], b);
      assert w.slots[p] in m.slots;
      CurInInserted(t, code, m, types0, base, w, phi.from[j], w.slots[p]);
    }
  }

  lemma WalkedInsertable(t: Tree, code: Code, m: Promo, types0: seq<Ty>, base: seq<Ty>, w: View)
    requires Walked(t, code, m, types0, base, w)
    ensures Insertable(t, FrontFor(code, w), code)
  {
    var front: seq<Block> := FrontFor(code, w);
    InsertedUnique(t, code, m, types0, base, w);
    forall k | 0 <= k < |front[0]|
      ensures PlainConst(front[0][k])
    {
      assert ZeroConst(w.zeros[k]);
    }
    forall b: nat | 0 < b < |code|
      ensures FrontOk(t, front, code, b)
    {
      if |front[b]| > 0 {
        var p := FrontPhi(t, code, m, types0, base, w, b, 0);
      }
      forall k: nat | k < |front[b]|
        ensures t.rank[b] >= 0 && front[b][k].op == Phi && front[b][k].dst.Some?
        ensures PhiInScope(t, Inserted(front, code), b, front[b][k])
      {
        var p := FrontPhi(t, code, m, types0, base, w, b, k);
        FrontPhiInScope(t, code, m, types0, base, w, b, k);
      }
    }
  }

  // ---------------------------------------------------------- the same, shifted

  ghost predicate NoStores(front: seq<Block>) {
    forall b, k | 0 <= b < |front| && 0 <= k < |front[b]| :: front[b][k].op != Store && front[b][k].op != Load
  }

  lemma WalkedNoStores(t: Tree, code: Code, m: Promo, types0: seq<Ty>, base: seq<Ty>, w: View)
    requires Walked(t, code, m, types0, base, w)
    ensures NoStores(FrontFor(code, w))
  {
    var front: seq<Block> := FrontFor(code, w);
    forall b: nat, k: nat | b < |front| && k < |front[b]|
      ensures front[b][k].op != Store && front[b][k].op != Load
    {
      if b == 0 {
        assert ZeroConst(w.zeros[k]);
      } else {
        var p := FrontPhi(t, code, m, types0, base, w, b, k);
      }
    }
  }

  lemma {:induction false} LastStoredAfter(x: Block, y: Block, s: nat)
    requires forall k | 0 <= k < |x| :: x[k].op != Store
    ensures LastStored(x + y, s) == LastStored(y, s)
    decreases |y|
  {
    if y == [] {
      assert x + y == x;
      NothingStored(x, s);
    } else {
      assert (x + y)[..|x + y| - 1] == x + y[..|y| - 1];
      LastStoredAfter(x, y[..|y| - 1], s);
    }
  }

  lemma {:induction false} CurInShift(t: Tree, code: Code, m: Promo, front: seq<Block>, zeros: nat, b: nat, s: nat)
    requires |front| == |code| && NoStores(front)
    ensures CurIn(t, Inserted(front, code), m.(zeros := zeros), b, s) == CurIn(t, code, m, b, s)
    decreases if b < |t.rank| && t.rank[b] >= 0 then t.rank[b] else 0
  {
    if (s, b) !in m.phi && HasParent(t.rank, t.idom, b) && t.idom[b] < |code| {
      var d: nat := t.idom[b];
      LastStoredAfter(front[d], code[d], s);
      CurInShift(t, code, m, front, zeros, d, s);
    }
  }

  lemma CurShift(t: Tree, code: Code, m: Promo, front: seq<Block>, zeros: nat, b: nat, i: nat, s: nat)
    requires |front| == |code| && NoStores(front) && b < |code| && i <= |code[b]|
    ensures Cur(t, Inserted(front, code), m.(zeros := zeros), b, |front[b]| + i, s) == Cur(t, code, m, b, i, s)
  {
    assert Inserted(front, code)[b][..|front[b]| + i] == front[b] + code[b][..i];
    LastStoredAfter(front[b], code[b][..i], s);
    CurInShift(t, code, m, front, zeros, b, s);
  }

  lemma CurOutShift(t: Tree, code: Code, m: Promo, front: seq<Block>, zeros: nat, b: nat, s: nat)
    requires |front| == |code| && NoStores(front) && b < |code|
    ensures CurOut(t, Inserted(front, code), m.(zeros := zeros), b, s) == CurOut(t, code, m, b, s)
  {
    CurShift(t, code, m, front, zeros, b, |code[b]|, s);
  }

  // ------------------------------------------------------------------- all in place

  /** The body with its phis and zeros, and the description that fits it. */
  ghost function Code1(code: Code, w: View): Code
    requires forall p | 0 <= p < |w.phis| :: |w.phis[p]| == |code|
  {
    Inserted(FrontFor(code, w), code)
  }

  ghost function Promo1(m: Promo, w: View): Promo {
    m.(zeros := |w.zeros|)
  }

  lemma FilledTakesCur(t: Tree, code: Code, m: Promo, types0: seq<Ty>, base: seq<Ty>, w: View, s: nat, b: nat)
    requires Walked(t, code, m, types0, base, w) && (s, b) in m.phi
    ensures PhiFilled(t, Code1(code, w), Promo1(m, w), b, s)
  {
    var k := PhiInFront(t, code, m, types0, base, w, s, b);
    var front: seq<Block> := FrontFor(code, w);
    WalkedInsertable(t, code, m, types0, base, w);
    InsertedLeading(t, front, code, b);
    WalkedNoStores(t, code, m, types0, base, w);
    var phi := front[b][k];
    assert Code1(code, w)[b][k] == phi;
    forall j | 0 <= j < |phi.from|
      ensures phi.from[j] < |code| && CurOut(t, Code1(code, w), Promo1(m, w), phi.from[j], s) == Some(phi.args[j])
    {
      CurOutShift(t, code, m, front, |w.zeros|, phi.from[j], s);
    }
    assert DefinedAt(Code1(code, w), m.phi[(s, b)], b, k);
    assert TakesCur(t, Code1(code, w), Promo1(m, w), Code1(code, w)[b][k], s);
  }

  lemma WalkedZerosFirst(t: Tree, code: Code, m: Promo, types0: seq<Ty>, base: seq<Ty>, w: View)
    requires Walked(t, code, m, types0, base, w)
    ensures ZerosFirst(Code1(code, w), Promo1(m, w))
  {
    assert Code1(code, w)[0][..|w.zeros|] == w.zeros;
    forall k | 0 <= k < |w.zeros|
      ensures ZeroConst(Code1(code, w)[0][k])
    {
      assert Code1(code, w)[0][k] == w.zeros[k];
    }
  }

  lemma WalkedAccessOk(t: Tree, code: Code, m: Promo, types0: seq<Ty>, base: seq<Ty>, w: View)
    requires Walked(t, code, m, types0, base, w)
    ensures AllAccessOk(Code1(code, w))
  {
    var front: seq<Block> := FrontFor(code, w);
    WalkedNoStores(t, code, m, types0, base, w);
    forall b: nat, k: nat | b < |code| && k < |Code1(code, w)[b]|
      ensures AccessOk(Code1(code, w)[b][k])
    {
      if k < |front[b]| {
        assert Code1(code, w)[b][k] == front[b][k];
      } else {
        assert AccessOk(code[b][k - |front[b]|]);
      }
    }
  }

  lemma WalkedClosed(t: Tree, code: Code, m: Promo, types0: seq<Ty>, base: seq<Ty>, w: View)
    requires Walked(t, code, m, types0, base, w)
    ensures PhisClosed(t, Code1(code, w), Promo1(m, w))
  {
    var front: seq<Block> := FrontFor(code, w);
    WalkedNoStores(t, code, m, types0, base, w);
    forall s: nat, x: nat, b: nat | s in m.slots && Defines(Code1(code, w), Promo1(m, w), x, s) && Meets(t, x, b)
      ensures (s, b) in m.phi
    {
      LastStoredAfter(front[x], code[x], s);
      assert Defines(code, m, x, s);
    }
  }

  lemma WalkedPlaced(t: Tree, code: Code, m: Promo, types0: seq<Ty>, base: seq<Ty>, w: View)
    requires Walked(t, code, m, types0, base, w)
    ensures Placed(t, Code1(code, w), Promo1(m, w))
  {
    WalkedInsertable(t, code, m, types0, base, w);
    InsertedSsa(t, FrontFor(code, w), code);
    WalkedAccessOk(t, code, m, types0, base, w);
    WalkedZerosFirst(t, code, m, types0, base, w);
    WalkedClosed(t, code, m, types0, base, w);
    forall s: nat, b: nat | (s, b) in m.phi
      ensures PhiFilled(t, Code1(code, w), Promo1(m, w), b, s)
    {
      FilledTakesCur(t, code, m, types0, base, w, s, b);
    }
  }

  // ------------------------------------------------------------- properties of values

  /** A property of all that the original body stores, and of the new values. */
  lemma SourcesShift(t: Tree, code: Code, m: Promo, types0: seq<Ty>, base: seq<Ty>, w: View, ok: (nat, nat) -> bool)
    requires Walked(t, code, m, types0, base, w) && AllSources(code, m, ok)
    ensures AllSources(Code1(code, w), Promo1(m, w), ok)
  {
    var front: seq<Block> := FrontFor(code, w);
    WalkedNoStores(t, code, m, types0, base, w);
    forall s: nat, b: nat, i: nat
      | s in m.slots && b < |code| && i < |Code1(code, w)[b]| && Stores(Code1(code, w)[b][i], s)
      ensures ok(s, Code1(code, w)[b][i].args[1])
    {
      InFront(front, code, b, i);
      assert Code1(code, w)[b][i] == code[b][i - |front[b]|];
      assert Stores(code[b][i - |front[b]|], s);
    }
  }

  lemma InFront(front: seq<Block>, code: Code, b: nat, i: nat)
    requires |front| == |code| && b < |code| && i < |Inserted(front, code)[b]|
    ensures Inserted(front, code)[b][i] == if i < |front[b]| then front[b][i] else code[b][i - |front[b]|]
  {
  }

  /** A property of the stored values holds of the new values too if these are all large. */
  lemma SourcesFrom(t: Tree, code: Code, m: Promo, types0: seq<Ty>, base: seq<Ty>, w: View, bad: set<nat>)
    requires Walked(t, code, m, types0, base, w)
    requires forall v | v in bad :: v < |types0|
    requires forall s, b: nat, i: nat {:trigger Stores(code[b][i], s)}
               | s in m.slots && b < |code| && i < |code[b]| && Stores(code[b][i], s) :: code[b][i].args[1] !in bad
    ensures AllSources(code, m, (s: nat, v: nat) => v !in bad)
  {
    forall s: nat | s in m.zero
      ensures m.zero[s] !in bad
    {
      var k :| 0 <= k < |w.zeros| && w.zeros[k].dst.Some? && w.zeros[k].dst.value == m.zero[s];
      assert ZeroConst(w.zeros[k]);
    }
  }

  /** Slots hold values of one type. */
  ghost predicate SlotTypes(types: seq<Ty>, code: Code, m: Promo) {
    && (forall s: nat, b: nat, i: nat {:trigger Stores(code[b][i], s)}
          | s in m.slots && b < |code| && i < |code[b]| && Stores(code[b][i], s) ::
          s in m.ty && Wide(types, code[b][i].args[1]) == WidthOf(m.ty[s]))
    && (forall b: nat, i: nat {:trigger Reads(m, code[b][i])}
          | b < |code| && i < |code[b]| && Reads(m, code[b][i]) && code[b][i].dst.Some? ::
          code[b][i].args[0] in m.ty && Wide(types, code[b][i].dst.value) == WidthOf(m.ty[code[b][i].args[0]]))
  }

  ghost predicate PhiTypes(types: seq<Ty>, m: Promo) {
    forall s: nat, b: nat {:trigger (s, b) in m.phi} | (s, b) in m.phi ::
        s in m.ty && TyOf(types, m.phi[(s, b)]) == m.ty[s]
  }

  lemma WalkedTyped(t: Tree, code: Code, m: Promo, types0: seq<Ty>, base: seq<Ty>, w: View)
    requires Walked(t, code, m, types0, base, w) && SlotTypes(types0, code, m) && PhiTypes(base, m)
    ensures TypedSlots(w.types, Code1(code, w), Promo1(m, w))
  {
    var front: seq<Block> := FrontFor(code, w);
    var ok := (s: nat, v: nat) => s in m.ty && Wide(w.types, v) == WidthOf(m.ty[s]);
    SameLowTypes(types0, base, w.types);
    forall s: nat, b: nat, i: nat | s in m.slots && b < |code| && i < |code[b]| && Stores(code[b][i], s)
      ensures ok(s, code[b][i].args[1])
    {
      assert Below(code[b][i], |types0|);
    }
    assert AllSources(code, m, ok);
    SourcesShift(t, code, m, types0, base, w, ok);
    WalkedNoStores(t, code, m, types0, base, w);
    forall b: nat, i: nat
      | b < |code| && i < |Code1(code, w)[b]| && Reads(m, Code1(code, w)[b][i]) && Code1(code, w)[b][i].dst.Some?
      ensures Wide(w.types, Code1(code, w)[b][i].dst.value) == WidthOf(m.ty[Code1(code, w)[b][i].args[0]])
    {
      LoadShift(code, m, front, b, i);
      assert Below(code[b][i - |front[b]|], |types0|);
    }
  }

  lemma SameLowTypes(types0: seq<Ty>, base: seq<Ty>, types: seq<Ty>)
    requires |types0| <= |base| <= |types| && base[..|types0|] == types0 && types[..|base|] == base
    ensures forall v | 0 <= v < |types0| :: TyOf(types, v) == TyOf(types0, v)
    ensures forall v | 0 <= v < |base| :: TyOf(types, v) == TyOf(base, v)
  {
    forall v | 0 <= v < |types0|
      ensures types[v] == types0[v]
    {
      assert types[v] == types[..|base|][v] && base[v] == base[..|types0|][v];
    }
    forall v | 0 <= v < |base|
      ensures types[v] == base[v]
    {
      assert types[v] == types[..|base|][v];
    }
  }

  lemma LoadShift(code: Code, m: Promo, front: seq<Block>, b: nat, i: nat)
    requires |front| == |code| && NoStores(front) && b < |code|
    requires i < |Inserted(front, code)[b]| && Reads(m, Inserted(front, code)[b][i])
    ensures |front[b]| <= i && Inserted(front, code)[b][i] == code[b][i - |front[b]|]
    ensures Reads(m, code[b][i - |front[b]|])
  {
    InFront(front, code, b, i);
  }

  // -------------------------------------------------------------------- resolution

  /** A load in the new body is a load of the old one, and has its replacement. */
  lemma LoadReplaced(t: Tree, code: Code, m: Promo, types0: seq<Ty>, base: seq<Ty>, w: View, b: nat, i: nat)
    requires Walked(t, code, m, types0, base, w)
    requires b < |code| && i < |Code1(code, w)[b]| && Reads(m, Code1(code, w)[b][i])
    ensures var ins := Code1(code, w)[b][i];
            && ins.dst.Some? && ins.dst.value in w.replacement
            && Cur(t, Code1(code, w), Promo1(m, w), b, i, ins.args[0]) == Some(w.replacement[ins.dst.value])
  {
    var front: seq<Block> := FrontFor(code, w);
    WalkedNoStores(t, code, m, types0, base, w);
    var i0 := LoadMoved(t, code, m, front, |w.zeros|, b, i);
    OldLoadReplaced(t, code, m, types0, base, w, b, i0);
  }

  lemma LoadMoved(t: Tree, code: Code, m: Promo, front: seq<Block>, zeros: nat, b: nat, i: nat) returns (i0: nat)
    requires |front| == |code| && NoStores(front) && b < |code|
    requires i < |Inserted(front, code)[b]| && Reads(m, Inserted(front, code)[b][i])
    ensures i0 < |code[b]| && Reads(m, code[b][i0]) && Inserted(front, code)[b][i] == code[b][i0]
    ensures Cur(t, Inserted(front, code), m.(zeros := zeros), b, i, code[b][i0].args[0]) ==
            Cur(t, code, m, b, i0, code[b][i0].args[0])
  {
    LoadShift(code, m, front, b, i);
    i0 := i - |front[b]|;
    CurShift(t, code, m, front, zeros, b, i0, code[b][i0].args[0]);
  }

  lemma OldLoadReplaced(t: Tree, code: Code, m: Promo, types0: seq<Ty>, base: seq<Ty>, w: View, b: nat, i: nat)
    requires Walked(t, code, m, types0, base, w)
    requires b < |code| && i < |code[b]| && Reads(m, code[b][i])
    ensures var ins := code[b][i];
            && ins.dst.Some? && ins.dst.value in w.replacement
            && Cur(t, code, m, b, i, ins.args[0]) == Some(w.replacement[ins.dst.value])
  {
    assert code[b] != [];
    assert Past(ReachableBlocks(t), 0, 0, b, i);
    assert Named(t, code, m, w.replacement, b, i);
  }

  lemma ReplacedIsLoad(t: Tree, code: Code, m: Promo, types0: seq<Ty>, base: seq<Ty>, w: View, v: nat)
      returns (b: nat, i: nat)
    requires Walked(t, code, m, types0, base, w) && v in w.replacement
    ensures DefinedAt(Code1(code, w), v, b, i) && Reads(m, Code1(code, w)[b][i])
  {
    assert ReplacedLoad(code, m, ReachableBlocks(t), 0, 0, v);
    var x: nat, j: nat :| DefinedAt(code, v, x, j) && Reads(m, code[x][j]) && Past(ReachableBlocks(t), 0, 0, x, j);
    b, i := x, |FrontFor(code, w)[x]| + j;
  }

  /** Replacements lead to values defined earlier, so the chains end. */
  lemma WalkedAcyclic(t: Tree, code: Code, m: Promo, types0: seq<Ty>, base: seq<Ty>, w: View)
    requires Walked(t, code, m, types0, base, w)
    ensures Acyclic(t, Code1(code, w), w.replacement)
  {
    var r, m1 := Code1(code, w), Promo1(m, w);
    WalkedPlaced(t, code, m, types0, base, w);
    forall v | v in w.replacement && w.replacement[v] in w.replacement
      ensures Earlier(t, r, w.replacement[v], v)
    {
      var b, i := ReplacedIsLoad(t, code, m, types0, base, w, v);
      LoadReplaced(t, code, m, types0, base, w, b, i);
      ReadEarlier(t, r, m1, b, i, w.replacement[v], v);
    }
  }

  lemma ReadEarlier(t: Tree, code: Code, m: Promo, b: nat, i: nat, u: nat, v: nat)
    requires Placed(t, code, m) && DefinedAt(code, v, b, i) && Reads(m, code[b][i])
    requires Cur(t, code, m, b, i, code[b][i].args[0]) == Some(u)
    ensures Earlier(t, code, u, v)
  {
    LoadAfterPhis(t, code, m, b, i);
    CurInScope(t, code, m, b, i, code[b][i].args[0]);
    var a, j := InScopeSite(t, code, b, i, u);
    if a != b {
      AncRank(t.rank, t.idom, a, b);
    }
    assert DefinedAt(code, u, a, j) && DefinedAt(code, v, b, i);
  }

  lemma WalkedResolved(t: Tree, code: Code, m: Promo, types0: seq<Ty>, base: seq<Ty>, w: View)
    requires Walked(t, code, m, types0, base, w)
    requires Acyclic(t, Code1(code, w), w.replacement)
    ensures Resolved(t, Code1(code, w), Promo1(m, w), Resolutions(t, Code1(code, w), w.replacement))
  {
    var r, m1 := Code1(code, w), Promo1(m, w);
    var sub := Resolutions(t, r, w.replacement);
    forall v: nat, b: nat, i: nat | DefinedAt(r, v, b, i)
      ensures v in sub <==> Reads(m1, r[b][i])
    {
      if v in sub {
        var c, j := ReplacedIsLoad(t, code, m, types0, base, w, v);
        assert c == b && j == i;
      }
      if Reads(m1, r[b][i]) {
        assert Reads(m, r[b][i]);
        LoadReplaced(t, code, m, types0, base, w, b, i);
      }
    }
    forall v | v in sub
      ensures exists b: nat, i: nat :: DefinedAt(r, v, b, i)
    {
      var c, j := ReplacedIsLoad(t, code, m, types0, base, w, v);
    }
    forall b: nat, i: nat | b < |r| && i < |r[b]| && Reads(m1, r[b][i]) && r[b][i].dst.Some?
      ensures ReadsCur(t, r, m1, sub, b, i)
    {
      assert Reads(m, r[b][i]);
      LoadReplaced(t, code, m, types0, base, w, b, i);
      FinalStep(t, r, w.replacement, r[b][i].dst.value);
    }
  }

  // ------------------------------------------------------------------------ uses

  lemma SlotsBelow(code: Code, m: Promo, limit: nat)
    requires ValuesBelow(code, limit) && forall s | s in m.slots :: IsSlot(code, s)
    ensures forall s | s in m.slots :: s < limit
  {
    forall s | s in m.slots
      ensures s < limit
    {
      assert IsSlot(code, s);
      var b, i :| 0 <= b < |code| && 0 <= i < |code[b]| && code[b][i].op == Alloca && code[b][i].dst == Some(s);
      assert Below(code[b][i], limit);
    }
  }

  lemma StoredNotSlot(code: Code, m: Promo)
    requires AllSlotUse(m.slots, code)
    ensures forall s, b: nat, i: nat {:trigger Stores(code[b][i], s)}
              | s in m.slots && b < |code| && i < |code[b]| && Stores(code[b][i], s) :: code[b][i].args[1] !in m.slots
  {
    forall s, b: nat, i: nat | s in m.slots && b < |code| && i < |code[b]| && Stores(code[b][i], s)
      ensures code[b][i].args[1] !in m.slots
    {
      assert SlotUse(m.slots, code[b][i]);
    }
  }

  lemma WalkedSlotUse(t: Tree, code: Code, m: Promo, types0: seq<Ty>, base: seq<Ty>, w: View)
    requires Walked(t, code, m, types0, base, w) && AllSlotUse(m.slots, code)
    requires forall s | s in m.slots :: IsSlot(code, s)
    ensures AllSlotUse(m.slots, Code1(code, w))
  {
    var front: seq<Block> := FrontFor(code, w);
    SlotsBelow(code, m, |types0|);
    StoredNotSlot(code, m);
    SourcesFrom(t, code, m, types0, base, w, m.slots);
    forall b: nat, i: nat | b < |code| && i < |Code1(code, w)[b]|
      ensures SlotUse(m.slots, Code1(code, w)[b][i])
    {
      InFront(front, code, b, i);
      if i >= |front[b]| {
        assert SlotUse(m.slots, code[b][i - |front[b]|]);
      } else if b == 0 {
        assert ZeroConst(w.zeros[i]);
      } else {
        FrontPhiUse(t, code, m, types0, base, w, b, i);
      }
    }
  }

  lemma FrontPhiUse(t: Tree, code: Code, m: Promo, types0: seq<Ty>, base: seq<Ty>, w: View, b: nat, k: nat)
    requires Walked(t, code, m, types0, base, w)
    requires AllSources(code, m, (s: nat, v: nat) => v !in m.slots)
    requires forall s | s in m.slots :: s < |types0|
    requires 0 < b < |code| && k < |FrontFor(code, w)[b]|
    ensures SlotUse(m.slots, FrontFor(code, w)[b][k])
  {
    var p := FrontPhi(t, code, m, types0, base, w, b, k);
    var phi := FrontFor(code, w)[b][k];
    assert w.slots[p] in m.slots;
    forall j | 0 <= j < |phi.args|
      ensures phi.args[j] !in m.slots
    {
      CurAll(t, code, m, phi.from[j], |code[phi.from[j]]|, w.slots[p], (s: nat, v: nat) => v !in m.slots);
    }
  }

  /** Everything `Promotion` asks for. */
  lemma WalkedRenamed(t: Tree, code: Code, m: Promo, types0: seq<Ty>, base: seq<Ty>, w: View)
    requires Walked(t, code, m, types0, base, w) && AllSlotUse(m.slots, code)
    requires forall s | s in m.slots :: IsSlot(code, s)
    requires SlotTypes(types0, code, m) && PhiTypes(base, m)
    ensures Acyclic(t, Code1(code, w), w.replacement)
    ensures Renamed(t, w.types, Code1(code, w), Promo1(m, w), Resolutions(t, Code1(code, w), w.replacement))
  {
    WalkedPlaced(t, code, m, types0, base, w);
    WalkedSlotUse(t, code, m, types0, base, w);
    WalkedTyped(t, code, m, types0, base, w);
    WalkedAcyclic(t, code, m, types0, base, w);
    WalkedResolved(t, code, m, types0, base, w);
  }

  // ----------------------------------------------------------------- an invocation

  /** The invocation, after promotion: more types, fewer slots. */
  function Promoted(c: Context, types: seq<Ty>, slots: set<nat>): Context {
    c.(types := types, private := c.private - slots)
  }

  lemma WalkedApart(t: Tree, c: Context, code: Code, m: Promo, types0: seq<Ty>, base: seq<Ty>, w: View)
    requires Walked(t, code, m, types0, base, w) && m.slots <= c.private && Secluded(c, code) && OwnSlots(c, code)
    ensures Apart(c.(types := w.types), Code1(code, w), Promo1(m, w))
  {
    var front: seq<Block> := FrontFor(code, w);
    forall v | v in c.private
      ensures v < |types0|
    {
      assert IsSlot(code, v);
      var b, i :| 0 <= b < |code| && 0 <= i < |code[b]| && code[b][i].op == Alloca && code[b][i].dst == Some(v);
      assert Below(code[b][i], |types0|);
    }
    forall b: nat, k: nat | b < |code| && k < |Code1(code, w)[b]| && Code1(code, w)[b][k].dst.Some? &&
        Code1(code, w)[b][k].dst.value in c.private
      ensures Code1(code, w)[b][k].op == Alloca
    {
      InFront(front, code, b, k);
      assert DefinedAt(Code1(code, w), Code1(code, w)[b][k].dst.value, b, k);
      NewOrOld(t, code, m, types0, base, w, Code1(code, w)[b][k].dst.value, b, k);
    }
    forall s, b: nat, i: nat | s in m.slots && b < |code| && i < |code[b]| && Stores(code[b][i], s)
      ensures code[b][i].args[1] !in c.private
    {
      assert Escapes(code[b][i], code[b][i].args[1]);
    }
    SourcesFrom(t, code, m, types0, base, w, c.private);
    SourcesShift(t, code, m, types0, base, w, (s: nat, v: nat) => v !in c.private);
  }

  lemma WalkedKnown(t: Tree, code: Code, m: Promo, types0: seq<Ty>, base: seq<Ty>, w: View)
    requires Walked(t, code, m, types0, base, w)
    ensures AllKnown(types0, w.types, NewValues(FrontFor(code, w)), code)
  {
    var front: seq<Block> := FrontFor(code, w);
    SameLowTypes(types0, base, w.types);
    forall v | v in NewValues(front)
      ensures v >= |types0|
    {
      var b: nat :| b < |front| && v in Defs(front[b]);
      var k: nat :| k < |front[b]| && front[b][k].dst.Some? && front[b][k].dst.value == v;
      InFront(front, code, b, k);
      assert DefinedAt(Code1(code, w), v, b, k);
      NewOrOld(t, code, m, types0, base, w, v, b, k);
    }
    forall b, k | 0 <= b < |code| && 0 <= k < |code[b]|
      ensures Known(types0, w.types, NewValues(front), code[b][k])
    {
      assert Below(code[b][k], |types0|);
    }
  }

  /** The body the pass ends with shows what the body it began with shows. */
  lemma PromotionPreservesRuns(t: Tree, c: Context, code: Code, m: Promo, types0: seq<Ty>, base: seq<Ty>, w: View,
      world: World, n: nat)
    requires Walked(t, code, m, types0, base, w) && AllSlotUse(m.slots, code)
    requires forall s | s in m.slots :: IsSlot(code, s)
    requires SlotTypes(types0, code, m) && PhiTypes(base, m)
    requires c.types == types0 && m.slots <= c.private && Secluded(c, code) && OwnSlots(c, code)
    ensures Acyclic(t, Code1(code, w), w.replacement)
    ensures var out := RewriteCode(FullPlan(m.slots, Resolutions(t, Code1(code, w), w.replacement)), Code1(code, w));
            && Ssa(t, out)
            && Observe(Run(Promoted(c, w.types, m.slots), out, world, n)) == Observe(Run(c, code, world, n))
  {
    var c1 := c.(types := w.types);
    WalkedRenamed(t, code, m, types0, base, w);
    WalkedApart(t, c, code, m, types0, base, w);
    WalkedKnown(t, code, m, types0, base, w);
    WalkedInsertable(t, code, m, types0, base, w);
    InsertionPreservesRuns(t, c, c1, FrontFor(code, w), code, world, n);
    ReplacingPreservesRuns(t, c1, Code1(code, w), Promo1(m, w), Resolutions(t, Code1(code, w), w.replacement), world,
        n);
  }
}
