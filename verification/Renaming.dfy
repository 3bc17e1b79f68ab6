/** The renaming walk: down the dominator tree with a stack of definitions per slot.

    A load is replaced by the top of its slot's stack, a store pushes, a phi in a
    successor takes the top as its operand for this edge, and leaving a block pops what
    it pushed. Proved here: the top of the stack is always `Slots.Cur`, so that is what
    every load is replaced by and every phi takes, each phi once per predecessor. */
module Renaming {
  import opened Ir
  import opened Functions
  import opened Dominators
  import opened Semantics
  import opened SsaForm
  import opened Rewrite
  import opened Edits
  import opened DomChildren
  import opened Slots
  import opened Forwarding
  import opened PhiPlacement

  /** `m` describes the builder's tables. */
  ghost predicate Tables(m: Promo, slots: seq<nat>, phis: seq<seq<Option<Instr>>>, undefined: seq<Option<nat>>,
      blocks: nat) {
    && |slots| == |phis| == |undefined|
    && (forall p, q | 0 <= p < q < |slots| :: slots[p] != slots[q])
    && (forall s :: s in m.slots <==> s in slots)
    && (forall p | 0 <= p < |slots| :: |phis[p]| == blocks)
    && (forall p: nat, b: nat {:trigger phis[p][b]} | p < |slots| && b < blocks ::
          && (phis[p][b].Some? <==> (slots[p], b) in m.phi)
          && (phis[p][b].Some? ==> phis[p][b].value.op == Phi && phis[p][b].value.dst == Some(m.phi[(slots[p], b)])))
    && (forall p | 0 <= p < |slots| :: undefined[p] == if slots[p] in m.zero then Some(m.zero[slots[p]]) else None)
  }

  /** The zeros emitted so far: new values, one for each slot that was read too early. */
  ghost predicate ZerosOk(m: Promo, zeros: Block, base: seq<Ty>, types: seq<Ty>) {
    && |base| <= |types| && types[..|base|] == base && m.slots <= m.ty.Keys
    && (forall k | 0 <= k < |zeros| :: ZeroConst(zeros[k]) && |base| <= zeros[k].dst.value < |types|)
    && (forall j, k | 0 <= j < k < |zeros| :: zeros[j].dst != zeros[k].dst)
    && (forall s | s in m.zero :: s in m.slots && m.zero[s] in Defs(zeros) && TyOf(types, m.zero[s]) == m.ty[s])
  }

  /** A load has been replaced by what its slot holds there. */
  ghost predicate Named(t: Tree, code: Code, m: Promo, replacement: map<nat, nat>, x: nat, j: nat)
    requires x < |code| && j < |code[x]|
  {
    var ins := code[x][j];
    && ins.dst.Some? && ins.dst.value in replacement && |ins.args| > 0
    && Cur(t, code, m, x, j, ins.args[0]) == Some(replacement[ins.dst.value])
  }

  /** Instruction `j` of block `x` has been walked over. */
  predicate Past(done: set<nat>, b: nat, i: nat, x: nat, j: nat) {
    x in done || (x == b && j < i)
  }

  ghost predicate LoadsNamed(t: Tree, code: Code, m: Promo, replacement: map<nat, nat>, done: set<nat>, b: nat,
      i: nat) {
    && (forall x: nat, j: nat {:trigger Reads(m, code[x][j])}
          | x < |code| && j < |code[x]| && Reads(m, code[x][j]) && Past(done, b, i, x, j) ::
          Named(t, code, m, replacement, x, j))
    && (forall v | v in replacement :: ReplacedLoad(code, m, done, b, i, v))
  }

  ghost predicate ReplacedLoad(code: Code, m: Promo, done: set<nat>, b: nat, i: nat, v: nat) {
    exists x: nat, j: nat :: DefinedAt(code, v, x, j) && Reads(m, code[x][j]) && Past(done, b, i, x, j)
  }

  /** One operand for each edge from the blocks `done`: what the slot holds at its end. */
  ghost predicate Filled(t: Tree, code: Code, m: Promo, s: nat, y: nat, done: set<nat>, phi: Instr) {
    && |phi.from| == |phi.args|
    && (forall q: nat {:trigger q in phi.from} {:trigger Leads(code, q, y)} ::
          q in phi.from <==> q in done && Leads(code, q, y))
    && (forall j, k | 0 <= j < k < |phi.from| :: phi.from[j] != phi.from[k])
    && (forall k | 0 <= k < |phi.from| ::
        phi.from[k] < |code| && CurOut(t, code, m, phi.from[k], s) == Some(phi.args[k]))
  }

  /** Phis of promotions before `p` have the edge from `b` to the block `y`, as do all the
      phis of the blocks `reached`; the others have only the edges from `done`. */
  predicate EdgeGiven(reached: seq<nat>, y: nat, p: nat, x: nat, q: nat) {
    x in reached || (x == y && q < p)
  }

  ghost predicate PhisFilled(t: Tree, code: Code, m: Promo, slots: seq<nat>, phis: seq<seq<Option<Instr>>>,
      done: set<nat>, b: nat, reached: seq<nat>, y: nat, p: nat) {
    && |slots| == |phis|
    && forall q: nat, x: nat {:trigger phis[q][x]} | q < |slots| && x < |phis[q]| && phis[q][x].Some? ::
         Filled(t, code, m, slots[q], x, if EdgeGiven(reached, y, p, x, q) then done + {b} else done, phis[q][x].value)
  }

  ghost predicate Writes(m: Promo, i: Instr) {
    i.op == Store && |i.args| == 2 && i.args[0] in m.slots
  }

  /** What the walk removes: the loads and stores of the slots. */
  ghost function Removal(code: Code, m: Promo): Plan {
    Plan(set b, i | 0 <= b < |code| && 0 <= i < |code[b]| && Reads(m, code[b][i]) && code[b][i].dst.Some? ::
      code[b][i].dst.value,
         m.slots, map[])
  }

  lemma RemovalDrops(code: Code, m: Promo, b: nat, i: nat)
    requires UniqueDefs(code) && AllAccessOk(code) && b < |code| && i < |code[b]|
    requires code[b][i].op == Store ==> code[b][i].dst.None?
    ensures Dropped(Removal(code, m), code[b][i]) <==>
              Reads(m, code[b][i]) || Writes(m, code[b][i])
  {
    var ins := code[b][i];
    assert AccessOk(ins);
    if ins.dst.Some? && ins.dst.value in Removal(code, m).gone {
      var a: nat, j: nat :| a < |code| && j < |code[a]| && Reads(m, code[a][j]) && code[a][j].dst.Some? &&
          code[a][j].dst.value == ins.dst.value;
      assert DefinedAt(code, ins.dst.value, a, j) && DefinedAt(code, ins.dst.value, b, i);
    }
  }

  /** The body: blocks `done` without their loads and stores, block `b` up to `i`. */
  ghost predicate CodeDone(code: Code, m: Promo, now: Code, done: set<nat>, b: nat, i: nat) {
    && |now| == |code|
    && forall x: nat {:trigger BlockNow(code, m, now[x], done, b, i, x)} | x < |code| ::
        BlockNow(code, m, now[x], done, b, i, x)
  }

  ghost predicate BlockNow(code: Code, m: Promo, now: Block, done: set<nat>, b: nat, i: nat, x: nat)
    requires x < |code|
  {
    now == if x in done then RewriteBlock(Removal(code, m), code[x])
           else if x == b && i <= |code[x]| then RewriteBlock(Removal(code, m), code[x][..i]) + code[x][i..]
           else code[x]
  }

  /** The top of each stack; a slot with nothing on its stack is still undefined. */
  function Top(stack: seq<nat>): Option<nat> {
    if stack == [] then None else Some(stack[|stack| - 1])
  }

  function NoZeros(m: Promo): Promo {
    m.(zero := map[])
  }

  ghost predicate StacksAt(t: Tree, code: Code, m: Promo, slots: seq<nat>, stack: seq<seq<nat>>, b: nat, i: nat)
    requires b < |code| && i <= |code[b]|
  {
    |stack| == |slots| && forall p | 0 <= p < |slots| :: Top(stack[p]) == Cur(t, code, NoZeros(m), b, i, slots[p])
  }

  /** What a slot holds when control comes to `b`, before any phi. */
  ghost function Entering(t: Tree, code: Code, m: Promo, b: nat, s: nat): Option<nat> {
    if HasParent(t.rank, t.idom, b) && t.idom[b] < |code| then CurOut(t, code, m, t.idom[b], s) else None
  }

  ghost predicate StacksEntering(t: Tree, code: Code, m: Promo, slots: seq<nat>, stack: seq<seq<nat>>, b: nat, p: nat) {
    |stack| == |slots| && forall q | 0 <= q < |slots| ::
      Top(stack[q]) == if q < p &&
        (slots[q], b) in m.phi then Some(m.phi[(slots[q], b)]) else Entering(t, code, NoZeros(m), b, slots[q])
  }

  lemma EnteredStacks(t: Tree, code: Code, m: Promo, slots: seq<nat>, stack: seq<seq<nat>>, b: nat)
    requires b < |code| && StacksEntering(t, code, m, slots, stack, b, |slots|)
    ensures StacksAt(t, code, m, slots, stack, b, 0)
  {
    assert code[b][..0] == [];
    forall p | 0 <= p < |slots|
      ensures Top(stack[p]) == Cur(t, code, NoZeros(m), b, 0, slots[p])
    {
      if (slots[p], b) !in m.phi && HasParent(t.rank, t.idom, b) && t.idom[b] < |code| {
        CurInParent(t, code, NoZeros(m), b, slots[p]);
      }
    }
  }

  /** Which promotion an address belongs to. */
  ghost predicate Indexed(slots: seq<nat>, promotionOf: map<nat, nat>) {
    && (forall p | 0 <= p < |slots| :: slots[p] in promotionOf && promotionOf[slots[p]] == p)
    && (forall v | v in promotionOf :: promotionOf[v] < |slots| && slots[promotionOf[v]] == v)
  }

  // -------------------------------------------------------- more zeros change nothing

  ghost predicate MoreZeros(m: Promo, m': Promo) {
    && m'.slots == m.slots && m'.phi == m.phi && m'.ty == m.ty && m'.zeros == m.zeros
    && forall s | s in m.zero :: s in m'.zero && m'.zero[s] == m.zero[s]
  }

  lemma {:induction false} CurInGrows(t: Tree, code: Code, m: Promo, m': Promo, b: nat, s: nat)
    requires MoreZeros(m, m') && CurIn(t, code, m, b, s).Some?
    ensures CurIn(t, code, m', b, s) == CurIn(t, code, m, b, s)
    decreases if b < |t.rank| && t.rank[b] >= 0 then t.rank[b] else 0
  {
    if (s, b) !in m.phi && HasParent(t.rank, t.idom, b) && t.idom[b] < |code| && LastStored(code[t.idom[b]], s).None? {
      CurInGrows(t, code, m, m', t.idom[b], s);
    }
  }

  lemma CurGrows(t: Tree, code: Code, m: Promo, m': Promo, b: nat, i: nat, s: nat)
    requires MoreZeros(m, m') && b < |code| && i <= |code[b]| && Cur(t, code, m, b, i, s).Some?
    ensures Cur(t, code, m', b, i, s) == Cur(t, code, m, b, i, s)
  {
    if LastStored(code[b][..i], s).None? {
      CurInGrows(t, code, m, m', b, s);
    }
  }

  /** With nothing on the stack, the slot holds its zero. */
  lemma {:induction false} CurInZero(t: Tree, code: Code, m: Promo, b: nat, s: nat)
    ensures CurIn(t, code, m, b, s) ==
            if CurIn(t, code, NoZeros(m), b, s).Some? then CurIn(t, code, NoZeros(m), b, s)
            else if s in m.zero then Some(m.zero[s]) else None
    decreases if b < |t.rank| && t.rank[b] >= 0 then t.rank[b] else 0
  {
    if (s, b) !in m.phi && HasParent(t.rank, t.idom, b) && t.idom[b] < |code| && LastStored(code[t.idom[b]], s).None? {
      CurInZero(t, code, m, t.idom[b], s);
    }
  }

  lemma CurZero(t: Tree, code: Code, m: Promo, b: nat, i: nat, s: nat)
    requires b < |code| && i <= |code[b]|
    ensures Cur(t, code, m, b, i, s) ==
            if Cur(t, code, NoZeros(m), b, i, s).Some? then Cur(t, code, NoZeros(m), b, i, s)
            else if s in m.zero then Some(m.zero[s]) else None
  {
    if LastStored(code[b][..i], s).None? {
      CurInZero(t, code, m, b, s);
    }
  }

  lemma LoadsNamedGrows(t: Tree, code: Code, m: Promo, m': Promo, replacement: map<nat, nat>, done: set<nat>, b: nat,
      i: nat)
    requires MoreZeros(m, m') && LoadsNamed(t, code, m, replacement, done, b, i)
    ensures LoadsNamed(t, code, m', replacement, done, b, i)
  {
    forall x: nat, j: nat
      | x < |code| && j < |code[x]| && Reads(m', code[x][j]) && Past(done, b, i, x, j)
      ensures Named(t, code, m', replacement, x, j)
    {
      assert Reads(m, code[x][j]);
      assert Named(t, code, m, replacement, x, j);
      CurGrows(t, code, m, m', x, j, code[x][j].args[0]);
    }
    forall v | v in replacement
      ensures ReplacedLoad(code, m', done, b, i, v)
    {
      assert ReplacedLoad(code, m, done, b, i, v);
      var x: nat, j: nat :| DefinedAt(code, v, x, j) && Reads(m, code[x][j]) && Past(done, b, i, x, j);
      assert Reads(m', code[x][j]);
    }
  }

  lemma FilledGrows(t: Tree, code: Code, m: Promo, m': Promo, s: nat, y: nat, done: set<nat>, phi: Instr)
    requires MoreZeros(m, m') && Filled(t, code, m, s, y, done, phi)
    ensures Filled(t, code, m', s, y, done, phi)
  {
    forall k | 0 <= k < |phi.from|
      ensures CurOut(t, code, m', phi.from[k], s) == Some(phi.args[k])
    {
      CurGrows(t, code, m, m', phi.from[k], |code[phi.from[k]]|, s);
    }
  }

  lemma PhisFilledGrows(t: Tree, code: Code, m: Promo, m': Promo, slots: seq<nat>, phis: seq<seq<Option<Instr>>>,
      done: set<nat>, b: nat, reached: seq<nat>, y: nat, p: nat)
    requires MoreZeros(m, m') && PhisFilled(t, code, m, slots, phis, done, b, reached, y, p)
    ensures PhisFilled(t, code, m', slots, phis, done, b, reached, y, p)
  {
    forall q: nat, x: nat | q < |slots| && x < |phis[q]| && phis[q][x].Some?
      ensures Filled(t, code, m', slots[q], x, if EdgeGiven(reached, y, p, x, q) then done + {b}
          else done, phis[q][x].value)
    {
      FilledGrows(t, code, m, m', slots[q], x, if EdgeGiven(reached, y, p, x, q) then done + {b} else done,
          phis[q][x].value);
    }
  }

  // ---------------------------------------------------------------- the body, edited

  /** One more instruction of a block that has been rewritten up to `i`. */
  lemma BlockStep(p: Plan, block: Block, now: Block, i: nat)
    requires i < |block| && now == RewriteBlock(p, block[..i]) + block[i..] && p.sub == map[]
    ensures var j := |RewriteBlock(p, block[..i])|;
            && j < |now| && now[j] == block[i]
            && (if Dropped(p, block[i]) then
                  && RewriteBlock(p, block[..i + 1]) == RewriteBlock(p, block[..i])
                  && now[..j] + now[j + 1..] == RewriteBlock(p, block[..i + 1]) + block[i + 1..]
                else
                  && |RewriteBlock(p, block[..i + 1])| == j + 1
                  && now == RewriteBlock(p, block[..i + 1]) + block[i + 1..])
  {
    var x, ins := block[..i], block[i];
    assert block[..i + 1] == x + [ins];
    RewriteAppend(p, x, [ins]);
    assert RewriteBlock(p, [ins]) == (if Dropped(p, ins) then [] else [Rename(p, ins)]) + RewriteBlock(p, []);
    assert block[i..] == [ins] + block[i + 1..];
    assert NamesFor(p, ins.args) == ins.args;
    Around(RewriteBlock(p, x), ins, block[i + 1..]);
  }

  lemma CodeStep(code: Code, m: Promo, now: Code, done: set<nat>, b: nat, i: nat)
    requires CodeDone(code, m, now, done, b, i) && b < |code| && b !in done && i < |code[b]|
    ensures var p := Removal(code, m);
            var j := |RewriteBlock(p, code[b][..i])|;
            && j < |now[b]| && now[b][j] == code[b][i]
            && (if Dropped(p, code[b][i]) then
                  && |RewriteBlock(p, code[b][..i + 1])| == j
                  && CodeDone(code, m, Removed(now, b, j), done, b, i + 1)
                else
                  && |RewriteBlock(p, code[b][..i + 1])| == j + 1
                  && CodeDone(code, m, now, done, b, i + 1))
  {
    var p := Removal(code, m);
    assert BlockNow(code, m, now[b], done, b, i, b);
    BlockStep(p, code[b], now[b], i);
    var j := |RewriteBlock(p, code[b][..i])|;
    var after := if Dropped(p, code[b][i]) then Removed(now, b, j) else now;
    forall a: nat | a < |code|
      ensures BlockNow(code, m, after[a], done, b, i + 1, a)
    {
      assert BlockNow(code, m, now[a], done, b, i, a);
    }
  }

  lemma Around(x: Block, i: Instr, y: Block)
    ensures (x + ([i] + y))[|x|] == i
    ensures (x + ([i] + y))[..|x|] + (x + ([i] + y))[|x| + 1..] == x + y
    ensures x + ([i] + y) == (x + [i]) + y
  {
  }

  lemma CodeStart(code: Code, m: Promo, now: Code, done: set<nat>, b: nat, c: nat, i: nat)
    requires CodeDone(code, m, now, done, b, i) && b < |code| && c < |code| && b in done
    ensures CodeDone(code, m, now, done, c, 0)
  {
    assert code[c][..0] == [] && [] + code[c][0..] == code[c];
    forall a: nat | a < |code|
      ensures BlockNow(code, m, now[a], done, c, 0, a)
    {
      assert BlockNow(code, m, now[a], done, b, i, a);
    }
  }

  lemma CodeEnd(code: Code, m: Promo, now: Code, done: set<nat>, b: nat)
    requires b < |code| && CodeDone(code, m, now, done, b, |code[b]|)
    ensures now[b] == RewriteBlock(Removal(code, m), code[b])
    ensures CodeDone(code, m, now, done + {b}, b, 0)
  {
    assert code[b][..|code[b]|] == code[b] && code[b][|code[b]|..] == [];
    assert BlockNow(code, m, now[b], done, b, |code[b]|, b);
    forall a: nat | a < |code|
      ensures BlockNow(code, m, now[a], done + {b}, b, 0, a)
    {
      assert BlockNow(code, m, now[a], done, b, |code[b]|, a);
    }
  }

  // ---------------------------------------------------------------------- the state

  /** The tables and the body, as values. */
  datatype View = View(slots: seq<nat>, phis: seq<seq<Option<Instr>>>, undefined: seq<Option<nat>>, zeros: Block,
                       replacement: map<nat, nat>, types: seq<Ty>, now: Code,
                       stack: seq<seq<nat>>, promotionOf: map<nat, nat>, ty: seq<Ty>)

  ghost function ViewOf(f: Function, bld: Builder): View
    reads f`code, f`types, bld
  {
    View(bld.slots, bld.phis, bld.undefined, bld.zeros, bld.replacement, f.types, f.code,
         bld.stack, bld.promotionOf, bld.ty)
  }

  /** The walk when the blocks `done` and the first `i` instructions of `b` are behind it,
      and the edges out of `b` have been given to some phis. */
  ghost predicate Walk(t: Tree, code: Code, m: Promo, base: seq<Ty>, w: View, done: set<nat>, b: nat, i: nat,
      reached: seq<nat>, y: nat, p: nat) {
    match w
    case View(slots, phis, undefined, zeros, replacement, types, now, _, _, _) =>
      && Tables(m, slots, phis, undefined, |code|)
      && ZerosOk(m, zeros, base, types)
      && LoadsNamed(t, code, m, replacement, done, b, i)
      && PhisFilled(t, code, m, slots, phis, done, b, reached, y, p)
      && CodeDone(code, m, now, done, b, i)
  }

  /** What does not change during the walk. */
  ghost predicate Fixed(t: Tree, code: Code, m: Promo, w: View) {
    match w
    case View(slots, _, _, _, _, _, _, _, promotionOf, ty) =>
      && Ssa(t, code) && AllAccessOk(code) && Indexed(slots, promotionOf)
      && |ty| == |slots| && (forall p | 0 <= p < |slots| :: slots[p] in m.ty && m.ty[slots[p]] == ty[p])
  }

  lemma WalkGrows(t: Tree, code: Code, m: Promo, m': Promo, base: seq<Ty>, w: View, w': View, done: set<nat>, b: nat,
      i: nat, reached: seq<nat>, y: nat, p: nat)
    requires Walk(t, code, m, base, w, done, b, i, reached, y, p) && MoreZeros(m, m')
    requires Tables(m', w'.slots, w'.phis, w'.undefined, |code|) && ZerosOk(m', w'.zeros, base, w'.types)
    requires w'.slots == w.slots && w'.phis == w.phis && w'.replacement == w.replacement && w'.now == w.now
    ensures Walk(t, code, m', base, w', done, b, i, reached, y, p)
  {
    LoadsNamedGrows(t, code, m, m', w.replacement, done, b, i);
    PhisFilledGrows(t, code, m, m', w.slots, w.phis, done, b, reached, y, p);
    assert forall ins :: Reads(m, ins) <==> Reads(m', ins);
    assert Removal(code, m') == Removal(code, m);
    forall a: nat | a < |code|
      ensures BlockNow(code, m', w.now[a], done, b, i, a)
    {
      assert BlockNow(code, m, w.now[a], done, b, i, a);
    }
  }

  /** The definition in scope; where there is none, the slot's zero. */
  method CurrentDef(f: Function, bld: Builder, ghost m: Promo, ghost base: seq<Ty>, ghost blocks: nat, p: nat)
    returns (v: nat, ghost m': Promo)
    requires Tables(m, bld.slots, bld.phis, bld.undefined, blocks) && ZerosOk(m, bld.zeros, base, f.types)
    requires p < |bld.slots| == |bld.stack| == |bld.ty|
    requires bld.slots[p] in m.ty && m.ty[bld.slots[p]] == bld.ty[p]
    modifies bld`undefined, bld`zeros, f`types
    ensures MoreZeros(m, m') && NoZeros(m') == NoZeros(m)
    ensures Tables(m', bld.slots, bld.phis, bld.undefined, blocks) && ZerosOk(m', bld.zeros, base, f.types)
    ensures Some(v) == if Top(bld.stack[p]).Some? then Top(bld.stack[p])
                       else if bld.slots[p] in m'.zero then Some(m'.zero[bld.slots[p]]) else None
  {
    m' := m;
    if |bld.stack[p]| > 0 {
      return bld.stack[p][|bld.stack[p]| - 1], m;
    }
    if bld.undefined[p].None? {
      var id := |f.types|;
      var zero := Emit(Const).(imm := 0, dst := Some(id));
      m' := m.(zero := m.zero[bld.slots[p] := id]);
      NewZero(m, bld.zeros, base, f.types, bld.slots[p], zero);
      bld.zeros := [zero] + bld.zeros;
      f.types := f.types + [bld.ty[p]];
      bld.undefined := bld.undefined[p := Some(id)];
    }
    v := bld.undefined[p].value;
  }

  lemma NewZero(m: Promo, zeros: Block, base: seq<Ty>, types: seq<Ty>, s: nat, zero: Instr)
    requires ZerosOk(m, zeros, base, types) && s in m.slots && s !in m.zero
    requires zero == Emit(Const).(imm := 0, dst := Some(|types|))
    ensures ZerosOk(m.(zero := m.zero[s := |types|]), [zero] + zeros, base, types + [m.ty[s]])
  {
    DefsHead([zero] + zeros);
    assert ([zero] + zeros)[1..] == zeros;
    forall x | x in m.zero
      ensures m.zero[x] < |types|
    {
      var k :| 0 <= k < |zeros| && zeros[k].dst.Some? && zeros[k].dst.value == m.zero[x];
    }
  }

  // ------------------------------------------------------------------ one instruction

  /** Where instruction `i` of `b` is now. */
  ghost function Place(code: Code, m: Promo, b: nat, i: nat): nat
    requires b < |code| && i <= |code[b]|
  {
    |RewriteBlock(Removal(code, m), code[b][..i])|
  }

  lemma LoadsNamedLoad(t: Tree, code: Code, m: Promo, replacement: map<nat, nat>, done: set<nat>, b: nat, i: nat,
      v: nat)
    requires UniqueDefs(code) && LoadsNamed(t, code, m, replacement, done, b, i)
    requires b < |code| && b !in done && i < |code[b]| && Reads(m, code[b][i]) && code[b][i].dst.Some?
    requires Cur(t, code, m, b, i, code[b][i].args[0]) == Some(v)
    ensures LoadsNamed(t, code, m, replacement[code[b][i].dst.value := v], done, b, i + 1)
  {
    var d := code[b][i].dst.value;
    var after := replacement[d := v];
    assert DefinedAt(code, d, b, i);
    forall x: nat, j: nat
      | x < |code| && j < |code[x]| && Reads(m, code[x][j]) && Past(done, b, i + 1, x, j)
      ensures Named(t, code, m, after, x, j)
    {
      if x != b || j != i {
        assert Named(t, code, m, replacement, x, j);
        assert DefinedAt(code, code[x][j].dst.value, x, j);
      }
    }
    forall u | u in after
      ensures ReplacedLoad(code, m, done, b, i + 1, u)
    {
      if u != d {
        StillReplaced(code, m, done, b, i, u);
      } else {
        assert Past(done, b, i + 1, b, i);
      }
    }
  }

  lemma StillReplaced(code: Code, m: Promo, done: set<nat>, b: nat, i: nat, u: nat)
    requires ReplacedLoad(code, m, done, b, i, u)
    ensures ReplacedLoad(code, m, done, b, i + 1, u)
  {
    var x: nat, j: nat :| DefinedAt(code, u, x, j) && Reads(m, code[x][j]) && Past(done, b, i, x, j);
    assert Past(done, b, i + 1, x, j);
  }

  lemma LoadsNamedOther(t: Tree, code: Code, m: Promo, replacement: map<nat, nat>, done: set<nat>, b: nat, i: nat)
    requires LoadsNamed(t, code, m, replacement, done, b, i)
    requires b < |code| && i < |code[b]| && !Reads(m, code[b][i])
    ensures LoadsNamed(t, code, m, replacement, done, b, i + 1)
  {
    forall v | v in replacement
      ensures ReplacedLoad(code, m, done, b, i + 1, v)
    {
      StillReplaced(code, m, done, b, i, v);
    }
  }

  ghost predicate InBlock(t: Tree, code: Code, m: Promo, base: seq<Ty>, w: View, done: set<nat>, b: nat, i: nat) {
    match w
    case View(slots, _, _, _, _, _, _, stack, _, _) =>
      && Fixed(t, code, m, w) && b < |code| && b !in done && i <= |code[b]|
      && Walk(t, code, m, base, w, done, b, i, [], 0, 0)
      && StacksAt(t, code, m, slots, stack, b, i)
  }

  lemma RemovedAt(t: Tree, code: Code, m: Promo, base: seq<Ty>, w: View, done: set<nat>, b: nat, i: nat)
    requires InBlock(t, code, m, base, w, done, b, i) && i < |code[b]|
    ensures var j := Place(code, m, b, i);
            && |w.now| == |code| && j < |w.now[b]| && w.now[b][j] == code[b][i]
            && AccessOk(code[b][i])
            && (if Reads(m, code[b][i]) || Writes(m, code[b][i]) then
                  && CodeDone(code, m, Removed(w.now, b, j), done, b, i + 1) && Place(code, m, b, i + 1) == j
                else
                  && CodeDone(code, m, w.now, done, b, i + 1) && Place(code, m, b, i + 1) == j + 1)
  {
    CodeStep(code, m, w.now, done, b, i);
    SsaStoresPlain(t, code);
    assert StoresHaveNoResult(code[b]);
    RemovalDrops(code, m, b, i);
  }

  lemma WalkLoad(t: Tree, code: Code, m: Promo, base: seq<Ty>, w: View, done: set<nat>, b: nat, i: nat, v: nat)
    requires InBlock(t, code, m, base, w, done, b, i) && i < |code[b]| && Reads(m, code[b][i])
    requires Cur(t, code, m, b, i, code[b][i].args[0]) == Some(v)
    ensures |w.now| == |code| && Place(code, m, b, i) < |w.now[b]| && code[b][i].dst.Some?
    ensures InBlock(t, code, m, base, w.(now := Removed(w.now, b, Place(code, m, b, i)),
                                        replacement := w.replacement[code[b][i].dst.value := v]), done, b, i + 1)
    ensures Place(code, m, b, i + 1) == Place(code, m, b, i)
  {
    RemovedAt(t, code, m, base, w, done, b, i);
    LoadsNamedLoad(t, code, m, w.replacement, done, b, i, v);
    StacksStay(t, code, m, w.slots, w.stack, b, i);
  }

  lemma StacksStay(t: Tree, code: Code, m: Promo, slots: seq<nat>, stack: seq<seq<nat>>, b: nat, i: nat)
    requires b < |code| && i < |code[b]| && StacksAt(t, code, m, slots, stack, b, i)
    requires forall p | 0 <= p < |slots| :: !Stores(code[b][i], slots[p])
    ensures StacksAt(t, code, m, slots, stack, b, i + 1)
  {
    forall p | 0 <= p < |slots|
      ensures Top(stack[p]) == Cur(t, code, NoZeros(m), b, i + 1, slots[p])
    {
      CurStep(t, code, NoZeros(m), b, i, slots[p]);
    }
  }

  lemma WalkStore(t: Tree, code: Code, m: Promo, base: seq<Ty>, w: View, done: set<nat>, b: nat, i: nat, p: nat)
    requires InBlock(t, code, m, base, w, done, b, i) && i < |code[b]|
    requires p < |w.slots| && Stores(code[b][i], w.slots[p])
    ensures |w.now| == |code| && Place(code, m, b, i) < |w.now[b]| && p < |w.stack|
    ensures InBlock(t, code, m, base, w.(now := Removed(w.now, b, Place(code, m, b, i)),
                                        stack := w.stack[p := w.stack[p] + [code[b][i].args[1]]]), done, b, i + 1)
    ensures Place(code, m, b, i + 1) == Place(code, m, b, i)
  {
    RemovedAt(t, code, m, base, w, done, b, i);
    LoadsNamedOther(t, code, m, w.replacement, done, b, i);
    StacksPush(t, code, m, w.slots, w.stack, b, i, p);
  }

  lemma StacksPush(t: Tree, code: Code, m: Promo, slots: seq<nat>, stack: seq<seq<nat>>, b: nat, i: nat, p: nat)
    requires b < |code| && i < |code[b]| && StacksAt(t, code, m, slots, stack, b, i)
    requires p < |slots| && Stores(code[b][i], slots[p]) && forall q | 0 <= q < |slots| && q != p ::
               slots[q] != slots[p]
    ensures StacksAt(t, code, m, slots, stack[p := stack[p] + [code[b][i].args[1]]], b, i + 1)
  {
    var after := stack[p := stack[p] + [code[b][i].args[1]]];
    forall q | 0 <= q < |slots|
      ensures Top(after[q]) == Cur(t, code, NoZeros(m), b, i + 1, slots[q])
    {
      CurStep(t, code, NoZeros(m), b, i, slots[q]);
    }
  }

  lemma WalkOther(t: Tree, code: Code, m: Promo, base: seq<Ty>, w: View, done: set<nat>, b: nat, i: nat)
    requires InBlock(t, code, m, base, w, done, b, i) && i < |code[b]|
    requires !Reads(m, code[b][i]) && !Writes(m, code[b][i])
    ensures InBlock(t, code, m, base, w, done, b, i + 1)
    ensures Place(code, m, b, i + 1) == Place(code, m, b, i) + 1
  {
    RemovedAt(t, code, m, base, w, done, b, i);
    LoadsNamedOther(t, code, m, w.replacement, done, b, i);
    StacksStay(t, code, m, w.slots, w.stack, b, i);
  }

  // ------------------------------------------------------------------- the methods

  method PromotionIndex(bld: Builder, address: nat) returns (index: int)
    requires Indexed(bld.slots, bld.promotionOf)
    ensures if address in bld.slots then 0 <= index < |bld.slots| && bld.slots[index] == address else index == -1
  {
    if address in bld.promotionOf {
      return bld.promotionOf[address];
    }
    index := -1;
  }

  /** What the stacks gained: `pushed` entries each. */
  ghost predicate Grown(before: seq<seq<nat>>, after: seq<seq<nat>>, pushed: seq<nat>) {
    && |before| == |after| == |pushed|
    && forall p | 0 <= p < |after| :: |after[p]| == |before[p]| + pushed[p] && after[p][..|before[p]|] == before[p]
  }

  lemma PushGrows(before: seq<seq<nat>>, after: seq<seq<nat>>, pushed: seq<nat>, p: nat, v: nat)
    requires Grown(before, after, pushed) && p < |after|
    ensures Grown(before, after[p := after[p] + [v]], pushed[p := pushed[p] + 1])
  {
  }

  /** One instruction of the walk. `j` is where it is now. */
  method RenameInstr(f: Function, bld: Builder, ghost t: Tree, ghost code: Code, ghost m: Promo, ghost base: seq<Ty>,
      ghost done: set<nat>, b: nat, ghost i: nat, j: nat, pushed: seq<nat>, ghost stack0: seq<seq<nat>>)
    returns (j': nat, pushed': seq<nat>, ghost m': Promo)
    requires InBlock(t, code, m, base, ViewOf(f, bld), done, b, i) && i < |code[b]|
    requires j == Place(code, m, b, i) && Grown(stack0, bld.stack, pushed)
    modifies f`code, f`types, bld`undefined, bld`zeros, bld`replacement, bld`stack
    ensures NoZeros(m') == NoZeros(m)
    ensures InBlock(t, code, m', base, ViewOf(f, bld), done, b, i + 1)
    ensures j' == Place(code, m', b, i + 1) && Grown(stack0, bld.stack, pushed')
  {
    m' := m;
    j', pushed' := j, pushed;
    var ins, index := Accessed(f, bld, t, code, m, base, done, b, i, j);
    if ins.op == Load && index >= 0 {
      m' := RenameLoad(f, bld, t, code, m, base, done, b, i, j, ins, index);
    } else if ins.op == Store && index >= 0 {
      pushed' := RenameStore(f, bld, t, code, m, base, done, b, i, j, ins, index, pushed, stack0);
    } else {
      WalkOther(t, code, m, base, ViewOf(f, bld), done, b, i);
      j' := j + 1;
    }
  }

  /** The instruction, and which promotion it loads or stores. */
  method Accessed(f: Function, bld: Builder, ghost t: Tree, ghost code: Code, ghost m: Promo, ghost base: seq<Ty>,
      ghost done: set<nat>, b: nat, ghost i: nat, j: nat)
    returns (ins: Instr, index: int)
    requires InBlock(t, code, m, base, ViewOf(f, bld), done, b, i) && i < |code[b]|
    requires j == Place(code, m, b, i)
    ensures ins == code[b][i] && index < |bld.slots|
    ensures index >= 0 ==> if ins.op == Load then Reads(m, ins) && bld.slots[index] == ins.args[0]
                           else Stores(ins, bld.slots[index])
    ensures index < 0 ==> !Reads(m, ins) && !Writes(m, ins)
  {
    RemovedAt(t, code, m, base, ViewOf(f, bld), done, b, i);
    ins := f.code[b][j];
    index := -1;
    if ins.op == Load || ins.op == Store {
      index := PromotionIndex(bld, ins.args[0]);
    }
  }

  method RenameLoad(f: Function, bld: Builder, ghost t: Tree, ghost code: Code, ghost m: Promo, ghost base: seq<Ty>,
      ghost done: set<nat>, b: nat, ghost i: nat, j: nat, ins: Instr, p: nat)
    returns (ghost m': Promo)
    requires InBlock(t, code, m, base, ViewOf(f, bld), done, b, i) && i < |code[b]| && ins == code[b][i]
    requires j == Place(code, m, b, i)
    requires Reads(m, ins) && p < |bld.slots| && bld.slots[p] == ins.args[0]
    modifies f`code, f`types, bld`undefined, bld`zeros, bld`replacement
    ensures NoZeros(m') == NoZeros(m)
    ensures InBlock(t, code, m', base, ViewOf(f, bld), done, b, i + 1)
    ensures j == Place(code, m', b, i + 1)
  {
    var v;
    v, m' := ReadDef(f, bld, t, code, m, base, done, b, i, p);
    WalkLoad(t, code, m', base, ViewOf(f, bld), done, b, i, v);
    bld.replacement := bld.replacement[ins.dst.value := v];
    Remove(f, b, j);
  }

  method RenameStore(f: Function, bld: Builder, ghost t: Tree, ghost code: Code, ghost m: Promo, ghost base: seq<Ty>,
      ghost done: set<nat>, b: nat, ghost i: nat, j: nat, ins: Instr, p: nat, pushed: seq<nat>,
      ghost stack0: seq<seq<nat>>)
    returns (pushed': seq<nat>)
    requires InBlock(t, code, m, base, ViewOf(f, bld), done, b, i) && i < |code[b]| && ins == code[b][i]
    requires j == Place(code, m, b, i) && Grown(stack0, bld.stack, pushed)
    requires p < |bld.slots| && Stores(ins, bld.slots[p])
    modifies f`code, bld`stack
    ensures InBlock(t, code, m, base, ViewOf(f, bld), done, b, i + 1)
    ensures j == Place(code, m, b, i + 1) && Grown(stack0, bld.stack, pushed')
  {
    WalkStore(t, code, m, base, ViewOf(f, bld), done, b, i, p);
    PushGrows(stack0, bld.stack, pushed, p, ins.args[1]);
    bld.stack := bld.stack[p := bld.stack[p] + [ins.args[1]]];
    pushed' := pushed[p := pushed[p] + 1];
    Remove(f, b, j);
  }

  /** The value a slot holds at this point. */
  method ReadDef(f: Function, bld: Builder, ghost t: Tree, ghost code: Code, ghost m: Promo, ghost base: seq<Ty>,
      ghost done: set<nat>, b: nat, ghost i: nat, p: nat)
    returns (v: nat, ghost m': Promo)
    requires InBlock(t, code, m, base, ViewOf(f, bld), done, b, i) && p < |bld.slots|
    modifies f`types, bld`undefined, bld`zeros
    ensures NoZeros(m') == NoZeros(m)
    ensures InBlock(t, code, m', base, ViewOf(f, bld), done, b, i)
    ensures Cur(t, code, m', b, i, bld.slots[p]) == Some(v)
    ensures Removal(code, m') == Removal(code, m)
  {
    ghost var w := ViewOf(f, bld);
    v, m' := CurrentDef(f, bld, m, base, |code|, p);
    WalkGrows(t, code, m, m', base, w, ViewOf(f, bld), done, b, i, [], 0, 0);
    CurZero(t, code, m', b, i, bld.slots[p]);
    SameRemoval(code, m, m');
  }

  lemma SameRemoval(code: Code, m: Promo, m': Promo)
    requires NoZeros(m') == NoZeros(m)
    ensures Removal(code, m') == Removal(code, m)
  {
    assert NoZeros(m').slots == m'.slots && NoZeros(m).slots == m.slots;
    assert forall ins :: Reads(m, ins) <==> Reads(m', ins);
  }

  // ------------------------------------------------------------------- whole blocks

  lemma AtEnd(t: Tree, code: Code, m: Promo, base: seq<Ty>, w: View, done: set<nat>, b: nat, i: nat)
    requires InBlock(t, code, m, base, w, done, b, i)
    ensures b < |w.now| && i <= |code[b]|
    ensures Place(code, m, b, i) < |w.now[b]| <==> i < |code[b]|
    ensures i == 0 ==> Place(code, m, b, i) == 0
  {
    assert i == 0 ==> code[b][..i] == [];
    assert BlockNow(code, m, w.now[b], done, b, i, b);
  }

  /** The loop over a block's instructions. */
  method RenameInstrs(f: Function, bld: Builder, ghost t: Tree, ghost code: Code, ghost m: Promo, ghost base: seq<Ty>,
      ghost done: set<nat>, b: nat, pushed: seq<nat>, ghost stack0: seq<seq<nat>>)
    returns (pushed': seq<nat>, ghost m': Promo)
    requires InBlock(t, code, m, base, ViewOf(f, bld), done, b, 0) && Grown(stack0, bld.stack, pushed)
    modifies f`code, f`types, bld`undefined, bld`zeros, bld`replacement, bld`stack
    ensures NoZeros(m') == NoZeros(m)
    ensures InBlock(t, code, m', base, ViewOf(f, bld), done, b, |code[b]|) && Grown(stack0, bld.stack, pushed')
  {
    m', pushed' := m, pushed;
    ghost var i: nat := 0;
    var j: nat := 0;
    AtEnd(t, code, m, base, ViewOf(f, bld), done, b, 0);
    while j < |f.code[b]|
      invariant NoZeros(m') == NoZeros(m) && b < |code| && i <= |code[b]|
      invariant InBlock(t, code, m', base, ViewOf(f, bld), done, b, i) && Grown(stack0, bld.stack, pushed')
      invariant b < |f.code| && j == Place(code, m', b, i) && (j < |f.code[b]| <==> i < |code[b]|)
      decreases |code[b]| - i
    {
      j, pushed', m' := RenameInstr(f, bld, t, code, m', base, done, b, i, j, pushed', stack0);
      i := i + 1;
      AtEnd(t, code, m', base, ViewOf(f, bld), done, b, i);
    }
  }

  ghost predicate Entered(t: Tree, code: Code, m: Promo, base: seq<Ty>, w: View, done: set<nat>, b: nat, p: nat) {
    match w
    case View(slots, _, _, _, _, _, _, stack, _, _) =>
      && Fixed(t, code, m, w) && b < |code| && b !in done
      && Walk(t, code, m, base, w, done, b, 0, [], 0, 0)
      && StacksEntering(t, code, m, slots, stack, b, p)
  }

  lemma PushPhi(t: Tree, code: Code, m: Promo, slots: seq<nat>, phis: seq<seq<Option<Instr>>>,
      undefined: seq<Option<nat>>, stack: seq<seq<nat>>, b: nat, p: nat)
    requires Tables(m, slots, phis, undefined, |code|) && b < |code|
    requires StacksEntering(t, code, m, slots, stack, b, p) && p < |slots|
    ensures |phis| == |stack| == |slots| && b < |phis[p]|
    ensures if phis[p][b].Some? then
              phis[p][b].value.dst.Some? &&
              StacksEntering(t, code, m, slots, stack[p := stack[p] + [phis[p][b].value.dst.value]], b, p + 1)
            else StacksEntering(t, code, m, slots, stack, b, p + 1)
  {
    if phis[p][b].Some? {
      var v := m.phi[(slots[p], b)];
      assert phis[p][b].value.dst == Some(v);
      assert Top(stack[p] + [v]) == Some(v);
    }
  }

  /** A phi at the top of a block defines its slot from there down. */
  method PushPhis(f: Function, bld: Builder, ghost t: Tree, ghost code: Code, ghost m: Promo, ghost base: seq<Ty>,
      ghost done: set<nat>, b: nat)
    returns (pushed: seq<nat>)
    requires Entered(t, code, m, base, ViewOf(f, bld), done, b, 0)
    modifies bld`stack
    ensures InBlock(t, code, m, base, ViewOf(f, bld), done, b, 0) && Grown(old(bld.stack), bld.stack, pushed)
  {
    pushed := seq(|bld.slots|, _ => 0);
    ghost var w := ViewOf(f, bld);
    for p: nat := 0 to |bld.slots|
      invariant StacksEntering(t, code, m, bld.slots, bld.stack, b, p)
      invariant Grown(old(bld.stack), bld.stack, pushed)
    {
      PushPhi(t, code, m, bld.slots, bld.phis, bld.undefined, bld.stack, b, p);
      var phi := bld.phis[p][b];
      if phi.Some? {
        PushGrows(old(bld.stack), bld.stack, pushed, p, phi.value.dst.value);
        bld.stack := bld.stack[p := bld.stack[p] + [phi.value.dst.value]];
        pushed := pushed[p := pushed[p] + 1];
      }
    }
    EnteredBlock(t, code, m, base, w, bld.stack, done, b);
  }

  lemma EnteredBlock(t: Tree, code: Code, m: Promo, base: seq<Ty>, w: View, stack: seq<seq<nat>>, done: set<nat>,
      b: nat)
    requires Entered(t, code, m, base, w, done, b, 0) && StacksEntering(t, code, m, w.slots, stack, b, |w.slots|)
    ensures InBlock(t, code, m, base, w.(stack := stack), done, b, 0)
  {
    EnteredStacks(t, code, m, w.slots, stack, b);
  }

  // --------------------------------------------------------------- the edges out of it

  ghost predicate Leaving(t: Tree, code: Code, m: Promo, base: seq<Ty>, w: View, done: set<nat>, b: nat,
      reached: seq<nat>, y: nat, p: nat) {
    match w
    case View(slots, _, _, _, _, _, _, stack, _, _) =>
      && Fixed(t, code, m, w) && b < |code| && b !in done
      && Walk(t, code, m, base, w, done, b, |code[b]|, reached, y, p)
      && StacksAt(t, code, m, slots, stack, b, |code[b]|)
  }

  lemma FilledMore(t: Tree, code: Code, m: Promo, s: nat, y: nat, done: set<nat>, b: nat, phi: Instr, v: nat)
    requires Filled(t, code, m, s, y, done, phi) && b !in done && Leads(code, b, y)
    requires CurOut(t, code, m, b, s) == Some(v)
    ensures Filled(t, code, m, s, y, done + {b}, phi.(args := phi.args + [v], from := phi.from + [b]))
  {
    var more := phi.from + [b];
    assert b !in phi.from;
    forall q: nat
      ensures q in more <==> q in done + {b} && Leads(code, q, y)
    {
      assert q in more <==> q in phi.from || q == b;
    }
  }

  /** One phi gets its operand for the edge. */
  lemma GiveEdge(t: Tree, code: Code, m: Promo, slots: seq<nat>, phis: seq<seq<Option<Instr>>>, done: set<nat>,
      b: nat, reached: seq<nat>, y: nat, p: nat, v: nat)
    requires PhisFilled(t, code, m, slots, phis, done, b, reached, y, p) && b !in done && Leads(code, b, y)
    requires y !in reached && p < |phis| && y < |phis[p]| && phis[p][y].Some?
    requires CurOut(t, code, m, b, slots[p]) == Some(v)
    ensures PhisFilled(t, code, m, slots, phis[p := phis[p][y := Some(AddOperand(phis[p][y].value, v, b))]],
                       done, b, reached, y, p + 1)
  {
    FilledMore(t, code, m, slots[p], y, done, b, phis[p][y].value, v);
    var after: seq<seq<Option<Instr>>> := phis[p := phis[p][y := Some(AddOperand(phis[p][y].value, v, b))]];
    forall q: nat, x: nat | q < |slots| && x < |after[q]| && after[q][x].Some?
      ensures Filled(t, code, m, slots[q], x, if EdgeGiven(reached, y, p + 1, x, q) then done + {b}
          else done, after[q][x].value)
    {
      assert phis[q][x].Some?;
    }
  }

  lemma SkipEdge(t: Tree, code: Code, m: Promo, slots: seq<nat>, phis: seq<seq<Option<Instr>>>, done: set<nat>,
      b: nat, reached: seq<nat>, y: nat, p: nat)
    requires PhisFilled(t, code, m, slots, phis, done, b, reached, y, p)
    requires p < |phis| && y < |phis[p]| && phis[p][y].None?
    ensures PhisFilled(t, code, m, slots, phis, done, b, reached, y, p + 1)
  {
  }

  lemma NextEdge(t: Tree, code: Code, m: Promo, slots: seq<nat>, phis: seq<seq<Option<Instr>>>, done: set<nat>,
      b: nat, reached: seq<nat>, y: nat, y': nat)
    requires PhisFilled(t, code, m, slots, phis, done, b, reached, y, |slots|)
    ensures PhisFilled(t, code, m, slots, phis, done, b, reached + [y], y', 0)
  {
    forall q: nat, x: nat | q < |slots|
      ensures EdgeGiven(reached + [y], y', 0, x, q) <==> EdgeGiven(reached, y, |slots|, x, q)
    {
    }
  }

  lemma AllEdges(t: Tree, code: Code, m: Promo, slots: seq<nat>, phis: seq<seq<Option<Instr>>>, done: set<nat>,
      b: nat, y: nat, c: nat)
    requires b < |code| && PhisFilled(t, code, m, slots, phis, done, b, Successors(code[b]), y, 0)
    ensures PhisFilled(t, code, m, slots, phis, done + {b}, c, [], 0, 0)
  {
    forall q: nat, x: nat | q < |slots| && x < |phis[q]| && phis[q][x].Some?
      ensures Filled(t, code, m, slots[q], x, done + {b}, phis[q][x].value)
    {
      if x !in Successors(code[b]) {
        assert !Leads(code, b, x);
      }
    }
  }

  function AddOperand(phi: Instr, v: nat, b: nat): Instr {
    phi.(args := phi.args + [v], from := phi.from + [b])
  }

  lemma LeavingGive(t: Tree, code: Code, m: Promo, base: seq<Ty>, w: View, done: set<nat>, b: nat, reached: seq<nat>,
      y: nat, p: nat, v: nat)
    requires Leaving(t, code, m, base, w, done, b, reached, y, p) && p < |w.slots|
    requires Leads(code, b, y) && y < |code| && y !in reached
    requires p < |w.phis| && y < |w.phis[p]| && w.phis[p][y].Some?
    requires CurOut(t, code, m, b, w.slots[p]) == Some(v)
    ensures Leaving(t, code, m, base,
        w.(phis := w.phis[p := w.phis[p][y := Some(AddOperand(w.phis[p][y].value, v, b))]]),
                    done, b, reached, y, p + 1)
  {
    GiveEdge(t, code, m, w.slots, w.phis, done, b, reached, y, p, v);
    OperandKeepsTables(m, w.slots, w.phis, w.undefined, |code|, y, p, v, b);
  }

  lemma OperandKeepsTables(m: Promo, slots: seq<nat>, phis: seq<seq<Option<Instr>>>, undefined: seq<Option<nat>>,
      blocks: nat, y: nat, p: nat, v: nat, b: nat)
    requires Tables(m, slots, phis, undefined, blocks)
    requires p < |phis| && y < |phis[p]| && phis[p][y].Some?
    ensures Tables(m, slots, phis[p := phis[p][y := Some(AddOperand(phis[p][y].value, v, b))]], undefined, blocks)
  {
  }

  lemma LeavingSkip(t: Tree, code: Code, m: Promo, base: seq<Ty>, w: View, done: set<nat>, b: nat, reached: seq<nat>,
      y: nat, p: nat)
    requires Leaving(t, code, m, base, w, done, b, reached, y, p)
    requires p < |w.phis| && y < |w.phis[p]| && w.phis[p][y].None?
    ensures Leaving(t, code, m, base, w, done, b, reached, y, p + 1)
  {
    SkipEdge(t, code, m, w.slots, w.phis, done, b, reached, y, p);
  }

  lemma LeavingIndex(t: Tree, code: Code, m: Promo, base: seq<Ty>, w: View, done: set<nat>, b: nat, reached: seq<nat>,
      y: nat, p: nat)
    requires Leaving(t, code, m, base, w, done, b, reached, y, p) && y < |code|
    ensures |w.slots| == |w.phis| && forall q | 0 <= q < |w.phis| :: y < |w.phis[q]|
  {
  }

  /** The value a slot holds at the end of the block. */
  method EndDef(f: Function, bld: Builder, ghost t: Tree, ghost code: Code, ghost m: Promo, ghost base: seq<Ty>,
      ghost done: set<nat>, b: nat, ghost reached: seq<nat>, ghost y: nat, p: nat)
    returns (v: nat, ghost m': Promo)
    requires Leaving(t, code, m, base, ViewOf(f, bld), done, b, reached, y, p) && p < |bld.slots|
    modifies f`types, bld`undefined, bld`zeros
    ensures NoZeros(m') == NoZeros(m)
    ensures Leaving(t, code, m', base, ViewOf(f, bld), done, b, reached, y, p)
    ensures b < |code| && CurOut(t, code, m', b, bld.slots[p]) == Some(v)
  {
    ghost var w := ViewOf(f, bld);
    v, m' := CurrentDef(f, bld, m, base, |code|, p);
    WalkGrows(t, code, m, m', base, w, ViewOf(f, bld), done, b, |code[b]|, reached, y, p);
    CurZero(t, code, m', b, |code[b]|, bld.slots[p]);
  }

  /** What arrives at one phi of a successor along the edge from here. */
  method FillPhi(f: Function, bld: Builder, ghost t: Tree, ghost code: Code, ghost m: Promo, ghost base: seq<Ty>,
      ghost done: set<nat>, b: nat, ghost reached: seq<nat>, y: nat, p: nat)
    returns (ghost m': Promo)
    requires Leaving(t, code, m, base, ViewOf(f, bld), done, b, reached, y, p) && p < |bld.slots|
    requires Leads(code, b, y) && y < |code| && y !in reached
    modifies f`types, bld`undefined, bld`zeros, bld`phis
    ensures NoZeros(m') == NoZeros(m)
    ensures Leaving(t, code, m', base, ViewOf(f, bld), done, b, reached, y, p + 1)
  {
    m' := m;
    LeavingIndex(t, code, m, base, ViewOf(f, bld), done, b, reached, y, p);
    if bld.phis[p][y].Some? {
      var v;
      v, m' := EndDef(f, bld, t, code, m, base, done, b, reached, y, p);
      LeavingGive(t, code, m', base, ViewOf(f, bld), done, b, reached, y, p, v);
      bld.phis := bld.phis[p := bld.phis[p][y := Some(AddOperand(bld.phis[p][y].value, v, b))]];
    } else {
      LeavingSkip(t, code, m, base, ViewOf(f, bld), done, b, reached, y, p);
    }
  }

  /** ... at all the phis of one successor. */
  method FillPhis(f: Function, bld: Builder, ghost t: Tree, ghost code: Code, ghost m: Promo, ghost base: seq<Ty>,
      ghost done: set<nat>, b: nat, ghost reached: seq<nat>, y: nat)
    returns (ghost m': Promo)
    requires Leaving(t, code, m, base, ViewOf(f, bld), done, b, reached, 0, 0)
    requires Leads(code, b, y) && y < |code| && y !in reached
    modifies f`types, bld`undefined, bld`zeros, bld`phis
    ensures NoZeros(m') == NoZeros(m)
    ensures Leaving(t, code, m', base, ViewOf(f, bld), done, b, reached + [y], 0, 0)
  {
    m' := m;
    NextTarget(t, code, m, base, ViewOf(f, bld), done, b, reached, y);
    for p: nat := 0 to |bld.slots|
      invariant NoZeros(m') == NoZeros(m)
      invariant Leaving(t, code, m', base, ViewOf(f, bld), done, b, reached, y, p)
    {
      m' := FillPhi(f, bld, t, code, m', base, done, b, reached, y, p);
    }
    TargetDone(t, code, m', base, ViewOf(f, bld), done, b, reached, y);
  }

  /** Tell each successor's phis what arrives along the edge from here. */
  method FillSuccessors(f: Function, bld: Builder, ghost t: Tree, ghost code: Code, ghost m: Promo,
      ghost base: seq<Ty>, ghost done: set<nat>, b: nat)
    returns (ghost m': Promo)
    requires InBlock(t, code, m, base, ViewOf(f, bld), done, b, if b < |code| then |code[b]| else 0)
    modifies f`types, bld`undefined, bld`zeros, bld`phis
    ensures NoZeros(m') == NoZeros(m)
    ensures b < |code| && Leaving(t, code, m', base, ViewOf(f, bld), done, b, Successors(code[b]), 0, 0)
  {
    m' := m;
    SuccessorsNow(t, code, m, base, ViewOf(f, bld), done, b);
    var successors := Successors(f.code[b]);
    for k: nat := 0 to |successors|
      invariant NoZeros(m') == NoZeros(m)
      invariant Leaving(t, code, m', base, ViewOf(f, bld), done, b, successors[..k], 0, 0)
    {
      m' := FillPhis(f, bld, t, code, m', base, done, b, successors[..k], successors[k]);
      assert successors[..k + 1] == successors[..k] + [successors[k]];
    }
    assert successors[..|successors|] == successors;
  }

  lemma SuccessorsNow(t: Tree, code: Code, m: Promo, base: seq<Ty>, w: View, done: set<nat>, b: nat)
    requires b < |code| && InBlock(t, code, m, base, w, done, b, |code[b]|)
    ensures b < |w.now| && Successors(w.now[b]) == Successors(code[b])
    ensures Leaving(t, code, m, base, w, done, b, [], 0, 0)
    ensures forall k | 0 <= k < |Successors(code[b])| ::
              Leads(code, b, Successors(code[b])[k]) && Successors(code[b])[k] < |code|
    ensures forall k | 0 <= k < |Successors(code[b])| :: Successors(code[b])[k] !in Successors(code[b])[..k]
  {
    CodeEnd(code, m, w.now, done, b);
    RewriteFlow(t, Removal(code, m), code, b);
    forall k | 0 <= k < |Successors(code[b])|
      ensures Leads(code, b, Successors(code[b])[k]) && Successors(code[b])[k] < |code|
    {
      assert Leads(code, b, Successors(code[b])[k]);
    }
  }

  lemma NextTarget(t: Tree, code: Code, m: Promo, base: seq<Ty>, w: View, done: set<nat>, b: nat, reached: seq<nat>,
      y: nat)
    requires Leaving(t, code, m, base, w, done, b, reached, 0, 0)
    ensures Leaving(t, code, m, base, w, done, b, reached, y, 0)
  {
    forall q: nat, x: nat | q < |w.slots|
      ensures EdgeGiven(reached, y, 0, x, q) <==> EdgeGiven(reached, 0, 0, x, q)
    {
    }
  }

  lemma TargetDone(t: Tree, code: Code, m: Promo, base: seq<Ty>, w: View, done: set<nat>, b: nat, reached: seq<nat>,
      y: nat)
    requires Leaving(t, code, m, base, w, done, b, reached, y, |w.slots|)
    ensures Leaving(t, code, m, base, w, done, b, reached + [y], 0, 0)
  {
    NextEdge(t, code, m, w.slots, w.phis, done, b, reached, y, 0);
  }

  // --------------------------------------------------------------------- the walk

  /** Between blocks: everything in `done` is finished, nothing else is touched. */
  ghost predicate Between(t: Tree, code: Code, m: Promo, base: seq<Ty>, w: View, done: set<nat>) {
    match w
    case View(_, _, _, _, _, _, _, _, _, _) =>
      Fixed(t, code, m, w) && Walk(t, code, m, base, w, done, 0, 0, [], 0, 0)
  }

  lemma Leave(t: Tree, code: Code, m: Promo, base: seq<Ty>, w: View, done: set<nat>, b: nat)
    requires b < |code| && Leaving(t, code, m, base, w, done, b, Successors(code[b]), 0, 0)
    ensures Between(t, code, m, base, w, done + {b})
  {
    CodeEnd(code, m, w.now, done, b);
    CodeStart(code, m, w.now, done + {b}, b, 0, 0);
    AllEdges(t, code, m, w.slots, w.phis, done, b, 0, 0);
    LoadsNamedMove(t, code, m, w.replacement, done, b, |code[b]|, done + {b}, 0, 0);
  }

  lemma LoadsNamedMove(t: Tree, code: Code, m: Promo, replacement: map<nat, nat>, done: set<nat>, b: nat, i: nat,
      done': set<nat>, b': nat, i': nat)
    requires LoadsNamed(t, code, m, replacement, done, b, i)
    requires forall x: nat, j: nat {:trigger Past(done, b, i, x, j)} {:trigger Past(done', b', i', x, j)}
               | x < |code| && j < |code[x]| :: Past(done', b', i', x, j) <==> Past(done, b, i, x, j)
    ensures LoadsNamed(t, code, m, replacement, done', b', i')
  {
    forall v | v in replacement
      ensures ReplacedLoad(code, m, done', b', i', v)
    {
      assert ReplacedLoad(code, m, done, b, i, v);
      var x: nat, j: nat :| DefinedAt(code, v, x, j) && Reads(m, code[x][j]) && Past(done, b, i, x, j);
      assert Past(done', b', i', x, j);
    }
  }

  lemma EnterFrom(t: Tree, code: Code, m: Promo, base: seq<Ty>, w: View, done: set<nat>, b: nat)
    requires Between(t, code, m, base, w, done) && b < |code| && b !in done
    requires StacksEntering(t, code, m, w.slots, w.stack, b, 0)
    ensures Entered(t, code, m, base, w, done, b, 0)
  {
    CodeTurn(code, m, w.now, done, b);
    LoadsNamedMove(t, code, m, w.replacement, done, 0, 0, done, b, 0);
    PhisFilledTurn(t, code, m, w.slots, w.phis, done, b);
  }

  lemma PhisFilledTurn(t: Tree, code: Code, m: Promo, slots: seq<nat>, phis: seq<seq<Option<Instr>>>, done: set<nat>,
      b: nat)
    requires PhisFilled(t, code, m, slots, phis, done, 0, [], 0, 0)
    ensures PhisFilled(t, code, m, slots, phis, done, b, [], 0, 0)
  {
  }

  lemma CodeTurn(code: Code, m: Promo, now: Code, done: set<nat>, b: nat)
    requires CodeDone(code, m, now, done, 0, 0)
    ensures CodeDone(code, m, now, done, b, 0)
  {
    forall x: nat | x < |code|
      ensures BlockNow(code, m, now[x], done, b, 0, x)
    {
      assert BlockNow(code, m, now[x], done, 0, 0, x);
      assert code[x][..0] == [] && [] + code[x][0..] == code[x];
    }
  }

  /** The stacks as the children of `b` in the dominator tree find them. */
  lemma ForChild(t: Tree, code: Code, m: Promo, slots: seq<nat>, stack: seq<seq<nat>>, b: nat, c: nat)
    requires TreeOf(t, code) && b < |code| && StacksAt(t, code, m, slots, stack, b, |code[b]|)
    requires c < |code| && t.rank[c] >= 0 && t.idom[c] == b
    ensures StacksEntering(t, code, m, slots, stack, c, 0)
  {
    assert c != 0;
    assert HasParent(t.rank, t.idom, c);
  }

  lemma StacksMore(t: Tree, code: Code, m: Promo, m': Promo, slots: seq<nat>, stack: seq<seq<nat>>, b: nat, i: nat)
    requires NoZeros(m') == NoZeros(m) && b < |code| && i <= |code[b]| && StacksAt(t, code, m, slots, stack, b, i)
    ensures StacksAt(t, code, m', slots, stack, b, i)
  {
  }

  function Popped(stack: seq<seq<nat>>, pushed: seq<nat>): (r: seq<seq<nat>>)
    requires |stack| == |pushed| && forall p | 0 <= p < |stack| :: pushed[p] <= |stack[p]|
    ensures |r| == |stack|
    ensures forall p | 0 <= p < |r| :: r[p] == stack[p][..|stack[p]| - pushed[p]]
  {
    seq(|stack|, p requires 0 <= p < |stack| => stack[p][..|stack[p]| - pushed[p]])
  }

  /** The block itself: its phis, its instructions, and its edges. */
  method RenameOwn(f: Function, bld: Builder, ghost t: Tree, ghost code: Code, ghost m: Promo, ghost base: seq<Ty>,
      ghost done: set<nat>, b: nat)
    returns (pushed: seq<nat>, ghost m': Promo)
    requires Entered(t, code, m, base, ViewOf(f, bld), done, b, 0) && b < |code|
    modifies f`code, f`types, bld`undefined, bld`zeros, bld`replacement, bld`stack, bld`phis
    ensures NoZeros(m') == NoZeros(m) && Grown(old(bld.stack), bld.stack, pushed)
    ensures Between(t, code, m', base, ViewOf(f, bld), done + {b})
    ensures StacksAt(t, code, m', bld.slots, bld.stack, b, |code[b]|)
  {
    pushed := PushPhis(f, bld, t, code, m, base, done, b);
    pushed, m' := RenameInstrs(f, bld, t, code, m, base, done, b, pushed, old(bld.stack));
    m' := FillSuccessors(f, bld, t, code, m', base, done, b);
    Leave(t, code, m', base, ViewOf(f, bld), done, b);
  }

  /** Rename everything in the subtree of `b`. */
  method RenameBlock(f: Function, bld: Builder, children: seq<seq<nat>>, ghost t: Tree, ghost code: Code,
      ghost m: Promo, ghost base: seq<Ty>, ghost done: set<nat>, b: nat)
    returns (ghost m': Promo)
    requires ChildrenOf(t, children) && b < |code| == |t.rank| && t.rank[b] >= 0 && done !! Subtree(t, b)
    requires Entered(t, code, m, base, ViewOf(f, bld), done, b, 0)
    modifies f`code, f`types, bld`undefined, bld`zeros, bld`replacement, bld`stack, bld`phis
    ensures NoZeros(m') == NoZeros(m) && bld.stack == old(bld.stack)
    ensures Between(t, code, m', base, ViewOf(f, bld), done + Subtree(t, b))
    decreases Subtree(t, b), 1
  {
    var pushed;
    pushed, m' := RenameOwn(f, bld, t, code, m, base, done, b);
    m' := RenameChildren(f, bld, children, t, code, m', base, done, b);
    ghost var w := ViewOf(f, bld);
    PopsBack(old(bld.stack), bld.stack, pushed);
    bld.stack := Popped(bld.stack, pushed);
    StackAside(t, code, m', base, w, done + Subtree(t, b), bld.stack);
  }

  /** Popping what was pushed leaves the stacks as they were. */
  lemma PopsBack(before: seq<seq<nat>>, after: seq<seq<nat>>, pushed: seq<nat>)
    requires Grown(before, after, pushed)
    ensures |after| == |pushed| && forall p | 0 <= p < |after| :: pushed[p] <= |after[p]|
    ensures Popped(after, pushed) == before
  {
  }

  /** Between blocks, what the stacks hold does not matter. */
  lemma StackAside(t: Tree, code: Code, m: Promo, base: seq<Ty>, w: View, done: set<nat>, stack: seq<seq<nat>>)
    requires Between(t, code, m, base, w, done) && |stack| == |w.stack|
    ensures Between(t, code, m, base, w.(stack := stack), done)
  {
  }

  method RenameChildren(f: Function, bld: Builder, children: seq<seq<nat>>, ghost t: Tree, ghost code: Code,
      ghost m: Promo, ghost base: seq<Ty>, ghost done: set<nat>, b: nat)
    returns (ghost m': Promo)
    requires ChildrenOf(t, children) && b < |code| == |t.rank| && t.rank[b] >= 0 && done !! Subtree(t, b)
    requires Between(t, code, m, base, ViewOf(f, bld), done + {b})
    requires StacksAt(t, code, m, bld.slots, bld.stack, b, |code[b]|)
    modifies f`code, f`types, bld`undefined, bld`zeros, bld`replacement, bld`stack, bld`phis
    ensures NoZeros(m') == NoZeros(m) && bld.stack == old(bld.stack)
    ensures Between(t, code, m', base, ViewOf(f, bld), done + Subtree(t, b))
    decreases Subtree(t, b), 0
  {
    m' := m;
    ghost var all := done + {b};
    var kids := children[b];
    KidsReady(t, code, m, base, ViewOf(f, bld), children, b, done);
    for k: nat := 0 to |kids|
      invariant NoZeros(m') == NoZeros(m) && bld.stack == old(bld.stack)
      invariant Between(t, code, m', base, ViewOf(f, bld), all)
      invariant Progress(t, kids, k, b, done, all) && all <= done + Subtree(t, b)
    {
      StacksMore(t, code, m, m', bld.slots, bld.stack, b, |code[b]|);
      ToChild(t, code, m', base, ViewOf(f, bld), all, b, children, k, done);
      m' := RenameBlock(f, bld, children, t, code, m', base, all, kids[k]);
      ChildDone(t, code, m', base, ViewOf(f, bld), all, b, children, k, done);
      all := all + Subtree(t, kids[k]);
    }
    WholeSubtree(t, code, m', base, ViewOf(f, bld), children, b, done, all);
  }

  lemma KidsReady(t: Tree, code: Code, m: Promo, base: seq<Ty>, w: View, children: seq<seq<nat>>, b: nat,
      done: set<nat>)
    requires Between(t, code, m, base, w, done + {b}) && ChildrenOf(t, children)
    requires b < |code| && t.rank[b] >= 0 && done !! Subtree(t, b)
    ensures Progress(t, children[b], 0, b, done, done + {b}) && done + {b} <= done + Subtree(t, b)
  {
    KidsApart(t, code, children, b, done);
    assert b in Subtree(t, b);
  }

  lemma ChildDone(t: Tree, code: Code, m: Promo, base: seq<Ty>, w: View, all: set<nat>, b: nat,
      children: seq<seq<nat>>, k: nat, done: set<nat>)
    requires ChildrenOf(t, children) && b < |code| == |t.rank| && t.rank[b] >= 0 && k < |children[b]|
    requires Between(t, code, m, base, w, all + Subtree(t, children[b][k]))
    requires Progress(t, children[b], k, b, done, all) && all <= done + Subtree(t, b)
    ensures Progress(t, children[b], k + 1, b, done, all + Subtree(t, children[b][k]))
    ensures all + Subtree(t, children[b][k]) <= done + Subtree(t, b)
  {
    assert children[b][k] in children[b];
    MoreProgress(t, code, children, k, b, done, all);
    ChildSmaller(t, code, b, children[b][k]);
  }

  lemma ToChild(t: Tree, code: Code, m: Promo, base: seq<Ty>, w: View, all: set<nat>, b: nat, children: seq<seq<nat>>,
      k: nat, done: set<nat>)
    requires Between(t, code, m, base, w, all) && ChildrenOf(t, children) && b < |code| && t.rank[b] >= 0
    requires StacksAt(t, code, m, w.slots, w.stack, b, |code[b]|)
    requires k < |children[b]| && Progress(t, children[b], k, b, done, all)
    ensures var c := children[b][k];
            && c < |code| && t.rank[c] >= 0
            && Entered(t, code, m, base, w, all, c, 0)
            && Subtree(t, c) < Subtree(t, b) && all !! Subtree(t, c)
  {
    var c := children[b][k];
    assert c in children[b];
    ChildSmaller(t, code, b, c);
    assert c in Subtree(t, c);
    ForChild(t, code, m, w.slots, w.stack, b, c);
    EnterFrom(t, code, m, base, w, all, c);
  }

  lemma WholeSubtree(t: Tree, code: Code, m: Promo, base: seq<Ty>, w: View, children: seq<seq<nat>>, b: nat,
      done: set<nat>, all: set<nat>)
    requires Between(t, code, m, base, w, all) && ChildrenOf(t, children) && b < |code| && t.rank[b] >= 0
    requires Progress(t, children[b], |children[b]|, b, done, all) && all <= done + Subtree(t, b)
    ensures Between(t, code, m, base, w, done + Subtree(t, b))
  {
    forall x: nat | x in Subtree(t, b)
      ensures x in all
    {
      if x != b {
        var c := SubtreeCovered(t, code, b, x);
        assert c in children[b];
      }
    }
    assert all == done + Subtree(t, b);
  }
}
