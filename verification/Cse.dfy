/** Global value numbering over the dominator tree.

    `Visit` walks the tree with a table of the expressions in scope. It is sound: every
    removed instruction was equal to one still there, on every run. And it is
    complete: afterwards no pure instruction repeats one that dominates it. */
module Cse {
  import opened Ir
  import opened Graph
  import opened Functions
  import opened Dominators
  import opened Semantics
  import opened SsaForm
  import opened Rewrite
  import opened Simulation
  import opened Edits
  import opened Equivalence
  import opened Verify
  import opened DomChildren

  /** No pure instruction in scope at (b, i) computes what the one at (b, i) computes. */
  ghost predicate Novel(t: Tree, types: seq<Ty>, code: Code, b: nat, i: nat)
    requires b < |code| && i < |code[b]|
  {
    IsPure(code[b][i]) ==>
      forall a: nat, j: nat {:trigger SameExpression(types, code[a][j], code[b][i])}
        | a < |code| && j < |code[a]| && IsPure(code[a][j]) && code[a][j].dst.value in ScopeAt(t, code, b, i) ::
        !SameExpression(types, code[a][j], code[b][i])
  }

  ghost predicate NovelUpTo(t: Tree, types: seq<Ty>, code: Code, b: nat, n: nat)
    requires b < |code| && n <= |code[b]|
  {
    forall i: nat {:trigger Novel(t, types, code, b, i)} | i < n :: Novel(t, types, code, b, i)
  }

  /** All of that holds throughout a set of blocks. */
  ghost predicate Settled(t: Tree, types: seq<Ty>, code: Code, blocks: set<nat>) {
    forall b | b in blocks :: b < |code| && NovelUpTo(t, types, code, b, |code[b]|)
  }

  /** The values of pure instructions. */
  ghost predicate PureValue(code: Code, v: nat) {
    exists a: nat, j: nat :: DefinedAt(code, v, a, j) && IsPure(code[a][j])
  }

  /** The table lists exactly the pure values in scope. */
  ghost predicate TableExact(code: Code, scope: set<nat>, table: seq<nat>) {
    forall v: nat {:trigger v in table} {:trigger PureValue(code, v)} ::
        v in table <==> v in scope && PureValue(code, v)
  }

  // ------------------------------------------------------------ what one edit changes

  /** The instruction itself, apart from what its operands are called. */
  function Bare(i: Instr): Instr {
    i.(args := [])
  }

  /** Two bodies with the same instructions in a block, up to operands. */
  ghost predicate SameBones(code: Code, code': Code, b: nat) {
    && b < |code| && b < |code'| && |code[b]| == |code'[b]|
    && forall k | 0 <= k < |code[b]| :: Bare(code[b][k]) == Bare(code'[b][k])
  }

  lemma SameBonesDefs(code: Code, code': Code, b: nat)
    requires SameBones(code, code', b)
    ensures Defs(code[b]) == Defs(code'[b])
  {
    forall v
      ensures v in Defs(code[b]) <==> v in Defs(code'[b])
    {
      if v in Defs(code[b]) {
        var k :| 0 <= k < |code[b]| && code[b][k].dst.Some? && code[b][k].dst.value == v;
        assert Bare(code[b][k]) == Bare(code'[b][k]);
        assert code'[b][k].dst == code[b][k].dst;
      }
      if v in Defs(code'[b]) {
        var k :| 0 <= k < |code'[b]| && code'[b][k].dst.Some? && code'[b][k].dst.value == v;
        assert Bare(code[b][k]) == Bare(code'[b][k]);
        assert code'[b][k].dst == code[b][k].dst;
      }
    }
  }

  lemma ReplaceElsewhere(code: Code, v: nat, w: nat, b: nat, i: nat, a: nat)
    requires UniqueDefs(code) && DefinedAt(code, v, b, i) && a < |code| && a != b
    ensures SameBones(code, RewriteCode(Replace(v, w), code), a)
    ensures forall k | 0 <= k < |code[a]| :: RewriteCode(Replace(v, w), code)[a][k] == Rename(Replace(v, w), code[a][k])
  {
    var p := Replace(v, w);
    forall k: nat | k < |code[a]|
      ensures !Dropped(p, code[a][k])
    {
      assert !DefinedAt(code, v, a, k);
    }
    RewriteKeepsAll(p, code[a]);
  }

  lemma ReplaceHere(code: Code, v: nat, w: nat, b: nat, i: nat)
    requires UniqueDefs(code) && DefinedAt(code, v, b, i)
    ensures var r := RewriteCode(Replace(v, w), code);
            && |r[b]| == |code[b]| - 1
            && (forall k | 0 <= k < |r[b]| :: r[b][k] == Rename(Replace(v, w), code[b][if k < i then k else k + 1]))
            && RewriteBlock(Replace(v, w), code[b][..i]) == r[b][..i]
  {
    var p := Replace(v, w);
    var q := Redirect(v, w);
    DropOneInBlock(p, code, v, b, i);
    RewriteKeepsAll(q, code[b]);
    forall k: nat | k < |code[b]|
      ensures Rename(p, code[b][k]) == Rename(q, code[b][k])
    {
      assert NamesFor(p, code[b][k].args) == NamesFor(q, code[b][k].args);
    }
    forall k: nat | k < i
      ensures !Dropped(p, code[b][..i][k])
    {
      assert !DefinedAt(code, v, b, k);
    }
    RewriteKeepsAll(p, code[b][..i]);
  }

  /** Where the removed value is not in scope, nothing in scope changes. */
  lemma ReplaceKeepsNovel(t: Tree, types: seq<Ty>, code: Code, v: nat, w: nat, b: nat, i: nat, a: nat, k: nat)
    requires Ssa(t, code) && DefinedAt(code, v, b, i)
    requires a < |code| && t.rank[a] >= 0 && k < |code[a]| && (a == b ==> k < i)
    requires v !in ScopeAt(t, code, a, k) && Novel(t, types, code, a, k)
    ensures var r := RewriteCode(Replace(v, w), code);
            k < |r[a]| && Novel(t, types, r, a, k)
  {
    var p := Replace(v, w);
    var r := RewriteCode(p, code);
    ReplaceScope(t, code, v, w, b, i, a, k);
    assert r[a][k] == Rename(p, code[a][k]);
    if IsPure(r[a][k]) {
      assert BlockOk(t, code, a);
      assert InstrOk(t, code, a, k);
      assert UseInScope(t, code, a, k);
      Untouched(p, code[a][k], ScopeAt(t, code, a, k));
      forall c: nat, j: nat
        | c < |r| && j < |r[c]| && IsPure(r[c][j]) && r[c][j].dst.value in ScopeAt(t, r, a, k)
        ensures !SameExpression(types, r[c][j], r[a][k])
      {
        OriginIs(p, code[c], j);
        var o := Origin(p, code[c], j);
        OperandsInScope(t, code, a, k, c, o);
        Untouched(p, code[c][o], ScopeAt(t, code, a, k));
      }
    }
  }

  lemma Untouched(p: Plan, i: Instr, scope: set<nat>)
    requires forall k | 0 <= k < |i.args| :: i.args[k] in scope
    requires forall v | v in p.sub :: v !in scope
    ensures Rename(p, i) == i
  {
    assert NamesFor(p, i.args) == i.args;
  }

  lemma ReplaceScope(t: Tree, code: Code, v: nat, w: nat, b: nat, i: nat, a: nat, k: nat)
    requires Ssa(t, code) && DefinedAt(code, v, b, i)
    requires a < |code| && k <= |code[a]| && (a == b ==> k <= i)
    ensures var r := RewriteCode(Replace(v, w), code);
            && k <= |r[a]|
            && ScopeAt(t, r, a, k) == ScopeAt(t, code, a, k) - {v}
            && (k < |code[a]| && (a == b ==> k < i) ==> k < |r[a]| && r[a][k] == Rename(Replace(v, w), code[a][k]))
  {
    var p := Replace(v, w);
    SsaStoresPlain(t, code);
    forall j: nat | j < |code[a]| && (a == b ==> j < i)
      ensures !Dropped(p, code[a][j])
    {
      assert DefinedAt(code, v, a, j) ==> a == b && j == i;
    }
    PrefixKept(p, code[a], k);
    RewriteScopeAt(t, p, code, a, k, k);
  }

  lemma PrefixKept(p: Plan, block: Block, k: nat)
    requires k <= |block| && forall j | 0 <= j < k :: !Dropped(p, block[j])
    ensures var r := RewriteBlock(p, block);
            && k <= |r| && RewriteBlock(p, block[..k]) == r[..k]
            && (k < |block| && !Dropped(p, block[k]) ==> k < |r| && r[k] == Rename(p, block[k]))
  {
    RewriteSplit(p, block, k);
    RewriteKeepsAll(p, block[..k]);
    if k < |block| {
      assert block[k..][0] == block[k];
    }
  }

  // ------------------------------------------------------------- the state of a scan

  /** Before instruction `i` of `block`: everything visited is settled, the table is
      exact, and the body is equivalent to the one the scan began with. */
  ghost predicate Scanning(t: Tree, types: seq<Ty>, start: Code, code: Code, table: seq<nat>, block: nat, i: nat,
      seen: set<nat>, changes: nat) {
    && Ssa(t, code) && Preserves(types, start, code)
    && block < |code| == |start| && t.rank[block] >= 0 && i <= |code[block]|
    && TableExact(code, ScopeAt(t, code, block, i), table)
    && NovelUpTo(t, types, code, block, i)
    && Settled(t, types, code, seen) && seen !! Subtree(t, block)
    && (forall a: nat | a < |code| && a != block :: SameBones(start, code, a))
    && (changes == 0 ==> code == start)
    && (Settled(t, types, start, {block}) ==> changes == 0)
  }

  lemma ScanStart(t: Tree, types: seq<Ty>, code: Code, table: seq<nat>, block: nat, seen: set<nat>)
    requires Ssa(t, code) && block < |code| && t.rank[block] >= 0
    requires TableExact(code, ScopeIn(t, code, block), table)
    requires Settled(t, types, code, seen) && seen !! Subtree(t, block)
    ensures Scanning(t, types, code, code, table, block, 0, seen, 0)
  {
    PreservesReflexive(types, code);
    assert ScopeAt(t, code, block, 0) == ScopeIn(t, code, block);
  }

  /** An instruction that is not pure is passed over. */
  lemma ScanSkip(t: Tree, types: seq<Ty>, start: Code, code: Code, table: seq<nat>, block: nat, i: nat,
      seen: set<nat>, changes: nat)
    requires Scanning(t, types, start, code, table, block, i, seen, changes)
    requires i < |code[block]| && !IsPure(code[block][i])
    ensures Scanning(t, types, start, code, table, block, i + 1, seen, changes)
  {
    ScopeStep(t, code, block, i);
    assert Novel(t, types, code, block, i);
    if code[block][i].dst.Some? {
      var v := code[block][i].dst.value;
      assert DefinedAt(code, v, block, i);
      assert !PureValue(code, v);
    }
  }

  /** A new expression enters the table. */
  lemma ScanPush(t: Tree, types: seq<Ty>, start: Code, code: Code, table: seq<nat>, block: nat, i: nat,
      seen: set<nat>, changes: nat)
    requires Scanning(t, types, start, code, table, block, i, seen, changes)
    requires i < |code[block]| && IsPure(code[block][i])
    requires forall w, a: nat, j: nat | w in table && DefinedAt(code, w, a, j) ::
               !SameExpression(types, code[a][j], code[block][i])
    ensures Scanning(t, types, start, code, table + [code[block][i].dst.value], block, i + 1, seen, changes)
  {
    var v := code[block][i].dst.value;
    ScopeStep(t, code, block, i);
    assert DefinedAt(code, v, block, i);
    assert PureValue(code, v);
    forall a: nat, j: nat
      | a < |code| && j < |code[a]| && IsPure(code[a][j]) && code[a][j].dst.value in ScopeAt(t, code, block, i)
      ensures !SameExpression(types, code[a][j], code[block][i])
    {
      assert DefinedAt(code, code[a][j].dst.value, a, j);
      assert PureValue(code, code[a][j].dst.value);
    }
    assert Novel(t, types, code, block, i);
  }

  /** The value found for the instruction at (block, i). */
  ghost predicate FoundFor(types: seq<Ty>, code: Code, table: seq<nat>, ins: Instr, w: nat) {
    w in table && exists a: nat, j: nat :: DefinedAt(code, w, a, j) && SameExpression(types, code[a][j], ins)
  }

  lemma FoundIsReplaceable(t: Tree, types: seq<Ty>, start: Code, code: Code, table: seq<nat>, block: nat, i: nat,
      seen: set<nat>, changes: nat, w: nat)
    requires Scanning(t, types, start, code, table, block, i, seen, changes)
    requires i < |code[block]| && IsPure(code[block][i]) && FoundFor(types, code, table, code[block][i], w)
    ensures Replaceable(t, types, code, code[block][i].dst.value, w, block, i)
    ensures !Novel(t, types, code, block, i)
  {
    var v := code[block][i].dst.value;
    assert DefinedAt(code, v, block, i);
    DefNotInScope(t, code, block, i, v);
    var a: nat, j: nat :| DefinedAt(code, w, a, j) && SameExpression(types, code[a][j], code[block][i]);
    assert PureValue(code, w);
    assert SameAsEarlier(types, code, w, code[block][i]);
  }

  /** A repeated expression is replaced, and the table stays as it is. */
  lemma ScanReplace(t: Tree, types: seq<Ty>, start: Code, code: Code, table: seq<nat>, block: nat, i: nat,
      seen: set<nat>, changes: nat, w: nat)
    requires Scanning(t, types, start, code, table, block, i, seen, changes)
    requires i < |code[block]| && IsPure(code[block][i]) && FoundFor(types, code, table, code[block][i], w)
    ensures var r := RewriteCode(Replace(code[block][i].dst.value, w), code);
            && |r| == |code| && |r[block]| == |code[block]| - 1
            && Scanning(t, types, start, r, table, block, i, seen, changes + 1)
  {
    var v := code[block][i].dst.value;
    var r := RewriteCode(Replace(v, w), code);
    FoundIsReplaceable(t, types, start, code, table, block, i, seen, changes, w);
    ReplaceStep(t, types, code, v, w, block, i);
    PreservesTransitive(types, start, code, r);
    ReplaceHere(code, v, w, block, i);
    ReplaceKeepsTable(t, code, v, w, block, i, table);
    ReplaceKeepsSettled(t, types, code, v, w, block, i, seen);
    ReplaceKeepsBones(start, code, v, w, block, i);
    WasNotSettled(t, types, code, block, i);
  }

  lemma WasNotSettled(t: Tree, types: seq<Ty>, code: Code, block: nat, i: nat)
    requires block < |code| && i < |code[block]| && !Novel(t, types, code, block, i)
    ensures !Settled(t, types, code, {block})
  {
  }

  lemma ReplaceKeepsBones(start: Code, code: Code, v: nat, w: nat, b: nat, i: nat)
    requires UniqueDefs(code) && DefinedAt(code, v, b, i)
    requires forall a: nat | a < |code| && a != b :: SameBones(start, code, a)
    ensures var r := RewriteCode(Replace(v, w), code);
            forall a: nat | a < |r| && a != b :: SameBones(start, r, a)
  {
    forall a: nat | a < |code| && a != b
      ensures SameBones(start, RewriteCode(Replace(v, w), code), a)
    {
      assert SameBones(start, code, a);
      ReplaceElsewhere(code, v, w, b, i, a);
    }
  }

  lemma ReplaceKeepsSettled(t: Tree, types: seq<Ty>, code: Code, v: nat, w: nat, b: nat, i: nat, seen: set<nat>)
    requires Ssa(t, code) && DefinedAt(code, v, b, i) && t.rank[b] >= 0
    requires Settled(t, types, code, seen) && seen !! Subtree(t, b) && NovelUpTo(t, types, code, b, i)
    ensures var r := RewriteCode(Replace(v, w), code);
            Settled(t, types, r, seen) && i <= |r[b]| && NovelUpTo(t, types, r, b, i)
  {
    var r := RewriteCode(Replace(v, w), code);
    ReplaceHere(code, v, w, b, i);
    forall a: nat, k: nat | a in seen && k < |r[a]|
      ensures Novel(t, types, r, a, k)
    {
      assert a != b by {
        assert b in Subtree(t, b);
      }
      ReplaceElsewhere(code, v, w, b, i, a);
      assert Novel(t, types, code, a, k);
      if t.rank[a] >= 0 {
        if v in ScopeAt(t, code, a, k) {
          var c, j := InScopeSite(t, code, a, k, v);
        }
        ReplaceKeepsNovel(t, types, code, v, w, b, i, a, k);
      }
    }
    forall k: nat | k < i
      ensures Novel(t, types, r, b, k)
    {
      assert Novel(t, types, code, b, k);
      DefNotInScope(t, code, b, i, v);
      DefsPrefix(code[b], k, i);
      ReplaceKeepsNovel(t, types, code, v, w, b, i, b, k);
    }
  }

  lemma ReplaceKeepsTable(t: Tree, code: Code, v: nat, w: nat, b: nat, i: nat, table: seq<nat>)
    requires Ssa(t, code) && DefinedAt(code, v, b, i) && t.rank[b] >= 0
    requires TableExact(code, ScopeAt(t, code, b, i), table)
    ensures var r := RewriteCode(Replace(v, w), code);
            i <= |r[b]| && TableExact(r, ScopeAt(t, r, b, i), table)
  {
    var p := Replace(v, w);
    var r := RewriteCode(p, code);
    ReplaceScope(t, code, v, w, b, i, b, i);
    DefNotInScope(t, code, b, i, v);
    forall u: nat | u != v
      ensures PureValue(r, u) <==> PureValue(code, u)
    {
      ReplacePure(code, v, w, u);
    }
  }

  lemma ReplacePure(code: Code, v: nat, w: nat, u: nat)
    requires u != v
    ensures PureValue(RewriteCode(Replace(v, w), code), u) <==> PureValue(code, u)
  {
    var p := Replace(v, w);
    var r := RewriteCode(p, code);
    if PureValue(r, u) {
      var a: nat, j: nat :| DefinedAt(r, u, a, j) && IsPure(r[a][j]);
      OriginIs(p, code[a], j);
      assert DefinedAt(code, u, a, Origin(p, code[a], j));
    }
    if PureValue(code, u) {
      var a: nat, j: nat :| DefinedAt(code, u, a, j) && IsPure(code[a][j]);
      var k := Survives(p, code[a], j);
      OriginIs(p, code[a], k);
      assert DefinedAt(r, u, a, k);
    }
  }

  // ------------------------------------------------------------------- the walk

  class Available {
    var table: seq<nat>      // the values of the expressions in scope, innermost last
  }

  /** Field by field, as far as the first difference. */
  method Matches(types: seq<Ty>, x: Instr, y: Instr) returns (same: bool)
    ensures same <==> SameExpression(types, x, y)
  {
    if x.op != y.op || |x.args| != |y.args| || x.imm != y.imm {
      return false;
    }
    if x.dst.Some? && y.dst.Some? && TyOf(types, x.dst.value) != TyOf(types, y.dst.value) {
      return false;
    }
    if x.text != y.text || x.sym != y.sym {
      return false;
    }
    for k := 0 to |x.args|
      invariant forall j | 0 <= j < k :: x.args[j] == y.args[j]
    {
      if x.args[k] != y.args[k] {
        return false;
      }
    }
    same := true;
  }

  /** The innermost available instruction that computes the same. */
  method FindAvailable(f: Function, table: seq<nat>, ins: Instr) returns (earlier: Option<nat>)
    ensures earlier.Some? ==> FoundFor(f.types, f.code, table, ins, earlier.value)
    ensures earlier.None? ==>
              forall w, a: nat, j: nat | w in table && DefinedAt(f.code, w, a, j) ::
                UniqueDefs(f.code) ==> !SameExpression(f.types, f.code[a][j], ins)
  {
    var i := |table| - 1;
    while i >= 0
      invariant -1 <= i < |table|
      invariant forall k, a: nat, j: nat | i < k < |table| && DefinedAt(f.code, table[k], a, j) ::
                  UniqueDefs(f.code) ==> !SameExpression(f.types, f.code[a][j], ins)
    {
      var a, j, found := FindDef(f.code, table[i]);
      if found {
        var same := Matches(f.types, f.code[a][j], ins);
        if same {
          return Some(table[i]);
        }
      }
      i := i - 1;
    }
    earlier := None;
  }

  /** One instruction: replace it by what is available already, or make it available. */
  method ScanInstr(f: Function, avail: Available, ghost t: Tree, ghost start: Code, block: nat, i: nat,
      ghost seen: set<nat>, changes: nat)
    returns (next: nat, total: nat)
    requires Scanning(t, f.types, start, f.code, avail.table, block, i, seen, changes)
    requires i < |f.code[block]|
    modifies f`code, avail
    ensures Scanning(t, f.types, start, f.code, avail.table, block, next, seen, total)
    ensures block < |f.code| && |f.code[block]| - next < |old(f.code)[block]| - i
    ensures Extends(old(avail.table), avail.table)
  {
    var ins := f.code[block][i];
    if !IsPure(ins) {
      ScanSkip(t, f.types, start, f.code, avail.table, block, i, seen, changes);
      return i + 1, changes;
    }
    var earlier := FindAvailable(f, avail.table, ins);
    if earlier.Some? {
      ScanReplace(t, f.types, start, f.code, avail.table, block, i, seen, changes, earlier.value);
      var _ := ReplaceAndRemove(f, block, i, ins.dst.value, earlier.value);
      return i, changes + 1;
    }
    ScanPush(t, f.types, start, f.code, avail.table, block, i, seen, changes);
    avail.table := avail.table + [ins.dst.value];
    return i + 1, changes;
  }

  ghost predicate Extends(table: seq<nat>, longer: seq<nat>) {
    |table| <= |longer| && longer[..|table|] == table
  }

  /** One block. */
  method ScanBlock(f: Function, avail: Available, ghost t: Tree, block: nat, ghost seen: set<nat>)
    returns (changes: nat)
    requires Scanning(t, f.types, f.code, f.code, avail.table, block, 0, seen, 0)
    modifies f`code, avail
    ensures block < |f.code|
    ensures Scanning(t, f.types, old(f.code), f.code, avail.table, block, |f.code[block]|, seen, changes)
    ensures Extends(old(avail.table), avail.table)
  {
    var i: nat := 0;
    changes := 0;
    while i < |f.code[block]|
      invariant block < |f.code|
      invariant Scanning(t, f.types, old(f.code), f.code, avail.table, block, i, seen, changes)
      invariant Extends(old(avail.table), avail.table)
      decreases |f.code[block]| - i
    {
      i, changes := ScanInstr(f, avail, t, old(f.code), block, i, seen, changes);
    }
  }

  /** The body when the walk reaches `block`. */
  ghost predicate Visitable(t: Tree, types: seq<Ty>, code: Code, table: seq<nat>, block: nat, seen: set<nat>) {
    && Ssa(t, code) && block < |code| && t.rank[block] >= 0
    && TableExact(code, ScopeIn(t, code, block), table)
    && Settled(t, types, code, seen) && seen !! Subtree(t, block)
  }

  /** What the walk below `block` did: an equivalent body with the subtree settled, and
      nothing but operands changed elsewhere. A body already settled is left alone. */
  ghost predicate Visited(t: Tree, types: seq<Ty>, start: Code, code: Code, block: nat, seen: set<nat>, changes: nat) {
    && Ssa(t, code) && |code| == |start| && Preserves(types, start, code)
    && Settled(t, types, code, seen + Subtree(t, block))
    && (forall a: nat | a < |code| && a !in Subtree(t, block) :: SameBones(start, code, a))
    && (changes == 0 ==> code == start)
    && (Settled(t, types, start, Subtree(t, block)) ==> changes == 0)
  }

  /** Between two children: `done` are the blocks settled so far. */
  ghost predicate Descending(t: Tree, types: seq<Ty>, start: Code, code: Code, table: seq<nat>, block: nat,
      done: set<nat>, changes: nat) {
    && Ssa(t, code) && block < |code| == |start| && t.rank[block] >= 0 && Preserves(types, start, code)
    && TableExact(code, ScopeOut(t, code, block), table)
    && Settled(t, types, code, done)
    && (forall a: nat | a < |code| && a !in Subtree(t, block) :: SameBones(start, code, a))
    && (changes == 0 ==> code == start)
    && (Settled(t, types, start, Subtree(t, block)) ==> changes == 0)
  }

  lemma ScanEnds(t: Tree, types: seq<Ty>, start: Code, code: Code, table: seq<nat>, block: nat, seen: set<nat>,
      changes: nat)
    requires block < |code| && Scanning(t, types, start, code, table, block, |code[block]|, seen, changes)
    ensures Descending(t, types, start, code, table, block, seen + {block}, changes)
  {
    ScopeEnd(t, code, block);
    assert block in Subtree(t, block);
    assert Settled(t, types, start, Subtree(t, block)) ==> Settled(t, types, start, {block});
  }

  /** Outside the subtree of `c`, and above it, scopes do not change. */
  lemma {:induction false} BonesScope(t: Tree, start: Code, code: Code, c: nat, x: nat)
    requires |start| == |code| == |t.rank| && x < |code| && t.rank[x] >= 0 && x !in Subtree(t, c)
    requires forall a: nat | a < |code| && a !in Subtree(t, c) :: SameBones(start, code, a)
    ensures ScopeIn(t, start, x) == ScopeIn(t, code, x) && ScopeOut(t, start, x) == ScopeOut(t, code, x)
    decreases t.rank[x]
  {
    assert SameBones(start, code, x);
    SameBonesDefs(start, code, x);
    if HasParent(t.rank, t.idom, x) {
      BonesScope(t, start, code, c, t.idom[x]);
    }
  }

  lemma BonesPure(t: Tree, start: Code, code: Code, c: nat, x: nat, v: nat)
    requires Ssa(t, start) && Ssa(t, code) && |start| == |code| && x < |code| && t.rank[x] >= 0 && x !in Subtree(t, c)
    requires forall a: nat | a < |code| && a !in Subtree(t, c) :: SameBones(start, code, a)
    requires v in ScopeOut(t, start, x)
    ensures PureValue(start, v) <==> PureValue(code, v)
  {
    ScopeEnd(t, start, x);
    var a, j := InScopeSite(t, start, x, |start[x]|, v);
    if a in Subtree(t, c) {
      AncTransitive(t.rank, t.idom, c, a, x);
    }
    assert SameBones(start, code, a);
    assert Bare(start[a][j]) == Bare(code[a][j]);
    assert start[a][j].op == code[a][j].op && start[a][j].dst == code[a][j].dst;
    assert DefinedAt(code, v, a, j);
    assert IsPure(start[a][j]) <==> IsPure(code[a][j]);
  }

  /** The table made for `block` is still exact when the walk comes back from a child. */
  lemma TableSurvives(t: Tree, start: Code, code: Code, block: nat, c: nat, table: seq<nat>)
    requires Ssa(t, start) && Ssa(t, code) && |start| == |code|
    requires block < |code| && t.rank[block] >= 0 && block !in Subtree(t, c)
    requires forall a: nat | a < |code| && a !in Subtree(t, c) :: SameBones(start, code, a)
    requires TableExact(start, ScopeOut(t, start, block), table)
    ensures TableExact(code, ScopeOut(t, code, block), table)
  {
    BonesScope(t, start, code, c, block);
    forall v: nat
      ensures v in table <==> v in ScopeOut(t, code, block) && PureValue(code, v)
    {
      if v in ScopeOut(t, start, block) {
        BonesPure(t, start, code, c, block, v);
      }
    }
  }

  lemma ChildVisitable(t: Tree, types: seq<Ty>, start: Code, code: Code, table: seq<nat>, block: nat, done: set<nat>,
      changes: nat, c: nat)
    requires Descending(t, types, start, code, table, block, done, changes)
    requires c < |code| && t.rank[c] >= 0 && t.idom[c] == block && done !! Subtree(t, c)
    ensures Visitable(t, types, code, table, c, done)
    ensures Subtree(t, c) < Subtree(t, block)
  {
    ChildSmaller(t, code, block, c);
    assert HasParent(t.rank, t.idom, c);
  }

  lemma ChildVisited(t: Tree, types: seq<Ty>, start: Code, before: Code, code: Code, table: seq<nat>, block: nat,
      done: set<nat>, changes: nat, c: nat, more: nat)
    requires Descending(t, types, start, before, table, block, done, changes)
    requires c < |code| == |before| && t.rank[c] >= 0 && t.idom[c] == block
    requires Visited(t, types, before, code, c, done, more)
    ensures Descending(t, types, start, code, table, block, done + Subtree(t, c), changes + more)
  {
    ChildSmaller(t, before, block, c);
    PreservesTransitive(types, start, before, code);
    TableSurvives(t, before, code, block, c, table);
    BonesChain(start, before, code, Subtree(t, block), Subtree(t, c));
    assert Settled(t, types, start, Subtree(t, block)) ==> Settled(t, types, start, Subtree(t, c));
  }

  lemma BonesChain(start: Code, before: Code, code: Code, outer: set<nat>, inner: set<nat>)
    requires |start| == |before| == |code| && inner <= outer
    requires forall a: nat | a < |code| && a !in outer :: SameBones(start, before, a)
    requires forall a: nat | a < |code| && a !in inner :: SameBones(before, code, a)
    ensures forall a: nat | a < |code| && a !in outer :: SameBones(start, code, a)
  {
    forall a: nat | a < |code| && a !in outer
      ensures SameBones(start, code, a)
    {
      assert SameBones(start, before, a) && SameBones(before, code, a);
    }
  }

  lemma AllVisited(t: Tree, types: seq<Ty>, start: Code, code: Code, table: seq<nat>, block: nat, seen: set<nat>,
      done: set<nat>, changes: nat, kids: seq<nat>)
    requires Descending(t, types, start, code, table, block, done, changes)
    requires Progress(t, kids, |kids|, block, seen, done)
    requires forall x: nat | x < |t.rank| && t.rank[x] >= 0 && t.idom[x] == block :: x in kids
    ensures Visited(t, types, start, code, block, seen, changes)
  {
    forall x: nat | x in Subtree(t, block)
      ensures x in done
    {
      if x != block {
        var c := SubtreeCovered(t, code, block, x);
        assert c in kids;
      }
    }
  }

  /** Walk the dominator tree from `block` down. */
  method Visit(f: Function, avail: Available, ghost t: Tree, children: seq<seq<nat>>, block: nat, ghost seen: set<nat>)
    returns (changes: nat)
    requires ChildrenOf(t, children)
    requires Visitable(t, f.types, f.code, avail.table, block, seen)
    modifies f`code, avail
    ensures avail.table == old(avail.table)
    ensures Visited(t, f.types, old(f.code), f.code, block, seen, changes)
    decreases Subtree(t, block)
  {
    var depthOnEntry := |avail.table|;
    ghost var start := f.code;
    ScanStart(t, f.types, f.code, avail.table, block, seen);
    changes := ScanBlock(f, avail, t, block, seen);
    ScanEnds(t, f.types, start, f.code, avail.table, block, seen, changes);
    var kids := children[block];
    ghost var done, table := seen + {block}, avail.table;
    KidsApart(t, f.code, children, block, seen);
    assert t.rank[block] >= 0;
    for k: nat := 0 to |kids|
      invariant avail.table == table && f.types == old(f.types)
      invariant Descending(t, f.types, start, f.code, table, block, done, changes)
      invariant Progress(t, kids, k, block, seen, done)
    {
      var c := kids[k];
      ghost var before := f.code;
      assert c in children[block];
      ChildVisitable(t, f.types, start, before, table, block, done, changes, c);
      var more := Visit(f, avail, t, children, c, done);
      ChildVisited(t, f.types, start, before, f.code, table, block, done, changes, c, more);
      MoreProgress(t, f.code, children, k, block, seen, done);
      changes := changes + more;
      done := done + Subtree(t, c);
    }
    AllVisited(t, f.types, start, f.code, table, block, seen, done, changes, kids);
    avail.table := avail.table[..depthOnEntry];
  }

  /** No pure instruction repeats one that comes before it in its block, or that is in a
      block above its own in the dominator tree. */
  ghost predicate NoRepeats(t: Tree, types: seq<Ty>, code: Code) {
    forall a: nat, j: nat, b: nat, i: nat {:trigger SameExpression(types, code[a][j], code[b][i])}
      | a < |code| && j < |code[a]| && b < |code| && i < |code[b]| && b < |t.rank| && t.rank[b] >= 0
        && IsPure(code[a][j]) && IsPure(code[b][i]) && SameExpression(types, code[a][j], code[b][i]) ::
      !(if a == b then j < i else Anc(t.rank, t.idom, a, b))
  }

  lemma SettledIsNoRepeats(t: Tree, types: seq<Ty>, code: Code)
    requires Ssa(t, code)
    ensures Settled(t, types, code, ReachableBlocks(t)) <==> NoRepeats(t, types, code)
  {
    if Settled(t, types, code, ReachableBlocks(t)) {
      forall a: nat, j: nat, b: nat, i: nat
        | a < |code| && j < |code[a]| && b < |code| && i < |code[b]| && t.rank[b] >= 0
          && IsPure(code[a][j]) && IsPure(code[b][i]) && SameExpression(types, code[a][j], code[b][i])
        ensures !(if a == b then j < i else Anc(t.rank, t.idom, a, b))
      {
        assert b in ReachableBlocks(t);
        assert Novel(t, types, code, b, i);
        if a != b && Anc(t.rank, t.idom, a, b) {
          ScopeAnc(t, code, a, b);
        }
      }
    }
    if NoRepeats(t, types, code) {
      forall b: nat, i: nat | b in ReachableBlocks(t) && i < |code[b]|
        ensures Novel(t, types, code, b, i)
      {
        forall a: nat, j: nat
          | a < |code| && j < |code[a]| && IsPure(code[a][j]) && code[a][j].dst.value in ScopeAt(t, code, b, i)
            && IsPure(code[b][i])
          ensures !SameExpression(types, code[a][j], code[b][i])
        {
          assert DefinedAt(code, code[a][j].dst.value, a, j);
          var a', j' := InScopeSite(t, code, b, i, code[a][j].dst.value);
        }
      }
    }
  }

  /** Value numbering. The result is an equivalent body with no repeated expression left;
      a body that has none, such as the result of an earlier run, is not touched. */
  method OptCse(f: Function) returns (changes: nat)
    requires Ssa(TreeFor(f), f.code)
    modifies f`code
    ensures Ssa(TreeFor(f), f.code) && Preserves(f.types, old(f.code), f.code)
    ensures NoRepeats(TreeFor(f), f.types, f.code)
    ensures changes == 0 <==> NoRepeats(TreeFor(f), f.types, old(f.code))
    ensures changes == 0 ==> f.code == old(f.code)
  {
    ghost var t, code := TreeFor(f), f.code;
    var children := BuildChildren(f);
    var avail := new Available;
    avail.table := [];
    StartsVisitable(t, f.types, code);
    changes := Visit(f, avail, t, children, 0, {});
    WholeTree(t, code);
    assert {} + Subtree(t, 0) == ReachableBlocks(t);
    SettledIsNoRepeats(t, f.types, code);
    SettledIsNoRepeats(t, f.types, f.code);
  }

  lemma StartsVisitable(t: Tree, types: seq<Ty>, code: Code)
    requires Ssa(t, code)
    ensures Visitable(t, types, code, [], 0, {})
  {
    EntryIsFirst(t, code);
  }
}
