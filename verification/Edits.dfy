/** Edits of a function body in place, and the rewriting each pair of them amounts to. */
module Edits {
  import opened Ir
  import opened Functions
  import opened SsaForm
  import opened Rewrite

  /** Redirecting the uses of one value, removing nothing. */
  function Redirect(from: nat, to: nat): Plan {
    Plan({}, {}, map[from := to])
  }

  /** Redirecting the uses of a value and removing the instruction that defines it. */
  function Replace(v: nat, w: nat): Plan {
    Plan({v}, {}, map[v := w])
  }

  /** Removing an instruction whose result nothing reads. */
  function Discard(v: nat): Plan {
    Plan({v}, {}, map[])
  }

  function Removed(code: Code, b: nat, i: nat): Code
    requires b < |code| && i < |code[b]|
  {
    code[b := code[b][..i] + code[b][i + 1..]]
  }

  lemma {:induction false} RewriteKeepsAll(p: Plan, block: Block)
    requires forall k | 0 <= k < |block| :: !Dropped(p, block[k])
    ensures |RewriteBlock(p, block)| == |block|
    ensures forall k | 0 <= k < |block| :: RewriteBlock(p, block)[k] == Rename(p, block[k])
  {
    if block != [] {
      RewriteKeepsAll(p, block[1..]);
    }
  }

  /** With one definition of `v`, at (b, i), dropping it is removing that instruction. */
  lemma DropOne(p: Plan, code: Code, v: nat, b: nat, i: nat)
    requires UniqueDefs(code) && DefinedAt(code, v, b, i)
    requires p.gone == {v} && p.slots == {}
    ensures var q := Plan({}, {}, p.sub);
            && |RewriteBlock(q, code[b])| == |code[b]|
            && RewriteCode(p, code) == Removed(RewriteCode(q, code), b, i)
  {
    var q := Plan({}, {}, p.sub);
    var r, r' := RewriteCode(p, code), RewriteCode(q, code);
    RewriteKeepsAll(q, code[b]);
    forall a: nat | a < |code| && a != b
      ensures r[a] == r'[a]
    {
      forall k: nat | k < |code[a]|
        ensures !Dropped(p, code[a][k])
      {
        assert !DefinedAt(code, v, a, k);
      }
      RewriteSameSub(p, code[a]);
    }
    DropOneInBlock(p, code, v, b, i);
    assert r[b] == Removed(r', b, i)[b];
  }

  lemma DropOneInBlock(p: Plan, code: Code, v: nat, b: nat, i: nat)
    requires UniqueDefs(code) && DefinedAt(code, v, b, i)
    requires p.gone == {v} && p.slots == {}
    ensures var q := Plan({}, {}, p.sub);
            && |RewriteBlock(q, code[b])| == |code[b]|
            && RewriteBlock(p, code[b]) == RewriteBlock(q, code[b])[..i] + RewriteBlock(q, code[b])[i + 1..]
  {
    forall k: nat | k < |code[b]| && k != i
      ensures !Dropped(p, code[b][k])
    {
      assert DefinedAt(code, v, b, k) ==> k == i;
    }
    DropAt(p, code[b], i);
  }

  lemma {:induction false} DropAt(p: Plan, block: Block, i: nat)
    requires p.slots == {} && i < |block| && Dropped(p, block[i])
    requires forall k | 0 <= k < |block| && k != i :: !Dropped(p, block[k])
    ensures var q := Plan({}, {}, p.sub);
            && |RewriteBlock(q, block)| == |block|
            && RewriteBlock(p, block) == RewriteBlock(q, block)[..i] + RewriteBlock(q, block)[i + 1..]
    decreases |block|
  {
    var q := Plan({}, {}, p.sub);
    RewriteKeepsAll(q, block);
    assert RewriteBlock(q, block)[1..] == RewriteBlock(q, block[1..]);
    if i == 0 {
      RewriteSameSub(p, block[1..]);
    } else {
      DropAt(p, block[1..], i - 1);
      assert NamesFor(p, block[0].args) == NamesFor(q, block[0].args);
      OmitTail(Rename(q, block[0]), RewriteBlock(q, block[1..]), i);
    }
  }

  lemma OmitTail(x: Instr, s: Block, i: nat)
    requires 0 < i <= |s|
    ensures ([x] + s)[..i] + ([x] + s)[i + 1..] == [x] + (s[..i - 1] + s[i..])
  {
  }

  lemma {:induction false} RewriteSameSub(p: Plan, block: Block)
    requires p.slots == {} && forall k | 0 <= k < |block| :: !Dropped(p, block[k])
    ensures RewriteBlock(p, block) == RewriteBlock(Plan({}, {}, p.sub), block)
  {
    var q := Plan({}, {}, p.sub);
    if block != [] {
      RewriteSameSub(p, block[1..]);
      assert NamesFor(p, block[0].args) == NamesFor(q, block[0].args);
    }
  }

  // ------------------------------------------------------------------ the edits

  /** Point every use of one value at another, and report how many were changed. */
  method ReplaceUses(f: Function, from: nat, to: nat) returns (replaced: nat)
    modifies f`code
    ensures f.code == RewriteCode(Redirect(from, to), old(f.code))
    ensures replaced == 0 ==> f.code == old(f.code)
  {
    ghost var p := Redirect(from, to);
    ghost var code := f.code;
    replaced := 0;
    if from == to {
      SelfRedirect(p, code);
      return;
    }
    for b: nat := 0 to |f.code|
      invariant |f.code| == |code|
      invariant forall a | 0 <= a < b :: f.code[a] == RewriteBlock(p, code[a])
      invariant forall a | b <= a < |code| :: f.code[a] == code[a]
      invariant replaced == 0 ==> f.code == code
    {
      RenamedBlock(p, code[b]);
      for i: nat := 0 to |f.code[b]|
        invariant |f.code| == |code| && |f.code[b]| == |code[b]|
        invariant forall a | 0 <= a < |code| && a != b ::
                    f.code[a] == if a < b then RewriteBlock(p, code[a]) else code[a]
        invariant forall k | 0 <= k < |code[b]| :: f.code[b][k] == if k < i then Rename(p, code[b][k]) else code[b][k]
        invariant replaced == 0 ==> f.code == code
      {
        var args := f.code[b][i].args;
        for k: nat := 0 to |args|
          invariant |args| == |code[b][i].args|
          invariant forall j | 0 <= j < |args| ::
                      args[j] == if j < k then NameFor(p, code[b][i].args[j]) else code[b][i].args[j]
          invariant replaced == 0 ==> f.code == code && args == code[b][i].args
        {
          if args[k] == from {
            args := args[k := to];
            replaced := replaced + 1;
          }
        }
        assert args == NamesFor(p, code[b][i].args);
        if replaced == 0 {
          assert f.code[b][i].(args := args) == code[b][i];
          assert f.code[b][i := code[b][i]] == code[b];
          assert f.code[b := f.code[b][i := f.code[b][i].(args := args)]] == code;
        }
        f.code := f.code[b := f.code[b][i := f.code[b][i].(args := args)]];
      }
      assert f.code[b] == RewriteBlock(p, code[b]);
    }
  }

  lemma RenamedBlock(p: Plan, block: Block)
    requires p.gone == {} && p.slots == {}
    ensures |RewriteBlock(p, block)| == |block|
    ensures forall k | 0 <= k < |block| :: RewriteBlock(p, block)[k] == Rename(p, block[k])
  {
    RewriteKeepsAll(p, block);
  }

  lemma SelfRedirect(p: Plan, code: Code)
    requires p.gone == {} && p.slots == {} && forall v | v in p.sub :: p.sub[v] == v
    ensures RewriteCode(p, code) == code
  {
    forall b | 0 <= b < |code|
      ensures RewriteBlock(p, code[b]) == code[b]
    {
      RenamedBlock(p, code[b]);
      forall k | 0 <= k < |code[b]|
        ensures Rename(p, code[b][k]) == code[b][k]
      {
        assert NamesFor(p, code[b][k].args) == code[b][k].args;
      }
    }
  }

  /** Unlink one instruction. */
  method Remove(f: Function, b: nat, i: nat)
    requires b < |f.code| && i < |f.code[b]|
    modifies f`code
    ensures f.code == Removed(old(f.code), b, i)
  {
    f.code := f.code[b := f.code[b][..i] + f.code[b][i + 1..]];
  }

  /** The pair of edits that every redundancy pass performs: redirect, then unlink. */
  method ReplaceAndRemove(f: Function, b: nat, i: nat, v: nat, w: nat) returns (replaced: nat)
    requires UniqueDefs(f.code) && DefinedAt(f.code, v, b, i)
    modifies f`code
    ensures f.code == RewriteCode(Replace(v, w), old(f.code))
  {
    DropOne(Replace(v, w), f.code, v, b, i);
    replaced := ReplaceUses(f, v, w);
    Remove(f, b, i);
  }

  /** Every value the body mentions exists. */
  ghost predicate ValuesBelow(code: Code, limit: nat) {
    forall b, i {:trigger Below(code[b][i], limit)} | 0 <= b < |code| && 0 <= i < |code[b]| :: Below(code[b][i], limit)
  }

  ghost predicate Below(i: Instr, limit: nat) {
    && (i.dst.Some? ==> i.dst.value < limit)
    && (forall k | 0 <= k < |i.args| :: i.args[k] < limit)
  }
}
