/** Following replacements to the end, and applying them to every operand. */
module Resolution {
  import opened Ir
  import opened Functions
  import opened SsaForm
  import opened Rewrite
  import opened Edits

  /** `w` is defined before `v`: earlier in reverse postorder, or in the same block. */
  ghost predicate Earlier(t: Tree, code: Code, w: nat, v: nat) {
    exists a: nat, j: nat, b: nat, i: nat {:trigger DefinedAt(code, w, a, j), DefinedAt(code, v, b, i)} ::
      && DefinedAt(code, w, a, j) && DefinedAt(code, v, b, i) && a < |t.rank| && b < |t.rank|
      && 0 <= t.rank[a] && (t.rank[a] < t.rank[b] || (a == b && j < i))
  }

  /** A replacement that is replaced itself is defined earlier. */
  ghost predicate Acyclic(t: Tree, code: Code, rep: map<nat, nat>) {
    && UniqueDefs(code)
    && forall v | v in rep && rep[v] in rep :: Earlier(t, code, rep[v], v)
  }

  ghost function SiteBlock(code: Code, v: nat): nat {
    if exists b: nat, i: nat :: DefinedAt(code, v, b, i) then
      var b: nat, i: nat :| DefinedAt(code, v, b, i); b
    else 0
  }

  ghost function SiteIndex(code: Code, v: nat): nat {
    if exists i: nat :: DefinedAt(code, v, SiteBlock(code, v), i) then
      var i: nat :| DefinedAt(code, v, SiteBlock(code, v), i); i
    else 0
  }

  ghost function SiteRank(t: Tree, code: Code, v: nat): nat {
    var b := SiteBlock(code, v);
    if b < |t.rank| && t.rank[b] >= 0 then t.rank[b] else 0
  }

  lemma SiteIs(code: Code, v: nat, b: nat, i: nat)
    requires UniqueDefs(code) && DefinedAt(code, v, b, i)
    ensures SiteBlock(code, v) == b && SiteIndex(code, v) == i
  {
  }

  lemma EarlierSmaller(t: Tree, code: Code, w: nat, v: nat)
    requires UniqueDefs(code) && Earlier(t, code, w, v)
    ensures SiteRank(t, code, w) < SiteRank(t, code, v) ||
            (SiteRank(t, code, w) == SiteRank(t, code, v) && SiteIndex(code, w) < SiteIndex(code, v))
  {
    var a: nat, j: nat, b: nat, i: nat :| DefinedAt(code, w, a, j) && DefinedAt(code, v, b, i) && a < |t.rank| &&
        b < |t.rank|
      && 0 <= t.rank[a] && (t.rank[a] < t.rank[b] || (a == b && j < i));
    SiteIs(code, w, a, j);
    SiteIs(code, v, b, i);
  }

  /** The end of the chain from `v`. */
  ghost function Final(t: Tree, code: Code, rep: map<nat, nat>, v: nat): (r: nat)
    requires Acyclic(t, code, rep)
    ensures r !in rep
    decreases SiteRank(t, code, v), SiteIndex(code, v), if v in rep then 1 else 0
  {
    if v !in rep then v
    else if rep[v] !in rep then rep[v]
    else
      EarlierSmaller(t, code, rep[v], v);
      Final(t, code, rep, rep[v])
  }

  lemma FinalStep(t: Tree, code: Code, rep: map<nat, nat>, v: nat)
    requires Acyclic(t, code, rep) && v in rep
    ensures Final(t, code, rep, v) == Final(t, code, rep, rep[v])
  {
  }

  /** What every replaced value ends up as. */
  ghost function Resolutions(t: Tree, code: Code, rep: map<nat, nat>): (sub: map<nat, nat>)
    requires Acyclic(t, code, rep)
    ensures sub.Keys == rep.Keys
    ensures forall v | v in sub :: sub[v] == Final(t, code, rep, v)
  {
    map v | v in rep :: Final(t, code, rep, v)
  }

  /** The chain is followed to its end, which it has. */
  method Resolve(ghost t: Tree, ghost code: Code, rep: map<nat, nat>, value: nat) returns (v: nat)
    requires Acyclic(t, code, rep)
    ensures v == NameFor(Plan({}, {}, Resolutions(t, code, rep)), value)
  {
    v := value;
    while v in rep
      invariant Final(t, code, rep, v) == Final(t, code, rep, value)
      decreases SiteRank(t, code, v), SiteIndex(code, v), if v in rep then 1 else 0
    {
      FinalStep(t, code, rep, v);
      if rep[v] in rep {
        EarlierSmaller(t, code, rep[v], v);
      } else {
        return rep[v];
      }
      v := rep[v];
    }
  }

  method ResolveAll(ghost t: Tree, ghost code: Code, rep: map<nat, nat>, operands: seq<nat>) returns (args: seq<nat>)
    requires Acyclic(t, code, rep)
    ensures args == NamesFor(Plan({}, {}, Resolutions(t, code, rep)), operands)
  {
    ghost var p := Plan({}, {}, Resolutions(t, code, rep));
    args := operands;
    for k: nat := 0 to |args|
      invariant |args| == |operands|
      invariant forall j | 0 <= j < |args| :: args[j] == if j < k then NameFor(p, operands[j]) else operands[j]
    {
      var v := Resolve(t, code, rep, args[k]);
      args := args[k := v];
    }
  }

  /** Resolve every operand. */
  method ApplyReplacements(f: Function, ghost t: Tree, ghost code: Code, rep: map<nat, nat>)
    requires Acyclic(t, code, rep)
    modifies f`code
    ensures f.code == RewriteCode(Plan({}, {}, Resolutions(t, code, rep)), old(f.code))
  {
    ghost var p := Plan({}, {}, Resolutions(t, code, rep));
    ghost var start := f.code;
    for b: nat := 0 to |f.code|
      invariant |f.code| == |start|
      invariant forall a | 0 <= a < |start| :: f.code[a] == if a < b then RewriteBlock(p, start[a]) else start[a]
    {
      RenamedBlock(p, start[b]);
      for i: nat := 0 to |f.code[b]|
        invariant |f.code| == |start| && |f.code[b]| == |start[b]|
        invariant forall a | 0 <= a < |start| && a != b ::
                    f.code[a] == if a < b then RewriteBlock(p, start[a]) else start[a]
        invariant forall k | 0 <= k < |start[b]| ::
                    f.code[b][k] == if k < i then Rename(p, start[b][k]) else start[b][k]
      {
        var args := ResolveAll(t, code, rep, f.code[b][i].args);
        f.code := f.code[b := f.code[b][i := f.code[b][i].(args := args)]];
      }
      assert f.code[b] == RewriteBlock(p, start[b]);
    }
  }
}
