/** Dead code: instructions whose results nothing reads. */
module Dce {
  import opened Ir
  import opened Functions
  import opened Semantics
  import opened SsaForm
  import opened Rewrite
  import opened Simulation
  import opened Edits
  import opened Equivalence
  import opened Verify
  import opened CopyProp

  // ------------------------------------------------------------------------- uses

  function UsesInArgs(args: seq<nat>, v: nat): nat {
    if args == [] then 0 else UsesInArgs(args[..|args| - 1], v) + (if args[|args| - 1] == v then 1 else 0)
  }

  function UsesInBlock(block: Block, v: nat): nat {
    if block == [] then 0 else UsesInBlock(block[..|block| - 1], v) + UsesInArgs(block[|block| - 1].args, v)
  }

  function Uses(code: Code, v: nat): nat {
    if code == [] then 0 else Uses(code[..|code| - 1], v) + UsesInBlock(code[|code| - 1], v)
  }

  ghost predicate Unused(code: Code, v: nat) {
    forall b, i {:trigger code[b][i]} | 0 <= b < |code| && 0 <= i < |code[b]| :: v !in code[b][i].args
  }

  lemma {:induction false} NoUsesInArgs(args: seq<nat>, v: nat)
    ensures UsesInArgs(args, v) == 0 <==> v !in args
    decreases |args|
  {
    if args != [] {
      NoUsesInArgs(args[..|args| - 1], v);
      assert args == args[..|args| - 1] + [args[|args| - 1]];
    }
  }

  ghost predicate UnusedIn(block: Block, v: nat) {
    forall i {:trigger block[i]} | 0 <= i < |block| :: v !in block[i].args
  }

  lemma {:induction false} NoUsesInBlock(block: Block, v: nat)
    ensures UsesInBlock(block, v) == 0 <==> UnusedIn(block, v)
    decreases |block|
  {
    if block != [] {
      NoUsesInBlock(block[..|block| - 1], v);
      NoUsesInArgs(block[|block| - 1].args, v);
    }
  }

  lemma {:induction false} NoUses(code: Code, v: nat)
    ensures Uses(code, v) == 0 <==> Unused(code, v)
    decreases |code|
  {
    if code != [] {
      NoUses(code[..|code| - 1], v);
      NoUsesInBlock(code[|code| - 1], v);
      UnusedByBlock(code, v);
      UnusedByBlock(code[..|code| - 1], v);
    }
  }

  lemma UnusedByBlock(code: Code, v: nat)
    ensures Unused(code, v) <==> forall b | 0 <= b < |code| :: UnusedIn(code[b], v)
  {
    if Unused(code, v) {
      forall b | 0 <= b < |code|
        ensures UnusedIn(code[b], v)
      {
      }
    }
  }

  /** How many operands name each value. */
  method CountUses(f: Function) returns (counts: seq<nat>)
    requires ValuesBelow(f.code, |f.types|)
    ensures |counts| == |f.types|
    ensures forall v: nat | v < |counts| :: counts[v] == Uses(f.code, v)
  {
    counts := seq(|f.types|, _ => 0);
    for b: nat := 0 to |f.code|
      invariant |counts| == |f.types|
      invariant forall v: nat | v < |counts| :: counts[v] == Uses(f.code[..b], v)
    {
      assert f.code[..b + 1][..b] == f.code[..b];
      for i: nat := 0 to |f.code[b]|
        invariant |counts| == |f.types|
        invariant forall v: nat | v < |counts| :: counts[v] == Uses(f.code[..b], v) + UsesInBlock(f.code[b][..i], v)
      {
        var args := f.code[b][i].args;
        assert Below(f.code[b][i], |f.types|);
        assert f.code[b][..i + 1][..i] == f.code[b][..i];
        for k: nat := 0 to |args|
          invariant |counts| == |f.types|
          invariant forall v: nat | v < |counts| ::
                      counts[v] == Uses(f.code[..b], v) + UsesInBlock(f.code[b][..i], v) + UsesInArgs(args[..k], v)
        {
          assert args[..k + 1][..k] == args[..k];
          counts := counts[args[k] := counts[args[k]] + 1];
        }
        assert args[..|args|] == args;
      }
      assert f.code[b][..|f.code[b]|] == f.code[b];
    }
    assert f.code[..|f.code|] == f.code;
  }

  // --------------------------------------------------------------- removing one

  /** Its result is not read, and running it changes nothing else. */
  ghost predicate Dead(code: Code, i: Instr) {
    i.dst.Some? && !HasSideEffects(i) && Unused(code, i.dst.value)
  }

  lemma DiscardSupplied(t: Tree, code: Code, v: nat)
    requires Ssa(t, code) && Unused(code, v)
    ensures Supplied(t, Discard(v), code)
  {
    var p := Discard(v);
    forall b: nat, i: nat | b < |code| && t.rank[b] >= 0 && i < |code[b]| && !Dropped(p, code[b][i])
      ensures SuppliedAt(t, p, code, b, i)
    {
      assert BlockOk(t, code, b);
      assert InstrOk(t, code, b, i);
      assert v !in code[b][i].args;
      if code[b][i].op == Phi {
        assert PhiInScope(t, code, b, code[b][i]);
      } else {
        assert UseInScope(t, code, b, i);
      }
    }
  }

  lemma DiscardSimplifies(t: Tree, c: Context, code: Code, b: nat, i: nat)
    requires Ssa(t, code) && b < |code| && i < |code[b]| && Dead(code, code[b][i])
    ensures Simplifies(t, c, Discard(code[b][i].dst.value), code, false)
  {
    var v := code[b][i].dst.value;
    DiscardSupplied(t, code, v);
    forall a: nat, j: nat | a < |code| && j < |code[a]| && Dropped(Discard(v), code[a][j])
      ensures Justified(t, c, Discard(v), code, false, a, j)
    {
      assert DefinedAt(code, v, a, j) && DefinedAt(code, v, b, i);
    }
  }

  /** Removing a dead instruction keeps single assignment form and every run of the
      original that does not trap. */
  lemma DiscardStep(t: Tree, types: seq<Ty>, code: Code, b: nat, i: nat)
    requires Ssa(t, code) && b < |code| && i < |code[b]| && Dead(code, code[b][i])
    ensures var r := RewriteCode(Discard(code[b][i].dst.value), code);
            Ssa(t, r) && PreservesUntrapped(types, code, r)
  {
    var v := code[b][i].dst.value;
    var r := RewriteCode(Discard(v), code);
    DiscardSupplied(t, code, v);
    RewriteSsa(t, Discard(v), code);
    forall c: Context, world: World, n: nat
      ensures AgreesUntrapped(types, code, r, c, world, n)
    {
      if c.types == types && Secluded(c, code) {
        DiscardSimplifies(t, c, code, b, i);
        RewriteSecluded(c, Discard(v), code);
        SimplificationPreservesRuns(t, c, Discard(v), code, false, world, n);
      }
    }
  }

  lemma DiscardIsRemoval(code: Code, v: nat, b: nat, i: nat)
    requires UniqueDefs(code) && DefinedAt(code, v, b, i)
    ensures RewriteCode(Discard(v), code) == Removed(code, b, i)
    ensures Size(RewriteCode(Discard(v), code)) < Size(code)
  {
    DropOne(Discard(v), code, v, b, i);
    SelfRedirect(Plan({}, {}, map[]), code);
    SizeMonotone(code, Removed(code, b, i), b, |code|);
  }

  // ---------------------------------------------------------------------- the sweeps

  /** The body during a sweep with the counts taken at its start. */
  ghost predicate Sweeping(t: Tree, types: seq<Ty>, start: Code, code: Code, counts: seq<nat>, removed: nat) {
    && Ssa(t, code) && |code| == |start| && ValuesBelow(code, |types|)
    && PreservesUntrapped(types, start, code) && Size(code) + removed <= Size(start)
    && (removed == 0 ==> code == start)
    && |counts| == |types| && (forall v: nat | v < |counts| && counts[v] == 0 :: Unused(code, v))
  }

  lemma RemoveStep(t: Tree, types: seq<Ty>, start: Code, code: Code, counts: seq<nat>, removed: nat, b: nat, i: nat)
    requires Sweeping(t, types, start, code, counts, removed)
    requires b < |code| && i < |code[b]| && code[b][i].dst.Some? && !HasSideEffects(code[b][i])
    requires code[b][i].dst.value < |counts| && counts[code[b][i].dst.value] == 0
    ensures Sweeping(t, types, start, Removed(code, b, i), counts, removed + 1)
  {
    var v := code[b][i].dst.value;
    var r := Removed(code, b, i);
    assert DefinedAt(code, v, b, i);
    DiscardStep(t, types, code, b, i);
    DiscardIsRemoval(code, v, b, i);
    PreservesUntrappedTransitive(types, start, code, r);
    StillUnused(code, b, i, counts, |types|);
  }

  lemma StillUnused(code: Code, b: nat, i: nat, counts: seq<nat>, limit: nat)
    requires b < |code| && i < |code[b]| && ValuesBelow(code, limit)
    requires forall v: nat | v < |counts| && counts[v] == 0 :: Unused(code, v)
    ensures forall v: nat | v < |counts| && counts[v] == 0 :: Unused(Removed(code, b, i), v)
    ensures ValuesBelow(Removed(code, b, i), limit)
  {
    var r := Removed(code, b, i);
    forall v: nat | v < |counts| && counts[v] == 0
      ensures Unused(r, v)
    {
      assert Unused(code, v);
      forall a, j | 0 <= a < |r| && 0 <= j < |r[a]|
        ensures v !in r[a][j].args
      {
        assert r[a][j] == code[a][if a == b && j >= i then j + 1 else j];
      }
    }
    forall a, j | 0 <= a < |r| && 0 <= j < |r[a]|
      ensures Below(r[a][j], limit)
    {
      assert r[a][j] == code[a][if a == b && j >= i then j + 1 else j];
      assert Below(code[a][if a == b && j >= i then j + 1 else j], limit);
    }
  }

  /** Nothing dead. */
  ghost predicate AllUseful(code: Code) {
    forall b: nat {:trigger UsefulBlock(code, b)} | b < |code| :: UsefulBlock(code, b)
  }

  ghost predicate UsefulBlock(code: Code, b: nat)
    requires b < |code|
  {
    forall i {:trigger Dead(code, code[b][i])} | 0 <= i < |code[b]| :: !Dead(code, code[b][i])
  }

  /** The counts are those of the code the sweep began with. */
  ghost predicate Counted(code: Code, counts: seq<nat>) {
    forall v: nat | v < |counts| :: counts[v] == 0 <==> Unused(code, v)
  }

  method SweepDead(f: Function, ghost t: Tree, ghost start: Code, b: nat, counts: seq<nat>, before: nat)
      returns (removed: nat)
    requires b < |f.code| && Sweeping(t, f.types, start, f.code, counts, before)
    modifies f`code
    ensures Sweeping(t, f.types, start, f.code, counts, before + removed)
    ensures removed == 0 ==> f.code == old(f.code)
    ensures Counted(old(f.code), counts) ==>
              (removed == 0 <==> UsefulBlock(old(f.code), b))
  {
    var i: nat := 0;
    removed := 0;
    while i < |f.code[b]|
      invariant |f.code| == |start| && i <= |f.code[b]|
      invariant Sweeping(t, f.types, start, f.code, counts, before + removed)
      invariant SweptTo(t, old(f.code), f.code, counts, b, i, removed)
      decreases |f.code[b]| - i
    {
      var ins := f.code[b][i];
      assert Below(f.code[b][i], |f.types|);
      if ins.dst.None? || HasSideEffects(ins) || counts[ins.dst.value] != 0 {
        KeptOne(t, f.types, start, old(f.code), f.code, counts, before, b, i, removed);
        i := i + 1;
      } else {
        RemoveStep(t, f.types, start, f.code, counts, before + removed, b, i);
        DroppedOne(t, f.types, start, old(f.code), f.code, counts, before, b, i, removed);
        Remove(f, b, i);
        removed := removed + 1;
      }
    }
  }

  /** Unless something was removed, nothing in the block up to `i` is dead. */
  ghost predicate SweptTo(t: Tree, was: Code, now: Code, counts: seq<nat>, b: nat, i: nat, removed: nat) {
    match t
    case Tree(_, _, _) =>
      && b < |was| && b < |now| && i <= |now[b]|
      && (removed == 0 ==> now == was)
      && (Counted(was, counts) ==>
            if removed == 0 then forall k {:trigger Dead(was, was[b][k])} | 0 <= k < i :: !Dead(was, was[b][k])
            else !UsefulBlock(was, b))
  }

  lemma KeptOne(t: Tree, types: seq<Ty>, start: Code, was: Code, now: Code, counts: seq<nat>, before: nat, b: nat,
      i: nat, removed: nat)
    requires SweptTo(t, was, now, counts, b, i, removed) && i < |now[b]|
    requires Sweeping(t, types, start, now, counts, before + removed)
    requires now[b][i].dst.Some? ==> now[b][i].dst.value < |counts|
    requires now[b][i].dst.None? || HasSideEffects(now[b][i]) || counts[now[b][i].dst.value] != 0
    ensures SweptTo(t, was, now, counts, b, i + 1, removed)
  {
  }

  lemma DroppedOne(t: Tree, types: seq<Ty>, start: Code, was: Code, now: Code, counts: seq<nat>, before: nat, b: nat,
      i: nat, removed: nat)
    requires SweptTo(t, was, now, counts, b, i, removed) && i < |now[b]|
    requires Sweeping(t, types, start, now, counts, before + removed)
    requires now[b][i].dst.Some? && !HasSideEffects(now[b][i]) && now[b][i].dst.value < |counts|
    requires counts[now[b][i].dst.value] == 0
    ensures SweptTo(t, was, Removed(now, b, i), counts, b, i, removed + 1)
  {
    assert removed == 0 && Counted(was, counts) ==> Dead(was, was[b][i]);
  }

  method SweepAll(f: Function, ghost t: Tree, ghost start: Code) returns (removed: nat)
    requires t == TreeFor(f) && start == f.code && Ssa(t, f.code) && ValuesBelow(f.code, |f.types|)
    modifies f`code
    ensures Ssa(t, f.code) && |f.code| == |start| && ValuesBelow(f.code, |f.types|)
    ensures PreservesUntrapped(f.types, start, f.code) && Size(f.code) + removed <= Size(start)
    ensures removed == 0 ==> f.code == start
    ensures removed == 0 <==> AllUseful(start)
  {
    var counts := CountUses(f);
    CountsTell(f.code, counts);
    assert PreservesUntrapped(f.types, start, start);
    removed := 0;
    for b: nat := 0 to |f.code|
      invariant |f.code| == |start|
      invariant Sweeping(t, f.types, start, f.code, counts, removed)
      invariant UsefulSoFar(t, start, f.code, counts, b, removed)
    {
      ghost var mid := f.code;
      var more := 0;
      if f.rpoIndex[b] >= 0 {
        more := SweepDead(f, t, start, b, counts, removed);
      }
      UsefulNext(t, start, mid, f.code, counts, b, removed, more);
      removed := removed + more;
    }
  }

  /** Unless something was removed, the body is as it was and its first blocks have nothing
      dead; and if something was, the original had something dead. */
  ghost predicate UsefulSoFar(t: Tree, start: Code, now: Code, counts: seq<nat>, n: nat, removed: nat) {
    match t
    case Tree(rank, _, _) =>
      && n <= |start| == |now| == |rank| && Counted(start, counts)
      && (forall b: nat | b < |start| && rank[b] < 0 :: start[b] == [])
      && (if removed == 0 then now == start && forall b: nat {:trigger UsefulBlock(start, b)} | b < n ::
          UsefulBlock(start, b)
          else !AllUseful(start))
  }

  lemma UsefulNext(t: Tree, start: Code, mid: Code, now: Code, counts: seq<nat>, b: nat, removed: nat, more: nat)
    requires UsefulSoFar(t, start, mid, counts, b, removed) && b < |mid| == |now|
    requires t.rank[b] < 0 ==> now == mid && more == 0
    requires more == 0 ==> now == mid
    requires t.rank[b] >= 0 && Counted(mid, counts) ==> (more == 0 <==> UsefulBlock(mid, b))
    ensures UsefulSoFar(t, start, now, counts, b + 1, removed + more)
  {
  }

  lemma CountsTell(code: Code, counts: seq<nat>)
    requires forall v: nat | v < |counts| :: counts[v] == Uses(code, v)
    ensures Counted(code, counts)
  {
    forall v: nat | v < |counts|
      ensures counts[v] == 0 <==> Unused(code, v)
    {
      NoUses(code, v);
    }
  }

  /** Dead code elimination. The sweeps end, since each removes an instruction. The result
      keeps every run of the original that does not trap, and has nothing dead left in it. */
  method OptDce(f: Function) returns (changes: nat)
    requires Ssa(TreeFor(f), f.code) && ValuesBelow(f.code, |f.types|)
    modifies f`code
    ensures Ssa(TreeFor(f), f.code) && PreservesUntrapped(f.types, old(f.code), f.code)
    ensures AllUseful(f.code)
    ensures changes == 0 <==> AllUseful(old(f.code))
    ensures changes == 0 ==> f.code == old(f.code)
  {
    ghost var t, start := TreeFor(f), f.code;
    assert PreservesUntrapped(f.types, start, start);
    changes := 0;
    if |f.types| == 0 {
      NothingThere(f.code);
      return;
    }
    var removed := 1;
    while removed > 0
      invariant 0 <= removed && t == TreeFor(f) && Ssa(t, f.code) && ValuesBelow(f.code, |f.types|)
      invariant PreservesUntrapped(f.types, start, f.code) && Size(f.code) + changes <= Size(start)
      invariant removed == 0 ==> AllUseful(f.code)
      invariant changes == 0 ==> f.code == start
      invariant changes > 0 ==> !AllUseful(start)
      decreases Size(start) - changes, removed
    {
      ghost var before := f.code;
      removed := SweepAll(f, t, f.code);
      PreservesUntrappedTransitive(f.types, start, before, f.code);
      changes := changes + removed;
    }
  }

  lemma NothingThere(code: Code)
    requires ValuesBelow(code, 0)
    ensures AllUseful(code)
  {
    forall b: nat, i: nat | b < |code| && i < |code[b]|
      ensures !Dead(code, code[b][i])
    {
      assert Below(code[b][i], 0);
    }
  }
}
