/** The checks every pass may rely on, and exactly what they guarantee.

    `IrVerify` counts problems; `Accepts` is what a count of zero means. It accepts a
    little more than single assignment form: an instruction that is its own operand, and
    a phi naming one edge twice. Each of the two has a run that goes wrong, and together
    they are the whole difference. */
module Verify {
  import opened Ir
  import opened Graph
  import opened Functions
  import opened Dominators
  import opened Semantics
  import opened SsaForm
  import opened Soundness

  /** How many operands an opcode must have; -1 where any number is allowed. */
  function RequiredArgs(op: Op): int {
    match op
    case Nop => 0
    case Const => 0
    case ConstFp => 0
    case Str => 0
    case Global => 0
    case Alloca => 0
    case Param => 0
    case Jmp => 0
    case Load => 1
    case Copy => 1
    case Neg => 1
    case Complement => 1
    case LogNot => 1
    case Cast => 1
    case Br => 1
    case Call => -1
    case Ret => -1
    case Phi => -1
    case _ => 2
  }

  ghost predicate ArityOk(i: Instr) {
    && (RequiredArgs(i.op) >= 0 ==> |i.args| == RequiredArgs(i.op))
    && (i.op == Call ==> |i.args| >= 1)
  }

  /** A definition is visible at position `use` of block `at`: order within a block,
      dominance between blocks. The instruction at `use` itself is let through. */
  ghost predicate Reaches(t: Tree, code: Code, v: nat, at: nat, use: int) {
    exists b: nat, j: nat :: DefinedAt(code, v, b, j) &&
                             (if b == at then j <= use else Anc(t.rank, t.idom, b, at))
  }

  /** A phi that has never been given an edge has no list of edges. */
  ghost predicate PhiAccepted(t: Tree, code: Code, b: nat, phi: Instr) {
    && b < |t.preds| && |phi.args| == |t.preds[b]| == |phi.from| && phi.from != []
    && forall k | 0 <= k < |phi.args| :: EdgeAccepted(t, code, b, phi, k)
  }

  ghost predicate EdgeAccepted(t: Tree, code: Code, b: nat, phi: Instr, k: nat)
    requires b < |t.preds| && k < |phi.args| == |phi.from|
  {
    && phi.from[k] in t.preds[b] && phi.from[k] < |code|
    && Reaches(t, code, phi.args[k], phi.from[k], |code[phi.from[k]]| - 1)
  }

  ghost predicate InstrAccepted(t: Tree, code: Code, b: nat, i: nat)
    requires b < |code| && i < |code[b]|
  {
    var ins := code[b][i];
    && (IsTerminator(ins.op) ==> i == |code[b]| - 1)
    && ArityOk(ins)
    && (if ins.op == Phi then i < Leading(code[b]) && PhiAccepted(t, code, b, ins)
        else forall k | 0 <= k < |ins.args| :: Reaches(t, code, ins.args[k], b, i))
  }

  ghost predicate BlockAccepted(t: Tree, code: Code, b: nat)
    requires b < |code|
  {
    HasTerminator(code[b]) && AcceptedUpTo(t, code, b, |code[b]|)
  }

  ghost predicate AcceptedUpTo(t: Tree, code: Code, b: nat, n: nat)
    requires b < |code| && n <= |code[b]|
  {
    forall i {:trigger InstrAccepted(t, code, b, i)} | 0 <= i < n :: InstrAccepted(t, code, b, i)
  }

  ghost predicate Accepts(t: Tree, code: Code)
    requires |t.rank| == |t.preds| == |code| > 0
  {
    t.preds[0] == [] && forall b | 0 <= b < |code| && t.rank[b] >= 0 :: BlockAccepted(t, code, b)
  }

  // -------------------------------------------------------------- what is missing

  /** How bodies are put together: results are created with the instruction that
      produces them, and a phi's operands with the edges they arrive on. */
  ghost predicate Built(t: Tree, code: Code)
    requires |t.rank| == |code|
  {
    && UniqueDefs(code)
    && (forall b, i | 0 <= b < |code| && 0 <= i < |code[b]| :: ResultOk(code[b][i]))
    && (forall b | 0 <= b < |code| && t.rank[b] < 0 :: code[b] == [])
  }

  ghost predicate ResultOk(i: Instr) {
    && (IsTerminator(i.op) || i.op == Store ==> i.dst.None?)
    && (i.op == Phi ==> i.dst.Some? && |i.from| == |i.args|)
  }

  ghost predicate OwnOperand(i: Instr) {
    i.op != Phi && i.dst.Some? && i.dst.value in i.args
  }

  ghost predicate DistinctEdges(i: Instr) {
    forall j, k | 0 <= j < k < |i.from| :: i.from[j] != i.from[k]
  }

  /** Free of the two things the checks let through. */
  ghost predicate Proper(code: Code) {
    forall b, i | 0 <= b < |code| && 0 <= i < |code[b]| ::
         !OwnOperand(code[b][i]) && (code[b][i].op == Phi ==> DistinctEdges(code[b][i]))
  }

  ghost predicate AllArity(code: Code) {
    forall b, i | 0 <= b < |code| && 0 <= i < |code[b]| :: ArityOk(code[b][i])
  }

  lemma ReachesIsScope(t: Tree, code: Code, v: nat, b: nat, i: nat)
    requires TreeOf(t, code) && UniqueDefs(code)
    requires b < |code| && t.rank[b] >= 0 && i < |code[b]|
    ensures Reaches(t, code, v, b, i) <==> v in ScopeAt(t, code, b, i) || code[b][i].dst == Some(v)
  {
    if Reaches(t, code, v, b, i) {
      var a: nat, j: nat :| DefinedAt(code, v, a, j) && (if a == b then j <= i else Anc(t.rank, t.idom, a, b));
      if a == b && j < i {
        assert code[b][..i][j] == code[b][j];
      } else if a != b {
        ScopeAnc(t, code, a, b);
        assert v in Defs(code[a]);
      }
    }
    if v in ScopeAt(t, code, b, i) {
      var a, j := InScopeSite(t, code, b, i, v);
    }
    if code[b][i].dst == Some(v) {
      assert DefinedAt(code, v, b, i);
    }
  }

  lemma ReachesIsScopeOut(t: Tree, code: Code, v: nat, b: nat)
    requires TreeOf(t, code) && UniqueDefs(code)
    requires b < |code| && t.rank[b] >= 0
    ensures Reaches(t, code, v, b, |code[b]| - 1) <==> v in ScopeOut(t, code, b)
  {
    if Reaches(t, code, v, b, |code[b]| - 1) {
      var a: nat, j: nat :| DefinedAt(code, v, a, j) &&
                            (if a == b then j <= |code[b]| - 1 else Anc(t.rank, t.idom, a, b));
      if a != b {
        ScopeAnc(t, code, a, b);
      }
      assert v in Defs(code[a]);
    }
    if v in ScopeOut(t, code, b) {
      ScopeEnd(t, code, b);
      var a, j := InScopeSite(t, code, b, |code[b]|, v);
    }
  }

  /** What the predecessor lists are: no block twice, and some block unless it is the entry. */
  ghost predicate PredsListed(t: Tree) {
    && (forall b: nat, j, k | b < |t.preds| && 0 <= j < k < |t.preds[b]| :: t.preds[b][j] != t.preds[b][k])
    && (forall b: nat | 0 < b < |t.preds| && b < |t.rank| && t.rank[b] >= 0 :: t.preds[b] != [])
  }

  lemma NumberedIsListed(n: Numbering, idom: seq<int>)
    requires Numbered(n)
    ensures PredsListed(Tree(n.rank, idom, n.preds))
  {
    forall b: nat | 0 < b < |n.preds| && n.rank[b] >= 0
      ensures n.preds[b] != []
    {
      assert n.rank[n.rpo[0]] == 0 && n.rpo[n.rank[b]] == b;
      assert HasEarlierPred(n, b);
    }
  }

  lemma PhiAcceptedIsInScope(t: Tree, code: Code, b: nat, phi: Instr)
    requires TreeOf(t, code) && UniqueDefs(code)
    requires b < |code| && t.rank[b] >= 0 && |phi.from| == |phi.args| && DistinctEdges(phi)
    requires PredsListed(t)
    ensures PhiAccepted(t, code, b, phi) <==> PhiInScope(t, code, b, phi) && t.preds[b] != []
  {
    forall k | 0 <= k < |phi.from| && phi.from[k] in t.preds[b]
      ensures phi.from[k] < |code|
      ensures Reaches(t, code, phi.args[k], phi.from[k], |code[phi.from[k]]| - 1) <==>
              phi.args[k] in ScopeOut(t, code, phi.from[k])
    {
      assert EdgeInTree(t, code, phi.from[k], b);
      ReachesIsScopeOut(t, code, phi.args[k], phi.from[k]);
    }
    if PhiAccepted(t, code, b, phi) {
      forall k | 0 <= k < |phi.from|
        ensures phi.from[k] in t.preds[b]
      {
        assert EdgeAccepted(t, code, b, phi, k);
      }
      SameLengthCovers(phi.from, t.preds[b]);
      forall k | 0 <= k < |phi.from|
        ensures phi.from[k] < |code| && phi.args[k] in ScopeOut(t, code, phi.from[k])
      {
        assert EdgeAccepted(t, code, b, phi, k);
      }
    }
    if PhiInScope(t, code, b, phi) {
      SameElementsSameLength(phi.from, t.preds[b]);
      forall k | 0 <= k < |phi.args|
        ensures EdgeAccepted(t, code, b, phi, k)
      {
        assert phi.from[k] in t.preds[b];
      }
    }
  }

  ghost function Elements(s: seq<nat>): set<nat> {
    set x | x in s
  }

  lemma {:induction false} DistinctCardinality(s: seq<nat>)
    requires forall j, k | 0 <= j < k < |s| :: s[j] != s[k]
    ensures |Elements(s)| == |s|
  {
    if |s| > 0 {
      var init := s[..|s| - 1];
      DistinctCardinality(init);
      assert Elements(s) == Elements(init) + {s[|s| - 1]};
    }
  }

  /** As many distinct edges as predecessors, all among them: every predecessor is named. */
  lemma SameLengthCovers(a: seq<nat>, b: seq<nat>)
    requires forall j, k | 0 <= j < k < |a| :: a[j] != a[k]
    requires forall j, k | 0 <= j < k < |b| :: b[j] != b[k]
    requires |a| == |b| && forall k | 0 <= k < |a| :: a[k] in b
    ensures forall x | x in b :: x in a
  {
    DistinctCardinality(a);
    DistinctCardinality(b);
    assert Elements(a) <= Elements(b);
    SubsetSameSize(Elements(a), Elements(b));
    forall x | x in b
      ensures x in a
    {
      assert x in Elements(b);
    }
  }

  lemma SameElementsSameLength(a: seq<nat>, b: seq<nat>)
    requires forall j, k | 0 <= j < k < |a| :: a[j] != a[k]
    requires forall j, k | 0 <= j < k < |b| :: b[j] != b[k]
    requires forall x | x in a :: x in b
    requires forall x | x in b :: x in a
    ensures |a| == |b|
  {
    DistinctCardinality(a);
    DistinctCardinality(b);
    assert Elements(a) == Elements(b);
  }

  lemma SubsetSameSize(a: set<nat>, b: set<nat>)
    requires a <= b && |a| == |b|
    ensures a == b
  {
    var rest := b - a;
    assert b == a + rest;
    assert |b| == |a| + |rest|;
  }

  /** The checks decide single assignment form, up to the two exceptions. */
  lemma AcceptsIsSsa(t: Tree, code: Code)
    requires TreeOf(t, code) && PredsListed(t)
    ensures Built(t, code) && Accepts(t, code) && Proper(code) <==> Ssa(t, code) && AllArity(code)
  {
    if Built(t, code) && Accepts(t, code) && Proper(code) {
      AcceptedIsSsa(t, code);
    }
    if Ssa(t, code) && AllArity(code) {
      SsaIsBuilt(t, code);
      SsaIsAccepted(t, code);
    }
  }

  lemma SsaIsBuilt(t: Tree, code: Code)
    requires Ssa(t, code)
    ensures Built(t, code)
  {
    forall b, i | 0 <= b < |code| && 0 <= i < |code[b]|
      ensures ResultOk(code[b][i])
    {
      assert BlockOk(t, code, b);
      assert InstrOk(t, code, b, i);
    }
  }

  lemma AcceptedIsSsa(t: Tree, code: Code)
    requires TreeOf(t, code) && Built(t, code) && PredsListed(t) && Accepts(t, code) && Proper(code)
    ensures Ssa(t, code) && AllArity(code)
  {
    assert BlockAccepted(t, code, 0);
    assert InstrAccepted(t, code, 0, 0);
    forall b: nat | b < |code| && t.rank[b] >= 0
      ensures BlockOk(t, code, b)
    {
      assert BlockAccepted(t, code, b);
      forall i: nat | i < |code[b]|
        ensures InstrOk(t, code, b, i)
      {
        assert InstrAccepted(t, code, b, i);
        AcceptedInstrOk(t, code, b, i);
      }
    }
    forall b, i | 0 <= b < |code| && 0 <= i < |code[b]|
      ensures ArityOk(code[b][i])
    {
      assert BlockAccepted(t, code, b);
      assert InstrAccepted(t, code, b, i);
    }
  }

  lemma SsaIsAccepted(t: Tree, code: Code)
    requires TreeOf(t, code) && Built(t, code) && PredsListed(t) && Ssa(t, code) && AllArity(code)
    ensures Accepts(t, code) && Proper(code)
  {
    forall b: nat, i: nat | b < |code| && i < |code[b]|
      ensures !OwnOperand(code[b][i]) && (code[b][i].op == Phi ==> DistinctEdges(code[b][i]))
      ensures InstrAccepted(t, code, b, i)
    {
      assert BlockOk(t, code, b);
      assert InstrOk(t, code, b, i);
      OkInstrAccepted(t, code, b, i);
    }
    forall b: nat | b < |code| && t.rank[b] >= 0
      ensures BlockAccepted(t, code, b)
    {
      assert BlockOk(t, code, b);
    }
  }

  lemma AcceptedInstrOk(t: Tree, code: Code, b: nat, i: nat)
    requires TreeOf(t, code) && Built(t, code) && Proper(code)
    requires PredsListed(t)
    requires b < |code| && t.rank[b] >= 0 && i < |code[b]| && InstrAccepted(t, code, b, i)
    ensures InstrOk(t, code, b, i)
  {
    var ins := code[b][i];
    assert ResultOk(ins);
    if ins.op == Phi {
      PhiAcceptedIsInScope(t, code, b, ins);
    } else {
      assert !OwnOperand(ins);
      forall k | 0 <= k < |ins.args|
        ensures ins.args[k] in ScopeAt(t, code, b, i)
      {
        ReachesIsScope(t, code, ins.args[k], b, i);
      }
    }
  }

  lemma OkInstrAccepted(t: Tree, code: Code, b: nat, i: nat)
    requires TreeOf(t, code) && Built(t, code)
    requires PredsListed(t)
    requires b < |code| && t.rank[b] >= 0 && i < |code[b]| && InstrOk(t, code, b, i) && ArityOk(code[b][i])
    requires Leading(code[0]) == 0
    ensures InstrAccepted(t, code, b, i) && !OwnOperand(code[b][i])
    ensures code[b][i].op == Phi ==> DistinctEdges(code[b][i])
  {
    var ins := code[b][i];
    if ins.op == Phi {
      PhiAcceptedIsInScope(t, code, b, ins);
      assert b != 0;
    } else {
      forall k | 0 <= k < |ins.args|
        ensures Reaches(t, code, ins.args[k], b, i)
      {
        ReachesIsScope(t, code, ins.args[k], b, i);
      }
      if ins.dst.Some? {
        assert DefinedAt(code, ins.dst.value, b, i);
        DefNotInScope(t, code, b, i, ins.dst.value);
      }
    }
  }

  // ----------------------------------------------------------------- the verifier

  ghost function TreeFor(f: Function): Tree
    reads f`rpoIndex, f`idom, f`preds
  {
    Tree(f.rpoIndex, f.idom, f.preds)
  }

  /** Enough of a tree to walk: what the analyses give even when the entry has predecessors. */
  ghost predicate Walkable(t: Tree, code: Code) {
    && |t.preds| == |t.rank| == |code| && Parented(t.rank, t.idom)
    && (forall b: nat, p: nat {:trigger p in t.preds[b]} | b < |code| && p in t.preds[b] ::
          p < |code| && t.rank[p] >= 0)
  }

  /** Where a value is defined: the pointer from a value to its instruction. */
  method FindDef(code: Code, v: nat) returns (b: nat, j: nat, found: bool)
    ensures found ==> DefinedAt(code, v, b, j)
    ensures !found ==> forall c: nat, k: nat :: !DefinedAt(code, v, c, k)
  {
    b := 0;
    while b < |code|
      invariant b <= |code|
      invariant forall c: nat, k: nat | c < b :: !DefinedAt(code, v, c, k)
    {
      j := 0;
      while j < |code[b]|
        invariant j <= |code[b]|
        invariant forall k: nat | k < j :: !DefinedAt(code, v, b, k)
      {
        if code[b][j].dst == Some(v) {
          found := true;
          return;
        }
        j := j + 1;
      }
      b := b + 1;
    }
    j := 0;
    found := false;
  }

  method DefReaches(f: Function, ghost t: Tree, v: nat, at: nat, use: int) returns (r: bool)
    requires t == TreeFor(f) && Walkable(t, f.code) && UniqueDefs(f.code)
    requires at < |f.code| && t.rank[at] >= 0
    ensures r <==> Reaches(t, f.code, v, at, use)
  {
    var b, j, found := FindDef(f.code, v);
    if !found {
      return false;               // the defining instruction was removed
    }
    assert DefinedAt(f.code, v, b, j);
    if b != at {
      r := WalksTo(f, b, at);
    } else {
      r := j <= use;
    }
  }

  method VerifyPhi(f: Function, ghost t: Tree, block: nat, phi: Instr) returns (problems: nat)
    requires t == TreeFor(f) && Walkable(t, f.code) && UniqueDefs(f.code)
    requires block < |f.code| && |phi.from| == |phi.args|
    ensures problems == 0 <==> PhiAccepted(t, f.code, block, phi)
  {
    problems := 0;
    if |phi.args| != |f.preds[block]| {
      return 1;
    }
    if phi.from == [] {
      return 1;                   // no list of edges
    }
    for i: nat := 0 to |phi.args|
      invariant problems == 0 <==> forall k | 0 <= k < i :: EdgeAccepted(t, f.code, block, phi, k)
    {
      var from := phi.from[i];
      if from !in f.preds[block] {
        problems := problems + 1;
        assert !EdgeAccepted(t, f.code, block, phi, i);
      } else {
        var available := DefReaches(f, t, phi.args[i], from, |f.code[from]| - 1);
        if !available {
          problems := problems + 1;
        }
        assert available <==> EdgeAccepted(t, f.code, block, phi, i);
      }
    }
  }

  method VerifyOperands(f: Function, ghost t: Tree, block: nat, i: nat) returns (problems: nat)
    requires t == TreeFor(f) && Walkable(t, f.code) && UniqueDefs(f.code)
    requires block < |f.code| && t.rank[block] >= 0 && i < |f.code[block]|
    ensures problems == 0 <==>
            forall k | 0 <= k < |f.code[block][i].args| :: Reaches(t, f.code, f.code[block][i].args[k], block, i)
  {
    problems := 0;
    for k: nat := 0 to |f.code[block][i].args|
      invariant problems == 0 <==> forall j | 0 <= j < k :: Reaches(t, f.code, f.code[block][i].args[j], block, i)
    {
      var visible := DefReaches(f, t, f.code[block][i].args[k], block, i);
      if !visible {
        problems := problems + 1;
      }
    }
  }

  /** The checks on an instruction's shape; `late` when a phi would come too late. */
  method VerifyShape(ins: Instr, last: bool, late: bool) returns (problems: nat)
    ensures problems == 0 <==> (IsTerminator(ins.op) ==> last) && ArityOk(ins) && (ins.op == Phi ==> !late)
  {
    problems := 0;
    var required := RequiredArgs(ins.op);
    if IsTerminator(ins.op) && !last {
      problems := problems + 1;
    }
    if required >= 0 && |ins.args| != required {
      problems := problems + 1;
    }
    if ins.op == Call && |ins.args| < 1 {
      problems := problems + 1;
    }
    if ins.op == Phi && late {
      problems := problems + 1;
    }
  }

  method VerifyInstr(f: Function, ghost t: Tree, block: nat, i: nat, seenNonPhi: bool) returns (problems: nat)
    requires t == TreeFor(f) && Walkable(t, f.code) && UniqueDefs(f.code)
    requires block < |f.code| && t.rank[block] >= 0 && i < |f.code[block]| && ResultOk(f.code[block][i])
    requires seenNonPhi <==> i > Leading(f.code[block])
    ensures problems == 0 <==> InstrAccepted(t, f.code, block, i)
  {
    var ins := f.code[block][i];
    var shape := VerifyShape(ins, i == |f.code[block]| - 1, seenNonPhi);
    var uses;
    if ins.op == Phi {
      uses := VerifyPhi(f, t, block, ins);
    } else {
      uses := VerifyOperands(f, t, block, i);
    }
    problems := shape + uses;
  }

  method VerifyBlock(f: Function, ghost t: Tree, ghost code: Code, block: nat) returns (problems: nat)
    requires t == TreeFor(f) && code == f.code && Walkable(t, code) && UniqueDefs(code)
    requires block < |code| && t.rank[block] >= 0
    requires forall i | 0 <= i < |code[block]| :: ResultOk(code[block][i])
    ensures problems == 0 <==> BlockAccepted(t, code, block)
  {
    problems := 0;
    var seenNonPhi := false;
    var ended := HasTerminator(f.code[block]);
    if !ended {
      problems := problems + 1;
    }
    for i: nat := 0 to |f.code[block]|
      invariant seenNonPhi <==> i > Leading(code[block])
      invariant problems == 0 <==> ended && AcceptedUpTo(t, code, block, i)
    {
      var found := VerifyInstr(f, t, block, i, seenNonPhi);
      OneMoreAccepted(t, code, block, i);
      problems := problems + found;
      PastPhis(code[block], i);
      if f.code[block][i].op != Phi {
        seenNonPhi := true;
      }
    }
  }

  lemma PastPhis(block: Block, i: nat)
    requires i < |block|
    ensures block[i].op == Phi && i <= Leading(block) ==> i < Leading(block)
    ensures block[i].op != Phi ==> Leading(block) <= i
  {
  }

  lemma OneMoreAccepted(t: Tree, code: Code, b: nat, i: nat)
    requires b < |code| && i < |code[b]|
    ensures AcceptedUpTo(t, code, b, i + 1) <==> AcceptedUpTo(t, code, b, i) && InstrAccepted(t, code, b, i)
  {
  }

  method IrVerify(f: Function) returns (problems: nat)
    requires Numbered(f.Analysis()) && DomTree(f.Analysis(), f.idom)
    requires Built(TreeFor(f), f.code)
    ensures problems == 0 <==> Accepts(TreeFor(f), f.code)
  {
    ghost var t := TreeFor(f);
    DomTreeParented(f.Analysis(), f.idom);
    problems := 0;
    if |f.preds[0]| > 0 {
      problems := problems + 1;
    }
    for i := 0 to |f.rpo|
      invariant problems == 0 <==> t.preds[0] == [] && forall k | 0 <= k < i :: BlockAccepted(t, f.code, f.rpo[k])
    {
      var found := VerifyBlock(f, t, f.code, f.rpo[i]);
      problems := problems + found;
    }
    assert forall b: nat | b < |f.code| && t.rank[b] >= 0 :: f.rpo[t.rank[b]] == b;
  }

  // ------------------------------------------------------- what a verified body does

  /** The promise of the verifier, with what it needs besides: no problems reported means
      that no run, on any machine and any arguments, goes wrong. */
  lemma VerifiedNeverGoesWrong(t: Tree, c: Context, code: Code, world: World, n: nat)
    requires TreeOf(t, code) && Built(t, code)
    requires PredsListed(t)
    requires Accepts(t, code) && Proper(code)
    ensures Observe(Run(c, code, world, n)) != WentWrong
  {
    AcceptsIsSsa(t, code);
    NeverWrong(t, c, code, world, n);
  }

  const ONE_BLOCK := Tree([0], [-1], [[]])

  /** `%0 = neg %0; ret %0` */
  const SELF_OPERAND: Code := [[Emit(Neg).(dst := Some(0), args := [0]), Emit(Ret).(args := [0])]]

  /** An instruction that is its own operand is accepted, and reads what nothing assigned. */
  lemma SelfOperandAccepted(c: Context, world: World)
    ensures TreeOf(ONE_BLOCK, SELF_OPERAND) && Accepts(ONE_BLOCK, SELF_OPERAND)
    ensures Observe(Run(c, SELF_OPERAND, world, 1)) == WentWrong
  {
    var code := SELF_OPERAND;
    assert Successors(code[0]) == [];
    assert DefinedAt(code, 0, 0, 0);
    assert InstrAccepted(ONE_BLOCK, code, 0, 0);
    assert InstrAccepted(ONE_BLOCK, code, 0, 1);
    SelfOperandStuck(c, world);
    assert Run(c, code, world, 0) == At(0, None, State(map[], map[], world));
  }

  lemma SelfOperandStuck(c: Context, world: World)
    ensures ExecBlock(c, SELF_OPERAND, 0, None, State(map[], map[], world)) == Wrong
  {
    var block := SELF_OPERAND[0];
    var st := State(map[], map[], world);
    assert block[..0] == [] && block[0..] == block;
    assert st.(env := st.env + map[]) == st;
    assert block[0].args[0] !in st.env;
    assert !Assigned(st.env, block[0].args);
  }

  const TRIANGLE := Tree([0, 1, 2], [-1, 0, 0], [[], [0], [0, 1]])

  /** `%0 = const 1; br %0 ? b1 : b2`, `b1: jmp b2`, `b2: %1 = phi %0 from b0, %0 from b0; ret` */
  const TWICE_ONE_EDGE: Code := [
    [Emit(Const).(dst := Some(0), imm := 1), Emit(Br).(args := [0], thenBlock := 1, elseBlock := 2)],
    [Emit(Jmp).(target := 2)],
    [Emit(Phi).(dst := Some(1), args := [0, 0], from := [0, 0]), Emit(Ret)]]

  /** A phi that names one edge twice is accepted, and has nothing for the other edge. */
  lemma TwiceOneEdgeAccepted(c: Context, world: World)
    ensures TreeOf(TRIANGLE, TWICE_ONE_EDGE) && Accepts(TRIANGLE, TWICE_ONE_EDGE)
    ensures Observe(Run(c, TWICE_ONE_EDGE, world, 3)) == WentWrong
  {
    TriangleTree();
    TriangleFirst();
    TriangleMerge();
    TriangleRun(c, world);
  }

  lemma TriangleTree()
    ensures TreeOf(TRIANGLE, TWICE_ONE_EDGE)
  {
    var t, code := TRIANGLE, TWICE_ONE_EDGE;
    TriangleFlow();
    assert HasParent(t.rank, t.idom, 1) && HasParent(t.rank, t.idom, 2);
    assert Anc(t.rank, t.idom, 0, 1);
    forall b: nat, p: nat | b < 3 && p in t.preds[b]
      ensures EdgeInTree(t, code, p, b)
    {
      assert (b == 1 && p == 0) || (b == 2 && (p == 0 || p == 1));
    }
  }

  lemma TriangleFlow()
    ensures forall p: nat, b: nat :: Leads(TWICE_ONE_EDGE, p, b) <==>
              (p == 0 && b == 1) || (p == 0 && b == 2) || (p == 1 && b == 2)
  {
    var code := TWICE_ONE_EDGE;
    assert Successors(code[0]) == [1, 2] && Successors(code[1]) == [2] && Successors(code[2]) == [];
  }

  lemma TriangleFirst()
    ensures BlockAccepted(TRIANGLE, TWICE_ONE_EDGE, 0) && BlockAccepted(TRIANGLE, TWICE_ONE_EDGE, 1)
  {
    var t, code := TRIANGLE, TWICE_ONE_EDGE;
    assert DefinedAt(code, 0, 0, 0);
    assert Reaches(t, code, 0, 0, 1);
    assert InstrAccepted(t, code, 0, 0);
    assert InstrAccepted(t, code, 0, 1);
    assert InstrAccepted(t, code, 1, 0);
  }

  lemma TriangleMerge()
    ensures BlockAccepted(TRIANGLE, TWICE_ONE_EDGE, 2)
  {
    var t, code := TRIANGLE, TWICE_ONE_EDGE;
    var phi := code[2][0];
    assert DefinedAt(code, 0, 0, 0);
    assert Reaches(t, code, 0, 0, 1);
    assert Leading(code[2]) == 1 + Leading(code[2][1..]);
    forall k: nat | k < 2
      ensures EdgeAccepted(t, code, 2, phi, k)
    {
      assert phi.from[k] == 0 && phi.args[k] == 0;
    }
    assert PhiAccepted(t, code, 2, phi);
    assert InstrAccepted(t, code, 2, 0);
    assert InstrAccepted(t, code, 2, 1);
  }

  lemma TriangleRun(c: Context, world: World)
    ensures Observe(Run(c, TWICE_ONE_EDGE, world, 3)) == WentWrong
  {
    var code := TWICE_ONE_EDGE;
    var st := State(map[], map[], world);
    var one := st.(env := map[0 := 1]);
    TriangleEntry(c, st);
    TriangleJump(c, one);
    assert Run(c, code, world, 0) == At(0, None, st);
    assert Run(c, code, world, 1) == At(1, Some(0), one);
    assert Run(c, code, world, 2) == At(2, Some(1), one);
    assert Leading(code[2]) == 1 + Leading(code[2][1..]);
    assert code[2][..1] == [code[2][0]];
    assert Arriving(code[2][0], Some(1), one.env) == None;
  }

  lemma TriangleEntry(c: Context, st: State)
    requires st.env == map[]
    ensures ExecBlock(c, TWICE_ONE_EDGE, 0, None, st) == Goto(1, st.(env := map[0 := 1]))
  {
    var block := TWICE_ONE_EDGE[0];
    var one := st.(env := map[0 := 1]);
    assert block[..0] == [] && block[0..] == block && block[1..] == [block[1]];
    assert st.(env := st.env + map[]) == st;
    assert SetDst(block[0], 1, st) == one;
    assert Exec(c, block[0], st) == Continue(one);
    assert Exec(c, block[1], one) == Goto(1, one);
    assert ExecFrom(c, block[1..], one) == Goto(1, one);
  }

  lemma TriangleJump(c: Context, st: State)
    ensures ExecBlock(c, TWICE_ONE_EDGE, 1, Some(0), st) == Goto(2, st)
  {
    var block := TWICE_ONE_EDGE[1];
    assert block[..0] == [] && block[0..] == block;
    assert st.(env := st.env + map[]) == st;
    assert Exec(c, block[0], st) == Goto(2, st);
  }
}
