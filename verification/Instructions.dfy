/** What the questions answered by looking at one instruction mean.

    Each of them is a table over opcodes. Here each table is shown to be exactly what running
    the instruction says: which instructions only compute, which can be run early, which do
    something besides giving a value, where control can go, how many operands are read, and
    when two instructions are the same expression. */
module Instructions {
  import opened Ir
  import opened Words
  import opened Semantics
  import opened Verify
  import opened Simulation
  import Slots
  import Fold
  import Hoist

  // ----------------------------------------------------------------- a little machine

  /** Operators trap, loads give zero, and everything else wipes out the world. */
  const TRAPPING := Machine((e, vals) => None, (e, vals, w) => Some(0), (e, vals, w) => Some(Effect(0, BLANK)), v => 0)

  /** Only division and remainder trap. */
  const DIVIDING := TRAPPING.(compute := (e: Expr, vals) => if e.op == Div || e.op == Mod then None else Some(0))

  const BLANK := World(map[], [])
  const MARKED := World(map[0 := 1], [])

  /** The operands of an instruction, all zero. */
  function Zeros(args: seq<nat>): (env: map<nat, int>)
    ensures Assigned(env, args)
  {
    map v | v in args :: 0
  }

  function Start(i: Instr): (st: State)
    ensures Assigned(st.env, i.args)
  {
    State(Zeros(i.args), map[], MARKED)
  }

  function Plain(m: Machine): Context {
    Context(m, [], {}, [])
  }

  // --------------------------------------------------------------------- what it does

  /** An instruction is pure exactly when all it ever does is compute its result from the
      values of its operands. */
  lemma PureMeans(i: Instr)
    ensures IsPure(i) <==> i.dst.Some? && forall c: Context, st: State | Assigned(st.env, i.args) ::
              Exec(c, i, st) == Computed(c, i, Values(st.env, i.args), st)
  {
    if IsPure(i) {
      forall c: Context, st: State | Assigned(st.env, i.args)
        ensures Exec(c, i, st) == Computed(c, i, Values(st.env, i.args), st)
      {
        PureComputes(c, i, st);
      }
    } else if i.dst.Some? {
      var (c, st) := (Plain(TRAPPING), Start(i));
      ImpureDoesNot(c, i, st);
    }
  }

  lemma PureComputes(c: Context, i: Instr, st: State)
    requires IsPure(i) && Assigned(st.env, i.args)
    ensures Exec(c, i, st) == Computed(c, i, Values(st.env, i.args), st)
  {
  }

  lemma ImpureDoesNot(c: Context, i: Instr, st: State)
    requires i.dst.Some? && !IsPure(i) && Assigned(st.env, i.args) && c.m == TRAPPING
    ensures Exec(c, i, st) != Computed(c, i, Values(st.env, i.args), st)
  {
    var vals := Values(st.env, i.args);
    assert c.m.compute(ExprOf(c.types, i), vals) == None;
    OperatorTraps(c, i, vals, st);
    assert c.m.load(ExprOf(c.types, i), vals, st.world).Some?;
    assert c.m.effect(ExprOf(c.types, i), vals, st.world).Some?;
    OthersRun(c, i, st);
  }

  lemma OperatorTraps(c: Context, i: Instr, vals: seq<int>, st: State)
    requires c.m.compute(ExprOf(c.types, i), vals) == None && i.op != Const && i.op != Copy
    ensures Computed(c, i, vals, st) == Trap(st.world)
  {
  }

  lemma OthersRun(c: Context, i: Instr, st: State)
    requires HasSideEffects(i) || i.op in {Load, Alloca, Phi}
    requires Assigned(st.env, i.args)
    requires c.m.load(ExprOf(c.types, i), Values(st.env, i.args), st.world).Some?
    requires c.m.effect(ExprOf(c.types, i), Values(st.env, i.args), st.world).Some?
    ensures !Exec(c, i, st).Trap?
  {
  }

  /** Among those, the ones that can run where they would not have run are exactly those
      that do not trap, wherever only division and remainder do. */
  lemma SafeMeans(i: Instr)
    ensures Hoist.Safe(i) <==>
            && IsPure(i)
            && forall c: Context, st: State | Hoist.TotalMachine(c.m) && Assigned(st.env, i.args) ::
                 !Exec(c, i, st).Trap?
  {
    if IsPure(i) && !Hoist.Safe(i) {
      var (c, st) := (Plain(DIVIDING), Start(i));
      assert ExprOf(c.types, i).op == i.op;
      assert Hoist.TotalMachine(c.m);
      assert Exec(c, i, st).Trap?;
    }
    if Hoist.Safe(i) {
      forall c: Context, st: State | Hoist.TotalMachine(c.m) && Assigned(st.env, i.args)
        ensures !Exec(c, i, st).Trap?
      {
        Hoist.SafeRuns(c, i, st);
      }
    }
  }

  /** More than a value: memory, the outside or a frame slot changes, or control leaves. */
  predicate Acts(st: State, o: Outcome) {
    match o
    case Continue(after) => after.world != st.world || after.cells != st.cells
    case Trap(_) => false
    case _ => true
  }

  /** Apart from parameters, which stay whatever becomes of them, an instruction has side
      effects exactly when it can do more than give a value. */
  lemma EffectsMean(i: Instr)
    ensures HasSideEffects(i) <==>
            i.op == Param || exists c: Context, st: State :: Assigned(st.env, i.args) && Acts(st, Exec(c, i, st))
  {
    if HasSideEffects(i) && i.op != Param {
      var (c, st) := (Plain(TRAPPING), Start(i));
      assert 0 in MARKED.memory && 0 !in BLANK.memory;
      assert Acts(st, Exec(c, i, st));
    }
    if !HasSideEffects(i) {
      forall c: Context, st: State | Assigned(st.env, i.args)
        ensures !Acts(st, Exec(c, i, st))
      {
        ValueOnly(c, i, st);
      }
    }
  }

  lemma ValueOnly(c: Context, i: Instr, st: State)
    requires !HasSideEffects(i) && Assigned(st.env, i.args)
    ensures !Acts(st, Exec(c, i, st))
  {
  }

  ghost predicate Leaves(i: Instr) {
    exists c: Context, st: State ::
      Assigned(st.env, i.args) && !Exec(c, i, st).Continue? && !Exec(c, i, st).Trap?
  }

  /** A terminator is what cannot be followed by the next instruction. */
  lemma TerminatorMeans(i: Instr)
    ensures IsTerminator(i.op) <==> Leaves(i)
  {
    if IsTerminator(i.op) {
      var (c, st) := (Plain(TRAPPING), Start(i));
      assert !Exec(c, i, st).Continue? && !Exec(c, i, st).Trap?;
    } else {
      forall c: Context, st: State | Assigned(st.env, i.args)
        ensures Exec(c, i, st).Continue? || Exec(c, i, st).Trap?
      {
        StaysInBlock(c, i, st);
      }
    }
  }

  lemma StaysInBlock(c: Context, i: Instr, st: State)
    requires !IsTerminator(i.op) && Assigned(st.env, i.args)
    ensures Exec(c, i, st).Continue? || Exec(c, i, st).Trap?
  {
  }

  /** A block is ended exactly when its last instruction takes control somewhere. */
  lemma EndedMeans(block: Block)
    ensures HasTerminator(block) <==> block != [] && Leaves(block[|block| - 1])
  {
    if block != [] {
      TerminatorMeans(block[|block| - 1]);
    }
  }

  ghost predicate CanGoTo(i: Instr, b: nat) {
    exists c: Context, st: State :: Assigned(st.env, i.args) && Exec(c, i, st).Goto? && Exec(c, i, st).block == b
  }

  /** The successors of a block are exactly where its last instruction can go. */
  lemma SuccessorsMean(block: Block, b: nat)
    requires block != [] ==> ArityOk(block[|block| - 1])
    ensures b in Successors(block) <==> block != [] && CanGoTo(block[|block| - 1], b)
  {
    if block != [] {
      var last := block[|block| - 1];
      if b in Successors(block) {
        var st := Start(last);
        if last.op == Br && b == last.thenBlock {
          st := st.(env := map[last.args[0] := 1]);
        }
        GoesTo(Plain(TRAPPING), last, st, b);
      } else {
        forall c: Context, st: State | Assigned(st.env, last.args) && Exec(c, last, st).Goto?
          ensures Exec(c, last, st).block != b
        {
          WentToSuccessor(c, block, st);
        }
      }
    }
  }

  lemma WentToSuccessor(c: Context, block: Block, st: State)
    requires block != [] && Exec(c, block[|block| - 1], st).Goto?
    ensures Exec(c, block[|block| - 1], st).block in Successors(block)
  {
  }

  lemma GoesTo(c: Context, last: Instr, st: State, b: nat)
    requires Assigned(st.env, last.args)
    requires if last.op == Jmp then b == last.target
             else last.op == Br && |last.args| == 1 &&
                  b == if st.env[last.args[0]] != 0 then last.thenBlock else last.elseBlock
    ensures Exec(c, last, st).Goto? && Exec(c, last, st).block == b
  {
  }

  // ------------------------------------------------------------------ how many operands

  /** Loads and stores have the operands that reach a slot: the address, and what is stored. */
  lemma AccessArity(i: Instr)
    requires i.op == Load || i.op == Store
    ensures ArityOk(i) <==> exists private: set<nat> :: Direct(private, i)
    ensures i.op == Load && i.dst.Some? ==> (ArityOk(i) <==> Slots.AccessOk(i))
    ensures i.op == Store ==> (ArityOk(i) <==> Slots.AccessOk(i))
  {
    if ArityOk(i) {
      assert Direct({i.args[0]}, i);
    }
  }

  /** A branch has the operands with which it goes somewhere. */
  lemma BranchArity(i: Instr)
    requires i.op == Br
    ensures ArityOk(i) <==> forall c: Context, st: State | Assigned(st.env, i.args) :: Exec(c, i, st).Goto?
  {
    var (c, st) := (Plain(TRAPPING), Start(i));
    if |i.args| != 1 {
      assert !Exec(c, i, st).Goto?;
    }
  }

  predicate Computes(op: Op) {
    op in {Neg, Complement, LogNot, Cast, Copy, Add, Sub, Mul, Div, Mod, Shl, Shr, And, Or, Xor, Eq, Ne, Lt, Le, Gt, Ge}
  }

  /** An operator has the operands from which there is something to compute. */
  lemma OperatorArity(types: seq<Ty>, i: Instr)
    requires Computes(i.op) && Word(i.imm)
    ensures ArityOk(i) <==>
            exists vals :: Fits64(vals) && |vals| == |i.args| && Fold.Interpret(types, i, vals).Some?
  {
    if ArityOk(i) {
      var vals := seq(|i.args|, k => 1);
      assert Fits64(vals) && Fold.Interpret(types, i, vals).Some?;
    }
  }

  predicate Fits64(vals: seq<int>) {
    forall k | 0 <= k < |vals| :: Word(vals[k])
  }

  /** Every other operation: what names a thing, a parameter or a place has no operand, a
      copy of memory has two addresses, and a call has at least what it calls. */
  lemma OtherArity(i: Instr)
    requires !Computes(i.op) && i.op != Load && i.op != Store && i.op != Br
    ensures ArityOk(i) <==>
            if i.op == Ret || i.op == Phi then true
            else if i.op == Call then i.args != []
            else |i.args| == if i.op == MemCpy then 2 else 0
  {
  }

  // ----------------------------------------------------------------- the same expression

  /** Two pure operations are the same expression exactly when they give values of one type
      that are equal whatever the operators mean and whatever their operands are. */
  lemma SameExpressionMeans(types: seq<Ty>, x: Instr, y: Instr)
    requires IsPure(x) && IsPure(y) && x.op !in {Const, Copy} && y.op !in {Const, Copy}
    ensures SameExpression(types, x, y) <==>
            && TyOf(types, x.dst.value) == TyOf(types, y.dst.value)
            && forall c: Context, env: map<nat, int>
                 | c.types == types && Assigned(env, x.args) && Assigned(env, y.args) ::
                 Evaluate(c, x, Values(env, x.args)) == Evaluate(c, y, Values(env, y.args))
  {
    if SameExpression(types, x, y) {
      forall c: Context, env: map<nat, int> | c.types == types && Assigned(env, x.args) && Assigned(env, y.args)
        ensures Evaluate(c, x, Values(env, x.args)) == Evaluate(c, y, Values(env, y.args))
      {
        SameValue(c, x, y, env);
      }
    } else if TyOf(types, x.dst.value) == TyOf(types, y.dst.value) {
      var c, env := ToldApart(types, x, y);
      assert Evaluate(c, x, Values(env, x.args)) != Evaluate(c, y, Values(env, y.args));
    }
  }

  /** A machine and operands that tell two different expressions apart. */
  lemma ToldApart(types: seq<Ty>, x: Instr, y: Instr) returns (c: Context, env: map<nat, int>)
    requires IsPure(x) && IsPure(y) && x.op !in {Const, Copy} && y.op !in {Const, Copy}
    requires !SameExpression(types, x, y) && TyOf(types, x.dst.value) == TyOf(types, y.dst.value)
    ensures c.types == types && Assigned(env, x.args) && Assigned(env, y.args)
    ensures Evaluate(c, x, Values(env, x.args)) != Evaluate(c, y, Values(env, y.args))
  {
    env := map v: nat | v in x.args + y.args :: v;
    assert forall v | v in x.args || v in y.args :: v in x.args + y.args;
    var (e, vals) := (ExprOf(types, x), Values(env, x.args));
    var m := TRAPPING.(compute := (e', vals') => if e' == e && vals' == vals then Some(0) else None);
    c := Context(m, types, {}, []);
    if ExprOf(types, y) == e && Values(env, y.args) == vals {
      SameNames(env, x.args, y.args);
      SameFields(types, x, y);
    }
  }

  lemma SameFields(types: seq<Ty>, x: Instr, y: Instr)
    requires ExprOf(types, x) == ExprOf(types, y) && x.args == y.args
    requires x.dst.Some? && y.dst.Some? ==> TyOf(types, x.dst.value) == TyOf(types, y.dst.value)
    ensures SameExpression(types, x, y)
  {
  }

  lemma SameNames(env: map<nat, int>, xs: seq<nat>, ys: seq<nat>)
    requires Assigned(env, xs) && Assigned(env, ys) && Values(env, xs) == Values(env, ys)
    requires forall v | v in env :: env[v] == v
    ensures xs == ys
  {
    forall k | 0 <= k < |xs|
      ensures k < |ys| && xs[k] == ys[k]
    {
      assert Values(env, xs)[k] == Values(env, ys)[k];
    }
  }

  /** The expression says all there is to know: what an operator of machine words gives
      depends on nothing else of the instruction. */
  lemma ExpressionDecides(types: seq<Ty>, x: Instr, y: Instr, vals: seq<int>)
    requires ExprOf(types, x) == ExprOf(types, y) && |vals| == |x.args| == |y.args| && Fits64(vals)
    requires Word(x.imm) && Word(y.imm)
    ensures Fold.Interpret(types, x, vals) == Fold.Interpret(types, y, vals)
  {
    var (e, e') := (ExprOf(types, x), ExprOf(types, y));
    assert e.op == e'.op && e.imm == e'.imm && e.result == e'.result;
    if |vals| > 0 {
      assert e.operands[0] == e'.operands[0];
    }
    if |vals| == 1 || |vals| == 2 {
      SameTruncation(Fold.ResultTy(types, x), Fold.ResultTy(types, y));
    }
  }

  lemma SameTruncation(a: Ty, b: Ty)
    requires a.size == b.size && a.isUnsigned == b.isUnsigned
    ensures forall x | Word(x) :: Truncate(x, a) == Truncate(x, b)
  {
  }
}
