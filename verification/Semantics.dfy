/** What a function body computes, in the manner of the interpreter that the
    optimiser's tests use: all phis of a block at once, then the instructions in
    order, one block after another.

    What the operators, memory and called functions mean is a parameter, the
    `Machine`: everything proved about a pass holds for every meaning of `+`, every
    memory layout and every callee. */
module Semantics {
  import opened Ir

  /** Memory, and what the function has done to the outside so far. */
  datatype World = World(memory: map<int, int>, events: seq<seq<int>>)

  /** What an instruction says, apart from the values of its operands. */
  datatype Expr = Expr(
    op: Op, imm: int, text: Option<string>, sym: Option<string>, mem: Option<Width>,
    result: Option<Width>, operands: seq<Width>)

  datatype Effect = Effect(value: int, world: World)

  /** `None` is a trap. `compute` is the operators, `load` reads memory, `effect` is
      stores, copies of memory and calls, `address` is where a frame slot lies. */
  datatype Machine = Machine(
    compute: (Expr, seq<int>) -> Option<int>,
    load: (Expr, seq<int>, World) -> Option<int>,
    effect: (Expr, seq<int>, World) -> Option<Effect>,
    address: nat -> int)

  /** One invocation: the machine, the type of every value, the arguments, and the
      frame slots that nothing but this function's own loads and stores can reach. */
  datatype Context = Context(m: Machine, types: seq<Ty>, private: set<nat>, actuals: seq<int>)

  /** `env` holds the values assigned so far, `cells` what is in the private slots. */
  datatype State = State(env: map<nat, int>, cells: map<nat, int>, world: World)

  datatype Outcome =
    | Continue(st: State)
    | Goto(block: nat, st: State)
    | Return(value: Option<int>, world: World)
    | Trap(world: World)
    | Wrong              // an unassigned value, a missing edge, or no terminator

  const NO_TYPE := Ty("", 0, false)

  function TyOf(types: seq<Ty>, v: nat): Ty {
    if v < |types| then types[v] else NO_TYPE
  }

  /** The width of a value. */
  function Wide(types: seq<Ty>, v: nat): Width {
    WidthOf(TyOf(types, v))
  }

  function ExprOf(types: seq<Ty>, i: Instr): Expr {
    Expr(i.op, i.imm, i.text, i.sym,
         if (i.op == Load || i.op == Store) && i.memTy.Some? then Some(WidthOf(i.memTy.value)) else None,
         if i.dst.Some? then Some(Wide(types, i.dst.value)) else None,
         seq(|i.args|, k requires 0 <= k < |i.args| => Wide(types, i.args[k])))
  }

  predicate Assigned(env: map<nat, int>, args: seq<nat>) {
    forall k | 0 <= k < |args| :: args[k] in env
  }

  function Values(env: map<nat, int>, args: seq<nat>): (vals: seq<int>)
    requires Assigned(env, args)
    ensures |vals| == |args|
    ensures forall k | 0 <= k < |args| :: vals[k] == env[args[k]]
  {
    seq(|args|, k requires 0 <= k < |args| => env[args[k]])
  }

  /** Frame slots start as zero. */
  function Cell(cells: map<nat, int>, s: nat): int {
    if s in cells then cells[s] else 0
  }

  function SetDst(i: Instr, value: int, st: State): State {
    if i.dst.Some? then st.(env := st.env[i.dst.value := value]) else st
  }

  /** The value of an instruction that only computes. */
  function Evaluate(c: Context, i: Instr, vals: seq<int>): Option<int> {
    if i.op == Const then Some(i.imm)
    else if i.op == Copy && |vals| == 1 then Some(vals[0])
    else c.m.compute(ExprOf(c.types, i), vals)
  }

  /** An access straight through a private slot's own address. */
  predicate Direct(private: set<nat>, i: Instr) {
    (i.op == Load && |i.args| == 1 && i.args[0] in private) ||
    (i.op == Store && |i.args| == 2 && i.args[0] in private)
  }

  function Affect(c: Context, i: Instr, vals: seq<int>, st: State): Outcome {
    match c.m.effect(ExprOf(c.types, i), vals, st.world)
    case None => Trap(st.world)
    case Some(e) => Continue(SetDst(i, e.value, st.(world := e.world)))
  }

  function Exec(c: Context, i: Instr, st: State): Outcome {
    if !Assigned(st.env, i.args) then Wrong
    else
      var vals := Values(st.env, i.args);
      match i.op
      case Nop => if i.dst.Some? then Computed(c, i, vals, st) else Continue(st)
      case Phi => Continue(st)
      case Param => Continue(SetDst(i, if 0 <= i.imm < |c.actuals| then c.actuals[i.imm] else 0, st))
      case Alloca => Continue(if i.dst.Some? then SetDst(i, c.m.address(i.dst.value), st) else st)
      case Load =>
        if Direct(c.private, i) then Continue(SetDst(i, Cell(st.cells, i.args[0]), st))
        else
          (match c.m.load(ExprOf(c.types, i), vals, st.world)
           case None => Trap(st.world)
           case Some(x) => Continue(SetDst(i, x, st)))
      case Store =>
        if Direct(c.private, i) then Continue(st.(cells := st.cells[i.args[0] := vals[1]]))
        else Affect(c, i, vals, st)
      case MemCpy => Affect(c, i, vals, st)
      case Call => Affect(c, i, vals, st)
      case Jmp => Goto(i.target, st)
      case Br => if |vals| != 1 then Wrong else Goto(if vals[0] != 0 then i.thenBlock else i.elseBlock, st)
      case Ret => Return(if |vals| > 0 then Some(vals[0]) else None, st.world)
      case _ => Computed(c, i, vals, st)
  }

  function Computed(c: Context, i: Instr, vals: seq<int>, st: State): Outcome {
    match Evaluate(c, i, vals)
    case None => Trap(st.world)
    case Some(x) => Continue(SetDst(i, x, st))
  }

  function ExecFrom(c: Context, instrs: seq<Instr>, st: State): Outcome {
    if instrs == [] then Wrong
    else
      var o := Exec(c, instrs[0], st);
      if o.Continue? then ExecFrom(c, instrs[1..], o.st) else o
  }

  lemma ExecStep(c: Context, block: Block, k: nat, st: State)
    requires k < |block|
    ensures var o := Exec(c, block[k], st);
            ExecFrom(c, block[k..], st) == if o.Continue? then ExecFrom(c, block[k + 1..], o.st) else o
  {
    assert block[k..][1..] == block[k + 1..];
  }

  // ------------------------------------------------------------------------ phis

  /** How many phis a block starts with. */
  function Leading(block: Block): (n: nat)
    ensures n <= |block|
    ensures forall k | 0 <= k < n :: block[k].op == Phi
    ensures n < |block| ==> block[n].op != Phi
  {
    if block == [] || block[0].op != Phi then 0 else 1 + Leading(block[1..])
  }

  /** Which operand of a phi belongs to the edge taken: the first that names it. */
  function EdgeIndex(from: seq<nat>, prev: nat): (k: nat)
    ensures k <= |from|
    ensures k < |from| ==> from[k] == prev
    ensures forall j | 0 <= j < k :: from[j] != prev
  {
    if from == [] || from[0] == prev then 0 else 1 + EdgeIndex(from[1..], prev)
  }

  /** What a phi takes along the edge from `prev`, read before any phi is assigned. */
  function Arriving(phi: Instr, prev: Option<nat>, env: map<nat, int>): Option<int> {
    if prev.None? then None
    else
      var k := EdgeIndex(phi.from, prev.value);
      if k < |phi.from| && k < |phi.args| && phi.args[k] in env then Some(env[phi.args[k]]) else None
  }

  /** The assignments of all the phis together. */
  function Merge(phis: seq<Instr>, prev: Option<nat>, env: map<nat, int>): Option<map<nat, int>> {
    if phis == [] then Some(map[])
    else
      var x := Arriving(phis[0], prev, env);
      var rest := Merge(phis[1..], prev, env);
      if x.None? || rest.None? || phis[0].dst.None? then None
      else Some(rest.value[phis[0].dst.value := x.value])
  }

  function ExecBlock(c: Context, code: Code, b: nat, prev: Option<nat>, st: State): Outcome {
    if b >= |code| then Wrong
    else
      var n := Leading(code[b]);
      var merged := Merge(code[b][..n], prev, st.env);
      if merged.None? then Wrong
      else ExecFrom(c, code[b][n..], st.(env := st.env + merged.value))
  }

  /** A block, once its phis have received their values. */
  lemma BlockIs(c: Context, code: Code, b: nat, prev: Option<nat>, st: State, m: map<nat, int>)
    requires b < |code| && Merge(code[b][..Leading(code[b])], prev, st.env) == Some(m)
    ensures ExecBlock(c, code, b, prev, st) == ExecFrom(c, code[b][Leading(code[b])..], st.(env := st.env + m))
  {
  }

  // ------------------------------------------------------------------------ runs

  datatype Config = At(block: nat, prev: Option<nat>, st: State) | Halted(outcome: Outcome)

  function Next(c: Context, code: Code, cfg: Config): Config {
    if cfg.Halted? then cfg
    else
      var o := ExecBlock(c, code, cfg.block, cfg.prev, cfg.st);
      if o.Goto? then At(o.block, Some(cfg.block), o.st) else Halted(o)
  }

  /** The configuration after `n` blocks. */
  function Run(c: Context, code: Code, world: World, n: nat): Config {
    if n == 0 then At(0, None, State(map[], map[], world))
    else Next(c, code, Run(c, code, world, n - 1))
  }

  /** Induction over two runs: what holds at the start, and is kept by every pair of
      blocks, holds after any number of blocks. */
  lemma {:induction false} Lockstep(c: Context, code: Code, c': Context, code': Code, world: World, n: nat,
      rel: (Config, Config) -> bool)
    requires rel(Run(c, code, world, 0), Run(c', code', world, 0))
    requires forall x, y | rel(x, y) :: rel(Next(c, code, x), Next(c', code', y))
    ensures rel(Run(c, code, world, n), Run(c', code', world, n))
    decreases n
  {
    if n > 0 {
      Lockstep(c, code, c', code', world, n - 1, rel);
    }
  }

  /** What can be seen of a run from outside. */
  datatype Behaviour =
    | Running
    | Returned(value: Option<int>, world: World)
    | Trapped(world: World)
    | WentWrong

  function Observe(cfg: Config): Behaviour {
    if cfg.At? then Running
    else
      match cfg.outcome
      case Return(v, w) => Returned(v, w)
      case Trap(w) => Trapped(w)
      case _ => WentWrong
  }

  // -------------------------------------------------------------- private slots

  /** A use of a value as anything but the address of a load or store. */
  ghost predicate Escapes(i: Instr, v: nat) {
    exists k :: 0 <= k < |i.args| && i.args[k] == v && !(k == 0 && (i.op == Load || i.op == Store))
  }

  ghost predicate IsSlot(code: Code, v: nat) {
    exists b, i :: 0 <= b < |code| && 0 <= i < |code[b]| && code[b][i].op == Alloca && code[b][i].dst == Some(v)
  }

  /** Only slots whose address goes nowhere but into loads and stores are private. */
  ghost predicate Secluded(c: Context, code: Code) {
    && (forall b, i | 0 <= b < |code| && 0 <= i < |code[b]| && code[b][i].dst.Some? &&
        code[b][i].dst.value in c.private ::
          code[b][i].op == Alloca)
    && (forall b, i, v | 0 <= b < |code| && 0 <= i < |code[b]| && v in c.private :: !Escapes(code[b][i], v))
  }

  /** ... and all of them exist. */
  ghost predicate OwnSlots(c: Context, code: Code) {
    forall v | v in c.private :: IsSlot(code, v)
  }
}
