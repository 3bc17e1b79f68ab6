/** Running the code of a statement does what the statement means. */
module StmtCorrect {
  import Ir
  import opened StackMachine
  import opened StackRuns
  import opened CodegenExpr
  import opened StmtRuns
  import opened Statements
  import opened CodegenStmt
  import opened LoopRuns
  import opened CodeLabels

  /** The labels a statement can jump to. */
  ghost predicate Mentioned(env: Env, m: nat) {
    || m == env.end || m in env.labels.number.Values
    || (env.marks.Some? && (m == env.marks.value.brk || m == env.marks.value.cont))
  }

  /** The labels around a statement are in the program. */
  ghost predicate Wired(prog: Prog, env: Env) {
    DistinctLabels(prog) && forall m: nat {:trigger Mentioned(env, m)} | Mentioned(env, m) :: Defined(prog, m)
  }

  lemma LoopWired(prog: Prog, env: Env, brk: nat, p: nat, cont: nat, q: nat)
    requires Wired(prog, env) && LabelAt(prog, brk, p) && (LabelAt(prog, cont, q) || Mentioned(env, cont))
    ensures Wired(prog, LoopEnv(env, brk, cont))
  {
    forall m: nat | Mentioned(LoopEnv(env, brk, cont), m) ensures Defined(prog, m) {
      assert m == brk || m == cont || Mentioned(env, m);
      assert m == brk ==> LabelAt(prog, m, p);
      assert m == cont && !Mentioned(env, cont) ==> LabelAt(prog, m, q);
    }
  }

  ghost predicate EntryLabel(prog: Prog, labels: Labels, cases: nat, t: Target, at: nat) {
    match t
    case AtName(n) => n in labels.number && LabelAt(prog, labels.number[n], at)
    case AtCase(k) => LabelAt(prog, cases + k, at)
    case _ => false
  }

  /** `at` is where the code at `p` is entered for target `t`. */
  ghost predicate EntryAt(prog: Prog, env: Env, cases: nat, mark: nat, p: nat, t: Target, at: nat) {
    if t.Start? then at == p else if t.Test? then LabelAt(prog, mark, at)
      else EntryLabel(prog, env.labels, cases, t, at)
  }

  /** What is asked of a place in a program that holds the code of a statement. */
  ghost predicate Placed(prog: Prog, p: nat, s: Stmt, env: Env, cases: nat, mark: nat, inLoop: bool) {
    && CodeAt(prog, p, GenStmt(s, env, cases, mark).out) && Wired(prog, env)
    && Proper(s, inLoop, env.marks.Some?, env.labels) && (inLoop ==> env.marks.Some?)
  }

  /** The code of a statement, entered at `t`, does what the statement does. */
  ghost predicate Does(a: Arith, prog: Prog, s: Stmt, env: Env, cases: nat, mark: nat, inLoop: bool, p: nat,
      t: Target, at: nat, frame: Frame, fuel: nat)
    requires Inside(s, t)
  {
    Executes(a, prog, at, frame, Ways(p + |GenStmt(s, env, cases, mark).out|, inLoop, env), fuel,
      Exec(a, s, t, frame, fuel))
  }

  // ------------------------------------------------------------- simple statements

  lemma SimpleComputes(a: Arith, prog: Prog, s: Simple, mark: nat, p: nat, frame: Frame, w: Ways, fuel: nat, r: Exit)
    requires Commutes(a) && DistinctLabels(prog) && CodeAt(prog, p, GenSimple(s, mark).out)
    requires RunSimple(a, s, frame).Some? ==>
      Executes(a, prog, p + |GenSimple(s, mark).out|, RunSimple(a, s, frame).value, w, fuel, r)
    ensures Executes(a, prog, p, frame, w, fuel, if RunSimple(a, s, frame).None? then Exit(Faulted, frame) else r)
  {
    match s
    case Nothing =>
    case Declare(slot, None) => ZeroExecutes(a, prog, slot, p, frame, w, fuel, r);
    case Declare(slot, Some(e)) =>
      var c := GenExp(e, mark).out;
      CodeParts(prog, p, c, [StoreSlot(slot)]);
      ExpressionComputes(a, prog, e, mark, p, frame);
      var x := Eval(a, e, frame);
      var y := if x.None? then Value(0, frame) else Value(x.value.n, Put(x.value.frame, slot, x.value.n));
      if x.Some? {
        StoreFinishes(a, slot, x.value);
      }
      TailComputes(a, prog, p, frame, p + |c|, x, [StoreSlot(slot)], y);
      UsingExecutes(a, prog, p, frame, p + |c| + 1, Followed(x, Ir.Some(y)), w, fuel, r);
    case Evaluate(e) =>
      ExpressionComputes(a, prog, e, mark, p, frame);
      UsingExecutes(a, prog, p, frame, p + |GenExp(e, mark).out|, Eval(a, e, frame), w, fuel, r);
  }

  lemma StoreFinishes(a: Arith, slot: nat, x: Value)
    ensures Finishes(a, [StoreSlot(slot)], x, Value(x.n, Put(x.frame, slot, x.n)))
  {
    forall st: State | st.ax == Num(x.n) && st.frame == x.frame
      ensures Lines(a, [StoreSlot(slot)], st) == Running(st.(pc := st.pc + 1, frame := Put(x.frame, slot, x.n)))
    {
      OneLine(a, StoreSlot(slot), st);
    }
  }

  lemma ZeroExecutes(a: Arith, prog: Prog, slot: nat, p: nat, frame: Frame, w: Ways, fuel: nat, r: Exit)
    requires CodeAt(prog, p, [ZeroSlot(slot)]) && Executes(a, prog, p + 1, Put(frame, slot, 0), w, fuel, r)
    ensures Executes(a, prog, p, frame, w, fuel, r)
  {
    forall st: State | st.pc == p && st.frame == frame ensures Leaves(a, prog, w, st, fuel, r) {
      LineRuns(a, prog, st, ZeroSlot(slot));
      var mid := st.(pc := p + 1, frame := Put(frame, slot, 0));
      assert Leaves(a, prog, w, mid, fuel, r);
      LeavesOn(a, prog, w, st, 0, mid, fuel, r);
    }
  }

  lemma JumpAway(a: Arith, prog: Prog, p: nat, mark: nat, q: nat, frame: Frame, w: Ways, fuel: nat, how: How)
    requires DistinctLabels(prog) && CodeAt(prog, p, [Jmp(mark)]) && LabelAt(prog, mark, q) && Ends(how)
    requires forall st: State {:trigger Lands(prog, w, how, st)} | st.pc == q :: Lands(prog, w, how, st)
    ensures Executes(a, prog, p, frame, w, fuel, Exit(how, frame))
  {
    forall st: State | st.pc == p && st.frame == frame ensures Leaves(a, prog, w, st, fuel, Exit(how, frame)) {
      JumpRuns(a, prog, st, mark, q);
      var end := st.(pc := q);
      LeadsLess(Machine(a, prog), st, 1, Least(how), Running(end));
      assert Near(st, end, frame) && Lands(prog, w, how, end);
    }
  }

  lemma GoExecutes(a: Arith, prog: Prog, s: Stmt, env: Env, cases: nat, mark: nat, inLoop: bool, p: nat, frame: Frame,
      fuel: nat)
    requires Placed(prog, p, s, env, cases, mark, inLoop)
    requires (s.Goto? || s.Break? || s.Continue? || s == Return(Ir.None))
    ensures Does(a, prog, s, env, cases, mark, inLoop, p, Start, p, frame, fuel)
  {
    var w := Ways(p + 1, inLoop, env);
    var (c, r) := (GenKind(s, env, cases, mark), ExecKind(a, s, Start, frame, fuel));
    var target := c.out[0].mark;
    assert Mentioned(env, target);
    var q: nat :| LabelAt(prog, target, q);
    JumpAway(a, prog, p, target, q, frame, w, fuel, r.how);
  }

  lemma ReturnExecutes(a: Arith, prog: Prog, s: Stmt, env: Env, cases: nat, mark: nat, inLoop: bool, p: nat,
      frame: Frame, fuel: nat)
    requires Commutes(a) && Placed(prog, p, s, env, cases, mark, inLoop) && s.Return? && s.result.Some?
    ensures Does(a, prog, s, env, cases, mark, inLoop, p, Start, p, frame, fuel)
  {
    var w := Ways(p + |GenStmt(s, env, cases, mark).out|, inLoop, env);
    var (e, r) := (s.result.value, ExecKind(a, s, Start, frame, fuel));
    var c := GenExp(e, mark).out;
    assert GenKind(s, env, cases, mark).out == c + [Jmp(env.end)];
    CodeParts(prog, p, c, [Jmp(env.end)]);
    ExpressionComputes(a, prog, e, mark, p, frame);
    assert Mentioned(env, env.end);
    var q: nat :| LabelAt(prog, env.end, q);
    var x := Eval(a, e, frame);
    ThenJump(a, prog, p, frame, p + |c|, x, env.end, q);
    forall st: State | st.pc == p && st.frame == frame ensures Leaves(a, prog, w, st, fuel, r) {
      assert Gives(a, prog, st, q, x);
      if x.Some? {
        var end := Given(a, prog, st, q, x.value);
        assert Near(st, end, r.frame) && Lands(prog, w, r.how, end);
      }
    }
  }

  // --------------------------------------------------------------- every statement

  /** Running the code of a statement does what the statement means, wherever it is entered. */
  lemma {:induction false} StatementDoes(a: Arith, prog: Prog, s: Stmt, env: Env, cases: nat, mark: nat, inLoop: bool,
      p: nat, t: Target, at: nat, frame: Frame, fuel: nat)
    requires Commutes(a) && Placed(prog, p, s, env, cases, mark, inLoop) && Inside(s, t)
    requires EntryAt(prog, env, cases, mark, p, t, at)
    ensures Does(a, prog, s, env, cases, mark, inLoop, p, t, at, frame, fuel)
    decreases fuel, s, Rank(t), 4
  {
    match s
    case Plain(_) => PlainDoes(a, prog, s, env, cases, mark, inLoop, p, frame, fuel);
    case Seq(_, _) => SeqDoes(a, prog, s, env, cases, mark, inLoop, p, t, at, frame, fuel);
    case If(_, _, _) => IfDoes(a, prog, s, env, cases, mark, inLoop, p, t, at, frame, fuel);
    case While(_, _) => WhileDoes(a, prog, s, env, cases, mark, inLoop, p, t, at, frame, fuel);
    case DoWhile(_, _) => DoDoes(a, prog, s, env, cases, mark, inLoop, p, t, at, frame, fuel);
    case For(_, _, _, _) => ForDoes(a, prog, s, env, cases, mark, inLoop, p, t, at, frame, fuel);
    case Switch(_, _) => SwitchDoes(a, prog, s, env, cases, mark, inLoop, p, t, at, frame, fuel);
    case Case(_, _) => CaseDoes(a, prog, s, env, cases, mark, inLoop, p, t, at, frame, fuel);
    case Labelled(_, _) => LabelledDoes(a, prog, s, env, cases, mark, inLoop, p, t, at, frame, fuel);
    case Return(Some(_)) => ReturnExecutes(a, prog, s, env, cases, mark, inLoop, p, frame, fuel);
    case _ => GoExecutes(a, prog, s, env, cases, mark, inLoop, p, frame, fuel);
  }

  lemma PlainDoes(a: Arith, prog: Prog, s: Stmt, env: Env, cases: nat, mark: nat, inLoop: bool, p: nat, frame: Frame,
      fuel: nat)
    requires Commutes(a) && Placed(prog, p, s, env, cases, mark, inLoop) && s.Plain?
    ensures Does(a, prog, s, env, cases, mark, inLoop, p, Start, p, frame, fuel)
  {
    assert GenKind(s, env, cases, mark) == GenSimple(s.simple, mark);
    var r := ExecKind(a, s, Start, frame, fuel);
    var f := RunSimple(a, s.simple, frame);
    var w := Ways(p + |GenSimple(s.simple, mark).out|, inLoop, env);
    var end := if f.None? then frame else f.value;
    NothingExecutes(a, prog, end, w, fuel);
    SimpleComputes(a, prog, s.simple, mark, p, frame, w, fuel, Exit(Normal, end));
  }

  lemma SeqDoes(a: Arith, prog: Prog, s: Stmt, env: Env, cases: nat, mark: nat, inLoop: bool, p: nat, t: Target,
      at: nat, frame: Frame, fuel: nat)
    requires Commutes(a) && Placed(prog, p, s, env, cases, mark, inLoop) && Inside(s, t)
    requires EntryAt(prog, env, cases, mark, p, t, at) && s.Seq?
    ensures Does(a, prog, s, env, cases, mark, inLoop, p, t, at, frame, fuel)
    decreases fuel, s, Rank(t), 3
  {
    var (x, y) := (s.first, s.second);
    var c := GenStmt(x, env, cases, mark);
    var d := GenStmt(y, env, Past(cases, x), c.next);
    assert GenKind(s, env, cases, mark) == GenSeq(s, env, cases, mark);
    assert ExecKind(a, s, t, frame, fuel) == ExecSeq(a, s, t, frame, fuel);
    assert GenSeq(s, env, cases, mark).out == c.out + d.out;
    CodeParts(prog, p, c.out, d.out);
    var (q, w) := (p + |c.out|, Ways(p + |c.out| + |d.out|, inLoop, env));
    if Inside(x, t) {
      StatementDoes(a, prog, x, env, cases, mark, inLoop, p, t, at, frame, fuel);
      var r := Exec(a, x, t, frame, fuel);
      if r.how.Normal? {
        StatementDoes(a, prog, y, env, Past(cases, x), c.next, inLoop, q, Start, q, r.frame, fuel);
        ChainExecutes(a, prog, at, frame, w, q, fuel, r, Exec(a, y, Start, r.frame, fuel));
      } else {
        ChainExecutes(a, prog, at, frame, w, q, fuel, r, r);
      }
    } else {
      StatementDoes(a, prog, y, env, Past(cases, x), c.next, inLoop, q, Beyond(x, t), at, frame, fuel);
    }
  }

  lemma CaseDoes(a: Arith, prog: Prog, s: Stmt, env: Env, cases: nat, mark: nat, inLoop: bool, p: nat, t: Target,
      at: nat, frame: Frame, fuel: nat)
    requires Commutes(a) && Placed(prog, p, s, env, cases, mark, inLoop) && Inside(s, t)
    requires EntryAt(prog, env, cases, mark, p, t, at) && s.Case?
    ensures Does(a, prog, s, env, cases, mark, inLoop, p, t, at, frame, fuel)
    decreases fuel, s, Rank(t), 3
  {
    var d := GenStmt(s.labelled, env, cases + 1, mark);
    assert GenKind(s, env, cases, mark) == GenCase(s, env, cases, mark);
    var r := ExecKind(a, s, t, frame, fuel);
    assert GenCase(s, env, cases, mark).out == [Label(cases)] + d.out;
    CodeParts(prog, p, [Label(cases)], d.out);
    LabelIn(prog, p, cases);
    if t.Start? || t == AtCase(0) {
      StatementDoes(a, prog, s.labelled, env, cases + 1, mark, inLoop, p + 1, Start, p + 1, frame, fuel);
      LabelFirst(a, prog, p, cases, frame, Ways(p + 1 + |d.out|, inLoop, env), fuel, r);
    } else {
      var t' := if t.AtCase? then AtCase(t.k - 1) else t;
      StatementDoes(a, prog, s.labelled, env, cases + 1, mark, inLoop, p + 1, t', at, frame, fuel);
    }
  }

  lemma LabelledDoes(a: Arith, prog: Prog, s: Stmt, env: Env, cases: nat, mark: nat, inLoop: bool, p: nat, t: Target,
      at: nat, frame: Frame, fuel: nat)
    requires Commutes(a) && Placed(prog, p, s, env, cases, mark, inLoop) && Inside(s, t)
    requires EntryAt(prog, env, cases, mark, p, t, at) && s.Labelled?
    ensures Does(a, prog, s, env, cases, mark, inLoop, p, t, at, frame, fuel)
    decreases fuel, s, Rank(t), 3
  {
    var d := GenStmt(s.labelled, env, cases, mark);
    assert GenKind(s, env, cases, mark) == GenLabelled(s, env, cases, mark);
    var r := ExecKind(a, s, t, frame, fuel);
    assert GenLabelled(s, env, cases, mark).out == [Label(env.labels.number[s.name])] + d.out;
    CodeParts(prog, p, [Label(env.labels.number[s.name])], d.out);
    LabelIn(prog, p, env.labels.number[s.name]);
    if t.Start? || t == AtName(s.name) {
      StatementDoes(a, prog, s.labelled, env, cases, mark, inLoop, p + 1, Start, p + 1, frame, fuel);
      LabelFirst(a, prog, p, env.labels.number[s.name], frame, Ways(p + 1 + |d.out|, inLoop, env), fuel, r);
    } else {
      StatementDoes(a, prog, s.labelled, env, cases, mark, inLoop, p + 1, t, at, frame, fuel);
    }
  }

  // ---------------------------------------------------------------------------- if

  lemma IfDoes(a: Arith, prog: Prog, s: Stmt, env: Env, cases: nat, mark: nat, inLoop: bool, p: nat, t: Target,
      at: nat, frame: Frame, fuel: nat)
    requires Commutes(a) && Placed(prog, p, s, env, cases, mark, inLoop) && Inside(s, t)
    requires EntryAt(prog, env, cases, mark, p, t, at) && s.If?
    ensures Does(a, prog, s, env, cases, mark, inLoop, p, t, at, frame, fuel)
    decreases fuel, s, Rank(t), 3
  {
    if t.Start? {
      IfStarts(a, prog, s, env, cases, mark, inLoop, p, frame, fuel);
    } else if Inside(s.thenPart, t) {
      ThenEntered(a, prog, s, env, cases, mark, inLoop, p, t, at, frame, fuel);
    } else {
      ElseEntered(a, prog, s, env, cases, mark, inLoop, p, t, at, frame, fuel);
    }
  }

  /** The code of an `if`, and the places of its branches. */
  lemma IfPlaces(prog: Prog, p: nat, s: Stmt, env: Env, cases: nat, mark: nat, inLoop: bool)
      returns (c: Code, d: Code, e: Code)
    requires Placed(prog, p, s, env, cases, mark, inLoop) && s.If?
    ensures c == GenExp(s.condition, mark + 2) && d == GenStmt(s.thenPart, env, cases, c.next)
    ensures e == GenStmt(s.elsePart, env, Past(cases, s.thenPart), d.next)
    ensures IfAt(prog, p, c.out, d.out, p + |c.out| + 2 + |d.out|, e.out, mark, mark + 1)
    ensures |GenStmt(s, env, cases, mark).out| == |c.out| + |d.out| + |e.out| + 5
    ensures Placed(prog, p + |c.out| + 2, s.thenPart, env, cases, c.next, inLoop)
    ensures Placed(prog, p + |c.out| + 4 + |d.out|, s.elsePart, env, Past(cases, s.thenPart), d.next, inLoop)
  {
    c := GenExp(s.condition, mark + 2);
    d := GenStmt(s.thenPart, env, cases, c.next);
    e := GenStmt(s.elsePart, env, Past(cases, s.thenPart), d.next);
    assert GenKind(s, env, cases, mark) == GenIf(s, env, cases, mark);
    assert GenIf(s, env, cases, mark).out == ChoiceCode(c.out, d.out, e.out, mark, mark + 1);
    IfParts(prog, p, c.out, d.out, e.out, mark, mark + 1);
  }

  lemma IfStarts(a: Arith, prog: Prog, s: Stmt, env: Env, cases: nat, mark: nat, inLoop: bool, p: nat, frame: Frame,
      fuel: nat)
    requires Commutes(a) && Placed(prog, p, s, env, cases, mark, inLoop) && s.If?
    ensures Does(a, prog, s, env, cases, mark, inLoop, p, Start, p, frame, fuel)
    decreases fuel, s, 1, 0
  {
    var c, d, e := IfPlaces(prog, p, s, env, cases, mark, inLoop);
    var j := p + |c.out| + 2 + |d.out|;
    var r := ExecIf(a, s, Start, frame, fuel);
    var v := Eval(a, s.condition, frame);
    ExpressionComputes(a, prog, s.condition, mark + 2, p, frame);
    if v.Some? && v.value.n != 0 {
      var q := p + |c.out| + 2;
      StatementDoes(a, prog, s.thenPart, env, cases, c.next, inLoop, q, Start, q, v.value.frame, fuel);
    } else if v.Some? {
      StatementDoes(a, prog, s.elsePart, env, Past(cases, s.thenPart), d.next, inLoop, j + 2, Start, j + 2,
          v.value.frame, fuel);
    }
    IfRuns(a, prog, p, c.out, d.out, j, e.out, mark, mark + 1, frame, v, Ways(j + 3 + |e.out|, inLoop, env), fuel, r);
    assert ExecKind(a, s, Start, frame, fuel) == r;
  }

  lemma ThenEntered(a: Arith, prog: Prog, s: Stmt, env: Env, cases: nat, mark: nat, inLoop: bool, p: nat, t: Target,
      at: nat, frame: Frame, fuel: nat)
    requires Commutes(a) && Placed(prog, p, s, env, cases, mark, inLoop) && s.If? && !t.Start? && !t.Test?
    requires Inside(s.thenPart, t)
    requires EntryAt(prog, env, cases, mark, p, t, at)
    ensures Inside(s, t) && Does(a, prog, s, env, cases, mark, inLoop, p, t, at, frame, fuel)
    decreases fuel, s, Rank(t), 0
  {
    var c, d, e := IfPlaces(prog, p, s, env, cases, mark, inLoop);
    var j := p + |c.out| + 2 + |d.out|;
    var r := Exec(a, s.thenPart, t, frame, fuel);
    StatementDoes(a, prog, s.thenPart, env, cases, c.next, inLoop, p + |c.out| + 2, t, at, frame, fuel);
    ThenRuns(a, prog, p, c.out, d.out, j, e.out, mark, mark + 1, at, frame, Ways(j + 3 + |e.out|, inLoop, env), fuel,
        r);
    assert ExecKind(a, s, t, frame, fuel) == ExecIf(a, s, t, frame, fuel);
  }

  lemma ElseEntered(a: Arith, prog: Prog, s: Stmt, env: Env, cases: nat, mark: nat, inLoop: bool, p: nat, t: Target,
      at: nat, frame: Frame, fuel: nat)
    requires Commutes(a) && Placed(prog, p, s, env, cases, mark, inLoop) && s.If? && !t.Start? && Inside(s, t)
    requires !Inside(s.thenPart, t)
    requires EntryAt(prog, env, cases, mark, p, t, at)
    ensures Does(a, prog, s, env, cases, mark, inLoop, p, t, at, frame, fuel)
    decreases fuel, s, Rank(t), 0
  {
    var c, d, e := IfPlaces(prog, p, s, env, cases, mark, inLoop);
    var j := p + |c.out| + 2 + |d.out|;
    var t' := Beyond(s.thenPart, t);
    var r := Exec(a, s.elsePart, t', frame, fuel);
    StatementDoes(a, prog, s.elsePart, env, Past(cases, s.thenPart), d.next, inLoop, j + 2, t', at, frame, fuel);
    ElseRuns(a, prog, p, c.out, d.out, j, e.out, mark, mark + 1, at, frame, Ways(j + 3 + |e.out|, inLoop, env), fuel,
        r);
    assert ExecKind(a, s, t, frame, fuel) == ExecIf(a, s, t, frame, fuel);
  }

  // ------------------------------------------------------------------------- loops

  /** A round of a loop costs fuel, which is the step of passing the loop's first label. */
  function Less(fuel: nat): nat {
    if fuel == 0 then 0 else fuel - 1
  }

  lemma WhileDoes(a: Arith, prog: Prog, s: Stmt, env: Env, cases: nat, mark: nat, inLoop: bool, p: nat, t: Target,
      at: nat, frame: Frame, fuel: nat)
    requires Commutes(a) && Placed(prog, p, s, env, cases, mark, inLoop) && Inside(s, t)
    requires EntryAt(prog, env, cases, mark, p, t, at) && s.While?
    ensures Does(a, prog, s, env, cases, mark, inLoop, p, t, at, frame, fuel)
    decreases fuel, s, Rank(t), 3
  {
    if t.Start? {
      WhileStarted(a, prog, s, env, cases, mark, inLoop, p, frame, fuel);
    } else {
      WhileEntered(a, prog, s, env, cases, mark, inLoop, p, t, at, frame, fuel);
    }
  }

  /** The code of a `while`, and the place of its body. */
  lemma WhilePlaces(prog: Prog, p: nat, s: Stmt, env: Env, cases: nat, mark: nat, inLoop: bool)
      returns (c: Code, d: Code, q: nat, j: nat)
    requires Placed(prog, p, s, env, cases, mark, inLoop) && s.While?
    ensures c == GenExp(s.condition, mark + 2) && d == GenStmt(s.body, LoopEnv(env, mark + 1, mark), cases, c.next)
    ensures q == p + |c.out| + 3 && j == q + |d.out| && j + 2 == p + |GenStmt(s, env, cases, mark).out|
    ensures WhileAt(prog, p, c.out, q, d.out, j, mark, mark + 1)
    ensures Placed(prog, q, s.body, LoopEnv(env, mark + 1, mark), cases, c.next, true)
  {
    c := GenExp(s.condition, mark + 2);
    d := GenStmt(s.body, LoopEnv(env, mark + 1, mark), cases, c.next);
    q, j := p + |c.out| + 3, p + |c.out| + 3 + |d.out|;
    assert GenKind(s, env, cases, mark) == GenWhile(s, env, cases, mark);
    assert GenWhile(s, env, cases, mark).out == WhileCode(c.out, d.out, mark, mark + 1);
    WhileParts(prog, p, c.out, d.out, mark, mark + 1);
    LoopWired(prog, env, mark + 1, j + 1, mark, p);
  }

  lemma WhileEntered(a: Arith, prog: Prog, s: Stmt, env: Env, cases: nat, mark: nat, inLoop: bool, p: nat, t: Target,
      at: nat, frame: Frame, fuel: nat)
    requires Commutes(a) && Placed(prog, p, s, env, cases, mark, inLoop) && Inside(s, t) && !t.Start?
    requires EntryAt(prog, env, cases, mark, p, t, at) && s.While?
    ensures Does(a, prog, s, env, cases, mark, inLoop, p, t, at, frame, fuel)
    decreases fuel, s, Rank(t), 0
  {
    var c, d, q, j := WhilePlaces(prog, p, s, env, cases, mark, inLoop);
    StatementDoes(a, prog, s.body, LoopEnv(env, mark + 1, mark), cases, c.next, true, q, t, at, frame, fuel);
    var x := Exec(a, s.body, t, frame, fuel);
    var r := ExecWhile(a, s, t, frame, fuel);
    assert ExecKind(a, s, t, frame, fuel) == r;
    if Loops(x.how) {
      WhileStarted(a, prog, s, env, cases, mark, inLoop, p, x.frame, fuel);
    }
    WhileRound(a, prog, p, c.out, q, d.out, j, mark, mark + 1, at, frame, Ways(j + 2, inLoop, env), fuel, x, r);
  }

  lemma WhileStarted(a: Arith, prog: Prog, s: Stmt, env: Env, cases: nat, mark: nat, inLoop: bool, p: nat,
      frame: Frame, fuel: nat)
    requires Commutes(a) && Placed(prog, p, s, env, cases, mark, inLoop) && s.While?
    ensures Does(a, prog, s, env, cases, mark, inLoop, p, Start, p, frame, fuel)
    decreases fuel, s, 1, 0
  {
    var c, d, q, j := WhilePlaces(prog, p, s, env, cases, mark, inLoop);
    var (w, r) := (Ways(j + 2, inLoop, env), ExecWhile(a, s, Start, frame, fuel));
    var v := Eval(a, s.condition, frame);
    ExpressionComputes(a, prog, s.condition, mark + 2, p + 1, frame);
    if v.Some? && v.value.n != 0 {
      WhileBody(a, prog, s, env, cases, mark, inLoop, p, v.value.frame, fuel);
    }
    WhileStarts(a, prog, p, c.out, q, d.out, j, mark, mark + 1, frame, v, w, Less(fuel), r);
    LessFuel(a, prog, p, frame, w, Less(fuel) + 1, fuel, r);
    assert ExecKind(a, s, Start, frame, fuel) == r;
  }

  /** What a `while` does once its test holds. */
  function WhileRest(a: Arith, s: Stmt, frame: Frame, fuel: nat): Exit
    requires s.While?
  {
    var x := Exec(a, s.body, Start, frame, fuel);
    if !Loops(x.how) then Outside(x)
    else if fuel == 0 then Exit(Unfinished, x.frame)
    else Exec(a, s, Start, x.frame, fuel - 1)
  }

  lemma WhileBody(a: Arith, prog: Prog, s: Stmt, env: Env, cases: nat, mark: nat, inLoop: bool, p: nat, frame: Frame,
      fuel: nat)
    requires Commutes(a) && Placed(prog, p, s, env, cases, mark, inLoop) && s.While?
    ensures var q := p + |GenExp(s.condition, mark + 2).out| + 3;
            Executes(a, prog, q, frame, Ways(p + |GenStmt(s, env, cases, mark).out|, inLoop, env), Less(fuel),
              WhileRest(a, s, frame, fuel))
    decreases fuel, s, 0, 0
  {
    var c, d, q, j := WhilePlaces(prog, p, s, env, cases, mark, inLoop);
    var w := Ways(j + 2, inLoop, env);
    StatementDoes(a, prog, s.body, LoopEnv(env, mark + 1, mark), cases, c.next, true, q, Start, q, frame, fuel);
    var x := Exec(a, s.body, Start, frame, fuel);
    LessFuel(a, prog, q, frame, Ways(j, true, LoopEnv(env, mark + 1, mark)), fuel, Less(fuel), x);
    var y := if Loops(x.how) then WhileRest(a, s, frame, fuel) else x;
    if Loops(x.how) && fuel == 0 {
      UnfinishedExecutes(a, prog, p, x.frame, w, y);
    } else if Loops(x.how) {
      WhileStarted(a, prog, s, env, cases, mark, inLoop, p, x.frame, fuel - 1);
    }
    WhileRound(a, prog, p, c.out, q, d.out, j, mark, mark + 1, q, frame, w, Less(fuel), x, y);
  }

  lemma DoDoes(a: Arith, prog: Prog, s: Stmt, env: Env, cases: nat, mark: nat, inLoop: bool, p: nat, t: Target,
      at: nat, frame: Frame, fuel: nat)
    requires Commutes(a) && Placed(prog, p, s, env, cases, mark, inLoop) && Inside(s, t)
    requires EntryAt(prog, env, cases, mark, p, t, at) && s.DoWhile?
    ensures Does(a, prog, s, env, cases, mark, inLoop, p, t, at, frame, fuel)
    decreases fuel, s, Rank(t), 3
  {
    if t.Start? {
      DoStarted(a, prog, s, env, cases, mark, inLoop, p, frame, fuel);
    } else {
      DoEntered(a, prog, s, env, cases, mark, inLoop, p, t, at, frame, fuel);
    }
  }

  /** The code of a `do`, and the place of its body. */
  lemma DoPlaces(prog: Prog, p: nat, s: Stmt, env: Env, cases: nat, mark: nat, inLoop: bool)
      returns (c: Code, d: Code, g: nat, j: nat)
    requires Placed(prog, p, s, env, cases, mark, inLoop) && s.DoWhile?
    ensures d == GenStmt(s.body, LoopEnv(env, mark + 2, mark + 1), cases, mark + 3) && c == GenExp(s.condition, d.next)
    ensures g == p + 1 + |d.out| && j == g + 1 + |c.out| && j + 3 == p + |GenStmt(s, env, cases, mark).out|
    ensures DoAt(prog, p, d.out, g, c.out, j, mark, mark + 1, mark + 2)
    ensures Placed(prog, p + 1, s.body, LoopEnv(env, mark + 2, mark + 1), cases, mark + 3, true)
  {
    d := GenStmt(s.body, LoopEnv(env, mark + 2, mark + 1), cases, mark + 3);
    c := GenExp(s.condition, d.next);
    g, j := p + 1 + |d.out|, p + 2 + |d.out| + |c.out|;
    assert GenKind(s, env, cases, mark) == GenDo(s, env, cases, mark);
    assert GenDo(s, env, cases, mark).out == DoCode(d.out, c.out, mark, mark + 1, mark + 2);
    DoParts(prog, p, d.out, c.out, mark, mark + 1, mark + 2);
    LoopWired(prog, env, mark + 2, j + 2, mark + 1, g);
  }

  /** From the test of a `do`. */
  lemma DoTested(a: Arith, prog: Prog, s: Stmt, env: Env, cases: nat, mark: nat, inLoop: bool, p: nat, frame: Frame,
      fuel: nat, y: Exit)
    requires Commutes(a) && Placed(prog, p, s, env, cases, mark, inLoop) && s.DoWhile?
    requires var v := Eval(a, s.condition, frame);
             v.Some? && v.value.n != 0 ==>
               Executes(a, prog, p, v.value.frame, Ways(p + |GenStmt(s, env, cases, mark).out|, inLoop, env), fuel, y)
    ensures var g := p + 1 + |GenStmt(s.body, LoopEnv(env, mark + 2, mark + 1), cases, mark + 3).out|;
            Executes(a, prog, g +
              1, frame, Ways(p + |GenStmt(s, env, cases, mark).out|, inLoop, env), fuel,
                DoRest(frame, Eval(a, s.condition, frame), y))
  {
    var c, d, g, j := DoPlaces(prog, p, s, env, cases, mark, inLoop);
    ExpressionComputes(a, prog, s.condition, d.next, g + 1, frame);
    DoTest(a, prog, p, d.out, g, c.out, j, mark, mark + 1, mark + 2, frame, Ways(j + 3, inLoop, env), fuel,
        Eval(a, s.condition, frame), y);
  }

  lemma DoEntered(a: Arith, prog: Prog, s: Stmt, env: Env, cases: nat, mark: nat, inLoop: bool, p: nat, t: Target,
      at: nat, frame: Frame, fuel: nat)
    requires Commutes(a) && Placed(prog, p, s, env, cases, mark, inLoop) && Inside(s, t) && !t.Start?
    requires EntryAt(prog, env, cases, mark, p, t, at) && s.DoWhile?
    ensures Does(a, prog, s, env, cases, mark, inLoop, p, t, at, frame, fuel)
    decreases fuel, s, Rank(t), 0
  {
    var c, d, g, j := DoPlaces(prog, p, s, env, cases, mark, inLoop);
    StatementDoes(a, prog, s.body, LoopEnv(env, mark + 2, mark + 1), cases, mark + 3, true, p + 1, t, at, frame, fuel);
    var x := Exec(a, s.body, t, frame, fuel);
    var (w, r) := (Ways(j + 3, inLoop, env), ExecDo(a, s, t, frame, fuel));
    assert ExecKind(a, s, t, frame, fuel) == r;
    if Loops(x.how) {
      var v := Eval(a, s.condition, x.frame);
      if v.Some? && v.value.n != 0 {
        DoStarted(a, prog, s, env, cases, mark, inLoop, p, v.value.frame, fuel);
      }
      DoTested(a, prog, s, env, cases, mark, inLoop, p, x.frame, fuel, r);
      BodyRound(a, prog, g, j + 2, mark + 1, mark + 2, at, frame, w, fuel, x, r);
    } else {
      BodyRound(a, prog, g, j + 2, mark + 1, mark + 2, at, frame, w, fuel, x, x);
    }
  }

  /** What a `do` does when its test has held. */
  function DoAgain(a: Arith, s: Stmt, frame: Frame, fuel: nat): Exit
    requires s.DoWhile?
  {
    if fuel == 0 then Exit(Unfinished, frame) else Exec(a, s, Start, frame, fuel - 1)
  }

  lemma DoStarted(a: Arith, prog: Prog, s: Stmt, env: Env, cases: nat, mark: nat, inLoop: bool, p: nat, frame: Frame,
      fuel: nat)
    requires Commutes(a) && Placed(prog, p, s, env, cases, mark, inLoop) && s.DoWhile?
    ensures Does(a, prog, s, env, cases, mark, inLoop, p, Start, p, frame, fuel)
    decreases fuel, s, 1, 0
  {
    var c, d, g, j := DoPlaces(prog, p, s, env, cases, mark, inLoop);
    var (w, inner) := (Ways(j + 3, inLoop, env), LoopEnv(env, mark + 2, mark + 1));
    StatementDoes(a, prog, s.body, inner, cases, mark + 3, true, p + 1, Start, p + 1, frame, fuel);
    var x := Exec(a, s.body, Start, frame, fuel);
    LessFuel(a, prog, p + 1, frame, Ways(g, true, inner), fuel, Less(fuel), x);
    var y := x;
    if Loops(x.how) {
      var v := Eval(a, s.condition, x.frame);
      if v.Some? && v.value.n != 0 {
        y := DoAgain(a, s, v.value.frame, fuel);
        DoRepeats(a, prog, s, env, cases, mark, inLoop, p, v.value.frame, fuel);
      }
      DoTested(a, prog, s, env, cases, mark, inLoop, p, x.frame, Less(fuel), y);
      y := DoRest(x.frame, v, y);
    }
    BodyRound(a, prog, g, j + 2, mark + 1, mark + 2, p + 1, frame, w, Less(fuel), x, y);
    var r := ExecDo(a, s, Start, frame, fuel);
    LabelFirst(a, prog, p, mark, frame, w, Less(fuel), r);
    LessFuel(a, prog, p, frame, w, Less(fuel) + 1, fuel, r);
    assert ExecKind(a, s, Start, frame, fuel) == r;
  }

  lemma DoRepeats(a: Arith, prog: Prog, s: Stmt, env: Env, cases: nat, mark: nat, inLoop: bool, p: nat, frame: Frame,
      fuel: nat)
    requires Commutes(a) && Placed(prog, p, s, env, cases, mark, inLoop) && s.DoWhile?
    ensures Executes(a, prog, p, frame, Ways(p + |GenStmt(s, env, cases, mark).out|, inLoop, env), Less(fuel),
        DoAgain(a, s, frame, fuel))
    decreases fuel, s, 0, 0
  {
    if fuel == 0 {
      UnfinishedExecutes(a, prog, p, frame, Ways(p + |GenStmt(s, env, cases, mark).out|, inLoop, env),
          Exit(Unfinished, frame));
    } else {
      DoStarted(a, prog, s, env, cases, mark, inLoop, p, frame, fuel - 1);
    }
  }

  lemma ForDoes(a: Arith, prog: Prog, s: Stmt, env: Env, cases: nat, mark: nat, inLoop: bool, p: nat, t: Target,
      at: nat, frame: Frame, fuel: nat)
    requires Commutes(a) && Placed(prog, p, s, env, cases, mark, inLoop) && Inside(s, t)
    requires EntryAt(prog, env, cases, mark, p, t, at) && s.For?
    ensures Does(a, prog, s, env, cases, mark, inLoop, p, t, at, frame, fuel)
    decreases fuel, s, Rank(t), 3
  {
    if t.Start? {
      ForStarted(a, prog, s, env, cases, mark, inLoop, p, frame, fuel);
    } else if t.Test? {
      ForTested(a, prog, s, env, cases, mark, inLoop, p, at, frame, fuel);
    } else {
      ForEntered(a, prog, s, env, cases, mark, inLoop, p, t, at, frame, fuel);
    }
  }

  /** The positions in the code of a `for`: of the label before its test, of its body, of
      the label for `continue`, and of the jump back. */
  datatype ForPlace = ForPlace(start: nat, body: nat, again: nat, back: nat)

  /** The label numbers its parts begin with. */
  datatype ForMarks = ForMarks(test: nat, body: nat, post: nat)

  /** The parts of a `for` are where `f` says. */
  ghost predicate ForPlaced(prog: Prog, p: nat, s: Stmt, env: Env, cases: nat, mark: nat, f: ForPlace, m: ForMarks)
    requires s.For?
  {
    match f
    case ForPlace(start, body, again, back) =>
      && CodeAt(prog, p, GenSimple(s.init, mark + 3).out) && start == p + |GenSimple(s.init, mark + 3).out|
      && LabelAt(prog, mark, start) && CodeAt(prog, start + 1, TestCode(s.test, m.test, mark + 2).out)
      && body == start + 1 + |TestCode(s.test, m.test, mark + 2).out|
      && Placed(prog, body, s.body, LoopEnv(env, mark + 2, mark + 1), cases, m.body, true)
      && again == body + |GenStmt(s.body, LoopEnv(env, mark + 2, mark + 1), cases, m.body).out|
      && LabelAt(prog, mark + 1, again) && CodeAt(prog, again + 1, GenSimple(s.post, m.post).out)
      && back == again + 1 + |GenSimple(s.post, m.post).out|
      && CodeAt(prog, back, [Jmp(mark)]) && LabelAt(prog, mark + 2, back + 1)
      && p + |GenStmt(s, env, cases, mark).out| == back + 2
  }

  lemma ForPlaces(prog: Prog, p: nat, s: Stmt, env: Env, cases: nat, mark: nat, inLoop: bool)
      returns (f: ForPlace, m: ForMarks)
    requires Placed(prog, p, s, env, cases, mark, inLoop) && s.For?
    ensures ForPlaced(prog, p, s, env, cases, mark, f, m)
  {
    var i := GenSimple(s.init, mark + 3);
    var c := TestCode(s.test, i.next, mark + 2);
    var d := GenStmt(s.body, LoopEnv(env, mark + 2, mark + 1), cases, c.next);
    var z := GenSimple(s.post, d.next);
    m := ForMarks(i.next, c.next, d.next);
    var b := p + |i.out| + 1 + |c.out|;
    f := ForPlace(p + |i.out|, b, b + |d.out|, b + |d.out| + 1 + |z.out|);
    assert GenKind(s, env, cases, mark) == GenFor(s, env, cases, mark);
    assert GenFor(s, env, cases, mark).out == ForCode(i.out, c.out, d.out, z.out, mark, mark + 1, mark + 2);
    ForParts(prog, p, i.out, c.out, d.out, z.out, mark, mark + 1, mark + 2);
    LoopWired(prog, env, mark + 2, f.back + 1, mark + 1, f.again);
  }

  /** The last part of a `for` and the jump back. */
  lemma ForStepped(a: Arith, prog: Prog, post: Simple, mark: nat, g: nat, j: nat, startMark: nat, start: nat,
      frame: Frame, w: Ways, fuel: nat, r: Exit)
    requires Commutes(a) && DistinctLabels(prog) && CodeAt(prog, g + 1, GenSimple(post, mark).out)
    requires j == g + 1 + |GenSimple(post, mark).out| && CodeAt(prog, j, [Jmp(startMark)])
    requires LabelAt(prog, startMark, start)
    requires var f := RunSimple(a, post, frame);
             if f.None? then r == Exit(Faulted, frame) else Executes(a, prog, start, f.value, w, fuel, r)
    ensures Executes(a, prog, g + 1, frame, w, fuel, r)
  {
    var f := RunSimple(a, post, frame);
    if f.Some? {
      JumpFirst(a, prog, j, startMark, start, f.value, w, fuel, r);
    }
    SimpleComputes(a, prog, post, mark, g + 1, frame, w, fuel, r);
  }

  /** The test of a `for`: without one the body follows. */
  lemma ForTestRuns(a: Arith, prog: Prog, test: Ir.Option<Exp>, mark: nat, q: nat, endMark: nat, e: nat, frame: Frame,
      w: Ways, fuel: nat, r: Exit)
    requires Commutes(a) && DistinctLabels(prog) && CodeAt(prog, q, TestCode(test, mark, endMark).out)
    requires LabelAt(prog, endMark, e) && w.after == e + 1
    requires var v := EvalTest(a, test, frame);
             if v.None? then r == Exit(Faulted, frame)
             else if v.value.n == 0 then r == Exit(Normal, v.value.frame)
             else Executes(a, prog, q + |TestCode(test, mark, endMark).out|, v.value.frame, w, fuel, r)
    ensures Executes(a, prog, q, frame, w, fuel, r)
  {
    if test.Some? {
      var c := GenExp(test.value, mark);
      var v := Eval(a, test.value, frame);
      CodeParts(prog, q, c.out, [CmpImm(0), Je(endMark)]);
      ExpressionComputes(a, prog, test.value, mark, q, frame);
      if v.Some? && v.value.n == 0 {
        EndExecutes(a, prog, e, endMark, v.value.frame, w, fuel);
      }
      TestExecutes(a, prog, q, frame, q + |c.out|, v, Je(endMark), e, w, fuel, r);
    }
  }

  lemma ForStarted(a: Arith, prog: Prog, s: Stmt, env: Env, cases: nat, mark: nat, inLoop: bool, p: nat, frame: Frame,
      fuel: nat)
    requires Commutes(a) && Placed(prog, p, s, env, cases, mark, inLoop) && s.For?
    ensures Does(a, prog, s, env, cases, mark, inLoop, p, Start, p, frame, fuel)
    decreases fuel, s, 1, 0
  {
    var f, m := ForPlaces(prog, p, s, env, cases, mark, inLoop);
    var (w, r) := (Ways(f.back + 2, inLoop, env), ExecFor(a, s, Start, frame, fuel));
    assert ExecKind(a, s, Start, frame, fuel) == r;
    var x := RunSimple(a, s.init, frame);
    if x.Some? {
      ForTested(a, prog, s, env, cases, mark, inLoop, p, f.start, x.value, fuel);
    }
    SimpleComputes(a, prog, s.init, mark + 3, p, frame, w, fuel, r);
  }

  lemma ForTested(a: Arith, prog: Prog, s: Stmt, env: Env, cases: nat, mark: nat, inLoop: bool, p: nat, at: nat,
      frame: Frame, fuel: nat)
    requires Commutes(a) && Placed(prog, p, s, env, cases, mark, inLoop) && s.For? && LabelAt(prog, mark, at)
    ensures Does(a, prog, s, env, cases, mark, inLoop, p, Test, at, frame, fuel)
    decreases fuel, s, 0, 2
  {
    var f, m := ForPlaces(prog, p, s, env, cases, mark, inLoop);
    var (w, r) := (Ways(f.back + 2, inLoop, env), ExecFor(a, s, Test, frame, fuel));
    assert ExecKind(a, s, Test, frame, fuel) == r;
    assert at == f.start;
    var v := EvalTest(a, s.test, frame);
    if v.Some? && v.value.n != 0 {
      ForBody(a, prog, s, env, cases, mark, inLoop, p, f, m, v.value.frame, fuel);
    }
    ForTestRuns(a, prog, s.test, m.test, at + 1, mark + 2, f.back + 1, frame, w, Less(fuel), r);
    LabelFirst(a, prog, at, mark, frame, w, Less(fuel), r);
    LessFuel(a, prog, at, frame, w, Less(fuel) + 1, fuel, r);
  }

  /** What a `for` does after a round. */
  function ForNext(a: Arith, s: Stmt, frame: Frame, fuel: nat): Exit
    requires s.For?
  {
    var z := RunSimple(a, s.post, frame);
    if z.None? then Exit(Faulted, frame)
    else if fuel == 0 then Exit(Unfinished, z.value)
    else Exec(a, s, Test, z.value, fuel - 1)
  }

  lemma ForRepeats(a: Arith, prog: Prog, s: Stmt, env: Env, cases: nat, mark: nat, inLoop: bool, p: nat, f: ForPlace,
      m: ForMarks, frame: Frame, fuel: nat)
    requires Commutes(a) && Placed(prog, p, s, env, cases, mark, inLoop) && s.For?
    requires ForPlaced(prog, p, s, env, cases, mark, f, m)
    ensures Executes(a, prog, f.again + 1, frame, Ways(f.back + 2, inLoop, env), Less(fuel), ForNext(a, s, frame, fuel))
    decreases fuel, s, 0, 0
  {
    var (w, r) := (Ways(f.back + 2, inLoop, env), ForNext(a, s, frame, fuel));
    var z := RunSimple(a, s.post, frame);
    if z.Some? && fuel == 0 {
      UnfinishedExecutes(a, prog, f.start, z.value, w, r);
    } else if z.Some? {
      ForTested(a, prog, s, env, cases, mark, inLoop, p, f.start, z.value, fuel - 1);
    }
    ForStepped(a, prog, s.post, m.post, f.again, f.back, mark, f.start, frame, w, Less(fuel), r);
  }

  /** What a `for` does once its test holds. */
  function ForRest(a: Arith, s: Stmt, frame: Frame, fuel: nat): Exit
    requires s.For?
  {
    var x := Exec(a, s.body, Start, frame, fuel);
    if Loops(x.how) then ForNext(a, s, x.frame, fuel) else Outside(x)
  }

  lemma ForBody(a: Arith, prog: Prog, s: Stmt, env: Env, cases: nat, mark: nat, inLoop: bool, p: nat, f: ForPlace,
      m: ForMarks, frame: Frame, fuel: nat)
    requires Commutes(a) && Placed(prog, p, s, env, cases, mark, inLoop) && s.For?
    requires ForPlaced(prog, p, s, env, cases, mark, f, m)
    ensures Executes(a, prog, f.body, frame, Ways(f.back + 2, inLoop, env), Less(fuel), ForRest(a, s, frame, fuel))
    decreases fuel, s, 0, 1
  {
    var (w, inner) := (Ways(f.back + 2, inLoop, env), LoopEnv(env, mark + 2, mark + 1));
    StatementDoes(a, prog, s.body, inner, cases, m.body, true, f.body, Start, f.body, frame, fuel);
    var x := Exec(a, s.body, Start, frame, fuel);
    LessFuel(a, prog, f.body, frame, Ways(f.again, true, inner), fuel, Less(fuel), x);
    if Loops(x.how) {
      ForRepeats(a, prog, s, env, cases, mark, inLoop, p, f, m, x.frame, fuel);
    }
    BodyRound(a, prog, f.again, f.back + 1, mark + 1, mark + 2, f.body, frame, w, Less(fuel), x,
        ForNext(a, s, x.frame, fuel));
  }

  /** What a `for` does after its body, when that was entered at a label. */
  function ForAgain(a: Arith, s: Stmt, frame: Frame, fuel: nat): Exit
    requires s.For?
  {
    var z := RunSimple(a, s.post, frame);
    if z.None? then Exit(Faulted, frame) else Exec(a, s, Test, z.value, fuel)
  }

  lemma ForContinued(a: Arith, prog: Prog, s: Stmt, env: Env, cases: nat, mark: nat, inLoop: bool, p: nat,
      f: ForPlace, m: ForMarks, frame: Frame, fuel: nat)
    requires Commutes(a) && Placed(prog, p, s, env, cases, mark, inLoop) && s.For?
    requires ForPlaced(prog, p, s, env, cases, mark, f, m)
    ensures Executes(a, prog, f.again + 1, frame, Ways(f.back + 2, inLoop, env), fuel, ForAgain(a, s, frame, fuel))
    decreases fuel, s, 0, 3
  {
    var z := RunSimple(a, s.post, frame);
    if z.Some? {
      ForTested(a, prog, s, env, cases, mark, inLoop, p, f.start, z.value, fuel);
    }
    ForStepped(a, prog, s.post, m.post, f.again, f.back, mark, f.start, frame, Ways(f.back + 2, inLoop, env), fuel,
        ForAgain(a, s, frame, fuel));
  }

  lemma ForEntered(a: Arith, prog: Prog, s: Stmt, env: Env, cases: nat, mark: nat, inLoop: bool, p: nat, t: Target,
      at: nat, frame: Frame, fuel: nat)
    requires Commutes(a) && Placed(prog, p, s, env, cases, mark, inLoop) && s.For? && Inside(s, t) && !t.Start?
    requires !t.Test?
    requires EntryAt(prog, env, cases, mark, p, t, at)
    ensures Does(a, prog, s, env, cases, mark, inLoop, p, t, at, frame, fuel)
    decreases fuel, s, Rank(t), 0
  {
    var f, m := ForPlaces(prog, p, s, env, cases, mark, inLoop);
    var (w, inner) := (Ways(f.back + 2, inLoop, env), LoopEnv(env, mark + 2, mark + 1));
    StatementDoes(a, prog, s.body, inner, cases, m.body, true, f.body, t, at, frame, fuel);
    var (x, r) := (Exec(a, s.body, t, frame, fuel), ExecFor(a, s, t, frame, fuel));
    assert ExecKind(a, s, t, frame, fuel) == r;
    if Loops(x.how) {
      ForContinued(a, prog, s, env, cases, mark, inLoop, p, f, m, x.frame, fuel);
    }
    BodyRound(a, prog, f.again, f.back + 1, mark + 1, mark + 2, at, frame, w, fuel, x, r);
  }

  // ------------------------------------------------------------------------ switch

  lemma SwitchDoes(a: Arith, prog: Prog, s: Stmt, env: Env, cases: nat, mark: nat, inLoop: bool, p: nat, t: Target,
      at: nat, frame: Frame, fuel: nat)
    requires Commutes(a) && Placed(prog, p, s, env, cases, mark, inLoop) && Inside(s, t)
    requires EntryAt(prog, env, cases, mark, p, t, at) && s.Switch?
    ensures Does(a, prog, s, env, cases, mark, inLoop, p, t, at, frame, fuel)
    decreases fuel, s, Rank(t), 3
  {
    if t.Start? {
      SwitchStarted(a, prog, s, env, cases, mark, inLoop, p, frame, fuel);
    } else {
      SwitchEntered(a, prog, s, env, cases, mark, inLoop, p, t, at, frame, fuel);
    }
  }

  /** The code of a `switch`, and the place of its body. */
  lemma SwitchPlaces(prog: Prog, p: nat, s: Stmt, env: Env, cases: nat, mark: nat, inLoop: bool)
      returns (c: Code, d: Code, b: nat)
    requires Placed(prog, p, s, env, cases, mark, inLoop) && s.Switch?
    ensures c == GenExp(s.control, mark + 1)
    ensures d == GenStmt(s.body, SwitchEnv(env, mark), c.next, c.next + |Cases(s.body)|)
    ensures var values := Cases(s.body);
            SwitchAt(prog, p, c.out, p +
              |c.out|, CaseTests(values, c.next), b, DefaultMark(values, c.next, mark), d.out, mark)
    ensures p + |GenStmt(s, env, cases, mark).out| == b + |d.out| + 1
    ensures Placed(prog, b, s.body, SwitchEnv(env, mark), c.next, c.next + |Cases(s.body)|, inLoop)
  {
    var values := Cases(s.body);
    c := GenExp(s.control, mark + 1);
    d := GenStmt(s.body, SwitchEnv(env, mark), c.next, c.next + |values|);
    b := p + |c.out| + |CaseTests(values, c.next)| + 1;
    assert GenKind(s, env, cases, mark) == GenSwitch(s, env, cases, mark);
    assert GenSwitch(s, env, cases, mark).out
        == SwitchCode(c.out, CaseTests(values, c.next), DefaultMark(values, c.next, mark), d.out, mark);
    SwitchParts(prog, p, c.out, CaseTests(values, c.next), DefaultMark(values, c.next, mark), d.out, mark);
    LoopWired(prog, env, mark, b + |d.out|, SwitchEnv(env, mark).marks.value.cont, b + |d.out|);
  }

  lemma SwitchEntered(a: Arith, prog: Prog, s: Stmt, env: Env, cases: nat, mark: nat, inLoop: bool, p: nat, t: Target,
      at: nat, frame: Frame, fuel: nat)
    requires Commutes(a) && Placed(prog, p, s, env, cases, mark, inLoop) && s.Switch? && Inside(s, t) && !t.Start?
    requires EntryAt(prog, env, cases, mark, p, t, at)
    ensures Does(a, prog, s, env, cases, mark, inLoop, p, t, at, frame, fuel)
    decreases fuel, s, Rank(t), 0
  {
    var c, d, b := SwitchPlaces(prog, p, s, env, cases, mark, inLoop);
    var (n, inner) := (|Cases(s.body)|, SwitchEnv(env, mark));
    var (x, r) := (Exec(a, s.body, t, frame, fuel), ExecSwitch(a, s, t, frame, fuel));
    assert ExecKind(a, s, t, frame, fuel) == r;
    StatementDoes(a, prog, s.body, inner, c.next, c.next + n, inLoop, b, t, at, frame, fuel);
    SwitchRound(a, prog, b + |d.out|, mark, inner.marks.value.cont, at, frame, Ways(b + |d.out| + 1, inLoop, env),
        fuel, x);
  }

  /** From the label of a case. */
  lemma CaseEntered(a: Arith, prog: Prog, s: Stmt, env: Env, cases: nat, mark: nat, inLoop: bool, p: nat, k: nat,
      frame: Frame, fuel: nat) returns (at: nat)
    requires Commutes(a) && Placed(prog, p, s, env, cases, mark, inLoop) && s.Switch? && k < |Cases(s.body)|
    ensures LabelAt(prog, GenExp(s.control, mark + 1).next + k, at)
    ensures var w := Ways(p + |GenStmt(s, env, cases, mark).out|, inLoop, env);
            Executes(a, prog, at, frame, w, fuel, Outside(Exec(a, s.body, AtCase(k), frame, fuel)))
    decreases fuel, s, 0, 0
  {
    var c, d, b := SwitchPlaces(prog, p, s, env, cases, mark, inLoop);
    var (n, inner) := (|Cases(s.body)|, SwitchEnv(env, mark));
    StatementLabels(s.body, inner, c.next, c.next + n, c.next + k);
    CountedIsDefined(prog, b, d.out, c.next + k);
    at :| LabelAt(prog, c.next + k, at);
    StatementDoes(a, prog, s.body, inner, c.next, c.next + n, inLoop, b, AtCase(k), at, frame, fuel);
    var x := Exec(a, s.body, AtCase(k), frame, fuel);
    SwitchRound(a, prog, b + |d.out|, mark, inner.marks.value.cont, at, frame, Ways(b + |d.out| + 1, inLoop, env),
        fuel, x);
  }

  lemma SwitchStarted(a: Arith, prog: Prog, s: Stmt, env: Env, cases: nat, mark: nat, inLoop: bool, p: nat,
      frame: Frame, fuel: nat)
    requires Commutes(a) && Placed(prog, p, s, env, cases, mark, inLoop) && s.Switch?
    ensures Does(a, prog, s, env, cases, mark, inLoop, p, Start, p, frame, fuel)
    decreases fuel, s, 1, 0
  {
    var c, d, b := SwitchPlaces(prog, p, s, env, cases, mark, inLoop);
    var (w, r) := (Ways(b + |d.out| + 1, inLoop, env), ExecSwitch(a, s, Start, frame, fuel));
    assert ExecKind(a, s, Start, frame, fuel) == r;
    ExpressionComputes(a, prog, s.control, mark + 1, p, frame);
    var v := Eval(a, s.control, frame);
    if v.None? {
      UsingExecutes(a, prog, p, frame, p + |c.out|, v, w, fuel, r);
    } else {
      var (k, at) := (Select(Cases(s.body), v.value.n), b + |d.out|);
      if k.Some? {
        at := CaseEntered(a, prog, s, env, cases, mark, inLoop, p, k.value, v.value.frame, fuel);
      } else {
        EndExecutes(a, prog, at, mark, v.value.frame, w, fuel);
      }
      SwitchGoes(a, prog, p, c.out, p + |c.out|, Cases(s.body), c.next, b, d.out, mark, frame, v.value, at);
      UsingExecutes(a, prog, p, frame, at, v, w, fuel, r);
    }
  }
}
