/** The code of a function: every label it jumps to is defined exactly once, and running it
    does what the function does. */
module CodegenFunction {
  import Ir
  import opened StackMachine
  import opened StackRuns
  import opened CodegenExpr
  import opened StmtRuns
  import opened Statements
  import opened CodegenStmt
  import opened CodeLabels
  import opened LoopRuns
  import opened StmtCorrect

  /** Numbers for the goto labels, in the order in which they are met. */
  function Numbered(names: seq<string>, mark: nat): Labels
    decreases |names|
  {
    if names == [] then Labels(map[])
    else
      var rest := Numbered(names[..|names| - 1], mark);
      Labels(rest.number[names[|names| - 1] := mark + |names| - 1])
  }

  function FunctionEnv(body: Stmt, mark: nat): Env {
    Env(mark, Ir.None, Numbered(Names(body), mark + 1))
  }

  /** The first label of the body: the end label and the goto labels come before. */
  function BodyMark(body: Stmt, mark: nat): nat {
    mark + 1 + |Names(body)|
  }

  /** The body, then zero as the result of falling off its end, then the end label. */
  function GenFunction(body: Stmt, mark: nat): (c: Code)
    ensures c.next >= mark
  {
    var d := GenStmt(body, FunctionEnv(body, mark), 0, BodyMark(body, mark));
    Code(d.out + Epilogue(mark), d.next)
  }

  ghost predicate Distinct(names: seq<string>) {
    forall i, j | 0 <= i < j < |names| :: names[i] != names[j]
  }

  /** A body the front end lets through: jumps have targets, no goto label is defined
      twice, and no case label is outside a switch. */
  ghost predicate WellFormed(body: Stmt) {
    Proper(body, false, false, Numbered(Names(body), 0)) && Distinct(Names(body)) && Cases(body) == []
  }

  // ------------------------------------------------------------------------ labels

  lemma {:induction false} NumbersOf(names: seq<string>, mark: nat, i: nat)
    requires Distinct(names) && i < |names|
    ensures names[i] in Numbered(names, mark).number && Numbered(names, mark).number[names[i]] == mark + i
    decreases |names|
  {
    var last := |names| - 1;
    if i < last {
      assert names[..last][i] == names[i];
      NumbersOf(names[..last], mark, i);
    }
  }

  lemma {:induction false} OnlyNames(names: seq<string>, mark: nat)
    ensures forall n :: n in Numbered(names, mark).number <==> n in names
    ensures forall n | n in Numbered(names, mark).number :: mark <= Numbered(names, mark).number[n] < mark + |names|
    decreases |names|
  {
    if names != [] {
      var last := |names| - 1;
      OnlyNames(names[..last], mark);
      assert names == names[..last] + [names[last]];
    }
  }

  /** The goto labels take up an interval of numbers, one each. */
  lemma {:induction false} NamesCounted(names: seq<string>, all: seq<string>, env: Env, mark: nat, m: nat)
    requires env.labels == Numbered(all, mark) && Distinct(all) && |names| <= |all| && names == all[|all| - |names|..]
    ensures NameCount(names, env, m) == Between(m, mark + |all| - |names|, mark + |all|)
    decreases |names|
  {
    if names != [] {
      var first := |all| - |names|;
      assert names[0] == all[first] && names[1..] == all[first + 1..];
      NumbersOf(all, mark, first);
      NamesCounted(names[1..], all, env, mark, m);
    }
  }

  /** The code behind the body. */
  function Epilogue(mark: nat): Prog {
    [MovImm(0), Label(mark), Leave]
  }

  lemma EpilogueLabels(mark: nat, m: nat)
    ensures Count(Epilogue(mark), m) == Flag(m == mark)
  {
    assert Epilogue(mark) == [MovImm(0)] + [Label(mark)] + [Leave];
    CountLast([MovImm(0)] + [Label(mark)], Leave, m);
    CountLast([MovImm(0)], Label(mark), m);
    CountOne(MovImm(0), m);
  }

  /** A function defines exactly the labels it has numbered, each once. */
  lemma FunctionLabels(body: Stmt, mark: nat, m: nat)
    requires Distinct(Names(body)) && Cases(body) == []
    ensures Count(GenFunction(body, mark).out, m) == Between(m, mark, GenFunction(body, mark).next)
  {
    var (env, names) := (FunctionEnv(body, mark), Names(body));
    var d := GenStmt(body, env, 0, BodyMark(body, mark));
    StatementLabels(body, env, 0, BodyMark(body, mark), m);
    assert names == names[0..];
    NamesCounted(names, names, env, mark + 1, m);
    CountAppend(d.out, Epilogue(mark), m);
    EpilogueLabels(mark, m);
  }

  lemma FunctionIsDistinct(body: Stmt, mark: nat)
    requires Distinct(Names(body)) && Cases(body) == []
    ensures DistinctLabels(GenFunction(body, mark).out)
  {
    var prog := GenFunction(body, mark).out;
    forall m: nat ensures Count(prog, m) <= 1 {
      FunctionLabels(body, mark, m);
    }
    OnceIsDistinct(prog);
  }

  // ------------------------------------------------------------------------- jumps

  predicate IsJump(i: Ins) {
    i.Je? || i.Jne? || i.Jmp?
  }

  /** All jumps go to labels in an interval. */
  ghost predicate JumpsWithin(code: Prog, lo: nat, hi: nat) {
    forall i {:trigger i in code} | i in code && IsJump(i) :: lo <= i.mark < hi
  }

  lemma Join(x: Prog, y: Prog, lo: nat, hi: nat)
    requires JumpsWithin(x, lo, hi) && JumpsWithin(y, lo, hi)
    ensures JumpsWithin(x + y, lo, hi)
  {
  }

  lemma JoinFive(v: Prog, w: Prog, x: Prog, y: Prog, z: Prog, lo: nat, hi: nat)
    requires JumpsWithin(v, lo, hi) && JumpsWithin(w, lo, hi) && JumpsWithin(x, lo, hi) && JumpsWithin(y, lo, hi)
    requires JumpsWithin(z, lo, hi)
    ensures JumpsWithin(v + w + x + y + z, lo, hi)
  {
    Join(v, w, lo, hi);
    Join(v + w, x, lo, hi);
    Join(v + w + x, y, lo, hi);
    Join(v + w + x + y, z, lo, hi);
  }

  lemma ChoiceJumps(c: Prog, x: Prog, y: Prog, elseMark: nat, endMark: nat, lo: nat, hi: nat)
    requires JumpsWithin(c, lo, hi) && JumpsWithin(x, lo, hi) && JumpsWithin(y, lo, hi)
    requires lo <= elseMark < hi && lo <= endMark < hi
    ensures JumpsWithin(ChoiceCode(c, x, y, elseMark, endMark), lo, hi)
  {
    JoinFive(c, [CmpImm(0), Je(elseMark)], x, [Jmp(endMark), Label(elseMark)], y, lo, hi);
    Join(c + [CmpImm(0), Je(elseMark)] + x + [Jmp(endMark), Label(elseMark)] + y, [Label(endMark)], lo, hi);
  }

  lemma {:induction false} ExpressionJumps(e: Exp, mark: nat, lo: nat, hi: nat)
    requires lo <= mark && GenExp(e, mark).next <= hi
    ensures JumpsWithin(GenExp(e, mark).out, lo, hi)
    decreases e, 1
  {
    var code := GenExpKind(e, mark);
    match e
    case Binop(_, _, _) => BinopJumps(e, mark, lo, hi);
    case LogicalAnd(_, _) => ShortJumps(e, Je(mark), mark, lo, hi);
    case LogicalOr(_, _) => ShortJumps(e, Jne(mark), mark, lo, hi);
    case Conditional(_, _, _) => ConditionalJumps(e, mark, lo, hi);
    case Comma(left, right) =>
      var l := GenExp(left, mark);
      ExpressionJumps(left, mark, lo, hi);
      ExpressionJumps(right, l.next, lo, hi);
      Join(l.out, GenExp(right, l.next).out, lo, hi);
    case Assign(s, right) =>
      ExpressionJumps(right, mark, lo, hi);
      Join(GenExp(right, mark).out, AssignTail(s), lo, hi);
    case Negation(operand) =>
      ExpressionJumps(operand, mark, lo, hi);
      Join(GenExp(operand, mark).out, [NegAx], lo, hi);
    case BitwiseComplement(operand) =>
      ExpressionJumps(operand, mark, lo, hi);
      Join(GenExp(operand, mark).out, [NotAx], lo, hi);
    case LogicalNegation(operand) =>
      ExpressionJumps(operand, mark, lo, hi);
      Join(GenExp(operand, mark).out, [CmpImm(0), MovImm(0), SetAl(IsEqual)], lo, hi);
    case _ =>
  }

  lemma BinopJumps(e: Exp, mark: nat, lo: nat, hi: nat)
    requires e.Binop? && lo <= mark && GenExp(e, mark).next <= hi
    ensures JumpsWithin(GenExp(e, mark).out, lo, hi)
    decreases e, 0
  {
    var l := GenExp(e.left, mark);
    var r := GenExp(e.right, l.next);
    assert GenExpKind(e, mark) == Code(l.out + [PushAx] + r.out + [PopDx] + BinopTail(e.op), r.next);
    ExpressionJumps(e.left, mark, lo, hi);
    ExpressionJumps(e.right, l.next, lo, hi);
    JoinFive(l.out, [PushAx], r.out, [PopDx], BinopTail(e.op), lo, hi);
  }

  lemma ShortJumps(e: Exp, jump: Ins, mark: nat, lo: nat, hi: nat)
    requires (e.LogicalAnd? && jump == Je(mark)) || (e.LogicalOr? && jump == Jne(mark))
    requires lo <= mark && GenExp(e, mark).next <= hi
    ensures JumpsWithin(GenExp(e, mark).out, lo, hi)
    decreases e, 0
  {
    var l := GenExp(e.left, mark + 2);
    var r := GenExp(e.right, l.next);
    assert GenExpKind(e, mark) == Code(ShortCode(l.out, r.out, jump, mark + 1), r.next);
    ExpressionJumps(e.left, mark + 2, lo, hi);
    ExpressionJumps(e.right, l.next, lo, hi);
    var test := [CmpImm(0), jump];
    var end := [MovImm(Flag(jump.Je?)), Jmp(mark + 1), Label(mark), MovImm(Flag(!jump.Je?)), Label(mark + 1)];
    assert JumpsWithin(test, lo, hi) && JumpsWithin(end, lo, hi);
    JoinFive(l.out, test, r.out, test, end, lo, hi);
  }

  lemma ConditionalJumps(e: Exp, mark: nat, lo: nat, hi: nat)
    requires e.Conditional? && lo <= mark && GenExp(e, mark).next <= hi
    ensures JumpsWithin(GenExp(e, mark).out, lo, hi)
    decreases e, 0
  {
    var c := GenExp(e.condition, mark + 2);
    var x := GenExp(e.thenExp, c.next);
    var y := GenExp(e.elseExp, x.next);
    assert GenExpKind(e, mark) == Code(ChoiceCode(c.out, x.out, y.out, mark, mark + 1), y.next);
    ExpressionJumps(e.condition, mark + 2, lo, hi);
    ExpressionJumps(e.thenExp, c.next, lo, hi);
    ExpressionJumps(e.elseExp, x.next, lo, hi);
    ChoiceJumps(c.out, x.out, y.out, mark, mark + 1, lo, hi);
  }

  lemma SimpleJumps(s: Simple, mark: nat, lo: nat, hi: nat)
    requires lo <= mark && GenSimple(s, mark).next <= hi
    ensures JumpsWithin(GenSimple(s, mark).out, lo, hi)
  {
    match s
    case Declare(slot, Some(e)) =>
      ExpressionJumps(e, mark, lo, hi);
      Join(GenExp(e, mark).out, [StoreSlot(slot)], lo, hi);
    case Evaluate(e) => ExpressionJumps(e, mark, lo, hi);
    case _ =>
  }

  lemma {:induction false} CaseTestsJumps(cases: seq<Ir.Option<int>>, first: nat, lo: nat, hi: nat)
    requires lo <= first && first + |cases| <= hi
    ensures JumpsWithin(CaseTests(cases, first), lo, hi)
  {
    if cases != [] {
      CaseTestsJumps(cases[1..], first + 1, lo, hi);
      var head := if cases[0].Some? then [CmpImm(cases[0].value), Je(first)] else [];
      Join(head, CaseTests(cases[1..], first + 1), lo, hi);
    }
  }

  /** The labels a statement can mention are in an interval. */
  ghost predicate EnvWithin(env: Env, lo: nat, hi: nat) {
    forall m: nat {:trigger Mentioned(env, m)} | Mentioned(env, m) :: lo <= m < hi
  }

  lemma LoopWithin(env: Env, brk: nat, cont: nat, lo: nat, hi: nat)
    requires EnvWithin(env, lo, hi) && lo <= brk < hi && (lo <= cont < hi || Mentioned(env, cont))
    ensures EnvWithin(LoopEnv(env, brk, cont), lo, hi)
  {
    forall m: nat | Mentioned(LoopEnv(env, brk, cont), m) ensures lo <= m < hi {
      assert m == brk || m == cont || Mentioned(env, m);
    }
  }

  /** The interval holds the labels around a statement and the ones its code numbers. */
  ghost predicate Around(s: Stmt, inLoop: bool, env: Env, cases: nat, mark: nat, lo: nat, hi: nat) {
    && Proper(s, inLoop, env.marks.Some?, env.labels) && EnvWithin(env, lo, hi) && (inLoop ==> env.marks.Some?)
    && lo <= mark && GenStmt(s, env, cases, mark).next <= hi
  }

  lemma {:induction false} StatementJumps(s: Stmt, inLoop: bool, env: Env, cases: nat, mark: nat, lo: nat, hi: nat)
    requires Around(s, inLoop, env, cases, mark, lo, hi)
    ensures JumpsWithin(GenStmt(s, env, cases, mark).out, lo, hi)
    decreases s, 1
  {
    var code := GenKind(s, env, cases, mark);
    match s
    case Plain(x) => SimpleJumps(x, mark, lo, hi);
    case Seq(_, _) => SeqJumps(s, inLoop, env, cases, mark, lo, hi);
    case If(_, _, _) => IfJumps(s, inLoop, env, cases, mark, lo, hi);
    case While(_, _) => WhileJumps(s, inLoop, env, cases, mark, lo, hi);
    case DoWhile(_, _) => DoJumps(s, inLoop, env, cases, mark, lo, hi);
    case For(_, _, _, _) => ForJumps(s, inLoop, env, cases, mark, lo, hi);
    case Switch(_, _) => SwitchJumps(s, inLoop, env, cases, mark, lo, hi);
    case Case(_, x) =>
      assert code == GenCase(s, env, cases, mark);
      StatementJumps(x, inLoop, env, cases + 1, mark, lo, hi);
      Join([Label(cases)], GenStmt(x, env, cases + 1, mark).out, lo, hi);
    case Labelled(n, x) =>
      assert code == GenLabelled(s, env, cases, mark);
      StatementJumps(x, inLoop, env, cases, mark, lo, hi);
      Join([Label(NameMark(env, n))], GenStmt(x, env, cases, mark).out, lo, hi);
    case Return(Some(e)) =>
      assert Mentioned(env, env.end);
      ExpressionJumps(e, mark, lo, hi);
      Join(GenExp(e, mark).out, [Jmp(env.end)], lo, hi);
    case _ => assert Mentioned(env, code.out[0].mark);
  }

  lemma SeqJumps(s: Stmt, inLoop: bool, env: Env, cases: nat, mark: nat, lo: nat, hi: nat)
    requires Around(s, inLoop, env, cases, mark, lo, hi) && s.Seq?
    ensures JumpsWithin(GenStmt(s, env, cases, mark).out, lo, hi)
    decreases s, 0
  {
    var c := GenStmt(s.first, env, cases, mark);
    var d := GenStmt(s.second, env, Past(cases, s.first), c.next);
    assert GenKind(s, env, cases, mark) == GenSeq(s, env, cases, mark);
    assert GenSeq(s, env, cases, mark) == Code(c.out + d.out, d.next);
    StatementJumps(s.first, inLoop, env, cases, mark, lo, hi);
    StatementJumps(s.second, inLoop, env, Past(cases, s.first), c.next, lo, hi);
    Join(c.out, d.out, lo, hi);
  }

  lemma IfJumps(s: Stmt, inLoop: bool, env: Env, cases: nat, mark: nat, lo: nat, hi: nat)
    requires Around(s, inLoop, env, cases, mark, lo, hi) && s.If?
    ensures JumpsWithin(GenStmt(s, env, cases, mark).out, lo, hi)
    decreases s, 0
  {
    var c := GenExp(s.condition, mark + 2);
    var d := GenStmt(s.thenPart, env, cases, c.next);
    var e := GenStmt(s.elsePart, env, Past(cases, s.thenPart), d.next);
    assert GenKind(s, env, cases, mark) == GenIf(s, env, cases, mark);
    assert GenIf(s, env, cases, mark) == Code(ChoiceCode(c.out, d.out, e.out, mark, mark + 1), e.next);
    ExpressionJumps(s.condition, mark + 2, lo, hi);
    StatementJumps(s.thenPart, inLoop, env, cases, c.next, lo, hi);
    StatementJumps(s.elsePart, inLoop, env, Past(cases, s.thenPart), d.next, lo, hi);
    ChoiceJumps(c.out, d.out, e.out, mark, mark + 1, lo, hi);
  }

  lemma WhileJumps(s: Stmt, inLoop: bool, env: Env, cases: nat, mark: nat, lo: nat, hi: nat)
    requires Around(s, inLoop, env, cases, mark, lo, hi) && s.While?
    ensures JumpsWithin(GenStmt(s, env, cases, mark).out, lo, hi)
    decreases s, 0
  {
    var inner := LoopEnv(env, mark + 1, mark);
    var c := GenExp(s.condition, mark + 2);
    var d := GenStmt(s.body, inner, cases, c.next);
    assert GenKind(s, env, cases, mark) == GenWhile(s, env, cases, mark);
    assert GenWhile(s, env, cases, mark) == Code(WhileCode(c.out, d.out, mark, mark + 1), d.next);
    LoopWithin(env, mark + 1, mark, lo, hi);
    ExpressionJumps(s.condition, mark + 2, lo, hi);
    StatementJumps(s.body, true, inner, cases, c.next, lo, hi);
    JoinFive([Label(mark)], c.out, [CmpImm(0), Je(mark + 1)], d.out, [Jmp(mark), Label(mark + 1)], lo, hi);
  }

  lemma DoJumps(s: Stmt, inLoop: bool, env: Env, cases: nat, mark: nat, lo: nat, hi: nat)
    requires Around(s, inLoop, env, cases, mark, lo, hi) && s.DoWhile?
    ensures JumpsWithin(GenStmt(s, env, cases, mark).out, lo, hi)
    decreases s, 0
  {
    var inner := LoopEnv(env, mark + 2, mark + 1);
    var d := GenStmt(s.body, inner, cases, mark + 3);
    var c := GenExp(s.condition, d.next);
    assert GenKind(s, env, cases, mark) == GenDo(s, env, cases, mark);
    assert GenDo(s, env, cases, mark) == Code(DoCode(d.out, c.out, mark, mark + 1, mark + 2), c.next);
    LoopWithin(env, mark + 2, mark + 1, lo, hi);
    StatementJumps(s.body, true, inner, cases, mark + 3, lo, hi);
    ExpressionJumps(s.condition, d.next, lo, hi);
    JoinFive([Label(mark)], d.out, [Label(mark + 1)], c.out, [CmpImm(0), Jne(mark), Label(mark + 2)], lo, hi);
  }

  lemma ForJumps(s: Stmt, inLoop: bool, env: Env, cases: nat, mark: nat, lo: nat, hi: nat)
    requires Around(s, inLoop, env, cases, mark, lo, hi) && s.For?
    ensures JumpsWithin(GenStmt(s, env, cases, mark).out, lo, hi)
    decreases s, 0
  {
    var inner := LoopEnv(env, mark + 2, mark + 1);
    var i := GenSimple(s.init, mark + 3);
    var c := TestCode(s.test, i.next, mark + 2);
    var d := GenStmt(s.body, inner, cases, c.next);
    var z := GenSimple(s.post, d.next);
    assert GenKind(s, env, cases, mark) == GenFor(s, env, cases, mark);
    assert GenFor(s, env, cases, mark) == Code(ForCode(i.out, c.out, d.out, z.out, mark, mark + 1, mark + 2), z.next);
    LoopWithin(env, mark + 2, mark + 1, lo, hi);
    SimpleJumps(s.init, mark + 3, lo, hi);
    TestJumps(s.test, i.next, mark + 2, lo, hi);
    StatementJumps(s.body, true, inner, cases, c.next, lo, hi);
    SimpleJumps(s.post, d.next, lo, hi);
    var middle := [Label(mark)] + c.out + d.out + [Label(mark + 1)] + z.out;
    JoinFive([Label(mark)], c.out, d.out, [Label(mark + 1)], z.out, lo, hi);
    Join(i.out, middle, lo, hi);
    Join(i.out + middle, [Jmp(mark), Label(mark + 2)], lo, hi);
  }

  lemma TestJumps(test: Ir.Option<Exp>, mark: nat, end: nat, lo: nat, hi: nat)
    requires lo <= mark && TestCode(test, mark, end).next <= hi && lo <= end < hi
    ensures JumpsWithin(TestCode(test, mark, end).out, lo, hi)
  {
    if test.Some? {
      ExpressionJumps(test.value, mark, lo, hi);
      Join(GenExp(test.value, mark).out, [CmpImm(0), Je(end)], lo, hi);
    }
  }

  lemma SwitchJumps(s: Stmt, inLoop: bool, env: Env, cases: nat, mark: nat, lo: nat, hi: nat)
    requires Around(s, inLoop, env, cases, mark, lo, hi) && s.Switch?
    ensures JumpsWithin(GenStmt(s, env, cases, mark).out, lo, hi)
    decreases s, 0
  {
    var inner := SwitchEnv(env, mark);
    var c := GenExp(s.control, mark + 1);
    var values := Cases(s.body);
    var d := GenStmt(s.body, inner, c.next, c.next + |values|);
    var (tests, other) := (CaseTests(values, c.next), DefaultMark(values, c.next, mark));
    assert GenKind(s, env, cases, mark) == GenSwitch(s, env, cases, mark);
    assert GenSwitch(s, env, cases, mark) == Code(SwitchCode(c.out, tests, other, d.out, mark), d.next);
    LoopWithin(env, mark, inner.marks.value.cont, lo, hi);
    ExpressionJumps(s.control, mark + 1, lo, hi);
    CaseTestsJumps(values, c.next, lo, hi);
    StatementJumps(s.body, inLoop, inner, c.next, c.next + |values|, lo, hi);
    JoinFive(c.out, tests, [Jmp(other)], d.out, [Label(mark)], lo, hi);
  }

  lemma {:induction false} SameProper(s: Stmt, inLoop: bool, breakable: bool, labels: Labels, labels': Labels)
    requires Proper(s, inLoop, breakable, labels) && forall n | n in labels.number :: n in labels'.number
    ensures Proper(s, inLoop, breakable, labels')
  {
    match s
    case Seq(x, y) =>
      SameProper(x, inLoop, breakable, labels, labels');
      SameProper(y, inLoop, breakable, labels, labels');
    case If(_, x, y) =>
      SameProper(x, inLoop, breakable, labels, labels');
      SameProper(y, inLoop, breakable, labels, labels');
    case While(_, body) => SameProper(body, true, true, labels, labels');
    case DoWhile(body, _) => SameProper(body, true, true, labels, labels');
    case For(_, _, _, body) => SameProper(body, true, true, labels, labels');
    case Switch(_, body) => SameProper(body, inLoop, true, labels, labels');
    case Case(_, x) => SameProper(x, inLoop, breakable, labels, labels');
    case Labelled(_, x) => SameProper(x, inLoop, breakable, labels, labels');
    case _ =>
  }

  /** The labels of a function are all in its interval. */
  lemma FunctionAround(body: Stmt, mark: nat)
    requires WellFormed(body)
    ensures Around(body, false, FunctionEnv(body, mark), 0, BodyMark(body, mark), mark, GenFunction(body, mark).next)
  {
    var env := FunctionEnv(body, mark);
    OnlyNames(Names(body), mark + 1);
    OnlyNames(Names(body), 0);
    SameProper(body, false, false, Numbered(Names(body), 0), env.labels);
    forall m: nat | Mentioned(env, m) ensures mark <= m < BodyMark(body, mark) {
    }
  }

  /** Every label the code of a function jumps to is defined exactly once. */
  lemma JumpsAreDefined(body: Stmt, mark: nat, i: Ins)
    requires WellFormed(body) && i in GenFunction(body, mark).out
    requires i.Je? || i.Jne? || i.Jmp?
    ensures Count(GenFunction(body, mark).out, i.mark) == 1
  {
    var (env, next) := (FunctionEnv(body, mark), GenFunction(body, mark).next);
    FunctionAround(body, mark);
    StatementJumps(body, false, env, 0, BodyMark(body, mark), mark, next);
    Join(GenStmt(body, env, 0, BodyMark(body, mark)).out, Epilogue(mark), mark, next);
    FunctionLabels(body, mark, i.mark);
  }

  // ----------------------------------------------------------------------- running

  /** What the machine does with the code of a function that ends as `r`. */
  ghost predicate Carried(a: Arith, prog: Prog, st: State, fuel: nat, r: Exit) {
    match r.how
    case Normal => exists end :: Stopped(a, prog, st, r.frame, end) && end.ax == Num(0)
    case Returned(v) => exists end :: Stopped(a, prog, st, r.frame, end) && (v.Some? ==> end.ax == Num(v.value))
    case Faulted => Leads(Machine(a, prog), st, 0, Trapped)
    case Unfinished => exists st' :: Leads(Machine(a, prog), st, fuel, Running(st'))
    case _ => false
  }

  /** The program has finished, with the stack it began with. */
  ghost predicate Stopped(a: Arith, prog: Prog, st: State, frame: Frame, end: State) {
    Near(st, end, frame) && Leads(Machine(a, prog), st, 0, Finished(end))
  }

  /** Where the body of a function ends. */
  function BodyEnd(body: Stmt, mark: nat): nat {
    |GenStmt(body, FunctionEnv(body, mark), 0, BodyMark(body, mark)).out|
  }

  function BodyWays(body: Stmt, mark: nat): Ways {
    Ways(BodyEnd(body, mark), false, FunctionEnv(body, mark))
  }

  lemma BodyPlaced(body: Stmt, mark: nat)
    requires WellFormed(body)
    ensures Placed(GenFunction(body, mark).out, 0, body, FunctionEnv(body, mark), 0, BodyMark(body, mark), false)
    ensures CodeAt(GenFunction(body, mark).out, BodyEnd(body, mark), Epilogue(mark))
  {
    var (prog, env) := (GenFunction(body, mark).out, FunctionEnv(body, mark));
    var d := GenStmt(body, env, 0, BodyMark(body, mark));
    FunctionAround(body, mark);
    FunctionIsDistinct(body, mark);
    Whole(prog);
    CodeParts(prog, 0, d.out, Epilogue(mark));
    forall m: nat | Mentioned(env, m) ensures Defined(prog, m) {
      FunctionLabels(body, mark, m);
      CountedIsDefined(prog, 0, prog, m);
    }
  }

  lemma Whole(prog: Prog)
    ensures CodeAt(prog, 0, prog)
  {
    forall k: nat | k < |prog| ensures Agrees(prog, 0, prog, k) {
    }
  }

  /** The body of a function, with its jumps to goto labels. */
  lemma {:induction false} BodyRuns(a: Arith, body: Stmt, mark: nat, t: Target, at: nat, frame: Frame, fuel: nat)
    requires Commutes(a) && WellFormed(body) && Inside(body, t) && (t.Start? || t.AtName?)
    requires EntryAt(GenFunction(body, mark).out, FunctionEnv(body, mark), 0, BodyMark(body, mark), 0, t, at)
    ensures Executes(a, GenFunction(body, mark).out, at, frame, BodyWays(body, mark), fuel,
        RunBody(a, body, t, frame, fuel))
    decreases fuel, Rank(t) <= 1, 1
  {
    var (prog, env, w) := (GenFunction(body, mark).out, FunctionEnv(body, mark), BodyWays(body, mark));
    BodyPlaced(body, mark);
    StatementDoes(a, prog, body, env, 0, BodyMark(body, mark), false, 0, t, at, frame, fuel);
    var x := Exec(a, body, t, frame, fuel);
    if x.how.Went? && x.how.name in Names(body) {
      BodyGoesOn(a, body, mark, t, at, frame, fuel, x);
    }
  }

  /** A `goto` out of a run of the body. */
  lemma BodyGoesOn(a: Arith, body: Stmt, mark: nat, t: Target, at: nat, frame: Frame, fuel: nat, x: Exit)
    requires Commutes(a) && WellFormed(body) && Inside(body, t) && (t.Start? || t.AtName?)
    requires x == Exec(a, body, t, frame, fuel) && x.how.Went? && x.how.name in Names(body)
    requires Executes(a, GenFunction(body, mark).out, at, frame, BodyWays(body, mark), fuel, x)
    ensures Executes(a, GenFunction(body, mark).out, at, frame, BodyWays(body, mark), fuel,
                     RunBody(a, body, t, frame, fuel))
    decreases fuel, Rank(t) <= 1, 0
  {
    var (prog, w) := (GenFunction(body, mark).out, BodyWays(body, mark));
    var q := GotoTarget(body, mark, x.how.name);
    var t' := AtName(x.how.name);
    FunctionIsDistinct(body, mark);
    if t.Start? {
      BodyRuns(a, body, mark, t', q, x.frame, fuel);
      var r := RunBody(a, body, t', x.frame, fuel);
      GotoExecutes(a, prog, at, frame, w, x, q, fuel, fuel, r);
      LessFuel(a, prog, at, frame, w, fuel + 1, fuel, r);
    } else if fuel == 0 {
      UnfinishedExecutes(a, prog, at, frame, w, Exit(Unfinished, x.frame));
    } else {
      BodyRuns(a, body, mark, t', q, x.frame, fuel - 1);
      GotoExecutes(a, prog, at, frame, w, x, q, fuel, fuel - 1, RunBody(a, body, t', x.frame, fuel - 1));
    }
  }

  /** Where a goto goes. */
  lemma GotoTarget(body: Stmt, mark: nat, name: string) returns (q: nat)
    requires WellFormed(body) && name in Names(body)
    ensures EntryAt(GenFunction(body, mark).out, FunctionEnv(body, mark), 0, BodyMark(body, mark), 0, AtName(name), q)
    ensures name in FunctionEnv(body, mark).labels.number
  {
    var (prog, env) := (GenFunction(body, mark).out, FunctionEnv(body, mark));
    BodyPlaced(body, mark);
    OnlyNames(Names(body), mark + 1);
    assert Mentioned(env, env.labels.number[name]);
    q :| LabelAt(prog, env.labels.number[name], q);
  }

  /** From the end label on. */
  lemma LabelFinishes(a: Arith, body: Stmt, mark: nat, st: State)
    requires WellFormed(body) && LabelAt(GenFunction(body, mark).out, mark, st.pc)
    ensures Leads(Machine(a, GenFunction(body, mark).out), st, 0, Finished(st.(pc := st.pc + 1)))
  {
    var (prog, e) := (GenFunction(body, mark).out, BodyEnd(body, mark));
    BodyPlaced(body, mark);
    assert Agrees(prog, e, Epilogue(mark), 1) && Agrees(prog, e, Epilogue(mark), 2);
    assert LabelAt(prog, mark, e + 1);
    LabelRuns(a, prog, st, mark);
    var on := st.(pc := st.pc + 1);
    LeadsStep(Machine(a, prog), on);
    Then(a, prog, st, 1, on, 1, Finished(on));
  }

  /** From behind the body on: its result is zero. */
  lemma EndFinishes(a: Arith, body: Stmt, mark: nat, st: State)
    requires WellFormed(body) && st.pc == BodyEnd(body, mark)
    ensures Leads(Machine(a, GenFunction(body, mark).out), st, 0, Finished(st.(pc := st.pc + 2, ax := Num(0))))
  {
    var (prog, e) := (GenFunction(body, mark).out, BodyEnd(body, mark));
    BodyPlaced(body, mark);
    assert Agrees(prog, e, Epilogue(mark), 0) && Agrees(prog, e, Epilogue(mark), 1);
    LeadsStep(Machine(a, prog), st);
    var on := st.(pc := st.pc + 1, ax := Num(0));
    LabelFinishes(a, body, mark, on);
    Then(a, prog, st, 1, on, 0, Finished(on.(pc := on.pc + 1)));
  }

  /** Running the code of a function from its start does what running its body means: the
      result is in the accumulator, the frame is as the body leaves it, the stack is as it
      was, a division by zero traps, and a body that does not end keeps the machine running. */
  lemma FunctionRuns(a: Arith, body: Stmt, mark: nat, st: State, fuel: nat)
    requires Commutes(a) && WellFormed(body) && st.pc == 0
    ensures Carried(a, GenFunction(body, mark).out, st, fuel, RunBody(a, body, Start, st.frame, fuel))
  {
    var (prog, w) := (GenFunction(body, mark).out, BodyWays(body, mark));
    var r := RunBody(a, body, Start, st.frame, fuel);
    BodyRuns(a, body, mark, Start, 0, st.frame, fuel);
    assert Leaves(a, prog, w, st, fuel, r);
    if Ends(r.how) {
      var at := Left(a, prog, w, st, fuel, r);
      BodyEndsProperly(a, body, mark, st.frame, fuel);
      if r.how.Normal? {
        var end := at.(pc := at.pc + 2, ax := Num(0));
        EndFinishes(a, body, mark, at);
        Then(a, prog, st, 0, at, 0, Finished(end));
        assert Stopped(a, prog, st, r.frame, end);
      } else {
        var end := at.(pc := at.pc + 1);
        LabelFinishes(a, body, mark, at);
        Then(a, prog, st, Least(r.how), at, 0, Finished(end));
        assert Stopped(a, prog, st, r.frame, end);
      }
    }
  }

  /** A function does not end with a `break`, a `continue` or a `goto`. */
  lemma BodyEndsProperly(a: Arith, body: Stmt, mark: nat, frame: Frame, fuel: nat)
    requires Commutes(a) && WellFormed(body)
    ensures var how := RunBody(a, body, Start, frame, fuel).how;
            !how.Broke? && !how.Continued? && !how.Went?
  {
    var (w, r) := (BodyWays(body, mark), RunBody(a, body, Start, frame, fuel));
    BodyRuns(a, body, mark, Start, 0, frame, fuel);
    var st := State(0, Num(0), Num(0), Num(0), (0, 0), [], frame);
    assert Leaves(a, GenFunction(body, mark).out, w, st, fuel, r);
    if r.how.Went? {
      OnlyNames(Names(body), mark + 1);
      NotWent(a, body, Start, frame, fuel);
    }
  }

  lemma {:induction false} NotWent(a: Arith, body: Stmt, t: Target, frame: Frame, fuel: nat)
    requires Inside(body, t) && !t.AtCase?
    ensures var how := RunBody(a, body, t, frame, fuel).how; how.Went? ==> how.name !in Names(body)
    decreases fuel, Rank(t) <= 1
  {
    var r := Exec(a, body, t, frame, fuel);
    if r.how.Went? && r.how.name in Names(body) {
      if !t.AtName? {
        NotWent(a, body, AtName(r.how.name), r.frame, fuel);
      } else if fuel > 0 {
        NotWent(a, body, AtName(r.how.name), r.frame, fuel - 1);
      }
    }
  }

  // -------------------------------------------------------------- exactly when it stops

  /** The function ends for some fuel. */
  ghost predicate Terminates(a: Arith, body: Stmt, frame: Frame, r: Exit) {
    exists fuel: nat :: RunBody(a, body, Start, frame, fuel) == r
  }

  /** The final state holds what the function leaves: its result, its frame, and the stack. */
  ghost predicate EndsWith(st: State, end: State, r: Exit) {
    && end.frame == r.frame && end.stack == st.stack
    && match r.how
       case Normal => end.ax == Num(0)
       case Returned(v) => v.Some? ==> end.ax == Num(v.value)
       case _ => false
  }

  /** The machine finishes with a result exactly where the function returns it, traps
      exactly where the function divides by zero, and is never stuck. */
  lemma MachineStopsExactly(a: Arith, body: Stmt, mark: nat, st: State, n: nat)
    requires Commutes(a) && WellFormed(body) && st.pc == 0
    ensures match Steps(Machine(a, GenFunction(body, mark).out), st, n)
            case Stuck => false
            case Running(_) => true
            case Trapped => exists r: Exit :: r.how.Faulted? && Terminates(a, body, st.frame, r)
            case Finished(end) => exists r: Exit :: Terminates(a, body, st.frame, r) && EndsWith(st, end, r)
  {
    var (prog, fuel) := (GenFunction(body, mark).out, n + 1);
    var next := Machine(a, prog);
    var r := RunBody(a, body, Start, st.frame, fuel);
    FunctionRuns(a, body, mark, st, fuel);
    assert Terminates(a, body, st.frame, r);
    var s := Steps(next, st, n);
    if !s.Running? {
      if r.how.Unfinished? {
        var st' :| Leads(next, st, fuel, Running(st'));
        var m: nat :| m >= fuel && Steps(next, st, m) == Running(st');
        StepsStay(next, st, n, m);
        assert false;
      } else if r.how.Faulted? {
        Stops(next, st, n, Trapped);
      } else {
        var end :| Stopped(a, prog, st, r.frame, end) && (r.how.Normal? ==> end.ax == Num(0))
          && (r.how.Returned? && r.how.value.Some? ==> end.ax == Num(r.how.value.value));
        Stops(next, st, n, Finished(end));
      }
    }
  }

  /** A machine stops in only one way. */
  lemma Stops(next: State -> Status, st: State, n: nat, s: Status)
    requires Leads(next, st, 0, s) && !s.Running? && !Steps(next, st, n).Running?
    ensures Steps(next, st, n) == s
  {
    var m: nat :| m >= 0 && Steps(next, st, m) == s;
    if m < n {
      StepsStay(next, st, m, n);
    } else {
      StepsStay(next, st, n, m);
    }
  }
}
