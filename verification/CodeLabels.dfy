/** Which labels a piece of code defines, and how often. */
module CodeLabels {
  import Ir
  import opened StackMachine
  import opened CodegenExpr
  import opened StmtRuns
  import opened Statements
  import opened CodegenStmt

  /** How often a label is defined. */
  function Count(code: Prog, m: nat): nat {
    if code == [] then 0 else Flag(code[0] == Label(m)) + Count(code[1..], m)
  }

  lemma {:induction false} CountAppend(x: Prog, y: Prog, m: nat)
    ensures Count(x + y, m) == Count(x, m) + Count(y, m)
  {
    if x == [] {
      assert x + y == y;
    } else {
      assert (x + y)[1..] == x[1..] + y;
      CountAppend(x[1..], y, m);
    }
  }

  lemma {:induction false} NoLabels(code: Prog, m: nat)
    requires forall k | 0 <= k < |code| :: !code[k].Label?
    ensures Count(code, m) == 0
  {
    if code != [] {
      NoLabels(code[1..], m);
    }
  }

  lemma CountOne(i: Ins, m: nat)
    ensures Count([i], m) == Flag(i == Label(m))
  {
    assert [i][1..] == [];
  }

  lemma CountLast(x: Prog, i: Ins, m: nat)
    ensures Count(x + [i], m) == Count(x, m) + Flag(i == Label(m))
  {
    CountAppend(x, [i], m);
    CountOne(i, m);
  }

  /** Whether a number is in an interval. */
  function Between(m: nat, from: nat, to: nat): nat {
    if from <= m < to then 1 else 0
  }

  // ------------------------------------------------------------------- expressions

  lemma ShortEndCounts(one: Ins, other: Ins, mark: nat, endMark: nat, m: nat)
    requires !one.Label? && !other.Label?
    ensures Count([one, Jmp(endMark), Label(mark), other, Label(endMark)], m) == Flag(m == mark) + Flag(m == endMark)
  {
    var head := [one, Jmp(endMark)];
    assert [one, Jmp(endMark), Label(mark), other, Label(endMark)] == head + [Label(mark)] + [other] + [Label(endMark)];
    CountLast(head + [Label(mark)] + [other], Label(endMark), m);
    CountLast(head + [Label(mark)], other, m);
    CountLast(head, Label(mark), m);
    NoLabels(head, m);
  }

  lemma ShortCounts(l: Prog, r: Prog, jump: Ins, endMark: nat, m: nat)
    requires jump.Je? || jump.Jne?
    ensures Count(ShortCode(l, r, jump, endMark), m) ==
        Count(l, m) + Count(r, m) + Flag(m == jump.mark) + Flag(m == endMark)
  {
    var (test, one, other) := ([CmpImm(0), jump], MovImm(Flag(jump.Je?)), MovImm(Flag(!jump.Je?)));
    CountAppend(l + test + r + test, [one, Jmp(endMark), Label(jump.mark), other, Label(endMark)], m);
    CountAppend(l + test + r, test, m);
    CountAppend(l + test, r, m);
    CountAppend(l, test, m);
    NoLabels(test, m);
    ShortEndCounts(one, other, jump.mark, endMark, m);
  }

  lemma ChoiceCounts(c: Prog, x: Prog, y: Prog, elseMark: nat, endMark: nat, m: nat)
    ensures Count(ChoiceCode(c, x, y, elseMark, endMark), m)
         == Count(c, m) + Count(x, m) + Count(y, m) + Flag(m == elseMark) + Flag(m == endMark)
  {
    var (test, mid) := ([CmpImm(0), Je(elseMark)], [Jmp(endMark), Label(elseMark)]);
    CountLast(c + test + x + mid + y, Label(endMark), m);
    CountAppend(c + test + x + mid, y, m);
    CountAppend(c + test + x, mid, m);
    CountAppend(c + test, x, m);
    CountAppend(c, test, m);
    NoLabels(test, m);
    assert mid == [Jmp(endMark)] + [Label(elseMark)];
    CountLast([Jmp(endMark)], Label(elseMark), m);
    NoLabels([Jmp(endMark)], m);
  }

  /** The code of an expression defines exactly the labels it has numbered, each once. */
  lemma {:induction false} ExpressionLabels(e: Exp, mark: nat, m: nat)
    ensures Count(GenExp(e, mark).out, m) == Between(m, mark, GenExp(e, mark).next)
    decreases e, 1
  {
    var code := GenExpKind(e, mark);
    match e
    case IntLit(_) => CountOne(code.out[0], m);
    case Variable(_) => CountOne(code.out[0], m);
    case IncDec(_, _, _) => NoLabels(code.out, m);
    case Binop(_, _, _) => BinopLabels(e, mark, m);
    case LogicalAnd(_, _) => ShortLabels(e, Je(mark), mark, m);
    case LogicalOr(_, _) => ShortLabels(e, Jne(mark), mark, m);
    case Conditional(_, _, _) => ConditionalLabels(e, mark, m);
    case Comma(left, right) =>
      var l := GenExp(left, mark);
      ExpressionLabels(left, mark, m);
      ExpressionLabels(right, l.next, m);
      CountAppend(l.out, GenExp(right, l.next).out, m);
    case Assign(s, right) =>
      ExpressionLabels(right, mark, m);
      CountAppend(GenExp(right, mark).out, AssignTail(s), m);
      NoLabels(AssignTail(s), m);
    case Negation(operand) =>
      ExpressionLabels(operand, mark, m);
      CountLast(GenExp(operand, mark).out, NegAx, m);
    case BitwiseComplement(operand) =>
      ExpressionLabels(operand, mark, m);
      CountLast(GenExp(operand, mark).out, NotAx, m);
    case LogicalNegation(operand) =>
      ExpressionLabels(operand, mark, m);
      var tail := [CmpImm(0), MovImm(0), SetAl(IsEqual)];
      CountAppend(GenExp(operand, mark).out, tail, m);
      NoLabels(tail, m);
  }

  lemma BinopLabels(e: Exp, mark: nat, m: nat)
    requires e.Binop?
    ensures Count(GenExp(e, mark).out, m) == Between(m, mark, GenExp(e, mark).next)
    decreases e, 0
  {
    var l := GenExp(e.left, mark);
    var r := GenExp(e.right, l.next);
    assert GenExpKind(e, mark) == Code(l.out + [PushAx] + r.out + [PopDx] + BinopTail(e.op), r.next);
    ExpressionLabels(e.left, mark, m);
    ExpressionLabels(e.right, l.next, m);
    CountAppend(l.out + [PushAx] + r.out + [PopDx], BinopTail(e.op), m);
    NoLabels(BinopTail(e.op), m);
    CountLast(l.out + [PushAx] + r.out, PopDx, m);
    CountAppend(l.out + [PushAx], r.out, m);
    CountLast(l.out, PushAx, m);
  }

  lemma ShortLabels(e: Exp, jump: Ins, mark: nat, m: nat)
    requires (e.LogicalAnd? && jump == Je(mark)) || (e.LogicalOr? && jump == Jne(mark))
    ensures Count(GenExp(e, mark).out, m) == Between(m, mark, GenExp(e, mark).next)
    decreases e, 0
  {
    var l := GenExp(e.left, mark + 2);
    var r := GenExp(e.right, l.next);
    assert GenExpKind(e, mark) == Code(ShortCode(l.out, r.out, jump, mark + 1), r.next);
    ExpressionLabels(e.left, mark + 2, m);
    ExpressionLabels(e.right, l.next, m);
    ShortCounts(l.out, r.out, jump, mark + 1, m);
  }

  lemma ConditionalLabels(e: Exp, mark: nat, m: nat)
    requires e.Conditional?
    ensures Count(GenExp(e, mark).out, m) == Between(m, mark, GenExp(e, mark).next)
    decreases e, 0
  {
    var c := GenExp(e.condition, mark + 2);
    var x := GenExp(e.thenExp, c.next);
    var y := GenExp(e.elseExp, x.next);
    assert GenExpKind(e, mark) == Code(ChoiceCode(c.out, x.out, y.out, mark, mark + 1), y.next);
    ExpressionLabels(e.condition, mark + 2, m);
    ExpressionLabels(e.thenExp, c.next, m);
    ExpressionLabels(e.elseExp, x.next, m);
    ChoiceCounts(c.out, x.out, y.out, mark, mark + 1, m);
  }

  // -------------------------------------------------------------------- statements

  lemma SimpleLabels(s: Simple, mark: nat, m: nat)
    ensures Count(GenSimple(s, mark).out, m) == Between(m, mark, GenSimple(s, mark).next)
  {
    match s
    case Nothing =>
    case Declare(slot, None) => CountOne(ZeroSlot(slot), m);
    case Declare(slot, Some(e)) =>
      ExpressionLabels(e, mark, m);
      CountLast(GenExp(e, mark).out, StoreSlot(slot), m);
    case Evaluate(e) => ExpressionLabels(e, mark, m);
  }

  lemma TestLabels(test: Ir.Option<Exp>, mark: nat, end: nat, m: nat)
    ensures Count(TestCode(test, mark, end).out, m) == Between(m, mark, TestCode(test, mark, end).next)
  {
    if test.Some? {
      ExpressionLabels(test.value, mark, m);
      CountAppend(GenExp(test.value, mark).out, [CmpImm(0), Je(end)], m);
      NoLabels([CmpImm(0), Je(end)], m);
    }
  }

  lemma {:induction false} CaseTestsLabels(cases: seq<Ir.Option<int>>, first: nat, m: nat)
    ensures Count(CaseTests(cases, first), m) == 0
  {
    if cases != [] {
      var head := if cases[0].Some? then [CmpImm(cases[0].value), Je(first)] else [];
      CaseTestsLabels(cases[1..], first + 1, m);
      CountAppend(head, CaseTests(cases[1..], first + 1), m);
      NoLabels(head, m);
    }
  }

  /** How many of the names have the number `m`. */
  function NameCount(names: seq<string>, env: Env, m: nat): nat {
    if names == [] then 0 else Flag(NameMark(env, names[0]) == m) + NameCount(names[1..], env, m)
  }

  lemma {:induction false} NameCountAppend(x: seq<string>, y: seq<string>, env: Env, m: nat)
    ensures NameCount(x + y, env, m) == NameCount(x, env, m) + NameCount(y, env, m)
  {
    if x == [] {
      assert x + y == y;
    } else {
      assert (x + y)[1..] == x[1..] + y;
      NameCountAppend(x[1..], y, env, m);
    }
  }

  lemma {:induction false} NameCountSame(names: seq<string>, env: Env, env': Env, m: nat)
    requires env.labels == env'.labels
    ensures NameCount(names, env, m) == NameCount(names, env', m)
  {
    if names != [] {
      NameCountSame(names[1..], env, env', m);
    }
  }

  lemma WhileCounts(c: Prog, body: Prog, start: nat, end: nat, m: nat)
    ensures Count(WhileCode(c, body, start, end), m) == Count(c, m) + Count(body, m) + Flag(m == start) + Flag(m == end)
  {
    var (test, back) := ([CmpImm(0), Je(end)], [Jmp(start), Label(end)]);
    CountAppend([Label(start)] + c + test + body, back, m);
    CountAppend([Label(start)] + c + test, body, m);
    CountAppend([Label(start)] + c, test, m);
    CountAppend([Label(start)], c, m);
    CountOne(Label(start), m);
    NoLabels(test, m);
    BackCounts(start, end, m);
  }

  lemma BackCounts(start: nat, end: nat, m: nat)
    ensures Count([Jmp(start), Label(end)], m) == Flag(m == end)
  {
    assert [Jmp(start), Label(end)] == [Jmp(start)] + [Label(end)];
    CountLast([Jmp(start)], Label(end), m);
    CountOne(Jmp(start), m);
  }

  lemma DoCounts(body: Prog, c: Prog, top: nat, again: nat, end: nat, m: nat)
    ensures Count(DoCode(body, c, top, again, end), m)
         == Count(c, m) + Count(body, m) + Flag(m == top) + Flag(m == again) + Flag(m == end)
  {
    var test := [CmpImm(0), Jne(top)];
    assert [CmpImm(0), Jne(top), Label(end)] == test + [Label(end)];
    CountAppend([Label(top)] + body + [Label(again)] + c, test + [Label(end)], m);
    CountLast(test, Label(end), m);
    NoLabels(test, m);
    CountAppend([Label(top)] + body + [Label(again)], c, m);
    CountLast([Label(top)] + body, Label(again), m);
    CountAppend([Label(top)], body, m);
    CountOne(Label(top), m);
  }

  lemma ForCounts(init: Prog, test: Prog, body: Prog, post: Prog, start: nat, again: nat, end: nat, m: nat)
    ensures Count(ForCode(init, test, body, post, start, again, end), m)
         == Count(init, m) + Count(test, m) + Count(body, m) + Count(post, m) + Flag(m == start) +
           Flag(m == again) + Flag(m == end)
  {
    var middle := [Label(start)] + test + body + [Label(again)] + post;
    CountAppend(init + middle, [Jmp(start), Label(end)], m);
    BackCounts(start, end, m);
    CountAppend(init, middle, m);
    CountAppend([Label(start)] + test + body + [Label(again)], post, m);
    CountLast([Label(start)] + test + body, Label(again), m);
    CountAppend([Label(start)] + test, body, m);
    CountAppend([Label(start)], test, m);
    CountOne(Label(start), m);
  }

  lemma SwitchCounts(c: Prog, tests: Prog, other: nat, body: Prog, end: nat, m: nat)
    ensures Count(SwitchCode(c, tests, other, body, end), m) ==
        Count(c, m) + Count(tests, m) + Count(body, m) + Flag(m == end)
  {
    CountLast(c + tests + [Jmp(other)] + body, Label(end), m);
    CountAppend(c + tests + [Jmp(other)], body, m);
    CountLast(c + tests, Jmp(other), m);
    CountAppend(c, tests, m);
  }

  /** The labels of a statement: those it numbers itself, those of its cases, its goto labels. */
  ghost predicate Counted(s: Stmt, env: Env, cases: nat, mark: nat, m: nat) {
    Count(GenStmt(s, env, cases, mark).out, m)
      == Between(m, mark, GenStmt(s, env, cases, mark).next) + Between(m, cases, cases + |Cases(s)|) +
        NameCount(Names(s), env, m)
  }

  /** The code of a statement defines exactly the labels it has numbered, the labels of its
      cases and its goto labels, each once. */
  lemma {:induction false} StatementLabels(s: Stmt, env: Env, cases: nat, mark: nat, m: nat)
    ensures Counted(s, env, cases, mark, m)
    decreases s, 1
  {
    var code := GenKind(s, env, cases, mark);
    match s
    case Plain(x) => SimpleLabels(x, mark, m);
    case Seq(_, _) => SeqLabels(s, env, cases, mark, m);
    case If(_, _, _) => IfLabels(s, env, cases, mark, m);
    case While(_, _) => WhileLabels(s, env, cases, mark, m);
    case DoWhile(_, _) => DoLabels(s, env, cases, mark, m);
    case For(_, _, _, _) => ForLabels(s, env, cases, mark, m);
    case Switch(_, _) => SwitchLabels(s, env, cases, mark, m);
    case Case(_, _) => CaseLabels(s, env, cases, mark, m);
    case Labelled(_, _) => LabelledLabels(s, env, cases, mark, m);
    case Return(Some(e)) =>
      ExpressionLabels(e, mark, m);
      CountLast(GenExp(e, mark).out, Jmp(env.end), m);
    case _ => CountOne(code.out[0], m);
  }

  lemma SeqLabels(s: Stmt, env: Env, cases: nat, mark: nat, m: nat)
    requires s.Seq?
    ensures Counted(s, env, cases, mark, m)
    decreases s, 0
  {
    var c := GenStmt(s.first, env, cases, mark);
    var d := GenStmt(s.second, env, Past(cases, s.first), c.next);
    assert GenKind(s, env, cases, mark) == GenSeq(s, env, cases, mark);
    assert GenSeq(s, env, cases, mark) == Code(c.out + d.out, d.next);
    StatementLabels(s.first, env, cases, mark, m);
    StatementLabels(s.second, env, Past(cases, s.first), c.next, m);
    CountAppend(c.out, d.out, m);
    NameCountAppend(Names(s.first), Names(s.second), env, m);
  }

  lemma IfLabels(s: Stmt, env: Env, cases: nat, mark: nat, m: nat)
    requires s.If?
    ensures Counted(s, env, cases, mark, m)
    decreases s, 0
  {
    var c := GenExp(s.condition, mark + 2);
    var d := GenStmt(s.thenPart, env, cases, c.next);
    var e := GenStmt(s.elsePart, env, Past(cases, s.thenPart), d.next);
    assert GenKind(s, env, cases, mark) == GenIf(s, env, cases, mark);
    assert GenIf(s, env, cases, mark) == Code(ChoiceCode(c.out, d.out, e.out, mark, mark + 1), e.next);
    ExpressionLabels(s.condition, mark + 2, m);
    StatementLabels(s.thenPart, env, cases, c.next, m);
    StatementLabels(s.elsePart, env, Past(cases, s.thenPart), d.next, m);
    ChoiceCounts(c.out, d.out, e.out, mark, mark + 1, m);
    NameCountAppend(Names(s.thenPart), Names(s.elsePart), env, m);
  }

  lemma WhileLabels(s: Stmt, env: Env, cases: nat, mark: nat, m: nat)
    requires s.While?
    ensures Counted(s, env, cases, mark, m)
    decreases s, 0
  {
    var inner := LoopEnv(env, mark + 1, mark);
    var c := GenExp(s.condition, mark + 2);
    var d := GenStmt(s.body, inner, cases, c.next);
    assert GenKind(s, env, cases, mark) == GenWhile(s, env, cases, mark);
    assert GenWhile(s, env, cases, mark) == Code(WhileCode(c.out, d.out, mark, mark + 1), d.next);
    ExpressionLabels(s.condition, mark + 2, m);
    StatementLabels(s.body, inner, cases, c.next, m);
    NameCountSame(Names(s.body), env, inner, m);
    WhileCounts(c.out, d.out, mark, mark + 1, m);
  }

  lemma DoLabels(s: Stmt, env: Env, cases: nat, mark: nat, m: nat)
    requires s.DoWhile?
    ensures Counted(s, env, cases, mark, m)
    decreases s, 0
  {
    var inner := LoopEnv(env, mark + 2, mark + 1);
    var d := GenStmt(s.body, inner, cases, mark + 3);
    var c := GenExp(s.condition, d.next);
    assert GenKind(s, env, cases, mark) == GenDo(s, env, cases, mark);
    assert GenDo(s, env, cases, mark) == Code(DoCode(d.out, c.out, mark, mark + 1, mark + 2), c.next);
    StatementLabels(s.body, inner, cases, mark + 3, m);
    ExpressionLabels(s.condition, d.next, m);
    NameCountSame(Names(s.body), env, inner, m);
    DoCounts(d.out, c.out, mark, mark + 1, mark + 2, m);
  }

  lemma ForLabels(s: Stmt, env: Env, cases: nat, mark: nat, m: nat)
    requires s.For?
    ensures Counted(s, env, cases, mark, m)
    decreases s, 0
  {
    var inner := LoopEnv(env, mark + 2, mark + 1);
    var i := GenSimple(s.init, mark + 3);
    var c := TestCode(s.test, i.next, mark + 2);
    var d := GenStmt(s.body, inner, cases, c.next);
    var z := GenSimple(s.post, d.next);
    assert GenKind(s, env, cases, mark) == GenFor(s, env, cases, mark);
    assert GenFor(s, env, cases, mark) == Code(ForCode(i.out, c.out, d.out, z.out, mark, mark + 1, mark + 2), z.next);
    SimpleLabels(s.init, mark + 3, m);
    TestLabels(s.test, i.next, mark + 2, m);
    StatementLabels(s.body, inner, cases, c.next, m);
    SimpleLabels(s.post, d.next, m);
    NameCountSame(Names(s.body), env, inner, m);
    ForCounts(i.out, c.out, d.out, z.out, mark, mark + 1, mark + 2, m);
  }

  lemma SwitchLabels(s: Stmt, env: Env, cases: nat, mark: nat, m: nat)
    requires s.Switch?
    ensures Counted(s, env, cases, mark, m)
    decreases s, 0
  {
    var inner := SwitchEnv(env, mark);
    var c := GenExp(s.control, mark + 1);
    var values := Cases(s.body);
    var d := GenStmt(s.body, inner, c.next, c.next + |values|);
    var (tests, other) := (CaseTests(values, c.next), DefaultMark(values, c.next, mark));
    assert GenKind(s, env, cases, mark) == GenSwitch(s, env, cases, mark);
    assert GenSwitch(s, env, cases, mark) == Code(SwitchCode(c.out, tests, other, d.out, mark), d.next);
    ExpressionLabels(s.control, mark + 1, m);
    CaseTestsLabels(values, c.next, m);
    StatementLabels(s.body, inner, c.next, c.next + |values|, m);
    NameCountSame(Names(s.body), env, inner, m);
    SwitchCounts(c.out, tests, other, d.out, mark, m);
  }

  lemma CaseLabels(s: Stmt, env: Env, cases: nat, mark: nat, m: nat)
    requires s.Case?
    ensures Counted(s, env, cases, mark, m)
    decreases s, 0
  {
    var d := GenStmt(s.labelled, env, cases + 1, mark);
    assert GenKind(s, env, cases, mark) == GenCase(s, env, cases, mark);
    assert GenCase(s, env, cases, mark) == Code([Label(cases)] + d.out, d.next);
    StatementLabels(s.labelled, env, cases + 1, mark, m);
    CountAppend([Label(cases)], d.out, m);
    CountOne(Label(cases), m);
  }

  lemma LabelledLabels(s: Stmt, env: Env, cases: nat, mark: nat, m: nat)
    requires s.Labelled?
    ensures Counted(s, env, cases, mark, m)
    decreases s, 0
  {
    var d := GenStmt(s.labelled, env, cases, mark);
    var own := NameMark(env, s.name);
    assert GenKind(s, env, cases, mark) == GenLabelled(s, env, cases, mark);
    assert GenLabelled(s, env, cases, mark) == Code([Label(own)] + d.out, d.next);
    StatementLabels(s.labelled, env, cases, mark, m);
    CountAppend([Label(own)], d.out, m);
    CountOne(Label(own), m);
    NameCountAppend([s.name], Names(s.labelled), env, m);
    assert [s.name][1..] == [];
    assert NameCount([s.name], env, m) == Flag(own == m) + NameCount([], env, m);
  }

  // -------------------------------------------------------------- what counts mean

  lemma {:induction false} Occurs(code: Prog, m: nat) returns (k: nat)
    requires Count(code, m) > 0
    ensures k < |code| && code[k] == Label(m)
  {
    if code[0] == Label(m) {
      k := 0;
    } else {
      k := Occurs(code[1..], m);
      k := k + 1;
    }
  }

  /** A label counted in a piece of code is defined in the program that holds it. */
  lemma CountedIsDefined(prog: Prog, p: nat, code: Prog, m: nat)
    requires CodeAt(prog, p, code) && Count(code, m) > 0
    ensures Defined(prog, m)
  {
    var k := Occurs(code, m);
    assert Agrees(prog, p, code, k);
    assert LabelAt(prog, m, p + k);
  }

  lemma {:induction false} CountsTwo(code: Prog, m: nat, i: nat, j: nat)
    requires i < j < |code| && code[i] == Label(m) && code[j] == Label(m)
    ensures Count(code, m) >= 2
  {
    if i == 0 {
      CountsOne(code[1..], m, j - 1);
    } else {
      CountsTwo(code[1..], m, i - 1, j - 1);
    }
  }

  lemma {:induction false} CountsOne(code: Prog, m: nat, i: nat)
    requires i < |code| && code[i] == Label(m)
    ensures Count(code, m) >= 1
  {
    if i > 0 {
      CountsOne(code[1..], m, i - 1);
    }
  }

  /** No label is defined twice if none is counted twice. */
  lemma OnceIsDistinct(prog: Prog)
    requires forall m: nat {:trigger Count(prog, m)} :: Count(prog, m) <= 1
    ensures DistinctLabels(prog)
  {
    forall m: nat, p: nat, q: nat | LabelAt(prog, m, p) && LabelAt(prog, m, q) ensures p == q {
      assert Count(prog, m) <= 1;
      if p < q {
        CountsTwo(prog, m, p, q);
      } else if q < p {
        CountsTwo(prog, m, q, p);
      }
    }
  }
}
