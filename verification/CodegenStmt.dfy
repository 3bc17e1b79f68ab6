/** The stack code for statements. */
module CodegenStmt {
  import Ir
  import opened StackMachine
  import opened CodegenExpr
  import opened StmtRuns
  import opened Statements

  function NameMark(env: Env, name: string): nat {
    if name in env.labels.number then env.labels.number[name] else 0
  }

  function GenSimple(s: Simple, mark: nat): (c: Code)
    ensures c.next >= mark
  {
    match s
    case Nothing => Code([], mark)
    case Declare(slot, None) => Code([ZeroSlot(slot)], mark)
    case Declare(slot, Some(e)) =>
      var x := GenExp(e, mark);
      Code(x.out + [StoreSlot(slot)], x.next)
    case Evaluate(e) => GenExp(e, mark)
  }

  /** The comparisons of a switch, each with a jump to its label. */
  function CaseTests(cases: seq<Ir.Option<int>>, first: nat): Prog {
    if cases == [] then []
    else (if cases[0].Some? then [CmpImm(cases[0].value), Je(first)] else []) + CaseTests(cases[1..], first + 1)
  }

  /** Where a switch goes when no comparison holds. */
  function DefaultMark(cases: seq<Ir.Option<int>>, first: nat, end: nat): nat {
    var d := LastDefault(cases, |cases|);
    if d.Some? then first + d.value else end
  }

  /** The surroundings of a loop body. */
  function LoopEnv(env: Env, brk: nat, cont: nat): Env {
    env.(marks := Ir.Some(Marks(brk, cont)))
  }

  /** A switch is the innermost place to break from; `continue` is passed on. */
  function SwitchEnv(env: Env, end: nat): Env {
    LoopEnv(env, end, if env.marks.Some? then env.marks.value.cont else end)
  }

  function TestCode(test: Ir.Option<Exp>, mark: nat, end: nat): (c: Code)
    ensures c.next >= mark
  {
    if test.None? then Code([], mark)
    else
      var x := GenExp(test.value, mark);
      Code(x.out + [CmpImm(0), Je(end)], x.next)
  }

  function WhileCode(c: Prog, body: Prog, start: nat, end: nat): Prog {
    [Label(start)] + c + [CmpImm(0), Je(end)] + body + [Jmp(start), Label(end)]
  }

  function DoCode(body: Prog, c: Prog, top: nat, again: nat, end: nat): Prog {
    [Label(top)] + body + [Label(again)] + c + [CmpImm(0), Jne(top), Label(end)]
  }

  function ForCode(init: Prog, test: Prog, body: Prog, post: Prog, start: nat, again: nat, end: nat): Prog {
    init + ([Label(start)] + test + body + [Label(again)] + post) + [Jmp(start), Label(end)]
  }

  function SwitchCode(c: Prog, tests: Prog, other: nat, body: Prog, end: nat): Prog {
    c + tests + [Jmp(other)] + body + [Label(end)]
  }

  function GenStmt(s: Stmt, env: Env, cases: nat, mark: nat): (c: Code)
    ensures c.next >= mark
    decreases s, 2
  {
    GenKind(s, env, cases, mark)
  }

  function GenKind(s: Stmt, env: Env, cases: nat, mark: nat): (c: Code)
    ensures c.next >= mark
    decreases s, 1
  {
    match s
    case Plain(x) => GenSimple(x, mark)
    case Seq(x, y) => GenSeq(s, env, cases, mark)
    case If(_, _, _) => GenIf(s, env, cases, mark)
    case While(_, _) => GenWhile(s, env, cases, mark)
    case DoWhile(_, _) => GenDo(s, env, cases, mark)
    case For(_, _, _, _) => GenFor(s, env, cases, mark)
    case Switch(_, _) => GenSwitch(s, env, cases, mark)
    case Case(_, x) => GenCase(s, env, cases, mark)
    case Labelled(_, x) => GenLabelled(s, env, cases, mark)
    case Goto(n) => Code([Jmp(NameMark(env, n))], mark)
    case Break => Code([Jmp(if env.marks.Some? then env.marks.value.brk else env.end)], mark)
    case Continue => Code([Jmp(if env.marks.Some? then env.marks.value.cont else env.end)], mark)
    case Return(None) => Code([Jmp(env.end)], mark)
    case Return(Some(e)) =>
      var x := GenExp(e, mark);
      Code(x.out + [Jmp(env.end)], x.next)
  }

  /** The first case label of what follows `s`. */
  function Past(cases: nat, s: Stmt): nat {
    cases + |Cases(s)|
  }

  function GenSeq(s: Stmt, env: Env, cases: nat, mark: nat): (c: Code)
    requires s.Seq?
    ensures c.next >= mark
    decreases s, 0
  {
    var c := GenStmt(s.first, env, cases, mark);
    var d := GenStmt(s.second, env, Past(cases, s.first), c.next);
    Code(c.out + d.out, d.next)
  }

  function GenIf(s: Stmt, env: Env, cases: nat, mark: nat): (c: Code)
    requires s.If?
    ensures c.next >= mark
    decreases s, 0
  {
    var c := GenExp(s.condition, mark + 2);
    var d := GenStmt(s.thenPart, env, cases, c.next);
    var e := GenStmt(s.elsePart, env, Past(cases, s.thenPart), d.next);
    Code(ChoiceCode(c.out, d.out, e.out, mark, mark + 1), e.next)
  }

  function GenWhile(s: Stmt, env: Env, cases: nat, mark: nat): (c: Code)
    requires s.While?
    ensures c.next >= mark
    decreases s, 0
  {
    var c := GenExp(s.condition, mark + 2);
    var d := GenStmt(s.body, LoopEnv(env, mark + 1, mark), cases, c.next);
    Code(WhileCode(c.out, d.out, mark, mark + 1), d.next)
  }

  function GenDo(s: Stmt, env: Env, cases: nat, mark: nat): (c: Code)
    requires s.DoWhile?
    ensures c.next >= mark
    decreases s, 0
  {
    var d := GenStmt(s.body, LoopEnv(env, mark + 2, mark + 1), cases, mark + 3);
    var c := GenExp(s.condition, d.next);
    Code(DoCode(d.out, c.out, mark, mark + 1, mark + 2), c.next)
  }

  function GenFor(s: Stmt, env: Env, cases: nat, mark: nat): (c: Code)
    requires s.For?
    ensures c.next >= mark
    decreases s, 0
  {
    var i := GenSimple(s.init, mark + 3);
    var c := TestCode(s.test, i.next, mark + 2);
    var d := GenStmt(s.body, LoopEnv(env, mark + 2, mark + 1), cases, c.next);
    var p := GenSimple(s.post, d.next);
    Code(ForCode(i.out, c.out, d.out, p.out, mark, mark + 1, mark + 2), p.next)
  }

  function GenSwitch(s: Stmt, env: Env, cases: nat, mark: nat): (c: Code)
    requires s.Switch?
    ensures c.next >= mark
    decreases s, 0
  {
    var c := GenExp(s.control, mark + 1);
    var values := Cases(s.body);
    var d := GenStmt(s.body, SwitchEnv(env, mark), c.next, c.next + |values|);
    Code(SwitchCode(c.out, CaseTests(values, c.next), DefaultMark(values, c.next, mark), d.out, mark), d.next)
  }

  function GenCase(s: Stmt, env: Env, cases: nat, mark: nat): (c: Code)
    requires s.Case?
    ensures c.next >= mark
    decreases s, 0
  {
    var d := GenStmt(s.labelled, env, cases + 1, mark);
    Code([Label(cases)] + d.out, d.next)
  }

  function GenLabelled(s: Stmt, env: Env, cases: nat, mark: nat): (c: Code)
    requires s.Labelled?
    ensures c.next >= mark
    decreases s, 0
  {
    var d := GenStmt(s.labelled, env, cases, mark);
    Code([Label(NameMark(env, s.name))] + d.out, d.next)
  }

  /** A `continue` straight in a switch is compiled as a `break` exactly where the switch is
      in no loop. (C11 section 6.8.6.2 does not allow it there.) */
  lemma ContinueInSwitch(control: Exp, env: Env, cases: nat, mark: nat)
    requires env.marks.Some? ==> env.marks.value.cont != mark
    ensures env.marks.None? <==>
            GenStmt(Switch(control, Continue), env, cases, mark) == GenStmt(Switch(control, Break), env, cases, mark)
  {
    var (c, inner) := (GenExp(control, mark + 1), SwitchEnv(env, mark));
    SwitchOfJump(control, Continue, inner.marks.value.cont, env, cases, mark);
    SwitchOfJump(control, Break, mark, env, cases, mark);
    SameMiddle(c.out + [Jmp(mark)], Jmp(inner.marks.value.cont), Jmp(mark), [Label(mark)]);
  }

  /** A switch without cases, whose body is a jump. */
  lemma SwitchOfJump(control: Exp, s: Stmt, to: nat, env: Env, cases: nat, mark: nat)
    requires (s.Break? && to == mark) || (s.Continue? && to == SwitchEnv(env, mark).marks.value.cont)
    ensures var c := GenExp(control, mark + 1);
            GenStmt(Switch(control, s), env, cases, mark) ==
              Code(c.out + [Jmp(mark)] + [Jmp(to)] + [Label(mark)], c.next)
  {
    var (all, c, inner) := (Switch(control, s), GenExp(control, mark + 1), SwitchEnv(env, mark));
    assert all.body == s && Cases(s) == [] && |Cases(s)| == 0 && CaseTests([], c.next) == [] &&
        DefaultMark([], c.next, mark) == mark;
    assert GenKind(all, env, cases, mark) == GenSwitch(all, env, cases, mark);
    assert GenKind(s, inner, c.next, c.next) == Code([Jmp(to)], c.next);
    assert GenStmt(s, inner, c.next, c.next) == GenKind(s, inner, c.next, c.next);
    assert GenSwitch(all, env, cases, mark) == Code(SwitchCode(c.out, [], mark, [Jmp(to)], mark), c.next);
    assert c.out + [] == c.out;
  }

  lemma SameMiddle(head: Prog, i: Ins, j: Ins, tail: Prog)
    ensures head + [i] + tail == head + [j] + tail <==> i == j
  {
    assert (head + [i] + tail)[|head|] == i && (head + [j] + tail)[|head|] == j;
  }
}
