/** The code generator itself: it appends to its output, counts labels up, keeps the labels
    of the loops it is inside on two stacks, and looks goto labels up by name. */
module CodeEmitter {
  import Ir
  import opened StackMachine
  import opened CodegenExpr
  import opened StmtRuns
  import opened Statements
  import opened CodegenStmt
  import opened CodegenFunction

  datatype LabelName = LabelName(name: string, number: nat)

  function Numbers(labels: seq<LabelName>): map<string, nat>
    decreases |labels|
  {
    if labels == [] then map[]
    else
      var last := labels[|labels| - 1];
      Numbers(labels[..|labels| - 1])[last.name := last.number]
  }

  ghost predicate Unlike(labels: seq<LabelName>) {
    forall i, j | 0 <= i < j < |labels| :: labels[i].name != labels[j].name
  }

  lemma {:induction false} NumbersHave(labels: seq<LabelName>)
    requires Unlike(labels)
    ensures forall i | 0 <= i < |labels| ::
              labels[i].name in Numbers(labels) && Numbers(labels)[labels[i].name] == labels[i].number
    ensures forall n | n in Numbers(labels) :: exists i :: 0 <= i < |labels| && labels[i].name == n
    decreases |labels|
  {
    if labels != [] {
      var front := labels[..|labels| - 1];
      NumbersHave(front);
      forall n | n in Numbers(labels) ensures exists i :: 0 <= i < |labels| && labels[i].name == n {
        if n != labels[|labels| - 1].name {
          var i :| 0 <= i < |front| && front[i].name == n;
          assert labels[i].name == n;
        }
      }
    }
  }

  lemma Regroup(o: Prog, v: Prog, w: Prog, x: Prog, y: Prog, z: Prog)
    ensures o + v + w + x + y + z == o + (v + w + x + y + z)
  {
  }

  lemma {:induction false} CaseTestsAppend(x: seq<Ir.Option<int>>, y: seq<Ir.Option<int>>, first: nat)
    ensures CaseTests(x + y, first) == CaseTests(x, first) + CaseTests(y, first + |x|)
  {
    if x == [] {
      assert x + y == y;
    } else {
      assert (x + y)[1..] == x[1..] + y;
      CaseTestsAppend(x[1..], y, first + 1);
    }
  }

  /** The label of the last `default`, if there is one. */
  function DefaultLabel(cases: seq<Ir.Option<int>>, first: nat, otherwise: Ir.Option<nat>): Ir.Option<nat>
    decreases |cases|
  {
    var n := |cases|;
    if n == 0 then otherwise
    else if cases[n - 1].None? then Ir.Some(first + n - 1)
    else DefaultLabel(cases[..n - 1], first, otherwise)
  }

  lemma {:induction false} DefaultLabelAppend(x: seq<Ir.Option<int>>, y: seq<Ir.Option<int>>, first: nat,
      otherwise: Ir.Option<nat>)
    ensures DefaultLabel(x + y, first, otherwise) == DefaultLabel(y, first + |x|, DefaultLabel(x, first, otherwise))
    decreases |y|
  {
    if y == [] {
      assert x + y == x;
    } else {
      assert (x + y)[..|x + y| - 1] == x + y[..|y| - 1];
      DefaultLabelAppend(x, y[..|y| - 1], first, otherwise);
    }
  }

  lemma {:induction false} DefaultLabelIsLast(cases: seq<Ir.Option<int>>, n: nat, first: nat, end: nat)
    requires n <= |cases|
    ensures var (d, l) := (LastDefault(cases, n), DefaultLabel(cases[..n], first, Ir.None));
            if d.Some? then l == Ir.Some(first + d.value) else l.None?
  {
    if n > 0 {
      assert cases[..n][..n - 1] == cases[..n - 1];
      DefaultLabelIsLast(cases, n - 1, first, end);
    }
  }

  /** `continue` is let through wherever there is something to break from. */
  lemma {:induction false} ProperAnywhere(s: Stmt, inLoop: bool, breakable: bool, labels: Labels)
    requires Proper(s, inLoop, breakable, labels)
    ensures Proper(s, true, breakable, labels)
  {
    match s
    case Seq(x, y) =>
      ProperAnywhere(x, inLoop, breakable, labels);
      ProperAnywhere(y, inLoop, breakable, labels);
    case If(_, x, y) =>
      ProperAnywhere(x, inLoop, breakable, labels);
      ProperAnywhere(y, inLoop, breakable, labels);
    case Switch(_, body) => ProperAnywhere(body, inLoop, true, labels);
    case Case(_, x) => ProperAnywhere(x, inLoop, breakable, labels);
    case Labelled(_, x) => ProperAnywhere(x, inLoop, breakable, labels);
    case _ =>
  }

  function Entries(names: seq<string>, mark: nat): seq<LabelName> {
    seq(|names|, k requires 0 <= k < |names| => LabelName(names[k], mark + k))
  }

  lemma EntriesAppend(x: seq<string>, y: seq<string>, mark: nat)
    ensures Entries(x + y, mark) == Entries(x, mark) + Entries(y, mark + |x|)
  {
  }

  lemma {:induction false} EntriesAreNumbered(names: seq<string>, mark: nat)
    ensures Numbers(Entries(names, mark)) == Numbered(names, mark).number
    decreases |names|
  {
    if names != [] {
      var front := names[..|names| - 1];
      assert Entries(names, mark)[..|names| - 1] == Entries(front, mark);
      EntriesAreNumbered(front, mark);
    }
  }

  lemma EnvIsFunctionEnv(body: Stmt, mark: nat, labels: seq<LabelName>)
    requires labels == [] + Entries(Names(body), mark + 1)
    ensures Env(mark, Ir.None, Labels(Numbers(labels))) == FunctionEnv(body, mark)
  {
    EntriesAreNumbered(Names(body), mark + 1);
    assert labels == Entries(Names(body), mark + 1);
  }

  lemma DistinctParts(x: seq<string>, y: seq<string>)
    requires Distinct(x + y)
    ensures Distinct(x) && Distinct(y) && forall n | n in x :: n !in y
  {
    var all := x + y;
    assert forall k | 0 <= k < |x| :: x[k] == all[k];
    assert forall k | 0 <= k < |y| :: y[k] == all[|x| + k];
    forall n | n in x ensures n !in y {
      var i :| 0 <= i < |x| && x[i] == n;
      assert all[i] == n;
    }
  }

  /** A name that is numbered after more have been was numbered before, or is one of them. */
  lemma OldOrNew(labels: seq<LabelName>, names: seq<string>, mark: nat, n: string)
    requires Unlike(labels) && Unlike(labels + Entries(names, mark)) && n in Numbers(labels + Entries(names, mark))
    ensures n in Numbers(labels) || n in names
  {
    var all := labels + Entries(names, mark);
    NumbersHave(labels);
    NumbersHave(all);
    var i :| 0 <= i < |all| && all[i].name == n;
    if i < |labels| {
      assert labels[i].name == n;
    } else {
      assert names[i - |labels|] == n;
    }
  }

  /** Names that differ from all the numbered ones. */
  lemma StillNew(labels: seq<LabelName>, names: seq<string>, mark: nat, more: seq<string>)
    requires Unlike(labels) && Unlike(labels + Entries(names, mark))
    requires forall n | n in more :: n !in Numbers(labels)
    requires forall n | n in names :: n !in more
    ensures forall n | n in more :: n !in Numbers(labels + Entries(names, mark))
  {
    forall n | n in Numbers(labels + Entries(names, mark))
      ensures n in Numbers(labels) || n in names
    {
      OldOrNew(labels, names, mark, n);
    }
  }

  lemma SwitchIs(s: Stmt, env: Env, cases: nat, end: nat)
    requires s.Switch?
    ensures var (c, values) := (GenExp(s.control, end + 1), Cases(s.body));
            var d := GenStmt(s.body, SwitchEnv(env, end), c.next, c.next + |values|);
            GenStmt(s, env, cases, end) ==
            Code(SwitchCode(c.out, CaseTests(values, c.next), DefaultMark(values, c.next, end), d.out, end), d.next)
  {
    assert GenKind(s, env, cases, end) == GenSwitch(s, env, cases, end);
  }

  class Emitter {
    var out: Prog
    var labelCount: nat
    var endLabel: nat
    var breakLabels: seq<nat>
    var continueLabels: seq<nat>
    var labels: seq<LabelName>

    constructor ()
      ensures Valid() && out == [] && labelCount == 0 && breakLabels == [] && labels == []
    {
      out, labelCount, endLabel, breakLabels, continueLabels, labels := [], 0, 0, [], [], [];
    }

    ghost predicate Valid()
      reads this
    {
      |breakLabels| == |continueLabels| && Unlike(labels)
    }

    /** The labels a statement can mention at this point. */
    ghost function Around(): Env
      reads this
      requires Valid()
    {
      var d := |breakLabels|;
      Env(endLabel, if d == 0 then Ir.None
        else Ir.Some(Marks(breakLabels[d - 1], continueLabels[d - 1])), Labels(Numbers(labels)))
    }

    /** Nothing but the output and the label count has changed. */
    twostate predicate Emitted(c: Code)
      reads this
    {
      && out == old(out) + c.out && labelCount == c.next && endLabel == old(endLabel)
      && breakLabels == old(breakLabels) && continueLabels == old(continueLabels) && labels == old(labels)
    }

    method Emit(code: Prog)
      modifies this`out
      ensures out == old(out) + code
    {
      out := out + code;
    }

    // ------------------------------------------------------------------ expressions

    method GenerateExp(e: Exp)
      modifies this`out, this`labelCount
      ensures Emitted(GenExp(e, old(labelCount)))
      decreases e, 1
    {
      ghost var c := GenExpKind(e, labelCount);
      match e
      case IntLit(n) => Emit([MovImm(n)]);
      case Variable(s) => Emit([LoadSlot(s)]);
      case Binop(_, _, _) => GenerateBinop(e);
      case LogicalAnd(_, _) => GenerateShort(e, true);
      case LogicalOr(_, _) => GenerateShort(e, false);
      case Conditional(_, _, _) => GenerateConditional(e);
      case Comma(left, right) =>
        GenerateExp(left);
        GenerateExp(right);
      case Assign(s, right) =>
        GenerateExp(right);
        Emit([PushAx, Lea(s), PopDx, StoreAt, MovDxAx]);
      case IncDec(s, up, prefix) =>
        Emit(StepCode(s, up, prefix));
      case Negation(operand) =>
        GenerateExp(operand);
        Emit([NegAx]);
      case BitwiseComplement(operand) =>
        GenerateExp(operand);
        Emit([NotAx]);
      case LogicalNegation(operand) =>
        GenerateExp(operand);
        Emit([CmpImm(0), MovImm(0), SetAl(IsEqual)]);
    }

    method GenerateBinop(e: Exp)
      requires e.Binop?
      modifies this`out, this`labelCount
      ensures Emitted(GenExp(e, old(labelCount)))
      decreases e, 0
    {
      ghost var l := GenExp(e.left, labelCount);
      ghost var r := GenExp(e.right, l.next);
      assert GenExpKind(e, labelCount) == Code(l.out + [PushAx] + r.out + [PopDx] + BinopTail(e.op), r.next);
      GenerateExp(e.left);
      Emit([PushAx]);
      GenerateExp(e.right);
      Emit([PopDx]);
      Emit(BinopTail(e.op));
      Regroup(old(out), l.out, [PushAx], r.out, [PopDx], BinopTail(e.op));
    }

    method GenerateShort(e: Exp, isAnd: bool)
      requires if isAnd then e.LogicalAnd? else e.LogicalOr?
      modifies this`out, this`labelCount
      ensures Emitted(GenExp(e, old(labelCount)))
      decreases e, 0
    {
      var away, end := labelCount, labelCount + 1;
      labelCount := labelCount + 2;
      var jump := if isAnd then Je(away) else Jne(away);
      var tail := [MovImm(Flag(isAnd)), Jmp(end), Label(away), MovImm(Flag(!isAnd)), Label(end)];
      ghost var l := GenExp(e.left, labelCount);
      ghost var r := GenExp(e.right, l.next);
      assert GenExpKind(e, old(labelCount)) == Code(ShortCode(l.out, r.out, jump, end), r.next);
      GenerateExp(e.left);
      Emit([CmpImm(0), jump]);
      GenerateExp(e.right);
      Emit([CmpImm(0), jump]);
      Emit(tail);
      Regroup(old(out), l.out, [CmpImm(0), jump], r.out, [CmpImm(0), jump], tail);
    }

    method GenerateConditional(e: Exp)
      requires e.Conditional?
      modifies this`out, this`labelCount
      ensures Emitted(GenExp(e, old(labelCount)))
      decreases e, 0
    {
      var other, end := labelCount, labelCount + 1;
      labelCount := labelCount + 2;
      ghost var c := GenExp(e.condition, labelCount);
      ghost var x := GenExp(e.thenExp, c.next);
      ghost var y := GenExp(e.elseExp, x.next);
      assert GenExpKind(e, old(labelCount)) == Code(ChoiceCode(c.out, x.out, y.out, other, end), y.next);
      GenerateExp(e.condition);
      Emit([CmpImm(0), Je(other)]);
      GenerateExp(e.thenExp);
      Emit([Jmp(end), Label(other)]);
      GenerateExp(e.elseExp);
      Regroup(old(out), c.out, [CmpImm(0), Je(other)], x.out, [Jmp(end), Label(other)], y.out);
      Emit([Label(end)]);
    }

    // ----------------------------------------------------------------------- labels

    /** The number of a goto label, which gets the next one when it is new. */
    method LabelForName(name: string) returns (number: nat)
      requires Valid()
      modifies this`labels, this`labelCount
      ensures Valid() && name in Numbers(labels) && Numbers(labels)[name] == number
      ensures if name in Numbers(old(labels)) then labels == old(labels) && labelCount == old(labelCount)
              else
                && labels == old(labels) + [LabelName(name, number)]
                && number == old(labelCount) && labelCount == number + 1
    {
      NumbersHave(labels);
      for i := 0 to |labels|
        invariant labels == old(labels) && labelCount == old(labelCount)
        invariant forall j | 0 <= j < i :: labels[j].name != name
      {
        if labels[i].name == name {
          return labels[i].number;
        }
      }
      number := labelCount;
      labels := labels + [LabelName(name, number)];
      labelCount := labelCount + 1;
      NumbersHave(labels);
    }

    method PushLoop(brk: nat, cont: nat)
      requires Valid()
      modifies this`breakLabels, this`continueLabels
      ensures Valid() && breakLabels == old(breakLabels) + [brk] && continueLabels == old(continueLabels) + [cont]
      ensures Around() == LoopEnv(old(Around()), brk, cont)
    {
      breakLabels := breakLabels + [brk];
      continueLabels := continueLabels + [cont];
    }

    method PopLoop()
      requires Valid()
      modifies this`breakLabels, this`continueLabels
      ensures Valid()
      ensures var d := |old(breakLabels)|;
              if d == 0 then breakLabels == [] && continueLabels == []
              else breakLabels == old(breakLabels)[..d - 1] && continueLabels == old(continueLabels)[..d - 1]
    {
      if |breakLabels| > 0 {
        breakLabels := breakLabels[..|breakLabels| - 1];
        continueLabels := continueLabels[..|continueLabels| - 1];
      }
    }

    // ------------------------------------------------------------------- statements

    method GenerateSimple(s: Simple)
      modifies this`out, this`labelCount
      ensures Emitted(GenSimple(s, old(labelCount)))
    {
      match s
      case Nothing =>
      case Declare(slot, None) => Emit([ZeroSlot(slot)]);
      case Declare(slot, Some(e)) =>
        GenerateExp(e);
        Emit([StoreSlot(slot)]);
      case Evaluate(e) => GenerateExp(e);
    }

    /** The comparisons for the case labels in a statement; each gets the next number. The
        label of the last `default` is returned. */
    method EmitSwitchTests(s: Stmt, given: Ir.Option<nat>) returns (default_: Ir.Option<nat>)
      modifies this`out, this`labelCount
      ensures out == old(out) + CaseTests(Cases(s), old(labelCount)) && labelCount == old(labelCount) + |Cases(s)|
      ensures default_ == DefaultLabel(Cases(s), old(labelCount), given)
      decreases s, 1
    {
      default_ := given;
      match s
      case Case(v, x) => default_ := EmitTestsOfCase(s, v, x, given);
      case Seq(x, y) => default_ := EmitTestsOfBoth(s, x, y, given);
      case If(_, x, y) => default_ := EmitTestsOfBoth(s, x, y, given);
      case While(_, body) => default_ := EmitSwitchTests(body, default_);
      case DoWhile(body, _) => default_ := EmitSwitchTests(body, default_);
      case For(_, _, _, body) => default_ := EmitSwitchTests(body, default_);
      case Labelled(_, x) => default_ := EmitSwitchTests(x, default_);
      case _ =>
    }

    method EmitTestsOfCase(s: Stmt, v: Ir.Option<int>, x: Stmt, given: Ir.Option<nat>)
        returns (default_: Ir.Option<nat>)
      requires s == Case(v, x)
      modifies this`out, this`labelCount
      ensures var all := [v] + Cases(x);
              && out == old(out) + CaseTests(all, old(labelCount)) && labelCount == old(labelCount) + |all|
              && default_ == DefaultLabel(all, old(labelCount), given)
      decreases s, 0
    {
      CaseTestsAppend([v], Cases(x), labelCount);
      DefaultLabelAppend([v], Cases(x), labelCount, given);
      default_ := EmitTest(v, given);
      default_ := EmitSwitchTests(x, default_);
    }

    method EmitTestsOfBoth(s: Stmt, x: Stmt, y: Stmt, given: Ir.Option<nat>) returns (default_: Ir.Option<nat>)
      requires s == Seq(x, y) || (s.If? && s.thenPart == x && s.elsePart == y)
      modifies this`out, this`labelCount
      ensures var all := Cases(x) + Cases(y);
              && out == old(out) + CaseTests(all, old(labelCount)) && labelCount == old(labelCount) + |all|
              && default_ == DefaultLabel(all, old(labelCount), given)
      decreases s, 0
    {
      CaseTestsAppend(Cases(x), Cases(y), labelCount);
      DefaultLabelAppend(Cases(x), Cases(y), labelCount, given);
      default_ := EmitSwitchTests(x, given);
      default_ := EmitSwitchTests(y, default_);
    }

    method EmitTest(v: Ir.Option<int>, given: Ir.Option<nat>) returns (default_: Ir.Option<nat>)
      modifies this`out, this`labelCount
      ensures out == old(out) + CaseTests([v], old(labelCount)) && labelCount == old(labelCount) + 1
      ensures default_ == DefaultLabel([v], old(labelCount), given)
    {
      default_ := given;
      assert [v][1..] == [] && [v][..0] == [];
      assert CaseTests([], labelCount + 1) == [] && DefaultLabel([], labelCount, given) == given;
      if v.Some? {
        Emit([CmpImm(v.value), Je(labelCount)]);
      } else {
        default_ := Ir.Some(labelCount);
      }
      labelCount := labelCount + 1;
    }

    /** Every break, continue and goto in a statement has a label here. */
    ghost predicate Allows(s: Stmt)
      reads this
    {
      Valid() && Proper(s, |breakLabels| > 0, |breakLabels| > 0, Labels(Numbers(labels)))
    }

    /** The code of a statement; `cases` is the number of its first case label. */
    method GenerateStatement(s: Stmt, cases: nat)
      requires Allows(s)
      modifies this
      ensures Valid() && Emitted(GenStmt(s, old(Around()), cases, old(labelCount)))
      decreases s, 2
    {
      ghost var c := GenKind(s, Around(), cases, labelCount);
      match s
      case Plain(x) => GenerateSimple(x);
      case Seq(x, y) =>
        assert c == GenSeq(s, Around(), cases, labelCount);
        GenerateStatement(x, cases);
        GenerateStatement(y, cases + |Cases(x)|);
      case If(_, _, _) => GenerateIf(s, cases);
      case While(_, _) => GenerateWhile(s, cases);
      case DoWhile(_, _) => GenerateDoWhile(s, cases);
      case For(_, _, _, _) => GenerateFor(s, cases);
      case Switch(_, _) => GenerateSwitch(s, cases);
      case Case(_, x) =>
        assert c == GenCase(s, Around(), cases, labelCount);
        Emit([Label(cases)]);
        GenerateStatement(x, cases + 1);
      case Labelled(n, x) =>
        assert c == GenLabelled(s, Around(), cases, labelCount);
        var number := LabelForName(n);
        Emit([Label(number)]);
        GenerateStatement(x, cases);
      case Goto(n) =>
        var number := LabelForName(n);
        Emit([Jmp(number)]);
      case Break => Emit([Jmp(breakLabels[|breakLabels| - 1])]);
      case Continue => Emit([Jmp(continueLabels[|continueLabels| - 1])]);
      case Return(None) => Emit([Jmp(endLabel)]);
      case Return(Some(e)) =>
        GenerateExp(e);
        Emit([Jmp(endLabel)]);
    }

    method GenerateIf(s: Stmt, cases: nat)
      requires Allows(s) && s.If?
      modifies this
      ensures Valid() && Emitted(GenStmt(s, old(Around()), cases, old(labelCount)))
      decreases s, 0
    {
      var other, end := labelCount, labelCount + 1;
      labelCount := labelCount + 2;
      ghost var env := Around();
      ghost var c := GenExp(s.condition, labelCount);
      ghost var d := GenStmt(s.thenPart, env, cases, c.next);
      ghost var e := GenStmt(s.elsePart, env, Past(cases, s.thenPart), d.next);
      assert GenKind(s, env, cases, other) == GenIf(s, env, cases, other);
      assert GenIf(s, env, cases, other) == Code(ChoiceCode(c.out, d.out, e.out, other, end), e.next);
      GenerateExp(s.condition);
      Emit([CmpImm(0), Je(other)]);
      GenerateStatement(s.thenPart, cases);
      Emit([Jmp(end), Label(other)]);
      GenerateStatement(s.elsePart, cases + |Cases(s.thenPart)|);
      Regroup(old(out), c.out, [CmpImm(0), Je(other)], d.out, [Jmp(end), Label(other)], e.out);
      Emit([Label(end)]);
    }

    method GenerateWhile(s: Stmt, cases: nat)
      requires Allows(s) && s.While?
      modifies this
      ensures Valid() && Emitted(GenStmt(s, old(Around()), cases, old(labelCount)))
      decreases s, 0
    {
      var start, end := labelCount, labelCount + 1;
      labelCount := labelCount + 2;
      ghost var env := Around();
      ghost var c := GenExp(s.condition, labelCount);
      ghost var d := GenStmt(s.body, LoopEnv(env, end, start), cases, c.next);
      assert GenKind(s, env, cases, start) == GenWhile(s, env, cases, start);
      assert GenWhile(s, env, cases, start) == Code(WhileCode(c.out, d.out, start, end), d.next);
      PushLoop(end, start);
      Emit([Label(start)]);
      GenerateExp(s.condition);
      Emit([CmpImm(0), Je(end)]);
      GenerateStatement(s.body, cases);
      Emit([Jmp(start), Label(end)]);
      PopLoop();
      Regroup(old(out), [Label(start)], c.out, [CmpImm(0), Je(end)], d.out, [Jmp(start), Label(end)]);
    }

    method GenerateDoWhile(s: Stmt, cases: nat)
      requires Allows(s) && s.DoWhile?
      modifies this
      ensures Valid() && Emitted(GenStmt(s, old(Around()), cases, old(labelCount)))
      decreases s, 0
    {
      var top, again, end := labelCount, labelCount + 1, labelCount + 2;
      labelCount := labelCount + 3;
      ghost var env := Around();
      ghost var d := GenStmt(s.body, LoopEnv(env, end, again), cases, labelCount);
      ghost var c := GenExp(s.condition, d.next);
      assert GenKind(s, env, cases, top) == GenDo(s, env, cases, top);
      assert GenDo(s, env, cases, top) == Code(DoCode(d.out, c.out, top, again, end), c.next);
      Emit([Label(top)]);
      PushLoop(end, again);
      GenerateStatement(s.body, cases);
      PopLoop();
      Emit([Label(again)]);
      GenerateExp(s.condition);
      Emit([CmpImm(0), Jne(top), Label(end)]);
      Regroup(old(out), [Label(top)], d.out, [Label(again)], c.out, [CmpImm(0), Jne(top), Label(end)]);
    }

    method GenerateTest(test: Ir.Option<Exp>, end: nat)
      modifies this`out, this`labelCount
      ensures Emitted(TestCode(test, old(labelCount), end))
    {
      if test.Some? {
        GenerateExp(test.value);
        Emit([CmpImm(0), Je(end)]);
      }
    }

    method GenerateFor(s: Stmt, cases: nat)
      requires Allows(s) && s.For?
      modifies this
      ensures Valid() && Emitted(GenStmt(s, old(Around()), cases, old(labelCount)))
      decreases s, 1
    {
      var start, again, end := labelCount, labelCount + 1, labelCount + 2;
      labelCount := labelCount + 3;
      ghost var env := Around();
      ghost var i := GenSimple(s.init, labelCount);
      ghost var c := TestCode(s.test, i.next, end);
      ghost var d := GenStmt(s.body, LoopEnv(env, end, again), cases, c.next);
      ghost var z := GenSimple(s.post, d.next);
      assert GenKind(s, env, cases, start) == GenFor(s, env, cases, start);
      assert GenFor(s, env, cases, start) == Code(ForCode(i.out, c.out, d.out, z.out, start, again, end), z.next);
      GenerateSimple(s.init);
      GenerateForLoop(s, cases, start, again, end);
      Emit([Jmp(start), Label(end)]);
      PopLoop();
    }

    /** From the first label of a `for` up to the jump back. */
    method GenerateForLoop(s: Stmt, cases: nat, start: nat, again: nat, end: nat)
      requires Allows(s) && s.For?
      modifies this
      ensures Valid() && breakLabels == old(breakLabels) + [end] && continueLabels == old(continueLabels) + [again]
      ensures var c := TestCode(s.test, old(labelCount), end);
              var d := GenStmt(s.body, LoopEnv(old(Around()), end, again), cases, c.next);
              var z := GenSimple(s.post, d.next);
              && out == old(out) + ([Label(start)] + c.out + d.out + [Label(again)] + z.out) && labelCount == z.next
              && endLabel == old(endLabel) && labels == old(labels)
      decreases s, 0
    {
      ghost var c := TestCode(s.test, labelCount, end);
      ghost var d := GenStmt(s.body, LoopEnv(Around(), end, again), cases, c.next);
      ghost var z := GenSimple(s.post, d.next);
      PushLoop(end, again);
      Emit([Label(start)]);
      GenerateTest(s.test, end);
      GenerateStatement(s.body, cases);
      Emit([Label(again)]);
      GenerateSimple(s.post);
      Regroup(old(out), [Label(start)], c.out, d.out, [Label(again)], z.out);
    }

    /** The comparisons of a switch, and the jump where none holds. */
    method GenerateDispatch(body: Stmt, end: nat)
      modifies this`out, this`labelCount
      ensures labelCount == old(labelCount) + |Cases(body)|
      ensures out == old(out) + CaseTests(Cases(body), old(labelCount)) +
          [Jmp(DefaultMark(Cases(body), old(labelCount), end))]
    {
      ghost var values := Cases(body);
      assert values == values[..|values|];
      DefaultLabelIsLast(values, |values|, labelCount, end);
      var default_ := EmitSwitchTests(body, Ir.None);
      Emit([Jmp(if default_.Some? then default_.value else end)]);
    }

    /** The value and its comparisons; the first case label is returned. */
    method GenerateSwitchHead(s: Stmt, end: nat) returns (first: nat)
      requires s.Switch?
      modifies this`out, this`labelCount
      ensures var c := GenExp(s.control, old(labelCount));
              && first == c.next && labelCount == c.next + |Cases(s.body)|
              && out == old(out) + c.out + CaseTests(Cases(s.body), first) +
                  [Jmp(DefaultMark(Cases(s.body), first, end))]
    {
      GenerateExp(s.control);
      first := labelCount;
      GenerateDispatch(s.body, end);
    }

    /** The value is compared before the body, whose case labels the comparisons number. */
    method GenerateSwitch(s: Stmt, cases: nat)
      requires Allows(s) && s.Switch?
      modifies this
      ensures Valid() && Emitted(GenStmt(s, old(Around()), cases, old(labelCount)))
      decreases s, 0
    {
      var end := labelCount;
      labelCount := labelCount + 1;
      ghost var (env, values) := (Around(), Cases(s.body));
      ghost var c := GenExp(s.control, labelCount);
      ghost var d := GenStmt(s.body, SwitchEnv(env, end), c.next, c.next + |values|);
      SwitchIs(s, env, cases, end);
      var first := GenerateSwitchHead(s, end);
      PushLoop(end, if |continueLabels| > 0 then continueLabels[|continueLabels| - 1] else end);
      ProperAnywhere(s.body, |old(breakLabels)| > 0, true, Around().labels);
      GenerateStatement(s.body, first);
      PopLoop();
      Emit([Label(end)]);
      ghost var other := DefaultMark(values, c.next, end);
      Regroup(old(out), c.out, CaseTests(values, c.next), [Jmp(other)], d.out, [Label(end)]);
    }

    // -------------------------------------------------------------------- functions

    /** Numbers for the goto labels of a statement, in textual order. */
    method CollectLabels(s: Stmt)
      requires Valid() && Distinct(Names(s)) && forall n | n in Names(s) :: n !in Numbers(labels)
      modifies this`labels, this`labelCount
      ensures Valid() && labels == old(labels) + Entries(Names(s), old(labelCount))
      ensures labelCount == old(labelCount) + |Names(s)|
      decreases s, 1
    {
      match s
      case Seq(x, y) => CollectBoth(s, x, y);
      case If(_, x, y) => CollectBoth(s, x, y);
      case While(_, body) => CollectLabels(body);
      case DoWhile(body, _) => CollectLabels(body);
      case For(_, _, _, body) => CollectLabels(body);
      case Switch(_, body) => CollectLabels(body);
      case Case(_, x) => CollectLabels(x);
      case Labelled(n, x) => CollectLabelled(s, n, x);
      case _ =>
    }

    method CollectBoth(s: Stmt, x: Stmt, y: Stmt)
      requires s == Seq(x, y) || (s.If? && s.thenPart == x && s.elsePart == y)
      requires Valid() && Distinct(Names(x) + Names(y)) && forall n | n in Names(x) + Names(y) :: n !in Numbers(labels)
      modifies this`labels, this`labelCount
      ensures Valid() && labels == old(labels) + Entries(Names(x) + Names(y), old(labelCount))
      ensures labelCount == old(labelCount) + |Names(x)| + |Names(y)|
      decreases s, 0
    {
      DistinctParts(Names(x), Names(y));
      CollectLabels(x);
      StillNew(old(labels), Names(x), old(labelCount), Names(y));
      CollectLabels(y);
      EntriesAppend(Names(x), Names(y), old(labelCount));
    }

    method CollectLabelled(s: Stmt, n: string, x: Stmt)
      requires s == Labelled(n, x)
      requires Valid() && Distinct([n] + Names(x)) && forall m | m in [n] + Names(x) :: m !in Numbers(labels)
      modifies this`labels, this`labelCount
      ensures Valid() && labels == old(labels) + Entries([n] + Names(x), old(labelCount))
      ensures labelCount == old(labelCount) + 1 + |Names(x)|
      decreases s, 0
    {
      DistinctParts([n], Names(x));
      assert n in [n] + Names(x);
      var number := LabelForName(n);
      assert Entries([n], number) == [LabelName(n, number)];
      StillNew(old(labels), [n], number, Names(x));
      CollectLabels(x);
      EntriesAppend([n], Names(x), number);
    }

    /** Numbers for the end label and the goto labels of a function. */
    method BeginFunction(body: Stmt)
      requires Valid() && WellFormed(body) && labels == [] && breakLabels == []
      modifies this`endLabel, this`labelCount, this`labels
      ensures Valid() && Around() == FunctionEnv(body, old(labelCount))
      ensures endLabel == old(labelCount) && labelCount == BodyMark(body, old(labelCount))
    {
      endLabel := labelCount;
      labelCount := labelCount + 1;
      CollectLabels(body);
      EnvIsFunctionEnv(body, endLabel, labels);
    }

    /** What follows the body. */
    method EndFunction()
      requires Valid()
      modifies this`out, this`labels
      ensures Valid() && labels == [] && out == old(out) + Epilogue(endLabel)
    {
      Emit([MovImm(0)]);
      Emit([Label(endLabel)]);
      Emit([Leave]);
      labels := [];
    }

    /** A whole function: its goto labels are numbered before its code is emitted, and
        forgotten behind it. */
    method GenerateFunction(body: Stmt)
      requires Valid() && WellFormed(body) && labels == [] && breakLabels == []
      modifies this
      ensures Valid() && labels == [] && breakLabels == []
      ensures out == old(out) + GenFunction(body, old(labelCount)).out
      ensures labelCount == GenFunction(body, old(labelCount)).next
    {
      FunctionAround(body, labelCount);
      BeginFunction(body);
      assert Proper(body, false, false, Around().labels);
      GenerateStatement(body, 0);
      EndFunction();
    }
  }
}
