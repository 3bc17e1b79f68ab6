/** Statements over int expressions and what running them means: structured control flow,
    `switch` with labels anywhere in its body, and `goto`. */
module Statements {
  import Ir
  import opened StackMachine
  import opened StackRuns
  import opened CodegenExpr
  import opened StmtRuns

  /** A statement without control flow, also the first part of a `for`. */
  datatype Simple =
    | Nothing
    | Declare(slot: nat, init: Ir.Option<Exp>)
    | Evaluate(e: Exp)

  datatype Stmt =
    | Plain(simple: Simple)
    | Seq(first: Stmt, second: Stmt)
    | If(condition: Exp, thenPart: Stmt, elsePart: Stmt)
    | While(condition: Exp, body: Stmt)
    | DoWhile(body: Stmt, condition: Exp)
    | For(init: Simple, test: Ir.Option<Exp>, post: Simple, body: Stmt)
    | Switch(control: Exp, body: Stmt)
    | Case(value: Ir.Option<int>, labelled: Stmt)     // `default` has no value
    | Labelled(name: string, labelled: Stmt)
    | Goto(name: string)
    | Break
    | Continue
    | Return(result: Ir.Option<Exp>)

  /** The case labels of the enclosing switch in a statement, in textual order. A nested
      switch has its own. */
  function Cases(s: Stmt): seq<Ir.Option<int>> {
    match s
    case Seq(x, y) => Cases(x) + Cases(y)
    case If(_, x, y) => Cases(x) + Cases(y)
    case While(_, body) => Cases(body)
    case DoWhile(body, _) => Cases(body)
    case For(_, _, _, body) => Cases(body)
    case Case(v, x) => [v] + Cases(x)
    case Labelled(_, x) => Cases(x)
    case _ => []
  }

  /** The names of the goto labels, in textual order. */
  function Names(s: Stmt): seq<string> {
    match s
    case Seq(x, y) => Names(x) + Names(y)
    case If(_, x, y) => Names(x) + Names(y)
    case While(_, body) => Names(body)
    case DoWhile(body, _) => Names(body)
    case For(_, _, _, body) => Names(body)
    case Switch(_, body) => Names(body)
    case Case(_, x) => Names(x)
    case Labelled(n, x) => [n] + Names(x)
    case _ => []
  }

  /** Where a statement is entered: at its start, at the test of a `for`, or at a label. */
  datatype Target = Start | Test | AtName(name: string) | AtCase(k: nat)

  predicate Inside(s: Stmt, t: Target) {
    match t
    case Start => true
    case Test => s.For?
    case AtName(n) => n in Names(s)
    case AtCase(k) => k < |Cases(s)|
  }

  /** The same label, counted from the statement after `s`. */
  function Beyond(s: Stmt, t: Target): Target
    requires !Inside(s, t)
  {
    if t.AtCase? then AtCase(t.k - |Cases(s)|) else t
  }

  function Rank(t: Target): nat {
    match t
    case Test => 0
    case Start => 1
    case _ => 2
  }

  function RunSimple(a: Arith, s: Simple, frame: Frame): Ir.Option<Frame> {
    match s
    case Nothing => Ir.Some(frame)
    case Declare(slot, None) => Ir.Some(Put(frame, slot, 0))
    case Declare(slot, Some(e)) =>
      var v := Eval(a, e, frame);
      if v.None? then Ir.None else Ir.Some(Put(v.value.frame, slot, v.value.n))
    case Evaluate(e) =>
      var v := Eval(a, e, frame);
      if v.None? then Ir.None else Ir.Some(v.value.frame)
  }

  /** The case a value selects: the first equal one, or else the last `default`. */
  function Select(cases: seq<Ir.Option<int>>, v: int): (k: Ir.Option<nat>)
    ensures k.Some? ==> k.value < |cases|
  {
    var k := FirstEqual(cases, v);
    if k < |cases| then Ir.Some(k) else LastDefault(cases, |cases|)
  }

  function FirstEqual(cases: seq<Ir.Option<int>>, v: int): (k: nat)
    ensures k <= |cases|
    ensures k < |cases| ==> cases[k] == Ir.Some(v)
    ensures forall j | 0 <= j < k :: cases[j] != Ir.Some(v)
  {
    if cases == [] || cases[0] == Ir.Some(v) then 0 else 1 + FirstEqual(cases[1..], v)
  }

  function LastDefault(cases: seq<Ir.Option<int>>, n: nat): (k: Ir.Option<nat>)
    requires n <= |cases|
    ensures k.Some? ==> k.value < n && cases[k.value] == Ir.None
    ensures forall j | 0 <= j < n && cases[j] == Ir.None :: k.Some? && j <= k.value
  {
    if n == 0 then Ir.None
    else if cases[n - 1].None? then Ir.Some(n - 1)
    else LastDefault(cases, n - 1)
  }

  /** Running a statement entered at `t`. Each further round of a loop uses up fuel. */
  function Exec(a: Arith, s: Stmt, t: Target, frame: Frame, fuel: nat): Exit
    requires Inside(s, t)
    decreases fuel, s, Rank(t), 2
  {
    ExecKind(a, s, t, frame, fuel)
  }

  function ExecKind(a: Arith, s: Stmt, t: Target, frame: Frame, fuel: nat): Exit
    requires Inside(s, t)
    decreases fuel, s, Rank(t), 1
  {
    match s
    case Plain(x) =>
      var f := RunSimple(a, x, frame);
      if f.None? then Exit(Faulted, frame) else Exit(Normal, f.value)
    case Seq(_, _) => ExecSeq(a, s, t, frame, fuel)
    case If(_, _, _) => ExecIf(a, s, t, frame, fuel)
    case While(_, _) => ExecWhile(a, s, t, frame, fuel)
    case DoWhile(_, _) => ExecDo(a, s, t, frame, fuel)
    case For(_, _, _, _) => ExecFor(a, s, t, frame, fuel)
    case Switch(_, _) => ExecSwitch(a, s, t, frame, fuel)
    case Case(_, x) => Exec(a, x, if t == AtCase(0) then Start else if t.AtCase? then AtCase(t.k - 1)
      else t, frame, fuel)
    case Labelled(n, x) => Exec(a, x, if t == AtName(n) then Start else t, frame, fuel)
    case Goto(n) => Exit(Went(n), frame)
    case Break => Exit(Broke, frame)
    case Continue => Exit(Continued, frame)
    case Return(None) => Exit(Returned(Ir.None), frame)
    case Return(Some(e)) =>
      var v := Eval(a, e, frame);
      if v.None? then Exit(Faulted, frame) else Exit(Returned(Ir.Some(v.value.n)), v.value.frame)
  }

  function ExecSeq(a: Arith, s: Stmt, t: Target, frame: Frame, fuel: nat): Exit
    requires s.Seq? && Inside(s, t)
    decreases fuel, s, Rank(t), 0
  {
    if Inside(s.first, t) then
      var r := Exec(a, s.first, t, frame, fuel);
      if r.how.Normal? then Exec(a, s.second, Start, r.frame, fuel) else r
    else Exec(a, s.second, Beyond(s.first, t), frame, fuel)
  }

  function ExecIf(a: Arith, s: Stmt, t: Target, frame: Frame, fuel: nat): Exit
    requires s.If? && Inside(s, t)
    decreases fuel, s, Rank(t), 0
  {
    if t.Start? then
      var v := Eval(a, s.condition, frame);
      if v.None? then Exit(Faulted, frame)
      else Exec(a, if v.value.n != 0 then s.thenPart else s.elsePart, Start, v.value.frame, fuel)
    else if Inside(s.thenPart, t) then Exec(a, s.thenPart, t, frame, fuel)
    else Exec(a, s.elsePart, Beyond(s.thenPart, t), frame, fuel)
  }

  function ExecWhile(a: Arith, s: Stmt, t: Target, frame: Frame, fuel: nat): Exit
    requires s.While? && Inside(s, t)
    decreases fuel, s, Rank(t), 0
  {
    if t.Start? then
      var v := Eval(a, s.condition, frame);
      if v.None? then Exit(Faulted, frame)
      else if v.value.n == 0 then Exit(Normal, v.value.frame)
      else
        var r := Exec(a, s.body, Start, v.value.frame, fuel);
        if !Loops(r.how) then Outside(r)
        else if fuel == 0 then Exit(Unfinished, r.frame)
        else Exec(a, s, Start, r.frame, fuel - 1)
    else
      var r := Exec(a, s.body, t, frame, fuel);
      if Loops(r.how) then Exec(a, s, Start, r.frame, fuel) else Outside(r)
  }

  function ExecDo(a: Arith, s: Stmt, t: Target, frame: Frame, fuel: nat): Exit
    requires s.DoWhile? && Inside(s, t)
    decreases fuel, s, Rank(t), 0
  {
    var r := Exec(a, s.body, t, frame, fuel);
    if !Loops(r.how) then Outside(r)
    else
      var v := Eval(a, s.condition, r.frame);
      if v.None? then Exit(Faulted, r.frame)
      else if v.value.n == 0 then Exit(Normal, v.value.frame)
      else if !t.Start? then Exec(a, s, Start, v.value.frame, fuel)
      else if fuel == 0 then Exit(Unfinished, v.value.frame)
      else Exec(a, s, Start, v.value.frame, fuel - 1)
  }

  function ExecFor(a: Arith, s: Stmt, t: Target, frame: Frame, fuel: nat): Exit
    requires s.For? && Inside(s, t)
    decreases fuel, s, Rank(t), 0
  {
    match t
    case Start =>
      var f := RunSimple(a, s.init, frame);
      if f.None? then Exit(Faulted, frame) else Exec(a, s, Test, f.value, fuel)
    case Test =>
      var v := EvalTest(a, s.test, frame);
      if v.None? then Exit(Faulted, frame)
      else if v.value.n == 0 then Exit(Normal, v.value.frame)
      else
        var r := Exec(a, s.body, Start, v.value.frame, fuel);
        if !Loops(r.how) then Outside(r)
        else
          var f := RunSimple(a, s.post, r.frame);
          if f.None? then Exit(Faulted, r.frame)
          else if fuel == 0 then Exit(Unfinished, f.value)
          else Exec(a, s, Test, f.value, fuel - 1)
    case _ =>
      var r := Exec(a, s.body, t, frame, fuel);
      if !Loops(r.how) then Outside(r)
      else
        var f := RunSimple(a, s.post, r.frame);
        if f.None? then Exit(Faulted, r.frame) else Exec(a, s, Test, f.value, fuel)
  }

  function ExecSwitch(a: Arith, s: Stmt, t: Target, frame: Frame, fuel: nat): Exit
    requires s.Switch? && Inside(s, t)
    decreases fuel, s, Rank(t), 0
  {
    if t.Start? then
      var v := Eval(a, s.control, frame);
      if v.None? then Exit(Faulted, frame)
      else
        var k := Select(Cases(s.body), v.value.n);
        if k.None? then Exit(Normal, v.value.frame)
        else Outside(Exec(a, s.body, AtCase(k.value), v.value.frame, fuel))
    else Outside(Exec(a, s.body, t, frame, fuel))
  }

  /** A missing test is true. */
  function EvalTest(a: Arith, test: Ir.Option<Exp>, frame: Frame): Ir.Option<Value> {
    if test.None? then Ir.Some(Value(1, frame)) else Eval(a, test.value, frame)
  }

  /** Running a function body: a `goto` goes on at its label, and uses up fuel from the second on. */
  function RunBody(a: Arith, s: Stmt, t: Target, frame: Frame, fuel: nat): Exit
    requires Inside(s, t) && !t.AtCase?
    decreases fuel, Rank(t) <= 1
  {
    var r := Exec(a, s, t, frame, fuel);
    if !r.how.Went? || r.how.name !in Names(s) then r
    else if !t.AtName? then RunBody(a, s, AtName(r.how.name), r.frame, fuel)
    else if fuel == 0 then Exit(Unfinished, r.frame)
    else RunBody(a, s, AtName(r.how.name), r.frame, fuel - 1)
  }

  /** `break` stands in a loop or switch, `continue` in a loop, and the goto labels are among
      the numbered ones. */
  predicate Proper(s: Stmt, inLoop: bool, breakable: bool, labels: Labels) {
    match s
    case Seq(x, y) => Proper(x, inLoop, breakable, labels) && Proper(y, inLoop, breakable, labels)
    case If(_, x, y) => Proper(x, inLoop, breakable, labels) && Proper(y, inLoop, breakable, labels)
    case While(_, body) => Proper(body, true, true, labels)
    case DoWhile(body, _) => Proper(body, true, true, labels)
    case For(_, _, _, body) => Proper(body, true, true, labels)
    case Switch(_, body) => Proper(body, inLoop, true, labels)
    case Case(_, x) => Proper(x, inLoop, breakable, labels)
    case Labelled(n, x) => n in labels.number && Proper(x, inLoop, breakable, labels)
    case Goto(n) => n in labels.number
    case Break => breakable
    case Continue => inLoop
    case _ => true
  }

  // ------------------------------------------------------- where jumps may stand

  function Parts(s: Stmt): seq<Stmt> {
    match s
    case Seq(x, y) => [x, y]
    case If(_, x, y) => [x, y]
    case While(_, body) => [body]
    case DoWhile(body, _) => [body]
    case For(_, _, _, body) => [body]
    case Switch(_, body) => [body]
    case Case(_, x) => [x]
    case Labelled(_, x) => [x]
    case _ => []
  }

  predicate IsLoop(s: Stmt) {
    s.While? || s.DoWhile? || s.For?
  }

  /** From a statement down to one inside it, each a part of the one before. */
  ghost predicate Spine(spine: seq<Stmt>, s: Stmt) {
    |spine| > 0 && spine[0] == s && forall k | 0 <= k < |spine| - 1 :: spine[k + 1] in Parts(spine[k])
  }

  /** The statement reached stands where it may: `break` below a loop or switch, `continue`
      below a loop, and the labels are numbered (C11 section 6.8.6). */
  ghost predicate MayStand(spine: seq<Stmt>, inLoop: bool, breakable: bool, labels: Labels)
    requires |spine| > 0
  {
    match spine[|spine| - 1]
    case Break => breakable || exists k :: 0 <= k < |spine| && (IsLoop(spine[k]) || spine[k].Switch?)
    case Continue => inLoop || exists k :: 0 <= k < |spine| && IsLoop(spine[k])
    case Goto(n) => n in labels.number
    case Labelled(n, _) => n in labels.number
    case _ => true
  }

  /** A statement is proper exactly when everything inside it stands where it may. */
  lemma ProperMeans(s: Stmt, inLoop: bool, breakable: bool, labels: Labels)
    ensures Proper(s, inLoop, breakable, labels) <==>
            forall spine | Spine(spine, s) :: MayStand(spine, inLoop, breakable, labels)
  {
    if Proper(s, inLoop, breakable, labels) {
      forall spine | Spine(spine, s)
        ensures MayStand(spine, inLoop, breakable, labels)
      {
        ProperStands(s, spine, inLoop, breakable, labels);
      }
    } else {
      var spine := Misplaced(s, inLoop, breakable, labels);
    }
  }

  lemma {:induction false} ProperStands(s: Stmt, spine: seq<Stmt>, inLoop: bool, breakable: bool, labels: Labels)
    requires Proper(s, inLoop, breakable, labels) && Spine(spine, s)
    ensures MayStand(spine, inLoop, breakable, labels)
    decreases |spine|
  {
    var (i, b) := (inLoop || IsLoop(s), breakable || IsLoop(s) || s.Switch?);
    ProperParts(s, inLoop, breakable, labels);
    if |spine| == 1 {
      assert spine == [s];
    } else {
      var rest := spine[1..];
      assert spine == [s] + rest && spine[1] in Parts(spine[0]);
      assert Spine(rest, spine[1]);
      ProperStands(spine[1], rest, i, b, labels);
      StandsBelow(s, rest, inLoop, breakable, labels);
    }
  }

  lemma {:induction false} Misplaced(s: Stmt, inLoop: bool, breakable: bool, labels: Labels)
    returns (spine: seq<Stmt>)
    requires !Proper(s, inLoop, breakable, labels)
    ensures Spine(spine, s) && !MayStand(spine, inLoop, breakable, labels)
  {
    var (i, b) := (inLoop || IsLoop(s), breakable || IsLoop(s) || s.Switch?);
    ProperParts(s, inLoop, breakable, labels);
    spine := [s];
    if MayStand(spine, inLoop, breakable, labels) {
      var x :| x in Parts(s) && !Proper(x, i, b, labels);
      var rest := Misplaced(x, i, b, labels);
      StandsBelow(s, rest, inLoop, breakable, labels);
      spine := [s] + rest;
    }
  }

  lemma ProperParts(s: Stmt, inLoop: bool, breakable: bool, labels: Labels)
    ensures Proper(s, inLoop, breakable, labels) <==>
            && MayStand([s], inLoop, breakable, labels)
            && forall x | x in Parts(s) ::
                 Proper(x, inLoop || IsLoop(s), breakable || IsLoop(s) || s.Switch?, labels)
  {
    var (parts, alone) := (Parts(s), [s]);
    assert alone[0] == s;
    if |parts| > 0 {
      assert parts[0] in parts && parts[|parts| - 1] in parts;
    }
  }

  lemma StandsBelow(s: Stmt, rest: seq<Stmt>, inLoop: bool, breakable: bool, labels: Labels)
    requires |rest| > 0
    ensures MayStand([s] + rest, inLoop, breakable, labels) <==>
            MayStand(rest, inLoop || IsLoop(s), breakable || IsLoop(s) || s.Switch?, labels)
  {
    var spine := [s] + rest;
    assert forall k | 0 <= k < |rest| :: rest[k] == spine[k + 1];
    assert forall k | 0 < k < |spine| :: spine[k] == rest[k - 1];
    assert spine[0] == s;
  }
}
