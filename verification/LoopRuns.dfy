/** How the code of a loop or a switch composes from the code of its parts. */
module LoopRuns {
  import Ir
  import opened StackMachine
  import opened StackRuns
  import opened CodegenExpr
  import opened StmtRuns
  import opened Statements
  import opened CodegenStmt

  /** A run that has not used up any fuel. */
  lemma UnfinishedExecutes(a: Arith, prog: Prog, p: nat, frame: Frame, w: Ways, r: Exit)
    requires r.how.Unfinished?
    ensures Executes(a, prog, p, frame, w, 0, r)
  {
    forall st: State | st.pc == p && st.frame == frame ensures Leaves(a, prog, w, st, 0, r) {
      LeadsSelf(Machine(a, prog), st);
    }
  }

  /** Leaving through a label at the end. */
  lemma EndExecutes(a: Arith, prog: Prog, p: nat, mark: nat, frame: Frame, w: Ways, fuel: nat)
    requires LabelAt(prog, mark, p) && w.after == p + 1
    ensures Executes(a, prog, p, frame, w, fuel, Exit(Normal, frame))
  {
    NothingExecutes(a, prog, frame, w, fuel);
    LabelFirst(a, prog, p, mark, frame, w, fuel, Exit(Normal, frame));
  }

  // ---------------------------------------------------------------------------- if

  /** An `if` at `p`: its first branch is behind the test, its second behind the jump at `j`. */
  ghost predicate IfAt(prog: Prog, p: nat, c: Prog, x: Prog, j: nat, y: Prog, elseMark: nat, endMark: nat) {
    && j == p + |c| + 2 + |x|
    && CodeAt(prog, p, c) && CodeAt(prog, p + |c|, [CmpImm(0), Je(elseMark)]) && CodeAt(prog, p + |c| + 2, x)
    && CodeAt(prog, j, [Jmp(endMark)]) && LabelAt(prog, elseMark, j + 1)
    && CodeAt(prog, j + 2, y) && LabelAt(prog, endMark, j + 2 + |y|)
  }

  lemma IfParts(prog: Prog, p: nat, c: Prog, x: Prog, y: Prog, elseMark: nat, endMark: nat)
    requires CodeAt(prog, p, ChoiceCode(c, x, y, elseMark, endMark))
    ensures IfAt(prog, p, c, x, p + |c| + 2 + |x|, y, elseMark, endMark)
    ensures |ChoiceCode(c, x, y, elseMark, endMark)| == |c| + |x| + |y| + 5
  {
    ChoiceParts(prog, p, c, x, y, elseMark, endMark);
  }

  lemma ThenRuns(a: Arith, prog: Prog, p: nat, c: Prog, x: Prog, j: nat, y: Prog, elseMark: nat, endMark: nat,
      at: nat, frame: Frame, w: Ways, fuel: nat, r: Exit)
    requires DistinctLabels(prog) && IfAt(prog, p, c, x, j, y, elseMark, endMark) && w.after == j + 3 + |y|
    requires Executes(a, prog, at, frame, w.(after := j), fuel, r)
    ensures Executes(a, prog, at, frame, w, fuel, r)
  {
    var end := j + 2 + |y|;
    EndExecutes(a, prog, end, endMark, r.frame, w, fuel);
    JumpFirst(a, prog, j, endMark, end, r.frame, w, fuel, Exit(Normal, r.frame));
    ChainExecutes(a, prog, at, frame, w, j, fuel, r, Exit(Normal, r.frame));
  }

  lemma ElseRuns(a: Arith, prog: Prog, p: nat, c: Prog, x: Prog, j: nat, y: Prog, elseMark: nat, endMark: nat,
      at: nat, frame: Frame, w: Ways, fuel: nat, r: Exit)
    requires IfAt(prog, p, c, x, j, y, elseMark, endMark) && w.after == j + 3 + |y|
    requires Executes(a, prog, at, frame, w.(after := j + 2 + |y|), fuel, r)
    ensures Executes(a, prog, at, frame, w, fuel, r)
  {
    var end := j + 2 + |y|;
    EndExecutes(a, prog, end, endMark, r.frame, w, fuel);
    ChainExecutes(a, prog, at, frame, w, end, fuel, r, Exit(Normal, r.frame));
  }

  lemma IfRuns(a: Arith, prog: Prog, p: nat, c: Prog, x: Prog, j: nat, y: Prog, elseMark: nat, endMark: nat,
      frame: Frame, v: Ir.Option<Value>, w: Ways, fuel: nat, r: Exit)
    requires DistinctLabels(prog) && IfAt(prog, p, c, x, j, y, elseMark, endMark) && w.after == j + 3 + |y|
    requires Computes(a, prog, p, frame, p + |c|, v) && (v.None? ==> r == Exit(Faulted, frame))
    requires v.Some? && v.value.n != 0 ==> Executes(a, prog, p + |c| + 2, v.value.frame, w.(after := j), fuel, r)
    requires v.Some? && v.value.n == 0 ==> Executes(a, prog, j + 2, v.value.frame, w.(after := j + 2 + |y|), fuel, r)
    ensures Executes(a, prog, p, frame, w, fuel, r)
  {
    if v.Some? && v.value.n != 0 {
      ThenRuns(a, prog, p, c, x, j, y, elseMark, endMark, p + |c| + 2, v.value.frame, w, fuel, r);
    } else if v.Some? {
      ElseRuns(a, prog, p, c, x, j, y, elseMark, endMark, j + 2, v.value.frame, w, fuel, r);
      LabelFirst(a, prog, j + 1, elseMark, v.value.frame, w, fuel, r);
    }
    TestExecutes(a, prog, p, frame, p + |c|, v, Je(elseMark), j + 1, w, fuel, r);
  }

  // ------------------------------------------------------------------------- while

  /** The pieces of a `while` at `p`, its body at `q`, and the jump back at `j`. */
  ghost predicate WhileAt(prog: Prog, p: nat, c: Prog, q: nat, body: Prog, j: nat, start: nat, end: nat) {
    && q == p + |c| + 3 && j == q + |body|
    && LabelAt(prog, start, p) && CodeAt(prog, p + 1, c) && CodeAt(prog, p + 1 + |c|, [CmpImm(0), Je(end)])
    && CodeAt(prog, q, body) && CodeAt(prog, j, [Jmp(start)]) && LabelAt(prog, end, j + 1)
  }

  lemma WhileParts(prog: Prog, p: nat, c: Prog, body: Prog, start: nat, end: nat)
    requires CodeAt(prog, p, WhileCode(c, body, start, end))
    ensures WhileAt(prog, p, c, p + |c| + 3, body, p + |c| + 3 + |body|, start, end)
    ensures |WhileCode(c, body, start, end)| == |c| + |body| + 5
  {
    FiveParts(prog, p, [Label(start)], c, [CmpImm(0), Je(end)], body, [Jmp(start), Label(end)]);
    LabelIn(prog, p, start);
    PairAt(prog, p + |c| + 3 + |body|, Jmp(start), end);
  }

  lemma PairAt(prog: Prog, p: nat, i: Ins, mark: nat)
    requires CodeAt(prog, p, [i, Label(mark)])
    ensures CodeAt(prog, p, [i]) && LabelAt(prog, mark, p + 1)
  {
    assert [i] + [Label(mark)] == [i, Label(mark)];
    CodeParts(prog, p, [i], [Label(mark)]);
    LabelIn(prog, p + 1, mark);
  }

  /** The body of a `while`, and then the loop again. */
  lemma WhileRound(a: Arith, prog: Prog, p: nat, c: Prog, q: nat, body: Prog, j: nat, start: nat, end: nat, at: nat,
      frame: Frame, w: Ways, fuel: nat, x: Exit, y: Exit)
    requires DistinctLabels(prog) && WhileAt(prog, p, c, q, body, j, start, end) && w.after == j + 2
    requires Executes(a, prog, at, frame, Ways(j, true, w.env.(marks := Ir.Some(Marks(end, start)))), fuel, x)
    requires Loops(x.how) ==> Executes(a, prog, p, x.frame, w, fuel, y)
    ensures Executes(a, prog, at, frame, w, fuel, if Loops(x.how) then y else Outside(x))
  {
    if Loops(x.how) {
      JumpFirst(a, prog, j, start, p, x.frame, w, fuel, y);
    } else {
      EndExecutes(a, prog, j + 1, end, x.frame, w, fuel);
    }
    BodyExecutes(a, prog, at, frame, w, Marks(end, start), j, p, j + 1, fuel, x, y);
  }

  /** A `while` from its first label, which takes one step. */
  lemma WhileStarts(a: Arith, prog: Prog, p: nat, c: Prog, q: nat, body: Prog, j: nat, start: nat, end: nat,
      frame: Frame, v: Ir.Option<Value>, w: Ways, fuel: nat, r: Exit)
    requires DistinctLabels(prog) && WhileAt(prog, p, c, q, body, j, start, end) && w.after == j + 2
    requires Computes(a, prog, p + 1, frame, p + 1 + |c|, v) && (v.None? ==> r == Exit(Faulted, frame))
    requires v.Some? && v.value.n == 0 ==> r == Exit(Normal, v.value.frame)
    requires v.Some? && v.value.n != 0 ==> Executes(a, prog, q, v.value.frame, w, fuel, r)
    ensures Executes(a, prog, p, frame, w, fuel + 1, r)
  {
    if v.Some? && v.value.n == 0 {
      EndExecutes(a, prog, j + 1, end, v.value.frame, w, fuel);
    }
    TestExecutes(a, prog, p + 1, frame, p + 1 + |c|, v, Je(end), j + 1, w, fuel, r);
    LabelFirst(a, prog, p, start, frame, w, fuel, r);
  }

  /** The body of a `do` or a `for`, and then what is behind the label for `continue`. */
  lemma BodyRound(a: Arith, prog: Prog, g: nat, e: nat, again: nat, end: nat, at: nat, frame: Frame, w: Ways,
      fuel: nat, x: Exit, y: Exit)
    requires DistinctLabels(prog) && LabelAt(prog, again, g) && LabelAt(prog, end, e) && w.after == e + 1
    requires Executes(a, prog, at, frame, Ways(g, true, w.env.(marks := Ir.Some(Marks(end, again)))), fuel, x)
    requires Loops(x.how) ==> Executes(a, prog, g + 1, x.frame, w, fuel, y)
    ensures Executes(a, prog, at, frame, w, fuel, if Loops(x.how) then y else Outside(x))
  {
    if Loops(x.how) {
      LabelFirst(a, prog, g, again, x.frame, w, fuel, y);
    } else {
      EndExecutes(a, prog, e, end, x.frame, w, fuel);
    }
    BodyExecutes(a, prog, at, frame, w, Marks(end, again), g, g, e, fuel, x, y);
  }

  // ---------------------------------------------------------------------- do while

  /** A `do` at `p`: its body at `p + 1`, its test at `g + 1`, the jump back at `j + 1`. */
  ghost predicate DoAt(prog: Prog, p: nat, body: Prog, g: nat, c: Prog, j: nat, top: nat, again: nat, end: nat) {
    && g == p + 1 + |body| && j == g + 1 + |c|
    && LabelAt(prog, top, p) && CodeAt(prog, p + 1, body) && LabelAt(prog, again, g)
    && CodeAt(prog, g + 1, c) && CodeAt(prog, j, [CmpImm(0), Jne(top)]) && LabelAt(prog, end, j + 2)
  }

  lemma DoParts(prog: Prog, p: nat, body: Prog, c: Prog, top: nat, again: nat, end: nat)
    requires CodeAt(prog, p, DoCode(body, c, top, again, end))
    ensures DoAt(prog, p, body, p + 1 + |body|, c, p + 2 + |body| + |c|, top, again, end)
    ensures |DoCode(body, c, top, again, end)| == |c| + |body| + 5
  {
    var j := p + 2 + |body| + |c|;
    FiveParts(prog, p, [Label(top)], body, [Label(again)], c, [CmpImm(0), Jne(top), Label(end)]);
    LabelIn(prog, p, top);
    LabelIn(prog, p + 1 + |body|, again);
    assert [CmpImm(0), Jne(top)] + [Label(end)] == [CmpImm(0), Jne(top), Label(end)];
    CodeParts(prog, j, [CmpImm(0), Jne(top)], [Label(end)]);
    LabelIn(prog, j + 2, end);
  }

  /** What follows the body of a `do`: the value of the test, and maybe the loop again. */
  function DoRest(frame: Frame, v: Ir.Option<Value>, y: Exit): Exit {
    if v.None? then Exit(Faulted, frame) else if v.value.n == 0 then Exit(Normal, v.value.frame) else y
  }

  lemma DoTest(a: Arith, prog: Prog, p: nat, body: Prog, g: nat, c: Prog, j: nat, top: nat, again: nat, end: nat,
      frame: Frame, w: Ways, fuel: nat, v: Ir.Option<Value>, y: Exit)
    requires DistinctLabels(prog) && DoAt(prog, p, body, g, c, j, top, again, end) && w.after == j + 3
    requires Computes(a, prog, g + 1, frame, j, v)
    requires v.Some? && v.value.n != 0 ==> Executes(a, prog, p, v.value.frame, w, fuel, y)
    ensures Executes(a, prog, g + 1, frame, w, fuel, DoRest(frame, v, y))
  {
    var r := if v.Some? && v.value.n == 0 then Exit(Normal, v.value.frame) else y;
    if v.Some? && v.value.n == 0 {
      EndExecutes(a, prog, j + 2, end, v.value.frame, w, fuel);
    }
    TestExecutes(a, prog, g + 1, frame, j, v, Jne(top), p, w, fuel, r);
  }

  // --------------------------------------------------------------------------- for

  /** A `for` whose first part is at `p`: its test is behind the label at `s`, its body at
      `b`, its last part behind the label at `g`, the jump back at `j`. */
  ghost predicate ForAt(prog: Prog, p: nat, init: Prog, s: nat, test: Prog, b: nat, body: Prog, g: nat, post: Prog,
      j: nat, start: nat, again: nat, end: nat) {
    && s == p + |init| && b == s + 1 + |test| && g == b + |body| && j == g + 1 + |post|
    && CodeAt(prog, p, init) && LabelAt(prog, start, s) && CodeAt(prog, s + 1, test)
    && CodeAt(prog, b, body) && LabelAt(prog, again, g) && CodeAt(prog, g + 1, post)
    && CodeAt(prog, j, [Jmp(start)]) && LabelAt(prog, end, j + 1)
  }

  lemma ForParts(prog: Prog, p: nat, init: Prog, test: Prog, body: Prog, post: Prog, start: nat, again: nat, end: nat)
    requires CodeAt(prog, p, ForCode(init, test, body, post, start, again, end))
    ensures var (s, b) := (p + |init|, p + |init| + 1 + |test|);
            ForAt(prog, p, init, s, test, b, body, b + |body|, post, b + |body| + 1 + |post|, start, again, end)
    ensures |ForCode(init, test, body, post, start, again, end)| == |init| + |test| + |body| + |post| + 4
  {
    var s := p + |init|;
    var middle := [Label(start)] + test + body + [Label(again)] + post;
    CodeParts(prog, p, init + middle, [Jmp(start), Label(end)]);
    CodeParts(prog, p, init, middle);
    FiveParts(prog, s, [Label(start)], test, body, [Label(again)], post);
    LabelIn(prog, s, start);
    LabelIn(prog, s + 1 + |test| + |body|, again);
    PairAt(prog, s + |middle|, Jmp(start), end);
  }

  // ------------------------------------------------------------------------ switch

  /** A `switch` at `p`: its comparisons at `s`, its body at `b`. */
  ghost predicate SwitchAt(prog: Prog, p: nat, c: Prog, s: nat, tests: Prog, b: nat, other: nat, body: Prog, end: nat) {
    && s == p + |c| && b == s + |tests| + 1
    && CodeAt(prog, p, c) && CodeAt(prog, s, tests) && CodeAt(prog, s + |tests|, [Jmp(other)])
    && CodeAt(prog, b, body) && LabelAt(prog, end, b + |body|)
  }

  lemma SwitchParts(prog: Prog, p: nat, c: Prog, tests: Prog, other: nat, body: Prog, end: nat)
    requires CodeAt(prog, p, SwitchCode(c, tests, other, body, end))
    ensures SwitchAt(prog, p, c, p + |c|, tests, p + |c| + |tests| + 1, other, body, end)
    ensures |SwitchCode(c, tests, other, body, end)| == |c| + |tests| + |body| + 2
  {
    FiveParts(prog, p, c, tests, [Jmp(other)], body, [Label(end)]);
    LabelIn(prog, p + |c| + |tests| + 1 + |body|, end);
  }

  /** Where the comparisons lead a value: to the label of the first case equal to it, or on. */
  ghost predicate Dispatches(prog: Prog, cases: seq<Ir.Option<int>>, first: nat, q: nat, v: int, at: nat) {
    var k := FirstEqual(cases, v);
    if k < |cases| then LabelAt(prog, first + k, at) else at == q + |CaseTests(cases, first)|
  }

  lemma {:induction false} CaseTestsRun(a: Arith, prog: Prog, cases: seq<Ir.Option<int>>, first: nat, st: State,
      at: nat) returns (st': State)
    requires DistinctLabels(prog) && CodeAt(prog, st.pc, CaseTests(cases, first)) && st.ax.Num?
    requires Dispatches(prog, cases, first, st.pc, st.ax.n, at)
    ensures Leads(Machine(a, prog), st, 0, Running(st'))
    ensures st'.pc == at && st'.ax == st.ax && st'.stack == st.stack && st'.frame == st.frame
    decreases |cases|
  {
    if cases == [] {
      LeadsSelf(Machine(a, prog), st);
      st' := st;
    } else {
      var head := if cases[0].Some? then [CmpImm(cases[0].value), Je(first)] else [];
      CodeParts(prog, st.pc, head, CaseTests(cases[1..], first + 1));
      var on := st;
      if cases[0].Some? {
        TestRuns(a, prog, st, cases[0].value, Je(first), at);
        on := st.(pc := if st.ax.n == cases[0].value then at else st.pc + 2, flags := (st.ax.n, cases[0].value));
      } else {
        LeadsSelf(Machine(a, prog), st);
      }
      if cases[0] == Ir.Some(st.ax.n) {
        LeadsLess(Machine(a, prog), st, 2, 0, Running(on));
        st' := on;
      } else {
        st' := CaseTestsRun(a, prog, cases[1..], first + 1, on, at);
        Then(a, prog, st, 0, on, 0, Running(st'));
      }
    }
  }

  /** From the comparisons to the selected case, or to the end. */
  lemma Dispatched(a: Arith, prog: Prog, cases: seq<Ir.Option<int>>, first: nat, end: nat, e: nat, st: State, at: nat)
      returns (last: State)
    requires DistinctLabels(prog) && CodeAt(prog, st.pc, CaseTests(cases, first)) && st.ax.Num?
    requires CodeAt(prog, st.pc + |CaseTests(cases, first)|, [Jmp(DefaultMark(cases, first, end))])
    requires LabelAt(prog, end, e)
    requires var k := Select(cases, st.ax.n); if k.Some? then LabelAt(prog, first + k.value, at) else at == e
    ensures Leads(Machine(a, prog), st, 0, Running(last))
    ensures last.pc == at && last.ax == st.ax && last.stack == st.stack && last.frame == st.frame
  {
    if FirstEqual(cases, st.ax.n) < |cases| {
      last := CaseTestsRun(a, prog, cases, first, st, at);
    } else {
      var on := CaseTestsRun(a, prog, cases, first, st, st.pc + |CaseTests(cases, first)|);
      JumpRuns(a, prog, on, DefaultMark(cases, first, end), at);
      last := on.(pc := at);
      Then(a, prog, st, 0, on, 1, Running(last));
    }
  }

  /** The control value leads to the selected case, or to the end. */
  lemma SwitchGoes(a: Arith, prog: Prog, p: nat, c: Prog, s: nat, cases: seq<Ir.Option<int>>, first: nat, b: nat,
      body: Prog, end: nat, frame: Frame, x: Value, at: nat)
    requires DistinctLabels(prog) && Computes(a, prog, p, frame, s, Ir.Some(x))
    requires SwitchAt(prog, p, c, s, CaseTests(cases, first), b, DefaultMark(cases, first, end), body, end)
    requires var k := Select(cases, x.n); if k.Some? then LabelAt(prog, first + k.value, at) else at == b + |body|
    ensures Computes(a, prog, p, frame, at, Ir.Some(x))
  {
    forall st: State | st.pc == p && st.frame == frame ensures Gives(a, prog, st, at, Ir.Some(x)) {
      assert Gives(a, prog, st, s, Ir.Some(x));
      var mid := Given(a, prog, st, s, x);
      var last := Dispatched(a, prog, cases, first, end, b + |body|, mid, at);
      Then(a, prog, st, 0, mid, 0, Running(last));
      assert After(st, last, at, x);
    }
  }

  /** The body of a `switch`, which ends at the end label. */
  lemma SwitchRound(a: Arith, prog: Prog, e: nat, end: nat, cont: nat, at: nat, frame: Frame, w: Ways, fuel: nat,
      x: Exit)
    requires DistinctLabels(prog) && LabelAt(prog, end, e) && w.after == e + 1
    requires w.inLoop ==> w.env.marks.Some? && w.env.marks.value.cont == cont
    requires Executes(a, prog, at, frame, Ways(e, w.inLoop, w.env.(marks := Ir.Some(Marks(end, cont)))), fuel, x)
    ensures Executes(a, prog, at, frame, w, fuel, Outside(x))
  {
    EndExecutes(a, prog, e, end, x.frame, w, fuel);
    SwitchBodyExecutes(a, prog, at, frame, w, Marks(end, cont), e, e, fuel, x);
  }
}
