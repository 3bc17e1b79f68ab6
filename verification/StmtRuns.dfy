/** How pieces of code for statements compose: a statement ends by falling through, by a
    jump to one of the labels around it, by a trap, or not within its fuel. */
module StmtRuns {
  import Ir
  import opened StackMachine
  import opened StackRuns

  datatype How =
    | Normal
    | Broke
    | Continued
    | Returned(value: Ir.Option<int>)
    | Went(name: string)
    | Faulted
    | Unfinished

  datatype Exit = Exit(how: How, frame: Frame)

  /** The labels `break` and `continue` jump to. */
  datatype Marks = Marks(brk: nat, cont: nat)

  /** The numbers of the goto labels. */
  datatype Labels = Labels(number: map<string, nat>)

  /** The labels a statement can mention: the end of the function, those of the innermost
      loop or switch, and the goto labels. */
  datatype Env = Env(end: nat, marks: Ir.Option<Marks>, labels: Labels)

  /** Where control can go from a statement: behind it, or to a label. */
  datatype Ways = Ways(after: nat, inLoop: bool, env: Env)

  /** Control is where a statement that ended this way leaves it. */
  ghost predicate Lands(prog: Prog, w: Ways, how: How, st: State) {
    match how
    case Normal => st.pc == w.after
    case Broke => w.env.marks.Some? && LabelAt(prog, w.env.marks.value.brk, st.pc)
    case Continued => w.inLoop && w.env.marks.Some? && LabelAt(prog, w.env.marks.value.cont, st.pc)
    case Returned(v) => LabelAt(prog, w.env.end, st.pc) && (v.Some? ==> st.ax == Num(v.value))
    case Went(n) => n in w.env.labels.number && LabelAt(prog, w.env.labels.number[n], st.pc)
    case _ => false
  }

  ghost predicate Near(st: State, st': State, frame: Frame) {
    st'.stack == st.stack && st'.frame == frame
  }

  /** A `goto` takes at least one instruction. */
  function Least(how: How): nat {
    if how.Went? then 1 else 0
  }

  /** What the machine does from `st` when the statement ends as `r`. */
  ghost predicate Leaves(a: Arith, prog: Prog, w: Ways, st: State, fuel: nat, r: Exit) {
    match r.how
    case Faulted => Leads(Machine(a, prog), st, 0, Trapped)
    case Unfinished => exists st' :: Leads(Machine(a, prog), st, fuel, Running(st'))
    case how => exists st' {:trigger Lands(prog, w, how, st')} ::
      Near(st, st', r.frame) && Lands(prog, w, how, st') && Leads(Machine(a, prog), st, Least(how), Running(st'))
  }

  ghost predicate Executes(a: Arith, prog: Prog, p: nat, frame: Frame, w: Ways, fuel: nat, r: Exit) {
    forall st: State {:trigger Leaves(a, prog, w, st, fuel, r)} | st.pc == p && st.frame == frame ::
        Leaves(a, prog, w, st, fuel, r)
  }

  predicate Ends(how: How) {
    !how.Faulted? && !how.Unfinished?
  }

  lemma Left(a: Arith, prog: Prog, w: Ways, st: State, fuel: nat, r: Exit) returns (st': State)
    requires Leaves(a, prog, w, st, fuel, r) && Ends(r.how)
    ensures Near(st, st', r.frame) && Lands(prog, w, r.how, st')
    ensures Leads(Machine(a, prog), st, Least(r.how), Running(st'))
  {
    st' :| Near(st, st', r.frame) && Lands(prog, w, r.how, st') &&
        Leads(Machine(a, prog), st, Least(r.how), Running(st'));
  }

  /** Where a run gets, an earlier state with the same stack gets too, and no sooner. */
  lemma LeavesOn(a: Arith, prog: Prog, w: Ways, st: State, least: nat, mid: State, fuel: nat, r: Exit)
    requires Leads(Machine(a, prog), st, least, Running(mid)) && mid.stack == st.stack
    requires Leaves(a, prog, w, mid, fuel, r)
    ensures Leaves(a, prog, w, st, fuel + least, r)
  {
    var next := Machine(a, prog);
    if r.how.Faulted? {
      Then(a, prog, st, least, mid, 0, Trapped);
    } else if r.how.Unfinished? {
      var st' :| Leads(next, mid, fuel, Running(st'));
      LeadsOn(next, st, least, mid, fuel, Running(st'));
    } else {
      var st' := Left(a, prog, w, mid, fuel, r);
      LeadsOn(next, st, least, mid, Least(r.how), Running(st'));
      LeadsLess(next, st, least + Least(r.how), Least(r.how), Running(st'));
    }
  }

  lemma LessFuel(a: Arith, prog: Prog, p: nat, frame: Frame, w: Ways, fuel: nat, less: nat, r: Exit)
    requires Executes(a, prog, p, frame, w, fuel, r) && less <= fuel
    ensures Executes(a, prog, p, frame, w, less, r)
  {
    forall st: State | st.pc == p && st.frame == frame ensures Leaves(a, prog, w, st, less, r) {
      assert Leaves(a, prog, w, st, fuel, r);
      if r.how.Unfinished? {
        var st' :| Leads(Machine(a, prog), st, fuel, Running(st'));
        LeadsLess(Machine(a, prog), st, fuel, less, Running(st'));
      }
    }
  }

  /** A value is computed first; where there is none, the statement faults. */
  function Using(x: Ir.Option<Value>, frame: Frame, r: Exit): Exit {
    if x.None? then Exit(Faulted, frame) else r
  }

  lemma UsingExecutes(a: Arith, prog: Prog, p: nat, frame: Frame, q: nat, x: Ir.Option<Value>, w: Ways, fuel: nat,
      r: Exit)
    requires Computes(a, prog, p, frame, q, x)
    requires x.Some? ==> Executes(a, prog, q, x.value.frame, w, fuel, r)
    ensures Executes(a, prog, p, frame, w, fuel, Using(x, frame, r))
  {
    forall st: State | st.pc == p && st.frame == frame ensures Leaves(a, prog, w, st, fuel, Using(x, frame, r)) {
      assert Gives(a, prog, st, q, x);
      if x.Some? {
        var mid := Given(a, prog, st, q, x.value);
        assert Leaves(a, prog, w, mid, fuel, r);
        LeavesOn(a, prog, w, st, 0, mid, fuel, r);
      }
    }
  }

  lemma TestExecutes(a: Arith, prog: Prog, p: nat, frame: Frame, q: nat, x: Ir.Option<Value>, jump: Ins, away: nat,
      w: Ways, fuel: nat, r: Exit)
    requires DistinctLabels(prog) && Computes(a, prog, p, frame, q, x) && (jump.Je? || jump.Jne?)
    requires CodeAt(prog, q, [CmpImm(0), jump]) && LabelAt(prog, jump.mark, away)
    requires x.Some? ==>
               Executes(a, prog, if Taken(jump, x.value.n == 0) then away else q + 2, x.value.frame, w, fuel, r)
    ensures Executes(a, prog, p, frame, w, fuel, Using(x, frame, r))
  {
    if x.Some? {
      var to := if Taken(jump, x.value.n == 0) then away else q + 2;
      TestGoes(a, prog, p, frame, q, x, jump, away);
      UsingExecutes(a, prog, p, frame, to, x, w, fuel, r);
    } else {
      UsingExecutes(a, prog, p, frame, q, x, w, fuel, r);
    }
  }

  /** The test keeps the value and the frame. */
  lemma TestGoes(a: Arith, prog: Prog, p: nat, frame: Frame, q: nat, x: Ir.Option<Value>, jump: Ins, away: nat)
    requires DistinctLabels(prog) && Computes(a, prog, p, frame, q, x) && (jump.Je? || jump.Jne?) && x.Some?
    requires CodeAt(prog, q, [CmpImm(0), jump]) && LabelAt(prog, jump.mark, away)
    ensures Computes(a, prog, p, frame, if Taken(jump, x.value.n == 0) then away else q + 2, x)
  {
    var to := if Taken(jump, x.value.n == 0) then away else q + 2;
    forall st: State | st.pc == p && st.frame == frame ensures Gives(a, prog, st, to, x) {
      assert Gives(a, prog, st, q, x);
      var mid := Given(a, prog, st, q, x.value);
      TestRuns(a, prog, mid, 0, jump, away);
      var on := mid.(pc := to, flags := (x.value.n, 0));
      Then(a, prog, st, 0, mid, 2, Running(on));
      assert After(st, on, to, x.value);
    }
  }

  /** One statement and, when it falls through, another. */
  function Chained(x: Exit, y: Exit): Exit {
    if x.how.Normal? then y else x
  }

  lemma ChainExecutes(a: Arith, prog: Prog, p: nat, frame: Frame, w: Ways, q: nat, fuel: nat, x: Exit, y: Exit)
    requires Executes(a, prog, p, frame, w.(after := q), fuel, x)
    requires x.how.Normal? ==> Executes(a, prog, q, x.frame, w, fuel, y)
    ensures Executes(a, prog, p, frame, w, fuel, Chained(x, y))
  {
    forall st: State | st.pc == p && st.frame == frame ensures Leaves(a, prog, w, st, fuel, Chained(x, y)) {
      assert Leaves(a, prog, w.(after := q), st, fuel, x);
      if x.how.Normal? {
        var mid := Left(a, prog, w.(after := q), st, fuel, x);
        assert Leaves(a, prog, w, mid, fuel, y);
        LeavesOn(a, prog, w, st, 0, mid, fuel, y);
      } else if Ends(x.how) {
        var mid := Left(a, prog, w.(after := q), st, fuel, x);
        assert Lands(prog, w, x.how, mid);
      }
    }
  }

  /** Nothing is left to do. */
  lemma NothingExecutes(a: Arith, prog: Prog, frame: Frame, w: Ways, fuel: nat)
    ensures Executes(a, prog, w.after, frame, w, fuel, Exit(Normal, frame))
  {
    forall st: State | st.pc == w.after && st.frame == frame ensures Leaves(a, prog, w, st, fuel, Exit(Normal, frame)) {
      LeadsSelf(Machine(a, prog), st);
      assert Near(st, st, frame) && Lands(prog, w, Normal, st);
    }
  }

  /** A step that changes only the position. */
  lemma StepFirst(a: Arith, prog: Prog, p: nat, q: nat, frame: Frame, w: Ways, fuel: nat, r: Exit)
    requires forall st: State {:trigger Machine(a, prog)(st)} | st.pc == p ::
               Machine(a, prog)(st) == Running(st.(pc := q))
    requires Executes(a, prog, q, frame, w, fuel, r)
    ensures Executes(a, prog, p, frame, w, fuel + 1, r)
  {
    forall st: State | st.pc == p && st.frame == frame ensures Leaves(a, prog, w, st, fuel + 1, r) {
      var mid := st.(pc := q);
      LeadsStep(Machine(a, prog), st);
      assert Leaves(a, prog, w, mid, fuel, r);
      LeavesOn(a, prog, w, st, 1, mid, fuel, r);
    }
  }

  lemma LabelFirst(a: Arith, prog: Prog, p: nat, mark: nat, frame: Frame, w: Ways, fuel: nat, r: Exit)
    requires LabelAt(prog, mark, p) && Executes(a, prog, p + 1, frame, w, fuel, r)
    ensures Executes(a, prog, p, frame, w, fuel + 1, r) && Executes(a, prog, p, frame, w, fuel, r)
  {
    StepFirst(a, prog, p, p + 1, frame, w, fuel, r);
    LessFuel(a, prog, p, frame, w, fuel + 1, fuel, r);
  }

  lemma JumpFirst(a: Arith, prog: Prog, p: nat, mark: nat, q: nat, frame: Frame, w: Ways, fuel: nat, r: Exit)
    requires DistinctLabels(prog) && CodeAt(prog, p, [Jmp(mark)]) && LabelAt(prog, mark, q)
    requires Executes(a, prog, q, frame, w, fuel, r)
    ensures Executes(a, prog, p, frame, w, fuel + 1, r) && Executes(a, prog, p, frame, w, fuel, r)
  {
    assert Agrees(prog, p, [Jmp(mark)], 0);
    Found(prog, mark, q);
    StepFirst(a, prog, p, q, frame, w, fuel, r);
    LessFuel(a, prog, p, frame, w, fuel + 1, fuel, r);
  }

  // ------------------------------------------------------------------------- loops

  predicate Loops(how: How) {
    how.Normal? || how.Continued?
  }

  /** A body that broke out of its loop or switch has ended it. */
  function Outside(x: Exit): Exit {
    if x.how.Broke? then Exit(Normal, x.frame) else x
  }

  /** The body of a loop: what follows it when it falls through or continues, and the rest. */
  lemma BodyExecutes(a: Arith, prog: Prog, p: nat, frame: Frame, w: Ways, marks: Marks, after: nat, again: nat,
      end: nat, fuel: nat, x: Exit, y: Exit)
    requires DistinctLabels(prog) && LabelAt(prog, marks.cont, again) && LabelAt(prog, marks.brk, end)
    requires Executes(a, prog, p, frame, Ways(after, true, w.env.(marks := Ir.Some(marks))), fuel, x)
    requires x.how.Normal? ==> Executes(a, prog, after, x.frame, w, fuel, y)
    requires x.how.Continued? ==> Executes(a, prog, again, x.frame, w, fuel, y)
    requires x.how.Broke? ==> Executes(a, prog, end, x.frame, w, fuel, Exit(Normal, x.frame))
    ensures Executes(a, prog, p, frame, w, fuel, if Loops(x.how) then y else Outside(x))
  {
    var w' := Ways(after, true, w.env.(marks := Ir.Some(marks)));
    var r := if Loops(x.how) then y else Outside(x);
    forall st: State | st.pc == p && st.frame == frame ensures Leaves(a, prog, w, st, fuel, r) {
      assert Leaves(a, prog, w', st, fuel, x);
      if Ends(x.how) {
        var mid := Left(a, prog, w', st, fuel, x);
        if Loops(x.how) || x.how.Broke? {
          assert x.how.Continued? ==> mid.pc == again;
          assert x.how.Broke? ==> mid.pc == end;
          assert Leaves(a, prog, w, mid, fuel, r);
          LeavesOn(a, prog, w, st, 0, mid, fuel, r);
        } else {
          assert Lands(prog, w, x.how, mid);
        }
      }
    }
  }

  /** The body of a `switch`: `break` ends it, `continue` is for the loop around it. */
  lemma SwitchBodyExecutes(a: Arith, prog: Prog, p: nat, frame: Frame, w: Ways, marks: Marks, after: nat, end: nat,
      fuel: nat, x: Exit)
    requires DistinctLabels(prog) && LabelAt(prog, marks.brk, end)
    requires w.inLoop ==> w.env.marks.Some? && w.env.marks.value.cont == marks.cont
    requires Executes(a, prog, p, frame, Ways(after, w.inLoop, w.env.(marks := Ir.Some(marks))), fuel, x)
    requires x.how.Normal? ==> Executes(a, prog, after, x.frame, w, fuel, x)
    requires x.how.Broke? ==> Executes(a, prog, end, x.frame, w, fuel, Exit(Normal, x.frame))
    ensures Executes(a, prog, p, frame, w, fuel, Outside(x))
  {
    var w' := Ways(after, w.inLoop, w.env.(marks := Ir.Some(marks)));
    forall st: State | st.pc == p && st.frame == frame ensures Leaves(a, prog, w, st, fuel, Outside(x)) {
      assert Leaves(a, prog, w', st, fuel, x);
      if Ends(x.how) {
        var mid := Left(a, prog, w', st, fuel, x);
        if x.how.Normal? || x.how.Broke? {
          assert x.how.Broke? ==> mid.pc == end;
          assert Leaves(a, prog, w, mid, fuel, Outside(x));
          LeavesOn(a, prog, w, st, 0, mid, fuel, Outside(x));
        } else {
          assert Lands(prog, w, x.how, mid);
        }
      }
    }
  }

  /** A `goto`, and then the run from its label, which is at least one step later. */
  lemma GotoExecutes(a: Arith, prog: Prog, p: nat, frame: Frame, w: Ways, x: Exit, q: nat, fuel: nat, more: nat,
      r: Exit)
    requires DistinctLabels(prog) && x.how.Went? && x.how.name in w.env.labels.number
    requires LabelAt(prog, w.env.labels.number[x.how.name], q)
    requires Executes(a, prog, p, frame, w, fuel, x) && Executes(a, prog, q, x.frame, w, more, r)
    ensures Executes(a, prog, p, frame, w, more + 1, r)
  {
    forall st: State | st.pc == p && st.frame == frame ensures Leaves(a, prog, w, st, more + 1, r) {
      assert Leaves(a, prog, w, st, fuel, x);
      var mid := Left(a, prog, w, st, fuel, x);
      assert Leaves(a, prog, w, mid, more, r);
      LeavesOn(a, prog, w, st, 1, mid, more, r);
    }
  }
}
