/** How pieces of stack code compose: what running a piece gives, and what follows it. */
module StackRuns {
  import Ir
  import opened StackMachine

  datatype Value = Value(n: int, frame: Frame)

  /** After a piece of code: the value is in the accumulator, the stack is as it was. */
  ghost predicate After(st: State, st': State, p: nat, v: Value) {
    st'.pc == p && st'.ax == Num(v.n) && st'.stack == st.stack && st'.frame == v.frame
  }

  lemma OneLine(a: Arith, i: Ins, st: State)
    ensures Lines(a, [i], st) == Line(a, i, st)
  {
    var s := Line(a, i, st);
    assert [i][1..] == [];
    assert s.Running? ==> Lines(a, [], s.st) == s;
  }

  lemma TwoLines(a: Arith, i: Ins, j: Ins, st: State)
    ensures Lines(a, [i, j], st) == if Line(a, i, st).Running? then Line(a, j, Line(a, i, st).st) else Line(a, i, st)
  {
    var s := Line(a, i, st);
    assert [i, j][1..] == [j];
    if s.Running? {
      OneLine(a, j, s.st);
    }
  }

  lemma ThreeLines(a: Arith, i: Ins, j: Ins, k: Ins, st: State)
    ensures Lines(a, [i, j, k], st) == if Line(a, i, st).Running? then Lines(a, [j, k], Line(a, i, st).st)
        else Line(a, i, st)
  {
    assert [i, j, k][1..] == [j, k];
  }

  lemma {:induction false} LinesAppend(a: Arith, x: Prog, y: Prog, st: State)
    ensures Lines(a, x + y, st) == if Lines(a, x, st).Running? then Lines(a, y, Lines(a, x, st).st) else Lines(a, x, st)
  {
    if x == [] {
      assert x + y == y;
    } else {
      assert (x + y)[1..] == x[1..] + y;
      var s := Line(a, x[0], st);
      if s.Running? {
        LinesAppend(a, x[1..], y, s.st);
      }
    }
  }

  /** Running from `st`, the value `x` is computed and control is at `p`. */
  ghost predicate Gives(a: Arith, prog: Prog, st: State, p: nat, x: Ir.Option<Value>) {
    match x
    case None => Leads(Machine(a, prog), st, 0, Trapped)
    case Some(v) => exists st' :: After(st, st', p, v) && Leads(Machine(a, prog), st, 0, Running(st'))
  }

  /** What a later state gives, an earlier one with the same stack gives too. */
  lemma GivesOn(a: Arith, prog: Prog, st: State, least: nat, mid: State, p: nat, x: Ir.Option<Value>)
    requires Leads(Machine(a, prog), st, least, Running(mid)) && mid.stack == st.stack && Gives(a, prog, mid, p, x)
    ensures Gives(a, prog, st, p, x)
  {
    var next := Machine(a, prog);
    if x.None? {
      LeadsOn(next, st, least, mid, 0, Trapped);
      LeadsLess(next, st, least, 0, Trapped);
    } else {
      var st' :| After(mid, st', p, x.value) && Leads(next, mid, 0, Running(st'));
      LeadsOn(next, st, least, mid, 0, Running(st'));
      LeadsLess(next, st, least, 0, Running(st'));
    }
  }

  /** The state in which a value has been computed. */
  lemma Given(a: Arith, prog: Prog, st: State, p: nat, v: Value) returns (st': State)
    requires Gives(a, prog, st, p, Ir.Some(v))
    ensures After(st, st', p, v) && Leads(Machine(a, prog), st, 0, Running(st'))
  {
    st' :| After(st, st', p, v) && Leads(Machine(a, prog), st, 0, Running(st'));
  }

  lemma StraightGives(a: Arith, prog: Prog, code: Prog, st: State, x: Ir.Option<Value>)
    requires CodeAt(prog, st.pc, code) && Straight(code)
    requires var s := Lines(a, code, st);
             if x.None? then s == Trapped
             else s.Running? && s.st.ax == Num(x.value.n) && s.st.stack == st.stack && s.st.frame == x.value.frame
    ensures Gives(a, prog, st, st.pc + |code|, x)
  {
    LinesRun(a, prog, code, st);
    if x.Some? {
      assert After(st, Lines(a, code, st).st, st.pc + |code|, x.value);
    }
  }

  /** A run and its continuation. */
  lemma Then(a: Arith, prog: Prog, x: State, i: nat, y: State, j: nat, s: Status)
    requires Leads(Machine(a, prog), x, i, Running(y)) && Leads(Machine(a, prog), y, j, s)
    ensures Leads(Machine(a, prog), x, 0, s)
  {
    LeadsOn(Machine(a, prog), x, i, y, j, s);
    LeadsLess(Machine(a, prog), x, i + j, 0, s);
  }

  lemma LineRuns(a: Arith, prog: Prog, st: State, i: Ins)
    requires CodeAt(prog, st.pc, [i]) && !IsControl(i)
    ensures Leads(Machine(a, prog), st, 0, Line(a, i, st))
  {
    LinesRun(a, prog, [i], st);
    OneLine(a, i, st);
  }

  lemma PushRuns(a: Arith, prog: Prog, st: State)
    requires CodeAt(prog, st.pc, [PushAx])
    ensures Leads(Machine(a, prog), st, 0, Running(st.(pc := st.pc + 1, stack := st.stack + [st.ax])))
  {
    LineRuns(a, prog, st, PushAx);
  }

  lemma PopRuns(a: Arith, prog: Prog, st: State, below: seq<Val>, v: Val)
    requires CodeAt(prog, st.pc, [PopDx]) && st.stack == below + [v]
    ensures Leads(Machine(a, prog), st, 0, Running(st.(pc := st.pc + 1, dx := v, stack := below)))
  {
    LineRuns(a, prog, st, PopDx);
    assert Rest(st.stack) == below;
  }

  /** The pieces of `l ++ i ++ r ++ j ++ t`. */
  lemma FiveParts(prog: Prog, p: nat, l: Prog, i: Prog, r: Prog, j: Prog, t: Prog)
    requires CodeAt(prog, p, l + i + r + j + t)
    ensures CodeAt(prog, p, l) && CodeAt(prog, p + |l|, i) && CodeAt(prog, p + |l| + |i|, r)
    ensures CodeAt(prog, p + |l| + |i| + |r|, j) && CodeAt(prog, p + |l| + |i| + |r| + |j|, t)
  {
    CodeParts(prog, p, l + i + r + j, t);
    CodeParts(prog, p, l + i + r, j);
    CodeParts(prog, p, l + i, r);
    CodeParts(prog, p, l, i);
  }

  /** From position `p` and this frame, control reaches `q` with the value `x`. */
  ghost predicate Computes(a: Arith, prog: Prog, p: nat, frame: Frame, q: nat, x: Ir.Option<Value>) {
    forall st: State {:trigger Gives(a, prog, st, q, x)} | st.pc == p && st.frame == frame :: Gives(a, prog, st, q, x)
  }

  function Followed(x: Ir.Option<Value>, y: Ir.Option<Value>): Ir.Option<Value> {
    if x.None? then Ir.None else y
  }

  lemma FollowedComputes(a: Arith, prog: Prog, p: nat, frame: Frame, q: nat, x: Ir.Option<Value>, r: nat,
      y: Ir.Option<Value>)
    requires Computes(a, prog, p, frame, q, x)
    requires x.Some? ==> Computes(a, prog, q, x.value.frame, r, y)
    ensures Computes(a, prog, p, frame, r, Followed(x, y))
  {
    forall st: State | st.pc == p && st.frame == frame ensures Gives(a, prog, st, r, Followed(x, y)) {
      assert Gives(a, prog, st, q, x);
      if x.Some? {
        var mid := Given(a, prog, st, q, x.value);
        assert Gives(a, prog, mid, r, y);
        GivesOn(a, prog, st, 0, mid, r, y);
      }
    }
  }

  /** Straight code after a value `x` makes it `y`. */
  ghost predicate Finishes(a: Arith, code: Prog, x: Value, y: Value) {
    forall st: State {:trigger Lines(a, code, st)} | st.ax == Num(x.n) && st.frame == x.frame ::
      var s := Lines(a, code, st);
      s.Running? && s.st.ax == Num(y.n) && s.st.stack == st.stack && s.st.frame == y.frame
  }

  lemma TailComputes(a: Arith, prog: Prog, p: nat, frame: Frame, q: nat, x: Ir.Option<Value>, code: Prog, y: Value)
    requires Computes(a, prog, p, frame, q, x) && CodeAt(prog, q, code) && Straight(code)
    requires x.Some? ==> Finishes(a, code, x.value, y)
    ensures Computes(a, prog, p, frame, q + |code|, Followed(x, Ir.Some(y)))
  {
    forall st: State | st.pc == p && st.frame == frame ensures Gives(a, prog, st, q + |code|, Followed(x, Ir.Some(y))) {
      assert Gives(a, prog, st, q, x);
      if x.Some? {
        var mid := Given(a, prog, st, q, x.value);
        assert Lines(a, code, mid).Running?;
        StraightGives(a, prog, code, mid, Ir.Some(y));
        GivesOn(a, prog, st, 0, mid, q + |code|, Ir.Some(y));
      }
    }
  }

  lemma ConstantComputes(a: Arith, prog: Prog, p: nat, frame: Frame, n: int)
    requires CodeAt(prog, p, [MovImm(n)])
    ensures Computes(a, prog, p, frame, p + 1, Ir.Some(Value(n, frame)))
  {
    forall st: State | st.pc == p && st.frame == frame ensures Gives(a, prog, st, p + 1, Ir.Some(Value(n, frame))) {
      OneLine(a, MovImm(n), st);
      StraightGives(a, prog, [MovImm(n)], st, Ir.Some(Value(n, frame)));
    }
  }

  /** Control that passes a label first. */
  lemma AfterLabel(a: Arith, prog: Prog, p: nat, mark: nat, frame: Frame, q: nat, x: Ir.Option<Value>)
    requires LabelAt(prog, mark, p) && Computes(a, prog, p + 1, frame, q, x)
    ensures Computes(a, prog, p, frame, q, x)
  {
    forall st: State | st.pc == p && st.frame == frame ensures Gives(a, prog, st, q, x) {
      LabelRuns(a, prog, st, mark);
      var mid := st.(pc := p + 1);
      assert Gives(a, prog, mid, q, x);
      GivesOn(a, prog, st, 1, mid, q, x);
    }
  }

  /** Control that ends with a step that changes only the position. */
  lemma MovesOn(a: Arith, prog: Prog, p: nat, frame: Frame, q: nat, x: Ir.Option<Value>, r: nat)
    requires Computes(a, prog, p, frame, q, x)
    requires forall st: State {:trigger Machine(a, prog)(st)} | st.pc == q ::
               Machine(a, prog)(st) == Running(st.(pc := r))
    ensures Computes(a, prog, p, frame, r, x)
  {
    forall st: State | st.pc == p && st.frame == frame ensures Gives(a, prog, st, r, x) {
      assert Gives(a, prog, st, q, x);
      if x.Some? {
        var mid := Given(a, prog, st, q, x.value);
        var end := mid.(pc := r);
        LeadsStep(Machine(a, prog), mid);
        Then(a, prog, st, 0, mid, 1, Running(end));
        assert After(st, end, r, x.value);
      }
    }
  }

  lemma ThenLabel(a: Arith, prog: Prog, p: nat, frame: Frame, q: nat, x: Ir.Option<Value>, mark: nat)
    requires Computes(a, prog, p, frame, q, x) && LabelAt(prog, mark, q)
    ensures Computes(a, prog, p, frame, q + 1, x)
  {
    MovesOn(a, prog, p, frame, q, x, q + 1);
  }

  lemma ThenJump(a: Arith, prog: Prog, p: nat, frame: Frame, q: nat, x: Ir.Option<Value>, mark: nat, r: nat)
    requires DistinctLabels(prog) && Computes(a, prog, p, frame, q, x) && CodeAt(prog, q, [Jmp(mark)])
    requires LabelAt(prog, mark, r)
    ensures Computes(a, prog, p, frame, r, x)
  {
    assert Agrees(prog, q, [Jmp(mark)], 0);
    Found(prog, mark, r);
    MovesOn(a, prog, p, frame, q, x, r);
  }

  /** A value is tested, and control goes to one of two places. */
  lemma TestComputes(a: Arith, prog: Prog, p: nat, frame: Frame, q: nat, x: Ir.Option<Value>, jump: Ins, away: nat,
      r: nat, y: Ir.Option<Value>)
    requires DistinctLabels(prog) && Computes(a, prog, p, frame, q, x) && (jump.Je? || jump.Jne?)
    requires CodeAt(prog, q, [CmpImm(0), jump]) && LabelAt(prog, jump.mark, away)
    requires x.Some? ==> Computes(a, prog, if Taken(jump, x.value.n == 0) then away else q + 2, x.value.frame, r, y)
    ensures Computes(a, prog, p, frame, r, Followed(x, y))
  {
    forall st: State | st.pc == p && st.frame == frame ensures Gives(a, prog, st, r, Followed(x, y)) {
      assert Gives(a, prog, st, q, x);
      if x.Some? {
        var mid := Given(a, prog, st, q, x.value);
        TestRuns(a, prog, mid, 0, jump, away);
        var on := mid.(pc := if Taken(jump, x.value.n == 0) then away else q + 2, flags := (x.value.n, 0));
        Then(a, prog, st, 0, mid, 2, Running(on));
        assert Gives(a, prog, on, r, y);
        GivesOn(a, prog, st, 0, on, r, y);
      }
    }
  }
}
