/** Code for int expressions: running it leaves the value in the accumulator, the frame as
    the source leaves it, and the stack as it was. */
module CodegenExpr {
  import Ir
  import opened StackMachine
  import opened StackRuns

  datatype BinOp =
    | Add | Sub | Mul | Div | Mod
    | ShiftLeft | ShiftRight
    | BitAnd | BitOr | BitXor
    | Equal | NotEqual | Less | LessEqual | Greater | GreaterEqual

  datatype Exp =
    | IntLit(n: int)
    | Variable(slot: nat)
    | Binop(op: BinOp, left: Exp, right: Exp)
    | LogicalAnd(left: Exp, right: Exp)
    | LogicalOr(left: Exp, right: Exp)
    | Conditional(condition: Exp, thenExp: Exp, elseExp: Exp)
    | Comma(left: Exp, right: Exp)
    | Assign(slot: nat, right: Exp)
    | IncDec(slot: nat, up: bool, prefix: bool)
    | Negation(operand: Exp)
    | BitwiseComplement(operand: Exp)
    | LogicalNegation(operand: Exp)

  // ------------------------------------------------------------- what it means

  function Apply(a: Arith, op: BinOp, l: int, r: int): Ir.Option<int> {
    match op
    case Add => Ir.Some(a.alu(Add32, l, r))
    case Sub => Ir.Some(a.alu(Sub32, l, r))
    case Mul => Ir.Some(a.alu(Mul32, l, r))
    case Div => var qr := a.divide(l, r); if qr.None? then Ir.None else Ir.Some(qr.value.0)
    case Mod => var qr := a.divide(l, r); if qr.None? then Ir.None else Ir.Some(qr.value.1)
    case ShiftLeft => Ir.Some(a.alu(Shl32, l, r))
    case ShiftRight => Ir.Some(a.alu(Sar32, l, r))
    case BitAnd => Ir.Some(a.alu(And32, l, r))
    case BitOr => Ir.Some(a.alu(Or32, l, r))
    case BitXor => Ir.Some(a.alu(Xor32, l, r))
    case Equal => Ir.Some(if l == r then 1 else 0)
    case NotEqual => Ir.Some(if l != r then 1 else 0)
    case Less => Ir.Some(if l < r then 1 else 0)
    case LessEqual => Ir.Some(if l <= r then 1 else 0)
    case Greater => Ir.Some(if l > r then 1 else 0)
    case GreaterEqual => Ir.Some(if l >= r then 1 else 0)
  }

  /** The value of an expression and the frame after it; `None` where it divides by zero.
      The left operand is evaluated first, and `&&`, `||` and `?:` evaluate what they need
      (C11 sections 6.5.13 to 6.5.17). */
  function Eval(a: Arith, e: Exp, frame: Frame): Ir.Option<Value>
    decreases e, 1
  {
    EvalKind(a, e, frame)
  }

  function EvalKind(a: Arith, e: Exp, frame: Frame): Ir.Option<Value>
    decreases e, 0
  {
    match e
    case IntLit(n) => Ir.Some(Value(n, frame))
    case Variable(s) => Ir.Some(Value(SlotValue(frame, s), frame))
    case Binop(op, left, right) =>
      var l := Eval(a, left, frame);
      if l.None? then Ir.None
      else
        var r := Eval(a, right, l.value.frame);
        if r.None? then Ir.None
        else
          var x := Apply(a, op, l.value.n, r.value.n);
          if x.None? then Ir.None else Ir.Some(Value(x.value, r.value.frame))
    case LogicalAnd(left, right) =>
      var l := Eval(a, left, frame);
      if l.None? then Ir.None
      else if l.value.n == 0 then Ir.Some(Value(0, l.value.frame))
      else
        var r := Eval(a, right, l.value.frame);
        if r.None? then Ir.None else Ir.Some(Value(if r.value.n != 0 then 1 else 0, r.value.frame))
    case LogicalOr(left, right) =>
      var l := Eval(a, left, frame);
      if l.None? then Ir.None
      else if l.value.n != 0 then Ir.Some(Value(1, l.value.frame))
      else
        var r := Eval(a, right, l.value.frame);
        if r.None? then Ir.None else Ir.Some(Value(if r.value.n != 0 then 1 else 0, r.value.frame))
    case Conditional(condition, thenExp, elseExp) =>
      var c := Eval(a, condition, frame);
      if c.None? then Ir.None
      else if c.value.n != 0 then Eval(a, thenExp, c.value.frame)
      else Eval(a, elseExp, c.value.frame)
    case Comma(left, right) =>
      var l := Eval(a, left, frame);
      if l.None? then Ir.None else Eval(a, right, l.value.frame)
    case Assign(s, right) =>
      var r := Eval(a, right, frame);
      if r.None? then Ir.None else Ir.Some(Value(r.value.n, Put(r.value.frame, s, r.value.n)))
    case IncDec(s, up, prefix) =>
      var old_ := SlotValue(frame, s);
      var new_ := a.alu(if up then Add32 else Sub32, old_, 1);
      Ir.Some(Value(if prefix then new_ else old_, Put(frame, s, new_)))
    case Negation(operand) =>
      var x := Eval(a, operand, frame);
      if x.None? then Ir.None else Ir.Some(Value(a.negate(x.value.n), x.value.frame))
    case BitwiseComplement(operand) =>
      var x := Eval(a, operand, frame);
      if x.None? then Ir.None else Ir.Some(Value(a.invert(x.value.n), x.value.frame))
    case LogicalNegation(operand) =>
      var x := Eval(a, operand, frame);
      if x.None? then Ir.None else Ir.Some(Value(if x.value.n == 0 then 1 else 0, x.value.frame))
  }

  // ------------------------------------------------------------- what is emitted

  /** The condition a comparison sets the result from. */
  function Compares(op: BinOp): Ir.Option<Cond> {
    match op
    case Equal => Ir.Some(IsEqual)
    case NotEqual => Ir.Some(IsNotEqual)
    case Less => Ir.Some(IsLess)
    case LessEqual => Ir.Some(IsLessEqual)
    case Greater => Ir.Some(IsGreater)
    case GreaterEqual => Ir.Some(IsGreaterEqual)
    case _ => Ir.None
  }

  /** The tail of a binary operation: left operand in %edx, right in %eax. */
  function BinopTail(op: BinOp): Prog {
    match op
    case Add => [AluAx(Add32)]
    case Sub => [AluDx(Sub32), MovDxAx]
    case Mul => [AluAx(Mul32)]
    case Div => [PushAx, MovDxAx, PopCx, Cdq, Idiv]
    case Mod => [PushAx, MovDxAx, PopCx, Cdq, Idiv, MovDxAx]
    case ShiftLeft => [MovAxCx, MovDxAx, ShiftAx(Shl32)]
    case ShiftRight => [MovAxCx, MovDxAx, ShiftAx(Sar32)]
    case BitAnd => [AluAx(And32)]
    case BitOr => [AluAx(Or32)]
    case BitXor => [AluAx(Xor32)]
    case _ => [CmpDx, MovImm(0), SetAl(Compares(op).value)]
  }

  /** The address is taken after the value has been computed. */
  function AssignTail(s: nat): Prog {
    [PushAx, Lea(s), PopDx, StoreAt, MovDxAx]
  }

  /** A postfix operator keeps the value before. */
  function StepCode(s: nat, up: bool, prefix: bool): Prog {
    [LoadSlot(s)] + (if prefix then [] else [PushAx]) + [StepAx(up), StoreSlot(s)] + (if prefix then [] else [PopAx])
  }

  /** `&&` jumps to its shortcut where an operand is zero, `||` where one is not. */
  function ShortCode(l: Prog, r: Prog, jump: Ins, endMark: nat): Prog
    requires jump.Je? || jump.Jne?
  {
    l + [CmpImm(0), jump] + r + [CmpImm(0), jump] +
    [MovImm(Flag(jump.Je?)), Jmp(endMark), Label(jump.mark), MovImm(Flag(!jump.Je?)), Label(endMark)]
  }

  function ChoiceCode(c: Prog, x: Prog, y: Prog, elseMark: nat, endMark: nat): Prog {
    c + [CmpImm(0), Je(elseMark)] + x + [Jmp(endMark), Label(elseMark)] + y + [Label(endMark)]
  }

  /** Emitted code, and the next unused label. */
  datatype Code = Code(out: Prog, next: nat)

  function GenExp(e: Exp, mark: nat): (c: Code)
    ensures c.next >= mark
    decreases e, 1
  {
    GenExpKind(e, mark)
  }

  function GenExpKind(e: Exp, mark: nat): (c: Code)
    ensures c.next >= mark
    decreases e, 0
  {
    match e
    case IntLit(n) => Code([MovImm(n)], mark)
    case Variable(s) => Code([LoadSlot(s)], mark)
    case Binop(op, left, right) =>
      var l := GenExp(left, mark);
      var r := GenExp(right, l.next);
      Code(l.out + [PushAx] + r.out + [PopDx] + BinopTail(op), r.next)
    case LogicalAnd(left, right) =>
      var l := GenExp(left, mark + 2);
      var r := GenExp(right, l.next);
      Code(ShortCode(l.out, r.out, Je(mark), mark + 1), r.next)
    case LogicalOr(left, right) =>
      var l := GenExp(left, mark + 2);
      var r := GenExp(right, l.next);
      Code(ShortCode(l.out, r.out, Jne(mark), mark + 1), r.next)
    case Conditional(condition, thenExp, elseExp) =>
      var elseMark, endMark := mark, mark + 1;
      var c := GenExp(condition, mark + 2);
      var x := GenExp(thenExp, c.next);
      var y := GenExp(elseExp, x.next);
      Code(ChoiceCode(c.out, x.out, y.out, elseMark, endMark), y.next)
    case Comma(left, right) =>
      var l := GenExp(left, mark);
      var r := GenExp(right, l.next);
      Code(l.out + r.out, r.next)
    case Assign(s, right) =>
      var r := GenExp(right, mark);
      Code(r.out + AssignTail(s), r.next)
    case IncDec(s, up, prefix) =>
      Code(StepCode(s, up, prefix), mark)
    case Negation(operand) =>
      var x := GenExp(operand, mark);
      Code(x.out + [NegAx], x.next)
    case BitwiseComplement(operand) =>
      var x := GenExp(operand, mark);
      Code(x.out + [NotAx], x.next)
    case LogicalNegation(operand) =>
      var x := GenExp(operand, mark);
      Code(x.out + [CmpImm(0), MovImm(0), SetAl(IsEqual)], x.next)
  }

  // -------------------------------------------------------------------- correctness

  /** Operations whose operands may be exchanged. */
  ghost predicate Commutes(a: Arith) {
    forall op: AluOp, x: int, y: int {:trigger a.alu(op, x, y)} | !op.Sub32? && !op.Shl32? && !op.Sar32? ::
        a.alu(op, x, y) == a.alu(op, y, x)
  }

  lemma TailIsStraight(op: BinOp)
    ensures Straight(BinopTail(op))
  {
  }

  ghost predicate Tail(a: Arith, op: BinOp, st: State, x: Ir.Option<int>) {
    var s := Lines(a, BinopTail(op), st);
    match x
    case None => s == Trapped
    case Some(n) => s.Running? && s.st.ax == Num(n) && s.st.stack == st.stack && s.st.frame == st.frame
  }

  lemma SimpleTailRuns(a: Arith, op: BinOp, st: State, l: int, r: int)
    requires Commutes(a) && st.dx == Num(l) && st.ax == Num(r) && |BinopTail(op)| <= 2
    ensures Tail(a, op, st, Apply(a, op, l, r))
  {
    var code := BinopTail(op);
    TwoLines(a, code[0], if |code| == 2 then code[1] else code[0], st);
    if op.Sub? {
      assert code == [AluDx(Sub32), MovDxAx];
    } else {
      assert code == [code[0]];
    }
  }

  lemma ShiftTailRuns(a: Arith, op: BinOp, st: State, l: int, r: int)
    requires st.dx == Num(l) && st.ax == Num(r) && (op.ShiftLeft? || op.ShiftRight?)
    ensures Tail(a, op, st, Apply(a, op, l, r))
  {
    var shift := ShiftAx(if op.ShiftLeft? then Shl32 else Sar32);
    ThreeLines(a, MovAxCx, MovDxAx, shift, st);
    TwoLines(a, MovDxAx, shift, Line(a, MovAxCx, st).st);
  }

  lemma CompareTailRuns(a: Arith, op: BinOp, st: State, l: int, r: int)
    requires st.dx == Num(l) && st.ax == Num(r) && Compares(op).Some?
    ensures Tail(a, op, st, Apply(a, op, l, r))
  {
    var set_ := SetAl(Compares(op).value);
    ThreeLines(a, CmpDx, MovImm(0), set_, st);
    TwoLines(a, MovImm(0), set_, Line(a, CmpDx, st).st);
  }

  /** The operands change places through the stack. */
  lemma SwapLines(a: Arith, st: State)
    ensures var s := Lines(a, [PushAx, MovDxAx, PopCx], st);
            s == Running(st.(pc := st.pc + 3, ax := st.dx, cx := st.ax))
  {
    var pushed := Line(a, PushAx, st).st;
    ThreeLines(a, PushAx, MovDxAx, PopCx, st);
    TwoLines(a, MovDxAx, PopCx, pushed);
    assert Rest(pushed.stack) == st.stack;
  }

  lemma QuotientLines(a: Arith, st: State, l: int, r: int)
    requires st.dx == Num(l) && st.ax == Num(r)
    ensures var s := Lines(a, BinopTail(Div), st);
            match a.divide(l, r)
            case None => s == Trapped
            case Some(qr) =>
              && s.Running? && s.st.ax == Num(qr.0) && s.st.dx == Num(qr.1)
              && s.st.stack == st.stack && s.st.frame == st.frame
  {
    var swap := [PushAx, MovDxAx, PopCx];
    assert BinopTail(Div) == swap + [Cdq, Idiv];
    LinesAppend(a, swap, [Cdq, Idiv], st);
    SwapLines(a, st);
    TwoLines(a, Cdq, Idiv, Lines(a, swap, st).st);
  }

  lemma RemainderTailRuns(a: Arith, st: State, l: int, r: int)
    requires st.dx == Num(l) && st.ax == Num(r)
    ensures Tail(a, Mod, st, Apply(a, Mod, l, r))
  {
    QuotientLines(a, st, l, r);
    assert BinopTail(Mod) == BinopTail(Div) + [MovDxAx];
    LinesAppend(a, BinopTail(Div), [MovDxAx], st);
    var s := Lines(a, BinopTail(Div), st);
    if s.Running? {
      TwoLines(a, MovDxAx, MovDxAx, s.st);
    }
  }

  lemma TailRuns(a: Arith, op: BinOp, st: State, l: int, r: int)
    requires Commutes(a) && st.dx == Num(l) && st.ax == Num(r)
    ensures Tail(a, op, st, Apply(a, op, l, r))
  {
    match op
    case Div => QuotientLines(a, st, l, r);
    case Mod => RemainderTailRuns(a, st, l, r);
    case ShiftLeft => ShiftTailRuns(a, op, st, l, r);
    case ShiftRight => ShiftTailRuns(a, op, st, l, r);
    case Add => SimpleTailRuns(a, op, st, l, r);
    case Sub => SimpleTailRuns(a, op, st, l, r);
    case Mul => SimpleTailRuns(a, op, st, l, r);
    case BitAnd => SimpleTailRuns(a, op, st, l, r);
    case BitOr => SimpleTailRuns(a, op, st, l, r);
    case BitXor => SimpleTailRuns(a, op, st, l, r);
    case _ => CompareTailRuns(a, op, st, l, r);
  }

  // ------------------------------------------------------------- piece by piece

  function Applied(a: Arith, op: BinOp, x: Ir.Option<Value>, y: Ir.Option<Value>): Ir.Option<Value> {
    if x.None? || y.None? then Ir.None
    else
      var z := Apply(a, op, x.value.n, y.value.n);
      if z.None? then Ir.None else Ir.Some(Value(z.value, y.value.frame))
  }

  /** From `q`, with the operands in their registers, the value `z` is computed. */
  ghost predicate TailGives(a: Arith, prog: Prog, q: nat, x: int, y: Value, e: nat, z: Ir.Option<Value>) {
    forall st: State {:trigger Gives(a, prog, st, e, z)} |
      st.pc == q && st.dx == Num(x) && st.ax == Num(y.n) && st.frame == y.frame :: Gives(a, prog, st, e, z)
  }

  lemma BinopTailGives(a: Arith, prog: Prog, op: BinOp, q: nat, x: Value, y: Value)
    requires Commutes(a) && CodeAt(prog, q, BinopTail(op))
    ensures TailGives(a, prog, q, x.n, y, q + |BinopTail(op)|, Applied(a, op, Ir.Some(x), Ir.Some(y)))
  {
    var z := Applied(a, op, Ir.Some(x), Ir.Some(y));
    forall st: State | st.pc == q && st.dx == Num(x.n) && st.ax == Num(y.n) && st.frame == y.frame
      ensures Gives(a, prog, st, q + |BinopTail(op)|, z)
    {
      TailRuns(a, op, st, x.n, y.n);
      TailIsStraight(op);
      StraightGives(a, prog, BinopTail(op), st, z);
    }
  }

  /** The left value waits on the stack. */
  lemma BinopStarts(a: Arith, prog: Prog, st: State, q: nat, x: Value) returns (mid: State)
    requires Gives(a, prog, st, q, Ir.Some(x)) && CodeAt(prog, q, [PushAx])
    ensures mid.pc == q + 1 && mid.frame == x.frame && mid.stack == st.stack + [Num(x.n)]
    ensures Leads(Machine(a, prog), st, 0, Running(mid))
  {
    var was := Given(a, prog, st, q, x);
    mid := was.(pc := q + 1, stack := was.stack + [was.ax]);
    PushRuns(a, prog, was);
    Then(a, prog, st, 0, was, 0, Running(mid));
  }

  /** Both values are there: the left one is popped and the operation done. */
  lemma BinopBoth(a: Arith, prog: Prog, st: State, mid: State, x: int, r: nat, y: Value, e: nat, z: Ir.Option<Value>)
    requires Gives(a, prog, mid, r, Ir.Some(y)) && mid.stack == st.stack + [Num(x)]
    requires Leads(Machine(a, prog), st, 0, Running(mid))
    requires CodeAt(prog, r, [PopDx]) && TailGives(a, prog, r + 1, x, y, e, z)
    ensures Gives(a, prog, st, e, z)
  {
    var both := Given(a, prog, mid, r, y);
    Then(a, prog, st, 0, mid, 0, Running(both));
    PopRuns(a, prog, both, st.stack, Num(x));
    var popped := both.(pc := r + 1, dx := Num(x), stack := st.stack);
    Then(a, prog, st, 0, both, 0, Running(popped));
    assert Gives(a, prog, popped, e, z);
    GivesOn(a, prog, st, 0, popped, e, z);
  }

  lemma BinopGives(a: Arith, prog: Prog, st: State, mid: State, x: int, r: nat, y: Ir.Option<Value>, e: nat,
      z: Ir.Option<Value>)
    requires Gives(a, prog, mid, r, y) && mid.stack == st.stack + [Num(x)]
    requires Leads(Machine(a, prog), st, 0, Running(mid)) && CodeAt(prog, r, [PopDx])
    requires if y.None? then z.None? else TailGives(a, prog, r + 1, x, y.value, e, z)
    ensures Gives(a, prog, st, e, z)
  {
    if y.None? {
      Then(a, prog, st, 0, mid, 0, Trapped);
    } else {
      BinopBoth(a, prog, st, mid, x, r, y.value, e, z);
    }
  }

  /** The operands in turn, and the operation. */
  lemma OperandsCompute(a: Arith, prog: Prog, p: nat, frame: Frame, q: nat, x: Ir.Option<Value>, r: nat,
      y: Ir.Option<Value>, e: nat, z: Ir.Option<Value>)
    requires Computes(a, prog, p, frame, q, x) && CodeAt(prog, q, [PushAx]) && CodeAt(prog, r, [PopDx])
    requires x.Some? ==> Computes(a, prog, q + 1, x.value.frame, r, y)
    requires if x.None? || y.None? then z.None? else TailGives(a, prog, r + 1, x.value.n, y.value, e, z)
    ensures Computes(a, prog, p, frame, e, z)
  {
    forall st: State | st.pc == p && st.frame == frame ensures Gives(a, prog, st, e, z) {
      assert Gives(a, prog, st, q, x);
      if x.Some? {
        var mid := BinopStarts(a, prog, st, q, x.value);
        assert Gives(a, prog, mid, r, y);
        BinopGives(a, prog, st, mid, x.value.n, r, y, e, z);
      }
    }
  }

  lemma BinopComputes(a: Arith, prog: Prog, op: BinOp, p: nat, frame: Frame, q: nat, x: Ir.Option<Value>, r: nat,
      y: Ir.Option<Value>)
    requires Commutes(a) && Computes(a, prog, p, frame, q, x)
    requires x.Some? ==> Computes(a, prog, q + 1, x.value.frame, r, y)
    requires CodeAt(prog, q, [PushAx]) && CodeAt(prog, r, [PopDx]) && CodeAt(prog, r + 1, BinopTail(op))
    ensures Computes(a, prog, p, frame, r + 1 + |BinopTail(op)|, Applied(a, op, x, y))
  {
    if x.Some? && y.Some? {
      BinopTailGives(a, prog, op, r + 1, x.value, y.value);
    }
    OperandsCompute(a, prog, p, frame, q, x, r, y, r + 1 + |BinopTail(op)|, Applied(a, op, x, y));
  }

  lemma AssignFinishes(a: Arith, s: nat, x: Value)
    ensures Finishes(a, AssignTail(s), x, Value(x.n, Put(x.frame, s, x.n)))
  {
    var (head, last) := ([PushAx, Lea(s), PopDx], [StoreAt, MovDxAx]);
    assert AssignTail(s) == head + last;
    forall st: State | st.ax == Num(x.n) && st.frame == x.frame
      ensures Lines(a, AssignTail(s), st) == Running(st.(pc := st.pc + 5, dx := st.ax, frame := Put(x.frame, s, x.n)))
    {
      LinesAppend(a, head, last, st);
      ThreeLines(a, PushAx, Lea(s), PopDx, st);
      var pushed := Line(a, PushAx, st).st;
      TwoLines(a, Lea(s), PopDx, pushed);
      assert Rest(pushed.stack) == st.stack;
      TwoLines(a, StoreAt, MovDxAx, Lines(a, head, st).st);
    }
  }

  lemma UnaryFinishes(a: Arith, x: Value)
    ensures Finishes(a, [NegAx], x, Value(a.negate(x.n), x.frame))
    ensures Finishes(a, [NotAx], x, Value(a.invert(x.n), x.frame))
  {
    forall st: State | st.ax == Num(x.n) && st.frame == x.frame
      ensures Lines(a, [NegAx], st) == Running(st.(pc := st.pc + 1, ax := Num(a.negate(x.n))))
      ensures Lines(a, [NotAx], st) == Running(st.(pc := st.pc + 1, ax := Num(a.invert(x.n))))
    {
      OneLine(a, NegAx, st);
      OneLine(a, NotAx, st);
    }
  }

  lemma NotFinishes(a: Arith, x: Value)
    ensures Finishes(a, [CmpImm(0), MovImm(0), SetAl(IsEqual)], x, Value(Flag(x.n == 0), x.frame))
  {
    forall st: State | st.ax == Num(x.n) && st.frame == x.frame
      ensures Lines(a, [CmpImm(0), MovImm(0), SetAl(IsEqual)], st)
           == Running(st.(pc := st.pc + 3, ax := Num(Flag(x.n == 0)), flags := (x.n, 0)))
    {
      ThreeLines(a, CmpImm(0), MovImm(0), SetAl(IsEqual), st);
      TwoLines(a, MovImm(0), SetAl(IsEqual), Line(a, CmpImm(0), st).st);
    }
  }

  function ShortValue(jump: Ins, x: Ir.Option<Value>, y: Ir.Option<Value>): Ir.Option<Value> {
    if x.None? then Ir.None
    else if Taken(jump, x.value.n == 0) then Ir.Some(Value(Flag(!jump.Je?), x.value.frame))
    else if y.None? then Ir.None
    else Ir.Some(Value(Flag(y.value.n != 0), y.value.frame))
  }

  /** The end of a short-circuit operation: a constant for each way out. */
  lemma ShortEnds(a: Arith, prog: Prog, t: nat, jump: Ins, endMark: nat, frame: Frame)
    requires DistinctLabels(prog) && (jump.Je? || jump.Jne?)
    requires CodeAt(prog, t,
        [MovImm(Flag(jump.Je?)), Jmp(endMark), Label(jump.mark), MovImm(Flag(!jump.Je?)), Label(endMark)])
    ensures LabelAt(prog, jump.mark, t + 2)
    ensures Computes(a, prog, t, frame, t + 5, Ir.Some(Value(Flag(jump.Je?), frame)))
    ensures Computes(a, prog, t + 2, frame, t + 5, Ir.Some(Value(Flag(!jump.Je?), frame)))
  {
    var code := [MovImm(Flag(jump.Je?)), Jmp(endMark), Label(jump.mark), MovImm(Flag(!jump.Je?)), Label(endMark)];
    forall k: nat | k < 5 ensures t + k < |prog| && prog[t + k] == code[k] {
      assert Agrees(prog, t, code, k);
    }
    assert prog[t] == code[0] && prog[t + 1] == code[1] && prog[t + 2] == code[2] && prog[t + 3] == code[3] &&
        prog[t + 4] == code[4];
    assert LabelAt(prog, jump.mark, t + 2) && LabelAt(prog, endMark, t + 4);
    ConstantComputes(a, prog, t, frame, Flag(jump.Je?));
    ThenJump(a, prog, t, frame, t + 1, Ir.Some(Value(Flag(jump.Je?), frame)), endMark, t + 4);
    ThenLabel(a, prog, t, frame, t + 4, Ir.Some(Value(Flag(jump.Je?), frame)), endMark);
    ConstantComputes(a, prog, t + 3, frame, Flag(!jump.Je?));
    ThenLabel(a, prog, t + 3, frame, t + 4, Ir.Some(Value(Flag(!jump.Je?), frame)), endMark);
    AfterLabel(a, prog, t + 2, jump.mark, frame, t + 5, Ir.Some(Value(Flag(!jump.Je?), frame)));
  }

  lemma ShortParts(prog: Prog, p: nat, l: Prog, r: Prog, jump: Ins, endMark: nat)
    requires (jump.Je? || jump.Jne?) && CodeAt(prog, p, ShortCode(l, r, jump, endMark))
    ensures CodeAt(prog, p, l) && CodeAt(prog, p + |l| + 2, r)
  {
    FiveParts(prog, p, l, [CmpImm(0), jump], r, [CmpImm(0), jump],
              [MovImm(Flag(jump.Je?)), Jmp(endMark), Label(jump.mark), MovImm(Flag(!jump.Je?)), Label(endMark)]);
  }

  lemma ShortComputes(a: Arith, prog: Prog, p: nat, frame: Frame, l: Prog, x: Ir.Option<Value>, r: Prog,
      y: Ir.Option<Value>, jump: Ins, endMark: nat)
    requires DistinctLabels(prog) && (jump.Je? || jump.Jne?) && CodeAt(prog, p, ShortCode(l, r, jump, endMark))
    requires Computes(a, prog, p, frame, p + |l|, x)
    requires x.Some? ==> Computes(a, prog, p + |l| + 2, x.value.frame, p + |l| + 2 + |r|, y)
    ensures Computes(a, prog, p, frame, p + |ShortCode(l, r, jump, endMark)|, ShortValue(jump, x, y))
  {
    var end := [MovImm(Flag(jump.Je?)), Jmp(endMark), Label(jump.mark), MovImm(Flag(!jump.Je?)), Label(endMark)];
    FiveParts(prog, p, l, [CmpImm(0), jump], r, [CmpImm(0), jump], end);
    var (q, s) := (p + |l|, p + |l| + 2 + |r|);
    var t := s + 2;
    if x.None? {
      ShortEnds(a, prog, t, jump, endMark, frame);
      TestComputes(a, prog, p, frame, q, x, jump, t + 2, t + 5, Ir.None);
    } else {
      var f := x.value.frame;
      ShortEnds(a, prog, t, jump, endMark, f);
      if Taken(jump, x.value.n == 0) {
        TestComputes(a, prog, p, frame, q, x, jump, t + 2, t + 5, Ir.Some(Value(Flag(!jump.Je?), f)));
      } else {
        var z := ShortValue(jump, x, y);
        if y.None? {
          TestComputes(a, prog, q + 2, f, s, y, jump, t + 2, t + 5, z);
        } else {
          ShortEnds(a, prog, t, jump, endMark, y.value.frame);
          TestComputes(a, prog, q + 2, f, s, y, jump, t + 2, t + 5, z);
        }
        TestComputes(a, prog, p, frame, q, x, jump, t + 2, t + 5, z);
      }
    }
  }

  lemma ChoiceParts(prog: Prog, p: nat, c: Prog, x: Prog, y: Prog, elseMark: nat, endMark: nat)
    requires CodeAt(prog, p, ChoiceCode(c, x, y, elseMark, endMark))
    ensures var (q, t) := (p + |c| + 2, p + |c| + 2 + |x|);
            && CodeAt(prog, p, c) && CodeAt(prog, p + |c|, [CmpImm(0), Je(elseMark)]) && CodeAt(prog, q, x)
            && CodeAt(prog, t, [Jmp(endMark)]) && LabelAt(prog, elseMark, t + 1)
            && CodeAt(prog, t + 2, y) && LabelAt(prog, endMark, t + 2 + |y|)
  {
    CodeParts(prog, p, c + [CmpImm(0), Je(elseMark)] + x + [Jmp(endMark), Label(elseMark)] + y, [Label(endMark)]);
    FiveParts(prog, p, c, [CmpImm(0), Je(elseMark)], x, [Jmp(endMark), Label(elseMark)], y);
    var t := p + |c| + 2 + |x|;
    assert [Jmp(endMark)] + [Label(elseMark)] == [Jmp(endMark), Label(elseMark)];
    CodeParts(prog, t, [Jmp(endMark)], [Label(elseMark)]);
    LabelIn(prog, t + 1, elseMark);
    LabelIn(prog, t + 2 + |y|, endMark);
  }

  lemma ChoiceComputes(a: Arith, prog: Prog, p: nat, frame: Frame, c: Prog, v: Ir.Option<Value>, x: Prog, y: Prog,
      w: Ir.Option<Value>, elseMark: nat, endMark: nat)
    requires DistinctLabels(prog) && CodeAt(prog, p, ChoiceCode(c, x, y, elseMark, endMark))
    requires Computes(a, prog, p, frame, p + |c|, v)
    requires v.Some? && v.value.n != 0 ==> Computes(a, prog, p + |c| + 2, v.value.frame, p + |c| + 2 + |x|, w)
    requires v.Some? && v.value.n == 0 ==>
               Computes(a, prog, p + |c| + 4 + |x|, v.value.frame, p + |c| + 4 + |x| + |y|, w)
    ensures Computes(a, prog, p, frame, p + |ChoiceCode(c, x, y, elseMark, endMark)|, Followed(v, w))
  {
    ChoiceParts(prog, p, c, x, y, elseMark, endMark);
    var t := p + |c| + 2 + |x|;
    var end := t + 2 + |y|;
    if v.Some? {
      var f := v.value.frame;
      if v.value.n != 0 {
        ThenJump(a, prog, p + |c| + 2, f, t, w, endMark, end);
        ThenLabel(a, prog, p + |c| + 2, f, end, w, endMark);
      } else {
        ThenLabel(a, prog, t + 2, f, end, w, endMark);
        AfterLabel(a, prog, t + 1, elseMark, f, end + 1, w);
      }
    }
    TestComputes(a, prog, p, frame, p + |c|, v, Je(elseMark), t + 1, end + 1, w);
  }

  // ------------------------------------------------------------ each expression

  /** The code of an expression computes its value and its effect on the frame, and traps
      where the expression divides by zero. */
  lemma {:induction false} ExpressionComputes(a: Arith, prog: Prog, e: Exp, mark: nat, p: nat, frame: Frame)
    requires Commutes(a) && DistinctLabels(prog) && CodeAt(prog, p, GenExp(e, mark).out)
    ensures Computes(a, prog, p, frame, p + |GenExp(e, mark).out|, Eval(a, e, frame))
    decreases e, 1
  {
    match e
    case IntLit(n) =>
      assert GenExpKind(e, mark).out == [MovImm(n)] && EvalKind(a, e, frame) == Ir.Some(Value(n, frame));
      ConstantComputes(a, prog, p, frame, n);
    case Variable(_) => VariableComputes(a, prog, e, mark, p, frame);
    case Binop(_, _, _) => BinaryComputes(a, prog, e, mark, p, frame);
    case LogicalAnd(_, _) => ShortCircuitComputes(a, prog, e, Je(mark), mark, p, frame);
    case LogicalOr(_, _) => ShortCircuitComputes(a, prog, e, Jne(mark), mark, p, frame);
    case Conditional(_, _, _) => ConditionalComputes(a, prog, e, mark, p, frame);
    case Comma(_, _) => CommaComputes(a, prog, e, mark, p, frame);
    case Assign(_, _) => AssignComputes(a, prog, e, mark, p, frame);
    case IncDec(_, _, _) => StepComputes(a, prog, e, mark, p, frame);
    case Negation(_) => UnaryComputes(a, prog, e, mark, p, frame);
    case BitwiseComplement(_) => UnaryComputes(a, prog, e, mark, p, frame);
    case LogicalNegation(_) => UnaryComputes(a, prog, e, mark, p, frame);
  }

  lemma VariableComputes(a: Arith, prog: Prog, e: Exp, mark: nat, p: nat, frame: Frame)
    requires CodeAt(prog, p, GenExp(e, mark).out) && e.Variable?
    ensures Computes(a, prog, p, frame, p + |GenExp(e, mark).out|, Eval(a, e, frame))
  {
    var (code, v) := ([LoadSlot(e.slot)], EvalKind(a, e, frame));
    assert GenExpKind(e, mark).out == code;
    forall st: State | st.pc == p && st.frame == frame ensures Gives(a, prog, st, p + 1, Eval(a, e, frame)) {
      OneLine(a, LoadSlot(e.slot), st);
      StraightGives(a, prog, code, st, Eval(a, e, frame));
    }
  }

  lemma BinaryComputes(a: Arith, prog: Prog, e: Exp, mark: nat, p: nat, frame: Frame)
    requires Commutes(a) && DistinctLabels(prog) && CodeAt(prog, p, GenExp(e, mark).out) && e.Binop?
    ensures Computes(a, prog, p, frame, p + |GenExp(e, mark).out|, Eval(a, e, frame))
    decreases e, 0
  {
    var l := GenExp(e.left, mark);
    var r := GenExp(e.right, l.next);
    assert GenExpKind(e, mark).out == l.out + [PushAx] + r.out + [PopDx] + BinopTail(e.op);
    FiveParts(prog, p, l.out, [PushAx], r.out, [PopDx], BinopTail(e.op));
    ExpressionComputes(a, prog, e.left, mark, p, frame);
    var (v, x) := (EvalKind(a, e, frame), Eval(a, e.left, frame));
    var (q, s) := (p + |l.out|, p + |l.out| + 1 + |r.out|);
    if x.Some? {
      ExpressionComputes(a, prog, e.right, l.next, q + 1, x.value.frame);
      BinopComputes(a, prog, e.op, p, frame, q, x, s, Eval(a, e.right, x.value.frame));
    } else {
      BinopComputes(a, prog, e.op, p, frame, q, x, s, Ir.None);
    }
  }

  lemma ShortCircuitComputes(a: Arith, prog: Prog, e: Exp, jump: Ins, mark: nat, p: nat, frame: Frame)
    requires Commutes(a) && DistinctLabels(prog) && CodeAt(prog, p, GenExp(e, mark).out)
    requires (e.LogicalAnd? && jump == Je(mark)) || (e.LogicalOr? && jump == Jne(mark))
    ensures Computes(a, prog, p, frame, p + |GenExp(e, mark).out|, Eval(a, e, frame))
    decreases e, 0
  {
    var l := GenExp(e.left, mark + 2);
    var r := GenExp(e.right, l.next);
    assert GenExpKind(e, mark).out == ShortCode(l.out, r.out, jump, mark + 1);
    ShortParts(prog, p, l.out, r.out, jump, mark + 1);
    ExpressionComputes(a, prog, e.left, mark + 2, p, frame);
    var (v, x) := (EvalKind(a, e, frame), Eval(a, e.left, frame));
    if x.Some? {
      ExpressionComputes(a, prog, e.right, l.next, p + |l.out| + 2, x.value.frame);
      ShortComputes(a, prog, p, frame, l.out, x, r.out, Eval(a, e.right, x.value.frame), jump, mark + 1);
    } else {
      ShortComputes(a, prog, p, frame, l.out, x, r.out, Ir.None, jump, mark + 1);
    }
  }

  lemma ConditionalComputes(a: Arith, prog: Prog, e: Exp, mark: nat, p: nat, frame: Frame)
    requires Commutes(a) && DistinctLabels(prog) && CodeAt(prog, p, GenExp(e, mark).out) && e.Conditional?
    ensures Computes(a, prog, p, frame, p + |GenExp(e, mark).out|, Eval(a, e, frame))
    decreases e, 0
  {
    var c := GenExp(e.condition, mark + 2);
    var x := GenExp(e.thenExp, c.next);
    var y := GenExp(e.elseExp, x.next);
    assert GenExpKind(e, mark).out == ChoiceCode(c.out, x.out, y.out, mark, mark + 1);
    ChoiceParts(prog, p, c.out, x.out, y.out, mark, mark + 1);
    ExpressionComputes(a, prog, e.condition, mark + 2, p, frame);
    var v := Eval(a, e.condition, frame);
    var w := if v.None? then Ir.None else Eval(a, if v.value.n != 0 then e.thenExp else e.elseExp, v.value.frame);
    if v.Some? {
      if v.value.n != 0 {
        ExpressionComputes(a, prog, e.thenExp, c.next, p + |c.out| + 2, v.value.frame);
      } else {
        ExpressionComputes(a, prog, e.elseExp, x.next, p + |c.out| + 4 + |x.out|, v.value.frame);
      }
    }
    ChoiceComputes(a, prog, p, frame, c.out, v, x.out, y.out, w, mark, mark + 1);
    assert EvalKind(a, e, frame) == Followed(v, w);
  }

  lemma CommaComputes(a: Arith, prog: Prog, e: Exp, mark: nat, p: nat, frame: Frame)
    requires Commutes(a) && DistinctLabels(prog) && CodeAt(prog, p, GenExp(e, mark).out) && e.Comma?
    ensures Computes(a, prog, p, frame, p + |GenExp(e, mark).out|, Eval(a, e, frame))
    decreases e, 0
  {
    var l := GenExp(e.left, mark);
    var r := GenExp(e.right, l.next);
    assert GenExpKind(e, mark).out == l.out + r.out;
    CodeParts(prog, p, l.out, r.out);
    ExpressionComputes(a, prog, e.left, mark, p, frame);
    var (v, x) := (EvalKind(a, e, frame), Eval(a, e.left, frame));
    var y: Ir.Option<Value> := Ir.None;
    if x.Some? {
      y := Eval(a, e.right, x.value.frame);
      ExpressionComputes(a, prog, e.right, l.next, p + |l.out|, x.value.frame);
    }
    FollowedComputes(a, prog, p, frame, p + |l.out|, x, p + |l.out| + |r.out|, y);
  }

  lemma AssignComputes(a: Arith, prog: Prog, e: Exp, mark: nat, p: nat, frame: Frame)
    requires Commutes(a) && DistinctLabels(prog) && CodeAt(prog, p, GenExp(e, mark).out) && e.Assign?
    ensures Computes(a, prog, p, frame, p + |GenExp(e, mark).out|, Eval(a, e, frame))
    decreases e, 0
  {
    var r := GenExp(e.right, mark);
    assert GenExpKind(e, mark).out == r.out + AssignTail(e.slot);
    CodeParts(prog, p, r.out, AssignTail(e.slot));
    ExpressionComputes(a, prog, e.right, mark, p, frame);
    var (v, x) := (EvalKind(a, e, frame), Eval(a, e.right, frame));
    var y := if x.None? then Value(0, frame) else Value(x.value.n, Put(x.value.frame, e.slot, x.value.n));
    if x.Some? {
      AssignFinishes(a, e.slot, x.value);
    }
    TailComputes(a, prog, p, frame, p + |r.out|, x, AssignTail(e.slot), y);
  }

  lemma StepComputes(a: Arith, prog: Prog, e: Exp, mark: nat, p: nat, frame: Frame)
    requires CodeAt(prog, p, GenExp(e, mark).out) && e.IncDec?
    ensures Computes(a, prog, p, frame, p + |GenExp(e, mark).out|, Eval(a, e, frame))
  {
    var code := StepCode(e.slot, e.up, e.prefix);
    assert GenExpKind(e, mark).out == code;
    var v := EvalKind(a, e, frame).value;
    forall st: State | st.pc == p && st.frame == frame ensures Gives(a, prog, st, p + |code|, Ir.Some(v)) {
      StepLines(a, e.slot, e.up, e.prefix, st);
      StraightGives(a, prog, code, st, Ir.Some(v));
    }
  }

  lemma StepLines(a: Arith, s: nat, up: bool, prefix: bool, st: State)
    ensures var was := SlotValue(st.frame, s);
            var now := a.alu(if up then Add32 else Sub32, was, 1);
            Lines(a, StepCode(s, up, prefix), st) ==
            Running(st.(pc := st.pc +
                |StepCode(s, up, prefix)|, ax := Num(if prefix then now else was), frame := Put(st.frame, s, now)))
  {
    var loaded := Line(a, LoadSlot(s), st).st;
    if prefix {
      assert StepCode(s, up, prefix) == [LoadSlot(s), StepAx(up), StoreSlot(s)];
      ThreeLines(a, LoadSlot(s), StepAx(up), StoreSlot(s), st);
      TwoLines(a, StepAx(up), StoreSlot(s), loaded);
    } else {
      var (head, tail) := ([LoadSlot(s), PushAx], [StepAx(up), StoreSlot(s), PopAx]);
      assert StepCode(s, up, prefix) == head + tail;
      LinesAppend(a, head, tail, st);
      TwoLines(a, LoadSlot(s), PushAx, st);
      var pushed := Lines(a, head, st).st;
      ThreeLines(a, StepAx(up), StoreSlot(s), PopAx, pushed);
      TwoLines(a, StoreSlot(s), PopAx, Line(a, StepAx(up), pushed).st);
      assert Rest(pushed.stack) == st.stack;
    }
  }

  lemma UnaryComputes(a: Arith, prog: Prog, e: Exp, mark: nat, p: nat, frame: Frame)
    requires Commutes(a) && DistinctLabels(prog) && CodeAt(prog, p, GenExp(e, mark).out)
    requires e.Negation? || e.BitwiseComplement? || e.LogicalNegation?
    ensures Computes(a, prog, p, frame, p + |GenExp(e, mark).out|, Eval(a, e, frame))
    decreases e, 0
  {
    var c := GenExp(e.operand, mark);
    var tail := if e.Negation? then [NegAx] else if e.BitwiseComplement? then [NotAx]
        else [CmpImm(0), MovImm(0), SetAl(IsEqual)];
    assert GenExpKind(e, mark).out == c.out + tail;
    CodeParts(prog, p, c.out, tail);
    ExpressionComputes(a, prog, e.operand, mark, p, frame);
    var (v, x) := (EvalKind(a, e, frame), Eval(a, e.operand, frame));
    var y := Value(0, frame);
    if x.Some? {
      y := v.value;
      UnaryFinishes(a, x.value);
      NotFinishes(a, x.value);
    }
    TailComputes(a, prog, p, frame, p + |c.out|, x, tail, y);
  }
}
