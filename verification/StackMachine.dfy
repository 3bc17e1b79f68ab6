/** The machine the code generator emits for: the accumulator, two scratch registers, a
    stack, the frame, and labels. Only what int expressions and statements need. */
module StackMachine {
  import Ir

  datatype AluOp = Add32 | Sub32 | Mul32 | Shl32 | Sar32 | And32 | Or32 | Xor32

  datatype Cond = IsEqual | IsNotEqual | IsLess | IsLessEqual | IsGreater | IsGreaterEqual

  /** 32-bit arithmetic. `divide` gives quotient and remainder, or traps. */
  datatype Arith = Arith(
    alu: (AluOp, int, int) -> int,
    divide: (int, int) -> Ir.Option<(int, int)>,
    negate: int -> int,
    invert: int -> int)

  /** A register holds a number or the address of a frame slot. */
  datatype Val = Num(n: int) | Address(slot: nat)

  datatype Ins =
    | MovImm(n: int)              // movl  $n, %eax
    | LoadSlot(slot: nat)         // movl  slot(%rbp), %eax
    | StoreSlot(slot: nat)        // movl  %eax, slot(%rbp)
    | ZeroSlot(slot: nat)         // movl  $0, slot(%rbp)
    | Lea(slot: nat)              // leaq  slot(%rbp), %rax
    | PushAx                      // pushq %rax
    | PopAx | PopDx | PopCx       // popq
    | StoreAt                     // movl  %edx, (%rax)
    | MovDxAx                     // movl  %edx, %eax
    | MovAxCx                     // movl  %eax, %ecx
    | AluAx(op: AluOp)            // op    %edx, %eax
    | AluDx(op: AluOp)            // op    %eax, %edx
    | ShiftAx(op: AluOp)          // op    %cl, %eax
    | StepAx(up: bool)            // addl or subl $1, %eax
    | NegAx | NotAx
    | Cdq | Idiv                  // idivl %ecx
    | CmpDx                       // cmpl  %eax, %edx
    | CmpImm(n: int)              // cmpl  $n, %eax
    | SetAl(cond: Cond)
    | Je(mark: nat) | Jne(mark: nat) | Jmp(mark: nat)
    | Label(mark: nat)
    | Leave                       // leave; ret

  type Prog = seq<Ins>

  /** The slots of the frame; one that has not been written is zero. */
  datatype Frame = Frame(slots: map<nat, int>)

  datatype State = State(pc: nat, ax: Val, dx: Val, cx: Val, flags: (int, int), stack: seq<Val>, frame: Frame)

  /** `Trapped` is a division that traps; `Stuck` is an instruction that makes no sense. */
  datatype Status = Running(st: State) | Finished(st: State) | Trapped | Stuck

  function SlotValue(frame: Frame, s: nat): int {
    if s in frame.slots then frame.slots[s] else 0
  }

  function Put(frame: Frame, s: nat, n: int): Frame {
    Frame(frame.slots[s := n])
  }

  /** A slot holds what was last put there, and zero before that. */
  lemma FrameLaws(frame: Frame, s: nat, n: int, t: nat)
    ensures SlotValue(Frame(map[]), t) == 0
    ensures SlotValue(Put(frame, s, n), t) == if t == s then n else SlotValue(frame, t)
  {
  }

  function Flag(b: bool): int {
    if b then 1 else 0
  }

  predicate Test(cond: Cond, a: int, b: int) {
    match cond
    case IsEqual => a == b
    case IsNotEqual => a != b
    case IsLess => a < b
    case IsLessEqual => a <= b
    case IsGreater => a > b
    case IsGreaterEqual => a >= b
  }

  function Sign(x: int): int {
    if x < 0 then -1 else 0
  }

  predicate IsControl(i: Ins) {
    i.Je? || i.Jne? || i.Jmp? || i.Leave?
  }

  function Top(s: seq<Val>): Val
    requires |s| > 0
  {
    s[|s| - 1]
  }

  function Rest(s: seq<Val>): seq<Val>
    requires |s| > 0
  {
    s[..|s| - 1]
  }

  /** One instruction that goes on to the next. */
  function Line(a: Arith, i: Ins, st: State): Status {
    var on := st.(pc := st.pc + 1);
    match i
    case MovImm(n) => Running(on.(ax := Num(n)))
    case LoadSlot(s) => Running(on.(ax := Num(SlotValue(st.frame, s))))
    case StoreSlot(s) => if st.ax.Num? then Running(on.(frame := Put(st.frame, s, st.ax.n))) else Stuck
    case ZeroSlot(s) => Running(on.(frame := Put(st.frame, s, 0)))
    case Lea(s) => Running(on.(ax := Address(s)))
    case PushAx => Running(on.(stack := st.stack + [st.ax]))
    case PopAx => if |st.stack| > 0 then Running(on.(ax := Top(st.stack), stack := Rest(st.stack))) else Stuck
    case PopDx => if |st.stack| > 0 then Running(on.(dx := Top(st.stack), stack := Rest(st.stack))) else Stuck
    case PopCx => if |st.stack| > 0 then Running(on.(cx := Top(st.stack), stack := Rest(st.stack))) else Stuck
    case StoreAt => if st.ax.Address? &&
      st.dx.Num? then Running(on.(frame := Put(st.frame, st.ax.slot, st.dx.n))) else Stuck
    case MovDxAx => Running(on.(ax := st.dx))
    case MovAxCx => Running(on.(cx := st.ax))
    case AluAx(op) => if st.ax.Num? && st.dx.Num? then Running(on.(ax := Num(a.alu(op, st.ax.n, st.dx.n)))) else Stuck
    case AluDx(op) => if st.ax.Num? && st.dx.Num? then Running(on.(dx := Num(a.alu(op, st.dx.n, st.ax.n)))) else Stuck
    case ShiftAx(op) => if st.ax.Num? && st.cx.Num? then Running(on.(ax := Num(a.alu(op, st.ax.n, st.cx.n)))) else Stuck
    case StepAx(up) => if st.ax.Num? then Running(on.(ax := Num(a.alu(if up then Add32 else Sub32, st.ax.n, 1))))
      else Stuck
    case NegAx => if st.ax.Num? then Running(on.(ax := Num(a.negate(st.ax.n)))) else Stuck
    case NotAx => if st.ax.Num? then Running(on.(ax := Num(a.invert(st.ax.n)))) else Stuck
    case Cdq => if st.ax.Num? then Running(on.(dx := Num(Sign(st.ax.n)))) else Stuck
    case Idiv =>
      if st.ax.Num? && st.cx.Num? && st.dx == Num(Sign(st.ax.n)) then
        (match a.divide(st.ax.n, st.cx.n)
         case None => Trapped
         case Some(qr) => Running(on.(ax := Num(qr.0), dx := Num(qr.1))))
      else Stuck
    case CmpDx => if st.ax.Num? && st.dx.Num? then Running(on.(flags := (st.dx.n, st.ax.n))) else Stuck
    case CmpImm(n) => if st.ax.Num? then Running(on.(flags := (st.ax.n, n))) else Stuck
    case SetAl(cond) => if st.ax.Num? then Running(on.(ax := Num(LowByte(st.ax.n,
      Flag(Test(cond, st.flags.0, st.flags.1)))))) else Stuck
    case _ => Running(on)
  }

  /** `n` with its low byte replaced. */
  function LowByte(n: int, b: int): int {
    n / 256 * 256 + b
  }

  ghost predicate LabelAt(prog: Prog, mark: nat, p: nat) {
    p < |prog| && prog[p] == Label(mark)
  }

  /** Every label is defined at most once. */
  ghost predicate DistinctLabels(prog: Prog) {
    forall mark: nat, p: nat, q: nat {:trigger LabelAt(prog, mark, p), LabelAt(prog, mark, q)} |
      LabelAt(prog, mark, p) && LabelAt(prog, mark, q) :: p == q
  }

  ghost predicate Defined(prog: Prog, mark: nat) {
    exists p: nat :: LabelAt(prog, mark, p)
  }

  /** The position of a label: the first place it is defined, or the end. */
  function Find(prog: Prog, mark: nat, from: nat): (p: nat)
    requires from <= |prog|
    ensures from <= p <= |prog|
    ensures p < |prog| ==> LabelAt(prog, mark, p)
    ensures forall q | from <= q < p :: !LabelAt(prog, mark, q)
    decreases |prog| - from
  {
    if from == |prog| || prog[from] == Label(mark) then from else Find(prog, mark, from + 1)
  }

  lemma Found(prog: Prog, mark: nat, p: nat)
    requires DistinctLabels(prog) && LabelAt(prog, mark, p)
    ensures Find(prog, mark, 0) == p
  {
  }

  function Step(a: Arith, prog: Prog, st: State): Status {
    if st.pc >= |prog| then Stuck
    else
      match prog[st.pc]
      case Jmp(mark) => Running(st.(pc := Find(prog, mark, 0)))
      case Je(mark) => Running(st.(pc := if st.flags.0 == st.flags.1 then Find(prog, mark, 0) else st.pc + 1))
      case Jne(mark) => Running(st.(pc := if st.flags.0 != st.flags.1 then Find(prog, mark, 0) else st.pc + 1))
      case Leave => Finished(st)
      case i => Line(a, i, st)
  }

  function Machine(a: Arith, prog: Prog): State -> Status {
    st => Step(a, prog, st)
  }

  /** The status after `n` instructions. */
  function Steps(next: State -> Status, st: State, n: nat): Status {
    if n == 0 then Running(st)
    else
      var s := Steps(next, st, n - 1);
      if s.Running? then next(s.st) else s
  }

  /** At least `least` instructions lead from one state to a status. */
  ghost predicate Leads(next: State -> Status, st: State, least: nat, s: Status) {
    exists n: nat :: n >= least && Steps(next, st, n) == s
  }

  lemma {:induction false} StepsAdd(next: State -> Status, st: State, m: nat, n: nat)
    requires Steps(next, st, m).Running?
    ensures Steps(next, st, m + n) == Steps(next, Steps(next, st, m).st, n)
  {
    if n > 0 {
      StepsAdd(next, st, m, n - 1);
      assert m + n - 1 == m + (n - 1);
    }
  }

  /** A program that has stopped stays stopped. */
  lemma {:induction false} StepsStay(next: State -> Status, st: State, m: nat, n: nat)
    requires m <= n && !Steps(next, st, m).Running?
    ensures Steps(next, st, n) == Steps(next, st, m)
  {
    if m < n {
      StepsStay(next, st, m, n - 1);
    }
  }

  lemma LeadsSelf(next: State -> Status, st: State)
    ensures Leads(next, st, 0, Running(st))
  {
    assert Steps(next, st, 0) == Running(st);
  }

  lemma LeadsStep(next: State -> Status, st: State)
    ensures Leads(next, st, 1, next(st))
  {
    assert Steps(next, st, 0) == Running(st);
    assert Steps(next, st, 1) == next(st);
  }

  lemma LeadsOn(next: State -> Status, x: State, i: nat, y: State, j: nat, s: Status)
    requires Leads(next, x, i, Running(y)) && Leads(next, y, j, s)
    ensures Leads(next, x, i + j, s)
  {
    var m: nat :| m >= i && Steps(next, x, m) == Running(y);
    var n: nat :| n >= j && Steps(next, y, n) == s;
    StepsAdd(next, x, m, n);
  }

  lemma LeadsLess(next: State -> Status, st: State, i: nat, j: nat, s: Status)
    requires Leads(next, st, i, s) && j <= i
    ensures Leads(next, st, j, s)
  {
  }

  // ---------------------------------------------------------------- pieces of code

  ghost predicate Agrees(prog: Prog, p: nat, code: Prog, k: nat)
    requires k < |code|
  {
    p + k < |prog| && prog[p + k] == code[k]
  }

  /** `code` is at position `p` of the program. */
  ghost predicate CodeAt(prog: Prog, p: nat, code: Prog) {
    p + |code| <= |prog| && forall k: nat {:trigger Agrees(prog, p, code, k)} | k < |code| :: Agrees(prog, p, code, k)
  }

  lemma CodeParts(prog: Prog, p: nat, x: Prog, y: Prog)
    requires CodeAt(prog, p, x + y)
    ensures CodeAt(prog, p, x) && CodeAt(prog, p + |x|, y)
  {
    forall k: nat | k < |x| ensures Agrees(prog, p, x, k) {
      assert Agrees(prog, p, x + y, k);
    }
    LastPart(prog, p, x, y, p + |x|);
  }

  lemma LastPart(prog: Prog, p: nat, x: Prog, y: Prog, q: nat)
    requires CodeAt(prog, p, x + y) && q == p + |x|
    ensures CodeAt(prog, q, y)
  {
    forall k: nat | k < |y| ensures Agrees(prog, q, y, k) {
      assert Agrees(prog, p, x + y, |x| + k);
    }
  }

  lemma CodeHead(prog: Prog, p: nat, i: Ins, rest: Prog)
    requires CodeAt(prog, p, [i] + rest)
    ensures p < |prog| && prog[p] == i && CodeAt(prog, p + 1, rest)
  {
    CodeParts(prog, p, [i], rest);
    assert Agrees(prog, p, [i], 0);
  }

  /** The effect of a piece of code without jumps. */
  function Lines(a: Arith, code: Prog, st: State): Status {
    if code == [] then Running(st)
    else
      var s := Line(a, code[0], st);
      if s.Running? then Lines(a, code[1..], s.st) else s
  }

  ghost predicate Straight(code: Prog) {
    forall k | 0 <= k < |code| :: !IsControl(code[k])
  }

  lemma {:induction false} LinesRun(a: Arith, prog: Prog, code: Prog, st: State)
    requires CodeAt(prog, st.pc, code) && Straight(code)
    ensures var s := Lines(a, code, st);
            Leads(Machine(a, prog), st, 0, s) && (s.Running? ==> s.st.pc == st.pc + |code|)
    decreases |code|
  {
    var next := Machine(a, prog);
    if code == [] {
      LeadsSelf(next, st);
    } else {
      var s := Line(a, code[0], st);
      assert [code[0]] + code[1..] == code;
      CodeHead(prog, st.pc, code[0], code[1..]);
      LeadsStep(next, st);
      assert !IsControl(code[0]) && next(st) == s;
      if s.Running? {
        LineMoves(a, code[0], st);
        LinesRun(a, prog, code[1..], s.st);
        LeadsOn(next, st, 1, s.st, 0, Lines(a, code, st));
        LeadsLess(next, st, 1, 0, Lines(a, code, st));
      }
    }
  }

  lemma LineMoves(a: Arith, i: Ins, st: State)
    requires Line(a, i, st).Running?
    ensures Line(a, i, st).st.pc == st.pc + 1
  {
  }

  lemma LabelIn(prog: Prog, p: nat, mark: nat)
    requires CodeAt(prog, p, [Label(mark)])
    ensures LabelAt(prog, mark, p) && Defined(prog, mark)
  {
    assert Agrees(prog, p, [Label(mark)], 0);
    assert LabelAt(prog, mark, p);
  }

  /** Passing a label, or jumping to one. */
  lemma LabelRuns(a: Arith, prog: Prog, st: State, mark: nat)
    requires LabelAt(prog, mark, st.pc)
    ensures Leads(Machine(a, prog), st, 1, Running(st.(pc := st.pc + 1)))
  {
    LeadsStep(Machine(a, prog), st);
  }

  lemma JumpRuns(a: Arith, prog: Prog, st: State, mark: nat, p: nat)
    requires DistinctLabels(prog) && CodeAt(prog, st.pc, [Jmp(mark)]) && LabelAt(prog, mark, p)
    ensures Leads(Machine(a, prog), st, 1, Running(st.(pc := p)))
  {
    assert Agrees(prog, st.pc, [Jmp(mark)], 0);
    Found(prog, mark, p);
    LeadsStep(Machine(a, prog), st);
  }

  lemma CompareRuns(a: Arith, prog: Prog, st: State, n: int)
    requires CodeAt(prog, st.pc, [CmpImm(n)]) && st.ax.Num?
    ensures Leads(Machine(a, prog), st, 1, Running(st.(pc := st.pc + 1, flags := (st.ax.n, n))))
  {
    assert Agrees(prog, st.pc, [CmpImm(n)], 0);
    LeadsStep(Machine(a, prog), st);
  }

  predicate Taken(jump: Ins, equal: bool) {
    if jump.Je? then equal else !equal
  }

  lemma BranchRuns(a: Arith, prog: Prog, st: State, jump: Ins, p: nat)
    requires DistinctLabels(prog) && (jump.Je? || jump.Jne?) && CodeAt(prog, st.pc, [jump])
    requires Taken(jump, st.flags.0 == st.flags.1) ==> LabelAt(prog, jump.mark, p)
    ensures Leads(Machine(a, prog), st, 1,
        Running(st.(pc := if Taken(jump, st.flags.0 == st.flags.1) then p else st.pc + 1)))
  {
    assert Agrees(prog, st.pc, [jump], 0);
    if Taken(jump, st.flags.0 == st.flags.1) {
      Found(prog, jump.mark, p);
    }
    LeadsStep(Machine(a, prog), st);
  }

  /** A comparison of the accumulator with a constant and a conditional jump. */
  lemma TestRuns(a: Arith, prog: Prog, st: State, n: int, jump: Ins, p: nat)
    requires DistinctLabels(prog) && (jump.Je? || jump.Jne?) && st.ax.Num?
    requires CodeAt(prog, st.pc, [CmpImm(n), jump]) && (Taken(jump, st.ax.n == n) ==> LabelAt(prog, jump.mark, p))
    ensures Leads(Machine(a, prog), st, 2,
                  Running(st.(pc := if Taken(jump, st.ax.n == n) then p else st.pc + 2, flags := (st.ax.n, n))))
  {
    assert [CmpImm(n)] + [jump] == [CmpImm(n), jump];
    CodeParts(prog, st.pc, [CmpImm(n)], [jump]);
    CompareRuns(a, prog, st, n);
    var mid := st.(pc := st.pc + 1, flags := (st.ax.n, n));
    BranchRuns(a, prog, mid, jump, p);
    LeadsOn(Machine(a, prog), st, 1, mid, 1, Running(mid.(pc := if Taken(jump, st.ax.n == n) then p else st.pc + 2)));
  }
}
