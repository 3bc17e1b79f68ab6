/** The three-address representation: instructions, blocks, and the questions that
    are answered by looking at one instruction.

    A value is named by its id, a block by its position in the layout, so where the
    compiler follows a pointer the model looks up an index. Instruction lists are
    sequences; block 0 is the function's entry. */
module Ir {

  datatype Option<+T> = None | Some(value: T)

  /** Types are shared objects compared by identity, which `name` stands for. */
  datatype Ty = Ty(name: string, size: nat, isUnsigned: bool)

  /** What an operation reads of a type: how wide its values are, and whether signed. */
  datatype Width = Width(size: nat, isUnsigned: bool)

  function WidthOf(ty: Ty): Width {
    Width(ty.size, ty.isUnsigned)
  }

  datatype Op =
    | Nop
    | Const | ConstFp | Str | Global | Alloca | Param
    | Load | Store | Copy | MemCpy
    | Add | Sub | Mul | Div | Mod | Shl | Shr | And | Or | Xor
    | Neg | Complement | LogNot
    | Eq | Ne | Lt | Le | Gt | Ge
    | Cast
    | Call
    | Jmp | Br | Ret
    | Phi

  datatype Instr = Instr(
    op: Op,
    dst: Option<nat>,          // the value produced, if any
    args: seq<nat>,            // operand values
    from: seq<nat>,            // Phi: the block each operand arrives from
    imm: int,
    text: Option<string>,
    sym: Option<string>,
    memTy: Option<Ty>,         // Load, Store: the type in memory
    target: nat,               // Jmp
    thenBlock: nat,            // Br
    elseBlock: nat)

  type Block = seq<Instr>
  type Code = seq<Block>

  /** A fresh instruction: every field cleared except the opcode. */
  function Emit(op: Op): Instr {
    Instr(op, None, [], [], 0, None, None, None, 0, 0, 0)
  }

  predicate IsTerminator(op: Op) {
    op == Jmp || op == Br || op == Ret
  }

  predicate HasSideEffects(i: Instr) {
    match i.op
    case Store => true
    case MemCpy => true
    case Call => true
    case Param => true
    case _ => IsTerminator(i.op)
  }

  predicate IsPure(i: Instr) {
    if HasSideEffects(i) || i.dst.None? then false
    else i.op != Load && i.op != Alloca && i.op != Phi
  }

  predicate HasTerminator(block: Block) {
    |block| > 0 && IsTerminator(block[|block| - 1].op)
  }

  /** Successors, read out of the terminator. A branch whose arms agree is one edge. */
  function Successors(block: Block): (s: seq<nat>)
    ensures |s| <= 2
    ensures |s| == 2 ==> s[0] != s[1]
  {
    if !HasTerminator(block) then []
    else
      var last := block[|block| - 1];
      if last.op == Jmp then [last.target]
      else if last.op == Br then
        if last.thenBlock == last.elseBlock then [last.thenBlock] else [last.thenBlock, last.elseBlock]
      else []
  }

  /** The control flow graph of a function body. */
  function Flow(code: Code): (g: seq<seq<nat>>)
    ensures |g| == |code|
    ensures forall b | 0 <= b < |code| :: g[b] == Successors(code[b])
  {
    seq(|code|, b requires 0 <= b < |code| => Successors(code[b]))
  }
}
