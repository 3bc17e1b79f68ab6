/** Constant folding, identities and strength reduction: folding agrees with not folding.

    `Interpret` is what an instruction computes, in 64-bit words truncated to its type.
    Every rewriting of the pass is proved to give that same result for all operands that
    fit their types; for the one fold that does not, exactly when it does. */
module Fold {
  import opened Ir
  import opened Words
  import opened Semantics

  // ------------------------------------------------------------- what is computed

  /** A binary operation on words; `None` is a trap, or no such operation. */
  function Apply(op: Op, a: int, b: int, unsigned: bool): (r: Option<int>)
    requires Word(a) && Word(b)
    ensures r.Some? ==> Word(r.value)
  {
    var ua, ub := Unsigned(a), Unsigned(b);
    match op
    case Add => Some(Wrap(a + b))
    case Sub => Some(Wrap(a - b))
    case Mul => Some(Wrap(a * b))
    case Div => if b == 0 then None else Some(Wrap(if unsigned then ua / ub else Quotient(a, b)))
    case Mod => if b == 0 then None else Some(Wrap(if unsigned then ua % ub else Remainder(a, b)))
    case Shl => Some(Wrap(ua * Pow2(b % 64)))
    case Shr => Some(Wrap(if unsigned then ua / Pow2(b % 64) else a / Pow2(b % 64)))
    case And => Some(Bitwise(BitAnd, a, b))
    case Or => Some(Bitwise(BitOr, a, b))
    case Xor => Some(Bitwise(BitXor, a, b))
    case Eq => Some(if a == b then 1 else 0)
    case Ne => Some(if a != b then 1 else 0)
    case Lt => Some(if (if unsigned then ua < ub else a < b) then 1 else 0)
    case Le => Some(if (if unsigned then ua <= ub else a <= b) then 1 else 0)
    case Gt => Some(if (if unsigned then ua > ub else a > b) then 1 else 0)
    case Ge => Some(if (if unsigned then ua >= ub else a >= b) then 1 else 0)
    case _ => None
  }

  function ResultTy(types: seq<Ty>, i: Instr): Ty {
    if i.dst.Some? then TyOf(types, i.dst.value) else NO_TYPE
  }

  /** Whether the operation reads its operands as unsigned. */
  predicate ReadsUnsigned(types: seq<Ty>, i: Instr) {
    |i.args| > 0 && TyOf(types, i.args[0]).isUnsigned
  }

  /** The value an instruction produces from its operands' values. */
  function Interpret(types: seq<Ty>, i: Instr, vals: seq<int>): (r: Option<int>)
    requires |vals| == |i.args| && (forall k | 0 <= k < |vals| :: Word(vals[k])) && Word(i.imm)
  {
    var ty := ResultTy(types, i);
    if i.op == Const then Some(i.imm)
    else if |vals| == 1 then
      match i.op
      case Neg => Some(Truncate(Wrap(-vals[0]), ty))
      case Complement => Some(Truncate(Wrap(-vals[0] - 1), ty))
      case LogNot => Some(Truncate(if vals[0] == 0 then 1 else 0, ty))
      case Cast => Some(Truncate(vals[0], ty))
      case Copy => Some(Truncate(vals[0], ty))
      case _ => None
    else if |vals| == 2 then
      var r := Apply(i.op, vals[0], vals[1], ReadsUnsigned(types, i));
      if r.Some? then Some(Truncate(r.value, ty)) else None
    else None
  }

  /** What an instruction computes is what the type of its result can hold. */
  lemma ResultFits(types: seq<Ty>, i: Instr, vals: seq<int>, d: nat)
    requires |vals| == |i.args| && (forall k | 0 <= k < |vals| :: Word(vals[k])) && Word(i.imm)
    requires i.dst == Some(d) && d < |types| && i.op != Const && Interpret(types, i, vals).Some?
    ensures Fits(Interpret(types, i, vals).value, types[d])
  {
    var ty := types[d];
    if |vals| == 2 {
      TruncatedFits(Apply(i.op, vals[0], vals[1], ReadsUnsigned(types, i)).value, ty);
    } else if |vals| == 1 {
      var a := vals[0];
      match i.op
      case Neg => TruncatedFits(Wrap(-a), ty);
      case Complement => TruncatedFits(Wrap(-a - 1), ty);
      case LogNot => TruncatedFits(if a == 0 then 1 else 0, ty);
      case _ => TruncatedFits(a, ty);
    }
  }

  lemma TruncatedFits(x: int, ty: Ty)
    requires Word(x)
    ensures Fits(Truncate(x, ty), ty)
  {
    TruncateRepresents(x, ty);
    TruncateCongruent(Truncate(x, ty), x, ty);
  }

  // ---------------------------------------------------------------- constant folds

  function Flag(b: bool): int {
    if b then 1 else 0
  }

  /** Folding two constants; `None` leaves the instruction alone. */
  function FoldBinary(op: Op, left: int, right: int, unsigned: bool): (r: Option<int>)
    requires Word(left) && Word(right)
    ensures r.Some? ==> Word(r.value)
  {
    var ul, ur := Unsigned(left), Unsigned(right);
    match op
    case Add => Some(Wrap(left + right))
    case Sub => Some(Wrap(left - right))
    case Mul => Some(Wrap(left * right))
    case Div => if right == 0 then None else Some(Wrap(if unsigned then ul / ur else Quotient(left, right)))
    case Mod => if right == 0 then None else Some(Wrap(if unsigned then ul % ur else Remainder(left, right)))
    case Shl => if right < 0 || right >= 64 then None else Some(Wrap(ul * Pow2(right)))
    case Shr => if right < 0 || right >= 64 then None
                else Some(Wrap(if unsigned then ur / Pow2(right) else left / Pow2(right)))   // `ur` is the count
    case And => Some(Bitwise(BitAnd, left, right))
    case Or => Some(Bitwise(BitOr, left, right))
    case Xor => Some(Bitwise(BitXor, left, right))
    case Eq => Some(Flag(left == right))
    case Ne => Some(Flag(left != right))
    case Lt => Some(Flag(if unsigned then ul < ur else left < right))
    case Le => Some(Flag(if unsigned then ul <= ur else left <= right))
    case Gt => Some(Flag(if unsigned then ul > ur else left > right))
    case Ge => Some(Flag(if unsigned then ul >= ur else left >= right))
    case _ => None
  }

  /** The one signed division whose quotient is no word: it has no defined result, and what
      the functions here give for it means nothing. */
  predicate Overflows(op: Op, left: int, right: int, unsigned: bool) {
    (op == Div || op == Mod) && !unsigned && left == -HALF && right == -1
  }

  lemma OverflowMeans(op: Op, left: int, right: int, unsigned: bool)
    requires Word(left) && Word(right)
    ensures Overflows(op, left, right, unsigned) <==>
            (op == Div || op == Mod) && !unsigned && right != 0 && !Word(Quotient(left, right))
  {
    if right != 0 {
      QuotientSize(left, right);
    }
  }

  /** Only dividing by -1 keeps the size of a word, and only one word has no opposite. */
  lemma QuotientSize(left: int, right: int)
    requires Word(left) && right != 0
    ensures right == -1 ==> Quotient(left, right) == -left
    ensures right != -1 ==> Word(Quotient(left, right))
  {
    var (m, n) := (Size(left), Size(right));
    if right < -1 || right > 1 {
      HalfSize(m, n);
    }
  }

  lemma HalfSize(m: int, n: int)
    requires m >= 0 && n >= 2
    ensures 0 <= m / n && 2 * (m / n) <= m
  {
    var q := m / n;
    assert m == n * q + m % n;
    assert n * q == 2 * q + (n - 2) * q;
    NotNegative(n - 2, q);
  }

  lemma NotNegative(a: int, b: int)
    requires a >= 0 && b >= 0
    ensures a * b >= 0
  {
  }

  /** The operand that an unsigned right shift would shift out entirely. */
  predicate ShiftsOut(left: int, right: int)
    requires Word(left) && 0 <= right < 64
  {
    Unsigned(left) < Pow2(right)
  }

  /** A fold gives what the machine computes, but for one operation: an unsigned right
      shift is folded to zero, so it is right exactly when every bit is shifted out. */
  lemma FoldBinaryAgrees(op: Op, left: int, right: int, unsigned: bool)
    requires Word(left) && Word(right) && !Overflows(op, left, right, unsigned)
    requires FoldBinary(op, left, right, unsigned).Some?
    ensures Apply(op, left, right, unsigned).Some?
    ensures FoldBinary(op, left, right, unsigned) == Apply(op, left, right, unsigned) <==>
            !(op == Shr && unsigned && !ShiftsOut(left, right))
  {
    if op == Shr && unsigned {
      UnsignedShiftAgrees(left, right);
    } else {
      OthersAgree(op, left, right, unsigned);
    }
  }

  lemma UnsignedShiftAgrees(left: int, right: int)
    requires Word(left) && 0 <= right < 64
    ensures Apply(Shr, left, right, true).Some?
    ensures FoldBinary(Shr, left, right, true) == Apply(Shr, left, right, true) <==> ShiftsOut(left, right)
  {
    var (u, p) := (Unsigned(left), Pow2(right));
    UnsignedShiftFolds(left, right);
    ShiftedOut(u, p);
    QuotientBelow(u, p, WORD);
    WrapSmall(u / p, right);
  }

  lemma QuotientBelow(a: nat, m: nat, w: nat)
    requires m > 0 && a < w
    ensures 0 <= a / m < w
  {
    var q := a / m;
    assert a == m * q + a % m;
    TimesAtLeast(m, q);
  }

  lemma {:induction false} TimesAtLeast(m: nat, q: nat)
    requires m > 0
    ensures m * q >= q
  {
    if m > 1 {
      TimesAtLeast(m - 1, q);
      assert m * q == (m - 1) * q + q;
    }
  }

  lemma OthersAgree(op: Op, left: int, right: int, unsigned: bool)
    requires Word(left) && Word(right) && !(op == Shr && unsigned)
    requires FoldBinary(op, left, right, unsigned).Some?
    ensures FoldBinary(op, left, right, unsigned) == Apply(op, left, right, unsigned)
  {
  }

  /** An unsigned right shift is folded to zero, whatever is shifted. */
  lemma UnsignedShiftFolds(left: int, right: int)
    requires Word(left) && 0 <= right < 64
    ensures FoldBinary(Shr, left, right, true) == Some(0)
    ensures Apply(Shr, left, right, true) == Some(Wrap(Unsigned(left) / Pow2(right)))
  {
    ZeroFolded(left, right);
    SmallCount(right);
  }

  lemma SmallCount(k: int)
    requires 0 <= k < 64
    ensures k % 64 == k
  {
  }

  lemma ZeroFolded(left: int, right: int)
    requires Word(left) && 0 <= right < 64
    ensures FoldBinary(Shr, left, right, true) == Some(0)
  {
    CountShiftedByItself(right);
    assert Unsigned(right) == right && Wrap(0) == 0;
  }

  lemma CountShiftedByItself(k: nat)
    ensures k / Pow2(k) == 0
  {
    Pow2Exceeds(k);
    QuotientIs(k, Pow2(k), 0, k);
  }

  lemma ShiftedOut(a: nat, m: nat)
    requires m > 0
    ensures a / m == 0 <==> a < m
  {
    if a < m {
      QuotientIs(a, m, 0, a);
    }
  }

  /** A quotient of a word by a power of two wraps to zero only if it is zero. */
  lemma WrapSmall(q: nat, k: nat)
    requires q < WORD
    ensures Wrap(q) == 0 <==> q == 0
  {
  }

  /** Folding is declined exactly where the machine traps, where the shift count is out of
      range, and for what is not a binary operation. */
  lemma FoldDeclines(op: Op, left: int, right: int, unsigned: bool)
    requires Word(left) && Word(right) && !Overflows(op, left, right, unsigned)
    ensures FoldBinary(op, left, right, unsigned).None? <==>
            Apply(op, left, right, unsigned).None? || ((op == Shl || op == Shr) && !(0 <= right < 64))
  {
  }

  /** 255 >> 4, unsigned, is folded to 0 instead of 15. */
  lemma UnsignedShiftMisfolded()
    ensures FoldBinary(Shr, 255, 4, true) == Some(0) && Apply(Shr, 255, 4, true) == Some(15)
  {
    assert Pow2(4) == 16;
  }

  // --------------------------------------------------------------------- rewritings

  datatype Rewriting =
    | Keep
    | Use(v: nat)                 // read this operand instead of the result
    | Become(n: int)              // a constant
    | Reduce(op: Op, n: int)      // the same left operand, with another operation and constant

  predicate SameTy(types: seq<Ty>, i: Instr, v: nat) {
    i.dst.Some? && TyOf(types, i.dst.value) == TyOf(types, v)
  }

  /** Identities. `l` and `r` are the operands' values where these are constants. */
  function Identity(types: seq<Ty>, i: Instr, l: Option<int>, r: Option<int>): Rewriting
    requires |i.args| == 2
  {
    var left, right := i.args[0], i.args[1];
    if i.op in {Add, Sub, Or, Xor, Shl, Shr} && r == Some(0) && SameTy(types, i, left) then Use(left)
    else if i.op in {Add, Or, Xor} && l == Some(0) && SameTy(types, i, right) then Use(right)
    else if i.op == Mul && r == Some(1) && SameTy(types, i, left) then Use(left)
    else if i.op == Mul && l == Some(1) && SameTy(types, i, right) then Use(right)
    else if i.op == Mul && (r == Some(0) || l == Some(0)) then Become(0)
    else if i.op == Div && r == Some(1) && SameTy(types, i, left) then Use(left)
    else if i.op == And && (r == Some(0) || l == Some(0)) then Become(0)
    else if i.op == And && left == right && SameTy(types, i, left) then Use(left)
    else if left == right then
      (match i.op
       case Sub => Become(0)
       case Xor => Become(0)
       case Or => if SameTy(types, i, left) then Use(left) else Keep
       case Eq => Become(1)
       case Le => Become(1)
       case Ge => Become(1)
       case Ne => Become(0)
       case Lt => Become(0)
       case Gt => Become(0)
       case _ => Keep)
    else Keep
  }

  /** The values of an instruction's operands: each fits its type, and those that are
      defined by constants have these. */
  ghost predicate Consistent(types: seq<Ty>, i: Instr, l: Option<int>, r: Option<int>, a: int, b: int)
    requires |i.args| == 2
  {
    && Fits(a, TyOf(types, i.args[0])) && Fits(b, TyOf(types, i.args[1]))
    && (l.Some? ==> a == l.value) && (r.Some? ==> b == r.value)
    && (i.args[0] == i.args[1] ==> a == b)
  }

  /** A rewriting leaves the result as it was. */
  ghost predicate Keeps(types: seq<Ty>, i: Instr, rw: Rewriting, a: int, b: int)
    requires |i.args| == 2 && Word(i.imm) && Word(a) && Word(b)
  {
    match rw
    case Keep => true
    case Use(v) => (v == i.args[0] && Interpret(types, i, [a, b]) == Some(a)) || (v == i.args[1] &&
      Interpret(types, i, [a, b]) == Some(b))
    case Become(n) => Word(n) && Interpret(types, i, [a, b]) == Some(Truncate(n, ResultTy(types, i)))
    case Reduce(op, n) => Word(n) && Interpret(types, i, [a, b]) == Interpret(types, i.(op := op), [a, n])
  }

  lemma RightZero(op: Op, a: int, unsigned: bool)
    requires Word(a) && op in {Add, Sub, Or, Xor, Shl, Shr}
    ensures Apply(op, a, 0, unsigned) == Some(a)
  {
    match op
    case Shl => ShiftByNothing(a, Pow2(0 % 64));
    case Shr => ShiftByNothing(a, Pow2(0 % 64));
    case Or => BitwiseZero(BitOr, a);
    case Xor => BitwiseZero(BitXor, a);
    case _ =>
  }

  lemma ShiftByNothing(a: int, p: int)
    requires Word(a) && p == 1
    ensures Wrap(Unsigned(a) * p) == a && Wrap(Unsigned(a) / p) == a && Wrap(a / p) == a
  {
  }

  lemma LeftZero(op: Op, b: int, unsigned: bool)
    requires Word(b) && op in {Add, Or, Xor}
    ensures Apply(op, 0, b, unsigned) == Some(b)
  {
    match op
    case Or => BitwiseZero(BitOr, b);
    case Xor => BitwiseZero(BitXor, b);
    case _ =>
  }

  lemma Neutral(a: int, unsigned: bool)
    requires Word(a)
    ensures Apply(Mul, a, 1, unsigned) == Some(a) && Apply(Mul, 1, a, unsigned) == Some(a)
    ensures Apply(Div, a, 1, unsigned) == Some(a)
  {
  }

  lemma Absorbing(op: Op, a: int, unsigned: bool)
    requires Word(a) && op in {Mul, And}
    ensures Apply(op, a, 0, unsigned) == Some(0) && Apply(op, 0, a, unsigned) == Some(0)
  {
    if op == And {
      BitwiseZero(BitAnd, a);
    }
  }

  lemma WithItself(op: Op, a: int, unsigned: bool)
    requires Word(a)
    ensures op in {Sub, Xor, Ne, Lt, Gt} ==> Apply(op, a, a, unsigned) == Some(0)
    ensures op in {Eq, Le, Ge} ==> Apply(op, a, a, unsigned) == Some(1)
    ensures op in {And, Or} ==> Apply(op, a, a, unsigned) == Some(a)
  {
    match op
    case And => BitwiseSelf(BitAnd, a);
    case Or => BitwiseSelf(BitOr, a);
    case Xor => BitwiseSelf(BitXor, a);
    case _ =>
  }

  /** Each identity gives what the instruction computes. */
  lemma IdentitySound(types: seq<Ty>, i: Instr, l: Option<int>, r: Option<int>, a: int, b: int)
    requires |i.args| == 2 && i.dst.Some? && Word(i.imm) && Consistent(types, i, l, r, a, b)
    ensures Keeps(types, i, Identity(types, i, l, r), a, b)
  {
    var unsigned := ReadsUnsigned(types, i);
    if r == Some(0) && i.op in {Add, Sub, Or, Xor, Shl, Shr} {
      RightZero(i.op, a, unsigned);
    }
    if l == Some(0) && i.op in {Add, Or, Xor} {
      LeftZero(i.op, b, unsigned);
    }
    if i.op in {Mul, Div} {
      Neutral(a, unsigned);
      Neutral(b, unsigned);
    }
    if i.op in {Mul, And} {
      Absorbing(i.op, a, unsigned);
      Absorbing(i.op, b, unsigned);
    }
    if i.args[0] == i.args[1] {
      WithItself(i.op, a, unsigned);
    }
    IdentityCases(types, i, l, r, a, b, Apply(i.op, a, b, unsigned));
  }

  lemma IdentityCases(types: seq<Ty>, i: Instr, l: Option<int>, r: Option<int>, a: int, b: int, x: Option<int>)
    requires |i.args| == 2 && i.dst.Some? && Word(i.imm) && Consistent(types, i, l, r, a, b)
    requires x == Apply(i.op, a, b, ReadsUnsigned(types, i))
    requires match Identity(types, i, l, r)
             case Use(v) => (v == i.args[0] && x == Some(a)) || (v == i.args[1] && x == Some(b))
             case Become(n) => x == Some(n)
             case _ => true
    ensures Keeps(types, i, Identity(types, i, l, r), a, b)
  {
  }

  // ------------------------------------------------------------- strength reduction

  /** The position of the one bit of a power of two, or -1. */
  method PowerOfTwo(value: int) returns (bit: int)
    requires Word(value)
    ensures bit >= 0 ==> value == Pow2(bit) && bit < 63
    ensures bit < 0 ==> bit == -1 && !(value > 0 && IsPow2(value))
  {
    Pow2Word();
    if value > 0 {
      NoCommonBit(value, 64);
    }
    if value <= 0 || Bitwise(BitAnd, value, value - 1) != 0 {
      return -1;
    }
    ghost var k: nat :| value == Pow2(k);
    bit := 0;
    Pow2Add(0, k);
    while value / Pow2(bit) != 1
      invariant 0 <= bit <= k && value == Pow2(k) && value == Pow2(bit) * Pow2(k - bit)
      decreases k - bit
    {
      QuotientIs(value, Pow2(bit), Pow2(k - bit), 0);
      assert k - bit > 0;
      HalveDouble(Pow2(bit), Pow2(k - bit - 1));
      bit := bit + 1;
    }
    QuotientIs(value, Pow2(bit), Pow2(k - bit), 0);
    if bit >= 63 {
      Pow2Monotone(63, bit);
    }
  }

  lemma HalveDouble(p: nat, q: nat)
    ensures p * (2 * q) == (2 * p) * q
  {
  }

  /** Multiplication by a power of two as a shift, unsigned division as a shift, unsigned
      remainder as a mask. */
  method StrengthReduce(types: seq<Ty>, i: Instr, r: Option<int>) returns (rw: Rewriting)
    requires |i.args| == 2 && i.dst.Some? && (r.Some? ==> Word(r.value))
    ensures rw.Keep? || rw.Reduce?
    ensures rw.Reduce? ==> r.Some? && Reduces(types, i, r.value, rw)
    ensures rw.Keep? ==> r.None? || forall other: Rewriting :: !Reduces(types, i, r.value, other)
  {
    if r.None? {
      return Keep;
    }
    var bit := PowerOfTwo(r.value);
    if bit >= 0 {
      OnlyPower(r.value, bit);
    }
    if bit <= 0 {
      return Keep;
    }
    match i.op
    case Mul => rw := Reduce(Shl, bit);
    case Div => rw := if ResultTy(types, i).isUnsigned then Reduce(Shr, bit) else Keep;
    case Mod => rw := if ResultTy(types, i).isUnsigned then Reduce(And, r.value - 1) else Keep;
    case _ => rw := Keep;
  }

  lemma OnlyPower(n: int, bit: nat)
    requires n == Pow2(bit)
    ensures forall k: nat :: n == Pow2(k) ==> k == bit
  {
    forall k: nat | n == Pow2(k)
      ensures k == bit
    {
      Pow2Monotone(k, if k <= bit then bit else k);
      Pow2Monotone(bit, if bit <= k then k else bit);
    }
  }

  /** What strength reduction does, for a constant that is a power of two above one. */
  ghost predicate Reduces(types: seq<Ty>, i: Instr, n: int, rw: Rewriting) {
    exists k: nat :: 0 < k < 63 && n == Pow2(k) &&
      (|| (i.op == Mul && rw == Reduce(Shl, k))
       || (i.op == Div && ResultTy(types, i).isUnsigned && rw == Reduce(Shr, k))
       || (i.op == Mod && ResultTy(types, i).isUnsigned && rw == Reduce(And, n - 1)))
  }

  /** Division and remainder must read their operands as unsigned; but a remainder by a
      multiple of the result's range is right in any case. */
  predicate ReductionRight(types: seq<Ty>, i: Instr, n: int) {
    i.op == Mul || ReadsUnsigned(types, i) || (i.op == Mod && n % Modulus(ResultTy(types, i)) == 0)
  }

  /** A reduction computes the same on all operands that fit their type, exactly under that
      condition. */
  lemma ReductionExact(types: seq<Ty>, i: Instr, n: int, rw: Rewriting)
    requires |i.args| == 2 && i.dst.Some? && Word(i.imm) && Word(n) && Reduces(types, i, n, rw)
    ensures ReductionRight(types, i, n) <==>
            forall a {:trigger Keeps(types, i, rw, a, n)} | Fits(a, TyOf(types, i.args[0])) :: Keeps(types, i, rw, a, n)
  {
    if ReductionRight(types, i, n) {
      forall a | Fits(a, TyOf(types, i.args[0]))
        ensures Keeps(types, i, rw, a, n)
      {
        ReductionSound(types, i, n, rw, a);
      }
    } else {
      ReductionWrong(types, i, n, rw);
    }
  }

  lemma ReductionSound(types: seq<Ty>, i: Instr, n: int, rw: Rewriting, a: int)
    requires |i.args| == 2 && i.dst.Some? && Word(i.imm) && Word(n) && Word(a) && Reduces(types, i, n, rw)
    requires ReductionRight(types, i, n)
    ensures Keeps(types, i, rw, a, n)
  {
    var k := ReducedBy(types, i, n, rw);
    var unsigned := ReadsUnsigned(types, i);
    if i.op == Mul {
      MultiplyIsShift(a, k, n, unsigned);
      ReductionCase(types, i, n, rw, a, unsigned);
    } else if !unsigned {
      SignedRemainderMasked(types, i, n, rw, a, k);
    } else {
      if i.op == Div {
        DivideIsShift(a, k, n);
      } else {
        MaskIsRemainder(a, k, n);
      }
      ReductionCase(types, i, n, rw, a, unsigned);
    }
  }

  /** Which power of two is reduced. */
  lemma ReducedBy(types: seq<Ty>, i: Instr, n: int, rw: Rewriting) returns (k: nat)
    requires |i.args| == 2 && Reduces(types, i, n, rw)
    ensures 0 < k < 63 && n == Pow2(k) && 1 < n < HALF
    ensures (i.op == Mul && rw == Reduce(Shl, k))
         || (i.op == Div && ResultTy(types, i).isUnsigned && rw == Reduce(Shr, k))
         || (i.op == Mod && ResultTy(types, i).isUnsigned && rw == Reduce(And, n - 1))
  {
    k :| 0 < k < 63 && n == Pow2(k) &&
      (|| (i.op == Mul && rw == Reduce(Shl, k))
       || (i.op == Div && ResultTy(types, i).isUnsigned && rw == Reduce(Shr, k))
       || (i.op == Mod && ResultTy(types, i).isUnsigned && rw == Reduce(And, n - 1)));
    Pow2Word();
    Pow2Monotone(k, 63);
    Pow2Monotone(1, k);
  }

  /** A signed remainder and a mask agree modulo the power of two. */
  lemma SignedRemainderMasked(types: seq<Ty>, i: Instr, n: int, rw: Rewriting, a: int, k: nat)
    requires |i.args| == 2 && i.dst.Some? && Word(i.imm) && Word(n) && Word(a)
    requires i.op == Mod && rw == Reduce(And, n - 1) && k < 63 && n == Pow2(k) && n > 1
    requires !ReadsUnsigned(types, i) && n % Modulus(ResultTy(types, i)) == 0
    ensures Keeps(types, i, rw, a, n)
  {
    var ty := ResultTy(types, i);
    var (x, y) := (Wrap(Remainder(a, n)), Bitwise(BitAnd, a, n - 1));
    RemainderIsWord(a, n);
    MaskedCongruent(a, k, n);
    MultipleOf(x - y, n, Modulus(ty));
    TruncateCongruent(x, y, ty);
    ReductionKeeps(types, i, n, rw, a, x, y);
  }

  /** The remainder and the mask differ by a multiple of the power of two. */
  lemma MaskedCongruent(a: int, k: nat, n: int)
    requires Word(a) && k < 63 && n == Pow2(k) && 1 < n < HALF
    ensures exists q: int :: Wrap(Remainder(a, n)) - Bitwise(BitAnd, a, n - 1) == q * n
  {
    RemainderIsWord(a, n);
    RemainderCongruent(a, n);
    UnsignedCongruent(a, k, n);
    MaskIsUnsignedRemainder(a, k, n);
    var p: int :| Remainder(a, n) == a - p * n;
    var q: int :| Unsigned(a) % n == a - q * n;
    assert (q - p) * n == q * n - p * n;
    assert Remainder(a, n) - Unsigned(a) % n == (q - p) * n;
  }

  lemma MaskIsUnsignedRemainder(a: int, k: nat, n: int)
    requires Word(a) && k < 63 && n == Pow2(k) && 1 < n < HALF
    ensures Bitwise(BitAnd, a, n - 1) == Unsigned(a) % n
  {
    MaskIsRemainder(a, k, n);
    WrapSame(Unsigned(a) % n);
    assert Unsigned(n) == n;
  }

  /** A reduction keeps the result exactly where both values are reduced to the same. */
  lemma ReductionKeeps(types: seq<Ty>, i: Instr, n: int, rw: Rewriting, a: int, x: int, y: int)
    requires |i.args| == 2 && i.dst.Some? && Word(i.imm) && Word(n) && Word(a) && Word(x) && Word(y)
    requires i.op in {Mul, Div, Mod} && rw.Reduce? && rw.op in {Shl, Shr, And} && Word(rw.n)
    requires Apply(i.op, a, n, ReadsUnsigned(types, i)) == Some(x)
    requires Apply(rw.op, a, rw.n, ReadsUnsigned(types, i)) == Some(y)
    ensures Keeps(types, i, rw, a, n) <==> Truncate(x, ResultTy(types, i)) == Truncate(y, ResultTy(types, i))
  {
  }

  lemma WrapSame(x: int)
    requires Word(x)
    ensures Wrap(x) == x
  {
  }

  lemma RemainderIsWord(a: int, n: int)
    requires Word(a) && 0 < n < HALF
    ensures -n < Remainder(a, n) < n && Wrap(Remainder(a, n)) == Remainder(a, n)
  {
  }

  lemma RemainderCongruent(a: int, n: int)
    requires n > 0
    ensures exists q: int :: Remainder(a, n) == a - q * n
  {
    var q := Quotient(a, n);
    assert Remainder(a, n) == a - q * n;
  }

  lemma UnsignedCongruent(a: int, k: nat, n: int)
    requires Word(a) && k < 63 && n == Pow2(k)
    ensures exists q: int :: Unsigned(a) % n == a - q * n
  {
    if a >= 0 {
      Congruent(a, a, n, 0);
    } else {
      Pow2Add(k, 64 - k);
      Pow2Word();
      Congruent(a + WORD, a, n, Pow2(64 - k));
    }
  }

  lemma Congruent(u: int, a: int, n: int, m: int)
    requires n > 0 && u == a + m * n
    ensures exists q: int :: u % n == a - q * n
  {
    var p := u / n;
    assert u % n == u - p * n;
    assert (p - m) * n == p * n - m * n;
    assert u % n == a - (p - m) * n;
  }

  lemma MultipleOf(d: int, n: int, m: int)
    requires n > 0 && m > 0 && n % m == 0 && exists q: int :: d == q * n
    ensures d % m == 0
  {
    var q: int :| d == q * n;
    var f := n / m;
    assert n == m * f;
    assert d == (q * f) * m;
    QuotientIs(d, m, q * f, 0);
  }

  /** The operand -1 shows a signed division or remainder reduced wrongly. */
  lemma ReductionWrong(types: seq<Ty>, i: Instr, n: int, rw: Rewriting)
    requires |i.args| == 2 && i.dst.Some? && Word(i.imm) && Word(n) && Reduces(types, i, n, rw)
    requires !ReductionRight(types, i, n)
    ensures Fits(-1, TyOf(types, i.args[0])) && !Keeps(types, i, rw, -1, n)
  {
    var k := ReducedBy(types, i, n, rw);
    MinusOneFits(TyOf(types, i.args[0]));
    if i.op == Div {
      DivisionWrong(types, i, n, rw, k);
    } else {
      RemainderWrong(types, i, n, rw, k);
    }
  }

  lemma MinusOneFits(ty: Ty)
    requires !ty.isUnsigned
    ensures Fits(-1, ty)
  {
  }

  lemma ZeroIsNotMinusOne(ty: Ty)
    ensures Truncate(0, ty) != Truncate(-1, ty)
  {
  }

  lemma DivisionWrong(types: seq<Ty>, i: Instr, n: int, rw: Rewriting, k: nat)
    requires |i.args| == 2 && i.dst.Some? && Word(i.imm) && 0 < k < 63 && n == Pow2(k) && 1 < n < HALF
    requires i.op == Div && rw == Reduce(Shr, k) && !ReadsUnsigned(types, i)
    ensures !Keeps(types, i, rw, -1, n)
  {
    MinusOneShifts(k, n);
    ZeroIsNotMinusOne(ResultTy(types, i));
    ReductionKeeps(types, i, n, rw, -1, 0, -1);
  }

  lemma RemainderWrong(types: seq<Ty>, i: Instr, n: int, rw: Rewriting, k: nat)
    requires |i.args| == 2 && i.dst.Some? && Word(i.imm) && 0 < k < 63 && n == Pow2(k) && 1 < n < HALF
    requires i.op == Mod && rw == Reduce(And, n - 1) && !ReadsUnsigned(types, i) && n % Modulus(ResultTy(types, i)) != 0
    ensures !Keeps(types, i, rw, -1, n)
  {
    MinusOneMasked(k, n);
    TruncateCongruent(-1, n - 1, ResultTy(types, i));
    NegativeMultiple(n, Modulus(ResultTy(types, i)));
    ReductionKeeps(types, i, n, rw, -1, -1, n - 1);
  }

  lemma NegativeMultiple(n: int, m: int)
    requires m > 0 && n % m != 0
    ensures (-n) % m != 0
  {
    if (-n) % m == 0 {
      var f := (-n) / m;
      assert -n == m * f;
      QuotientIs(n, m, -f, 0);
    }
  }

  lemma MinusOneShifts(k: nat, n: int)
    requires 0 < k < 63 && n == Pow2(k) && 1 < n < HALF
    ensures Apply(Div, -1, n, false) == Some(0) && Apply(Shr, -1, k, false) == Some(-1)
  {
    assert k % 64 == k;
    QuotientIs(-1, n, -1, n - 1);
    QuotientIs(1, n, 0, 1);
  }

  lemma MinusOneMasked(k: nat, n: int)
    requires 0 < k < 63 && n == Pow2(k) && 1 < n < HALF
    ensures Apply(Mod, -1, n, false) == Some(-1) && Apply(And, -1, n - 1, false) == Some(n - 1)
  {
    MinusOneRemainder(n);
    MaskIsUnsignedRemainder(-1, k, n);
    AllOnesRemainder(k, n);
  }

  lemma MinusOneRemainder(n: int)
    requires 1 < n < HALF
    ensures Apply(Mod, -1, n, false) == Some(-1)
  {
    QuotientIs(1, n, 0, 1);
    assert Remainder(-1, n) == -1;
  }

  lemma AllOnesRemainder(k: nat, n: int)
    requires 0 < k < 63 && n == Pow2(k)
    ensures (WORD - 1) % n == n - 1
  {
    Pow2Add(k, 64 - k);
    Pow2Word();
    var m := Pow2(64 - k);
    assert (m - 1) * n == m * n - n;
    QuotientIs(WORD - 1, n, m - 1, n - 1);
  }

  lemma ReductionCase(types: seq<Ty>, i: Instr, n: int, rw: Rewriting, a: int, unsigned: bool)
    requires |i.args| == 2 && i.dst.Some? && Word(i.imm) && Word(n) && Word(a) && unsigned == ReadsUnsigned(types, i)
    requires i.op in {Mul, Div, Mod} && rw.Reduce? && rw.op in {Shl, Shr, And} && Word(rw.n)
    requires Apply(i.op, a, n, unsigned) == Apply(rw.op, a, rw.n, unsigned)
    ensures Keeps(types, i, rw, a, n)
  {
  }

  lemma MultiplyIsShift(a: int, k: nat, n: int, unsigned: bool)
    requires Word(a) && Word(n) && k < 63 && n == Pow2(k)
    ensures Apply(Mul, a, n, unsigned) == Apply(Shl, a, k, unsigned)
  {
    TimesPower(a, n);
    assert k % 64 == k;
  }

  lemma DivideIsShift(a: int, k: nat, n: int)
    requires Word(a) && Word(n) && k < 63 && n == Pow2(k)
    ensures Apply(Div, a, n, true) == Apply(Shr, a, k, true)
  {
    assert k % 64 == k && Unsigned(n) == n;
  }

  /** Multiplying the unsigned reading gives the same word. */
  lemma TimesPower(a: int, n: int)
    requires Word(a)
    ensures Wrap(Unsigned(a) * n) == Wrap(a * n)
  {
    if a < 0 {
      assert Unsigned(a) * n == a * n + WORD * n;
      WrapMultiple(a * n, n);
    }
  }

  lemma WrapMultiple(x: int, n: int)
    ensures Wrap(x + WORD * n) == Wrap(x)
  {
    QuotientIs(x + HALF + WORD * n, WORD, (x + HALF) / WORD + n, (x + HALF) % WORD);
  }

  lemma MaskIsRemainder(a: int, k: nat, n: int)
    requires Word(a) && Word(n) && k < 63 && n == Pow2(k)
    ensures Apply(Mod, a, n, true) == Apply(And, a, n - 1, true)
  {
    BitsMask(Unsigned(a), k, 64);
    assert Unsigned(n) == n && Unsigned(n - 1) == n - 1;
  }

  const SIGNED := Ty("int", 4, false)
  const UNSIGNED := Ty("unsigned", 4, true)

  /** `%2 = div %0, %1`, with signed operands and an unsigned result. */
  const MIXED_DIVISION := Emit(Div).(dst := Some(2), args := [0, 1])

  /** A division that is reduced to a shift, and the operand -7 that shows it wrong: -7 / 2
      is -3, but -7 >> 1 is -4. */
  lemma SignedDivisionMisreduced()
    ensures var types := [SIGNED, SIGNED, UNSIGNED];
            && Reduces(types, MIXED_DIVISION, 2, Reduce(Shr, 1))
            && Interpret(types, MIXED_DIVISION, [-7, 2]) == Some(WORD_32 - 3)
            && Interpret(types, MIXED_DIVISION.(op := Shr), [-7, 1]) == Some(WORD_32 - 4)
  {
    assert Pow2(1) == 2;
    MixedDivided();
    MixedShifted();
  }

  lemma MixedDivided()
    ensures Interpret([SIGNED, SIGNED, UNSIGNED], MIXED_DIVISION, [-7, 2]) == Some(WORD_32 - 3)
  {
    SevenHalved();
    assert Truncate(-3, UNSIGNED) == WORD_32 - 3;
  }

  lemma MixedShifted()
    ensures Interpret([SIGNED, SIGNED, UNSIGNED], MIXED_DIVISION.(op := Shr), [-7, 1]) == Some(WORD_32 - 4)
  {
    SevenHalved();
    assert Truncate(-4, UNSIGNED) == WORD_32 - 4;
  }

  lemma SevenHalved()
    ensures Apply(Div, -7, 2, false) == Some(-3) && Apply(Shr, -7, 1, false) == Some(-4)
  {
    assert Pow2(1) == 2;
  }

  const WORD_32: int := 0x1_0000_0000

  // ------------------------------------------------------------- one instruction

  /** Folds of one constant. */
  function FoldUnary(op: Op, a: int): (r: Option<int>)
    requires Word(a)
    ensures r.Some? ==> Word(r.value)
  {
    match op
    case Neg => Some(Wrap(-a))
    case Complement => Some(Wrap(-a - 1))
    case LogNot => Some(Flag(a == 0))
    case Cast => Some(a)
    case _ => None
  }

  /** What is left of an unsigned right shift is reduced to zero by the type. */
  predicate LosesAll(left: int, right: int, ty: Ty)
    requires Word(left) && 0 <= right < 64
  {
    (Unsigned(left) / Pow2(right)) % Modulus(ty) == 0
  }

  /** A constant fold keeps the result exactly where it is no unsigned right shift that
      leaves something. */
  lemma FoldKeeps(types: seq<Ty>, i: Instr, left: int, right: int)
    requires |i.args| == 2 && i.dst.Some? && Word(i.imm) && Word(left) && Word(right) && i.op != Const
    requires !Overflows(i.op, left, right, ReadsUnsigned(types, i))
    requires FoldBinary(i.op, left, right, ReadsUnsigned(types, i)).Some?
    ensures i.op == Shr ==> 0 <= right < 64
    ensures Keeps(types, i, Become(FoldBinary(i.op, left, right, ReadsUnsigned(types, i)).value), left, right) <==>
            !(i.op == Shr && ReadsUnsigned(types, i) && !LosesAll(left, right, ResultTy(types, i)))
  {
    FoldBinaryAgrees(i.op, left, right, ReadsUnsigned(types, i));
    if i.op == Shr && ReadsUnsigned(types, i) {
      UnsignedShiftFolds(left, right);
      var (q, ty) := (Unsigned(left) / Pow2(right), ResultTy(types, i));
      TruncateCongruent(Wrap(q), 0, ty);
      WrapCongruent(q, ty);
    }
  }

  lemma WrapCongruent(x: int, ty: Ty)
    ensures Wrap(x) % Modulus(ty) == 0 <==> x % Modulus(ty) == 0
  {
    var q := (x + HALF) / WORD;
    assert Wrap(x) == x - WORD * q;
    match ty.size
    case 1 => LessWords8(x, q);
    case 2 => LessWords16(x, q);
    case 4 => LessWords32(x, q);
    case _ => LessWords64(x, q);
  }

  lemma LessWords8(x: int, q: int)
    ensures (x - WORD * q) % 0x100 == x % 0x100
  {
  }

  lemma LessWords16(x: int, q: int)
    ensures (x - WORD * q) % 0x1_0000 == x % 0x1_0000
  {
  }

  lemma LessWords32(x: int, q: int)
    ensures (x - WORD * q) % 0x1_0000_0000 == x % 0x1_0000_0000
  {
  }

  lemma LessWords64(x: int, q: int)
    ensures (x - WORD * q) % WORD == x % WORD
  {
  }

  /** The two ways a rewriting of a binary operation goes wrong: an unsigned right shift of
      constants that leaves something, and a division or remainder by a power of two that
      reads signed operands but gives an unsigned result. */
  ghost predicate Misfolds(types: seq<Ty>, i: Instr, l: Option<int>, r: Option<int>)
    requires (l.Some? ==> Word(l.value)) && (r.Some? ==> Word(r.value))
  {
    if r.None? then false
    else if l.Some? then
      i.op == Shr && ReadsUnsigned(types, i) && 0 <= r.value < 64 && !LosesAll(l.value, r.value, ResultTy(types, i))
    else
      (i.op == Div || i.op == Mod) && ResultTy(types, i).isUnsigned && !ReductionRight(types, i, r.value)
      && exists k: nat :: 0 < k < 63 && r.value == Pow2(k)
  }

  /** Whatever the operands are, the rewriting leaves the result as it was. */
  ghost predicate KeepsAll(types: seq<Ty>, i: Instr, l: Option<int>, r: Option<int>, rw: Rewriting)
    requires |i.args| == 2 && Word(i.imm)
  {
    forall a, b {:trigger Consistent(types, i, l, r, a, b)} |
      Consistent(types, i, l, r, a, b) && !Overflows(i.op, a, b, ReadsUnsigned(types, i)) :: Keeps(types, i, rw, a, b)
  }

  /** The decision for a binary operation: fold two constants, else an identity, else a
      cheaper operation. It computes the same on all operands that fit their types exactly
      where it is not one of the two misfolds. */
  method DecideBinary(types: seq<Ty>, i: Instr, l: Option<int>, r: Option<int>) returns (rw: Rewriting)
    requires |i.args| == 2 && i.dst.Some? && Word(i.imm) && i.op != Const
    requires (l.Some? ==> Word(l.value)) && (r.Some? ==> Word(r.value))
    requires i.args[0] == i.args[1] ==> l == r
    ensures !Misfolds(types, i, l, r) ==> KeepsAll(types, i, l, r, rw)
    ensures Misfolds(types, i, l, r) && ConstantsFit(types, i, l, r) ==> !KeepsAll(types, i, l, r, rw)
    ensures rw.Keep? ==> Settled(types, i, l, r)
  {
    var unsigned := TyOf(types, i.args[0]).isUnsigned;
    if l.Some? && r.Some? {
      var folded := FoldBinary(i.op, l.value, r.value, unsigned);
      if folded.Some? {
        FoldDecided(types, i, l.value, r.value);
        return Become(folded.value);
      }
    }
    rw := Identity(types, i, l, r);
    if !rw.Keep? {
      IdentityDecided(types, i, l, r);
      return;
    }
    rw := StrengthReduce(types, i, r);
    ReductionDecided(types, i, l, r, rw);
  }

  /** There is nothing to fold, no identity, and nothing to reduce. */
  ghost predicate Settled(types: seq<Ty>, i: Instr, l: Option<int>, r: Option<int>)
    requires |i.args| == 2 && (l.Some? ==> Word(l.value)) && (r.Some? ==> Word(r.value))
  {
    && (l.Some? && r.Some? ==> FoldBinary(i.op, l.value, r.value, ReadsUnsigned(types, i)).None?)
    && Identity(types, i, l, r).Keep?
    && (r.Some? ==> forall other: Rewriting :: !Reduces(types, i, r.value, other))
  }

  /** The constants are what the operands' types can hold. */
  ghost predicate ConstantsFit(types: seq<Ty>, i: Instr, l: Option<int>, r: Option<int>)
    requires |i.args| == 2
  {
    (l.Some? ==> Fits(l.value, TyOf(types, i.args[0]))) && (r.Some? ==> Fits(r.value, TyOf(types, i.args[1])))
  }

  lemma FoldDecided(types: seq<Ty>, i: Instr, left: int, right: int)
    requires |i.args| == 2 && i.dst.Some? && Word(i.imm) && Word(left) && Word(right) && i.op != Const
    requires (i.args[0] == i.args[1] ==> left == right) && FoldBinary(i.op, left, right, ReadsUnsigned(types, i)).Some?
    ensures var (l, r) := (Some(left), Some(right));
            var rw := Become(FoldBinary(i.op, left, right, ReadsUnsigned(types, i)).value);
            && (!Misfolds(types, i, l, r) ==> KeepsAll(types, i, l, r, rw))
            && (Misfolds(types, i, l, r) && ConstantsFit(types, i, l, r) ==> !KeepsAll(types, i, l, r, rw))
  {
    var (l, r) := (Some(left), Some(right));
    if !Overflows(i.op, left, right, ReadsUnsigned(types, i)) {
      FoldKeeps(types, i, left, right);
    }
    if ConstantsFit(types, i, l, r) {
      assert Consistent(types, i, l, r, left, right);
    }
  }

  lemma IdentityDecided(types: seq<Ty>, i: Instr, l: Option<int>, r: Option<int>)
    requires |i.args| == 2 && i.dst.Some? && Word(i.imm) && (l.Some? ==> Word(l.value)) && (r.Some? ==> Word(r.value))
    requires !Identity(types, i, l, r).Keep? && (i.args[0] == i.args[1] ==> l == r)
    requires l.Some? && r.Some? ==> FoldBinary(i.op, l.value, r.value, ReadsUnsigned(types, i)).None?
    ensures !Misfolds(types, i, l, r) && KeepsAll(types, i, l, r, Identity(types, i, l, r))
  {
    if r.Some? && l.None? {
      Pow2IsOne();
    }
    forall a, b | Consistent(types, i, l, r, a, b)
      ensures Keeps(types, i, Identity(types, i, l, r), a, b)
    {
      IdentitySound(types, i, l, r, a, b);
    }
  }

  lemma Pow2IsOne()
    ensures forall k: nat | k > 0 :: Pow2(k) > 1
  {
    forall k: nat | k > 0 ensures Pow2(k) > 1 {
      Pow2Monotone(1, k);
    }
  }

  lemma ReductionDecided(types: seq<Ty>, i: Instr, l: Option<int>, r: Option<int>, rw: Rewriting)
    requires |i.args| == 2 && i.dst.Some? && Word(i.imm) && (l.Some? ==> Word(l.value)) && (r.Some? ==> Word(r.value))
    requires (i.args[0] == i.args[1] ==> l == r) && (rw.Keep? || rw.Reduce?)
    requires l.Some? && r.Some? ==> FoldBinary(i.op, l.value, r.value, ReadsUnsigned(types, i)).None?
    requires rw.Reduce? ==> r.Some? && Reduces(types, i, r.value, rw)
    requires rw.Keep? ==> r.None? || forall other: Rewriting :: !Reduces(types, i, r.value, other)
    ensures !Misfolds(types, i, l, r) ==> KeepsAll(types, i, l, r, rw)
    ensures Misfolds(types, i, l, r) && ConstantsFit(types, i, l, r) ==> !KeepsAll(types, i, l, r, rw)
  {
    if l.Some? && r.Some? {
      FoldsWhenReduced(i.op, l.value, r.value, ReadsUnsigned(types, i));
    }
    if rw.Reduce? {
      var k := ReducedBy(types, i, r.value, rw);
      ReductionTaken(types, i, r.value, rw);
    } else if Misfolds(types, i, l, r) {
      var k: nat :| 0 < k < 63 && r.value == Pow2(k);
      assert Reduces(types, i, r.value, if i.op == Div then Reduce(Shr, k) else Reduce(And, r.value - 1));
    }
  }

  /** Constants are folded before anything else is tried. */
  lemma FoldsWhenReduced(op: Op, left: int, right: int, unsigned: bool)
    requires Word(left) && Word(right) && FoldBinary(op, left, right, unsigned).None?
    ensures op in {Mul, Div, Mod} ==> right == 0
    ensures op == Shr ==> !(0 <= right < 64)
  {
  }

  lemma ReductionTaken(types: seq<Ty>, i: Instr, n: int, rw: Rewriting)
    requires |i.args| == 2 && i.dst.Some? && Word(i.imm) && Word(n) && i.args[0] != i.args[1]
    requires Reduces(types, i, n, rw)
    ensures Misfolds(types, i, None, Some(n)) <==> !ReductionRight(types, i, n)
    ensures ReductionRight(types, i, n) ==> KeepsAll(types, i, None, Some(n), rw)
    ensures !ReductionRight(types, i, n) && Fits(n, TyOf(types, i.args[1])) ==> !KeepsAll(types, i, None, Some(n), rw)
  {
    var k := ReducedBy(types, i, n, rw);
    if ReductionRight(types, i, n) {
      forall a, b | Consistent(types, i, None, Some(n), a, b)
        ensures Keeps(types, i, rw, a, b)
      {
        ReductionSound(types, i, n, rw, a);
      }
    } else if Fits(n, TyOf(types, i.args[1])) {
      ReductionWrong(types, i, n, rw);
      assert Consistent(types, i, None, Some(n), -1, n);
    }
  }

  /** The decision for an operation of one operand. */
  method DecideUnary(types: seq<Ty>, i: Instr, l: Option<int>) returns (rw: Rewriting)
    requires |i.args| == 1 && i.dst.Some? && Word(i.imm) && i.op != Const && (l.Some? ==> Word(l.value))
    ensures rw.Keep? || rw.Become? || rw == Use(i.args[0])
    ensures l.Some? && rw.Keep? ==> i.op == Copy || Interpret(types, i, [l.value]).None?
    ensures l.None? && rw.Keep? && i.op == Cast ==> TyOf(types, i.dst.value) != TyOf(types, i.args[0])
    ensures forall a | Fits(a, TyOf(types, i.args[0])) && (l.Some? ==> a == l.value) ::
              match rw
              case Become(n) => Word(n) && Interpret(types, i, [a]) == Some(Truncate(n, ResultTy(types, i)))
              case Use(v) => Interpret(types, i, [a]) == Some(a)
              case _ => true
  {
    if l.Some? {
      var folded := FoldUnary(i.op, l.value);
      return if folded.Some? then Become(folded.value) else Keep;
    }
    rw := if i.op == Cast && SameTy(types, i, i.args[0]) then Use(i.args[0]) else Keep;
  }
}
