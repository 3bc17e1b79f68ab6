/** The identities of the folding pass are all there are: an instruction with a constant 0 or
    1, or with one value twice, is simplified exactly where its result is always an operand
    or always the same constant. */
module Identities {
  import opened Ir
  import opened Words
  import opened Semantics
  import opened Fold

  // ------------------------------------------------------------- what is always so

  /** Always the left operand, whatever that is. */
  ghost predicate GivesLeft(types: seq<Ty>, i: Instr, n: int)
    requires |i.args| == 2 && Word(i.imm) && Word(n)
  {
    forall a {:trigger Fits(a, TyOf(types, i.args[0]))} | Fits(a, TyOf(types, i.args[0])) ::
        Interpret(types, i, [a, n]) == Some(a)
  }

  ghost predicate GivesRight(types: seq<Ty>, i: Instr, n: int)
    requires |i.args| == 2 && Word(i.imm) && Word(n)
  {
    forall b {:trigger Fits(b, TyOf(types, i.args[1]))} | Fits(b, TyOf(types, i.args[1])) ::
        Interpret(types, i, [n, b]) == Some(b)
  }

  /** Always `n`, whatever the operands. */
  ghost predicate GivesAlways(types: seq<Ty>, i: Instr, l: Option<int>, r: Option<int>, n: int)
    requires |i.args| == 2 && Word(i.imm)
  {
    forall a, b {:trigger Consistent(types, i, l, r, a, b)} | Consistent(types, i, l, r, a, b) ::
        Interpret(types, i, [a, b]) == Some(n)
  }

  // ---------------------------------------------------------------------- samples

  lemma SmallFits(n: int, ty: Ty)
    requires 0 <= n <= 64
    ensures Fits(n, ty)
  {
  }

  /** Small numbers are told apart by every type. */
  lemma SmallDiffer(x: int, y: int, ty: Ty)
    requires -16 <= x <= 64 && 0 <= y <= 64 && x != y
    ensures Truncate(x, ty) != y
  {
    var (m, d) := (Modulus(ty), x - y);
    TruncateCongruent(x, y, ty);
    QuotientIs(d, m, if d < 0 then -1 else 0, if d < 0 then d + m else d);
    SmallFits(y, ty);
  }

  /** Small results that differ differ as results of the instruction. */
  lemma ResultDiffers(types: seq<Ty>, i: Instr, a: int, b: int, x: Option<int>, y: int)
    requires |i.args| == 2 && Word(i.imm) && Word(a) && Word(b) && i.op != Const
    requires x == Apply(i.op, a, b, ReadsUnsigned(types, i))
    requires 0 <= y <= 64 && (x.Some? ==> -16 <= x.value <= 64 && x.value != y)
    ensures Interpret(types, i, [a, b]) != Some(y)
  {
    if x.Some? {
      SmallDiffer(x.value, y, ResultTy(types, i));
    }
  }

  predicate Sample(a: int, half: int) {
    a == 2 * half && 2 <= half <= 3
  }

  lemma EvenSample() returns (a: int, half: int)
    ensures Sample(a, half)
  {
    a, half := 4, 2;
  }

  /** What comes of the sample `a`: a small number, and `a` itself only where the other
      operand is neutral. */
  ghost predicate FromSample(x: Option<int>, a: int, neutral: bool) {
    x.Some? ==> -16 <= x.value <= 64 && (x.value == a ==> neutral)
  }

  predicate LeavesLeft(op: Op, n: int) {
    if n == 0 then op in {Add, Sub, Or, Xor, Shl, Shr} else op in {Mul, Div}
  }

  predicate LeavesRight(op: Op, n: int) {
    if n == 0 then op in {Add, Or, Xor} else op == Mul
  }

  lemma BitsOne(op: BitOp, a: nat, half: nat, one: nat, width: nat)
    requires a == 2 * half && one == 1 && width > 0 && half < Pow2(width - 1)
    ensures Bits(op, a, one, width) == Bits(op, one, a, width) == if op == BitAnd then 0 else a + 1
  {
    BitsZero(op, half, width - 1);
    assert a / 2 == half && a % 2 == 0;
  }

  lemma BitsSample(op: BitOp, a: nat, half: nat, one: nat, width: nat)
    requires Sample(a, half) && one == 1 && width == 64
    ensures Bits(op, a, one, width) == Bits(op, one, a, width) == if op == BitAnd then 0 else a + 1
  {
    Pow2Exceeds(width - 1);
    BitsOne(op, a, half, one, width);
  }

  /** An even number and 1 have no bit in common. */
  lemma BitwiseSample(op: BitOp, a: int, half: int, n: int)
    requires Sample(a, half) && n in {0, 1}
    ensures Bitwise(op, a, n) == Bitwise(op, n, a) == if op == BitAnd then 0 else a + n
  {
    if n == 0 {
      BitwiseZero(op, a);
    } else {
      BitwiseOne(op, a, half, n, if op == BitAnd then 0 else a + n);
    }
  }

  lemma BitwiseOne(op: BitOp, a: int, half: int, one: int, r: int)
    requires Sample(a, half) && one == 1 && r == if op == BitAnd then 0 else a + one
    ensures Bitwise(op, a, one) == Bitwise(op, one, a) == r
  {
    BitsSample(op, a, half, one, 64);
    assert Unsigned(a) == a && Unsigned(one) == one;
    WrapSame(r);
  }

  lemma LeftBits(op: Op, a: int, half: int, n: int, unsigned: bool)
    requires Sample(a, half) && n in {0, 1} && op in {And, Or, Xor}
    ensures FromSample(Apply(op, a, n, unsigned), a, LeavesLeft(op, n))
  {
    match op
    case And => BitwiseSample(BitAnd, a, half, n);
    case Or => BitwiseSample(BitOr, a, half, n);
    case Xor => BitwiseSample(BitXor, a, half, n);
  }

  lemma RightBits(op: Op, a: int, half: int, n: int, unsigned: bool)
    requires Sample(a, half) && n in {0, 1} && op in {And, Or, Xor}
    ensures FromSample(Apply(op, n, a, unsigned), a, LeavesRight(op, n))
  {
    match op
    case And => BitwiseSample(BitAnd, a, half, n);
    case Or => BitwiseSample(BitOr, a, half, n);
    case Xor => BitwiseSample(BitXor, a, half, n);
  }

  lemma LeftShift(op: Op, a: int, half: int, n: int, unsigned: bool)
    requires Sample(a, half) && n in {0, 1} && op in {Shl, Shr}
    ensures FromSample(Apply(op, a, n, unsigned), a, LeavesLeft(op, n))
  {
    var p := Pow2(n % 64);
    assert p == n + 1;
  }

  lemma RightShift(op: Op, a: int, half: int, n: int, unsigned: bool)
    requires Sample(a, half) && n in {0, 1} && op in {Shl, Shr}
    ensures FromSample(Apply(op, n, a, unsigned), a, LeavesRight(op, n))
  {
    SmallCount(a);
    if half == 2 {
      assert Pow2(4) == 16;
    } else {
      assert Pow2(6) == 64;
    }
  }

  lemma LeftDivision(op: Op, a: int, half: int, n: int, unsigned: bool)
    requires Sample(a, half) && n in {0, 1} && op in {Div, Mod}
    ensures FromSample(Apply(op, a, n, unsigned), a, LeavesLeft(op, n))
  {
  }

  lemma RightDivision(op: Op, a: int, half: int, n: int, unsigned: bool)
    requires Sample(a, half) && n in {0, 1} && op in {Div, Mod}
    ensures FromSample(Apply(op, n, a, unsigned), a, LeavesRight(op, n))
  {
    QuotientIs(n, a, 0, n);
  }

  lemma LeftPlain(op: Op, a: int, half: int, n: int, unsigned: bool)
    requires Sample(a, half) && n in {0, 1} && op !in {And, Or, Xor, Shl, Shr, Div, Mod}
    ensures FromSample(Apply(op, a, n, unsigned), a, LeavesLeft(op, n))
  {
  }

  lemma RightPlain(op: Op, a: int, half: int, n: int, unsigned: bool)
    requires Sample(a, half) && n in {0, 1} && op !in {And, Or, Xor, Shl, Shr, Div, Mod}
    ensures FromSample(Apply(op, n, a, unsigned), a, LeavesRight(op, n))
  {
  }

  lemma OnLeft(op: Op, a: int, half: int, n: int, unsigned: bool)
    requires Sample(a, half) && n in {0, 1}
    ensures FromSample(Apply(op, a, n, unsigned), a, LeavesLeft(op, n))
  {
    if op in {And, Or, Xor} {
      LeftBits(op, a, half, n, unsigned);
    } else if op in {Shl, Shr} {
      LeftShift(op, a, half, n, unsigned);
    } else if op in {Div, Mod} {
      LeftDivision(op, a, half, n, unsigned);
    } else {
      LeftPlain(op, a, half, n, unsigned);
    }
  }

  lemma OnRight(op: Op, a: int, half: int, n: int, unsigned: bool)
    requires Sample(a, half) && n in {0, 1}
    ensures FromSample(Apply(op, n, a, unsigned), a, LeavesRight(op, n))
  {
    if op in {And, Or, Xor} {
      RightBits(op, a, half, n, unsigned);
    } else if op in {Shl, Shr} {
      RightShift(op, a, half, n, unsigned);
    } else if op in {Div, Mod} {
      RightDivision(op, a, half, n, unsigned);
    } else {
      RightPlain(op, a, half, n, unsigned);
    }
  }

  // ---------------------------------------------------------------- neutral operands

  /** No neutral 0 or 1 is missed: the operand is used for the result exactly where the
      result is always that operand, and of its type. */
  lemma NeutralRight(types: seq<Ty>, i: Instr, n: int)
    requires |i.args| == 2 && i.dst.Some? && Word(i.imm) && i.op != Const && i.args[0] != i.args[1] && n in {0, 1}
    ensures Identity(types, i, None, Some(n)) == Use(i.args[0]) <==>
            TyOf(types, i.dst.value) == TyOf(types, i.args[0]) && GivesLeft(types, i, n)
  {
    var ty := TyOf(types, i.args[0]);
    if Identity(types, i, None, Some(n)) == Use(i.args[0]) {
      SmallFits(n, TyOf(types, i.args[1]));
      forall a | Fits(a, ty)
        ensures Interpret(types, i, [a, n]) == Some(a)
      {
        IdentitySound(types, i, None, Some(n), a, n);
      }
    } else if SameTy(types, i, i.args[0]) {
      var a, half := EvenSample();
      SmallFits(a, ty);
      OnLeft(i.op, a, half, n, ReadsUnsigned(types, i));
      ResultDiffers(types, i, a, n, Apply(i.op, a, n, ReadsUnsigned(types, i)), a);
    }
  }

  lemma NeutralLeft(types: seq<Ty>, i: Instr, n: int)
    requires |i.args| == 2 && i.dst.Some? && Word(i.imm) && i.op != Const && i.args[0] != i.args[1] && n in {0, 1}
    ensures Identity(types, i, Some(n), None) == Use(i.args[1]) <==>
            TyOf(types, i.dst.value) == TyOf(types, i.args[1]) && GivesRight(types, i, n)
  {
    var ty := TyOf(types, i.args[1]);
    if Identity(types, i, Some(n), None) == Use(i.args[1]) {
      SmallFits(n, TyOf(types, i.args[0]));
      forall b | Fits(b, ty)
        ensures Interpret(types, i, [n, b]) == Some(b)
      {
        IdentitySound(types, i, Some(n), None, n, b);
      }
    } else if SameTy(types, i, i.args[1]) {
      var a, half := EvenSample();
      SmallFits(a, ty);
      OnRight(i.op, a, half, n, ReadsUnsigned(types, i));
      ResultDiffers(types, i, n, a, Apply(i.op, n, a, ReadsUnsigned(types, i)), a);
    }
  }

  // -------------------------------------------------------------------- constants

  lemma AlwaysSound(types: seq<Ty>, i: Instr, l: Option<int>, r: Option<int>, n: int)
    requires |i.args| == 2 && i.dst.Some? && Word(i.imm) && n in {0, 1} && Identity(types, i, l, r) == Become(n)
    ensures GivesAlways(types, i, l, r, n)
  {
    SmallFits(n, ResultTy(types, i));
    forall a, b | Consistent(types, i, l, r, a, b)
      ensures Interpret(types, i, [a, b]) == Some(n)
    {
      IdentitySound(types, i, l, r, a, b);
    }
  }

  /** Nor is an absorbing 0, in arithmetic and bitwise operations. */
  lemma AbsorbingTaken(types: seq<Ty>, i: Instr, l: Option<int>, r: Option<int>)
    requires |i.args| == 2 && i.dst.Some? && Word(i.imm) && i.args[0] != i.args[1]
    requires i.op in {Add, Sub, Mul, And, Or, Xor} && ((l == None && r == Some(0)) || (l == Some(0) && r == None))
    ensures Identity(types, i, l, r) == Become(0) <==> GivesAlways(types, i, l, r, 0)
  {
    if Identity(types, i, l, r) == Become(0) {
      AlwaysSound(types, i, l, r, 0);
    } else {
      var x, _ := EvenSample();
      var (a, b) := if l.None? then (x, 0) else (0, x);
      SmallFits(a, TyOf(types, i.args[0]));
      SmallFits(b, TyOf(types, i.args[1]));
      assert Consistent(types, i, l, r, a, b);
      NotAbsorbed(i.op, a, b, ReadsUnsigned(types, i));
      ResultDiffers(types, i, a, b, Apply(i.op, a, b, ReadsUnsigned(types, i)), 0);
    }
  }

  lemma NotAbsorbed(op: Op, a: int, b: int, unsigned: bool)
    requires op in {Add, Sub, Or, Xor} && 0 <= a <= 16 && 0 <= b <= 16 && a != b && (a == 0 || b == 0)
    ensures var x := Apply(op, a, b, unsigned); x.Some? && -16 <= x.value <= 16 && x.value != 0
  {
    if b == 0 {
      RightZero(op, a, unsigned);
    } else if op != Sub {
      LeftZero(op, b, unsigned);
    }
  }

  /** Nor an operation on one value twice whose result is a constant. */
  lemma SameOperandTaken(types: seq<Ty>, i: Instr, n: int)
    requires |i.args| == 2 && i.dst.Some? && Word(i.imm) && i.op != Const && i.args[0] == i.args[1] && n in {0, 1}
    ensures Identity(types, i, None, None) == Become(n) <==> GivesAlways(types, i, None, None, n)
  {
    if Identity(types, i, None, None) == Become(n) {
      AlwaysSound(types, i, None, None, n);
    } else {
      var a := SelfVaries(i.op, n, ReadsUnsigned(types, i));
      SmallFits(a, TyOf(types, i.args[0]));
      assert Consistent(types, i, None, None, a, a);
      ResultDiffers(types, i, a, a, Apply(i.op, a, a, ReadsUnsigned(types, i)), n);
    }
  }

  /** A value for which the operation with itself does not give `n`. */
  lemma SelfVaries(op: Op, n: int, unsigned: bool) returns (a: int)
    requires n in {0, 1}
    requires !(op in {Sub, Xor, Ne, Lt, Gt} && n == 0) && !(op in {Eq, Le, Ge} && n == 1)
    ensures 0 <= a <= 64
    ensures var x := Apply(op, a, a, unsigned); x.Some? ==> -16 <= x.value <= 64 && x.value != n
  {
    if op in {Shl, Shr} {
      a := if op == Shl then 2 else 64 * (1 - n);
      SelfShifted(op, a, unsigned);
    } else if op in {Div, Mod} {
      a := 0;
    } else {
      var even, _ := EvenSample();
      a := even;
      if op in {And, Or, Xor} {
        WithItself(op, a, unsigned);
      }
    }
  }

  lemma SelfShifted(op: Op, a: int, unsigned: bool)
    requires if op == Shl then a == 2 else op == Shr && a in {0, 64}
    ensures Apply(op, a, a, unsigned) == Some(if op == Shl then 8 else a)
  {
    var p := Pow2(a % 64);
    assert p == if op == Shl then 4 else 1;
  }

  /** Nor one whose result is always that value. */
  lemma SameOperandUsed(types: seq<Ty>, i: Instr)
    requires |i.args| == 2 && i.dst.Some? && Word(i.imm) && i.op != Const && i.args[0] == i.args[1]
    ensures Identity(types, i, None, None) == Use(i.args[0]) <==>
            TyOf(types, i.dst.value) == TyOf(types, i.args[0]) &&
            forall a {:trigger Fits(a, TyOf(types, i.args[0]))} | Fits(a, TyOf(types, i.args[0])) ::
              Interpret(types, i, [a, a]) == Some(a)
  {
    var ty := TyOf(types, i.args[0]);
    if Identity(types, i, None, None) == Use(i.args[0]) {
      forall a | Fits(a, ty)
        ensures Interpret(types, i, [a, a]) == Some(a)
      {
        IdentitySound(types, i, None, None, a, a);
      }
    } else if SameTy(types, i, i.args[0]) {
      var a := SelfMoves(i.op, ReadsUnsigned(types, i));
      SmallFits(a, ty);
      ResultDiffers(types, i, a, a, Apply(i.op, a, a, ReadsUnsigned(types, i)), a);
    }
  }

  lemma SelfMoves(op: Op, unsigned: bool) returns (a: int)
    requires op !in {And, Or}
    ensures 0 <= a <= 64
    ensures var x := Apply(op, a, a, unsigned); x.Some? ==> -16 <= x.value <= 64 && x.value != a
  {
    if op in {Div, Mod} {
      a := 0;
    } else if op == Xor {
      var even, _ := EvenSample();
      a := even;
      WithItself(op, a, unsigned);
    } else {
      a := 2;
      if op in {Shl, Shr} {
        TwoShifted(a, unsigned);
      }
    }
  }

  lemma TwoShifted(two: int, unsigned: bool)
    requires two == 2
    ensures Apply(Shl, two, two, unsigned) == Some(8) && Apply(Shr, two, two, unsigned) == Some(0)
  {
    var p := Pow2(two % 64);
    assert p == 4;
  }
}
