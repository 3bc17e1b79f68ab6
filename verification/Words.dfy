/** Machine integers: 64-bit two's complement words, as integers. */
module Words {
  import opened Ir

  function Pow2(k: nat): (p: nat)
    ensures p > 0
  {
    if k == 0 then 1 else 2 * Pow2(k - 1)
  }

  const WORD: int := 0x1_0000_0000_0000_0000
  const HALF: int := 0x8000_0000_0000_0000

  /** What a 64-bit signed word can hold. */
  predicate Word(x: int) {
    -HALF <= x < HALF
  }

  /** The word congruent to `x`. */
  function Wrap(x: int): (w: int)
    ensures Word(w) && (w - x) % WORD == 0
  {
    (x + HALF) % WORD - HALF
  }

  /** A word read as unsigned. */
  function Unsigned(x: int): (u: int)
    requires Word(x)
    ensures 0 <= u < WORD && Wrap(u) == x
  {
    if x < 0 then x + WORD else x
  }

  /** Reduced to what the type can hold. */
  function Truncate(x: int, ty: Ty): int
    requires Word(x)
  {
    match ty.size
    case 1 => if ty.isUnsigned then x % 0x100 else (x + 0x80) % 0x100 - 0x80
    case 2 => if ty.isUnsigned then x % 0x1_0000 else (x + 0x8000) % 0x1_0000 - 0x8000
    case 4 => if ty.isUnsigned then x % 0x1_0000_0000 else (x + 0x8000_0000) % 0x1_0000_0000 - 0x8000_0000
    case _ => x
  }

  /** How many values a type can tell apart. */
  function Modulus(ty: Ty): (m: int)
    ensures m > 0
  {
    match ty.size
    case 1 => 0x100
    case 2 => 0x1_0000
    case 4 => 0x1_0000_0000
    case _ => WORD
  }

  lemma SameRemainder(x: int, y: int, m: int)
    requires m > 0
    ensures x % m == y % m <==> (x - y) % m == 0
  {
    var (d, r) := (x / m - y / m, x % m - y % m);
    assert x == (x / m) * m + x % m && y == (y / m) * m + y % m;
    assert d * m == (x / m) * m - (y / m) * m;
    if r >= 0 {
      QuotientIs(x - y, m, d, r);
    } else {
      assert (d - 1) * m == d * m - m;
      QuotientIs(x - y, m, d - 1, r + m);
    }
  }

  lemma Congruent8(x: int, y: int)
    ensures x % 0x100 == y % 0x100 <==> (x - y) % 0x100 == 0
    ensures (x + 0x80) % 0x100 == (y + 0x80) % 0x100 <==> (x - y) % 0x100 == 0
  {
    SameRemainder(x, y, 0x100);
    SameRemainder(x + 0x80, y + 0x80, 0x100);
  }

  lemma Congruent16(x: int, y: int)
    ensures x % 0x1_0000 == y % 0x1_0000 <==> (x - y) % 0x1_0000 == 0
    ensures (x + 0x8000) % 0x1_0000 == (y + 0x8000) % 0x1_0000 <==> (x - y) % 0x1_0000 == 0
  {
    SameRemainder(x, y, 0x1_0000);
    SameRemainder(x + 0x8000, y + 0x8000, 0x1_0000);
  }

  lemma Congruent32(x: int, y: int)
    ensures x % 0x1_0000_0000 == y % 0x1_0000_0000 <==> (x - y) % 0x1_0000_0000 == 0
    ensures (x + 0x8000_0000) % 0x1_0000_0000 == (y + 0x8000_0000) % 0x1_0000_0000 <==> (x - y) % 0x1_0000_0000 == 0
  {
    SameRemainder(x, y, 0x1_0000_0000);
    SameRemainder(x + 0x8000_0000, y + 0x8000_0000, 0x1_0000_0000);
  }

  /** Two words are reduced to the same exactly when they agree modulo the type's range. */
  lemma TruncateCongruent(x: int, y: int, ty: Ty)
    requires Word(x) && Word(y)
    ensures Truncate(x, ty) == Truncate(y, ty) <==> (x - y) % Modulus(ty) == 0
  {
    match ty.size
    case 1 => Congruent8(x, y);
    case 2 => Congruent16(x, y);
    case 4 => Congruent32(x, y);
    case _ =>
  }

  /** Which of them it is: the one the type can hold. A type of any other size holds
      every word. */
  lemma TruncateRepresents(x: int, ty: Ty)
    requires Word(x)
    ensures (Truncate(x, ty) - x) % Modulus(ty) == 0
    ensures ty.size in {1, 2, 4} && ty.isUnsigned ==> 0 <= Truncate(x, ty) < Modulus(ty)
    ensures ty.size in {1, 2, 4} && !ty.isUnsigned ==> -Modulus(ty) <= 2 * Truncate(x, ty) < Modulus(ty)
    ensures ty.size !in {1, 2, 4} ==> Truncate(x, ty) == x
  {
    match ty.size
    case 1 => LessRemainder(x, 0x80, 0x100);
    case 2 => LessRemainder(x, 0x8000, 0x1_0000);
    case 4 => LessRemainder(x, 0x8000_0000, 0x1_0000_0000);
    case _ =>
  }

  lemma LessRemainder(x: int, half: int, m: int)
    requires m > 0
    ensures (x % m - x) % m == 0 && ((x + half) % m - half - x) % m == 0
  {
    IsRemainder(x, m);
    IsRemainder(x + half, m);
    assert (x + half) % m - half - x == (x + half) % m - (x + half);
  }

  lemma IsRemainder(x: int, m: int)
    requires m > 0
    ensures (x % m - x) % m == 0
  {
    assert x == x / m * m + x % m;
    assert -(x / m) * m == -(x / m * m);
    QuotientIs(x % m - x, m, -(x / m), 0);
  }

  /** Already what the type can hold. */
  predicate Fits(x: int, ty: Ty) {
    Word(x) && Truncate(x, ty) == x
  }

  /** Division and remainder toward zero. */
  function Quotient(a: int, b: int): int
    requires b != 0
  {
    if a >= 0 then (if b > 0 then a / b else -(a / -b))
    else if b > 0 then -((-a) / b) else (-a) / (-b)
  }

  function Remainder(a: int, b: int): int
    requires b != 0
  {
    a - b * Quotient(a, b)
  }

  /** Rounded toward zero: the remainder is smaller than the divisor, and has the sign of
      the dividend (C11 section 6.5.5). */
  lemma QuotientTruncates(a: int, b: int)
    requires b != 0
    ensures a == b * Quotient(a, b) + Remainder(a, b)
    ensures -Size(b) < Remainder(a, b) < Size(b)
    ensures (a >= 0 ==> Remainder(a, b) >= 0) && (a <= 0 ==> Remainder(a, b) <= 0)
  {
    var (m, n) := (Size(a), Size(b));
    assert m == n * (m / n) + m % n;
    if (a >= 0) == (b > 0) {
      assert Quotient(a, b) == m / n;
      SignsOut(a, b, m / n);
    } else {
      assert Quotient(a, b) == -(m / n);
      SignsOut(a, b, m / n);
    }
  }

  function Size(x: int): int {
    if x < 0 then -x else x
  }

  lemma SignsOut(a: int, b: int, q: int)
    ensures b * -q == -(b * q) && -b * q == -(b * q)
  {
  }

  // -------------------------------------------------------------------------- bits

  datatype BitOp = BitAnd | BitOr | BitXor

  function Bit(op: BitOp, x: nat, y: nat): (r: nat)
    ensures r <= 1
  {
    match op
    case BitAnd => if x == 1 && y == 1 then 1 else 0
    case BitOr => if x == 1 || y == 1 then 1 else 0
    case BitXor => if x != y then 1 else 0
  }

  /** The operation on each of the low `width` bits. */
  function Bits(op: BitOp, a: nat, b: nat, width: nat): (r: nat)
    ensures r < Pow2(width)
    decreases width, a, b
  {
    if width == 0 then 0 else Bit(op, a % 2, b % 2) + 2 * Bits(op, a / 2, b / 2, width - 1)
  }

  /** Bit `k` of a number. */
  function BitOf(a: nat, k: nat): nat {
    if k == 0 then a % 2 else BitOf(a / 2, k - 1)
  }

  /** Every bit of the result is made of the two bits in its place. */
  lemma {:induction false} BitsBit(op: BitOp, a: nat, b: nat, width: nat, k: nat)
    requires k < width
    ensures var (x, y) := (BitOf(a, k) == 1, BitOf(b, k) == 1);
            (BitOf(Bits(op, a, b, width), k) == 1) ==
            match op
            case BitAnd => x && y
            case BitOr => x || y
            case BitXor => x != y
    decreases width
  {
    if k > 0 {
      BitsBit(op, a / 2, b / 2, width - 1, k - 1);
    }
  }

  /** A bitwise operation on words. */
  function Bitwise(op: BitOp, a: int, b: int): (r: int)
    requires Word(a) && Word(b)
    ensures Word(r)
  {
    Wrap(Bits(op, Unsigned(a), Unsigned(b), 64))
  }

  /** Of each bit of two words, the operation on it. */
  lemma BitwiseBit(op: BitOp, a: int, b: int, k: nat)
    requires Word(a) && Word(b) && k < 64
    ensures var (x, y) := (BitOf(Unsigned(a), k) == 1, BitOf(Unsigned(b), k) == 1);
            (BitOf(Unsigned(Bitwise(op, a, b)), k) == 1) ==
            match op
            case BitAnd => x && y
            case BitOr => x || y
            case BitXor => x != y
  {
    Pow2Word();
    assert Unsigned(Bitwise(op, a, b)) == Bits(op, Unsigned(a), Unsigned(b), 64);
    BitsBit(op, Unsigned(a), Unsigned(b), 64, k);
  }

  lemma {:induction false} BitsZero(op: BitOp, a: nat, width: nat)
    requires a < Pow2(width)
    ensures Bits(op, a, 0, width) == if op == BitAnd then 0 else a
    ensures Bits(op, 0, a, width) == if op == BitAnd then 0 else a
    decreases width
  {
    if width > 0 {
      BitsZero(op, a / 2, width - 1);
    }
  }

  lemma {:induction false} BitsSelf(op: BitOp, a: nat, width: nat)
    requires a < Pow2(width)
    ensures Bits(op, a, a, width) == if op == BitXor then 0 else a
    decreases width
  {
    if width > 0 {
      BitsSelf(op, a / 2, width - 1);
    }
  }

  lemma QuotientIs(a: int, m: int, q: int, r: int)
    requires m > 0 && 0 <= r < m && a == q * m + r
    ensures a / m == q && a % m == r
  {
    var q', r' := a / m, a % m;
    assert a == m * q' + r';
    assert (q - q') * m == r' - r;
    AtLeastOne(q - q', m);
  }

  lemma AtLeastOne(d: int, m: int)
    requires m > 0
    ensures d >= 1 ==> d * m >= m
    ensures d <= -1 ==> d * m <= -m
  {
  }

  lemma BitwiseZero(op: BitOp, a: int)
    requires Word(a)
    ensures Bitwise(op, a, 0) == (if op == BitAnd then 0 else a) && Bitwise(op, 0, a) == (if op == BitAnd then 0 else a)
  {
    Pow2Word();
    BitsZero(op, Unsigned(a), 64);
  }

  lemma BitwiseSelf(op: BitOp, a: int)
    requires Word(a)
    ensures Bitwise(op, a, a) == if op == BitXor then 0 else a
  {
    Pow2Word();
    BitsSelf(op, Unsigned(a), 64);
  }

  /** Masking with 2^k - 1 leaves what a multiple of 2^k is short of. */
  lemma {:induction false} BitsLow(a: nat, k: nat, width: nat) returns (q: nat)
    requires k <= width
    ensures a == q * Pow2(k) + Bits(BitAnd, a, Pow2(k) - 1, width) && Bits(BitAnd, a, Pow2(k) - 1, width) < Pow2(k)
    decreases width
  {
    if k == 0 {
      BitsAndZero(a, width);
      q := a;
    } else {
      q := BitsLow(a / 2, k - 1, width - 1);
      OneMoreBit(a, q, Pow2(k - 1), Pow2(k) - 1, width);
    }
  }

  lemma OneMoreBit(a: nat, q: nat, half: nat, mask: nat, width: nat)
    requires width > 0 && half > 0 && mask == 2 * half - 1
    requires a / 2 == q * half + Bits(BitAnd, a / 2, half - 1, width - 1)
    requires Bits(BitAnd, a / 2, half - 1, width - 1) < half
    ensures a == q * (2 * half) + Bits(BitAnd, a, mask, width) && Bits(BitAnd, a, mask, width) < 2 * half
  {
    assert mask % 2 == 1 && mask / 2 == half - 1;
    BitsStep(a, mask, width);
    Doubled(q, half);
  }

  lemma Doubled(q: nat, half: nat)
    ensures 2 * (q * half) == q * (2 * half)
  {
  }

  /** Masking with 2^k - 1 is the remainder by 2^k. */
  lemma BitsMask(a: nat, k: nat, width: nat)
    requires k <= width
    ensures Bits(BitAnd, a, Pow2(k) - 1, width) == a % Pow2(k)
  {
    var q := BitsLow(a, k, width);
    QuotientIs(a, Pow2(k), q, Bits(BitAnd, a, Pow2(k) - 1, width));
  }

  lemma BitsStep(a: nat, b: nat, width: nat)
    requires width > 0 && b % 2 == 1
    ensures Bits(BitAnd, a, b, width) == a % 2 + 2 * Bits(BitAnd, a / 2, b / 2, width - 1)
  {
  }

  lemma {:induction false} BitsAndZero(a: nat, width: nat)
    ensures Bits(BitAnd, a, 0, width) == 0
    decreases width
  {
    if width > 0 {
      BitsAndZero(a / 2, width - 1);
    }
  }

  /** A number and the one before it have no bit in common exactly when it is a power of two. */
  lemma {:induction false} NoCommonBit(v: nat, width: nat)
    requires 0 < v < Pow2(width)
    ensures Bits(BitAnd, v, v - 1, width) == 0 <==> IsPow2(v)
    decreases width
  {
    if v % 2 == 1 {
      assert (v - 1) / 2 == v / 2 && (v - 1) % 2 == 0;
      BitsSelf(BitAnd, v / 2, width - 1);
      if v == 1 {
        assert v == Pow2(0);
      }
    } else {
      assert (v - 1) / 2 == v / 2 - 1 && (v - 1) % 2 == 1;
      NoCommonBit(v / 2, width - 1);
      if IsPow2(v / 2) {
        var k: nat :| v / 2 == Pow2(k);
        assert v == Pow2(k + 1);
      }
      if IsPow2(v) {
        var k: nat :| v == Pow2(k);
        assert k > 0;
        assert v / 2 == Pow2(k - 1);
      }
    }
  }

  ghost predicate IsPow2(v: int) {
    exists k: nat :: v == Pow2(k)
  }

  // ------------------------------------------------------------------------ powers

  lemma {:induction false} Pow2Add(j: nat, k: nat)
    ensures Pow2(j + k) == Pow2(j) * Pow2(k)
  {
    if j > 0 {
      Pow2Add(j - 1, k);
      assert Pow2(j + k) == 2 * Pow2((j - 1) + k);
      assert 2 * (Pow2(j - 1) * Pow2(k)) == (2 * Pow2(j - 1)) * Pow2(k);
    }
  }

  lemma Pow2Word()
    ensures Pow2(64) == WORD && Pow2(63) == HALF
  {
    assert Pow2(8) == 0x100 by {
      assert Pow2(4) == 16;
      Pow2Add(4, 4);
    }
    Pow2Add(8, 8);
    Pow2Add(16, 16);
    Pow2Add(32, 32);
  }

  lemma {:induction false} Pow2Monotone(j: nat, k: nat)
    requires j <= k
    ensures Pow2(j) <= Pow2(k) && (j < k ==> Pow2(j) < Pow2(k))
  {
    if j < k {
      Pow2Monotone(j, k - 1);
    }
  }

  lemma {:induction false} Pow2Exceeds(k: nat)
    ensures k < Pow2(k)
  {
    if k > 0 {
      Pow2Exceeds(k - 1);
    }
  }
}
