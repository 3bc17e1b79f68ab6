/** Conditional directives: precedence climbing against the expression ladder.

    The preprocessor evaluates `#if` expressions by precedence climbing, while the parser
    has one function per precedence level and builds a tree. On everything the ladder
    accepts they agree: the climb consumes the same tokens and returns the tree's value.
    And the climb reports an error exactly where there is no condition to be read, or one
    that divides by zero, but for an operand missing at the end and for what follows. */
module PpCond {
  import opened Ir

  datatype BinOp =
    | LogicalOr | LogicalAnd | Pipe | Caret | Ampersand
    | Equal | NotEqual | Less | LessEqual | Greater | GreaterEqual
    | ShiftLeft | ShiftRight | Plus | Minus | Star | Slash | Percent

  datatype UnOp = Negate | Not | Invert

  datatype Token =
    | Number(value: int)
    | Binary(op: BinOp)           // also the unary minus
    | Bang | Tilde
    | Open | Close | Question | Colon
    | Name
    | Other

  datatype Tree =
    | Literal(value: int)
    | Prefix(un: UnOp, operand: Tree)
    | Infix(op: BinOp, left: Tree, right: Tree)
    | Choice(condition: Tree, thenTree: Tree, elseTree: Tree)

  /** What the arithmetic and bitwise operators compute, apart from division by zero. */
  datatype Meaning = Meaning(binary: (BinOp, int, int) -> int, unary: (UnOp, int) -> int)

  // The climb asks a table how tightly an operator binds.

  function Precedence(op: BinOp): (p: nat)
    ensures 1 <= p <= 10
  {
    match op
    case LogicalOr => 1
    case LogicalAnd => 2
    case Pipe => 3
    case Caret => 4
    case Ampersand => 5
    case Equal => 6
    case NotEqual => 6
    case Less => 7
    case LessEqual => 7
    case Greater => 7
    case GreaterEqual => 7
    case ShiftLeft => 8
    case ShiftRight => 8
    case Plus => 9
    case Minus => 9
    case _ => 10
  }

  /** The precedence of the operator at position `i`; 0 where there is none. */
  function PrecedenceAt(ts: seq<Token>, i: nat): (p: nat)
    ensures p <= 10
  {
    if i < |ts| && ts[i].Binary? then Precedence(ts[i].op) else 0
  }

  function Flag(b: bool): int {
    if b then 1 else 0
  }

  // ------------------------------------------------------------ the value of a tree

  /** Comparisons give 1 or 0 (C11 sections 6.5.8 and 6.5.9). */
  function Operate(m: Meaning, op: BinOp, l: int, r: int): int {
    match op
    case Equal => if l == r then 1 else 0
    case NotEqual => if l != r then 1 else 0
    case Less => if l < r then 1 else 0
    case LessEqual => if l <= r then 1 else 0
    case Greater => if l > r then 1 else 0
    case GreaterEqual => if l >= r then 1 else 0
    case _ => m.binary(op, l, r)
  }

  function OperateOnOne(m: Meaning, un: UnOp, x: int): int {
    if un == Not then (if x == 0 then 1 else 0) else m.unary(un, x)
  }

  /** The value of an expression; `None` when its evaluation divides by zero. Operands that
      are not evaluated do not matter (C11 sections 6.5.13 to 6.5.15). */
  function Eval(m: Meaning, tree: Tree): Option<int> {
    match tree
    case Literal(n) => Some(n)
    case Prefix(un, operand) =>
      var x := Eval(m, operand);
      if x.None? then None else Some(OperateOnOne(m, un, x.value))
    case Infix(op, left, right) =>
      var l := Eval(m, left);
      if l.None? then None
      else if op == LogicalOr && l.value != 0 then Some(1)
      else if op == LogicalAnd && l.value == 0 then Some(0)
      else
        var r := Eval(m, right);
        if r.None? then None
        else if op == LogicalOr || op == LogicalAnd then Some(if r.value != 0 then 1 else 0)
        else if (op == Slash || op == Percent) && r.value == 0 then None
        else Some(Operate(m, op, l.value, r.value))
    case Choice(condition, thenTree, elseTree) =>
      var c := Eval(m, condition);
      if c.None? then None else if c.value != 0 then Eval(m, thenTree) else Eval(m, elseTree)
  }

  /** The value of an expression all of whose operands are evaluated, whether they are
      needed or not; `None` when any of them divides by zero. */
  function EagerEval(m: Meaning, tree: Tree): Option<int> {
    match tree
    case Literal(n) => Some(n)
    case Prefix(un, operand) =>
      var x := EagerEval(m, operand);
      if x.None? then None else Some(OperateOnOne(m, un, x.value))
    case Infix(op, left, right) =>
      var l := EagerEval(m, left);
      var r := EagerEval(m, right);
      if l.None? || r.None? then None
      else if op == LogicalOr then Some(if l.value != 0 || r.value != 0 then 1 else 0)
      else if op == LogicalAnd then Some(if l.value != 0 && r.value != 0 then 1 else 0)
      else if (op == Slash || op == Percent) && r.value == 0 then None
      else Some(Operate(m, op, l.value, r.value))
    case Choice(condition, thenTree, elseTree) =>
      var c := EagerEval(m, condition);
      var x := EagerEval(m, thenTree);
      var y := EagerEval(m, elseTree);
      if c.None? || x.None? || y.None? then None else if c.value != 0 then x else y
  }

  /** Evaluating more than is needed changes no value. */
  lemma {:induction false} EagerIsEval(m: Meaning, tree: Tree)
    requires EagerEval(m, tree).Some?
    ensures Eval(m, tree) == EagerEval(m, tree)
  {
    match tree
    case Literal(_) =>
    case Prefix(_, operand) => EagerIsEval(m, operand);
    case Infix(_, left, right) =>
      EagerIsEval(m, left);
      EagerIsEval(m, right);
    case Choice(condition, thenTree, elseTree) =>
      EagerIsEval(m, condition);
      EagerIsEval(m, thenTree);
      EagerIsEval(m, elseTree);
  }

  /** `v` is the value of the tree, if it has one. */
  predicate Agrees(m: Meaning, tree: Tree, v: int) {
    (Eval(m, tree).Some? ==> Eval(m, tree).value == v) && (EagerEval(m, tree).Some? ==> EagerEval(m, tree).value == v)
  }

  // --------------------------------------------------------------------- the ladder

  /** What the parser reads of a constant expression, and what C allows in a directive, where
      a name that is left counts as 0 and plus is a prefix too (C11 sections 6.10.1, 6.5.3.3). */
  datatype Language = InSource | InDirective

  datatype Parsed = Parsed(tree: Tree, next: nat)

  const LOWEST := 1
  const FACTOR := 11

  /** The operators on which the loop of each level goes on. */
  predicate OnLevel(p: nat, op: BinOp) {
    match p
    case 1 => op == LogicalOr
    case 2 => op == LogicalAnd
    case 3 => op == Pipe
    case 4 => op == Caret
    case 5 => op == Ampersand
    case 6 => op == Equal || op == NotEqual
    case 7 => op == Less || op == LessEqual || op == Greater || op == GreaterEqual
    case 8 => op == ShiftLeft || op == ShiftRight
    case 9 => op == Plus || op == Minus
    case 10 => op == Star || op == Slash || op == Percent
    case _ => false
  }

  predicate AtLevel(ts: seq<Token>, i: nat, p: nat) {
    i < |ts| && ts[i].Binary? && OnLevel(p, ts[i].op)
  }

  /** `parse_factor`: literals, prefix operators, parentheses. */
  function Factor(lg: Language, ts: seq<Token>, i: nat): (r: Option<Parsed>)
    ensures r.Some? ==> i < r.value.next <= |ts|
    decreases |ts| - i, 0
  {
    if i >= |ts| then None
    else
      match ts[i]
      case Number(n) => Some(Parsed(Literal(n), i + 1))
      case Name => if lg.InDirective? then Some(Parsed(Literal(0), i + 1)) else None
      case Binary(op) =>
        if op == Minus then Prefixed(Negate, Factor(lg, ts, i + 1))
        else if op == Plus && lg.InDirective? then Factor(lg, ts, i + 1)
        else None
      case Bang => Prefixed(Not, Factor(lg, ts, i + 1))
      case Tilde => Prefixed(Invert, Factor(lg, ts, i + 1))
      case Open =>
        var inner := Conditional(lg, ts, i + 1);
        if inner.None? || inner.value.next >= |ts| || ts[inner.value.next] != Close then None
        else Some(inner.value.(next := inner.value.next + 1))
      case _ => None
  }

  function Prefixed(un: UnOp, operand: Option<Parsed>): (r: Option<Parsed>)
    ensures r.Some? <==> operand.Some?
    ensures r.Some? ==> r.value == Parsed(Prefix(un, operand.value.tree), operand.value.next)
  {
    if operand.None? then None else Some(Parsed(Prefix(un, operand.value.tree), operand.value.next))
  }

  /** One level of the ladder: 1 for `||` up to 10 for `*`, with factors above. */
  function Level(lg: Language, ts: seq<Token>, i: nat, p: nat): (r: Option<Parsed>)
    requires 1 <= p <= FACTOR
    ensures r.Some? ==> i < r.value.next <= |ts|
    decreases |ts| - i, FACTOR + 1 - p, 1
  {
    LevelHere(lg, ts, i, p)
  }

  function LevelHere(lg: Language, ts: seq<Token>, i: nat, p: nat): (r: Option<Parsed>)
    requires 1 <= p <= FACTOR
    ensures r.Some? ==> i < r.value.next <= |ts|
    decreases |ts| - i, FACTOR + 1 - p, 0
  {
    if p == FACTOR then Factor(lg, ts, i)
    else
      var left := Level(lg, ts, i, p + 1);
      if left.None? then None else LevelLoop(lg, ts, left.value.next, p, left.value.tree)
  }

  /** The rest of a level's loop, once its left operand is there. */
  function LevelLoop(lg: Language, ts: seq<Token>, i: nat, p: nat, left: Tree): (r: Option<Parsed>)
    requires 1 <= p < FACTOR
    ensures r.Some? ==> i <= r.value.next && (i <= |ts| ==> r.value.next <= |ts|)
    decreases |ts| - i, FACTOR + 1, 1
  {
    LevelTurn(lg, ts, i, p, left)
  }

  function LevelTurn(lg: Language, ts: seq<Token>, i: nat, p: nat, left: Tree): (r: Option<Parsed>)
    requires 1 <= p < FACTOR
    ensures r.Some? ==> i <= r.value.next && (i <= |ts| ==> r.value.next <= |ts|)
    decreases |ts| - i, FACTOR + 1, 0
  {
    if !AtLevel(ts, i, p) then Some(Parsed(left, i))
    else
      var right := Level(lg, ts, i + 1, p + 1);
      if right.None? then None else LevelLoop(lg, ts, right.value.next, p, Infix(ts[i].op, left, right.value.tree))
  }

  /** `parse_conditional`. */
  function Conditional(lg: Language, ts: seq<Token>, i: nat): (r: Option<Parsed>)
    ensures r.Some? ==> i < r.value.next <= |ts|
    decreases |ts| - i, FACTOR + 2
  {
    var condition := Level(lg, ts, i, LOWEST);
    if condition.None? then None else ConditionalRest(lg, ts, condition.value.next, condition.value.tree)
  }

  function ConditionalRest(lg: Language, ts: seq<Token>, i: nat, condition: Tree): (r: Option<Parsed>)
    ensures r.Some? ==> i <= r.value.next && (i <= |ts| ==> r.value.next <= |ts|)
    decreases |ts| - i, FACTOR + 1
  {
    if i >= |ts| || ts[i] != Question then Some(Parsed(condition, i))
    else
      var thenTree := Conditional(lg, ts, i + 1);
      if thenTree.None? || thenTree.value.next >= |ts| || ts[thenTree.value.next] != Colon then None
      else
        var elseTree := Conditional(lg, ts, thenTree.value.next + 1);
        if elseTree.None? then None
        else Some(Parsed(Choice(condition, thenTree.value.tree, elseTree.value.tree), elseTree.value.next))
  }

  // ----------------------------------------------------------------------- the climb

  /** The value, the position reached, and how many errors were reported. */
  datatype Climbed = Climbed(value: int, next: nat, errors: nat)

  function More(c: Climbed, errors: nat): Climbed {
    c.(errors := c.errors + errors)
  }

  function ApplyBinary(m: Meaning, op: BinOp, left: int, right: int): (int, nat) {
    match op
    case LogicalOr => (Flag(left != 0 || right != 0), 0)
    case LogicalAnd => (Flag(left != 0 && right != 0), 0)
    case Equal => (Flag(left == right), 0)
    case NotEqual => (Flag(left != right), 0)
    case Less => (Flag(left < right), 0)
    case LessEqual => (Flag(left <= right), 0)
    case Greater => (Flag(left > right), 0)
    case GreaterEqual => (Flag(left >= right), 0)
    case Slash => if right == 0 then (0, 1) else (m.binary(op, left, right), 0)
    case Percent => if right == 0 then (0, 1) else (m.binary(op, left, right), 0)
    case _ => (m.binary(op, left, right), 0)
  }

  function Primary(m: Meaning, ts: seq<Token>, i: nat): (r: Climbed)
    ensures i <= r.next && (i < |ts| ==> i < r.next)
    decreases |ts| - i, 0
  {
    if i >= |ts| then Climbed(0, i, 0)
    else
      match ts[i]
      case Number(n) => Climbed(n, i + 1, 0)
      case Name => Climbed(0, i + 1, 0)
      case Open =>
        var inner := Climb(m, ts, i + 1, 0);
        if inner.next < |ts| && ts[inner.next] == Close then inner.(next := inner.next + 1) else More(inner, 1)
      case Binary(op) =>
        if op == Minus then
          var x := Primary(m, ts, i + 1);
          x.(value := m.unary(Negate, x.value))
        else if op == Plus then Primary(m, ts, i + 1)
        else Climbed(0, i + 1, 1)
      case Bang =>
        var x := Primary(m, ts, i + 1);
        x.(value := Flag(x.value == 0))
      case Tilde =>
        var x := Primary(m, ts, i + 1);
        x.(value := m.unary(Invert, x.value))
      case _ => Climbed(0, i + 1, 1)
  }

  function Climb(m: Meaning, ts: seq<Token>, i: nat, min: nat): (r: Climbed)
    ensures i <= r.next && (i < |ts| ==> i < r.next)
    decreases |ts| - i, 3
  {
    ClimbHere(m, ts, i, min)
  }

  function ClimbHere(m: Meaning, ts: seq<Token>, i: nat, min: nat): (r: Climbed)
    ensures i <= r.next && (i < |ts| ==> i < r.next)
    decreases |ts| - i, 2
  {
    var left := Primary(m, ts, i);
    if left.next <= i then left
    else More(ClimbLoop(m, ts, left.next, min, left.value), left.errors)
  }

  /** One turn of the climb's loop at a `?`: both branches are evaluated. */
  function ChoiceStep(m: Meaning, ts: seq<Token>, i: nat, left: int): (r: Climbed)
    requires i < |ts|
    ensures i < r.next
    decreases |ts| - i, 0
  {
    var thenValue := Climb(m, ts, i + 1, 0);
    var missing := if thenValue.next < |ts| && ts[thenValue.next] == Colon then 0 else 1;
    var elseValue := Climb(m, ts, thenValue.next + 1 - missing, 0);
    Climbed(if left != 0 then thenValue.value else elseValue.value, elseValue.next,
            thenValue.errors + missing + elseValue.errors)
  }

  /** ... and at a binary operator, with its right operand a level above. */
  function BinaryStep(m: Meaning, ts: seq<Token>, i: nat, left: int): (r: Climbed)
    requires PrecedenceAt(ts, i) > 0
    ensures i < r.next
    decreases |ts| - i, 0
  {
    var right := Climb(m, ts, i + 1, PrecedenceAt(ts, i) + 1);
    var (value, error) := ApplyBinary(m, ts[i].op, left, right.value);
    Climbed(value, right.next, right.errors + error)
  }

  function ClimbLoop(m: Meaning, ts: seq<Token>, i: nat, min: nat, left: int): (r: Climbed)
    ensures i <= r.next
    decreases |ts| - i, 1
  {
    if i < |ts| && ts[i] == Question && min == 0 then
      var step := ChoiceStep(m, ts, i, left);
      More(ClimbLoop(m, ts, step.next, min, step.value), step.errors)
    else if PrecedenceAt(ts, i) == 0 || PrecedenceAt(ts, i) < min then Climbed(left, i, 0)
    else
      var step := BinaryStep(m, ts, i, left);
      More(ClimbLoop(m, ts, step.next, min, step.value), step.errors)
  }

  // ------------------------------------------------------------------------ agreement

  /** Both have consumed the same, and the value is that of the tree. An error is reported
      exactly where some operand, needed or not, divides by zero. */
  predicate Matches(m: Meaning, p: Parsed, c: Climbed) {
    p.next == c.next && Agrees(m, p.tree, c.value) && (c.errors == 0 <==> EagerEval(m, p.tree).Some?)
  }

  /** The same, for what comes after a left operand. */
  predicate MatchesAfter(m: Meaning, left: Tree, p: Parsed, c: Climbed) {
    p.next == c.next && Agrees(m, p.tree, c.value) &&
      (EagerEval(m, left).Some? && c.errors == 0 <==> EagerEval(m, p.tree).Some?)
  }

  /** The climb's table is the ladder: an operator's precedence is the one level that loops
      on it. */
  lemma TableIsLadder(op: BinOp, p: nat)
    ensures OnLevel(p, op) <==> Precedence(op) == p
  {
  }

  lemma AtPrecedence(ts: seq<Token>, i: nat, p: nat)
    requires p > 0
    ensures AtLevel(ts, i, p) <==> PrecedenceAt(ts, i) == p
  {
    if i < |ts| && ts[i].Binary? {
      TableIsLadder(ts[i].op, p);
    }
  }

  /** A level ends where no operator of that level or above follows. */
  lemma {:induction false} LevelStops(lg: Language, ts: seq<Token>, i: nat, p: nat)
    requires 1 <= p <= FACTOR && Level(lg, ts, i, p).Some?
    ensures PrecedenceAt(ts, Level(lg, ts, i, p).value.next) < p
    decreases |ts| - i, FACTOR + 1 - p
  {
    if p < FACTOR {
      LevelStops(lg, ts, i, p + 1);
      var left := Level(lg, ts, i, p + 1).value;
      LoopStops(lg, ts, left.next, p, left.tree);
    }
  }

  lemma {:induction false} LoopStops(lg: Language, ts: seq<Token>, i: nat, p: nat, left: Tree)
    requires 1 <= p < FACTOR && PrecedenceAt(ts, i) <= p && LevelLoop(lg, ts, i, p, left).Some?
    ensures PrecedenceAt(ts, LevelLoop(lg, ts, i, p, left).value.next) < p
    decreases |ts| - i, FACTOR + 1
  {
    AtPrecedence(ts, i, p);
    assert LevelLoop(lg, ts, i, p, left) == LevelTurn(lg, ts, i, p, left);
    if AtLevel(ts, i, p) {
      var right := Level(lg, ts, i + 1, p + 1);
      LevelStops(lg, ts, i + 1, p + 1);
      LoopStops(lg, ts, right.value.next, p, Infix(ts[i].op, left, right.value.tree));
    }
  }

  /** The ladder from level `p` on, once a factor has been parsed. */
  function Continue(lg: Language, ts: seq<Token>, i: nat, p: nat, left: Tree): (r: Option<Parsed>)
    requires 1 <= p <= FACTOR
    decreases FACTOR - p
  {
    if p == FACTOR then Some(Parsed(left, i))
    else
      var higher := Continue(lg, ts, i, p + 1, left);
      if higher.None? then None else LevelLoop(lg, ts, higher.value.next, p, higher.value.tree)
  }

  lemma {:induction false} LevelIsContinue(lg: Language, ts: seq<Token>, i: nat, p: nat)
    requires 1 <= p <= FACTOR
    ensures Level(lg, ts, i, p) ==
            var factor := Factor(lg, ts, i);
            if factor.None? then None else Continue(lg, ts, factor.value.next, p, factor.value.tree)
    decreases FACTOR - p
  {
    if p < FACTOR {
      LevelIsContinue(lg, ts, i, p + 1);
    }
  }

  /** Where no operator of the levels above follows, those levels do nothing. */
  lemma {:induction false} NothingAbove(lg: Language, ts: seq<Token>, i: nat, p: nat, left: Tree)
    requires 1 <= p <= FACTOR && PrecedenceAt(ts, i) < p
    ensures Continue(lg, ts, i, p, left) == Some(Parsed(left, i))
    decreases FACTOR - p
  {
    if p < FACTOR {
      AtPrecedence(ts, i, p);
      NothingAbove(lg, ts, i, p + 1, left);
      assert LevelTurn(lg, ts, i, p, left) == Some(Parsed(left, i));
    }
  }

  /** One operator, seen from every level at or below its own: its right operand is parsed
      a level above, and the ladder goes on from there. */
  lemma {:induction false} OneOperator(lg: Language, ts: seq<Token>, i: nat, p: nat, left: Tree)
    requires 1 <= p <= PrecedenceAt(ts, i)
    ensures var right := Level(lg, ts, i + 1, PrecedenceAt(ts, i) + 1);
            Continue(lg, ts, i, p, left) ==
            if right.None? then None else Continue(lg, ts, right.value.next, p, Infix(ts[i].op, left, right.value.tree))
    decreases PrecedenceAt(ts, i) - p
  {
    var q := PrecedenceAt(ts, i);
    var right := Level(lg, ts, i + 1, q + 1);
    if p == q {
      AtOwnLevel(lg, ts, i, left);
    } else {
      OneOperator(lg, ts, i, p + 1, left);
      if right.None? {
        NoneBelow(lg, ts, i, p, left);
      } else {
        SameBelow(lg, ts, i, p, left, right.value.next, Infix(ts[i].op, left, right.value.tree));
      }
    }
  }

  /** The level below only sees what the one above it has parsed. */
  lemma SameBelow(lg: Language, ts: seq<Token>, i: nat, p: nat, left: Tree, j: nat, other: Tree)
    requires 1 <= p < FACTOR && Continue(lg, ts, i, p + 1, left) == Continue(lg, ts, j, p + 1, other)
    ensures Continue(lg, ts, i, p, left) == Continue(lg, ts, j, p, other)
  {
  }

  lemma NoneBelow(lg: Language, ts: seq<Token>, i: nat, p: nat, left: Tree)
    requires 1 <= p < FACTOR && Continue(lg, ts, i, p + 1, left).None?
    ensures Continue(lg, ts, i, p, left).None?
  {
  }

  lemma AtOwnLevel(lg: Language, ts: seq<Token>, i: nat, left: Tree)
    requires PrecedenceAt(ts, i) > 0
    ensures var q := PrecedenceAt(ts, i);
            var right := Level(lg, ts, i + 1, q + 1);
            Continue(lg, ts, i, q, left) ==
            if right.None? then None else Continue(lg, ts, right.value.next, q, Infix(ts[i].op, left, right.value.tree))
  {
    var q := PrecedenceAt(ts, i);
    var right := Level(lg, ts, i + 1, q + 1);
    AtPrecedence(ts, i, q);
    ContinueHere(lg, ts, i, q, left);
    assert LevelLoop(lg, ts, i, q, left) == LevelTurn(lg, ts, i, q, left);
    if right.Some? {
      LevelStops(lg, ts, i + 1, q + 1);
      ContinueHere(lg, ts, right.value.next, q, Infix(ts[i].op, left, right.value.tree));
    }
  }

  lemma ContinueHere(lg: Language, ts: seq<Token>, i: nat, p: nat, left: Tree)
    requires 1 <= p < FACTOR && PrecedenceAt(ts, i) <= p
    ensures Continue(lg, ts, i, p, left) == LevelLoop(lg, ts, i, p, left)
  {
    NothingAbove(lg, ts, i, p + 1, left);
  }

  lemma ApplyAgrees(m: Meaning, op: BinOp, left: Tree, right: Tree, l: int, r: int)
    requires Agrees(m, left, l) && Agrees(m, right, r)
    ensures Agrees(m, Infix(op, left, right), ApplyBinary(m, op, l, r).0)
    ensures EagerEval(m, left).Some? && EagerEval(m, right).Some? && ApplyBinary(m, op, l, r).1 == 0 <==>
            EagerEval(m, Infix(op, left, right)).Some?
  {
  }

  lemma {:induction false} PrimaryMatches(lg: Language, m: Meaning, ts: seq<Token>, i: nat)
    requires Factor(lg, ts, i).Some?
    ensures Matches(m, Factor(lg, ts, i).value, Primary(m, ts, i))
    decreases |ts| - i, 0
  {
    match ts[i]
    case Binary(op) => PrimaryMatches(lg, m, ts, i + 1);
    case Bang => PrimaryMatches(lg, m, ts, i + 1);
    case Tilde => PrimaryMatches(lg, m, ts, i + 1);
    case Open => ConditionalMatches(lg, m, ts, i + 1);
    case _ =>
  }

  lemma StepMatches(lg: Language, m: Meaning, ts: seq<Token>, i: nat, left: Tree, l: int)
    requires PrecedenceAt(ts, i) > 0 && Agrees(m, left, l)
    requires var right := Level(lg, ts, i + 1, PrecedenceAt(ts, i) + 1);
             right.Some? && Matches(m, right.value, Climb(m, ts, i + 1, PrecedenceAt(ts, i) + 1))
    ensures var right := Level(lg, ts, i + 1, PrecedenceAt(ts, i) + 1).value;
            MatchesAfter(m, left, Parsed(Infix(ts[i].op, left, right.tree), right.next), BinaryStep(m, ts, i, l))
  {
    var q := PrecedenceAt(ts, i);
    ApplyAgrees(m, ts[i].op, left, Level(lg, ts, i + 1, q + 1).value.tree, l, Climb(m, ts, i + 1, q + 1).value);
  }

  /** A level of the ladder is the climb with that level as its minimum. */
  lemma {:induction false} LevelMatches(lg: Language, m: Meaning, ts: seq<Token>, i: nat, p: nat)
    requires 1 <= p <= FACTOR && Level(lg, ts, i, p).Some?
    ensures Matches(m, Level(lg, ts, i, p).value, Climb(m, ts, i, p))
    decreases |ts| - i, 3
  {
    LevelIsContinue(lg, ts, i, p);
    PrimaryMatches(lg, m, ts, i);
    var factor := Factor(lg, ts, i).value;
    ContinueMatches(lg, m, ts, factor.next, p, factor.tree, Primary(m, ts, i).value);
  }

  /** One operator and its right operand, in both. */
  lemma {:induction false} OperatorMatches(lg: Language, m: Meaning, ts: seq<Token>, i: nat, p: nat, left: Tree, l: int)
    returns (mid: Parsed)
    requires 1 <= p <= PrecedenceAt(ts, i) && Agrees(m, left, l) && Continue(lg, ts, i, p, left).Some?
    ensures mid.next > i && Agrees(m, mid.tree, BinaryStep(m, ts, i, l).value)
    ensures MatchesAfter(m, left, mid, BinaryStep(m, ts, i, l))
    ensures Continue(lg, ts, mid.next, p, mid.tree) == Continue(lg, ts, i, p, left)
    decreases |ts| - i, 0
  {
    OneOperator(lg, ts, i, p, left);
    var right := Level(lg, ts, i + 1, PrecedenceAt(ts, i) + 1).value;
    mid := Parsed(Infix(ts[i].op, left, right.tree), right.next);
    LevelMatches(lg, m, ts, i + 1, PrecedenceAt(ts, i) + 1);
    StepMatches(lg, m, ts, i, left, l);
  }

  /** One operator matched, and the rest of the loop. */
  lemma Onward(m: Meaning, ts: seq<Token>, i: nat, min: nat, left: Tree, l: int, mid: Parsed, r: Parsed)
    requires PrecedenceAt(ts, i) > 0 && min <= PrecedenceAt(ts, i)
    requires MatchesAfter(m, left, mid, BinaryStep(m, ts, i, l))
    requires MatchesAfter(m, mid.tree, r, ClimbLoop(m, ts, mid.next, min, BinaryStep(m, ts, i, l).value))
    ensures MatchesAfter(m, left, r, ClimbLoop(m, ts, i, min, l))
  {
  }

  lemma {:induction false} ContinueMatches(lg: Language, m: Meaning, ts: seq<Token>, i: nat, p: nat, left: Tree, l: int)
    requires 1 <= p <= FACTOR && Agrees(m, left, l) && Continue(lg, ts, i, p, left).Some?
    ensures MatchesAfter(m, left, Continue(lg, ts, i, p, left).value, ClimbLoop(m, ts, i, p, l))
    decreases |ts| - i, 1
  {
    if PrecedenceAt(ts, i) < p {
      NothingAbove(lg, ts, i, p, left);
    } else {
      var mid := OperatorMatches(lg, m, ts, i, p, left, l);
      ContinueMatches(lg, m, ts, mid.next, p, mid.tree, BinaryStep(m, ts, i, l).value);
      Onward(m, ts, i, p, left, l, mid, Continue(lg, ts, i, p, left).value);
    }
  }

  /** What follows a conditional expression is neither an operator nor another choice. */
  lemma {:induction false} ConditionalStops(lg: Language, ts: seq<Token>, i: nat)
    requires Conditional(lg, ts, i).Some?
    ensures var j := Conditional(lg, ts, i).value.next;
            PrecedenceAt(ts, j) == 0 && (j < |ts| ==> ts[j] != Question)
    decreases |ts| - i
  {
    LevelStops(lg, ts, i, LOWEST);
    var condition := Level(lg, ts, i, LOWEST).value;
    if condition.next < |ts| && ts[condition.next] == Question {
      var thenTree := Conditional(lg, ts, condition.next + 1).value;
      ConditionalStops(lg, ts, thenTree.next + 1);
    }
  }

  /** The climb agrees with `parse_conditional`: on every token sequence it accepts, the
      same tokens are consumed, the value is that of the tree, and an error is reported
      exactly where an operand divides by zero, evaluated or not. */
  lemma {:induction false} ConditionalMatches(lg: Language, m: Meaning, ts: seq<Token>, i: nat)
    requires Conditional(lg, ts, i).Some?
    ensures Matches(m, Conditional(lg, ts, i).value, Climb(m, ts, i, 0))
    decreases |ts| - i, 4
  {
    LevelIsContinue(lg, ts, i, LOWEST);
    PrimaryMatches(lg, m, ts, i);
    var factor := Factor(lg, ts, i).value;
    var c := Level(lg, ts, i, LOWEST).value;
    ChoiceMatches(lg, m, ts, factor.next, factor.tree, Primary(m, ts, i).value, c, Conditional(lg, ts, i).value);
  }

  lemma {:induction false} ChoiceMatches(lg: Language, m: Meaning, ts: seq<Token>, i: nat, left: Tree, l: int,
      c: Parsed, r: Parsed)
    requires Agrees(m, left, l)
    requires Continue(lg, ts, i, LOWEST, left) == Some(c) && ConditionalRest(lg, ts, c.next, c.tree) == Some(r)
    ensures MatchesAfter(m, left, r, ClimbLoop(m, ts, i, 0, l))
    decreases |ts| - i, 3
  {
    if PrecedenceAt(ts, i) > 0 {
      var mid := OperatorMatches(lg, m, ts, i, LOWEST, left, l);
      ChoiceMatches(lg, m, ts, mid.next, mid.tree, BinaryStep(m, ts, i, l).value, c, r);
      Onward(m, ts, i, 0, left, l, mid, r);
    } else {
      NothingAbove(lg, ts, i, LOWEST, left);
      ChoiceEnds(lg, m, ts, i, left, l);
    }
  }

  lemma {:induction false} ChoiceEnds(lg: Language, m: Meaning, ts: seq<Token>, i: nat, left: Tree, l: int)
    requires Agrees(m, left, l) && PrecedenceAt(ts, i) == 0 && ConditionalRest(lg, ts, i, left).Some?
    ensures Continue(lg, ts, i, LOWEST, left) == Some(Parsed(left, i))
    ensures MatchesAfter(m, left, ConditionalRest(lg, ts, i, left).value, ClimbLoop(m, ts, i, 0, l))
    decreases |ts| - i, 2
  {
    NothingAbove(lg, ts, i, LOWEST, left);
    if i < |ts| && ts[i] == Question {
      BranchesMatch(lg, m, ts, i, left, l);
    } else {
      LoopEnds(m, ts, i, l);
    }
  }

  lemma {:induction false} BranchesMatch(lg: Language, m: Meaning, ts: seq<Token>, i: nat, left: Tree, l: int)
    requires Agrees(m, left, l) && i < |ts| && ts[i] == Question && ConditionalRest(lg, ts, i, left).Some?
    ensures MatchesAfter(m, left, ConditionalRest(lg, ts, i, left).value, ClimbLoop(m, ts, i, 0, l))
    decreases |ts| - i, 1
  {
    var thenTree := Conditional(lg, ts, i + 1).value;
    ConditionalMatches(lg, m, ts, i + 1);
    var elseTree := Conditional(lg, ts, thenTree.next + 1).value;
    ConditionalMatches(lg, m, ts, thenTree.next + 1);
    ConditionalStops(lg, ts, thenTree.next + 1);
    ChoiceStepMatches(m, ts, i, left, l, thenTree, elseTree);
    LoopEnds(m, ts, elseTree.next, ChoiceStep(m, ts, i, l).value);
  }

  lemma ChoiceStepMatches(m: Meaning, ts: seq<Token>, i: nat, left: Tree, l: int, thenTree: Parsed, elseTree: Parsed)
    requires Agrees(m, left, l) && i < |ts| && thenTree.next < |ts| && ts[thenTree.next] == Colon
    requires Matches(m, thenTree, Climb(m, ts, i + 1, 0)) && Matches(m, elseTree, Climb(m, ts, thenTree.next + 1, 0))
    ensures MatchesAfter(m, left, Parsed(Choice(left, thenTree.tree, elseTree.tree), elseTree.next),
        ChoiceStep(m, ts, i, l))
  {
  }

  lemma LoopEnds(m: Meaning, ts: seq<Token>, i: nat, l: int)
    requires PrecedenceAt(ts, i) == 0 && (i < |ts| ==> ts[i] != Question)
    ensures ClimbLoop(m, ts, i, 0, l) == Climbed(l, i, 0)
  {
  }

  // --------------------------------------------------------------- past the last token

  /** The same place in tokens with and without a 0 behind them. */
  predicate Beside(ts: seq<Token>, i: nat, j: nat) {
    i <= |ts| && (j == i || (i == |ts| && j == i + 1))
  }

  predicate SameButEnd(ts: seq<Token>, c: Climbed, d: Climbed) {
    c.value == d.value && c.errors == d.errors && Beside(ts, c.next, d.next)
  }

  /** An operand missing at the end counts as 0, and what follows a condition is not read: a
      0 behind the tokens makes no difference. */
  lemma {:induction false} ClimbPadded(m: Meaning, ts: seq<Token>, z: seq<Token>, i: nat, j: nat, min: nat)
    requires z == ts + [Number(0)] && Beside(ts, i, j)
    ensures SameButEnd(ts, Climb(m, ts, i, min), Climb(m, z, j, min))
    decreases |ts| - i, 2
  {
    PrimaryPadded(m, ts, z, i, j);
    var (left, left') := (Primary(m, ts, i), Primary(m, z, j));
    if i < |ts| {
      LoopPadded(m, ts, z, left.next, left'.next, min, left.value);
    }
    assert Climb(m, ts, i, min) == ClimbHere(m, ts, i, min);
    assert Climb(m, z, j, min) == ClimbHere(m, z, j, min);
  }

  lemma {:induction false} PrimaryPadded(m: Meaning, ts: seq<Token>, z: seq<Token>, i: nat, j: nat)
    requires z == ts + [Number(0)] && Beside(ts, i, j)
    ensures SameButEnd(ts, Primary(m, ts, i), Primary(m, z, j))
    decreases |ts| - i, 0
  {
    if i < |ts| {
      match ts[i]
      case Open => ClimbPadded(m, ts, z, i + 1, i + 1, 0);
      case Binary(op) => PrimaryPadded(m, ts, z, i + 1, i + 1);
      case Bang => PrimaryPadded(m, ts, z, i + 1, i + 1);
      case Tilde => PrimaryPadded(m, ts, z, i + 1, i + 1);
      case _ =>
    }
  }

  lemma {:induction false} LoopPadded(m: Meaning, ts: seq<Token>, z: seq<Token>, i: nat, j: nat, min: nat, left: int)
    requires z == ts + [Number(0)] && Beside(ts, i, j)
    ensures SameButEnd(ts, ClimbLoop(m, ts, i, min, left), ClimbLoop(m, z, j, min, left))
    decreases |ts| - i, 1
  {
    assert PrecedenceAt(ts, i) == PrecedenceAt(z, j);
    if i < |ts| && ts[i] == Question && min == 0 {
      ChoicePadded(m, ts, z, i, left);
      var (c, d) := (ChoiceStep(m, ts, i, left), ChoiceStep(m, z, i, left));
      LoopPadded(m, ts, z, c.next, d.next, min, c.value);
    } else if PrecedenceAt(ts, i) > 0 && PrecedenceAt(ts, i) >= min {
      ClimbPadded(m, ts, z, i + 1, i + 1, PrecedenceAt(ts, i) + 1);
      var (c, d) := (BinaryStep(m, ts, i, left), BinaryStep(m, z, i, left));
      LoopPadded(m, ts, z, c.next, d.next, min, c.value);
    }
  }

  lemma {:induction false} ChoicePadded(m: Meaning, ts: seq<Token>, z: seq<Token>, i: nat, left: int)
    requires z == ts + [Number(0)] && i < |ts| && ts[i] == Question
    ensures SameButEnd(ts, ChoiceStep(m, ts, i, left), ChoiceStep(m, z, i, left))
    decreases |ts| - i, 0
  {
    ClimbPadded(m, ts, z, i + 1, i + 1, 0);
    var (c, d) := (Climb(m, ts, i + 1, 0).next, Climb(m, z, i + 1, 0).next);
    var colon := c < |ts| && ts[c] == Colon;
    ClimbPadded(m, ts, z, if colon then c + 1 else c, if colon then d + 1 else d, 0);
  }

  // ------------------------------------------------------------ what goes unreported

  /** Tokens that do not break off where an operand is expected. */
  predicate Finished(ts: seq<Token>) {
    |ts| > 0 && ts[|ts| - 1].Number?
  }

  /** Where the climb reports nothing, the ladder accepts. */
  lemma {:induction false} FactorRead(m: Meaning, ts: seq<Token>, i: nat)
    requires Finished(ts) && i < |ts| && Primary(m, ts, i).errors == 0
    ensures Factor(InDirective, ts, i).Some?
    decreases |ts| - i, 0
  {
    match ts[i]
    case Open =>
      ConditionalRead(m, ts, i + 1);
      ConditionalMatches(InDirective, m, ts, i + 1);
    case Binary(op) =>
      if op == Minus || op == Plus {
        FactorRead(m, ts, i + 1);
      }
    case Bang => FactorRead(m, ts, i + 1);
    case Tilde => FactorRead(m, ts, i + 1);
    case _ =>
  }

  lemma {:induction false} LevelRead(m: Meaning, ts: seq<Token>, i: nat, p: nat)
    requires Finished(ts) && i < |ts| && 1 <= p <= FACTOR && Climb(m, ts, i, p).errors == 0
    ensures Level(InDirective, ts, i, p).Some?
    decreases |ts| - i, 3
  {
    assert Climb(m, ts, i, p) == ClimbHere(m, ts, i, p);
    FactorRead(m, ts, i);
    PrimaryMatches(InDirective, m, ts, i);
    LevelIsContinue(InDirective, ts, i, p);
    var factor := Factor(InDirective, ts, i).value;
    ContinueRead(m, ts, factor.next, p, factor.tree, Primary(m, ts, i).value);
  }

  lemma {:induction false} ContinueRead(m: Meaning, ts: seq<Token>, i: nat, p: nat, left: Tree, l: int)
    requires Finished(ts) && 1 <= p <= FACTOR && ClimbLoop(m, ts, i, p, l).errors == 0
    ensures Continue(InDirective, ts, i, p, left).Some?
    decreases |ts| - i, 1
  {
    if PrecedenceAt(ts, i) < p {
      NothingAbove(InDirective, ts, i, p, left);
    } else {
      var mid := OperatorRead(m, ts, i, p, left, l);
      ContinueRead(m, ts, mid.next, p, mid.tree, BinaryStep(m, ts, i, l).value);
    }
  }

  lemma {:induction false} OperatorRead(m: Meaning, ts: seq<Token>, i: nat, p: nat, left: Tree, l: int)
    returns (mid: Parsed)
    requires Finished(ts) && 1 <= p <= PrecedenceAt(ts, i) && BinaryStep(m, ts, i, l).errors == 0
    ensures i < mid.next == BinaryStep(m, ts, i, l).next
    ensures Continue(InDirective, ts, i, p, left) == Continue(InDirective, ts, mid.next, p, mid.tree)
    decreases |ts| - i, 0
  {
    var q := PrecedenceAt(ts, i);
    LevelRead(m, ts, i + 1, q + 1);
    LevelMatches(InDirective, m, ts, i + 1, q + 1);
    OneOperator(InDirective, ts, i, p, left);
    var right := Level(InDirective, ts, i + 1, q + 1).value;
    mid := Parsed(Infix(ts[i].op, left, right.tree), right.next);
  }

  lemma {:induction false} ConditionalRead(m: Meaning, ts: seq<Token>, i: nat)
    requires Finished(ts) && i < |ts| && Climb(m, ts, i, 0).errors == 0
    ensures Conditional(InDirective, ts, i).Some?
    decreases |ts| - i, 4
  {
    assert Climb(m, ts, i, 0) == ClimbHere(m, ts, i, 0);
    FactorRead(m, ts, i);
    PrimaryMatches(InDirective, m, ts, i);
    LevelIsContinue(InDirective, ts, i, LOWEST);
    var factor := Factor(InDirective, ts, i).value;
    ChoiceRead(m, ts, factor.next, factor.tree, Primary(m, ts, i).value);
  }

  lemma {:induction false} ChoiceRead(m: Meaning, ts: seq<Token>, i: nat, left: Tree, l: int)
    requires Finished(ts) && ClimbLoop(m, ts, i, 0, l).errors == 0
    ensures var c := Continue(InDirective, ts, i, LOWEST, left);
            c.Some? && ConditionalRest(InDirective, ts, c.value.next, c.value.tree).Some?
    decreases |ts| - i, 3
  {
    if PrecedenceAt(ts, i) > 0 {
      var mid := OperatorRead(m, ts, i, LOWEST, left, l);
      ChoiceRead(m, ts, mid.next, mid.tree, BinaryStep(m, ts, i, l).value);
    } else {
      NothingAbove(InDirective, ts, i, LOWEST, left);
      if i < |ts| && ts[i] == Question {
        BranchesRead(m, ts, i, left, l);
      }
    }
  }

  lemma {:induction false} BranchesRead(m: Meaning, ts: seq<Token>, i: nat, left: Tree, l: int)
    requires Finished(ts) && i < |ts| && ts[i] == Question && ChoiceStep(m, ts, i, l).errors == 0
    ensures ConditionalRest(InDirective, ts, i, left).Some?
    decreases |ts| - i, 2
  {
    ConditionalRead(m, ts, i + 1);
    ConditionalMatches(InDirective, m, ts, i + 1);
    var thenTree := Conditional(InDirective, ts, i + 1).value;
    assert ts[thenTree.next] == Colon;
    ConditionalRead(m, ts, thenTree.next + 1);
  }

  // ------------------------------------------------------------------ the parsers

  /** The evaluator: the tokens, and how far it has come. */
  class CondParser {
    const tokens: seq<Token>
    const m: Meaning
    var index: nat
    var errors: nat           // diagnostics reported

    constructor (tokens: seq<Token>, m: Meaning)
      ensures this.tokens == tokens && this.m == m && index == 0 && errors == 0
    {
      this.tokens, this.m, index, errors := tokens, m, 0, 0;
    }

    /** `c` is what this call has done. */
    twostate predicate Did(c: Climbed, value: int)
      reads this
    {
      value == c.value && index == c.next && errors == old(errors) + c.errors
    }

    method CondPrimary() returns (value: int)
      modifies this
      ensures Did(Primary(m, tokens, old(index)), value)
      decreases |tokens| - index, 0
    {
      if index >= |tokens| {
        return 0;
      }
      match tokens[index]
      case Number(n) =>
        index := index + 1;
        value := n;
      case Name =>
        index := index + 1;
        value := 0;
      case Open =>
        index := index + 1;
        value := CondExpression(0);
        if index < |tokens| && tokens[index] == Close {
          index := index + 1;
        } else {
          errors := errors + 1;
        }
      case Binary(op) =>
        index := index + 1;
        if op == Minus {
          value := CondPrimary();
          value := m.unary(Negate, value);
        } else if op == Plus {
          value := CondPrimary();
        } else {
          errors := errors + 1;
          value := 0;
        }
      case Bang =>
        index := index + 1;
        value := CondPrimary();
        value := Flag(value == 0);
      case Tilde =>
        index := index + 1;
        value := CondPrimary();
        value := m.unary(Invert, value);
      case _ =>
        errors := errors + 1;
        index := index + 1;
        value := 0;
    }

    ghost predicate LeadsTo(rest: Climbed, all: Climbed, done: int) {
      all.value == rest.value && all.next == rest.next && all.errors == rest.errors + done
    }

    method CondExpression(min: nat) returns (left: int)
      modifies this
      ensures Did(Climb(m, tokens, old(index), min), left)
      decreases |tokens| - index, 2
    {
      ghost var start, before := index, errors;
      left := CondPrimary();
      ghost var all := ClimbHere(m, tokens, start, min);
      while index < |tokens|
        invariant start < index || index >= |tokens|
        invariant LeadsTo(ClimbLoop(m, tokens, index, min, left), all, errors - before)
        decreases |tokens| - index
      {
        if tokens[index] == Question && min == 0 {
          left := CondChoice(left);
          continue;
        }
        var precedence := PrecedenceAt(tokens, index);
        if precedence == 0 || precedence < min {
          break;
        }
        left := CondBinary(precedence, left);
      }
    }

    method CondChoice(left: int) returns (value: int)
      requires index < |tokens|
      modifies this
      ensures Did(ChoiceStep(m, tokens, old(index), left), value)
      decreases |tokens| - index, 0
    {
      index := index + 1;
      var thenValue := CondExpression(0);
      if index < |tokens| && tokens[index] == Colon {
        index := index + 1;
      } else {
        errors := errors + 1;
      }
      var elseValue := CondExpression(0);
      value := if left != 0 then thenValue else elseValue;
    }

    method CondBinary(precedence: nat, left: int) returns (value: int)
      requires precedence == PrecedenceAt(tokens, index) > 0
      modifies this
      ensures Did(BinaryStep(m, tokens, old(index), left), value)
      decreases |tokens| - index, 0
    {
      var op := tokens[index].op;
      index := index + 1;
      var right := CondExpression(precedence + 1);
      var (result, error) := ApplyBinary(m, op, left, right);
      errors := errors + error;
      value := result;
    }
  }

  /** One function of the ladder, for any of its levels. */
  method ParseLevel(ts: seq<Token>, i: nat, p: nat) returns (r: Option<Parsed>)
    requires 1 <= p <= FACTOR
    ensures r == Level(InSource, ts, i, p)
    decreases |ts| - i, FACTOR + 1 - p
  {
    if p == FACTOR {
      r := ParseFactor(ts, i);
      return;
    }
    r := ParseLevel(ts, i, p + 1);
    while r.Some? && AtLevel(ts, r.value.next, p)
      invariant r.Some? ==> i < r.value.next <= |ts|
      invariant Level(InSource, ts, i, p) ==
                if r.None? then None else LevelLoop(InSource, ts, r.value.next, p, r.value.tree)
      decreases if r.Some? then |ts| - r.value.next + 1 else 0
    {
      var left := r.value;
      r := ParseLevel(ts, left.next + 1, p + 1);
      if r.Some? {
        r := Some(Parsed(Infix(ts[left.next].op, left.tree, r.value.tree), r.value.next));
      }
    }
  }

  method ParseFactor(ts: seq<Token>, i: nat) returns (r: Option<Parsed>)
    ensures r == Factor(InSource, ts, i)
    decreases |ts| - i, 0
  {
    if i >= |ts| {
      return None;
    }
    match ts[i]
    case Number(n) => r := Some(Parsed(Literal(n), i + 1));
    case Binary(op) =>
      r := None;
      if op == Minus {
        r := ParseFactor(ts, i + 1);
        r := Prefixed(Negate, r);
      }
    case Bang =>
      r := ParseFactor(ts, i + 1);
      r := Prefixed(Not, r);
    case Tilde =>
      r := ParseFactor(ts, i + 1);
      r := Prefixed(Invert, r);
    case Open =>
      r := ParseConditional(ts, i + 1);
      if r.None? || r.value.next >= |ts| || ts[r.value.next] != Close {
        r := None;
      } else {
        r := Some(r.value.(next := r.value.next + 1));
      }
    case _ => r := None;
  }

  method ParseConditional(ts: seq<Token>, i: nat) returns (r: Option<Parsed>)
    ensures r == Conditional(InSource, ts, i)
    decreases |ts| - i, FACTOR + 2
  {
    r := ParseLevel(ts, i, LOWEST);
    if r.None? || r.value.next >= |ts| || ts[r.value.next] != Question {
      return;
    }
    var condition := r.value.tree;
    r := ParseConditional(ts, r.value.next + 1);
    if r.None? || r.value.next >= |ts| || ts[r.value.next] != Colon {
      return None;
    }
    var thenTree := r.value.tree;
    r := ParseConditional(ts, r.value.next + 1);
    if r.Some? {
      r := Some(Parsed(Choice(condition, thenTree, r.value.tree), r.value.next));
    }
  }

  /** `#if`: on what the ladder accepts, the value is that of its tree; and no error is
      reported exactly where C's ladder reads a condition, with a value, at the start of the
      tokens with a 0 behind them. */
  method EvaluateCondition(tokens: seq<Token>, m: Meaning) returns (value: int, errors: nat)
    ensures value == Climb(m, tokens, 0, 0).value && errors == Climb(m, tokens, 0, 0).errors
    ensures forall lg | Conditional(lg, tokens, 0).Some? ::
              var tree := Conditional(lg, tokens, 0).value.tree;
              && Agrees(m, tree, value)
              && (errors == 0 <==> EagerEval(m, tree).Some?)
              && (errors == 0 ==> Eval(m, tree) == Some(value))
    ensures errors == 0 <==> ReadsCondition(m, tokens + [Number(0)])
    ensures errors == 0 ==> Eval(m, Conditional(InDirective, tokens + [Number(0)], 0).value.tree) == Some(value)
  {
    var parser := new CondParser(tokens, m);
    value := parser.CondExpression(0);
    errors := parser.errors;
    forall lg | Conditional(lg, tokens, 0).Some?
      ensures Matches(m, Conditional(lg, tokens, 0).value, Climb(m, tokens, 0, 0))
      ensures errors == 0 ==> Eval(m, Conditional(lg, tokens, 0).value.tree) == Some(value)
    {
      ConditionalMatches(lg, m, tokens, 0);
      if errors == 0 {
        EagerIsEval(m, Conditional(lg, tokens, 0).value.tree);
      }
    }
    ReportsExactly(m, tokens);
  }

  /** A condition stands at the start, and none of its operands divides by zero. */
  predicate ReadsCondition(m: Meaning, ts: seq<Token>) {
    var p := Conditional(InDirective, ts, 0);
    p.Some? && EagerEval(m, p.value.tree).Some?
  }

  lemma ReportsExactly(m: Meaning, ts: seq<Token>)
    ensures Climb(m, ts, 0, 0).errors == 0 <==> ReadsCondition(m, ts + [Number(0)])
    ensures Climb(m, ts, 0, 0).errors == 0 ==>
              Eval(m, Conditional(InDirective, ts + [Number(0)], 0).value.tree) == Some(Climb(m, ts, 0, 0).value)
  {
    var z := ts + [Number(0)];
    ClimbPadded(m, ts, z, 0, 0, 0);
    if Climb(m, z, 0, 0).errors == 0 {
      ConditionalRead(m, z, 0);
    }
    if Conditional(InDirective, z, 0).Some? {
      ConditionalMatches(InDirective, m, z, 0);
      if Climb(m, z, 0, 0).errors == 0 {
        EagerIsEval(m, Conditional(InDirective, z, 0).value.tree);
      }
    }
  }

  /** Both operands of `||` are always evaluated: `1 || 1 / 0` has the right value, 1, but
      a division by zero is reported for it. */
  lemma UnevaluatedDivisionReported(m: Meaning, ts: seq<Token>)
    requires ts == [Number(1), Binary(LogicalOr), Number(1), Binary(Slash), Number(0)]
    ensures Climb(m, ts, 0, 0) == Climbed(1, 5, 1)
    ensures Conditional(InSource, ts, 0).Some? && Eval(m, Conditional(InSource, ts, 0).value.tree) == Some(1)
  {
    OrParsed(m, ts);
    OrClimbed(m, ts);
  }

  lemma OrParsed(m: Meaning, ts: seq<Token>)
    requires ts == [Number(1), Binary(LogicalOr), Number(1), Binary(Slash), Number(0)]
    ensures Conditional(InSource, ts, 0).Some? && Eval(m, Conditional(InSource, ts, 0).value.tree) == Some(1)
  {
    var quotient := Infix(Slash, Literal(1), Literal(0));
    ParsedNumber(InSource, ts, 4, 11, 0);
    OneOperation(InSource, ts, 2, 2, 1, Parsed(Literal(0), 5));
    OneOperation(InSource, ts, 0, 1, 1, Parsed(quotient, 5));
  }

  lemma ParsedNumber(lg: Language, ts: seq<Token>, i: nat, p: nat, n: int)
    requires 1 <= p <= FACTOR && i < |ts| && ts[i] == Number(n) && PrecedenceAt(ts, i + 1) < p
    ensures Level(lg, ts, i, p) == Some(Parsed(Literal(n), i + 1))
  {
    LevelIsContinue(lg, ts, i, p);
    NothingAbove(lg, ts, i + 1, p, Literal(n));
  }

  /** A number, an operator, and a right operand that ends the level. */
  lemma OneOperation(lg: Language, ts: seq<Token>, i: nat, p: nat, n: int, right: Parsed)
    requires i + 1 < |ts| && ts[i] == Number(n) && 1 <= p <= PrecedenceAt(ts, i + 1)
    requires Level(lg, ts, i + 2, PrecedenceAt(ts, i + 1) + 1) == Some(right) && PrecedenceAt(ts, right.next) < p
    ensures Level(lg, ts, i, p) == Some(Parsed(Infix(ts[i + 1].op, Literal(n), right.tree), right.next))
  {
    LevelIsContinue(lg, ts, i, p);
    OneOperator(lg, ts, i + 1, p, Literal(n));
    NothingAbove(lg, ts, right.next, p, Infix(ts[i + 1].op, Literal(n), right.tree));
  }

  lemma OrClimbed(m: Meaning, ts: seq<Token>)
    requires ts == [Number(1), Binary(LogicalOr), Number(1), Binary(Slash), Number(0)]
    ensures Climb(m, ts, 0, 0) == Climbed(1, 5, 1)
  {
    NumberClimbed(m, ts, 4, 11, 0);
    OneStep(m, ts, 2, 2, 1, Climbed(0, 5, 0));
    OneStep(m, ts, 0, 0, 1, Climbed(0, 5, 1));
  }

  lemma NumberClimbed(m: Meaning, ts: seq<Token>, i: nat, min: nat, n: int)
    requires i + 1 == |ts| && ts[i] == Number(n)
    ensures Climb(m, ts, i, min) == Climbed(n, i + 1, 0)
  {
    assert ClimbHere(m, ts, i, min) == Climbed(n, i + 1, 0);
  }

  lemma OneStep(m: Meaning, ts: seq<Token>, i: nat, min: nat, n: int, right: Climbed)
    requires i + 1 < |ts| && ts[i] == Number(n) && 0 < PrecedenceAt(ts, i + 1) && min <= PrecedenceAt(ts, i + 1)
    requires Climb(m, ts, i + 2, PrecedenceAt(ts, i + 1) + 1) == right && right.next == |ts|
    ensures var (value, error) := ApplyBinary(m, ts[i + 1].op, n, right.value);
            Climb(m, ts, i, min) == Climbed(value, |ts|, right.errors + error)
  {
    assert Primary(m, ts, i) == Climbed(n, i + 1, 0);
    assert Climb(m, ts, i, min) == ClimbHere(m, ts, i, min) == ClimbLoop(m, ts, i + 1, min, n);
    var step := BinaryStep(m, ts, i + 1, n);
    assert ClimbLoop(m, ts, |ts|, min, step.value) == Climbed(step.value, |ts|, 0);
  }

  /** A missing last operand is not reported: `1 +` is taken for `1 + 0`. */
  lemma MissingOperandNotReported(m: Meaning, ts: seq<Token>)
    requires ts == [Number(1), Binary(Plus)]
    ensures Climb(m, ts, 0, 0) == Climbed(m.binary(Plus, 1, 0), 2, 0)
    ensures Conditional(InDirective, ts, 0).None?
  {
    assert Climb(m, ts, 2, 10) == ClimbHere(m, ts, 2, 10) == Climbed(0, 2, 0);
    OneStep(m, ts, 0, 0, 1, Climbed(0, 2, 0));
    LevelIsContinue(InDirective, ts, 2, 10);
    LevelIsContinue(InDirective, ts, 0, LOWEST);
    OneOperator(InDirective, ts, 1, LOWEST, Literal(1));
  }

  /** Nor is what follows a complete condition: `1 2` is taken for `1`. */
  lemma RestNotReported(m: Meaning, ts: seq<Token>)
    requires ts == [Number(1), Number(2)]
    ensures Climb(m, ts, 0, 0) == Climbed(1, 1, 0)
  {
    assert Climb(m, ts, 0, 0) == ClimbHere(m, ts, 0, 0) == ClimbLoop(m, ts, 1, 0, 1);
  }
}
