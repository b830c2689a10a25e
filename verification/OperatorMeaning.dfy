/**
 What a mutation does to the meaning of its node: for every operator, how the mutated node runs
 compared with the original, over all worlds, states and amounts of fuel.
 */
module OperatorMeaning {
  import opened Wrappers
  import opened GoAst
  import opened Semantics
  import opened Operators
  import opened Schemata

  // ---- Comparisons and logic ----

  /** The values of both operands of a binary expression, if evaluation gets that far. */
  ghost predicate Operands(w: World, fuel: nat, e: Expr, st: State, a: Value, b: Value, st': State) {
    e.BinaryExpr?
    && var r := Eval(w, fuel, e.x, st);
       r.Val? && r.v == a && Eval(w, fuel, e.y, r.st) == Val(b, st')
  }

  /** Another token on the same operands. */
  lemma Applied(w: World, fuel: nat, e: Expr, tok: Token, st: State, a: Value, b: Value, st': State)
    requires Operands(w, fuel, e, st, a, b, st') && tok != LAND && tok != LOR
    ensures Eval(w, fuel, BinaryExpr(0, e.x, tok, e.y), st) == OrPanic(Binary(tok, a, b), st')
  {
  }

  lemma Itself(w: World, fuel: nat, e: Expr, st: State)
    requires e.BinaryExpr?
    ensures Eval(w, fuel, BinaryExpr(0, e.x, e.op, e.y), st) == Eval(w, fuel, e, st)
  {
  }

  lemma OperandHalts(w: World, fuel: nat, e: Expr, tok: Token, st: State)
    requires e.BinaryExpr? && e.op !in {LAND, LOR} && tok !in {LAND, LOR}
    ensures (Eval(w, fuel, e, st).Halt? && Eval(w, fuel, BinaryExpr(0, e.x, tok, e.y), st) == Eval(w, fuel, e, st))
         || exists a, b, st' :: Operands(w, fuel, e, st, a, b, st')
  {
    var r := Eval(w, fuel, e.x, st);
    if r.Val? {
      var r' := Eval(w, fuel, e.y, r.st);
      if r'.Val? { assert Operands(w, fuel, e, st, r.v, r'.v, r'.st); }
    }
  }

  lemma NegatedToken(tok: Token, a: Value, b: Value)
    requires tok in COMPARISON_NEGATION_PAIRS
    ensures tok !in {LAND, LOR} && COMPARISON_NEGATION_PAIRS[tok] !in {LAND, LOR}
    ensures var r, n := Binary(tok, a, b), Binary(COMPARISON_NEGATION_PAIRS[tok], a, b);
            if r.Some? then r.value.BoolV? && n == Some(BoolV(!r.value.b)) else n == r
  {
  }

  /** Negating a comparison negates its value, and leaves everything else as it was. */
  lemma NegatedComparison(w: World, fuel: nat, e: Expr, st: State)
    requires MutateExpr(ConditionNegation, e).Some?
    ensures var r, n := Eval(w, fuel, e, st), Eval(w, fuel, MutateExpr(ConditionNegation, e).value, st);
            if r.Val? then r.v.BoolV? && n == Val(BoolV(!r.v.b), r.st) else n == r
  {
    hide Eval, Binary, Operands;
    var tok := COMPARISON_NEGATION_PAIRS[e.op];
    NegatedToken(e.op, NilV, NilV);
    Itself(w, fuel, e, st);
    OperandHalts(w, fuel, e, tok, st);
    if a, b, st' :| Operands(w, fuel, e, st, a, b, st') {
      NegatedToken(e.op, a, b);
      Applied(w, fuel, e, tok, st, a, b, st');
      Applied(w, fuel, e, e.op, st, a, b, st');
    }
  }

  lemma MovedToken(tok: Token, a: int, b: int)
    requires tok in BOUNDARY_VALUE_PAIRS
    ensures tok !in {LAND, LOR} && BOUNDARY_VALUE_PAIRS[tok] !in {LAND, LOR}
    ensures var r, n := Binary(tok, IntV(a), IntV(b)), Binary(BOUNDARY_VALUE_PAIRS[tok], IntV(a), IntV(b));
            r.Some? && n.Some? && n.value.BoolV? && (n == r <==> a != b)
  {
  }

  /** Moving the boundary of a comparison of numbers matters exactly where they are equal. */
  lemma MovedBoundary(w: World, fuel: nat, e: Expr, st: State, a: int, b: int, st': State)
    requires MutateExpr(BoundaryValue, e).Some? && Operands(w, fuel, e, st, IntV(a), IntV(b), st')
    ensures Eval(w, fuel, MutateExpr(BoundaryValue, e).value, st) == Eval(w, fuel, e, st) <==> a != b
    ensures var n := Eval(w, fuel, MutateExpr(BoundaryValue, e).value, st); n.Val? && n.v.BoolV? && n.st == st'
  {
    hide Eval, Operands, Binary;
    MovedToken(e.op, a, b);
    Itself(w, fuel, e, st);
    Applied(w, fuel, e, e.op, st, IntV(a), IntV(b), st');
    Applied(w, fuel, e, BOUNDARY_VALUE_PAIRS[e.op], st, IntV(a), IntV(b), st');
  }

  /**
   Exchanging the logical operators changes nothing exactly where the second operand, evaluated after the first, has
   the value of the first and no effect.
   */
  lemma ExchangedLogic(w: World, fuel: nat, e: Expr, st: State, a: bool, st': State)
    requires MutateExpr(LogicalOperator, e).Some? && Eval(w, fuel, e.x, st) == Val(BoolV(a), st')
    ensures Eval(w, fuel, MutateExpr(LogicalOperator, e).value, st) == Eval(w, fuel, e, st)
       <==> Eval(w, fuel, e.y, st') == Val(BoolV(a), st')
  {
    hide Binary;
  }

  // ---- Numbers ----

  lemma WrapMultiple(n: int, k: int)
    ensures Wrap(n + k * WORD) == Wrap(n)
  {
    assert (n + k * WORD) % WORD == n % WORD;
  }

  lemma WrapIs(n: int) returns (k: int)
    ensures Wrap(n) == n + k * WORD
  {
    k := -(n / WORD) - if n % WORD < WORD / 2 then 0 else 1;
  }

  lemma WrapSum(n: int, m: int)
    ensures Wrap(Wrap(n) + m) == Wrap(n + m)
  {
    var k := WrapIs(n);
    WrapMultiple(n + m, k);
    assert Wrap(n) + m == n + m + k * WORD;
  }

  /** Truncated division: the quotient leaves a remainder smaller than the divisor, with the sign of the dividend. */
  predicate Quotient(a: int, b: int, q: int)
  {
    b != 0 && Abs(a - q * b) < Abs(b) && (a - q * b == 0 || (a - q * b < 0 <==> a < 0))
  }

  lemma TruncDivIsQuotient(a: int, b: int)
    requires b != 0
    ensures Quotient(a, b, TruncDiv(a, b))
  {
    var q, r := Abs(a) / Abs(b), Abs(a) % Abs(b);
    assert Abs(a) == q * Abs(b) + r;
    if a >= 0 && b < 0 { assert -q * b == q * -b; }
    if a < 0 && b > 0 { assert -q * b == -(q * b); }
    if a < 0 && b < 0 { assert q * b == -(q * -b); }
  }

  /** The bits of a number in two's complement. */
  predicate Bit(n: int, i: nat)
    decreases i
  {
    if i == 0 then n % 2 == 1 else Bit(n / 2, i - 1)
  }

  lemma {:induction false} AllAlike(n: int, i: nat)
    requires n == 0 || n == -1
    ensures Bit(n, i) <==> n == -1
  {
    if i > 0 { AllAlike(n, i - 1); }
  }

  lemma {:induction false} AndBit(a: int, b: int, i: nat)
    ensures Bit(BitAnd(a, b), i) <==> Bit(a, i) && Bit(b, i)
    decreases i
  {
    var r := BitAnd(a, b);
    if BitsLeft(a) == 0 && BitsLeft(b) == 0 {
      AllAlike(a, i);
      AllAlike(b, i);
      AllAlike(r, i);
    } else if i > 0 {
      AndBit(a / 2, b / 2, i - 1);
      assert r / 2 == BitAnd(a / 2, b / 2);
    }
  }

  lemma {:induction false} OrBit(a: int, b: int, i: nat)
    ensures Bit(BitOr(a, b), i) <==> Bit(a, i) || Bit(b, i)
    decreases i
  {
    var r := BitOr(a, b);
    if BitsLeft(a) == 0 && BitsLeft(b) == 0 {
      AllAlike(a, i);
      AllAlike(b, i);
      AllAlike(r, i);
    } else if i > 0 {
      OrBit(a / 2, b / 2, i - 1);
      assert r / 2 == BitOr(a / 2, b / 2);
    }
  }

  /**
   The mutant of `a tok b` on numbers, by what its value `q` has to do with the operands: a difference gives `a` back
   when `b` is added, a quotient leaves a small remainder, and so on.
   */
  ghost predicate Computes(tok: Token, a: int, b: int, r: EvalResult, st: State) {
    match tok
    case ADD => r.Val? && r.v.IntV? && r.st == st && Wrap(r.v.n + b) == Wrap(a)
    case SUB => r.Val? && r.v.IntV? && r.st == st && Wrap(r.v.n - b) == Wrap(a)
    case MUL => if b == 0 then r == Halt(Panicked, st) else exists q :: Quotient(a, b, q) && r == Val(IntV(Wrap(q)), st)
    case QUO => r == Val(IntV(Wrap(a * b)), st)
    case REM => r == Val(IntV(Wrap(a * b)), st)
    case AND => r.Val? && r.v.IntV? && r.st == st && forall i: nat :: Bit(r.v.n, i) <==> Bit(a, i) || Bit(b, i)
    case OR => r.Val? && r.v.IntV? && r.st == st && forall i: nat :: Bit(r.v.n, i) <==> Bit(a, i) && Bit(b, i)
    case SHL =>
      if b < 0 then r == Halt(Panicked, st)
      else r.Val? && r.v.IntV? && r.st == st && r.v.n * Pow2(b) <= a < (r.v.n + 1) * Pow2(b)
    case SHR => if b < 0 then r == Halt(Panicked, st) else r == Val(IntV(Wrap(a * Pow2(b))), st)
    case _ => false
  }

  lemma ComputedSum(a: int, b: int, st: State)
    ensures Computes(ADD, a, b, OrPanic(Binary(SUB, IntV(a), IntV(b)), st), st)
    ensures Computes(SUB, a, b, OrPanic(Binary(ADD, IntV(a), IntV(b)), st), st)
  {
    WrapSum(a - b, b);
    WrapSum(a + b, -b);
  }

  lemma ComputedProduct(a: int, b: int, st: State)
    ensures Computes(MUL, a, b, OrPanic(Binary(QUO, IntV(a), IntV(b)), st), st)
    ensures Computes(QUO, a, b, OrPanic(Binary(MUL, IntV(a), IntV(b)), st), st)
    ensures Computes(REM, a, b, OrPanic(Binary(MUL, IntV(a), IntV(b)), st), st)
  {
    hide TruncDiv, Quotient, Wrap;
    if b != 0 { TruncDivIsQuotient(a, b); }
  }

  lemma ComputedBits(a: int, b: int, st: State)
    ensures Computes(AND, a, b, OrPanic(Binary(OR, IntV(a), IntV(b)), st), st)
    ensures Computes(OR, a, b, OrPanic(Binary(AND, IntV(a), IntV(b)), st), st)
  {
    hide BitOr, BitAnd, Bit;
    forall i: nat ensures Bit(BitOr(a, b), i) <==> Bit(a, i) || Bit(b, i) { OrBit(a, b, i); }
    forall i: nat ensures Bit(BitAnd(a, b), i) <==> Bit(a, i) && Bit(b, i) { AndBit(a, b, i); }
  }

  lemma ComputedShift(a: int, b: int, st: State)
    ensures Computes(SHL, a, b, OrPanic(Binary(SHR, IntV(a), IntV(b)), st), st)
    ensures Computes(SHR, a, b, OrPanic(Binary(SHL, IntV(a), IntV(b)), st), st)
  {
    hide Wrap;
    if b >= 0 { FloorDiv(a, Pow2(b)); }
  }

  lemma ComputedToken(op: Operator, tok: Token, a: int, b: int, st: State)
    requires op.ArithmeticFlip? || op.BinaryMath?
    requires tok in BinaryPairs(op)
    ensures BinaryPairs(op)[tok] !in {LAND, LOR}
    ensures Computes(tok, a, b, OrPanic(Binary(BinaryPairs(op)[tok], IntV(a), IntV(b)), st), st)
  {
    hide Binary, Computes, OrPanic;
    ComputedSum(a, b, st);
    ComputedProduct(a, b, st);
    ComputedBits(a, b, st);
    ComputedShift(a, b, st);
  }

  /** The arithmetic mutants on numbers: sum and difference, product and quotient, bits and shifts. */
  lemma ArithmeticMutant(w: World, fuel: nat, op: Operator, e: Expr, st: State, a: int, b: int, st': State)
    requires op.ArithmeticFlip? || op.BinaryMath?
    requires MutateExpr(op, e).Some? && Operands(w, fuel, e, st, IntV(a), IntV(b), st')
    ensures Computes(e.op, a, b, Eval(w, fuel, MutateExpr(op, e).value, st), st')
  {
    hide Eval, Binary, Computes, OrPanic, BinaryPairs;
    assert e.BinaryExpr?;
    ComputedToken(op, e.op, a, b, st');
    Applied(w, fuel, e, BinaryPairs(op)[e.op], st, IntV(a), IntV(b), st');
  }

  lemma FloorDiv(a: int, d: nat)
    requires d > 0
    ensures a / d * d <= a < (a / d + 1) * d
  {
    assert (a / d + 1) * d == a / d * d + d;
  }

  /** A difference of texts has no value: the arithmetic mutant of a concatenation panics. */
  lemma ConcatenationMutant(w: World, fuel: nat, e: Expr, st: State, a: string, b: string, st': State)
    requires MutateExpr(ArithmeticFlip, e).Some? && e.op == ADD && Operands(w, fuel, e, st, StrV(a), StrV(b), st')
    ensures Eval(w, fuel, MutateExpr(ArithmeticFlip, e).value, st) == Halt(Panicked, st')
  {
    hide Eval, Operands;
    Applied(w, fuel, e, SUB, st, StrV(a), StrV(b), st');
  }

  lemma OppositeNumber(n: int)
    ensures Wrap(Wrap(-n) + n) == 0
  {
    WrapSum(-n, n);
  }

  lemma Toggled(tok: Token, v: Value)
    requires tok in SIGN_TOGGLE_PAIRS && Unary(tok, v).Some?
    ensures var a, n := Unary(tok, v).value, Unary(SIGN_TOGGLE_PAIRS[tok], v);
            a.IntV? && n.Some? && n.value.IntV? && Wrap(n.value.n + a.n) == 0
  {
    hide Wrap;
    OppositeNumber(v.n);
    assert Wrap(-v.n) + v.n == v.n + Wrap(-v.n);
  }

  /** Toggling a sign gives the opposite number. */
  lemma ToggledSign(w: World, fuel: nat, e: Expr, st: State, a: int, st': State)
    requires MutateExpr(SignToggle, e).Some? && Eval(w, fuel, e, st) == Val(IntV(a), st')
    ensures var n := Eval(w, fuel, MutateExpr(SignToggle, e).value, st);
            n.Val? && n.v.IntV? && n.st == st' && Wrap(n.v.n + a) == 0
  {
    hide Wrap, Unary;
    var r := Eval(w, fuel, e.x, st);
    Toggled(e.op, r.v);
  }

  /** A replaced variable has the value of the other one. */
  lemma ReplacedVariable(w: World, fuel: nat, name: string, e: Expr, st: State)
    requires MutateExpr(VariableReplacement(name), e).Some? && name != ACTIVE
    ensures Eval(w, fuel, MutateExpr(VariableReplacement(name), e).value, st) == Val(Lookup(st, name), st)
  {
  }

  // ---- Which nodes a generated mutant can stand on ----

  /** An operator generates for exactly the expressions it changes, but for sums with a literal text and one name. */
  lemma GeneratedExpr(op: Operator, e: Expr)
    ensures CanApplyExpr(op, e)
       <==> MutateExpr(op, e).Some?
            && !(op.ArithmeticFlip? && e.op == ADD && (IsStringLiteral(e.x) || IsStringLiteral(e.y)))
            && op != VariableReplacement(ACTIVE)
  {
  }

  /** A mutant generated for a statement changes it, but for a zero value in a clause and a break in an empty loop. */
  lemma GeneratedStmt(op: Operator, s: Stmt, inCase: bool)
    requires Suits(op, s)
    ensures MutateStmt(op, s, inCase).None?
       <==> (inCase && op in {ZeroValueReturnNumeric, ZeroValueReturnString, ZeroValueReturnBool})
            || (op.LoopBreakFirst? && s.body == [])
  {
  }

  /** An expression without its outer parentheses. */
  function Bare(e: Expr): Expr { match e case ParenExpr(_, x) => Bare(x) case _ => e }

  /** The returns that are changed to a zero value, and where the mutant to nil is generated. */
  lemma {:induction false} WhichReturns(e: Expr, p: nat, returnType: string)
    ensures var b := Bare(e);
            && (CanApplyStmt(ZeroValueReturnNumeric, ReturnStmt(p, Some(e)), returnType)
                <==> b.BasicLit? && (b.lit.IntLit? || b.lit.FloatLit?))
            && (CanApplyStmt(ZeroValueReturnString, ReturnStmt(p, Some(e)), returnType)
                <==> b.BasicLit? && b.lit.StringLit?)
            && (CanApplyStmt(InterfaceReturns, ReturnStmt(p, Some(e)), returnType)
                <==> returnType == "interface{}" && b.BasicLit? && !b.lit.FloatLit?)
    ensures CanApplyStmt(ZeroValueReturnBool, ReturnStmt(p, Some(e)), returnType)
       <==> e.Ident? && (e.name == "true" || e.name == "false")
  {
    if e.ParenExpr? { WhichReturns(e.x, p, returnType); }
  }

  /** The operators of an expression outside the arguments of calls, and the signs. */
  function Connectives(e: Expr): set<Token> {
    match e
    case ParenExpr(_, x) => Connectives(x)
    case UnaryExpr(_, _, x) => Connectives(x)
    case BinaryExpr(_, x, op, y) => {op} + Connectives(x) + Connectives(y)
    case _ => {}
  }

  function Signs(e: Expr): set<Token> {
    match e
    case ParenExpr(_, x) => Signs(x)
    case UnaryExpr(_, op, x) => {op} + Signs(x)
    case BinaryExpr(_, x, _, y) => Signs(x) + Signs(y)
    case _ => {}
  }

  /** A condition is replaced if, outside calls, it only compares, negates and connects. */
  lemma {:induction false} SafeIff(e: Expr)
    ensures IsSafeCondition(e)
       <==> Connectives(e) <= {EQL, NEQ, LSS, LEQ, GTR, GEQ, LAND, LOR} && Signs(e) <= {NOT}
  {
    match e
    case ParenExpr(_, x) => SafeIff(x);
    case UnaryExpr(_, _, x) => SafeIff(x);
    case BinaryExpr(_, x, _, y) =>
      SafeIff(x);
      SafeIff(y);
    case _ =>
  }

  /** The conditions that are replaced: those of loops, and of an `if` that declares nothing in front of it. */
  lemma WhichConditions(s: Stmt, returnType: string)
    ensures (CanApplyStmt(IfConditionTrue, s, returnType) <==> CanApplyStmt(IfConditionFalse, s, returnType))
            && (CanApplyStmt(ForConditionTrue, s, returnType) <==> CanApplyStmt(ForConditionFalse, s, returnType))
    ensures CanApplyStmt(IfConditionTrue, s, returnType)
       <==> s.IfStmt? && IsSafeCondition(s.cond)
            && (s.init.None? || exists p, n, tok, x :: tok != DefineTok && s.init == Some(AssignStmt(p, n, tok, x)))
    ensures CanApplyStmt(ForConditionTrue, s, returnType)
       <==> exists p, i, c, q, b :: s == ForStmt(p, i, Some(c), q, b) && IsSafeCondition(c)
  {
    hide IsSafeCondition;
    if s.IfStmt? && s.init.Some? && s.init.value.AssignStmt? {
      var t := s.init.value;
      assert s.init == Some(AssignStmt(t.tokPos, t.lhs, t.tok, t.rhs));
    }
    if s.ForStmt? && s.forCond.Some? {
      assert s == ForStmt(s.pos, s.init, Some(s.forCond.value), s.post, s.body);
    }
  }

  /** Every compound assignment is changed, and a plain one of a number, a variable or something computed. */
  lemma WhichAssignments(p: nat, n: Name, tok: AssignTok, x: Expr, returnType: string)
    ensures CanApplyStmt(AssignmentOperator, AssignStmt(p, n, tok, x), returnType)
       <==> tok == AddTok || tok == SubTok || tok == MulTok || tok == QuoTok
            || (tok == SetTok && !x.ParenExpr? && !(x.BasicLit? && (x.lit.StringLit? || x.lit.CharLit?))
                && !(x.Ident? && (x.name == "true" || x.name == "false" || x.name == "nil")))
  {
  }

  // ---- Conditions ----

  /** With its condition made true an `if` takes its body, made false its `else`, and never asks. */
  lemma DecidedIf(w: World, fuel: nat, s: Stmt, st: State, s0: State)
    requires s.IfStmt? && ExecOpt(w, fuel, s.init, st) == Fin(Next, s0)
    ensures MutateIf(IfConditionTrue, s).Some? && MutateIf(IfConditionFalse, s).Some?
    ensures Exec(w, fuel, MutateIf(IfConditionTrue, s).value, st) == ExecList(w, fuel, s.body, s0)
    ensures Exec(w, fuel, MutateIf(IfConditionFalse, s).value, st) == ExecOpt(w, fuel, s.els, s0)
  {
    hide ExecOpt, ExecList;
  }

  lemma Single(w: World, fuel: nat, s: Stmt, st: State)
    ensures ExecList(w, fuel, [s], st) == Exec(w, fuel, s, st)
  {
    var r := Exec(w, fuel, s, st);
    assert [s][1..] == [];
    if r.Fin? && r.ctl == Next { assert ExecList(w, fuel, [], r.st) == r; }
  }

  /** The list that an optional statement stands for. */
  function AsList(s: Option<Stmt>): seq<Stmt> { match s case None => [] case Some(t) => [t] }

  lemma Either(w: World, fuel: nat, s: Option<Stmt>, st: State)
    ensures ExecList(w, fuel, AsList(s), st) == ExecOpt(w, fuel, s, st)
  {
    if s.Some? { Single(w, fuel, s.value, st); }
  }

  /** With its condition negated an `if` runs as with its branches exchanged. */
  lemma NegatedIf(w: World, fuel: nat, s: Stmt, st: State)
    requires s.IfStmt? && MutateIf(NegateCondition, s).Some?
    ensures Exec(w, fuel, MutateIf(NegateCondition, s).value, st)
         == Exec(w, fuel, IfStmt(s.pos, s.init, s.cond, AsList(s.els), Some(BlockStmt(0, s.body))), st)
  {
    var r := ExecOpt(w, fuel, s.init, st);
    if r.Fin? && r.ctl == Next { NegatedBranch(w, fuel, s, r.st); }
  }

  lemma NegatedBranch(w: World, fuel: nat, s: Stmt, st: State)
    requires s.IfStmt?
    ensures Exec(w, fuel, IfStmt(0, None, UnaryExpr(0, NOT, s.cond), s.body, s.els), st)
         == Exec(w, fuel, IfStmt(0, None, s.cond, AsList(s.els), Some(BlockStmt(0, s.body))), st)
  {
    hide AsList;
    assert ExecOpt(w, fuel, None, st) == Fin(Next, st);
    var r := Eval(w, fuel, s.cond, st);
    if r.Val? {
      Either(w, fuel, s.els, r.st);
      assert ExecOpt(w, fuel, Some(BlockStmt(0, s.body)), r.st) == ExecList(w, fuel, s.body, r.st);
    }
  }

  /** What an `if` does before it takes a branch is the same under each of the three. */
  lemma IfStops(w: World, fuel: nat, op: Operator, s: Stmt, st: State)
    requires s.IfStmt? && op in {IfConditionTrue, IfConditionFalse, NegateCondition} && MutateIf(op, s).Some?
    requires var r := ExecOpt(w, fuel, s.init, st); r.Stop? || r.ctl != Next
    ensures Exec(w, fuel, MutateIf(op, s).value, st) == Exec(w, fuel, s, st) == ExecOpt(w, fuel, s.init, st)
  {
    hide ExecOpt, ExecList, Eval;
  }

  /** A removed check: the body runs whatever the condition says, or never. */
  lemma RemovedCheck(w: World, fuel: nat, s: Stmt, st: State)
    requires s.IfStmt?
    ensures MutateIf(ErrorCheckRemoval, s).Some? ==>
              Exec(w, fuel, MutateIf(ErrorCheckRemoval, s).value, st) == Fin(Next, st)
    ensures MutateIf(NilCheckRemoval, s).Some? ==>
              Exec(w, fuel, MutateIf(NilCheckRemoval, s).value, st) == ExecList(w, fuel, s.body, st)
  {
  }

  /** The removal of an error check matters exactly where there is an error. */
  lemma ErrorCheckMatters(w: World, fuel: nat, s: Stmt, st: State)
    requires s.IfStmt? && MutateIf(ErrorCheckRemoval, s).Some?
    ensures Exec(w, fuel, MutateIf(ErrorCheckRemoval, s).value, st) == Exec(w, fuel, s, st)
       <==> Lookup(st, "err") == NilV
  {
    var ret := s.body[0];
    assert s.body == [ret];
    Single(w, fuel, ret, st);
    assert Eval(w, fuel, s.cond, st) == Val(BoolV(Lookup(st, "err") != NilV), st);
    hide Lookup, ExecList;
  }

  /** The removal of a nil check takes the body where the check does, and where it does not as well. */
  lemma NilCheckMatters(w: World, fuel: nat, s: Stmt, st: State)
    requires s.IfStmt? && MutateIf(NilCheckRemoval, s).Some?
    ensures s.cond.BinaryExpr? && s.cond.x.Ident? && s.cond.x.name != "err" && s.body != []
    ensures s.cond.x.name != ACTIVE ==>
              Exec(w, fuel, s, st)
              == if (Lookup(st, s.cond.x.name) == NilV) == (s.cond.op == EQL)
                 then Exec(w, fuel, MutateIf(NilCheckRemoval, s).value, st) else Fin(Next, st)
  {
    hide Lookup, ExecList;
    var yes := (Lookup(st, s.cond.x.name) == NilV) == (s.cond.op == EQL);
    NilCompared(w, fuel, s.cond, st);
    hide Eval;
  }

  lemma NilCompared(w: World, fuel: nat, c: Expr, st: State)
    requires c.BinaryExpr? && (c.op == EQL || c.op == NEQ) && c.x.Ident? && c.y.Ident? && c.y.name == "nil"
    ensures c.x.name != ACTIVE ==>
              Eval(w, fuel, c, st) == Val(BoolV((Lookup(st, c.x.name) == NilV) == (c.op == EQL)), st)
  {
    assert Lookup(st, "nil") == NilV;
    hide Lookup;
  }

  /** The checks that can be removed, as they are written. */
  lemma WhichChecks(s: Stmt)
    requires s.IfStmt?
    ensures MutateIf(ErrorCheckRemoval, s).Some?
       <==> exists p, q, a, b, r, x ::
              s == IfStmt(p, None, BinaryExpr(q, Ident(a, "err"), NEQ, Ident(b, "nil")), [ReturnStmt(r, x)], None)
    ensures MutateIf(NilCheckRemoval, s).Some?
       <==> exists p, q, a, b, name, op, body :: name != "err" && (op == EQL || op == NEQ) && body != []
              && s == IfStmt(p, None, BinaryExpr(q, Ident(a, name), op, Ident(b, "nil")), body, None)
  {
    if MutateIf(ErrorCheckRemoval, s).Some? {
      var c, ret := s.cond, s.body[0];
      assert s.body == [ret];
      assert s == IfStmt(s.pos, None, BinaryExpr(c.opPos, Ident(c.x.pos, "err"), NEQ, Ident(c.y.pos, "nil")),
                         [ReturnStmt(ret.pos, ret.result)], None);
    }
    if MutateIf(NilCheckRemoval, s).Some? {
      var c := s.cond;
      assert s == IfStmt(s.pos, None, BinaryExpr(c.opPos, Ident(c.x.pos, c.x.name), c.op, Ident(c.y.pos, "nil")),
                         s.body, None);
    }
  }

  // ---- Loops ----

  function Unconditional(s: Stmt): Stmt
    requires s.ForStmt?
  {
    ForStmt(s.pos, s.init, None, s.post, s.body)
  }

  lemma {:induction false} TrueLoop(w: World, fuel: nat, s: Stmt, st: State)
    requires s.ForStmt? && s.forCond.Some? && s.forCond.value.Ident? && s.forCond.value.name == "true"
    ensures ForLoop(w, fuel, s, st) == ForLoop(w, fuel, Unconditional(s), st)
    decreases fuel
  {
    assert EvalForCond(w, fuel, s, st) == Val(BoolV(true), st) == EvalForCond(w, fuel, Unconditional(s), st);
    if fuel > 0 {
      var r := ExecList(w, fuel - 1, s.body, st);
      if r.Fin? && r.ctl in {Next, Continue} {
        var p := ExecOpt(w, fuel - 1, s.post, r.st);
        if p.Fin? && p.ctl == Next { TrueLoop(w, fuel - 1, s, p.st); }
      }
    }
  }

  lemma FalseLoop(w: World, fuel: nat, s: Stmt, st: State)
    requires s.ForStmt? && s.forCond.Some? && s.forCond.value.Ident? && s.forCond.value.name == "false"
    ensures ForLoop(w, fuel, s, st) == Fin(Next, st)
  {
    assert EvalForCond(w, fuel, s, st) == Val(BoolV(false), st);
  }

  /** With its condition made true a loop runs as one without a condition; made false, it ends after its init. */
  lemma DecidedFor(w: World, fuel: nat, s: Stmt, st: State)
    requires s.ForStmt? && s.forCond.Some?
    ensures MutateFor(ForConditionTrue, s).Some? && MutateFor(ForConditionFalse, s).Some?
    ensures Exec(w, fuel, MutateFor(ForConditionTrue, s).value, st) == Exec(w, fuel, Unconditional(s), st)
    ensures Exec(w, fuel, MutateFor(ForConditionFalse, s).value, st) == ExecOpt(w, fuel, s.init, st)
  {
    hide ExecOpt, ForLoop, EvalForCond;
    var t, f := MutateFor(ForConditionTrue, s).value, MutateFor(ForConditionFalse, s).value;
    var r := ExecOpt(w, fuel, s.init, st);
    if r.Fin? && r.ctl == Next {
      TrueLoop(w, fuel, t, r.st);
      FalseLoop(w, fuel, f, r.st);
      assert Unconditional(t) == Unconditional(s);
    }
  }

  function WithBody(s: Stmt, body: seq<Stmt>): Stmt
    requires s.ForStmt? || s.RangeStmt?
  {
    match s
    case ForStmt(p, i, c, q, _) => ForStmt(p, i, c, q, body)
    case RangeStmt(p, k, v, x, _) => RangeStmt(p, k, v, x, body)
  }

  /** The loop whose body starts with `continue`. */
  function Skipping(s: Stmt): Stmt
    requires s.ForStmt? || s.RangeStmt?
  {
    WithBody(s, [BranchStmt(0, false)] + s.body)
  }

  lemma Continues(w: World, fuel: nat, l: seq<Stmt>, st: State)
    ensures ExecList(w, fuel, [BranchStmt(0, false)] + l, st) == Fin(Continue, st)
  {
  }

  lemma {:induction false} EmptyFor(w: World, fuel: nat, s: Stmt, st: State)
    requires s.ForStmt?
    ensures ForLoop(w, fuel, WithBody(s, []), st) == ForLoop(w, fuel, Skipping(s), st)
    decreases fuel
  {
    var r := EvalForCond(w, fuel, s, st);
    if r.Val? && fuel > 0 {
      Continues(w, fuel - 1, s.body, r.st);
      var p := ExecOpt(w, fuel - 1, s.post, r.st);
      if p.Fin? && p.ctl == Next { EmptyFor(w, fuel - 1, s, p.st); }
    }
  }

  lemma {:induction false} EmptyRange(w: World, fuel: nat, s: Stmt, items: seq<Value>, i: nat, st: State)
    requires s.RangeStmt? && i <= |items|
    ensures RangeLoop(w, fuel, WithBody(s, []), items, i, st) == RangeLoop(w, fuel, Skipping(s), items, i, st)
    decreases |items| - i
  {
    if i < |items| {
      var s1 := StoreName(StoreName(st, s.key, IntV(i)), s.value, items[i]);
      Continues(w, fuel, s.body, s1);
      EmptyRange(w, fuel, s, items, i + 1, s1);
    }
  }

  /** With its body removed a loop runs as if the body began with `continue`. */
  lemma EmptiedLoop(w: World, fuel: nat, s: Stmt, st: State)
    requires s.ForStmt? || s.RangeStmt?
    ensures var n := MutateStmt(LoopBodyRemoval, s, false);
            n.Some? && Exec(w, fuel, n.value, st) == Exec(w, fuel, Skipping(s), st)
  {
    match s
    case ForStmt(_, _, _, _, _) =>
      var r := ExecOpt(w, fuel, s.init, st);
      if r.Fin? && r.ctl == Next { EmptyFor(w, fuel, s, r.st); }
    case RangeStmt(_, _, _, x, _) =>
      var r := Eval(w, fuel, x, st);
      if r.Val? && Elements(r.v).Some? { EmptyRange(w, fuel, s, Elements(r.v).value, 0, r.st); }
  }

  lemma {:induction false} EndsInBreak(w: World, fuel: nat, l: seq<Stmt>, st: State)
    ensures var r := ExecList(w, fuel, l, st);
            ExecList(w, fuel, l + [BranchStmt(0, true)], st) ==
            if r.Fin? && r.ctl == Next then Fin(Break, r.st) else r
    decreases |l|
  {
    if l != [] {
      assert (l + [BranchStmt(0, true)])[1..] == l[1..] + [BranchStmt(0, true)];
      var r := Exec(w, fuel, l[0], st);
      if r.Fin? && r.ctl == Next { EndsInBreak(w, fuel, l[1..], r.st); }
    }
  }

  /** A loop with a break at the end of its body ends where the first pass through the body falls off its end. */
  lemma FirstPass(w: World, fuel: nat, s: Stmt, st: State, s0: State, s1: State, s2: State)
    requires s.ForStmt? && fuel > 0 && MutateFor(LoopBreakFirst, s).Some?
    requires ExecOpt(w, fuel, s.init, st) == Fin(Next, s0)
    requires EvalForCond(w, fuel, s, s0) == Val(BoolV(true), s1)
    requires ExecList(w, fuel - 1, s.body, s1) == Fin(Next, s2)
    ensures Exec(w, fuel, MutateFor(LoopBreakFirst, s).value, st) == Fin(Next, s2)
  {
    EndsInBreak(w, fuel - 1, s.body, s1);
  }

  lemma FirstElement(w: World, fuel: nat, s: Stmt, st: State, v: Value, s1: State, s2: State)
    requires s.RangeStmt? && MutateRange(LoopBreakFirst, s).Some?
    requires Eval(w, fuel, s.x, st) == Val(v, s1) && Elements(v).Some? && Elements(v).value != []
    requires ExecList(w, fuel, s.body, StoreName(StoreName(s1, s.key, IntV(0)), s.value, Elements(v).value[0]))
          == Fin(Next, s2)
    ensures Exec(w, fuel, MutateRange(LoopBreakFirst, s).value, st) == Fin(Next, s2)
  {
    EndsInBreak(w, fuel, s.body, StoreName(StoreName(s1, s.key, IntV(0)), s.value, Elements(v).value[0]));
  }

  // ---- Assignments and calls ----

  /** What a changed assignment of a number `v` stores over `c`: a sum for `=`, and the inverse of a compound one. */
  ghost predicate Assigned(tok: AssignTok, name: string, c: int, v: int, r: ExecResult, st: State) {
    match tok
    case SetTok => r == Fin(Next, Store(st, name, IntV(Wrap(c + v))))
    case AddTok => r == Fin(Next, Store(st, name, IntV(Wrap(c - v))))
    case SubTok => r == Fin(Next, Store(st, name, IntV(Wrap(c + v))))
    case MulTok =>
      if v == 0 then r == Stop(Panicked, st)
      else exists q :: Quotient(c, v, q) && r == Fin(Next, Store(st, name, IntV(Wrap(q))))
    case QuoTok => r == Fin(Next, Store(st, name, IntV(Wrap(c * v))))
    case DefineTok => false
  }

  lemma FlippedAssignment(w: World, fuel: nat, s: Stmt, st: State, v: int, s1: State)
    requires s.AssignStmt? && MutateStmt(AssignmentOperator, s, false).Some?
    requires Eval(w, fuel, s.rhs, st) == Val(IntV(v), s1) && Lookup(s1, s.lhs.id).IntV?
    ensures Assigned(s.tok, s.lhs.id, Lookup(s1, s.lhs.id).n, v,
                     Exec(w, fuel, MutateStmt(AssignmentOperator, s, false).value, st), s1)
  {
    hide Eval, Lookup, Store, Wrap, Quotient, TruncDiv;
    if s.tok == MulTok && v != 0 { TruncDivIsQuotient(Lookup(s1, s.lhs.id).n, v); }
  }

  /** A flipped increment takes one off, a flipped decrement adds one. */
  lemma FlippedIncDec(w: World, fuel: nat, s: Stmt, st: State)
    requires s.IncDecStmt? && Lookup(st, s.target.id).IntV?
    ensures var n, c := MutateStmt(IncDecFlip, s, false), Lookup(st, s.target.id).n;
            n.Some? && Exec(w, fuel, n.value, st)
                    == Fin(Next, Store(st, s.target.id, IntV(Wrap(if s.inc then c - 1 else c + 1))))
  {
    hide Lookup, Store, Wrap;
  }

  /** A removed call does nothing; a panic that is removed would have stopped the run. */
  lemma RemovedCall(w: World, fuel: nat, op: Operator, x: Expr, st: State)
    requires op.FunctionCallRemoval? || op.PanicRemoval?
    requires MutateStmt(op, ExprStmt(x), false).Some?
    ensures Exec(w, fuel, MutateStmt(op, ExprStmt(x), false).value, st) == Fin(Next, st)
    ensures op.PanicRemoval? ==> Exec(w, fuel, ExprStmt(x), st).Stop?
  {
    if op.PanicRemoval? { Panics(w, fuel, x, st); }
  }

  lemma Panics(w: World, fuel: nat, x: Expr, st: State)
    requires x.CallExpr? && x.fun == "panic"
    ensures Eval(w, fuel, x, st).Halt?
  {
    var r := EvalArgs(w, fuel, x.args, st);
    if r.Vals? { assert Invoke(w, fuel, "panic", r.vs, r.st, x) == Halt(Panicked, r.st); }
  }

  // ---- Returns, clauses and declarations ----

  /** No variable is spelled like the number `0`. */
  predicate NoNumberNames(st: State) { "0" !in st.vars && "0" !in st.globals }

  /** A zero-value mutant returns the zero of the literal it replaces, and the interface mutant returns nil. */
  lemma ZeroReturned(w: World, fuel: nat, op: Operator, x: Expr, inCase: bool, st: State)
    requires MutateStmt(op, ReturnStmt(0, Some(x)), inCase).Some? && NoNumberNames(st)
    ensures Exec(w, fuel, MutateStmt(op, ReturnStmt(0, Some(x)), inCase).value, st)
         == Fin(Return(
              if op.ZeroValueReturnNumeric? then
                if x.BasicLit? && x.lit.FloatLit? then StrV("0.0") else IntV(0)
              else if op.ZeroValueReturnString? then StrV("")
              else if op.ZeroValueReturnBool? then BoolV(false)
              else NilV), st)
  {
  }

  const NUMBERS: set<string> :=
    {"int", "int8", "int16", "int32", "int64", "uint", "uint8", "uint16", "uint32", "uint64"}

  /** A clause mutant returns the zero value of the result type, and nil for every type it does not know. */
  lemma ZeroOfType(w: World, fuel: nat, t: string, st: State)
    ensures Eval(w, fuel, ZeroFor(t), st)
         == Val(if t in NUMBERS then IntV(0)
                else if t == "float32" || t == "float64" then StrV("0.0")
                else if t == "string" || t == "" then StrV("")
                else if t == "bool" then BoolV(false)
                else NilV, st)
  {
  }

  const WITHOUT_LITERAL: set<string> := {"uintptr", "complex64", "complex128", "byte", "rune"}

  /**
   A result type has no nil exactly if its zero value is known or it is one of five others; for these five a clause
   mutant returns nil all the same, and does not compile.
   */
  lemma TypesWithoutNil(t: string)
    ensures !IsNilableType(t)
       <==> t in NUMBERS || t in {"float32", "float64", "string", "bool"} || t in WITHOUT_LITERAL
    ensures !IsNilableType(t) ==> (IsNilExpr(ZeroFor(t)) <==> t in WITHOUT_LITERAL)
  {
  }

  /** An emptied declaration keeps its name and parameters, and a call of it does nothing and answers nothing. */
  lemma EmptiedDeclaration(w: World, fuel: nat, f: FuncDecl, vs: seq<Value>, st: State, at: Expr)
    requires f.name != "panic" && f.name != TRAP && fuel > 0
    ensures MutateFunc(EmptyBody, f).Some? <==> f.body != [] && !f.hasResult && f.name != "main" && f.name != "init"
    ensures MutateFunc(EmptyBody, f).Some? && FindFunc(w.funcs, f.name) == MutateFunc(EmptyBody, f) ==>
              Invoke(w, fuel, f.name, vs, st, at) == Val(NilV, st)
    ensures MutateFunc(EmptyBody, f).Some? ==>
              MutateFunc(EmptyBody, f).value.name == f.name && MutateFunc(EmptyBody, f).value.params == f.params
  {
  }
}
