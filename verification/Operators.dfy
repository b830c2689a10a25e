/**
 The mutation operators whose nodes are in GoAst, as `ApplyOperator` calls them: with a
 return type and the file, never with the parent node.  `inCase` stands for what the
 file tells an operator, namely that the node lies inside a case clause.
 */
module Operators {
  import opened Wrappers
  import opened GoAst

  datatype Operator =
    // expressions
    | ArithmeticFlip | ConditionNegation | BoundaryValue | LogicalOperator | BinaryMath | SignToggle
    | ConstantReplacement
    | VariableReplacement(compatible: string)
    // statements
    | IfConditionTrue | IfConditionFalse | ForConditionTrue | ForConditionFalse
    | NegateCondition | ErrorCheckRemoval | NilCheckRemoval
    | LoopBodyRemoval | LoopBreakFirst | LoopBreakRemoval
    | IncDecFlip | AssignmentOperator | FunctionCallRemoval | PanicRemoval
    | ZeroValueReturnNumeric | ZeroValueReturnString | ZeroValueReturnBool
    | InterfaceReturns | EarlyReturnRemoval
    // clauses and declarations
    | SwitchRemoveDefault | EmptyBody

  // ---- Token tables ----

  const ARITHMETIC_FLIP_PAIRS: map<Token, Token> := map[ADD := SUB, SUB := ADD, MUL := QUO, QUO := MUL]
  const COMPARISON_NEGATION_PAIRS: map<Token, Token> :=
    map[EQL := NEQ, NEQ := EQL, LSS := GEQ, LEQ := GTR, GTR := LEQ, GEQ := LSS]
  const BOUNDARY_VALUE_PAIRS: map<Token, Token> := map[LSS := LEQ, LEQ := LSS, GTR := GEQ, GEQ := GTR]
  const LOGICAL_OPERATOR_PAIRS: map<Token, Token> := map[LAND := LOR, LOR := LAND]
  const BINARY_MATH_PAIRS: map<Token, Token> := map[REM := MUL, AND := OR, OR := AND, SHL := SHR, SHR := SHL]
  const SIGN_TOGGLE_PAIRS: map<Token, Token> := map[SUB := ADD, ADD := SUB]

  /** The table of a token-swapping operator on binary expressions. */
  function BinaryPairs(op: Operator): map<Token, Token> {
    match op
    case ArithmeticFlip => ARITHMETIC_FLIP_PAIRS
    case ConditionNegation => COMPARISON_NEGATION_PAIRS
    case BoundaryValue => BOUNDARY_VALUE_PAIRS
    case LogicalOperator => LOGICAL_OPERATOR_PAIRS
    case BinaryMath => BINARY_MATH_PAIRS
    case _ => map[]
  }

  // ---- Expressions ----

  function MutateExpr(op: Operator, e: Expr): Option<Expr> {
    match e
    case BinaryExpr(_, x, tok, y) =>
      if tok in BinaryPairs(op) then Some(BinaryExpr(0, x, BinaryPairs(op)[tok], y)) else None
    case UnaryExpr(_, tok, x) =>
      if op.SignToggle? && tok in SIGN_TOGGLE_PAIRS then Some(UnaryExpr(0, SIGN_TOGGLE_PAIRS[tok], x)) else None
    case Ident(pos, name) =>
      if op.VariableReplacement? && name != "_" && op.compatible != "" then Some(Ident(pos, op.compatible)) else None
    // constant_replacement asks for the parent of the literal, which is never passed
    case _ => None
  }

  predicate IsStringLiteral(e: Expr) { e.BasicLit? && e.lit.StringLit? }

  /** What generation checks, which never sees the parent. */
  predicate CanApplyExpr(op: Operator, e: Expr) {
    match op
    case ArithmeticFlip =>
      e.BinaryExpr? && e.op in ARITHMETIC_FLIP_PAIRS && !(e.op == ADD && (IsStringLiteral(e.x) || IsStringLiteral(e.y)))
    case ConditionNegation => e.BinaryExpr? && e.op in COMPARISON_NEGATION_PAIRS
    case BoundaryValue => e.BinaryExpr? && e.op in BOUNDARY_VALUE_PAIRS
    case LogicalOperator => e.BinaryExpr? && e.op in LOGICAL_OPERATOR_PAIRS
    case BinaryMath => e.BinaryExpr? && e.op in BINARY_MATH_PAIRS
    case SignToggle => e.UnaryExpr? && e.op in SIGN_TOGGLE_PAIRS
    // the replacement is a variable of the enclosing function
    case VariableReplacement(c) => e.Ident? && e.name != "_" && c != "" && c != ACTIVE
    // constant_replacement asks for the parent
    case _ => false
  }

  // ---- Statements ----

  /** `Pos()` of an expression: where its leftmost token stands, and nowhere for a wrapper. */
  function LeftPos(e: Expr): nat {
    match e
    case Ident(p, _) => p
    case BasicLit(p, _) => p
    case UnaryExpr(p, _, _) => p
    case BinaryExpr(_, x, _, _) => LeftPos(x)
    case ParenExpr(p, _) => p
    case CallExpr(p, _, _) => p
    case FuncLitCall(_) => 0
  }

  predicate IsNumericLiteral(e: Expr) {
    match e
    case BasicLit(_, l) => l.IntLit? || l.FloatLit?
    case ParenExpr(_, x) => IsNumericLiteral(x)
    case _ => false
  }

  predicate IsTextLiteral(e: Expr) {
    match e
    case BasicLit(_, l) => l.StringLit?
    case ParenExpr(_, x) => IsTextLiteral(x)
    case _ => false
  }

  predicate IsBoolLiteral(e: Expr) { e.Ident? && (e.name == "true" || e.name == "false") }

  predicate IsInterfaceLiteral(e: Expr) {
    match e
    case BasicLit(_, l) => l.StringLit? || l.CharLit? || l.IntLit?
    case ParenExpr(_, x) => IsInterfaceLiteral(x)
    case _ => false
  }

  function NumericZeroValue(e: Expr): Expr {
    match e
    case BasicLit(_, IntLit(_)) => BasicLit(0, IntLit(0))
    case BasicLit(_, FloatLit(_)) => BasicLit(0, FloatLit("0.0"))
    case _ => Ident(0, "0")
  }

  predicate IsErrNotNilCheck(s: Stmt)
    requires s.IfStmt?
  {
    && s.els.None? && s.init.None?
    && s.cond.BinaryExpr? && s.cond.op == NEQ
    && s.cond.x.Ident? && s.cond.x.name == "err"
    && s.cond.y.Ident? && s.cond.y.name == "nil"
    && |s.body| == 1 && s.body[0].ReturnStmt?
  }

  predicate IsSimpleNilCheck(s: Stmt)
    requires s.IfStmt?
  {
    && s.init.None? && s.els.None?
    && s.cond.BinaryExpr? && (s.cond.op == NEQ || s.cond.op == EQL)
    && s.cond.x.Ident? && s.cond.x.name != "err"
    && s.cond.y.Ident? && s.cond.y.name == "nil"
    && s.body != []
  }

  function ReturnOf(e: Expr): Option<Stmt> { Some(ReturnStmt(0, Some(e))) }

  function MutateReturn(op: Operator, result: Expr, inCase: bool): Option<Stmt> {
    match op
    case ZeroValueReturnNumeric =>
      if !inCase && IsNumericLiteral(result) then ReturnOf(NumericZeroValue(result)) else None
    case ZeroValueReturnString =>
      if !inCase && IsTextLiteral(result) then ReturnOf(BasicLit(0, StringLit(""))) else None
    case ZeroValueReturnBool =>
      if !inCase && IsBoolLiteral(result) then ReturnOf(Ident(0, "false")) else None
    case InterfaceReturns => ReturnOf(Ident(0, "nil"))
    // early_return_removal asks for the parent of the return, which is never passed
    case _ => None
  }

  function MutateIf(op: Operator, s: Stmt): Option<Stmt>
    requires s.IfStmt?
  {
    match op
    case IfConditionTrue => Some(IfStmt(s.pos, s.init, Ident(LeftPos(s.cond), "true"), s.body, s.els))
    case IfConditionFalse => Some(IfStmt(s.pos, s.init, Ident(LeftPos(s.cond), "false"), s.body, s.els))
    case NegateCondition =>
      if s.cond.UnaryExpr? then None else Some(IfStmt(0, s.init, UnaryExpr(0, NOT, s.cond), s.body, s.els))
    case ErrorCheckRemoval => if IsErrNotNilCheck(s) then Some(EmptyStmt(0)) else None
    case NilCheckRemoval => if IsSimpleNilCheck(s) then Some(BlockStmt(0, s.body)) else None
    case _ => None
  }

  function MutateFor(op: Operator, s: Stmt): Option<Stmt>
    requires s.ForStmt?
  {
    match op
    case ForConditionTrue =>
      if s.forCond.None? then None else Some(ForStmt(s.pos, s.init, Some(Ident(LeftPos(s.forCond.value), "true")),
          s.post, s.body))
    case ForConditionFalse =>
      if s.forCond.None? then None else Some(ForStmt(s.pos, s.init, Some(Ident(LeftPos(s.forCond.value), "false")),
          s.post, s.body))
    case LoopBodyRemoval => Some(ForStmt(s.pos, s.init, s.forCond, s.post, []))
    case LoopBreakFirst => if s.body == [] then None
        else Some(ForStmt(s.pos, s.init, s.forCond, s.post, s.body + [BranchStmt(0, true)]))
    case _ => None
  }

  function MutateRange(op: Operator, s: Stmt): Option<Stmt>
    requires s.RangeStmt?
  {
    match op
    case LoopBodyRemoval => Some(RangeStmt(s.pos, s.key, s.value, s.x, []))
    case LoopBreakFirst => if s.body == [] then None
        else Some(RangeStmt(s.pos, s.key, s.value, s.x, s.body + [BranchStmt(0, true)]))
    case _ => None
  }

  function FlipAssign(tok: AssignTok): Option<AssignTok> {
    match tok
    case SetTok => Some(AddTok)
    case AddTok => Some(SubTok)
    case SubTok => Some(AddTok)
    case MulTok => Some(QuoTok)
    case QuoTok => Some(MulTok)
    case DefineTok => None
  }

  /** A call expression in the eyes of the operators; a wrapper is one too. */
  predicate IsCall(e: Expr) { e.CallExpr? || e.FuncLitCall? }

  function MutateStmt(op: Operator, s: Stmt, inCase: bool): Option<Stmt> {
    match s
    case IfStmt(_, _, _, _, _) => MutateIf(op, s)
    case ForStmt(_, _, _, _, _) => MutateFor(op, s)
    case RangeStmt(_, _, _, _, _) => MutateRange(op, s)
    case ReturnStmt(_, Some(result)) => MutateReturn(op, result, inCase)
    case AssignStmt(_, lhs, tok, rhs) =>
      if op.AssignmentOperator? && FlipAssign(tok).Some? then Some(AssignStmt(0, lhs, FlipAssign(tok).value, rhs))
          else None
    case IncDecStmt(_, target, inc) => if op.IncDecFlip? then Some(IncDecStmt(0, target, !inc)) else None
    case ExprStmt(x) =>
      if op.FunctionCallRemoval? && IsCall(x) then Some(EmptyStmt(0))
      else if op.PanicRemoval? && x.CallExpr? && x.fun == "panic" then Some(EmptyStmt(0))
      else None
    // loop_break_removal only accepts a branch without a token, which no source has
    case _ => None
  }

  predicate IsSafeCondition(e: Expr) {
    match e
    case Ident(_, _) => true
    case BasicLit(_, _) => true
    case ParenExpr(_, x) => IsSafeCondition(x)
    case UnaryExpr(_, op, x) => op == NOT && IsSafeCondition(x)
    case BinaryExpr(_, x, op, y) =>
      && op in {EQL, NEQ, LSS, LEQ, GTR, GEQ, LAND, LOR}
      && IsSafeCondition(x) && IsSafeCondition(y)
    case CallExpr(_, _, _) => true
    case FuncLitCall(_) => true
  }

  predicate CanReplaceIfCondition(s: Stmt) {
    && s.IfStmt?
    && (s.init.Some? ==> s.init.value.AssignStmt? && s.init.value.tok != DefineTok)
    && IsSafeCondition(s.cond)
  }

  predicate CanFlipAssign(s: Stmt) {
    && s.AssignStmt?
    && FlipAssign(s.tok).Some?
    && (s.tok == SetTok ==>
          match s.rhs
          case BasicLit(_, l) => l.IntLit? || l.FloatLit?
          case Ident(_, name) => name !in {"true", "false", "nil"}
          case ParenExpr(_, _) => false
          case _ => true)
  }

  /** What an operator asks of the statement itself, before any of it is visited. */
  predicate Suits(op: Operator, s: Stmt) {
    match op
    case IfConditionTrue => CanReplaceIfCondition(s)
    case IfConditionFalse => CanReplaceIfCondition(s)
    case ForConditionTrue => s.ForStmt? && s.forCond.Some? && IsSafeCondition(s.forCond.value)
    case ForConditionFalse => s.ForStmt? && s.forCond.Some? && IsSafeCondition(s.forCond.value)
    case NegateCondition => s.IfStmt? && !s.cond.UnaryExpr?
    case ErrorCheckRemoval => s.IfStmt? && IsErrNotNilCheck(s)
    case NilCheckRemoval => s.IfStmt? && IsSimpleNilCheck(s)
    case LoopBodyRemoval => s.ForStmt? || s.RangeStmt?
    case LoopBreakFirst => s.ForStmt? || s.RangeStmt?
    case IncDecFlip => s.IncDecStmt?
    case AssignmentOperator => CanFlipAssign(s)
    case FunctionCallRemoval => s.ExprStmt? && IsCall(s.x)
    case PanicRemoval => s.ExprStmt? && s.x.CallExpr? && s.x.fun == "panic"
    case ZeroValueReturnNumeric => s.ReturnStmt? && s.result.Some? && IsNumericLiteral(s.result.value)
    case ZeroValueReturnString => s.ReturnStmt? && s.result.Some? && IsTextLiteral(s.result.value)
    case ZeroValueReturnBool => s.ReturnStmt? && s.result.Some? && IsBoolLiteral(s.result.value)
    case InterfaceReturns => s.ReturnStmt? && s.result.Some? && IsInterfaceLiteral(s.result.value)
    // early_return_removal asks for the parent, loop_break_removal for a branch without a token
    case _ => false
  }

  /**
   What generation checks of a statement.  It sees the return type but neither the parent nor the file, so it does not
   notice that a return stands in a case clause.
   */
  predicate CanApplyStmt(op: Operator, s: Stmt, returnType: string) {
    Suits(op, s) && (op.InterfaceReturns? ==> returnType == "interface{}")
  }

  // ---- Clauses and declarations ----

  /** switch_remove_default; swap_case_bodies is rejected before any transformation. */
  function MutateClause(op: Operator, c: Clause): Option<Clause> {
    if op.SwitchRemoveDefault? then Some(c.(body := [])) else None
  }

  predicate CanEmptyBody(f: FuncDecl) {
    f.body != [] && f.name != "init" && f.name != "main" && !f.hasResult
  }

  function MutateFunc(op: Operator, f: FuncDecl): Option<FuncDecl> {
    if op.EmptyBody? && CanEmptyBody(f) then Some(f.(pos := 0, body := [])) else None
  }
}
