/**
 The handlers that turn a node and its mutants into one node with guards.

 Each loop of the handlers is a method here, proved against the function that the
 visitor and the proofs use.
 */
module Schemata {
  import opened Wrappers
  import opened GoAst
  import opened Operators

  datatype MutantForSite = MutantForSite(id: int, op: Operator, returnType: string)

  datatype NodeType =
    | NTUnknown
    | NTBinaryExpr | NTUnaryExpr | NTCallExpr | NTIdent | NTBasicLit
    | NTCaseClause | NTIfStmt | NTForStmt | NTRangeStmt | NTAssignStmt | NTIncDecStmt
    | NTSwitchStmt | NTReturnStmt | NTBranchStmt | NTExprStmt | NTDeclStmt | NTErrStmt | NTBlockStmt
    | NTFuncDecl
    | NTMax

  function TypeOfStmt(s: Stmt): NodeType {
    match s
    case ExprStmt(_) => NTExprStmt
    case AssignStmt(_, _, _, _) => NTAssignStmt
    case IncDecStmt(_, _, _) => NTIncDecStmt
    case IfStmt(_, _, _, _, _) => NTIfStmt
    case ForStmt(_, _, _, _, _) => NTForStmt
    case RangeStmt(_, _, _, _, _) => NTRangeStmt
    case SwitchStmt(_, _, _) => NTSwitchStmt
    case ReturnStmt(_, _) => NTReturnStmt
    case BranchStmt(_, _) => NTBranchStmt
    case BlockStmt(_, _) => NTBlockStmt
    case ConstDecl(_, _, _) => NTDeclStmt
    case EmptyStmt(_) => NTErrStmt
  }

  // ---- Expressions ----

  /** A mutant that produced a node. */
  datatype Placed<N> = Placed(id: int, op: Operator, node: N)

  /** The node that runs when `k` is active. */
  function NodeFor<N>(ps: seq<Placed<N>>, k: int): Option<Placed<N>> {
    if ps == [] then None else if ps[0].id == k then Some(ps[0]) else NodeFor(ps[1..], k)
  }

  function ExprResults(original: Expr, ms: seq<MutantForSite>): seq<Placed<Expr>> {
    if ms == [] then []
    else
      match MutateExpr(ms[0].op, original)
      case None => ExprResults(original, ms[1..])
      case Some(e) => [Placed(ms[0].id, ms[0].op, e)] + ExprResults(original, ms[1..])
  }

  function Return(e: Expr): Stmt { ReturnStmt(0, Some(e)) }

  /** `if activeMutantID == id { return e }` */
  function GuardStep(id: int, e: Expr): Stmt { IfStmt(0, None, Guard(id), [Return(e)], None) }

  function GuardSteps(ps: seq<Placed<Expr>>): seq<Stmt> {
    if ps == [] then [] else [GuardStep(ps[0].id, ps[0].node)] + GuardSteps(ps[1..])
  }

  /** The immediately called literal that picks a mutated expression or the original. */
  function WrapExpr(ps: seq<Placed<Expr>>, original: Expr): Expr {
    if ps == [] then original else FuncLitCall(GuardSteps(ps) + [Return(original)])
  }

  function HandleExpr(original: Expr, ms: seq<MutantForSite>): Expr {
    WrapExpr(ExprResults(original, ms), original)
  }

  lemma GuardStepsSnoc(ps: seq<Placed<Expr>>, p: Placed<Expr>)
    ensures GuardSteps(ps + [p]) == GuardSteps(ps) + [GuardStep(p.id, p.node)]
  {
    if ps == [] {
      assert ps + [p] == [p];
    } else {
      assert (ps + [p])[1..] == ps[1..] + [p];
      GuardStepsSnoc(ps[1..], p);
    }
  }

  lemma ExprResultsSnoc(original: Expr, ms: seq<MutantForSite>, m: MutantForSite)
    ensures ExprResults(original, ms + [m]) == ExprResults(original, ms) + ExprResults(original, [m])
  {
    if ms == [] {
      assert ms + [m] == [m];
    } else {
      assert (ms + [m])[1..] == ms[1..] + [m];
      ExprResultsSnoc(original, ms[1..], m);
    }
  }

  method WrapExpressionMulti(original: Expr, ms: seq<MutantForSite>) returns (r: Expr)
    ensures r == HandleExpr(original, ms)
  {
    var stmts: seq<Stmt> := [];
    for i := 0 to |ms|
      invariant stmts == GuardSteps(ExprResults(original, ms[..i]))
    {
      var m := ms[i];
      var mutated := MutateExpr(m.op, original);
      ghost var done := ExprResults(original, ms[..i]);
      ExprResultsSnoc(original, ms[..i], m);
      assert ms[..i + 1] == ms[..i] + [m];
      assert ExprResults(original, ms[..i + 1]) == done + ExprResults(original, [m]);
      assert ExprResults(original, [m][1..]) == [];
      if mutated.None? {
        assert done + [] == done;
      } else {
        assert ExprResults(original, [m]) == [Placed(m.id, m.op, mutated.value)];
        GuardStepsSnoc(done, Placed(m.id, m.op, mutated.value));
        stmts := stmts + [GuardStep(m.id, mutated.value)];
      }
    }
    assert ms[..|ms|] == ms;
    if |stmts| == 0 { return original; }
    r := FuncLitCall(stmts + [Return(original)]);
  }

  // ---- Statements ----

  function StmtResults(original: Stmt, ms: seq<MutantForSite>, inCase: bool): seq<Placed<Stmt>> {
    if ms == [] then []
    else
      match MutateStmt(ms[0].op, original, inCase)
      case None => StmtResults(original, ms[1..], inCase)
      case Some(s) => [Placed(ms[0].id, ms[0].op, s)] + StmtResults(original, ms[1..], inCase)
  }

  function IfGuard(id: int, mutated: Stmt, els: Stmt): Stmt {
    IfStmt(0, None, Guard(id), [mutated], Some(els))
  }

  function Chain(ps: seq<Placed<Stmt>>, original: Stmt): Stmt {
    if ps == [] then BlockStmt(0, [original]) else IfGuard(ps[0].id, ps[0].node, Chain(ps[1..], original))
  }

  /** The if/else chain over several mutants, inside a block of its own. */
  function WrapStatement(ps: seq<Placed<Stmt>>, original: Stmt): Stmt {
    if ps == [] then original else BlockStmt(0, [Chain(ps, original)])
  }

  method BuildIfElseChain(original: Stmt, ps: seq<Placed<Stmt>>) returns (r: Stmt)
    ensures r == WrapStatement(ps, original)
  {
    if |ps| == 0 { return original; }
    var chain: Stmt := BlockStmt(0, [original]);
    var i := |ps|;
    while i > 0
      invariant 0 <= i <= |ps|
      invariant chain == Chain(ps[i..], original)
    {
      i := i - 1;
      assert ps[i..][1..] == ps[i + 1..];
      chain := IfGuard(ps[i].id, ps[i].node, chain);
    }
    assert ps[0..] == ps;
    r := BlockStmt(0, [chain]);
  }

  function HandleStmt(original: Stmt, ms: seq<MutantForSite>, inCase: bool): Stmt {
    var ps := StmtResults(original, ms, inCase);
    if ps == [] then original
    else if |ms| == 1 then IfGuard(ps[0].id, ps[0].node, BlockStmt(0, [original]))
    else WrapStatement(ps, original)
  }

  // ---- Returns ----

  predicate IsNilExpr(e: Expr) { e.Ident? && e.name == "nil" }

  const NON_NILABLE: set<string> :=
    {"bool", "int", "int8", "int16", "int32", "int64", "uint", "uint8", "uint16", "uint32", "uint64", "uintptr",
     "float32", "float64", "complex64", "complex128", "string", "byte", "rune"}

  predicate IsNilableType(t: string) { t !in NON_NILABLE }

  /** A nil where the declared type has no nil is dropped before it poisons the package. */
  predicate UnsafeNil(e: Expr, returnType: string) { IsNilExpr(e) && !IsNilableType(returnType) }

  /** The expression a mutated return contributes. */
  function ReturnedExpr(mutated: Option<Stmt>, returnType: string): Option<Expr> {
    if mutated.Some? && mutated.value.ReturnStmt? && mutated.value.result.Some?
       && !UnsafeNil(mutated.value.result.value, returnType)
    then mutated.value.result else None
  }

  function ReturnResults(original: Stmt, ms: seq<MutantForSite>, returnType: string, inCase: bool): seq<Placed<Expr>> {
    if ms == [] then []
    else
      match ReturnedExpr(MutateStmt(ms[0].op, original, inCase), returnType)
      case None => ReturnResults(original, ms[1..], returnType, inCase)
      case Some(e) => [Placed(ms[0].id, ms[0].op, e)] + ReturnResults(original, ms[1..], returnType, inCase)
  }

  function WrapReturn(ps: seq<Placed<Expr>>, original: Stmt): Stmt
    requires original.ReturnStmt? && original.result.Some?
  {
    if ps == [] then original else ReturnStmt(0, Some(WrapExpr(ps, original.result.value)))
  }

  function HandleReturn(original: Stmt, ms: seq<MutantForSite>, returnType: string, inCase: bool): Stmt
    requires original.ReturnStmt?
  {
    if original.result.None? then original
    else if |ms| == 1 then
      match MutateStmt(ms[0].op, original, inCase)
      case None => original
      case Some(m) =>
        if m.ReturnStmt? && m.result.Some? then
          if UnsafeNil(m.result.value, returnType) then original
          else WrapReturn([Placed(ms[0].id, ms[0].op, m.result.value)], original)
        else m
    else WrapReturn(ReturnResults(original, ms, returnType, inCase), original)
  }

  /** No operator answers a return with anything but a return of a value, so one mutant is no special case. */
  lemma HandleReturnUniform(original: Stmt, ms: seq<MutantForSite>, returnType: string, inCase: bool)
    requires original.ReturnStmt? && original.result.Some?
    ensures HandleReturn(original, ms, returnType, inCase)
            == WrapReturn(ReturnResults(original, ms, returnType, inCase), original)
  {
    if |ms| == 1 {
      var rest := ms[1..];
      assert ReturnResults(original, rest, returnType, inCase) == [];
      var mutated := MutateStmt(ms[0].op, original, inCase);
      assert mutated == MutateReturn(ms[0].op, original.result.value, inCase);
      assert mutated.Some? ==> mutated.value.ReturnStmt? && mutated.value.result.Some?;
      var e := ReturnedExpr(mutated, returnType);
      if e.Some? {
        assert [Placed(ms[0].id, ms[0].op, e.value)] + [] == [Placed(ms[0].id, ms[0].op, e.value)];
      }
    }
  }

  lemma ReturnResultsSnoc(original: Stmt, ms: seq<MutantForSite>, m: MutantForSite, returnType: string, inCase: bool)
    ensures ReturnResults(original, ms + [m], returnType, inCase)
         == ReturnResults(original, ms, returnType, inCase) + ReturnResults(original, [m], returnType, inCase)
  {
    if ms == [] {
      assert ms + [m] == [m];
    } else {
      assert (ms + [m])[1..] == ms[1..] + [m];
      ReturnResultsSnoc(original, ms[1..], m, returnType, inCase);
    }
  }

  method HandleReturnStmt(original: Stmt, ms: seq<MutantForSite>, returnType: string, inCase: bool) returns (r: Stmt)
    requires original.ReturnStmt?
    ensures r == HandleReturn(original, ms, returnType, inCase)
  {
    if original.result.None? || |ms| == 1 { return HandleReturn(original, ms, returnType, inCase); }
    var results: seq<Placed<Expr>> := [];
    for i := 0 to |ms|
      invariant results == ReturnResults(original, ms[..i], returnType, inCase)
    {
      var m := ms[i];
      ReturnResultsSnoc(original, ms[..i], m, returnType, inCase);
      assert ms[..i + 1] == ms[..i] + [m];
      assert ReturnResults(original, [m][1..], returnType, inCase) == [];
      var mutated := MutateStmt(m.op, original, inCase);
      if mutated.None? { continue; }
      if !mutated.value.ReturnStmt? || mutated.value.result.None? { continue; }
      var e := mutated.value.result.value;
      if UnsafeNil(e, returnType) { continue; }
      results := results + [Placed(m.id, m.op, e)];
    }
    assert ms[..|ms|] == ms;
    if |results| == 0 { return original; }
    var stmts: seq<Stmt> := [];
    for i := 0 to |results|
      invariant stmts == GuardSteps(results[..i])
    {
      GuardStepsSnoc(results[..i], results[i]);
      assert results[..i + 1] == results[..i] + [results[i]];
      stmts := stmts + [GuardStep(results[i].id, results[i].node)];
    }
    assert results[..|results|] == results;
    r := ReturnStmt(0, Some(FuncLitCall(stmts + [Return(original.result.value)])));
  }

  // ---- Clauses and declarations ----

  function GetZeroValueForType(t: string): Expr {
    if t in {"int", "int8", "int16", "int32", "int64", "uint", "uint8", "uint16", "uint32", "uint64"}
    then BasicLit(0, IntLit(0))
    else if t in {"float32", "float64"} then BasicLit(0, FloatLit("0.0"))
    else if t == "string" then BasicLit(0, StringLit(""))
    else if t == "bool" then Ident(0, "false")
    else Ident(0, "nil")
  }

  function ZeroFor(returnType: string): Expr { GetZeroValueForType(if returnType == "" then "string" else returnType) }

  /** The guard of a clause mutant: an emptied clause becomes a return of a zero value. */
  function ClauseGuard(id: int, mutated: Clause, returnType: string): Stmt {
    if mutated.body == [] then
      IfStmt(0, None, Guard(id), [Return(ZeroFor(returnType))], None)
    else IfStmt(0, None, Guard(id), mutated.body, None)
  }

  /** The statements put in front of a clause body for its mutant. */
  function ClausePrefix(c: Clause, m: MutantForSite, returnType: string): seq<Stmt> {
    match MutateClause(m.op, c)
    case None => []
    case Some(mc) => [ClauseGuard(m.id, mc, returnType)]
  }

  function HandleCaseClause(c: Clause, ms: seq<MutantForSite>, returnType: string): Clause {
    if |ms| != 1 then c else c.(body := ClausePrefix(c, ms[0], returnType) + c.body)
  }

  /** A declaration is neither an expression nor a statement: one mutant replaces it without a guard. */
  function HandleFuncDecl(f: FuncDecl, ms: seq<MutantForSite>): FuncDecl {
    if |ms| != 1 then f
    else
      match MutateFunc(ms[0].op, f)
      case None => f
      case Some(g) => g
  }
}
