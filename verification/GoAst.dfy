/**
 A small abstract syntax of Go: the node kinds that the schemata transformation
 replaces, together with the ones it walks through.

 A position is one number per source location; 0 is `token.NoPos`, the position
 of a node that was built by the tool and never parsed.
 */
module GoAst {
  import opened Wrappers

  datatype Token =
    | ADD | SUB | MUL | QUO | REM | AND | OR | SHL | SHR
    | LAND | LOR | NOT
    | EQL | NEQ | LSS | LEQ | GTR | GEQ

  datatype AssignTok = SetTok | AddTok | SubTok | MulTok | QuoTok | DefineTok

  datatype Lit = IntLit(n: int) | FloatLit(text: string) | StringLit(text: string) | CharLit(text: string)

  /** An identifier in a binding position, which the visitor never replaces. */
  datatype Name = Name(pos: nat, id: string)

  /** `FuncLitCall(body)` is `func() T { body }()`, the wrapper built around expressions. */
  datatype Expr =
    | Ident(pos: nat, name: string)
    | BasicLit(pos: nat, lit: Lit)
    | UnaryExpr(opPos: nat, op: Token, x: Expr)
    | BinaryExpr(opPos: nat, x: Expr, op: Token, y: Expr)
    | ParenExpr(pos: nat, x: Expr)
    | CallExpr(pos: nat, fun: string, args: seq<Expr>)
    | FuncLitCall(body: seq<Stmt>)

  datatype Stmt =
    | ExprStmt(x: Expr)
    | AssignStmt(tokPos: nat, lhs: Name, tok: AssignTok, rhs: Expr)
    | IncDecStmt(tokPos: nat, target: Name, inc: bool)
    | IfStmt(pos: nat, init: Option<Stmt>, cond: Expr, body: seq<Stmt>, els: Option<Stmt>)
    | ForStmt(pos: nat, init: Option<Stmt>, forCond: Option<Expr>, post: Option<Stmt>, body: seq<Stmt>)
    | RangeStmt(pos: nat, key: Option<Name>, value: Option<Name>, x: Expr, body: seq<Stmt>)
    | SwitchStmt(pos: nat, tag: Expr, clauses: seq<Clause>)
    | ReturnStmt(pos: nat, result: Option<Expr>)
    | BranchStmt(pos: nat, isBreak: bool)
    | BlockStmt(pos: nat, list: seq<Stmt>)
    | ConstDecl(pos: nat, target: Name, x: Expr)
    | EmptyStmt(pos: nat)

  /** A case of a switch; `isDefault` is the clause whose list is nil. */
  datatype Clause = CaseClause(pos: nat, isDefault: bool, list: seq<Expr>, body: seq<Stmt>)

  datatype FuncDecl = FuncDecl(pos: nat, name: string, params: seq<string>, hasResult: bool, body: seq<Stmt>)

  /** The variable the generated helper file declares. */
  const ACTIVE: string := "activeMutantID"

  /** The comparison that guards one mutant. */
  function Guard(id: int): Expr {
    BinaryExpr(0, Ident(0, ACTIVE), EQL, BasicLit(0, IntLit(id)))
  }

  predicate IsGuard(e: Expr) {
    && e.BinaryExpr?
    && e.op == EQL
    && e.x.Ident? && e.x.name == ACTIVE
    && e.y.BasicLit? && e.y.lit.IntLit?
  }

  function GuardId(e: Expr): int
    requires IsGuard(e)
  {
    e.y.lit.n
  }
}
