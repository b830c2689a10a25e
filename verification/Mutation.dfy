/**
 The reference: a program with one change at one site, and nothing else changed.
 It knows neither guards nor wrappers.
 */
module Mutation {
  import opened Wrappers
  import opened GoAst
  import opened Operators
  import opened Schemata
  import opened Visitor

  function OrElse<T>(o: Option<T>, d: T): T {
    match o
    case None => d
    case Some(x) => x
  }

  /** What is done at the site: the operator, or, for a clause, a statement put before its body. */
  datatype Change = Operate(op: Operator) | BeforeClause(first: Stmt)

  /** A clause that returns a zero value before it does anything. */
  function ReturnFromClause(returnType: string): Change { BeforeClause(Return(ZeroFor(returnType))) }

  function ChangeExpr(ch: Change, e: Expr): Expr { if ch.Operate? then OrElse(MutateExpr(ch.op, e), e) else e }

  function ChangeStmt(ch: Change, s: Stmt, inCase: bool): Stmt {
    if ch.Operate? then OrElse(MutateStmt(ch.op, s, inCase), s) else s
  }

  function ChangeClause(ch: Change, c: Clause): Clause {
    match ch
    case Operate(op) => OrElse(MutateClause(op, c), c)
    case BeforeClause(first) => c.(body := [first] + c.body)
  }

  function ChangeFunc(ch: Change, f: FuncDecl): FuncDecl { if ch.Operate? then OrElse(MutateFunc(ch.op, f), f) else f }

  function ApplyExpr(e: Expr, key: Key, ch: Change): Expr
    decreases e, 1
  {
    if KeyOfExpr(e) == key && !e.ParenExpr? then ChangeExpr(ch, e) else ApplyKids(e, key, ch)
  }

  function ApplyKids(e: Expr, key: Key, ch: Change): Expr
    decreases e, 0
  {
    match e
    case Ident(_, _) => e
    case BasicLit(_, _) => e
    case UnaryExpr(p, t, x) => UnaryExpr(p, t, ApplyExpr(x, key, ch))
    case BinaryExpr(p, x, t, y) => BinaryExpr(p, ApplyExpr(x, key, ch), t, ApplyExpr(y, key, ch))
    case ParenExpr(p, x) => ParenExpr(p, ApplyExpr(x, key, ch))
    case CallExpr(p, fun, args) => CallExpr(p, fun, ApplyExprs(args, key, ch))
    case FuncLitCall(body) => FuncLitCall(ApplyList(body, key, ch, false))
  }

  function ApplyExprs(es: seq<Expr>, key: Key, ch: Change): seq<Expr>
    decreases es, 1
  {
    if es == [] then [] else [ApplyExpr(es[0], key, ch)] + ApplyExprs(es[1..], key, ch)
  }

  function ApplyOptExpr(e: Option<Expr>, key: Key, ch: Change): Option<Expr>
    decreases e, 1
  {
    match e
    case None => None
    case Some(x) => Some(ApplyExpr(x, key, ch))
  }

  function ApplyStmt(s: Stmt, key: Key, ch: Change, inCase: bool): Stmt
    decreases s, 1
  {
    if KeyOfStmt(s) == key then ChangeStmt(ch, s, inCase) else ApplyStmtKids(s, key, ch, inCase)
  }

  function ApplyStmtKids(s: Stmt, key: Key, ch: Change, inCase: bool): Stmt
    decreases s, 0
  {
    match s
    case ExprStmt(x) => ExprStmt(ApplyExpr(x, key, ch))
    case AssignStmt(p, lhs, tok, rhs) => AssignStmt(p, lhs, tok, ApplyExpr(rhs, key, ch))
    case IncDecStmt(_, _, _) => s
    case IfStmt(p, init, cond, body, els) =>
      IfStmt(p, ApplyOpt(init, key, ch, inCase), ApplyExpr(cond, key, ch),
             ApplyList(body, key, ch, inCase), ApplyOpt(els, key, ch, inCase))
    case ForStmt(p, init, cond, post, body) =>
      ForStmt(p, ApplyOpt(init, key, ch, inCase), ApplyOptExpr(cond, key, ch),
              ApplyOpt(post, key, ch, inCase), ApplyList(body, key, ch, inCase))
    case RangeStmt(p, k, v, x, body) => RangeStmt(p, k, v, ApplyExpr(x, key, ch), ApplyList(body, key, ch, inCase))
    case SwitchStmt(p, tag, clauses) => SwitchStmt(p, ApplyExpr(tag, key, ch), ApplyClauses(clauses, key, ch))
    case ReturnStmt(p, result) => ReturnStmt(p, ApplyOptExpr(result, key, ch))
    case BranchStmt(_, _) => s
    case BlockStmt(p, list) => BlockStmt(p, ApplyList(list, key, ch, inCase))
    case ConstDecl(_, _, _) => s
    case EmptyStmt(_) => s
  }

  function ApplyOpt(s: Option<Stmt>, key: Key, ch: Change, inCase: bool): Option<Stmt>
    decreases s, 1
  {
    match s
    case None => None
    case Some(t) => Some(ApplyStmt(t, key, ch, inCase))
  }

  function ApplyList(l: seq<Stmt>, key: Key, ch: Change, inCase: bool): (r: seq<Stmt>)
    ensures |r| == |l|
    decreases l, 1
  {
    if l == [] then [] else [ApplyStmt(l[0], key, ch, inCase)] + ApplyList(l[1..], key, ch, inCase)
  }

  function ApplyClause(c: Clause, key: Key, ch: Change): Clause
    decreases c, 1
  {
    if KeyOfClause(c) == key then ChangeClause(ch, c)
    else CaseClause(c.pos, c.isDefault, ApplyExprs(c.list, key, ch), ApplyList(c.body, key, ch, true))
  }

  function ApplyClauses(cs: seq<Clause>, key: Key, ch: Change): seq<Clause>
    decreases cs, 1
  {
    if cs == [] then [] else [ApplyClause(cs[0], key, ch)] + ApplyClauses(cs[1..], key, ch)
  }

  function ApplyFunc(f: FuncDecl, key: Key, ch: Change): FuncDecl {
    if KeyOfFunc(f) == key then ChangeFunc(ch, f) else f.(body := ApplyList(f.body, key, ch, false))
  }

  /** The file with the change at the site `key`. */
  function ApplyFile(fs: seq<FuncDecl>, key: Key, ch: Change): seq<FuncDecl> {
    if fs == [] then [] else [ApplyFunc(fs[0], key, ch)] + ApplyFile(fs[1..], key, ch)
  }

  // ---- How many nodes of a program have a given key ----

  function One(b: bool): nat { if b then 1 else 0 }

  function KeysExpr(e: Expr, key: Key): (n: nat)
    ensures key.kind == NTMax ==> n == 0
    decreases e, 1
  {
    One(KeyOfExpr(e) == key) + KeysKids(e, key)
  }

  function KeysKids(e: Expr, key: Key): (n: nat)
    ensures key.kind == NTMax ==> n == 0
    decreases e, 0
  {
    match e
    case UnaryExpr(_, _, x) => KeysExpr(x, key)
    case BinaryExpr(_, x, _, y) => KeysExpr(x, key) + KeysExpr(y, key)
    case ParenExpr(_, x) => KeysExpr(x, key)
    case CallExpr(_, _, args) => KeysExprs(args, key)
    case FuncLitCall(body) => KeysList(body, key)
    case _ => 0
  }

  function KeysExprs(es: seq<Expr>, key: Key): (n: nat)
    ensures key.kind == NTMax ==> n == 0
    decreases es, 1
  {
    if es == [] then 0 else KeysExpr(es[0], key) + KeysExprs(es[1..], key)
  }

  function KeysOptExpr(e: Option<Expr>, key: Key): (n: nat)
    ensures key.kind == NTMax ==> n == 0
    decreases e, 1
  {
    match e
    case None => 0
    case Some(x) => KeysExpr(x, key)
  }

  function KeysStmt(s: Stmt, key: Key): (n: nat)
    ensures key.kind == NTMax ==> n == 0
    decreases s, 1
  {
    One(KeyOfStmt(s) == key) + KeysStmtKids(s, key)
  }

  function KeysStmtKids(s: Stmt, key: Key): (n: nat)
    ensures key.kind == NTMax ==> n == 0
    decreases s, 0
  {
    match s
    case ExprStmt(x) => KeysExpr(x, key)
    case AssignStmt(_, _, _, rhs) => KeysExpr(rhs, key)
    case IfStmt(_, init, cond, body, els) => KeysOpt(init, key) + KeysExpr(cond, key) + KeysList(body, key)
        + KeysOpt(els, key)
    case ForStmt(_, init, cond, post, body) => KeysOpt(init, key) + KeysOptExpr(cond, key) + KeysOpt(post, key)
        + KeysList(body, key)
    case RangeStmt(_, _, _, x, body) => KeysExpr(x, key) + KeysList(body, key)
    case SwitchStmt(_, tag, clauses) => KeysExpr(tag, key) + KeysClauses(clauses, key)
    case ReturnStmt(_, result) => KeysOptExpr(result, key)
    case BlockStmt(_, list) => KeysList(list, key)
    case _ => 0
  }

  function KeysOpt(s: Option<Stmt>, key: Key): (n: nat)
    ensures key.kind == NTMax ==> n == 0
    decreases s, 1
  {
    match s
    case None => 0
    case Some(t) => KeysStmt(t, key)
  }

  function KeysList(l: seq<Stmt>, key: Key): (n: nat)
    ensures key.kind == NTMax ==> n == 0
    decreases l, 1
  {
    if l == [] then 0 else KeysStmt(l[0], key) + KeysList(l[1..], key)
  }

  function KeysClause(c: Clause, key: Key): (n: nat)
    ensures key.kind == NTMax ==> n == 0
    decreases c, 1
  {
    One(KeyOfClause(c) == key) + KeysExprs(c.list, key) + KeysList(c.body, key)
  }

  function KeysClauses(cs: seq<Clause>, key: Key): (n: nat)
    ensures key.kind == NTMax ==> n == 0
    decreases cs, 1
  {
    if cs == [] then 0 else KeysClause(cs[0], key) + KeysClauses(cs[1..], key)
  }

  function KeysFile(fs: seq<FuncDecl>, key: Key): (n: nat)
    ensures key.kind == NTMax ==> n == 0
  {
    if fs == [] then 0 else One(KeyOfFunc(fs[0]) == key) + KeysList(fs[0].body, key) + KeysFile(fs[1..], key)
  }

  // ---- A site that does not occur ----

  lemma {:induction false} AbsentExpr(e: Expr, key: Key, ch: Change)
    requires KeysExpr(e, key) == 0
    ensures ApplyExpr(e, key, ch) == e
    decreases e, 1
  {
    AbsentKids(e, key, ch);
  }

  lemma {:induction false} AbsentKids(e: Expr, key: Key, ch: Change)
    requires KeysKids(e, key) == 0
    ensures ApplyKids(e, key, ch) == e
    decreases e, 0
  {
    match e
    case UnaryExpr(_, _, x) => AbsentExpr(x, key, ch);
    case BinaryExpr(_, x, _, y) =>
      AbsentExpr(x, key, ch);
      AbsentExpr(y, key, ch);
    case ParenExpr(_, x) => AbsentExpr(x, key, ch);
    case CallExpr(_, _, args) => AbsentExprs(args, key, ch);
    case FuncLitCall(body) => AbsentList(body, key, ch, false);
    case _ =>
  }

  lemma {:induction false} AbsentExprs(es: seq<Expr>, key: Key, ch: Change)
    requires KeysExprs(es, key) == 0
    ensures ApplyExprs(es, key, ch) == es
    decreases es, 1
  {
    if es != [] {
      AbsentExpr(es[0], key, ch);
      AbsentExprs(es[1..], key, ch);
    }
  }

  lemma {:induction false} AbsentOptExpr(e: Option<Expr>, key: Key, ch: Change)
    requires KeysOptExpr(e, key) == 0
    ensures ApplyOptExpr(e, key, ch) == e
    decreases e, 1
  {
    if e.Some? { AbsentExpr(e.value, key, ch); }
  }

  lemma {:induction false} AbsentStmt(s: Stmt, key: Key, ch: Change, inCase: bool)
    requires KeysStmt(s, key) == 0
    ensures ApplyStmt(s, key, ch, inCase) == s
    decreases s, 1
  {
    AbsentStmtKids(s, key, ch, inCase);
  }

  lemma {:induction false} AbsentStmtKids(s: Stmt, key: Key, ch: Change, inCase: bool)
    requires KeysStmtKids(s, key) == 0
    ensures ApplyStmtKids(s, key, ch, inCase) == s
    decreases s, 0
  {
    match s
    case ExprStmt(x) => AbsentExpr(x, key, ch);
    case AssignStmt(_, _, _, rhs) => AbsentExpr(rhs, key, ch);
    case IfStmt(_, init, cond, body, els) =>
      AbsentOpt(init, key, ch, inCase);
      AbsentExpr(cond, key, ch);
      AbsentList(body, key, ch, inCase);
      AbsentOpt(els, key, ch, inCase);
    case ForStmt(_, init, cond, post, body) =>
      AbsentOpt(init, key, ch, inCase);
      AbsentOptExpr(cond, key, ch);
      AbsentOpt(post, key, ch, inCase);
      AbsentList(body, key, ch, inCase);
    case RangeStmt(_, _, _, x, body) =>
      AbsentExpr(x, key, ch);
      AbsentList(body, key, ch, inCase);
    case SwitchStmt(_, tag, clauses) =>
      AbsentExpr(tag, key, ch);
      AbsentClauses(clauses, key, ch);
    case ReturnStmt(_, result) => AbsentOptExpr(result, key, ch);
    case BlockStmt(_, list) => AbsentList(list, key, ch, inCase);
    case _ =>
  }

  lemma {:induction false} AbsentOpt(s: Option<Stmt>, key: Key, ch: Change, inCase: bool)
    requires KeysOpt(s, key) == 0
    ensures ApplyOpt(s, key, ch, inCase) == s
    decreases s, 1
  {
    if s.Some? { AbsentStmt(s.value, key, ch, inCase); }
  }

  lemma {:induction false} AbsentList(l: seq<Stmt>, key: Key, ch: Change, inCase: bool)
    requires KeysList(l, key) == 0
    ensures ApplyList(l, key, ch, inCase) == l
    decreases l, 1
  {
    if l != [] {
      AbsentStmt(l[0], key, ch, inCase);
      AbsentList(l[1..], key, ch, inCase);
    }
  }

  lemma {:induction false} AbsentClauses(cs: seq<Clause>, key: Key, ch: Change)
    requires KeysClauses(cs, key) == 0
    ensures ApplyClauses(cs, key, ch) == cs
    decreases cs, 1
  {
    if cs != [] {
      AbsentClause(cs[0], key, ch);
      AbsentClauses(cs[1..], key, ch);
    }
  }

  lemma {:induction false} AbsentClause(c: Clause, key: Key, ch: Change)
    requires KeysClause(c, key) == 0
    ensures ApplyClause(c, key, ch) == c
    decreases c, 1
  {
    AbsentExprs(c.list, key, ch);
    AbsentList(c.body, key, ch, true);
  }

  lemma {:induction false} AbsentFile(fs: seq<FuncDecl>, key: Key, ch: Change)
    requires KeysFile(fs, key) == 0
    ensures ApplyFile(fs, key, ch) == fs
  {
    if fs != [] {
      AbsentList(fs[0].body, key, ch, false);
      AbsentFile(fs[1..], key, ch);
    }
  }
}
