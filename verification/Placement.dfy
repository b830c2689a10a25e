/**
 Which guards the visitor places, and what generation guarantees about the mutants of a file.
 */
module Placement {
  import opened Wrappers
  import opened GoAst
  import opened Operators
  import opened Schemata
  import opened Visitor
  import opened Mutation

  // ---- Guards placed at one node, its children already visited ----

  function PlacedExprHere(e: Expr, skip: bool, m: Sites): seq<Placed<Expr>> {
    if skip || e.ParenExpr? || KeyOfExpr(e) !in m then [] else ExprResults(e, m[KeyOfExpr(e)])
  }

  function AsReturns(ps: seq<Placed<Expr>>): seq<Placed<Stmt>> {
    if ps == [] then [] else [Placed(ps[0].id, ps[0].op, Return(ps[0].node))] + AsReturns(ps[1..])
  }

  /** The only single-mutant wrap that the replacement table admits is the one of an `if`. */
  function PlacedStmtHere(s: Stmt, m: Sites, inCase: bool): seq<Placed<Stmt>> {
    var key := KeyOfStmt(s);
    if key !in m then []
    else
      var ms := m[key];
      if s.ReturnStmt? then
        if s.result.None? then []
        else AsReturns(ReturnResults(s, ms, if ms == [] then "" else ms[0].returnType, inCase))
      else if |ms| == 1 && !s.IfStmt? then []
      else StmtResults(s, ms, inCase)
  }

  predicate PlacedClauseHere(c: Clause, m: Sites, k: int) {
    var key := KeyOfClause(c);
    key in m && |m[key]| == 1 && MutateClause(m[key][0].op, c).Some? && m[key][0].id == k
  }

  // ---- Where the guard of `k` stands ----

  /** The guard of `k` stands at the nodes with key `key`, and nowhere else. */
  predicate ExactlyExpr(e: Expr, skip: bool, m: Sites, k: int, key: Key)
    decreases e, 1
  {
    && (NodeFor(PlacedExprHere(VisitKids(e, m), skip, m), k).Some? <==> KeyOfExpr(e) == key)
    && ExactlyKids(e, m, k, key)
  }

  predicate ExactlyKids(e: Expr, m: Sites, k: int, key: Key)
    decreases e, 0
  {
    var skip := KeyOfExpr(e) in m;
    match e
    case UnaryExpr(_, _, x) => ExactlyExpr(x, skip, m, k, key)
    case BinaryExpr(_, x, _, y) => ExactlyExpr(x, skip, m, k, key) && ExactlyExpr(y, skip, m, k, key)
    case ParenExpr(_, x) => ExactlyExpr(x, skip, m, k, key)
    case CallExpr(_, _, args) => ExactlyExprs(args, skip, m, k, key)
    case FuncLitCall(body) => ExactlyList(body, m, false, k, key)
    case _ => true
  }

  predicate ExactlyExprs(es: seq<Expr>, skip: bool, m: Sites, k: int, key: Key)
    decreases es, 1
  {
    es != [] ==> ExactlyExpr(es[0], skip, m, k, key) && ExactlyExprs(es[1..], skip, m, k, key)
  }

  predicate ExactlyOptExpr(e: Option<Expr>, m: Sites, k: int, key: Key)
    decreases e, 1
  {
    e.Some? ==> ExactlyExpr(e.value, false, m, k, key)
  }

  predicate ExactlyStmt(s: Stmt, m: Sites, inCase: bool, k: int, key: Key)
    decreases s, 1
  {
    && (NodeFor(PlacedStmtHere(VisitStmtKids(s, m, inCase), m, inCase), k).Some? <==> KeyOfStmt(s) == key)
    && ExactlyStmtKids(s, m, inCase, k, key)
  }

  predicate ExactlyStmtKids(s: Stmt, m: Sites, inCase: bool, k: int, key: Key)
    decreases s, 0
  {
    match s
    case ExprStmt(x) => ExactlyExpr(x, false, m, k, key)
    case AssignStmt(_, _, _, rhs) => ExactlyExpr(rhs, false, m, k, key)
    case IfStmt(_, init, cond, body, els) =>
      && ExactlyOpt(init, m, inCase, k, key) && ExactlyExpr(cond, false, m, k, key)
      && ExactlyList(body, m, inCase, k, key) && ExactlyOpt(els, m, inCase, k, key)
    case ForStmt(_, init, cond, post, body) =>
      && ExactlyOpt(init, m, inCase, k, key) && ExactlyOptExpr(cond, m, k, key)
      && ExactlyOpt(post, m, inCase, k, key) && ExactlyList(body, m, inCase, k, key)
    case RangeStmt(_, _, _, x, body) => ExactlyExpr(x, true, m, k, key) && ExactlyList(body, m, inCase, k, key)
    case SwitchStmt(_, tag, clauses) => ExactlyExpr(tag, false, m, k, key) && ExactlyClauses(clauses, m, k, key)
    case ReturnStmt(_, result) => ExactlyOptExpr(result, m, k, key)
    case BlockStmt(_, list) => ExactlyList(list, m, inCase, k, key)
    case _ => true
  }

  predicate ExactlyOpt(s: Option<Stmt>, m: Sites, inCase: bool, k: int, key: Key)
    decreases s, 1
  {
    s.Some? ==> ExactlyStmt(s.value, m, inCase, k, key)
  }

  predicate ExactlyList(l: seq<Stmt>, m: Sites, inCase: bool, k: int, key: Key)
    decreases l, 1
  {
    l != [] ==> ExactlyStmt(l[0], m, inCase, k, key) && ExactlyList(l[1..], m, inCase, k, key)
  }

  predicate ExactlyClause(c: Clause, m: Sites, k: int, key: Key)
    decreases c, 1
  {
    && (PlacedClauseHere(VisitClauseKids(c, m), m, k) <==> KeyOfClause(c) == key)
    && ExactlyExprs(c.list, false, m, k, key) && ExactlyList(c.body, m, true, k, key)
  }

  predicate ExactlyClauses(cs: seq<Clause>, m: Sites, k: int, key: Key)
    decreases cs, 1
  {
    cs != [] ==> ExactlyClause(cs[0], m, k, key) && ExactlyClauses(cs[1..], m, k, key)
  }

  predicate ExactlyFile(fs: seq<FuncDecl>, m: Sites, k: int, key: Key) {
    fs != [] ==> KeyOfFunc(fs[0]) != key && ExactlyList(fs[0].body, m, false, k, key) && ExactlyFile(fs[1..], m, k, key)
  }

  /** The key of no node. */
  const NOWHERE: Key := Key(0, NTMax)

  // ---- Parsed source whose mutants were generated for it ----

  predicate GeneratedExpr(e: Expr, m: Sites) {
    KeyOfExpr(e) in m ==> forall mu | mu in m[KeyOfExpr(e)] :: CanApplyExpr(mu.op, e)
  }

  predicate GeneratedStmt(s: Stmt, m: Sites) {
    KeyOfStmt(s) in m ==> forall mu | mu in m[KeyOfStmt(s)] :: CanApplyStmt(mu.op, s, mu.returnType)
  }

  /** No function literals, no use of the reserved variable, and every mutant of a node applies to it. */
  predicate OkExpr(e: Expr, m: Sites)
    decreases e
  {
    && GeneratedExpr(e, m)
    && match e
       case Ident(_, name) => name != ACTIVE
       case BasicLit(_, _) => true
       case UnaryExpr(_, _, x) => OkExpr(x, m)
       case BinaryExpr(_, x, _, y) => OkExpr(x, m) && OkExpr(y, m)
       case ParenExpr(_, x) => OkExpr(x, m)
       case CallExpr(_, _, args) => OkExprs(args, m)
       case FuncLitCall(_) => false
  }

  predicate OkExprs(es: seq<Expr>, m: Sites)
    decreases es
  {
    es != [] ==> OkExpr(es[0], m) && OkExprs(es[1..], m)
  }

  predicate OkOptExpr(e: Option<Expr>, m: Sites)
    decreases e
  {
    e.Some? ==> OkExpr(e.value, m)
  }

  predicate OkStmt(s: Stmt, m: Sites)
    decreases s
  {
    && GeneratedStmt(s, m)
    && match s
       case ExprStmt(x) => OkExpr(x, m)
       case AssignStmt(_, _, _, rhs) => OkExpr(rhs, m)
       case IfStmt(_, init, cond, body, els) =>
         OkOpt(init, m) && OkExpr(cond, m) && OkList(body, m) && OkOpt(els, m)
       case ForStmt(_, init, cond, post, body) =>
         OkOpt(init, m) && OkOptExpr(cond, m) && OkOpt(post, m) && OkList(body, m)
       case RangeStmt(_, _, _, x, body) => OkExpr(x, m) && OkList(body, m)
       case SwitchStmt(_, tag, clauses) => OkExpr(tag, m) && OkClauses(clauses, m)
       case ReturnStmt(_, result) => OkOptExpr(result, m)
       case BlockStmt(_, list) => OkList(list, m)
       case ConstDecl(_, _, x) => OkExpr(x, m)
       case _ => true
  }

  predicate OkOpt(s: Option<Stmt>, m: Sites)
    decreases s
  {
    s.Some? ==> OkStmt(s.value, m)
  }

  predicate OkList(l: seq<Stmt>, m: Sites)
    decreases l
  {
    l != [] ==> OkStmt(l[0], m) && OkList(l[1..], m)
  }

  predicate OkClauses(cs: seq<Clause>, m: Sites)
    decreases cs
  {
    cs != [] ==> OkExprs(cs[0].list, m) && OkList(cs[0].body, m) && OkClauses(cs[1..], m)
  }

  predicate OkFile(fs: seq<FuncDecl>, m: Sites) {
    fs != [] ==> OkList(fs[0].body, m) && OkFile(fs[1..], m)
  }

  /** Sites were parsed, so they have positions, and a replacement variable is a variable of the source. */
  ghost predicate OkSites(m: Sites) {
    && (forall key :: key in m ==> key.pos > 0)
    && (forall key, mu :: key in m && mu in m[key] && mu.op.VariableReplacement? ==> mu.op.compatible != ACTIVE)
  }

  // ---- Declarations that lose their bodies ----

  /** Exactly one mutant applies to the declaration, and replaces it without a guard. */
  predicate Lost(f: FuncDecl, m: Sites) {
    var key := KeyOfFunc(f);
    key in m && |m[key]| == 1 && m[key][0].op.EmptyBody? && CanEmptyBody(f)
  }

  predicate NothingLost(fs: seq<FuncDecl>, m: Sites) { fs != [] ==> !Lost(fs[0], m) && NothingLost(fs[1..], m) }

  /** The file in which exactly the lost bodies are empty. */
  function Emptied(fs: seq<FuncDecl>, m: Sites): (r: seq<FuncDecl>)
    ensures |r| == |fs|
  {
    if fs == [] then [] else [if Lost(fs[0], m) then fs[0].(body := []) else fs[0]] + Emptied(fs[1..], m)
  }

  lemma {:induction false} EmptiedLosesNothing(fs: seq<FuncDecl>, m: Sites)
    ensures NothingLost(Emptied(fs, m), m)
    ensures OkFile(fs, m) ==> OkFile(Emptied(fs, m), m)
  {
    if fs != [] { EmptiedLosesNothing(fs[1..], m); }
  }

  lemma {:induction false} EmptiedKeys(fs: seq<FuncDecl>, m: Sites, key: Key)
    ensures KeysFile(Emptied(fs, m), key) <= KeysFile(fs, key)
  {
    if fs != [] { EmptiedKeys(fs[1..], m, key); }
  }

  /** A file that loses nothing is left alone. */
  lemma {:induction false} EmptiedIdle(fs: seq<FuncDecl>, m: Sites)
    ensures NothingLost(fs, m) <==> Emptied(fs, m) == fs
  {
    if fs != [] {
      EmptiedIdle(fs[1..], m);
      assert Lost(fs[0], m) ==> fs[0].body != [];
    }
  }

  // ---- Where a guard will stand, read off the source ----

  /** The visit wraps an expression that is not skipped and that some operator of its site answers. */
  predicate Wrapped(e: Expr, skip: bool, m: Sites) {
    && !skip && !e.ParenExpr? && KeyOfExpr(e) in m
    && exists mu :: mu in m[KeyOfExpr(e)] && MutateExpr(mu.op, e).Some?
  }

  /** A comparison that reaches the handler of its `if` as it was written. */
  predicate ConditionIntact(e: Expr, m: Sites) {
    && e.BinaryExpr? && !Wrapped(e, false, m)
    && !Wrapped(e.x, KeyOfExpr(e) in m, m) && !Wrapped(e.y, KeyOfExpr(e) in m, m)
  }

  predicate LandsOnExpr(e: Expr, skip: bool, m: Sites, op: Operator) {
    !skip && !e.ParenExpr? && KeyOfExpr(e) in m && MutateExpr(op, e).Some?
  }

  /**
   A lone mutant lands only on an `if` or a return.  The operators that recognise a comparison or a boolean by its
   shape no longer find it where the children were wrapped before.  The last condition always holds where the mutants
   of a site share their type, since interface_returns is generated for `interface{}` only.
   */
  predicate LandsOnStmt(s: Stmt, m: Sites, inCase: bool, op: Operator) {
    var key := KeyOfStmt(s);
    && key in m && MutateStmt(op, s, inCase).Some?
    && (s.IfStmt? || s.ReturnStmt? || |m[key]| >= 2)
    && (op.ErrorCheckRemoval? || op.NilCheckRemoval? ==> s.IfStmt? && ConditionIntact(s.cond, m))
    && (op.ZeroValueReturnBool? ==> s.ReturnStmt? && s.result.Some? && !Wrapped(s.result.value, false, m))
    && (op.InterfaceReturns? ==> m[key] != [] && IsNilableType(m[key][0].returnType))
  }

  predicate LandsOnClause(c: Clause, m: Sites, op: Operator) {
    KeyOfClause(c) in m && |m[KeyOfClause(c)]| == 1 && MutateClause(op, c).Some?
  }

  predicate LandsExpr(e: Expr, skip: bool, m: Sites, key: Key, op: Operator)
    decreases e, 1
  {
    (KeyOfExpr(e) == key && LandsOnExpr(e, skip, m, op)) || LandsKids(e, m, key, op)
  }

  predicate LandsKids(e: Expr, m: Sites, key: Key, op: Operator)
    decreases e, 0
  {
    var skip := KeyOfExpr(e) in m;
    match e
    case UnaryExpr(_, _, x) => LandsExpr(x, skip, m, key, op)
    case BinaryExpr(_, x, _, y) => LandsExpr(x, skip, m, key, op) || LandsExpr(y, skip, m, key, op)
    case ParenExpr(_, x) => LandsExpr(x, skip, m, key, op)
    case CallExpr(_, _, args) => LandsExprs(args, skip, m, key, op)
    case _ => false
  }

  predicate LandsExprs(es: seq<Expr>, skip: bool, m: Sites, key: Key, op: Operator)
    decreases es, 1
  {
    es != [] && (LandsExpr(es[0], skip, m, key, op) || LandsExprs(es[1..], skip, m, key, op))
  }

  predicate LandsOptExpr(e: Option<Expr>, m: Sites, key: Key, op: Operator)
    decreases e, 1
  {
    e.Some? && LandsExpr(e.value, false, m, key, op)
  }

  predicate LandsStmt(s: Stmt, m: Sites, inCase: bool, key: Key, op: Operator)
    decreases s, 1
  {
    (KeyOfStmt(s) == key && LandsOnStmt(s, m, inCase, op)) || LandsStmtKids(s, m, inCase, key, op)
  }

  /** Neither a range target itself nor anything in a constant declaration is ever wrapped. */
  predicate LandsStmtKids(s: Stmt, m: Sites, inCase: bool, key: Key, op: Operator)
    decreases s, 0
  {
    match s
    case ExprStmt(x) => LandsExpr(x, false, m, key, op)
    case AssignStmt(_, _, _, rhs) => LandsExpr(rhs, false, m, key, op)
    case IfStmt(_, init, cond, body, els) =>
      || LandsOpt(init, m, inCase, key, op) || LandsExpr(cond, false, m, key, op)
      || LandsList(body, m, inCase, key, op) || LandsOpt(els, m, inCase, key, op)
    case ForStmt(_, init, cond, post, body) =>
      || LandsOpt(init, m, inCase, key, op) || LandsOptExpr(cond, m, key, op)
      || LandsOpt(post, m, inCase, key, op) || LandsList(body, m, inCase, key, op)
    case RangeStmt(_, _, _, x, body) => LandsExpr(x, true, m, key, op) || LandsList(body, m, inCase, key, op)
    case SwitchStmt(_, tag, clauses) => LandsExpr(tag, false, m, key, op) || LandsClauses(clauses, m, key, op)
    case ReturnStmt(_, result) => LandsOptExpr(result, m, key, op)
    case BlockStmt(_, list) => LandsList(list, m, inCase, key, op)
    case _ => false
  }

  predicate LandsOpt(s: Option<Stmt>, m: Sites, inCase: bool, key: Key, op: Operator)
    decreases s, 1
  {
    s.Some? && LandsStmt(s.value, m, inCase, key, op)
  }

  predicate LandsList(l: seq<Stmt>, m: Sites, inCase: bool, key: Key, op: Operator)
    decreases l, 1
  {
    l != [] && (LandsStmt(l[0], m, inCase, key, op) || LandsList(l[1..], m, inCase, key, op))
  }

  predicate LandsClause(c: Clause, m: Sites, key: Key, op: Operator)
    decreases c, 1
  {
    || (KeyOfClause(c) == key && LandsOnClause(c, m, op))
    || LandsExprs(c.list, false, m, key, op) || LandsList(c.body, m, true, key, op)
  }

  predicate LandsClauses(cs: seq<Clause>, m: Sites, key: Key, op: Operator)
    decreases cs, 1
  {
    cs != [] && (LandsClause(cs[0], m, key, op) || LandsClauses(cs[1..], m, key, op))
  }

  /** Some node of the file has the site, and a guard for an operator of that site will stand there. */
  predicate LandsFile(fs: seq<FuncDecl>, m: Sites, key: Key, op: Operator) {
    fs != [] && (LandsList(fs[0].body, m, false, key, op) || LandsFile(fs[1..], m, key, op))
  }
}
