/**
 The bottom-up visitor: every node is looked up by position and type after its children
 were visited, and replaced when the handler's answer is acceptable in its place.
 */
module Visitor {
  import opened Wrappers
  import opened GoAst
  import opened Operators
  import opened Schemata

  datatype Key = Key(pos: nat, kind: NodeType)

  type Sites = map<Key, seq<MutantForSite>>

  function KeyOfExpr(e: Expr): Key {
    match e
    case Ident(p, _) => Key(p, NTIdent)
    case BasicLit(p, _) => Key(p, NTBasicLit)
    case UnaryExpr(p, _, _) => Key(p, NTUnaryExpr)
    case BinaryExpr(p, _, _, _) => Key(p, NTBinaryExpr)
    case ParenExpr(p, _) => Key(p, NTUnknown)
    case CallExpr(p, _, _) => Key(p, NTCallExpr)
    case FuncLitCall(_) => Key(0, NTCallExpr)
  }

  function KeyOfStmt(s: Stmt): Key {
    match s
    case ExprStmt(x) => Key(LeftPos(x), NTExprStmt)
    case AssignStmt(p, _, _, _) => Key(p, NTAssignStmt)
    case IncDecStmt(p, _, _) => Key(p, NTIncDecStmt)
    case _ => Key(s.pos, TypeOfStmt(s))
  }

  function KeyOfClause(c: Clause): Key { Key(c.pos, NTCaseClause) }

  function KeyOfFunc(f: FuncDecl): Key { Key(f.pos, NTFuncDecl) }

  /** A site tells nodes apart by where they stand and of what kind they are; a wrapper stands nowhere. */
  lemma SiteOfExpr(e: Expr, e': Expr)
    requires !e.FuncLitCall? && !e'.FuncLitCall?
    ensures KeyOfExpr(e) == KeyOfExpr(e')
       <==> match e
            case Ident(p, _) => e'.Ident? && e'.pos == p
            case BasicLit(p, _) => e'.BasicLit? && e'.pos == p
            case UnaryExpr(p, _, _) => e'.UnaryExpr? && e'.opPos == p
            case BinaryExpr(p, _, _, _) => e'.BinaryExpr? && e'.opPos == p
            case ParenExpr(p, _) => e'.ParenExpr? && e'.pos == p
            case CallExpr(p, _, _) => e'.CallExpr? && e'.pos == p
  {
  }

  /** A statement of one kind shares its site with no expression, clause or declaration, and no statement of another. */
  lemma SiteOfStmt(s: Stmt, s': Stmt, e: Expr, c: Clause, f: FuncDecl)
    ensures KeyOfStmt(s) != KeyOfExpr(e) && KeyOfStmt(s) != KeyOfClause(c) && KeyOfStmt(s) != KeyOfFunc(f)
    ensures KeyOfExpr(e) != KeyOfClause(c) && KeyOfExpr(e) != KeyOfFunc(f) && KeyOfClause(c) != KeyOfFunc(f)
    ensures KeyOfStmt(s) == KeyOfStmt(s')
       <==> TypeOfStmt(s) == TypeOfStmt(s')
            && if s.ExprStmt? then LeftPos(s.x) == LeftPos(s'.x)
               else if s.AssignStmt? || s.IncDecStmt? then s.tokPos == s'.tokPos else s.pos == s'.pos
    ensures TypeOfStmt(s) == TypeOfStmt(s') <==> SameKind(s, s')
  {
  }

  /** Two statements are of the same form. */
  predicate SameKind(s: Stmt, s': Stmt) {
    match s
    case ExprStmt(_) => s'.ExprStmt?
    case AssignStmt(_, _, _, _) => s'.AssignStmt?
    case IncDecStmt(_, _, _) => s'.IncDecStmt?
    case IfStmt(_, _, _, _, _) => s'.IfStmt?
    case ForStmt(_, _, _, _, _) => s'.ForStmt?
    case RangeStmt(_, _, _, _, _) => s'.RangeStmt?
    case SwitchStmt(_, _, _) => s'.SwitchStmt?
    case ReturnStmt(_, _) => s'.ReturnStmt?
    case BranchStmt(_, _) => s'.BranchStmt?
    case BlockStmt(_, _) => s'.BlockStmt?
    case ConstDecl(_, _, _) => s'.ConstDecl?
    case EmptyStmt(_) => s'.EmptyStmt?
  }

  // ---- Which node may take the place of which ----

  function ValidReplacements(original: NodeType): set<NodeType> {
    match original
    case NTCaseClause => {NTCaseClause}
    case NTIfStmt => {NTIfStmt, NTBlockStmt}
    case NTForStmt => {NTForStmt, NTBlockStmt}
    case NTRangeStmt => {NTRangeStmt, NTBlockStmt}
    case NTAssignStmt => {NTAssignStmt, NTBlockStmt, NTExprStmt}
    case NTIncDecStmt => {NTIncDecStmt, NTCallExpr, NTBlockStmt}
    case NTSwitchStmt => {NTSwitchStmt, NTBlockStmt}
    case NTReturnStmt => {NTReturnStmt, NTBlockStmt, NTErrStmt}
    case NTBranchStmt => {NTBranchStmt, NTExprStmt, NTErrStmt, NTBlockStmt}
    case NTExprStmt => {NTExprStmt, NTBlockStmt, NTErrStmt}
    case NTDeclStmt => {NTDeclStmt, NTBlockStmt}
    case NTErrStmt => {NTErrStmt, NTBlockStmt}
    case NTBlockStmt => {NTBlockStmt}
    case NTFuncDecl => {NTFuncDecl}
    case _ => {}
  }

  predicate IsValidReplacement(original: NodeType, replacement: NodeType) {
    original == replacement || replacement in ValidReplacements(original)
  }

  // ---- One node, its children already visited ----

  function PlaceExpr(e: Expr, skip: bool, m: Sites): Expr {
    // a parenthesis has type NTUnknown, which has no handler
    if skip || e.ParenExpr? || KeyOfExpr(e) !in m then e else HandleExpr(e, m[KeyOfExpr(e)])
  }

  function PlaceStmt(s: Stmt, m: Sites, inCase: bool): Stmt {
    var key := KeyOfStmt(s);
    if key !in m then s
    else
      var ms := m[key];
      var r := if s.ReturnStmt? then HandleReturn(s, ms, if ms == [] then "" else ms[0].returnType, inCase)
               else HandleStmt(s, ms, inCase);
      if IsValidReplacement(TypeOfStmt(s), TypeOfStmt(r)) then r else s
  }

  function PlaceClause(c: Clause, m: Sites): Clause {
    var key := KeyOfClause(c);
    if key !in m then c else HandleCaseClause(c, m[key], if m[key] == [] then "" else m[key][0].returnType)
  }

  function PlaceFunc(f: FuncDecl, m: Sites): FuncDecl {
    var key := KeyOfFunc(f);
    if key !in m then f else HandleFuncDecl(f, m[key])
  }

  // ---- The traversal ----

  /** A child of an expression that has mutants itself is left alone. */
  function VisitKids(e: Expr, m: Sites): Expr
    decreases e, 0
  {
    var skip := KeyOfExpr(e) in m;
    match e
    case Ident(_, _) => e
    case BasicLit(_, _) => e
    case UnaryExpr(p, op, x) => UnaryExpr(p, op, VisitExpr(x, skip, m))
    case BinaryExpr(p, x, op, y) => BinaryExpr(p, VisitExpr(x, skip, m), op, VisitExpr(y, skip, m))
    case ParenExpr(p, x) => ParenExpr(p, VisitExpr(x, skip, m))
    case CallExpr(p, fun, args) => CallExpr(p, fun, VisitExprs(args, skip, m))
    case FuncLitCall(body) => FuncLitCall(VisitList(body, m, false))
  }

  function VisitExpr(e: Expr, skip: bool, m: Sites): Expr
    decreases e, 1
  {
    PlaceExpr(VisitKids(e, m), skip, m)
  }

  function VisitExprs(es: seq<Expr>, skip: bool, m: Sites): (r: seq<Expr>)
    ensures |r| == |es|
    decreases es, 1
  {
    if es == [] then [] else [VisitExpr(es[0], skip, m)] + VisitExprs(es[1..], skip, m)
  }

  function VisitOptExpr(e: Option<Expr>, m: Sites): Option<Expr>
    decreases e, 1
  {
    match e
    case None => None
    case Some(x) => Some(VisitExpr(x, false, m))
  }

  function VisitStmtKids(s: Stmt, m: Sites, inCase: bool): Stmt
    decreases s, 0
  {
    match s
    case ExprStmt(x) => ExprStmt(VisitExpr(x, false, m))
    case AssignStmt(p, lhs, tok, rhs) => AssignStmt(p, lhs, tok, VisitExpr(rhs, false, m))
    case IncDecStmt(_, _, _) => s
    case IfStmt(p, init, cond, body, els) =>
      IfStmt(p, VisitOpt(init, m, inCase), VisitExpr(cond, false, m), VisitList(body, m, inCase),
          VisitOpt(els, m, inCase))
    case ForStmt(p, init, cond, post, body) =>
      ForStmt(p, VisitOpt(init, m, inCase), VisitOptExpr(cond, m), VisitOpt(post, m, inCase),
          VisitList(body, m, inCase))
    // the range target itself is never wrapped
    case RangeStmt(p, key, value, x, body) =>
        RangeStmt(p, key, value, VisitExpr(x, true, m), VisitList(body, m, inCase))
    case SwitchStmt(p, tag, clauses) => SwitchStmt(p, VisitExpr(tag, false, m), VisitClauses(clauses, m))
    case ReturnStmt(p, result) => ReturnStmt(p, VisitOptExpr(result, m))
    case BranchStmt(_, _) => s
    case BlockStmt(p, list) => BlockStmt(p, VisitList(list, m, inCase))
    // constants are never wrapped
    case ConstDecl(_, _, _) => s
    case EmptyStmt(_) => s
  }

  function VisitStmt(s: Stmt, m: Sites, inCase: bool): Stmt
    decreases s, 1
  {
    PlaceStmt(VisitStmtKids(s, m, inCase), m, inCase)
  }

  function VisitOpt(s: Option<Stmt>, m: Sites, inCase: bool): Option<Stmt>
    decreases s, 1
  {
    match s
    case None => None
    case Some(t) => Some(VisitStmt(t, m, inCase))
  }

  function VisitList(l: seq<Stmt>, m: Sites, inCase: bool): (r: seq<Stmt>)
    ensures |r| == |l|
    decreases l, 1
  {
    if l == [] then [] else [VisitStmt(l[0], m, inCase)] + VisitList(l[1..], m, inCase)
  }

  function VisitClauseKids(c: Clause, m: Sites): Clause
    decreases c, 1
  {
    CaseClause(c.pos, c.isDefault, VisitExprs(c.list, false, m), VisitList(c.body, m, true))
  }

  function VisitClauses(cs: seq<Clause>, m: Sites): (r: seq<Clause>)
    ensures |r| == |cs|
    decreases cs, 1
  {
    if cs == [] then [] else [PlaceClause(VisitClauseKids(cs[0], m), m)] + VisitClauses(cs[1..], m)
  }

  function VisitFunc(f: FuncDecl, m: Sites): FuncDecl {
    PlaceFunc(f.(body := VisitList(f.body, m, false)), m)
  }

  function VisitFile(fs: seq<FuncDecl>, m: Sites): seq<FuncDecl> {
    if fs == [] then [] else [VisitFunc(fs[0], m)] + VisitFile(fs[1..], m)
  }

  // ---- Grouping mutants by site ----

  datatype Mutant = Mutant(id: int, op: Operator, site: Key, returnType: string)

  /** The mutants of one site, in the order of the file's mutant list. */
  function AtSite(ms: seq<Mutant>, key: Key): seq<MutantForSite> {
    if ms == [] then []
    else if ms[|ms| - 1].site == key then
      AtSite(ms[..|ms| - 1], key) + [MutantForSite(ms[|ms| - 1].id, ms[|ms| - 1].op, ms[|ms| - 1].returnType)]
    else AtSite(ms[..|ms| - 1], key)
  }

  ghost predicate GroupedBySite(ms: seq<Mutant>, m: Sites) {
    && (forall key :: key in m <==> AtSite(ms, key) != [])
    && (forall key :: key in m ==> m[key] == AtSite(ms, key))
  }

  method BuildPositionToMutantsMap(ms: seq<Mutant>) returns (m: Sites)
    ensures GroupedBySite(ms, m)
  {
    m := map[];
    for i := 0 to |ms|
      invariant GroupedBySite(ms[..i], m)
    {
      var mu := ms[i];
      assert ms[..i + 1][..i] == ms[..i];
      m := m[mu.site := (if mu.site in m then m[mu.site] else []) + [MutantForSite(mu.id, mu.op, mu.returnType)]];
    }
    assert ms[..|ms|] == ms;
  }
}
