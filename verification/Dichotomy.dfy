/**
 Where the guard of a mutant stands, read off the source: exactly at its site if it lands
 there, and nowhere if it does not.
 */
module Dichotomy {
  import opened Wrappers
  import opened GoAst
  import opened Operators
  import opened Schemata
  import opened Visitor
  import opened Mutation
  import opened Placement
  import Equivalence

  /** Only the site `key` has mutants with the id `k`, at least one if it is a site, and all with the operator `op`. */
  ghost predicate Sole(m: Sites, k: int, key: Key, op: Operator) {
    && (forall other, mu :: other in m && mu in m[other] && mu.id == k ==> other == key && mu.op == op)
    && (key in m ==> exists mu :: mu in m[key] && mu.id == k)
  }

  const STATEMENTS: set<NodeType> :=
    {NTForStmt, NTRangeStmt, NTAssignStmt, NTIncDecStmt, NTSwitchStmt, NTBranchStmt, NTExprStmt, NTDeclStmt, NTErrStmt,
        NTBlockStmt}

  /** The one mutant of a statement that is neither an `if` nor a return: the table rejects its conditional. */
  ghost predicate Rejected(m: Sites, key: Key) {
    key.kind in STATEMENTS && key in m && |m[key]| == 1
  }

  /** What is claimed of a subtree in which the site occurs `n` times; the last two say where the guard stands. */
  ghost predicate Decided(m: Sites, key: Key, n: nat, lands: bool, nowhere: bool, exactly: bool) {
    && (n == 0 ==> !lands && nowhere && exactly)
    && (n <= 1 ==> (nowhere <==> !lands) && (lands ==> exactly))
    && (Rejected(m, key) ==> !lands)
  }

  // ---- One expression ----

  lemma {:induction false} ExprResultsFor(e: Expr, ms: seq<MutantForSite>, k: int, op: Operator)
    requires forall mu :: mu in ms && mu.id == k ==> mu.op == op
    ensures NodeFor(ExprResults(e, ms), k).Some? <==> MutateExpr(op, e).Some? && exists mu :: mu in ms && mu.id == k
    decreases |ms|
  {
    hide MutateExpr;
    if ms != [] {
      assert ms == [ms[0]] + ms[1..];
      ExprResultsFor(e, ms[1..], k, op);
    }
  }

  lemma {:induction false} ExprResultsAny(e: Expr, ms: seq<MutantForSite>)
    ensures ExprResults(e, ms) != [] <==> exists mu :: mu in ms && MutateExpr(mu.op, e).Some?
    decreases |ms|
  {
    hide MutateExpr;
    if ms != [] {
      assert ms == [ms[0]] + ms[1..];
      ExprResultsAny(e, ms[1..]);
    }
  }

  /** An operator answers an expression by its constructor, token and name, which the visit keeps. */
  lemma SameAnswer(op: Operator, e: Expr, m: Sites)
    requires !e.FuncLitCall?
    ensures MutateExpr(op, VisitKids(e, m)).Some? <==> MutateExpr(op, e).Some?
  {
    hide VisitExpr, VisitExprs;
  }

  lemma PlacedOnExpr(e: Expr, skip: bool, m: Sites, k: int, key: Key, op: Operator)
    requires Sole(m, k, key, op) && !e.FuncLitCall?
    ensures NodeFor(PlacedExprHere(VisitKids(e, m), skip, m), k).Some?
            <==> KeyOfExpr(e) == key && LandsOnExpr(e, skip, m, op)
  {
    hide *;
    Equivalence.VisitKidsShape(e, m);
    SameAnswer(op, e, m);
    PlacedAt(VisitKids(e, m), skip, m, k, key, op);
    SameLanding(e, VisitKids(e, m), skip, m, op);
  }

  lemma PlacedAt(e: Expr, skip: bool, m: Sites, k: int, key: Key, op: Operator)
    requires Sole(m, k, key, op)
    ensures NodeFor(PlacedExprHere(e, skip, m), k).Some? <==> KeyOfExpr(e) == key && LandsOnExpr(e, skip, m, op)
  {
    hide MutateExpr, KeyOfExpr, Sole, ExprResults;
    if KeyOfExpr(e) in m {
      SoleSite(m, k, key, op, KeyOfExpr(e));
      if KeyOfExpr(e) == key {
        ExprResultsFor(e, m[key], k, op);
      } else if NodeFor(ExprResults(e, m[KeyOfExpr(e)]), k).Some? {
        Equivalence.ExprResultsFrom(e, m[KeyOfExpr(e)], k);
      }
    }
  }

  lemma SameLanding(e: Expr, e': Expr, skip: bool, m: Sites, op: Operator)
    requires KeyOfExpr(e') == KeyOfExpr(e) && e'.ParenExpr? == e.ParenExpr?
    requires MutateExpr(op, e').Some? <==> MutateExpr(op, e).Some?
    ensures LandsOnExpr(e', skip, m, op) <==> LandsOnExpr(e, skip, m, op)
  {
    hide MutateExpr, KeyOfExpr;
  }

  lemma SoleSite(m: Sites, k: int, key: Key, op: Operator, here: Key)
    requires Sole(m, k, key, op) && here in m
    ensures here != key ==> forall mu :: mu in m[here] ==> mu.id != k
    ensures here == key ==> (exists mu :: mu in m[here] && mu.id == k) && forall mu :: mu in m[here] && mu.id == k
                                                                            ==> mu.op == op
  {
  }

  lemma ShapeOfOk(e: Expr, m: Sites)
    requires OkExpr(e, m)
    ensures !e.FuncLitCall?
  {
  }

  lemma {:induction false} ExprDecided(e: Expr, skip: bool, m: Sites, k: int, key: Key, op: Operator)
    requires Sole(m, k, key, op) && OkExpr(e, m)
    ensures Decided(m, key, KeysExpr(e, key), LandsExpr(e, skip, m, key, op),
                    ExactlyExpr(e, skip, m, k, NOWHERE), ExactlyExpr(e, skip, m, k, key))
    decreases e, 2
  {
    hide LandsOnExpr, LandsKids, ExactlyKids, KeysKids, VisitKids, OkExpr, PlacedExprHere, Sole;
    KidsDecided(e, m, k, key, op);
    ShapeOfOk(e, m);
    ExprLands(e, skip, m, op);
    PlacedOnExpr(e, skip, m, k, key, op);
  }

  lemma {:induction false} KidsDecided(e: Expr, m: Sites, k: int, key: Key, op: Operator)
    requires Sole(m, k, key, op) && OkExpr(e, m)
    ensures Decided(m, key, KeysKids(e, key), LandsKids(e, m, key, op),
                    ExactlyKids(e, m, k, NOWHERE), ExactlyKids(e, m, k, key))
    decreases e, 1
  {
    hide Rejected, LandsExpr, ExactlyExpr, KeysExpr, Sole, GeneratedExpr;
    var skip := KeyOfExpr(e) in m;
    match e
    case UnaryExpr(_, _, x) => ExprDecided(x, skip, m, k, key, op);
    case BinaryExpr(_, x, _, y) =>
      ExprDecided(x, skip, m, k, key, op);
      ExprDecided(y, skip, m, k, key, op);
    case ParenExpr(_, x) => ExprDecided(x, skip, m, k, key, op);
    case CallExpr(_, _, args) => ExprsDecided(args, skip, m, k, key, op);
    case _ =>
  }

  lemma {:induction false} ExprsDecided(es: seq<Expr>, skip: bool, m: Sites, k: int, key: Key, op: Operator)
    requires Sole(m, k, key, op) && OkExprs(es, m)
    ensures Decided(m, key, KeysExprs(es, key), LandsExprs(es, skip, m, key, op),
                    ExactlyExprs(es, skip, m, k, NOWHERE), ExactlyExprs(es, skip, m, k, key))
    decreases es, 2
  {
    hide Rejected, LandsExpr, ExactlyExpr, KeysExpr, OkExpr, Sole;
    if es != [] {
      ExprDecided(es[0], skip, m, k, key, op);
      ExprsDecided(es[1..], skip, m, k, key, op);
    }
  }

  lemma {:induction false} OptExprDecided(e: Option<Expr>, m: Sites, k: int, key: Key, op: Operator)
    requires Sole(m, k, key, op) && OkOptExpr(e, m)
    ensures Decided(m, key, KeysOptExpr(e, key), LandsOptExpr(e, m, key, op),
                    ExactlyOptExpr(e, m, k, NOWHERE), ExactlyOptExpr(e, m, k, key))
  {
    hide Rejected, LandsExpr, ExactlyExpr, KeysExpr, OkExpr, Sole;
    if e.Some? { ExprDecided(e.value, false, m, k, key, op); }
  }

  // ---- One statement ----

  /** What an expression looks like after the visit: a wrapper, or its own shape. */
  lemma VisitedShape(e: Expr, skip: bool, m: Sites)
    requires !e.FuncLitCall?
    ensures VisitExpr(e, skip, m) == if Wrapped(e, skip, m) then VisitExpr(e, skip, m) else VisitKids(e, m)
    ensures VisitExpr(e, skip, m).FuncLitCall? <==> Wrapped(e, skip, m)
  {
    hide VisitKids, MutateExpr;
    Equivalence.VisitKidsShape(e, m);
    if KeyOfExpr(e) in m {
      ExprResultsAny(VisitKids(e, m), m[KeyOfExpr(e)]);
      forall mu | mu in m[KeyOfExpr(e)] ensures MutateExpr(mu.op, VisitKids(e, m)).Some?
          <==> MutateExpr(mu.op, e).Some? {
        SameAnswer(mu.op, e, m);
      }
    }
  }

  /** No operator answers a literal, so literals are never wrapped. */
  lemma {:induction false} VisitedLiteral(e: Expr, skip: bool, m: Sites)
    ensures IsNumericLiteral(e) ==> IsNumericLiteral(VisitExpr(e, skip, m))
    ensures IsTextLiteral(e) ==> IsTextLiteral(VisitExpr(e, skip, m))
    decreases e
  {
    match e
    case BasicLit(_, _) => VisitedShape(e, skip, m);
    case ParenExpr(_, x) =>
      VisitedShape(e, skip, m);
      VisitedLiteral(x, KeyOfExpr(e) in m, m);
    case _ =>
  }

  lemma VisitedIdent(e: Expr, skip: bool, m: Sites)
    requires !e.FuncLitCall?
    ensures VisitExpr(e, skip, m).Ident? ==> VisitExpr(e, skip, m) == e
    ensures e.Ident? && !Wrapped(e, skip, m) ==> VisitExpr(e, skip, m) == e
    ensures e.Ident? && Wrapped(e, skip, m) ==> !VisitExpr(e, skip, m).Ident?
  {
    VisitedShape(e, skip, m);
    hide VisitExpr, VisitExprs, Wrapped;
  }

  /** A comparison of two identifiers is still one after the visit exactly if nothing of it was wrapped. */
  lemma VisitedComparison(e: Expr, m: Sites)
    requires e.BinaryExpr? && e.x.Ident? && e.y.Ident?
    ensures ConditionIntact(e, m) ==> VisitExpr(e, false, m) == e
    ensures !ConditionIntact(e, m) ==> var v := VisitExpr(e, false, m); !(v.BinaryExpr? && v.x.Ident? && v.y.Ident?)
  {
    VisitedShape(e, false, m);
    VisitedIdent(e.x, KeyOfExpr(e) in m, m);
    VisitedIdent(e.y, KeyOfExpr(e) in m, m);
    hide VisitExpr, Wrapped;
  }

  /** A return stays one. */
  lemma VisitedReturn(s: Stmt, m: Sites, inCase: bool)
    requires s.ReturnStmt?
    ensures VisitStmt(s, m, inCase).ReturnStmt?
  {
    var s' := VisitStmtKids(s, m, inCase);
    var key := KeyOfStmt(s');
    if key in m && s'.result.Some? {
      Equivalence.PlaceReturnSpec(s', m[key], if m[key] == [] then "" else m[key][0].returnType, inCase, 0);
    }
  }

  /** Where a statement is looked up after its children were visited. */
  lemma VisitedKey(s: Stmt, m: Sites, inCase: bool)
    requires OkSites(m) && OkStmt(s, m)
    ensures var s' := VisitStmtKids(s, m, inCase);
            && TypeOfStmt(s') == TypeOfStmt(s) && (s'.IfStmt? <==> s.IfStmt?) && (s'.ReturnStmt? <==> s.ReturnStmt?)
            && (KeyOfStmt(s') == KeyOfStmt(s) || KeyOfStmt(s') !in m)
  {
    hide VisitExpr, VisitOptExpr, VisitOpt, VisitList, VisitClauses, OkExpr, OkOpt, OkList, OkOptExpr, OkClauses;
    if s.ExprStmt? { Equivalence.VisitExprShape(s.x, false, m); }
  }

  /** No operator answers a call, so a statement that is a call keeps its position. */
  lemma VisitedCall(s: Stmt, m: Sites, inCase: bool)
    requires s.ExprStmt? && s.x.CallExpr?
    ensures var s' := VisitStmtKids(s, m, inCase);
            KeyOfStmt(s') == KeyOfStmt(s) && s'.x.CallExpr? && s'.x.fun == s.x.fun
  {
    VisitedShape(s.x, false, m);
    hide VisitExpr, VisitExprs;
  }

  lemma CallOf(op: Operator, s: Stmt, m: Sites, inCase: bool)
    requires s.ExprStmt? && OkStmt(s, m) && Suits(op, s)
    ensures s.x.CallExpr?
  {
    ShapeOfOk(s.x, m);
    hide OkExpr;
  }

  /** Whether the operator still applies after the children of the statement were visited. */
  predicate Recognised(op: Operator, s: Stmt, m: Sites) {
    && (op.ErrorCheckRemoval? || op.NilCheckRemoval? ==> s.IfStmt? && ConditionIntact(s.cond, m))
    && (op.ZeroValueReturnBool? ==> s.ReturnStmt? && s.result.Some? && !Wrapped(s.result.value, false, m))
  }

  lemma IfRecognised(op: Operator, s: Stmt, m: Sites, inCase: bool)
    requires s.IfStmt? && OkStmt(s, m) && Suits(op, s)
    ensures MutateStmt(op, VisitStmtKids(s, m, inCase), inCase).Some?
       <==> MutateStmt(op, s, inCase).Some? && Recognised(op, s, m)
  {
    if op.ErrorCheckRemoval? || op.NilCheckRemoval? { VisitedComparison(s.cond, m); }
    if op.ErrorCheckRemoval? {
      VisitedReturn(s.body[0], m, inCase);
      assert VisitList(s.body, m, inCase)[0] == VisitStmt(s.body[0], m, inCase);
    }
    ShapeOfOk(s.cond, m);
    VisitedShape(s.cond, false, m);
    hide VisitExpr, VisitOpt, VisitList, VisitStmt, OkExpr, OkOpt, OkList, ConditionIntact, Wrapped;
  }

  lemma ReturnRecognised(op: Operator, s: Stmt, m: Sites, inCase: bool)
    requires s.ReturnStmt? && OkStmt(s, m) && Suits(op, s)
    ensures MutateStmt(op, VisitStmtKids(s, m, inCase), inCase).Some?
       <==> MutateStmt(op, s, inCase).Some? && Recognised(op, s, m)
  {
    var e := s.result.value;
    VisitedLiteral(e, false, m);
    ShapeOfOk(e, m);
    VisitedIdent(e, false, m);
    hide VisitExpr, OkExpr, Wrapped;
  }

  lemma OtherRecognised(op: Operator, s: Stmt, m: Sites, inCase: bool)
    requires !s.IfStmt? && !s.ReturnStmt? && OkStmt(s, m) && Suits(op, s)
    ensures MutateStmt(op, VisitStmtKids(s, m, inCase), inCase).Some?
       <==> MutateStmt(op, s, inCase).Some? && Recognised(op, s, m)
  {
    if s.ExprStmt? {
      CallOf(op, s, m, inCase);
      VisitedCall(s, m, inCase);
    }
    hide VisitExpr, VisitOptExpr, VisitOpt, VisitList, VisitClauses, OkExpr, OkOptExpr, OkOpt, OkList, OkClauses,
         Wrapped;
  }

  lemma StillRecognised(op: Operator, s: Stmt, m: Sites, inCase: bool)
    requires OkStmt(s, m) && Suits(op, s)
    ensures MutateStmt(op, VisitStmtKids(s, m, inCase), inCase).Some?
       <==> MutateStmt(op, s, inCase).Some? && Recognised(op, s, m)
  {
    hide *;
    if s.IfStmt? {
      IfRecognised(op, s, m, inCase);
    } else if s.ReturnStmt? {
      ReturnRecognised(op, s, m, inCase);
    } else {
      OtherRecognised(op, s, m, inCase);
    }
  }

  lemma {:induction false} StmtResultsFor(s: Stmt, ms: seq<MutantForSite>, inCase: bool, k: int, op: Operator)
    requires forall mu :: mu in ms && mu.id == k ==> mu.op == op
    ensures NodeFor(StmtResults(s, ms, inCase), k).Some?
            <==> MutateStmt(op, s, inCase).Some? && exists mu :: mu in ms && mu.id == k
    decreases |ms|
  {
    hide MutateStmt;
    if ms != [] {
      assert ms == [ms[0]] + ms[1..];
      StmtResultsFor(s, ms[1..], inCase, k, op);
    }
  }

  lemma {:induction false} ReturnResultsFor(s: Stmt, ms: seq<MutantForSite>, rt: string, inCase: bool, k: int,
                                            op: Operator)
    requires forall mu :: mu in ms && mu.id == k ==> mu.op == op
    ensures NodeFor(ReturnResults(s, ms, rt, inCase), k).Some?
       <==> ReturnedExpr(MutateStmt(op, s, inCase), rt).Some? && exists mu :: mu in ms && mu.id == k
    decreases |ms|
  {
    hide MutateStmt, ReturnedExpr;
    if ms != [] {
      assert ms == [ms[0]] + ms[1..];
      ReturnResultsFor(s, ms[1..], rt, inCase, k, op);
    }
  }

  /** Only interface_returns answers with nil. */
  lemma NilIsUnsafe(op: Operator, s: Stmt, inCase: bool, rt: string)
    requires s.ReturnStmt? && s.result.Some?
    ensures ReturnedExpr(MutateStmt(op, s, inCase), rt).Some?
       <==> MutateStmt(op, s, inCase).Some? && (op.InterfaceReturns? ==> IsNilableType(rt))
  {
    hide IsNilableType, IsNumericLiteral, IsTextLiteral;
  }

  /** The guards of one statement after its children were visited. */
  lemma PlacedOnVisited(s: Stmt, m: Sites, inCase: bool, k: int, key: Key, op: Operator)
    requires Sole(m, k, key, op) && KeyOfStmt(s) == key && key in m && (s.ReturnStmt? ==> s.result.Some?)
    ensures NodeFor(PlacedStmtHere(s, m, inCase), k).Some?
       <==> MutateStmt(op, s, inCase).Some? && (s.IfStmt? || s.ReturnStmt? || |m[key]| >= 2)
            && (op.InterfaceReturns? && s.ReturnStmt? ==> IsNilableType(m[key][0].returnType))
  {
    hide MutateStmt, ReturnedExpr, IsNilableType, KeyOfStmt;
    var ms := m[key];
    var mu :| mu in ms && mu.id == k;
    if s.ReturnStmt? {
      var rt := ms[0].returnType;
      ReturnResultsFor(s, ms, rt, inCase, k, op);
      Equivalence.NodeForAsReturns(ReturnResults(s, ms, rt, inCase), k);
      NilIsUnsafe(op, s, inCase, rt);
    } else {
      StmtResultsFor(s, ms, inCase, k, op);
    }
  }

  lemma PlacedOnStmt(s: Stmt, m: Sites, inCase: bool, k: int, key: Key, op: Operator)
    requires OkSites(m) && Sole(m, k, key, op) && OkStmt(s, m)
    ensures NodeFor(PlacedStmtHere(VisitStmtKids(s, m, inCase), m, inCase), k).Some?
       <==> KeyOfStmt(s) == key && LandsOnStmt(s, m, inCase, op)
  {
    hide *;
    var s' := VisitStmtKids(s, m, inCase);
    VisitedKey(s, m, inCase);
    LandsOnlyAtSites(s, m, inCase, op);
    if KeyOfStmt(s) == key && key in m {
      SoleApplies(s, m, inCase, k, key, op);
      StillRecognised(op, s, m, inCase);
      HasResult(op, s, m, inCase);
      VisitedWhere(op, s, m, inCase);
      PlacedOnVisited(s', m, inCase, k, key, op);
    } else {
      NotPlaced(s', m, inCase, k, key, op);
    }
  }

  lemma LandsOnlyAtSites(s: Stmt, m: Sites, inCase: bool, op: Operator)
    ensures LandsOnStmt(s, m, inCase, op) ==> KeyOfStmt(s) in m
  {
  }

  lemma SoleApplies(s: Stmt, m: Sites, inCase: bool, k: int, key: Key, op: Operator)
    requires OkStmt(s, m) && Sole(m, k, key, op) && KeyOfStmt(s) == key && key in m
    ensures Suits(op, s) && m[key] != []
    ensures LandsOnStmt(s, m, inCase, op)
       <==> MutateStmt(op, s, inCase).Some? && Recognised(op, s, m) && (s.IfStmt? || s.ReturnStmt? || |m[key]| >= 2)
            && (op.InterfaceReturns? && s.ReturnStmt? ==> IsNilableType(m[key][0].returnType))
  {
    hide MutateStmt, ConditionIntact, Wrapped, IsNilableType, KeyOfStmt;
    var mu :| mu in m[key] && mu.id == k;
    Generated(s, m, inCase, mu);
    InterfaceReturnsReturns(op, s, inCase);
    hide OkStmt, Suits;
  }

  lemma Generated(s: Stmt, m: Sites, inCase: bool, mu: MutantForSite)
    requires OkStmt(s, m) && KeyOfStmt(s) in m && mu in m[KeyOfStmt(s)]
    ensures Suits(mu.op, s)
  {
  }

  lemma InterfaceReturnsReturns(op: Operator, s: Stmt, inCase: bool)
    requires Suits(op, s)
    ensures op.InterfaceReturns? ==> s.ReturnStmt?
  {
  }

  lemma HasResult(op: Operator, s: Stmt, m: Sites, inCase: bool)
    requires Suits(op, s)
    ensures var s' := VisitStmtKids(s, m, inCase); s.ReturnStmt? ==> s'.ReturnStmt? && s'.result.Some?
  {
  }

  lemma VisitedWhere(op: Operator, s: Stmt, m: Sites, inCase: bool)
    requires OkStmt(s, m) && Suits(op, s)
    ensures KeyOfStmt(VisitStmtKids(s, m, inCase)) == KeyOfStmt(s)
  {
    if s.ExprStmt? {
      CallOf(op, s, m, inCase);
      VisitedCall(s, m, inCase);
    }
  }

  lemma NotPlaced(s: Stmt, m: Sites, inCase: bool, k: int, key: Key, op: Operator)
    requires Sole(m, k, key, op) && (KeyOfStmt(s) !in m || KeyOfStmt(s) != key)
    ensures NodeFor(PlacedStmtHere(s, m, inCase), k).None?
  {
    if NodeFor(PlacedStmtHere(s, m, inCase), k).Some? { Equivalence.PlacedStmtFrom(s, m, inCase, k); }
  }

  lemma ExprLands(e: Expr, skip: bool, m: Sites, op: Operator)
    ensures LandsOnExpr(e, skip, m, op) ==> !Rejected(m, KeyOfExpr(e))
  {
  }

  lemma StmtLands(s: Stmt, m: Sites, inCase: bool, op: Operator)
    ensures LandsOnStmt(s, m, inCase, op) ==> !Rejected(m, KeyOfStmt(s))
  {
  }

  // ---- The traversal ----

  lemma {:induction false} StmtDecided(s: Stmt, m: Sites, inCase: bool, k: int, key: Key, op: Operator)
    requires OkSites(m) && Sole(m, k, key, op) && OkStmt(s, m)
    ensures Decided(m, key, KeysStmt(s, key), LandsStmt(s, m, inCase, key, op),
                    ExactlyStmt(s, m, inCase, k, NOWHERE), ExactlyStmt(s, m, inCase, k, key))
    decreases s, 2
  {
    hide LandsOnStmt, LandsStmtKids, ExactlyStmtKids, KeysStmtKids, VisitStmtKids, OkStmt, PlacedStmtHere, KeyOfStmt,
         Sole, OkSites;
    StmtKidsDecided(s, m, inCase, k, key, op);
    StmtLands(s, m, inCase, op);
    PlacedOnStmt(s, m, inCase, k, key, op);
    Equivalence.StmtIsNoClause(s);
  }

  lemma {:induction false} StmtKidsDecided(s: Stmt, m: Sites, inCase: bool, k: int, key: Key, op: Operator)
    requires OkSites(m) && Sole(m, k, key, op) && OkStmt(s, m)
    ensures Decided(m, key, KeysStmtKids(s, key), LandsStmtKids(s, m, inCase, key, op),
                    ExactlyStmtKids(s, m, inCase, k, NOWHERE), ExactlyStmtKids(s, m, inCase, k, key))
    decreases s, 1
  {
    hide Rejected, LandsExpr, ExactlyExpr, KeysExpr, OkExpr, LandsOptExpr, ExactlyOptExpr, KeysOptExpr, OkOptExpr,
         LandsList, ExactlyList, KeysList, OkList, LandsOpt, ExactlyOpt, KeysOpt, OkOpt,
         LandsClauses, ExactlyClauses, KeysClauses, OkClauses, Sole, OkSites, GeneratedStmt;
    match s
    case ExprStmt(x) => ExprDecided(x, false, m, k, key, op);
    case AssignStmt(_, _, _, rhs) => ExprDecided(rhs, false, m, k, key, op);
    case IfStmt(_, _, _, _, _) => IfKidsDecided(s, m, inCase, k, key, op);
    case ForStmt(_, _, _, _, _) => ForKidsDecided(s, m, inCase, k, key, op);
    case RangeStmt(_, _, _, x, body) =>
      ExprDecided(x, true, m, k, key, op);
      ListDecided(body, m, inCase, k, key, op);
    case SwitchStmt(_, tag, clauses) =>
      ExprDecided(tag, false, m, k, key, op);
      ClausesDecided(clauses, m, k, key, op);
    case ReturnStmt(_, result) => OptExprDecided(result, m, k, key, op);
    case BlockStmt(_, list) => ListDecided(list, m, inCase, k, key, op);
    case _ =>
  }

  lemma {:induction false} IfKidsDecided(s: Stmt, m: Sites, inCase: bool, k: int, key: Key, op: Operator)
    requires s.IfStmt? && OkSites(m) && Sole(m, k, key, op) && OkStmt(s, m)
    ensures Decided(m, key, KeysStmtKids(s, key), LandsStmtKids(s, m, inCase, key, op),
                    ExactlyStmtKids(s, m, inCase, k, NOWHERE), ExactlyStmtKids(s, m, inCase, k, key))
    decreases s, 0
  {
    hide Rejected, LandsExpr, ExactlyExpr, KeysExpr, OkExpr, LandsList, ExactlyList, KeysList, OkList,
         LandsOpt, ExactlyOpt, KeysOpt, OkOpt, Sole, OkSites, GeneratedStmt;
    OptDecided(s.init, m, inCase, k, key, op);
    ExprDecided(s.cond, false, m, k, key, op);
    ListDecided(s.body, m, inCase, k, key, op);
    OptDecided(s.els, m, inCase, k, key, op);
  }

  lemma {:induction false} ForKidsDecided(s: Stmt, m: Sites, inCase: bool, k: int, key: Key, op: Operator)
    requires s.ForStmt? && OkSites(m) && Sole(m, k, key, op) && OkStmt(s, m)
    ensures Decided(m, key, KeysStmtKids(s, key), LandsStmtKids(s, m, inCase, key, op),
                    ExactlyStmtKids(s, m, inCase, k, NOWHERE), ExactlyStmtKids(s, m, inCase, k, key))
    decreases s, 0
  {
    hide Rejected, LandsOptExpr, ExactlyOptExpr, KeysOptExpr, OkOptExpr, LandsList, ExactlyList, KeysList, OkList,
         LandsOpt, ExactlyOpt, KeysOpt, OkOpt, Sole, OkSites, GeneratedStmt;
    OptDecided(s.init, m, inCase, k, key, op);
    OptExprDecided(s.forCond, m, k, key, op);
    OptDecided(s.post, m, inCase, k, key, op);
    ListDecided(s.body, m, inCase, k, key, op);
  }

  lemma {:induction false} OptDecided(s: Option<Stmt>, m: Sites, inCase: bool, k: int, key: Key, op: Operator)
    requires OkSites(m) && Sole(m, k, key, op) && OkOpt(s, m)
    ensures Decided(m, key, KeysOpt(s, key), LandsOpt(s, m, inCase, key, op),
                    ExactlyOpt(s, m, inCase, k, NOWHERE), ExactlyOpt(s, m, inCase, k, key))
    decreases s, 2
  {
    hide Rejected, LandsStmt, ExactlyStmt, KeysStmt, OkStmt, Sole, OkSites;
    if s.Some? { StmtDecided(s.value, m, inCase, k, key, op); }
  }

  lemma {:induction false} ListDecided(l: seq<Stmt>, m: Sites, inCase: bool, k: int, key: Key, op: Operator)
    requires OkSites(m) && Sole(m, k, key, op) && OkList(l, m)
    ensures Decided(m, key, KeysList(l, key), LandsList(l, m, inCase, key, op),
                    ExactlyList(l, m, inCase, k, NOWHERE), ExactlyList(l, m, inCase, k, key))
    decreases l, 2
  {
    hide Rejected, LandsStmt, ExactlyStmt, KeysStmt, OkStmt, Sole, OkSites;
    if l != [] {
      StmtDecided(l[0], m, inCase, k, key, op);
      ListDecided(l[1..], m, inCase, k, key, op);
    }
  }

  lemma PlacedOnClause(c: Clause, m: Sites, k: int, key: Key, op: Operator)
    requires Sole(m, k, key, op)
    ensures PlacedClauseHere(VisitClauseKids(c, m), m, k) <==> KeyOfClause(c) == key && LandsOnClause(c, m, op)
  {
    hide Sole, VisitExprs, VisitList;
    var here := KeyOfClause(c);
    if here in m && |m[here]| == 1 { SoleAlone(m, k, key, op, here); }
  }

  lemma SoleAlone(m: Sites, k: int, key: Key, op: Operator, here: Key)
    requires Sole(m, k, key, op) && here in m && |m[here]| == 1
    ensures m[here][0].id == k <==> here == key
    ensures here == key ==> m[here][0].op == op
  {
    var mu := m[here][0];
    assert mu in m[here];
    if here == key {
      var own :| own in m[key] && own.id == k;
      assert own == mu;
    }
  }

  lemma {:induction false} ClauseDecided(c: Clause, m: Sites, k: int, key: Key, op: Operator)
    requires OkSites(m) && Sole(m, k, key, op) && OkExprs(c.list, m) && OkList(c.body, m)
    ensures Decided(m, key, KeysClause(c, key), LandsClause(c, m, key, op),
                    ExactlyClause(c, m, k, NOWHERE), ExactlyClause(c, m, k, key))
    decreases c, 2
  {
    hide LandsExprs, ExactlyExprs, KeysExprs, OkExprs, LandsList, ExactlyList, KeysList, OkList, OkSites, Sole,
         PlacedClauseHere, LandsOnClause, VisitClauseKids;
    ExprsDecided(c.list, false, m, k, key, op);
    ListDecided(c.body, m, true, k, key, op);
    assert KeyOfClause(c).kind == NTCaseClause;
    PlacedOnClause(c, m, k, key, op);
  }

  lemma {:induction false} ClausesDecided(cs: seq<Clause>, m: Sites, k: int, key: Key, op: Operator)
    requires OkSites(m) && Sole(m, k, key, op) && OkClauses(cs, m)
    ensures Decided(m, key, KeysClauses(cs, key), LandsClauses(cs, m, key, op),
                    ExactlyClauses(cs, m, k, NOWHERE), ExactlyClauses(cs, m, k, key))
    decreases cs, 2
  {
    hide Rejected, LandsClause, ExactlyClause, KeysClause, Sole, OkSites;
    if cs != [] {
      ClauseDecided(cs[0], m, k, key, op);
      ClausesDecided(cs[1..], m, k, key, op);
    }
  }

  /** In a file where the site occurs at most once, its guard stands there if it lands, and otherwise nowhere. */
  lemma {:induction false} FileDecided(fs: seq<FuncDecl>, m: Sites, k: int, key: Key, op: Operator)
    requires OkSites(m) && Sole(m, k, key, op) && OkFile(fs, m)
    ensures Decided(m, key, KeysFile(fs, key), LandsFile(fs, m, key, op),
                    ExactlyFile(fs, m, k, NOWHERE), ExactlyFile(fs, m, k, key))
  {
    hide Rejected, LandsList, ExactlyList, KeysList, OkList, Sole, OkSites;
    if fs != [] {
      ListDecided(fs[0].body, m, false, k, key, op);
      FileDecided(fs[1..], m, k, key, op);
    }
  }
}
