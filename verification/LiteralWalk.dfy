/**
 The second walk of the loop-variable pass visits the body of every function literal.  In a
 transformed file all literals are wrappers, and none of their bodies has anything to repair.
 */
module LiteralWalk {
  import opened Wrappers
  import opened GoAst
  import opened Operators
  import opened Schemata
  import opened Visitor
  import opened Placement
  import opened LoopVars

  // ---- Every literal is left alone ----

  predicate IdleExpr(e: Expr)
    decreases e, 1
  {
    match e
    case Ident(_, _) => true
    case BasicLit(_, _) => true
    case UnaryExpr(_, _, x) => IdleExpr(x)
    case BinaryExpr(_, x, _, y) => IdleExpr(x) && IdleExpr(y)
    case ParenExpr(_, x) => IdleExpr(x)
    case CallExpr(_, _, args) => IdleExprs(args)
    case FuncLitCall(body) => FixList(body) == body && IdleList(body)
  }

  predicate IdleExprs(es: seq<Expr>)
    decreases es, 1
  {
    es != [] ==> IdleExpr(es[0]) && IdleExprs(es[1..])
  }

  predicate IdleOptExpr(e: Option<Expr>)
    decreases e, 1
  {
    e.Some? ==> IdleExpr(e.value)
  }

  predicate IdleStmt(s: Stmt)
    decreases s, 1
  {
    match s
    case ExprStmt(x) => IdleExpr(x)
    case AssignStmt(_, _, _, rhs) => IdleExpr(rhs)
    case IfStmt(_, init, cond, body, els) => IdleOpt(init) && IdleExpr(cond) && IdleList(body) && IdleOpt(els)
    case ForStmt(_, init, cond, post, body) => IdleOpt(init) && IdleOptExpr(cond) && IdleOpt(post) && IdleList(body)
    case RangeStmt(_, _, _, x, body) => IdleExpr(x) && IdleList(body)
    case SwitchStmt(_, tag, clauses) => IdleExpr(tag) && IdleClauses(clauses)
    case ReturnStmt(_, result) => IdleOptExpr(result)
    case BlockStmt(_, list) => IdleList(list)
    case ConstDecl(_, _, x) => IdleExpr(x)
    case _ => true
  }

  predicate IdleOpt(s: Option<Stmt>)
    decreases s, 1
  {
    s.Some? ==> IdleStmt(s.value)
  }

  predicate IdleList(l: seq<Stmt>)
    decreases l, 1
  {
    l != [] ==> IdleStmt(l[0]) && IdleList(l[1..])
  }

  predicate IdleClauses(cs: seq<Clause>)
    decreases cs, 1
  {
    cs != [] ==> IdleExprs(cs[0].list) && IdleList(cs[0].body) && IdleClauses(cs[1..])
  }

  predicate IdleFile(fs: seq<FuncDecl>) { fs != [] ==> IdleList(fs[0].body) && IdleFile(fs[1..]) }

  lemma IdleCons(h: Stmt, t: seq<Stmt>)
    requires IdleStmt(h) && IdleList(t)
    ensures IdleList([h] + t) && IdleList([h])
  {
    assert ([h] + t)[1..] == t && [h][1..] == [];
    hide IdleStmt;
  }

  lemma {:induction false} IdleAppend(a: seq<Stmt>, b: seq<Stmt>)
    requires IdleList(a) && IdleList(b)
    ensures IdleList(a + b)
    decreases |a|
  {
    hide IdleStmt;
    if a == [] {
      assert a + b == b;
    } else {
      IdleAppend(a[1..], b);
      assert (a + b)[0] == a[0] && (a + b)[1..] == a[1..] + b;
    }
  }

  // ---- Operators and wrappers keep it so ----

  lemma MutatedExprIdle(op: Operator, e: Expr)
    requires IdleExpr(e) && MutateExpr(op, e).Some?
    ensures IdleExpr(MutateExpr(op, e).value)
  {
  }

  ghost predicate ExprNodesIdle(ps: seq<Placed<Expr>>) { forall p :: p in ps ==> IdleExpr(p.node) }

  lemma {:induction false} ExprResultsIdle(e: Expr, ms: seq<MutantForSite>)
    requires IdleExpr(e)
    ensures ExprNodesIdle(ExprResults(e, ms))
    decreases |ms|
  {
    hide IdleExpr, MutateExpr;
    if ms != [] {
      ExprResultsIdle(e, ms[1..]);
      if MutateExpr(ms[0].op, e).Some? { MutatedExprIdle(ms[0].op, e); }
    }
  }

  lemma ReturnIdle(e: Expr)
    requires IdleExpr(e)
    ensures IdleStmt(Schemata.Return(e))
  {
    hide IdleExpr;
  }

  lemma GuardedIdle(id: int, body: seq<Stmt>, els: Option<Stmt>)
    requires IdleList(body) && IdleOpt(els)
    ensures IdleStmt(IfStmt(0, None, Guard(id), body, els))
  {
    hide IdleList;
    var g := Guard(id);
    assert IdleExpr(g.x) && IdleExpr(g.y);
  }

  lemma {:induction false} GuardStepsIdle(ps: seq<Placed<Expr>>, e: Expr)
    requires ExprNodesIdle(ps) && IdleExpr(e)
    ensures IdleList(GuardSteps(ps) + [Schemata.Return(e)])
    decreases |ps|
  {
    hide IdleExpr, IdleStmt, IdleList;
    ReturnIdle(e);
    if ps == [] {
      IdleNothing();
      IdleCons(Schemata.Return(e), []);
      assert GuardSteps(ps) + [Schemata.Return(e)] == [Schemata.Return(e)];
    } else {
      GuardStepsIdle(ps[1..], e);
      ReturnIdle(ps[0].node);
      IdleNothing();
      IdleCons(Schemata.Return(ps[0].node), []);
      GuardedIdle(ps[0].id, [Schemata.Return(ps[0].node)], None);
      var rest := GuardSteps(ps[1..]) + [Schemata.Return(e)];
      IdleCons(GuardStep(ps[0].id, ps[0].node), rest);
      assert GuardSteps(ps) + [Schemata.Return(e)] == [GuardStep(ps[0].id, ps[0].node)] + rest;
    }
  }

  lemma IdleNothing()
    ensures IdleList([]) && IdleOpt(None)
  {
  }

  lemma WrapExprIdle(ps: seq<Placed<Expr>>, e: Expr)
    requires ExprNodesIdle(ps) && IdleExpr(e)
    ensures IdleExpr(WrapExpr(ps, e))
  {
    GuardStepsIdle(ps, e);
    WrapperHasNoLoop(ps, e);
    hide FixList, IdleList, GuardSteps;
  }

  lemma MutatedIfIdle(op: Operator, s: Stmt)
    requires s.IfStmt? && IdleStmt(s) && MutateIf(op, s).Some?
    ensures IdleStmt(MutateIf(op, s).value)
  {
    assert IdleExpr(Ident(LeftPos(s.cond), "true")) && IdleExpr(Ident(LeftPos(s.cond), "false"));
    assert IdleExpr(UnaryExpr(0, NOT, s.cond));
    hide IdleList, IdleOpt, IdleExpr, LeftPos, IsErrNotNilCheck, IsSimpleNilCheck;
  }

  lemma MutatedLoopIdle(op: Operator, s: Stmt, inCase: bool)
    requires (s.ForStmt? || s.RangeStmt?) && IdleStmt(s) && MutateStmt(op, s, inCase).Some?
    ensures IdleStmt(MutateStmt(op, s, inCase).value)
  {
    IdleNothing();
    assert forall pos, name :: IdleExpr(Ident(pos, name));
    IdleCons(BranchStmt(0, true), []);
    IdleAppend(s.body, [BranchStmt(0, true)]);
    hide IdleList, IdleOpt, IdleExpr, LeftPos;
  }

  lemma MutatedReturnIdle(op: Operator, e: Expr, inCase: bool)
    requires MutateReturn(op, e, inCase).Some?
    ensures IdleStmt(MutateReturn(op, e, inCase).value)
  {
    assert forall pos, name :: IdleExpr(Ident(pos, name));
    assert forall pos, lit :: IdleExpr(BasicLit(pos, lit));
    hide IdleExpr, IsNumericLiteral, IsTextLiteral;
  }

  lemma MutatedIdle(op: Operator, s: Stmt, inCase: bool)
    requires IdleStmt(s) && MutateStmt(op, s, inCase).Some?
    ensures IdleStmt(MutateStmt(op, s, inCase).value)
  {
    if s.IfStmt? {
      MutatedIfIdle(op, s);
    } else if s.ForStmt? || s.RangeStmt? {
      MutatedLoopIdle(op, s, inCase);
    } else if s.ReturnStmt? {
      MutatedReturnIdle(op, s.result.value, inCase);
    }
    hide MutateIf, MutateFor, MutateRange, MutateReturn;
  }

  ghost predicate NodesIdle(ps: seq<Placed<Stmt>>) { forall p :: p in ps ==> IdleStmt(p.node) }

  lemma {:induction false} ResultsIdle(s: Stmt, ms: seq<MutantForSite>, inCase: bool)
    requires IdleStmt(s)
    ensures NodesIdle(StmtResults(s, ms, inCase))
    decreases |ms|
  {
    hide IdleStmt, MutateStmt;
    if ms != [] {
      ResultsIdle(s, ms[1..], inCase);
      if MutateStmt(ms[0].op, s, inCase).Some? { MutatedIdle(ms[0].op, s, inCase); }
    }
  }

  lemma BlockIdle(s: Stmt)
    requires IdleStmt(s)
    ensures IdleStmt(BlockStmt(0, [s]))
  {
    IdleNothing();
    IdleCons(s, []);
  }

  lemma IfGuardIdle(id: int, node: Stmt, els: Stmt)
    requires IdleStmt(node) && IdleStmt(els)
    ensures IdleStmt(IfGuard(id, node, els))
  {
    IdleNothing();
    IdleCons(node, []);
    GuardedIdle(id, [node], Some(els));
  }

  lemma {:induction false} ChainIdle(ps: seq<Placed<Stmt>>, s: Stmt)
    requires NodesIdle(ps) && IdleStmt(s)
    ensures IdleStmt(Chain(ps, s))
    decreases |ps|
  {
    hide IdleStmt;
    if ps == [] {
      BlockIdle(s);
    } else {
      ChainIdle(ps[1..], s);
      IfGuardIdle(ps[0].id, ps[0].node, Chain(ps[1..], s));
    }
  }

  lemma ReturnedIdle(s: Stmt, op: Operator, rt: string, inCase: bool)
    requires IdleStmt(s) && ReturnedExpr(MutateStmt(op, s, inCase), rt).Some?
    ensures IdleExpr(ReturnedExpr(MutateStmt(op, s, inCase), rt).value)
  {
    MutatedIdle(op, s, inCase);
    hide MutateStmt;
  }

  lemma {:induction false} ReturnResultsIdle(s: Stmt, ms: seq<MutantForSite>, rt: string, inCase: bool)
    requires IdleStmt(s)
    ensures ExprNodesIdle(ReturnResults(s, ms, rt, inCase))
    decreases |ms|
  {
    hide IdleStmt, IdleExpr, MutateStmt, ReturnedExpr;
    if ms != [] {
      ReturnResultsIdle(s, ms[1..], rt, inCase);
      if ReturnedExpr(MutateStmt(ms[0].op, s, inCase), rt).Some? { ReturnedIdle(s, ms[0].op, rt, inCase); }
    }
  }

  lemma HandledReturnIdle(s: Stmt, ms: seq<MutantForSite>, rt: string, inCase: bool)
    requires s.ReturnStmt? && IdleStmt(s)
    ensures IdleStmt(HandleReturn(s, ms, rt, inCase))
  {
    if s.result.Some? {
      HandleReturnUniform(s, ms, rt, inCase);
      ReturnResultsIdle(s, ms, rt, inCase);
      WrapExprIdle(ReturnResults(s, ms, rt, inCase), s.result.value);
      hide ReturnResults, WrapExpr, HandleReturn;
    }
  }

  lemma PlacedIdle(s: Stmt, m: Sites, inCase: bool)
    requires IdleStmt(s)
    ensures IdleStmt(PlaceStmt(s, m, inCase))
  {
    hide IdleStmt, StmtResults, Chain, KeyOfStmt, TypeOfStmt, MutateStmt, IsValidReplacement, HandleReturn;
    var key := KeyOfStmt(s);
    if key in m {
      if s.ReturnStmt? {
        HandledReturnIdle(s, m[key], if m[key] == [] then "" else m[key][0].returnType, inCase);
      } else {
        var ps := StmtResults(s, m[key], inCase);
        ResultsIdle(s, m[key], inCase);
        BlockIdle(s);
        if ps != [] {
          IfGuardIdle(ps[0].id, ps[0].node, BlockStmt(0, [s]));
          ChainIdle(ps, s);
          BlockIdle(Chain(ps, s));
        }
      }
    }
  }

  // ---- The visit ----

  lemma {:induction false} VisitedExprIdle(e: Expr, skip: bool, m: Sites)
    requires OkExpr(e, m)
    ensures IdleExpr(VisitExpr(e, skip, m))
    decreases e, 1
  {
    VisitedKidsIdle(e, m);
    hide IdleExpr, VisitKids, ExprResults, OkExpr, KeyOfExpr;
    var e' := VisitKids(e, m);
    if KeyOfExpr(e') in m {
      ExprResultsIdle(e', m[KeyOfExpr(e')]);
      WrapExprIdle(ExprResults(e', m[KeyOfExpr(e')]), e');
    }
  }

  lemma {:induction false} VisitedKidsIdle(e: Expr, m: Sites)
    requires OkExpr(e, m)
    ensures IdleExpr(VisitKids(e, m))
    decreases e, 0
  {
    hide VisitExpr, GeneratedExpr;
    var skip := KeyOfExpr(e) in m;
    match e
    case UnaryExpr(_, _, x) => VisitedExprIdle(x, skip, m);
    case BinaryExpr(_, x, _, y) =>
      VisitedExprIdle(x, skip, m);
      VisitedExprIdle(y, skip, m);
    case ParenExpr(_, x) => VisitedExprIdle(x, skip, m);
    case CallExpr(_, _, args) => VisitedExprsIdle(args, skip, m);
    case _ =>
  }

  lemma {:induction false} VisitedExprsIdle(es: seq<Expr>, skip: bool, m: Sites)
    requires OkExprs(es, m)
    ensures IdleExprs(VisitExprs(es, skip, m))
    decreases es, 1
  {
    hide VisitExpr, IdleExpr, OkExpr;
    if es != [] {
      VisitedExprIdle(es[0], skip, m);
      VisitedExprsIdle(es[1..], skip, m);
      assert VisitExprs(es, skip, m)[1..] == VisitExprs(es[1..], skip, m);
    }
  }

  lemma {:induction false} VisitedOptExprIdle(e: Option<Expr>, m: Sites)
    requires OkOptExpr(e, m)
    ensures IdleOptExpr(VisitOptExpr(e, m))
  {
    hide VisitExpr, IdleExpr, OkExpr;
    if e.Some? { VisitedExprIdle(e.value, false, m); }
  }

  /** Source has no function literal. */
  lemma {:induction false} SourceIdle(e: Expr, m: Sites)
    requires OkExpr(e, m)
    ensures IdleExpr(e)
    decreases e
  {
    hide GeneratedExpr;
    match e
    case UnaryExpr(_, _, x) => SourceIdle(x, m);
    case BinaryExpr(_, x, _, y) =>
      SourceIdle(x, m);
      SourceIdle(y, m);
    case ParenExpr(_, x) => SourceIdle(x, m);
    case CallExpr(_, _, args) => SourceExprsIdle(args, m);
    case _ =>
  }

  lemma {:induction false} SourceExprsIdle(es: seq<Expr>, m: Sites)
    requires OkExprs(es, m)
    ensures IdleExprs(es)
    decreases es
  {
    hide IdleExpr, OkExpr;
    if es != [] {
      SourceIdle(es[0], m);
      SourceExprsIdle(es[1..], m);
    }
  }

  lemma {:induction false} VisitedStmtIdle(s: Stmt, m: Sites, inCase: bool)
    requires OkStmt(s, m)
    ensures IdleStmt(VisitStmt(s, m, inCase))
    decreases s, 1
  {
    VisitedStmtKidsIdle(s, m, inCase);
    hide PlaceStmt, IdleStmt, VisitStmtKids, OkStmt;
    PlacedIdle(VisitStmtKids(s, m, inCase), m, inCase);
  }

  lemma {:induction false} VisitedStmtKidsIdle(s: Stmt, m: Sites, inCase: bool)
    requires OkStmt(s, m)
    ensures IdleStmt(VisitStmtKids(s, m, inCase))
    decreases s, 0
  {
    hide VisitExpr, VisitOptExpr, VisitList, VisitOpt, VisitClauses, IdleExpr, IdleOptExpr, IdleList, IdleOpt,
         IdleClauses,
         OkExpr, OkOptExpr, OkList, OkOpt, OkClauses, GeneratedStmt;
    match s
    case ExprStmt(x) => VisitedExprIdle(x, false, m);
    case AssignStmt(_, _, _, rhs) => VisitedExprIdle(rhs, false, m);
    case IfStmt(_, init, cond, body, els) =>
      VisitedOptIdle(init, m, inCase);
      VisitedExprIdle(cond, false, m);
      VisitedListIdle(body, m, inCase);
      VisitedOptIdle(els, m, inCase);
    case ForStmt(_, init, cond, post, body) =>
      VisitedOptIdle(init, m, inCase);
      VisitedOptExprIdle(cond, m);
      VisitedOptIdle(post, m, inCase);
      VisitedListIdle(body, m, inCase);
    case RangeStmt(_, _, _, x, body) =>
      VisitedExprIdle(x, true, m);
      VisitedListIdle(body, m, inCase);
    case SwitchStmt(_, tag, clauses) =>
      VisitedExprIdle(tag, false, m);
      VisitedClausesIdle(clauses, m);
    case ReturnStmt(_, result) => VisitedOptExprIdle(result, m);
    case BlockStmt(_, list) => VisitedListIdle(list, m, inCase);
    case ConstDecl(_, _, x) => SourceIdle(x, m);
    case _ =>
  }

  lemma {:induction false} VisitedOptIdle(s: Option<Stmt>, m: Sites, inCase: bool)
    requires OkOpt(s, m)
    ensures IdleOpt(VisitOpt(s, m, inCase))
    decreases s, 1
  {
    hide VisitStmt, IdleStmt, OkStmt;
    if s.Some? { VisitedStmtIdle(s.value, m, inCase); }
  }

  lemma {:induction false} VisitedListIdle(l: seq<Stmt>, m: Sites, inCase: bool)
    requires OkList(l, m)
    ensures IdleList(VisitList(l, m, inCase))
    decreases l, 1
  {
    hide VisitStmt, IdleStmt, OkStmt;
    if l != [] {
      VisitedStmtIdle(l[0], m, inCase);
      VisitedListIdle(l[1..], m, inCase);
      assert VisitList(l, m, inCase)[1..] == VisitList(l[1..], m, inCase);
    }
  }

  lemma PlacedClauseIdle(c: Clause, m: Sites)
    requires IdleExprs(c.list) && IdleList(c.body)
    ensures IdleExprs(PlaceClause(c, m).list) && IdleList(PlaceClause(c, m).body)
  {
    hide IdleExprs, IdleList;
    var key := KeyOfClause(c);
    if key in m && |m[key]| == 1 && MutateClause(m[key][0].op, c).Some? {
      var mu := m[key][0];
      var z := Schemata.Return(ZeroFor(mu.returnType));
      var guard := IfStmt(0, None, Guard(mu.id), [z], None);
      ZeroIdle(mu.returnType);
      IdleNothing();
      IdleCons(z, []);
      GuardedIdle(mu.id, [z], None);
      IdleCons(guard, c.body);
    } else {
      assert [] + c.body == c.body;
    }
  }

  lemma ZeroIdle(returnType: string)
    ensures IdleStmt(Schemata.Return(ZeroFor(returnType)))
  {
    assert !ZeroFor(returnType).FuncLitCall? && (ZeroFor(returnType).Ident? || ZeroFor(returnType).BasicLit?);
  }

  lemma {:induction false} VisitedClausesIdle(cs: seq<Clause>, m: Sites)
    requires OkClauses(cs, m)
    ensures IdleClauses(VisitClauses(cs, m))
    decreases cs, 1
  {
    hide PlaceClause, IdleExprs, IdleList, OkExprs, OkList;
    if cs != [] {
      var c := cs[0];
      VisitedExprsIdle(c.list, false, m);
      VisitedListIdle(c.body, m, true);
      PlacedClauseIdle(VisitClauseKids(c, m), m);
      VisitedClausesIdle(cs[1..], m);
      var vs := VisitClauses(cs, m);
      assert vs[0] == PlaceClause(VisitClauseKids(c, m), m) && vs[1..] == VisitClauses(cs[1..], m);
    }
  }

  lemma {:induction false} VisitedFileIdle(fs: seq<FuncDecl>, m: Sites)
    requires OkFile(fs, m)
    ensures IdleFile(VisitFile(fs, m))
  {
    if fs != [] {
      VisitedListIdle(fs[0].body, m, false);
      VisitedFuncIdle(fs[0], m);
      VisitedFileIdle(fs[1..], m);
      hide VisitFunc, IdleList, OkList;
      assert VisitFile(fs, m)[1..] == VisitFile(fs[1..], m);
    }
  }

  lemma VisitedFuncIdle(f: FuncDecl, m: Sites)
    requires IdleList(VisitList(f.body, m, false))
    ensures IdleList(VisitFunc(f, m).body)
  {
    hide VisitList;
  }

  // ---- The first walk ----

  lemma {:induction false} AddBlanksIdleToo(vars: seq<Name>, body: seq<Stmt>)
    requires IdleList(body)
    ensures IdleList(AddBlanks(vars, body))
    decreases |vars|
  {
    hide IdleList, UsedList;
    if vars != [] {
      var init := vars[..|vars| - 1];
      AddBlanksIdleToo(init, body);
      BlankIdle(vars[|vars| - 1].id, AddBlanks(init, body));
    }
  }

  lemma BlankIdle(id: string, body: seq<Stmt>)
    requires IdleList(body)
    ensures IdleList([BlankAssign(id)] + body)
  {
    assert IdleExpr(Ident(0, id));
    IdleCons(BlankAssign(id), body);
  }

  lemma {:induction false} FixedStmtIdle(s: Stmt)
    requires IdleStmt(s)
    ensures IdleStmt(FixStmt(s))
    decreases s, 1
  {
    hide IdleList, IdleOpt, IdleExpr, IdleOptExpr, IdleClauses, AddBlanks, FixList, FixClauses, LoopNames;
    match s
    case RangeStmt(_, _, _, _, body) =>
      FixedListIdle(body);
      AddBlanksIdleToo(LoopNames(s), FixList(body));
    case ForStmt(_, _, _, _, body) =>
      FixedListIdle(body);
      AddBlanksIdleToo(LoopNames(s), FixList(body));
    case IfStmt(_, _, _, body, els) =>
      FixedListIdle(body);
      FixedElseIdle(els);
    case BlockStmt(_, list) => FixedListIdle(list);
    case SwitchStmt(_, _, clauses) => FixedClausesIdle(clauses);
    case _ =>
  }

  lemma {:induction false} FixedElseIdle(els: Option<Stmt>)
    requires IdleOpt(els)
    ensures IdleOpt(FixElse(els))
    decreases els, 1
  {
    hide IdleStmt, FixStmt;
    if els.Some? { FixedStmtIdle(els.value); }
  }

  lemma {:induction false} FixedListIdle(l: seq<Stmt>)
    requires IdleList(l)
    ensures IdleList(FixList(l))
    decreases l, 1
  {
    hide IdleStmt, FixStmt;
    if l != [] {
      FixedStmtIdle(l[0]);
      FixedListIdle(l[1..]);
      assert FixList(l)[0] == FixStmt(l[0]) && FixList(l)[1..] == FixList(l[1..]);
    }
  }

  lemma {:induction false} FixedClausesIdle(cs: seq<Clause>)
    requires IdleClauses(cs)
    ensures IdleClauses(FixClauses(cs))
    decreases cs, 1
  {
    hide IdleExprs, IdleList, FixList;
    if cs != [] {
      var c := cs[0];
      FixedListIdle(c.body);
      FixedClausesIdle(cs[1..]);
      assert FixClauses(cs)[1..] == FixClauses(cs[1..]);
    }
  }

  lemma {:induction false} FixedFileIdle(fs: seq<FuncDecl>)
    requires IdleFile(fs)
    ensures IdleFile(FixFile(fs))
  {
    hide IdleList, FixList;
    if fs != [] {
      FixedListIdle(fs[0].body);
      FixedFileIdle(fs[1..]);
      assert FixFile(fs)[1..] == FixFile(fs[1..]);
    }
  }

  /** After the first walk over a transformed file, the second finds nothing to repair in any function literal. */
  lemma SecondWalkIdle(fs: seq<FuncDecl>, m: Sites)
    requires OkFile(fs, m)
    ensures IdleFile(FixFile(VisitFile(fs, m)))
  {
    VisitedFileIdle(fs, m);
    FixedFileIdle(VisitFile(fs, m));
  }
}
