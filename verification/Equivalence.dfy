/**
 The residual of a transformed program is the residual of its source, or of the source
 with exactly one operator applied.
 */
module Equivalence {
  import opened Wrappers
  import opened GoAst
  import opened Operators
  import opened Schemata
  import opened Visitor
  import opened Placement
  import opened Mutation
  import opened Specialise

  /** What the site `key` does for the id `k` is the change `ch`. */
  ghost predicate Carries(m: Sites, k: int, key: Key, ch: Change) {
    if key.kind == NTCaseClause then key in m && |m[key]| == 1 ==> ch == ReturnFromClause(m[key][0].returnType)
    else
      && ch.Operate?
      && (ch.op.VariableReplacement? ==> ch.op.compatible != ACTIVE)
      && (key in m ==> forall mu | mu in m[key] && mu.id == k :: mu.op == ch.op)
  }

  // ---- Wrapping one node ----

  lemma {:induction false} WrapExprSpec(ps: seq<Placed<Expr>>, e: Expr, k: int)
    ensures NodeFor(ps, k).None? ==> SpecExpr(WrapExpr(ps, e), k) == SpecExpr(e, k)
    ensures NodeFor(ps, k).Some? ==> SpecExpr(WrapExpr(ps, e), k) == SpecExpr(NodeFor(ps, k).value.node, k)
  {
    if ps != [] { GuardStepsSpec(ps, e, k); }
  }

  lemma {:induction false} GuardStepsSpec(ps: seq<Placed<Expr>>, e: Expr, k: int)
    ensures var l := GuardSteps(ps) + [Return(e)]; IsGuardList(l)
    ensures var l := GuardSteps(ps) + [Return(e)];
            SpecGuards(l, k) == SpecExpr(if NodeFor(ps, k).Some? then NodeFor(ps, k).value.node else e, k)
  {
    var l := GuardSteps(ps) + [Return(e)];
    if ps == [] {
      assert l == [Return(e)];
    } else {
      GuardStepsSpec(ps[1..], e, k);
      assert l[0] == GuardStep(ps[0].id, ps[0].node);
      assert l[1..] == GuardSteps(ps[1..]) + [Return(e)];
      assert |l| > 1;
    }
  }

  lemma SingletonSpec(s: Stmt, k: int)
    ensures AsStmt(SpecList([s], k)) == SpecStmt(s, k)
  {
    assert [s][1..] == [];
    assert SpecList([s], k) == Keep(SpecStmt(s, k));
    EmptySpec(s, k);
  }

  lemma NoEmptyInList(l: seq<Stmt>, k: int)
    ensures forall i :: 0 <= i < |SpecList(l, k)| ==> !SpecList(l, k)[i].EmptyStmt?
  {
  }

  lemma {:induction false} EmptySpec(s: Stmt, k: int)
    ensures SpecStmt(s, k).EmptyStmt? ==> SpecStmt(s, k) == EmptyStmt(0)
  {
    match s
    case IfStmt(_, init, cond, body, els) =>
      NoEmptyInList(body, k);
      if els.Some? { EmptySpec(els.value, k); }
    case BlockStmt(_, list) => NoEmptyInList(list, k);
    case _ =>
  }

  lemma {:induction false} ChainSpec(ps: seq<Placed<Stmt>>, s: Stmt, k: int)
    ensures SpecStmt(Chain(ps, s), k) == SpecStmt(if NodeFor(ps, k).Some? then NodeFor(ps, k).value.node else s, k)
  {
    if ps == [] {
      SingletonSpec(s, k);
    } else {
      SingletonSpec(ps[0].node, k);
      ChainSpec(ps[1..], s, k);
    }
  }

  // ---- Expressions ----

  lemma ExprResultsFrom(e: Expr, ms: seq<MutantForSite>, k: int)
    requires NodeFor(ExprResults(e, ms), k).Some?
    ensures var p := NodeFor(ExprResults(e, ms), k).value;
            MutateExpr(p.op, e) == Some(p.node) && exists mu :: mu in ms && mu.id == k && mu.op == p.op
  {
    if MutateExpr(ms[0].op, e).Some? && ms[0].id == k {
      assert ms[0] in ms;
    } else {
      ExprResultsFrom(e, ms[1..], k);
    }
  }

  lemma VisitExprShape(e: Expr, skip: bool, m: Sites)
    requires OkExpr(e, m)
    ensures var r := VisitExpr(e, skip, m);
            !IsGuard(r) && (r.Ident? ==> r.name != ACTIVE) && (LeftPos(r) == 0 || LeftPos(r) == LeftPos(e))
    decreases e
  {
    if e.BinaryExpr? { VisitExprShape(e.x, KeyOfExpr(e) in m, m); }
  }

  lemma ApplyExprShape(e: Expr, m: Sites, k: int, key: Key, ch: Change)
    requires OkExpr(e, m) && Carries(m, k, key, ch)
    ensures var r := ApplyExpr(e, key, ch); !IsGuard(r) && (r.Ident? ==> r.name != ACTIVE)
    decreases e
  {
    if e.BinaryExpr? {
      ApplyExprShape(e.x, m, k, key, ch);
      assert e.x.Ident? ==> e.x.name != ACTIVE;
    }
  }

  /** An operator reads of its node only what specialising keeps. */
  lemma MutateExprCongruence(op: Operator, a: Expr, b: Expr, k: int)
    requires !a.FuncLitCall? && !b.FuncLitCall?
    requires SpecExpr(a, k) == SpecExpr(b, k)
    requires MutateExpr(op, a).Some? && MutateExpr(op, b).Some?
    ensures SpecExpr(MutateExpr(op, a).value, k) == SpecExpr(MutateExpr(op, b).value, k)
  {
  }

  lemma {:induction false} VisitExprSpec(e: Expr, skip: bool, m: Sites, k: int, key: Key, ch: Change)
    requires OkExpr(e, m) && Carries(m, k, key, ch)
    requires ExactlyExpr(e, skip, m, k, key) && KeysExpr(e, key) <= 1
    ensures SpecExpr(VisitExpr(e, skip, m), k) == SpecExpr(ApplyExpr(e, key, ch), k)
    decreases e, 2
  {
    hide MutateExpr, CanApplyExpr, WrapExpr;
    var e' := VisitKids(e, m);
    VisitKidsShape(e, m);
    PlaceExprSpec(e', skip, m, k);
    VisitKidsSpec(e, m, k, key, ch);
    if KeyOfExpr(e) == key {
      AbsentKids(e, key, ch);
      ExprResultsFrom(e', m[key], k);
      ExprApplies(ch.op, e, e');
      MutateExprCongruence(ch.op, e', e, k);
    }
  }

  lemma VisitKidsShape(e: Expr, m: Sites)
    requires !e.FuncLitCall?
    ensures KeyOfExpr(VisitKids(e, m)) == KeyOfExpr(e) && !VisitKids(e, m).FuncLitCall?
            && VisitKids(e, m).ParenExpr? == e.ParenExpr?
  {
    hide VisitExpr, VisitExprs;
  }

  lemma PlaceExprSpec(e: Expr, skip: bool, m: Sites, k: int)
    ensures var here := PlacedExprHere(e, skip, m);
            SpecExpr(PlaceExpr(e, skip, m), k)
                == SpecExpr(if NodeFor(here, k).Some? then NodeFor(here, k).value.node else e, k)
  {
    WrapExprSpec(PlacedExprHere(e, skip, m), e, k);
  }

  /** Generation promises that the operator applies to the source expression. */
  lemma ExprApplies(op: Operator, e: Expr, e': Expr)
    requires CanApplyExpr(op, e) && MutateExpr(op, e').Some?
    ensures MutateExpr(op, e).Some?
  {
  }

  lemma {:induction false} VisitKidsSpec(e: Expr, m: Sites, k: int, key: Key, ch: Change)
    requires OkExpr(e, m) && Carries(m, k, key, ch)
    requires ExactlyKids(e, m, k, key) && KeysKids(e, key) <= 1
    ensures SpecExpr(VisitKids(e, m), k) == SpecExpr(ApplyKids(e, key, ch), k)
    decreases e, 1
  {
    hide VisitExpr, ApplyExpr, ExactlyExpr, KeysExpr, Carries, GeneratedExpr;
    var skip := KeyOfExpr(e) in m;
    match e
    case UnaryExpr(_, _, x) => VisitExprSpec(x, skip, m, k, key, ch);
    case BinaryExpr(_, x, _, y) =>
      VisitExprSpec(x, skip, m, k, key, ch);
      VisitExprSpec(y, skip, m, k, key, ch);
    case ParenExpr(_, x) => VisitExprSpec(x, skip, m, k, key, ch);
    case CallExpr(_, _, args) => VisitExprsSpec(args, skip, m, k, key, ch);
    case _ =>
  }

  lemma {:induction false} VisitExprsSpec(es: seq<Expr>, skip: bool, m: Sites, k: int, key: Key, ch: Change)
    requires OkExprs(es, m) && Carries(m, k, key, ch)
    requires ExactlyExprs(es, skip, m, k, key) && KeysExprs(es, key) <= 1
    ensures SpecExprs(VisitExprs(es, skip, m), k) == SpecExprs(ApplyExprs(es, key, ch), k)
    decreases es, 2
  {
    hide VisitExpr, ApplyExpr, SpecExpr, ExactlyExpr, KeysExpr, OkExpr, Carries;
    if es != [] {
      var h, t := es[0], es[1..];
      VisitExprSpec(h, skip, m, k, key, ch);
      VisitExprsSpec(t, skip, m, k, key, ch);
      ConsExprSpec(VisitExpr(h, skip, m), ApplyExpr(h, key, ch), VisitExprs(t, skip, m), ApplyExprs(t, key, ch), k);
    }
  }

  lemma ConsExprSpec(h: Expr, h': Expr, t: seq<Expr>, t': seq<Expr>, k: int)
    requires SpecExpr(h, k) == SpecExpr(h', k) && SpecExprs(t, k) == SpecExprs(t', k)
    ensures SpecExprs([h] + t, k) == SpecExprs([h'] + t', k)
  {
    assert ([h] + t)[1..] == t && ([h'] + t')[1..] == t';
  }

  lemma {:induction false} VisitOptExprSpec(e: Option<Expr>, m: Sites, k: int, key: Key, ch: Change)
    requires OkOptExpr(e, m) && Carries(m, k, key, ch)
    requires ExactlyOptExpr(e, m, k, key) && KeysOptExpr(e, key) <= 1
    ensures SpecOptExpr(VisitOptExpr(e, m), k) == SpecOptExpr(ApplyOptExpr(e, key, ch), k)
  {
    hide VisitExpr, ApplyExpr, SpecExpr, ExactlyExpr, KeysExpr, OkExpr, Carries;
    if e.Some? { VisitExprSpec(e.value, false, m, k, key, ch); }
  }

  // ---- Statements ----

  lemma {:induction false} SpecListAppend(a: seq<Stmt>, b: seq<Stmt>, k: int)
    ensures SpecList(a + b, k) == SpecList(a, k) + SpecList(b, k)
    decreases |a|
  {
    hide SpecList, SpecStmt, Keep;
    if a == [] {
      SpecNothing(k);
      assert a + b == b;
    } else {
      SpecListAppend(a[1..], b, k);
      SpecListCons(a[0], a[1..], k);
      SpecListCons(a[0], a[1..] + b, k);
      assert a == [a[0]] + a[1..] && a + b == [a[0]] + (a[1..] + b);
    }
  }

  lemma SpecNothing(k: int)
    ensures SpecList([], k) == []
  {
  }

  lemma SpecListCons(h: Stmt, t: seq<Stmt>, k: int)
    ensures SpecList([h] + t, k) == Keep(SpecStmt(h, k)) + SpecList(t, k)
  {
    assert ([h] + t)[1..] == t;
    hide SpecStmt, Keep;
  }

  /** Statements of one shape whose children leave the same residue. */
  predicate SameKids(a: Stmt, b: Stmt, k: int) {
    match a
    case ExprStmt(x) => b.ExprStmt? && SpecExpr(x, k) == SpecExpr(b.x, k)
    case AssignStmt(_, lhs, tok, rhs) =>
      b.AssignStmt? && b.lhs == lhs && b.tok == tok && SpecExpr(rhs, k) == SpecExpr(b.rhs, k)
    case IncDecStmt(_, _, _) => b == a
    case IfStmt(_, init, cond, body, els) =>
      && b.IfStmt? && SpecOpt(init, k) == SpecOpt(b.init, k)
      && SpecExpr(cond, k) == SpecExpr(b.cond, k) && !IsGuard(cond) && !IsGuard(b.cond)
      && SpecList(body, k) == SpecList(b.body, k) && |body| == |b.body|
      && SpecOpt(els, k) == SpecOpt(b.els, k)
    case ForStmt(_, init, cond, post, body) =>
      && b.ForStmt? && SpecOpt(init, k) == SpecOpt(b.init, k) && SpecOptExpr(cond, k) == SpecOptExpr(b.forCond, k)
      && SpecOpt(post, k) == SpecOpt(b.post, k) && SpecList(body, k) == SpecList(b.body, k) && |body| == |b.body|
    case RangeStmt(_, key, value, x, body) =>
      && b.RangeStmt? && b.key == key && b.value == value
      && SpecExpr(x, k) == SpecExpr(b.x, k) && SpecList(body, k) == SpecList(b.body, k) && |body| == |b.body|
    case SwitchStmt(_, tag, clauses) =>
      b.SwitchStmt? && SpecExpr(tag, k) == SpecExpr(b.tag, k) && SpecClauses(clauses, k) == SpecClauses(b.clauses, k)
    case ReturnStmt(_, result) => b.ReturnStmt? && SpecOptExpr(result, k) == SpecOptExpr(b.result, k)
    case BlockStmt(_, list) => b.BlockStmt? && SpecList(list, k) == SpecList(b.list, k)
    case _ => b == a
  }

  lemma SameKidsSpec(a: Stmt, b: Stmt, k: int)
    requires SameKids(a, b, k)
    ensures SpecStmt(a, k) == SpecStmt(b, k)
  {
  }

  lemma MutateStmtCongruence(op: Operator, a: Stmt, b: Stmt, inCase: bool, k: int)
    requires SameKids(a, b, k)
    requires MutateStmt(op, a, inCase).Some? && MutateStmt(op, b, inCase).Some?
    ensures SpecStmt(MutateStmt(op, a, inCase).value, k) == SpecStmt(MutateStmt(op, b, inCase).value, k)
  {
    match a
    case IfStmt(_, _, _, _, _) => MutateIfCongruence(op, a, b, k);
    case ForStmt(_, _, _, _, _) => MutateLoopCongruence(op, a, b, k);
    case RangeStmt(_, _, _, _, _) => MutateLoopCongruence(op, a, b, k);
    case ReturnStmt(_, Some(result)) =>
      assert SpecExpr(result, k) == SpecExpr(b.result.value, k);
      assert op.ZeroValueReturnNumeric? ==> NumericZeroValue(result) == NumericZeroValue(b.result.value);
    case _ =>
  }

  lemma MutateIfCongruence(op: Operator, a: Stmt, b: Stmt, k: int)
    requires a.IfStmt? && SameKids(a, b, k)
    requires MutateIf(op, a).Some? && MutateIf(op, b).Some?
    ensures SpecStmt(MutateIf(op, a).value, k) == SpecStmt(MutateIf(op, b).value, k)
  {
    hide SpecOpt, SpecList, LeftPos, IsErrNotNilCheck, IsSimpleNilCheck;
  }

  lemma MutateLoopCongruence(op: Operator, a: Stmt, b: Stmt, k: int)
    requires (a.ForStmt? || a.RangeStmt?) && SameKids(a, b, k)
    requires MutateStmt(op, a, false).Some? && MutateStmt(op, b, false).Some?
    ensures SpecStmt(MutateStmt(op, a, false).value, k) == SpecStmt(MutateStmt(op, b, false).value, k)
  {
    hide SpecOpt, LeftPos;
    SpecListAppend(a.body, [BranchStmt(0, true)], k);
    SpecListAppend(b.body, [BranchStmt(0, true)], k);
    if a.ForStmt? && a.forCond.Some? {
      assert SpecExpr(Ident(LeftPos(a.forCond.value), "true"), k)
          == SpecExpr(Ident(LeftPos(b.forCond.value), "true"), k);
      assert SpecExpr(Ident(LeftPos(a.forCond.value), "false"), k)
          == SpecExpr(Ident(LeftPos(b.forCond.value), "false"), k);
    }
  }

  /** Generation promises that the operator applies to the source; transformation sees the same shape. */
  lemma AppliesToSource(op: Operator, a: Stmt, b: Stmt, inCase: bool, k: int)
    requires SameKids(a, b, k)
    requires Suits(op, b) && MutateStmt(op, a, inCase).Some?
    ensures MutateStmt(op, b, inCase).Some?
  {
  }

  lemma StmtResultsFrom(s: Stmt, ms: seq<MutantForSite>, inCase: bool, k: int)
    requires NodeFor(StmtResults(s, ms, inCase), k).Some?
    ensures var p := NodeFor(StmtResults(s, ms, inCase), k).value;
            MutateStmt(p.op, s, inCase) == Some(p.node) && exists mu :: mu in ms && mu.id == k && mu.op == p.op
  {
    if MutateStmt(ms[0].op, s, inCase).Some? && ms[0].id == k {
      assert ms[0] in ms;
    } else {
      StmtResultsFrom(s, ms[1..], inCase, k);
    }
  }

  lemma ReturnResultsFrom(s: Stmt, ms: seq<MutantForSite>, rt: string, inCase: bool, k: int)
    requires s.ReturnStmt? && s.result.Some?
    requires NodeFor(ReturnResults(s, ms, rt, inCase), k).Some?
    ensures var p := NodeFor(ReturnResults(s, ms, rt, inCase), k).value;
            MutateStmt(p.op, s, inCase) == Some(Return(p.node)) && exists mu :: mu in ms && mu.id == k && mu.op == p.op
  {
    if ReturnedExpr(MutateStmt(ms[0].op, s, inCase), rt).Some? && ms[0].id == k {
      assert ms[0] in ms;
    } else {
      ReturnResultsFrom(s, ms[1..], rt, inCase, k);
    }
  }

  lemma NodeForAsReturns(ps: seq<Placed<Expr>>, k: int)
    ensures NodeFor(ps, k).None? ==> NodeFor(AsReturns(ps), k).None?
    ensures NodeFor(ps, k).Some? ==>
              var p := NodeFor(ps, k).value; NodeFor(AsReturns(ps), k) == Some(Placed(p.id, p.op, Return(p.node)))
  {
  }

  /** Every guard of a statement that the replacement table admits, and no other, is in the result. */
  lemma PlaceStmtSpec(s: Stmt, m: Sites, inCase: bool, k: int)
    ensures var here := PlacedStmtHere(s, m, inCase);
            SpecStmt(PlaceStmt(s, m, inCase), k)
                == SpecStmt(if NodeFor(here, k).Some? then NodeFor(here, k).value.node else s, k)
  {
    var key := KeyOfStmt(s);
    if key in m {
      if s.ReturnStmt? {
        if s.result.Some? { PlaceReturnSpec(s, m[key], if m[key] == [] then "" else m[key][0].returnType, inCase, k); }
      } else {
        HandleStmtSpec(s, m[key], inCase, k);
        ReplacementTable(s);
      }
    }
  }

  lemma PlaceReturnSpec(s: Stmt, ms: seq<MutantForSite>, rt: string, inCase: bool, k: int)
    requires s.ReturnStmt? && s.result.Some?
    ensures HandleReturn(s, ms, rt, inCase).ReturnStmt?
    ensures var here := AsReturns(ReturnResults(s, ms, rt, inCase));
            SpecStmt(HandleReturn(s, ms, rt, inCase), k)
                == SpecStmt(if NodeFor(here, k).Some? then NodeFor(here, k).value.node else s, k)
  {
    var ps := ReturnResults(s, ms, rt, inCase);
    HandleReturnUniform(s, ms, rt, inCase);
    WrapExprSpec(ps, s.result.value, k);
    NodeForAsReturns(ps, k);
  }

  /** The table admits a chain in the place of every statement, a single conditional only in the place of an `if`. */
  lemma ReplacementTable(s: Stmt)
    ensures IsValidReplacement(TypeOfStmt(s), NTBlockStmt)
    ensures IsValidReplacement(TypeOfStmt(s), NTIfStmt) <==> s.IfStmt?
  {
  }

  lemma WrapStatementSpec(ps: seq<Placed<Stmt>>, s: Stmt, k: int)
    ensures SpecStmt(WrapStatement(ps, s), k)
            == SpecStmt(if NodeFor(ps, k).Some? then NodeFor(ps, k).value.node else s, k)
  {
    ChainSpec(ps, s, k);
    SingletonSpec(Chain(ps, s), k);
  }

  lemma IfGuardSpec(p: Placed<Stmt>, s: Stmt, k: int)
    ensures SpecStmt(IfGuard(p.id, p.node, BlockStmt(0, [s])), k) == SpecStmt(if p.id == k then p.node else s, k)
  {
    SingletonSpec(s, k);
    SingletonSpec(p.node, k);
  }

  lemma HandleStmtSpec(s: Stmt, ms: seq<MutantForSite>, inCase: bool, k: int)
    ensures var here := StmtResults(s, ms, inCase);
            SpecStmt(HandleStmt(s, ms, inCase), k)
                == SpecStmt(if NodeFor(here, k).Some? then NodeFor(here, k).value.node else s, k)
    ensures HandleStmt(s, ms, inCase) == s
         || TypeOfStmt(HandleStmt(s, ms, inCase)) == (if |ms| == 1 then NTIfStmt else NTBlockStmt)
  {
    var ps := StmtResults(s, ms, inCase);
    hide SpecStmt, Chain, StmtResults;
    if ps == [] {
      NodeForFew(ps, k);
    } else if |ms| == 1 {
      OneResult(s, ms, inCase);
      NodeForFew(ps, k);
      IfGuardSpec(ps[0], s, k);
    } else {
      WrapStatementSpec(ps, s, k);
    }
  }

  lemma OneResult(s: Stmt, ms: seq<MutantForSite>, inCase: bool)
    requires |ms| == 1
    ensures |StmtResults(s, ms, inCase)| <= 1
  {
    assert StmtResults(s, ms[1..], inCase) == [];
  }

  lemma NodeForFew<N>(ps: seq<Placed<N>>, k: int)
    requires |ps| <= 1
    ensures NodeFor(ps, k) == if ps != [] && ps[0].id == k then Some(ps[0]) else None
  {
    if ps != [] { assert NodeFor(ps[1..], k) == None; }
  }

  lemma PlacedStmtFrom(s: Stmt, m: Sites, inCase: bool, k: int)
    requires NodeFor(PlacedStmtHere(s, m, inCase), k).Some?
    ensures var p := NodeFor(PlacedStmtHere(s, m, inCase), k).value;
            && MutateStmt(p.op, s, inCase) == Some(p.node)
            && KeyOfStmt(s) in m && exists mu :: mu in m[KeyOfStmt(s)] && mu.id == k && mu.op == p.op
  {
    var ms := m[KeyOfStmt(s)];
    if s.ReturnStmt? {
      var rt := if ms == [] then "" else ms[0].returnType;
      NodeForAsReturns(ReturnResults(s, ms, rt, inCase), k);
      ReturnResultsFrom(s, ms, rt, inCase, k);
    } else {
      StmtResultsFrom(s, ms, inCase, k);
    }
  }

  lemma StmtIsNoClause(s: Stmt)
    ensures KeyOfStmt(s).kind != NTCaseClause && KeyOfStmt(s).kind != NTFuncDecl && KeyOfStmt(s).kind != NTMax
  {
  }

  // ---- The traversal of statements ----

  lemma {:induction false} VisitStmtSpec(s: Stmt, m: Sites, inCase: bool, k: int, key: Key, ch: Change)
    requires OkSites(m) && OkStmt(s, m) && Carries(m, k, key, ch)
    requires ExactlyStmt(s, m, inCase, k, key) && KeysStmt(s, key) <= 1
    ensures SpecStmt(VisitStmt(s, m, inCase), k) == SpecStmt(ApplyStmt(s, key, ch, inCase), k)
    decreases s, 2
  {
    hide VisitStmtKids, ApplyStmtKids, PlaceStmt, PlacedStmtHere, ExactlyStmtKids, KeysStmtKids,
         MutateStmt, Suits, SameKids, SpecStmt, KeyOfStmt;
    var s' := VisitStmtKids(s, m, inCase);
    PlaceStmtSpec(s', m, inCase, k);
    VisitStmtKidsSpec(s, m, inCase, k, key, ch);
    if KeyOfStmt(s) == key {
      AbsentStmtKids(s, key, ch, inCase);
      PlacedStmtFrom(s', m, inCase, k);
      StmtIsNoClause(s);
      AppliesToSource(ch.op, s', s, inCase, k);
      MutateStmtCongruence(ch.op, s', s, inCase, k);
    } else {
      SameKidsSpec(s', ApplyStmtKids(s, key, ch, inCase), k);
    }
  }

  lemma {:induction false} VisitStmtKidsSpec(s: Stmt, m: Sites, inCase: bool, k: int, key: Key, ch: Change)
    requires OkSites(m) && OkStmt(s, m) && Carries(m, k, key, ch)
    requires ExactlyStmtKids(s, m, inCase, k, key) && KeysStmtKids(s, key) <= 1
    ensures SameKids(VisitStmtKids(s, m, inCase), ApplyStmtKids(s, key, ch, inCase), k)
    ensures KeyOfStmt(VisitStmtKids(s, m, inCase)) == KeyOfStmt(s) || KeyOfStmt(VisitStmtKids(s, m, inCase)).pos == 0
    decreases s, 1
  {
    hide VisitExpr, ApplyExpr, SpecExpr, ExactlyExpr, KeysExpr, OkExpr,
         VisitOptExpr, ApplyOptExpr, SpecOptExpr, ExactlyOptExpr, KeysOptExpr, OkOptExpr,
         VisitList, ApplyList, SpecList, ExactlyList, KeysList, OkList,
         VisitOpt, ApplyOpt, SpecOpt, ExactlyOpt, KeysOpt, OkOpt,
         VisitClauses, ApplyClauses, SpecClauses, ExactlyClauses, KeysClauses, OkClauses, Carries, GeneratedStmt,
             IsGuard;
    match s
    case ExprStmt(x) =>
      VisitExprSpec(x, false, m, k, key, ch);
      VisitExprShape(x, false, m);
    case AssignStmt(_, _, _, rhs) => VisitExprSpec(rhs, false, m, k, key, ch);
    case IfStmt(_, init, cond, body, els) =>
      VisitOptSpec(init, m, inCase, k, key, ch);
      VisitExprSpec(cond, false, m, k, key, ch);
      VisitExprShape(cond, false, m);
      ApplyExprShape(cond, m, k, key, ch);
      VisitListSpec(body, m, inCase, k, key, ch);
      VisitOptSpec(els, m, inCase, k, key, ch);
    case ForStmt(_, init, cond, post, body) =>
      VisitOptSpec(init, m, inCase, k, key, ch);
      VisitOptExprSpec(cond, m, k, key, ch);
      VisitOptSpec(post, m, inCase, k, key, ch);
      VisitListSpec(body, m, inCase, k, key, ch);
    case RangeStmt(_, _, _, x, body) =>
      VisitExprSpec(x, true, m, k, key, ch);
      VisitListSpec(body, m, inCase, k, key, ch);
    case SwitchStmt(_, tag, clauses) =>
      VisitExprSpec(tag, false, m, k, key, ch);
      VisitClausesSpec(clauses, m, k, key, ch);
    case ReturnStmt(_, result) => VisitOptExprSpec(result, m, k, key, ch);
    case BlockStmt(_, list) => VisitListSpec(list, m, inCase, k, key, ch);
    case _ =>
  }

  lemma {:induction false} VisitOptSpec(s: Option<Stmt>, m: Sites, inCase: bool, k: int, key: Key, ch: Change)
    requires OkSites(m) && OkOpt(s, m) && Carries(m, k, key, ch)
    requires ExactlyOpt(s, m, inCase, k, key) && KeysOpt(s, key) <= 1
    ensures SpecOpt(VisitOpt(s, m, inCase), k) == SpecOpt(ApplyOpt(s, key, ch, inCase), k)
    decreases s, 2
  {
    hide VisitStmt, ApplyStmt, SpecStmt, ExactlyStmt, KeysStmt, OkStmt, Carries;
    if s.Some? { VisitStmtSpec(s.value, m, inCase, k, key, ch); }
  }

  lemma {:induction false} VisitListSpec(l: seq<Stmt>, m: Sites, inCase: bool, k: int, key: Key, ch: Change)
    requires OkSites(m) && OkList(l, m) && Carries(m, k, key, ch)
    requires ExactlyList(l, m, inCase, k, key) && KeysList(l, key) <= 1
    ensures SpecList(VisitList(l, m, inCase), k) == SpecList(ApplyList(l, key, ch, inCase), k)
    decreases l, 2
  {
    hide VisitStmt, ApplyStmt, SpecStmt, ExactlyStmt, KeysStmt, OkStmt, Carries;
    if l != [] {
      var h, t := l[0], l[1..];
      VisitStmtSpec(h, m, inCase, k, key, ch);
      VisitListSpec(t, m, inCase, k, key, ch);
      ConsSpec(VisitStmt(h, m, inCase), ApplyStmt(h, key, ch, inCase), VisitList(t, m, inCase),
          ApplyList(t, key, ch, inCase), k);
    }
  }

  lemma ConsSpec(h: Stmt, h': Stmt, t: seq<Stmt>, t': seq<Stmt>, k: int)
    requires SpecStmt(h, k) == SpecStmt(h', k) && SpecList(t, k) == SpecList(t', k)
    ensures SpecList([h] + t, k) == SpecList([h'] + t', k)
  {
    assert ([h] + t)[1..] == t && ([h'] + t')[1..] == t';
  }

  /** Without its active mutant, a clause is what it was. */
  lemma PlaceClauseSpec(c: Clause, m: Sites, k: int)
    requires !PlacedClauseHere(c, m, k)
    ensures SpecClause(PlaceClause(c, m), k) == SpecClause(c, k)
  {
    var key := KeyOfClause(c);
    if key in m && |m[key]| == 1 {
      var ms := m[key];
      var prefix := ClausePrefix(c, ms[0], ms[0].returnType);
      SpecListAppend(prefix, c.body, k);
      if prefix != [] {
        assert prefix[1..] == [];
        assert SpecStmt(prefix[0], k) == EmptyStmt(0);
        assert SpecList(prefix, k) == Keep(EmptyStmt(0)) + SpecList([], k);
      }
    }
  }

  /** With its active mutant, a clause returns a zero value before it does anything. */
  lemma PlacedClauseSpec(c: Clause, m: Sites, k: int)
    requires PlacedClauseHere(c, m, k)
    ensures var z := Return(ZeroFor(m[KeyOfClause(c)][0].returnType));
            SpecClause(PlaceClause(c, m), k) == SpecClause(c.(body := [z] + c.body), k)
  {
    var mu := m[KeyOfClause(c)][0];
    var z := Return(ZeroFor(mu.returnType));
    var guard := IfStmt(0, None, Guard(k), [z], None);
    assert PlaceClause(c, m) == c.(body := [guard] + c.body);
    SingletonSpec(z, k);
    assert SpecStmt(guard, k) == SpecStmt(z, k);
    ConsSpec(guard, z, c.body, c.body, k);
  }

  lemma {:induction false} VisitClauseSpec(c: Clause, m: Sites, k: int, key: Key, ch: Change)
    requires OkSites(m) && OkExprs(c.list, m) && OkList(c.body, m) && Carries(m, k, key, ch)
    requires ExactlyClause(c, m, k, key) && KeysClause(c, key) <= 1
    ensures SpecClause(PlaceClause(VisitClauseKids(c, m), m), k) == SpecClause(ApplyClause(c, key, ch), k)
    decreases c, 2
  {
    hide PlaceClause, PlacedClauseHere, VisitExprs, VisitList, ApplyExprs, ApplyList, SpecExprs, SpecList,
         ExactlyExprs, ExactlyList, KeysExprs, KeysList, OkExprs, OkList, OkSites, ZeroFor;
    var c' := VisitClauseKids(c, m);
    VisitExprsSpec(c.list, false, m, k, key, ch);
    VisitListSpec(c.body, m, true, k, key, ch);
    if KeyOfClause(c) == key {
      AbsentExprs(c.list, key, ch);
      AbsentList(c.body, key, ch, true);
      PlacedClauseSpec(c', m, k);
      ClausePlacement(c', m, k);
      var z := Return(ZeroFor(m[key][0].returnType));
      ConsSpec(z, z, c'.body, c.body, k);
    } else {
      PlaceClauseSpec(c', m, k);
    }
  }

  lemma ClausePlacement(c: Clause, m: Sites, k: int)
    requires PlacedClauseHere(c, m, k)
    ensures KeyOfClause(c) in m && |m[KeyOfClause(c)]| == 1
  {
  }

  lemma {:induction false} VisitClausesSpec(cs: seq<Clause>, m: Sites, k: int, key: Key, ch: Change)
    requires OkSites(m) && OkClauses(cs, m) && Carries(m, k, key, ch)
    requires ExactlyClauses(cs, m, k, key) && KeysClauses(cs, key) <= 1
    ensures SpecClauses(VisitClauses(cs, m), k) == SpecClauses(ApplyClauses(cs, key, ch), k)
    decreases cs, 2
  {
    hide PlaceClause, VisitClauseKids, ApplyClause, SpecClause, ExactlyClause, KeysClause, Carries;
    if cs != [] {
      var h, t := cs[0], cs[1..];
      VisitClauseSpec(h, m, k, key, ch);
      VisitClausesSpec(t, m, k, key, ch);
      ConsClauseSpec(PlaceClause(VisitClauseKids(h, m), m), ApplyClause(h, key, ch), VisitClauses(t, m),
          ApplyClauses(t, key, ch), k);
    }
  }

  lemma ConsClauseSpec(h: Clause, h': Clause, t: seq<Clause>, t': seq<Clause>, k: int)
    requires SpecClause(h, k) == SpecClause(h', k) && SpecClauses(t, k) == SpecClauses(t', k)
    ensures SpecClauses([h] + t, k) == SpecClauses([h'] + t', k)
  {
    assert ([h] + t)[1..] == t && ([h'] + t')[1..] == t';
  }

  /** The residue of the transformed file. */
  lemma {:induction false} VisitFileSpec(fs: seq<FuncDecl>, m: Sites, k: int, key: Key, ch: Change)
    requires OkSites(m) && OkFile(fs, m) && Carries(m, k, key, ch)
    requires NothingLost(fs, m) && ExactlyFile(fs, m, k, key) && KeysFile(fs, key) <= 1
    ensures SpecFile(VisitFile(fs, m), k) == SpecFile(ApplyFile(fs, key, ch), k)
  {
    hide VisitList, ApplyList, SpecList, ExactlyList, KeysList, OkList, Carries, VisitFunc, Lost;
    if fs != [] {
      var h, t := fs[0], fs[1..];
      VisitListSpec(h.body, m, false, k, key, ch);
      KeptBody(h, m);
      VisitFileSpec(t, m, k, key, ch);
      ConsFuncSpec(VisitFunc(h, m), ApplyFunc(h, key, ch), VisitFile(t, m), ApplyFile(t, key, ch), k);
    }
  }

  lemma ConsFuncSpec(h: FuncDecl, h': FuncDecl, t: seq<FuncDecl>, t': seq<FuncDecl>, k: int)
    requires SpecFunc(h, k) == SpecFunc(h', k) && SpecFile(t, k) == SpecFile(t', k)
    ensures SpecFile([h] + t, k) == SpecFile([h'] + t', k)
  {
    assert ([h] + t)[1..] == t && ([h'] + t')[1..] == t';
  }

  lemma KeptBody(f: FuncDecl, m: Sites)
    ensures !Lost(f, m) ==> VisitFunc(f, m) == f.(body := VisitList(f.body, m, false))
    ensures Lost(f, m) ==> VisitFunc(f, m) == f.(pos := 0, body := [])
  {
    hide VisitList;
    assert VisitList(f.body, m, false) == [] <==> f.body == [];
  }

  /** A body that is lost might as well have been empty before. */
  lemma {:induction false} VisitEmptied(fs: seq<FuncDecl>, m: Sites, k: int)
    ensures SpecFile(VisitFile(fs, m), k) == SpecFile(VisitFile(Emptied(fs, m), m), k)
  {
    hide Lost, VisitFunc;
    if fs != [] {
      var h, t := fs[0], fs[1..];
      VisitEmptied(t, m, k);
      if Lost(h, m) { LostFunc(h, m, k); }
      var h' := if Lost(h, m) then h.(body := []) else h;
      ConsFuncSpec(VisitFunc(h, m), VisitFunc(h', m), VisitFile(t, m), VisitFile(Emptied(t, m), m), k);
      assert Emptied(fs, m)[1..] == Emptied(t, m);
    }
  }

  lemma LostFunc(f: FuncDecl, m: Sites, k: int)
    requires Lost(f, m)
    ensures SpecFunc(VisitFunc(f, m), k) == SpecFunc(VisitFunc(f.(body := []), m), k)
  {
    KeptBody(f, m);
    KeptBody(f.(body := []), m);
  }
}
