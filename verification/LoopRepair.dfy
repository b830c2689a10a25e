/**
 The loop-variable pass on a file that the visitor has transformed: wrapping and mutating
 statements never produces a loop whose variables were not parsed.
 */
module LoopRepair {
  import opened Wrappers
  import opened GoAst
  import opened Operators
  import opened Schemata
  import opened Visitor
  import opened LoopVars

  predicate ParsedFile(fs: seq<FuncDecl>) { fs != [] ==> ParsedList(fs[0].body) && ParsedFile(fs[1..]) }

  predicate RepairedFile(fs: seq<FuncDecl>) { fs != [] ==> RepairedList(fs[0].body) && RepairedFile(fs[1..]) }

  lemma {:induction false} ParsedAppend(a: seq<Stmt>, b: seq<Stmt>)
    requires ParsedList(a) && ParsedList(b)
    ensures ParsedList(a + b)
    decreases |a|
  {
    hide ParsedStmt;
    if a == [] {
      assert a + b == b;
    } else {
      ParsedAppend(a[1..], b);
      assert (a + b)[1..] == a[1..] + b;
    }
  }

  lemma ParsedOne(s: Stmt)
    requires ParsedStmt(s)
    ensures ParsedList([s])
  {
    assert [s][1..] == [];
    hide ParsedStmt;
  }

  // ---- Operators and wrappers ----

  lemma MutatedParsed(op: Operator, s: Stmt, inCase: bool)
    requires ParsedStmt(s) && MutateStmt(op, s, inCase).Some?
    ensures ParsedStmt(MutateStmt(op, s, inCase).value)
  {
    if s.ForStmt? || s.RangeStmt? {
      ParsedOne(BranchStmt(0, true));
      ParsedAppend(s.body, [BranchStmt(0, true)]);
    }
    hide ParsedList, LeftPos, IsErrNotNilCheck, IsSimpleNilCheck;
  }

  ghost predicate NodesParsed(ps: seq<Placed<Stmt>>) { forall p :: p in ps ==> ParsedStmt(p.node) }

  lemma {:induction false} ResultsParsed(s: Stmt, ms: seq<MutantForSite>, inCase: bool)
    requires ParsedStmt(s)
    ensures NodesParsed(StmtResults(s, ms, inCase))
    decreases |ms|
  {
    hide ParsedStmt, MutateStmt;
    if ms != [] {
      ResultsParsed(s, ms[1..], inCase);
      if MutateStmt(ms[0].op, s, inCase).Some? { MutatedParsed(ms[0].op, s, inCase); }
    }
  }

  lemma GuardParsed(id: int, node: Stmt, els: Stmt)
    requires ParsedStmt(node) && ParsedStmt(els)
    ensures ParsedStmt(IfGuard(id, node, els))
  {
    ParsedOne(node);
  }

  lemma BlockParsed(s: Stmt)
    requires ParsedStmt(s)
    ensures ParsedStmt(BlockStmt(0, [s]))
  {
    ParsedOne(s);
  }

  lemma {:induction false} ChainParsed(ps: seq<Placed<Stmt>>, s: Stmt)
    requires NodesParsed(ps) && ParsedStmt(s)
    ensures ParsedStmt(Chain(ps, s))
    decreases |ps|
  {
    hide ParsedStmt;
    if ps == [] {
      BlockParsed(s);
    } else {
      ChainParsed(ps[1..], s);
      GuardParsed(ps[0].id, ps[0].node, Chain(ps[1..], s));
    }
  }

  lemma PlacedParsed(s: Stmt, m: Sites, inCase: bool)
    requires ParsedStmt(s)
    ensures ParsedStmt(PlaceStmt(s, m, inCase))
    ensures PlaceStmt(s, m, inCase).AssignStmt? ==> PlaceStmt(s, m, inCase) == s
  {
    hide ParsedStmt, StmtResults, Chain, KeyOfStmt, TypeOfStmt, MutateStmt, IsValidReplacement;
    var key := KeyOfStmt(s);
    if key in m {
      if s.ReturnStmt? {
        ReturnParsed(s, m[key], if m[key] == [] then "" else m[key][0].returnType, inCase);
      } else {
        var ps := StmtResults(s, m[key], inCase);
        ResultsParsed(s, m[key], inCase);
        BlockParsed(s);
        if ps != [] {
          GuardParsed(ps[0].id, ps[0].node, BlockStmt(0, [s]));
          ChainParsed(ps, s);
          BlockParsed(Chain(ps, s));
        }
      }
    }
  }

  lemma ReturnParsed(s: Stmt, ms: seq<MutantForSite>, rt: string, inCase: bool)
    requires s.ReturnStmt?
    ensures HandleReturn(s, ms, rt, inCase).ReturnStmt? && ParsedStmt(HandleReturn(s, ms, rt, inCase))
  {
    if s.result.Some? { HandleReturnUniform(s, ms, rt, inCase); }
  }

  // ---- The visit ----

  lemma {:induction false} VisitedParsed(s: Stmt, m: Sites, inCase: bool)
    requires ParsedStmt(s)
    ensures ParsedStmt(VisitStmt(s, m, inCase))
    ensures VisitStmt(s, m, inCase).AssignStmt? ==> s.AssignStmt? && VisitStmt(s, m, inCase).lhs == s.lhs
    decreases s, 1
  {
    hide PlaceStmt;
    VisitedKidsParsed(s, m, inCase);
    PlacedParsed(VisitStmtKids(s, m, inCase), m, inCase);
  }

  lemma {:induction false} VisitedKidsParsed(s: Stmt, m: Sites, inCase: bool)
    requires ParsedStmt(s)
    ensures ParsedStmt(VisitStmtKids(s, m, inCase))
    decreases s, 0
  {
    hide VisitExpr, VisitOptExpr, VisitList, VisitClauses, ParsedList, ParsedClauses, PlaceStmt;
    match s
    case IfStmt(_, _, _, body, els) =>
      VisitedListParsed(body, m, inCase);
      if els.Some? { VisitedParsed(els.value, m, inCase); }
    case ForStmt(_, init, _, _, body) =>
      VisitedListParsed(body, m, inCase);
      VisitedInit(s, m, inCase);
    case RangeStmt(_, _, _, _, body) => VisitedListParsed(body, m, inCase);
    case SwitchStmt(_, _, clauses) => VisitedClausesParsed(clauses, m);
    case BlockStmt(_, list) => VisitedListParsed(list, m, inCase);
    case _ =>
  }

  /** The visit may hide the variable of a loop's init, but never names another. */
  lemma VisitedInit(s: Stmt, m: Sites, inCase: bool)
    requires s.ForStmt?
    ensures var t := VisitStmtKids(s, m, inCase).init;
            t.Some? && t.value.AssignStmt? ==>
              s.init.Some? && s.init.value.AssignStmt? && t.value.lhs == s.init.value.lhs
  {
    if s.init.Some? {
      var t := s.init.value;
      PlacedAssign(VisitStmtKids(t, m, inCase), m, inCase);
      hide PlaceStmt;
      assert VisitStmt(t, m, inCase).AssignStmt? ==> t.AssignStmt? && VisitStmt(t, m, inCase).lhs == t.lhs;
    }
  }

  lemma PlacedAssign(s: Stmt, m: Sites, inCase: bool)
    ensures PlaceStmt(s, m, inCase).AssignStmt? ==> PlaceStmt(s, m, inCase) == s
  {
    hide StmtResults, Chain, KeyOfStmt, TypeOfStmt, MutateStmt, IsValidReplacement;
    var key := KeyOfStmt(s);
    if key in m && s.ReturnStmt? { ReturnParsed(s, m[key], if m[key] == [] then "" else m[key][0].returnType, inCase); }
  }

  lemma {:induction false} VisitedListParsed(l: seq<Stmt>, m: Sites, inCase: bool)
    requires ParsedList(l)
    ensures ParsedList(VisitList(l, m, inCase))
    decreases l, 1
  {
    hide VisitStmt, ParsedStmt;
    if l != [] {
      VisitedParsed(l[0], m, inCase);
      VisitedListParsed(l[1..], m, inCase);
      assert VisitList(l, m, inCase)[1..] == VisitList(l[1..], m, inCase);
    }
  }

  lemma PlacedClauseParsed(c: Clause, m: Sites)
    requires ParsedList(c.body)
    ensures ParsedList(PlaceClause(c, m).body)
  {
    hide MutateClause;
    var key := KeyOfClause(c);
    if key in m && |m[key]| == 1 && MutateClause(m[key][0].op, c).Some? {
      var mu := m[key][0];
      var z := Schemata.Return(ZeroFor(mu.returnType));
      EmptiedClause(mu.op, c);
      var guard := IfStmt(0, None, Guard(mu.id), [z], None);
      ParsedOne(z);
      ParsedOne(guard);
      ParsedAppend([guard], c.body);
    } else {
      assert [] + c.body == c.body;
    }
  }

  lemma EmptiedClause(op: Operator, c: Clause)
    requires MutateClause(op, c).Some?
    ensures MutateClause(op, c).value.body == []
  {
  }

  lemma {:induction false} VisitedClausesParsed(cs: seq<Clause>, m: Sites)
    requires ParsedClauses(cs)
    ensures ParsedClauses(VisitClauses(cs, m))
    decreases cs, 1
  {
    hide PlaceClause, ParsedList;
    if cs != [] {
      var c := cs[0];
      VisitedListParsed(c.body, m, true);
      PlacedClauseParsed(VisitClauseKids(c, m), m);
      VisitedClausesParsed(cs[1..], m);
      var vs := VisitClauses(cs, m);
      assert vs[0] == PlaceClause(VisitClauseKids(c, m), m) && vs[1..] == VisitClauses(cs[1..], m);
    }
  }

  lemma {:induction false} VisitedFileParsed(fs: seq<FuncDecl>, m: Sites)
    requires ParsedFile(fs)
    ensures ParsedFile(VisitFile(fs, m))
  {
    if fs != [] {
      VisitedListParsed(fs[0].body, m, false);
      VisitedFuncParsed(fs[0], m);
      VisitedFileParsed(fs[1..], m);
      hide VisitFunc, ParsedList;
      assert VisitFile(fs, m)[1..] == VisitFile(fs[1..], m);
    }
  }

  lemma VisitedFuncParsed(f: FuncDecl, m: Sites)
    requires ParsedList(VisitList(f.body, m, false))
    ensures ParsedList(VisitFunc(f, m).body)
  {
    hide VisitList;
  }

  lemma {:induction false} FixFileRepairs(fs: seq<FuncDecl>)
    requires ParsedFile(fs)
    ensures RepairedFile(FixFile(fs)) && FixFile(FixFile(fs)) == FixFile(fs)
  {
    hide FixList, RepairedList, ParsedList;
    if fs != [] {
      FixTwice(fs[0].body);
      FixFileRepairs(fs[1..]);
      assert FixFile(fs)[1..] == FixFile(fs[1..]);
    }
  }

  /**
   After the pass every named variable of every loop that the walk reaches in the transformed file occurs in that
   loop's body, and running the pass again adds nothing.
   */
  lemma TransformedLoops(fs: seq<FuncDecl>, m: Sites)
    requires ParsedFile(fs)
    ensures RepairedFile(FixFile(VisitFile(fs, m)))
    ensures FixFile(FixFile(VisitFile(fs, m))) == FixFile(VisitFile(fs, m))
  {
    VisitedFileParsed(fs, m);
    FixFileRepairs(VisitFile(fs, m));
  }
}
