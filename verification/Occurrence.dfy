/**
 Statements inside a file, however deeply nested, and whether their mutants land: only the
 statement itself and what the visit wraps of its children count.
 */
module Occurrence {
  import opened Wrappers
  import opened GoAst
  import opened Operators
  import opened Schemata
  import opened Visitor
  import opened Mutation
  import opened Placement
  import opened Dichotomy
  import Equivalence

  /** `t` stands in `s`; `tCase` and `inCase` say of either whether a case clause is around it. */
  predicate InStmt(t: Stmt, tCase: bool, s: Stmt, inCase: bool)
    decreases s, 1
  {
    (t == s && tCase == inCase) || InKids(t, tCase, s, inCase)
  }

  predicate InKids(t: Stmt, tCase: bool, s: Stmt, inCase: bool)
    decreases s, 0
  {
    match s
    case IfStmt(_, init, _, body, els) =>
      InOpt(t, tCase, init, inCase) || InList(t, tCase, body, inCase) || InOpt(t, tCase, els, inCase)
    case ForStmt(_, init, _, post, body) =>
      InOpt(t, tCase, init, inCase) || InOpt(t, tCase, post, inCase) || InList(t, tCase, body, inCase)
    case RangeStmt(_, _, _, _, body) => InList(t, tCase, body, inCase)
    case SwitchStmt(_, _, clauses) => InClauses(t, tCase, clauses)
    case BlockStmt(_, list) => InList(t, tCase, list, inCase)
    case _ => false
  }

  predicate InOpt(t: Stmt, tCase: bool, s: Option<Stmt>, inCase: bool)
    decreases s, 1
  {
    s.Some? && InStmt(t, tCase, s.value, inCase)
  }

  predicate InList(t: Stmt, tCase: bool, l: seq<Stmt>, inCase: bool)
    decreases l, 1
  {
    l != [] && (InStmt(t, tCase, l[0], inCase) || InList(t, tCase, l[1..], inCase))
  }

  predicate InClauses(t: Stmt, tCase: bool, cs: seq<Clause>)
    decreases cs, 1
  {
    cs != [] && (InList(t, tCase, cs[0].body, true) || InClauses(t, tCase, cs[1..]))
  }

  predicate InFile(t: Stmt, tCase: bool, fs: seq<FuncDecl>) {
    fs != [] && (InList(t, tCase, fs[0].body, false) || InFile(t, tCase, fs[1..]))
  }

  /** What is claimed of a subtree in which the statement stands and its site occurs `n` times. */
  ghost predicate LandsHere(n: nat, lands: bool, here: bool) { n >= 1 && (n == 1 ==> (lands <==> here)) }

  // ---- Where the site does not occur, nothing lands ----

  lemma {:induction false} QuietExpr(e: Expr, skip: bool, m: Sites, k: int, key: Key, op: Operator)
    requires Sole(m, k, key, op) && OkExpr(e, m)
    ensures KeysExpr(e, key) == 0 ==> !LandsExpr(e, skip, m, key, op)
  {
    ExprDecided(e, skip, m, k, key, op);
  }

  lemma {:induction false} QuietOptExpr(e: Option<Expr>, m: Sites, k: int, key: Key, op: Operator)
    requires Sole(m, k, key, op) && OkOptExpr(e, m)
    ensures KeysOptExpr(e, key) == 0 ==> !LandsOptExpr(e, m, key, op)
  {
    OptExprDecided(e, m, k, key, op);
  }

  lemma {:induction false} QuietExprs(es: seq<Expr>, skip: bool, m: Sites, k: int, key: Key, op: Operator)
    requires Sole(m, k, key, op) && OkExprs(es, m)
    ensures KeysExprs(es, key) == 0 ==> !LandsExprs(es, skip, m, key, op)
  {
    ExprsDecided(es, skip, m, k, key, op);
  }

  lemma {:induction false} QuietStmt(s: Stmt, m: Sites, inCase: bool, k: int, key: Key, op: Operator)
    requires Sole(m, k, key, op) && OkSites(m) && OkStmt(s, m)
    ensures KeysStmt(s, key) == 0 ==> !LandsStmt(s, m, inCase, key, op)
  {
    StmtDecided(s, m, inCase, k, key, op);
  }

  lemma {:induction false} QuietStmtKids(s: Stmt, m: Sites, inCase: bool, k: int, key: Key, op: Operator)
    requires Sole(m, k, key, op) && OkSites(m) && OkStmt(s, m)
    ensures KeysStmtKids(s, key) == 0 ==> !LandsStmtKids(s, m, inCase, key, op)
  {
    StmtKidsDecided(s, m, inCase, k, key, op);
  }

  lemma {:induction false} QuietOpt(s: Option<Stmt>, m: Sites, inCase: bool, k: int, key: Key, op: Operator)
    requires Sole(m, k, key, op) && OkSites(m) && OkOpt(s, m)
    ensures KeysOpt(s, key) == 0 ==> !LandsOpt(s, m, inCase, key, op)
  {
    OptDecided(s, m, inCase, k, key, op);
  }

  lemma {:induction false} QuietList(l: seq<Stmt>, m: Sites, inCase: bool, k: int, key: Key, op: Operator)
    requires Sole(m, k, key, op) && OkSites(m) && OkList(l, m)
    ensures KeysList(l, key) == 0 ==> !LandsList(l, m, inCase, key, op)
  {
    ListDecided(l, m, inCase, k, key, op);
  }

  lemma {:induction false} QuietClause(c: Clause, m: Sites, k: int, key: Key, op: Operator)
    requires Sole(m, k, key, op) && OkSites(m) && OkExprs(c.list, m) && OkList(c.body, m)
    ensures KeysClause(c, key) == 0 ==> !LandsClause(c, m, key, op)
  {
    ClauseDecided(c, m, k, key, op);
  }

  lemma {:induction false} QuietClauses(cs: seq<Clause>, m: Sites, k: int, key: Key, op: Operator)
    requires Sole(m, k, key, op) && OkSites(m) && OkClauses(cs, m)
    ensures KeysClauses(cs, key) == 0 ==> !LandsClauses(cs, m, key, op)
  {
    ClausesDecided(cs, m, k, key, op);
  }

  lemma {:induction false} QuietFile(fs: seq<FuncDecl>, m: Sites, k: int, key: Key, op: Operator)
    requires Sole(m, k, key, op) && OkSites(m) && OkFile(fs, m)
    ensures KeysFile(fs, key) == 0 ==> !LandsFile(fs, m, key, op)
  {
    FileDecided(fs, m, k, key, op);
  }

  lemma {:induction false} InStmtLands(t: Stmt, tCase: bool, s: Stmt, m: Sites, inCase: bool, k: int, key: Key,
                                       op: Operator)
    requires OkSites(m) && Sole(m, k, key, op) && OkStmt(s, m) && KeyOfStmt(t) == key && InStmt(t, tCase, s, inCase)
    ensures LandsHere(KeysStmt(s, key), LandsStmt(s, m, inCase, key, op), LandsOnStmt(t, m, tCase, op))
    decreases s, 1
  {
    hide LandsOnStmt, LandsStmtKids, KeysStmtKids, InKids, OkStmt, Sole, OkSites, KeyOfStmt;
    QuietStmtKids(s, m, inCase, k, key, op);
    if !(t == s && tCase == inCase) { InKidsLands(t, tCase, s, m, inCase, k, key, op); }
  }

  lemma {:induction false} InKidsLands(t: Stmt, tCase: bool, s: Stmt, m: Sites, inCase: bool, k: int, key: Key,
                                       op: Operator)
    requires OkSites(m) && Sole(m, k, key, op) && OkStmt(s, m) && KeyOfStmt(t) == key && InKids(t, tCase, s, inCase)
    ensures LandsHere(KeysStmtKids(s, key), LandsStmtKids(s, m, inCase, key, op), LandsOnStmt(t, m, tCase, op))
    decreases s, 0, 1
  {
    hide LandsOnStmt, Sole, OkSites, GeneratedStmt, KeyOfStmt, LandsExpr, KeysExpr, OkExpr, LandsList, KeysList, OkList,
         InList, LandsClauses, KeysClauses, OkClauses, InClauses;
    match s
    case IfStmt(_, _, _, _, _) => InIfLands(t, tCase, s, m, inCase, k, key, op);
    case ForStmt(_, _, _, _, _) => InForLands(t, tCase, s, m, inCase, k, key, op);
    case RangeStmt(_, _, _, x, body) =>
      QuietExpr(x, true, m, k, key, op);
      InListLands(t, tCase, body, m, inCase, k, key, op);
    case SwitchStmt(_, tag, clauses) =>
      QuietExpr(tag, false, m, k, key, op);
      InClausesLands(t, tCase, clauses, m, k, key, op);
    case BlockStmt(_, list) => InListLands(t, tCase, list, m, inCase, k, key, op);
    case _ =>
  }

  /** The children of an `if`, added up. */
  lemma IfKids(s: Stmt, m: Sites, inCase: bool, key: Key, op: Operator, t: Stmt, tCase: bool)
    requires s.IfStmt? && OkStmt(s, m)
    ensures OkOpt(s.init, m) && OkExpr(s.cond, m) && OkList(s.body, m) && OkOpt(s.els, m)
    ensures KeysStmtKids(s, key) == KeysOpt(s.init, key) + KeysExpr(s.cond, key) + KeysList(s.body, key)
            + KeysOpt(s.els, key)
    ensures LandsStmtKids(s, m, inCase, key, op)
       <==> LandsOpt(s.init, m, inCase, key, op) || LandsExpr(s.cond, false, m, key, op)
            || LandsList(s.body, m, inCase, key, op) || LandsOpt(s.els, m, inCase, key, op)
    ensures InKids(t, tCase, s, inCase)
       <==> InOpt(t, tCase, s.init, inCase) || InList(t, tCase, s.body, inCase) || InOpt(t, tCase, s.els, inCase)
  {
    hide OkOpt, OkExpr, OkList, GeneratedStmt, KeysOpt, KeysExpr, KeysList, LandsOpt, LandsExpr, LandsList, InOpt,
         InList;
  }

  lemma {:induction false} InIfLands(t: Stmt, tCase: bool, s: Stmt, m: Sites, inCase: bool, k: int, key: Key,
                                     op: Operator)
    requires s.IfStmt? && OkSites(m) && Sole(m, k, key, op) && OkStmt(s, m) && KeyOfStmt(t) == key
    requires InKids(t, tCase, s, inCase)
    ensures LandsHere(KeysStmtKids(s, key), LandsStmtKids(s, m, inCase, key, op), LandsOnStmt(t, m, tCase, op))
    decreases s, 0, 0
  {
    hide LandsOnStmt, LandsExpr, LandsOptExpr, LandsStmtKids, LandsOpt, LandsList, KeysExpr, KeysOptExpr, KeysStmtKids,
         KeysOpt, KeysList, InKids, InOpt, InList, OkStmt, OkExpr, OkOptExpr, OkOpt, OkList, Sole, OkSites, KeyOfStmt;
    IfKids(s, m, inCase, key, op, t, tCase);
    QuietOpt(s.init, m, inCase, k, key, op);
    QuietExpr(s.cond, false, m, k, key, op);
    QuietList(s.body, m, inCase, k, key, op);
    QuietOpt(s.els, m, inCase, k, key, op);
    if InOpt(t, tCase, s.init, inCase) {
      InOptLands(t, tCase, s.init, m, inCase, k, key, op);
    } else if InList(t, tCase, s.body, inCase) {
      InListLands(t, tCase, s.body, m, inCase, k, key, op);
    } else {
      InOptLands(t, tCase, s.els, m, inCase, k, key, op);
    }
  }

  /** The children of a `for`, added up. */
  lemma ForKids(s: Stmt, m: Sites, inCase: bool, key: Key, op: Operator, t: Stmt, tCase: bool)
    requires s.ForStmt? && OkStmt(s, m)
    ensures OkOpt(s.init, m) && OkOptExpr(s.forCond, m) && OkOpt(s.post, m) && OkList(s.body, m)
    ensures KeysStmtKids(s, key)
         == KeysOpt(s.init, key) + KeysOptExpr(s.forCond, key) + KeysOpt(s.post, key) + KeysList(s.body, key)
    ensures LandsStmtKids(s, m, inCase, key, op)
       <==> LandsOpt(s.init, m, inCase, key, op) || LandsOptExpr(s.forCond, m, key, op)
            || LandsOpt(s.post, m, inCase, key, op) || LandsList(s.body, m, inCase, key, op)
    ensures InKids(t, tCase, s, inCase)
       <==> InOpt(t, tCase, s.init, inCase) || InOpt(t, tCase, s.post, inCase) || InList(t, tCase, s.body, inCase)
  {
    hide OkOpt, OkOptExpr, OkList, GeneratedStmt, KeysOpt, KeysOptExpr, KeysList, LandsOpt, LandsOptExpr, LandsList,
         InOpt,
         InList;
  }

  lemma {:induction false} InForLands(t: Stmt, tCase: bool, s: Stmt, m: Sites, inCase: bool, k: int, key: Key,
                                      op: Operator)
    requires s.ForStmt? && OkSites(m) && Sole(m, k, key, op) && OkStmt(s, m) && KeyOfStmt(t) == key
    requires InKids(t, tCase, s, inCase)
    ensures LandsHere(KeysStmtKids(s, key), LandsStmtKids(s, m, inCase, key, op), LandsOnStmt(t, m, tCase, op))
    decreases s, 0, 0
  {
    hide LandsOnStmt, LandsExpr, LandsOptExpr, LandsStmtKids, LandsOpt, LandsList, KeysExpr, KeysOptExpr, KeysStmtKids,
         KeysOpt, KeysList, InKids, InOpt, InList, OkStmt, OkExpr, OkOptExpr, OkOpt, OkList, Sole, OkSites, KeyOfStmt;
    ForKids(s, m, inCase, key, op, t, tCase);
    QuietOpt(s.init, m, inCase, k, key, op);
    QuietOptExpr(s.forCond, m, k, key, op);
    QuietOpt(s.post, m, inCase, k, key, op);
    QuietList(s.body, m, inCase, k, key, op);
    if InOpt(t, tCase, s.init, inCase) {
      InOptLands(t, tCase, s.init, m, inCase, k, key, op);
    } else if InOpt(t, tCase, s.post, inCase) {
      InOptLands(t, tCase, s.post, m, inCase, k, key, op);
    } else {
      InListLands(t, tCase, s.body, m, inCase, k, key, op);
    }
  }

  lemma {:induction false} InOptLands(t: Stmt, tCase: bool, s: Option<Stmt>, m: Sites, inCase: bool, k: int, key: Key,
                                      op: Operator)
    requires OkSites(m) && Sole(m, k, key, op) && OkOpt(s, m) && KeyOfStmt(t) == key && InOpt(t, tCase, s, inCase)
    ensures LandsHere(KeysOpt(s, key), LandsOpt(s, m, inCase, key, op), LandsOnStmt(t, m, tCase, op))
    decreases s, 1
  {
    hide LandsOnStmt, LandsStmt, KeysStmt, InStmt, OkStmt, Sole, OkSites, KeyOfStmt;
    InStmtLands(t, tCase, s.value, m, inCase, k, key, op);
  }

  lemma ListParts(t: Stmt, tCase: bool, l: seq<Stmt>, inCase: bool, m: Sites)
    requires OkList(l, m) && InList(t, tCase, l, inCase)
    ensures l != [] && OkStmt(l[0], m) && OkList(l[1..], m)
    ensures InStmt(t, tCase, l[0], inCase) || InList(t, tCase, l[1..], inCase)
  {
    hide OkStmt, InStmt;
  }

  lemma HeadAdds(l: seq<Stmt>, m: Sites, inCase: bool, key: Key, op: Operator, here: bool)
    requires l != [] && LandsHere(KeysStmt(l[0], key), LandsStmt(l[0], m, inCase, key, op), here)
    requires KeysList(l[1..], key) == 0 ==> !LandsList(l[1..], m, inCase, key, op)
    ensures LandsHere(KeysList(l, key), LandsList(l, m, inCase, key, op), here)
  {
    hide KeysStmt, LandsStmt;
  }

  lemma TailAdds(l: seq<Stmt>, m: Sites, inCase: bool, key: Key, op: Operator, here: bool)
    requires l != [] && LandsHere(KeysList(l[1..], key), LandsList(l[1..], m, inCase, key, op), here)
    requires KeysStmt(l[0], key) == 0 ==> !LandsStmt(l[0], m, inCase, key, op)
    ensures LandsHere(KeysList(l, key), LandsList(l, m, inCase, key, op), here)
  {
    hide KeysStmt, LandsStmt;
  }

  lemma {:induction false} InListLands(t: Stmt, tCase: bool, l: seq<Stmt>, m: Sites, inCase: bool, k: int, key: Key,
                                       op: Operator)
    requires OkSites(m) && Sole(m, k, key, op) && OkList(l, m) && KeyOfStmt(t) == key && InList(t, tCase, l, inCase)
    ensures LandsHere(KeysList(l, key), LandsList(l, m, inCase, key, op), LandsOnStmt(t, m, tCase, op))
    decreases l, 1
  {
    hide *;
    ListParts(t, tCase, l, inCase, m);
    if InStmt(t, tCase, l[0], inCase) {
      InStmtLands(t, tCase, l[0], m, inCase, k, key, op);
      QuietList(l[1..], m, inCase, k, key, op);
      HeadAdds(l, m, inCase, key, op, LandsOnStmt(t, m, tCase, op));
    } else {
      InListLands(t, tCase, l[1..], m, inCase, k, key, op);
      QuietStmt(l[0], m, inCase, k, key, op);
      TailAdds(l, m, inCase, key, op, LandsOnStmt(t, m, tCase, op));
    }
  }

  lemma ClausesParts(t: Stmt, tCase: bool, cs: seq<Clause>, m: Sites)
    requires OkClauses(cs, m) && InClauses(t, tCase, cs)
    ensures cs != [] && OkExprs(cs[0].list, m) && OkList(cs[0].body, m) && OkClauses(cs[1..], m)
    ensures InList(t, tCase, cs[0].body, true) || InClauses(t, tCase, cs[1..])
  {
    hide OkExprs, OkList, InList;
  }

  lemma ClausesAdd(cs: seq<Clause>, m: Sites, key: Key, op: Operator, here: bool)
    requires cs != []
    ensures LandsHere(KeysClause(cs[0], key), LandsClause(cs[0], m, key, op), here)
            && (KeysClauses(cs[1..], key) == 0 ==> !LandsClauses(cs[1..], m, key, op))
            ==> LandsHere(KeysClauses(cs, key), LandsClauses(cs, m, key, op), here)
    ensures LandsHere(KeysClauses(cs[1..], key), LandsClauses(cs[1..], m, key, op), here)
            && (KeysClause(cs[0], key) == 0 ==> !LandsClause(cs[0], m, key, op))
            ==> LandsHere(KeysClauses(cs, key), LandsClauses(cs, m, key, op), here)
  {
    hide KeysClause, LandsClause;
  }

  lemma {:induction false} InClausesLands(t: Stmt, tCase: bool, cs: seq<Clause>, m: Sites, k: int, key: Key,
                                          op: Operator)
    requires OkSites(m) && Sole(m, k, key, op) && OkClauses(cs, m) && KeyOfStmt(t) == key && InClauses(t, tCase, cs)
    ensures LandsHere(KeysClauses(cs, key), LandsClauses(cs, m, key, op), LandsOnStmt(t, m, tCase, op))
    decreases cs, 1
  {
    hide *;
    ClausesParts(t, tCase, cs, m);
    ClausesAdd(cs, m, key, op, LandsOnStmt(t, m, tCase, op));
    if InList(t, tCase, cs[0].body, true) {
      InClauseLands(t, tCase, cs[0], m, k, key, op);
      QuietClauses(cs[1..], m, k, key, op);
    } else {
      InClausesLands(t, tCase, cs[1..], m, k, key, op);
      QuietClause(cs[0], m, k, key, op);
    }
  }

  lemma {:induction false} InClauseLands(t: Stmt, tCase: bool, c: Clause, m: Sites, k: int, key: Key, op: Operator)
    requires OkSites(m) && Sole(m, k, key, op) && OkExprs(c.list, m) && OkList(c.body, m)
    requires KeyOfStmt(t) == key && InList(t, tCase, c.body, true)
    ensures LandsHere(KeysClause(c, key), LandsClause(c, m, key, op), LandsOnStmt(t, m, tCase, op))
    decreases c, 1
  {
    Equivalence.StmtIsNoClause(t);
    hide LandsOnStmt, LandsOnClause, LandsExprs, KeysExprs, OkExprs, LandsList, KeysList, InList, OkList,
         Sole, OkSites, KeyOfStmt;
    QuietExprs(c.list, false, m, k, key, op);
    InListLands(t, tCase, c.body, m, true, k, key, op);
  }

  lemma FileParts(t: Stmt, tCase: bool, fs: seq<FuncDecl>, m: Sites)
    requires OkFile(fs, m) && InFile(t, tCase, fs)
    ensures fs != [] && OkList(fs[0].body, m) && OkFile(fs[1..], m)
    ensures InList(t, tCase, fs[0].body, false) || InFile(t, tCase, fs[1..])
  {
    hide OkList, InList;
  }

  lemma FileAdds(fs: seq<FuncDecl>, m: Sites, key: Key, op: Operator, here: bool)
    requires fs != [] && key.kind != NTFuncDecl
    ensures LandsHere(KeysList(fs[0].body, key), LandsList(fs[0].body, m, false, key, op), here)
            && (KeysFile(fs[1..], key) == 0 ==> !LandsFile(fs[1..], m, key, op))
            ==> LandsHere(KeysFile(fs, key), LandsFile(fs, m, key, op), here)
    ensures LandsHere(KeysFile(fs[1..], key), LandsFile(fs[1..], m, key, op), here)
            && (KeysList(fs[0].body, key) == 0 ==> !LandsList(fs[0].body, m, false, key, op))
            ==> LandsHere(KeysFile(fs, key), LandsFile(fs, m, key, op), here)
  {
    hide KeysList, LandsList;
  }

  /** A mutant of a statement that stands somewhere in the file lands if and only if it lands on that statement. */
  lemma {:induction false} InFileLands(t: Stmt, tCase: bool, fs: seq<FuncDecl>, m: Sites, k: int, key: Key,
                                       op: Operator)
    requires OkSites(m) && Sole(m, k, key, op) && OkFile(fs, m) && KeyOfStmt(t) == key && InFile(t, tCase, fs)
    ensures LandsHere(KeysFile(fs, key), LandsFile(fs, m, key, op), LandsOnStmt(t, m, tCase, op))
  {
    hide *;
    Equivalence.StmtIsNoClause(t);
    FileParts(t, tCase, fs, m);
    FileAdds(fs, m, key, op, LandsOnStmt(t, m, tCase, op));
    if InList(t, tCase, fs[0].body, false) {
      InListLands(t, tCase, fs[0].body, m, false, k, key, op);
      QuietFile(fs[1..], m, k, key, op);
    } else {
      InFileLands(t, tCase, fs[1..], m, k, key, op);
      QuietList(fs[0].body, m, false, k, key, op);
    }
  }

  // ---- Whatever holds of a file's statements holds of this one ----

  lemma {:induction false} InStmtOk(t: Stmt, tCase: bool, s: Stmt, inCase: bool, m: Sites)
    requires InStmt(t, tCase, s, inCase) && OkStmt(s, m)
    ensures OkStmt(t, m)
    decreases s, 1
  {
    hide InOpt, InList, InClauses, OkExpr, OkOptExpr, OkOpt, OkList, OkClauses, GeneratedStmt;
    if !(t == s && tCase == inCase) {
      match s
      case IfStmt(_, init, _, body, els) =>
        if InOpt(t, tCase, init, inCase) {
          InOptOk(t, tCase, init, inCase, m);
        } else if InList(t, tCase, body, inCase) {
          InListOk(t, tCase, body, inCase, m);
        } else {
          InOptOk(t, tCase, els, inCase, m);
        }
      case ForStmt(_, init, _, post, body) =>
        if InOpt(t, tCase, init, inCase) {
          InOptOk(t, tCase, init, inCase, m);
        } else if InOpt(t, tCase, post, inCase) {
          InOptOk(t, tCase, post, inCase, m);
        } else {
          InListOk(t, tCase, body, inCase, m);
        }
      case RangeStmt(_, _, _, _, body) => InListOk(t, tCase, body, inCase, m);
      case SwitchStmt(_, _, clauses) => InClausesOk(t, tCase, clauses, m);
      case BlockStmt(_, list) => InListOk(t, tCase, list, inCase, m);
      case _ =>
    }
  }

  lemma {:induction false} InOptOk(t: Stmt, tCase: bool, s: Option<Stmt>, inCase: bool, m: Sites)
    requires InOpt(t, tCase, s, inCase) && OkOpt(s, m)
    ensures OkStmt(t, m)
    decreases s, 1
  {
    InStmtOk(t, tCase, s.value, inCase, m);
  }

  lemma {:induction false} InListOk(t: Stmt, tCase: bool, l: seq<Stmt>, inCase: bool, m: Sites)
    requires InList(t, tCase, l, inCase) && OkList(l, m)
    ensures OkStmt(t, m)
    decreases l, 1
  {
    hide InStmt, OkStmt;
    if InStmt(t, tCase, l[0], inCase) { InStmtOk(t, tCase, l[0], inCase, m); } else {
      InListOk(t, tCase, l[1..], inCase, m);
    }
  }

  lemma {:induction false} InClausesOk(t: Stmt, tCase: bool, cs: seq<Clause>, m: Sites)
    requires InClauses(t, tCase, cs) && OkClauses(cs, m)
    ensures OkStmt(t, m)
    decreases cs, 1
  {
    hide InList, OkStmt, OkList, OkExprs;
    if InList(t, tCase, cs[0].body, true) { InListOk(t, tCase, cs[0].body, true, m); } else {
      InClausesOk(t, tCase, cs[1..], m);
    }
  }

  lemma {:induction false} InFileOk(t: Stmt, tCase: bool, fs: seq<FuncDecl>, m: Sites)
    requires InFile(t, tCase, fs) && OkFile(fs, m)
    ensures OkStmt(t, m)
  {
    hide InList, OkStmt, OkList;
    if InList(t, tCase, fs[0].body, false) { InListOk(t, tCase, fs[0].body, false, m); } else {
      InFileOk(t, tCase, fs[1..], m);
    }
  }
}
