/**
 The pass that runs after the visitor: a loop variable that no longer occurs in its loop's
 body gets a blank assignment in front, so that the file still compiles.
 */
module LoopVars {
  import opened Wrappers
  import opened GoAst
  import opened Operators
  import opened Schemata
  import opened Specialise

  // ---- Occurrence of a name, its declaring identifier excepted ----

  predicate UsedName(id: string, n: Name, decl: nat) { n.id == id && n.pos != decl }

  predicate UsedOptName(id: string, n: Option<Name>, decl: nat) { n.Some? && UsedName(id, n.value, decl) }

  predicate UsedExpr(id: string, e: Expr, decl: nat)
    decreases e
  {
    match e
    case Ident(p, name) => name == id && p != decl
    case BasicLit(_, _) => false
    case UnaryExpr(_, _, x) => UsedExpr(id, x, decl)
    case BinaryExpr(_, x, _, y) => UsedExpr(id, x, decl) || UsedExpr(id, y, decl)
    case ParenExpr(_, x) => UsedExpr(id, x, decl)
    case CallExpr(p, fun, args) => (fun == id && p != decl) || UsedExprs(id, args, decl)
    case FuncLitCall(body) => UsedList(id, body, decl)
  }

  predicate UsedExprs(id: string, es: seq<Expr>, decl: nat)
    decreases es
  {
    es != [] && (UsedExpr(id, es[0], decl) || UsedExprs(id, es[1..], decl))
  }

  predicate UsedOptExpr(id: string, e: Option<Expr>, decl: nat)
    decreases e
  {
    e.Some? && UsedExpr(id, e.value, decl)
  }

  predicate UsedStmt(id: string, s: Stmt, decl: nat)
    decreases s
  {
    match s
    case ExprStmt(x) => UsedExpr(id, x, decl)
    case AssignStmt(_, lhs, _, rhs) => UsedName(id, lhs, decl) || UsedExpr(id, rhs, decl)
    case IncDecStmt(_, target, _) => UsedName(id, target, decl)
    case IfStmt(_, init, cond, body, els) =>
      UsedOpt(id, init, decl) || UsedExpr(id, cond, decl) || UsedList(id, body, decl) || UsedOpt(id, els, decl)
    case ForStmt(_, init, cond, post, body) =>
      UsedOpt(id, init, decl) || UsedOptExpr(id, cond, decl) || UsedOpt(id, post, decl) || UsedList(id, body, decl)
    case RangeStmt(_, key, value, x, body) =>
      UsedOptName(id, key, decl) || UsedOptName(id, value, decl) || UsedExpr(id, x, decl) || UsedList(id, body, decl)
    case SwitchStmt(_, tag, clauses) => UsedExpr(id, tag, decl) || UsedClauses(id, clauses, decl)
    case ReturnStmt(_, result) => UsedOptExpr(id, result, decl)
    case BranchStmt(_, _) => false
    case BlockStmt(_, list) => UsedList(id, list, decl)
    case ConstDecl(_, target, x) => UsedName(id, target, decl) || UsedExpr(id, x, decl)
    case EmptyStmt(_) => false
  }

  predicate UsedOpt(id: string, s: Option<Stmt>, decl: nat)
    decreases s
  {
    s.Some? && UsedStmt(id, s.value, decl)
  }

  predicate UsedList(id: string, l: seq<Stmt>, decl: nat)
    decreases l
  {
    l != [] && (UsedStmt(id, l[0], decl) || UsedList(id, l[1..], decl))
  }

  predicate UsedClauses(id: string, cs: seq<Clause>, decl: nat)
    decreases cs
  {
    cs != [] && (UsedExprs(id, cs[0].list, decl) || UsedList(id, cs[0].body, decl) || UsedClauses(id, cs[1..], decl))
  }

  // ---- The pass ----

  function NamedVar(n: Option<Name>): seq<Name> {
    if n.Some? && n.value.id != "_" then [n.value] else []
  }

  /** The variables a loop declares. */
  function LoopNames(s: Stmt): seq<Name> {
    match s
    case RangeStmt(_, key, value, _, _) => NamedVar(key) + NamedVar(value)
    case ForStmt(_, Some(AssignStmt(_, lhs, _, _)), _, _, _) => NamedVar(Some(lhs))
    case _ => []
  }

  function BlankAssign(id: string): Stmt { AssignStmt(0, Name(0, "_"), SetTok, Ident(0, id)) }

  function AddBlank(n: Name, body: seq<Stmt>): seq<Stmt> {
    if UsedList(n.id, body, n.pos) then body else [BlankAssign(n.id)] + body
  }

  function AddBlanks(vars: seq<Name>, body: seq<Stmt>): seq<Stmt> {
    if vars == [] then body else AddBlank(vars[|vars| - 1], AddBlanks(vars[..|vars| - 1], body))
  }

  method PrependBlanks(vars: seq<Name>, list: seq<Stmt>) returns (body: seq<Stmt>)
    ensures body == AddBlanks(vars, list)
  {
    body := list;
    for i := 0 to |vars|
      invariant body == AddBlanks(vars[..i], list)
    {
      assert vars[..i + 1][..i] == vars[..i];
      if !UsedList(vars[i].id, body, vars[i].pos) { body := [BlankAssign(vars[i].id)] + body; }
    }
    assert vars[..|vars|] == vars;
  }

  function FixStmt(s: Stmt): Stmt
    decreases s, 1
  {
    match s
    case RangeStmt(p, key, value, x, body) => RangeStmt(p, key, value, x, AddBlanks(LoopNames(s), FixList(body)))
    case ForStmt(p, init, cond, post, body) => ForStmt(p, init, cond, post, AddBlanks(LoopNames(s), FixList(body)))
    case IfStmt(p, init, cond, body, els) => IfStmt(p, init, cond, FixList(body), FixElse(els))
    case BlockStmt(p, list) => BlockStmt(p, FixList(list))
    case SwitchStmt(p, tag, clauses) => SwitchStmt(p, tag, FixClauses(clauses))
    case _ => s
  }

  /** Only an else-if or an else block is walked. */
  function FixElse(els: Option<Stmt>): Option<Stmt>
    decreases els, 1
  {
    if els.Some? && (els.value.IfStmt? || els.value.BlockStmt?) then Some(FixStmt(els.value)) else els
  }

  function FixList(l: seq<Stmt>): seq<Stmt>
    decreases l, 1
  {
    if l == [] then [] else [FixStmt(l[0])] + FixList(l[1..])
  }

  function FixClauses(cs: seq<Clause>): seq<Clause>
    decreases cs, 1
  {
    if cs == [] then []
    else [CaseClause(cs[0].pos, cs[0].isDefault, cs[0].list, FixList(cs[0].body))] + FixClauses(cs[1..])
  }

  function FixFile(fs: seq<FuncDecl>): seq<FuncDecl> {
    if fs == [] then [] else [fs[0].(body := FixList(fs[0].body))] + FixFile(fs[1..])
  }

  // ---- It leaves the meaning alone ----

  lemma {:induction false} AddBlanksSpec(vars: seq<Name>, body: seq<Stmt>, k: int)
    ensures SpecList(AddBlanks(vars, body), k) == SpecList(body, k)
  {
    if vars != [] {
      var n, rest := vars[|vars| - 1], AddBlanks(vars[..|vars| - 1], body);
      AddBlanksSpec(vars[..|vars| - 1], body, k);
      assert ([BlankAssign(n.id)] + rest)[1..] == rest;
      assert SpecStmt(BlankAssign(n.id), k) == EmptyStmt(0);
    }
  }

  lemma {:induction false} FixStmtSpec(s: Stmt, k: int)
    ensures SpecStmt(FixStmt(s), k) == SpecStmt(s, k)
    decreases s, 1
  {
    match s
    case RangeStmt(_, _, _, _, body) =>
      FixListSpec(body, k);
      AddBlanksSpec(LoopNames(s), FixList(body), k);
    case ForStmt(_, _, _, _, body) =>
      FixListSpec(body, k);
      AddBlanksSpec(LoopNames(s), FixList(body), k);
    case IfStmt(_, _, _, body, els) =>
      FixListSpec(body, k);
      if els.Some? { FixStmtSpec(els.value, k); }
    case BlockStmt(_, list) => FixListSpec(list, k);
    case SwitchStmt(_, _, clauses) => FixClausesSpec(clauses, k);
    case _ =>
  }

  lemma {:induction false} FixListSpec(l: seq<Stmt>, k: int)
    ensures SpecList(FixList(l), k) == SpecList(l, k)
    decreases l, 1
  {
    if l != [] {
      FixStmtSpec(l[0], k);
      FixListSpec(l[1..], k);
      assert FixList(l)[1..] == FixList(l[1..]);
    }
  }

  lemma {:induction false} FixClausesSpec(cs: seq<Clause>, k: int)
    ensures SpecClauses(FixClauses(cs), k) == SpecClauses(cs, k)
    decreases cs, 1
  {
    if cs != [] {
      var c := cs[0];
      FixListSpec(c.body, k);
      FixClausesSpec(cs[1..], k);
      assert FixClauses(cs)[1..] == FixClauses(cs[1..]);
    }
  }

  lemma {:induction false} FixFileSpec(fs: seq<FuncDecl>, k: int)
    ensures SpecFile(FixFile(fs), k) == SpecFile(fs, k)
  {
    if fs != [] {
      FixListSpec(fs[0].body, k);
      FixFileSpec(fs[1..], k);
      assert FixFile(fs)[1..] == FixFile(fs[1..]);
    }
  }

  // ---- It repairs every loop it reaches, and then has nothing left to do ----

  predicate UsesAll(vars: seq<Name>, body: seq<Stmt>) {
    forall n | n in vars :: UsedList(n.id, body, n.pos)
  }

  /** A variable that has a name occurs in the body. */
  predicate Occurs(n: Option<Name>, body: seq<Stmt>) {
    n.Some? && n.value.id != "_" ==> UsedList(n.value.id, body, n.value.pos)
  }

  /** Key and value of a `range`, and what the init of a `for` assigns, occur in the bodies of all loops. */
  predicate RepairedStmt(s: Stmt)
    decreases s, 1
  {
    match s
    case RangeStmt(_, key, value, _, body) => RepairedList(body) && Occurs(key, body) && Occurs(value, body)
    case ForStmt(_, init, _, _, body) =>
      RepairedList(body) && (init.Some? && init.value.AssignStmt? ==> Occurs(Some(init.value.lhs), body))
    case IfStmt(_, _, _, body, els) =>
      RepairedList(body) && (els.Some? && (els.value.IfStmt? || els.value.BlockStmt?) ==> RepairedStmt(els.value))
    case BlockStmt(_, list) => RepairedList(list)
    case SwitchStmt(_, _, clauses) => RepairedClauses(clauses)
    case _ => true
  }

  predicate RepairedList(l: seq<Stmt>)
    decreases l, 1
  {
    l != [] ==> RepairedStmt(l[0]) && RepairedList(l[1..])
  }

  predicate RepairedClauses(cs: seq<Clause>)
    decreases cs, 1
  {
    cs != [] ==> RepairedList(cs[0].body) && RepairedClauses(cs[1..])
  }

  predicate Stands(n: Option<Name>) { n.Some? && n.value.id != "_" ==> n.value.pos > 0 }

  /** Loop variables were parsed, so they stand somewhere. */
  predicate ParsedStmt(s: Stmt)
    decreases s, 1
  {
    match s
    case RangeStmt(_, key, value, _, body) => ParsedList(body) && Stands(key) && Stands(value)
    case ForStmt(_, init, _, _, body) =>
      ParsedList(body) && (init.Some? && init.value.AssignStmt? ==> Stands(Some(init.value.lhs)))
    case IfStmt(_, _, _, body, els) => ParsedList(body) && (els.Some? ==> ParsedStmt(els.value))
    case BlockStmt(_, list) => ParsedList(list)
    case SwitchStmt(_, _, clauses) => ParsedClauses(clauses)
    case _ => true
  }

  predicate ParsedList(l: seq<Stmt>)
    decreases l, 1
  {
    l != [] ==> ParsedStmt(l[0]) && ParsedList(l[1..])
  }

  predicate ParsedClauses(cs: seq<Clause>)
    decreases cs, 1
  {
    cs != [] ==> ParsedList(cs[0].body) && ParsedClauses(cs[1..])
  }

  lemma {:induction false} AddBlanksRepairs(vars: seq<Name>, body: seq<Stmt>)
    requires RepairedList(body) && forall n | n in vars :: n.pos > 0
    ensures RepairedList(AddBlanks(vars, body)) && UsesAll(vars, AddBlanks(vars, body))
  {
    if vars != [] {
      var n, init := vars[|vars| - 1], vars[..|vars| - 1];
      var rest := AddBlanks(init, body);
      AddBlanksRepairs(init, body);
      var blanked := [BlankAssign(n.id)] + rest;
      assert blanked[1..] == rest;
      assert UsedStmt(n.id, BlankAssign(n.id), n.pos);
      assert UsesAll(init, blanked);
      assert vars == init + [n];
    }
  }

  /** The variables of a loop are served exactly if each of its fields is. */
  lemma LoopServed(s: Stmt, body: seq<Stmt>)
    requires s.RangeStmt? || s.ForStmt?
    ensures UsesAll(LoopNames(s), body)
       <==> if s.RangeStmt? then Occurs(s.key, body) && Occurs(s.value, body)
            else s.init.Some? && s.init.value.AssignStmt? ==> Occurs(Some(s.init.value.lhs), body)
    ensures ParsedStmt(s) ==> forall n | n in LoopNames(s) :: n.pos > 0
  {
    hide UsedList, ParsedList;
    if s.RangeStmt? {
      NamedServed(s.key, body);
      NamedServed(s.value, body);
    } else if s.init.Some? && s.init.value.AssignStmt? {
      NamedServed(Some(s.init.value.lhs), body);
    }
  }

  lemma NamedServed(n: Option<Name>, body: seq<Stmt>)
    ensures UsesAll(NamedVar(n), body) <==> Occurs(n, body)
    ensures Stands(n) ==> forall x | x in NamedVar(n) :: x.pos > 0
  {
    hide UsedList;
    if n.Some? && n.value.id != "_" { assert n.value in NamedVar(n); }
  }

  lemma {:induction false} FixStmtRepairs(s: Stmt)
    requires ParsedStmt(s)
    ensures RepairedStmt(FixStmt(s))
    decreases s, 1
  {
    match s
    case RangeStmt(_, _, _, _, body) =>
      FixListRepairs(body);
      LoopServed(s, FixStmt(s).body);
      AddBlanksRepairs(LoopNames(s), FixList(body));
    case ForStmt(_, _, _, _, body) =>
      FixListRepairs(body);
      LoopServed(s, FixStmt(s).body);
      AddBlanksRepairs(LoopNames(s), FixList(body));
    case IfStmt(_, _, _, body, els) =>
      FixListRepairs(body);
      if els.Some? { FixStmtRepairs(els.value); }
    case BlockStmt(_, list) => FixListRepairs(list);
    case SwitchStmt(_, _, clauses) => FixClausesRepairs(clauses);
    case _ =>
  }

  lemma {:induction false} FixListRepairs(l: seq<Stmt>)
    requires ParsedList(l)
    ensures RepairedList(FixList(l))
    decreases l, 1
  {
    if l != [] {
      FixStmtRepairs(l[0]);
      FixListRepairs(l[1..]);
      assert FixList(l)[1..] == FixList(l[1..]);
    }
  }

  lemma {:induction false} FixClausesRepairs(cs: seq<Clause>)
    requires ParsedClauses(cs)
    ensures RepairedClauses(FixClauses(cs))
    decreases cs, 1
  {
    if cs != [] {
      var c := cs[0];
      FixListRepairs(c.body);
      FixClausesRepairs(cs[1..]);
      assert FixClauses(cs)[1..] == FixClauses(cs[1..]);
    }
  }

  lemma {:induction false} AddBlanksIdle(vars: seq<Name>, body: seq<Stmt>)
    requires UsesAll(vars, body)
    ensures AddBlanks(vars, body) == body
  {
    if vars != [] {
      assert vars == vars[..|vars| - 1] + [vars[|vars| - 1]];
      AddBlanksIdle(vars[..|vars| - 1], body);
    }
  }

  lemma {:induction false} FixStmtIdle(s: Stmt)
    requires RepairedStmt(s)
    ensures FixStmt(s) == s
    decreases s, 1
  {
    match s
    case RangeStmt(_, _, _, _, body) =>
      FixListIdle(body);
      LoopServed(s, body);
      AddBlanksIdle(LoopNames(s), body);
    case ForStmt(_, _, _, _, body) =>
      FixListIdle(body);
      LoopServed(s, body);
      AddBlanksIdle(LoopNames(s), body);
    case IfStmt(_, _, _, body, els) =>
      FixListIdle(body);
      if els.Some? && (els.value.IfStmt? || els.value.BlockStmt?) { FixStmtIdle(els.value); }
    case BlockStmt(_, list) => FixListIdle(list);
    case SwitchStmt(_, _, clauses) => FixClausesIdle(clauses);
    case _ =>
  }

  lemma {:induction false} FixListIdle(l: seq<Stmt>)
    requires RepairedList(l)
    ensures FixList(l) == l
    decreases l, 1
  {
    if l != [] {
      FixStmtIdle(l[0]);
      FixListIdle(l[1..]);
    }
  }

  lemma {:induction false} FixClausesIdle(cs: seq<Clause>)
    requires RepairedClauses(cs)
    ensures FixClauses(cs) == cs
    decreases cs, 1
  {
    if cs != [] {
      var c := cs[0];
      FixListIdle(c.body);
      FixClausesIdle(cs[1..]);
    }
  }

  /** Running the pass again adds nothing. */
  lemma FixTwice(l: seq<Stmt>)
    requires ParsedList(l)
    ensures FixList(FixList(l)) == FixList(l) && RepairedList(FixList(l))
  {
    FixListRepairs(l);
    FixListIdle(FixList(l));
  }

  /** The second walk, over function literals, finds no loop in the literals the wrappers build. */
  lemma {:induction false} WrapperHasNoLoop(ps: seq<Placed<Expr>>, e: Expr)
    ensures FixList(GuardSteps(ps) + [Schemata.Return(e)]) == GuardSteps(ps) + [Schemata.Return(e)]
  {
    var l := GuardSteps(ps) + [Schemata.Return(e)];
    if ps == [] {
      assert l == [Schemata.Return(e)];
      assert FixList(l[1..]) == [];
    } else {
      WrapperHasNoLoop(ps[1..], e);
      assert l[1..] == GuardSteps(ps[1..]) + [Schemata.Return(e)];
      var step := GuardStep(ps[0].id, ps[0].node);
      assert step.body == [Schemata.Return(ps[0].node)];
      assert FixList(step.body[1..]) == [] && FixList(step.body) == step.body;
      assert FixStmt(step) == step && l[0] == step;
    }
  }

  // ---- The identifiers of a body, collected ----

  function OptName(n: Option<Name>): set<Name> { if n.Some? then {n.value} else {} }

  function NamesInExpr(e: Expr): set<Name>
    decreases e
  {
    match e
    case Ident(p, name) => {Name(p, name)}
    case BasicLit(_, _) => {}
    case UnaryExpr(_, _, x) => NamesInExpr(x)
    case BinaryExpr(_, x, _, y) => NamesInExpr(x) + NamesInExpr(y)
    case ParenExpr(_, x) => NamesInExpr(x)
    case CallExpr(p, fun, args) => {Name(p, fun)} + NamesInExprs(args)
    case FuncLitCall(body) => NamesInList(body)
  }

  function NamesInExprs(es: seq<Expr>): set<Name>
    decreases es
  {
    if es == [] then {} else NamesInExpr(es[0]) + NamesInExprs(es[1..])
  }

  function NamesInOptExpr(e: Option<Expr>): set<Name>
    decreases e
  {
    if e.None? then {} else NamesInExpr(e.value)
  }

  function NamesInStmt(s: Stmt): set<Name>
    decreases s
  {
    match s
    case ExprStmt(x) => NamesInExpr(x)
    case AssignStmt(_, lhs, _, rhs) => {lhs} + NamesInExpr(rhs)
    case IncDecStmt(_, target, _) => {target}
    case IfStmt(_, init, cond, body, els) =>
      NamesInOpt(init) + NamesInExpr(cond) + NamesInList(body) + NamesInOpt(els)
    case ForStmt(_, init, cond, post, body) =>
      NamesInOpt(init) + NamesInOptExpr(cond) + NamesInOpt(post) + NamesInList(body)
    case RangeStmt(_, key, value, x, body) => OptName(key) + OptName(value) + NamesInExpr(x) + NamesInList(body)
    case SwitchStmt(_, tag, clauses) => NamesInExpr(tag) + NamesInClauses(clauses)
    case ReturnStmt(_, result) => NamesInOptExpr(result)
    case BranchStmt(_, _) => {}
    case BlockStmt(_, list) => NamesInList(list)
    case ConstDecl(_, target, x) => {target} + NamesInExpr(x)
    case EmptyStmt(_) => {}
  }

  function NamesInOpt(s: Option<Stmt>): set<Name>
    decreases s
  {
    if s.None? then {} else NamesInStmt(s.value)
  }

  function NamesInList(l: seq<Stmt>): set<Name>
    decreases l
  {
    if l == [] then {} else NamesInStmt(l[0]) + NamesInList(l[1..])
  }

  function NamesInClauses(cs: seq<Clause>): set<Name>
    decreases cs
  {
    if cs == [] then {} else NamesInExprs(cs[0].list) + NamesInList(cs[0].body) + NamesInClauses(cs[1..])
  }

  /** Among the names is the identifier, other than its declaration. */
  predicate Another(id: string, names: set<Name>, decl: nat) { exists n :: n in names && n.id == id && n.pos != decl }

  lemma AnotherOf(id: string, a: set<Name>, b: set<Name>, decl: nat)
    ensures Another(id, a + b, decl) <==> Another(id, a, decl) || Another(id, b, decl)
  {
  }

  lemma AnotherAlone(id: string, n: Name, decl: nat)
    ensures Another(id, {n}, decl) <==> UsedName(id, n, decl)
    ensures !Another(id, {}, decl)
  {
    if UsedName(id, n, decl) { assert n in {n}; }
  }

  lemma {:induction false} UsedInExpr(id: string, e: Expr, decl: nat)
    ensures UsedExpr(id, e, decl) <==> Another(id, NamesInExpr(e), decl)
    decreases e
  {
    hide Another;
    match e
    case Ident(p, name) => AnotherAlone(id, Name(p, name), decl);
    case BasicLit(_, _) => AnotherAlone(id, Name(0, id), decl);
    case UnaryExpr(_, _, x) => UsedInExpr(id, x, decl);
    case BinaryExpr(_, x, _, y) =>
      UsedInExpr(id, x, decl);
      UsedInExpr(id, y, decl);
      AnotherOf(id, NamesInExpr(x), NamesInExpr(y), decl);
    case ParenExpr(_, x) => UsedInExpr(id, x, decl);
    case CallExpr(p, fun, args) =>
      UsedInExprs(id, args, decl);
      AnotherAlone(id, Name(p, fun), decl);
      AnotherOf(id, {Name(p, fun)}, NamesInExprs(args), decl);
    case FuncLitCall(body) => UsedInList(id, body, decl);
  }

  lemma {:induction false} UsedInExprs(id: string, es: seq<Expr>, decl: nat)
    ensures UsedExprs(id, es, decl) <==> Another(id, NamesInExprs(es), decl)
    decreases es
  {
    hide Another;
    if es == [] {
      AnotherAlone(id, Name(0, id), decl);
    } else {
      UsedInExpr(id, es[0], decl);
      UsedInExprs(id, es[1..], decl);
      AnotherOf(id, NamesInExpr(es[0]), NamesInExprs(es[1..]), decl);
    }
  }

  lemma {:induction false} UsedInOptExpr(id: string, e: Option<Expr>, decl: nat)
    ensures UsedOptExpr(id, e, decl) <==> Another(id, NamesInOptExpr(e), decl)
    decreases e
  {
    hide Another;
    if e.None? { AnotherAlone(id, Name(0, id), decl); } else { UsedInExpr(id, e.value, decl); }
  }

  lemma UsedInOptName(id: string, n: Option<Name>, decl: nat)
    ensures UsedOptName(id, n, decl) <==> Another(id, OptName(n), decl)
  {
    AnotherAlone(id, if n.Some? then n.value else Name(0, id), decl);
  }

  lemma AnotherOfFour(id: string, a: set<Name>, b: set<Name>, c: set<Name>, d: set<Name>, decl: nat)
    ensures Another(id, a + b + c + d, decl)
       <==> Another(id, a, decl) || Another(id, b, decl) || Another(id, c, decl) || Another(id, d, decl)
  {
    hide Another;
    AnotherOf(id, a, b, decl);
    AnotherOf(id, a + b, c, decl);
    AnotherOf(id, a + b + c, d, decl);
  }

  lemma {:induction false} UsedInStmt(id: string, s: Stmt, decl: nat)
    ensures UsedStmt(id, s, decl) <==> Another(id, NamesInStmt(s), decl)
    decreases s
  {
    hide Another, UsedName;
    match s
    case ExprStmt(x) => UsedInExpr(id, x, decl);
    case AssignStmt(_, lhs, _, rhs) =>
      AnotherAlone(id, lhs, decl);
      UsedInExpr(id, rhs, decl);
      AnotherOf(id, {lhs}, NamesInExpr(rhs), decl);
    case IncDecStmt(_, target, _) => AnotherAlone(id, target, decl);
    case IfStmt(_, init, cond, body, els) =>
      UsedInOpt(id, init, decl);
      UsedInExpr(id, cond, decl);
      UsedInList(id, body, decl);
      UsedInOpt(id, els, decl);
      AnotherOfFour(id, NamesInOpt(init), NamesInExpr(cond), NamesInList(body), NamesInOpt(els), decl);
    case ForStmt(_, init, cond, post, body) =>
      UsedInOpt(id, init, decl);
      UsedInOptExpr(id, cond, decl);
      UsedInOpt(id, post, decl);
      UsedInList(id, body, decl);
      AnotherOfFour(id, NamesInOpt(init), NamesInOptExpr(cond), NamesInOpt(post), NamesInList(body), decl);
    case RangeStmt(_, key, value, x, body) =>
      UsedInOptName(id, key, decl);
      UsedInOptName(id, value, decl);
      UsedInExpr(id, x, decl);
      UsedInList(id, body, decl);
      AnotherOfFour(id, OptName(key), OptName(value), NamesInExpr(x), NamesInList(body), decl);
    case SwitchStmt(_, tag, clauses) =>
      UsedInExpr(id, tag, decl);
      UsedInClauses(id, clauses, decl);
      AnotherOf(id, NamesInExpr(tag), NamesInClauses(clauses), decl);
    case ReturnStmt(_, result) => UsedInOptExpr(id, result, decl);
    case BranchStmt(_, _) => AnotherAlone(id, Name(0, id), decl);
    case BlockStmt(_, list) => UsedInList(id, list, decl);
    case ConstDecl(_, target, x) =>
      AnotherAlone(id, target, decl);
      UsedInExpr(id, x, decl);
      AnotherOf(id, {target}, NamesInExpr(x), decl);
    case EmptyStmt(_) => AnotherAlone(id, Name(0, id), decl);
  }

  lemma {:induction false} UsedInOpt(id: string, s: Option<Stmt>, decl: nat)
    ensures UsedOpt(id, s, decl) <==> Another(id, NamesInOpt(s), decl)
    decreases s
  {
    hide Another;
    if s.None? { AnotherAlone(id, Name(0, id), decl); } else { UsedInStmt(id, s.value, decl); }
  }

  /** A name counts as used in a body exactly if it is among its identifiers other than as its declaration. */
  lemma {:induction false} UsedInList(id: string, l: seq<Stmt>, decl: nat)
    ensures UsedList(id, l, decl) <==> Another(id, NamesInList(l), decl)
    decreases l
  {
    hide Another;
    if l == [] {
      AnotherAlone(id, Name(0, id), decl);
    } else {
      UsedInStmt(id, l[0], decl);
      UsedInList(id, l[1..], decl);
      AnotherOf(id, NamesInStmt(l[0]), NamesInList(l[1..]), decl);
    }
  }

  lemma {:induction false} UsedInClauses(id: string, cs: seq<Clause>, decl: nat)
    ensures UsedClauses(id, cs, decl) <==> Another(id, NamesInClauses(cs), decl)
    decreases cs
  {
    hide Another;
    if cs == [] {
      AnotherAlone(id, Name(0, id), decl);
    } else {
      UsedInExprs(id, cs[0].list, decl);
      UsedInList(id, cs[0].body, decl);
      UsedInClauses(id, cs[1..], decl);
      AnotherOf(id, NamesInExprs(cs[0].list), NamesInList(cs[0].body), decl);
      AnotherOf(id, NamesInExprs(cs[0].list) + NamesInList(cs[0].body), NamesInClauses(cs[1..]), decl);
    }
  }
}
