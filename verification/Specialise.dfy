/**
 What is left of a program once the value of `activeMutantID` is known.

 `Spec*` resolves every guard for one value, unwraps the function literals and
 conditionals that only held guards, forgets positions and drops statements without
 effect.  The lemmas below prove that the residual program runs exactly like the
 original at every amount of fuel, for arbitrary programs: this is the one place
 where the semantics is unfolded.
 */
module Specialise {
  import opened Wrappers
  import opened GoAst
  import opened Semantics

  /** `if activeMutantID == N { return e }` */
  predicate IsGuardStep(s: Stmt) {
    && s.IfStmt? && s.init.None? && IsGuard(s.cond) && s.els.None?
    && |s.body| == 1 && s.body[0].ReturnStmt? && s.body[0].result.Some?
  }

  /** A list of guard steps closed by one plain `return e`. */
  predicate IsGuardList(l: seq<Stmt>) {
    && l != []
    && if |l| == 1 then l[0].ReturnStmt? && l[0].result.Some? else IsGuardStep(l[0]) && IsGuardList(l[1..])
  }

  /** An assignment, unless it is `_ = v`, which reads a variable and changes nothing. */
  function SpecAssign(lhs: Name, tok: AssignTok, rhs: Expr): Stmt {
    if lhs.id == "_" && tok == SetTok && rhs.Ident? then EmptyStmt(0) else AssignStmt(0, Unplace(lhs), tok, rhs)
  }

  function Keep(s: Stmt): seq<Stmt> { if s.EmptyStmt? then [] else [s] }

  /** A statement list in a place where one statement is expected. */
  function AsStmt(l: seq<Stmt>): Stmt {
    if |l| == 0 then EmptyStmt(0) else if |l| == 1 then l[0] else BlockStmt(0, l)
  }

  function Unplace(n: Name): Name { Name(0, n.id) }

  function UnplaceOpt(n: Option<Name>): Option<Name> {
    match n
    case None => None
    case Some(m) => Some(Unplace(m))
  }

  function SpecExpr(e: Expr, k: int): Expr
    decreases e, 1
  {
    match e
    case Ident(_, name) => Ident(0, name)
    case BasicLit(_, l) => BasicLit(0, l)
    case UnaryExpr(_, op, x) => UnaryExpr(0, op, SpecExpr(x, k))
    case BinaryExpr(_, x, op, y) => BinaryExpr(0, SpecExpr(x, k), op, SpecExpr(y, k))
    case ParenExpr(_, x) => ParenExpr(0, SpecExpr(x, k))
    case CallExpr(_, fun, args) => CallExpr(0, fun, SpecExprs(args, k))
    case FuncLitCall(body) => if IsGuardList(body) then SpecGuards(body, k) else FuncLitCall(SpecList(body, k))
  }

  function SpecGuards(l: seq<Stmt>, k: int): Expr
    requires IsGuardList(l)
    decreases l, 1
  {
    if |l| == 1 then var last := l[0]; assert last.result < last; SpecExpr(last.result.value, k)
    else if GuardId(l[0].cond) == k then SpecExpr(l[0].body[0].result.value, k)
    else SpecGuards(l[1..], k)
  }

  function SpecExprs(es: seq<Expr>, k: int): (r: seq<Expr>)
    ensures |r| == |es|
    decreases es, 1
  {
    if es == [] then [] else [SpecExpr(es[0], k)] + SpecExprs(es[1..], k)
  }

  function SpecOptExpr(e: Option<Expr>, k: int): Option<Expr>
    decreases e, 1
  {
    match e
    case None => None
    case Some(x) => Some(SpecExpr(x, k))
  }

  function SpecStmt(s: Stmt, k: int): Stmt
    decreases s, 1
  {
    match s
    case ExprStmt(x) => ExprStmt(SpecExpr(x, k))
    case AssignStmt(_, lhs, tok, rhs) => SpecAssign(lhs, tok, SpecExpr(rhs, k))
    case IncDecStmt(_, target, inc) => IncDecStmt(0, Unplace(target), inc)
    case IfStmt(_, init, cond, body, els) =>
      if init.None? && IsGuard(cond) then
        if GuardId(cond) == k then AsStmt(SpecList(body, k))
        else if els.None? then EmptyStmt(0)
        else SpecStmt(els.value, k)
      else IfStmt(0, SpecOpt(init, k), SpecExpr(cond, k), SpecList(body, k), SpecOpt(els, k))
    case ForStmt(_, init, cond, post, body) =>
      ForStmt(0, SpecOpt(init, k), SpecOptExpr(cond, k), SpecOpt(post, k), SpecList(body, k))
    case RangeStmt(_, key, value, x, body) =>
      RangeStmt(0, UnplaceOpt(key), UnplaceOpt(value), SpecExpr(x, k), SpecList(body, k))
    case SwitchStmt(_, tag, clauses) => SwitchStmt(0, SpecExpr(tag, k), SpecClauses(clauses, k))
    case ReturnStmt(_, result) => ReturnStmt(0, SpecOptExpr(result, k))
    case BranchStmt(_, isBreak) => BranchStmt(0, isBreak)
    case BlockStmt(_, list) => AsStmt(SpecList(list, k))
    case ConstDecl(_, target, x) => ConstDecl(0, Unplace(target), SpecExpr(x, k))
    case EmptyStmt(_) => EmptyStmt(0)
  }

  function SpecOpt(s: Option<Stmt>, k: int): Option<Stmt>
    decreases s, 1
  {
    match s
    case None => None
    case Some(t) => Some(SpecStmt(t, k))
  }

  function SpecList(l: seq<Stmt>, k: int): seq<Stmt>
    decreases l, 1
  {
    if l == [] then [] else Keep(SpecStmt(l[0], k)) + SpecList(l[1..], k)
  }

  function SpecClause(c: Clause, k: int): Clause
    decreases c, 1
  {
    CaseClause(0, c.isDefault, SpecExprs(c.list, k), SpecList(c.body, k))
  }

  function SpecClauses(cs: seq<Clause>, k: int): (r: seq<Clause>)
    ensures |r| == |cs|
    decreases cs, 1
  {
    if cs == [] then [] else [SpecClause(cs[0], k)] + SpecClauses(cs[1..], k)
  }

  function SpecFunc(f: FuncDecl, k: int): FuncDecl {
    f.(pos := 0, body := SpecList(f.body, k))
  }

  function SpecFile(fs: seq<FuncDecl>, k: int): seq<FuncDecl> {
    if fs == [] then [] else [SpecFunc(fs[0], k)] + SpecFile(fs[1..], k)
  }

  function SpecWorld(w: World): World { w.(funcs := SpecFile(w.funcs, w.active)) }

  // ---- The residual program runs like the original ----

  lemma SpecFindFunc(fs: seq<FuncDecl>, k: int, name: string)
    ensures FindFunc(fs, name).None? ==> FindFunc(SpecFile(fs, k), name).None?
    ensures FindFunc(fs, name).Some? ==> FindFunc(SpecFile(fs, k), name) == Some(SpecFunc(FindFunc(fs, name).value, k))
  {
  }

  lemma AsStmtExec(w: World, fuel: nat, l: seq<Stmt>, st: State)
    ensures Exec(w, fuel, AsStmt(l), st) == ExecList(w, fuel, l, st)
  {
    if |l| == 1 {
      assert l[1..] == [];
    }
  }

  /** Runs `rest` after a statement that ended with `r`. */
  function AndThen(w: World, fuel: nat, r: ExecResult, rest: seq<Stmt>): ExecResult {
    if r.Fin? && r.ctl == Next then ExecList(w, fuel, rest, r.st) else r
  }

  lemma KeepExec(w: World, fuel: nat, s: Stmt, rest: seq<Stmt>, st: State)
    ensures ExecList(w, fuel, Keep(s) + rest, st) == AndThen(w, fuel, Exec(w, fuel, s, st), rest)
  {
    if s.EmptyStmt? {
      assert Keep(s) + rest == rest;
    } else {
      assert (Keep(s) + rest)[0] == s && (Keep(s) + rest)[1..] == rest;
    }
  }

  lemma GuardEval(w: World, fuel: nat, e: Expr, st: State)
    requires IsGuard(e)
    ensures Eval(w, fuel, e, st) == Val(BoolV(w.active == GuardId(e)), st)
  {
    assert Eval(w, fuel, e.x, st) == Val(IntV(w.active), st);
    assert Eval(w, fuel, e.y, st) == Val(IntV(GuardId(e)), st);
  }

  lemma ReturnExec(w: World, fuel: nat, s: Stmt, st: State)
    requires s.ReturnStmt? && s.result.Some?
    ensures LeaveFunc(ExecList(w, fuel, [s], st)) == Eval(w, fuel, s.result.value, st)
    ensures var r := ExecList(w, fuel, [s], st); r.Stop? || (r.Fin? && r.ctl.Return?)
  {
    assert [s][0] == s;
  }

  lemma {:induction false} SpecEvalSound(w: World, fuel: nat, e: Expr, st: State)
    ensures Eval(SpecWorld(w), fuel, SpecExpr(e, w.active), st) == Eval(w, fuel, e, st)
    decreases fuel, e, 1, 0
  {
    match e
    case Ident(_, _) =>
    case BasicLit(_, _) =>
    case ParenExpr(_, x) => SpecEvalSound(w, fuel, x, st);
    case UnaryExpr(_, _, x) => SpecEvalSound(w, fuel, x, st);
    case BinaryExpr(_, x, op, y) =>
      SpecEvalSound(w, fuel, x, st);
      var r := Eval(w, fuel, x, st);
      if r.Val? { SpecEvalSound(w, fuel, y, r.st); }
    case CallExpr(_, fun, args) =>
      SpecArgsSound(w, fuel, args, st);
      var r := EvalArgs(w, fuel, args, st);
      if r.Vals? { SpecInvokeSound(w, fuel, fun, r.vs, r.st, e, SpecExpr(e, w.active)); }
    case FuncLitCall(body) =>
      if IsGuardList(body) {
        SpecGuardsSound(w, fuel, body, st);
      } else {
        SpecListSound(w, fuel, body, st);
      }
  }

  lemma {:induction false} SpecGuardsSound(w: World, fuel: nat, l: seq<Stmt>, st: State)
    requires IsGuardList(l)
    ensures Eval(SpecWorld(w), fuel, SpecGuards(l, w.active), st) == LeaveFunc(ExecList(w, fuel, l, st))
    decreases fuel, l, 1, 0
  {
    if |l| == 1 {
      var last := l[0];
      assert last.result < last;
      SpecEvalSound(w, fuel, last.result.value, st);
      ReturnExec(w, fuel, last, st);
      assert l == [last];
    } else {
      var s := l[0];
      GuardEval(w, fuel, s.cond, st);
      var ret := s.body[0];
      assert s.body == [ret];
      if GuardId(s.cond) == w.active {
        SpecEvalSound(w, fuel, ret.result.value, st);
        ReturnExec(w, fuel, ret, st);
        assert Exec(w, fuel, s, st) == ExecList(w, fuel, s.body, st);
      } else {
        assert Exec(w, fuel, s, st) == Fin(Next, st);
        SpecGuardsSound(w, fuel, l[1..], st);
      }
    }
  }

  lemma {:induction false} SpecInvokeSound(w: World, fuel: nat, fun: string, vs: seq<Value>, st: State, at: Expr,
                                           at': Expr)
    ensures Invoke(SpecWorld(w), fuel, fun, vs, st, at') == Invoke(w, fuel, fun, vs, st, at)
    decreases fuel, at, 0, 0
  {
    SpecFindFunc(w.funcs, w.active, fun);
    var f := FindFunc(w.funcs, fun);
    if f.Some? && fuel > 0 {
      SpecListSound(w, fuel - 1, f.value.body, st.(vars := Bind(f.value.params, vs)));
    }
  }

  lemma {:induction false} SpecArgsSound(w: World, fuel: nat, args: seq<Expr>, st: State)
    ensures EvalArgs(SpecWorld(w), fuel, SpecExprs(args, w.active), st) == EvalArgs(w, fuel, args, st)
    decreases fuel, args, 1, 0
  {
    if args != [] {
      SpecEvalSound(w, fuel, args[0], st);
      var r := Eval(w, fuel, args[0], st);
      if r.Val? { SpecArgsSound(w, fuel, args[1..], r.st); }
      assert SpecExprs(args, w.active)[1..] == SpecExprs(args[1..], w.active);
    }
  }

  lemma {:induction false} SpecListSound(w: World, fuel: nat, l: seq<Stmt>, st: State)
    ensures ExecList(SpecWorld(w), fuel, SpecList(l, w.active), st) == ExecList(w, fuel, l, st)
    decreases fuel, l, 1, 0
  {
    if l != [] {
      SpecExecSound(w, fuel, l[0], st);
      KeepExec(SpecWorld(w), fuel, SpecStmt(l[0], w.active), SpecList(l[1..], w.active), st);
      var r := Exec(w, fuel, l[0], st);
      if r.Fin? && r.ctl == Next { SpecListSound(w, fuel, l[1..], r.st); }
    }
  }

  lemma {:induction false} SpecOptSound(w: World, fuel: nat, s: Option<Stmt>, st: State)
    ensures ExecOpt(SpecWorld(w), fuel, SpecOpt(s, w.active), st) == ExecOpt(w, fuel, s, st)
    decreases fuel, s, 2, 0
  {
    if s.Some? { SpecExecSound(w, fuel, s.value, st); }
  }

  lemma {:induction false} SpecExecSound(w: World, fuel: nat, s: Stmt, st: State)
    ensures Exec(SpecWorld(w), fuel, SpecStmt(s, w.active), st) == Exec(w, fuel, s, st)
    decreases fuel, s, 1, 0
  {
    match s
    case ExprStmt(x) => SpecEvalSound(w, fuel, x, st);
    case AssignStmt(_, _, _, rhs) => SpecEvalSound(w, fuel, rhs, st);
    case IncDecStmt(_, _, _) =>
    case IfStmt(_, _, _, _, _) => SpecIfSound(w, fuel, s, st);
    case ForStmt(_, init, _, _, _) =>
      SpecOptSound(w, fuel, init, st);
      var r := ExecOpt(w, fuel, init, st);
      if r.Fin? && r.ctl == Next { SpecForSound(w, fuel, s, r.st); }
    case RangeStmt(_, _, _, x, _) =>
      SpecEvalSound(w, fuel, x, st);
      var r := Eval(w, fuel, x, st);
      if r.Val? && Elements(r.v).Some? { SpecRangeSound(w, fuel, s, Elements(r.v).value, 0, r.st); }
    case SwitchStmt(_, _, _) => SpecSwitchSound(w, fuel, s, st);
    case ReturnStmt(_, result) =>
      if result.Some? { SpecEvalSound(w, fuel, result.value, st); }
    case BranchStmt(_, _) =>
    case BlockStmt(_, list) =>
      SpecListSound(w, fuel, list, st);
      AsStmtExec(SpecWorld(w), fuel, SpecList(list, w.active), st);
    case ConstDecl(_, _, x) => SpecEvalSound(w, fuel, x, st);
    case EmptyStmt(_) =>
  }

  lemma {:induction false} SpecIfSound(w: World, fuel: nat, s: Stmt, st: State)
    requires s.IfStmt?
    ensures Exec(SpecWorld(w), fuel, SpecStmt(s, w.active), st) == Exec(w, fuel, s, st)
    decreases fuel, s, 0, 0
  {
    if s.init.None? && IsGuard(s.cond) {
      GuardEval(w, fuel, s.cond, st);
      if GuardId(s.cond) == w.active {
        SpecListSound(w, fuel, s.body, st);
        AsStmtExec(SpecWorld(w), fuel, SpecList(s.body, w.active), st);
      } else if s.els.Some? {
        SpecExecSound(w, fuel, s.els.value, st);
      }
    } else {
      SpecOptSound(w, fuel, s.init, st);
      var r0 := ExecOpt(w, fuel, s.init, st);
      if r0.Fin? && r0.ctl == Next {
        SpecEvalSound(w, fuel, s.cond, r0.st);
        var r := Eval(w, fuel, s.cond, r0.st);
        if r.Val? {
          SpecListSound(w, fuel, s.body, r.st);
          SpecOptSound(w, fuel, s.els, r.st);
        }
      }
    }
  }

  lemma {:induction false} SpecForSound(w: World, fuel: nat, s: Stmt, st: State)
    requires s.ForStmt?
    ensures ForLoop(SpecWorld(w), fuel, SpecStmt(s, w.active), st) == ForLoop(w, fuel, s, st)
    decreases fuel, s, 0, 0
  {
    if s.forCond.Some? { SpecEvalSound(w, fuel, s.forCond.value, st); }
    var r := EvalForCond(w, fuel, s, st);
    if r.Val? && r.v == BoolV(true) && fuel > 0 {
      SpecListSound(w, fuel - 1, s.body, r.st);
      var rb := ExecList(w, fuel - 1, s.body, r.st);
      if rb.Fin? && !rb.ctl.Return? && rb.ctl != Break {
        SpecOptSound(w, fuel - 1, s.post, rb.st);
        var rp := ExecOpt(w, fuel - 1, s.post, rb.st);
        if rp.Fin? && rp.ctl == Next { SpecForSound(w, fuel - 1, s, rp.st); }
      }
    }
  }

  lemma {:induction false} SpecRangeSound(w: World, fuel: nat, s: Stmt, items: seq<Value>, i: nat, st: State)
    requires s.RangeStmt? && i <= |items|
    ensures RangeLoop(SpecWorld(w), fuel, SpecStmt(s, w.active), items, i, st) == RangeLoop(w, fuel, s, items, i, st)
    decreases fuel, s, 0, |items| - i
  {
    if i < |items| {
      var st1 := StoreName(StoreName(st, s.key, IntV(i)), s.value, items[i]);
      SpecListSound(w, fuel, s.body, st1);
      var r := ExecList(w, fuel, s.body, st1);
      if r.Fin? && !r.ctl.Return? && r.ctl != Break { SpecRangeSound(w, fuel, s, items, i + 1, r.st); }
    }
  }

  lemma SpecClauseAt(cs: seq<Clause>, k: int, i: nat)
    requires i < |cs|
    ensures SpecClauses(cs, k)[i] == SpecClause(cs[i], k)
  {
    if i > 0 { SpecClauseAt(cs[1..], k, i - 1); }
  }

  lemma SpecDefaultIndex(cs: seq<Clause>, k: int)
    ensures DefaultIndex(SpecClauses(cs, k)) == DefaultIndex(cs)
  {
    if cs != [] {
      assert SpecClauses(cs, k)[1..] == SpecClauses(cs[1..], k);
    }
  }

  lemma {:induction false} SpecSwitchSound(w: World, fuel: nat, s: Stmt, st: State)
    requires s.SwitchStmt?
    ensures Exec(SpecWorld(w), fuel, SpecStmt(s, w.active), st) == Exec(w, fuel, s, st)
    decreases fuel, s, 0, 0
  {
    SpecEvalSound(w, fuel, s.tag, st);
    var r := Eval(w, fuel, s.tag, st);
    if r.Val? {
      SpecSelectSound(w, fuel, r.v, s.clauses, r.st);
      SpecDefaultIndex(s.clauses, w.active);
      var sel := SelectClause(w, fuel, r.v, s.clauses, r.st);
      if sel.Selected? {
        var i := if sel.index.Some? then sel.index else DefaultIndex(s.clauses);
        if i.Some? {
          SpecClauseAt(s.clauses, w.active, i.value);
          SpecListSound(w, fuel, s.clauses[i.value].body, sel.st);
        }
      }
    }
  }

  lemma {:induction false} SpecSelectSound(w: World, fuel: nat, v: Value, cs: seq<Clause>, st: State)
    ensures SelectClause(SpecWorld(w), fuel, v, SpecClauses(cs, w.active), st) == SelectClause(w, fuel, v, cs, st)
    decreases fuel, cs, 1, 0
  {
    if cs != [] {
      if !cs[0].isDefault { SpecMatchSound(w, fuel, v, cs[0].list, st); }
      var r := MatchClause(w, fuel, v, cs[0], st);
      if r.Matched? && !r.yes { SpecSelectSound(w, fuel, v, cs[1..], r.st); }
      assert SpecClauses(cs, w.active)[1..] == SpecClauses(cs[1..], w.active);
    }
  }

  lemma {:induction false} SpecMatchSound(w: World, fuel: nat, v: Value, es: seq<Expr>, st: State)
    ensures MatchAny(SpecWorld(w), fuel, v, SpecExprs(es, w.active), st) == MatchAny(w, fuel, v, es, st)
    decreases fuel, es, 1, 0
  {
    if es != [] {
      SpecEvalSound(w, fuel, es[0], st);
      var r := Eval(w, fuel, es[0], st);
      if r.Val? && r.v != v { SpecMatchSound(w, fuel, v, es[1..], r.st); }
      assert SpecExprs(es, w.active)[1..] == SpecExprs(es[1..], w.active);
    }
  }

  /** Running a file and running what is left of it are the same. */
  lemma {:induction false} SpecRunSound(funcs: seq<FuncDecl>, k: int, ext: (string, seq<Value>, seq<Event>) -> Value,
                     entry: string, args: seq<Value>, st: State, fuel: nat)
    ensures Run(SpecFile(funcs, k), k, ext, entry, args, st, fuel) == Run(funcs, k, ext, entry, args, st, fuel)
  {
    SpecInvokeSound(World(funcs, k, ext), fuel, entry, args, st, Ident(0, entry), Ident(0, entry));
  }
}
