/**
 What a run knows of the body of one clause: nothing, as long as control does not get there.
 Putting a trap before the body shows whether it does.
 */
module ClauseRuns {
  import opened Wrappers
  import opened GoAst
  import opened Semantics
  import opened Operators
  import opened Schemata
  import opened Visitor
  import opened Mutation
  import opened Placement

  /** A trap before the body of the clause. */
  function Trap(): Change { BeforeClause(ExprStmt(CallExpr(0, TRAP, []))) }

  type External = (string, seq<Value>, seq<Event>) -> Value

  /** The world of a file with a change at the site `key`. */
  function With(w: World, key: Key, ch: Change): World { w.(funcs := ApplyFile(w.funcs, key, ch)) }

  predicate EvalTrapped(r: EvalResult) { r.Halt? && r.cause == Trapped }

  predicate ExecTrapped(r: ExecResult) { r.Stop? && r.cause == Trapped }

  // ---- Changes at a clause keep the shape of everything else ----

  lemma {:induction false} ChangedFunc(fs: seq<FuncDecl>, key: Key, ch: Change, name: string)
    requires key.kind == NTCaseClause
    ensures FindFunc(fs, name).None? ==> FindFunc(ApplyFile(fs, key, ch), name).None?
    ensures FindFunc(fs, name).Some? ==>
              var f := FindFunc(fs, name).value;
              FindFunc(ApplyFile(fs, key, ch), name) == Some(f.(body := ApplyList(f.body, key, ch, false)))
  {
    hide ApplyList;
    if fs != [] { ChangedFunc(fs[1..], key, ch, name); }
  }

  lemma {:induction false} ChangedDefault(cs: seq<Clause>, key: Key, ch: Change)
    requires key.kind == NTCaseClause
    ensures |ApplyClauses(cs, key, ch)| == |cs|
    ensures DefaultIndex(ApplyClauses(cs, key, ch)) == DefaultIndex(cs)
  {
    hide ApplyExprs, ApplyList;
    if cs != [] {
      ChangedDefault(cs[1..], key, ch);
      assert ApplyClauses(cs, key, ch)[1..] == ApplyClauses(cs[1..], key, ch);
    }
  }

  lemma {:induction false} ChangedClause(cs: seq<Clause>, key: Key, ch: Change, i: nat)
    requires i < |cs|
    ensures |ApplyClauses(cs, key, ch)| == |cs| && ApplyClauses(cs, key, ch)[i] == ApplyClause(cs[i], key, ch)
    decreases |cs|
  {
    hide ApplyClause;
    if i > 0 {
      ChangedClause(cs[1..], key, ch, i - 1);
    } else if |cs| > 1 {
      ChangedClause(cs[1..], key, ch, 0);
    }
  }

  lemma TrapCatches(w: World, fuel: nat, rest: seq<Stmt>, st: State)
    ensures ExecTrapped(ExecList(w, fuel, [Trap().first] + rest, st))
  {
    var l := [Trap().first] + rest;
    assert l[0] == Trap().first;
    assert EvalArgs(w, fuel, [], st) == Vals([], st);
    assert EvalTrapped(Eval(w, fuel, Trap().first.x, st));
  }

  lemma {:induction false} FoundOk(fs: seq<FuncDecl>, m: Sites, name: string)
    requires OkFile(fs, m) && FindFunc(fs, name).Some?
    ensures OkList(FindFunc(fs, name).value.body, m)
  {
    if fs[0].name != name { FoundOk(fs[1..], m, name); }
  }

  /** Without function literals there is no clause in an expression. */
  lemma {:induction false} NoClauseInExpr(e: Expr, m: Sites, key: Key, ch: Change)
    requires OkExpr(e, m) && key.kind == NTCaseClause
    ensures ApplyExpr(e, key, ch) == e
    decreases e
  {
    match e
    case UnaryExpr(_, _, x) => NoClauseInExpr(x, m, key, ch);
    case BinaryExpr(_, x, _, y) =>
      NoClauseInExpr(x, m, key, ch);
      NoClauseInExpr(y, m, key, ch);
    case ParenExpr(_, x) => NoClauseInExpr(x, m, key, ch);
    case CallExpr(_, _, args) => NoClauseInExprs(args, m, key, ch);
    case _ =>
  }

  lemma NoClauseInOpt(e: Option<Expr>, m: Sites, key: Key, ch: Change)
    requires OkOptExpr(e, m) && key.kind == NTCaseClause
    ensures ApplyOptExpr(e, key, ch) == e
  {
    if e.Some? { NoClauseInExpr(e.value, m, key, ch); }
  }

  lemma {:induction false} NoClauseInExprs(es: seq<Expr>, m: Sites, key: Key, ch: Change)
    requires OkExprs(es, m) && key.kind == NTCaseClause
    ensures ApplyExprs(es, key, ch) == es
    decreases es
  {
    if es != [] {
      NoClauseInExpr(es[0], m, key, ch);
      NoClauseInExprs(es[1..], m, key, ch);
    }
  }

  /** A statement with a change at a clause: expressions stay as they are. */
  function Changed(s: Stmt, key: Key, ch: Change, inCase: bool): Stmt {
    match s
    case IfStmt(p, init, cond, body, els) =>
      IfStmt(p, ApplyOpt(init, key, ch, inCase), cond, ApplyList(body, key, ch, inCase), ApplyOpt(els, key, ch, inCase))
    case ForStmt(p, init, cond, post, body) =>
      ForStmt(p, ApplyOpt(init, key, ch, inCase), cond, ApplyOpt(post, key, ch, inCase),
          ApplyList(body, key, ch, inCase))
    case RangeStmt(p, k, v, x, body) => RangeStmt(p, k, v, x, ApplyList(body, key, ch, inCase))
    case SwitchStmt(p, tag, clauses) => SwitchStmt(p, tag, ApplyClauses(clauses, key, ch))
    case BlockStmt(p, list) => BlockStmt(p, ApplyList(list, key, ch, inCase))
    case _ => s
  }

  lemma ChangedStmt(s: Stmt, m: Sites, inCase: bool, key: Key, ch: Change)
    requires OkStmt(s, m) && key.kind == NTCaseClause
    ensures ApplyStmt(s, key, ch, inCase) == Changed(s, key, ch, inCase)
  {
    hide ApplyExpr, ApplyOptExpr, ApplyList, ApplyOpt, ApplyClauses, OkExpr, OkOptExpr, OkList, OkOpt, OkClauses;
    match s
    case ExprStmt(x) => NoClauseInExpr(x, m, key, ch);
    case AssignStmt(_, _, _, rhs) => NoClauseInExpr(rhs, m, key, ch);
    case IfStmt(_, _, cond, _, _) => NoClauseInExpr(cond, m, key, ch);
    case ForStmt(_, _, cond, _, _) => NoClauseInOpt(cond, m, key, ch);
    case RangeStmt(_, _, _, x, _) => NoClauseInExpr(x, m, key, ch);
    case SwitchStmt(_, tag, _) => NoClauseInExpr(tag, m, key, ch);
    case ReturnStmt(_, result) => NoClauseInOpt(result, m, key, ch);
    case _ =>
  }

  // ---- A run that is not trapped is the same under every change ----

  lemma {:induction false} EvalAgrees(w: World, m: Sites, key: Key, ch: Change, fuel: nat, e: Expr, st: State)
    requires OkFile(w.funcs, m) && key.kind == NTCaseClause && OkExpr(e, m)
    ensures var r := Eval(With(w, key, Trap()), fuel, e, st);
            EvalTrapped(r) || Eval(With(w, key, ch), fuel, e, st) == r
    decreases fuel, e, 1, 0
  {
    var t := Trap();
    match e
    case Ident(_, _) =>
    case BasicLit(_, _) =>
    case ParenExpr(_, x) => EvalAgrees(w, m, key, ch, fuel, x, st);
    case UnaryExpr(_, _, x) => EvalAgrees(w, m, key, ch, fuel, x, st);
    case BinaryExpr(_, x, op, y) =>
      EvalAgrees(w, m, key, ch, fuel, x, st);
      var r := Eval(With(w, key, t), fuel, x, st);
      if r.Val? { EvalAgrees(w, m, key, ch, fuel, y, r.st); }
    case CallExpr(_, fun, args) =>
      ArgsAgree(w, m, key, ch, fuel, args, st);
      var r := EvalArgs(With(w, key, t), fuel, args, st);
      if r.Vals? { InvokeAgrees(w, m, key, ch, fuel, fun, r.vs, r.st, e); }
  }

  lemma {:induction false} InvokeAgrees(w: World, m: Sites, key: Key, ch: Change, fuel: nat, fun: string,
                                        vs: seq<Value>, st: State, at: Expr)
    requires OkFile(w.funcs, m) && key.kind == NTCaseClause
    ensures var r := Invoke(With(w, key, Trap()), fuel, fun, vs, st, at);
            EvalTrapped(r) || Invoke(With(w, key, ch), fuel, fun, vs, st, at) == r
    decreases fuel, at, 0, 0
  {
    hide OkFile, OkList, ApplyFile, ApplyList, Trap, FindFunc, Bind;
    ChangedFunc(w.funcs, key, Trap(), fun);
    ChangedFunc(w.funcs, key, ch, fun);
    var f := FindFunc(w.funcs, fun);
    if f.Some? && fuel > 0 {
      FoundOk(w.funcs, m, fun);
      ListAgrees(w, m, key, ch, fuel - 1, f.value.body, false, st.(vars := Bind(f.value.params, vs)));
    }
  }

  lemma {:induction false} ArgsAgree(w: World, m: Sites, key: Key, ch: Change, fuel: nat, args: seq<Expr>, st: State)
    requires OkFile(w.funcs, m) && key.kind == NTCaseClause && OkExprs(args, m)
    ensures var r := EvalArgs(With(w, key, Trap()), fuel, args, st);
            (r.ArgsHalt? && r.cause == Trapped) || EvalArgs(With(w, key, ch), fuel, args, st) == r
    decreases fuel, args, 1, 0
  {
    var t := Trap();
    if args != [] {
      EvalAgrees(w, m, key, ch, fuel, args[0], st);
      var r := Eval(With(w, key, t), fuel, args[0], st);
      if r.Val? { ArgsAgree(w, m, key, ch, fuel, args[1..], r.st); }
    }
  }

  lemma {:induction false} ListAgrees(w: World, m: Sites, key: Key, ch: Change, fuel: nat, l: seq<Stmt>, inCase: bool,
                                      st: State)
    requires OkFile(w.funcs, m) && key.kind == NTCaseClause && OkList(l, m)
    ensures var r := ExecList(With(w, key, Trap()), fuel, ApplyList(l, key, Trap(), inCase), st);
            ExecTrapped(r) || ExecList(With(w, key, ch), fuel, ApplyList(l, key, ch, inCase), st) == r
    decreases fuel, l, 1, 0
  {
    var t := Trap();
    if l != [] {
      ExecAgrees(w, m, key, ch, fuel, l[0], inCase, st);
      var r := Exec(With(w, key, t), fuel, ApplyStmt(l[0], key, t, inCase), st);
      if r.Fin? && r.ctl == Next { ListAgrees(w, m, key, ch, fuel, l[1..], inCase, r.st); }
      assert ApplyList(l, key, t, inCase)[1..] == ApplyList(l[1..], key, t, inCase);
      assert ApplyList(l, key, ch, inCase)[1..] == ApplyList(l[1..], key, ch, inCase);
    }
  }

  lemma {:induction false} OptAgrees(w: World, m: Sites, key: Key, ch: Change, fuel: nat, s: Option<Stmt>, inCase: bool,
                                     st: State)
    requires OkFile(w.funcs, m) && key.kind == NTCaseClause && OkOpt(s, m)
    ensures var r := ExecOpt(With(w, key, Trap()), fuel, ApplyOpt(s, key, Trap(), inCase), st);
            ExecTrapped(r) || ExecOpt(With(w, key, ch), fuel, ApplyOpt(s, key, ch, inCase), st) == r
    decreases fuel, s, 3, 0
  {
    if s.Some? { ExecAgrees(w, m, key, ch, fuel, s.value, inCase, st); }
  }

  lemma {:induction false} ExecAgrees(w: World, m: Sites, key: Key, ch: Change, fuel: nat, s: Stmt, inCase: bool,
                                      st: State)
    requires OkFile(w.funcs, m) && key.kind == NTCaseClause && OkStmt(s, m)
    ensures var r := Exec(With(w, key, Trap()), fuel, ApplyStmt(s, key, Trap(), inCase), st);
            ExecTrapped(r) || Exec(With(w, key, ch), fuel, ApplyStmt(s, key, ch, inCase), st) == r
    decreases fuel, s, 2, 0
  {
    var t := Trap();
    ChangedStmt(s, m, inCase, key, t);
    ChangedStmt(s, m, inCase, key, ch);
    hide Exec, ApplyStmt, OkFile, Trap;
    match s
    case IfStmt(_, _, _, _, _) => IfAgrees(w, m, key, ch, fuel, s, inCase, st);
    case ForStmt(_, _, _, _, _) => ForStmtAgrees(w, m, key, ch, fuel, s, inCase, st);
    case RangeStmt(_, _, _, _, _) => RangeStmtAgrees(w, m, key, ch, fuel, s, inCase, st);
    case SwitchStmt(_, _, _) => SwitchAgrees(w, m, key, ch, fuel, s, inCase, st);
    case _ => PlainAgrees(w, m, key, ch, fuel, s, inCase, st);
  }

  lemma {:induction false} PlainAgrees(w: World, m: Sites, key: Key, ch: Change, fuel: nat, s: Stmt, inCase: bool,
                                       st: State)
    requires OkFile(w.funcs, m) && key.kind == NTCaseClause && OkStmt(s, m)
    requires !s.IfStmt? && !s.ForStmt? && !s.RangeStmt? && !s.SwitchStmt?
    ensures var r := Exec(With(w, key, Trap()), fuel, Changed(s, key, Trap(), inCase), st);
            ExecTrapped(r) || Exec(With(w, key, ch), fuel, Changed(s, key, ch, inCase), st) == r
    decreases fuel, s, 0, 0
  {
    hide With, Eval, ExecList, StoreCombined, ApplyList, OkExpr, OkList, OkFile, Trap;
    match s
    case ExprStmt(x) => EvalAgrees(w, m, key, ch, fuel, x, st);
    case AssignStmt(_, _, _, rhs) => EvalAgrees(w, m, key, ch, fuel, rhs, st);
    case ReturnStmt(_, result) =>
      if result.Some? { EvalAgrees(w, m, key, ch, fuel, result.value, st); }
    case BlockStmt(_, list) => ListAgrees(w, m, key, ch, fuel, list, inCase, st);
    case ConstDecl(_, _, x) => EvalAgrees(w, m, key, ch, fuel, x, st);
    case _ =>
  }

  lemma {:induction false} ForStmtAgrees(w: World, m: Sites, key: Key, ch: Change, fuel: nat, s: Stmt, inCase: bool,
                                         st: State)
    requires OkFile(w.funcs, m) && key.kind == NTCaseClause && OkStmt(s, m) && s.ForStmt?
    ensures var r := Exec(With(w, key, Trap()), fuel, Changed(s, key, Trap(), inCase), st);
            ExecTrapped(r) || Exec(With(w, key, ch), fuel, Changed(s, key, ch, inCase), st) == r
    decreases fuel, s, 0, 1
  {
    hide With, Eval, ExecOpt, ForLoop, ApplyList, ApplyOpt, OkOptExpr, OkList, OkFile, Trap;
    OptAgrees(w, m, key, ch, fuel, s.init, inCase, st);
    var r := ExecOpt(With(w, key, Trap()), fuel, ApplyOpt(s.init, key, Trap(), inCase), st);
    if r.Fin? && r.ctl == Next { ForAgrees(w, m, key, ch, fuel, s, inCase, r.st); }
  }

  lemma {:induction false} RangeStmtAgrees(w: World, m: Sites, key: Key, ch: Change, fuel: nat, s: Stmt, inCase: bool,
                                           st: State)
    requires OkFile(w.funcs, m) && key.kind == NTCaseClause && OkStmt(s, m) && s.RangeStmt?
    ensures var r := Exec(With(w, key, Trap()), fuel, Changed(s, key, Trap(), inCase), st);
            ExecTrapped(r) || Exec(With(w, key, ch), fuel, Changed(s, key, ch, inCase), st) == r
    decreases fuel, s, 1, 0
  {
    hide With, Eval, RangeLoop, Elements, ApplyList, OkExpr, OkList, OkFile, Trap;
    EvalAgrees(w, m, key, ch, fuel, s.x, st);
    var r := Eval(With(w, key, Trap()), fuel, s.x, st);
    if r.Val? && Elements(r.v).Some? { RangeAgrees(w, m, key, ch, fuel, s, inCase, Elements(r.v).value, 0, r.st); }
  }

  lemma {:induction false} IfAgrees(w: World, m: Sites, key: Key, ch: Change, fuel: nat, s: Stmt, inCase: bool,
                                    st: State)
    requires OkFile(w.funcs, m) && key.kind == NTCaseClause && OkStmt(s, m) && s.IfStmt?
    ensures var r := Exec(With(w, key, Trap()), fuel, Changed(s, key, Trap(), inCase), st);
            ExecTrapped(r) || Exec(With(w, key, ch), fuel, Changed(s, key, ch, inCase), st) == r
    decreases fuel, s, 0, 0
  {
    var t := Trap();
    hide With, Eval, ExecList, ExecOpt, ApplyStmt, ApplyList, ApplyOpt, OkExpr, OkList, OkOpt, OkFile, Trap;
    OptAgrees(w, m, key, ch, fuel, s.init, inCase, st);
    var r0 := ExecOpt(With(w, key, t), fuel, ApplyOpt(s.init, key, t, inCase), st);
    if r0.Fin? && r0.ctl == Next {
      EvalAgrees(w, m, key, ch, fuel, s.cond, r0.st);
      var r := Eval(With(w, key, t), fuel, s.cond, r0.st);
      if r.Val? {
        ListAgrees(w, m, key, ch, fuel, s.body, inCase, r.st);
        OptAgrees(w, m, key, ch, fuel, s.els, inCase, r.st);
      }
    }
  }

  lemma {:induction false} ForAgrees(w: World, m: Sites, key: Key, ch: Change, fuel: nat, s: Stmt, inCase: bool,
                                     st: State)
    requires OkFile(w.funcs, m) && key.kind == NTCaseClause && OkStmt(s, m) && s.ForStmt?
    ensures var r := ForLoop(With(w, key, Trap()), fuel, Changed(s, key, Trap(), inCase), st);
            ExecTrapped(r) || ForLoop(With(w, key, ch), fuel, Changed(s, key, ch, inCase), st) == r
    decreases fuel, s, 0, 0
  {
    var t := Trap();
    hide With, Eval, ExecList, ExecOpt, Exec, ApplyStmt, ApplyList, ApplyOpt, OkExpr, OkList, OkOpt, OkFile, Trap;
    if s.forCond.Some? { EvalAgrees(w, m, key, ch, fuel, s.forCond.value, st); }
    var r := EvalForCond(With(w, key, t), fuel, Changed(s, key, t, inCase), st);
    if r.Val? && r.v == BoolV(true) && fuel > 0 {
      ListAgrees(w, m, key, ch, fuel - 1, s.body, inCase, r.st);
      var rb := ExecList(With(w, key, t), fuel - 1, ApplyList(s.body, key, t, inCase), r.st);
      if rb.Fin? && !rb.ctl.Return? && rb.ctl != Break {
        OptAgrees(w, m, key, ch, fuel - 1, s.post, inCase, rb.st);
        var rp := ExecOpt(With(w, key, t), fuel - 1, ApplyOpt(s.post, key, t, inCase), rb.st);
        if rp.Fin? && rp.ctl == Next { ForAgrees(w, m, key, ch, fuel - 1, s, inCase, rp.st); }
      }
    }
  }

  lemma {:induction false} RangeAgrees(w: World, m: Sites, key: Key, ch: Change, fuel: nat, s: Stmt, inCase: bool,
                                       items: seq<Value>, i: nat, st: State)
    requires OkFile(w.funcs, m) && key.kind == NTCaseClause && OkStmt(s, m) && s.RangeStmt? && i <= |items|
    ensures var r := RangeLoop(With(w, key, Trap()), fuel, Changed(s, key, Trap(), inCase), items, i, st);
            ExecTrapped(r) || RangeLoop(With(w, key, ch), fuel, Changed(s, key, ch, inCase), items, i, st) == r
    decreases fuel, s, 0, |items| - i
  {
    var t := Trap();
    hide With, Eval, ExecList, Exec, StoreName, ApplyStmt, ApplyList, OkExpr, OkList, OkFile, Trap;
    if i < |items| {
      var st1 := StoreName(StoreName(st, s.key, IntV(i)), s.value, items[i]);
      ListAgrees(w, m, key, ch, fuel, s.body, inCase, st1);
      var r := ExecList(With(w, key, t), fuel, ApplyList(s.body, key, t, inCase), st1);
      if r.Fin? && !r.ctl.Return? && r.ctl != Break { RangeAgrees(w, m, key, ch, fuel, s, inCase, items, i + 1, r.st); }
    }
  }

  lemma {:induction false} SwitchAgrees(w: World, m: Sites, key: Key, ch: Change, fuel: nat, s: Stmt, inCase: bool,
                                        st: State)
    requires OkFile(w.funcs, m) && key.kind == NTCaseClause && OkStmt(s, m) && s.SwitchStmt?
    ensures var r := Exec(With(w, key, Trap()), fuel, Changed(s, key, Trap(), inCase), st);
            ExecTrapped(r) || Exec(With(w, key, ch), fuel, Changed(s, key, ch, inCase), st) == r
    decreases fuel, s, 0, 0
  {
    var t := Trap();
    hide With, Eval, ExecList, SelectClause, DefaultIndex, ApplyClauses, ApplyClause, ApplyList,
         OkExpr, OkClauses, OkFile, Trap;
    EvalAgrees(w, m, key, ch, fuel, s.tag, st);
    var r := Eval(With(w, key, t), fuel, s.tag, st);
    if r.Val? {
      SelectAgrees(w, m, key, ch, fuel, r.v, s.clauses, r.st);
      ChangedDefault(s.clauses, key, t);
      ChangedDefault(s.clauses, key, ch);
      var sel := SelectClause(With(w, key, t), fuel, r.v, ApplyClauses(s.clauses, key, t), r.st);
      if sel.Selected? {
        var i := if sel.index.Some? then sel.index else DefaultIndex(s.clauses);
        if i.Some? {
          BodyAgrees(w, m, key, ch, fuel, s.clauses, i.value, sel.st);
        }
      }
    }
  }

  /** The body of a clause: trapped if it is the one with the change, and alike if it is another. */
  lemma {:induction false} BodyAgrees(w: World, m: Sites, key: Key, ch: Change, fuel: nat, cs: seq<Clause>, i: nat,
                                      st: State)
    requires OkFile(w.funcs, m) && key.kind == NTCaseClause && OkClauses(cs, m) && i < |cs|
    ensures |ApplyClauses(cs, key, Trap())| == |ApplyClauses(cs, key, ch)| == |cs|
    ensures var r := ExecList(With(w, key, Trap()), fuel, ApplyClauses(cs, key, Trap())[i].body, st);
            ExecTrapped(r) || ExecList(With(w, key, ch), fuel, ApplyClauses(cs, key, ch)[i].body, st) == r
    decreases fuel, cs, 0, 0
  {
    var t, c := Trap(), cs[i];
    ChangedClause(cs, key, t, i);
    ChangedClause(cs, key, ch, i);
    ClauseOk(cs, m, i);
    hide ApplyClauses, ApplyExprs, ApplyList, OkList, OkClauses, OkFile;
    if KeyOfClause(c) == key {
      TrapCatches(With(w, key, t), fuel, c.body, st);
    } else {
      ListAgrees(w, m, key, ch, fuel, c.body, true, st);
    }
  }

  lemma {:induction false} ClauseOk(cs: seq<Clause>, m: Sites, i: nat)
    requires OkClauses(cs, m) && i < |cs|
    ensures OkExprs(cs[i].list, m) && OkList(cs[i].body, m)
    decreases |cs|
  {
    if i > 0 { ClauseOk(cs[1..], m, i - 1); }
  }

  lemma {:induction false} SelectAgrees(w: World, m: Sites, key: Key, ch: Change, fuel: nat, v: Value, cs: seq<Clause>,
                                        st: State)
    requires OkFile(w.funcs, m) && key.kind == NTCaseClause && OkClauses(cs, m)
    ensures var r := SelectClause(With(w, key, Trap()), fuel, v, ApplyClauses(cs, key, Trap()), st);
            (r.SelectHalt? && r.cause == Trapped)
                || SelectClause(With(w, key, ch), fuel, v, ApplyClauses(cs, key, ch), st) == r
    decreases fuel, cs, 1, 0
  {
    var t := Trap();
    hide With, Eval, ApplyClause, OkExprs, OkList, OkFile, Trap, MatchClause, EvalTrapped;
    if cs != [] {
      HeadAgrees(w, m, key, ch, fuel, v, cs[0], st);
      var r := MatchClause(With(w, key, t), fuel, v, ApplyClause(cs[0], key, t), st);
      if r.Matched? && !r.yes { SelectAgrees(w, m, key, ch, fuel, v, cs[1..], r.st); }
      assert ApplyClauses(cs, key, t)[1..] == ApplyClauses(cs[1..], key, t);
      assert ApplyClauses(cs, key, ch)[1..] == ApplyClauses(cs[1..], key, ch);
    }
  }

  lemma {:induction false} HeadAgrees(w: World, m: Sites, key: Key, ch: Change, fuel: nat, v: Value, c: Clause,
                                      st: State)
    requires OkFile(w.funcs, m) && key.kind == NTCaseClause && OkExprs(c.list, m)
    ensures var r := MatchClause(With(w, key, Trap()), fuel, v, ApplyClause(c, key, Trap()), st);
            (r.MatchHalt? && r.cause == Trapped)
                || MatchClause(With(w, key, ch), fuel, v, ApplyClause(c, key, ch), st) == r
    decreases fuel, c, 1, 0
  {
    ChangedHead(c, m, key, Trap());
    ChangedHead(c, m, key, ch);
    hide ApplyClause, OkExprs, OkFile, Trap;
    if !c.isDefault { MatchAgrees(w, m, key, ch, fuel, v, c.list, st); }
  }

  lemma ChangedHead(c: Clause, m: Sites, key: Key, ch: Change)
    requires OkExprs(c.list, m) && key.kind == NTCaseClause
    ensures var c' := ApplyClause(c, key, ch); c'.isDefault == c.isDefault && c'.list == c.list
  {
    NoClauseInExprs(c.list, m, key, ch);
    hide ApplyList, ApplyExprs;
  }

  lemma {:induction false} MatchAgrees(w: World, m: Sites, key: Key, ch: Change, fuel: nat, v: Value, es: seq<Expr>,
                                       st: State)
    requires OkFile(w.funcs, m) && key.kind == NTCaseClause && OkExprs(es, m)
    ensures var r := MatchAny(With(w, key, Trap()), fuel, v, es, st);
            (r.MatchHalt? && r.cause == Trapped) || MatchAny(With(w, key, ch), fuel, v, es, st) == r
    decreases fuel, es, 1, 0
  {
    hide With, Eval, OkExpr, OkFile, Trap;
    if es != [] {
      EvalAgrees(w, m, key, ch, fuel, es[0], st);
      var r := Eval(With(w, key, Trap()), fuel, es[0], st);
      if r.Val? && r.v != v { MatchAgrees(w, m, key, ch, fuel, v, es[1..], r.st); }
    }
  }

  /**
   A run that is not trapped never gets to the clause, and then nothing that is done to the clause makes a difference.
   */
  lemma NeverEntered(fs: seq<FuncDecl>, m: Sites, key: Key, ch: Change, k: int, ext: External,
                     entry: string, args: seq<Value>, st: State, fuel: nat)
    requires OkFile(fs, m) && key.kind == NTCaseClause
    requires !EvalTrapped(Run(ApplyFile(fs, key, Trap()), k, ext, entry, args, st, fuel))
    ensures Run(ApplyFile(fs, key, ch), k, ext, entry, args, st, fuel)
         == Run(ApplyFile(fs, key, Trap()), k, ext, entry, args, st, fuel)
  {
    InvokeAgrees(World(fs, k, ext), m, key, ch, fuel, entry, args, st, Ident(0, entry));
  }
}
