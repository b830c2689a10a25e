/**
 What the schemata transformation is for: one file that behaves like the original while no
 mutant is active, and like one mutant while one is.
 */
module SchemataTheorems {
  import opened Wrappers
  import opened GoAst
  import opened Semantics
  import opened Operators
  import opened Schemata
  import opened Visitor
  import opened Mutation
  import opened Placement
  import opened Specialise
  import opened LoopVars
  import Equivalence
  import opened Dichotomy
  import opened ClauseRuns
  import opened Occurrence

  /** The visitor, then the loop-variable pass. */
  function Transform(fs: seq<FuncDecl>, m: Sites): seq<FuncDecl> { FixFile(VisitFile(fs, m)) }

  /**
   Two files with the same runs while `k` is active: result, final state, panic or exhaustion at every amount of fuel.
   */
  ghost predicate SameRuns(fs: seq<FuncDecl>, gs: seq<FuncDecl>, k: int) {
    forall ext: External, entry, args, st, fuel ::
      Run(fs, k, ext, entry, args, st, fuel) == Run(gs, k, ext, entry, args, st, fuel)
  }

  lemma SameResidueSameRuns(fs: seq<FuncDecl>, gs: seq<FuncDecl>, k: int)
    requires SpecFile(fs, k) == SpecFile(gs, k)
    ensures SameRuns(fs, gs, k)
  {
    hide Run;
    forall ext: External, entry, args, st, fuel
      ensures Run(fs, k, ext, entry, args, st, fuel) == Run(gs, k, ext, entry, args, st, fuel)
    {
      SpecRunSound(fs, k, ext, entry, args, st, fuel);
      SpecRunSound(gs, k, ext, entry, args, st, fuel);
    }
  }

  /** The loop-variable pass alone changes no run. */
  lemma LoopVarsPreserveMeaning(fs: seq<FuncDecl>, k: int)
    ensures SameRuns(FixFile(fs), fs, k)
  {
    hide SameRuns;
    FixFileSpec(fs, k);
    SameResidueSameRuns(FixFile(fs), fs, k);
  }

  /** No mutant of the file has the id. */
  ghost predicate NoMutant(m: Sites, k: int) { forall key, mu :: key in m && mu in m[key] ==> mu.id != k }

  /** Distinct ids: no two mutants of the file share one. */
  ghost predicate DistinctIds(m: Sites) {
    forall a, b, x, y :: a in m && b in m && x in m[a] && y in m[b] && x.id == y.id ==> a == b && x == y
  }

  /** Specialising the transformed file and the file with its lost bodies empty. */
  lemma TransformSpec(fs: seq<FuncDecl>, m: Sites, k: int)
    ensures SpecFile(Transform(fs, m), k) == SpecFile(VisitFile(Emptied(fs, m), m), k)
  {
    FixFileSpec(VisitFile(fs, m), k);
    Equivalence.VisitEmptied(fs, m, k);
  }

  /** An id whose guard stands nowhere runs the file, its lost bodies emptied. */
  lemma UnplacedRuns(fs: seq<FuncDecl>, m: Sites, k: int)
    requires OkSites(m) && OkFile(fs, m) && ExactlyFile(Emptied(fs, m), m, k, NOWHERE)
    ensures SameRuns(Transform(fs, m), Emptied(fs, m), k)
  {
    hide SameRuns, OkFile, ExactlyFile;
    var gs := Emptied(fs, m);
    EmptiedLosesNothing(fs, m);
    Equivalence.VisitFileSpec(gs, m, k, NOWHERE, Operate(ArithmeticFlip)) by {
      assert NOWHERE !in m;
    }
    AbsentFile(gs, NOWHERE, Operate(ArithmeticFlip));
    TransformSpec(fs, m, k);
    SameResidueSameRuns(Transform(fs, m), gs, k);
  }

  /** What the mutant at a site does when its guard is placed: its operator, save that a clause returns a zero value. */
  function Effect(m: Sites, key: Key, op: Operator): Change
    requires key in m
  {
    if key.kind == NTCaseClause && m[key] != [] then ReturnFromClause(m[key][0].returnType) else Operate(op)
  }

  lemma PlacedRuns(fs: seq<FuncDecl>, m: Sites, key: Key, mu: MutantForSite)
    requires OkSites(m) && OkFile(fs, m) && DistinctIds(m) && key in m && mu in m[key]
    requires ExactlyFile(Emptied(fs, m), m, mu.id, key) && KeysFile(fs, key) <= 1
    ensures SameRuns(Transform(fs, m), ApplyFile(Emptied(fs, m), key, Effect(m, key, mu.op)), mu.id)
  {
    hide SameRuns, OkFile, ExactlyFile;
    var gs := Emptied(fs, m);
    EmptiedLosesNothing(fs, m);
    EmptiedKeys(fs, m, key);
    Equivalence.VisitFileSpec(gs, m, mu.id, key, Effect(m, key, mu.op));
    TransformSpec(fs, m, mu.id);
    SameResidueSameRuns(Transform(fs, m), ApplyFile(gs, key, Effect(m, key, mu.op)), mu.id);
  }

  /** With an id of no mutant, 0 for example, the transformed file runs as the original with its lost bodies emptied. */
  lemma InactiveRunsOriginal(fs: seq<FuncDecl>, m: Sites, k: int)
    requires OkSites(m) && OkFile(fs, m) && NoMutant(m, k)
    ensures SameRuns(Transform(fs, m), Emptied(fs, m), k)
    ensures NothingLost(fs, m) ==> SameRuns(Transform(fs, m), fs, k)
  {
    hide SameRuns, OkFile;
    var gs := Emptied(fs, m);
    EmptiedLosesNothing(fs, m);
    EmptiedIdle(fs, m);
    assert NOWHERE !in m;
    FileDecided(gs, m, k, NOWHERE, ArithmeticFlip);
    UnplacedRuns(fs, m, k);
  }

  /** The file that the id of a mutant is to run, and does run. */
  function Realised(fs: seq<FuncDecl>, m: Sites, key: Key, op: Operator): seq<FuncDecl>
    requires key in m
  {
    if LandsFile(fs, m, key, op) then ApplyFile(fs, key, Effect(m, key, op)) else fs
  }

  lemma OneMutantIsSole(m: Sites, key: Key, mu: MutantForSite)
    requires DistinctIds(m) && key in m && mu in m[key]
    ensures Sole(m, mu.id, key, mu.op)
  {
  }

  /**
   Every mutant of a file with distinct sites and distinct ids runs as its mutation if it lands, and as the
   original if it does not, in both cases with the lost bodies emptied.  Whether it lands is read off the source.
   */
  lemma EveryMutant(fs: seq<FuncDecl>, m: Sites, key: Key, mu: MutantForSite)
    requires OkSites(m) && OkFile(fs, m) && DistinctIds(m)
    requires key in m && mu in m[key] && KeysFile(fs, key) <= 1
    ensures SameRuns(Transform(fs, m), Realised(Emptied(fs, m), m, key, mu.op), mu.id)
    ensures NothingLost(fs, m) ==> SameRuns(Transform(fs, m), Realised(fs, m, key, mu.op), mu.id)
    ensures ExactlyFile(Emptied(fs, m), m, mu.id, NOWHERE) <==> !LandsFile(Emptied(fs, m), m, key, mu.op)
  {
    hide SameRuns, OkFile, ExactlyFile, DistinctIds, Sole, OkSites, LandsFile, ApplyFile;
    var gs := Emptied(fs, m);
    EmptiedLosesNothing(fs, m);
    EmptiedIdle(fs, m);
    EmptiedKeys(fs, m, key);
    OneMutantIsSole(m, key, mu);
    FileDecided(gs, m, mu.id, key, mu.op);
    if LandsFile(gs, m, key, mu.op) {
      PlacedRuns(fs, m, key, mu);
    } else {
      UnplacedRuns(fs, m, mu.id);
    }
  }

  /** A lone mutant on a statement other than `if` and return never runs as anything but the original. */
  lemma LoneStatementMutant(fs: seq<FuncDecl>, m: Sites, key: Key, mu: MutantForSite)
    requires OkSites(m) && OkFile(fs, m) && DistinctIds(m)
    requires key in m && m[key] == [mu] && key.kind in STATEMENTS
    ensures !LandsFile(fs, m, key, mu.op)
  {
    hide OkFile, DistinctIds, Sole, OkSites, LandsFile;
    assert mu in m[key];
    OneMutantIsSole(m, key, mu);
    FileDecided(fs, m, mu.id, key, mu.op);
  }

  /**
   With the id of a mutant that lands, the transformed file runs as the file with that one change at that one site.
   */
  lemma ActiveRunsMutation(fs: seq<FuncDecl>, m: Sites, key: Key, mu: MutantForSite)
    requires OkSites(m) && OkFile(fs, m) && DistinctIds(m)
    requires key in m && mu in m[key] && KeysFile(fs, key) <= 1 && LandsFile(Emptied(fs, m), m, key, mu.op)
    ensures SameRuns(Transform(fs, m), ApplyFile(Emptied(fs, m), key, Effect(m, key, mu.op)), mu.id)
    ensures NothingLost(fs, m) ==> SameRuns(Transform(fs, m), ApplyFile(fs, key, Effect(m, key, mu.op)), mu.id)
  {
    hide SameRuns, OkFile, DistinctIds, OkSites, LandsFile, ApplyFile;
    EmptiedIdle(fs, m);
    EveryMutant(fs, m, key, mu);
  }

  // ---- From the mutant list of a file ----

  lemma {:induction false} AtSiteFrom(ms: seq<Visitor.Mutant>, key: Key, mu: MutantForSite)
    ensures mu in AtSite(ms, key)
       <==> exists i :: 0 <= i < |ms| && ms[i].site == key && mu == MutantForSite(ms[i].id, ms[i].op, ms[i].returnType)
    decreases |ms|
  {
    if ms != [] { AtSiteFrom(ms[..|ms| - 1], key, mu); }
  }

  /** Grouping a list whose ids are distinct yields sites whose ids are. */
  lemma GroupedIdsDistinct(ms: seq<Visitor.Mutant>, m: Sites)
    requires GroupedBySite(ms, m) && forall i, j :: 0 <= i < j < |ms| ==> ms[i].id != ms[j].id
    ensures DistinctIds(m)
  {
    forall a, b, x, y | a in m && b in m && x in m[a] && y in m[b] && x.id == y.id ensures a == b && x == y {
      AtSiteFrom(ms, a, x);
      AtSiteFrom(ms, b, y);
      hide AtSite;
      var i :| 0 <= i < |ms| && ms[i].site == a && x == MutantForSite(ms[i].id, ms[i].op, ms[i].returnType);
      var j :| 0 <= j < |ms| && ms[j].site == b && y == MutantForSite(ms[j].id, ms[j].op, ms[j].returnType);
      assert ms[i].id == ms[j].id;
    }
  }

  /**
   Each mutant of a file's list, numbered without repetition, runs as its mutation if it lands, and as the original if
   not.
   */
  lemma EveryListedMutant(fs: seq<FuncDecl>, ms: seq<Visitor.Mutant>, m: Sites, i: nat)
    requires GroupedBySite(ms, m) && (forall j, k :: 0 <= j < k < |ms| ==> ms[j].id != ms[k].id)
    requires OkSites(m) && OkFile(fs, m) && i < |ms| && KeysFile(fs, ms[i].site) <= 1
    ensures ms[i].site in m
    ensures SameRuns(Transform(fs, m), Realised(Emptied(fs, m), m, ms[i].site, ms[i].op), ms[i].id)
  {
    hide SameRuns, OkFile, OkSites, AtSite;
    var mu := MutantForSite(ms[i].id, ms[i].op, ms[i].returnType);
    AtSiteFrom(ms, ms[i].site, mu);
    GroupedIdsDistinct(ms, m);
    hide DistinctIds;
    EveryMutant(fs, m, ms[i].site, mu);
  }

  // ---- Mutants that are lost although they were generated ----

  /**
   A mutant of a statement, wherever in the file it stands, runs as its mutation if it lands on that statement, and as
   the original if it does not.
   */
  lemma StatementMutant(fs: seq<FuncDecl>, m: Sites, mu: MutantForSite, t: Stmt, tCase: bool)
    requires OkSites(m) && OkFile(fs, m) && DistinctIds(m) && InFile(t, tCase, Emptied(fs, m))
    requires KeyOfStmt(t) in m && mu in m[KeyOfStmt(t)] && KeysFile(fs, KeyOfStmt(t)) <= 1
    ensures LandsFile(Emptied(fs, m), m, KeyOfStmt(t), mu.op) <==> LandsOnStmt(t, m, tCase, mu.op)
    ensures var gs := Emptied(fs, m);
            SameRuns(Transform(fs, m),
                     if LandsOnStmt(t, m, tCase, mu.op) then ApplyFile(gs, KeyOfStmt(t), Operate(mu.op)) else gs, mu.id)
  {
    Equivalence.StmtIsNoClause(t);
    hide SameRuns, OkFile, DistinctIds, Sole, OkSites, LandsFile, LandsOnStmt, ApplyFile, KeyOfStmt, InFile;
    var gs, key := Emptied(fs, m), KeyOfStmt(t);
    EmptiedLosesNothing(fs, m);
    EmptiedKeys(fs, m, key);
    OneMutantIsSole(m, key, mu);
    InFileLands(t, tCase, gs, m, mu.id, key, mu.op);
    EveryMutant(fs, m, key, mu);
  }

  /**
   The removal of an error or nil check lands if and only if neither its condition nor an operand of it is wrapped.
   */
  lemma LostCheck(s: Stmt, m: Sites, inCase: bool, mu: MutantForSite)
    requires OkStmt(s, m) && KeyOfStmt(s) in m && mu in m[KeyOfStmt(s)]
             && (mu.op.ErrorCheckRemoval? || mu.op.NilCheckRemoval?)
    ensures LandsOnStmt(s, m, inCase, mu.op) <==> ConditionIntact(s.cond, m)
  {
    Generated(s, m, inCase, mu);
    hide ConditionIntact, OkStmt, KeyOfStmt;
  }

  /** Wherever in the file the check stands, a removal that does not land runs as the original. */
  lemma LostCheckRuns(fs: seq<FuncDecl>, m: Sites, mu: MutantForSite, t: Stmt, tCase: bool)
    requires OkSites(m) && OkFile(fs, m) && DistinctIds(m) && InFile(t, tCase, Emptied(fs, m))
    requires KeyOfStmt(t) in m && mu in m[KeyOfStmt(t)] && KeysFile(fs, KeyOfStmt(t)) <= 1
    requires mu.op.ErrorCheckRemoval? || mu.op.NilCheckRemoval?
    ensures t.IfStmt?
    ensures !ConditionIntact(t.cond, m) ==> SameRuns(Transform(fs, m), Emptied(fs, m), mu.id)
  {
    hide SameRuns, OkFile, DistinctIds, OkSites, ConditionIntact, LandsOnStmt, ApplyFile, KeyOfStmt, InFile, OkStmt;
    EmptiedLosesNothing(fs, m);
    InFileOk(t, tCase, Emptied(fs, m), m);
    Generated(t, m, tCase, mu);
    RemovesChecks(mu.op, t);
    LostCheck(t, m, tCase, mu);
    StatementMutant(fs, m, mu, t, tCase);
  }

  lemma RemovesChecks(op: Operator, s: Stmt)
    requires Suits(op, s) && (op.ErrorCheckRemoval? || op.NilCheckRemoval?)
    ensures s.IfStmt?
  {
  }

  // ---- Returns in case clauses ----

  predicate ZeroValueReturn(op: Operator) {
    op.ZeroValueReturnNumeric? || op.ZeroValueReturnString? || op.ZeroValueReturnBool?
  }

  /**
   Generation does not see the file and the transformation does: a zero-value mutant of a return in a case clause is
   generated, and then runs as the original.
   */
  lemma ZeroReturnInClauseRuns(fs: seq<FuncDecl>, m: Sites, mu: MutantForSite, t: Stmt)
    requires OkSites(m) && OkFile(fs, m) && DistinctIds(m) && InFile(t, true, Emptied(fs, m))
    requires KeyOfStmt(t) in m && mu in m[KeyOfStmt(t)] && KeysFile(fs, KeyOfStmt(t)) <= 1 && ZeroValueReturn(mu.op)
    ensures SameRuns(Transform(fs, m), Emptied(fs, m), mu.id)
  {
    hide SameRuns, OkFile, DistinctIds, OkSites, LandsOnStmt, LandsFile, Emptied, ApplyFile, KeyOfStmt, InFile,
         ZeroValueReturn;
    ZeroReturnNeverLands(t, m, mu.op);
    StatementMutant(fs, m, mu, t, true);
  }

  lemma ZeroReturnNeverLands(t: Stmt, m: Sites, op: Operator)
    requires ZeroValueReturn(op)
    ensures !LandsOnStmt(t, m, true, op)
  {
    hide IsNumericLiteral, IsTextLiteral, IsBoolLiteral;
  }

  /** `return 5` of a function of type `interface{}`: both mutants are generated, and inside a clause only one lands. */
  lemma ZeroReturnInClause()
    ensures var ret := ReturnStmt(1, Some(BasicLit(2, IntLit(5))));
            var nil_, zero := MutantForSite(1, InterfaceReturns, "interface{}"),
                MutantForSite(2, ZeroValueReturnNumeric, "interface{}");
            var m: Sites := map[KeyOfStmt(ret) := [nil_, zero]];
            && CanApplyStmt(nil_.op, ret, nil_.returnType) && CanApplyStmt(zero.op, ret, zero.returnType)
            && LandsOnStmt(ret, m, true, nil_.op) && !LandsOnStmt(ret, m, true, zero.op)
            && LandsOnStmt(ret, m, false, nil_.op) && LandsOnStmt(ret, m, false, zero.op)
  {
  }

  /**
   `if err != nil { return }` with the removal of the check and a negation of the comparison.  Both are generated;
   the removal lands alone, but beside the negation only the negation does.
   */
  lemma ErrorCheckUnderMutatedCondition()
    ensures var cond := BinaryExpr(2, Ident(3, "err"), NEQ, Ident(4, "nil"));
            var check := IfStmt(1, None, cond, [ReturnStmt(5, None)], None);
            var alone: Sites := map[KeyOfStmt(check) := [MutantForSite(1, ErrorCheckRemoval, "")]];
            var both := alone[KeyOfExpr(cond) := [MutantForSite(2, ConditionNegation, "")]];
            && CanApplyStmt(ErrorCheckRemoval, check, "") && CanApplyExpr(ConditionNegation, cond)
            && LandsOnStmt(check, alone, false, ErrorCheckRemoval)
            && LandsOnExpr(cond, false, both, ConditionNegation) && !LandsOnStmt(check, both, false, ErrorCheckRemoval)
  {
    var cond := BinaryExpr(2, Ident(3, "err"), NEQ, Ident(4, "nil"));
    var check := IfStmt(1, None, cond, [ReturnStmt(5, None)], None);
    var negation := MutantForSite(2, ConditionNegation, "");
    var alone: Sites := map[KeyOfStmt(check) := [MutantForSite(1, ErrorCheckRemoval, "")]];
    var both := alone[KeyOfExpr(cond) := [negation]];
    assert negation in both[KeyOfExpr(cond)] && MutateExpr(negation.op, cond).Some?;
    assert Wrapped(cond, false, both);
    assert KeyOfExpr(cond) !in alone && KeyOfExpr(cond.x) !in alone && KeyOfExpr(cond.y) !in alone;
    assert ConditionIntact(cond, alone);
  }

  // ---- Function declarations have no guard ----

  lemma {:induction false} TransformedFunc(fs: seq<FuncDecl>, m: Sites, name: string)
    requires FindFunc(fs, name).Some?
    ensures var f := FindFunc(fs, name).value;
            FindFunc(Transform(fs, m), name) == Some(VisitFunc(f, m).(body := FixList(VisitFunc(f, m).body)))
  {
    hide FixList, VisitFunc;
    var v := VisitFunc(fs[0], m);
    VisitKeepsName(fs[0], m);
    assert Transform(fs, m)[0] == v.(body := FixList(v.body));
    assert VisitFile(fs, m)[1..] == VisitFile(fs[1..], m);
    assert Transform(fs, m)[1..] == Transform(fs[1..], m);
    if fs[0].name != name { TransformedFunc(fs[1..], m, name); }
  }

  lemma VisitKeepsName(f: FuncDecl, m: Sites)
    ensures VisitFunc(f, m).name == f.name
  {
  }

  /**
   Calling a declaration with a lost body does nothing, whatever id is active, so the call agrees with the
   original exactly where the original does nothing.
   */
  lemma LostDeclaration(fs: seq<FuncDecl>, m: Sites, name: string, k: int, ext: External, args: seq<Value>, st: State,
                        fuel: nat)
    requires FindFunc(fs, name).Some? && Lost(FindFunc(fs, name).value, m) && name != "panic" && name != TRAP
             && fuel > 0
    ensures Run(Transform(fs, m), k, ext, name, args, st, fuel) == Val(NilV, st)
    ensures Run(Transform(fs, m), k, ext, name, args, st, fuel) == Run(fs, k, ext, name, args, st, fuel)
       <==> Run(fs, k, ext, name, args, st, fuel) == Val(NilV, st)
  {
    var f := FindFunc(fs, name).value;
    hide FindFunc, Transform, Lost, VisitFunc;
    TransformedFunc(fs, m, name);
    Equivalence.KeptBody(f, m);
    var w := World(Transform(fs, m), k, ext);
    var st' := st.(vars := Bind(f.params, args));
    assert VisitFunc(f, m).(body := FixList([])).body == [];
    assert ExecList(w, fuel - 1, [], st') == Fin(Next, st');
  }

  /** A run that tells the difference, with no mutant active. */
  lemma FuncDeclChangesTheOriginal(ext: External)
    ensures var call := ExprStmt(CallExpr(3, "log", []));
            var f := FuncDecl(1, "f", [], false, [call]);
            var m: Sites := map[Key(1, NTFuncDecl) := [MutantForSite(7, EmptyBody, "")]];
            var st := State(map[], map[], []);
            Run(Transform([f], m), 0, ext, "f", [], st, 1) != Run([f], 0, ext, "f", [], st, 1)
  {
  }

  // ---- A clause mutant does not do what its operator says ----

  lemma SelectIgnoresBodies(w: World, fuel: nat, v: Value, cs: seq<Clause>, i: nat, body: seq<Stmt>, st: State)
    requires i < |cs|
    ensures SelectClause(w, fuel, v, cs[i := cs[i].(body := body)], st) == SelectClause(w, fuel, v, cs, st)
    decreases |cs|
  {
    var ds := cs[i := cs[i].(body := body)];
    if i == 0 {
      assert ds[1..] == cs[1..];
    } else {
      assert ds[0] == cs[0] && ds[1..] == cs[1..][i - 1 := cs[1..][i - 1].(body := body)];
      var r := MatchClause(w, fuel, v, cs[0], st);
      if r.Matched? { SelectIgnoresBodies(w, fuel, v, cs[1..], i - 1, body, r.st); }
    }
  }

  lemma DefaultIndexIgnoresBodies(cs: seq<Clause>, i: nat, body: seq<Stmt>)
    requires i < |cs|
    ensures DefaultIndex(cs[i := cs[i].(body := body)]) == DefaultIndex(cs)
    decreases |cs|
  {
    var ds := cs[i := cs[i].(body := body)];
    if i == 0 {
      assert ds[1..] == cs[1..];
    } else {
      assert ds[0] == cs[0] && ds[1..] == cs[1..][i - 1 := cs[1..][i - 1].(body := body)];
      DefaultIndexIgnoresBodies(cs[1..], i - 1, body);
    }
  }

  /** Control gets to the default clause of the switch. */
  predicate ReachesDefault(w: World, fuel: nat, tag: Expr, cs: seq<Clause>, st: State) {
    var t := Eval(w, fuel, tag, st);
    t.Val? && var s := SelectClause(w, fuel, t.v, cs, t.st); s.Selected? && s.index.None?
  }

  lemma ZeroReturns(w: World, fuel: nat, t: string, rest: seq<Stmt>, st: State)
    ensures var r := ExecList(w, fuel, [Schemata.Return(ZeroFor(t))] + rest, st); r.Fin? && r.ctl.Return?
  {
    var l := [Schemata.Return(ZeroFor(t))] + rest;
    assert l[0] == Schemata.Return(ZeroFor(t));
    assert Eval(w, fuel, ZeroFor(t), st).Val?;
    assert Exec(w, fuel, l[0], st).Fin?;
  }

  function AtDefault(w: World, fuel: nat, tag: Expr, cs: seq<Clause>, st: State): State {
    var t := Eval(w, fuel, tag, st);
    if t.Val? then SelectClause(w, fuel, t.v, cs, t.st).st else st
  }

  /** The body of the default clause matters exactly when it is reached. */
  lemma DefaultBody(w: World, fuel: nat, p: nat, tag: Expr, cs: seq<Clause>, i: nat, body: seq<Stmt>, st: State)
    requires DefaultIndex(cs) == Some(i)
    ensures Exec(w, fuel, SwitchStmt(p, tag, cs[i := cs[i].(body := body)]), st)
         == if ReachesDefault(w, fuel, tag, cs, st) then
              LeaveSwitch(ExecList(w, fuel, body, AtDefault(w, fuel, tag, cs, st)))
            else Exec(w, fuel, SwitchStmt(p, tag, cs), st)
  {
    DefaultIndexIgnoresBodies(cs, i, body);
    var t := Eval(w, fuel, tag, st);
    if t.Val? {
      SelectIgnoresBodies(w, fuel, t.v, cs, i, body, t.st);
      SelectNotDefault(w, fuel, t.v, cs, t.st);
    }
    hide Eval, ExecList, SelectClause, DefaultIndex;
  }

  /**
   The guard of switch_remove_default returns from the function where the operator only empties the
   clause: with the guard active, the two switches agree exactly when the default is not reached.
   */
  lemma DefaultClauseMutant(w: World, fuel: nat, p: nat, tag: Expr, cs: seq<Clause>, i: nat, m: Sites, st: State)
    requires DefaultIndex(cs) == Some(i) && PlacedClauseHere(cs[i], m, w.active)
    ensures var op := m[KeyOfClause(cs[i])][0].op;
            var placed := SwitchStmt(p, tag, cs[i := PlaceClause(cs[i], m)]);
            var mutated := SwitchStmt(p, tag, cs[i := MutateClause(op, cs[i]).value]);
            Exec(w, fuel, placed, st) == Exec(w, fuel, mutated, st) <==> !ReachesDefault(w, fuel, tag, cs, st)
  {
    hide PlaceClause, ClauseGuard, Exec, ReachesDefault, DefaultIndex, ReturnZeroWhen;
    var c, mu := cs[i], m[KeyOfClause(cs[i])][0];
    PlacedClauseReturns(c, m);
    assert MutateClause(mu.op, c).value == c.(body := []);
    DefaultBody(w, fuel, p, tag, cs, i, [ReturnZeroWhen(mu.id, mu.returnType)] + c.body, st);
    DefaultBody(w, fuel, p, tag, cs, i, [], st);
    var st' := AtDefault(w, fuel, tag, cs, st);
    GuardedReturn(w, fuel, mu.returnType, c.body, st');
    assert ExecList(w, fuel, [], st') == Fin(Next, st');
  }

  function ReturnZeroWhen(id: int, t: string): Stmt { IfStmt(0, None, Guard(id), [Schemata.Return(ZeroFor(t))], None) }

  lemma PlacedClauseReturns(c: Clause, m: Sites)
    requires KeyOfClause(c) in m && |m[KeyOfClause(c)]| == 1 && MutateClause(m[KeyOfClause(c)][0].op, c).Some?
    ensures var mu := m[KeyOfClause(c)][0];
            PlaceClause(c, m) == c.(body := [ReturnZeroWhen(mu.id, mu.returnType)] + c.body)
  {
  }

  lemma GuardedReturn(w: World, fuel: nat, t: string, rest: seq<Stmt>, st: State)
    ensures var r := ExecList(w, fuel, [ReturnZeroWhen(w.active, t)] + rest, st); r.Fin? && r.ctl.Return?
  {
    var s := ReturnZeroWhen(w.active, t);
    GuardEval(w, fuel, s.cond, st);
    ZeroReturns(w, fuel, t, [], st);
    assert s.body == [Schemata.Return(ZeroFor(t))] + [];
    assert Exec(w, fuel, s, st) == ExecList(w, fuel, s.body, st);
    assert ([s] + rest)[0] == s;
  }

  lemma SelectNotDefault(w: World, fuel: nat, v: Value, cs: seq<Clause>, st: State)
    ensures var s := SelectClause(w, fuel, v, cs, st); s.Selected? && s.index.Some? ==> !cs[s.index.value].isDefault
  {
    if cs != [] {
      var r := MatchClause(w, fuel, v, cs[0], st);
      if r.Matched? && !r.yes { SelectNotDefault(w, fuel, v, cs[1..], r.st); }
    }
  }

  /** A default that is reached, with its mutant active: the function returns instead of going on. */
  lemma DefaultClauseReturns(w: World, fuel: nat, st: State)
    requires w.active == 7
    ensures var c := CaseClause(2, true, [], [ExprStmt(CallExpr(3, "log", []))]);
            var m: Sites := map[Key(2, NTCaseClause) := [MutantForSite(7, SwitchRemoveDefault, "")]];
            var tag := BasicLit(1, IntLit(1));
            Exec(w, fuel, SwitchStmt(4, tag, [c][0 := PlaceClause(c, m)]), st)
            != Exec(w, fuel, SwitchStmt(4, tag, [c][0 := c.(body := [])]), st)
  {
    var c := CaseClause(2, true, [], [ExprStmt(CallExpr(3, "log", []))]);
    var m: Sites := map[Key(2, NTCaseClause) := [MutantForSite(7, SwitchRemoveDefault, "")]];
    var tag := BasicLit(1, IntLit(1));
    assert DefaultIndex([c]) == Some(0);
    assert SelectClause(w, fuel, IntV(1), [c][1..], st) == Selected(None, st);
    assert ReachesDefault(w, fuel, tag, [c], st);
    DefaultClauseMutant(w, fuel, 4, tag, [c], 0, m, st);
  }

  /**
   Over a whole file: with the id of a clause mutant active, a run that never gets to the clause is the run of the
   file with the operator applied.
   */
  lemma ClauseMutantRuns(fs: seq<FuncDecl>, m: Sites, key: Key, mu: MutantForSite,
                         ext: External, entry: string, args: seq<Value>, st: State, fuel: nat)
    requires OkSites(m) && OkFile(fs, m) && DistinctIds(m) && key.kind == NTCaseClause
    requires key in m && mu in m[key] && KeysFile(fs, key) <= 1 && LandsFile(Emptied(fs, m), m, key, mu.op)
    requires !EvalTrapped(Run(ApplyFile(Emptied(fs, m), key, Trap()), mu.id, ext, entry, args, st, fuel))
    ensures Run(Transform(fs, m), mu.id, ext, entry, args, st, fuel)
         == Run(ApplyFile(Emptied(fs, m), key, Operate(mu.op)), mu.id, ext, entry, args, st, fuel)
  {
    var gs := Emptied(fs, m);
    EveryMutant(fs, m, key, mu);
    EmptiedLosesNothing(fs, m);
    NeverEntered(gs, m, key, Operate(mu.op), mu.id, ext, entry, args, st, fuel);
    NeverEntered(gs, m, key, Effect(m, key, mu.op), mu.id, ext, entry, args, st, fuel);
    hide Run, OkFile, OkSites, DistinctIds, Transform, Emptied, ApplyFile, LandsFile;
  }
}
