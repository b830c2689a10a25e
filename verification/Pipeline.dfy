/** A whole run in workspace mode: from the generated mutants to the report's categories. */
module Pipeline {
  import opened Wrappers
  import opened Mutants
  import opened Selection
  import opened Preflight
  import opened Statuses
  import V = VerifyClean
  import X = ExternalSuites

  // ---- The report ----

  datatype Stats = Stats(
    killed: nat, survived: nat, untested: nat, timeout: nat, invalid: nat, compileErrors: nat, runtimeErrors: nat)

  /** The statuses that belong to a category of the report; a blank or an unknown one belongs to none. */
  predicate Counted(m: Mutant) { !m.status.Blank? && !m.status.Unknown? }

  function Total(s: Stats): nat {
    s.killed + s.survived + s.untested + s.timeout + s.invalid + s.compileErrors + s.runtimeErrors
  }

  /** How many mutants satisfy a test. */
  function Number(ms: seq<Mutant>, p: Mutant -> bool): nat {
    if ms == [] then 0 else Number(ms[..|ms| - 1], p) + if p(ms[|ms| - 1]) then 1 else 0
  }

  function Has(s: Status): Mutant -> bool { (m: Mutant) => m.status == s }

  function HasError(compiler: bool): Mutant -> bool {
    (m: Mutant) => m.status == Error && (m.killedBy == COMPILER <==> compiler)
  }

  function AddTo(s: Stats, m: Mutant): Stats {
    match m.status
    case Killed => s.(killed := s.killed + 1)
    case Survived => s.(survived := s.survived + 1)
    case Untested => s.(untested := s.untested + 1)
    case Timeout => s.(timeout := s.timeout + 1)
    case Invalid => s.(invalid := s.invalid + 1)
    case Error => if m.killedBy == COMPILER then s.(compileErrors := s.compileErrors + 1)
        else s.(runtimeErrors := s.runtimeErrors + 1)
    case _ => s
  }

  function Tally(ms: seq<Mutant>): Stats {
    if ms == [] then Stats(0, 0, 0, 0, 0, 0, 0) else AddTo(Tally(ms[..|ms| - 1]), ms[|ms| - 1])
  }

  method ComputeStats(ms: seq<Mutant>) returns (s: Stats)
    ensures s == Tally(ms)
  {
    s := Stats(0, 0, 0, 0, 0, 0, 0);
    for i := 0 to |ms|
      invariant s == Tally(ms[..i])
    {
      assert ms[..i + 1][..i] == ms[..i];
      s := AddTo(s, ms[i]);
    }
    assert ms[..|ms|] == ms;
  }

  /** Each category counts exactly the mutants of its status; errors are divided by who is to blame. */
  lemma {:induction false} TallyCounts(ms: seq<Mutant>)
    ensures var s := Tally(ms);
            && s.killed == Number(ms, Has(Killed)) && s.survived == Number(ms, Has(Survived))
            && s.untested == Number(ms, Has(Untested)) && s.timeout == Number(ms, Has(Timeout))
            && s.invalid == Number(ms, Has(Invalid))
            && s.compileErrors == Number(ms, HasError(true)) && s.runtimeErrors == Number(ms, HasError(false))
    decreases |ms|
  {
    if ms != [] { TallyCounts(ms[..|ms| - 1]); }
  }

  lemma AddsOne(s: Stats, m: Mutant)
    ensures Total(AddTo(s, m)) == Total(s) + if Counted(m) then 1 else 0
  {
  }

  /** The categories add up to the number of mutants if and only if every status is known. */
  lemma {:induction false} CategoriesAddUp(ms: seq<Mutant>)
    ensures Total(Tally(ms)) <= |ms|
    ensures Total(Tally(ms)) == |ms| <==> forall m :: m in ms ==> Counted(m)
    decreases |ms|
  {
    hide Total, AddTo, Counted;
    if ms == [] {
      NothingAddsUp();
    } else {
      var init, m := ms[..|ms| - 1], ms[|ms| - 1];
      CategoriesAddUp(init);
      assert ms == init + [m];
      AddsOne(Tally(init), m);
    }
  }

  lemma NothingAddsUp()
    ensures Total(Tally([])) == 0
  {
  }

  // ---- What each phase does to one mutant ----

  /** What a run depends on besides the mutants. */
  datatype World = World(
    preflight: Preflight.Environment,
    cached: Mutant -> Option<Status>,
    moduleFound: bool,
    workspaceReady: bool,
    verify: V.Environment,
    packagesMapped: bool,
    externalEnabled: bool,
    beforeUnit: bool,
    suites: seq<X.Suite>,
    external: X.Outcomes,
    unitResults: seq<Result>,
    unitFailed: bool)

  predicate AllArrive(rs: seq<Result>) { forall i :: 0 <= i < |rs| ==> Arrival(rs[i].status) }

  /**
   Execution yields statuses of execution, the cache holds only known ones, and builds blame ids only beside errors.
   */
  ghost predicate GoodWorld(w: World) {
    && AllArrive(w.unitResults)
    && (forall b, id :: Arrival(w.external(b, id).status))
    && (forall m :: w.cached(m).Some? ==> !w.cached(m).value.Unknown?)
    && V.Attributable(w.verify)
  }

  function WithStatus(m: Mutant, s: Status): Mutant { Mutant(m.id, m.file, m.hasNode, s, m.killedBy) }

  function Restored(w: World): Mutant -> Mutant {
    (m: Mutant) => if w.cached(m).Some? then WithStatus(m, w.cached(m).value) else m
  }

  function Finalized(): Mutant -> Mutant { (m: Mutant) => if m.status.Blank? then WithStatus(m, Untested) else m }

  function SetError(): Mutant -> Mutant { (m: Mutant) => WithStatus(m, Error) }

  function AfterSuites(w: World, phase: X.Phase, m: Mutant): Mutant {
    if w.externalEnabled && X.Target(w.beforeUnit, m) then X.AfterAll(phase, w.external, m, X.Flatten(w.suites)) else m
  }

  function AfterUnit(w: World, m: Mutant): Mutant { UpdateAll(m, w.unitResults) }

  /**
   Unit tests and external suites, in the configured order; suites that come last are skipped when the unit tests fail
   to run.
   */
  function Executed(w: World): Mutant -> Mutant {
    (m: Mutant) =>
      if w.beforeUnit then AfterUnit(w, AfterSuites(w, X.Merged, m))
      else if w.unitFailed then AfterUnit(w, m)
      else AfterSuites(w, X.Merged, AfterUnit(w, m))
  }

  /** When everything was cached only the external suites are run. */
  function SuitesOnly(w: World): Mutant -> Mutant { (m: Mutant) => AfterSuites(w, X.Late, m) }

  function Each(ms: seq<Mutant>, f: Mutant -> Mutant): (r: seq<Mutant>)
    ensures |r| == |ms| && forall i :: 0 <= i < |ms| ==> r[i] == f(ms[i])
  {
    if ms == [] then [] else Each(ms[..|ms| - 1], f) + [f(ms[|ms| - 1])]
  }

  // ---- The phases ----

  /** Statuses found in the cache replace those of the mutants. */
  method RestoreCached(w: World, ms: seq<Mutant>) returns (restored: seq<Mutant>, allCached: bool)
    ensures restored == Each(ms, Restored(w))
    ensures allCached <==> forall i :: 0 <= i < |ms| ==> w.cached(ms[i]).Some?
  {
    restored, allCached := [], true;
    for i := 0 to |ms|
      invariant restored == Each(ms[..i], Restored(w))
      invariant allCached <==> forall j :: 0 <= j < i ==> w.cached(ms[j]).Some?
    {
      assert ms[..i + 1][..i] == ms[..i];
      match w.cached(ms[i]) {
        case None => restored, allCached := restored + [ms[i]], false;
        case Some(s) => restored := restored + [WithStatus(ms[i], s)];
      }
    }
    assert ms[..|ms|] == ms;
  }

  /** A mutant left without a status is untested. */
  method FinalizeMutants(ms: seq<Mutant>) returns (final: seq<Mutant>)
    ensures final == Each(ms, Finalized())
  {
    final := [];
    for i := 0 to |ms|
      invariant final == Each(ms[..i], Finalized())
    {
      assert ms[..i + 1][..i] == ms[..i];
      final := final + [if ms[i].status.Blank? then WithStatus(ms[i], Untested) else ms[i]];
    }
    assert ms[..|ms|] == ms;
  }

  method Execute(w: World, ms: seq<Mutant>) returns (done: seq<Mutant>)
    requires Distinct(Ids(ms))
    ensures done == Each(ms, Executed(w))
  {
    hide AfterSuites, AfterUnit, Each, Distinct;
    var a := new Mutant[|ms|](i requires 0 <= i < |ms| => ms[i]);
    assert a[..] == ms;
    if w.beforeUnit { External(w, X.Merged, a); }
    UnitTests(w, a);
    if !w.beforeUnit && !w.unitFailed { External(w, X.Merged, a); }
    done := a[..];
  }

  method ExecuteSuites(w: World, ms: seq<Mutant>) returns (done: seq<Mutant>)
    requires Distinct(Ids(ms))
    ensures done == Each(ms, SuitesOnly(w))
  {
    hide AfterSuites, Each, Distinct;
    var a := new Mutant[|ms|](i requires 0 <= i < |ms| => ms[i]);
    assert a[..] == ms;
    External(w, X.Late, a);
    done := a[..];
  }

  method External(w: World, phase: X.Phase, a: array<Mutant>)
    requires Distinct(Ids(a[..]))
    modifies a
    ensures forall p :: 0 <= p < a.Length ==> a[p] == AfterSuites(w, phase, old(a[p]))
    ensures Distinct(Ids(a[..]))
  {
    ghost var before := a[..];
    if w.externalEnabled { X.RunExternalPhase(phase, w.beforeUnit, w.external, a, w.suites); }
    SameIds(before, a[..]);
  }

  method UnitTests(w: World, a: array<Mutant>)
    requires Distinct(Ids(a[..]))
    modifies a
    ensures forall p :: 0 <= p < a.Length ==> a[p] == AfterUnit(w, old(a[p]))
    ensures Distinct(Ids(a[..]))
  {
    ghost var before := a[..];
    var index := BuildIndex(a[..]);
    CollectResults(a, w.unitResults, index);
    SameIds(before, a[..]);
  }

  // ---- Rejected mutants ----

  function Rejected(m: Mutant, r: Rejection): Mutant {
    Mutant(m.id, m.file, m.hasNode, r.status, if r.status == Error then COMPILER else m.killedBy)
  }

  function AfterRejections(m: Mutant, rs: seq<Rejection>): (u: Mutant)
    ensures u.id == m.id
  {
    if rs == [] then m else
      var u, r := AfterRejections(m, rs[..|rs| - 1]), rs[|rs| - 1];
      if u.id == r.id then Rejected(u, r) else u
  }

  /** The rejected mutants get their status in the generated list and are kept for the report. */
  method RecordRejections(mutants: array<Mutant>, rs: seq<Rejection>) returns (invalid: seq<Mutant>)
    requires Distinct(Ids(mutants[..])) && forall r :: r in rs ==> r.id in Ids(mutants[..])
    modifies mutants
    ensures Undergone(old(mutants[..]), mutants[..], rs)
    ensures Recorded(rs, invalid)
  {
    hide *;
    invalid := [];
    ghost var before := mutants[..];
    NothingRecorded();
    NothingUndergone(before);
    for n := 0 to |rs|
      invariant Ids(mutants[..]) == Ids(before)
      invariant Undergone(before, mutants[..], rs[..n])
      invariant Recorded(rs[..n], invalid)
    {
      ghost var now := mutants[..];
      var m := RecordOne(mutants, rs[n]);
      RecordedMore(rs[..n], invalid, rs[n], m);
      OneMoreUndergone(before, now, mutants[..], rs[..n], rs[n]);
      assert rs[..n + 1] == rs[..n] + [rs[n]];
      invalid := invalid + [m];
    }
    assert rs[..|rs|] == rs;
  }

  /** Every mutant of the list has undergone its rejections, and nobody else has changed. */
  ghost predicate Undergone(before: seq<Mutant>, now: seq<Mutant>, rs: seq<Rejection>) {
    |now| == |before| && forall p :: 0 <= p < |now| ==> now[p] == AfterRejections(before[p], rs)
  }

  lemma NothingUndergone(ms: seq<Mutant>)
    ensures Undergone(ms, ms, [])
  {
  }

  lemma OneMoreUndergone(before: seq<Mutant>, now: seq<Mutant>, next: seq<Mutant>, rs: seq<Rejection>, r: Rejection)
    requires Undergone(before, now, rs) && |next| == |now|
    requires forall p :: 0 <= p < |next| ==> next[p] == if now[p].id == r.id then Rejected(now[p], r) else now[p]
    ensures Undergone(before, next, rs + [r])
  {
    assert (rs + [r])[..|rs|] == rs;
    hide Rejected;
  }

  ghost predicate Recorded(rs: seq<Rejection>, ms: seq<Mutant>) {
    && Ids(ms) == RejectedIds(rs)
    && forall i :: 0 <= i < |ms| ==>
         ms[i].status == rs[i].status && (rs[i].status == Error ==> ms[i].killedBy == COMPILER)
  }

  lemma NothingRecorded()
    ensures Recorded([], [])
  {
  }

  lemma RecordedMore(rs: seq<Rejection>, ms: seq<Mutant>, r: Rejection, m: Mutant)
    requires Recorded(rs, ms) && m.id == r.id && m.status == r.status && (r.status == Error ==> m.killedBy == COMPILER)
    ensures Recorded(rs + [r], ms + [m])
  {
    RejectedMore(rs, r);
    IdsMore(ms, m);
  }

  lemma Somewhere(ms: seq<Mutant>, id: int) returns (k: nat)
    requires id in Ids(ms)
    ensures k < |ms| && ms[k].id == id
  {
    k :| 0 <= k < |ms| && Ids(ms)[k] == id;
  }

  /** The first mutant with the id of the rejection. */
  method RecordOne(mutants: array<Mutant>, r: Rejection) returns (m: Mutant)
    requires Distinct(Ids(mutants[..])) && r.id in Ids(mutants[..])
    modifies mutants
    ensures Ids(mutants[..]) == Ids(old(mutants[..])) && m in mutants[..] && m.id == r.id && m.status == r.status
    ensures m.status == Error ==> m.killedBy == COMPILER
    ensures forall p :: 0 <= p < mutants.Length ==>
              mutants[p] == if old(mutants[p]).id == r.id then Rejected(old(mutants[p]), r) else old(mutants[p])
  {
    ghost var before := mutants[..];
    ghost var k := Somewhere(before, r.id);
    var i := FirstWithId(mutants[..], r.id, k);
    m := Rejected(mutants[i], r);
    mutants[i] := m;
    assert mutants[..][i] == m;
    SameIds(before, mutants[..]);
    OnlyOne(before, i);
  }

  // ---- The run ----

  /** What stops a run before its end. */
  datatype Trouble = NoWorkspace | NotVerified | NoPackageMap | UnitTestsFailed

  /**
   The error the run returns, and the failure of verification, after which a run goes on as long as somebody is left.
   */
  datatype Outcome = Outcome(failure: Option<V.Failure>, error: Option<Trouble>)

  /** What becomes of the mutants that passed preflight, in the workspace. */
  ghost predicate WorkspaceRun(w: World, ms: seq<Mutant>, invalid: seq<Mutant>, result: seq<Mutant>, outcome: Outcome) {
    exists p :: V.EndsIn(w.verify, 0, ms, [], p) && p.Finished? && WorkspaceEnd(w, p, invalid, result, outcome)
  }

  /** After verification whoever is left is executed, even after an error; the removed ones join the rejected. */
  ghost predicate WorkspaceEnd(w: World, p: V.Progress, invalid: seq<Mutant>, result: seq<Mutant>, outcome: Outcome)
    requires p.Finished?
  {
    && result == Each(Each(p.kept, Tried(w)), Finalized()) + (invalid + p.removed)
    && outcome == Outcome(p.failure, TroubleAfter(w, p))
  }

  function TroubleAfter(w: World, p: V.Progress): Option<Trouble>
    requires p.Finished?
  {
    if p.failure.Some? && p.kept == [] then Some(NotVerified)
    else if !w.packagesMapped then Some(NoPackageMap)
    else if w.unitFailed then Some(UnitTestsFailed)
    else None
  }

  function Tried(w: World): Mutant -> Mutant { if w.packagesMapped then Executed(w) else SetError() }

  /** From the cache to the end of the run. */
  ghost predicate ValidRun(w: World, valid: seq<Mutant>, invalid: seq<Mutant>, result: seq<Mutant>, outcome: Outcome) {
    var ms := Each(valid, Restored(w));
    if valid == [] then result == invalid && outcome == Outcome(None, None)
    else if forall i :: 0 <= i < |valid| ==> w.cached(valid[i]).Some? then CachedRun(w, ms, invalid, result, outcome)
    else if !w.workspaceReady then
      outcome == Outcome(None, Some(NoWorkspace)) && result == Each(Each(ms, SetError()), Finalized()) + invalid
    else WorkspaceRun(w, ms, invalid, result, outcome)
  }

  /** Everything was cached: only external suites can still change anything. */
  ghost predicate CachedRun(w: World, ms: seq<Mutant>, invalid: seq<Mutant>, result: seq<Mutant>, outcome: Outcome) {
    if !w.externalEnabled || !w.moduleFound then outcome == Outcome(None, None)
        && result == Each(ms, Finalized()) + invalid
    else if !w.workspaceReady then outcome == Outcome(None, Some(NoWorkspace))
        && result == Each(ms, Finalized()) + invalid
    else outcome == Outcome(None, None) && result == Each(Each(ms, SuitesOnly(w)), Finalized()) + invalid
  }

  /** Preflight, the record of the rejected, and the rest for the survivors. */
  ghost predicate WholeRun(w: World, all: seq<Mutant>, result: seq<Mutant>, outcome: Outcome) {
    exists valid, rejections, invalid :: Passed(w, all, valid, rejections, invalid)
        && ValidRun(w, valid, invalid, result, outcome)
  }

  ghost predicate Passed(w: World, all: seq<Mutant>, valid: seq<Mutant>, rejections: seq<Rejection>,
                         invalid: seq<Mutant>) {
    && SplitsIds(all, valid, rejections) && AllRejected(rejections) && Recorded(rejections, invalid)
    && Answered(valid, {}, Survivors(w.preflight, all))
  }

  method RunWorkspace(w: World, ms: seq<Mutant>, invalid: seq<Mutant>) returns (result: seq<Mutant>, outcome: Outcome)
    requires Distinct(Ids(ms))
    ensures WorkspaceRun(w, ms, invalid, result, outcome)
  {
    hide Ids, Distinct, Each, V.EndsIn, V.Ends, Executed, Finalized, SetError;
    var kept, removed, failure := V.VerifyAndCleanSchemata(w.verify, ms);
    EndsDistinct(ms, kept, removed, failure);
    var gone := invalid + removed;
    if failure.Some? && kept == [] {
      NoneEach(Tried(w), Finalized());
      result, outcome := gone, Outcome(failure, Some(NotVerified));
      assert [] + gone == gone;
    } else if !w.packagesMapped {
      var failed := SetMutantErrors(kept);
      var final := FinalizeMutants(failed);
      result, outcome := final + gone, Outcome(failure, Some(NoPackageMap));
    } else {
      var executed := Execute(w, kept);
      var final := FinalizeMutants(executed);
      result, outcome := final + gone, Outcome(failure, if w.unitFailed then Some(UnitTestsFailed) else None);
    }
    assert WorkspaceEnd(w, V.Finished(kept, removed, failure), invalid, result, outcome);
  }

  method RunCached(w: World, ms: seq<Mutant>, invalid: seq<Mutant>) returns (result: seq<Mutant>, outcome: Outcome)
    requires Distinct(Ids(ms))
    ensures CachedRun(w, ms, invalid, result, outcome)
  {
    hide Ids, Distinct, Each, SuitesOnly, Finalized;
    var ready := w.externalEnabled && w.moduleFound && w.workspaceReady;
    var trouble := if w.externalEnabled && w.moduleFound && !w.workspaceReady then Some(NoWorkspace) else None;
    var done := ms;
    if ready { done := ExecuteSuites(w, ms); }
    var final := FinalizeMutants(done);
    result, outcome := final + invalid, Outcome(None, trouble);
  }

  lemma NoneEach(f: Mutant -> Mutant, g: Mutant -> Mutant)
    ensures Each(Each([], f), g) == []
  {
  }

  method SetMutantErrors(ms: seq<Mutant>) returns (r: seq<Mutant>)
    ensures r == Each(ms, SetError())
  {
    r := [];
    for i := 0 to |ms|
      invariant r == Each(ms[..i], SetError())
    {
      assert ms[..i + 1][..i] == ms[..i];
      r := r + [WithStatus(ms[i], Error)];
    }
    assert ms[..|ms|] == ms;
  }

  method RunValid(w: World, valid: seq<Mutant>, invalid: seq<Mutant>) returns (result: seq<Mutant>, outcome: Outcome)
    requires valid != [] && Distinct(Ids(valid))
    ensures ValidRun(w, valid, invalid, result, outcome)
  {
    hide *;
    RestoredDistinct(w, valid);
    var ms, allCached := RestoreCached(w, valid);
    if allCached {
      result, outcome := RunCached(w, ms, invalid);
    } else if !w.workspaceReady {
      var failed := SetMutantErrors(ms);
      var final := FinalizeMutants(failed);
      result, outcome := final + invalid, Outcome(None, Some(NoWorkspace));
    } else {
      result, outcome := RunWorkspace(w, ms, invalid);
    }
    IsValidRun(w, valid, ms, invalid, result, outcome, allCached);
  }

  lemma RestoredDistinct(w: World, valid: seq<Mutant>)
    requires Distinct(Ids(valid))
    ensures Distinct(Ids(Each(valid, Restored(w))))
  {
    SameIds(valid, Each(valid, Restored(w)));
  }

  lemma IsValidRun(w: World, valid: seq<Mutant>, ms: seq<Mutant>, invalid: seq<Mutant>, result: seq<Mutant>,
                   outcome: Outcome, allCached: bool)
    requires valid != [] && ms == Each(valid, Restored(w))
    requires allCached <==> forall i :: 0 <= i < |valid| ==> w.cached(valid[i]).Some?
    requires allCached ==> CachedRun(w, ms, invalid, result, outcome)
    requires !allCached && !w.workspaceReady ==>
               outcome == Outcome(None, Some(NoWorkspace))
                   && result == Each(Each(ms, SetError()), Finalized()) + invalid
    requires !allCached && w.workspaceReady ==> WorkspaceRun(w, ms, invalid, result, outcome)
    ensures ValidRun(w, valid, invalid, result, outcome)
  {
    hide Each, Restored, Finalized, SetError, WorkspaceRun, CachedRun;
  }

  /** The workspace path, and what its report promises. */
  method GenerateAndRun(w: World, mutants: array<Mutant>) returns (result: seq<Mutant>, outcome: Outcome)
    requires GoodWorld(w) && Distinct(Ids(mutants[..]))
    modifies mutants
    ensures WholeRun(w, old(mutants[..]), result, outcome)
    ensures outcome.failure.None? ==> Reported(old(mutants[..]), result)
  {
    hide *;
    ghost var all := mutants[..];
    var valid, rejections := RunPreflight(w.preflight, mutants);
    RejectedAreListed(all, valid, rejections);
    var invalid := RecordRejections(mutants, rejections);
    ValidDistinct(all, valid, rejections);
    if valid == [] {
      result, outcome := invalid, Outcome(None, None);
      NothingValid(w, invalid);
    } else {
      result, outcome := RunValid(w, valid, invalid);
    }
    RunIsWhole(w, all, valid, rejections, invalid, result, outcome);
    if outcome.failure.None? { WholeRunReports(w, all, result, outcome); }
  }

  lemma NothingValid(w: World, invalid: seq<Mutant>)
    ensures ValidRun(w, [], invalid, invalid, Outcome(None, None))
  {
  }

  lemma RunIsWhole(w: World, all: seq<Mutant>, valid: seq<Mutant>, rejections: seq<Rejection>, invalid: seq<Mutant>,
                   result: seq<Mutant>, outcome: Outcome)
    requires SplitsIds(all, valid, rejections) && AllRejected(rejections) && Recorded(rejections, invalid)
    requires Answered(valid, {}, Survivors(w.preflight, all)) && ValidRun(w, valid, invalid, result, outcome)
    ensures WholeRun(w, all, result, outcome)
  {
    hide SplitsIds, AllRejected, Recorded, Answered, ValidRun;
    assert Passed(w, all, valid, rejections, invalid);
  }

  lemma ValidDistinct(all: seq<Mutant>, valid: seq<Mutant>, rejections: seq<Rejection>)
    requires SplitsIds(all, valid, rejections) && Distinct(Ids(all))
    ensures Distinct(Ids(valid))
  {
    DistinctRest(Ids(all), Ids(valid), RejectedIds(rejections));
  }

  lemma RejectedAreListed(all: seq<Mutant>, valid: seq<Mutant>, rs: seq<Rejection>)
    requires SplitsIds(all, valid, rs)
    ensures forall r :: r in rs ==> r.id in Ids(all)
  {
    forall r | r in rs ensures r.id in Ids(all) {
      RejectedMember(rs, r);
      assert r.id in multiset(RejectedIds(rs));
      assert r.id in multiset(Ids(all));
    }
  }

  lemma {:induction false} RejectedMember(rs: seq<Rejection>, r: Rejection)
    requires r in rs
    ensures r.id in RejectedIds(rs)
    decreases |rs|
  {
    if r != rs[0] { RejectedMember(rs[1..], r); }
  }

  lemma EndsDistinct(ms: seq<Mutant>, kept: seq<Mutant>, removed: seq<Mutant>, failure: Option<V.Failure>)
    requires Distinct(Ids(ms)) && V.Ends(ms, kept, removed, failure)
    ensures Distinct(Ids(kept))
  {
    forall x | x in Ids(kept) ensures multiset(Ids(kept))[x] <= 1 {
      DistinctOnce(Ids(ms), x);
      assert multiset(Ids(kept))[x] <= multiset(Ids(ms))[x];
    }
    OnceDistinct(Ids(kept));
  }

  // ---- What the report promises ----

  /** Every generated mutant is reported exactly once, with a status that belongs to a category. */
  ghost predicate Reported(all: seq<Mutant>, result: seq<Mutant>) {
    && multiset(Ids(result)) == multiset(Ids(all))
    && (AllKnown(all) ==> forall m :: m in result ==> Counted(m))
  }

  /** The same mutants in the same order, and no status text that the program does not know if there was none. */
  ghost predicate SameAndKnown(before: seq<Mutant>, now: seq<Mutant>) {
    Ids(now) == Ids(before) && (AllKnown(before) ==> AllKnown(now))
  }

  predicate AllKnown(ms: seq<Mutant>) { forall i :: 0 <= i < |ms| ==> !ms[i].status.Unknown? }

  /** A phase that keeps ids and known statuses. */
  ghost predicate Harmless(f: Mutant -> Mutant) { forall m: Mutant :: Unharmed(m, f(m)) }

  predicate Unharmed(m: Mutant, u: Mutant) { u.id == m.id && (!m.status.Unknown? ==> !u.status.Unknown?) }

  lemma HarmlessEach(ms: seq<Mutant>, f: Mutant -> Mutant)
    requires Harmless(f)
    ensures SameAndKnown(ms, Each(ms, f))
  {
    hide Each;
    SameIds(ms, Each(ms, f));
  }

  lemma {:induction false} UpdateKnown(m: Mutant, rs: seq<Result>)
    requires AllArrive(rs)
    ensures Unharmed(m, UpdateAll(m, rs))
    decreases |rs|
  {
    if rs != [] {
      UpdateKnown(m, rs[..|rs| - 1]);
      assert Arrival(rs[|rs| - 1].status);
    }
  }

  lemma {:induction false} AfterKnown(phase: X.Phase, run: X.Outcomes, m: Mutant, bs: seq<X.Binary>)
    requires forall b, id :: Arrival(run(b, id).status)
    ensures Unharmed(m, X.AfterAll(phase, run, m, bs))
    decreases |bs|
  {
    if bs != [] {
      assert Arrival(run(bs[0], m.id).status);
      AfterKnown(phase, run, X.After(phase, run, m, bs[0]), bs[1..]);
    }
  }

  lemma SuitesHarmless(w: World, phase: X.Phase, m: Mutant)
    requires GoodWorld(w)
    ensures Unharmed(m, AfterSuites(w, phase, m))
  {
    AfterKnown(phase, w.external, m, X.Flatten(w.suites));
    hide X.AfterAll, X.Flatten, X.Target, Unharmed;
    Untouched(m);
  }

  lemma UnitHarmless(w: World, m: Mutant)
    requires GoodWorld(w)
    ensures Unharmed(m, AfterUnit(w, m))
  {
    UpdateKnown(m, w.unitResults);
  }

  lemma Untouched(m: Mutant)
    ensures Unharmed(m, m)
  {
  }

  lemma ExecutedHarmless(w: World)
    requires GoodWorld(w)
    ensures Harmless(Executed(w)) && Harmless(SuitesOnly(w))
  {
    hide AfterSuites, AfterUnit, GoodWorld;
    forall m: Mutant ensures Unharmed(m, Executed(w)(m)) && Unharmed(m, SuitesOnly(w)(m)) {
      SuitesHarmless(w, X.Merged, m);
      SuitesHarmless(w, X.Late, m);
      UnitHarmless(w, m);
      SuitesHarmless(w, X.Merged, AfterUnit(w, m));
      UnitHarmless(w, AfterSuites(w, X.Merged, m));
    }
  }

  lemma CacheHarmless(w: World)
    requires GoodWorld(w)
    ensures Harmless(Restored(w))
  {
    hide AllArrive;
    forall m: Mutant ensures Unharmed(m, Restored(w)(m)) {}
  }

  lemma ReportHarmless()
    ensures Harmless(Finalized()) && Harmless(SetError())
  {
    forall m: Mutant ensures Unharmed(m, Finalized()(m)) && Unharmed(m, SetError()(m)) {}
  }

  lemma PhasesHarmless(w: World)
    requires GoodWorld(w)
    ensures Harmless(Restored(w)) && Harmless(Finalized()) && Harmless(SetError()) && Harmless(SuitesOnly(w))
            && Harmless(Tried(w))
  {
    hide GoodWorld, Harmless, Executed, SuitesOnly, Restored, Finalized, SetError;
    CacheHarmless(w);
    ReportHarmless();
    ExecutedHarmless(w);
  }

  lemma FinalCounted(ms: seq<Mutant>)
    requires AllKnown(ms)
    ensures forall m :: m in Each(ms, Finalized()) ==> Counted(m)
  {
  }

  lemma KnownSubset(all: seq<Mutant>, some: seq<Mutant>)
    requires forall m :: m in some ==> m in all
    ensures AllKnown(all) ==> AllKnown(some)
  {
    if AllKnown(all) {
      forall i | 0 <= i < |some| ensures !some[i].status.Unknown? { assert some[i] in all; }
    }
  }

  /** The books between two phases: who is still live and who is gone, gone ones with their final status. */
  ghost predicate Books(all: seq<Mutant>, live: seq<Mutant>, gone: seq<Mutant>) {
    && multiset(Ids(live)) + multiset(Ids(gone)) == multiset(Ids(all))
    && (AllKnown(all) ==> AllKnown(live))
    && AllCounted(gone)
  }

  predicate AllCounted(ms: seq<Mutant>) { forall m :: m in ms ==> Counted(m) }

  lemma BooksFollow(all: seq<Mutant>, live: seq<Mutant>, gone: seq<Mutant>, f: Mutant -> Mutant)
    requires Books(all, live, gone) && Harmless(f)
    ensures Books(all, Each(live, f), gone)
  {
    HarmlessEach(live, f);
    hide Ids, AllKnown, Each, Harmless;
  }

  lemma BooksVerified(all: seq<Mutant>, live: seq<Mutant>, gone: seq<Mutant>, kept: seq<Mutant>, removed: seq<Mutant>)
    requires Books(all, live, gone) && V.Splits(live, kept, removed)
    ensures Books(all, kept, gone + removed)
  {
    hide Ids, AllKnown, V.Splits, AllCounted;
    SplitsApart(live, kept, removed);
    KnownSubset(live, kept);
    IdsAppend(gone, removed);
    CountedAppend(gone, removed);
  }

  lemma CountedAppend(a: seq<Mutant>, b: seq<Mutant>)
    requires AllCounted(a) && AllCounted(b)
    ensures AllCounted(a + b)
  {
    hide Counted;
  }

  lemma SplitsApart(live: seq<Mutant>, kept: seq<Mutant>, removed: seq<Mutant>)
    requires V.Splits(live, kept, removed)
    ensures multiset(Ids(kept)) + multiset(Ids(removed)) == multiset(Ids(live))
    ensures AllCounted(removed) && forall m :: m in kept ==> m in live
  {
    hide Ids;
    forall m | m in removed ensures Counted(m) { assert CompileError(m); }
  }

  lemma BooksClosed(all: seq<Mutant>, live: seq<Mutant>, gone: seq<Mutant>)
    requires Books(all, live, gone)
    ensures Reported(all, Each(live, Finalized()) + gone)
  {
    var final := Each(live, Finalized());
    SameIds(live, final);
    IdsAppend(final, gone);
    if AllKnown(live) { FinalCounted(live); }
    hide Ids, AllKnown, Each, Finalized;
  }

  lemma BooksOpened(w: World, all: seq<Mutant>, valid: seq<Mutant>, rejections: seq<Rejection>, invalid: seq<Mutant>)
    requires Passed(w, all, valid, rejections, invalid)
    ensures Books(all, valid, invalid)
  {
    hide Ids, RejectedIds, AllKnown, AllCounted, AllRejected, Answered, Survivors;
    KnownSubset(all, valid);
    RejectedCounted(rejections, invalid);
  }

  lemma RejectedCounted(rs: seq<Rejection>, ms: seq<Mutant>)
    requires AllRejected(rs) && Recorded(rs, ms)
    ensures AllCounted(ms)
  {
    forall i | 0 <= i < |ms| ensures Counted(ms[i]) { assert rs[i] in rs; }
  }

  /** Unless verification fails, every generated mutant is reported once, with a status that belongs to a category. */
  lemma WholeRunReports(w: World, all: seq<Mutant>, result: seq<Mutant>, outcome: Outcome)
    requires GoodWorld(w) && WholeRun(w, all, result, outcome) && outcome.failure.None?
    ensures Reported(all, result)
  {
    hide *;
    var valid, rejections, invalid := Opened(w, all, result, outcome);
    PhasesHarmless(w);
    BooksOpened(w, all, valid, rejections, invalid);
    BooksFollow(all, valid, invalid, Restored(w));
    ValidRunReports(w, all, valid, invalid, result, outcome);
  }

  lemma Opened(w: World, all: seq<Mutant>, result: seq<Mutant>, outcome: Outcome)
    returns (valid: seq<Mutant>, rejections: seq<Rejection>, invalid: seq<Mutant>)
    requires WholeRun(w, all, result, outcome)
    ensures Passed(w, all, valid, rejections, invalid) && ValidRun(w, valid, invalid, result, outcome)
  {
    hide Passed, ValidRun;
    valid, rejections, invalid :| Passed(w, all, valid, rejections, invalid)
        && ValidRun(w, valid, invalid, result, outcome);
  }

  lemma ValidRunReports(w: World, all: seq<Mutant>, valid: seq<Mutant>, invalid: seq<Mutant>, result: seq<Mutant>,
                        outcome: Outcome)
    requires GoodWorld(w) && ValidRun(w, valid, invalid, result, outcome) && outcome.failure.None?
    requires Books(all, valid, invalid) && Books(all, Each(valid, Restored(w)), invalid)
    ensures Reported(all, result)
  {
    hide GoodWorld, Books, Harmless, Reported, Each, Tried, SuitesOnly, Finalized, Restored, SetError, WorkspaceRun;
    PhasesHarmless(w);
    var ms := Each(valid, Restored(w));
    if valid == [] {
      NoneEach(Restored(w), Finalized());
      BooksClosed(all, valid, invalid);
      NothingFinal(invalid);
    } else if forall i :: 0 <= i < |valid| ==> w.cached(valid[i]).Some? {
      BooksClosed(all, ms, invalid);
      BooksFollow(all, ms, invalid, SuitesOnly(w));
      BooksClosed(all, Each(ms, SuitesOnly(w)), invalid);
    } else if !w.workspaceReady {
      BooksFollow(all, ms, invalid, SetError());
      BooksClosed(all, Each(ms, SetError()), invalid);
    } else {
      WorkspaceReports(w, all, ms, invalid, result, outcome);
    }
  }

  lemma NothingFinal(gone: seq<Mutant>)
    ensures Each([], Finalized()) + gone == gone
  {
  }

  lemma WorkspaceReports(w: World, all: seq<Mutant>, ms: seq<Mutant>, invalid: seq<Mutant>, result: seq<Mutant>,
                         outcome: Outcome)
    requires GoodWorld(w) && Books(all, ms, invalid) && WorkspaceRun(w, ms, invalid, result, outcome)
             && outcome.failure.None?
    ensures Reported(all, result)
  {
    hide GoodWorld, Books, Harmless, Reported, Each, Tried, Finalized, V.EndsIn, V.Splits, TroubleAfter;
    var p :| V.EndsIn(w.verify, 0, ms, [], p) && p.Finished? && WorkspaceEnd(w, p, invalid, result, outcome);
    V.AllKept(ms);
    V.EndsKeepBooks(w.verify, 0, ms, ms, [], p);
    PhasesHarmless(w);
    BooksVerified(all, ms, invalid, p.kept, p.removed);
    BooksFollow(all, p.kept, invalid + p.removed, Tried(w));
    BooksClosed(all, Each(p.kept, Tried(w)), invalid + p.removed);
  }

  /**
   Every generated id is reported once, unless verification aborts and the run goes on with the mutants it had kept.
   */
  lemma ReportedOnceIff(w: World, all: seq<Mutant>, result: seq<Mutant>, outcome: Outcome)
    requires GoodWorld(w) && WholeRun(w, all, result, outcome)
    ensures multiset(Ids(result)) == multiset(Ids(all))
            <==> !(V.Aborts(outcome.failure) && outcome.error != Some(NotVerified))
  {
    hide *;
    if outcome.failure.None? {
      WholeRunReports(w, all, result, outcome);
      OnlyReported(all, result, outcome);
    } else {
      var valid, rejections, invalid := Opened(w, all, result, outcome);
      PhasesHarmless(w);
      BooksOpened(w, all, valid, rejections, invalid);
      BooksFollow(all, valid, invalid, Restored(w));
      FailedInWorkspace(w, valid, invalid, result, outcome);
      FailedRunReports(w, all, Each(valid, Restored(w)), invalid, result, outcome);
    }
  }

  lemma OnlyReported(all: seq<Mutant>, result: seq<Mutant>, outcome: Outcome)
    requires Reported(all, result) && outcome.failure.None?
    ensures multiset(Ids(result)) == multiset(Ids(all)) && !V.Aborts(outcome.failure)
  {
  }

  lemma FailedInWorkspace(w: World, valid: seq<Mutant>, invalid: seq<Mutant>, result: seq<Mutant>, outcome: Outcome)
    requires ValidRun(w, valid, invalid, result, outcome) && outcome.failure.Some?
    ensures WorkspaceRun(w, Each(valid, Restored(w)), invalid, result, outcome)
  {
    hide WorkspaceRun, Each, Restored, Finalized, SetError, SuitesOnly;
  }

  lemma FailedRunReports(w: World, all: seq<Mutant>, ms: seq<Mutant>, invalid: seq<Mutant>, result: seq<Mutant>,
                         outcome: Outcome)
    requires GoodWorld(w) && Books(all, ms, invalid) && WorkspaceRun(w, ms, invalid, result, outcome)
             && outcome.failure.Some?
    ensures multiset(Ids(result)) == multiset(Ids(all))
            <==> !(V.Aborts(outcome.failure) && outcome.error != Some(NotVerified))
  {
    hide GoodWorld, Books, Harmless, Reported, Each, Tried, Finalized, V.EndsIn, V.Ends, Ids, V.Aborts;
    var p :| V.EndsIn(w.verify, 0, ms, [], p) && p.Finished? && WorkspaceEnd(w, p, invalid, result, outcome);
    V.AllKept(ms);
    V.EndsKeepBooks(w.verify, 0, ms, ms, [], p);
    AddsUpIff(ms, p.kept, p.removed, p.failure.value);
    PhasesHarmless(w);
    TriedIds(w, p.kept);
    IdsAppend(Each(Each(p.kept, Tried(w)), Finalized()), invalid + p.removed);
    IdsAppend(invalid, p.removed);
    BooksIds(all, ms, invalid);
    SumsAgree(multiset(Ids(p.kept)), multiset(Ids(invalid)), multiset(Ids(p.removed)), multiset(Ids(ms)));
  }

  lemma AddsUpIff(ms: seq<Mutant>, kept: seq<Mutant>, removed: seq<Mutant>, failure: V.Failure)
    requires V.Ends(ms, kept, removed, Some(failure))
    ensures multiset(Ids(kept)) + multiset(Ids(removed)) == multiset(Ids(ms))
            <==> !(V.Aborts(Some(failure)) && kept != [])
  {
    hide Ids;
    if V.Aborts(Some(failure)) { V.AbortsListTwice(ms, kept, removed, failure); }
  }

  lemma TriedIds(w: World, ms: seq<Mutant>)
    requires Harmless(Tried(w)) && Harmless(Finalized())
    ensures Ids(Each(Each(ms, Tried(w)), Finalized())) == Ids(ms)
  {
    hide Each, Ids, Tried, Finalized, Harmless;
    HarmlessEach(ms, Tried(w));
    HarmlessEach(Each(ms, Tried(w)), Finalized());
  }

  lemma BooksIds(all: seq<Mutant>, live: seq<Mutant>, gone: seq<Mutant>)
    requires Books(all, live, gone)
    ensures multiset(Ids(live)) + multiset(Ids(gone)) == multiset(Ids(all))
  {
  }

  lemma SumsAgree(kept: multiset<int>, invalid: multiset<int>, removed: multiset<int>, ms: multiset<int>)
    ensures kept + (invalid + removed) == ms + invalid <==> kept + removed == ms
  {
    assert (kept + (invalid + removed)) - invalid == kept + removed && (ms + invalid) - invalid == ms;
  }

  // ---- When a run reports mutants twice ----

  predicate AllCached(w: World, valid: seq<Mutant>) { forall i :: 0 <= i < |valid| ==> w.cached(valid[i]).Some? }

  /** Some run reports a mutant twice, or not at all. */
  ghost predicate Miscounts(w: World, valid: seq<Mutant>, invalid: seq<Mutant>) {
    exists result, outcome :: ValidRun(w, valid, invalid, result, outcome) && !OnceEach(valid, invalid, result)
  }

  ghost predicate OnceEach(valid: seq<Mutant>, invalid: seq<Mutant>, result: seq<Mutant>) {
    multiset(Ids(result)) == multiset(Ids(valid)) + multiset(Ids(invalid))
  }

  lemma TailIds(live: seq<Mutant>, now: seq<Mutant>, invalid: seq<Mutant>, removed: seq<Mutant>)
    requires Ids(now) == Ids(live)
    ensures multiset(Ids(now + (invalid + removed)))
            == multiset(Ids(live)) + multiset(Ids(removed)) + multiset(Ids(invalid))
  {
    IdsAppend(now, invalid + removed);
    IdsAppend(invalid, removed);
    hide Ids;
  }

  lemma ResultIds(w: World, kept: seq<Mutant>, removed: seq<Mutant>, invalid: seq<Mutant>)
    requires GoodWorld(w)
    ensures multiset(Ids(Each(Each(kept, Tried(w)), Finalized()) + (invalid + removed)))
         == multiset(Ids(kept)) + multiset(Ids(removed)) + multiset(Ids(invalid))
  {
    hide *;
    PhasesHarmless(w);
    TriedIds(w, kept);
    TailIds(kept, Each(Each(kept, Tried(w)), Finalized()), invalid, removed);
  }

  /** In the workspace, a run counts everybody once exactly if the books of verification add up. */
  lemma EndCountsOnceIff(w: World, ms: seq<Mutant>, p: V.Progress, invalid: seq<Mutant>, result: seq<Mutant>,
                         outcome: Outcome)
    requires GoodWorld(w) && p.Finished? && WorkspaceEnd(w, p, invalid, result, outcome)
    ensures OnceEach(ms, invalid, result) <==> V.AddsUp(ms, p)
  {
    hide GoodWorld, Each, Tried, Finalized, TroubleAfter, Ids;
    ResultIds(w, p.kept, p.removed, invalid);
    SumsAgree(multiset(Ids(p.kept)), multiset(Ids(invalid)), multiset(Ids(p.removed)), multiset(Ids(ms)));
  }

  lemma RestoredIds(w: World, valid: seq<Mutant>)
    ensures Ids(Each(valid, Restored(w))) == Ids(valid)
  {
    SameIds(valid, Each(valid, Restored(w)));
  }

  /** Outside the workspace nobody is counted twice. */
  lemma ElsewhereOnce(w: World, valid: seq<Mutant>, invalid: seq<Mutant>, result: seq<Mutant>, outcome: Outcome)
    requires GoodWorld(w) && ValidRun(w, valid, invalid, result, outcome)
    requires valid == [] || AllCached(w, valid) || !w.workspaceReady
    ensures OnceEach(valid, invalid, result)
  {
    hide GoodWorld, Each, Tried, SuitesOnly, Finalized, Restored, SetError, WorkspaceRun, Harmless, Ids;
    PhasesHarmless(w);
    RestoredIds(w, valid);
    var ms := Each(valid, Restored(w));
    if valid == [] {
      NoIds();
    } else if AllCached(w, valid) {
      FinalIds(ms, invalid);
      EachIds(ms, SuitesOnly(w));
      FinalIds(Each(ms, SuitesOnly(w)), invalid);
    } else {
      EachIds(ms, SetError());
      FinalIds(Each(ms, SetError()), invalid);
    }
  }

  lemma NoIds()
    ensures Ids([]) == []
  {
  }

  lemma EachIds(ms: seq<Mutant>, f: Mutant -> Mutant)
    requires Harmless(f)
    ensures Ids(Each(ms, f)) == Ids(ms)
  {
    HarmlessEach(ms, f);
  }

  lemma FinalIds(ms: seq<Mutant>, gone: seq<Mutant>)
    requires Harmless(Finalized())
    ensures multiset(Ids(Each(ms, Finalized()) + gone)) == multiset(Ids(ms)) + multiset(Ids(gone))
  {
    hide Ids, Each, Finalized, Harmless;
    EachIds(ms, Finalized());
    IdsAppend(Each(ms, Finalized()), gone);
  }

  /**
   Mutants that passed preflight can be reported twice if and only if they are verified in a workspace and the
   answers there may lead to a round that lists its survivors twice.
   */
  lemma MiscountsIff(w: World, valid: seq<Mutant>, invalid: seq<Mutant>)
    requires GoodWorld(w)
    ensures Miscounts(w, valid, invalid)
       <==> valid != [] && !AllCached(w, valid) && w.workspaceReady
            && V.MayListTwice(w.verify, 0, Each(valid, Restored(w)), [])
  {
    hide *;
    var ms := Each(valid, Restored(w));
    V.AllKept(ms);
    V.EndsDoubledIff(w.verify, 0, ms, ms, []);
    RestoredIds(w, valid);
    if Miscounts(w, valid, invalid) {
      var result, outcome := MiscountingRun(w, valid, invalid);
      if valid == [] || AllCached(w, valid) || !w.workspaceReady {
        ElsewhereOnce(w, valid, invalid, result, outcome);
      } else {
        InWorkspace(w, valid, invalid, result, outcome);
        MiscountIsDoubled(w, valid, ms, invalid, result, outcome);
      }
    }
    if valid != [] && !AllCached(w, valid) && w.workspaceReady && V.EndsDoubled(w.verify, 0, ms, ms, []) {
      DoubledMiscounts(w, valid, ms, invalid);
    }
  }

  lemma MiscountingRun(w: World, valid: seq<Mutant>, invalid: seq<Mutant>)
    returns (result: seq<Mutant>, outcome: Outcome)
    requires Miscounts(w, valid, invalid)
    ensures ValidRun(w, valid, invalid, result, outcome) && !OnceEach(valid, invalid, result)
  {
    hide ValidRun, OnceEach;
    result, outcome :| ValidRun(w, valid, invalid, result, outcome) && !OnceEach(valid, invalid, result);
  }

  lemma InWorkspace(w: World, valid: seq<Mutant>, invalid: seq<Mutant>, result: seq<Mutant>, outcome: Outcome)
    requires valid != [] && !AllCached(w, valid) && w.workspaceReady
    ensures ValidRun(w, valid, invalid, result, outcome)
            <==> WorkspaceRun(w, Each(valid, Restored(w)), invalid, result, outcome)
  {
    hide WorkspaceRun, Each, Restored, Finalized, SetError, CachedRun;
  }

  lemma MiscountIsDoubled(w: World, valid: seq<Mutant>, ms: seq<Mutant>, invalid: seq<Mutant>, result: seq<Mutant>,
                          outcome: Outcome)
    requires GoodWorld(w) && Ids(ms) == Ids(valid) && WorkspaceRun(w, ms, invalid, result, outcome)
    requires !OnceEach(valid, invalid, result)
    ensures V.EndsDoubled(w.verify, 0, ms, ms, [])
  {
    hide GoodWorld, WorkspaceEnd, V.EndsIn, V.AddsUp, Ids;
    var p :| V.EndsIn(w.verify, 0, ms, [], p) && p.Finished? && WorkspaceEnd(w, p, invalid, result, outcome);
    EndCountsOnceIff(w, ms, p, invalid, result, outcome);
  }

  lemma DoubledMiscounts(w: World, valid: seq<Mutant>, ms: seq<Mutant>, invalid: seq<Mutant>)
    requires GoodWorld(w) && Ids(ms) == Ids(valid) && ms == Each(valid, Restored(w))
    requires valid != [] && !AllCached(w, valid) && w.workspaceReady && V.EndsDoubled(w.verify, 0, ms, ms, [])
    ensures Miscounts(w, valid, invalid)
  {
    hide *;
    var p := V.DoubledEnd(w.verify, 0, ms, ms, []);
    var result := Each(Each(p.kept, Tried(w)), Finalized()) + (invalid + p.removed);
    var outcome := Outcome(p.failure, TroubleAfter(w, p));
    EndsHere(w, ms, p, invalid, result, outcome);
    EndCountsOnceIff(w, ms, p, invalid, result, outcome);
    InWorkspace(w, valid, invalid, result, outcome);
    MiscountsBy(w, valid, ms, invalid, result, outcome);
  }

  lemma EndsHere(w: World, ms: seq<Mutant>, p: V.Progress, invalid: seq<Mutant>, result: seq<Mutant>, outcome: Outcome)
    requires V.EndsIn(w.verify, 0, ms, [], p) && p.Finished?
    requires result == Each(Each(p.kept, Tried(w)), Finalized()) + (invalid + p.removed)
    requires outcome == Outcome(p.failure, TroubleAfter(w, p))
    ensures WorkspaceRun(w, ms, invalid, result, outcome) && WorkspaceEnd(w, p, invalid, result, outcome)
  {
    hide V.EndsIn, Each, Tried, Finalized, TroubleAfter;
    assert WorkspaceEnd(w, p, invalid, result, outcome);
  }

  lemma MiscountsBy(w: World, valid: seq<Mutant>, ms: seq<Mutant>, invalid: seq<Mutant>, result: seq<Mutant>,
                    outcome: Outcome)
    requires ValidRun(w, valid, invalid, result, outcome) && Ids(ms) == Ids(valid) && !OnceEach(ms, invalid, result)
    ensures Miscounts(w, valid, invalid)
  {
    hide ValidRun, Ids;
  }

  /** Two mutants, nothing cached, and a first build that blames the first: the second is reported twice. */
  lemma ReportedTwice(w: World, root: string)
    requires GoodWorld(w) && w.workspaceReady && w.verify == V.BlamesFirst(root) && forall m :: w.cached(m).None?
    ensures var a, b := Mutant(1, Some("f.go"), true, Blank, ""), Mutant(2, Some("f.go"), true, Blank, "");
            Miscounts(w, [a, b], [])
  {
    hide GoodWorld, Miscounts, V.MayListTwice;
    var a, b := Mutant(1, Some("f.go"), true, Blank, ""), Mutant(2, Some("f.go"), true, Blank, "");
    assert !AllCached(w, [a, b]) by { assert [a, b][0] == a; }
    NoneRestored(w, [a, b]);
    V.SecondListedTwice(root);
    MiscountsIff(w, [a, b], []);
  }

  lemma NoneRestored(w: World, ms: seq<Mutant>)
    requires forall m :: w.cached(m).None?
    ensures Each(ms, Restored(w)) == ms
  {
    hide Each;
  }

  /** The categories of the report add up to the number of generated mutants. */
  lemma ReportBalances(all: seq<Mutant>, result: seq<Mutant>)
    requires Reported(all, result) && AllKnown(all)
    ensures Total(Tally(result)) == |all|
  {
    CategoriesAddUp(result);
    assert |Ids(result)| == |multiset(Ids(result))| == |multiset(Ids(all))| == |Ids(all)|;
  }
}
