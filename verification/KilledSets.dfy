/**
 The two external phases would differ on a mutant that starts invalid.  No run feeds them one:
 preflight takes such mutants out, and none of the later phases nor the cache brings one back.
 */
module KilledSets {
  import opened Wrappers
  import opened Mutants
  import opened Selection
  import opened Preflight
  import opened Statuses
  import opened BisectFile
  import opened Pipeline
  import V = VerifyClean
  import X = ExternalSuites

  predicate NoneInvalid(ms: seq<Mutant>) { forall m :: m in ms ==> m.status != Invalid }

  ghost predicate KeepsOut(f: Mutant -> Mutant) { forall m: Mutant :: m.status != Invalid ==> f(m).status != Invalid }

  /** The cache holds no invalid mutant. */
  ghost predicate CleanCache(w: World) { forall m :: w.cached(m) != Some(Invalid) }

  // ---- Phases ----

  lemma EachKeepsOut(ms: seq<Mutant>, f: Mutant -> Mutant)
    requires NoneInvalid(ms) && KeepsOut(f)
    ensures NoneInvalid(Each(ms, f))
  {
    forall m | m in Each(ms, f) ensures m.status != Invalid {
      var i :| 0 <= i < |ms| && Each(ms, f)[i] == m;
      assert ms[i] in ms;
    }
  }

  lemma {:induction false} UnitKeepsOut(m: Mutant, rs: seq<Result>)
    requires AllArrive(rs) && m.status != Invalid
    ensures UpdateAll(m, rs).status != Invalid
    decreases |rs|
  {
    if rs != [] {
      UnitKeepsOut(m, rs[..|rs| - 1]);
      assert Arrival(rs[|rs| - 1].status);
    }
  }

  lemma {:induction false} SuitesKeepOut(phase: X.Phase, run: X.Outcomes, m: Mutant, bs: seq<X.Binary>)
    requires (forall b, id :: Arrival(run(b, id).status)) && m.status != Invalid
    ensures X.AfterAll(phase, run, m, bs).status != Invalid
    decreases |bs|
  {
    if bs != [] {
      assert Arrival(run(bs[0], m.id).status);
      SuitesKeepOut(phase, run, X.After(phase, run, m, bs[0]), bs[1..]);
    }
  }

  lemma StepsKeepOut(w: World, m: Mutant)
    requires GoodWorld(w) && m.status != Invalid
    ensures AfterUnit(w, m).status != Invalid && forall phase :: AfterSuites(w, phase, m).status != Invalid
  {
    UnitKeepsOut(m, w.unitResults);
    forall phase ensures AfterSuites(w, phase, m).status != Invalid {
      SuitesKeepOut(phase, w.external, m, X.Flatten(w.suites));
    }
  }

  lemma ExecutionKeepsOut(w: World)
    requires GoodWorld(w)
    ensures KeepsOut(Executed(w)) && KeepsOut(SuitesOnly(w)) && KeepsOut(SetError()) && KeepsOut(Finalized())
  {
    hide GoodWorld, AfterUnit, AfterSuites;
    forall m: Mutant | m.status != Invalid
        ensures Executed(w)(m).status != Invalid && SuitesOnly(w)(m).status != Invalid {
      StepsKeepOut(w, m);
      StepsKeepOut(w, AfterUnit(w, m));
      StepsKeepOut(w, AfterSuites(w, X.Merged, m));
    }
  }

  // ---- Verification ----

  lemma {:induction false} MarkAllKeepsOut(ms: seq<Mutant>, compiler: bool)
    requires NoneInvalid(ms)
    ensures NoneInvalid(V.MarkAll(ms, compiler))
    decreases |ms|
  {
    if ms != [] { MarkAllKeepsOut(ms[1..], compiler); }
  }

  lemma {:induction false} MarkIfKeepsOut(ms: seq<Mutant>, p: Mutant -> bool)
    requires NoneInvalid(ms)
    ensures NoneInvalid(V.MarkIf(ms, p))
    decreases |ms|
  {
    if ms != [] { MarkIfKeepsOut(ms[1..], p); }
  }

  lemma KeptKeepsOut(ms: seq<Mutant>, p: Mutant -> bool)
    requires NoneInvalid(ms)
    ensures NoneInvalid(V.Kept(ms, p)) && NoneInvalid(V.MarkAll(V.Kept(ms, p), true))
            && NoneInvalid(V.MarkAll(V.Kept(ms, p), false))
  {
    MarkAllKeepsOut(V.Kept(ms, p), true);
    MarkAllKeepsOut(V.Kept(ms, p), false);
  }

  lemma StepKeepsOut(env: V.Environment, round: nat, ms: seq<Mutant>, removed: seq<Mutant>, q: V.Progress)
    requires NoneInvalid(ms) && V.StepTo(env, round, ms, removed, q)
    ensures NoneInvalid(q.kept)
  {
    hide NoneInvalid, V.Kept, V.Gone, V.MarkAll, V.Failing, V.FoundIn, V.OrderOf, V.InPackages, V.FailingPackages,
         V.WithId, V.IdsAt;
    match env.builds(round)
    case Built =>
    case Failed(badIds, errors) =>
      if badIds != [] {
        KeptKeepsOut(ms, V.WithId(set id | id in badIds));
      } else if V.Failing(env, ms, errors) != {} {
        var order :| V.OrderOf(order, V.Failing(env, ms, errors))
            && q == V.AfterOrder(env, round, ms, removed, errors, order);
        var bad := V.FoundIn(env.verdict(round), ms, order).bad;
        KeptKeepsOut(ms, V.InPackages(env, V.FailingPackages(errors)));
        NoneAtAll();
        if bad != [] { KeptKeepsOut(ms, V.WithId(V.IdsAt(ms, bad))); }
      }
  }

  lemma NoneAtAll()
    ensures NoneInvalid([])
  {
  }

  lemma {:induction false} RoundsKeepOut(env: V.Environment, round: nat, ms: seq<Mutant>, removed: seq<Mutant>,
                                         p: V.Progress)
    requires NoneInvalid(ms) && V.EndsIn(env, round, ms, removed, p)
    ensures NoneInvalid(p.kept)
    decreases V.MAX_ROUNDS - round
  {
    hide NoneInvalid, V.StepTo, V.AtEnd;
    if round >= V.MAX_ROUNDS {
      EndKeepsOut(env, ms, removed);
    } else {
      var q :| V.StepTo(env, round, ms, removed, q)
               && if q.Finished? then p == q else V.EndsIn(env, round + 1, q.kept, q.removed, p);
      StepKeepsOut(env, round, ms, removed, q);
      if q.Continue? { RoundsKeepOut(env, round + 1, q.kept, q.removed, p); }
    }
  }

  lemma EndKeepsOut(env: V.Environment, ms: seq<Mutant>, removed: seq<Mutant>)
    requires NoneInvalid(ms)
    ensures NoneInvalid(V.AtEnd(env, ms, removed).kept)
  {
    hide NoneInvalid, V.Kept, V.Gone, V.MarkIf, V.InPackages, V.FailingPackages;
    if env.builds(V.MAX_ROUNDS).Failed? {
      var bad := V.InPackages(env, V.FailingPackages(env.builds(V.MAX_ROUNDS).errors));
      KeptKeepsOut(ms, bad);
      MarkIfKeepsOut(ms, bad);
    }
  }

  // ---- What a run feeds to the external phases, and what it saves ----

  /** The mutants that are left after preflight and the cache. */
  lemma LiveNeverInvalid(w: World, all: seq<Mutant>, valid: seq<Mutant>, rejections: seq<Rejection>,
                         invalid: seq<Mutant>)
    requires NoneInvalid(all) && CleanCache(w) && Passed(w, all, valid, rejections, invalid)
    ensures NoneInvalid(Each(valid, Restored(w)))
  {
    assert NoneInvalid(valid) by {
      hide Ids, RejectedIds, AllRejected, Recorded, Answered, Survivors;
    }
    EachKeepsOut(valid, Restored(w));
  }

  /** Among mutants of which none is invalid, both phases kill the same. */
  lemma PhasesAgree(w: World, m: Mutant)
    requires GoodWorld(w) && m.status != Invalid
    ensures AfterSuites(w, X.Merged, m).status == Killed <==> AfterSuites(w, X.Late, m).status == Killed
  {
    X.SameKilledSet(w.external, m, X.Flatten(w.suites));
  }

  /** What reaches the external phase of a workspace: the kept mutants, before or after the unit tests. */
  ghost predicate Fed(w: World, ms: seq<Mutant>, m: Mutant) {
    || (w.externalEnabled && m in ms)
    || exists p, o :: V.EndsIn(w.verify, 0, ms, [], p) && o in p.kept && m == BeforeSuites(w, o)
  }

  function BeforeSuites(w: World, m: Mutant): Mutant { if w.beforeUnit then m else AfterUnit(w, m) }

  /**
   In every run whose generated mutants and whose cache hold no invalid one, the external phases end with the same
   mutants killed, whichever of the two is run.
   */
  lemma SameKilledInEveryRun(w: World, all: seq<Mutant>, valid: seq<Mutant>, rejections: seq<Rejection>,
                             invalid: seq<Mutant>, m: Mutant)
    requires GoodWorld(w) && NoneInvalid(all) && CleanCache(w) && Passed(w, all, valid, rejections, invalid)
    requires Fed(w, Each(valid, Restored(w)), m)
    ensures AfterSuites(w, X.Merged, m).status == Killed <==> AfterSuites(w, X.Late, m).status == Killed
  {
    hide GoodWorld, Passed, Each, Restored, AfterUnit, AfterSuites, V.EndsIn;
    var ms := Each(valid, Restored(w));
    LiveNeverInvalid(w, all, valid, rejections, invalid);
    if m !in ms {
      var p, o :| V.EndsIn(w.verify, 0, ms, [], p) && o in p.kept && m == BeforeSuites(w, o);
      RoundsKeepOut(w.verify, 0, ms, [], p);
      StepsKeepOut(w, o);
    }
    PhasesAgree(w, m);
  }

  /** What a run saves is again without invalid mutants, so that the next run finds a clean cache. */
  lemma SavedNeverInvalid(w: World, all: seq<Mutant>, valid: seq<Mutant>, rejections: seq<Rejection>,
                          invalid: seq<Mutant>, p: V.Progress)
    requires GoodWorld(w) && NoneInvalid(all) && CleanCache(w) && Passed(w, all, valid, rejections, invalid)
    requires V.EndsIn(w.verify, 0, Each(valid, Restored(w)), [], p)
    ensures NoneInvalid(Each(Each(p.kept, Executed(w)), Finalized()))
  {
    hide GoodWorld, Passed, Each, Restored, Executed, Finalized, KeepsOut, NoneInvalid, V.EndsIn;
    LiveNeverInvalid(w, all, valid, rejections, invalid);
    RoundsKeepOut(w.verify, 0, Each(valid, Restored(w)), [], p);
    ExecutionKeepsOut(w);
    EachKeepsOut(p.kept, Executed(w));
    EachKeepsOut(Each(p.kept, Executed(w)), Finalized());
  }
}
