/**
 Whom each round of the workspace verification removes, said of the mutants and the answers of the world alone, and what
 that makes of the whole run.
 */
module Removals {
  import opened Wrappers
  import opened Mutants
  import opened Selection
  import opened BisectFile
  import opened VerifyClean

  /** The mutant's copy in the workspace lies in the directory of one of the errors. */
  predicate BesideError(env: Environment, errors: seq<Path>, m: Mutant) {
    m.file.Some?
    && exists e :: e in errors
         && if env.temp(m.file.value).Some? then env.temp(m.file.value).value.dir == e.dir else env.root == e.dir
  }

  /** The mutant is one of those that bisection gave up on. */
  predicate AmongCulprits(ms: seq<Mutant>, bad: seq<Ref>, m: Mutant)
    requires PointsInto(bad, |ms|)
  {
    exists k :: 0 <= k < |bad| && ms[bad[k]].id == m.id
  }

  function AsCompileError(m: Mutant): Mutant { Mutant(m.id, m.file, m.hasNode, Error, "(compiler)") }

  /** Of `ms` those who are hit join the removed ones as compile errors; the others, and nobody else, are kept. */
  ghost predicate Takes(ms: seq<Mutant>, removed: seq<Mutant>, kept: seq<Mutant>, gone: seq<Mutant>,
                        hit: Mutant -> bool) {
    && (forall m :: m in kept <==> m in ms && !hit(m))
    && (forall m :: m in gone <==> m in removed || exists o :: o in ms && hit(o) && m == AsCompileError(o))
  }

  lemma Taken(ms: seq<Mutant>, removed: seq<Mutant>, bad: Mutant -> bool, hit: Mutant -> bool)
    requires forall m :: m in ms ==> (hit(m) <==> bad(m))
    ensures Takes(ms, removed, Kept(ms, bad), Gone(ms, removed, bad), hit)
  {
    var failed := Filter(ms, bad);
    forall o | o in ms && hit(o) ensures AsCompileError(o) in BlameList(failed) {
      var i :| 0 <= i < |failed| && failed[i] == o;
      assert BlameList(failed)[i] == AsCompileError(o);
    }
    forall m | m in BlameList(failed) ensures exists o :: o in ms && hit(o) && m == AsCompileError(o) {
      var i :| 0 <= i < |failed| && m == BlameList(failed)[i];
      assert failed[i] in failed && m == AsCompileError(failed[i]);
    }
  }

  // ---- One round ----

  function Beside(env: Environment, errors: seq<Path>): Mutant -> bool { (m: Mutant) => BesideError(env, errors, m) }

  function Mentioned(ids: seq<int>): Mutant -> bool { (m: Mutant) => m.id in ids }

  function Culprits(ms: seq<Mutant>, bad: seq<Ref>): Mutant -> bool
    requires PointsInto(bad, |ms|)
  {
    (m: Mutant) => AmongCulprits(ms, bad, m)
  }

  lemma SamePackages(env: Environment, errors: seq<Path>, m: Mutant)
    ensures InPackages(env, FailingPackages(errors))(m) <==> BesideError(env, errors, m)
  {
    if BesideError(env, errors, m) {
      var e :| e in errors
        && if env.temp(m.file.value).Some? then env.temp(m.file.value).value.dir == e.dir else env.root == e.dir;
      assert e.dir in FailingPackages(errors);
    }
  }

  /** Quarantine removes a mutant exactly if its copy lies beside an error. */
  lemma QuarantineTakes(env: Environment, ms: seq<Mutant>, removed: seq<Mutant>, errors: seq<Path>)
    ensures var p := ByPackages(env, ms, removed, errors);
            Takes(ms, removed, p.kept, p.removed, Beside(env, errors))
            && (p.Finished? <==> p.kept == []) && (p.Finished? ==> p.failure.None?)
  {
    forall m ensures InPackages(env, FailingPackages(errors))(m) <==> Beside(env, errors)(m) {
      SamePackages(env, errors, m);
    }
    Taken(ms, removed, InPackages(env, FailingPackages(errors)), Beside(env, errors));
    hide Takes, Kept, Gone, InPackages, FailingPackages, Beside;
  }

  /** The last quarantine does the same, and without a reset removes nobody. */
  lemma LastTakes(env: Environment, ms: seq<Mutant>, removed: seq<Mutant>)
    ensures var p, b := AtEnd(env, ms, removed), env.builds(5);
            if b.Built? || b.errors == [] then p == Finished(ms, removed, None)
            else if env.reset
            then p.Finished? && p.failure.None? && Takes(ms, removed, p.kept, p.removed, Beside(env, b.errors))
            else p == Finished(MarkIf(ms, InPackages(env, FailingPackages(b.errors))), removed, Some(ResetFailed))
  {
    if env.builds(5).Failed? {
      var errors := env.builds(5).errors;
      forall m ensures InPackages(env, FailingPackages(errors))(m) <==> Beside(env, errors)(m) {
        SamePackages(env, errors, m);
      }
      Taken(ms, removed, InPackages(env, FailingPackages(errors)), Beside(env, errors));
      hide Takes, Kept, Gone, InPackages, FailingPackages, Beside;
    }
  }

  /** A build that names ids removes exactly their mutants; it goes on if it removed somebody and the files allow it. */
  lemma NamedTakes(env: Environment, round: nat, ms: seq<Mutant>, removed: seq<Mutant>, badIds: seq<int>)
    ensures var p := ByIds(env, round, ms, removed, badIds);
            (p.Continue? <==> (exists m :: m in ms && m.id in badIds) && env.reapplied(round))
            && (p.Continue? ==> Takes(ms, removed, p.kept, p.removed, Mentioned(badIds)))
  {
    var bad := Named(badIds);
    Taken(ms, removed, bad, Mentioned(badIds));
    KeptIffUnnamed(ms, badIds);
    hide Takes, Kept, Gone, MarkAll;
  }

  /** A bisection that found culprits removes exactly them, if the files of the others can be transformed again. */
  lemma CulpritsTaken(env: Environment, round: nat, ms: seq<Mutant>, removed: seq<Mutant>, bad: seq<Ref>)
    requires PointsInto(bad, |ms|)
    ensures var p := ByCulprits(env, round, ms, removed, bad);
            (p.Continue? <==> env.reapplied(round))
            && (p.Continue? ==> Takes(ms, removed, p.kept, p.removed, Culprits(ms, bad)))
            && (p.Finished? ==> p.failure == Some(ReapplyAfterBisection))
  {
    Taken(ms, removed, WithId(IdsAt(ms, bad)), Culprits(ms, bad));
    hide Takes, Kept, Gone, MarkAll;
  }

  /**
   The mark of an abort: a mutant without a status becomes untested; that the compiler did it is said where ids were.
   */
  lemma {:induction false} Marked(ms: seq<Mutant>, compiler: bool)
    ensures |MarkAll(ms, compiler)| == |ms|
    ensures forall i :: 0 <= i < |ms| ==>
              MarkAll(ms, compiler)[i] == if ms[i].status != Blank then ms[i]
                else Mutant(ms[i].id, ms[i].file, ms[i].hasNode, Untested,
                            if compiler then "(compiler)" else ms[i].killedBy)
    decreases |ms|
  {
    if ms != [] { Marked(ms[1..], compiler); }
  }

  function Unsettled(m: Mutant, killer: string): Mutant {
    if m.status == Blank then Mutant(m.id, m.file, m.hasNode, Untested, killer) else m
  }

  lemma MarkedMembers(ms: seq<Mutant>, compiler: bool, k: Mutant)
    ensures k in MarkAll(ms, compiler)
       <==> exists m :: m in ms && k == Unsettled(m, if compiler then "(compiler)" else m.killedBy)
  {
    Marked(ms, compiler);
    hide MarkAll;
    if m :| m in ms && k == Unsettled(m, if compiler then "(compiler)" else m.killedBy) {
      var i :| 0 <= i < |ms| && ms[i] == m;
      assert MarkAll(ms, compiler)[i] == k;
    }
  }

  /**
   A round that removes ids gives up if it named nobody or the files cannot be transformed again, and marks the rest.
   */
  lemma NamedAborts(env: Environment, round: nat, ms: seq<Mutant>, removed: seq<Mutant>, badIds: seq<int>, k: Mutant)
    requires ByIds(env, round, ms, removed, badIds).Finished?
    ensures var p := ByIds(env, round, ms, removed, badIds);
            (k in p.kept <==> exists m :: m in ms && m.id !in badIds && k == Unsettled(m, "(compiler)"))
            && p.failure == Some(if exists m :: m in ms && m.id in badIds then ReapplyAfterRemoval else NoneRemoved)
  {
    KeptIffUnnamed(ms, badIds);
    MarkedMembers(Kept(ms, Named(badIds)), true, k);
    hide MarkAll, Gone, Unsettled;
  }

  /** A bisection whose culprits cannot be taken out of the files marks the rest without naming the compiler. */
  lemma CulpritsAbort(env: Environment, round: nat, ms: seq<Mutant>, removed: seq<Mutant>, bad: seq<Ref>, k: Mutant)
    requires PointsInto(bad, |ms|) && ByCulprits(env, round, ms, removed, bad).Finished?
    ensures k in ByCulprits(env, round, ms, removed, bad).kept
       <==> exists m :: m in ms && !AmongCulprits(ms, bad, m) && k == Unsettled(m, m.killedBy)
  {
    var isBad := WithId(IdsAt(ms, bad));
    assert forall m :: isBad(m) <==> AmongCulprits(ms, bad, m);
    MarkedMembers(Kept(ms, isBad), false, k);
    hide MarkAll, Gone, Unsettled, AmongCulprits, WithId, IdsAt;
  }

  /** A last quarantine without a reset marks its members in place. */
  lemma {:induction false} MarkedBeside(env: Environment, errors: seq<Path>, ms: seq<Mutant>)
    ensures var r := MarkIf(ms, InPackages(env, FailingPackages(errors)));
            |r| == |ms|
            && forall i :: 0 <= i < |ms| ==> r[i] == if BesideError(env, errors, ms[i]) then AsCompileError(ms[i])
                 else ms[i]
    decreases |ms|
  {
    hide BesideError, InPackages, FailingPackages;
    if ms != [] {
      MarkedBeside(env, errors, ms[1..]);
      SamePackages(env, errors, ms[0]);
    }
  }

  // ---- Which files are bisected, and with which mutants ----

  /** A file is bisected with all its mutants, in their order. */
  lemma {:induction false} PositionsExactly(ms: seq<Mutant>, f: string)
    ensures var r := PositionsOf(ms, f);
            (forall i: nat :: i in r <==> i < |ms| && ms[i].file == Some(f))
            && (forall a, b :: 0 <= a < b < |r| ==> r[a] < r[b])
    decreases |ms|
  {
    if ms != [] {
      var n := |ms| - 1;
      var before := PositionsOf(ms[..n], f);
      PositionsExactly(ms[..n], f);
      forall a | 0 <= a < |before| ensures before[a] < n { assert before[a] in before; }
      assert PositionsOf(ms, f) == before + if ms[n].file == Some(f) then [n] else [];
    }
  }

  predicate StandsAt(env: Environment, m: Mutant, p: Path) { m.file.Some? && env.temp(m.file.value) == Some(p) }

  /** Of the mutants whose copy stands at a path, the last one. */
  predicate LastAt(env: Environment, ms: seq<Mutant>, p: Path, i: nat) {
    i < |ms| && StandsAt(env, ms[i], p) && forall j :: i < j < |ms| ==> !StandsAt(env, ms[j], p)
  }

  /** A workspace path stands for the file of the last mutant whose copy it is. */
  lemma {:induction false} SourceExactly(env: Environment, ms: seq<Mutant>, p: Path)
    ensures var r := SourceAt(env, ms, p);
            if r.None? then forall m :: m in ms ==> !StandsAt(env, m, p)
            else exists i: nat :: LastAt(env, ms, p, i) && ms[i].file == r
    decreases |ms|
  {
    if ms != [] {
      var n := |ms| - 1;
      var front := ms[..n];
      assert ms == front + [ms[n]];
      SourceExactly(env, front, p);
      if StandsAt(env, ms[n], p) {
        assert LastAt(env, ms, p, n);
      } else if SourceAt(env, front, p).Some? {
        var i: nat :| LastAt(env, front, p, i) && front[i].file == SourceAt(env, front, p);
        forall j | i < j < |ms| ensures !StandsAt(env, ms[j], p) {
          if j < n { assert ms[j] == front[j]; }
        }
        assert LastAt(env, ms, p, i) && ms[i] == front[i];
      }
    }
  }

  /** Some error lies in a file that holds a mutant. */
  predicate Touched(env: Environment, ms: seq<Mutant>, errors: seq<Path>) {
    exists m, e :: m in ms && e in errors && StandsAt(env, m, e)
  }

  lemma TouchedFails(env: Environment, ms: seq<Mutant>, errors: seq<Path>)
    ensures Failing(env, ms, errors) != {} <==> Touched(env, ms, errors)
  {
    hide SourceAt;
    forall e ensures SourceAt(env, ms, e).Some? <==> exists m :: m in ms && StandsAt(env, m, e) {
      SourceExactly(env, ms, e);
    }
    if Touched(env, ms, errors) {
      var m, e :| m in ms && e in errors && StandsAt(env, m, e);
      assert SourceAt(env, ms, e).value in Failing(env, ms, errors);
    }
  }

  // ---- A whole run ----

  /** A round: the list it met, and the order in which bisection visited the failing files, if it came to that. */
  datatype Round = Round(ms: seq<Mutant>, order: seq<string>)

  /** There is nothing to do: the build succeeded, or its errors name nobody and touch no file that holds a mutant. */
  predicate Quiet(env: Environment, round: nat, ms: seq<Mutant>) {
    var b := env.builds(round);
    b.Built? || (b.badIds == [] && !Touched(env, ms, b.errors))
  }

  /** Whom a round blames: those named, else those bisection found, else all beside an error. */
  predicate Blames(env: Environment, round: nat, r: Round, m: Mutant) {
    match env.builds(round)
    case Built => false
    case Failed(badIds, errors) =>
      if round == 5 then BesideError(env, errors, m)
      else if badIds != [] then m.id in badIds
      else if !Touched(env, r.ms, errors) then false
      else
        var bad := FoundIn(env.verdict(round), r.ms, r.order).bad;
        if bad == [] then BesideError(env, errors, m) else AmongCulprits(r.ms, bad, m)
  }

  /** Bisection visits each file once that an error path stands for. */
  ghost predicate Visits(env: Environment, round: nat, r: Round) {
    var b := env.builds(round);
    round < 5 && b.Failed? && b.badIds == [] && Touched(env, r.ms, b.errors) ==>
      Distinct(r.order)
      && forall f :: f in r.order <==> exists e :: e in b.errors && SourceAt(env, r.ms, e) == Some(f)
  }

  /** The rounds of a run from `round` on: each goes on with those the one before did not blame. */
  ghost predicate History(env: Environment, round: nat, log: seq<Round>)
    decreases |log|
  {
    log != [] && Visits(env, round, log[0]) &&
    if |log| == 1 then
      round == 5 || Quiet(env, round, log[0].ms) || forall m :: m in log[0].ms
                                                               ==> Blames(env, round, log[0], m)
    else
      round < 5 && !Quiet(env, round, log[0].ms)
      && (forall m :: m in log[1].ms <==> m in log[0].ms && !Blames(env, round, log[0], m))
      && History(env, round + 1, log[1..])
  }

  predicate EverBlamed(env: Environment, round: nat, log: seq<Round>, m: Mutant) {
    exists i :: 0 <= i < |log| && Blames(env, round + i, log[i], m)
  }

  function BlamedIn(env: Environment, round: nat, log: seq<Round>): Mutant -> bool {
    (m: Mutant) => EverBlamed(env, round, log, m)
  }

  function BlamedBy(env: Environment, round: nat, r: Round): Mutant -> bool { (m: Mutant) => Blames(env, round, r, m) }

  lemma BlamedLater(env: Environment, round: nat, r: Round, log: seq<Round>, m: Mutant)
    ensures EverBlamed(env, round, [r] + log, m) <==> Blames(env, round, r, m) || EverBlamed(env, round + 1, log, m)
  {
    hide Blames;
    var all := [r] + log;
    if Blames(env, round, r, m) { assert Blames(env, round + 0, all[0], m); }
    if EverBlamed(env, round + 1, log, m) {
      var i :| 0 <= i < |log| && Blames(env, round + 1 + i, log[i], m);
      assert Blames(env, round + (i + 1), all[i + 1], m);
    }
    if EverBlamed(env, round, all, m) {
      var i :| 0 <= i < |all| && Blames(env, round + i, all[i], m);
      if i > 0 { assert Blames(env, round + 1 + (i - 1), log[i - 1], m); }
    }
  }

  lemma SameTakes(ms: seq<Mutant>, removed: seq<Mutant>, kept: seq<Mutant>, gone: seq<Mutant>, hit: Mutant -> bool,
                  hit': Mutant -> bool)
    requires Takes(ms, removed, kept, gone, hit) && forall m :: hit(m) <==> hit'(m)
    ensures Takes(ms, removed, kept, gone, hit')
  {
  }

  lemma NobodyTaken(ms: seq<Mutant>, removed: seq<Mutant>, hit: Mutant -> bool)
    requires forall m :: !hit(m)
    ensures Takes(ms, removed, ms, removed, hit)
  {
  }

  /** Taking twice takes those hit by either. */
  lemma TakesTwice(ms: seq<Mutant>, removed: seq<Mutant>, kept: seq<Mutant>, gone: seq<Mutant>, kept': seq<Mutant>,
                   gone': seq<Mutant>, hit: Mutant -> bool, later: Mutant -> bool, either: Mutant -> bool)
    requires Takes(ms, removed, kept, gone, hit) && Takes(kept, gone, kept', gone', later)
    requires forall m :: either(m) <==> hit(m) || later(m)
    ensures Takes(ms, removed, kept', gone', either)
  {
  }

  lemma BlamedAlone(env: Environment, round: nat, r: Round)
    ensures forall m :: BlamedIn(env, round, [r])(m) <==> BlamedBy(env, round, r)(m)
  {
    forall m ensures EverBlamed(env, round, [r], m) <==> Blames(env, round, r, m) {
      BlamedLater(env, round, r, [], m);
      assert [r] + [] == [r];
    }
  }

  /** One round without an error takes whom it blames. */
  lemma StepTakes(env: Environment, round: nat, ms: seq<Mutant>, removed: seq<Mutant>, q: Progress) returns (r: Round)
    requires round < 5 && StepTo(env, round, ms, removed, q) && (q.Finished? ==> q.failure.None?)
    ensures r.ms == ms && Visits(env, round, r)
    ensures Takes(ms, removed, q.kept, q.removed, BlamedBy(env, round, r))
    ensures q.Finished? ==> Quiet(env, round, ms) || q.kept == []
    ensures q.Continue? ==> !Quiet(env, round, ms)
  {
    hide Takes, Failing, FoundIn, ByIds, ByPackages, ByCulprits, BesideError, AmongCulprits, Touched;
    var b := env.builds(round);
    r := Round(ms, []);
    if b.Built? {
      NobodyTaken(ms, removed, BlamedBy(env, round, r));
    } else if b.badIds != [] {
      NamedTakes(env, round, ms, removed, b.badIds);
      ByIdsEnds(env, round, ms, removed, b.badIds);
      SameTakes(ms, removed, q.kept, q.removed, Mentioned(b.badIds), BlamedBy(env, round, r));
    } else {
      TouchedFails(env, ms, b.errors);
      if !Touched(env, ms, b.errors) {
        NobodyTaken(ms, removed, BlamedBy(env, round, r));
      } else {
        var order :| OrderOf(order, Failing(env, ms, b.errors))
          && q == AfterOrder(env, round, ms, removed, b.errors, order);
        r := Round(ms, order);
        VisitsOrder(env, round, r);
        BisectionTakes(env, round, r, removed, q);
      }
    }
  }

  lemma ByIdsEnds(env: Environment, round: nat, ms: seq<Mutant>, removed: seq<Mutant>, badIds: seq<int>)
    ensures var p := ByIds(env, round, ms, removed, badIds); p.Finished? ==> p.failure.Some?
  {
    hide Kept, Gone, MarkAll;
  }

  lemma VisitsOrder(env: Environment, round: nat, r: Round)
    requires env.builds(round).Failed? && OrderOf(r.order, Failing(env, r.ms, env.builds(round).errors))
    ensures Visits(env, round, r)
  {
    hide SourceAt, Touched;
  }

  lemma BisectionTakes(env: Environment, round: nat, r: Round, removed: seq<Mutant>, q: Progress)
    requires round < 5 && env.builds(round).Failed? && env.builds(round).badIds == []
    requires Touched(env, r.ms, env.builds(round).errors)
    requires q == AfterOrder(env, round, r.ms, removed, env.builds(round).errors, r.order)
    requires q.Finished? ==> q.failure.None?
    ensures Takes(r.ms, removed, q.kept, q.removed, BlamedBy(env, round, r)) && (q.Finished? ==> q.kept == [])
  {
    hide Takes, FoundIn, ByPackages, ByCulprits, BesideError, AmongCulprits, Touched;
    var errors := env.builds(round).errors;
    var bad := FoundIn(env.verdict(round), r.ms, r.order).bad;
    if bad == [] {
      QuarantineTakes(env, r.ms, removed, errors);
      SameTakes(r.ms, removed, q.kept, q.removed, Beside(env, errors), BlamedBy(env, round, r));
    } else {
      CulpritsTaken(env, round, r.ms, removed, bad);
      SameTakes(r.ms, removed, q.kept, q.removed, Culprits(r.ms, bad), BlamedBy(env, round, r));
    }
  }

  lemma EndTakes(env: Environment, ms: seq<Mutant>, removed: seq<Mutant>)
    requires AtEnd(env, ms, removed).Finished? && AtEnd(env, ms, removed).failure.None?
    ensures var p := AtEnd(env, ms, removed);
            Takes(ms, removed, p.kept, p.removed, BlamedBy(env, 5, Round(ms, [])))
  {
    hide Takes, AtEnd;
    LastTakes(env, ms, removed);
    var p, b, hit := AtEnd(env, ms, removed), env.builds(5), BlamedBy(env, 5, Round(ms, []));
    if b.Built? || b.errors == [] {
      NobodyTaken(ms, removed, hit);
    } else {
      SameTakes(ms, removed, p.kept, p.removed, Beside(env, b.errors), hit);
    }
  }

  /**
   However the rounds end without an error, they have a history, and a mutant is removed, as a compile error, if and
   only if one of its rounds blamed it; every other mutant is kept as it was.
   */
  lemma {:induction false} RunTakes(env: Environment, round: nat, ms: seq<Mutant>, removed: seq<Mutant>, p: Progress)
    returns (log: seq<Round>)
    requires round <= 5 && EndsIn(env, round, ms, removed, p) && p.Finished? && p.failure.None?
    ensures History(env, round, log) && log[0].ms == ms
    ensures Takes(ms, removed, p.kept, p.removed, BlamedIn(env, round, log))
    decreases 5 - round
  {
    hide Takes, StepTo, AtEnd, Blames, EverBlamed, Quiet, Visits;
    if round == 5 {
      EndTakes(env, ms, removed);
      log := [Round(ms, [])];
      assert Visits(env, round, log[0]) by { NoVisits(env, log[0]); }
      BlamedAlone(env, round, log[0]);
      SameTakes(ms, removed, p.kept, p.removed, BlamedBy(env, round, log[0]), BlamedIn(env, round, log));
    } else {
      var q :| StepTo(env, round, ms, removed, q)
               && if q.Finished? then p == q else EndsIn(env, round + 1, q.kept, q.removed, p);
      var r := StepTakes(env, round, ms, removed, q);
      if q.Finished? {
        log := [r];
        BlamedAlone(env, round, r);
        if q.kept == [] { AllTaken(ms, removed, q.removed, BlamedBy(env, round, r)); }
        SameTakes(ms, removed, p.kept, p.removed, BlamedBy(env, round, r), BlamedIn(env, round, log));
      } else {
        var rest := RunTakes(env, round + 1, q.kept, q.removed, p);
        log := [r] + rest;
        assert log[1..] == rest;
        forall m ensures EverBlamed(env, round, log, m)
                    <==> Blames(env, round, r, m) || EverBlamed(env, round + 1, rest, m)
        {
          BlamedLater(env, round, r, rest, m);
        }
        WhoIsKept(ms, removed, q.kept, q.removed, BlamedBy(env, round, r));
        TakesTwice(ms, removed, q.kept, q.removed, p.kept, p.removed, BlamedBy(env, round, r),
                   BlamedIn(env, round + 1, rest), BlamedIn(env, round, log));
      }
    }
  }

  lemma NoVisits(env: Environment, r: Round)
    ensures Visits(env, 5, r)
  {
  }

  lemma AllTaken(ms: seq<Mutant>, removed: seq<Mutant>, gone: seq<Mutant>, hit: Mutant -> bool)
    requires Takes(ms, removed, [], gone, hit)
    ensures forall m :: m in ms ==> hit(m)
  {
  }

  lemma WhoIsKept(ms: seq<Mutant>, removed: seq<Mutant>, kept: seq<Mutant>, gone: seq<Mutant>, hit: Mutant -> bool)
    requires Takes(ms, removed, kept, gone, hit)
    ensures forall m :: m in kept <==> m in ms && !hit(m)
  {
  }
}
