/**
 How a mutant ends, said of the results that arrived for it and of the binaries it was run against, without the order of
 statuses that the program uses to get there.
 */
module FinalStatuses {
  import opened Wrappers
  import opened Mutants
  import opened Statuses
  import opened Preflight
  import opened Pipeline
  import V = VerifyClean
  import X = ExternalSuites

  // ---- The fold ----

  /** Where a mutant with a status of its own ends: an invalid one stays, another takes what prevails of all it saw. */
  ghost function EndStatus(own: Status, seen: iset<Status>): Status {
    if own == Invalid then Invalid
    else if own == Killed || Killed in seen then Killed
    else if own == Timeout || Timeout in seen then Timeout
    else if own == Error || Error in seen then Error
    else if own == Survived || Survived in seen then Survived
    else if own == Untested || Untested in seen then Untested
    else own
  }

  ghost function Among(incoming: seq<Status>): iset<Status> { iset s | s in incoming }

  lemma EndStep(own: Status, x: Status, seen: iset<Status>)
    requires Arrival(x)
    ensures EndStatus(Merge(own, x), seen) == EndStatus(own, seen + iset{x})
  {
  }

  /** The fold of the program ends with the status that prevails. */
  lemma {:induction false} FoldPrevails(own: Status, incoming: seq<Status>)
    requires Arrivals(incoming)
    ensures Fold(own, incoming) == EndStatus(own, Among(incoming))
    decreases |incoming|
  {
    if incoming != [] {
      var x, rest := incoming[0], incoming[1..];
      assert Arrival(x);
      FoldPrevails(Merge(own, x), rest);
      EndStep(own, x, Among(rest));
      assert Among(incoming) == Among(rest) + iset{x};
    }
  }

  // ---- Results of one mutant ----

  predicate Told(rs: seq<Result>, id: int, s: Status) { exists r :: r in rs && r.id == id && r.status == s }

  ghost function TellsOf(rs: seq<Result>, id: int): iset<Status> { iset s | Told(rs, id, s) }

  lemma {:induction false} StatusesAmong(id: int, rs: seq<Result>, s: Status)
    ensures s in StatusesFor(id, rs) <==> Told(rs, id, s)
    decreases |rs|
  {
    if rs != [] {
      var front, r := rs[..|rs| - 1], rs[|rs| - 1];
      StatusesAmong(id, front, s);
      assert rs == front + [r];
    }
  }

  /** A mutant ends with what prevails among its own results. */
  lemma ResultsPrevail(m: Mutant, rs: seq<Result>)
    requires AllArrive(rs)
    ensures UpdateAll(m, rs).status == EndStatus(m.status, TellsOf(rs, m.id))
  {
    UpdateAllFolds(m, rs);
    forall r | r in rs ensures Arrival(r.status) {}
    StatusesArrive(m.id, rs);
    FoldPrevails(m.status, StatusesFor(m.id, rs));
    forall s ensures s in StatusesFor(m.id, rs) <==> Told(rs, m.id, s) { StatusesAmong(m.id, rs, s); }
    assert Among(StatusesFor(m.id, rs)) == TellsOf(rs, m.id);
  }

  /** Status and culprit come from one result of the mutant, or the mutant is as it was. */
  lemma {:induction false} TakenFrom(m: Mutant, rs: seq<Result>)
    ensures var u := UpdateAll(m, rs);
            u == m || exists r :: r in rs && r.id == m.id && u == Mutant(m.id, m.file, m.hasNode, r.status, r.killedBy)
    decreases |rs|
  {
    if rs != [] {
      var front, r := rs[..|rs| - 1], rs[|rs| - 1];
      TakenFrom(m, front);
      assert rs == front + [r];
    }
  }

  predicate Tells(r: Result, id: int, s: Status) { r.id == id && r.status == s }

  /** The last result that gives the mutant this status. */
  predicate LastToTell(rs: seq<Result>, id: int, s: Status, i: nat) {
    i < |rs| && Tells(rs[i], id, s) && forall j :: i < j < |rs| ==> !Tells(rs[j], id, s)
  }

  predicate FirstToTell(rs: seq<Result>, id: int, s: Status, i: nat) {
    i < |rs| && Tells(rs[i], id, s) && forall j :: 0 <= j < i ==> !Tells(rs[j], id, s)
  }

  /** The culprit is that of the first result that kills, and for any other status that of the last one to give it. */
  lemma {:induction false} CulpritIs(m: Mutant, rs: seq<Result>)
    requires AllArrive(rs) && m.status != Killed && m.status != Invalid
    ensures var u := UpdateAll(m, rs);
            (u.status == Killed ==> exists i: nat :: FirstToTell(rs, m.id, Killed, i) && u.killedBy == rs[i].killedBy)
            && (u.status != Killed ==>
                  if Told(rs, m.id, u.status)
                  then exists i: nat :: LastToTell(rs, m.id, u.status, i) && u.killedBy == rs[i].killedBy
                  else u == m)
    decreases |rs|
  {
    if rs != [] {
      var n := |rs| - 1;
      var front, r := rs[..n], rs[n];
      assert rs == front + [r];
      assert AllArrive(front);
      CulpritIs(m, front);
      ResultsPrevail(m, front);
      var before, u := UpdateAll(m, front), UpdateAll(m, rs);
      assert u == Update(before, r) && before.id == m.id && Arrival(r.status);
      CulpritStep(m, front, r, before, u);
    }
  }

  lemma CulpritStep(m: Mutant, front: seq<Result>, r: Result, before: Mutant, u: Mutant)
    requires m.status != Killed && m.status != Invalid && before.id == m.id && Arrival(r.status)
    requires u == Update(before, r) && before.status == EndStatus(m.status, TellsOf(front, m.id))
    requires before.status == Killed ==>
               exists i: nat :: FirstToTell(front, m.id, Killed, i) && before.killedBy == front[i].killedBy
    requires before.status != Killed ==>
               if Told(front, m.id, before.status)
               then exists i: nat :: LastToTell(front, m.id, before.status, i) && before.killedBy == front[i].killedBy
               else before == m
    ensures var rs := front + [r];
            (u.status == Killed ==> exists i: nat :: FirstToTell(rs, m.id, Killed, i) && u.killedBy == rs[i].killedBy)
            && (u.status != Killed ==>
                  if Told(rs, m.id, u.status)
                  then exists i: nat :: LastToTell(rs, m.id, u.status, i) && u.killedBy == rs[i].killedBy
                  else u == m)
  {
    var rs, n := front + [r], |front|;
    assert rs[n] == r && forall i :: 0 <= i < n ==> rs[i] == front[i];
    if Tells(r, m.id, u.status) && u.killedBy == r.killedBy && before.status != Killed {
      if u.status == Killed {
        assert !Told(front, m.id, Killed);
        forall j | 0 <= j < n ensures !Tells(rs[j], m.id, Killed) { assert front[j] in front; }
        assert FirstToTell(rs, m.id, Killed, n);
      } else {
        assert LastToTell(rs, m.id, u.status, n);
      }
    } else {
      assert u == before;
      if u.status == Killed {
        var i: nat :| FirstToTell(front, m.id, Killed, i) && before.killedBy == front[i].killedBy;
        assert FirstToTell(rs, m.id, Killed, i);
      } else {
        assert !Tells(r, m.id, u.status);
        if Told(front, m.id, u.status) {
          var i: nat :| LastToTell(front, m.id, u.status, i) && before.killedBy == front[i].killedBy;
          assert LastToTell(rs, m.id, u.status, i);
        }
      }
    }
  }

  // ---- Binaries of external suites ----

  /** Some binary of some suite gives the mutant this status. */
  predicate Found(w: World, id: int, s: Status) {
    exists i, j :: 0 <= i < |w.suites| && 0 <= j < |w.suites[i]| && w.external(w.suites[i][j], id).status == s
  }

  ghost function FindsOf(w: World, id: int): iset<Status> { iset s | Found(w, id, s) }

  lemma {:induction false} InSuites(suites: seq<X.Suite>, b: X.Binary)
    ensures b in X.Flatten(suites) <==> exists i, j :: 0 <= i < |suites| && 0 <= j < |suites[i]| && suites[i][j] == b
    decreases |suites|
  {
    if suites != [] {
      var n := |suites| - 1;
      var front := suites[..n];
      InSuites(front, b);
      if i, j :| 0 <= i < |suites| && 0 <= j < |suites[i]| && suites[i][j] == b {
        if i < n { assert front[i][j] == b; } else { assert b in suites[n]; }
      }
      if b in X.Flatten(front) {
        var i, j :| 0 <= i < |front| && 0 <= j < |front[i]| && front[i][j] == b;
        assert suites[i][j] == b;
      }
      if b in suites[n] {
        var j :| 0 <= j < |suites[n]| && suites[n][j] == b;
        assert suites[n][j] == b;
      }
    }
  }

  lemma {:induction false} ToldByBinaries(run: X.Outcomes, id: int, bs: seq<X.Binary>, s: Status)
    ensures Told(X.AllResults(run, id, bs), id, s) <==> exists b :: b in bs && run(b, id).status == s
    decreases |bs|
  {
    if bs != [] {
      var front, b := bs[..|bs| - 1], bs[|bs| - 1];
      assert bs == front + [b];
      ToldByBinaries(run, id, front, s);
      var r, rest := X.ResultOf(run, b, id), X.AllResults(run, id, front);
      assert X.AllResults(run, id, bs) == rest + [r];
      if run(b, id).status == s { assert r in rest + [r]; }
      if Told(rest, id, s) {
        var x :| x in rest && x.id == id && x.status == s;
        assert x in rest + [r];
      }
    }
  }

  lemma FoundIffTold(w: World, id: int, s: Status)
    ensures Found(w, id, s) <==> Told(X.AllResults(w.external, id, X.Flatten(w.suites)), id, s)
  {
    hide *;
    var bs := X.Flatten(w.suites);
    ToldByBinaries(w.external, id, bs, s);
    FoundInFlat(w, id, s);
  }

  lemma FoundInFlat(w: World, id: int, s: Status)
    ensures Found(w, id, s) <==> exists b :: b in X.Flatten(w.suites) && w.external(b, id).status == s
  {
    hide X.Flatten;
    if Found(w, id, s) {
      var i, j :| 0 <= i < |w.suites| && 0 <= j < |w.suites[i]| && w.external(w.suites[i][j], id).status == s;
      InSuites(w.suites, w.suites[i][j]);
    }
    if b :| b in X.Flatten(w.suites) && w.external(b, id).status == s {
      InSuites(w.suites, b);
      var i, j :| 0 <= i < |w.suites| && 0 <= j < |w.suites[i]| && w.suites[i][j] == b;
      assert w.external(w.suites[i][j], id).status == s;
    }
  }

  /** Run against every binary until it dies, a mutant ends with what prevails among what they find. */
  lemma BinariesPrevail(w: World, m: Mutant)
    requires GoodWorld(w)
    ensures X.AfterAll(X.Merged, w.external, m, X.Flatten(w.suites)).status == EndStatus(m.status, FindsOf(w, m.id))
  {
    hide EndStatus, Told, Found;
    var bs := X.Flatten(w.suites);
    var rs := X.AllResults(w.external, m.id, bs);
    X.SkippingChangesNothing(w.external, m, bs);
    BinariesArrive(w, m.id, bs);
    ResultsPrevail(m, rs);
    forall s ensures Found(w, m.id, s) <==> Told(rs, m.id, s) { FoundIffTold(w, m.id, s); }
    assert FindsOf(w, m.id) == TellsOf(rs, m.id);
  }

  lemma BinariesArrive(w: World, id: int, bs: seq<X.Binary>)
    requires GoodWorld(w)
    ensures AllArrive(X.AllResults(w.external, id, bs))
  {
    X.ResultsArrive(w.external, id, bs);
  }

  // ---- A whole execution ----

  lemma EndTwice(own: Status, seen: iset<Status>, more: iset<Status>)
    ensures EndStatus(EndStatus(own, seen), more) == EndStatus(own, seen + more)
  {
  }

  /**
   Without external suites, or with suites that come last and unit tests that failed to run, only unit tests count.
   */
  lemma UnitOnly(w: World, m: Mutant)
    requires GoodWorld(w) && (!w.externalEnabled || (w.unitFailed && !w.beforeUnit))
    ensures Executed(w)(m).status == EndStatus(m.status, TellsOf(w.unitResults, m.id))
  {
    ResultsPrevail(m, w.unitResults);
  }

  /** Suites before the unit tests: every mutant is run against every binary, and both count. */
  lemma SuitesFirst(w: World, m: Mutant)
    requires GoodWorld(w) && w.externalEnabled && w.beforeUnit
    ensures Executed(w)(m).status == EndStatus(m.status, FindsOf(w, m.id) + TellsOf(w.unitResults, m.id))
  {
    hide EndStatus, FindsOf, TellsOf, X.AfterAll, X.Flatten;
    var a := AfterSuites(w, X.Merged, m);
    BinariesPrevail(w, m);
    ResultsPrevail(a, w.unitResults);
    EndTwice(m.status, FindsOf(w, m.id), TellsOf(w.unitResults, m.id));
  }

  /** A status that suites after the unit tests leave alone. */
  predicate Settled(s: Status) { s == Killed || s == Timeout || s == Invalid || s.Unknown? }

  /**
   Suites after the unit tests: a mutant that the unit tests leave killed, timed out or invalid stays as it is, and so
   does one with a status that is none of the program's; for any other both count.
   */
  lemma SuitesLast(w: World, m: Mutant)
    requires GoodWorld(w) && w.externalEnabled && !w.beforeUnit && !w.unitFailed
    ensures var own := EndStatus(m.status, TellsOf(w.unitResults, m.id));
            if Settled(own) then
              Executed(w)(m) == UpdateAll(m, w.unitResults) && Executed(w)(m).status == own
            else
              Executed(w)(m).status == EndStatus(m.status, TellsOf(w.unitResults, m.id) + FindsOf(w, m.id))
  {
    hide EndStatus, FindsOf, TellsOf, X.AfterAll, X.Flatten, UpdateAll, GoodWorld;
    var a := UpdateAll(m, w.unitResults);
    AllTold(w);
    ResultsPrevail(m, w.unitResults);
    ExecutedLast(w, m);
    if !Settled(a.status) {
      BinariesPrevail(w, a);
      EndTwice(m.status, TellsOf(w.unitResults, m.id), FindsOf(w, m.id));
    }
  }

  lemma AllTold(w: World)
    requires GoodWorld(w)
    ensures AllArrive(w.unitResults)
  {
  }

  lemma TargetUnlessSettled(m: Mutant)
    ensures X.Target(false, m) <==> !Settled(m.status)
  {
  }

  lemma ExecutedLast(w: World, m: Mutant)
    requires w.externalEnabled && !w.beforeUnit && !w.unitFailed
    ensures var a := UpdateAll(m, w.unitResults);
            Executed(w)(m) == if Settled(a.status) then a
                              else X.AfterAll(X.Merged, w.external, a, X.Flatten(w.suites))
  {
    hide X.AfterAll, X.Flatten, UpdateAll, X.Target, Settled;
    TargetUnlessSettled(UpdateAll(m, w.unitResults));
  }

  /**
   Suites after the unit tests: a mutant ends killed exactly if the unit tests kill it, or leave it neither timed out
   nor invalid and some binary kills it.
   */
  lemma KilledLast(w: World, m: Mutant)
    requires GoodWorld(w) && w.externalEnabled && !w.beforeUnit && !w.unitFailed && !m.status.Unknown?
    ensures Executed(w)(m).status == Killed
       <==> m.status != Invalid
            && (m.status == Killed || Told(w.unitResults, m.id, Killed)
                || (m.status != Timeout && !Told(w.unitResults, m.id, Timeout) && Found(w, m.id, Killed)))
  {
    hide Told, Found, GoodWorld, Executed, UpdateAll;
    SuitesLast(w, m);
  }

  /** Suites before the unit tests: a timeout does not protect a mutant from being killed. */
  lemma KilledFirst(w: World, m: Mutant)
    requires GoodWorld(w) && w.externalEnabled && w.beforeUnit
    ensures Executed(w)(m).status == Killed
       <==> m.status != Invalid
            && (m.status == Killed || Told(w.unitResults, m.id, Killed) || Found(w, m.id, Killed))
  {
    hide Told, Found, GoodWorld, Executed, UpdateAll;
    SuitesFirst(w, m);
  }

  /** Suites after the unit tests never touch a mutant that timed out, and before them they may. */
  lemma TimeoutStays(w: World, m: Mutant)
    requires GoodWorld(w) && w.externalEnabled && !w.beforeUnit && !w.unitFailed && m.status != Invalid
    requires m.status != Killed && !Told(w.unitResults, m.id, Killed)
    requires m.status == Timeout || Told(w.unitResults, m.id, Timeout)
    ensures Executed(w)(m) == UpdateAll(m, w.unitResults) && Executed(w)(m).status == Timeout
  {
    hide Told, Found, GoodWorld, Executed, UpdateAll;
    SuitesLast(w, m);
  }

  // ---- Who killed it ----

  /**
   A mutant that binaries kill names the culprit of a killing run, and any other keeps or takes that of a run alike.
   */
  lemma {:induction false} CulpritOfRun(phase: X.Phase, run: X.Outcomes, m: Mutant, bs: seq<X.Binary>)
    ensures var u := X.AfterAll(phase, run, m, bs);
            u.id == m.id && u.file == m.file && u.hasNode == m.hasNode
            && (u.killedBy == m.killedBy || exists b :: b in bs && run(b, m.id).killedBy == u.killedBy)
            && (u.status == Killed && m.status != Killed ==>
                  exists b :: b in bs && run(b, m.id) == RunResult(Killed, u.killedBy))
    decreases |bs|
  {
    if bs != [] {
      var m' := X.After(phase, run, m, bs[0]);
      assert bs == [bs[0]] + bs[1..];
      CulpritOfRun(phase, run, m', bs[1..]);
      if m'.status == Killed { X.KilledStays(phase, run, m', bs[1..]); }
      hide X.AfterAll;
      assert m'.status == Killed && m.status != Killed ==> run(bs[0], m.id) == RunResult(Killed, m'.killedBy);
      assert m'.killedBy == m.killedBy || m'.killedBy == run(bs[0], m.id).killedBy;
    }
  }

  // ---- When everything was cached ----

  lemma {:induction false} LateFindings(run: X.Outcomes, m: Mutant, bs: seq<X.Binary>)
    ensures var u := X.AfterAll(X.Late, run, m, bs);
            u.status == (if m.status == Killed || exists b :: b in bs && run(b, m.id).status == Killed then Killed
                         else if m.status in {Blank, Untested} && exists b :: b in bs && run(b, m.id).status == Survived
                         then Survived
                         else m.status)
    decreases |bs|
  {
    if bs != [] {
      assert bs == [bs[0]] + bs[1..];
      LateFindings(run, X.After(X.Late, run, m, bs[0]), bs[1..]);
    }
  }

  /** With everything cached a binary can only kill a target, or show that one without a result survives. */
  lemma SuitesAlone(w: World, m: Mutant)
    ensures SuitesOnly(w)(m).status
         == if !w.externalEnabled || !(w.beforeUnit || m.status in {Survived, Blank, Untested, Error}) then m.status
            else if m.status == Killed || Found(w, m.id, Killed) then Killed
            else if m.status in {Blank, Untested} && Found(w, m.id, Survived) then Survived
            else m.status
  {
    hide Found, X.AfterAll, X.Flatten;
    LateFindings(w.external, m, X.Flatten(w.suites));
    FoundInFlat(w, m.id, Killed);
    FoundInFlat(w, m.id, Survived);
  }

  // ---- What preflight leaves behind ----

  predicate RejectedWith(rs: seq<Rejection>, id: int, s: Status) { exists r :: r in rs && r.id == id && r.status == s }

  /**
   A rejected mutant is invalid or an error; the compiler is its culprit for an error, and it keeps its own otherwise.
   */
  lemma {:induction false} RejectedAs(m: Mutant, rs: seq<Rejection>)
    requires AllRejected(rs)
    ensures var u := AfterRejections(m, rs);
            && u.file == m.file && u.hasNode == m.hasNode
            && (u.status == if RejectedWith(rs, m.id, Invalid) && !RejectedWith(rs, m.id, Error) then Invalid
                            else if RejectedWith(rs, m.id, Error) && !RejectedWith(rs, m.id, Invalid) then Error
                            else u.status)
            && (!RejectedWith(rs, m.id, Invalid) && !RejectedWith(rs, m.id, Error) ==> u == m)
            && u.killedBy == if RejectedWith(rs, m.id, Error) then "(compiler)" else m.killedBy
    decreases |rs|
  {
    if rs != [] {
      var front, r := rs[..|rs| - 1], rs[|rs| - 1];
      assert rs == front + [r];
      assert r in rs;
      RejectedAs(m, front);
    }
  }

  // ---- What the report says ----

  /**
   After verification the report lists whoever was kept, with the status execution gave it, or untested without one.
   */
  lemma ReportedAs(w: World, p: V.Progress, invalid: seq<Mutant>, result: seq<Mutant>, outcome: Outcome, i: nat)
    requires p.Finished? && WorkspaceEnd(w, p, invalid, result, outcome) && i < |p.kept|
    ensures i < |result| && result[i].id == p.kept[i].id
    ensures var k, e := p.kept[i], Executed(w)(p.kept[i]);
            if !w.packagesMapped then result[i] == Mutant(k.id, k.file, k.hasNode, Error, k.killedBy)
            else if e.status == Blank then result[i] == Mutant(e.id, e.file, e.hasNode, Untested, e.killedBy)
            else result[i] == e
  {
    hide Executed;
    ExecutedId(w, p.kept[i]);
  }

  lemma ExecutedId(w: World, m: Mutant)
    ensures Executed(w)(m).id == m.id
  {
  }

  /** Without a workspace every mutant that had something left to run ends as an error and keeps its culprit. */
  lemma WithoutWorkspace(w: World, valid: seq<Mutant>, invalid: seq<Mutant>, result: seq<Mutant>, outcome: Outcome,
                         i: nat)
    requires ValidRun(w, valid, invalid, result, outcome) && !w.workspaceReady && i < |valid|
    requires exists j :: 0 <= j < |valid| && w.cached(valid[j]).None?
    ensures outcome == Outcome(None, Some(NoWorkspace)) && i < |result|
    ensures result[i] == Mutant(valid[i].id, valid[i].file, valid[i].hasNode, Error, valid[i].killedBy)
  {
  }

  /** A mutant of which nothing is heard ends untested, or as it was found in the cache. */
  lemma Unheard(w: World, m: Mutant)
    requires GoodWorld(w) && (forall s :: !Told(w.unitResults, m.id, s)) && forall s :: !Found(w, m.id, s)
    ensures Finalized()(Executed(w)(m)).status == if m.status == Blank then Untested else m.status
  {
    hide GoodWorld, Told, Found, UpdateAll, X.AfterAll, X.Flatten, X.Target, Executed;
    assert TellsOf(w.unitResults, m.id) == FindsOf(w, m.id) == iset{};
    if !w.externalEnabled || (w.unitFailed && !w.beforeUnit) {
      UnitOnly(w, m);
    } else if w.beforeUnit {
      SuitesFirst(w, m);
    } else {
      SuitesLast(w, m);
    }
  }

  /** The mutants go through verification in a workspace: somebody passed preflight, and not all of them were cached. */
  predicate ToVerify(w: World, valid: seq<Mutant>) {
    w.workspaceReady && valid != [] && exists i :: 0 <= i < |valid| && w.cached(valid[i]).None?
  }

  /**
   A run fails for want of a workspace exactly if one was needed, because something was left to run or because suites
   were to be run in a module that was found.
   */
  lemma NoWorkspaceIff(w: World, valid: seq<Mutant>, invalid: seq<Mutant>, result: seq<Mutant>, outcome: Outcome)
    requires ValidRun(w, valid, invalid, result, outcome)
    ensures outcome.error == Some(NoWorkspace)
       <==> valid != [] && !w.workspaceReady
            && ((exists i :: 0 <= i < |valid| && w.cached(valid[i]).None?) || (w.externalEnabled && w.moduleFound))
  {
    hide Each, V.EndsIn, WorkspaceEnd;
    if ToVerify(w, valid) {
      var p :| V.EndsIn(w.verify, 0, Each(valid, Restored(w)), [], p) && p.Finished?
          && WorkspaceEnd(w, p, invalid, result, outcome);
      ErrorsAre(w, p, invalid, result, outcome);
    }
  }

  /**
   After verification a run fails exactly if verification failed and left nobody, else if the packages could not be
   mapped, else if the unit tests did not run; a failed verification is reported in any case.
   */
  lemma ErrorsAre(w: World, p: V.Progress, invalid: seq<Mutant>, result: seq<Mutant>, outcome: Outcome)
    requires p.Finished? && WorkspaceEnd(w, p, invalid, result, outcome)
    ensures outcome.failure == p.failure
    ensures outcome.error == Some(NotVerified) <==> p.failure.Some? && p.kept == []
    ensures outcome.error == Some(NoPackageMap) <==> (p.failure.None? || p.kept != []) && !w.packagesMapped
    ensures outcome.error == Some(UnitTestsFailed)
       <==> (p.failure.None? || p.kept != []) && w.packagesMapped && w.unitFailed
    ensures outcome.error != Some(NoWorkspace)
  {
  }
}
