/** How the parts fit: the executor's schedules feed the pipeline, and the classifier feeds the executor. */
module Composition {
  import opened Wrappers
  import opened Mutants
  import opened Selection
  import opened Statuses
  import opened Executor
  import P = Pipeline

  /** Every run of a test binary was classified from its output. */
  ghost predicate ClassifiedRuns(ps: seq<Package>) {
    forall i, id: int :: 0 <= i < |ps| ==>
      exists lines, exitError, late :: ps[i].run(id) == Classified(lines, exitError, late)
  }

  lemma RunsArrive(ps: seq<Package>, i: nat, id: int)
    requires ClassifiedRuns(ps) && i < |ps|
    ensures Arrival(ps[i].run(id).status)
  {
    hide Classified;
    var lines, exitError, late :| ps[i].run(id) == Classified(lines, exitError, late);
    ClassifiedArrives(lines, exitError, late);
  }

  lemma {:induction false} ExpectedAllArrive(p: Package, ids: seq<int>)
    requires forall id: int :: Arrival(p.run(id).status)
    ensures P.AllArrive(ExpectedAll(p, ids))
    decreases |ids|
  {
    hide Expected, Arrival;
    if ids != [] {
      ExpectedArrives(p, ids[0]);
      ExpectedAllArrive(p, ids[1..]);
    }
  }

  lemma {:induction false} ResultsArrive(ps: seq<Package>)
    requires forall i, id: int :: 0 <= i < |ps| ==> Arrival(ps[i].run(id).status)
    ensures P.AllArrive(ExpectedResults(ps))
    decreases |ps|
  {
    hide ExpectedAll, Arrival;
    if ps != [] {
      forall id: int ensures Arrival(ps[0].run(id).status) {}
      ExpectedAllArrive(ps[0], ps[0].ids);
      ResultsArrive(ps[1..]);
    }
  }

  /** Whatever the schedule, what the executor returns are statuses of execution, as the pipeline assumes. */
  lemma ScheduleArrives(ps: seq<Package>, n: nat, steps: seq<Step>, t: State, rs: seq<Result>)
    requires ClassifiedRuns(ps) && Runs(n, Init(ps), steps, t) && Done(t) && Returned(t, rs)
    ensures P.AllArrive(rs)
  {
    hide Arrival, ExpectedResults, ClassifiedRuns, Runs;
    EveryScheduleCollects(n, ps, steps, t);
    forall i, id: int | 0 <= i < |ps| ensures Arrival(ps[i].run(id).status) { RunsArrive(ps, i, id); }
    ResultsArrive(ps);
    forall i | 0 <= i < |rs| ensures Arrival(rs[i].status) {
      assert rs[i] in multiset(rs);
      assert rs[i] in multiset(ExpectedResults(ps));
    }
  }

  /** Two runs that differ only in how the goroutines were scheduled, and in the limit, leave every mutant the same. */
  lemma AnyScheduleSameMutants(w: P.World, ps: seq<Package>, n: nat, steps: seq<Step>, t: State, rs: seq<Result>,
                               n': nat, steps': seq<Step>, t': State, rs': seq<Result>, ms: seq<Mutant>)
    requires Distinct(AllIds(ps))
    requires Runs(n, Init(ps), steps, t) && Done(t) && Returned(t, rs)
    requires Runs(n', Init(ps), steps', t') && Done(t') && Returned(t', rs')
    ensures P.Each(ms, P.Executed(w.(unitResults := rs))) == P.Each(ms, P.Executed(w.(unitResults := rs')))
  {
    ScheduleIndependent(ps, n, steps, t, rs, n', steps', t', rs');
  }
}
