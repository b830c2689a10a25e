/**
 Concurrent execution of all packages: compile workers and test jobs, both in limited pools, hand
 their results to one collector over a channel without a buffer.
 */
module Executor {
  import opened Wrappers
  import opened Mutants
  import opened Selection
  import opened Statuses

  // ---- What a compile worker does with its mutants ----

  /** A result sent by the worker itself, or a test job started for it. */
  datatype Action = Send(result: Result) | Spawn(result: Result)

  /** What the world says about one package. */
  datatype Package = Package(
    ids: seq<int>,
    hasTests: bool,
    compileError: int -> Option<string>,
    binaryExists: bool,
    mutant: int -> Option<Mutant>,
    run: int -> RunResult)

  /** A mutant that did not compile is an error; the compiler is blamed when the error was found in its own block. */
  function ErrorFor(p: Package, id: int): Option<Result> {
    match p.compileError(id)
    case None => None
    case Some(killer) => Some(Result(id, Error, killer))
  }

  /** First pass over the ids: those with a compile error. */
  function SendErrors(p: Package, ids: seq<int>): seq<Action> {
    if ids == [] then [] else
      (if ErrorFor(p, ids[0]).Some? then [Send(ErrorFor(p, ids[0]).value)] else []) + SendErrors(p, ids[1..])
  }

  /** What becomes of a mutant that compiled: an error without a binary, its earlier status, or a test run. */
  function Survivor(p: Package, id: int): Action {
    if !p.binaryExists then Send(Result(id, Error, COMPILER))
    else
      var m := p.mutant(id);
      if m.Some? && m.value.status in {Untested, Error} then Send(Result(id, m.value.status, m.value.killedBy))
      else Spawn(Result(id, p.run(id).status, p.run(id).killedBy))
  }

  /** Second pass: the others. */
  function SendOthers(p: Package, ids: seq<int>): seq<Action> {
    if ids == [] then [] else
      (if ErrorFor(p, ids[0]).None? then [Survivor(p, ids[0])] else []) + SendOthers(p, ids[1..])
  }

  function SendUntested(ids: seq<int>): seq<Action> {
    if ids == [] then [] else [Send(Result(ids[0], Untested, ""))] + SendUntested(ids[1..])
  }

  function Plan(p: Package): seq<Action> {
    if !p.hasTests then SendUntested(p.ids) else SendErrors(p, p.ids) + SendOthers(p, p.ids)
  }

  /** The one result each mutant of a package gets, whatever the schedule. */
  function Expected(p: Package, id: int): Result {
    if !p.hasTests then Result(id, Untested, "")
    else if ErrorFor(p, id).Some? then ErrorFor(p, id).value
    else Survivor(p, id).result
  }

  function ExpectedAll(p: Package, ids: seq<int>): seq<Result> {
    if ids == [] then [] else [Expected(p, ids[0])] + ExpectedAll(p, ids[1..])
  }

  function Results(actions: seq<Action>): seq<Result> {
    if actions == [] then [] else [actions[0].result] + Results(actions[1..])
  }

  lemma {:induction false} ResultsAppend(a: seq<Action>, b: seq<Action>)
    ensures Results(a + b) == Results(a) + Results(b)
    decreases |a|
  {
    if a == [] {
      assert a + b == b;
    } else {
      assert (a + b)[1..] == a[1..] + b;
      ResultsAppend(a[1..], b);
    }
  }

  lemma {:induction false} UntestedIsExpected(p: Package, ids: seq<int>)
    requires !p.hasTests
    ensures Results(SendUntested(ids)) == ExpectedAll(p, ids)
    decreases |ids|
  {
    if ids != [] {
      UntestedIsExpected(p, ids[1..]);
      ResultsAppend([Send(Result(ids[0], Untested, ""))], SendUntested(ids[1..]));
    }
  }

  lemma PassesCons(p: Package, id: int, ids: seq<int>)
    requires p.hasTests
    ensures Results(SendErrors(p, [id] + ids))
            == (if ErrorFor(p, id).Some? then [Expected(p, id)] else []) + Results(SendErrors(p, ids))
    ensures Results(SendOthers(p, [id] + ids))
            == (if ErrorFor(p, id).None? then [Expected(p, id)] else []) + Results(SendOthers(p, ids))
    ensures ExpectedAll(p, [id] + ids) == [Expected(p, id)] + ExpectedAll(p, ids)
  {
    hide ErrorFor, Survivor;
    assert ([id] + ids)[1..] == ids;
    if ErrorFor(p, id).Some? {
      ResultsAppend([Send(ErrorFor(p, id).value)], SendErrors(p, ids));
      assert SendOthers(p, [id] + ids) == SendOthers(p, ids);
    } else {
      ResultsAppend([Survivor(p, id)], SendOthers(p, ids));
      assert SendErrors(p, [id] + ids) == SendErrors(p, ids);
    }
  }

  lemma {:induction false} PassesAreExpected(p: Package, ids: seq<int>)
    requires p.hasTests
    ensures multiset(Results(SendErrors(p, ids))) + multiset(Results(SendOthers(p, ids)))
            == multiset(ExpectedAll(p, ids))
    decreases |ids|
  {
    if ids != [] {
      hide *;
      var id, rest := ids[0], ids[1..];
      assert ids == [id] + rest;
      PassesAreExpected(p, rest);
      PassesCons(p, id, rest);
    }
  }

  /** Across the two passes and the early exits, each mutant of a package is planned exactly once. */
  lemma PlanIsExpected(p: Package)
    ensures multiset(Results(Plan(p))) == multiset(ExpectedAll(p, p.ids))
  {
    if p.hasTests {
      PassesAreExpected(p, p.ids);
      ResultsAppend(SendErrors(p, p.ids), SendOthers(p, p.ids));
    } else {
      UntestedIsExpected(p, p.ids);
    }
  }

  /** Only statuses of execution are sent. */
  lemma ExpectedArrives(p: Package, id: int)
    requires Arrival(p.run(id).status)
    ensures Arrival(Expected(p, id).status) && Expected(p, id).id == id
  {
  }

  // ---- The step system ----

  /** A test job: its mutant is running, or its result waits to be handed over. */
  datatype Job = Running(result: Result) | Ready(result: Result)

  /**
   Packages not yet started, what each compile worker has left to do, the test jobs, the result the
   collector has received but not stored, the stored results, and whether the channel is closed.
   */
  datatype State = State(
    waiting: seq<seq<Action>>,
    workers: seq<seq<Action>>,
    jobs: seq<Job>,
    holding: Option<Result>,
    collected: seq<Result>,
    closed: bool)

  datatype Step =
    | Start                 // the loop over packages gets a worker slot
    | HandOver(w: nat)      // worker w sends, the collector receives
    | Launch(w: nat)        // worker w gets a test slot for its next mutant
    | Leave(w: nat)         // worker w is done and frees its slot
    | Finish(j: nat)        // the test binary of job j has exited
    | Deliver(j: nat)       // job j sends, the collector receives, the test slot is free
    | Store                 // the collector appends under the lock
    | Close                 // both groups have been waited for

  predicate Enabled(n: nat, s: State, step: Step) {
    match step
    case Start => s.waiting != [] && |s.workers| < n
    case HandOver(w) => w < |s.workers| && s.workers[w] != [] && s.workers[w][0].Send? && s.holding.None?
    case Launch(w) => w < |s.workers| && s.workers[w] != [] && s.workers[w][0].Spawn? && |s.jobs| < n
    case Leave(w) => w < |s.workers| && s.workers[w] == []
    case Finish(j) => j < |s.jobs| && s.jobs[j].Running?
    case Deliver(j) => j < |s.jobs| && s.jobs[j].Ready? && s.holding.None?
    case Store => s.holding.Some?
    case Close => !s.closed && s.waiting == [] && s.workers == [] && s.jobs == []
  }

  function Without<T>(s: seq<T>, i: nat): seq<T>
    requires i < |s|
  {
    s[..i] + s[i + 1..]
  }

  function Next(n: nat, s: State, step: Step): State
    requires Enabled(n, s, step)
  {
    match step
    case Start => State(s.waiting[1..], s.workers + [s.waiting[0]], s.jobs, s.holding, s.collected, s.closed)
    case HandOver(w) =>
      State(s.waiting, s.workers[w := s.workers[w][1..]], s.jobs, Some(s.workers[w][0].result), s.collected, s.closed)
    case Launch(w) =>
      State(s.waiting, s.workers[w := s.workers[w][1..]], s.jobs + [Running(s.workers[w][0].result)],
            s.holding, s.collected, s.closed)
    case Leave(w) => State(s.waiting, Without(s.workers, w), s.jobs, s.holding, s.collected, s.closed)
    case Finish(j) =>
      State(s.waiting, s.workers, s.jobs[j := Ready(s.jobs[j].result)], s.holding, s.collected, s.closed)
    case Deliver(j) => State(s.waiting, s.workers, Without(s.jobs, j), Some(s.jobs[j].result), s.collected, s.closed)
    case Store => State(s.waiting, s.workers, s.jobs, None, s.collected + [s.holding.value], s.closed)
    case Close => State(s.waiting, s.workers, s.jobs, s.holding, s.collected, true)
  }

  predicate Done(s: State) { s.closed && s.holding.None? }

  function Plans(ps: seq<Package>): seq<seq<Action>> {
    if ps == [] then [] else [Plan(ps[0])] + Plans(ps[1..])
  }

  function Init(ps: seq<Package>): State { State(Plans(ps), [], [], None, [], false) }

  // ---- Conservation ----

  function ListResults(lists: seq<seq<Action>>): multiset<Result> {
    if lists == [] then multiset{} else multiset(Results(lists[0])) + ListResults(lists[1..])
  }

  function JobResults(jobs: seq<Job>): multiset<Result> {
    if jobs == [] then multiset{} else multiset{jobs[0].result} + JobResults(jobs[1..])
  }

  function Held(o: Option<Result>): multiset<Result> { if o.Some? then multiset{o.value} else multiset{} }

  /** Where every result is: planned, in progress, in the collector's hand, or stored. */
  function AllResults(s: State): multiset<Result> {
    ListResults(s.waiting) + ListResults(s.workers) + JobResults(s.jobs) + Held(s.holding) + multiset(s.collected)
  }

  lemma WithoutCons<T>(head: T, tail: seq<T>, i: nat)
    requires i <= |tail|
    ensures Without([head] + tail, i) == if i == 0 then tail else [head] + Without(tail, i - 1)
  {
  }

  lemma {:induction false} ListsSplit(lists: seq<seq<Action>>, i: nat)
    requires i < |lists|
    ensures ListResults(lists) == ListResults(Without(lists, i)) + multiset(Results(lists[i]))
    decreases |lists|
  {
    hide *;
    var head, tail := lists[0], lists[1..];
    assert lists == [head] + tail;
    ListsCons(head, tail);
    WithoutCons(head, tail, i);
    if i > 0 {
      ListsSplit(tail, i - 1);
      ListsCons(head, Without(tail, i - 1));
    }
  }

  lemma ListsCons(head: seq<Action>, tail: seq<seq<Action>>)
    ensures ListResults([head] + tail) == multiset(Results(head)) + ListResults(tail)
  {
    assert ([head] + tail)[1..] == tail;
  }

  lemma ListsUpdate(lists: seq<seq<Action>>, i: nat, list: seq<Action>)
    requires i < |lists|
    ensures ListResults(lists[i := list]) == ListResults(Without(lists, i)) + multiset(Results(list))
  {
    ListsSplit(lists[i := list], i);
    assert Without(lists[i := list], i) == Without(lists, i);
  }

  lemma ListsSnoc(lists: seq<seq<Action>>, list: seq<Action>)
    ensures ListResults(lists + [list]) == ListResults(lists) + multiset(Results(list))
  {
    ListsSplit(lists + [list], |lists|);
    assert Without(lists + [list], |lists|) == lists;
  }

  lemma {:induction false} JobsSplit(jobs: seq<Job>, i: nat)
    requires i < |jobs|
    ensures JobResults(jobs) == JobResults(Without(jobs, i)) + multiset{jobs[i].result}
    decreases |jobs|
  {
    if i > 0 {
      JobsSplit(jobs[1..], i - 1);
      assert Without(jobs, i)[0] == jobs[0] && Without(jobs, i)[1..] == Without(jobs[1..], i - 1);
    } else {
      assert Without(jobs, 0) == jobs[1..];
    }
  }

  lemma JobsUpdate(jobs: seq<Job>, i: nat, job: Job)
    requires i < |jobs| && job.result == jobs[i].result
    ensures JobResults(jobs[i := job]) == JobResults(jobs)
  {
    JobsSplit(jobs, i);
    JobsSplit(jobs[i := job], i);
    assert Without(jobs[i := job], i) == Without(jobs, i);
  }

  lemma JobsSnoc(jobs: seq<Job>, job: Job)
    ensures JobResults(jobs + [job]) == JobResults(jobs) + multiset{job.result}
  {
    JobsSplit(jobs + [job], |jobs|);
    assert Without(jobs + [job], |jobs|) == jobs;
  }

  /** Taking the next action off a list takes its result away. */
  lemma ListsPop(lists: seq<seq<Action>>, w: nat)
    requires w < |lists| && lists[w] != []
    ensures ListResults(lists) == ListResults(lists[w := lists[w][1..]]) + multiset{lists[w][0].result}
  {
    hide ListResults;
    ListsSplit(lists, w);
    ListsUpdate(lists, w, lists[w][1..]);
    assert Results(lists[w]) == [lists[w][0].result] + Results(lists[w][1..]);
  }

  lemma ListsDrop(lists: seq<seq<Action>>, w: nat)
    requires w < |lists| && lists[w] == []
    ensures ListResults(lists) == ListResults(Without(lists, w))
  {
    ListsSplit(lists, w);
  }

  /** No step loses or doubles a result. */
  lemma StepConserves(n: nat, s: State, step: Step)
    requires Enabled(n, s, step)
    ensures AllResults(Next(n, s, step)) == AllResults(s)
  {
    hide AllResults, Next;
    match step
    case Start => WorkerStepConserves(n, s, step);
    case HandOver(_) => SendConserves(n, s, step);
    case Launch(_) => SendConserves(n, s, step);
    case Leave(_) => WorkerStepConserves(n, s, step);
    case _ => JobStepConserves(n, s, step);
  }

  lemma WorkerStepConserves(n: nat, s: State, step: Step)
    requires Enabled(n, s, step) && (step.Start? || step.Leave?)
    ensures AllResults(Next(n, s, step)) == AllResults(s)
  {
    hide ListResults, JobResults, Results, Without;
    if step.Start? { StartConserves(s.waiting, s.workers); } else { ListsDrop(s.workers, step.w); }
  }

  lemma SendConserves(n: nat, s: State, step: Step)
    requires Enabled(n, s, step) && (step.HandOver? || step.Launch?)
    ensures AllResults(Next(n, s, step)) == AllResults(s)
  {
    hide ListResults, JobResults, Results, Without;
    ListsPop(s.workers, step.w);
    if step.Launch? { JobsSnoc(s.jobs, Running(s.workers[step.w][0].result)); }
  }

  lemma JobStepConserves(n: nat, s: State, step: Step)
    requires Enabled(n, s, step) && (step.Finish? || step.Deliver? || step.Store? || step.Close?)
    ensures AllResults(Next(n, s, step)) == AllResults(s)
  {
    hide AllResults;
    match step
    case Finish(j) => FinishConserves(s, j, Next(n, s, step));
    case Deliver(j) => DeliverConserves(s, j, Next(n, s, step));
    case Store => StoreConserves(s, Next(n, s, step));
    case Close => SameResults(s, Next(n, s, step));
  }

  lemma SameResults(s: State, t: State)
    requires t == s.(closed := t.closed)
    ensures AllResults(t) == AllResults(s)
  {
    hide ListResults, JobResults;
  }

  lemma FinishConserves(s: State, j: nat, t: State)
    requires j < |s.jobs| && t == s.(jobs := s.jobs[j := Ready(s.jobs[j].result)])
    ensures AllResults(t) == AllResults(s)
  {
    JobsUpdate(s.jobs, j, Ready(s.jobs[j].result));
    hide ListResults, JobResults;
  }

  lemma DeliverConserves(s: State, j: nat, t: State)
    requires j < |s.jobs| && s.holding.None? && t == s.(jobs := Without(s.jobs, j), holding := Some(s.jobs[j].result))
    ensures AllResults(t) == AllResults(s)
  {
    JobsSplit(s.jobs, j);
    hide ListResults, JobResults, Without;
    Moved(ListResults(s.waiting) + ListResults(s.workers), JobResults(t.jobs), s.jobs[j].result, multiset(s.collected));
  }

  lemma StoreConserves(s: State, t: State)
    requires s.holding.Some? && t == s.(holding := None, collected := s.collected + [s.holding.value])
    ensures AllResults(t) == AllResults(s)
  {
    hide ListResults, JobResults;
    Stored(ListResults(s.waiting) + ListResults(s.workers) + JobResults(s.jobs), s.holding.value, s.collected);
  }

  lemma Moved(a: multiset<Result>, b: multiset<Result>, r: Result, c: multiset<Result>)
    ensures a + (b + multiset{r}) + multiset{} + c == a + b + multiset{r} + c
  {
  }

  lemma Stored(a: multiset<Result>, r: Result, collected: seq<Result>)
    ensures a + multiset{} + multiset(collected + [r]) == a + multiset{r} + multiset(collected)
  {
  }

  lemma StartConserves(waiting: seq<seq<Action>>, workers: seq<seq<Action>>)
    requires waiting != []
    ensures ListResults(waiting[1..]) + ListResults(workers + [waiting[0]])
            == ListResults(waiting) + ListResults(workers)
  {
    hide Results;
    ListsSnoc(workers, waiting[0]);
  }

  // ---- Limits, progress, termination ----

  /** Both pools respect their limit, and the channel is closed only when nobody can send any more. */
  predicate Inv(n: nat, s: State) {
    |s.workers| <= n && |s.jobs| <= n && (s.closed ==> s.waiting == [] && s.workers == [] && s.jobs == [])
  }

  lemma StepKeepsInv(n: nat, s: State, step: Step)
    requires Enabled(n, s, step) && Inv(n, s)
    ensures Inv(n, Next(n, s, step))
  {
  }

  /** Until the end some step can be taken: no schedule deadlocks. */
  lemma Progress(n: nat, s: State) returns (step: Step)
    requires n >= 1 && Inv(n, s) && !Done(s)
    ensures Enabled(n, s, step)
  {
    if s.holding.Some? {
      step := Store;
    } else if s.jobs != [] {
      step := if s.jobs[0].Running? then Finish(0) else Deliver(0);
    } else if s.workers != [] {
      step := if s.workers[0] == [] then Leave(0) else if s.workers[0][0].Send? then HandOver(0) else Launch(0);
    } else {
      step := if s.waiting != [] then Start else Close;
    }
  }

  /** Without a worker or test slot nothing ever runs. */
  lemma NoSlotsNoProgress(s: State, step: Step)
    requires Inv(0, s) && s.waiting != [] && s.holding.None?
    ensures !Enabled(0, s, step)
  {
  }

  function ListWork(lists: seq<seq<Action>>, extra: nat): nat {
    if lists == [] then 0 else 5 * |lists[0]| + extra + ListWork(lists[1..], extra)
  }

  function JobWork(jobs: seq<Job>): nat {
    if jobs == [] then 0 else (if jobs[0].Running? then 3 else 2) + JobWork(jobs[1..])
  }

  /** An upper bound on the number of steps still to come. */
  function Work(s: State): nat {
    ListWork(s.waiting, 2) + ListWork(s.workers, 1) + JobWork(s.jobs) + (if s.holding.Some? then 1 else 0)
        + if s.closed then 0 else 1
  }

  lemma {:induction false} WorkSplit(lists: seq<seq<Action>>, i: nat, extra: nat)
    requires i < |lists|
    ensures ListWork(lists, extra) == ListWork(Without(lists, i), extra) + 5 * |lists[i]| + extra
    decreases |lists|
  {
    if i > 0 {
      WorkSplit(lists[1..], i - 1, extra);
      assert Without(lists, i)[0] == lists[0] && Without(lists, i)[1..] == Without(lists[1..], i - 1);
    } else {
      assert Without(lists, 0) == lists[1..];
    }
  }

  lemma {:induction false} JobWorkSplit(jobs: seq<Job>, i: nat)
    requires i < |jobs|
    ensures JobWork(jobs) == JobWork(Without(jobs, i)) + if jobs[i].Running? then 3 else 2
    decreases |jobs|
  {
    if i > 0 {
      JobWorkSplit(jobs[1..], i - 1);
      assert Without(jobs, i)[0] == jobs[0] && Without(jobs, i)[1..] == Without(jobs[1..], i - 1);
    } else {
      assert Without(jobs, 0) == jobs[1..];
    }
  }

  lemma StepWorks(n: nat, s: State, step: Step)
    requires Enabled(n, s, step)
    ensures Work(Next(n, s, step)) < Work(s)
  {
    hide ListWork, JobWork, Next;
    match step
    case Start => WorkerStepWorks(n, s, step);
    case HandOver(_) => WorkerStepWorks(n, s, step);
    case Launch(_) => LaunchWorks(n, s, step);
    case Leave(_) => WorkerStepWorks(n, s, step);
    case _ => JobStepWorks(n, s, step);
  }

  lemma WorkerStepWorks(n: nat, s: State, step: Step)
    requires Enabled(n, s, step) && (step.Start? || step.HandOver? || step.Leave?)
    ensures Work(Next(n, s, step)) < Work(s)
  {
    hide ListWork, JobWork;
    var t := Next(n, s, step);
    if step.Start? {
      WorkSplit(s.waiting, 0, 2);
      WorkSplit(t.workers, |s.workers|, 1);
      assert Without(s.waiting, 0) == t.waiting && Without(t.workers, |s.workers|) == s.workers;
    } else {
      WorkSplit(s.workers, step.w, 1);
      if step.HandOver? {
        WorkSplit(t.workers, step.w, 1);
        assert Without(s.workers, step.w) == Without(t.workers, step.w);
      }
    }
  }

  lemma LaunchWorks(n: nat, s: State, step: Step)
    requires Enabled(n, s, step) && step.Launch?
    ensures Work(Next(n, s, step)) < Work(s)
  {
    hide ListWork, JobWork;
    var t := Next(n, s, step);
    WorkSplit(s.workers, step.w, 1);
    WorkSplit(t.workers, step.w, 1);
    assert Without(s.workers, step.w) == Without(t.workers, step.w);
    JobWorkSplit(t.jobs, |s.jobs|);
    assert Without(t.jobs, |s.jobs|) == s.jobs;
  }

  lemma JobStepWorks(n: nat, s: State, step: Step)
    requires Enabled(n, s, step) && (step.Finish? || step.Deliver? || step.Store? || step.Close?)
    ensures Work(Next(n, s, step)) < Work(s)
  {
    hide ListWork, JobWork;
    var t := Next(n, s, step);
    if step.Finish? {
      JobWorkSplit(s.jobs, step.j);
      JobWorkSplit(t.jobs, step.j);
      assert Without(s.jobs, step.j) == Without(t.jobs, step.j);
    } else if step.Deliver? {
      JobWorkSplit(s.jobs, step.j);
    }
  }

  // ---- Whole runs ----

  /** A schedule: steps taken one after the other, each enabled in its turn. */
  ghost predicate Runs(n: nat, s: State, steps: seq<Step>, t: State)
    decreases |steps|
  {
    if steps == [] then s == t else Enabled(n, s, steps[0]) && Runs(n, Next(n, s, steps[0]), steps[1..], t)
  }

  /** Along every schedule the limits hold, nothing is lost, and the length is bounded. */
  lemma {:induction false} RunKeeps(n: nat, s: State, steps: seq<Step>, t: State)
    requires Runs(n, s, steps, t) && Inv(n, s)
    ensures Inv(n, t) && AllResults(t) == AllResults(s) && |steps| + Work(t) <= Work(s)
    decreases |steps|
  {
    if steps != [] {
      StepKeepsInv(n, s, steps[0]);
      StepConserves(n, s, steps[0]);
      StepWorks(n, s, steps[0]);
      RunKeeps(n, Next(n, s, steps[0]), steps[1..], t);
    }
  }

  /** The expected results of all packages, one after the other. */
  function ExpectedResults(ps: seq<Package>): seq<Result> {
    if ps == [] then [] else ExpectedAll(ps[0], ps[0].ids) + ExpectedResults(ps[1..])
  }

  lemma {:induction false} InitHoldsExpected(ps: seq<Package>)
    ensures ListResults(Plans(ps)) == multiset(ExpectedResults(ps))
    decreases |ps|
  {
    if ps != [] {
      InitHoldsExpected(ps[1..]);
      PlanIsExpected(ps[0]);
      assert Plans(ps)[1..] == Plans(ps[1..]);
    }
  }

  /** Every complete schedule stores exactly the expected results, whatever the order. */
  lemma EveryScheduleCollects(n: nat, ps: seq<Package>, steps: seq<Step>, t: State)
    requires Runs(n, Init(ps), steps, t) && Done(t)
    ensures multiset(t.collected) == multiset(ExpectedResults(ps))
  {
    RunKeeps(n, Init(ps), steps, t);
    InitHoldsExpected(ps);
    assert AllResults(Init(ps)) == ListResults(Plans(ps));
    assert AllResults(t) == multiset(t.collected);
  }

  // ---- The sorted list of results ----

  function AllIds(ps: seq<Package>): seq<int> {
    if ps == [] then [] else ps[0].ids + AllIds(ps[1..])
  }

  function ResultIds(rs: seq<Result>): (r: seq<int>)
    ensures |r| == |rs| && forall i :: 0 <= i < |rs| ==> r[i] == rs[i].id
  {
    if rs == [] then [] else [rs[0].id] + ResultIds(rs[1..])
  }

  lemma {:induction false} ResultIdsAppend(a: seq<Result>, b: seq<Result>)
    ensures ResultIds(a + b) == ResultIds(a) + ResultIds(b)
    decreases |a|
  {
    if a == [] {
      assert a + b == b;
    } else {
      assert (a + b)[1..] == a[1..] + b;
      ResultIdsAppend(a[1..], b);
    }
  }

  lemma {:induction false} ExpectedIds(ps: seq<Package>)
    ensures ResultIds(ExpectedResults(ps)) == AllIds(ps)
    decreases |ps|
  {
    if ps != [] {
      ExpectedIds(ps[1..]);
      PackageIds(ps[0], ps[0].ids);
      ResultIdsAppend(ExpectedAll(ps[0], ps[0].ids), ExpectedResults(ps[1..]));
    }
  }

  lemma {:induction false} PackageIds(p: Package, ids: seq<int>)
    ensures ResultIds(ExpectedAll(p, ids)) == ids
    decreases |ids|
  {
    if ids != [] {
      PackageIds(p, ids[1..]);
      ResultIdsAppend([Expected(p, ids[0])], ExpectedAll(p, ids[1..]));
    }
  }

  lemma {:induction false} ResultIdsPermute(a: seq<Result>, b: seq<Result>)
    requires multiset(a) == multiset(b)
    ensures multiset(ResultIds(a)) == multiset(ResultIds(b))
    decreases |a|
  {
    if a == [] {
      assert |multiset(b)| == 0;
    } else {
      var x, rest := a[0], a[1..];
      assert a == [x] + rest;
      var l, r := TakeOut(x, rest, b);
      ResultIdsPermute(rest, l + r);
      ResultIdsAppend(l, r);
      ResultIdsAppend(l + [x], r);
      ResultIdsAppend(l, [x]);
    }
  }

  predicate SortedById(rs: seq<Result>) { forall i, j :: 0 <= i < j < |rs| ==> rs[i].id <= rs[j].id }

  /** The list handed back: the stored results, sorted by id. */
  ghost predicate Returned(t: State, rs: seq<Result>) { multiset(rs) == multiset(t.collected) && SortedById(rs) }

  predicate StrictlyById(rs: seq<Result>) { forall i, j :: 0 <= i < j < |rs| ==> rs[i].id < rs[j].id }

  lemma SameFirst(a: seq<Result>, b: seq<Result>)
    requires multiset(a) == multiset(b) && StrictlyById(a) && SortedById(b) && a != [] && b != []
    ensures a[0] == b[0]
  {
    assert a[0] in multiset(b) && b[0] in multiset(a);
    var i :| 0 <= i < |a| && a[i] == b[0];
    var j :| 0 <= j < |b| && b[j] == a[0];
  }

  lemma {:induction false} SortedUnique(a: seq<Result>, b: seq<Result>)
    requires multiset(a) == multiset(b) && StrictlyById(a) && SortedById(b)
    ensures a == b
    decreases |a|
  {
    assert |a| == |multiset(a)| == |multiset(b)| == |b|;
    if a != [] {
      SameFirst(a, b);
      var x, a', b' := a[0], a[1..], b[1..];
      assert a == [x] + a' && b == [x] + b';
      SameRest(x, a', b');
      SortedUnique(a', b');
    }
  }

  lemma SortedDistinct(rs: seq<Result>)
    requires SortedById(rs) && Distinct(ResultIds(rs))
    ensures StrictlyById(rs)
  {
    forall i, j | 0 <= i < j < |rs| ensures rs[i].id < rs[j].id { assert ResultIds(rs)[i] != ResultIds(rs)[j]; }
  }

  /** Exactly one result per mutant, and the same sorted list for every schedule and every limit. */
  lemma ScheduleIndependent(ps: seq<Package>, n: nat, steps: seq<Step>, t: State, rs: seq<Result>,
                            n': nat, steps': seq<Step>, t': State, rs': seq<Result>)
    requires Distinct(AllIds(ps))
    requires Runs(n, Init(ps), steps, t) && Done(t) && Returned(t, rs)
    requires Runs(n', Init(ps), steps', t') && Done(t') && Returned(t', rs')
    ensures multiset(ResultIds(rs)) == multiset(AllIds(ps)) && rs == rs'
  {
    EveryScheduleCollects(n, ps, steps, t);
    EveryScheduleCollects(n', ps, steps', t');
    ExpectedIds(ps);
    ResultIdsPermute(rs, ExpectedResults(ps));
    hide Runs, Distinct, ResultIds, SortedById, ExpectedResults;
    assert multiset(AllIds(ps)) == multiset(ResultIds(rs)) + multiset([]);
    DistinctRest(AllIds(ps), ResultIds(rs), []);
    SortedDistinct(rs);
    SortedUnique(rs, rs');
  }
}
