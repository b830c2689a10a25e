/**
 What every complete schedule of the executor reports of a mutant, said of what the world answers about its package: the
 tests, the compiler, the binary, an earlier status and the run.
 */
module Verdicts {
  import opened Wrappers
  import opened Mutants
  import opened Selection
  import opened Statuses
  import opened Executor

  /**
   The package builds with the mutant in it: it has tests, no error was found for the mutant, and there is a binary.
   */
  predicate Builds(p: Package, id: int) { p.hasTests && p.compileError(id).None? && p.binaryExists }

  /** An earlier phase has left the mutant with this status, which is passed on instead of running it. */
  predicate PassedOn(p: Package, id: int, s: Status) {
    p.mutant(id).Some? && p.mutant(id).value.status == s && (s == Untested || s == Error)
  }

  /** The mutant is run. */
  predicate IsRun(p: Package, id: int) {
    Builds(p, id) && !PassedOn(p, id, Untested) && !PassedOn(p, id, Error)
  }

  /** A reported result against the answers of the world. */
  ghost predicate Explained(p: Package, r: Result) {
    var ran := p.run(r.id);
    && (r.status == Killed <==> IsRun(p, r.id) && ran.status == Killed)
    && (r.status == Survived <==> IsRun(p, r.id) && ran.status == Survived)
    && (r.status == Timeout <==> IsRun(p, r.id) && ran.status == Timeout)
    && (r.status == Untested <==>
          !p.hasTests || (Builds(p, r.id) && PassedOn(p, r.id, Untested)) || (IsRun(p, r.id) && ran.status == Untested))
    && (r.status == Error <==>
          (p.hasTests && !Builds(p, r.id)) || (Builds(p, r.id) && PassedOn(p, r.id, Error))
          || (IsRun(p, r.id) && ran.status == Error))
    && (p.hasTests && p.compileError(r.id).Some? ==> r.killedBy == p.compileError(r.id).value)
    && (p.hasTests && p.compileError(r.id).None? && !p.binaryExists ==> r.killedBy == "(compiler)")
    && (!p.hasTests ==> r.killedBy == "")
    && (Builds(p, r.id) && !IsRun(p, r.id) ==> r.killedBy == p.mutant(r.id).value.killedBy)
    && (IsRun(p, r.id) ==> r.killedBy == ran.killedBy)
  }

  lemma ExpectedExplained(p: Package, id: int)
    requires Arrival(p.run(id).status)
    ensures Expected(p, id).id == id && Explained(p, Expected(p, id))
  {
  }

  lemma {:induction false} AmongExpected(p: Package, ids: seq<int>, r: Result)
    ensures r in ExpectedAll(p, ids) <==> exists id :: id in ids && r == Expected(p, id)
    decreases |ids|
  {
    hide Expected;
    if ids != [] {
      AmongExpected(p, ids[1..], r);
      assert ids == [ids[0]] + ids[1..];
    }
  }

  lemma {:induction false} AmongResults(ps: seq<Package>, r: Result)
    ensures r in ExpectedResults(ps)
       <==> exists i, id: int :: 0 <= i < |ps| && id in ps[i].ids && r == Expected(ps[i], id)
    decreases |ps|
  {
    hide Expected, ExpectedAll;
    if ps != [] {
      var rest := ps[1..];
      AmongResults(rest, r);
      AmongExpected(ps[0], ps[0].ids, r);
      if i, id: int :| 0 <= i < |ps| && id in ps[i].ids && r == Expected(ps[i], id) {
        if i > 0 { assert rest[i - 1] == ps[i]; }
      }
      if i, id: int :| 0 <= i < |rest| && id in rest[i].ids && r == Expected(rest[i], id) {
        assert ps[i + 1] == rest[i];
      }
    }
  }

  lemma {:induction false} InAllIds(ps: seq<Package>, i: nat, id: int)
    requires i < |ps| && id in ps[i].ids
    ensures id in AllIds(ps)
    decreases |ps|
  {
    if i > 0 { InAllIds(ps[1..], i - 1, id); }
  }

  lemma DistinctApart(a: seq<int>, b: seq<int>)
    requires Distinct(a + b)
    ensures Distinct(b) && forall x :: x in a ==> x !in b
  {
    forall i, j | 0 <= i < j < |b| ensures b[i] != b[j] {
      assert (a + b)[|a| + i] == b[i] && (a + b)[|a| + j] == b[j];
    }
    forall x | x in a ensures x !in b {
      var i :| 0 <= i < |a| && a[i] == x;
      forall j | 0 <= j < |b| ensures b[j] != x { assert (a + b)[i] == x && (a + b)[|a| + j] == b[j]; }
    }
  }

  /** No id belongs to two packages. */
  lemma {:induction false} OnePackage(ps: seq<Package>, i: nat, j: nat, id: int)
    requires Distinct(AllIds(ps)) && i < |ps| && j < |ps| && id in ps[i].ids && id in ps[j].ids
    ensures i == j
    decreases |ps|
  {
    hide Distinct;
    DistinctApart(ps[0].ids, AllIds(ps[1..]));
    if i > 0 && j > 0 {
      OnePackage(ps[1..], i - 1, j - 1, id);
    } else if i > 0 {
      InAllIds(ps[1..], i - 1, id);
    } else if j > 0 {
      InAllIds(ps[1..], j - 1, id);
    }
  }

  /** Under every schedule and limit each mutant has one result, and what it says is explained by its package. */
  lemma EveryScheduleExplains(ps: seq<Package>, n: nat, steps: seq<Step>, t: State, i: nat, id: int)
    returns (r: Result)
    requires Distinct(AllIds(ps)) && Runs(n, Init(ps), steps, t) && Done(t)
    requires i < |ps| && id in ps[i].ids && Arrival(ps[i].run(id).status)
    ensures r.id == id && Explained(ps[i], r) && forall x :: x in t.collected && x.id == id <==> x == r
  {
    hide Runs, Explained, Expected, ExpectedResults, AllIds, Distinct, Arrival;
    EveryScheduleCollects(n, ps, steps, t);
    r := Expected(ps[i], id);
    ExpectedExplained(ps[i], id);
    AmongResults(ps, r);
    assert r in multiset(t.collected);
    forall x | x in t.collected && x.id == id ensures x == r {
      assert x in multiset(ExpectedResults(ps));
      AmongResults(ps, x);
      var j, other: int :| 0 <= j < |ps| && other in ps[j].ids && x == Expected(ps[j], other);
      ExpectedId(ps[j], other);
      OnePackage(ps, i, j, id);
    }
  }

  lemma ExpectedId(p: Package, id: int)
    ensures Expected(p, id).id == id
  {
  }

  /** Test jobs are started for exactly the mutants that are to be run. */
  lemma JobsForRuns(p: Package, a: Action)
    requires a in Plan(p)
    ensures a.result.id in p.ids && (a.Spawn? <==> IsRun(p, a.result.id))
  {
    if p.hasTests {
      AmongErrors(p, p.ids, a);
      AmongOthers(p, p.ids, a);
    } else {
      AmongUntested(p.ids, a);
    }
  }

  lemma {:induction false} AmongErrors(p: Package, ids: seq<int>, a: Action)
    ensures a in SendErrors(p, ids) ==> a.Send? && a.result.id in ids && p.compileError(a.result.id).Some?
    decreases |ids|
  {
    if ids != [] { AmongErrors(p, ids[1..], a); }
  }

  lemma {:induction false} AmongOthers(p: Package, ids: seq<int>, a: Action)
    ensures a in SendOthers(p, ids) ==>
              a.result.id in ids && p.compileError(a.result.id).None? && a == Survivor(p, a.result.id)
    decreases |ids|
  {
    if ids != [] { AmongOthers(p, ids[1..], a); }
  }

  lemma {:induction false} AmongUntested(ids: seq<int>, a: Action)
    ensures a in SendUntested(ids) ==> a.Send? && a.result.id in ids
    decreases |ids|
  {
    if ids != [] { AmongUntested(ids[1..], a); }
  }
}
