/** The two phases that run mutants against the test binaries of external suites. */
module ExternalSuites {
  import opened Mutants
  import opened Selection
  import opened Statuses

  type Binary = string

  /** The outcome of running one binary with one mutant active. */
  type Outcomes = (Binary, int) -> RunResult

  /** A suite's binaries, in the order in which its map happens to be walked. */
  type Suite = seq<Binary>

  /**
   Binaries built before the run have their results merged by rank; binaries built on the fly only report killed and
   survived.
   */
  datatype Phase = Merged | Late

  /** Before the unit tests every mutant is a target; after them only those that may still be killed. */
  predicate Target(beforeUnit: bool, m: Mutant) {
    beforeUnit || m.status in {Survived, Blank, Untested, Error}
  }

  function ResultOf(run: Outcomes, b: Binary, id: int): Result { Result(id, run(b, id).status, run(b, id).killedBy) }

  function Reported(phase: Phase, m: Mutant, r: Result): Mutant
    requires m.id == r.id
  {
    match phase
    case Merged => Update(m, r)
    case Late =>
      if r.status == Killed then Mutant(m.id, m.file, m.hasNode, Killed, r.killedBy)
      else if r.status == Survived && m.status in {Blank, Untested} then
          Mutant(m.id, m.file, m.hasNode, Survived, m.killedBy)
      else m
  }

  /** One binary: a mutant already killed is not run again. */
  function After(phase: Phase, run: Outcomes, m: Mutant, b: Binary): Mutant {
    if m.status == Killed then m else Reported(phase, m, ResultOf(run, b, m.id))
  }

  function AfterAll(phase: Phase, run: Outcomes, m: Mutant, bs: seq<Binary>): (r: Mutant)
    ensures r.id == m.id
    decreases |bs|
  {
    if bs == [] then m else AfterAll(phase, run, After(phase, run, m, bs[0]), bs[1..])
  }

  lemma {:induction false} AfterAllAppend(phase: Phase, run: Outcomes, m: Mutant, a: seq<Binary>, b: seq<Binary>)
    ensures AfterAll(phase, run, m, a + b) == AfterAll(phase, run, AfterAll(phase, run, m, a), b)
    decreases |a|
  {
    if a == [] {
      assert a + b == b;
    } else {
      assert (a + b)[1..] == a[1..] + b;
      AfterAllAppend(phase, run, After(phase, run, m, a[0]), a[1..], b);
    }
  }

  lemma {:induction false} KilledStays(phase: Phase, run: Outcomes, m: Mutant, bs: seq<Binary>)
    requires m.status == Killed
    ensures AfterAll(phase, run, m, bs) == m
    decreases |bs|
  {
    if bs != [] { KilledStays(phase, run, m, bs[1..]); }
  }

  // ---- What the phases are for ----

  /** All results of a mutant, had it been run against every binary. */
  function AllResults(run: Outcomes, id: int, bs: seq<Binary>): seq<Result> {
    if bs == [] then [] else AllResults(run, id, bs[..|bs| - 1]) + [ResultOf(run, bs[|bs| - 1], id)]
  }

  /** Not running killed mutants again changes nothing compared with running every binary on every target. */
  lemma {:induction false} SkippingChangesNothing(run: Outcomes, m: Mutant, bs: seq<Binary>)
    ensures AfterAll(Merged, run, m, bs) == UpdateAll(m, AllResults(run, m.id, bs))
    decreases |bs|
  {
    if bs != [] {
      var init, b := bs[..|bs| - 1], bs[|bs| - 1];
      assert bs == init + [b];
      SkippingChangesNothing(run, m, init);
      AfterAllAppend(Merged, run, m, init, [b]);
    }
  }

  ghost predicate AllArrive(run: Outcomes, id: int, bs: seq<Binary>) {
    forall b :: b in bs ==> Arrival(run(b, id).status)
  }

  lemma {:induction false} ResultsArrive(run: Outcomes, id: int, bs: seq<Binary>)
    requires AllArrive(run, id, bs)
    ensures forall r :: r in AllResults(run, id, bs) ==> Arrival(r.status)
    decreases |bs|
  {
    if bs != [] { ResultsArrive(run, id, bs[..|bs| - 1]); }
  }

  lemma {:induction false} ResultsAppend(run: Outcomes, id: int, a: seq<Binary>, b: seq<Binary>)
    ensures AllResults(run, id, a + b) == AllResults(run, id, a) + AllResults(run, id, b)
    decreases |b|
  {
    if b == [] {
      assert a + b == a;
    } else {
      assert (a + b)[..|a + b| - 1] == a + b[..|b| - 1];
      ResultsAppend(run, id, a, b[..|b| - 1]);
    }
  }

  lemma {:induction false} ResultsPermute(run: Outcomes, id: int, bs: seq<Binary>, bs': seq<Binary>)
    requires multiset(bs) == multiset(bs')
    ensures multiset(AllResults(run, id, bs)) == multiset(AllResults(run, id, bs'))
    decreases |bs|
  {
    if bs == [] {
      assert |multiset(bs')| == 0;
    } else {
      var x, rest := bs[0], bs[1..];
      assert bs == [x] + rest;
      var l, r := TakeOut(x, rest, bs');
      ResultsPermute(run, id, rest, l + r);
      ResultsAppend(run, id, [x], rest);
      ResultsAppend(run, id, l, r);
      ResultsAppend(run, id, l + [x], r);
      ResultsAppend(run, id, l, [x]);
    }
  }

  /** The final status does not depend on the order in which suites and binaries are visited. */
  lemma AnyBinaryOrder(run: Outcomes, m: Mutant, bs: seq<Binary>, bs': seq<Binary>)
    requires multiset(bs) == multiset(bs') && AllArrive(run, m.id, bs)
    ensures AfterAll(Merged, run, m, bs).status == AfterAll(Merged, run, m, bs').status
  {
    SkippingChangesNothing(run, m, bs);
    SkippingChangesNothing(run, m, bs');
    ResultsArrive(run, m.id, bs);
    ResultsPermute(run, m.id, bs, bs');
    CollectAnyOrder(m, AllResults(run, m.id, bs), AllResults(run, m.id, bs'));
  }

  predicate SomeKills(run: Outcomes, id: int, bs: seq<Binary>) {
    exists i :: 0 <= i < |bs| && run(bs[i], id).status == Killed
  }

  /** Both phases kill exactly when some binary does, except that merging by rank cannot overrule an invalid mutant. */
  lemma {:induction false} KilledExactly(phase: Phase, run: Outcomes, m: Mutant, bs: seq<Binary>)
    requires AllArrive(run, m.id, bs)
    ensures AfterAll(phase, run, m, bs).status == Killed <==>
              m.status == Killed || (SomeKills(run, m.id, bs) && !(phase == Merged && m.status == Invalid))
    decreases |bs|
  {
    if bs != [] {
      var m' := After(phase, run, m, bs[0]);
      assert Arrival(run(bs[0], m.id).status);
      KilledExactly(phase, run, m', bs[1..]);
      assert SomeKills(run, m.id, bs) <==> run(bs[0], m.id).status == Killed || SomeKills(run, m.id, bs[1..]) by {
        if i :| 0 <= i < |bs| && run(bs[i], m.id).status == Killed && i > 0 {
          assert run(bs[1..][i - 1], m.id).status == Killed;
        }
        if j :| 0 <= j < |bs[1..]| && run(bs[1..][j], m.id).status == Killed {
          assert run(bs[j + 1], m.id).status == Killed;
        }
      }
    }
  }

  /**
   The phases end with the same mutants killed if and only if no mutant that started invalid is killed by a binary.
   */
  lemma SameKilledSet(run: Outcomes, m: Mutant, bs: seq<Binary>)
    requires AllArrive(run, m.id, bs)
    ensures (AfterAll(Merged, run, m, bs).status == Killed <==> AfterAll(Late, run, m, bs).status == Killed)
            <==> !(m.status == Invalid && SomeKills(run, m.id, bs))
  {
    KilledExactly(Merged, run, m, bs);
    KilledExactly(Late, run, m, bs);
  }

  // ---- The phases ----

  /** Every mutant is run once; the results come back in any order. */
  method RunMutantsAgainstBinary(run: Outcomes, b: Binary, ids: set<int>) returns (rs: seq<Result>)
    ensures forall i, j :: 0 <= i < j < |rs| ==> rs[i].id != rs[j].id
    ensures forall i :: 0 <= i < |rs| ==> rs[i].id in ids && rs[i] == ResultOf(run, b, rs[i].id)
    ensures forall id :: id in ids ==> Reports(rs, id)
  {
    rs := [];
    var pending := set id | id in ids :: ResultOf(run, b, id);
    while pending != {}
      invariant forall r :: r in pending ==> r.id in ids && r == ResultOf(run, b, r.id) && !Reports(rs, r.id)
      invariant forall i, j :: 0 <= i < j < |rs| ==> rs[i].id != rs[j].id
      invariant forall i :: 0 <= i < |rs| ==> rs[i].id in ids && rs[i] == ResultOf(run, b, rs[i].id)
      invariant forall id :: id in ids && ResultOf(run, b, id) !in pending ==> Reports(rs, id)
    {
      var r :| r in pending;
      ReportsMore(rs, r);
      rs, pending := rs + [r], pending - {r};
    }
  }

  predicate Reports(rs: seq<Result>, id: int) { exists i :: 0 <= i < |rs| && rs[i].id == id }

  lemma ReportsMore(rs: seq<Result>, r: Result)
    ensures forall id :: Reports(rs + [r], id) <==> Reports(rs, id) || id == r.id
  {
    assert (rs + [r])[|rs|] == r;
    forall id | Reports(rs, id) ensures Reports(rs + [r], id) {
      var i :| 0 <= i < |rs| && rs[i].id == id;
      assert (rs + [r])[i].id == id;
    }
  }

  /** One binary: the living targets are run, and their results merged as they arrive. */
  method RunBinary(phase: Phase, run: Outcomes, ms: array<Mutant>, targets: set<nat>, index: map<int, nat>, b: Binary)
    returns (someAlive: bool)
    requires IndexOf(index, ms[..]) && forall p :: p in targets ==> p < ms.Length
    modifies ms
    ensures someAlive <==> exists p :: p in targets && old(ms[p]).status != Killed
    ensures forall p :: 0 <= p < ms.Length ==> ms[p] == if p in targets then After(phase, run, old(ms[p]), b)
              else old(ms[p])
  {
    var alive := set p | p in targets && ms[p].status != Killed :: ms[p].id;
    if alive == {} {
      assert forall p :: p in targets && ms[p].status != Killed ==> ms[p].id in alive;
      return false;
    }
    ghost var before := ms[..];
    var rs := RunMutantsAgainstBinary(run, b, alive);
    ghost var done: set<int> := {};
    for n := 0 to |rs|
      invariant IndexOf(index, before) && done <= alive
      invariant forall i :: 0 <= i < |rs| ==> (rs[i].id in done <==> i < n)
      invariant forall p :: 0 <= p < ms.Length ==> ms[p] == if before[p].id in done then After(phase, run, before[p], b)
                  else before[p]
    {
      var r := rs[n];
      if r.id in index {
        var i := index[r.id];
        ms[i] := Reported(phase, ms[i], r);
      }
      done := done + {r.id};
    }
    assert done == alive;
    return true;
  }

  /** Every target has been run against the given binaries while it lived; nobody else has changed. */
  ghost predicate RanAgainst(phase: Phase, run: Outcomes, before: seq<Mutant>, now: seq<Mutant>, targets: set<nat>,
                             bs: seq<Binary>) {
    |now| == |before| && forall p :: 0 <= p < |now|
                           ==> now[p] == if p in targets then AfterAll(phase, run, before[p], bs) else before[p]
  }

  lemma RanMore(phase: Phase, run: Outcomes, a: seq<Mutant>, b: seq<Mutant>, c: seq<Mutant>, targets: set<nat>,
                bs: seq<Binary>, bs': seq<Binary>)
    requires RanAgainst(phase, run, a, b, targets, bs) && RanAgainst(phase, run, b, c, targets, bs')
    ensures RanAgainst(phase, run, a, c, targets, bs + bs')
  {
    forall p | 0 <= p < |c| && p in targets ensures c[p] == AfterAll(phase, run, a[p], bs + bs') {
      AfterAllAppend(phase, run, a[p], bs, bs');
    }
  }

  lemma RanOne(phase: Phase, run: Outcomes, a: seq<Mutant>, b: seq<Mutant>, targets: set<nat>, x: Binary)
    requires |a| == |b| && forall p :: 0 <= p < |a| ==> b[p] == if p in targets then After(phase, run, a[p], x)
                             else a[p]
    ensures RanAgainst(phase, run, a, b, targets, [x])
  {
    forall p | 0 <= p < |a| && p in targets ensures b[p] == AfterAll(phase, run, a[p], [x]) {
      assert [x][1..] == [];
      assert AfterAll(phase, run, a[p], [x]) == AfterAll(phase, run, After(phase, run, a[p], x), []);
    }
  }

  lemma AllKilledIdle(phase: Phase, run: Outcomes, now: seq<Mutant>, targets: set<nat>, bs: seq<Binary>)
    requires forall p :: p in targets ==> p < |now| && now[p].status == Killed
    ensures RanAgainst(phase, run, now, now, targets, bs)
  {
    forall p | 0 <= p < |now| && p in targets ensures now[p] == AfterAll(phase, run, now[p], bs) {
      KilledStays(phase, run, now[p], bs);
    }
  }

  /** The binaries of one suite; the loop stops when every target is dead. */
  method RunSuite(phase: Phase, run: Outcomes, ms: array<Mutant>, targets: set<nat>, index: map<int, nat>, suite: Suite)
    requires IndexOf(index, ms[..]) && forall p :: p in targets ==> p < ms.Length
    modifies ms
    ensures IndexOf(index, ms[..]) && RanAgainst(phase, run, old(ms[..]), ms[..], targets, suite)
  {
    ghost var before := ms[..];
    for n := 0 to |suite|
      invariant IndexOf(index, ms[..]) && RanAgainst(phase, run, before, ms[..], targets, suite[..n])
    {
      ghost var now := ms[..];
      var someAlive := RunBinary(phase, run, ms, targets, index, suite[n]);
      if !someAlive {
        assert ms[..] == now by { AllKilledSame(phase, run, now, ms[..], targets, suite[n]); }
        AllKilledIdle(phase, run, now, targets, suite[n..]);
        RanMore(phase, run, before, now, now, targets, suite[..n], suite[n..]);
        assert suite[..n] + suite[n..] == suite;
        return;
      }
      RanOne(phase, run, now, ms[..], targets, suite[n]);
      RanMore(phase, run, before, now, ms[..], targets, suite[..n], [suite[n]]);
      assert suite[..n + 1] == suite[..n] + [suite[n]];
    }
    assert suite[..|suite|] == suite;
  }

  lemma AllKilledSame(phase: Phase, run: Outcomes, a: seq<Mutant>, b: seq<Mutant>, targets: set<nat>, x: Binary)
    requires |a| == |b| && forall p :: 0 <= p < |a| ==> b[p] == if p in targets then After(phase, run, a[p], x)
                             else a[p]
    requires forall p :: p in targets ==> p < |a| && a[p].status == Killed
    ensures a == b
  {
  }

  function Flatten(suites: seq<Suite>): seq<Binary> {
    if suites == [] then [] else Flatten(suites[..|suites| - 1]) + suites[|suites| - 1]
  }

  /** The targets are chosen once; each ends as if it alone had been run against every binary until it died. */
  method RunExternalPhase(phase: Phase, beforeUnit: bool, run: Outcomes, ms: array<Mutant>, suites: seq<Suite>)
    requires Distinct(Ids(ms[..]))
    modifies ms
    ensures forall p :: 0 <= p < ms.Length ==>
              ms[p] == if Target(beforeUnit, old(ms[p])) then AfterAll(phase, run, old(ms[p]), Flatten(suites))
                  else old(ms[p])
  {
    var index := BuildIndex(ms[..]);
    ghost var before := ms[..];
    var targets := set p | 0 <= p < ms.Length && Target(beforeUnit, ms[p]);
    if targets == {} {
      assert forall p :: 0 <= p < ms.Length && Target(beforeUnit, ms[p]) ==> p in targets;
      return;
    }
    assert RanAgainst(phase, run, before, ms[..], targets, []);
    for n := 0 to |suites|
      invariant IndexOf(index, ms[..]) && RanAgainst(phase, run, before, ms[..], targets, Flatten(suites[..n]))
    {
      ghost var now := ms[..];
      if suites[n] != [] {
        RunSuite(phase, run, ms, targets, index, suites[n]);
        RanMore(phase, run, before, now, ms[..], targets, Flatten(suites[..n]), suites[n]);
      } else {
        assert Flatten(suites[..n]) + suites[n] == Flatten(suites[..n]);
      }
      assert suites[..n + 1][..n] == suites[..n];
    }
    assert suites[..|suites|] == suites;
  }
}
