/**
 Verification of the transformed workspace: up to five builds, each followed by the removal of the
 mutants it blames, by id, by bisection of the failing files, or by quarantine of their packages.
 */
module VerifyClean {
  import opened Wrappers
  import opened Mutants
  import opened Selection
  import opened BisectFile

  /** A cleaned absolute path in the workspace. */
  datatype Path = Path(dir: string, base: string)

  /** A build: the ids found next to its error lines, and the files of the errors. */
  datatype Build = Built | Failed(badIds: seq<int>, errors: seq<Path>)

  /** What the world answers: builds, bisection attempts, re-application and reset, round by round. */
  datatype Environment = Environment(
    builds: nat -> Build,
    temp: string -> Option<Path>,
    verdict: nat -> Oracle,
    reapplied: nat -> bool,
    reset: bool,
    root: string)

  const MAX_ROUNDS := 5

  /** Ids are read next to error lines, so a build without errors names none. */
  ghost predicate Attributable(env: Environment) {
    forall round :: env.builds(round).Failed? && env.builds(round).errors == [] ==> env.builds(round).badIds == []
  }

  // ---- Removing mutants from the list ----

  function BlameList(ms: seq<Mutant>): (r: seq<Mutant>)
    ensures |r| == |ms| && forall i :: 0 <= i < |r| ==> r[i] == Blame(ms[i])
  {
    if ms == [] then [] else BlameList(ms[..|ms| - 1]) + [Blame(ms[|ms| - 1])]
  }

  function Not(p: Mutant -> bool): Mutant -> bool { m => !p(m) }

  function WithId(ids: set<int>): Mutant -> bool { (m: Mutant) => m.id in ids }

  /** The directory a mutant's file has in the workspace; the root when the file lies outside the module. */
  function PackageOf(env: Environment, file: string): string {
    match env.temp(file)
    case None => env.root
    case Some(p) => p.dir
  }

  function InPackages(env: Environment, packages: set<string>): Mutant -> bool {
    (m: Mutant) => m.file.Some? && PackageOf(env, m.file.value) in packages
  }

  lemma FilterOne(m: Mutant, p: Mutant -> bool)
    ensures Filter([m], p) == if p(m) then [m] else []
  {
  }

  lemma BlameSnoc(ms: seq<Mutant>, m: Mutant)
    ensures BlameList(ms + [m]) == BlameList(ms) + [Blame(m)]
  {
    assert (ms + [m])[..|ms|] == ms;
  }

  lemma PartitionStep(ms: seq<Mutant>, i: nat, p: Mutant -> bool)
    requires i < |ms|
    ensures Filter(ms[..i + 1], Not(p)) == Filter(ms[..i], Not(p)) + if p(ms[i]) then [] else [ms[i]]
    ensures BlameList(Filter(ms[..i + 1], p)) == BlameList(Filter(ms[..i], p)) + if p(ms[i]) then [Blame(ms[i])] else []
    ensures Filter(ms[..i + 1], p) == Filter(ms[..i], p) + if p(ms[i]) then [ms[i]] else []
  {
    hide Filter, BlameList, Blame;
    var a, m := ms[..i], ms[i];
    assert ms[..i + 1] == a + [m];
    FilterAppend(a, [m], p);
    FilterAppend(a, [m], Not(p));
    FilterOne(m, p);
    FilterOne(m, Not(p));
    BlameSnoc(Filter(a, p), m);
    assert Filter(a, p) + [] == Filter(a, p);
  }

  /** Those that satisfy the test become compile errors, the others stay as they are. */
  method Partition(ms: seq<Mutant>, p: Mutant -> bool) returns (kept: seq<Mutant>, failed: seq<Mutant>)
    ensures kept == Filter(ms, Not(p)) && failed == BlameList(Filter(ms, p))
  {
    kept, failed := [], [];
    assert Filter([], Not(p)) == [] && BlameList(Filter([], p)) == [];
    hide Filter, BlameList, Not, Blame;
    for i := 0 to |ms|
      invariant kept == Filter(ms[..i], Not(p)) && failed == BlameList(Filter(ms[..i], p))
    {
      PartitionStep(ms, i, p);
      if p(ms[i]) {
        failed := failed + [Blame(ms[i])];
      } else {
        kept := kept + [ms[i]];
      }
    }
    assert ms[..|ms|] == ms;
  }

  /** No mutant lost or doubled; the kept ones untouched, the removed ones compile errors and otherwise as they came. */
  ghost predicate Splits(all: seq<Mutant>, kept: seq<Mutant>, removed: seq<Mutant>) {
    && multiset(Ids(kept)) + multiset(Ids(removed)) == multiset(Ids(all))
    && (forall m :: m in kept ==> m in all)
    && (forall m :: m in removed ==> CompileError(m) && exists o :: o in all && m == Blame(o))
  }

  lemma {:induction false} BlameListIds(ms: seq<Mutant>)
    ensures Ids(BlameList(ms)) == Ids(ms)
  {
  }

  lemma {:induction false} FilterIds(ms: seq<Mutant>, p: Mutant -> bool)
    ensures multiset(Ids(Filter(ms, Not(p)))) + multiset(Ids(Filter(ms, p))) == multiset(Ids(ms))
    ensures |Filter(ms, Not(p))| + |Filter(ms, p)| == |ms|
  {
    var everyone := (m: Mutant) => true;
    FilterDisjoint(ms, Not(p), p, everyone);
    FilterAll(ms, everyone);
    var a, b := Filter(ms, Not(p)), Filter(ms, p);
    assert multiset(a + b) == multiset(ms);
    IdsPermute(a + b, ms);
    IdsAppend(a, b);
    assert |multiset(a + b)| == |multiset(ms)|;
  }

  lemma SplitsMore(all: seq<Mutant>, ms: seq<Mutant>, removed: seq<Mutant>, p: Mutant -> bool)
    requires Splits(all, ms, removed)
    ensures Splits(all, Filter(ms, Not(p)), removed + BlameList(Filter(ms, p)))
  {
    var failed := Filter(ms, p);
    FilterIds(ms, p);
    BlameListIds(failed);
    IdsAppend(removed, BlameList(failed));
    hide Ids, Filter;
    forall m | m in BlameList(failed) ensures CompileError(m) && exists o :: o in all && m == Blame(o) {
      var i :| 0 <= i < |failed| && m == Blame(failed[i]);
      assert failed[i] in failed;
    }
  }

  /** A round that removes anybody keeps fewer. */
  lemma RemovesSome(ms: seq<Mutant>, p: Mutant -> bool, m: Mutant)
    requires m in ms && p(m)
    ensures |Filter(ms, Not(p))| < |ms|
  {
    FilterIds(ms, p);
    assert m in Filter(ms, p);
  }

  // ---- Bisecting the failing files ----

  /** The positions of the mutants of one file, in order. */
  function PositionsOf(ms: seq<Mutant>, f: string): (r: seq<Ref>)
    ensures PointsInto(r, |ms|)
  {
    if ms == [] then [] else
      PositionsOf(ms[..|ms| - 1], f) + if ms[|ms| - 1].file == Some(f) then [|ms| - 1] else []
  }

  /** The file whose copy stands at a workspace path; of several, that of the last mutant. */
  function SourceAt(env: Environment, ms: seq<Mutant>, p: Path): Option<string> {
    if ms == [] then None else
      var file := ms[|ms| - 1].file;
      if file.Some? && env.temp(file.value) == Some(p) then file else SourceAt(env, ms[..|ms| - 1], p)
  }

  type Files = map<string, seq<Ref>>

  type Sources = map<Path, string>

  ghost predicate FilesOf(files: Files, ms: seq<Mutant>) {
    forall f :: (f in files <==> PositionsOf(ms, f) != []) && (f in files ==> files[f] == PositionsOf(ms, f))
  }

  ghost predicate SourcesOf(env: Environment, sources: Sources, ms: seq<Mutant>) {
    forall p :: SourceAt(env, ms, p) == if p in sources then Some(sources[p]) else None
  }

  function AddFile(files: Files, f: string, i: nat): Files {
    files[f := (if f in files then files[f] else []) + [i]]
  }

  function AddSource(env: Environment, sources: Sources, f: string): Sources {
    if env.temp(f).Some? then sources[env.temp(f).value := f] else sources
  }

  lemma TrackMore(env: Environment, ms: seq<Mutant>, files: Files, sources: Sources, m: Mutant)
    requires FilesOf(files, ms) && SourcesOf(env, sources, ms)
    ensures m.file.None? ==> FilesOf(files, ms + [m]) && SourcesOf(env, sources, ms + [m])
    ensures m.file.Some? ==> FilesOf(AddFile(files, m.file.value, |ms|), ms + [m])
                             && SourcesOf(env, AddSource(env, sources, m.file.value), ms + [m])
  {
    hide PositionsOf, SourceAt;
    forall f ensures PositionsOf(ms + [m], f) == PositionsOf(ms, f) + if m.file == Some(f) then [|ms|] else [] {
      PositionsMore(ms, m, f);
    }
    forall p ensures SourceAt(env, ms + [m], p)
                  == if m.file.Some? && env.temp(m.file.value) == Some(p) then m.file else SourceAt(env, ms, p)
    {
      SourceMore(env, ms, m, p);
    }
  }

  lemma PositionsMore(ms: seq<Mutant>, m: Mutant, f: string)
    ensures PositionsOf(ms + [m], f) == PositionsOf(ms, f) + if m.file == Some(f) then [|ms|] else []
  {
    assert (ms + [m])[..|ms|] == ms;
  }

  lemma SourceMore(env: Environment, ms: seq<Mutant>, m: Mutant, p: Path)
    ensures SourceAt(env, ms + [m], p)
         == if m.file.Some? && env.temp(m.file.value) == Some(p) then m.file else SourceAt(env, ms, p)
  {
    assert (ms + [m])[..|ms|] == ms;
  }

  lemma NothingTracked(env: Environment)
    ensures FilesOf(map[], []) && SourcesOf(env, map[], [])
  {
  }

  /** Groups the mutants by file, and maps workspace paths back to files. */
  method TrackFiles(env: Environment, ms: seq<Mutant>) returns (files: Files, sources: Sources)
    ensures FilesOf(files, ms) && SourcesOf(env, sources, ms)
  {
    hide *;
    files, sources := map[], map[];
    NothingTracked(env);
    for i := 0 to |ms|
      invariant FilesOf(files, ms[..i]) && SourcesOf(env, sources, ms[..i])
    {
      assert ms[..i + 1] == ms[..i] + [ms[i]];
      TrackMore(env, ms[..i], files, sources, ms[i]);
      if ms[i].file.Some? {
        files, sources := AddFile(files, ms[i].file.value, i), AddSource(env, sources, ms[i].file.value);
      }
    }
    assert ms[..|ms|] == ms;
  }

  /** The tracked files of the errors. */
  function Failing(env: Environment, ms: seq<Mutant>, errors: seq<Path>): set<string> {
    set e | e in errors && SourceAt(env, ms, e).Some? :: SourceAt(env, ms, e).value
  }

  lemma {:induction false} SourceTracked(env: Environment, ms: seq<Mutant>, p: Path)
    requires SourceAt(env, ms, p).Some?
    ensures var f := SourceAt(env, ms, p).value;
            env.temp(f) == Some(p) && PositionsOf(ms, f) != [] && exists m :: m in ms && m.file == Some(f)
    decreases |ms|
  {
    var init, m := ms[..|ms| - 1], ms[|ms| - 1];
    assert ms == init + [m];
    if !(m.file.Some? && env.temp(m.file.value) == Some(p)) { SourceTracked(env, init, p); }
  }

  /** What bisecting the files one after the other gives up on, and how many attempts that takes. */
  datatype Found = Found(bad: seq<Ref>, attempts: nat)

  function FoundIn(v: Oracle, ms: seq<Mutant>, order: seq<string>): (r: Found)
    ensures PointsInto(r.bad, |ms|)
    decreases |order|
  {
    if order == [] then Found([], 0) else
      var before := FoundIn(v, ms, order[..|order| - 1]);
      var cs := PositionsOf(ms, order[|order| - 1]);
      var marks := Search(v, before.attempts, cs);
      PickedRefs(cs, marks.bad, |ms|);
      Found(before.bad + Pick(cs, marks.bad, true), marks.next)
  }

  lemma {:induction false} PickedRefs(all: seq<Ref>, marks: seq<bool>, n: nat)
    requires |all| == |marks| && PointsInto(all, n)
    ensures PointsInto(Pick(all, marks, true), n)
    decreases |all|
  {
    if all != [] { PickedRefs(all[1..], marks[1..], n); }
  }

  function IdsAt(ms: seq<Mutant>, ps: seq<Ref>): set<int>
    requires PointsInto(ps, |ms|)
  {
    set i | 0 <= i < |ps| :: ms[ps[i]].id
  }

  lemma IdsAtAppend(ms: seq<Mutant>, a: seq<Ref>, b: seq<Ref>)
    requires PointsInto(a, |ms|) && PointsInto(b, |ms|)
    ensures PointsInto(a + b, |ms|) && IdsAt(ms, a + b) == IdsAt(ms, a) + IdsAt(ms, b)
  {
    forall x | x in IdsAt(ms, a) + IdsAt(ms, b) ensures x in IdsAt(ms, a + b) {
      if i :| 0 <= i < |a| && ms[a[i]].id == x {
        assert ms[(a + b)[i]].id == x;
      } else {
        var j :| 0 <= j < |b| && ms[b[j]].id == x;
        assert ms[(a + b)[|a| + j]].id == x;
      }
    }
  }

  /** An order in which the failing files can be visited. */
  ghost predicate OrderOf(order: seq<string>, failing: set<string>) {
    Distinct(order) && forall f :: f in order <==> f in failing
  }

  lemma OrderMore(order: seq<string>, done: set<string>, f: string)
    requires OrderOf(order, done) && f !in done
    ensures OrderOf(order + [f], done + {f})
  {
    var more := order + [f];
    forall i, j | 0 <= i < j < |more| ensures more[i] != more[j] { assert more[i] == order[i] && order[i] in order; }
  }

  lemma FoundMore(v: Oracle, ms: seq<Mutant>, order: seq<string>, f: string)
    ensures var before, after := FoundIn(v, ms, order), FoundIn(v, ms, order + [f]);
            var marks := Search(v, before.attempts, PositionsOf(ms, f));
            after == Found(before.bad + Pick(PositionsOf(ms, f), marks.bad, true), marks.next)
            && PointsInto(Pick(PositionsOf(ms, f), marks.bad, true), |ms|)
  {
    assert (order + [f])[..|order|] == order;
    PickedRefs(PositionsOf(ms, f), Search(v, FoundIn(v, ms, order).attempts, PositionsOf(ms, f)).bad, |ms|);
  }

  lemma NothingFound(v: Oracle, ms: seq<Mutant>)
    ensures OrderOf([], {}) && FoundIn(v, ms, []) == Found([], 0) && Blamed(ms, []) == ms && IdsAt(ms, []) == {}
  {
  }

  /** Bisects each failing file; the files come in any order. */
  method BisectFiles(v: Oracle, ms: seq<Mutant>, files: Files, failing: set<string>)
    returns (blamed: seq<Mutant>, badSet: set<int>, ghost order: seq<string>)
    requires FilesOf(files, ms) && failing <= files.Keys
    ensures OrderOf(order, failing)
    ensures blamed == Blamed(ms, FoundIn(v, ms, order).bad) && badSet == IdsAt(ms, FoundIn(v, ms, order).bad)
  {
    hide Blamed, IdsAt, Search, Pick, FoundIn, PositionsOf, OrderOf;
    var ws := new Workspace(v, ms);
    var pending := failing;
    badSet, order := {}, [];
    NothingFound(v, ms);
    assert failing - failing == {};
    while pending != {}
      invariant pending <= failing && fresh(ws) && ws.verdict == v && OrderOf(order, failing - pending)
      invariant ws.mutants == Blamed(ms, FoundIn(v, ms, order).bad) && badSet == IdsAt(ms, FoundIn(v, ms, order).bad)
      invariant ws.attempts == FoundIn(v, ms, order).attempts
    {
      var src :| src in pending;
      ghost var bad := FoundIn(v, ms, order).bad;
      FoundMore(v, ms, order, src);
      OrderMore(order, failing - pending, src);
      var c := Grow(files[src]);
      var good, worse := BisectFileMutants(ws, c, files[src]);
      BlamedTwice(ms, bad, Contents(worse));
      IdsAtAppend(ms, bad, Contents(worse));
      badSet, order := badSet + IdsAt(ms, Contents(worse)), order + [src];
      assert failing - pending + {src} == failing - (pending - {src});
      pending := pending - {src};
    }
    blamed := ws.mutants;
    assert failing - {} == failing;
  }

  /** What bisection wrote through its references is what removing the bad ids would write. */
  lemma {:induction false} BlamedPartition(ms: seq<Mutant>, blamed: seq<Mutant>, p: Mutant -> bool)
    requires |blamed| == |ms|
    requires forall i :: 0 <= i < |ms|
               ==> blamed[i] == (if p(ms[i]) then Blame(ms[i]) else ms[i]) && p(blamed[i]) == p(ms[i])
    ensures Filter(blamed, Not(p)) == Filter(ms, Not(p)) && Filter(blamed, p) == BlameList(Filter(ms, p))
    decreases |ms|
  {
    if ms != [] {
      var n := |ms| - 1;
      BlamedPartition(ms[..n], blamed[..n], p);
      PartitionStep(ms, n, p);
      PartitionStep(blamed, n, p);
      assert ms[..n + 1] == ms && blamed[..n + 1] == blamed;
    }
  }

  lemma IdAt(ms: seq<Mutant>, bad: seq<Ref>, p: Ref)
    requires PointsInto(bad, |ms|) && p in bad
    ensures p < |ms| && ms[p].id in IdsAt(ms, bad)
  {
    var k :| 0 <= k < |bad| && bad[k] == p;
    assert ms[bad[k]].id in IdsAt(ms, bad);
  }

  lemma AtId(ms: seq<Mutant>, bad: seq<Ref>, id: int) returns (p: Ref)
    requires PointsInto(bad, |ms|) && id in IdsAt(ms, bad)
    ensures p in bad && p < |ms| && ms[p].id == id
  {
    var k :| 0 <= k < |bad| && ms[bad[k]].id == id;
    p := bad[k];
  }

  lemma NobodyAt(ms: seq<Mutant>, bad: seq<Ref>)
    requires PointsInto(bad, |ms|)
    ensures bad == [] <==> IdsAt(ms, bad) == {}
  {
    if bad != [] { IdAt(ms, bad, bad[0]); }
  }

  lemma BlamedIds(ms: seq<Mutant>, bad: seq<Ref>, i: nat)
    requires Distinct(Ids(ms)) && PointsInto(bad, |ms|) && i < |ms|
    ensures i in bad <==> ms[i].id in IdsAt(ms, bad)
  {
    hide *;
    if i in bad {
      IdAt(ms, bad, i);
    } else if ms[i].id in IdsAt(ms, bad) {
      var p := AtId(ms, bad, ms[i].id);
      SameId(ms, p, i);
    }
  }

  lemma SameId(ms: seq<Mutant>, i: nat, j: nat)
    requires Distinct(Ids(ms)) && i < |ms| && j < |ms| && ms[i].id == ms[j].id
    ensures i == j
  {
    assert Ids(ms)[i] == Ids(ms)[j];
  }

  // ---- One round ----

  datatype Failure = ReapplyAfterBisection | NoneRemoved | ReapplyAfterRemoval | ResetFailed

  datatype Progress =
    | Continue(kept: seq<Mutant>, removed: seq<Mutant>)
    | Finished(kept: seq<Mutant>, removed: seq<Mutant>, failure: Option<Failure>)

  function MarkUntested(m: Mutant, killer: string): Mutant {
    if m.status == Blank then m.(status := Untested, killedBy := killer) else m
  }

  function MarkAll(ms: seq<Mutant>, compiler: bool): (r: seq<Mutant>)
    ensures Ids(r) == Ids(ms)
  {
    if ms == [] then [] else
      var r := [MarkUntested(ms[0], if compiler then COMPILER else ms[0].killedBy)] + MarkAll(ms[1..], compiler);
      assert r[1..] == MarkAll(ms[1..], compiler);
      r
  }

  /** The list after quarantine marked its members in place. */
  function MarkIf(ms: seq<Mutant>, p: Mutant -> bool): (r: seq<Mutant>)
    ensures Ids(r) == Ids(ms)
  {
    if ms == [] then [] else
      var r := [if p(ms[0]) then Blame(ms[0]) else ms[0]] + MarkIf(ms[1..], p);
      assert r[1..] == MarkIf(ms[1..], p);
      r
  }

  function Kept(ms: seq<Mutant>, p: Mutant -> bool): seq<Mutant> { Filter(ms, Not(p)) }

  function Gone(ms: seq<Mutant>, removed: seq<Mutant>, p: Mutant -> bool): seq<Mutant> {
    removed + BlameList(Filter(ms, p))
  }

  /**
   The build named ids: their mutants are removed, unless that removes nobody or their files cannot be transformed
   again.
   */
  function ByIds(env: Environment, round: nat, ms: seq<Mutant>, removed: seq<Mutant>, badIds: seq<int>): Progress {
    var bad := WithId(set id | id in badIds);
    var kept, gone := Kept(ms, bad), Gone(ms, removed, bad);
    var listed := MarkAll(kept, true);
    if |kept| == |ms| then Finished(listed, gone + listed, Some(NoneRemoved))
    else if !env.reapplied(round) then Finished(listed, gone + listed, Some(ReapplyAfterRemoval))
    else Continue(kept, gone)
  }

  /** The packages of the error files. */
  function FailingPackages(errors: seq<Path>): set<string> { set e | e in errors :: e.dir }

  /** No culprit was found: every mutant of a failing package is removed. */
  function ByPackages(env: Environment, ms: seq<Mutant>, removed: seq<Mutant>, errors: seq<Path>): Progress {
    var bad := InPackages(env, FailingPackages(errors));
    if Kept(ms, bad) == [] then Finished([], Gone(ms, removed, bad), None)
        else Continue(Kept(ms, bad), Gone(ms, removed, bad))
  }

  /** Bisection found culprits: they are removed, unless their files cannot be transformed again. */
  function ByCulprits(env: Environment, round: nat, ms: seq<Mutant>, removed: seq<Mutant>, bad: seq<Ref>): Progress
    requires PointsInto(bad, |ms|)
  {
    var isBad := WithId(IdsAt(ms, bad));
    if !env.reapplied(round) then Finished(MarkAll(Kept(ms, isBad), false), Gone(ms, removed, isBad),
        Some(ReapplyAfterBisection))
    else Continue(Kept(ms, isBad), Gone(ms, removed, isBad))
  }

  /** The build named no ids: the failing files are bisected, in some order. */
  ghost predicate ByBisection(env: Environment, round: nat, ms: seq<Mutant>, removed: seq<Mutant>, errors: seq<Path>,
                              p: Progress) {
    if Failing(env, ms, errors) == {} then p == Finished(ms, removed, None)
    else exists order :: OrderOf(order, Failing(env, ms, errors))
           && p == AfterOrder(env, round, ms, removed, errors, order)
  }

  function AfterOrder(env: Environment, round: nat, ms: seq<Mutant>, removed: seq<Mutant>, errors: seq<Path>,
                      order: seq<string>): Progress {
    var bad := FoundIn(env.verdict(round), ms, order).bad;
    if bad == [] then ByPackages(env, ms, removed, errors) else ByCulprits(env, round, ms, removed, bad)
  }

  /** After the last round: what still fails is quarantined. */
  function AtEnd(env: Environment, ms: seq<Mutant>, removed: seq<Mutant>): Progress {
    match env.builds(MAX_ROUNDS)
    case Built => Finished(ms, removed, None)
    case Failed(_, errors) =>
      var bad := InPackages(env, FailingPackages(errors));
      if errors == [] then Finished(ms, removed, None)
      else if !env.reset then Finished(MarkIf(ms, bad), removed, Some(ResetFailed))
      else Finished(Kept(ms, bad), Gone(ms, removed, bad), None)
  }

  ghost predicate StepTo(env: Environment, round: nat, ms: seq<Mutant>, removed: seq<Mutant>, p: Progress) {
    match env.builds(round)
    case Built => p == Finished(ms, removed, None)
    case Failed(badIds, errors) =>
      if badIds == [] then ByBisection(env, round, ms, removed, errors, p)
          else p == ByIds(env, round, ms, removed, badIds)
  }

  /** `p` is where the rounds from `round` on can end. */
  ghost predicate EndsIn(env: Environment, round: nat, ms: seq<Mutant>, removed: seq<Mutant>, p: Progress)
    decreases MAX_ROUNDS - round
  {
    if round >= MAX_ROUNDS then p == AtEnd(env, ms, removed)
    else exists q :: StepTo(env, round, ms, removed, q)
                     && if q.Finished? then p == q else EndsIn(env, round + 1, q.kept, q.removed, p)
  }

  // ---- The rounds as the code runs them ----

  method RemoveIds(env: Environment, round: nat, ms: seq<Mutant>, removed: seq<Mutant>, badIds: seq<int>)
    returns (p: Progress)
    ensures p == ByIds(env, round, ms, removed, badIds)
  {
    hide Filter, BlameList, MarkAll;
    var kept, failed := Partition(ms, WithId(set id | id in badIds));
    var gone := removed + failed;
    if |kept| == |ms| {
      return Finished(MarkAll(kept, true), gone + MarkAll(kept, true), Some(NoneRemoved));
    }
    if !env.reapplied(round) {
      return Finished(MarkAll(kept, true), gone + MarkAll(kept, true), Some(ReapplyAfterRemoval));
    }
    p := Continue(kept, gone);
  }

  method BisectRound(env: Environment, round: nat, ms: seq<Mutant>, removed: seq<Mutant>, errors: seq<Path>)
    returns (p: Progress)
    requires Distinct(Ids(ms))
    ensures ByBisection(env, round, ms, removed, errors, p)
  {
    var files, sources := TrackFiles(env, ms);
    var failing := set e | e in errors && e in sources :: sources[e];
    SameFailing(env, ms, files, sources, errors, failing);
    hide *;
    if failing == {} {
      NoneFailing(env, round, ms, removed, errors);
      return Finished(ms, removed, None);
    }
    var blamed, badSet, order := BisectFiles(env.verdict(round), ms, files, failing);
    ghost var bad := FoundIn(env.verdict(round), ms, order).bad;
    NobodyAt(ms, bad);
    SomeFailing(env, round, ms, removed, errors, order);
    if badSet == {} {
      assert blamed == ms by { NothingFound(env.verdict(round), ms); }
      p := Quarantine(env, ms, removed, errors);
    } else {
      p := RemoveBad(env, round, ms, removed, blamed, badSet, bad);
    }
  }

  lemma SameFailing(env: Environment, ms: seq<Mutant>, files: Files, sources: Sources, errors: seq<Path>,
                    failing: set<string>)
    requires FilesOf(files, ms) && SourcesOf(env, sources, ms) && failing == set e | e in errors
                                                                               && e in sources :: sources[e]
    ensures failing == Failing(env, ms, errors) && failing <= files.Keys
  {
    forall e | e in errors && e in sources ensures sources[e] in files.Keys {
      assert SourceAt(env, ms, e).Some?;
      SourceTracked(env, ms, e);
    }
    hide SourceAt, PositionsOf;
    assert forall e :: e in errors
             ==> (e in sources <==> SourceAt(env, ms, e).Some?)
                  && (e in sources ==> sources[e] == SourceAt(env, ms, e).value);
  }

  lemma NoneFailing(env: Environment, round: nat, ms: seq<Mutant>, removed: seq<Mutant>, errors: seq<Path>)
    requires Failing(env, ms, errors) == {}
    ensures ByBisection(env, round, ms, removed, errors, Finished(ms, removed, None))
  {
  }

  lemma SomeFailing(env: Environment, round: nat, ms: seq<Mutant>, removed: seq<Mutant>, errors: seq<Path>,
                    order: seq<string>)
    requires Failing(env, ms, errors) != {} && OrderOf(order, Failing(env, ms, errors))
    ensures var bad := FoundIn(env.verdict(round), ms, order).bad;
            ByBisection(env, round, ms, removed, errors,
                        if bad == [] then ByPackages(env, ms, removed, errors)
                            else ByCulprits(env, round, ms, removed, bad))
  {
    var bad := FoundIn(env.verdict(round), ms, order).bad;
    assert AfterOrder(env, round, ms, removed, errors, order)
        == if bad == [] then ByPackages(env, ms, removed, errors) else ByCulprits(env, round, ms, removed, bad);
    hide OrderOf, FoundIn, Failing, ByPackages, ByCulprits;
  }

  /** Bisection has already marked the culprits; they leave the list. */
  method RemoveBad(env: Environment, round: nat, ms: seq<Mutant>, removed: seq<Mutant>, blamed: seq<Mutant>,
                   badSet: set<int>,
                   ghost bad: seq<Ref>) returns (p: Progress)
    requires Distinct(Ids(ms)) && PointsInto(bad, |ms|) && blamed == Blamed(ms, bad) && badSet == IdsAt(ms, bad)
    ensures p == ByCulprits(env, round, ms, removed, bad)
  {
    var isBad := WithId(badSet);
    CulpritsLeave(ms, blamed, bad, isBad);
    hide Blamed, IdsAt, WithId, Filter, BlameList, MarkAll;
    var kept, gone := Filter(blamed, Not(isBad)), removed + Filter(blamed, isBad);
    if !env.reapplied(round) {
      return Finished(MarkAll(kept, false), gone, Some(ReapplyAfterBisection));
    }
    p := Continue(kept, gone);
  }

  lemma CulpritsLeave(ms: seq<Mutant>, blamed: seq<Mutant>, bad: seq<Ref>, isBad: Mutant -> bool)
    requires Distinct(Ids(ms)) && PointsInto(bad, |ms|) && blamed == Blamed(ms, bad) && isBad == WithId(IdsAt(ms, bad))
    ensures Filter(blamed, Not(isBad)) == Filter(ms, Not(isBad))
            && Filter(blamed, isBad) == BlameList(Filter(ms, isBad))
  {
    forall i: nat | i < |ms| ensures i in bad <==> isBad(ms[i]) { BlamedIds(ms, bad, i); }
    hide Distinct, IdsAt, Filter, BlameList;
    BlamedPartition(ms, blamed, isBad);
  }

  method Quarantine(env: Environment, ms: seq<Mutant>, removed: seq<Mutant>, errors: seq<Path>) returns (p: Progress)
    ensures p == ByPackages(env, ms, removed, errors)
  {
    hide Filter, BlameList;
    var kept, failed := Partition(ms, InPackages(env, FailingPackages(errors)));
    p := if kept == [] then Finished([], removed + failed, None) else Continue(kept, removed + failed);
  }

  method LastBuild(env: Environment, ms: seq<Mutant>, removed: seq<Mutant>) returns (p: Progress)
    ensures p == AtEnd(env, ms, removed)
  {
    hide Filter, BlameList, MarkIf;
    match env.builds(MAX_ROUNDS) {
      case Built => return Finished(ms, removed, None);
      case Failed(_, errors) =>
        if errors == [] { return Finished(ms, removed, None); }
        var quarantined := InPackages(env, FailingPackages(errors));
        var kept, failed := Partition(ms, quarantined);
        if !env.reset {
          return Finished(MarkIf(ms, quarantined), removed, Some(ResetFailed));
        }
        return Finished(kept, removed + failed, None);
    }
  }

  // ---- Keeping the books ----

  /** How a run may end: two of the errors list the kept mutants among the removed ones as well. */
  ghost predicate Ends(all: seq<Mutant>, kept: seq<Mutant>, removed: seq<Mutant>, failure: Option<Failure>) {
    match failure
    case None => Splits(all, kept, removed)
    case Some(ReapplyAfterBisection) => multiset(Ids(kept)) + multiset(Ids(removed)) == multiset(Ids(all))
    case Some(ResetFailed) => multiset(Ids(kept)) + multiset(Ids(removed)) == multiset(Ids(all))
    case Some(_) => multiset(Ids(removed)) == multiset(Ids(all)) && multiset(Ids(kept)) <= multiset(Ids(removed))
  }

  /** The two aborting errors list every kept mutant twice: the ids add up only if nothing is kept. */
  lemma AbortsListTwice(all: seq<Mutant>, kept: seq<Mutant>, removed: seq<Mutant>, failure: Failure)
    requires failure.NoneRemoved? || failure.ReapplyAfterRemoval?
    requires Ends(all, kept, removed, Some(failure))
    ensures multiset(Ids(kept)) + multiset(Ids(removed)) == multiset(Ids(all)) <==> kept == []
    ensures forall m :: m in kept ==> m.id in Ids(removed)
  {
    assert |multiset(Ids(kept)) + multiset(Ids(removed))| == |kept| + |multiset(Ids(all))|;
    forall m | m in kept ensures m.id in Ids(removed) {
      var i :| 0 <= i < |kept| && kept[i] == m;
      assert Ids(kept)[i] in multiset(Ids(kept));
      assert m.id in multiset(Ids(removed));
    }
  }

  /** A round keeps the books, and if it goes on it keeps fewer mutants. */
  ghost predicate KeepsBooks(all: seq<Mutant>, ms: seq<Mutant>, p: Progress) {
    match p
    case Continue(kept, removed) => Splits(all, kept, removed) && |kept| < |ms|
    case Finished(kept, removed, failure) => Ends(all, kept, removed, failure)
  }

  lemma ListedTwice(all: seq<Mutant>, kept: seq<Mutant>, gone: seq<Mutant>, listed: seq<Mutant>)
    requires Splits(all, kept, gone) && Ids(listed) == Ids(kept)
    ensures multiset(Ids(gone + listed)) == multiset(Ids(all)) && multiset(Ids(listed)) <= multiset(Ids(gone + listed))
  {
    IdsAppend(gone, listed);
  }

  lemma ByIdsKeeps(env: Environment, round: nat, all: seq<Mutant>, ms: seq<Mutant>, removed: seq<Mutant>,
                   badIds: seq<int>)
    requires Splits(all, ms, removed)
    ensures KeepsBooks(all, ms, ByIds(env, round, ms, removed, badIds))
  {
    hide Splits, Filter, Ids, BlameList, MarkAll, Not, WithId;
    var bad := WithId(set id | id in badIds);
    SplitsMore(all, ms, removed, bad);
    FilterIds(ms, bad);
    ListedTwice(all, Kept(ms, bad), Gone(ms, removed, bad), MarkAll(Kept(ms, bad), true));
  }

  /** Quarantine removes somebody, because a failing file is a tracked one. */
  lemma ByPackagesKeeps(env: Environment, all: seq<Mutant>, ms: seq<Mutant>, removed: seq<Mutant>, errors: seq<Path>)
    requires Splits(all, ms, removed) && Failing(env, ms, errors) != {}
    ensures KeepsBooks(all, ms, ByPackages(env, ms, removed, errors))
  {
    var bad := InPackages(env, FailingPackages(errors));
    var e :| e in errors && SourceAt(env, ms, e).Some?;
    SourceTracked(env, ms, e);
    var m :| m in ms && m.file == SourceAt(env, ms, e);
    RemovesSome(ms, bad, m);
    SplitsMore(all, ms, removed, bad);
    hide Splits, Filter, BlameList, SourceAt, PositionsOf;
  }

  lemma ByCulpritsKeeps(env: Environment, round: nat, all: seq<Mutant>, ms: seq<Mutant>, removed: seq<Mutant>,
                        bad: seq<Ref>)
    requires Splits(all, ms, removed) && PointsInto(bad, |ms|) && bad != []
    ensures KeepsBooks(all, ms, ByCulprits(env, round, ms, removed, bad))
  {
    hide Splits, Ids, Filter, BlameList, IdsAt, MarkAll, Not;
    var isBad := WithId(IdsAt(ms, bad));
    IdAt(ms, bad, bad[0]);
    RemovesSome(ms, isBad, ms[bad[0]]);
    SplitsMore(all, ms, removed, isBad);
    SplitsAddsUp(all, Kept(ms, isBad), Gone(ms, removed, isBad));
  }

  lemma AtEndKeeps(env: Environment, all: seq<Mutant>, ms: seq<Mutant>, removed: seq<Mutant>)
    requires Splits(all, ms, removed)
    ensures AtEnd(env, ms, removed).Finished? && KeepsBooks(all, ms, AtEnd(env, ms, removed))
  {
    hide Splits, Ids, Filter, BlameList, MarkIf, Not, InPackages, FailingPackages;
    SplitsAddsUp(all, ms, removed);
    if env.builds(MAX_ROUNDS).Failed? {
      SplitsMore(all, ms, removed, InPackages(env, FailingPackages(env.builds(MAX_ROUNDS).errors)));
    }
  }

  lemma SplitsAddsUp(all: seq<Mutant>, ms: seq<Mutant>, removed: seq<Mutant>)
    requires Splits(all, ms, removed)
    ensures multiset(Ids(ms)) + multiset(Ids(removed)) == multiset(Ids(all))
  {
  }

  /** Every round keeps the books; one that goes on strictly shrinks the list. */
  lemma StepKeepsBooks(env: Environment, round: nat, all: seq<Mutant>, ms: seq<Mutant>, removed: seq<Mutant>,
                       p: Progress)
    requires Splits(all, ms, removed) && StepTo(env, round, ms, removed, p)
    ensures KeepsBooks(all, ms, p)
  {
    hide Splits, Failing, FoundIn, OrderOf, ByPackages, ByCulprits, ByIds;
    match env.builds(round)
    case Built =>
    case Failed(badIds, errors) =>
      if badIds != [] {
        ByIdsKeeps(env, round, all, ms, removed, badIds);
      } else if Failing(env, ms, errors) != {} {
        var order :| OrderOf(order, Failing(env, ms, errors))
            && p == AfterOrder(env, round, ms, removed, errors, order);
        var bad := FoundIn(env.verdict(round), ms, order).bad;
        if bad == [] {
          ByPackagesKeeps(env, all, ms, removed, errors);
        } else {
          ByCulpritsKeeps(env, round, all, ms, removed, bad);
        }
      }
  }

  /** Wherever the rounds end, without an error the mutants are split into kept and removed. */
  lemma {:induction false} EndsKeepBooks(env: Environment, round: nat, all: seq<Mutant>, ms: seq<Mutant>,
                                         removed: seq<Mutant>, p: Progress)
    requires Splits(all, ms, removed) && EndsIn(env, round, ms, removed, p)
    ensures p.Finished? && Ends(all, p.kept, p.removed, p.failure)
    decreases MAX_ROUNDS - round
  {
    hide Splits, StepTo, AtEnd, Ends;
    if round >= MAX_ROUNDS {
      AtEndKeeps(env, all, ms, removed);
    } else {
      var q :| StepTo(env, round, ms, removed, q)
               && if q.Finished? then p == q else EndsIn(env, round + 1, q.kept, q.removed, p);
      StepKeepsBooks(env, round, all, ms, removed, q);
      if q.Continue? { EndsKeepBooks(env, round + 1, all, q.kept, q.removed, p); }
    }
  }

  // ---- All rounds ----

  lemma RoundTaken(env: Environment, round: nat, ms: seq<Mutant>, removed: seq<Mutant>, q: Progress)
    requires round < MAX_ROUNDS && StepTo(env, round, ms, removed, q)
    ensures q.Finished? ==> EndsIn(env, round, ms, removed, q)
    ensures q.Continue? ==> forall p :: EndsIn(env, round + 1, q.kept, q.removed, p)
                              ==> EndsIn(env, round, ms, removed, p)
  {
    hide StepTo;
  }

  /** Five rounds and a last build. */
  method VerifyAndCleanSchemata(env: Environment, all: seq<Mutant>)
    returns (kept: seq<Mutant>, removed: seq<Mutant>, failure: Option<Failure>)
    requires Distinct(Ids(all))
    ensures EndsIn(env, 0, all, [], Finished(kept, removed, failure)) && Ends(all, kept, removed, failure)
  {
    hide Splits, EndsIn, StepTo, KeepsBooks, Ends, Distinct, Ids, AtEnd;
    kept, removed, failure := all, [], None;
    AllKept(all);
    for round := 0 to MAX_ROUNDS
      invariant Splits(all, kept, removed)
      invariant forall p :: EndsIn(env, round, kept, removed, p) ==> EndsIn(env, 0, all, [], p)
    {
      StillDistinct(all, kept, removed);
      var p := OneRound(env, round, kept, removed);
      RoundTaken(env, round, kept, removed, p);
      StepKeepsBooks(env, round, all, kept, removed, p);
      if p.Finished? {
        EndsKeepBooks(env, 0, all, all, [], p);
        return p.kept, p.removed, p.failure;
      }
      Goes(all, kept, p);
      kept, removed := p.kept, p.removed;
    }
    var p := LastBuild(env, kept, removed);
    LastTaken(env, kept, removed);
    EndsKeepBooks(env, 0, all, all, [], p);
    return p.kept, p.removed, p.failure;
  }

  method OneRound(env: Environment, round: nat, ms: seq<Mutant>, removed: seq<Mutant>) returns (p: Progress)
    requires Distinct(Ids(ms))
    ensures StepTo(env, round, ms, removed, p)
  {
    hide Distinct, Ids, ByBisection, ByIds;
    match env.builds(round) {
      case Built => p := Finished(ms, removed, None);
      case Failed(badIds, errors) =>
        if badIds == [] {
          p := BisectRound(env, round, ms, removed, errors);
        } else {
          p := RemoveIds(env, round, ms, removed, badIds);
        }
    }
  }

  lemma AllKept(all: seq<Mutant>)
    ensures Splits(all, all, [])
  {
  }

  lemma StillDistinct(all: seq<Mutant>, kept: seq<Mutant>, removed: seq<Mutant>)
    requires Splits(all, kept, removed) && Distinct(Ids(all))
    ensures Distinct(Ids(kept))
  {
    DistinctRest(Ids(all), Ids(kept), Ids(removed));
  }

  lemma Goes(all: seq<Mutant>, ms: seq<Mutant>, p: Progress)
    requires KeepsBooks(all, ms, p) && p.Continue?
    ensures Splits(all, p.kept, p.removed)
  {
  }

  lemma LastTaken(env: Environment, ms: seq<Mutant>, removed: seq<Mutant>)
    ensures EndsIn(env, MAX_ROUNDS, ms, removed, AtEnd(env, ms, removed))
  {
  }

  // ---- When mutants are listed twice ----

  /** The books of a finished run add up: every mutant is kept or removed, and none is both. */
  ghost predicate AddsUp(all: seq<Mutant>, p: Progress) {
    multiset(Ids(p.kept)) + multiset(Ids(p.removed)) == multiset(Ids(all))
  }

  predicate NamesSomebody(ms: seq<Mutant>, ids: seq<int>) { exists m :: m in ms && m.id in ids }

  /**
   What makes a round list its survivors twice: the build names ids, not of all the mutants left, and either of none
   of them or the files of the survivors cannot be transformed again.
   */
  predicate ListsTwice(env: Environment, round: nat, ms: seq<Mutant>) {
    && env.builds(round).Failed? && env.builds(round).badIds != []
    && (exists m :: m in ms && m.id !in env.builds(round).badIds)
    && (!NamesSomebody(ms, env.builds(round).badIds) || !env.reapplied(round))
  }

  function Named(badIds: seq<int>): Mutant -> bool { WithId(set id | id in badIds) }

  lemma KeptIffUnnamed(ms: seq<Mutant>, badIds: seq<int>)
    ensures Kept(ms, Named(badIds)) != [] <==> exists m :: m in ms && m.id !in badIds
    ensures |Kept(ms, Named(badIds))| == |ms| <==> !NamesSomebody(ms, badIds)
  {
    var bad := Named(badIds);
    var kept := Kept(ms, bad);
    if m :| m in ms && m.id !in badIds { assert m in kept; }
    if kept != [] { assert kept[0] in ms && kept[0].id !in badIds; }
    if m :| m in ms && m.id in badIds {
      RemovesSome(ms, bad, m);
    } else {
      FilterAll(ms, Not(bad));
    }
  }

  /** A round that removes ids lists mutants twice exactly if its inputs say so. */
  lemma RoundListsTwiceIff(env: Environment, round: nat, all: seq<Mutant>, ms: seq<Mutant>, removed: seq<Mutant>)
    requires Splits(all, ms, removed) && env.builds(round).Failed? && env.builds(round).badIds != []
    ensures AddsUp(all, ByIds(env, round, ms, removed, env.builds(round).badIds)) <==> !ListsTwice(env, round, ms)
  {
    hide Splits, Ids, Filter, BlameList, MarkAll, Not, WithId, Kept, Gone, NamesSomebody, Ends;
    var badIds := env.builds(round).badIds;
    KeptIffUnnamed(ms, badIds);
    ByIdsKeeps(env, round, all, ms, removed, badIds);
    var p := ByIds(env, round, ms, removed, badIds);
    MarkedNone(Kept(ms, Named(badIds)));
    if p.Finished? {
      AbortsListTwice(all, p.kept, p.removed, p.failure.value);
    } else {
      SplitsAddsUp(all, p.kept, p.removed);
    }
  }

  lemma MarkedNone(ms: seq<Mutant>)
    ensures MarkAll(ms, true) == [] <==> ms == []
  {
  }

  /** Along some course of the rounds from `round` on, one lists its survivors twice. */
  ghost predicate MayListTwice(env: Environment, round: nat, ms: seq<Mutant>, removed: seq<Mutant>)
    decreases MAX_ROUNDS - round
  {
    round < MAX_ROUNDS
    && (ListsTwice(env, round, ms)
        || exists q: Progress :: q.Continue? && StepTo(env, round, ms, removed, q)
             && MayListTwice(env, round + 1, q.kept, q.removed))
  }

  ghost predicate EndsDoubled(env: Environment, round: nat, all: seq<Mutant>, ms: seq<Mutant>, removed: seq<Mutant>) {
    exists p: Progress :: EndsIn(env, round, ms, removed, p) && p.Finished? && !AddsUp(all, p)
  }

  /** A step that ends the rounds adds up unless it lists twice. */
  lemma StepAddsUpIff(env: Environment, round: nat, all: seq<Mutant>, ms: seq<Mutant>, removed: seq<Mutant>,
                      q: Progress)
    requires Splits(all, ms, removed) && StepTo(env, round, ms, removed, q)
    ensures AddsUp(all, q) <==> !ListsTwice(env, round, ms)
  {
    hide Splits, AddsUp, Ends, ByIds, ListsTwice, ByBisection;
    match env.builds(round)
    case Built =>
      NothingNamed(env, round, ms);
      BalancedAddsUp(all, ms, removed, q);
    case Failed(badIds, errors) =>
      if badIds != [] {
        RoundListsTwiceIff(env, round, all, ms, removed);
      } else {
        NothingNamed(env, round, ms);
        StepKeepsBooks(env, round, all, ms, removed, q);
        BisectionNeverAborts(env, round, ms, removed, errors, q);
        KeptBooksAddUp(all, ms, q);
      }
  }

  lemma NothingNamed(env: Environment, round: nat, ms: seq<Mutant>)
    requires env.builds(round).Built? || env.builds(round).badIds == []
    ensures !ListsTwice(env, round, ms)
  {
  }

  lemma BalancedAddsUp(all: seq<Mutant>, ms: seq<Mutant>, removed: seq<Mutant>, q: Progress)
    requires Splits(all, ms, removed) && q.kept == ms && q.removed == removed
    ensures AddsUp(all, q)
  {
  }

  predicate Aborts(failure: Option<Failure>) {
    failure.Some? && (failure.value.NoneRemoved? || failure.value.ReapplyAfterRemoval?)
  }

  lemma BisectionNeverAborts(env: Environment, round: nat, ms: seq<Mutant>, removed: seq<Mutant>, errors: seq<Path>,
                             p: Progress)
    requires ByBisection(env, round, ms, removed, errors, p)
    ensures p.Finished? ==> !Aborts(p.failure)
  {
    hide Failing, FoundIn, OrderOf, Kept, Gone, MarkAll, InPackages, FailingPackages;
    if Failing(env, ms, errors) != {} {
      var order :| OrderOf(order, Failing(env, ms, errors)) && p == AfterOrder(env, round, ms, removed, errors, order);
    }
  }

  lemma KeptBooksAddUp(all: seq<Mutant>, ms: seq<Mutant>, p: Progress)
    requires KeepsBooks(all, ms, p) && (p.Finished? ==> !Aborts(p.failure))
    ensures AddsUp(all, p)
  {
    hide Ids;
  }

  lemma DoubledBy(env: Environment, round: nat, all: seq<Mutant>, ms: seq<Mutant>, removed: seq<Mutant>, p: Progress)
    requires EndsIn(env, round, ms, removed, p) && p.Finished? && !AddsUp(all, p)
    ensures EndsDoubled(env, round, all, ms, removed)
  {
    hide EndsIn, AddsUp;
  }

  lemma {:induction false} MayThenDoubled(env: Environment, round: nat, all: seq<Mutant>, ms: seq<Mutant>,
                                          removed: seq<Mutant>)
    requires Splits(all, ms, removed) && MayListTwice(env, round, ms, removed)
    ensures EndsDoubled(env, round, all, ms, removed)
    decreases MAX_ROUNDS - round
  {
    hide Splits, AddsUp, StepTo, EndsIn, ListsTwice, EndsDoubled, ByIds;
    if ListsTwice(env, round, ms) {
      var q := ByIds(env, round, ms, removed, TheIds(env, round, ms));
      ListingStep(env, round, ms, removed);
      StepAddsUpIff(env, round, all, ms, removed, q);
      RoundTaken(env, round, ms, removed, q);
      DoubledBy(env, round, all, ms, removed, q);
    } else {
      var q: Progress :| q.Continue? && StepTo(env, round, ms, removed, q)
          && MayListTwice(env, round + 1, q.kept, q.removed);
      StepSplits(env, round, all, ms, removed, q);
      MayThenDoubled(env, round + 1, all, q.kept, q.removed);
      var p := DoubledEnd(env, round + 1, all, q.kept, q.removed);
      RoundTaken(env, round, ms, removed, q);
      DoubledBy(env, round, all, ms, removed, p);
    }
  }

  lemma DoubledEnd(env: Environment, round: nat, all: seq<Mutant>, ms: seq<Mutant>, removed: seq<Mutant>)
    returns (p: Progress)
    requires EndsDoubled(env, round, all, ms, removed)
    ensures EndsIn(env, round, ms, removed, p) && p.Finished? && !AddsUp(all, p)
  {
    hide EndsIn, AddsUp;
    p :| EndsIn(env, round, ms, removed, p) && p.Finished? && !AddsUp(all, p);
  }

  lemma {:induction false} DoubledThenMay(env: Environment, round: nat, all: seq<Mutant>, ms: seq<Mutant>,
                                          removed: seq<Mutant>, p: Progress)
    requires Splits(all, ms, removed) && EndsIn(env, round, ms, removed, p) && p.Finished? && !AddsUp(all, p)
    ensures MayListTwice(env, round, ms, removed)
    decreases MAX_ROUNDS - round
  {
    hide Splits, AddsUp, StepTo, AtEnd, ListsTwice;
    if round >= MAX_ROUNDS {
      AtEndAddsUp(env, all, ms, removed);
    } else {
      var q :| StepTo(env, round, ms, removed, q)
               && if q.Finished? then p == q else EndsIn(env, round + 1, q.kept, q.removed, p);
      StepAddsUpIff(env, round, all, ms, removed, q);
      if q.Continue? {
        StepSplits(env, round, all, ms, removed, q);
        DoubledThenMay(env, round + 1, all, q.kept, q.removed, p);
      }
    }
  }

  /** The rounds can end with a mutant listed twice if and only if some course of them gets to a round that does it. */
  lemma EndsDoubledIff(env: Environment, round: nat, all: seq<Mutant>, ms: seq<Mutant>, removed: seq<Mutant>)
    requires Splits(all, ms, removed)
    ensures EndsDoubled(env, round, all, ms, removed) <==> MayListTwice(env, round, ms, removed)
  {
    hide *;
    if MayListTwice(env, round, ms, removed) { MayThenDoubled(env, round, all, ms, removed); }
    if EndsDoubled(env, round, all, ms, removed) {
      var p := DoubledEnd(env, round, all, ms, removed);
      DoubledThenMay(env, round, all, ms, removed, p);
    }
  }

  function TheIds(env: Environment, round: nat, ms: seq<Mutant>): seq<int>
    requires ListsTwice(env, round, ms)
  {
    env.builds(round).badIds
  }

  lemma ListingStep(env: Environment, round: nat, ms: seq<Mutant>, removed: seq<Mutant>)
    requires ListsTwice(env, round, ms)
    ensures var q := ByIds(env, round, ms, removed, TheIds(env, round, ms));
            StepTo(env, round, ms, removed, q) && q.Finished?
  {
    hide Filter, BlameList, MarkAll;
    KeptIffUnnamed(ms, TheIds(env, round, ms));
  }

  lemma StepSplits(env: Environment, round: nat, all: seq<Mutant>, ms: seq<Mutant>, removed: seq<Mutant>, q: Progress)
    requires Splits(all, ms, removed) && StepTo(env, round, ms, removed, q) && q.Continue?
    ensures Splits(all, q.kept, q.removed)
  {
    StepKeepsBooks(env, round, all, ms, removed, q);
    hide Splits, StepTo;
  }

  lemma AtEndAddsUp(env: Environment, all: seq<Mutant>, ms: seq<Mutant>, removed: seq<Mutant>)
    requires Splits(all, ms, removed)
    ensures AtEnd(env, ms, removed).Finished? && AddsUp(all, AtEnd(env, ms, removed))
  {
    AtEndKeeps(env, all, ms, removed);
    KeptBooksAddUp(all, ms, AtEnd(env, ms, removed)) by {
      hide Filter, BlameList, MarkIf, Kept, Gone;
    }
  }

  // ---- A world in which it happens ----

  /** The first build blames the first mutant next to an error of its file, which cannot be transformed again. */
  function BlamesFirst(root: string): Environment {
    Environment(r => Failed([1], [Path(root, "f.go")]), f => Some(Path(root, f)), r => (i, cs) => Clean, r => false,
        true, root)
  }

  /** Of two mutants the first is removed; the second is kept, and removed as well. */
  lemma SecondListedTwice(root: string)
    ensures var a, b := Mutant(1, Some("f.go"), true, Blank, ""), Mutant(2, Some("f.go"), true, Blank, "");
            && Attributable(BlamesFirst(root))
            && MayListTwice(BlamesFirst(root), 0, [a, b], []) && EndsDoubled(BlamesFirst(root), 0, [a, b], [a, b], [])
  {
    var a, b := Mutant(1, Some("f.go"), true, Blank, ""), Mutant(2, Some("f.go"), true, Blank, "");
    assert b in [a, b];
    AllKept([a, b]);
    EndsDoubledIff(BlamesFirst(root), 0, [a, b], [a, b], []);
  }
}
