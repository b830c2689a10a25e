/** The three filters a mutant passes before the workspace is built. */
module Preflight {
  import opened Wrappers
  import opened Mutants
  import opened Selection
  import opened Bisect
  import TypeErrors

  /** A rejected mutant: its id, and the status it gets for the level that rejected it. */
  datatype Rejection = Rejection(id: int, status: Status)

  function RejectedIds(rs: seq<Rejection>): (r: seq<int>)
    ensures |r| == |rs|
  {
    if rs == [] then [] else [rs[0].id] + RejectedIds(rs[1..])
  }

  lemma {:induction false} RejectedIdsAppend(a: seq<Rejection>, b: seq<Rejection>)
    ensures RejectedIds(a + b) == RejectedIds(a) + RejectedIds(b)
  {
    if a == [] {
      assert a + b == b;
    } else {
      assert (a + b)[1..] == a[1..] + b;
      RejectedIdsAppend(a[1..], b);
    }
  }

  lemma RejectedMore(rs: seq<Rejection>, r: Rejection)
    ensures RejectedIds(rs + [r]) == RejectedIds(rs) + [r.id] && RejectedIds([]) == []
    ensures forall s :: AllHave([], s) && (AllHave(rs, s) && r.status == s ==> AllHave(rs + [r], s))
  {
    RejectedIdsAppend(rs, [r]);
  }

  function Reject(m: Mutant, s: Status): Rejection { Rejection(m.id, s) }

  function RejectAll(ms: seq<Mutant>, s: Status): (r: seq<Rejection>)
    ensures RejectedIds(r) == Ids(ms) && AllHave(r, s)
  {
    if ms == [] then [] else
      var r := [Reject(ms[0], s)] + RejectAll(ms[1..], s);
      assert r[1..] == RejectAll(ms[1..], s);
      r
  }

  predicate AllHave(rs: seq<Rejection>, s: Status) { forall r :: r in rs ==> r.status == s }

  /** A rejected mutant is invalid or a compile error. */
  predicate AllRejected(rs: seq<Rejection>) { forall r :: r in rs ==> r.status == Invalid || r.status == Error }

  /**
   Nothing lost, nothing twice: every id of the list is accepted once or rejected once; accepted mutants are unchanged.
   */
  ghost predicate SplitsIds(ms: seq<Mutant>, valid: seq<Mutant>, invalid: seq<Rejection>) {
    && multiset(Ids(valid)) + multiset(RejectedIds(invalid)) == multiset(Ids(ms))
    && forall m :: m in valid ==> m in ms
  }

  lemma SplitsAppend(ms: seq<Mutant>, v: seq<Mutant>, r: seq<Rejection>, ms': seq<Mutant>, v': seq<Mutant>,
                     r': seq<Rejection>)
    requires SplitsIds(ms, v, r) && SplitsIds(ms', v', r')
    ensures SplitsIds(ms + ms', v + v', r + r')
  {
    hide Ids, RejectedIds;
    IdsAppend(ms, ms');
    IdsAppend(v, v');
    RejectedIdsAppend(r, r');
  }

  lemma SplitsNothing()
    ensures SplitsIds([], [], [])
  {
  }

  /** One more mutant, accepted or rejected. */
  lemma SplitsOne(ms: seq<Mutant>, v: seq<Mutant>, r: seq<Rejection>, m: Mutant, s: Status)
    requires SplitsIds(ms, v, r)
    ensures SplitsIds(ms + [m], v + [m], r) && SplitsIds(ms + [m], v, r + [Rejection(m.id, s)])
  {
    assert SplitsIds([m], [m], []) && SplitsIds([m], [], [Rejection(m.id, s)]);
    hide SplitsIds;
    SplitsAppend(ms, v, r, [m], [m], []);
    SplitsAppend(ms, v, r, [m], [], [Rejection(m.id, s)]);
    assert r + [] == r && v + [] == v;
  }

  lemma SplitsPermuted(ms: seq<Mutant>, v: seq<Mutant>, r: seq<Rejection>, ms': seq<Mutant>)
    requires SplitsIds(ms, v, r) && multiset(ms) == multiset(ms')
    ensures SplitsIds(ms', v, r)
  {
    hide Ids, RejectedIds;
    IdsPermute(ms, ms');
    forall m | m in v ensures m in ms' { assert m in multiset(ms); }
  }

  /** What type-checking a group yields. */
  datatype TypeCheck = Panicked | NotTransformed | Checked(errors: seq<string>)

  /**
   The answers of parser, formatter, build and type checker, none of which is modelled; `typeCheck` counts its calls.
   */
  datatype Environment = Environment(
    unsafe: Mutant -> bool,
    readable: string -> bool,
    applies: Mutant -> bool,
    builds: seq<Mutant> -> bool,
    baseline: string -> seq<string>,
    typeCheck: (nat, seq<Mutant>) -> TypeCheck)

  // ---- Level 1 ----

  predicate StaticallyInvalid(env: Environment, m: Mutant) { !m.hasNode || m.file.None? || env.unsafe(m) }

  function Acceptable(env: Environment): Mutant -> bool { (m: Mutant) => !StaticallyInvalid(env, m) }

  function Marked(env: Environment, m: Mutant): Mutant {
    if StaticallyInvalid(env, m) then m.(status := Invalid) else m
  }

  lemma FilterOneMore(ms: seq<Mutant>, m: Mutant, p: Mutant -> bool)
    ensures Filter(ms + [m], p) == Filter(ms, p) + if p(m) then [m] else []
  {
    FilterAppend(ms, [m], p);
  }

  ghost predicate Level1(env: Environment, ms: seq<Mutant>, v: seq<Mutant>, r: seq<Rejection>) {
    v == Filter(ms, Acceptable(env)) && SplitsIds(ms, v, r) && AllHave(r, Invalid)
  }

  lemma Level1Nothing(env: Environment)
    ensures Level1(env, [], [], [])
  {
  }

  lemma Level1More(env: Environment, ms: seq<Mutant>, v: seq<Mutant>, r: seq<Rejection>, m: Mutant)
    requires Level1(env, ms, v, r)
    ensures if StaticallyInvalid(env, m) then Level1(env, ms + [m], v, r + [Rejection(m.id, Invalid)])
            else Level1(env, ms + [m], v + [m], r)
  {
    FilterOneMore(ms, m, Acceptable(env));
    SplitsOne(ms, v, r, m, Invalid);
    hide Filter, SplitsIds;
  }

  /** Writes the status of rejected mutants into the caller's list, and copies the others. */
  method QuickStaticFilter(env: Environment, mutants: array<Mutant>)
    returns (valid: seq<Mutant>, invalid: seq<Rejection>)
    modifies mutants
    ensures forall i :: 0 <= i < mutants.Length ==> mutants[i] == Marked(env, old(mutants[i]))
    ensures Level1(env, old(mutants[..]), valid, invalid)
  {
    hide Level1;
    valid, invalid := [], [];
    ghost var before := mutants[..];
    Level1Nothing(env);
    for i := 0 to mutants.Length
      invariant forall j :: 0 <= j < mutants.Length ==> mutants[j] == if j < i then Marked(env, before[j])
                  else before[j]
      invariant Level1(env, before[..i], valid, invalid)
    {
      var m := mutants[i];
      assert before[..i + 1] == before[..i] + [m];
      Level1More(env, before[..i], valid, invalid, m);
      if !m.hasNode || m.file.None? || env.unsafe(m) {
        invalid := invalid + [Rejection(m.id, Invalid)];
        mutants[i] := m.(status := Invalid);
      } else {
        valid := valid + [m];
      }
    }
    assert before[..mutants.Length] == before;
  }

  // ---- Grouping by source file ----

  function OfFiles(files: set<string>): Mutant -> bool { (m: Mutant) => m.file.Some? && m.file.value in files }

  /** The mutants of the given files, in order. */
  function InFiles(ms: seq<Mutant>, files: set<string>): seq<Mutant> { Filter(ms, OfFiles(files)) }

  type Groups = map<string, seq<Mutant>>

  ghost predicate GroupsOf(groups: Groups, ms: seq<Mutant>) {
    && (forall f :: f in groups ==> groups[f] == InFiles(ms, {f}))
    && (forall m :: m in ms && m.file.Some? ==> m.file.value in groups)
  }

  function HasNoFile(): Mutant -> bool { (m: Mutant) => m.file.None? }

  function AddToGroup(groups: Groups, m: Mutant): Groups
    requires m.file.Some?
  {
    var f := m.file.value;
    groups[f := (if f in groups then groups[f] else []) + [m]]
  }

  lemma InFilesOneMore(ms: seq<Mutant>, m: Mutant, f: string)
    ensures InFiles(ms + [m], {f}) == InFiles(ms, {f}) + if m.file == Some(f) then [m] else []
  {
    FilterAppend(ms, [m], OfFiles({f}));
  }

  lemma NoGroup(groups: Groups, ms: seq<Mutant>, f: string)
    requires GroupsOf(groups, ms) && f !in groups
    ensures InFiles(ms, {f}) == []
  {
    FilterNone(ms, OfFiles({f}));
  }

  lemma GroupsStep(groups: Groups, ms: seq<Mutant>, m: Mutant)
    requires GroupsOf(groups, ms)
    ensures GroupsOf(if m.file.Some? then AddToGroup(groups, m) else groups, ms + [m])
    ensures Filter(ms + [m], HasNoFile()) == Filter(ms, HasNoFile()) + if m.file.None? then [m] else []
  {
    FilterAppend(ms, [m], HasNoFile());
    hide InFiles;
    if m.file.Some? && m.file.value !in groups { NoGroup(groups, ms, m.file.value); }
    forall g ensures InFiles(ms + [m], {g}) == InFiles(ms, {g}) + if m.file == Some(g) then [m] else [] {
      InFilesOneMore(ms, m, g);
    }
  }

  lemma NoGroups()
    ensures GroupsOf(map[], []) && Filter([], HasNoFile()) == []
  {
  }

  /** The mutants of each file; the second level also needs those without a file. */
  method GroupByFile(ms: seq<Mutant>) returns (groups: Groups, fileless: seq<Mutant>)
    ensures GroupsOf(groups, ms) && fileless == Filter(ms, HasNoFile())
  {
    hide *;
    groups, fileless := map[], [];
    NoGroups();
    for i := 0 to |ms|
      invariant GroupsOf(groups, ms[..i]) && fileless == Filter(ms[..i], HasNoFile())
    {
      assert ms[..i + 1] == ms[..i] + [ms[i]];
      GroupsStep(groups, ms[..i], ms[i]);
      if ms[i].file.None? {
        fileless := fileless + [ms[i]];
      } else {
        groups := AddToGroup(groups, ms[i]);
      }
    }
    assert ms[..|ms|] == ms;
  }

  lemma {:induction false} DistinctFilter(ms: seq<Mutant>, p: Mutant -> bool)
    requires Distinct(Ids(ms))
    ensures Distinct(Ids(Filter(ms, p)))
    ensures forall id :: id in Ids(Filter(ms, p)) ==> id in Ids(ms)
  {
    if ms != [] {
      var head, tail, ids := ms[0], ms[1..], Ids(ms);
      assert Ids(tail) == ids[1..];
      DistinctFilter(tail, p);
      assert head.id !in Ids(tail);
      assert Filter(ms, p) == if p(head) then [head] + Filter(tail, p) else Filter(tail, p);
      IdsAppend([head], Filter(tail, p));
    }
  }

  // ---- Level 2 ----

  /** Which mutants of a file apply on their own, and whether they also build together. */
  function CheckedFile(env: Environment, file: string, ms: seq<Mutant>): seq<Mutant> {
    var single := Filter(ms, env.applies);
    if !env.readable(file) || (|single| > 1 && !env.builds(single)) then [] else single
  }

  /** Each mutant is applied on its own to a fresh parse of the file. */
  method CheckEach(env: Environment, ms: seq<Mutant>) returns (valid: seq<Mutant>, invalid: seq<Rejection>)
    ensures valid == Filter(ms, env.applies)
    ensures SplitsIds(ms, valid, invalid) && AllHave(invalid, Error)
  {
    valid, invalid := [], [];
    SplitsNothing();
    hide SplitsIds;
    for i := 0 to |ms|
      invariant valid == Filter(ms[..i], env.applies)
      invariant SplitsIds(ms[..i], valid, invalid) && AllHave(invalid, Error)
    {
      assert ms[..i + 1] == ms[..i] + [ms[i]];
      FilterAppend(ms[..i], [ms[i]], env.applies);
      SplitsOne(ms[..i], valid, invalid, ms[i], Error);
      if env.applies(ms[i]) {
        valid := valid + [ms[i]];
      } else {
        invalid := invalid + [Rejection(ms[i].id, Error)];
      }
    }
    assert ms[..|ms|] == ms;
  }

  method CheckFileWithSchemata(env: Environment, file: string, ms: seq<Mutant>)
    returns (valid: seq<Mutant>, invalid: seq<Rejection>)
    requires Distinct(Ids(ms))
    ensures valid == CheckedFile(env, file, ms)
    ensures SplitsIds(ms, valid, invalid) && AllHave(invalid, Error)
  {
    if ms == [] { return [], []; }
    if !env.readable(file) {
      return [], RejectAll(ms, Error);
    }
    hide SplitsIds, Filter;
    valid, invalid := CheckEach(env, ms);
    if |valid| > 1 && !env.builds(valid) {
      DistinctFilter(ms, env.applies);
      var filtered, rejected := RejectListed(valid, Ids(valid));
      SplitsMoved(ms, valid, invalid, rejected);
      return filtered, invalid + rejected;
    }
  }

  lemma SplitsMoved(ms: seq<Mutant>, v: seq<Mutant>, r: seq<Rejection>, r': seq<Rejection>)
    requires SplitsIds(ms, v, r) && RejectedIds(r') == Ids(v)
    ensures SplitsIds(ms, [], r + r')
  {
    RejectedIdsAppend(r, r');
  }

  /**
   The combined check names the ids of the whole file: the first mutant with each id is marked, the marked ones go.
   */
  method RejectListed(ms: seq<Mutant>, badIds: seq<int>) returns (filtered: seq<Mutant>, invalid: seq<Rejection>)
    requires badIds == Ids(ms) && Distinct(badIds)
    ensures filtered == [] && RejectedIds(invalid) == Ids(ms) && AllHave(invalid, Error)
  {
    var marked := ms;
    invalid := [];
    RejectedMore([], Rejection(0, Error));
    hide *;
    for k := 0 to |badIds|
      invariant |marked| == |ms| && (forall i :: 0 <= i < |ms| ==> marked[i].id == badIds[i])
      invariant forall i :: 0 <= i < k ==> marked[i].status == Error
      invariant RejectedIds(invalid) == badIds[..k] && AllHave(invalid, Error)
    {
      var i := FirstWithId(marked, badIds[k], k);
      FirstIsHere(marked, badIds, i, k);
      RejectedMore(invalid, Rejection(badIds[k], Error));
      invalid := invalid + [Rejection(badIds[k], Error)];
      marked := marked[i := marked[i].(status := Error)];
    }
    FilterNone(marked, (m: Mutant) => m.status != Error);
    filtered := Filter(marked, (m: Mutant) => m.status != Error);
  }

  lemma FirstIsHere(marked: seq<Mutant>, ids: seq<int>, i: nat, k: nat)
    requires |marked| == |ids| && i <= k < |ids| && Distinct(ids)
    requires (forall j :: 0 <= j < |ids| ==> marked[j].id == ids[j]) && marked[i].id == ids[k]
    ensures i == k
  {
  }

  method FirstWithId(ms: seq<Mutant>, id: int, ghost k: nat) returns (i: nat)
    requires k < |ms| && ms[k].id == id
    ensures i <= k && ms[i].id == id && forall j :: 0 <= j < i ==> ms[j].id != id
  {
    i := 0;
    while ms[i].id != id
      invariant i <= k && forall j :: 0 <= j < i ==> ms[j].id != id
      decreases k - i
    {
      i := i + 1;
    }
  }

  lemma OneFileMore(ms: seq<Mutant>, files: set<string>, f: string, rest: seq<Mutant>)
    requires f !in files
    ensures multiset(rest + InFiles(ms, files) + InFiles(ms, {f})) == multiset(rest + InFiles(ms, files + {f}))
  {
    FilterDisjoint(ms, OfFiles(files), OfFiles({f}), OfFiles(files + {f}));
    hide Filter, OfFiles;
  }

  lemma FilesStep(ms: seq<Mutant>, files: set<string>, f: string, rest: seq<Mutant>, v: seq<Mutant>, r: seq<Rejection>,
                  v': seq<Mutant>, r': seq<Rejection>)
    requires f !in files
    requires SplitsIds(rest + InFiles(ms, files), v, r) && SplitsIds(InFiles(ms, {f}), v', r')
    ensures SplitsIds(rest + InFiles(ms, files + {f}), v + v', r + r')
  {
    hide *;
    OneFileMore(ms, files, f, rest);
    SplitsAppend(rest + InFiles(ms, files), v, r, InFiles(ms, {f}), v', r');
    SplitsPermuted(rest + InFiles(ms, files) + InFiles(ms, {f}), v + v', r + r', rest + InFiles(ms, files + {f}));
  }

  /** All but the pending files of the map have been answered; `rest` are the mutants outside every file. */
  ghost predicate FilesDone(ms: seq<Mutant>, rest: seq<Mutant>, groups: Groups, pending: set<string>, v: seq<Mutant>,
                            r: seq<Rejection>) {
    pending <= groups.Keys && SplitsIds(rest + InFiles(ms, groups.Keys - pending), v, r)
  }

  lemma NoneDone(ms: seq<Mutant>, rest: seq<Mutant>, groups: Groups, r: seq<Rejection>)
    requires SplitsIds(rest, [], r)
    ensures FilesDone(ms, rest, groups, groups.Keys, [], r)
  {
    FilterNone(ms, OfFiles(groups.Keys - groups.Keys));
    assert rest + [] == rest;
  }

  lemma OneDone(ms: seq<Mutant>, rest: seq<Mutant>, groups: Groups, pending: set<string>, v: seq<Mutant>,
                r: seq<Rejection>,
                f: string, v': seq<Mutant>, r': seq<Rejection>)
    requires GroupsOf(groups, ms) && f in pending
    requires FilesDone(ms, rest, groups, pending, v, r) && SplitsIds(groups[f], v', r')
    ensures FilesDone(ms, rest, groups, pending - {f}, v + v', r + r')
  {
    hide SplitsIds, InFiles;
    FilesStep(ms, groups.Keys - pending, f, rest, v, r, v', r');
    assert groups.Keys - pending + {f} == groups.Keys - (pending - {f});
  }

  lemma AllDone(ms: seq<Mutant>, rest: seq<Mutant>, groups: Groups, v: seq<Mutant>, r: seq<Rejection>)
    requires GroupsOf(groups, ms) && rest == Filter(ms, HasNoFile()) && FilesDone(ms, rest, groups, {}, v, r)
    ensures SplitsIds(ms, v, r)
  {
    var p, q := HasNoFile(), OfFiles(groups.Keys);
    var all := (m: Mutant) => p(m) || q(m);
    FilterDisjoint(ms, p, q, all);
    FilterAll(ms, all);
    assert groups.Keys - {} == groups.Keys;
    SplitsPermuted(rest + InFiles(ms, groups.Keys), v, r, ms);
  }

  lemma GroupIsFile(ms: seq<Mutant>, groups: Groups, f: string)
    requires GroupsOf(groups, ms) && f in groups
    ensures groups[f] == InFiles(ms, {f})
  {
  }

  lemma GroupDistinct(ms: seq<Mutant>, groups: Groups, f: string)
    requires GroupsOf(groups, ms) && f in groups && Distinct(Ids(ms))
    ensures Distinct(Ids(groups[f]))
  {
    DistinctFilter(ms, OfFiles({f}));
  }

  /** What a level accepts of each file. */
  type Answer = string -> seq<Mutant>

  /** The accepted mutants of every file are the answer for that file, in order; pending files have none yet. */
  ghost predicate Answered(valid: seq<Mutant>, pending: set<string>, answer: Answer) {
    forall f :: InFiles(valid, {f}) == if f in pending then [] else answer(f)
  }

  lemma AnsweredNone(ms: seq<Mutant>, groups: Groups, answer: Answer)
    requires GroupsOf(groups, ms) && forall f :: InFiles(ms, {f}) == [] ==> answer(f) == []
    ensures Answered([], groups.Keys, answer)
  {
    hide InFiles;
    forall f ensures InFiles([], {f}) == if f in groups.Keys then [] else answer(f) {
      FilterNone([], OfFiles({f}));
      assert InFiles([], {f}) == [] by { NothingInFile(f); }
      if f !in groups { NoGroup(groups, ms, f); }
    }
  }

  lemma NothingInFile(f: string)
    ensures InFiles([], {f}) == []
  {
  }

  lemma AnsweredMore(valid: seq<Mutant>, pending: set<string>, answer: Answer, f: string, v: seq<Mutant>)
    requires Answered(valid, pending, answer) && f in pending && v == answer(f)
    requires forall m :: m in v ==> m.file == Some(f)
    ensures Answered(valid + v, pending - {f}, answer)
  {
    forall g ensures InFiles(valid + v, {g}) == InFiles(valid, {g}) + if g == f then v else [] {
      FilterAppend(valid, v, OfFiles({g}));
      if g == f { FilterAll(v, OfFiles({g})); } else { FilterNone(v, OfFiles({g})); }
    }
    hide InFiles;
  }

  lemma OfItsFile(ms: seq<Mutant>, groups: Groups, f: string, v: seq<Mutant>, r: seq<Rejection>)
    requires GroupsOf(groups, ms) && f in groups && SplitsIds(groups[f], v, r)
    ensures forall m :: m in v ==> m.file == Some(f)
  {
    forall m | m in v ensures m.file == Some(f) { assert m in InFiles(ms, {f}); }
  }

  function Level2Of(env: Environment, ms: seq<Mutant>): Answer { (f: string) => CheckedFile(env, f, InFiles(ms, {f})) }

  function Level3Of(env: Environment, ms: seq<Mutant>): Answer {
    (f: string) => TypeChecked(env, f, InFiles(ms, {f})).valid
  }

  /** The files are visited in the order of the map, which is any order. */
  method Level2PackagePreflight(env: Environment, ms: seq<Mutant>) returns (valid: seq<Mutant>, invalid: seq<Rejection>)
    requires Distinct(Ids(ms))
    ensures SplitsIds(ms, valid, invalid) && AllRejected(invalid)
    ensures (forall m :: m in ms ==> m.file.Some?) ==> AllHave(invalid, Error)
    ensures Answered(valid, {}, Level2Of(env, ms))
  {
    hide *;
    var groups, fileless := GroupByFile(ms);
    valid, invalid := [], RejectAll(fileless, Invalid);
    AllSplit(fileless, Invalid);
    NoneDone(ms, fileless, groups, invalid);
    NothingChecked(env, ms, groups);
    JoinRejected([], invalid);
    assert [] + invalid == invalid;
    NoneFileless(ms, fileless);
    var pending := groups.Keys;
    while pending != {}
      invariant FilesDone(ms, fileless, groups, pending, valid, invalid)
      invariant pending <= groups.Keys && AllRejected(invalid)
      invariant (forall m :: m in ms ==> m.file.Some?) ==> AllHave(invalid, Error)
      invariant Answered(valid, pending, Level2Of(env, ms))
    {
      var file :| file in pending;
      GroupDistinct(ms, groups, file);
      var v, r := CheckFileWithSchemata(env, file, groups[file]);
      OfItsFile(ms, groups, file, v, r);
      GroupIsFile(ms, groups, file);
      Level2At(env, ms, file);
      AnsweredMore(valid, pending, Level2Of(env, ms), file, v);
      JoinRejected(invalid, r);
      JoinErrors(invalid, r);
      OneDone(ms, fileless, groups, pending, valid, invalid, file, v, r);
      valid, invalid, pending := valid + v, invalid + r, pending - {file};
    }
    AllDone(ms, fileless, groups, valid, invalid);
  }

  lemma AllSplit(ms: seq<Mutant>, s: Status)
    ensures SplitsIds(ms, [], RejectAll(ms, s))
  {
  }

  lemma JoinRejected(a: seq<Rejection>, b: seq<Rejection>)
    ensures AllRejected([])
    ensures AllRejected(a) && (AllHave(b, Invalid) || AllHave(b, Error)) ==> AllRejected(a + b)
  {
  }

  lemma JoinErrors(a: seq<Rejection>, b: seq<Rejection>)
    ensures AllHave([], Error)
    ensures AllHave(a, Error) && AllHave(b, Error) ==> AllHave(a + b, Error)
  {
  }

  lemma NoneFileless(ms: seq<Mutant>, fileless: seq<Mutant>)
    requires fileless == Filter(ms, HasNoFile())
    ensures (forall m :: m in ms ==> m.file.Some?) ==> AllHave(RejectAll(fileless, Invalid), Error)
  {
    if forall m :: m in ms ==> m.file.Some? { FilterNone(ms, HasNoFile()); }
  }

  lemma NothingChecked(env: Environment, ms: seq<Mutant>, groups: Groups)
    requires GroupsOf(groups, ms)
    ensures Answered([], groups.Keys, Level2Of(env, ms))
  {
    AnsweredNone(ms, groups, Level2Of(env, ms));
  }

  lemma Level2At(env: Environment, ms: seq<Mutant>, f: string)
    ensures Level2Of(env, ms)(f) == CheckedFile(env, f, InFiles(ms, {f}))
  {
  }

  // ---- Level 3 ----

  /** A group fails when the checker panics, the transformation fails, or an error is left over the file's own. */
  function TypeFails(env: Environment, file: string): Oracle<Mutant> {
    (t: nat, ms: seq<Mutant>) =>
      match env.typeCheck(t, ms)
      case Checked(errors) => TypeErrors.Check(errors, multiset(TypeErrors.Messages(env.baseline(file)))).newErrors
          != []
      case _ => true
  }

  /** A group passes exactly when it was checked and no message occurs more often than in the unmodified file. */
  lemma PassesIff(env: Environment, file: string, t: nat, ms: seq<Mutant>)
    ensures !TypeFails(env, file)(t, ms)
       <==> env.typeCheck(t, ms).Checked?
            && multiset(TypeErrors.Messages(env.typeCheck(t, ms).errors))
                <= multiset(TypeErrors.Messages(env.baseline(file)))
  {
    if env.typeCheck(t, ms).Checked? {
      TypeErrors.PassesWithinBaseline(env.typeCheck(t, ms).errors, multiset(TypeErrors.Messages(env.baseline(file))));
    }
  }

  function TypeChecked(env: Environment, file: string, ms: seq<Mutant>): Split<Mutant> {
    if env.readable(file) && TypeFails(env, file)(0, ms) then BisectMutants(TypeFails(env, file), 1, ms)
        else Split(ms, [], 1)
  }

  lemma TypeCheckSplits(env: Environment, file: string, ms: seq<Mutant>)
    ensures var s := TypeChecked(env, file, ms);
            SplitsIds(ms, s.valid, RejectAll(s.invalid, Error))
  {
    hide TypeFails, BisectMutants;
    var s := TypeChecked(env, file, ms);
    if env.readable(file) && TypeFails(env, file)(0, ms) { var _ := BisectPartition(TypeFails(env, file), 1, ms); }
    assert multiset(s.valid + s.invalid) == multiset(ms);
    IdsPermute(s.valid + s.invalid, ms);
    IdsAppend(s.valid, s.invalid);
    forall m | m in s.valid ensures m in ms { assert m in multiset(s.valid + s.invalid); }
  }

  /** The results of the files arrive in any order; a mutant without a file would be forgotten. */
  method Level3TypeCheckPreflight(env: Environment, ms: seq<Mutant>)
    returns (valid: seq<Mutant>, invalid: seq<Rejection>)
    requires forall m :: m in ms ==> m.file.Some?
    ensures SplitsIds(ms, valid, invalid) && AllHave(invalid, Error)
    ensures Answered(valid, {}, Level3Of(env, ms))
  {
    FilterNone(ms, HasNoFile());
    hide *;
    var groups, fileless := GroupByFile(ms);
    valid, invalid := [], [];
    SplitsNothing();
    NoneDone(ms, fileless, groups, invalid);
    NothingTypeChecked(env, ms, groups);
    JoinErrors([], []);
    var pending := groups.Keys;
    while pending != {}
      invariant FilesDone(ms, fileless, groups, pending, valid, invalid) && pending <= groups.Keys
                && AllHave(invalid, Error)
      invariant Answered(valid, pending, Level3Of(env, ms))
    {
      var file :| file in pending;
      var s := TypeChecked(env, file, groups[file]);
      var rejected := RejectAll(s.invalid, Error);
      TypeCheckSplits(env, file, groups[file]);
      OfItsFile(ms, groups, file, s.valid, rejected);
      GroupIsFile(ms, groups, file);
      Level3At(env, ms, file);
      AnsweredMore(valid, pending, Level3Of(env, ms), file, s.valid);
      JoinErrors(invalid, rejected);
      OneDone(ms, fileless, groups, pending, valid, invalid, file, s.valid, rejected);
      valid, invalid, pending := valid + s.valid, invalid + rejected, pending - {file};
    }
    AllDone(ms, fileless, groups, valid, invalid);
  }

  lemma NothingTypeChecked(env: Environment, ms: seq<Mutant>, groups: Groups)
    requires GroupsOf(groups, ms)
    ensures Answered([], groups.Keys, Level3Of(env, ms))
  {
    AnsweredNone(ms, groups, Level3Of(env, ms));
  }

  lemma Level3At(env: Environment, ms: seq<Mutant>, f: string)
    ensures Level3Of(env, ms)(f) == TypeChecked(env, f, InFiles(ms, {f})).valid
  {
  }

  // ---- All three ----

  lemma SplitsAgain(ms: seq<Mutant>, v: seq<Mutant>, r: seq<Rejection>, v': seq<Mutant>, r': seq<Rejection>)
    requires SplitsIds(ms, v, r) && SplitsIds(v, v', r')
    ensures SplitsIds(ms, v', r + r')
  {
    RejectedIdsAppend(r, r');
  }

  /** What survives of a file: the acceptable mutants that apply and build, and of these what type-checks. */
  function Survivors(env: Environment, ms: seq<Mutant>): Answer {
    (f: string) => TypeChecked(env, f, CheckedFile(env, f, InFiles(Filter(ms, Acceptable(env)), {f}))).valid
  }

  lemma SurvivorsOf(env: Environment, ms: seq<Mutant>, v2: seq<Mutant>, v3: seq<Mutant>)
    requires Answered(v2, {}, Level2Of(env, Filter(ms, Acceptable(env)))) && Answered(v3, {}, Level3Of(env, v2))
    ensures Answered(v3, {}, Survivors(env, ms))
  {
    hide InFiles, TypeChecked, CheckedFile, Filter;
  }

  lemma NoSurvivors(env: Environment)
    ensures Answered([], {}, Level2Of(env, [])) && Answered([], {}, Level3Of(env, []))
  {
    forall f ensures InFiles([], {f}) == [] { NothingInFile(f); }
  }

  /** Invalid are the ids of the mutants that the first level turns down, errors all other rejected ids. */
  ghost predicate ByLevel(env: Environment, ms: seq<Mutant>, rs: seq<Rejection>) {
    forall r :: r in rs ==> (r.status == Invalid || r.status == Error)
                            && (r.status == Invalid <==> exists m :: m in ms && m.id == r.id
                                                           && StaticallyInvalid(env, m))
  }

  /**
   The ids are divided among the three levels and the survivors, and the survivors of every file are the same
   however maps and workers order the files.
   */
  method RunPreflight(env: Environment, mutants: array<Mutant>) returns (valid: seq<Mutant>, invalid: seq<Rejection>)
    requires Distinct(Ids(mutants[..]))
    modifies mutants
    ensures SplitsIds(old(mutants[..]), valid, invalid) && AllRejected(invalid)
    ensures ByLevel(env, old(mutants[..]), invalid)
    ensures Ids(mutants[..]) == Ids(old(mutants[..]))
    ensures Answered(valid, {}, Survivors(env, old(mutants[..])))
    ensures forall m :: m in valid ==> !StaticallyInvalid(env, m)
  {
    hide *;
    ghost var ms := mutants[..];
    var v1, r1 := QuickStaticFilter(env, mutants);
    MarkedIds(env, ms, mutants[..]);
    AfterLevel1(env, ms, v1, r1);
    LevelOne(env, ms, v1, r1);
    NoSurvivors(env);
    if v1 == [] {
      SurvivorsOf(env, ms, [], []);
      return [], r1;
    }
    var v2, r2 := Level2PackagePreflight(env, v1);
    ErrorsRejected(r2);
    AfterLevel(env, ms, v1, r1, v2, r2);
    LevelMore(env, ms, v1, r1, v1, v2, r2);
    StillDistinct(v1, v2, r2);
    if v2 == [] {
      SurvivorsOf(env, ms, v2, []);
      return [], r1 + r2;
    }
    var v3, r3 := Level3TypeCheckPreflight(env, v2);
    ErrorsRejected(r3);
    AfterLevel(env, ms, v2, r1 + r2, v3, r3);
    LevelMore(env, ms, v1, r1 + r2, v2, v3, r3);
    SurvivorsOf(env, ms, v2, v3);
    return v3, r1 + r2 + r3;
  }

  lemma ErrorsRejected(rs: seq<Rejection>)
    requires AllHave(rs, Error)
    ensures AllRejected(rs)
  {
  }

  lemma RejectedSomewhere(ms: seq<Mutant>, v: seq<Mutant>, rs: seq<Rejection>, r: Rejection)
    requires SplitsIds(ms, v, rs) && r in rs && Distinct(Ids(ms))
    ensures (exists m :: m in ms && m.id == r.id) && r.id !in Ids(v)
  {
    IdOf(rs, r);
    assert r.id in multiset(RejectedIds(rs));
    assert r.id in multiset(Ids(ms));
    assert r.id in Ids(ms);
    DistinctOnce(Ids(ms), r.id);
    assert multiset(Ids(v))[r.id] == 0;
    assert r.id !in multiset(Ids(v));
  }

  lemma {:induction false} IdOf(rs: seq<Rejection>, r: Rejection)
    requires r in rs
    ensures r.id in RejectedIds(rs)
    decreases |rs|
  {
    if rs[0] != r {
      IdOf(rs[1..], r);
    }
  }

  lemma StillDistinct(ms: seq<Mutant>, v: seq<Mutant>, rs: seq<Rejection>)
    requires SplitsIds(ms, v, rs) && Distinct(Ids(ms))
    ensures Distinct(Ids(v))
  {
    DistinctRest(Ids(ms), Ids(v), RejectedIds(rs));
  }

  lemma Listed(ms: seq<Mutant>, m: Mutant)
    ensures m in ms ==> m.id in Ids(ms)
  {
    if i :| 0 <= i < |ms| && ms[i] == m { assert Ids(ms)[i] == m.id; }
  }

  lemma SameMutant(ms: seq<Mutant>, a: Mutant, b: Mutant)
    requires Distinct(Ids(ms)) && a in ms && b in ms && a.id == b.id
    ensures a == b
  {
    var i :| 0 <= i < |ms| && ms[i] == a;
    var j :| 0 <= j < |ms| && ms[j] == b;
    OnlyOne(ms, i);
    hide Ids, Distinct;
  }

  lemma LevelOne(env: Environment, ms: seq<Mutant>, v: seq<Mutant>, rs: seq<Rejection>)
    requires Level1(env, ms, v, rs) && Distinct(Ids(ms))
    ensures ByLevel(env, ms, rs)
  {
    forall r | r in rs ensures exists m :: m in ms && m.id == r.id && StaticallyInvalid(env, m) {
      RejectedSomewhere(ms, v, rs, r);
      var m :| m in ms && m.id == r.id;
      Listed(v, m);
    }
  }

  lemma LevelMore(env: Environment, ms: seq<Mutant>, v1: seq<Mutant>, rs: seq<Rejection>, v: seq<Mutant>,
                  v': seq<Mutant>, rs': seq<Rejection>)
    requires Distinct(Ids(ms)) && Distinct(Ids(v)) && ByLevel(env, ms, rs)
    requires (forall m :: m in v ==> m in v1) && forall m :: m in v1 ==> m in ms && !StaticallyInvalid(env, m)
    requires SplitsIds(v, v', rs') && AllHave(rs', Error)
    ensures ByLevel(env, ms, rs + rs')
  {
    hide Ids, Distinct, SplitsIds, StaticallyInvalid;
    forall r | r in rs' ensures r.status == Error && !exists m :: m in ms && m.id == r.id && StaticallyInvalid(env, m) {
      RejectedSomewhere(v, v', rs', r);
      var o :| o in v && o.id == r.id;
      forall m | m in ms && m.id == r.id ensures !StaticallyInvalid(env, m) { SameMutant(ms, m, o); }
    }
  }

  lemma MarkedIds(env: Environment, before: seq<Mutant>, now: seq<Mutant>)
    requires |now| == |before| && forall i :: 0 <= i < |now| ==> now[i] == Marked(env, before[i])
    ensures Ids(now) == Ids(before)
  {
    SameIds(before, now);
  }

  lemma AfterLevel1(env: Environment, ms: seq<Mutant>, v: seq<Mutant>, r: seq<Rejection>)
    requires Level1(env, ms, v, r) && Distinct(Ids(ms))
    ensures v == Filter(ms, Acceptable(env)) && SplitsIds(ms, v, r) && AllRejected(r) && Distinct(Ids(v))
    ensures forall m :: m in v ==> !StaticallyInvalid(env, m) && m.file.Some?
  {
    DistinctRest(Ids(ms), Ids(v), RejectedIds(r));
  }

  lemma AfterLevel(env: Environment, ms: seq<Mutant>, v: seq<Mutant>, r: seq<Rejection>, v': seq<Mutant>,
                   r': seq<Rejection>)
    requires SplitsIds(ms, v, r) && SplitsIds(v, v', r') && AllRejected(r) && AllRejected(r')
    ensures SplitsIds(ms, v', r + r') && AllRejected(r + r') && forall m :: m in v' ==> m in v
  {
    SplitsAgain(ms, v, r, v', r');
  }
}
