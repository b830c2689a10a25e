/** Which mutants pass all three filters, said of the answers of parser, build and type checker alone. */
module Survivors {
  import opened Wrappers
  import opened Mutants
  import opened Selection
  import opened Preflight
  import opened TypeErrors
  import Bisect

  /** The mutant has a node in this file, is not unsafe, and applies to a fresh parse. */
  predicate Fit(env: Environment, f: string, m: Mutant) {
    m.hasNode && m.file == Some(f) && !env.unsafe(m) && env.applies(m)
  }

  function FitIn(env: Environment, f: string): Mutant -> bool { (m: Mutant) => Fit(env, f, m) }

  /** The fit mutants of a file, in order. */
  function Candidates(env: Environment, ms: seq<Mutant>, f: string): seq<Mutant> { Filter(ms, FitIn(env, f)) }

  /** Taking off one test after the other is taking off their conjunction. */
  lemma {:induction false} FilterTwice<T(!new)>(s: seq<T>, p: T -> bool, q: T -> bool, both: T -> bool)
    requires forall x :: both(x) <==> p(x) && q(x)
    ensures Filter(Filter(s, p), q) == Filter(s, both)
    decreases |s|
  {
    if s != [] {
      FilterTwice(s[1..], p, q, both);
      var rest := Filter(s[1..], p);
      assert ([s[0]] + rest)[1..] == rest && [] + rest == rest;
      assert Filter(s, p) == if p(s[0]) then [s[0]] + rest else rest;
    }
  }

  lemma CandidatesAre(env: Environment, ms: seq<Mutant>, f: string)
    ensures Filter(InFiles(Filter(ms, Acceptable(env)), {f}), env.applies) == Candidates(env, ms, f)
  {
    var p, q := Acceptable(env), OfFiles({f});
    var pq := (m: Mutant) => p(m) && q(m);
    FilterTwice(ms, p, q, pq);
    FilterTwice(ms, pq, env.applies, FitIn(env, f));
  }

  /** The checker looked at the group and found no message more often than in the unmodified file. */
  ghost predicate Clean(env: Environment, f: string, t: nat, group: seq<Mutant>) {
    env.typeCheck(t, group).Checked?
    && multiset(Messages(env.typeCheck(t, group).errors)) <= multiset(Messages(env.baseline(f)))
  }

  /** The candidates of a file reach the type checker if it can be read and they build, when there are several. */
  predicate Together(env: Environment, f: string, c: seq<Mutant>) {
    env.readable(f) && (|c| > 1 ==> env.builds(c))
  }

  /** Blocks of candidates, one after the other, each found clean in some call. */
  ghost predicate CleanBlocks(env: Environment, f: string, v: seq<Mutant>, blocks: seq<seq<Mutant>>) {
    Bisect.Flatten(blocks) == v && forall b :: b in blocks ==> exists t: nat :: Clean(env, f, t, b)
  }

  /**
   Of each file survive all fit mutants if they are clean together, nobody if they cannot be read or built together,
   and otherwise what bisection accepts, which are blocks of fit mutants that were each found clean.
   */
  lemma SurvivorsOfFile(env: Environment, ms: seq<Mutant>, valid: seq<Mutant>, f: string)
    returns (blocks: seq<seq<Mutant>>)
    requires Answered(valid, {}, Preflight.Survivors(env, ms))
    ensures var c, v := Candidates(env, ms, f), InFiles(valid, {f});
            && (!Together(env, f, c) ==> v == [])
            && (Together(env, f, c) && Clean(env, f, 0, c) ==> v == c)
            && (Together(env, f, c) ==> CleanBlocks(env, f, v, blocks) && forall m :: m in v ==> m in c)
  {
    var c := Candidates(env, ms, f);
    CandidatesAre(env, ms, f);
    assert CheckedFile(env, f, InFiles(Filter(ms, Acceptable(env)), {f})) == if Together(env, f, c) then c else [];
    hide Filter, TypeFails, Candidates, CheckedFile, TypeChecked;
    blocks := [];
    if Together(env, f, c) {
      blocks := CheckedTogether(env, f, c);
    } else {
      Members(env, f, []);
    }
  }

  lemma Members(env: Environment, f: string, c: seq<Mutant>)
    ensures forall m :: m in TypeChecked(env, f, c).valid ==> m in c
    ensures c == [] ==> TypeChecked(env, f, c).valid == []
  {
    TypeCheckSplits(env, f, c);
    hide TypeChecked;
    NoElement(TypeChecked(env, f, c).valid);
  }

  lemma NoElement(v: seq<Mutant>)
    ensures (forall m :: m !in v) ==> v == []
  {
    if v != [] { assert v[0] in v; }
  }

  lemma CheckedTogether(env: Environment, f: string, c: seq<Mutant>) returns (blocks: seq<seq<Mutant>>)
    requires env.readable(f)
    ensures var v := TypeChecked(env, f, c).valid;
            CleanBlocks(env, f, v, blocks) && (Clean(env, f, 0, c) ==> v == c) && forall m :: m in v ==> m in c
  {
    hide TypeFails, Bisect.BisectMutants, Clean;
    var fails := TypeFails(env, f);
    Members(env, f, c);
    PassesAre(env, f);
    if fails(0, c) {
      blocks := Bisect.AcceptedInBlocks(fails, 1, c);
      forall b | b in blocks ensures exists t: nat :: Clean(env, f, t, b) {
        var k :| 0 <= k < |blocks| && blocks[k] == b;
        assert Bisect.Passed(fails, blocks[k]);
      }
    } else {
      blocks := [c];
      assert Bisect.Flatten([c][1..]) == [];
      assert Bisect.Flatten([c]) == c;
    }
  }

  lemma PassesAre(env: Environment, f: string)
    ensures forall t: nat, group :: !TypeFails(env, f)(t, group) <==> Clean(env, f, t, group)
  {
    forall t: nat, group ensures !TypeFails(env, f)(t, group) <==> Clean(env, f, t, group) {
      PassesIff(env, f, t, group);
    }
  }
}
