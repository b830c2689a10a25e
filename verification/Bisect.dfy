/** The recursive search of the type-check level: which mutants of a failing group to reject. */
module Bisect {
  import opened Selection

  /**
   What a check says of a group; it may answer differently each time it is asked, so the first argument counts the
   checks.
   */
  type Oracle<!T> = (nat, seq<T>) -> bool

  /** Valid and invalid members of a group, and how many checks were made when that was known. */
  datatype Split<T> = Split(valid: seq<T>, invalid: seq<T>, next: nat)

  /** A half that failed its check (type errors, or a panic of the checker) is searched, one that passed is accepted. */
  function Half<T>(fails: Oracle<T>, failed: bool, t: nat, half: seq<T>): Split<T>
    decreases |half|, 1
  {
    if failed then BisectMutants(fails, t, half) else Split(half, [], t)
  }

  /** Both halves are checked before either is searched; a single mutant is checked again. */
  function BisectMutants<T>(fails: Oracle<T>, t: nat, ms: seq<T>): Split<T>
    decreases |ms|, 0
  {
    if ms == [] then Split([], [], t)
    else if |ms| == 1 then
      if fails(t, ms) then Split([], ms, t + 1) else Split(ms, [], t + 1)
    else
      var mid := |ms| / 2;
      var l := Half(fails, fails(t, ms[..mid]), t + 2, ms[..mid]);
      var r := Half(fails, fails(t + 1, ms[mid..]), l.next, ms[mid..]);
      Split(l.valid + r.valid, l.invalid + r.invalid, r.next)
  }

  /** The two halves of a list of two or more, both shorter than it. */
  ghost predicate Halves<T>(ms: seq<T>, a: seq<T>, b: seq<T>) {
    |ms| >= 2 && a + b == ms && |a| == |ms| / 2
  }

  /** The answers for the halves, and the number of the check that follows the first search. */
  lemma SearchHalves<T>(fails: Oracle<T>, t: nat, ms: seq<T>) returns (a: seq<T>, b: seq<T>, t': nat)
    requires |ms| >= 2
    ensures Halves(ms, a, b) && |a| < |ms| && |b| < |ms|
    ensures var l, r := Half(fails, fails(t, a), t + 2, a), Half(fails, fails(t + 1, b), t', b);
            t' == l.next && BisectMutants(fails, t, ms) == Split(l.valid + r.valid, l.invalid + r.invalid, r.next)
  {
    a, b := ms[..|ms| / 2], ms[|ms| / 2..];
    t' := Half(fails, fails(t, a), t + 2, a).next;
  }

  // ---- Whatever the checks answer ----

  /** `marks` says of each member of the group whether it is rejected. */
  ghost predicate SplitBy<T>(s: Split<T>, ms: seq<T>, marks: seq<bool>) {
    |marks| == |ms| && s.valid == Pick(ms, marks, false) && s.invalid == Pick(ms, marks, true)
  }

  lemma SplitAppend<T>(a: Split<T>, ms: seq<T>, marks: seq<bool>, b: Split<T>, ms': seq<T>, marks': seq<bool>, n: nat)
    requires SplitBy(a, ms, marks) && SplitBy(b, ms', marks')
    ensures SplitBy(Split(a.valid + b.valid, a.invalid + b.invalid, n), ms + ms', marks + marks')
  {
    PickAppend(ms, ms', marks, marks', false);
    PickAppend(ms, ms', marks, marks', true);
  }

  /** Every member is either accepted or rejected, not both, and both lists keep the order of the group. */
  lemma {:induction false} BisectPartition<T>(fails: Oracle<T>, t: nat, ms: seq<T>) returns (marks: seq<bool>)
    ensures SplitBy(BisectMutants(fails, t, ms), ms, marks)
    ensures multiset(BisectMutants(fails, t, ms).valid) + multiset(BisectMutants(fails, t, ms).invalid) == multiset(ms)
    decreases |ms|, 0
  {
    if |ms| < 2 {
      marks := seq(|ms|, i => fails(t, ms));
    } else {
      hide Pick;
      var a, b, t' := SearchHalves(fails, t, ms);
      hide BisectMutants;
      var ma := HalfPartition(fails, fails(t, a), t + 2, a);
      var mb := HalfPartition(fails, fails(t + 1, b), t', b);
      marks := ma + mb;
      SplitAppend(Half(fails, fails(t, a), t + 2, a), a, ma, Half(fails, fails(t + 1, b), t', b), b, mb,
          BisectMutants(fails, t, ms).next);
    }
    PickPartition(ms, marks);
  }

  lemma {:induction false} HalfPartition<T>(fails: Oracle<T>, failed: bool, t: nat, half: seq<T>)
    returns (marks: seq<bool>)
    ensures SplitBy(Half(fails, failed, t, half), half, marks)
    decreases |half|, 1
  {
    if failed {
      marks := BisectPartition(fails, t, half);
    } else {
      marks := seq(|half|, i => false);
      PickConstant(half, false);
    }
  }

  function Flatten<T>(blocks: seq<seq<T>>): seq<T> {
    if blocks == [] then [] else blocks[0] + Flatten(blocks[1..])
  }

  lemma {:induction false} FlattenAppend<T>(a: seq<seq<T>>, b: seq<seq<T>>)
    ensures Flatten(a + b) == Flatten(a) + Flatten(b)
  {
    if a == [] {
      assert a + b == b;
    } else {
      assert (a + b)[1..] == a[1..] + b;
      FlattenAppend(a[1..], b);
    }
  }

  ghost predicate Passed<T(!new)>(fails: Oracle<T>, block: seq<T>) { exists t: nat :: !fails(t, block) }

  ghost predicate PassedAsBlocks<T(!new)>(fails: Oracle<T>, valid: seq<T>, blocks: seq<seq<T>>) {
    Flatten(blocks) == valid && forall k :: 0 <= k < |blocks| ==> Passed(fails, blocks[k])
  }

  /** What is accepted is a sequence of blocks, each of which passed a check as that block. */
  lemma {:induction false} AcceptedInBlocks<T(!new)>(fails: Oracle<T>, t: nat, ms: seq<T>) returns (blocks: seq<seq<T>>)
    ensures PassedAsBlocks(fails, BisectMutants(fails, t, ms).valid, blocks)
    decreases |ms|, 0
  {
    if |ms| < 2 {
      blocks := if ms == [] || fails(t, ms) then [] else [ms];
      assert Flatten([ms]) == ms;
    } else {
      var a, b, t' := SearchHalves(fails, t, ms);
      hide BisectMutants, Flatten, Passed;
      var ba := HalfInBlocks(fails, t, fails(t, a), t + 2, a);
      var bb := HalfInBlocks(fails, t + 1, fails(t + 1, b), t', b);
      blocks := ba + bb;
      FlattenAppend(ba, bb);
    }
  }

  lemma {:induction false} HalfInBlocks<T(!new)>(fails: Oracle<T>, asked: nat, failed: bool, t: nat, half: seq<T>)
    returns (blocks: seq<seq<T>>)
    requires failed == fails(asked, half)
    ensures PassedAsBlocks(fails, Half(fails, failed, t, half).valid, blocks)
    decreases |half|, 1
  {
    if failed {
      blocks := AcceptedInBlocks(fails, t, half);
    } else {
      blocks := [half];
      assert Flatten([half]) == half;
    }
  }

  // ---- When a group fails exactly if it holds a bad mutant ----

  ghost predicate HasBad<T(!new)>(bad: T -> bool, g: seq<T>) { exists m :: m in g && bad(m) }

  ghost predicate FailsByBad<T(!new)>(fails: Oracle<T>, bad: T -> bool) {
    forall t: nat, g :: fails(t, g) <==> HasBad(bad, g)
  }

  function Not<T>(p: T -> bool): T -> bool { x => !p(x) }

  /** The invalid ones are exactly the bad ones, the valid ones exactly the others. */
  lemma {:induction false} BisectExact<T(!new)>(fails: Oracle<T>, bad: T -> bool, t: nat, ms: seq<T>)
    requires FailsByBad(fails, bad)
    ensures BisectMutants(fails, t, ms).invalid == Filter(ms, bad)
    ensures BisectMutants(fails, t, ms).valid == Filter(ms, Not(bad))
    decreases |ms|, 0
  {
    if |ms| < 2 {
      assert fails(t, ms) <==> HasBad(bad, ms);
      assert |ms| == 1 ==> (fails(t, ms) <==> bad(ms[0]));
    } else {
      hide FailsByBad, Filter;
      var a, b, t' := SearchHalves(fails, t, ms);
      hide BisectMutants, Half;
      HalfExact(fails, bad, t, t + 2, a);
      HalfExact(fails, bad, t + 1, t', b);
      FilterAppend(a, b, bad);
      FilterAppend(a, b, Not(bad));
    }
  }

  lemma {:induction false} HalfExact<T(!new)>(fails: Oracle<T>, bad: T -> bool, asked: nat, t: nat, half: seq<T>)
    requires FailsByBad(fails, bad)
    ensures Half(fails, fails(asked, half), t, half).invalid == Filter(half, bad)
    ensures Half(fails, fails(asked, half), t, half).valid == Filter(half, Not(bad))
    decreases |half|, 1
  {
    if fails(asked, half) {
      BisectExact(fails, bad, t, half);
    } else {
      assert !HasBad(bad, half);
      FilterAll(half, Not(bad));
      FilterNone(half, bad);
    }
  }

  /** How often `n` can be halved, rounding up, before one is left. */
  function CeilLog2(n: nat): nat {
    if n <= 1 then 0 else 1 + CeilLog2((n + 1) / 2)
  }

  function Pow2(k: nat): nat { if k == 0 then 1 else 2 * Pow2(k - 1) }

  /** It is the logarithm: the least `k` with `n <= 2^k`. */
  lemma {:induction false} CeilLog2IsLeast(n: nat, k: nat)
    ensures n <= Pow2(k) <==> CeilLog2(n) <= k
    decreases k
  {
    if n <= 1 {
      assert Pow2(k) >= 1 by { Pow2Positive(k); }
    } else if k > 0 {
      CeilLog2IsLeast((n + 1) / 2, k - 1);
    }
  }

  lemma {:induction false} Pow2Positive(k: nat)
    ensures Pow2(k) >= 1
  {
    if k > 0 { Pow2Positive(k - 1); }
  }

  lemma CeilLog2Monotone(m: nat, n: nat)
    requires m <= n
    ensures CeilLog2(m) <= CeilLog2(n)
  {
    CeilLog2IsLeast(n, CeilLog2(n));
    CeilLog2IsLeast(m, CeilLog2(n));
  }

  /** The checks allowed for `k` bad mutants in a group that is halved `depth` times. */
  function Allowed(k: nat, depth: nat): nat { k * (2 * depth + 1) }

  /** With `k` bad mutants among `n`, k >= 1, at most `k * (2 * ceil(log2 n) + 1)` checks are made. */
  lemma {:induction false} BisectCost<T(!new)>(fails: Oracle<T>, bad: T -> bool, t: nat, ms: seq<T>)
    requires FailsByBad(fails, bad) && Filter(ms, bad) != []
    ensures BisectMutants(fails, t, ms).next - t <= |Filter(ms, bad)| * (2 * CeilLog2(|ms|) + 1)
    decreases |ms|, 0
  {
    hide BisectMutants, Filter, CeilLog2, FailsByBad;
    BisectAllowed(fails, bad, t, ms);
  }

  lemma {:induction false} BisectAllowed<T(!new)>(fails: Oracle<T>, bad: T -> bool, t: nat, ms: seq<T>)
    requires FailsByBad(fails, bad) && Filter(ms, bad) != []
    ensures BisectMutants(fails, t, ms).next - t <= Allowed(|Filter(ms, bad)|, CeilLog2(|ms|))
    decreases |ms|, 0
  {
    hide *;
    if |ms| < 2 {
      OneAllowed(fails, bad, t, ms);
    } else {
      var a, b, t' := SearchHalves(fails, t, ms);
      FilterAppend(a, b, bad);
      var half := (|ms| + 1) / 2;
      HalvesFit(ms, a, b);
      CeilLog2Monotone(|a|, half);
      CeilLog2Monotone(|b|, half);
      HalfCost(fails, bad, t, t + 2, a, CeilLog2(half));
      HalfCost(fails, bad, t + 1, t', b, CeilLog2(half));
      HalvingDepth(|ms|);
      CostsAdd(t, t', BisectMutants(fails, t, ms).next, |Filter(a, bad)|, |Filter(b, bad)|, CeilLog2(half));
    }
  }

  lemma OneAllowed<T(!new)>(fails: Oracle<T>, bad: T -> bool, t: nat, ms: seq<T>)
    requires |ms| < 2 && Filter(ms, bad) != []
    ensures BisectMutants(fails, t, ms).next - t <= Allowed(|Filter(ms, bad)|, CeilLog2(|ms|))
  {
    assert |ms| == 1 && Filter(ms[1..], bad) == [];
    assert |Filter(ms, bad)| == 1;
    hide Filter;
  }

  lemma HalvesFit<T>(ms: seq<T>, a: seq<T>, b: seq<T>)
    requires Halves(ms, a, b)
    ensures a + b == ms && |a| <= (|ms| + 1) / 2 && |b| <= (|ms| + 1) / 2
  {
  }

  lemma HalvingDepth(n: nat)
    requires n >= 2
    ensures CeilLog2(n) == 1 + CeilLog2((n + 1) / 2)
  {
  }

  lemma {:induction false} HalfCost<T(!new)>(fails: Oracle<T>, bad: T -> bool, asked: nat, t: nat, half: seq<T>,
                                             depth: nat)
    requires FailsByBad(fails, bad) && CeilLog2(|half|) <= depth
    ensures Half(fails, fails(asked, half), t, half).next - t <= Allowed(|Filter(half, bad)|, depth)
    decreases |half|, 1
  {
    if fails(asked, half) {
      assert HasBad(bad, half);
      var m :| m in half && bad(m);
      assert m in Filter(half, bad);
      BisectAllowed(fails, bad, t, half);
      CostGrows(|Filter(half, bad)|, CeilLog2(|half|), depth);
    }
  }

  lemma CostsAdd(t: nat, t': nat, t'': nat, a: nat, b: nat, depth: nat)
    requires a + b >= 1 && t' - (t + 2) <= Allowed(a, depth) && t'' - t' <= Allowed(b, depth)
    ensures t'' - t <= Allowed(a + b, 1 + depth)
  {
    assert (a + b) * (2 * (1 + depth) + 1) == a * (2 * depth + 1) + b * (2 * depth + 1) + 2 * (a + b);
  }

  lemma CostGrows(k: nat, m: nat, n: nat)
    requires m <= n
    ensures Allowed(k, m) <= Allowed(k, n)
  {
  }
}
