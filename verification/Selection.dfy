/** Splitting a list in two without losing its order. */
module Selection {

  /** The elements whose mark is `b`, in order. */
  function Pick<T>(s: seq<T>, marks: seq<bool>, b: bool): seq<T>
    requires |s| == |marks|
  {
    if s == [] then [] else (if marks[0] == b then [s[0]] else []) + Pick(s[1..], marks[1..], b)
  }

  lemma {:induction false} PickAppend<T>(s: seq<T>, s': seq<T>, m: seq<bool>, m': seq<bool>, b: bool)
    requires |s| == |m| && |s'| == |m'|
    ensures Pick(s + s', m + m', b) == Pick(s, m, b) + Pick(s', m', b)
  {
    if s == [] {
      assert s + s' == s' && m + m' == m';
    } else {
      var s1, m1 := s[1..], m[1..];
      assert (s + s')[1..] == s1 + s' && (m + m')[1..] == m1 + m';
      assert (s + s')[0] == s[0] && (m + m')[0] == m[0];
      PickAppend(s1, s', m1, m', b);
      assert Pick(s + s', m + m', b) == (if m[0] == b then [s[0]] else []) + Pick(s1 + s', m1 + m', b);
    }
  }

  lemma {:induction false} PickConstant<T>(s: seq<T>, b: bool)
    ensures Pick(s, seq(|s|, i => b), b) == s
    ensures Pick(s, seq(|s|, i => b), !b) == []
  {
    if s != [] {
      assert seq(|s|, i => b)[1..] == seq(|s[1..]|, i => b);
      PickConstant(s[1..], b);
    }
  }

  /** No element is lost and none is picked twice. */
  lemma {:induction false} PickPartition<T>(s: seq<T>, marks: seq<bool>)
    requires |s| == |marks|
    ensures multiset(Pick(s, marks, false)) + multiset(Pick(s, marks, true)) == multiset(s)
    decreases |s|
  {
    if s != [] {
      var x, rest := s[0], s[1..];
      var no, yes := Pick(rest, marks[1..], false), Pick(rest, marks[1..], true);
      assert s == [x] + rest;
      assert Pick(s, marks, false) == (if marks[0] then [] else [x]) + no;
      assert Pick(s, marks, true) == (if marks[0] then [x] else []) + yes;
      PickPartition(rest, marks[1..]);
      hide Pick;
      ConsPartition(x, no, yes, rest);
    }
  }

  lemma ConsPartition<T>(x: T, no: seq<T>, yes: seq<T>, rest: seq<T>)
    requires multiset(no) + multiset(yes) == multiset(rest)
    ensures multiset([x] + no) + multiset(yes) == multiset([x] + rest)
    ensures multiset(no) + multiset([x] + yes) == multiset([x] + rest)
    ensures [] + no == no && [] + yes == yes
  {
  }

  /** The elements that satisfy `p`, in order. */
  function Filter<T(!new)>(s: seq<T>, p: T -> bool): (r: seq<T>)
    ensures forall x :: x in r <==> x in s && p(x)
  {
    if s == [] then [] else (if p(s[0]) then [s[0]] else []) + Filter(s[1..], p)
  }

  lemma {:induction false} FilterAppend<T(!new)>(s: seq<T>, s': seq<T>, p: T -> bool)
    ensures Filter(s + s', p) == Filter(s, p) + Filter(s', p)
  {
    if s == [] {
      assert s + s' == s';
    } else {
      assert (s + s')[1..] == s[1..] + s';
      FilterAppend(s[1..], s', p);
    }
  }

  lemma {:induction false} FilterAll<T(!new)>(s: seq<T>, p: T -> bool)
    requires forall x :: x in s ==> p(x)
    ensures Filter(s, p) == s
  {
    if s != [] {
      FilterAll(s[1..], p);
    }
  }

  lemma {:induction false} FilterNone<T(!new)>(s: seq<T>, p: T -> bool)
    requires forall x :: x in s ==> !p(x)
    ensures Filter(s, p) == []
  {
    if s != [] {
      FilterNone(s[1..], p);
    }
  }

  /** Two disjoint tests divide what their disjunction selects. */
  lemma {:induction false} FilterDisjoint<T(!new)>(s: seq<T>, p: T -> bool, q: T -> bool, r: T -> bool)
    requires forall x :: (r(x) <==> p(x) || q(x)) && !(p(x) && q(x))
    ensures multiset(Filter(s, r)) == multiset(Filter(s, p)) + multiset(Filter(s, q))
  {
    if s != [] {
      FilterDisjoint(s[1..], p, q, r);
    }
  }

  // ---- Lists as collections ----

  ghost predicate Distinct<T(!new)>(s: seq<T>) {
    forall i, j :: 0 <= i < j < |s| ==> s[i] != s[j]
  }

  lemma TakeOut<T>(x: T, rest: seq<T>, b: seq<T>) returns (l: seq<T>, r: seq<T>)
    requires multiset([x] + rest) == multiset(b)
    ensures b == l + [x] + r && multiset(rest) == multiset(l + r)
  {
    assert x in multiset([x] + rest);
    var i :| 0 <= i < |b| && b[i] == x;
    l, r := b[..i], b[i + 1..];
    assert b == l + [x] + r;
    assert multiset([x] + rest) == multiset{x} + multiset(rest);
    assert multiset(b) == multiset(l) + multiset{x} + multiset(r);
    assert multiset(rest) == multiset(b) - multiset{x} == multiset(l + r);
  }

  lemma SameRest<T>(x: T, a: seq<T>, b: seq<T>)
    requires multiset([x] + a) == multiset([x] + b)
    ensures multiset(a) == multiset(b)
  {
    assert multiset(a) == multiset([x] + a) - multiset{x} == multiset([x] + b) - multiset{x} == multiset(b);
  }

  lemma {:induction false} DistinctOnce<T(!new)>(s: seq<T>, x: T)
    requires Distinct(s)
    ensures multiset(s)[x] <= 1
  {
    if s != [] {
      var head, tail := s[0], s[1..];
      assert s == [head] + tail;
      assert Distinct(tail) by {
        forall i, j | 0 <= i < j < |tail| ensures tail[i] != tail[j] { assert s[i + 1] != s[j + 1]; }
      }
      DistinctOnce(tail, x);
      assert head !in tail by {
        forall i | 0 <= i < |tail| ensures tail[i] != head { assert s[i + 1] != s[0]; }
      }
    }
  }

  lemma OnceDistinct<T(!new)>(s: seq<T>)
    requires forall x :: x in s ==> multiset(s)[x] <= 1
    ensures Distinct(s)
  {
    forall i, j | 0 <= i < j < |s| ensures s[i] != s[j] {
      var a, b := s[..j], s[j..];
      assert s == a + b && a[i] in multiset(a) && b[0] in multiset(b);
      assert multiset(s)[s[j]] == multiset(a)[s[j]] + multiset(b)[s[j]];
    }
  }

  /** What is left of a distinct list after taking some of its elements out is distinct. */
  lemma DistinctRest<T(!new)>(all: seq<T>, kept: seq<T>, rest: seq<T>)
    requires Distinct(all) && multiset(kept) + multiset(rest) == multiset(all)
    ensures Distinct(kept)
  {
    forall x | x in kept ensures multiset(kept)[x] <= 1 { DistinctOnce(all, x); }
    OnceDistinct(kept);
  }

  /** Selecting commutes with rearranging. */
  lemma {:induction false} FilterPermute<T(!new)>(a: seq<T>, b: seq<T>, p: T -> bool)
    requires multiset(a) == multiset(b)
    ensures multiset(Filter(a, p)) == multiset(Filter(b, p))
    decreases |a|
  {
    if a == [] {
      assert |multiset(b)| == 0;
    } else {
      var x, rest := a[0], a[1..];
      assert a == [x] + rest;
      var l, r := TakeOut(x, rest, b);
      FilterPermute(rest, l + r, p);
      FilterAppend(l, r, p);
      FilterAppend(l + [x], r, p);
      FilterAppend(l, [x], p);
    }
  }
}
