/** What the filtering and execution phases know about a mutant. */
module Mutants {
  import opened Wrappers
  import opened Selection

  /** The status texts of the program; a text that is none of them can only come out of a cache file. */
  datatype Status = Blank | Untested | Survived | Error | Timeout | Killed | Invalid | Unknown(text: string)

  /** `file` is None for a site without a file, `hasNode` false for one without a node. */
  datatype Mutant = Mutant(id: int, file: Option<string>, hasNode: bool, status: Status, killedBy: string)

  const COMPILER := "(compiler)"

  /** The mark of a mutant that does not compile. */
  predicate CompileError(m: Mutant) { m.status == Error && m.killedBy == COMPILER }

  function Ids(ms: seq<Mutant>): (r: seq<int>)
    ensures |r| == |ms|
    ensures forall i :: 0 <= i < |ms| ==> r[i] == ms[i].id
  {
    if ms == [] then [] else [ms[0].id] + Ids(ms[1..])
  }

  lemma {:induction false} IdsAppend(a: seq<Mutant>, b: seq<Mutant>)
    ensures Ids(a + b) == Ids(a) + Ids(b)
  {
    if a == [] {
      assert a + b == b;
    } else {
      assert (a + b)[1..] == a[1..] + b;
      IdsAppend(a[1..], b);
    }
  }

  lemma IdsMore(ms: seq<Mutant>, m: Mutant)
    ensures Ids(ms + [m]) == Ids(ms) + [m.id] && Ids([]) == []
  {
    IdsAppend(ms, [m]);
  }

  lemma {:induction false} SameIds(before: seq<Mutant>, now: seq<Mutant>)
    requires |now| == |before| && forall i :: 0 <= i < |now| ==> now[i].id == before[i].id
    ensures Ids(now) == Ids(before)
    decreases |now|
  {
    if now != [] { SameIds(before[1..], now[1..]); }
  }

  lemma {:induction false} IdsPermute(a: seq<Mutant>, b: seq<Mutant>)
    requires multiset(a) == multiset(b)
    ensures multiset(Ids(a)) == multiset(Ids(b))
  {
    if a == [] {
      assert |multiset(b)| == 0;
    } else {
      var x, rest := a[0], a[1..];
      assert a == [x] + rest;
      var l, r := TakeOut(x, rest, b);
      IdsPermute(rest, l + r);
      IdsAppend(l, r);
      IdsAppend(l + [x], r);
      IdsAppend(l, [x]);
    }
  }

  /** With distinct ids, an id is found in one place only. */
  lemma OnlyOne(ms: seq<Mutant>, i: nat)
    requires Distinct(Ids(ms)) && i < |ms|
    ensures forall p :: 0 <= p < |ms| && ms[p].id == ms[i].id ==> p == i
  {
    OnlyAt(Ids(ms), i);
    hide Ids, Distinct;
  }

  lemma OnlyAt(ids: seq<int>, i: nat)
    requires Distinct(ids) && i < |ids|
    ensures forall p :: 0 <= p < |ids| && ids[p] == ids[i] ==> p == i
  {
  }
}
