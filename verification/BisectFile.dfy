/**
 Binary search for the mutants of one file that break its compilation, on Go slices: halves
 share the backing array of the whole, and appending the good halves writes into it.
 */
module BisectFile {
  import opened Mutants
  import opened Selection

  /** What the search writes through the reference to a candidate it gives up on. */
  function Blame(m: Mutant): Mutant { m.(status := Error, killedBy := COMPILER) }

  /** `&mutants[i]`, a reference into the list of mutants under verification. */
  type Ref = nat

  /** A window on an array; its capacity ends with the array. A nil slice is a window on an array without room. */
  datatype Slice = Slice(arr: array<Ref>, off: nat, len: nat)

  predicate InBounds(s: Slice) { s.off + s.len <= s.arr.Length }

  function Contents(s: Slice): (c: seq<Ref>)
    requires InBounds(s)
    reads s.arr
  {
    s.arr[s.off..s.off + s.len]
  }

  /** Nothing outside the window `[lo, hi)` of an array has changed. */
  twostate predicate OnlyWithin(arr: array<Ref>, lo: int, hi: int)
    reads arr
  {
    forall i :: 0 <= i < arr.Length && !(lo <= i < hi) ==> arr[i] == old(arr[i])
  }

  method NilSlice() returns (r: Slice)
    ensures InBounds(r) && fresh(r.arr) && r.arr.Length == 0 && Contents(r) == []
  {
    var arr := new Ref[0];
    r := Slice(arr, 0, 0);
  }

  method CopyInto(arr: array<Ref>, at: nat, src: seq<Ref>)
    requires at + |src| <= arr.Length
    modifies arr
    ensures arr[at..at + |src|] == src && OnlyWithin(arr, at, at + |src|)
  {
    for i := 0 to |src|
      invariant OnlyWithin(arr, at, at + |src|)
      invariant forall j :: 0 <= j < i ==> arr[at + j] == src[j]
    {
      arr[at + i] := src[i];
    }
  }

  /** Go's `append(a, b...)`: in place while the capacity lasts, in a new array otherwise. */
  method Append(a: Slice, b: Slice) returns (r: Slice)
    requires InBounds(a) && InBounds(b)
    modifies a.arr
    ensures InBounds(r) && Contents(r) == old(Contents(a)) + old(Contents(b))
    ensures OnlyWithin(a.arr, a.off + a.len, a.off + a.len + b.len)
    ensures fresh(r.arr) || r == Slice(a.arr, a.off, a.len + b.len)
  {
    var head, tail := Contents(a), Contents(b);
    if a.off + a.len + b.len <= a.arr.Length {
      CopyInto(a.arr, a.off + a.len, tail);
      assert a.arr[a.off..a.off + a.len] == head;
      return Slice(a.arr, a.off, a.len + b.len);
    }
    r := Grow(head + tail);
  }

  /** A new array with room to spare. */
  method Grow(all: seq<Ref>) returns (r: Slice)
    requires all != []
    ensures InBounds(r) && fresh(r.arr) && Contents(r) == all
  {
    var spare :| 0 <= spare;
    var arr := new Ref[|all| + spare](i requires 0 <= i => if i < |all| then all[i] else all[0]);
    assert arr[..|all|] == all;
    r := Slice(arr, 0, |all|);
  }

  // ---- What the search answers, on values ----

  datatype Verdict = ApplyFailed | Clean | Broken

  /** The answer of the n-th attempt on a list of candidates: applying may fail, the build may blame the file. */
  type Oracle = (nat, seq<Ref>) -> Verdict

  datatype Marks = Marks(bad: seq<bool>, next: nat)

  /** Which candidates the search gives up on, starting with attempt `t`. */
  function Search(v: Oracle, t: nat, cs: seq<Ref>): (r: Marks)
    ensures |r.bad| == |cs|
    decreases |cs|
  {
    if cs == [] then Marks([], t)
    else
      match v(t, cs)
      case ApplyFailed => Marks(seq(|cs|, i => true), t + 1)
      case Clean => Marks(seq(|cs|, i => false), t + 1)
      case Broken =>
        if |cs| == 1 then Marks([true], t + 1)
        else
          var mid := |cs| / 2;
          var l := Search(v, t + 1, cs[..mid]);
          var r := Search(v, l.next, cs[mid..]);
          Marks(l.bad + r.bad, r.next)
  }

  /** Without a failure to apply, a candidate is given up exactly when the file broke with it alone. */
  lemma {:induction false} BadOnlyAlone(v: Oracle, t: nat, cs: seq<Ref>, i: nat)
    requires i < |cs| && Search(v, t, cs).bad[i]
    ensures exists n, block :: (v(n, block) == ApplyFailed && cs[i] in block) || v(n, [cs[i]]) == Broken
    decreases |cs|
  {
    if v(t, cs) == ApplyFailed {
      assert v(t, cs) == ApplyFailed && cs[i] in cs;
    } else if |cs| == 1 {
      assert cs == [cs[i]];
    } else {
      var mid := |cs| / 2;
      var l := Search(v, t + 1, cs[..mid]);
      if i < mid {
        BadOnlyAlone(v, t + 1, cs[..mid], i);
      } else {
        BadOnlyAlone(v, l.next, cs[mid..], i - mid);
      }
    }
  }

  /** A candidate that is kept belongs to a block with which the file compiled. */
  lemma {:induction false} GoodInCleanBlock(v: Oracle, t: nat, cs: seq<Ref>, i: nat)
    requires i < |cs| && !Search(v, t, cs).bad[i]
    ensures exists n, block :: v(n, block) == Clean && cs[i] in block
    decreases |cs|
  {
    if v(t, cs) == Clean {
      assert cs[i] in cs;
    } else {
      var mid := |cs| / 2;
      var l := Search(v, t + 1, cs[..mid]);
      if i < mid {
        GoodInCleanBlock(v, t + 1, cs[..mid], i);
      } else {
        GoodInCleanBlock(v, l.next, cs[mid..], i - mid);
      }
    }
  }

  predicate HasCulprit(block: seq<Ref>, culprit: Ref -> bool) {
    exists p :: p in block && culprit(p)
  }

  /** A block breaks the file exactly when it holds a culprit. */
  ghost predicate BreaksByCulprits(v: Oracle, culprit: Ref -> bool) {
    forall n, block :: v(n, block) == if HasCulprit(block, culprit) then Broken else Clean
  }

  /** Then exactly the culprits are given up. */
  lemma {:induction false} CulpritsAreFound(v: Oracle, culprit: Ref -> bool, t: nat, cs: seq<Ref>, i: nat)
    requires BreaksByCulprits(v, culprit) && i < |cs|
    ensures Search(v, t, cs).bad[i] <==> culprit(cs[i])
    decreases |cs|
  {
    assert v(t, cs) == if HasCulprit(cs, culprit) then Broken else Clean;
    hide BreaksByCulprits;
    if v(t, cs) == Clean {
      assert !culprit(cs[i]) by { assert cs[i] in cs; }
    } else if |cs| == 1 {
      assert culprit(cs[i]);
    } else {
      hide HasCulprit;
      var mid := |cs| / 2;
      var l := Search(v, t + 1, cs[..mid]);
      if i < mid {
        CulpritsAreFound(v, culprit, t + 1, cs[..mid], i);
      } else {
        CulpritsAreFound(v, culprit, l.next, cs[mid..], i - mid);
      }
    }
  }

  // ---- The search on slices ----

  predicate PointsInto(cs: seq<Ref>, count: nat) {
    forall i :: 0 <= i < |cs| ==> cs[i] < count
  }

  /** The list of mutants after a search: the given-up ones are errors, the others untouched. */
  function Blamed(mutants: seq<Mutant>, bad: seq<Ref>): (r: seq<Mutant>)
    ensures |r| == |mutants|
  {
    seq(|mutants|, p requires 0 <= p < |mutants| => if p in bad then Blame(mutants[p]) else mutants[p])
  }

  lemma BlamedTwice(mutants: seq<Mutant>, bad: seq<Ref>, bad': seq<Ref>)
    ensures Blamed(Blamed(mutants, bad), bad') == Blamed(mutants, bad + bad')
  {
  }

  class Workspace {
    const verdict: Oracle
    var mutants: seq<Mutant>
    var attempts: nat

    constructor (verdict: Oracle, mutants: seq<Mutant>)
      ensures this.verdict == verdict && this.mutants == mutants && attempts == 0
    {
      this.verdict, this.mutants := verdict, mutants;
      attempts := 0;
    }

    /** Resets the file, applies the candidates and builds. */
    method Try(cs: seq<Ref>) returns (v: Verdict)
      modifies this`attempts
      ensures v == verdict(old(attempts), cs) && attempts == old(attempts) + 1
    {
      v := verdict(attempts, cs);
      attempts := attempts + 1;
    }

    method BlameAll(cs: seq<Ref>)
      requires PointsInto(cs, |mutants|)
      modifies this`mutants
      ensures mutants == Blamed(old(mutants), cs)
    {
      ghost var before := mutants;
      for i := 0 to |cs|
        invariant mutants == Blamed(before, cs[..i])
      {
        mutants := mutants[cs[i] := Blame(mutants[cs[i]])];
      }
      assert cs[..|cs|] == cs;
    }
  }

  /** The good candidates stand where the candidates stood, or in an array nobody else knows. */
  twostate predicate GoodPlace(new good: Slice, c: Slice) {
    InBounds(good) && good.len <= c.len && (fresh(good.arr) || (good.arr == c.arr && good.off == c.off))
  }

  /** In place and through shared arrays, the search answers what it answers on values. */
  method BisectFileMutants(ws: Workspace, c: Slice, ghost all: seq<Ref>) returns (good: Slice, bad: Slice)
    requires InBounds(c) && Contents(c) == all && PointsInto(all, |ws.mutants|)
    modifies ws, c.arr
    ensures GoodPlace(good, c) && InBounds(bad) && fresh(bad.arr) && good.arr != bad.arr
    ensures Contents(good) == Pick(all, Search(ws.verdict, old(ws.attempts), all).bad, false)
    ensures Contents(bad) == Pick(all, Search(ws.verdict, old(ws.attempts), all).bad, true)
    ensures ws.attempts == Search(ws.verdict, old(ws.attempts), all).next
    ensures ws.mutants == Blamed(old(ws.mutants), Contents(bad))
    ensures OnlyWithin(c.arr, c.off, c.off + c.len)
    decreases |all|, 2
  {
    hide Search, Pick, Blamed, HalfMarks;
    good := NilSlice();
    bad := NilSlice();
    NoneBlamed(ws.mutants);
    SearchCases(ws.verdict, ws.attempts, all);
    if c.len == 0 { return; }
    var candidates := Contents(c);
    var verdict := ws.Try(candidates);
    if verdict == ApplyFailed || (verdict == Broken && c.len == 1) {
      ws.BlameAll(candidates);
      bad := Grow(candidates);
      return;
    }
    if verdict == Clean { return c, bad; }
    good, bad := BisectHalves(ws, c, all);
  }

  lemma NoneBlamed(mutants: seq<Mutant>)
    ensures Blamed(mutants, []) == mutants
    ensures Pick<Ref>([], [], true) == [] && Pick<Ref>([], [], false) == []
  {
  }

  /** The three ways in which a search ends or goes on. */
  lemma SearchCases(v: Oracle, t: nat, all: seq<Ref>)
    ensures all == [] ==> Search(v, t, all) == Marks([], t)
    ensures var found := Search(v, t, all);
            all != [] ==>
            && (v(t, all) == ApplyFailed || (v(t, all) == Broken && |all| == 1) ==>
                  found.next == t + 1 && Pick(all, found.bad, true) == all && Pick(all, found.bad, false) == [])
            && (v(t, all) == Clean ==>
                  found.next == t + 1 && Pick(all, found.bad, true) == [] && Pick(all, found.bad, false) == all)
            && (v(t, all) == Broken && |all| > 1 ==> found == HalfMarks(v, t + 1, all))
  {
    PickConstant(all, true);
    PickConstant(all, false);
    assert |all| == 1 ==> [true] == seq(|all|, i => true);
  }

  ghost function HalfMarks(v: Oracle, t: nat, all: seq<Ref>): (r: Marks)
    ensures |r.bad| == |all|
  {
    var mid := |all| / 2;
    var l := Search(v, t, all[..mid]);
    var r := Search(v, l.next, all[mid..]);
    Marks(l.bad + r.bad, r.next)
  }

  lemma HalvesPick(v: Oracle, t: nat, all: seq<Ref>, mid: nat, la: seq<Ref>, ra: seq<Ref>, l: Marks, r: Marks, b: bool)
    requires mid == |all| / 2 && la == all[..mid] && ra == all[mid..]
    requires l == Search(v, t, la) && r == Search(v, l.next, ra)
    ensures HalfMarks(v, t, all).next == r.next
    ensures Pick(all, HalfMarks(v, t, all).bad, b) == Pick(la, l.bad, b) + Pick(ra, r.bad, b)
  {
    hide Pick, Search;
    PickAppend(la, ra, l.bad, r.bad, b);
    assert la + ra == all;
  }

  method BisectHalves(ws: Workspace, c: Slice, ghost all: seq<Ref>) returns (good: Slice, bad: Slice)
    requires InBounds(c) && Contents(c) == all && PointsInto(all, |ws.mutants|) && |all| >= 2
    modifies ws, c.arr
    ensures GoodPlace(good, c) && InBounds(bad) && fresh(bad.arr) && good.arr != bad.arr
    ensures Contents(good) == Pick(all, HalfMarks(ws.verdict, old(ws.attempts), all).bad, false)
    ensures Contents(bad) == Pick(all, HalfMarks(ws.verdict, old(ws.attempts), all).bad, true)
    ensures ws.attempts == HalfMarks(ws.verdict, old(ws.attempts), all).next
    ensures ws.mutants == Blamed(old(ws.mutants), Contents(bad))
    ensures OnlyWithin(c.arr, c.off, c.off + c.len)
    decreases |all|, 1
  {
    hide Pick, Search, HalfMarks, Blamed;
    var mid := c.len / 2;
    ghost var la, ra := all[..mid], all[mid..];
    ghost var l := Search(ws.verdict, ws.attempts, la);
    ghost var r := Search(ws.verdict, l.next, ra);
    HalvesPick(ws.verdict, ws.attempts, all, mid, la, ra, l, r, false);
    HalvesPick(ws.verdict, ws.attempts, all, mid, la, ra, l, r, true);
    BlamedTwice(ws.mutants, Pick(la, l.bad, true), Pick(ra, r.bad, true));
    var lg, lb, rg, rb := BisectBoth(ws, c, mid, la, ra);
    good, bad := Join(lg, lb, rg, rb);
  }

  method BisectBoth(ws: Workspace, c: Slice, mid: nat, ghost la: seq<Ref>, ghost ra: seq<Ref>)
    returns (lg: Slice, lb: Slice, rg: Slice, rb: Slice)
    requires InBounds(c) && Contents(c) == la + ra && |la| == mid && la != [] && ra != []
    requires PointsInto(la, |ws.mutants|) && PointsInto(ra, |ws.mutants|)
    modifies ws, c.arr
    ensures GoodPlace(lg, Slice(c.arr, c.off, mid)) && InBounds(rg) && rg.len <= c.len - mid
    ensures InBounds(lb) && fresh(lb.arr) && InBounds(rb) && fresh(rb.arr) && lg.arr != lb.arr && lg.arr != rb.arr
    ensures var l := Search(ws.verdict, old(ws.attempts), la);
            var r := Search(ws.verdict, l.next, ra);
            && Contents(lg) == Pick(la, l.bad, false) && Contents(lb) == Pick(la, l.bad, true)
            && Contents(rg) == Pick(ra, r.bad, false) && Contents(rb) == Pick(ra, r.bad, true)
            && ws.attempts == r.next
    ensures ws.mutants == Blamed(Blamed(old(ws.mutants), Contents(lb)), Contents(rb))
    ensures OnlyWithin(c.arr, c.off, c.off + c.len)
    decreases |la + ra|, 0
  {
    hide Pick, Search, Blamed;
    assert Contents(c)[..mid] == la && Contents(c)[mid..] == ra;
    lg, lb := BisectFileMutants(ws, Slice(c.arr, c.off, mid), la);
    assert c.arr[c.off + mid..c.off + c.len] == ra;
    rg, rb := BisectRight(ws, Slice(c.arr, c.off + mid, c.len - mid), ra, lg, lb);
  }

  /** Examining the right half leaves the answers of the left half alone. */
  method BisectRight(ws: Workspace, c: Slice, ghost all: seq<Ref>, ghost lg: Slice, ghost lb: Slice)
    returns (good: Slice, bad: Slice)
    requires InBounds(c) && Contents(c) == all && PointsInto(all, |ws.mutants|)
    requires InBounds(lg) && InBounds(lb) && lb.arr != c.arr && (lg.arr == c.arr ==> lg.off + lg.len <= c.off)
    modifies ws, c.arr
    ensures GoodPlace(good, c) && InBounds(bad) && fresh(bad.arr) && good.arr != bad.arr
    ensures Contents(good) == Pick(all, Search(ws.verdict, old(ws.attempts), all).bad, false)
    ensures Contents(bad) == Pick(all, Search(ws.verdict, old(ws.attempts), all).bad, true)
    ensures ws.attempts == Search(ws.verdict, old(ws.attempts), all).next
    ensures ws.mutants == Blamed(old(ws.mutants), Contents(bad))
    ensures OnlyWithin(c.arr, c.off, c.off + c.len)
    ensures Contents(lg) == old(Contents(lg)) && Contents(lb) == old(Contents(lb))
    decreases |all|, 3
  {
    hide Pick, Search;
    good, bad := BisectFileMutants(ws, c, all);
  }

  /** `append(lg, rg...)` and `append(lb, rb...)`. */
  method Join(lg: Slice, lb: Slice, rg: Slice, rb: Slice) returns (good: Slice, bad: Slice)
    requires InBounds(lg) && InBounds(lb) && InBounds(rg) && InBounds(rb)
    requires lg.arr != lb.arr && lg.arr != rb.arr
    modifies lg.arr, lb.arr
    ensures InBounds(good) && Contents(good) == old(Contents(lg)) + old(Contents(rg))
    ensures InBounds(bad) && Contents(bad) == old(Contents(lb)) + old(Contents(rb))
    ensures OnlyWithin(lg.arr, lg.off + lg.len, lg.off + lg.len + rg.len)
    ensures fresh(good.arr) || good == Slice(lg.arr, lg.off, lg.len + rg.len)
    ensures fresh(bad.arr) || bad.arr == lb.arr
    ensures good.arr != bad.arr
  {
    good := Append(lg, rg);
    bad := Append(lb, rb);
  }
}
