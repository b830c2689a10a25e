/** Mutation sites found by several workers, put in order and turned into numbered mutants. */
module Sites {
  import opened Selection
  import Text

  /** Where a node is, its kind, and the node itself. */
  datatype Site = Site(file: string, line: Text.GoInt, column: Text.GoInt, kind: nat, node: int)

  predicate SameKey(a: Site, b: Site) {
    a.file == b.file && a.line == b.line && a.column == b.column && a.kind == b.kind
  }

  // ---- The order of sites ----

  predicate TextLess(s: string, t: string) {
    if t == "" then false
    else if s == "" then true
    else if s[0] != t[0] then s[0] < t[0]
    else TextLess(s[1..], t[1..])
  }

  predicate Less(a: Site, b: Site) {
    if a.file != b.file then TextLess(a.file, b.file)
    else if a.line != b.line then a.line < b.line
    else if a.column != b.column then a.column < b.column
    else a.kind < b.kind
  }

  lemma {:induction false} TextTotal(s: string, t: string)
    ensures TextLess(s, t) || TextLess(t, s) || s == t
    ensures !(TextLess(s, t) && TextLess(t, s)) && (s == t ==> !TextLess(s, t))
    decreases |s|
  {
    if s != "" && t != "" && s[0] == t[0] {
      TextTotal(s[1..], t[1..]);
      assert s == [s[0]] + s[1..] && t == [t[0]] + t[1..];
    }
  }

  lemma {:induction false} TextTransitive(s: string, t: string, u: string)
    requires TextLess(s, t) && TextLess(t, u)
    ensures TextLess(s, u)
    decreases |s|
  {
    if s != "" && s[0] == t[0] == u[0] { TextTransitive(s[1..], t[1..], u[1..]); }
  }

  lemma LessTotal(a: Site, b: Site)
    ensures Less(a, b) || Less(b, a) || SameKey(a, b)
    ensures !(Less(a, b) && Less(b, a)) && (SameKey(a, b) ==> !Less(a, b))
  {
    TextTotal(a.file, b.file);
  }

  lemma LessTransitive(a: Site, b: Site, c: Site)
    requires Less(a, b) && Less(b, c)
    ensures Less(a, c)
  {
    if a.file != b.file && b.file != c.file {
      TextTransitive(a.file, b.file, c.file);
      TextTotal(a.file, c.file);
      TextTotal(b.file, a.file);
    }
  }

  /** What the sort establishes; sites with equal keys may come in any order. */
  ghost predicate Sorted(s: seq<Site>) { forall i, j :: 0 <= i < j < |s| ==> !Less(s[j], s[i]) }

  ghost predicate Increasing(s: seq<Site>) { forall i, j :: 0 <= i < j < |s| ==> Less(s[i], s[j]) }

  /** In the order of sites a file's sites are together, by line, then by column, then by kind. */
  lemma SortedByPlace(s: seq<Site>, i: nat, j: nat)
    requires Sorted(s) && i < j < |s|
    ensures s[i].file == s[j].file ==>
              s[i].line < s[j].line
              || (s[i].line == s[j].line
                  && (s[i].column < s[j].column || (s[i].column == s[j].column && s[i].kind <= s[j].kind)))
    ensures forall k :: i < k < j && s[i].file == s[j].file ==> s[k].file == s[i].file
  {
    assert !Less(s[j], s[i]);
    forall k | i < k < j && s[i].file == s[j].file ensures s[k].file == s[i].file {
      assert !Less(s[k], s[i]) && !Less(s[j], s[k]);
      TextTotal(s[i].file, s[k].file);
    }
  }

  // ---- First-seen deduplication ----

  predicate Seen(s: seq<Site>, x: Site) { exists i :: 0 <= i < |s| && SameKey(s[i], x) }

  /** The first site with each key. */
  function Firsts(s: seq<Site>): seq<Site> {
    if s == [] then [] else
      var init, x := s[..|s| - 1], s[|s| - 1];
      Firsts(init) + if Seen(init, x) then [] else [x]
  }

  lemma {:induction false} FirstsSubset(s: seq<Site>)
    ensures forall x :: x in Firsts(s) ==> x in s
    ensures forall x :: x in s ==> Seen(Firsts(s), x)
    decreases |s|
  {
    if s != [] {
      var init, x := s[..|s| - 1], s[|s| - 1];
      assert s == init + [x];
      FirstsSubset(init);
      forall y | y in s ensures Seen(Firsts(s), y) {
        if y in init {
          SeenMore(Firsts(init), x, y);
        } else if Seen(init, x) {
          var i :| 0 <= i < |init| && SameKey(init[i], x);
          assert init[i] in init;
          var k :| 0 <= k < |Firsts(init)| && SameKey(Firsts(init)[k], init[i]);
          assert SameKey(Firsts(s)[k], y);
        } else {
          assert Firsts(s)[|Firsts(init)|] == x;
        }
      }
    }
  }

  lemma SeenMore(s: seq<Site>, x: Site, y: Site)
    requires Seen(s, y)
    ensures Seen(s + [x], y) && Seen(s + [], y)
  {
    var i :| 0 <= i < |s| && SameKey(s[i], y);
    assert (s + [x])[i] == s[i];
    assert s + [] == s;
  }

  /** After sorting, the first sites of each key are strictly increasing. */
  lemma {:induction false} FirstsIncrease(s: seq<Site>)
    requires Sorted(s)
    ensures Increasing(Firsts(s))
    decreases |s|
  {
    if s != [] {
      var init, x := s[..|s| - 1], s[|s| - 1];
      FirstsIncrease(init);
      FirstsSubset(init);
      var f := Firsts(init);
      if !Seen(init, x) {
        forall i | 0 <= i < |f| ensures Less(f[i], x) {
          assert f[i] in init;
          var j :| 0 <= j < |init| && init[j] == f[i];
          assert !Less(s[|s| - 1], s[j]);
          LessTotal(f[i], x);
        }
      }
    }
  }

  /** Equal keys denote the same node. */
  ghost predicate KeysDenote(s: seq<Site>) { forall a, b :: a in s && b in s && SameKey(a, b) ==> a == b }

  lemma FirstsKeepAll(s: seq<Site>)
    requires KeysDenote(s)
    ensures forall x :: x in Firsts(s) <==> x in s
  {
    FirstsSubset(s);
    forall x | x in s ensures x in Firsts(s) {
      var k :| 0 <= k < |Firsts(s)| && SameKey(Firsts(s)[k], x);
      assert Firsts(s)[k] in s;
    }
  }

  lemma {:induction false} IncreasingUnique(a: seq<Site>, b: seq<Site>)
    requires Increasing(a) && Increasing(b) && forall x :: x in a <==> x in b
    ensures a == b
    decreases |a|
  {
    if a == [] {
      HasElement(b);
    } else {
      assert a[0] in a;
      SmallestFirst(a, b);
      var x, a', b' := a[0], a[1..], b[1..];
      assert a == [x] + a' && b == [x] + b';
      NotAgain(x, a');
      NotAgain(x, b');
      forall y ensures y in a' <==> y in b' {
        assert (y in a <==> y == x || y in a') && (y in b <==> y == x || y in b');
      }
      IncreasingUnique(a', b');
    }
  }

  lemma HasElement<T>(s: seq<T>)
    ensures s != [] ==> exists x :: x in s
  {
    if s != [] { assert s[0] in s; }
  }

  lemma SmallestFirst(a: seq<Site>, b: seq<Site>)
    requires Increasing(a) && Increasing(b) && a != [] && b != [] && forall x :: x in a <==> x in b
    ensures a[0] == b[0]
  {
    assert a[0] in b && b[0] in a;
    var i :| 0 <= i < |b| && b[i] == a[0];
    var j :| 0 <= j < |a| && a[j] == b[0];
    LessTotal(a[0], b[0]);
  }

  lemma NotAgain(x: Site, rest: seq<Site>)
    requires Increasing([x] + rest)
    ensures x !in rest && Increasing(rest)
  {
    var all := [x] + rest;
    assert forall i :: 0 <= i < |rest| ==> all[i + 1] == rest[i];
    forall i | 0 <= i < |rest| ensures rest[i] != x {
      assert Less(all[0], all[i + 1]);
      LessTotal(x, x);
    }
    forall i, j | 0 <= i < j < |rest| ensures Less(rest[i], rest[j]) { assert Less(all[i + 1], all[j + 1]); }
  }

  /** Two sorted lists of the same sites, repeated and ordered as they may be, have the same first sites. */
  lemma SameFirsts(s: seq<Site>, t: seq<Site>)
    requires Sorted(s) && Sorted(t) && KeysDenote(s) && forall x :: x in s <==> x in t
    ensures Firsts(s) == Firsts(t) && Increasing(Firsts(s))
  {
    FirstsIncrease(s);
    FirstsIncrease(t);
    FirstsKeepAll(s);
    FirstsKeepAll(t);
    IncreasingUnique(Firsts(s), Firsts(t));
  }

  // ---- The engine's list ----

  function Flatten(blocks: seq<seq<Site>>): seq<Site> {
    if blocks == [] then [] else Flatten(blocks[..|blocks| - 1]) + blocks[|blocks| - 1]
  }

  lemma {:induction false} FlattenMember(blocks: seq<seq<Site>>, x: Site)
    ensures x in Flatten(blocks) <==> exists b :: b in blocks && x in b
    decreases |blocks|
  {
    if blocks != [] {
      var init, last := blocks[..|blocks| - 1], blocks[|blocks| - 1];
      assert blocks == init + [last];
      FlattenMember(init, x);
    }
  }

  class Engine {
    var sites: seq<Site>

    constructor ()
      ensures sites == []
    {
      sites := [];
    }

    /** A worker adds the sites of one file under the lock. */
    method AddBlock(block: seq<Site>)
      modifies this
      ensures sites == old(sites) + block
    {
      if |block| > 0 { sites := sites + block; }
    }

    /** A sorted copy. */
    method Sites() returns (s: seq<Site>)
      ensures multiset(s) == multiset(sites) && Sorted(s)
    {
      s := [];
      for i := 0 to |sites|
        invariant multiset(s) == multiset(sites[..i]) && Sorted(s)
      {
        assert sites[..i + 1] == sites[..i] + [sites[i]];
        s := Insert(s, sites[i]);
      }
      assert sites[..|sites|] == sites;
    }
  }

  method Insert(s: seq<Site>, x: Site) returns (r: seq<Site>)
    requires Sorted(s)
    ensures multiset(r) == multiset(s) + multiset{x} && Sorted(r)
  {
    var k := 0;
    while k < |s| && Less(s[k], x)
      invariant k <= |s| && forall i :: 0 <= i < k ==> Less(s[i], x)
    {
      k := k + 1;
    }
    r := s[..k] + [x] + s[k..];
    assert s == s[..k] + s[k..];
    InsertSorted(s, x, k);
  }

  lemma InsertSorted(s: seq<Site>, x: Site, k: nat)
    requires Sorted(s) && k <= |s| && (forall i :: 0 <= i < k ==> Less(s[i], x)) && (k < |s| ==> !Less(s[k], x))
    ensures Sorted(s[..k] + [x] + s[k..])
  {
    var r := s[..k] + [x] + s[k..];
    forall i, j | 0 <= i < j < |r| ensures !Less(r[j], r[i]) {
      if i < k && j == k {
        LessTotal(s[i], x);
      } else if i == k {
        LessTotal(s[j - 1], x);
        LessTotal(s[k], s[j - 1]);
        if Less(s[j - 1], x) { NotBelow(s[k], s[j - 1], x); }
      }
    }
  }

  lemma NotBelow(a: Site, b: Site, x: Site)
    requires !Less(b, a) && !Less(a, x)
    ensures !Less(b, x)
  {
    if Less(b, x) {
      LessTotal(a, b);
      LessTotal(a, x);
      if Less(a, b) { LessTransitive(a, b, x); }
    }
  }

  // ---- Numbered mutants ----

  type Operator = string

  datatype Mutant = Mutant(id: nat, site: Site, operator: Operator)

  /**
   The operators in force for a file, and the two tests of whether one applies to a node: collection shows an operator
   the parent and the file of the node, generation neither.
   */
  datatype Operators = Operators(
    inFile: string -> seq<Operator>, reports: (Operator, Site) -> bool, canApply: (Operator, Site) -> bool)

  function Applies(ops: Operators, x: Site): Operator -> bool { (o: Operator) => ops.canApply(o, x) }

  function Applicable(ops: Operators, x: Site): seq<Operator> { Filter(ops.inFile(x.file), Applies(ops, x)) }

  function Numbered(first: nat, x: Site, os: seq<Operator>): (r: seq<Mutant>)
    ensures |r| == |os|
  {
    if os == [] then [] else Numbered(first, x, os[..|os| - 1]) + [Mutant(first + |os| - 1, x, os[|os| - 1])]
  }

  /** The mutants of a list of sites without repetition. */
  function MutantsOf(ops: Operators, s: seq<Site>): seq<Mutant> {
    if s == [] then [] else
      var init := MutantsOf(ops, s[..|s| - 1]);
      init + Numbered(|init| + 1, s[|s| - 1], Applicable(ops, s[|s| - 1]))
  }

  lemma ApplicableMore(ops: Operators, x: Site, os: seq<Operator>, i: nat)
    requires i < |os|
    ensures var f := Filter(os[..i], Applies(ops, x));
            Filter(os[..i + 1], Applies(ops, x)) == if ops.canApply(os[i], x) then f + [os[i]] else f
  {
    assert os[..i + 1] == os[..i] + [os[i]];
    FilterAppend(os[..i], [os[i]], Applies(ops, x));
    var f := Filter(os[..i], Applies(ops, x));
    assert f + [] == f;
    assert Filter([os[i]], Applies(ops, x)) == if ops.canApply(os[i], x) then [os[i]] else [];
  }

  lemma NumberedLast(first: nat, x: Site, os: seq<Operator>, o: Operator)
    ensures Numbered(first, x, os + [o]) == Numbered(first, x, os) + [Mutant(first + |os|, x, o)]
  {
    assert (os + [o])[..|os|] == os;
  }

  lemma NumberedMore(ops: Operators, x: Site, os: seq<Operator>, i: nat, first: nat)
    requires i < |os|
    ensures var before := Numbered(first, x, Filter(os[..i], Applies(ops, x)));
            Numbered(first, x, Filter(os[..i + 1], Applies(ops, x)))
            == before + if ops.canApply(os[i], x) then [Mutant(first + |before|, x, os[i])] else []
  {
    hide *;
    ApplicableMore(ops, x, os, i);
    var f := Filter(os[..i], Applies(ops, x));
    NumberedLast(first, x, f, os[i]);
    assert Numbered(first, x, f) + [] == Numbered(first, x, f);
  }

  lemma NoOperators(ops: Operators, x: Site, first: nat)
    ensures Numbered(first, x, Filter([], Applies(ops, x))) == []
    ensures Applicable(ops, x) == Filter(ops.inFile(x.file), Applies(ops, x))
  {
  }

  method ApplyOperators(ops: Operators, x: Site, first: nat) returns (r: seq<Mutant>)
    ensures r == Numbered(first, x, Applicable(ops, x))
  {
    r := [];
    var os := ops.inFile(x.file);
    NoOperators(ops, x, first);
    hide *;
    for i := 0 to |os|
      invariant r == Numbered(first, x, Filter(os[..i], Applies(ops, x)))
    {
      NumberedMore(ops, x, os, i, first);
      if ops.canApply(os[i], x) { r := r + [Mutant(first + |r|, x, os[i])]; }
    }
    assert os[..|os|] == os;
  }

  lemma NothingApplies(ops: Operators, x: Site, first: nat)
    requires ops.inFile(x.file) == []
    ensures Numbered(first, x, Applicable(ops, x)) == []
  {
  }

  lemma MutantsLast(ops: Operators, t: seq<Site>)
    requires t != []
    ensures var before, x := MutantsOf(ops, t[..|t| - 1]), t[|t| - 1];
            MutantsOf(ops, t) == before + Numbered(|before| + 1, x, Applicable(ops, x))
  {
    hide Numbered, Applicable;
  }

  lemma MutantsMore(ops: Operators, s: seq<Site>, x: Site)
    ensures MutantsOf(ops, s + [x]) == MutantsOf(ops, s) + Numbered(|MutantsOf(ops, s)| + 1, x, Applicable(ops, x))
    ensures ops.inFile(x.file) == [] ==> MutantsOf(ops, s + [x]) == MutantsOf(ops, s)
  {
    hide *;
    var t := s + [x];
    assert t[..|t| - 1] == s && t[|t| - 1] == x;
    MutantsLast(ops, t);
    if ops.inFile(x.file) == [] {
      NothingApplies(ops, x, |MutantsOf(ops, s)| + 1);
      assert MutantsOf(ops, s) + [] == MutantsOf(ops, s);
    }
  }

  datatype Key = Key(file: string, line: Text.GoInt, column: Text.GoInt, kind: nat)

  function KeyOf(x: Site): Key { Key(x.file, x.line, x.column, x.kind) }

  /** The keys marked as seen: those of sites with operators. */
  function SeenKeys(ops: Operators, s: seq<Site>): set<Key> {
    if s == [] then {} else
      var x := s[|s| - 1];
      SeenKeys(ops, s[..|s| - 1]) + if ops.inFile(x.file) == [] then {} else {KeyOf(x)}
  }

  lemma {:induction false} SeenByKey(ops: Operators, s: seq<Site>, x: Site)
    requires ops.inFile(x.file) != []
    ensures KeyOf(x) in SeenKeys(ops, s) <==> Seen(s, x)
    decreases |s|
  {
    if s != [] {
      var init, last := s[..|s| - 1], s[|s| - 1];
      SeenByKey(ops, init, x);
      assert s == init + [last];
      SeenSnoc(init, last, x);
    }
  }

  lemma SeenSnoc(t: seq<Site>, x: Site, y: Site)
    ensures Seen(t + [x], y) <==> Seen(t, y) || SameKey(x, y)
  {
    var u := t + [x];
    assert u[|t|] == x && forall i :: 0 <= i < |t| ==> u[i] == t[i];
    if i :| 0 <= i < |t| && SameKey(t[i], y) { assert SameKey(u[i], y); }
  }

  lemma FirstsMore(s: seq<Site>, x: Site)
    ensures Firsts(s + [x]) == if Seen(s, x) then Firsts(s) else Firsts(s) + [x]
  {
    assert (s + [x])[..|s|] == s;
    assert Firsts(s) + [] == Firsts(s);
    hide Seen;
  }

  lemma SeenKeysMore(ops: Operators, s: seq<Site>, x: Site)
    ensures SeenKeys(ops, s + [x]) == SeenKeys(ops, s) + if ops.inFile(x.file) == [] then {} else {KeyOf(x)}
  {
    assert (s + [x])[..|s|] == s;
    hide KeyOf;
  }

  /** What one site changes. */
  lemma GenerateStep(ops: Operators, s: seq<Site>, x: Site)
    ensures var before, after := MutantsOf(ops, Firsts(s)), MutantsOf(ops, Firsts(s + [x]));
            if ops.inFile(x.file) == [] || KeyOf(x) in SeenKeys(ops, s) then after == before
            else after == before + Numbered(|before| + 1, x, Applicable(ops, x))
    ensures SeenKeys(ops, s + [x]) == SeenKeys(ops, s) + if ops.inFile(x.file) == [] then {} else {KeyOf(x)}
  {
    hide *;
    SeenKeysMore(ops, s, x);
    FirstsMore(s, x);
    if ops.inFile(x.file) != [] { SeenByKey(ops, s, x); }
    MutantsMore(ops, Firsts(s), x);
  }

  lemma NoSites(ops: Operators)
    ensures MutantsOf(ops, Firsts([])) == [] && SeenKeys(ops, []) == {}
  {
  }

  /** Sites without operators and sites of a key already seen are skipped; ids count up from 1. */
  method GenerateMutants(ops: Operators, sites: seq<Site>) returns (mutants: seq<Mutant>)
    ensures mutants == MutantsOf(ops, Firsts(sites))
  {
    mutants := [];
    var seen: set<Key> := {};
    NoSites(ops);
    hide *;
    for i := 0 to |sites|
      invariant seen == SeenKeys(ops, sites[..i]) && mutants == MutantsOf(ops, Firsts(sites[..i]))
    {
      var x := sites[i];
      assert sites[..i + 1] == sites[..i] + [x];
      GenerateStep(ops, sites[..i], x);
      if ops.inFile(x.file) == [] { continue; }
      if KeyOf(x) in seen { continue; }
      var more := ApplyOperators(ops, x, |mutants| + 1);
      seen, mutants := seen + {KeyOf(x)}, mutants + more;
    }
    assert sites[..|sites|] == sites;
  }

  /** Ids are 1, 2, 3 and so on without gaps. */
  lemma {:induction false} IdsCountUp(ops: Operators, s: seq<Site>)
    ensures forall i :: 0 <= i < |MutantsOf(ops, s)| ==> MutantsOf(ops, s)[i].id == i + 1
    decreases |s|
  {
    if s != [] {
      IdsCountUp(ops, s[..|s| - 1]);
      NumbersCountUp(|MutantsOf(ops, s[..|s| - 1])| + 1, s[|s| - 1], Applicable(ops, s[|s| - 1]));
    }
  }

  lemma {:induction false} NumbersCountUp(first: nat, x: Site, os: seq<Operator>)
    ensures forall i :: 0 <= i < |os| ==> Numbered(first, x, os)[i].id == first + i
    decreases |os|
  {
    if os != [] { NumbersCountUp(first, x, os[..|os| - 1]); }
  }

  /** However the workers' blocks are interleaved and equal sites ordered, the same mutants get the same ids. */
  lemma AnyInterleaving(ops: Operators, blocks: seq<seq<Site>>, blocks': seq<seq<Site>>, s: seq<Site>, s': seq<Site>)
    requires multiset(blocks) == multiset(blocks') && KeysDenote(Flatten(blocks))
    requires multiset(s) == multiset(Flatten(blocks)) && Sorted(s)
    requires multiset(s') == multiset(Flatten(blocks')) && Sorted(s')
    ensures Firsts(s) == Firsts(s') && Increasing(Firsts(s)) && MutantsOf(ops, Firsts(s)) == MutantsOf(ops, Firsts(s'))
  {
    forall x ensures (x in s <==> x in Flatten(blocks)) && (x in s' <==> x in Flatten(blocks)) {
      FlattenMember(blocks, x);
      FlattenMember(blocks', x);
      assert x in s <==> x in multiset(s);
      assert x in s' <==> x in multiset(s');
      SameBlocks(blocks, blocks', x);
    }
    SameFirsts(s, s');
  }

  lemma SameBlocks(blocks: seq<seq<Site>>, blocks': seq<seq<Site>>, x: Site)
    requires multiset(blocks) == multiset(blocks')
    ensures (exists b :: b in blocks && x in b) <==> exists b :: b in blocks' && x in b
  {
    forall b ensures b in blocks <==> b in blocks' {
      assert (b in blocks <==> b in multiset(blocks)) && (b in blocks' <==> b in multiset(blocks'));
    }
  }
}
