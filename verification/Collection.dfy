/**
 From nodes to mutants: which sites the engine collects under the suppressions it knows, and which
 suppressions that honours.
 */
module Collection {
  import opened Wrappers
  import opened Selection
  import opened Sites
  import opened Suppressions

  predicate Suppressed(d: Directives, x: Site, o: Operator) { IsIgnored(d, Place(x.file, x.line), o, x.column) }

  /** The engine asks only the comments of the file itself. */
  function Reports(ops: Operators, comments: Directives, x: Site): Operator -> bool {
    (o: Operator) => ops.reports(o, x) && !Suppressed(comments, x, o)
  }

  function Copies(x: Site, n: nat): seq<Site> { seq(n, i => x) }

  /** A node is added once for every operator that reports it. */
  function Collected(ops: Operators, known: seq<Operator>, comments: Directives, nodes: seq<Site>): seq<Site> {
    if nodes == [] then [] else
      var x := nodes[|nodes| - 1];
      Collected(ops, known, comments, nodes[..|nodes| - 1]) + Copies(x, |Filter(known, Reports(ops, comments, x))|)
  }

  method CollectNode(ops: Operators, known: seq<Operator>, comments: Directives, x: Site) returns (r: seq<Site>)
    ensures r == Copies(x, |Filter(known, Reports(ops, comments, x))|)
  {
    r := [];
    for i := 0 to |known|
      invariant r == Copies(x, |Filter(known[..i], Reports(ops, comments, x))|)
    {
      assert known[..i + 1] == known[..i] + [known[i]];
      FilterAppend(known[..i], [known[i]], Reports(ops, comments, x));
      assert Filter([known[i]], Reports(ops, comments, x)) == if Reports(ops, comments, x)(known[i]) then [known[i]]
          else [];
      if !ops.reports(known[i], x) { continue; }
      if Suppressed(comments, x, known[i]) { continue; }
      r := r + [x];
    }
    assert known[..|known|] == known;
  }

  method ProcessFile(ops: Operators, known: seq<Operator>, comments: Directives, nodes: seq<Site>)
    returns (sites: seq<Site>)
    ensures sites == Collected(ops, known, comments, nodes)
  {
    sites := [];
    for i := 0 to |nodes|
      invariant sites == Collected(ops, known, comments, nodes[..i])
    {
      assert nodes[..i + 1][..i] == nodes[..i];
      var more := CollectNode(ops, known, comments, nodes[i]);
      sites := sites + more;
    }
    assert nodes[..|nodes|] == nodes;
  }

  lemma {:induction false} CollectedIff(ops: Operators, known: seq<Operator>, comments: Directives, nodes: seq<Site>,
                                        x: Site)
    ensures x in Collected(ops, known, comments, nodes)
       <==> x in nodes && exists o :: o in known && ops.reports(o, x) && !Suppressed(comments, x, o)
    decreases |nodes|
  {
    hide Suppressed;
    if nodes != [] {
      var init, last := nodes[..|nodes| - 1], nodes[|nodes| - 1];
      assert nodes == init + [last];
      CollectedIff(ops, known, comments, init, x);
      var f := Filter(known, Reports(ops, comments, last));
      if f != [] {
        assert f[0] in f && Copies(last, |f|)[0] == last;
      }
    }
  }

  /** A mutant of the site with the operator. */
  predicate Mutated(ms: seq<Mutant>, x: Site, o: Operator) {
    exists i :: 0 <= i < |ms| && ms[i].site == x && ms[i].operator == o
  }

  lemma MutatedAppend(a: seq<Mutant>, b: seq<Mutant>, x: Site, o: Operator)
    ensures Mutated(a + b, x, o) <==> Mutated(a, x, o) || Mutated(b, x, o)
  {
    var s := a + b;
    if i :| 0 <= i < |a| && a[i].site == x && a[i].operator == o { assert s[i] == a[i]; }
    if i :| 0 <= i < |b| && b[i].site == x && b[i].operator == o { assert s[|a| + i] == b[i]; }
  }

  lemma {:induction false} NumberedIff(first: nat, y: Site, os: seq<Operator>, x: Site, o: Operator)
    ensures Mutated(Numbered(first, y, os), x, o) <==> y == x && o in os
    decreases |os|
  {
    if os != [] {
      var init, last := os[..|os| - 1], os[|os| - 1];
      assert os == init + [last];
      NumberedIff(first, y, init, x, o);
      var one := [Mutant(first + |os| - 1, y, last)];
      MutatedAppend(Numbered(first, y, init), one, x, o);
      assert Mutated(one, x, o) <==> y == x && last == o by { assert one[0].site == y && one[0].operator == last; }
    }
  }

  lemma {:induction false} MutantIff(ops: Operators, s: seq<Site>, x: Site, o: Operator)
    ensures Mutated(MutantsOf(ops, s), x, o) <==> x in s && o in Applicable(ops, x)
    decreases |s|
  {
    hide Mutated, Applicable;
    if s == [] {
      assert !Mutated([], x, o) by { NoMutant(x, o); }
    } else {
      var init, last := s[..|s| - 1], s[|s| - 1];
      assert s == init + [last];
      MutantIff(ops, init, x, o);
      var before := MutantsOf(ops, init);
      NumberedIff(|before| + 1, last, Applicable(ops, last), x, o);
      MutatedAppend(before, Numbered(|before| + 1, last, Applicable(ops, last)), x, o);
    }
  }

  lemma NoMutant(x: Site, o: Operator)
    ensures !Mutated([], x, o)
  {
  }

  /** The sites of a run: those of the nodes that some operator reports, in any order and number. */
  ghost predicate SitesOf(ops: Operators, known: seq<Operator>, comments: Directives, nodes: seq<Site>, s: seq<Site>) {
    KeysDenote(s) && forall x :: x in s <==> x in Collected(ops, known, comments, nodes)
  }

  /**
   A node and an operator make a mutant if and only if the operator applies and some operator, perhaps another one,
   reports the node.
   */
  lemma GeneratedIff(ops: Operators, known: seq<Operator>, comments: Directives, nodes: seq<Site>, s: seq<Site>,
                     x: Site, o: Operator)
    requires SitesOf(ops, known, comments, nodes, s)
    ensures Mutated(MutantsOf(ops, Firsts(s)), x, o)
       <==> x in nodes && o in ops.inFile(x.file) && ops.canApply(o, x)
            && exists o' :: o' in known && ops.reports(o', x) && !Suppressed(comments, x, o')
  {
    hide Mutated, MutantsOf, Suppressed, Firsts, Collected;
    MutantIff(ops, Firsts(s), x, o);
    FirstsKeepAll(s);
    CollectedIff(ops, known, comments, nodes, x);
  }

  /** What the engine knows: the comments of the files and the entries of the config. */
  function Known(paths: Paths, comments: Directives, config: seq<Entry>): Directives {
    LoadAll(paths, comments, config)
  }

  /**
   A suppression, from a comment or from the config, keeps its mutant away if and only if the comments of the file
   suppress every operator that reports the node.
   */
  lemma HonouredIff(ops: Operators, known: seq<Operator>, paths: Paths, comments: Directives, config: seq<Entry>,
                    nodes: seq<Site>, s: seq<Site>, x: Site, o: Operator)
    requires SitesOf(ops, known, comments, nodes, s) && Suppressed(Known(paths, comments, config), x, o)
    requires x in nodes && o in ops.inFile(x.file) && ops.canApply(o, x)
    ensures !Mutated(MutantsOf(ops, Firsts(s)), x, o)
       <==> forall o' :: o' in known && ops.reports(o', x) ==> Suppressed(comments, x, o')
  {
    hide Mutated, MutantsOf, Suppressed, Firsts, SitesOf;
    GeneratedIff(ops, known, comments, nodes, s, x, o);
  }

  // ---- Inputs at which a suppression is not honoured ----

  /** An entry of the config that suppresses everything at a line without comments: the mutant is generated. */
  lemma ConfigEntryIgnored(ops: Operators, paths: Paths, e: Entry, x: Site, o: Operator)
    requires o != "" && ops.inFile(x.file) == [o] && ops.reports(o, x) && ops.canApply(o, x)
    requires Resolve(paths, e.location) == Some(Place(x.file, x.line)) && e.operators == []
    ensures Suppressed(Known(paths, map[], [e]), x, o) && Mutated(MutantsOf(ops, Firsts([x])), x, o)
    ensures SitesOf(ops, [o], map[], [x], [x])
  {
    hide Resolve, Mutated, MutantsOf;
    assert EntryIgnores(paths, [e][0], Place(x.file, x.line), o, x.column);
    LoadedIgnore(paths, map[], [e], Place(x.file, x.line), o, x.column);
    CollectedAlone(ops, o, map[], x);
    GeneratedIff(ops, [o], map[], [x], [x], x, o);
  }

  lemma CollectedAlone(ops: Operators, o: Operator, comments: Directives, x: Site)
    requires ops.reports(o, x) && !Suppressed(comments, x, o)
    ensures SitesOf(ops, [o], comments, [x], [x])
  {
    forall y ensures y in [x] <==> y in Collected(ops, [o], comments, [x]) { CollectedIff(ops, [o], comments, [x], y); }
  }

  /**
   A comment that suppresses one operator at a node that another one reports, whether or not the other then makes a
   mutant: the suppressed mutant is generated all the same.
   */
  lemma OtherOperatorReports(ops: Operators, x: Site, o: Operator, other: Operator)
    requires o != other && o != "" && other != "" && ops.inFile(x.file) == [o, other]
    requires ops.canApply(o, x) && ops.reports(other, x)
    ensures var comments: Directives := map[Place(x.file, x.line) := map[o := {x.column}]];
            && Suppressed(comments, x, o) && SitesOf(ops, [o, other], comments, [x], [x])
            && Mutated(MutantsOf(ops, Firsts([x])), x, o)
  {
    var comments: Directives := map[Place(x.file, x.line) := map[o := {x.column}]];
    hide Mutated, MutantsOf;
    assert Suppressed(comments, x, o) && !Suppressed(comments, x, other) && other in [o, other];
    forall y ensures y in [x] <==> y in Collected(ops, [o, other], comments, [x]) {
      CollectedIff(ops, [o, other], comments, [x], y);
    }
    GeneratedIff(ops, [o, other], comments, [x], [x], x, o);
  }

  // ---- An input at which it is ----

  /**
   `return 5` in a case clause of a function of type `interface{}`: the zero-value operator would apply at generation,
   but the clause keeps it from reporting the node, so a comment for `interface_returns` is honoured.
   */
  lemma OnlyReporterSuppressed(ops: Operators, x: Site, o: Operator, other: Operator)
    requires o != other && ops.inFile(x.file) == [o, other]
    requires ops.reports(o, x) && ops.canApply(o, x) && !ops.reports(other, x) && ops.canApply(other, x)
    ensures var comments: Directives := map[Place(x.file, x.line) := map[o := {x.column}]];
            && Suppressed(comments, x, o)
            && SitesOf(ops, [o, other], comments, [x], [])
            && !Mutated(MutantsOf(ops, Firsts([])), x, o) && !Mutated(MutantsOf(ops, Firsts([])), x, other)
  {
    var comments: Directives := map[Place(x.file, x.line) := map[o := {x.column}]];
    hide Mutated, MutantsOf;
    assert Suppressed(comments, x, o);
    forall y ensures y !in Collected(ops, [o, other], comments, [x]) {
      CollectedIff(ops, [o, other], comments, [x], y);
    }
    GeneratedIff(ops, [o, other], comments, [x], [], x, o);
    GeneratedIff(ops, [o, other], comments, [x], [], x, other);
  }
}
