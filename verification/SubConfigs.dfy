/** Per-directory configuration: which sub-configs govern a file, and what they add up to. */
module SubConfigs {
  import opened Wrappers
  import opened Text
  import opened Selection

  // ---- Paths ----

  /** A clean absolute path, as the names of its components; no components for the file system root. */
  type Path = seq<string>

  ghost predicate Clean(p: Path) { forall i :: 0 <= i < |p| ==> p[i] != "" && '/' !in p[i] }

  function Slashed(p: Path): string {
    if p == [] then "" else "/" + p[0] + Slashed(p[1..])
  }

  function TextOf(p: Path): string { if p == [] then "/" else Slashed(p) }

  /** The code's test on directory texts. */
  predicate Governs(dir: Path, fileDir: Path) {
    TextOf(fileDir) == TextOf(dir) || HasPrefix(TextOf(fileDir) + "/", TextOf(dir) + "/")
  }

  lemma FirstComponent(c: string, x: string, d: string, y: string)
    requires '/' !in c && '/' !in d
    ensures c + "/" + x <= d + "/" + y <==> c == d && x <= y
  {
    hide *;
    var s, t := c + "/" + x, d + "/" + y;
    if s <= t { FirstSlash(c, x, d, y); }
    if c == d && x <= y { assert t == s + y[|x|..]; }
  }

  lemma FirstSlash(c: string, x: string, d: string, y: string)
    requires '/' !in c && '/' !in d && c + "/" + x <= d + "/" + y
    ensures c == d && x <= y
  {
    hide *;
    var s, t := c + "/" + x, d + "/" + y;
    assert t == s + t[|s|..];
    assert t == c + ['/'] + (x + t[|s|..]);
    IndexSplit(c, '/', x + t[|s|..]);
    IndexSplit(d, '/', y);
    assert t[..|c|] == c && t[..|d|] == d;
    assert t[|c| + 1..] == x + t[|s|..] && t[|d| + 1..] == y;
  }

  lemma ConsPrefix<T>(c: T, a: seq<T>, d: T, b: seq<T>)
    ensures [c] + a <= [d] + b <==> c == d && a <= b
  {
    var x, y := [c] + a, [d] + b;
    assert x[1..] == a && y[1..] == b && x[0] == c && y[0] == d;
    if x <= y {
      assert x[0] == y[0];
      assert forall i :: 0 <= i < |a| ==> a[i] == x[i + 1] == y[i + 1] == b[i];
    }
  }

  /** What follows the leading slash of a path and its closing slash. */
  function Inner(p: Path): (r: string)
    ensures "/" + r == Slashed(p) + "/"
  {
    if p == [] then "" else p[0] + Slashed(p[1..]) + "/"
  }

  lemma InnerCons(p: Path)
    requires p != []
    ensures Inner(p) == p[0] + "/" + Inner(p[1..])
  {
    var c, slashed, inner := p[0], Slashed(p[1..]), Inner(p[1..]);
    assert Inner(p) == c + slashed + "/" && "/" + inner == slashed + "/";
    hide Slashed, Inner;
    assert c + slashed + "/" == c + (slashed + "/") && c + "/" + inner == c + ("/" + inner);
  }

  lemma {:induction false} InnerPrefix(e: Path, f: Path)
    requires Clean(e) && Clean(f)
    ensures Inner(e) <= Inner(f) <==> e <= f
    decreases |e|
  {
    hide *;
    if e != [] {
      InnerCons(e);
      CleanTail(e);
      if f != [] {
        InnerCons(f);
        CleanTail(f);
        FirstComponent(e[0], Inner(e[1..]), f[0], Inner(f[1..]));
        InnerPrefix(e[1..], f[1..]);
        ConsPrefix(e[0], e[1..], f[0], f[1..]);
        assert e == [e[0]] + e[1..] && f == [f[0]] + f[1..];
      } else {
        InnerOfRoot();
      }
    } else {
      InnerOfRoot();
    }
  }

  lemma InnerOfRoot()
    ensures Inner([]) == ""
  {
  }

  lemma CleanTail(p: Path)
    requires Clean(p) && p != []
    ensures Clean(p[1..]) && '/' !in p[0]
  {
  }

  lemma TextInner(p: Path)
    requires p != []
    ensures TextOf(p) + "/" == "/" + Inner(p) && |TextOf(p)| >= 1
  {
  }

  /**
   The test holds exactly for the directory itself and its ancestors, component by component, except that
   the file system root governs only itself.
   */
  lemma GovernsIffAncestor(dir: Path, fileDir: Path)
    requires Clean(dir) && Clean(fileDir)
    ensures Governs(dir, fileDir) <==> dir <= fileDir && (dir != [] || fileDir == [])
  {
    if dir != [] && fileDir != [] {
      TextInner(dir);
      TextInner(fileDir);
      ConsPrefix('/', Inner(dir), '/', Inner(fileDir));
      InnerPrefix(dir, fileDir);
      hide Slashed, Inner;
    } else if dir == [] && fileDir != [] {
      var t := TextOf(fileDir);
      assert t == "/" + fileDir[0] + Slashed(fileDir[1..]);
      assert t[1] == fileDir[0][0] && fileDir[0][0] in fileDir[0];
      assert (t + "/")[1] != '/' && "//"[1] == '/';
    } else if fileDir == [] && dir != [] {
      assert |TextOf(dir)| >= 2;
    }
  }

  /** Along one line of directories the shorter text is the ancestor. */
  lemma {:induction false} LengthIsDepth(a: Path, b: Path)
    requires Clean(a) && Clean(b) && a <= b
    ensures a != b <==> |TextOf(a)| < |TextOf(b)|
    ensures |TextOf(a)| <= |TextOf(b)|
  {
    SlashedGrows(a, b);
    if a == [] && b != [] { assert |b[0]| >= 1; }
  }

  lemma {:induction false} SlashedGrows(a: Path, b: Path)
    requires Clean(a) && Clean(b) && a <= b
    ensures |Slashed(a)| <= |Slashed(b)| && (a != b ==> |Slashed(a)| < |Slashed(b)|)
    decreases |a|
  {
    if a != [] {
      ConsPrefix(a[0], a[1..], b[0], b[1..]);
      assert a == [a[0]] + a[1..] && b == [b[0]] + b[1..];
      SlashedGrows(a[1..], b[1..]);
    }
  }

  // ---- Entries ----

  datatype SubConfig = SubConfig(
    operators: seq<string>, threshold: Option<real>, exclude: seq<string>, included: seq<string>,
    skip: seq<string>, skipFunc: seq<string>, tests: seq<string>)

  datatype Entry = Entry(dir: Path, config: SubConfig)

  datatype Mode = Merge | Replace | Isolate

  ghost predicate AllClean(es: seq<Entry>) { forall i :: 0 <= i < |es| ==> Clean(es[i].dir) }

  /** The length of the directory's text, by which entries are sorted. */
  function Len(e: Entry): nat { |TextOf(e.dir)| }

  ghost predicate ByLength(es: seq<Entry>) { forall i, j :: 0 <= i < j < |es| ==> Len(es[i]) <= Len(es[j]) }

  function GovernsFile(fileDir: Path): Entry -> bool { (e: Entry) => Governs(e.dir, fileDir) }

  function Configs(es: seq<Entry>): (r: seq<SubConfig>)
    ensures |r| == |es| && forall i :: 0 <= i < |es| ==> r[i] == es[i].config
  {
    if es == [] then [] else Configs(es[..|es| - 1]) + [es[|es| - 1].config]
  }

  /** The entries that govern a file, in the order of the list. */
  function Line(es: seq<Entry>, fileDir: Path): seq<Entry> { Filter(es, GovernsFile(fileDir)) }

  ghost predicate AtLeast(es: seq<Entry>, n: nat) { forall i :: 0 <= i < |es| ==> n <= Len(es[i]) }

  lemma ByLengthCons(e: Entry, es: seq<Entry>)
    ensures ByLength([e] + es) <==> ByLength(es) && AtLeast(es, Len(e))
  {
    hide Len;
    var all := [e] + es;
    assert forall i :: 0 <= i < |es| ==> all[i + 1] == es[i];
    if ByLength(all) {
      forall i | 0 <= i < |es| ensures Len(e) <= Len(es[i]) { assert Len(all[0]) <= Len(all[i + 1]); }
      forall i, j | 0 <= i < j < |es| ensures Len(es[i]) <= Len(es[j]) { assert Len(all[i + 1]) <= Len(all[j + 1]); }
    }
  }

  lemma FilterAtLeast(es: seq<Entry>, p: Entry -> bool, n: nat)
    requires AtLeast(es, n)
    ensures AtLeast(Filter(es, p), n)
  {
    var f := Filter(es, p);
    forall i | 0 <= i < |f| ensures n <= Len(f[i]) { assert f[i] in es; }
  }

  lemma {:induction false} FilterKeepsLength(es: seq<Entry>, p: Entry -> bool)
    requires ByLength(es)
    ensures ByLength(Filter(es, p))
    decreases |es|
  {
    if es != [] {
      var e, rest := es[0], es[1..];
      assert es == [e] + rest;
      ByLengthCons(e, rest);
      FilterKeepsLength(rest, p);
      FilterAtLeast(rest, p, Len(e));
      ByLengthCons(e, Filter(rest, p));
      hide ByLength, AtLeast;
    }
  }

  /** Sorting by the length of the text puts every governing directory above the next one. */
  ghost predicate RootToLeaf(line: seq<Entry>) { forall i, j :: 0 <= i < j < |line| ==> line[i].dir <= line[j].dir }

  lemma LineIsRootToLeaf(es: seq<Entry>, fileDir: Path)
    requires AllClean(es) && ByLength(es) && Clean(fileDir)
    ensures RootToLeaf(Line(es, fileDir))
  {
    var line := Line(es, fileDir);
    FilterKeepsLength(es, GovernsFile(fileDir));
    forall i, j | 0 <= i < j < |line| ensures line[i].dir <= line[j].dir {
      assert line[i] in line && line[j] in line;
      GovernsIffAncestor(line[i].dir, fileDir);
      GovernsIffAncestor(line[j].dir, fileDir);
      BothPrefixes(line[i].dir, line[j].dir, fileDir);
      if line[j].dir <= line[i].dir { LengthIsDepth(line[j].dir, line[i].dir); }
    }
  }

  lemma BothPrefixes<T>(a: seq<T>, b: seq<T>, c: seq<T>)
    requires a <= c && b <= c
    ensures a <= b || b <= a
  {
  }

  // ---- The resolver ----

  function Last<T>(s: seq<T>): seq<T> { if s == [] then [] else s[|s| - 1..] }

  /** The configs that apply to a file in each of the three modes. */
  function Chain(mode: Mode, es: seq<Entry>, fileDir: Path): seq<SubConfig> {
    match mode
    case Merge => Configs(Line(es, fileDir))
    case Replace => Last(Configs(Line(es, fileDir)))
    case Isolate => Last(Configs(Filter(es, (e: Entry) => e.dir == fileDir)))
  }

  // ---- Locked settings ----

  /** A config without the settings that the organisation's policy locks. */
  function Enforce(locked: set<string>, c: SubConfig): SubConfig {
    SubConfig(
      if "operators" in locked then [] else c.operators, if "threshold" in locked then None else c.threshold,
      if "exclude" in locked then [] else c.exclude, if "include" in locked then [] else c.included,
      if "skip" in locked then [] else c.skip, if "skip_func" in locked then [] else c.skipFunc,
      if "tests" in locked then [] else c.tests)
  }

  function EnforceAll(locked: set<string>, chain: seq<SubConfig>): (r: seq<SubConfig>)
    ensures |r| == |chain|
  {
    if chain == [] then [] else EnforceAll(locked, chain[..|chain| - 1]) + [Enforce(locked, chain[|chain| - 1])]
  }

  /** Without locked settings nothing changes. */
  lemma {:induction false} NothingLocked(chain: seq<SubConfig>)
    ensures EnforceAll({}, chain) == chain
    decreases |chain|
  {
    if chain != [] { NothingLocked(chain[..|chain| - 1]); }
  }

  /** A setting is gone if its own name is locked, and as it was otherwise. */
  lemma EachSetting(locked: set<string>, c: SubConfig)
    ensures var e := Enforce(locked, c);
            && (if "operators" in locked then e.operators == [] else e.operators == c.operators)
            && (if "threshold" in locked then e.threshold == None else e.threshold == c.threshold)
            && (if "exclude" in locked then e.exclude == [] else e.exclude == c.exclude)
            && (if "include" in locked then e.included == [] else e.included == c.included)
            && (if "skip" in locked then e.skip == [] else e.skip == c.skip)
            && (if "skip_func" in locked then e.skipFunc == [] else e.skipFunc == c.skipFunc)
            && (if "tests" in locked then e.tests == [] else e.tests == c.tests)
  {
  }

  /** A locked threshold leaves the root's; any other lock leaves the threshold alone. */
  lemma {:induction false} LockedThreshold(locked: set<string>, chain: seq<SubConfig>, root: real)
    ensures Nearest(EnforceAll(locked, chain), root) == if "threshold" in locked then root else Nearest(chain, root)
    decreases |chain|
  {
    if chain != [] {
      var init := chain[..|chain| - 1];
      LockedThreshold(locked, init, root);
      var r := EnforceAll(locked, chain);
      assert r[..|r| - 1] == EnforceAll(locked, init);
    }
  }

  /** The name under which a list of filters is locked. */
  function LockOf(f: Filters): string {
    match f
    case Exclude => "exclude"
    case Include => "include"
    case Skip => "skip"
    case SkipFunc => "skip_func"
  }

  /** Of a locked list only the root's part is left; the other lists are as without a policy. */
  lemma {:induction false} LockedFilters(locked: set<string>, chain: seq<SubConfig>, f: Filters)
    ensures All(EnforceAll(locked, chain), f) == if LockOf(f) in locked then [] else All(chain, f)
    decreases |chain|
  {
    if chain != [] {
      var init := chain[..|chain| - 1];
      LockedFilters(locked, init, f);
      var r := EnforceAll(locked, chain);
      assert r[..|r| - 1] == EnforceAll(locked, init);
    }
  }

  method EnforcePolicy(locked: set<string>, chain: seq<SubConfig>) returns (filtered: seq<SubConfig>)
    ensures filtered == EnforceAll(locked, chain)
  {
    NothingLocked(chain);
    if locked == {} { return chain; }
    filtered := [];
    for i := 0 to |chain|
      invariant filtered == EnforceAll(locked, chain[..i])
    {
      assert chain[..i + 1][..i] == chain[..i];
      filtered := filtered + [Enforce(locked, chain[i])];
    }
    assert chain[..|chain|] == chain;
  }

  lemma StillByLength(es: seq<Entry>, e: Entry, k: nat)
    requires k <= |es| && AllClean(es) && ByLength(es) && Clean(e.dir)
    requires (forall i :: 0 <= i < k ==> Len(es[i]) < Len(e)) && (k < |es| ==> Len(e) <= Len(es[k]))
    ensures AllClean(es[..k] + [e] + es[k..]) && ByLength(es[..k] + [e] + es[k..])
  {
    hide Len, Clean;
  }

  class Resolver {
    const locked: set<string>
    var entries: seq<Entry>
    var mode: Mode

    ghost predicate Valid()
      reads this
    {
      AllClean(entries) && ByLength(entries)
    }

    /**
     Sorts the discovered entries by the length of the directory text; entries of equal length may end in any order.
     */
    constructor (found: seq<Entry>, locked: set<string>)
      requires AllClean(found)
      ensures Valid() && multiset(entries) == multiset(found) && mode == Merge && this.locked == locked
    {
      this.locked := locked;
      entries, mode := [], Merge;
      new;
      for i := 0 to |found|
        invariant Valid() && multiset(entries) == multiset(found[..i]) && mode == Merge
      {
        assert found[..i + 1] == found[..i] + [found[i]];
        Insert(found[i]);
      }
      assert found[..|found|] == found;
    }

    method Insert(e: Entry)
      requires Valid() && Clean(e.dir)
      modifies this`entries
      ensures Valid() && multiset(entries) == multiset(old(entries)) + multiset{e}
    {
      hide Len, Clean;
      var k := 0;
      while k < |entries| && Len(entries[k]) < Len(e)
        invariant k <= |entries| && forall i :: 0 <= i < k ==> Len(entries[i]) < Len(e)
      {
        k := k + 1;
      }
      ghost var before := entries;
      var l, r := entries[..k], entries[k..];
      assert before == l + r;
      entries := l + [e] + r;
      StillByLength(before, e, k);
    }

    /** What the levels contribute to a list of filters. */
    function Levels(fileDir: Path, f: Filters): seq<string>
      reads this
    {
      if LockOf(f) in locked then [] else All(Chain(mode, entries, fileDir), f)
    }

    method SetMode(m: Mode)
      modifies this`mode
      ensures mode == m
    {
      mode := m;
    }

    /** The chain of the mode, without the locked settings. */
    method GetChain(fileDir: Path) returns (chain: seq<SubConfig>)
      requires Valid()
      ensures chain == EnforceAll(locked, Chain(mode, entries, fileDir))
    {
      chain := Unfiltered(fileDir);
      chain := EnforcePolicy(locked, chain);
    }

    method Unfiltered(fileDir: Path) returns (chain: seq<SubConfig>)
      requires Valid()
      ensures chain == Chain(mode, entries, fileDir)
    {
      chain := [];
      if mode == Isolate {
        chain := Exact(fileDir);
        return;
      }
      for i := 0 to |entries|
        invariant chain == Configs(Line(entries[..i], fileDir))
      {
        LineMore(entries, i, fileDir);
        if TextOf(fileDir) == TextOf(entries[i].dir) || HasPrefix(TextOf(fileDir) + "/", TextOf(entries[i].dir) + "/") {
          chain := chain + [entries[i].config];
        }
      }
      assert entries[..|entries|] == entries;
      if mode == Replace && |chain| > 0 {
        chain := chain[|chain| - 1..];
      }
    }

    /** From the end of the list, the first entry of exactly this directory. */
    method Exact(fileDir: Path) returns (chain: seq<SubConfig>)
      ensures chain == Last(Configs(Filter(entries, (e: Entry) => e.dir == fileDir)))
    {
      var same := (e: Entry) => e.dir == fileDir;
      var i := |entries|;
      while i > 0
        invariant 0 <= i <= |entries| && Filter(entries[i..], same) == []
      {
        i := i - 1;
        assert entries[i..][1..] == entries[i + 1..];
        if entries[i].dir == fileDir {
          ExactLast(entries[..i], entries[i], entries[i + 1..], same);
          assert entries == entries[..i] + [entries[i]] + entries[i + 1..];
          return [entries[i].config];
        }
      }
      assert entries[0..] == entries;
      return [];
    }

    /**
     The threshold of the deepest config that sets one, else the root's, which is also left when thresholds are locked.
     */
    method EffectiveThreshold(fileDir: Path, rootThreshold: real) returns (t: real)
      requires Valid()
      ensures t == if "threshold" in locked then rootThreshold
              else Nearest(Chain(mode, entries, fileDir), rootThreshold)
    {
      LockedThreshold(locked, Chain(mode, entries, fileDir), rootThreshold);
      hide *;
      var chain := GetChain(fileDir);
      t := FindNearest(chain, rootThreshold);
    }

    /** Each list of the root, followed, unless it is locked, by those of the levels in order. */
    method EffectiveFilters(fileDir: Path, exclude: seq<string>, included: seq<string>, skip: seq<string>,
                            skipFunc: seq<string>)
      returns (ex: seq<string>, inc: seq<string>, sk: seq<string>, sf: seq<string>)
      requires Valid()
      ensures ex == exclude + Levels(fileDir, Exclude) && inc == included + Levels(fileDir, Include)
      ensures sk == skip + Levels(fileDir, Skip) && sf == skipFunc + Levels(fileDir, SkipFunc)
    {
      forall f ensures All(EnforceAll(locked, Chain(mode, entries, fileDir)), f) == Levels(fileDir, f) {
        LockedFilters(locked, Chain(mode, entries, fileDir), f);
      }
      hide Chain, EnforceAll, Levels;
      var chain := GetChain(fileDir);
      ex := Accumulate(exclude, chain, Exclude);
      inc := Accumulate(included, chain, Include);
      sk := Accumulate(skip, chain, Skip);
      sf := Accumulate(skipFunc, chain, SkipFunc);
    }
  }

  method FindNearest(chain: seq<SubConfig>, root: real) returns (t: real)
    ensures t == Nearest(chain, root)
  {
    var i := |chain|;
    assert chain[..|chain|] == chain;
    while i > 0
      invariant 0 <= i <= |chain| && Nearest(chain, root) == Nearest(chain[..i], root)
    {
      i := i - 1;
      assert chain[..i + 1][..i] == chain[..i];
      if chain[i].threshold.Some? { return chain[i].threshold.value; }
    }
    return root;
  }

  method Accumulate(root: seq<string>, chain: seq<SubConfig>, f: Filters) returns (r: seq<string>)
    ensures r == root + All(chain, f)
  {
    r := root;
    for i := 0 to |chain|
      invariant r == root + All(chain[..i], f)
    {
      assert chain[..i + 1][..i] == chain[..i];
      r := r + Get(f, chain[i]);
    }
    assert chain[..|chain|] == chain;
  }

  function Nearest(chain: seq<SubConfig>, root: real): real {
    if chain == [] then root
    else if chain[|chain| - 1].threshold.Some? then chain[|chain| - 1].threshold.value
    else Nearest(chain[..|chain| - 1], root)
  }

  datatype Filters = Exclude | Include | Skip | SkipFunc

  function Get(f: Filters, c: SubConfig): seq<string> {
    match f
    case Exclude => c.exclude
    case Include => c.included
    case Skip => c.skip
    case SkipFunc => c.skipFunc
  }

  function All(chain: seq<SubConfig>, f: Filters): seq<string> {
    if chain == [] then [] else All(chain[..|chain| - 1], f) + Get(f, chain[|chain| - 1])
  }

  lemma LineMore(es: seq<Entry>, i: nat, fileDir: Path)
    requires i < |es|
    ensures Configs(Line(es[..i + 1], fileDir))
         == Configs(Line(es[..i], fileDir)) + if Governs(es[i].dir, fileDir) then [es[i].config] else []
  {
    assert es[..i + 1] == es[..i] + [es[i]];
    FilterAppend(es[..i], [es[i]], GovernsFile(fileDir));
    var l := Line(es[..i], fileDir);
    assert (l + [es[i]])[..|l|] == l;
    assert l + [] == l;
  }

  lemma LastConfig(a: seq<Entry>, e: Entry)
    ensures Configs(a + [e]) == Configs(a) + [e.config] && Last(Configs(a + [e])) == [e.config]
  {
    assert (a + [e])[..|a|] == a;
  }

  lemma ExactLast(a: seq<Entry>, e: Entry, rest: seq<Entry>, p: Entry -> bool)
    requires p(e) && Filter(rest, p) == []
    ensures Last(Configs(Filter(a + [e] + rest, p))) == [e.config]
  {
    FilterAppend(a + [e], rest, p);
    FilterAppend(a, [e], p);
    assert Filter([e], p) == [e];
    hide Filter, Configs, Last;
    LastConfig(Filter(a, p), e);
    assert Filter(a, p) + [e] + [] == Filter(a, p) + [e];
  }

  // ---- What the modes and values mean ----

  ghost predicate Sorted(es: seq<Entry>) { AllClean(es) && ByLength(es) }

  lemma LineMembers(es: seq<Entry>, fileDir: Path, e: Entry)
    ensures e in Line(es, fileDir) <==> e in es && Governs(e.dir, fileDir)
  {
  }

  /** `e` governs the file, and every other governing directory is an ancestor of its directory. */
  ghost predicate Deepest(es: seq<Entry>, fileDir: Path, e: Entry) {
    && e in es && Governs(e.dir, fileDir)
    && forall o :: o in es && Governs(o.dir, fileDir) ==> o.dir <= e.dir
  }

  /** Replace mode is the last of the merge chain: the config of the deepest governing directory, if there is one. */
  lemma ReplaceIsDeepest(es: seq<Entry>, fileDir: Path) returns (e: Option<Entry>)
    requires Sorted(es) && Clean(fileDir)
    ensures Chain(Replace, es, fileDir) == Last(Chain(Merge, es, fileDir))
    ensures e.None? <==> forall o :: o in es ==> !Governs(o.dir, fileDir)
    ensures e.None? ==> Chain(Replace, es, fileDir) == []
    ensures e.Some? ==> Deepest(es, fileDir, e.value) && Chain(Replace, es, fileDir) == [e.value.config]
  {
    var line := Line(es, fileDir);
    LineIsRootToLeaf(es, fileDir);
    forall o ensures o in line <==> o in es && Governs(o.dir, fileDir) { LineMembers(es, fileDir, o); }
    hide Line, Governs, Sorted, RootToLeaf, Configs, Last;
    if line == [] {
      e := None;
      assert Last(Configs([])) == [] by { NoConfigs(); }
    } else {
      LastIsDeepest(line);
      var last := line[|line| - 1];
      e := Some(last);
      assert last in line;
    }
  }

  lemma NoConfigs()
    ensures Last(Configs([])) == []
  {
  }

  lemma LastIsDeepest(line: seq<Entry>)
    requires RootToLeaf(line) && line != []
    ensures var last := line[|line| - 1];
            Last(Configs(line)) == [last.config] && forall o :: o in line ==> o.dir <= last.dir
  {
    hide *;
    DirsBelow(line);
    LastOfConfigs(line);
  }

  lemma LastOfConfigs(s: seq<Entry>)
    requires s != []
    ensures Last(Configs(s)) == [s[|s| - 1].config]
  {
    var cs := Configs(s);
    assert cs[|cs| - 1..] == [cs[|cs| - 1]];
  }

  lemma DirsBelow(line: seq<Entry>)
    requires RootToLeaf(line) && line != []
    ensures forall o :: o in line ==> o.dir <= line[|line| - 1].dir
  {
    forall o | o in line ensures o.dir <= line[|line| - 1].dir {
      var i :| 0 <= i < |line| && line[i] == o;
    }
  }

  /** Isolate mode has the config of the file's own directory or none. */
  lemma IsolateIsOwnDirectory(es: seq<Entry>, fileDir: Path)
    ensures Chain(Isolate, es, fileDir) == [] <==> forall o :: o in es ==> o.dir != fileDir
    ensures Chain(Isolate, es, fileDir) != [] ==>
              exists o :: o in es && o.dir == fileDir && Chain(Isolate, es, fileDir) == [o.config]
  {
    var own := Filter(es, (e: Entry) => e.dir == fileDir);
    if own != [] {
      var last := own[|own| - 1];
      assert last in own;
      assert own == own[..|own| - 1] + [last];
      LastConfig(own[..|own| - 1], last);
    }
  }

  lemma {:induction false} NearestAt(chain: seq<SubConfig>, root: real) returns (k: int)
    ensures -1 <= k < |chain| && forall i :: k < i < |chain| ==> chain[i].threshold.None?
    ensures if k == -1 then Nearest(chain, root) == root else chain[k].threshold == Some(Nearest(chain, root))
    decreases |chain|
  {
    k := |chain| - 1;
    if chain != [] && chain[k].threshold.None? { k := NearestAt(chain[..k], root); }
  }

  /** On a line from root to leaf: the position of the entry that decides the threshold, -1 for the root. */
  lemma NearestOnLine(line: seq<Entry>, root: real) returns (k: int)
    requires RootToLeaf(line)
    ensures -1 <= k < |line|
    ensures if k == -1 then Nearest(Configs(line), root) == root
            else line[k].config.threshold == Some(Nearest(Configs(line), root))
    ensures forall o :: o in line && o.config.threshold.Some? ==> k >= 0 && o.dir <= line[k].dir
  {
    var cs := Configs(line);
    k := NearestAt(cs, root);
    hide Configs, Nearest;
    forall o | o in line && o.config.threshold.Some? ensures k >= 0 && o.dir <= line[k].dir {
      var i :| 0 <= i < |line| && line[i] == o;
      assert cs[i] == o.config;
    }
  }

  lemma MergeIsLine(es: seq<Entry>, fileDir: Path)
    ensures Chain(Merge, es, fileDir) == Configs(Line(es, fileDir))
  {
  }

  /** The threshold is that of the nearest governing directory that sets one, else the root's. */
  lemma ThresholdIsNearest(es: seq<Entry>, fileDir: Path, root: real) returns (e: Option<Entry>)
    requires Sorted(es) && Clean(fileDir)
    ensures var t := Nearest(Chain(Merge, es, fileDir), root);
            match e
            case None => t == root && forall o :: o in es && Governs(o.dir, fileDir) ==> o.config.threshold.None?
            case Some(n) =>
              && n in es && Governs(n.dir, fileDir) && n.config.threshold == Some(t)
              && forall o :: o in es && Governs(o.dir, fileDir) && o.config.threshold.Some? ==> o.dir <= n.dir
  {
    LineIsRootToLeaf(es, fileDir);
    hide *;
    var line := Line(es, fileDir);
    MergeIsLine(es, fileDir);
    forall o ensures o in line <==> o in es && Governs(o.dir, fileDir) { LineMembers(es, fileDir, o); }
    var k := NearestOnLine(line, root);
    if k == -1 {
      e := None;
    } else {
      assert line[k] in line;
      e := Some(line[k]);
    }
  }

  // ---- Neither the order of discovery nor finding a directory twice matters ----

  /** A directory has one config file, however often it was found. */
  ghost predicate OneConfig(es: seq<Entry>) { forall a, b :: a in es && b in es && a.dir == b.dir ==> a == b }

  /** Entries of equal length are equal. */
  ghost predicate LengthTells(es: seq<Entry>) { forall a, b :: a in es && b in es && Len(a) == Len(b) ==> a == b }

  lemma {:induction false} SortedUnique(a: seq<Entry>, b: seq<Entry>)
    requires multiset(a) == multiset(b) && ByLength(a) && ByLength(b) && LengthTells(a)
    ensures a == b
    decreases |a|
  {
    hide Len, ByLength, LengthTells;
    assert |a| == |multiset(a)| == |multiset(b)| == |b|;
    if a != [] {
      ShortestFirst(a, b);
      var x, a', b' := a[0], a[1..], b[1..];
      assert a == [x] + a' && b == [x] + b';
      SameRest(x, a', b');
      ByLengthCons(x, a');
      ByLengthCons(x, b');
      TailTells(x, a');
      SortedUnique(a', b');
    }
  }

  lemma TailTells(x: Entry, rest: seq<Entry>)
    requires LengthTells([x] + rest)
    ensures LengthTells(rest)
  {
    assert forall y :: y in rest ==> y in [x] + rest;
    hide Len;
  }

  lemma ShortestFirst(a: seq<Entry>, b: seq<Entry>)
    requires multiset(a) == multiset(b) && ByLength(a) && ByLength(b) && LengthTells(a) && a != [] && b != []
    ensures a[0] == b[0]
  {
    hide Len;
    assert a[0] in multiset(b) && b[0] in multiset(a);
    var i :| 0 <= i < |a| && a[i] == b[0];
    var j :| 0 <= j < |b| && b[j] == a[0];
    assert Len(a[0]) <= Len(a[i]) && Len(b[0]) <= Len(b[j]);
  }

  lemma LineTells(es: seq<Entry>, fileDir: Path)
    requires Sorted(es) && OneConfig(es) && Clean(fileDir)
    ensures LengthTells(Line(es, fileDir))
  {
    var line := Line(es, fileDir);
    LineIsRootToLeaf(es, fileDir);
    hide Line, RootToLeaf, Sorted, OneConfig, Governs;
    forall a, b | a in line && b in line && Len(a) == Len(b) ensures a == b {
      LineMembers(es, fileDir, a);
      LineMembers(es, fileDir, b);
      CleanDirs(es, a, b);
      SameDepth(line, a, b);
      Only(es, a, b);
    }
  }

  lemma CleanDirs(es: seq<Entry>, a: Entry, b: Entry)
    requires Sorted(es) && a in es && b in es
    ensures Clean(a.dir) && Clean(b.dir)
  {
  }

  lemma Only(es: seq<Entry>, a: Entry, b: Entry)
    requires OneConfig(es) && a in es && b in es && a.dir == b.dir
    ensures a == b
  {
  }

  lemma SameDepth(line: seq<Entry>, a: Entry, b: Entry)
    requires RootToLeaf(line) && a in line && b in line && Len(a) == Len(b) && Clean(a.dir) && Clean(b.dir)
    ensures a.dir == b.dir
  {
    var i :| 0 <= i < |line| && line[i] == a;
    var j :| 0 <= j < |line| && line[j] == b;
    hide Clean;
    if i < j {
      LengthIsDepth(a.dir, b.dir);
    } else if j < i {
      LengthIsDepth(b.dir, a.dir);
    }
  }

  /** However the entries were found and sorted, the chain of every mode is the same. */
  lemma AnyDiscoveryOrder(es: seq<Entry>, es': seq<Entry>, fileDir: Path, mode: Mode)
    requires Sorted(es) && Sorted(es') && multiset(es) == multiset(es') && OneConfig(es) && Clean(fileDir)
    ensures Chain(mode, es, fileDir) == Chain(mode, es', fileDir)
  {
    forall e ensures e in es <==> e in es' {
      assert (e in es <==> e in multiset(es)) && (e in es' <==> e in multiset(es'));
    }
    FilterPermute(es, es', GovernsFile(fileDir));
    LineTells(es, fileDir);
    FilterKeepsLength(es, GovernsFile(fileDir));
    FilterKeepsLength(es', GovernsFile(fileDir));
    SortedUnique(Line(es, fileDir), Line(es', fileDir));
    if mode == Isolate { FoundTwice(es, es', fileDir, 0.0); }
  }

  /**
   A member of the workspace inside the project is walked twice.  How often a directory was found makes no difference
   to the single configs of replace and isolate mode, nor to the threshold.
   */
  lemma FoundTwice(es: seq<Entry>, es': seq<Entry>, fileDir: Path, root: real)
    requires Sorted(es) && Sorted(es') && OneConfig(es) && Clean(fileDir) && forall e :: e in es <==> e in es'
    ensures Chain(Replace, es, fileDir) == Chain(Replace, es', fileDir)
    ensures Chain(Isolate, es, fileDir) == Chain(Isolate, es', fileDir)
    ensures Nearest(Chain(Merge, es, fileDir), root) == Nearest(Chain(Merge, es', fileDir), root)
  {
    hide Chain, Nearest, Governs, Sorted;
    var e := ReplaceIsDeepest(es, fileDir);
    var e' := ReplaceIsDeepest(es', fileDir);
    if e.Some? && e'.Some? { assert e.value.dir <= e'.value.dir && e'.value.dir <= e.value.dir; }
    IsolateIsOwnDirectory(es, fileDir);
    IsolateIsOwnDirectory(es', fileDir);
    var n := ThresholdIsNearest(es, fileDir, root);
    var n' := ThresholdIsNearest(es', fileDir, root);
    if n.Some? && n'.Some? { assert n.value.dir <= n'.value.dir && n'.value.dir <= n.value.dir; }
  }

  // ---- Filters count every time a directory was found ----

  /** What entries contribute to a list of filters. */
  function Gathered(es: seq<Entry>, f: Filters): seq<string> { All(Configs(es), f) }

  lemma GatheredOne(e: Entry, f: Filters)
    ensures Gathered([e], f) == Get(f, e.config)
  {
    var cs := Configs([e]);
    assert cs == [e.config] && cs[..0] == [];
    assert All(cs, f) == All(cs[..0], f) + Get(f, cs[0]);
    hide Get, Configs;
    assert All([], f) == [];
  }

  lemma {:induction false} GatheredAppend(a: seq<Entry>, b: seq<Entry>, f: Filters)
    ensures Gathered(a + b, f) == Gathered(a, f) + Gathered(b, f)
    decreases |b|
  {
    hide *;
    if b == [] {
      GatheredNothing(f);
      assert a + b == a;
    } else {
      var init, e := b[..|b| - 1], b[|b| - 1];
      GatheredAppend(a, init, f);
      GatheredSnoc(a + init, e, f);
      GatheredSnoc(init, e, f);
      assert a + b == a + init + [e] && b == init + [e];
    }
  }

  lemma GatheredNothing(f: Filters)
    ensures Gathered([], f) == []
  {
  }

  lemma GatheredSnoc(es: seq<Entry>, e: Entry, f: Filters)
    ensures Gathered(es + [e], f) == Gathered(es, f) + Get(f, e.config)
  {
    assert (es + [e])[..|es|] == es;
    var cs := Configs(es + [e]);
    assert cs == Configs(es) + [e.config];
    assert cs[..|cs| - 1] == Configs(es);
  }

  /**
   One more entry for a directory, wherever it stands, changes a list exactly if it governs the file and has such
   filters.
   */
  lemma FoundOnceMore(a: seq<Entry>, e: Entry, b: seq<Entry>, fileDir: Path, f: Filters)
    ensures All(Chain(Merge, a + [e] + b, fileDir), f) == All(Chain(Merge, a + b, fileDir), f)
       <==> !Governs(e.dir, fileDir) || Get(f, e.config) == []
  {
    var p := GovernsFile(fileDir);
    FilterAppend(a + [e], b, p);
    FilterAppend(a, [e], p);
    FilterAppend(a, b, p);
    var x, y := Filter(a, p), Filter(b, p);
    assert Filter([e], p) == if Governs(e.dir, fileDir) then [e] else [];
    assert x + [] == x;
    GatheredAppend(x + [e], y, f);
    GatheredAppend(x, [e], f);
    GatheredAppend(x, y, f);
    GatheredOne(e, f);
    hide Gathered, Filter, Governs, Get;
    MiddleMatters(Gathered(x, f), Get(f, e.config), Gathered(y, f));
    assert Chain(Merge, a + b, fileDir) == Configs(x + y);
  }

  lemma MiddleMatters<T>(x: seq<T>, m: seq<T>, y: seq<T>)
    ensures x + m + y == x + y <==> m == []
  {
    if m == [] { assert x + m == x; }
    assert |x + m + y| == |x| + |m| + |y|;
  }

  /** Governs the file, and has something for the list. */
  function Contributes(fileDir: Path, f: Filters): Entry -> bool {
    (e: Entry) => Governs(e.dir, fileDir) && Get(f, e.config) != []
  }

  lemma {:induction false} OnlyContributors(es: seq<Entry>, fileDir: Path, f: Filters)
    ensures Gathered(Line(es, fileDir), f) == Gathered(Filter(es, Contributes(fileDir, f)), f)
    decreases |es|
  {
    hide Governs, Get, Gathered;
    if es != [] {
      var e, rest := es[0], es[1..];
      OnlyContributors(rest, fileDir, f);
      GatheredOne(e, f);
      GatheredAppend([e], Line(rest, fileDir), f);
      GatheredAppend([e], Filter(rest, Contributes(fileDir, f)), f);
      assert Line(es, fileDir) == (if Governs(e.dir, fileDir) then [e] else []) + Line(rest, fileDir);
      assert [] + Line(rest, fileDir) == Line(rest, fileDir);
      assert [] + Gathered(Line(rest, fileDir), f) == Gathered(Line(rest, fileDir), f);
      assert [] + Filter(rest, Contributes(fileDir, f)) == Filter(rest, Contributes(fileDir, f));
    }
  }

  lemma {:induction false} FilterCounts(es: seq<Entry>, p: Entry -> bool, x: Entry)
    ensures multiset(Filter(es, p))[x] == if p(x) then multiset(es)[x] else 0
    decreases |es|
  {
    if es != [] {
      FilterCounts(es[1..], p, x);
      assert es == [es[0]] + es[1..];
    }
  }

  /** Entries that all contribute gather as much only if there are as many of each. */
  lemma {:induction false} AsMuchAsMany(a: seq<Entry>, b: seq<Entry>, f: Filters)
    requires multiset(a) <= multiset(b) && |Gathered(a, f)| >= |Gathered(b, f)|
    requires forall e :: e in b ==> Get(f, e.config) != []
    ensures multiset(a) == multiset(b)
    decreases |a|
  {
    hide Get, Gathered;
    if a == [] {
      GatheredNothing(f);
      if b != [] { SomethingGathered(b, f); }
    } else {
      var x, rest := a[0], a[1..];
      var l, r := Around(a, b);
      assert a == [x] + rest && b == l + [x] + r;
      Lengths([x], rest, f);
      Lengths(l + [x], r, f);
      Lengths(l, [x], f);
      Lengths(l, r, f);
      assert forall e :: e in l + r ==> e in b;
      AsMuchAsMany(rest, l + r, f);
    }
  }

  lemma SomethingGathered(b: seq<Entry>, f: Filters)
    requires b != [] && forall e :: e in b ==> Get(f, e.config) != []
    ensures |Gathered(b, f)| > 0
  {
    hide Get, Gathered;
    GatheredAppend([b[0]], b[1..], f);
    GatheredOne(b[0], f);
    assert b == [b[0]] + b[1..] && b[0] in b;
  }

  lemma Lengths(a: seq<Entry>, b: seq<Entry>, f: Filters)
    ensures |Gathered(a + b, f)| == |Gathered(a, f)| + |Gathered(b, f)|
  {
    GatheredAppend(a, b, f);
  }

  lemma Around(a: seq<Entry>, b: seq<Entry>) returns (l: seq<Entry>, r: seq<Entry>)
    requires a != [] && multiset(a) <= multiset(b)
    ensures b == l + [a[0]] + r && multiset(a[1..]) <= multiset(l + r)
  {
    var x := a[0];
    assert a == [x] + a[1..];
    assert multiset(a) == multiset(a[1..]) + multiset{x};
    assert multiset(a)[x] >= 1;
    assert x in multiset(b);
    l, r := SplitAt(b, x);
    OneLess(multiset(a[1..]), multiset(l + r), x);
  }

  lemma SplitAt<T>(b: seq<T>, x: T) returns (l: seq<T>, r: seq<T>)
    requires x in multiset(b)
    ensures b == l + [x] + r && multiset(b) == multiset(l + r) + multiset{x}
  {
    var i :| 0 <= i < |b| && b[i] == x;
    l, r := b[..i], b[i + 1..];
    assert b == l + [x] + r;
  }

  lemma OneLess<T(!new)>(a: multiset<T>, b: multiset<T>, x: T)
    requires a + multiset{x} <= b + multiset{x}
    ensures a <= b
  {
    forall y ensures a[y] <= b[y] { assert (a + multiset{x})[y] <= (b + multiset{x})[y]; }
  }

  /** Found at least as often, and those that contribute exactly as often. */
  ghost predicate SameCounts(es: seq<Entry>, es': seq<Entry>, p: Entry -> bool) {
    forall e :: p(e) ==> multiset(es')[e] == multiset(es)[e]
  }

  lemma FilteredCounts(es: seq<Entry>, es': seq<Entry>, p: Entry -> bool)
    requires multiset(es') <= multiset(es)
    ensures multiset(Filter(es', p)) <= multiset(Filter(es, p))
    ensures multiset(Filter(es', p)) == multiset(Filter(es, p)) <==> SameCounts(es, es', p)
  {
    forall x ensures multiset(Filter(es', p))[x] == (if p(x) then multiset(es')[x] else 0)
                  && multiset(Filter(es, p))[x] == (if p(x) then multiset(es)[x] else 0) {
      FilterCounts(es', p, x);
      FilterCounts(es, p, x);
    }
    hide Filter;
    if SameCounts(es, es', p) {
      forall x ensures multiset(Filter(es', p))[x] == multiset(Filter(es, p))[x] {}
    }
    if multiset(Filter(es', p)) == multiset(Filter(es, p)) {
      forall x | p(x) ensures multiset(es')[x] == multiset(es)[x] {
        assert multiset(Filter(es', p))[x] == multiset(Filter(es, p))[x];
      }
    }
  }

  /**
   Finding directories more often leaves a list of filters alone if and only if no directory that governs the file and
   has such filters was found more often.
   */
  lemma FoundMoreOften(es: seq<Entry>, es': seq<Entry>, fileDir: Path, f: Filters)
    requires Sorted(es) && Sorted(es') && OneConfig(es) && Clean(fileDir) && multiset(es') <= multiset(es)
    ensures All(Chain(Merge, es, fileDir), f) == All(Chain(Merge, es', fileDir), f)
       <==> SameCounts(es, es', Contributes(fileDir, f))
  {
    hide *;
    var p := Contributes(fileDir, f);
    GatheredChain(es, fileDir, f);
    GatheredChain(es', fileDir, f);
    FilteredCounts(es, es', p);
    SameContributors(es, es', fileDir, f);
    if Gathered(Filter(es', p), f) == Gathered(Filter(es, p), f) {
      ContributorsHave(es, fileDir, f);
      AsMuchAsMany(Filter(es', p), Filter(es, p), f);
    }
  }

  lemma GatheredChain(es: seq<Entry>, fileDir: Path, f: Filters)
    ensures All(Chain(Merge, es, fileDir), f) == Gathered(Filter(es, Contributes(fileDir, f)), f)
  {
    OnlyContributors(es, fileDir, f);
    hide All, Configs, Line, Contributes;
  }

  lemma ContributorsHave(es: seq<Entry>, fileDir: Path, f: Filters)
    ensures forall e :: e in Filter(es, Contributes(fileDir, f)) ==> Get(f, e.config) != []
  {
    hide Get, Governs;
  }

  lemma SameContributors(es: seq<Entry>, es': seq<Entry>, fileDir: Path, f: Filters)
    requires Sorted(es) && Sorted(es') && OneConfig(es) && Clean(fileDir)
    ensures var p := Contributes(fileDir, f);
            multiset(Filter(es, p)) == multiset(Filter(es', p)) ==> Filter(es, p) == Filter(es', p)
  {
    var p := Contributes(fileDir, f);
    LineTells(es, fileDir);
    FilterKeepsLength(es, p);
    FilterKeepsLength(es', p);
    forall a, b | a in Filter(es, p) && b in Filter(es, p) && Len(a) == Len(b) ensures a == b {
      LineMembers(es, fileDir, a);
      LineMembers(es, fileDir, b);
    }
    hide Len, Governs, Sorted, Line;
    if multiset(Filter(es, p)) == multiset(Filter(es', p)) { SortedUnique(Filter(es, p), Filter(es', p)); }
  }

  /** A directory of the file, found once and found twice: each of its lists is there once, and twice. */
  lemma FiltersTwice(e: Entry, f: Filters)
    ensures All(Chain(Merge, [e], e.dir), f) == Get(f, e.config)
    ensures All(Chain(Merge, [e, e], e.dir), f) == Get(f, e.config) + Get(f, e.config)
  {
    hide *;
    assert [e] + [e] == [e, e];
    OwnLine([e], e.dir);
    OwnLine([e, e], e.dir);
    GatheredOne(e, f);
    GatheredAppend([e], [e], f);
    GatheredIs([e], f);
    GatheredIs([e, e], f);
  }

  lemma OwnLine(es: seq<Entry>, fileDir: Path)
    requires forall e :: e in es ==> e.dir == fileDir
    ensures Chain(Merge, es, fileDir) == Configs(es)
  {
    FilterAll(es, GovernsFile(fileDir));
    hide Configs, Filter;
  }

  lemma GatheredIs(es: seq<Entry>, f: Filters)
    ensures Gathered(es, f) == All(Configs(es), f)
  {
  }
}
