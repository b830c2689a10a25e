/** Type expressions written out as text, with a table that remembers the declared names already resolved. */
module TypeNames {
  import opened Wrappers

  datatype TypeExpr =
    | Ident(name: string)
    | Star(x: TypeExpr)
    | Array(length: Option<string>, elem: TypeExpr)
    | MapOf(key: TypeExpr, value: TypeExpr)
    | Chan(elem: TypeExpr)
    | Interface
    | Func
    | Selector(package: Option<string>, name: string)
    | Paren(x: TypeExpr)
    | Ellipsis(elem: TypeExpr)
    | Other

  datatype Decl = Decl(name: string, body: TypeExpr)

  type File = seq<Decl>

  /** The first declaration of a name. */
  function Lookup(file: File, name: string): (r: Option<Decl>)
    ensures r.Some? ==> r.value in file && r.value.name == name
    ensures r.None? ==> forall d :: d in file ==> d.name != name
  {
    if file == [] then None else if file[0].name == name then Some(file[0]) else Lookup(file[1..], name)
  }

  type Rank = string -> nat

  /** Every declared name that the writer would visit inside `t` has a rank below `b`. */
  ghost predicate Below(file: File, rank: Rank, t: TypeExpr, b: nat) {
    match t
    case Ident(name) => Lookup(file, name).Some? ==> rank(name) < b
    case Star(x) => Below(file, rank, x, b)
    case Array(_, elem) => Below(file, rank, elem, b)
    case MapOf(key, value) => Below(file, rank, key, b) && Below(file, rank, value, b)
    case Chan(elem) => Below(file, rank, elem, b)
    case Paren(x) => Below(file, rank, x, b)
    case Ellipsis(elem) => Below(file, rank, elem, b)
    case _ => true
  }

  /** Declarations refer only to declarations of lower rank, through pointers, arrays, maps and channels too. */
  ghost predicate Acyclic(file: File, rank: Rank) {
    forall d :: d in file && Lookup(file, d.name) == Some(d) ==> Below(file, rank, d.body, rank(d.name))
  }

  /** The text without any table: every declared name is replaced by the text of its body. */
  ghost function Expand(file: File, rank: Rank, t: TypeExpr, b: nat): string
    requires Acyclic(file, rank) && Below(file, rank, t, b)
    decreases b, t
  {
    match t
    case Ident(name) =>
      if Lookup(file, name).None? then name else Expand(file, rank, Lookup(file, name).value.body, rank(name))
    case Star(x) => "*" + Expand(file, rank, x, b)
    case Array(None, elem) => "[]" + Expand(file, rank, elem, b)
    case Array(Some(n), elem) => "[" + n + "]" + Expand(file, rank, elem, b)
    case MapOf(key, value) => "map[" + Expand(file, rank, key, b) + "]" + Expand(file, rank, value, b)
    case Chan(elem) => "chan " + Expand(file, rank, elem, b)
    case Interface => "interface{}"
    case Func => "func"
    case Selector(None, name) => name
    case Selector(Some(p), name) => p + "." + name
    case Paren(x) => Expand(file, rank, x, b)
    case Ellipsis(elem) => "..." + Expand(file, rank, elem, b)
    case Other => ""
  }

  /** The bound only serves termination. */
  lemma {:induction false} ExpandAnyBound(file: File, rank: Rank, t: TypeExpr, b: nat, b': nat)
    requires Acyclic(file, rank) && Below(file, rank, t, b) && Below(file, rank, t, b')
    ensures Expand(file, rank, t, b) == Expand(file, rank, t, b')
    decreases t
  {
    match t
    case Star(x) => ExpandAnyBound(file, rank, x, b, b');
    case Array(_, elem) => ExpandAnyBound(file, rank, elem, b, b');
    case MapOf(key, value) =>
      ExpandAnyBound(file, rank, key, b, b');
      ExpandAnyBound(file, rank, value, b, b');
    case Chan(elem) => ExpandAnyBound(file, rank, elem, b, b');
    case Paren(x) => ExpandAnyBound(file, rank, x, b, b');
    case Ellipsis(elem) => ExpandAnyBound(file, rank, elem, b, b');
    case _ =>
  }

  ghost function ExpandName(file: File, rank: Rank, name: string): string
    requires Acyclic(file, rank)
  {
    Expand(file, rank, Ident(name), rank(name) + 1)
  }

  /** Nor does it matter which ranks there are. */
  lemma {:induction false} ExpandAnyRank(file: File, rank: Rank, rank': Rank, t: TypeExpr, b: nat, b': nat)
    requires Acyclic(file, rank) && Below(file, rank, t, b) && Acyclic(file, rank') && Below(file, rank', t, b')
    ensures Expand(file, rank, t, b) == Expand(file, rank', t, b')
    decreases b, t
  {
    hide Acyclic;
    match t
    case Ident(name) =>
      if Lookup(file, name).Some? {
        var d := Lookup(file, name).value;
        BodyBelow(file, rank, name);
        BodyBelow(file, rank', name);
        ExpandAnyRank(file, rank, rank', d.body, rank(name), rank'(name));
      }
    case Star(x) => ExpandAnyRank(file, rank, rank', x, b, b');
    case Array(_, elem) => ExpandAnyRank(file, rank, rank', elem, b, b');
    case MapOf(key, value) =>
      ExpandAnyRank(file, rank, rank', key, b, b');
      ExpandAnyRank(file, rank, rank', value, b, b');
    case Chan(elem) => ExpandAnyRank(file, rank, rank', elem, b, b');
    case Paren(x) => ExpandAnyRank(file, rank, rank', x, b, b');
    case Ellipsis(elem) => ExpandAnyRank(file, rank, rank', elem, b, b');
    case _ =>
  }

  lemma BodyBelow(file: File, rank: Rank, name: string)
    requires Acyclic(file, rank) && Lookup(file, name).Some?
    ensures Below(file, rank, Lookup(file, name).value.body, rank(name))
  {
  }

  // ---- With a table ----

  type Table = map<string, string>

  /** The text when a table is asked first, whoever filled it. */
  ghost function Answer(file: File, rank: Rank, table: Table, t: TypeExpr, b: nat): string
    requires Acyclic(file, rank) && Below(file, rank, t, b)
    decreases b, t
  {
    match t
    case Ident(name) =>
      if name in table then table[name]
      else if Lookup(file, name).None? then name
          else Answer(file, rank, table, Lookup(file, name).value.body, rank(name))
    case Star(x) => "*" + Answer(file, rank, table, x, b)
    case Array(None, elem) => "[]" + Answer(file, rank, table, elem, b)
    case Array(Some(n), elem) => "[" + n + "]" + Answer(file, rank, table, elem, b)
    case MapOf(key, value) => "map[" + Answer(file, rank, table, key, b) + "]" + Answer(file, rank, table, value, b)
    case Chan(elem) => "chan " + Answer(file, rank, table, elem, b)
    case Paren(x) => Answer(file, rank, table, x, b)
    case Ellipsis(elem) => "..." + Answer(file, rank, table, elem, b)
    case _ => Expand(file, rank, t, b)
  }

  ghost function AnswerName(file: File, rank: Rank, table: Table, name: string): string
    requires Acyclic(file, rank)
  {
    Answer(file, rank, table, Ident(name), rank(name) + 1)
  }

  /** Every entry is the plain expansion of its name in this file. */
  ghost predicate Right(file: File, rank: Rank, table: Table)
    requires Acyclic(file, rank)
  {
    forall name :: name in table ==> table[name] == ExpandName(file, rank, name)
  }

  lemma {:induction false} RightAnswers(file: File, rank: Rank, table: Table, t: TypeExpr, b: nat)
    requires Acyclic(file, rank) && Below(file, rank, t, b) && Right(file, rank, table)
    ensures Answer(file, rank, table, t, b) == Expand(file, rank, t, b)
    decreases b, t
  {
    hide Acyclic;
    match t
    case Ident(name) =>
      ExpandAnyBound(file, rank, t, b, rank(name) + 1);
      if name !in table && Lookup(file, name).Some? {
        BodyBelow(file, rank, name);
        RightAnswers(file, rank, table, Lookup(file, name).value.body, rank(name));
      }
    case Star(x) => RightAnswers(file, rank, table, x, b);
    case Array(_, elem) => RightAnswers(file, rank, table, elem, b);
    case MapOf(key, value) =>
      RightAnswers(file, rank, table, key, b);
      RightAnswers(file, rank, table, value, b);
    case Chan(elem) => RightAnswers(file, rank, table, elem, b);
    case Paren(x) => RightAnswers(file, rank, table, x, b);
    case Ellipsis(elem) => RightAnswers(file, rank, table, elem, b);
    case _ =>
  }

  ghost predicate AnswersPlainly(file: File, rank: Rank, table: Table)
    requires Acyclic(file, rank)
  {
    forall t, b: nat | Below(file, rank, t, b) :: Answer(file, rank, table, t, b) == Expand(file, rank, t, b)
  }

  /**
   A table answers every type expression of a file by its plain expansion if and only if its entries are right for that
   file.
   */
  lemma AnswersPlainlyIffRight(file: File, rank: Rank, table: Table)
    requires Acyclic(file, rank)
    ensures AnswersPlainly(file, rank, table) <==> Right(file, rank, table)
  {
    if Right(file, rank, table) {
      forall t, b: nat | Below(file, rank, t, b) ensures Answer(file, rank, table, t, b) == Expand(file, rank, t, b) {
        RightAnswers(file, rank, table, t, b);
      }
    }
    if AnswersPlainly(file, rank, table) {
      forall name | name in table ensures table[name] == ExpandName(file, rank, name) {
        assert Below(file, rank, Ident(name), rank(name) + 1);
        assert Answer(file, rank, table, Ident(name), rank(name) + 1) == ExpandName(file, rank, name);
      }
    }
  }

  /** An entry that the table itself would have answered changes no answer. */
  lemma {:induction false} AnswerWithOwnEntries(file: File, rank: Rank, base: Table, table: Table, t: TypeExpr, b: nat)
    requires Acyclic(file, rank) && Below(file, rank, t, b) && Extends(file, rank, base, table)
    ensures Answer(file, rank, table, t, b) == Answer(file, rank, base, t, b)
    decreases b, t
  {
    hide Acyclic;
    match t
    case Ident(name) =>
      if name in table {
        AnswerAnyBound(file, rank, base, t, b, rank(name) + 1);
      } else if Lookup(file, name).Some? {
        BodyBelow(file, rank, name);
        AnswerWithOwnEntries(file, rank, base, table, Lookup(file, name).value.body, rank(name));
      }
    case Star(x) => AnswerWithOwnEntries(file, rank, base, table, x, b);
    case Array(_, elem) => AnswerWithOwnEntries(file, rank, base, table, elem, b);
    case MapOf(key, value) =>
      AnswerWithOwnEntries(file, rank, base, table, key, b);
      AnswerWithOwnEntries(file, rank, base, table, value, b);
    case Chan(elem) => AnswerWithOwnEntries(file, rank, base, table, elem, b);
    case Paren(x) => AnswerWithOwnEntries(file, rank, base, table, x, b);
    case Ellipsis(elem) => AnswerWithOwnEntries(file, rank, base, table, elem, b);
    case _ =>
  }

  lemma AnswerAnyBound(file: File, rank: Rank, table: Table, t: TypeExpr, b: nat, b': nat)
    requires t.Ident? && Acyclic(file, rank) && Below(file, rank, t, b) && Below(file, rank, t, b')
    ensures Answer(file, rank, table, t, b) == Answer(file, rank, table, t, b')
  {
  }

  /** `table` is `base` with entries for declared names that `base` itself would have answered. */
  ghost predicate Extends(file: File, rank: Rank, base: Table, table: Table)
    requires Acyclic(file, rank)
  {
    && (forall name :: name in base ==> name in table)
    && forall name :: name in table ==>
         (name in base || Lookup(file, name).Some?) && table[name] == AnswerName(file, rank, base, name)
  }

  /** The table of a file: its declared names, each with its plain expansion. */
  ghost predicate TableOf(file: File, rank: Rank, table: Table)
    requires Acyclic(file, rank)
  {
    (forall name :: name in table <==> Lookup(file, name).Some?) && Right(file, rank, table)
  }

  lemma PlainTable(file: File, rank: Rank, table: Table)
    requires Acyclic(file, rank) && Extends(file, rank, map[], table)
    ensures Right(file, rank, table)
  {
    forall name | name in table ensures table[name] == ExpandName(file, rank, name) {
      RightAnswers(file, rank, map[], Ident(name), rank(name) + 1);
    }
  }

  // ---- The table of a package ----

  class TypeDeclCache {
    var resolved: Table
    var built: bool

    constructor ()
      ensures resolved == map[] && !built
    {
      resolved, built := map[], false;
    }

    /** Answers as the table `base` would, whatever was added to it since; entries are added, never changed. */
    method TypeToString(file: File, t: TypeExpr, ghost rank: Rank, ghost base: Table, ghost b: nat) returns (s: string)
      requires Acyclic(file, rank) && Below(file, rank, t, b) && Extends(file, rank, base, resolved)
      modifies this`resolved
      ensures Extends(file, rank, base, resolved) && s == Answer(file, rank, base, t, b)
      ensures forall name :: name in old(resolved) ==> name in resolved && resolved[name] == old(resolved)[name]
      decreases b, t, 1
    {
      hide Acyclic;
      match t {
        case Ident(name) =>
          if name in resolved {
            AnswerWithOwnEntries(file, rank, base, resolved, t, b);
            return resolved[name];
          }
          s := ResolveTypeName(file, name, rank, base, b);
        case Star(x) =>
          var e := TypeToString(file, x, rank, base, b);
          s := "*" + e;
        case Array(length, elem) =>
          var e := TypeToString(file, elem, rank, base, b);
          s := if length.None? then "[]" + e else "[" + length.value + "]" + e;
        case MapOf(key, value) =>
          var k := TypeToString(file, key, rank, base, b);
          var v := TypeToString(file, value, rank, base, b);
          s := "map[" + k + "]" + v;
        case Chan(elem) =>
          var e := TypeToString(file, elem, rank, base, b);
          s := "chan " + e;
        case Interface => s := "interface{}";
        case Func => s := "func";
        case Selector(package, name) => s := if package.Some? then package.value + "." + name else name;
        case Paren(x) => s := TypeToString(file, x, rank, base, b);
        case Ellipsis(elem) =>
          var e := TypeToString(file, elem, rank, base, b);
          s := "..." + e;
        case Other => s := "";
      }
    }

    method ResolveTypeName(file: File, name: string, ghost rank: Rank, ghost base: Table, ghost b: nat)
      returns (s: string)
      requires Acyclic(file, rank) && Below(file, rank, Ident(name), b) && Extends(file, rank, base, resolved)
      modifies this`resolved
      ensures Extends(file, rank, base, resolved) && s == Answer(file, rank, base, Ident(name), b)
      ensures forall n :: n in old(resolved) ==> n in resolved && resolved[n] == old(resolved)[n]
      decreases b, Ident(name), 0
    {
      hide Acyclic;
      if name in resolved {
        AnswerWithOwnEntries(file, rank, base, resolved, Ident(name), b);
        return resolved[name];
      }
      var d := Lookup(file, name);
      if d.None? { return name; }
      BodyBelow(file, rank, name);
      s := TypeToString(file, d.value.body, rank, base, rank(name));
      AnswerAnyBound(file, rank, base, Ident(name), b, rank(name) + 1);
      resolved := resolved[name := s];
    }

    /** Fills the table from the first file it is given, and never again. */
    method BuildOnce(file: File, ghost rank: Rank)
      requires Acyclic(file, rank)
      modifies this
      ensures built
      ensures old(built) ==> resolved == old(resolved)
      ensures !old(built) ==> TableOf(file, rank, resolved)
    {
      if built { return; }
      resolved, built := map[], true;
      for i := 0 to |file|
        invariant built && Extends(file, rank, map[], resolved)
        invariant forall j :: 0 <= j < i ==> file[j].name in resolved
      {
        var d := file[i];
        if d.name in resolved { continue; }
        FirstOf(file, i);
        BodyBelow(file, rank, d.name);
        var s := TypeToString(file, d.body, rank, map[], rank(d.name));
        resolved := resolved[d.name := s];
      }
      PlainTable(file, rank, resolved);
    }

    /**
     The files of a package share one table: a type expression of the second is answered with the table of the first.
     */
    method AnswerInSecond(first: File, second: File, t: TypeExpr, ghost rank1: Rank, ghost rank2: Rank, ghost b: nat)
      returns (s: string, ghost table: Table)
      requires Acyclic(first, rank1) && Acyclic(second, rank2) && Below(second, rank2, t, b) && !built
      modifies this
      ensures TableOf(first, rank1, table) && s == Answer(second, rank2, table, t, b)
    {
      BuildOnce(first, rank1);
      BuildOnce(second, rank2);
      table := resolved;
      OwnTable(second, rank2, table);
      s := TypeToString(second, t, rank2, table, b);
    }
  }

  lemma OwnTable(file: File, rank: Rank, table: Table)
    requires Acyclic(file, rank)
    ensures Extends(file, rank, table, table)
  {
  }

  lemma {:induction false} FirstOf(file: File, i: nat)
    requires i < |file| && forall j :: 0 <= j < i ==> file[j].name != file[i].name
    ensures Lookup(file, file[i].name) == Some(file[i])
    decreases |file|
  {
    if i > 0 { FirstOf(file[1..], i - 1); }
  }

  // ---- Without a rank there is no end ----

  /** How deep the writer's calls nest, if at most `fuel` declared names may be open at a time. */
  function Depth(file: File, t: TypeExpr, fuel: nat): Option<nat>
    decreases fuel, t
  {
    match t
    case Ident(name) =>
      if Lookup(file, name).None? then Some(0)
      else if fuel == 0 then None
      else
        var inner := Depth(file, Lookup(file, name).value.body, fuel - 1);
        if inner.None? then None else Some(inner.value + 1)
    case Star(x) => Depth(file, x, fuel)
    case Array(_, elem) => Depth(file, elem, fuel)
    case MapOf(key, value) =>
      var k, v := Depth(file, key, fuel), Depth(file, value, fuel);
      if k.None? || v.None? then None else Some(if k.value > v.value then k.value else v.value)
    case Chan(elem) => Depth(file, elem, fuel)
    case Paren(x) => Depth(file, x, fuel)
    case Ellipsis(elem) => Depth(file, elem, fuel)
    case _ => Some(0)
  }

  /** The writer comes back from every declared name of the file. */
  ghost predicate Terminates(file: File, fuel: nat) {
    forall d :: d in file ==> Depth(file, Ident(d.name), fuel).Some?
  }

  /** Ranks bound the depth. */
  lemma {:induction false} RankedEnds(file: File, rank: Rank, t: TypeExpr, b: nat)
    requires Acyclic(file, rank) && Below(file, rank, t, b)
    ensures Depth(file, t, b).Some?
    decreases b, t
  {
    match t
    case Ident(name) =>
      if Lookup(file, name).Some? {
        RankedEnds(file, rank, Lookup(file, name).value.body, rank(name));
        DepthGrows(file, Lookup(file, name).value.body, rank(name), b - 1);
      }
    case Star(x) => RankedEnds(file, rank, x, b);
    case Array(_, elem) => RankedEnds(file, rank, elem, b);
    case MapOf(key, value) =>
      RankedEnds(file, rank, key, b);
      RankedEnds(file, rank, value, b);
    case Chan(elem) => RankedEnds(file, rank, elem, b);
    case Paren(x) => RankedEnds(file, rank, x, b);
    case Ellipsis(elem) => RankedEnds(file, rank, elem, b);
    case _ =>
  }

  /** More fuel does not change a depth that has been found. */
  lemma {:induction false} DepthGrows(file: File, t: TypeExpr, fuel: nat, more: nat)
    requires fuel <= more && Depth(file, t, fuel).Some?
    ensures Depth(file, t, more) == Depth(file, t, fuel)
    decreases fuel, t
  {
    match t
    case Ident(name) =>
      if Lookup(file, name).Some? { DepthGrows(file, Lookup(file, name).value.body, fuel - 1, more - 1); }
    case Star(x) => DepthGrows(file, x, fuel, more);
    case Array(_, elem) => DepthGrows(file, elem, fuel, more);
    case MapOf(key, value) =>
      DepthGrows(file, key, fuel, more);
      DepthGrows(file, value, fuel, more);
    case Chan(elem) => DepthGrows(file, elem, fuel, more);
    case Paren(x) => DepthGrows(file, x, fuel, more);
    case Ellipsis(elem) => DepthGrows(file, elem, fuel, more);
    case _ =>
  }

  function DepthRank(file: File, fuel: nat): Rank {
    (name: string) => match Depth(file, Ident(name), fuel) case None => 0 case Some(n) => n
  }

  /** Depths are ranks. */
  lemma {:induction false} DepthIsRank(file: File, t: TypeExpr, fuel: nat, all: nat, b: nat)
    requires fuel <= all && Depth(file, t, fuel).Some? && Depth(file, t, fuel).value < b
    ensures Below(file, DepthRank(file, all), t, b)
    decreases t
  {
    match t
    case Ident(name) => DepthGrows(file, t, fuel, all);
    case Star(x) => DepthIsRank(file, x, fuel, all, b);
    case Array(_, elem) => DepthIsRank(file, elem, fuel, all, b);
    case MapOf(key, value) =>
      DepthIsRank(file, key, fuel, all, b);
      DepthIsRank(file, value, fuel, all, b);
    case Chan(elem) => DepthIsRank(file, elem, fuel, all, b);
    case Paren(x) => DepthIsRank(file, x, fuel, all, b);
    case Ellipsis(elem) => DepthIsRank(file, elem, fuel, all, b);
    case _ =>
  }

  /** The writer comes back from every declared name exactly when the declarations have ranks. */
  lemma TerminatesIffAcyclic(file: File)
    ensures (exists fuel: nat :: Terminates(file, fuel)) <==> (exists rank :: Acyclic(file, rank))
  {
    if fuel: nat :| Terminates(file, fuel) {
      forall d | d in file && Lookup(file, d.name) == Some(d)
        ensures Below(file, DepthRank(file, fuel), d.body, DepthRank(file, fuel)(d.name))
      {
        assert Depth(file, Ident(d.name), fuel).Some?;
        DepthIsRank(file, d.body, fuel - 1, fuel, Depth(file, Ident(d.name), fuel).value);
      }
      assert Acyclic(file, DepthRank(file, fuel));
    }
    if rank :| Acyclic(file, rank) {
      var bound := RankBound(file, rank, |file|);
      forall d | d in file ensures Depth(file, Ident(d.name), bound).Some? {
        RankedEnds(file, rank, Ident(d.name), bound);
      }
      assert Terminates(file, bound);
    }
  }

  lemma {:induction false} RankBound(file: File, rank: Rank, n: nat) returns (b: nat)
    requires n <= |file|
    ensures forall i :: 0 <= i < n ==> rank(file[i].name) < b
  {
    if n == 0 { b := 0; } else {
      b := RankBound(file, rank, n - 1);
      if b <= rank(file[n - 1].name) { b := rank(file[n - 1].name) + 1; }
    }
  }

  /** `type T []T` never ends. */
  lemma SliceOfItself(name: string)
    ensures var file := [Decl(name, Array(None, Ident(name)))];
            (forall fuel: nat :: !Terminates(file, fuel)) && forall rank :: !Acyclic(file, rank)
  {
    var file := [Decl(name, Array(None, Ident(name)))];
    forall rank ensures !Acyclic(file, rank) {
      assert Lookup(file, name) == Some(file[0]);
      assert !Below(file, rank, Ident(name), rank(name));
      assert !Below(file, rank, file[0].body, rank(name));
    }
    TerminatesIffAcyclic(file);
  }

  function OnlyA(): Rank { (n: string) => if n == "A" then 1 else 0 }

  /**
   The table of one file answers every type expression of another by its plain expansion if and only if the two
   files agree on the expansion of every name that the first declares.
   */
  lemma TableOfAnotherFile(first: File, second: File, rank1: Rank, rank2: Rank, table: Table)
    requires Acyclic(first, rank1) && Acyclic(second, rank2) && TableOf(first, rank1, table)
    ensures AnswersPlainly(second, rank2, table)
       <==> forall name :: Lookup(first, name).Some?
              ==> ExpandName(first, rank1, name) == ExpandName(second, rank2, name)
  {
    hide Acyclic;
    AnswersPlainlyIffRight(second, rank2, table);
  }

  /** `type A *B` in one file and `type B func()` in another. */
  lemma TypesOfTwoFiles(table: Table)
    ensures var first, second := [Decl("A", Star(Ident("B")))], [Decl("B", Func)];
            && Acyclic(first, OnlyA()) && Acyclic(second, OnlyA())
            && (TableOf(first, OnlyA(), table) ==> !AnswersPlainly(second, OnlyA(), table))
  {
    var first, second, r := [Decl("A", Star(Ident("B")))], [Decl("B", Func)], OnlyA();
    assert Lookup(first, "A") == Some(first[0]) && Lookup(first, "B") == None;
    assert Lookup(second, "A") == None;
    assert Below(first, r, Ident("B"), 1) && Below(first, r, first[0].body, 1) && Below(second, r, second[0].body, 0);
    assert Expand(first, r, Ident("B"), 1) == "B";
    assert Expand(first, r, first[0].body, 1) == "*" + "B";
    assert ExpandName(first, r, "A") == "*B" && ExpandName(second, r, "A") == "A";
    if TableOf(first, r, table) { TableOfAnotherFile(first, second, r, r, table); }
  }
}
