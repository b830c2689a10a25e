/**
 Suppressions: the index the engine answers from, the directives and config entries it is filled
 with, and the entries that synchronisation writes back to the config file.
 */
module Suppressions {
  import opened Wrappers
  import opened Text

  datatype Place = Place(file: string, line: GoInt)

  /** The columns suppressed for each operator; the empty name stands for all operators, column 0 for all columns. */
  type Cell = map<string, set<GoInt>>

  type Directives = map<Place, Cell>

  datatype Entry = Entry(location: string, operators: seq<string>)

  /** The path functions of the project: relative to the root for writing, absolute again when read. */
  datatype Paths = Paths(relative: string -> string, absolute: string -> string)

  // ---- Asking ----

  predicate IsIgnored(d: Directives, p: Place, operator: string, column: GoInt) {
    p in d
    && (("" in d[p] && 0 in d[p][""]) || (operator in d[p] && (0 in d[p][operator] || column in d[p][operator])))
  }

  predicate IgnoresAll(d: Directives, p: Place) { p in d && "" in d[p] && 0 in d[p][""] }

  // ---- Loading entries ----

  /** The place a location text means; a text without a line number means none. */
  function Resolve(paths: Paths, location: string): Option<Place> {
    var t := TrimSpace(location);
    match LastIndex(t, ':')
    case None => None
    case Some(i) =>
      match Atoi(t[i + 1..])
      case None => None
      case Some(line) => Some(Place(paths.absolute(t[..i]), line))
  }

  /** Operator and column of one item of an entry, spaces already removed; a column that is no number counts as 0. */
  function ParseItem(item: string): (string, GoInt) {
    match Index(item, ':')
    case None => (item, 0)
    case Some(i) => (item[..i], if Atoi(item[i + 1..]).Some? then Atoi(item[i + 1..]).value else 0)
  }

  function Mark(cell: Cell, operator: string, column: GoInt): Cell {
    cell[operator := (if operator in cell then cell[operator] else {}) + {column}]
  }

  function MarkItem(cell: Cell, item: string): Cell {
    var t := TrimSpace(item);
    if t == "" then cell else Mark(cell, ParseItem(t).0, ParseItem(t).1)
  }

  function MarkItems(cell: Cell, items: seq<string>): Cell {
    if items == [] then cell else MarkItem(MarkItems(cell, items[..|items| - 1]), items[|items| - 1])
  }

  function LoadEntry(paths: Paths, d: Directives, e: Entry): Directives {
    match Resolve(paths, e.location)
    case None => d
    case Some(p) =>
      var cell := if p in d then d[p] else map[];
      d[p := if e.operators == [] then Mark(cell, "", 0) else MarkItems(cell, e.operators)]
  }

  function LoadAll(paths: Paths, d: Directives, es: seq<Entry>): Directives {
    if es == [] then d else LoadEntry(paths, LoadAll(paths, d, es[..|es| - 1]), es[|es| - 1])
  }

  method LoadItems(before: Cell, items: seq<string>) returns (cell: Cell)
    ensures cell == MarkItems(before, items)
  {
    cell := before;
    for i := 0 to |items|
      invariant cell == MarkItems(before, items[..i])
    {
      assert items[..i + 1][..i] == items[..i];
      var t := TrimSpace(items[i]);
      if t == "" { continue; }
      var (operator, column) := ParseItem(t);
      cell := Mark(cell, operator, column);
    }
    assert items[..|items|] == items;
  }

  class Engine {
    const paths: Paths
    var directives: Directives

    constructor (paths: Paths)
      ensures this.paths == paths && directives == map[]
    {
      this.paths := paths;
      directives := map[];
    }

    method SetEntry(e: Entry)
      modifies this
      ensures directives == LoadEntry(paths, old(directives), e)
    {
      var place := Resolve(paths, e.location);
      if place.None? { return; }
      var p := place.value;
      if p !in directives { directives := directives[p := map[]]; }
      if e.operators == [] {
        directives := directives[p := Mark(directives[p], "", 0)];
        return;
      }
      var cell := LoadItems(directives[p], e.operators);
      directives := directives[p := cell];
    }

    method SetSuppressEntries(entries: seq<Entry>)
      modifies this
      ensures directives == LoadAll(paths, old(directives), entries)
    {
      ghost var before := directives;
      for n := 0 to |entries|
        invariant directives == LoadAll(paths, before, entries[..n])
      {
        assert entries[..n + 1][..n] == entries[..n];
        var e := entries[n];
        SetEntry(e);
      }
      assert entries[..|entries|] == entries;
    }
  }

  // ---- What loaded entries ignore ----

  /** What one item of an entry suppresses. */
  predicate ItemIgnores(item: string, operator: string, column: GoInt) {
    var t := TrimSpace(item);
    var (o, c) := ParseItem(t);
    t != "" && ((o == "" && c == 0) || (o == operator && (c == 0 || c == column)))
  }

  predicate ItemsIgnore(items: seq<string>, operator: string, column: GoInt) {
    exists i :: 0 <= i < |items| && ItemIgnores(items[i], operator, column)
  }

  predicate EntryIgnores(paths: Paths, e: Entry, p: Place, operator: string, column: GoInt) {
    Resolve(paths, e.location) == Some(p) && (e.operators == [] || ItemsIgnore(e.operators, operator, column))
  }

  predicate CellIgnores(cell: Cell, operator: string, column: GoInt) {
    ("" in cell && 0 in cell[""]) || (operator in cell && (0 in cell[operator] || column in cell[operator]))
  }

  lemma {:induction false} MarkedItemsIgnore(cell: Cell, items: seq<string>, operator: string, column: GoInt)
    requires operator != ""
    ensures CellIgnores(MarkItems(cell, items), operator, column)
            <==> CellIgnores(cell, operator, column) || ItemsIgnore(items, operator, column)
    decreases |items|
  {
    hide TrimSpace, ParseItem;
    if items != [] {
      var init, item := items[..|items| - 1], items[|items| - 1];
      MarkedItemsIgnore(cell, init, operator, column);
      assert items == init + [item];
      assert ItemsIgnore(items, operator, column)
          <==> ItemsIgnore(init, operator, column) || ItemIgnores(item, operator, column) by {
        hide ItemIgnores;
        if i :| 0 <= i < |init| && ItemIgnores(init[i], operator, column) {
          assert ItemIgnores(items[i], operator, column);
        }
        if i :| 0 <= i < |items| && ItemIgnores(items[i], operator, column) {
          assert i < |init| ==> ItemIgnores(init[i], operator, column);
        }
        if ItemIgnores(item, operator, column) { assert ItemIgnores(items[|init|], operator, column); }
      }
    }
  }

  predicate EntriesIgnore(paths: Paths, es: seq<Entry>, p: Place, operator: string, column: GoInt) {
    exists i :: 0 <= i < |es| && EntryIgnores(paths, es[i], p, operator, column)
  }

  lemma EntriesIgnoreLast(paths: Paths, es: seq<Entry>, p: Place, operator: string, column: GoInt)
    requires es != []
    ensures EntriesIgnore(paths, es, p, operator, column)
       <==> EntriesIgnore(paths, es[..|es| - 1], p, operator, column)
            || EntryIgnores(paths, es[|es| - 1], p, operator, column)
  {
    hide EntryIgnores;
    var init := es[..|es| - 1];
    if i :| 0 <= i < |init| && EntryIgnores(paths, init[i], p, operator, column) {
      assert EntryIgnores(paths, es[i], p, operator, column);
    }
    if i :| 0 <= i < |es| && EntryIgnores(paths, es[i], p, operator, column) {
      assert i < |init| ==> EntryIgnores(paths, init[i], p, operator, column);
    }
  }

  lemma EntryLoaded(paths: Paths, d: Directives, e: Entry, p: Place, operator: string, column: GoInt)
    requires operator != ""
    ensures IsIgnored(LoadEntry(paths, d, e), p, operator, column)
       <==> IsIgnored(d, p, operator, column) || EntryIgnores(paths, e, p, operator, column)
  {
    hide Resolve, TrimSpace, ParseItem, ItemsIgnore;
    var place := Resolve(paths, e.location);
    if place == Some(p) {
      var cell := if p in d then d[p] else map[];
      MarkedItemsIgnore(cell, e.operators, operator, column);
      hide MarkItems;
      assert CellIgnores(cell, operator, column) <==> IsIgnored(d, p, operator, column);
    }
  }

  /** Loading adds exactly what the entries say to what was ignored before. */
  lemma {:induction false} LoadedIgnore(paths: Paths, d: Directives, es: seq<Entry>, p: Place, operator: string,
                                        column: GoInt)
    requires operator != ""
    ensures IsIgnored(LoadAll(paths, d, es), p, operator, column)
       <==> IsIgnored(d, p, operator, column) || EntriesIgnore(paths, es, p, operator, column)
    decreases |es|
  {
    hide IsIgnored, EntryIgnores, LoadEntry, EntriesIgnore;
    if es == [] {
      assert !EntriesIgnore(paths, [], p, operator, column) by { NothingIgnored(paths, p, operator, column); }
    } else {
      LoadedIgnore(paths, d, es[..|es| - 1], p, operator, column);
      EntriesIgnoreLast(paths, es, p, operator, column);
      EntryLoaded(paths, LoadAll(paths, d, es[..|es| - 1]), es[|es| - 1], p, operator, column);
    }
  }

  lemma NothingIgnored(paths: Paths, p: Place, operator: string, column: GoInt)
    ensures !EntriesIgnore(paths, [], p, operator, column)
  {
  }

  /**
   What an item of an entry says: an operator, or, after a colon, a column of it; no number there means every column.
   */
  lemma ItemMeaning(name: string, column: string, operator: string, c: GoInt)
    requires ':' !in name && Trimmed(name) && Trimmed(name + ":" + column)
    ensures operator != "" ==> (ItemIgnores(name, operator, c) <==> operator == name)
    ensures ItemIgnores(name + ":" + column, operator, c)
       <==> match Atoi(column)
            case None => name == "" || name == operator
            case Some(n) => (name == "" && n == 0) || (name == operator && (n == 0 || n == c))
  {
    var item := name + ":" + column;
    TrimSpaceTrimmed(name);
    TrimSpaceTrimmed(item);
    IndexSplit(name, ':', column);
    assert item == name + [':'] + column;
    assert item[..|name|] == name && item[|name| + 1..] == column;
    hide Atoi, TrimSpace;
  }
}
