/** Writing the engine's directives back into the config file. */
module SuppressionSync {
  import opened Wrappers
  import opened Text
  import opened Suppressions

  /** The items written at each location. */
  type Written = map<string, set<string>>

  function ItemsAt(w: Written, location: string): set<string> { if location in w then w[location] else {} }

  ghost predicate ListedAt(es: seq<Entry>, loc: string) { exists i :: 0 <= i < |es| && es[i].location == loc }

  ghost predicate Lists(es: seq<Entry>, loc: string, item: string) {
    exists i :: 0 <= i < |es| && es[i].location == loc && item in es[i].operators
  }

  lemma ListsMore(es: seq<Entry>, e: Entry)
    ensures forall loc :: ListedAt(es + [e], loc) <==> ListedAt(es, loc) || e.location == loc
    ensures forall loc, item :: Lists(es + [e], loc, item)
              <==> Lists(es, loc, item) || (e.location == loc && item in e.operators)
  {
    var more := es + [e];
    assert more[|es|] == e && forall i :: 0 <= i < |es| ==> more[i] == es[i];
    forall loc | ListedAt(es, loc) ensures ListedAt(more, loc) {
      var i :| 0 <= i < |es| && es[i].location == loc;
      assert more[i].location == loc;
    }
    forall loc, item | Lists(es, loc, item) ensures Lists(more, loc, item) {
      var i :| 0 <= i < |es| && es[i].location == loc && item in es[i].operators;
      assert more[i].location == loc && item in more[i].operators;
    }
  }

  /** The items of the config entries, location texts as they stand in the file. */
  ghost predicate MapOf(entries: seq<Entry>, w: Written) {
    (forall loc :: loc in w <==> ListedAt(entries, loc))
        && (forall loc, item :: item in ItemsAt(w, loc) <==> Lists(entries, loc, item))
  }

  function AddEntry(w: Written, e: Entry): Written { w[e.location := ItemsAt(w, e.location) + Items(e)] }

  lemma MapMore(entries: seq<Entry>, e: Entry, w: Written)
    requires MapOf(entries, w)
    ensures MapOf(entries + [e], AddEntry(w, e))
  {
    ListsMore(entries, e);
    hide ListedAt, Lists;
  }

  method BuildSuppressMap(entries: seq<Entry>) returns (w: Written)
    ensures MapOf(entries, w)
  {
    w := map[];
    assert MapOf([], w);
    hide MapOf;
    for n := 0 to |entries|
      invariant MapOf(entries[..n], w)
    {
      MapMore(entries[..n], entries[n], w);
      assert entries[..n + 1] == entries[..n] + [entries[n]];
      w := AddEntry(w, entries[n]);
    }
    assert entries[..|entries|] == entries;
  }

  function Location(paths: Paths, p: Place): string { paths.relative(p.file) + ":" + Itoa(p.line) }

  function Item(operator: string, column: GoInt): string {
    if column == 0 then operator else operator + ":" + Itoa(column)
  }

  /** What is written for one cell: the empty item for all operators, whatever its columns. */
  function CellItems(cell: Cell): set<string> {
    (if "" in cell then {""} else {}) + set o, c | o in cell && o != "" && c in cell[o] :: Item(o, c)
  }

  ghost predicate FromDirectives(paths: Paths, d: Directives, places: set<Place>, loc: string, item: string) {
    exists p :: p in places && p in d && Location(paths, p) == loc && item in CellItems(d[p])
  }

  ghost predicate Located(paths: Paths, places: set<Place>, loc: string) {
    exists p :: p in places && Location(paths, p) == loc
  }

  /** `w` with the directives of the given places added. */
  ghost predicate MergedInto(paths: Paths, before: Written, d: Directives, places: set<Place>, w: Written) {
    && (forall loc :: loc in w <==> loc in before || Located(paths, places, loc))
    && (forall loc, item :: item in ItemsAt(w, loc)
          <==> item in ItemsAt(before, loc) || FromDirectives(paths, d, places, loc, item))
  }

  lemma MergeOne(paths: Paths, before: Written, d: Directives, places: set<Place>, w: Written, p: Place)
    requires MergedInto(paths, before, d, places, w) && p in d
    ensures var loc := Location(paths, p);
            MergedInto(paths, before, d, places + {p}, w[loc := ItemsAt(w, loc) + CellItems(d[p])])
  {
    hide Location, CellItems;
    var at := Location(paths, p);
    forall loc ensures Located(paths, places + {p}, loc) <==> Located(paths, places, loc) || loc == at {
      if loc == at { assert p in places + {p}; }
      if q :| q in places && Location(paths, q) == loc { assert q in places + {p}; }
    }
    forall loc, item ensures FromDirectives(paths, d, places + {p}, loc, item)
        <==> FromDirectives(paths, d, places, loc, item) || (loc == at && item in CellItems(d[p])) {
      if loc == at && item in CellItems(d[p]) { assert p in places + {p}; }
      if q :| q in places && q in d && Location(paths, q) == loc && item in CellItems(d[q]) {
        assert q in places + {p};
      }
    }
  }

  /** The directives are merged in any order. */
  method MergeInlineDirectives(paths: Paths, before: Written, d: Directives) returns (w: Written)
    ensures MergedInto(paths, before, d, d.Keys, w)
  {
    w := before;
    var done: set<Place> := {};
    var pending := d.Keys;
    assert MergedInto(paths, before, d, {}, w);
    hide MergedInto, Location, CellItems;
    while pending != {}
      invariant pending + done == d.Keys
      invariant MergedInto(paths, before, d, done, w)
    {
      var p :| p in pending;
      MergeOne(paths, before, d, done, w, p);
      var loc := Location(paths, p);
      w := w[loc := ItemsAt(w, loc) + CellItems(d[p])];
      done, pending := done + {p}, pending - {p};
    }
  }

  /** The items of an entry: none, which means all operators, as soon as the empty item is among them. */
  function Kept(items: set<string>): set<string> { if "" in items then {} else items }

  function Items(e: Entry): set<string> { set o | o in e.operators }

  ghost predicate EntriesOf(w: Written, es: seq<Entry>) {
    && (forall i :: 0 <= i < |es| ==> es[i].location in w && Items(es[i]) == Kept(w[es[i].location]))
    && (forall loc :: loc in w ==> ListedAt(es, loc))
  }

  method ListItems(items: set<string>) returns (s: seq<string>)
    ensures forall o :: o in s <==> o in items
  {
    s := [];
    var pending := items;
    while pending != {}
      invariant pending <= items && forall o :: o in s <==> o in items && o !in pending
    {
      var o :| o in pending;
      s, pending := s + [o], pending - {o};
    }
  }

  method BuildSuppressEntries(w: Written) returns (es: seq<Entry>)
    ensures EntriesOf(w, es)
  {
    es := [];
    var pending := w.Keys;
    while pending != {}
      invariant pending <= w.Keys
      invariant forall i :: 0 <= i < |es| ==> es[i].location in w && Items(es[i]) == Kept(w[es[i].location])
      invariant forall loc :: loc in w && loc !in pending ==> ListedAt(es, loc)
    {
      var loc :| loc in pending;
      var operators := ListItems(w[loc] - {""});
      var e := Entry(loc, if "" in w[loc] then [] else operators);
      ListsMore(es, e);
      es, pending := es + [e], pending - {loc};
    }
  }

  /** The written map: config items and directives together. */
  ghost predicate WrittenFor(paths: Paths, config: seq<Entry>, d: Directives, w: Written) {
    && (forall loc :: loc in w <==> ListedAt(config, loc) || Located(paths, d.Keys, loc))
    && (forall loc, item :: item in ItemsAt(w, loc)
          <==> Lists(config, loc, item) || FromDirectives(paths, d, d.Keys, loc, item))
  }

  ghost predicate Synced(paths: Paths, config: seq<Entry>, d: Directives, es: seq<Entry>) {
    exists w: Written :: WrittenFor(paths, config, d, w) && EntriesOf(w, es)
  }

  /** What the config file says after a synchronisation. */
  method SyncSuppressions(paths: Paths, config: seq<Entry>, d: Directives) returns (es: seq<Entry>)
    ensures Synced(paths, config, d, es)
  {
    var existing := BuildSuppressMap(config);
    var w := MergeInlineDirectives(paths, existing, d);
    es := BuildSuppressEntries(w);
    assert EntriesOf(w, es);
    hide EntriesOf;
    assert WrittenFor(paths, config, d, w);
  }

  // ---- Reading the entries again ----

  /** Written paths lead back to the file; operator names have no colon and no outer spaces. */
  ghost predicate WellNamed(paths: Paths, d: Directives) {
    && (forall p :: p in d ==> paths.absolute(paths.relative(p.file)) == p.file && Trimmed(Location(paths, p)))
    && (forall p, o :: p in d && o in d[p] && o != "" ==> ':' !in o && Trimmed(o))
  }

  /** The config entries were loaded into the engine first. */
  ghost predicate Loaded(paths: Paths, config: seq<Entry>, d: Directives) {
    forall i :: 0 <= i < |config| ==> EntryIn(paths, config[i], d)
  }

  ghost predicate EntryIn(paths: Paths, e: Entry, d: Directives) {
    Resolve(paths, e.location).Some? ==>
      var p := Resolve(paths, e.location).value;
      && p in d
      && (e.operators == [] ==> IgnoresAll(d, p))
      && (forall o, c :: o != "" && ItemsIgnore(e.operators, o, c) ==> IsIgnored(d, p, o, c))
  }

  lemma LocationReadBack(paths: Paths, d: Directives, p: Place)
    requires WellNamed(paths, d) && p in d
    ensures Resolve(paths, Location(paths, p)) == Some(p)
  {
    hide Itoa, Atoi, TrimSpace, Trimmed, LastIndex;
    var f, loc := paths.relative(p.file), Location(paths, p);
    TrimSpaceTrimmed(loc);
    LastIndexSplit(f, ':', Itoa(p.line));
    AtoiItoa(p.line);
    assert loc[..|f|] == f && loc[|f| + 1..] == Itoa(p.line);
  }

  lemma NumberedReadBack(o: string, c: GoInt, item: string)
    requires ':' !in o && item == o + ":" + Itoa(c)
    ensures ParseItem(item) == (o, c)
  {
    hide Itoa, Atoi, Index;
    IndexSplit(o, ':', Itoa(c));
    AtoiItoa(c);
    assert item[..|o|] == o && item[|o| + 1..] == Itoa(c);
  }

  lemma NumberedTrimmed(o: string, c: GoInt, item: string)
    requires o != "" && Trimmed(o) && item == o + ":" + Itoa(c)
    ensures Trimmed(item)
  {
    var digits := Itoa(c);
    hide Itoa;
    assert item[0] == o[0] && item[|item| - 1] == digits[|digits| - 1];
    assert digits[|digits| - 1] in digits;
  }

  /** An item means the operator and column it was written for. */
  lemma ItemReadBack(o: string, c: GoInt)
    requires o != "" && ':' !in o && Trimmed(o)
    ensures TrimSpace(Item(o, c)) == Item(o, c) && Item(o, c) != "" && ParseItem(Item(o, c)) == (o, c)
  {
    hide Itoa, Trimmed, TrimSpace;
    TrimSpaceTrimmed(Item(o, c));
    if c != 0 {
      NumberedTrimmed(o, c, Item(o, c));
      NumberedReadBack(o, c, Item(o, c));
    }
  }

  /** What a cell's items suppress, once read again, is what the cell suppresses. */
  lemma CellReadBack(cell: Cell, o: string, c: GoInt)
    requires o != "" && "" !in cell && forall n :: n in cell && n != "" ==> ':' !in n && Trimmed(n)
    ensures CellIgnores(cell, o, c) <==> exists item :: item in CellItems(cell) && ItemIgnores(item, o, c)
  {
    if CellIgnores(cell, o, c) {
      var c' := if 0 in cell[o] then 0 else c;
      ItemReadBack(o, c');
      assert Item(o, c') in CellItems(cell) && ItemIgnores(Item(o, c'), o, c);
    }
    if item :| item in CellItems(cell) && ItemIgnores(item, o, c) {
      var n, k :| n in cell && n != "" && k in cell[n] && item == Item(n, k);
      ItemReadBack(n, k);
    }
  }

  /** Some location that means `p` is written without items, that is, for all operators. */
  ghost predicate WrittenForAll(paths: Paths, w: Written, p: Place) {
    exists loc :: loc in w && Resolve(paths, loc) == Some(p) && Kept(w[loc]) == {}
  }

  ghost predicate WrittenItem(paths: Paths, w: Written, p: Place, o: string, c: GoInt) {
    exists loc, item :: loc in w && Resolve(paths, loc) == Some(p) && item in Kept(w[loc]) && ItemIgnores(item, o, c)
  }

  lemma EntryMeans(paths: Paths, e: Entry, p: Place, o: string, c: GoInt)
    ensures EntryIgnores(paths, e, p, o, c) <==>
              Resolve(paths, e.location) == Some(p)
                  && (Items(e) == {} || exists item :: item in Items(e) && ItemIgnores(item, o, c))
  {
    hide Resolve, ItemIgnores;
    if e.operators != [] { assert e.operators[0] in Items(e); }
    if i :| 0 <= i < |e.operators| && ItemIgnores(e.operators[i], o, c) { assert e.operators[i] in Items(e); }
    if item :| item in Items(e) && ItemIgnores(item, o, c) {
      var i :| 0 <= i < |e.operators| && e.operators[i] == item;
      assert ItemIgnores(e.operators[i], o, c);
    }
  }

  lemma EntriesMean(paths: Paths, w: Written, es: seq<Entry>, p: Place, o: string, c: GoInt)
    requires EntriesOf(w, es)
    ensures EntriesIgnore(paths, es, p, o, c) <==> WrittenForAll(paths, w, p) || WrittenItem(paths, w, p, o, c)
  {
    hide Resolve, ItemIgnores, Kept, Items, EntryIgnores;
    if i :| 0 <= i < |es| && EntryIgnores(paths, es[i], p, o, c) {
      EntryMeans(paths, es[i], p, o, c);
    }
    if loc :| loc in w && Resolve(paths, loc) == Some(p) && Kept(w[loc]) == {} {
      var i :| 0 <= i < |es| && es[i].location == loc;
      EntryMeans(paths, es[i], p, o, c);
    }
    if loc, item :| loc in w && Resolve(paths, loc) == Some(p) && item in Kept(w[loc]) && ItemIgnores(item, o, c) {
      var i :| 0 <= i < |es| && es[i].location == loc;
      EntryMeans(paths, es[i], p, o, c);
    }
  }

  predicate EmptyCell(cell: Cell) { forall n :: n in cell ==> cell[n] == {} }

  /**
   When writing turns an entry into one for all operators: an empty item in the config, a cell with the
   empty operator name, or a cell that has no column at all and no config item at its own location.
   */
  ghost predicate Widens(paths: Paths, config: seq<Entry>, d: Directives, p: Place) {
    || (exists i :: 0 <= i < |config| && Resolve(paths, config[i].location) == Some(p) && "" in config[i].operators)
    || (p in d && "" in d[p])
    || (p in d && EmptyCell(d[p]) && forall item :: !Lists(config, Location(paths, p), item))
  }

  lemma SameLocation(paths: Paths, d: Directives, p: Place, q: Place)
    requires WellNamed(paths, d) && p in d && q in d && Location(paths, p) == Location(paths, q)
    ensures p == q
  {
    LocationReadBack(paths, d, p);
    LocationReadBack(paths, d, q);
  }

  /** At the location of a cell stand the cell's items and the config's. */
  lemma WrittenAt(paths: Paths, config: seq<Entry>, d: Directives, w: Written, p: Place)
    requires WellNamed(paths, d) && WrittenFor(paths, config, d, w) && p in d
    ensures var loc := Location(paths, p);
            loc in w && forall item :: item in w[loc] <==> Lists(config, loc, item) || item in CellItems(d[p])
  {
    hide CellItems, Location, Lists, ListedAt, WellNamed;
    var loc := Location(paths, p);
    assert Located(paths, d.Keys, loc) by { assert p in d.Keys; }
    forall item ensures FromDirectives(paths, d, d.Keys, loc, item) <==> item in CellItems(d[p]) {
      if item in CellItems(d[p]) { assert p in d.Keys; }
      if q :| q in d.Keys && q in d && Location(paths, q) == loc && item in CellItems(d[q]) {
        SameLocation(paths, d, p, q);
      }
    }
    assert forall item :: item in ItemsAt(w, loc) <==> Lists(config, loc, item) || item in CellItems(d[p]);
  }

  lemma BlankIsWritten(paths: Paths, config: seq<Entry>, d: Directives, w: Written, p: Place, i: nat)
    requires WrittenFor(paths, config, d, w)
    requires i < |config| && Resolve(paths, config[i].location) == Some(p) && "" in config[i].operators
    ensures WrittenForAll(paths, w, p)
  {
    hide Resolve, FromDirectives, Located;
    var loc := config[i].location;
    assert Lists(config, loc, "");
    assert "" in ItemsAt(w, loc);
    assert loc in w && Kept(w[loc]) == {};
  }

  lemma WideningIsWritten(paths: Paths, config: seq<Entry>, d: Directives, w: Written, p: Place)
    requires WellNamed(paths, d) && WrittenFor(paths, config, d, w) && Widens(paths, config, d, p)
    ensures WrittenForAll(paths, w, p)
  {
    hide Resolve, WrittenFor, WellNamed, Lists, Location, WrittenForAll;
    if i :| 0 <= i < |config| && Resolve(paths, config[i].location) == Some(p) && "" in config[i].operators {
      BlankIsWritten(paths, config, d, w, p, i);
    } else {
      CellIsWritten(paths, config, d, w, p);
    }
  }

  lemma CellIsWritten(paths: Paths, config: seq<Entry>, d: Directives, w: Written, p: Place)
    requires WellNamed(paths, d) && WrittenFor(paths, config, d, w) && p in d
    requires "" in d[p] || (EmptyCell(d[p]) && forall item :: !Lists(config, Location(paths, p), item))
    ensures WrittenForAll(paths, w, p)
  {
    WrittenAt(paths, config, d, w, p);
    LocationReadBack(paths, d, p);
    hide Resolve, WrittenFor, WellNamed, Lists, Location;
    var loc := Location(paths, p);
    if "" in d[p] {
      assert "" in w[loc];
    } else {
      assert w[loc] == {};
    }
    assert Kept(w[loc]) == {};
  }

  // ---- The theorem ----

  /** After a synchronisation a fresh engine answers as before at a place. */
  ghost predicate SameAnswers(paths: Paths, d: Directives, es: seq<Entry>, p: Place) {
    forall o: string, c: GoInt :: o != "" ==> (IsIgnored(LoadAll(paths, map[], es), p, o, c) <==> IsIgnored(d, p, o, c))
  }

  lemma FreshAnswer(paths: Paths, w: Written, es: seq<Entry>, p: Place, o: string, c: GoInt)
    requires EntriesOf(w, es) && o != ""
    ensures IsIgnored(LoadAll(paths, map[], es), p, o, c)
            <==> WrittenForAll(paths, w, p) || WrittenItem(paths, w, p, o, c)
  {
    LoadedIgnore(paths, map[], es, p, o, c);
    EntriesMean(paths, w, es, p, o, c);
  }

  lemma {:induction false} LongerThanAll(names: set<string>) returns (n: nat)
    ensures forall s :: s in names ==> |s| <= n
    decreases |names|
  {
    if names == {} {
      n := 0;
    } else {
      var s :| s in names;
      n := LongerThanAll(names - {s});
      if n < |s| { n := |s|; }
    }
  }

  /** A cell that does not ignore everything leaves some operator alone. */
  lemma SomebodyNotIgnored(d: Directives, p: Place) returns (o: string)
    requires !IgnoresAll(d, p)
    ensures o != "" && !IsIgnored(d, p, o, 0)
  {
    var n := LongerThanAll(if p in d then d[p].Keys else {});
    o := seq(n + 1, i => 'x');
  }

  lemma BlankItem(cell: Cell)
    requires "" in CellItems(cell)
    ensures "" in cell
  {
    assert forall o: string, c: GoInt :: o != "" ==> Item(o, c) != "";
  }

  lemma BlankComesFrom(paths: Paths, config: seq<Entry>, d: Directives, w: Written, p: Place, loc: string)
    requires WellNamed(paths, d) && WrittenFor(paths, config, d, w)
    requires loc in w && Resolve(paths, loc) == Some(p) && "" in w[loc]
    ensures Widens(paths, config, d, p)
  {
    assert "" in ItemsAt(w, loc);
    hide Resolve, Location, CellItems, WellNamed;
    if q :| q in d.Keys && q in d && Location(paths, q) == loc && "" in CellItems(d[q]) {
      LocationReadBack(paths, d, q);
      BlankItem(d[q]);
    }
  }

  lemma FirstItem(config: seq<Entry>, i: nat)
    requires i < |config|
    ensures config[i].operators != [] ==> Lists(config, config[i].location, config[i].operators[0])
  {
  }

  lemma ColumnItem(cell: Cell, n: string, c: GoInt)
    requires n in cell && n != "" && c in cell[n]
    ensures Item(n, c) in CellItems(cell)
  {
  }

  lemma NothingComesFrom(paths: Paths, config: seq<Entry>, d: Directives, w: Written, p: Place, loc: string)
    requires WellNamed(paths, d) && Loaded(paths, config, d) && WrittenFor(paths, config, d, w)
    requires loc in w && Resolve(paths, loc) == Some(p) && w[loc] == {}
    ensures IgnoresAll(d, p) || Widens(paths, config, d, p)
  {
    hide Resolve, Location;
    if i :| 0 <= i < |config| && config[i].location == loc {
      FirstItem(config, i);
      assert EntryIn(paths, config[i], d);
    } else {
      var q :| q in d.Keys && Location(paths, q) == loc;
      LocationReadBack(paths, d, q);
      NothingInCell(paths, config, d, w, q);
    }
  }

  lemma NothingInCell(paths: Paths, config: seq<Entry>, d: Directives, w: Written, p: Place)
    requires WellNamed(paths, d) && WrittenFor(paths, config, d, w) && p in d
    requires var loc := Location(paths, p); loc in w && w[loc] == {}
    ensures Widens(paths, config, d, p)
  {
    WrittenAt(paths, config, d, w, p);
    hide Resolve, Location, WrittenFor, WellNamed, Lists;
    assert CellItems(d[p]) == {};
    hide CellItems, Item;
    if "" !in d[p] {
      forall n, c | n in d[p] && c in d[p][n] ensures false { ColumnItem(d[p], n, c); }
    }
  }

  lemma NotWrittenForAll(paths: Paths, config: seq<Entry>, d: Directives, w: Written, p: Place)
    requires WellNamed(paths, d) && Loaded(paths, config, d) && WrittenFor(paths, config, d, w)
    requires !IgnoresAll(d, p) && !Widens(paths, config, d, p)
    ensures !WrittenForAll(paths, w, p)
  {
    hide Resolve, WellNamed, Loaded, WrittenFor, IgnoresAll, Widens;
    if loc :| loc in w && Resolve(paths, loc) == Some(p) && Kept(w[loc]) == {} {
      if "" in w[loc] {
        BlankComesFrom(paths, config, d, w, p, loc);
      } else {
        NothingComesFrom(paths, config, d, w, p, loc);
      }
    }
  }

  lemma ConfigItemIsIgnored(paths: Paths, config: seq<Entry>, d: Directives, p: Place, loc: string, item: string,
                            o: string, c: GoInt)
    requires Loaded(paths, config, d) && Lists(config, loc, item) && o != ""
    requires Resolve(paths, loc) == Some(p) && ItemIgnores(item, o, c)
    ensures IsIgnored(d, p, o, c)
  {
    hide Resolve, ItemIgnores, IsIgnored, IgnoresAll;
    var i :| 0 <= i < |config| && config[i].location == loc && item in config[i].operators;
    assert EntryIn(paths, config[i], d);
    var k :| 0 <= k < |config[i].operators| && config[i].operators[k] == item;
    assert ItemsIgnore(config[i].operators, o, c);
  }

  lemma CellItemIsIgnored(paths: Paths, d: Directives, p: Place, loc: string, item: string, o: string, c: GoInt)
    requires WellNamed(paths, d) && FromDirectives(paths, d, d.Keys, loc, item) && o != ""
    requires p in d ==> "" !in d[p]
    requires Resolve(paths, loc) == Some(p) && ItemIgnores(item, o, c)
    ensures IsIgnored(d, p, o, c)
  {
    hide Resolve, ItemIgnores, Location, CellItems;
    var q :| q in d.Keys && q in d && Location(paths, q) == loc && item in CellItems(d[q]);
    LocationReadBack(paths, d, q);
    CellReadBack(d[q], o, c);
  }

  lemma WrittenItemIsIgnored(paths: Paths, config: seq<Entry>, d: Directives, w: Written, p: Place, o: string, c: GoInt)
    requires WellNamed(paths, d) && Loaded(paths, config, d) && WrittenFor(paths, config, d, w) && o != ""
    requires (p in d ==> "" !in d[p]) && WrittenItem(paths, w, p, o, c)
    ensures IsIgnored(d, p, o, c)
  {
    hide Resolve, Location, ItemIgnores, Lists, FromDirectives, WellNamed, Loaded, IsIgnored;
    var loc, item :| loc in w && Resolve(paths, loc) == Some(p) && item in Kept(w[loc]) && ItemIgnores(item, o, c);
    assert item in ItemsAt(w, loc);
    if Lists(config, loc, item) {
      ConfigItemIsIgnored(paths, config, d, p, loc, item, o, c);
    } else {
      CellItemIsIgnored(paths, d, p, loc, item, o, c);
    }
  }

  lemma CellHasItem(paths: Paths, d: Directives, p: Place, o: string, c: GoInt) returns (item: string)
    requires WellNamed(paths, d) && IsIgnored(d, p, o, c) && o != "" && "" !in d[p]
    ensures item in CellItems(d[p]) && ItemIgnores(item, o, c)
  {
    hide CellItems, ItemIgnores, Trimmed, Location;
    CellReadBack(d[p], o, c);
    item :| item in CellItems(d[p]) && ItemIgnores(item, o, c);
  }

  lemma WrittenItemAt(paths: Paths, w: Written, p: Place, o: string, c: GoInt, loc: string, item: string)
    requires loc in w && Resolve(paths, loc) == Some(p) && item in w[loc] && ItemIgnores(item, o, c)
    requires !WrittenForAll(paths, w, p)
    ensures WrittenItem(paths, w, p, o, c)
  {
    hide Resolve, ItemIgnores;
    assert item in Kept(w[loc]);
  }

  lemma IgnoredIsWrittenItem(paths: Paths, config: seq<Entry>, d: Directives, w: Written, p: Place, o: string, c: GoInt)
    requires WellNamed(paths, d) && WrittenFor(paths, config, d, w) && o != "" && !WrittenForAll(paths, w, p)
    requires IsIgnored(d, p, o, c) && "" !in d[p]
    ensures WrittenItem(paths, w, p, o, c)
  {
    hide *;
    InCell(d, p, o, c);
    var item := CellHasItem(paths, d, p, o, c);
    WrittenAt(paths, config, d, w, p);
    LocationReadBack(paths, d, p);
    WrittenItemAt(paths, w, p, o, c, Location(paths, p), item);
  }

  /**
   Reading the written entries gives the same answers at a place if and only if everything was ignored
   there anyway, or nothing at that place is widened to all operators.
   */
  lemma SyncKeepsAnswers(paths: Paths, config: seq<Entry>, d: Directives, es: seq<Entry>, p: Place)
    requires WellNamed(paths, d) && Loaded(paths, config, d) && Synced(paths, config, d, es)
    ensures SameAnswers(paths, d, es, p) <==> IgnoresAll(d, p) || !Widens(paths, config, d, p)
  {
    var w: Written :| WrittenFor(paths, config, d, w) && EntriesOf(w, es);
    hide WellNamed, Loaded, WrittenFor, EntriesOf, Widens, WrittenForAll, WrittenItem, LoadAll;
    if IgnoresAll(d, p) {
      CellIsWritten(paths, config, d, w, p);
      forall o: string, c: GoInt | o != "" ensures IsIgnored(LoadAll(paths, map[], es), p, o, c) {
        FreshAnswer(paths, w, es, p, o, c);
      }
    } else if Widens(paths, config, d, p) {
      WideningIsWritten(paths, config, d, w, p);
      var o := SomebodyNotIgnored(d, p);
      FreshAnswer(paths, w, es, p, o, 0);
    } else {
      NotWrittenForAll(paths, config, d, w, p);
      forall o: string, c: GoInt | o != "" ensures IsIgnored(LoadAll(paths, map[], es), p, o, c)
          <==> IsIgnored(d, p, o, c) {
        AnswerKept(paths, config, d, w, es, p, o, c);
      }
    }
  }

  lemma NotWidenedCell(paths: Paths, config: seq<Entry>, d: Directives, p: Place)
    requires !Widens(paths, config, d, p)
    ensures p in d ==> "" !in d[p]
  {
  }

  lemma InCell(d: Directives, p: Place, o: string, c: GoInt)
    requires IsIgnored(d, p, o, c)
    ensures p in d
  {
  }

  lemma AnswerKept(paths: Paths, config: seq<Entry>, d: Directives, w: Written, es: seq<Entry>, p: Place, o: string,
                   c: GoInt)
    requires WellNamed(paths, d) && Loaded(paths, config, d) && WrittenFor(paths, config, d, w) && EntriesOf(w, es)
             && o != ""
    requires !Widens(paths, config, d, p) && !WrittenForAll(paths, w, p)
    ensures IsIgnored(LoadAll(paths, map[], es), p, o, c) <==> IsIgnored(d, p, o, c)
  {
    NotWidenedCell(paths, config, d, p);
    hide *;
    FreshAnswer(paths, w, es, p, o, c);
    if IsIgnored(d, p, o, c) {
      InCell(d, p, o, c);
      IgnoredIsWrittenItem(paths, config, d, w, p, o, c);
    }
    if WrittenItem(paths, w, p, o, c) {
      WrittenItemIsIgnored(paths, config, d, w, p, o, c);
    }
  }

  /** Entries that were just loaded are loaded, whatever the engine held before. */
  lemma {:induction false} LoadingLoads(paths: Paths, d: Directives, config: seq<Entry>)
    ensures Loaded(paths, config, LoadAll(paths, d, config))
  {
    forall i | 0 <= i < |config| ensures EntryIn(paths, config[i], LoadAll(paths, d, config)) {
      EntryStays(paths, d, config, i);
    }
  }

  lemma {:induction false} EntryStays(paths: Paths, d: Directives, config: seq<Entry>, i: nat)
    requires i < |config|
    ensures EntryIn(paths, config[i], LoadAll(paths, d, config))
    decreases |config|
  {
    var init, last := config[..|config| - 1], config[|config| - 1];
    var before := LoadAll(paths, d, init);
    if i < |init| { EntryStays(paths, d, init, i); }
    var place := Resolve(paths, config[i].location);
    hide Resolve, ItemsIgnore, TrimSpace, ParseItem, LoadAll;
    if place.Some? {
      var p := place.value;
      var after := LoadEntry(paths, before, last);
      assert i < |init| ==> p in before;
      assert p in after;
      if config[i].operators == [] { StillAll(paths, before, last, p); }
      forall o: string, c: GoInt | o != "" && ItemsIgnore(config[i].operators, o, c) ensures IsIgnored(after, p, o, c) {
        EntryLoaded(paths, before, last, p, o, c);
      }
    }
  }

  lemma {:induction false} StillAll(paths: Paths, before: Directives, e: Entry, p: Place)
    requires IgnoresAll(before, p) || (Resolve(paths, e.location) == Some(p) && e.operators == [])
    ensures IgnoresAll(LoadEntry(paths, before, e), p)
  {
    hide Resolve;
    if Resolve(paths, e.location) == Some(p) && e.operators != [] { MarksStay(before[p], e.operators); }
  }

  lemma {:induction false} MarksStay(cell: Cell, items: seq<string>)
    requires "" in cell && 0 in cell[""]
    ensures var after := MarkItems(cell, items); "" in after && 0 in after[""]
    decreases |items|
  {
    hide TrimSpace, ParseItem;
    if items != [] { MarksStay(cell, items[..|items| - 1]); }
  }

  // ---- A comment that suppresses nothing becomes an entry that suppresses everything ----

  /** What a comment adds to the cell of the next line; `rest` is its trimmed text after the marker. */
  function ReadComment(cell: Cell, rest: string): Cell {
    if rest == "" then cell["" := {0}] else
      match Index(rest, ':')
      case None => Mark(cell, rest, 0)
      case Some(i) =>
        var operator := TrimSpace(rest[..i]);
        if operator == "" then cell
        else
          match Atoi(TrimSpace(rest[i + 1..]))
          case None => Mark(cell, operator, 0)
          case Some(column) => Mark(cell, operator, column)
  }

  /** What a comment suppresses on the next line: everything, an operator, or one column of it. */
  lemma CommentMeaning(cell: Cell, name: string, column: string, o: string, c: GoInt)
    requires o != "" && ':' !in name
    ensures CellIgnores(ReadComment(cell, ""), o, c)
    ensures name != "" ==> (CellIgnores(ReadComment(cell, name), o, c) <==> CellIgnores(cell, o, c) || o == name)
    ensures CellIgnores(ReadComment(cell, name + ":" + column), o, c)
       <==> CellIgnores(cell, o, c)
            || (o == TrimSpace(name)
                && match Atoi(TrimSpace(column)) case None => true case Some(n) => n == 0 || n == c)
  {
    var rest := name + ":" + column;
    IndexSplit(name, ':', column);
    assert rest == name + [':'] + column;
    assert rest[..|name|] == name && rest[|name| + 1..] == column;
    hide Atoi, TrimSpace, Index;
  }

  /** A comment leaves an empty cell exactly if a colon comes before any operator name. */
  lemma EmptyCommentIff(rest: string)
    ensures ReadComment(map[], rest) == map[]
       <==> rest != "" && Index(rest, ':').Some? && TrimSpace(rest[..Index(rest, ':').value]) == ""
  {
    hide TrimSpace, Index, Atoi;
    forall operator: string, column: GoInt ensures operator in Mark(map[], operator, column) {}
    assert "" in map["" := {0}];
    if rest != "" && Index(rest, ':').None? { assert rest in Mark(map[], rest, 0); }
  }

  /** After such a comment, alone on its line, synchronisation makes a fresh engine ignore what was not ignored. */
  lemma EmptyCommentWidens(paths: Paths, p: Place, es: seq<Entry>)
    requires WellNamed(paths, map[p := map[]]) && Synced(paths, [], map[p := ReadComment(map[], ":5")], es)
    ensures ReadComment(map[], ":5") == map[]
    ensures (forall o: string, c: GoInt :: !IsIgnored(map[p := map[]], p, o, c))
            && !SameAnswers(paths, map[p := map[]], es, p)
  {
    assert Index(":5", ':') == Some(0);
    assert TrimSpace(":5"[..0]) == "";
    var d: Directives := map[p := map[]];
    SyncKeepsAnswers(paths, [], d, es, p);
  }
}
