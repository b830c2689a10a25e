/** The result cache: its keys, and what saving and resolving do to the statuses of a run. */
module CacheKeys {
  import opened Wrappers
  import opened Text
  import opened Mutants

  // ---- Key texts ----

  function KeyText(file: string, line: int, col: int, nodeType: nat, operator: string, hash: string): string {
    file + ":" + Itoa(line) + ":" + Itoa(col) + ":" + Itoa(nodeType) + ":" + operator + ":" + hash
  }

  predicate ColonFree(s: string) { ':' !in s }

  /** A text splits in one way only into what stands before and after its last colon. */
  lemma LastColon(a: string, b: string, a': string, b': string)
    requires ColonFree(b) && ColonFree(b') && a + ":" + b == a' + ":" + b'
    ensures a == a' && b == b'
  {
    LastIndexSplit(a, ':', b);
    LastIndexSplit(a', ':', b');
    var s := a + ":" + b;
    assert s[..|a|] == a && s[..|a'|] == a';
    assert s[|a| + 1..] == b && s[|a'| + 1..] == b';
  }

  /** Keys tell mutants apart even when paths contain colons. */
  lemma KeyTextInjective(f: string, l: int, c: int, n: nat, o: string, h: string,
                         f': string, l': int, c': int, n': nat, o': string, h': string)
    requires ColonFree(o) && ColonFree(o') && ColonFree(h) && ColonFree(h')
    requires KeyText(f, l, c, n, o, h) == KeyText(f', l', c', n', o', h')
    ensures f == f' && l == l' && c == c' && n == n' && o == o' && h == h'
  {
    hide LastIndex, PrintNat;
    var a3, a3' := f + ":" + Itoa(l) + ":" + Itoa(c) + ":" + Itoa(n), f' + ":" + Itoa(l') + ":" + Itoa(c') + ":"
        + Itoa(n');
    LastColon(a3 + ":" + o, h, a3' + ":" + o', h');
    LastColon(a3, o, a3', o');
    NumberColon(f + ":" + Itoa(l) + ":" + Itoa(c), n, f' + ":" + Itoa(l') + ":" + Itoa(c'), n');
    NumberColon(f + ":" + Itoa(l), c, f' + ":" + Itoa(l'), c');
    NumberColon(f, l, f', l');
  }

  lemma NumberColon(a: string, n: int, a': string, n': int)
    requires a + ":" + Itoa(n) == a' + ":" + Itoa(n')
    ensures a == a' && n == n'
  {
    LastColon(a, Itoa(n), a', Itoa(n'));
    ItoaInjective(n, n');
  }

  /** Whatever operator or hash has a colon, some other operator and hash at the same place have the same key. */
  lemma KeysCollideOnColons(f: string, l: int, c: int, n: nat, o: string, h: string) returns (o': string, h': string)
    requires !ColonFree(o) || !ColonFree(h)
    ensures (o', h') != (o, h) && KeyText(f, l, c, n, o', h') == KeyText(f, l, c, n, o, h)
  {
    hide KeyText;
    if !ColonFree(o) {
      var x, y := AroundColon(o);
      o', h' := x, y + ":" + h;
      assert (x + ":" + y) + ":" + h == x + ":" + (y + ":" + h);
    } else {
      var x, y := AroundColon(h);
      o', h' := o + ":" + x, y;
      assert o + ":" + (x + ":" + y) == (o + ":" + x) + ":" + y;
    }
    KeyTextTail(f, l, c, n, o, h, o', h');
  }

  lemma AroundColon(s: string) returns (x: string, y: string)
    requires !ColonFree(s)
    ensures s == x + ":" + y && |x| < |s| && |y| < |s|
  {
    var i := Index(s, ':').value;
    x, y := s[..i], s[i + 1..];
  }

  lemma KeyTextTail(f: string, l: int, c: int, n: nat, o: string, h: string, o': string, h': string)
    requires o + ":" + h == o' + ":" + h'
    ensures KeyText(f, l, c, n, o, h) == KeyText(f, l, c, n, o', h')
  {
    hide Itoa;
    var place := f + ":" + Itoa(l) + ":" + Itoa(c) + ":" + Itoa(n);
    TextTail(place, o, h);
    TextTail(place, o', h');
  }

  lemma TextTail(place: string, o: string, h: string)
    ensures place + ":" + o + ":" + h == place + ":" + (o + ":" + h)
  {
  }

  // ---- Saving and resolving ----

  /** What of a mutant goes into its key, and its status. */
  datatype Keyed = Keyed(file: string, line: int, col: int, nodeType: nat, operator: string, status: Status)

  /** The digest of a key text, and the hash of a file (None when it cannot be read). */
  datatype Environment = Environment(digest: string -> string, hashOf: string -> Option<string>)

  type Entries = map<string, Status>

  class Cache {
    var entries: Entries

    constructor ()
      ensures entries == map[]
    {
      entries := map[];
    }

    method Set(key: string, status: Status)
      modifies this
      ensures entries == old(entries)[key := status]
    {
      entries := entries[key := status];
    }
  }

  /** An unreadable file has no hash; the code writes that as the empty text. */
  function HashText(env: Environment, file: string): string {
    match env.hashOf(file)
    case None => ""
    case Some(h) => h
  }

  type Hashes = map<string, string>

  function Hash(hashes: Hashes, file: string): string {
    if file in hashes then hashes[file] else ""
  }

  predicate Knows(env: Environment, hashes: Hashes, m: Keyed) { Hash(hashes, m.file) == HashText(env, m.file) }

  function Key(env: Environment, m: Keyed): string {
    env.digest(KeyText(m.file, m.line, m.col, m.nodeType, m.operator, HashText(env, m.file)))
  }

  predicate Found(env: Environment, entries: Entries, m: Keyed) {
    HashText(env, m.file) != "" && Key(env, m) in entries
  }

  function Restored(env: Environment, entries: Entries, m: Keyed): Keyed {
    if Found(env, entries, m) then m.(status := entries[Key(env, m)]) else m
  }

  /** The positions of the mutants without a status, in order. */
  function Blanks(ms: seq<Keyed>): (r: seq<nat>)
    ensures forall i: nat :: i in r <==> i < |ms| && ms[i].status == Blank
    ensures forall a, b :: 0 <= a < b < |r| ==> r[a] < r[b]
  {
    if ms == [] then [] else
      var last := |ms| - 1;
      var init := Blanks(ms[..last]);
      assert forall a :: 0 <= a < |init| ==> init[a] in init;
      init + if ms[last].status == Blank then [last] else []
  }

  predicate Known(env: Environment, hashes: Hashes, ms: seq<Keyed>) {
    forall i :: 0 <= i < |ms| ==> Knows(env, hashes, ms[i])
  }

  /** The hash of every file, read once. */
  method HashFiles(env: Environment, ms: seq<Keyed>, blanksToo: bool) returns (hashes: Hashes)
    ensures forall i :: 0 <= i < |ms| && (blanksToo || ms[i].status != Blank) ==> Knows(env, hashes, ms[i])
  {
    hashes := map[];
    for i := 0 to |ms|
      invariant forall f :: f in hashes ==> hashes[f] == HashText(env, f)
      invariant forall j :: 0 <= j < i && (blanksToo || ms[j].status != Blank) ==> Knows(env, hashes, ms[j])
    {
      var f := ms[i].file;
      if (blanksToo || ms[i].status != Blank) && f !in hashes {
        match env.hashOf(f) {
          case None =>
          case Some(h) => hashes := hashes[f := h];
        }
      }
    }
  }

  /**
   Cached statuses are written into the mutants; None when every mutant was cached, else the positions still blank.
   */
  method ResolveCache(env: Environment, ms: array<Keyed>, cache: Cache?)
    returns (toRun: Option<seq<nat>>, hashes: Option<Hashes>)
    modifies ms
    ensures cache == null ==> ms[..] == old(ms[..]) && hashes == None && toRun == Some(Blanks(ms[..]))
    ensures cache != null ==>
              && (forall i :: 0 <= i < ms.Length ==> ms[i] == Restored(env, old(cache.entries), old(ms[i])))
              && hashes.Some? && Known(env, hashes.value, ms[..])
              && toRun == if (forall i :: 0 <= i < ms.Length ==> Found(env, old(cache.entries), old(ms[i]))) then None
                  else Some(Blanks(ms[..]))
  {
    hide Blanks, KeyText, HashText;
    if cache == null { return Some(Blanks(ms[..])), None; }
    var known := HashFiles(env, ms[..], true);
    ghost var before := ms[..];
    var cached := 0;
    for i := 0 to ms.Length
      invariant forall j :: 0 <= j < ms.Length ==> ms[j] == if j < i then Restored(env, cache.entries, before[j])
                  else before[j]
      invariant 0 <= cached <= i && (cached == i <==> forall j :: 0 <= j < i ==> Found(env, cache.entries, before[j]))
      invariant Known(env, known, before)
    {
      var m := ms[i];
      assert Knows(env, known, before[i]);
      var hash := Hash(known, m.file);
      if hash != "" {
        var key := env.digest(KeyText(m.file, m.line, m.col, m.nodeType, m.operator, hash));
        if key in cache.entries {
          ms[i] := m.(status := cache.entries[key]);
          cached := cached + 1;
        }
      }
    }
    assert Known(env, known, ms[..]) by {
      forall i | 0 <= i < ms.Length ensures Knows(env, known, ms[i]) { assert Knows(env, known, before[i]); }
    }
    toRun := if cached == ms.Length then None else Some(Blanks(ms[..]));
    hashes := Some(known);
  }

  predicate Savable(env: Environment, m: Keyed) { m.status != Blank && HashText(env, m.file) != "" }

  /** The entries after saving: a later mutant overwrites an earlier one with its key. */
  function Saved(env: Environment, entries: Entries, ms: seq<Keyed>): Entries {
    if ms == [] then entries else
      var m := ms[|ms| - 1];
      var es := Saved(env, entries, ms[..|ms| - 1]);
      if Savable(env, m) then es[Key(env, m) := m.status] else es
  }

  method SaveCache(env: Environment, ms: seq<Keyed>, cache: Cache?, hashes: Option<Hashes>)
    requires hashes.Some? ==> Known(env, hashes.value, ms)
    modifies cache
    ensures cache != null ==> cache.entries == Saved(env, old(cache.entries), ms)
  {
    if cache == null { return; }
    var known: Hashes;
    if hashes.Some? { known := hashes.value; } else { known := HashFiles(env, ms, false); }
    ghost var before := cache.entries;
    for i := 0 to |ms|
      invariant cache.entries == Saved(env, before, ms[..i])
    {
      assert ms[..i + 1][..i] == ms[..i];
      var m := ms[i];
      if m.status != Blank {
        assert Knows(env, known, m);
        var hash := Hash(known, m.file);
        if hash != "" {
          cache.Set(env.digest(KeyText(m.file, m.line, m.col, m.nodeType, m.operator, hash)), m.status);
        }
      }
    }
    assert ms[..|ms|] == ms;
  }

  // ---- The round trip ----

  predicate SameSite(m: Keyed, m': Keyed) {
    m.file == m'.file && m.line == m'.line && m.col == m'.col && m.nodeType == m'.nodeType && m.operator == m'.operator
  }

  /** The digest is taken as injective; operator names and hashes contain no colon. */
  ghost predicate Distinguishing(env: Environment, ms: seq<Keyed>) {
    && (forall s, t :: env.digest(s) == env.digest(t) ==> s == t)
    && (forall f :: ColonFree(HashText(env, f)))
    && (forall i :: 0 <= i < |ms| ==> ColonFree(ms[i].operator))
    && (forall i, j :: 0 <= i < j < |ms| ==> !SameSite(ms[i], ms[j]))
  }

  lemma KeysDiffer(env: Environment, ms: seq<Keyed>, i: nat, j: nat)
    requires Distinguishing(env, ms) && i < |ms| && j < |ms| && i != j
    ensures Key(env, ms[i]) != Key(env, ms[j])
  {
    var m, m' := ms[i], ms[j];
    if Key(env, m) == Key(env, m') {
      KeyTextInjective(m.file, m.line, m.col, m.nodeType, m.operator, HashText(env, m.file),
                       m'.file, m'.line, m'.col, m'.nodeType, m'.operator, HashText(env, m'.file));
    }
  }

  lemma {:induction false} SavedEntry(env: Environment, entries: Entries, ms: seq<Keyed>, n: nat, i: nat)
    requires Distinguishing(env, ms) && i < |ms| && n <= |ms|
    ensures var es := Saved(env, entries, ms[..n]); var key := Key(env, ms[i]);
            if i < n && Savable(env, ms[i]) then key in es && es[key] == ms[i].status
            else (key in es <==> key in entries) && (key in es ==> es[key] == entries[key])
  {
    hide Key, Distinguishing;
    if n > 0 {
      assert ms[..n][..n - 1] == ms[..n - 1];
      SavedEntry(env, entries, ms, n - 1, i);
      if i != n - 1 { KeysDiffer(env, ms, i, n - 1); }
    }
  }

  /** Saving a run and resolving the same mutants again restores every status, and leaves to run what had none. */
  lemma SaveThenResolve(env: Environment, entries: Entries, ms: seq<Keyed>, i: nat)
    requires Distinguishing(env, ms) && i < |ms|
    ensures var blank := ms[i].(status := Blank); var es := Saved(env, entries, ms);
            && (Savable(env, ms[i]) ==> Found(env, es, blank) && Restored(env, es, blank) == ms[i])
            && (!Savable(env, ms[i]) ==> Restored(env, es, blank) == Restored(env, entries, blank))
  {
    SavedEntry(env, entries, ms, |ms|, i);
    assert ms[..|ms|] == ms;
  }
}
