/**
 Type texts read back: the text the writer produces stands for one type, the one in which every
 declared name has been replaced by its declaration.
 */
module TypeText {
  import opened Wrappers
  import opened TypeNames
  import Text

  // ---- Reading ----

  predicate IsLetter(c: char) { 'a' <= c <= 'z' || 'A' <= c <= 'Z' || '0' <= c <= '9' || c == '_' }

  predicate AllLetters(s: string) { forall i :: 0 <= i < |s| ==> IsLetter(s[i]) }

  /** The length of the word that a text begins with. */
  function WordLength(s: string): (n: nat)
    ensures n <= |s|
  {
    if s != "" && IsLetter(s[0]) then WordLength(s[1..]) + 1 else 0
  }

  /** A type, and the text that is left after it. */
  datatype Reading = Reading(t: TypeExpr, rest: string)

  function Wrap(r: Option<Reading>, make: TypeExpr -> TypeExpr): Option<Reading> {
    match r
    case None => None
    case Some(x) => Some(Reading(make(x.t), x.rest))
  }

  function ReadType(s: string): (r: Option<Reading>)
    ensures r.Some? ==> |r.value.rest| < |s|
    decreases |s|, 1
  {
    if "*" <= s then Wrap(ReadType(s[1..]), x => Star(x))
    else if "..." <= s then Wrap(ReadType(s[3..]), x => Ellipsis(x))
    else if "[" <= s then
      match Text.Index(s, ']')
      case None => None
      case Some(i) =>
        var length := if i == 1 then None else Some(s[1..i]);
        Wrap(ReadType(s[i + 1..]), x => Array(length, x))
    else ReadWord(s)
  }

  /** A type that begins with a word. */
  function ReadWord(s: string): (r: Option<Reading>)
    ensures r.Some? ==> |r.value.rest| < |s|
    decreases |s|, 0
  {
    var n := WordLength(s);
    var word, rest := s[..n], s[n..];
    if n == 0 then None
    else if word == "map" then
      if !("[" <= rest) then None
      else
        match ReadType(rest[1..])
        case None => None
        case Some(key) =>
          if "]" <= key.rest then Wrap(ReadType(key.rest[1..]), x => MapOf(key.t, x)) else None
    else if word == "chan" then if " " <= rest then Wrap(ReadType(rest[1..]), x => Chan(x)) else None
    else if word == "interface" then if "{}" <= rest then Some(Reading(Interface, rest[2..])) else None
    else if word == "func" then Some(Reading(Func, rest))
    else if "." <= rest then
      var k := WordLength(rest[1..]);
      Some(Reading(Selector(Some(word), rest[1..][..k]), rest[1..][k..]))
    else Some(Reading(Ident(word), rest))
  }

  // ---- What a text stands for ----

  predicate IsName(s: string) { s != "" && AllLetters(s) && s !in {"map", "chan", "interface", "func"} }

  /** Names are words, and array lengths have no bracket. */
  predicate Speakable(file: File, t: TypeExpr) {
    match t
    case Ident(name) => Lookup(file, name).None? ==> IsName(name)
    case Star(x) => Speakable(file, x)
    case Array(n, elem) => (n.Some? ==> n.value != "" && ']' !in n.value) && Speakable(file, elem)
    case MapOf(key, value) => Speakable(file, key) && Speakable(file, value)
    case Chan(elem) => Speakable(file, elem)
    case Selector(p, name) => IsName(name) && (p.Some? ==> IsName(p.value))
    case Paren(x) => Speakable(file, x)
    case Ellipsis(elem) => Speakable(file, elem)
    case Other => false
    case _ => true
  }

  predicate SpeakableFile(file: File) { forall d :: d in file ==> Speakable(file, d.body) }

  /** The type without parentheses and with every declared name replaced by its declaration. */
  ghost function Resolved(file: File, rank: Rank, t: TypeExpr, b: nat): TypeExpr
    requires Acyclic(file, rank) && Below(file, rank, t, b)
    decreases b, t
  {
    match t
    case Ident(name) =>
      if Lookup(file, name).None? then t else Resolved(file, rank, Lookup(file, name).value.body, rank(name))
    case Star(x) => Star(Resolved(file, rank, x, b))
    case Array(n, elem) => Array(n, Resolved(file, rank, elem, b))
    case MapOf(key, value) => MapOf(Resolved(file, rank, key, b), Resolved(file, rank, value, b))
    case Chan(elem) => Chan(Resolved(file, rank, elem, b))
    case Selector(None, name) => Ident(name)
    case Paren(x) => Resolved(file, rank, x, b)
    case Ellipsis(elem) => Ellipsis(Resolved(file, rank, elem, b))
    case _ => t
  }

  /** What may follow a type: nothing, or the bracket that closes a key. */
  predicate Ends(rest: string) { rest == "" || rest[0] == ']' }

  lemma {:induction false} WordEnds(word: string, rest: string)
    requires AllLetters(word) && (rest == "" || !IsLetter(rest[0]))
    ensures WordLength(word + rest) == |word|
    ensures (word + rest)[..|word|] == word && (word + rest)[|word|..] == rest
    decreases |word|
  {
    if word == "" {
      assert word + rest == rest;
    } else {
      WordEnds(word[1..], rest);
      assert (word + rest)[1..] == word[1..] + rest;
    }
  }

  lemma ReadsWord(word: string, rest: string)
    requires word != "" && AllLetters(word)
    ensures ReadType(word + rest) == ReadWord(word + rest)
  {
    var s := word + rest;
    assert s[0] == word[0] && IsLetter(word[0]);
    hide ReadWord;
  }

  lemma ReadsName(name: string, rest: string)
    requires IsName(name) && Ends(rest)
    ensures ReadType(name + rest) == Some(Reading(Ident(name), rest))
  {
    ReadsWord(name, rest);
    WordEnds(name, rest);
  }

  lemma ReadsSelector(p: string, name: string, rest: string)
    requires IsName(p) && IsName(name) && Ends(rest)
    ensures ReadType(p + "." + name + rest) == Some(Reading(Selector(Some(p), name), rest))
  {
    var after := name + rest;
    var tail := "." + after;
    assert p + "." + name + rest == p + tail;
    assert tail[1..] == after && tail[0] == '.';
    NameWord(p);
    NameWord(name);
    ReadsWord(p, tail);
    WordEnds(p, tail);
    WordEnds(name, rest);
    hide WordLength, IsName, AllLetters, ReadType;
  }

  lemma NameWord(name: string)
    requires IsName(name)
    ensures name != "" && AllLetters(name)
    ensures name != "map" && name != "chan" && name != "interface" && name != "func"
  {
  }

  lemma ReadsInterface(rest: string)
    ensures ReadType("interface{}" + rest) == Some(Reading(Interface, rest))
  {
    var tail := "{}" + rest;
    assert "interface{}" + rest == "interface" + tail;
    ReadsWord("interface", tail);
    WordEnds("interface", tail);
    assert tail[2..] == rest;
  }

  lemma ReadsFunc(rest: string)
    requires Ends(rest)
    ensures ReadType("func" + rest) == Some(Reading(Func, rest))
  {
    ReadsWord("func", rest);
    WordEnds("func", rest);
  }

  lemma ReadsStar(text: string)
    ensures ReadType("*" + text) == Wrap(ReadType(text), x => Star(x))
  {
    assert ("*" + text)[1..] == text;
    hide ReadWord;
  }

  lemma ReadsEllipsis(text: string)
    ensures ReadType("..." + text) == Wrap(ReadType(text), x => Ellipsis(x))
  {
    var s := "..." + text;
    assert s[3..] == text && s[0] == '.';
    hide ReadWord;
  }

  lemma ReadsArray(n: Option<string>, text: string)
    requires n.Some? ==> n.value != "" && ']' !in n.value
    ensures ReadType("[" + (if n.Some? then n.value else "") + "]" + text) == Wrap(ReadType(text), x => Array(n, x))
  {
    hide ReadWord;
    var length := if n.Some? then n.value else "";
    var s := "[" + length + "]" + text;
    BracketAt(length, text);
    assert !("*" <= s) && !("..." <= s) && "[" <= s;
    assert ReadType(s) == Wrap(ReadType(text), x => Array(if |length| + 1 == 1 then None else Some(length), x));
  }

  lemma BracketAt(length: string, text: string)
    requires ']' !in length
    ensures var s := "[" + length + "]" + text;
            Text.Index(s, ']') == Some(|length| + 1) && s[0] == '['
            && s[1..|length| + 1] == length && s[|length| + 2..] == text
  {
    Text.IndexSplit("[" + length, ']', text);
    assert "[" + length + "]" + text == "[" + length + [']'] + text;
  }

  lemma ReadsChan(text: string)
    ensures ReadType("chan " + text) == Wrap(ReadType(text), x => Chan(x))
  {
    var tail := " " + text;
    assert "chan " + text == "chan" + tail;
    ReadsWord("chan", tail);
    WordEnds("chan", tail);
    assert tail[1..] == text;
  }

  lemma ReadsMap(key: TypeExpr, text: string, value: string)
    requires ReadType(text + ("]" + value)) == Some(Reading(key, "]" + value))
    ensures ReadType("map[" + text + "]" + value) == Wrap(ReadType(value), x => MapOf(key, x))
  {
    hide *;
    var inner := text + ("]" + value);
    var tail := "[" + inner;
    assert "map[" + text + "]" + value == "map" + tail;
    assert AllLetters("map") by { MapIsWord(); }
    ReadsWord("map", tail);
    assert tail[0] == '[' && !IsLetter('[') by { BracketIsNoLetter(); }
    WordEnds("map", tail);
    assert tail[1..] == inner;
    MapWord("map" + tail, inner, key, value);
  }

  lemma MapIsWord()
    ensures AllLetters("map")
  {
  }

  lemma BracketIsNoLetter()
    ensures !IsLetter('[')
  {
  }

  lemma MapWord(s: string, inner: string, key: TypeExpr, value: string)
    requires WordLength(s) == 3 && s[..3] == "map" && s[3..] == "[" + inner
    requires ReadType(inner) == Some(Reading(key, "]" + value))
    ensures ReadWord(s) == Wrap(ReadType(value), x => MapOf(key, x))
  {
    hide ReadType, WordLength;
    assert s[3..][1..] == inner && ("]" + value)[1..] == value;
    assert "[" <= s[3..] && "]" <= "]" + value;
  }

  /** The text of a type is read back as the type it stands for, whatever may follow. */
  lemma {:induction false} TextReadBack(file: File, rank: Rank, t: TypeExpr, b: nat, rest: string)
    requires Acyclic(file, rank) && Below(file, rank, t, b)
    requires SpeakableFile(file) && Speakable(file, t) && Ends(rest)
    ensures ReadType(Expand(file, rank, t, b) + rest) == Some(Reading(Resolved(file, rank, t, b), rest))
    decreases b, t
  {
    hide Acyclic, SpeakableFile, ReadType, IsName, Ends;
    match t
    case Ident(name) =>
      if Lookup(file, name).None? {
        ReadsName(name, rest);
      } else {
        BodyBelow(file, rank, name);
        BodySpeakable(file, name);
        TextReadBack(file, rank, Lookup(file, name).value.body, rank(name), rest);
      }
    case Star(x) =>
      TextReadBack(file, rank, x, b, rest);
      ReadsStar(Expand(file, rank, x, b) + rest);
      assert "*" + Expand(file, rank, x, b) + rest == "*" + (Expand(file, rank, x, b) + rest);
    case Array(n, elem) =>
      var text := Expand(file, rank, elem, b);
      TextReadBack(file, rank, elem, b, rest);
      ReadsArray(n, text + rest);
      assert "[]" + text + rest == "[" + "" + "]" + (text + rest);
      assert n.Some? ==> "[" + n.value + "]" + text + rest == "[" + n.value + "]" + (text + rest);
    case MapOf(key, value) =>
      var k, v := Expand(file, rank, key, b), Expand(file, rank, value, b);
      TextReadBack(file, rank, value, b, rest);
      assert Ends("]" + (v + rest)) by { Closes(v + rest); }
      TextReadBack(file, rank, key, b, "]" + (v + rest));
      ReadsMap(Resolved(file, rank, key, b), k, v + rest);
      assert "map[" + k + "]" + v + rest == "map[" + k + "]" + (v + rest);
    case Chan(elem) =>
      TextReadBack(file, rank, elem, b, rest);
      ReadsChan(Expand(file, rank, elem, b) + rest);
      assert "chan " + Expand(file, rank, elem, b) + rest == "chan " + (Expand(file, rank, elem, b) + rest);
    case Interface => ReadsInterface(rest);
    case Func => ReadsFunc(rest);
    case Selector(None, name) => ReadsName(name, rest);
    case Selector(Some(p), name) => ReadsSelector(p, name, rest);
    case Paren(x) => TextReadBack(file, rank, x, b, rest);
    case Ellipsis(elem) =>
      TextReadBack(file, rank, elem, b, rest);
      ReadsEllipsis(Expand(file, rank, elem, b) + rest);
      assert "..." + Expand(file, rank, elem, b) + rest == "..." + (Expand(file, rank, elem, b) + rest);
    case Other => assert false;
  }

  lemma Closes(rest: string)
    ensures Ends("]" + rest)
  {
  }

  lemma BodySpeakable(file: File, name: string)
    requires SpeakableFile(file) && Lookup(file, name).Some?
    ensures Speakable(file, Lookup(file, name).value.body)
  {
  }

  /** The text is that of the type it stands for, written without any declarations. */
  lemma {:induction false} TextOfResolved(file: File, rank: Rank, t: TypeExpr, b: nat)
    requires Acyclic(file, rank) && Below(file, rank, t, b)
    ensures Acyclic([], rank) && Below([], rank, Resolved(file, rank, t, b), 0)
    ensures Expand([], rank, Resolved(file, rank, t, b), 0) == Expand(file, rank, t, b)
    decreases b, t
  {
    match t
    case Ident(name) =>
      if Lookup(file, name).Some? { TextOfResolved(file, rank, Lookup(file, name).value.body, rank(name)); }
    case Star(x) => TextOfResolved(file, rank, x, b);
    case Array(_, elem) => TextOfResolved(file, rank, elem, b);
    case MapOf(key, value) =>
      TextOfResolved(file, rank, key, b);
      TextOfResolved(file, rank, value, b);
    case Chan(elem) => TextOfResolved(file, rank, elem, b);
    case Paren(x) => TextOfResolved(file, rank, x, b);
    case Ellipsis(elem) => TextOfResolved(file, rank, elem, b);
    case _ =>
  }

  lemma EndsHere()
    ensures Ends("")
  {
  }

  /** Two types have the same text if and only if they stand for the same type. */
  lemma SameTextIff(file: File, rank: Rank, t: TypeExpr, b: nat, u: TypeExpr, c: nat)
    requires Acyclic(file, rank) && Below(file, rank, t, b) && Below(file, rank, u, c)
    requires SpeakableFile(file) && Speakable(file, t) && Speakable(file, u)
    ensures Expand(file, rank, t, b) == Expand(file, rank, u, c)
            <==> Resolved(file, rank, t, b) == Resolved(file, rank, u, c)
  {
    hide *;
    EndsHere();
    TextReadBack(file, rank, t, b, "");
    TextReadBack(file, rank, u, c, "");
    TextOfResolved(file, rank, t, b);
    TextOfResolved(file, rank, u, c);
    assert Expand(file, rank, t, b) + "" == Expand(file, rank, t, b);
    assert Expand(file, rank, u, c) + "" == Expand(file, rank, u, c);
  }
}
