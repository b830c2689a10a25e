/** Reading a unified diff: which lines of the new files were added. */
module DiffParser {
  import opened Wrappers
  import opened Text

  // ---- The reader ----

  type FileLines = map<string, set<int>>

  /** The file the reader is in (the empty text for none), the number of the next line of the new file, the result. */
  datatype State = State(file: string, line: int, result: FileLines)

  /** The number in front of the first character `c`, or of the end. */
  function UpTo(s: string, c: char): string {
    match Index(s, c)
    case None => s
    case Some(i) => s[..i]
  }

  function NumberOr0(s: string): int { if Atoi(s).Some? then Atoi(s).value else 0 }

  /** The start of the new range in a hunk header: what follows the first plus sign, up to a space or a comma. */
  function ParseHunkHeader(line: string): int
    requires HasPrefix(line, "@@ ")
  {
    match Index(line[3..], '+')
    case None => 0
    case Some(i) => NumberOr0(UpTo(UpTo(line[3..][i + 1..], ' '), ','))
  }

  /** The empty set for a file not seen before. */
  function LinesOf(r: FileLines, file: string): set<int> { if file in r then r[file] else {} }

  function Step(absolute: string -> string, s: State, line: string): State {
    if HasPrefix(line, "+++ ") then
      var path := TrimPrefix(TrimPrefix(line, "+++ "), "b/");
      if path == "/dev/null" then State("", s.line, s.result)
      else State(absolute(path), s.line, s.result[absolute(path) := LinesOf(s.result, absolute(path))])
    else if HasPrefix(line, "@@ ") then State(s.file, ParseHunkHeader(line), s.result)
    else if HasPrefix(line, "+") && !HasPrefix(line, "+++") then
      State(s.file, s.line + 1, if s.file != "" then s.result[s.file := LinesOf(s.result, s.file) + {s.line}]
          else s.result)
    else if HasPrefix(line, "-") && !HasPrefix(line, "---") then s
    else if s.file != "" && !HasPrefix(line, "\\") then State(s.file, s.line + 1, s.result)
    else s
  }

  function Read(absolute: string -> string, s: State, lines: seq<string>): State
    decreases |lines|
  {
    if lines == [] then s else Read(absolute, Step(absolute, s, lines[0]), lines[1..])
  }

  method Parse(absolute: string -> string, lines: seq<string>) returns (result: FileLines)
    ensures result == Read(absolute, State("", 0, map[]), lines).result
  {
    result := map[];
    var currentFile, newLine := "", 0;
    for i := 0 to |lines|
      invariant Read(absolute, State(currentFile, newLine, result), lines[i..])
                == Read(absolute, State("", 0, map[]), lines)
    {
      var line := lines[i];
      assert lines[i..][1..] == lines[i + 1..];
      if HasPrefix(line, "+++ ") {
        var path := TrimPrefix(TrimPrefix(line, "+++ "), "b/");
        if path == "/dev/null" {
          currentFile := "";
          continue;
        }
        currentFile := absolute(path);
        result := result[currentFile := LinesOf(result, currentFile)];
      } else if HasPrefix(line, "@@ ") {
        newLine := ParseHunkHeader(line);
      } else if HasPrefix(line, "+") && !HasPrefix(line, "+++") {
        if currentFile != "" { result := result[currentFile := LinesOf(result, currentFile) + {newLine}]; }
        newLine := newLine + 1;
      } else if HasPrefix(line, "-") && !HasPrefix(line, "---") {
      } else if currentFile != "" && !HasPrefix(line, "\\") {
        newLine := newLine + 1;
      }
    }
  }

  lemma {:induction false} ReadAppend(absolute: string -> string, s: State, a: seq<string>, b: seq<string>)
    ensures Read(absolute, s, a + b) == Read(absolute, Read(absolute, s, a), b)
    decreases |a|
  {
    if a == [] {
      assert a + b == b;
    } else {
      assert (a + b)[1..] == a[1..] + b;
      ReadAppend(absolute, Step(absolute, s, a[0]), a[1..], b);
    }
  }

  // ---- The writer ----

  /** One line of a hunk; the last is the remark that a file does not end in a newline. */
  datatype Edit = Kept(text: string) | Removed(text: string) | Added(text: string) | NoNewline

  /** A hunk, after a number of unchanged lines that the diff does not show. */
  datatype Segment = Segment(skipped: nat, section: string, oldStart: nat, edits: seq<Edit>)

  /** The edit script of one file; None for a deleted file. */
  datatype FileDiff = FileDiff(path: Option<string>, oldPath: string, segments: seq<Segment>)

  function PrintEdit(e: Edit): string {
    match e
    case Kept(t) => " " + t
    case Removed(t) => "-" + t
    case Added(t) => "+" + t
    case NoNewline => "\\ No newline at end of file"
  }

  function PrintEdits(es: seq<Edit>): seq<string> {
    if es == [] then [] else [PrintEdit(es[0])] + PrintEdits(es[1..])
  }

  /** How many lines of the new file an edit shows. */
  function NewLines(es: seq<Edit>): nat {
    if es == [] then 0 else (if es[0].Kept? || es[0].Added? then 1 else 0) + NewLines(es[1..])
  }

  function OldLines(es: seq<Edit>): nat {
    if es == [] then 0 else (if es[0].Kept? || es[0].Removed? then 1 else 0) + OldLines(es[1..])
  }

  /** A start and a count; a count of one is left out. */
  function Range(start: nat, count: nat): string {
    Itoa(start) + if count == 1 then "" else "," + Itoa(count)
  }

  /** The new range of a hunk that follows `before` lines of the new file; an empty range names the line before it. */
  function NewStart(before: nat, seg: Segment): nat {
    var first := before + seg.skipped;
    if NewLines(seg.edits) == 0 then first else first + 1
  }

  function Header(before: nat, seg: Segment): string {
    "@@ " + ("-" + Range(seg.oldStart, OldLines(seg.edits)) + " ")
    + "+" + Range(NewStart(before, seg), NewLines(seg.edits)) + " " + ("@@" + seg.section)
  }

  function PrintSegments(before: nat, segs: seq<Segment>): seq<string>
    decreases |segs|
  {
    if segs == [] then [] else
      [Header(before, segs[0])] + PrintEdits(segs[0].edits)
      + PrintSegments(before + segs[0].skipped + NewLines(segs[0].edits), segs[1..])
  }

  function GitLine(f: FileDiff): string {
    "diff --git a/" + f.oldPath + " b/" + if f.path.Some? then f.path.value else f.oldPath
  }

  function OldLine(f: FileDiff): string { "--- a/" + f.oldPath }

  function NewLine(f: FileDiff): string { "+++ " + if f.path.Some? then "b/" + f.path.value else "/dev/null" }

  function PrintFile(f: FileDiff): seq<string> {
    [GitLine(f)] + ([OldLine(f)] + ([NewLine(f)] + PrintSegments(0, f.segments)))
  }

  function PrintDiff(fs: seq<FileDiff>): seq<string>
    decreases |fs|
  {
    if fs == [] then [] else PrintFile(fs[0]) + PrintDiff(fs[1..])
  }

  // ---- What was added ----

  /** The numbers of the added lines when the next line of the new file has number `n`. */
  function AddedIn(es: seq<Edit>, n: int): set<int>
    decreases |es|
  {
    if es == [] then {}
    else
      match es[0]
      case Added(_) => {n} + AddedIn(es[1..], n + 1)
      case Kept(_) => AddedIn(es[1..], n + 1)
      case _ => AddedIn(es[1..], n)
  }

  /** The added lines of the new file, over all of its lines, shown or not. */
  function AddedLines(before: nat, segs: seq<Segment>): set<int>
    decreases |segs|
  {
    if segs == [] then {} else
      AddedIn(segs[0].edits, before + segs[0].skipped + 1)
      + AddedLines(before + segs[0].skipped + NewLines(segs[0].edits), segs[1..])
  }

  // ---- One line ----

  function Marked(r: FileLines, file: string, lines: set<int>): FileLines { r[file := LinesOf(r, file) + lines] }

  /** A printed added line is taken for one exactly when its text does not begin with two plus signs. */
  lemma AddedRecognised(absolute: string -> string, s: State, text: string)
    requires s.file != "" && s.line !in LinesOf(s.result, s.file)
    ensures Step(absolute, s, PrintEdit(Added(text))) == State(s.file, s.line + 1, Marked(s.result, s.file, {s.line}))
            <==> !HasPrefix(text, "++")
  {
    var line := PrintEdit(Added(text));
    assert HasPrefix(line, "+++") <==> HasPrefix(text, "++") by { Shift('+', "++", text); }
    assert HasPrefix(line, "+++ ") ==> HasPrefix(line, "+++") by { assert "+++" <= "+++ "; }
    Starts(line, '+');
    if HasPrefix(text, "++") {
      assert s.line in LinesOf(Marked(s.result, s.file, {s.line}), s.file);
      if !HasPrefix(line, "+++ ") { assert Step(absolute, s, line).result == s.result; }
    }
  }

  /** A printed removed line is passed over exactly when its text does not begin with two minus signs. */
  lemma RemovedRecognised(absolute: string -> string, s: State, text: string)
    requires s.file != ""
    ensures Step(absolute, s, PrintEdit(Removed(text))) == s <==> !HasPrefix(text, "--")
  {
    var line := PrintEdit(Removed(text));
    assert HasPrefix(line, "---") <==> HasPrefix(text, "--") by { Shift('-', "--", text); }
    Starts(line, '-');
  }

  /** A line has only prefixes that begin as it does. */
  lemma Starts(line: string, c: char)
    requires line != "" && line[0] == c
    ensures c != '+' ==> !HasPrefix(line, "+++ ") && !HasPrefix(line, "+")
    ensures c != '@' ==> !HasPrefix(line, "@@ ")
    ensures HasPrefix(line, "-") <==> c == '-'
    ensures HasPrefix(line, "+") <==> c == '+'
    ensures HasPrefix(line, "\\") <==> c == '\\'
  {
    assert "+++ "[0] == '+' && "+"[0] == '+' && "@@ "[0] == '@' && "-"[0] == '-' && "\\"[0] == '\\';
  }

  lemma Shift(c: char, p: string, text: string)
    ensures [c] + p <= [c] + text <==> p <= text
  {
    if [c] + p <= [c] + text {
      assert ([c] + text)[1..] == text && ([c] + p)[1..] == p;
      assert forall i :: 0 <= i < |p| ==> p[i] == ([c] + p)[i + 1] == ([c] + text)[i + 1] == text[i];
    }
  }

  predicate Plain(e: Edit) {
    match e
    case Added(t) => !HasPrefix(t, "++")
    case Removed(t) => !HasPrefix(t, "--")
    case _ => true
  }

  function Follow(s: State, e: Edit): State {
    match e
    case Added(_) => State(s.file, s.line + 1, Marked(s.result, s.file, {s.line}))
    case Kept(_) => State(s.file, s.line + 1, s.result)
    case _ => s
  }

  lemma EditRead(absolute: string -> string, s: State, e: Edit)
    requires s.file != "" && Plain(e)
    ensures Step(absolute, s, PrintEdit(e)) == Follow(s, e)
  {
    var line := PrintEdit(e);
    Starts(line, line[0]);
    match e
    case Added(t) =>
      assert !HasPrefix(line, "+++") by { Shift('+', "++", t); }
      assert HasPrefix(line, "+++ ") ==> HasPrefix(line, "+++") by { assert "+++" <= "+++ "; }
    case Removed(t) => assert !HasPrefix(line, "---") by { Shift('-', "--", t); }
    case Kept(_) => assert line[0] == ' ';
    case NoNewline => assert line[0] == '\\';
  }

  // ---- Hunks ----

  lemma MarkedTwice(r: FileLines, f: string, a: set<int>, b: set<int>)
    ensures Marked(Marked(r, f, a), f, b) == Marked(r, f, a + b)
    ensures f in r ==> Marked(r, f, {}) == r
  {
    assert LinesOf(r, f) + a + b == LinesOf(r, f) + (a + b);
    assert LinesOf(r, f) + {} == LinesOf(r, f);
  }

  predicate AllPlain(es: seq<Edit>) { forall i :: 0 <= i < |es| ==> Plain(es[i]) }

  /** A hunk marks the added lines, counting from the number in the state. */
  lemma {:induction false} EditsRead(absolute: string -> string, s: State, es: seq<Edit>)
    requires s.file != "" && s.file in s.result && AllPlain(es)
    ensures Read(absolute, s, PrintEdits(es))
            == State(s.file, s.line + NewLines(es), Marked(s.result, s.file, AddedIn(es, s.line)))
    decreases |es|
  {
    hide Read, PrintEdits, Plain, AddedIn, NewLines, Step, PrintEdit;
    if es == [] {
      NoEditsRead(absolute, s);
      return;
    }
    var e, rest := es[0], es[1..];
    EditRead(absolute, s, e);
    EditsUnfold(absolute, s, e, rest);
    assert es == [e] + rest && AllPlain(rest);
    var t := Follow(s, e);
    EditsRead(absolute, t, rest);
    MarkedTwice(s.result, s.file, {s.line}, AddedIn(rest, t.line));
    assert {} + AddedIn(rest, t.line) == AddedIn(rest, t.line);
  }

  lemma NoEditsRead(absolute: string -> string, s: State)
    ensures Read(absolute, s, PrintEdits([])) == s && NewLines([]) == 0
    ensures s.file in s.result ==> Marked(s.result, s.file, AddedIn([], s.line)) == s.result
  {
    MarkedTwice(s.result, s.file, {}, {});
  }

  lemma EditsUnfold(absolute: string -> string, s: State, e: Edit, rest: seq<Edit>)
    ensures Read(absolute, s, PrintEdits([e] + rest))
            == Read(absolute, Step(absolute, s, PrintEdit(e)), PrintEdits(rest))
    ensures NewLines([e] + rest) == (if e.Kept? || e.Added? then 1 else 0) + NewLines(rest)
    ensures AddedIn([e] + rest, s.line) == (if e.Added? then {s.line} else {})
                                           + AddedIn(rest, s.line + if e.Kept? || e.Added? then 1 else 0)
  {
    hide PrintEdit, Step;
    assert ([e] + rest)[1..] == rest;
    assert PrintEdits([e] + rest)[1..] == PrintEdits(rest);
  }

  predicate Fits(before: nat, seg: Segment) { NewStart(before, seg) < 0x8000_0000_0000_0000 }

  lemma UpToSplit(a: string, c: char, b: string)
    requires c !in a
    ensures UpTo(a + [c] + b, c) == a && UpTo(a, c) == a
  {
    IndexSplit(a, c, b);
    assert (a + [c] + b)[..|a|] == a;
  }

  lemma RangeStart(start: nat, count: nat)
    requires start < 0x8000_0000_0000_0000
    ensures ' ' !in Range(start, count) && '+' !in Range(start, count)
            && NumberOr0(UpTo(Range(start, count), ',')) == start
  {
    assert ',' !in Itoa(start);
    UpToSplit(Itoa(start), ',', Itoa(count));
    AtoiItoa(start);
    assert count != 1 ==> Range(start, count) == Itoa(start) + "," + Itoa(count);
    assert count == 1 ==> Range(start, count) == Itoa(start);
  }

  lemma NoPlus(start: nat, count: nat)
    ensures '+' !in Range(start, count)
  {
    assert forall c :: c in Range(start, count) ==> c in Itoa(start) || c == ',' || c in Itoa(count);
  }

  lemma HeaderShape(line: string, front: string, range: string, section: string)
    requires line == "@@ " + front + "+" + range + " " + section && '+' !in front && ' ' !in range
    ensures HasPrefix(line, "@@ ") && ParseHunkHeader(line) == NumberOr0(UpTo(range, ','))
  {
    hide NumberOr0, UpTo;
    var back := range + " " + section;
    assert line == "@@ " + (front + "+" + back);
    assert line[3..] == front + "+" + back;
    IndexSplit(front, '+', back);
    assert line[3..][|front| + 1..] == back;
    UpToSplit(range, ' ', section);
  }

  /** The reader finds the start of the new range, and it is the number of the hunk's first new line. */
  lemma HeaderRead(before: nat, seg: Segment)
    requires Fits(before, seg)
    ensures HasPrefix(Header(before, seg), "@@ ") && ParseHunkHeader(Header(before, seg)) == NewStart(before, seg)
  {
    var start, count := NewStart(before, seg), NewLines(seg.edits);
    var range, oldRange := Range(start, count), Range(seg.oldStart, OldLines(seg.edits));
    NoPlus(seg.oldStart, OldLines(seg.edits));
    RangeStart(start, count);
    hide Range, NewLines, OldLines, NewStart, NumberOr0, UpTo, ParseHunkHeader;
    HeaderShape(Header(before, seg), "-" + oldRange + " ", range, "@@" + seg.section);
  }

  predicate AllFit(before: nat, segs: seq<Segment>)
    decreases |segs|
  {
    segs == []
    || (Fits(before, segs[0]) && AllPlain(segs[0].edits)
        && AllFit(before + segs[0].skipped + NewLines(segs[0].edits), segs[1..]))
  }

  lemma HeaderStep(absolute: string -> string, s: State, before: nat, seg: Segment)
    requires Fits(before, seg)
    ensures Step(absolute, s, Header(before, seg)) == State(s.file, NewStart(before, seg), s.result)
  {
    HeaderRead(before, seg);
    hide Range;
    var h := Header(before, seg);
    assert h[0] == '@' && "+++ "[0] == '+';
  }

  lemma {:induction false} NothingAdded(es: seq<Edit>, n: int)
    requires NewLines(es) == 0
    ensures AddedIn(es, n) == {}
    decreases |es|
  {
    if es != [] { NothingAdded(es[1..], n); }
  }

  lemma SegmentRead(absolute: string -> string, s: State, before: nat, seg: Segment)
    requires s.file != "" && s.file in s.result && Fits(before, seg) && AllPlain(seg.edits)
    ensures var t := Read(absolute, s, [Header(before, seg)] + PrintEdits(seg.edits));
            t.file == s.file && t.result == Marked(s.result, s.file, AddedIn(seg.edits, before + seg.skipped + 1))
  {
    hide Read, Header, PrintEdits, Step, Fits, AllPlain;
    HeaderStep(absolute, s, before, seg);
    ReadOne(absolute, s, Header(before, seg));
    ReadAppend(absolute, s, [Header(before, seg)], PrintEdits(seg.edits));
    EditsRead(absolute, State(s.file, NewStart(before, seg), s.result), seg.edits);
    if NewLines(seg.edits) == 0 {
      NothingAdded(seg.edits, NewStart(before, seg));
      NothingAdded(seg.edits, before + seg.skipped + 1);
    }
  }

  lemma SegmentsUnfold(before: nat, segs: seq<Segment>, after: nat)
    requires segs != [] && after == before + segs[0].skipped + NewLines(segs[0].edits)
    ensures PrintSegments(before, segs)
            == [Header(before, segs[0])] + PrintEdits(segs[0].edits) + PrintSegments(after, segs[1..])
    ensures AddedLines(before, segs)
            == AddedIn(segs[0].edits, before + segs[0].skipped + 1) + AddedLines(after, segs[1..])
    ensures AllFit(before, segs) ==> Fits(before, segs[0]) && AllPlain(segs[0].edits) && AllFit(after, segs[1..])
  {
    hide Header, PrintEdits, NewLines, AddedIn, Fits, AllPlain;
  }

  lemma NoSegmentsRead(absolute: string -> string, s: State, before: nat)
    ensures Read(absolute, s, PrintSegments(before, [])) == s
    ensures s.file in s.result ==> Marked(s.result, s.file, AddedLines(before, [])) == s.result
  {
    MarkedTwice(s.result, s.file, {}, {});
  }

  /**
   The hunks of a file mark its added lines at their numbers in the whole new file, however much context they show.
   */
  lemma {:induction false} SegmentsRead(absolute: string -> string, s: State, before: nat, segs: seq<Segment>)
    requires s.file != "" && s.file in s.result && AllFit(before, segs)
    ensures var t := Read(absolute, s, PrintSegments(before, segs));
            t.file == s.file && t.result == Marked(s.result, s.file, AddedLines(before, segs))
    decreases |segs|
  {
    hide *;
    if segs == [] {
      NoSegmentsRead(absolute, s, before);
      return;
    }
    var seg, rest := segs[0], segs[1..];
    var after := before + seg.skipped + NewLines(seg.edits);
    var lines := [Header(before, seg)] + PrintEdits(seg.edits);
    SegmentsUnfold(before, segs, after);
    SegmentRead(absolute, s, before, seg);
    ReadAppend(absolute, s, lines, PrintSegments(after, rest));
    var t := Read(absolute, s, lines);
    StillThere(s, AddedIn(seg.edits, before + seg.skipped + 1));
    SegmentsRead(absolute, t, after, rest);
    MarkedTwice(s.result, s.file, AddedIn(seg.edits, before + seg.skipped + 1), AddedLines(after, rest));
  }

  lemma StillThere(s: State, a: set<int>)
    ensures s.file in Marked(s.result, s.file, a)
  {
  }

  // ---- Files ----

  /** Without a file nothing is marked. */
  lemma {:induction false} NoFileEdits(absolute: string -> string, s: State, es: seq<Edit>)
    requires s.file == "" && AllPlain(es)
    ensures Read(absolute, s, PrintEdits(es)).file == "" && Read(absolute, s, PrintEdits(es)).result == s.result
    decreases |es|
  {
    if es != [] {
      var e, rest := es[0], es[1..];
      EditsUnfold(absolute, s, e, rest);
      assert es == [e] + rest;
      var t := Step(absolute, s, PrintEdit(e));
      NoFileEdit(absolute, s, e);
      hide Read, PrintEdits, Step, PrintEdit;
      NoFileEdits(absolute, t, rest);
    }
  }

  lemma NoFileEdit(absolute: string -> string, s: State, e: Edit)
    requires s.file == "" && Plain(e)
    ensures var t := Step(absolute, s, PrintEdit(e)); t.file == "" && t.result == s.result
  {
    var line := PrintEdit(e);
    Starts(line, line[0]);
    if e.Added? {
      assert !HasPrefix(line, "+++") by { Shift('+', "++", e.text); }
      assert HasPrefix(line, "+++ ") ==> HasPrefix(line, "+++") by { assert "+++" <= "+++ "; }
    }
  }

  lemma {:induction false} NoFileRead(absolute: string -> string, s: State, before: nat, segs: seq<Segment>)
    requires s.file == "" && AllFit(before, segs)
    ensures var t := Read(absolute, s, PrintSegments(before, segs)); t.file == "" && t.result == s.result
    decreases |segs|
  {
    hide *;
    if segs == [] {
      NoSegmentsRead(absolute, s, before);
      return;
    }
    var seg, rest := segs[0], segs[1..];
    var after := before + seg.skipped + NewLines(seg.edits);
    var head, body := [Header(before, seg)], PrintEdits(seg.edits);
    SegmentsUnfold(before, segs, after);
    HeaderStep(absolute, s, before, seg);
    ReadOne(absolute, s, Header(before, seg));
    ReadAppend(absolute, s, head, body);
    ReadAppend(absolute, s, head + body, PrintSegments(after, rest));
    NoFileEdits(absolute, Read(absolute, s, head), seg.edits);
    NoFileRead(absolute, Read(absolute, s, head + body), after, rest);
  }

  lemma ReadOne(absolute: string -> string, s: State, line: string)
    ensures Read(absolute, s, [line]) == Step(absolute, s, line)
  {
    assert [line][1..] == [];
  }

  predicate GoodFile(absolute: string -> string, f: FileDiff) {
    AllFit(0, f.segments) && (f.path.Some? ==> f.path.value != "/dev/null" && absolute(f.path.value) != "")
  }

  function FileState(absolute: string -> string, s: State, f: FileDiff, line: int): State {
    match f.path
    case None => State("", line, s.result)
    case Some(p) => State(absolute(p), line, s.result[absolute(p) := LinesOf(s.result, absolute(p))])
  }

  /** The lines for git and for the old file change neither file nor result. */
  lemma OpeningRead(absolute: string -> string, s: State, f: FileDiff)
    ensures var t := Step(absolute, Step(absolute, s, GitLine(f)), OldLine(f));
            t.file == s.file && t.result == s.result
  {
    var git, minus := GitLine(f), OldLine(f);
    Starts(git, 'd');
    Starts(minus, '-');
    assert "---" <= "--- a/" <= minus;
  }

  lemma NewLineRead(absolute: string -> string, s: State, f: FileDiff)
    requires GoodFile(absolute, f)
    ensures Step(absolute, s, NewLine(f)) == FileState(absolute, s, f, s.line)
  {
    var line, rest := NewLine(f), if f.path.Some? then "b/" + f.path.value else "/dev/null";
    assert HasPrefix(line, "+++ ") && line[4..] == rest;
    PathRead(f.path);
  }

  /** The three lines in front of the hunks open the file. */
  lemma FileHeaderRead(absolute: string -> string, s: State, f: FileDiff) returns (line: int)
    requires GoodFile(absolute, f)
    ensures Read(absolute, s, PrintFile(f))
            == Read(absolute, FileState(absolute, s, f, line), PrintSegments(0, f.segments))
  {
    OpeningRead(absolute, s, f);
    var t := Step(absolute, Step(absolute, s, GitLine(f)), OldLine(f));
    line := t.line;
    NewLineRead(absolute, t, f);
    assert FileState(absolute, t, f, line) == FileState(absolute, s, f, line);
    hide Step, FileState, PrintSegments, GitLine, OldLine, NewLine, GoodFile;
    ReadThree(absolute, s, GitLine(f), OldLine(f), NewLine(f), PrintSegments(0, f.segments));
  }

  lemma PathRead(path: Option<string>)
    ensures TrimPrefix(if path.Some? then "b/" + path.value else "/dev/null", "b/") == if path.Some? then path.value
            else "/dev/null"
  {
    if path.Some? {
      assert ("b/" + path.value)[2..] == path.value;
    } else {
      assert "/dev/null"[0] == '/' && "b/"[0] == 'b';
    }
  }

  lemma ReadThree(absolute: string -> string, s: State, a: string, b: string, c: string, rest: seq<string>)
    ensures Read(absolute, s, [a] + ([b] + ([c] + rest)))
         == Read(absolute, Step(absolute, Step(absolute, Step(absolute, s, a), b), c), rest)
  {
    ReadOne(absolute, s, a);
    ReadOne(absolute, Step(absolute, s, a), b);
    ReadOne(absolute, Step(absolute, Step(absolute, s, a), b), c);
    ReadAppend(absolute, s, [a], [b] + ([c] + rest));
    ReadAppend(absolute, Step(absolute, s, a), [b], [c] + rest);
    ReadAppend(absolute, Step(absolute, Step(absolute, s, a), b), [c], rest);
  }

  function WithFile(absolute: string -> string, r: FileLines, f: FileDiff): FileLines {
    match f.path
    case None => r
    case Some(p) => Marked(r, absolute(p), AddedLines(0, f.segments))
  }

  lemma FileRead(absolute: string -> string, s: State, f: FileDiff)
    requires GoodFile(absolute, f)
    ensures Read(absolute, s, PrintFile(f)).result == WithFile(absolute, s.result, f)
  {
    var line := FileHeaderRead(absolute, s, f);
    var t := FileState(absolute, s, f, line);
    hide Read, PrintFile, PrintSegments, AllFit, AddedLines;
    if f.path.None? {
      NoFileRead(absolute, t, 0, f.segments);
    } else {
      SegmentsRead(absolute, t, 0, f.segments);
    }
  }

  /** The added lines of every file that still exists, by absolute path. */
  function AddedFiles(absolute: string -> string, r: FileLines, fs: seq<FileDiff>): FileLines
    decreases |fs|
  {
    if fs == [] then r else AddedFiles(absolute, WithFile(absolute, r, fs[0]), fs[1..])
  }

  lemma {:induction false} FilesRead(absolute: string -> string, s: State, fs: seq<FileDiff>)
    requires forall i :: 0 <= i < |fs| ==> GoodFile(absolute, fs[i])
    ensures Read(absolute, s, PrintDiff(fs)).result == AddedFiles(absolute, s.result, fs)
    decreases |fs|
  {
    if fs != [] {
      assert GoodFile(absolute, fs[0]);
      hide GoodFile, PrintFile, WithFile;
      FileRead(absolute, s, fs[0]);
      ReadAppend(absolute, s, PrintFile(fs[0]), PrintDiff(fs[1..]));
      FilesRead(absolute, Read(absolute, s, PrintFile(fs[0])), fs[1..]);
    }
  }

  /** Printing edit scripts with any context and reading them back marks exactly the added lines of the new files. */
  lemma DiffRoundTrip(absolute: string -> string, fs: seq<FileDiff>)
    requires forall i :: 0 <= i < |fs| ==> GoodFile(absolute, fs[i])
    ensures Read(absolute, State("", 0, map[]), PrintDiff(fs)).result == AddedFiles(absolute, map[], fs)
  {
    FilesRead(absolute, State("", 0, map[]), fs);
  }
}
