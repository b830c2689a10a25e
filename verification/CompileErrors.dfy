/** Compiler output: reading it, and charging each error to the mutant whose block it lies in. */
module CompileErrors {
  import opened Wrappers
  import opened Text

  datatype CompilerError = CompilerError(file: string, line: GoInt, col: GoInt, message: string)

  // ---- Reading ----

  /** What stands before the last colon, and the number after it. */
  function SplitLastInt(s: string): Option<(string, GoInt)> {
    match LastIndex(s, ':')
    case None => None
    case Some(i) =>
      match Atoi(s[i + 1..])
      case None => None
      case Some(n) => Some((s[..i], n))
  }

  function ParseCompilerErrorLine(line: string): Option<CompilerError> {
    match IndexColonSpace(line)
    case None => None
    case Some(i) =>
      match SplitLastInt(line[..i])
      case None => None
      case Some((rest, col)) =>
        match SplitLastInt(rest)
        case None => None
        case Some((file, n)) => Some(CompilerError(file, n, col, line[i + 2..]))
  }

  predicate Skipped(line: string) { line == "" || HasSuffix(line, "too many errors") || HasPrefix(line, "# ") }

  /** The errors of an output that has been split into lines. */
  function ErrorsIn(lines: seq<string>): seq<CompilerError> {
    if lines == [] then [] else
      var last := TrimSpace(lines[|lines| - 1]);
      var init := ErrorsIn(lines[..|lines| - 1]);
      if Skipped(last) then init else
        match ParseCompilerErrorLine(last)
        case None => init
        case Some(e) => init + [e]
  }

  method ParseCompilerErrors(lines: seq<string>) returns (errors: seq<CompilerError>)
    ensures errors == ErrorsIn(lines)
  {
    errors := [];
    for i := 0 to |lines|
      invariant errors == ErrorsIn(lines[..i])
    {
      assert lines[..i + 1][..i] == lines[..i];
      var line := TrimSpace(lines[i]);
      if line == "" || HasSuffix(line, "too many errors") { continue; }
      if HasPrefix(line, "# ") { continue; }
      match ParseCompilerErrorLine(line) {
        case None =>
        case Some(e) => errors := errors + [e];
      }
    }
    assert lines[..|lines|] == lines;
  }

  function Location(e: CompilerError): string { e.file + ":" + Itoa(e.line) + ":" + Itoa(e.col) }

  /** The compiler's own format, in which errors are also quoted back to the user. */
  function Print(e: CompilerError): string { Location(e) + COLON_SPACE + e.message }

  lemma SplitLastIntPrinted(s: string, n: GoInt)
    ensures SplitLastInt(s + ":" + Itoa(n)) == Some((s, n))
  {
    LastIndexSplit(s, ':', Itoa(n));
    AtoiItoa(n);
    var t := s + ":" + Itoa(n);
    assert t[..|s|] == s && t[|s| + 1..] == Itoa(n);
  }

  lemma NoSpaceAppended(a: string, b: string)
    requires ' ' !in b
    ensures HasColonSpace(a + b) <==> HasColonSpace(a)
  {
    var s := a + b;
    assert forall j :: |a| <= j < |s| ==> s[j] in b;
    assert forall i: nat :: ColonSpaceAt(s, i) ==> ColonSpaceAt(a, i);
    assert forall i: nat :: ColonSpaceAt(a, i) ==> ColonSpaceAt(s, i);
  }

  lemma LocationReadBack(e: CompilerError)
    ensures HasColonSpace(Location(e)) <==> HasColonSpace(e.file)
    ensures SplitLastInt(Location(e)) == Some((e.file + ":" + Itoa(e.line), e.col))
    ensures SplitLastInt(e.file + ":" + Itoa(e.line)) == Some((e.file, e.line))
  {
    hide Itoa, SplitLastInt, HasColonSpace;
    var tail := ":" + Itoa(e.line) + ":" + Itoa(e.col);
    assert Location(e) == e.file + tail;
    NoSpaceAppended(e.file, tail);
    SplitLastIntPrinted(e.file + ":" + Itoa(e.line), e.col);
    SplitLastIntPrinted(e.file, e.line);
  }

  /** A printed error is read back as it was exactly when its file name does not contain a colon and a space. */
  lemma PrintedLineRoundTrip(e: CompilerError)
    ensures ParseCompilerErrorLine(Print(e)) == Some(e) <==> !HasColonSpace(e.file)
  {
    var loc, line := Location(e), Print(e);
    LocationReadBack(e);
    IndexColonSpaceSplit(loc, e.message);
    hide Itoa, SplitLastInt, HasColonSpace, Location;
    assert line[..|loc|] == loc && line[|loc| + 2..] == e.message;
    assert ColonSpaceAt(line, |loc|);
  }

  /** A printed error that the reader does not skip or trim. */
  predicate PrintsAs(e: CompilerError, line: string) {
    line == Print(e) && !HasColonSpace(e.file) && Trimmed(line) && !Skipped(line)
  }

  lemma PrintedLast(es: seq<CompilerError>, e: CompilerError, lines: seq<string>, line: string)
    requires ErrorsIn(lines) == es && PrintsAs(e, line)
    ensures ErrorsIn(lines + [line]) == es + [e]
  {
    PrintedLineRoundTrip(e);
    TrimSpaceTrimmed(line);
    hide Print, Skipped, Trimmed, TrimSpace, ParseCompilerErrorLine, HasColonSpace;
    assert (lines + [line])[..|lines|] == lines;
  }

  predicate PrintAsAll(es: seq<CompilerError>, lines: seq<string>) {
    if es == [] || lines == [] then es == [] && lines == []
    else PrintsAs(es[|es| - 1], lines[|lines| - 1]) && PrintAsAll(es[..|es| - 1], lines[..|lines| - 1])
  }

  lemma PrintAsAllUnfold(es: seq<CompilerError>, lines: seq<string>)
    requires PrintAsAll(es, lines)
    ensures es == [] <==> lines == []
    ensures es == [] ==> ErrorsIn(lines) == es
    ensures es != [] ==> PrintsAs(es[|es| - 1], lines[|lines| - 1]) && PrintAsAll(es[..|es| - 1], lines[..|lines| - 1])
  {
    hide PrintsAs;
  }

  /** Errors printed one to a line are read back whole. */
  lemma {:induction false} PrintedErrorsRoundTrip(es: seq<CompilerError>, lines: seq<string>)
    requires PrintAsAll(es, lines)
    ensures ErrorsIn(lines) == es
    decreases |es|
  {
    hide *;
    PrintAsAllUnfold(es, lines);
    if es != [] {
      var init, e, rest, line := es[..|es| - 1], es[|es| - 1], lines[..|lines| - 1], lines[|lines| - 1];
      PrintedErrorsRoundTrip(init, rest);
      PrintedLast(init, e, rest, line);
      assert es == init + [e] && lines == rest + [line];
    }
  }

  // ---- Charging ----

  /** The lines of the block guarded by one mutant's id. */
  datatype Span = Span(start: nat, end: nat, id: nat)

  predicate Covers(s: Span, line: int) { s.start <= line <= s.end }

  /** `s` is the covering span with the greatest start. */
  predicate IsInnermost(spans: seq<Span>, line: int, s: Span) {
    s in spans && Covers(s, line) && forall t :: t in spans && Covers(t, line) ==> t.start <= s.start
  }

  method InnermostSpan(spans: seq<Span>, line: int) returns (best: Option<Span>)
    ensures best.None? <==> forall s :: s in spans ==> !Covers(s, line)
    ensures best.Some? ==> IsInnermost(spans, line, best.value)
    ensures best == Innermost(spans, line)
  {
    best := None;
    var bestStart: int := -1;
    for i := 0 to |spans|
      invariant best == Innermost(spans[..i], line)
      invariant bestStart == if best.None? then -1 else best.value.start
      invariant best.None? <==> forall s :: s in spans[..i] ==> !Covers(s, line)
      invariant best.Some? ==> IsInnermost(spans[..i], line, best.value)
    {
      assert spans[..i + 1][..i] == spans[..i];
      var s := spans[i];
      if s.start <= line <= s.end && s.start > bestStart {
        best, bestStart := Some(s), s.start;
      }
    }
    assert spans[..|spans|] == spans;
  }

  /** The first span of the list among those with the greatest covering start. */
  function Innermost(spans: seq<Span>, line: int): Option<Span> {
    if spans == [] then None else
      var s, best := spans[|spans| - 1], Innermost(spans[..|spans| - 1], line);
      if Covers(s, line) && (best.None? || best.value.start < s.start) then Some(s) else best
  }

  lemma {:induction false} InnermostIsInnermost(spans: seq<Span>, line: int)
    ensures Innermost(spans, line).None? <==> forall s :: s in spans ==> !Covers(s, line)
    ensures Innermost(spans, line).Some? ==> IsInnermost(spans, line, Innermost(spans, line).value)
  {
    if spans != [] {
      var init, s := spans[..|spans| - 1], spans[|spans| - 1];
      InnermostIsInnermost(init, line);
      assert spans == init + [s];
    }
  }

  ghost predicate StartsDiffer(spans: seq<Span>) {
    forall s, t :: s in spans && t in spans && s.start == t.start ==> s == t
  }

  /** When the starts differ, the answer does not depend on the order in which the spans are listed. */
  lemma InnermostAnyOrder(spans: seq<Span>, spans': seq<Span>, line: int)
    requires (forall s :: s in spans <==> s in spans') && StartsDiffer(spans)
    ensures Innermost(spans, line) == Innermost(spans', line)
  {
    hide Innermost;
    InnermostIsInnermost(spans, line);
    InnermostIsInnermost(spans', line);
  }

  /** Two blocks of a program: one ends before the other starts, or one lies inside the other. */
  predicate Nested(s: Span, t: Span) {
    s.end < t.start || t.end < s.start || (s.start <= t.start && t.end <= s.end)
        || (t.start <= s.start && s.end <= t.end)
  }

  /** Among nested spans the chosen one lies inside every span that covers the line. */
  lemma InnermostLiesInside(spans: seq<Span>, line: int, s: Span, t: Span)
    requires StartsDiffer(spans) && forall a, b :: a in spans && b in spans ==> Nested(a, b)
    requires IsInnermost(spans, line, s) && t in spans && Covers(t, line)
    ensures t.start <= s.start && s.end <= t.end
  {
    assert Nested(s, t);
  }

  type Spans = map<string, seq<Span>>

  /** The mutant an error is charged to; None for an error of a file without spans or outside all of them. */
  function ChargedTo(resolve: string -> string, spans: Spans, e: CompilerError): Option<nat> {
    var file := resolve(e.file);
    if file !in spans then None else
      match Innermost(spans[file], e.line)
      case None => None
      case Some(s) => Some(s.id)
  }

  /** The errors charged to one mutant (or to nobody), printed, in the order of the output. */
  function LinesFor(resolve: string -> string, spans: Spans, es: seq<CompilerError>, who: Option<nat>): seq<string> {
    if es == [] then [] else
      var e := es[|es| - 1];
      LinesFor(resolve, spans, es[..|es| - 1], who) + if ChargedTo(resolve, spans, e) == who then [Print(e)] else []
  }

  predicate SomeChargedTo(resolve: string -> string, spans: Spans, es: seq<CompilerError>, who: Option<nat>) {
    exists i :: 0 <= i < |es| && ChargedTo(resolve, spans, es[i]) == who
  }

  lemma {:induction false} LinesForSome(resolve: string -> string, spans: Spans, es: seq<CompilerError>,
                                        who: Option<nat>)
    ensures LinesFor(resolve, spans, es, who) != [] <==> SomeChargedTo(resolve, spans, es, who)
  {
    hide ChargedTo, Print;
    if es != [] { LinesForSome(resolve, spans, es[..|es| - 1], who); }
  }

  /** Each error stands under one heading, once. */
  ghost predicate Recorded(resolve: string -> string, spans: Spans, es: seq<CompilerError>,
                           lines: map<nat, seq<string>>, rest: seq<string>) {
    && (forall id: nat :: (if id in lines then lines[id] else []) == LinesFor(resolve, spans, es, Some(id)))
    && (forall id :: id in lines ==> lines[id] != [])
    && rest == LinesFor(resolve, spans, es, None)
  }

  function Appended(lines: map<nat, seq<string>>, id: nat, line: string): map<nat, seq<string>> {
    lines[id := (if id in lines then lines[id] else []) + [line]]
  }

  lemma LinesOneMore(resolve: string -> string, spans: Spans, es: seq<CompilerError>, e: CompilerError,
                     who: Option<nat>)
    ensures LinesFor(resolve, spans, es + [e], who)
         == LinesFor(resolve, spans, es, who) + if ChargedTo(resolve, spans, e) == who then [Print(e)] else []
  {
    hide ChargedTo, Print;
    assert (es + [e])[..|es|] == es;
  }

  lemma RecordRest(resolve: string -> string, spans: Spans, es: seq<CompilerError>, e: CompilerError,
                   lines: map<nat, seq<string>>, rest: seq<string>)
    requires Recorded(resolve, spans, es, lines, rest) && ChargedTo(resolve, spans, e) == None
    ensures Recorded(resolve, spans, es + [e], lines, rest + [Print(e)])
  {
    hide ChargedTo, Print, LinesFor;
    LinesOneMore(resolve, spans, es, e, None);
    forall id: nat ensures LinesFor(resolve, spans, es + [e], Some(id)) == LinesFor(resolve, spans, es, Some(id)) {
      LinesOneMore(resolve, spans, es, e, Some(id));
    }
  }

  lemma RecordCharge(resolve: string -> string, spans: Spans, es: seq<CompilerError>, e: CompilerError, who: nat,
                     lines: map<nat, seq<string>>, rest: seq<string>)
    requires Recorded(resolve, spans, es, lines, rest) && ChargedTo(resolve, spans, e) == Some(who)
    ensures Recorded(resolve, spans, es + [e], Appended(lines, who, Print(e)), rest)
  {
    hide ChargedTo, Print, LinesFor;
    LinesOneMore(resolve, spans, es, e, None);
    LinesOneMore(resolve, spans, es, e, Some(who));
    forall id: nat | id != who ensures LinesFor(resolve, spans, es + [e], Some(id))
        == LinesFor(resolve, spans, es, Some(id)) {
      LinesOneMore(resolve, spans, es, e, Some(id));
    }
  }

  method Charge(resolve: string -> string, spans: Spans, es: seq<CompilerError>)
    returns (lines: map<nat, seq<string>>, rest: seq<string>)
    ensures Recorded(resolve, spans, es, lines, rest)
  {
    lines, rest := map[], [];
    assert Recorded(resolve, spans, [], lines, rest);
    hide Recorded, LinesFor, Print, Innermost;
    for i := 0 to |es|
      invariant Recorded(resolve, spans, es[..i], lines, rest)
    {
      var e := es[i];
      assert es[..i + 1] == es[..i] + [e];
      var file := resolve(e.file);
      if file !in spans {
        RecordRest(resolve, spans, es[..i], e, lines, rest);
        rest := rest + [Print(e)];
        continue;
      }
      var best := InnermostSpan(spans[file], e.line);
      match best {
        case None =>
          RecordRest(resolve, spans, es[..i], e, lines, rest);
          rest := rest + [Print(e)];
        case Some(s) =>
          RecordCharge(resolve, spans, es[..i], e, s.id, lines, rest);
          lines := Appended(lines, s.id, Print(e));
      }
    }
    assert es[..|es|] == es;
  }

  datatype MutantError = OwnErrors(lines: seq<string>) | PackageFailed(lines: seq<string>)

  datatype Attribution = Attribution(perMutant: map<nat, MutantError>, compileFailed: bool)

  /**
   The errors of a package: an error whose block is known fails its mutant, any other error fails the rest of the batch.
   */
  ghost predicate Attributed(resolve: string -> string, spans: Spans, ids: seq<nat>, output: seq<string>,
                             es: seq<CompilerError>, r: Attribution) {
    && (r.compileFailed <==> es == [] || SomeChargedTo(resolve, spans, es, None))
    && (forall id: nat :: id in r.perMutant
          <==> SomeChargedTo(resolve, spans, es, Some(id)) || (r.compileFailed && id in ids))
    && (forall id: nat :: id in r.perMutant ==>
          if SomeChargedTo(resolve, spans, es, Some(id)) then
              r.perMutant[id] == OwnErrors(LinesFor(resolve, spans, es, Some(id)))
          else r.perMutant[id] == PackageFailed(if es == [] then output else LinesFor(resolve, spans, es, None)))
  }

  lemma ChargesAttribute(resolve: string -> string, spans: Spans, ids: seq<nat>, output: seq<string>,
                         es: seq<CompilerError>,
                         lines: map<nat, seq<string>>, rest: seq<string>, r: Attribution)
    requires es != [] && Recorded(resolve, spans, es, lines, rest)
    requires r.compileFailed == (rest != [])
    requires forall id :: id in r.perMutant <==> id in lines || (r.compileFailed && id in ids)
    requires forall id :: id in r.perMutant ==> r.perMutant[id] == if id in lines then OwnErrors(lines[id])
               else PackageFailed(rest)
    ensures Attributed(resolve, spans, ids, output, es, r)
  {
    hide ChargedTo, Print, LinesFor;
    forall who: Option<nat> ensures LinesFor(resolve, spans, es, who) != []
        <==> SomeChargedTo(resolve, spans, es, who) {
      LinesForSome(resolve, spans, es, who);
    }
    hide SomeChargedTo;
  }

  method AttributeCompileErrors(resolve: string -> string, spans: Spans, ids: seq<nat>, output: seq<string>)
    returns (r: Attribution)
    ensures Attributed(resolve, spans, ids, output, ErrorsIn(output), r)
  {
    var es := ParseCompilerErrors(output);
    if es == [] {
      return Attribution(map id | id in ids :: PackageFailed(output), true);
    }
    var lines, rest := Charge(resolve, spans, es);
    hide *;
    var own := map id | id in lines :: OwnErrors(lines[id]);
    r := Attribution(if rest == [] then own else (map id | id in ids :: PackageFailed(rest)) + own, rest != []);
    ChargesAttribute(resolve, spans, ids, output, es, lines, rest, r);
  }
}
