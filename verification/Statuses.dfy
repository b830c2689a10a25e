/** The order of statuses, and how execution results are folded into one status per mutant. */
module Statuses {
  import opened Wrappers
  import opened Mutants
  import opened Selection

  function Rank(s: Status): nat {
    match s
    case Blank => 0
    case Untested => 1
    case Survived => 2
    case Error => 3
    case Timeout => 4
    case Killed => 5
    case Invalid => 6
    case Unknown(_) => 0
  }

  predicate ShouldUpdate(current: Status, incoming: Status) {
    if current == Invalid || current == Killed then false else Rank(incoming) >= Rank(current)
  }

  function Merge(current: Status, incoming: Status): Status {
    if ShouldUpdate(current, incoming) then incoming else current
  }

  function Fold(current: Status, incoming: seq<Status>): Status
    decreases |incoming|
  {
    if incoming == [] then current else Fold(Merge(current, incoming[0]), incoming[1..])
  }

  /** The statuses that running a test binary can produce. */
  predicate Arrival(s: Status) { s in {Untested, Survived, Error, Timeout, Killed} }

  predicate Arrivals(incoming: seq<Status>) { forall i :: 0 <= i < |incoming| ==> Arrival(incoming[i]) }

  /** The fold never lowers the rank, and never leaves killed or invalid. */
  lemma {:induction false} FoldClimbs(current: Status, incoming: seq<Status>)
    ensures Rank(Fold(current, incoming)) >= Rank(current)
    ensures current == Killed || current == Invalid ==> Fold(current, incoming) == current
    decreases |incoming|
  {
    if incoming != [] { FoldClimbs(Merge(current, incoming[0]), incoming[1..]); }
  }

  /** Moving one arrival to the front changes nothing. */
  lemma {:induction false} FoldToFront(current: Status, l: seq<Status>, x: Status, r: seq<Status>)
    requires Arrivals(l) && Arrival(x)
    ensures Fold(current, l + [x] + r) == Fold(Merge(current, x), l + r)
    decreases |l|
  {
    if l == [] {
      assert (l + [x] + r)[1..] == r && l + r == r;
    } else {
      var y, l' := l[0], l[1..];
      assert (l + [x] + r)[1..] == l' + [x] + r;
      assert (l + r)[1..] == l' + r;
      FoldToFront(Merge(current, y), l', x, r);
      assert Arrival(y);
      assert Merge(Merge(current, y), x) == Merge(Merge(current, x), y);
    }
  }

  /** The final status does not depend on the order of arrival. */
  lemma {:induction false} FoldAnyOrder(current: Status, incoming: seq<Status>, incoming': seq<Status>)
    requires Arrivals(incoming) && multiset(incoming) == multiset(incoming')
    ensures Fold(current, incoming) == Fold(current, incoming')
    decreases |incoming|
  {
    if incoming == [] {
      assert |multiset(incoming')| == 0;
    } else {
      var x, rest := incoming[0], incoming[1..];
      assert incoming == [x] + rest;
      var l, r := TakeOut(x, rest, incoming');
      assert Arrivals(l) by {
        forall i | 0 <= i < |l| ensures Arrival(l[i]) { assert l[i] in multiset(incoming') && l[i] in incoming; }
      }
      FoldToFront(current, l, x, r);
      FoldAnyOrder(Merge(current, x), rest, l + r);
    }
  }

  /** With a preflight status among the arrivals the order would matter; results never carry it. */
  lemma InvalidWouldDependOnOrder()
    ensures Fold(Blank, [Killed, Invalid]) == Killed && Fold(Blank, [Invalid, Killed]) == Invalid
  {
    assert [Killed, Invalid][1..] == [Invalid] && [Invalid, Killed][1..] == [Killed];
  }

  function MaxRank(rank: nat, incoming: seq<Status>): nat
    decreases |incoming|
  {
    if incoming == [] then rank
    else MaxRank(if Rank(incoming[0]) > rank then Rank(incoming[0]) else rank, incoming[1..])
  }

  /** A mutant that is neither killed nor invalid ends with the highest rank it started with or saw. */
  lemma {:induction false} FoldIsMax(current: Status, incoming: seq<Status>)
    requires Arrivals(incoming) && current != Invalid
    ensures Rank(Fold(current, incoming)) == MaxRank(Rank(current), incoming)
    ensures Fold(current, incoming) == Killed <==> current == Killed || Killed in incoming
    decreases |incoming|
  {
    if incoming != [] {
      assert Arrival(incoming[0]);
      FoldIsMax(Merge(current, incoming[0]), incoming[1..]);
    }
  }

  // ---- Classifying one run ----

  /** A line of verbose test output: a test started, a test failed (with its name), or anything else. */
  datatype Line = RunLine | FailLine(name: string) | OtherLine

  const RUN: string := "=== RUN   "
  const FAIL: string := "--- FAIL: "

  predicate IsIndent(c: char) { c == ' ' || c == '\t' }

  function Unindented(s: string): string { if s != "" && IsIndent(s[0]) then Unindented(s[1..]) else s }

  /** The length of the text before a space that is followed by an opening parenthesis. */
  function BeforeDuration(s: string): Option<nat> {
    if |s| < 2 then None
    else if s[0] == ' ' && s[1] == '(' then Some(0)
    else
      match BeforeDuration(s[1..])
      case None => None
      case Some(i) => Some(i + 1)
  }

  function BeforeBlank(s: string): Option<nat> {
    if s == "" then None
    else if IsIndent(s[0]) then Some(0)
    else
      match BeforeBlank(s[1..])
      case None => None
      case Some(i) => Some(i + 1)
  }

  /** The name on a failure line ends before the duration, or, without one, before the first blank. */
  function ParseFailLineName(rest: string): string {
    var duration, blank := BeforeDuration(rest), BeforeBlank(rest);
    if duration.Some? && 0 < duration.value <= |rest| then rest[..duration.value]
    else if blank.Some? && 0 < blank.value <= |rest| then rest[..blank.value]
    else rest
  }

  function ReadLine(text: string): Line {
    var s := Unindented(text);
    if RUN <= s then RunLine
    else if FAIL <= s then FailLine(ParseFailLineName(s[|FAIL|..]))
    else OtherLine
  }

  function ReadLines(texts: seq<string>): (r: seq<Line>)
    ensures |r| == |texts|
  {
    if texts == [] then [] else [ReadLine(texts[0])] + ReadLines(texts[1..])
  }

  lemma {:induction false} NameEnds(name: string, rest: string)
    requires forall i :: 0 <= i < |name| ==> !IsIndent(name[i])
    ensures BeforeDuration(name + " (" + rest) == Some(|name|)
    ensures BeforeBlank(name + " " + rest) == Some(|name|)
    decreases |name|
  {
    var s, t := name + " (" + rest, name + " " + rest;
    if name != "" {
      NameEnds(name[1..], rest);
      assert s[1..] == name[1..] + " (" + rest && t[1..] == name[1..] + " " + rest;
      assert s[0] == name[0];
    }
  }

  lemma {:induction false} IndentIgnored(indent: string, s: string)
    requires (forall i :: 0 <= i < |indent| ==> IsIndent(indent[i])) && s != "" && !IsIndent(s[0])
    ensures Unindented(indent + s) == s
    decreases |indent|
  {
    if indent == "" {
      assert indent + s == s;
    } else {
      IndentIgnored(indent[1..], s);
      assert (indent + s)[1..] == indent[1..] + s;
    }
  }

  lemma ReadFail(text: string, rest: string)
    requires Unindented(text) == FAIL + rest
    ensures ReadLine(text) == FailLine(ParseFailLineName(rest))
  {
    hide Unindented, ParseFailLineName;
    var s := FAIL + rest;
    assert s[0] == '-' && RUN[0] == '=';
    assert s[|FAIL|..] == rest;
  }

  lemma NameParsed(name: string, rest: string)
    requires name != "" && forall i :: 0 <= i < |name| ==> !IsIndent(name[i])
    ensures ParseFailLineName(name + " (" + rest) == name
  {
    NameEnds(name, rest);
    hide BeforeDuration, BeforeBlank;
    assert (name + " (" + rest)[..|name|] == name;
  }

  /** A failure line, however deeply indented, is read back with the name of its test. */
  lemma FailLineReadBack(indent: string, name: string, duration: string)
    requires forall i :: 0 <= i < |indent| ==> indent[i] == ' ' || indent[i] == '\t'
    requires name != "" && forall i :: 0 <= i < |name| ==> !IsIndent(name[i])
    ensures ReadLine(indent + (FAIL + (name + " (" + duration))) == FailLine(name)
  {
    hide ReadLine, Unindented, ParseFailLineName;
    var line := FAIL + (name + " (" + duration);
    assert line[0] == '-';
    IndentIgnored(indent, line);
    ReadFail(indent + line, name + " (" + duration);
    NameParsed(name, duration);
  }

  lemma {:induction false} NoDuration(s: string)
    requires forall i :: 0 <= i < |s| ==> s[i] != '('
    ensures BeforeDuration(s).None?
    decreases |s|
  {
    if |s| >= 2 { NoDuration(s[1..]); }
  }

  lemma {:induction false} BlankAt(name: string, rest: string)
    requires forall i :: 0 <= i < |name| ==> !IsIndent(name[i])
    requires rest == "" || IsIndent(rest[0])
    ensures BeforeBlank(name + rest) == if rest == "" then None else Some(|name|)
    decreases |name|
  {
    if name == "" {
      assert name + rest == rest;
    } else {
      BlankAt(name[1..], rest);
      assert (name + rest)[1..] == name[1..] + rest && (name + rest)[0] == name[0];
    }
  }

  /** Without a duration the name ends at the first blank or at the end of the line. */
  lemma NameWithoutDuration(name: string, rest: string)
    requires name != "" && forall i :: 0 <= i < |name| ==> !IsIndent(name[i])
    requires (rest == "" || IsIndent(rest[0])) && forall i :: 0 <= i < |name + rest| ==> (name + rest)[i] != '('
    ensures ParseFailLineName(name + rest) == name
  {
    NoDuration(name + rest);
    BlankAt(name, rest);
    hide BeforeDuration, BeforeBlank;
    assert (name + rest)[..|name|] == name;
    if rest == "" { assert name + rest == name; }
  }

  /** Blanks and tabs only. */
  predicate Indent(s: string) { forall i :: 0 <= i < |s| ==> s[i] == ' ' || s[i] == '\t' }

  lemma {:induction false} UnindentedSplits(text: string) returns (indent: string)
    ensures Indent(indent) && text == indent + Unindented(text)
    decreases |text|
  {
    indent := "";
    if text != "" && IsIndent(text[0]) {
      var rest := UnindentedSplits(text[1..]);
      indent := [text[0]] + rest;
    }
  }

  ghost predicate Starts(text: string, mark: string) {
    exists indent: string, rest: string :: Indent(indent) && text == indent + (mark + rest)
  }

  lemma StartsIff(text: string, mark: string)
    requires mark != "" && !IsIndent(mark[0])
    ensures Starts(text, mark) <==> mark <= Unindented(text)
  {
    hide Unindented;
    if Starts(text, mark) {
      var indent: string, rest: string :| Indent(indent) && text == indent + (mark + rest);
      assert (mark + rest)[0] == mark[0];
      IndentIgnored(indent, mark + rest);
    }
    if mark <= Unindented(text) {
      var indent := UnindentedSplits(text);
      assert Unindented(text) == mark + Unindented(text)[|mark|..];
    }
  }

  /** A line reports a started or a failed test exactly if it begins, after any indentation, with the mark of one. */
  lemma ReadLineIff(text: string)
    ensures ReadLine(text).RunLine? <==> Starts(text, "=== RUN   ")
    ensures ReadLine(text).FailLine? <==> Starts(text, "--- FAIL: ")
  {
    hide Unindented, Starts, ParseFailLineName;
    assert RUN == "=== RUN   " && FAIL == "--- FAIL: ";
    StartsIff(text, RUN);
    StartsIff(text, FAIL);
  }

  datatype RunResult = RunResult(status: Status, killedBy: string)

  /** The first name on a failure line that has one. */
  function FirstFail(lines: seq<Line>): string
    decreases |lines|
  {
    if lines == [] then ""
    else if lines[0].FailLine? && lines[0].name != "" then lines[0].name
    else FirstFail(lines[1..])
  }

  /** A timeout beats everything, a failed test beats the exit code, and without a test run nothing was tested. */
  function Classified(lines: seq<Line>, exitError: bool, deadlineExceeded: bool): RunResult {
    if deadlineExceeded then RunResult(Timeout, "(timeout)")
    else if FirstFail(lines) != "" then RunResult(Killed, FirstFail(lines))
    else if RunLine !in lines then
      if exitError then RunResult(Error, "runtime error") else RunResult(Untested, "")
    else if exitError then RunResult(Killed, "runtime error")
    else RunResult(Survived, "")
  }

  method ClassifyVerboseRun(output: seq<string>, exitError: bool, deadlineExceeded: bool) returns (r: RunResult)
    ensures r == Classified(ReadLines(output), exitError, deadlineExceeded)
  {
    if deadlineExceeded { return RunResult(Timeout, "(timeout)"); }
    var firstFail, sawRun := "", false;
    ghost var lines := ReadLines(output);
    hide ReadLine;
    for i := 0 to |output|
      invariant sawRun == (RunLine in lines[..i])
      invariant FirstFail(lines) == if firstFail != "" then firstFail else FirstFail(lines[i..])
      invariant lines[i..] == ReadLines(output[i..])
    {
      assert lines[i..][1..] == lines[i + 1..] && output[i..][1..] == output[i + 1..];
      var line := ReadLine(output[i]);
      assert lines[i] == line;
      if !sawRun && line.RunLine? { sawRun := true; }
      if firstFail == "" && line.FailLine? { firstFail := line.name; }
    }
    assert lines[..|lines|] == lines;
    if firstFail != "" { return RunResult(Killed, firstFail); }
    if !sawRun {
      if exitError { return RunResult(Error, "runtime error"); }
      return RunResult(Untested, "");
    }
    if exitError { return RunResult(Killed, "runtime error"); }
    return RunResult(Survived, "");
  }

  /**
   Whatever a binary prints, its result is one of five statuses; only a killed or timed-out mutant or a crash names a
   culprit.
   */
  lemma ClassifiedArrives(lines: seq<Line>, exitError: bool, deadlineExceeded: bool)
    ensures Arrival(Classified(lines, exitError, deadlineExceeded).status)
    ensures var r := Classified(lines, exitError, deadlineExceeded);
            r.killedBy == "" <==> r.status == Survived || r.status == Untested
  {
  }

  /** The first failure line with a name. */
  ghost predicate FailsFirst(lines: seq<Line>, i: nat) {
    i < |lines| && lines[i].FailLine? && lines[i].name != ""
    && forall j :: 0 <= j < i ==> !(lines[j].FailLine? && lines[j].name != "")
  }

  lemma {:induction false} FirstFailIs(lines: seq<Line>)
    ensures FirstFail(lines) == "" ==> forall i: nat :: !FailsFirst(lines, i)
    ensures FirstFail(lines) != "" ==> exists i: nat :: FailsFirst(lines, i)
    ensures forall i: nat :: FailsFirst(lines, i) ==> FirstFail(lines) == lines[i].name
    decreases |lines|
  {
    if lines != [] && !(lines[0].FailLine? && lines[0].name != "") {
      var rest := lines[1..];
      FirstFailIs(rest);
      if i: nat :| FailsFirst(rest, i) { assert FailsFirst(lines, i + 1); }
      forall i: nat | FailsFirst(lines, i) ensures i > 0 && FailsFirst(rest, i - 1) && rest[i - 1] == lines[i] {
        forall j | 0 <= j < i - 1 ensures !(rest[j].FailLine? && rest[j].name != "") { assert rest[j] == lines[j + 1]; }
      }
    } else if lines != [] {
      assert FailsFirst(lines, 0);
    }
  }

  /** What a run is classified as, and whom it names, said of its lines. */
  lemma ClassifiedIff(lines: seq<Line>, exitError: bool, late: bool)
    ensures var r, failed, started := Classified(lines, exitError, late), exists i: nat :: FailsFirst(lines, i),
                                      exists i :: 0 <= i < |lines| && lines[i].RunLine?;
            && (r.status == Timeout <==> late)
            && (r.status == Killed <==> !late && (failed || (started && exitError)))
            && (r.status == Error <==> !late && !failed && !started && exitError)
            && (r.status == Untested <==> !late && !failed && !started && !exitError)
            && (r.status == Survived <==> !late && !failed && started && !exitError)
            && (late ==> r.killedBy == "(timeout)")
            && (!late ==> forall i: nat :: FailsFirst(lines, i) ==> r.killedBy == lines[i].name)
            && (!late && !failed ==> r.killedBy == if exitError then "runtime error" else "")
  {
    FirstFailIs(lines);
    hide FirstFail, FailsFirst;
    assert RunLine in lines <==> exists i :: 0 <= i < |lines| && lines[i].RunLine?;
  }

  // ---- Folding results into mutants ----

  datatype Result = Result(id: int, status: Status, killedBy: string)

  function Update(m: Mutant, r: Result): Mutant {
    if m.id == r.id && ShouldUpdate(m.status, r.status) then Mutant(m.id, m.file, m.hasNode, r.status, r.killedBy)
        else m
  }

  function UpdateAll(m: Mutant, rs: seq<Result>): (u: Mutant)
    ensures u.id == m.id
  {
    if rs == [] then m else Update(UpdateAll(m, rs[..|rs| - 1]), rs[|rs| - 1])
  }

  /** The statuses of the results for one mutant, in order of arrival. */
  function StatusesFor(id: int, rs: seq<Result>): seq<Status> {
    if rs == [] then [] else
      StatusesFor(id, rs[..|rs| - 1]) + if rs[|rs| - 1].id == id then [rs[|rs| - 1].status] else []
  }

  lemma {:induction false} FoldSnoc(current: Status, incoming: seq<Status>, x: Status)
    ensures Fold(current, incoming + [x]) == Merge(Fold(current, incoming), x)
    decreases |incoming|
  {
    if incoming == [] {
      assert incoming + [x] == [x];
    } else {
      assert (incoming + [x])[1..] == incoming[1..] + [x];
      FoldSnoc(Merge(current, incoming[0]), incoming[1..], x);
    }
  }

  lemma {:induction false} UpdateAllFolds(m: Mutant, rs: seq<Result>)
    ensures UpdateAll(m, rs).status == Fold(m.status, StatusesFor(m.id, rs))
    decreases |rs|
  {
    if rs != [] {
      var init, r := rs[..|rs| - 1], rs[|rs| - 1];
      UpdateAllFolds(m, init);
      FoldSnoc(m.status, StatusesFor(m.id, init), r.status);
      assert r.id != m.id ==> StatusesFor(m.id, rs) == StatusesFor(m.id, init);
    }
  }

  /** The index from mutant id to position. */
  ghost predicate IndexOf(index: map<int, nat>, ms: seq<Mutant>) {
    && (forall i :: 0 <= i < |ms| ==> ms[i].id in index && index[ms[i].id] == i)
    && (forall id :: id in index ==> index[id] < |ms| && ms[index[id]].id == id)
  }

  method BuildIndex(ms: seq<Mutant>) returns (index: map<int, nat>)
    requires Distinct(Ids(ms))
    ensures IndexOf(index, ms)
  {
    index := map[];
    hide Distinct, Ids;
    for i := 0 to |ms|
      invariant forall j :: 0 <= j < i ==> ms[j].id in index && index[ms[j].id] == j
      invariant forall id :: id in index ==> index[id] < i && ms[index[id]].id == id
    {
      OtherIds(ms, i);
      index := index[ms[i].id := i];
    }
  }

  lemma OtherIds(ms: seq<Mutant>, i: nat)
    requires Distinct(Ids(ms)) && i < |ms|
    ensures forall j :: 0 <= j < i ==> ms[j].id != ms[i].id
  {
    OnlyOne(ms, i);
    hide Ids, Distinct;
  }

  /** Results of unknown mutants are ignored; every mutant ends as the fold of its own results. */
  method CollectResults(ms: array<Mutant>, rs: seq<Result>, index: map<int, nat>)
    requires IndexOf(index, ms[..])
    modifies ms
    ensures forall i :: 0 <= i < ms.Length ==> ms[i] == UpdateAll(old(ms[i]), rs)
  {
    ghost var before := ms[..];
    for n := 0 to |rs|
      invariant forall i :: 0 <= i < ms.Length ==> ms[i] == UpdateAll(before[i], rs[..n])
      invariant IndexOf(index, before)
    {
      var r := rs[n];
      assert rs[..n + 1][..n] == rs[..n];
      if r.id in index {
        var i := index[r.id];
        if ShouldUpdate(ms[i].status, r.status) {
          ms[i] := Mutant(ms[i].id, ms[i].file, ms[i].hasNode, r.status, r.killedBy);
        }
      }
    }
    assert rs[..|rs|] == rs;
  }

  /** Collecting the same results in another order ends with the same statuses. */
  lemma CollectAnyOrder(m: Mutant, rs: seq<Result>, rs': seq<Result>)
    requires multiset(rs) == multiset(rs') && forall r :: r in rs ==> Arrival(r.status)
    ensures UpdateAll(m, rs).status == UpdateAll(m, rs').status
  {
    UpdateAllFolds(m, rs);
    UpdateAllFolds(m, rs');
    StatusesPermute(m.id, rs, rs');
    StatusesArrive(m.id, rs);
    FoldAnyOrder(m.status, StatusesFor(m.id, rs), StatusesFor(m.id, rs'));
  }

  lemma {:induction false} StatusesArrive(id: int, rs: seq<Result>)
    requires forall r :: r in rs ==> Arrival(r.status)
    ensures Arrivals(StatusesFor(id, rs))
    decreases |rs|
  {
    if rs != [] { StatusesArrive(id, rs[..|rs| - 1]); }
  }

  lemma {:induction false} StatusesAppend(id: int, a: seq<Result>, b: seq<Result>)
    ensures StatusesFor(id, a + b) == StatusesFor(id, a) + StatusesFor(id, b)
    decreases |b|
  {
    if b == [] {
      assert a + b == a;
    } else {
      assert (a + b)[..|a + b| - 1] == a + b[..|b| - 1];
      StatusesAppend(id, a, b[..|b| - 1]);
    }
  }

  lemma {:induction false} StatusesPermute(id: int, rs: seq<Result>, rs': seq<Result>)
    requires multiset(rs) == multiset(rs')
    ensures multiset(StatusesFor(id, rs)) == multiset(StatusesFor(id, rs'))
    decreases |rs|
  {
    if rs == [] {
      assert |multiset(rs')| == 0;
    } else {
      var x, rest := rs[0], rs[1..];
      assert rs == [x] + rest;
      var l, r := TakeOut(x, rest, rs');
      StatusesPermute(id, rest, l + r);
      StatusesAppend(id, [x], rest);
      StatusesAppend(id, l, r);
      StatusesAppend(id, l + [x], r);
      StatusesAppend(id, l, [x]);
    }
  }
}
