/** The text functions of the standard library that the parsers and printers share. */
module Text {
  import opened Wrappers

  // ---- Searching ----

  /** The first position of a character. */
  function Index(s: string, c: char): (r: Option<nat>)
    ensures r.Some? ==> r.value < |s| && s[r.value] == c && c !in s[..r.value]
    ensures r.None? <==> c !in s
  {
    if s == "" then None
    else if s[0] == c then Some(0)
    else
      assert s == [s[0]] + s[1..];
      match Index(s[1..], c)
      case None => None
      case Some(i) => assert s[..i + 1] == [s[0]] + s[1..][..i]; Some(i + 1)
  }

  /** The last position of a character. */
  function LastIndex(s: string, c: char): (r: Option<nat>)
    ensures r.Some? ==> r.value < |s| && s[r.value] == c && c !in s[r.value + 1..]
    ensures r.None? <==> c !in s
  {
    if s == "" then None
    else if s[|s| - 1] == c then Some(|s| - 1)
    else
      assert s == s[..|s| - 1] + [s[|s| - 1]];
      match LastIndex(s[..|s| - 1], c)
      case None => None
      case Some(i) => assert s[i + 1..] == s[..|s| - 1][i + 1..] + [s[|s| - 1]]; Some(i)
  }

  lemma {:induction false} IndexSplit(a: string, c: char, b: string)
    requires c !in a
    ensures Index(a + [c] + b, c) == Some(|a|)
  {
    if a != "" {
      assert (a + [c] + b)[1..] == a[1..] + [c] + b;
      IndexSplit(a[1..], c, b);
    }
  }

  lemma {:induction false} LastIndexSplit(a: string, c: char, b: string)
    requires c !in b
    ensures LastIndex(a + [c] + b, c) == Some(|a|)
  {
    var s := a + [c] + b;
    if b != "" {
      var b' := b[..|b| - 1];
      assert s[..|s| - 1] == a + [c] + b';
      LastIndexSplit(a, c, b');
    }
  }

  /** A colon and a space, which end the position of a message. */
  const COLON_SPACE := ": "

  predicate ColonSpaceAt(s: string, i: nat) { i + 1 < |s| && s[i] == ':' && s[i + 1] == ' ' }

  predicate HasColonSpace(s: string) { exists i: nat :: i < |s| && ColonSpaceAt(s, i) }

  /** The first position of a colon and a space. */
  function IndexColonSpace(s: string): (r: Option<nat>)
    ensures r.Some? ==> ColonSpaceAt(s, r.value) && forall i: nat :: i < r.value ==> !ColonSpaceAt(s, i)
    ensures r.None? ==> !HasColonSpace(s)
  {
    if s == "" then None
    else if ColonSpaceAt(s, 0) then Some(0)
    else
      assert forall i: nat :: 1 <= i ==> (ColonSpaceAt(s, i) <==> ColonSpaceAt(s[1..], i - 1));
      match IndexColonSpace(s[1..])
      case None => None
      case Some(i) => Some(i + 1)
  }

  /** The text in front of a colon and a space is cut off there exactly when it contains none itself. */
  lemma IndexColonSpaceSplit(a: string, b: string)
    ensures IndexColonSpace(a + COLON_SPACE + b) == Some(|a|) <==> !HasColonSpace(a)
  {
    var s := a + COLON_SPACE + b;
    assert ColonSpaceAt(s, |a|);
    assert HasColonSpace(s);
    assert forall i: nat :: i < |a| ==> (ColonSpaceAt(s, i) <==> ColonSpaceAt(a, i));
  }

  predicate HasPrefix(s: string, p: string) { p <= s }

  predicate HasSuffix(s: string, p: string) { |p| <= |s| && s[|s| - |p|..] == p }

  /** The text without the prefix, if it has it. */
  function TrimPrefix(s: string, p: string): string {
    if HasPrefix(s, p) then s[|p|..] else s
  }

  // ---- Spaces ----

  predicate IsSpace(c: char) { c == ' ' || '\t' <= c <= '\r' }

  function TrimLeft(s: string): string {
    if s != "" && IsSpace(s[0]) then TrimLeft(s[1..]) else s
  }

  function TrimRight(s: string): string {
    if s != "" && IsSpace(s[|s| - 1]) then TrimRight(s[..|s| - 1]) else s
  }

  function TrimSpace(s: string): string { TrimRight(TrimLeft(s)) }

  /** Trimming leaves alone exactly the texts that neither begin nor end with a space. */
  predicate Trimmed(s: string) { s == "" || (!IsSpace(s[0]) && !IsSpace(s[|s| - 1])) }

  lemma {:induction false} TrimSpaceTrimmed(s: string)
    ensures Trimmed(TrimSpace(s))
    ensures Trimmed(s) <==> TrimSpace(s) == s
  {
    TrimLeftStarts(s);
    TrimRightEnds(TrimLeft(s));
  }

  lemma {:induction false} TrimLeftStarts(s: string)
    ensures TrimLeft(s) == "" || !IsSpace(TrimLeft(s)[0])
  {
    if s != "" && IsSpace(s[0]) { TrimLeftStarts(s[1..]); }
  }

  lemma {:induction false} TrimRightEnds(s: string)
    ensures TrimRight(s) <= s && (TrimRight(s) == "" || !IsSpace(TrimRight(s)[|TrimRight(s)| - 1]))
  {
    if s != "" && IsSpace(s[|s| - 1]) { TrimRightEnds(s[..|s| - 1]); }
  }

  // ---- Decimal numbers ----

  /** The machine integer. */
  type GoInt = x: int | -0x8000_0000_0000_0000 <= x < 0x8000_0000_0000_0000

  predicate IsDigit(c: char) { '0' <= c <= '9' }

  predicate AllDigits(s: string) { forall c :: c in s ==> IsDigit(c) }

  function Digit(d: nat): (c: char)
    requires d < 10
    ensures IsDigit(c)
  {
    '0' + d as char
  }

  function PrintNat(n: nat): (s: string)
    ensures s != "" && AllDigits(s)
  {
    if n < 10 then [Digit(n)] else PrintNat(n / 10) + [Digit(n % 10)]
  }

  function Itoa(n: int): (s: string)
    ensures s != "" && forall c :: c in s ==> c == '-' || IsDigit(c)
  {
    if n < 0 then "-" + PrintNat(-n) else PrintNat(n)
  }

  function Value(c: char): nat
    requires IsDigit(c)
  {
    c as int - '0' as int
  }

  function ParseNat(s: string): nat
    requires AllDigits(s)
  {
    if s == "" then 0 else 10 * ParseNat(s[..|s| - 1]) + Value(s[|s| - 1])
  }

  /** An optional sign, then digits; a number that does not fit the machine integer is an error. */
  function Atoi(s: string): Option<GoInt> {
    var signed := s != "" && (s[0] == '-' || s[0] == '+');
    var digits := if signed then s[1..] else s;
    if digits == "" || !AllDigits(digits) then None
    else
      var v: int := ParseNat(digits);
      var n := if signed && s[0] == '-' then -v else v;
      if -0x8000_0000_0000_0000 <= n < 0x8000_0000_0000_0000 then Some(n) else None
  }

  lemma {:induction false} ParsePrintNat(n: nat)
    ensures ParseNat(PrintNat(n)) == n
  {
    if n >= 10 {
      var s := PrintNat(n);
      assert s[..|s| - 1] == PrintNat(n / 10);
      ParsePrintNat(n / 10);
    }
  }

  lemma ItoaInjective(m: int, n: int)
    requires Itoa(m) == Itoa(n)
    ensures m == n
  {
    hide PrintNat, ParseNat;
    if m < 0 && n < 0 {
      assert Itoa(m)[1..] == PrintNat(-m) && Itoa(n)[1..] == PrintNat(-n);
      ParsePrintNat(-m);
      ParsePrintNat(-n);
    } else if m >= 0 && n >= 0 {
      ParsePrintNat(m);
      ParsePrintNat(n);
    } else {
      assert IsDigit(PrintNat(if m >= 0 then m else n)[0]);
    }
  }

  /** Numbers are read back as printed. */
  lemma AtoiItoa(n: int)
    requires -0x8000_0000_0000_0000 <= n < 0x8000_0000_0000_0000
    ensures Atoi(Itoa(n)) == Some(n)
  {
    hide PrintNat, ParseNat;
    if n < 0 {
      assert Itoa(n)[1..] == PrintNat(-n);
      ParsePrintNat(-n);
    } else {
      assert IsDigit(Itoa(n)[0]);
      ParsePrintNat(n);
    }
  }
}
