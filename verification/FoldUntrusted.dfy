/**
 * Untrusted text folded so that none of it can read as prompt structure
 * (packages/evolution-core/src/fold-untrusted.ts).
 */
module FoldUntrusted {

  const SEP: char := '\U{23CE}'
  const UNTRUSTED_LINE_BREAK: string := [' ', SEP, ' ']
  const MARK_START: char := '\U{00B7}'
  const UNTRUSTED_LINE_MARK: string := [MARK_START, ' ']

  predicate Letter(c: char) { 'A' <= c <= 'Z' || 'a' <= c <= 'z' }
  predicate Label(c: char) { Letter(c) || '0' <= c <= '9' || c == ' ' || c == '_' }
  predicate Blank(c: char) { c == ' ' || c == '\t' }

  // ----- newlines ----------------------------------------------------------------

  predicate OneLine(s: string) { forall i | 0 <= i < |s| :: s[i] != '\r' && s[i] != '\n' }

  function FoldNewlines(s: string): (r: string)
    ensures OneLine(r)
  {
    if s == "" then ""
    else if |s| >= 2 && s[0] == '\r' && s[1] == '\n' then UNTRUSTED_LINE_BREAK + FoldNewlines(s[2..])
    else if s[0] == '\r' || s[0] == '\n' then UNTRUSTED_LINE_BREAK + FoldNewlines(s[1..])
    else [s[0]] + FoldNewlines(s[1..])
  }

  lemma {:induction false} FoldsPlain(a: string, rest: string)
    requires OneLine(a)
    ensures FoldNewlines(a + rest) == a + FoldNewlines(rest)
  {
    if a == "" {
      assert a + rest == rest;
    } else {
      FoldsPlain(a[1..], rest);
      FoldsFirst(a[0], a[1..] + rest);
      assert a + rest == [a[0]] + (a[1..] + rest);
    }
  }

  lemma FoldsFirst(c: char, rest: string)
    requires c != '\r' && c != '\n'
    ensures FoldNewlines([c] + rest) == [c] + FoldNewlines(rest)
  {
    assert ([c] + rest)[1..] == rest;
  }

  lemma FoldsBreak(nl: string, b: string)
    requires nl == "\r\n" || nl == "\n" || (nl == "\r" && (b == "" || b[0] != '\n'))
    ensures FoldNewlines(nl + b) == UNTRUSTED_LINE_BREAK + FoldNewlines(b)
  {
    assert (nl + b)[|nl|..] == b;
  }

  /** A text without line breaks stays; at a break it becomes the visible stand-in between its two folded halves. */
  lemma FoldsAt(a: string, nl: string, b: string)
    requires OneLine(a) && (nl == "\r\n" || nl == "\n" || (nl == "\r" && (b == "" || b[0] != '\n')))
    ensures FoldNewlines(a) == a
    ensures FoldNewlines(a + nl + b) == a + UNTRUSTED_LINE_BREAK + FoldNewlines(b)
  {
    FoldsPlain(a, "");
    assert a + "" == a;
    FoldsPlain(a, nl + b);
    FoldsBreak(nl, b);
    assert a + nl + b == a + (nl + b);
  }

  // ----- structural heads ---------------------------------------------------------

  /** The length of the leading run of label characters. */
  function Run(t: string): (n: nat)
    ensures n <= |t|
  {
    if t == "" || !Label(t[0]) then 0 else 1 + Run(t[1..])
  }

  /** The length of the structural head at the start of the text, or 0. */
  function Head(t: string): (n: nat)
    ensures n <= |t|
  {
    if t != "" && Letter(t[0]) && Run(t) >= 3 && Run(t) < |t| && t[Run(t)] == ':' then Run(t) + 1
    else if Starts(t, RESULT_TAG) then |RESULT_TAG|
    else if Starts(t, CALL_TAG) then |CALL_TAG|
    else 0
  }

  /** A label of three characters or more, a letter first, up to a colon at `k`. */
  ghost predicate LabelTo(t: string, k: nat)
  {
    3 <= k < |t| && t[k] == ':' && Letter(t[0]) && forall i | 0 <= i < k :: Label(t[i])
  }

  lemma {:induction false} RunIs(t: string, k: nat)
    requires k < |t| && !Label(t[k]) && forall i | 0 <= i < k :: Label(t[i])
    ensures Run(t) == k
  {
    if k > 0 { RunIs(t[1..], k - 1); }
  }

  lemma {:induction false} RunHolds(t: string)
    ensures forall i | 0 <= i < Run(t) :: Label(t[i])
  {
    if t != "" && Label(t[0]) {
      RunHolds(t[1..]);
      assert forall i | 1 <= i < Run(t) :: t[i] == t[1..][i - 1];
    }
  }

  /** What reads as structure: a label with its colon, and the two evidence tags, to their last character. */
  lemma HeadIs(t: string)
    ensures forall k: nat | LabelTo(t, k) :: Head(t) == k + 1
    ensures Starts(t, "[result]") ==> Head(t) == 8
    ensures Starts(t, "[call]") ==> Head(t) == 6
    ensures Head(t) > 0 ==> (exists k: nat :: LabelTo(t, k)) || Starts(t, "[result]") || Starts(t, "[call]")
  {
    forall k: nat | LabelTo(t, k) ensures Head(t) == k + 1 { RunIs(t, k); }
    RunHolds(t);
    if t != "" && Letter(t[0]) && Run(t) >= 3 && Run(t) < |t| && t[Run(t)] == ':' { assert LabelTo(t, Run(t)); }
    assert RESULT_TAG[0] == '[' && CALL_TAG[0] == '[' && RESULT_TAG[1] != CALL_TAG[1];
  }

  const RESULT_TAG := "[result]"
  const CALL_TAG := "[call]"

  predicate Starts(t: string, tag: string) { |t| >= |tag| && t[..|tag|] == tag }

  function Lead(t: string): (n: nat)
    ensures n <= |t| && (n < |t| ==> !Blank(t[n]))
  {
    if t == "" || !Blank(t[0]) then 0 else 1 + Lead(t[1..])
  }

  /** A pattern for heads: how much of the text it matches at its start, 0 for no match. */
  type Pattern = string -> nat

  function Len(p: Pattern, t: string): (n: nat)
    ensures n <= |t|
  {
    if p(t) <= |t| then p(t) else |t|
  }

  /** The global replacement, left to right; `boundary` says the text starts at the beginning or behind a separator.
      What was matched is copied: no head holds a separator, so no match can begin inside one. */
  function MarkHeads(p: Pattern, s: string, boundary: bool): string
    decreases |s|, boundary
  {
    if s == "" then ""
    else
      var n := Lead(s);
      var h := Len(p, s[n..]);
      if boundary && h > 0 then s[..n] + UNTRUSTED_LINE_MARK + MarkHeads(p, s[n..], false)
      else [s[0]] + MarkHeads(p, s[1..], s[0] == SEP)
  }

  function FoldUntrustedLines(text: string, limit: int): string
  {
    var marked := MarkHeads(Head, FoldNewlines(text), true);
    if limit > 0 && limit < |marked| then marked[..limit] else marked
  }

  // ----- the same line by line -------------------------------------------------------

  /** The text up to the first separator, and the rest. */
  function First(s: string): string { if s == "" || s[0] == SEP then "" else [s[0]] + First(s[1..]) }
  function After(s: string): string { if s == "" || s[0] == SEP then s else After(s[1..]) }

  predicate Solid(line: string) { forall i | 0 <= i < |line| :: line[i] != SEP }

  /** What can stand behind a line: nothing, or a separator. */
  predicate Ends(rest: string) { rest == "" || rest[0] == SEP }

  lemma {:induction false} Splits(s: string)
    ensures s == First(s) + After(s) && Solid(First(s)) && Ends(After(s))
    ensures |After(s)| <= |s|
  {
    if s != "" && s[0] != SEP {
      Splits(s[1..]);
      assert s == [s[0]] + s[1..];
    }
  }

  /** One visual line with its marker, if it needs one. */
  function MarkLine(p: Pattern, line: string): string
  {
    var n := Lead(line);
    if Len(p, line[n..]) > 0 then line[..n] + UNTRUSTED_LINE_MARK + line[n..] else line
  }

  /** Every visual line marked on its own: what the replacement is meant to do. */
  function MarkLines(p: Pattern, s: string): string
    decreases |s|
  {
    Splits(s);
    MarkLine(p, First(s)) + if After(s) == "" then "" else [SEP] + MarkLines(p, After(s)[1..])
  }

  /** What the folding needs of its pattern: it looks at one visual line only, it matches neither blanks nor the
      marker, and what it does not match it does not match cut short. */
  ghost predicate InLines(p: Pattern)
  {
    forall line: string, rest: string | Solid(line) && Ends(rest) :: Len(p, line + rest) == Len(p, line)
  }

  ghost predicate Unmarked(p: Pattern)
  {
    forall t: string :: Len(p, t) > 0 ==> t != "" && !Blank(t[0]) && t[0] != MARK_START
  }

  ghost predicate Shrinks(p: Pattern)
  {
    forall t: string, k: nat | k <= |t| && Len(p, t) == 0 :: Len(p, t[..k]) == 0
  }

  // ----- the head pattern is such a pattern ------------------------------------------------

  lemma {:induction false} RunJoins(line: string, rest: string)
    requires Ends(rest)
    ensures Run(line + rest) == Run(line)
  {
    if line == "" {
      assert line + rest == rest;
    } else {
      assert (line + rest)[1..] == line[1..] + rest;
      RunJoins(line[1..], rest);
    }
  }

  lemma StartsInLine(line: string, rest: string, tag: string)
    requires Solid(tag) && Ends(rest) && Starts(line + rest, tag)
    ensures |line| >= |tag|
  {
    if tag != "" {
      var i := if |line| < |tag| then |line| else 0;
      assert (line + rest)[..|tag|][i] == tag[i];
    }
  }

  lemma StartsJoins(line: string, rest: string, tag: string)
    requires Solid(tag) && Ends(rest)
    ensures Starts(line + rest, tag) <==> Starts(line, tag)
  {
    if Starts(line + rest, tag) {
      StartsInLine(line, rest, tag);
    }
    if |line| >= |tag| {
      assert (line + rest)[..|tag|] == line[..|tag|];
    }
  }

  lemma HeadJoins(line: string, rest: string)
    requires Solid(line) && Ends(rest)
    ensures Head(line + rest) == Head(line)
  {
    RunJoins(line, rest);
    StartsJoins(line, rest, RESULT_TAG);
    StartsJoins(line, rest, CALL_TAG);
    if line == "" {
      assert line + rest == rest;
    }
  }

  lemma HeadStarts(t: string)
    ensures Head(t) > 0 ==> t != "" && (Letter(t[0]) || t[0] == '[')
  {
    assert RESULT_TAG[0] == '[' && CALL_TAG[0] == '[';
  }

  lemma {:induction false} RunGrows(t: string, k: nat)
    requires k <= |t| && Run(t[..k]) < k
    ensures Run(t) == Run(t[..k])
  {
    if k > 0 && Label(t[0]) {
      assert t[..k][1..] == t[1..][..k - 1];
      RunGrows(t[1..], k - 1);
    }
  }

  lemma StartsGrows(t: string, k: nat, tag: string)
    requires k <= |t| && Starts(t[..k], tag)
    ensures Starts(t, tag)
  {
    assert t[..|tag|] == t[..k][..|tag|];
  }

  /** What reads as structure when cut short does so in full. */
  lemma HeadGrows(t: string, k: nat)
    requires k <= |t| && Head(t[..k]) > 0
    ensures Head(t) > 0
  {
    if Starts(t[..k], RESULT_TAG) {
      StartsGrows(t, k, RESULT_TAG);
    } else if Starts(t[..k], CALL_TAG) {
      StartsGrows(t, k, CALL_TAG);
    } else {
      RunGrows(t, k);
    }
  }

  lemma HeadIsProper()
    ensures InLines(Head) && Unmarked(Head) && Shrinks(Head)
  {
    forall line: string, rest: string | Solid(line) && Ends(rest) ensures Len(Head, line + rest) == Len(Head, line) {
      HeadJoins(line, rest);
    }
    forall t: string ensures Len(Head, t) > 0 ==> t != "" && !Blank(t[0]) && t[0] != MARK_START {
      HeadStarts(t);
    }
    forall t: string, k: nat | k <= |t| && Len(Head, t) == 0 ensures Len(Head, t[..k]) == 0 {
      if Head(t[..k]) > 0 {
        HeadGrows(t, k);
      }
    }
  }

  // ----- the replacement is the marking of every line --------------------------------------

  lemma {:induction false} LeadJoins(line: string, rest: string)
    requires Ends(rest)
    ensures Lead(line + rest) == Lead(line) && (line + rest)[Lead(line)..] == line[Lead(line)..] + rest
  {
    if line == "" || !Blank(line[0]) {
      assert line == "" ==> line + rest == rest;
    } else {
      assert (line + rest)[1..] == line[1..] + rest;
      LeadJoins(line[1..], rest);
    }
  }

  /** Away from a boundary the replacement copies a line. */
  lemma {:induction false} CopiesLine(p: Pattern, line: string, rest: string)
    requires Solid(line)
    ensures MarkHeads(p, line + rest, false) == line + MarkHeads(p, rest, false)
  {
    if line == "" {
      assert line + rest == rest && line + MarkHeads(p, rest, false) == MarkHeads(p, rest, false);
    } else {
      assert (line + rest)[1..] == line[1..] + rest;
      CopiesLine(p, line[1..], rest);
      assert line == [line[0]] + line[1..];
    }
  }

  lemma PlainStep(p: Pattern, s: string)
    requires Len(p, s[Lead(s)..]) == 0
    ensures MarkHeads(p, s, true) == MarkHeads(p, s, false)
  {
  }

  lemma HeadStep(p: Pattern, s: string, n: nat)
    requires s != "" && n == Lead(s) && Len(p, s[n..]) > 0
    ensures MarkHeads(p, s, true) == s[..n] + UNTRUSTED_LINE_MARK + MarkHeads(p, s[n..], false)
  {
  }

  /** At a boundary it marks the line. */
  lemma MarksLine(p: Pattern, line: string, rest: string)
    requires InLines(p) && Solid(line) && Ends(rest)
    ensures MarkHeads(p, line + rest, true) == MarkLine(p, line) + MarkHeads(p, rest, false)
  {
    var s, n := line + rest, Lead(line);
    LeadJoins(line, rest);
    assert s[n..] == line[n..] + rest;
    assert Len(p, s[n..]) == Len(p, line[n..]);
    if Len(p, line[n..]) > 0 {
      HeadedLine(p, line, rest, n);
    } else {
      PlainStep(p, s);
      CopiesLine(p, line, rest);
    }
  }

  lemma HeadedLine(p: Pattern, line: string, rest: string, n: nat)
    requires Solid(line) && n == Lead(line) && Len(p, line[n..]) > 0
    requires n == Lead(line + rest) && Len(p, (line + rest)[n..]) > 0
    ensures MarkHeads(p, line + rest, true) == MarkLine(p, line) + MarkHeads(p, rest, false)
  {
    HeadStep(p, line + rest, n);
    assert (line + rest)[..n] == line[..n] && (line + rest)[n..] == line[n..] + rest;
    CopiesLine(p, line[n..], rest);
    ConcatAssoc(line[..n] + UNTRUSTED_LINE_MARK, line[n..], MarkHeads(p, rest, false));
  }

  lemma ConcatAssoc(a: string, b: string, c: string)
    ensures (a + b) + c == a + (b + c)
  {
  }

  /** The global replacement marks exactly the visual lines that would read as structure, and copies the rest. */
  lemma {:induction false} ReplacementMarksLines(p: Pattern, s: string)
    requires InLines(p)
    ensures MarkHeads(p, s, true) == MarkLines(p, s)
    decreases |s|
  {
    Splits(s);
    MarksLine(p, First(s), After(s));
    if After(s) != "" {
      ReplacementMarksLines(p, After(s)[1..]);
    }
  }

  // ----- what the output promises ---------------------------------------------------------------

  /** Nowhere behind a boundary does the pattern match. */
  predicate Inert(p: Pattern, s: string, boundary: bool)
  {
    (boundary ==> Len(p, s[Lead(s)..]) == 0) && (s != "" ==> Inert(p, s[1..], s[0] == SEP))
  }

  /** The replacement leaves inert text alone. */
  lemma {:induction false} InertIsFixed(p: Pattern, s: string, boundary: bool)
    requires Inert(p, s, boundary)
    ensures MarkHeads(p, s, boundary) == s
  {
    if s != "" {
      InertIsFixed(p, s[1..], s[0] == SEP);
    }
  }

  lemma {:induction false} LeadOfPrefix(t: string, k: nat)
    requires k <= |t|
    ensures Lead(t[..k]) == if Lead(t) <= k then Lead(t) else k
  {
    if t != "" && k > 0 && Blank(t[0]) {
      assert t[..k][1..] == t[1..][..k - 1];
      LeadOfPrefix(t[1..], k - 1);
    }
  }

  lemma NoHeadCutShort(p: Pattern, s: string, k: nat)
    requires Shrinks(p) && k <= |s| && Len(p, s[Lead(s)..]) == 0
    ensures Len(p, s[..k][Lead(s[..k])..]) == 0
  {
    LeadOfPrefix(s, k);
    var n := Lead(s);
    var t := s[n..];
    if n <= k {
      assert s[..k][n..] == t[..k - n];
    } else {
      assert s[..k][k..] == t[..0];
    }
  }

  /** A truncation never makes structure. */
  lemma {:induction false} PrefixIsInert(p: Pattern, s: string, boundary: bool, k: nat)
    requires Shrinks(p) && Inert(p, s, boundary) && k <= |s|
    ensures Inert(p, s[..k], boundary)
    decreases k
  {
    if boundary {
      NoHeadCutShort(p, s, k);
    }
    if k > 0 {
      PrefixIsInert(p, s[1..], s[0] == SEP, k - 1);
      assert s[..k][1..] == s[1..][..k - 1];
    }
  }

  lemma {:induction false} InertSkips(p: Pattern, line: string, rest: string)
    requires Solid(line) && Inert(p, rest, false)
    ensures Inert(p, line + rest, false)
  {
    if line == "" {
      assert line + rest == rest;
    } else {
      assert (line + rest)[1..] == line[1..] + rest;
      InertSkips(p, line[1..], rest);
    }
  }

  lemma {:induction false} LeadStops(blanks: string, t: string)
    requires (forall i | 0 <= i < |blanks| :: Blank(blanks[i])) && t != "" && !Blank(t[0])
    ensures Lead(blanks + t) == |blanks| && (blanks + t)[|blanks|..] == t
  {
    if blanks == "" {
      assert blanks + t == t;
    } else {
      assert (blanks + t)[1..] == blanks[1..] + t;
      LeadStops(blanks[1..], t);
    }
  }

  lemma {:induction false} LeadIsBlank(t: string)
    ensures forall i | 0 <= i < Lead(t) :: Blank(t[i])
  {
    if t != "" && Blank(t[0]) {
      LeadIsBlank(t[1..]);
      assert forall i | 1 <= i < Lead(t) :: t[i] == t[1..][i - 1];
    }
  }

  lemma QuietWithRest(p: Pattern, m: string, rest: string)
    requires InLines(p) && Solid(m) && Ends(rest) && Len(p, m[Lead(m)..]) == 0
    ensures Len(p, (m + rest)[Lead(m + rest)..]) == 0
  {
    LeadJoins(m, rest);
    assert Solid(m[Lead(m)..]);
    assert Len(p, m[Lead(m)..] + rest) == Len(p, m[Lead(m)..]);
  }

  lemma MarkedIsQuiet(p: Pattern, line: string)
    requires Unmarked(p) && Solid(line)
    ensures var m := MarkLine(p, line); Solid(m) && Len(p, m[Lead(m)..]) == 0
  {
    var n, m := Lead(line), MarkLine(p, line);
    if Len(p, line[n..]) > 0 {
      LeadIsBlank(line);
      var t := UNTRUSTED_LINE_MARK + line[n..];
      LeadStops(line[..n], t);
      assert m == line[..n] + t;
    }
  }

  lemma MarkLineIsQuiet(p: Pattern, line: string, rest: string)
    requires InLines(p) && Unmarked(p) && Solid(line) && Ends(rest)
    ensures var m := MarkLine(p, line);
            Solid(m) && Len(p, (m + rest)[Lead(m + rest)..]) == 0
  {
    MarkedIsQuiet(p, line);
    QuietWithRest(p, MarkLine(p, line), rest);
  }

  lemma InertSeparator(p: Pattern, t: string)
    requires Inert(p, t, true)
    ensures Inert(p, [SEP] + t, false)
  {
    assert ([SEP] + t)[1..] == t;
  }

  lemma InertLine(p: Pattern, m: string, rest: string)
    requires Solid(m) && Inert(p, rest, false) && Len(p, (m + rest)[Lead(m + rest)..]) == 0
    ensures Inert(p, m + rest, true)
  {
    InertSkips(p, m, rest);
  }

  /** No line of the marked text reads as structure. */
  lemma {:induction false} MarkedIsInert(p: Pattern, s: string)
    requires InLines(p) && Unmarked(p)
    ensures Inert(p, MarkLines(p, s), true)
    decreases |s|
  {
    Splits(s);
    var rest := if After(s) == "" then "" else [SEP] + MarkLines(p, After(s)[1..]);
    if After(s) != "" {
      MarkedIsInert(p, After(s)[1..]);
      InertSeparator(p, MarkLines(p, After(s)[1..]));
    }
    MarkLineIsQuiet(p, First(s), rest);
    InertLine(p, MarkLine(p, First(s)), rest);
  }

  // ----- one line ------------------------------------------------------------------------------------

  lemma {:induction false} FoldKeepsLines(s: string)
    requires OneLine(s)
    ensures FoldNewlines(s) == s
  {
    if s != "" {
      FoldKeepsLines(s[1..]);
    }
  }

  lemma OneLineJoins(a: string, b: string)
    requires OneLine(a) && OneLine(b)
    ensures OneLine(a + b)
  {
  }

  lemma MarkedIsOneLine(a: string, b: string)
    requires OneLine(a) && OneLine(b)
    ensures OneLine(a + UNTRUSTED_LINE_MARK + b)
  {
  }

  lemma {:induction false} MarkingKeepsOneLine(p: Pattern, s: string, boundary: bool)
    requires OneLine(s)
    ensures OneLine(MarkHeads(p, s, boundary))
    decreases |s|, boundary
  {
    if s != "" {
      var n := Lead(s);
      if boundary && Len(p, s[n..]) > 0 {
        HeadStep(p, s, n);
        MarkingKeepsOneLine(p, s[n..], false);
        MarkedIsOneLine(s[..n], MarkHeads(p, s[n..], false));
      } else {
        MarkingKeepsOneLine(p, s[1..], s[0] == SEP);
        OneLineJoins([s[0]], MarkHeads(p, s[1..], s[0] == SEP));
      }
    }
  }

  /** The output is one line, the head pattern matches nowhere behind a boundary of it, and folding it again changes
      nothing. */
  lemma FoldedIsInert(text: string, limit: int)
    ensures var r := FoldUntrustedLines(text, limit);
            OneLine(r) && Inert(Head, r, true) && FoldUntrustedLines(r, limit) == r
  {
    HeadIsProper();
    var folded := FoldNewlines(text);
    ReplacementMarksLines(Head, folded);
    MarkingKeepsOneLine(Head, folded, true);
    MarkedIsInert(Head, folded);
    var r := FoldUntrustedLines(text, limit);
    if limit > 0 && limit < |MarkLines(Head, folded)| {
      PrefixIsInert(Head, MarkLines(Head, folded), true, limit);
    }
    FoldAgain(r, limit);
  }

  /** A limit cuts the folded text to at most so many characters, and changes nothing else of it. */
  lemma LimitOnlyCuts(text: string, limit: int)
    ensures var full, r := FoldUntrustedLines(text, 0), FoldUntrustedLines(text, limit);
            && |r| <= |full| && r == full[..|r|]
            && (limit > 0 ==> |r| <= limit && (|r| < limit ==> r == full))
            && (limit <= 0 ==> r == full)
  {
  }

  lemma FoldAgain(r: string, limit: int)
    requires OneLine(r) && Inert(Head, r, true) && (limit > 0 ==> |r| <= limit)
    ensures FoldUntrustedLines(r, limit) == r
  {
    FoldKeepsLines(r);
    InertIsFixed(Head, r, true);
  }

  // ----- nothing is lost ------------------------------------------------------------------------------

  /** `b` is `a` with a marker put in at some places. */
  ghost predicate OnlyMarksAdded(a: string, b: string)
    decreases |b|
  {
    || (a == "" && b == "")
    || (|b| >= 2 && b[..2] == UNTRUSTED_LINE_MARK && OnlyMarksAdded(a, b[2..]))
    || (a != "" && b != "" && a[0] == b[0] && OnlyMarksAdded(a[1..], b[1..]))
  }

  lemma {:induction false} CopyAddsNothing(c: string, a: string, b: string)
    requires OnlyMarksAdded(a, b)
    ensures OnlyMarksAdded(c + a, c + b)
  {
    if c == "" {
      assert c + a == a && c + b == b;
    } else {
      CopyAddsNothing(c[1..], a, b);
      assert (c + a)[1..] == c[1..] + a && (c + b)[1..] == c[1..] + b;
    }
  }

  lemma MarkAdds(a: string, b: string)
    requires OnlyMarksAdded(a, b)
    ensures OnlyMarksAdded(a, UNTRUSTED_LINE_MARK + b)
  {
    var c := UNTRUSTED_LINE_MARK + b;
    assert c[..2] == UNTRUSTED_LINE_MARK && c[2..] == b;
  }

  lemma {:induction false} ReplacementOnlyAdds(p: Pattern, s: string, boundary: bool)
    ensures OnlyMarksAdded(s, MarkHeads(p, s, boundary))
    decreases |s|, boundary
  {
    if s != "" {
      var n := Lead(s);
      if boundary && Len(p, s[n..]) > 0 {
        HeadStep(p, s, n);
        ReplacementOnlyAdds(p, s[n..], false);
        MarkedAdds(s[..n], s[n..], MarkHeads(p, s[n..], false));
        assert s == s[..n] + s[n..];
      } else {
        ReplacementOnlyAdds(p, s[1..], s[0] == SEP);
        CopyAddsNothing([s[0]], s[1..], MarkHeads(p, s[1..], s[0] == SEP));
        assert [s[0]] + s[1..] == s;
      }
    }
  }

  lemma MarkedAdds(blanks: string, rest: string, out: string)
    requires OnlyMarksAdded(rest, out)
    ensures OnlyMarksAdded(blanks + rest, blanks + UNTRUSTED_LINE_MARK + out)
  {
    MarkAdds(rest, out);
    CopyAddsNothing(blanks, rest, UNTRUSTED_LINE_MARK + out);
    ConcatAssoc(blanks, UNTRUSTED_LINE_MARK, out);
  }

  /** Without truncation every character of the newline-folded text is still there, in order; only markers were
      added. */
  lemma NothingIsLost(text: string)
    ensures OnlyMarksAdded(FoldNewlines(text), FoldUntrustedLines(text, 0))
  {
    ReplacementOnlyAdds(Head, FoldNewlines(text), true);
  }
}
