/**
 * The byte-preserving frontmatter normalizer, the audit it shares a predicate with, and the on-disk size rules
 * (packages/evolution-core/src/frontmatter.ts). A file is its lines between line feeds; each keeps its own CR.
 */
module Frontmatter {
  import opened Wrappers
  import Decimal
  import Text
  import TmpName

  type Line = string

  // ----- the block -------------------------------------------------------------------

  function WithoutCr(line: Line): Line { if line != "" && line[|line| - 1] == '\r' then line[..|line| - 1] else line }

  function Cr(line: Line): string { if line != "" && line[|line| - 1] == '\r' then "\r" else "" }

  predicate Fence(line: Line) { line == "---" || line == "---\r" }

  function FirstFence(lines: seq<Line>, k: nat): (e: Option<nat>)
    ensures e.Some? ==> k <= e.value < |lines| && Fence(lines[e.value])
    ensures e.Some? ==> forall i | k <= i < e.value :: !Fence(lines[i])
    ensures e.None? ==> forall i | k <= i < |lines| :: !Fence(lines[i])
    decreases |lines| - k
  {
    if k >= |lines| then None else if Fence(lines[k]) then Some(k) else FirstFence(lines, k + 1)
  }

  /** The line of the closing fence, if the file opens with one. */
  function BlockEnd(lines: seq<Line>): Option<nat>
  {
    if lines == [] || !Fence(lines[0]) then None else FirstFence(lines, 1)
  }

  lemma BlockIs(lines: seq<Line>, e: nat)
    ensures BlockEnd(lines) == Some(e) <==>
            1 <= e < |lines| && Fence(lines[0]) && Fence(lines[e]) && forall i | 1 <= i < e :: !Fence(lines[i])
  {
    if lines != [] && FirstFence(lines, 1).Some? {
      var f := FirstFence(lines, 1).value;
      assert Fence(lines[f]);
    }
  }

  // ----- entries ------------------------------------------------------------------------

  predicate KeyChar(c: char) { 'A' <= c <= 'Z' || 'a' <= c <= 'z' || '0' <= c <= '9' || c == '_' || c == '-' }

  function KeyRun(s: string): (n: nat)
    ensures n <= |s|
  {
    if s == "" || !KeyChar(s[0]) then 0 else 1 + KeyRun(s[1..])
  }

  datatype Entry = Entry(key: string, value: string)

  /** A single-line `key: value`, its value trimmed, quotes included. */
  function EntryOf(raw: Line): Option<Entry> { EntryIn(WithoutCr(raw)) }

  function EntryIn(line: Line): Option<Entry>
  {
    var n := KeyRun(line);
    if n == 0 || n == |line| || line[n] != ':' then None
    else if !TmpName.OneLine(Text.TrimStart(line[n + 1..])) then None
    else Some(Entry(line[..n], Text.Trim(line[n + 1..])))
  }

  // ----- which values need quotes ----------------------------------------------------------

  predicate Contains(s: string, t: string)
  {
    |s| >= |t| && (s[..|t|] == t || (s != "" && Contains(s[1..], t)))
  }

  function LowerChar(c: char): char { if 'A' <= c <= 'Z' then c + ' ' else c }

  predicate SameLetters(s: string, t: string) { |s| == |t| && forall i | 0 <= i < |s| :: LowerChar(s[i]) == t[i] }

  function Digits(s: string): (n: nat)
    ensures n <= |s|
  {
    if s == "" || !Decimal.IsDigit(s[0]) then 0 else 1 + Digits(s[1..])
  }

  function Unsigned(s: string): string { if s != "" && (s[0] == '-' || s[0] == '+') then s[1..] else s }

  predicate AllDigits(s: string) { s != "" && Digits(s) == |s| }

  /** Nothing, or an exponent. */
  predicate Exponent(s: string) { s == "" || ((s[0] == 'e' || s[0] == 'E') && AllDigits(Unsigned(s[1..]))) }

  /** A decimal integer or float. */
  predicate NumberShaped(value: string)
  {
    var s := Unsigned(value);
    var n := Digits(s);
    if n > 0 then
      if n < |s| && s[n] == '.' then Exponent(s[n + 1 + Digits(s[n + 1..])..]) else Exponent(s[n..])
    else |s| >= 2 && s[0] == '.' && Digits(s[1..]) > 0 && Exponent(s[1 + Digits(s[1..])..])
  }

  predicate HexShaped(value: string)
  {
    |value| > 2 && value[0] == '0' && LowerChar(value[1]) == 'x'
    && forall i | 2 <= i < |value| :: TmpName.IsHex(LowerChar(value[i]))
  }

  predicate OctalShaped(value: string)
  {
    |value| > 2 && value[0] == '0' && value[1] == 'o' && forall i | 2 <= i < |value| :: '0' <= value[i] <= '7'
  }

  predicate Wrapped(value: string, open: char, close: char)
  {
    |value| >= 2 && value[0] == open && value[|value| - 1] == close
  }

  /** `>` or `|`, perhaps with a chomping sign and an indent. */
  predicate BlockHeader(value: string)
  {
    value != "" && (value[0] == '>' || value[0] == '|')
    && (value[1..] == "" || Unsigned(value[1..]) == "" || AllDigits(Unsigned(value[1..])))
  }

  predicate Indicator(c: char) { c in "-?:,[]{}#&*!|>'\"%@`" || Text.JsSpace(c) }

  predicate NeedsQuotes(value: string)
  {
    && value != ""
    && !Wrapped(value, '\"', '\"') && !Wrapped(value, '\'', '\'')
    && !Wrapped(value, '[', ']') && !Wrapped(value, '{', '}')
    && !BlockHeader(value)
    && (|| Contains(value, ": ") || Contains(value, " #") || value[|value| - 1] == ':'
        || SameLetters(value, "null") || SameLetters(value, "true") || SameLetters(value, "false") || value == "~"
        || NumberShaped(value) || HexShaped(value) || OctalShaped(value)
        || SameLetters(Unsigned(value), ".inf") || SameLetters(value, ".nan")
        || Indicator(value[0]))
  }

  lemma {:induction false} ContainsAt(s: string, t: string, i: nat)
    requires i + |t| <= |s| && s[i..i + |t|] == t
    ensures Contains(s, t)
  {
    if i > 0 {
      assert s[1..][i - 1..i - 1 + |t|] == t;
      ContainsAt(s[1..], t, i - 1);
    } else {
      assert s[..|t|] == t;
    }
  }

  lemma {:induction false} ContainsWhere(s: string, t: string) returns (i: nat)
    requires Contains(s, t)
    ensures i + |t| <= |s| && s[i..i + |t|] == t
  {
    if s[..|t|] == t {
      i := 0;
    } else {
      var k := ContainsWhere(s[1..], t);
      i := k + 1;
      assert s[i..i + |t|] == s[1..][k..k + |t|];
    }
  }

  /** Quoted already, a flow collection, or a block header. */
  predicate Spared(value: string)
  {
    || Wrapped(value, '\"', '\"') || Wrapped(value, '\'', '\'') || Wrapped(value, '[', ']') || Wrapped(value, '{', '}')
    || BlockHeader(value)
  }

  /** A colon or a hash where YAML reads one: before a blank or at the end, or behind a blank. */
  ghost predicate ReadsAsMapping(value: string)
    requires value != ""
  {
    || value[|value| - 1] == ':'
    || (exists i: nat :: PairAt(value, i, ": "))
    || (exists i: nat :: PairAt(value, i, " #"))
  }

  predicate Word(value: string) { SameLetters(value, "null") || SameLetters(value, "true") || SameLetters(value, "false") }

  predicate Letter(c: char) { 'A' <= c <= 'Z' || 'a' <= c <= 'z' }

  /** Two characters side by side. */
  predicate PairAt(s: string, i: nat, pair: string)
    requires |pair| == 2
  {
    i + 1 < |s| && s[i] == pair[0] && s[i + 1] == pair[1]
  }

  lemma PairIs(s: string, pair: string)
    requires |pair| == 2
    ensures Contains(s, pair) <==> exists i: nat :: PairAt(s, i, pair)
  {
    if Contains(s, pair) {
      var i := ContainsWhere(s, pair);
      assert s[i] == s[i..i + 2][0] && s[i + 1] == s[i..i + 2][1];
      assert PairAt(s, i, pair);
    }
    if i: nat :| PairAt(s, i, pair) {
      assert s[i..i + 2] == pair;
      ContainsAt(s, pair, i);
    }
  }

  lemma MappingIs(value: string)
    requires value != ""
    ensures ReadsAsMapping(value) <==> Contains(value, ": ") || Contains(value, " #") || value[|value| - 1] == ':'
  {
    PairIs(value, ": ");
    PairIs(value, " #");
  }

  /** What must be quoted: unless it is spared, a value YAML would read as a mapping or cut at a comment, one that begins
      with an indicator, and one of the words and integers it would not read as text. */
  lemma MustBeQuoted(value: string)
    requires value != "" && !Spared(value)
    ensures ReadsAsMapping(value) || Indicator(value[0]) || Word(value) || value == "~" ==> NeedsQuotes(value)
    ensures (forall i | 0 <= i < |value| :: Decimal.IsDigit(value[i])) ==> NeedsQuotes(value)
  {
    MappingIs(value);
    if forall i | 0 <= i < |value| :: Decimal.IsDigit(value[i]) { DigitsAll(value); }
  }

  lemma {:induction false} DigitsAll(s: string)
    requires forall i | 0 <= i < |s| :: Decimal.IsDigit(s[i])
    ensures Digits(s) == |s|
  {
    if s != "" { DigitsAll(s[1..]); }
  }

  /** And what must not: text that begins with a letter is flagged exactly if it reads as a mapping or is one of the words. */
  lemma PlainTextIsLeft(value: string)
    requires value != "" && Letter(value[0])
    ensures NeedsQuotes(value) <==> ReadsAsMapping(value) || Word(value)
  {
    MappingIs(value);
  }

  // ----- quoting ------------------------------------------------------------------------------

  function Doubled(v: string): string
  {
    if v == "" then "" else (if v[0] == '\'' then "''" else [v[0]]) + Doubled(v[1..])
  }

  predicate Escapable(v: string) { '\"' in v || '\\' in v }

  function Quote(v: string): string { if Escapable(v) then "'" + Doubled(v) + "'" else "\"" + v + "\"" }

  /** The rule the audit and the rewrite share. */
  type Rule = string -> bool

  /** It spares what is empty and what is already quoted. */
  ghost predicate Spares(rule: Rule) { forall v: string | v == "" || Wrapped(v, '\"', '\"') || Wrapped(v, '\'', '\'') :: !rule(v) }

  lemma PlainScalarRuleSpares()
    ensures Spares(NeedsQuotes)
  {
  }

  /** The line with its value quoted. */
  function Fixed(raw: Line, e: Entry): Line { e.key + ": " + Quote(e.value) + Cr(raw) }

  /** A line, what the scan makes of it, and what it would be rewritten to. */
  datatype Row = Row(raw: Line, entry: Option<Entry>, flagged: bool, fixed: Line)

  function RowOf(rule: Rule, raw: Line): (row: Row)
    ensures row.flagged ==> row.entry.Some?
    ensures !row.flagged ==> row.fixed == raw
  {
    var e := EntryOf(raw);
    if e.Some? && rule(e.value.value) then Row(raw, e, true, Fixed(raw, e.value)) else Row(raw, e, false, raw)
  }

  // ----- reading quoted scalars (YAML 1.2, sections 7.3.1 and 7.3.2) ------------------------------

  /** The inside of a double-quoted scalar that uses no escape stands for itself. */
  function DecodeDouble(inside: string): Option<string>
  {
    if '\\' in inside || '\"' in inside then None else Some(inside)
  }

  /** Inside single quotes a doubled quote stands for one, and a lone one ends the scalar. */
  function DecodeSingle(inside: string): Option<string>
  {
    if inside == "" then Some("")
    else if inside[0] != '\'' then
      var rest := DecodeSingle(inside[1..]);
      if rest.None? then None else Some([inside[0]] + rest.value)
    else if |inside| >= 2 && inside[1] == '\'' then
      var rest := DecodeSingle(inside[2..]);
      if rest.None? then None else Some("'" + rest.value)
    else None
  }

  function Decode(scalar: string): Option<string>
  {
    if Wrapped(scalar, '\"', '\"') then DecodeDouble(scalar[1..|scalar| - 1])
    else if Wrapped(scalar, '\'', '\'') then DecodeSingle(scalar[1..|scalar| - 1])
    else None
  }

  lemma {:induction false} DoubledDecodes(v: string)
    ensures DecodeSingle(Doubled(v)) == Some(v)
  {
    if v == "" {
    } else {
      DoubledDecodes(v[1..]);
      assert v == [v[0]] + v[1..];
      if v[0] == '\'' {
        assert Doubled(v)[2..] == Doubled(v[1..]);
      } else {
        assert Doubled(v)[1..] == Doubled(v[1..]);
      }
    }
  }

  /** Whichever quoting is chosen, the scalar reads back as the original value. */
  lemma QuotedDecodes(v: string)
    ensures Decode(Quote(v)) == Some(v)
  {
    if Escapable(v) {
      DoubledDecodes(v);
      assert Quote(v)[1..|Quote(v)| - 1] == Doubled(v);
    } else {
      assert Quote(v)[1..|Quote(v)| - 1] == v;
    }
  }

  // ----- what a rewritten line is ---------------------------------------------------------------

  lemma {:induction false} KeyRunIs(key: string, rest: string)
    requires (forall i | 0 <= i < |key| :: KeyChar(key[i])) && rest != "" && !KeyChar(rest[0])
    ensures KeyRun(key + rest) == |key|
  {
    if key == "" {
      assert key + rest == rest;
    } else {
      assert (key + rest)[1..] == key[1..] + rest;
      KeyRunIs(key[1..], rest);
    }
  }

  lemma {:induction false} KeyRunHolds(s: string)
    ensures forall i | 0 <= i < KeyRun(s) :: KeyChar(s[i])
  {
    if s != "" && KeyChar(s[0]) {
      KeyRunHolds(s[1..]);
      assert forall i | 1 <= i < KeyRun(s) :: s[i] == s[1..][i - 1];
    }
  }

  lemma TrimmedIs(q: string)
    requires q != "" && !Text.JsSpace(q[0]) && !Text.JsSpace(q[|q| - 1])
    ensures Text.TrimStart(" " + q) == q && Text.Trim(" " + q) == q
  {
    assert (" " + q)[1..] == q;
    assert Text.TrimStart(q) == q && Text.TrimEnd(q) == q;
  }

  lemma {:induction false} TrimEndKeepsLine(s: string)
    requires TmpName.OneLine(s)
    ensures TmpName.OneLine(Text.TrimEnd(s))
  {
  }

  lemma {:induction false} DoubledKeepsLine(v: string)
    requires TmpName.OneLine(v)
    ensures TmpName.OneLine(Doubled(v))
  {
    if v != "" {
      DoubledKeepsLine(v[1..]);
    }
  }

  lemma QuoteIsWrapped(v: string)
    ensures var q := Quote(v);
            && (Wrapped(q, '\"', '\"') || Wrapped(q, '\'', '\''))
            && (TmpName.OneLine(v) ==> TmpName.OneLine(q))
            && !Text.JsSpace(q[0]) && !Text.JsSpace(q[|q| - 1]) && q[|q| - 1] != '\r'
  {
    if Escapable(v) && TmpName.OneLine(v) {
      DoubledKeepsLine(v);
    }
  }

  lemma EntryIs(line: Line, n: nat, key: string, rest: string, value: string)
    requires KeyRun(line) == n && 0 < n < |line| && line[n] == ':' && rest == line[n + 1..]
    requires TmpName.OneLine(Text.TrimStart(rest)) && key == line[..n] && value == Text.Trim(rest)
    ensures EntryIn(line) == Some(Entry(key, value))
  {
  }

  lemma CrOf(line: Line, cr: string)
    requires line != "" && line[|line| - 1] != '\r' && (cr == "" || cr == "\r")
    ensures WithoutCr(line + cr) == line && Cr(line + cr) == cr
  {
    if cr == "" {
      assert line + cr == line;
    } else {
      assert (line + cr)[..|line + cr| - 1] == line;
    }
  }

  predicate KeyWord(key: string) { key != "" && forall i | 0 <= i < |key| :: KeyChar(key[i]) }

  /** A value that starts and ends with something visible, on one line. */
  predicate Tidy(q: string)
  {
    q != "" && TmpName.OneLine(q) && !Text.JsSpace(q[0]) && !Text.JsSpace(q[|q| - 1]) && q[|q| - 1] != '\r'
  }

  lemma Slices(key: string, q: string, line: Line)
    requires line == key + ": " + q && q != ""
    ensures line == key + (": " + q) && line[..|key|] == key && line[|key|] == ':' && line[|key| + 1..] == " " + q
    ensures line != "" && line[|line| - 1] == q[|q| - 1]
  {
  }

  lemma BuiltKey(key: string, q: string, line: Line)
    requires KeyWord(key) && q != "" && line == key + ": " + q
    ensures KeyRun(line) == |key| && line[..|key|] == key && line[|key|] == ':' && line[|key| + 1..] == " " + q
    ensures line[|line| - 1] == q[|q| - 1]
  {
    Slices(key, q, line);
    KeyRunIs(key, ": " + q);
  }

  lemma BuiltCr(key: string, q: string, cr: string, line: Line)
    requires KeyWord(key) && Tidy(q) && (cr == "" || cr == "\r") && line == key + ": " + q
    ensures WithoutCr(line + cr) == line && Cr(line + cr) == cr
  {
    BuiltKey(key, q, line);
    CrOf(line, cr);
  }

  lemma TidyValue(q: string, rest: string)
    requires Tidy(q) && rest == " " + q
    ensures TmpName.OneLine(Text.TrimStart(rest)) && Text.Trim(rest) == q
  {
    TrimmedIs(q);
  }

  lemma BuiltIn(key: string, q: string, line: Line, rest: string)
    requires KeyWord(key) && Tidy(q) && line == key + ": " + q && rest == " " + q
    ensures EntryIn(line) == Some(Entry(key, q))
  {
    BuiltKey(key, q, line);
    TidyValue(q, rest);
    assert 0 < |key| < |line| && line[|key| + 1..] == rest;
    EntryIs(line, |key|, key, rest, q);
  }

  /** A line put together from a key and a tidy value is an entry of just that. */
  lemma BuiltEntry(key: string, q: string, cr: string, line: Line)
    requires KeyWord(key) && Tidy(q) && (cr == "" || cr == "\r") && line == key + ": " + q
    ensures EntryOf(line + cr) == Some(Entry(key, q)) && Cr(line + cr) == cr
  {
    BuiltCr(key, q, cr, line);
    BuiltIn(key, q, line, " " + q);
  }

  lemma FenceIsNoEntry(raw: Line)
    requires Fence(raw)
    ensures EntryOf(raw).None?
  {
    assert WithoutCr("---") == "---" && WithoutCr("---\r") == "---";
    DashRun();
  }

  lemma DashRun()
    ensures KeyRun("---") == 3
  {
    assert "---"[1..] == "--" && "--"[1..] == "-" && "-"[1..] == "";
    assert KeyRun("-") == 1 && KeyRun("--") == 2;
  }

  lemma KeyIsKey(line: Line, n: nat)
    requires 0 < n <= KeyRun(line)
    ensures KeyWord(line[..n])
  {
    KeyRunHolds(line);
    assert forall i | 0 <= i < n :: line[..n][i] == line[i];
  }

  lemma TrimKeepsLine(rest: string)
    requires TmpName.OneLine(Text.TrimStart(rest))
    ensures TmpName.OneLine(Text.Trim(rest))
  {
    TrimEndKeepsLine(Text.TrimStart(rest));
  }

  lemma EntryHolds(raw: Line)
    requires EntryOf(raw).Some?
    ensures KeyWord(EntryOf(raw).value.key) && TmpName.OneLine(EntryOf(raw).value.value)
  {
    var line := WithoutCr(raw);
    KeyIsKey(line, KeyRun(line));
    TrimKeepsLine(line[KeyRun(line) + 1..]);
  }

  lemma QuoteIsTidy(v: string)
    requires TmpName.OneLine(v)
    ensures Tidy(Quote(v)) && (Wrapped(Quote(v), '\"', '\"') || Wrapped(Quote(v), '\'', '\''))
  {
    QuoteIsWrapped(v);
  }

  lemma CrIsCr(raw: Line)
    ensures Cr(raw) == "" || Cr(raw) == "\r"
  {
  }

  /** A rewritten line: same key, same CR, a value the rule spares, which decodes to the old one. */
  lemma FixedLineIs(raw: Line, e: Entry, line: Line)
    requires EntryOf(raw) == Some(e) && line == e.key + ": " + Quote(e.value)
    ensures EntryOf(line + Cr(raw)) == Some(Entry(e.key, Quote(e.value))) && Cr(line + Cr(raw)) == Cr(raw)
    ensures Decode(Quote(e.value)) == Some(e.value)
    ensures Wrapped(Quote(e.value), '\"', '\"') || Wrapped(Quote(e.value), '\'', '\'')
  {
    EntryHolds(raw);
    QuoteIsTidy(e.value);
    CrIsCr(raw);
    BuiltEntry(e.key, Quote(e.value), Cr(raw), line);
    QuotedDecodes(e.value);
  }

  /** What a rewritten line is to the scan that comes after: no longer flagged, under the same key, and no fence
      unless it was one. */
  ghost predicate Settled(rule: Rule, row: Row, again: Row)
  {
    && !again.flagged && (row.entry.Some? <==> again.entry.Some?)
    && (row.entry.Some? ==> again.entry.value.key == row.entry.value.key)
    && (!row.flagged ==> again == row)
    && (row.flagged && row.entry.Some? ==>
          Decode(again.entry.value.value) == Some(row.entry.value.value) && Cr(again.raw) == Cr(row.raw))
    && (Fence(again.raw) <==> Fence(row.raw))
  }

  lemma RowSettles(rule: Rule, raw: Line)
    requires Spares(rule)
    ensures Settled(rule, RowOf(rule, raw), RowOf(rule, RowOf(rule, raw).fixed))
  {
    var row := RowOf(rule, raw);
    if row.flagged {
      var e := row.entry.value;
      FixedLineIs(raw, e, e.key + ": " + Quote(e.value));
      EntriesAreNoFences(raw, row.fixed);
    }
  }

  lemma EntriesAreNoFences(a: Line, b: Line)
    requires EntryOf(a).Some? && EntryOf(b).Some?
    ensures !Fence(a) && !Fence(b)
  {
    if Fence(a) { FenceIsNoEntry(a); }
    if Fence(b) { FenceIsNoEntry(b); }
  }

  // ----- the whole file ---------------------------------------------------------------------------

  /** A row that is not flagged is not rewritten; one that is has an entry. */
  predicate Sensible(row: Row) { if row.flagged then row.entry.Some? else row.fixed == row.raw }

  function RowsOf(rule: Rule, lines: seq<Line>): (rows: seq<Row>)
    ensures |rows| == |lines| && forall i | 0 <= i < |rows| :: Sensible(rows[i])
  {
    seq(|lines|, i requires 0 <= i < |lines| => RowOf(rule, lines[i]))
  }

  function Raws(rows: seq<Row>): (lines: seq<Line>)
    ensures |lines| == |rows| && forall i | 0 <= i < |rows| :: lines[i] == rows[i].raw
  {
    seq(|rows|, i requires 0 <= i < |rows| => rows[i].raw)
  }

  /** The file with every flagged entry of its block quoted. */
  function Rewritten(rows: seq<Row>, end: nat): (r: seq<Line>)
    ensures |r| == |rows| && forall i | 0 <= i < |rows| :: r[i] == if 1 <= i < end then rows[i].fixed else rows[i].raw
  {
    seq(|rows|, i requires 0 <= i < |rows| => if 1 <= i < end then rows[i].fixed else rows[i].raw)
  }

  datatype Issue = DuplicateKey(key: string) | ControlCharacters(key: string) | Unverified

  predicate Control(c: char)
  {
    c <= '\U{0008}' || c == '\U{000B}' || c == '\U{000C}' || '\U{000E}' <= c <= '\U{001F}'
  }

  predicate HasControl(v: string) { exists i | 0 <= i < |v| :: Control(v[i]) }

  /** The keys of the entries before line `i`. */
  function KeysBefore(rows: seq<Row>, i: nat): set<string>
    requires i <= |rows|
  {
    if i <= 1 then {}
    else KeysBefore(rows, i - 1) + if rows[i - 1].entry.Some? then {rows[i - 1].entry.value.key} else {}
  }

  /** What is wrong with line `i`, if anything. */
  function IssueAt(rows: seq<Row>, i: nat): Option<Issue>
    requires 1 <= i < |rows|
  {
    var row := rows[i];
    if row.entry.None? then None
    else if row.entry.value.key in KeysBefore(rows, i) then Some(DuplicateKey(row.entry.value.key))
    else if row.flagged && HasControl(row.entry.value.value) then Some(ControlCharacters(row.entry.value.key))
    else None
  }

  /** All of it, in line order. */
  function Issues(rows: seq<Row>, i: nat): seq<Issue>
    requires i <= |rows|
  {
    if i <= 1 then [] else Issues(rows, i - 1) + if IssueAt(rows, i - 1).Some? then [IssueAt(rows, i - 1).value] else []
  }

  /** The keys whose values were quoted, in line order. */
  function Fields(rows: seq<Row>, i: nat): seq<string>
    requires i <= |rows|
  {
    if i <= 1 then []
    else
      Fields(rows, i - 1)
      + if rows[i - 1].entry.Some? && rows[i - 1].flagged && IssueAt(rows, i - 1).None? then [rows[i - 1].entry.value.key] else []
  }

  datatype Normalized = Normalized(lines: seq<Line>, changed: bool, fields: seq<string>, issues: seq<Issue>)

  /** Any issue refuses the whole rewrite; a rewrite that does not verify is rolled back. */
  function Outcome(rows: seq<Row>, end: nat, verified: bool): Normalized
    requires end <= |rows|
  {
    if Issues(rows, end) != [] then Normalized(Raws(rows), false, [], Issues(rows, end))
    else if Fields(rows, end) == [] then Normalized(Raws(rows), false, [], [])
    else if !verified then Normalized(Raws(rows), false, [], [Unverified])
    else Normalized(Rewritten(rows, end), true, Fields(rows, end), [])
  }

  /** No key twice, and no control character in a value that would be quoted. */
  ghost predicate Clean(rows: seq<Row>, end: nat)
    requires end <= |rows|
  {
    && (forall i, j | 1 <= i < j < end && rows[i].entry.Some? && rows[j].entry.Some? ::
          rows[i].entry.value.key != rows[j].entry.value.key)
    && forall i | 1 <= i < end && rows[i].entry.Some? && rows[i].flagged :: !HasControl(rows[i].entry.value.value)
  }

  lemma {:induction false} KeysAre(rows: seq<Row>, i: nat, key: string)
    requires i <= |rows|
    ensures key in KeysBefore(rows, i) <==> exists j | 1 <= j < i :: rows[j].entry.Some? && rows[j].entry.value.key == key
  {
    if i > 1 { KeysAre(rows, i - 1, key); }
  }

  /** The block has an issue if and only if it is not clean. */
  lemma {:induction false} IssuesIff(rows: seq<Row>, end: nat)
    requires end <= |rows|
    ensures Issues(rows, end) == [] <==> Clean(rows, end)
  {
    if end > 1 {
      IssuesIff(rows, end - 1);
      var row := rows[end - 1];
      if row.entry.Some? { KeysAre(rows, end - 1, row.entry.value.key); }
    }
  }

  lemma {:induction false} FieldsIff(rows: seq<Row>, end: nat)
    requires end <= |rows| && Issues(rows, end) == []
    ensures Fields(rows, end) == [] <==> forall i | 1 <= i < end :: !(rows[i].entry.Some? && rows[i].flagged)
  {
    if end > 1 { FieldsIff(rows, end - 1); }
  }

  /** The file is rewritten if and only if its block is clean, something in it is flagged, and the rewrite verifies; and
      it is refused if and only if it is not clean, or something is flagged and the rewrite does not verify. */
  lemma RewrittenIff(rows: seq<Row>, end: nat, verified: bool)
    requires end <= |rows|
    ensures var r, flagged := Outcome(rows, end, verified), exists i | 1 <= i < end :: rows[i].entry.Some? && rows[i].flagged;
            && (r.changed <==> Clean(rows, end) && flagged && verified)
            && (r.issues != [] <==> !Clean(rows, end) || (flagged && !verified))
            && (!r.changed ==> r.lines == Raws(rows)) && (r.changed ==> r.lines == Rewritten(rows, end))
  {
    IssuesIff(rows, end);
    if Issues(rows, end) == [] { FieldsIff(rows, end); }
  }

  lemma RowCounts(rows: seq<Row>, i: nat)
    requires 1 <= i < |rows|
    ensures Issues(rows, i + 1) ==
            if IssueAt(rows, i).Some? then Issues(rows, i) + [IssueAt(rows, i).value] else Issues(rows, i)
    ensures Fields(rows, i + 1) ==
            if rows[i].entry.Some? && rows[i].flagged && IssueAt(rows, i).None?
            then Fields(rows, i) + [rows[i].entry.value.key] else Fields(rows, i)
  {
  }

  /** One turn of the loop over the block. */
  method JudgeRow(rows: seq<Row>, i: nat, seen: set<string>) returns (issue: Option<Issue>, fix: bool, seen': set<string>)
    requires 1 <= i < |rows| && seen == KeysBefore(rows, i)
    ensures issue == IssueAt(rows, i) && seen' == KeysBefore(rows, i + 1)
    ensures fix <==> rows[i].entry.Some? && rows[i].flagged && issue.None?
  {
    var row := rows[i];
    issue, fix, seen' := None, false, seen;
    if row.entry.None? {
      return;
    }
    var key := row.entry.value.key;
    if key in seen {
      issue := Some(DuplicateKey(key));
      return;
    }
    seen' := seen + {key};
    if !row.flagged {
      return;
    }
    if HasControl(row.entry.value.value) {
      issue := Some(ControlCharacters(key));
      return;
    }
    fix := true;
  }

  /** The loop over the block. */
  /** The lines before the `i`-th are done (if no issue was found, as they are to be), the others untouched. */
  ghost predicate RewrittenTo(rows: seq<Row>, lines: seq<Line>, i: nat, clean: bool)
  {
    && |lines| == |rows| > 0 && lines[0] == rows[0].raw && (forall k | i <= k < |rows| :: lines[k] == rows[k].raw)
    && (clean ==> forall k | 1 <= k < i && k < |rows| :: lines[k] == rows[k].fixed)
  }

  lemma LineDone(rows: seq<Row>, lines: seq<Line>, i: nat, clean: bool, fine: bool, fix: bool)
    requires 1 <= i < |rows| && RewrittenTo(rows, lines, i, clean) && Sensible(rows[i])
    requires !fix && fine ==> !rows[i].flagged
    ensures RewrittenTo(rows, if fix then lines[i := rows[i].fixed] else lines, i + 1, clean && fine)
  {
  }

  method RewriteBlock(rows: seq<Row>, end: nat) returns (lines: seq<Line>, fields: seq<string>, issues: seq<Issue>)
    requires 0 < end < |rows| && forall i | 0 <= i < |rows| :: Sensible(rows[i])
    ensures issues == Issues(rows, end) && fields == Fields(rows, end)
    ensures issues == [] ==> lines == Rewritten(rows, end)
  {
    lines, fields, issues := Raws(rows), [], [];
    var seen: set<string> := {};
    for i := 1 to end
      invariant seen == KeysBefore(rows, i)
      invariant issues == Issues(rows, i) && fields == Fields(rows, i)
      invariant RewrittenTo(rows, lines, i, issues == [])
    {
      var issue, fix, seen' := JudgeRow(rows, i, seen);
      RowCounts(rows, i);
      LineDone(rows, lines, i, issues == [], issue.None?, fix);
      seen := seen';
      if issue.Some? {
        issues := issues + [issue.value];
      } else if fix {
        lines := lines[i := rows[i].fixed];
        fields := fields + [rows[i].entry.value.key];
      }
    }
  }

  /** `verified`: whether the real parser reads the rewritten block back to the original values. */
  method NormalizeFrontmatter(content: seq<Line>, rule: Rule, verified: bool) returns (r: Normalized)
    ensures BlockEnd(content).None? ==> r == Normalized(content, false, [], [])
    ensures BlockEnd(content).Some? ==>
              0 < BlockEnd(content).value < |content| && r == Outcome(RowsOf(rule, content), BlockEnd(content).value, verified)
  {
    var block := BlockEnd(content);
    if block.None? {
      return Normalized(content, false, [], []);
    }
    var rows := RowsOf(rule, content);
    RawsAreContent(rule, content);
    var lines, fields, issues := RewriteBlock(rows, block.value);
    if issues != [] {
      return Normalized(content, false, [], issues);
    }
    if fields == [] {
      return Normalized(content, false, [], []);
    }
    if !verified {
      return Normalized(content, false, [], [Unverified]);
    }
    r := Normalized(lines, true, fields, []);
  }

  lemma RawsAreContent(rule: Rule, content: seq<Line>)
    ensures Raws(RowsOf(rule, content)) == content
  {
  }

  // ----- what normalization promises -------------------------------------------------------------------

  lemma {:induction false} FenceMoves(a: seq<Line>, b: seq<Line>, k: nat)
    requires |a| == |b| && forall i | k <= i < |a| :: Fence(a[i]) <==> Fence(b[i])
    ensures FirstFence(a, k) == FirstFence(b, k)
    decreases |a| - k
  {
    if k < |a| {
      FenceMoves(a, b, k + 1);
    }
  }

  /** The rows of the rewritten file, next to those of the file. */
  ghost predicate Successors(rule: Rule, rows: seq<Row>, again: seq<Row>, end: nat)
  {
    |again| == |rows| && forall i | 0 <= i < |rows| :: if 1 <= i < end then Settled(rule, rows[i], again[i]) else again[i] == rows[i]
  }

  lemma RewrittenRows(rule: Rule, content: seq<Line>, end: nat)
    requires Spares(rule)
    ensures Successors(rule, RowsOf(rule, content), RowsOf(rule, Rewritten(RowsOf(rule, content), end)), end)
  {
    var rows := RowsOf(rule, content);
    forall i | 0 <= i < |rows|
      ensures var again := RowOf(rule, Rewritten(rows, end)[i]);
              if 1 <= i < end then Settled(rule, rows[i], again) else again == rows[i]
    {
      RowSettles(rule, content[i]);
    }
  }

  lemma {:induction false} SameKeys(rule: Rule, rows: seq<Row>, again: seq<Row>, end: nat, i: nat)
    requires Successors(rule, rows, again, end) && i <= end <= |rows|
    ensures KeysBefore(rows, i) == KeysBefore(again, i)
  {
    if i > 1 {
      SameKeys(rule, rows, again, end, i - 1);
      assert Settled(rule, rows[i - 1], again[i - 1]);
    }
  }

  lemma {:induction false} NothingLeft(rule: Rule, rows: seq<Row>, again: seq<Row>, end: nat, i: nat)
    requires Successors(rule, rows, again, end) && i <= end <= |rows| && Issues(rows, i) == []
    ensures Issues(again, i) == [] && Fields(again, i) == []
  {
    if i > 1 {
      NothingLeft(rule, rows, again, end, i - 1);
      SameKeys(rule, rows, again, end, i - 1);
      assert Settled(rule, rows[i - 1], again[i - 1]);
    }
  }

  /** Normalizing a normalized file finds nothing to do, whatever the parser says: the result is the file itself.
      The block ends on the same line. */
  lemma NormalizationIsIdempotent(rule: Rule, content: seq<Line>, end: nat, verified: bool)
    requires Spares(rule) && BlockEnd(content) == Some(end) && Issues(RowsOf(rule, content), end) == []
    ensures 0 < end < |content|
    ensures var r := Rewritten(RowsOf(rule, content), end);
            BlockEnd(r) == Some(end) && Outcome(RowsOf(rule, r), end, verified) == Normalized(r, false, [], [])
  {
    var rows := RowsOf(rule, content);
    var r := Rewritten(rows, end);
    RewrittenRows(rule, content, end);
    var again := RowsOf(rule, r);
    forall i | 0 <= i < |content| ensures Fence(content[i]) <==> Fence(r[i]) {
      assert again[i].raw == r[i] && rows[i].raw == content[i];
      assert 1 <= i < end ==> Settled(rule, rows[i], again[i]);
    }
    FenceMoves(content, r, 1);
    NothingLeft(rule, rows, again, end, end);
    RawsAreContent(rule, r);
  }

  /** Outside the block, and on lines of it that were not flagged, every byte stays; a flagged line keeps its key
      and its CR, and its value reads back as what it was. */
  lemma BytesAreKept(rule: Rule, content: seq<Line>, end: nat, i: nat)
    requires Spares(rule) && i < |content|
    ensures var r := Rewritten(RowsOf(rule, content), end);
            && ((i == 0 || end <= i || !RowOf(rule, content[i]).flagged) ==> r[i] == content[i])
            && (1 <= i < end && RowOf(rule, content[i]).flagged ==>
                  var e := EntryOf(r[i]);
                  e.Some? && e.value.key == EntryOf(content[i]).value.key && Cr(r[i]) == Cr(content[i])
                  && Decode(e.value.value) == Some(EntryOf(content[i]).value.value))
  {
    RowSettles(rule, content[i]);
  }

  // ----- the audit --------------------------------------------------------------------------------------

  function Unsafe(rows: seq<Row>): seq<Entry>
  {
    if rows == [] then []
    else
      var row := rows[|rows| - 1];
      Unsafe(rows[..|rows| - 1]) + if row.entry.Some? && row.flagged then [row.entry.value] else []
  }

  /** The entries of a block that the catalog cannot load as written. */
  method UnsafeEntries(rows: seq<Row>) returns (found: seq<Entry>)
    ensures found == Unsafe(rows)
  {
    found := [];
    for i := 0 to |rows|
      invariant found == Unsafe(rows[..i])
    {
      var row := rows[i];
      assert rows[..i + 1][..i] == rows[..i];
      if row.entry.Some? && row.flagged {
        found := found + [row.entry.value];
      }
    }
    assert rows[..|rows|] == rows;
  }

  lemma {:induction false} NothingUnsafe(rows: seq<Row>)
    requires forall i | 0 <= i < |rows| :: !rows[i].flagged
    ensures Unsafe(rows) == []
  {
    if rows != [] {
      NothingUnsafe(rows[..|rows| - 1]);
    }
  }

  /** A normalized block has no entry left for the audit to flag: the audit and the rewrite cannot disagree. */
  lemma AuditFindsNothing(rule: Rule, content: seq<Line>, end: nat)
    requires Spares(rule) && 1 <= end <= |content|
    ensures Unsafe(RowsOf(rule, Rewritten(RowsOf(rule, content), end))[1..end]) == []
  {
    var rows := RowsOf(rule, content);
    var again := RowsOf(rule, Rewritten(rows, end));
    RewrittenRows(rule, content, end);
    forall i | 0 <= i < end - 1 ensures !again[1..end][i].flagged {
      assert Settled(rule, rows[i + 1], again[i + 1]);
    }
    NothingUnsafe(again[1..end]);
  }

  // ----- the size rules ------------------------------------------------------------------------------------

  /** The bytes that land on disk. */
  function OnDisk(content: string): string { Text.TrimEnd(content) + "\n" }

  predicate ExceedsLimit(content: string, limit: nat) { |OnDisk(content)| > limit }

  /** A net shrink of a file that is already over the limit. */
  predicate ShrinksOverLimit(next: string, current: Option<string>, limit: nat)
  {
    current.Some? && ExceedsLimit(current.value, limit) && |OnDisk(next)| < |OnDisk(current.value)|
  }

  predicate Accepted(next: string, current: Option<string>, limit: nat)
  {
    !ExceedsLimit(next, limit) || ShrinksOverLimit(next, current, limit)
  }

  /** What landed is judged as it was judged: an accepted text can be written again, and what was written is never
      longer than the limit unless the file was longer before. */
  lemma WrittenIsJudgedAlike(content: string, limit: nat)
    ensures OnDisk(OnDisk(content)) == OnDisk(content)
    ensures ExceedsLimit(OnDisk(content), limit) <==> ExceedsLimit(content, limit)
    ensures ExceedsLimit(content, limit) <==> |OnDisk(content)| > limit
  {
    var t := Text.TrimEnd(content);
    TrimEndDrops(t, '\n');
    TrimEndTwice(t);
  }

  lemma TrimEndDrops(t: string, c: char)
    requires Text.JsSpace(c)
    ensures Text.TrimEnd(t + [c]) == Text.TrimEnd(t)
  {
    assert (t + [c])[..|t + [c]| - 1] == t;
  }

  lemma TrimEndTwice(t: string)
    requires t == "" || !Text.JsSpace(t[|t| - 1])
    ensures Text.TrimEnd(t) == t
  {
  }

  predicate AcceptedSize(next: nat, current: nat, limit: nat) { next <= limit || (current > limit && next < current) }

  lemma AcceptedBySize(next: string, current: string, limit: nat)
    ensures Accepted(next, Some(current), limit) <==> AcceptedSize(|OnDisk(next)|, |OnDisk(current)|, limit)
  {
  }

  lemma {:induction false} SizesNeverSwell(sizes: seq<nat>, limit: nat)
    requires sizes != [] && forall k | 0 <= k < |sizes| - 1 :: AcceptedSize(sizes[k + 1], sizes[k], limit)
    ensures sizes[|sizes| - 1] <= limit || sizes[|sizes| - 1] <= sizes[0]
  {
    if |sizes| > 1 {
      var n := |sizes| - 1;
      SizesNeverSwell(sizes[..n], limit);
      assert AcceptedSize(sizes[n - 1 + 1], sizes[n - 1], limit);
    }
  }

  /** Along any run of accepted writes, each over what the one before left, the file on disk never grows past both
      the limit and what it was. */
  lemma AcceptedWritesNeverSwell(texts: seq<string>, limit: nat)
    requires texts != [] && forall k | 0 <= k < |texts| - 1 :: Accepted(texts[k + 1], Some(texts[k]), limit)
    ensures var last := |OnDisk(texts[|texts| - 1])|;
            last <= limit || last <= |OnDisk(texts[0])|
  {
    var sizes: seq<nat> := seq(|texts|, i requires 0 <= i < |texts| => |OnDisk(texts[i])|);
    forall k | 0 <= k < |sizes| - 1 ensures AcceptedSize(sizes[k + 1], sizes[k], limit) {
      AcceptedBySize(texts[k + 1], texts[k], limit);
    }
    SizesNeverSwell(sizes, limit);
  }
}
