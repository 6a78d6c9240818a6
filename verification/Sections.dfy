/**
 * The H2 scan of a document body and the selection of sections or blocks from it
 * (packages/evolution-core/src/document-body.ts, section-selection.ts). A body is its lines.
 */
module Sections {
  import opened Wrappers
  import Text
  import TmpName

  type Line = string

  // ----- headings ------------------------------------------------------------------

  /** Where a section ends: two hashes and a blank. */
  predicate Boundary(l: Line) { |l| >= 3 && l[0] == '#' && l[1] == '#' && Text.JsSpace(l[2]) }

  /** The title of an H2 line; a line of blanks after the hashes has the empty title if one of them, past the
      first, can stand for it. */
  function Title(l: Line): Option<string>
  {
    if !Boundary(l) then None
    else
      var t := Text.Trim(l[2..]);
      if t != "" then if TmpName.OneLine(t) then Some(t) else None
      else if exists k | 3 <= k < |l| :: !TmpName.LineEnd(l[k]) then Some("") else None
  }

  /** How a heading is written: two hashes, white space, some text of one line, white space. */
  ghost predicate Heads(l: Line, lead: string, core: string, trail: string)
  {
    && l == "##" + lead + core + trail && core != "" && TmpName.OneLine(core)
    && lead != "" && Text.AllSpace(lead) && Text.AllSpace(trail)
  }

  /** A line has a title exactly if it can be written so, and its title is that text, trimmed. */
  lemma TitleIs(l: Line, title: string)
    ensures Title(l) == Some(title) <==> exists lead, core, trail :: Heads(l, lead, core, trail) && Text.Trim(core) == title
  {
    if Title(l) == Some(title) {
      var lead, core, trail := TitleSplits(l, title);
    }
    forall lead, core, trail | Heads(l, lead, core, trail) && Text.Trim(core) == title ensures Title(l) == Some(title) {
      HeadsHasTitle(l, lead, core, trail);
    }
  }

  lemma TitleSplits(l: Line, title: string) returns (lead: string, core: string, trail: string)
    requires Title(l) == Some(title)
    ensures Heads(l, lead, core, trail) && Text.Trim(core) == title
  {
    if title != "" {
      lead, core, trail := TextSplits(l[2..]);
    } else {
      var k :| 3 <= k < |l| && !TmpName.LineEnd(l[k]);
      lead, core, trail := BlanksSplit(l[2..], k - 2);
    }
    BehindHashes(l, lead, core, trail);
  }

  lemma BehindHashes(l: Line, lead: string, core: string, trail: string)
    requires Boundary(l) && l[2..] == lead + core + trail
    ensures l == "##" + lead + core + trail
  {
    assert l == "##" + l[2..];
    assert "##" + (lead + core + trail) == "##" + lead + core + trail;
  }

  lemma TextSplits(s: string) returns (lead: string, core: string, trail: string)
    requires s != "" && Text.JsSpace(s[0]) && Text.Trim(s) != ""
    ensures s == lead + core + trail && core == Text.Trim(s) == Text.Trim(core)
    ensures lead != "" && Text.AllSpace(lead) && Text.AllSpace(trail)
  {
    lead, core, trail := Text.Front(s), Text.Trim(s), Text.Back(Text.TrimStart(s));
    Text.TrimTakes(s);
    Text.TrimTwice(s);
    BlankLeads(s, lead, core, trail);
  }

  lemma BlankLeads(s: string, lead: string, core: string, trail: string)
    requires s == lead + core + trail && core != "" && Text.JsSpace(s[0]) && !Text.JsSpace(core[0])
    ensures lead != ""
  {
    assert s[|lead|] == core[0];
  }

  lemma BlanksSplit(s: string, k: nat) returns (lead: string, core: string, trail: string)
    requires 1 <= k < |s| && Text.Trim(s) == ""
    ensures s == lead + core + trail && core == [s[k]] && Text.Trim(core) == ""
    ensures lead != "" && Text.AllSpace(lead) && Text.AllSpace(trail)
  {
    lead, core, trail := s[..k], [s[k]], s[k + 1..];
    Text.TrimIsEmptyIff(s);
    Text.TrimIsEmptyIff(core);
  }

  lemma HeadsHasTitle(l: Line, lead: string, core: string, trail: string)
    requires Heads(l, lead, core, trail)
    ensures Title(l) == Some(Text.Trim(core))
  {
    var k := |lead| + 2;
    assert l[2..] == lead + core + trail && l[2] == lead[0] && l[k] == core[0] && core[0] in core;
    Text.TrimIgnores(lead, core, trail);
    TrimIsOneLine(core);
  }

  lemma TrimIsOneLine(core: string)
    requires TmpName.OneLine(core)
    ensures TmpName.OneLine(Text.Trim(core))
  {
    Text.TrimTakes(core);
    OneLineInside(Text.Front(core), Text.Trim(core), Text.Back(Text.TrimStart(core)));
  }

  lemma OneLineInside(a: string, b: string, c: string)
    requires TmpName.OneLine(a + b + c)
    ensures TmpName.OneLine(b)
  {
    forall i | 0 <= i < |b| ensures !TmpName.LineEnd(b[i]) {
      assert b[i] == (a + b + c)[|a| + i];
    }
  }

  datatype Row = Row(title: string, start: nat, end: nat)

  /** The next boundary after `i`, or the end of the body. */
  function EndFrom(lines: seq<Line>, j: nat): (e: nat)
    requires j <= |lines|
    ensures j <= e <= |lines| && (e < |lines| ==> Boundary(lines[e]))
    ensures forall k | j <= k < e :: !Boundary(lines[k])
    decreases |lines| - j
  {
    if j == |lines| || Boundary(lines[j]) then j else EndFrom(lines, j + 1)
  }

  /** The row of a heading, if line `n` is one. */
  function RowAt(lines: seq<Line>, n: nat): seq<Row>
    requires n < |lines|
  {
    if Title(lines[n]).Some? then [Row(Title(lines[n]).value, n, EndFrom(lines, n + 1))] else []
  }

  /** The rows whose headings are among the first `n` lines. */
  function H2(lines: seq<Line>, n: nat): seq<Row>
    requires n <= |lines|
  {
    if n == 0 then []
    else H2(lines, n - 1) + RowAt(lines, n - 1)
  }

  lemma H2Step(lines: seq<Line>, i: nat)
    requires i < |lines|
    ensures H2(lines, i + 1) == H2(lines, i) + RowAt(lines, i)
  {
  }

  method NextBoundary(lines: seq<Line>, from: nat) returns (j: nat)
    requires from <= |lines|
    ensures j == EndFrom(lines, from)
  {
    j := from;
    while j < |lines| && !Boundary(lines[j])
      invariant from <= j <= |lines| && EndFrom(lines, from) == EndFrom(lines, j)
    {
      j := j + 1;
    }
  }

  /** The loop body: a heading gets its row. */
  method RowOf(lines: seq<Line>, i: nat) returns (row: seq<Row>)
    requires i < |lines|
    ensures row == RowAt(lines, i)
  {
    var title := Title(lines[i]);
    if title.None? { return []; }
    var j := NextBoundary(lines, i + 1);
    row := [Row(title.value, i, j)];
  }

  method H2Sections(lines: seq<Line>) returns (rows: seq<Row>)
    ensures rows == H2(lines, |lines|)
  {
    rows := [];
    var i := 0;
    while i < |lines|
      invariant i <= |lines| && rows == H2(lines, i)
    {
      H2Step(lines, i);
      var row := RowOf(lines, i);
      rows := rows + row;
      i := i + 1;
    }
  }

  ghost predicate RowOk(lines: seq<Line>, r: Row)
  {
    r.start < r.end <= |lines| && Title(lines[r.start]) == Some(r.title)
    && forall k | r.start < k < r.end :: !Boundary(lines[k])
  }

  ghost predicate RowsApart(rows: seq<Row>)
  {
    forall i, j | 0 <= i < j < |rows| :: rows[i].end <= rows[j].start
  }

  ghost predicate Scanned(lines: seq<Line>, rows: seq<Row>)
  {
    RowsApart(rows) && forall r | r in rows :: RowOk(lines, r)
  }

  ghost predicate Below(rows: seq<Row>, n: nat) { forall r | r in rows :: r.start < n }

  ghost predicate ScannedTo(lines: seq<Line>, rows: seq<Row>, n: nat) { Scanned(lines, rows) && Below(rows, n) }

  /** Sections are in the body, in order, and do not touch. */
  lemma {:induction false} ScanIsScanned(lines: seq<Line>, n: nat)
    requires n <= |lines|
    ensures ScannedTo(lines, H2(lines, n), n)
  {
    if n == 0 {
      assert H2(lines, n) == [];
    } else {
      var rows := H2(lines, n - 1);
      ScanIsScanned(lines, n - 1);
      ScanGoesOn(lines, rows, n - 1);
      H2Step(lines, n - 1);
    }
  }

  /** Every heading with a title has its row. */
  lemma {:induction false} ScanFindsAll(lines: seq<Line>, n: nat, i: nat)
    requires i < n <= |lines|
    ensures forall r | r in RowAt(lines, i) :: r in H2(lines, n)
    ensures Title(lines[i]).Some? <==> |RowAt(lines, i)| == 1
  {
    H2Step(lines, n - 1);
    if i < n - 1 {
      ScanFindsAll(lines, n - 1, i);
    }
  }

  lemma ScanGoesOn(lines: seq<Line>, rows: seq<Row>, n: nat)
    requires n < |lines| && ScannedTo(lines, rows, n)
    ensures ScannedTo(lines, rows + RowAt(lines, n), n + 1)
  {
    if Title(lines[n]).Some? {
      ScanGrows(lines, rows, Row(Title(lines[n]).value, n, EndFrom(lines, n + 1)));
    }
  }

  lemma ScanGrows(lines: seq<Line>, rows: seq<Row>, row: Row)
    requires ScannedTo(lines, rows, row.start) && RowOk(lines, row)
    ensures ScannedTo(lines, rows + [row], row.start + 1)
  {
    assert Boundary(lines[row.start]);
    forall i | 0 <= i < |rows| ensures rows[i].end <= row.start {
      assert RowOk(lines, rows[i]) && rows[i].start < row.start;
    }
  }

  // ----- selection --------------------------------------------------------------------

  /** A request as given, and with its heading trimmed. */
  datatype Raw = Raw(heading: string, start: Option<Line>, end: Option<Line>)

  datatype Request = Request(wanted: string, start: Option<Line>, end: Option<Line>)
  {
    predicate Partial() { start.Some? || end.Some? }
  }

  /** A selected range of lines; `partial` is false for a whole section. */
  datatype Section = Section(heading: string, start: nat, end: nat, partial: bool)
  {
    predicate Covers(i: int) { start <= i < end }
  }

  function Trimmed(raw: seq<Raw>): (qs: seq<Request>)
    ensures |qs| == |raw|
    ensures forall k | 0 <= k < |qs| :: qs[k] == Request(Text.Trim(raw[k].heading), raw[k].start, raw[k].end)
  {
    seq(|raw|, k requires 0 <= k < |raw| => Request(Text.Trim(raw[k].heading), raw[k].start, raw[k].end))
  }

  datatype Code =
    | HeadingMissing | HeadingAmbiguous | HeadingDuplicate | HeadingEmpty
    | AnchorIncomplete | AnchorNotFound | AnchorOrder | AnchorOverlaps

  function Titled(rows: seq<Row>, title: string): seq<Row>
  {
    if rows == [] then []
    else Titled(rows[..|rows| - 1], title) + if rows[|rows| - 1].title == title then [rows[|rows| - 1]] else []
  }

  /** The lines of the section body, the heading excepted, that equal the anchor. */
  function Hits(lines: seq<Line>, lo: nat, hi: nat, anchor: Line): (h: seq<nat>)
    requires hi <= |lines|
    ensures forall k | k in h :: lo < k < hi && lines[k] == anchor
    decreases hi
  {
    if hi <= lo + 1 then []
    else Hits(lines, lo, hi - 1, anchor) + if lines[hi - 1] == anchor then [hi - 1] else []
  }

  predicate Overlaps(a: Section, b: Section) { a.start < b.end && b.start < a.end }

  /** One request against what has been selected so far. */
  function Pick(lines: seq<Line>, rows: seq<Row>, q: Request, sofar: seq<Section>): Result<Section, Code>
    requires forall r | r in rows :: r.end <= |lines|
  {
    var matching := Titled(rows, q.wanted);
    if |matching| == 0 then Err(HeadingMissing)
    else if |matching| > 1 then Err(HeadingAmbiguous)
    else
      TitledIsFiltered(rows, q.wanted, 0);
      PickIn(lines, matching[0], q, sofar)
  }

  function PickIn(lines: seq<Line>, row: Row, q: Request, sofar: seq<Section>): Result<Section, Code>
    requires row.end <= |lines|
  {
    if exists s | s in sofar :: s.start == row.start then Err(HeadingDuplicate)
    else if !q.Partial() then
      if row.end == row.start + 1 then Err(HeadingEmpty) else Ok(Section(q.wanted, row.start, row.end, false))
    else if q.start.None? || q.end.None? then Err(AnchorIncomplete)
    else
      var starts := Hits(lines, row.start, row.end, q.start.value);
      var ends := Hits(lines, row.start, row.end, q.end.value);
      if |starts| != 1 || |ends| != 1 then Err(AnchorNotFound)
      else if starts[0] > ends[0] then Err(AnchorOrder)
      else
        var s := Section(q.wanted, starts[0], ends[0] + 1, true);
        if exists t | t in sofar :: Overlaps(s, t) then Err(AnchorOverlaps) else Ok(s)
  }

  lemma {:induction false} TitledIsFiltered(rows: seq<Row>, title: string, k: nat)
    ensures forall r | r in Titled(rows, title) :: r in rows && r.title == title
    ensures k < |rows| && rows[k].title == title ==> rows[k] in Titled(rows, title)
  {
    if rows != [] {
      TitledIsFiltered(rows[..|rows| - 1], title, k);
    }
  }

  /** All requests in order, up to the first refusal. */
  function Select(lines: seq<Line>, rows: seq<Row>, qs: seq<Request>): (r: Result<seq<Section>, Code>)
    requires forall r | r in rows :: r.end <= |lines|
    ensures r.Ok? ==> |r.value| == |qs|
  {
    if qs == [] then Ok([])
    else
      var before := Select(lines, rows, qs[..|qs| - 1]);
      if before.Err? then before
      else
        var s := Pick(lines, rows, qs[|qs| - 1], before.value);
        if s.Err? then Err(s.error) else Ok(before.value + [s.value])
  }

  lemma SelectPush(lines: seq<Line>, rows: seq<Row>, qs: seq<Request>, q: Request)
    requires forall r | r in rows :: r.end <= |lines|
    requires Select(lines, rows, qs).Ok? && Pick(lines, rows, q, Select(lines, rows, qs).value).Ok?
    ensures Select(lines, rows, qs + [q]) ==
            Ok(Select(lines, rows, qs).value + [Pick(lines, rows, q, Select(lines, rows, qs).value).value])
  {
    assert (qs + [q])[..|qs + [q]| - 1] == qs;
  }

  // ----- what a selection looks like ------------------------------------------------------

  /** The section was selected from this row, by this request. */
  ghost predicate From(lines: seq<Line>, s: Section, row: Row, q: Request)
  {
    && s.heading == row.title && s.partial == q.Partial()
    && (if s.partial then
          && row.start < s.start < s.end <= row.end <= |lines|
          && q.start == Some(lines[s.start]) && q.end == Some(lines[s.end - 1])
        else s.start == row.start && s.end == row.end)
  }

  /** The row is the only one under its title. */
  ghost predicate OnlyRow(rows: seq<Row>, row: Row)
  {
    row in rows && forall r | r in rows && r.title == row.title :: r == row
  }

  lemma {:induction false} TitledHasAll(rows: seq<Row>, title: string, i: nat, j: nat)
    requires i < j < |rows| && rows[i].title == title && rows[j].title == title
    ensures |Titled(rows, title)| >= 2
  {
    var n := |rows| - 1;
    if j < n {
      TitledHasAll(rows[..n], title, i, j);
    } else {
      TitledIsFiltered(rows[..n], title, i);
    }
  }

  lemma OneTitled(rows: seq<Row>, title: string)
    requires |Titled(rows, title)| == 1
    ensures OnlyRow(rows, Titled(rows, title)[0]) && Titled(rows, title)[0].title == title
  {
    var row := Titled(rows, title)[0];
    TitledIsFiltered(rows, title, 0);
    forall r | r in rows && r.title == title ensures r == row {
      var i :| 0 <= i < |rows| && rows[i] == r;
      var j :| 0 <= j < |rows| && rows[j] == row;
      if i < j { TitledHasAll(rows, title, i, j); } else if j < i { TitledHasAll(rows, title, j, i); }
    }
  }

  /** The anchor is one line of the row's body, the heading excepted. */
  ghost predicate OnlyAt(lines: seq<Line>, row: Row, anchor: Line, i: nat)
    requires row.end <= |lines|
  {
    row.start < i < row.end && lines[i] == anchor && forall k | row.start < k < row.end && lines[k] == anchor :: k == i
  }

  lemma {:induction false} HitsAre(lines: seq<Line>, lo: nat, hi: nat, anchor: Line, k: nat)
    requires hi <= |lines|
    ensures k in Hits(lines, lo, hi, anchor) <==> lo < k < hi && lines[k] == anchor
  {
    if hi > lo + 1 {
      HitsAre(lines, lo, hi - 1, anchor, k);
      var h := Hits(lines, lo, hi - 1, anchor);
      assert Hits(lines, lo, hi, anchor) == h + if lines[hi - 1] == anchor then [hi - 1] else [];
    }
  }

  predicate Ascends(h: seq<nat>) { forall a, b | 0 <= a < b < |h| :: h[a] < h[b] }

  lemma AscendsOn(h: seq<nat>, n: nat)
    requires Ascends(h) && forall k | k in h :: k < n
    ensures Ascends(h + [n])
  {
    forall a | 0 <= a < |h| ensures h[a] < n { assert h[a] in h; }
  }

  lemma {:induction false} HitsRise(lines: seq<Line>, lo: nat, hi: nat, anchor: Line)
    requires hi <= |lines|
    ensures Ascends(Hits(lines, lo, hi, anchor))
  {
    if hi > lo + 1 {
      HitsRise(lines, lo, hi - 1, anchor);
      AscendsOn(Hits(lines, lo, hi - 1, anchor), hi - 1);
    }
  }

  lemma OneHit(lines: seq<Line>, row: Row, anchor: Line)
    requires row.end <= |lines|
    ensures var h := Hits(lines, row.start, row.end, anchor);
            && (|h| == 1 ==> OnlyAt(lines, row, anchor, h[0]))
            && forall i: nat | OnlyAt(lines, row, anchor, i) :: h == [i]
  {
    var h := Hits(lines, row.start, row.end, anchor);
    HitsRise(lines, row.start, row.end, anchor);
    if |h| == 1 {
      HitsAre(lines, row.start, row.end, anchor, h[0]);
      forall k: nat | row.start < k < row.end && lines[k] == anchor ensures k == h[0] {
        HitsAre(lines, row.start, row.end, anchor, k);
      }
    }
    forall i: nat | OnlyAt(lines, row, anchor, i) ensures h == [i] {
      HitsAre(lines, row.start, row.end, anchor, i);
      var k :| 0 <= k < |h| && h[k] == i;
      var other := if k == 0 then 1 else 0;
      assert other < |h| ==> h[other] != h[k];
      forall a | 0 <= a < |h| ensures h[a] == i {
        assert h[a] in h;
        HitsAre(lines, row.start, row.end, anchor, h[a]);
      }
    }
  }

  /** What the row must offer for the request: a body to move whole, or both anchors exactly once, in order, on lines no
      earlier request took. */
  ghost predicate Offers(lines: seq<Line>, row: Row, q: Request, sofar: seq<Section>)
    requires row.end <= |lines|
  {
    && (forall s | s in sofar :: s.start != row.start)
    && if !q.Partial() then row.end != row.start + 1
       else
         && q.start.Some? && q.end.Some?
         && exists a: nat, b: nat | OnlyAt(lines, row, q.start.value, a) && OnlyAt(lines, row, q.end.value, b) && a <= b ::
              forall t | t in sofar :: !Overlaps(Section(q.wanted, a, b + 1, true), t)
  }

  lemma PickInIff(lines: seq<Line>, row: Row, q: Request, sofar: seq<Section>)
    requires row.end <= |lines|
    ensures PickIn(lines, row, q, sofar).Ok? <==> Offers(lines, row, q, sofar)
  {
    if q.start.Some? && q.end.Some? {
      OneHit(lines, row, q.start.value);
      OneHit(lines, row, q.end.value);
    }
  }

  /** A request is granted if and only if exactly one section has its title and offers what it asks for. */
  lemma GrantedIff(lines: seq<Line>, rows: seq<Row>, q: Request, sofar: seq<Section>)
    requires Scanned(lines, rows) && forall r | r in rows :: r.end <= |lines|
    ensures Pick(lines, rows, q, sofar).Ok? <==>
            exists row | row in rows :: row.title == q.wanted && OnlyRow(rows, row) && Offers(lines, row, q, sofar)
  {
    if |Titled(rows, q.wanted)| == 1 {
      var row := Titled(rows, q.wanted)[0];
      OneTitled(rows, q.wanted);
      PickInIff(lines, row, q, sofar);
    } else {
      forall row | row in rows && row.title == q.wanted ensures !OnlyRow(rows, row) { NotOnly(lines, rows, row); }
    }
  }

  /** Two entries under one title are two rows: scanned rows do not repeat. */
  lemma NotOnly(lines: seq<Line>, rows: seq<Row>, row: Row)
    requires Scanned(lines, rows) && row in rows && |Titled(rows, row.title)| != 1
    ensures !OnlyRow(rows, row)
  {
    var i :| 0 <= i < |rows| && rows[i] == row;
    TitledIsFiltered(rows, row.title, i);
    TitledTwice(rows, row.title);
    var a, b :| 0 <= a < b < |rows| && rows[a].title == rows[b].title == row.title;
    assert rows[a] in rows && rows[b] in rows && RowOk(lines, rows[b]);
    assert rows[a].end <= rows[b].start < rows[b].end;
  }

  lemma {:induction false} TitledTwice(rows: seq<Row>, title: string)
    requires |Titled(rows, title)| >= 2
    ensures exists a, b :: 0 <= a < b < |rows| && rows[a].title == rows[b].title == title
  {
    var n := |rows| - 1;
    if rows[n].title == title {
      var r := Titled(rows[..n], title)[0];
      TitledIsFiltered(rows[..n], title, 0);
      var a :| 0 <= a < n && rows[..n][a] == r;
      assert rows[a].title == rows[n].title == title;
    } else {
      TitledTwice(rows[..n], title);
      var a, b :| 0 <= a < b < n && rows[..n][a].title == rows[..n][b].title == title;
      assert rows[a].title == rows[b].title == title;
    }
  }

  lemma PickInRow(lines: seq<Line>, row: Row, q: Request, sofar: seq<Section>)
    requires row.start < row.end <= |lines| && row.title == q.wanted && PickIn(lines, row, q, sofar).Ok?
    ensures From(lines, PickIn(lines, row, q, sofar).value, row, q)
    ensures forall s | s in sofar :: s.start != row.start
    ensures q.Partial() ==> forall t | t in sofar :: !Overlaps(PickIn(lines, row, q, sofar).value, t)
  {
    if q.Partial() {
      var starts := Hits(lines, row.start, row.end, q.start.value);
      var ends := Hits(lines, row.start, row.end, q.end.value);
      assert starts[0] in starts && ends[0] in ends;
    }
  }

  /** A request that is granted selects from the one row of its title. */
  lemma PickFrom(lines: seq<Line>, rows: seq<Row>, q: Request, sofar: seq<Section>) returns (row: Row)
    requires Scanned(lines, rows) && Pick(lines, rows, q, sofar).Ok?
    ensures OnlyRow(rows, row) && row.title == q.wanted && From(lines, Pick(lines, rows, q, sofar).value, row, q)
    ensures forall s | s in sofar :: s.start != row.start
    ensures q.Partial() ==> forall t | t in sofar :: !Overlaps(Pick(lines, rows, q, sofar).value, t)
  {
    var title := q.wanted;
    row := Titled(rows, title)[0];
    OneTitled(rows, title);
    assert RowOk(lines, row);
    PickInRow(lines, row, q, sofar);
  }

  /** The state of a granted selection: each section comes from its request's row. */
  ghost predicate SelectedBy(lines: seq<Line>, rows: seq<Row>, qs: seq<Request>, secs: seq<Section>, of: seq<Row>)
  {
    && |secs| == |qs| == |of|
    && forall k | 0 <= k < |qs| :: OnlyRow(rows, of[k]) && of[k].title == qs[k].wanted && From(lines, secs[k], of[k], qs[k])
  }

  /** An earlier block of a section that a later request then takes whole. */
  predicate Retaken(qs: seq<Request>, k: int, m: int)
  {
    0 <= k < m < |qs| && qs[k].Partial() && !qs[m].Partial() && qs[k].wanted == qs[m].wanted
  }

  /** Two selected sections overlap exactly when the later request takes whole what the earlier one took a block
      of; and then the block lies inside the section, behind its heading. */
  ghost predicate OverlapsAreRetakings(qs: seq<Request>, secs: seq<Section>)
    requires |secs| == |qs|
  {
    forall k, m | 0 <= k < m < |qs| ::
      && (Overlaps(secs[k], secs[m]) <==> Retaken(qs, k, m))
      && (Overlaps(secs[k], secs[m]) ==> secs[m].start < secs[k].start && secs[k].end <= secs[m].end)
      && secs[k].start != secs[m].start
  }

  lemma StillSelected(lines: seq<Line>, rows: seq<Row>, qs: seq<Request>, secs: seq<Section>, of: seq<Row>,
                      s: Section, row: Row)
    requires |qs| == |secs| + 1 && SelectedBy(lines, rows, qs[..|secs|], secs, of)
    requires OnlyRow(rows, row) && row.title == qs[|secs|].wanted && From(lines, s, row, qs[|secs|])
    ensures SelectedBy(lines, rows, qs, secs + [s], of + [row])
  {
    assert forall k | 0 <= k < |secs| :: qs[..|secs|][k] == qs[k];
  }

  /** How the next section stands to one selected before it. */
  ghost predicate Against(qs: seq<Request>, k: nat, t: Section, s: Section)
  {
    && (Overlaps(t, s) <==> Retaken(qs, k, |qs| - 1))
    && (Overlaps(t, s) ==> s.start < t.start && t.end <= s.end)
    && t.start != s.start
  }

  lemma NextAgainstAll(lines: seq<Line>, rows: seq<Row>, qs: seq<Request>, secs: seq<Section>, of: seq<Row>,
                       s: Section, row: Row)
    requires Scanned(lines, rows) && |qs| == |secs| + 1 && SelectedBy(lines, rows, qs[..|secs|], secs, of)
    requires OnlyRow(rows, row) && row.title == qs[|secs|].wanted && From(lines, s, row, qs[|secs|])
    requires forall t | t in secs :: t.start != row.start
    requires qs[|secs|].Partial() ==> forall t | t in secs :: !Overlaps(s, t)
    ensures forall k | 0 <= k < |secs| :: Against(qs, k, secs[k], s)
  {
    forall k | 0 <= k < |secs| ensures Against(qs, k, secs[k], s) {
      assert qs[..|secs|][k] == qs[k] && secs[k] in secs;
      assert OnlyRow(rows, of[k]) && From(lines, secs[k], of[k], qs[k]);
      PairOverlaps(lines, rows, secs[k], of[k], qs[k], s, row, qs[|secs|]);
    }
  }

  lemma StillRetakings(qs: seq<Request>, secs: seq<Section>, s: Section)
    requires |qs| == |secs| + 1 && OverlapsAreRetakings(qs[..|secs|], secs)
    requires forall k | 0 <= k < |secs| :: Against(qs, k, secs[k], s)
    ensures OverlapsAreRetakings(qs, secs + [s])
  {
    var n, all := |secs|, secs + [s];
    forall k, m | 0 <= k < m < |qs|
      ensures (Overlaps(all[k], all[m]) <==> Retaken(qs, k, m))
      ensures (Overlaps(all[k], all[m]) ==> all[m].start < all[k].start && all[k].end <= all[m].end)
      ensures all[k].start != all[m].start
    {
      if m < n {
        assert Retaken(qs[..n], k, m) <==> Retaken(qs, k, m);
      } else {
        assert Against(qs, k, secs[k], s);
      }
    }
  }

  lemma PairOverlaps(lines: seq<Line>, rows: seq<Row>, t: Section, r1: Row, q1: Request, s: Section, r2: Row, q2: Request)
    requires Scanned(lines, rows) && OnlyRow(rows, r1) && OnlyRow(rows, r2)
    requires From(lines, t, r1, q1) && From(lines, s, r2, q2)
    requires t.start != r2.start && (s.partial ==> !Overlaps(s, t))
    ensures Overlaps(t, s) <==> t.partial && !s.partial && r1.title == r2.title
    ensures Overlaps(t, s) ==> s.start < t.start && t.end <= s.end
    ensures t.start != s.start
  {
    assert RowOk(lines, r1) && RowOk(lines, r2);
    if r1 != r2 {
      assert r1.title != r2.title;
      DifferentRows(rows, r1, r2);
    }
  }

  lemma DifferentRows(rows: seq<Row>, r1: Row, r2: Row)
    requires RowsApart(rows) && r1 in rows && r2 in rows && r1 != r2
    ensures r1.end <= r2.start || r2.end <= r1.start
  {
    var i :| 0 <= i < |rows| && rows[i] == r1;
    var j :| 0 <= j < |rows| && rows[j] == r2;
    assert if i < j then rows[i].end <= rows[j].start else rows[j].end <= rows[i].start;
  }

  lemma SelectionGrows(lines: seq<Line>, rows: seq<Row>, qs: seq<Request>, secs: seq<Section>, of: seq<Row>)
    returns (row: Row)
    requires Scanned(lines, rows) && |qs| == |secs| + 1 && Pick(lines, rows, qs[|secs|], secs).Ok?
    requires SelectedBy(lines, rows, qs[..|secs|], secs, of) && OverlapsAreRetakings(qs[..|secs|], secs)
    ensures var s := Pick(lines, rows, qs[|secs|], secs).value;
            SelectedBy(lines, rows, qs, secs + [s], of + [row]) && OverlapsAreRetakings(qs, secs + [s])
  {
    row := PickFrom(lines, rows, qs[|secs|], secs);
    var s := Pick(lines, rows, qs[|secs|], secs).value;
    NextAgainstAll(lines, rows, qs, secs, of, s, row);
    StillRetakings(qs, secs, s);
    StillSelected(lines, rows, qs, secs, of, s, row);
  }

  lemma {:induction false} SelectionIs(lines: seq<Line>, rows: seq<Row>, qs: seq<Request>) returns (of: seq<Row>)
    requires Scanned(lines, rows) && Select(lines, rows, qs).Ok?
    ensures SelectedBy(lines, rows, qs, Select(lines, rows, qs).value, of)
    ensures OverlapsAreRetakings(qs, Select(lines, rows, qs).value)
  {
    if qs == [] {
      of := [];
    } else {
      var before := qs[..|qs| - 1];
      of := SelectionIs(lines, rows, before);
      var row := SelectionGrows(lines, rows, qs, Select(lines, rows, before).value, of);
      of := of + [row];
    }
  }

  // ----- the selection as the source runs it --------------------------------------------------

  lemma HitsStep(lines: seq<Line>, lo: nat, hi: nat, anchor: Line)
    requires lo < hi < |lines|
    ensures Hits(lines, lo, hi + 1, anchor) == Hits(lines, lo, hi, anchor) + if lines[hi] == anchor then [hi] else []
  {
  }

  /** The hits among the first `i` lines of the body. */
  function HitsTo(lines: seq<Line>, row: Row, i: nat, anchor: Line): seq<nat>
    requires row.end <= |lines|
  {
    Hits(lines, row.start, if i < row.end then i else row.end, anchor)
  }

  lemma HitsToStep(lines: seq<Line>, row: Row, i: nat, anchor: Line)
    requires row.start < row.end <= |lines| && i < |lines|
    ensures HitsTo(lines, row, i + 1, anchor) ==
            HitsTo(lines, row, i, anchor) + if row.start < i < row.end && lines[i] == anchor then [i] else []
  {
    if row.start < i < row.end { HitsStep(lines, row.start, i, anchor); }
  }

  method FindAnchors(lines: seq<Line>, row: Row, start: Line, end: Line) returns (starts: seq<nat>, ends: seq<nat>)
    requires row.start < row.end <= |lines|
    ensures starts == Hits(lines, row.start, row.end, start) && ends == Hits(lines, row.start, row.end, end)
  {
    starts, ends := [], [];
    for i := 0 to |lines|
      invariant starts == HitsTo(lines, row, i, start) && ends == HitsTo(lines, row, i, end)
    {
      HitsToStep(lines, row, i, start);
      HitsToStep(lines, row, i, end);
      if i <= row.start || i >= row.end { continue; }
      if lines[i] == start { starts := starts + [i]; }
      if lines[i] == end { ends := ends + [i]; }
    }
  }

  /** One request, decided the way the loop body does. */
  method PickOne(lines: seq<Line>, rows: seq<Row>, q: Request, selected: seq<Section>) returns (r: Result<Section, Code>)
    requires Scanned(lines, rows)
    ensures (forall row | row in rows :: row.end <= |lines|) && r == Pick(lines, rows, q, selected)
  {
    assert forall row | row in rows :: RowOk(lines, row);
    var matching := Titled(rows, q.wanted);
    if |matching| == 0 { return Err(HeadingMissing); }
    if |matching| > 1 { return Err(HeadingAmbiguous); }
    TitledIsFiltered(rows, q.wanted, 0);
    assert RowOk(lines, matching[0]);
    r := PickInOne(lines, matching[0], q, selected);
  }

  method PickInOne(lines: seq<Line>, row: Row, q: Request, selected: seq<Section>) returns (r: Result<Section, Code>)
    requires row.start < row.end <= |lines|
    ensures r == PickIn(lines, row, q, selected)
  {
    if exists s | s in selected :: s.start == row.start { return Err(HeadingDuplicate); }
    if !q.Partial() {
      if row.end == row.start + 1 { return Err(HeadingEmpty); }
      return Ok(Section(q.wanted, row.start, row.end, false));
    }
    if q.start.None? || q.end.None? { return Err(AnchorIncomplete); }
    var starts, ends := FindAnchors(lines, row, q.start.value, q.end.value);
    if |starts| != 1 || |ends| != 1 { return Err(AnchorNotFound); }
    if starts[0] > ends[0] { return Err(AnchorOrder); }
    var s := Section(q.wanted, starts[0], ends[0] + 1, true);
    if exists t | t in selected :: Overlaps(s, t) { return Err(AnchorOverlaps); }
    return Ok(s);
  }

  lemma {:induction false} RefusalStays(lines: seq<Line>, rows: seq<Row>, qs: seq<Request>, k: nat)
    requires (forall row | row in rows :: row.end <= |lines|) && k <= |qs| && Select(lines, rows, qs[..k]).Err?
    ensures Select(lines, rows, qs) == Select(lines, rows, qs[..k])
  {
    if k < |qs| {
      assert qs[..|qs| - 1][..k] == qs[..k];
      RefusalStays(lines, rows, qs[..|qs| - 1], k);
    } else {
      assert qs[..k] == qs;
    }
  }

  method SelectAll(lines: seq<Line>, rows: seq<Row>, qs: seq<Request>) returns (r: Result<seq<Section>, Code>)
    requires Scanned(lines, rows)
    ensures (forall row | row in rows :: row.end <= |lines|) && r == Select(lines, rows, qs)
  {
    assert forall row | row in rows :: RowOk(lines, row);
    var selected: seq<Section> := [];
    var k := 0;
    while k < |qs|
      invariant 0 <= k <= |qs| && Select(lines, rows, qs[..k]) == Ok(selected)
    {
      assert qs[..k + 1][..k] == qs[..k];
      var s := PickOne(lines, rows, qs[k], selected);
      if s.Err? {
        RefusalStays(lines, rows, qs, k + 1);
        return Err(s.error);
      }
      selected := selected + [s.value];
      k := k + 1;
    }
    assert qs[..k] == qs;
    r := Ok(selected);
  }

  /** A selection of a body: every section in range and non-empty, from the only row of its title, and two of them
      overlap exactly where a request takes whole what an earlier one took a block of. */
  method SelectSections(lines: seq<Line>, raw: seq<Raw>) returns (r: Result<seq<Section>, Code>, ghost of: seq<Row>)
    ensures var rows := H2(lines, |lines|);
            && Scanned(lines, rows) && (forall row | row in rows :: row.end <= |lines|)
            && r == Select(lines, rows, Trimmed(raw))
            && (r.Ok? ==> SelectedBy(lines, rows, Trimmed(raw), r.value, of))
    ensures r.Ok? ==> |r.value| == |raw| && OverlapsAreRetakings(Trimmed(raw), r.value)
  {
    var qs := Trimmed(raw);
    var rows := H2Sections(lines);
    ScanIsScanned(lines, |lines|);
    r := SelectAll(lines, rows, qs);
    of := [];
    if r.Ok? {
      of := SelectionIs(lines, rows, qs);
    }
  }
}
