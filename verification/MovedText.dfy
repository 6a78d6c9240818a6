/**
 * The text each part of an extraction moves, after the references in it were rewritten
 * (packages/evolution-core/src/extract-plan.ts, computeSupport).
 */
module MovedText {
  import opened Wrappers
  import opened Sections
  import ExtractPlan

  /** A part as planned: its heading and its own lines. */
  datatype Part = Part(heading: string, source: string)

  /** The map from headings to rewritten texts: a later part under the same heading takes its place. */
  function Texts(parts: seq<Part>, rewrite: string -> string): map<string, string>
  {
    if parts == [] then map[]
    else Texts(parts[..|parts| - 1], rewrite)[parts[|parts| - 1].heading := rewrite(parts[|parts| - 1].source)]
  }

  lemma {:induction false} TextsHave(parts: seq<Part>, rewrite: string -> string, k: nat)
    requires k < |parts|
    ensures parts[k].heading in Texts(parts, rewrite)
  {
    if k < |parts| - 1 {
      TextsHave(parts[..|parts| - 1], rewrite, k);
    }
  }

  /** Every part is rewritten into the map under its heading, then every part takes its text from the map. */
  method MoveTexts(parts: seq<Part>, rewrite: string -> string) returns (moved: seq<string>)
    ensures |moved| == |parts|
    ensures forall k | 0 <= k < |parts| ::
              parts[k].heading in Texts(parts, rewrite) && moved[k] == Texts(parts, rewrite)[parts[k].heading]
  {
    var rewritten: map<string, string> := map[];
    for i := 0 to |parts|
      invariant rewritten == Texts(parts[..i], rewrite)
    {
      assert parts[..i + 1][..i] == parts[..i];
      rewritten := rewritten[parts[i].heading := rewrite(parts[i].source)];
    }
    assert parts[..|parts|] == parts;
    moved := [];
    for i := 0 to |parts|
      invariant |moved| == i
      invariant forall k | 0 <= k < i :: parts[k].heading in rewritten && moved[k] == rewritten[parts[k].heading]
    {
      TextsHave(parts, rewrite, i);
      moved := moved + [rewritten[parts[i].heading]];
    }
  }

  ghost predicate OwnTexts(parts: seq<Part>, rewrite: string -> string)
  {
    forall k | 0 <= k < |parts| ::
      parts[k].heading in Texts(parts, rewrite) && Texts(parts, rewrite)[parts[k].heading] == rewrite(parts[k].source)
  }

  ghost predicate OneTextPerHeading(parts: seq<Part>, rewrite: string -> string)
  {
    forall k, m | 0 <= k < m < |parts| && parts[k].heading == parts[m].heading ::
      rewrite(parts[k].source) == rewrite(parts[m].source)
  }

  /** Some part under the heading supplied the text. */
  lemma {:induction false} TextsFrom(parts: seq<Part>, rewrite: string -> string, h: string) returns (k: nat)
    requires h in Texts(parts, rewrite)
    ensures k < |parts| && parts[k].heading == h && Texts(parts, rewrite)[h] == rewrite(parts[k].source)
  {
    if parts[|parts| - 1].heading == h {
      k := |parts| - 1;
    } else {
      k := TextsFrom(parts[..|parts| - 1], rewrite, h);
    }
  }

  /** Every part moves its own text, exactly when no two parts under one heading differ in theirs. */
  lemma MovesOwnTextIff(parts: seq<Part>, rewrite: string -> string)
    ensures OwnTexts(parts, rewrite) <==> OneTextPerHeading(parts, rewrite)
  {
    if OneTextPerHeading(parts, rewrite) {
      forall k | 0 <= k < |parts|
        ensures parts[k].heading in Texts(parts, rewrite)
                && Texts(parts, rewrite)[parts[k].heading] == rewrite(parts[k].source)
      {
        TextsHave(parts, rewrite, k);
        var m := TextsFrom(parts, rewrite, parts[k].heading);
        assert k < m || m < k || k == m;
      }
    }
  }

  // ----- two blocks of one section --------------------------------------------------------

  /** A part's own text is its lines, joined. */
  function Joined(lines: seq<Line>): string
  {
    if lines == [] then "" else if |lines| == 1 then lines[0] else lines[0] + "\n" + Joined(lines[1..])
  }

  /** A text as the lines the planner works on. */
  function Split(text: string): (lines: seq<Line>)
    ensures |lines| > 0
  {
    if text == "" then [""]
    else
      var rest := Split(text[1..]);
      if text[0] == '\n' then [""] + rest else [[text[0]] + rest[0]] + rest[1..]
  }

  /** Splitting and joining lose nothing in either direction. */
  lemma {:induction false} SplitJoins(text: string)
    ensures Joined(Split(text)) == text && forall l | l in Split(text) :: '\n' !in l
  {
    if text != "" {
      SplitJoins(text[1..]);
      var rest := Split(text[1..]);
      if text[0] == '\n' {
        assert ([""] + rest)[1..] == rest;
      } else {
        var all := [[text[0]] + rest[0]] + rest[1..];
        assert all[1..] == rest[1..];
      }
    }
  }

  lemma {:induction false} JoinSplits(lines: seq<Line>)
    requires lines != [] && forall l | l in lines :: '\n' !in l
    ensures Split(Joined(lines)) == lines
  {
    var rest := if |lines| == 1 then "" else "\n" + Joined(lines[1..]);
    assert Joined(lines) == lines[0] + rest;
    assert lines[0] in lines;
    if |lines| > 1 {
      JoinSplits(lines[1..]);
      assert rest[1..] == Joined(lines[1..]);
      assert Split(rest) == [""] + lines[1..];
    }
    FirstLine(lines[0], rest);
  }

  lemma {:induction false} FirstLine(l: Line, rest: string)
    requires '\n' !in l && (rest == "" || rest[0] == '\n')
    ensures Split(l + rest) == [l] + Split(rest)[1..]
  {
    if l == "" {
      assert l + rest == rest;
    } else {
      assert l[0] in l && l[0] != '\n' && (l + rest)[1..] == l[1..] + rest && forall c | c in l[1..] :: c in l;
      FirstLine(l[1..], rest);
      assert [l[0]] + l[1..] == l;
    }
  }

  function PartsOf(lines: seq<Line>, secs: seq<Section>): seq<Part>
    requires ExtractPlan.InRange(lines, secs)
  {
    seq(|secs|, k requires 0 <= k < |secs| => Part(secs[k].heading, Joined(lines[secs[k].start..secs[k].end])))
  }

  /** Two disjoint blocks of one section are granted: two parts under one heading. */
  lemma TwoBlocksAreGranted(lines: seq<Line>, title: string)
    requires ExtractPlan.OneSection(lines, title)
    ensures var (rows, qs) := (H2(lines, |lines|), [ExtractPlan.Block(title, lines[2]), ExtractPlan.Block(title, lines[3])]);
            && (forall r | r in rows :: r.end <= |lines|)
            && Select(lines, rows, qs) == Ok([Section(title, 2, 3, true), Section(title, 3, 4, true)])
  {
    var rows, s0, s1 := H2(lines, |lines|), Section(title, 2, 3, true), Section(title, 3, 4, true);
    ExtractPlan.OneRow(lines, title);
    ExtractPlan.Picks(lines, rows, title);
    ExtractPlan.Granted(lines, rows, ExtractPlan.Block(title, lines[2]), ExtractPlan.Block(title, lines[3]), s0, s1);
  }

  /** And the first of the granted parts then moves the second one's text: unless both rewrite to the same, its own line
      is lost on the way. */
  lemma FirstBlockIsLost(lines: seq<Line>, title: string, rewrite: string -> string)
    requires ExtractPlan.OneSection(lines, title) && rewrite(lines[2]) != rewrite(lines[3])
    ensures var (rows, qs) := (H2(lines, |lines|), [ExtractPlan.Block(title, lines[2]), ExtractPlan.Block(title, lines[3])]);
            && (forall r | r in rows :: r.end <= |lines|)
            && Select(lines, rows, qs).Ok? && ExtractPlan.InRange(lines, Select(lines, rows, qs).value)
            && var parts := PartsOf(lines, Select(lines, rows, qs).value);
               && |parts| == 2 && parts[0].source == lines[2] && parts[0].heading in Texts(parts, rewrite)
               && Texts(parts, rewrite)[parts[0].heading] == rewrite(lines[3]) && !OwnTexts(parts, rewrite)
  {
    TwoBlocksAreGranted(lines, title);
    var secs := [Section(title, 2, 3, true), Section(title, 3, 4, true)];
    var parts := PartsOf(lines, secs);
    assert lines[2..3] == [lines[2]] && lines[3..4] == [lines[3]];
    assert parts[1] == Part(title, lines[3]) && parts[0] == Part(title, lines[2]);
  }
}
