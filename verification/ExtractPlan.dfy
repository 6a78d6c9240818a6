/**
 * Cutting the selected sections out of a body: the residual rebuild and where every line goes
 * (packages/evolution-core/src/extract-plan.ts).
 */
module ExtractPlan {
  import opened Wrappers
  import opened Sections

  ghost predicate InRange(lines: seq<Line>, secs: seq<Section>)
  {
    forall k | 0 <= k < |secs| :: secs[k].start < secs[k].end <= |lines|
  }

  /** Any two sections are apart, or the one that starts later lies inside the other. */
  ghost predicate Nested(secs: seq<Section>)
  {
    forall k, m | 0 <= k < |secs| && 0 <= m < |secs| && k != m ::
      secs[k].start != secs[m].start && (secs[k].start < secs[m].start < secs[k].end ==> secs[m].end <= secs[k].end)
  }

  ghost predicate Disjoint(secs: seq<Section>)
  {
    forall k, m | 0 <= k < m < |secs| :: !Overlaps(secs[k], secs[m])
  }

  predicate Covered(secs: seq<Section>, i: int) { exists s | s in secs :: s.Covers(i) }

  /** The lines from `i` on that no section covers. */
  function Kept(lines: seq<Line>, secs: seq<Section>, i: nat): seq<Line>
    requires i <= |lines|
    decreases |lines| - i
  {
    if i == |lines| then []
    else (if Covered(secs, i) then [] else [lines[i]]) + Kept(lines, secs, i + 1)
  }

  // ----- the rebuild -----------------------------------------------------------------

  /** The map from start lines to sections: the last section under a start wins. */
  function At(secs: seq<Section>, i: int): Option<Section>
  {
    if secs == [] then None
    else if secs[|secs| - 1].start == i then Some(secs[|secs| - 1])
    else At(secs[..|secs| - 1], i)
  }

  lemma {:induction false} AtIs(secs: seq<Section>, i: int)
    ensures At(secs, i).Some? ==> At(secs, i).value in secs && At(secs, i).value.start == i
    ensures At(secs, i).None? ==> forall s | s in secs :: s.start != i
  {
    if secs != [] {
      AtIs(secs[..|secs| - 1], i);
    }
  }

  /** What the rebuild still emits from line `i` on. */
  function Walk(lines: seq<Line>, secs: seq<Section>, pointer: Line, first: nat, i: nat): seq<Line>
    requires InRange(lines, secs) && i <= |lines|
    decreases |lines| - i
  {
    if i == |lines| then []
    else
      AtIs(secs, i);
      match At(secs, i)
      case None => [lines[i]] + Walk(lines, secs, pointer, first, i + 1)
      case Some(s) => (if i == first then [pointer] else []) + Walk(lines, secs, pointer, first, s.end)
  }

  ghost predicate IsFirst(secs: seq<Section>, first: nat)
  {
    (exists s | s in secs :: s.start == first) && forall s | s in secs :: first <= s.start
  }

  /** No section begins before `i` and reaches beyond it. */
  ghost predicate Between(secs: seq<Section>, i: nat) { forall s | s in secs :: s.start < i ==> s.end <= i }

  lemma {:induction false} KeptSkips(lines: seq<Line>, secs: seq<Section>, s: Section, i: nat)
    requires s in secs && s.start <= i <= s.end <= |lines|
    ensures Kept(lines, secs, i) == Kept(lines, secs, s.end)
    decreases s.end - i
  {
    if i < s.end {
      assert s.Covers(i) && Covered(secs, i);
      KeptSkips(lines, secs, s, i + 1);
    }
  }

  lemma EndIsBetween(secs: seq<Section>, s: Section, i: nat)
    requires Nested(secs) && s in secs && s.start == i < s.end && Between(secs, i)
    ensures Between(secs, s.end)
  {
    forall t | t in secs && t.start < s.end ensures t.end <= s.end {
      var k :| 0 <= k < |secs| && secs[k] == s;
      var m :| 0 <= m < |secs| && secs[m] == t;
    }
  }

  /** Beyond the first section the walk emits exactly the lines no section covers. */
  lemma {:induction false} WalkKeeps(lines: seq<Line>, secs: seq<Section>, pointer: Line, first: nat, i: nat)
    requires InRange(lines, secs) && Nested(secs) && first < i <= |lines| && Between(secs, i)
    ensures Walk(lines, secs, pointer, first, i) == Kept(lines, secs, i)
    decreases |lines| - i
  {
    if i < |lines| {
      AtIs(secs, i);
      match At(secs, i)
      case None =>
        assert !Covered(secs, i);
        WalkKeeps(lines, secs, pointer, first, i + 1);
      case Some(s) =>
        var k :| 0 <= k < |secs| && secs[k] == s;
        EndIsBetween(secs, s, i);
        WalkKeeps(lines, secs, pointer, first, s.end);
        KeptSkips(lines, secs, s, i);
    }
  }

  lemma Prepend(lines: seq<Line>, i: nat, first: nat, rest: seq<Line>)
    requires i < first <= |lines|
    ensures [lines[i]] + (lines[i + 1..first] + rest) == lines[i..first] + rest
  {
  }

  lemma WalkAtFirst(lines: seq<Line>, secs: seq<Section>, pointer: Line, first: nat)
    requires InRange(lines, secs) && Nested(secs) && IsFirst(secs, first) && first < |lines|
    ensures Walk(lines, secs, pointer, first, first) == [pointer] + Kept(lines, secs, first)
  {
    AtIs(secs, first);
    var s := At(secs, first).value;
    var k :| 0 <= k < |secs| && secs[k] == s;
    EndIsBetween(secs, s, first);
    WalkKeeps(lines, secs, pointer, first, s.end);
    KeptSkips(lines, secs, s, first);
  }

  /** Up to the first section it emits the lines as they are, then the pointer once, then what is left. */
  lemma {:induction false} WalkPoints(lines: seq<Line>, secs: seq<Section>, pointer: Line, first: nat, i: nat)
    requires InRange(lines, secs) && Nested(secs) && IsFirst(secs, first) && i <= first
    requires first < |lines|
    ensures Walk(lines, secs, pointer, first, i) == lines[i..first] + ([pointer] + Kept(lines, secs, first))
    decreases first - i
  {
    if i < first {
      AtIs(secs, i);
      WalkPoints(lines, secs, pointer, first, i + 1);
      Prepend(lines, i, first, [pointer] + Kept(lines, secs, first));
    } else {
      WalkAtFirst(lines, secs, pointer, first);
      assert lines[i..first] == [];
    }
  }

  // ----- conservation ------------------------------------------------------------------

  /** How many sections hold the line. */
  function Covers(secs: seq<Section>, i: int): nat
  {
    if secs == [] then 0 else Covers(secs[1..], i) + if secs[0].Covers(i) then 1 else 0
  }

  /** The line numbers from `i` on that stay in the residual. */
  function Stays(secs: seq<Section>, n: nat, i: nat): (idx: seq<nat>)
    requires i <= n
    ensures forall k :: k in idx <==> i <= k < n && !Covered(secs, k)
    ensures forall a | 0 <= a < |idx| :: i <= idx[a] < n
    ensures forall a, b | 0 <= a < b < |idx| :: idx[a] < idx[b]
    decreases n - i
  {
    if i == n then []
    else
      var rest := Stays(secs, n, i + 1);
      if Covered(secs, i) then rest
      else
        assert forall k :: k in [i] + rest <==> k == i || k in rest;
        [i] + rest
  }

  function LinesAt(lines: seq<Line>, idx: seq<nat>): (r: seq<Line>)
    requires forall a | 0 <= a < |idx| :: idx[a] < |lines|
    ensures |r| == |idx| && forall a | 0 <= a < |idx| :: r[a] == lines[idx[a]]
  {
    if idx == [] then [] else [lines[idx[0]]] + LinesAt(lines, idx[1..])
  }

  /** The residual's own lines are those lines, in their order. */
  lemma {:induction false} KeptAreStays(lines: seq<Line>, secs: seq<Section>, i: nat)
    requires i <= |lines|
    ensures Kept(lines, secs, i) == LinesAt(lines, Stays(secs, |lines|, i))
    decreases |lines| - i
  {
    if i < |lines| {
      KeptAreStays(lines, secs, i + 1);
      var rest := Stays(secs, |lines|, i + 1);
      assert ([i] + rest)[1..] == rest;
    }
  }

  lemma {:induction false} CoversIsCovered(secs: seq<Section>, i: int)
    ensures Covers(secs, i) == 0 <==> !Covered(secs, i)
  {
    if secs != [] {
      CoversIsCovered(secs[1..], i);
      assert secs == [secs[0]] + secs[1..];
    }
  }

  lemma {:induction false} TwiceIsOverlap(secs: seq<Section>, i: int)
    requires Covers(secs, i) >= 2
    ensures !Disjoint(secs)
  {
    if secs[0].Covers(i) {
      CoversIsCovered(secs[1..], i);
      var s :| s in secs[1..] && s.Covers(i);
      var m :| 0 <= m < |secs[1..]| && secs[1..][m] == s;
      assert Overlaps(secs[0], secs[m + 1]);
    } else {
      TwiceIsOverlap(secs[1..], i);
      var k, m :| 0 <= k < m < |secs[1..]| && Overlaps(secs[1..][k], secs[1..][m]);
      assert Overlaps(secs[k + 1], secs[m + 1]);
    }
  }

  lemma {:induction false} TwoCoverTwice(secs: seq<Section>, k: nat, m: nat, i: int)
    requires k < m < |secs| && secs[k].Covers(i) && secs[m].Covers(i)
    ensures Covers(secs, i) >= 2
  {
    if k == 0 {
      assert secs[1..][m - 1] == secs[m];
      CoversIsCovered(secs[1..], i);
    } else {
      TwoCoverTwice(secs[1..], k - 1, m - 1, i);
    }
  }

  /** In how many places line `i` ends up: the parts that hold it, and the residual if it stays. */
  function Homes(secs: seq<Section>, n: nat, i: nat): nat
  {
    Covers(secs, i) + if i in Stays(secs, n, 0) then 1 else 0
  }

  /** Every line of the body ends in exactly one place, exactly when no two sections overlap. */
  lemma OneHomeIffDisjoint(lines: seq<Line>, secs: seq<Section>)
    requires InRange(lines, secs)
    ensures (forall i: nat | i < |lines| :: Homes(secs, |lines|, i) == 1) <==> Disjoint(secs)
  {
    if Disjoint(secs) {
      forall i: nat | i < |lines| ensures Homes(secs, |lines|, i) == 1 {
        CoversIsCovered(secs, i);
        if Covers(secs, i) >= 2 { TwiceIsOverlap(secs, i); }
      }
    } else {
      var k, m :| 0 <= k < m < |secs| && Overlaps(secs[k], secs[m]);
      var i := if secs[k].start < secs[m].start then secs[m].start else secs[k].start;
      TwoCoverTwice(secs, k, m, i);
      assert Homes(secs, |lines|, i) >= 2;
    }
  }

  lemma NoneBefore(secs: seq<Section>, first: nat, i: nat)
    requires i < first && forall s | s in secs :: first <= s.start
    ensures !Covered(secs, i)
  {
  }

  lemma {:induction false} KeptFromTop(lines: seq<Line>, secs: seq<Section>, first: nat, i: nat)
    requires i <= first <= |lines| && forall s | s in secs :: first <= s.start
    ensures Kept(lines, secs, i) == lines[i..first] + Kept(lines, secs, first)
    decreases first - i
  {
    if i < first {
      NoneBefore(secs, first, i);
      KeptFromTop(lines, secs, first, i + 1);
      Prepend(lines, i, first, Kept(lines, secs, first));
    } else {
      assert lines[i..first] == [];
    }
  }

  // ----- the plan's body work -------------------------------------------------------------

  predicate Blank(l: Line) { Text.Trim(l) == "" }

  datatype Refusal = Unselected(code: Code) | PartEmpty | ParentEmpty | ParentHollow

  datatype Cut = Cut(parts: seq<seq<Line>>, residual: seq<Line>)

  method Rebuild(lines: seq<Line>, secs: seq<Section>, pointer: Line, first: nat) returns (rebuilt: seq<Line>)
    requires InRange(lines, secs)
    ensures rebuilt == Walk(lines, secs, pointer, first, 0)
  {
    rebuilt := [];
    var index := 0;
    while index < |lines|
      invariant 0 <= index <= |lines|
      invariant rebuilt + Walk(lines, secs, pointer, first, index) == Walk(lines, secs, pointer, first, 0)
      decreases |lines| - index
    {
      AtIs(secs, index);
      var section := At(secs, index);
      ghost var rest := Walk(lines, secs, pointer, first, if section.Some? then section.value.end else index + 1);
      ghost var before := rebuilt;
      if section.Some? {
        if index == first { rebuilt := rebuilt + [pointer]; }
        assert rebuilt + rest == before + ((if index == first then [pointer] else []) + rest);
        index := section.value.end;
      } else {
        rebuilt := rebuilt + [lines[index]];
        assert rebuilt + rest == before + ([lines[index]] + rest);
        index := index + 1;
      }
    }
  }

  method FirstStart(secs: seq<Section>) returns (first: nat)
    requires secs != []
    ensures IsFirst(secs, first)
  {
    first := secs[0].start;
    for k := 1 to |secs|
      invariant IsFirst(secs[..k], first)
    {
      if secs[k].start < first { first := secs[k].start; }
    }
    assert secs[..|secs|] == secs;
  }

  lemma SelectedInRange(lines: seq<Line>, rows: seq<Row>, qs: seq<Request>, secs: seq<Section>, of: seq<Row>)
    requires Scanned(lines, rows) && SelectedBy(lines, rows, qs, secs, of)
    ensures InRange(lines, secs)
  {
    forall k | 0 <= k < |secs| ensures secs[k].start < secs[k].end <= |lines| {
      assert OnlyRow(rows, of[k]) && From(lines, secs[k], of[k], qs[k]) && RowOk(lines, of[k]);
    }
  }

  lemma RetakingsAreNested(lines: seq<Line>, qs: seq<Request>, secs: seq<Section>)
    requires |secs| == |qs| && InRange(lines, secs) && OverlapsAreRetakings(qs, secs)
    ensures Nested(secs)
    ensures Disjoint(secs) <==> forall k, m :: !Retaken(qs, k, m)
  {
    forall k, m | 0 <= k < |secs| && 0 <= m < |secs| && k != m
      ensures secs[k].start != secs[m].start && (secs[k].start < secs[m].start < secs[k].end ==> secs[m].end <= secs[k].end)
    {
      var a, b := if k < m then k else m, if k < m then m else k;
      assert secs[a].start != secs[b].start;
      assert Overlaps(secs[a], secs[b]) ==> secs[b].start < secs[a].start && secs[a].end <= secs[b].end;
    }
  }

  /** The line left behind for the readers of the source. */
  function Pointer(owner: string): Line
  {
    "This capability now lives in " + owner + "; project-specific facts stay here."
  }

  lemma PointerIsNotBlank(owner: string)
    ensures !Blank(Pointer(owner))
  {
    assert Pointer(owner)[0] == 'T' && !Text.JsSpace('T');
  }

  predicate Heading(l: Line) { var t := Text.TrimStart(l); t != "" && t[0] == '#' }

  /** A residual line that counts as content. */
  predicate Substantive(pointer: Line, l: Line) { !Blank(l) && l != pointer && !Heading(l) }

  /** A line counts as content if it is not the pointer and its first visible character is no hash. */
  lemma ContentIs(pointer: Line, l: Line)
    ensures Substantive(pointer, l) <==>
            l != pointer && exists i | 0 <= i < |l| :: !Text.JsSpace(l[i]) && l[i] != '#' && Text.AllSpace(l[..i])
  {
    var t := Text.TrimStart(l);
    var n := |l| - |t|;
    Text.TrimStartTakes(l);
    BlankIs(l);
    if t != "" { assert l[n] == t[0] && !Text.JsSpace(l[n]); }
    forall i | 0 <= i < |l| && !Text.JsSpace(l[i]) && Text.AllSpace(l[..i]) ensures t == l[i..] { FirstVisible(l, i); }
  }

  lemma {:induction false} FirstVisible(l: Line, i: nat)
    requires i < |l| && !Text.JsSpace(l[i]) && Text.AllSpace(l[..i])
    ensures Text.TrimStart(l) == l[i..]
  {
    if i > 0 {
      assert Text.JsSpace(l[..i][0]);
      assert l[1..][..i - 1] == l[..i][1..] && l[1..][i - 1..] == l[i..];
      assert Text.AllSpace(l[..i][1..]);
      FirstVisible(l[1..], i - 1);
    }
  }

  lemma BlankIs(l: Line)
    ensures Blank(l) <==> Text.TrimStart(l) == ""
    ensures Blank(l) ==> Text.AllSpace(l)
  {
    var t := Text.TrimStart(l);
    if t == "" {
      Text.TrimStartTakes(l);
      assert Text.Front(l) == l;
    } else {
      SolidHeadStays(t);
    }
  }

  lemma SolidHeadStays(t: Line)
    requires t != "" && !Text.JsSpace(t[0])
    ensures Text.TrimEnd(t) != ""
  {
    Text.TrimEndTakes(t);
    assert Text.TrimEnd(t) == "" ==> Text.Back(t) == t;
  }

  /** What a granted cut is: the parts are the selected ranges; the residual is the lines that stay, in their order, with
      the pointer where the first range began. */
  ghost predicate IsCut(lines: seq<Line>, secs: seq<Section>, pointer: Line, cut: Cut)
  {
    && InRange(lines, secs) && |cut.parts| == |secs|
    && (forall k | 0 <= k < |secs| :: secs[k].start < secs[k].end <= |lines| && cut.parts[k] == lines[secs[k].start..secs[k].end])
    && exists first: nat | first <= |lines| ::
         IsFirst(secs, first) && cut.residual == lines[..first] + ([pointer] + Kept(lines, secs, first))
         && LinesAt(lines, Stays(secs, |lines|, 0)) == lines[..first] + Kept(lines, secs, first)
  }

  method PlanBody(lines: seq<Line>, raw: seq<Raw>, owner: string) returns (r: Result<Cut, Refusal>, ghost secs: seq<Section>)
    ensures r != Err(ParentEmpty)
    ensures r.Ok? ==> IsCut(lines, secs, Pointer(owner), r.value)
    ensures r.Ok? ==> exists l | l in r.value.residual :: Substantive(Pointer(owner), l)
    ensures r.Ok? ==>
              ((forall i: nat | i < |lines| :: Homes(secs, |lines|, i) == 1) <==>
               forall k, m :: !Retaken(Trimmed(raw), k, m))
    ensures var rows := H2(lines, |lines|);
            && (forall row | row in rows :: row.end <= |lines|)
            && match Select(lines, rows, Trimmed(raw))
               case Err(code) => r == Err(Unselected(code))
               case Ok(selected) =>
                 && secs == selected && (r == Err(PartEmpty) <==> raw == [])
                 && (raw != [] ==> (r.Ok? <==> SomethingStays(lines, secs, Pointer(owner))))
  {
    var selection, of := SelectSections(lines, raw);
    secs := [];
    if selection.Err? { return Err(Unselected(selection.error)), secs; }
    var sections := selection.value;
    secs := sections;
    if sections == [] { return Err(PartEmpty), secs; }
    SelectedInRange(lines, H2(lines, |lines|), Trimmed(raw), sections, of);
    RetakingsAreNested(lines, Trimmed(raw), sections);
    OneHomeIffDisjoint(lines, sections);
    r := CutOut(lines, sections, Pointer(owner), owner);
  }

  /** Some line outside the sections counts as content. */
  ghost predicate SomethingStays(lines: seq<Line>, secs: seq<Section>, pointer: Line)
  {
    exists i: nat | i < |lines| :: !Covered(secs, i) && Substantive(pointer, lines[i])
  }

  lemma LineStays(lines: seq<Line>, secs: seq<Section>, i: nat)
    requires i < |lines| && !Covered(secs, i)
    ensures lines[i] in LinesAt(lines, Stays(secs, |lines|, 0))
  {
    var idx := Stays(secs, |lines|, 0);
    assert i in idx;
    var k :| 0 <= k < |idx| && idx[k] == i;
    assert LinesAt(lines, idx)[k] == lines[i];
  }

  lemma StayingLine(lines: seq<Line>, secs: seq<Section>, l: Line) returns (i: nat)
    requires l in LinesAt(lines, Stays(secs, |lines|, 0))
    ensures i < |lines| && !Covered(secs, i) && lines[i] == l
  {
    var idx := Stays(secs, |lines|, 0);
    var k :| 0 <= k < |idx| && LinesAt(lines, idx)[k] == l;
    i := idx[k];
    assert i in idx;
  }

  /** The lines that stay are the lines outside the sections. */
  lemma StaysAre(lines: seq<Line>, secs: seq<Section>, pointer: Line)
    ensures SomethingStays(lines, secs, pointer) <==>
            exists l | l in LinesAt(lines, Stays(secs, |lines|, 0)) :: Substantive(pointer, l)
  {
    if SomethingStays(lines, secs, pointer) {
      var i: nat :| i < |lines| && !Covered(secs, i) && Substantive(pointer, lines[i]);
      LineStays(lines, secs, i);
    }
    if l :| l in LinesAt(lines, Stays(secs, |lines|, 0)) && Substantive(pointer, l) {
      var i := StayingLine(lines, secs, l);
    }
  }

  lemma StaysInResidual(lines: seq<Line>, secs: seq<Section>, pointer: Line, before: seq<Line>, behind: seq<Line>)
    requires LinesAt(lines, Stays(secs, |lines|, 0)) == before + behind
    ensures SomethingStays(lines, secs, pointer) <==> exists l | l in before + ([pointer] + behind) :: Substantive(pointer, l)
  {
    StaysAre(lines, secs, pointer);
    forall l ensures l in before + ([pointer] + behind) <==> l in before + behind || l == pointer {}
  }

  lemma ResidualIs(lines: seq<Line>, secs: seq<Section>, pointer: Line, first: nat)
    requires secs != [] && InRange(lines, secs) && Nested(secs) && IsFirst(secs, first)
    ensures first < |lines| && Walk(lines, secs, pointer, first, 0) == lines[..first] + ([pointer] + Kept(lines, secs, first))
    ensures LinesAt(lines, Stays(secs, |lines|, 0)) == lines[..first] + Kept(lines, secs, first)
  {
    WalkPoints(lines, secs, pointer, first, 0);
    KeptFromTop(lines, secs, first, 0);
    KeptAreStays(lines, secs, 0);
    assert lines[0..first] == lines[..first];
  }

  method CutOut(lines: seq<Line>, secs: seq<Section>, pointer: Line, ghost owner: string) returns (r: Result<Cut, Refusal>)
    requires secs != [] && InRange(lines, secs) && Nested(secs) && pointer == Pointer(owner)
    ensures r.Err? ==> r.error.ParentHollow?
    ensures r.Ok? <==> SomethingStays(lines, secs, pointer)
    ensures r.Ok? ==> IsCut(lines, secs, pointer, r.value) && exists l | l in r.value.residual :: Substantive(pointer, l)
  {
    var first := FirstStart(secs);
    var residual := Rebuild(lines, secs, pointer, first);
    ResidualIs(lines, secs, pointer, first);
    PointerIsNotBlank(owner);
    assert residual[first] == pointer && pointer in residual;
    StaysInResidual(lines, secs, pointer, lines[..first], Kept(lines, secs, first));
    if forall l | l in residual :: Blank(l) { return Err(ParentEmpty); }
    if forall l | l in residual :: !Substantive(pointer, l) { return Err(ParentHollow); }
    var parts := seq(|secs|, k requires 0 <= k < |secs| => lines[secs[k].start..secs[k].end]);
    r := Ok(Cut(parts, residual));
    assert IsCut(lines, secs, pointer, r.value);
  }

  // ----- the selection that loses conservation -------------------------------------------------

  /** A body of an opening line and one section of two different lines. */
  ghost predicate OneSection(lines: seq<Line>, title: string)
  {
    && |lines| == 4 && Title(lines[1]) == Some(title) && lines[2] != lines[3]
    && !Boundary(lines[0]) && !Boundary(lines[2]) && !Boundary(lines[3])
  }

  lemma OneRow(lines: seq<Line>, title: string)
    requires OneSection(lines, title)
    ensures H2(lines, |lines|) == [Row(title, 1, 4)]
  {
    assert EndFrom(lines, 4) == 4 && EndFrom(lines, 3) == 4 && EndFrom(lines, 2) == 4;
    assert H2(lines, 0) == [] && H2(lines, 1) == [];
    assert H2(lines, 2) == [Row(title, 1, 4)];
    assert H2(lines, 3) == [Row(title, 1, 4)];
  }

  function Block(title: string, l: Line): Request { Request(title, Some(l), Some(l)) }
  function Whole(title: string): Request { Request(title, None, None) }

  lemma BlockHits(lines: seq<Line>, title: string)
    requires OneSection(lines, title)
    ensures Hits(lines, 1, 4, lines[2]) == [2] && Hits(lines, 1, 4, lines[3]) == [3]
  {
    assert Hits(lines, 1, 2, lines[2]) == [] && Hits(lines, 1, 2, lines[3]) == [];
    assert Hits(lines, 1, 3, lines[2]) == [2] && Hits(lines, 1, 3, lines[3]) == [];
  }

  lemma OnlyTitled(row: Row)
    ensures Titled([row], row.title) == [row]
  {
    assert [row][..0] == [];
  }

  lemma PicksWhole(lines: seq<Line>, row: Row, sofar: seq<Section>)
    requires row.start + 1 < row.end <= |lines| && forall s | s in sofar :: s.start != row.start
    ensures Pick(lines, [row], Whole(row.title), sofar) == Ok(Section(row.title, row.start, row.end, false))
  {
    OnlyTitled(row);
  }

  lemma PicksBlock(lines: seq<Line>, row: Row, l: Line, at: nat, sofar: seq<Section>)
    requires row.end <= |lines| && Hits(lines, row.start, row.end, l) == [at]
    requires forall s | s in sofar :: s.start != row.start && !Overlaps(Section(row.title, at, at + 1, true), s)
    ensures Pick(lines, [row], Block(row.title, l), sofar) == Ok(Section(row.title, at, at + 1, true))
  {
    OnlyTitled(row);
  }

  lemma Picks(lines: seq<Line>, rows: seq<Row>, title: string)
    requires OneSection(lines, title) && rows == [Row(title, 1, 4)]
    ensures Pick(lines, rows, Block(title, lines[2]), []) == Ok(Section(title, 2, 3, true))
    ensures Pick(lines, rows, Whole(title), [Section(title, 2, 3, true)]) == Ok(Section(title, 1, 4, false))
    ensures Pick(lines, rows, Block(title, lines[3]), [Section(title, 2, 3, true)]) == Ok(Section(title, 3, 4, true))
  {
    BlockHits(lines, title);
    PicksBlock(lines, rows[0], lines[2], 2, []);
    PicksWhole(lines, rows[0], [Section(title, 2, 3, true)]);
    PicksBlock(lines, rows[0], lines[3], 3, [Section(title, 2, 3, true)]);
  }

  lemma Granted(lines: seq<Line>, rows: seq<Row>, q0: Request, q1: Request, s0: Section, s1: Section)
    requires forall r | r in rows :: r.end <= |lines|
    requires Pick(lines, rows, q0, []) == Ok(s0) && Pick(lines, rows, q1, [s0]) == Ok(s1)
    ensures Select(lines, rows, [q0, q1]) == Ok([s0, s1])
  {
    SelectPush(lines, rows, [], q0);
    assert [] + [q0] == [q0] && [] + [s0] == [s0];
    SelectPush(lines, rows, [q0], q1);
    assert [q0] + [q1] == [q0, q1] && [s0] + [s1] == [s0, s1];
  }

  /** On every such body a block and then its whole section are both granted, and the block's line is in both parts. */
  lemma RetakenLineIsDoubled(lines: seq<Line>, title: string)
    requires OneSection(lines, title)
    ensures var (rows, qs) := (H2(lines, |lines|), [Block(title, lines[2]), Whole(title)]);
            && (forall r | r in rows :: r.end <= |lines|) && Select(lines, rows, qs).Ok? && Retaken(qs, 0, 1)
            && Homes(Select(lines, rows, qs).value, |lines|, 2) == 2
  {
    var rows, s0, s1 := H2(lines, |lines|), Section(title, 2, 3, true), Section(title, 1, 4, false);
    OneRow(lines, title);
    Picks(lines, rows, title);
    Granted(lines, rows, Block(title, lines[2]), Whole(title), s0, s1);
    DoubledLine([s0, s1], s0, s1);
  }

  lemma DoubledLine(secs: seq<Section>, s0: Section, s1: Section)
    requires secs == [s0, s1] && s0.Covers(2) && s1.Covers(2)
    ensures Homes(secs, 4, 2) == 2
  {
    assert secs[1..] == [s1] && [s1][1..] == [];
    assert Covers([], 2) == 0 && Covers([s1], 2) == 1;
    assert Covers(secs, 2) == 2;
    assert s0 in secs && Covered(secs, 2);
  }

  const Body: seq<Line> := ["intro", "## A", "x", "y"]

  lemma TitleOf(l: Line, t: string)
    requires Boundary(l) && Text.Trim(l[2..]) == t && t != "" && TmpName.OneLine(t)
    ensures Title(l) == Some(t)
  {
  }

  lemma ShortTitle(l: Line, c: char)
    requires l == ['#', '#', ' ', c] && Boundary(l) && !Text.JsSpace(c) && TmpName.OneLine([c])
    ensures Title(l) == Some([c])
  {
    Text.TrimOne(' ', c);
    assert l[2..] == [' ', c];
    TitleOf(l, [c]);
  }

  /** There are such bodies. */
  lemma BodyIsOneSection()
    ensures OneSection(Body, "A")
  {
    ShortTitle(Body[1], 'A');
    assert Body[2][0] != Body[3][0];
  }
}
