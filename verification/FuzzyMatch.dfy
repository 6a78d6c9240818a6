/**
 * The tolerant matcher and the replace loop behind patch edits
 * (packages/evolution-core/src/fuzzy-match.ts).
 */
module FuzzyMatch {
  import opened Wrappers
  import opened Text

  // ----- the matcher ---------------------------------------------------------

  predicate Blank(c: char) { c == ' ' || c == '\t' }

  function Escaped(c: char): Option<char>
  {
    if c == 'n' then Some('\n') else if c == 't' then Some('\t') else if c == 'r' then Some('\r') else None
  }

  /** The character a two-character escape at `j` stands for, if there is one. */
  function EscapeAt(p: string, j: nat): Option<char>
    requires j < |p|
  {
    if p[j] == '\\' && j + 1 < |p| then Escaped(p[j + 1]) else None
  }

  /** The end of the maximal blank run that starts at `k`. */
  function SkipBlanks(s: string, k: nat): (r: nat)
    requires k <= |s|
    ensures k <= r <= |s| && AllBlank(s, k, r)
    ensures r == |s| || !Blank(s[r])
    decreases |s| - k
  {
    if k < |s| && Blank(s[k]) then SkipBlanks(s, k + 1) else k
  }

  predicate AllBlank(s: string, from: nat, to: nat)
    requires from <= to <= |s|
  {
    forall k | from <= k < to :: Blank(s[k])
  }

  /** Where the greedy match of `p[j..]` against `c[i..]` ends, or None when it breaks off. */
  function Greedy(c: string, i: nat, p: string, j: nat): (r: Option<nat>)
    requires i <= |c| && j <= |p|
    ensures r.Some? ==> i <= r.value <= |c|
    decreases |p| - j
  {
    if j == |p| then Some(i)
    else if i == |c| then None
    else if Blank(p[j]) then Greedy(c, SkipBlanks(c, i), p, SkipBlanks(p, j))
    else if EscapeAt(p, j) == Some(c[i]) then Greedy(c, i + 1, p, j + 2)
    else if p[j] == c[i] then Greedy(c, i + 1, p, j + 1)
    else None
  }

  /** The declarative relation: `p[j..]` describes exactly the text `c[i..e]`. A blank run describes any
      blank run, the empty one included; an escape describes its character; anything describes itself. */
  ghost predicate Describes(p: string, j: nat, c: string, i: nat, e: nat)
    requires j <= |p| && i <= e <= |c|
    decreases |p| - j
  {
    if j == |p| then i == e
    else if Blank(p[j]) then
      exists k: nat | i <= k <= e :: AllBlank(c, i, k) && Describes(p, SkipBlanks(p, j), c, k, e)
    else
      i < e && (
        || (EscapeAt(p, j) == Some(c[i]) && Describes(p, j + 2, c, i + 1, e))
        || (p[j] == c[i] && Describes(p, j + 1, c, i + 1, e)))
  }

  /** A character outside every blank run: what makes a match consume something. */
  predicate HasSolid(p: string) { exists j :: 0 <= j < |p| && !Blank(p[j]) }

  lemma {:induction false} GreedySound(c: string, i: nat, p: string, j: nat)
    requires i <= |c| && j <= |p| && Greedy(c, i, p, j).Some?
    ensures Describes(p, j, c, i, Greedy(c, i, p, j).value)
    decreases |p| - j
  {
    if j == |p| {
    } else if Blank(p[j]) {
      GreedySound(c, SkipBlanks(c, i), p, SkipBlanks(p, j));
    } else if EscapeAt(p, j) == Some(c[i]) {
      GreedySound(c, i + 1, p, j + 2);
    } else {
      GreedySound(c, i + 1, p, j + 1);
    }
  }

  /** Every exact occurrence is a greedy match too; it can only reach further over trailing blanks. */
  lemma {:induction false} ExactIsGreedy(c: string, i: nat, p: string, j: nat)
    requires j <= |p| && i + (|p| - j) <= |c| && c[i..i + (|p| - j)] == p[j..]
    ensures Greedy(c, i, p, j).Some?
    ensures i + (|p| - j) <= Greedy(c, i, p, j).value
    ensures AllBlank(c, i + (|p| - j), Greedy(c, i, p, j).value)
    ensures Greedy(c, i, p, j).value > i + (|p| - j) ==> j < |p| && Blank(p[|p| - 1])
    decreases |p| - j
  {
    assert forall k | 0 <= k < |p| - j :: c[i + k] == c[i..i + (|p| - j)][k] == p[j..][k] == p[j + k];
    if j == |p| {
    } else if Blank(p[j]) {
      var j', i' := SkipBlanks(p, j), SkipBlanks(c, i);
      assert forall k | i <= k < i + (j' - j) :: c[k] == p[j + (k - i)];
      if j' < |p| {
        assert c[i + (j' - j)] == p[j'];
        assert i' == i + (j' - j);
        ExactIsGreedy(c, i', p, j');
      } else {
        assert i' >= i + (|p| - j);
      }
    } else {
      assert c[i] == p[j];
      ExactIsGreedy(c, i + 1, p, j + 1);
    }
  }

  /** Patterns on which the greedy choice loses nothing: they end on a solid character and no blank run is
      followed by a tab escape, which the run would have swallowed. */
  predicate RunsAreForced(p: string)
  {
    && p != "" && !Blank(p[|p| - 1])
    && forall j | 0 < j < |p| :: Blank(p[j - 1]) && !Blank(p[j]) ==> EscapeAt(p, j) != Some('\t')
  }

  lemma {:induction false} GreedyFindsForced(c: string, i: nat, p: string, j: nat, e: nat)
    requires RunsAreForced(p) && j <= |p| && i <= e <= |c| && Describes(p, j, c, i, e)
    ensures Greedy(c, i, p, j) == Some(e)
    decreases |p| - j
  {
    if j == |p| {
    } else if Blank(p[j]) {
      var j' := SkipBlanks(p, j);
      var k: nat :| i <= k <= e && AllBlank(c, i, k) && Describes(p, j', c, k, e);
      assert j' < |p| && Blank(p[j' - 1]) && !Blank(p[j']);
      assert k < e && !Blank(c[k]);
      assert k == SkipBlanks(c, i) by { SkipIs(c, i, k); }
      GreedyFindsForced(c, k, p, j', e);
    } else if EscapeAt(p, j) == Some(c[i]) {
      assert c[i] != '\\';
      GreedyFindsForced(c, i + 1, p, j + 2, e);
    } else {
      GreedyFindsForced(c, i + 1, p, j + 1, e);
    }
  }

  lemma SkipIs(s: string, from: nat, to: nat)
    requires from <= to < |s| && AllBlank(s, from, to) && !Blank(s[to])
    ensures SkipBlanks(s, from) == to
    decreases |s| - from
  {
    if from < to { SkipIs(s, from + 1, to); }
  }

  /** At `i` the matcher finds an end exactly when the declarative relation has one. */
  ghost predicate DecidesAt(p: string, c: string, i: nat)
    requires i <= |c|
  {
    Greedy(c, i, p, 0).Some? <==> exists e: nat | i <= e <= |c| :: Describes(p, 0, c, i, e)
  }

  /** On forced patterns the tolerant matcher decides the declarative relation. */
  lemma GreedyDecides(c: string, i: nat, p: string)
    requires RunsAreForced(p) && i <= |c|
    ensures DecidesAt(p, c, i)
  {
    if Greedy(c, i, p, 0).Some? {
      GreedySound(c, i, p, 0);
      assert Describes(p, 0, c, i, Greedy(c, i, p, 0).value);
    }
    forall e: nat | i <= e <= |c| && Describes(p, 0, c, i, e) ensures Greedy(c, i, p, 0).Some? {
      GreedyFindsForced(c, i, p, 0, e);
    }
  }

  /** The pattern element at `j`: the character it asks for and where the next one starts. */
  function Element(p: string, j: nat): (char, nat)
    requires j < |p|
  {
    if EscapeAt(p, j).Some? then (EscapeAt(p, j).value, j + 2) else (p[j], j + 1)
  }

  /** The shortest text `p[j..]` describes: every blank run empty, every escape its one character. */
  function Shortest(p: string, j: nat): string
    requires j <= |p|
    decreases |p| - j
  {
    if j == |p| then ""
    else if Blank(p[j]) then Shortest(p, SkipBlanks(p, j))
    else
      var (x, next) := Element(p, j);
      [x] + Shortest(p, next)
  }

  lemma {:induction false} ShortestIsDescribed(p: string, j: nat, c: string, i: nat)
    requires j <= |p| && i <= |c| && c[i..] == Shortest(p, j)
    ensures Describes(p, j, c, i, |c|)
    decreases |p| - j
  {
    if j < |p| && Blank(p[j]) {
      ShortestIsDescribed(p, SkipBlanks(p, j), c, i);
      assert AllBlank(c, i, i);
    } else if j < |p| {
      ShortestStep(p, j, c, i);
      ShortestIsDescribed(p, Element(p, j).1, c, i + 1);
    }
  }

  lemma ShortestStep(p: string, j: nat, c: string, i: nat)
    requires j < |p| && !Blank(p[j]) && i <= |c| && c[i..] == Shortest(p, j)
    ensures i < |c| && c[i] == Element(p, j).0 && c[i + 1..] == Shortest(p, Element(p, j).1)
  {
    var (x, next) := Element(p, j);
    assert c[i..] == [x] + Shortest(p, next);
    assert c[i] == c[i..][0] && c[i + 1..] == c[i..][1..];
  }

  lemma {:induction false} NothingShorter(p: string, j: nat, c: string, i: nat, e: nat)
    requires j <= |p| && i <= e <= |c| && Describes(p, j, c, i, e)
    ensures |Shortest(p, j)| <= e - i
    decreases |p| - j
  {
    if j == |p| {
    } else if Blank(p[j]) {
      var k: nat :| i <= k <= e && AllBlank(c, i, k) && Describes(p, SkipBlanks(p, j), c, k, e);
      NothingShorter(p, SkipBlanks(p, j), c, k, e);
    } else if EscapeAt(p, j) == Some(c[i]) && Describes(p, j + 2, c, i + 1, e) {
      NothingShorter(p, j + 2, c, i + 1, e);
    } else {
      NothingShorter(p, j + 1, c, i + 1, e);
      if EscapeAt(p, j).Some? { assert Shortest(p, j + 1) == [p[j + 1]] + Shortest(p, j + 2); }
    }
  }

  /** A blank run at or after `j` that ends the pattern, or that a tab escape follows at `k`. */
  predicate TrapAt(p: string, j: nat, k: nat)
  {
    j < k <= |p| && Blank(p[k - 1]) && (k == |p| || EscapeAt(p, k) == Some('\t'))
  }

  lemma TrapIsBehindTheRun(p: string, j: nat, k: nat)
    requires TrapAt(p, j, k) && Blank(p[j])
    ensures SkipBlanks(p, j) <= k
  {
    assert forall m | j <= m < SkipBlanks(p, j) :: p[m] != '\\';
  }

  /** A run before a tab escape swallows the tab, and what is left is shorter than anything the rest describes. */
  lemma RunSwallowsTab(p: string, j: nat, c: string, i: nat)
    requires j < |p| && Blank(p[j]) && SkipBlanks(p, j) < |p| && EscapeAt(p, SkipBlanks(p, j)) == Some('\t')
    requires i <= |c| && c[i..] == Shortest(p, j)
    ensures Greedy(c, i, p, j).None?
  {
    var j' := SkipBlanks(p, j);
    ShortestStep(p, j', c, i);
    var i' := SkipBlanks(c, i);
    if Greedy(c, i', p, j').Some? {
      GreedySound(c, i', p, j');
      NothingShorter(p, j', c, i', Greedy(c, i', p, j').value);
    }
  }

  /** On the shortest text such a run makes the matcher break off. */
  lemma {:induction false} TrapsBreakOff(p: string, j: nat, k: nat, c: string, i: nat)
    requires TrapAt(p, j, k) && i <= |c| && c[i..] == Shortest(p, j)
    ensures Greedy(c, i, p, j).None?
    decreases |p| - j
  {
    if !Blank(p[j]) {
      ShortestStep(p, j, c, i);
      assert !Blank(p[Element(p, j).1 - 1]);
      TrapsBreakOff(p, Element(p, j).1, k, c, i + 1);
    } else if SkipBlanks(p, j) < |p| {
      TrapIsBehindTheRun(p, j, k);
      if EscapeAt(p, SkipBlanks(p, j)) == Some('\t') {
        RunSwallowsTab(p, j, c, i);
      } else {
        ShortestStep(p, SkipBlanks(p, j), c, i);
        TrapsBreakOff(p, SkipBlanks(p, j), k, c, i);
      }
    }
  }

  /** The matcher decides the relation on every text if and only if the pattern's runs are forced; for a pattern a
      patch may use, also when only starts inside the text are tried, as the scan does. */
  lemma GreedyDecidesIff(p: string)
    requires p != ""
    ensures (forall c: string, i: nat | i <= |c| :: DecidesAt(p, c, i)) <==> RunsAreForced(p)
    ensures HasSolid(p) ==> ((forall c: string, i: nat | i < |c| :: DecidesAt(p, c, i)) <==> RunsAreForced(p))
  {
    if RunsAreForced(p) {
      forall c: string, i: nat | i <= |c| ensures DecidesAt(p, c, i) { GreedyDecides(c, i, p); }
    } else {
      var c := Shortest(p, 0);
      var k := if Blank(p[|p| - 1]) then |p| else
        var k :| 0 < k < |p| && Blank(p[k - 1]) && !Blank(p[k]) && EscapeAt(p, k) == Some('\t'); k;
      assert c[0..] == c;
      TrapsBreakOff(p, 0, k, c, 0);
      ShortestIsDescribed(p, 0, c, 0);
      assert !DecidesAt(p, c, 0);
      if HasSolid(p) { SolidIsNeeded(p, 0); }
    }
  }

  lemma {:induction false} SolidIsNeeded(p: string, j: nat)
    requires j <= |p| && exists k :: j <= k < |p| && !Blank(p[k])
    ensures Shortest(p, j) != ""
    decreases |p| - j
  {
    var k :| j <= k < |p| && !Blank(p[k]);
    if Blank(p[j]) {
      assert SkipBlanks(p, j) <= k;
      SolidIsNeeded(p, SkipBlanks(p, j));
    }
  }

  /** The two misses at their smallest: a swallowed tab escape, and a trailing blank at the end of the content. */
  lemma GreedyMisses()
    ensures Describes(" \\tx", 0, "\tx", 0, 2) && Greedy("\tx", 0, " \\tx", 0).None?
    ensures Describes("x ", 0, "x", 0, 1) && Greedy("x", 0, "x ", 0).None?
  {
    var p, c := " \\tx", "\tx";
    assert SkipBlanks(p, 1) == 1 && SkipBlanks(p, 0) == 1 && SkipBlanks(c, 1) == 1 && SkipBlanks(c, 0) == 1;
    assert Describes(p, 4, c, 2, 2);
    assert Describes(p, 3, c, 1, 2);
    assert Describes(p, 1, c, 0, 2);
    assert AllBlank(c, 0, 0);
    var q, d := "x ", "x";
    assert SkipBlanks(q, 1) == 2;
    assert Describes(q, 2, d, 1, 1) && AllBlank(d, 1, 1);
    assert Describes(q, 1, d, 1, 1);
  }

  lemma {:induction false} GreedyConsumes(c: string, i: nat, p: string, j: nat)
    requires i <= |c| && j <= |p| && (exists k :: j <= k < |p| && !Blank(p[k]))
    requires Greedy(c, i, p, j).Some?
    ensures i < Greedy(c, i, p, j).value
    decreases |p| - j
  {
    var k :| j <= k < |p| && !Blank(p[k]);
    if Blank(p[j]) {
      assert SkipBlanks(p, j) <= k;
      GreedyConsumes(c, SkipBlanks(c, i), p, SkipBlanks(p, j));
    }
  }

  /** The match at a position looks at nothing before that position. */
  lemma {:induction false} GreedyLooksAhead(a: string, b: string, s: string, i: nat, p: string, j: nat)
    requires i <= |s| && j <= |p|
    ensures Greedy(a + s, |a| + i, p, j).Some? <==> Greedy(b + s, |b| + i, p, j).Some?
    ensures Greedy(a + s, |a| + i, p, j).Some?
        ==> Greedy(a + s, |a| + i, p, j).value - |a| == Greedy(b + s, |b| + i, p, j).value - |b|
    decreases |p| - j
  {
    if j == |p| || i == |s| {
    } else if Blank(p[j]) {
      SkipLooksAhead(a, b, s, i);
      GreedyLooksAhead(a, b, s, SkipBlanks(a + s, |a| + i) - |a|, p, SkipBlanks(p, j));
    } else if EscapeAt(p, j) == Some(s[i]) {
      GreedyLooksAhead(a, b, s, i + 1, p, j + 2);
    } else if p[j] == s[i] {
      GreedyLooksAhead(a, b, s, i + 1, p, j + 1);
    }
  }

  lemma SkipLooksAhead(a: string, b: string, s: string, i: nat)
    requires i <= |s|
    ensures SkipBlanks(a + s, |a| + i) - |a| == SkipBlanks(b + s, |b| + i) - |b|
    decreases |s| - i
  {
    if i < |s| && Blank(s[i]) { SkipLooksAhead(a, b, s, i + 1); }
  }

  // ----- scanning and splicing ------------------------------------------------

  /** The two ways a patch looks for its old text. */
  datatype Pattern = Exact(text: string) | Tolerant(text: string)
  {
    predicate Valid() { if Exact? then text != "" else HasSolid(text) }

    /** Where a match starting at `s` ends. */
    function End(c: string, s: nat): (r: Option<nat>)
      requires s <= |c|
      ensures r.Some? ==> s <= r.value <= |c|
    {
      if Tolerant? then Greedy(c, s, text, 0)
      else if s + |text| <= |c| && c[s..s + |text|] == text then Some(s + |text|)
      else None
    }

    lemma EndAfterStart(c: string, s: nat)
      requires Valid() && s <= |c| && End(c, s).Some?
      ensures s < End(c, s).value
    {
      if Tolerant? { GreedyConsumes(c, s, text, 0); }
    }

    lemma LooksAhead(a: string, b: string, s: string, i: nat)
      requires i <= |s|
      ensures End(a + s, |a| + i).Some? <==> End(b + s, |b| + i).Some?
      ensures End(a + s, |a| + i).Some? ==> End(a + s, |a| + i).value - |a| == End(b + s, |b| + i).value - |b|
    {
      if Tolerant? {
        GreedyLooksAhead(a, b, s, i, text, 0);
      } else if i + |text| <= |s| {
        assert (a + s)[|a| + i..|a| + i + |text|] == s[i..i + |text|] == (b + s)[|b| + i..|b| + i + |text|];
      }
    }
  }

  type Span = (nat, nat)

  /** The leftmost match that starts at or after `from`. */
  function FirstMatch(pt: Pattern, c: string, from: nat): (r: Option<Span>)
    requires from <= |c|
    ensures r.Some? ==> from <= r.value.0 < |c| && pt.End(c, r.value.0) == Some(r.value.1)
    ensures forall k | from <= k < (if r.Some? then r.value.0 else |c|) :: pt.End(c, k).None?
    decreases |c| - from
  {
    if from == |c| then None
    else match pt.End(c, from)
      case Some(e) => Some((from, e))
      case None => FirstMatch(pt, c, from + 1)
  }

  /** The next match, which for a usable pattern consumes something. */
  function NextSpan(pt: Pattern, c: string, k: nat): (r: Option<Span>)
    requires pt.Valid() && k <= |c|
    ensures r == FirstMatch(pt, c, k)
    ensures r.Some? ==> k <= r.value.0 < r.value.1 <= |c|
  {
    var r := FirstMatch(pt, c, k);
    assert r.Some? ==> r.value.0 < r.value.1 by {
      if r.Some? { pt.EndAfterStart(c, r.value.0); }
    }
    r
  }

  /** The non-overlapping matches of the ORIGINAL text, left to right from `k`. */
  function Spans(pt: Pattern, c: string, k: nat): seq<Span>
    requires pt.Valid() && k <= |c|
    decreases |c| - k
  {
    var next := NextSpan(pt, c, k);
    if next.None? then [] else [next.value] + Spans(pt, c, next.value.1)
  }

  /** `spans` are ordered, disjoint, non-empty stretches of `c` at or after `k`. */
  predicate Ordered(spans: seq<Span>, k: nat, n: nat)
  {
    k <= n && (spans == [] || (k <= spans[0].0 < spans[0].1 <= n && Ordered(spans[1..], spans[0].1, n)))
  }

  /** `c[k..]` with every span replaced by `text` and everything else kept. */
  function Splice(c: string, spans: seq<Span>, text: string, k: nat): string
    requires Ordered(spans, k, |c|)
  {
    if spans == [] then c[k..]
    else c[k..spans[0].0] + text + Splice(c, spans[1..], text, spans[0].1)
  }

  /** The scan lists exactly the leftmost non-overlapping matches: in order, each one a match, and no match
      starts in the text between two of them or after the last. */
  lemma {:induction false} SpansAreLeftmost(pt: Pattern, c: string, k: nat)
    requires pt.Valid() && k <= |c|
    ensures Ordered(Spans(pt, c, k), k, |c|)
    ensures forall x | x in Spans(pt, c, k) :: k <= x.0 < x.1 <= |c| && pt.End(c, x.0) == Some(x.1)
    ensures forall s | k <= s < |c| && pt.End(c, s).Some? ::
              exists x :: x in Spans(pt, c, k) && x.0 <= s < x.1
    decreases |c| - k
  {
    match FirstMatch(pt, c, k) {
      case None =>
      case Some(m) =>
        pt.EndAfterStart(c, m.0);
        SpansAreLeftmost(pt, c, m.1);
        assert Spans(pt, c, k) == [m] + Spans(pt, c, m.1);
        assert Spans(pt, c, k)[1..] == Spans(pt, c, m.1);
        forall s | k <= s < |c| && pt.End(c, s).Some?
          ensures exists x :: x in Spans(pt, c, k) && x.0 <= s < x.1
        {
          if s < m.1 {
            assert m in Spans(pt, c, k) && m.0 <= s < m.1;
          } else {
            var x :| x in Spans(pt, c, m.1) && x.0 <= s < x.1;
            assert x in Spans(pt, c, k);
          }
        }
    }
  }

  /** The tolerant scan never starts later than the exact one. */
  lemma TolerantStartsNoLater(p: string, c: string, from: nat)
    requires from <= |c| && FirstMatch(Exact(p), c, from).Some?
    ensures FirstMatch(Tolerant(p), c, from).Some?
    ensures FirstMatch(Tolerant(p), c, from).value.0 <= FirstMatch(Exact(p), c, from).value.0
  {
    var s := FirstMatch(Exact(p), c, from).value.0;
    assert c[s..s + |p|] == p[0..];
    ExactIsGreedy(c, s, p, 0);
    assert Tolerant(p).End(c, s).Some?;
  }

  /** Two first matches that differ only by where their texts start. */
  predicate MovedBy(x: Option<Span>, y: Option<Span>, a: nat, b: nat)
  {
    (x.Some? <==> y.Some?) && (x.Some? ==> x.value.0 - a == y.value.0 - b && x.value.1 - a == y.value.1 - b)
  }

  predicate MovedEnd(x: Option<nat>, y: Option<nat>, a: nat, b: nat)
  {
    (x.Some? <==> y.Some?) && (x.Some? ==> x.value - a == y.value - b)
  }

  ghost predicate EndsMove(pt: Pattern, x: string, y: string, a: nat, b: nat, k: nat)
  {
    a + k <= |x| && b + k <= |y| && MovedEnd(pt.End(x, a + k), pt.End(y, b + k), a, b)
  }

  lemma AllEndsMove(pt: Pattern, a: string, b: string, s: string, x: string, y: string)
    requires x == a + s && y == b + s
    ensures |x| == |a| + |s| && |y| == |b| + |s| && forall k: nat | k <= |s| :: EndsMove(pt, x, y, |a|, |b|, k)
  {
    forall k: nat | k <= |s| ensures EndsMove(pt, x, y, |a|, |b|, k) {
      pt.LooksAhead(a, b, s, k);
    }
  }

  lemma MatchStep(pt: Pattern, x: string, y: string, a: nat, b: nat, i: nat, j: nat)
    requires i < |x| && j < |y| && i - a == j - b && MovedEnd(pt.End(x, i), pt.End(y, j), a, b)
    requires pt.End(x, i).None? ==> MovedBy(FirstMatch(pt, x, i + 1), FirstMatch(pt, y, j + 1), a, b)
    ensures MovedBy(FirstMatch(pt, x, i), FirstMatch(pt, y, j), a, b)
  {
  }

  /** Texts on which every start has the same end, moved, have the same first match, moved. */
  lemma {:induction false} SameEnds(pt: Pattern, x: string, y: string, a: nat, b: nat, n: nat, i: nat)
    requires i <= n && a + n == |x| && b + n == |y| && forall k: nat | k <= n :: EndsMove(pt, x, y, a, b, k)
    ensures MovedBy(FirstMatch(pt, x, a + i), FirstMatch(pt, y, b + i), a, b)
    decreases n - i
  {
    if i < n {
      SameEnds(pt, x, y, a, b, n, i + 1);
      assert EndsMove(pt, x, y, a, b, i);
      MatchStep(pt, x, y, a, b, a + i, b + i);
    }
  }

  /** Replacing the start of a text moves the first match with it. */
  lemma FirstMatchMoves(pt: Pattern, a: string, b: string, s: string, i: nat)
    requires i <= |s|
    ensures MovedBy(FirstMatch(pt, a + s, |a| + i), FirstMatch(pt, b + s, |b| + i), |a|, |b|)
  {
    var x, y := a + s, b + s;
    assert MovedBy(FirstMatch(pt, x, |a| + i), FirstMatch(pt, y, |b| + i), |a|, |b|) by {
      AllEndsMove(pt, a, b, s, x, y);
      SameEnds(pt, x, y, |a|, |b|, |s|, i);
    }
  }

  // ----- the loops of the source ----------------------------------------------

  method FuzzyIndexOf(content: string, pattern: string, from: nat) returns (r: Option<Span>)
    requires from <= |content|
    ensures r == FirstMatch(Tolerant(pattern), content, from)
  {
    var start := from;
    while start < |content|
      invariant from <= start <= |content|
      invariant FirstMatch(Tolerant(pattern), content, from) == FirstMatch(Tolerant(pattern), content, start)
    {
      var ci, pi := start, 0;
      while pi < |pattern| && ci < |content|
        invariant start <= ci <= |content| && 0 <= pi <= |pattern|
        invariant Greedy(content, start, pattern, 0) == Greedy(content, ci, pattern, pi)
        decreases |pattern| - pi
      {
        if Blank(pattern[pi]) {
          ghost var ci0, pi0 := ci, pi;
          while pi < |pattern| && Blank(pattern[pi])
            invariant pi0 <= pi <= |pattern|
            invariant SkipBlanks(pattern, pi0) == SkipBlanks(pattern, pi)
          {
            pi := pi + 1;
          }
          while ci < |content| && Blank(content[ci])
            invariant ci0 <= ci <= |content|
            invariant SkipBlanks(content, ci0) == SkipBlanks(content, ci)
          {
            ci := ci + 1;
          }
          continue;
        }
        var escapedChar := EscapeAt(pattern, pi);
        if escapedChar == Some(content[ci]) {
          pi := pi + 2;
          ci := ci + 1;
          continue;
        }
        if pattern[pi] == content[ci] {
          ci := ci + 1;
          pi := pi + 1;
          continue;
        }
        break;
      }
      if pi == |pattern| { return Some((start, ci)); }
      start := start + 1;
    }
    return None;
  }

  const FUZZY_MAX_WORK := 8_000_000

  /** What one scan is charged: text length times pattern length, written additively. */
  function Charge(n: int, m: nat): int { if m == 0 then 0 else n + Charge(n, m - 1) }

  lemma {:induction false} ChargeIsProduct(n: int, m: nat)
    ensures Charge(n, m) == n * m
  {
    if m > 0 { ChargeIsProduct(n, m - 1); }
  }

  /** The work the replace-all loop adds up: one full scan charge per round, over the text as rewritten
      so far (`n` characters), and one last charge for the round that finds nothing. */
  function ScanWork(spans: seq<Span>, n: int, textLen: nat, patternLen: nat): int
  {
    Charge(n, patternLen) +
    if spans == [] then 0
    else ScanWork(spans[1..], n + textLen - spans[0].1 + spans[0].0, textLen, patternLen)
  }

  lemma {:induction false} ScanWorkGrows(spans: seq<Span>, k: nat, end: nat, n: int, textLen: nat, patternLen: nat)
    requires Ordered(spans, k, end) && k <= end && n >= end - k
    ensures ScanWork(spans, n, textLen, patternLen) >= Charge(n, patternLen) >= 0
  {
    ChargeIsProduct(n, patternLen);
    if spans != [] {
      ScanWorkGrows(spans[1..], spans[0].1, end, n + textLen - spans[0].1 + spans[0].0, textLen, patternLen);
    }
  }

  function First(spans: seq<Span>): seq<Span> { if spans == [] then [] else spans[..1] }

  /** What a replacement over `pt` is meant to produce, by its matches in the original text. */
  function Replaced(pt: Pattern, c: string, text: string, all: bool): string
    requires pt.Valid()
  {
    SpansAreLeftmost(pt, c, 0);
    Splice(c, if all then Spans(pt, c, 0) else First(Spans(pt, c, 0)), text, 0)
  }

  /** The work one replacement is charged in all. */
  function Work(pt: Pattern, c: string, text: string, all: bool): int
    requires pt.Valid()
  {
    if all then ScanWork(Spans(pt, c, 0), |c|, |text|, |pt.text|) else Charge(|c|, |pt.text|)
  }

  /** The lengths of the text before each round, from `n` characters on, all added up: one more round than spans. */
  function Lengths(spans: seq<Span>, n: int, textLen: nat): int
  {
    n + if spans == [] then 0 else Lengths(spans[1..], n + textLen - spans[0].1 + spans[0].0, textLen)
  }

  lemma Distributes(a: int, b: int, p: nat)
    ensures a * p + b * p == (a + b) * p
  {
  }

  lemma {:induction false} ScanWorkIs(spans: seq<Span>, n: int, textLen: nat, p: nat)
    ensures ScanWork(spans, n, textLen, p) == Lengths(spans, n, textLen) * p
  {
    ChargeIsProduct(n, p);
    if spans != [] {
      var n' := n + textLen - spans[0].1 + spans[0].0;
      ScanWorkIs(spans[1..], n', textLen, p);
      Distributes(n, Lengths(spans[1..], n', textLen), p);
    }
  }

  /** The work charged is the pattern's length times the length of the text, summed over the rounds: one round for a single
      replacement, one per match and a last one that finds nothing for all of them. */
  lemma WorkIs(pt: Pattern, c: string, text: string)
    requires pt.Valid()
    ensures Work(pt, c, text, false) == |c| * |pt.text|
    ensures Work(pt, c, text, true) == Lengths(Spans(pt, c, 0), |c|, |text|) * |pt.text|
  {
    ChargeIsProduct(|c|, |pt.text|);
    ScanWorkIs(Spans(pt, c, 0), |c|, |text|, |pt.text|);
  }

  /** The rewritten string and the original agree from the resume points on: `done` replaces `c[..k]`. So
      the next match of one is the next match of the other, moved. */
  lemma NextMatch(pt: Pattern, c: string, done: string, k: nat)
    requires k <= |c|
    ensures FirstMatch(pt, done + c[k..], |done|).Some? <==> FirstMatch(pt, c, k).Some?
    ensures FirstMatch(pt, c, k).Some? ==>
              var x, y := FirstMatch(pt, done + c[k..], |done|).value, FirstMatch(pt, c, k).value;
              x.0 - |done| == y.0 - k && x.1 - |done| == y.1 - k
  {
    assert c == c[..k] + c[k..];
    FirstMatchMoves(pt, done, c[..k], c[k..], 0);
  }

  lemma SpliceStep(pt: Pattern, c: string, text: string, k: nat)
    requires pt.Valid() && k <= |c| && FirstMatch(pt, c, k).Some?
    ensures var m := FirstMatch(pt, c, k).value;
            && k <= m.0 < m.1 <= |c|
            && Spans(pt, c, k) == [m] + Spans(pt, c, m.1)
            && Ordered(Spans(pt, c, k), k, |c|) && Ordered(Spans(pt, c, m.1), m.1, |c|)
            && Splice(c, Spans(pt, c, k), text, k) == c[k..m.0] + text + Splice(c, Spans(pt, c, m.1), text, m.1)
  {
    var m := FirstMatch(pt, c, k).value;
    pt.EndAfterStart(c, m.0);
    SpansAreLeftmost(pt, c, k);
    SpansAreLeftmost(pt, c, m.1);
    assert Spans(pt, c, k)[1..] == Spans(pt, c, m.1);
  }

  lemma OneSplice(pt: Pattern, c: string, text: string)
    requires pt.Valid() && FirstMatch(pt, c, 0).Some?
    ensures var m := FirstMatch(pt, c, 0).value;
            m.0 <= m.1 && Replaced(pt, c, text, false) == c[..m.0] + text + c[m.1..]
  {
    SpliceStep(pt, c, text, 0);
    var m := FirstMatch(pt, c, 0).value;
    assert First(Spans(pt, c, 0)) == [m];
    assert Splice(c, [m], text, 0) == c[0..m.0] + text + Splice(c, [], text, m.1);
  }

  /** Cutting a match out of the rewritten string and putting the new text in its place moves the resume
      point, and `rest` (what the scan will make of the remainder) keeps its place. */
  lemma RewriteStep(current: string, start: nat, end: nat, done: string, c: string, k: nat, m: Span, text: string,
                    rest: string)
    requires k <= m.0 < m.1 <= |c| && current == done + c[k..]
    requires start - |done| == m.0 - k && end - |done| == m.1 - k
    ensures |done| <= start < end <= |current|
    ensures current[..start] + text + current[end..] == (done + c[k..m.0] + text) + c[m.1..]
    ensures |done + c[k..m.0] + text| == start + |text|
    ensures done + (c[k..m.0] + text + rest) == (done + c[k..m.0] + text) + rest
  {
    assert current[..start] == done + c[k..m.0];
    assert current[end..] == c[m.1..];
  }

  lemma WorkStep(pt: Pattern, c: string, k: nat, n: int, textLen: nat)
    requires pt.Valid() && k <= |c| && n >= |c| - k
    ensures ScanWork(Spans(pt, c, k), n, textLen, |pt.text|) >= Charge(n, |pt.text|) >= 0
    ensures FirstMatch(pt, c, k).None? ==> ScanWork(Spans(pt, c, k), n, textLen, |pt.text|) == Charge(n, |pt.text|)
  {
    SpansAreLeftmost(pt, c, k);
    ScanWorkGrows(Spans(pt, c, k), k, |c|, n, textLen, |pt.text|);
  }

  lemma WorkNext(pt: Pattern, c: string, k: nat, n: int, textLen: nat, m: Span, next: int)
    requires pt.Valid() && k <= |c| && FirstMatch(pt, c, k) == Some(m) && next == n + textLen - m.1 + m.0
    ensures m.1 <= |c|
    ensures ScanWork(Spans(pt, c, k), n, textLen, |pt.text|)
         == Charge(n, |pt.text|) + ScanWork(Spans(pt, c, m.1), next, textLen, |pt.text|)
  {
    var spans, rest := Spans(pt, c, k), Spans(pt, c, m.1);
    assert spans == [m] + rest;
    WorkHead(spans, m, rest, n, next, textLen, |pt.text|);
  }

  lemma WorkHead(spans: seq<Span>, m: Span, rest: seq<Span>, n: int, next: int, textLen: nat, patternLen: nat)
    requires spans == [m] + rest && next == n + textLen - m.1 + m.0
    ensures ScanWork(spans, n, textLen, patternLen) == Charge(n, patternLen) + ScanWork(rest, next, textLen, patternLen)
  {
    assert spans[1..] == rest;
  }

  /** One round of the replacement, all at once. */
  lemma ReplaceStep(pt: Pattern, current: string, start: nat, end: nat, done: string, c: string, k: nat, text: string)
    requires pt.Valid() && k <= |c| && current == done + c[k..] && Ordered(Spans(pt, c, k), k, |c|)
    requires FirstMatch(pt, c, k).Some?
    requires var m := FirstMatch(pt, c, k).value; start - |done| == m.0 - k && end - |done| == m.1 - k
    ensures var m, done' := FirstMatch(pt, c, k).value, done + c[k..FirstMatch(pt, c, k).value.0] + text;
            && k <= m.0 < m.1 <= |c| && |done| <= start < end <= |current| && |done'| == start + |text|
            && current[..start] + text + current[end..] == done' + c[m.1..]
            && Ordered(Spans(pt, c, m.1), m.1, |c|)
            && done + Splice(c, Spans(pt, c, k), text, k) == done' + Splice(c, Spans(pt, c, m.1), text, m.1)
            && ScanWork(Spans(pt, c, k), |current|, |text|, |pt.text|)
               == Charge(|current|, |pt.text|) + ScanWork(Spans(pt, c, m.1), |done' + c[m.1..]|, |text|, |pt.text|)
  {
    var m := FirstMatch(pt, c, k).value;
    SpliceStep(pt, c, text, k);
    RewriteStep(current, start, end, done, c, k, m, text, Splice(c, Spans(pt, c, m.1), text, m.1));
    WorkNext(pt, c, k, |current|, |text|, m, |(done + c[k..m.0] + text) + c[m.1..]|);
  }

  /** The loop rescans the string it is rewriting; it still refines the scan of the original text, and it
      gives up (None) exactly when the accumulated work passes the budget. */
  method FuzzyReplace(content: string, oldString: string, newString: string, replaceAll: bool)
    returns (r: Option<string>)
    requires HasSolid(oldString)
    ensures r.Some? ==> r.value == Replaced(Tolerant(oldString), content, newString, replaceAll)
    ensures r.None? <==> Work(Tolerant(oldString), content, newString, replaceAll) > FUZZY_MAX_WORK
  {
    ghost var pt := Tolerant(oldString);
    var current, scanFrom, totalWork := content, 0, 0;
    ghost var k, done := 0, "";
    ghost var total := ScanWork(Spans(pt, content, 0), |content|, |newString|, |oldString|);
    SpansAreLeftmost(pt, content, 0);
    while true
      invariant 0 <= k <= |content| && |content| - k <= |current| && 0 <= totalWork <= FUZZY_MAX_WORK
      invariant current == done + content[k..] && scanFrom == |done|
      invariant !replaceAll ==> k == 0 && done == "" && totalWork == 0
      invariant Ordered(Spans(pt, content, k), k, |content|)
      invariant Splice(content, Spans(pt, content, 0), newString, 0)
             == done + Splice(content, Spans(pt, content, k), newString, k)
      invariant total == totalWork + ScanWork(Spans(pt, content, k), |current|, |newString|, |oldString|)
      decreases |content| - k
    {
      WorkStep(pt, content, k, |current|, |newString|);
      totalWork := totalWork + Charge(|current|, |oldString|);
      if totalWork > FUZZY_MAX_WORK { return None; }
      var found := FuzzyIndexOf(current, oldString, scanFrom);
      NextMatch(pt, content, done, k);
      if found.None? { return Some(current); }
      var (start, end) := found.value;
      ghost var m := FirstMatch(pt, content, k).value;
      ReplaceStep(pt, current, start, end, done, content, k, newString);
      var next := current[..start] + newString + current[end..];
      if !replaceAll {
        OneSplice(pt, content, newString);
        return Some(next);
      }
      current := next;
      scanFrom := start + |newString|;
      done := done + content[k..m.0] + newString;
      k := m.1;
    }
  }

  /** The text holds the pattern at `i`, character by character. */
  predicate OccursAt(p: string, c: string, i: nat) { i + |p| <= |c| && c[i..i + |p|] == p }

  ghost predicate Occurs(p: string, c: string) { exists i: nat :: OccursAt(p, c, i) }

  /** The tolerant matcher finds the pattern at some start inside the text. */
  predicate Matches(p: string, c: string) { exists i :: 0 <= i < |c| && Greedy(c, i, p, 0).Some? }

  lemma ExactIsOccurrence(p: string, c: string)
    requires p != ""
    ensures FirstMatch(Exact(p), c, 0).Some? <==> Occurs(p, c)
  {
    if i: nat :| OccursAt(p, c, i) { assert Exact(p).End(c, i).Some?; }
    if FirstMatch(Exact(p), c, 0).Some? { assert OccursAt(p, c, FirstMatch(Exact(p), c, 0).value.0); }
  }

  lemma TolerantIsMatch(p: string, c: string)
    ensures FirstMatch(Tolerant(p), c, 0).Some? <==> Matches(p, c)
  {
    if i :| 0 <= i < |c| && Greedy(c, i, p, 0).Some? { assert Tolerant(p).End(c, i).Some?; }
  }

  lemma SolidOfTrim(s: string)
    requires Trim(s) != ""
    ensures HasSolid(s) && HasSolid(Trim(s))
  {
    var t := TrimStart(s);
    assert t != "" && !JsSpace(t[0]) && t[0] == s[|s| - |t|];
    assert !Blank(Trim(s)[0]);
  }

  /** What a tolerant patch by the pattern answers: its replacement, or nothing over budget. */
  ghost predicate PatchedBy(p: string, content: string, newString: string, replaceAll: bool, r: Option<string>)
    requires HasSolid(p)
  {
    if Work(Tolerant(p), content, newString, replaceAll) > FUZZY_MAX_WORK then r.None?
    else r == Some(Replaced(Tolerant(p), content, newString, replaceAll))
  }

  /** An exact occurrence is always patched, whatever it costs. Without one the trimmed pattern is tried, then the pattern
      as given; a pattern of nothing but white space is never matched tolerantly. */
  method FuzzyPatch(content: string, oldString: string, newString: string, replaceAll: bool)
    returns (r: Option<string>)
    ensures oldString == "" ==> r.None?
    ensures oldString != "" && Occurs(oldString, content) ==>
              r == Some(Replaced(Exact(oldString), content, newString, replaceAll))
    ensures !Occurs(oldString, content) && Trim(oldString) == "" ==> r.None?
    ensures !Occurs(oldString, content) && Trim(oldString) != "" ==>
              && HasSolid(oldString) && HasSolid(Trim(oldString))
              && (if Matches(Trim(oldString), content) then PatchedBy(Trim(oldString), content, newString, replaceAll, r)
                  else if Matches(oldString, content) then PatchedBy(oldString, content, newString, replaceAll, r)
                  else r.None?)
  {
    if oldString == "" {
      assert OccursAt("", content, 0);
      return None;
    }
    ExactIsOccurrence(oldString, content);
    if FirstMatch(Exact(oldString), content, 0).Some? {
      return Some(Replaced(Exact(oldString), content, newString, replaceAll));
    }
    var boundary := Trim(oldString);
    if boundary == "" { return None; }
    SolidOfTrim(oldString);
    r := TolerantPatch(content, oldString, boundary, newString, replaceAll);
  }

  /** The two tolerant stages: the trimmed pattern first, the pattern as given second. */
  method TolerantPatch(content: string, oldString: string, boundary: string, newString: string, replaceAll: bool)
    returns (r: Option<string>)
    requires HasSolid(boundary) && HasSolid(oldString)
    ensures if Matches(boundary, content) then PatchedBy(boundary, content, newString, replaceAll, r)
            else if Matches(oldString, content) then PatchedBy(oldString, content, newString, replaceAll, r)
            else r.None?
  {
    TolerantIsMatch(boundary, content);
    TolerantIsMatch(oldString, content);
    if boundary != oldString {
      var found := FuzzyIndexOf(content, boundary, 0);
      if found.Some? {
        r := FuzzyReplace(content, boundary, newString, replaceAll);
        return r;
      }
    }
    var found := FuzzyIndexOf(content, oldString, 0);
    if found.Some? {
      r := FuzzyReplace(content, oldString, newString, replaceAll);
      return r;
    }
    return None;
  }

  // ----- what a patch leaves alone ---------------------------------------------

  /** The stretches between the spans, one more than there are spans. */
  function Gaps(c: string, spans: seq<Span>, k: nat): (r: seq<string>)
    requires Ordered(spans, k, |c|)
    ensures |r| == |spans| + 1
  {
    if spans == [] then [c[k..]] else [c[k..spans[0].0]] + Gaps(c, spans[1..], spans[0].1)
  }

  function Weave(gaps: seq<string>, texts: seq<string>): string
    requires |gaps| == |texts| + 1
  {
    if texts == [] then gaps[0] else gaps[0] + texts[0] + Weave(gaps[1..], texts[1..])
  }

  /** The texts of the spans, and as many copies of one text. */
  function Matched(c: string, spans: seq<Span>): (r: seq<string>)
    requires forall x | x in spans :: x.0 <= x.1 <= |c|
    ensures |r| == |spans| && forall i | 0 <= i < |spans| :: r[i] == c[spans[i].0..spans[i].1]
  {
    if spans == [] then [] else [c[spans[0].0..spans[0].1]] + Matched(c, spans[1..])
  }

  function Copies(text: string, n: nat): (r: seq<string>)
    ensures |r| == n && forall i | 0 <= i < n :: r[i] == text
  {
    if n == 0 then [] else [text] + Copies(text, n - 1)
  }

  lemma WeaveFirst(gap: string, gaps: seq<string>, t: string, texts: seq<string>)
    requires |gaps| == |texts| + 1
    ensures Weave([gap] + gaps, [t] + texts) == gap + t + Weave(gaps, texts)
  {
    assert ([gap] + gaps)[1..] == gaps && ([t] + texts)[1..] == texts;
  }

  /** The original and the patched text are woven from the SAME gaps: one with the matched texts, the other
      with copies of the new text. Nothing outside a matched span moves, and no inserted copy is rescanned. */
  lemma {:induction false} PatchKeepsGaps(c: string, spans: seq<Span>, text: string, k: nat)
    requires Ordered(spans, k, |c|)
    requires forall x | x in spans :: x.0 <= x.1 <= |c|
    ensures Weave(Gaps(c, spans, k), Matched(c, spans)) == c[k..]
    ensures Weave(Gaps(c, spans, k), Copies(text, |spans|)) == Splice(c, spans, text, k)
  {
    if spans != [] {
      var m, rest := spans[0], spans[1..];
      PatchKeepsGaps(c, rest, text, m.1);
      WeaveFirst(c[k..m.0], Gaps(c, rest, m.1), c[m.0..m.1], Matched(c, rest));
      WeaveFirst(c[k..m.0], Gaps(c, rest, m.1), text, Copies(text, |rest|));
      assert c[k..m.0] + c[m.0..m.1] + c[m.1..] == c[k..];
    }
  }

  /** Replacing a match by its own text is the identity, not a failure to match. */
  lemma {:induction false} IdentityPatch(c: string, spans: seq<Span>, text: string, k: nat)
    requires Ordered(spans, k, |c|)
    requires forall i | 0 <= i < |spans| :: spans[i].0 <= spans[i].1 <= |c| && c[spans[i].0..spans[i].1] == text
    ensures Splice(c, spans, text, k) == c[k..]
  {
    if spans != [] {
      assert c[spans[0].0..spans[0].1] == text;
      forall i | 0 <= i < |spans[1..]|
        ensures spans[1..][i].0 <= spans[1..][i].1 <= |c| && c[spans[1..][i].0..spans[1..][i].1] == text
      { assert spans[1..][i] == spans[i + 1]; }
      IdentityPatch(c, spans[1..], text, spans[0].1);
      assert c[k..] == c[k..spans[0].0] + c[spans[0].0..spans[0].1] + c[spans[0].1..];
    }
  }
}
