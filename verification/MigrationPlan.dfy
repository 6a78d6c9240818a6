/**
 * Reading one legacy settings document into a plan, and what the plans read that way promise
 * (packages/evolution-core/src/namespace-migration.ts, params.ts).
 */
module MigrationPlan {
  import opened Wrappers
  import opened NamespaceMigration

  datatype Setting = Setting(key: string, value: Value)

  /** A top-level section of the document; None is a section that is not a mapping. */
  datatype Section = Section(space: string, body: Option<seq<Setting>>)

  /** What the registry says: the row a legacy section moves to, current spellings, and the keys a row may be written
      with. */
  datatype Registry = Registry(rows: map<string, string>, aliases: map<string, string>, writable: map<string, set<string>>)
  {
    function Canonical(key: string): string { if key in aliases then aliases[key] else key }

    predicate Takes(row: string, key: string) { row in writable && Canonical(key) in writable[row] }
  }

  datatype Plan = Plan(entries: seq<Entry>, empty: seq<string>, skipped: seq<Skip>)

  // ----- the registry's table of renamed rows -------------------------------------------------

  /** The rows whose section carries another name, by that name: one owner's pair after the other. */
  function Renamed(owners: seq<(string, string)>): map<string, string>
  {
    if owners == [] then map[]
    else
      var (owner, space) := owners[|owners| - 1];
      var before := Renamed(owners[..|owners| - 1]);
      if space == owner then before else before[space := owner]
  }

  ghost predicate OnePerRow(rows: map<string, string>)
  {
    forall a, b | a in rows && b in rows && rows[a] == rows[b] :: a == b
  }

  lemma {:induction false} RenamedNames(owners: seq<(string, string)>, space: string)
    requires space in Renamed(owners)
    ensures (Renamed(owners)[space], space) in owners
  {
    var n := |owners| - 1;
    if owners[n].1 != space || owners[n].0 == space {
      RenamedNames(owners[..n], space);
    } else {
      assert owners[n] in owners;
    }
  }

  /** Every owner has one pair, so no two legacy sections move to one row. */
  lemma OwnersHaveOneSection(owners: seq<(string, string)>)
    requires forall i, j | 0 <= i < j < |owners| :: owners[i].0 != owners[j].0
    ensures OnePerRow(Renamed(owners))
  {
    var rows := Renamed(owners);
    forall a, b | a in rows && b in rows && rows[a] == rows[b] ensures a == b {
      RenamedNames(owners, a);
      RenamedNames(owners, b);
      var i :| 0 <= i < |owners| && owners[i] == (rows[a], a);
      var j :| 0 <= j < |owners| && owners[j] == (rows[b], b);
    }
  }

  // ----- the plan of a document --------------------------------------------------------------

  function Values(reg: Registry, row: string, body: seq<Setting>): seq<Carried>
  {
    if body == [] then []
    else
      var s := body[|body| - 1];
      Values(reg, row, body[..|body| - 1])
      + if reg.Takes(row, s.key) then [Carried(s.key, reg.Canonical(s.key), s.value)] else []
  }

  /** A family section that is a mapping. */
  predicate Readable(reg: Registry, s: Section) { s.space in reg.rows ==> s.body.Some? }

  function EntryOf(reg: Registry, s: Section): Option<Entry>
  {
    if s.space !in reg.rows || s.body.None? then None
    else
      var values := Values(reg, reg.rows[s.space], s.body.value);
      if values == [] then None else Some(Entry(s.space, reg.rows[s.space], values))
  }

  function Entries(reg: Registry, doc: seq<Section>): seq<Entry>
  {
    if doc == [] then []
    else
      var e := EntryOf(reg, doc[|doc| - 1]);
      Entries(reg, doc[..|doc| - 1]) + if e.Some? then [e.value] else []
  }

  /** A mapping names each section once. */
  ghost predicate Distinct(doc: seq<Section>)
  {
    forall i, j | 0 <= i < j < |doc| :: doc[i].space != doc[j].space
  }

  /** The document carries a writable value for the row's key. */
  ghost predicate Holds(reg: Registry, doc: seq<Section>, r: string, key: string)
  {
    exists i | 0 <= i < |doc| :: SectionHolds(reg, doc[i], r, key)
  }

  ghost predicate SectionHolds(reg: Registry, s: Section, r: string, key: string)
  {
    && s.space in reg.rows && reg.rows[s.space] == r && s.body.Some?
    && exists j | 0 <= j < |s.body.value| :: reg.Takes(r, s.body.value[j].key) && reg.Canonical(s.body.value[j].key) == key
  }

  lemma {:induction false} ValuesHold(reg: Registry, row: string, body: seq<Setting>, key: string)
    ensures (exists j | 0 <= j < |Values(reg, row, body)| :: Values(reg, row, body)[j].key == key) <==>
            exists j | 0 <= j < |body| :: reg.Takes(row, body[j].key) && reg.Canonical(body[j].key) == key
  {
    if body != [] {
      var n := |body| - 1;
      var before, all := Values(reg, row, body[..n]), Values(reg, row, body);
      ValuesHold(reg, row, body[..n], key);
      if j :| 0 <= j < |before| && before[j].key == key {
        assert all[j].key == key;
        var i :| 0 <= i < n && reg.Takes(row, body[..n][i].key) && reg.Canonical(body[..n][i].key) == key;
        assert body[i] == body[..n][i];
      }
      if reg.Takes(row, body[n].key) { assert all[|before|] == Carried(body[n].key, reg.Canonical(body[n].key), body[n].value); }
      if i :| 0 <= i < n && reg.Takes(row, body[i].key) && reg.Canonical(body[i].key) == key {
        assert body[..n][i] == body[i];
        var j :| 0 <= j < |before| && before[j].key == key;
        assert all[j].key == key;
      }
    }
  }

  lemma EntryHolds(reg: Registry, s: Section, r: string, key: string)
    ensures SectionHolds(reg, s, r, key) <==> EntryOf(reg, s).Some? && Carries(EntryOf(reg, s).value, r, key)
  {
    if s.space in reg.rows && s.body.Some? {
      ValuesHold(reg, reg.rows[s.space], s.body.value, key);
    }
  }

  /** A plan asks for exactly what the document holds. */
  lemma {:induction false} PlanAsksForTheDocument(reg: Registry, doc: seq<Section>, r: string, key: string)
    ensures Asked(Entries(reg, doc), r, key) <==> Holds(reg, doc, r, key)
  {
    if doc != [] {
      var n := |doc| - 1;
      var before, e := Entries(reg, doc[..n]), EntryOf(reg, doc[n]);
      PlanAsksForTheDocument(reg, doc[..n], r, key);
      EntryHolds(reg, doc[n], r, key);
      if e.Some? {
        assert Entries(reg, doc)[..|before|] == before;
        AskedSplits(Entries(reg, doc), r, key);
      } else {
        assert Entries(reg, doc) == before;
      }
      if i :| 0 <= i < n && SectionHolds(reg, doc[..n][i], r, key) { assert doc[i] == doc[..n][i]; }
      if i :| 0 <= i < n && SectionHolds(reg, doc[i], r, key) { assert doc[..n][i] == doc[i]; }
    }
  }

  /** No row has two entries. */
  ghost predicate OneEntryPerRow(entries: seq<Entry>)
  {
    forall i, j | 0 <= i < j < |entries| :: entries[i].rowId != entries[j].rowId
  }

  lemma {:induction false} EntriesNameSections(reg: Registry, doc: seq<Section>, i: nat) returns (k: nat)
    requires i < |Entries(reg, doc)|
    ensures k < |doc| && EntryOf(reg, doc[k]) == Some(Entries(reg, doc)[i])
  {
    var n := |doc| - 1;
    if i < |Entries(reg, doc[..n])| {
      k := EntriesNameSections(reg, doc[..n], i);
    } else {
      k := n;
    }
  }

  /** The plan of a document has one entry per row at most. */
  lemma {:induction false} PlansNameRowsOnce(reg: Registry, doc: seq<Section>)
    requires OnePerRow(reg.rows) && Distinct(doc)
    ensures OneEntryPerRow(Entries(reg, doc))
  {
    if doc != [] {
      var n := |doc| - 1;
      var before := Entries(reg, doc[..n]);
      PlansNameRowsOnce(reg, doc[..n]);
      if EntryOf(reg, doc[n]).Some? {
        forall i | 0 <= i < |before| ensures before[i].rowId != EntryOf(reg, doc[n]).value.rowId {
          var k := EntriesNameSections(reg, doc[..n], i);
        }
      }
    }
  }

  // ----- what such a plan promises -------------------------------------------------------------

  lemma {:induction false} WritesNameEntries(entries: seq<Entry>, rows: Rows, i: nat) returns (k: nat)
    requires i < |Writes(entries, rows)|
    ensures k < |entries| && entries[k].rowId == Writes(entries, rows)[i].rowId
  {
    var n := |entries| - 1;
    if i < |Writes(entries[..n], rows)| {
      k := WritesNameEntries(entries[..n], rows, i);
    } else {
      k := n;
    }
  }

  lemma {:induction false} RowsAreWrittenOnce(entries: seq<Entry>, rows: Rows)
    requires OneEntryPerRow(entries)
    ensures forall i, j | 0 <= i < j < |Writes(entries, rows)| :: Writes(entries, rows)[i].rowId != Writes(entries, rows)[j].rowId
  {
    if entries != [] {
      var n := |entries| - 1;
      RowsAreWrittenOnce(entries[..n], rows);
      forall i | 0 <= i < |Writes(entries[..n], rows)| ensures Writes(entries[..n], rows)[i].rowId != entries[n].rowId {
        var k := WritesNameEntries(entries[..n], rows, i);
      }
    }
  }

  /** A run of a document's plan that dies after any number of updates and is run again ends where one undisturbed run
      ends. */
  lemma ResumeIsOneRun(reg: Registry, doc: seq<Section>, rows: Rows, k: nat)
    requires OnePerRow(reg.rows) && Distinct(doc)
    requires k <= |Writes(Entries(reg, doc), rows)|
    ensures var plan := Entries(reg, doc); Migrate(plan, Interrupted(plan, rows, k)) == Migrate(plan, rows)
  {
    PlansNameRowsOnce(reg, doc);
    RowsAreWrittenOnce(Entries(reg, doc), rows);
    ResumeIsOneRunIff(Entries(reg, doc), rows);
  }

  /** The last setting of the section that a row takes for the key. */
  ghost predicate LastSetting(reg: Registry, s: Section, r: string, key: string, j: nat)
  {
    && s.space in reg.rows && reg.rows[s.space] == r && s.body.Some? && j < |s.body.value|
    && IsFor(reg, r, key, s.body.value[j])
    && forall m | j < m < |s.body.value| :: !IsFor(reg, r, key, s.body.value[m])
  }

  predicate IsFor(reg: Registry, r: string, key: string, s: Setting) { reg.Takes(r, s.key) && reg.Canonical(s.key) == key }

  lemma {:induction false} LastSettingExists(reg: Registry, s: Section, r: string, key: string, j: nat) returns (m: nat)
    requires s.space in reg.rows && reg.rows[s.space] == r && s.body.Some? && j < |s.body.value|
    requires IsFor(reg, r, key, s.body.value[j])
    ensures j <= m && LastSetting(reg, s, r, key, m)
    decreases if s.body.Some? then |s.body.value| - j else 0
  {
    if LastSetting(reg, s, r, key, j) {
      m := j;
    } else {
      var k :| j < k < |s.body.value| && IsFor(reg, r, key, s.body.value[k]);
      m := LastSettingExists(reg, s, r, key, k);
    }
  }

  lemma {:induction false} LastIsCarried(reg: Registry, row: string, body: seq<Setting>, key: string, j: nat) returns (m: nat)
    requires j < |body| && IsFor(reg, row, key, body[j]) && forall m | j < m < |body| :: !IsFor(reg, row, key, body[m])
    ensures LastIn(Values(reg, row, body), key, m) && Values(reg, row, body)[m].value == body[j].value
  {
    var n := |body| - 1;
    if j == n {
      m := |Values(reg, row, body[..n])|;
    } else {
      m := LastIsCarried(reg, row, body[..n], key, j);
      assert !IsFor(reg, row, key, body[n]);
    }
  }

  lemma {:induction false} SectionsAreNamed(reg: Registry, doc: seq<Section>, k: nat) returns (i: nat)
    requires k < |doc| && EntryOf(reg, doc[k]).Some?
    ensures i < |Entries(reg, doc)| && Entries(reg, doc)[i] == EntryOf(reg, doc[k]).value
  {
    var n := |doc| - 1;
    if k == n {
      i := |Entries(reg, doc[..n])|;
    } else {
      i := SectionsAreNamed(reg, doc[..n], k);
    }
  }

  /** The value that lands is that of the section's last setting for the key. */
  lemma LastSettingLands(reg: Registry, doc: seq<Section>, rows: Rows, k: nat, r: string, key: string, j: nat)
    requires OnePerRow(reg.rows) && Distinct(doc) && k < |doc| && LastSetting(reg, doc[k], r, key, j)
    requires r in rows && key !in rows[r]
    ensures var after := Migrate(Entries(reg, doc), rows);
            r in after && key in after[r] && after[r][key] == doc[k].body.value[j].value
  {
    var plan := Entries(reg, doc);
    var m := LastIsCarried(reg, r, doc[k].body.value, key, j);
    var i := SectionsAreNamed(reg, doc, k);
    PlansNameRowsOnce(reg, doc);
    assert LastCarrier(plan, r, key, i, m);
    RunLeaves(plan, rows, r, key);
  }

  /** After the run a served row sets what it set before, unchanged, and what the document held for it; a new key has the
      value of the section's last setting for it. */
  lemma DocumentIsMoved(reg: Registry, doc: seq<Section>, rows: Rows, r: string, key: string)
    requires r in rows
    ensures var after := Migrate(Entries(reg, doc), rows);
            && r in after && (key in after[r] <==> key in rows[r] || Holds(reg, doc, r, key))
            && (key in rows[r] ==> after[r][key] == rows[r][key])
            && (OnePerRow(reg.rows) && Distinct(doc) && key in after[r] && key !in rows[r] ==>
                  exists k: nat, j: nat | k < |doc| && LastSetting(reg, doc[k], r, key, j) ::
                    after[r][key] == doc[k].body.value[j].value)
  {
    RunLeaves(Entries(reg, doc), rows, r, key);
    PlanAsksForTheDocument(reg, doc, r, key);
    if OnePerRow(reg.rows) && Distinct(doc) && key !in rows[r] && Holds(reg, doc, r, key) {
      var k: nat :| k < |doc| && SectionHolds(reg, doc[k], r, key);
      var j: nat :| j < |doc[k].body.value| && reg.Takes(r, doc[k].body.value[j].key) && reg.Canonical(doc[k].body.value[j].key) == key;
      var m := LastSettingExists(reg, doc[k], r, key, j);
      LastSettingLands(reg, doc, rows, k, r, key, m);
    }
  }

  /** A setting the document holds for an unset key of a served row lands with its value if and only if no later setting
      of its section spells the same key last with another value; otherwise its value is lost. */
  lemma SettingLandsIff(reg: Registry, doc: seq<Section>, rows: Rows, k: nat, r: string, key: string, j: nat)
    requires OnePerRow(reg.rows) && Distinct(doc) && k < |doc| && r in rows && key !in rows[r]
    requires doc[k].space in reg.rows && reg.rows[doc[k].space] == r && doc[k].body.Some? && j < |doc[k].body.value|
    requires IsFor(reg, r, key, doc[k].body.value[j])
    ensures var after, body := Migrate(Entries(reg, doc), rows), doc[k].body.value;
            && r in after && key in after[r]
            && (after[r][key] == body[j].value <==>
                forall m | j < m < |body| && LastSetting(reg, doc[k], r, key, m) :: body[m].value == body[j].value)
  {
    var m := LastSettingExists(reg, doc[k], r, key, j);
    LastSettingLands(reg, doc, rows, k, r, key, m);
  }

  /** A key under its old name alone is moved to its current name. */
  lemma OldSpellingIsMoved(old_: string, current: string, value: Value)
    requires old_ != current
    ensures var reg := Registry(map["space" := "row"], map[old_ := current], map["row" := {current}]);
            var doc := [Section("space", Some([Setting(old_, value)]))];
            var after := Migrate(Entries(reg, doc), map["row" := map[]]);
            "row" in after && current in after["row"] && after["row"][current] == value && old_ !in after["row"]
  {
    var reg := Registry(map["space" := "row"], map[old_ := current], map["row" := {current}]);
    var doc := [Section("space", Some([Setting(old_, value)]))];
    assert LastSetting(reg, doc[0], "row", current, 0);
    LastSettingLands(reg, doc, map["row" := map[]], 0, "row", current, 0);
    DocumentIsMoved(reg, doc, map["row" := map[]], "row", old_);
  }

  /** Such a document: a key under its old and its current name, with two values; the first is lost. */
  lemma OldSpellingIsLost(old_: string, current: string, one: Value, two: Value)
    requires old_ != current && one != two
    ensures var reg := Registry(map["space" := "row"], map[old_ := current], map["row" := {current}]);
            var doc := [Section("space", Some([Setting(old_, one), Setting(current, two)]))];
            var after := Migrate(Entries(reg, doc), map["row" := map[]]);
            "row" in after && current in after["row"] && after["row"][current] == two
  {
    var reg := Registry(map["space" := "row"], map[old_ := current], map["row" := {current}]);
    var body := [Setting(old_, one), Setting(current, two)];
    var doc := [Section("space", Some(body))];
    assert IsFor(reg, "row", current, body[1]);
    assert LastSetting(reg, doc[0], "row", current, 1);
    LastSettingLands(reg, doc, map["row" := map[]], 0, "row", current, 1);
  }

  /** Only a plan made by hand can end elsewhere: two entries for one row with different values for one key. */
  lemma HandMadePlanDiverges()
    ensures var plan := [Entry("a", "row", [Carried("k", "k", "1")]), Entry("b", "row", [Carried("k", "k", "2")])];
            var rows: Rows := map["row" := map[]];
            && |Writes(plan, rows)| == 2
            && Migrate(plan, Interrupted(plan, rows, 1)) != Migrate(plan, rows)
  {
    var a, b := Entry("a", "row", [Carried("k", "k", "1")]), Entry("b", "row", [Carried("k", "k", "2")]);
    var rows: Rows := map["row" := map[]];
    var one: Layer, two: Layer := map["k" := "1"], map["k" := "2"];
    var writes := [Write("row", one), Write("row", two)];
    assert Patch(map[], a.values) == one && Patch(map[], b.values) == two;
    assert [a, b][..1] == [a] && Writes([a], rows) == [Write("row", one)];
    assert Writes([a, b], rows) == writes;
    assert writes[..1] == [Write("row", one)];
    assert Merged(writes[..1], "row")["k"] == "1";
    MergedPush(writes[..1], writes[1], "row");
    assert writes == writes[..1] + [writes[1]];
    assert Merged(writes, "row")["k"] == "2";
    ResumedRow([a, b], rows, 1, "row");
  }

  // ----- the loops -----------------------------------------------------------------------------

  /** Every setting of a family section is carried or named as skipped. */
  ghost predicate Told(reg: Registry, s: Section, skipped: seq<Skip>)
  {
    s.space in reg.rows && s.body.Some? ==>
      forall j | 0 <= j < |s.body.value| :: !reg.Takes(reg.rows[s.space], s.body.value[j].key) ==>
        Skip(s.space, s.body.value[j].key) in skipped
  }

  /** Nothing else is. */
  ghost predicate Warranted(reg: Registry, doc: seq<Section>, skip: Skip)
  {
    exists i, j | 0 <= i < |doc| && doc[i].space in reg.rows && doc[i].body.Some? && 0 <= j < |doc[i].body.value| ::
      skip == Skip(doc[i].space, doc[i].body.value[j].key) && !reg.Takes(reg.rows[doc[i].space], doc[i].body.value[j].key)
  }

  /** A family section without a value any row takes. */
  ghost predicate NothingIn(reg: Registry, s: Section) { s.space in reg.rows && EntryOf(reg, s).None? }

  ghost predicate HasNothing(reg: Registry, doc: seq<Section>, space: string, k: nat)
    requires k <= |doc|
  {
    exists i | 0 <= i < k :: doc[i].space == space && NothingIn(reg, doc[i])
  }

  /** Refuses a document with a family section that is not a mapping; otherwise plans it and names what it skips. */
  method PlanNamespaceMigration(reg: Registry, doc: seq<Section>) returns (r: Result<Plan, string>)
    ensures r.Ok? <==> forall k | 0 <= k < |doc| :: Readable(reg, doc[k])
    ensures r.Ok? ==>
              && r.value.entries == Entries(reg, doc)
              && (forall k | 0 <= k < |doc| :: Told(reg, doc[k], r.value.skipped))
              && (forall skip | skip in r.value.skipped :: Warranted(reg, doc, skip))
              && (forall space | space in r.value.empty :: HasNothing(reg, doc, space, |doc|))
              && (forall k | 0 <= k < |doc| && NothingIn(reg, doc[k]) :: doc[k].space in r.value.empty)
  {
    var plan := Plan([], [], []);
    for k := 0 to |doc|
      invariant forall i | 0 <= i < k :: Readable(reg, doc[i])
      invariant plan.entries == Entries(reg, doc[..k])
      invariant forall i | 0 <= i < k :: Told(reg, doc[i], plan.skipped)
      invariant forall skip | skip in plan.skipped :: Warranted(reg, doc, skip)
      invariant forall space | space in plan.empty :: HasNothing(reg, doc, space, k)
      invariant forall i | 0 <= i < k && NothingIn(reg, doc[i]) :: doc[i].space in plan.empty
    {
      var s := doc[k];
      assert doc[..k + 1][..k] == doc[..k];
      if s.space !in reg.rows {
        continue;
      }
      if s.body.None? {
        return Err(s.space);
      }
      var values, skipped := ReadSection(reg, doc, k);
      plan := plan.(skipped := plan.skipped + skipped);
      if values == [] {
        plan := plan.(empty := plan.empty + [s.space]);
      } else {
        plan := plan.(entries := plan.entries + [Entry(s.space, reg.rows[s.space], values)]);
      }
    }
    assert doc[..|doc|] == doc;
    return Ok(plan);
  }

  method ReadSection(reg: Registry, doc: seq<Section>, k: nat) returns (values: seq<Carried>, skipped: seq<Skip>)
    requires k < |doc| && doc[k].space in reg.rows && doc[k].body.Some?
    ensures values == Values(reg, reg.rows[doc[k].space], doc[k].body.value)
    ensures Told(reg, doc[k], skipped) && forall skip | skip in skipped :: Warranted(reg, doc, skip)
  {
    var row, body := reg.rows[doc[k].space], doc[k].body.value;
    values, skipped := [], [];
    for j := 0 to |body|
      invariant values == Values(reg, row, body[..j])
      invariant forall i | 0 <= i < j :: !reg.Takes(row, body[i].key) ==> Skip(doc[k].space, body[i].key) in skipped
      invariant forall skip | skip in skipped :: Warranted(reg, doc, skip)
    {
      assert body[..j + 1][..j] == body[..j];
      if !reg.Takes(row, body[j].key) {
        skipped := skipped + [Skip(doc[k].space, body[j].key)];
      } else {
        values := values + [Carried(body[j].key, reg.Canonical(body[j].key), body[j].value)];
      }
    }
    assert body[..|body|] == body;
  }
}
