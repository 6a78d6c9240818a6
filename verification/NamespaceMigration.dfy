/**
 * The one-time move of legacy settings sections into their rows: the decision, the run, the read-only report of
 * the same decision (packages/evolution-core/src/namespace-migration.ts, evolution-commands/src/migration.ts).
 */
module NamespaceMigration {
  import opened Wrappers

  /** Values are compared by their serialization; equal here means serialized alike. */
  type Value = string

  datatype Carried = Carried(source: string, key: string, value: Value)

  datatype Entry = Entry(space: string, rowId: string, values: seq<Carried>)

  type Layer = map<string, Value>

  /** The rows the platform serves, each with its user layer. */
  type Rows = map<string, Layer>

  datatype Write = Write(rowId: string, patch: Layer)
  datatype Conflict = Conflict(rowId: string, key: string, current: Value, legacy: Value)
  datatype Skip = Skip(space: string, key: string)

  datatype Decision = Decision(write: seq<Write>, conflicts: seq<Conflict>, same: seq<(string, string)>, skipped: seq<Skip>)

  /** Where one carried value ends up. */
  datatype Fate = Written | Overwritten | Kept | Overruled | Refused

  // ----- the decision -----------------------------------------------------------------

  /** The keys an entry would add to a row's user layer; a key carried twice keeps the later value. */
  function Patch(user: Layer, values: seq<Carried>): Layer
  {
    if values == [] then map[]
    else
      var v := values[|values| - 1];
      var patch := Patch(user, values[..|values| - 1]);
      if v.key in user then patch else patch[v.key := v.value]
  }

  /** The writes of a plan against the rows, in plan order. */
  function Writes(entries: seq<Entry>, rows: Rows): seq<Write>
  {
    if entries == [] then []
    else
      var e := entries[|entries| - 1];
      Writes(entries[..|entries| - 1], rows)
      + if e.rowId !in rows || Patch(rows[e.rowId], e.values) == map[] then []
        else [Write(e.rowId, Patch(rows[e.rowId], e.values))]
  }

  /** The platform's merge. */
  function Update(rows: Rows, w: Write): Rows
  {
    if w.rowId in rows then rows[w.rowId := rows[w.rowId] + w.patch] else rows
  }

  function Apply(rows: Rows, writes: seq<Write>): Rows
  {
    if writes == [] then rows else Update(Apply(rows, writes[..|writes| - 1]), writes[|writes| - 1])
  }

  /** A whole run. */
  function Migrate(entries: seq<Entry>, rows: Rows): Rows { Apply(rows, Writes(entries, rows)) }

  /** A run that dies after its first `k` updates. */
  function Interrupted(entries: seq<Entry>, rows: Rows, k: nat): Rows
    requires k <= |Writes(entries, rows)|
  {
    Apply(rows, Writes(entries, rows)[..k])
  }

  // ----- what a patch holds ---------------------------------------------------------------

  lemma {:induction false} PatchHas(user: Layer, values: seq<Carried>, key: string)
    ensures key in Patch(user, values) <==> key !in user && exists i | 0 <= i < |values| :: values[i].key == key
  {
    if values != [] {
      var n := |values| - 1;
      PatchHas(user, values[..n], key);
      assert forall i | 0 <= i < n :: values[..n][i] == values[i];
    }
  }

  /** The last value the entry carries for the key. */
  predicate LastIn(values: seq<Carried>, key: string, j: nat)
  {
    j < |values| && values[j].key == key && forall m | j < m < |values| :: values[m].key != key
  }

  lemma {:induction false} LastExists(values: seq<Carried>, key: string, j: nat) returns (m: nat)
    requires j < |values| && values[j].key == key
    ensures j <= m && LastIn(values, key, m)
    decreases |values| - j
  {
    if LastIn(values, key, j) {
      m := j;
    } else {
      var k :| j < k < |values| && values[k].key == key;
      m := LastExists(values, key, k);
    }
  }

  lemma {:induction false} PatchValue(user: Layer, values: seq<Carried>, key: string, j: nat)
    requires key !in user && LastIn(values, key, j)
    ensures key in Patch(user, values) && Patch(user, values)[key] == values[j].value
  {
    var n := |values| - 1;
    if j < n {
      assert values[n].key != key;
      PatchValue(user, values[..n], key, j);
    }
  }

  /** A patch against a layer that grew is the old patch without what the layer gained. */
  lemma {:induction false} PatchShrinks(user: Layer, more: Layer, values: seq<Carried>)
    requires user.Keys <= more.Keys
    ensures Patch(more, values) == Patch(user, values) - more.Keys
  {
    if values != [] {
      PatchShrinks(user, more, values[..|values| - 1]);
    }
  }

  // ----- what a run does to one row -----------------------------------------------------------

  /** What the writes to a row add up to: later writes win. */
  function Merged(writes: seq<Write>, rowId: string): Layer
  {
    if writes == [] then map[]
    else
      var w := writes[|writes| - 1];
      Merged(writes[..|writes| - 1], rowId) + if w.rowId == rowId then w.patch else map[]
  }

  lemma {:induction false} ApplyIsMerged(rows: Rows, writes: seq<Write>, r: string)
    ensures r in Apply(rows, writes) <==> r in rows
    ensures r in rows ==> Apply(rows, writes)[r] == rows[r] + Merged(writes, r)
  {
    if writes != [] {
      var w, before := writes[|writes| - 1], writes[..|writes| - 1];
      ApplyIsMerged(rows, before, r);
      if r in rows {
        PlusPlus(rows[r], Merged(before, r), if w.rowId == r then w.patch else map[]);
      }
    }
  }

  lemma PlusPlus(a: Layer, b: Layer, c: Layer)
    ensures (a + b) + c == a + (b + c)
    ensures c == map[] ==> a + b + c == a + b
  {
  }

  lemma MergedPush(writes: seq<Write>, w: Write, r: string)
    ensures Merged(writes + [w], r) == Merged(writes, r) + if w.rowId == r then w.patch else map[]
  {
    assert (writes + [w])[..|writes|] == writes;
  }

  /** Writes only bring keys the row did not have. */
  ghost predicate Fresh(rows: Rows, writes: seq<Write>)
  {
    forall i | 0 <= i < |writes| ::
      writes[i].rowId in rows && writes[i].patch.Keys !! rows[writes[i].rowId].Keys && writes[i].patch != map[]
  }

  lemma {:induction false} WritesAreFresh(entries: seq<Entry>, rows: Rows)
    ensures Fresh(rows, Writes(entries, rows))
  {
    if entries != [] {
      WritesAreFresh(entries[..|entries| - 1], rows);
      var e := entries[|entries| - 1];
      if e.rowId in rows {
        forall key | key in Patch(rows[e.rowId], e.values) ensures key !in rows[e.rowId] {
          PatchHas(rows[e.rowId], e.values, key);
        }
      }
    }
  }

  lemma {:induction false} MergedIsFresh(rows: Rows, writes: seq<Write>, r: string)
    requires Fresh(rows, writes) && r in rows
    ensures Merged(writes, r).Keys !! rows[r].Keys
  {
    if writes != [] {
      MergedIsFresh(rows, writes[..|writes| - 1], r);
    }
  }

  /** A key a row already sets is never changed, whether the run ends or dies on the way. */
  lemma StoredValuesWin(entries: seq<Entry>, rows: Rows, k: nat, r: string, key: string)
    requires k <= |Writes(entries, rows)| && r in rows && key in rows[r]
    ensures var after := Interrupted(entries, rows, k);
            r in after && key in after[r] && after[r][key] == rows[r][key]
  {
    var writes := Writes(entries, rows)[..k];
    WritesAreFresh(entries, rows);
    ApplyIsMerged(rows, writes, r);
    MergedIsFresh(rows, writes, r);
  }

  // ----- the keys a run leaves behind ------------------------------------------------------------

  /** Some entry of the plan carries the key for the row. */
  predicate Asked(entries: seq<Entry>, r: string, key: string)
  {
    exists i | 0 <= i < |entries| :: Carries(entries[i], r, key)
  }

  predicate Carries(e: Entry, r: string, key: string)
  {
    e.rowId == r && exists j | 0 <= j < |e.values| :: e.values[j].key == key
  }

  lemma AskedSplits(entries: seq<Entry>, r: string, key: string)
    requires entries != []
    ensures var n := |entries| - 1;
            Asked(entries, r, key) <==> Asked(entries[..n], r, key) || Carries(entries[n], r, key)
  {
    var n := |entries| - 1;
    if Asked(entries[..n], r, key) {
      var i :| 0 <= i < n && Carries(entries[..n][i], r, key);
      assert Carries(entries[i], r, key);
    }
    if Asked(entries, r, key) {
      var i :| 0 <= i < |entries| && Carries(entries[i], r, key);
      assert i < n ==> Carries(entries[..n][i], r, key);
    }
  }

  lemma {:induction false} MergedHas(entries: seq<Entry>, rows: Rows, r: string, key: string)
    requires r in rows
    ensures key in Merged(Writes(entries, rows), r) <==> key !in rows[r] && Asked(entries, r, key)
  {
    if entries != [] {
      var n := |entries| - 1;
      var e, w := entries[n], Writes(entries[..n], rows);
      MergedHas(entries[..n], rows, r, key);
      AskedSplits(entries, r, key);
      if e.rowId in rows {
        var patch := Patch(rows[e.rowId], e.values);
        PatchHas(rows[e.rowId], e.values, key);
        assert e.rowId == r ==> (key in patch <==> key !in rows[r] && Carries(e, r, key));
        MergedPush(w, Write(e.rowId, patch), r);
        assert Writes(entries, rows) == if patch == map[] then w else w + [Write(e.rowId, patch)];
      } else {
        assert Writes(entries, rows) == w;
      }
    }
  }

  /** The last value the plan carries for the row's key: in its last entry that carries one. */
  ghost predicate LastCarrier(entries: seq<Entry>, r: string, key: string, i: nat, j: nat)
  {
    && i < |entries| && entries[i].rowId == r && LastIn(entries[i].values, key, j)
    && forall m | i < m < |entries| :: !Carries(entries[m], r, key)
  }

  lemma {:induction false} LastCarrierExists(entries: seq<Entry>, r: string, key: string) returns (i: nat, j: nat)
    requires Asked(entries, r, key)
    ensures LastCarrier(entries, r, key, i, j)
  {
    var n := |entries| - 1;
    AskedSplits(entries, r, key);
    if Carries(entries[n], r, key) {
      var k :| 0 <= k < |entries[n].values| && entries[n].values[k].key == key;
      i := n;
      j := LastExists(entries[n].values, key, k);
    } else {
      i, j := LastCarrierExists(entries[..n], r, key);
    }
  }

  lemma {:induction false} MergedValue(entries: seq<Entry>, rows: Rows, r: string, key: string, i: nat, j: nat)
    requires r in rows && key !in rows[r] && LastCarrier(entries, r, key, i, j)
    ensures key in Merged(Writes(entries, rows), r) && Merged(Writes(entries, rows), r)[key] == entries[i].values[j].value
  {
    var n := |entries| - 1;
    LastMerges(entries, rows, r);
    if i == n {
      PatchValue(rows[r], entries[n].values, key, j);
    } else {
      assert !Carries(entries[n], r, key);
      PatchHas(rows[r], entries[n].values, key);
      MergedValue(entries[..n], rows, r, key, i, j);
    }
  }

  /** After a run a served row sets exactly what it set before, unchanged, and what the plan asked for; a new key has the
      last value the plan carries for it. */
  lemma RunLeaves(entries: seq<Entry>, rows: Rows, r: string, key: string)
    requires r in rows
    ensures r in Migrate(entries, rows)
    ensures key in Migrate(entries, rows)[r] <==> key in rows[r] || Asked(entries, r, key)
    ensures key in rows[r] ==> Migrate(entries, rows)[r][key] == rows[r][key]
    ensures key !in rows[r] ==> forall i: nat, j: nat | LastCarrier(entries, r, key, i, j) ::
              key in Migrate(entries, rows)[r] && Migrate(entries, rows)[r][key] == entries[i].values[j].value
  {
    ApplyIsMerged(rows, Writes(entries, rows), r);
    MergedHas(entries, rows, r, key);
    if key !in rows[r] {
      forall i: nat, j: nat | LastCarrier(entries, r, key, i, j)
        ensures key in Merged(Writes(entries, rows), r) && Merged(Writes(entries, rows), r)[key] == entries[i].values[j].value
      {
        MergedValue(entries, rows, r, key, i, j);
      }
    }
  }

  lemma {:induction false} NothingToWrite(entries: seq<Entry>, rows: Rows)
    requires forall r, key | r in rows && Asked(entries, r, key) :: key in rows[r]
    ensures Writes(entries, rows) == []
  {
    if entries != [] {
      var n := |entries| - 1;
      forall r, key | r in rows && Asked(entries[..n], r, key) ensures key in rows[r] {
        AskedSplits(entries, r, key);
      }
      NothingToWrite(entries[..n], rows);
      var e := entries[n];
      if e.rowId in rows {
        forall key ensures key !in Patch(rows[e.rowId], e.values) {
          PatchHas(rows[e.rowId], e.values, key);
          AskedSplits(entries, e.rowId, key);
        }
        assert Patch(rows[e.rowId], e.values) == map[];
      }
    }
  }

  /** A second run writes nothing. */
  lemma SecondRunWritesNothing(entries: seq<Entry>, rows: Rows)
    ensures Writes(entries, Migrate(entries, rows)) == []
    ensures Migrate(entries, Migrate(entries, rows)) == Migrate(entries, rows)
  {
    var after := Migrate(entries, rows);
    forall r, key | r in after && Asked(entries, r, key) ensures key in after[r] {
      ApplyIsMerged(rows, Writes(entries, rows), r);
      RunLeaves(entries, rows, r, key);
    }
    NothingToWrite(entries, after);
  }

  // ----- resuming after a crash ---------------------------------------------------------------

  /** Against rows that grew, the writes of a plan merge to what they merged to before, without what was gained. */
  lemma {:induction false} MergedShrinks(entries: seq<Entry>, rows: Rows, more: Rows, r: string)
    requires r in rows && r in more && rows[r].Keys <= more[r].Keys
    ensures Merged(Writes(entries, more), r) == Merged(Writes(entries, rows), r) - more[r].Keys
  {
    if entries != [] {
      var n := |entries| - 1;
      var before, keys := entries[..n], more[r].Keys;
      MergedShrinks(before, rows, more, r);
      LastMerges(entries, rows, r);
      LastMerges(entries, more, r);
      var old_, new_ := Merged(Writes(before, rows), r), Merged(Writes(before, more), r);
      if entries[n].rowId == r {
        PatchShrinks(rows[r], more[r], entries[n].values);
        ShrinkStep(old_, new_, Patch(rows[r], entries[n].values), Patch(more[r], entries[n].values), keys);
      } else {
        PlusNothing(old_);
        PlusNothing(new_);
      }
    }
  }

  lemma ShrinkStep(a: Layer, a': Layer, b: Layer, b': Layer, keys: set<string>)
    requires a' == a - keys && b' == b - keys
    ensures a' + b' == (a + b) - keys
  {
  }

  /** How the last entry extends the writes. */
  lemma LastWrites(entries: seq<Entry>, rows: Rows)
    requires entries != []
    ensures var e, w := entries[|entries| - 1], Writes(entries[..|entries| - 1], rows);
            Writes(entries, rows) == if e.rowId !in rows || Patch(rows[e.rowId], e.values) == map[] then w
                                     else w + [Write(e.rowId, Patch(rows[e.rowId], e.values))]
  {
    assert Writes(entries[..|entries| - 1], rows) + [] == Writes(entries[..|entries| - 1], rows);
  }

  lemma LastMerges(entries: seq<Entry>, rows: Rows, r: string)
    requires entries != [] && r in rows
    ensures var n := |entries| - 1;
            Merged(Writes(entries, rows), r) ==
            Merged(Writes(entries[..n], rows), r) + if entries[n].rowId == r then Patch(rows[r], entries[n].values) else map[]
  {
    var e, w := entries[|entries| - 1], Writes(entries[..|entries| - 1], rows);
    LastWrites(entries, rows);
    PlusNothing(Merged(w, r));
    if e.rowId in rows {
      MergedPush(w, Write(e.rowId, Patch(rows[e.rowId], e.values)), r);
    }
  }

  lemma PlusNothing(a: Layer)
    ensures a + map[] == a
  {
  }

  /** Two writes to one row bring the same value for every key they share. */
  ghost predicate Agree(writes: seq<Write>)
  {
    forall i, j, key | 0 <= i < j < |writes| && writes[i].rowId == writes[j].rowId ::
      key in writes[i].patch && key in writes[j].patch ==> writes[i].patch[key] == writes[j].patch[key]
  }

  /** The first `k` writes leave for the row what all of them leave, as far as they go. */
  ghost predicate PrefixStands(writes: seq<Write>, k: nat, r: string)
    requires k <= |writes|
  {
    forall key | key in Merged(writes[..k], r) ::
      key in Merged(writes, r) && Merged(writes[..k], r)[key] == Merged(writes, r)[key]
  }

  /** A crash after `k` updates followed by a full run, for one row. */
  lemma ResumedRow(entries: seq<Entry>, rows: Rows, k: nat, r: string)
    requires k <= |Writes(entries, rows)| && r in rows
    ensures var resumed, single := Migrate(entries, Interrupted(entries, rows, k)), Migrate(entries, rows);
            && r in resumed && r in single
            && (resumed[r] == single[r] <==> PrefixStands(Writes(entries, rows), k, r))
  {
    var writes, mid := Writes(entries, rows), Interrupted(entries, rows, k);
    ApplyIsMerged(rows, writes[..k], r);
    ApplyIsMerged(rows, writes, r);
    ApplyIsMerged(mid, Writes(entries, mid), r);
    MergedShrinks(entries, rows, mid, r);
    WritesAreFresh(entries, rows);
    MergedIsFresh(rows, writes, r);
    MergedIsFresh(rows, writes[..k], r);
    PrefixKeys(writes, k, r);
    LayersMeet(rows[r], Merged(writes[..k], r), Merged(writes, r));
  }

  lemma LayersMeet(a: Layer, p: Layer, f: Layer)
    requires p.Keys <= f.Keys && a.Keys !! f.Keys
    ensures (a + p) + (f - (a + p).Keys) == a + f <==> forall key | key in p :: p[key] == f[key]
  {
    var left, right := (a + p) + (f - (a + p).Keys), a + f;
    assert left.Keys == right.Keys;
    forall key | key in p ensures key in left && left[key] == p[key] && right[key] == f[key] {
    }
    forall key | key in left && key !in p ensures left[key] == right[key] {
    }
  }

  lemma {:induction false} PrefixKeys(writes: seq<Write>, k: nat, r: string)
    requires k <= |writes|
    ensures Merged(writes[..k], r).Keys <= Merged(writes, r).Keys
  {
    if k == |writes| {
      assert writes[..k] == writes;
    } else {
      var n := |writes| - 1;
      PrefixKeys(writes[..n], k, r);
      assert writes[..n][..k] == writes[..k];
    }
  }

  /** While the writes agree, whichever of them brings a key brings the value it ends with. */
  lemma {:induction false} AgreedValue(writes: seq<Write>, i: nat, r: string, key: string)
    requires Agree(writes) && i < |writes| && writes[i].rowId == r && key in writes[i].patch
    ensures key in Merged(writes, r) && Merged(writes, r)[key] == writes[i].patch[key]
  {
    var n := |writes| - 1;
    if i < n {
      assert Agree(writes[..n]);
      AgreedValue(writes[..n], i, r, key);
    }
  }

  lemma {:induction false} MergedFrom(writes: seq<Write>, r: string, key: string) returns (i: nat)
    requires key in Merged(writes, r)
    ensures i < |writes| && writes[i].rowId == r && key in writes[i].patch && Merged(writes, r)[key] == writes[i].patch[key]
  {
    var n := |writes| - 1;
    if writes[n].rowId == r && key in writes[n].patch {
      i := n;
    } else {
      i := MergedFrom(writes[..n], r, key);
    }
  }

  lemma AgreedPrefix(writes: seq<Write>, k: nat, r: string)
    requires Agree(writes) && k <= |writes|
    ensures PrefixStands(writes, k, r)
  {
    PrefixKeys(writes, k, r);
    forall key | key in Merged(writes[..k], r) ensures Merged(writes[..k], r)[key] == Merged(writes, r)[key] {
      var i := MergedFrom(writes[..k], r, key);
      AgreedValue(writes, i, r, key);
    }
  }

  lemma StandingAgrees(writes: seq<Write>, i: nat, j: nat, key: string)
    requires i < j < |writes| && writes[i].rowId == writes[j].rowId && key in writes[i].patch && key in writes[j].patch
    requires forall k: nat | k <= |writes| :: PrefixStands(writes, k, writes[i].rowId)
    ensures writes[i].patch[key] == writes[j].patch[key]
  {
    var r := writes[i].rowId;
    assert writes[..i + 1][..i] == writes[..i] && writes[..j + 1][..j] == writes[..j];
    assert PrefixStands(writes, i + 1, r) && PrefixStands(writes, j + 1, r);
    assert key in Merged(writes[..i + 1], r) && key in Merged(writes[..j + 1], r);
  }

  /** Dying after any number of updates and running again ends where one undisturbed run ends, exactly when no two
      writes of the plan bring different values for the same key of the same row. */
  lemma ResumeIsOneRunIff(entries: seq<Entry>, rows: Rows)
    ensures (forall k: nat | k <= |Writes(entries, rows)| ::
               Migrate(entries, Interrupted(entries, rows, k)) == Migrate(entries, rows)) <==> Agree(Writes(entries, rows))
  {
    var writes := Writes(entries, rows);
    if Agree(writes) {
      forall k: nat | k <= |writes| ensures Migrate(entries, Interrupted(entries, rows, k)) == Migrate(entries, rows) {
        SameRows(entries, rows, k);
        forall r | r in rows ensures Migrate(entries, Interrupted(entries, rows, k))[r] == Migrate(entries, rows)[r] {
          ResumedRow(entries, rows, k, r);
          AgreedPrefix(writes, k, r);
        }
      }
    }
    if forall k: nat | k <= |writes| :: Migrate(entries, Interrupted(entries, rows, k)) == Migrate(entries, rows) {
      WritesAreFresh(entries, rows);
      forall i, j, key | 0 <= i < j < |writes| && writes[i].rowId == writes[j].rowId && key in writes[i].patch
                         && key in writes[j].patch
        ensures writes[i].patch[key] == writes[j].patch[key]
      {
        forall k: nat | k <= |writes| ensures PrefixStands(writes, k, writes[i].rowId) {
          ResumedRow(entries, rows, k, writes[i].rowId);
        }
        StandingAgrees(writes, i, j, key);
      }
    }
  }

  lemma SameRows(entries: seq<Entry>, rows: Rows, k: nat)
    requires k <= |Writes(entries, rows)|
    ensures Migrate(entries, Interrupted(entries, rows, k)).Keys == rows.Keys == Migrate(entries, rows).Keys
  {
    var mid := Interrupted(entries, rows, k);
    forall r ensures r in Migrate(entries, mid) <==> r in rows {
      ApplyIsMerged(rows, Writes(entries, rows)[..k], r);
      ApplyIsMerged(mid, Writes(entries, mid), r);
    }
    forall r ensures r in Migrate(entries, rows) <==> r in rows {
      ApplyIsMerged(rows, Writes(entries, rows), r);
    }
  }

  // ----- the read-only report ----------------------------------------------------------------------

  /** The row keys the report calls pending. */
  function Pending(writes: seq<Write>): set<(string, string)>
  {
    set i, key | 0 <= i < |writes| && key in writes[i].patch :: (writes[i].rowId, key)
  }

  lemma {:induction false} PendingIsMerged(writes: seq<Write>, r: string, key: string)
    ensures (r, key) in Pending(writes) <==> key in Merged(writes, r)
  {
    if writes != [] {
      var n := |writes| - 1;
      PendingIsMerged(writes[..n], r, key);
      assert (r, key) in Pending(writes) <==> (r, key) in Pending(writes[..n]) || (writes[n].rowId == r && key in writes[n].patch) by {
        if i :| 0 <= i < n && writes[i].rowId == r && key in writes[i].patch {
          assert writes[..n][i] == writes[i];
        }
        if i :| 0 <= i < n && writes[..n][i].rowId == r && key in writes[..n][i].patch {
          assert writes[..n][i] == writes[i];
        }
      }
    }
  }

  /** The report and the run agree: pending is exactly what the next run adds. */
  lemma PendingIsWhatARunAdds(entries: seq<Entry>, rows: Rows, r: string, key: string)
    ensures (r, key) in Pending(Writes(entries, rows)) ==> r in rows
    ensures r in rows ==>
              ((r, key) in Pending(Writes(entries, rows)) <==>
               key !in rows[r] && r in Migrate(entries, rows) && key in Migrate(entries, rows)[r])
  {
    var writes := Writes(entries, rows);
    WritesAreFresh(entries, rows);
    if r in rows {
      PendingIsMerged(writes, r, key);
      MergedHas(entries, rows, r, key);
      RunLeaves(entries, rows, r, key);
    }
  }

  // ----- the decision as the source takes it ---------------------------------------------------------

  /** What becomes of the entry's `j`-th value: one with a later spelling of its key in the entry gives way to that. */
  function FateOf(rows: Rows, e: Entry, j: nat): Fate
    requires j < |e.values|
  {
    var v := e.values[j];
    if e.rowId !in rows then Refused
    else if v.key !in rows[e.rowId] then if LastIn(e.values, v.key, j) then Written else Overwritten
    else if rows[e.rowId][v.key] == v.value then Kept
    else Overruled
  }

  /** Some write brings the value. */
  ghost predicate Brings(writes: seq<Write>, r: string, key: string, value: Value)
  {
    exists w | w in writes :: w.rowId == r && key in w.patch && w.patch[key] == value
  }

  /** Each value is reported under its fate; an overwritten one only by its key, among the written. */
  ghost predicate Accounts(d: Decision, rows: Rows, e: Entry, j: nat)
    requires j < |e.values|
  {
    var v := e.values[j];
    match FateOf(rows, e, j)
    case Refused => Skip(e.space, v.source) in d.skipped
    case Written => Brings(d.write, e.rowId, v.key, v.value)
    case Overwritten =>
      exists m | j < m < |e.values| ::
        LastIn(e.values, v.key, m) && Brings(d.write, e.rowId, v.key, e.values[m].value)
    case Kept => (e.rowId, v.key) in d.same
    case Overruled => Conflict(e.rowId, v.key, rows[e.rowId][v.key], v.value) in d.conflicts
  }

  /** The lists only grow while one entry is classified. */
  ghost predicate Extends(d: Decision, d': Decision)
  {
    d.write <= d'.write && d.conflicts <= d'.conflicts && d.same <= d'.same && d.skipped <= d'.skipped
  }

  lemma StillBrings(a: seq<Write>, b: seq<Write>, r: string, key: string, value: Value)
    requires Brings(a, r, key, value) && a <= b
    ensures Brings(b, r, key, value)
  {
    var w :| w in a && w.rowId == r && key in w.patch && w.patch[key] == value;
    assert w in b;
  }

  lemma StillAccounts(d: Decision, d': Decision, rows: Rows, e: Entry, j: nat)
    requires j < |e.values| && Accounts(d, rows, e, j) && Extends(d, d')
    ensures Accounts(d', rows, e, j)
  {
    var v := e.values[j];
    match FateOf(rows, e, j) {
      case Refused => assert Skip(e.space, v.source) in d'.skipped;
      case Written => StillBrings(d.write, d'.write, e.rowId, v.key, v.value);
      case Overwritten =>
        var m :| j < m < |e.values| && LastIn(e.values, v.key, m) && Brings(d.write, e.rowId, v.key, e.values[m].value);
        StillBrings(d.write, d'.write, e.rowId, v.key, e.values[m].value);
      case Kept => assert (e.rowId, v.key) in d'.same;
      case Overruled => assert Conflict(e.rowId, v.key, rows[e.rowId][v.key], v.value) in d'.conflicts;
    }
  }

  /** The values whose keys the row does not set are accounted for by the one write of the entry's patch. */
  lemma PatchAccounts(d: Decision, rows: Rows, e: Entry, j: nat)
    requires j < |e.values| && e.rowId in rows && e.values[j].key !in rows[e.rowId]
    requires Write(e.rowId, Patch(rows[e.rowId], e.values)) in d.write
    ensures Accounts(d, rows, e, j)
  {
    var key, patch := e.values[j].key, Patch(rows[e.rowId], e.values);
    var m := LastExists(e.values, key, j);
    PatchValue(rows[e.rowId], e.values, key, m);
    assert Brings(d.write, e.rowId, key, e.values[m].value) by {
      assert Write(e.rowId, patch).rowId == e.rowId && key in patch;
    }
  }

  ghost predicate AllAccounted(d: Decision, rows: Rows, e: Entry)
  {
    forall j | 0 <= j < |e.values| :: Accounts(d, rows, e, j)
  }

  lemma StillAllAccounted(d: Decision, d': Decision, rows: Rows, e: Entry)
    requires AllAccounted(d, rows, e) && Extends(d, d')
    ensures AllAccounted(d', rows, e)
  {
    forall j | 0 <= j < |e.values| ensures Accounts(d', rows, e, j) { StillAccounts(d, d', rows, e, j); }
  }

  /** The same-key and conflict lists name only what the rows hold. */
  ghost predicate Truthful(d: Decision, rows: Rows)
  {
    && (forall c | c in d.conflicts :: c.rowId in rows && c.key in rows[c.rowId] && rows[c.rowId][c.key] == c.current != c.legacy)
    && (forall p | p in d.same :: p.0 in rows && p.1 in rows[p.0])
  }

  method ClassifyRow(d: Decision, e: Entry, rows: Rows) returns (d': Decision, patch: Layer)
    requires Truthful(d, rows) && e.rowId in rows
    ensures Truthful(d', rows) && Extends(d, d') && d'.write == d.write && d'.skipped == d.skipped
    ensures patch == Patch(rows[e.rowId], e.values)
    ensures forall j | 0 <= j < |e.values| && e.values[j].key in rows[e.rowId] :: Accounts(d', rows, e, j)
  {
    d', patch := d, map[];
    var user := rows[e.rowId];
    for j := 0 to |e.values|
      invariant Truthful(d', rows) && Extends(d, d') && d'.write == d.write && d'.skipped == d.skipped
      invariant patch == Patch(user, e.values[..j])
      invariant forall i | 0 <= i < j && e.values[i].key in user :: Accounts(d', rows, e, i)
    {
      var v := e.values[j];
      assert e.values[..j + 1][..j] == e.values[..j];
      ghost var before := d';
      if v.key !in user {
        patch := patch[v.key := v.value];
      } else if user[v.key] == v.value {
        d' := d'.(same := d'.same + [(e.rowId, v.key)]);
      } else {
        d' := d'.(conflicts := d'.conflicts + [Conflict(e.rowId, v.key, user[v.key], v.value)]);
      }
      forall i | 0 <= i < j && e.values[i].key in user ensures Accounts(d', rows, e, i) {
        StillAccounts(before, d', rows, e, i);
      }
    }
    assert e.values[..|e.values|] == e.values;
  }

  /** What has been decided about the first `k` entries. */
  ghost predicate Classified(d: Decision, entries: seq<Entry>, skipped: seq<Skip>, rows: Rows, k: nat)
    requires k <= |entries|
  {
    && Truthful(d, rows) && d.write == Writes(entries[..k], rows) && skipped <= d.skipped
    && forall i | 0 <= i < k :: AllAccounted(d, rows, entries[i])
  }

  lemma OneMoreClassified(d: Decision, d': Decision, entries: seq<Entry>, skipped: seq<Skip>, rows: Rows, k: nat, e: Entry)
    requires k < |entries| && e == entries[k] && Classified(d, entries, skipped, rows, k)
    requires Truthful(d', rows) && Extends(d, d') && AllAccounted(d', rows, e)
    requires d'.write == if e.rowId !in rows || Patch(rows[e.rowId], e.values) == map[] then d.write
                         else d.write + [Write(e.rowId, Patch(rows[e.rowId], e.values))]
    ensures Classified(d', entries, skipped, rows, k + 1)
  {
    assert entries[..k + 1][..k] == entries[..k];
    LastWrites(entries[..k + 1], rows);
    forall i | 0 <= i < k ensures AllAccounted(d', rows, entries[i]) {
      StillAllAccounted(d, d', rows, entries[i]);
    }
  }

  /** Decides everything and writes nothing. */
  method Classify(entries: seq<Entry>, skipped: seq<Skip>, rows: Rows) returns (d: Decision)
    ensures Truthful(d, rows) && d.write == Writes(entries, rows) && skipped <= d.skipped
    ensures forall i | 0 <= i < |entries| :: AllAccounted(d, rows, entries[i])
  {
    d := Decision([], [], [], skipped);
    for k := 0 to |entries|
      invariant Classified(d, entries, skipped, rows, k)
    {
      ghost var before := d;
      d := ClassifyEntry(d, entries[k], rows);
      OneMoreClassified(before, d, entries, skipped, rows, k, entries[k]);
    }
    assert entries[..|entries|] == entries;
  }

  method ClassifyEntry(d: Decision, e: Entry, rows: Rows) returns (d': Decision)
    requires Truthful(d, rows)
    ensures Truthful(d', rows) && Extends(d, d')
    ensures d'.write == if e.rowId !in rows || Patch(rows[e.rowId], e.values) == map[] then d.write
                        else d.write + [Write(e.rowId, Patch(rows[e.rowId], e.values))]
    ensures AllAccounted(d', rows, e)
  {
    if e.rowId !in rows {
      var extra := seq(|e.values|, j requires 0 <= j < |e.values| => Skip(e.space, e.values[j].source));
      d' := d.(skipped := d.skipped + extra);
      forall j | 0 <= j < |e.values| ensures Skip(e.space, e.values[j].source) in d'.skipped {
        assert extra[j] in d'.skipped;
      }
      return;
    }
    var d1, patch := ClassifyRow(d, e, rows);
    d' := if patch == map[] then d1 else d1.(write := d1.write + [Write(e.rowId, patch)]);
    forall j | 0 <= j < |e.values| ensures Accounts(d', rows, e, j) {
      if e.values[j].key in rows[e.rowId] {
        StillAccounts(d1, d', rows, e, j);
      } else {
        PatchHas(rows[e.rowId], e.values, e.values[j].key);
        assert d'.write[|d'.write| - 1] == Write(e.rowId, patch);
        PatchAccounts(d', rows, e, j);
      }
    }
  }

  // ----- the run ---------------------------------------------------------------------------------------

  class Settings {
    var rows: Rows

    constructor (rows: Rows)
      ensures this.rows == rows
    {
      this.rows := rows;
    }

    method Merge(w: Write)
      modifies this
      ensures rows == Update(old(rows), w)
    {
      if w.rowId in rows {
        rows := rows[w.rowId := rows[w.rowId] + w.patch];
      }
    }

    /** The run, dying after `lives` updates if that comes first. */
    method ApplyNamespaceMigration(entries: seq<Entry>, skipped: seq<Skip>, lives: nat) returns (written: seq<Write>, finished: bool)
      modifies this
      ensures var writes := Writes(entries, old(rows));
              && |written| <= |writes| && written == writes[..|written|]
              && (finished <==> |writes| <= lives) && (finished ==> written == writes) && (!finished ==> |written| == lives)
              && rows == Interrupted(entries, old(rows), |written|)
    {
      var decided := Classify(entries, skipped, rows);
      written := [];
      ghost var writes := Writes(entries, rows);
      while |written| < |decided.write|
        invariant |written| <= |writes| && |written| <= lives && written == writes[..|written|]
        invariant rows == Apply(old(rows), writes[..|written|])
        decreases |decided.write| - |written|
      {
        if |written| == lives {
          return written, false;
        }
        var k := |written|;
        assert writes[..k + 1][..k] == writes[..k];
        Merge(decided.write[k]);
        written := written + [decided.write[k]];
      }
      finished := true;
    }
  }

  // ----- which document ----------------------------------------------------------------------------------

  /** The first document that has something to move, else the first that exists. */
  function Chosen(docs: seq<Option<seq<Entry>>>): Option<nat>
  {
    var full := FirstFull(docs, 0);
    if full.Some? then full else FirstThere(docs, 0)
  }

  function FirstFull(docs: seq<Option<seq<Entry>>>, k: nat): (r: Option<nat>)
    ensures r.Some? ==> k <= r.value < |docs| && docs[r.value].Some? && docs[r.value].value != []
    decreases |docs| - k
  {
    if k >= |docs| then None else if docs[k].Some? && docs[k].value != [] then Some(k) else FirstFull(docs, k + 1)
  }

  function FirstThere(docs: seq<Option<seq<Entry>>>, k: nat): (r: Option<nat>)
    ensures r.Some? ==> k <= r.value < |docs| && docs[r.value].Some?
    decreases |docs| - k
  {
    if k >= |docs| then None else if docs[k].Some? then Some(k) else FirstThere(docs, k + 1)
  }

  predicate Full(doc: Option<seq<Entry>>) { doc.Some? && doc.value != [] }

  /** The chosen document is the first with something to move, whatever stands before it; without one, the first that
      exists; and none if none exists. */
  lemma ChosenIs(docs: seq<Option<seq<Entry>>>, k: nat)
    requires k < |docs|
    ensures Chosen(docs) == Some(k) <==>
            || (Full(docs[k]) && forall i | 0 <= i < k :: !Full(docs[i]))
            || (docs[k].Some? && (forall i | 0 <= i < |docs| :: !Full(docs[i])) && forall i | 0 <= i < k :: docs[i].None?)
    ensures Chosen(docs).None? <==> forall i | 0 <= i < |docs| :: docs[i].None?
  {
    FirstFullIs(docs, 0);
    FirstThereIs(docs, 0);
  }

  lemma {:induction false} FirstFullIs(docs: seq<Option<seq<Entry>>>, k: nat)
    requires k <= |docs|
    ensures forall i | k <= i < (if FirstFull(docs, k).Some? then FirstFull(docs, k).value else |docs|) :: !Full(docs[i])
    decreases |docs| - k
  {
    if k < |docs| && !Full(docs[k]) { FirstFullIs(docs, k + 1); }
  }

  lemma {:induction false} FirstThereIs(docs: seq<Option<seq<Entry>>>, k: nat)
    requires k <= |docs|
    ensures forall i | k <= i < (if FirstThere(docs, k).Some? then FirstThere(docs, k).value else |docs|) :: docs[i].None?
    decreases |docs| - k
  {
    if k < |docs| && docs[k].None? { FirstThereIs(docs, k + 1); }
  }

  /** The loop of the run and of the report alike: an empty document is remembered, not settled for. */
  method Choose(docs: seq<Option<seq<Entry>>>) returns (source: Option<nat>)
    ensures source == Chosen(docs)
  {
    var seen: Option<nat> := None;
    var k := 0;
    while k < |docs|
      invariant 0 <= k <= |docs|
      invariant FirstFull(docs, k) == FirstFull(docs, 0)
      invariant seen.Some? ==> seen == FirstThere(docs, 0)
      invariant seen.None? ==> FirstThere(docs, k) == FirstThere(docs, 0)
    {
      if docs[k].Some? {
        if docs[k].value != [] {
          return Some(k);
        }
        if seen.None? {
          seen := Some(k);
        }
      }
      k := k + 1;
    }
    return seen;
  }
}
