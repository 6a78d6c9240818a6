/**
 * What one append keeps, at every point where a crash can stop it.
 */
module EventSteps {
  import opened Order
  import opened EvolutionEvents

  // ----- what one append keeps --------------------------------------------------

  /** The archives retention never touches. */
  function Newest(files: map<int, Body>): seq<int>
  {
    var names := Ascending(Listed(files));
    names[|Excess(names)|..]
  }

  lemma {:induction false} RemovalsAre(names: seq<int>, spared: set<int>)
    ensures forall w | w in Removals(names, spared) :: w.Remove? && w.k in names
  {
    if names != [] { RemovalsAre(names[..|names| - 1], spared); }
  }

  /** Retention removes only listed archives, each older than ten that stay. */
  lemma RetentionKeepsNewest(files: map<int, Body>, spared: set<int>)
    ensures forall w | w in Retention(files, spared) ::
              w.Remove? && w.k in Listed(files) && |Newest(files)| == EVENT_LOG_RETAIN_ARCHIVES
    ensures forall w, k | w in Retention(files, spared) && w.Remove? && k in Newest(files) :: w.k < k
    ensures forall k | k in Newest(files) :: k in Listed(files)
  {
    var names := Ascending(Listed(files));
    RemovalsAre(Excess(names), spared);
    forall k | k in Newest(files) ensures k in Listed(files) { assert k in names; }
    forall w | w in Retention(files, spared)
      ensures w.Remove? && w.k in Listed(files) && |Newest(files)| == EVENT_LOG_RETAIN_ARCHIVES
    {
      assert w.k in names;
    }
    forall w, k | w in Retention(files, spared) && w.Remove? && k in Newest(files) ensures w.k < k {
      var i :| 0 <= i < |Excess(names)| && Excess(names)[i] == w.k;
      var j :| 0 <= j < |Newest(files)| && Newest(files)[j] == k;
      assert names[i] < names[|Excess(names)| + j];
    }
  }

  lemma {:induction false} RemovesOnly(d: Disk, ws: seq<Write>)
    requires forall w | w in ws :: w.Remove?
    ensures ApplyAll(d, ws).active == d.active && ApplyAll(d, ws).aside == d.aside
    ensures forall k | k in ApplyAll(d, ws).files :: k in d.files && ApplyAll(d, ws).files[k] == d.files[k]
    ensures forall k | k in d.files :: k in ApplyAll(d, ws).files <==> Remove(k) !in ws
  {
    if ws != [] {
      var init, last := ws[..|ws| - 1], ws[|ws| - 1];
      assert last in ws && forall w | w in init :: w in ws;
      RemovesOnly(d, init);
      RemovesLast(d, ws, init, last);
    }
  }

  lemma RemovesLast(d: Disk, ws: seq<Write>, init: seq<Write>, last: Write)
    requires ws == init + [last] && last.Remove?
    ensures ApplyAll(d, ws) == ApplyAll(d, init).(files := ApplyAll(d, init).files - {last.k})
    ensures forall w :: w in ws <==> w in init || w == last
  {
    assert ws[..|ws| - 1] == init;
  }

  lemma HeadFacts(events: seq<Event>, at: RotateAt, e: Event)
    requires Due(events, at) && RisingNums(events) && (forall e | e in events :: e.num >= 1) && e in Head(events)
    ensures e in events && 1 <= e.num <= ArchiveNumber(events)
  {
    var i :| 0 <= i < Mid(events) && Head(events)[i] == e;
    assert events[i] == e && events[i].num < events[Mid(events)].num;
  }

  lemma TailFacts(events: seq<Event>, at: RotateAt, e: Event)
    requires Due(events, at) && RisingNums(events) && e in Tail(events)
    ensures e in events && e.num > ArchiveNumber(events)
  {
    var i :| 0 <= i < |Tail(events)| && Tail(events)[i] == e;
    assert events[Mid(events) + i] == e;
  }

  lemma HalvesRise(events: seq<Event>)
    requires RisingNums(events)
    ensures RisingNums(Head(events)) && RisingNums(Tail(events)) && Head(events) + Tail(events) == events
  {
    assert forall i | 0 <= i < |Tail(events)| :: Tail(events)[i] == events[Mid(events) + i];
  }

  /** The rotation splits the active events in two and names the archive between the halves. */
  lemma SplitFacts(events: seq<Event>, at: RotateAt)
    requires Due(events, at) && RisingNums(events) && forall e | e in events :: e.num >= 1
    ensures Head(events) + Tail(events) == events && Tail(events) != [] && Head(events) != []
    ensures RisingNums(Head(events)) && RisingNums(Tail(events))
    ensures forall e | e in Head(events) :: e in events && 1 <= e.num <= ArchiveNumber(events)
    ensures forall e | e in Tail(events) :: e in events && e.num > ArchiveNumber(events)
    ensures ArchiveNumber(events) >= 1
  {
    HalvesRise(events);
    forall e | e in Head(events) ensures e in events && 1 <= e.num <= ArchiveNumber(events) {
      HeadFacts(events, at, e);
    }
    forall e | e in Tail(events) ensures e in events && e.num > ArchiveNumber(events) {
      TailFacts(events, at, e);
    }
    assert Head(events)[0] in Head(events);
  }

  ghost predicate HeldElsewhere(d: Disk, k: int, e: Event)
  {
    exists k' | k' in Listed(d.files) :: k' != k && e in Readable(d.files[k'])
  }

  lemma HoldsBySlot(d: Disk, k: int, body: Body, e: Event)
    requires k >= 0
    ensures Holds(d, e) <==> e in Readable(d.active) || e in Readable(Lookup(d, k)) || HeldElsewhere(d, k, e)
    ensures Holds(Apply(d, PutArchive(k, body)), e)
       <==> e in Readable(d.active) || e in Readable(body) || HeldElsewhere(d, k, e)
  {
    var d1 := Apply(d, PutArchive(k, body));
    assert k in Listed(d1.files) && d1.files[k] == body;
    forall k' | k' != k ensures k' in Listed(d1.files) <==> k' in Listed(d.files) {}
    if HeldElsewhere(d, k, e) {
      var k' :| k' in Listed(d.files) && k' != k && e in Readable(d.files[k']);
      assert k' in Listed(d1.files) && e in Readable(d1.files[k']);
    }
    if Lookup(d, k) != Missing { assert k in Listed(d.files); }
    if Holds(d1, e) && e !in Readable(d.active) {
      var k' :| k' in Listed(d1.files) && e in Readable(d1.files[k']);
    }
  }

  /** What a due rotation writes first: the band under the archive number, holding the whole head and, in a
      collision, the rest of the prior generation; or, over an unparsable archive, the head set aside. */
  lemma BandIs(d: Disk, payload: string, at: RotateAt, spared: set<int>) returns (band: seq<Event>)
    requires Sound(d) && Plan(d, payload, at, spared).Appends? && Due(Readable(d.active), at)
    ensures var (events, a) := (Readable(d.active), Plan(d, payload, at, spared));
            var k := ArchiveNumber(events);
            && a.events == Tail(events)
            && (a.first == [PutArchive(k, BodyOf(band))] || (a.first == [PutAside(Head(events))] && band == Head(events)))
            && (forall e | e in Head(events) :: e in band)
            && (forall e | e in band :: e in Head(events) || e in Readable(Lookup(d, k)))
            && (a.first[0].PutArchive? ==> forall e | e in Readable(Lookup(d, k)) :: HasNum(band, e.num))
  {
    var events := Readable(d.active);
    SplitFacts(events, at);
    var k := ArchiveNumber(events);
    var existing := Lookup(d, k);
    if existing.Parsed? {
      band := Merge(Readable(existing), Head(events));
      MergeIsUnion(Readable(existing), Head(events));
    } else {
      band := Head(events);
    }
  }

  lemma BandWriteHolds(d: Disk, k: int, band: seq<Event>, e: Event)
    requires k >= 0 && (forall e | e in band :: e in Readable(d.active) || e in Readable(Lookup(d, k)))
    requires forall e | e in Readable(Lookup(d, k)) :: HasNum(band, e.num)
    ensures var d1 := Apply(d, PutArchive(k, BodyOf(band)));
            && (Holds(d1, e) ==> Holds(d, e))
            && (Agree(d) && Holds(d, e) ==> Holds(d1, e))
  {
    ReadsBack(band);
    HoldsBySlot(d, k, BodyOf(band), e);
    if Agree(d) && e in Readable(Lookup(d, k)) {
      var e' :| e' in band && e'.num == e.num;
      HoldsBySlot(d, k, BodyOf(band), e');
      assert e == e';
    }
  }

  ghost predicate Within(d: Disk, d': Disk) { forall e: Event | Holds(d, e) :: Holds(d', e) }

  lemma BandWriteSound(d: Disk, k: int, band: seq<Event>)
    requires Sound(d) && forall e | e in band :: 1 <= e.num <= k
    ensures Sound(Apply(d, PutArchive(k, BodyOf(band))))
  {
    ReadsBack(band);
    var d1 := Apply(d, PutArchive(k, BodyOf(band)));
    forall k': int, e: Event | k' in Listed(d1.files) && e in Readable(d1.files[k']) ensures 1 <= e.num <= k' {
      if k' != k { assert k' in Listed(d.files) && e in Readable(d.files[k']); }
    }
  }

  /** The band write alone: nothing appears that was not there, and nothing disappears if copies agree. */
  lemma BandWrite(d: Disk, payload: string, at: RotateAt, spared: set<int>)
    requires Sound(d) && Plan(d, payload, at, spared).Appends?
    ensures var d1 := ApplyAll(d, Plan(d, payload, at, spared).first);
            d1.active == d.active && Sound(d1) && Within(d1, d) && (Agree(d) ==> Within(d, d1))
  {
    var a, events := Plan(d, payload, at, spared), Readable(d.active);
    if Due(events, at) {
      var band := BandIs(d, payload, at, spared);
      BandWriteCase(d, a.first, ArchiveNumber(events), band, at);
    }
  }

  lemma BandWriteCase(d: Disk, first: seq<Write>, k: int, band: seq<Event>, at: RotateAt)
    requires Sound(d) && Due(Readable(d.active), at) && k == ArchiveNumber(Readable(d.active))
    requires first == [PutArchive(k, BodyOf(band))] || first == [PutAside(Head(Readable(d.active)))]
    requires forall e | e in band :: e in Head(Readable(d.active)) || e in Readable(Lookup(d, k))
    requires first[0].PutArchive? ==> forall e | e in Readable(Lookup(d, k)) :: HasNum(band, e.num)
    ensures var d1 := ApplyAll(d, first);
            d1.active == d.active && Sound(d1) && Within(d1, d) && (Agree(d) ==> Within(d, d1))
  {
    SplitFacts(Readable(d.active), at);
    assert first[..0] == [];
    var d1 := Apply(d, first[0]);
    assert ApplyAll(d, first) == d1;
    if first[0].PutArchive? {
      forall e | e in band ensures 1 <= e.num <= k && (e in Readable(d.active) || e in Readable(Lookup(d, k))) {
        if e !in Head(Readable(d.active)) { assert k in Listed(d.files) && e in Readable(d.files[k]); }
      }
      BandWriteSound(d, k, band);
      forall e: Event ensures (Holds(d1, e) ==> Holds(d, e)) && (Agree(d) && Holds(d, e) ==> Holds(d1, e)) {
        BandWriteHolds(d, k, band, e);
      }
    } else {
      assert d1.files == d.files;
      assert forall e: Event :: Holds(d1, e) <==> Holds(d, e);
    }
  }

  lemma RotateShape(d: Disk, at: RotateAt, spared: set<int>)
    requires Rotate(d, at, spared).Rotated?
    ensures var (r, events) := (Rotate(d, at, spared), Readable(d.active));
            if Due(events, at)
            then |r.first| == 1 && r.events == Tail(events) && r.removals == Retention(Apply(d, r.first[0]).files, spared)
            else r.first == [] && r.events == events && r.removals == []
  {
  }

  lemma PlanIsRotation(d: Disk, payload: string, at: RotateAt, spared: set<int>)
    requires Plan(d, payload, at, spared).Appends?
    ensures var (a, r) := (Plan(d, payload, at, spared), Rotate(d, at, spared));
            r.Rotated? && a.first == r.first && a.removals == r.removals && a.events == r.events && a.record.payload == payload
  {
  }

  /** What a rotation of the given shape hands on. */
  lemma RotationParts(d: Disk, events: seq<Event>, at: RotateAt, spared: set<int>, r: Rotation)
    requires events == Readable(d.active) && RisingNums(events) && (forall e | e in events :: e.num >= 1) && r.Rotated?
    requires if Due(events, at)
             then |r.first| == 1 && r.events == Tail(events) && r.removals == Retention(Apply(d, r.first[0]).files, spared)
             else r.first == [] && r.events == events && r.removals == []
    ensures r.removals == if Due(events, at) then Retention(ApplyAll(d, r.first).files, spared) else []
    ensures (forall w | w in r.removals :: w.Remove?) && RisingNums(r.events) && forall e | e in r.events :: e in events
  {
    if Due(events, at) {
      SplitFacts(events, at);
      ApplyOne(d, r.first);
      RetentionKeepsNewest(Apply(d, r.first[0]).files, spared);
    }
  }

  /** The parts of a plan: the band write leaves `d1`, whose removals are its retention. */
  lemma PlanParts(d: Disk, payload: string, at: RotateAt, spared: set<int>)
    requires Sound(d) && Plan(d, payload, at, spared).Appends?
    ensures var (a, events) := (Plan(d, payload, at, spared), Readable(d.active));
            && |a.first| <= 1
            && (if Due(events, at) then a.events == Tail(events) && |a.first| == 1 else a.events == events && a.first == [])
            && a.removals == (if Due(events, at) then Retention(ApplyAll(d, a.first).files, spared) else [])
            && (forall w | w in a.removals :: w.Remove?)
            && RisingNums(a.events) && (forall e | e in a.events :: e in events)
            && a.record.payload == payload
  {
    PlanIsRotation(d, payload, at, spared);
    RotateShape(d, at, spared);
    RotationParts(d, Readable(d.active), at, spared, Rotate(d, at, spared));
  }

  /** Every assigned number is at least 1 and above everything on disk, archives and active alike. */
  lemma AssignedIsFresh(d: Disk, payload: string, at: RotateAt, spared: set<int>)
    requires Sound(d) && Plan(d, payload, at, spared).Appends?
    ensures Plan(d, payload, at, spared).record.num >= 1
    ensures forall e: Event | Holds(d, e) :: e.num < Plan(d, payload, at, spared).record.num
    ensures forall k | k in Listed(ApplyAll(d, Plan(d, payload, at, spared).first).files) ::
              k < Plan(d, payload, at, spared).record.num
  {
    var a, events := Plan(d, payload, at, spared), Readable(d.active);
    var d1 := ApplyAll(d, a.first);
    PlanParts(d, payload, at, spared);
    ApplyAllConcat(d, a.first, a.removals);
    RemovesOnly(d1, a.removals);
    var names := Ascending(Listed(ApplyAll(d1, a.removals).files));
    forall k | k in Listed(d1.files) ensures k < a.record.num {
      if k !in names {
        assert Remove(k) in a.removals;
        RetentionKeepsNewest(d1.files, spared);
        var kept := Newest(d1.files)[0];
        assert kept in Newest(d1.files) && k < kept;
        assert Remove(kept) !in a.removals;
        assert kept in names;
      }
    }
    forall e: Event | Holds(d, e) ensures e.num < a.record.num {
      if e in events {
        if Due(events, at) {
          SplitFacts(events, at);
          assert e in Head(events) || e in Tail(events);
          assert Tail(events)[0] in a.events;
        }
      } else {
        var k :| k in Listed(d.files) && e in Readable(d.files[k]);
        FirstKeepsNames(d, payload, at, spared, k);
      }
    }
  }

  lemma FirstKeepsNames(d: Disk, payload: string, at: RotateAt, spared: set<int>, k: int)
    requires Sound(d) && Plan(d, payload, at, spared).Appends? && k in Listed(d.files)
    ensures k in Listed(ApplyAll(d, Plan(d, payload, at, spared).first).files)
  {
    var a := Plan(d, payload, at, spared);
    PlanParts(d, payload, at, spared);
    if a.first != [] { ApplyOne(d, a.first); }
  }

  /** The disk between the band write and the active write, with `j` removals done. */
  function Pruned(d: Disk, a: Attempt, j: nat): Disk
    requires a.Appends? && j <= |a.removals|
  {
    ApplyAll(ApplyAll(d, a.first), a.removals[..j])
  }

  /** Where a crash can leave the disk: untouched, somewhere in the pruning, or done. */
  lemma CrashPoints(d: Disk, a: Attempt, i: nat)
    requires a.Appends? && |a.first| <= 1 && i <= |a.Writes()|
    ensures i < |a.first| ==> After(d, a, i) == d
    ensures |a.first| <= i < |a.Writes()| ==> After(d, a, i) == Pruned(d, a, i - |a.first|)
    ensures i == |a.Writes()| ==>
              After(d, a, i) == Apply(Pruned(d, a, |a.removals|), PutActive(BodyOf(a.events + [a.record])))
  {
    var ws := a.Writes();
    if i < |a.first| {
      assert ws[..0] == [];
    } else if i < |ws| {
      assert ws[..i] == a.first + a.removals[..i - |a.first|];
      ApplyAllConcat(d, a.first, a.removals[..i - |a.first|]);
    } else {
      var last := PutActive(BodyOf(a.events + [a.record]));
      assert ws[..i] == ws && ws[..|ws| - 1] == a.first + a.removals && ws[|ws| - 1] == last;
      assert a.removals[..|a.removals|] == a.removals;
      ApplyAllConcat(d, a.first, a.removals);
    }
  }

  /** `ws` removes an archive of `d` that holds `e`. */
  ghost predicate Dropped(d: Disk, ws: seq<Write>, e: Event)
  {
    exists k | Remove(k) in ws :: e in Readable(Lookup(d, k))
  }

  lemma PrunedFacts(d: Disk, payload: string, at: RotateAt, spared: set<int>, j: nat)
    requires Sound(d) && Plan(d, payload, at, spared).Appends? && j <= |Plan(d, payload, at, spared).removals|
    ensures var a := Plan(d, payload, at, spared);
            var (d1, d2) := (ApplyAll(d, a.first), Pruned(d, a, j));
            && Sound(d2) && Within(d2, d) && d2.active == d.active
            && (forall e: Event | Holds(d1, e) :: Holds(d2, e) || Dropped(d1, a.removals[..j], e))
  {
    var a := Plan(d, payload, at, spared);
    var d1, d2 := ApplyAll(d, a.first), Pruned(d, a, j);
    PlanParts(d, payload, at, spared);
    BandWrite(d, payload, at, spared);
    RemovesOnly(d1, a.removals[..j]);
    forall e: Event | Holds(d2, e) ensures Holds(d1, e) {
      if e !in Readable(d2.active) {
        var k :| k in Listed(d2.files) && e in Readable(d2.files[k]);
        assert k in Listed(d1.files) && e in Readable(d1.files[k]);
      }
    }
    forall e: Event | Holds(d1, e)
      ensures Holds(d2, e) || Dropped(d1, a.removals[..j], e)
    {
      if e !in Readable(d1.active) {
        var k :| k in Listed(d1.files) && e in Readable(d1.files[k]);
        if k in d2.files {
          assert k in Listed(d2.files) && e in Readable(d2.files[k]);
        } else {
          assert Remove(k) in a.removals[..j] && e in Readable(Lookup(d1, k));
        }
      }
    }
    forall k: int, e: Event | k in Listed(d2.files) && e in Readable(d2.files[k]) ensures 1 <= e.num <= k {
      assert k in Listed(d1.files) && e in Readable(d1.files[k]);
    }
  }

  lemma PutActiveFacts(d: Disk, events: seq<Event>, record: Event)
    requires Sound(d) && RisingNums(events) && (forall e | e in events :: e in Readable(d.active))
    requires record.num >= 1 && forall e | e in events :: e.num < record.num
    ensures var d' := Apply(d, PutActive(BodyOf(events + [record])));
            && Sound(d') && Readable(d'.active) == events + [record]
            && Holds(d', record)
            && (forall e: Event :: Holds(d', e) ==> Holds(d, e) || e == record)
            && (forall e: Event :: Holds(d, e) ==> Holds(d', e) || (e in Readable(d.active) && e !in events))
  {
    ReadsBack(events + [record]);
    var d' := Apply(d, PutActive(BodyOf(events + [record])));
    assert Readable(d'.active)[|events|] == record;
    forall e | e in events + [record] ensures e in Readable(d.active) || e == record {}
    forall e: Event | Holds(d', e) ensures Holds(d, e) || e == record {
      if e !in Readable(d'.active) {
        var k :| k in Listed(d'.files) && e in Readable(d'.files[k]);
        assert k in Listed(d.files);
      }
    }
    forall e: Event | Holds(d, e) ensures Holds(d', e) || (e in Readable(d.active) && e !in events) {
      if e in Readable(d.active) {
        if e in events { assert e in events + [record]; }
      } else {
        var k :| k in Listed(d.files) && e in Readable(d.files[k]);
        assert k in Listed(d'.files);
      }
    }
  }

  /** The band of an archive this attempt has removed by its `i`-th write, or the head it set aside. */
  ghost predicate GivenUp(d: Disk, a: Attempt, i: nat, e: Event)
    requires a.Appends? && i <= |a.Writes()|
  {
    || Dropped(ApplyAll(d, a.first), a.Writes()[..i], e)
    || (i == |a.Writes()| && exists band :: PutAside(band) in a.first && e in band)
  }

  lemma EventsBelowRecord(d: Disk, payload: string, at: RotateAt, spared: set<int>)
    requires Sound(d) && Plan(d, payload, at, spared).Appends?
    ensures var a := Plan(d, payload, at, spared);
            a.record.num >= 1 && forall e | e in a.events :: e in Readable(d.active) && e.num < a.record.num
  {
    var a := Plan(d, payload, at, spared);
    PlanParts(d, payload, at, spared);
    AssignedIsFresh(d, payload, at, spared);
    forall e | e in a.events ensures e.num < a.record.num { assert Holds(d, e); }
  }

  /** Completed or not, an append keeps the log sound and makes nothing appear but the new event. */
  lemma AppendAdds(d: Disk, payload: string, at: RotateAt, spared: set<int>, i: nat)
    requires Sound(d) && Plan(d, payload, at, spared).Appends?
    requires i <= |Plan(d, payload, at, spared).Writes()|
    ensures var a := Plan(d, payload, at, spared);
            var d' := After(d, a, i);
            && Sound(d')
            && (forall e: Event | Holds(d', e) :: Holds(d, e) || (i == |a.Writes()| && e == a.record))
            && (i == |a.Writes()| ==> Holds(d', a.record))
  {
    var a := Plan(d, payload, at, spared);
    PlanParts(d, payload, at, spared);
    CrashPoints(d, a, i);
    if i >= |a.first| {
      var j := if i < |a.Writes()| then i - |a.first| else |a.removals|;
      PrunedFacts(d, payload, at, spared, j);
      if i == |a.Writes()| {
        EventsBelowRecord(d, payload, at, spared);
        PutActiveFacts(Pruned(d, a, j), a.events, a.record);
      }
    }
  }

  lemma DroppedLater(d1: Disk, a: Attempt, i: nat, j: nat, e: Event)
    requires a.Appends? && j <= |a.removals| && |a.first| + j <= i <= |a.Writes()|
    requires Dropped(d1, a.removals[..j], e)
    ensures Dropped(d1, a.Writes()[..i], e)
  {
    var k :| Remove(k) in a.removals[..j] && e in Readable(Lookup(d1, k));
    var n :| 0 <= n < j && a.removals[n] == Remove(k);
    assert a.Writes()[..i][|a.first| + n] == Remove(k);
  }

  lemma StepLoses(d: Disk, payload: string, at: RotateAt, spared: set<int>, i: nat, e: Event)
    requires Sound(d) && Agree(d) && Plan(d, payload, at, spared).Appends? && Holds(d, e)
    requires |Plan(d, payload, at, spared).first| <= 1
    requires |Plan(d, payload, at, spared).first| <= i <= |Plan(d, payload, at, spared).Writes()|
    ensures Holds(After(d, Plan(d, payload, at, spared), i), e) || GivenUp(d, Plan(d, payload, at, spared), i, e)
  {
    var a := Plan(d, payload, at, spared);
    CrashPoints(d, a, i);
    BandWrite(d, payload, at, spared);
    var j := if i < |a.Writes()| then i - |a.first| else |a.removals|;
    PrunedFacts(d, payload, at, spared, j);
    var d2 := Pruned(d, a, j);
    if !Holds(d2, e) {
      DroppedLater(ApplyAll(d, a.first), a, i, j, e);
    }
    if Holds(d2, e) && i == |a.Writes()| {
      FinalLoses(d, payload, at, spared, e);
    }
  }

  lemma FinalLoses(d: Disk, payload: string, at: RotateAt, spared: set<int>, e: Event)
    requires Sound(d) && Plan(d, payload, at, spared).Appends?
    requires Holds(Pruned(d, Plan(d, payload, at, spared), |Plan(d, payload, at, spared).removals|), e)
    ensures var a := Plan(d, payload, at, spared);
            Holds(After(d, a, |a.Writes()|), e) || GivenUp(d, a, |a.Writes()|, e)
  {
    var a, events := Plan(d, payload, at, spared), Readable(d.active);
    var d2 := Pruned(d, a, |a.removals|);
    PlanParts(d, payload, at, spared);
    PrunedFacts(d, payload, at, spared, |a.removals|);
    EventsBelowRecord(d, payload, at, spared);
    CrashPoints(d, a, |a.Writes()|);
    PutActiveFacts(d2, a.events, a.record);
    if e in events && e !in a.events {
      SplitFacts(events, at);
      assert e in Head(events);
      var band := BandIs(d, payload, at, spared);
      assert a.removals[..|a.removals|] == a.removals;
      HeadIsArchived(d, a, at, band, e, d2);
    }
  }

  /** One append, completed or cut short after any of its writes: the invariants hold, nothing appears but the
      new event, and (when copies agree) nothing disappears but the bands retention removed and a head that an
      unparsable archive forced aside. */
  lemma AppendStep(d: Disk, payload: string, at: RotateAt, spared: set<int>, i: nat)
    requires Sound(d) && Agree(d) && Plan(d, payload, at, spared).Appends?
    requires i <= |Plan(d, payload, at, spared).Writes()|
    ensures var a := Plan(d, payload, at, spared);
            var d' := After(d, a, i);
            && Sound(d') && Agree(d')
            && (forall e: Event | Holds(d', e) :: Holds(d, e) || (i == |a.Writes()| && e == a.record))
            && (i == |a.Writes()| ==> Holds(d', a.record))
            && (forall e: Event | Holds(d, e) :: Holds(d', e) || GivenUp(d, a, i, e))
  {
    var a := Plan(d, payload, at, spared);
    AppendAdds(d, payload, at, spared, i);
    AssignedIsFresh(d, payload, at, spared);
    forall e: Event | Holds(d, e) ensures Holds(After(d, a, i), e) || GivenUp(d, a, i, e) {
      PlanParts(d, payload, at, spared);
      CrashPoints(d, a, i);
      if i >= |a.first| { StepLoses(d, payload, at, spared, i, e); }
    }
  }

  lemma HeadIsArchived(d: Disk, a: Attempt, at: RotateAt, band: seq<Event>, e: Event, d2: Disk)
    requires a.Appends? && e in band && |Readable(d.active)| >= 2 && ArchiveNumber(Readable(d.active)) >= 0
    requires a.first == [PutArchive(ArchiveNumber(Readable(d.active)), BodyOf(band))] || a.first == [PutAside(band)]
    requires forall w | w in a.removals :: w.Remove?
    requires d2 == ApplyAll(ApplyAll(d, a.first), a.removals)
    ensures Holds(After(d, a, |a.Writes()|), e) || GivenUp(d, a, |a.Writes()|, e)
  {
    var k := ArchiveNumber(Readable(d.active));
    var d1 := ApplyAll(d, a.first);
    assert a.first[..0] == [];
    assert a.Writes()[..|a.Writes()|] == a.Writes();
    CrashPoints(d, a, |a.Writes()|);
    if a.first[0].PutArchive? {
      ReadsBack(band);
      RemovesOnly(d1, a.removals);
      assert e in Readable(Lookup(d1, k));
      if Remove(k) in a.removals {
        assert Remove(k) in a.Writes();
      } else {
        assert a.removals[..|a.removals|] == a.removals;
        assert k in Listed(After(d, a, |a.Writes()|).files);
      }
    } else {
      assert PutAside(band) in a.first;
    }
  }

  // ----- what an append must refuse, and what it must not touch -----------------------

  /** An archive no version-1 writer may rewrite: it cannot be read, is of another version, or has no events. */
  predicate Unmergeable(b: Body) { b.Unreadable? || (b.Parsed? && (b.version.Foreign? || b.entries.None?)) }

  /** The append would have to rewrite such an archive: the rotation is due and its band belongs there. */
  predicate Blocked(d: Disk, at: RotateAt)
  {
    var events := Readable(d.active);
    at.At? && at.n >= 2 && |events| >= at.n && Unmergeable(Lookup(d, events[(|events| + 1) / 2].num - 1))
  }

  /** An append is refused if and only if the active file is malformed, or a due rotation has to rewrite an archive it
      may not; each for its reason. */
  lemma RefusedIff(d: Disk, payload: string, at: RotateAt, spared: set<int>)
    ensures var a := Plan(d, payload, at, spared);
            && (a.Refused? <==> Malformed(d.active) || Blocked(d, at))
            && (a == Refused(VersionMismatch) <==> d.active.Parsed? && d.active.version.Foreign?)
            && (a == Refused(MalformedLog) <==> d.active.Unreadable? || d.active.Unparsable?)
  {
    var events := Readable(d.active);
    if Due(events, at) { assert ArchiveNumber(events) == events[(|events| + 1) / 2].num - 1; }
  }

  /** Whatever an append does, no archive it may not rewrite, and none it cannot parse, is rewritten: it is as it was,
      or retention removed it. */
  lemma ForeignArchivesStay(d: Disk, payload: string, at: RotateAt, spared: set<int>, i: nat, k: int)
    requires Sound(d) && Plan(d, payload, at, spared).Appends? && i <= |Plan(d, payload, at, spared).Writes()|
    requires k in d.files && (Unmergeable(d.files[k]) || d.files[k].Unparsable? || d.files[k].Blank?)
    ensures var now := After(d, Plan(d, payload, at, spared), i).files; k in now ==> now[k] == d.files[k]
  {
    var a := Plan(d, payload, at, spared);
    PlanParts(d, payload, at, spared);
    CrashPoints(d, a, i);
    FirstSparesForeign(d, payload, at, spared, k);
    RemovesOnly(ApplyAll(d, a.first), a.removals);
    if |a.first| <= i {
      var j := if i < |a.Writes()| then i - |a.first| else |a.removals|;
      assert forall w | w in a.removals[..j] :: w in a.removals;
      RemovesOnly(ApplyAll(d, a.first), a.removals[..j]);
    }
  }

  lemma FirstSparesForeign(d: Disk, payload: string, at: RotateAt, spared: set<int>, k: int)
    requires Plan(d, payload, at, spared).Appends?
    requires k in d.files && (Unmergeable(d.files[k]) || d.files[k].Unparsable? || d.files[k].Blank?)
    ensures var d1 := ApplyAll(d, Plan(d, payload, at, spared).first); k in d1.files && d1.files[k] == d.files[k]
  {
    PlanIsRotation(d, payload, at, spared);
    FirstIsAllowed(d, at, spared);
    var first := Plan(d, payload, at, spared).first;
    if first != [] { ApplyOne(d, first); }
  }

  lemma FirstIsAllowed(d: Disk, at: RotateAt, spared: set<int>)
    requires Rotate(d, at, spared).Rotated?
    ensures var first := Rotate(d, at, spared).first;
            || first == []
            || (|first| == 1 && first[0].PutAside?)
            || (|first| == 1 && first[0].PutArchive?
                && var b := Lookup(d, first[0].k); !Unmergeable(b) && !b.Unparsable? && !b.Blank?)
  {
  }

  /** Retention leaves ten archives at most, if none of its removals fails. */
  lemma RetentionLeavesTen(d: Disk)
    ensures |Listed(ApplyAll(d, Retention(d.files, {})).files)| <= EVENT_LOG_RETAIN_ARCHIVES
  {
    var names, left := Ascending(Listed(d.files)), Listed(ApplyAll(d, Retention(d.files, {})).files);
    RemovalsAre(Excess(names), {});
    RemovesOnly(d, Retention(d.files, {}));
    assert names == Excess(names) + Newest(d.files);
    forall k | k in left ensures k in Newest(d.files) {
      assert k in names;
      if k in Excess(names) { RemovalsHave(Excess(names), {}, k); }
    }
    SetInSeq(left, Newest(d.files));
  }

  /** So after every rotating append whose removals all succeed at most ten archives are left. */
  lemma RotationLeavesTen(d: Disk, payload: string, at: RotateAt)
    requires Sound(d) && Plan(d, payload, at, {}).Appends? && Due(Readable(d.active), at)
    ensures var a := Plan(d, payload, at, {});
            |Listed(After(d, a, |a.Writes()|).files)| <= EVENT_LOG_RETAIN_ARCHIVES
  {
    var a := Plan(d, payload, at, {});
    PlanParts(d, payload, at, {});
    CrashPoints(d, a, |a.Writes()|);
    assert a.removals[..|a.removals|] == a.removals;
    RetentionLeavesTen(ApplyAll(d, a.first));
  }

  lemma {:induction false} RemovalsHave(names: seq<int>, spared: set<int>, k: int)
    requires k in names && k !in spared
    ensures Remove(k) in Removals(names, spared)
  {
    var n := |names| - 1;
    if names[n] != k { RemovalsHave(names[..n], spared, k); }
  }

  lemma {:induction false} SetInSeq(a: set<int>, b: seq<int>)
    requires forall x | x in a :: x in b
    ensures |a| <= |b|
  {
    if a != {} {
      var x := Pick(a);
      var i :| 0 <= i < |b| && b[i] == x;
      var rest := b[..i] + b[i + 1..];
      forall y | y in a - {x} ensures y in rest { assert y in b[..i] + [x] + b[i + 1..] by { assert b == b[..i] + [x] + b[i + 1..]; } }
      SetInSeq(a - {x}, rest);
    }
  }

  /** A reader takes from a file exactly its records, and nothing from one that it calls malformed or that has no
      events. */
  lemma {:induction false} ReadableIs(b: Body, e: Event)
    ensures e in Readable(b) <==> !Malformed(b) && b.Parsed? && b.entries.Some? && Record(e) in b.entries.value
  {
    if b.Parsed? && b.entries.Some? { RecordsAre(b.entries.value, e); }
  }

  lemma {:induction false} RecordsAre(entries: seq<Entry>, e: Event)
    ensures e in Records(entries) <==> Record(e) in entries
  {
    if entries != [] { RecordsAre(entries[1..], e); }
  }
}
