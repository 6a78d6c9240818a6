/**
 * When exactly a rotation conserves the timeline.
 */
module EventConservation {
  import opened Order
  import opened EvolutionEvents
  import opened EventSteps

  // ----- when exactly a rotation conserves the timeline ---------------------------

  lemma {:induction false} IndexConcat(a: seq<Event>, b: seq<Event>)
    ensures Index(a + b) == Index(a) + Index(b)
  {
    if b == [] {
      assert a + b == a;
    } else {
      IndexConcat(a, b[..|b| - 1]);
      assert (a + b)[..|a + b| - 1] == a + b[..|b| - 1];
    }
  }

  lemma IndexOfByNumber(m: map<int, Event>)
    requires forall n | n in m :: m[n].num == n
    ensures Index(ByNumber(m)) == m
  {
    ByNumberHas(m);
    IndexCovers(ByNumber(m), m);
  }

  lemma IndexCovers(all: seq<Event>, m: map<int, Event>)
    requires RisingNums(all) && forall n | n in m :: m[n].num == n
    requires forall e: Event :: e in all <==> e.num in m && m[e.num] == e
    ensures Index(all) == m
  {
    IndexHas(all);
    forall n ensures n in Index(all) <==> n in m {
      if n in m { assert m[n] in all && HasNum(all, n); }
    }
    forall n | n in m ensures Index(all)[n] == m[n] { assert m[n] in all; }
  }

  lemma MapAssoc(a: map<int, Event>, b: map<int, Event>, c: map<int, Event>)
    ensures (a + b) + c == a + (b + c)
  {
  }

  lemma {:induction false} MergeFilesConcat(a: seq<int>, b: seq<int>, files: map<int, Body>)
    ensures MergeFiles(a + b, files) == MergeFiles(a, files) + MergeFiles(b, files)
  {
    if b == [] {
      assert a + b == a;
    } else {
      var init, last := b[..|b| - 1], b[|b| - 1];
      MergeFilesConcat(a, init, files);
      assert (a + b)[..|a + b| - 1] == a + init && (a + b)[|a + b| - 1] == last;
      MapAssoc(MergeFiles(a, files), MergeFiles(init, files), Index(Readable(if last in files then files[last] else Missing)));
    }
  }

  lemma {:induction false} MergeFilesFrame(names: seq<int>, files: map<int, Body>, k: int, body: Body)
    requires k !in names
    ensures MergeFiles(names, files[k := body]) == MergeFiles(names, files)
  {
    if names != [] { MergeFilesFrame(names[..|names| - 1], files, k, body); }
  }

  function Below(s: set<int>, k: int): set<int> { set j | j in s && j < k }

  function Above(s: set<int>, k: int): set<int> { set j | j in s && j > k }

  function Here(s: set<int>, k: int): set<int> { if k in s then {k} else {} }

  lemma SetSplits(s: set<int>, k: int)
    ensures s == Below(s, k) + Here(s, k) + Above(s, k)
    ensures |s| == |Below(s, k)| + |Here(s, k)| + |Above(s, k)|
  {
    assert s == Below(s, k) + Here(s, k) + Above(s, k);
    assert |Below(s, k) + Here(s, k)| == |Below(s, k)| + |Here(s, k)|;
  }

  lemma AscendingSplits(s: set<int>, k: int)
    ensures Ascending(s) == Ascending(Below(s, k)) + Ascending(Here(s, k)) + Ascending(Above(s, k))
  {
    var lo, mid, hi := Ascending(Below(s, k)), Ascending(Here(s, k)), Ascending(Above(s, k));
    SetSplits(s, k);
    RisingConcat(lo, mid, k);
    RisingConcat(lo + mid, hi, k + 1);
    forall x ensures x in Ascending(s) <==> x in lo + mid + hi {
      assert x in lo + mid + hi <==> x in lo || x in mid || x in hi;
    }
    RisingUnique(Ascending(s), lo + mid + hi);
  }

  lemma SlotMerges(d: Disk, k: int)
    requires k >= 0
    ensures MergeFiles(Ascending(Here(Listed(d.files), k)), d.files) == Index(Readable(Lookup(d, k)))
  {
    var mid := Ascending(Here(Listed(d.files), k));
    if k in Listed(d.files) {
      assert |mid| == 1 && k in mid && mid == [k] && mid[..0] == [];
      assert MergeFiles(mid[..0], d.files) == map[];
    }
  }

  lemma RisingConcat(a: seq<int>, b: seq<int>, k: int)
    requires Rising(a) && Rising(b) && (forall x | x in a :: x < k) && (forall x | x in b :: x >= k)
    ensures Rising(a + b)
  {
    forall i, j | 0 <= i < j < |a + b| ensures (a + b)[i] < (a + b)[j] {
      if i < |a| <= j { assert a[i] in a && b[j - |a|] in b; }
    }
  }

  /** The archives younger than `k`, as the reader merges them over archive `k`. */
  function Younger(d: Disk, k: int): map<int, Event> { MergeFiles(Ascending(Above(Listed(d.files), k)), d.files) }

  function Older(d: Disk, k: int): map<int, Event> { MergeFiles(Ascending(Below(Listed(d.files), k)), d.files) }

  lemma TimelineBySlot(d: Disk, k: int)
    requires k >= 0
    ensures Timeline(d) == Older(d, k) + Index(Readable(Lookup(d, k))) + Younger(d, k) + Index(Readable(d.active))
  {
    var names := Listed(d.files);
    var lo, mid, hi := Ascending(Below(names, k)), Ascending(Here(names, k)), Ascending(Above(names, k));
    AscendingSplits(names, k);
    MergeFilesConcat(lo + mid, hi, d.files);
    MergeFilesConcat(lo, mid, d.files);
    SlotMerges(d, k);
  }

  lemma NeighboursKeep(d: Disk, k: int, body: Body)
    requires k >= 0
    ensures Older(Apply(d, PutArchive(k, body)), k) == Older(d, k)
    ensures Younger(Apply(d, PutArchive(k, body)), k) == Younger(d, k)
  {
    var names, names' := Listed(d.files), Listed(d.files[k := body]);
    assert Below(names', k) == Below(names, k);
    assert Above(names', k) == Above(names, k);
    MergeFilesFrame(Ascending(Below(names, k)), d.files, k, body);
    MergeFilesFrame(Ascending(Above(names, k)), d.files, k, body);
  }

  /** Which map wins where: moving `H` from the top of the stack to below `Y` changes nothing exactly when `Y`
      has nothing else to say about the keys of `H`. */
  lemma MovingHead(O: map<int, Event>, P: map<int, Event>, Y: map<int, Event>, H: map<int, Event>,
                   T: map<int, Event>, n: int, r: Event)
    requires H.Keys !! T.Keys && n !in H
    ensures O + (P + H) + Y + T[n := r] == (O + P + Y + (H + T))[n := r]
       <==> forall s | s in H && s in Y :: Y[s] == H[s]
  {
    var after, before := O + (P + H) + Y + T[n := r], (O + P + Y + (H + T))[n := r];
    assert after.Keys == before.Keys;
    forall s | s in after && !(s in H && s in Y) ensures after[s] == before[s] { }
    forall s | s in H && s in Y ensures after[s] == Y[s] && before[s] == H[s] { }
    MapsEqualIff(after, before);
  }

  lemma MapsEqualIff(a: map<int, Event>, b: map<int, Event>)
    requires a.Keys == b.Keys
    ensures a == b <==> forall s | s in a :: a[s] == b[s]
  {
    if forall s | s in a :: a[s] == b[s] {
      assert a == b;
    }
  }

  /** The archives a rotation's pruning removes. */
  function Removed(ws: seq<Write>): set<int> { set w | w in ws && w.Remove? :: w.k }

  /** What retention leaves of the disk a rotation found: without the removed archives, and without the moved band if
      the archive it went to is one of them. */
  function Retained(d: Disk, removed: set<int>, k: int): Disk
  {
    var kept := d.(files := d.files - removed);
    if k in removed then kept.(active := BodyOf(Tail(Readable(d.active)))) else kept
  }

  /** The exact condition for a rotation that writes its archive: beyond what retention removes, the timeline gains the
      new event and changes nowhere else if and only if no younger archive that stays already holds another event under
      one of the moved numbers. It always holds while copies agree; an active file restored from before such an archive
      can break it. */
  lemma RotationConservesIff(d: Disk, payload: string, at: RotateAt, spared: set<int>)
    requires Sound(d) && Plan(d, payload, at, spared).Appends? && Due(Readable(d.active), at)
    requires Plan(d, payload, at, spared).first[0].PutArchive?
    ensures var (a, events) := (Plan(d, payload, at, spared), Readable(d.active));
            var (k, removed) := (ArchiveNumber(events), Removed(a.removals));
            var retained := Retained(d, removed, k);
            (Timeline(After(d, a, |a.Writes()|)) == Timeline(retained)[a.record.num := a.record]
             <==> forall e | e in Head(events) && k !in removed && e.num in Younger(retained, k) ::
                    Younger(retained, k)[e.num] == e)
  {
    var a, events := Plan(d, payload, at, spared), Readable(d.active);
    var k, head, removed := ArchiveNumber(events), Head(events), Removed(a.removals);
    var kept := d.(files := d.files - removed);
    SplitFacts(events, at);
    PlanParts(d, payload, at, spared);
    var band := BandOf(d, payload, at, spared);
    DiskAfter(d, a, k, band);
    IndexWithRecord(a.events, a.record);
    if k in removed {
      BandIsPruned(kept, a.events, a.record);
    } else {
      TimelineAfter(kept, a, k, band);
      TimelineBySlot(kept, k);
      ActiveIndex(events, at);
      assert a.record.num !in Index(head) by {
        AssignedIsFresh(d, payload, at, spared);
        IndexHas(head);
        forall e | e in head ensures e.num < a.record.num { assert Holds(d, e); }
      }
      MovingHead(Older(kept, k), Index(Readable(Lookup(kept, k))), Younger(kept, k), Index(head), Index(a.events),
                 a.record.num, a.record);
      HeadAgrees(head, Younger(kept, k));
    }
  }

  /** The band write and the removals, in one go. */
  lemma DiskAfter(d: Disk, a: Attempt, k: int, band: seq<Event>)
    requires a.Appends? && a.first == [PutArchive(k, BodyOf(band))] && forall w | w in a.removals :: w.Remove?
    ensures var removed := Removed(a.removals);
            var kept := d.(files := d.files - removed);
            After(d, a, |a.Writes()|) == Apply(if k in removed then kept else Apply(kept, PutArchive(k, BodyOf(band))),
                                               PutActive(BodyOf(a.events + [a.record])))
  {
    var removed, d1 := Removed(a.removals), Apply(d, PutArchive(k, BodyOf(band)));
    CrashPoints(d, a, |a.Writes()|);
    ApplyOne(d, a.first);
    assert a.removals[..|a.removals|] == a.removals;
    RemovesOnly(d1, a.removals);
    var d2 := ApplyAll(d1, a.removals);
    forall j ensures j in removed <==> Remove(j) in a.removals {
      if j in removed { var w :| w in a.removals && w.Remove? && w.k == j; assert w == Remove(j); }
    }
    forall j ensures j in d2.files <==> j in d1.files - removed {}
    forall j | j in d2.files ensures d2.files[j] == d1.files[j] {}
    assert d2.files == d1.files - removed;
    assert d2.files == if k in removed then d.files - removed else (d.files - removed)[k := BodyOf(band)];
  }

  /** A band that is pruned at once leaves the timeline as if it had not been there. */
  lemma BandIsPruned(kept: Disk, events: seq<Event>, record: Event)
    ensures Timeline(Apply(kept, PutActive(BodyOf(events + [record]))))
         == Timeline(kept.(active := BodyOf(events)))[record.num := record]
  {
    var archived := MergeFiles(Ascending(Listed(kept.files)), kept.files);
    ReadsBack(events);
    ReadsBack(events + [record]);
    IndexWithRecord(events, record);
    OneMoreKey(archived, Index(events), record.num, record);
  }

  lemma OneMoreKey(a: map<int, Event>, b: map<int, Event>, n: int, e: Event)
    ensures a + b[n := e] == (a + b)[n := e]
  {
  }

  lemma NothingRemoved(d: Disk, k: int)
    ensures Removed([]) == {} && Retained(d, {}, k) == d
  {
    assert d.files - {} == d.files;
  }

  lemma IndexWithRecord(events: seq<Event>, record: Event)
    ensures Index(events + [record]) == Index(events)[record.num := record]
  {
    assert (events + [record])[..|events|] == events;
  }

  lemma ActiveIndex(events: seq<Event>, at: RotateAt)
    requires Due(events, at) && RisingNums(events) && forall e | e in events :: e.num >= 1
    ensures Index(events) == Index(Head(events)) + Index(Tail(events))
    ensures Index(Head(events)).Keys !! Index(Tail(events)).Keys
  {
    SplitFacts(events, at);
    IndexConcat(Head(events), Tail(events));
    HeadTailApart(events, at);
    KeysApart(Head(events), Tail(events));
  }

  lemma KeysApart(a: seq<Event>, b: seq<Event>)
    requires forall n | HasNum(a, n) :: !HasNum(b, n)
    ensures Index(a).Keys !! Index(b).Keys
  {
    IndexHas(a);
    IndexHas(b);
  }

  lemma HeadAgrees(head: seq<Event>, younger: map<int, Event>)
    requires RisingNums(head)
    ensures (forall s | s in Index(head) && s in younger :: younger[s] == Index(head)[s])
       <==> (forall e | e in head && e.num in younger :: younger[e.num] == e)
  {
    IndexHas(head);
    forall s | s in Index(head) ensures Index(head)[s] in head && Index(head)[s].num == s {}
  }

  lemma HeadTailApart(events: seq<Event>, at: RotateAt)
    requires Due(events, at) && RisingNums(events) && forall e | e in events :: e.num >= 1
    ensures forall n | HasNum(Head(events), n) :: !HasNum(Tail(events), n)
  {
    SplitFacts(events, at);
  }

  lemma BandOf(d: Disk, payload: string, at: RotateAt, spared: set<int>) returns (band: seq<Event>)
    requires Sound(d) && Plan(d, payload, at, spared).Appends? && Due(Readable(d.active), at)
    requires Plan(d, payload, at, spared).first[0].PutArchive?
    ensures var events := Readable(d.active);
            && Plan(d, payload, at, spared).first == [PutArchive(ArchiveNumber(events), BodyOf(band))]
            && Index(band) == Index(Readable(Lookup(d, ArchiveNumber(events)))) + Index(Head(events))
  {
    var events := Readable(d.active);
    var existing := Lookup(d, ArchiveNumber(events));
    RotateBand(d, at, spared);
    if existing.Missing? {
      band := Head(events);
    } else {
      band := Merge(Readable(existing), Head(events));
      MergeIndex(Readable(existing), Head(events));
    }
  }

  lemma MergeIndex(prior: seq<Event>, head: seq<Event>)
    ensures Index(Merge(prior, head)) == Index(prior) + Index(head)
  {
    IndexHas(prior);
    IndexHas(head);
    IndexOfByNumber(Index(prior) + Index(head));
  }

  lemma RotateBand(d: Disk, at: RotateAt, spared: set<int>)
    requires Due(Readable(d.active), at) && Rotate(d, at, spared).Rotated? && Rotate(d, at, spared).first[0].PutArchive?
    ensures var events := Readable(d.active);
            var existing := Lookup(d, ArchiveNumber(events));
            var band := if existing.Missing? then Head(events) else Merge(Readable(existing), Head(events));
            Rotate(d, at, spared).first == [PutArchive(ArchiveNumber(events), BodyOf(band))]
  {
  }

  lemma TimelineAfter(kept: Disk, a: Attempt, k: int, band: seq<Event>)
    requires a.Appends? && k >= 0
    ensures Timeline(Apply(Apply(kept, PutArchive(k, BodyOf(band))), PutActive(BodyOf(a.events + [a.record]))))
         == Older(kept, k) + Index(band) + Younger(kept, k) + Index(a.events + [a.record])
  {
    var body := BodyOf(band);
    var d' := Apply(Apply(kept, PutArchive(k, body)), PutActive(BodyOf(a.events + [a.record])));
    ReadsBack(band);
    ReadsBack(a.events + [a.record]);
    NeighboursKeep(kept, k, body);
    TimelineBySlot(d', k);
  }
}
