/**
 * Appends and crashes alone refine an append-only log.
 */
module EventRefinement {
  import opened Order
  import opened EvolutionEvents
  import opened EventSteps
  import opened EventRuns
  import opened EventConservation

  // ----- appends and crashes alone: the directory is an append-only log -------------

  /** The payloads a run of appends committed, in order. */
  function Committed(steps: seq<Step>): seq<string>
  {
    if steps == [] then [] else
      var init, step := steps[..|steps| - 1], steps[|steps| - 1];
      var a := if step.Append? then Plan(Run(init).disk, step.payload, step.at, step.spared) else Refused(MalformedLog);
      if a.Appends? && step.cut >= |a.Writes()| then Committed(init) + [step.payload] else Committed(init)
  }

  /** Event `n` of a log. */
  function Nth(c: seq<string>, n: int): Event
    requires 1 <= n <= |c|
  {
    Event(n, c[n - 1])
  }

  lemma {:induction false} MaxNumBound(events: seq<Event>, bound: int)
    requires bound >= 0 && forall e | e in events :: e.num <= bound
    ensures MaxNum(events) <= bound
  {
    if events != [] { MaxNumBound(events[..|events| - 1], bound); }
  }

  predicate OwnBody(b: Body) { b == BodyOf(Readable(b)) }

  ghost predicate TenAbove(d: Disk, floor: int)
  {
    exists kept: seq<int> | |kept| == EVENT_LOG_RETAIN_ARCHIVES ::
      Rising(kept) && forall k | k in kept :: k in Listed(d.files) && k > floor
  }

  /** The directory holds exactly the log `c`: event `n` is the `n`-th payload, nothing else is on disk, and
      everything above `floor` is there. A positive floor has ten retained archives above it. */
  ghost predicate Logs(d: Disk, c: seq<string>, floor: nat)
  {
    && Sound(d) && (d.active.Missing? || OwnBody(d.active)) && (forall k | k in d.files :: OwnBody(d.files[k]))
    && (forall e: Event | Holds(d, e) :: 1 <= e.num <= |c| && e == Nth(c, e.num))
    && (forall k | k in Listed(d.files) :: k < |c|)
    && (if c == [] then Readable(d.active) == [] else
          Readable(d.active) != [] && Readable(d.active)[|Readable(d.active)| - 1].num == |c|)
    && (forall n | floor < n <= |c| :: Holds(d, Nth(c, n)))
    && (floor > 0 ==> TenAbove(d, floor))
  }

  lemma OwnBodiesRotate(d: Disk, at: RotateAt, spared: set<int>)
    requires Sound(d) && forall k | k in d.files :: OwnBody(d.files[k])
    ensures Rotate(d, at, spared).Rotated?
    ensures forall w | w in Rotate(d, at, spared).first ::
              w.PutArchive? && OwnBody(w.body) && Due(Readable(d.active), at) && w.k == ArchiveNumber(Readable(d.active))
  {
    var events := Readable(d.active);
    if Due(events, at) {
      SplitFacts(events, at);
      var k := ArchiveNumber(events);
      assert Lookup(d, k).Missing? || OwnBody(Lookup(d, k));
      RotateBand(d, at, spared);
      ReadsBack(if Lookup(d, k).Missing? then Head(events) else Merge(Readable(Lookup(d, k)), Head(events)));
    }
  }

  lemma OwnPlan(d: Disk, payload: string, at: RotateAt, spared: set<int>)
    requires Sound(d) && (d.active.Missing? || OwnBody(d.active)) && forall k | k in d.files :: OwnBody(d.files[k])
    ensures Plan(d, payload, at, spared).Appends?
    ensures forall w | w in Plan(d, payload, at, spared).first ::
              w.PutArchive? && OwnBody(w.body) && Due(Readable(d.active), at) && w.k == ArchiveNumber(Readable(d.active))
  {
    OwnBodiesRotate(d, at, spared);
  }

  lemma LogsAgree(d: Disk, c: seq<string>, floor: nat)
    requires Logs(d, c, floor)
    ensures Agree(d)
  {
  }

  /** An append to a log of `n` events is never refused and is number `n + 1`. */
  lemma LogsPlan(d: Disk, c: seq<string>, floor: nat, payload: string, at: RotateAt, spared: set<int>)
    requires Logs(d, c, floor)
    ensures Plan(d, payload, at, spared).Appends?
    ensures Plan(d, payload, at, spared).record == Event(|c| + 1, payload)
    ensures forall k | k in Listed(ApplyAll(d, Plan(d, payload, at, spared).first).files) :: k < |c|
  {
    OwnPlan(d, payload, at, spared);
    var a := Plan(d, payload, at, spared);
    PlanParts(d, payload, at, spared);
    LogsNames(d, c, floor, a.first, at);
    AssignedIsFresh(d, payload, at, spared);
    var names := RecordNumber(d, payload, at, spared);
    LogsNumber(d, c, floor, a.events, names, a.record.num);
  }

  lemma RecordNumber(d: Disk, payload: string, at: RotateAt, spared: set<int>) returns (names: seq<int>)
    requires Sound(d) && Plan(d, payload, at, spared).Appends?
    ensures var a := Plan(d, payload, at, spared);
            && a.record.num == MaxWith(MaxNum(a.events), names) + 1
            && forall k | k in names :: k in Listed(ApplyAll(d, a.first).files)
  {
    var a := Plan(d, payload, at, spared);
    names := Ascending(Listed(ApplyAll(d, a.first + a.removals).files));
    PlanParts(d, payload, at, spared);
    ApplyAllConcat(d, a.first, a.removals);
    RemovesOnly(ApplyAll(d, a.first), a.removals);
  }

  lemma ArchiveBelowLog(d: Disk, c: seq<string>, floor: nat, at: RotateAt)
    requires Logs(d, c, floor) && Due(Readable(d.active), at)
    ensures 1 <= ArchiveNumber(Readable(d.active)) < |c|
  {
    var events := Readable(d.active);
    SplitFacts(events, at);
    assert Tail(events)[0] in Tail(events) && Holds(d, Tail(events)[0]);
  }

  lemma NamesBelow(d: Disk, first: seq<Write>, bound: int)
    requires |first| <= 1 && (forall w | w in first :: w.PutArchive? && w.k < bound)
    requires forall k | k in Listed(d.files) :: k < bound
    ensures forall k | k in Listed(ApplyAll(d, first).files) :: k < bound
  {
    if first != [] {
      var w := first[0];
      assert w in first;
      ApplyOne(d, first);
      var names := Listed(d.files[w.k := w.body]);
      forall k | k in names ensures k < bound {
        assert k == w.k || k in Listed(d.files);
      }
    }
  }

  lemma LogsNames(d: Disk, c: seq<string>, floor: nat, first: seq<Write>, at: RotateAt)
    requires Logs(d, c, floor) && |first| <= 1
    requires forall w | w in first ::
              w.PutArchive? && Due(Readable(d.active), at) && w.k == ArchiveNumber(Readable(d.active))
    ensures forall k | k in Listed(ApplyAll(d, first).files) :: k < |c|
  {
    if first != [] {
      assert first[0] in first;
      ArchiveBelowLog(d, c, floor, at);
    }
    NamesBelow(d, first, |c|);
  }

  lemma LogsNumber(d: Disk, c: seq<string>, floor: nat, events: seq<Event>, names: seq<int>, num: int)
    requires Logs(d, c, floor) && num == MaxWith(MaxNum(events), names) + 1 && num >= 1
    requires forall e | e in events :: e in Readable(d.active)
    requires forall k | k in names :: k < |c|
    requires forall e: Event | Holds(d, e) :: e.num < num
    ensures num == |c| + 1
  {
    forall e | e in events ensures e.num <= |c| { assert Holds(d, e); }
    MaxNumBound(events, |c|);
    var active := Readable(d.active);
    if c != [] { assert active[|active| - 1] in active && Holds(d, active[|active| - 1]); }
  }

  /** The archives an attempt has removed by its `i`-th write. */
  function Gone(a: Attempt, i: nat): set<int>
    requires a.Appends? && i <= |a.Writes()|
  {
    set w | w in a.Writes()[..i] && w.Remove? :: w.k
  }

  predicate Shaped(a: Attempt)
  {
    a.Appends? && |a.first| <= 1 && (forall w | w in a.first :: w.PutArchive?) && forall w | w in a.removals :: w.Remove?
  }

  lemma GoneIs(a: Attempt, i: nat)
    requires Shaped(a) && i <= |a.Writes()|
    ensures i < |a.first| ==> Gone(a, i) == {}
    ensures i >= |a.first| ==>
              var j := if i < |a.Writes()| then i - |a.first| else |a.removals|;
              forall k :: k in Gone(a, i) <==> Remove(k) in a.removals[..j]
  {
    var ws := a.Writes()[..i];
    if i >= |a.first| {
      var j := if i < |a.Writes()| then i - |a.first| else |a.removals|;
      var last := PutActive(BodyOf(a.events + [a.record]));
      assert ws == a.first + a.removals[..j] + (if i < |a.Writes()| then [] else [last]);
      forall k ensures Remove(k) in ws <==> Remove(k) in a.removals[..j] {
        assert Remove(k) !in a.first;
      }
    } else {
      assert ws == [];
    }
  }

  lemma FilesAfter(d: Disk, a: Attempt, i: nat)
    requires Shaped(a) && i <= |a.Writes()|
    ensures var (d1, d') := (ApplyAll(d, a.first), After(d, a, i));
            && d'.active == (if i < |a.Writes()| then d.active else BodyOf(a.events + [a.record]))
            && (i < |a.first| ==> d' == d)
            && (i >= |a.first| ==> forall k | k in d'.files :: k in d1.files && d'.files[k] == d1.files[k])
            && (i >= |a.first| ==> forall k | k in d1.files && k !in Gone(a, i) :: k in d'.files)
  {
    var d1 := ApplyAll(d, a.first);
    CrashPoints(d, a, i);
    GoneIs(a, i);
    if a.first != [] {
      assert a.first[0] in a.first;
      ApplyOne(d, a.first);
    }
    if i >= |a.first| {
      RemovesOnly(d1, a.removals[..if i < |a.Writes()| then i - |a.first| else |a.removals|]);
    }
  }

  lemma LastIsLargest(s: set<int>)
    requires s != {}
    ensures var m := Ascending(s)[|s| - 1]; m in s && forall k | k in s :: k <= m
  {
    var r := Ascending(s);
    assert r[|s| - 1] in r;
    forall k | k in s ensures k <= r[|s| - 1] {
      assert k in r;
      var i :| 0 <= i < |r| && r[i] == k;
    }
  }

  /** The floor after an attempt: the largest archive removed so far. */
  function Floor(floor: nat, gone: set<int>): nat
  {
    if gone == {} then floor else
      var m := Ascending(gone)[|gone| - 1];
      if m <= floor then floor else m
  }

  lemma FloorIs(floor: nat, gone: set<int>)
    ensures Floor(floor, gone) >= floor && forall k | k in gone :: k <= Floor(floor, gone)
    ensures Floor(floor, gone) == floor || Floor(floor, gone) in gone
  {
    if gone != {} { LastIsLargest(gone); }
  }

  lemma NewestAreTen(files: map<int, Body>, spared: set<int>, k: int)
    requires Remove(k) in Retention(files, spared)
    ensures Rising(Newest(files)) && |Newest(files)| == EVENT_LOG_RETAIN_ARCHIVES
    ensures forall m | m in Newest(files) :: m in Listed(files) && m > k
  {
    RetentionKeepsNewest(files, spared);
    RisingTail(Ascending(Listed(files)), |Excess(Ascending(Listed(files)))|);
  }

  lemma RisingTail(s: seq<int>, n: nat)
    requires Rising(s) && n <= |s|
    ensures Rising(s[n..])
  {
  }

  lemma NewestStay(files: map<int, Body>, spared: set<int>, m: int)
    requires m in Newest(files)
    ensures Remove(m) !in Retention(files, spared)
  {
    RetentionKeepsNewest(files, spared);
  }

  /** A removed archive had ten above it that retention leaves alone. */
  lemma TenAfterRemoval(d1: Disk, d': Disk, k: nat, gone: set<int>, spared: set<int>)
    requires forall m | m in d1.files && m !in gone :: m in d'.files
    requires k in gone && forall m | m in gone :: Remove(m) in Retention(d1.files, spared)
    ensures TenAbove(d', k)
  {
    var kept := Newest(d1.files);
    NewestAreTen(d1.files, spared, k);
    forall m | m in kept ensures m in Listed(d'.files) && m > k { NewestStay(d1.files, spared, m); }
  }

  lemma TenAreLeft(d: Disk, d1: Disk, d': Disk, floor: nat, gone: set<int>)
    requires TenAbove(d, floor) && forall m | m in gone :: m <= floor
    requires forall m | m in d.files :: m in d1.files
    requires forall m | m in d1.files && m !in gone :: m in d'.files
    ensures TenAbove(d', floor)
  {
    var kept: seq<int> :| |kept| == EVENT_LOG_RETAIN_ARCHIVES && Rising(kept)
                       && forall k | k in kept :: k in Listed(d.files) && k > floor;
    forall k | k in kept ensures k in Listed(d'.files) && k > floor { assert k in Listed(d.files); }
  }

  /** Ten archives survive above the floor, however many were removed to raise it. */
  lemma TenStay(d: Disk, d1: Disk, d': Disk, floor: nat, gone: set<int>, spared: set<int>)
    requires floor > 0 ==> TenAbove(d, floor)
    requires forall k | k in d.files :: k in d1.files
    requires forall k | k in d1.files && k !in gone :: k in d'.files
    requires forall k | k in gone :: Remove(k) in Retention(d1.files, spared)
    ensures Floor(floor, gone) > 0 ==> TenAbove(d', Floor(floor, gone))
  {
    FloorIs(floor, gone);
    if Floor(floor, gone) > floor {
      TenAfterRemoval(d1, d', Floor(floor, gone), gone, spared);
    } else if floor > 0 {
      TenAreLeft(d, d1, d', floor, gone);
    }
  }

  lemma OwnFirst(d: Disk, first: seq<Write>)
    requires |first| <= 1 && (forall w | w in first :: w.PutArchive? && OwnBody(w.body))
    requires forall k | k in d.files :: OwnBody(d.files[k])
    ensures var d1 := ApplyAll(d, first);
            (forall k | k in d1.files :: OwnBody(d1.files[k])) && forall k | k in d.files :: k in d1.files
  {
    if first != [] {
      assert first[0] in first;
      ApplyOne(d, first);
    }
  }

  lemma LogsShaped(d: Disk, c: seq<string>, floor: nat, payload: string, at: RotateAt, spared: set<int>)
    requires Logs(d, c, floor) && Plan(d, payload, at, spared).Appends?
    ensures var a := Plan(d, payload, at, spared);
            var d1 := ApplyAll(d, a.first);
            && Shaped(a) && a.record == Event(|c| + 1, payload)
            && (forall k | k in d1.files :: OwnBody(d1.files[k]))
            && (forall k | k in Listed(d1.files) :: k < |c|)
            && (forall k | k in d.files :: k in d1.files)
            && (a.removals == [] || a.removals == Retention(d1.files, spared))
  {
    OwnPlan(d, payload, at, spared);
    PlanParts(d, payload, at, spared);
    LogsPlan(d, c, floor, payload, at, spared);
    OwnFirst(d, Plan(d, payload, at, spared).first);
  }

  /** What the directory looks like after `i` writes of an attempt, given what the band write left in `d1`. */
  lemma LogsFiles(d: Disk, c: seq<string>, floor: nat, a: Attempt, i: nat)
    requires Logs(d, c, floor) && Shaped(a) && i <= |a.Writes()|
    requires var d1 := ApplyAll(d, a.first);
             (forall k | k in d1.files :: OwnBody(d1.files[k])) && (forall k | k in Listed(d1.files) :: k < |c|)
    ensures var d' := After(d, a, i);
            && (d'.active.Missing? || OwnBody(d'.active)) && (forall k | k in d'.files :: OwnBody(d'.files[k]))
            && (forall k | k in Listed(d'.files) :: k < |c|)
  {
    FilesAfter(d, a, i);
    ReadsBack(a.events + [a.record]);
    forall k | k in Listed(After(d, a, i).files) ensures k < |c| {
      if i >= |a.first| { assert k in Listed(ApplyAll(d, a.first).files); }
    }
  }

  lemma LogsCoverage(d: Disk, c: seq<string>, floor: nat, payload: string, at: RotateAt, spared: set<int>, i: nat, n: int)
    requires Logs(d, c, floor) && Plan(d, payload, at, spared).Appends?
    requires i <= |Plan(d, payload, at, spared).Writes()|
    requires Floor(floor, Gone(Plan(d, payload, at, spared), i)) < n <= |c|
    ensures Holds(After(d, Plan(d, payload, at, spared), i), Nth(c, n))
  {
    var a := Plan(d, payload, at, spared);
    FloorIs(floor, Gone(a, i));
    LogsAgree(d, c, floor);
    AppendStep(d, payload, at, spared, i);
    if GivenUp(d, a, i, Nth(c, n)) {
      LogsShaped(d, c, floor, payload, at, spared);
      BandWrite(d, payload, at, spared);
      GivenUpBelow(d, a, i, Nth(c, n), spared);
    }
  }

  lemma GivenUpBelow(d: Disk, a: Attempt, i: nat, e: Event, spared: set<int>)
    requires Shaped(a) && i <= |a.Writes()| && GivenUp(d, a, i, e) && Sound(ApplyAll(d, a.first))
    requires a.removals == [] || a.removals == Retention(ApplyAll(d, a.first).files, spared)
    ensures exists k | k in Gone(a, i) :: e.num <= k
  {
    var d1 := ApplyAll(d, a.first);
    RetentionKeepsNewest(d1.files, spared);
    forall w | w in a.first ensures !w.PutAside? {}
    var k :| Remove(k) in a.Writes()[..i] && e in Readable(Lookup(d1, k));
    assert k in Gone(a, i);
    GoneIs(a, i);
    assert Remove(k) in a.removals && k in Listed(d1.files);
  }

  lemma LogsHeld(d: Disk, d': Disk, c: seq<string>, c': seq<string>, floor: nat, record: Event)
    requires forall e: Event | Holds(d, e) :: 1 <= e.num <= |c| && e == Nth(c, e.num)
    requires c' == c || (c' == c + [record.payload] && Holds(d', record))
    requires record.num == |c| + 1
    requires forall e: Event | Holds(d', e) :: Holds(d, e) || (c' != c && e == record)
    requires forall n | floor < n <= |c| :: Holds(d', Nth(c, n))
    ensures forall e: Event | Holds(d', e) :: 1 <= e.num <= |c'| && e == Nth(c', e.num)
    ensures forall n | floor < n <= |c'| :: Holds(d', Nth(c', n))
  {
    forall n | floor < n <= |c'| ensures Holds(d', Nth(c', n)) {
      if n <= |c| { assert Nth(c', n) == Nth(c, n); } else { assert Nth(c', n) == record; }
    }
    forall e: Event | Holds(d', e) ensures 1 <= e.num <= |c'| && e == Nth(c', e.num) {
      if Holds(d, e) { assert Nth(c', e.num) == Nth(c, e.num); }
    }
  }

  lemma LogsTen(d: Disk, a: Attempt, i: nat, floor: nat, spared: set<int>)
    requires Shaped(a) && i <= |a.Writes()| && (floor > 0 ==> TenAbove(d, floor))
    requires forall k | k in d.files :: k in ApplyAll(d, a.first).files
    requires a.removals == [] || a.removals == Retention(ApplyAll(d, a.first).files, spared)
    ensures Floor(floor, Gone(a, i)) > 0 ==> TenAbove(After(d, a, i), Floor(floor, Gone(a, i)))
  {
    FilesAfter(d, a, i);
    GoneIs(a, i);
    TenStay(d, if i < |a.first| then d else ApplyAll(d, a.first), After(d, a, i), floor, Gone(a, i), spared);
  }

  /** One append, completed or cut anywhere, takes the directory from the log `c` to the log `c` or to `c` with
      one more event. */
  lemma LogsStep(d: Disk, c: seq<string>, floor: nat, payload: string, at: RotateAt, spared: set<int>, i: nat)
    requires Logs(d, c, floor) && Plan(d, payload, at, spared).Appends?
    requires i <= |Plan(d, payload, at, spared).Writes()|
    ensures var a := Plan(d, payload, at, spared);
            Logs(After(d, a, i), if i == |a.Writes()| then c + [payload] else c, Floor(floor, Gone(a, i)))
  {
    var a := Plan(d, payload, at, spared);
    var c' := if i == |a.Writes()| then c + [payload] else c;
    LogsShaped(d, c, floor, payload, at, spared);
    AppendAdds(d, payload, at, spared, i);
    forall n | Floor(floor, Gone(a, i)) < n <= |c| ensures Holds(After(d, a, i), Nth(c, n)) {
      LogsCoverage(d, c, floor, payload, at, spared, i, n);
    }
    LogsAssemble(d, c, c', floor, a, i, spared);
  }

  lemma LogsAssemble(d: Disk, c: seq<string>, c': seq<string>, floor: nat, a: Attempt, i: nat, spared: set<int>)
    requires Logs(d, c, floor) && Shaped(a) && i <= |a.Writes()| && a.record.num == |c| + 1
    requires c' == if i == |a.Writes()| then c + [a.record.payload] else c
    requires var d1 := ApplyAll(d, a.first);
             && (forall k | k in d1.files :: OwnBody(d1.files[k])) && (forall k | k in Listed(d1.files) :: k < |c|)
             && (forall k | k in d.files :: k in d1.files)
             && (a.removals == [] || a.removals == Retention(d1.files, spared))
    requires var d' := After(d, a, i);
             && Sound(d')
             && (forall e: Event | Holds(d', e) :: Holds(d, e) || (i == |a.Writes()| && e == a.record))
             && (i == |a.Writes()| ==> Holds(d', a.record))
             && forall n | Floor(floor, Gone(a, i)) < n <= |c| :: Holds(d', Nth(c, n))
    ensures Logs(After(d, a, i), c', Floor(floor, Gone(a, i)))
  {
    var d' := After(d, a, i);
    LogsFiles(d, c, floor, a, i);
    LogsHeld(d, d', c, c', Floor(floor, Gone(a, i)), a.record);
    LogsTen(d, a, i, floor, spared);
    FilesAfter(d, a, i);
    ReadsBack(a.events + [a.record]);
  }

  /** What the last append of a run did to its disk and to what is committed. */
  lemma LastAppend(steps: seq<Step>, a: Attempt, i: nat)
    requires steps != [] && steps[|steps| - 1].Append?
    requires var (init, step) := (steps[..|steps| - 1], steps[|steps| - 1]);
             a == Plan(Run(init).disk, step.payload, step.at, step.spared) && a.Appends?
             && i == (if step.cut < |a.Writes()| then step.cut else |a.Writes()|)
    ensures var (init, step) := (steps[..|steps| - 1], steps[|steps| - 1]);
            && Run(steps).disk == After(Run(init).disk, a, i)
            && Committed(steps) == if i == |a.Writes()| then Committed(init) + [step.payload] else Committed(init)
  {
  }

  /** Over every run of appends and crashes from an empty directory: no append is refused, the `n`-th committed
      event gets number `n`, and the timeline a reader merges is the committed log itself, except a prefix that
      retention gave up while keeping ten archives above it. */
  lemma {:induction false} AppendsAreALog(steps: seq<Step>)
    requires forall s | s in steps :: s.Append?
    ensures exists floor: nat :: Logs(Run(steps).disk, Committed(steps), floor)
  {
    if steps == [] {
      assert Logs(Run(steps).disk, Committed(steps), 0);
    } else {
      var init, step := steps[..|steps| - 1], steps[|steps| - 1];
      assert step in steps && forall s | s in init :: s in steps;
      AppendsAreALog(init);
      var d, c := Run(init).disk, Committed(init);
      var floor: nat :| Logs(d, c, floor);
      LogsPlan(d, c, floor, step.payload, step.at, step.spared);
      var a := Plan(d, step.payload, step.at, step.spared);
      var i := if step.cut < |a.Writes()| then step.cut else |a.Writes()|;
      LogsStep(d, c, floor, step.payload, step.at, step.spared, i);
      LastAppend(steps, a, i);
    }
  }

  lemma LogTimeline(d: Disk, c: seq<string>, floor: nat)
    requires Logs(d, c, floor)
    ensures forall n | n in Timeline(d) :: 1 <= n <= |c| && Timeline(d)[n] == Nth(c, n)
    ensures forall n | floor < n <= |c| :: n in Timeline(d)
  {
    TimelineIsHeld(d);
    forall n | floor < n <= |c| ensures n in Timeline(d) { assert Holds(d, Nth(c, n)) && Nth(c, n).num == n; }
  }
}
