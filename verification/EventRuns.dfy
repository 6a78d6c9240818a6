/**
 * Whole runs of appends, crashes and damage from outside: soundness, fresh numbers, conservation, boundedness.
 */
module EventRuns {
  import opened EvolutionEvents
  import opened EventSteps

  // ----- whole runs -------------------------------------------------------------

  /** What can happen to the log: an append that stops after `cut` of its writes (all of them when `cut` is
      large enough), and damage from outside that leaves nothing readable behind, and an active file put back
      to any body it had before. */
  datatype Step =
    | Append(payload: string, at: RotateAt, spared: set<int>, cut: nat)
    | ActiveLost(body: Body)
    | ArchiveLost(k: int, body: Body)
    | ActiveRestored(index: nat)

  datatype World = World(disk: Disk, past: seq<Body>)

  function Do(w: World, step: Step): World
  {
    match step
    case Append(payload, at, spared, cut) =>
      var a := Plan(w.disk, payload, at, spared);
      if a.Refused? then w else
        var d := After(w.disk, a, if cut < |a.Writes()| then cut else |a.Writes()|);
        World(d, w.past + [d.active])
    case ActiveLost(body) =>
      if Readable(body) == [] then w.(disk := w.disk.(active := body)) else w
    case ArchiveLost(k, body) =>
      if k !in w.disk.files || Readable(body) != [] then w
      else if body.Missing? then w.(disk := Apply(w.disk, Remove(k)))
      else w.(disk := Apply(w.disk, PutArchive(k, body)))
    case ActiveRestored(index) =>
      if index < |w.past| then w.(disk := w.disk.(active := w.past[index])) else w
  }

  /** The world after a run from an empty directory. */
  function Run(steps: seq<Step>): World
  {
    if steps == [] then World(EmptyDisk, []) else Do(Run(steps[..|steps| - 1]), steps[|steps| - 1])
  }

  ghost predicate SoundBody(b: Body) { RisingNums(Readable(b)) && forall e | e in Readable(b) :: e.num >= 1 }

  ghost predicate SoundWorld(w: World) { Sound(w.disk) && forall b | b in w.past :: SoundBody(b) }

  lemma AppendKeepsWorld(w: World, step: Step)
    requires SoundWorld(w) && step.Append?
    ensures SoundWorld(Do(w, step))
  {
    var a := Plan(w.disk, step.payload, step.at, step.spared);
    if a.Appends? {
      AppendAdds(w.disk, step.payload, step.at, step.spared, if step.cut < |a.Writes()| then step.cut else |a.Writes()|);
    }
  }

  lemma ShrinkingKeepsSound(d: Disk, d': Disk)
    requires Sound(d) && SoundBody(d'.active)
    requires forall k | k in d'.files :: Readable(d'.files[k]) == [] || (k in d.files && d'.files[k] == d.files[k])
    ensures Sound(d')
  {
    forall k: int, e: Event | k in Listed(d'.files) && e in Readable(d'.files[k]) ensures 1 <= e.num <= k {
      assert k in Listed(d.files) && e in Readable(d.files[k]);
    }
  }

  lemma DamageKeepsWorld(w: World, step: Step)
    requires SoundWorld(w) && !step.Append?
    ensures SoundWorld(Do(w, step))
  {
    var d' := Do(w, step).disk;
    assert SoundBody(d'.active) by {
      if step.ActiveRestored? && step.index < |w.past| { assert w.past[step.index] in w.past; }
    }
    ShrinkingKeepsSound(w.disk, d');
  }

  lemma {:induction false} RunsAreSound(steps: seq<Step>)
    ensures SoundWorld(Run(steps))
  {
    if steps != [] {
      var init, step := steps[..|steps| - 1], steps[|steps| - 1];
      RunsAreSound(init);
      if step.Append? { AppendKeepsWorld(Run(init), step); } else { DamageKeepsWorld(Run(init), step); }
    }
  }

  /** Freshness along every run, rollbacks and lost files included: whatever number an append assigns, it is at
      least 1 and above every number then on disk. */
  lemma NumbersAreFreshOnEveryRun(steps: seq<Step>, payload: string, at: RotateAt, spared: set<int>)
    requires Plan(Run(steps).disk, payload, at, spared).Appends?
    ensures var (d, record) := (Run(steps).disk, Plan(Run(steps).disk, payload, at, spared).record);
            && record.num >= 1
            && (forall e: Event | Holds(d, e) :: e.num < record.num)
            && record.num !in Timeline(d)
  {
    var d := Run(steps).disk;
    RunsAreSound(steps);
    AssignedIsFresh(d, payload, at, spared);
    TimelineIsHeld(d);
  }

  predicate NoRestore(steps: seq<Step>) { forall s | s in steps :: !s.ActiveRestored? }

  lemma LosingKeepsAgreement(d: Disk, d': Disk)
    requires Agree(d) && Within(d', d)
    ensures Agree(d')
  {
  }

  lemma AppendKeepsAgreement(w: World, step: Step)
    requires SoundWorld(w) && Agree(w.disk) && step.Append?
    ensures Agree(Do(w, step).disk)
  {
    var a := Plan(w.disk, step.payload, step.at, step.spared);
    if a.Appends? {
      var i := if step.cut < |a.Writes()| then step.cut else |a.Writes()|;
      AppendStep(w.disk, step.payload, step.at, step.spared, i);
      assert Do(w, step).disk == After(w.disk, a, i);
    }
  }

  lemma StepKeepsAgreement(w: World, step: Step)
    requires SoundWorld(w) && Agree(w.disk) && !step.ActiveRestored?
    ensures Agree(Do(w, step).disk)
  {
    var d := w.disk;
    match step {
      case Append(_, _, _, _) => AppendKeepsAgreement(w, step);
      case ActiveLost(body) =>
        if Readable(body) == [] { LosingActive(d, body); }
      case ArchiveLost(k, body) =>
        if k in d.files && Readable(body) == [] { LosingArchive(d, k, body); }
    }
  }

  /** Without restored active files the copies of a number never disagree, so every append of the run is
      conservative: the timeline gains the new event and loses only what the step gave up. */
  lemma {:induction false} CopiesAgreeOnRuns(steps: seq<Step>)
    requires NoRestore(steps)
    ensures Agree(Run(steps).disk)
  {
    if steps != [] {
      var init, step := steps[..|steps| - 1], steps[|steps| - 1];
      assert step in steps && forall s | s in init :: s in steps;
      CopiesAgreeOnRuns(init);
      RunsAreSound(init);
      StepKeepsAgreement(Run(init), step);
    }
  }

  lemma LosingActive(d: Disk, body: Body)
    requires Agree(d) && Readable(body) == []
    ensures Agree(d.(active := body))
  {
    var d' := d.(active := body);
    forall e: Event | Holds(d', e) ensures Holds(d, e) {
      var k :| k in Listed(d'.files) && e in Readable(d'.files[k]);
      assert k in Listed(d.files);
    }
    LosingKeepsAgreement(d, d');
  }

  lemma LosingArchive(d: Disk, k: int, body: Body)
    requires Agree(d) && k in d.files && Readable(body) == []
    ensures Agree(Apply(d, Remove(k))) && Agree(Apply(d, PutArchive(k, body)))
  {
    forall d' | d' in [Apply(d, Remove(k)), Apply(d, PutArchive(k, body))] ensures Agree(d') {
      forall e: Event | Holds(d', e) ensures Holds(d, e) {
        if e !in Readable(d'.active) {
          var k' :| k' in Listed(d'.files) && e in Readable(d'.files[k']);
          assert k' in Listed(d.files) && e in Readable(d.files[k']);
        }
      }
      LosingKeepsAgreement(d, d');
    }
    assert Apply(d, Remove(k)) in [Apply(d, Remove(k)), Apply(d, PutArchive(k, body))];
    assert Apply(d, PutArchive(k, body)) in [Apply(d, Remove(k)), Apply(d, PutArchive(k, body))];
  }

  /** The step theorem for the view a reader gets, on every run without restored files. */
  lemma TimelineIsConserved(steps: seq<Step>, payload: string, at: RotateAt, spared: set<int>, i: nat)
    requires NoRestore(steps) && Plan(Run(steps).disk, payload, at, spared).Appends?
    requires i <= |Plan(Run(steps).disk, payload, at, spared).Writes()|
    ensures var d := Run(steps).disk;
            var a := Plan(d, payload, at, spared);
            var (t, t') := (Timeline(d), Timeline(After(d, a, i)));
            && (forall n | n in t' :: (n in t && t'[n] == t[n]) || (i == |a.Writes()| && t'[n] == a.record))
            && (i == |a.Writes()| ==> a.record.num in t' && t'[a.record.num] == a.record)
            && (forall n | n in t && n !in t' :: GivenUp(d, a, i, t[n]))
  {
    var d := Run(steps).disk;
    RunsAreSound(steps);
    CopiesAgreeOnRuns(steps);
    AppendStep(d, payload, at, spared, i);
    TimelineIsHeld(d);
    TimelineIsHeld(After(d, Plan(d, payload, at, spared), i));
  }

  /** What one step does to the length of the active file. */
  lemma StepBounded(w: World, step: Step, n: nat)
    requires SoundWorld(w) && n >= 2 && (step.Append? ==> step.at == At(n))
    requires |Readable(w.disk.active)| <= n && forall b | b in w.past :: |Readable(b)| <= n
    ensures |Readable(Do(w, step).disk.active)| <= n && forall b | b in Do(w, step).past :: |Readable(b)| <= n
  {
    var d := w.disk;
    if step.Append? && Plan(d, step.payload, step.at, step.spared).Appends? {
      var a := Plan(d, step.payload, step.at, step.spared);
      AppendBounded(d, step.payload, n, step.spared, if step.cut < |a.Writes()| then step.cut else |a.Writes()|);
    } else if step.ActiveRestored? && step.index < |w.past| {
      assert w.past[step.index] in w.past;
    }
  }

  /** For one rotation threshold of at least 2 the active file never grows past it. */
  lemma {:induction false} ActiveStaysBounded(steps: seq<Step>, n: nat)
    requires n >= 2 && forall s | s in steps && s.Append? :: s.at == At(n)
    ensures |Readable(Run(steps).disk.active)| <= n && forall b | b in Run(steps).past :: |Readable(b)| <= n
  {
    if steps != [] {
      var init, step := steps[..|steps| - 1], steps[|steps| - 1];
      assert step in steps && forall s | s in init :: s in steps;
      ActiveStaysBounded(init, n);
      RunsAreSound(init);
      StepBounded(Run(init), step, n);
    }
  }

  lemma RotatedIsShorter(events: seq<Event>, n: nat)
    requires n >= 2 && |events| <= n
    ensures |if Due(events, At(n)) then Tail(events) else events| < n
  {
  }

  lemma AppendBounded(d: Disk, payload: string, n: nat, spared: set<int>, i: nat)
    requires Sound(d) && n >= 2 && |Readable(d.active)| <= n && Plan(d, payload, At(n), spared).Appends?
    requires i <= |Plan(d, payload, At(n), spared).Writes()|
    ensures |Readable(After(d, Plan(d, payload, At(n), spared), i).active)| <= n
  {
    var a := Plan(d, payload, At(n), spared);
    PlanParts(d, payload, At(n), spared);
    RotatedIsShorter(Readable(d.active), n);
    ActiveAfter(d, a, i, payload, At(n), spared);
  }

  lemma ActiveOfLast(d: Disk, events: seq<Event>)
    ensures Readable(Apply(d, PutActive(BodyOf(events))).active) == events
  {
    ReadsBack(events);
  }

  lemma ActiveOfPruned(d: Disk, payload: string, at: RotateAt, spared: set<int>, j: nat)
    requires Sound(d) && Plan(d, payload, at, spared).Appends? && j <= |Plan(d, payload, at, spared).removals|
    ensures Pruned(d, Plan(d, payload, at, spared), j).active == d.active
  {
    PrunedFacts(d, payload, at, spared, j);
  }

  lemma BeforeLastWrite(d: Disk, payload: string, at: RotateAt, spared: set<int>, i: nat)
    requires Sound(d) && Plan(d, payload, at, spared).Appends? && |Plan(d, payload, at, spared).first| <= 1
    requires i < |Plan(d, payload, at, spared).Writes()|
    ensures After(d, Plan(d, payload, at, spared), i).active == d.active
  {
    var a := Plan(d, payload, at, spared);
    CrashPoints(d, a, i);
    if i >= |a.first| {
      ActiveOfPruned(d, payload, at, spared, i - |a.first|);
    }
  }

  lemma AfterLastWrite(d: Disk, a: Attempt)
    requires a.Appends? && |a.first| <= 1
    ensures Readable(After(d, a, |a.Writes()|).active) == a.events + [a.record]
  {
    CrashPoints(d, a, |a.Writes()|);
    ActiveOfLast(Pruned(d, a, |a.removals|), a.events + [a.record]);
  }

  /** The active file of a crash point is the old one until the last write, and the new one then. */
  lemma ActiveAfter(d: Disk, a: Attempt, i: nat, payload: string, at: RotateAt, spared: set<int>)
    requires Sound(d) && a == Plan(d, payload, at, spared) && a.Appends? && |a.first| <= 1 && i <= |a.Writes()|
    ensures var now := Readable(After(d, a, i).active);
            now == if i == |a.Writes()| then a.events + [a.record] else Readable(d.active)
  {
    if i == |a.Writes()| {
      AfterLastWrite(d, a);
    } else {
      BeforeLastWrite(d, payload, at, spared, i);
    }
  }
}
