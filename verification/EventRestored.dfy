/**
 * A run whose next rotation loses an event: an active file put back under archives that are younger.
 */
module EventRestored {
  import opened Order
  import opened EvolutionEvents
  import opened EventSteps
  import opened EventRuns
  import opened EventConservation

  /** A log whose active file was put back to a body older than archive 2. */
  const Restored := Disk(BodyOf([Event(1, "a"), Event(2, "x")]),
                         map[2 := BodyOf([Event(1, "b"), Event(2, "c")])], [])

  lemma FewArePruned(files: map<int, Body>, spared: set<int>)
    requires |Listed(files)| <= EVENT_LOG_RETAIN_ARCHIVES
    ensures Retention(files, spared) == []
  {
  }

  lemma RestoredRotates(d: Disk, one: Event, two: Event, prior: Body)
    requires Readable(d.active) == [one, two] && one.num == 1 && two.num == 2
    requires d.files == map[2 := prior]
    ensures Rotate(d, At(2), {}) == Rotated([PutArchive(1, BodyOf([one]))], [], [two])
  {
    var events := [one, two];
    assert Head(events) == [one] && Tail(events) == [two] && ArchiveNumber(events) == 1;
    var files := d.files[1 := BodyOf([one])];
    assert Listed(files) == {1, 2};
    FewArePruned(files, {});
  }

  lemma RestoredPlanOf(d: Disk, a: Event, x: Event, b: Event, c: Event, payload: string)
    requires a.num == b.num == 1 && x.num == c.num == 2
    requires d == Disk(BodyOf([a, x]), map[2 := BodyOf([b, c])], [])
    ensures Sound(d) && Readable(d.active) == [a, x]
    ensures var p := Plan(d, payload, At(2), {}); p.Appends? && p.first == [PutArchive(1, BodyOf([a]))] && p.removals == []
  {
    ReadsBack([a, x]);
    ReadsBack([b, c]);
    RestoredRotates(d, a, x, d.files[2]);
  }

  lemma RestoredPlan()
    ensures Sound(Restored) && Readable(Restored.active) == [Event(1, "a"), Event(2, "x")]
    ensures var a := Plan(Restored, "g", At(2), {});
            a.Appends? && a.first == [PutArchive(1, BodyOf([Event(1, "a")]))] && a.removals == []
  {
    RestoredPlanOf(Restored, Event(1, "a"), Event(2, "x"), Event(1, "b"), Event(2, "c"), "g");
  }

  lemma RestoredYounger()
    ensures 1 in Younger(Restored, 1) && Younger(Restored, 1)[1] == Event(1, "b")
  {
    var band := [Event(1, "b"), Event(2, "c")];
    ReadsBack(band);
    assert Above(Listed(Restored.files), 1) == {2};
    var names := Ascending({2});
    assert |names| == 1 && 2 in names && names == [2] && names[..0] == [];
    assert MergeFiles(names[..0], Restored.files) == map[];
    IndexHas(band);
    assert band[0] in band;
  }

  /** Five appends, the active file lost after two of them, and put back to the body of those two once the younger
      numbers are in archive 2. */
  const RestoringRun := [
    Plain("a"), Plain("x"), ActiveLost(Missing), Plain("b"), Plain("c"), Plain("d"), Append("e", At(3), {}, 2),
    ActiveRestored(1)]

  lemma PlainAppend(w: World, events: seq<Event>, payload: string)
    requires Readable(w.disk.active) == events && w.disk.files == map[] && !w.disk.active.Unreadable?
    requires w.disk.active.Missing? || w.disk.active == BodyOf(events)
    ensures var body := BodyOf(events + [Event(MaxNum(events) + 1, payload)]);
            Do(w, Append(payload, NotFinite, {}, 1)) == World(w.disk.(active := body), w.past + [body])
  {
    var a := Plan(w.disk, payload, NotFinite, {});
    assert ApplyAll(w.disk, a.first + a.removals) == w.disk;
    assert Ascending(Listed(w.disk.files)) == [] by { assert Listed(w.disk.files) == {}; }
    assert a.Writes() == [PutActive(BodyOf(events + [Event(MaxNum(events) + 1, payload)]))];
    assert a.Writes()[..1] == a.Writes();
    ApplyOne(w.disk, a.Writes());
    ReadsBack(events + [Event(MaxNum(events) + 1, payload)]);
  }

  lemma RotatingPlan(d: Disk, one: Event, two: Event, three: Event, payload: string)
    requires d == Disk(BodyOf([one, two, three]), map[], []) && one.num == 1 && two.num == 2 && three.num == 3
    ensures Plan(d, payload, At(3), {}) == Appends([PutArchive(2, BodyOf([one, two]))], [], [three], Event(4, payload))
  {
    var events, first := [one, two, three], PutArchive(2, BodyOf([one, two]));
    ReadsBack(events);
    assert Head(events) == [one, two] && Tail(events) == [three] && ArchiveNumber(events) == 2;
    assert Listed(Apply(d, first).files) == {2};
    FewArePruned(Apply(d, first).files, {});
    assert Rotate(d, At(3), {}) == Rotated([first], [], [three]);
    assert [first] + [] == [first];
    ApplyOne(d, [first]);
    var names := Ascending({2});
    assert |names| == 1 && 2 in names && names == [2];
    MaxOf([three], 3);
    assert names[..0] == [] && MaxWith(3, names) == 3;
  }

  lemma RotatingAppend(w: World, one: Event, two: Event, three: Event, payload: string)
    requires w.disk == Disk(BodyOf([one, two, three]), map[], []) && one.num == 1 && two.num == 2 && three.num == 3
    ensures var body := BodyOf([three, Event(4, payload)]);
            Do(w, Append(payload, At(3), {}, 2)) == World(Disk(body, map[2 := BodyOf([one, two])], []), w.past + [body])
  {
    var d, first, a := w.disk, PutArchive(2, BodyOf([one, two])), Plan(w.disk, payload, At(3), {});
    var last := PutActive(BodyOf([three, Event(4, payload)]));
    RotatingPlan(d, one, two, three, payload);
    assert a.Writes() == [first, last] by { assert [three] + [Event(4, payload)] == [three, Event(4, payload)]; }
    TwoWrites(d, first, last);
    assert a.Writes()[..2] == a.Writes();
    assert d.files[2 := BodyOf([one, two])] == map[2 := BodyOf([one, two])];
  }

  lemma TwoWrites(d: Disk, first: Write, last: Write)
    ensures ApplyAll(d, [first, last]) == Apply(Apply(d, first), last)
  {
    assert [first, last] == [first] + [last];
    ApplyAllConcat(d, [first], [last]);
    ApplyOne(d, [first]);
    ApplyOne(Apply(d, first), [last]);
  }

  lemma RunOneMore(steps: seq<Step>, i: nat)
    requires i < |steps|
    ensures Run(steps[..i + 1]) == Do(Run(steps[..i]), steps[i])
  {
    assert steps[..i + 1][..i] == steps[..i];
  }

  lemma MaxOfRising(init: seq<Event>, last: Event)
    requires MaxNum(init) <= last.num
    ensures MaxNum(init + [last]) == last.num
  {
    assert (init + [last])[..|init|] == init;
  }

  function Plain(payload: string): Step { Append(payload, NotFinite, {}, 1) }

  /** One more plain append of a run, `num` being the number it assigns. */
  lemma RunPlain(s: seq<Step>, i: nat, w: World, events: seq<Event>, e: Event, events': seq<Event>)
    requires i < |s| && w == Run(s[..i]) && s[i] == Plain(e.payload) && events' == events + [e]
    requires w.disk == Disk(if events == [] then Missing else BodyOf(events), map[], []) && e.num == MaxNum(events) + 1
    ensures Run(s[..i + 1]) == World(Disk(BodyOf(events'), map[], []), w.past + [BodyOf(events')])
    ensures MaxNum(events') == e.num
  {
    RunOneMore(s, i);
    ReadsBack(events);
    MaxOfRising(events, e);
    PlainAppend(w, events, e.payload);
  }

  lemma RunRotating(s: seq<Step>, i: nat, w: World, one: Event, two: Event, three: Event, payload: string)
    requires i < |s| && w == Run(s[..i]) && s[i] == Append(payload, At(3), {}, 2)
    requires w.disk == Disk(BodyOf([one, two, three]), map[], []) && one.num == 1 && two.num == 2 && three.num == 3
    ensures Run(s[..i + 1]) == World(Disk(BodyOf([three, Event(4, payload)]), map[2 := BodyOf([one, two])], []),
                                     w.past + [BodyOf([three, Event(4, payload)])])
  {
    RunOneMore(s, i);
    RotatingAppend(w, one, two, three, payload);
  }

  lemma RunLost(s: seq<Step>, i: nat, w: World)
    requires i < |s| && w == Run(s[..i]) && s[i] == ActiveLost(Missing)
    ensures Run(s[..i + 1]) == w.(disk := w.disk.(active := Missing))
  {
    RunOneMore(s, i);
  }

  lemma RunRestored(s: seq<Step>, i: nat, w: World, index: nat)
    requires i < |s| && w == Run(s[..i]) && s[i] == ActiveRestored(index) && index < |w.past|
    ensures Run(s[..i + 1]) == w.(disk := w.disk.(active := w.past[index]))
  {
    RunOneMore(s, i);
  }

  lemma TwoAppends(s: seq<Step>, i: nat, w: World, one: Event, two: Event)
    requires i + 2 <= |s| && w == Run(s[..i]) && w.disk == EmptyDisk && one.num == 1 && two.num == 2
    requires s[i] == Plain(one.payload) && s[i + 1] == Plain(two.payload)
    ensures Run(s[..i + 2]) == World(Disk(BodyOf([one, two]), map[], []), w.past + [BodyOf([one])] + [BodyOf([one, two])])
  {
    RunPlain(s, i, w, [], one, [one]);
    RunPlain(s, i + 1, World(Disk(BodyOf([one]), map[], []), w.past + [BodyOf([one])]), [one], two, [one, two]);
  }

  lemma WrittenAndLost(s: seq<Step>, a: Event, x: Event)
    requires a.num == 1 && x.num == 2 && |s| >= 3
    requires s[0] == Plain(a.payload) && s[1] == Plain(x.payload) && s[2] == ActiveLost(Missing)
    ensures Run(s[..3]) == World(EmptyDisk, [BodyOf([a])] + [BodyOf([a, x])])
  {
    assert s[..0] == [];
    TwoAppends(s, 0, World(EmptyDisk, []), a, x);
    RunLost(s, 2, World(Disk(BodyOf([a, x]), map[], []), [BodyOf([a])] + [BodyOf([a, x])]));
  }

  lemma WrittenAnew(s: seq<Step>, w: World, b: Event, c: Event, d: Event, w5: World)
    requires b.num == 1 && c.num == 2 && d.num == 3 && |s| >= 6 && w == Run(s[..3]) && w.disk == EmptyDisk
    requires s[3] == Plain(b.payload) && s[4] == Plain(c.payload) && s[5] == Plain(d.payload)
    requires w5 == World(Disk(BodyOf([b, c]), map[], []), w.past + [BodyOf([b])] + [BodyOf([b, c])])
    ensures Run(s[..6]) == World(Disk(BodyOf([b, c] + [d]), map[], []), w5.past + [BodyOf([b, c] + [d])])
  {
    TwoAppends(s, 3, w, b, c);
    OneMore(s, w5, [b, c], d, [b, c] + [d]);
  }

  lemma OneMore(s: seq<Step>, w: World, events: seq<Event>, e: Event, events': seq<Event>)
    requires |s| >= 6 && w == Run(s[..5]) && w.disk == Disk(BodyOf(events), map[], []) && events != []
    requires s[5] == Plain(e.payload) && events' == events + [e] && e.num == 3 && events[|events| - 1].num == 2
    requires forall i | 0 <= i < |events| :: events[i].num <= 2
    ensures Run(s[..6]) == World(Disk(BodyOf(events'), map[], []), w.past + [BodyOf(events')])
  {
    MaxOf(events, 2);
    RunPlain(s, 5, w, events, e, events');
  }

  lemma {:induction false} MaxOf(events: seq<Event>, n: int)
    requires events != [] && events[|events| - 1].num == n >= 0 && forall i | 0 <= i < |events| :: events[i].num <= n
    ensures MaxNum(events) == n
  {
    var init := events[..|events| - 1];
    assert MaxNum(init) <= n by { MaxAtMost(init, n); }
  }

  lemma {:induction false} MaxAtMost(events: seq<Event>, n: int)
    requires n >= 0 && forall i | 0 <= i < |events| :: events[i].num <= n
    ensures MaxNum(events) <= n
  {
    if events != [] { MaxAtMost(events[..|events| - 1], n); }
  }

  lemma RotatedAndRestored(s: seq<Step>, w: World, b: Event, c: Event, d: Event, e: string, body: Body)
    requires b.num == 1 && c.num == 2 && d.num == 3 && |s| == 8 && w == Run(s[..6])
    requires w.disk == Disk(BodyOf([b, c, d]), map[], []) && |w.past| >= 2 && w.past[1] == body
    requires s[6] == Append(e, At(3), {}, 2) && s[7] == ActiveRestored(1)
    ensures Run(s).disk == Disk(body, map[2 := BodyOf([b, c])], [])
  {
    RunRotating(s, 6, w, b, c, d, e);
    RunRestored(s, 7, Run(s[..7]), 1);
    assert s[..8] == s;
  }

  lemma RunToSix(s: seq<Step>, a: Event, x: Event, b: Event, c: Event, d: Event, past: seq<Body>, past5: seq<Body>)
    requires a.num == b.num == 1 && x.num == c.num == 2 && d.num == 3 && |s| >= 6
    requires s[0] == Plain(a.payload) && s[1] == Plain(x.payload) && s[2] == ActiveLost(Missing)
    requires s[3] == Plain(b.payload) && s[4] == Plain(c.payload) && s[5] == Plain(d.payload)
    requires past == [BodyOf([a])] + [BodyOf([a, x])] && past5 == past + [BodyOf([b])] + [BodyOf([b, c])]
    ensures Run(s[..6]) == World(Disk(BodyOf([b, c] + [d]), map[], []), past5 + [BodyOf([b, c] + [d])])
  {
    WrittenAndLost(s, a, x);
    WrittenAnew(s, World(EmptyDisk, past), b, c, d, World(Disk(BodyOf([b, c]), map[], []), past5));
  }

  /** The run with any payloads: `a` and `x` are written, lost, and put back over `b` to `e`. */
  lemma RestoredIsReachedBy(s: seq<Step>, a: Event, x: Event, b: Event, c: Event, d: Event, e: string)
    requires a.num == b.num == 1 && x.num == c.num == 2 && d.num == 3 && |s| == 8
    requires s[0] == Plain(a.payload) && s[1] == Plain(x.payload) && s[2] == ActiveLost(Missing)
    requires s[3] == Plain(b.payload) && s[4] == Plain(c.payload) && s[5] == Plain(d.payload)
    requires s[6] == Append(e, At(3), {}, 2) && s[7] == ActiveRestored(1)
    ensures Run(s).disk == Disk(BodyOf([a, x]), map[2 := BodyOf([b, c])], [])
  {
    var past := [BodyOf([a])] + [BodyOf([a, x])];
    var past5 := past + [BodyOf([b])] + [BodyOf([b, c])];
    RunToSix(s, a, x, b, c, d, past, past5);
    var w := World(Disk(BodyOf([b, c] + [d]), map[], []), past5 + [BodyOf([b, c] + [d])]);
    assert [b, c] + [d] == [b, c, d] && w.past[1] == BodyOf([a, x]);
    RotatedAndRestored(s, w, b, c, d, e, BodyOf([a, x]));
  }

  lemma RestoredIsReached()
    ensures Run(RestoringRun).disk == Restored
  {
    RestoredIsReachedBy(RestoringRun, Event(1, "a"), Event(2, "x"), Event(1, "b"), Event(2, "c"), Event(3, "d"), "e");
  }

  lemma RotationLoses(d: Disk, payload: string, at: RotateAt, spared: set<int>, a: Attempt, k: int, e: Event)
    requires Sound(d) && a == Plan(d, payload, at, spared) && a.Appends? && Due(Readable(d.active), at)
    requires a.first[0].PutArchive? && a.removals == [] && k == ArchiveNumber(Readable(d.active))
    requires e in Head(Readable(d.active)) && e.num in Younger(d, k) && Younger(d, k)[e.num] != e
    ensures Timeline(After(d, a, |a.Writes()|)) != Timeline(d)[a.record.num := a.record]
  {
    NothingRemoved(d, k);
    RotationConservesIff(d, payload, at, spared);
  }

  lemma RestoredLoses()
    ensures var a := Plan(Restored, "g", At(2), {});
            && a.Appends? && a.removals == []
            && Timeline(After(Restored, a, |a.Writes()|)) != Timeline(Restored)[a.record.num := a.record]
  {
    RestoredPlan();
    RestoredYounger();
    var one, two := Event(1, "a"), Event(2, "x");
    assert one in Head([one, two]);
    RotationLoses(Restored, "g", At(2), {}, Plan(Restored, "g", At(2), {}), 1, one);
  }

  /** The failing family is real: after such a run the next rotating append hides event 1 of the active file behind the
      archive's, although nothing was pruned. */
  lemma RestoredFileLosesAnEvent()
    ensures var d := Run(RestoringRun).disk;
            var a := Plan(d, "g", At(2), {});
            && a.Appends? && a.removals == []
            && Timeline(After(d, a, |a.Writes()|)) != Timeline(d)[a.record.num := a.record]
  {
    RestoredIsReached();
    RestoredLoses();
  }
}
