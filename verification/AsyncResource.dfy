/**
 * One read operation's lifecycle: generations fence off superseded answers
 * (packages/evolution-client-kit/src/async-resource.ts).
 */
module AsyncResource {
  import opened Wrappers

  datatype Status = Loading | Ready | Failed

  /** The published snapshot. */
  datatype Snap<T> = Snap(status: Status, refreshing: bool, data: Option<T>, failure: Option<string>, generation: nat)

  /** A read under way: the snapshot it started from, and whether its signal was aborted. */
  datatype Load<T> = Load(previous: Snap<T>, aborted: bool)

  datatype World<T> = World(
    state: Snap<T>,
    generation: nat,
    controller: Option<nat>,        // the read the current abort controller belongs to
    disposed: bool,
    loads: map<nat, Load<T>>,       // reads whose loader has not settled
    published: seq<Snap<T>>)        // every snapshot the listeners could have seen

  datatype Answer<T> = Success(data: T) | Failure(reason: string)

  /** `throws`: a listener throws while it is told, having called nothing on the resource. */
  datatype Event<T> =
    | Begin(throws: bool)
    | Settle(g: nat, answer: Answer<T>, throws: bool)
    | Reset
    | Dispose

  function Blank<T>(generation: nat): Snap<T> { Snap(Loading, false, None, None, generation) }

  function Start<T>(): World<T> { World(Blank(0), 0, None, false, map[], [Blank(0)]) }

  function Publish<T>(w: World<T>, s: Snap<T>): World<T> { w.(state := s, published := w.published + [s]) }

  /** Aborting the controller's read; the controller is replaced or dropped by the caller. */
  function Abort<T>(w: World<T>): World<T>
  {
    if w.controller.Some? && w.controller.value in w.loads
    then w.(loads := w.loads[w.controller.value := w.loads[w.controller.value].(aborted := true)]) else w
  }

  function Begun<T>(w: World<T>, throws: bool): World<T>
  {
    if w.disposed then w
    else
      var g := w.generation + 1;
      var previous := w.state;
      var s := Snap(if previous.data.None? then Loading else Ready, previous.data.Some?, previous.data, previous.failure, g);
      var w' := Publish(Abort(w).(generation := g, controller := Some(g)), s);
      // a listener that throws here keeps the loader from being called at all
      if throws then w' else w'.(loads := w'.loads[g := Load(previous, false)])
  }

  /** The catch block of read `g`, whose record is `l`. */
  function Caught<T>(w: World<T>, g: nat, l: Load<T>, failure: string): World<T>
  {
    if w.disposed || g != w.generation || l.aborted then w
    else
      var previous := l.previous;
      Publish(w, Snap(if previous.data.None? then Failed else Ready, false, previous.data, Some(failure), g))
  }

  const ListenerThrew := "a listener threw"

  function Settled<T>(w: World<T>, g: nat, answer: Answer<T>, throws: bool): World<T>
  {
    if g !in w.loads then w
    else
      var l := w.loads[g];
      var w1 := w.(loads := w.loads - {g});
      match answer
      case Success(data) =>
        if w1.disposed || g != w1.generation then w1
        else
          var w2 := Publish(w1, Snap(Ready, false, Some(data), None, g));
          // the publish sits inside the try: what a listener throws lands in the catch
          if throws then Caught(w2, g, l, ListenerThrew) else w2
      case Failure(reason) => Caught(w1, g, l, reason)
  }

  function Next<T>(w: World<T>, e: Event<T>): World<T>
  {
    match e
    case Begin(throws) => Begun(w, throws)
    case Settle(g, answer, throws) => Settled(w, g, answer, throws)
    case Reset =>
      Publish(Abort(w).(generation := w.generation + 1, controller := None), Blank(w.generation + 1))
    case Dispose => Abort(w).(disposed := true, generation := w.generation + 1, controller := None)
  }

  function Run<T>(events: seq<Event<T>>): World<T>
  {
    if events == [] then Start() else Next(Run(events[..|events| - 1]), events[|events| - 1])
  }

  // ----- the invariant ---------------------------------------------------------------

  ghost predicate LoadOk<T>(w: World<T>, g: nat)
    requires g in w.loads
  {
    && 0 < g <= w.generation
    && (g == w.generation ==>
          !w.disposed && !w.loads[g].aborted && w.controller == Some(g)
          && w.state.generation == g && w.state.data == w.loads[g].previous.data)
  }

  ghost predicate Rising<T>(published: seq<Snap<T>>)
  {
    forall i, j | 0 <= i <= j < |published| :: published[i].generation <= published[j].generation
  }

  ghost predicate Inv<T>(w: World<T>)
  {
    && |w.published| > 0 && w.published[|w.published| - 1] == w.state
    && w.state.generation <= w.generation && Rising(w.published)
    && (w.controller.Some? ==> w.controller.value <= w.generation)
    && forall g | g in w.loads :: LoadOk(w, g)
  }

  lemma PublishRises<T>(w: World<T>, s: Snap<T>)
    requires |w.published| > 0 && w.published[|w.published| - 1] == w.state && Rising(w.published)
    requires s.generation >= w.state.generation
    ensures Rising(Publish(w, s).published)
  {
    var n := |w.published| - 1;
    forall i | 0 <= i <= n ensures w.published[i].generation <= s.generation {
      assert w.published[i].generation <= w.published[n].generation;
    }
  }

  lemma BeginKeeps<T>(w: World<T>, throws: bool)
    requires Inv(w)
    ensures Inv(Begun(w, throws))
  {
    if !w.disposed {
      var w' := Begun(w, throws);
      PublishRises(Abort(w).(generation := w.generation + 1, controller := Some(w.generation + 1)), w'.state);
      forall g | g in w'.loads ensures LoadOk(w', g) {
        assert g in w.loads ==> LoadOk(w, g);
      }
    }
  }

  lemma SettleKeeps<T>(w: World<T>, g: nat, answer: Answer<T>, throws: bool)
    requires Inv(w)
    ensures Inv(Settled(w, g, answer, throws))
  {
    if g in w.loads {
      var w' := Settled(w, g, answer, throws);
      assert LoadOk(w, g);
      var w1 := w.(loads := w.loads - {g});
      if g == w.generation {
        if answer.Success? {
          var s := Snap(Ready, false, Some(answer.data), None, g);
          PublishRises(w1, s);
          if throws {
            PublishRises(Publish(w1, s), w'.state);
          }
        } else {
          PublishRises(w1, w'.state);
        }
      }
      forall h | h in w'.loads ensures LoadOk(w', h) {
        assert LoadOk(w, h);
      }
    }
  }

  lemma NextKeeps<T>(w: World<T>, e: Event<T>)
    requires Inv(w)
    ensures Inv(Next(w, e))
  {
    match e
    case Begin(throws) => BeginKeeps(w, throws);
    case Settle(g, answer, throws) => SettleKeeps(w, g, answer, throws);
    case Reset =>
      var w' := Next(w, e);
      PublishRises(Abort(w).(generation := w.generation + 1, controller := None), w'.state);
      forall g | g in w'.loads ensures LoadOk(w', g) { assert LoadOk(w, g); }
    case Dispose =>
      var w' := Next(w, e);
      forall g | g in w'.loads ensures LoadOk(w', g) { assert LoadOk(w, g); }
  }

  lemma {:induction false} RunsKeep<T>(events: seq<Event<T>>)
    ensures Inv(Run(events))
  {
    if events == [] {
    } else {
      RunsKeep(events[..|events| - 1]);
      NextKeeps(Run(events[..|events| - 1]), events[|events| - 1]);
    }
  }

  // ----- what follows, for every run ---------------------------------------------------

  /** Published generations never decrease. */
  lemma GenerationsNeverDecrease<T>(events: seq<Event<T>>, i: nat, j: nat)
    requires i <= j < |Run(events).published|
    ensures Run(events).published[i].generation <= Run(events).published[j].generation
  {
    RunsKeep(events);
  }

  /** An answer publishes exactly when its read is the latest one; a superseded, reset or disposed read changes
      nothing that anybody can see. */
  lemma OnlyTheLatestPublishes<T>(events: seq<Event<T>>, g: nat, answer: Answer<T>, throws: bool)
    requires g in Run(events).loads
    ensures var w, w' := Run(events), Run(events + [Settle(g, answer, throws)]);
            && (w'.published != w.published <==> g == w.generation)
            && (g != w.generation ==> w'.state == w.state)
            && (g == w.generation ==> w'.state.generation == g && !w'.state.refreshing && !w'.state.status.Loading?)
  {
    RunsKeep(events);
    assert LoadOk(Run(events), g);
    assert (events + [Settle(g, answer, throws)])[..|events|] == events;
  }

  /** What a snapshot never says: that data is shown and nothing was loaded, that a refresh is on without data, or that
      there is a failed state with data or without its reason. */
  ghost predicate Honest<T>(s: Snap<T>)
  {
    && (s.status.Ready? <==> s.data.Some?) && (s.refreshing ==> s.data.Some?)
    && (s.status.Failed? ==> s.failure.Some?)
  }

  /** Every read that has been superseded, reset or disposed has its signal aborted, and the latest has not; and every
      snapshot is honest. */
  ghost predicate Signalled<T>(w: World<T>)
  {
    && (forall g | g in w.loads :: Tended(w, g))
    && (forall s | s in w.published :: Honest(s))
  }

  ghost predicate Tended<T>(w: World<T>, g: nat)
    requires g in w.loads
  {
    (w.loads[g].aborted <==> g != w.generation) && Honest(w.loads[g].previous)
  }

  lemma BeginSignals<T>(w: World<T>, throws: bool)
    requires Inv(w) && Signalled(w)
    ensures Signalled(Begun(w, throws))
  {
    var w' := Begun(w, throws);
    assert w.state in w.published;
    forall g | g in w'.loads ensures Tended(w', g) {
      if g in w.loads { assert LoadOk(w, g) && Tended(w, g); }
    }
  }

  lemma SettleSignals<T>(w: World<T>, g: nat, answer: Answer<T>, throws: bool)
    requires Inv(w) && Signalled(w)
    ensures Signalled(Settled(w, g, answer, throws))
  {
    var w' := Settled(w, g, answer, throws);
    if g in w.loads { assert Tended(w, g); }
    forall h | h in w'.loads ensures Tended(w', h) { assert Tended(w, h); }
  }

  lemma EndSignals<T>(w: World<T>, e: Event<T>)
    requires Inv(w) && Signalled(w) && (e.Reset? || e.Dispose?)
    ensures Signalled(Next(w, e))
  {
    var w' := Next(w, e);
    forall g | g in w'.loads ensures Tended(w', g) { assert LoadOk(w, g) && Tended(w, g); }
  }

  lemma NextSignals<T>(w: World<T>, e: Event<T>)
    requires Inv(w) && Signalled(w)
    ensures Signalled(Next(w, e))
  {
    match e
    case Begin(throws) => BeginSignals(w, throws);
    case Settle(g, answer, throws) => SettleSignals(w, g, answer, throws);
    case Reset => EndSignals(w, e);
    case Dispose => EndSignals(w, e);
  }

  lemma {:induction false} SupersededAreAborted<T>(events: seq<Event<T>>)
    ensures Signalled(Run(events))
  {
    if events != [] {
      var before := events[..|events| - 1];
      SupersededAreAborted(before);
      RunsKeep(before);
      NextSignals(Run(before), events[|events| - 1]);
    }
  }

  /** What a read publishes when it begins: the data and the failure shown before, as refreshing if there is data to keep
      and as loading if not; and after a dispose, nothing. */
  lemma BeginShows<T>(events: seq<Event<T>>)
    ensures var w, w' := Run(events), Run(events + [Begin(false)]);
            if w.disposed then w' == w
            else
              && w'.published == w.published + [w'.state] && w'.generation == w.generation + 1 && w'.generation in w'.loads
              && w'.state == Snap(if w.state.data.Some? then Ready else Loading, w.state.data.Some?, w.state.data,
                                  w.state.failure, w'.generation)
  {
    assert (events + [Begin(false)])[..|events|] == events;
  }

  /** What the latest read's answer publishes: a success shows its data and clears the failure; a failure keeps what was
      shown and names its reason. */
  lemma SettledShows<T>(events: seq<Event<T>>, g: nat, answer: Answer<T>)
    requires g in Run(events).loads && g == Run(events).generation
    ensures var before, after := Run(events).state, Run(events + [Settle(g, answer, false)]).state;
            match answer
            case Success(data) => after == Snap(Ready, false, Some(data), None, g)
            case Failure(reason) =>
              after == Snap(if before.data.Some? then Ready else Failed, false, before.data, Some(reason), g)
  {
    RunsKeep(events);
    assert LoadOk(Run(events), g);
    assert (events + [Settle(g, answer, false)])[..|events|] == events;
  }

  /** A snapshot that a success publishes. */
  ghost predicate IsSuccess<T>(s: Snap<T>) { s.status.Ready? && !s.refreshing && s.failure.None? }

  /** Some snapshot the event publishes no longer shows the data the one before it showed, although it is neither a
      newer success nor the blank state of a reset. */
  ghost predicate Drops<T>(w: World<T>, e: Event<T>)
  {
    var w' := Next(w, e);
    e != Reset && exists i | 1 <= i && |w.published| <= i < |w'.published| ::
      w'.published[i - 1].data.Some? && w'.published[i].data != w'.published[i - 1].data && !IsSuccess(w'.published[i])
  }

  lemma SettleDropsIff<T>(w: World<T>, g: nat, answer: Answer<T>, throws: bool)
    requires Inv(w) && g in w.loads
    ensures Drops(w, Settle(g, answer, throws)) <==>
            answer.Success? && throws && g == w.generation && w.state.data != Some(answer.data)
  {
    assert LoadOk(w, g);
    var w', n := Settled(w, g, answer, throws), |w.published|;
    if g == w.generation && answer.Success? && throws {
      assert w'.published[n] == Snap(Ready, false, Some(answer.data), None, g);
      assert w'.published[n + 1].data == w.state.data;
      if w.state.data != Some(answer.data) {
        assert w'.published[(n + 1) - 1].data.Some? && w'.published[n + 1].data != w'.published[(n + 1) - 1].data;
      }
    }
  }

  lemma OthersDropNothing<T>(w: World<T>, e: Event<T>)
    requires Inv(w) && (e.Begin? || e.Dispose? || (e.Settle? && e.g !in w.loads))
    ensures !Drops(w, e)
  {
  }

  /** Published data stops being shown, without a newer success or a reset, exactly when a listener throws while it
      is told of the latest read's success and the value shown before that was another or none: the catch then
      publishes the value the read started from. */
  lemma DataIsDroppedIff<T>(events: seq<Event<T>>, e: Event<T>)
    ensures Drops(Run(events), e) <==>
            && e.Settle? && e.answer.Success? && e.throws && e.g in Run(events).loads
            && e.g == Run(events).generation && Run(events).state.data != Some(e.answer.data)
  {
    RunsKeep(events);
    if e.Settle? && e.g in Run(events).loads {
      SettleDropsIff(Run(events), e.g, e.answer, e.throws);
    } else if e != Reset {
      OthersDropNothing(Run(events), e);
    }
  }

  /** Both ways a success is lost: the first load goes back to no data, a refresh back to the older value. */
  lemma SuccessIsLost<T>(older: T, newer: T)
    requires older != newer
    ensures var first := [Begin(false), Settle(1, Success(newer), true)];
            && Drops(Run(first[..1]), first[1]) && Run(first).state.data == None
    ensures var refresh := [Begin(false), Settle(1, Success(older), false), Begin(false), Settle(2, Success(newer), true)];
            && Drops(Run(refresh[..3]), refresh[3]) && Run(refresh).state.data == Some(older)
  {
    var a: seq<Event<T>> := [Begin(false)];
    var first := [Begin(false), Settle(1, Success(newer), true)];
    assert first[..1] == a && a[..0] == [];
    DataIsDroppedIff(a, first[1]);
    var b := a + [Settle(1, Success(older), false)];
    var c := b + [Begin(false)];
    var refresh := [Begin(false), Settle(1, Success(older), false), Begin(false), Settle(2, Success(newer), true)];
    assert b[..1] == a && c[..2] == b && refresh[..3] == c;
    assert Run(b).state == Snap(Ready, false, Some(older), None, 1);
    assert Run(c).loads.Keys == {2};
    DataIsDroppedIff(c, refresh[3]);
  }

  /** What the resource would be for, without snapshots, controllers or signals: the data of the latest read that
      answered, since the last reset. `told` leaves out an answer whose listener throws while it is told of it. */
  datatype Plain<T> = Plain(generation: nat, disposed: bool, open: set<nat>, data: Option<T>)

  function PlainNext<T>(p: Plain<T>, e: Event<T>, told: bool): Plain<T>
  {
    match e
    case Begin(throws) =>
      if p.disposed then p
      else p.(generation := p.generation + 1, open := if throws then p.open else p.open + {p.generation + 1})
    case Settle(g, answer, throws) =>
      if g !in p.open then p
      else p.(open := p.open - {g},
              data := if g == p.generation && answer.Success? && !(told && throws) then Some(answer.data) else p.data)
    case Reset => p.(generation := p.generation + 1, data := None)
    case Dispose => p.(generation := p.generation + 1, disposed := true)
  }

  function PlainRun<T>(events: seq<Event<T>>, told: bool): Plain<T>
  {
    if events == [] then Plain(0, false, {}, None)
    else PlainNext(PlainRun(events[..|events| - 1], told), events[|events| - 1], told)
  }

  function Shown<T>(w: World<T>): Plain<T> { Plain(w.generation, w.disposed, w.loads.Keys, w.state.data) }

  /** One event from a state that shows the plain one. */
  lemma NextShows<T>(w: World<T>, e: Event<T>, told: bool)
    requires Inv(w)
    ensures var p := PlainNext(Shown(w), e, told);
            Shown(Next(w, e)) == p.(data := if told || !Drops(w, e) then p.data else w.state.data)
  {
    if e.Settle? && e.g in w.loads {
      assert LoadOk(w, e.g);
      assert Next(w, e).loads.Keys == w.loads.Keys - {e.g};
      SettleDropsIff(w, e.g, e.answer, e.throws);
    } else if e.Begin? && !w.disposed {
      assert Abort(w).loads.Keys == w.loads.Keys;
      OthersDropNothing(w, e);
    } else if e != Reset {
      OthersDropNothing(w, e);
    }
  }

  /** The resource shows the data of the latest read that answered and whose listeners all returned, in every
      interleaving. */
  lemma {:induction false} ShowsTheLatestAnswer<T>(events: seq<Event<T>>)
    ensures PlainRun(events, true) == Shown(Run(events))
  {
    if events == [] {
    } else {
      var before, e := events[..|events| - 1], events[|events| - 1];
      ShowsTheLatestAnswer(before);
      RunsKeep(before);
      NextShows(Run(before), e, true);
    }
  }

  ghost predicate ShowsTheLatest<T>(events: seq<Event<T>>) { Run(events).state.data == PlainRun(events, false).data }

  lemma {:induction false} PlainRunsAgree<T>(events: seq<Event<T>>)
    ensures PlainRun(events, false) == PlainRun(events, true).(data := PlainRun(events, false).data)
  {
    if events != [] { PlainRunsAgree(events[..|events| - 1]); }
  }

  /** One event after a run that shows the latest answer: it is still shown unless the event drops data. */
  lemma NextShowsTheLatest<T>(events: seq<Event<T>>, e: Event<T>)
    requires ShowsTheLatest(events)
    ensures ShowsTheLatest(events + [e]) <==> !Drops(Run(events), e)
  {
    PlainRunsAgree(events);
    ShowsTheLatestAnswer(events);
    RunsKeep(events);
    NextShows(Run(events), e, false);
    DataIsDroppedIff(events, e);
    assert (events + [e])[..|events|] == events;
  }

  /** After every event of the run. */
  ghost predicate AlwaysShowsTheLatest<T>(events: seq<Event<T>>)
  {
    ShowsTheLatest(events) && (events != [] ==> AlwaysShowsTheLatest(events[..|events| - 1]))
  }

  ghost predicate NothingDrops<T>(events: seq<Event<T>>)
  {
    events != [] ==>
      && NothingDrops(events[..|events| - 1])
      && !Drops(Run(events[..|events| - 1]), events[|events| - 1])
  }

  /** All along a run the resource shows the data of the latest read that answered, listeners or not, if and only if
      no event of the run drops data. */
  lemma {:induction false} LatestIsShownIff<T>(events: seq<Event<T>>)
    ensures AlwaysShowsTheLatest(events) <==> NothingDrops(events)
  {
    if events != [] {
      var before, e := events[..|events| - 1], events[|events| - 1];
      LatestIsShownIff(before);
      assert events == before + [e];
      if ShowsTheLatest(before) { NextShowsTheLatest(before, e); }
    }
  }

  // ----- the class -------------------------------------------------------------------------

  /** What a pending load carries across its await. */
  datatype Ticket<T> = Ticket(generation: nat, previous: Snap<T>)

  class Resource<T> {
    var state: Snap<T>
    var generation: nat
    var controller: Option<nat>
    var disposed: bool
    var aborted: set<nat>                   // the reads whose signal has fired
    ghost var loads: map<nat, Load<T>>
    ghost var published: seq<Snap<T>>

    /** The fields as one value. */
    ghost function Value(): World<T>
      reads this
    {
      World(state, generation, controller, disposed, loads, published)
    }

    ghost predicate Valid()
      reads this
    {
      && (forall g | g in loads :: 0 < g <= generation && (loads[g].aborted <==> g in aborted))
      && (forall g | g in aborted :: g <= generation) && (controller.Some? ==> controller.value <= generation)
    }

    constructor ()
      ensures Valid() && Value() == Start()
    {
      state, generation, controller, disposed := Blank(0), 0, None, false;
      aborted, loads, published := {}, map[], [Blank(0)];
    }

    method Publish(s: Snap<T>)
      requires Valid()
      modifies `state, `published
      ensures Valid() && state == s && published == old(published) + [s]
    {
      state := s;
      published := published + [s];
    }

    /** controller?.abort() */
    method AbortCurrent()
      requires Valid()
      modifies `aborted, `loads
      ensures Valid() && Value() == Abort(old(Value()))
      ensures aborted == old(aborted) + if controller.Some? then {controller.value} else {}
    {
      if controller.Some? {
        aborted := aborted + {controller.value};
        if controller.value in loads {
          loads := loads[controller.value := loads[controller.value].(aborted := true)];
        }
      }
    }

    /** The synchronous head of load: everything up to the await on the loader. */
    method BeginLoad(throws: bool) returns (ticket: Option<Ticket<T>>)
      requires Valid()
      modifies this
      ensures Valid() && Value() == Begun(old(Value()), throws)
      ensures ticket.Some? <==> !old(disposed) && !throws
      ensures ticket.Some? ==> ticket.value == Ticket(generation, old(state)) && loads[generation] == Load(old(state), false)
    {
      if disposed {
        return None;
      }
      var g := generation + 1;
      AbortCurrent();
      generation := g;
      controller := Some(g);
      var previous := state;
      Publish(Snap(if previous.data.None? then Loading else Ready, previous.data.Some?, previous.data, previous.failure, g));
      if throws {
        return None;
      }
      loads := loads[g := Load(previous, false)];
      ticket := Some(Ticket(g, previous));
    }

    /** What runs when the loader settles. */
    method Finish(t: Ticket<T>, answer: Answer<T>, throws: bool)
      requires Valid() && t.generation in loads && loads[t.generation].previous == t.previous
      modifies this
      ensures Valid() && Value() == Settled(old(Value()), t.generation, answer, throws)
    {
      var failure := None;
      loads := loads - {t.generation};
      match answer {
        case Success(data) =>
          if disposed || t.generation != generation {
            return;
          }
          Publish(Snap(Ready, false, Some(data), None, t.generation));
          if !throws {
            return;
          }
          failure := Some(ListenerThrew);
        case Failure(reason) =>
          failure := Some(reason);
      }
      if disposed || t.generation != generation || t.generation in aborted {
        return;
      }
      Publish(Snap(if t.previous.data.None? then Failed else Ready, false, t.previous.data, failure, t.generation));
    }

    method ResetNow()
      requires Valid()
      modifies this
      ensures Valid() && Value() == Next(old(Value()), Reset)
    {
      generation := generation + 1;
      AbortCurrent();
      controller := None;
      Publish(Blank(generation));
    }

    method DisposeNow()
      requires Valid()
      modifies this
      ensures Valid() && Value() == Next(old(Value()), Dispose)
    {
      disposed := true;
      generation := generation + 1;
      AbortCurrent();
      controller := None;
    }
  }
}
