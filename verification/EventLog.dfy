/**
 * The event log as the source runs it: methods that list, prune, rotate, append and read, each proved against
 * the functions of EvolutionEvents (packages/evolution-core/src/evolution-events.ts).
 */
module EventLog {
  import opened Wrappers
  import opened Order
  import opened EvolutionEvents
  import EventSteps

  /** The rotation's answer: the next active events, or a refusal that aborts the append. */
  datatype RotateOutcome = Rotated(events: seq<Event>) | Declined(reason: Refusal)

  /** What a run of the task leaves that lost its lock: its band and its removals are done, and the active file is what
      another writer left. */
  function AfterLostRun(d: Disk, payload: string, at: RotateAt, spared: set<int>, found: Body): Disk
  {
    var a := Plan(d, payload, at, spared);
    (if a.Refused? then d else ApplyAll(d, a.first + a.removals)).(active := found)
  }

  /** The disk the last attempt sees. */
  function LastAttempt(d: Disk, payload: string, at: RotateAt, spared: set<int>, lost: seq<Body>): Disk
    decreases |lost|
  {
    if lost == [] then d
    else LastAttempt(AfterLostRun(d, payload, at, spared, lost[0]), payload, at, spared, lost[1..])
  }

  /** A run of the task did what its attempt says, short of the commit, and the captured variables tell of it. */
  ghost predicate Ran(a: Attempt, d: Disk, now: Disk, was: seq<Write>, trace: seq<Write>, number: int,
                      refusal: Option<Refusal>, next: Body)
  {
    match a
    case Refused(reason) =>
      && number == 0 && now == d && trace == was && next == d.active
      && reason == (if refusal.Some? then refusal.value else MalformedLog)
    case Appends(first, removals, events, record) =>
      && number == record.num >= 1 && next == BodyOf(events + [record])
      && now == ApplyAll(d, first + removals) && trace == was + first + removals
  }

  /** The same after the commit. */
  ghost predicate Committed(a: Attempt, d: Disk, now: Disk, was: seq<Write>, trace: seq<Write>, number: int,
                            refusal: Option<Refusal>)
  {
    match a
    case Refused(reason) =>
      number == 0 && now == d && trace == was && reason == (if refusal.Some? then refusal.value else MalformedLog)
    case Appends(first, removals, events, record) =>
      && number == record.num >= 1 && now.active == BodyOf(events + [record])
      && now == ApplyAll(d, first + removals + [PutActive(now.active)])
      && trace == was + first + removals + [PutActive(now.active)]
  }

  lemma Commits(a: Attempt, d: Disk, now: Disk, was: seq<Write>, trace: seq<Write>, number: int, refusal: Option<Refusal>,
                next: Body)
    requires Ran(a, d, now, was, trace, number, refusal, next)
    ensures if number == 0 then Committed(a, d, now, was, trace, number, refusal)
            else Committed(a, d, now.(active := next), was, trace + [PutActive(next)], number, refusal)
  {
    if a.Appends? { LastWrite(d, a.first + a.removals, next); }
  }

  lemma LastWrite(d: Disk, ws: seq<Write>, body: Body)
    ensures ApplyAll(d, ws + [PutActive(body)]) == ApplyAll(d, ws).(active := body)
  {
    assert (ws + [PutActive(body)])[..|ws|] == ws;
  }

  lemma RemovalStep(start: Disk, names: seq<int>, spared: set<int>, i: nat)
    requires i < |names|
    ensures var (before, after) := (Removals(names[..i], spared), Removals(names[..i + 1], spared));
            if names[i] in spared then after == before
            else && after == before + [Remove(names[i])]
                 && ApplyAll(start, after) == Apply(ApplyAll(start, before), Remove(names[i]))
  {
    assert names[..i + 1][..i] == names[..i];
    var before := Removals(names[..i], spared);
    ApplyAllConcat(start, before, [Remove(names[i])]);
    ApplyOne(ApplyAll(start, before), [Remove(names[i])]);
  }

  method MergeBands(prior: seq<Event>, head: seq<Event>) returns (band: seq<Event>)
    ensures band == Merge(prior, head)
  {
    var byNum: map<int, Event> := map[];
    for i := 0 to |prior|
      invariant byNum == Index(prior[..i])
    {
      assert prior[..i + 1][..i] == prior[..i];
      byNum := byNum[prior[i].num := prior[i]];
    }
    assert prior[..|prior|] == prior;
    for i := 0 to |head|
      invariant byNum == Index(prior) + Index(head[..i])
    {
      assert head[..i + 1][..i] == head[..i];
      byNum := byNum[head[i].num := head[i]];
    }
    assert head[..|head|] == head;
    band := ByNumber(byNum);
  }

  /** Remove the named archives one by one; a removal in `spared` fails and is skipped. */
  method RemoveEach(ghost start: Disk, names: seq<int>, spared: set<int>, files: map<int, Body>)
    returns (left: map<int, Body>, ghost writes: seq<Write>)
    requires files == start.files
    ensures writes == Removals(names, spared) && start.(files := left) == ApplyAll(start, writes)
  {
    left, writes := files, [];
    for i := 0 to |names|
      invariant writes == Removals(names[..i], spared)
      invariant start.(files := left) == ApplyAll(start, writes)
    {
      RemovalStep(start, names, spared, i);
      writes := Removals(names[..i + 1], spared);
      if names[i] !in spared { left := left - {names[i]}; }
    }
    assert names[..|names|] == names;
  }

  /** The reader's pass over the archives. */
  method MergeArchives(names: seq<int>, files: map<int, Body>) returns (byNum: map<int, Event>, malformed: bool)
    requires forall k | k in names :: k in files
    ensures byNum == MergeFiles(names, files)
    ensures malformed <==> exists k | k in names :: Malformed(files[k])
  {
    byNum, malformed := map[], false;
    for i := 0 to |names|
      invariant byNum == MergeFiles(names[..i], files)
      invariant malformed <==> exists k | k in names[..i] :: Malformed(files[k])
    {
      assert names[..i + 1][..i] == names[..i];
      assert forall k :: k in names[..i + 1] <==> k in names[..i] || k == names[i];
      var body := files[names[i]];
      if Malformed(body) { malformed := true; }
      byNum := byNum + Index(Readable(body));
    }
    assert names[..|names|] == names;
  }

  method NextNumber(events: seq<Event>, names: seq<int>) returns (num: int)
    ensures num == MaxWith(MaxNum(events), names) + 1
  {
    var max := 0;
    for i := 0 to |events|
      invariant max == MaxNum(events[..i])
    {
      assert events[..i + 1][..i] == events[..i];
      if events[i].num > max { max := events[i].num; }
    }
    assert events[..|events|] == events;
    for i := 0 to |names|
      invariant max == MaxWith(MaxNum(events), names[..i])
    {
      assert names[..i + 1][..i] == names[..i];
      if names[i] > max { max := names[i]; }
    }
    assert names[..|names|] == names;
    num := max + 1;
  }

  /** A rotation was carried out as planned: its writes, in order, and the events it leaves. */
  ghost predicate Carried(plan: Rotation, r: RotateOutcome, before: Disk, now: Disk, was: seq<Write>, trace: seq<Write>)
  {
    match plan
    case Declined(reason) => r == RotateOutcome.Declined(reason) && now == before && trace == was
    case Rotated(first, removals, events) =>
      r == RotateOutcome.Rotated(events) && now == ApplyAll(before, first + removals) && trace == was + first + removals
  }

  /** The variables one append keeps outside its task, which the lock layer may run more than once. */
  class Captured {
    var number: int
    var refusal: Option<Refusal>
    var parsed: Body            // Missing while nothing has been parsed

    constructor ()
      ensures number == 0 && refusal == None && parsed == Missing
    {
      number, refusal, parsed := 0, None, Missing;
    }
  }

  class Log {
    var active: Body
    var files: map<int, Body>
    var aside: seq<seq<Event>>
    /** Every durable write so far, oldest first: a crash leaves the disk after a prefix of it. */
    ghost var trace: seq<Write>

    ghost function Now(): Disk
      reads this
    {
      Disk(active, files, aside)
    }

    constructor ()
      ensures Now() == EmptyDisk && trace == []
    {
      active, files, aside, trace := Missing, map[], [], [];
    }

    /** The numeric archives, each once, in ascending order. */
    method ListEventArchives() returns (names: seq<int>)
      ensures Rising(names) && forall k :: k in names <==> k in Listed(files)
    {
      names := Ascending(Listed(files));
    }

    /** Best effort: the removals in `spared` fail and change nothing. */
    method RetainEventArchives(spared: set<int>)
      modifies this
      ensures Now() == ApplyAll(old(Now()), Retention(old(files), spared))
      ensures trace == old(trace) + Retention(old(files), spared)
    {
      var names := ListEventArchives();
      RisingUnique(names, Ascending(Listed(files)));
      ghost var writes;
      files, writes := RemoveEach(Now(), Excess(names), spared, files);
      trace := trace + writes;
    }

    /** The rotation's one band write, and the pruning after it. */
    method WriteBand(w: Write, spared: set<int>)
      requires w.PutArchive? || w.PutAside?
      modifies this
      ensures Now() == ApplyAll(old(Now()), [w] + Retention(Apply(old(Now()), w).files, spared))
      ensures trace == old(trace) + [w] + Retention(Apply(old(Now()), w).files, spared)
    {
      ghost var start := Now();
      match w {
        case PutArchive(k, body) => files := files[k := body];
        case PutAside(band) => aside := aside + [band];
      }
      trace := trace + [w];
      ApplyOne(start, [w]);
      ApplyAllConcat(start, [w], Retention(files, spared));
      RetainEventArchives(spared);
    }

    method RotateIfDue(events: seq<Event>, at: RotateAt, spared: set<int>) returns (r: RotateOutcome)
      requires events == Readable(active)
      modifies this
      ensures Carried(Rotate(old(Now()), at, spared), r, old(Now()), Now(), old(trace), trace)
    {
      if !Due(events, at) {
        assert trace + [] + [] == trace;
        return RotateOutcome.Rotated(events);
      }
      var mid := Mid(events);
      r := Split(at, events[..mid], events[mid..], spared);
    }

    /** The rotation is due: the head goes to the archive below the tail's first number. */
    method Split(ghost at: RotateAt, head: seq<Event>, tail: seq<Event>, spared: set<int>) returns (r: RotateOutcome)
      requires var events := Readable(active); Due(events, at) && head == Head(events) && tail == Tail(events)
      modifies this
      ensures Carried(Rotate(old(Now()), at, spared), r, old(Now()), Now(), old(trace), trace)
    {
      var k := tail[0].num - 1;
      var archived := head;
      var existing := if k in files then files[k] else Missing;
      if existing.Unreadable? {
        return RotateOutcome.Declined(CollisionUnreadable);
      }
      if !existing.Missing? {
        if existing.Blank? || existing.Unparsable? {
          WriteBand(PutAside(head), spared);
          return RotateOutcome.Rotated(tail);
        }
        if existing.version.Foreign? || existing.entries.None? {
          return RotateOutcome.Declined(CollisionUnmergeable);
        }
        archived := MergeBands(Readable(existing), head);
      }
      WriteBand(PutArchive(k, BodyOf(archived)), spared);
      return RotateOutcome.Rotated(tail);
    }

    /** One run of the append task over the current disk; the commit of `next` is the caller's. Whatever an earlier run
        left in the captured variables, they tell what this one found. */
    method AppendTask(captured: Captured, payload: string, at: RotateAt, spared: set<int>) returns (next: Body)
      modifies this, captured
      ensures Ran(Plan(old(Now()), payload, at, spared), old(Now()), Now(), old(trace), trace, captured.number,
                  captured.refusal, next)
    {
      captured.parsed, captured.refusal, captured.number := Missing, None, 0;
      if active.Unreadable? || active.Unparsable? {
        return active;
      }
      if active.Parsed? {
        captured.parsed := active;
        if active.version.Foreign? {
          captured.refusal := Some(VersionMismatch);
          return active;
        }
      }
      var rotated := RotateIfDue(Readable(captured.parsed), at, spared);
      match rotated {
        case Declined(reason) =>
          captured.refusal := Some(reason);
          return active;
        case Rotated(events) =>
          var names := ListEventArchives();
          RisingUnique(names, Ascending(Listed(files)));
          captured.number := NextNumber(events, names);
          return BodyOf(events + [Event(captured.number, payload)]);
      }
    }

    /** A run of the task whose write is thrown away: the lock was lost, and another writer left `found`. */
    method LostRun(captured: Captured, payload: string, at: RotateAt, spared: set<int>, found: Body)
      modifies this, captured
      ensures Now() == AfterLostRun(old(Now()), payload, at, spared, found)
    {
      var next := AppendTask(captured, payload, at, spared);
      active := found;
    }

    /** The run of the task that keeps its lock. */
    method LastRun(captured: Captured, payload: string, at: RotateAt, spared: set<int>)
      modifies this, captured
      ensures Committed(Plan(old(Now()), payload, at, spared), old(Now()), Now(), old(trace), trace, captured.number,
                        captured.refusal)
    {
      var next := AppendTask(captured, payload, at, spared);
      Commits(Plan(old(Now()), payload, at, spared), old(Now()), Now(), old(trace), trace, captured.number, captured.refusal,
              next);
      if captured.number != 0 {
        active := next;
        trace := trace + [PutActive(next)];
      }
    }

    /** The append: the lock layer may lose its claim and rerun the task, each time over the active body it
        then finds. A returned number belongs to the last attempt, whose committed body ends with exactly this
        event; a refusal leaves the active body as the last attempt read it. */
    method AppendEvolutionEvent(payload: string, at: RotateAt, spared: set<int>, lost: seq<Body>)
      returns (r: Result<int, Refusal>)
      modifies this
      ensures var d := LastAttempt(old(Now()), payload, at, spared, lost);
              match Plan(d, payload, at, spared)
              case Refused(reason) => r == Err(reason) && Now() == d
              case Appends(first, removals, events, record) =>
                && r == Ok(record.num) && record.payload == payload
                && Now() == ApplyAll(d, first + removals + [PutActive(BodyOf(events + [record]))])
                && active == BodyOf(events + [record])
                && (lost == [] ==> trace == old(trace) + first + removals + [PutActive(active)])
      ensures var d := LastAttempt(old(Now()), payload, at, spared, lost);
              && (r.Err? <==> Malformed(d.active) || EventSteps.Blocked(d, at))
              && (r.Err? ==> Now() == d)
              && (r == Err(VersionMismatch) <==> d.active.Parsed? && d.active.version.Foreign?)
              && (r == Err(MalformedLog) <==> d.active.Unreadable? || d.active.Unparsable?)
    {
      EventSteps.RefusedIff(LastAttempt(Now(), payload, at, spared, lost), payload, at, spared);
      var captured := new Captured();
      for i := 0 to |lost|
        invariant fresh(captured) && (lost == [] ==> trace == old(trace))
        invariant LastAttempt(Now(), payload, at, spared, lost[i..]) == LastAttempt(old(Now()), payload, at, spared, lost)
      {
        assert lost[i..][0] == lost[i] && lost[i..][1..] == lost[i + 1..];
        LostRun(captured, payload, at, spared, lost[i]);
      }
      assert lost[|lost|..] == [];
      LastRun(captured, payload, at, spared);
      if captured.number == 0 {
        return Err(if captured.refusal.Some? then captured.refusal.value else MalformedLog);
      }
      return Ok(captured.number);
    }

    /** The reader: archives oldest first, the active file last, sorted; a file it cannot take in full sets
        the flag and is skipped. */
    method ReadEvolutionTimeline() returns (events: seq<Event>, malformed: bool)
      ensures events == ByNumber(Timeline(Now()))
      ensures malformed <==> Malformed(active) || exists k | k in Listed(files) :: Malformed(files[k])
    {
      var names := ListEventArchives();
      RisingUnique(names, Ascending(Listed(files)));
      var byNum;
      byNum, malformed := MergeArchives(names, files);
      if Malformed(active) { malformed := true; }
      events := ByNumber(byNum + Index(Readable(active)));
    }
  }
}
