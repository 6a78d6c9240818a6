/**
 * The self-evolution event log: active file, numeric archives, midpoint rotation, collision merge,
 * retention and the seq-deduped timeline (packages/evolution-core/src/evolution-events.ts).
 */
module EvolutionEvents {
  import opened Wrappers
  import opened Order

  // ----- bodies ---------------------------------------------------------------

  /** One event: its global order key and everything else it carries. */
  datatype Event = Event(num: int, payload: string)

  /** An element of a body's `events` array; anything without a finite numeric key is damaged. */
  datatype Entry = Record(event: Event) | Damaged

  datatype Version = Unversioned | Current | Foreign

  /** What a read of one log file can find. `Unparsable` includes a JSON `null` body, `entries.None?` a body
      whose `events` is not an array. */
  datatype Body =
    | Missing
    | Blank
    | Unparsable
    | Unreadable
    | Parsed(version: Version, entries: Option<seq<Entry>>)

  function Records(entries: seq<Entry>): (r: seq<Event>)
    ensures |r| <= |entries|
  {
    if entries == [] then []
    else if entries[0].Record? then [entries[0].event] + Records(entries[1..])
    else Records(entries[1..])
  }

  /** The events a version-1 reader takes from a body. */
  function Readable(b: Body): seq<Event>
  {
    if b.Parsed? && !b.version.Foreign? && b.entries.Some? then Records(b.entries.value) else []
  }

  /** The reader's `malformed` flag for one file. */
  predicate Malformed(b: Body) { b.Unreadable? || b.Unparsable? || (b.Parsed? && b.version.Foreign?) }

  function BodyOf(events: seq<Event>): Body
  {
    Parsed(Current, Some(seq(|events|, i requires 0 <= i < |events| => Record(events[i]))))
  }

  lemma {:induction false} ReadsBack(events: seq<Event>)
    ensures Readable(BodyOf(events)) == events
  {
    if events != [] {
      ReadsBack(events[1..]);
      assert BodyOf(events).entries.value[1..] == BodyOf(events[1..]).entries.value;
    }
  }

  predicate RisingNums(events: seq<Event>)
  {
    forall i, j | 0 <= i < j < |events| :: events[i].num < events[j].num
  }

  // ----- the directory --------------------------------------------------------

  /** The log directory: the active file, the files named `events-<k>.json`, and the bands preserved under
      collision names that no reader accepts. */
  datatype Disk = Disk(active: Body, files: map<int, Body>, aside: seq<seq<Event>>)

  const EmptyDisk := Disk(Missing, map[], [])

  /** Only strictly numeric names are archives: `events--1.json` is not one. */
  function Listed(files: map<int, Body>): set<int> { set k | k in files && k >= 0 }

  function Lookup(d: Disk, k: int): Body { if k in d.files then d.files[k] else Missing }

  datatype Write = PutActive(body: Body) | PutArchive(k: int, body: Body) | PutAside(band: seq<Event>) | Remove(k: int)

  /** Every durable write is one atomic step. */
  function Apply(d: Disk, w: Write): Disk
  {
    match w
    case PutActive(b) => d.(active := b)
    case PutArchive(k, b) => d.(files := d.files[k := b])
    case PutAside(band) => d.(aside := d.aside + [band])
    case Remove(k) => d.(files := d.files - {k})
  }

  function ApplyAll(d: Disk, ws: seq<Write>): Disk
  {
    if ws == [] then d else Apply(ApplyAll(d, ws[..|ws| - 1]), ws[|ws| - 1])
  }

  lemma {:induction false} ApplyAllConcat(d: Disk, a: seq<Write>, b: seq<Write>)
    ensures ApplyAll(d, a + b) == ApplyAll(ApplyAll(d, a), b)
  {
    if b == [] {
      assert a + b == a;
    } else {
      ApplyAllConcat(d, a, b[..|b| - 1]);
      assert (a + b)[..|a + b| - 1] == a + b[..|b| - 1];
    }
  }

  lemma ApplyOne(d: Disk, ws: seq<Write>)
    requires |ws| == 1
    ensures ApplyAll(d, ws) == Apply(d, ws[0])
  {
    assert ws[..0] == [];
    assert ApplyAll(d, ws[..0]) == d;
  }

  // ----- rotation -------------------------------------------------------------

  const EVENT_LOG_RETAIN_ARCHIVES := 10

  /** The rotation threshold a caller passes; NaN and the infinities never rotate. */
  datatype RotateAt = NotFinite | At(n: int)

  predicate Due(events: seq<Event>, at: RotateAt) { at.At? && at.n >= 2 && |events| >= at.n }

  function Mid(events: seq<Event>): nat { (|events| + 1) / 2 }

  function Head(events: seq<Event>): seq<Event> { events[..Mid(events)] }

  function Tail(events: seq<Event>): seq<Event> { events[Mid(events)..] }

  /** The number in the archive's name: one below the first event that stays. */
  function ArchiveNumber(events: seq<Event>): int
    requires |events| >= 2
  {
    Tail(events)[0].num - 1
  }

  /** A band keyed by number; of two records with one number the later one wins. */
  function Index(events: seq<Event>): map<int, Event>
  {
    if events == [] then map[] else Index(events[..|events| - 1])[events[|events| - 1].num := events[|events| - 1]]
  }

  function ByNumber(m: map<int, Event>): (r: seq<Event>)
    ensures |r| == |m|
  {
    var nums := Ascending(m.Keys);
    seq(|nums|, i requires 0 <= i < |nums| => assert nums[i] in nums; m[nums[i]])
  }

  /** Both generations of a colliding archive: the head's copy wins on equal numbers. */
  function Merge(prior: seq<Event>, head: seq<Event>): seq<Event> { ByNumber(Index(prior) + Index(head)) }

  /** The archives retention drops: all but the newest ten, except those whose removal failed. */
  function Excess(names: seq<int>): seq<int>
  {
    if |names| <= EVENT_LOG_RETAIN_ARCHIVES then [] else names[..|names| - EVENT_LOG_RETAIN_ARCHIVES]
  }

  function Removals(names: seq<int>, spared: set<int>): seq<Write>
  {
    if names == [] then [] else
      var last := names[|names| - 1];
      Removals(names[..|names| - 1], spared) + (if last in spared then [] else [Remove(last)])
  }

  function Retention(files: map<int, Body>, spared: set<int>): seq<Write>
  {
    Removals(Excess(Ascending(Listed(files))), spared)
  }

  datatype Refusal = MalformedLog | VersionMismatch | CollisionUnreadable | CollisionUnmergeable

  /** A rotation writes at most one band, prunes, and leaves `events` for the active file. */
  datatype Rotation = Declined(reason: Refusal) | Rotated(first: seq<Write>, removals: seq<Write>, events: seq<Event>)

  function Rotate(d: Disk, at: RotateAt, spared: set<int>): Rotation
  {
    var events := Readable(d.active);
    if !Due(events, at) then Rotated([], [], events) else
      var k := ArchiveNumber(events);
      var existing := Lookup(d, k);
      if existing.Unreadable? then Declined(CollisionUnreadable)
      else if existing.Blank? || existing.Unparsable? then
        Rotated([PutAside(Head(events))], Retention(d.files, spared), Tail(events))
      else if existing.Parsed? && (existing.version.Foreign? || existing.entries.None?) then
        Declined(CollisionUnmergeable)
      else
        var band := BodyOf(if existing.Missing? then Head(events) else Merge(Readable(existing), Head(events)));
        Rotated([PutArchive(k, band)], Retention(d.files[k := band], spared), Tail(events))
  }

  // ----- append ---------------------------------------------------------------

  function MaxNum(events: seq<Event>): (r: int)
    ensures r >= 0 && forall e | e in events :: e.num <= r
  {
    if events == [] then 0 else
      var rest := MaxNum(events[..|events| - 1]);
      var last := events[|events| - 1].num;
      assert forall e | e in events :: e in events[..|events| - 1] || e == events[|events| - 1];
      if last > rest then last else rest
  }

  function MaxWith(base: int, names: seq<int>): (r: int)
    ensures r >= base && forall k | k in names :: k <= r
    ensures r == base || r in names
  {
    if names == [] then base else
      var rest := MaxWith(base, names[..|names| - 1]);
      var last := names[|names| - 1];
      assert forall k | k in names :: k in names[..|names| - 1] || k == last;
      if last > rest then last else rest
  }

  /** One attempt of the append task: either nothing is written, or at most one band, then the removals,
      then the new active body. */
  datatype Attempt =
    | Refused(reason: Refusal)
    | Appends(first: seq<Write>, removals: seq<Write>, events: seq<Event>, record: Event)
  {
    function Writes(): seq<Write>
      requires Appends?
    {
      first + removals + [PutActive(BodyOf(events + [record]))]
    }
  }

  function Plan(d: Disk, payload: string, at: RotateAt, spared: set<int>): Attempt
  {
    if d.active.Unreadable? || d.active.Unparsable? then Refused(MalformedLog)
    else if d.active.Parsed? && d.active.version.Foreign? then Refused(VersionMismatch)
    else match Rotate(d, at, spared)
      case Declined(reason) => Refused(reason)
      case Rotated(first, removals, events) =>
        var names := Ascending(Listed(ApplyAll(d, first + removals).files));
        Appends(first, removals, events, Event(MaxWith(MaxNum(events), names) + 1, payload))
  }

  /** The disk after the first `i` writes of an attempt: a crash, or a write failure, stops there. */
  function After(d: Disk, a: Attempt, i: nat): Disk
    requires a.Appends? && i <= |a.Writes()|
  {
    ApplyAll(d, a.Writes()[..i])
  }

  // ----- the timeline ---------------------------------------------------------

  function MergeFiles(names: seq<int>, files: map<int, Body>): map<int, Event>
  {
    if names == [] then map[] else
      var k := names[|names| - 1];
      MergeFiles(names[..|names| - 1], files) + Index(Readable(if k in files then files[k] else Missing))
  }

  /** The merged view a reader publishes, keyed by number: archives oldest first, then the active file. */
  function Timeline(d: Disk): map<int, Event>
  {
    MergeFiles(Ascending(Listed(d.files)), d.files) + Index(Readable(d.active))
  }

  /** Some file the timeline reads holds this very event. */
  ghost predicate Holds(d: Disk, e: Event)
  {
    || e in Readable(d.active)
    || exists k :: k in Listed(d.files) && e in Readable(d.files[k])
  }

  // ----- invariants -----------------------------------------------------------

  /** What every run keeps, whatever happens to the files from outside: the active file is strictly
      ascending and archive `k` holds nothing above `k`. */
  ghost predicate Sound(d: Disk)
  {
    && RisingNums(Readable(d.active)) && (forall e | e in Readable(d.active) :: e.num >= 1)
    && forall k: int, e: Event | k in Listed(d.files) && e in Readable(d.files[k]) :: 1 <= e.num <= k
  }

  /** All copies of one number are the same event. Restoring an older active file breaks this. */
  ghost predicate Agree(d: Disk)
  {
    forall e: Event, e': Event | Holds(d, e) && Holds(d, e') && e.num == e'.num :: e == e'
  }

  ghost predicate HasNum(events: seq<Event>, n: int) { exists e | e in events :: e.num == n }

  lemma {:induction false} IndexHas(events: seq<Event>)
    ensures forall n :: n in Index(events) <==> HasNum(events, n)
    ensures forall n | n in Index(events) :: Index(events)[n] in events && Index(events)[n].num == n
    ensures RisingNums(events) ==> forall e | e in events :: e.num in Index(events) && Index(events)[e.num] == e
  {
    if events != [] {
      var init, last := events[..|events| - 1], events[|events| - 1];
      IndexHas(init);
      assert forall e: Event :: e in events <==> e in init || e == last;
      if RisingNums(events) {
        forall e | e in init ensures e.num != last.num {
          var i :| 0 <= i < |init| && init[i] == e;
          assert events[i].num < events[|events| - 1].num;
        }
      }
    }
  }

  lemma ByNumberHas(m: map<int, Event>)
    requires forall n | n in m :: m[n].num == n
    ensures RisingNums(ByNumber(m))
    ensures forall e: Event :: e in ByNumber(m) <==> e.num in m && m[e.num] == e
  {
    var nums, all := Ascending(m.Keys), ByNumber(m);
    assert |all| == |nums|;
    forall i | 0 <= i < |nums| ensures nums[i] in m && all[i] == m[nums[i]] && all[i].num == nums[i] {
      assert nums[i] in nums;
    }
    forall e | e in all ensures e.num in m && m[e.num] == e {
      var i :| 0 <= i < |all| && all[i] == e;
    }
    forall e: Event | e.num in m && m[e.num] == e ensures e in all {
      assert e.num in nums;
      var i :| 0 <= i < |nums| && nums[i] == e.num;
      assert all[i] == e;
    }
  }

  /** A collision merge keeps the union of both bands, ascending, and the head wins on equal numbers. */
  lemma MergeIsUnion(prior: seq<Event>, head: seq<Event>)
    requires RisingNums(head)
    ensures RisingNums(Merge(prior, head))
    ensures forall n :: HasNum(Merge(prior, head), n) <==> HasNum(prior, n) || HasNum(head, n)
    ensures forall e | e in head :: e in Merge(prior, head)
    ensures forall e | e in Merge(prior, head) :: e in head || (e in prior && !HasNum(head, e.num))
  {
    IndexHas(prior);
    IndexHas(head);
    var m := Index(prior) + Index(head);
    ByNumberHas(m);
    forall n | n in m ensures HasNum(Merge(prior, head), n) { assert m[n] in Merge(prior, head); }
  }

  lemma {:induction false} MergeFilesHas(names: seq<int>, files: map<int, Body>)
    requires forall k | k in names :: k in files
    ensures forall n :: n in MergeFiles(names, files)
                   <==> exists k: int, e: Event :: k in names && e in Readable(files[k]) && e.num == n
    ensures forall n | n in MergeFiles(names, files) ::
              && MergeFiles(names, files)[n].num == n
              && exists k :: k in names && MergeFiles(names, files)[n] in Readable(files[k])
  {
    if names != [] {
      var init, last := names[..|names| - 1], names[|names| - 1];
      MergeFilesHas(init, files);
      IndexHas(Readable(files[last]));
      assert forall k :: k in names <==> k in init || k == last;
    }
  }

  /** When the copies agree the timeline is exactly what the files hold. */
  lemma TimelineIsHeld(d: Disk)
    ensures forall n :: n in Timeline(d) <==> exists e: Event :: Holds(d, e) && e.num == n
    ensures forall n | n in Timeline(d) :: Holds(d, Timeline(d)[n]) && Timeline(d)[n].num == n
    ensures Agree(d) ==> forall e: Event :: Holds(d, e) <==> e.num in Timeline(d) && Timeline(d)[e.num] == e
  {
    var names := Ascending(Listed(d.files));
    MergeFilesHas(names, d.files);
    IndexHas(Readable(d.active));
  }
}
