/**
 * The per-path promise chain behind writeText and transact, and the sweep that runs at the head of every task
 * (packages/evolution-core/src/io.ts). One process, any number of paths, any interleaving of promise callbacks.
 */
module WriteQueue {
  import opened Wrappers
  import Decimal
  import TmpName

  type Content = string

  /** A directory and a name in it. */
  datatype Path = Path(dir: string, base: string)

  /** What a task decides once it has seen the current content. */
  datatype Verdict = Reject | Keep | Remove | Replace(next: Content)

  /** Every task as a function of the content it reads; a writeText replaces whatever it finds. */
  type Tasks = (nat, Option<Content>) -> Verdict

  datatype Phase =
    | Waiting                                // behind the chain
    | Started
    | Swept
    | HasRead(seen: Option<Content>)
    | Writing(next: Content, tmp: Path)      // the staged file exists, the rename is to come
    | Finished                               // the callback's promise has its outcome
    | Settled                                // and the chain has seen it

  datatype Entry = Entry(path: Path, prev: Option<nat>, phase: Phase, applied: bool)

  /** `queues` names the entry whose settled promise is the tail of a path's chain. */
  datatype State = State(queues: map<Path, nat>, entries: seq<Entry>, disk: map<Path, Content>, tmps: set<Path>)

  function Get(d: map<Path, Content>, p: Path): Option<Content> { if p in d then Some(d[p]) else None }

  datatype Step =
    | Enqueue(path: Path)
    | Start(i: nat)                                   // previous.then(run, run) fires
    | Sweep(i: nat, stale: set<Path>)                 // `stale`: foreign leftovers old enough to go
    | ReadIt(i: nat)
    | Decide(i: nat, rand: string, opens: bool)       // the task's verdict; staging or removing may fail
    | Rename(i: nat, ok: bool)
    | Settle(i: nat)
    | Cleanup(i: nat)                                 // the finally of the call that enqueued entry i

  predicate IsSettled(s: State, i: nat) { i < |s.entries| && s.entries[i].phase.Settled? }

  /** This process's own leftovers of the path, by name alone. */
  predicate OwnLeftover(pid: nat, p: Path, q: Path)
  {
    q.dir == p.dir &&
    var parts := TmpName.Parse(q.base);
    parts.Some? && parts.value.base == p.base && Decimal.Read(parts.value.digits) == pid
  }

  /** A foreign staging file of the path whose holder is dead: what an aged file needs to be swept. */
  predicate DeadLeftover(pid: nat, alive: set<nat>, p: Path, q: Path)
  {
    q.dir == p.dir &&
    var parts := TmpName.Parse(q.base);
    parts.Some? && parts.value.base == p.base
    && (Decimal.Read(parts.value.digits) == 0 || Decimal.Read(parts.value.digits) !in alive)
  }

  function SweptFrom(pid: nat, alive: set<nat>, p: Path, tmps: set<Path>, stale: set<Path>): set<Path>
  {
    set q | q in tmps && !OwnLeftover(pid, p, q) && !(q in stale && DeadLeftover(pid, alive, p, q))
  }

  function With(s: State, i: nat, phase: Phase): State
    requires i < |s.entries|
  {
    s.(entries := s.entries[i := s.entries[i].(phase := phase)])
  }

  function TmpPath(pid: nat, p: Path, rand: string): Path { Path(p.dir, TmpName.Make(p.base, pid, rand)) }

  function Done(s: State, i: nat, applied: bool): State
    requires i < |s.entries|
  {
    s.(entries := s.entries[i := s.entries[i].(phase := Finished, applied := applied)])
  }

  /** The whole system's parameters: the tasks, this process, the live processes. */
  datatype Env = Env(run: Tasks, pid: nat, alive: set<nat>)

  function Next(env: Env, s: State, step: Step): State
  {
    match step
    case Enqueue(path) =>
      var prev := if path in s.queues then Some(s.queues[path]) else None;
      s.(queues := s.queues[path := |s.entries|], entries := s.entries + [Entry(path, prev, Waiting, false)])
    case Start(i) =>
      if i < |s.entries| && s.entries[i].phase.Waiting? && (s.entries[i].prev.None? || IsSettled(s, s.entries[i].prev.value))
      then With(s, i, Started) else s
    case Sweep(i, stale) =>
      if i < |s.entries| && s.entries[i].phase.Started?
      then With(s, i, Swept).(tmps := SweptFrom(env.pid, env.alive, s.entries[i].path, s.tmps, stale)) else s
    case ReadIt(i) =>
      if i < |s.entries| && s.entries[i].phase.Swept? then With(s, i, HasRead(Get(s.disk, s.entries[i].path))) else s
    case Decide(i, rand, opens) =>
      if i < |s.entries| && s.entries[i].phase.HasRead? then Decided(env, s, i, rand, opens) else s
    case Rename(i, ok) =>
      if i < |s.entries| && s.entries[i].phase.Writing? then Renamed(s, i, ok) else s
    case Settle(i) =>
      if i < |s.entries| && s.entries[i].phase.Finished? then With(s, i, Settled) else s
    case Cleanup(i) =>
      if IsSettled(s, i) && s.entries[i].path in s.queues && s.queues[s.entries[i].path] == i
      then s.(queues := s.queues - {s.entries[i].path}) else s
  }

  function Decided(env: Env, s: State, i: nat, rand: string, opens: bool): State
    requires i < |s.entries| && s.entries[i].phase.HasRead?
  {
    var e := s.entries[i];
    match env.run(i, e.phase.seen)
    case Reject => Done(s, i, false)
    case Keep => Done(s, i, true)
    case Remove => if opens then Done(s, i, true).(disk := s.disk - {e.path}) else Done(s, i, false)
    case Replace(next) =>
      var tmp := TmpPath(env.pid, e.path, rand);
      // the staged file is opened exclusively
      if opens && tmp !in s.tmps && rand != "" && TmpName.AllHex(rand)
      then With(s, i, Writing(next, tmp)).(tmps := s.tmps + {tmp}) else Done(s, i, false)
  }

  function Renamed(s: State, i: nat, ok: bool): State
    requires i < |s.entries| && s.entries[i].phase.Writing?
  {
    var e := s.entries[i];
    var s' := s.(tmps := s.tmps - {e.phase.tmp});
    if ok && e.phase.tmp in s.tmps then Done(s', i, true).(disk := s.disk[e.path := e.phase.next])
    else Done(s', i, false)
  }

  function Run(env: Env, init: State, steps: seq<Step>): State
  {
    if steps == [] then init else Next(env, Run(env, init, steps[..|steps| - 1]), steps[|steps| - 1])
  }

  /** A fresh process over any directory contents. */
  predicate Fresh(s: State) { s.queues == map[] && s.entries == [] }

  // ----- what a run must amount to --------------------------------------------------

  function Apply(v: Verdict, c: Option<Content>): Option<Content>
  {
    match v
    case Reject => c
    case Keep => c
    case Remove => None
    case Replace(next) => Some(next)
  }

  /** The first `k` calls on the path in the order they entered the chain, each applied to the content its predecessor
      left; a call that failed counts for nothing. */
  function Folded(run: Tasks, entries: seq<Entry>, p: Path, first: Option<Content>, k: nat): Option<Content>
    requires k <= |entries|
  {
    if k == 0 then first
    else
      var c := Folded(run, entries, p, first, k - 1);
      if entries[k - 1].path == p && entries[k - 1].applied then Apply(run(k - 1, c), c) else c
  }

  // ----- the invariant ---------------------------------------------------------------

  ghost predicate Tails(s: State)
  {
    && (forall p | p in s.queues ::
          && s.queues[p] < |s.entries| && s.entries[s.queues[p]].path == p
          && forall j | s.queues[p] < j < |s.entries| :: s.entries[j].path != p)
    && (forall j | 0 <= j < |s.entries| :: s.entries[j].path !in s.queues ==> s.entries[j].phase.Settled?)
  }

  /** An entry's predecessor is the call before it on the same path, or everything before it had settled. */
  ghost predicate Linked(s: State, j: nat)
    requires j < |s.entries|
  {
    var e := s.entries[j];
    if e.prev.Some? then
      && e.prev.value < j && s.entries[e.prev.value].path == e.path
      && forall i | e.prev.value < i < j :: s.entries[i].path != e.path
    else forall i | 0 <= i < j :: s.entries[i].path == e.path ==> s.entries[i].phase.Settled?
  }

  ghost predicate AllLinked(s: State) { forall j | 0 <= j < |s.entries| :: Linked(s, j) }

  /** Nothing starts before everything made earlier on its path has settled. */
  ghost predicate InOrder(s: State)
  {
    forall i, j | 0 <= i < j < |s.entries| ::
      s.entries[i].path == s.entries[j].path && !s.entries[j].phase.Waiting? ==> s.entries[i].phase.Settled?
  }

  /** What a task acts on is still what is there. */
  ghost predicate Current(env: Env, s: State, j: nat)
    requires j < |s.entries|
  {
    var e := s.entries[j];
    && (e.phase.HasRead? ==> e.phase.seen == Get(s.disk, e.path))
    && (e.phase.Writing? ==> env.run(j, Get(s.disk, e.path)) == Replace(e.phase.next))
    && (e.applied ==> e.phase.Finished? || e.phase.Settled?)
  }

  ghost predicate AllCurrent(env: Env, s: State) { forall j | 0 <= j < |s.entries| :: Current(env, s, j) }

  /** A staged file waiting for its rename is on disk, and is nobody else's. */
  ghost predicate Staged(env: Env, s: State, j: nat)
    requires j < |s.entries|
  {
    var e := s.entries[j];
    e.phase.Writing? ==>
      e.phase.tmp in s.tmps && exists rand :: rand != "" && TmpName.AllHex(rand) && e.phase.tmp == TmpPath(env.pid, e.path, rand)
  }

  ghost predicate AllStaged(env: Env, s: State) { forall j | 0 <= j < |s.entries| :: Staged(env, s, j) }

  ghost predicate Faithful(env: Env, s: State, first: map<Path, Content>)
  {
    forall p: Path :: Get(s.disk, p) == Folded(env.run, s.entries, p, Get(first, p), |s.entries|)
  }

  ghost predicate Inv(env: Env, s: State, first: map<Path, Content>)
  {
    Tails(s) && AllLinked(s) && InOrder(s) && AllCurrent(env, s) && AllStaged(env, s) && Faithful(env, s, first)
  }

  // ----- folding ------------------------------------------------------------------------

  /** Only path and the applied flag of the first `k` entries matter. */
  lemma {:induction false} FoldedSame(run: Tasks, a: seq<Entry>, b: seq<Entry>, p: Path, first: Option<Content>, k: nat)
    requires k <= |a| && k <= |b|
    requires forall i | 0 <= i < k :: a[i].path == b[i].path && (a[i].path == p ==> a[i].applied == b[i].applied)
    ensures Folded(run, a, p, first, k) == Folded(run, b, p, first, k)
  {
    if k > 0 {
      FoldedSame(run, a, b, p, first, k - 1);
    }
  }

  lemma {:induction false} FoldedSkips(run: Tasks, a: seq<Entry>, p: Path, first: Option<Content>, i: nat, k: nat)
    requires i <= k <= |a| && forall j | i <= j < k :: a[j].path == p ==> !a[j].applied
    ensures Folded(run, a, p, first, k) == Folded(run, a, p, first, i)
  {
    if i < k {
      FoldedSkips(run, a, p, first, i, k - 1);
    }
  }

  /** Marking the latest active entry of a path as applied applies its verdict to what was folded so far. */
  lemma FoldedApplies(run: Tasks, a: seq<Entry>, b: seq<Entry>, first: Option<Content>, i: nat)
    requires i < |a| == |b| && b == a[i := b[i]] && b[i].path == a[i].path && !a[i].applied && b[i].applied
    requires forall j | i < j < |a| :: a[j].path == a[i].path ==> !a[j].applied
    ensures var c := Folded(run, a, a[i].path, first, |a|);
            Folded(run, b, a[i].path, first, |b|) == Apply(run(i, c), c)
  {
    var p := a[i].path;
    FoldedSkips(run, a, p, first, i, |a|);
    FoldedSkips(run, b, p, first, i + 1, |b|);
    FoldedSame(run, a, b, p, first, i);
  }

  // ----- one entry's move ------------------------------------------------------------------

  /** Entry `i` moves on; who it is and what precedes it stay. */
  ghost predicate Moves(s: State, s': State, i: nat)
  {
    && i < |s.entries| && s'.queues == s.queues && |s'.entries| == |s.entries|
    && s'.entries == s.entries[i := s'.entries[i]]
    && s'.entries[i].path == s.entries[i].path && s'.entries[i].prev == s.entries[i].prev
    && !s.entries[i].phase.Settled? && !s'.entries[i].phase.Waiting?
  }

  ghost predicate EarlierSettled(s: State, i: nat)
    requires i < |s.entries|
  {
    forall k | 0 <= k < i :: s.entries[k].path == s.entries[i].path ==> s.entries[k].phase.Settled?
  }

  lemma MoveKeepsChain(s: State, s': State, i: nat)
    requires Tails(s) && AllLinked(s) && InOrder(s) && Moves(s, s', i) && EarlierSettled(s, i)
    ensures Tails(s') && AllLinked(s') && InOrder(s')
  {
    forall j | 0 <= j < |s'.entries| ensures Linked(s', j) {
      assert Linked(s, j);
    }
  }

  /** A task whose chain has come to it finds everything earlier on its path settled. */
  lemma StartIsInOrder(s: State, i: nat)
    requires AllLinked(s) && InOrder(s) && i < |s.entries|
    requires s.entries[i].prev.None? || IsSettled(s, s.entries[i].prev.value)
    ensures EarlierSettled(s, i)
  {
    assert Linked(s, i);
  }

  /** While a task is under way every other task on its path has settled or is waiting. */
  lemma Alone(s: State, i: nat, j: nat)
    requires InOrder(s) && i < |s.entries| && j < |s.entries| && i != j && s.entries[i].path == s.entries[j].path
    requires !s.entries[i].phase.Waiting? && !s.entries[i].phase.Settled?
    ensures s.entries[j].phase.Waiting? || s.entries[j].phase.Settled?
  {
  }

  lemma OnlySameName(env: Env, p: Path, q: Path, rand: string)
    requires rand != "" && TmpName.AllHex(rand) && p != q
    ensures !OwnLeftover(env.pid, p, TmpPath(env.pid, q, rand))
    ensures !DeadLeftover(env.pid, env.alive, p, TmpPath(env.pid, q, rand))
  {
    TmpName.MakeParses(q.base, env.pid, rand);
  }

  lemma NamesApart(env: Env, p: Path, q: Path, r1: string, r2: string)
    requires TmpName.AllHex(r1) && TmpName.AllHex(r2) && TmpPath(env.pid, p, r1) == TmpPath(env.pid, q, r2)
    ensures p == q
  {
    TmpName.JoinIsInjective(p.base, Decimal.Write(env.pid), r1, q.base, Decimal.Write(env.pid), r2);
  }

  /** No sweep of this process takes the staged file of a task of this process away. */
  lemma SweepSparesStaged(env: Env, s: State, i: nat, stale: set<Path>, j: nat)
    requires InOrder(s) && AllStaged(env, s) && i < |s.entries| && s.entries[i].phase.Started?
    requires j < |s.entries| && s.entries[j].phase.Writing?
    ensures s.entries[j].phase.tmp in Next(env, s, Sweep(i, stale)).tmps
  {
    assert Staged(env, s, j);
    var p, q := s.entries[i].path, s.entries[j].path;
    if p == q {
      Alone(s, i, j);
    }
    var rand :| rand != "" && TmpName.AllHex(rand) && s.entries[j].phase.tmp == TmpPath(env.pid, q, rand);
    OnlySameName(env, p, q, rand);
  }

  // ----- every step keeps the invariant --------------------------------------------------------

  ghost predicate Active(e: Entry) { !e.phase.Waiting? && !e.phase.Settled? }

  lemma MoveKeepsCurrent(env: Env, s: State, s': State, i: nat)
    requires InOrder(s) && AllCurrent(env, s) && Moves(s, s', i) && Current(env, s', i)
    requires s'.disk == s.disk || Active(s.entries[i])
    requires forall p: Path | p != s.entries[i].path :: Get(s'.disk, p) == Get(s.disk, p)
    ensures AllCurrent(env, s')
  {
    forall j | 0 <= j < |s'.entries| ensures Current(env, s', j) {
      assert Current(env, s, j);
      if j != i && s'.disk != s.disk && s.entries[j].path == s.entries[i].path {
        Alone(s, i, j);
      }
    }
  }

  lemma MoveKeepsStaged(env: Env, s: State, s': State, i: nat)
    requires AllStaged(env, s) && Moves(s, s', i) && Staged(env, s', i)
    requires forall j | 0 <= j < |s.entries| && j != i && s.entries[j].phase.Writing? :: s.entries[j].phase.tmp in s'.tmps
    ensures AllStaged(env, s')
  {
    forall j | 0 <= j < |s'.entries| ensures Staged(env, s', j) {
      assert Staged(env, s, j);
    }
  }

  /** A move that applies nothing, over an unchanged disk. */
  lemma MoveKeepsFold(env: Env, s: State, s': State, i: nat, first: map<Path, Content>)
    requires Faithful(env, s, first) && Moves(s, s', i) && s'.disk == s.disk
    requires s'.entries[i].applied == s.entries[i].applied
    ensures Faithful(env, s', first)
  {
    forall p: Path ensures Get(s'.disk, p) == Folded(env.run, s'.entries, p, Get(first, p), |s'.entries|) {
      FoldedSame(env.run, s.entries, s'.entries, p, Get(first, p), |s.entries|);
    }
  }

  /** A move that applies its task to what it found. */
  lemma ApplyKeepsFold(env: Env, s: State, s': State, i: nat, first: map<Path, Content>)
    requires Faithful(env, s, first) && InOrder(s) && AllCurrent(env, s) && Moves(s, s', i) && Active(s.entries[i])
    requires !s.entries[i].applied && s'.entries[i].applied
    requires forall p: Path | p != s.entries[i].path :: Get(s'.disk, p) == Get(s.disk, p)
    requires var c := Get(s.disk, s.entries[i].path); Get(s'.disk, s.entries[i].path) == Apply(env.run(i, c), c)
    ensures Faithful(env, s', first)
  {
    forall p: Path ensures Get(s'.disk, p) == Folded(env.run, s'.entries, p, Get(first, p), |s'.entries|) {
      if p == s.entries[i].path {
        forall j | i < j < |s.entries| && s.entries[j].path == p ensures !s.entries[j].applied {
          Alone(s, i, j);
          assert Current(env, s, j);
        }
        FoldedApplies(env.run, s.entries, s'.entries, Get(first, p), i);
      } else {
        FoldedSame(env.run, s.entries, s'.entries, p, Get(first, p), |s.entries|);
      }
    }
  }

  lemma ActiveIsFirst(s: State, i: nat)
    requires InOrder(s) && i < |s.entries| && !s.entries[i].phase.Waiting?
    ensures EarlierSettled(s, i)
  {
  }

  lemma EnqueueKeeps(env: Env, s: State, path: Path, first: map<Path, Content>)
    requires Inv(env, s, first)
    ensures Inv(env, Next(env, s, Enqueue(path)), first)
  {
    var s' := Next(env, s, Enqueue(path));
    var n := |s.entries|;
    forall j | 0 <= j < |s'.entries| ensures Linked(s', j) && Current(env, s', j) && Staged(env, s', j) {
      if j < n {
        assert s'.entries[j] == s.entries[j] && Linked(s, j) && Current(env, s, j) && Staged(env, s, j);
      }
    }
    forall p: Path ensures Get(s'.disk, p) == Folded(env.run, s'.entries, p, Get(first, p), |s'.entries|) {
      FoldedSame(env.run, s.entries, s'.entries, p, Get(first, p), n);
    }
  }

  lemma CleanupKeeps(env: Env, s: State, i: nat, first: map<Path, Content>)
    requires Inv(env, s, first)
    ensures Inv(env, Next(env, s, Cleanup(i)), first)
  {
    var s' := Next(env, s, Cleanup(i));
    forall j | 0 <= j < |s'.entries| ensures Linked(s', j) && Current(env, s', j) && Staged(env, s', j) {
      assert Linked(s, j) && Current(env, s, j) && Staged(env, s, j);
    }
    if s' != s {
      ActiveIsFirst(s, i);
    }
  }

  /** Start, sweep, read and settle leave the disk as it is. */
  lemma QuietKeeps(env: Env, s: State, step: Step, i: nat, first: map<Path, Content>)
    requires Inv(env, s, first)
    requires step == Start(i) || step == ReadIt(i) || step == Settle(i) || (step.Sweep? && step.i == i)
    ensures Inv(env, Next(env, s, step), first)
  {
    var s' := Next(env, s, step);
    if s' != s {
      assert Current(env, s, i) && Staged(env, s, i);
      if step.Start? { StartIsInOrder(s, i); } else { ActiveIsFirst(s, i); }
      assert Moves(s, s', i);
      MoveKeepsChain(s, s', i);
      MoveKeepsCurrent(env, s, s', i);
      forall j | 0 <= j < |s.entries| && j != i && s.entries[j].phase.Writing?
        ensures s.entries[j].phase.tmp in s'.tmps
      {
        assert Staged(env, s, j);
        if step.Sweep? { SweepSparesStaged(env, s, i, step.stale, j); }
      }
      MoveKeepsStaged(env, s, s', i);
      MoveKeepsFold(env, s, s', i, first);
    }
  }

  /** What a decision does to its entry and its path. */
  lemma DecideIs(env: Env, s: State, i: nat, rand: string, opens: bool, s': State)
    requires i < |s.entries| && s.entries[i].phase.HasRead? && Current(env, s, i) && s' == Decided(env, s, i, rand, opens)
    ensures Moves(s, s', i) && Current(env, s', i) && s.tmps <= s'.tmps
    ensures forall p: Path | p != s.entries[i].path :: Get(s'.disk, p) == Get(s.disk, p)
    ensures s'.entries[i].phase.Writing? ==>
              s'.entries[i].phase.tmp in s'.tmps && rand != "" && TmpName.AllHex(rand)
              && s'.entries[i].phase.tmp == TmpPath(env.pid, s.entries[i].path, rand)
    ensures var c := Get(s.disk, s.entries[i].path);
            if s'.entries[i].applied then Get(s'.disk, s.entries[i].path) == Apply(env.run(i, c), c) else s'.disk == s.disk
  {
  }

  lemma DecideKeeps(env: Env, s: State, i: nat, rand: string, opens: bool, first: map<Path, Content>)
    requires Inv(env, s, first)
    ensures Inv(env, Next(env, s, Decide(i, rand, opens)), first)
  {
    var s' := Next(env, s, Decide(i, rand, opens));
    if i < |s.entries| && s.entries[i].phase.HasRead? {
      assert Current(env, s, i);
      DecideIs(env, s, i, rand, opens, s');
      ActiveIsFirst(s, i);
      MoveKeepsChain(s, s', i);
      MoveKeepsCurrent(env, s, s', i);
      forall j | 0 <= j < |s.entries| && j != i && s.entries[j].phase.Writing?
        ensures s.entries[j].phase.tmp in s'.tmps
      {
        assert Staged(env, s, j);
      }
      assert Staged(env, s', i);
      MoveKeepsStaged(env, s, s', i);
      if s'.entries[i].applied {
        ApplyKeepsFold(env, s, s', i, first);
      } else {
        MoveKeepsFold(env, s, s', i, first);
      }
    }
  }

  lemma RenameKeeps(env: Env, s: State, i: nat, ok: bool, first: map<Path, Content>)
    requires Inv(env, s, first)
    ensures Inv(env, Next(env, s, Rename(i, ok)), first)
  {
    var s' := Next(env, s, Rename(i, ok));
    if i < |s.entries| && s.entries[i].phase.Writing? {
      assert Current(env, s, i) && Staged(env, s, i);
      ActiveIsFirst(s, i);
      MoveKeepsChain(s, s', i);
      MoveKeepsCurrent(env, s, s', i);
      forall j | 0 <= j < |s.entries| && j != i && s.entries[j].phase.Writing?
        ensures s.entries[j].phase.tmp in s'.tmps
      {
        TwoStagedDiffer(env, s, i, j);
      }
      MoveKeepsStaged(env, s, s', i);
      if ok {
        ApplyKeepsFold(env, s, s', i, first);
      } else {
        MoveKeepsFold(env, s, s', i, first);
      }
    }
  }

  lemma TwoStagedDiffer(env: Env, s: State, i: nat, j: nat)
    requires InOrder(s) && AllStaged(env, s) && i < |s.entries| && j < |s.entries| && i != j
    requires s.entries[i].phase.Writing? && s.entries[j].phase.Writing?
    ensures s.entries[i].phase.tmp != s.entries[j].phase.tmp && s.entries[j].phase.tmp in s.tmps
  {
    assert Staged(env, s, i) && Staged(env, s, j);
    var p, q := s.entries[i].path, s.entries[j].path;
    var r1 :| r1 != "" && TmpName.AllHex(r1) && s.entries[i].phase.tmp == TmpPath(env.pid, p, r1);
    var r2 :| r2 != "" && TmpName.AllHex(r2) && s.entries[j].phase.tmp == TmpPath(env.pid, q, r2);
    if s.entries[i].phase.tmp == s.entries[j].phase.tmp {
      NamesApart(env, p, q, r1, r2);
      Alone(s, i, j);
    }
  }

  lemma NextKeeps(env: Env, s: State, step: Step, first: map<Path, Content>)
    requires Inv(env, s, first)
    ensures Inv(env, Next(env, s, step), first)
  {
    match step
    case Enqueue(path) => EnqueueKeeps(env, s, path, first);
    case Start(i) => QuietKeeps(env, s, step, i, first);
    case Sweep(i, stale) => QuietKeeps(env, s, step, i, first);
    case ReadIt(i) => QuietKeeps(env, s, step, i, first);
    case Decide(i, rand, opens) => DecideKeeps(env, s, i, rand, opens, first);
    case Rename(i, ok) => RenameKeeps(env, s, i, ok, first);
    case Settle(i) => QuietKeeps(env, s, step, i, first);
    case Cleanup(i) => CleanupKeeps(env, s, i, first);
  }

  lemma {:induction false} RunsKeep(env: Env, init: State, steps: seq<Step>)
    requires Fresh(init)
    ensures Inv(env, Run(env, init, steps), init.disk)
  {
    if steps == [] {
    } else {
      RunsKeep(env, init, steps[..|steps| - 1]);
      NextKeeps(env, Run(env, init, steps[..|steps| - 1]), steps[|steps| - 1], init.disk);
    }
  }

  // ----- what follows, for every run -------------------------------------------------------------

  /** Two tasks on one path are never under way at the same time. */
  lemma TasksNeverOverlap(env: Env, init: State, steps: seq<Step>, i: nat, j: nat)
    requires Fresh(init)
    requires var s := Run(env, init, steps);
             i < |s.entries| && j < |s.entries| && Active(s.entries[i]) && Active(s.entries[j])
             && s.entries[i].path == s.entries[j].path
    ensures i == j
  {
    RunsKeep(env, init, steps);
    if i != j {
      Alone(Run(env, init, steps), i, j);
    }
  }

  /** At every moment the content of a path is its first content with the applied calls folded over it in the
      order in which they entered its chain, whichever calls failed and whenever map entries were dropped. */
  lemma ContentIsTheFold(env: Env, init: State, steps: seq<Step>, p: Path)
    requires Fresh(init)
    ensures var s := Run(env, init, steps);
            Get(s.disk, p) == Folded(env.run, s.entries, p, Get(init.disk, p), |s.entries|)
  {
    RunsKeep(env, init, steps);
  }

  /** A staged file is still there when its rename comes: no sweep of this process takes it. */
  lemma StagedFileIsThere(env: Env, init: State, steps: seq<Step>, i: nat)
    requires Fresh(init)
    requires var s := Run(env, init, steps); i < |s.entries| && s.entries[i].phase.Writing?
    ensures var s := Run(env, init, steps); s.entries[i].phase.tmp in s.tmps
  {
    RunsKeep(env, init, steps);
    assert Staged(env, Run(env, init, steps), i);
  }

  /** Nor does a sweep ever take the staged file of another live process, however old it is. */
  lemma SweepSparesTheLiving(env: Env, p: Path, tmps: set<Path>, stale: set<Path>, target: Path, pid: nat, rand: string)
    requires rand != "" && TmpName.AllHex(rand) && pid in env.alive && pid != env.pid && pid > 0
    requires TmpPath(pid, target, rand) in tmps
    ensures TmpPath(pid, target, rand) in SweptFrom(env.pid, env.alive, p, tmps, stale)
  {
    TmpName.MakeParses(target.base, pid, rand);
  }

  /** A sweep does take what it is for: this process's own leftovers of the path at once, and another's once it is aged
      and its process is dead. */
  lemma SweepTakesLeftovers(env: Env, p: Path, tmps: set<Path>, stale: set<Path>, pid: nat, rand: string)
    requires rand != "" && TmpName.AllHex(rand) && TmpName.OneLine(p.base)
    requires pid == env.pid || (TmpPath(pid, p, rand) in stale && (pid == 0 || pid !in env.alive))
    ensures TmpPath(pid, p, rand) !in SweptFrom(env.pid, env.alive, p, tmps, stale)
  {
    TmpName.MakeParses(p.base, pid, rand);
  }

  // ----- one call as straight-line code -------------------------------------------------------------

  /** A step of some other call. */
  predicate Foreign(step: Step, i: nat)
  {
    match step
    case Enqueue(_) => true
    case Cleanup(_) => true
    case Start(j) => j != i
    case Sweep(j, _) => j != i
    case ReadIt(j) => j != i
    case Decide(j, _, _) => j != i
    case Rename(j, _) => j != i
    case Settle(j) => j != i
  }

  lemma ForeignStep(env: Env, s: State, step: Step, i: nat)
    requires InOrder(s) && Foreign(step, i) && i < |s.entries| && Active(s.entries[i])
    ensures var s' := Next(env, s, step);
            && i < |s'.entries| && s'.entries[i] == s.entries[i]
            && Get(s'.disk, s.entries[i].path) == Get(s.disk, s.entries[i].path)
  {
    if (step.Decide? || step.Rename?) && step.i < |s.entries| && s.entries[step.i].path == s.entries[i].path {
      Alone(s, i, step.i);
    }
  }

  /** While a task is under way nobody else moves it or its path. */
  lemma ForeignLeaves(env: Env, init: State, steps: seq<Step>, step: Step, i: nat)
    requires Fresh(init) && Foreign(step, i)
    requires var s := Run(env, init, steps); i < |s.entries| && Active(s.entries[i])
    ensures var s := Run(env, init, steps); var s' := Next(env, s, step);
            && i < |s'.entries| && s'.entries[i] == s.entries[i]
            && Get(s'.disk, s.entries[i].path) == Get(s.disk, s.entries[i].path)
  {
    RunsKeep(env, init, steps);
    ForeignStep(env, Run(env, init, steps), step, i);
  }

  /** Task `i` and the content of its path are as they were. */
  predicate Undisturbed(before: State, now: State, i: nat)
    requires i < |before.entries|
  {
    && i < |now.entries| && now.entries[i] == before.entries[i]
    && Get(now.disk, before.entries[i].path) == Get(before.disk, before.entries[i].path)
  }

  /** What has happened by the task's verdict: its own three steps and what the others do meanwhile. */
  function Opening(before: seq<Step>, i: nat, stale: set<Path>, during: nat -> seq<Step>): seq<Step>
  {
    before + [Start(i)] + during(0) + [Sweep(i, stale)] + during(1) + [ReadIt(i)] + during(2)
  }

  /** A staging name nobody is using. */
  predicate Unused(pid: nat, s: State, path: Path, rand: string)
  {
    rand != "" && TmpName.AllHex(rand) && TmpPath(pid, path, rand) !in s.tmps
  }

  class NodeIo {
    const env: Env
    ghost const init: State
    var s: State
    ghost var trace: seq<Step>

    ghost predicate Valid()
      reads this
    {
      Fresh(init) && s == Run(env, init, trace)
    }

    constructor (env: Env, disk: map<Path, Content>, tmps: set<Path>)
      ensures Valid() && s == State(map[], [], disk, tmps) && this.env == env
    {
      this.env := env;
      init := State(map[], [], disk, tmps);
      s := State(map[], [], disk, tmps);
      trace := [];
    }

    method Take(step: Step)
      requires Valid()
      modifies this
      ensures Valid() && s == Next(env, old(s), step) && trace == old(trace) + [step]
    {
      assert (trace + [step])[..|trace|] == trace;
      s := Next(env, s, step);
      trace := trace + [step];
    }

    /** The synchronous head of inProcessWrite: the call becomes the new tail of its path's chain, and while any earlier
        call on the path has not settled its task cannot start. */
    method InProcessWrite(path: Path) returns (i: nat)
      requires Valid()
      modifies this
      ensures Valid() && i == |old(s).entries| && |s.entries| == i + 1 && s.entries[..i] == old(s).entries
      ensures s.queues == old(s).queues[path := i] && s.disk == old(s).disk
      ensures s.entries[i] == Entry(path, if path in old(s).queues then Some(old(s).queues[path]) else None, Waiting, false)
      ensures forall j | 0 <= j < i && s.entries[j].path == path && !IsSettled(s, j) :: Next(env, s, Start(i)) == s
    {
      i := |s.entries|;
      Take(Enqueue(path));
      RunsKeep(env, init, trace);
      forall j | 0 <= j < i && s.entries[j].path == path && !IsSettled(s, j) ensures Next(env, s, Start(i)) == s {
        if s.entries[i].prev.None? || IsSettled(s, s.entries[i].prev.value) { StartIsInOrder(s, i); }
      }
    }

    /** Its finally block: the tail is dropped only if no later call has taken its place, so whoever comes next still
        queues behind every call that has not settled. */
    method Finally(i: nat)
      requires Valid() && IsSettled(s, i)
      modifies this
      ensures Valid() && s.entries == old(s).entries && s.disk == old(s).disk
      ensures var p := old(s).entries[i].path;
              s.queues == if p in old(s).queues && old(s).queues[p] == i then old(s).queues - {p} else old(s).queues
      ensures forall j | 0 <= j < |s.entries| && !IsSettled(s, j) ::
                s.entries[j].path in s.queues && s.queues[s.entries[j].path] >= j
    {
      Take(Cleanup(i));
      RunsKeep(env, init, trace);
    }

    method TakeOther(i: nat, step: Step)
      requires Valid() && i < |s.entries| && Active(s.entries[i]) && Foreign(step, i)
      modifies this
      ensures Valid() && trace == old(trace) + [step] && Undisturbed(old(s), s, i)
    {
      ForeignLeaves(env, init, trace, step, i);
      Take(step);
    }

    /** An await of task `i`. */
    method Yield(i: nat, others: seq<Step>)
      requires Valid() && i < |s.entries| && Active(s.entries[i]) && forall k | 0 <= k < |others| :: Foreign(others[k], i)
      modifies this
      ensures Valid() && trace == old(trace) + others && Undisturbed(old(s), s, i)
    {
      var k := 0;
      while k < |others|
        invariant 0 <= k <= |others| && Valid() && trace == old(trace) + others[..k] && Undisturbed(old(s), s, i)
      {
        TakeOther(i, others[k]);
        assert others[..k + 1] == others[..k] + [others[k]];
        k := k + 1;
      }
      assert others[..k] == others;
    }

    /** The head of a task: its chain has come to it, stale staged files go, the content is read. */
    method Open(i: nat, stale: set<Path>, during: nat -> seq<Step>)
      requires Valid() && i < |s.entries| && s.entries[i].phase.Waiting?
      requires s.entries[i].prev.None? || IsSettled(s, s.entries[i].prev.value)
      requires forall n, k | 0 <= k < |during(n)| :: Foreign(during(n)[k], i)
      modifies this
      ensures Valid() && i < |s.entries|
      ensures var p := old(s).entries[i].path;
              && Get(s.disk, p) == Get(old(s).disk, p)
              && s.entries[i] == old(s).entries[i].(phase := HasRead(Get(old(s).disk, p)))
      ensures trace == Opening(old(trace), i, stale, during)
    {
      Take(Start(i));
      Yield(i, during(0));
      Take(Sweep(i, stale));
      Yield(i, during(1));
      Take(ReadIt(i));
      Yield(i, during(2));
    }

    /** The tail: decide, stage, rename. It takes effect exactly when the task did not reject and no operation
        it needed failed. */
    method Conclude(i: nat, c: Option<Content>, rand: string, opens: bool, renames: bool, others: seq<Step>)
      requires Valid() && i < |s.entries| && s.entries[i].phase == HasRead(c) && !s.entries[i].applied
      requires Get(s.disk, s.entries[i].path) == c && forall k | 0 <= k < |others| :: Foreign(others[k], i)
      modifies this
      ensures Valid() && i < |s.entries| && s.entries[i].phase.Finished? && s.entries[i].path == old(s).entries[i].path
      ensures var v := env.run(i, c);
              s.entries[i].applied <==>
                (v.Keep? || (v.Remove? && opens) || (v.Replace? && opens && renames && Unused(env.pid, old(s), s.entries[i].path, rand)))
      ensures Get(s.disk, s.entries[i].path) == if s.entries[i].applied then Apply(env.run(i, c), c) else c
    {
      Take(Decide(i, rand, opens));
      if s.entries[i].phase.Writing? {
        Yield(i, others);
        StagedFileIsThere(env, init, trace, i);
        Take(Rename(i, renames));
      }
    }

    /** The whole task. Whatever the other calls do at its awaits, it takes the path from what it found to its
        verdict on that, in one piece, or leaves it alone; and it leaves it alone only if the task rejects, an operation
        it needs fails, or its staging name is in use when it comes to stage. */
    method Transact(i: nat, stale: set<Path>, rand: string, opens: bool, renames: bool, during: nat -> seq<Step>)
      requires Valid() && i < |s.entries| && s.entries[i].phase.Waiting? && !s.entries[i].applied
      requires s.entries[i].prev.None? || IsSettled(s, s.entries[i].prev.value)
      requires forall n, k | 0 <= k < |during(n)| :: Foreign(during(n)[k], i)
      modifies this
      ensures Valid() && i < |s.entries| && s.entries[i].phase.Finished? && s.entries[i].path == old(s).entries[i].path
      ensures var c := Get(old(s).disk, s.entries[i].path);
              Get(s.disk, s.entries[i].path) == if s.entries[i].applied then Apply(env.run(i, c), c) else c
      ensures var p := old(s).entries[i].path;
              var v, staging := env.run(i, Get(old(s).disk, p)), Run(env, init, Opening(old(trace), i, stale, during));
              s.entries[i].applied <==>
                v.Keep? || (v.Remove? && opens) || (v.Replace? && opens && renames && Unused(env.pid, staging, p, rand))
    {
      var c := Get(s.disk, s.entries[i].path);
      Open(i, stale, during);
      Conclude(i, c, rand, opens, renames, during(3));
    }
  }
}
