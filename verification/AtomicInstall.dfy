/**
 * Installing a set of files under arbitrary failure of any file operation: stage, back up, commit, refresh
 * (packages/evolution-core/src/io.ts, atomicWriteFiles).
 */
module AtomicInstall {
  import opened Wrappers

  type Content = string
  type Disk = map<string, Content>

  datatype Write = Write(name: string, content: Content)

  function Tmp(name: string): string { name + ".tmp" }
  function Bak(name: string): string { name + ".bak" }

  function Get(d: Disk, path: string): Option<Content> { if path in d then Some(d[path]) else None }

  /** Nothing but `path` changed. */
  ghost predicate Only(path: string, d: Disk, d': Disk)
  {
    forall p: string | p != path :: Get(d', p) == Get(d, p)
  }

  /** What a reader finds at a target: the file itself and its backup. */
  datatype Seen = Seen(final: Option<Content>, bak: Option<Content>)

  function Look(d: Disk, name: string): Seen { Seen(Get(d, name), Get(d, Bak(name))) }

  predicate Distinct(ws: seq<Write>)
  {
    forall i, j | 0 <= i < j < |ws| :: ws[i].name != ws[j].name
  }

  /** No target is another target's staging or backup path. */
  predicate Apart(ws: seq<Write>)
  {
    forall i, j | 0 <= i < |ws| && 0 <= j < |ws| :: ws[i].name != Tmp(ws[j].name) && ws[i].name != Bak(ws[j].name)
  }

  lemma PathsApart(a: string, b: string)
    ensures Tmp(a) != Bak(b)
    ensures Tmp(a) == Tmp(b) ==> a == b
    ensures Bak(a) == Bak(b) ==> a == b
    ensures a != Tmp(a) && a != Bak(a)
  {
    assert Tmp(a)[..|Tmp(a)| - 4] == a && Tmp(b)[..|Tmp(b)| - 4] == b;
    assert Bak(a)[..|Bak(a)| - 4] == a && Bak(b)[..|Bak(b)| - 4] == b;
    assert Tmp(a)[|Tmp(a)| - 1] == 'p' && Bak(b)[|Bak(b)| - 1] == 'k';
    assert |Tmp(a)| == |a| + 4 && |Bak(a)| == |a| + 4;
  }

  /** The backup a target has once the backup phase passed it: the one it had, else a copy of the file. */
  function Backup(was: Seen): Option<Content> { if was.bak.Some? then was.bak else was.final }

  /** Everything a crash can leave of a target. */
  predicate Possible(was: Seen, now: Seen, new_: Content)
  {
    || now == was
    || now == Seen(was.final, Backup(was))
    || now == Seen(None, Backup(was))
    || now == Seen(Some(new_), Backup(was))
    || (Backup(was).Some? && now == Seen(Backup(was), Backup(was)))
    || now == Seen(Some(new_), Some(new_))
  }

  ghost predicate AllPossible(was: Disk, now: Disk, ws: seq<Write>)
  {
    Apart(ws) ==>
      forall i | 0 <= i < |ws| :: Possible(Look(was, ws[i].name), Look(now, ws[i].name), ws[i].content)
  }

  predicate Mentions(w: Write, p: string) { p == w.name || p == Tmp(w.name) || p == Bak(w.name) }

  ghost predicate Unmentioned(ws: seq<Write>, p: string) { forall i | 0 <= i < |ws| :: !Mentions(ws[i], p) }

  /** The disk outside the targets and their side files is as it was. */
  ghost predicate Elsewhere(was: Disk, now: Disk, ws: seq<Write>)
  {
    forall p: string {:trigger Unmentioned(ws, p)} :: Unmentioned(ws, p) ==> Get(now, p) == Get(was, p)
  }

  // ----- the phases ----------------------------------------------------------------

  predicate HasTmp(d: Disk, w: Write) { Get(d, Tmp(w.name)) == Some(w.content) }

  /** The first `k` writes are staged; no target has been touched. */
  ghost predicate StagedTo(was: Disk, now: Disk, ws: seq<Write>, k: int)
  {
    Apart(ws) ==>
      && (forall i | 0 <= i < |ws| :: Look(now, ws[i].name) == Look(was, ws[i].name))
      && (forall i | 0 <= i < k && i < |ws| :: HasTmp(now, ws[i]))
  }

  function Kept(was: Seen): Seen { Seen(was.final, Backup(was)) }

  /** The first `k` targets are backed up. */
  ghost predicate BackedTo(was: Disk, now: Disk, ws: seq<Write>, k: int)
  {
    Apart(ws) ==>
      && (forall i | 0 <= i < k && i < |ws| :: Look(now, ws[i].name) == Kept(Look(was, ws[i].name)))
      && (forall i | k <= i < |ws| && 0 <= i :: Look(now, ws[i].name) == Look(was, ws[i].name))
      && (forall i | 0 <= i < |ws| :: HasTmp(now, ws[i]))
  }

  predicate Landed(was: Seen, now: Seen, c: Content) { now == Seen(Some(c), Backup(was)) }

  /** The write is installed and its staged file is gone. */
  predicate Arrived(was: Disk, now: Disk, w: Write)
  {
    Landed(Look(was, w.name), Look(now, w.name), w.content) && Get(now, Tmp(w.name)).None?
  }

  /** The first `k` writes are installed, the others staged and backed up. */
  ghost predicate CommittedTo(was: Disk, now: Disk, ws: seq<Write>, k: int)
  {
    Apart(ws) ==>
      && (forall i | 0 <= i < k && i < |ws| :: Arrived(was, now, ws[i]))
      && (forall i | k <= i < |ws| && 0 <= i :: Look(now, ws[i].name) == Kept(Look(was, ws[i].name)) && HasTmp(now, ws[i]))
  }

  /** As above with `k` installed, and the `k`-th in the middle of its commit. */
  ghost predicate Halfway(was: Disk, now: Disk, ws: seq<Write>, k: int, at: Seen)
  {
    Apart(ws) ==>
      && (forall i | 0 <= i < k && i < |ws| :: Arrived(was, now, ws[i]))
      && (forall i | k < i < |ws| && 0 <= i :: Look(now, ws[i].name) == Kept(Look(was, ws[i].name)) && HasTmp(now, ws[i]))
      && (0 <= k < |ws| ==> Look(now, ws[k].name) == at && HasTmp(now, ws[k]))
  }

  ghost predicate RefreshedTo(was: Disk, now: Disk, ws: seq<Write>, k: int, stale: seq<string>)
  {
    Apart(ws) ==>
      && (forall i | 0 <= i < |ws| ::
            var seen := Look(now, ws[i].name);
            if i < k && ws[i].name !in stale then seen == Seen(Some(ws[i].content), Some(ws[i].content))
            else Landed(Look(was, ws[i].name), seen, ws[i].content))
  }

  /** Writing a staging path moves no target. */
  lemma TmpMovesNoTarget(ws: seq<Write>, k: int, d: Disk, d': Disk, i: int)
    requires Apart(ws) && 0 <= k < |ws| && 0 <= i < |ws| && Only(Tmp(ws[k].name), d, d')
    ensures Look(d', ws[i].name) == Look(d, ws[i].name)
  {
    PathsApart(ws[k].name, ws[i].name);
  }

  lemma BakMovesItsTarget(ws: seq<Write>, k: int, d: Disk, d': Disk, i: int)
    requires Apart(ws) && Distinct(ws) && 0 <= k < |ws| && 0 <= i < |ws| && Only(Bak(ws[k].name), d, d')
    ensures i != k ==> Look(d', ws[i].name) == Look(d, ws[i].name)
    ensures Look(d', ws[k].name).final == Look(d, ws[k].name).final
    ensures Get(d', Tmp(ws[i].name)) == Get(d, Tmp(ws[i].name))
  {
    PathsApart(ws[k].name, ws[i].name);
    PathsApart(ws[i].name, ws[k].name);
  }

  lemma FinalMovesItsTarget(ws: seq<Write>, k: int, d: Disk, d': Disk, i: int)
    requires Apart(ws) && Distinct(ws) && 0 <= k < |ws| && 0 <= i < |ws| && Only(ws[k].name, d, d')
    ensures i != k ==> Look(d', ws[i].name) == Look(d, ws[i].name)
    ensures Look(d', ws[k].name).bak == Look(d, ws[k].name).bak
    ensures Get(d', Tmp(ws[i].name)) == Get(d, Tmp(ws[i].name))
  {
  }

  lemma StageStep(was: Disk, d: Disk, d': Disk, ws: seq<Write>, k: nat)
    requires Distinct(ws) && k < |ws| && StagedTo(was, d, ws, k) && Only(Tmp(ws[k].name), d, d')
    ensures StagedTo(was, d', ws, if HasTmp(d', ws[k]) then k + 1 else k)
  {
    if Apart(ws) {
      forall i | 0 <= i < |ws|
        ensures Look(d', ws[i].name) == Look(d, ws[i].name) && (i < k ==> HasTmp(d', ws[i]))
      {
        TmpMovesNoTarget(ws, k, d, d', i);
        PathsApart(ws[i].name, ws[k].name);
      }
    }
  }

  lemma BackupStep(was: Disk, d: Disk, d': Disk, ws: seq<Write>, k: nat)
    requires Distinct(ws) && k < |ws| && BackedTo(was, d, ws, k)
    requires var seen := Look(d, ws[k].name);
             d' == if seen.final.Some? && seen.bak.None? then d[Bak(ws[k].name) := seen.final.value] else d
    ensures BackedTo(was, d', ws, k + 1)
  {
    if Apart(ws) {
      assert Look(d, ws[k].name) == Look(was, ws[k].name);
      forall i | 0 <= i < |ws|
        ensures HasTmp(d', ws[i]) && (i != k ==> Look(d', ws[i].name) == Look(d, ws[i].name))
      {
        BakMovesItsTarget(ws, k, d, d', i);
        assert HasTmp(d, ws[i]);
      }
      BakMovesItsTarget(ws, k, d, d', k);
    }
  }

  lemma CommitStep(was: Disk, d: Disk, d': Disk, ws: seq<Write>, k: nat, at: Seen)
    requires Distinct(ws) && k < |ws| && Halfway(was, d, ws, k, at) && at.bak == Backup(Look(was, ws[k].name))
    requires Tmp(ws[k].name) in d && d' == (d - {Tmp(ws[k].name)})[ws[k].name := d[Tmp(ws[k].name)]]
    ensures CommittedTo(was, d', ws, k + 1)
  {
    if Apart(ws) {
      var mid := d - {Tmp(ws[k].name)};
      assert HasTmp(d, ws[k]);
      forall i | 0 <= i < |ws|
        ensures i != k ==> Look(d', ws[i].name) == Look(d, ws[i].name) && Get(d', Tmp(ws[i].name)) == Get(d, Tmp(ws[i].name))
      {
        TmpMovesNoTarget(ws, k, d, mid, i);
        FinalMovesItsTarget(ws, k, mid, d', i);
        PathsApart(ws[i].name, ws[k].name);
      }
      TmpMovesNoTarget(ws, k, d, mid, k);
      FinalMovesItsTarget(ws, k, mid, d', k);
    }
  }

  /** Taking the target away, or putting its backup back in place. */
  lemma TargetStep(was: Disk, d: Disk, d': Disk, ws: seq<Write>, k: nat, at: Seen, at': Seen)
    requires Distinct(ws) && k < |ws| && Halfway(was, d, ws, k, at) && Only(ws[k].name, d, d')
    requires at'.bak == at.bak && (Apart(ws) ==> Get(d', ws[k].name) == at'.final)
    ensures Halfway(was, d', ws, k, at')
  {
    if Apart(ws) {
      forall i | 0 <= i < |ws|
        ensures i != k ==> Look(d', ws[i].name) == Look(d, ws[i].name)
        ensures Get(d', Tmp(ws[i].name)) == Get(d, Tmp(ws[i].name))
      {
        FinalMovesItsTarget(ws, k, d, d', i);
      }
      FinalMovesItsTarget(ws, k, d, d', k);
    }
  }

  lemma RefreshStep(was: Disk, d: Disk, d': Disk, ws: seq<Write>, k: nat, stale: seq<string>)
    requires Distinct(ws) && k < |ws| && RefreshedTo(was, d, ws, k, stale)
    requires forall i | k <= i < |ws| :: ws[i].name !in stale
    requires ws[k].name in d && d' == d[Bak(ws[k].name) := d[ws[k].name]]
    ensures RefreshedTo(was, d', ws, k + 1, stale)
  {
    if Apart(ws) {
      forall i | 0 <= i < |ws| ensures i != k ==> Look(d', ws[i].name) == Look(d, ws[i].name) {
        BakMovesItsTarget(ws, k, d, d', i);
      }
      BakMovesItsTarget(ws, k, d, d', k);
      assert Landed(Look(was, ws[k].name), Look(d, ws[k].name), ws[k].content);
    }
  }

  // ----- every state on the way is one of the possible ones ---------------------------

  ghost predicate Safe(was: Disk, now: Disk, ws: seq<Write>) { AllPossible(was, now, ws) && Elsewhere(was, now, ws) }

  predicate Found(seen: Seen) { seen.final.Some? || seen.bak.Some? }

  /** From one disk to the next a backup that is there stays, and so does a target in one of its two places. */
  predicate Stays(d: Disk, d': Disk, name: string)
  {
    (Bak(name) in d ==> Bak(name) in d') && (Found(Look(d, name)) ==> Found(Look(d', name)))
  }

  ghost predicate AllStay(ws: seq<Write>, d: Disk, d': Disk)
  {
    Apart(ws) ==> forall i | 0 <= i < |ws| :: Stays(d, d', ws[i].name)
  }

  /** Moving a target or its staged file takes nothing away from the others. */
  lemma OneTargetMoves(ws: seq<Write>, k: nat, d: Disk, d': Disk)
    requires k < |ws| && forall p: string | p != ws[k].name && p != Tmp(ws[k].name) :: Get(d', p) == Get(d, p)
    requires Apart(ws) && Found(Look(d, ws[k].name)) ==> Found(Look(d', ws[k].name))
    ensures AllStay(ws, d, d')
  {
    if Apart(ws) {
      forall i | 0 <= i < |ws| ensures Stays(d, d', ws[i].name) {
        PathsApart(ws[k].name, ws[i].name);
        assert Get(d', Bak(ws[i].name)) == Get(d, Bak(ws[i].name));
        assert ws[i].name != ws[k].name ==> Get(d', ws[i].name) == Get(d, ws[i].name);
      }
    }
  }

  /** A moment of the history: safe, and nothing is missing that was there one moment before. */
  ghost predicate Moment(was: Disk, ws: seq<Write>, history: seq<Disk>, k: nat)
    requires k < |history|
  {
    Safe(was, history[k], ws) && (k > 0 ==> AllStay(ws, history[k - 1], history[k]))
  }

  /** A backup more takes nothing away. */
  lemma OneBakMore(ws: seq<Write>, d: Disk, d': Disk)
    requires d.Keys <= d'.Keys
    ensures AllStay(ws, d, d')
  {
  }

  /** The history grew by such moments only. */
  ghost predicate Grown(was: Disk, ws: seq<Write>, before: seq<Disk>, after: seq<Disk>)
  {
    |before| <= |after| && after[..|before|] == before
    && forall k | |before| <= k < |after| :: Moment(was, ws, after, k)
  }

  lemma MomentStays(was: Disk, ws: seq<Write>, history: seq<Disk>, longer: seq<Disk>, k: nat)
    requires k < |history| <= |longer| && longer[..|history|] == history && Moment(was, ws, history, k)
    ensures Moment(was, ws, longer, k)
  {
    assert longer[k] == longer[..|history|][k] && (k > 0 ==> longer[k - 1] == longer[..|history|][k - 1]);
  }

  lemma GrowsOn(was: Disk, ws: seq<Write>, before: seq<Disk>, after: seq<Disk>, d: Disk)
    requires Grown(was, ws, before, after) && Safe(was, d, ws) && |after| > 0 && AllStay(ws, after[|after| - 1], d)
    ensures Grown(was, ws, before, after + [d])
  {
    var all, n := after + [d], |after|;
    assert all[n] == d && all[n - 1] == after[n - 1] && all[..n] == after && all[..|before|] == after[..|before|];
    forall k | |before| <= k < |all| ensures Moment(was, ws, all, k) {
      if k < n { MomentStays(was, ws, after, all, k); }
    }
  }

  lemma GrownTwice(was: Disk, ws: seq<Write>, a: seq<Disk>, b: seq<Disk>, c: seq<Disk>)
    requires Grown(was, ws, a, b) && Grown(was, ws, b, c)
    ensures Grown(was, ws, a, c)
  {
    assert c[..|a|] == c[..|b|][..|a|];
    forall k | |a| <= k < |c| ensures Moment(was, ws, c, k) {
      if k < |b| { MomentStays(was, ws, b, c, k); }
    }
  }

  lemma StillElsewhere(was: Disk, d: Disk, d': Disk, ws: seq<Write>, k: nat, p: string)
    requires Elsewhere(was, d, ws) && k < |ws| && Mentions(ws[k], p) && Only(p, d, d')
    ensures Elsewhere(was, d', ws)
  {
  }

  lemma StagedIsSafe(was: Disk, d: Disk, ws: seq<Write>, k: nat)
    requires StagedTo(was, d, ws, k)
    ensures AllPossible(was, d, ws)
  {
  }

  lemma BackedIsSafe(was: Disk, d: Disk, ws: seq<Write>, k: nat)
    requires BackedTo(was, d, ws, k) && k <= |ws|
    ensures AllPossible(was, d, ws)
  {
  }

  lemma CommittedIsSafe(was: Disk, d: Disk, ws: seq<Write>, k: nat)
    requires CommittedTo(was, d, ws, k) && k <= |ws|
    ensures AllPossible(was, d, ws)
  {
  }

  lemma HalfwayIsSafe(was: Disk, d: Disk, ws: seq<Write>, k: nat, at: Seen)
    requires Halfway(was, d, ws, k, at) && k < |ws| && Possible(Look(was, ws[k].name), at, ws[k].content)
    ensures AllPossible(was, d, ws)
  {
  }

  lemma RefreshedIsSafe(was: Disk, d: Disk, ws: seq<Write>, k: nat, stale: seq<string>)
    requires RefreshedTo(was, d, ws, k, stale) && k <= |ws|
    ensures AllPossible(was, d, ws)
  {
    if Apart(ws) {
      forall i | 0 <= i < |ws| ensures Possible(Look(was, ws[i].name), Look(d, ws[i].name), ws[i].content) {
      }
    }
  }

  // ----- faults ------------------------------------------------------------------

  /** What the next operation does: succeed, fail without effect, or (a write only) fail leaving garbage. */
  datatype Fault = Fine | Fails | Torn(garbage: Content)

  datatype Outcome =
    | Installed(stale: seq<string>)        // the names whose backup could not be refreshed
    | Duplicates
    | Unstaged(uncleaned: seq<string>)     // staging or backing up failed
    | Failed(name: string, how: Verdict, committed: seq<string>, uncleaned: seq<string>)

  datatype Verdict = Done | CannotRemove | RestoreFailed | PutBack | Bare

  function WrittenAs(d: Disk, path: string, data: Content, f: Fault): (d': Disk)
    ensures Only(path, d, d') && (f.Fine? ==> d' == d[path := data])
  {
    match f
    case Fine => d[path := data]
    case Fails => d
    case Torn(garbage) => d[path := garbage]
  }

  class Fs {
    var disk: Disk
    const fault: nat -> Fault
    var ops: nat
    ghost var history: seq<Disk>

    constructor (disk: Disk, fault: nat -> Fault)
      ensures Valid() && this.disk == disk && this.fault == fault && ops == 0 && history == [disk]
    {
      this.disk := disk;
      this.fault := fault;
      ops := 0;
      history := [disk];
    }

    ghost predicate Valid()
      reads this
    {
      |history| > 0 && history[|history| - 1] == disk
    }

    method WriteFile(path: string, data: Content) returns (ok: bool)
      requires Valid()
      modifies this
      ensures Valid() && history == old(history) + [disk] && ops == old(ops) + 1
      ensures ok <==> fault(old(ops)).Fine?
      ensures disk == WrittenAs(old(disk), path, data, fault(old(ops)))
    {
      var f := fault(ops);
      ops := ops + 1;
      ok := f.Fine?;
      if ok {
        disk := disk[path := data];
      } else if f.Torn? {
        disk := disk[path := f.garbage];
      }
      history := history + [disk];
    }

    method CopyFile(from: string, to: string) returns (ok: bool)
      requires Valid()
      modifies this
      ensures Valid() && history == old(history) + [disk] && ops == old(ops) + 1
      ensures ok <==> fault(old(ops)).Fine? && from in old(disk)
      ensures disk == if ok then old(disk)[to := old(disk)[from]] else old(disk)
    {
      ok := fault(ops).Fine? && from in disk;
      ops := ops + 1;
      if ok {
        disk := disk[to := disk[from]];
      }
      history := history + [disk];
    }

    method Rename(from: string, to: string) returns (ok: bool)
      requires Valid() && from != to
      modifies this
      ensures Valid() && history == old(history) + [disk] && ops == old(ops) + 1
      ensures ok <==> fault(old(ops)).Fine? && from in old(disk)
      ensures disk == if ok then (old(disk) - {from})[to := old(disk)[from]] else old(disk)
    {
      ok := fault(ops).Fine? && from in disk;
      ops := ops + 1;
      if ok {
        disk := (disk - {from})[to := disk[from]];
      }
      history := history + [disk];
    }

    method Remove(path: string) returns (ok: bool)
      requires Valid()
      modifies this
      ensures Valid() && history == old(history) + [disk] && ops == old(ops) + 1
      ensures ok <==> fault(old(ops)).Fine?
      ensures disk == if ok then old(disk) - {path} else old(disk)
    {
      ok := fault(ops).Fine?;
      ops := ops + 1;
      if ok {
        disk := disk - {path};
      }
      history := history + [disk];
    }
  }

  // ----- the install ------------------------------------------------------------------

  /** The `n` operations from the `from`-th on succeed if they can. */
  ghost predicate AllFine(fault: nat -> Fault, from: nat, n: nat)
  {
    forall k | from <= k < from + n :: fault(k).Fine?
  }

  /** Every write is staged beside its target. */
  method Stage(fs: Fs, ws: seq<Write>) returns (ok: bool)
    requires fs.Valid() && Distinct(ws)
    modifies fs
    ensures fs.Valid() && Grown(old(fs.disk), ws, old(fs.history), fs.history)
    ensures StagedTo(old(fs.disk), fs.disk, ws, if ok then |ws| else 0) && Elsewhere(old(fs.disk), fs.disk, ws)
    ensures (ok <==> AllFine(fs.fault, old(fs.ops), |ws|)) && (ok ==> fs.ops == old(fs.ops) + |ws|)
  {
    ghost var was := fs.disk;
    var k := 0;
    while k < |ws|
      invariant 0 <= k <= |ws| && fs.Valid() && Grown(was, ws, old(fs.history), fs.history)
      invariant StagedTo(was, fs.disk, ws, k) && Elsewhere(was, fs.disk, ws)
      invariant fs.ops == old(fs.ops) + k && AllFine(fs.fault, old(fs.ops), k)
    {
      ok := StageOne(fs, ws, was, k, old(fs.history));
      if !ok {
        return;
      }
      k := k + 1;
    }
    ok := true;
  }

  method StageOne(fs: Fs, ws: seq<Write>, ghost was: Disk, k: nat, ghost start: seq<Disk>) returns (ok: bool)
    requires fs.Valid() && Distinct(ws) && k < |ws| && Grown(was, ws, start, fs.history)
    requires StagedTo(was, fs.disk, ws, k) && Elsewhere(was, fs.disk, ws)
    modifies fs
    ensures fs.Valid() && Grown(was, ws, start, fs.history) && Elsewhere(was, fs.disk, ws)
    ensures StagedTo(was, fs.disk, ws, if ok then k + 1 else k)
    ensures fs.ops == old(fs.ops) + 1 && (ok <==> fs.fault(old(fs.ops)).Fine?)
  {
    ghost var d, h := fs.disk, fs.history;
    ok := fs.WriteFile(Tmp(ws[k].name), ws[k].content);
    StageStep(was, d, fs.disk, ws, k);
    StillElsewhere(was, d, fs.disk, ws, k, Tmp(ws[k].name));
    OneTargetMoves(ws, k, d, fs.disk);
    StagedIsSafe(was, fs.disk, ws, if HasTmp(fs.disk, ws[k]) then k + 1 else k);
    GrowsOn(was, ws, start, h, fs.disk);
  }

  predicate NeedsBackup(d: Disk, w: Write) { w.name in d && Bak(w.name) !in d }

  /** How many of the first `k` targets are to be backed up. */
  function Copies(d: Disk, ws: seq<Write>, k: nat): (n: nat)
    requires k <= |ws|
    ensures n <= k
  {
    if k == 0 then 0 else Copies(d, ws, k - 1) + if NeedsBackup(d, ws[k - 1]) then 1 else 0
  }

  lemma {:induction false} CopiesGrow(d: Disk, ws: seq<Write>, i: nat, j: nat)
    requires i <= j <= |ws|
    ensures Copies(d, ws, i) <= Copies(d, ws, j)
  {
    if i < j { CopiesGrow(d, ws, i, j - 1); }
  }

  /** The first `i` targets are backed up and have cost their copies. */
  ghost predicate Backing(was: Disk, fs: Fs, ws: seq<Write>, i: nat, start: seq<Disk>, from: nat)
    requires i <= |ws|
    reads fs
  {
    && fs.Valid() && Grown(was, ws, start, fs.history) && Elsewhere(was, fs.disk, ws)
    && BackedTo(was, fs.disk, ws, i)
    && (Apart(ws) ==> fs.ops == from + Copies(was, ws, i) && AllFine(fs.fault, from, Copies(was, ws, i)))
  }

  /** Every target that exists and has no backup gets one. */
  method BackUp(fs: Fs, ws: seq<Write>, ghost was: Disk) returns (ok: bool, ghost k: nat)
    requires fs.Valid() && Distinct(ws) && StagedTo(was, fs.disk, ws, |ws|) && Elsewhere(was, fs.disk, ws)
    modifies fs
    ensures fs.Valid() && Grown(was, ws, old(fs.history), fs.history)
    ensures k <= |ws| && (ok ==> k == |ws|)
    ensures BackedTo(was, fs.disk, ws, k) && Elsewhere(was, fs.disk, ws)
    ensures Apart(ws) ==> (ok <==> AllFine(fs.fault, old(fs.ops), Copies(was, ws, |ws|)))
    ensures Apart(ws) && ok ==> fs.ops == old(fs.ops) + Copies(was, ws, |ws|)
  {
    var i := 0;
    ok, k := true, 0;
    while i < |ws|
      invariant 0 <= i <= |ws| && k == i && Backing(was, fs, ws, i, old(fs.history), old(fs.ops))
    {
      ok := BackUpOne(fs, ws, was, i, old(fs.history), old(fs.ops));
      if !ok {
        return;
      }
      i := i + 1;
      k := i;
    }
  }

  lemma BackedGrows(was: Disk, ws: seq<Write>, before: seq<Disk>, after: seq<Disk>, d: Disk, k: nat)
    requires Grown(was, ws, before, after) && |after| > 0 && after[|after| - 1].Keys <= d.Keys
    requires BackedTo(was, d, ws, k) && k <= |ws| && Elsewhere(was, d, ws)
    ensures Grown(was, ws, before, after + [d])
  {
    OneBakMore(ws, after[|after| - 1], d);
    BackedIsSafe(was, d, ws, k);
    GrowsOn(was, ws, before, after, d);
  }

  method BackUpOne(fs: Fs, ws: seq<Write>, ghost was: Disk, i: nat, ghost start: seq<Disk>, ghost from: nat)
    returns (ok: bool)
    requires Distinct(ws) && i < |ws| && Backing(was, fs, ws, i, start, from)
    modifies fs
    ensures ok ==> Backing(was, fs, ws, i + 1, start, from)
    ensures !ok ==> fs.Valid() && Grown(was, ws, start, fs.history) && Elsewhere(was, fs.disk, ws)
    ensures !ok ==> BackedTo(was, fs.disk, ws, i) && (Apart(ws) ==> !AllFine(fs.fault, from, Copies(was, ws, |ws|)))
  {
    CopiesGrow(was, ws, i + 1, |ws|);
    assert Apart(ws) ==> Look(fs.disk, ws[i].name) == Look(was, ws[i].name);
    if NeedsBackup(fs.disk, ws[i]) {
      ok := CopyBackup(fs, ws, was, i, start, from);
    } else {
      BackupStep(was, fs.disk, fs.disk, ws, i);
      ok := true;
    }
  }

  method CopyBackup(fs: Fs, ws: seq<Write>, ghost was: Disk, i: nat, ghost start: seq<Disk>, ghost from: nat)
    returns (ok: bool)
    requires Distinct(ws) && i < |ws| && Backing(was, fs, ws, i, start, from) && NeedsBackup(fs.disk, ws[i])
    modifies fs
    ensures fs.Valid() && Grown(was, ws, start, fs.history) && Elsewhere(was, fs.disk, ws)
    ensures BackedTo(was, fs.disk, ws, if ok then i + 1 else i)
    ensures fs.ops == old(fs.ops) + 1 && (ok <==> fs.fault(old(fs.ops)).Fine?)
  {
    ghost var d, h := fs.disk, fs.history;
    ok := fs.CopyFile(ws[i].name, Bak(ws[i].name));
    if ok {
      BackupStep(was, d, fs.disk, ws, i);
      StillElsewhere(was, d, fs.disk, ws, i, Bak(ws[i].name));
    }
    BackedGrows(was, ws, start, h, fs.disk, if ok then i + 1 else i);
  }

  /** What the target of a failed commit looks like. */
  predicate Broken(was: Seen, v: Verdict, at: Seen)
  {
    match v
    case Done => false
    case CannotRemove => at == Kept(was)
    case RestoreFailed => Backup(was).Some? && at == Seen(None, Backup(was))
    case PutBack => Backup(was).Some? && at == Seen(Backup(was), Backup(was))
    case Bare => Backup(was).None? && at == Seen(None, None)
  }

  lemma CommittedSplits(was: Disk, d: Disk, ws: seq<Write>, k: nat)
    requires k < |ws| && CommittedTo(was, d, ws, k)
    ensures Halfway(was, d, ws, k, Kept(Look(was, ws[k].name)))
  {
  }

  /** On the way from `before` to `after` a reader could find `seen` at the target. */
  ghost predicate Passed(before: seq<Disk>, after: seq<Disk>, name: string, seen: Seen)
  {
    exists k | |before| <= k < |after| :: Look(after[k], name) == seen
  }

  lemma PassedStays(a: seq<Disk>, b: seq<Disk>, c: seq<Disk>, d: seq<Disk>, name: string, seen: Seen)
    requires |a| <= |b| && |c| <= |d| && d[..|c|] == c && Passed(b, c, name, seen)
    ensures Passed(a, d, name, seen)
  {
    var k :| |b| <= k < |c| && Look(c[k], name) == seen;
    assert d[k] == c[k];
  }

  /** The target is gone, its backup is there. */
  function Gone(was: Disk, w: Write): Seen { Seen(None, Backup(Look(was, w.name))) }

  /** One target: rename; if that fails, remove and rename; if that fails, restore. */
  method CommitOne(fs: Fs, ws: seq<Write>, ghost was: Disk, k: nat) returns (v: Verdict, ghost at: Seen)
    requires fs.Valid() && Distinct(ws) && k < |ws| && CommittedTo(was, fs.disk, ws, k) && Elsewhere(was, fs.disk, ws)
    modifies fs
    ensures fs.Valid() && Grown(was, ws, old(fs.history), fs.history) && Elsewhere(was, fs.disk, ws)
    ensures v.Done? ==> CommittedTo(was, fs.disk, ws, k + 1)
    ensures !v.Done? ==> Halfway(was, fs.disk, ws, k, at)
    ensures !v.Done? && Apart(ws) ==> Broken(Look(was, ws[k].name), v, at)
    ensures Apart(ws) && fs.fault(old(fs.ops)).Fine? ==> v.Done? && fs.ops == old(fs.ops) + 1
    ensures Apart(ws) && Refused(fs.fault, old(fs.ops)) ==> Passed(old(fs.history), fs.history, ws[k].name, Gone(was, ws[k]))
    ensures Apart(ws) ==> v == VerdictOf(fs.fault, old(fs.ops), Backup(Look(was, ws[k].name)).Some?)
  {
    at := Kept(Look(was, ws[k].name));
    v := Done;
    CommittedSplits(was, fs.disk, ws, k);
    HalfwayIsSafe(was, fs.disk, ws, k, at);
    var ok := TryRename(fs, ws, was, k, at);
    if ok {
      return;
    }
    ghost var h := fs.history;
    v, at := RemoveThenRename(fs, ws, was, k, at);
    GrownTwice(was, ws, old(fs.history), h, fs.history);
    if Apart(ws) && Refused(fs.fault, old(fs.ops)) {
      PassedStays(old(fs.history), h, fs.history, fs.history, ws[k].name, Gone(was, ws[k]));
    }
  }

  /** The `n`-th operation, a rename, is refused, and the removal after it is not. */
  predicate Refused(fault: nat -> Fault, n: nat) { !fault(n).Fine? && fault(n + 1).Fine? }

  /** Both renames are refused, the removal between them and the copy after them are not. */
  predicate PutsBack(fault: nat -> Fault, n: nat) { Refused(fault, n) && Refused(fault, n + 2) }

  /** How the commit of one target ends, by what its operations from the `n`-th on do: rename, else remove and rename,
      else put the backup back if there is one. */
  function VerdictOf(fault: nat -> Fault, n: nat, backup: bool): Verdict
  {
    if fault(n).Fine? then Done else RetryOf(fault, n + 1, backup)
  }

  function RetryOf(fault: nat -> Fault, n: nat, backup: bool): Verdict
  {
    if !fault(n).Fine? then CannotRemove
    else if fault(n + 1).Fine? then Done
    else if !backup then Bare
    else if fault(n + 2).Fine? then PutBack
    else RestoreFailed
  }

  /** Some file systems refuse to overwrite: the target is taken away first, and put back from its backup if the
      second rename fails too. */
  method RemoveThenRename(fs: Fs, ws: seq<Write>, ghost was: Disk, k: nat, ghost at: Seen)
    returns (v: Verdict, ghost at': Seen)
    requires fs.Valid() && Distinct(ws) && k < |ws| && Halfway(was, fs.disk, ws, k, at) && Elsewhere(was, fs.disk, ws)
    requires at == Kept(Look(was, ws[k].name))
    modifies fs
    ensures fs.Valid() && Grown(was, ws, old(fs.history), fs.history) && Elsewhere(was, fs.disk, ws)
    ensures v.Done? ==> CommittedTo(was, fs.disk, ws, k + 1)
    ensures !v.Done? ==> Halfway(was, fs.disk, ws, k, at')
    ensures !v.Done? && Apart(ws) ==> Broken(Look(was, ws[k].name), v, at')
    ensures Apart(ws) && fs.fault(old(fs.ops)).Fine? ==> Passed(old(fs.history), fs.history, ws[k].name, Gone(was, ws[k]))
    ensures Apart(ws) ==> v == RetryOf(fs.fault, old(fs.ops), Backup(Look(was, ws[k].name)).Some?)
  {
    var ok := TakeAway(fs, ws, was, k, at);
    if !ok {
      return CannotRemove, at;
    }
    at' := Seen(None, at.bak);
    ghost var h, h0 := fs.history, fs.history;
    assert Apart(ws) ==> Look(h0[|old(fs.history)|], ws[k].name) == Gone(was, ws[k]);
    ok := TryRename(fs, ws, was, k, at');
    GrownTwice(was, ws, old(fs.history), h, fs.history);
    if ok {
      v := Done;
    } else if Bak(ws[k].name) !in fs.disk {
      v := Bare;
    } else {
      h := fs.history;
      v, at' := Restore(fs, ws, was, k, at');
      GrownTwice(was, ws, old(fs.history), h, fs.history);
    }
    if Apart(ws) { PassedStays(old(fs.history), old(fs.history), h0, fs.history, ws[k].name, Gone(was, ws[k])); }
  }

  method TakeAway(fs: Fs, ws: seq<Write>, ghost was: Disk, k: nat, ghost at: Seen) returns (ok: bool)
    requires fs.Valid() && Distinct(ws) && k < |ws| && Halfway(was, fs.disk, ws, k, at) && Elsewhere(was, fs.disk, ws)
    requires at == Kept(Look(was, ws[k].name))
    modifies fs
    ensures fs.Valid() && Grown(was, ws, old(fs.history), fs.history) && Elsewhere(was, fs.disk, ws)
    ensures Halfway(was, fs.disk, ws, k, if ok then Seen(None, at.bak) else at)
    ensures (ok <==> fs.fault(old(fs.ops)).Fine?) && fs.history == old(fs.history) + [fs.disk] && fs.ops == old(fs.ops) + 1
  {
    ghost var d, h := fs.disk, fs.history;
    ok := fs.Remove(ws[k].name);
    ghost var now := if ok then Seen(None, at.bak) else at;
    if ok {
      TargetStep(was, d, fs.disk, ws, k, at, now);
      StillElsewhere(was, d, fs.disk, ws, k, ws[k].name);
    }
    OneTargetMoves(ws, k, d, fs.disk);
    HalfwayIsSafe(was, fs.disk, ws, k, now);
    GrowsOn(was, ws, old(fs.history), h, fs.disk);
  }

  method TryRename(fs: Fs, ws: seq<Write>, ghost was: Disk, k: nat, ghost at: Seen) returns (ok: bool)
    requires fs.Valid() && Distinct(ws) && k < |ws| && Halfway(was, fs.disk, ws, k, at) && Elsewhere(was, fs.disk, ws)
    requires at.bak == Backup(Look(was, ws[k].name)) && Possible(Look(was, ws[k].name), at, ws[k].content)
    modifies fs
    ensures fs.Valid() && Grown(was, ws, old(fs.history), fs.history) && Elsewhere(was, fs.disk, ws)
    ensures ok ==> CommittedTo(was, fs.disk, ws, k + 1)
    ensures !ok ==> fs.disk == old(fs.disk)
    ensures fs.ops == old(fs.ops) + 1 && (Apart(ws) ==> (ok <==> fs.fault(old(fs.ops)).Fine?))
    ensures fs.history == old(fs.history) + [fs.disk]
  {
    ghost var d, h := fs.disk, fs.history;
    PathsApart(ws[k].name, ws[k].name);
    ok := fs.Rename(Tmp(ws[k].name), ws[k].name);
    if ok {
      CommitStep(was, d, fs.disk, ws, k, at);
      CommittedIsSafe(was, fs.disk, ws, k + 1);
      ghost var mid := d - {Tmp(ws[k].name)};
      StillElsewhere(was, d, mid, ws, k, Tmp(ws[k].name));
      StillElsewhere(was, mid, fs.disk, ws, k, ws[k].name);
    } else {
      HalfwayIsSafe(was, fs.disk, ws, k, at);
    }
    OneTargetMoves(ws, k, d, fs.disk);
    GrowsOn(was, ws, old(fs.history), h, fs.disk);
  }

  method Restore(fs: Fs, ws: seq<Write>, ghost was: Disk, k: nat, ghost at: Seen) returns (v: Verdict, ghost at': Seen)
    requires fs.Valid() && Distinct(ws) && k < |ws| && Halfway(was, fs.disk, ws, k, at) && Elsewhere(was, fs.disk, ws)
    requires at == Seen(None, Backup(Look(was, ws[k].name))) && Bak(ws[k].name) in fs.disk
    modifies fs
    ensures fs.Valid() && Grown(was, ws, old(fs.history), fs.history) && Elsewhere(was, fs.disk, ws)
    ensures !v.Done? && Halfway(was, fs.disk, ws, k, at')
    ensures Apart(ws) ==> Broken(Look(was, ws[k].name), v, at')
    ensures v == if fs.fault(old(fs.ops)).Fine? then PutBack else RestoreFailed
  {
    ghost var d, h := fs.disk, fs.history;
    var ok := fs.CopyFile(Bak(ws[k].name), ws[k].name);
    at' := at;
    v := RestoreFailed;
    if ok {
      at' := Seen(Get(d, Bak(ws[k].name)), at.bak);
      TargetStep(was, d, fs.disk, ws, k, at, at');
      StillElsewhere(was, d, fs.disk, ws, k, ws[k].name);
      v := PutBack;
    }
    assert Apart(ws) ==> Possible(Look(was, ws[k].name), at', ws[k].content);
    if Apart(ws) {
      HalfwayIsSafe(was, fs.disk, ws, k, at');
    }
    OneTargetMoves(ws, k, d, fs.disk);
    GrowsOn(was, ws, old(fs.history), h, fs.disk);
  }

  function Names(ws: seq<Write>): (names: seq<string>)
    ensures |names| == |ws| && forall i | 0 <= i < |ws| :: names[i] == ws[i].name
  {
    seq(|ws|, i requires 0 <= i < |ws| => ws[i].name)
  }

  /** The renames of the first `i` targets succeed, the `i`-th is refused, and its target is taken away. */
  ghost predicate BreaksAt(fault: nat -> Fault, from: nat, i: nat)
  {
    AllFine(fault, from, i) && Refused(fault, from + i)
  }

  /** If the commit breaks at one of the first `k` targets, it passes a disk on which that target is gone. */
  ghost predicate AllGone(was: Disk, ws: seq<Write>, fault: nat -> Fault, from: nat, k: nat, before: seq<Disk>, after: seq<Disk>)
    requires k <= |ws|
  {
    forall i | 0 <= i < k && BreaksAt(fault, from, i) :: Passed(before, after, ws[i].name, Gone(was, ws[i]))
  }

  /** The renames of the first `i` targets succeed, and the `i`-th target is put back from its backup. */
  ghost predicate PutsBackAt(was: Disk, ws: seq<Write>, fault: nat -> Fault, from: nat, i: nat)
    requires i < |ws|
  {
    Backup(Look(was, ws[i].name)).Some? && AllFine(fault, from, i) && PutsBack(fault, from + i)
  }

  /** A commit that is to put the `i`-th target back stops there with that verdict. */
  ghost predicate StopsThere(was: Disk, ws: seq<Write>, fault: nat -> Fault, from: nat, v: Verdict, k: nat)
  {
    forall i | 0 <= i < |ws| && PutsBackAt(was, ws, fault, from, i) :: v.PutBack? && k == i
  }

  lemma StopsOrGoesOn(was: Disk, ws: seq<Write>, fault: nat -> Fault, from: nat, k: nat, n: nat, v: Verdict)
    requires k < |ws| && (forall i | 0 <= i < k :: !PutsBackAt(was, ws, fault, from, i))
    requires AllFine(fault, from, k) ==> n == from + k
    requires Backup(Look(was, ws[k].name)).Some? && PutsBack(fault, n) ==> v.PutBack?
    requires fault(n).Fine? ==> v.Done?
    ensures v.Done? ==> forall i | 0 <= i < k + 1 :: !PutsBackAt(was, ws, fault, from, i)
    ensures !v.Done? ==> StopsThere(was, ws, fault, from, v, k)
  {
    if !v.Done? {
      forall i | k < i < |ws| ensures !PutsBackAt(was, ws, fault, from, i) { BrokeBefore(fault, from, k, n, i); }
    }
  }

  lemma BrokeBefore(fault: nat -> Fault, from: nat, k: nat, n: nat, i: nat)
    requires k < i && !fault(n).Fine? && (AllFine(fault, from, k) ==> n == from + k)
    ensures !AllFine(fault, from, i)
  {
    if AllFine(fault, from, k) { assert !fault(from + k).Fine?; }
  }

  lemma OneMoreGone(was: Disk, ws: seq<Write>, fault: nat -> Fault, from: nat, k: nat, start: seq<Disk>, before: seq<Disk>,
                    after: seq<Disk>, n: nat, done: bool)
    requires k < |ws| && |start| <= |before| <= |after| && after[..|before|] == before
    requires AllGone(was, ws, fault, from, k, start, before) && (AllFine(fault, from, k) ==> n == from + k)
    requires Refused(fault, n) ==> Passed(before, after, ws[k].name, Gone(was, ws[k]))
    requires fault(n).Fine? ==> done
    ensures AllGone(was, ws, fault, from, k + 1, start, after)
    ensures !done ==> AllGone(was, ws, fault, from, |ws|, start, after)
  {
    if !done {
      forall i | k < i < |ws| ensures !BreaksAt(fault, from, i) { BrokeBefore(fault, from, k, n, i); }
    }
    forall i | 0 <= i <= k && BreaksAt(fault, from, i)
      ensures Passed(start, after, ws[i].name, Gone(was, ws[i]))
    {
      if i < k {
        PassedStays(start, start, before, after, ws[i].name, Gone(was, ws[i]));
      } else if i == k {
        PassedStays(start, before, after, after, ws[i].name, Gone(was, ws[i]));
      }
    }
  }

  lemma StillGone(was: Disk, ws: seq<Write>, fault: nat -> Fault, from: nat, start: seq<Disk>, before: seq<Disk>, after: seq<Disk>)
    requires AllGone(was, ws, fault, from, |ws|, start, before) && |before| <= |after| && after[..|before|] == before
    ensures AllGone(was, ws, fault, from, |ws|, start, after)
  {
    forall i | 0 <= i < |ws| && BreaksAt(fault, from, i) ensures Passed(start, after, ws[i].name, Gone(was, ws[i])) {
      PassedStays(start, start, before, after, ws[i].name, Gone(was, ws[i]));
    }
  }

  ghost predicate ThrowsThere(was: Disk, ws: seq<Write>, fault: nat -> Fault, from: nat, r: Outcome)
  {
    forall i | 0 <= i < |ws| && PutsBackAt(was, ws, fault, from, i) :: r.Failed? && r.name == ws[i].name && r.how.PutBack?
  }

  /** Target by target; `committed` discloses exactly what landed before a failure. */
  method Commit(fs: Fs, ws: seq<Write>, ghost was: Disk) returns (v: Verdict, k: nat, committed: seq<string>, ghost at: Seen)
    requires fs.Valid() && Distinct(ws) && CommittedTo(was, fs.disk, ws, 0) && Elsewhere(was, fs.disk, ws)
    modifies fs
    ensures fs.Valid() && Grown(was, ws, old(fs.history), fs.history) && Elsewhere(was, fs.disk, ws)
    ensures k <= |ws| && committed == Names(ws)[..k]
    ensures v.Done? ==> k == |ws| && CommittedTo(was, fs.disk, ws, k)
    ensures !v.Done? ==> k < |ws| && Halfway(was, fs.disk, ws, k, at) && (Apart(ws) ==> Broken(Look(was, ws[k].name), v, at))
    ensures Apart(ws) ==> AllGone(was, ws, fs.fault, old(fs.ops), |ws|, old(fs.history), fs.history)
    ensures Apart(ws) ==> StopsThere(was, ws, fs.fault, old(fs.ops), v, k)
    ensures Apart(ws) && AllFine(fs.fault, old(fs.ops), |ws|) ==> v.Done? && fs.ops == old(fs.ops) + |ws|
  {
    k, committed, v, at := 0, [], Done, Seen(None, None);
    while k < |ws|
      invariant k <= |ws| && fs.Valid() && Grown(was, ws, old(fs.history), fs.history)
      invariant committed == Names(ws)[..k] && v.Done?
      invariant CommittedTo(was, fs.disk, ws, k) && Elsewhere(was, fs.disk, ws)
      invariant Apart(ws) && AllFine(fs.fault, old(fs.ops), k) ==> fs.ops == old(fs.ops) + k
      invariant Apart(ws) ==> AllGone(was, ws, fs.fault, old(fs.ops), k, old(fs.history), fs.history)
      invariant Apart(ws) ==> forall i | 0 <= i < k :: !PutsBackAt(was, ws, fs.fault, old(fs.ops), i)
    {
      ghost var h, n := fs.history, fs.ops;
      v, at := CommitOne(fs, ws, was, k);
      GrownTwice(was, ws, old(fs.history), h, fs.history);
      if Apart(ws) {
        OneMoreGone(was, ws, fs.fault, old(fs.ops), k, old(fs.history), h, fs.history, n, v.Done?);
        StopsOrGoesOn(was, ws, fs.fault, old(fs.ops), k, n, v);
      }
      if !v.Done? {
        return;
      }
      assert Apart(ws) && AllFine(fs.fault, old(fs.ops), k + 1) ==> AllFine(fs.fault, old(fs.ops), k) && fs.fault(n).Fine?;
      committed := committed + [ws[k].name];
      k := k + 1;
    }
  }

  lemma RefreshMissed(was: Disk, d: Disk, ws: seq<Write>, k: nat, stale: seq<string>)
    requires Distinct(ws) && k < |ws| && RefreshedTo(was, d, ws, k, stale)
    ensures RefreshedTo(was, d, ws, k + 1, stale + [ws[k].name])
  {
  }

  /** Of the first `k` targets exactly those are named whose operation was refused. */
  ghost predicate RefusedAre(fault: nat -> Fault, from: nat, ws: seq<Write>, k: nat, stale: seq<string>)
    requires k <= |ws|
  {
    forall name :: name in stale <==> exists i | 0 <= i < k :: ws[i].name == name && !fault(from + i).Fine?
  }

  /** After a full commit each backup follows its target; a failure here is only a warning. */
  method Refresh(fs: Fs, ws: seq<Write>, ghost was: Disk) returns (stale: seq<string>)
    requires fs.Valid() && Distinct(ws) && RefreshedTo(was, fs.disk, ws, 0, []) && Elsewhere(was, fs.disk, ws)
    modifies fs
    ensures fs.Valid() && Grown(was, ws, old(fs.history), fs.history) && Elsewhere(was, fs.disk, ws)
    ensures RefreshedTo(was, fs.disk, ws, |ws|, stale)
    ensures Apart(ws) ==> SameTmps(old(fs.disk), fs.disk, ws)
    ensures Apart(ws) ==> RefusedAre(fs.fault, old(fs.ops), ws, |ws|, stale)
  {
    stale := [];
    var k := 0;
    while k < |ws|
      invariant 0 <= k <= |ws| && fs.Valid() && Grown(was, ws, old(fs.history), fs.history)
      invariant RefreshedTo(was, fs.disk, ws, k, stale) && Elsewhere(was, fs.disk, ws)
      invariant forall i | k <= i < |ws| :: ws[i].name !in stale
      invariant Apart(ws) ==> SameTmps(old(fs.disk), fs.disk, ws)
      invariant Apart(ws) ==> fs.ops == old(fs.ops) + k && RefusedAre(fs.fault, old(fs.ops), ws, k, stale)
    {
      var ok := RefreshOne(fs, ws, was, k, stale, old(fs.disk), old(fs.history));
      if !ok {
        RefreshMissed(was, fs.disk, ws, k, stale);
        stale := stale + [ws[k].name];
      }
      k := k + 1;
    }
  }

  ghost predicate SameTmps(d: Disk, d': Disk, ws: seq<Write>)
  {
    forall w | w in ws :: Get(d', Tmp(w.name)) == Get(d, Tmp(w.name))
  }

  method RefreshOne(fs: Fs, ws: seq<Write>, ghost was: Disk, k: nat, ghost stale: seq<string>, ghost from: Disk,
                    ghost start: seq<Disk>)
    returns (ok: bool)
    requires fs.Valid() && Distinct(ws) && k < |ws| && Grown(was, ws, start, fs.history)
    requires RefreshedTo(was, fs.disk, ws, k, stale) && Elsewhere(was, fs.disk, ws)
    requires (forall i | k <= i < |ws| :: ws[i].name !in stale) && (Apart(ws) ==> SameTmps(from, fs.disk, ws))
    modifies fs
    ensures fs.Valid() && Grown(was, ws, start, fs.history) && Elsewhere(was, fs.disk, ws)
    ensures RefreshedTo(was, fs.disk, ws, if ok then k + 1 else k, stale) && (Apart(ws) ==> SameTmps(from, fs.disk, ws))
    ensures Apart(ws) ==> fs.ops == old(fs.ops) + 1 && (ok <==> fs.fault(old(fs.ops)).Fine?)
  {
    ghost var d, h := fs.disk, fs.history;
    if ws[k].name !in fs.disk {
      assert Apart(ws) ==> Landed(Look(was, ws[k].name), Look(d, ws[k].name), ws[k].content);
      return true;
    }
    ok := fs.CopyFile(ws[k].name, Bak(ws[k].name));
    if ok {
      RefreshStep(was, d, fs.disk, ws, k, stale);
      StillElsewhere(was, d, fs.disk, ws, k, Bak(ws[k].name));
      if Apart(ws) {
        forall i | 0 <= i < |ws| ensures Get(fs.disk, Tmp(ws[i].name)) == Get(d, Tmp(ws[i].name)) {
          BakMovesItsTarget(ws, k, d, fs.disk, i);
        }
      }
    }
    OneBakMore(ws, d, fs.disk);
    RefreshedIsSafe(was, fs.disk, ws, if ok then k + 1 else k, stale);
    GrowsOn(was, ws, start, h, fs.disk);
  }

  /** Every staged file gets its removal attempt, and every failed attempt is named. */
  method CleanUp(fs: Fs, ws: seq<Write>, ghost was: Disk) returns (uncleaned: seq<string>)
    requires fs.Valid() && Distinct(ws) && Safe(was, fs.disk, ws)
    modifies fs
    ensures fs.Valid() && Grown(was, ws, old(fs.history), fs.history) && Elsewhere(was, fs.disk, ws)
    ensures Apart(ws) ==> SameLooks(old(fs.disk), fs.disk, ws)
    ensures forall i | 0 <= i < |ws| :: Tmp(ws[i].name) !in fs.disk || ws[i].name in uncleaned
    ensures RefusedAre(fs.fault, old(fs.ops), ws, |ws|, uncleaned)
  {
    uncleaned := [];
    var k := 0;
    while k < |ws|
      invariant 0 <= k <= |ws| && fs.Valid() && Grown(was, ws, old(fs.history), fs.history)
      invariant Safe(was, fs.disk, ws) && (Apart(ws) ==> SameLooks(old(fs.disk), fs.disk, ws))
      invariant forall i | 0 <= i < k :: Tmp(ws[i].name) !in fs.disk || ws[i].name in uncleaned
      invariant fs.ops == old(fs.ops) + k && RefusedAre(fs.fault, old(fs.ops), ws, k, uncleaned)
    {
      ghost var d, h := fs.disk, fs.history;
      var ok := fs.Remove(Tmp(ws[k].name));
      if ok {
        StillElsewhere(was, d, fs.disk, ws, k, Tmp(ws[k].name));
        TmpMovesNone(was, ws, k, d, fs.disk, old(fs.disk));
      } else {
        uncleaned := uncleaned + [ws[k].name];
      }
      OneTargetMoves(ws, k, d, fs.disk);
      GrowsOn(was, ws, old(fs.history), h, fs.disk);
      k := k + 1;
    }
  }

  ghost predicate SameLooks(d: Disk, d': Disk, ws: seq<Write>)
  {
    forall i | 0 <= i < |ws| :: Look(d', ws[i].name) == Look(d, ws[i].name)
  }

  lemma TmpMovesNone(was: Disk, ws: seq<Write>, k: nat, d: Disk, d': Disk, from: Disk)
    requires k < |ws| && Only(Tmp(ws[k].name), d, d') && AllPossible(was, d, ws)
    requires Apart(ws) ==> SameLooks(from, d, ws)
    ensures AllPossible(was, d', ws) && (Apart(ws) ==> SameLooks(from, d', ws))
  {
    if Apart(ws) {
      forall i | 0 <= i < |ws| ensures Look(d', ws[i].name) == Look(d, ws[i].name) {
        TmpMovesNoTarget(ws, k, d, d', i);
      }
    }
  }

  // ----- the whole call ------------------------------------------------------------------

  /** A failed commit at target `k`: everything before it is installed, everything after it untouched. */
  ghost predicate PartialAt(was: Disk, now: Disk, ws: seq<Write>, k: nat, how: Verdict)
    requires k < |ws|
  {
    && (forall i | 0 <= i < k :: Landed(Look(was, ws[i].name), Look(now, ws[i].name), ws[i].content))
    && (forall i | k < i < |ws| :: Look(now, ws[i].name) == Kept(Look(was, ws[i].name)))
    && Broken(Look(was, ws[k].name), how, Look(now, ws[k].name))
  }

  /** Staging or backing up failed: no target moved, backups only appeared. */
  ghost predicate OnlyBackedUp(was: Disk, now: Disk, ws: seq<Write>)
  {
    forall i | 0 <= i < |ws| ::
      var before, after := Look(was, ws[i].name), Look(now, ws[i].name);
      after == before || after == Kept(before)
  }

  /** What the caller may conclude from each outcome. */
  ghost predicate Told(was: Disk, now: Disk, ws: seq<Write>, r: Outcome)
  {
    match r
    case Duplicates => now == was
    case Installed(stale) => RefreshedTo(was, now, ws, |ws|, stale)
    case Unstaged(_) => Apart(ws) ==> OnlyBackedUp(was, now, ws)
    case Failed(name, how, committed, _) =>
      exists k: nat | k < |ws| ::
        ws[k].name == name && committed == Names(ws)[..k] && (Apart(ws) ==> PartialAt(was, now, ws, k, how))
  }

  predicate Cleaned(now: Disk, ws: seq<Write>, uncleaned: seq<string>)
  {
    forall i | 0 <= i < |ws| :: Tmp(ws[i].name) !in now || ws[i].name in uncleaned
  }

  predicate NoTmpLeft(now: Disk, ws: seq<Write>, r: Outcome)
  {
    match r
    case Duplicates => true
    case Installed(_) => Cleaned(now, ws, [])
    case Unstaged(uncleaned) => Cleaned(now, ws, uncleaned)
    case Failed(_, _, _, uncleaned) => Cleaned(now, ws, uncleaned)
  }

  method Install(fs: Fs, ws: seq<Write>) returns (r: Outcome)
    requires fs.Valid()
    modifies fs
    ensures fs.Valid() && (r.Duplicates? <==> !Distinct(ws))
    ensures Grown(old(fs.disk), ws, old(fs.history), fs.history)
    ensures Elsewhere(old(fs.disk), fs.disk, ws)
    ensures Told(old(fs.disk), fs.disk, ws, r)
    ensures Apart(ws) ==> NoTmpLeft(fs.disk, ws, r)
    ensures Apart(ws) && Distinct(ws) ==> Answers(old(fs.disk), ws, fs.fault, old(fs.ops), old(fs.history), fs.history, r)
  {
    var distinct := AreDistinct(ws);
    if !distinct {
      return Duplicates;
    }
    ghost var was, h0 := fs.disk, fs.history;
    ghost var k;
    var ready;
    ready, k := Prepare(fs, ws);
    if !ready {
      r := AfterFailure(fs, ws, was, h0, k);
      return;
    }
    ghost var h, n := fs.history, fs.ops;
    r := CommitAndRefresh(fs, ws, was, h0);
    if Apart(ws) {
      ConcludedAnswers(was, ws, fs.fault, old(fs.ops), n, h0, h, fs.history, r);
    }
  }

  /** Everything before the first target is touched. */
  method Prepare(fs: Fs, ws: seq<Write>) returns (ready: bool, ghost k: nat)
    requires fs.Valid() && Distinct(ws)
    modifies fs
    ensures fs.Valid() && Grown(old(fs.disk), ws, old(fs.history), fs.history) && Elsewhere(old(fs.disk), fs.disk, ws)
    ensures ready ==> CommittedTo(old(fs.disk), fs.disk, ws, 0)
    ensures !ready ==> k <= |ws| && (StagedTo(old(fs.disk), fs.disk, ws, 0) || BackedTo(old(fs.disk), fs.disk, ws, k))
    ensures Apart(ws) ==> (ready <==> Ready(old(fs.disk), ws, fs.fault, old(fs.ops)))
    ensures Apart(ws) && ready ==> fs.ops == old(fs.ops) + |ws| + Copies(old(fs.disk), ws, |ws|)
  {
    ghost var was, h0 := fs.disk, fs.history;
    k := 0;
    ready := Stage(fs, ws);
    if !ready {
      return;
    }
    ghost var h := fs.history;
    ready, k := BackUp(fs, ws, was);
    GrownTwice(was, ws, h0, h, fs.history);
    if ready {
      BackedIsCommitted(was, fs.disk, ws);
    }
  }

  /** Every staging write and every backup copy succeeds. */
  ghost predicate Ready(was: Disk, ws: seq<Write>, fault: nat -> Fault, ops: nat)
  {
    AllFine(fault, ops, |ws|) && AllFine(fault, ops + |ws|, Copies(was, ws, |ws|))
  }

  /** What the commit and the refresh make of their operations. */
  ghost predicate Concluded(was: Disk, ws: seq<Write>, fault: nat -> Fault, from: nat, before: seq<Disk>, after: seq<Disk>, r: Outcome)
  {
    && (r.Installed? || r.Failed?)
    && AllGone(was, ws, fault, from, |ws|, before, after) && ThrowsThere(was, ws, fault, from, r)
    && (AllFine(fault, from, |ws|) ==> r.Installed? && RefusedAre(fault, from + |ws|, ws, |ws|, r.stale))
  }

  /** What the install answers, by what its operations do. It stops before any target exactly if a staging write or a
      backup copy is refused; if no first rename is refused either, it succeeds and names exactly the backups whose
      refresh is; and where one target's rename is the first operation refused, it passes a disk on which that target is
      gone, and throws with the backup put back if the second rename is refused too. */
  ghost predicate Answers(was: Disk, ws: seq<Write>, fault: nat -> Fault, ops: nat, before: seq<Disk>, after: seq<Disk>, r: Outcome)
  {
    var backed := ops + |ws| + Copies(was, ws, |ws|);
    && (r.Unstaged? <==> !Ready(was, ws, fault, ops))
    && (Ready(was, ws, fault, ops) && AllFine(fault, backed, |ws|) ==>
          r.Installed? && RefusedAre(fault, backed + |ws|, ws, |ws|, r.stale))
    && FirstBreaks(was, ws, fault, ops, before, after, r)
  }

  ghost predicate FirstBreaks(was: Disk, ws: seq<Write>, fault: nat -> Fault, ops: nat, before: seq<Disk>, after: seq<Disk>, r: Outcome)
  {
    forall i | 0 <= i < |ws| ::
      && (FirstBreaksAt(was, ws, fault, ops, i) ==> Passed(before, after, ws[i].name, Gone(was, ws[i])))
      && (FirstPutsBackAt(was, ws, fault, ops, i) ==> r.Failed? && r.name == ws[i].name && r.how.PutBack?)
  }

  lemma FirstBreakPasses(was: Disk, ws: seq<Write>, fault: nat -> Fault, ops: nat, n: nat, start: seq<Disk>,
                         before: seq<Disk>, after: seq<Disk>, i: nat)
    requires i < |ws| && AllGone(was, ws, fault, n, |ws|, before, after) && |start| <= |before|
    requires n == ops + |ws| + Copies(was, ws, |ws|) && FirstBreaksAt(was, ws, fault, ops, i)
    ensures Passed(start, after, ws[i].name, Gone(was, ws[i]))
  {
    assert BreaksAt(fault, n, i);
    PassedStays(start, before, after, after, ws[i].name, Gone(was, ws[i]));
  }

  lemma FirstPutBackThrows(was: Disk, ws: seq<Write>, fault: nat -> Fault, ops: nat, n: nat, i: nat, r: Outcome)
    requires i < |ws| && ThrowsThere(was, ws, fault, n, r)
    requires n == ops + |ws| + Copies(was, ws, |ws|) && FirstPutsBackAt(was, ws, fault, ops, i)
    ensures r.Failed? && r.name == ws[i].name && r.how.PutBack?
  {
    assert PutsBackAt(was, ws, fault, n, i);
  }

  lemma ConcludedAnswers(was: Disk, ws: seq<Write>, fault: nat -> Fault, ops: nat, n: nat, start: seq<Disk>, before: seq<Disk>,
                         after: seq<Disk>, r: Outcome)
    requires Concluded(was, ws, fault, n, before, after, r) && |start| <= |before|
    requires Ready(was, ws, fault, ops) && n == ops + |ws| + Copies(was, ws, |ws|)
    ensures Answers(was, ws, fault, ops, start, after, r)
  {
    BreaksAnswer(was, ws, fault, ops, n, start, before, after, r);
  }

  lemma BreaksAnswer(was: Disk, ws: seq<Write>, fault: nat -> Fault, ops: nat, n: nat, start: seq<Disk>, before: seq<Disk>,
                     after: seq<Disk>, r: Outcome)
    requires AllGone(was, ws, fault, n, |ws|, before, after) && ThrowsThere(was, ws, fault, n, r) && |start| <= |before|
    requires n == ops + |ws| + Copies(was, ws, |ws|)
    ensures FirstBreaks(was, ws, fault, ops, start, after, r)
  {
    forall i | 0 <= i < |ws|
      ensures FirstBreaksAt(was, ws, fault, ops, i) ==> Passed(start, after, ws[i].name, Gone(was, ws[i]))
      ensures FirstPutsBackAt(was, ws, fault, ops, i) ==> r.Failed? && r.name == ws[i].name && r.how.PutBack?
    {
      if FirstBreaksAt(was, ws, fault, ops, i) { FirstBreakPasses(was, ws, fault, ops, n, start, before, after, i); }
      if FirstPutsBackAt(was, ws, fault, ops, i) { FirstPutBackThrows(was, ws, fault, ops, n, i, r); }
    }
  }

  /** No operation is refused until the rename of the `i`-th target, and that target is taken away. */
  ghost predicate FirstBreaksAt(was: Disk, ws: seq<Write>, fault: nat -> Fault, ops: nat, i: nat)
  {
    var staged := ops + |ws|;
    var backed := staged + Copies(was, ws, |ws|);
    AllFine(fault, ops, |ws|) && AllFine(fault, staged, Copies(was, ws, |ws|)) && BreaksAt(fault, backed, i)
  }

  /** No operation is refused until the rename of the `i`-th target, and that target is put back from its backup. */
  ghost predicate FirstPutsBackAt(was: Disk, ws: seq<Write>, fault: nat -> Fault, ops: nat, i: nat)
    requires i < |ws|
  {
    var staged := ops + |ws|;
    var backed := staged + Copies(was, ws, |ws|);
    AllFine(fault, ops, |ws|) && AllFine(fault, staged, Copies(was, ws, |ws|)) && PutsBackAt(was, ws, fault, backed, i)
  }

  lemma BackedIsCommitted(was: Disk, d: Disk, ws: seq<Write>)
    requires BackedTo(was, d, ws, |ws|)
    ensures CommittedTo(was, d, ws, 0)
  {
  }

  /** Staging or backing up failed with the first `k` targets backed up. */
  method AfterFailure(fs: Fs, ws: seq<Write>, ghost was: Disk, ghost start: seq<Disk>, ghost k: nat) returns (r: Outcome)
    requires fs.Valid() && Distinct(ws) && Grown(was, ws, start, fs.history) && k <= |ws|
    requires Elsewhere(was, fs.disk, ws)
    requires StagedTo(was, fs.disk, ws, 0) || BackedTo(was, fs.disk, ws, k)
    modifies fs
    ensures fs.Valid() && Grown(was, ws, start, fs.history) && Elsewhere(was, fs.disk, ws)
    ensures r.Unstaged? && Told(was, fs.disk, ws, r) && Cleaned(fs.disk, ws, r.uncleaned)
  {
    ghost var d, h := fs.disk, fs.history;
    if StagedTo(was, d, ws, 0) { StagedIsSafe(was, d, ws, 0); } else { BackedIsSafe(was, d, ws, k); }
    var uncleaned := CleanUp(fs, ws, was);
    GrownTwice(was, ws, start, h, fs.history);
    r := Unstaged(uncleaned);
  }

  method CommitAndRefresh(fs: Fs, ws: seq<Write>, ghost was: Disk, ghost start: seq<Disk>) returns (r: Outcome)
    requires fs.Valid() && Distinct(ws) && Grown(was, ws, start, fs.history)
    requires CommittedTo(was, fs.disk, ws, 0) && Elsewhere(was, fs.disk, ws)
    modifies fs
    ensures fs.Valid() && Grown(was, ws, start, fs.history) && Elsewhere(was, fs.disk, ws)
    ensures (r.Installed? || r.Failed?) && Told(was, fs.disk, ws, r)
    ensures Apart(ws) ==> NoTmpLeft(fs.disk, ws, r)
    ensures Apart(ws) ==> Concluded(was, ws, fs.fault, old(fs.ops), old(fs.history), fs.history, r)
  {
    ghost var at, h := Seen(None, None), fs.history;
    var v, k, committed;
    v, k, committed, at := Commit(fs, ws, was);
    GrownTwice(was, ws, start, h, fs.history);
    ghost var from := h;
    h := fs.history;
    ghost var d := fs.disk;
    if v.Done? {
      CommittedIsRefreshed(was, d, ws);
      var stale := Refresh(fs, ws, was);
      GrownTwice(was, ws, start, h, fs.history);
      r := Installed(stale);
      RefreshLeavesNoTmp(d, fs.disk, ws, was);
    } else {
      r := AfterBrokenCommit(fs, ws, was, start, k, committed, v, at);
    }
    if Apart(ws) {
      StillGone(was, ws, fs.fault, old(fs.ops), from, h, fs.history);
    }
  }

  method AfterBrokenCommit(fs: Fs, ws: seq<Write>, ghost was: Disk, ghost start: seq<Disk>, k: nat,
                           committed: seq<string>, v: Verdict, ghost at: Seen)
    returns (r: Outcome)
    requires fs.Valid() && Distinct(ws) && Grown(was, ws, start, fs.history) && Elsewhere(was, fs.disk, ws)
    requires k < |ws| && Halfway(was, fs.disk, ws, k, at) && (Apart(ws) ==> Broken(Look(was, ws[k].name), v, at))
    requires committed == Names(ws)[..k]
    modifies fs
    ensures fs.Valid() && Grown(was, ws, start, fs.history) && Elsewhere(was, fs.disk, ws)
    ensures r.Failed? && Told(was, fs.disk, ws, r) && Cleaned(fs.disk, ws, r.uncleaned)
    ensures r.name == ws[k].name && r.how == v
    ensures |old(fs.history)| <= |fs.history| && fs.history[..|old(fs.history)|] == old(fs.history)
  {
    ghost var d, h := fs.disk, fs.history;
    BrokenIsSafe(was, d, ws, k, at, v);
    var uncleaned := CleanUp(fs, ws, was);
    GrownTwice(was, ws, start, h, fs.history);
    r := Failed(ws[k].name, v, committed, uncleaned);
    PartialIsTold(was, d, fs.disk, ws, k, at, v, r);
  }

  lemma CommittedIsRefreshed(was: Disk, d: Disk, ws: seq<Write>)
    requires CommittedTo(was, d, ws, |ws|)
    ensures RefreshedTo(was, d, ws, 0, [])
  {
  }

  lemma BrokenIsSafe(was: Disk, d: Disk, ws: seq<Write>, k: nat, at: Seen, v: Verdict)
    requires k < |ws| && Halfway(was, d, ws, k, at) && (Apart(ws) ==> Broken(Look(was, ws[k].name), v, at))
    ensures AllPossible(was, d, ws)
  {
    if Apart(ws) {
      HalfwayIsSafe(was, d, ws, k, at);
    }
  }

  lemma PartialIsTold(was: Disk, d: Disk, d': Disk, ws: seq<Write>, k: nat, at: Seen, v: Verdict, r: Outcome)
    requires k < |ws| && Halfway(was, d, ws, k, at) && (Apart(ws) ==> Broken(Look(was, ws[k].name), v, at))
    requires Apart(ws) ==> SameLooks(d, d', ws)
    requires r.Failed? && r.name == ws[k].name && r.how == v && r.committed == Names(ws)[..k]
    ensures Told(was, d', ws, r)
  {
    assert Apart(ws) ==> PartialAt(was, d', ws, k, v);
  }

  lemma RefreshLeavesNoTmp(d: Disk, d': Disk, ws: seq<Write>, was: Disk)
    requires CommittedTo(was, d, ws, |ws|) && (Apart(ws) ==> SameTmps(d, d', ws))
    ensures Apart(ws) ==> Cleaned(d', ws, [])
  {
    if Apart(ws) {
      forall i | 0 <= i < |ws| ensures Tmp(ws[i].name) !in d' {
        assert ws[i] in ws && Arrived(was, d, ws[i]);
        assert Get(d', Tmp(ws[i].name)) == Get(d, Tmp(ws[i].name));
      }
    }
  }

  method AreDistinct(ws: seq<Write>) returns (distinct: bool)
    ensures distinct <==> Distinct(ws)
  {
    var seen: set<string> := {};
    var i := 0;
    while i < |ws|
      invariant 0 <= i <= |ws|
      invariant Distinct(ws[..i])
      invariant forall name :: name in seen <==> exists j | 0 <= j < i :: ws[j].name == name
    {
      if ws[i].name in seen {
        return false;
      }
      seen := seen + {ws[i].name};
      i := i + 1;
    }
    assert ws[..i] == ws;
    return true;
  }

  // ----- what the outcomes and the crash points mean ---------------------------------------

  /** Somewhere at the target a reader finds what was there, or what was to be installed. */
  predicate OldOrNew(was: Seen, now: Seen, c: Content)
    requires was.final.Some?
  {
    now.final == was.final || now.final == Some(c) || now.bak == was.final || now.bak == Some(c)
  }

  predicate GoodBackup(was: Seen, c: Content) { was.bak.None? || was.bak == was.final || was.bak == Some(c) }

  /** A crash anywhere leaves the old or the new content at an existing target or its backup, exactly when the
      backup the install found there was not a third content. */
  lemma CrashKeepsOldOrNew(was: Seen, c: Content)
    requires was.final.Some?
    ensures (forall now | Possible(was, now, c) :: OldOrNew(was, now, c)) <==> GoodBackup(was, c)
  {
    if !GoodBackup(was, c) {
      assert Possible(was, Seen(None, was.bak), c) && !OldOrNew(was, Seen(None, was.bak), c);
    }
  }

  /** So at every moment of an install under any faults, a target with such a backup is old or new. */
  lemma EveryMomentKeepsOldOrNew(was: Disk, ws: seq<Write>, before: seq<Disk>, after: seq<Disk>, k: nat, i: nat)
    requires Grown(was, ws, before, after) && |before| <= k < |after|
    requires Apart(ws) && i < |ws| && Look(was, ws[i].name).final.Some? && GoodBackup(Look(was, ws[i].name), ws[i].content)
    ensures OldOrNew(Look(was, ws[i].name), Look(after[k], ws[i].name), ws[i].content)
  {
    assert Moment(was, ws, after, k);
    CrashKeepsOldOrNew(Look(was, ws[i].name), ws[i].content);
  }

  /** And with any other backup there is an install that does pass a moment at which neither is left: every operation
      succeeds but the rename onto that target. */
  method LosesOldAndNew(disk: Disk, ws: seq<Write>, i: nat) returns (fs: Fs, r: Outcome)
    requires Apart(ws) && Distinct(ws) && i < |ws|
    requires Look(disk, ws[i].name).final.Some? && !GoodBackup(Look(disk, ws[i].name), ws[i].content)
    ensures fresh(fs) && |fs.history| > 0 && Grown(disk, ws, [disk], fs.history)
    ensures exists k | 0 < k < |fs.history| ::
              !OldOrNew(Look(disk, ws[i].name), Look(fs.history[k], ws[i].name), ws[i].content)
  {
    var refused := |ws| + Copies(disk, ws, |ws|) + i;
    fs := new Fs(disk, n => if n == refused then Fails else Fine);
    assert FirstBreaksAt(disk, ws, fs.fault, 0, i);
    r := Install(fs, ws);
    assert Passed([disk], fs.history, ws[i].name, Gone(disk, ws[i]));
    ghost var k :| 1 <= k < |fs.history| && Look(fs.history[k], ws[i].name) == Gone(disk, ws[i]);
    assert !OldOrNew(Look(disk, ws[i].name), Look(fs.history[k], ws[i].name), ws[i].content);
  }

  /** The disclosed list is exact: a name is on it if and only if its content has been installed by this call. */
  lemma CommittedIsExact(was: Disk, now: Disk, ws: seq<Write>, r: Outcome, i: nat)
    requires Apart(ws) && Distinct(ws) && Told(was, now, ws, r) && i < |ws| && r.Failed?
    ensures var before, after := Look(was, ws[i].name), Look(now, ws[i].name);
            if ws[i].name in r.committed then Landed(before, after, ws[i].content)
            else if ws[i].name == r.name then Broken(before, r.how, after)
            else after == Kept(before)
  {
    var k: nat :| k < |ws| && ws[k].name == r.name && r.committed == Names(ws)[..k] && PartialAt(was, now, ws, k, r.how);
    assert i < k ==> Names(ws)[..k][i] == ws[i].name;
    if ws[i].name in r.committed {
      var j :| 0 <= j < k && Names(ws)[..k][j] == ws[i].name;
      assert j == i;
    }
  }

  /** The target is where it was or where it should be; missing only if it was missing, or if its restore failed. */
  predicate Accounted(before: Seen, after: Seen, c: Content, lost: bool)
  {
    && (after.final.Some? ==> after.final == before.final || after.final == Some(c))
    && (after.final.None? && before.final.Some? ==> lost && OldOrNew(before, after, c))
  }

  /** After a failure each target holds its old or its new content; it is missing only if it was missing before,
      or it is the one whose restore failed, and then its backup holds the old or the new content. */
  lemma FailureKeepsOldOrNew(was: Disk, now: Disk, ws: seq<Write>, r: Outcome, i: nat)
    requires Apart(ws) && Distinct(ws) && Told(was, now, ws, r) && i < |ws| && (r.Unstaged? || r.Failed?)
    requires GoodBackup(Look(was, ws[i].name), ws[i].content)
    ensures Accounted(Look(was, ws[i].name), Look(now, ws[i].name), ws[i].content,
                      r.Failed? && r.name == ws[i].name && r.how.RestoreFailed?)
  {
    if r.Unstaged? {
      assert OnlyBackedUp(was, now, ws);
    } else {
      CommittedIsExact(was, now, ws, r, i);
    }
  }

  /** Whatever verdict the throw carries, its target is accounted for if and only if the backup the install found there
      was not a third content. */
  lemma ThrowKeepsOldOrNewIff(was: Seen, c: Content)
    ensures (forall v: Verdict, at: Seen | Broken(was, v, at) :: Accounted(was, at, c, v.RestoreFailed?)) <==> GoodBackup(was, c)
  {
    if !GoodBackup(was, c) {
      assert Broken(was, PutBack, Seen(was.bak, was.bak)) && !Accounted(was, Seen(was.bak, was.bak), c, false);
    }
  }

  /** And with any other backup there is an install that throws and leaves that third content at the target: only the
      two renames onto it are refused. */
  method ThrowsOverThirdContent(disk: Disk, ws: seq<Write>, i: nat) returns (fs: Fs, r: Outcome)
    requires Apart(ws) && Distinct(ws) && i < |ws| && !GoodBackup(Look(disk, ws[i].name), ws[i].content)
    ensures fresh(fs) && Told(disk, fs.disk, ws, r) && r.Failed? && r.name == ws[i].name && r.how.PutBack?
    ensures var before, after := Look(disk, ws[i].name), Look(fs.disk, ws[i].name);
            after == Seen(before.bak, before.bak) && after.final != before.final && after.final != Some(ws[i].content)
  {
    var refused := |ws| + Copies(disk, ws, |ws|) + i;
    fs := new Fs(disk, n => if n == refused || n == refused + 2 then Fails else Fine);
    assert FirstPutsBackAt(disk, ws, fs.fault, 0, i);
    r := Install(fs, ws);
    ghost var k: nat :| k < |ws| && ws[k].name == r.name && PartialAt(disk, fs.disk, ws, k, r.how);
    assert k == i;
  }

  // ----- over whole runs of installs ---------------------------------------------------------

  /** A content that was at the target when the run began, or that some round was to install there. */
  predicate Known(was: Seen, all: seq<Write>, name: string, c: Option<Content>)
  {
    c.None? || c == was.final || c == was.bak || Write(name, c.value) in all
  }

  /** A target that was there is still there, itself or as its backup, and only known contents are. */
  predicate Survives(was: Disk, now: Disk, all: seq<Write>, name: string)
  {
    var before, after := Look(was, name), Look(now, name);
    && (Found(before) ==> Found(after))
    && (before.bak.Some? ==> after.bak.Some?)
    && Known(before, all, name, after.final) && Known(before, all, name, after.bak)
  }

  ghost predicate AllSurvive(was: Disk, now: Disk, all: seq<Write>)
  {
    forall i | 0 <= i < |all| :: Survives(was, now, all, all[i].name)
  }

  lemma SubsetApart(all: seq<Write>, ws: seq<Write>)
    requires Apart(all) && forall w | w in ws :: w in all
    ensures Apart(ws)
  {
    forall i, j | 0 <= i < |ws| && 0 <= j < |ws|
      ensures ws[i].name != Tmp(ws[j].name) && ws[i].name != Bak(ws[j].name)
    {
      assert ws[i] in all && ws[j] in all;
    }
  }

  lemma OtherTargetStays(all: seq<Write>, ws: seq<Write>, was: Disk, now: Disk, name: string)
    requires Apart(all) && (forall w | w in ws :: w in all) && Elsewhere(was, now, ws)
    requires (exists w :: w in all && w.name == name) && forall i | 0 <= i < |ws| :: ws[i].name != name
    ensures Look(now, name) == Look(was, name)
  {
    var j :| 0 <= j < |all| && all[j].name == name;
    assert Unmentioned(ws, name) && Unmentioned(ws, Bak(name)) by {
      forall i | 0 <= i < |ws| ensures !Mentions(ws[i], name) && !Mentions(ws[i], Bak(name)) {
        assert ws[i] in ws;
        var m :| 0 <= m < |all| && all[m] == ws[i];
        PathsApart(name, ws[i].name);
        PathsApart(ws[i].name, name);
      }
    }
  }

  /** One more round, at any of its crash points. */
  lemma RoundSurvives(all: seq<Write>, ws: seq<Write>, first: Disk, was: Disk, now: Disk)
    requires Apart(all) && (forall w | w in ws :: w in all)
    requires AllSurvive(first, was, all) && Safe(was, now, ws)
    ensures AllSurvive(first, now, all)
  {
    SubsetApart(all, ws);
    forall i | 0 <= i < |all| ensures Survives(first, now, all, all[i].name) {
      var name := all[i].name;
      assert Survives(first, was, all, name);
      if j :| 0 <= j < |ws| && ws[j].name == name {
        assert ws[j] in ws && Possible(Look(was, name), Look(now, name), ws[j].content);
        assert Write(name, ws[j].content) == ws[j];
      } else {
        assert all[i] in all;
        OtherTargetStays(all, ws, was, now, name);
      }
    }
  }

  /** From the `from`-th moment on, what was there once is there at every later moment. */
  ghost predicate NothingVanishes(all: seq<Write>, moments: seq<Disk>, from: nat)
  {
    forall i, j, k | 0 <= i < |all| && from <= j <= k < |moments| :: Stays(moments[j], moments[k], all[i].name)
  }

  /** Within one round, for any target of the whole run. */
  lemma {:induction false} RoundStays(all: seq<Write>, ws: seq<Write>, was: Disk, before: seq<Disk>, after: seq<Disk>,
                                      i: nat, j: nat, k: nat)
    requires Apart(all) && (forall w | w in ws :: w in all) && i < |all|
    requires |before| > 0 && before[|before| - 1] == was && Grown(was, ws, before, after)
    requires |before| - 1 <= j <= k < |after|
    ensures Stays(after[j], after[k], all[i].name)
    decreases k - j
  {
    if j < k {
      SubsetApart(all, ws);
      assert Moment(was, ws, after, j + 1);
      if m :| 0 <= m < |ws| && ws[m].name == all[i].name {
        assert Stays(after[j], after[j + 1], ws[m].name);
      } else {
        assert all[i] in all;
        OtherTargetStays(all, ws, was, after[j + 1], all[i].name);
        if j >= |before| {
          assert Moment(was, ws, after, j);
          OtherTargetStays(all, ws, was, after[j], all[i].name);
        } else {
          assert after[j] == after[..|before|][j] == was;
        }
      }
      RoundStays(all, ws, was, before, after, i, j + 1, k);
    }
  }

  lemma StillNothingVanishes(all: seq<Write>, ws: seq<Write>, was: Disk, before: seq<Disk>, after: seq<Disk>, from: nat)
    requires Apart(all) && (forall w | w in ws :: w in all)
    requires |before| > 0 && before[|before| - 1] == was && Grown(was, ws, before, after)
    requires from < |before| && NothingVanishes(all, before, from)
    ensures NothingVanishes(all, after, from)
  {
    var n := |before| - 1;
    forall i, j, k | 0 <= i < |all| && from <= j <= k < |after| ensures Stays(after[j], after[k], all[i].name) {
      assert forall m | 0 <= m <= n :: after[m] == after[..|before|][m] == before[m];
      if j >= n {
        RoundStays(all, ws, was, before, after, i, j, k);
      } else if k > n {
        assert Stays(before[j], before[n], all[i].name);
        RoundStays(all, ws, was, before, after, i, n, k);
      } else {
        assert Stays(before[j], before[k], all[i].name);
      }
    }
  }

  /** Any number of installs, each under any faults and each possibly refused: at every moment of the whole run
      no target has vanished, none holds a content nobody put there, and nothing that was there at an earlier moment is lost. */
  method InstallRounds(fs: Fs, rounds: seq<seq<Write>>, ghost all: seq<Write>)
    requires fs.Valid() && Apart(all)
    requires forall r | r in rounds :: forall w | w in r :: w in all
    modifies fs
    ensures fs.Valid() && AllSurvive(old(fs.disk), fs.disk, all) && |old(fs.history)| <= |fs.history|
    ensures forall k | |old(fs.history)| <= k < |fs.history| :: AllSurvive(old(fs.disk), fs.history[k], all)
    ensures NothingVanishes(all, fs.history, |old(fs.history)| - 1)
  {
    var i := 0;
    while i < |rounds|
      invariant 0 <= i <= |rounds| && fs.Valid() && |old(fs.history)| <= |fs.history|
      invariant AllSurvive(old(fs.disk), fs.disk, all)
      invariant forall k | |old(fs.history)| <= k < |fs.history| :: AllSurvive(old(fs.disk), fs.history[k], all)
      invariant NothingVanishes(all, fs.history, |old(fs.history)| - 1)
    {
      ghost var was, h := fs.disk, fs.history;
      assert rounds[i] in rounds;
      var r := Install(fs, rounds[i]);
      forall k | |old(fs.history)| <= k < |fs.history| ensures AllSurvive(old(fs.disk), fs.history[k], all) {
        if k < |h| {
          assert fs.history[k] == h[k];
        } else {
          assert Moment(was, rounds[i], fs.history, k);
          RoundSurvives(all, rounds[i], old(fs.disk), was, fs.history[k]);
        }
      }
      StillNothingVanishes(all, rounds[i], was, h, fs.history, |old(fs.history)| - 1);
      if |fs.history| == |h| {
        assert fs.history == h;
      }
      i := i + 1;
    }
  }
}
