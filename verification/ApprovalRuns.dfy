/**
 * What every interleaving of the approval protocol keeps, and what follows from it: one runner at a time on a
 * record, no second replay without an operator's release, honest closing states.
 */
module ApprovalRuns {
  import opened Wrappers
  import opened Approval

  // ----- the invariant, conjunct by conjunct -------------------------------------

  ghost predicate Rooted(s: State, n: nat)
    requires n in s.tasks
  {
    n < s.next && s.tasks[n].pid in s.alive && PcFits(s.tasks[n])
  }

  /** Every call under way belongs to a live process. */
  ghost predicate Tasks(s: State) { forall n | n in s.tasks :: Rooted(s, n) }

  function KeyOf(t: Task): Key { (t.pid, t.job, t.id) }

  /** A deduped call is in its process's in-flight map, alone under its key. */
  ghost predicate Keys(s: State)
  {
    && (forall n | n in s.tasks :: Deduped(s.tasks[n].job) ==> KeyOf(s.tasks[n]) in s.inFlight)
    && (forall n, m | n in s.tasks && m in s.tasks ::
          Deduped(s.tasks[n].job) && KeyOf(s.tasks[n]) == KeyOf(s.tasks[m]) ==> n == m)
  }

  /** The claim was minted by a call on this record, which may be gone. */
  ghost predicate Names(s: State, c: Claim, id: string)
  {
    c.token < s.next
    && (c.token in s.tasks ==>
          s.tasks[c.token].pid == c.pid && s.tasks[c.token].id == id && !s.tasks[c.token].job.Release?)
  }

  ghost predicate NamesApprove(s: State, c: Claim, id: string)
  {
    Names(s, c, id) && (c.token in s.tasks ==> s.tasks[c.token].job.Approve?)
  }

  ghost predicate ViewFits(s: State, id: string, v: View)
  {
    && RecOk(v)
    && (v.rec.Some? && v.rec.value.claimedBy.Some? ==> Names(s, v.rec.value.claimedBy.value, id))
    && (v.landed.Some? ==> NamesApprove(s, v.landed.value, id))
  }

  ghost predicate Records(s: State) { forall id | id in s.views :: ViewFits(s, id, s.views[id]) }

  ghost predicate Holds(s: State, n: nat)
    requires n in s.tasks
  {
    var t := s.tasks[n];
    Holder(t) ==> t.id in s.views && HolderOk(t, Own(n, t), s.views[t.id])
  }

  ghost predicate Holders(s: State) { forall n | n in s.tasks :: Holds(s, n) }

  ghost predicate Single(s: State)
  {
    forall n, m | n in s.tasks && m in s.tasks ::
      Holder(s.tasks[n]) && Holder(s.tasks[m]) && s.tasks[n].id == s.tasks[m].id ==> n == m
  }

  /** A release holds a claim some call minted; once checked, no live deduped call owns it. */
  ghost predicate Orphaned(s: State, n: nat)
    requires n in s.tasks
  {
    var t := s.tasks[n];
    && (t.pc.Read? || t.pc.Checked? ==> Names(s, t.pc.claim, t.id))
    && (t.pc.Checked? && t.pc.claim.token in s.tasks ==> !Deduped(s.tasks[t.pc.claim.token].job))
  }

  ghost predicate Orphans(s: State) { forall n | n in s.tasks :: Orphaned(s, n) }

  ghost predicate Inv(s: State) { Tasks(s) && Keys(s) && Records(s) && Holders(s) && Single(s) && Orphans(s) }

  // ----- a call's own stretch -----------------------------------------------------

  /** `Names` depends only on who the calls are, not on where they stand. */
  ghost predicate SameCalls(s: State, s': State)
  {
    && s'.next == s.next && s'.alive == s.alive && s'.inFlight == s.inFlight
    && s'.tasks.Keys == s.tasks.Keys
    && forall n | n in s.tasks :: s'.tasks[n] == s.tasks[n].(pc := s'.tasks[n].pc)
  }

  lemma NamesStay(s: State, s': State, c: Claim, id: string)
    requires SameCalls(s, s')
    ensures Names(s, c, id) == Names(s', c, id) && NamesApprove(s, c, id) == NamesApprove(s', c, id)
  {
    assert c.token in s.tasks <==> c.token in s.tasks.Keys;
    assert c.token in s'.tasks <==> c.token in s'.tasks.Keys;
  }

  ghost function After(s: State, n: nat, move: Move): Effect
    requires n in s.tasks
  {
    Local(s.tasks[n], Own(n, s.tasks[n]), ViewOf(s, s.tasks[n].id), move)
  }

  lemma ActIsLocal(s: State, n: nat, move: Move, s': State)
    requires Inv(s) && n in s.tasks && s' == Next(s, Act(n, move))
    ensures SameCalls(s, s') && s'.views.Keys == s.views.Keys
    ensures forall m | m in s.tasks && m != n :: s'.tasks[m] == s.tasks[m]
    ensures s'.tasks[n] == s.tasks[n].(pc := After(s, n, move).pc)
    ensures forall id | id in s.views && id != s.tasks[n].id :: s'.views[id] == s.views[id]
    ensures s.tasks[n].id in s.views ==> s'.views[s.tasks[n].id] == After(s, n, move).view
  {
  }

  /** What the invariant gives one call for its next stretch. */
  lemma ActOwn(s: State, n: nat, move: Move)
    requires Inv(s) && n in s.tasks
    ensures var t := s.tasks[n]; var own := Own(n, t); var v := ViewOf(s, t.id); var e := After(s, n, move);
            && PcFits(t) && PcFits(t.(pc := e.pc)) && RecOk(e.view)
            && (t.pc.Auditing? ==> t.pc.rec.claimedBy == Some(own))
            && (Holder(t.(pc := e.pc)) ==> HolderOk(t.(pc := e.pc), own, e.view) && t.id in s.views)
  {
    var t, own, v := s.tasks[n], Own(n, s.tasks[n]), ViewOf(s, s.tasks[n].id);
    assert Rooted(s, n) && Holds(s, n);
    if t.id in s.views {
      assert ViewFits(s, t.id, v);
    }
    LocalKeepsOwn(t, own, v, move);
  }

  /** What it gives another holder of the same record. */
  lemma ActOther(s: State, n: nat, move: Move, m: nat)
    requires Inv(s) && n in s.tasks && m in s.tasks && m != n
    requires Holder(s.tasks[m]) && s.tasks[m].id == s.tasks[n].id
    ensures var e := After(s, n, move);
            HolderOk(s.tasks[m], Own(m, s.tasks[m]), e.view) && !Holder(s.tasks[n].(pc := e.pc))
  {
    var t, other := s.tasks[n], s.tasks[m];
    assert Rooted(s, n) && Holds(s, m) && Orphaned(s, n);
    assert Own(m, other).token == m;
    LocalKeepsOther(t, Own(n, t), ViewOf(s, t.id), move, other, Own(m, other));
  }

  lemma ActKeepsTasks(s: State, n: nat, move: Move, s': State)
    requires Inv(s) && n in s.tasks && s' == Next(s, Act(n, move))
    ensures Tasks(s') && Keys(s')
  {
    ActIsLocal(s, n, move, s');
    ActOwn(s, n, move);
    forall m | m in s'.tasks ensures Rooted(s', m) && (Deduped(s'.tasks[m].job) ==> KeyOf(s'.tasks[m]) in s'.inFlight) {
      assert m in s.tasks.Keys && Rooted(s, m);
    }
    forall m, k | m in s'.tasks && k in s'.tasks
      ensures Deduped(s'.tasks[m].job) && KeyOf(s'.tasks[m]) == KeyOf(s'.tasks[k]) ==> m == k
    {
      assert m in s.tasks.Keys && k in s.tasks.Keys;
      assert KeyOf(s'.tasks[m]) == KeyOf(s.tasks[m]) && KeyOf(s'.tasks[k]) == KeyOf(s.tasks[k]);
    }
  }

  lemma ActKeepsRecords(s: State, n: nat, move: Move, s': State)
    requires Inv(s) && n in s.tasks && s' == Next(s, Act(n, move))
    ensures Records(s')
  {
    ActIsLocal(s, n, move, s');
    ActOwn(s, n, move);
    var t, own := s.tasks[n], Own(n, s.tasks[n]);
    assert Rooted(s, n);
    LocalClaims(t, own, ViewOf(s, t.id), move);
    forall id | id in s'.views ensures ViewFits(s', id, s'.views[id]) {
      assert id in s.views.Keys;
      assert ViewFits(s, id, s.views[id]);
      var v := s'.views[id];
      if v.rec.Some? && v.rec.value.claimedBy.Some? {
        if t.job.Release? { assert Orphaned(s, n); }
        NamesStay(s, s', v.rec.value.claimedBy.value, id);
      }
      if v.landed.Some? {
        NamesStay(s, s', v.landed.value, id);
      }
    }
  }

  lemma ActKeepsHolders(s: State, n: nat, move: Move, s': State)
    requires Inv(s) && n in s.tasks && s' == Next(s, Act(n, move))
    ensures Holders(s') && Single(s')
  {
    ActIsLocal(s, n, move, s');
    ActOwn(s, n, move);
    forall m | m in s'.tasks ensures Holds(s', m) {
      assert m in s.tasks.Keys;
      if m != n && Holder(s.tasks[m]) {
        assert Holds(s, m);
        if s.tasks[m].id == s.tasks[n].id {
          ActOther(s, n, move, m);
        }
      }
    }
    forall m, k | m in s'.tasks && k in s'.tasks
      ensures Holder(s'.tasks[m]) && Holder(s'.tasks[k]) && s'.tasks[m].id == s'.tasks[k].id ==> m == k
    {
      assert m in s.tasks.Keys && k in s.tasks.Keys;
      if Holder(s'.tasks[m]) && Holder(s'.tasks[k]) && s'.tasks[m].id == s'.tasks[k].id && m != k {
        if m == n {
          ActOther(s, n, move, k);
        } else if k == n {
          ActOther(s, n, move, m);
        }
      }
    }
  }

  lemma ActKeepsOrphans(s: State, n: nat, move: Move, s': State)
    requires Inv(s) && n in s.tasks && s' == Next(s, Act(n, move))
    ensures Orphans(s')
  {
    ActIsLocal(s, n, move, s');
    var t, own, v := s.tasks[n], Own(n, s.tasks[n]), ViewOf(s, s.tasks[n].id);
    ActOwn(s, n, move);
    LocalClaims(t, own, v, move);
    forall m | m in s'.tasks ensures Orphaned(s', m) {
      assert m in s.tasks.Keys && Orphaned(s, m);
      var c := s'.tasks[m].pc;
      if c.Read? || c.Checked? {
        if m == n && c != t.pc {
          assert t.id in s.views && ViewFits(s, t.id, v);
        }
        NamesStay(s, s', c.claim, s.tasks[m].id);
      }
    }
  }

  lemma ActKeeps(s: State, n: nat, move: Move)
    requires Inv(s)
    ensures Inv(Next(s, Act(n, move)))
  {
    if n in s.tasks {
      var s' := Next(s, Act(n, move));
      ActKeepsTasks(s, n, move, s');
      ActKeepsRecords(s, n, move, s');
      ActKeepsHolders(s, n, move, s');
      ActKeepsOrphans(s, n, move, s');
    }
  }

  // ----- the other steps ------------------------------------------------------------

  /** Fewer calls name fewer tokens. */
  ghost predicate Fewer(s: State, s': State)
  {
    && s'.next >= s.next
    && (forall n | n in s'.tasks :: (n in s.tasks && s'.tasks[n] == s.tasks[n]) || (n >= s.next && s'.tasks[n].pc.Start?))
  }

  lemma FewerNames(s: State, s': State, c: Claim, id: string)
    requires Fewer(s, s') && Names(s, c, id)
    ensures Names(s', c, id) && (NamesApprove(s, c, id) ==> NamesApprove(s', c, id))
  {
  }

  /** Records untouched, calls only gone or newly begun: everything but the key map stays. */
  lemma FewerKeeps(s: State, s': State)
    requires Inv(s) && Fewer(s, s') && s'.views == s.views
    ensures Records(s') && Holders(s') && Single(s') && Orphans(s')
  {
    forall id | id in s'.views ensures ViewFits(s', id, s'.views[id]) {
      var v := s.views[id];
      assert ViewFits(s, id, v);
      if v.rec.Some? && v.rec.value.claimedBy.Some? { FewerNames(s, s', v.rec.value.claimedBy.value, id); }
      if v.landed.Some? { FewerNames(s, s', v.landed.value, id); }
    }
    forall n | n in s'.tasks ensures Holds(s', n) {
      if n in s.tasks { assert Holds(s, n); }
    }
    forall n | n in s'.tasks ensures Orphaned(s', n) {
      var t := s'.tasks[n];
      if t.pc.Read? || t.pc.Checked? {
        assert Orphaned(s, n);
        FewerNames(s, s', t.pc.claim, t.id);
      }
    }
  }

  lemma BeginKeeps(s: State, pid: nat, job: Job, id: string)
    requires Inv(s) && pid in s.alive && (Deduped(job) ==> (pid, job, id) !in s.inFlight)
    ensures Inv(Begun(s, pid, job, id))
  {
    var s' := Begun(s, pid, job, id);
    assert Fewer(s, s');
    FewerKeeps(s, s');
    forall n | n in s'.tasks ensures Rooted(s', n) {
      if n in s.tasks { assert Rooted(s, n); }
    }
    assert s.next !in s.tasks by {
      assert s.next in s.tasks ==> Rooted(s, s.next);
    }
    forall n | n in s.tasks ensures Deduped(s.tasks[n].job) ==> KeyOf(s.tasks[n]) != (pid, job, id) {
    }
  }

  lemma EndKeeps(s: State, n: nat)
    requires Inv(s) && n in s.tasks
    ensures Inv(Ended(s, n))
  {
    var s' := Ended(s, n);
    FewerKeeps(s, s');
    forall m | m in s'.tasks ensures Rooted(s', m) && (Deduped(s'.tasks[m].job) ==> KeyOf(s'.tasks[m]) in s'.inFlight) {
      assert Rooted(s, m);
    }
  }

  lemma CrashKeeps(s: State, pid: nat)
    requires Inv(s)
    ensures Inv(Crashed(s, pid))
  {
    var s' := Crashed(s, pid);
    FewerKeeps(s, s');
    forall m | m in s'.tasks ensures Rooted(s', m) && (Deduped(s'.tasks[m].job) ==> KeyOf(s'.tasks[m]) in s'.inFlight) {
      assert Rooted(s, m);
    }
  }

  /** A claim that passes both checks has no live call behind it that could still be running. */
  lemma CheckKeeps(s: State, n: nat)
    requires Inv(s) && n in s.tasks
    ensures Inv(Next(s, CheckOrphan(n)))
  {
    var s' := Next(s, CheckOrphan(n));
    assert SameCalls(s, s');
    var t := s.tasks[n];
    assert Rooted(s, n) && Orphaned(s, n);
    assert Holder(s'.tasks[n]) ==> s'.tasks[n] == t;
    forall m | m in s'.tasks ensures Rooted(s', m) && (Deduped(s'.tasks[m].job) ==> KeyOf(s'.tasks[m]) in s'.inFlight) {
      assert Rooted(s, m);
    }
    forall id | id in s'.views ensures ViewFits(s', id, s'.views[id]) {
      var v := s.views[id];
      assert ViewFits(s, id, v);
      if v.rec.Some? && v.rec.value.claimedBy.Some? { NamesStay(s, s', v.rec.value.claimedBy.value, id); }
      if v.landed.Some? { NamesStay(s, s', v.landed.value, id); }
    }
    forall m | m in s'.tasks ensures Holds(s', m) { assert Holds(s, m); }
    CheckKeepsOrphans(s, n, s');
  }

  lemma CheckKeepsOrphans(s: State, n: nat, s': State)
    requires Inv(s) && n in s.tasks && s' == Next(s, CheckOrphan(n)) && SameCalls(s, s')
    ensures Orphans(s')
  {
    var t := s.tasks[n];
    assert Rooted(s, n) && Orphaned(s, n);
    forall m | m in s'.tasks ensures Orphaned(s', m) {
      assert Orphaned(s, m);
      var c := s.tasks[m].pc;
      if c.Read? || c.Checked? { NamesStay(s, s', c.claim, s.tasks[m].id); }
      if m == n && t.pc.Read? && s'.tasks[n].pc.Checked? && t.pc.claim.token in s.tasks {
        var k := t.pc.claim.token;
        assert Rooted(s, k);
        assert KeyOf(s.tasks[k]) == (t.pid, s.tasks[k].job, t.id);
      }
    }
  }

  lemma OtherViews(s: State, s': State)
    requires Inv(s) && s' == s.(views := s'.views)
    requires forall id | id in s'.views :: ViewFits(s, id, s'.views[id])
    requires forall n | n in s.tasks :: Holds(s', n)
    ensures Inv(s')
  {
    forall n | n in s'.tasks ensures Rooted(s', n) && Orphaned(s', n) {
      assert Rooted(s, n) && Orphaned(s, n);
    }
    forall id | id in s'.views ensures ViewFits(s', id, s'.views[id]) {
      var v := s'.views[id];
      assert ViewFits(s, id, v);
      assert SameCalls(s, s');
      if v.rec.Some? && v.rec.value.claimedBy.Some? { NamesStay(s, s', v.rec.value.claimedBy.value, id); }
      if v.landed.Some? { NamesStay(s, s', v.landed.value, id); }
    }
  }

  lemma StageKeeps(s: State, id: string, kind: Kind)
    requires Inv(s)
    ensures Inv(Next(s, Stage(id, kind)))
  {
    var s' := Next(s, Stage(id, kind));
    forall j | j in s'.views ensures ViewFits(s, j, s'.views[j]) {
      if j in s.views { assert ViewFits(s, j, s.views[j]); }
    }
    forall n | n in s.tasks ensures Holds(s', n) { assert Holds(s, n); }
    OtherViews(s, s');
  }

  lemma EvictKeeps(s: State, id: string)
    requires Inv(s)
    ensures Inv(Next(s, Evict(id)))
  {
    var s' := Next(s, Evict(id));
    forall j | j in s'.views ensures ViewFits(s, j, s'.views[j]) {
      assert ViewFits(s, j, s.views[j]);
    }
    forall n | n in s.tasks ensures Holds(s', n) { assert Holds(s, n); }
    OtherViews(s, s');
  }

  lemma RestartKeeps(s: State, pid: nat)
    requires Inv(s)
    ensures Inv(Next(s, Restart(pid)))
  {
    var s' := Next(s, Restart(pid));
    FewerKeeps(s, s');
    forall n | n in s'.tasks ensures Rooted(s', n) { assert Rooted(s, n); }
  }

  lemma NextKeeps(s: State, step: Step)
    requires Inv(s)
    ensures Inv(Next(s, step))
  {
    match step
    case Stage(id, kind) => StageKeeps(s, id, kind);
    case Begin(pid, job, id) =>
      if pid in s.alive && (Deduped(job) ==> (pid, job, id) !in s.inFlight) { BeginKeeps(s, pid, job, id); }
    case Act(n, move) => ActKeeps(s, n, move);
    case CheckOrphan(n) => if n in s.tasks { CheckKeeps(s, n); }
    case End(n) => if n in s.tasks { EndKeeps(s, n); }
    case Crash(pid) => CrashKeeps(s, pid);
    case Restart(pid) => RestartKeeps(s, pid);
    case Evict(id) => EvictKeeps(s, id);
  }

  /** Every reachable state satisfies the invariant. */
  lemma {:induction false} RunsKeep(steps: seq<Step>)
    ensures Inv(Run(steps))
  {
    if steps == [] {
    } else {
      RunsKeep(steps[..|steps| - 1]);
      NextKeeps(Run(steps[..|steps| - 1]), steps[|steps| - 1]);
    }
  }

  // ----- what follows, for every run ---------------------------------------------

  /** The call a deduped key stands for. */
  ghost predicate InFlightAs(s: State, k: Key, n: nat) { n in s.tasks && KeyOf(s.tasks[n]) == k && Deduped(s.tasks[n].job) }

  ghost predicate KeysHaveCalls(s: State) { forall k | k in s.inFlight :: exists n: nat :: InFlightAs(s, k, n) }

  lemma NextKeepsCalls(s: State, step: Step)
    requires Keys(s) && KeysHaveCalls(s) && (forall n | n in s.tasks :: n < s.next)
    ensures KeysHaveCalls(Next(s, step))
  {
    var s' := Next(s, step);
    forall k | k in s'.inFlight ensures exists n: nat :: InFlightAs(s', k, n) {
      if k in s.inFlight {
        var n: nat :| InFlightAs(s, k, n);
        assert InFlightAs(s', k, n);
      } else {
        assert InFlightAs(s', k, s.next);
      }
    }
  }

  /** The in-flight maps hold a key exactly while a deduped call under it is under way, in every run. */
  lemma {:induction false} InFlightIsUnderWay(steps: seq<Step>)
    ensures forall k :: k in Run(steps).inFlight <==> exists n: nat :: InFlightAs(Run(steps), k, n)
  {
    RunsKeep(steps);
    if steps != [] {
      var before := steps[..|steps| - 1];
      InFlightIsUnderWay(before);
      RunsKeep(before);
      forall n | n in Run(before).tasks ensures n < Run(before).next { assert Rooted(Run(before), n); }
      NextKeepsCalls(Run(before), steps[|steps| - 1]);
    }
  }

  /** In every interleaving, two replay runners in flight on one record are the same call. */
  lemma OneRunnerAtATime(steps: seq<Step>, n: nat, m: nat)
    requires var s := Run(steps); n in s.tasks && m in s.tasks
    requires var s := Run(steps); s.tasks[n].pc.Running? && s.tasks[m].pc.Running? && s.tasks[n].id == s.tasks[m].id
    ensures n == m
  {
    RunsKeep(steps);
    assert Rooted(Run(steps), n) && Rooted(Run(steps), m);
  }

  /** A call that is about to start a runner, or has one in flight, on a record whose replay already landed can
      only be there because an operator released the record after that. */
  lemma NoSecondRunnerUnlessFreed(steps: seq<Step>, n: nat)
    requires var s := Run(steps); n in s.tasks && (s.tasks[n].pc.Held? || s.tasks[n].pc.Running?)
    ensures var s := Run(steps);
            var v := ViewOf(s, s.tasks[n].id);
            v.landed.Some? ==> v.freed
  {
    RunsKeep(steps);
    assert Rooted(Run(steps), n) && Holds(Run(steps), n);
  }

  /** A claim a release may give up never belongs to an approve or a reject that is still holding the record. */
  lemma ReleaseSparesHolders(steps: seq<Step>, n: nat, m: nat)
    requires var s := Run(steps); n in s.tasks && m in s.tasks && s.tasks[n].pc.Checked? && Holder(s.tasks[m])
    ensures var s := Run(steps); s.tasks[n].pc.claim != Own(m, s.tasks[m])
  {
    RunsKeep(steps);
    assert Orphaned(Run(steps), n);
  }

  /** The effect landed and yet the record reads rejected: only the unclaimed rescue leaves that behind. */
  lemma DivergenceIsTheRescue(steps: seq<Step>, id: string)
    requires var v := ViewOf(Run(steps), id);
             v.rec.Some? && v.rec.value.status.Rejected? && v.landed.Some? && !v.freed
    ensures ViewOf(Run(steps), id).rescued
  {
    RunsKeep(steps);
    assert ViewFits(Run(steps), id, ViewOf(Run(steps), id));
  }

  /** A record that reads approved was replayed, or is a capability answered without a runner. */
  lemma ApprovalIsEarned(steps: seq<Step>, id: string)
    requires var v := ViewOf(Run(steps), id); v.rec.Some? && v.rec.value.status.Approved?
    ensures var v := ViewOf(Run(steps), id); v.landed.Some? || v.rec.value.kind.Capability?
  {
    RunsKeep(steps);
    assert ViewFits(Run(steps), id, ViewOf(Run(steps), id));
  }

  lemma RunMore(steps: seq<Step>, step: Step, id: string)
    ensures Run(steps + [step]) == Next(Run(steps), step)
    ensures Landings(steps + [step], id) == Landings(steps, id) + if Lands(Run(steps), step, id) then 1 else 0
  {
    assert (steps + [step])[..|steps|] == steps;
  }

  lemma HistoryStays(s: State, step: Step, id: string)
    requires id in s.views
    ensures var s' := Next(s, step);
            && id in s'.views
            && (s.views[id].expired ==> s'.views[id].expired)
            && (s.views[id].landed.Some? ==> s'.views[id].landed.Some?)
  {
  }

  /** A record the sweep closed stays closed in every later step of the run: it is rejected (or evicted), and no
      call holds it, so no runner is in flight on it, then or later. */
  lemma {:induction false} ExpiryIsFinal(steps: seq<Step>, more: seq<Step>, id: string)
    requires ViewOf(Run(steps), id).expired
    ensures var s := Run(steps + more);
            && ViewOf(s, id).expired
            && (ViewOf(s, id).rec.Some? ==> ViewOf(s, id).rec.value.status.Rejected?)
            && forall n | n in s.tasks && s.tasks[n].id == id :: !Holder(s.tasks[n]) && !s.tasks[n].pc.Running?
  {
    RunsKeep(steps + more);
    if more == [] {
      assert steps + more == steps;
    } else {
      var before := more[..|more| - 1];
      ExpiryIsFinal(steps, before, id);
      assert (steps + before) + [more[|more| - 1]] == steps + more;
      RunMore(steps + before, more[|more| - 1], id);
      HistoryStays(Run(steps + before), more[|more| - 1], id);
    }
    var s := Run(steps + more);
    assert ViewFits(s, id, s.views[id]);
    forall n | n in s.tasks && s.tasks[n].id == id ensures !Holder(s.tasks[n]) && !s.tasks[n].pc.Running? {
      assert Holds(s, n) && Rooted(s, n);
    }
  }

  // ----- counting replays -----------------------------------------------------------

  /** The step by which a runner returns ok for the record. */
  predicate Lands(s: State, step: Step, id: string)
  {
    step.Act? && step.move == DoReturn(true) && step.n in s.tasks
    && s.tasks[step.n].pc.Running? && s.tasks[step.n].id == id
  }

  /** How often a runner returned ok for the record in the run. */
  function Landings(steps: seq<Step>, id: string): nat
  {
    if steps == [] then 0
    else
      var before := steps[..|steps| - 1];
      Landings(before, id) + if Lands(Run(before), steps[|steps| - 1], id) then 1 else 0
  }

  /** The step by which an operator's release puts the record back in the window. */
  predicate Frees(s: State, step: Step, id: string)
  {
    step.Act? && step.move.DoReleaseOrphan? && step.n in s.tasks && s.tasks[step.n].pc.Checked?
    && s.tasks[step.n].id == id && CanRelease(ViewOf(s, id).rec, s.tasks[step.n].pc.claim)
  }

  function Releases(steps: seq<Step>, id: string): nat
  {
    if steps == [] then 0
    else
      var before := steps[..|steps| - 1];
      Releases(before, id) + if Frees(Run(before), steps[|steps| - 1], id) then 1 else 0
  }

  lemma HistoryMoves(s: State, step: Step, id: string)
    requires Inv(s)
    ensures var v, v' := ViewOf(s, id), ViewOf(Next(s, step), id);
            && (Lands(s, step, id) ==> (v.landed.None? || v.freed) && v'.landed.Some? && !v'.freed)
            && (!Lands(s, step, id) ==> v'.landed == v.landed)
            && (!Lands(s, step, id) && v'.freed ==> v.freed || Frees(s, step, id))
  {
    if step.Act? && step.n in s.tasks {
      assert Rooted(s, step.n) && Holds(s, step.n);
      var t := s.tasks[step.n];
      LocalHistory(t, Own(step.n, t), ViewOf(s, t.id), step.move);
    }
  }

  /** What a stretch does to the record's history. */
  lemma LocalHistory(t: Task, own: Claim, v: View, move: Move)
    requires PcFits(t) && (Holder(t) ==> HolderOk(t, own, v))
    ensures var v', lands := Local(t, own, v, move).view, move == DoReturn(true) && t.pc.Running?;
            && (lands ==> (v.landed.None? || v.freed) && v'.landed.Some? && !v'.freed)
            && (!lands ==> v'.landed == v.landed)
            && (!lands && v'.freed ==> v.freed || (move.DoReleaseOrphan? && t.pc.Checked? && CanRelease(v.rec, t.pc.claim)))
  {
  }

  /** Between two successful replays of a record an operator must have released it: over a whole run the replays
      exceed the releases by at most one, and by none while the record lies released. */
  lemma {:induction false} EveryReplayIsReleased(steps: seq<Step>, id: string)
    ensures var v := ViewOf(Run(steps), id);
            && (v.landed.None? ==> Landings(steps, id) == 0)
            && Landings(steps, id) <= Releases(steps, id) + (if v.landed.None? || v.freed then 0 else 1)
  {
    if steps == [] {
    } else {
      var before := steps[..|steps| - 1];
      RunsKeep(before);
      HistoryMoves(Run(before), steps[|steps| - 1], id);
      EveryReplayIsReleased(before, id);
    }
  }

  ghost predicate NoRelease(steps: seq<Step>)
  {
    forall k | 0 <= k < |steps| :: !(steps[k].Begin? && steps[k].job.Release?)
  }

  ghost predicate Unreleased(s: State)
  {
    && (forall n | n in s.tasks :: !s.tasks[n].job.Release?)
    && (forall id | id in s.views :: !s.views[id].freed)
  }

  lemma StaysUnreleased(s: State, step: Step)
    requires Inv(s) && Unreleased(s) && !(step.Begin? && step.job.Release?)
    ensures Unreleased(Next(s, step))
  {
    var s' := Next(s, step);
    if step.Act? && step.n in s.tasks {
      ActFreesNothing(s, step.n, step.move);
    } else {
      forall id | id in s'.views ensures !s'.views[id].freed {
        assert id in s.views ==> !s.views[id].freed;
      }
      forall n | n in s'.tasks ensures !s'.tasks[n].job.Release? {
        assert n in s.tasks ==> !s.tasks[n].job.Release?;
      }
    }
  }

  lemma ActFreesNothing(s: State, n: nat, move: Move)
    requires Inv(s) && Unreleased(s) && n in s.tasks
    ensures Unreleased(Next(s, Act(n, move)))
  {
    var s' := Next(s, Act(n, move));
    ActIsLocal(s, n, move, s');
    assert Rooted(s, n);
    LocalFreesNothing(s.tasks[n], Own(n, s.tasks[n]), ViewOf(s, s.tasks[n].id), move);
    forall id | id in s'.views ensures !s'.views[id].freed {
      assert id in s.views.Keys && !s.views[id].freed;
    }
    forall m | m in s'.tasks ensures !s'.tasks[m].job.Release? {
      assert m in s.tasks.Keys;
    }
  }

  lemma LocalFreesNothing(t: Task, own: Claim, v: View, move: Move)
    requires !t.job.Release? && PcFits(t) && !v.freed
    ensures !Local(t, own, v, move).view.freed
  {
  }

  /** In a run without `release`: at most one successful replay of each record, and once it landed no call ever
      again stands before or inside a runner on that record. */
  lemma {:induction false} ReplayedAtMostOnce(steps: seq<Step>, id: string)
    requires NoRelease(steps)
    ensures Unreleased(Run(steps)) && Releases(steps, id) == 0 && Landings(steps, id) <= 1
    ensures var s := Run(steps);
            ViewOf(s, id).landed.Some? ==>
              forall n | n in s.tasks && s.tasks[n].id == id :: !s.tasks[n].pc.Held? && !s.tasks[n].pc.Running?
  {
    if steps == [] {
    } else {
      var before := steps[..|steps| - 1];
      ReplayedAtMostOnce(before, id);
      RunsKeep(before);
      StaysUnreleased(Run(before), steps[|steps| - 1]);
      var last := steps[|steps| - 1];
      assert last.Act? && last.n in Run(before).tasks ==> Rooted(Run(before), last.n);
    }
    EveryReplayIsReleased(steps, id);
    forall n | n in Run(steps).tasks && Run(steps).tasks[n].id == id && ViewOf(Run(steps), id).landed.Some?
      ensures !Run(steps).tasks[n].pc.Held? && !Run(steps).tasks[n].pc.Running?
    {
      if Run(steps).tasks[n].pc.Held? || Run(steps).tasks[n].pc.Running? {
        NoSecondRunnerUnlessFreed(steps, n);
      }
    }
  }

  // ----- both limits are reached ------------------------------------------------------

  const Staged := View(Some(Rec(Memory, Pending, None)), None, false, false, false)

  function Run7(v: View, tasks: map<nat, Task>, keys: set<Key>, next: nat): State
  {
    State(map["a" := v], {7}, tasks, keys, next)
  }

  function Busy(status: Status, token: nat): Slot { Some(Rec(Memory, status, Some(Claim(7, token)))) }

  /** A run in which process 7 has a runner in flight for "a". */
  lemma ReachRunning() returns (steps: seq<Step>)
    ensures Run(steps) == Run7(Staged.(rec := Busy(Executing, 0)), map[0 := Task(7, Approve, "a", Running)],
                               {(7, Approve, "a")}, 1)
    ensures Landings(steps, "a") == 0
  {
    steps := [];
    RunMore(steps, Restart(7), "a");
    steps := steps + [Restart(7)];
    RunMore(steps, Stage("a", Memory), "a");
    steps := steps + [Stage("a", Memory)];
    assert Run(steps) == Run7(Staged, map[], {}, 0);
    RunMore(steps, Begin(7, Approve, "a"), "a");
    steps := steps + [Begin(7, Approve, "a")];
    RunMore(steps, Act(0, DoClaim), "a");
    steps := steps + [Act(0, DoClaim)];
    assert Run(steps) == Run7(Staged.(rec := Busy(Executing, 0)), map[0 := Task(7, Approve, "a", Held(Memory))],
                              {(7, Approve, "a")}, 1);
    RunMore(steps, Act(0, DoDecide(true)), "a");
    steps := steps + [Act(0, DoDecide(true))];
  }

  /** The rescue can close a record as rejected while its runner is in flight, and the effect lands all the same. */
  lemma RescueCanRace() returns (steps: seq<Step>)
    ensures var v := ViewOf(Run(steps), "a");
            v.rec == Busy(Rejected, 0) && v.landed == Some(Claim(7, 0)) && v.rescued && !v.freed
  {
    steps := ReachRunning();
    steps := Rescue1(steps);
    RunMore(steps, Act(0, DoReturn(true)), "a");
    steps := steps + [Act(0, DoReturn(true))];
  }

  lemma Rescue1(before: seq<Step>) returns (steps: seq<Step>)
    requires Run(before) == Run7(Staged.(rec := Busy(Executing, 0)), map[0 := Task(7, Approve, "a", Running)],
                                 {(7, Approve, "a")}, 1)
    ensures var s := Run(steps);
            && 0 in s.tasks && s.tasks[0] == Task(7, Approve, "a", Running)
            && "a" in s.views && s.views["a"] == Staged.(rec := Busy(Rejected, 0), rescued := true)
  {
    var v, t, keys := Staged.(rec := Busy(Executing, 0)), Task(7, Approve, "a", Running), {(7, Approve, "a")};
    RunMore(before, Begin(7, Reject, "a"), "a");
    steps := before + [Begin(7, Reject, "a")];
    keys := keys + {(7, Reject, "a")};
    assert Run(steps) == Run7(v, map[0 := t, 1 := Task(7, Reject, "a", Start)], keys, 2);
    RunMore(steps, Act(1, DoClaim), "a");
    steps := steps + [Act(1, DoClaim)];
    assert Run(steps) == Run7(v, map[0 := t, 1 := Task(7, Reject, "a", Missed)], keys, 2);
    steps := Rescue2(steps, v, t, keys);
  }

  lemma Rescue2(before: seq<Step>, v: View, t: Task, keys: set<Key>) returns (steps: seq<Step>)
    requires Run(before) == Run7(v, map[0 := t, 1 := Task(7, Reject, "a", Missed)], keys, 2)
    requires v == Staged.(rec := Busy(Executing, 0))
    ensures Run(steps) == Run7(v.(rec := Busy(Rejected, 0), rescued := true),
                               map[0 := t, 1 := Task(7, Reject, "a", Done)], keys, 2)
  {
    RunMore(before, Act(1, DoList), "a");
    steps := before + [Act(1, DoList)];
    assert Run(steps) == Run7(v, map[0 := t, 1 := Task(7, Reject, "a", Rescuing)], keys, 2);
    steps := Rescue3(steps, v, t, keys);
  }

  lemma Rescue3(before: seq<Step>, v: View, t: Task, keys: set<Key>) returns (steps: seq<Step>)
    requires Run(before) == Run7(v, map[0 := t, 1 := Task(7, Reject, "a", Rescuing)], keys, 2)
    requires v == Staged.(rec := Busy(Executing, 0))
    ensures Run(steps) == Run7(v.(rec := Busy(Rejected, 0), rescued := true),
                               map[0 := t, 1 := Task(7, Reject, "a", Done)], keys, 2)
  {
    RunMore(before, Act(1, DoRescue), "a");
    steps := before + [Act(1, DoRescue)];
  }

  /** After a crash between the effect and the resolve, release and approve replay the write a second time. */
  lemma ReleaseCanReplay() returns (steps: seq<Step>)
    ensures Landings(steps, "a") == 2
  {
    steps := ReachRunning();
    RunMore(steps, Act(0, DoReturn(true)), "a");
    steps := steps + [Act(0, DoReturn(true))];
    RunMore(steps, Crash(7), "a");
    steps := steps + [Crash(7)];
    RunMore(steps, Restart(7), "a");
    steps := steps + [Restart(7)];
    var after := Staged.(rec := Busy(Executing, 0), landed := Some(Claim(7, 0)));
    assert Run(steps) == Run7(after, map[], {}, 1);
    steps := Release1(steps, after);
    var freed := after.(rec := Staged.rec, freed := true);
    steps := Replay2(steps, freed);
  }

  lemma Release1(before: seq<Step>, v: View) returns (steps: seq<Step>)
    requires Run(before) == Run7(v, map[], {}, 1) && v.rec == Busy(Executing, 0) && v.landed.Some?
    ensures Run(steps) == Run7(v.(rec := Staged.rec, freed := true), map[], {}, 2)
    ensures Landings(steps, "a") == Landings(before, "a")
  {
    RunMore(before, Begin(7, Release, "a"), "a");
    steps := before + [Begin(7, Release, "a")];
    assert Run(steps) == Run7(v, map[1 := Task(7, Release, "a", Start)], {}, 2);
    RunMore(steps, Act(1, DoRead), "a");
    steps := steps + [Act(1, DoRead)];
    assert Run(steps) == Run7(v, map[1 := Task(7, Release, "a", Read(Claim(7, 0)))], {}, 2);
    steps := Release2(steps, v);
  }

  lemma Release2(before: seq<Step>, v: View) returns (steps: seq<Step>)
    requires Run(before) == Run7(v, map[1 := Task(7, Release, "a", Read(Claim(7, 0)))], {}, 2)
    requires v.rec == Busy(Executing, 0) && v.landed.Some?
    ensures Run(steps) == Run7(v.(rec := Staged.rec, freed := true), map[], {}, 2)
    ensures Landings(steps, "a") == Landings(before, "a")
  {
    RunMore(before, CheckOrphan(1), "a");
    steps := before + [CheckOrphan(1)];
    assert Run(steps) == Run7(v, map[1 := Task(7, Release, "a", Checked(Claim(7, 0)))], {}, 2);
    steps := Release3(steps, v);
  }

  lemma Release3(before: seq<Step>, v: View) returns (steps: seq<Step>)
    requires Run(before) == Run7(v, map[1 := Task(7, Release, "a", Checked(Claim(7, 0)))], {}, 2)
    requires v.rec == Busy(Executing, 0) && v.landed.Some?
    ensures Run(steps) == Run7(v.(rec := Staged.rec, freed := true), map[], {}, 2)
    ensures Landings(steps, "a") == Landings(before, "a")
  {
    RunMore(before, Act(1, DoReleaseOrphan), "a");
    steps := before + [Act(1, DoReleaseOrphan)];
    assert Run(steps) == Run7(v.(rec := Staged.rec, freed := true), map[1 := Task(7, Release, "a", Done)], {}, 2);
    RunMore(steps, End(1), "a");
    steps := steps + [End(1)];
  }

  lemma Replay2(before: seq<Step>, v: View) returns (steps: seq<Step>)
    requires Run(before) == Run7(v, map[], {}, 2) && v.rec == Staged.rec
    ensures Landings(steps, "a") == Landings(before, "a") + 1
  {
    steps := before;
    RunMore(steps, Begin(7, Approve, "a"), "a");
    steps := steps + [Begin(7, Approve, "a")];
    RunMore(steps, Act(2, DoClaim), "a");
    steps := steps + [Act(2, DoClaim)];
    assert Run(steps).tasks[2] == Task(7, Approve, "a", Held(Memory));
    RunMore(steps, Act(2, DoDecide(true)), "a");
    steps := steps + [Act(2, DoDecide(true))];
    assert Run(steps).tasks[2] == Task(7, Approve, "a", Running);
    RunMore(steps, Act(2, DoReturn(true)), "a");
    steps := steps + [Act(2, DoReturn(true))];
  }
}
