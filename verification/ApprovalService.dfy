/**
 * The approval service's calls as straight-line code: each method is one call, and at every await any steps of
 * other calls, other processes and their crashes may run before it goes on.
 */
module ApprovalService {
  import opened Wrappers
  import opened Approval
  import opened ApprovalRuns

  /** What a call tells its caller. */
  datatype Reply =
    | Applied        // replayed, resolved, audited
    | Answered       // a capability approved without a runner
    | Closed         // closed by this call under its claim
    | Rescued        // closed by this call without a claim
    | InUse          // the claim was refused: another call holds the record
    | NotInWindow    // the claim was refused: rotated or settled
    | NotReplayed    // no runner, or the runner failed: the claim was given back
    | Unresolved     // the effect landed, the resolve threw
    | Diverged       // the effect landed, the record was closed as rejected meanwhile
    | Settled        // another writer settled the record
    | Kept           // release: not an orphan, or nothing to release
    | GivenBack      // release: the store answered

  /** A step of somebody else: not of call `n`, and not the death of its process. */
  predicate Foreign(step: Step, n: nat, pid: nat)
  {
    match step
    case Act(m, _) => m != n
    case CheckOrphan(m) => m != n
    case End(m) => m != n
    case Crash(p) => p != pid
    case _ => true
  }

  predicate Others(steps: seq<Step>, n: nat, pid: nat)
  {
    forall k | 0 <= k < |steps| :: Foreign(steps[k], n, pid)
  }

  /** What is known of a call between two of its stretches. */
  predicate At(s: State, n: nat, t: Task) { n in s.tasks && s.tasks[n] == t }

  lemma ForeignLeaves(trace: seq<Step>, n: nat, t: Task, step: Step)
    requires At(Run(trace), n, t) && Foreign(step, n, t.pid)
    ensures At(Next(Run(trace), step), n, t)
  {
    RunsKeep(trace);
    assert Rooted(Run(trace), n);
  }

  /** Where call `n` stands after a stretch, and what the stretch did to its record. */
  lemma ActMoves(s: State, n: nat, t: Task, move: Move)
    requires At(s, n, t)
    ensures var s' := Next(s, Act(n, move));
            var e := Local(t, Own(n, t), ViewOf(s, t.id), move);
            && At(s', n, t.(pc := e.pc))
            && ViewOf(s', t.id) == if t.id in s.views then e.view else NoView
  {
  }

  /** The record of a call whose runner has returned ok. */
  lemma LandedFacts(trace: seq<Step>, n: nat, t: Task)
    requires At(Run(trace), n, t) && t.pc.Landed?
    ensures var v := ViewOf(Run(trace), t.id);
            && v.landed == Some(Own(n, t)) && !v.freed && t.id in Run(trace).views && KeptBy(v, Own(n, t))
            && (!CanResolve(v.rec, Some(Own(n, t))) ==> v.rec.None? || (v.rec.value.status.Rejected? && v.rescued))
  {
    RunsKeep(trace);
    assert Rooted(Run(trace), n) && Holds(Run(trace), n);
  }

  lemma AuditFacts(trace: seq<Step>, n: nat, t: Task)
    requires At(Run(trace), n, t) && t.pc.Auditing?
    ensures AuditOk(t.pc.rec, t.pc.replayed, Own(n, t), ViewOf(Run(trace), t.id)) && t.id in Run(trace).views
  {
    RunsKeep(trace);
    assert Rooted(Run(trace), n) && Holds(Run(trace), n);
  }

  lemma AnswerFacts(trace: seq<Step>, n: nat, t: Task)
    requires At(Run(trace), n, t) && t.pc.Answering?
    ensures var v := ViewOf(Run(trace), t.id);
            t.id in Run(trace).views && (v.rec.Some? ==> v.rec.value.kind.Capability?)
  {
    RunsKeep(trace);
    assert Rooted(Run(trace), n) && Holds(Run(trace), n);
  }

  /** The store slot that a call left under its own claim. */
  predicate ClosedBy(v: View, own: Claim, status: Status)
  {
    v.rec.Some? && v.rec.value.status == status && v.rec.value.claimedBy == Some(own)
  }

  /** The slot still carries the claim, out of the pending window. */
  predicate KeptBy(v: View, own: Claim)
  {
    v.rec.Some? ==> v.rec.value.claimedBy == Some(own) && !v.rec.value.status.Pending?
  }

  lemma HolderFacts(trace: seq<Step>, n: nat, t: Task)
    requires At(Run(trace), n, t) && Holder(t)
    ensures t.id in Run(trace).views && HolderOk(t, Own(n, t), ViewOf(Run(trace), t.id))
  {
    RunsKeep(trace);
    assert Rooted(Run(trace), n) && Holds(Run(trace), n);
  }

  /** The record is gone, or an operator's rescue closed it: what alone keeps a holder from resolving it. */
  predicate TakenAway(v: View) { v.rec.None? || (v.rescued && v.rec.value.status.Rejected?) }

  /** The record is back in the window, unless it was taken away. */
  predicate BackInWindow(v: View)
  {
    TakenAway(v) || (v.rec.value.status.Pending? && v.rec.value.claimedBy.None?)
  }

  predicate IsExecuting(r: Slot) { r.Some? && r.value.status.Executing? }

  /** Something stands against releasing the claim: a call of this process on the record, or a live foreign holder. */
  predicate InTheWay(s: State, pid: nat, id: string, c: Claim)
  {
    || (pid, Approve, id) in s.inFlight || (pid, Reject, id) in s.inFlight
    || (c.pid != pid && c.pid in s.alive)
  }

  class EvolutionApproval {
    var s: State
    ghost var trace: seq<Step>

    ghost predicate Valid()
      reads this
    {
      s == Run(trace)
    }

    constructor ()
      ensures Valid() && s == Init
    {
      s := Init;
      trace := [];
    }

    /** One atomic step. */
    method Take(step: Step)
      requires Valid()
      modifies this
      ensures Valid() && s == Next(old(s), step) && trace == old(trace) + [step]
    {
      RunMore(trace, step, "");
      s := Next(s, step);
      trace := trace + [step];
    }

    /** An await of call `n`: whatever the others do meanwhile leaves the call where it is. */
    method Yield(n: nat, ghost t: Task, others: seq<Step>)
      requires Valid() && At(s, n, t) && Others(others, n, t.pid)
      modifies this
      ensures Valid() && At(s, n, t) && trace == old(trace) + others
    {
      var i := 0;
      while i < |others|
        invariant 0 <= i <= |others|
        invariant Valid() && At(s, n, t) && trace == old(trace) + others[..i]
      {
        assert Foreign(others[i], n, t.pid);
        ForeignLeaves(trace, n, t, others[i]);
        Take(others[i]);
        assert others[..i + 1] == others[..i] + [others[i]];
        i := i + 1;
      }
      assert others[..i] == others;
    }

    /** One stretch of call `n`. */
    method Stretch(n: nat, ghost t: Task, move: Move)
      requires Valid() && At(s, n, t)
      modifies this
      ensures Valid() && trace == old(trace) + [Act(n, move)]
      ensures var e := Local(t, Own(n, t), ViewOf(old(s), t.id), move);
              && At(s, n, t.(pc := e.pc))
              && ViewOf(s, t.id) == if t.id in old(s).views then e.view else NoView
    {
      ActMoves(s, n, t, move);
      Take(Act(n, move));
    }

    /** The resolved record is saved once more, with the decision attached. */
    method RecordDecision(n: nat, ghost t0: Task)
      requires Valid() && At(s, n, t0) && t0.pc.Auditing?
      modifies this
      ensures Valid() && trace == old(trace) + [Act(n, DoAudit)] && At(s, n, t0.(pc := Done))
      ensures var v, own := ViewOf(s, t0.id), Own(n, t0);
              ClosedBy(v, own, t0.pc.rec.status) && v.rec == Some(t0.pc.rec) && AuditOk(t0.pc.rec, t0.pc.replayed, own, v)
    {
      AuditFacts(trace, n, t0);
      Stretch(n, t0, DoAudit);
    }

    /** approve, from the claim on. `during(k)` is what the others do at the k-th await. */
    method DoApprove(n: nat, hasRunner: bool, ok: bool, resolveThrows: bool, during: nat -> seq<Step>)
      returns (r: Reply)
      requires Valid() && n in s.tasks && s.tasks[n].job.Approve? && s.tasks[n].pc.Start?
      requires forall k :: Others(during(k), n, s.tasks[n].pid)
      modifies this
      ensures Valid() && old(trace) <= trace
      ensures At(s, n, old(s.tasks[n]).(pc := Done))
      ensures var v, own := ViewOf(s, old(s.tasks[n]).id), Own(n, old(s.tasks[n]));
              && (r.Applied? ==> ClosedBy(v, own, Status.Approved) && v.landed == Some(own) && !v.freed)
              && (r.Answered? ==> ClosedBy(v, own, Status.Approved) && v.rec.value.kind.Capability?)
              && (r.NotReplayed? ==> !CanRelease(v.rec, own))
              && (r.Unresolved? ==> v.landed == Some(own) && !v.freed && KeptBy(v, own))
              && (r.Diverged? ==> v.landed == Some(own) && !v.freed && v.rescued && ClosedBy(v, own, Status.Rejected))
              && (r.InUse? ==> v.rec.Some? && v.rec.value.status.Executing?)
      ensures r in {Applied, Answered, NotReplayed, Unresolved, Diverged, Settled, InUse, NotInWindow}
      ensures var entry := ViewOf(old(s), old(s.tasks[n]).id).rec;
              && (r in {InUse, NotInWindow} <==> !CanClaim(entry))
              && (CanClaim(entry) && hasRunner ==> (r.NotReplayed? <==> !ok) && !r.Answered?)
              && (CanClaim(entry) && hasRunner && ok ==> (r.Unresolved? <==> resolveThrows))
              && (CanClaim(entry) && !hasRunner ==>
                    if entry.value.kind.Capability? then r in {Answered, Settled} else r.NotReplayed?)
      ensures var v, own := ViewOf(s, old(s.tasks[n]).id), Own(n, old(s.tasks[n]));
              && (CanClaim(ViewOf(old(s), old(s.tasks[n]).id).rec) && hasRunner && ok ==> v.landed == Some(own) && !v.freed)
              && (r in {Diverged, Settled} ==> TakenAway(v))
              && (r.NotReplayed? ==> BackInWindow(v))
              && (r.NotInWindow? ==> !IsExecuting(v.rec))
    {
      ghost var t := s.tasks[n];
      Stretch(n, t, DoClaim);
      t := s.tasks[n];
      Yield(n, t, during(0));
      if s.tasks[n].pc.Missed? {
        r := Refuse(n, t);
        return;
      }
      Stretch(n, t, DoDecide(hasRunner));
      t := s.tasks[n];
      Yield(n, t, during(1));
      if s.tasks[n].pc.Answering? {
        r := Answer(n, t, during);
      } else if s.tasks[n].pc.Failed? {
        GiveBack(n, t);
        r := NotReplayed;
      } else {
        r := Replay(n, t, ok, resolveThrows, during);
      }
    }

    /** The claim was refused: another call is at work on the record, or there is nothing to claim. */
    method Refuse(n: nat, ghost t0: Task) returns (r: Reply)
      requires Valid() && At(s, n, t0) && t0.job.Approve? && t0.pc.Missed?
      modifies this
      ensures Valid() && old(trace) <= trace && At(s, n, t0.(pc := Done))
      ensures r in {InUse, NotInWindow} && (r.InUse? <==> IsExecuting(ViewOf(s, t0.id).rec))
    {
      r := if IsExecuting(ViewOf(s, s.tasks[n].id).rec) then InUse else NotInWindow;
      Stretch(n, t0, DoList);
    }

    /** The call gives its own claim up. */
    method GiveBack(n: nat, ghost t0: Task)
      requires Valid() && At(s, n, t0) && t0.pc.Failed? && Deduped(t0.job)
      modifies this
      ensures Valid() && old(trace) <= trace && At(s, n, t0.(pc := Done))
      ensures var v := ViewOf(s, t0.id);
              !CanRelease(v.rec, Own(n, t0)) && BackInWindow(v) && (t0.job.Reject? ==> TakenAway(v))
    {
      HolderFacts(trace, n, t0);
      Stretch(n, t0, DoReleaseOwn);
    }

    /** The runner has been called. */
    method Replay(n: nat, ghost t0: Task, ok: bool, resolveThrows: bool, during: nat -> seq<Step>) returns (r: Reply)
      requires Valid() && At(s, n, t0) && t0.job.Approve? && t0.pc.Running?
      requires forall k :: Others(during(k), n, t0.pid)
      modifies this
      ensures Valid() && old(trace) <= trace && At(s, n, t0.(pc := Done))
      ensures var v, own := ViewOf(s, t0.id), Own(n, t0);
              && (r.Applied? ==> ClosedBy(v, own, Status.Approved) && v.landed == Some(own) && !v.freed)
              && (r.NotReplayed? ==> !CanRelease(v.rec, own))
              && (r.Unresolved? ==> v.landed == Some(own) && !v.freed && KeptBy(v, own))
              && (r.Diverged? ==> v.landed == Some(own) && !v.freed && v.rescued && ClosedBy(v, own, Status.Rejected))
      ensures r in {Applied, NotReplayed, Unresolved, Diverged, Settled}
      ensures (r.NotReplayed? <==> !ok) && (ok ==> (r.Unresolved? <==> resolveThrows))
      ensures var v, own := ViewOf(s, t0.id), Own(n, t0);
              && (ok ==> v.landed == Some(own) && !v.freed) && (r in {Diverged, Settled} ==> TakenAway(v))
              && (r.NotReplayed? ==> BackInWindow(v))
    {
      ghost var t := t0;
      Stretch(n, t, DoReturn(ok));
      t := s.tasks[n];
      Yield(n, t, during(2));
      if !ok {
        GiveBack(n, t);
        r := NotReplayed;
      } else {
        r := Conclude(n, t, resolveThrows, during);
      }
    }

    /** The runner returned ok: the record is resolved under the claim, or the divergence is reported. */
    method Conclude(n: nat, ghost t0: Task, resolveThrows: bool, during: nat -> seq<Step>) returns (r: Reply)
      requires Valid() && At(s, n, t0) && t0.job.Approve? && t0.pc.Landed?
      requires forall k :: Others(during(k), n, t0.pid)
      modifies this
      ensures Valid() && old(trace) <= trace && At(s, n, t0.(pc := Done))
      ensures var v, own := ViewOf(s, t0.id), Own(n, t0);
              && (r.Applied? ==> ClosedBy(v, own, Status.Approved) && v.landed == Some(own) && !v.freed)
              && (r.Unresolved? ==> v.landed == Some(own) && !v.freed && KeptBy(v, own))
              && (r.Diverged? ==> v.landed == Some(own) && !v.freed && v.rescued && ClosedBy(v, own, Status.Rejected))
              && (r.Settled? ==> v.landed == Some(own) && !v.freed && v.rec.None?)
      ensures r in {Applied, Unresolved, Diverged, Settled} && (r.Unresolved? <==> resolveThrows)
      ensures r.Applied? <==> !resolveThrows && CanResolve(ViewOf(old(s), t0.id).rec, Some(Own(n, t0)))
    {
      ghost var t := t0;
      LandedFacts(trace, n, t);
      if resolveThrows {
        Stretch(n, t, DoThrow);
        r := Unresolved;
        return;
      }
      Stretch(n, t, DoResolve);
      if s.tasks[n].pc.Done? {
        var rec := ViewOf(s, s.tasks[n].id).rec;
        r := if rec.Some? && rec.value.status.Rejected? then Diverged else Settled;
        return;
      }
      t := s.tasks[n];
      Yield(n, t, during(3));
      RecordDecision(n, t);
      r := Applied;
    }

    /** A capability record without a runner: answering it records intent only. */
    method Answer(n: nat, ghost t0: Task, during: nat -> seq<Step>) returns (r: Reply)
      requires Valid() && At(s, n, t0) && t0.job.Approve? && t0.pc.Answering?
      requires forall k :: Others(during(k), n, t0.pid)
      modifies this
      ensures Valid() && old(trace) <= trace && At(s, n, t0.(pc := Done))
      ensures var v, own := ViewOf(s, t0.id), Own(n, t0);
              r.Answered? ==> ClosedBy(v, own, Status.Approved) && v.rec.value.kind.Capability?
      ensures r in {Answered, Settled} && (r.Settled? ==> TakenAway(ViewOf(s, t0.id)))
      ensures r.Answered? <==> CanResolve(ViewOf(old(s), t0.id).rec, Some(Own(n, t0)))
    {
      ghost var t := t0;
      AnswerFacts(trace, n, t);
      HolderFacts(trace, n, t);
      Stretch(n, t, DoResolve);
      if s.tasks[n].pc.Done? {
        r := Settled;
        return;
      }
      t := s.tasks[n];
      Yield(n, t, during(2));
      RecordDecision(n, t);
      r := Answered;
    }

    /** reject, from the claim on. */
    method DoReject(n: nat, during: nat -> seq<Step>) returns (r: Reply)
      requires Valid() && n in s.tasks && s.tasks[n].job.Reject? && s.tasks[n].pc.Start?
      requires forall k :: Others(during(k), n, s.tasks[n].pid)
      modifies this
      ensures Valid() && old(trace) <= trace
      ensures At(s, n, old(s.tasks[n]).(pc := Done))
      ensures var v, own := ViewOf(s, old(s.tasks[n]).id), Own(n, old(s.tasks[n]));
              && (r.Closed? ==> ClosedBy(v, own, Status.Rejected) && !Replayed(v))
              && (r.Rescued? ==> v.rec.Some? && v.rec.value.status.Rejected? && v.rescued)
              && (r.NotReplayed? ==> !CanRelease(v.rec, own))
      ensures r in {Closed, Rescued, Settled, NotInWindow, NotReplayed}
      ensures r in {Rescued, Settled, NotInWindow} <==> !CanClaim(ViewOf(old(s), old(s.tasks[n]).id).rec)
      ensures var v := ViewOf(s, old(s.tasks[n]).id);
              && (r.NotReplayed? ==> TakenAway(v))
              && (r.Settled? ==> v.rec.None? || v.rec.value.Terminal())
              && (r.NotInWindow? ==> !IsExecuting(v.rec))
    {
      ghost var t := s.tasks[n];
      Stretch(n, t, DoClaim);
      t := s.tasks[n];
      Yield(n, t, during(0));
      if s.tasks[n].pc.Missed? {
        r := Rescue(n, t, during);
        return;
      }
      Stretch(n, t, DoResolve);
      t := s.tasks[n];
      Yield(n, t, during(1));
      if s.tasks[n].pc.Failed? {
        GiveBack(n, t);
        r := NotReplayed;
        return;
      }
      RecordDecision(n, t);
      r := Closed;
    }

    /** The claim was refused: an executing record is closed without one. */
    method Rescue(n: nat, ghost t0: Task, during: nat -> seq<Step>) returns (r: Reply)
      requires Valid() && At(s, n, t0) && t0.job.Reject? && t0.pc.Missed?
      requires forall k :: Others(during(k), n, t0.pid)
      modifies this
      ensures Valid() && old(trace) <= trace && At(s, n, t0.(pc := Done))
      ensures var v := ViewOf(s, t0.id);
              r.Rescued? ==> v.rec.Some? && v.rec.value.status.Rejected? && v.rescued
      ensures r in {Rescued, Settled, NotInWindow}
      ensures r.NotInWindow? <==> !IsExecuting(ViewOf(old(s), t0.id).rec)
      ensures var v := ViewOf(s, t0.id);
              && (r.NotInWindow? ==> !IsExecuting(v.rec)) && (r.Settled? ==> v.rec.None? || v.rec.value.Terminal())
    {
      ghost var t := t0;
      Stretch(n, t, DoList);
      if s.tasks[n].pc.Done? {
        r := NotInWindow;
        return;
      }
      t := s.tasks[n];
      Yield(n, t, during(1));
      r := if CanResolve(ViewOf(s, s.tasks[n].id).rec, None) then Rescued else Settled;
      Stretch(n, t, DoRescue);
    }

    /** The in-flight map: a second call under the same key joins the first instead of starting. */
    method Dedupe(pid: nat, job: Job, id: string) returns (n: Option<nat>)
      requires Valid() && pid in s.alive && Deduped(job)
      modifies this
      ensures Valid() && old(trace) <= trace
      ensures n.None? <==> (pid, job, id) in old(s).inFlight
      ensures n.None? ==> s == old(s) && trace == old(trace)
      ensures n.Some? ==> At(s, n.value, Task(pid, job, id, Start)) && (pid, job, id) in s.inFlight
      ensures n.Some? ==> s.views == old(s).views && n.value == old(s).next
      ensures exists m: nat :: InFlightAs(s, (pid, job, id), m)
      ensures forall m: nat, m': nat | InFlightAs(s, (pid, job, id), m) && InFlightAs(s, (pid, job, id), m') :: m == m'
    {
      if (pid, job, id) in s.inFlight {
        RunsKeep(trace);
        InFlightIsUnderWay(trace);
        return None;
      }
      n := Some(s.next);
      Take(Begin(pid, job, id));
      RunsKeep(trace);
      InFlightIsUnderWay(trace);
    }

    /** expireStale, for one record it found overdue: closed exactly if it could be claimed and nobody took it away
        before the resolve. */
    method ExpireOne(n: nat, during: nat -> seq<Step>) returns (closed: bool)
      requires Valid() && n in s.tasks && s.tasks[n].job.Sweep? && s.tasks[n].pc.Start?
      requires forall k :: Others(during(k), n, s.tasks[n].pid)
      modifies this
      ensures Valid() && old(trace) <= trace
      ensures At(s, n, old(s.tasks[n]).(pc := Done))
      ensures var t, own := old(s.tasks[n]), Own(n, old(s.tasks[n]));
              && (closed <==>
                    && CanClaim(ViewOf(old(s), t.id).rec)
                    && CanResolve(ViewOf(Run(old(trace) + [Act(n, DoClaim)] + during(0)), t.id).rec, Some(own)))
              && (closed ==> ViewOf(s, t.id).expired && ClosedBy(ViewOf(s, t.id), own, Status.Rejected))
    {
      ghost var t := s.tasks[n];
      closed := false;
      Stretch(n, t, DoClaim);
      t := s.tasks[n];
      if s.tasks[n].pc.Done? {
        return;
      }
      Yield(n, t, during(0));
      closed := CanResolve(ViewOf(s, s.tasks[n].id).rec, Some(Claim(s.tasks[n].pid, n)));
      Stretch(n, t, DoResolve);
    }

    /** release: the claim is read, then checked, then given up if it is still the record's. */
    method Release(n: nat, during: nat -> seq<Step>) returns (r: Reply)
      requires Valid() && n in s.tasks && s.tasks[n].job.Release? && s.tasks[n].pc.Start?
      requires forall k :: Others(during(k), n, s.tasks[n].pid)
      modifies this
      ensures Valid() && old(trace) <= trace
      ensures At(s, n, old(s.tasks[n]).(pc := Done))
      ensures var v := ViewOf(s, old(s.tasks[n]).id);
              r.GivenBack? ==> v.rec.Some? && v.rec.value.status.Pending? && v.rec.value.claimedBy.None?
      ensures r in {GivenBack, Kept}
      ensures var t, entry := old(s.tasks[n]), ViewOf(old(s), old(s.tasks[n]).id).rec;
              var read := old(trace) + [Act(n, DoRead)] + during(0);
              r.GivenBack? <==>
                && IsExecuting(entry) && entry.value.claimedBy.Some?
                && !InTheWay(Run(read), t.pid, t.id, entry.value.claimedBy.value)
                && CanRelease(ViewOf(Run(read + [CheckOrphan(n)] + during(1)), t.id).rec, entry.value.claimedBy.value)
    {
      ghost var t := s.tasks[n];
      Stretch(n, t, DoRead);
      t := s.tasks[n];
      if s.tasks[n].pc.Done? {
        return Kept;
      }
      Yield(n, t, during(0));
      Take(CheckOrphan(n));
      t := s.tasks[n];
      if s.tasks[n].pc.Done? {
        return Kept;
      }
      Yield(n, t, during(1));
      r := ReleaseChecked(n, t);
    }

    /** Both checks passed: the claim is given up if it is still the record's. */
    method ReleaseChecked(n: nat, ghost t0: Task) returns (r: Reply)
      requires Valid() && At(s, n, t0) && t0.pc.Checked?
      modifies this
      ensures Valid() && old(trace) <= trace && At(s, n, t0.(pc := Done))
      ensures r in {GivenBack, Kept} && (r.GivenBack? <==> CanRelease(ViewOf(old(s), t0.id).rec, t0.pc.claim))
      ensures var v := ViewOf(s, t0.id);
              r.GivenBack? ==> v.rec.Some? && v.rec.value.status.Pending? && v.rec.value.claimedBy.None?
    {
      r := if CanRelease(ViewOf(s, s.tasks[n].id).rec, s.tasks[n].pc.claim) then GivenBack else Kept;
      Stretch(n, t0, DoReleaseOrphan);
    }
  }

  /** A staged record as the window lists it; None is a timestamp that does not parse. */
  datatype Listed = Listed(id: string, stagedAt: Option<int>)

  /** Which of the listed records a sweep goes for: those staged at least the TTL ago, and none without a TTL or
      without a readable timestamp. */
  method Overdue(window: seq<Listed>, ttl: int, now: int) returns (ids: seq<string>)
    ensures forall id :: id in ids <==>
              ttl > 0 && exists k | 0 <= k < |window| :: window[k].id == id && window[k].stagedAt.Some? && window[k].stagedAt.value + ttl <= now
  {
    ids := [];
    if ttl <= 0 {
      return;
    }
    var cutoff := now - ttl;
    for i := 0 to |window|
      invariant forall id :: id in ids <==>
                  exists k | 0 <= k < i :: window[k].id == id && window[k].stagedAt.Some? && window[k].stagedAt.value + ttl <= now
    {
      if window[i].stagedAt.None? || window[i].stagedAt.value > cutoff {
        continue;
      }
      ids := ids + [window[i].id];
    }
  }
}
