/**
 * The staged-write approval protocol: approve, reject, expiry and operator release over one shared store, any
 * number of processes, with crashes anywhere (packages/evolution-approval/src/index.ts).
 */
module Approval {
  import opened Wrappers

  // ----- the store (the provider's transition table) ---------------------------

  datatype Kind = Memory | Skill | Capability

  datatype Status = Pending | Executing | Approved | Rejected

  /** A claim id carries its holder's pid and a token no other call shares. */
  datatype Claim = Claim(pid: nat, token: nat)

  datatype Rec = Rec(kind: Kind, status: Status, claimedBy: Option<Claim>)
  {
    predicate Terminal() { status.Approved? || status.Rejected? }
  }

  /** A slot of the store: the record under an id, or nothing. */
  type Slot = Option<Rec>

  predicate CanClaim(r: Slot) { r.Some? && r.value.status.Pending? }

  function Claimed(r: Slot, c: Claim): Slot
    requires CanClaim(r)
  {
    Some(r.value.(status := Executing, claimedBy := Some(c)))
  }

  /** `expected` None is the unscoped form; a scoped resolve applies only to its holder's record. */
  predicate CanResolve(r: Slot, expected: Option<Claim>)
  {
    r.Some? && !r.value.Terminal() && (expected.Some? ==> r.value.claimedBy == expected)
  }

  function Resolved(r: Slot, status: Status): Slot
    requires r.Some?
  {
    Some(r.value.(status := status))
  }

  predicate CanRelease(r: Slot, c: Claim)
  {
    r.Some? && !r.value.Terminal() && r.value.claimedBy == Some(c)
  }

  function Released(r: Slot, c: Claim): Slot
  {
    if CanRelease(r, c) then Some(r.value.(status := Pending, claimedBy := None)) else r
  }

  // ----- tasks -----------------------------------------------------------------

  datatype Job = Approve | Reject | Sweep | Release

  /** Where a call stands between two awaits. */
  datatype Pc =
    | Start                    // about to claim (or, for a release, to read the executing records)
    | Held(kind: Kind)         // approve: the claim committed, the runner is about to be looked up
    | Running                  // approve: the replay runner is in flight
    | Landed                   // approve: the runner returned ok, the record is not resolved yet
    | Answering                // approve: a capability record without a runner, about to be resolved
    | Refusing                 // reject, sweep: the claim is held, the record is about to be rejected
    | Failed                   // about to release its own claim
    | Missed                   // the claim was refused
    | Rescuing                 // reject: about to resolve an executing record WITHOUT a claim
    | Auditing(rec: Rec, replayed: bool)  // about to save the resolved record with its decision attached
    | Read(claim: Claim)       // release: read the record's claim, nothing checked yet
    | Checked(claim: Claim)    // release: both orphan checks passed
    | Done

  /** A call under way; its number is also the token of the claim it mints. */
  datatype Task = Task(pid: nat, job: Job, id: string, pc: Pc)

  type Key = (nat, Job, string)

  /** One record id: its slot in the store, and what has happened to it. */
  datatype View = View(
    rec: Slot,
    landed: Option<Claim>,  // the claim under which a runner last returned ok
    freed: bool,            // an operator release put it back in the window since then
    rescued: bool,          // closed by the unclaimed rescue
    expired: bool)          // closed by the expiry sweep

  datatype State = State(
    views: map<string, View>,  // every id ever staged
    alive: set<nat>,
    tasks: map<nat, Task>,
    inFlight: set<Key>,        // the dedupe map of every process
    next: nat)

  const Init := State(map[], {}, map[], {}, 0)

  function Own(n: nat, t: Task): Claim { Claim(t.pid, n) }

  predicate Deduped(job: Job) { job.Approve? || job.Reject? }

  /** One await-to-await stretch of a call. */
  datatype Move =
    | DoClaim
    | DoDecide(hasRunner: bool)
    | DoReturn(ok: bool)
    | DoResolve
    | DoReleaseOwn
    | DoList
    | DoRescue
    | DoAudit
    | DoRead
    | DoReleaseOrphan
    | DoThrow

  datatype Effect = Effect(pc: Pc, view: View)

  /** What a stretch does to its call and to the record, given what the store answers. A move that does not fit
      the call's position changes nothing. */
  function Local(t: Task, own: Claim, v: View, move: Move): Effect
  {
    match move
    case DoClaim =>
      if t.job.Release? || !t.pc.Start? then Effect(t.pc, v)
      else if CanClaim(v.rec) then
        Effect(if t.job.Approve? then Held(v.rec.value.kind) else Refusing, v.(rec := Claimed(v.rec, own)))
      else Effect(if t.job.Sweep? then Done else Missed, v)
    case DoDecide(hasRunner) =>
      if !t.pc.Held? then Effect(t.pc, v)
      else Effect(if hasRunner then Running else if t.pc.kind.Capability? then Answering else Failed, v)
    case DoReturn(ok) =>
      if !t.pc.Running? then Effect(t.pc, v)
      else if ok then Effect(Landed, v.(landed := Some(own), freed := false))
      else Effect(Failed, v)
    case DoResolve =>
      if !(t.pc.Landed? || t.pc.Answering? || t.pc.Refusing?) then Effect(t.pc, v)
      else if CanResolve(v.rec, Some(own)) then
        var rec := Resolved(v.rec, if t.pc.Refusing? then Rejected else Approved);
        if t.job.Sweep? then Effect(Done, v.(rec := rec, expired := true))
        else Effect(Auditing(rec.value, t.pc.Landed?), v.(rec := rec))
      else Effect(if t.job.Reject? then Failed else Done, v)
    case DoReleaseOwn =>
      if !t.pc.Failed? then Effect(t.pc, v) else Effect(Done, v.(rec := Released(v.rec, own)))
    case DoList =>
      if !t.pc.Missed? then Effect(t.pc, v)
      else Effect(if t.job.Reject? && v.rec.Some? && v.rec.value.status.Executing? then Rescuing else Done, v)
    case DoRescue =>
      if !t.pc.Rescuing? then Effect(t.pc, v)
      else if CanResolve(v.rec, None) then Effect(Done, v.(rec := Resolved(v.rec, Rejected), rescued := true))
      else Effect(Done, v)
    case DoAudit =>
      if !t.pc.Auditing? then Effect(t.pc, v) else Effect(Done, v.(rec := Some(t.pc.rec)))
    case DoRead =>
      if !(t.job.Release? && t.pc.Start?) then Effect(t.pc, v)
      else if v.rec.Some? && v.rec.value.status.Executing? && v.rec.value.claimedBy.Some? then
        Effect(Read(v.rec.value.claimedBy.value), v)
      else Effect(Done, v)
    case DoReleaseOrphan =>
      if !t.pc.Checked? then Effect(t.pc, v)
      else
        var effective := CanRelease(v.rec, t.pc.claim);
        Effect(Done, v.(rec := Released(v.rec, t.pc.claim), freed := v.freed || (effective && v.landed.Some?)))
    case DoThrow =>
      if t.pc.Running? then Effect(t.pc, v) else Effect(Done, v)
  }

  const NoView := View(None, None, false, false, false)

  function ViewOf(s: State, id: string): View { if id in s.views then s.views[id] else NoView }

  datatype Step =
    | Stage(id: string, kind: Kind)
    | Begin(pid: nat, job: Job, id: string)
    | Act(n: nat, move: Move)
    | CheckOrphan(n: nat)
    | End(n: nat)
    | Crash(pid: nat)
    | Restart(pid: nat)
    | Evict(id: string)

  /** Both checks of a release, in one synchronous stretch AFTER the read: nothing of this process is in flight
      on the record, and the claim names no live foreign process. */
  function Check(s: State, t: Task): Pc
  {
    if !t.pc.Read? then t.pc
    else if (t.pid, Approve, t.id) in s.inFlight || (t.pid, Reject, t.id) in s.inFlight then Done
    else if t.pc.claim.pid != t.pid && t.pc.claim.pid in s.alive then Done
    else Checked(t.pc.claim)
  }

  function Put(s: State, n: nat, e: Effect): State
    requires n in s.tasks
  {
    var id := s.tasks[n].id;
    s.(tasks := s.tasks[n := s.tasks[n].(pc := e.pc)], views := if id in s.views then s.views[id := e.view] else s.views)
  }

  function Begun(s: State, pid: nat, job: Job, id: string): State
  {
    s.(tasks := s.tasks[s.next := Task(pid, job, id, Start)], next := s.next + 1,
       inFlight := if Deduped(job) then s.inFlight + {(pid, job, id)} else s.inFlight)
  }

  function Ended(s: State, n: nat): State
    requires n in s.tasks
  {
    var t := s.tasks[n];
    s.(tasks := s.tasks - {n}, inFlight := if Deduped(t.job) then s.inFlight - {(t.pid, t.job, t.id)} else s.inFlight)
  }

  function Crashed(s: State, pid: nat): State
  {
    s.(alive := s.alive - {pid},
       tasks := map n | n in s.tasks && s.tasks[n].pid != pid :: s.tasks[n],
       inFlight := set k | k in s.inFlight && k.0 != pid)
  }

  /** One atomic step of the system; a step that is not enabled changes nothing. */
  function Next(s: State, step: Step): State
  {
    match step
    case Stage(id, kind) =>
      if id in s.views then s else s.(views := s.views[id := NoView.(rec := Some(Rec(kind, Pending, None)))])
    case Begin(pid, job, id) =>
      if pid !in s.alive || (Deduped(job) && (pid, job, id) in s.inFlight) then s else Begun(s, pid, job, id)
    case Act(n, move) =>
      if n in s.tasks then Put(s, n, Local(s.tasks[n], Own(n, s.tasks[n]), ViewOf(s, s.tasks[n].id), move)) else s
    case CheckOrphan(n) =>
      if n in s.tasks then s.(tasks := s.tasks[n := s.tasks[n].(pc := Check(s, s.tasks[n]))]) else s
    case End(n) => if n in s.tasks && s.tasks[n].pc.Done? then Ended(s, n) else s
    case Crash(pid) => Crashed(s, pid)
    case Restart(pid) => s.(alive := s.alive + {pid})
    case Evict(id) =>
      if id in s.views && s.views[id].rec.Some? && s.views[id].rec.value.Terminal()
      then s.(views := s.views[id := s.views[id].(rec := None)])
      else s
  }

  function Run(steps: seq<Step>): State
  {
    if steps == [] then Init else Next(Run(steps[..|steps| - 1]), steps[|steps| - 1])
  }

  // ----- local invariants --------------------------------------------------------

  /** The task claimed its record and has not let go of it. */
  predicate Holder(t: Task)
  {
    Deduped(t.job) && (t.pc.Held? || t.pc.Running? || t.pc.Landed? || t.pc.Answering? || t.pc.Refusing?
                       || t.pc.Failed? || t.pc.Auditing?)
  }

  predicate PcFits(t: Task)
  {
    match t.pc
    case Held(_) => t.job.Approve?
    case Running => t.job.Approve?
    case Landed => t.job.Approve?
    case Answering => t.job.Approve?
    case Refusing => t.job.Reject? || t.job.Sweep?
    case Failed => Deduped(t.job)
    case Missed => Deduped(t.job)
    case Rescuing => t.job.Reject?
    case Auditing(_, _) => Deduped(t.job)
    case Read(_) => t.job.Release?
    case Checked(_) => t.job.Release?
    case _ => true
  }

  /** A record whose replay landed and that no operator put back. */
  predicate Replayed(v: View) { v.landed.Some? && !v.freed }

  /** What holds of a record at every moment: a landed replay keeps it out of the window under its claim and only
      the rescue can have rejected it; expiry closes for good; approval is earned by a replay or is a
      capability's. */
  predicate RecOk(v: View)
  {
    v.rec.None? || RecFits(v.rec.value, v)
  }

  predicate RecFits(r: Rec, v: View)
  {
    && (Replayed(v) ==> r.claimedBy == v.landed && !r.status.Pending? && (r.status.Rejected? ==> v.rescued))
    && (v.expired ==> r.status.Rejected?)
    && (r.status.Approved? ==> v.landed.Some? || r.kind.Capability?)
  }

  /** The resolved record a holder is about to save once more. */
  predicate AuditOk(saved: Rec, replayed: bool, own: Claim, v: View)
  {
    && saved.Terminal() && saved.claimedBy == Some(own) && (v.rec.Some? ==> v.rec.value.Terminal())
    && (replayed ==> saved.status.Approved? && v.landed == Some(own) && !v.freed)
    && (saved.status.Approved? ==> replayed || saved.kind.Capability?)
    && (saved.status.Rejected? ==> !Replayed(v))
  }

  /** What a holder knows: the record carries its claim and is not pending (unless it was evicted); if it is
      closed before the holder resolved it, the rescue did that; a landed replay is the holder's own. */
  predicate HolderOk(t: Task, own: Claim, v: View)
  {
    && !v.expired
    && (v.rec.Some? ==> v.rec.value.claimedBy == Some(own) && !v.rec.value.status.Pending?)
    && (v.rec.Some? && v.rec.value.Terminal() && !t.pc.Auditing? ==> v.rec.value.status.Rejected? && v.rescued)
    && (Replayed(v) ==> v.landed == Some(own) && (t.pc.Landed? || (t.pc.Auditing? && t.pc.rec.status.Approved?)))
    && (t.pc.Landed? ==> v.landed == Some(own) && !v.freed)
    && (t.pc.Held? && v.rec.Some? ==> v.rec.value.kind == t.pc.kind)
    && (t.pc.Answering? && v.rec.Some? ==> v.rec.value.kind.Capability?)
    && (t.pc.Auditing? ==> AuditOk(t.pc.rec, t.pc.replayed, own, v))
    && (t.job.Reject? && t.pc.Failed? && v.rec.Some? ==> v.rec.value.Terminal())
  }

  /** The stretch keeps the record's and its own invariant, and mints no claim but its own. */
  lemma LocalKeepsOwn(t: Task, own: Claim, v: View, move: Move)
    requires PcFits(t) && RecOk(v) && (Holder(t) ==> HolderOk(t, own, v))
    requires t.job.Sweep? && Replayed(v) ==> v.landed != Some(own)
    ensures var e := Local(t, own, v, move);
            && PcFits(t.(pc := e.pc)) && RecOk(e.view)
            && (Holder(t.(pc := e.pc)) ==> HolderOk(t.(pc := e.pc), own, e.view))
            && (e.view.rec.Some? ==> v.rec.Some? || t.pc.Auditing?)
  {
  }

  /** No stretch of another call disturbs a holder, and none becomes a second holder. */
  lemma LocalKeepsOther(t: Task, own: Claim, v: View, move: Move, other: Task, theirs: Claim)
    requires PcFits(t) && !Holder(t)
    requires Holder(other) && HolderOk(other, theirs, v) && theirs != own
    requires t.pc.Checked? ==> t.pc.claim != theirs
    ensures var e := Local(t, own, v, move);
            HolderOk(other, theirs, e.view) && !Holder(t.(pc := e.pc))
  {
  }

  /** The claims a stretch can write are the ones it found, its own, and the one it saved. */
  lemma LocalClaims(t: Task, own: Claim, v: View, move: Move)
    requires PcFits(t) && (t.pc.Auditing? ==> t.pc.rec.claimedBy == Some(own))
    ensures var e := Local(t, own, v, move);
            && (e.view.landed.Some? ==> e.view.landed == v.landed || (e.view.landed == Some(own) && t.pc.Running?))
            && (e.view.rec.Some? && e.view.rec.value.claimedBy.Some? ==>
                  || e.view.rec.value.claimedBy == Some(own)
                  || (v.rec.Some? && e.view.rec.value.claimedBy == v.rec.value.claimedBy))
            && (e.pc.Read? ==> e.pc == t.pc || (v.rec.Some? && v.rec.value.claimedBy == Some(e.pc.claim)))
            && (e.pc.Checked? ==> e.pc == t.pc)
  {
  }
}
