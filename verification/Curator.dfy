/**
 * The lifecycle engine, the gates it shares with the scope view, and the view that predicts it
 * (packages/evolution-core/src/curator.ts, gates.ts, usage.ts).
 */
module Curator {
  import opened Wrappers

  // ----- gates -------------------------------------------------------------------

  const PROTECTED_BUILTIN_SKILLS: set<string> := {"plan"}

  datatype Reason = Excluded | Referenced | Suppressed | ProtectedBuiltin

  datatype GateSet = GateSet(exclude: set<string>, referenced: set<string>, suppressed: set<string>)
  {
    function BlockReason(name: string): Option<Reason>
    {
      if name in exclude then Some(Excluded)
      else if name in referenced then Some(Referenced)
      else if name in suppressed then Some(Suppressed)
      else if name in PROTECTED_BUILTIN_SKILLS then Some(ProtectedBuiltin)
      else None
    }

    predicate IsBlocked(name: string) { BlockReason(name).Some? }
  }

  // ----- usage records --------------------------------------------------------------

  datatype Life = Active | Stale | Archived

  /** A moment in days; None stands for a missing or unparseable timestamp. */
  type Stamp = Option<real>

  /** One skill's record as a value: what the decisions read and write. */
  datatype Rec = Rec(
    agentCreated: bool, useCount: nat, viewCount: nat,
    usedAt: Stamp, viewedAt: Stamp, patchedAt: Stamp, createdAt: Stamp,
    life: Life, pinned: bool, archivedAt: Stamp, qualityWarn: bool, feedbackWarn: bool)
  {
    predicate Warned() { qualityWarn || feedbackWarn }
  }

  datatype Config = Config(
    staleAfter: real, archiveAfter: real, warnStaleAfter: Option<real>,
    manageUnmanaged: bool, pruneBuiltins: bool, bundled: set<string>)

  function Later(a: Stamp, b: Stamp): Stamp
  {
    if a.None? then b else if b.None? then a else if b.value > a.value then b else a
  }

  function LatestActivity(r: Rec): Stamp { Later(Later(r.usedAt, r.viewedAt), r.patchedAt) }

  /** An unparseable anchor counts as no time at all. */
  function DaysSince(at: Stamp, now: real): real { if at.None? then 0.0 else now - at.value }

  function IdleDays(r: Rec, now: real): real
  {
    DaysSince(if LatestActivity(r).Some? then LatestActivity(r) else r.createdAt, now)
  }

  function Age(r: Rec, now: real): real { DaysSince(r.createdAt, now) }

  // ----- the candidate gate ------------------------------------------------------------

  /** Everything a pass is given besides the records. */
  datatype Pass = Pass(config: Config, gates: GateSet, protected: set<string>, now: real)

  predicate Candidate(p: Pass, name: string, r: Rec)
  {
    && !r.pinned
    && name !in p.protected
    && !p.gates.IsBlocked(name)
    && (r.agentCreated || p.config.manageUnmanaged || (p.config.pruneBuiltins && name in p.config.bundled))
    && !r.life.Archived?
  }

  // ----- the decision on one record --------------------------------------------------------

  /** Never loaded, not warned, younger than the stale window: decided another day. */
  predicate Deferred(p: Pass, r: Rec)
  {
    r.useCount + r.viewCount == 0 && !r.Warned() && Age(r, p.now) < p.config.staleAfter
  }

  function StaleWindow(p: Pass, r: Rec): real
  {
    if r.Warned() && p.config.warnStaleAfter.Some? then p.config.warnStaleAfter.value else p.config.staleAfter
  }

  /** Where one pass leaves the record's life. */
  function NextLife(p: Pass, name: string, r: Rec): Life
  {
    if !Candidate(p, name, r) || Deferred(p, r) then r.life
    else
      var idle := IdleDays(r, p.now);
      if idle >= p.config.archiveAfter then Archived
      else if r.life.Active? && idle >= StaleWindow(p, r) then Stale
      else if r.life.Stale? && idle < StaleWindow(p, r) then Active
      else r.life
  }

  function After(p: Pass, name: string, r: Rec): Rec
  {
    var life := NextLife(p, name, r);
    r.(life := life, archivedAt := if life.Archived? && !r.life.Archived? then Some(p.now) else r.archivedAt)
  }

  datatype Transition = Transition(name: string, from: Life, to: Life)

  datatype Report = Report(transitions: seq<Transition>, archive: seq<string>, reactivate: seq<string>, markStale: seq<string>)

  type Usage = seq<(string, Rec)>

  predicate DistinctNames(u: Usage) { forall i, j | 0 <= i < j < |u| :: u[i].0 != u[j].0 }

  /** The transitions of a pass in the order of the map. */
  function Transitions(p: Pass, u: Usage): seq<Transition>
  {
    if u == [] then []
    else
      var (name, r) := u[|u| - 1];
      Transitions(p, u[..|u| - 1])
      + if NextLife(p, name, r) == r.life then [] else [Transition(name, r.life, NextLife(p, name, r))]
  }

  /** The names among the transitions that went to `to`. */
  function To(ts: seq<Transition>, to: Life): seq<string>
  {
    if ts == [] then [] else To(ts[..|ts| - 1], to) + if ts[|ts| - 1].to == to then [ts[|ts| - 1].name] else []
  }

  function AllAfter(p: Pass, u: Usage): (u': Usage)
    ensures |u'| == |u| && forall i | 0 <= i < |u| :: u'[i] == (u[i].0, After(p, u[i].0, u[i].1))
  {
    seq(|u|, i requires 0 <= i < |u| => (u[i].0, After(p, u[i].0, u[i].1)))
  }

  // ----- the scope view -----------------------------------------------------------------------

  datatype Scope = Scope(managed: set<string>, watched: set<string>, qualityWarned: set<string>,
                         exempted: set<string>, protected: set<string>)

  /** What the record of `name` adds to each bucket. */
  function Classify(p: Pass, name: string, r: Rec): Scope
  {
    if Exempt(p, name) then Scope({}, {}, {}, {name}, {})
    else
      var managed := Candidate(p, name, r);
      Scope(if managed then {name} else {},
            if managed && (r.life.Stale? || r.Warned()) then {name} else {},
            if managed && r.Warned() then {name} else {},
            {},
            if Shielded(p, name, r) then {name} else {})
  }

  function Union(a: Scope, b: Scope): Scope
  {
    Scope(a.managed + b.managed, a.watched + b.watched, a.qualityWarned + b.qualityWarned,
          a.exempted + b.exempted, a.protected + b.protected)
  }

  function View(p: Pass, u: Usage): Scope
  {
    if u == [] then Scope({}, {}, {}, {}, {})
    else Union(View(p, u[..|u| - 1]), Classify(p, u[|u| - 1].0, u[|u| - 1].1))
  }

  // ----- the view, bucket by bucket --------------------------------------------------------------

  predicate Exempt(p: Pass, name: string) { name in p.gates.exclude || name in p.gates.referenced }

  predicate Shielded(p: Pass, name: string, r: Rec)
  {
    r.pinned || name in p.config.bundled || name in p.gates.suppressed || name in p.protected
    || name in PROTECTED_BUILTIN_SKILLS
  }

  /** A map holds one record per name: the view of the whole map at a name is the class of its record. */
  lemma {:induction false} ViewIsPerRecord(p: Pass, u: Usage, i: nat)
    requires DistinctNames(u) && i < |u|
    ensures var v, name, r := View(p, u), u[i].0, u[i].1;
            && (name in v.managed <==> Candidate(p, name, r))
            && (name in v.watched <==> Candidate(p, name, r) && (r.life.Stale? || r.Warned()))
            && (name in v.qualityWarned <==> Candidate(p, name, r) && r.Warned())
            && (name in v.exempted <==> Exempt(p, name))
            && (name in v.protected <==> !Exempt(p, name) && Shielded(p, name, r))
  {
    var n := |u| - 1;
    if i < n {
      ViewIsPerRecord(p, u[..n], i);
    } else {
      ViewHasNoOther(p, u[..n], u[i].0);
    }
  }

  predicate Absent(v: Scope, name: string)
  {
    name !in v.managed && name !in v.watched && name !in v.qualityWarned && name !in v.exempted && name !in v.protected
  }

  lemma {:induction false} ViewHasNoOther(p: Pass, u: Usage, name: string)
    requires forall i | 0 <= i < |u| :: u[i].0 != name
    ensures Absent(View(p, u), name)
  {
    if u != [] {
      ViewHasNoOther(p, u[..|u| - 1], name);
    }
  }

  /** The buckets of one view: nothing exempted is managed, a managed name is protected only if it is bundled, and
      the watch lists are part of what is managed. */
  lemma BucketsAgree(p: Pass, u: Usage)
    requires DistinctNames(u)
    ensures var v := View(p, u);
            && v.managed * v.exempted == {}
            && v.managed * v.protected <= p.config.bundled
            && v.qualityWarned <= v.watched <= v.managed
            && v.exempted * v.protected == {}
  {
    var v := View(p, u);
    forall name | !Absent(v, name) ensures exists i | 0 <= i < |u| :: u[i].0 == name {
      if forall i | 0 <= i < |u| :: u[i].0 != name { ViewHasNoOther(p, u, name); }
    }
    forall i | 0 <= i < |u|
      ensures var name := u[i].0;
              && (name in v.managed ==> name !in v.exempted && (name in v.protected ==> name in p.config.bundled))
              && (name in v.qualityWarned ==> name in v.watched) && (name in v.watched ==> name in v.managed)
              && (name in v.exempted ==> name !in v.protected)
    {
      ViewIsPerRecord(p, u, i);
    }
  }

  // ----- the engine and the view ---------------------------------------------------------------------

  /** A transition names a record of the map, moves it, and there is one for every record that moves. */
  lemma {:induction false} TransitionsAre(p: Pass, u: Usage, t: Transition)
    ensures t in Transitions(p, u) <==>
            exists i | 0 <= i < |u| ::
              u[i].0 == t.name && u[i].1.life == t.from && NextLife(p, t.name, u[i].1) == t.to && t.from != t.to
  {
    if u != [] {
      var n := |u| - 1;
      TransitionsAre(p, u[..n], t);
      var here := u[n].0 == t.name && u[n].1.life == t.from && NextLife(p, t.name, u[n].1) == t.to && t.from != t.to;
      assert t in Transitions(p, u) <==> t in Transitions(p, u[..n]) || here;
      if i :| 0 <= i < n && u[..n][i].0 == t.name && u[..n][i].1.life == t.from && NextLife(p, t.name, u[..n][i].1) == t.to
                && t.from != t.to {
        assert u[i] == u[..n][i];
      }
      if i :| 0 <= i < |u| && u[i].0 == t.name && u[i].1.life == t.from && NextLife(p, t.name, u[i].1) == t.to
                && t.from != t.to && i < n {
        assert u[..n][i] == u[i];
      }
    }
  }

  /** The view predicts the pass: every name with a transition is managed for the same inputs. */
  lemma EngineStaysInScope(p: Pass, u: Usage, t: Transition)
    requires DistinctNames(u) && t in Transitions(p, u)
    ensures t.name in View(p, u).managed && t.name !in View(p, u).exempted
  {
    TransitionsAre(p, u, t);
    var i :| 0 <= i < |u| && u[i].0 == t.name && u[i].1.life == t.from && NextLife(p, t.name, u[i].1) == t.to
             && t.from != t.to;
    ViewIsPerRecord(p, u, i);
  }

  lemma {:induction false} ToHas(ts: seq<Transition>, to: Life, name: string)
    ensures name in To(ts, to) <==> exists t :: t in ts && t.name == name && t.to == to
  {
    if ts != [] {
      var n := |ts| - 1;
      ToHas(ts[..n], to, name);
      assert ts == ts[..n] + [ts[n]];
    }
  }

  /** The result lists are the mutated states: a record ends in `to` without having begun there exactly when its
      name is on the list for `to`. */
  lemma ListsMatchStates(p: Pass, u: Usage, i: nat, to: Life)
    requires DistinctNames(u) && i < |u|
    ensures u[i].0 in To(Transitions(p, u), to) <==> AllAfter(p, u)[i].1.life == to && u[i].1.life != to
  {
    var ts, name := Transitions(p, u), u[i].0;
    ToHas(ts, to, name);
    if AllAfter(p, u)[i].1.life == to && u[i].1.life != to {
      TransitionsAre(p, u, Transition(name, u[i].1.life, to));
    }
    if t :| t in ts && t.name == name && t.to == to {
      TransitionsAre(p, u, t);
      var j :| 0 <= j < |u| && u[j].0 == t.name && u[j].1.life == t.from && NextLife(p, t.name, u[j].1) == t.to && t.from != t.to;
      assert i == j;
    }
  }

  /** At most one transition per name. */
  lemma {:induction false} OneTransitionPerName(p: Pass, u: Usage)
    requires DistinctNames(u)
    ensures var ts := Transitions(p, u); forall i, j | 0 <= i < j < |ts| :: ts[i].name != ts[j].name
  {
    if u != [] {
      var n := |u| - 1;
      OneTransitionPerName(p, u[..n]);
      var ts := Transitions(p, u[..n]);
      forall i | 0 <= i < |ts| ensures ts[i].name != u[n].0 {
        TransitionsAre(p, u[..n], ts[i]);
      }
    }
  }

  /** A second pass at the same instant moves nothing and changes no record, whatever the thresholds. */
  lemma SecondPassIsIdle(p: Pass, u: Usage)
    ensures Transitions(p, AllAfter(p, u)) == [] && AllAfter(p, AllAfter(p, u)) == AllAfter(p, u)
  {
    var v := AllAfter(p, u);
    forall i | 0 <= i < |v| ensures NextLife(p, v[i].0, v[i].1) == v[i].1.life {
      SettledLife(p, u[i].0, u[i].1);
    }
    NoMoveNoTransition(p, v);
    assert AllAfter(p, v) == v;
  }

  lemma SettledLife(p: Pass, name: string, r: Rec)
    ensures NextLife(p, name, After(p, name, r)) == After(p, name, r).life
  {
  }

  lemma {:induction false} NoMoveNoTransition(p: Pass, u: Usage)
    requires forall i | 0 <= i < |u| :: NextLife(p, u[i].0, u[i].1) == u[i].1.life
    ensures Transitions(p, u) == []
  {
    if u != [] {
      assert forall i | 0 <= i < |u| - 1 :: u[..|u| - 1][i] == u[i];
      NoMoveNoTransition(p, u[..|u| - 1]);
    }
  }

  // ----- thresholds ---------------------------------------------------------------------------------------

  /** The archive bound wins over every other bound, from either state, however the bounds are ordered; and it is
      the only way into the archive. */
  lemma ArchiveBoundWins(p: Pass, name: string, r: Rec)
    requires Candidate(p, name, r)
    ensures NextLife(p, name, r).Archived? <==> !Deferred(p, r) && IdleDays(r, p.now) >= p.config.archiveAfter
  {
  }

  function Rank(l: Life): nat { match l case Active => 0 case Stale => 1 case Archived => 2 }

  /** A quality warning added to an unwarned candidate leaves it in an earlier state than without, exactly when it
      is idle for less than the warned window and the archive bound while, without the warning, it turns stale or
      stays so. */
  lemma WarningIsEarlierIff(p: Pass, name: string, r: Rec)
    requires Candidate(p, name, r) && !r.Warned()
    ensures var w := r.(qualityWarn := true);
            Rank(NextLife(p, name, w)) < Rank(NextLife(p, name, r)) <==>
              && IdleDays(r, p.now) < StaleWindow(p, w) && IdleDays(r, p.now) < p.config.archiveAfter
              && (if Deferred(p, r) then r.life.Stale? else IdleDays(r, p.now) >= p.config.staleAfter)
  {
  }

  /** A stale, never loaded record of ten days, under bounds of 30 and 90: it stays stale without a warning, and one
      makes it active. */
  lemma WarningReactivates(name: string)
    requires name !in PROTECTED_BUILTIN_SKILLS
    ensures var p := Pass(Config(30.0, 90.0, None, false, false, {}), GateSet({}, {}, {}), {}, 10.0);
            var r := Rec(true, 0, 0, None, None, None, Some(0.0), Stale, false, None, false, false);
            && Candidate(p, name, r) && NextLife(p, name, r) == Stale
            && NextLife(p, name, r.(qualityWarn := true)) == Active
  {
  }

  /** With a warned window no longer than the ordinary one, a warning never helps an active record; it helps a
      stale one only when the record was deferred for being unused. */
  lemma WarningNeverHelpsActive(p: Pass, name: string, r: Rec)
    requires Candidate(p, name, r) && !r.Warned()
    requires p.config.warnStaleAfter.Some? ==> p.config.warnStaleAfter.value <= p.config.staleAfter
    ensures var w := r.(qualityWarn := true);
            && (r.life.Active? ==> Rank(NextLife(p, name, r)) <= Rank(NextLife(p, name, w)))
            && (!Deferred(p, r) ==> Rank(NextLife(p, name, r)) <= Rank(NextLife(p, name, w)))
            && (Rank(NextLife(p, name, w)) < Rank(NextLife(p, name, r)) <==>
                  && r.life.Stale? && Deferred(p, r)
                  && IdleDays(r, p.now) < StaleWindow(p, w) && IdleDays(r, p.now) < p.config.archiveAfter)
  {
  }

  // ----- the decision from the record's own fields ------------------------------------------------------------

  /** Idle time runs from the latest of the three activity stamps; from creation only if none is set. */
  lemma IdleIsSinceLatest(r: Rec, now: real)
    ensures forall at: Stamp | at in {r.usedAt, r.viewedAt, r.patchedAt} && at.Some? :: IdleDays(r, now) <= now - at.value
    ensures (exists at: Stamp | at in {r.usedAt, r.viewedAt, r.patchedAt} :: at.Some?) ==>
              exists at: Stamp | at in {r.usedAt, r.viewedAt, r.patchedAt} && at.Some? :: IdleDays(r, now) == now - at.value
    ensures (forall at: Stamp | at in {r.usedAt, r.viewedAt, r.patchedAt} :: at.None?) ==>
              IdleDays(r, now) == if r.createdAt.Some? then now - r.createdAt.value else 0.0
  {
    var latest := LatestActivity(r);
    assert latest in {r.usedAt, r.viewedAt, r.patchedAt};
  }

  /** A record used, viewed or patched less than the archive bound ago is not archived, whenever it was created. */
  lemma RecentlyActiveIsKept(p: Pass, name: string, r: Rec, at: Stamp)
    requires at in {r.usedAt, r.viewedAt, r.patchedAt} && at.Some? && p.now - at.value < p.config.archiveAfter
    ensures NextLife(p, name, r).Archived? ==> r.life.Archived?
  {
    IdleIsSinceLatest(r, p.now);
  }

  /** Whom the engine may move at all. */
  predicate Movable(p: Pass, name: string, r: Rec)
  {
    && !r.pinned && !r.life.Archived? && name !in p.protected
    && name !in p.gates.exclude && name !in p.gates.referenced && name !in p.gates.suppressed && name != "plan"
    && (r.agentCreated || p.config.manageUnmanaged || (p.config.pruneBuiltins && name in p.config.bundled))
    && (r.useCount > 0 || r.viewCount > 0 || r.qualityWarn || r.feedbackWarn
        || p.config.staleAfter <= if r.createdAt.Some? then p.now - r.createdAt.value else 0.0)
  }

  /** What a pass decides, by the record's fields: a record it may move ends archived, stale or active by its idle time
      alone, wherever it was; any other stays. */
  lemma PassDecides(p: Pass, name: string, r: Rec)
    ensures var idle := IdleDays(r, p.now);
            var window := if (r.qualityWarn || r.feedbackWarn) && p.config.warnStaleAfter.Some?
                          then p.config.warnStaleAfter.value else p.config.staleAfter;
            NextLife(p, name, r) ==
              if !Movable(p, name, r) then r.life
              else if idle >= p.config.archiveAfter then Archived
              else if idle >= window then Stale
              else Active
  {
  }

  /** A pass changes nothing of a record but its life, and the stamp of one it archives. */
  lemma PassChangesOnly(p: Pass, name: string, r: Rec)
    ensures var a := After(p, name, r);
            && a.life == NextLife(p, name, r) && a == r.(life := a.life, archivedAt := a.archivedAt)
            && a.archivedAt == if a.life.Archived? && !r.life.Archived? then Some(p.now) else r.archivedAt
  {
  }

  // ----- the engine over records in place ---------------------------------------------------------------------

  class UsageRecord {
    const agentCreated: bool
    var useCount: nat
    var viewCount: nat
    var usedAt: Stamp
    var viewedAt: Stamp
    var patchedAt: Stamp
    const createdAt: Stamp
    var life: Life
    var pinned: bool
    var archivedAt: Stamp
    var qualityWarn: bool
    var feedbackWarn: bool

    constructor (r: Rec)
      ensures Value() == r
    {
      agentCreated, useCount, viewCount := r.agentCreated, r.useCount, r.viewCount;
      usedAt, viewedAt, patchedAt, createdAt := r.usedAt, r.viewedAt, r.patchedAt, r.createdAt;
      life, pinned, archivedAt := r.life, r.pinned, r.archivedAt;
      qualityWarn, feedbackWarn := r.qualityWarn, r.feedbackWarn;
    }

    function Value(): Rec
      reads this
    {
      Rec(agentCreated, useCount, viewCount, usedAt, viewedAt, patchedAt, createdAt, life, pinned, archivedAt,
          qualityWarn, feedbackWarn)
    }

    /** The body of the engine's loop: decides this record's transition and carries it out. */
    method Transit(p: Pass, name: string) returns (moved: Option<Transition>)
      modifies this
      ensures Value() == After(p, name, old(Value()))
      ensures moved == if life == old(life) then None else Some(Transition(name, old(life), life))
    {
      if !Candidate(p, name, Value()) {
        return None;
      }
      var age := DaysSince(createdAt, p.now);
      var warned := qualityWarn || feedbackWarn;
      if useCount + viewCount == 0 && !warned && age < p.config.staleAfter {
        return None;
      }
      var idle := IdleDays(Value(), p.now);
      var staleAfter := if warned && p.config.warnStaleAfter.Some? then p.config.warnStaleAfter.value else p.config.staleAfter;
      var from := life;
      if life.Active? {
        if idle >= p.config.archiveAfter {
          life, archivedAt := Archived, Some(p.now);
        } else if idle >= staleAfter {
          life := Stale;
        }
      } else {
        if idle >= p.config.archiveAfter {
          life, archivedAt := Archived, Some(p.now);
        } else if idle < staleAfter {
          life := Active;
        }
      }
      moved := if life == from then None else Some(Transition(name, from, life));
    }
  }

  type UsageMap = seq<(string, UsageRecord)>

  /** The records are distinct objects under distinct names. */
  ghost predicate IsMap(usage: UsageMap)
  {
    forall i, j | 0 <= i < j < |usage| :: usage[i].0 != usage[j].0 && usage[i].1 != usage[j].1
  }

  ghost function Objects(usage: UsageMap): set<object> { set i | 0 <= i < |usage| :: usage[i].1 }

  function Values(usage: UsageMap): (u: Usage)
    reads set i | 0 <= i < |usage| :: usage[i].1
    ensures |u| == |usage| && forall i | 0 <= i < |u| :: u[i] == (usage[i].0, usage[i].1.Value())
  {
    if usage == [] then []
    else Values(usage[..|usage| - 1]) + [(usage[|usage| - 1].0, usage[|usage| - 1].1.Value())]
  }

  lemma ToPush(ts: seq<Transition>, t: Transition, to: Life)
    ensures To(ts + [t], to) == To(ts, to) + if t.to == to then [t.name] else []
  {
    assert (ts + [t])[..|ts|] == ts;
  }

  lemma TransitionsGrow(p: Pass, u: Usage, k: nat)
    requires k < |u|
    ensures var (name, r) := u[k];
            Transitions(p, u[..k + 1]) ==
            Transitions(p, u[..k]) + if NextLife(p, name, r) == r.life then [] else [Transition(name, r.life, NextLife(p, name, r))]
  {
    assert u[..k + 1][..k] == u[..k];
  }

  /** One pass of the engine over the map: every record becomes what the pass makes of it, and the four result
      lists are the transitions that happened, in map order. */
  method ComputeLifecycleTransitions(usage: UsageMap, p: Pass) returns (result: Report)
    requires IsMap(usage)
    modifies Objects(usage)
    ensures Values(usage) == AllAfter(p, old(Values(usage)))
    ensures result.transitions == Transitions(p, old(Values(usage)))
    ensures result.archive == To(result.transitions, Archived)
    ensures result.reactivate == To(result.transitions, Active)
    ensures result.markStale == To(result.transitions, Stale)
  {
    result := Report([], [], [], []);
    var k := 0;
    ghost var u := Values(usage);
    while k < |usage|
      invariant 0 <= k <= |usage|
      invariant forall i | 0 <= i < k :: usage[i].1.Value() == After(p, u[i].0, u[i].1)
      invariant forall i | k <= i < |usage| :: usage[i].1.Value() == u[i].1
      invariant result.transitions == Transitions(p, u[..k])
      invariant Sorted(result)
    {
      var (name, record) := usage[k];
      assert record.Value() == u[k].1;
      var moved := record.Transit(p, name);
      ReportGrows(p, u, k, result, moved);
      result := Noted(result, moved);
      k := k + 1;
    }
    assert u[..k] == u;
    AllMoved(usage, p, u);
  }

  lemma AllMoved(usage: UsageMap, p: Pass, u: Usage)
    requires |u| == |usage| && forall i | 0 <= i < |usage| :: u[i].0 == usage[i].0 && usage[i].1.Value() == After(p, u[i].0, u[i].1)
    ensures Values(usage) == AllAfter(p, u)
  {
    assert |Values(usage)| == |AllAfter(p, u)|;
  }

  /** The three lists are the transitions by where they end. */
  predicate Sorted(r: Report)
  {
    && r.archive == To(r.transitions, Archived) && r.reactivate == To(r.transitions, Active)
    && r.markStale == To(r.transitions, Stale)
  }

  function Noted(r: Report, moved: Option<Transition>): Report { if moved.None? then r else Note(r, moved.value) }

  lemma ReportGrows(p: Pass, u: Usage, k: nat, r: Report, moved: Option<Transition>)
    requires k < |u| && Sorted(r) && r.transitions == Transitions(p, u[..k])
    requires var (name, rec) := u[k]; var to := NextLife(p, name, rec);
             moved == if to == rec.life then None else Some(Transition(name, rec.life, to))
    ensures Sorted(Noted(r, moved)) && Noted(r, moved).transitions == Transitions(p, u[..k + 1])
  {
    TransitionsGrow(p, u, k);
    if moved.Some? { NoteSorts(r, moved.value); }
  }

  lemma NoteSorts(r: Report, t: Transition)
    requires Sorted(r)
    ensures Sorted(Note(r, t)) && Note(r, t).transitions == r.transitions + [t]
  {
    ToPush(r.transitions, t, Archived);
    ToPush(r.transitions, t, Active);
    ToPush(r.transitions, t, Stale);
  }

  function Note(r: Report, t: Transition): Report
  {
    var r' := r.(transitions := r.transitions + [t]);
    match t.to
    case Archived => r'.(archive := r.archive + [t.name])
    case Active => r'.(reactivate := r.reactivate + [t.name])
    case Stale => r'.(markStale := r.markStale + [t.name])
  }

  lemma ViewGrows(p: Pass, u: Usage, k: nat)
    requires k < |u|
    ensures View(p, u[..k + 1]) == Union(View(p, u[..k]), Classify(p, u[k].0, u[k].1))
  {
    assert u[..k + 1][..k] == u[..k];
  }

  /** The body of the view's loop: one record goes to its buckets. */
  method Bucket(p: Pass, name: string, record: UsageRecord, before: Scope) returns (v: Scope)
    ensures v == Union(before, Classify(p, name, record.Value()))
  {
    v := before;
    if name in p.gates.exclude || name in p.gates.referenced {
      v := v.(exempted := v.exempted + {name});
    } else {
      if record.pinned || name in p.config.bundled || name in p.gates.suppressed || name in p.protected
         || name in PROTECTED_BUILTIN_SKILLS {
        v := v.(protected := v.protected + {name});
      }
      if Candidate(p, name, record.Value()) {
        v := v.(managed := v.managed + {name});
        var warned := record.qualityWarn || record.feedbackWarn;
        if record.life.Stale? || warned {
          v := v.(watched := v.watched + {name});
        }
        if warned {
          v := v.(qualityWarned := v.qualityWarned + {name});
        }
      }
    }
  }

  /** The view over the same records, which it only reads. */
  method ComputeScopeView(usage: UsageMap, p: Pass) returns (v: Scope)
    ensures v == View(p, Values(usage))
  {
    v := Scope({}, {}, {}, {}, {});
    var k := 0;
    while k < |usage|
      invariant 0 <= k <= |usage|
      invariant v == View(p, Values(usage)[..k])
    {
      var (name, record) := usage[k];
      ViewGrows(p, Values(usage), k);
      v := Bucket(p, name, record, v);
      k := k + 1;
    }
    assert Values(usage)[..k] == Values(usage);
  }
}
