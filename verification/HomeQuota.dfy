/**
 The home quota is a run invariant: a user's session homes and volumes together never exceed the quota,
 although the quota is read before, and apart from, the insert it allows
 (backend/internal/session/service.go, backend/internal/session/repo.go).
 */
module HomeQuota {
  import opened Options
  import opened SessionTable
  import opened AdmissionProtocol

  ghost function Homes(c: Cluster, t: Table, user: int): int { Total(HomeGiB(user, c.defaultHomeGiB), t) }

  function HomeOf(c: Cluster, r: Row): int { if r.homeGiB.Some? then r.homeGiB.value else c.defaultHomeGiB }

  /** Homes plus volumes plus a pending home are within the user's quota, when there is one. */
  ghost predicate Within(c: Cluster, t: Table, user: int, more: int) {
    Get(c.quotaGiB, user) > 0 ==> Homes(c, t, user) + Get(c.volumeGiB, user) + more <= Get(c.quotaGiB, user)
  }

  /** Home sizes are not negative: a request without a positive size gets the installation default. */
  ghost predicate SizesOk(c: Cluster, t: Table) { forall id :: id in t ==> 0 <= HomeOf(c, t[id]) }

  /** Nothing else is assumed of the surroundings: binds, un-binds, leases and reconfigurations may fall anywhere. */
  ghost predicate Assumed(c: Cluster, s: State, step: Step) {
    match step
    case CheckQuota(q) => q.NewSession? ==> 0 <= HomeOf(c, q.row)
    case LeaseNode(_, r) => 0 <= HomeOf(c, r)
    case _ => true
  }

  /** The request being admitted, if it is a new session; restarts reuse a home already counted. */
  function Pending(s: Stage): Option<Row> {
    match s
    case Idle => None
    case Quoted(q) => if q.NewSession? then Some(q.row) else None
    case SawUsage(q, _) => if q.NewSession? then Some(q.row) else None
    case Cleared(q) => if q.NewSession? then Some(q.row) else None
  }

  ghost predicate Inv(c: Cluster, s: State, user: int) {
    && SizesOk(c, s.rows)
    && Within(c, s.rows, user, 0)
    && (Pending(s.stage).Some? ==>
          var r := Pending(s.stage).value;
          r.env == Container && 0 <= HomeOf(c, r) && (r.userID == user ==> Within(c, s.rows, user, HomeOf(c, r))))
  }

  /**
   Nothing but an insert adds to anyone's homes, and a home is freed only when its row goes: every other
   step, whatever it finds, leaves the sum as it was.
   */
  lemma HomesDoNotGrow(c: Cluster, s: State, step: Step, user: int)
    requires SizesOk(c, s.rows) && Enabled(c, s, step) && Assumed(c, s, step)
    requires step == Commit ==> s.stage.req.Restart?
    ensures Homes(c, Apply(c, s, step).rows, user) ==
            Homes(c, s.rows, user)
            - if step.Remove? && step.id in s.rows then Weight(HomeGiB(user, c.defaultHomeGiB), s.rows[step.id]) else 0
    ensures SizesOk(c, Apply(c, s, step).rows)
  {
    hide UsageOf, ReservedOf, PlaceNow, Total;
    var q := HomeGiB(user, c.defaultHomeGiB);
    match step {
      case Commit =>
        var id := s.stage.req.id;
        if id in s.rows { TotalPut(q, s.rows, id, s.rows[id].(phase := Provisioning)); }
      case Refresh(id, p, node) => if id in s.rows { TotalPut(q, s.rows, id, s.rows[id].(phase := p, node := node)); }
      case Halt(id) => if id in s.rows { TotalPut(q, s.rows, id, s.rows[id].(phase := Stopped)); }
      case Terminate(id) => if id in s.rows { TotalPut(q, s.rows, id, s.rows[id].(phase := Terminated)); }
      case Respec(id, spec) => if id in s.rows { TotalPut(q, s.rows, id, s.rows[id].(spec := spec)); }
      case Unpin(id) => if id in s.rows { TotalPut(q, s.rows, id, s.rows[id].(node := "")); }
      case LeaseNode(id, r) => TotalPut(q, s.rows, id, r);
      case Remove(id) => if id in s.rows { TotalRemove(q, s.rows, id); } else { assert s.rows - {id} == s.rows; }
      case _ =>
    }
  }

  lemma StepKeeps(c: Cluster, s: State, step: Step, user: int)
    requires Inv(c, s, user) && Enabled(c, s, step) && Assumed(c, s, step)
    ensures Inv(c, Apply(c, s, step), user)
  {
    hide UsageOf, ReservedOf, PlaceNow, Total;
    if step == Commit && s.stage.req.NewSession? {
      assert Pending(s.stage) == Some(s.stage.req.row);
      TotalPut(HomeGiB(user, c.defaultHomeGiB), s.rows, s.stage.req.id, s.stage.req.row);
    } else {
      HomesDoNotGrow(c, s, step, user);
    }
  }

  lemma {:induction false} RunKeeps(c: Cluster, s: State, steps: seq<Step>, user: int)
    requires Inv(c, s, user) && Legal(c, Assumed, s, steps)
    ensures Inv(c, Exec(c, s, steps), user)
    decreases |steps|
  {
    if steps != [] {
      StepKeeps(c, s, steps[0], user);
      RunKeeps(c, Apply(c, s, steps[0]), steps[1..], user);
    }
  }

  /**
   A home is let in exactly when it still fits, and one that fills the quota to the last does: without a quota,
   and for a physical session, which has no home volume, there is nothing to fit.
   */
  lemma AllowsIffWithin(c: Cluster, t: Table, r: Row, id: string)
    requires r.env == Container && id !in t
    ensures QuotaAllows(c, t, r) <==> Within(c, t[id := r], r.userID, 0)
    ensures Get(c.quotaGiB, r.userID) == 0 ==> QuotaAllows(c, t, r)
    ensures QuotaAllows(c, t, r.(env := Ssh))
    ensures Homes(c, t, r.userID) + Get(c.volumeGiB, r.userID) + HomeOf(c, r) == Get(c.quotaGiB, r.userID) ==>
              QuotaAllows(c, t, r)
  {
    hide Total;
    TotalPut(HomeGiB(r.userID, c.defaultHomeGiB), t, id, r);
  }

  /** Over every run from the empty table, for every user whose volumes alone fit the quota. */
  lemma QuotaHolds(c: Cluster, steps: seq<Step>, user: int)
    requires Get(c.volumeGiB, user) <= Get(c.quotaGiB, user) && Get(c.quotaGiB, user) > 0
    requires Legal(c, Assumed, EMPTY, steps)
    ensures Homes(c, Exec(c, EMPTY, steps).rows, user) + Get(c.volumeGiB, user) <= Get(c.quotaGiB, user)
  {
    RunKeeps(c, EMPTY, steps, user);
  }
}
