/**
 The session operations as the service runs them, each shown to be the protocol steps it stands for
 (backend/internal/session/service.go). Pod, volume and network calls are left out: they do not touch
 the table.
 */
module Admission {
  import opened Options
  import opened Inventory
  import opened SessionTable
  import opened Availability
  import opened Gate
  import opened AdmissionProtocol

  datatype Outcome = Done | QuotaExceeded | NoCapacity | AlreadyStarting | NotFound | NotStopped | Unavailable

  /** What the cluster reports about a Pod. */
  datatype Pod = Pod(phase: string, node: string)

  function MapPodPhase(p: string): Phase {
    if p == "Running" then Running
    else if p == "Succeeded" || p == "Failed" then Stopped
    else Provisioning
  }

  /** One admission with nothing in between: quota, usage, reservations, write. */
  ghost function CreateRun(c: Cluster, t: Table, q: Request): Table {
    Exec(c, State(t, Idle), [CheckQuota(q), ReadUsage(q), ReadReserved, Commit]).rows
  }

  ghost function StartRun(c: Cluster, t: Table, q: Request): Table {
    Exec(c, State(t, Idle), [ReadUsage(q), ReadReserved, Commit]).rows
  }

  ghost predicate Anything(c: Cluster, s: State, step: Step) { true }

  /** The admissions of the service are runs the protocol allows, so what is proved of its runs holds of them. */
  lemma AdmissionIsLegal(c: Cluster, t: Table, id: string, r: Row, pin: string)
    ensures id !in t && FreshRow(r) && QuotaAllows(c, t, r) && PlaceNow(c, t, PlaceReq(r.spec, "")) ==>
              var q := NewSession(id, r, pin);
              Legal(c, Anything, State(t, Idle), [CheckQuota(q), ReadUsage(q), ReadReserved, Commit])
    ensures id in t && t[id].env == Container && PlaceNow(c, t, PlaceReq(r.spec, r.node)) ==>
              var q := Restart(id, r.spec, r.node, pin);
              Legal(c, Anything, State(t, Idle), [ReadUsage(q), ReadReserved, Commit])
  {
    hide UsageOf, ReservedOf, AvailOf, CanPlace, QuotaAllows;
    if id !in t && FreshRow(r) && QuotaAllows(c, t, r) && PlaceNow(c, t, PlaceReq(r.spec, "")) {
      var q := NewSession(id, r, pin);
      var steps := [CheckQuota(q), ReadUsage(q), ReadReserved, Commit];
      assert steps[1..] == [ReadUsage(q), ReadReserved, Commit];
      GateIsLegal(c, State(t, Quoted(q)), q);
    }
    if id in t && t[id].env == Container && PlaceNow(c, t, PlaceReq(r.spec, r.node)) {
      GateIsLegal(c, State(t, Idle), Restart(id, r.spec, r.node, pin));
    }
  }

  lemma GateIsLegal(c: Cluster, s: State, q: Request)
    requires Enabled(c, s, ReadUsage(q)) && PlaceNow(c, s.rows, PlaceOf(q))
    requires q.NewSession? ==> q.id !in s.rows
    ensures Legal(c, Anything, s, [ReadUsage(q), ReadReserved, Commit])
  {
    hide UsageOf, ReservedOf, AvailOf, CanPlace;
    var s1 := Apply(c, s, ReadUsage(q));
    var s2 := Apply(c, s1, ReadReserved);
    assert s2.stage == Cleared(q);
    assert [ReadUsage(q), ReadReserved, Commit][1..] == [ReadReserved, Commit];
    assert [ReadReserved, Commit][1..] == [Commit];
    assert [Commit][1..] == [];
    assert Legal(c, Anything, Apply(c, s2, Commit), []);
    assert Legal(c, Anything, s2, [Commit]);
    assert Legal(c, Anything, s1, [ReadReserved, Commit]);
  }

  /** And so is every other write of the service to a container row, in whatever state it finds the table. */
  lemma WritesAreLegal(c: Cluster, s: State, id: string, p: string, node: string, next: Spec)
    requires id in s.rows ==> s.rows[id].env == Container
    ensures Enabled(c, s, Refresh(id, MapPodPhase(p), node)) && Enabled(c, s, Respec(id, next))
    ensures Enabled(c, s, Unpin(id)) && Enabled(c, s, Halt(id)) && Enabled(c, s, Terminate(id))
    ensures Enabled(c, s, Remove(id))
  {
  }

  /** Whatever state a reading of an ended Pod falls into, its row holds nothing on any node afterwards. */
  lemma EndedPodHoldsNothing(c: Cluster, s: State, id: string, p: string, node: string, n: string)
    requires p == "Succeeded" || p == "Failed"
    requires id in s.rows
    ensures var t := Apply(c, s, Refresh(id, MapPodPhase(p), node)).rows;
            && Total(NodeCards(n), t) == Total(NodeCards(n), t - {id})
            && Total(NodeTasks(n), t) == Total(NodeTasks(n), t - {id})
            && Total(Leases(n), t) == Total(Leases(n), t - {id})
  {
    hide Total;
    var t := Apply(c, s, Refresh(id, MapPodPhase(p), node)).rows;
    TotalRemove(NodeCards(n), t, id);
    TotalRemove(NodeTasks(n), t, id);
    TotalRemove(Leases(n), t, id);
  }

  lemma AdmissionRun(c: Cluster, s: State, q: Request)
    ensures Exec(c, s, [ReadUsage(q), ReadReserved, Commit]).rows ==
            if PlaceNow(c, s.rows, PlaceOf(q)) then Committed(s.rows, q) else s.rows
  {
    hide UsageOf, ReservedOf, AvailOf, CanPlace;
    var s1 := Apply(c, s, ReadUsage(q));
    var s2 := Apply(c, s1, ReadReserved);
    var s3 := Apply(c, s2, Commit);
    assert [ReadUsage(q), ReadReserved, Commit][1..] == [ReadReserved, Commit];
    assert [ReadReserved, Commit][1..] == [Commit];
    assert [Commit][1..] == [];
    assert Exec(c, s3, []) == s3;
    assert Exec(c, s2, [Commit]) == s3;
    assert Exec(c, s1, [ReadReserved, Commit]) == s3;
  }

  class Service {
    const cluster: Cluster
    const repo: Repo

    constructor (c: Cluster, r: Repo)
      ensures cluster == c && repo == r
    {
      cluster := c;
      repo := r;
    }

    method RunningByNode() returns (cards: map<string, int>)
      ensures cards == map n <- NodeNames(cluster) :: Total(NodeCards(n), repo.rows)
    {
      hide Total;
      cards := map[];
      var rest := NodeNames(cluster);
      while rest != {}
        invariant rest <= NodeNames(cluster)
        invariant cards == map n <- NodeNames(cluster) - rest :: Total(NodeCards(n), repo.rows)
        decreases rest
      {
        var n :| n in rest;
        var used := repo.Sum(NodeCards(n));
        cards := cards[n := used];
        rest := rest - {n};
      }
    }

    method SharedUsageByNode() returns (share: map<string, ShareUse>)
      ensures share == map n <- NodeNames(cluster) ::
                         ShareUse(Total(NodeVram(n), repo.rows), Total(NodeCores(n), repo.rows),
                             Total(NodeTasks(n), repo.rows))
    {
      hide Total;
      share := map[];
      var rest := NodeNames(cluster);
      while rest != {}
        invariant rest <= NodeNames(cluster)
        invariant share == map n <- NodeNames(cluster) - rest ::
                             ShareUse(Total(NodeVram(n), repo.rows), Total(NodeCores(n), repo.rows),
                                 Total(NodeTasks(n), repo.rows))
        decreases rest
      {
        var n :| n in rest;
        var vram := repo.Sum(NodeVram(n));
        var cores := repo.Sum(NodeCores(n));
        var tasks := repo.Sum(NodeTasks(n));
        share := share[n := ShareUse(vram, cores, tasks)];
        rest := rest - {n};
      }
    }

    method RunningPhysicalNodes() returns (physical: set<string>)
      ensures physical == (set n <- NodeNames(cluster) | Total(Leases(n), repo.rows) > 0)
    {
      hide Total;
      physical := {};
      var rest := NodeNames(cluster);
      while rest != {}
        invariant rest <= NodeNames(cluster)
        invariant physical == (set n <- NodeNames(cluster) - rest | Total(Leases(n), repo.rows) > 0)
        decreases rest
      {
        var n :| n in rest;
        var leases := repo.Sum(Leases(n));
        if leases > 0 {
          physical := physical + {n};
        }
        rest := rest - {n};
      }
    }

    method ReadUsageNow() returns (u: Usage)
      ensures u == UsageOf(cluster, repo.rows)
    {
      hide Total;
      var cards := RunningByNode();
      var physical := RunningPhysicalNodes();
      var share := SharedUsageByNode();
      u := Usage(cards, share, physical, cluster.hami, cluster.split);
    }

    /** The reservation query, type by type. */
    method ReadReservedNow() returns (r: Reservation)
      ensures r == ReservedOf(cluster, repo.rows)
    {
      hide Total;
      var cards: map<string, int> := map[];
      var shared: map<string, ShareUse> := map[];
      var rest := GpuTypes(cluster);
      while rest != {}
        invariant rest <= GpuTypes(cluster)
        invariant cards == map t <- GpuTypes(cluster) - rest :: Total(FloatCards(t), repo.rows)
        invariant shared == map t <- GpuTypes(cluster) - rest ::
                              ShareUse(Total(FloatVram(t), repo.rows), Total(FloatCores(t), repo.rows),
                                  Total(FloatTasks(t), repo.rows))
        decreases rest
      {
        var t :| t in rest;
        var n := repo.Sum(FloatCards(t));
        var vram := repo.Sum(FloatVram(t));
        var cores := repo.Sum(FloatCores(t));
        var tasks := repo.Sum(FloatTasks(t));
        cards := cards[t := n];
        shared := shared[t := ShareUse(vram, cores, tasks)];
        rest := rest - {t};
      }
      r := Reservation(cards, shared);
    }

    method CheckCapacityOn(s: Spec, node: string) returns (ok: bool)
      ensures ok == PlaceNow(cluster, repo.rows, PlaceReq(s, node))
    {
      hide UsageOf, ReservedOf, AvailOf, Total;
      if s.mode == Cpu || s.gpuType == "" {
        return true;
      }
      var u := ReadUsageNow();
      var av := ComputeAvailability(cluster.nodes, u);
      var res := ReadReservedNow();
      ok := CanPlace(av, res, PlaceReq(s, node));
    }

    method CheckHomeQuota(r: Row) returns (ok: bool)
      ensures ok == QuotaAllows(cluster, repo.rows, r)
    {
      hide Total;
      var quota := Get(cluster.quotaGiB, r.userID);
      if r.env == Ssh || quota <= 0 {
        return true;
      }
      var want := cluster.defaultHomeGiB;
      if r.homeGiB.Some? {
        want := r.homeGiB.value;
      }
      var used := repo.Sum(HomeGiB(r.userID, cluster.defaultHomeGiB));
      used := used + Get(cluster.volumeGiB, r.userID);
      ok := used + want <= quota;
    }

    /** Admission of a new container session under the lock; the hostname its Pod will require is not looked at. */
    method Create(id: string, r: Row, pin: string) returns (out: Outcome)
      requires FreshRow(r)
      modifies repo
      ensures repo.rows == if id !in old(repo.rows) && QuotaAllows(cluster, old(repo.rows), r)
                           then CreateRun(cluster, old(repo.rows), NewSession(id, r, pin))
                           else old(repo.rows)
      ensures out == Done <==> id !in old(repo.rows) && QuotaAllows(cluster, old(repo.rows), r) &&
                               PlaceNow(cluster, old(repo.rows), PlaceReq(r.spec, ""))
      ensures out == Done ==> repo.rows == old(repo.rows)[id := r]
      ensures out != Done ==> repo.rows == old(repo.rows)
      ensures out == QuotaExceeded <==> !QuotaAllows(cluster, old(repo.rows), r)
      ensures out == NoCapacity <==>
              QuotaAllows(cluster, old(repo.rows), r) && !PlaceNow(cluster, old(repo.rows), PlaceReq(r.spec, ""))
      ensures out in {Done, QuotaExceeded, NoCapacity, Unavailable}
    {
      hide UsageOf, ReservedOf, AvailOf, CanPlace, Total, PlaceNow, QuotaAllows;
      ghost var t, q := repo.rows, NewSession(id, r, pin);
      assert CreateRun(cluster, t, q) == if PlaceNow(cluster, t, PlaceOf(q)) then Committed(t, q) else t by {
        var steps := [CheckQuota(q), ReadUsage(q), ReadReserved, Commit];
        assert steps[1..] == [ReadUsage(q), ReadReserved, Commit];
        AdmissionRun(cluster, Apply(cluster, State(t, Idle), CheckQuota(q)), q);
      }
      var fits := CheckHomeQuota(r);
      if !fits {
        return QuotaExceeded;
      }
      var ok := CheckCapacityOn(r.spec, "");
      if !ok {
        return NoCapacity;
      }
      ok := repo.Create(id, r);
      out := if ok then Done else Unavailable;
    }

    /**
     Restart of a stopped container session, as it was read before the lock: the gate asks its own node,
     and the claim is a compare-and-set on the row as it is now.
     */
    method Start(id: string, sess: Option<Row>, pin: string) returns (out: Outcome)
      modifies repo
      ensures sess.None? ==> out == NotFound && repo.rows == old(repo.rows)
      ensures sess.Some? && sess.value.env == Ssh ==> out == Unavailable && repo.rows == old(repo.rows)
      ensures sess.Some? && sess.value.env == Container ==>
                var r, t := sess.value, old(repo.rows);
                && repo.rows == StartRun(cluster, t, Restart(id, r.spec, r.node, pin))
                && (out == Done <==>
                      PlaceNow(cluster, t, PlaceReq(r.spec, r.node)) && id in t && t[id].phase == Stopped)
                && repo.rows == (if out == Done then t[id := t[id].(phase := Provisioning)] else t)
                && (out == NoCapacity <==> !PlaceNow(cluster, t, PlaceReq(r.spec, r.node)))
                && out in {Done, NoCapacity, AlreadyStarting}
    {
      hide UsageOf, ReservedOf, AvailOf, CanPlace, Total, PlaceNow;
      if sess.None? {
        return NotFound;
      }
      var r := sess.value;
      if r.env == Ssh {
        return Unavailable;
      }
      AdmissionRun(cluster, State(repo.rows, Idle), Restart(id, r.spec, r.node, pin));
      var ok := CheckCapacityOn(r.spec, r.node);
      if !ok {
        return NoCapacity;
      }
      ok := repo.ClaimForStart(id);
      out := if ok then Done else AlreadyStarting;
    }

    /**
     The phase reconciler copies a Pod's phase and node into the row. It decides by the row as it was
     listed, and the write does not look again.
     */
    method RefreshLive(id: string, sess: Row, pod: Option<Pod>)
      modifies repo
      ensures repo.rows ==
              if Admitted(sess) && sess.env == Container && pod.Some?
              then Apply(cluster, State(old(repo.rows), Idle),
                         Refresh(id, MapPodPhase(pod.value.phase), pod.value.node)).rows
              else if sess.env == Ssh && sess.phase == Provisioning then SetPhaseOf(old(repo.rows), id, Running)
              else old(repo.rows)
      ensures sess.phase in {Provisioning, Running} && sess.env == Container && pod.Some? && id in old(repo.rows) ==>
                && repo.rows.Keys == old(repo.rows).Keys
                && repo.rows[id].node == pod.value.node
                && (repo.rows[id].phase == Running <==> pod.value.phase == "Running")
                && (repo.rows[id].phase == Stopped <==> pod.value.phase == "Succeeded" || pod.value.phase == "Failed")
                && (Admitted(repo.rows[id]) <==> pod.value.phase != "Succeeded" && pod.value.phase != "Failed")
    {
      if sess.phase == Stopped || sess.phase == Terminated {
        return;
      }
      if sess.env == Ssh {
        if sess.phase == Provisioning {
          repo.SetPhase(id, Running);
        }
        return;
      }
      if pod == None {
        return;
      }
      repo.UpdateLive(id, MapPodPhase(pod.value.phase), pod.value.node);
    }

    /**
     New resources for a session read as stopped, judged on the node its home is bound to. This is the
     judgement; the write follows, at a later instant and whatever it finds.
     */
    method JudgeReconfigure(sess: Option<Row>, next: Spec) returns (out: Outcome)
      ensures out == Done <==>
              && sess.Some? && sess.value.env == Container && sess.value.phase == Stopped
              && PlaceNow(cluster, repo.rows, PlaceReq(next, sess.value.node))
    {
      hide UsageOf, ReservedOf, AvailOf, CanPlace, Total, PlaceNow;
      if sess.None? {
        return NotFound;
      }
      if sess.value.env == Ssh {
        return Unavailable;
      }
      if sess.value.phase != Stopped {
        return NotStopped;
      }
      var ok := CheckCapacityOn(next, sess.value.node);
      if !ok {
        return NoCapacity;
      }
      out := Done;
    }

    method Reconfigure(id: string, judged: Outcome, next: Spec)
      modifies repo
      ensures repo.rows == if judged == Done then Apply(cluster, State(old(repo.rows), Idle), Respec(id, next)).rows
                           else old(repo.rows)
      ensures judged == Done && id in old(repo.rows) ==>
                repo.rows == old(repo.rows)[id := old(repo.rows)[id].(spec := next)]
    {
      if judged == Done {
        repo.UpdateSpec(id, next);
      }
    }

    /**
     Gives up the node binding of a session read as stopped, so that its next start may go anywhere; its
     home must be deleted first.
     */
    method Reallocate(id: string, sess: Option<Row>, homeGone: bool) returns (out: Outcome)
      modifies repo
      ensures out == Done <==> sess.Some? && sess.value.env == Container && sess.value.phase == Stopped && homeGone
      ensures repo.rows == if out == Done then Apply(cluster, State(old(repo.rows), Idle), Unpin(id)).rows
                           else old(repo.rows)
      ensures out == Done && id in old(repo.rows) ==>
                repo.rows == old(repo.rows)[id := old(repo.rows)[id].(node := "")]
    {
      if sess.None? {
        return NotFound;
      }
      if sess.value.env == Ssh {
        return Unavailable;
      }
      if sess.value.phase != Stopped {
        return NotStopped;
      }
      if !homeGone {
        return Unavailable;
      }
      repo.ClearNode(id);
      out := Done;
    }
  }
}
