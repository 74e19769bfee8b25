/**
 What one row of the `sessions` table is worth to the counters of the capacity gate and of the home quota,
 number by number (backend/internal/resource/availability.go, backend/internal/session/repo.go).
 */
module Counters {
  import opened Options
  import opened Inventory
  import opened SessionTable
  import opened Availability
  import opened Gate
  import opened AdmissionProtocol

  /** The cards a session that is starting or running takes on its node; other nodes are not touched. */
  lemma PlacedRowTakesCards(c: Cluster, t: Table, id: string, r: Row, n: LiveNode)
    requires id !in t && n in c.nodes && n.name != "" && r.node == n.name
    requires r.phase == Provisioning || r.phase == Running
    ensures var u, u' := UsageOf(c, t), UsageOf(c, t[id := r]);
            && Get(u'.cards, n.name) - Get(u.cards, n.name) ==
               (match r.spec.mode
                case Exclusive => if r.spec.gpuCount > 1 then r.spec.gpuCount else 1
                case Shared => 1
                case Timeslice => 1
                case Cpu => 0)
            && forall m <- c.nodes :: m.name != n.name ==> Get(u'.cards, m.name) == Get(u.cards, m.name)
  {
    ReadsOf(c, t);
    ReadsOf(c, t[id := r]);
    hide UsageOf, Total;
    forall m | m in c.nodes
      ensures Total(NodeCards(m.name), t[id := r]) == Total(NodeCards(m.name), t) + Weight(NodeCards(m.name), r)
    {
      TotalPut(NodeCards(m.name), t, id, r);
    }
  }

  /** And, when it shares, the VRAM, the cores and the one slot; other sessions take no share. */
  lemma PlacedRowTakesShare(c: Cluster, t: Table, id: string, r: Row, n: LiveNode)
    requires id !in t && n in c.nodes && n.name != "" && r.node == n.name
    requires r.phase == Provisioning || r.phase == Running
    ensures var u, u' := UsageOf(c, t), UsageOf(c, t[id := r]);
            && ShareOf(u'.share, n.name) ==
               (if r.spec.mode == Shared then
                  ShareUse(ShareOf(u.share, n.name).vramMB + r.spec.vramMB,
                           ShareOf(u.share, n.name).cores + r.spec.corePercent, ShareOf(u.share, n.name).count + 1)
                else ShareOf(u.share, n.name))
            && forall m <- c.nodes :: m.name != n.name ==> ShareOf(u'.share, m.name) == ShareOf(u.share, m.name)
  {
    ReadsOf(c, t);
    ReadsOf(c, t[id := r]);
    hide UsageOf, Total;
    forall m | m in c.nodes
      ensures Total(NodeVram(m.name), t[id := r]) == Total(NodeVram(m.name), t) + Weight(NodeVram(m.name), r)
      ensures Total(NodeCores(m.name), t[id := r]) == Total(NodeCores(m.name), t) + Weight(NodeCores(m.name), r)
      ensures Total(NodeTasks(m.name), t[id := r]) == Total(NodeTasks(m.name), t) + Weight(NodeTasks(m.name), r)
    {
      TotalPut(NodeVram(m.name), t, id, r);
      TotalPut(NodeCores(m.name), t, id, r);
      TotalPut(NodeTasks(m.name), t, id, r);
    }
  }

  /** One that starts without a node is held against its type, whole cards and shares apart; cpu sessions are not. */
  lemma WaitingRowIsHeld(c: Cluster, t: Table, id: string, r: Row, gt: string)
    requires id !in t && r.phase == Provisioning && r.node == "" && gt in GpuTypes(c) && gt != ""
    ensures var v, v' := ReservedOf(c, t), ReservedOf(c, t[id := r]);
            && Get(v'.cards, gt) - Get(v.cards, gt) ==
               (if r.spec.gpuType != gt || r.spec.mode == Cpu || r.spec.mode == Shared then 0
                else if r.spec.gpuCount > 1 then r.spec.gpuCount else 1)
            && ShareOf(v'.shared, gt) ==
               (if r.spec.gpuType == gt && r.spec.mode == Shared then
                  ShareUse(ShareOf(v.shared, gt).vramMB + r.spec.vramMB,
                           ShareOf(v.shared, gt).cores + r.spec.corePercent, ShareOf(v.shared, gt).count + 1)
                else ShareOf(v.shared, gt))
  {
    ReadsOf(c, t);
    ReadsOf(c, t[id := r]);
    TotalPut(FloatCards(gt), t, id, r);
    TotalPut(FloatVram(gt), t, id, r);
    TotalPut(FloatCores(gt), t, id, r);
    TotalPut(FloatTasks(gt), t, id, r);
    hide UsageOf, ReservedOf, Total;
  }

  /** A row with a node is held against no type, and one without a node is on none. */
  lemma HeldOrPlaced(c: Cluster, t: Table, id: string, r: Row)
    requires id !in t
    ensures r.phase != Provisioning || r.node != "" ==> ReservedOf(c, t[id := r]) == ReservedOf(c, t)
    ensures (r.phase != Provisioning && r.phase != Running) || r.node == "" ==> UsageOf(c, t[id := r]) == UsageOf(c, t)
  {
    hide Total;
    var t' := t[id := r];
    if r.phase != Provisioning || r.node != "" {
      forall gt: string ensures SameHeld(t, t', gt) { HoldsNothing(t, id, r, gt); }
      SameReservations(c, t, t');
    }
    if (r.phase != Provisioning && r.phase != Running) || r.node == "" {
      forall n: string ensures SameOn(t, t', n) { TakesNothing(t, id, r, n); }
      SameUsage(c, t, t');
    }
  }

  ghost predicate SameHeld(t: Table, t': Table, gt: string) {
    && Total(FloatCards(gt), t') == Total(FloatCards(gt), t) && Total(FloatVram(gt), t') == Total(FloatVram(gt), t)
    && Total(FloatCores(gt), t') == Total(FloatCores(gt), t) && Total(FloatTasks(gt), t') == Total(FloatTasks(gt), t)
  }

  ghost predicate SameOn(t: Table, t': Table, n: string) {
    && Total(NodeCards(n), t') == Total(NodeCards(n), t) && Total(NodeVram(n), t') == Total(NodeVram(n), t)
    && Total(NodeCores(n), t') == Total(NodeCores(n), t) && Total(NodeTasks(n), t') == Total(NodeTasks(n), t)
    && Total(Leases(n), t') == Total(Leases(n), t)
  }

  lemma HoldsNothing(t: Table, id: string, r: Row, gt: string)
    requires id !in t && (r.phase != Provisioning || r.node != "")
    ensures SameHeld(t, t[id := r], gt)
  {
    hide Total;
    TotalPut(FloatCards(gt), t, id, r);
    TotalPut(FloatVram(gt), t, id, r);
    TotalPut(FloatCores(gt), t, id, r);
    TotalPut(FloatTasks(gt), t, id, r);
  }

  lemma TakesNothing(t: Table, id: string, r: Row, n: string)
    requires id !in t && ((r.phase != Provisioning && r.phase != Running) || r.node == "")
    ensures SameOn(t, t[id := r], n)
  {
    hide Total;
    TotalPut(NodeCards(n), t, id, r);
    TotalPut(NodeVram(n), t, id, r);
    TotalPut(NodeCores(n), t, id, r);
    TotalPut(NodeTasks(n), t, id, r);
    TotalPut(Leases(n), t, id, r);
  }

  lemma SameReservations(c: Cluster, t: Table, t': Table)
    requires forall gt :: SameHeld(t, t', gt)
    ensures ReservedOf(c, t') == ReservedOf(c, t)
  {
    hide Total;
    var v, v' := ReservedOf(c, t), ReservedOf(c, t');
    forall gt | gt in GpuTypes(c) ensures v.cards[gt] == v'.cards[gt] && v.shared[gt] == v'.shared[gt] {
      assert SameHeld(t, t', gt);
    }
    assert v.cards == v'.cards && v.shared == v'.shared;
  }

  lemma SameUsage(c: Cluster, t: Table, t': Table)
    requires forall n :: SameOn(t, t', n)
    ensures UsageOf(c, t') == UsageOf(c, t)
  {
    hide Total;
    var u, u' := UsageOf(c, t), UsageOf(c, t');
    forall n | n in NodeNames(c)
      ensures u.cards[n] == u'.cards[n] && u.share[n] == u'.share[n] && (n in u.physical <==> n in u'.physical)
    {
      assert SameOn(t, t', n);
    }
    assert u.cards == u'.cards && u.share == u'.share && u.physical == u'.physical;
  }

  /** In every phase a container session's home counts for its owner, at its own size or the installation's. */
  lemma HomeCounts(t: Table, id: string, r: Row, user: int, default: int)
    requires id !in t
    ensures Total(HomeGiB(user, default), t[id := r]) - Total(HomeGiB(user, default), t) ==
            if r.userID != user || r.env == Ssh then 0 else if r.homeGiB == None then default else r.homeGiB.value
  {
    TotalPut(HomeGiB(user, default), t, id, r);
  }

  /** An empty table counts for nothing, so the rows above are all there is to the counters. */
  lemma EmptyCountsNothing(c: Cluster)
    ensures forall q: Query :: Total(q, map[]) == 0
  {
  }

  lemma ReadsOf(c: Cluster, t: Table)
    ensures forall n <- c.nodes :: Get(UsageOf(c, t).cards, n.name) == Total(NodeCards(n.name), t)
    ensures forall n <- c.nodes :: ShareOf(UsageOf(c, t).share, n.name) ==
              ShareUse(Total(NodeVram(n.name), t), Total(NodeCores(n.name), t), Total(NodeTasks(n.name), t))
    ensures forall gt <- GpuTypes(c) :: Get(ReservedOf(c, t).cards, gt) == Total(FloatCards(gt), t)
    ensures forall gt <- GpuTypes(c) :: ShareOf(ReservedOf(c, t).shared, gt) ==
              ShareUse(Total(FloatVram(gt), t), Total(FloatCores(gt), t), Total(FloatTasks(gt), t))
  {
    assert forall n <- c.nodes :: n.name in NodeNames(c);
  }

  /** A node is leased exactly while a physical session that is starting or running names it. */
  lemma LeasedIff(c: Cluster, t: Table, n: LiveNode)
    requires n in c.nodes
    ensures n.name in UsageOf(c, t).physical <==>
            exists id :: id in t && t[id].env == Ssh && t[id].node == n.name && n.name != ""
                         && (t[id].phase == Provisioning || t[id].phase == Running)
  {
    assert n.name in NodeNames(c);
    var q := Leases(n.name);
    if id :| id in t && t[id].env == Ssh && t[id].node == n.name && n.name != ""
             && (t[id].phase == Provisioning || t[id].phase == Running)
    {
      TotalAtLeast(q, t);
      assert Weight(q, t[id]) == 1;
    } else {
      NoWeight(q, t);
    }
    hide Total;
  }
}
