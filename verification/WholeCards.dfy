/**
 No whole-card over-commitment: whatever the interleaving, the cards promised to exclusive sessions
 never exceed the cards there are (backend/internal/resource/availability.go,
 backend/internal/session/service.go).
 */
module WholeCards {
  import opened Options
  import opened Inventory
  import opened SessionTable
  import opened Availability
  import opened Gate
  import opened AdmissionProtocol

  predicate IsWhole(c: Cluster, n: LiveNode) { n.gpuCapacity != 0 && n.name !in c.hami }

  /** The node is in the inventory, gives whole cards, and they are of this type. */
  ghost predicate Home(c: Cluster, node: string, gpuType: string) {
    exists n <- c.nodes :: n.name == node && n.gpuType == gpuType && IsWhole(c, n)
  }

  ghost function Used(t: Table, node: string): int { Total(NodeCards(node), t) }

  ghost function Promised(t: Table, gpuType: string): int { Total(FloatCards(gpuType), t) }

  /** The free figure the gate reads: free cards summed over the whole-card nodes of a type. */
  ghost function FreeCards(c: Cluster, u: Usage, gpuType: string): int {
    SumOf(WholeFree, gpuType, Views(c.nodes, u))
  }

  // ----- assumptions

  /** Modes are cpu, shared and exclusive, and a GPU request names its type. */
  predicate SpecOk(s: Spec) { s.mode != Timeslice && (s.mode != Cpu ==> s.gpuType != "") }

  /** The scheduler puts a Pod only where its mode is offered and the table still shows the cards free. */
  ghost predicate FitsOn(c: Cluster, t: Table, s: Spec, node: string) {
    match s.mode
    case Exclusive =>
      exists n <- c.nodes ::
        n.name == node && n.gpuType == s.gpuType && IsWhole(c, n) && Used(t, node) + Need(s) <= n.gpuCapacity
    case Shared => node in c.hami
    case _ => true
  }

  /** An exclusive restart on its own node has been accepted and is about to claim its row. */
  predicate ClaimingPinnedCards(s: State) {
    s.stage.Cleared? && s.stage.req.Restart? && s.stage.req.spec.mode == Exclusive && s.stage.req.node != ""
  }

  /** The cards one row takes on the whole-card nodes of a type. */
  ghost function HeldOn(c: Cluster, nodes: seq<LiveNode>, r: Row, gt: string): int {
    if nodes == [] then 0
    else
      var n := nodes[|nodes| - 1];
      HeldOn(c, nodes[..|nodes| - 1], r, gt)
      + (if IsWhole(c, n) && n.gpuType == gt then Weight(NodeCards(n.name), r) else 0)
  }

  /** What a row weighs in a query before a write replaces it. */
  ghost function Before(q: Query, t: Table, id: string): int { if id in t then Weight(q, t[id]) else 0 }

  ghost function HeldBefore(c: Cluster, t: Table, id: string, gt: string): int {
    if id in t then HeldOn(c, c.nodes, t[id], gt) else 0
  }

  /** The table has the cards for this row in place of what it has under the id. */
  ghost predicate Accepts(c: Cluster, t: Table, id: string, r: Row) {
    && (forall n <- c.nodes :: IsWhole(c, n) ==>
          Used(t, n.name) - Before(NodeCards(n.name), t, id) + Weight(NodeCards(n.name), r) <= n.gpuCapacity)
    && (forall gt :: gt != "" ==>
          Promised(t, gt) - Before(FloatCards(gt), t, id) + Weight(FloatCards(gt), r)
          + HeldOn(c, c.nodes, r, gt) - HeldBefore(c, t, id, gt) <= FreeCards(c, UsageOf(c, t), gt))
  }

  /** A late write that finds the row as it was judged, as far as cards go. */
  ghost predicate OnTime(c: Cluster, s: State, step: Step, r: Row) {
    match step
    case Refresh(_, p, node) =>
      && (Admitted(r) || p == Stopped)
      && (if node == r.node then true
          else if node == "" then !ClaimingPinnedCards(s)
          else r.node == "" && !s.stage.SawUsage? && FitsOn(c, s.rows, r.spec, node))
    case _ => !Admitted(r)
  }

  /** A write whatever it finds, where the table has the cards for it and no usage has been read. */
  ghost predicate Harmless(c: Cluster, s: State, id: string, r': Row) {
    (s.stage.Idle? || s.stage.Quoted?) && Accepts(c, s.rows, id, r')
  }

  /**
   Binding must not fall between the usage read and the reservation read, which would hide it from
   both; losing a node is harmless except while a pinned claim is pending. A late write comes on time or
   finds the room for what it does. A session is reconfigured to whole cards only on a node that gives
   them, and no physical lease takes a node.
   */
  ghost predicate Assumed(c: Cluster, s: State, step: Step) {
    match step
    case CheckQuota(q) => SpecOk(PlaceOf(q).spec)
    case ReadUsage(q) => SpecOk(PlaceOf(q).spec)
    case Commit => Undisturbed(s)
    case Refresh(id, _, _) => id in s.rows ==> LateOk(c, s, id, step)
    case Respec(id, _) => id in s.rows ==> LateOk(c, s, id, step)
    case Unpin(id) => id in s.rows ==> LateOk(c, s, id, step)
    case LeaseNode(_, _) => false
    case _ => true
  }

  ghost predicate LateOk(c: Cluster, s: State, id: string, step: Step)
    requires id in s.rows
  {
    var r := s.rows[id];
    var r' := Rewritten(r, step);
    && SpecOk(r'.spec) && (r'.phase == Running ==> r'.node != "")
    && (r'.spec.mode == Exclusive && r'.node != "" && r' != r ==> Home(c, r'.node, r'.spec.gpuType))
    && (OnTime(c, s, step, r) || Harmless(c, s, id, r'))
  }

  // ----- the invariant

  /** Per node usage fits, and per type the reservations fit in what is free. */
  ghost predicate Bounded(c: Cluster, t: Table) {
    && (forall n <- c.nodes :: IsWhole(c, n) ==> Used(t, n.name) <= n.gpuCapacity)
    && (forall gt :: gt != "" ==> Promised(t, gt) <= FreeCards(c, UsageOf(c, t), gt))
  }

  ghost predicate RowOk(c: Cluster, r: Row) {
    && r.env == Container && SpecOk(r.spec)
    && (r.phase == Running ==> r.node != "")
    && (r.spec.mode == Exclusive && r.node != "" ==> Home(c, r.node, r.spec.gpuType))
  }

  ghost predicate Containers(t: Table) { forall id :: id in t ==> t[id].env == Container }

  ghost predicate RowsOk(c: Cluster, t: Table) { forall id :: id in t ==> RowOk(c, t[id]) }

  ghost predicate StageOk(c: Cluster, s: State) {
    match s.stage
    case Idle => true
    case Quoted(q) => RequestOk(q)
    case SawUsage(q, u) => RequestOk(q) && Conservative(c, u, s.rows)
    case Cleared(q) => RequestOk(q) && ClearedOk(c, s.rows, q)
  }

  predicate RequestOk(q: Request) { SpecOk(PlaceOf(q).spec) && (q.NewSession? ==> FreshRow(q.row)) }

  /** An earlier usage reading shows at least the cards in use now. */
  ghost predicate Conservative(c: Cluster, u: Usage, t: Table) {
    && u.physical == {} && u.hami == c.hami
    && (forall n <- c.nodes :: IsWhole(c, n) ==> Used(t, n.name) <= Get(u.cards, n.name))
  }

  /** An accepted request still passes the gate taken at this instant, and no share goes to a whole-card node. */
  ghost predicate ClearedOk(c: Cluster, t: Table, q: Request) {
    var r := PlaceOf(q);
    match r.spec.mode
    case Exclusive => r.node == "" || Home(c, r.node, r.spec.gpuType) ==> PlaceNow(c, t, r)
    case Shared => forall n <- c.nodes :: n.name == r.node && r.node != "" ==> !IsWhole(c, n)
    case _ => true
  }

  ghost predicate Inv(c: Cluster, s: State) {
    Bounded(c, s.rows) && RowsOk(c, s.rows) && StageOk(c, s)
  }

  // ----- the free figure under changes of usage

  /** One more node adds its own free cards, or nothing when it gives no whole cards of the type. */
  lemma FreeStep(c: Cluster, nodes: seq<LiveNode>, u: Usage, gt: string)
    requires nodes != [] && u.physical == {} && u.hami == c.hami
    ensures var init, n := nodes[..|nodes| - 1], nodes[|nodes| - 1];
            SumOf(WholeFree, gt, Views(nodes, u)) ==
            SumOf(WholeFree, gt, Views(init, u))
            + (if IsWhole(c, n) && n.gpuType == gt then n.gpuCapacity - Min(Get(u.cards, n.name), n.gpuCapacity) else 0)
  {
    var init, n := nodes[..|nodes| - 1], nodes[|nodes| - 1];
    if n.gpuCapacity != 0 {
      SumGrow(WholeFree, gt, Views(init, u), NodeView(n, u));
    } else {
      assert Views(nodes, u) == Views(init, u);
    }
  }

  lemma {:induction false} FreeMono(c: Cluster, nodes: seq<LiveNode>, u: Usage, u': Usage, gt: string)
    requires u.physical == {} && u'.physical == {} && u.hami == c.hami && u'.hami == c.hami
    requires forall n <- nodes :: IsWhole(c, n) ==> Get(u'.cards, n.name) <= Get(u.cards, n.name)
    ensures SumOf(WholeFree, gt, Views(nodes, u)) <= SumOf(WholeFree, gt, Views(nodes, u'))
  {
    hide SumOf;
    if nodes == [] {
      assert Views([], u) == Views([], u') == [];
    } else {
      var init, n := nodes[..|nodes| - 1], nodes[|nodes| - 1];
      assert forall m <- init :: m in nodes;
      FreeMono(c, init, u, u', gt);
      FreeStep(c, nodes, u, gt);
      FreeStep(c, nodes, u', gt);
      assert n in nodes;
    }
  }

  /** When one node's usage moves within its capacity, its type's free figure moves back by as much. */
  lemma {:induction false} FreeShift(c: Cluster, nodes: seq<LiveNode>, u: Usage, u': Usage, n: LiveNode, gt: string)
    requires UniqueNames(nodes) && n in nodes && IsWhole(c, n)
    requires u.physical == {} && u'.physical == {} && u.hami == c.hami && u'.hami == c.hami
    requires forall m <- nodes :: IsWhole(c, m) && m.name != n.name ==> Get(u'.cards, m.name) == Get(u.cards, m.name)
    requires Get(u.cards, n.name) <= n.gpuCapacity && Get(u'.cards, n.name) <= n.gpuCapacity
    ensures SumOf(WholeFree, gt, Views(nodes, u')) ==
            SumOf(WholeFree, gt, Views(nodes, u))
            + (if n.gpuType == gt then Get(u.cards, n.name) - Get(u'.cards, n.name) else 0)
  {
    hide Views, SumOf;
    var init, last := nodes[..|nodes| - 1], nodes[|nodes| - 1];
    assert forall m <- init :: m in nodes;
    FreeStep(c, nodes, u, gt);
    FreeStep(c, nodes, u', gt);
    if last == n {
      forall m | m in init ensures m.name != n.name {
        var i :| 0 <= i < |init| && init[i] == m;
        assert nodes[i].name != nodes[|nodes| - 1].name;
      }
      FreeMono(c, init, u, u', gt);
      FreeMono(c, init, u', u, gt);
    } else {
      assert last in nodes;
      assert n in init;
      assert last.name != n.name;
      FreeShift(c, init, u, u', n, gt);
    }
  }

  // ----- the gate in terms of these figures

  lemma NoLeases(c: Cluster, t: Table)
    requires Containers(t)
    ensures UsageOf(c, t).physical == {}
  {
    forall name ensures Total(Leases(name), t) == 0 { NoWeight(Leases(name), t); }
  }

  lemma PromisedNonNeg(t: Table, gt: string)
    ensures 0 <= Promised(t, gt)
  {
    TotalAtLeast(FloatCards(gt), t);
  }

  lemma ReservedRead(c: Cluster, t: Table, gt: string)
    requires gt in GpuTypes(c)
    ensures Get(ReservedOf(c, t).cards, gt) == Promised(t, gt)
  {
  }

  lemma TypeInInventory(c: Cluster, u: Usage, gt: string)
    requires gt in TypesIn(Views(c.nodes, u))
    ensures gt in GpuTypes(c)
  {
    ViewsOf(c.nodes, u);
  }

  /** Cluster-wide, the gate for whole cards is exactly: the free figure covers the promises and the request. */
  lemma ExclusiveGate(c: Cluster, u: Usage, t: Table, s: Spec)
    requires WellFormed(c) && s.mode == Exclusive && s.gpuType != ""
    ensures CanPlace(AvailOf(c.nodes, u), ReservedOf(c, t), PlaceReq(s, "")) <==>
            Promised(t, s.gpuType) + Need(s) <= FreeCards(c, u, s.gpuType)
  {
    GateIsOn(c, u);
    PromisedNonNeg(t, s.gpuType);
    if s.gpuType in TypesIn(Views(c.nodes, u)) {
      TypeInInventory(c, u, s.gpuType);
      ReservedRead(c, t, s.gpuType);
    } else {
      SumAbsentType(WholeFree, s.gpuType, Views(c.nodes, u));
    }
  }

  /** On a whole-card node, the gate asks that node alone to cover the promises and the request. */
  lemma PinnedGate(c: Cluster, u: Usage, t: Table, s: Spec, n: LiveNode)
    requires WellFormed(c) && s.mode == Exclusive && s.gpuType != "" && n.name != ""
    requires n in c.nodes && IsWhole(c, n) && n.gpuType == s.gpuType && u.physical == {}
    ensures CanPlace(AvailOf(c.nodes, u), ReservedOf(c, t), PlaceReq(s, n.name)) <==>
            Promised(t, s.gpuType) + Need(s) + Min(Get(u.cards, n.name), n.gpuCapacity) <= n.gpuCapacity
  {
    GateIsOn(c, u);
    BoxOfNode(c.nodes, u, n);
    assert s.gpuType in GpuTypes(c);
    ReservedRead(c, t, s.gpuType);
  }

  /** A cheaper table passes whatever gate an earlier, dearer reading passed. */
  lemma GateRelaxes(c: Cluster, u: Usage, t: Table, u': Usage, t': Table, r: PlaceReq)
    requires WellFormed(c) && r.spec.mode == Exclusive && r.spec.gpuType != ""
    requires r.node == "" || Home(c, r.node, r.spec.gpuType)
    requires u.physical == {} && u'.physical == {} && u.hami == c.hami && u'.hami == c.hami
    requires forall n <- c.nodes :: IsWhole(c, n) ==> Get(u'.cards, n.name) <= Get(u.cards, n.name)
    requires Promised(t', r.spec.gpuType) <= Promised(t, r.spec.gpuType)
    requires CanPlace(AvailOf(c.nodes, u), ReservedOf(c, t), r)
    ensures CanPlace(AvailOf(c.nodes, u'), ReservedOf(c, t'), r)
  {
    if r.node == "" {
      assert r == PlaceReq(r.spec, "");
      ExclusiveGate(c, u, t, r.spec);
      ExclusiveGate(c, u', t', r.spec);
      FreeMono(c, c.nodes, u, u', r.spec.gpuType);
    } else {
      var n :| n in c.nodes && n.name == r.node && n.gpuType == r.spec.gpuType && IsWhole(c, n);
      assert r == PlaceReq(r.spec, n.name);
      PinnedGate(c, u, t, r.spec, n);
      PinnedGate(c, u', t', r.spec, n);
    }
  }

  /** What an accepted request needs, in numbers. */
  ghost predicate Covered(c: Cluster, t: Table, s: Spec, node: string) {
    if node == "" then Promised(t, s.gpuType) + Need(s) <= FreeCards(c, UsageOf(c, t), s.gpuType)
    else forall n <- c.nodes :: n.name == node && n.gpuType == s.gpuType && IsWhole(c, n) ==>
           Promised(t, s.gpuType) + Need(s) + Used(t, node) <= n.gpuCapacity
  }

  lemma GateCovers(c: Cluster, t: Table, s: Spec, node: string)
    requires WellFormed(c) && Containers(t) && s.mode == Exclusive && s.gpuType != ""
    requires node == "" || Home(c, node, s.gpuType)
    requires forall n <- c.nodes :: IsWhole(c, n) ==> Used(t, n.name) <= n.gpuCapacity
    ensures PlaceNow(c, t, PlaceReq(s, node)) <==> Covered(c, t, s, node)
  {
    NoLeases(c, t);
    UsedReads(c, t);
    if node == "" {
      ExclusiveGate(c, UsageOf(c, t), t, s);
    } else {
      var n :| n in c.nodes && n.name == node && n.gpuType == s.gpuType && IsWhole(c, n);
      PinnedGate(c, UsageOf(c, t), t, s, n);
      assert forall m <- c.nodes :: m.name == node ==> m == n;
    }
  }

  // ----- steps that only give seats back

  /** No whole-card node is fuller and no type has more promises than before. */
  ghost predicate Quieter(c: Cluster, t: Table, t': Table) {
    && (forall n <- c.nodes :: IsWhole(c, n) ==> Used(t', n.name) <= Used(t, n.name))
    && (forall gt :: Promised(t', gt) <= Promised(t, gt))
  }

  lemma UsedReads(c: Cluster, t: Table)
    ensures forall n <- c.nodes :: Get(UsageOf(c, t).cards, n.name) == Used(t, n.name)
    ensures UsageOf(c, t).hami == c.hami
  {
    forall n | n in c.nodes ensures Get(UsageOf(c, t).cards, n.name) == Used(t, n.name) {
      assert n.name in NodeNames(c);
    }
  }

  lemma QuieterKeeps(c: Cluster, s: State, s': State)
    requires WellFormed(c) && Inv(c, s) && RowsOk(c, s'.rows)
    requires s'.stage == s.stage && Quieter(c, s.rows, s'.rows)
    ensures Inv(c, s')
  {
    hide Views, SumOf, UsageOf, AvailOf, CanPlace, ReservedOf, Total;
    var u, u' := UsageOf(c, s.rows), UsageOf(c, s'.rows);
    NoLeases(c, s.rows);
    NoLeases(c, s'.rows);
    UsedReads(c, s.rows);
    UsedReads(c, s'.rows);
    forall gt | gt != "" ensures Promised(s'.rows, gt) <= FreeCards(c, u', gt) {
      FreeMono(c, c.nodes, u, u', gt);
    }
    if s.stage.Cleared? {
      var r := PlaceOf(s.stage.req);
      if r.spec.mode == Exclusive && (r.node == "" || Home(c, r.node, r.spec.gpuType)) {
        GateRelaxes(c, u, s.rows, u', s'.rows, r);
      }
    }
  }

  /** Rewriting a row to one that weighs no more anywhere that matters. */
  ghost predicate Lighter(c: Cluster, r: Row, r': Row) {
    && (forall n <- c.nodes :: IsWhole(c, n) ==> Weight(NodeCards(n.name), r') <= Weight(NodeCards(n.name), r))
    && (forall gt :: Weight(FloatCards(gt), r') <= Weight(FloatCards(gt), r))
  }

  lemma PutQuieter(c: Cluster, t: Table, id: string, r': Row)
    requires id in t && Lighter(c, t[id], r')
    ensures Quieter(c, t, t[id := r'])
  {
    forall n | n in c.nodes && IsWhole(c, n) ensures Used(t[id := r'], n.name) <= Used(t, n.name) {
      TotalPut(NodeCards(n.name), t, id, r');
    }
    forall gt ensures Promised(t[id := r'], gt) <= Promised(t, gt) {
      TotalPut(FloatCards(gt), t, id, r');
    }
  }

  lemma RemoveQuieter(c: Cluster, t: Table, id: string)
    ensures Quieter(c, t, t - {id})
  {
    if id in t {
      forall n | n in c.nodes && IsWhole(c, n) ensures Used(t - {id}, n.name) <= Used(t, n.name) {
        TotalRemove(NodeCards(n.name), t, id);
      }
      forall gt ensures Promised(t - {id}, gt) <= Promised(t, gt) {
        TotalRemove(FloatCards(gt), t, id);
      }
    } else {
      assert t - {id} == t;
    }
  }

  // ----- steps that move cards between a promise and a node

  /** The free figures after one whole-card node's usage has moved within its capacity. */
  lemma ShiftTable(c: Cluster, t: Table, t': Table, n: LiveNode)
    requires WellFormed(c) && Containers(t) && Containers(t') && n in c.nodes && IsWhole(c, n)
    requires forall m <- c.nodes :: IsWhole(c, m) && m.name != n.name ==> Used(t', m.name) == Used(t, m.name)
    requires Used(t, n.name) <= n.gpuCapacity && Used(t', n.name) <= n.gpuCapacity
    ensures forall gt :: FreeCards(c, UsageOf(c, t'), gt) ==
              FreeCards(c, UsageOf(c, t), gt) + (if n.gpuType == gt then Used(t, n.name) - Used(t', n.name) else 0)
  {
    NoLeases(c, t);
    NoLeases(c, t');
    UsedReads(c, t);
    UsedReads(c, t');
    forall gt ensures FreeCards(c, UsageOf(c, t'), gt) ==
              FreeCards(c, UsageOf(c, t), gt) + (if n.gpuType == gt then Used(t, n.name) - Used(t', n.name) else 0) {
      FreeShift(c, c.nodes, UsageOf(c, t), UsageOf(c, t'), n, gt);
    }
  }

  /** Usage on other nodes and promises of other types are untouched by rewriting an exclusive row. */
  lemma PutExclusive(c: Cluster, t: Table, id: string, r': Row)
    requires id in t && t[id].spec == r'.spec && r'.spec.mode == Exclusive
    ensures forall name :: Used(t[id := r'], name) ==
              Used(t, name) - Weight(NodeCards(name), t[id]) + Weight(NodeCards(name), r')
    ensures forall gt :: Promised(t[id := r'], gt) ==
              Promised(t, gt) - Weight(FloatCards(gt), t[id]) + Weight(FloatCards(gt), r')
  {
    forall name ensures Used(t[id := r'], name) ==
              Used(t, name) - Weight(NodeCards(name), t[id]) + Weight(NodeCards(name), r') {
      TotalPut(NodeCards(name), t, id, r');
    }
    forall gt ensures Promised(t[id := r'], gt) ==
              Promised(t, gt) - Weight(FloatCards(gt), t[id]) + Weight(FloatCards(gt), r') {
      TotalPut(FloatCards(gt), t, id, r');
    }
  }

  lemma RowsPut(c: Cluster, t: Table, id: string, r: Row)
    requires RowsOk(c, t) && RowOk(c, r)
    ensures RowsOk(c, t[id := r])
  {
  }

  /** d cards move from the promises of a type to a node of that type, or back when d is negative. */
  ghost predicate Moves(c: Cluster, t: Table, t': Table, n: LiveNode, d: int) {
    && Used(t', n.name) == Used(t, n.name) + d <= n.gpuCapacity
    && (forall m <- c.nodes :: IsWhole(c, m) && m.name != n.name ==> Used(t', m.name) == Used(t, m.name))
    && (forall gt :: Promised(t', gt) == Promised(t, gt) - (if gt == n.gpuType then d else 0))
  }

  /** Free cards less promises, the quantity a move leaves alone. */
  ghost function Margin(c: Cluster, t: Table, gt: string): int { FreeCards(c, UsageOf(c, t), gt) - Promised(t, gt) }

  lemma MoveBounded(c: Cluster, t: Table, t': Table, n: LiveNode, d: int)
    requires WellFormed(c) && Bounded(c, t) && Containers(t) && Containers(t') && n in c.nodes && IsWhole(c, n)
    requires Moves(c, t, t', n, d)
    ensures Bounded(c, t') && forall gt :: Margin(c, t', gt) == Margin(c, t, gt)
  {
    ShiftTable(c, t, t', n);
    hide Total, SumOf, Views, UsageOf, Containers;
    forall gt ensures Margin(c, t', gt) == Margin(c, t, gt) { }
    forall gt | gt != "" ensures Promised(t', gt) <= FreeCards(c, UsageOf(c, t'), gt) {
      assert Margin(c, t', gt) == Margin(c, t, gt);
    }
    forall m | m in c.nodes && IsWhole(c, m) ensures Used(t', m.name) <= m.gpuCapacity {
      if m.name == n.name { assert m == n; }
    }
  }

  lemma MoveKeeps(c: Cluster, s: State, t': Table, n: LiveNode, d: int)
    requires WellFormed(c) && Inv(c, s) && RowsOk(c, t') && n in c.nodes && IsWhole(c, n)
    requires Moves(c, s.rows, t', n, d)
    requires s.stage.SawUsage? ==> d <= 0
    requires ClaimingPinnedCards(s) ==> d >= 0
    ensures Inv(c, s.(rows := t'))
  {
    hide Total, SumOf, Views, PlaceNow, Margin, FreeCards;
    var t := s.rows;
    MoveBounded(c, t, t', n, d);
    if s.stage.Cleared? {
      forall m | m in c.nodes && IsWhole(c, m) && d >= 0
        ensures Used(t', m.name) + Promised(t', m.gpuType) <= Used(t, m.name) + Promised(t, m.gpuType)
      {
        if m.name == n.name { assert m == n; }
      }
      StageMoves(c, s, t');
    }
  }

  lemma BindKeeps(c: Cluster, s: State, id: string, p: Phase, node: string)
    requires WellFormed(c) && Inv(c, s) && !s.stage.SawUsage?
    requires id in s.rows && Floating(s.rows[id]) && s.rows[id].spec.mode == Exclusive
    requires (p == Provisioning || p == Running) && node != "" && FitsOn(c, s.rows, s.rows[id].spec, node)
    ensures Inv(c, s.(rows := UpdateLiveOf(s.rows, id, p, node)))
  {
    hide Views, SumOf, UsageOf, AvailOf, CanPlace, ReservedOf, Total, StageOk, Bounded;
    var t, r := s.rows, s.rows[id];
    var r' := r.(phase := p, node := node);
    assert RowOk(c, r);
    var n :| && n in c.nodes && n.name == node && n.gpuType == r.spec.gpuType && IsWhole(c, n)
             && Used(t, node) + Need(r.spec) <= n.gpuCapacity;
    assert RowOk(c, r');
    RowsPut(c, t, id, r');
    PutExclusive(c, t, id, r');
    MoveKeeps(c, s, t[id := r'], n, Need(r.spec));
  }

  lemma UnbindKeeps(c: Cluster, s: State, id: string)
    requires WellFormed(c) && Inv(c, s) && !ClaimingPinnedCards(s)
    requires id in s.rows && Admitted(s.rows[id]) && s.rows[id].spec.mode == Exclusive && s.rows[id].node != ""
    ensures Inv(c, s.(rows := UpdateLiveOf(s.rows, id, Provisioning, "")))
  {
    var t, r := s.rows, s.rows[id];
    var r' := r.(phase := Provisioning, node := "");
    assert RowOk(c, r);
    var n :| n in c.nodes && n.name == r.node && n.gpuType == r.spec.gpuType && IsWhole(c, n);
    assert RowOk(c, r');
    RowsPut(c, t, id, r');
    PutExclusive(c, t, id, r');
    hide Total, FreeCards, StageOk;
    MoveKeeps(c, s, t[id := r'], n, -Need(r.spec));
  }

  /** A pending verdict survives cards moving between a promise and a node of their type. */
  lemma StageMoves(c: Cluster, s: State, t': Table)
    requires WellFormed(c) && Inv(c, s) && s.stage.Cleared? && RowsOk(c, t')
    requires forall n <- c.nodes :: IsWhole(c, n) ==> Used(t', n.name) <= n.gpuCapacity
    requires forall gt :: Margin(c, t', gt) == Margin(c, s.rows, gt)
    requires ClaimingPinnedCards(s) ==>
               forall n <- c.nodes :: IsWhole(c, n) ==>
                 Used(t', n.name) + Promised(t', n.gpuType) <= Used(s.rows, n.name) + Promised(s.rows, n.gpuType)
    ensures ClearedOk(c, t', s.stage.req)
  {
    var r := PlaceOf(s.stage.req);
    if r.spec.mode == Exclusive && (r.node == "" || Home(c, r.node, r.spec.gpuType)) {
      assert r == PlaceReq(r.spec, r.node);
      GateCovers(c, s.rows, r.spec, r.node);
      GateCovers(c, t', r.spec, r.node);
      assert Margin(c, t', r.spec.gpuType) == Margin(c, s.rows, r.spec.gpuType);
    }
  }

  // ----- the admission's own write

  /** A node's free cards are part of its type's free figure. */
  lemma PinnedCovered(c: Cluster, t: Table, s: Spec, n: LiveNode)
    requires WellFormed(c) && Containers(t) && s.mode == Exclusive && s.gpuType != "" && n.name != ""
    requires n in c.nodes && IsWhole(c, n) && n.gpuType == s.gpuType
    requires forall m <- c.nodes :: IsWhole(c, m) ==> Used(t, m.name) <= m.gpuCapacity
    requires Covered(c, t, s, n.name)
    ensures Covered(c, t, s, "")
  {
    var u := UsageOf(c, t);
    NoLeases(c, t);
    UsedReads(c, t);
    GateCovers(c, t, s, n.name);
    BoxOfNode(c.nodes, u, n);
    PinnedImpliesCluster(c.nodes, u, ReservedOf(c, t), PlaceReq(s, n.name));
    GateCovers(c, t, s, "");
  }

  /** A reservation that floats: its promise is covered by the free figure the gate just saw. */
  lemma PromiseBounded(c: Cluster, t: Table, t': Table, s: Spec)
    requires WellFormed(c) && Bounded(c, t) && RowsOk(c, t) && RowsOk(c, t')
    requires Covered(c, t, s, "")
    requires forall n <- c.nodes :: IsWhole(c, n) ==> Used(t', n.name) == Used(t, n.name)
    requires forall gt :: Promised(t', gt) == Promised(t, gt) + (if gt == s.gpuType then Need(s) else 0)
    ensures Bounded(c, t')
  {
    NoLeases(c, t);
    NoLeases(c, t');
    UsedReads(c, t);
    UsedReads(c, t');
    forall gt | gt != "" ensures Promised(t', gt) <= FreeCards(c, UsageOf(c, t'), gt) {
      FreeMono(c, c.nodes, UsageOf(c, t), UsageOf(c, t'), gt);
    }
  }

  lemma PromiseKeeps(c: Cluster, t: Table, id: string, r: Row)
    requires WellFormed(c) && Bounded(c, t) && RowsOk(c, t) && RowOk(c, r)
    requires Floating(r) && r.spec.mode == Exclusive && (id in t ==> t[id].phase == Stopped)
    requires PlaceNow(c, t, PlaceReq(r.spec, ""))
    ensures Bounded(c, t[id := r]) && RowsOk(c, t[id := r])
  {
    hide Views, SumOf, UsageOf, AvailOf, CanPlace, ReservedOf;
    GateCovers(c, t, r.spec, "");
    RowsPut(c, t, id, r);
    forall name ensures Used(t[id := r], name) == Used(t, name) { TotalPut(NodeCards(name), t, id, r); }
    forall gt ensures Promised(t[id := r], gt) == Promised(t, gt) + (if gt == r.spec.gpuType then Need(r.spec) else 0) {
      TotalPut(FloatCards(gt), t, id, r);
    }
    PromiseBounded(c, t, t[id := r], r.spec);
  }

  /** A claim on the session's own node: that node covers every promise of the type and the claim. */
  lemma ClaimBounded(c: Cluster, t: Table, t': Table, s: Spec, n: LiveNode)
    requires WellFormed(c) && Bounded(c, t) && RowsOk(c, t) && RowsOk(c, t')
    requires s.mode == Exclusive && s.gpuType != "" && n.name != ""
    requires n in c.nodes && IsWhole(c, n) && n.gpuType == s.gpuType && Covered(c, t, s, n.name)
    requires Used(t', n.name) == Used(t, n.name) + Need(s)
    requires forall m <- c.nodes :: IsWhole(c, m) && m.name != n.name ==> Used(t', m.name) == Used(t, m.name)
    requires forall gt :: Promised(t', gt) == Promised(t, gt)
    ensures Bounded(c, t')
  {
    forall m | m in c.nodes && IsWhole(c, m) ensures Used(t', m.name) <= m.gpuCapacity {
      if m.name == n.name {
        assert m == n;
        PromisedNonNeg(t, s.gpuType);
      }
    }
    assert Used(t', n.name) <= n.gpuCapacity;
    PinnedCovered(c, t, s, n);
    ShiftTable(c, t, t', n);
    forall gt | gt != "" ensures Promised(t', gt) <= FreeCards(c, UsageOf(c, t'), gt) {
      assert Margin(c, t', gt) == Margin(c, t, gt) - if gt == s.gpuType then Need(s) else 0;
    }
  }

  lemma ClaimKeeps(c: Cluster, t: Table, id: string)
    requires WellFormed(c) && Bounded(c, t) && RowsOk(c, t)
    requires id in t && t[id].phase == Stopped && t[id].spec.mode == Exclusive && t[id].node != ""
    requires PlaceNow(c, t, PlaceReq(t[id].spec, t[id].node))
    ensures Bounded(c, SetPhaseOf(t, id, Provisioning)) && RowsOk(c, SetPhaseOf(t, id, Provisioning))
  {
    var r := t[id];
    var r' := r.(phase := Provisioning);
    assert RowOk(c, r);
    var n :| n in c.nodes && n.name == r.node && n.gpuType == r.spec.gpuType && IsWhole(c, n);
    GateCovers(c, t, r.spec, r.node);
    RowsPut(c, t, id, r');
    PutExclusive(c, t, id, r');
    ClaimBounded(c, t, t[id := r'], r.spec, n);
  }

  lemma CommitKeeps(c: Cluster, s: State)
    requires WellFormed(c) && Inv(c, s) && Enabled(c, s, Commit) && Assumed(c, s, Commit)
    ensures Inv(c, Apply(c, s, Commit))
  {
    var t, q := s.rows, s.stage.req;
    var idle := s.(stage := Idle);
    if q.Restart? && !(q.id in t && t[q.id].phase == Stopped) {
      return;
    }
    var r := if q.NewSession? then q.row else t[q.id].(phase := Provisioning);
    if q.Restart? { assert RowOk(c, t[q.id]); }
    assert RowOk(c, r);
    RowsPut(c, t, q.id, r);
    if r.spec.mode == Exclusive {
      if r.node == "" {
        PromiseKeeps(c, t, q.id, r);
      } else {
        ClaimKeeps(c, t, q.id);
      }
    } else {
      if q.Restart? {
        assert Lighter(c, t[q.id], r);
        PutQuieter(c, t, q.id, r);
      } else {
        forall n | n in c.nodes ensures Used(t[q.id := r], n.name) == Used(t, n.name) {
          TotalPut(NodeCards(n.name), t, q.id, r);
        }
        forall gt ensures Promised(t[q.id := r], gt) == Promised(t, gt) {
          TotalPut(FloatCards(gt), t, q.id, r);
        }
      }
      QuieterKeeps(c, idle, idle.(rows := t[q.id := r]));
    }
  }

  lemma ReadReservedKeeps(c: Cluster, s: State)
    requires WellFormed(c) && Inv(c, s) && Enabled(c, s, ReadReserved)
    ensures Inv(c, Apply(c, s, ReadReserved))
  {
    var q, u := s.stage.req, s.stage.usage;
    var r := PlaceOf(q);
    NoLeases(c, s.rows);
    UsedReads(c, s.rows);
    if CanPlace(AvailOf(c.nodes, u), ReservedOf(c, s.rows), r) {
      match r.spec.mode {
        case Exclusive =>
          if r.node == "" || Home(c, r.node, r.spec.gpuType) {
            GateRelaxes(c, u, s.rows, UsageOf(c, s.rows), s.rows, r);
          }
        case Shared =>
          forall n | n in c.nodes && n.name == r.node && r.node != "" ensures !IsWhole(c, n) {
            if n.gpuCapacity != 0 {
              GateIsOn(c, u);
              BoxOfNode(c.nodes, u, n);
            }
          }
        case _ =>
      }
    }
  }

  lemma RefreshKeeps(c: Cluster, s: State, id: string, p: Phase, node: string)
    requires WellFormed(c) && Inv(c, s)
    requires id in s.rows && Enabled(c, s, Refresh(id, p, node)) && Assumed(c, s, Refresh(id, p, node))
    ensures Inv(c, Apply(c, s, Refresh(id, p, node)))
  {
    var r := s.rows[id];
    var r' := r.(phase := p, node := node);
    assert RowOk(c, r);
    if !OnTime(c, s, Refresh(id, p, node), r) {
      HarmlessKeeps(c, s, id, r');
    } else if r.spec.mode == Exclusive && p != Stopped && node != r.node {
      if node == "" {
        UnbindKeeps(c, s, id);
      } else {
        BindKeeps(c, s, id, p, node);
      }
    } else {
      assert RowOk(c, r');
      RowsPut(c, s.rows, id, r');
      assert Lighter(c, r, r');
      PutQuieter(c, s.rows, id, r');
      QuieterKeeps(c, s, s.(rows := s.rows[id := r']));
    }
  }

  /** Every step the code may take keeps the invariant. */
  lemma StepKeeps(c: Cluster, s: State, step: Step)
    requires WellFormed(c) && Inv(c, s) && Enabled(c, s, step) && Assumed(c, s, step)
    ensures Inv(c, Apply(c, s, step))
  {
    match step {
      case ReadUsage(q) =>
        NoLeases(c, s.rows);
        UsedReads(c, s.rows);
      case ReadReserved => ReadReservedKeeps(c, s);
      case Commit => CommitKeeps(c, s);
      case Refresh(id, p, node) => if id in s.rows { RefreshKeeps(c, s, id, p, node); }
      case Halt(id) => if id in s.rows { RewriteKeeps(c, s, id, s.rows[id].(phase := Stopped)); }
      case Terminate(id) => if id in s.rows { RewriteKeeps(c, s, id, s.rows[id].(phase := Terminated)); }
      case Respec(id, spec) => if id in s.rows { LateKeeps(c, s, id, step); }
      case Unpin(id) => if id in s.rows { LateKeeps(c, s, id, step); }
      case Remove(id) =>
        RemoveQuieter(c, s.rows, id);
        QuieterKeeps(c, s, s.(rows := s.rows - {id}));
      case _ =>
    }
  }

  /** Reconfigure's and Reallocate's writes. */
  lemma LateKeeps(c: Cluster, s: State, id: string, step: Step)
    requires WellFormed(c) && Inv(c, s) && id in s.rows && LateOk(c, s, id, step) && (step.Respec? || step.Unpin?)
    ensures Inv(c, s.(rows := s.rows[id := Rewritten(s.rows[id], step)]))
  {
    assert RowOk(c, s.rows[id]);
    if OnTime(c, s, step, s.rows[id]) {
      RewriteKeeps(c, s, id, Rewritten(s.rows[id], step));
    } else {
      HarmlessKeeps(c, s, id, Rewritten(s.rows[id], step));
    }
  }

  lemma HarmlessKeeps(c: Cluster, s: State, id: string, r': Row)
    requires WellFormed(c) && Inv(c, s) && RowOk(c, r') && Harmless(c, s, id, r')
    ensures Inv(c, s.(rows := s.rows[id := r']))
  {
    RowsPut(c, s.rows, id, r');
    RowWriteExactly(c, s.rows, id, r');
  }

  lemma RewriteKeeps(c: Cluster, s: State, id: string, r': Row)
    requires WellFormed(c) && Inv(c, s) && id in s.rows && !Admitted(r')
    requires RowOk(c, s.rows[id]) ==> RowOk(c, r')
    ensures Inv(c, s.(rows := s.rows[id := r']))
  {
    assert RowOk(c, s.rows[id]);
    RowsPut(c, s.rows, id, r');
    PutQuieter(c, s.rows, id, r');
    QuieterKeeps(c, s, s.(rows := s.rows[id := r']));
  }

  /** Over every run from the empty table, whole cards are never promised twice. */
  lemma {:induction false} RunKeeps(c: Cluster, s: State, steps: seq<Step>)
    requires WellFormed(c) && Inv(c, s) && Legal(c, Assumed, s, steps)
    ensures Inv(c, Exec(c, s, steps))
    decreases |steps|
  {
    if steps != [] {
      StepKeeps(c, s, steps[0]);
      RunKeeps(c, Apply(c, s, steps[0]), steps[1..]);
    }
  }

  // ----- what the invariant means

  /** All cards of a type on whole-card nodes. */
  function CardsOwned(c: Cluster, nodes: seq<LiveNode>, gt: string): int {
    if nodes == [] then 0
    else
      var n := nodes[|nodes| - 1];
      CardsOwned(c, nodes[..|nodes| - 1], gt) + (if IsWhole(c, n) && n.gpuType == gt then n.gpuCapacity else 0)
  }

  /** The cards placed sessions use on those nodes, counted without any clamp. */
  ghost function CardsUsed(c: Cluster, nodes: seq<LiveNode>, t: Table, gt: string): int {
    if nodes == [] then 0
    else
      var n := nodes[|nodes| - 1];
      CardsUsed(c, nodes[..|nodes| - 1], t, gt) + (if IsWhole(c, n) && n.gpuType == gt then Used(t, n.name) else 0)
  }

  lemma FreeOfNone(u: Usage, gt: string)
    ensures SumOf(WholeFree, gt, Views([], u)) == 0
  {
  }

  lemma {:induction false} FreeIsOwnedLessUsed(c: Cluster, nodes: seq<LiveNode>, u: Usage, t: Table, gt: string)
    requires u.physical == {} && u.hami == c.hami
    requires forall n <- nodes :: IsWhole(c, n) ==> Get(u.cards, n.name) == Used(t, n.name) <= n.gpuCapacity
    ensures SumOf(WholeFree, gt, Views(nodes, u)) == CardsOwned(c, nodes, gt) - CardsUsed(c, nodes, t, gt)
  {
    hide Views, SumOf;
    if nodes != [] {
      assert forall m <- nodes[..|nodes| - 1] :: m in nodes;
      assert nodes[|nodes| - 1] in nodes;
      FreeIsOwnedLessUsed(c, nodes[..|nodes| - 1], u, t, gt);
      FreeStep(c, nodes, u, gt);
    } else {
      FreeOfNone(u, gt);
    }
  }

  /**
   No over-commitment, over every run from the empty table: the cards promised to sessions without a
   node plus the cards in use on whole-card nodes never exceed the cards of the type.
   */
  lemma NoOverCommitment(c: Cluster, steps: seq<Step>, gt: string)
    requires WellFormed(c) && Legal(c, Assumed, EMPTY, steps) && gt != ""
    ensures var t := Exec(c, EMPTY, steps).rows;
            Promised(t, gt) + CardsUsed(c, c.nodes, t, gt) <= CardsOwned(c, c.nodes, gt)
  {
    var t := Exec(c, EMPTY, steps).rows;
    EmptyInv(c);
    RunKeeps(c, EMPTY, steps);
    NoLeases(c, t);
    UsedReads(c, t);
    FreeIsOwnedLessUsed(c, c.nodes, UsageOf(c, t), t, gt);
  }

  lemma EmptyInv(c: Cluster)
    ensures Inv(c, EMPTY)
  {
    NoLeases(c, map[]);
    forall gt ensures 0 <= FreeCards(c, UsageOf(c, map[]), gt) {
      ViewsInRange(c.nodes, UsageOf(c, map[]));
      SumNonNeg(WholeFree, gt, Views(c.nodes, UsageOf(c, map[])));
    }
  }

  /** A node the Pod may go to fits it; pin is the hostname the Pod requires, "" for none. */
  ghost predicate CanSeat(c: Cluster, t: Table, s: Spec, pin: string) {
    exists n <- c.nodes :: (pin == "" || n.name == pin) && FitsOn(c, t, s, n.name)
  }

  /**
   A reservation for one card can be seated, in every reachable state, exactly when its Pod requires no
   hostname or the one it requires has the card: the gate asked for any node.
   */
  lemma SingleCardHasSeat(c: Cluster, steps: seq<Step>, id: string, pin: string)
    requires WellFormed(c) && Legal(c, Assumed, EMPTY, steps)
    requires var t := Exec(c, EMPTY, steps).rows;
             id in t && Floating(t[id]) && t[id].spec.mode == Exclusive && Need(t[id].spec) == 1
    ensures var t := Exec(c, EMPTY, steps).rows;
            CanSeat(c, t, t[id].spec, pin) <==> pin == "" || FitsOn(c, t, t[id].spec, pin)
  {
    hide Views, SumOf, UsageOf, AvailOf, CanPlace, ReservedOf;
    var t := Exec(c, EMPTY, steps).rows;
    var gt := t[id].spec.gpuType;
    EmptyInv(c);
    RunKeeps(c, EMPTY, steps);
    NoLeases(c, t);
    UsedReads(c, t);
    TotalAtLeast(FloatCards(gt), t);
    assert Weight(FloatCards(gt), t[id]) == 1;
    assert 1 <= Promised(t, gt) <= FreeCards(c, UsageOf(c, t), gt);
    var n := SomeFreeNode(c, c.nodes, UsageOf(c, t), gt);
    assert FitsOn(c, t, t[id].spec, n.name);
  }

  lemma {:induction false} SomeFreeNode(c: Cluster, nodes: seq<LiveNode>, u: Usage, gt: string) returns (n: LiveNode)
    requires u.physical == {} && u.hami == c.hami && 0 < SumOf(WholeFree, gt, Views(nodes, u))
    ensures n in nodes && IsWhole(c, n) && n.gpuType == gt && Get(u.cards, n.name) < n.gpuCapacity
  {
    FreeStep(c, nodes, u, gt);
    n := nodes[|nodes| - 1];
    if !(IsWhole(c, n) && n.gpuType == gt && Get(u.cards, n.name) < n.gpuCapacity) {
      n := SomeFreeNode(c, nodes[..|nodes| - 1], u, gt);
    }
  }

  /**
   The gate reads usage and reservations at different instants, and the insert comes later still; at
   the insert, the gate taken at that one instant would say yes as well.
   */
  lemma SplitReadIsConservative(c: Cluster, steps: seq<Step>)
    requires WellFormed(c) && Legal(c, Assumed, EMPTY, steps)
    requires var s := Exec(c, EMPTY, steps);
             s.stage.Cleared? && PlaceOf(s.stage.req).spec.mode == Exclusive && Undisturbed(s) &&
             (s.stage.req.Restart? ==> s.stage.req.id in s.rows)
    ensures var s := Exec(c, EMPTY, steps); PlaceNow(c, s.rows, PlaceOf(s.stage.req))
  {
    var s := Exec(c, EMPTY, steps);
    EmptyInv(c);
    RunKeeps(c, EMPTY, steps);
    if s.stage.req.Restart? {
      assert RowOk(c, s.rows[s.stage.req.id]);
    }
  }

  // ----- exactly which writes keep the bound

  lemma {:induction false} CardsUsedPut(c: Cluster, nodes: seq<LiveNode>, t: Table, id: string, r: Row, gt: string)
    ensures CardsUsed(c, nodes, t[id := r], gt) ==
            CardsUsed(c, nodes, t, gt) - (if id in t then HeldOn(c, nodes, t[id], gt) else 0) + HeldOn(c, nodes, r, gt)
  {
    hide Total;
    if nodes != [] {
      CardsUsedPut(c, nodes[..|nodes| - 1], t, id, r, gt);
      TotalPut(NodeCards(nodes[|nodes| - 1].name), t, id, r);
    }
  }

  /** Of a bounded table, the free figure is the cards owned less the cards used. */
  lemma FreeReads(c: Cluster, t: Table, gt: string)
    requires Containers(t) && forall n <- c.nodes :: IsWhole(c, n) ==> Used(t, n.name) <= n.gpuCapacity
    ensures FreeCards(c, UsageOf(c, t), gt) == CardsOwned(c, c.nodes, gt) - CardsUsed(c, c.nodes, t, gt)
  {
    NoLeases(c, t);
    UsedReads(c, t);
    FreeIsOwnedLessUsed(c, c.nodes, UsageOf(c, t), t, gt);
  }

  /**
   Any single write, an insert or a rewrite of any kind, keeps the bound if and only if the table has the
   cards for it.
   */
  lemma RowWriteExactly(c: Cluster, t: Table, id: string, r: Row)
    requires Bounded(c, t) && Containers(t) && r.env == Container
    ensures Bounded(c, t[id := r]) <==> Accepts(c, t, id, r)
  {
    hide Views, SumOf, UsageOf, Total, CardsUsed, CardsOwned, HeldOn, Weight;
    var t' := t[id := r];
    forall name ensures Used(t', name) == Used(t, name) - Before(NodeCards(name), t, id) + Weight(NodeCards(name), r) {
      TotalPut(NodeCards(name), t, id, r);
    }
    if forall n <- c.nodes :: IsWhole(c, n) ==> Used(t', n.name) <= n.gpuCapacity {
      forall gt | gt != ""
        ensures Promised(t', gt) <= FreeCards(c, UsageOf(c, t'), gt) <==>
                Promised(t, gt) - Before(FloatCards(gt), t, id) + Weight(FloatCards(gt), r)
                + HeldOn(c, c.nodes, r, gt) - HeldBefore(c, t, id, gt) <= FreeCards(c, UsageOf(c, t), gt)
      {
        TotalPut(FloatCards(gt), t, id, r);
        FreeReads(c, t, gt);
        FreeReads(c, t', gt);
        CardsUsedPut(c, c.nodes, t, id, r, gt);
      }
    }
  }

  /** A row holds cards only where it sits: on the one whole-card node of its name, or nowhere. */
  lemma {:induction false} HeldWhereItSits(c: Cluster, nodes: seq<LiveNode>, r: Row, gt: string)
    requires UniqueNames(nodes)
    ensures (forall n <- nodes :: n.name == r.node ==> !IsWhole(c, n)) ==> HeldOn(c, nodes, r, gt) == 0
    ensures forall n <- nodes :: n.name == r.node && IsWhole(c, n) ==>
              HeldOn(c, nodes, r, gt) == if n.gpuType == gt then Weight(NodeCards(n.name), r) else 0
  {
    if nodes != [] {
      var init, last := nodes[..|nodes| - 1], nodes[|nodes| - 1];
      HeldWhereItSits(c, init, r, gt);
      assert last in nodes && forall n <- init :: n in nodes;
      forall n | n in init ensures n.name != last.name {
        var i :| 0 <= i < |init| && init[i] == n;
        assert nodes[i].name != nodes[|nodes| - 1].name;
      }
      assert forall n <- nodes :: n in init || n == last;
    }
  }

  /** d more cards on a node, of any kind, are there: nowhere to look when the node gives no whole cards. */
  ghost predicate RoomAt(c: Cluster, t: Table, node: string, d: int) {
    forall n <- c.nodes :: n.name == node && IsWhole(c, n) ==>
      && Used(t, node) + d <= n.gpuCapacity
      && (n.gpuType != "" ==> Promised(t, n.gpuType) + d <= FreeCards(c, UsageOf(c, t), n.gpuType))
  }

  /** A write that leaves the row on its node, or puts it on one, and promises nothing. */
  lemma AcceptsAt(c: Cluster, t: Table, id: string, r: Row, d: int)
    requires WellFormed(c) && Bounded(c, t) && id in t && r.node != ""
    requires forall name ::
             Weight(NodeCards(name), r) - Weight(NodeCards(name), t[id]) == if name == r.node then d else 0
    requires Admitted(t[id]) ==> t[id].node == r.node
    requires forall gt :: Weight(FloatCards(gt), r) == Weight(FloatCards(gt), t[id]) == 0
    ensures Accepts(c, t, id, r) <==> RoomAt(c, t, r.node, d)
  {
    hide Views, SumOf, UsageOf, Total;
    forall gt
      ensures (forall n <- c.nodes :: n.name == r.node ==> !IsWhole(c, n)) ==>
                HeldOn(c, c.nodes, r, gt) - HeldBefore(c, t, id, gt) == 0
      ensures forall n <- c.nodes :: n.name == r.node && IsWhole(c, n) ==>
                HeldOn(c, c.nodes, r, gt) - HeldBefore(c, t, id, gt) == if n.gpuType == gt then d else 0
    {
      HeldDelta(c, c.nodes, t[id], r, d, gt);
    }
    if n :| n in c.nodes && n.name == r.node && IsWhole(c, n) {
      assert forall m <- c.nodes :: m.name == r.node ==> m == n;
    }
  }

  lemma {:induction false} HeldDelta(c: Cluster, nodes: seq<LiveNode>, r: Row, r': Row, d: int, gt: string)
    requires UniqueNames(nodes)
    requires forall name :: Weight(NodeCards(name), r') - Weight(NodeCards(name), r) == if name == r'.node then d else 0
    ensures (forall n <- nodes :: n.name == r'.node ==> !IsWhole(c, n)) ==>
              HeldOn(c, nodes, r', gt) == HeldOn(c, nodes, r, gt)
    ensures forall n <- nodes :: n.name == r'.node && IsWhole(c, n) ==>
              HeldOn(c, nodes, r', gt) - HeldOn(c, nodes, r, gt) == if n.gpuType == gt then d else 0
  {
    hide Weight;
    if nodes != [] {
      var init, last := nodes[..|nodes| - 1], nodes[|nodes| - 1];
      HeldDelta(c, init, r, r', d, gt);
      assert last in nodes && forall n <- init :: n in nodes;
      forall n | n in init ensures n.name != last.name {
        var i :| 0 <= i < |init| && init[i] == n;
        assert nodes[i].name != nodes[|nodes| - 1].name;
      }
      assert forall n <- nodes :: n in init || n == last;
    }
  }

  /**
   Exactly when a copy of a Pod's state that comes after the stop is harmless: it brings the stopped row
   back, so the node it names must have the cards for it beside all that was promised, or the type when
   it names none.
   */
  lemma StaleRefreshExactly(c: Cluster, t: Table, id: string, p: Phase, node: string)
    requires WellFormed(c) && Bounded(c, t) && Containers(t) && id in t && !Admitted(t[id])
    requires (p == Provisioning || p == Running) && t[id].spec.mode == Exclusive && t[id].spec.gpuType != ""
    ensures var s := t[id].spec;
            Bounded(c, UpdateLiveOf(t, id, p, node)) <==>
            if node != "" then RoomAt(c, t, node, Need(s))
            else p == Running || Promised(t, s.gpuType) + Need(s) <= FreeCards(c, UsageOf(c, t), s.gpuType)
  {
    hide Views, SumOf, UsageOf, Total;
    var s := t[id].spec;
    var r' := t[id].(phase := p, node := node);
    RowWriteExactly(c, t, id, r');
    if node != "" {
      AcceptsAt(c, t, id, r', Need(s));
    } else {
      forall gt ensures HeldOn(c, c.nodes, r', gt) == HeldOn(c, c.nodes, t[id], gt) == 0 {
        HeldNothing(c, c.nodes, r', gt);
        HeldNothing(c, c.nodes, t[id], gt);
      }
    }
  }

  lemma {:induction false} HeldNothing(c: Cluster, nodes: seq<LiveNode>, r: Row, gt: string)
    requires forall name :: Weight(NodeCards(name), r) == 0
    ensures HeldOn(c, nodes, r, gt) == 0
  {
    if nodes != [] {
      HeldNothing(c, nodes[..|nodes| - 1], r, gt);
    }
  }

  /**
   Exactly when new resources that are written after the session was started again are harmless: the
   cards it needs more must be there on its node, or among those promised while it has none.
   */
  lemma LateSpecExactly(c: Cluster, t: Table, id: string, s: Spec)
    requires WellFormed(c) && Bounded(c, t) && Containers(t) && id in t && Admitted(t[id]) && SpecOk(t[id].spec)
             && SpecOk(s)
    ensures var old_, g := t[id], s.gpuType;
            Bounded(c, UpdateSpecOf(t, id, s)) <==>
            if old_.node != "" then RoomAt(c, t, old_.node, Cards(s) - Cards(old_.spec))
            else g == "" || Promised(t, g) - Weight(FloatCards(g), old_) + Weight(FloatCards(g), old_.(spec := s))
                            <= FreeCards(c, UsageOf(c, t), g)
  {
    hide Views, SumOf, UsageOf, Total;
    var r' := t[id].(spec := s);
    RowWriteExactly(c, t, id, r');
    if t[id].node != "" {
      AcceptsAt(c, t, id, r', Cards(s) - Cards(t[id].spec));
    } else {
      forall gt ensures HeldOn(c, c.nodes, r', gt) == HeldOn(c, c.nodes, t[id], gt) == 0 {
        HeldNothing(c, c.nodes, r', gt);
        HeldNothing(c, c.nodes, t[id], gt);
      }
    }
  }

  /**
   Exactly when losing a node is harmless: the session sat on a node that gives whole cards of its
   type, or the type has room for one more promise. A session that reconfiguration moved to whole
   cards on a split node, or on a node outside the inventory, has neither in general.
   */
  lemma UnbindExactly(c: Cluster, t: Table, id: string)
    requires WellFormed(c) && Bounded(c, t) && Containers(t)
    requires id in t && Admitted(t[id]) && t[id].spec.mode == Exclusive && t[id].spec.gpuType != "" && t[id].node != ""
    ensures var gt := t[id].spec.gpuType;
            Bounded(c, UpdateLiveOf(t, id, Provisioning, "")) <==>
            Home(c, t[id].node, gt) || Promised(t, gt) + Need(t[id].spec) <= FreeCards(c, UsageOf(c, t), gt)
  {
    hide Views, SumOf, UsageOf, Total;
    var r := t[id];
    var r' := r.(phase := Provisioning, node := "");
    RowWriteExactly(c, t, id, r');
    forall gt
      ensures HeldOn(c, c.nodes, r', gt) == 0
      ensures HeldOn(c, c.nodes, r, gt) >= 0
      ensures gt == r.spec.gpuType ==> (HeldOn(c, c.nodes, r, gt) == if Home(c, r.node, gt) then Need(r.spec) else 0)
    {
      HeldNothing(c, c.nodes, r', gt);
      HeldWhereItSits(c, c.nodes, r, gt);
    }
  }

  /** Exactly when the scheduler's pick is harmless: the table, pinned claims included, shows the cards free. */
  lemma BindExactly(c: Cluster, t: Table, id: string, n: LiveNode)
    requires WellFormed(c) && Bounded(c, t) && Containers(t)
    requires id in t && Floating(t[id]) && t[id].spec.mode == Exclusive
    requires n in c.nodes && IsWhole(c, n) && n.gpuType == t[id].spec.gpuType && n.name != ""
    ensures Bounded(c, UpdateLiveOf(t, id, Running, n.name)) <==>
            Used(t, n.name) + Need(t[id].spec) <= n.gpuCapacity
  {
    hide Views, SumOf, UsageOf, Total;
    var r' := t[id].(phase := Running, node := n.name);
    RowWriteExactly(c, t, id, r');
    forall gt
      ensures HeldOn(c, c.nodes, t[id], gt) == 0
      ensures HeldOn(c, c.nodes, r', gt) == if gt == n.gpuType then Need(r'.spec) else 0
    {
      HeldNothing(c, c.nodes, t[id], gt);
      HeldWhereItSits(c, c.nodes, r', gt);
    }
    assert forall m <- c.nodes :: m.name == n.name ==> m == n;
  }

  // ----- late writes that break the bound

  const ONE_NODE := LiveNode("n", "A", 1, 1000, "", true, false, 8, 8)
  const ONE_CARD_CLUSTER := Cluster([ONE_NODE], {}, map[], map[], map[], 0)

  function OnNode(s: Spec, p: Phase): Row { Row(0, Container, s, p, "n", None) }

  const NO_GPU := Spec(Cpu, "", 0, 0, 0)

  /** A one-card node is bounded with exactly as many cards in use as its rows take, one at the most. */
  lemma TwoRows(a: Row, b: Row)
    requires Admitted(a) ==> a.node == "n"
    requires Admitted(b) ==> b.node == "n"
    requires a.env == Container && b.env == Container
    ensures Used(map["a" := a, "b" := b], "n") == Weight(NodeCards("n"), a) + Weight(NodeCards("n"), b)
    ensures WellFormed(ONE_CARD_CLUSTER)
    ensures Used(map["a" := a, "b" := b], "n") <= 1 ==> Bounded(ONE_CARD_CLUSTER, map["a" := a, "b" := b])
  {
    hide Total, Views, SumOf, UsageOf, Weight;
    var c, t1, t2 := ONE_CARD_CLUSTER, map["a" := a], map["a" := a, "b" := b];
    assert t1 == map[]["a" := a] && t2 == t1["b" := b];
    forall q: Query ensures Total(q, t2) == Weight(q, a) + Weight(q, b) {
      TotalPut(q, map[], "a", a);
      TotalPut(q, t1, "b", b);
      NoWeight(q, map[]);
    }
    assert ONE_NODE in c.nodes && ONE_NODE.gpuCapacity != 0;
    forall gt ensures Promised(t2, gt) <= FreeCards(c, UsageOf(c, t2), gt) {
      OnNodePromisesNothing(a, gt);
      OnNodePromisesNothing(b, gt);
      NoLeases(c, t2);
      ViewsInRange(c.nodes, UsageOf(c, t2));
      SumNonNeg(WholeFree, gt, Views(c.nodes, UsageOf(c, t2)));
    }
  }

  lemma OnNodePromisesNothing(r: Row, gt: string)
    requires Admitted(r) ==> r.node != ""
    ensures Weight(FloatCards(gt), r) == 0
  {
  }

  /** The reconciler reads a running Pod, the session is stopped, its card goes to another, and the copy is written. */
  lemma StaleRefreshCanOvercommit()
    ensures var c, t := ONE_CARD_CLUSTER, map["a" := OnNode(ONE_CARD, Stopped), "b" := OnNode(ONE_CARD, Running)];
            && WellFormed(c) && Bounded(c, t) && RowsOk(c, t)
            && Used(UpdateLiveOf(t, "a", Running, "n"), "n") == 2 && !Bounded(c, UpdateLiveOf(t, "a", Running, "n"))
  {
    hide Total, Views, SumOf, UsageOf;
    var a, b := OnNode(ONE_CARD, Stopped), OnNode(ONE_CARD, Running);
    var t := map["a" := a, "b" := b];
    TwoRows(a, b);
    TwoRows(b, b);
    assert UpdateLiveOf(t, "a", Running, "n") == map["a" := b, "b" := b];
    assert ONE_NODE in ONE_CARD_CLUSTER.nodes && IsWhole(ONE_CARD_CLUSTER, ONE_NODE);
  }

  /**
   Reconfigure finds a stopped session, it is started as it was, the card goes to another, and the new
   resources are written.
   */
  lemma LateSpecCanOvercommit()
    ensures var c, t := ONE_CARD_CLUSTER, map["a" := OnNode(NO_GPU, Running), "b" := OnNode(ONE_CARD, Running)];
            && WellFormed(c) && Bounded(c, t) && RowsOk(c, t)
            && Used(UpdateSpecOf(t, "a", ONE_CARD), "n") == 2 && !Bounded(c, UpdateSpecOf(t, "a", ONE_CARD))
  {
    hide Total, Views, SumOf, UsageOf;
    var a, b := OnNode(NO_GPU, Running), OnNode(ONE_CARD, Running);
    var t := map["a" := a, "b" := b];
    TwoRows(a, b);
    TwoRows(b, b);
    assert UpdateSpecOf(t, "a", ONE_CARD) == map["a" := b, "b" := b];
    assert ONE_NODE in ONE_CARD_CLUSTER.nodes && IsWhole(ONE_CARD_CLUSTER, ONE_NODE);
  }

  /**
   An accepted whole-card request on its own listed node can run there if and only if that node is not
   split: only then are the cards the gate counted cards that a whole-card Pod may use.
   */
  lemma PinnedHostIff(c: Cluster, t: Table, s: Spec, n: LiveNode)
    requires WellFormed(c) && Containers(t) && s.mode == Exclusive && s.gpuType != ""
    requires n in c.nodes && n.gpuCapacity != 0 && n.name != "" && PlaceNow(c, t, PlaceReq(s, n.name))
    ensures FitsOn(c, t, s, n.name) <==> n.name !in c.hami
  {
    hide Views, SumOf, Total;
    NoLeases(c, t);
    UsedReads(c, t);
    GateIsOn(c, UsageOf(c, t));
    BoxOfNode(c.nodes, UsageOf(c, t), n);
    if n.name !in c.hami {
      assert NodeView(n, UsageOf(c, t)).gpuType == n.gpuType;
      PinnedGate(c, UsageOf(c, t), t, s, n);
      PromisedNonNeg(t, s.gpuType);
    }
  }
}
