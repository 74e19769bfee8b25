/**
 No hidden queue for shared GPUs: whenever shared sessions of a type wait for a node, one split node
 has VRAM, cores and slots for all of them together (backend/internal/resource/availability.go,
 backend/internal/session/service.go).
 */
module SharedSeats {
  import opened Options
  import opened Inventory
  import opened SessionTable
  import opened Availability
  import opened Gate
  import opened AdmissionProtocol

  predicate Le(a: ShareUse, b: ShareUse) { a.vramMB <= b.vramMB && a.cores <= b.cores && a.count <= b.count }

  function Plus(a: ShareUse, b: ShareUse): ShareUse {
    ShareUse(a.vramMB + b.vramMB, a.cores + b.cores, a.count + b.count)
  }

  function Minus(a: ShareUse, b: ShareUse): ShareUse {
    ShareUse(a.vramMB - b.vramMB, a.cores - b.cores, a.count - b.count)
  }

  /** What one shared session takes: its VRAM, its core share and one task slot. */
  function Ask(s: Spec): ShareUse { ShareUse(s.vramMB, s.corePercent, 1) }

  predicate IsSplit(c: Cluster, n: LiveNode) { n.gpuCapacity != 0 && n.name in c.hami }

  /** A split node's totals on the three axes. */
  function Capacity(c: Cluster, n: LiveNode): ShareUse {
    var split := Get(c.split, n.name);
    ShareUse(n.gpuMemMB * n.gpuCapacity, 100 * n.gpuCapacity,
        (if split <= 0 then 10 else split) * n.gpuCapacity)
  }

  ghost function Use(t: Table, node: string): ShareUse {
    ShareUse(Total(NodeVram(node), t), Total(NodeCores(node), t), Total(NodeTasks(node), t))
  }

  ghost function Hold(t: Table, gt: string): ShareUse {
    ShareUse(Total(FloatVram(gt), t), Total(FloatCores(gt), t), Total(FloatTasks(gt), t))
  }

  /** A split node of the type, used this much, still carries this much more. */
  predicate RoomFor(c: Cluster, n: LiveNode, gt: string, use: ShareUse, more: ShareUse) {
    IsSplit(c, n) && n.gpuType == gt && Le(Plus(use, more), Capacity(c, n))
  }

  /** One node has room for every floating shared session of the type at once. */
  ghost predicate Together(c: Cluster, t: Table, gt: string) {
    Hold(t, gt).count == 0 || exists n <- c.nodes :: RoomFor(c, n, gt, Use(t, n.name), Hold(t, gt))
  }

  // ----- assumptions

  /** Modes are cpu, shared and exclusive; a shared request names its type and asks for VRAM and cores. */
  predicate SpecOk(s: Spec) {
    && s.mode != Timeslice
    && (s.mode == Shared ==> s.gpuType != "" && s.vramMB > 0 && s.corePercent > 0)
  }

  /** The scheduler puts a shared Pod only on a split node of its type with room for it. */
  ghost predicate FitsOn(c: Cluster, t: Table, s: Spec, node: string) {
    exists n <- c.nodes :: n.name == node && RoomFor(c, n, s.gpuType, Use(t, node), Ask(s))
  }

  function RowUse(r: Row, node: string): ShareUse { if SharedOn(r, node) then Ask(r.spec) else NO_USE }

  function RowHold(r: Row, gt: string): ShareUse { if SharedFloating(r, gt) then Ask(r.spec) else NO_USE }

  /** A node's use once the row is written under the id. */
  ghost function UseAfter(t: Table, id: string, r: Row, node: string): ShareUse {
    Plus(Minus(Use(t, node), if id in t then RowUse(t[id], node) else NO_USE), RowUse(r, node))
  }

  /** A type's waiting shares once the row is written under the id. */
  ghost function HoldAfter(t: Table, id: string, r: Row, gt: string): ShareUse {
    Plus(Minus(Hold(t, gt), if id in t then RowHold(t[id], gt) else NO_USE), RowHold(r, gt))
  }

  /** The table has the room for this row in place of what it has under the id. */
  ghost predicate Accepts(c: Cluster, t: Table, id: string, r: Row) {
    && (forall n <- c.nodes :: IsSplit(c, n) ==> Le(UseAfter(t, id, r, n.name), Capacity(c, n)))
    && (forall gt :: gt != "" ==>
          || HoldAfter(t, id, r, gt).count == 0
          || exists n <- c.nodes :: RoomFor(c, n, gt, UseAfter(t, id, r, n.name), HoldAfter(t, id, r, gt)))
  }

  /** A late write that finds the row as it was judged; a shared session that waits must not lose its node. */
  ghost predicate OnTime(c: Cluster, s: State, step: Step, r: Row) {
    match step
    case Refresh(_, p, node) =>
      && (Admitted(r) || p == Stopped)
      && (r.spec.mode == Shared && node != r.node ==>
            r.node == "" && !s.stage.SawUsage? && FitsOn(c, s.rows, r.spec, node))
    case _ => !Admitted(r)
  }

  /** A write whatever it finds, where the table has the room for it and no usage has been read. */
  ghost predicate Harmless(c: Cluster, s: State, id: string, r': Row) {
    (s.stage.Idle? || s.stage.Quoted?) && Accepts(c, s.rows, id, r')
  }

  /** As for whole cards: a late write comes on time or finds the room for what it does. */
  ghost predicate Assumed(c: Cluster, s: State, step: Step) {
    match step
    case CheckQuota(q) => SpecOk(PlaceOf(q).spec)
    case ReadUsage(q) => SpecOk(PlaceOf(q).spec)
    case Commit => Undisturbed(s)
    case Refresh(id, _, _) => id in s.rows ==> LateOk(c, s, id, step)
    case Respec(id, _) => id in s.rows ==> LateOk(c, s, id, step)
    case Unpin(id) => id in s.rows ==> LateOk(c, s, id, step)
    case LeaseNode(_, _) => false
    case _ => true
  }

  ghost predicate LateOk(c: Cluster, s: State, id: string, step: Step)
    requires id in s.rows
  {
    var r := s.rows[id];
    var r' := Rewritten(r, step);
    && SpecOk(r'.spec) && (r'.phase == Running ==> r'.node != "")
    && (OnTime(c, s, step, r) || Harmless(c, s, id, r'))
  }

  // ----- the invariant

  ghost predicate Bounded(c: Cluster, t: Table) {
    && (forall n <- c.nodes :: IsSplit(c, n) ==> Le(Use(t, n.name), Capacity(c, n)))
    && (forall gt :: gt != "" ==> Together(c, t, gt))
  }

  predicate RowOk(r: Row) { r.env == Container && SpecOk(r.spec) && (r.phase == Running ==> r.node != "") }

  ghost predicate RowsOk(t: Table) { forall id :: id in t ==> RowOk(t[id]) }

  predicate RequestOk(q: Request) { SpecOk(PlaceOf(q).spec) && (q.NewSession? ==> FreshRow(q.row)) }

  ghost predicate StageOk(c: Cluster, s: State) {
    match s.stage
    case Idle => true
    case Quoted(q) => RequestOk(q)
    case SawUsage(q, u) =>
      && RequestOk(q) && u.physical == {} && u.hami == c.hami && u.split == c.split
      && (forall n <- c.nodes :: IsSplit(c, n) ==> Le(Use(s.rows, n.name), ShareOf(u.share, n.name)))
    case Cleared(q) => RequestOk(q) && (PlaceOf(q).spec.mode == Shared ==> PlaceNow(c, s.rows, PlaceOf(q)))
  }

  ghost predicate Inv(c: Cluster, s: State) { Bounded(c, s.rows) && RowsOk(s.rows) && StageOk(c, s) }

  // ----- sums over rows

  lemma PutUse(t: Table, id: string, r: Row)
    ensures forall node :: Use(t[id := r], node) ==
              Plus(Minus(Use(t, node), if id in t then RowUse(t[id], node) else NO_USE), RowUse(r, node))
    ensures forall gt :: Hold(t[id := r], gt) ==
              Plus(Minus(Hold(t, gt), if id in t then RowHold(t[id], gt) else NO_USE), RowHold(r, gt))
  {
    hide Total;
    forall node ensures Use(t[id := r], node) ==
              Plus(Minus(Use(t, node), if id in t then RowUse(t[id], node) else NO_USE), RowUse(r, node)) {
      TotalPut(NodeVram(node), t, id, r);
      TotalPut(NodeCores(node), t, id, r);
      TotalPut(NodeTasks(node), t, id, r);
    }
    forall gt ensures Hold(t[id := r], gt) ==
              Plus(Minus(Hold(t, gt), if id in t then RowHold(t[id], gt) else NO_USE), RowHold(r, gt)) {
      TotalPut(FloatVram(gt), t, id, r);
      TotalPut(FloatCores(gt), t, id, r);
      TotalPut(FloatTasks(gt), t, id, r);
    }
  }

  lemma RemoveUse(t: Table, id: string)
    requires RowsOk(t)
    ensures forall node :: Le(Use(t - {id}, node), Use(t, node))
    ensures forall gt :: Le(Hold(t - {id}, gt), Hold(t, gt))
  {
    if id in t {
      assert RowOk(t[id]);
      forall node ensures Le(Use(t - {id}, node), Use(t, node)) {
        TotalRemove(NodeVram(node), t, id);
        TotalRemove(NodeCores(node), t, id);
        TotalRemove(NodeTasks(node), t, id);
      }
      forall gt ensures Le(Hold(t - {id}, gt), Hold(t, gt)) {
        TotalRemove(FloatVram(gt), t, id);
        TotalRemove(FloatCores(gt), t, id);
        TotalRemove(FloatTasks(gt), t, id);
      }
    } else {
      assert t - {id} == t;
    }
  }

  lemma HoldNonNeg(t: Table, gt: string)
    requires RowsOk(t)
    ensures Le(NO_USE, Hold(t, gt))
  {
    forall id | id in t
      ensures 0 <= Weight(FloatVram(gt), t[id]) && 0 <= Weight(FloatCores(gt), t[id])
              && 0 <= Weight(FloatTasks(gt), t[id])
    {
      assert RowOk(t[id]);
    }
    TotalAtLeast(FloatVram(gt), t);
    TotalAtLeast(FloatCores(gt), t);
    TotalAtLeast(FloatTasks(gt), t);
  }

  lemma UsageReads(c: Cluster, t: Table)
    requires RowsOk(t)
    ensures UsageOf(c, t).physical == {} && UsageOf(c, t).hami == c.hami && UsageOf(c, t).split == c.split
    ensures forall n <- c.nodes :: ShareOf(UsageOf(c, t).share, n.name) == Use(t, n.name)
    ensures forall gt <- GpuTypes(c) :: ShareOf(ReservedOf(c, t).shared, gt) == Hold(t, gt)
  {
    forall name ensures Total(Leases(name), t) == 0 {
      assert forall id :: id in t ==> RowOk(t[id]) && Weight(Leases(name), t[id]) == 0;
      NoWeight(Leases(name), t);
    }
    forall n | n in c.nodes ensures ShareOf(UsageOf(c, t).share, n.name) == Use(t, n.name) {
      assert n.name in NodeNames(c);
    }
  }

  // ----- the gate in terms of room

  /** A split node's box passes the three-axis test exactly when the node has the room. */
  lemma BoxFits(c: Cluster, u: Usage, n: LiveNode, s: Spec, hold: ShareUse)
    requires u.physical == {} && u.hami == c.hami && u.split == c.split && IsSplit(c, n)
    requires s.vramMB > 0 && s.corePercent > 0 && Le(NO_USE, hold)
    ensures NodeView(n, u).fractional && NodeView(n, u).gpuType == n.gpuType
    ensures FitsShared(NodeView(n, u), s, hold) <==>
            Le(Plus(ShareOf(u.share, n.name), Plus(hold, Ask(s))), Capacity(c, n))
  {
    var use, cap := ShareOf(u.share, n.name), Capacity(c, n);
    var v := NodeView(n, u);
    assert v.vramFree == ClampNonNeg(cap.vramMB - use.vramMB);
    assert v.coresFree == ClampNonNeg(cap.cores - use.cores);
    assert v.slotsFree == ClampNonNeg(cap.count - use.count);
  }

  ghost predicate SomeRoom(c: Cluster, u: Usage, gt: string, more: ShareUse) {
    exists n <- c.nodes :: RoomFor(c, n, gt, ShareOf(u.share, n.name), more)
  }

  /** Cluster-wide, the gate for shares is exactly: one node carries everyone waiting and the request. */
  lemma SharedGate(c: Cluster, u: Usage, t: Table, s: Spec)
    requires WellFormed(c) && RowsOk(t) && s.mode == Shared && SpecOk(s)
    requires u.physical == {} && u.hami == c.hami && u.split == c.split
    ensures CanPlace(AvailOf(c.nodes, u), ReservedOf(c, t), PlaceReq(s, "")) <==>
            SomeRoom(c, u, s.gpuType, Plus(Hold(t, s.gpuType), Ask(s)))
  {
    hide Views, SumOf, TypeView, UsageOf, Total, NodeView, FitsShared;
    var gt, views := s.gpuType, Views(c.nodes, u);
    GateIsOn(c, u);
    ViewsOf(c.nodes, u);
    HoldNonNeg(t, gt);
    UsageReads(c, t);
    if v :| v in views && v.fractional && v.gpuType == gt && FitsShared(v, s, ShareOf(ReservedOf(c, t).shared, gt)) {
      var n :| n in c.nodes && n.gpuCapacity != 0 && v == NodeView(n, u);
      ViewIsSplit(c, u, n);
      assert gt in GpuTypes(c);
      BoxFits(c, u, n, s, Hold(t, gt));
      assert RoomFor(c, n, gt, ShareOf(u.share, n.name), Plus(Hold(t, gt), Ask(s)));
    }
    if n :| n in c.nodes && RoomFor(c, n, gt, ShareOf(u.share, n.name), Plus(Hold(t, gt), Ask(s))) {
      assert gt in GpuTypes(c);
      BoxFits(c, u, n, s, Hold(t, gt));
      assert NodeView(n, u) in views;
    }
  }

  lemma ViewIsSplit(c: Cluster, u: Usage, n: LiveNode)
    requires u.physical == {} && u.hami == c.hami && n.gpuCapacity != 0
    ensures NodeView(n, u).fractional <==> IsSplit(c, n)
    ensures NodeView(n, u).gpuType == n.gpuType
  {
  }

  /** On a node of the inventory, the gate for shares is the same question about that node. */
  lemma PinnedSharedGate(c: Cluster, u: Usage, t: Table, s: Spec, n: LiveNode)
    requires WellFormed(c) && RowsOk(t) && s.mode == Shared && SpecOk(s)
    requires u.physical == {} && u.hami == c.hami && u.split == c.split
    requires n in c.nodes && n.gpuCapacity != 0 && n.name != ""
    ensures CanPlace(AvailOf(c.nodes, u), ReservedOf(c, t), PlaceReq(s, n.name)) <==>
            RoomFor(c, n, s.gpuType, ShareOf(u.share, n.name), Plus(Hold(t, s.gpuType), Ask(s)))
  {
    hide Views, SumOf, TypeView, UsageOf, Total, NodeView, FitsShared, FirstBox;
    GateIsOn(c, u);
    BoxOfNode(c.nodes, u, n);
    HoldNonNeg(t, s.gpuType);
    UsageReads(c, t);
    ViewIsSplit(c, u, n);
    assert n.gpuType in GpuTypes(c);
    if IsSplit(c, n) && n.gpuType == s.gpuType {
      BoxFits(c, u, n, s, Hold(t, s.gpuType));
    }
  }

  /** A pinned request on a node the inventory does not show, or shows without GPUs, is not judged. */
  lemma UnknownNodePasses(c: Cluster, u: Usage, t: Table, s: Spec, node: string)
    requires node != "" && forall n <- c.nodes :: n.name == node ==> n.gpuCapacity == 0
    ensures CanPlace(AvailOf(c.nodes, u), ReservedOf(c, t), PlaceReq(s, node))
  {
    hide SumOf, TypeView, UsageOf, Total;
    ViewsOf(c.nodes, u);
    FirstBoxFound(Views(c.nodes, u), node);
  }

  /** Less usage and fewer reservations pass whatever gate an earlier reading passed. */
  lemma GateRelaxes(c: Cluster, u: Usage, t: Table, u': Usage, t': Table, r: PlaceReq)
    requires WellFormed(c) && RowsOk(t) && RowsOk(t') && r.spec.mode == Shared && SpecOk(r.spec)
    requires u.physical == {} && u.hami == c.hami && u.split == c.split
    requires u'.physical == {} && u'.hami == c.hami && u'.split == c.split
    requires forall n <- c.nodes :: IsSplit(c, n) ==> Le(ShareOf(u'.share, n.name), ShareOf(u.share, n.name))
    requires Le(Hold(t', r.spec.gpuType), Hold(t, r.spec.gpuType))
    requires CanPlace(AvailOf(c.nodes, u), ReservedOf(c, t), r)
    ensures CanPlace(AvailOf(c.nodes, u'), ReservedOf(c, t'), r)
  {
    hide CanPlace, AvailOf, ReservedOf, Hold, Capacity;
    var gt := r.spec.gpuType;
    assert r == PlaceReq(r.spec, r.node);
    if r.node == "" {
      SharedGate(c, u, t, r.spec);
      var n :| n in c.nodes && RoomFor(c, n, gt, ShareOf(u.share, n.name), Plus(Hold(t, gt), Ask(r.spec)));
      assert RoomFor(c, n, gt, ShareOf(u'.share, n.name), Plus(Hold(t', gt), Ask(r.spec)));
      SharedGate(c, u', t', r.spec);
    } else if n :| n in c.nodes && n.name == r.node && n.gpuCapacity != 0 {
      PinnedSharedGate(c, u, t, r.spec, n);
      PinnedSharedGate(c, u', t', r.spec, n);
    } else {
      UnknownNodePasses(c, u', t', r.spec, r.node);
    }
  }

  // ----- steps that only give seats back

  ghost predicate Quieter(c: Cluster, t: Table, t': Table) {
    && (forall n <- c.nodes :: IsSplit(c, n) ==> Le(Use(t', n.name), Use(t, n.name)))
    && (forall gt :: Le(Hold(t', gt), Hold(t, gt)))
  }

  lemma QuieterBounded(c: Cluster, t: Table, t': Table)
    requires Bounded(c, t) && RowsOk(t') && Quieter(c, t, t')
    ensures Bounded(c, t')
  {
    hide Use, Hold, Capacity;
    forall gt | gt != "" ensures Together(c, t', gt) {
      HoldNonNeg(t', gt);
      assert Together(c, t, gt) && Le(Hold(t', gt), Hold(t, gt));
      if Hold(t, gt).count != 0 {
        var n :| n in c.nodes && RoomFor(c, n, gt, Use(t, n.name), Hold(t, gt));
        assert RoomFor(c, n, gt, Use(t', n.name), Hold(t', gt));
      }
    }
  }

  lemma QuieterKeeps(c: Cluster, s: State, s': State)
    requires WellFormed(c) && Inv(c, s) && RowsOk(s'.rows)
    requires s'.stage == s.stage && Quieter(c, s.rows, s'.rows)
    ensures Inv(c, s')
  {
    hide UsageOf, ReservedOf, CanPlace, AvailOf, Use, Hold, Capacity;
    QuieterBounded(c, s.rows, s'.rows);
    UsageReads(c, s.rows);
    UsageReads(c, s'.rows);
    if s.stage.Cleared? && PlaceOf(s.stage.req).spec.mode == Shared {
      GateRelaxes(c, UsageOf(c, s.rows), s.rows, UsageOf(c, s'.rows), s'.rows, PlaceOf(s.stage.req));
    }
  }

  /** Rewriting a row without giving it a share, or leaving its share where it was. */
  ghost predicate Lighter(r: Row, r': Row) {
    && (forall node :: RowUse(r', node) == NO_USE || RowUse(r', node) == RowUse(r, node))
    && (forall gt :: RowHold(r', gt) == NO_USE || RowHold(r', gt) == RowHold(r, gt))
  }

  lemma RewriteKeeps(c: Cluster, s: State, id: string, r': Row)
    requires WellFormed(c) && Inv(c, s) && id in s.rows && RowOk(r') && Lighter(s.rows[id], r')
    ensures Inv(c, s.(rows := s.rows[id := r']))
  {
    hide Use, Hold, StageOk, Bounded;
    assert RowOk(s.rows[id]);
    PutUse(s.rows, id, r');
    QuieterKeeps(c, s, s.(rows := s.rows[id := r']));
  }

  // ----- binding

  /** Only node m's use grows, by one session's share. */
  ghost predicate Lands(c: Cluster, t: Table, t': Table, s: Spec, m: LiveNode) {
    forall n <- c.nodes :: Use(t', n.name) == if n.name == m.name then Plus(Use(t, n.name), Ask(s)) else Use(t, n.name)
  }

  /** Only this type's hold shrinks, by one session's share. */
  ghost predicate Leaves(t: Table, t': Table, s: Spec) {
    forall gt :: Hold(t', gt) == if gt == s.gpuType then Minus(Hold(t, gt), Ask(s)) else Hold(t, gt)
  }

  /** Only this type's hold grows, by one session's share. */
  ghost predicate Joins(t: Table, t': Table, s: Spec) {
    forall gt :: Hold(t', gt) == if gt == s.gpuType then Plus(Hold(t, gt), Ask(s)) else Hold(t, gt)
  }

  /** A bound session takes its share from the holds to its node, so a node that carried all still does. */
  lemma BindKeeps(c: Cluster, s: State, t': Table, spec: Spec, m: LiveNode)
    requires WellFormed(c) && Inv(c, s) && !s.stage.SawUsage? && RowsOk(t')
    requires m in c.nodes && SpecOk(spec) && spec.mode == Shared
    requires RoomFor(c, m, spec.gpuType, Use(s.rows, m.name), Ask(spec))
    requires Lands(c, s.rows, t', spec, m) && Leaves(s.rows, t', spec)
    ensures Inv(c, s.(rows := t'))
  {
    hide Use, Hold, UsageOf, ReservedOf, CanPlace, AvailOf, Capacity;
    var t := s.rows;
    forall n | n in c.nodes && IsSplit(c, n) ensures Le(Use(t', n.name), Capacity(c, n)) {
      if n.name == m.name { assert n == m; }
    }
    BindTogether(c, t, t', spec, m);
    if s.stage.Cleared? && PlaceOf(s.stage.req).spec.mode == Shared {
      BindGate(c, t, t', spec, m, PlaceOf(s.stage.req));
    }
  }

  /** One waiting session's share moved to a node changes no sum of use and hold for the worse. */
  lemma RoomAfterBind(c: Cluster, t: Table, t': Table, spec: Spec, m: LiveNode, n: LiveNode, gt: string, more: ShareUse)
    requires WellFormed(c) && m in c.nodes && n in c.nodes && SpecOk(spec) && spec.mode == Shared
             && m.gpuType == spec.gpuType
    requires Lands(c, t, t', spec, m) && Leaves(t, t', spec)
    requires RoomFor(c, n, gt, Use(t, n.name), Plus(Hold(t, gt), more))
    ensures RoomFor(c, n, gt, Use(t', n.name), Plus(Hold(t', gt), more))
  {
    hide Use, Hold, Capacity;
    if n.name == m.name { assert n == m; }
  }

  lemma BindTogether(c: Cluster, t: Table, t': Table, spec: Spec, m: LiveNode)
    requires WellFormed(c) && RowsOk(t) && Bounded(c, t) && m in c.nodes && SpecOk(spec) && spec.mode == Shared
             && m.gpuType == spec.gpuType
    requires Lands(c, t, t', spec, m) && Leaves(t, t', spec)
    requires RowsOk(t')
    ensures forall gt :: gt != "" ==> Together(c, t', gt)
  {
    hide Use, Hold, Capacity;
    forall gt | gt != "" ensures Together(c, t', gt) {
      HoldNonNeg(t, gt);
      HoldNonNeg(t', gt);
      assert Together(c, t, gt);
      if Hold(t, gt).count != 0 {
        var n :| n in c.nodes && RoomFor(c, n, gt, Use(t, n.name), Hold(t, gt));
        assert Plus(Hold(t, gt), NO_USE) == Hold(t, gt) && Plus(Hold(t', gt), NO_USE) == Hold(t', gt);
        RoomAfterBind(c, t, t', spec, m, n, gt, NO_USE);
      }
    }
  }

  lemma BindGate(c: Cluster, t: Table, t': Table, spec: Spec, m: LiveNode, r: PlaceReq)
    requires WellFormed(c) && RowsOk(t) && RowsOk(t') && m in c.nodes && SpecOk(spec) && spec.mode == Shared
             && m.gpuType == spec.gpuType
    requires Lands(c, t, t', spec, m) && Leaves(t, t', spec)
    requires r.spec.mode == Shared && SpecOk(r.spec) && PlaceNow(c, t, r)
    ensures PlaceNow(c, t', r)
  {
    hide Use, Hold, UsageOf, ReservedOf, CanPlace, AvailOf, Capacity;
    var gt := r.spec.gpuType;
    var u, u' := UsageOf(c, t), UsageOf(c, t');
    UsageReads(c, t);
    UsageReads(c, t');
    assert r == PlaceReq(r.spec, r.node);
    if r.node == "" {
      SharedGate(c, u, t, r.spec);
      var n :| n in c.nodes && RoomFor(c, n, gt, ShareOf(u.share, n.name), Plus(Hold(t, gt), Ask(r.spec)));
      RoomAfterBind(c, t, t', spec, m, n, gt, Ask(r.spec));
      assert RoomFor(c, n, gt, ShareOf(u'.share, n.name), Plus(Hold(t', gt), Ask(r.spec)));
      SharedGate(c, u', t', r.spec);
    } else if n :| n in c.nodes && n.name == r.node && n.gpuCapacity != 0 {
      PinnedSharedGate(c, u, t, r.spec, n);
      RoomAfterBind(c, t, t', spec, m, n, gt, Ask(r.spec));
      PinnedSharedGate(c, u', t', r.spec, n);
    } else {
      UnknownNodePasses(c, u', t', r.spec, r.node);
    }
  }

  // ----- the admission's own write

  /** A new reservation: the node the gate found carries the newcomer along with everyone waiting. */
  lemma ReserveBounded(c: Cluster, t: Table, t': Table, s: Spec)
    requires WellFormed(c) && Bounded(c, t) && RowsOk(t) && RowsOk(t') && s.mode == Shared && SpecOk(s)
    requires PlaceNow(c, t, PlaceReq(s, ""))
    requires forall n <- c.nodes :: Use(t', n.name) == Use(t, n.name)
    requires Joins(t, t', s)
    ensures Bounded(c, t')
  {
    hide Use, Hold, UsageOf, ReservedOf, CanPlace, AvailOf, Capacity;
    UsageReads(c, t);
    SharedGate(c, UsageOf(c, t), t, s);
    var m :| m in c.nodes
        && RoomFor(c, m, s.gpuType, ShareOf(UsageOf(c, t).share, m.name), Plus(Hold(t, s.gpuType), Ask(s)));
    forall gt | gt != "" ensures Together(c, t', gt) {
      if gt == s.gpuType {
        assert RoomFor(c, m, gt, Use(t', m.name), Hold(t', gt));
      } else {
        assert Together(c, t, gt);
        if Hold(t, gt).count != 0 {
          var n :| n in c.nodes && RoomFor(c, n, gt, Use(t, n.name), Hold(t, gt));
          assert RoomFor(c, n, gt, Use(t', n.name), Hold(t', gt));
        }
      }
    }
  }

  /** A claim on the session's own split node, which then still carries everyone waiting. */
  lemma ClaimBounded(c: Cluster, t: Table, t': Table, s: Spec, m: LiveNode)
    requires WellFormed(c) && Bounded(c, t) && RowsOk(t) && RowsOk(t') && s.mode == Shared && SpecOk(s)
    requires m in c.nodes && IsSplit(c, m) && m.name != "" && PlaceNow(c, t, PlaceReq(s, m.name))
    requires Lands(c, t, t', s, m)
    requires forall gt :: Hold(t', gt) == Hold(t, gt)
    ensures Bounded(c, t')
  {
    hide Use, Hold, UsageOf, ReservedOf, CanPlace, AvailOf, Capacity;
    UsageReads(c, t);
    PinnedSharedGate(c, UsageOf(c, t), t, s, m);
    HoldNonNeg(t, s.gpuType);
    forall n | n in c.nodes && IsSplit(c, n) ensures Le(Use(t', n.name), Capacity(c, n)) {
      if n.name == m.name { assert n == m; }
    }
    forall gt | gt != "" ensures Together(c, t', gt) {
      if gt == s.gpuType {
        assert RoomFor(c, m, gt, Use(t', m.name), Hold(t', gt));
      } else {
        assert Together(c, t, gt);
        if Hold(t, gt).count != 0 {
          var n :| n in c.nodes && RoomFor(c, n, gt, Use(t, n.name), Hold(t, gt));
          assert n.name != m.name;
          assert RoomFor(c, n, gt, Use(t', n.name), Hold(t', gt));
        }
      }
    }
  }

  /** A row that was not admitted, if there was one, is written as a waiting share. */
  lemma WaitKeeps(c: Cluster, t: Table, id: string, r: Row)
    requires WellFormed(c) && Bounded(c, t) && RowsOk(t) && RowsOk(t[id := r]) && (id in t ==> !Admitted(t[id]))
    requires r.phase == Provisioning && r.node == "" && r.spec.mode == Shared && SpecOk(r.spec)
    requires PlaceNow(c, t, PlaceReq(r.spec, ""))
    ensures Bounded(c, t[id := r])
  {
    hide Use, Hold, PlaceNow, Bounded, RoomFor, Capacity;
    PutUse(t, id, r);
    ReserveBounded(c, t, t[id := r], r.spec);
  }

  /** It is written as a share on a split node. */
  lemma LandKeeps(c: Cluster, t: Table, id: string, r: Row, m: LiveNode)
    requires WellFormed(c) && Bounded(c, t) && RowsOk(t) && RowsOk(t[id := r]) && (id in t ==> !Admitted(t[id]))
    requires r.phase == Provisioning && r.node == m.name != "" && r.spec.mode == Shared && SpecOk(r.spec)
    requires m in c.nodes && IsSplit(c, m) && PlaceNow(c, t, PlaceReq(r.spec, m.name))
    ensures Bounded(c, t[id := r])
  {
    hide Use, Hold, PlaceNow, Bounded, RoomFor, Capacity;
    PutUse(t, id, r);
    ClaimBounded(c, t, t[id := r], r.spec, m);
  }

  /** It is written as something that takes no share of a split node and waits for none. */
  lemma SparesKeeps(c: Cluster, t: Table, id: string, r: Row)
    requires WellFormed(c) && Bounded(c, t) && RowsOk(t[id := r]) && (id in t ==> !Admitted(t[id]))
    requires r.spec.mode == Shared ==> r.node != "" && forall m <- c.nodes :: IsSplit(c, m) ==> m.name != r.node
    ensures Bounded(c, t[id := r])
  {
    hide Use, Hold, Bounded, Capacity;
    PutUse(t, id, r);
    QuieterBounded(c, t, t[id := r]);
  }

  lemma CommitKeeps(c: Cluster, s: State)
    requires WellFormed(c) && Inv(c, s) && Enabled(c, s, Commit) && Assumed(c, s, Commit)
    ensures Inv(c, Apply(c, s, Commit))
  {
    hide Use, Hold, UsageOf, ReservedOf, CanPlace, AvailOf, Capacity, Bounded, PlaceNow;
    var t, q := s.rows, s.stage.req;
    if q.Restart? && !(q.id in t && t[q.id].phase == Stopped) {
      return;
    }
    var r := if q.NewSession? then q.row else t[q.id].(phase := Provisioning);
    if q.Restart? { assert RowOk(t[q.id]); }
    assert RowOk(r) && RowsOk(t[q.id := r]);
    if r.spec.mode == Shared && r.node == "" {
      WaitKeeps(c, t, q.id, r);
    } else if m :| r.spec.mode == Shared && m in c.nodes && IsSplit(c, m) && m.name == r.node {
      LandKeeps(c, t, q.id, r, m);
    } else {
      SparesKeeps(c, t, q.id, r);
    }
  }

  lemma ReadReservedKeeps(c: Cluster, s: State)
    requires WellFormed(c) && Inv(c, s) && Enabled(c, s, ReadReserved)
    ensures Inv(c, Apply(c, s, ReadReserved))
  {
    hide Use, Hold, UsageOf, ReservedOf, CanPlace, AvailOf, Capacity;
    UsageReads(c, s.rows);
    var r := PlaceOf(s.stage.req);
    if r.spec.mode == Shared && CanPlace(AvailOf(c.nodes, s.stage.usage), ReservedOf(c, s.rows), r) {
      GateRelaxes(c, s.stage.usage, s.rows, UsageOf(c, s.rows), s.rows, r);
    }
  }

  lemma RefreshKeeps(c: Cluster, s: State, id: string, p: Phase, node: string)
    requires WellFormed(c) && Inv(c, s)
    requires id in s.rows && Enabled(c, s, Refresh(id, p, node)) && Assumed(c, s, Refresh(id, p, node))
    ensures Inv(c, Apply(c, s, Refresh(id, p, node)))
  {
    hide Use, Hold, UsageOf, ReservedOf, CanPlace, AvailOf, Capacity, StageOk, Bounded;
    var r := s.rows[id];
    var r' := r.(phase := p, node := node);
    assert RowOk(r) && RowOk(r');
    if !OnTime(c, s, Refresh(id, p, node), r) {
      HarmlessKeeps(c, s, id, r');
    } else if r.spec.mode == Shared && p != Stopped && node != r.node {
      var m :| m in c.nodes && m.name == node && RoomFor(c, m, r.spec.gpuType, Use(s.rows, node), Ask(r.spec));
      PutUse(s.rows, id, r');
      assert forall gt :: RowHold(r, gt) == if gt == r.spec.gpuType then Ask(r.spec) else NO_USE;
      BindKeeps(c, s, s.rows[id := r'], r.spec, m);
    } else {
      RewriteKeeps(c, s, id, r');
    }
  }

  /** Every step the code may take keeps the invariant. */
  lemma StepKeeps(c: Cluster, s: State, step: Step)
    requires WellFormed(c) && Inv(c, s) && Enabled(c, s, step) && Assumed(c, s, step)
    ensures Inv(c, Apply(c, s, step))
  {
    hide Use, Hold, UsageOf, ReservedOf, CanPlace, AvailOf, Capacity;
    match step {
      case ReadUsage(q) => UsageReads(c, s.rows);
      case ReadReserved => ReadReservedKeeps(c, s);
      case Commit => CommitKeeps(c, s);
      case Refresh(id, p, node) => if id in s.rows { RefreshKeeps(c, s, id, p, node); }
      case Halt(id) =>
        if id in s.rows {
          assert RowOk(s.rows[id]);
          RewriteKeeps(c, s, id, s.rows[id].(phase := Stopped));
        }
      case Terminate(id) =>
        if id in s.rows {
          assert RowOk(s.rows[id]);
          RewriteKeeps(c, s, id, s.rows[id].(phase := Terminated));
        }
      case Respec(id, spec) => if id in s.rows { LateKeeps(c, s, id, step); }
      case Unpin(id) => if id in s.rows { LateKeeps(c, s, id, step); }
      case Remove(id) =>
        RemoveUse(s.rows, id);
        QuieterKeeps(c, s, s.(rows := s.rows - {id}));
      case _ =>
    }
  }

  /** Reconfigure's and Reallocate's writes. */
  lemma LateKeeps(c: Cluster, s: State, id: string, step: Step)
    requires WellFormed(c) && Inv(c, s) && id in s.rows && LateOk(c, s, id, step) && (step.Respec? || step.Unpin?)
    ensures Inv(c, s.(rows := s.rows[id := Rewritten(s.rows[id], step)]))
  {
    hide Accepts, Bounded, StageOk;
    assert RowOk(s.rows[id]);
    if OnTime(c, s, step, s.rows[id]) {
      RewriteKeeps(c, s, id, Rewritten(s.rows[id], step));
    } else {
      HarmlessKeeps(c, s, id, Rewritten(s.rows[id], step));
    }
  }

  lemma HarmlessKeeps(c: Cluster, s: State, id: string, r': Row)
    requires WellFormed(c) && Inv(c, s) && RowOk(r') && Harmless(c, s, id, r')
    ensures Inv(c, s.(rows := s.rows[id := r']))
  {
    RowWriteExactly(c, s.rows, id, r');
  }

  lemma {:induction false} RunKeeps(c: Cluster, s: State, steps: seq<Step>)
    requires WellFormed(c) && Inv(c, s) && Legal(c, Assumed, s, steps)
    ensures Inv(c, Exec(c, s, steps))
    decreases |steps|
  {
    if steps != [] {
      StepKeeps(c, s, steps[0]);
      RunKeeps(c, Apply(c, s, steps[0]), steps[1..]);
    }
  }

  // ----- what the invariant means

  lemma EmptyInv(c: Cluster)
    ensures Inv(c, EMPTY)
  {
    forall n | n in c.nodes && IsSplit(c, n) ensures Le(Use(map[], n.name), Capacity(c, n)) {
      SlotsNonNeg(n, Usage(map[], map[], {}, {}, c.split));
    }
  }

  /**
   No hidden queue, over every run from the empty table: while shared sessions of a type wait for a
   node, one node of the type has VRAM, cores and slots for all of them together, and no split node
   is used beyond its totals.
   */
  lemma NoHiddenQueue(c: Cluster, steps: seq<Step>, gt: string)
    requires WellFormed(c) && Legal(c, Assumed, EMPTY, steps) && gt != ""
    ensures var t := Exec(c, EMPTY, steps).rows;
            && (Hold(t, gt).count > 0 ==> exists n <- c.nodes :: RoomFor(c, n, gt, Use(t, n.name), Hold(t, gt)))
            && (forall n <- c.nodes :: IsSplit(c, n) ==> Le(Use(t, n.name), Capacity(c, n)))
  {
    hide Use, Hold, Capacity;
    EmptyInv(c);
    RunKeeps(c, EMPTY, steps);
    assert Together(c, Exec(c, EMPTY, steps).rows, gt);
  }

  /** A node the Pod may go to fits it; pin is the hostname the Pod requires, "" for none. */
  ghost predicate CanSeat(c: Cluster, t: Table, s: Spec, pin: string) {
    exists n <- c.nodes :: (pin == "" || n.name == pin) && FitsOn(c, t, s, n.name)
  }

  /**
   In every reachable state, each waiting session can be seated exactly when its Pod requires no hostname
   or the one it requires fits it: the gate asked for any node. And whatever fitting node the scheduler
   picks for one, the table it leaves is again one where all that still wait fit together.
   */
  lemma AnyPickLeavesRoom(c: Cluster, steps: seq<Step>, id: string, pin: string, node: string)
    requires WellFormed(c) && Legal(c, Assumed, EMPTY, steps)
    requires var t := Exec(c, EMPTY, steps).rows; id in t && Floating(t[id]) && t[id].spec.mode == Shared
    ensures var t := Exec(c, EMPTY, steps).rows;
            CanSeat(c, t, t[id].spec, pin) <==> pin == "" || FitsOn(c, t, t[id].spec, pin)
    ensures var t := Exec(c, EMPTY, steps).rows;
            node != "" && FitsOn(c, t, t[id].spec, node) ==>
              forall gt :: gt != "" ==> Together(c, UpdateLiveOf(t, id, Running, node), gt)
  {
    hide Use, Hold, Capacity, CanPlace, AvailOf, UsageOf, ReservedOf;
    var s := Exec(c, EMPTY, steps);
    var t := s.rows;
    var spec := t[id].spec;
    EmptyInv(c);
    RunKeeps(c, EMPTY, steps);
    HoldAtLeast(t, id);
    assert Together(c, t, spec.gpuType);
    var n :| n in c.nodes && RoomFor(c, n, spec.gpuType, Use(t, n.name), Hold(t, spec.gpuType));
    assert RoomFor(c, n, spec.gpuType, Use(t, n.name), Ask(spec));
    assert FitsOn(c, t, spec, n.name);
    if node != "" && FitsOn(c, t, spec, node) {
      RefreshKeeps(c, State(t, Idle), id, Running, node);
    }
  }

  lemma HoldAtLeast(t: Table, id: string)
    requires RowsOk(t) && id in t && SharedFloating(t[id], t[id].spec.gpuType)
    ensures Le(Ask(t[id].spec), Hold(t, t[id].spec.gpuType))
  {
    var gt := t[id].spec.gpuType;
    forall k | k in t
      ensures 0 <= Weight(FloatVram(gt), t[k]) && 0 <= Weight(FloatCores(gt), t[k]) && 0 <= Weight(FloatTasks(gt), t[k])
    {
      assert RowOk(t[k]);
    }
    TotalAtLeast(FloatVram(gt), t);
    TotalAtLeast(FloatCores(gt), t);
    TotalAtLeast(FloatTasks(gt), t);
    assert Weight(FloatVram(gt), t[id]) == t[id].spec.vramMB;
    assert Weight(FloatCores(gt), t[id]) == t[id].spec.corePercent;
    assert Weight(FloatTasks(gt), t[id]) == 1;
  }

  /** At the insert or the claim, the gate taken at that one instant would say yes as well. */
  lemma SplitReadIsConservative(c: Cluster, steps: seq<Step>)
    requires WellFormed(c) && Legal(c, Assumed, EMPTY, steps)
    requires var s := Exec(c, EMPTY, steps); s.stage.Cleared? && PlaceOf(s.stage.req).spec.mode == Shared
    ensures var s := Exec(c, EMPTY, steps); PlaceNow(c, s.rows, PlaceOf(s.stage.req))
  {
    hide Use, Hold, Capacity, CanPlace, AvailOf, UsageOf, ReservedOf, Bounded;
    EmptyInv(c);
    RunKeeps(c, EMPTY, steps);
  }

  /**
   Any single write, an insert or a rewrite of any kind, keeps the promise if and only if the table has
   the room for it.
   */
  lemma RowWriteExactly(c: Cluster, t: Table, id: string, r: Row)
    ensures Bounded(c, t[id := r]) <==> Accepts(c, t, id, r)
  {
    hide Use, Hold, Capacity;
    PutUse(t, id, r);
    var t' := t[id := r];
    forall node: string ensures Use(t', node) == UseAfter(t, id, r, node) { }
    forall gt: string ensures Hold(t', gt) == HoldAfter(t, id, r, gt) { }
    hide UseAfter, HoldAfter;
    forall gt | gt != ""
      ensures Together(c, t', gt) <==>
              || HoldAfter(t, id, r, gt).count == 0
              || exists n <- c.nodes :: RoomFor(c, n, gt, UseAfter(t, id, r, n.name), HoldAfter(t, id, r, gt))
    {
      forall n: LiveNode
        ensures RoomFor(c, n, gt, Use(t', n.name), Hold(t', gt)) <==>
                RoomFor(c, n, gt, UseAfter(t, id, r, n.name), HoldAfter(t, id, r, gt)) { }
    }
  }

  /** This use of a node is within its totals, and those who wait for its type still have a node together. */
  ghost predicate RoomAt(c: Cluster, t: Table, node: string, use: ShareUse) {
    forall m <- c.nodes :: m.name == node && IsSplit(c, m) ==>
      && Le(use, Capacity(c, m))
      && (m.gpuType != "" && Hold(t, m.gpuType).count != 0 ==>
            exists n <- c.nodes ::
              RoomFor(c, n, m.gpuType, if n.name == node then use else Use(t, n.name), Hold(t, m.gpuType)))
  }

  /** A write that changes the use of one node, and no one's waiting. */
  lemma WriteAtNode(c: Cluster, t: Table, id: string, r: Row, node: string, use: ShareUse)
    requires WellFormed(c) && Bounded(c, t)
    requires forall n <- c.nodes :: UseAfter(t, id, r, n.name) == if n.name == node then use else Use(t, n.name)
    requires forall gt :: HoldAfter(t, id, r, gt) == Hold(t, gt)
    ensures Bounded(c, t[id := r]) <==> RoomAt(c, t, node, use)
  {
    hide Use, Hold, Capacity, UseAfter, HoldAfter;
    RowWriteExactly(c, t, id, r);
    forall gt | gt != "" && Hold(t, gt).count != 0
                && (forall m <- c.nodes :: m.name == node && IsSplit(c, m) ==> m.gpuType != gt)
      ensures exists n <- c.nodes :: RoomFor(c, n, gt, UseAfter(t, id, r, n.name), HoldAfter(t, id, r, gt))
    {
      assert Together(c, t, gt);
      var n :| n in c.nodes && RoomFor(c, n, gt, Use(t, n.name), Hold(t, gt));
      assert n.name != node;
      assert RoomFor(c, n, gt, UseAfter(t, id, r, n.name), HoldAfter(t, id, r, gt));
    }
  }

  /** A write that changes who waits for one type, or takes away from another, and no node's use. */
  lemma WriteWaiting(c: Cluster, t: Table, id: string, r: Row, gt: string)
    requires WellFormed(c) && Bounded(c, t) && RowsOk(t) && RowsOk(t[id := r]) && gt != ""
    requires forall n <- c.nodes :: UseAfter(t, id, r, n.name) == Use(t, n.name)
    requires forall g :: g != gt ==> Le(HoldAfter(t, id, r, g), Hold(t, g))
    requires HoldAfter(t, id, r, gt).count != 0
    ensures Bounded(c, t[id := r]) <==>
            exists n <- c.nodes :: RoomFor(c, n, gt, Use(t, n.name), HoldAfter(t, id, r, gt))
  {
    RowWriteExactly(c, t, id, r);
    hide Use, Hold, Capacity;
    PutUse(t, id, r);
    forall g: string ensures Le(NO_USE, HoldAfter(t, id, r, g)) { HoldNonNeg(t[id := r], g); }
    hide UseAfter, HoldAfter;
    forall n: LiveNode | n in c.nodes
      ensures RoomFor(c, n, gt, UseAfter(t, id, r, n.name), HoldAfter(t, id, r, gt)) <==>
              RoomFor(c, n, gt, Use(t, n.name), HoldAfter(t, id, r, gt)) { }
    forall g | g != "" && g != gt && HoldAfter(t, id, r, g).count != 0
      ensures exists n <- c.nodes :: RoomFor(c, n, g, UseAfter(t, id, r, n.name), HoldAfter(t, id, r, g))
    {
      assert Together(c, t, g);
      var n :| n in c.nodes && RoomFor(c, n, g, Use(t, n.name), Hold(t, g));
      assert RoomFor(c, n, g, UseAfter(t, id, r, n.name), HoldAfter(t, id, r, g));
    }
  }

  /**
   Exactly when a copy of a Pod's state that comes after the stop is harmless: the node it names is not
   split or has the room, and those who wait for the node's type still have a node together. A copy that
   names no node makes the session one of those who wait.
   */
  lemma StaleRefreshExactly(c: Cluster, t: Table, id: string, p: Phase, node: string)
    requires WellFormed(c) && Bounded(c, t) && RowsOk(t) && id in t && !Admitted(t[id])
    requires (p == Provisioning || p == Running) && t[id].spec.mode == Shared
    ensures var s, gt := t[id].spec, t[id].spec.gpuType;
            Bounded(c, UpdateLiveOf(t, id, p, node)) <==>
            if node != "" then RoomAt(c, t, node, Plus(Use(t, node), Ask(s)))
            else p == Running ||
                 exists n <- c.nodes :: RoomFor(c, n, gt, Use(t, n.name), Plus(Hold(t, gt), Ask(s)))
  {
    hide Use, Hold, Capacity;
    var r := t[id];
    var r' := r.(phase := p, node := node);
    assert RowOk(r);
    if node != "" || p == Running {
      forall n: LiveNode
        ensures UseAfter(t, id, r', n.name) ==
                if node != "" && n.name == node then Plus(Use(t, n.name), Ask(r.spec)) else Use(t, n.name)
      {
      }
      forall gt ensures HoldAfter(t, id, r', gt) == Hold(t, gt) {
      }
      if node != "" {
        WriteAtNode(c, t, id, r', node, Plus(Use(t, node), Ask(r.spec)));
      } else {
        WriteNothing(c, t, id, r');
      }
    } else {
      var gt := r.spec.gpuType;
      HoldNonNeg(t, gt);
      assert HoldAfter(t, id, r', gt) == Plus(Hold(t, gt), Ask(r.spec));
      WriteWaiting(c, t, id, r', gt);
    }
  }

  lemma WriteNothing(c: Cluster, t: Table, id: string, r: Row)
    requires Bounded(c, t)
    requires forall n: LiveNode :: UseAfter(t, id, r, n.name) == Use(t, n.name)
    requires forall gt :: HoldAfter(t, id, r, gt) == Hold(t, gt)
    ensures Bounded(c, t[id := r])
  {
    hide Use, Hold, Capacity, UseAfter, HoldAfter;
    RowWriteExactly(c, t, id, r);
    forall gt | gt != "" && Hold(t, gt).count != 0
      ensures exists n <- c.nodes :: RoomFor(c, n, gt, UseAfter(t, id, r, n.name), HoldAfter(t, id, r, gt))
    {
      assert Together(c, t, gt);
      var n :| n in c.nodes && RoomFor(c, n, gt, Use(t, n.name), Hold(t, gt));
      assert RoomFor(c, n, gt, UseAfter(t, id, r, n.name), HoldAfter(t, id, r, gt));
    }
  }

  /**
   Exactly when new resources that are written after the session was started again are harmless: its node
   has the room for the new share in place of the old, or, while it has none, one node has it for the new
   share and the others who wait for its type. Giving up a share is always harmless.
   */
  lemma LateSpecExactly(c: Cluster, t: Table, id: string, s: Spec)
    requires WellFormed(c) && Bounded(c, t) && RowsOk(t) && id in t && Admitted(t[id]) && SpecOk(s)
    ensures var r, r' := t[id], t[id].(spec := s);
            Bounded(c, UpdateSpecOf(t, id, s)) <==>
            if r.node != "" then
              RoomAt(c, t, r.node, Plus(Minus(Use(t, r.node), RowUse(r, r.node)), RowUse(r', r.node)))
            else s.mode != Shared ||
                 exists n <- c.nodes ::
                   RoomFor(c, n, s.gpuType, Use(t, n.name),
                           Plus(Minus(Hold(t, s.gpuType), RowHold(r, s.gpuType)), Ask(s)))
  {
    hide Use, Hold, Capacity;
    var r, r' := t[id], t[id].(spec := s);
    assert RowOk(r) && RowsOk(t[id := r']);
    forall node: string | node != r.node ensures UseAfter(t, id, r', node) == Use(t, node) {
    }
    if r.node != "" {
      forall gt ensures HoldAfter(t, id, r', gt) == Hold(t, gt) {
      }
      WriteAtNode(c, t, id, r', r.node, UseAfter(t, id, r', r.node));
    } else {
      assert UseAfter(t, id, r', "") == Use(t, "");
      if s.mode == Shared {
        HeldByOthers(t, id, s.gpuType);
        WriteWaiting(c, t, id, r', s.gpuType);
      } else {
        PutUse(t, id, r');
        assert Quieter(c, t, t[id := r']);
        QuieterBounded(c, t, t[id := r']);
      }
    }
  }

  /** What a type's waiting sessions take without one of them is not negative. */
  lemma HeldByOthers(t: Table, id: string, gt: string)
    requires RowsOk(t) && id in t
    ensures Le(NO_USE, Minus(Hold(t, gt), RowHold(t[id], gt)))
  {
    hide Hold;
    var gone := t[id := t[id].(phase := Stopped)];
    assert RowOk(t[id]) && RowsOk(gone);
    PutUse(t, id, t[id].(phase := Stopped));
    HoldNonNeg(gone, gt);
    assert Hold(gone, gt) == Minus(Hold(t, gt), RowHold(t[id], gt));
  }

  // ----- late writes that break the promise

  const ONE_SPLIT := Cluster([LiveNode("n", "A", 1, 1000, "hami", true, false, 8, 8)], {"n"}, map[], map[], map[], 0)

  const WHOLE_SHARE := Spec(Shared, "A", 0, 1000, 100)

  const NO_GPU := Spec(Cpu, "", 0, 0, 0)

  function OnNode(s: Spec, p: Phase): Row { Row(0, Container, s, p, "n", None) }

  lemma UseOfTwo(a: Row, b: Row)
    ensures forall node :: Use(map["a" := a, "b" := b], node) == Plus(RowUse(a, node), RowUse(b, node))
    ensures forall gt :: Hold(map["a" := a, "b" := b], gt) == Plus(RowHold(a, gt), RowHold(b, gt))
  {
    hide Total;
    var t1 := map["a" := a];
    assert t1 == map[]["a" := a] && map["a" := a, "b" := b] == t1["b" := b];
    forall q: Query ensures Total(q, map[]) == 0 { NoWeight(q, map[]); }
    PutUse(map[], "a", a);
    PutUse(t1, "b", b);
  }

  /** A node of one whole share, taken by b, with a beside it that takes and waits for nothing. */
  lemma FullNode(a: Row)
    requires RowOk(a) && (forall node :: RowUse(a, node) == NO_USE) && forall gt :: RowHold(a, gt) == NO_USE
    ensures var t := map["a" := a, "b" := OnNode(WHOLE_SHARE, Running)];
            && WellFormed(ONE_SPLIT) && RowsOk(t) && Bounded(ONE_SPLIT, t)
            && Use(t, "n") == Ask(WHOLE_SHARE) && Hold(t, "A") == NO_USE
  {
    hide Use, Hold, WellFormed, Bounded, RowUse, RowHold;
    var b := OnNode(WHOLE_SHARE, Running);
    OneTakesAll(b);
    UseOfTwo(a, b);
    forall gt ensures Hold(map["a" := a, "b" := b], gt) == NO_USE { }
    OnceUsed(map["a" := a, "b" := b]);
  }

  lemma OneTakesAll(b: Row)
    requires b == OnNode(WHOLE_SHARE, Running)
    ensures RowUse(b, "n") == Ask(WHOLE_SHARE) && RowOk(b) && forall gt :: RowHold(b, gt) == NO_USE
  {
  }

  lemma OnceUsed(t: Table)
    requires Use(t, "n") == Ask(WHOLE_SHARE) && forall gt :: Hold(t, gt) == NO_USE
    ensures WellFormed(ONE_SPLIT) && Bounded(ONE_SPLIT, t)
  {
    hide Use, Hold;
    assert ONE_SPLIT.nodes[0] in ONE_SPLIT.nodes;
  }

  /** A node that is full has no room for another whole share, whoever waits. */
  lemma NoMoreRoom(t: Table)
    requires Use(t, "n") == Ask(WHOLE_SHARE) && Hold(t, "A") == NO_USE
    ensures var c, ask := ONE_SPLIT, Ask(WHOLE_SHARE);
            && !RoomAt(c, t, "n", Plus(Use(t, "n"), ask))
            && !exists n <- c.nodes :: RoomFor(c, n, "A", Use(t, n.name), Plus(Hold(t, "A"), ask))
  {
    hide Use, Hold;
    assert ONE_SPLIT.nodes[0] in ONE_SPLIT.nodes && IsSplit(ONE_SPLIT, ONE_SPLIT.nodes[0]);
  }

  /** A copy from before the stop brings the share back, on a node another took or into a wait that nothing ends. */
  lemma StaleRefreshCanCrowd()
    ensures var c, t := ONE_SPLIT, map["a" := OnNode(WHOLE_SHARE, Stopped), "b" := OnNode(WHOLE_SHARE, Running)];
            && WellFormed(c) && RowsOk(t) && Bounded(c, t)
            && !Bounded(c, UpdateLiveOf(t, "a", Running, "n")) && !Bounded(c, UpdateLiveOf(t, "a", Provisioning, ""))
  {
    hide Bounded, Use, Hold, RoomAt, RoomFor, WellFormed;
    var a := OnNode(WHOLE_SHARE, Stopped);
    var t := map["a" := a, "b" := OnNode(WHOLE_SHARE, Running)];
    FullNode(a);
    NoMoreRoom(t);
    StaleRefreshExactly(ONE_SPLIT, t, "a", Running, "n");
    StaleRefreshExactly(ONE_SPLIT, t, "a", Provisioning, "");
  }

  /** New resources land on a session that was started as it was, on a node another filled meanwhile. */
  lemma LateSpecCanCrowd()
    ensures var c, t := ONE_SPLIT, map["a" := OnNode(NO_GPU, Running), "b" := OnNode(WHOLE_SHARE, Running)];
            WellFormed(c) && RowsOk(t) && Bounded(c, t) && !Bounded(c, UpdateSpecOf(t, "a", WHOLE_SHARE))
  {
    hide Bounded, Use, Hold, RoomAt, WellFormed;
    var a := OnNode(NO_GPU, Running);
    var t := map["a" := a, "b" := OnNode(WHOLE_SHARE, Running)];
    FullNode(a);
    NoMoreRoom(t);
    LateSpecExactly(ONE_SPLIT, t, "a", WHOLE_SHARE);
  }

  /**
   Exactly when a shared session may lose its node and wait again: its own node carries everyone
   already waiting, or some other node carries them and it.
   */
  lemma UnbindExactly(c: Cluster, t: Table, id: string)
    requires WellFormed(c) && Bounded(c, t) && RowsOk(t)
    requires id in t && Admitted(t[id]) && t[id].spec.mode == Shared && t[id].node != ""
    ensures var s := t[id].spec;
            Bounded(c, UpdateLiveOf(t, id, Provisioning, "")) <==>
            exists n <- c.nodes :: RoomFor(c, n, s.gpuType, Use(t, n.name),
              if n.name == t[id].node then Hold(t, s.gpuType) else Plus(Hold(t, s.gpuType), Ask(s)))
  {
    hide Use, Hold, Capacity;
    var r, s, gt := t[id], t[id].spec, t[id].spec.gpuType;
    assert RowOk(r);
    var r' := r.(phase := Provisioning, node := "");
    var t' := t[id := r'];
    PutUse(t, id, r');
    assert RowsOk(t');
    HoldNonNeg(t, gt);
    assert Hold(t', gt) == Plus(Hold(t, gt), Ask(s));
    forall n: LiveNode
      ensures RoomFor(c, n, gt, Use(t', n.name), Hold(t', gt)) <==>
              RoomFor(c, n, gt, Use(t, n.name), if n.name == r.node then Hold(t, gt) else Plus(Hold(t, gt), Ask(s)))
    {
      assert Use(t', n.name) == if n.name == r.node then Minus(Use(t, n.name), Ask(s)) else Use(t, n.name);
    }
    forall gt' | gt' != gt && gt' != "" ensures Together(c, t', gt') {
      assert Together(c, t, gt');
      assert Hold(t', gt') == Hold(t, gt');
      if Hold(t, gt').count != 0 {
        var n :| n in c.nodes && RoomFor(c, n, gt', Use(t, n.name), Hold(t, gt'));
        assert RoomFor(c, n, gt', Use(t', n.name), Hold(t', gt'));
      }
    }
    if Together(c, t', gt) {
      var n :| n in c.nodes && RoomFor(c, n, gt, Use(t', n.name), Hold(t', gt));
    }
  }
}
