/**
 Session admission as a protocol of atomic database steps (backend/internal/session/service.go).

 Admissions hold one lock, so at most one is in flight, but its reads are separate statements:
 quota, then usage, then reservations, then the insert or the claim. Everything else (the phase
 reconciler, stops, deletes, failed starts, reconfiguration, reallocation) runs without that lock and
 may fall between any two of them.
 */
module AdmissionProtocol {
  import opened Options
  import opened Inventory
  import opened SessionTable
  import opened Availability
  import opened Gate

  /** What does not change during a run: nodes, share modes, quotas (0 is unlimited) and volume use. */
  datatype Cluster = Cluster(
    nodes: seq<LiveNode>,
    hami: set<string>,
    split: map<string, int>,
    quotaGiB: map<int, int>,
    volumeGiB: map<int, int>,
    defaultHomeGiB: int)

  ghost predicate WellFormed(c: Cluster) {
    && UniqueNames(c.nodes)
    && (exists n <- c.nodes :: n.gpuCapacity != 0)
  }

  // ----- the two reads of the gate

  function NodeNames(c: Cluster): set<string> { set n <- c.nodes :: n.name }

  function GpuTypes(c: Cluster): set<string> { set n <- c.nodes :: n.gpuType }

  ghost function UsageOf(c: Cluster, t: Table): Usage {
    Usage(
      map n <- NodeNames(c) :: Total(NodeCards(n), t),
      map n <- NodeNames(c) :: ShareUse(Total(NodeVram(n), t), Total(NodeCores(n), t), Total(NodeTasks(n), t)),
      (set n <- NodeNames(c) | Total(Leases(n), t) > 0),
      c.hami,
      c.split)
  }

  ghost function ReservedOf(c: Cluster, t: Table): Reservation {
    Reservation(
      map gt <- GpuTypes(c) :: Total(FloatCards(gt), t),
      map gt <- GpuTypes(c) :: ShareUse(Total(FloatVram(gt), t), Total(FloatCores(gt), t), Total(FloatTasks(gt), t)))
  }

  /** The gate with both reads taken at the same instant. */
  ghost predicate PlaceNow(c: Cluster, t: Table, r: PlaceReq) {
    CanPlace(AvailOf(c.nodes, UsageOf(c, t)), ReservedOf(c, t), r)
  }

  ghost predicate QuotaAllows(c: Cluster, t: Table, r: Row) {
    var quota := Get(c.quotaGiB, r.userID);
    var want := if r.homeGiB.Some? then r.homeGiB.value else c.defaultHomeGiB;
    r.env == Ssh || quota <= 0 ||
    Total(HomeGiB(r.userID, c.defaultHomeGiB), t) + Get(c.volumeGiB, r.userID) + want <= quota
  }

  // ----- states and steps

  /** pin is the hostname the Pod will require, "" for none; the gate never sees it. */
  datatype Request =
    | NewSession(id: string, row: Row, pin: string)
    | Restart(id: string, spec: Spec, node: string, pin: string)

  function PlaceOf(q: Request): PlaceReq {
    match q
    case NewSession(_, r, _) => PlaceReq(r.spec, "")
    case Restart(_, s, n, _) => PlaceReq(s, n)
  }

  /** How far the admission holding the lock has come. */
  datatype Stage = Idle | Quoted(req: Request) | SawUsage(req: Request, usage: Usage) | Cleared(req: Request)

  datatype State = State(rows: Table, stage: Stage)

  datatype Step =
    | CheckQuota(req: Request)
    | ReadUsage(req: Request)
    | ReadReserved
    | Commit
    | Abort
    | Refresh(id: string, phase: Phase, node: string)
    | Halt(id: string)
    | Terminate(id: string)
    | Remove(id: string)
    | Respec(id: string, spec: Spec)
    | Unpin(id: string)
    | LeaseNode(id: string, row: Row)

  /** What a create request writes: a container reservation that no node carries. */
  predicate FreshRow(r: Row) { r.env == Container && r.phase == Provisioning && r.node == "" }

  /**
   The guards in the code at the instant of the write. Stop, unschedulable, idle and billing stops and
   failed starts are all Halt; delete, rollback and home reclaim are Remove. The reconciler, Reconfigure
   and Reallocate look at the row first and write later without looking again, so their steps Refresh,
   Respec and Unpin may find any row.
   */
  ghost predicate Enabled(c: Cluster, s: State, step: Step) {
    match step
    case CheckQuota(q) =>
      s.stage.Idle? && q.NewSession? && q.id !in s.rows && FreshRow(q.row) && QuotaAllows(c, s.rows, q.row)
    case ReadUsage(q) =>
      if q.NewSession? then s.stage == Quoted(q)
      else s.stage.Idle? && q.id in s.rows && s.rows[q.id].env == Container
    case ReadReserved => s.stage.SawUsage?
    case Commit => s.stage.Cleared? && (s.stage.req.NewSession? ==> s.stage.req.id !in s.rows)
    case Abort => true
    case Refresh(id, p, _) => (id in s.rows ==> s.rows[id].env == Container) && p != Terminated
    case Halt(_) => true
    case Terminate(_) => true
    case Remove(_) => true
    case Respec(id, _) => id in s.rows ==> s.rows[id].env == Container
    case Unpin(id) => id in s.rows ==> s.rows[id].env == Container
    case LeaseNode(id, r) => s.stage.Idle? && id !in s.rows && r.env == Ssh && r.phase == Running
  }

  ghost function Apply(c: Cluster, s: State, step: Step): State {
    match step
    case CheckQuota(q) => s.(stage := Quoted(q))
    case ReadUsage(q) => s.(stage := SawUsage(q, UsageOf(c, s.rows)))
    case ReadReserved =>
      if s.stage.SawUsage? &&
         CanPlace(AvailOf(c.nodes, s.stage.usage), ReservedOf(c, s.rows), PlaceOf(s.stage.req))
      then s.(stage := Cleared(s.stage.req)) else s.(stage := Idle)
    case Commit => if s.stage.Cleared? then State(Committed(s.rows, s.stage.req), Idle) else s
    case Abort => s.(stage := Idle)
    case Refresh(id, p, node) => s.(rows := UpdateLiveOf(s.rows, id, p, node))
    case Halt(id) => s.(rows := SetPhaseOf(s.rows, id, Stopped))
    case Terminate(id) => s.(rows := SetPhaseOf(s.rows, id, Terminated))
    case Remove(id) => s.(rows := s.rows - {id})
    case Respec(id, spec) => s.(rows := UpdateSpecOf(s.rows, id, spec))
    case Unpin(id) => s.(rows := ClearNodeOf(s.rows, id))
    case LeaseNode(id, r) => s.(rows := s.rows[id := r])
  }

  /** The write that makes an admission real: an insert, or the claim of a stopped row. */
  function Committed(t: Table, q: Request): Table {
    match q
    case NewSession(id, r, _) => t[id := r]
    case Restart(id, _, _, _) => if id in t && t[id].phase == Stopped then SetPhaseOf(t, id, Provisioning) else t
  }

  /** The row a late write of the reconciler, Reconfigure or Reallocate leaves. */
  function Rewritten(r: Row, step: Step): Row {
    match step
    case Refresh(_, p, node) => r.(phase := p, node := node)
    case Respec(_, spec) => r.(spec := spec)
    case Unpin(_) => r.(node := "")
    case _ => r
  }

  // ----- runs

  /** An assumption about the surroundings: which enabled steps they may take in which state. */
  type Surroundings = (Cluster, State, Step) -> bool

  ghost function Exec(c: Cluster, s: State, steps: seq<Step>): State
    decreases |steps|
  {
    if steps == [] then s else Exec(c, Apply(c, s, steps[0]), steps[1..])
  }

  ghost predicate Legal(c: Cluster, env: Surroundings, s: State, steps: seq<Step>)
    decreases |steps|
  {
    steps == [] ||
    (Enabled(c, s, steps[0]) && env(c, s, steps[0]) && Legal(c, env, Apply(c, s, steps[0]), steps[1..]))
  }

  const EMPTY := State(map[], Idle)

  /**
   A pinned restart was judged for the row's specification and node as they were read; nothing
   reconfigured or reallocated that very session while it held the lock.
   */
  predicate Undisturbed(s: State) {
    s.stage.Cleared? && s.stage.req.Restart? && s.stage.req.id in s.rows ==>
      var r := s.rows[s.stage.req.id];
      r.spec == s.stage.req.spec && r.node == s.stage.req.node
  }

  // ----- general facts

  lemma {:induction false} OneMoreStep(c: Cluster, env: Surroundings, s: State, steps: seq<Step>, last: Step)
    requires Legal(c, env, s, steps + [last])
    ensures Legal(c, env, s, steps) && Enabled(c, Exec(c, s, steps), last)
    ensures Exec(c, s, steps + [last]) == Apply(c, Exec(c, s, steps), last)
    decreases |steps|
  {
    hide Enabled, Apply;
    var all := steps + [last];
    if steps == [] {
      assert all == [last] && all[1..] == [];
    } else {
      assert all[1..] == steps[1..] + [last];
      OneMoreStep(c, env, Apply(c, s, steps[0]), steps[1..], last);
    }
  }

  lemma {:induction false} ViewsOf(nodes: seq<LiveNode>, u: Usage)
    ensures forall v <- Views(nodes, u) :: exists n <- nodes :: n.gpuCapacity != 0 && v == NodeView(n, u)
    ensures forall n <- nodes :: n.gpuCapacity != 0 ==> NodeView(n, u) in Views(nodes, u)
  {
    if nodes != [] {
      var init, last := nodes[..|nodes| - 1], nodes[|nodes| - 1];
      ViewsOf(init, u);
      forall n | n in nodes && n.gpuCapacity != 0 ensures NodeView(n, u) in Views(nodes, u) {
        assert n in init || n == last;
      }
      forall v | v in Views(nodes, u) ensures exists n <- nodes :: n.gpuCapacity != 0 && v == NodeView(n, u) {
        if v in Views(init, u) {
          var n :| n in init && n.gpuCapacity != 0 && v == NodeView(n, u);
          assert n in nodes;
        } else {
          assert last in nodes && v == NodeView(last, u);
        }
      }
    }
  }

  lemma BoxOfNode(nodes: seq<LiveNode>, u: Usage, n: LiveNode)
    requires UniqueNames(nodes) && n in nodes && n.gpuCapacity != 0
    ensures FirstBox(Views(nodes, u), n.name) == Some(NodeView(n, u))
  {
    ViewsOf(nodes, u);
    FirstBoxFound(Views(nodes, u), n.name);
    assert NodeView(n, u) in Views(nodes, u);
    var v := FirstBox(Views(nodes, u), n.name).value;
    var m :| m in nodes && m.gpuCapacity != 0 && v == NodeView(m, u);
    assert m == n;
  }

  lemma GateIsOn(c: Cluster, u: Usage)
    requires WellFormed(c)
    ensures AvailOf(c.nodes, u).byNode != []
  {
    ViewsOf(c.nodes, u);
  }
}
