/**
 The `sessions` table: its rows, the aggregate queries the capacity gate and the quota check run
 over it, and the conditional updates of the repository.

 Every aggregate the code asks the database for is a sum over rows of a per-row weight, so one
 recursive definition (Total) and two laws about it (TotalRemove, TotalPut) serve them all.
 */
module SessionTable {
  import opened Options

  datatype Mode = Cpu | Shared | Exclusive | Timeslice
  datatype Phase = Provisioning | Running | Stopped | Terminated
  datatype Env = Container | Ssh

  datatype Spec = Spec(mode: Mode, gpuType: string, gpuCount: int, vramMB: int, corePercent: int)

  /** node is "" until the reconciler has seen the Pod on a node; it survives a stop. */
  datatype Row = Row(userID: int, env: Env, spec: Spec, phase: Phase, node: string, homeGiB: Option<int>)

  type Table = map<string, Row>

  /** A row that occupies a seat: its Pod exists or is about to. */
  predicate Admitted(r: Row) { r.phase == Provisioning || r.phase == Running }

  /** A reservation that no node carries yet. */
  predicate Floating(r: Row) {
    r.phase == Provisioning && r.node == "" && r.spec.mode != Cpu && r.spec.gpuType != ""
  }

  /** The cards a placed session takes from its node; a shared session is counted as one. */
  function Cards(s: Spec): int {
    match s.mode
    case Exclusive => Max(s.gpuCount, 1)
    case Cpu => 0
    case _ => 1
  }

  datatype Query =
    | NodeCards(node: string)
    | NodeVram(node: string)
    | NodeCores(node: string)
    | NodeTasks(node: string)
    | Leases(node: string)
    | FloatCards(gpuType: string)
    | FloatVram(gpuType: string)
    | FloatCores(gpuType: string)
    | FloatTasks(gpuType: string)
    | HomeGiB(userID: int, default: int)

  predicate SharedOn(r: Row, node: string) {
    Admitted(r) && r.spec.mode == Shared && r.node == node && node != ""
  }

  predicate SharedFloating(r: Row, gpuType: string) {
    Floating(r) && r.spec.mode == Shared && r.spec.gpuType == gpuType
  }

  /** What one row adds to a query's sum. */
  function Weight(q: Query, r: Row): int {
    match q
    case NodeCards(n) => if Admitted(r) && r.node == n && n != "" then Cards(r.spec) else 0
    case NodeVram(n) => if SharedOn(r, n) then r.spec.vramMB else 0
    case NodeCores(n) => if SharedOn(r, n) then r.spec.corePercent else 0
    case NodeTasks(n) => if SharedOn(r, n) then 1 else 0
    case Leases(n) => if r.env == Ssh && Admitted(r) && r.node == n && n != "" then 1 else 0
    case FloatCards(t) =>
      if Floating(r) && r.spec.mode != Shared && r.spec.gpuType == t then Max(r.spec.gpuCount, 1) else 0
    case FloatVram(t) => if SharedFloating(r, t) then r.spec.vramMB else 0
    case FloatCores(t) => if SharedFloating(r, t) then r.spec.corePercent else 0
    case FloatTasks(t) => if SharedFloating(r, t) then 1 else 0
    case HomeGiB(u, d) =>
      if r.userID == u && r.env != Ssh then (if r.homeGiB.Some? then r.homeGiB.value else d) else 0
  }

  ghost function Pick(t: Table): (k: string)
    requires t != map[]
    ensures k in t
  {
    var k :| k in t; k
  }

  ghost function Total(q: Query, t: Table): int
    decreases |t|
  {
    if t == map[] then 0
    else
      var k := Pick(t);
      assert (t - {k}).Keys == t.Keys - {k};
      Weight(q, t[k]) + Total(q, t - {k})
  }

  /** Any row can be taken out first: the sum does not depend on the order rows are visited in. */
  lemma {:induction false} TotalRemove(q: Query, t: Table, k: string)
    requires k in t
    ensures Total(q, t) == Weight(q, t[k]) + Total(q, t - {k})
    decreases |t|
  {
    var p := Pick(t);
    if p != k {
      assert (t - {p}).Keys == t.Keys - {p};
      assert (t - {k}).Keys == t.Keys - {k};
      TotalRemove(q, t - {p}, k);
      TotalRemove(q, t - {k}, p);
      assert t - {p} - {k} == t - {k} - {p};
    }
  }

  /** Writing one row changes a sum by that row's weight alone. */
  lemma TotalPut(q: Query, t: Table, k: string, r: Row)
    ensures Total(q, t[k := r]) == Total(q, t) - (if k in t then Weight(q, t[k]) else 0) + Weight(q, r)
  {
    TotalRemove(q, t[k := r], k);
    assert t[k := r] - {k} == t - {k};
    if k in t {
      TotalRemove(q, t, k);
    } else {
      assert t - {k} == t;
    }
  }

  /** A row never weighs more than the sum it belongs to, when weights are not negative. */
  lemma {:induction false} TotalAtLeast(q: Query, t: Table)
    requires forall k :: k in t ==> 0 <= Weight(q, t[k])
    ensures 0 <= Total(q, t)
    ensures forall k :: k in t ==> Weight(q, t[k]) <= Total(q, t)
    decreases |t|
  {
    if t != map[] {
      var p := Pick(t);
      assert (t - {p}).Keys == t.Keys - {p};
      TotalAtLeast(q, t - {p});
      forall k | k in t ensures Weight(q, t[k]) <= Total(q, t) {
        assert k == p || k in t - {p};
      }
    }
  }

  lemma {:induction false} NoWeight(q: Query, t: Table)
    requires forall id :: id in t ==> Weight(q, t[id]) == 0
    ensures Total(q, t) == 0
    decreases |t|
  {
    if t != map[] {
      var k := Pick(t);
      assert (t - {k}).Keys == t.Keys - {k};
      NoWeight(q, t - {k});
    }
  }

  // ----- the repository

  function SetPhaseOf(t: Table, id: string, p: Phase): Table {
    if id in t then t[id := t[id].(phase := p)] else t
  }

  function UpdateLiveOf(t: Table, id: string, p: Phase, node: string): Table {
    if id in t then t[id := t[id].(phase := p, node := node)] else t
  }

  function UpdateSpecOf(t: Table, id: string, s: Spec): Table {
    if id in t then t[id := t[id].(spec := s)] else t
  }

  function ClearNodeOf(t: Table, id: string): Table {
    if id in t then t[id := t[id].(node := "")] else t
  }

  class Repo {
    var rows: Table

    constructor ()
      ensures rows == map[]
    {
      rows := map[];
    }

    /** Insert; the unique key on instance_id makes a second insert fail. */
    method Create(id: string, r: Row) returns (ok: bool)
      modifies this
      ensures ok == (id !in old(rows))
      ensures rows == if ok then old(rows)[id := r] else old(rows)
    {
      ok := id !in rows;
      if ok {
        rows := rows[id := r];
      }
    }

    method SetPhase(id: string, p: Phase)
      modifies this
      ensures rows == SetPhaseOf(old(rows), id, p)
      ensures rows == if id in old(rows) then old(rows)[id := old(rows)[id].(phase := p)] else old(rows)
    {
      if id in rows {
        rows := rows[id := rows[id].(phase := p)];
      }
    }

    method UpdateLive(id: string, p: Phase, node: string)
      modifies this
      ensures rows == UpdateLiveOf(old(rows), id, p, node)
      ensures rows == if id in old(rows) then old(rows)[id := old(rows)[id].(phase := p, node := node)] else old(rows)
    {
      if id in rows {
        rows := rows[id := rows[id].(phase := p, node := node)];
      }
    }

    method UpdateSpec(id: string, s: Spec)
      modifies this
      ensures rows == UpdateSpecOf(old(rows), id, s)
      ensures rows == if id in old(rows) then old(rows)[id := old(rows)[id].(spec := s)] else old(rows)
    {
      if id in rows {
        rows := rows[id := rows[id].(spec := s)];
      }
    }

    method ClearNode(id: string)
      modifies this
      ensures rows == ClearNodeOf(old(rows), id)
      ensures rows == if id in old(rows) then old(rows)[id := old(rows)[id].(node := "")] else old(rows)
    {
      if id in rows {
        rows := rows[id := rows[id].(node := "")];
      }
    }

    /** The compare-and-set from stopped to provisioning: only one caller can win it. */
    method ClaimForStart(id: string) returns (ok: bool)
      modifies this
      ensures ok == (id in old(rows) && old(rows)[id].phase == Stopped)
      ensures rows == if ok then old(rows)[id := old(rows)[id].(phase := Provisioning)] else old(rows)
    {
      ok := id in rows && rows[id].phase == Stopped;
      if ok {
        rows := rows[id := rows[id].(phase := Provisioning)];
      }
    }

    method Delete(id: string)
      modifies this
      ensures rows == old(rows) - {id}
    {
      rows := rows - {id};
    }

    /** A database aggregate: the sum of one weight over all rows. */
    method Sum(q: Query) returns (n: int)
      ensures n == Total(q, rows)
    {
      n := 0;
      var rest := rows;
      while rest != map[]
        invariant n + Total(q, rest) == Total(q, rows)
        decreases |rest|
      {
        var k :| k in rest;
        TotalRemove(q, rest, k);
        n := n + Weight(q, rest[k]);
        assert (rest - {k}).Keys == rest.Keys - {k};
        rest := rest - {k};
      }
    }
  }
}
