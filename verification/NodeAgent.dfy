/**
 The node agent's lease reconciler (backend/internal/nodeagent/agent.go): it provisions new leases and
 deprovisions stale ones, remembers what it applied, and touches nothing else.
 */
module NodeAgent {
  import opened Options

  datatype Lease = Lease(leaseID: int, username: string)

  /** One pass: the leases fetched, None when the fetch failed, and the leases whose executor call fails. */
  datatype Pass = Pass(leases: Option<seq<Lease>>, provisionFails: set<int>, deprovisionFails: set<int>)

  function Active(p: Pass): set<int> {
    if p.leases.None? then {} else set l <- p.leases.value :: l.leaseID
  }

  /** The leases a pass calls the executor for. */
  function ProvisionCalls(applied: map<int, string>, p: Pass): set<int> {
    if p.leases.None? then {} else Active(p) - applied.Keys
  }

  function DeprovisionCalls(applied: map<int, string>, p: Pass): set<int> {
    if p.leases.None? then {} else applied.Keys - Active(p)
  }

  /**
   What is applied after a pass, by id: the active leases that were applied or are provisioned now, and the
   stale ones whose cleanup fails.
   */
  function Remaining(ids: set<int>, p: Pass): set<int> {
    if p.leases.None? then ids
    else ids * Active(p) + (Active(p) - ids - p.provisionFails) + (ids - Active(p)) * p.deprovisionFails
  }

  /** Names never change while applied, and a new one is the name of a lease in the list. */
  ghost predicate NamesKept(applied: map<int, string>, applied': map<int, string>, p: Pass) {
    forall id :: id in applied' ==>
      if id in applied then applied'[id] == applied[id]
      else p.leases.Some? && Lease(id, applied'[id]) in p.leases.value
  }

  class Reconciler {
    var applied: map<int, string>

    constructor ()
      ensures applied == map[]
    {
      applied := map[];
    }

    method ReconcileOnce(p: Pass) returns (ok: bool, provisioned: set<int>, deprovisioned: set<int>)
      modifies this
      ensures ok == p.leases.Some?
      ensures applied.Keys == Remaining(old(applied).Keys, p)
      ensures NamesKept(old(applied), applied, p)
      ensures provisioned == ProvisionCalls(old(applied), p)
      ensures deprovisioned == DeprovisionCalls(old(applied), p)
      ensures forall id :: id in provisioned <==>
                id !in old(applied) && p.leases.Some? && exists l <- p.leases.value :: l.leaseID == id
      ensures forall id :: id in deprovisioned <==>
                id in old(applied) && p.leases.Some? && forall l <- p.leases.value :: l.leaseID != id
      ensures forall id :: id in applied <==>
                || (id in old(applied) && id !in deprovisioned)
                || (id in provisioned && id !in p.provisionFails)
                || (id in deprovisioned && id in p.deprovisionFails)
      ensures forall id :: id in provisioned + deprovisioned <==> Touched(old(applied).Keys, p, id)
    {
      provisioned, deprovisioned := {}, {};
      if p.leases.None? {
        return false, provisioned, deprovisioned;
      }
      ok := true;
      var ls := p.leases.value;
      var seen: set<int> := {};
      for i := 0 to |ls|
        invariant seen == set l <- ls[..i] :: l.leaseID
        invariant provisioned == seen - old(applied).Keys
        invariant applied.Keys == old(applied).Keys + (provisioned - p.provisionFails)
        invariant NamesKept(old(applied), applied, p)
      {
        var l := ls[i];
        assert ls[..i + 1] == ls[..i] + [l];
        seen := seen + {l.leaseID};
        if l.leaseID in applied {
          continue;
        }
        provisioned := provisioned + {l.leaseID};
        if l.leaseID in p.provisionFails {
          continue;
        }
        assert Lease(l.leaseID, l.username) == l && l in ls;
        applied := applied[l.leaseID := l.username];
      }
      assert ls[..|ls|] == ls;
      deprovisioned := DeprovisionStale(seen, p.deprovisionFails);
    }

    /** Walks the applied map in any order and forgets each stale lease whose cleanup succeeds. */
    method DeprovisionStale(seen: set<int>, failing: set<int>) returns (called: set<int>)
      modifies this
      ensures called == old(applied).Keys - seen
      ensures applied == map id | id in old(applied) && (id in seen || id in failing) :: old(applied)[id]
    {
      called := {};
      var rest := applied.Keys;
      while rest != {}
        invariant rest <= old(applied).Keys
        invariant called == old(applied).Keys - rest - seen
        invariant applied == map id | id in old(applied) && (id in rest || id in seen || id in failing) ::
                  old(applied)[id]
        decreases rest
      {
        assert (forall id: int :: id !in rest) ==> rest == {};
        var id :| id in rest;
        rest := rest - {id};
        if id in seen {
          continue;
        }
        called := called + {id};
        if id in failing {
          continue;
        }
        applied := applied - {id};
      }
    }
  }

  // ----- over whole histories

  /** The applied leases after a history, by id; each step is what one pass is proved to leave. */
  ghost function After(history: seq<Pass>): set<int> {
    if history == [] then {} else Remaining(After(history[..|history| - 1]), history[|history| - 1])
  }

  ghost predicate Touched(ids: set<int>, p: Pass, id: int) {
    p.leases.Some? && (id in Active(p) - ids || id in ids - Active(p))
  }

  /**
   Once a lease is applied, and as long as every list that arrives contains it, no pass calls the executor
   for it again, whatever fails in between.
   */
  lemma {:induction false} AppliedStaysUntouched(history: seq<Pass>, j: nat, k: nat, id: int)
    requires j <= k <= |history| && id in After(history[..j])
    requires forall i :: j <= i < |history| ==> history[i].leases.None? || id in Active(history[i])
    ensures id in After(history[..k])
    ensures k < |history| ==> !Touched(After(history[..k]), history[k], id)
    decreases k
  {
    if j < k {
      AppliedStaysUntouched(history, j, k - 1, id);
      assert history[..k][..k - 1] == history[..k - 1] && history[..k][k - 1] == history[k - 1];
    }
  }

  /** A pass without failures leaves exactly the active leases applied, whatever state it found. */
  lemma CleanPassConverges(history: seq<Pass>, p: Pass)
    requires p.leases.Some? && p.provisionFails !! Active(p) && p.deprovisionFails !! After(history)
    ensures After(history + [p]) == Active(p)
  {
    assert (history + [p])[..|history|] == history;
  }

  /** After it, passes on the same leases call the executor for nothing, however many and whatever fails. */
  lemma {:induction false} ThenQuiet(history: seq<Pass>, p: Pass, more: seq<Pass>, i: nat, id: int)
    requires p.leases.Some? && p.provisionFails !! Active(p) && p.deprovisionFails !! After(history)
    requires forall q <- more :: q.leases.None? || Active(q) == Active(p)
    requires i <= |more|
    ensures After(history + [p] + more[..i]) == Active(p)
    ensures i < |more| ==> !Touched(After(history + [p] + more[..i]), more[i], id)
    decreases i
  {
    var all := history + [p] + more[..i];
    if i == 0 {
      assert all == history + [p];
      CleanPassConverges(history, p);
    } else {
      ThenQuiet(history, p, more, i - 1, id);
      assert all[..|all| - 1] == history + [p] + more[..i - 1] && all[|all| - 1] == more[i - 1];
      assert more[i - 1] in more;
    }
  }
}
