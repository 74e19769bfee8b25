/**
 A node under a physical lease is as good as gone for the capacity gate, split or not
 (backend/internal/resource/availability.go).
 */
module LeasedNodes {
  import opened Options
  import opened Inventory
  import opened SessionTable
  import opened Availability
  import opened Gate
  import opened AdmissionProtocol
  import Counters

  /** A physical session that is starting or running holds the node. */
  ghost predicate Leased(t: Table, node: string) {
    exists id :: id in t && t[id].env == Ssh && t[id].node == node && node != ""
                 && (t[id].phase == Provisioning || t[id].phase == Running)
  }

  /** Nothing on a leased node is free, neither cards nor shares. */
  lemma NothingFree(n: LiveNode, u: Usage)
    requires n.name in u.physical
    ensures NodeView(n, u) == NodeAvail(n.name, n.gpuType, n.gpuCapacity, 0, false, 0, 0, 0, 0, 0, 0)
  {
  }

  /** No GPU request pinned to a leased node passes the gate. */
  lemma RefusedWhereLeased(c: Cluster, t: Table, s: Spec, n: LiveNode)
    requires WellFormed(c) && n in c.nodes && n.gpuCapacity != 0 && Leased(t, n.name)
    requires (s.mode == Exclusive || s.mode == Shared) && s.gpuType != ""
    ensures !PlaceNow(c, t, PlaceReq(s, n.name))
  {
    var u := UsageOf(c, t);
    Counters.LeasedIff(c, t, n);
    NothingFree(n, u);
    GateIsOn(c, u);
    BoxOfNode(c.nodes, u, n);
    ReservationsNonNeg(c, t, s.gpuType);
    BareBoxRefuses(AvailOf(c.nodes, u), ReservedOf(c, t), PlaceReq(s, n.name), NodeView(n, u));
  }

  lemma ReservationsNonNeg(c: Cluster, t: Table, gt: string)
    ensures 0 <= Get(ReservedOf(c, t).cards, gt)
  {
    hide Total;
    if gt in GpuTypes(c) {
      Counters.ReadsOf(c, t);
      TotalAtLeast(FloatCards(gt), t);
    }
  }

  lemma BareBoxRefuses(av: Avail, res: Reservation, r: PlaceReq, v: NodeAvail)
    requires av.byNode != [] && FirstBox(av.byNode, r.node) == Some(v) && r.node != ""
    requires v.gpuFree == 0 && !v.fractional
    requires (r.spec.mode == Exclusive || r.spec.mode == Shared) && r.spec.gpuType != ""
    requires 0 <= Get(res.cards, r.spec.gpuType)
    ensures !CanPlace(av, res, r)
  {
    hide FirstBox, FitsShared;
  }

  // ----- the rest of the cluster

  lemma {:induction false} ViewsAppend(a: seq<LiveNode>, b: seq<LiveNode>, u: Usage)
    ensures Views(a + b, u) == Views(a, u) + Views(b, u)
  {
    if b == [] {
      assert a + b == a;
    } else {
      assert (a + b)[..|a + b| - 1] == a + b[..|b| - 1];
      ViewsAppend(a, b[..|b| - 1], u);
    }
  }

  lemma {:induction false} SumAppend(m: Measure, gt: string, a: seq<NodeAvail>, b: seq<NodeAvail>)
    ensures SumOf(m, gt, a + b) == SumOf(m, gt, a) + SumOf(m, gt, b)
  {
    if b == [] {
      assert a + b == a;
    } else {
      assert (a + b)[..|a + b| - 1] == a + b[..|b| - 1];
      SumAppend(m, gt, a, b[..|b| - 1]);
    }
  }

  lemma {:induction false} SameViews(nodes: seq<LiveNode>, u: Usage, u': Usage)
    requires forall n <- nodes :: NodeView(n, u) == NodeView(n, u')
    ensures Views(nodes, u) == Views(nodes, u')
  {
    hide NodeView;
    if nodes != [] {
      assert nodes[|nodes| - 1] in nodes && forall n <- nodes[..|nodes| - 1] :: n in nodes;
      SameViews(nodes[..|nodes| - 1], u, u');
    }
  }

  /** The other nodes' boxes are read alike with the node in the inventory and without it. */
  lemma OthersSeenAlike(c: Cluster, c': Cluster, t: Table, n: LiveNode)
    requires n in c'.nodes && n in c.nodes && c.hami == c'.hami && c.split == c'.split
    ensures NodeView(n, UsageOf(c, t)) == NodeView(n, UsageOf(c', t))
  {
    Counters.ReadsOf(c, t);
    Counters.ReadsOf(c', t);
    Counters.LeasedIff(c, t, n);
    Counters.LeasedIff(c', t, n);
    hide Total;
  }

  /** With the leased node in it, the per-node view is that of the others and one box that gives nothing. */
  lemma ViewsWithout(c: Cluster, t: Table, a: seq<LiveNode>, n: LiveNode, b: seq<LiveNode>)
    requires c.nodes == a + [n] + b && n.gpuCapacity != 0 && Leased(t, n.name)
    ensures var u, u', c' := UsageOf(c, t), UsageOf(c.(nodes := a + b), t), c.(nodes := a + b);
            && Views(c.nodes, u) == Views(a, u') + [NodeView(n, u)] + Views(b, u')
            && Views(c'.nodes, u') == Views(a, u') + Views(b, u')
  {
    var c' := c.(nodes := a + b);
    var u, u' := UsageOf(c, t), UsageOf(c', t);
    forall m | m in a + b ensures NodeView(m, u) == NodeView(m, u') {
      assert m in c.nodes;
      OthersSeenAlike(c, c', t, m);
    }
    hide UsageOf, NodeView;
    assert forall m <- a :: m in a + b;
    assert forall m <- b :: m in a + b;
    SameViews(a, u, u');
    SameViews(b, u, u');
    ViewsAppend(a, b, u');
    ViewsAppend(a + [n], b, u);
    ViewsAppend(a, [n], u);
    assert [n][..|[n]| - 1] == [];
  }

  /**
   Cluster-wide, the gate answers every request as it would with the leased node taken out of the inventory,
   as long as another node with GPUs is left.
   */
  lemma LeasedIsAsAbsent(c: Cluster, t: Table, s: Spec, a: seq<LiveNode>, n: LiveNode, b: seq<LiveNode>)
    requires c.nodes == a + [n] + b && n.gpuCapacity != 0 && Leased(t, n.name)
    requires exists m <- a + b :: m.gpuCapacity != 0
    ensures PlaceNow(c, t, PlaceReq(s, "")) <==> PlaceNow(c.(nodes := a + b), t, PlaceReq(s, ""))
  {
    var c' := c.(nodes := a + b);
    var u, u', gt := UsageOf(c, t), UsageOf(c', t), s.gpuType;
    var vs, vs' := Views(c.nodes, u), Views(c'.nodes, u');
    ViewsWithout(c, t, a, n, b);
    SomeView(c'.nodes, u');
    assert n in c.nodes;
    Counters.LeasedIff(c, t, n);
    NothingFree(n, u);
    var v := NodeView(n, u);
    hide SumOf, Views, NodeView, UsageOf, PlaceNow;
    BareBoxAdds(WholeFree, gt, Views(a, u'), v, Views(b, u'));
    BareBoxAdds(SlotsFree, gt, Views(a, u'), v, Views(b, u'));
    AnswersAlike(c, c', t, s, vs, vs', v);
  }

  lemma SomeView(nodes: seq<LiveNode>, u: Usage)
    requires exists m <- nodes :: m.gpuCapacity != 0
    ensures Views(nodes, u) != []
  {
    ViewsOf(nodes, u);
  }

  lemma BareBoxAdds(m: Measure, gt: string, a: seq<NodeAvail>, v: NodeAvail, b: seq<NodeAvail>)
    requires (m == WholeFree || m == SlotsFree) && v.gpuFree == 0 && !v.fractional
    ensures SumOf(m, gt, a + [v] + b) == SumOf(m, gt, a + b)
    ensures (forall w <- a + [v] + b :: w in a + b || w == v) && (forall w <- a + b :: w in a + [v] + b)
  {
    SumAppend(m, gt, a + [v], b);
    SumGrow(m, gt, a, v);
    SumAppend(m, gt, a, b);
  }

  /** Two per-node views that differ by a box giving nothing lead the gate to one answer. */
  lemma AnswersAlike(c: Cluster, c': Cluster, t: Table, s: Spec, vs: seq<NodeAvail>, vs': seq<NodeAvail>, v: NodeAvail)
    requires vs == Views(c.nodes, UsageOf(c, t)) && vs' == Views(c'.nodes, UsageOf(c', t))
    requires vs != [] && vs' != [] && (forall w <- vs :: w in vs' || w == v) && (forall w <- vs' :: w in vs)
    requires v.gpuFree == 0 && !v.fractional
    requires SumOf(WholeFree, s.gpuType, vs) == SumOf(WholeFree, s.gpuType, vs')
    requires SumOf(SlotsFree, s.gpuType, vs) == SumOf(SlotsFree, s.gpuType, vs')
    ensures PlaceNow(c, t, PlaceReq(s, "")) <==> PlaceNow(c', t, PlaceReq(s, ""))
  {
    hide Views, UsageOf, ReservedOf, FitsShared, FreeUnits, SumOf, CanPlace, AvailOf;
    var gt, res, res' := s.gpuType, ReservedOf(c, t), ReservedOf(c', t);
    TypesListed(c, UsageOf(c, t), gt);
    TypesListed(c', UsageOf(c', t), gt);
    ReservationsNonNeg(c, t, gt);
    ReservationsNonNeg(c', t, gt);
    if gt in TypesIn(vs') {
      assert gt in TypesIn(vs);
      SameHolds(c, c', t, gt);
    }
    AnswerInNumbers(c.nodes, UsageOf(c, t), res, s);
    AnswerInNumbers(c'.nodes, UsageOf(c', t), res', s);
    if gt !in TypesIn(vs') {
      SumAbsentType(WholeFree, gt, vs');
      SumAbsentType(SlotsFree, gt, vs');
    }
    SomeFit(vs, vs', v, s, ShareOf(res.shared, gt), ShareOf(res'.shared, gt));
  }

  lemma SameHolds(c: Cluster, c': Cluster, t: Table, gt: string)
    requires gt in GpuTypes(c) && gt in GpuTypes(c')
    ensures Get(ReservedOf(c, t).cards, gt) == Get(ReservedOf(c', t).cards, gt)
    ensures ShareOf(ReservedOf(c, t).shared, gt) == ShareOf(ReservedOf(c', t).shared, gt)
  {
    Counters.ReadsOf(c, t);
    Counters.ReadsOf(c', t);
    hide ReservedOf, Total;
  }

  ghost predicate Fits(vs: seq<NodeAvail>, s: Spec, hold: ShareUse) {
    exists v <- vs :: v.fractional && v.gpuType == s.gpuType && FitsShared(v, s, hold)
  }

  lemma SomeFit(vs: seq<NodeAvail>, vs': seq<NodeAvail>, v: NodeAvail, s: Spec, hold: ShareUse, hold': ShareUse)
    requires (forall w <- vs :: w in vs' || w == v) && (forall w <- vs' :: w in vs) && !v.fractional
    requires s.gpuType in TypesIn(vs') ==> hold == hold'
    ensures Fits(vs, s, hold) <==> Fits(vs', s, hold')
  {
    hide FitsShared;
  }

  /** The gate's answer for any node, in the figures of the views. */
  lemma AnswerInNumbers(nodes: seq<LiveNode>, u: Usage, res: Reservation, s: Spec)
    requires Views(nodes, u) != []
    ensures var vs, gt := Views(nodes, u), s.gpuType;
            CanPlace(AvailOf(nodes, u), res, PlaceReq(s, "")) <==>
            if s.mode == Cpu || gt == "" then true
            else match s.mode
                 case Exclusive => gt in TypesIn(vs) && SumOf(WholeFree, gt, vs) - Get(res.cards, gt) >= Need(s)
                 case Timeslice => gt in TypesIn(vs) && SumOf(SlotsFree, gt, vs) >= 1
                 case Shared => Fits(vs, s, ShareOf(res.shared, gt))
                 case Cpu => true
  {
    hide Views, FitsShared, FreeUnits, SumOf;
  }

  lemma TypesListed(c: Cluster, u: Usage, gt: string)
    ensures gt in TypesIn(Views(c.nodes, u)) ==> gt in GpuTypes(c)
  {
    ViewsOf(c.nodes, u);
  }
}
