/**
 The capacity gate: may this session be placed now, given the free figures and the reservations
 that no node carries yet (backend/internal/resource/availability.go, CanPlace and its helpers)?
 */
module Gate {
  import opened Options
  import opened Inventory
  import opened SessionTable
  import opened Availability

  /** Reservations without a node, per GPU type. */
  datatype Reservation = Reservation(cards: map<string, int>, shared: map<string, ShareUse>)

  /** node is "" when any node will do. */
  datatype PlaceReq = PlaceReq(spec: Spec, node: string)

  function Need(s: Spec): int { Max(s.gpuCount, 1) }

  predicate FitsShared(v: NodeAvail, s: Spec, hold: ShareUse) {
    && v.slotsFree - hold.count >= 1
    && (s.vramMB > 0 ==> v.vramFree - hold.vramMB >= s.vramMB)
    && (s.corePercent > 0 ==> v.coresFree - hold.cores >= s.corePercent)
  }

  function FirstBox(views: seq<NodeAvail>, name: string): Option<NodeAvail> {
    if views == [] then None
    else if views[0].node == name then Some(views[0])
    else FirstBox(views[1..], name)
  }

  /** Judged inside one node; a node missing from the inventory is left to the scheduler. */
  predicate CanPlaceOnNode(av: Avail, res: Reservation, r: PlaceReq) {
    match FirstBox(av.byNode, r.node)
    case None => true
    case Some(v) =>
      v.gpuType == r.spec.gpuType &&
      match r.spec.mode
      case Exclusive => v.gpuFree - Get(res.cards, r.spec.gpuType) >= Need(r.spec)
      case Shared => v.fractional && FitsShared(v, r.spec, ShareOf(res.shared, r.spec.gpuType))
      case _ => true
  }

  predicate CanPlace(av: Avail, res: Reservation, r: PlaceReq) {
    if r.spec.mode == Cpu || r.spec.gpuType == "" then true
    else if av.byType == map[] && av.byNode == [] then true
    else if r.node != "" then CanPlaceOnNode(av, res, r)
    else
      var t := r.spec.gpuType;
      match r.spec.mode
      case Exclusive => t in av.byType && av.byType[t].free - Get(res.cards, t) >= Need(r.spec)
      case Shared =>
        exists v <- av.byNode :: v.fractional && v.gpuType == t && FitsShared(v, r.spec, ShareOf(res.shared, t))
      case Timeslice => t in av.byType && av.byType[t].slotsFree >= 1
      case Cpu => true
  }

  lemma {:induction false} FirstBoxFound(views: seq<NodeAvail>, name: string)
    ensures var b := FirstBox(views, name);
            match b case Some(v) => v in views && v.node == name
                    case None => forall v <- views :: v.node != name
  {
    if views != [] && views[0].node != name {
      FirstBoxFound(views[1..], name);
      assert forall v <- views :: v == views[0] || v in views[1..];
    }
  }

  /**
   A request accepted on its own node is accepted cluster-wide, provided the node is in the inventory
   and, for whole cards, is not split into shares.
   */
  lemma PinnedImpliesCluster(nodes: seq<LiveNode>, u: Usage, res: Reservation, r: PlaceReq)
    requires r.spec.mode != Timeslice && r.node != ""
    requires CanPlace(AvailOf(nodes, u), res, r)
    requires var b := FirstBox(Views(nodes, u), r.node);
             b.Some? && (r.spec.mode == Exclusive ==> !b.value.fractional)
    ensures CanPlace(AvailOf(nodes, u), res, r.(node := ""))
  {
    var views := Views(nodes, u);
    FirstBoxFound(views, r.node);
    var v := FirstBox(views, r.node).value;
    ViewsInRange(nodes, u);
    SumNonNeg(WholeFree, r.spec.gpuType, views);
    if r.spec.mode == Exclusive && r.spec.gpuType != "" {
      assert v.gpuType in TypesIn(views);
      assert Value(WholeFree, v) <= SumOf(WholeFree, v.gpuType, views);
    }
  }

  lemma OneNodeViews(n: LiveNode, u: Usage)
    requires n.gpuCapacity != 0
    ensures Views([n], u) == [NodeView(n, u)]
    ensures forall m, t :: SumOf(m, t, Views([n], u)) == if n.gpuType == t then Value(m, NodeView(n, u)) else 0
  {
    var nodes := [n];
    assert nodes[..|nodes| - 1] == [] && nodes[|nodes| - 1] == n;
    assert [NodeView(n, u)][..0] == [];
  }

  const SPLIT_NODE := LiveNode("n", "A", 1, 1000, "hami", true, false, 8, 8)
  const SPLIT_USAGE := Usage(map[], map[], {}, {"n"}, map[])
  const ONE_CARD := Spec(Exclusive, "A", 1, 0, 0)

  /** On a split node the pinned question is answered from cards that no whole-card Pod may use. */
  lemma PinnedOnSplitNode()
    ensures NonNegUse(SPLIT_USAGE)
    ensures CanPlace(AvailOf([SPLIT_NODE], SPLIT_USAGE), Reservation(map[], map[]), PlaceReq(ONE_CARD, "n"))
    ensures !CanPlace(AvailOf([SPLIT_NODE], SPLIT_USAGE), Reservation(map[], map[]), PlaceReq(ONE_CARD, ""))
  {
    OneNodeViews(SPLIT_NODE, SPLIT_USAGE);
    var av := AvailOf([SPLIT_NODE], SPLIT_USAGE);
    assert "A" in av.byType ==> av.byType["A"].free == 0;
  }
}
