/**
 The branches of the capacity gate that capacity does not decide
 (backend/internal/resource/availability.go, CanPlace and canPlaceOnNode).
 */
module GateCases {
  import opened Options
  import opened Inventory
  import opened SessionTable
  import opened Availability
  import opened Gate
  import opened AdmissionProtocol

  /** CPU sessions, and requests that name no GPU type, are never refused. */
  lemma UncheckedPasses(av: Avail, res: Reservation, s: Spec, node: string)
    requires s.mode == Cpu || s.gpuType == ""
    ensures CanPlace(av, res, PlaceReq(s, node))
  {
  }

  /** No more is anything while the inventory shows no GPU: the gate is open rather than shut. */
  lemma OpenWithoutInventory(nodes: seq<LiveNode>, u: Usage, res: Reservation, s: Spec, node: string)
    requires forall n <- nodes :: n.gpuCapacity == 0
    ensures CanPlace(AvailOf(nodes, u), res, PlaceReq(s, node))
  {
    NothingShown(nodes, u);
  }

  lemma {:induction false} NothingShown(nodes: seq<LiveNode>, u: Usage)
    requires forall n <- nodes :: n.gpuCapacity == 0
    ensures Views(nodes, u) == []
  {
    if nodes != [] {
      assert nodes[|nodes| - 1] in nodes && forall n <- nodes[..|nodes| - 1] :: n in nodes;
      NothingShown(nodes[..|nodes| - 1], u);
    }
  }

  /** A share that names no VRAM is not judged by VRAM, nor one that names no cores by cores. */
  lemma UnnamedAxisIsFree(av: Avail, res: Reservation, s: Spec, node: string, x: int)
    requires s.mode == Shared
    ensures var hold := ShareOf(res.shared, s.gpuType);
            var res' := Reservation(res.cards, res.shared[s.gpuType := hold.(vramMB := x)]);
            s.vramMB <= 0 ==> (CanPlace(av, res', PlaceReq(s, node)) <==> CanPlace(av, res, PlaceReq(s, node)))
    ensures var hold := ShareOf(res.shared, s.gpuType);
            var res' := Reservation(res.cards, res.shared[s.gpuType := hold.(cores := x)]);
            s.corePercent <= 0 ==> (CanPlace(av, res', PlaceReq(s, node)) <==> CanPlace(av, res, PlaceReq(s, node)))
  {
  }

  /** A GPU request pinned to a listed node of another type is refused, and a time slice on one of its own is not. */
  lemma PinnedByType(nodes: seq<LiveNode>, u: Usage, res: Reservation, s: Spec, n: LiveNode)
    requires UniqueNames(nodes) && n in nodes && n.gpuCapacity != 0 && n.name != "" && s.mode != Cpu && s.gpuType != ""
    ensures n.gpuType != s.gpuType ==> !CanPlace(AvailOf(nodes, u), res, PlaceReq(s, n.name))
    ensures n.gpuType == s.gpuType && s.mode == Timeslice ==> CanPlace(AvailOf(nodes, u), res, PlaceReq(s, n.name))
  {
    BoxOfNode(nodes, u, n);
    ViewsOf(nodes, u);
    assert NodeView(n, u) in Views(nodes, u);
    hide Views, SumOf, FreeUnits;
  }

  /** A time slice passes exactly when some split node of the type has a slot free, whatever is reserved. */
  lemma TimesliceIff(nodes: seq<LiveNode>, u: Usage, res: Reservation, s: Spec)
    requires s.mode == Timeslice && s.gpuType != "" && exists n <- nodes :: n.gpuCapacity != 0
    ensures CanPlace(AvailOf(nodes, u), res, PlaceReq(s, "")) <==>
            exists v <- Views(nodes, u) :: v.fractional && v.gpuType == s.gpuType && v.slotsFree >= 1
  {
    var views, gt := Views(nodes, u), s.gpuType;
    ViewsOf(nodes, u);
    ViewsInRange(nodes, u);
    SumNonNeg(SlotsFree, gt, views);
    SomeSlot(gt, views);
    hide SumOf, NodeView, Views, FreeUnits, FitsShared;
    if v :| v in views && v.fractional && v.gpuType == gt && v.slotsFree >= 1 {
      assert Value(SlotsFree, v) == v.slotsFree;
    }
    hide Views, SumOf, FreeUnits;
  }

  lemma {:induction false} SomeSlot(gt: string, views: seq<NodeAvail>)
    ensures SumOf(SlotsFree, gt, views) >= 1 ==>
              gt in TypesIn(views) && exists v <- views :: v.fractional && v.gpuType == gt && v.slotsFree >= 1
  {
    if views != [] {
      var init, v := views[..|views| - 1], views[|views| - 1];
      SomeSlot(gt, init);
      assert v in views && forall w <- init :: w in views;
    }
  }
}
