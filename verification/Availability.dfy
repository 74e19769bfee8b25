/** The live nodes of the cluster, as the API server reports them. */
module Inventory {
  /** gpuCapacity counts physical cards; shareMode is the node's share-mode label, "" when unset. */
  datatype LiveNode = LiveNode(
    name: string,
    gpuType: string,
    gpuCapacity: nat,
    gpuMemMB: nat,
    shareMode: string,
    ready: bool,
    cordoned: bool,
    cpuCores: int,
    memGB: int)

  ghost predicate UniqueNames(nodes: seq<LiveNode>) {
    forall i, j :: 0 <= i < j < |nodes| ==> nodes[i].name != nodes[j].name
  }
}

/**
 Free GPU capacity per node and per type, and the gate that decides from it whether a session may
 be admitted (backend/internal/resource/availability.go).
 */
module Availability {
  import opened Options
  import opened Inventory
  import opened SessionTable

  datatype ShareUse = ShareUse(vramMB: int, cores: int, count: int)

  const NO_USE := ShareUse(0, 0, 0)

  /** What the session counter reports: per-node usage plus the node overlay kept in the database. */
  datatype Usage = Usage(
    cards: map<string, int>,
    share: map<string, ShareUse>,
    physical: set<string>,
    hami: set<string>,
    split: map<string, int>)

  datatype NodeAvail = NodeAvail(
    node: string, gpuType: string, gpuTotal: int, gpuFree: int, fractional: bool,
    vramFree: int, vramTotal: int, coresFree: int, coresTotal: int, slotsFree: int, slotsTotal: int)

  datatype TypeAvail = TypeAvail(
    free: int, total: int, nodes: int, fractionalFree: int, fractionalTotal: int,
    fractionalFreeUnits: real,
    vramFree: int, vramTotal: int, coresFree: int, coresTotal: int, slotsFree: int, slotsTotal: int)

  datatype Avail = Avail(byNode: seq<NodeAvail>, byType: map<string, TypeAvail>)

  function ShareOf(m: map<string, ShareUse>, k: string): ShareUse {
    if k in m then m[k] else NO_USE
  }

  function ClampNonNeg(v: int): int { if v < 0 then 0 else v }

  // ----- the per-node view

  /** Cards in use on a node: a physical lease takes all of them, and usage never exceeds capacity. */
  function UsedCards(n: LiveNode, u: Usage): int {
    if n.name in u.physical then n.gpuCapacity else Min(Get(u.cards, n.name), n.gpuCapacity)
  }

  /** A node split into shares; such a node gives no whole cards. */
  predicate IsFractional(n: LiveNode, u: Usage) {
    n.name in u.hami && n.name !in u.physical
  }

  const DEFAULT_SPLIT := 10

  function SlotsPerCard(n: LiveNode, u: Usage): int {
    var s := Get(u.split, n.name);
    if s <= 0 then DEFAULT_SPLIT else s
  }

  function NodeView(n: LiveNode, u: Usage): NodeAvail {
    var free := n.gpuCapacity - UsedCards(n, u);
    if IsFractional(n, u) then
      var use := ShareOf(u.share, n.name);
      var vram, cores, slots := n.gpuMemMB * n.gpuCapacity, 100 * n.gpuCapacity, SlotsPerCard(n, u) * n.gpuCapacity;
      NodeAvail(n.name, n.gpuType, n.gpuCapacity, free, true,
                ClampNonNeg(vram - use.vramMB), vram,
                ClampNonNeg(cores - use.cores), cores,
                ClampNonNeg(slots - use.count), slots)
    else
      NodeAvail(n.name, n.gpuType, n.gpuCapacity, free, false, 0, 0, 0, 0, 0, 0)
  }

  /** The view of every node that has a GPU, in inventory order. */
  function Views(nodes: seq<LiveNode>, u: Usage): seq<NodeAvail> {
    if nodes == [] then []
    else
      var n := nodes[|nodes| - 1];
      Views(nodes[..|nodes| - 1], u) + (if n.gpuCapacity == 0 then [] else [NodeView(n, u)])
  }

  // ----- the per-type view, as sums over the per-node view

  datatype Measure =
    | WholeFree | WholeTotal | WholeUsed | NodeCount | FracFree | FracTotal
    | VramFree | VramTotal | CoresFree | CoresTotal | SlotsFree | SlotsTotal

  function Value(m: Measure, v: NodeAvail): int {
    match m
    case WholeFree => if v.fractional then 0 else v.gpuFree
    case WholeTotal => if v.fractional then 0 else v.gpuTotal
    case WholeUsed => if v.fractional then 0 else v.gpuTotal - v.gpuFree
    case NodeCount => 1
    case FracFree => if v.fractional then v.gpuFree else 0
    case FracTotal => if v.fractional then v.gpuTotal else 0
    case VramFree => if v.fractional then v.vramFree else 0
    case VramTotal => if v.fractional then v.vramTotal else 0
    case CoresFree => if v.fractional then v.coresFree else 0
    case CoresTotal => if v.fractional then v.coresTotal else 0
    case SlotsFree => if v.fractional then v.slotsFree else 0
    case SlotsTotal => if v.fractional then v.slotsTotal else 0
  }

  /** The sum of a measure over the nodes of one GPU type. */
  function SumOf(m: Measure, t: string, views: seq<NodeAvail>): int {
    if views == [] then 0
    else
      var v := views[|views| - 1];
      SumOf(m, t, views[..|views| - 1]) + (if v.gpuType == t then Value(m, v) else 0)
  }

  function Part(free: int, total: int): real { if total > 0 then free as real / total as real else 1.0 }

  /** The smaller of the free VRAM and free core ratios, in units of whole cards. */
  function FreeUnits(vramFree: int, vramTotal: int, coresFree: int, coresTotal: int, cards: int): real {
    if cards > 0 then
      var vf, cf := Part(vramFree, vramTotal), Part(coresFree, coresTotal);
      (if cf < vf then cf else vf) * cards as real
    else 0.0
  }

  function TypeView(t: string, views: seq<NodeAvail>): TypeAvail {
    TypeAvail(
      SumOf(WholeFree, t, views), SumOf(WholeTotal, t, views), SumOf(NodeCount, t, views),
      SumOf(FracFree, t, views), SumOf(FracTotal, t, views),
      FreeUnits(SumOf(VramFree, t, views), SumOf(VramTotal, t, views),
                SumOf(CoresFree, t, views), SumOf(CoresTotal, t, views), SumOf(FracTotal, t, views)),
      SumOf(VramFree, t, views), SumOf(VramTotal, t, views),
      SumOf(CoresFree, t, views), SumOf(CoresTotal, t, views),
      SumOf(SlotsFree, t, views), SumOf(SlotsTotal, t, views))
  }

  function TypesIn(views: seq<NodeAvail>): set<string> {
    set v <- views :: v.gpuType
  }

  function AvailOf(nodes: seq<LiveNode>, u: Usage): Avail {
    var views := Views(nodes, u);
    Avail(views, map t <- TypesIn(views) :: TypeView(t, views))
  }

  lemma {:induction false} SumAbsentType(m: Measure, t: string, views: seq<NodeAvail>)
    requires t !in TypesIn(views)
    ensures SumOf(m, t, views) == 0
  {
    if views != [] {
      assert forall v <- views[..|views| - 1] :: v in views;
      assert views[|views| - 1] in views;
      SumAbsentType(m, t, views[..|views| - 1]);
    }
  }

  lemma {:induction false} SumNonNeg(m: Measure, t: string, views: seq<NodeAvail>)
    requires forall v <- views :: 0 <= Value(m, v)
    ensures 0 <= SumOf(m, t, views)
    ensures forall v <- views :: v.gpuType == t ==> Value(m, v) <= SumOf(m, t, views)
  {
    if views != [] {
      SumNonNeg(m, t, views[..|views| - 1]);
      forall v | v in views && v.gpuType == t ensures Value(m, v) <= SumOf(m, t, views) {
        assert v in views[..|views| - 1] || v == views[|views| - 1];
      }
    }
  }

  lemma {:induction false} SumMono(m: Measure, m': Measure, t: string, views: seq<NodeAvail>)
    requires forall v <- views :: Value(m, v) <= Value(m', v)
    ensures SumOf(m, t, views) <= SumOf(m', t, views)
  {
    if views != [] {
      SumMono(m, m', t, views[..|views| - 1]);
    }
  }

  lemma {:induction false} WholeSplit(t: string, views: seq<NodeAvail>)
    ensures SumOf(WholeFree, t, views) == SumOf(WholeTotal, t, views) - SumOf(WholeUsed, t, views)
  {
    if views != [] {
      WholeSplit(t, views[..|views| - 1]);
    }
  }

  lemma SumGrow(m: Measure, t: string, views: seq<NodeAvail>, v: NodeAvail)
    ensures SumOf(m, t, views + [v]) == SumOf(m, t, views) + (if v.gpuType == t then Value(m, v) else 0)
  {
    assert (views + [v])[..|views + [v]| - 1] == views;
  }

  lemma TypesGrow(views: seq<NodeAvail>, v: NodeAvail)
    ensures TypesIn(views + [v]) == TypesIn(views) + {v.gpuType}
  {
    assert forall w <- views :: w in views + [v];
    assert v in views + [v];
    forall t | t in TypesIn(views + [v]) ensures t in TypesIn(views) + {v.gpuType} {
      var w :| w in views + [v] && w.gpuType == t;
      assert w in views || w == v;
    }
  }

  // ----- the loops

  const NO_TYPE := TypeAvail(0, 0, 0, 0, 0, 0.0, 0, 0, 0, 0, 0, 0)

  /** What the first loop has accumulated for a type; the second loop fills the fields still zero. */
  ghost function Partial(t: string, views: seq<NodeAvail>): TypeAvail {
    TypeAvail(
      0, SumOf(WholeTotal, t, views), SumOf(NodeCount, t, views),
      0, SumOf(FracTotal, t, views), 0.0,
      SumOf(VramFree, t, views), SumOf(VramTotal, t, views),
      SumOf(CoresFree, t, views), SumOf(CoresTotal, t, views),
      SumOf(SlotsFree, t, views), SumOf(SlotsTotal, t, views))
  }

  lemma PartialAbsent(t: string, views: seq<NodeAvail>)
    requires t !in TypesIn(views)
    ensures Partial(t, views) == NO_TYPE
  {
    forall m: Measure ensures SumOf(m, t, views) == 0 { SumAbsentType(m, t, views); }
  }

  ghost predicate Accumulated(byType: map<string, TypeAvail>, used: map<string, int>, frac: map<string, int>,
                              views: seq<NodeAvail>)
  {
    && byType.Keys == TypesIn(views)
    && (forall t :: t in byType ==> byType[t] == Partial(t, views))
    && (forall t :: Get(used, t) == SumOf(WholeUsed, t, views))
    && (forall t :: Get(frac, t) == SumOf(FracFree, t, views))
  }

  lemma AccumulatedGrow(byType: map<string, TypeAvail>, used: map<string, int>, frac: map<string, int>,
                        views: seq<NodeAvail>, v: NodeAvail, t: TypeAvail)
    requires Accumulated(byType, used, frac, views)
    requires t == Partial(v.gpuType, views + [v])
    ensures Accumulated(byType[v.gpuType := t],
                        used[v.gpuType := Get(used, v.gpuType) + Value(WholeUsed, v)],
                        frac[v.gpuType := Get(frac, v.gpuType) + Value(FracFree, v)],
                        views + [v])
  {
    TypesGrow(views, v);
    forall m: Measure, gt: string
      ensures SumOf(m, gt, views + [v]) == SumOf(m, gt, views) + (if v.gpuType == gt then Value(m, v) else 0)
    {
      SumGrow(m, gt, views, v);
    }
  }

  lemma PartialGrow(views: seq<NodeAvail>, v: NodeAvail)
    ensures var t, t' := Partial(v.gpuType, views), Partial(v.gpuType, views + [v]);
            && t'.total == t.total + Value(WholeTotal, v) && t'.nodes == t.nodes + 1
            && t'.fractionalTotal == t.fractionalTotal + Value(FracTotal, v)
            && t'.vramFree == t.vramFree + Value(VramFree, v) && t'.vramTotal == t.vramTotal + Value(VramTotal, v)
            && t'.coresFree == t.coresFree + Value(CoresFree, v) && t'.coresTotal == t.coresTotal + Value(CoresTotal, v)
            && t'.slotsFree == t.slotsFree + Value(SlotsFree, v) && t'.slotsTotal == t.slotsTotal + Value(SlotsTotal, v)
  {
    forall m: Measure
      ensures SumOf(m, v.gpuType, views + [v]) == SumOf(m, v.gpuType, views) + Value(m, v)
    {
      SumGrow(m, v.gpuType, views, v);
    }
  }

  /** One node's box, filled in the order the loop body fills it. */
  method ViewNode(n: LiveNode, u: Usage) returns (na: NodeAvail)
    ensures na == NodeView(n, u)
  {
    var used := Get(u.cards, n.name);
    if n.name in u.physical {
      used := n.gpuCapacity;
    }
    if used > n.gpuCapacity {
      used := n.gpuCapacity;
    }
    na := NodeAvail(n.name, n.gpuType, n.gpuCapacity, n.gpuCapacity - used, false, 0, 0, 0, 0, 0, 0);
    if n.name in u.hami && n.name !in u.physical {
      var split := Get(u.split, n.name);
      if split <= 0 {
        split := DEFAULT_SPLIT;
      }
      var use := ShareOf(u.share, n.name);
      na := na.(fractional := true, vramTotal := n.gpuMemMB * n.gpuCapacity, coresTotal := 100 * n.gpuCapacity,
        slotsTotal := split * n.gpuCapacity);
      na := na.(vramFree := ClampNonNeg(na.vramTotal - use.vramMB), coresFree := ClampNonNeg(na.coresTotal - use.cores),
        slotsFree := ClampNonNeg(na.slotsTotal - use.count));
    }
  }

  /** One node's box added to its type's running totals. */
  method AddToType(na: NodeAvail, t: TypeAvail) returns (t': TypeAvail)
    ensures t' == t.(nodes := t.nodes + 1,
                     total := t.total + Value(WholeTotal, na),
                     fractionalTotal := t.fractionalTotal + Value(FracTotal, na),
                     vramTotal := t.vramTotal + Value(VramTotal, na), vramFree := t.vramFree + Value(VramFree, na),
                     coresTotal := t.coresTotal + Value(CoresTotal, na),
                     coresFree := t.coresFree + Value(CoresFree, na),
                     slotsTotal := t.slotsTotal + Value(SlotsTotal, na),
                     slotsFree := t.slotsFree + Value(SlotsFree, na))
  {
    t' := t.(nodes := t.nodes + 1);
    if na.fractional {
      t' := t'.(fractionalTotal := t'.fractionalTotal + na.gpuTotal,
        vramTotal := t'.vramTotal + na.vramTotal, vramFree := t'.vramFree + na.vramFree,
        coresTotal := t'.coresTotal + na.coresTotal, coresFree := t'.coresFree + na.coresFree,
        slotsTotal := t'.slotsTotal + na.slotsTotal, slotsFree := t'.slotsFree + na.slotsFree);
    } else {
      t' := t'.(total := t'.total + na.gpuTotal);
    }
  }

  /** One node's box added to the per-type maps. */
  method AddNode(na: NodeAvail, byType: map<string, TypeAvail>, used: map<string, int>, frac: map<string, int>,
                 ghost views: seq<NodeAvail>)
    returns (byType': map<string, TypeAvail>, used': map<string, int>, frac': map<string, int>)
    requires Accumulated(byType, used, frac, views)
    ensures Accumulated(byType', used', frac', views + [na])
  {
    var t := NO_TYPE;
    if na.gpuType in byType {
      t := byType[na.gpuType];
    } else {
      PartialAbsent(na.gpuType, views);
    }
    t := AddToType(na, t);
    PartialGrow(views, na);
    AccumulatedGrow(byType, used, frac, views, na, t);
    byType' := byType[na.gpuType := t];
    used' := used[na.gpuType := Get(used, na.gpuType) + if na.fractional then 0 else na.gpuTotal - na.gpuFree];
    frac' := frac[na.gpuType := Get(frac, na.gpuType) + if na.fractional then na.gpuFree else 0];
  }

  /** The second loop's body: the derived fields of one type. */
  method FinishType(t: TypeAvail, used: int, frac: int) returns (t': TypeAvail)
    ensures t' == t.(free := ClampNonNeg(t.total - used), fractionalFree := ClampNonNeg(frac),
                     fractionalFreeUnits :=
                       if t.fractionalTotal > 0
                       then FreeUnits(t.vramFree, t.vramTotal, t.coresFree, t.coresTotal, t.fractionalTotal)
                       else t.fractionalFreeUnits)
  {
    t' := t.(free := t.total - used);
    if t'.free < 0 {
      t' := t'.(free := 0);
    }
    t' := t'.(fractionalFree := ClampNonNeg(frac));
    if t'.fractionalTotal > 0 {
      var vf, cf := 1.0, 1.0;
      if t'.vramTotal > 0 {
        vf := t'.vramFree as real / t'.vramTotal as real;
      }
      if t'.coresTotal > 0 {
        cf := t'.coresFree as real / t'.coresTotal as real;
      }
      var least := vf;
      if cf < least {
        least := cf;
      }
      t' := t'.(fractionalFreeUnits := least * t'.fractionalTotal as real);
    }
  }

  /** What the second loop does to one type turns its running totals into the type's view. */
  lemma FinishedIsView(byType: map<string, TypeAvail>, used: map<string, int>, frac: map<string, int>, gt: string,
                       nodes: seq<LiveNode>, u: Usage)
    requires Accumulated(byType, used, frac, Views(nodes, u)) && gt in byType
    ensures var t := byType[gt];
            TypeView(gt, Views(nodes, u)) ==
            t.(free := ClampNonNeg(t.total - Get(used, gt)), fractionalFree := ClampNonNeg(Get(frac, gt)),
               fractionalFreeUnits :=
                 if t.fractionalTotal > 0
                 then FreeUnits(t.vramFree, t.vramTotal, t.coresFree, t.coresTotal, t.fractionalTotal)
                 else t.fractionalFreeUnits)
  {
    TypeViewFromPartial(gt, nodes, u);
    hide TypeView, Partial, SumOf, FreeUnits;
  }

  lemma KeysOfViews(byType: map<string, TypeAvail>, used: map<string, int>, frac: map<string, int>,
                    out: map<string, TypeAvail>, nodes: seq<LiveNode>, u: Usage)
    requires Accumulated(byType, used, frac, Views(nodes, u)) && out.Keys == byType.Keys
    requires forall t :: t in out ==> out[t] == TypeView(t, Views(nodes, u))
    ensures out == AvailOf(nodes, u).byType
  {
    hide TypeView;
  }

  /** The second loop, over the types in any order. */
  method FinishTypes(byType: map<string, TypeAvail>, used: map<string, int>, frac: map<string, int>,
                     ghost nodes: seq<LiveNode>, ghost u: Usage)
    returns (out: map<string, TypeAvail>)
    requires Accumulated(byType, used, frac, Views(nodes, u))
    ensures out == AvailOf(nodes, u).byType
  {
    hide Accumulated, TypeView, Views, FreeUnits;
    ghost var views := Views(nodes, u);
    out := map[];
    var rest := byType.Keys;
    while rest != {}
      invariant rest <= byType.Keys && out.Keys == byType.Keys - rest
      invariant forall t :: t in out ==> out[t] == TypeView(t, views)
      decreases rest
    {
      var gt :| gt in rest;
      var t := FinishType(byType[gt], Get(used, gt), Get(frac, gt));
      FinishedIsView(byType, used, frac, gt, nodes, u);
      out := out[gt := t];
      rest := rest - {gt};
    }
    KeysOfViews(byType, used, frac, out, nodes, u);
  }

  /** Both loops of the availability computation: they compute exactly the sums above. */
  method ComputeAvailability(nodes: seq<LiveNode>, u: Usage) returns (av: Avail)
    ensures av == AvailOf(nodes, u)
  {
    var byNode: seq<NodeAvail> := [];
    var byType: map<string, TypeAvail> := map[];
    var usedByType: map<string, int> := map[];
    var fracFreeByType: map<string, int> := map[];
    for i := 0 to |nodes|
      invariant byNode == Views(nodes[..i], u)
      invariant Accumulated(byType, usedByType, fracFreeByType, byNode)
    {
      assert nodes[..i + 1][..i] == nodes[..i];
      if nodes[i].gpuCapacity == 0 {
        continue;
      }
      var na := ViewNode(nodes[i], u);
      byType, usedByType, fracFreeByType := AddNode(na, byType, usedByType, fracFreeByType, byNode);
      byNode := byNode + [na];
    }
    assert nodes[..|nodes|] == nodes;
    var out := FinishTypes(byType, usedByType, fracFreeByType, nodes, u);
    av := Avail(byNode, out);
  }

  lemma TypeViewFromPartial(t: string, nodes: seq<LiveNode>, u: Usage)
    ensures var views := Views(nodes, u); var p := Partial(t, views);
            TypeView(t, views) ==
            p.(free := ClampNonNeg(p.total - SumOf(WholeUsed, t, views)),
               fractionalFree := ClampNonNeg(SumOf(FracFree, t, views)),
               fractionalFreeUnits :=
                 if p.fractionalTotal > 0
                 then FreeUnits(p.vramFree, p.vramTotal, p.coresFree, p.coresTotal, p.fractionalTotal)
                 else p.fractionalFreeUnits)
  {
    hide FreeUnits, SumOf, Views;
    var views := Views(nodes, u);
    ViewsInRange(nodes, u);
    WholeSplit(t, views);
    SumNonNeg(WholeFree, t, views);
    SumNonNeg(FracFree, t, views);
    SumNonNeg(FracTotal, t, views);
    var p := Partial(t, views);
    NoUnits(p.vramFree, p.vramTotal, p.coresFree, p.coresTotal, p.fractionalTotal);
  }

  lemma NoUnits(vramFree: int, vramTotal: int, coresFree: int, coresTotal: int, cards: int)
    ensures cards <= 0 ==> FreeUnits(vramFree, vramTotal, coresFree, coresTotal, cards) == 0.0
  {
  }

  // ----- what the two views mean

  /** Every box is within its node's capacity, whatever the counters say. */
  lemma {:induction false} ViewsInRange(nodes: seq<LiveNode>, u: Usage)
    ensures forall v <- Views(nodes, u) :: 0 <= v.gpuFree && 0 < v.gpuTotal
    ensures forall v <- Views(nodes, u) :: 0 <= v.vramFree && 0 <= v.coresFree && 0 <= v.slotsFree
    ensures forall v <- Views(nodes, u) :: 0 <= v.vramTotal && 0 <= v.coresTotal && 0 <= v.slotsTotal
  {
    if nodes != [] {
      ViewsInRange(nodes[..|nodes| - 1], u);
      SlotsNonNeg(nodes[|nodes| - 1], u);
    }
  }

  lemma SlotsNonNeg(n: LiveNode, u: Usage)
    ensures 0 <= n.gpuMemMB * n.gpuCapacity && 0 <= SlotsPerCard(n, u) * n.gpuCapacity
  {
  }

  /** Usage figures are sums of non-negative requests. */
  ghost predicate NonNegUse(u: Usage) {
    && (forall k :: k in u.cards ==> 0 <= u.cards[k])
    && (forall k :: k in u.share ==> 0 <= u.share[k].vramMB && 0 <= u.share[k].cores)
  }

  lemma {:induction false} FreeWithinTotal(nodes: seq<LiveNode>, u: Usage)
    requires NonNegUse(u)
    ensures forall v <- Views(nodes, u) :: Value(WholeFree, v) <= Value(WholeTotal, v)
    ensures forall v <- Views(nodes, u) :: Value(VramFree, v) <= Value(VramTotal, v)
    ensures forall v <- Views(nodes, u) :: Value(CoresFree, v) <= Value(CoresTotal, v)
  {
    if nodes != [] {
      FreeWithinTotal(nodes[..|nodes| - 1], u);
      SlotsNonNeg(nodes[|nodes| - 1], u);
    }
  }

  lemma RatioInUnit(free: int, total: int)
    requires 0 <= free <= total && 0 < total
    ensures 0.0 <= free as real / total as real <= 1.0
  {
  }

  lemma ScaledInRange(x: real, n: int)
    requires 0.0 <= x <= 1.0 && 0 <= n
    ensures 0.0 <= x * n as real <= n as real
  {
  }

  lemma UnitsInRange(vramFree: int, vramTotal: int, coresFree: int, coresTotal: int, cards: int)
    requires 0 <= vramFree <= vramTotal && 0 <= coresFree <= coresTotal && 0 <= cards
    ensures 0.0 <= FreeUnits(vramFree, vramTotal, coresFree, coresTotal, cards) <= cards as real
  {
    var vf := if vramTotal > 0 then vramFree as real / vramTotal as real else 1.0;
    var cf := if coresTotal > 0 then coresFree as real / coresTotal as real else 1.0;
    if vramTotal > 0 { RatioInUnit(vramFree, vramTotal); }
    if coresTotal > 0 { RatioInUnit(coresFree, coresTotal); }
    ScaledInRange(if cf < vf then cf else vf, cards);
  }

  /**
   The per-type figures are sums of the per-node figures, and the fraction shown as "GPU units
   free" lies between zero and the number of split cards.
   */
  lemma TypeViewIsFold(nodes: seq<LiveNode>, u: Usage, t: string)
    requires NonNegUse(u) && t in AvailOf(nodes, u).byType
    ensures var v, views := AvailOf(nodes, u).byType[t], AvailOf(nodes, u).byNode;
            && v.free == SumOf(WholeFree, t, views) && 0 <= v.free <= v.total
            && v.vramFree == SumOf(VramFree, t, views) && v.coresFree == SumOf(CoresFree, t, views)
            && v.slotsFree == SumOf(SlotsFree, t, views)
            && 0.0 <= v.fractionalFreeUnits <= v.fractionalTotal as real
            && v.fractionalFree == SumOf(FracFree, t, views)
  {
    hide SumOf, FreeUnits, Views;
    var views := Views(nodes, u);
    ViewsInRange(nodes, u);
    FreeWithinTotal(nodes, u);
    SumNonNeg(WholeFree, t, views);
    SumNonNeg(FracTotal, t, views);
    SumNonNeg(VramFree, t, views);
    SumNonNeg(CoresFree, t, views);
    SumMono(VramFree, VramTotal, t, views);
    SumMono(CoresFree, CoresTotal, t, views);
    SumMono(WholeFree, WholeTotal, t, views);
    var v := TypeView(t, views);
    UnitsInRange(v.vramFree, v.vramTotal, v.coresFree, v.coresTotal, v.fractionalTotal);
  }

  /** The cards of a type on its nodes, the cards of them no session takes, and the nodes that have any. */
  function CardsOfType(nodes: seq<LiveNode>, t: string): int {
    if nodes == [] then 0
    else
      var n := nodes[|nodes| - 1];
      CardsOfType(nodes[..|nodes| - 1], t) + if n.gpuType == t then n.gpuCapacity else 0
  }

  function CardsLeftOfType(nodes: seq<LiveNode>, u: Usage, t: string): int {
    if nodes == [] then 0
    else
      var n := nodes[|nodes| - 1];
      CardsLeftOfType(nodes[..|nodes| - 1], u, t)
      + if n.gpuType != t || n.name in u.physical || n.gpuCapacity <= Get(u.cards, n.name) then 0
        else n.gpuCapacity - Get(u.cards, n.name)
  }

  function NodesOfType(nodes: seq<LiveNode>, t: string): int {
    if nodes == [] then 0
    else
      var n := nodes[|nodes| - 1];
      NodesOfType(nodes[..|nodes| - 1], t) + if n.gpuType == t && n.gpuCapacity > 0 then 1 else 0
  }

  /** Every card is shown once, as a whole card or as a split one, and so is every card left; every node is counted. */
  lemma CardsConserved(nodes: seq<LiveNode>, u: Usage, t: string)
    requires t in AvailOf(nodes, u).byType && forall n <- nodes :: 0 <= Get(u.cards, n.name)
    ensures var v := AvailOf(nodes, u).byType[t];
            && v.total + v.fractionalTotal == CardsOfType(nodes, t)
            && v.free + v.fractionalFree == CardsLeftOfType(nodes, u, t)
            && v.nodes == NodesOfType(nodes, t)
  {
    SumsConserved(nodes, u, t);
    hide Views, SumOf, FreeUnits;
  }

  lemma {:induction false} SumsConserved(nodes: seq<LiveNode>, u: Usage, t: string)
    requires forall n <- nodes :: 0 <= Get(u.cards, n.name)
    ensures var views := Views(nodes, u);
            && SumOf(WholeTotal, t, views) + SumOf(FracTotal, t, views) == CardsOfType(nodes, t)
            && SumOf(WholeFree, t, views) + SumOf(FracFree, t, views) == CardsLeftOfType(nodes, u, t)
            && SumOf(NodeCount, t, views) == NodesOfType(nodes, t)
  {
    if nodes != [] {
      var init, n := nodes[..|nodes| - 1], nodes[|nodes| - 1];
      assert forall m <- init :: m in nodes;
      assert n in nodes;
      SumsConserved(init, u, t);
      if n.gpuCapacity != 0 {
        var views, v := Views(init, u), NodeView(n, u);
        OneConserved(n, u);
        SumGrow(WholeTotal, t, views, v);
        SumGrow(FracTotal, t, views, v);
        SumGrow(WholeFree, t, views, v);
        SumGrow(FracFree, t, views, v);
        SumGrow(NodeCount, t, views, v);
        assert Views(nodes, u) == views + [v];
      } else {
        assert Views(nodes, u) == Views(init, u);
      }
      hide SumOf, Views, NodeView, Value;
    }
  }

  lemma OneConserved(n: LiveNode, u: Usage)
    requires n.gpuCapacity != 0 && 0 <= Get(u.cards, n.name)
    ensures var v := NodeView(n, u);
            && v.gpuType == n.gpuType && Value(NodeCount, v) == 1
            && Value(WholeTotal, v) + Value(FracTotal, v) == n.gpuCapacity
            && Value(WholeFree, v) + Value(FracFree, v) ==
               if n.name in u.physical || n.gpuCapacity <= Get(u.cards, n.name) then 0
               else n.gpuCapacity - Get(u.cards, n.name)
  {
  }

  /** One more node adds its own figures to its type: cards to one of two counts, shares when it is split. */
  lemma NodeAddsItsFigures(nodes: seq<LiveNode>, u: Usage, n: LiveNode)
    requires n.gpuCapacity != 0
    ensures var old_, new_ := TypeView(n.gpuType, Views(nodes, u)), TypeView(n.gpuType, Views(nodes + [n], u));
            var v := NodeView(n, u);
            && new_.nodes == old_.nodes + 1
            && (if v.fractional then
                  && new_.free == old_.free && new_.total == old_.total
                  && new_.fractionalFree == old_.fractionalFree + v.gpuFree
                  && new_.fractionalTotal == old_.fractionalTotal + v.gpuTotal
                  && new_.vramFree == old_.vramFree + v.vramFree && new_.vramTotal == old_.vramTotal + v.vramTotal
                  && new_.coresFree == old_.coresFree + v.coresFree && new_.coresTotal == old_.coresTotal + v.coresTotal
                  && new_.slotsFree == old_.slotsFree + v.slotsFree && new_.slotsTotal == old_.slotsTotal + v.slotsTotal
                else
                  new_ == old_.(free := old_.free + v.gpuFree, total := old_.total + v.gpuTotal, nodes := new_.nodes))
  {
    var views, v := Views(nodes, u), NodeView(n, u);
    assert (nodes + [n])[..|nodes + [n]| - 1] == nodes;
    assert Views(nodes + [n], u) == views + [v];
    BoxType(n, u);
    hide Views, NodeView, FreeUnits;
    forall m: Measure ensures SumOf(m, n.gpuType, views + [v]) == SumOf(m, n.gpuType, views) + Value(m, v) {
      SumGrow(m, n.gpuType, views, v);
    }
    hide SumOf;
  }

  lemma BoxType(n: LiveNode, u: Usage)
    ensures NodeView(n, u).gpuType == n.gpuType
  {
  }

  /** Free units are the scarcer of VRAM and cores, as a part of its total, in cards; no total, no limit. */
  lemma UnitsAreTheScarcer(vramFree: int, vramTotal: int, coresFree: int, coresTotal: int, cards: int)
    requires cards > 0 && vramTotal >= 0 && coresTotal >= 0
    ensures var r := FreeUnits(vramFree, vramTotal, coresFree, coresTotal, cards);
            && (vramTotal > 0 ==> r * vramTotal as real <= (vramFree * cards) as real)
            && (coresTotal > 0 ==> r * coresTotal as real <= (coresFree * cards) as real)
            && ((vramTotal > 0 && r * vramTotal as real == (vramFree * cards) as real)
                || (coresTotal > 0 && r * coresTotal as real == (coresFree * cards) as real)
                || r == cards as real)
  {
    hide Part;
    var k, vf, cf := cards as real, Part(vramFree, vramTotal), Part(coresFree, coresTotal);
    var least := if cf < vf then cf else vf;
    assert FreeUnits(vramFree, vramTotal, coresFree, coresTotal, cards) == least * k;
    hide FreeUnits;
    ScaleMono(least, vf, k);
    ScaleMono(least, cf, k);
    RatioBack(least * k, vramFree, vramTotal, cards);
    RatioBack(least * k, coresFree, coresTotal, cards);
  }

  /** A bound by a ratio in cards, and meeting it, multiplied out. */
  lemma RatioBack(r: real, free: int, total: int, cards: int)
    ensures var x := Part(free, total) * cards as real;
            && (total > 0 && r <= x ==> r * total as real <= (free * cards) as real)
            && (total > 0 && r == x ==> r * total as real == (free * cards) as real)
            && (total <= 0 && r == x ==> r == cards as real)
  {
    if total > 0 {
      var q := free as real / total as real;
      var x := q * cards as real;
      assert q * total as real == free as real;
      assert x * total as real == q * total as real * cards as real;
      if r <= x { ScaleMono(r, x, total as real); }
    }
  }

  lemma ScaleMono(a: real, b: real, k: real)
    requires a <= b && 0.0 <= k
    ensures a * k <= b * k
  {
  }
}
