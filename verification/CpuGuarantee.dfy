/**
 The CPU and memory a GPU session is guaranteed, in proportion to the share of a node's GPUs it takes
 (backend/internal/session/service.go). Shares are exact reals; slots is the type's time-slice split.
 */
module CpuGuarantee {
  import opened Options
  import opened Inventory
  import opened SessionTable

  function Max1(n: int): int { Max(n, 1) }

  /** The part of a node with this many GPUs that one session takes. */
  function GpuShareOf(s: Spec, nodeGPUs: int, slots: int): real {
    var g := Max1(nodeGPUs) as real;
    match s.mode
    case Exclusive => Max1(s.gpuCount) as real / g
    case Shared => (s.corePercent as real / 100.0) / g
    case Timeslice => (1.0 / Max1(slots) as real) / g
    case Cpu => 0.0
  }

  function Half(capacity: int, share: real): real { capacity as real * 0.5 * share }

  /** Half of the share of a node's capacity, unrounded; the share counts as one at the most. */
  function Ideal(capacity: int, share: real): real {
    capacity as real * (if share > 1.0 then 1.0 else share) * 0.5
  }

  /** The whole number nearest to the ideal, one at the least. */
  function Guarantee(capacity: int, share: real): (r: int)
    ensures r >= 1
    ensures r == 1 ==> capacity as real * (if share > 1.0 then 1.0 else share) < 3.0
    ensures r > 1 ==> -1.0 < 2.0 * r as real - capacity as real * (if share > 1.0 then 1.0 else share) <= 1.0
  {
    Max(1, (Ideal(capacity, share) + 0.5).Floor)
  }

  // ----- the reference node

  predicate Candidate(n: LiveNode, gpuType: string) { n.ready && n.gpuType == gpuType }

  /** The candidate with the fewest cores, the earliest of them on a tie. */
  ghost function RefNode(nodes: seq<LiveNode>, gpuType: string): Option<LiveNode> {
    if nodes == [] then None
    else
      var best, n := RefNode(nodes[..|nodes| - 1], gpuType), nodes[|nodes| - 1];
      if Candidate(n, gpuType) && (best.None? || n.cpuCores < best.value.cpuCores) then Some(n) else best
  }

  lemma {:induction false} RefNodeIsLeast(nodes: seq<LiveNode>, gpuType: string)
    ensures RefNode(nodes, gpuType).None? <==> forall n <- nodes :: !Candidate(n, gpuType)
    ensures var r := RefNode(nodes, gpuType);
            r.Some? ==> && r.value in nodes && Candidate(r.value, gpuType)
                        && forall n <- nodes :: Candidate(n, gpuType) ==> r.value.cpuCores <= n.cpuCores
  {
    if nodes != [] {
      var init := nodes[..|nodes| - 1];
      RefNodeIsLeast(init, gpuType);
      assert nodes == init + [nodes[|nodes| - 1]];
    }
  }

  /** The node at this position has fewer cores than every candidate before it. */
  ghost predicate FewerThanBefore(nodes: seq<LiveNode>, gpuType: string, i: nat) {
    i < |nodes| && forall n <- nodes[..i] :: Candidate(n, gpuType) ==> nodes[i].cpuCores < n.cpuCores
  }

  /** On a tie the first of the list is the reference. */
  lemma {:induction false} RefNodeIsFirst(nodes: seq<LiveNode>, gpuType: string) returns (i: nat)
    requires RefNode(nodes, gpuType).Some?
    ensures FewerThanBefore(nodes, gpuType, i) && nodes[i] == RefNode(nodes, gpuType).value
  {
    var k := |nodes| - 1;
    if RefNode(nodes, gpuType) == RefNode(nodes[..k], gpuType) {
      i := RefNodeIsFirst(nodes[..k], gpuType);
      assert nodes[..k][..i] == nodes[..i];
    } else {
      i := k;
      RefNodeIsLeast(nodes[..k], gpuType);
    }
  }

  method MinNodeOf(live: Option<seq<LiveNode>>, gpuType: string) returns (best: Option<LiveNode>)
    ensures best == if live.Some? then RefNode(live.value, gpuType) else None
  {
    if live.None? {
      return None;
    }
    best := None;
    var nodes := live.value;
    for i := 0 to |nodes|
      invariant best == RefNode(nodes[..i], gpuType)
    {
      assert nodes[..i + 1][..i] == nodes[..i];
      if !nodes[i].ready || nodes[i].gpuType != gpuType {
        continue;
      }
      if best.None? || nodes[i].cpuCores < best.value.cpuCores {
        best := Some(nodes[i]);
      }
    }
    assert nodes[..|nodes|] == nodes;
  }

  /** A guarantee is computed for this session from this node. */
  predicate Grants(s: Spec, n: Option<LiveNode>, slots: int) {
    && s.mode != Cpu && s.gpuType != ""
    && n.Some? && n.value.cpuCores > 0 && GpuShareOf(s, n.value.gpuCapacity, slots) > 0.0
  }

  /**
   Which sessions have a guarantee, mode by mode: a whole-card or time-sliced one whenever some ready node of
   its type is known and the smallest of them reports cores, a share only when it asks for a part of the card's
   cores, and a session without a GPU never.
   */
  lemma GrantsIff(nodes: seq<LiveNode>, s: Spec, slots: int)
    ensures Grants(s, RefNode(nodes, s.gpuType), slots) <==>
            && (s.mode == Exclusive || s.mode == Timeslice || (s.mode == Shared && s.corePercent > 0))
            && s.gpuType != "" && (exists n <- nodes :: n.ready && n.gpuType == s.gpuType)
            && (forall n <- nodes :: n.ready && n.gpuType == s.gpuType ==> n.cpuCores > 0)
  {
    RefNodeIsLeast(nodes, s.gpuType);
    var r := RefNode(nodes, s.gpuType);
    if r.Some? {
      ShareIsPositiveIff(s, r.value.gpuCapacity, slots);
      assert Candidate(r.value, s.gpuType) && r.value in nodes;
      hide GpuShareOf;
      assert (forall n <- nodes :: n.ready && n.gpuType == s.gpuType ==> n.cpuCores > 0) <==> r.value.cpuCores > 0;
    } else {
      assert forall n <- nodes :: !Candidate(n, s.gpuType);
    }
  }

  lemma ShareIsPositiveIff(s: Spec, nodeGPUs: int, slots: int)
    ensures GpuShareOf(s, nodeGPUs, slots) > 0.0 <==>
            s.mode == Exclusive || s.mode == Timeslice || (s.mode == Shared && s.corePercent > 0)
  {
    var g := Max1(nodeGPUs) as real;
    match s.mode {
      case Exclusive => Quotient(Max1(s.gpuCount) as real, g);
      case Timeslice =>
        Quotient(1.0, Max1(slots) as real);
        Quotient(1.0 / Max1(slots) as real, g);
      case Shared =>
        Quotient(s.corePercent as real, 100.0);
        Quotient(s.corePercent as real / 100.0, g);
      case Cpu =>
    }
  }

  /** A session's part of a node that has GPUs, and time slots to share them by, without a division. */
  lemma ShareInNumbers(s: Spec, nodeGPUs: int, slots: int)
    requires nodeGPUs >= 1 && slots >= 1 && s.gpuCount >= 1
    ensures var share := GpuShareOf(s, nodeGPUs, slots);
            match s.mode
            case Exclusive => share * nodeGPUs as real == s.gpuCount as real
            case Shared => share * 100.0 * nodeGPUs as real == s.corePercent as real
            case Timeslice => share * slots as real * nodeGPUs as real == 1.0
            case Cpu => share == 0.0
    ensures GpuShareOf(s, 0, slots) == GpuShareOf(s, 1, slots)
    ensures GpuShareOf(s, nodeGPUs, 0) == GpuShareOf(s, nodeGPUs, 1)
    ensures GpuShareOf(s.(gpuCount := 0), nodeGPUs, slots) == GpuShareOf(s.(gpuCount := 1), nodeGPUs, slots)
  {
    var g := nodeGPUs as real;
    match s.mode {
      case Exclusive => Undo(s.gpuCount as real, g);
      case Shared =>
        Undo(s.corePercent as real / 100.0, g);
        assert GpuShareOf(s, nodeGPUs, slots) * 100.0 * g == GpuShareOf(s, nodeGPUs, slots) * g * 100.0;
      case Timeslice =>
        var x, k := 1.0 / slots as real, slots as real;
        Undo(x, g);
        Undo(1.0, k);
        assert x / g * k * g == x / g * g * k;
      case Cpu =>
    }
  }

  lemma Undo(a: real, b: real)
    requires b > 0.0
    ensures a / b * b == a
  {
  }

  lemma Quotient(a: real, b: real)
    requires b > 0.0
    ensures a / b > 0.0 <==> a > 0.0
  {
    assert a == a / b * b;
  }

  /** A session being created, with the requests its Pod will carry. */
  class Request {
    const spec: Spec
    var cpuCores: int
    var memGB: int

    constructor (s: Spec, askedCores: int, askedMem: int)
      ensures spec == s && cpuCores == askedCores && memGB == askedMem
    {
      spec, cpuCores, memGB := s, askedCores, askedMem;
    }

    /** What the client asked for stays when no guarantee can be computed. */
    method ApplyGuarantee(live: Option<seq<LiveNode>>, slots: int)
      modifies this
      ensures var n := if live.Some? then RefNode(live.value, spec.gpuType) else None;
              if Grants(spec, n, slots) then
                var share := GpuShareOf(spec, n.value.gpuCapacity, slots);
                cpuCores == Guarantee(n.value.cpuCores, share) && memGB == Guarantee(n.value.memGB, share)
              else
                unchanged(this)
    {
      hide GpuShareOf, RefNode;
      if spec.mode == Cpu || spec.gpuType == "" {
        return;
      }
      var n := MinNodeOf(live, spec.gpuType);
      if n.None? || n.value.cpuCores <= 0 {
        return;
      }
      var share := GpuShareOf(spec, n.value.gpuCapacity, slots);
      if share <= 0.0 {
        return;
      }
      var effShare := share;
      if effShare > 1.0 {
        effShare := 1.0;
      }
      cpuCores := Max(1, (n.value.cpuCores as real * effShare * 0.5 + 0.5).Floor);
      memGB := Max(1, (n.value.memGB as real * effShare * 0.5 + 0.5).Floor);
    }
  }

  // ----- one request

  /** Whatever GPUs it asks for, a request fits every ready node of its type. */
  lemma FitsEveryNode(nodes: seq<LiveNode>, s: Spec, slots: int, m: LiveNode)
    requires Grants(s, RefNode(nodes, s.gpuType), slots) && m in nodes && Candidate(m, s.gpuType)
    ensures var n := RefNode(nodes, s.gpuType).value;
            Guarantee(n.cpuCores, GpuShareOf(s, n.gpuCapacity, slots)) <= m.cpuCores
  {
    RefNodeIsLeast(nodes, s.gpuType);
    var n := RefNode(nodes, s.gpuType).value;
    IdealAtMostHalf(n.cpuCores, GpuShareOf(s, n.gpuCapacity, slots));
  }

  lemma IdealAtMostHalf(capacity: int, share: real)
    requires capacity > 0
    ensures Ideal(capacity, share) <= capacity as real * 0.5
  {
    var e := if share > 1.0 then 1.0 else share;
    assert capacity as real * e <= capacity as real * 1.0;
  }

  /**
   Memory is another matter: the reference node is the one with the fewest cores, not the least memory. A ready
   node has the memory for every request of its type exactly when it has it for half of the reference node's.
   */
  lemma MemoryFitsIff(nodes: seq<LiveNode>, gpuType: string, slots: int, m: LiveNode)
    requires gpuType != "" && RefNode(nodes, gpuType).Some? && RefNode(nodes, gpuType).value.cpuCores > 0
    requires RefNode(nodes, gpuType).value.memGB >= 0
    ensures var n := RefNode(nodes, gpuType).value;
            (forall s: Spec :: s.gpuType == gpuType && Grants(s, Some(n), slots) ==>
               Guarantee(n.memGB, GpuShareOf(s, n.gpuCapacity, slots)) <= m.memGB) <==>
            m.memGB >= 1 && n.memGB <= 2 * m.memGB
  {
    hide GpuShareOf, Guarantee, RefNode;
    var n := RefNode(nodes, gpuType).value;
    var whole := Spec(Exclusive, gpuType, Max1(n.gpuCapacity), 0, 0);
    WholeNodeShare(gpuType, n.gpuCapacity, slots);
    HalfOfMemory(n.memGB, m.memGB);
    assert Grants(whole, Some(n), slots);
    if m.memGB >= 1 && n.memGB <= 2 * m.memGB {
      forall s: Spec ensures Guarantee(n.memGB, GpuShareOf(s, n.gpuCapacity, slots)) <= m.memGB {
        GuaranteeMono(n.memGB, GpuShareOf(s, n.gpuCapacity, slots), 1.0);
      }
    } else {
      assert Guarantee(n.memGB, GpuShareOf(whole, n.gpuCapacity, slots)) > m.memGB;
    }
  }

  /** A session that fits both nodes' cores and GPUs, but asks twice the memory of the second. */
  lemma MemoryCanMiss()
    ensures var a := LiveNode("a", "A", 1, 40000, "", true, false, 4, 64);
            var b := LiveNode("b", "A", 1, 40000, "", true, false, 8, 16);
            var s := Spec(Exclusive, "A", 1, 0, 0);
            && RefNode([a, b], "A") == Some(a) && Grants(s, Some(a), 1)
            && Guarantee(a.memGB, GpuShareOf(s, 1, 1)) == 32 == 2 * b.memGB
  {
    var a := LiveNode("a", "A", 1, 40000, "", true, false, 4, 64);
    var b := LiveNode("b", "A", 1, 40000, "", true, false, 8, 16);
    assert [a, b][..1] == [a] && [a][..0] == [];
    assert RefNode([a], "A") == Some(a);
    assert GpuShareOf(Spec(Exclusive, "A", 1, 0, 0), 1, 1) == 1.0;
  }

  lemma WholeNodeShare(gpuType: string, nodeGPUs: int, slots: int)
    ensures GpuShareOf(Spec(Exclusive, gpuType, Max1(nodeGPUs), 0, 0), nodeGPUs, slots) == 1.0
  {
  }

  lemma HalfOfMemory(mem: int, other: int)
    requires mem >= 0
    ensures Guarantee(mem, 1.0) <= other <==> other >= 1 && mem <= 2 * other
  {
    var k := mem / 2;
    if mem % 2 == 0 {
      assert (mem as real * 0.5 + 0.5).Floor == k;
    } else {
      assert (mem as real * 0.5 + 0.5).Floor == k + 1;
    }
  }

  lemma GuaranteeMono(mem: int, share: real, share': real)
    requires mem >= 0 && (share <= share' || share' >= 1.0)
    ensures Guarantee(mem, share) <= Guarantee(mem, share')
  {
    hide Guarantee;
    var x, x' := NearestTo(mem, share, share');
    NearestMono(Guarantee(mem, share), Guarantee(mem, share'), x, x');
  }

  /** The two numbers rounded, in order. */
  lemma NearestTo(mem: int, share: real, share': real) returns (x: real, x': real)
    requires mem >= 0 && (share <= share' || share' >= 1.0)
    ensures x <= x'
    ensures var r := Guarantee(mem, share);
            (r == 1 ==> x < 3.0) && (r > 1 ==> x - 1.0 < 2.0 * r as real <= x + 1.0)
    ensures var r' := Guarantee(mem, share');
            (r' == 1 ==> x' < 3.0) && (r' > 1 ==> x' - 1.0 < 2.0 * r' as real <= x' + 1.0)
  {
    var e, e' := if share > 1.0 then 1.0 else share, if share' > 1.0 then 1.0 else share';
    x, x' := mem as real * e, mem as real * e';
    MulMono(mem as real, e, e');
    assert Ideal(mem, share) == x * 0.5 && Ideal(mem, share') == x' * 0.5;
  }

  lemma NearestMono(r: int, r': int, x: real, x': real)
    requires r >= 1 && r' >= 1 && x <= x'
    requires r > 1 ==> 2.0 * r as real <= x + 1.0
    requires (r' == 1 ==> x' < 3.0) && (r' > 1 ==> x' - 1.0 < 2.0 * r' as real)
    ensures r <= r'
  {
  }

  /** The nearest whole number is not above the ideal, and the ideal is not below the minimum of one. */
  predicate RoundsDown(ideal: real) { ideal >= 1.0 && ideal - ideal.Floor as real < 0.5 }

  /** Rounding and the minimum are the only ways a request exceeds half of the session's share. */
  lemma AtMostIdealIff(capacity: int, share: real)
    requires capacity > 0 && share > 0.0
    ensures Guarantee(capacity, share) as real <= Ideal(capacity, share) <==> RoundsDown(Ideal(capacity, share))
  {
    var x := Ideal(capacity, share);
    if x - x.Floor as real < 0.5 {
      assert (x + 0.5).Floor == x.Floor;
    } else {
      assert (x + 0.5).Floor == x.Floor + 1;
    }
  }

  // ----- all the requests on one node

  function ShareSum(ss: seq<Spec>, nodeGPUs: int, slots: int): real {
    if ss == [] then 0.0 else GpuShareOf(ss[0], nodeGPUs, slots) + ShareSum(ss[1..], nodeGPUs, slots)
  }

  /** CPU the sessions request together, each computed from the reference node. */
  function CpuSum(ss: seq<Spec>, ref: LiveNode, slots: int): int {
    if ss == [] then 0
    else Guarantee(ref.cpuCores, GpuShareOf(ss[0], ref.gpuCapacity, slots)) + CpuSum(ss[1..], ref, slots)
  }

  function CardSum(ss: seq<Spec>): int { if ss == [] then 0 else Max1(ss[0].gpuCount) + CardSum(ss[1..]) }

  function CoreSum(ss: seq<Spec>): int { if ss == [] then 0 else ss[0].corePercent + CoreSum(ss[1..]) }

  /** What the scheduler lets one node carry, by its share mode: whole cards, core percent, or time slots. */
  ghost predicate Carries(ss: seq<Spec>, nodeGPUs: int, slots: int) {
    || ((forall s <- ss :: s.mode == Exclusive) && CardSum(ss) <= Max1(nodeGPUs))
    || ((forall s <- ss :: s.mode == Shared && s.corePercent > 0) && CoreSum(ss) <= 100 * Max1(nodeGPUs))
    || ((forall s <- ss :: s.mode == Timeslice) && |ss| <= Max1(slots) * Max1(nodeGPUs))
  }

  lemma DivAdd(a: real, b: real, g: real)
    requires g > 0.0
    ensures a / g + b / g == (a + b) / g
  {
  }

  lemma MulMono(c: real, a: real, b: real)
    requires c >= 0.0 && a <= b
    ensures c * a <= c * b
  {
  }

  lemma DivAtMostOne(a: real, g: real)
    requires g > 0.0 && a <= g
    ensures a / g <= 1.0
  {
  }

  lemma {:induction false} ExclusiveShares(ss: seq<Spec>, nodeGPUs: int, slots: int)
    requires forall s <- ss :: s.mode == Exclusive
    ensures ShareSum(ss, nodeGPUs, slots) == CardSum(ss) as real / Max1(nodeGPUs) as real
  {
    if ss != [] {
      ExclusiveShares(ss[1..], nodeGPUs, slots);
      DivAdd(Max1(ss[0].gpuCount) as real, CardSum(ss[1..]) as real, Max1(nodeGPUs) as real);
      hide Max;
    }
  }

  lemma {:induction false} SharedShares(ss: seq<Spec>, nodeGPUs: int, slots: int)
    requires forall s <- ss :: s.mode == Shared
    ensures ShareSum(ss, nodeGPUs, slots) == (CoreSum(ss) as real / 100.0) / Max1(nodeGPUs) as real
  {
    if ss != [] {
      SharedShares(ss[1..], nodeGPUs, slots);
      DivAdd(ss[0].corePercent as real / 100.0, CoreSum(ss[1..]) as real / 100.0, Max1(nodeGPUs) as real);
      hide Max;
    }
  }

  lemma {:induction false} TimesliceShares(ss: seq<Spec>, nodeGPUs: int, slots: int)
    requires forall s <- ss :: s.mode == Timeslice
    ensures ShareSum(ss, nodeGPUs, slots) == (|ss| as real / Max1(slots) as real) / Max1(nodeGPUs) as real
  {
    if ss != [] {
      TimesliceShares(ss[1..], nodeGPUs, slots);
      var k := Max1(slots) as real;
      DivAdd(1.0, |ss[1..]| as real, k);
      DivAdd(1.0 / k, |ss[1..]| as real / k, Max1(nodeGPUs) as real);
      hide Max;
    }
  }

  /** Sessions that fit a node's GPUs hold shares that sum to one at most. */
  lemma SharesSumToOne(ss: seq<Spec>, nodeGPUs: int, slots: int)
    requires Carries(ss, nodeGPUs, slots)
    ensures ShareSum(ss, nodeGPUs, slots) <= 1.0
  {
    hide ShareSum, CardSum, CoreSum;
    var g := Max1(nodeGPUs);
    if (forall s <- ss :: s.mode == Exclusive) && CardSum(ss) <= g {
      ExclusiveShares(ss, nodeGPUs, slots);
      DivAtMostOne(CardSum(ss) as real, g as real);
    } else if (forall s <- ss :: s.mode == Shared) && CoreSum(ss) <= 100 * g {
      SharedShares(ss, nodeGPUs, slots);
      DivAtMostOne(CoreSum(ss) as real / 100.0, g as real);
    } else {
      TimesliceShares(ss, nodeGPUs, slots);
      SlotsAtMost(|ss|, Max1(slots), g);
      DivAtMostOne(|ss| as real / Max1(slots) as real, g as real);
    }
  }

  lemma SlotsAtMost(n: int, k: int, g: int)
    requires k > 0 && n <= k * g
    ensures n as real / k as real <= g as real
  {
    assert (k * g) as real == k as real * g as real;
    assert (k as real * g as real) / k as real == g as real;
  }

  lemma IdealAtMostShare(capacity: int, share: real)
    requires capacity > 0 && share > 0.0
    ensures 0.0 < Ideal(capacity, share) <= Half(capacity, share)
  {
    var e := if share > 1.0 then 1.0 else share;
    MulMono(capacity as real, e, share);
    assert capacity as real * e > 0.0;
  }

  lemma HalfOfNone(capacity: int)
    ensures Half(capacity, 0.0) == 0.0
  {
  }

  /** One more session: its request and its share join the sums. */
  lemma SumsOfFirst(ss: seq<Spec>, ref: LiveNode, slots: int)
    requires ss != []
    ensures var share := GpuShareOf(ss[0], ref.gpuCapacity, slots);
            && CpuSum(ss, ref, slots) as real == Guarantee(ref.cpuCores, share) as real
                + CpuSum(ss[1..], ref, slots) as real
            && Half(ref.cpuCores, ShareSum(ss, ref.gpuCapacity, slots))
               == Half(ref.cpuCores, share) + Half(ref.cpuCores, ShareSum(ss[1..], ref.gpuCapacity, slots))
  {
    hide GpuShareOf, Guarantee, Half;
    HalfOfSum(ref.cpuCores, GpuShareOf(ss[0], ref.gpuCapacity, slots), ShareSum(ss[1..], ref.gpuCapacity, slots));
  }

  lemma {:induction false} CpuSumBound(ss: seq<Spec>, ref: LiveNode, slots: int)
    requires ref.cpuCores > 0 && forall s <- ss :: GpuShareOf(s, ref.gpuCapacity, slots) > 0.0
    ensures CpuSum(ss, ref, slots) as real <= Half(ref.cpuCores, ShareSum(ss, ref.gpuCapacity, slots)) + |ss| as real
    ensures ss != [] ==>
              CpuSum(ss, ref, slots) as real < Half(ref.cpuCores, ShareSum(ss, ref.gpuCapacity, slots)) + |ss| as real
  {
    hide GpuShareOf, Guarantee, Half;
    if ss == [] {
      HalfOfNone(ref.cpuCores);
    } else {
      CpuSumBound(ss[1..], ref, slots);
      BelowIdealPlusOne(ref.cpuCores, GpuShareOf(ss[0], ref.gpuCapacity, slots));
      SumsOfFirst(ss, ref, slots);
      hide ShareSum, CpuSum;
    }
  }

  lemma BelowIdealPlusOne(capacity: int, share: real)
    requires capacity > 0 && share > 0.0
    ensures Guarantee(capacity, share) as real < Half(capacity, share) + 1.0
  {
    IdealAtMostShare(capacity, share);
  }

  lemma HalfOfSum(capacity: int, a: real, b: real)
    ensures Half(capacity, a + b) == Half(capacity, a) + Half(capacity, b)
  {
  }

  /**
   Sessions that fit the GPUs of a node request less than half of its cores plus one core each. The node may
   be any ready one of the type with as many GPUs as the reference node.
   */
  lemma HalfPlusOneEach(nodes: seq<LiveNode>, ss: seq<Spec>, gpuType: string, slots: int, m: LiveNode)
    requires ss != [] && forall s <- ss :: s.gpuType == gpuType && Grants(s, RefNode(nodes, gpuType), slots)
    requires m in nodes && Candidate(m, gpuType)
    requires RefNode(nodes, gpuType).Some? && m.gpuCapacity == RefNode(nodes, gpuType).value.gpuCapacity
    requires Carries(ss, m.gpuCapacity, slots)
    ensures 2 * CpuSum(ss, RefNode(nodes, gpuType).value, slots) < m.cpuCores + 2 * |ss|
  {
    hide ShareSum, CpuSum, Carries, GpuShareOf;
    RefNodeIsLeast(nodes, gpuType);
    var ref := RefNode(nodes, gpuType).value;
    assert Grants(ss[0], Some(ref), slots);
    CpuSumBound(ss, ref, slots);
    SharesSumToOne(ss, ref.gpuCapacity, slots);
    MulMono(ref.cpuCores as real * 0.5, ShareSum(ss, ref.gpuCapacity, slots), 1.0);
    assert Half(ref.cpuCores, ShareSum(ss, ref.gpuCapacity, slots)) <= ref.cpuCores as real * 0.5;
  }

  /** The half the comment in the code promises holds when no request is rounded up. */
  lemma {:induction false} HalfWhenRoundedDown(ss: seq<Spec>, ref: LiveNode, slots: int)
    requires ref.cpuCores > 0
    requires forall s <- ss ::
               var x := GpuShareOf(s, ref.gpuCapacity, slots); x > 0.0 && RoundsDown(Ideal(ref.cpuCores, x))
    ensures CpuSum(ss, ref, slots) as real <= Half(ref.cpuCores, ShareSum(ss, ref.gpuCapacity, slots))
  {
    hide GpuShareOf, Guarantee, Ideal, RoundsDown;
    if ss != [] {
      HalfWhenRoundedDown(ss[1..], ref, slots);
      AtMostIdealIff(ref.cpuCores, GpuShareOf(ss[0], ref.gpuCapacity, slots));
      IdealAtMostShare(ref.cpuCores, GpuShareOf(ss[0], ref.gpuCapacity, slots));
      SumsOfFirst(ss, ref, slots);
      hide ShareSum, CpuSum;
    }
  }

  /** Equal sessions that fill a node stay within half of it exactly when one of them is not rounded up. */
  lemma HalfForEqualSharesIff(ss: seq<Spec>, ref: LiveNode, slots: int)
    requires ref.cpuCores > 0 && ss != [] && forall s <- ss :: s == ss[0]
    requires ShareSum(ss, ref.gpuCapacity, slots) == 1.0
    ensures 2 * CpuSum(ss, ref, slots) <= ref.cpuCores
       <==> RoundsDown(Ideal(ref.cpuCores, GpuShareOf(ss[0], ref.gpuCapacity, slots)))
  {
    hide ShareSum, CpuSum, GpuShareOf, RoundsDown, Guarantee, Times;
    var share, g := GpuShareOf(ss[0], ref.gpuCapacity, slots),
        Guarantee(ref.cpuCores, GpuShareOf(ss[0], ref.gpuCapacity, slots));
    EqualSums(ss, ref, slots);
    OneOfMany(|ss|, share, ref.cpuCores, g);
    AtMostIdealIff(ref.cpuCores, share);
  }

  lemma OneOfMany(k: int, share: real, cores: int, g: int)
    requires k > 0 && cores > 0 && Times(k, share) == 1.0
    ensures 0.0 < share <= 1.0
    ensures 2.0 * Times(k, g as real) <= cores as real <==> g as real <= Ideal(cores, share)
  {
    var n, c := k as real, cores as real;
    assert share == 1.0 / n;
    assert n * (c * share * 0.5) == c * 0.5 * (n * share);
    if g as real <= Ideal(cores, share) {
      MulMono(n, g as real, Ideal(cores, share));
    } else {
      assert n * g as real > n * Ideal(cores, share);
    }
  }

  function Times(k: nat, x: real): real { k as real * x }

  lemma TimesStep(k: nat, x: real)
    ensures Times(k + 1, x) == x + Times(k, x) && Times(0, x) == 0.0
  {
  }

  lemma {:induction false} EqualSums(ss: seq<Spec>, ref: LiveNode, slots: int)
    requires forall s <- ss :: s == ss[0]
    ensures ss != [] ==>
              var share := GpuShareOf(ss[0], ref.gpuCapacity, slots);
              && ShareSum(ss, ref.gpuCapacity, slots) == Times(|ss|, share)
              && CpuSum(ss, ref, slots) as real == Times(|ss|, Guarantee(ref.cpuCores, share) as real)
  {
    hide GpuShareOf, Guarantee, Times;
    if ss != [] {
      var share := GpuShareOf(ss[0], ref.gpuCapacity, slots);
      TimesStep(|ss| - 1, share);
      TimesStep(|ss| - 1, Guarantee(ref.cpuCores, share) as real);
      if |ss| > 1 {
        assert ss[1] in ss && forall s <- ss[1..] :: s in ss;
        EqualSums(ss[1..], ref, slots);
      } else {
        assert ss[1..] == [];
      }
    }
  }

  /**
   Without that condition the half fails, and so does the node: four sessions of 12% of its card ask two
   cores for four.
   */
  lemma HalfCanFail()
    ensures var ref := LiveNode("n", "A", 1, 40000, "hami", true, false, 2, 16);
            var s := Spec(Shared, "A", 0, 5000, 12);
            var ss := [s, s, s, s];
            Carries(ss, 1, 1) && CpuSum(ss, ref, 1) == 4
  {
    var ref := LiveNode("n", "A", 1, 40000, "hami", true, false, 2, 16);
    var s := Spec(Shared, "A", 0, 5000, 12);
    EqualSums([s, s, s, s], ref, 1);
    assert Guarantee(2, GpuShareOf(s, 1, 1)) == 1;
    assert [s, s, s, s][1..] == [s, s, s] && [s, s, s][1..] == [s, s] && [s, s][1..] == [s];
    assert CoreSum([s]) == 12 && CoreSum([s, s]) == 24;
  }
}
