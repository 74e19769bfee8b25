/**
 The node a session is pinned to for its cached datasets, chosen before scheduling
 (backend/internal/session/service.go), and the required placement terms the Pod builder emits later
 (backend/internal/k8s/mapper.go): they must not exclude each other.
 */
module DatasetPin {
  import opened Options
  import opened Inventory
  import opened SessionTable

  // ----- placement terms

  const SHARE_MODE_LABEL := "giosk.io/share-mode"
  const HOSTNAME_LABEL := "kubernetes.io/hostname"
  const TIMESLICING := "timeslicing"
  const HAMI := "hami"

  datatype Operator = In | NotIn

  datatype Requirement = Requirement(key: string, op: Operator, values: seq<string>)

  type Labels = map<string, string>

  /** The scheduler's reading: NotIn also accepts a node without the label. */
  predicate Matches(labels: Labels, r: Requirement) {
    var member := r.key in labels && labels[r.key] in r.values;
    if r.op == In then member else !member
  }

  predicate MatchesAll(labels: Labels, rs: seq<Requirement>) { forall r <- rs :: Matches(labels, r) }

  function LabelOf(labels: Labels, key: string): string { if key in labels then labels[key] else "" }

  function ShareModeReqs(mode: Mode): seq<Requirement> {
    match mode
    case Timeslice => [Requirement(SHARE_MODE_LABEL, In, [TIMESLICING])]
    case Exclusive => [Requirement(SHARE_MODE_LABEL, NotIn, [TIMESLICING, HAMI])]
    case Shared => [Requirement(SHARE_MODE_LABEL, In, [HAMI])]
    case Cpu => []
  }

  predicate ShareModeAllows(mode: Mode, shareMode: string) {
    match mode
    case Timeslice => shareMode == TIMESLICING
    case Exclusive => shareMode != TIMESLICING && shareMode != HAMI
    case Shared => shareMode == HAMI
    case Cpu => true
  }

  /** The early check and the emitted term agree on every node, labelled or not. */
  lemma AllowsIffMatches(mode: Mode, labels: Labels)
    ensures ShareModeAllows(mode, LabelOf(labels, SHARE_MODE_LABEL)) <==> MatchesAll(labels, ShareModeReqs(mode))
  {
    match mode {
      case Timeslice => assert Requirement(SHARE_MODE_LABEL, In, [TIMESLICING]) in ShareModeReqs(mode);
      case Exclusive => assert Requirement(SHARE_MODE_LABEL, NotIn, [TIMESLICING, HAMI]) in ShareModeReqs(mode);
      case Shared => assert Requirement(SHARE_MODE_LABEL, In, [HAMI]) in ShareModeReqs(mode);
      case Cpu =>
    }
  }

  function NodeSelector(s: Spec, gpuTypeLabel: string): Labels {
    if s.gpuType == "" || s.mode == Cpu then map[] else map[gpuTypeLabel := s.gpuType]
  }

  datatype Affinity = Affinity(required: seq<Requirement>, preferred: seq<string>)

  /** Required terms are the share-mode terms and, with a pin, its hostname; None when nothing is asked. */
  method NodeAffinity(prefer: seq<string>, require: string, reqs: seq<Requirement>) returns (a: Option<Affinity>)
    ensures a.None? <==> prefer == [] && require == "" && reqs == []
    ensures a.Some? ==> a.value == Affinity(RequiredTerms(require, reqs), prefer)
  {
    if prefer == [] && require == "" && reqs == [] {
      return None;
    }
    var required := reqs;
    if require != "" {
      required := required + [Requirement(HOSTNAME_LABEL, In, [require])];
    }
    a := Some(Affinity(required, prefer));
  }

  function RequiredTerms(require: string, reqs: seq<Requirement>): seq<Requirement> {
    reqs + if require == "" then [] else [Requirement(HOSTNAME_LABEL, In, [require])]
  }

  /** The node accepts the Pod the builder makes for this specification and pin. */
  predicate Accepts(n: LiveNode, labels: Labels, s: Spec, pin: string, gpuTypeLabel: string) {
    && n.ready && !n.cordoned
    && (forall k <- NodeSelector(s, gpuTypeLabel) :: k in labels && labels[k] == NodeSelector(s, gpuTypeLabel)[k])
    && MatchesAll(labels, RequiredTerms(pin, ShareModeReqs(s.mode)))
  }

  /** How the inventory reads a node's labels, and the hostname label every node carries. */
  ghost predicate ReadFrom(n: LiveNode, labels: Labels, gpuTypeLabel: string) {
    && n.gpuType == LabelOf(labels, gpuTypeLabel)
    && n.shareMode == LabelOf(labels, SHARE_MODE_LABEL)
    && HOSTNAME_LABEL in labels && labels[HOSTNAME_LABEL] == n.name
  }

  // ----- candidates

  predicate Pinnable(n: LiveNode, s: Spec) {
    && n.ready && !n.cordoned
    && (s.mode == Cpu || s.gpuType == "" || n.gpuType == s.gpuType)
    && ShareModeAllows(s.mode, n.shareMode)
  }

  /** None when the inventory cannot be read: then nothing is ruled out. */
  method PinnableNodes(nodes: Option<seq<LiveNode>>, s: Spec) returns (out: Option<set<string>>)
    ensures out.None? <==> nodes.None? || nodes.value == []
    ensures out.Some? ==> out.value == set n <- nodes.value | Pinnable(n, s) :: n.name
  {
    if nodes.None? || nodes.value == [] {
      return None;
    }
    var names: set<string> := {};
    var ns := nodes.value;
    for i := 0 to |ns|
      invariant names == set n <- ns[..i] | Pinnable(n, s) :: n.name
    {
      assert ns[..i + 1] == ns[..i] + [ns[i]];
      if !ns[i].ready || ns[i].cordoned {
        continue;
      }
      if !(s.mode == Cpu || s.gpuType == "" || ns[i].gpuType == s.gpuType) {
        continue;
      }
      if !ShareModeAllows(s.mode, ns[i].shareMode) {
        continue;
      }
      names := names + {ns[i].name};
    }
    assert ns[..|ns|] == ns;
    out := Some(names);
  }

  /** Cards that running exclusive container sessions hold on a node. */
  function CardsHeld(rows: seq<Row>, node: string): int {
    if rows == [] then 0
    else
      var r := rows[|rows| - 1];
      CardsHeld(rows[..|rows| - 1], node)
      + (if r.node == node && r.node != "" && r.env != Ssh && r.spec.mode == Exclusive
         then Max(r.spec.gpuCount, 1) else 0)
  }

  /** Cards of the node with this name, the last one listed winning; none when it is not listed. */
  function CardsOf(nodes: seq<LiveNode>, name: string): int {
    if nodes == [] then 0
    else
      var n := nodes[|nodes| - 1];
      if n.name == name then n.gpuCapacity else CardsOf(nodes[..|nodes| - 1], name)
  }

  /** Cards left on a node as far as the reads tell: with unreadable sessions, all of them. */
  function CardsLeft(nodes: seq<LiveNode>, running: Option<seq<Row>>, name: string): int {
    CardsOf(nodes, name) - if running.Some? then CardsHeld(running.value, name) else 0
  }

  method FreeGpuByNode(nodes: Option<seq<LiveNode>>, running: Option<seq<Row>>) returns (free: Option<map<string, int>>)
    ensures free.None? <==> nodes.None? || nodes.value == []
    ensures free.Some? ==> forall m :: Get(free.value, m) == CardsLeft(nodes.value, running, m)
  {
    if nodes.None? || nodes.value == [] {
      return None;
    }
    var ns, left := nodes.value, map[];
    for i := 0 to |ns|
      invariant forall m :: Get(left, m) == CardsOf(ns[..i], m)
    {
      assert ns[..i + 1][..i] == ns[..i];
      left := left[ns[i].name := ns[i].gpuCapacity];
    }
    assert ns[..|ns|] == ns;
    if running.None? {
      return Some(left);
    }
    var rows := running.value;
    for i := 0 to |rows|
      invariant forall m :: Get(left, m) == CardsOf(ns, m) - CardsHeld(rows[..i], m)
    {
      var r := rows[i];
      assert rows[..i + 1][..i] == rows[..i];
      if r.node == "" || r.env == Ssh || r.spec.mode != Exclusive {
        continue;
      }
      left := left[r.node := Get(left, r.node) - Max(r.spec.gpuCount, 1)];
    }
    assert rows[..|rows|] == rows;
    free := Some(left);
  }

  // ----- the choice

  function Count(s: seq<string>, n: string): nat {
    if s == [] then 0 else Count(s[..|s| - 1], n) + if s[|s| - 1] == n then 1 else 0
  }

  ghost function PickID(m: map<int, seq<string>>): (id: int)
    requires m != map[]
    ensures id in m
  {
    assert (forall id: int :: id !in m) ==> m == map[];
    var id :| id in m; id
  }

  /** On how many of the datasets' cache lists the node stands. */
  ghost function Score(cached: map<int, seq<string>>, n: string): nat
    decreases |cached|
  {
    if cached == map[] then 0
    else
      var id := PickID(cached);
      assert (cached - {id}).Keys == cached.Keys - {id};
      Count(cached[id], n) + Score(cached - {id}, n)
  }

  /** The score does not depend on the order the datasets are visited in. */
  lemma {:induction false} ScoreRemove(cached: map<int, seq<string>>, id: int, n: string)
    requires id in cached
    ensures Score(cached, n) == Count(cached[id], n) + Score(cached - {id}, n)
    decreases |cached|
  {
    var p := PickID(cached);
    if p != id {
      assert (cached - {p}).Keys == cached.Keys - {p};
      assert (cached - {id}).Keys == cached.Keys - {id};
      ScoreRemove(cached - {p}, id, n);
      ScoreRemove(cached - {id}, p, n);
      assert cached - {p} - {id} == cached - {id} - {p};
    }
  }

  lemma ScoreWith(cached: map<int, seq<string>>, id: int, ns: seq<string>, n: string)
    requires id !in cached
    ensures Score(cached[id := ns], n) == Count(ns, n) + Score(cached, n)
  {
    ScoreRemove(cached[id := ns], id, n);
    assert cached[id := ns] - {id} == cached;
  }

  /** The score of a node is the number of its entries in all the lists: each entry adds one. */
  lemma EntryAddsOne(cached: map<int, seq<string>>, id: int, ns: seq<string>, m: string, n: string)
    requires id !in cached
    ensures Score(map[], n) == 0
    ensures Score(cached[id := []], n) == Score(cached, n)
    ensures Score(cached[id := ns + [m]], n) == Score(cached[id := ns], n) + if m == n then 1 else 0
  {
    hide Score;
    ScoreOfNone();
    ScoreWith(cached, id, [], n);
    ScoreWith(cached, id, ns, n);
    ScoreWith(cached, id, ns + [m], n);
    assert (ns + [m])[..|ns|] == ns;
  }

  /** What rules a node out: the pinnable set and the free cards, each None when it could not be read. */
  datatype Filter = Filter(pinnable: Option<set<string>>, free: Option<map<string, int>>, need: int)

  predicate Eligible(f: Filter, n: string) {
    && (f.pinnable.Some? ==> n in f.pinnable.value)
    && (f.free.Some? ==> Get(f.free.value, n) >= f.need)
  }

  /** The part of a node's score already counted: every list but those in rest, and what was seen of the current one. */
  ghost function Tally(cached: map<int, seq<string>>, rest: map<int, seq<string>>, seen: seq<string>, n: string): int {
    Score(cached, n) - Score(rest, n) + Count(seen, n)
  }

  /** Eligible nodes are scored by what has been visited, and the best of them is in hand. */
  ghost predicate Leading(score: map<string, int>, best: string, bestN: int, cached: map<int, seq<string>>,
                          rest: map<int, seq<string>>, seen: seq<string>, f: Filter)
  {
    && (forall n :: Get(score, n) == if Eligible(f, n) then Tally(cached, rest, seen, n) else 0)
    && (forall n :: Get(score, n) <= bestN)
    && 0 <= bestN && (bestN > 0 ==> Eligible(f, best) && Get(score, best) == bestN)
  }

  /** One entry of a cache list keeps the lead, whether its node is passed over or counted. */
  lemma Visit(score: map<string, int>, best: string, bestN: int, cached: map<int, seq<string>>,
              rest: map<int, seq<string>>, seen: seq<string>, f: Filter, n: string)
    requires Leading(score, best, bestN, cached, rest, seen, f)
    ensures !Eligible(f, n) ==> Leading(score, best, bestN, cached, rest, seen + [n], f)
    ensures Eligible(f, n) ==>
              var k := Get(score, n) + 1;
              Leading(score[n := k], if k > bestN then n else best, if k > bestN then k else bestN,
                      cached, rest, seen + [n], f)
  {
    hide Score, Eligible;
    assert (seen + [n])[..|seen|] == seen;
    var k := Get(score, n) + 1;
    forall m
      ensures Tally(cached, rest, seen + [n], m) == Tally(cached, rest, seen, m) + if m == n then 1 else 0
      ensures Get(score[n := k], m) == if m == n then k else Get(score, m)
    {
    }
    if Eligible(f, n) {
      var score', best', bestN' := score[n := k], if k > bestN then n else best, if k > bestN then k else bestN;
      assert forall m :: Get(score', m) == if Eligible(f, m) then Tally(cached, rest, seen + [n], m) else 0;
      assert forall m :: Get(score', m) <= bestN';
      assert bestN' > 0 ==> Eligible(f, best');
      assert bestN' > 0 ==> Get(score', best') == bestN';
    }
  }

  /** Finishing one list makes it one of the counted ones. */
  lemma FinishList(score: map<string, int>, best: string, bestN: int, cached: map<int, seq<string>>,
                   rest: map<int, seq<string>>, id: int, f: Filter)
    requires id in rest && Leading(score, best, bestN, cached, rest, rest[id], f)
    ensures Leading(score, best, bestN, cached, rest - {id}, [], f)
  {
    hide Score, Eligible;
    forall n ensures Tally(cached, rest, rest[id], n) == Tally(cached, rest - {id}, [], n) { ScoreRemove(rest, id, n); }
  }

  /** The scoring loop: an eligible node cached for the most datasets, None when no eligible node has any. */
  method BestCached(cached: map<int, seq<string>>, f: Filter) returns (pin: Option<string>)
    ensures match pin
            case Some(n) => Eligible(f, n) && Score(cached, n) > 0 &&
                            forall m :: Eligible(f, m) ==> Score(cached, m) <= Score(cached, n)
            case None => forall m :: Eligible(f, m) ==> Score(cached, m) == 0
  {
    hide Score, Tally, Count, Leading;
    var best, bestN := "", 0;
    var score: map<string, int> := map[];
    var rest := cached;
    StartEmpty(cached, f);
    while rest != map[]
      invariant Leading(score, best, bestN, cached, rest, [], f)
      decreases |rest|
    {
      assert (forall id: int :: id !in rest) ==> rest == map[];
      var id :| id in rest;
      var ns := rest[id];
      for i := 0 to |ns|
        invariant Leading(score, best, bestN, cached, rest, ns[..i], f)
      {
        var n := ns[i];
        assert ns[..i + 1] == ns[..i] + [n];
        Visit(score, best, bestN, cached, rest, ns[..i], f, n);
        if f.pinnable.Some? && n !in f.pinnable.value {
          continue;
        }
        if f.free.Some? && Get(f.free.value, n) < f.need {
          continue;
        }
        score := score[n := Get(score, n) + 1];
        if score[n] > bestN {
          best, bestN := n, score[n];
        }
      }
      assert ns[..|ns|] == ns;
      FinishList(score, best, bestN, cached, rest, id, f);
      assert (rest - {id}).Keys == rest.Keys - {id};
      rest := rest - {id};
    }
    LeadAtEnd(score, best, bestN, cached, f);
    if bestN == 0 {
      return None;
    }
    pin := Some(best);
  }

  lemma StartEmpty(cached: map<int, seq<string>>, f: Filter)
    ensures Leading(map[], "", 0, cached, cached, [], f)
  {
  }

  lemma LeadAtEnd(score: map<string, int>, best: string, bestN: int, cached: map<int, seq<string>>, f: Filter)
    requires Leading(score, best, bestN, cached, map[], [], f)
    ensures bestN >= 0 && forall m :: Eligible(f, m) ==> Score(cached, m) <= bestN
    ensures bestN > 0 ==> Eligible(f, best) && Score(cached, best) == bestN
  {
    hide Eligible;
    ScoreOfNone();
    forall m | Eligible(f, m) ensures Score(cached, m) == Get(score, m) {
      assert Tally(cached, map[], [], m) == Score(cached, m);
    }
  }

  lemma ScoreOfNone()
    ensures forall n :: Score(map[], n) == 0
  {
  }

  function Need(s: Spec): int { if s.mode == Exclusive then Max(s.gpuCount, 1) else 1 }

  /** A node readable, suitable and with enough free cards, as far as the two inventory reads tell. */
  ghost predicate CanHost(live: Option<seq<LiveNode>>, again: Option<seq<LiveNode>>, running: Option<seq<Row>>,
                          s: Spec, m: string) {
    && (live.Some? && live.value != [] ==> exists n <- live.value :: n.name == m && Pinnable(n, s))
    && (again.Some? && again.value != [] ==> CardsLeft(again.value, running, m) >= Need(s))
  }

  /** The whole choice: the inventory is read once for suitability and once more for free cards. */
  method PickDatasetNode(cacheOn: bool, ids: seq<int>, cached: map<int, seq<string>>, hostPaths: map<int, string>,
                         live: Option<seq<LiveNode>>, again: Option<seq<LiveNode>>, running: Option<seq<Row>>, s: Spec)
    returns (pin: Option<string>)
    ensures !cacheOn || ids == [] || hostPaths == map[] ==> pin.None?
    ensures pin.Some? ==> CanHost(live, again, running, s, pin.value) && Score(cached, pin.value) > 0
    ensures cacheOn && ids != [] && hostPaths != map[] ==>
              forall m :: CanHost(live, again, running, s, m) ==>
                Score(cached, m) <= if pin.Some? then Score(cached, pin.value) else 0
    ensures pin.Some? && again.Some? && again.value != [] ==>
              CardsLeft(again.value, running, pin.value) >=
              if s.mode == Exclusive && s.gpuCount > 1 then s.gpuCount else 1
  {
    hide Score;
    if !cacheOn || ids == [] {
      return None;
    }
    if hostPaths == map[] {
      return None;
    }
    var typeNodes := PinnableNodes(live, s);
    var freeGpu := FreeGpuByNode(again, running);
    var need := 1;
    if s.mode == Exclusive {
      need := Max(s.gpuCount, 1);
    }
    ghost var f := Filter(typeNodes, freeGpu, need);
    assert forall m :: Eligible(f, m) <==> CanHost(live, again, running, s, m);
    pin := BestCached(cached, Filter(typeNodes, freeGpu, need));
  }

  /**
   A pin is never contradictory: with a readable inventory, the node the choice may return satisfies every
   required term of the Pod built with that pin. Nodes are given with their labels, in the same order.
   */
  lemma PinIsAccepted(nodes: seq<LiveNode>, labels: seq<Labels>, s: Spec, gpuTypeLabel: string, pin: string)
    requires |nodes| == |labels| && (forall i :: 0 <= i < |nodes| ==> ReadFrom(nodes[i], labels[i], gpuTypeLabel))
    requires nodes != [] && CanHost(Some(nodes), None, None, s, pin)
    ensures exists i :: 0 <= i < |nodes| && nodes[i].name == pin && Accepts(nodes[i], labels[i], s, pin, gpuTypeLabel)
  {
    var n :| n in nodes && Pinnable(n, s) && n.name == pin;
    var i :| 0 <= i < |nodes| && nodes[i] == n;
    AllowsIffMatches(s.mode, labels[i]);
    forall r | r in RequiredTerms(pin, ShareModeReqs(s.mode)) ensures Matches(labels[i], r) {
      if r !in ShareModeReqs(s.mode) {
        assert r == Requirement(HOSTNAME_LABEL, In, [pin]);
      }
    }
  }

  /** Conversely, the choice rules out no node that would accept the Pod pinned to it. */
  lemma AcceptedIsPinnable(n: LiveNode, labels: Labels, s: Spec, gpuTypeLabel: string)
    requires ReadFrom(n, labels, gpuTypeLabel) && Accepts(n, labels, s, n.name, gpuTypeLabel)
    ensures Pinnable(n, s)
  {
    AllowsIffMatches(s.mode, labels);
    assert forall r <- ShareModeReqs(s.mode) :: r in RequiredTerms(n.name, ShareModeReqs(s.mode));
    if s.mode != Cpu && s.gpuType != "" {
      assert gpuTypeLabel in NodeSelector(s, gpuTypeLabel);
    }
  }

  /** Where the Pod may go, in the cluster's own labels. */
  lemma GoesWhere(n: LiveNode, labels: Labels, s: Spec, pin: string, gpuTypeLabel: string)
    ensures Accepts(n, labels, s, pin, gpuTypeLabel) <==>
            && n.ready && !n.cordoned
            && (s.mode != Cpu && s.gpuType != "" ==> gpuTypeLabel in labels && labels[gpuTypeLabel] == s.gpuType)
            && (var mode := if "giosk.io/share-mode" in labels then labels["giosk.io/share-mode"] else "";
                match s.mode
                case Timeslice => mode == "timeslicing"
                case Shared => mode == "hami"
                case Exclusive => mode != "timeslicing" && mode != "hami"
                case Cpu => true)
            && (pin != "" ==> "kubernetes.io/hostname" in labels && labels["kubernetes.io/hostname"] == pin)
  {
    AllowsIffMatches(s.mode, labels);
    var reqs, host := ShareModeReqs(s.mode), Requirement(HOSTNAME_LABEL, In, [pin]);
    if pin == "" {
      assert RequiredTerms(pin, reqs) == reqs;
    } else {
      assert RequiredTerms(pin, reqs) == reqs + [host];
      assert host in reqs + [host] && forall r <- reqs :: r in reqs + [host];
      assert Matches(labels, host) <==> HOSTNAME_LABEL in labels && labels[HOSTNAME_LABEL] == pin;
    }
    if s.mode != Cpu && s.gpuType != "" {
      assert gpuTypeLabel in NodeSelector(s, gpuTypeLabel);
    }
  }

  // ----- restarts, whose home is on one node's disk

  /** Some node accepts the Pod with this pin, and it is the one the session's home volume is on. */
  ghost predicate CanStart(nodes: seq<LiveNode>, labels: seq<Labels>, s: Spec, pin: string, home: string,
                           gpuTypeLabel: string)
    requires |nodes| == |labels|
  {
    exists i :: 0 <= i < |nodes| && nodes[i].name == home && Accepts(nodes[i], labels[i], s, pin, gpuTypeLabel)
  }

  /**
   A restart chooses its dataset pin without looking at the node its home is bound to. The Pod can start
   exactly when it could without the pin and the pin, if any, happens to be that node.
   */
  lemma RestartStartsIff(nodes: seq<LiveNode>, labels: seq<Labels>, s: Spec, pin: string, home: string,
                         gpuTypeLabel: string)
    requires |nodes| == |labels| && (forall i :: 0 <= i < |nodes| ==> ReadFrom(nodes[i], labels[i], gpuTypeLabel))
    ensures CanStart(nodes, labels, s, pin, home, gpuTypeLabel) <==>
            CanStart(nodes, labels, s, "", home, gpuTypeLabel) && (pin == "" || pin == home)
  {
    forall i | 0 <= i < |nodes| && nodes[i].name == home
      ensures Accepts(nodes[i], labels[i], s, pin, gpuTypeLabel) <==>
              Accepts(nodes[i], labels[i], s, "", gpuTypeLabel) && (pin == "" || pin == home)
    {
      PinAddsHostname(labels[i], ShareModeReqs(s.mode), pin);
    }
  }

  lemma PinAddsHostname(labels: Labels, reqs: seq<Requirement>, pin: string)
    requires HOSTNAME_LABEL in labels
    ensures MatchesAll(labels, RequiredTerms(pin, reqs)) <==>
            MatchesAll(labels, RequiredTerms("", reqs)) && (pin == "" || labels[HOSTNAME_LABEL] == pin)
  {
    var host := Requirement(HOSTNAME_LABEL, In, [pin]);
    assert Matches(labels, host) <==> labels[HOSTNAME_LABEL] == pin;
    assert RequiredTerms("", reqs) == reqs;
    if pin != "" {
      assert RequiredTerms(pin, reqs) == reqs + [host];
      assert host in reqs + [host] && forall r <- reqs :: r in reqs + [host];
    }
  }

  function GpuNode(name: string): LiveNode { LiveNode(name, "A", 1, 40000, "", true, false, 8, 64) }

  function GpuLabels(name: string): Labels { map["gpu" := "A", HOSTNAME_LABEL := name] }

  /** Two free nodes, the home on one and the data set cached on the other: the pin keeps the session from starting. */
  lemma RestartPinCanClash()
    ensures var nodes, labels := [GpuNode("a"), GpuNode("b")], [GpuLabels("a"), GpuLabels("b")];
            var s, cached := Spec(Exclusive, "A", 1, 0, 0), map[1 := ["b"]];
            && CanStart(nodes, labels, s, "", "a", "gpu")
            && CanHost(Some(nodes), Some(nodes), Some([]), s, "b")
            && Score(cached, "b") == 1 && (forall m :: m != "b" ==> Score(cached, m) == 0)
            && !CanStart(nodes, labels, s, "b", "a", "gpu")
  {
    var nodes, labels := [GpuNode("a"), GpuNode("b")], [GpuLabels("a"), GpuLabels("b")];
    var s, cached := Spec(Exclusive, "A", 1, 0, 0), map[1 := ["b"]];
    assert nodes[0].name == "a" && nodes[1].name == "b" && GpuNode("b") in nodes;
    assert nodes[..1] == [GpuNode("a")] && CardsOf(nodes, "b") == 1;
    forall m ensures Score(cached, m) == if m == "b" then 1 else 0 {
      ScoreRemove(cached, 1, m);
      assert cached - {1} == map[];
      ScoreOfNone();
      assert ["b"][..0] == [];
    }
    assert Accepts(nodes[0], labels[0], s, "", "gpu") by {
      assert NodeSelector(s, "gpu") == map["gpu" := "A"];
      assert RequiredTerms("", ShareModeReqs(s.mode)) == ShareModeReqs(s.mode);
      AllowsIffMatches(s.mode, labels[0]);
    }
    RestartStartsIff(nodes, labels, s, "b", "a", "gpu");
  }
}
