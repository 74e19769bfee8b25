/**
 Sessions whose Pod requires a hostname, the user's own choice or the node chosen for cached data sets: the
 gate asks for a seat anywhere, the Pod may take one on that node only (backend/internal/session/service.go).
 */
module PinnedSeats {
  import opened Options
  import opened Inventory
  import opened SessionTable
  import opened Availability
  import opened Gate
  import opened AdmissionProtocol
  import DatasetPin
  import SharedSeats
  import WholeCards

  // ----- accepted creates

  /** A reservation without a node takes nothing from any node, so what fits where is as it was before it. */
  lemma FreshCardMovesNothing(c: Cluster, t: Table, id: string, r: Row, s: Spec, node: string)
    requires id !in t && FreshRow(r)
    ensures WholeCards.FitsOn(c, t[id := r], s, node) <==> WholeCards.FitsOn(c, t, s, node)
  {
    hide Total;
    forall name ensures WholeCards.Used(t[id := r], name) == WholeCards.Used(t, name) {
      TotalPut(NodeCards(name), t, id, r);
    }
  }

  lemma FreshShareMovesNothing(c: Cluster, t: Table, id: string, r: Row, s: Spec, node: string)
    requires id !in t && FreshRow(r)
    ensures SharedSeats.FitsOn(c, t[id := r], s, node) <==> SharedSeats.FitsOn(c, t, s, node)
  {
    hide SharedSeats.Use, SharedSeats.Hold;
    SharedSeats.PutUse(t, id, r);
    assert SharedSeats.Use(t[id := r], node) == SharedSeats.Use(t, node);
  }

  /**
   An accepted create for one card, once committed, can be seated if and only if it requires no hostname or
   the node it requires had the card before the create: a check that could be made where the gate is asked.
   */
  lemma AcceptedCardIsSeatedIff(c: Cluster, steps: seq<Step>)
    requires WellFormed(c) && Legal(c, WholeCards.Assumed, EMPTY, steps + [Commit])
    requires var q := Exec(c, EMPTY, steps).stage;
             q.Cleared? && q.req.NewSession? && q.req.row.spec.mode == Exclusive && Need(q.req.row.spec) == 1
    ensures var s, t := Exec(c, EMPTY, steps), Exec(c, EMPTY, steps + [Commit]).rows;
            var q := s.stage.req;
            && q.id in t && t[q.id] == q.row
            && (WholeCards.CanSeat(c, t, q.row.spec, q.pin) <==>
                  q.pin == "" || WholeCards.FitsOn(c, s.rows, q.row.spec, q.pin))
  {
    hide WholeCards.Assumed, WholeCards.Bounded, WholeCards.FitsOn;
    var s := Exec(c, EMPTY, steps);
    var q := s.stage.req;
    OneMoreStep(c, WholeCards.Assumed, EMPTY, steps, Commit);
    WholeCards.EmptyInv(c);
    WholeCards.RunKeeps(c, EMPTY, steps);
    WholeCards.SingleCardHasSeat(c, steps + [Commit], q.id, q.pin);
    FreshCardMovesNothing(c, s.rows, q.id, q.row, q.row.spec, q.pin);
  }

  /** The same for shares. */
  lemma AcceptedShareIsSeatedIff(c: Cluster, steps: seq<Step>)
    requires WellFormed(c) && Legal(c, SharedSeats.Assumed, EMPTY, steps + [Commit])
    requires var q := Exec(c, EMPTY, steps).stage; q.Cleared? && q.req.NewSession? && q.req.row.spec.mode == Shared
    ensures var s, t := Exec(c, EMPTY, steps), Exec(c, EMPTY, steps + [Commit]).rows;
            var q := s.stage.req;
            && q.id in t && t[q.id] == q.row
            && (SharedSeats.CanSeat(c, t, q.row.spec, q.pin) <==>
                  q.pin == "" || SharedSeats.FitsOn(c, s.rows, q.row.spec, q.pin))
  {
    hide SharedSeats.Assumed, SharedSeats.Bounded, SharedSeats.FitsOn;
    var s := Exec(c, EMPTY, steps);
    var q := s.stage.req;
    OneMoreStep(c, SharedSeats.Assumed, EMPTY, steps, Commit);
    SharedSeats.EmptyInv(c);
    SharedSeats.RunKeeps(c, EMPTY, steps);
    SharedSeats.AnyPickLeavesRoom(c, steps + [Commit], q.id, q.pin, "");
    FreshShareMovesNothing(c, s.rows, q.id, q.row, q.row.spec, q.pin);
  }

  // ----- the data-set pin and full nodes

  /** What the pin's free-card count sees of the table: running whole-card sessions, the ones listed. */
  ghost predicate Lists(ids: seq<string>, t: Table) {
    && (forall i, j :: 0 <= i < j < |ids| ==> ids[i] != ids[j])
    && (forall id :: id in ids <==> id in t && t[id].phase == Running)
  }

  predicate Counted(r: Row) { r.phase == Running && r.env != Ssh && r.spec.mode == Exclusive }

  function RowsOf(ids: seq<string>, t: Table): seq<Row>
    requires forall id <- ids :: id in t
  {
    if ids == [] then [] else RowsOf(ids[..|ids| - 1], t) + [t[ids[|ids| - 1]]]
  }

  /** The rows the count passes over: sessions still starting, and those that share a card. */
  function Unseen(t: Table): Table { map id | id in t && !Counted(t[id]) :: t[id] }

  /** The part of the table that some listed rows stand for. */
  function Seen(ids: seq<string>, t: Table): Table { map id | id in t && id in ids && Counted(t[id]) :: t[id] }

  lemma OneMoreListed(rows: seq<Row>, r: Row, node: string)
    requires r.phase == Running
    ensures DatasetPin.CardsHeld(rows + [r], node) ==
            DatasetPin.CardsHeld(rows, node) + if Counted(r) then Weight(NodeCards(node), r) else 0
  {
    assert (rows + [r])[..|rows|] == rows;
  }

  lemma {:induction false} ListedCards(ids: seq<string>, t: Table, node: string)
    requires (forall i, j :: 0 <= i < j < |ids| ==> ids[i] != ids[j]) && forall id <- ids :: id in t
    requires forall id <- ids :: t[id].phase == Running
    ensures DatasetPin.CardsHeld(RowsOf(ids, t), node) == Total(NodeCards(node), Seen(ids, t))
  {
    hide Total, Weight, DatasetPin.CardsHeld, Counted;
    if ids == [] {
      NothingHeld(node);
      assert Seen(ids, t) == map[];
      NoWeight(NodeCards(node), Seen(ids, t));
    } else {
      var init, id := ids[..|ids| - 1], ids[|ids| - 1];
      assert id in ids && forall k <- init :: k in ids;
      ListedCards(init, t, node);
      OneMoreListed(RowsOf(init, t), t[id], node);
      assert forall k :: k in ids <==> k in init || k == id;
      assert id !in init;
      if Counted(t[id]) {
        assert Seen(ids, t) == Seen(init, t)[id := t[id]];
        TotalPut(NodeCards(node), Seen(init, t), id, t[id]);
      } else {
        assert Seen(ids, t) == Seen(init, t);
      }
    }
  }

  lemma NothingHeld(node: string)
    ensures DatasetPin.CardsHeld([], node) == 0
  {
  }

  lemma {:induction false} TotalSplit(q: Query, a: Table, b: Table)
    requires a.Keys !! b.Keys
    ensures Total(q, a + b) == Total(q, a) + Total(q, b)
    decreases |a|
  {
    hide Total, Weight;
    if a == map[] {
      assert a + b == b;
      NoWeight(q, a);
    } else {
      var id := Pick(a);
      TotalRemove(q, a, id);
      TotalRemove(q, a + b, id);
      assert (a + b) - {id} == (a - {id}) + b;
      assert (a - {id}).Keys == a.Keys - {id};
      TotalSplit(q, a - {id}, b);
    }
  }

  /**
   A whole-card session pinned to a node the choice found free has its cards there if and only if the rows
   the choice did not count, sessions still starting and sessions that share, leave them.
   */
  lemma PinHasCardsIff(c: Cluster, t: Table, ids: seq<string>, s: Spec, n: LiveNode)
    requires WellFormed(c) && Lists(ids, t) && s.mode == Exclusive
    requires n in c.nodes && WholeCards.IsWhole(c, n) && n.gpuType == s.gpuType
    ensures var left := DatasetPin.CardsLeft(c.nodes, Some(RowsOf(ids, t)), n.name);
            && left == n.gpuCapacity - WholeCards.Used(t, n.name) + Total(NodeCards(n.name), Unseen(t))
            && (WholeCards.FitsOn(c, t, s, n.name) <==> Need(s) + Total(NodeCards(n.name), Unseen(t)) <= left)
            && (DatasetPin.CanHost(Some(c.nodes), Some(c.nodes), Some(RowsOf(ids, t)), s, n.name) <==>
                DatasetPin.Pinnable(n, s) && Need(s) <= left)
  {
    hide Total;
    ListedCards(ids, t, n.name);
    assert Seen(ids, t) + Unseen(t) == t;
    TotalSplit(NodeCards(n.name), Seen(ids, t), Unseen(t));
    CardsOfListed(c.nodes, n);
    assert forall m <- c.nodes :: m.name == n.name ==> m == n;
  }

  lemma {:induction false} CardsOfListed(nodes: seq<LiveNode>, n: LiveNode)
    requires UniqueNames(nodes) && n in nodes
    ensures DatasetPin.CardsOf(nodes, n.name) == n.gpuCapacity
  {
    var init, last := nodes[..|nodes| - 1], nodes[|nodes| - 1];
    if last != n {
      assert n in init;
      var i :| 0 <= i < |init| && init[i] == n;
      assert nodes[i].name != nodes[|nodes| - 1].name;
      CardsOfListed(init, n);
    }
  }

  /**
   To the choice every split node looks wholly free, however full it is: for a share it rules out a split node
   exactly when it would with nobody there.
   */
  lemma SplitNodesLookFree(c: Cluster, t: Table, ids: seq<string>, s: Spec, n: LiveNode)
    requires WellFormed(c) && WholeCards.RowsOk(c, t) && (forall id <- ids :: id in t)
    requires n in c.nodes && n.name in c.hami && n.gpuCapacity != 0 && s.mode == Shared
    ensures DatasetPin.CardsLeft(c.nodes, Some(RowsOf(ids, t)), n.name) == n.gpuCapacity
    ensures DatasetPin.CanHost(Some(c.nodes), Some(c.nodes), Some(RowsOf(ids, t)), s, n.name) <==>
            DatasetPin.Pinnable(n, s)
  {
    NoCardsHeld(c, t, ids, n);
    CardsOfListed(c.nodes, n);
    assert forall m <- c.nodes :: m.name == n.name ==> m == n;
  }

  lemma {:induction false} NoCardsHeld(c: Cluster, t: Table, ids: seq<string>, n: LiveNode)
    requires WellFormed(c) && WholeCards.RowsOk(c, t) && (forall id <- ids :: id in t)
    requires n in c.nodes && n.name in c.hami
    ensures DatasetPin.CardsHeld(RowsOf(ids, t), n.name) == 0
  {
    if ids != [] {
      var init, id := ids[..|ids| - 1], ids[|ids| - 1];
      assert id in ids && forall k <- init :: k in ids;
      NoCardsHeld(c, t, init, n);
      assert WholeCards.RowOk(c, t[id]);
      assert RowsOf(ids, t)[..|RowsOf(init, t)|] == RowsOf(init, t);
    }
  }

  // ----- a pin to a full node

  function SplitNode(name: string): LiveNode { LiveNode(name, "A", 1, 1000, "hami", true, false, 8, 8) }

  const TWO_SPLIT := Cluster([SplitNode("full"), SplitNode("free")], {"full", "free"}, map[], map[], map[], 0)

  const WHOLE_SHARE := Spec(Shared, "A", 0, 1000, 100)

  const TAKEN := Row(0, Container, WHOLE_SHARE, Running, "full", None)

  lemma TakenUse(node: string)
    ensures SharedSeats.Use(map["x" := TAKEN], node) == if node == "full" then SharedSeats.Ask(WHOLE_SHARE) else NO_USE
    ensures SharedSeats.Hold(map["x" := TAKEN], "A") == NO_USE
  {
    hide Total;
    assert map["x" := TAKEN] == map[]["x" := TAKEN];
    forall q: Query ensures Total(q, map["x" := TAKEN]) == Weight(q, TAKEN) {
      TotalPut(q, map[], "x", TAKEN);
      NoWeight(q, map[]);
    }
  }

  /**
   Free cards are counted without the sessions that share them, so a share can be pinned to a node that has
   no room for it while another has: it is admitted and cannot be seated.
   */
  lemma PinCanBeFull()
    ensures var c, t := TWO_SPLIT, map["x" := TAKEN];
            && WellFormed(c) && PlaceNow(c, t, PlaceReq(WHOLE_SHARE, ""))
            && Lists(["x"], t) && DatasetPin.CanHost(Some(c.nodes), Some(c.nodes), Some(RowsOf(["x"], t)),
                WHOLE_SHARE, "full")
            && SharedSeats.FitsOn(c, t, WHOLE_SHARE, "free") && !SharedSeats.FitsOn(c, t, WHOLE_SHARE, "full")
            && SharedSeats.CanSeat(c, t, WHOLE_SHARE, "") && !SharedSeats.CanSeat(c, t, WHOLE_SHARE, "full")
  {
    hide PlaceNow, WellFormed, SharedSeats.Use, SharedSeats.Hold, DatasetPin.CanHost;
    var c, t := TWO_SPLIT, map["x" := TAKEN];
    TwoSplitIsWellFormed();
    RoomOnFreeOnly();
    assert SplitNode("free") in c.nodes && SplitNode("full") in c.nodes;
    GateSaysYes();
    FreeAsFarAsCounted(t);
  }

  lemma RoomOnFreeOnly()
    ensures var t, ask := map["x" := TAKEN], SharedSeats.Ask(WHOLE_SHARE);
            && SharedSeats.RoomFor(TWO_SPLIT, SplitNode("free"), "A", SharedSeats.Use(t, "free"), ask)
            && !SharedSeats.RoomFor(TWO_SPLIT, SplitNode("full"), "A", SharedSeats.Use(t, "full"), ask)
            && SharedSeats.Plus(SharedSeats.Hold(t, "A"), ask) == ask
  {
    hide SharedSeats.Use, SharedSeats.Hold;
    TakenUse("full");
    TakenUse("free");
  }

  lemma GateSaysYes()
    ensures PlaceNow(TWO_SPLIT, map["x" := TAKEN], PlaceReq(WHOLE_SHARE, ""))
  {
    hide SharedSeats.Use, SharedSeats.Hold, CanPlace, AvailOf, UsageOf, ReservedOf, WellFormed, SharedSeats.RoomFor;
    var c, t, s := TWO_SPLIT, map["x" := TAKEN], WHOLE_SHARE;
    TwoSplitIsWellFormed();
    RoomOnFreeOnly();
    assert c.nodes[1] == SplitNode("free");
    assert SharedSeats.RowsOk(t);
    SharedSeats.UsageReads(c, t);
    SharedSeats.SharedGate(c, UsageOf(c, t), t, s);
  }

  lemma TwoSplitIsWellFormed()
    ensures WellFormed(TWO_SPLIT)
  {
    assert SplitNode("full") in TWO_SPLIT.nodes;
  }

  lemma FreeAsFarAsCounted(t: Table)
    requires t == map["x" := TAKEN]
    ensures Lists(["x"], t)
    ensures DatasetPin.CanHost(Some(TWO_SPLIT.nodes), Some(TWO_SPLIT.nodes), Some(RowsOf(["x"], t)), WHOLE_SHARE,
            "full")
  {
    var nodes := TWO_SPLIT.nodes;
    assert nodes[..1] == [SplitNode("full")];
    assert RowsOf(["x"], t) == [TAKEN] by { assert ["x"][..0] == []; }
    assert [TAKEN][..0] == [];
    assert DatasetPin.CardsOf(nodes, "full") == 1 by {
      assert nodes[..|nodes| - 1] == [SplitNode("full")] && [SplitNode("full")][..0] == [];
    }
    assert DatasetPin.CardsHeld([TAKEN], "full") == 0;
    assert DatasetPin.CardsLeft(nodes, Some([TAKEN]), "full") == 1;
    assert SplitNode("full") in nodes && DatasetPin.Pinnable(SplitNode("full"), WHOLE_SHARE);
  }

  // ----- a node lost while the Pod waits

  const WAITING := TAKEN.(phase := Provisioning, node := "")

  const STARTING := TAKEN.(phase := Provisioning)

  lemma TablesRead()
    ensures var t := map["a" := STARTING, "b" := WAITING];
            && SharedSeats.Use(t, "full") == SharedSeats.Ask(WHOLE_SHARE) && SharedSeats.Use(t, "free") == NO_USE
            && forall gt :: SharedSeats.Hold(t, gt) == if gt == "A" then SharedSeats.Ask(WHOLE_SHARE) else NO_USE
    ensures var t := map["a" := WAITING, "b" := WAITING];
            && SharedSeats.Use(t, "full") == SharedSeats.Use(t, "free") == NO_USE
            && SharedSeats.Hold(t, "A") == ShareUse(2000, 200, 2)
    ensures SharedSeats.Use(map["a" := WAITING, "b" := TAKEN], "full") == SharedSeats.Ask(WHOLE_SHARE)
  {
    hide SharedSeats.Use, SharedSeats.Hold, SharedSeats.RowUse, SharedSeats.RowHold;
    RowsRead();
    SharedSeats.UseOfTwo(STARTING, WAITING);
    SharedSeats.UseOfTwo(WAITING, WAITING);
    SharedSeats.UseOfTwo(WAITING, TAKEN);
  }

  lemma RowsRead()
    ensures SharedSeats.RowUse(STARTING, "full") == SharedSeats.RowUse(TAKEN, "full") == SharedSeats.Ask(WHOLE_SHARE)
    ensures SharedSeats.RowUse(STARTING, "free") == NO_USE && forall node :: SharedSeats.RowUse(WAITING, node) == NO_USE
    ensures forall gt :: SharedSeats.RowHold(STARTING, gt) == NO_USE
    ensures forall gt :: SharedSeats.RowHold(WAITING, gt) == if gt == "A" then SharedSeats.Ask(WHOLE_SHARE) else NO_USE
  {
  }

  lemma BeforeLoss(t: Table)
    requires SharedSeats.Use(t, "full") == SharedSeats.Ask(WHOLE_SHARE) && SharedSeats.Use(t, "free") == NO_USE
    requires forall gt :: SharedSeats.Hold(t, gt) == if gt == "A" then SharedSeats.Ask(WHOLE_SHARE) else NO_USE
    ensures SharedSeats.Bounded(TWO_SPLIT, t) && !SharedSeats.FitsOn(TWO_SPLIT, t, WHOLE_SHARE, "full")
  {
    hide SharedSeats.Use, SharedSeats.Hold;
    var free := SplitNode("free");
    assert TWO_SPLIT.nodes[1] == free && free in TWO_SPLIT.nodes;
    assert SharedSeats.RoomFor(TWO_SPLIT, free, "A", SharedSeats.Use(t, "free"), SharedSeats.Hold(t, "A"));
  }

  lemma AfterLoss(t: Table)
    requires SharedSeats.Use(t, "full") == SharedSeats.Use(t, "free") == NO_USE
    requires SharedSeats.Hold(t, "A") == ShareUse(2000, 200, 2)
    ensures !SharedSeats.Bounded(TWO_SPLIT, t) && SharedSeats.FitsOn(TWO_SPLIT, t, WHOLE_SHARE, "full")
  {
    hide SharedSeats.Use, SharedSeats.Hold, SharedSeats.Together;
    TooMuchForOne(t);
    var full := SplitNode("full");
    assert TWO_SPLIT.nodes[0] == full && full in TWO_SPLIT.nodes;
    assert SharedSeats.RoomFor(TWO_SPLIT, full, "A", SharedSeats.Use(t, "full"), SharedSeats.Ask(WHOLE_SHARE));
  }

  lemma TooMuchForOne(t: Table)
    requires SharedSeats.Use(t, "full") == SharedSeats.Use(t, "free") == NO_USE
    requires SharedSeats.Hold(t, "A") == ShareUse(2000, 200, 2)
    ensures !SharedSeats.Together(TWO_SPLIT, t, "A")
  {
    hide SharedSeats.Use, SharedSeats.Hold;
  }

  lemma AfterTaken(t: Table)
    requires SharedSeats.Use(t, "full") == SharedSeats.Ask(WHOLE_SHARE)
    ensures !SharedSeats.CanSeat(TWO_SPLIT, t, WHOLE_SHARE, "full")
  {
    hide SharedSeats.Use;
  }

  /**
   A share is restarted on its own node, and another waits with room on the second one. The reconciler finds
   the Pod still pending and erases the node; the other is then free to take it, and the share, whose home is
   there, has no seat.
   */
  lemma LostNodeLosesSeat()
    ensures var c, t := TWO_SPLIT, map["a" := STARTING, "b" := WAITING];
            var t1 := UpdateLiveOf(t, "a", Provisioning, "");
            var t2 := UpdateLiveOf(t1, "b", Running, "full");
            && SharedSeats.Bounded(c, t) && !SharedSeats.Bounded(c, t1)
            && SharedSeats.FitsOn(c, t1, WHOLE_SHARE, "full") && !SharedSeats.FitsOn(c, t, WHOLE_SHARE, "full")
            && t2["a"] == WAITING && !SharedSeats.CanSeat(c, t2, WHOLE_SHARE, "full")
  {
    hide SharedSeats.Use, SharedSeats.Hold, SharedSeats.Bounded, SharedSeats.FitsOn, SharedSeats.CanSeat;
    var t, t1, t2 := map["a" := STARTING, "b" := WAITING], map["a" := WAITING, "b" := WAITING],
        map["a" := WAITING, "b" := TAKEN];
    assert UpdateLiveOf(t, "a", Provisioning, "") == t1 && UpdateLiveOf(t1, "b", Running, "full") == t2;
    TablesRead();
    BeforeLoss(t);
    AfterLoss(t1);
    AfterTaken(t2);
  }
}
