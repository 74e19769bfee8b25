/**
 Credit settlement of one session: GPU time while it runs, home storage while it is stopped
 (backend/internal/session/service.go, backend/internal/session/repo.go). Each tick charges the floor
 of everything due so far less what was already charged, all or nothing. Times are nanoseconds, and
 the floating-point arithmetic of the code is exact here.
 */
module Settlement {
  import opened Options

  const SECOND := 1_000_000_000
  const HOUR := 3600 * SECOND
  const HOME_GIB := 10
  const SECONDS_PER_MONTH := 730 * 3600

  /** The wallet's reply to a debit: it takes all, takes nothing, or the call fails. */
  datatype Answer = Accepted | Refused | Failed

  datatype Phase = Provisioning | Running | Stopped | Terminated

  /** The session's billing columns, then what the wallet and the usage ledger have been told. */
  datatype Bill = Bill(
    phase: Phase, price: int, startedAt: int, billed: int,
    stoppedSeconds: int, storageBilled: int, stoppedSince: Option<int>,
    runDebits: int, lifeDebits: int, storageDebits: int, usageSeconds: int, accepts: nat)

  function NewBill(price: int, now: int): Bill { Bill(Provisioning, price, now, 0, 0, 0, None, 0, 0, 0, 0, 0) }

  // ----- GPU time

  /** Whole credits due after this long at this price per hour, truncated toward zero as Go converts. */
  function TotalDue(price: int, elapsed: int): int {
    if elapsed >= 0 then price * elapsed / HOUR else -(price * -elapsed / HOUR)
  }

  /** The seconds a charge stands for in the usage ledger. */
  function SecondsOf(due: int, price: int): int
    requires price > 0
  {
    due * 3600 / price
  }

  function MarkStopped(b: Bill, now: int): Bill { b.(phase := Stopped, stoppedSince := Some(now)) }

  /** A settlement reckons with the row s as its caller read it, and writes the row b as it is now. */
  function SettleRead(b: Bill, s: Bill, now: int, final: bool, answer: Answer): Bill {
    if s.price <= 0 then b
    else
      var totalDue := TotalDue(s.price, now - s.startedAt);
      var due := totalDue - s.billed;
      if due <= 0 then b
      else match answer
        case Failed => b
        case Refused => if final then b else MarkStopped(b, now)
        case Accepted =>
          b.(billed := totalDue, runDebits := b.runDebits + due, lifeDebits := b.lifeDebits + due,
             usageSeconds := b.usageSeconds + SecondsOf(due, s.price), accepts := b.accepts + 1)
  }

  function Settle(b: Bill, now: int, final: bool, answer: Answer): Bill { SettleRead(b, b, now, final, answer) }

  // ----- storage of stopped sessions

  function StorageDueOf(seconds: int, price: int): int {
    if seconds <= 0 || price <= 0 then 0 else HOME_GIB * price * seconds / SECONDS_PER_MONTH
  }

  function SettleStorageRead(b: Bill, s: Bill, now: int, price: int, answer: Answer): Bill {
    if s.stoppedSince.None? then b
    else
      var since := s.stoppedSince.value;
      var elapsed := if now < since then 0 else (now - since) / SECOND;
      var total := s.stoppedSeconds + elapsed;
      var due := StorageDueOf(total, price) - s.storageBilled;
      var paid := if price > 0 && due > 0 && answer == Accepted then due else 0;
      b.(stoppedSeconds := total, storageBilled := s.storageBilled + paid,
         storageDebits := b.storageDebits + paid, stoppedSince := Some(now))
  }

  function SettleStorage(b: Bill, now: int, price: int, answer: Answer): Bill {
    SettleStorageRead(b, b, now, price, answer)
  }

  /** What follows the last storage settlement of a restart: the interval is closed and a new run begins. */
  function NewRun(b: Bill, now: int): Bill {
    b.(stoppedSince := None, startedAt := now, billed := 0, runDebits := 0, usageSeconds := 0, accepts := 0)
  }

  /** The session row with its billing columns; every method is given the row as its caller read it. */
  class Account {
    var bill: Bill

    constructor (price: int, now: int)
      ensures bill == NewBill(price, now)
      ensures bill.price == price && bill.startedAt == now && bill.billed == 0 && bill.stoppedSince == None
      ensures bill.stoppedSeconds == 0 && bill.storageBilled == 0
    {
      bill := NewBill(price, now);
    }

    method SettleRun(sess: Bill, now: int, final: bool, answer: Answer)
      modifies this
      ensures bill == SettleRead(old(bill), sess, now, final, answer)
      ensures final ==> bill.phase == old(bill.phase) && bill.stoppedSince == old(bill.stoppedSince)
      ensures answer != Accepted ==> bill == old(bill).(phase := bill.phase, stoppedSince := bill.stoppedSince)
      ensures sess.price <= 0 || (now < sess.startedAt && 0 <= sess.billed) ==> bill == old(bill)
      ensures sess.price > 0 && sess.startedAt <= now ==>
                var credit, run := 3_600_000_000_000, sess.price * (now - sess.startedAt);
                if run < credit * (sess.billed + 1) then bill == old(bill)
                else match answer
                     case Failed => bill == old(bill)
                     case Refused => !final ==> bill == old(bill).(phase := Stopped, stoppedSince := Some(now))
                     case Accepted =>
                       && credit * bill.billed <= run < credit * (bill.billed + 1)
                       && bill.lifeDebits == old(bill.lifeDebits) + bill.billed - sess.billed
                       && bill.phase == old(bill.phase) && bill.stoppedSince == old(bill.stoppedSince)
    {
      OwesACredit(sess.price, now - sess.startedAt, sess.billed);
      hide TotalDue;
      if sess.price <= 0 {
        return;
      }
      var totalDue := TotalDue(sess.price, now - sess.startedAt);
      var due := totalDue - sess.billed;
      if due <= 0 {
        return;
      }
      if answer == Failed {
        return;
      }
      if answer == Refused {
        if !final {
          bill := bill.(stoppedSince := Some(now));
          bill := bill.(phase := Stopped);
        }
        return;
      }
      bill := bill.(runDebits := bill.runDebits + due, lifeDebits := bill.lifeDebits + due,
                    accepts := bill.accepts + 1);
      bill := bill.(billed := totalDue);
      var secs := due * 3600 / sess.price;
      if secs > 0 {
        bill := bill.(usageSeconds := bill.usageSeconds + secs);
      } else {
        ShareNonNeg(due, sess.price);
      }
    }

    method SettleStopped(sess: Bill, now: int, price: int, answer: Answer)
      modifies this
      ensures bill == SettleStorageRead(old(bill), sess, now, price, answer)
      ensures bill.phase == old(bill.phase) && (sess.stoppedSince == None ==> bill == old(bill))
      ensures sess.stoppedSince.Some? && 0 <= sess.stoppedSeconds ==>
                && bill.stoppedSince == Some(now)
                && bill.stoppedSeconds ==
                   sess.stoppedSeconds + Max(now - sess.stoppedSince.value, 0) / 1_000_000_000
                && bill.storageDebits == old(bill.storageDebits) + bill.storageBilled - sess.storageBilled
                && var month, cost := 2_628_000, 10 * price * bill.stoppedSeconds;
                   if price <= 0 || cost < month * (sess.storageBilled + 1) || answer != Accepted then
                     bill.storageBilled == sess.storageBilled
                   else month * bill.storageBilled <= cost < month * (bill.storageBilled + 1)
    {
      if sess.stoppedSince.Some? {
        var total := sess.stoppedSeconds + Max(now - sess.stoppedSince.value, 0) / SECOND;
        CostsACredit(total, price, sess.storageBilled);
      }
      hide StorageDueOf;
      if sess.stoppedSince.None? {
        return;
      }
      var elapsed := if now < sess.stoppedSince.value then 0 else (now - sess.stoppedSince.value) / SECOND;
      var total := sess.stoppedSeconds + elapsed;
      var billed := sess.storageBilled;
      if price > 0 {
        var totalDue := StorageDueOf(total, price);
        var due := totalDue - billed;
        if due > 0 && answer == Accepted {
          bill := bill.(storageDebits := bill.storageDebits + due);
          billed := totalDue;
        }
      }
      bill := bill.(stoppedSeconds := total, storageBilled := billed, stoppedSince := Some(now));
    }

    method Stop(sess: Bill, now: int, answer: Answer)
      modifies this
      ensures bill == MarkStopped(SettleRead(old(bill), sess, now, true, answer), now)
      ensures bill.phase == Stopped && bill.stoppedSince == Some(now)
    {
      SettleRun(sess, now, true, answer);
      bill := bill.(stoppedSince := Some(now));
      bill := bill.(phase := Stopped);
    }

    method Terminate(sess: Bill, now: int, answer: Answer)
      modifies this
      ensures bill == SettleRead(old(bill), sess, now, true, answer).(phase := Terminated)
      ensures bill.phase == Terminated && bill.stoppedSince == old(bill.stoppedSince)
    {
      SettleRun(sess, now, true, answer);
      bill := bill.(phase := Terminated);
    }

    /** The tail of a restart; the phase was claimed before. */
    method FinishStart(sess: Bill, now: int, price: int, answer: Answer)
      modifies this
      ensures bill == NewRun(SettleStorageRead(old(bill), sess, now, price, answer), now)
      ensures bill.stoppedSince == None && bill.startedAt == now && bill.billed == 0 && bill.phase == old(bill.phase)
      ensures bill.storageDebits - old(bill.storageDebits) == bill.storageBilled -
              if sess.stoppedSince == None then old(bill.storageBilled) else sess.storageBilled
    {
      SettleStopped(sess, now, price, answer);
      bill := bill.(stoppedSince := None);
      bill := bill.(startedAt := now, billed := 0, runDebits := 0, usageSeconds := 0, accepts := 0);
    }
  }

  lemma ShareNonNeg(due: int, price: int)
    requires due >= 0 && price > 0
    ensures SecondsOf(due, price) >= 0
  {
  }

  /** Something is due exactly when the run is worth another credit, and then as many as it is worth. */
  lemma OwesACredit(price: int, elapsed: int, billed: int)
    ensures price > 0 && elapsed < 0 ==> TotalDue(price, elapsed) <= 0
    ensures price > 0 && TotalDue(price, elapsed) <= billed ==> price * elapsed < 3_600_000_000_000 * (billed + 1)
    ensures price > 0 && elapsed >= 0 && TotalDue(price, elapsed) > billed ==>
              price * elapsed >= 3_600_000_000_000 * (billed + 1)
    ensures price > 0 && elapsed >= 0 ==>
              3_600_000_000_000 * TotalDue(price, elapsed) <= price * elapsed
              < 3_600_000_000_000 * (TotalDue(price, elapsed) + 1)
  {
    if elapsed >= 0 {
      DivMod(price * elapsed, HOUR);
    } else {
      DivMod(price * -elapsed, HOUR);
      if price > 0 { MulMono(price, 0, -elapsed); }
      assert price * -elapsed == -(price * elapsed);
    }
  }

  /** The same for stored time: ten GiB for a month of 2 628 000 seconds cost ten times the price. */
  lemma CostsACredit(seconds: int, price: int, billed: int)
    ensures seconds >= 0 && price > 0 ==>
              2_628_000 * StorageDueOf(seconds, price) <= 10 * price * seconds
              < 2_628_000 * (StorageDueOf(seconds, price) + 1)
    ensures seconds >= 0 && price > 0 && StorageDueOf(seconds, price) <= billed ==>
              10 * price * seconds < 2_628_000 * (billed + 1)
    ensures seconds >= 0 && price > 0 && StorageDueOf(seconds, price) > billed ==>
              10 * price * seconds >= 2_628_000 * (billed + 1)
  {
    if seconds > 0 && price > 0 {
      DivMod(HOME_GIB * price * seconds, SECONDS_PER_MONTH);
    }
  }

  // ----- settlements with a row read earlier

  /** A charge reckoned with an earlier reading is counted once exactly when nothing was billed since. */
  lemma StaleRunIff(b: Bill, s: Bill, now: int, final: bool)
    requires b.runDebits == b.billed && s.price > 0 && TotalDue(s.price, now - s.startedAt) > s.billed
    ensures var b' := SettleRead(b, s, now, final, Accepted); b'.runDebits == b'.billed <==> s.billed == b.billed
  {
  }

  lemma StaleStorageIff(b: Bill, s: Bill, now: int, price: int, answer: Answer)
    requires b.storageDebits == b.storageBilled && s.stoppedSince.Some?
    ensures var b' := SettleStorageRead(b, s, now, price, answer);
            b'.storageDebits == b'.storageBilled <==> s.storageBilled == b.storageBilled
  {
  }

  /** A restart reads the row, the biller settles it, and the tail charges the same storage again. */
  lemma StaleStorageChargesTwice()
    ensures var s := NewBill(0, 0).(phase := Stopped, stoppedSince := Some(0));
            var month := SECONDS_PER_MONTH * SECOND;
            var b := SettleStorage(s, month, 1, Accepted);
            var b' := SettleStorageRead(b, s, month, 1, Accepted);
            b.storageDebits == b.storageBilled == 10 && b'.storageBilled == 10 && b'.storageDebits == 20
  {
    var month := SECONDS_PER_MONTH * SECOND;
    assert (month - 0) / SECOND == SECONDS_PER_MONTH;
    assert StorageDueOf(SECONDS_PER_MONTH, 1) == 10;
  }

  // ----- histories

  /**
   Stop is a stop by its user, an administrator, idleness, its lease or the scheduler; none of them looks
   at the phase, and no more does Terminate. Refresh is the reconciler's copy of a Pod's state, and Reprice
   the write of a reconfiguration. A restart is three events: the claim, and then its tail or its rollback.
   */
  datatype Event =
    | Tick(now: int, answer: Answer)
    | Stop(now: int, answer: Answer)
    | Terminate(now: int, answer: Answer)
    | Refresh(now: int, to: Phase)
    | StorageTick(now: int, price: int, answer: Answer)
    | Claim(now: int)
    | Tail(now: int, price: int, answer: Answer)
    | Rollback(now: int)
    | Reprice(now: int, price: int)

  /**
   What is true of the world, kept apart from the columns: the clock and the restarts under way; what
   finished runs were worth and were charged, and what the current run was worth when it ended; how long
   the phase has been stopped; and where marks and that time part: stopped and not marked, marked and not
   stopped, marked over. Then what settlements cut off, their number, and the highest storage price seen.
   */
  datatype World = World(
    clock: int, pending: nat, worth: int, charged: int, ended: Option<int>,
    stopped: int, unmarked: int, claimed: int, forgotten: int, lost: int, settles: nat, topPrice: int)

  function Start0(now: int): World { World(now, 0, 0, 0, None, 0, 0, 0, 0, 0, 0, 0) }

  /** What a run is worth: the floor over its whole length, nothing when it is free. */
  function Worth(price: int, elapsed: int): int { if price <= 0 then 0 else TotalDue(price, elapsed) }

  /** The current run, up to now or to its end. */
  function RunWorth(b: Bill, w: World): int {
    if w.ended.Some? then w.ended.value else Worth(b.price, w.clock - b.startedAt)
  }

  /** The guards of the code; every settlement reckons with the row as it is. */
  predicate Enabled(b: Bill, w: World, e: Event) {
    && w.clock <= e.now
    && match e
       case Tick(_, _) => b.phase == Running
       case StorageTick(_, _, _) => b.phase == Stopped
       case Claim(_) => b.phase == Stopped
       case Tail(_, _, _) => w.pending > 0
       case Rollback(_) => w.pending > 0
       case Refresh(_, to) => to != Terminated
       case _ => true
  }

  function Next(b: Bill, e: Event): Bill {
    match e
    case Tick(now, a) => Settle(b, now, false, a)
    case Stop(now, a) => MarkStopped(Settle(b, now, true, a), now)
    case Terminate(now, a) => Settle(b, now, true, a).(phase := Terminated)
    case Refresh(_, to) => b.(phase := to)
    case StorageTick(now, p, a) =>
      if b.stoppedSince.None? then b.(stoppedSince := Some(now)) else SettleStorage(b, now, p, a)
    case Claim(_) => b.(phase := Provisioning)
    case Tail(now, p, a) => NewRun(SettleStorage(b, now, p, a), now)
    case Rollback(_) => b.(phase := Stopped)
    case Reprice(_, p) => b.(price := p)
  }

  predicate Over(p: Phase) { p == Stopped || p == Terminated }

  /** Time passes with the row as it is. */
  function Advance(b: Bill, w: World, now: int): World {
    var dt := now - w.clock;
    w.(clock := now,
       stopped := w.stopped + if b.phase == Stopped then dt else 0,
       unmarked := w.unmarked + if b.phase == Stopped && b.stoppedSince.None? then dt else 0,
       claimed := w.claimed + if b.phase != Stopped && b.stoppedSince.Some? then dt else 0)
  }

  /** The event puts a stop mark on the row. */
  predicate Marks(b: Bill, e: Event) { e.Stop? || (e.Tick? && Next(b, e).phase == Stopped) }

  /** What the event means for the marks and for storage. */
  function Counted(b: Bill, w: World, e: Event): World {
    if b.stoppedSince.None? then w
    else if Marks(b, e) then w.(forgotten := w.forgotten + e.now - b.stoppedSince.value)
    else if e.StorageTick? || e.Tail? then
      w.(settles := w.settles + 1, topPrice := Max(w.topPrice, e.price),
         lost := w.lost + (e.now - b.stoppedSince.value) % SECOND)
    else w
  }

  /** What the event means for the run: a stop ends it, and the tail of a restart begins another. */
  function Ran(b: Bill, w: World, e: Event): World {
    match e
    case Tail(_, _, _) =>
      w.(pending := OneLess(w.pending), worth := w.worth + RunWorth(b, w), charged := w.charged + b.billed,
         ended := if Over(b.phase) then Some(0) else None)
    case Claim(_) => w.(pending := w.pending + 1)
    case Rollback(_) => Ends(b, w.(pending := OneLess(w.pending)), Stopped)
    case _ => Ends(b, w, Next(b, e).phase)
  }

  function OneLess(n: nat): nat { if n == 0 then 0 else n - 1 }

  function Ends(b: Bill, w: World, p: Phase): World {
    if Over(p) && w.ended.None? then w.(ended := Some(RunWorth(b, w))) else w
  }

  function Observe(b: Bill, w: World, e: Event): World {
    Ran(b, Counted(b, Advance(b, w, e.now), e), e)
  }

  predicate Legal(b: Bill, w: World, es: seq<Event>)
    decreases |es|
  {
    es == [] || (Enabled(b, w, es[0]) && Legal(Next(b, es[0]), Observe(b, w, es[0]), es[1..]))
  }

  function Exec(b: Bill, w: World, es: seq<Event>): (Bill, World)
    decreases |es|
  {
    if es == [] then (b, w) else Exec(Next(b, es[0]), Observe(b, w, es[0]), es[1..])
  }

  // ----- arithmetic

  lemma DueMono(price: int, a: int, b: int)
    requires price >= 0 && 0 <= a <= b
    ensures 0 <= TotalDue(price, a) <= TotalDue(price, b)
  {
    MulMono(price, a, b);
  }

  lemma MulMono(x: int, a: int, b: int)
    requires x >= 0 && a <= b
    ensures x * a <= x * b
  {
  }

  /** Floor of a share, from below and above. */
  lemma ShareBounds(due: int, price: int)
    requires due >= 0 && price > 0
    ensures 0 <= price * SecondsOf(due, price) <= 3600 * due < price * SecondsOf(due, price) + price
  {
    DivMod(due * 3600, price);
    ShareNonNeg(due, price);
    MulMono(price, 0, SecondsOf(due, price));
  }

  lemma DivMod(x: int, d: int)
    requires d > 0
    ensures d * (x / d) <= x < d * (x / d) + d
  {
    assert x == d * (x / d) + x % d;
  }

  lemma StorageMono(s: int, s': int, p: int, p': int)
    requires s <= s' && p <= p'
    ensures 0 <= StorageDueOf(s, p) <= StorageDueOf(s', p')
  {
    if s > 0 && p > 0 {
      MulMono(HOME_GIB * p, s, s');
      MulMono(s', HOME_GIB * p, HOME_GIB * p');
      assert HOME_GIB * p * s <= HOME_GIB * p * s' == s' * (HOME_GIB * p) <= s' * (HOME_GIB * p') == HOME_GIB * p' * s';
    }
  }

  // ----- GPU time

  /** Debits are what the columns say, and no run is charged more than it was worth. */
  ghost predicate RunInv(b: Bill, w: World) {
    && b.startedAt <= w.clock
    && (Over(b.phase) ==> w.ended.Some?)
    && b.runDebits == b.billed && b.lifeDebits == w.charged + b.billed
    && 0 <= b.billed <= RunWorth(b, w)
    && w.charged <= w.worth
  }

  ghost predicate RunOk(s: (Bill, World)) { RunInv(s.0, s.1) }

  /** The settlement that the event begins with, if any, takes something. */
  predicate Charges(b: Bill, e: Event) {
    && (e.Tick? || e.Stop? || e.Terminate?)
    && b.price > 0 && e.answer == Accepted && TotalDue(b.price, e.now - b.startedAt) > b.billed
  }

  /**
   What a run can bear. A charge after its end must be within its worth at the end, and a new price while it
   lasts must not make what was charged already more than the run is worth by now.
   */
  predicate Bearable(b: Bill, w: World, e: Event) {
    && (Charges(b, e) && w.ended.Some? ==> TotalDue(b.price, e.now - b.startedAt) <= w.ended.value)
    && (e.Reprice? && w.ended.None? ==> b.billed <= Worth(e.price, e.now - b.startedAt))
  }

  /** Exactly the bearable events keep the run bound, whatever the phase they find. */
  lemma RunStepExactly(b: Bill, w: World, e: Event)
    requires RunInv(b, w) && Enabled(b, w, e)
    ensures RunInv(Next(b, e), Observe(b, w, e)) <==> Bearable(b, w, e)
  {
    if b.price > 0 {
      DueMono(b.price, w.clock - b.startedAt, e.now - b.startedAt);
    }
    hide TotalDue, StorageDueOf;
    NothingDue(b.price);
  }

  lemma NothingDue(price: int)
    ensures TotalDue(price, 0) == 0
  {
  }

  predicate AllBearable(b: Bill, w: World, es: seq<Event>)
    decreases |es|
  {
    es == [] || (Bearable(b, w, es[0]) && AllBearable(Next(b, es[0]), Observe(b, w, es[0]), es[1..]))
  }

  /** The bound holds all along a history if and only if every event of it is bearable. */
  lemma {:induction false} RunsExactly(b: Bill, w: World, es: seq<Event>)
    requires RunInv(b, w) && Legal(b, w, es)
    ensures AllBearable(b, w, es) <==> forall k :: 0 <= k <= |es| ==> RunOk(Exec(b, w, es[..k]))
    decreases |es|
  {
    hide RunInv, Bearable, Next, Observe, Enabled;
    if es == [] {
      assert es[..0] == [];
    } else {
      var b1, w1, rest := Next(b, es[0]), Observe(b, w, es[0]), es[1..];
      RunStepExactly(b, w, es[0]);
      assert es[..0] == [];
      forall k | 0 <= k < |es| ensures Exec(b, w, es[..k + 1]) == Exec(b1, w1, rest[..k]) {
        assert es[..k + 1][0] == es[0] && es[..k + 1][1..] == rest[..k];
      }
      if RunInv(b1, w1) {
        RunsExactly(b1, w1, rest);
        forall k | 0 < k <= |es| ensures Exec(b, w, es[..k]) == Exec(b1, w1, rest[..k - 1]) { }
        if forall k :: 0 <= k <= |es| ==> RunOk(Exec(b, w, es[..k])) {
          forall k | 0 <= k <= |rest| ensures RunOk(Exec(b1, w1, rest[..k])) {
            assert Exec(b, w, es[..k + 1]) == Exec(b1, w1, rest[..k]);
          }
        }
      } else {
        assert rest[..0] == [] && Exec(b, w, es[..1]) == Exec(b1, w1, rest[..0]) == (b1, w1);
      }
    }
  }

  /**
   Run settlement, for any ticks, refusals, failures, stops, restarts and prices: the debits of a run equal
   the billed column and never exceed the floor over its time; over the session's life they never exceed the
   sum of the floors of its runs. It takes, and no more than that, that every event is bearable.
   */
  lemma RunBilling(price: int, now: int, es: seq<Event>)
    requires Legal(NewBill(price, now), Start0(now), es) && AllBearable(NewBill(price, now), Start0(now), es)
    ensures var (b, w) := Exec(NewBill(price, now), Start0(now), es);
            && b.runDebits == b.billed && 0 <= b.billed <= RunWorth(b, w)
            && b.lifeDebits <= w.worth + RunWorth(b, w)
            && (w.ended.None? && b.price > 0 ==> 3_600_000_000_000 * b.billed <= b.price * (w.clock - b.startedAt))
  {
    RunsExactly(NewBill(price, now), Start0(now), es);
    assert es[..|es|] == es && RunOk(Exec(NewBill(price, now), Start0(now), es[..|es|]));
    var (b, w) := Exec(NewBill(price, now), Start0(now), es);
    OwesACredit(b.price, w.clock - b.startedAt, b.billed);
  }

  /**
   Path independence: after an accepted settlement of a run that lasts, it has been charged exactly the floor
   over its elapsed time, whatever ticks and refusals went before.
   */
  lemma AcceptedSettlesAll(price: int, start: int, es: seq<Event>, now: int, final: bool)
    requires Legal(NewBill(price, start), Start0(start), es) && AllBearable(NewBill(price, start), Start0(start), es)
    requires var (b, w) := Exec(NewBill(price, start), Start0(start), es);
             w.ended.None? && b.price > 0 && w.clock <= now
    ensures var (b, w) := Exec(NewBill(price, start), Start0(start), es);
            var b', run := Settle(b, now, final, Accepted), b.price * (now - b.startedAt);
            && b'.runDebits == b'.billed
            && 3_600_000_000_000 * b'.billed <= run < 3_600_000_000_000 * (b'.billed + 1)
  {
    var (b, w) := Exec(NewBill(price, start), Start0(start), es);
    RunsExactly(NewBill(price, start), Start0(start), es);
    assert es[..|es|] == es && RunOk(Exec(NewBill(price, start), Start0(start), es[..|es|]));
    DueMono(b.price, w.clock - b.startedAt, now - b.startedAt);
    OwesACredit(b.price, now - b.startedAt, b.billed);
    hide TotalDue;
  }

  // ----- refusals

  /** A tick whose debit is refused stops the session and marks it, and takes nothing, once a credit is owed. */
  lemma RefusedTickStops(b: Bill, w: World, now: int)
    requires b.phase == Running && b.price > 0 && b.startedAt <= now
    requires b.price * (now - b.startedAt) >= 3_600_000_000_000 * (b.billed + 1)
    ensures Exec(b, w, [Tick(now, Refused)]).0 == b.(phase := Stopped, stoppedSince := Some(now))
  {
    OwesACredit(b.price, now - b.startedAt, b.billed);
    OneEvent(b, w, Tick(now, Refused));
    hide TotalDue;
  }

  lemma OneEvent(b: Bill, w: World, e: Event)
    ensures Exec(b, w, [e]) == (Next(b, e), Observe(b, w, e))
  {
    hide Next, Observe;
    assert [e][1..] == [];
    assert Exec(Next(b, e), Observe(b, w, e), []) == (Next(b, e), Observe(b, w, e));
  }

  /** So whoever still runs after a refused tick, at the end of any history, owed less than one credit. */
  lemma StillRunningOwesLittle(price: int, start: int, es: seq<Event>, now: int)
    requires Legal(NewBill(price, start), Start0(start), es + [Tick(now, Refused)])
    requires Exec(NewBill(price, start), Start0(start), es + [Tick(now, Refused)]).0.phase == Running
    ensures var b := Exec(NewBill(price, start), Start0(start), es).0;
            b.price > 0 ==> b.price * (now - b.startedAt) < 3_600_000_000_000 * (b.billed + 1)
  {
    var all := es + [Tick(now, Refused)];
    ExecSplit(NewBill(price, start), Start0(start), all, |es|);
    assert all[..|es|] == es && all[|es|..] == [Tick(now, Refused)];
    var (b, w) := Exec(NewBill(price, start), Start0(start), es);
    OneEvent(b, w, Tick(now, Refused));
    OwesACredit(b.price, now - b.startedAt, b.billed);
    hide TotalDue, Legal, Exec;
  }

  /** A stop or a termination settles and does what it is for, whatever the wallet says. */
  lemma FinalSettlesAndStops(b: Bill, w: World, now: int, answer: Answer)
    ensures var b' := Exec(b, w, [Stop(now, answer)]).0; b'.phase == Stopped && b'.stoppedSince == Some(now)
    ensures var b' := Exec(b, w, [Terminate(now, answer)]).0;
            b'.phase == Terminated && b'.stoppedSince == b.stoppedSince
    ensures answer != Accepted ==>
              && Exec(b, w, [Stop(now, answer)]).0.lifeDebits == b.lifeDebits
              && Exec(b, w, [Terminate(now, answer)]).0.lifeDebits == b.lifeDebits
  {
    OneEvent(b, w, Stop(now, answer));
    OneEvent(b, w, Terminate(now, answer));
    hide TotalDue;
  }

  // ----- the usage ledger

  /** The ledger trails the charged credits by less than one second per accepted charge, and is never ahead. */
  predicate LedgerFits(price: int, usage: int, billed: int, accepts: nat) {
    if price <= 0 then usage == 0 else price * usage <= 3600 * billed <= price * usage + accepts * (price - 1)
  }

  /** New prices while a run lasts leave its ledger right: the price charged so far, or one that comes to the same. */
  predicate Steady(b: Bill, w: World, es: seq<Event>)
    decreases |es|
  {
    es == [] ||
    (  && (es[0].Reprice? && w.ended.None? ==> LedgerFits(es[0].price, b.usageSeconds, b.billed, b.accepts))
       && Steady(Next(b, es[0]), Observe(b, w, es[0]), es[1..]))
  }

  /** One accepted charge keeps the ledger's two bounds. */
  lemma ChargeBounds(price: int, usage: int, billed: int, accepts: nat, due: int)
    requires price > 0 && due > 0
    requires price * usage <= 3600 * billed <= price * usage + accepts * (price - 1)
    ensures var usage', billed' := usage + SecondsOf(due, price), billed + due;
            price * usage' <= 3600 * billed' <= price * usage' + (accepts + 1) * (price - 1)
  {
    ShareBounds(due, price);
    assert price * (usage + SecondsOf(due, price)) == price * usage + price * SecondsOf(due, price);
    assert (accepts + 1) * (price - 1) == accepts * (price - 1) + (price - 1);
  }

  lemma LedgerStep(b: Bill, w: World, e: Event)
    requires RunInv(b, w) && Enabled(b, w, e)
    requires w.ended.None? ==> LedgerFits(b.price, b.usageSeconds, b.billed, b.accepts)
    requires e.Reprice? && w.ended.None? ==> LedgerFits(e.price, b.usageSeconds, b.billed, b.accepts)
    ensures var b', w' := Next(b, e), Observe(b, w, e);
            w'.ended.None? ==> LedgerFits(b'.price, b'.usageSeconds, b'.billed, b'.accepts)
  {
    if Charges(b, e) && w.ended.None? {
      ChargeBounds(b.price, b.usageSeconds, b.billed, b.accepts, TotalDue(b.price, e.now - b.startedAt) - b.billed);
    }
    hide TotalDue, StorageDueOf, SecondsOf;
  }

  lemma {:induction false} LedgerKeeps(b: Bill, w: World, es: seq<Event>)
    requires RunInv(b, w) && Legal(b, w, es) && AllBearable(b, w, es) && Steady(b, w, es)
    requires w.ended.None? ==> LedgerFits(b.price, b.usageSeconds, b.billed, b.accepts)
    ensures var (b', w') := Exec(b, w, es);
            RunInv(b', w') && (w'.ended.None? ==> LedgerFits(b'.price, b'.usageSeconds, b'.billed, b'.accepts))
    decreases |es|
  {
    hide RunInv, Bearable, Next, Observe, Enabled, LedgerFits;
    if es != [] {
      RunStepExactly(b, w, es[0]);
      LedgerStep(b, w, es[0]);
      LedgerKeeps(Next(b, es[0]), Observe(b, w, es[0]), es[1..]);
    }
  }

  /**
   After an accepted settlement of a run that lasts at a steady price, the usage ledger is behind the elapsed
   time by less than one credit's worth of time plus one second per accepted charge, and never ahead.
   */
  lemma LedgerTrails(price: int, start: int, es: seq<Event>, now: int, final: bool)
    requires Legal(NewBill(price, start), Start0(start), es)
    requires AllBearable(NewBill(price, start), Start0(start), es) && Steady(NewBill(price, start), Start0(start), es)
    requires var (b, w) := Exec(NewBill(price, start), Start0(start), es);
             w.ended.None? && b.price > 0 && w.clock <= now
    ensures var (b, w) := Exec(NewBill(price, start), Start0(start), es);
            var b', elapsed := Settle(b, now, final, Accepted), now - b.startedAt;
            && b.price * b'.usageSeconds * SECOND <= b.price * elapsed
            && b.price * elapsed < b.price * b'.usageSeconds * SECOND + HOUR + b'.accepts * b.price * SECOND
  {
    var (b, w) := Exec(NewBill(price, start), Start0(start), es);
    LedgerKeeps(NewBill(price, start), Start0(start), es);
    var b', elapsed := Settle(b, now, final, Accepted), now - b.startedAt;
    DueMono(b.price, w.clock - b.startedAt, elapsed);
    var due := TotalDue(b.price, elapsed) - b.billed;
    if due > 0 {
      ChargeBounds(b.price, b.usageSeconds, b.billed, b.accepts, due);
    }
    MulMono(b.price, 0, elapsed);
    DivMod(b.price * elapsed, HOUR);
    LedgerBehind(b.price, b'.usageSeconds, b'.billed, b'.accepts, b.price * elapsed);
  }

  lemma LedgerBehind(price: int, usage: int, billed: int, accepts: nat, priced: int)
    requires price > 0 && HOUR * billed <= priced < HOUR * billed + HOUR
    requires price * usage <= 3600 * billed <= price * usage + accepts * (price - 1)
    ensures price * usage * SECOND <= priced < price * usage * SECOND + HOUR + accepts * price * SECOND
  {
    assert accepts * (price - 1) == accepts * price - accepts;
  }

  // ----- charges that a run cannot bear

  /** Three events, one after the other. */
  lemma Exec3(b: Bill, w: World, e: Event, f: Event, g: Event)
    ensures var b1, w1 := Next(b, e), Observe(b, w, e);
            var b2, w2 := Next(b1, f), Observe(b1, w1, f);
            && Exec(b, w, [e, f, g]) == (Next(b2, g), Observe(b2, w2, g))
            && (Legal(b, w, [e, f, g]) <==> Enabled(b, w, e) && Enabled(b1, w1, f) && Enabled(b2, w2, g))
  {
    hide Next, Observe, Enabled;
    var b1, w1 := Next(b, e), Observe(b, w, e);
    var b2, w2 := Next(b1, f), Observe(b1, w1, f);
    var b3, w3 := Next(b2, g), Observe(b2, w2, g);
    assert [e, f, g][1..] == [f, g] && [f, g][1..] == [g] && [g][1..] == [];
    assert Exec(b3, w3, []) == (b3, w3) && Legal(b3, w3, []);
    assert Exec(b2, w2, [g]) == (b3, w3) && (Legal(b2, w2, [g]) <==> Enabled(b2, w2, g));
    assert Exec(b1, w1, [f, g]) == (b3, w3);
  }

  lemma Dues()
    ensures TotalDue(1, 0) == 0 && TotalDue(1, HOUR) == 1 && TotalDue(1, 10 * HOUR) == 10 && TotalDue(10, HOUR) == 10
  {
  }

  /** Nothing to charge at the start: the stop marks the row and ends a run that was worth nothing. */
  lemma StoppedAtOnce()
    ensures var b, w := NewBill(1, 0), Start0(0);
            && Enabled(b, w, Stop(0, Accepted))
            && Next(b, Stop(0, Accepted)) == b.(phase := Stopped, stoppedSince := Some(0))
            && Observe(b, w, Stop(0, Accepted)) == w.(ended := Some(0))
  {
    Dues();
    hide TotalDue, SecondsOf;
  }

  /** A final settlement of a row that has run up ten hours since its start, at one credit an hour. */
  lemma TenHours(b: Bill)
    requires b.price == 1 && b.startedAt == 0 && b.billed == 0
    ensures var b' := Settle(b, 10 * HOUR, true, Accepted);
            && b'.billed == 10 && b'.lifeDebits == b.lifeDebits + 10 && b'.phase == b.phase
  {
    Dues();
    hide TotalDue, SecondsOf;
  }

  /** Stopped at once, terminated ten hours later: the stopped hours are charged as run time. */
  lemma TerminateChargesStopped()
    ensures var b0, w0 := NewBill(1, 0), Start0(0);
            var es := [Stop(0, Accepted), Refresh(0, Stopped), Terminate(10 * HOUR, Accepted)];
            && Legal(b0, w0, es)
            && var (b, w) := Exec(b0, w0, es); b.lifeDebits == 10 && w.worth + RunWorth(b, w) == 0
  {
    hide SettleRead, Settle, TotalDue, Worth;
    var b := NewBill(1, 0).(phase := Stopped, stoppedSince := Some(0));
    StoppedAtOnce();
    TenHours(b);
    Exec3(NewBill(1, 0), Start0(0), Stop(0, Accepted), Refresh(0, Stopped), Terminate(10 * HOUR, Accepted));
  }

  /** Stopped, claimed ten hours later, and given up by the scheduler's watch before the tail: the same. */
  lemma ReapChargesStopped()
    ensures var b0, w0 := NewBill(1, 0), Start0(0);
            var es := [Stop(0, Accepted), Claim(10 * HOUR), Stop(10 * HOUR, Accepted)];
            && Legal(b0, w0, es)
            && var (b, w) := Exec(b0, w0, es); b.lifeDebits == 10 && w.worth + RunWorth(b, w) == 0
  {
    hide SettleRead, Settle, TotalDue, Worth;
    var b := NewBill(1, 0).(phase := Stopped, stoppedSince := Some(0));
    StoppedAtOnce();
    TenHours(b.(phase := Provisioning));
    Exec3(NewBill(1, 0), Start0(0), Stop(0, Accepted), Claim(10 * HOUR), Stop(10 * HOUR, Accepted));
  }

  /** Ten credits an hour, one hour charged, then a price of one: ten credits for a run worth one. */
  lemma RepriceOvercharges()
    ensures var b0, w0 := NewBill(10, 0), Start0(0);
            var es := [Refresh(0, Running), Tick(HOUR, Accepted), Reprice(HOUR, 1)];
            && Legal(b0, w0, es)
            && var (b, w) := Exec(b0, w0, es); b.runDebits == 10 && RunWorth(b, w) == 1
  {
    Dues();
    hide TotalDue, SecondsOf, StorageDueOf;
    Exec3(NewBill(10, 0), Start0(0), Refresh(0, Running), Tick(HOUR, Accepted), Reprice(HOUR, 1));
  }

  // ----- storage

  /** The time since the mark or the last settlement, which the next one will count. */
  function Unsettled(b: Bill, w: World): int { if b.stoppedSince.Some? then w.clock - b.stoppedSince.value else 0 }

  /** Stopped time that no mark covers or that a later mark covers up, less marked time that is not stopped. */
  function Net(w: World): int { w.unmarked + w.forgotten - w.claimed }

  /** The stopped time is accounted for to the nanosecond. */
  ghost predicate StoreInv(b: Bill, w: World) {
    && (b.stoppedSince.Some? ==> b.stoppedSince.value <= w.clock)
    && b.storageDebits == b.storageBilled
    && 0 <= b.storageBilled <= StorageDueOf(b.stoppedSeconds, w.topPrice)
    && 0 <= b.stoppedSeconds
    && 0 <= w.unmarked && 0 <= w.claimed && 0 <= w.forgotten && 0 <= w.lost <= w.settles * (SECOND - 1)
    && w.stopped == b.stoppedSeconds * SECOND + w.lost + Unsettled(b, w) + Net(w)
  }

  lemma StorageStep(b: Bill, w: World, price: int, answer: Answer)
    requires StoreInv(b, w) && b.stoppedSince.Some?
    ensures var w' := w.(settles := w.settles + 1, topPrice := Max(w.topPrice, price),
                         lost := w.lost + (w.clock - b.stoppedSince.value) % SECOND);
            StoreInv(SettleStorage(b, w.clock, price, answer), w')
  {
    var dt := w.clock - b.stoppedSince.value;
    var total, top := b.stoppedSeconds + dt / SECOND, Max(w.topPrice, price);
    StorageMono(b.stoppedSeconds, total, w.topPrice, top);
    StorageMono(total, total, price, top);
    assert dt == dt / SECOND * SECOND + dt % SECOND;
    assert (w.settles + 1) * (SECOND - 1) == w.settles * (SECOND - 1) + SECOND - 1;
    hide StorageDueOf;
  }

  /** Settling run time leaves the storage columns alone, and the mark as well unless it stops the row. */
  lemma SettleSparesStorage(b: Bill, e: Event)
    requires !e.StorageTick? && !e.Tail? && (e.Tick? ==> b.phase == Running)
    ensures var b' := Next(b, e);
            && b'.stoppedSeconds == b.stoppedSeconds && b'.storageBilled == b.storageBilled
            && b'.storageDebits == b.storageDebits
            && b'.stoppedSince == if Marks(b, e) then Some(e.now) else b.stoppedSince
  {
    hide TotalDue, SecondsOf;
  }

  lemma StoreStep(b: Bill, w: World, e: Event)
    requires StoreInv(b, w) && Enabled(b, w, e)
    ensures StoreInv(Next(b, e), Observe(b, w, e))
    ensures b.storageBilled <= Next(b, e).storageBilled && b.stoppedSeconds <= Next(b, e).stoppedSeconds
  {
    hide StorageDueOf, TotalDue, SecondsOf;
    var w1 := Advance(b, w, e.now);
    assert StoreInv(b, w1);
    if e.StorageTick? || e.Tail? {
      if b.stoppedSince.Some? {
        StorageStep(b, w1, e.price, e.answer);
        hide SettleStorageRead;
      }
    } else {
      SettleSparesStorage(b, e);
      hide SettleRead;
    }
  }

  lemma {:induction false} StoreKeeps(b: Bill, w: World, es: seq<Event>)
    requires StoreInv(b, w) && Legal(b, w, es)
    ensures var (b', w') := Exec(b, w, es);
            StoreInv(b', w') && b.storageBilled <= b'.storageBilled && b.stoppedSeconds <= b'.stoppedSeconds
    decreases |es|
  {
    hide StoreInv, Next, Observe, Enabled;
    if es != [] {
      StoreStep(b, w, es[0]);
      StoreKeeps(Next(b, es[0]), Observe(b, w, es[0]), es[1..]);
    }
  }

  /**
   Storage settlement over every history, under any prices and any answers: the billed column never decreases,
   equals the accepted debits, and stays within what the stopped seconds cost at the highest price seen. Those
   seconds are the time the phase was stopped, less the time the next settlement will count, less what settlements
   cut off, under a second each, and less the net of the time where mark and phase part.
   */
  lemma StorageBilling(price: int, now: int, es: seq<Event>, k: nat)
    requires Legal(NewBill(price, now), Start0(now), es) && k <= |es|
    ensures var (b, w) := Exec(NewBill(price, now), Start0(now), es);
            && 0 <= b.storageDebits == b.storageBilled
            && 2_628_000 * b.storageBilled <= 10 * Max(w.topPrice, 0) * b.stoppedSeconds
            && w.stopped == b.stoppedSeconds * 1_000_000_000 + Unsettled(b, w) + w.lost + Net(w)
            && 0 <= w.lost <= w.settles * 999_999_999 && 0 <= Unsettled(b, w)
    ensures Exec(NewBill(price, now), Start0(now), es[..k]).0.storageBilled
            <= Exec(NewBill(price, now), Start0(now), es).0.storageBilled
  {
    var (b, w) := Exec(NewBill(price, now), Start0(now), es[..k]);
    StoreKeeps(NewBill(price, now), Start0(now), es);
    ExecSplit(NewBill(price, now), Start0(now), es, k);
    StoreKeeps(NewBill(price, now), Start0(now), es[..k]);
    StoreKeeps(b, w, es[k..]);
    var (b', w') := Exec(NewBill(price, now), Start0(now), es);
    CostsACredit(b'.stoppedSeconds, w'.topPrice, b'.storageBilled);
    hide Legal, Exec, Net;
  }

  lemma {:induction false} ExecSplit(b: Bill, w: World, es: seq<Event>, k: nat)
    requires Legal(b, w, es) && k <= |es|
    ensures Legal(b, w, es[..k])
    ensures var (b', w') := Exec(b, w, es[..k]); Legal(b', w', es[k..]) && Exec(b', w', es[k..]) == Exec(b, w, es)
    decreases |es|
  {
    hide Next, Observe, Enabled;
    if k == 0 {
      assert es[0..] == es;
    } else {
      assert es[..k][1..] == es[1..][..k - 1] && es[k..] == es[1..][k - 1..];
      ExecSplit(Next(b, es[0]), Observe(b, w, es[0]), es[1..], k - 1);
    }
  }

  /**
   One accepted charge clears all arrears, whatever was refused before: the column becomes exactly what the
   stopped seconds cost at the current price, or stays where an earlier, higher price had put it.
   */
  lemma AcceptedClearsArrears(price: int, start: int, es: seq<Event>, now: int, storagePrice: int)
    requires Legal(NewBill(price, start), Start0(start), es)
    requires var (b, w) := Exec(NewBill(price, start), Start0(start), es);
             b.stoppedSince.Some? && w.clock <= now && storagePrice > 0
    ensures var (b, w) := Exec(NewBill(price, start), Start0(start), es);
            var b' := SettleStorage(b, now, storagePrice, Accepted);
            var cost := 10 * storagePrice * b'.stoppedSeconds;
            && b.storageBilled <= b'.storageBilled && cost < 2_628_000 * (b'.storageBilled + 1)
            && (b'.storageBilled > b.storageBilled || w.topPrice <= storagePrice ==>
                  2_628_000 * b'.storageBilled <= cost)
  {
    var (b, w) := Exec(NewBill(price, start), Start0(start), es);
    StoreKeeps(NewBill(price, start), Start0(start), es);
    var w1 := Advance(b, w, now);
    assert StoreInv(b, w1);
    StorageStep(b, w1, storagePrice, Accepted);
    var b' := SettleStorage(b, now, storagePrice, Accepted);
    CostsACredit(b'.stoppedSeconds, storagePrice, b.storageBilled);
    hide StorageDueOf, Legal, Exec;
  }

  // ----- when the seconds are the stopped time

  /** The bounds one would like: never more than the stopped time, and short of it by the cut-off alone. */
  predicate NeverOvercounts(b: Bill, w: World) { b.stoppedSeconds * SECOND <= w.stopped }

  predicate TrailsBySeconds(b: Bill, w: World) {
    w.stopped - b.stoppedSeconds * SECOND - Unsettled(b, w) <= w.settles * (SECOND - 1)
  }

  /** A history of a new session that ends with this net. */
  predicate EndsWith(net: int, es: seq<Event>, price: int, now: int) {
    Legal(NewBill(price, now), Start0(now), es) && Net(Exec(NewBill(price, now), Start0(now), es).1) == net
  }

  predicate Overcounts(s: (Bill, World)) { !NeverOvercounts(s.0, s.1) }

  predicate FallsBehind(s: (Bill, World)) { !TrailsBySeconds(s.0, s.1) }

  /** Either bound holds of all histories with this net exactly when the net does not lean against it. */
  lemma BoundsIff(net: int)
    ensures (forall es, price, now :: EndsWith(net, es, price, now) ==>
               !Overcounts(Exec(NewBill(price, now), Start0(now), es)))
       <==> net >= 0
    ensures (forall es, price, now :: EndsWith(net, es, price, now) ==>
               !FallsBehind(Exec(NewBill(price, now), Start0(now), es)))
       <==> net <= 0
  {
    hide Legal, Exec;
    forall es, price, now | EndsWith(net, es, price, now)
      ensures var s := Exec(NewBill(price, now), Start0(now), es);
              (net >= 0 ==> !Overcounts(s)) && (net <= 0 ==> !FallsBehind(s))
    {
      StorageBilling(price, now, es, 0);
    }
    if net > 0 {
      EndsUnmarked(net, SECOND - 1);
      assert EndsWith(net, MarkedLate(net, SECOND - 1), 0, 0);
    } else if net < 0 {
      ClaimedLong(-net * (SECOND - 1), -net);
      assert EndsWith(net, TailLate(-net * (SECOND - 1), -net), 0, 0);
    }
  }

  /** The Pod ends, the biller marks the row this much later, and settles it once after that. */
  function MarkedLate(gap: nat, after: nat): seq<Event> {
    [Refresh(0, Stopped), StorageTick(gap, 0, Refused), StorageTick(gap + after, 0, Refused)]
  }

  lemma EndsUnmarked(gap: nat, after: nat)
    ensures var b0, w0, es := NewBill(0, 0), Start0(0), MarkedLate(gap, after);
            && Legal(b0, w0, es)
            && var (b, w) := Exec(b0, w0, es);
               && w.stopped == gap + after && b.stoppedSeconds == after / SECOND && w.settles == 1
               && Net(w) == gap && Unsettled(b, w) == 0
  {
    var es := MarkedLate(gap, after);
    Exec3(NewBill(0, 0), Start0(0), es[0], es[1], es[2]);
  }

  /** Stopped this long, claimed, and the tail of the restart another while later. */
  function TailLate(down: nat, wait: nat): seq<Event> {
    [Stop(0, Refused), Claim(down), Tail(down + wait, 0, Refused)]
  }

  lemma ClaimedLong(down: nat, wait: nat)
    ensures var b0, w0, es := NewBill(0, 0), Start0(0), TailLate(down, wait);
            && Legal(b0, w0, es)
            && var (b, w) := Exec(b0, w0, es);
               && w.stopped == down && b.stoppedSeconds == (down + wait) / SECOND && w.settles == 1
               && Net(w) == 0 - wait && Unsettled(b, w) == 0
  {
    Exec3(NewBill(0, 0), Start0(0), Stop(0, Refused), Claim(down), Tail(down + wait, 0, Refused));
  }

  /** A thousand seconds stopped, one settlement, and nothing counted: a finished Pod stops its row without a mark. */
  lemma StopsUnmarked()
    ensures var b0, w0, es := NewBill(0, 0), Start0(0), MarkedLate(1000 * SECOND, 0);
            && Legal(b0, w0, es)
            && var (b, w) := Exec(b0, w0, es);
               w.stopped == 1000 * SECOND && b.stoppedSeconds == 0 && w.settles == 1 && !TrailsBySeconds(b, w)
  {
    EndsUnmarked(1000 * SECOND, 0);
  }

  /** Not stopped for a moment, and ninety seconds counted: the restart waited for its volumes. */
  lemma ClaimIsCounted()
    ensures var b0, w0, es := NewBill(0, 0), Start0(0), TailLate(0, 90 * SECOND);
            && Legal(b0, w0, es)
            && var (b, w) := Exec(b0, w0, es); w.stopped == 0 && b.stoppedSeconds == 90 && !NeverOvercounts(b, w)
  {
    ClaimedLong(0, 90 * SECOND);
  }

  /** A restart that fails leaves the row as the claim found it, mark and columns included. */
  lemma RollbackRestores(b: Bill, w: World, t: int, t': int)
    requires b.phase == Stopped
    ensures Exec(b, w, [Claim(t), Rollback(t')]).0 == b
    ensures Exec(b, w, [Claim(t)]).0 == b.(phase := Provisioning)
  {
    var b1, w1 := Next(b, Claim(t)), Observe(b, w, Claim(t));
    OneEvent(b, w, Claim(t));
    OneEvent(b1, w1, Rollback(t'));
    assert [Claim(t), Rollback(t')][1..] == [Rollback(t')];
  }

  /** Stopped, and a thousand seconds later stopped again: the first mark is lost and with it the time. */
  lemma StopTwiceForgets()
    ensures var b0, w0 := NewBill(0, 0), Start0(0);
            var es := [Stop(0, Refused), Stop(1000 * SECOND, Refused), StorageTick(1000 * SECOND, 0, Refused)];
            && Legal(b0, w0, es)
            && var (b, w) := Exec(b0, w0, es);
               w.stopped == 1000 * SECOND && b.stoppedSeconds == 0 && w.settles == 1 && !TrailsBySeconds(b, w)
  {
    var later := 1000 * SECOND;
    Exec3(NewBill(0, 0), Start0(0), Stop(0, Refused), Stop(later, Refused), StorageTick(later, 0, Refused));
  }

  /** The three ways in which mark and phase part. */
  datatype Leak = Unmarked | Claimed | Forgotten

  function Leaked(l: Leak, w: World): int {
    match l
    case Unmarked => w.unmarked
    case Claimed => w.claimed
    case Forgotten => w.forgotten
  }

  /**
   The event finds no such time: none passed since the last one with the row stopped and unmarked, or marked and
   not stopped, as between the claim of a restart and its tail or rollback; no mark is put on an older one.
   */
  predicate Tight(l: Leak, b: Bill, w: World, e: Event) {
    match l
    case Unmarked => b.phase == Stopped && b.stoppedSince.None? ==> e.now == w.clock
    case Claimed => b.phase != Stopped && b.stoppedSince.Some? ==> e.now == w.clock
    case Forgotten => Marks(b, e) && b.stoppedSince.Some? ==> e.now == b.stoppedSince.value
  }

  predicate AllTight(l: Leak, b: Bill, w: World, es: seq<Event>)
    decreases |es|
  {
    es == [] || (Tight(l, b, w, es[0]) && AllTight(l, Next(b, es[0]), Observe(b, w, es[0]), es[1..]))
  }

  /** A history has time of a kind exactly when some event of it finds some. */
  lemma {:induction false} LeakIff(l: Leak, b: Bill, w: World, es: seq<Event>)
    requires StoreInv(b, w) && Legal(b, w, es)
    ensures var w' := Exec(b, w, es).1;
            Leaked(l, w) <= Leaked(l, w') && (Leaked(l, w') == Leaked(l, w) <==> AllTight(l, b, w, es))
    decreases |es|
  {
    if es != [] {
      LeakStep(l, b, w, es[0]);
      hide Next, Observe, Enabled, Tight, StoreInv, Leaked;
      LeakIff(l, Next(b, es[0]), Observe(b, w, es[0]), es[1..]);
    }
  }

  lemma LeakStep(l: Leak, b: Bill, w: World, e: Event)
    requires StoreInv(b, w) && Enabled(b, w, e)
    ensures StoreInv(Next(b, e), Observe(b, w, e))
    ensures var w' := Observe(b, w, e);
            Leaked(l, w) <= Leaked(l, w') && (Leaked(l, w') == Leaked(l, w) <==> Tight(l, b, w, e))
  {
    StoreStep(b, w, e);
    hide StorageDueOf, TotalDue, SecondsOf;
  }

  /** A Pod that ends finds its row marked, the tail of a restart finds it not stopped, a rollback finds it marked. */
  predicate Tidy(b: Bill, w: World, es: seq<Event>)
    decreases |es|
  {
    es == [] ||
    (  && (es[0].Refresh? && es[0].to == Stopped ==> b.stoppedSince.Some?)
       && (es[0].Tail? ==> b.phase != Stopped)
       && (es[0].Rollback? ==> b.stoppedSince.Some?)
       && Tidy(Next(b, es[0]), Observe(b, w, es[0]), es[1..]))
  }

  /** Nothing else leaves a row stopped and unmarked: in tidy histories every stopped second is marked. */
  lemma {:induction false} OnlyTheseUnmark(b: Bill, w: World, es: seq<Event>)
    requires Legal(b, w, es) && Tidy(b, w, es) && (b.phase == Stopped ==> b.stoppedSince.Some?)
    ensures AllTight(Unmarked, b, w, es)
    decreases |es|
  {
    hide StorageDueOf, TotalDue, SecondsOf, Observe;
    if es != [] {
      OnlyTheseUnmark(Next(b, es[0]), Observe(b, w, es[0]), es[1..]);
    }
  }
}
