/**
 Reclaiming session homes (backend/internal/session/homereaper.go): homes without a session record are
 orphans and go at once, homes of long-stopped sessions go by age, and each user keeps the newest.
 */
module HomeReaper {
  import opened Options

  const PREFIX := "sh-"
  const HOUR := 3_600_000_000_000
  const GRACE := HOUR

  datatype Claim = Claim(namespace: string, name: string, createdAt: int)

  function TrimPrefix(s: string): string { if PREFIX <= s then s[|PREFIX|..] else s }

  // ----- orphans

  predicate IsOrphan(c: Claim, live: set<string>, now: int) {
    now - c.createdAt >= GRACE && TrimPrefix(c.name) !in live
  }

  /** The sessions whose homes these claims are: a home is named for its session. */
  function SessionsOf(cs: set<Claim>): set<string> { set c <- cs | "sh-" <= c.name :: c.name[3..] }

  lemma TrimmedIs(id: string)
    ensures TrimPrefix("sh-" + id) == id
  {
    assert ("sh-" + id)[|PREFIX|..] == id;
  }

  /**
   One orphan pass over two successive reads, either of which may fail; failing claims stay. A home goes
   exactly when its session is not among the rows read and it is an hour old.
   */
  method ReapOrphanHomes(claims: Option<seq<Claim>>, rows: Option<seq<string>>, now: int, failing: set<Claim>)
    returns (deleted: set<Claim>)
    ensures deleted == if claims.None? || rows.None? then {}
                       else set c <- claims.value | IsOrphan(c, (set r <- rows.value), now) && c !in failing
    ensures claims.Some? && rows.Some? ==>
              forall c: Claim, id: string :: c.name == "sh-" + id ==>
                (c in deleted <==>
                 c in claims.value && id !in rows.value && now - c.createdAt >= 3_600_000_000_000 && c !in failing)
    ensures claims.Some? && rows.Some? ==>
              SessionsOf(deleted) <= SessionsOf(set c <- claims.value) - set r <- rows.value
  {
    deleted := {};
    if claims.None? || rows.None? {
      return;
    }
    var live: set<string> := {};
    for i := 0 to |rows.value|
      invariant live == set r <- rows.value[..i]
    {
      assert rows.value[..i + 1] == rows.value[..i] + [rows.value[i]];
      live := live + {rows.value[i]};
    }
    assert rows.value[..|rows.value|] == rows.value;
    var cs := claims.value;
    for i := 0 to |cs|
      invariant deleted == set c <- cs[..i] | IsOrphan(c, live, now) && c !in failing
    {
      assert cs[..i + 1] == cs[..i] + [cs[i]];
      if now - cs[i].createdAt < GRACE {
        continue;
      }
      if TrimPrefix(cs[i].name) in live {
        continue;
      }
      if cs[i] in failing {
        continue;
      }
      deleted := deleted + {cs[i]};
    }
    assert cs[..|cs|] == cs;
    forall c: Claim, id: string | c.name == "sh-" + id ensures IsOrphan(c, live, now) <==>
                                    id !in rows.value && now - c.createdAt >= 3_600_000_000_000
    {
      TrimmedIs(id);
    }
    forall id | id in SessionsOf(deleted) ensures id !in live {
      var c :| c in deleted && "sh-" <= c.name && c.name[3..] == id;
      assert c.name == "sh-" + id;
    }
  }

  // ----- orphans under interleaving: the two reads and the deletes are separate instants

  datatype Pass = Idle | Listed(homes: set<string>) | Judged(doomed: set<string>)

  /** Session rows, home volumes by session, every id a row was ever inserted for, and the pass in progress. */
  datatype World = World(rows: set<string>, homes: set<string>, born: set<string>, pass: Pass)

  datatype Step =
    | InsertRow(id: string)
    | EnsureHome(id: string)
    | DropHome(id: string)
    | DeleteRow(id: string)
    | ListHomes
    | ReadRows
    | Reap(id: string)
    | EndPass

  /** A create inserts its row under an unused id before it makes the home; a start makes it again. */
  predicate Enabled(w: World, s: Step) {
    match s
    case InsertRow(id) => id !in w.born
    case EnsureHome(id) => id in w.born
    case ListHomes => w.pass.Idle?
    case ReadRows => w.pass.Listed?
    case Reap(id) => w.pass.Judged? && id in w.pass.doomed
    case _ => true
  }

  function Apply(w: World, s: Step): World {
    match s
    case InsertRow(id) => w.(rows := w.rows + {id}, born := w.born + {id})
    case EnsureHome(id) => w.(homes := w.homes + {id})
    case DropHome(id) => w.(homes := w.homes - {id})
    case DeleteRow(id) => w.(rows := w.rows - {id})
    case ListHomes => w.(pass := Listed(w.homes))
    case ReadRows => w.(pass := Judged((if w.pass.Listed? then w.pass.homes else {}) - w.rows))
    case Reap(id) => w.(homes := w.homes - {id})
    case EndPass => w.(pass := Idle)
  }

  predicate Legal(w: World, steps: seq<Step>)
    decreases |steps|
  {
    steps == [] || (Enabled(w, steps[0]) && Legal(Apply(w, steps[0]), steps[1..]))
  }

  function Exec(w: World, steps: seq<Step>): World
    decreases |steps|
  {
    if steps == [] then w else Exec(Apply(w, steps[0]), steps[1..])
  }

  const EMPTY := World({}, {}, {}, Idle)

  predicate Inv(w: World) {
    && w.rows <= w.born && w.homes <= w.born
    && (w.pass.Listed? ==> w.pass.homes <= w.born)
    && (w.pass.Judged? ==> w.pass.doomed <= w.born - w.rows)
  }

  lemma {:induction false} RunKeeps(w: World, steps: seq<Step>)
    requires Inv(w) && Legal(w, steps)
    ensures Inv(Exec(w, steps))
    decreases |steps|
  {
    if steps != [] {
      RunKeeps(Apply(w, steps[0]), steps[1..]);
    }
  }

  /**
   Over every interleaving, without any grace period: when the orphan pass may delete a home, no session
   row with that id exists. Volumes are listed before rows, and ids are never used again.
   */
  lemma ReaperSparesSessions(steps: seq<Step>, id: string)
    requires Legal(EMPTY, steps) && Enabled(Exec(EMPTY, steps), Reap(id))
    ensures id !in Exec(EMPTY, steps).rows
  {
    RunKeeps(EMPTY, steps);
  }

  /**
   The orphan pass is such a pass: what it deletes from the homes it listed and the rows it then read, the
   protocol lets it delete, and whenever it comes to it no session row stands behind it.
   */
  lemma DeletedAreDoomed(steps: seq<Step>, more: seq<Step>, claims: seq<Claim>, rows: seq<string>, deleted: set<Claim>,
                         c: Claim)
    requires Legal(EMPTY, steps) && Legal(Apply(Exec(EMPTY, steps), ReadRows), more)
    requires Exec(EMPTY, steps).pass == Listed(SessionsOf(set c <- claims))
    requires Exec(EMPTY, steps).rows == set r <- rows
    requires SessionsOf(deleted) <= SessionsOf(set c <- claims) - set r <- rows
    requires c in deleted && "sh-" <= c.name
    requires forall s <- more :: !s.EndPass?
    ensures var w := Exec(Apply(Exec(EMPTY, steps), ReadRows), more);
            Enabled(w, Reap(c.name[3..])) && c.name[3..] !in w.rows
  {
    var w := Exec(EMPTY, steps);
    RunKeeps(EMPTY, steps);
    RunKeeps(w, [ReadRows]);
    assert [ReadRows][1..] == [];
    RunKeeps(Apply(w, ReadRows), more);
    StaysJudged(Apply(w, ReadRows), more);
  }

  lemma {:induction false} StaysJudged(w: World, more: seq<Step>)
    requires w.pass.Judged? && Legal(w, more) && forall s <- more :: !s.EndPass?
    ensures Exec(w, more).pass == w.pass
    decreases |more|
  {
    if more != [] {
      assert more[0] in more;
      assert forall s <- more[1..] :: s in more;
      StaysJudged(Apply(w, more[0]), more[1..]);
    }
  }

  /** A session whose row was there when the pass read the rows keeps its home through the pass, start to end. */
  lemma HomeSurvivesPass(steps: seq<Step>, more: seq<Step>, id: string)
    requires Legal(EMPTY, steps) && Legal(Exec(EMPTY, steps), more)
    requires var w := Exec(EMPTY, steps); id in w.rows && id in w.homes
    requires forall s <- more :: s != DeleteRow(id) && s != DropHome(id)
    ensures var w := Exec(Exec(EMPTY, steps), more); id in w.rows && id in w.homes
  {
    RunKeeps(EMPTY, steps);
    Survives(Exec(EMPTY, steps), more, id);
  }

  lemma {:induction false} Survives(w: World, more: seq<Step>, id: string)
    requires Inv(w) && Legal(w, more) && id in w.rows && id in w.homes
    requires forall s <- more :: s != DeleteRow(id) && s != DropHome(id)
    ensures id in Exec(w, more).rows && id in Exec(w, more).homes
    decreases |more|
  {
    if more != [] {
      assert more[0] in more;
      assert forall s <- more[1..] :: s in more;
      RunKeeps(w, [more[0]]);
      assert [more[0]][1..] == [];
      Survives(Apply(w, more[0]), more[1..], id);
    }
  }

  // ----- long-stopped sessions

  datatype StoppedRow = StoppedRow(instanceID: string, userID: int, stoppedSince: Option<int>)

  ghost predicate UniqueIDs(rows: seq<StoppedRow>) {
    forall i, j :: 0 <= i < j < |rows| ==> rows[i].instanceID != rows[j].instanceID
  }

  predicate Dated(rows: seq<StoppedRow>, user: int, i: int) {
    0 <= i < |rows| && rows[i].userID == user && rows[i].stoppedSince.Some?
  }

  /** The row's stop time is the latest among the user's dated rows. */
  ghost predicate IsLatest(rows: seq<StoppedRow>, user: int, i: int) {
    Dated(rows, user, i) &&
    forall j :: Dated(rows, user, j) ==> rows[j].stoppedSince.value <= rows[i].stoppedSince.value
  }

  /** The exempt row of each user with a dated row: the first whose stop time is the latest. */
  ghost predicate Exempts(rows: seq<StoppedRow>, keep: map<int, int>) {
    && (forall user :: user in keep <==> exists i :: Dated(rows, user, i))
    && (forall user :: user in keep ==>
          && IsLatest(rows, user, keep[user])
          && forall j :: 0 <= j < keep[user] ==> !IsLatest(rows, user, j))
  }

  /** The exemption scan; positions stand for rows, and marked collects the rows it stamps for the first time. */
  method StoppedProfile(rows: seq<StoppedRow>) returns (keep: map<int, int>, marked: set<string>)
    ensures Exempts(rows, keep)
    ensures marked == set r <- rows | r.stoppedSince.None? :: r.instanceID
  {
    keep, marked := map[], {};
    var newest: map<int, int> := map[];
    for i := 0 to |rows|
      invariant Exempts(rows[..i], keep)
      invariant newest.Keys == keep.Keys
      invariant forall user :: user in keep ==>
                  0 <= keep[user] < i && rows[keep[user]].stoppedSince == Some(newest[user])
      invariant marked == set r <- rows[..i] | r.stoppedSince.None? :: r.instanceID
    {
      var r := rows[i];
      var before, now := rows[..i], rows[..i + 1];
      assert now == before + [r];
      ghost var was := keep;
      assert forall user, j :: Dated(now, user, j) <==>
          Dated(before, user, j) || (j == i && r.userID == user && r.stoppedSince.Some?);
      if r.stoppedSince.None? {
        marked := marked + {r.instanceID};
      } else if r.userID !in newest || r.stoppedSince.value > newest[r.userID] {
        newest := newest[r.userID := r.stoppedSince.value];
        keep := keep[r.userID := i];
      }
      ExemptsGrow(before, r, was, keep);
    }
    assert rows[..|rows|] == rows;
  }

  lemma ExemptsGrow(before: seq<StoppedRow>, r: StoppedRow, was: map<int, int>, keep: map<int, int>)
    requires Exempts(before, was)
    requires keep == if r.stoppedSince.Some? &&
                        (r.userID !in was || r.stoppedSince.value > before[was[r.userID]].stoppedSince.value)
                     then was[r.userID := |before|] else was
    ensures Exempts(before + [r], keep)
  {
    var now := before + [r];
    forall user ensures user in keep <==> exists i :: Dated(now, user, i) {
      if user in was {
        assert Dated(now, user, was[user]);
      }
      if r.stoppedSince.Some? && user == r.userID {
        assert Dated(now, user, |before|);
      }
      if i :| Dated(now, user, i) && i < |before| {
        assert Dated(before, user, i);
      }
    }
    forall user | user in keep
      ensures IsLatest(now, user, keep[user]) && forall j :: 0 <= j < keep[user] ==> !IsLatest(now, user, j)
    {
      LatestGrow(before, r, was, keep, user);
    }
  }

  lemma LatestGrow(before: seq<StoppedRow>, r: StoppedRow, was: map<int, int>, keep: map<int, int>, user: int)
    requires Exempts(before, was) && user in keep
    requires keep == if r.stoppedSince.Some? &&
                        (r.userID !in was || r.stoppedSince.value > before[was[r.userID]].stoppedSince.value)
                     then was[r.userID := |before|] else was
    ensures IsLatest(before + [r], user, keep[user])
    ensures forall j :: 0 <= j < keep[user] ==> !IsLatest(before + [r], user, j)
  {
    var now := before + [r];
    assert forall j :: Dated(now, user, j) <==>
        Dated(before, user, j) || (j == |before| && r.userID == user && r.stoppedSince.Some?);
    if keep[user] == |before| {
      forall j | 0 <= j < |before| ensures !IsLatest(now, user, j) {
        assert Dated(now, user, |before|);
        if user in was && Dated(before, user, j) {
          assert before[j].stoppedSince.value <= before[was[user]].stoppedSince.value;
        }
      }
    } else {
      forall j | 0 <= j < keep[user] ensures !IsLatest(now, user, j) {
        assert !IsLatest(before, user, j);
        assert Dated(now, user, keep[user]);
        assert forall k :: Dated(before, user, k) ==> Dated(now, user, k);
      }
    }
  }

  /** One pass by age over a snapshot: exactly the rows a pass deletes, by position. */
  ghost predicate Reclaimed(rows: seq<StoppedRow>, keep: map<int, int>, ttlDays: int, now: int, i: int)
    requires Exempts(rows, keep)
  {
    && 0 <= i < |rows| && ttlDays > 0 && rows[i].stoppedSince.Some?
    && now - rows[i].stoppedSince.value >= ttlDays * 86_400_000_000_000
    && (rows[i].userID in keep ==> rows[keep[rows[i].userID]].instanceID != rows[i].instanceID)
  }

  /** rows is None when the stopped sessions cannot be read; marked rows count from now on, not in this pass. */
  method ReapStaleHomes(rows: Option<seq<StoppedRow>>, ttlDays: int, now: int, failing: set<string>)
    returns (deleted: set<int>, marked: set<string>, ghost keep: map<int, int>)
    ensures ttlDays <= 0 || rows.None? ==> deleted == {} && marked == {}
    ensures ttlDays > 0 && rows.Some? ==>
              && Exempts(rows.value, keep)
              && (forall i :: i in deleted <==>
                    Reclaimed(rows.value, keep, ttlDays, now, i) && rows.value[i].instanceID !in failing)
              && marked == set r <- rows.value | r.stoppedSince.None? :: r.instanceID
  {
    deleted, marked, keep := {}, {}, map[];
    if ttlDays <= 0 {
      return;
    }
    if rows.None? {
      return;
    }
    var rs := rows.value;
    var exempt;
    exempt, marked := StoppedProfile(rs);
    keep := exempt;
    for i := 0 to |rs|
      invariant forall j :: j in deleted <==>
                  j < i && Reclaimed(rs, keep, ttlDays, now, j) && rs[j].instanceID !in failing
    {
      if rs[i].stoppedSince.None? {
        continue;
      }
      if now - rs[i].stoppedSince.value < ttlDays * 24 * HOUR {
        continue;
      }
      assert Dated(rs, rs[i].userID, i);
      if rs[exempt[rs[i].userID]].instanceID == rs[i].instanceID {
        continue;
      }
      if rs[i].instanceID in failing {
        continue;
      }
      deleted := deleted + {i};
    }
  }

  /**
   Which sessions a pass by age takes, in full: those stopped for the whole period whose user has another
   stopped later, or at the same instant and listed before.
   */
  lemma ReclaimedIff(rows: seq<StoppedRow>, keep: map<int, int>, ttlDays: int, now: int, i: int)
    requires UniqueIDs(rows) && Exempts(rows, keep)
    ensures Reclaimed(rows, keep, ttlDays, now, i) <==>
            && 0 <= i < |rows| && ttlDays > 0 && rows[i].stoppedSince.Some?
            && now - rows[i].stoppedSince.value >= ttlDays * 86_400_000_000_000
            && exists j :: 0 <= j < |rows| && rows[j].userID == rows[i].userID && rows[j].stoppedSince.Some? &&
                 (rows[j].stoppedSince.value > rows[i].stoppedSince.value
                  || (rows[j].stoppedSince.value == rows[i].stoppedSince.value && j < i))
  {
    if 0 <= i < |rows| && rows[i].stoppedSince.Some? {
      var user := rows[i].userID;
      assert Dated(rows, user, i);
      var k := keep[user];
      assert IsLatest(rows, user, k);
      assert rows[k].instanceID == rows[i].instanceID <==> k == i;
      if k != i {
        assert k < i || !IsLatest(rows, user, i);
      } else if j :| 0 <= j < |rows| && rows[j].userID == user && rows[j].stoppedSince.Some? &&
                     rows[j].stoppedSince.value == rows[i].stoppedSince.value && j < i {
        assert Dated(rows, user, j);
        assert IsLatest(rows, user, j);
      }
      assert k == i ==> forall j :: Dated(rows, user, j) ==> rows[j].stoppedSince.value <= rows[i].stoppedSince.value;
    }
  }

  /**
   Every user with a dated stopped session keeps one with the latest stop time, and whatever goes has been
   stopped for at least the whole period.
   */
  lemma NewestIsKept(rows: seq<StoppedRow>, keep: map<int, int>, ttlDays: int, now: int, user: int, i: int)
    requires Exempts(rows, keep) && Dated(rows, user, i)
    ensures exists j :: IsLatest(rows, user, j) && !Reclaimed(rows, keep, ttlDays, now, j)
    ensures Reclaimed(rows, keep, ttlDays, now, i) ==>
              && now - rows[i].stoppedSince.value >= ttlDays * 86_400_000_000_000
              && exists j :: IsLatest(rows, user, j) && j != i
  {
    assert user in keep;
    assert IsLatest(rows, user, keep[user]);
  }

  /**
   The session shown to the user as exempt is some row with the latest stop time. It is the one the pass
   keeps, whichever the database picks, exactly when that stop time is the user's own alone.
   */
  lemma ShownIsKept(rows: seq<StoppedRow>, keep: map<int, int>, user: int)
    requires UniqueIDs(rows) && Exempts(rows, keep) && user in keep
    ensures (forall j :: IsLatest(rows, user, j) ==> rows[j].instanceID == rows[keep[user]].instanceID)
       <==> (forall j :: Dated(rows, user, j) && j != keep[user] ==>
               rows[j].stoppedSince.value != rows[keep[user]].stoppedSince.value)
  {
    var k := keep[user];
    assert IsLatest(rows, user, k);
    forall j | Dated(rows, user, j) && j != k && rows[j].stoppedSince.value == rows[k].stoppedSince.value
      ensures IsLatest(rows, user, j) && rows[j].instanceID != rows[k].instanceID
    {
    }
  }

  /** Two sessions stopped at one instant: the pass keeps the first, the user may be shown the second, and it goes. */
  lemma ShownMayGo()
    ensures var rows, keep := [StoppedRow("a", 7, Some(0)), StoppedRow("b", 7, Some(0))], map[7 := 0];
            && UniqueIDs(rows) && Exempts(rows, keep)
            && IsLatest(rows, 7, 1) && Reclaimed(rows, keep, 1, 24 * HOUR, 1)
  {
    var rows := [StoppedRow("a", 7, Some(0)), StoppedRow("b", 7, Some(0))];
    assert Dated(rows, 7, 0);
  }

  // ----- the pass by age under interleaving: the list and the deletes are separate instants

  /** Sessions by whether they run or are stopped, and the list of the pass in progress; a delete takes row and home. */
  datatype Sessions = Sessions(running: set<string>, stopped: set<string>, listed: Option<set<string>>)

  datatype Move =
    | Created(id: string)
    | Started(id: string)
    | Stopped(id: string)
    | Deleted(id: string)
    | List(expired: set<string>)
    | ReapListed(id: string)

  /** Ids are not used again while they exist; the pass deletes what it listed without looking again. */
  predicate Possible(w: Sessions, m: Move) {
    match m
    case Created(id) => id !in w.running && id !in w.stopped
    case Started(id) => id in w.stopped
    case Stopped(id) => id in w.running
    case Deleted(_) => true
    case List(expired) => expired <= w.stopped
    case ReapListed(id) => w.listed.Some? && id in w.listed.value
  }

  function After(w: Sessions, m: Move): Sessions {
    match m
    case Created(id) => w.(running := w.running + {id})
    case Started(id) => w.(running := w.running + {id}, stopped := w.stopped - {id})
    case Stopped(id) => w.(running := w.running - {id}, stopped := w.stopped + {id})
    case Deleted(id) => w.(running := w.running - {id}, stopped := w.stopped - {id})
    case List(expired) => w.(listed := Some(expired))
    case ReapListed(id) => w.(running := w.running - {id}, stopped := w.stopped - {id})
  }

  predicate AllPossible(w: Sessions, ms: seq<Move>)
    decreases |ms|
  {
    ms == [] || (Possible(w, ms[0]) && AllPossible(After(w, ms[0]), ms[1..]))
  }

  function AfterAll(w: Sessions, ms: seq<Move>): Sessions
    decreases |ms|
  {
    if ms == [] then w else AfterAll(After(w, ms[0]), ms[1..])
  }

  predicate Moves(m: Move, id: string) { !m.List? && m.id == id }

  /** Something happened to the session, and last of all it was started or created. */
  predicate EndsStarted(ms: seq<Move>, id: string) {
    if ms == [] then false
    else
      var m := ms[|ms| - 1];
      if Moves(m, id) then m.Started? || m.Created? else EndsStarted(ms[..|ms| - 1], id)
  }

  /**
   A listed session that the pass is about to delete is running then, and loses the home it runs on, if and
   only if it was started after the list and not stopped again: still stopped at the delete is what the code
   does not ask.
   */
  lemma ReapsRunningIff(w: Sessions, expired: set<string>, ms: seq<Move>, id: string)
    requires w.running !! w.stopped && expired <= w.stopped && id in expired
    requires AllPossible(After(w, List(expired)), ms)
    ensures id in AfterAll(After(w, List(expired)), ms).running <==> EndsStarted(ms, id)
  {
    RunningIff(After(w, List(expired)), ms, id);
  }

  lemma {:induction false} RunningIff(w: Sessions, ms: seq<Move>, id: string)
    requires AllPossible(w, ms) && id !in w.running
    ensures id in AfterAll(w, ms).running <==> EndsStarted(ms, id)
    decreases |ms|
  {
    if ms != [] {
      var init, m := ms[..|ms| - 1], ms[|ms| - 1];
      AllButLast(w, ms);
      RunningIff(w, init, id);
    }
  }

  lemma {:induction false} AllButLast(w: Sessions, ms: seq<Move>)
    requires ms != [] && AllPossible(w, ms)
    ensures var init, m := ms[..|ms| - 1], ms[|ms| - 1];
            && AllPossible(w, init) && Possible(AfterAll(w, init), m)
            && AfterAll(w, ms) == After(AfterAll(w, init), m)
    decreases |ms|
  {
    if |ms| == 1 {
      assert ms[1..] == [] && ms[..0] == [];
    } else {
      assert ms[..|ms| - 1][1..] == ms[1..][..|ms| - 2] && ms[1..][|ms| - 2] == ms[|ms| - 1];
      AllButLast(After(w, ms[0]), ms[1..]);
    }
  }

  /** Listed while stopped, started before its turn comes, deleted while it runs. */
  lemma RestartedIsReaped()
    ensures var w := Sessions({}, {"a"}, None);
            && AllPossible(w, [List({"a"}), Started("a"), ReapListed("a")])
            && "a" in AfterAll(w, [List({"a"}), Started("a")]).running
            && "a" !in AfterAll(w, [List({"a"}), Started("a"), ReapListed("a")]).running
  {
    var w, l, s, r := Sessions({}, {"a"}, None), List({"a"}), Started("a"), ReapListed("a");
    assert [l, s, r][1..] == [s, r] && [s, r][1..] == [r] && [r][1..] == [];
    assert [l, s][1..] == [s] && [s][1..] == [];
    assert AllPossible(After(After(w, l), s), [r]);
  }
}
