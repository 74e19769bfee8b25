/** The gateway's single-use cache for token ids, with its opportunistic pruning (backend/internal/gateway/nonce.go). */
module Nonce {
  const PRUNE_ABOVE := 1024

  /** The token id is on record and its expiry still lies ahead. */
  predicate Spent(seen: map<string, int>, jti: string, now: int) { jti in seen && seen[jti] > now }

  function Pruned(seen: map<string, int>, now: int): map<string, int> {
    map k | k in seen && seen[k] > now :: seen[k]
  }

  predicate Allows(seen: map<string, int>, jti: string, now: int) { jti == "" || !Spent(seen, jti, now) }

  function Record(seen: map<string, int>, jti: string, exp: int, now: int): map<string, int> {
    if jti == "" || Spent(seen, jti, now) then seen
    else
      var s := seen[jti := exp];
      if |s| > PRUNE_ABOVE then Pruned(s, now) else s
  }

  /** Recording keeps every entry whose expiry lies ahead, adds the new one, and invents nothing. */
  lemma Recorded(seen: map<string, int>, jti: string, exp: int, now: int, k: string)
    requires Allows(seen, jti, now)
    ensures var seen' := Record(seen, jti, exp, now);
            && (k in seen' ==> if k == jti && jti != "" then seen'[k] == exp else k in seen && seen'[k] == seen[k])
            && (k == jti && jti != "" && exp > now ==> k in seen')
            && (k != jti && k in seen && seen[k] > now ==> k in seen')
  {
  }

  class NonceCache {
    var seen: map<string, int>

    constructor ()
      ensures seen == map[]
    {
      seen := map[];
    }

    /** Consumes a token id: true the first time, false while the first use is on record. */
    method Use(jti: string, exp: int, now: int) returns (ok: bool)
      modifies this
      ensures ok == Allows(old(seen), jti, now)
      ensures seen == Record(old(seen), jti, exp, now)
      ensures ok <==> jti == "" || jti !in old(seen) || old(seen)[jti] <= now
      ensures jti == "" || !ok ==> seen == old(seen)
      ensures jti != "" && ok ==>
                var full := old(seen)[jti := exp];
                seen == if |full| <= 1024 then full else map k | k in full && full[k] > now :: full[k]
    {
      if jti == "" {
        return true;
      }
      if jti in seen && seen[jti] > now {
        return false;
      }
      seen := seen[jti := exp];
      if |seen| > PRUNE_ABOVE {
        ghost var full := seen;
        var rest := seen.Keys;
        while rest != {}
          invariant rest <= full.Keys
          invariant seen == map k | k in full && (k in rest || full[k] > now) :: full[k]
          decreases rest
        {
          var k :| k in rest;
          if seen[k] <= now {
            seen := seen - {k};
          }
          rest := rest - {k};
        }
      }
      ok := true;
    }

    method Used(jti: string, now: int) returns (spent: bool)
      ensures spent == (jti != "" && Spent(seen, jti, now))
    {
      if jti == "" {
        return false;
      }
      spent := jti in seen && seen[jti] > now;
    }
  }

  // ----- over whole histories of calls

  datatype Call = Call(jti: string, exp: int, now: int)

  function After(calls: seq<Call>): map<string, int> {
    if calls == [] then map[]
    else
      var c := calls[|calls| - 1];
      Record(After(calls[..|calls| - 1]), c.jti, c.exp, c.now)
  }

  predicate Answer(calls: seq<Call>, k: nat)
    requires k < |calls|
  {
    Allows(After(calls[..k]), calls[k].jti, calls[k].now)
  }

  ghost predicate Ordered(calls: seq<Call>) {
    forall i, j :: 0 <= i < j < |calls| ==> calls[i].now <= calls[j].now
  }

  /** The call was granted, and for this token id. */
  predicate Consumed(calls: seq<Call>, i: nat, jti: string) {
    i < |calls| && calls[i].jti == jti && Answer(calls, i)
  }

  /** Every entry of the cache was put there by a granted call. */
  lemma {:induction false} EntryWasConsumed(calls: seq<Call>, jti: string) returns (i: nat)
    requires jti != "" && jti in After(calls)
    ensures Consumed(calls, i, jti) && calls[i].exp == After(calls)[jti]
  {
    var n := |calls| - 1;
    var init, c := calls[..n], calls[n];
    if c.jti == jti && Answer(calls, n) {
      i := n;
    } else {
      i := EntryWasConsumed(init, jti);
      assert init[..i] == calls[..i];
    }
  }

  /** A granted call stays on record until its expiry, whatever is recorded and pruned after it. */
  lemma {:induction false} ConsumedIsKept(calls: seq<Call>, i: nat, jti: string, now: int)
    requires Consumed(calls, i, jti) && jti != "" && calls[i].exp > now
    requires forall k :: 0 <= k < |calls| ==> calls[k].now <= now
    ensures Spent(After(calls), jti, now)
    decreases |calls|
  {
    var n := |calls| - 1;
    var init, c := calls[..n], calls[n];
    if i < n {
      assert init[..i] == calls[..i];
      ConsumedIsKept(init, i, jti, now);
    }
  }

  /**
   A call is granted exactly when no earlier granted call with the same token id still has its expiry
   ahead, whatever other ids were used and pruned in between.
   */
  lemma GrantedIff(calls: seq<Call>, k: nat)
    requires Ordered(calls) && k < |calls| && calls[k].jti != ""
    ensures Answer(calls, k) <==>
            forall i :: 0 <= i < k && Consumed(calls, i, calls[k].jti) ==> calls[i].exp <= calls[k].now
  {
    var before, jti, now := calls[..k], calls[k].jti, calls[k].now;
    assert forall i :: 0 <= i < k ==> before[..i] == calls[..i] && before[i] == calls[i];
    if i :| 0 <= i < k && Consumed(calls, i, jti) && calls[i].exp > now {
      ConsumedIsKept(before, i, jti, now);
    }
    if Spent(After(before), jti, now) {
      var i := EntryWasConsumed(before, jti);
      assert Consumed(calls, i, jti);
    }
  }

  /** Of all calls with one token id strictly before its expiry, at most one is granted. */
  lemma SingleUse(calls: seq<Call>, i: nat, j: nat)
    requires Ordered(calls) && i < j < |calls|
    requires calls[i].jti == calls[j].jti != "" && calls[i].exp == calls[j].exp && calls[j].now < calls[j].exp
    ensures !(Answer(calls, i) && Answer(calls, j))
  {
    GrantedIff(calls, j);
    assert Answer(calls, i) ==> Consumed(calls, i, calls[j].jti);
  }
}

/**
 SSH handshakes at the gateway: the authentication callback checks a token without consuming it, possibly
 several times, and the connection consumes it once the handshake is through
 (backend/internal/gateway/sshproxy.go, backend/internal/gateway/token.go).
 */
module SshHandshake {
  import Nonce

  const TYP_SSH := "ssh"

  datatype Claims = Claims(typ: string, jti: string, exp: int)

  /** Token verification past decryption: not expired, an SSH token, and not consumed. */
  predicate Verifies(seen: map<string, int>, c: Claims, now: int) {
    && !(c.exp > 0 && now > c.exp)
    && c.typ == TYP_SSH
    && !(c.jti != "" && Nonce.Spent(seen, c.jti, now))
  }

  datatype Dial = Dial(conn: int, claims: Claims, now: int)

  /** The cache, the claims each connection last verified, and the back-end dials so far. */
  datatype Proxy = Proxy(seen: map<string, int>, verified: map<int, Claims>, dials: seq<Dial>, clock: int)

  /** Verify is one callback with the decrypted token; Finish is the handshake's end on a verified connection. */
  datatype Step = Verify(conn: int, claims: Claims, now: int) | Finish(conn: int, now: int)

  predicate Enabled(p: Proxy, s: Step) {
    p.clock <= s.now && (s.Finish? ==> s.conn in p.verified)
  }

  function Apply(p: Proxy, s: Step): Proxy
    requires Enabled(p, s)
  {
    match s
    case Verify(conn, c, now) =>
      if Verifies(p.seen, c, now) then p.(verified := p.verified[conn := c], clock := now) else p.(clock := now)
    case Finish(conn, now) =>
      var c := p.verified[conn];
      var p' := p.(seen := Nonce.Record(p.seen, c.jti, c.exp, now), verified := p.verified - {conn}, clock := now);
      if Nonce.Allows(p.seen, c.jti, now) then p'.(dials := p.dials + [Dial(conn, c, now)]) else p'
  }

  /** The steps are possible one after another, and a token id always comes with the expiry it was issued with. */
  ghost predicate Legal(p: Proxy, issued: map<string, int>, steps: seq<Step>)
    decreases |steps|
  {
    steps == [] ||
    (Enabled(p, steps[0]) && (steps[0].Verify? ==> Issued(issued, steps[0].claims))
        && Legal(Apply(p, steps[0]), issued, steps[1..]))
  }

  ghost predicate Issued(issued: map<string, int>, c: Claims) { c.jti in issued && issued[c.jti] == c.exp }

  ghost function Exec(p: Proxy, issued: map<string, int>, steps: seq<Step>): Proxy
    requires Legal(p, issued, steps)
    decreases |steps|
  {
    if steps == [] then p else Exec(Apply(p, steps[0]), issued, steps[1..])
  }

  const FRESH := Proxy(map[], map[], [], 0)

  ghost predicate Dialled(ds: seq<Dial>, jti: string) { exists d <- ds :: d.claims.jti == jti }

  /** The cache holds exactly the dialled tokens whose expiry lies ahead, among others. */
  ghost predicate CacheOk(p: Proxy, issued: map<string, int>) {
    && (forall jti :: jti in p.seen ==> jti in issued && p.seen[jti] == issued[jti] && Dialled(p.dials, jti))
    && (forall d <- p.dials :: d.claims.jti != "" && d.claims.exp > p.clock ==> d.claims.jti in p.seen)
  }

  ghost predicate DialsOk(ds: seq<Dial>, issued: map<string, int>, clock: int) {
    && (forall d <- ds :: Issued(issued, d.claims) && d.now <= clock)
    && (forall i, j :: 0 <= i < j < |ds| && ds[i].claims.jti == ds[j].claims.jti != "" ==>
        ds[i].claims.exp <= ds[j].now)
  }

  ghost predicate Inv(p: Proxy, issued: map<string, int>) {
    && (forall conn :: conn in p.verified ==> Issued(issued, p.verified[conn]))
    && DialsOk(p.dials, issued, p.clock)
    && CacheOk(p, issued)
  }

  lemma DialledGrows(ds: seq<Dial>, d: Dial, jti: string)
    ensures Dialled(ds + [d], jti) <==> Dialled(ds, jti) || d.claims.jti == jti
  {
    if e :| e in ds + [d] && e.claims.jti == jti {
      assert e in ds || e == d;
    }
    if e :| e in ds && e.claims.jti == jti {
      assert e in ds + [d];
    }
    if d.claims.jti == jti {
      assert d in ds + [d];
    }
  }

  lemma CacheKept(p: Proxy, issued: map<string, int>, c: Claims, d: Dial, now: int)
    requires CacheOk(p, issued) && Issued(issued, c) && p.clock <= now && d.claims == c
    requires Nonce.Allows(p.seen, c.jti, now) && DialsOk(p.dials, issued, p.clock)
    ensures CacheOk(p.(seen := Nonce.Record(p.seen, c.jti, c.exp, now), clock := now, dials := p.dials + [d]), issued)
  {
    hide Nonce.Record, Dialled;
    var seen', ds' := Nonce.Record(p.seen, c.jti, c.exp, now), p.dials + [d];
    forall k: string | k in seen' ensures k in issued && seen'[k] == issued[k] && Dialled(ds', k) {
      Nonce.Recorded(p.seen, c.jti, c.exp, now, k);
      DialledGrows(p.dials, d, k);
    }
    forall e | e in ds' && e.claims.jti != "" && e.claims.exp > now ensures e.claims.jti in seen' {
      Nonce.Recorded(p.seen, c.jti, c.exp, now, e.claims.jti);
      if e in p.dials {
        assert Issued(issued, e.claims) && e.claims.jti in p.seen;
      }
    }
  }

  lemma DialsKept(ds: seq<Dial>, seen: map<string, int>, issued: map<string, int>, clock: int, d: Dial)
    requires DialsOk(ds, issued, clock) && Issued(issued, d.claims) && clock <= d.now
    requires Nonce.Allows(seen, d.claims.jti, d.now)
    requires forall e <- ds :: e.claims.jti != "" && e.claims.exp > clock ==>
               e.claims.jti in seen && seen[e.claims.jti] == e.claims.exp
    ensures DialsOk(ds + [d], issued, d.now)
  {
    forall i | 0 <= i < |ds| && ds[i].claims.jti == d.claims.jti != "" ensures ds[i].claims.exp <= d.now {
      assert ds[i] in ds && Issued(issued, ds[i].claims);
    }
  }

  lemma FinishKeeps(p: Proxy, issued: map<string, int>, conn: int, now: int)
    requires Inv(p, issued) && Enabled(p, Finish(conn, now))
    ensures Inv(Apply(p, Finish(conn, now)), issued)
  {
    hide Nonce.Record, Dialled;
    var c := p.verified[conn];
    var d := Dial(conn, c, now);
    assert Issued(issued, c);
    if Nonce.Allows(p.seen, c.jti, now) {
      CacheKept(p, issued, c, d, now);
      forall e | e in p.dials && e.claims.jti != "" && e.claims.exp > p.clock
        ensures e.claims.jti in p.seen && p.seen[e.claims.jti] == e.claims.exp
      {
        assert Issued(issued, e.claims);
      }
      DialsKept(p.dials, p.seen, issued, p.clock, d);
      hide DialsOk, CacheOk;
    } else {
      RefusedChangesNothing(p.seen, c.jti, c.exp, now);
    }
  }

  lemma RefusedChangesNothing(seen: map<string, int>, jti: string, exp: int, now: int)
    requires !Nonce.Allows(seen, jti, now)
    ensures Nonce.Record(seen, jti, exp, now) == seen
  {
  }

  lemma {:induction false} RunKeeps(p: Proxy, issued: map<string, int>, steps: seq<Step>)
    requires Inv(p, issued) && Legal(p, issued, steps)
    ensures Inv(Exec(p, issued, steps), issued)
    decreases |steps|
  {
    if steps != [] {
      if steps[0].Finish? {
        FinishKeeps(p, issued, steps[0].conn, steps[0].now);
      }
      RunKeeps(Apply(p, steps[0]), issued, steps[1..]);
    }
  }

  /** However handshakes interleave, of those with one token at most one reaches the back end before expiry. */
  lemma OneDialPerToken(issued: map<string, int>, steps: seq<Step>, i: nat, j: nat)
    requires Legal(FRESH, issued, steps)
    requires var ds := Exec(FRESH, issued, steps).dials;
             i < j < |ds| && ds[i].claims.jti == ds[j].claims.jti != ""
    ensures var ds := Exec(FRESH, issued, steps).dials; ds[j].now >= ds[j].claims.exp
  {
    RunKeeps(FRESH, issued, steps);
    var ds := Exec(FRESH, issued, steps).dials;
    assert ds[i] in ds && ds[j] in ds;
  }

  /** And exactly then is a finished handshake turned away: an earlier dial of its token has its expiry ahead. */
  lemma TurnedAwayIff(issued: map<string, int>, steps: seq<Step>, conn: int, now: int)
    requires Legal(FRESH, issued, steps) && Enabled(Exec(FRESH, issued, steps), Finish(conn, now))
    ensures var p := Exec(FRESH, issued, steps); var c := p.verified[conn];
            Apply(p, Finish(conn, now)).dials == p.dials <==>
            c.jti != "" && c.exp > now && Dialled(p.dials, c.jti)
  {
    RunKeeps(FRESH, issued, steps);
    var p := Exec(FRESH, issued, steps);
    var c := p.verified[conn];
    assert Issued(issued, c);
    assert |p.dials + [Dial(conn, c, now)]| != |p.dials|;
    if c.jti != "" && c.exp > now {
      if d :| d in p.dials && d.claims.jti == c.jti {
        assert Issued(issued, d.claims);
      }
    }
  }

  /** The connection had a callback with these claims by then, an SSH token that was not past its expiry. */
  ghost predicate CameChecked(steps: seq<Step>, conn: int, c: Claims, at: int) {
    c.typ == "ssh" &&
    exists s <- steps :: s == Verify(conn, c, s.now) && s.now <= at && (c.exp > 0 ==> s.now <= c.exp)
  }

  ghost predicate AllChecked(p: Proxy, past: seq<Step>) {
    && (forall conn :: conn in p.verified ==> CameChecked(past, conn, p.verified[conn], p.clock))
    && (forall d <- p.dials :: CameChecked(past, d.conn, d.claims, d.now))
  }

  lemma CheckedLater(past: seq<Step>, s: Step, conn: int, c: Claims, at: int, later: int)
    requires CameChecked(past, conn, c, at) && at <= later
    ensures CameChecked(past + [s], conn, c, later)
  {
    var v :| v in past && v == Verify(conn, c, v.now) && v.now <= at && (c.exp > 0 ==> v.now <= c.exp);
    assert v in past + [s];
  }

  lemma CheckedStep(p: Proxy, past: seq<Step>, s: Step)
    requires AllChecked(p, past) && Enabled(p, s)
    ensures AllChecked(Apply(p, s), past + [s])
  {
    hide Nonce.Record, Nonce.Allows, Nonce.Spent;
    var p' := Apply(p, s);
    assert s in past + [s];
    forall conn | conn in p'.verified ensures CameChecked(past + [s], conn, p'.verified[conn], p'.clock) {
      if conn in p.verified && p'.verified[conn] == p.verified[conn] {
        CheckedLater(past, s, conn, p.verified[conn], p.clock, s.now);
      }
    }
    forall d | d in p'.dials ensures CameChecked(past + [s], d.conn, d.claims, d.now) {
      if d in p.dials {
        CheckedLater(past, s, d.conn, d.claims, d.now, d.now);
      } else {
        CheckedLater(past, s, s.conn, p.verified[s.conn], p.clock, s.now);
      }
    }
  }

  lemma {:induction false} CheckedRun(p: Proxy, issued: map<string, int>, past: seq<Step>, steps: seq<Step>)
    requires AllChecked(p, past) && Legal(p, issued, steps)
    ensures AllChecked(Exec(p, issued, steps), past + steps)
    decreases |steps|
  {
    if steps == [] {
      assert past + steps == past;
    } else {
      CheckedStep(p, past, steps[0]);
      CheckedRun(Apply(p, steps[0]), issued, past + [steps[0]], steps[1..]);
      assert past + [steps[0]] + steps[1..] == past + steps;
    }
  }

  /**
   Nothing but an SSH token opens a connection, and none that was past its expiry when its callback came:
   whatever else is presented, however handshakes interleave, is never dialled.
   */
  lemma OnlyCheckedDial(issued: map<string, int>, steps: seq<Step>, d: Dial)
    requires Legal(FRESH, issued, steps) && d in Exec(FRESH, issued, steps).dials
    ensures d.claims.typ == "ssh"
    ensures exists s <- steps ::
              s == Verify(d.conn, d.claims, s.now) && s.now <= d.now && (d.claims.exp > 0 ==> s.now <= d.claims.exp)
  {
    CheckedRun(FRESH, issued, [], steps);
    assert [] + steps == steps;
    assert CameChecked(steps, d.conn, d.claims, d.now);
  }

  /** And a token in force does: presented to a connection whose handshake then ends, unless dialled before. */
  lemma GoodTokenDials(issued: map<string, int>, steps: seq<Step>, conn: int, c: Claims, now: int, later: int)
    requires Legal(FRESH, issued, steps) && Issued(issued, c)
    requires Exec(FRESH, issued, steps).clock <= now <= later
    requires c.typ == "ssh" && (c.exp > 0 ==> now <= c.exp)
    requires c.jti == "" || !Dialled(Exec(FRESH, issued, steps).dials, c.jti)
    ensures var p := Exec(FRESH, issued, steps); var p' := Apply(p, Verify(conn, c, now));
            && Enabled(p', Finish(conn, later))
            && Apply(p', Finish(conn, later)).dials == p.dials + [Dial(conn, c, later)]
  {
    RunKeeps(FRESH, issued, steps);
  }

  /** At the very second of its expiry one token opens two connections. */
  lemma TwoDialsAtExpiry()
    ensures var c := Claims(TYP_SSH, "t", 5);
            var steps := [Verify(1, c, 5), Verify(2, c, 5), Finish(1, 5), Finish(2, 5)];
            && Legal(FRESH, map["t" := 5], steps)
            && Exec(FRESH, map["t" := 5], steps).dials == [Dial(1, c, 5), Dial(2, c, 5)]
  {
    var c, issued := Claims(TYP_SSH, "t", 5), map["t" := 5];
    var a, b, e, f := Verify(1, c, 5), Verify(2, c, 5), Finish(1, 5), Finish(2, 5);
    var p1 := Apply(FRESH, a);
    var p2 := Apply(p1, b);
    var p3 := Apply(p2, e);
    var p4 := Apply(p3, f);
    assert p3.seen == map["t" := 5] by { assert |map["t" := 5]| == 1; }
    assert [a, b, e, f][1..] == [b, e, f] && [b, e, f][1..] == [e, f] && [e, f][1..] == [f] && [f][1..] == [];
    assert Legal(p4, issued, []) && Exec(p4, issued, []) == p4;
    assert Legal(p3, issued, [f]) && Exec(p3, issued, [f]) == p4;
    assert Legal(p2, issued, [e, f]) && Exec(p2, issued, [e, f]) == p4;
    assert Legal(p1, issued, [b, e, f]) && Exec(p1, issued, [b, e, f]) == p4;
  }
}
