/** `_index_op_session`, `_revoke_op_session`, `_op_session_revoked`, the logout
    behind its gate, and the writer of the per-user epoch, on the live tables. Each method is one step of
    the machine in OpSessions, however the clock moves during the call. */
module OpSessionStore {
  import opened Text
  import opened SharedState
  import opened OpCookie
  import opened OpSessions
  import opened OpGate

  ghost function Sids(active: seq<Active>): set<string> {
    set i | 0 <= i < |active| :: active[i].1
  }

  ghost predicate DistinctSids(active: seq<Active>) {
    forall i, j :: 0 <= i < j < |active| ==> active[i].1 != active[j].1
  }

  lemma {:induction false} CountSids(active: seq<Active>)
    requires DistinctSids(active)
    ensures |Sids(active)| == |active|
  {
    if active != [] {
      var n := |active| - 1;
      CountSids(active[..n]);
      assert Sids(active) == Sids(active[..n]) + {active[n].1};
    }
  }

  lemma SidsWithout(active: seq<Active>, m: nat)
    requires DistinctSids(active) && m < |active|
    ensures DistinctSids(active[..m] + active[m + 1..])
    ensures Sids(active[..m] + active[m + 1..]) == Sids(active) - {active[m].1}
  {
    var rest := active[..m] + active[m + 1..];
    forall x | x in Sids(active) && x != active[m].1 ensures x in Sids(rest) {
      var i :| 0 <= i < |active| && active[i].1 == x;
      assert rest[if i < m then i else i - 1] == active[i];
    }
  }

  predicate Precedes(a: Active, b: Active) { Before(a.0, a.1, b.0, b.1) }

  lemma PrecedesTransitive(a: Active, b: Active, c: Active)
    requires Precedes(a, b) && Precedes(b, c)
    ensures Precedes(a, c)
  {
    if a.0 == b.0 == c.0 { LexTransitive(a.1, b.1, c.1); }
  }

  /** `min(active)` for tuples of an expiry and a session id. */
  method MinIndex(active: seq<Active>) returns (m: nat)
    requires active != [] && DistinctSids(active)
    ensures m < |active|
    ensures forall j :: 0 <= j < |active| && j != m ==> Precedes(active[m], active[j])
    ensures forall j :: 0 <= j < |active| && j != m ==>
              active[m].0 < active[j].0 || (active[m].0 == active[j].0 && LexLess(active[m].1, active[j].1))
  {
    m := 0;
    for i := 1 to |active|
      invariant m < i
      invariant forall j :: 0 <= j < i && j != m ==> Precedes(active[m], active[j])
    {
      LexTotal(active[i].1, active[m].1);
      if Precedes(active[i], active[m]) {
        forall j | 0 <= j < i && j != m ensures Precedes(active[i], active[j]) {
          PrecedesTransitive(active[i], active[m], active[j]);
        }
        m := i;
      }
    }
  }

  type Index = map<Key, Entry<Stamp>>

  /** The active sessions are what the index says of them. */
  ghost predicate ReadFrom(active: seq<Active>, index: Index, user: string) {
    forall i :: 0 <= i < |active| ==>
      Key(user, active[i].1) in index && index[Key(user, active[i].1)].value == Number(active[i].0)
  }

  /** `index` is `was` less some stale entries. */
  ghost predicate Pruned(was: Index, index: Index, now: real) {
    && (forall k :: k in index ==> k in was && index[k] == was[k])
    && (forall k :: k in was && k !in index ==> Stale(was[k], now))
  }

  /** The scan, with the keys in `done` behind it. */
  ghost predicate ScanInv(was: Index, index: Index, user: string, cut: int, now: real,
                          active: seq<Active>, done: set<Key>)
  {
    && Pruned(was, index, now)
    && (forall k :: k in was && k !in index ==> k in done)
    && DistinctSids(active) && ReadFrom(active, was, user)
    && (forall j :: 0 <= j < |active| ==>
          active[j].0 > cut && Key(user, active[j].1) in done && Key(user, active[j].1) in index)
    && (forall k :: k in done && k in was && k.user == user && k.sid !in Sids(active) ==> Stale(was[k], now))
  }

  /** Of the keys behind the scan those are left that name a session not expired. */
  ghost predicate PrunedUpTo(index: Index, done: set<Key>, cut: int) {
    forall k :: k in done && k in index ==> index[k].value.Number? && index[k].value.n > cut
  }

  lemma ScanDrops(was: Index, index: Index, user: string, cut: int, now: real, later: real,
                  active: seq<Active>, done: set<Key>, k: Key)
    requires ScanInv(was, index, user, cut, now, active, done) && now <= later
    requires k in was && k !in done && Stale(was[k], later)
    ensures ScanInv(was, index - {k}, user, cut, later, active, done + {k})
  {}

  lemma ScanPasses(was: Index, index: Index, user: string, cut: int, now: real, later: real,
                   active: seq<Active>, done: set<Key>, k: Key)
    requires ScanInv(was, index, user, cut, now, active, done) && now <= later
    requires k in was && k !in done && k.user != user
    ensures ScanInv(was, index, user, cut, later, active, done + {k})
  {}

  lemma ScanAdds(was: Index, index: Index, user: string, cut: int, now: real, later: real,
                 active: seq<Active>, done: set<Key>, k: Key, exp: int)
    requires ScanInv(was, index, user, cut, now, active, done) && now <= later
    requires k in was && k !in done && k.user == user && was[k].value == Number(exp) && exp > cut
    ensures ScanInv(was, index, user, cut, later, active + [(exp, k.sid)], done + {k})
  {
    FloorMonotone(now, later);
    var more := active + [(exp, k.sid)];
    SidsOfMore(active, (exp, k.sid));
    assert k == Key(user, k.sid);
    forall i, j | 0 <= i < j < |more| ensures more[i].1 != more[j].1 {
      if j == |active| { assert Key(user, active[i].1) in done; }
    }
  }

  lemma SidsOfMore(active: seq<Active>, a: Active)
    ensures Sids(active + [a]) == Sids(active) + {a.1}
  {
    var more := active + [a];
    assert more[|active|] == a;
    forall x | x in Sids(active) ensures x in Sids(more) {
      var i :| 0 <= i < |active| && active[i].1 == x;
      assert more[i] == active[i];
    }
  }

  /** Eviction, with the sessions in `kept` left of those in `scan`. */
  ghost predicate EvictInv(s: State, index: Index, marks: map<string, Entry<()>>, user: string,
                           scan: set<string>, kept: seq<Active>)
  {
    && DistinctSids(kept) && Sids(kept) <= scan && ReadFrom(kept, s.index, user)
    && (forall x :: x in scan ==> Key(user, x) in s.index && s.index[Key(user, x)].value.Number?)
    && (forall k :: k in index <==> k in s.index && !(k.user == user && k.sid in scan - Sids(kept)))
    && (forall k :: k in index ==> index[k] == s.index[k])
    && MarksAfterMint(s, s.(marks := marks), user, scan - Sids(kept))
    && (forall x, y :: x in scan - Sids(kept) && y in Sids(kept) ==>
          Before(s.index[Key(user, x)].value.n, x, s.index[Key(user, y)].value.n, y))
  }

  lemma EvictedPrecede(s: State, index: Index, marks: map<string, Entry<()>>, user: string,
                       scan: set<string>, kept: seq<Active>, m: nat, x: string, y: string)
    requires EvictInv(s, index, marks, user, scan, kept) && m < |kept|
    requires forall j :: 0 <= j < |kept| && j != m ==> Precedes(kept[m], kept[j])
    requires x in (scan - Sids(kept)) + {kept[m].1} && y in Sids(kept) - {kept[m].1}
    ensures Before(s.index[Key(user, x)].value.n, x, s.index[Key(user, y)].value.n, y)
  {}

  lemma EvictStep(s: State, index: Index, marks: map<string, Entry<()>>, user: string,
                  scan: set<string>, kept: seq<Active>, m: nat, mark: Entry<()>)
    requires EvictInv(s, index, marks, user, scan, kept) && m < |kept|
    requires forall j :: 0 <= j < |kept| && j != m ==> Precedes(kept[m], kept[j])
    requires kept[m].0 as real <= mark.expires
    ensures EvictInv(s, index - {Key(user, kept[m].1)}, marks[kept[m].1 := mark], user, scan,
                     kept[..m] + kept[m + 1..])
  {
    var rest := kept[..m] + kept[m + 1..];
    SidsWithout(kept, m);
    assert scan - Sids(rest) == (scan - Sids(kept)) + {kept[m].1};
    assert ReadFrom(rest, s.index, user);
    forall x, y | x in scan - Sids(rest) && y in Sids(rest)
      ensures Before(s.index[Key(user, x)].value.n, x, s.index[Key(user, y)].value.n, y)
    {
      EvictedPrecede(s, index, marks, user, scan, kept, m, x, y);
    }
  }

  /** The marks written on sessions that were evicted, no longer than they need be. */
  ghost predicate MarksReach(index: Index, user: string, evicted: set<string>, marks: map<string, Entry<()>>,
                             lo: real, now: real)
  {
    forall x :: x in evicted ==>
      && Key(user, x) in index && index[Key(user, x)].value.Number? && x in marks
      && marks[x].expires <= now + MarkTtl(lo, index[Key(user, x)].value.n) as real
  }

  lemma MarksReachMore(index: Index, user: string, evicted: set<string>, marks: map<string, Entry<()>>, lo: real,
                       mid: real, now: real, n: int, x: string, mark: Entry<()>)
    requires MarksReach(index, user, evicted, marks, lo, mid) && lo <= mid <= now
    requires Key(user, x) in index && index[Key(user, x)].value == Number(n)
    requires mark.expires <= now + MarkTtl(mid, n) as real
    ensures MarksReach(index, user, evicted + {x}, marks[x := mark], lo, now)
  {
    FloorMonotone(lo, mid);
  }

  class Store {
    const clock: Clock
    const index: Table<Key, Stamp>
    const marks: Table<string, ()>
    const epochs: Table<string, real>
    ghost var issued: map<string, Issue>

    constructor (start: real)
      requires start >= 0.0
      ensures Valid() && Init(Abs()) && fresh(Repr())
    {
      clock := new Clock(start);
      index := new Table();
      marks := new Table();
      epochs := new Table();
      issued := map[];
    }

    ghost predicate Valid()
      reads Repr()
    {
      && (index as object) != marks && (index as object) != epochs && (marks as object) != epochs
      && clock.now >= 0.0
    }

    ghost function Repr(): set<object> { {this, clock, index, marks, epochs} }

    ghost function Abs(): State
      reads Repr()
    {
      State(clock.now, index.entries, marks.entries, epochs.entries, issued)
    }

    /** The pruning scan of the index; nothing is assumed about its contents. */
    method ScanActive(user: string) returns (active: seq<Active>)
      requires Valid()
      modifies clock, index
      ensures Valid() && old(clock.now) <= clock.now
      ensures Pruned(old(index.entries), index.entries, clock.now)
      ensures DistinctSids(active) && ReadFrom(active, index.entries, user)
      ensures forall i :: 0 <= i < |active| ==> active[i].0 > old(clock.now).Floor
      ensures forall k :: k in old(index.entries) && k.user == user && k.sid !in Sids(active) ==>
                Stale(old(index.entries)[k], clock.now)
      ensures forall k :: k in index.entries ==>
                var e := index.entries[k];
                (e.value.Number? && e.value.n > old(clock.now).Floor) || e.expires < clock.now
    {
      ghost var was := index.entries;
      var t := clock.Time();
      var now := t.Floor;
      active := [];
      var keys := index.ListKeys(clock);
      ghost var listed := clock.now;
      ghost var done: set<Key> := {};
      var i := 0;
      while i < |keys|
        invariant 0 <= i <= |keys|
        invariant t <= listed <= clock.now
        invariant done == set j | 0 <= j < i :: keys[j]
        invariant ScanInv(was, index.entries, user, now, clock.now, active, done)
        invariant PrunedUpTo(index.entries, done, now)
      {
        var k := keys[i];
        assert k in keys && k !in done;
        ghost var before := clock.now;
        ghost var entries := index.entries;
        assert k in entries;
        var v := index.Get(k, clock);
        var exp := if v.None? then Number(0) else v.value;
        if exp.Junk? || exp.n <= now {
          index.Delete(k);
          FloorMonotone(t, clock.now);
          ScanDrops(was, entries, user, now, before, clock.now, active, done, k);
          assert index.entries == entries - {k};
        } else if k.user == user {
          ScanAdds(was, entries, user, now, before, clock.now, active, done, k, exp.n);
          active := active + [(exp.n, k.sid)];
        } else {
          ScanPasses(was, entries, user, now, before, clock.now, active, done, k);
        }
        i := i + 1;
        done := done + {k};
      }
      FloorMonotone(old(clock.now), t);
      UnlistedAreStale(was, keys, done, listed, clock.now);
      UnlistedHaveLapsed(was, index.entries, keys, done, listed, clock.now, now);
    }

    /** Revokes and unlists the oldest sessions until nine are left. */
    method EvictOldest(user: string, active: seq<Active>) returns (kept: seq<Active>)
      requires Valid() && DistinctSids(active) && ReadFrom(active, index.entries, user)
      modifies clock, index, marks
      ensures Valid() && old(clock.now) <= clock.now
      ensures |Sids(kept)| == if |Sids(active)| < MAX_PER_USER then |Sids(active)| else MAX_PER_USER - 1
      ensures EvictInv(old(Abs()), index.entries, marks.entries, user, Sids(active), kept)
      ensures MarksReach(old(index.entries), user, Sids(active) - Sids(kept), marks.entries, old(clock.now), clock.now)
    {
      kept := active;
      ghost var s := Abs();
      CountSids(active);
      while |kept| >= MAX_PER_USER
        invariant Valid() && old(clock.now) <= clock.now
        invariant if |active| < MAX_PER_USER then kept == active else |kept| >= MAX_PER_USER - 1
        invariant EvictInv(s, index.entries, marks.entries, user, Sids(active), kept)
        invariant MarksReach(s.index, user, Sids(active) - Sids(kept), marks.entries, s.now, clock.now)
      {
        var m := MinIndex(kept);
        var oldest := kept[m];
        ghost var lo, i0, m0 := clock.now, index.entries, marks.entries;
        RevokeOpSession(oldest.1, oldest.0);
        MarkOutlives(lo, clock.now, oldest.0, marks.entries[oldest.1].expires, oldest.0);
        MarkWithin(lo, clock.now, oldest.0, marks.entries[oldest.1].expires);
        MarksReachMore(s.index, user, Sids(active) - Sids(kept), m0, s.now, lo, clock.now, oldest.0, oldest.1,
                       marks.entries[oldest.1]);
        index.Delete(Key(user, oldest.1));
        EvictStep(s, i0, m0, user, Sids(active), kept, m, marks.entries[oldest.1]);
        SidsWithout(kept, m);
        assert Sids(active) - (Sids(kept) - {oldest.1}) == (Sids(active) - Sids(kept)) + {oldest.1};
        kept := kept[..m] + kept[m + 1..];
      }
      CountSids(kept);
    }

    /** `_issue_op_session`, from the expiry it computes to the index write. */
    method IssueOpSession(user: string, sid: string)
        returns (exp: nat, ghost scan: set<string>, ghost kept: set<string>)
      requires Valid() && Key(user, sid) !in index.entries
      modifies Repr()
      ensures Valid() && Mint(old(Abs()), Abs(), user, sid, exp, scan, kept)
      ensures old(clock.now).Floor + 28800 <= exp <= clock.now.Floor + 28800
      ensures |kept| == if |scan| < 10 then |scan| else 9
      ensures forall x, y :: x in scan - kept && y in kept ==>
                && Key(user, x) in old(index.entries) && Key(user, y) in old(index.entries)
                && var a, b := old(index.entries)[Key(user, x)].value, old(index.entries)[Key(user, y)].value;
                   a.Number? && b.Number? && (a.n < b.n || (a.n == b.n && LexLess(x, y)))
      ensures forall x :: x in scan - kept ==>
                && x in marks.entries
                && marks.entries[x].expires
                   <= clock.now + MarkTtl(old(clock.now), old(index.entries)[Key(user, x)].value.n) as real
      ensures index.entries[Key(user, sid)].expires <= clock.now + 28800.0
    {
      ghost var before := Abs();
      var t := clock.Time();
      exp := t.Floor + OP_SESSION_TTL;
      var active := ScanActive(user);
      ghost var scanned := Abs();
      var rest := EvictOldest(user, active);
      ghost var evicted := Abs();
      index.SetTtl(Key(user, sid), Number(exp), OP_SESSION_TTL, clock);
      issued := issued[sid := Issue(user, exp)];
      scan, kept := Sids(active), Sids(rest);
      FloorMonotone(before.now, t);
      FloorMonotone(t, clock.now);
      MintAssembles(before, scanned, evicted, Abs(), user, sid, exp, active, rest);
      StagesScan(before, scanned, evicted, Abs(), user, sid, active, rest);
      MintSpelledOut(before, Abs(), user, sid, exp, scan, kept);
      EvictedReach(before, scanned, scan - kept, marks.entries, clock.now, user);
    }

    method RevokeOpSession(sid: string, horizon: int)
      requires Valid()
      modifies clock, marks
      ensures Valid() && Revoke(old(Abs()), Abs(), sid, horizon)
    {
      var t := clock.Time();
      var ttl := if horizon - t.Floor > 1 then horizon - t.Floor else 1;
      marks.SetTtl(sid, (), ttl, clock);
      assert MarkReadings(old(clock.now), clock.now, horizon, marks.entries[sid].expires, t, clock.now);
    }

    method RevokeUserSessions(user: string, ttl: nat)
      requires Valid() && ttl >= OP_SESSION_TTL
      modifies clock, epochs
      ensures Valid() && RevokeUser(old(Abs()), Abs(), user, ttl)
      ensures epochs.entries[user].expires <= clock.now + ttl as real
    {
      var t := clock.Time();
      epochs.SetTtl(user, t, ttl, clock);
    }

    /** `_op_session_revoked` and the expiry test, for a cookie whose signature
        recomputed. The verdict is right when the call ends, unless the cookie
        expires while it runs. */
    method VerifyOpSession(cookie: Session) returns (ok: bool)
      requires Valid() && Sound(Abs())
      requires cookie.sid in issued && issued[cookie.sid] == Issue(cookie.username, cookie.exp)
      modifies clock, marks, epochs
      ensures Valid() && Idle(old(Abs()), Abs())
      ensures Accepted(Abs(), cookie.sid) ==> ok
      ensures ok ==> Accepted(Abs(), cookie.sid) || cookie.exp as real <= clock.now
    {
      var now := clock.Time();
      if !InWindow(cookie.exp, now) {
        FloorMonotone(old(clock.now), now);
        return false;
      }
      var mark := marks.Get(cookie.sid, clock);
      if mark.Some? { return false; }
      var at := epochs.Get(cookie.username, clock);
      if at.Some? && cookie.exp - OP_SESSION_TTL <= at.value.Floor { return false; }
      ok := true;
    }

    /** `_verify_op_cookie`: parse, revocation, account. Whatever is presented,
        only a cookie that was minted can pass, and one that was passes exactly
        if it is accepted when the call ends (or expires while it runs) and its
        account still resolves. */
    method VerifyOpCookie(mac: Mac, value: string, bind: Option<string>, accounts: Option<Accounts>,
                          ghost minted: set<Ticket>)
        returns (r: Option<(string, Operator)>)
      requires Valid() && Sound(Abs()) && HexMac(mac) && Unforged(mac, minted, value, bind)
      requires forall t :: t in minted ==>
                 MintableTicket(t) && t.sid in issued && issued[t.sid] == Issue(t.username, t.exp)
      modifies clock, marks, epochs
      ensures Valid() && Idle(old(Abs()), Abs())
      ensures r.Some? ==> exists t :: Presented(mac, minted, value, bind, t) && Passes(Abs(), t, accounts, r.value)
      ensures r.None? ==> Unvouched(Abs(), mac, minted, value, bind, accounts)
      ensures r.Some? ==> accounts.Some? && exists t: Ticket ::
                && Presented(mac, minted, value, bind, t) && r.value.0 == t.sid && r.value.1.username == t.username
                && (if t.username in accounts.value
                    then !accounts.value[t.username].disabled && r.value.1.role == accounts.value[t.username].role
                    else t.username == "admin" && r.value.1.role == "admin")
      ensures r.None? && |value| <= 256 && accounts.Some? ==>
                forall t :: Presented(mac, minted, value, bind, t) && Accepted(Abs(), t.sid) ==>
                  if t.username in accounts.value then accounts.value[t.username].disabled else t.username != "admin"
    {
      r := None;
      ghost var before := Abs();
      var now := clock.Time();
      ghost var read := Abs();
      IdleSound(before, read);
      var parsed := ParseOpCookie(mac, value, bind, now);
      if parsed.None? {
        if |value| <= MAX_COOKIE { RefusedParse(mac, minted, value, bind, read); }
      } else {
        ghost var t := OnlyMintedVerifies(mac, minted, value, bind, now);
        var ok := VerifyOpSession(parsed.value);
        IdleTwice(before, read, Abs());
        SameCookie(mac, minted, value, bind, t);
        var operator := Resolve(accounts, parsed.value.username);
        if ok && operator.Some? {
          r := Some((parsed.value.sid, operator.value));
          assert Passes(Abs(), t, accounts, r.value);
        }
      }
      VerdictSpelledOut(Abs(), mac, minted, value, bind, accounts, r);
    }

    /** `_resolve_operator`: the session by its cookie, if there is just one and it
        verifies; or else one opened for the Basic credentials. */
    method ResolveOperator(mac: Mac, req: Request, accounts: Option<Accounts>, drawn: string,
                           ghost minted: set<Ticket>)
        returns (found: Option<string>, ghost mid: State)
      requires Valid() && Sound(Abs()) && HexMac(mac) && CookiesGenuine(Abs(), mac, req, minted) && drawn !in issued
      modifies Repr()
      ensures Valid() && Idle(old(Abs()), mid)
      ensures match found
              case None => Abs() == mid && req.basic.None? && NoCookieVerifies(mid, mac, req, accounts, minted)
              case Some(sid) =>
                if Abs() == mid then CookieVerifies(mid, mac, req, accounts, minted, sid)
                else sid == drawn && MintsFor(mid, Abs(), req.basic, drawn)
                     && NoCookieVerifies(mid, mac, req, accounts, minted)
    {
      if |req.cookies| == 1 {
        var verified := VerifyOpCookie(mac, req.cookies[0], req.bind, accounts, minted);
        mid := Abs();
        if verified.Some? {
          ghost var t: Ticket :|
            Presented(mac, minted, req.cookies[0], req.bind, t) && Passes(mid, t, accounts, verified.value);
          SameCookie(mac, minted, req.cookies[0], req.bind, t);
          assert Verifies(mid, mac, req, accounts, minted, t, verified.value.0);
          return Some(verified.value.0), mid;
        }
      } else {
        mid := Abs();
      }
      if req.basic.None? { return None, mid; }
      SoundIsFresh(mid, req.basic.value, drawn);
      ghost var exp, scan, kept;
      exp, scan, kept := IssueOpSession(req.basic.value, drawn);
      assert Abs().issued == mid.issued[drawn := Issue(req.basic.value, exp)];
      return Some(drawn), mid;
    }

    /** `_operator_gate`, for a route that asks for no permission. Only a cookie that
        verifies gets through: a session that is opened in the request itself has a
        token that no one has been sent. */
    method Gate(mac: Mac, req: Request, accounts: Option<Accounts>, drawn: string,
                ghost minted: set<Ticket>, ghost told: Told)
        returns (r: Result<string, Refusal>)
      requires Valid() && Sound(Abs()) && HexMac(mac) && CookiesGenuine(Abs(), mac, req, minted)
      requires TokensGenuine(Abs(), mac, req, minted, told) && drawn !in issued && ':' !in drawn
      modifies Repr()
      ensures Valid()
      ensures match r
              case Ok(sid) => Idle(old(Abs()), Abs()) && CookieVerifies(Abs(), mac, req, accounts, minted, sid)
                && req.sameSite && CheckCsrf(mac, sid, req.nonce, req.token)
              case Err(e) => exists mid: State ::
                Idle(old(Abs()), mid) && Turned(mid, Abs(), mac, req, accounts, minted, drawn, e)
    {
      ghost var before := Abs();
      var found;
      ghost var mid;
      found, mid := ResolveOperator(mac, req, accounts, drawn, minted);
      FreshSessionRefused(before, mac, req, minted, told, drawn);
      if found.None? || !req.sameSite || !CheckCsrf(mac, found.value, req.nonce, req.token) {
        r := Err(if found.None? then Unauthenticated else Forbidden);
        assert Turned(mid, Abs(), mac, req, accounts, minted, drawn, r.error);
        return;
      }
      return Ok(found.value);
    }

    /** `_post_logout` behind its gate: a logout either is turned away, or is the
        step of the machine for the session of a cookie that verified. */
    method LogOut(mac: Mac, req: Request, accounts: Option<Accounts>, drawn: string,
                  readInt: string -> Option<int>, ghost minted: set<Ticket>, ghost told: Told)
        returns (r: Result<(), Refusal>)
      requires Valid() && Sound(Abs()) && HexMac(mac) && ReadsDecimals(readInt)
      requires CookiesGenuine(Abs(), mac, req, minted) && TokensGenuine(Abs(), mac, req, minted, told)
      requires drawn !in issued && ':' !in drawn
      modifies Repr()
      ensures Valid()
      ensures match r
              case Ok(_) => LogsOut(old(Abs()), Abs(), mac, req, accounts, minted)
              case Err(e) => exists mid: State ::
                Idle(old(Abs()), mid) && Turned(mid, Abs(), mac, req, accounts, minted, drawn, e)
    {
      var gate := Gate(mac, req, accounts, drawn, minted, told);
      if gate.Err? { return Err(gate.error); }
      ghost var mid := Abs();
      ghost var t: Ticket :| Verifies(mid, mac, req, accounts, minted, t, gate.value);
      LogoutReadsTicket(mac, t, readInt);
      RevokeBoth(gate.value, CookieValue(req), readInt);
      return Ok(());
    }

    /** The revocations of `_post_logout`: of the session that passed the gate, and of
        the cookie that was sent, as its first and third fields stand. */
    method RevokeBoth(gateSid: string, cookie: string, readInt: string -> Option<int>)
      requires Valid() && gateSid in issued && gateSid == CookieSid(cookie) != ""
      requires forall now :: LogoutHorizon(cookie, readInt, now) == issued[gateSid].exp
      modifies clock, marks
      ensures Valid() && OpSessions.LogOut(old(Abs()), Abs(), gateSid)
    {
      var now := clock.Time();
      ghost var read := Abs();
      if gateSid != "" { RevokeOpSession(gateSid, now.Floor + OP_SESSION_TTL); }
      ghost var half := Abs();
      if CookieSid(cookie) != "" { RevokeOpSession(CookieSid(cookie), LogoutHorizon(cookie, readInt, now)); }
      assert LogOutVia(old(Abs()), read, half, Abs(), gateSid);
    }
  }

  // ----- the gate --------------------------------------------------------

  /** A cookie that a client sends is of a session that was opened, or a forgery. */
  ghost predicate CookiesGenuine(s: State, mac: Mac, req: Request, minted: set<Ticket>) {
    && (forall t :: t in minted ==>
          MintableTicket(t) && t.sid in s.issued && s.issued[t.sid] == Issue(t.username, t.exp))
    && (|req.cookies| == 1 ==> Unforged(mac, minted, req.cookies[0], req.bind))
  }

  /** And so is a token. */
  ghost predicate TokensGenuine(s: State, mac: Mac, req: Request, minted: set<Ticket>, told: Told) {
    (forall c :: c in told ==> c.0 in s.issued) && PlainSids(told) && TokenUnforged(mac, minted, told, req)
  }

  /** The request sends one cookie, this ticket's, and it verifies. */
  ghost predicate Verifies(s: State, mac: Mac, req: Request, accounts: Option<Accounts>, minted: set<Ticket>,
                           t: Ticket, sid: string)
  {
    && |req.cookies| == 1 && Presented(mac, minted, req.cookies[0], req.bind, t) && sid == t.sid
    && (Accepted(s, sid) || t.exp as real <= s.now) && Resolve(accounts, t.username).Some?
    && (forall u :: Presented(mac, minted, req.cookies[0], req.bind, u) ==> u.sid == sid)
  }

  ghost predicate CookieVerifies(s: State, mac: Mac, req: Request, accounts: Option<Accounts>, minted: set<Ticket>,
                                 sid: string)
  {
    exists t: Ticket :: Verifies(s, mac, req, accounts, minted, t, sid)
  }

  ghost predicate NoCookieVerifies(s: State, mac: Mac, req: Request, accounts: Option<Accounts>, minted: set<Ticket>) {
    |req.cookies| == 1 ==> Unvouched(s, mac, minted, req.cookies[0], req.bind, accounts)
  }

  ghost predicate MintsFor(s: State, s': State, user: Option<string>, drawn: string) {
    user.Some? && exists exp: nat, scan: set<string>, kept: set<string> ::
      Mint(s, s', user.value, drawn, exp, scan, kept)
  }

  /** The request's one cookie verifies, it brings the token of its session, and that
      is the session logged out. */
  ghost predicate LogsOut(s: State, s': State, mac: Mac, req: Request, accounts: Option<Accounts>, minted: set<Ticket>)
  {
    exists mid: State, sid ::
      Idle(s, mid) && CookieVerifies(mid, mac, req, accounts, minted, sid) && OpSessions.LogOut(mid, s', sid)
      && req.sameSite && CheckCsrf(mac, sid, req.nonce, req.token)
  }

  /** A request is turned away for want of a session, with nothing changed; or of
      the token, or because it comes from elsewhere. Then it has at most opened a
      session for its Basic credentials. */
  ghost predicate Turned(mid: State, s': State, mac: Mac, req: Request, accounts: Option<Accounts>,
                         minted: set<Ticket>, drawn: string, e: Refusal)
  {
    match e
    case Unauthenticated => s' == mid && req.basic.None? && NoCookieVerifies(mid, mac, req, accounts, minted)
    case Forbidden =>
      || (MintsFor(mid, s', req.basic, drawn) && NoCookieVerifies(mid, mac, req, accounts, minted))
      || (s' == mid && CookieWithoutToken(mid, mac, req, accounts, minted))
  }

  ghost predicate CookieWithoutToken(s: State, mac: Mac, req: Request, accounts: Option<Accounts>, minted: set<Ticket>)
  {
    exists sid :: CookieVerifies(s, mac, req, accounts, minted, sid)
                  && (!req.sameSite || !CheckCsrf(mac, sid, req.nonce, req.token))
  }

  /** A session that verifies is that of a minted cookie, of someone who has an
      account. */
  lemma CookieVerifiesExactly(s: State, mac: Mac, req: Request, accounts: Option<Accounts>, minted: set<Ticket>,
                              sid: string)
    requires HexMac(mac) && forall t :: t in minted ==> MintableTicket(t)
    ensures CookieVerifies(s, mac, req, accounts, minted, sid)
       <==> && |req.cookies| == 1 && accounts.Some?
            && exists t: Ticket ::
                 && t in minted && t.bind == req.bind && t.sid == sid && req.cookies[0] == IssueOpCookie(mac, t)
                 && (Accepted(s, sid) || t.exp as real <= s.now)
                 && (if t.username in accounts.value then !accounts.value[t.username].disabled
                     else t.username == "admin")
  {
    AccountsResolve(accounts);
    if |req.cookies| == 1 {
      forall t | Presented(mac, minted, req.cookies[0], req.bind, t)
        ensures forall u :: Presented(mac, minted, req.cookies[0], req.bind, u) ==> u.sid == t.sid
      {
        SameCookie(mac, minted, req.cookies[0], req.bind, t);
      }
      forall t: Ticket
        ensures Verifies(s, mac, req, accounts, minted, t, sid)
           <==> && t in minted && t.bind == req.bind && t.sid == sid && req.cookies[0] == IssueOpCookie(mac, t)
                && (Accepted(s, sid) || t.exp as real <= s.now) && Resolve(accounts, t.username).Some?
      {
        assert Presented(mac, minted, req.cookies[0], req.bind, t)
          <==> t in minted && t.bind == req.bind && req.cookies[0] == IssueOpCookie(mac, t);
      }
    }
  }

  /** What a request that was turned away had, and what it changed: a 401 is for one
      without Basic credentials, and changes nothing; a 403 opens a session for
      them, or is for a cookie that verifies. */
  lemma TurnedSpelledOut(mid: State, s': State, mac: Mac, req: Request, accounts: Option<Accounts>,
                         minted: set<Ticket>, drawn: string, e: Refusal)
    requires Turned(mid, s', mac, req, accounts, minted, drawn, e)
    ensures e.Unauthenticated? ==> s' == mid && req.basic.None?
    ensures e.Forbidden? ==>
              || (req.basic.Some? && exists exp: nat, scan: set<string>, kept: set<string> ::
                    Mint(mid, s', req.basic.value, drawn, exp, scan, kept))
              || (s' == mid && |req.cookies| == 1 && exists t ::
                    && Presented(mac, minted, req.cookies[0], req.bind, t)
                    && (Accepted(mid, t.sid) || t.exp as real <= mid.now))
  {}

  /** And what it had not: of an accepted cookie, of someone with an account, the
      right token, sent from the same site. */
  lemma TurnedWithoutToken(mid: State, s': State, mac: Mac, req: Request, accounts: Option<Accounts>,
                           minted: set<Ticket>, drawn: string, e: Refusal, t: Ticket)
    requires HexMac(mac) && Turned(mid, s', mac, req, accounts, minted, drawn, e)
    requires |req.cookies| == 1 && Presented(mac, minted, req.cookies[0], req.bind, t) && |req.cookies[0]| <= 256
    requires Accepted(mid, t.sid) && accounts.Some?
    requires if t.username in accounts.value then !accounts.value[t.username].disabled else t.username == "admin"
    ensures s' == mid && e.Forbidden?
    ensures !(req.sameSite && req.nonce != "" && t.sid != "" && req.token == mac("csrf:" + t.sid + ":" + req.nonce))
  {
    AccountsResolve(accounts);
    assert CookieWithoutToken(mid, mac, req, accounts, minted);
    var sid :| CookieVerifies(mid, mac, req, accounts, minted, sid)
               && (!req.sameSite || !CheckCsrf(mac, sid, req.nonce, req.token));
    CheckCsrfExactly(mac, sid, req.nonce, req.token);
  }

  /** And one that was not: the token, the site and the session logged out. */
  lemma LogsOutSpelledOut(s: State, s': State, mac: Mac, req: Request, accounts: Option<Accounts>, minted: set<Ticket>)
    requires HexMac(mac) && LogsOut(s, s', mac, req, accounts, minted) && forall t :: t in minted ==> MintableTicket(t)
    ensures req.sameSite && req.nonce != "" && |req.cookies| == 1
    ensures exists mid: State, t: Ticket ::
      && Idle(s, mid) && OpSessions.LogOut(mid, s', t.sid) && t in minted && req.cookies[0] == IssueOpCookie(mac, t)
      && (Accepted(mid, t.sid) || t.exp as real <= mid.now)
      && req.token == mac("csrf:" + t.sid + ":" + req.nonce)
  {
    var mid: State, sid :|
      Idle(s, mid) && CookieVerifies(mid, mac, req, accounts, minted, sid) && OpSessions.LogOut(mid, s', sid)
      && req.sameSite && CheckCsrf(mac, sid, req.nonce, req.token);
    CheckCsrfExactly(mac, sid, req.nonce, req.token);
    CookieVerifiesExactly(mid, mac, req, accounts, minted, sid);
  }

  /** The token of a session that was not there before the request: no client can
      send it. */
  lemma FreshSessionRefused(s: State, mac: Mac, req: Request, minted: set<Ticket>, told: Told, drawn: string)
    requires TokensGenuine(s, mac, req, minted, told) && drawn !in s.issued && ':' !in drawn
    ensures !CheckCsrf(mac, drawn, req.nonce, req.token)
  {
    if CheckCsrf(mac, drawn, req.nonce, req.token) { TokenNamesSession(mac, minted, told, req, drawn); }
  }

  lemma SoundIsFresh(s: State, user: string, drawn: string)
    requires IndexSound(s) && drawn !in s.issued
    ensures Key(user, drawn) !in s.index
  {
    assert Key(user, drawn) in s.index ==> Key(user, drawn).sid in s.issued;
  }

  // ----- the cookie as it was sent ---------------------------------------

  /** The value is the cookie of a ticket that was minted for this address. */
  ghost predicate Presented(mac: Mac, minted: set<Ticket>, value: string, bind: Option<string>, t: Ticket) {
    t in minted && t.bind == bind && value == IssueOpCookie(mac, t)
  }

  lemma IdleTwice(s: State, mid: State, s': State)
    requires Idle(s, mid) && Idle(mid, s')
    ensures Idle(s, s')
  {}

  // ----- the account behind a cookie -------------------------------------

  /** A record of the operator store. */
  datatype Account = Account(disabled: bool, role: string)

  type Accounts = map<string, Account>

  datatype Operator = Operator(username: string, role: string)

  /** `_resolve_op_identity`; no accounts is a store that cannot be read. */
  function Resolve(accounts: Option<Accounts>, username: string): Option<Operator> {
    match accounts
    case None => None
    case Some(m) =>
      if username in m then
        if m[username].disabled then None else Some(Operator(username, m[username].role))
      else if username == "admin" then Some(Operator("admin", "admin"))
      else None
  }

  /** Who resolves, and to what: a name in the store that is not disabled, to the
      role of its record; and `admin`, where the store has no record of it. */
  lemma ResolvesExactly(accounts: Option<Accounts>, username: string, name: string, role: string)
    ensures Resolve(accounts, username) == Some(Operator(name, role))
       <==> && accounts.Some? && name == username
            && (if username in accounts.value
                then !accounts.value[username].disabled && role == accounts.value[username].role
                else username == "admin" && role == "admin")
  {}

  /** What a passing ticket yields: its own id, and its user's account. */
  ghost predicate Passes(s: State, t: Ticket, accounts: Option<Accounts>, r: (string, Operator)) {
    && r.0 == t.sid && Resolve(accounts, t.username) == Some(r.1)
    && (Accepted(s, t.sid) || t.exp as real <= s.now)
  }

  /** No ticket with this cookie is accepted and has an account. */
  ghost predicate Unvouched(s: State, mac: Mac, minted: set<Ticket>, value: string, bind: Option<string>,
                            accounts: Option<Accounts>)
  {
    |value| <= MAX_COOKIE ==>
      forall t :: Presented(mac, minted, value, bind, t) ==>
        !Accepted(s, t.sid) || Resolve(accounts, t.username).None?
  }

  lemma AccountsResolve(accounts: Option<Accounts>)
    ensures forall name :: Resolve(accounts, name).Some? <==>
              accounts.Some? && if name in accounts.value then !accounts.value[name].disabled else name == "admin"
    ensures forall name :: Resolve(accounts, name).Some? ==>
              Resolve(accounts, name)
              == Some(Operator(name, if name in accounts.value then accounts.value[name].role else "admin"))
  {
    forall name, role
      ensures Resolve(accounts, name) == Some(Operator(name, role)) <==>
              && accounts.Some?
              && if name in accounts.value
                 then !accounts.value[name].disabled && role == accounts.value[name].role
                 else name == "admin" && role == "admin"
    {
      ResolvesExactly(accounts, name, name, role);
    }
  }

  /** The accounts of the cookies that pass, and of the accepted ones that do not. */
  lemma VerdictSpelledOut(s: State, mac: Mac, minted: set<Ticket>, value: string, bind: Option<string>,
                          accounts: Option<Accounts>, r: Option<(string, Operator)>)
    requires r.Some? ==> exists t :: Presented(mac, minted, value, bind, t) && Passes(s, t, accounts, r.value)
    requires r.None? ==> Unvouched(s, mac, minted, value, bind, accounts)
    ensures r.Some? ==> accounts.Some? && exists t: Ticket ::
              && Presented(mac, minted, value, bind, t) && r.value.0 == t.sid && r.value.1.username == t.username
              && (if t.username in accounts.value
                  then !accounts.value[t.username].disabled && r.value.1.role == accounts.value[t.username].role
                  else t.username == "admin" && r.value.1.role == "admin")
    ensures r.None? && |value| <= 256 && accounts.Some? ==>
              forall t :: Presented(mac, minted, value, bind, t) && Accepted(s, t.sid) ==>
                if t.username in accounts.value then accounts.value[t.username].disabled else t.username != "admin"
  {
    AccountsResolve(accounts);
  }

  lemma RefusedParse(mac: Mac, minted: set<Ticket>, value: string, bind: Option<string>, s: State)
    requires HexMac(mac) && |value| <= MAX_COOKIE && ParseOpCookie(mac, value, bind, s.now) == None
    requires forall t :: t in minted ==>
               MintableTicket(t) && t.sid in s.issued && s.issued[t.sid] == Issue(t.username, t.exp)
    ensures forall t :: Presented(mac, minted, value, bind, t) ==> !Accepted(s, t.sid)
  {
    forall t | Presented(mac, minted, value, bind, t) ensures !Accepted(s, t.sid) {
      ParseIssued(mac, t, bind, s.now);
      assert t.(bind := bind) == t;
    }
  }

  /** The text of a cookie tells its id and its user. */
  lemma SameCookie(mac: Mac, minted: set<Ticket>, value: string, bind: Option<string>, t: Ticket)
    requires HexMac(mac) && forall u :: u in minted ==> MintableTicket(u)
    requires Presented(mac, minted, value, bind, t)
    ensures forall u :: Presented(mac, minted, value, bind, u) ==> u.sid == t.sid && u.username == t.username
  {
    forall u | Presented(mac, minted, value, bind, u) ensures u.sid == t.sid && u.username == t.username {
      PartsOfIssued(mac, t);
      PartsOfIssued(mac, u);
      assert Split(value, '.')[0] == t.sid == u.sid && Split(value, '.')[1] == User64(t.username) == User64(u.username);
      NameDecodes(t.username);
      NameDecodes(u.username);
    }
  }

  lemma UnlistedAreStale(was: Index, keys: seq<Key>, done: set<Key>, listed: real, now: real)
    requires forall k :: k in keys <==> Holds(was, k, listed)
    requires done == set j | 0 <= j < |keys| :: keys[j]
    requires listed <= now
    ensures forall k :: k in was && k !in done ==> Stale(was[k], now)
  {
    forall k | k in was && k !in done ensures Stale(was[k], now) {
      assert k !in keys;
    }
  }

  lemma UnlistedHaveLapsed(was: Index, index: Index, keys: seq<Key>, done: set<Key>, listed: real, now: real, cut: int)
    requires Pruned(was, index, now) && PrunedUpTo(index, done, cut) && listed <= now
    requires forall k :: k in keys <==> Holds(was, k, listed)
    requires done == set j | 0 <= j < |keys| :: keys[j]
    ensures forall k :: k in index ==> (index[k].value.Number? && index[k].value.n > cut) || index[k].expires < now
  {
    forall k | k in index && k !in done ensures index[k].expires < now { assert k !in keys && k in was; }
  }

  /** The states between the scan, the eviction and the index write of a mint. */
  ghost predicate MintStages(s: State, scanned: State, evicted: State, s': State, user: string, sid: string,
                             active: seq<Active>, rest: seq<Active>)
  {
    && s.now <= scanned.now <= evicted.now <= s'.now
    && Key(user, sid) !in s.index
    && Pruned(s.index, scanned.index, scanned.now) && ReadFrom(active, scanned.index, user)
    && (forall i :: 0 <= i < |active| ==> active[i].0 > s.now.Floor)
    && (forall k :: k in s.index && k.user == user && k.sid !in Sids(active) ==> Stale(s.index[k], scanned.now))
    && scanned.marks == s.marks && s'.marks == evicted.marks
    && EvictInv(scanned, evicted.index, evicted.marks, user, Sids(active), rest)
    && Key(user, sid) in s'.index && s'.index == evicted.index[Key(user, sid) := s'.index[Key(user, sid)]]
  }

  /** The choices of a mint, spelled out. */
  lemma MintSpelledOut(s: State, s': State, user: string, sid: string, exp: nat, scan: set<string>, kept: set<string>)
    requires Mint(s, s', user, sid, exp, scan, kept)
    ensures |kept| == if |scan| < 10 then |scan| else 9
    ensures forall x, y :: x in scan - kept && y in kept ==>
              && Key(user, x) in s.index && Key(user, y) in s.index
              && var a, b := s.index[Key(user, x)].value, s.index[Key(user, y)].value;
                 a.Number? && b.Number? && (a.n < b.n || (a.n == b.n && LexLess(x, y)))
  {
    forall x, y | x in scan - kept && y in kept
      ensures && Key(user, x) in s.index && Key(user, y) in s.index
              && var a, b := s.index[Key(user, x)].value, s.index[Key(user, y)].value;
                 a.Number? && b.Number? && (a.n < b.n || (a.n == b.n && LexLess(x, y)))
    {
      MintEvictsEarliest(s, s', user, sid, exp, scan, kept, x, y);
    }
  }

  lemma EvictedReach(s: State, scanned: State, evicted: set<string>, marks: map<string, Entry<()>>, now: real,
                     user: string)
    requires MarksReach(scanned.index, user, evicted, marks, scanned.now, now) && s.now <= scanned.now
    requires forall x :: x in evicted ==>
               Key(user, x) in s.index && s.index[Key(user, x)] == scanned.index[Key(user, x)]
    ensures forall x :: x in evicted ==>
              && x in marks && s.index[Key(user, x)].value.Number?
              && marks[x].expires <= now + MarkTtl(s.now, s.index[Key(user, x)].value.n) as real
  {
    FloorMonotone(s.now, scanned.now);
  }

  lemma StagesScan(s: State, scanned: State, evicted: State, s': State, user: string, sid: string,
                   active: seq<Active>, rest: seq<Active>)
    requires MintStages(s, scanned, evicted, s', user, sid, active, rest)
    ensures forall x :: x in Sids(active) ==>
              Key(user, x) in s.index && s.index[Key(user, x)] == scanned.index[Key(user, x)]
    ensures Scanned(s, s', user, Sids(active))
  {
    FloorMonotone(scanned.now, s'.now);
  }

  lemma StagesIndex(s: State, scanned: State, evicted: State, s': State, user: string, sid: string, exp: nat,
                    active: seq<Active>, rest: seq<Active>)
    requires MintStages(s, scanned, evicted, s', user, sid, active, rest)
    requires s'.index[Key(user, sid)].value == Number(exp) && exp as real <= s'.index[Key(user, sid)].expires
    ensures IndexAfterMint(s, s', user, sid, exp, Sids(active), Sids(rest))
  {
    FloorMonotone(scanned.now, s'.now);
    forall k | k in s.index && k !in s'.index && !(k.user == user && k.sid in Sids(active) - Sids(rest))
      ensures Stale(s.index[k], s'.now)
    {
      assert k !in scanned.index;
    }
  }

  /** The scan, the eviction and the index write make up one mint. */
  lemma MintAssembles(s: State, scanned: State, evicted: State, s': State, user: string, sid: string, exp: nat,
                      active: seq<Active>, rest: seq<Active>)
    requires MintStages(s, scanned, evicted, s', user, sid, active, rest)
    requires |Sids(rest)| == if |Sids(active)| < MAX_PER_USER then |Sids(active)| else MAX_PER_USER - 1
    requires s'.index[Key(user, sid)].value == Number(exp) && exp as real <= s'.index[Key(user, sid)].expires
    requires s.now.Floor + OP_SESSION_TTL <= exp <= s'.now.Floor + OP_SESSION_TTL
    requires s'.epochs == s.epochs && s'.issued == s.issued[sid := Issue(user, exp)]
    ensures Mint(s, s', user, sid, exp, Sids(active), Sids(rest))
  {
    StagesScan(s, scanned, evicted, s', user, sid, active, rest);
    StagesIndex(s, scanned, evicted, s', user, sid, exp, active, rest);
  }
}
