/** The operator-session protocol as a state machine: a session index, the
    revocation marks and the per-user revocation epochs, all in a key/value
    store whose entries lapse, beside the cookies that have been handed out. */
module OpSessions {
  import opened Text
  import opened SharedState
  import opened OpCookie

  const MAX_PER_USER: nat := 10

  /** An index value: what `int(value)` makes of it. */
  datatype Stamp = Number(n: int) | Junk

  datatype Key = Key(user: string, sid: string)

  datatype Issue = Issue(user: string, exp: nat)

  /** What the scan of a mint collects: an expiry and a session id. */
  type Active = (int, string)

  /** `now` is the last clock reading; `issued` records the cookies minted. */
  datatype State = State(
    now: real,
    index: map<Key, Entry<Stamp>>,
    marks: map<string, Entry<()>>,
    epochs: map<string, Entry<real>>,
    issued: map<string, Issue>)

  /** Would `_verify_op_cookie` take this session's cookie now? (The signature
      and the identity lookup are elsewhere; see OpCookie.) */
  ghost predicate Accepted(s: State, sid: string) {
    && sid in s.issued
    && InWindow(s.issued[sid].exp, s.now)
    && !Holds(s.marks, sid, s.now)
    && !CutByEpoch(s, s.issued[sid])
  }

  /** The per-user epoch test: minted in or before the second of the epoch. */
  ghost predicate CutByEpoch(s: State, c: Issue) {
    Holds(s.epochs, c.user, s.now) && c.exp - OP_SESSION_TTL <= s.epochs[c.user].value.Floor
  }

  // ----- steps -----------------------------------------------------------

  ghost predicate Idle(s: State, s': State) {
    && s.now <= s'.now && s'.issued == s.issued
    && Lapses(s.index, s'.index, s'.now)
    && Lapses(s.marks, s'.marks, s'.now)
    && Lapses(s.epochs, s'.epochs, s'.now)
  }

  /** An index entry whose cookie the index need not keep: unreadable, expired,
      or lapsed in the store. */
  predicate Stale(e: Entry<Stamp>, now: real) {
    e.value.Junk? || e.value.n <= now.Floor || e.expires < now
  }

  /** The order in which a mint evicts: by expiry, then by session id. */
  predicate Before(e1: int, sid1: string, e2: int, sid2: string) {
    e1 < e2 || (e1 == e2 && LexLess(sid1, sid2))
  }

  /** The user's sessions the scan of a mint may count as active. */
  ghost predicate Scanned(s: State, s': State, user: string, scan: set<string>) {
    && (forall x :: x in scan ==>
          && Key(user, x) in s.index
          && s.index[Key(user, x)].value.Number?
          && s.index[Key(user, x)].value.n > s.now.Floor)
    && (forall k :: k in s.index && k.user == user && k.sid !in scan ==> Stale(s.index[k], s'.now))
  }

  /** `kept` is what eviction leaves of `scan`: the 9 last in eviction order. */
  ghost predicate KeepsNewest(s: State, user: string, scan: set<string>, kept: set<string>)
    requires forall x :: x in scan ==> Key(user, x) in s.index && s.index[Key(user, x)].value.Number?
  {
    && kept <= scan
    && |kept| == (if |scan| < MAX_PER_USER then |scan| else MAX_PER_USER - 1)
    && (forall x, y :: x in scan - kept && y in kept ==>
          Before(s.index[Key(user, x)].value.n, x, s.index[Key(user, y)].value.n, y))
  }

  ghost predicate IndexAfterMint(s: State, s': State, user: string, sid: string, exp: nat,
                                 scan: set<string>, kept: set<string>)
  {
    && Key(user, sid) in s'.index
    && s'.index[Key(user, sid)].value == Number(exp)
    && exp as real <= s'.index[Key(user, sid)].expires
    && (forall x :: x in kept ==> Key(user, x) in s'.index)
    && (forall k :: k in s'.index && k != Key(user, sid) ==>
          k in s.index && s'.index[k] == s.index[k] && !(k.user == user && k.sid in scan - kept))
    && (forall k :: k in s.index && k !in s'.index ==>
          (k.user == user && k.sid in scan - kept) || Stale(s.index[k], s'.now))
  }

  ghost predicate MarksAfterMint(s: State, s': State, user: string, evicted: set<string>)
    requires forall x :: x in evicted ==> Key(user, x) in s.index && s.index[Key(user, x)].value.Number?
  {
    && (forall x :: x in evicted ==>
          x in s'.marks && s.index[Key(user, x)].value.n as real <= s'.marks[x].expires)
    && (forall x :: x !in evicted ==>
          (x in s'.marks <==> x in s.marks) && (x in s.marks ==> s'.marks[x] == s.marks[x]))
  }

  /** One whole `_issue_op_session`, however the clock moves while it runs. */
  ghost predicate Mint(s: State, s': State, user: string, sid: string, exp: nat,
                       scan: set<string>, kept: set<string>)
  {
    && s.now <= s'.now && s'.epochs == s.epochs
    && s.now.Floor + OP_SESSION_TTL <= exp <= s'.now.Floor + OP_SESSION_TTL
    && Scanned(s, s', user, scan)
    && KeepsNewest(s, user, scan, kept)
    && IndexAfterMint(s, s', user, sid, exp, scan, kept)
    && MarksAfterMint(s, s', user, scan - kept)
    && s'.issued == s.issued[sid := Issue(user, exp)]
  }

  /** `_revoke_op_session(sid, horizon)`. The two clock readings it takes may
      differ, so the mark lapses somewhere in a range. */
  ghost predicate Revoke(s: State, s': State, sid: string, horizon: int) {
    && s.now <= s'.now && s'.index == s.index && s'.epochs == s.epochs && s'.issued == s.issued
    && sid in s'.marks && s'.marks == s.marks[sid := s'.marks[sid]]
    && MarkSpan(s.now, s'.now, horizon, s'.marks[sid].expires)
  }

  /** Where a mark may lapse when its TTL is computed at `t` and it is stored at
      `u`, with `lo <= t <= u <= hi`. */
  ghost predicate MarkSpan(lo: real, hi: real, horizon: int, expires: real) {
    exists t: real, u: real :: MarkReadings(lo, hi, horizon, expires, t, u)
  }

  predicate MarkReadings(lo: real, hi: real, horizon: int, expires: real, t: real, u: real) {
    lo <= t <= u <= hi && expires == u + MarkTtl(t, horizon) as real
  }

  /** `max(1, exp - int(time.time()))` */
  function MarkTtl(t: real, horizon: int): int {
    if horizon - t.Floor > 1 then horizon - t.Floor else 1
  }

  /** A password, role or enabled-state change: the epoch is the current time. */
  ghost predicate RevokeUser(s: State, s': State, user: string, ttl: nat) {
    && ttl >= OP_SESSION_TTL
    && s.now <= s'.now && s'.index == s.index && s'.marks == s.marks && s'.issued == s.issued
    && user in s'.epochs && s'.epochs == s.epochs[user := s'.epochs[user]]
    && s.now <= s'.epochs[user].value <= s'.now
    && s'.epochs[user].value + ttl as real <= s'.epochs[user].expires
  }

  /** A logout of the session whose cookie passed the gate: after whatever time,
      its mark is written twice, with a whole session's life from a reading of the
      clock, and with the expiry of its cookie. */
  ghost predicate LogOut(s: State, s': State, sid: string) {
    exists read: State, mid: State :: LogOutVia(s, read, mid, s', sid)
  }

  ghost predicate LogOutVia(s: State, read: State, mid: State, s': State, sid: string) {
    && sid in s.issued && Idle(s, read)
    && Revoke(read, mid, sid, read.now.Floor + OP_SESSION_TTL)
    && Revoke(mid, s', sid, s.issued[sid].exp)
  }

  datatype Event =
    | Wait
    | MintEvent(user: string, sid: string, exp: nat, scan: set<string>, kept: set<string>)
    | LogOutEvent(sid: string)
    | RevokeUserEvent(user: string, ttl: nat)

  /** A mint draws a session id never seen before. */
  ghost predicate Next(s: State, ev: Event, s': State) {
    match ev
    case Wait => Idle(s, s')
    case MintEvent(user, sid, exp, scan, kept) => sid !in s.issued && Mint(s, s', user, sid, exp, scan, kept)
    case LogOutEvent(sid) => LogOut(s, s', sid)
    case RevokeUserEvent(user, ttl) => RevokeUser(s, s', user, ttl)
  }

  ghost predicate Init(s: State) {
    s.now >= 0.0 && s.index == map[] && s.marks == map[] && s.epochs == map[] && s.issued == map[]
  }

  ghost predicate StepAt(states: seq<State>, events: seq<Event>, i: nat)
    requires |states| == |events| + 1 && i < |events|
  {
    Next(states[i], events[i], states[i + 1])
  }

  ghost predicate Run(states: seq<State>, events: seq<Event>) {
    && |states| == |events| + 1
    && Init(states[0])
    && (forall i :: 0 <= i < |events| ==> StepAt(states, events, i))
  }

  // ----- what every step keeps -------------------------------------------

  /** Each entry of the index is a cookie's own, and outlives it. */
  ghost predicate IndexSound(s: State) {
    forall k :: k in s.index ==>
      k.sid in s.issued && s.index[k].value == Number(s.issued[k.sid].exp)
      && s.issued[k.sid].user == k.user && s.issued[k.sid].exp as real <= s.index[k].expires
  }

  ghost predicate MarkedForLife(s: State, sid: string, exp: nat) {
    sid in s.marks && exp as real <= s.marks[sid].expires
  }

  ghost predicate CutForLife(s: State, c: Issue) {
    && c.user in s.epochs && c.exp as real <= s.epochs[c.user].expires
    && c.exp - OP_SESSION_TTL <= s.epochs[c.user].value.Floor
  }

  /** A cookie still in date is indexed, or revoked for the rest of its life. */
  ghost predicate Covered(s: State, sid: string, c: Issue) {
    c.exp as real <= s.now || Key(c.user, sid) in s.index || MarkedForLife(s, sid, c.exp) || CutForLife(s, c)
  }

  ghost predicate CoveredFor(s: State, user: string) {
    forall sid :: sid in s.issued && s.issued[sid].user == user ==> Covered(s, sid, s.issued[sid])
  }

  /** The user's index entries that a scan starting now would count. */
  ghost function LiveSids(s: State, user: string): set<string> {
    set k | k in s.index && k.user == user && !Stale(s.index[k], s.now) :: k.sid
  }

  ghost predicate Capped(s: State) {
    forall user :: |LiveSids(s, user)| <= MAX_PER_USER
  }

  /** Every cookie lives for a session from a time not yet to come. */
  ghost predicate IssuedByNow(s: State) {
    s.now >= 0.0
    && forall sid :: sid in s.issued ==> OP_SESSION_TTL <= s.issued[sid].exp <= s.now.Floor + OP_SESSION_TTL
  }

  ghost predicate MarksIssued(s: State) { s.marks.Keys <= s.issued.Keys }

  /** An epoch lies in the past and outlives every cookie it cuts. */
  ghost predicate EpochsSound(s: State) {
    forall user :: user in s.epochs ==>
      && s.epochs[user].value <= s.now
      && s.epochs[user].value + OP_SESSION_TTL as real <= s.epochs[user].expires
  }

  /** What every step keeps. */
  ghost predicate Sound(s: State) {
    IndexSound(s) && Capped(s) && IssuedByNow(s) && EpochsSound(s) && MarksIssued(s)
  }

  lemma FloorMonotone(a: real, b: real)
    requires a <= b
    ensures a.Floor <= b.Floor
  {}

  /** The integer and real clocks agree on whether an expiry has passed. */
  lemma FloorDecides(n: int, now: real)
    ensures n > now.Floor <==> n as real > now
  {}

  lemma SubsetCard<T>(a: set<T>, b: set<T>)
    requires a <= b
    ensures |a| <= |b|
  {
    if a != b {
      assert b == a + (b - a);
    }
  }

  lemma StaleStays(e: Entry<Stamp>, t: real, u: real)
    requires t <= u && Stale(e, t)
    ensures Stale(e, u)
  {}

  /** Removing or aging entries cannot raise the count. */
  lemma CapKept(s: State, s': State)
    requires Capped(s) && s.now <= s'.now
    requires forall k :: k in s'.index ==> k in s.index && s'.index[k] == s.index[k]
    ensures Capped(s')
  {
    forall user ensures |LiveSids(s', user)| <= MAX_PER_USER {
      forall k | k in s'.index && k.user == user && !Stale(s'.index[k], s'.now)
        ensures k.sid in LiveSids(s, user)
      {
        if Stale(s.index[k], s.now) { StaleStays(s.index[k], s.now, s'.now); }
      }
      SubsetCard(LiveSids(s', user), LiveSids(s, user));
    }
  }

  /** A mark computed from a horizon at or past the expiry outlives the cookie. */
  lemma MarkOutlives(lo: real, hi: real, horizon: int, expires: real, exp: int)
    requires MarkSpan(lo, hi, horizon, expires) && exp <= horizon
    ensures exp as real <= expires
  {
    var t, u :| MarkReadings(lo, hi, horizon, expires, t, u);
  }

  /** And it lapses no later than its TTL, computed at the start, after the end. */
  lemma MarkWithin(lo: real, hi: real, horizon: int, expires: real)
    requires MarkSpan(lo, hi, horizon, expires)
    ensures expires <= hi + MarkTtl(lo, horizon) as real
  {
    var t, u :| MarkReadings(lo, hi, horizon, expires, t, u);
    FloorMonotone(lo, t);
  }

  lemma IdleSound(s: State, s': State)
    requires Sound(s) && Idle(s, s')
    ensures Sound(s')
  {
    CapKept(s, s');
    FloorMonotone(s.now, s'.now);
  }

  lemma RevokeSound(s: State, s': State, sid: string, horizon: int)
    requires Sound(s) && sid in s.issued && Revoke(s, s', sid, horizon)
    ensures Sound(s')
  {
    CapKept(s, s');
    FloorMonotone(s.now, s'.now);
  }

  lemma LogOutSound(s: State, s': State, sid: string)
    requires Sound(s) && LogOut(s, s', sid)
    ensures Sound(s')
  {
    var read: State, mid: State :| LogOutVia(s, read, mid, s', sid);
    IdleSound(s, read);
    RevokeSound(read, mid, sid, read.now.Floor + OP_SESSION_TTL);
    RevokeSound(mid, s', sid, s.issued[sid].exp);
  }

  lemma RevokeUserSound(s: State, s': State, user: string, ttl: nat)
    requires Sound(s) && RevokeUser(s, s', user, ttl)
    ensures Sound(s')
  {
    CapKept(s, s');
    FloorMonotone(s.now, s'.now);
  }

  /** What a mint leaves of the minting user's live entries: at most the nine
      kept and the new one. Nothing is asked of the index it starts from. */
  lemma MintBounds(s: State, s': State, user: string, sid: string, exp: nat,
                   scan: set<string>, kept: set<string>)
    requires Mint(s, s', user, sid, exp, scan, kept)
    ensures LiveSids(s', user) <= kept + {sid}
    ensures |LiveSids(s', user)| <= MAX_PER_USER
  {
    forall k | k in s'.index && k.user == user && !Stale(s'.index[k], s'.now)
      ensures k.sid in kept + {sid}
    {}
    SubsetCard(LiveSids(s', user), kept + {sid});
  }

  /** Of its user's sessions a mint lets those go that expire first, and among
      those that expire together the ones with the smaller ids. */
  lemma MintEvictsEarliest(s: State, s': State, user: string, sid: string, exp: nat,
                           scan: set<string>, kept: set<string>, x: string, y: string)
    requires Mint(s, s', user, sid, exp, scan, kept) && x in scan - kept && y in kept
    ensures Key(user, x) in s.index && s.index[Key(user, x)].value.Number?
    ensures Key(user, y) in s.index && s.index[Key(user, y)].value.Number?
    ensures var n, m := s.index[Key(user, x)].value.n, s.index[Key(user, y)].value.n;
            n < m || (n == m && LexLess(x, y))
  {}

  /** What becomes of each index entry in a mint: its own is new; the evicted ones
      go, marked beyond their expiry; the kept ones stay; and of all others only
      those go that are unreadable, expired or lapsed by its end. A session is
      counted if it was not expired when the mint began, and left out only if it
      was to go in any case. */
  lemma MintEntries(s: State, s': State, user: string, sid: string, exp: nat,
                    scan: set<string>, kept: set<string>, k: Key)
    requires Mint(s, s', user, sid, exp, scan, kept) && k != Key(user, sid)
    ensures Key(user, sid) in s'.index && s'.index[Key(user, sid)].value == Number(exp)
    ensures k.user == user && k.sid in scan ==>
              k in s.index && s.index[k].value.Number? && s.index[k].value.n > s.now.Floor
    ensures k.user == user && k.sid in scan - kept ==>
              k !in s'.index && k.sid in s'.marks && s.index[k].value.n as real <= s'.marks[k.sid].expires
    ensures k.user == user && k.sid in kept ==> k.sid in scan && k in s'.index
    ensures k in s'.index ==> k in s.index && s'.index[k] == s.index[k]
    ensures k in s.index && (k !in s'.index || k.user == user) && !(k.user == user && k.sid in scan) ==>
              s.index[k].value.Junk? || s.index[k].value.n <= s'.now.Floor || s.index[k].expires < s'.now
  {
    assert k == Key(k.user, k.sid);
  }

  /** So no cookie that a mint revokes outlives one that it leaves. */
  lemma EvictedExpireFirst(s: State, ev: Event, s': State, x: string, y: string)
    requires IndexSound(s) && ev.MintEvent? && Next(s, ev, s') && x in ev.scan - ev.kept && y in ev.kept
    ensures x in s.issued && y in s.issued && s.issued[x].exp <= s.issued[y].exp
    ensures s.issued[x].exp == s.issued[y].exp ==> LexLess(x, y)
    ensures s.issued[x].user == s.issued[y].user == ev.user
  {
    MintEvictsEarliest(s, s', ev.user, ev.sid, ev.exp, ev.scan, ev.kept, x, y);
    assert Key(ev.user, x).sid in s.issued && Key(ev.user, y).sid in s.issued;
  }

  lemma MintKeepsIndexSound(s: State, s': State, ev: Event)
    requires IndexSound(s) && ev.MintEvent? && Next(s, ev, s')
    ensures IndexSound(s')
  {}

  lemma MintKeepsTimes(s: State, s': State, ev: Event)
    requires IssuedByNow(s) && EpochsSound(s) && ev.MintEvent? && Next(s, ev, s')
    ensures IssuedByNow(s') && EpochsSound(s')
  {}

  lemma MintKeepsMarks(s: State, s': State, ev: Event)
    requires IndexSound(s) && MarksIssued(s) && ev.MintEvent? && Next(s, ev, s')
    ensures MarksIssued(s')
  {
    forall x | x in s'.marks ensures x in s'.issued {
      if x in ev.scan - ev.kept { assert Key(ev.user, x) in s.index; }
    }
  }

  lemma MintKeepsCapped(s: State, s': State, ev: Event)
    requires Capped(s) && ev.MintEvent? && Next(s, ev, s')
    ensures Capped(s')
  {
    forall user ensures |LiveSids(s', user)| <= MAX_PER_USER {
      if user == ev.user {
        MintBounds(s, s', ev.user, ev.sid, ev.exp, ev.scan, ev.kept);
      } else {
        forall k | k in s'.index && k.user == user && !Stale(s'.index[k], s'.now)
          ensures k.sid in LiveSids(s, user)
        {
          if Stale(s.index[k], s.now) { StaleStays(s.index[k], s.now, s'.now); }
        }
        SubsetCard(LiveSids(s', user), LiveSids(s, user));
      }
    }
  }

  lemma StepSound(s: State, ev: Event, s': State)
    requires Sound(s) && Next(s, ev, s')
    ensures Sound(s')
  {
    match ev
    case Wait => IdleSound(s, s');
    case MintEvent(_, _, _, _, _) =>
      MintKeepsIndexSound(s, s', ev);
      MintKeepsTimes(s, s', ev);
      MintKeepsMarks(s, s', ev);
      MintKeepsCapped(s, s', ev);
    case LogOutEvent(sid) => LogOutSound(s, s', sid);
    case RevokeUserEvent(user, ttl) => RevokeUserSound(s, s', user, ttl);
  }

  lemma {:induction false} RunSound(states: seq<State>, events: seq<Event>, i: nat)
    requires Run(states, events) && i < |states|
    ensures Sound(states[i])
  {
    if i == 0 {
      forall user ensures LiveSids(states[0], user) == {} {}
    } else {
      RunSound(states, events, i - 1);
      assert StepAt(states, events, i - 1);
      StepSound(states[i - 1], events[i - 1], states[i]);
    }
  }

  lemma MintCovers(s: State, ev: Event, s': State, sid: string)
    requires IndexSound(s) && ev.MintEvent? && Next(s, ev, s')
    requires sid in s.issued && Covered(s, sid, s.issued[sid])
    ensures Covered(s', sid, s.issued[sid])
  {
    var k := Key(s.issued[sid].user, sid);
    if k in s.index && k !in s'.index && !(k.user == ev.user && sid in ev.scan - ev.kept) {
      FloorDecides(s.issued[sid].exp, s'.now);
    }
  }

  lemma MintCoversAll(s: State, ev: Event, s': State, user: string)
    requires IndexSound(s) && CoveredFor(s, user) && ev.MintEvent? && Next(s, ev, s')
    ensures CoveredFor(s', user)
  {
    forall sid | sid in s'.issued && s'.issued[sid].user == user ensures Covered(s', sid, s'.issued[sid]) {
      if sid != ev.sid { MintCovers(s, ev, s', sid); }
    }
  }

  /** What a logout leaves: the mark of its session outlives the cookie, and all
      else has at most lapsed. */
  lemma LogOutMarks(s: State, s': State, sid: string)
    requires LogOut(s, s', sid)
    ensures sid in s.issued && s'.issued == s.issued && s.now <= s'.now
    ensures MarkedForLife(s', sid, s.issued[sid].exp)
    ensures Lapses(s.index, s'.index, s'.now) && Lapses(s.epochs, s'.epochs, s'.now)
    ensures Lapses(s.marks - {sid}, s'.marks - {sid}, s'.now)
  {
    var read: State, mid: State :| LogOutVia(s, read, mid, s', sid);
    var exp := s.issued[sid].exp;
    MarkOutlives(mid.now, s'.now, exp, s'.marks[sid].expires, exp);
  }

  lemma LogOutCovers(s: State, s': State, sid: string, x: string)
    requires LogOut(s, s', sid) && x in s.issued && Covered(s, x, s.issued[x])
    requires IndexSound(s) && EpochsSound(s)
    ensures Covered(s', x, s.issued[x])
  {
    LogOutMarks(s, s', sid);
    var c := s.issued[x];
    if s'.now < c.exp as real && x != sid {
      assert x in s.marks ==> x in (s.marks - {sid});
    }
  }

  /** A cookie in date is indexed, or revoked for the rest of its life: so it
      stays, in every step. */
  lemma StepCovers(s: State, ev: Event, s': State, user: string)
    requires Sound(s) && CoveredFor(s, user) && Next(s, ev, s')
    ensures CoveredFor(s', user)
  {
    if ev.MintEvent? {
      MintCoversAll(s, ev, s', user);
    } else {
      forall sid | sid in s'.issued && s'.issued[sid].user == user ensures Covered(s', sid, s'.issued[sid]) {
        StepKeepsIssued(s, ev, s');
        assert Covered(s, sid, s.issued[sid]);
        if ev.LogOutEvent? {
          LogOutCovers(s, s', ev.sid, sid);
        } else if ev.RevokeUserEvent? && ev.user == user {
          EpochCutsIssued(s, s', user, ev.ttl, sid);
        }
      }
    }
  }

  lemma StepKeepsIssued(s: State, ev: Event, s': State)
    requires Next(s, ev, s') && !ev.MintEvent?
    ensures s'.issued == s.issued && s.now <= s'.now
  {
    if ev.LogOutEvent? { LogOutMarks(s, s', ev.sid); }
  }

  lemma {:induction false} RunCovers(states: seq<State>, events: seq<Event>, i: nat, user: string)
    requires Run(states, events) && i < |states|
    ensures CoveredFor(states[i], user)
  {
    if i > 0 {
      RunCovers(states, events, i - 1, user);
      RunSound(states, events, i - 1);
      assert StepAt(states, events, i - 1);
      StepCovers(states[i - 1], events[i - 1], states[i], user);
    }
  }

  // ----- the cap ---------------------------------------------------------

  ghost function AcceptedSids(s: State, user: string): set<string> {
    set sid | sid in s.issued && s.issued[sid].user == user && Accepted(s, sid)
  }

  lemma AcceptedAreLive(s: State, user: string)
    requires IndexSound(s) && CoveredFor(s, user)
    ensures AcceptedSids(s, user) <= LiveSids(s, user)
  {
    forall sid | sid in AcceptedSids(s, user) ensures sid in LiveSids(s, user) {
      var c := s.issued[sid];
      assert Covered(s, sid, c);
      FloorDecides(c.exp, s.now);
      assert Key(user, sid) in s.index;
    }
  }

  /** In every run, at every instant, at most ten cookies of a user verify. */
  lemma AtMostTenVerify(states: seq<State>, events: seq<Event>, i: nat, user: string)
    requires Run(states, events) && i < |states|
    ensures |AcceptedSids(states[i], user)| <= 10
  {
    RunSound(states, events, i);
    RunCovers(states, events, i, user);
    AcceptedAreLive(states[i], user);
    SubsetCard(AcceptedSids(states[i], user), LiveSids(states[i], user));
  }

  /** Whatever number verified before it, ten at most verify for the user after
      a mint that runs undisturbed. */
  lemma MintRestoresCap(s: State, ev: Event, s': State)
    requires ev.MintEvent? && IndexSound(s) && CoveredFor(s, ev.user) && Next(s, ev, s')
    ensures |AcceptedSids(s', ev.user)| <= MAX_PER_USER
  {
    MintKeepsIndexSound(s, s', ev);
    MintCoversAll(s, ev, s', ev.user);
    MintBounds(s, s', ev.user, ev.sid, ev.exp, ev.scan, ev.kept);
    AcceptedAreLive(s', ev.user);
    SubsetCard(AcceptedSids(s', ev.user), LiveSids(s', ev.user));
  }

  // ----- exactly which cookies verify ------------------------------------

  /** Three things refuse a genuine cookie, and nothing else does: its expiry, a
      mark that has not lapsed, and an epoch that cuts it. */
  lemma AcceptedExactly(s: State, sid: string)
    requires Sound(s) && sid in s.issued
    ensures Accepted(s, sid)
       <==> s.now < s.issued[sid].exp as real && !Holds(s.marks, sid, s.now) && !CutForLife(s, s.issued[sid])
  {
    var c := s.issued[sid];
    if c.user in s.epochs && c.exp - OP_SESSION_TTL <= s.epochs[c.user].value.Floor {
      assert c.exp as real <= s.epochs[c.user].expires;
    }
  }

  lemma EpochCutsIssued(s: State, s': State, user: string, ttl: nat, sid: string)
    requires IssuedByNow(s) && RevokeUser(s, s', user, ttl)
    requires sid in s.issued && s.issued[sid].user == user
    ensures CutForLife(s', s'.issued[sid])
  {
    FloorMonotone(s.now, s'.epochs[user].value);
  }

  /** The cookies on which a step writes a mark. */
  ghost function MarkedBy(ev: Event): set<string> {
    match ev
    case MintEvent(_, _, _, scan, kept) => scan - kept
    case LogOutEvent(sid) => {sid}
    case _ => {}
  }

  ghost predicate CutsUser(ev: Event, user: string) { ev.RevokeUserEvent? && ev.user == user }

  /** What one step does to a cookie, whatever the step: it verifies afterwards
      exactly if it is in date, no epoch cuts it, the step did not mark it and no
      earlier mark is left. */
  lemma StepAccepts(s: State, ev: Event, s': State, sid: string)
    requires Sound(s) && Next(s, ev, s') && sid in s.issued
    ensures sid in s'.issued && s'.issued[sid] == s.issued[sid]
    ensures Accepted(s', sid)
       <==> && s'.now < s.issued[sid].exp as real
            && !CutForLife(s, s.issued[sid]) && !CutsUser(ev, s.issued[sid].user)
            && sid !in MarkedBy(ev) && !Holds(s.marks, sid, s'.now)
  {
    StepSound(s, ev, s');
    StepKeepsIssue(s, ev, s', sid);
    AcceptedExactly(s', sid);
    StepMarks(s, ev, s', sid);
    if s'.now < s.issued[sid].exp as real { StepCuts(s, ev, s', sid); }
  }

  lemma StepKeepsIssue(s: State, ev: Event, s': State, sid: string)
    requires Next(s, ev, s') && sid in s.issued
    ensures sid in s'.issued && s'.issued[sid] == s.issued[sid] && s.now <= s'.now
  {
    if ev.LogOutEvent? { LogOutMarks(s, s', ev.sid); }
  }

  /** A step that marks a cookie marks it for life; any other leaves its mark to
      lapse in its time. */
  lemma StepMarks(s: State, ev: Event, s': State, sid: string)
    requires Sound(s) && Next(s, ev, s') && sid in s.issued
    ensures sid in MarkedBy(ev) ==> MarkedForLife(s', sid, s.issued[sid].exp)
    ensures sid !in MarkedBy(ev) ==>
              (sid in s'.marks ==> sid in s.marks && s'.marks[sid] == s.marks[sid])
              && (sid in s.marks && sid !in s'.marks ==> s.marks[sid].expires < s'.now)
  {
    match ev
    case MintEvent(user, _, _, scan, kept) =>
      if sid in scan - kept { assert Key(user, sid) in s.index; }
    case LogOutEvent(out) =>
      LogOutMarks(s, s', out);
      assert sid in s.marks && sid != out ==> sid in s.marks - {out};
      assert sid in s'.marks && sid != out ==> sid in s'.marks - {out};
    case _ =>
  }

  lemma StepCuts(s: State, ev: Event, s': State, sid: string)
    requires Sound(s) && Next(s, ev, s') && sid in s.issued && s'.now < s.issued[sid].exp as real
    ensures CutForLife(s', s.issued[sid]) <==> CutForLife(s, s.issued[sid]) || CutsUser(ev, s.issued[sid].user)
  {
    match ev
    case RevokeUserEvent(user, ttl) =>
      if user == s.issued[sid].user { EpochCutsIssued(s, s', user, ttl, sid); }
    case LogOutEvent(out) =>
      LogOutMarks(s, s', out);
      var user := s.issued[sid].user;
      if CutForLife(s, s.issued[sid]) { assert user in s.epochs && s.issued[sid].exp as real <= s.epochs[user].expires; }
    case _ =>
  }

  ghost predicate CutSince(events: seq<Event>, user: string, m: nat, j: nat)
    requires j <= |events|
  {
    exists k :: m < k < j && CutsUser(events[k], user)
  }

  /** Has a step since `m` evicted the session or logged it out? */
  ghost predicate MarkedSince(events: seq<Event>, sid: string, m: nat, j: nat)
    requires j <= |events|
  {
    exists k :: m < k < j && sid in MarkedBy(events[k])
  }

  /** Was the user revoked in the second of the mint at `m`, or later? */
  ghost predicate CutAtMint(s: State, ev: Event)
    requires ev.MintEvent?
  {
    ev.user in s.epochs && ev.exp - OP_SESSION_TTL <= s.epochs[ev.user].value.Floor
  }

  /** Since the mint at `m`, all that bears on its cookie. */
  ghost predicate Told(states: seq<State>, events: seq<Event>, m: nat, j: nat)
    requires |states| == |events| + 1 && m < j < |states| && events[m].MintEvent?
  {
    var s, sid, c := states[j], events[m].sid, Issue(events[m].user, events[m].exp);
    && sid in s.issued && s.issued[sid] == c
    && (sid in s.marks ==> MarkedSince(events, sid, m, j))
    && (s.now < c.exp as real ==>
          (MarkedSince(events, sid, m, j) ==> MarkedForLife(s, sid, c.exp))
          && (CutForLife(s, c) <==> CutAtMint(states[m], events[m]) || CutSince(events, c.user, m, j)))
  }

  lemma ToldAtMint(states: seq<State>, events: seq<Event>, m: nat)
    requires Run(states, events) && m < |events| && events[m].MintEvent?
    ensures Told(states, events, m, m + 1)
  {
    var s, ev, s' := states[m], events[m], states[m + 1];
    RunSound(states, events, m);
    assert StepAt(states, events, m);
    MintUnmarked(s, ev, s');
    MintCut(s, ev, s');
  }

  lemma MintUnmarked(s: State, ev: Event, s': State)
    requires Sound(s) && ev.MintEvent? && Next(s, ev, s')
    ensures ev.sid in s'.issued && s'.issued[ev.sid] == Issue(ev.user, ev.exp) && ev.sid !in s'.marks
  {
    forall x | x in ev.scan ensures x != ev.sid {
      assert Key(ev.user, x) in s.index && Key(ev.user, x).sid in s.issued;
    }
  }

  lemma MintCut(s: State, ev: Event, s': State)
    requires Sound(s) && ev.MintEvent? && Next(s, ev, s')
    ensures CutForLife(s', Issue(ev.user, ev.exp)) <==> CutAtMint(s, ev)
  {
    if CutAtMint(s, ev) { assert ev.exp as real <= s.epochs[ev.user].expires; }
  }

  lemma ToldNext(states: seq<State>, events: seq<Event>, m: nat, j: nat)
    requires Run(states, events) && m < j < |events| && events[m].MintEvent? && Told(states, events, m, j)
    ensures Told(states, events, m, j + 1)
  {
    var s, ev, s', sid := states[j], events[j], states[j + 1], events[m].sid;
    RunSound(states, events, j);
    assert StepAt(states, events, j);
    StepKeepsIssue(s, ev, s', sid);
    StepMarks(s, ev, s', sid);
    if s'.now < events[m].exp as real { StepCuts(s, ev, s', sid); }
    CutSinceMore(events, events[m].user, m, j);
    MarkedSinceMore(events, sid, m, j);
  }

  lemma MarkedSinceMore(events: seq<Event>, sid: string, m: nat, j: nat)
    requires m < j < |events|
    ensures MarkedSince(events, sid, m, j + 1) <==> MarkedSince(events, sid, m, j) || sid in MarkedBy(events[j])
  {
    if sid in MarkedBy(events[j]) { assert m < j < j + 1; }
  }

  lemma CutSinceMore(events: seq<Event>, user: string, m: nat, j: nat)
    requires m < j < |events|
    ensures CutSince(events, user, m, j + 1) <==> CutSince(events, user, m, j) || CutsUser(events[j], user)
  {
    if CutsUser(events[j], user) { assert m < j < j + 1; }
  }

  lemma {:induction false} ToldAlways(states: seq<State>, events: seq<Event>, m: nat, j: nat)
    requires Run(states, events) && m < j < |states| && events[m].MintEvent?
    ensures Told(states, events, m, j)
  {
    if j == m + 1 {
      ToldAtMint(states, events, m);
    } else {
      ToldAlways(states, events, m, j - 1);
      ToldNext(states, events, m, j - 1);
    }
  }

  /** The whole story of one cookie, in any run: it verifies exactly while it is in
      date, has not been evicted or logged out, and its user has not been revoked
      in the second of the mint or later. */
  lemma VerifiesExactly(states: seq<State>, events: seq<Event>, m: nat, j: nat)
    requires Run(states, events) && m < j < |states| && events[m].MintEvent?
    ensures events[m].sid in states[j].issued
    ensures states[j].issued[events[m].sid] == Issue(events[m].user, events[m].exp)
    ensures Accepted(states[j], events[m].sid)
       <==> && states[j].now < events[m].exp as real && !MarkedSince(events, events[m].sid, m, j)
            && !CutAtMint(states[m], events[m]) && !CutSince(events, events[m].user, m, j)
  {
    ToldAlways(states, events, m, j);
    RunSound(states, events, j);
    AcceptedExactly(states[j], events[m].sid);
  }

  /** A cookie just minted is accepted, unless the mint outlasted it or its user
      was revoked in the second of the mint or later. */
  lemma FreshCookieAccepted(s: State, ev: Event, s': State)
    requires Sound(s) && ev.MintEvent? && Next(s, ev, s')
    ensures Accepted(s', ev.sid) <==> s'.now < ev.exp as real && !CutAtMint(s, ev)
  {
    StepSound(s, ev, s');
    MintUnmarked(s, ev, s');
    MintCut(s, ev, s');
    AcceptedExactly(s', ev.sid);
  }

  // ----- revoked stays revoked -------------------------------------------

  /** A cookie that has expired, or is revoked for the rest of its life. */
  ghost predicate Dead(s: State, sid: string) {
    sid in s.issued
    && (var c := s.issued[sid];
        c.exp as real <= s.now || MarkedForLife(s, sid, c.exp) || CutForLife(s, c))
  }

  lemma DeadIsRefused(s: State, sid: string)
    requires Dead(s, sid)
    ensures !Accepted(s, sid)
  {}

  lemma DeadStaysDead(s: State, ev: Event, s': State, sid: string)
    requires Sound(s) && Next(s, ev, s') && Dead(s, sid)
    ensures Dead(s', sid)
  {
    StepKeepsIssue(s, ev, s', sid);
    if s'.now < s.issued[sid].exp as real {
      StepCuts(s, ev, s', sid);
      StepMarks(s, ev, s', sid);
    }
  }

  lemma {:induction false} DeadForever(states: seq<State>, events: seq<Event>, i: nat, j: nat, sid: string)
    requires Run(states, events) && i <= j < |states| && Dead(states[i], sid)
    ensures !Accepted(states[j], sid) && Dead(states[j], sid)
    decreases j - i
  {
    if i == j {
      DeadIsRefused(states[i], sid);
    } else {
      RunSound(states, events, i);
      assert StepAt(states, events, i);
      DeadStaysDead(states[i], events[i], states[i + 1], sid);
      DeadForever(states, events, i + 1, j, sid);
    }
  }

  /** The cookies a step revokes: the one named, those a mint evicts, or all
      that a user holds. */
  ghost function RevokedBy(s: State, ev: Event): set<string> {
    match ev
    case Wait => {}
    case MintEvent(_, _, _, scan, kept) => scan - kept
    case LogOutEvent(sid) => {sid}
    case RevokeUserEvent(user, _) => set sid | sid in s.issued && s.issued[sid].user == user
  }

  lemma RevokedAreDead(s: State, ev: Event, s': State, sid: string)
    requires Sound(s) && Next(s, ev, s') && sid in RevokedBy(s, ev)
    ensures Dead(s', sid)
  {
    match ev
    case MintEvent(user, _, _, _, _) => assert Key(user, sid) in s.index && sid in s'.marks;
    case LogOutEvent(_) => LogOutMarks(s, s', sid);
    case RevokeUserEvent(user, ttl) => EpochCutsIssued(s, s', user, ttl, sid);
  }

  /** Once revoked, by whatever route, a cookie is refused in every later state of
      every run. */
  lemma RevokedStaysRevoked(states: seq<State>, events: seq<Event>, i: nat, j: nat, sid: string)
    requires Run(states, events) && i < j < |states| && sid in RevokedBy(states[i], events[i])
    ensures !Accepted(states[j], sid)
  {
    RunSound(states, events, i);
    assert StepAt(states, events, i);
    RevokedAreDead(states[i], events[i], states[i + 1], sid);
    DeadForever(states, events, i + 1, j, sid);
  }

  // ----- why the horizon matters -----------------------------------------

  /** Called on a session with this horizon, `_revoke_op_session` would leave a
      mark shorter than the cookie's life, with nothing else to cut it off. */
  ghost predicate FallsShort(s: State, sid: string, horizon: int) {
    && sid in s.issued
    && horizon < s.issued[sid].exp
    && s.now + 1.0 < s.issued[sid].exp as real
    && !CutForLife(s, s.issued[sid])
  }

  /** Neither revocation of a logout falls short: both horizons are at or past the
      expiry of the cookie. */
  lemma LogOutReaches(s: State, read: State, mid: State, s': State, sid: string)
    requires Sound(s) && LogOutVia(s, read, mid, s', sid)
    ensures s.issued[sid].exp <= read.now.Floor + OP_SESSION_TTL
    ensures !FallsShort(read, sid, read.now.Floor + OP_SESSION_TTL) && !FallsShort(mid, sid, s.issued[sid].exp)
  {
    FloorMonotone(s.now, read.now);
  }

  /** The state after a revocation that took no time. */
  function MarkedAt(s: State, sid: string, horizon: int): State {
    s.(marks := s.marks[sid := Entry((), s.now + MarkTtl(s.now, horizon) as real)])
  }

  function At(s: State, now: real): State { s.(now := now) }

  /** Is there a way for the cookie to verify after this revocation? */
  ghost predicate Revives(s: State, sid: string, horizon: int, s': State, s'': State) {
    Revoke(s, s', sid, horizon) && Idle(s', s'') && Accepted(s'', sid)
  }

  /** Halfway between the lapse of the mark and the expiry of the cookie. */
  ghost function AfterMark(s: State, sid: string, horizon: int): real
    requires sid in s.issued
  {
    (s.now + MarkTtl(s.now, horizon) as real + s.issued[sid].exp as real) / 2.0
  }

  lemma MarkReaches(t: real, horizon: int, exp: int)
    ensures exp as real <= t + MarkTtl(t, horizon) as real <==> exp <= horizon || exp as real <= t + 1.0
  {
    var n := t.Floor;
    assert n as real <= t < n as real + 1.0;
    assert horizon < exp ==> horizon as real + 1.0 <= exp as real;
    assert exp <= horizon ==> exp as real <= horizon as real;
  }

  lemma ShortMarkLapses(s: State, sid: string, horizon: int)
    requires Sound(s) && FallsShort(s, sid, horizon)
    ensures var s' := MarkedAt(s, sid, horizon);
            Revives(s, sid, horizon, s', At(s', AfterMark(s, sid, horizon)))
  {
    var exp := s.issued[sid].exp;
    var s' := MarkedAt(s, sid, horizon);
    var s'' := At(s', AfterMark(s, sid, horizon));
    MarkReaches(s.now, horizon, exp);
    assert MarkReadings(s.now, s'.now, horizon, s'.marks[sid].expires, s.now, s.now);
    RevokeSound(s, s', sid, horizon);
    IdleSound(s', s'');
    AcceptedExactly(s'', sid);
  }

  /** What `_revoke_op_session` asks of its callers: called on a session that is
      already revoked, it could bring the cookie back exactly if its horizon falls
      short. A mark is written over any longer one. */
  lemma RevivedExactly(s: State, sid: string, horizon: int)
    requires Sound(s) && Dead(s, sid)
    ensures (exists s': State, s'': State :: Revives(s, sid, horizon, s', s''))
       <==> FallsShort(s, sid, horizon)
  {
    if FallsShort(s, sid, horizon) { ShortMarkLapses(s, sid, horizon); }
    forall s': State, s'': State | Revives(s, sid, horizon, s', s'') ensures FallsShort(s, sid, horizon) {
      RevivedFellShort(s, sid, horizon, s', s'');
    }
  }

  lemma RevivedFellShort(s: State, sid: string, horizon: int, s': State, s'': State)
    requires Sound(s) && Dead(s, sid) && Revives(s, sid, horizon, s', s'')
    ensures FallsShort(s, sid, horizon)
  {
    if !FallsShort(s, sid, horizon) {
      RevokeKeepsDead(s, s', sid, horizon);
      RevokeSound(s, s', sid, horizon);
      DeadStaysDead(s', Wait, s'', sid);
      DeadIsRefused(s'', sid);
    }
  }

  lemma RevokeKeepsDead(s: State, s': State, sid: string, horizon: int)
    requires Dead(s, sid) && Revoke(s, s', sid, horizon) && !FallsShort(s, sid, horizon)
    ensures Dead(s', sid)
  {
    var t, u :| MarkReadings(s.now, s'.now, horizon, s'.marks[sid].expires, t, u);
  }

  // ----- the choices a mint makes ----------------------------------------

  lemma BeforeAsymmetric(e1: int, a: string, e2: int, b: string)
    requires Before(e1, a, e2, b)
    ensures !Before(e2, b, e1, a)
  {
    if e1 == e2 && LexLess(b, a) {
      LexTransitive(a, b, a);
      LexIrreflexive(a);
    }
  }

  /** What eviction keeps is determined: no other choice of nine is allowed. */
  lemma KeptIsUnique(s: State, user: string, scan: set<string>, a: set<string>, b: set<string>)
    requires forall x :: x in scan ==> Key(user, x) in s.index && s.index[Key(user, x)].value.Number?
    requires KeepsNewest(s, user, scan, a) && KeepsNewest(s, user, scan, b)
    ensures a == b
  {
    if a != b {
      DifferBothWays(a, b);
      var x :| x in a - b;
      var y :| y in b - a;
      BeforeAsymmetric(s.index[Key(user, x)].value.n, x, s.index[Key(user, y)].value.n, y);
    }
  }

  lemma DifferBothWays<T>(a: set<T>, b: set<T>)
    requires |a| == |b| && a != b
    ensures a - b != {} && b - a != {}
  {
    assert a == a * b + (a - b);
    assert b == a * b + (b - a);
  }

  /** Of the entries whose cookie is still in date, a mint deletes exactly those
      it evicts: its own user's beyond the nine kept, and nobody else's. */
  lemma MintDeletesTheEvicted(s: State, s': State, ev: Event, k: Key)
    requires Sound(s) && ev.MintEvent? && Next(s, ev, s')
    requires k in s.index && s'.now < s.issued[k.sid].exp as real
    ensures k in s'.index <==> k.user != ev.user || k.sid in ev.kept
    ensures k in s'.index ==> s'.index[k] == s.index[k]
  {
    FloorDecides(s.issued[k.sid].exp, s'.now);
    assert k == Key(k.user, k.sid) && k.sid in s.issued && k.sid != ev.sid;
  }

  // ----- whole seconds ---------------------------------------------------

  /** The epoch cuts by whole seconds: among cookies in date, it refuses those
      minted in its second or before and none minted in a later second. */
  lemma EpochCutsBySecond(s: State, c: Issue, minted: real)
    requires EpochsSound(s) && c.user in s.epochs
    requires c.exp == minted.Floor + OP_SESSION_TTL && s.now < c.exp as real
    ensures CutByEpoch(s, c) <==> minted.Floor <= s.epochs[c.user].value.Floor
  {}

  predicate MarkHolds(t: real, u: real, horizon: int, now: real) {
    now <= u + MarkTtl(t, horizon) as real
  }

  /** One mark, left alone and whenever it reaches the store, covers the rest of
      a cookie's life exactly if its horizon is no earlier than the cookie's
      expiry, or the cookie has a second or less to live. */
  lemma MarkCoversLife(t: real, horizon: int, exp: int)
    requires t < exp as real
    ensures (forall u: real, now: real :: t <= u <= now < exp as real ==> MarkHolds(t, u, horizon, now))
       <==> exp <= horizon || exp as real <= t + 1.0
  {
    var e := t + MarkTtl(t, horizon) as real;
    if e < exp as real {
      var now := (e + exp as real) / 2.0;
      assert t <= t <= now < exp as real && !MarkHolds(t, t, horizon, now);
    }
    MarkReaches(t, horizon, exp);
  }
}
