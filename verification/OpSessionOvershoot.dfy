/** The bound on overlapping mints is met: with nine sessions listed, mints that
    scan the index before any of them writes to it all succeed. */
module OpSessionOvershoot {
  import opened SharedState
  import opened OpCookie
  import O = OpSessions
  import opened OpSessionInterleaving
  import opened OpSessionBound

  const EXP: nat := OP_SESSION_TTL

  type Index = map<O.Key, Entry<O.Stamp>>

  function ListedEntry(): Entry<O.Stamp> { Entry(O.Number(EXP), 0.0 + OP_SESSION_TTL as real) }

  /** The index that lists these sessions. */
  function Listing(user: string, sids: seq<string>): Index {
    if sids == [] then map[] else Listing(user, sids[..|sids| - 1])[O.Key(user, sids[|sids| - 1]) := ListedEntry()]
  }

  function KeysOf(user: string, sids: seq<string>): (keys: seq<O.Key>)
    ensures |keys| == |sids| && forall i :: 0 <= i < |sids| ==> keys[i] == O.Key(user, sids[i])
  {
    if sids == [] then [] else KeysOf(user, sids[..|sids| - 1]) + [O.Key(user, sids[|sids| - 1])]
  }

  /** What a scan of that index counts. */
  function Actives(sids: seq<string>): (active: seq<O.Active>)
    ensures |active| == |sids|
  {
    if sids == [] then [] else Actives(sids[..|sids| - 1]) + [(EXP, sids[|sids| - 1])]
  }

  lemma {:induction false} ListingHolds(user: string, sids: seq<string>)
    ensures forall k :: k in Listing(user, sids) <==> k.user == user && k.sid in sids
    ensures forall k :: k in Listing(user, sids) ==> Listing(user, sids)[k] == ListedEntry()
  {
    if sids != [] {
      var n := |sids| - 1;
      ListingHolds(user, sids[..n]);
      assert sids == sids[..n] + [sids[n]];
    }
  }

  // ----- runs with few mints in flight -----------------------------------

  ghost predicate Within(worlds: seq<World>, calls: seq<Call>, user: string, c: nat) {
    && Run(worlds, calls)
    && (forall i :: 0 <= i < |worlds| ==> |Flying(worlds[i], user)| <= c)
  }

  lemma Extended(worlds: seq<World>, calls: seq<Call>, call: Call, w: World, user: string, c: nat)
      returns (more: seq<World>, done: seq<Call>)
    requires Within(worlds, calls, user, c) && Next(worlds[|calls|], call, w)
    requires |Flying(w, user)| <= c
    ensures Within(more, done, user, c) && more[|done|] == w
  {
    more, done := worlds + [w], calls + [call];
    forall i | 0 <= i < |done| ensures StepAt(more, done, i) {
      if i < |calls| { assert StepAt(worlds, calls, i); }
    }
  }

  // ----- one scan --------------------------------------------------------

  function Waiting(user: string, sid: string, stage: Stage): Proc { Minting(user, sid, EXP, stage) }

  /** The world in which process `p` has begun to mint, and got so far. */
  function With(w: World, user: string, sid: string, p: nat, stage: Stage): World {
    w.(signed := w.signed[sid := O.Issue(user, EXP)], procs := w.procs[p := Waiting(user, sid, stage)])
  }

  /** A mint that may begin in a world at time 0 that lists these sessions. */
  ghost predicate MayBegin(w: World, user: string, sid: string, p: nat, sids: seq<string>) {
    w.now == 0.0 && w.index == Listing(user, sids) && sid !in w.signed && !At(w, p) && Distinct(sids)
  }

  lemma WithFlying(w: World, user: string, sid: string, p: nat, stage: Stage)
    requires !At(w, p)
    ensures Flying(With(w, user, sid, p, stage), user) == Flying(w, user) + {sid}
  {
    var w' := With(w, user, sid, p, stage);
    assert w'.procs[p].sid == sid;
    forall x | x in Flying(w, user) ensures x in Flying(w', user) {
      var q :| q in w.procs && w.procs[q].Minting? && w.procs[q].user == user && w.procs[q].sid == x;
      assert q != p && w'.procs[q] == w.procs[q];
    }
  }

  lemma BeginRuns(w: World, user: string, sid: string, p: nat, sids: seq<string>)
    requires MayBegin(w, user, sid, p, sids)
    ensures Next(w, Begin(p, user, sid), With(w, user, sid, p, Signed))
  {
    assert 0.0.Floor == 0;
  }

  lemma ListRuns(w: World, user: string, sid: string, p: nat, sids: seq<string>)
    requires MayBegin(w, user, sid, p, sids)
    ensures Next(With(w, user, sid, p, Signed), ListCall(p, 0, KeysOf(user, sids)),
                 With(w, user, sid, p, Scanning(0, KeysOf(user, sids), [])))
  {
    var keys := KeysOf(user, sids);
    ListingHolds(user, sids);
    assert 0.0.Floor == 0;
    forall k ensures k in keys <==> Holds(w.index, k, w.now) {
      if k.user == user && k.sid in sids {
        var i :| 0 <= i < |sids| && sids[i] == k.sid;
        assert keys[i] == k;
      }
    }
    var before, after := With(w, user, sid, p, Signed), With(w, user, sid, p, Scanning(0, keys, []));
    assert after.procs == before.procs[p := Waiting(user, sid, Scanning(0, keys, []))];
  }

  function ScanStage(user: string, sids: seq<string>, j: nat): Stage
    requires j <= |sids|
  {
    Scanning(0, KeysOf(user, sids)[j..], Actives(sids[..j]))
  }

  lemma GetRuns(w: World, user: string, sid: string, p: nat, sids: seq<string>, j: nat)
    requires MayBegin(w, user, sid, p, sids) && j < |sids|
    ensures Next(With(w, user, sid, p, ScanStage(user, sids, j)), GetCall(p),
                 With(w, user, sid, p, ScanStage(user, sids, j + 1)))
  {
    var keys := KeysOf(user, sids);
    ListingHolds(user, sids);
    assert keys[j..][0] == O.Key(user, sids[j]) && keys[j..][1..] == keys[j + 1..];
    assert sids[..j + 1][..j] == sids[..j];
    var before := With(w, user, sid, p, ScanStage(user, sids, j));
    var after := With(w, user, sid, p, ScanStage(user, sids, j + 1));
    assert after.procs == before.procs[p := Waiting(user, sid, ScanStage(user, sids, j + 1))];
  }

  lemma EndRuns(w: World, user: string, sid: string, p: nat, sids: seq<string>)
    requires MayBegin(w, user, sid, p, sids)
    ensures Next(With(w, user, sid, p, ScanStage(user, sids, |sids|)), ScanEnds(p),
                 With(w, user, sid, p, Evicting(Actives(sids))))
  {
    assert sids[..|sids|] == sids;
    assert KeysOf(user, sids)[|sids|..] == [];
    EndOfScan(w, user, sid, p, Actives(sids));
  }

  lemma EndOfScan(w: World, user: string, sid: string, p: nat, active: seq<O.Active>)
    ensures Next(With(w, user, sid, p, Scanning(0, [], active)), ScanEnds(p), With(w, user, sid, p, Evicting(active)))
  {
    var before, after := With(w, user, sid, p, Scanning(0, [], active)), With(w, user, sid, p, Evicting(active));
    assert after.procs == before.procs[p := Waiting(user, sid, Evicting(active))];
  }

  lemma {:induction false} GetsRun(w: World, user: string, sid: string, p: nat, sids: seq<string>, j: nat,
                                   worlds: seq<World>, calls: seq<Call>, c: nat)
      returns (more: seq<World>, done: seq<Call>)
    requires MayBegin(w, user, sid, p, sids) && j <= |sids| && |Flying(w, user) + {sid}| <= c
    requires Within(worlds, calls, user, c) && worlds[|calls|] == w
    ensures Within(more, done, user, c) && more[|done|] == With(w, user, sid, p, ScanStage(user, sids, j))
  {
    WithFlying(w, user, sid, p, ScanStage(user, sids, j));
    if j == 0 {
      WithFlying(w, user, sid, p, Signed);
      BeginRuns(w, user, sid, p, sids);
      more, done := Extended(worlds, calls, Begin(p, user, sid), With(w, user, sid, p, Signed), user, c);
      ListRuns(w, user, sid, p, sids);
      assert ScanStage(user, sids, 0) == Scanning(0, KeysOf(user, sids), []);
      more, done := Extended(more, done, ListCall(p, 0, KeysOf(user, sids)),
                             With(w, user, sid, p, ScanStage(user, sids, 0)), user, c);
    } else {
      more, done := GetsRun(w, user, sid, p, sids, j - 1, worlds, calls, c);
      GetRuns(w, user, sid, p, sids, j - 1);
      more, done := Extended(more, done, GetCall(p), With(w, user, sid, p, ScanStage(user, sids, j)), user, c);
    }
  }

  lemma ScanRuns(w: World, user: string, sid: string, p: nat, sids: seq<string>,
                 worlds: seq<World>, calls: seq<Call>, c: nat)
      returns (more: seq<World>, done: seq<Call>)
    requires MayBegin(w, user, sid, p, sids) && |Flying(w, user) + {sid}| <= c
    requires Within(worlds, calls, user, c) && worlds[|calls|] == w
    ensures Within(more, done, user, c) && more[|done|] == With(w, user, sid, p, Evicting(Actives(sids)))
  {
    more, done := GetsRun(w, user, sid, p, sids, |sids|, worlds, calls, c);
    EndRuns(w, user, sid, p, sids);
    WithFlying(w, user, sid, p, Evicting(Actives(sids)));
    more, done := Extended(more, done, ScanEnds(p), With(w, user, sid, p, Evicting(Actives(sids))), user, c);
  }

  // ----- the run ---------------------------------------------------------

  /** Of the sessions in `sids`, the first `m` are listed and their mints over; the
      others have scanned the first `n` and wait to write. */
  function Stands(user: string, sids: seq<string>, n: nat, m: nat): World
    requires n <= |sids| && m <= |sids|
  {
    World(0.0, Listing(user, sids[..m]), map[],
          map x | x in Elements(sids) :: O.Issue(user, EXP),
          map p: nat | p < |sids| :: if p < m then Resting else Waiting(user, sids[p], Evicting(Actives(sids[..n]))),
          map[])
  }

  lemma StandsFlying(user: string, sids: seq<string>, n: nat, m: nat)
    requires n <= |sids| && m <= |sids|
    ensures Flying(Stands(user, sids, n, m), user) == Elements(sids[m..])
  {
    var w := Stands(user, sids, n, m);
    forall x | x in sids[m..] ensures x in Flying(w, user) {
      var i :| 0 <= i < |sids[m..]| && sids[m..][i] == x;
      assert w.procs[m + i].sid == x;
    }
  }

  lemma CountFew(sids: seq<string>)
    requires Distinct(sids)
    ensures |Elements(sids)| == |sids|
  {
    CountDistinct(sids);
  }

  /** The next mint scans the first `n`, which are all that is listed. */
  lemma NextScans(user: string, sids: seq<string>, n: nat, sid: string,
                  worlds: seq<World>, calls: seq<Call>, c: nat)
      returns (more: seq<World>, done: seq<Call>)
    requires n <= |sids| && Distinct(sids + [sid]) && |sids| - n < c
    requires Within(worlds, calls, user, c) && worlds[|calls|] == Stands(user, sids, n, n)
    ensures Within(more, done, user, c) && more[|done|] == Stands(user, sids + [sid], n, n)
  {
    var w := Stands(user, sids, n, n);
    SubDistinct(sids, sid, n);
    StandsFlying(user, sids, n, n);
    CountFew(sids[n..] + [sid]);
    assert Elements(sids[n..] + [sid]) == Elements(sids[n..]) + {sid};
    more, done := ScanRuns(w, user, sid, |sids|, sids[..n], worlds, calls, c);
    StandsMore(user, sids, n, sid);
  }

  lemma TailDistinct(sids: seq<string>, n: nat)
    requires n <= |sids| && Distinct(sids)
    ensures Distinct(sids[n..])
  {
    var tail := sids[n..];
    forall i, j | 0 <= i < j < |tail| ensures tail[i] != tail[j] { assert sids[n + i] != sids[n + j]; }
  }

  lemma SubDistinct(sids: seq<string>, sid: string, n: nat)
    requires n <= |sids| && Distinct(sids + [sid])
    ensures sid !in sids && Distinct(sids) && Distinct(sids[..n]) && Distinct(sids[n..] + [sid])
  {
    var all := sids + [sid];
    forall i | 0 <= i < |sids| ensures sids[i] != sid { assert all[i] != all[|sids|]; }
    forall i, j | 0 <= i < j < |sids| ensures sids[i] != sids[j] { assert all[i] != all[j]; }
    assert sids[n..] + [sid] == all[n..];
    TailDistinct(all, n);
  }

  lemma StandsMore(user: string, sids: seq<string>, n: nat, sid: string)
    requires n <= |sids|
    ensures With(Stands(user, sids, n, n), user, sid, |sids|, Evicting(Actives(sids[..n])))
         == Stands(user, sids + [sid], n, n)
  {
    var all := sids + [sid];
    assert all[..n] == sids[..n];
    assert Elements(all) == Elements(sids) + {sid};
  }

  /** The next of those that wait writes. */
  lemma NextWrites(user: string, sids: seq<string>, n: nat, m: nat,
                   worlds: seq<World>, calls: seq<Call>, c: nat)
      returns (more: seq<World>, done: seq<Call>)
    requires n <= m < |sids| && n < O.MAX_PER_USER && Distinct(sids) && |sids| - m <= c
    requires Within(worlds, calls, user, c) && worlds[|calls|] == Stands(user, sids, n, m)
    ensures Within(more, done, user, c) && more[|done|] == Stands(user, sids, n, m + 1)
  {
    StandsFlying(user, sids, n, m + 1);
    TailDistinct(sids, m + 1);
    CountFew(sids[m + 1..]);
    WriteRuns(user, sids, n, m);
    more, done := Extended(worlds, calls, InsertCall(m), Stands(user, sids, n, m + 1), user, c);
  }

  lemma WriteRuns(user: string, sids: seq<string>, n: nat, m: nat)
    requires n <= m < |sids| && n < O.MAX_PER_USER
    ensures Next(Stands(user, sids, n, m), InsertCall(m), Stands(user, sids, n, m + 1))
  {
    var w, w' := Stands(user, sids, n, m), Stands(user, sids, n, m + 1);
    assert sids[..m + 1][..m] == sids[..m];
    assert w'.index == w.index[O.Key(user, sids[m]) := ListedEntry()];
    assert w'.procs == w.procs[m := Resting];
  }

  lemma NoneWaits(user: string, sids: seq<string>)
    requires sids != []
    ensures Stands(user, sids, |sids| - 1, |sids|) == Stands(user, sids, |sids|, |sids|)
  {}

  lemma NothingYet(user: string, c: nat) returns (worlds: seq<World>, calls: seq<Call>)
    ensures Within(worlds, calls, user, c) && worlds[|calls|] == Stands(user, [], 0, 0)
  {
    var w := Stands(user, [], 0, 0);
    assert Flying(w, user) == {};
    worlds, calls := [w], [];
  }

  /** One more session, minted from its first call to its last. */
  lemma OneMore(user: string, sids: seq<string>, sid: string, worlds: seq<World>, calls: seq<Call>, c: nat)
      returns (more: seq<World>, done: seq<Call>)
    requires |sids| + 1 < O.MAX_PER_USER && Distinct(sids + [sid]) && c >= 1
    requires Within(worlds, calls, user, c) && worlds[|calls|] == Stands(user, sids, |sids|, |sids|)
    ensures Within(more, done, user, c) && more[|done|] == Stands(user, sids + [sid], |sids| + 1, |sids| + 1)
  {
    more, done := NextScans(user, sids, |sids|, sid, worlds, calls, c);
    more, done := NextWrites(user, sids + [sid], |sids|, |sids|, more, done, c);
    NoneWaits(user, sids + [sid]);
  }

  /** Sessions minted one after the other, each listed before the next begins. */
  lemma {:induction false} OneByOne(user: string, sids: seq<string>, k: nat, c: nat)
      returns (worlds: seq<World>, calls: seq<Call>)
    requires k <= |sids| && k < O.MAX_PER_USER && Distinct(sids) && c >= 1
    ensures Within(worlds, calls, user, c) && worlds[|calls|] == Stands(user, sids[..k], k, k)
  {
    if k == 0 {
      worlds, calls := NothingYet(user, c);
      assert sids[..0] == [];
    } else {
      worlds, calls := OneByOne(user, sids, k - 1, c);
      assert sids[..k - 1] + [sids[k - 1]] == sids[..k];
      worlds, calls := OneMore(user, sids[..k - 1], sids[k - 1], worlds, calls, c);
    }
  }

  /** Then the others scan, before any of them writes. */
  lemma {:induction false} ScanTogether(user: string, sids: seq<string>, n: nat, k: nat, c: nat)
      returns (worlds: seq<World>, calls: seq<Call>)
    requires n <= k <= |sids| && n < O.MAX_PER_USER && Distinct(sids) && c >= 1 && k - n <= c
    ensures Within(worlds, calls, user, c) && worlds[|calls|] == Stands(user, sids[..k], n, n)
  {
    if k == n {
      worlds, calls := OneByOne(user, sids, n, c);
    } else {
      worlds, calls := ScanTogether(user, sids, n, k - 1, c);
      assert sids[..k - 1] + [sids[k - 1]] == sids[..k];
      worlds, calls := NextScans(user, sids[..k - 1], n, sids[k - 1], worlds, calls, c);
    }
  }

  lemma {:induction false} WriteTogether(user: string, sids: seq<string>, n: nat, m: nat, c: nat)
      returns (worlds: seq<World>, calls: seq<Call>)
    requires n <= m <= |sids| && n < O.MAX_PER_USER && Distinct(sids) && c >= 1 && |sids| - n <= c
    ensures Within(worlds, calls, user, c) && worlds[|calls|] == Stands(user, sids, n, m)
  {
    if m == n {
      worlds, calls := ScanTogether(user, sids, n, |sids|, c);
      assert sids[..|sids|] == sids;
    } else {
      worlds, calls := WriteTogether(user, sids, n, m - 1, c);
      worlds, calls := NextWrites(user, sids, n, m - 1, worlds, calls, c);
    }
  }

  lemma AllVerify(user: string, sids: seq<string>, n: nat)
    requires n <= |sids|
    ensures O.AcceptedSids(Seen(Stands(user, sids, n, |sids|), map[]), user) == Elements(sids)
  {
    forall x ensures !InFlight(Stands(user, sids, n, |sids|), x) {}
  }

  /** The bound is met, for every number `c` of mints in flight at once: with nine
      sessions listed, a run ends with `9 + c` cookies verifying. */
  lemma OverlapBoundIsMet(user: string, sids: seq<string>, c: nat)
      returns (worlds: seq<World>, calls: seq<Call>)
    requires Distinct(sids) && c >= 1 && |sids| == O.MAX_PER_USER - 1 + c
    ensures Run(worlds, calls) && Overlap(worlds, |calls|, user, c)
    ensures |O.AcceptedSids(Seen(worlds[|calls|], map[]), user)| == O.MAX_PER_USER - 1 + c
  {
    worlds, calls := WriteTogether(user, sids, O.MAX_PER_USER - 1, |sids|, c);
    AllVerify(user, sids, O.MAX_PER_USER - 1);
    CountDistinct(sids);
  }
}
