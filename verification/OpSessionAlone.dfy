/** The two machines agree: the backend calls of one mint or of one logout, when no
    other process makes a call in between, are one step of OpSessions. */
module OpSessionAlone {
  import opened SharedState
  import opened OpCookie
  import opened OpSessions
  import opened OpSessionStore
  import I = OpSessionInterleaving

  type Marks = map<string, Entry<()>>

  // ----- where a lone mint stands ----------------------------------------

  /** In its scan, with the keys in `done` read. */
  ghost predicate Scans(s: State, user: string, cut: int, now: real, index: Index, marks: Marks,
                        todo: seq<Key>, active: seq<Active>, done: set<Key>)
  {
    && marks == s.marks && s.now <= now && s.now.Floor <= cut <= now.Floor
    && ScanInv(s.index, index, user, cut, now, active, done)
    && Distinct(todo) && (forall k :: k in todo ==> k in s.index && k !in done)
    && (forall k :: k in s.index && k !in done && k !in todo ==> Stale(s.index[k], now))
  }

  /** In its eviction, after a scan that ended in `scanned` and counted `all`. */
  ghost predicate Evicts(s: State, scanned: State, all: seq<Active>, user: string, now: real,
                         index: Index, marks: Marks, active: seq<Active>)
  {
    && s.now <= scanned.now <= now && scanned.marks == s.marks
    && Pruned(s.index, scanned.index, scanned.now) && ReadFrom(all, scanned.index, user) && DistinctSids(all)
    && (forall i :: 0 <= i < |all| ==> all[i].0 > s.now.Floor)
    && (forall k :: k in s.index && k.user == user && k.sid !in Sids(all) ==> Stale(s.index[k], scanned.now))
    && EvictInv(scanned, index, marks, user, Sids(all), active)
    && (if |all| < MAX_PER_USER then active == all else |active| >= MAX_PER_USER - 1)
  }

  ghost predicate Oldest(active: seq<Active>, victim: nat) {
    && victim < |active| && |active| >= MAX_PER_USER
    && (forall j :: 0 <= j < |active| && j != victim ==> Precedes(active[victim], active[j]))
  }

  ghost predicate Unlists(s: State, scanned: State, all: seq<Active>, user: string, now: real,
                          index: Index, marks: Marks, active: seq<Active>, victim: nat,
                          before: Marks, mark: Entry<()>)
  {
    && Evicts(s, scanned, all, user, now, index, before, active) && Oldest(active, victim)
    && active[victim].0 as real <= mark.expires && marks == before[active[victim].1 := mark]
  }

  ghost predicate ScansSome(s: State, user: string, cut: int, now: real, index: Index, marks: Marks,
                            todo: seq<Key>, active: seq<Active>)
  {
    exists done: set<Key> :: Scans(s, user, cut, now, index, marks, todo, active, done)
  }

  ghost predicate EvictsSome(s: State, user: string, now: real, index: Index, marks: Marks, active: seq<Active>) {
    exists scanned: State, all: seq<Active> :: Evicts(s, scanned, all, user, now, index, marks, active)
  }

  ghost predicate UnlistsSome(s: State, user: string, now: real, index: Index, marks: Marks,
                              active: seq<Active>, victim: nat)
  {
    exists scanned: State, all: seq<Active>, before: Marks, mark: Entry<()> ::
      Unlists(s, scanned, all, user, now, index, marks, active, victim, before, mark)
  }

  /** What holds of the store at each stage of a mint that began in `s`. */
  ghost predicate Stands(s: State, user: string, w: I.World, stage: I.Stage) {
    match stage
    case Signed => s.now <= w.now && w.index == s.index && w.marks == s.marks
    case Scanning(cut, todo, active) => ScansSome(s, user, cut, w.now, w.index, w.marks, todo, active)
    case Pruning(cut, key, todo, active) => ScansSome(s, user, cut, w.now, w.index - {key}, w.marks, todo, active)
    case Evicting(active) => EvictsSome(s, user, w.now, w.index, w.marks, active)
    case Marking(active, victim, ttl) =>
      EvictsSome(s, user, w.now, w.index, w.marks, active) && Oldest(active, victim)
      && active[victim].0 as real <= w.now + ttl as real
    case Unlisting(active, victim) => UnlistsSome(s, user, w.now, w.index, w.marks, active, victim)
  }

  // ----- one call --------------------------------------------------------

  /** Time passes, and no one else reads the store. */
  ghost predicate Pause(w: I.World, w': I.World) {
    w.now <= w'.now && w' == w.(now := w'.now)
  }

  lemma ScansLater(s: State, user: string, cut: int, now: real, later: real, index: Index, marks: Marks,
                   todo: seq<Key>, active: seq<Active>, done: set<Key>)
    requires Scans(s, user, cut, now, index, marks, todo, active, done) && now <= later
    ensures Scans(s, user, cut, later, index, marks, todo, active, done)
  {
    FloorMonotone(now, later);
  }

  lemma PauseStands(s: State, user: string, w: I.World, w': I.World, stage: I.Stage)
    requires Stands(s, user, w, stage) && Pause(w, w')
    ensures Stands(s, user, w', stage)
  {
    match stage
    case Scanning(cut, todo, active) =>
      var done: set<Key> :| Scans(s, user, cut, w.now, w.index, w.marks, todo, active, done);
      ScansLater(s, user, cut, w.now, w'.now, w.index, w.marks, todo, active, done);
    case Pruning(cut, key, todo, active) =>
      var done: set<Key> :| Scans(s, user, cut, w.now, w.index - {key}, w.marks, todo, active, done);
      ScansLater(s, user, cut, w.now, w'.now, w.index - {key}, w.marks, todo, active, done);
    case Signed =>
    case Unlisting(active, victim) => UnlistsLater(s, user, w, w', active, victim);
    case _ => EvictsLater(s, user, w, w', stage.active);
  }

  lemma EvictsLater(s: State, user: string, w: I.World, w': I.World, active: seq<Active>)
    requires EvictsSome(s, user, w.now, w.index, w.marks, active) && Pause(w, w')
    ensures EvictsSome(s, user, w'.now, w'.index, w'.marks, active)
  {
    var scanned: State, all: seq<Active> :| Evicts(s, scanned, all, user, w.now, w.index, w.marks, active);
    assert Evicts(s, scanned, all, user, w'.now, w'.index, w'.marks, active);
  }

  lemma UnlistsLater(s: State, user: string, w: I.World, w': I.World, active: seq<Active>, victim: nat)
    requires UnlistsSome(s, user, w.now, w.index, w.marks, active, victim) && Pause(w, w')
    ensures UnlistsSome(s, user, w'.now, w'.index, w'.marks, active, victim)
  {
    var scanned: State, all: seq<Active>, before: Marks, mark: Entry<()> :|
      Unlists(s, scanned, all, user, w.now, w.index, w.marks, active, victim, before, mark);
    assert Unlists(s, scanned, all, user, w'.now, w'.index, w'.marks, active, victim, before, mark);
  }

  lemma ListStands(s: State, w: I.World, w': I.World, p: nat, cut: int, keys: seq<Key>)
    requires I.ListStep(w, w', p, cut, keys) && Stands(s, w.procs[p].user, w, w.procs[p].stage)
    requires w.procs[p].exp == s.now.Floor + OP_SESSION_TTL
    ensures Stands(s, w.procs[p].user, w', w'.procs[p].stage)
  {
    assert Scans(s, w.procs[p].user, cut, w'.now, w'.index, w'.marks, keys, [], {});
  }

  /** What a read makes of the scan: the key is condemned, counted, or passed. */
  lemma GetScans(s: State, user: string, cut: int, now: real, index: Index, marks: Marks,
                 todo: seq<Key>, active: seq<Active>, done: set<Key>)
    requires Scans(s, user, cut, now, index, marks, todo, active, done) && todo != []
    ensures var k, done' := todo[0], done + {todo[0]};
      && k in index
      && (if !Holds(index, k, now) || index[k].value.Junk? || index[k].value.n <= cut
          then Scans(s, user, cut, now, index - {k}, marks, todo[1..], active, done')
          else if k.user == user
          then Scans(s, user, cut, now, index, marks, todo[1..], active + [(index[k].value.n, k.sid)], done')
          else Scans(s, user, cut, now, index, marks, todo[1..], active, done'))
  {
    var k := todo[0];
    assert forall x :: x in todo <==> x == k || x in todo[1..];
    assert k !in todo[1..] && Distinct(todo[1..]);
    if !Holds(index, k, now) || index[k].value.Junk? || index[k].value.n <= cut {
      ScanDrops(s.index, index, user, cut, now, now, active, done, k);
    } else if k.user == user {
      ScanAdds(s.index, index, user, cut, now, now, active, done, k, index[k].value.n);
    } else {
      ScanPasses(s.index, index, user, cut, now, now, active, done, k);
    }
  }

  lemma GetStands(s: State, w: I.World, w': I.World, p: nat)
    requires s.now >= 0.0 && I.GetStep(w, w', p) && Stands(s, w.procs[p].user, w, w.procs[p].stage)
    ensures Stands(s, w.procs[p].user, w', w'.procs[p].stage)
  {
    var user, stage := w.procs[p].user, w.procs[p].stage;
    var k := stage.todo[0];
    var done: set<Key> :| Scans(s, user, stage.cut, w.now, w.index, w.marks, stage.todo, stage.active, done);
    GetScans(s, user, stage.cut, w.now, w.index, w.marks, stage.todo, stage.active, done);
    if w'.procs[p].stage.Pruning? {
      assert w'.index - {k} == w.index - {k};
      assert Scans(s, user, stage.cut, w'.now, w'.index - {k}, w'.marks, stage.todo[1..], stage.active, done + {k});
    } else {
      assert Scans(s, user, stage.cut, w'.now, w'.index, w'.marks, stage.todo[1..], w'.procs[p].stage.active, done + {k});
    }
  }

  lemma EndScans(s: State, user: string, cut: int, now: real, index: Index, marks: Marks,
                 active: seq<Active>, done: set<Key>)
    requires Scans(s, user, cut, now, index, marks, [], active, done)
    ensures Evicts(s, s.(now := now, index := index), active, user, now, index, marks, active)
  {}

  lemma EndStands(s: State, w: I.World, w': I.World, p: nat)
    requires I.ScanEndsStep(w, w', p) && Stands(s, w.procs[p].user, w, w.procs[p].stage)
    ensures Stands(s, w.procs[p].user, w', w'.procs[p].stage)
  {
    var user, stage := w.procs[p].user, w.procs[p].stage;
    var done: set<Key> :| Scans(s, user, stage.cut, w.now, w.index, w.marks, [], stage.active, done);
    EndScans(s, user, stage.cut, w.now, w.index, w.marks, stage.active, done);
  }

  lemma ChooseStands(s: State, w: I.World, w': I.World, p: nat, victim: nat)
    requires I.ChooseStep(w, w', p, victim) && Stands(s, w.procs[p].user, w, w.procs[p].stage)
    ensures Stands(s, w.procs[p].user, w', w'.procs[p].stage)
  {
    var n := w.procs[p].stage.active[victim].0;
    MarkReaches(w.now, n, n);
  }

  lemma VictimMarked(s: State, user: string, now: real, index: Index, marks: Marks,
                     active: seq<Active>, victim: nat, ttl: int)
    requires EvictsSome(s, user, now, index, marks, active) && Oldest(active, victim)
    requires active[victim].0 as real <= now + ttl as real
    ensures UnlistsSome(s, user, now, index, marks[active[victim].1 := Entry((), now + ttl as real)], active, victim)
  {
    var mark := Entry((), now + ttl as real);
    var scanned: State, all: seq<Active> :| Evicts(s, scanned, all, user, now, index, marks, active);
    assert Unlists(s, scanned, all, user, now, index, marks[active[victim].1 := mark], active, victim, marks, mark);
  }

  lemma MarkStands(s: State, w: I.World, w': I.World, p: nat)
    requires I.MarkStep(w, w', p) && Stands(s, w.procs[p].user, w, w.procs[p].stage)
    ensures Stands(s, w.procs[p].user, w', w'.procs[p].stage)
  {
    var user, stage := w.procs[p].user, w.procs[p].stage;
    VictimMarked(s, user, w.now, w.index, w.marks, stage.active, stage.victim, stage.ttl);
  }

  lemma VictimUnlisted(s: State, user: string, now: real, index: Index, marks: Marks,
                       active: seq<Active>, victim: nat)
    requires UnlistsSome(s, user, now, index, marks, active, victim)
    ensures victim < |active|
    ensures EvictsSome(s, user, now, index - {Key(user, active[victim].1)}, marks,
                       active[..victim] + active[victim + 1..])
  {
    var scanned: State, all: seq<Active>, before: Marks, mark: Entry<()> :|
      Unlists(s, scanned, all, user, now, index, marks, active, victim, before, mark);
    var rest := active[..victim] + active[victim + 1..];
    EvictStep(scanned, index, before, user, Sids(all), active, victim, mark);
    assert Evicts(s, scanned, all, user, now, index - {Key(user, active[victim].1)}, marks, rest);
  }

  lemma UnlistStands(s: State, w: I.World, w': I.World, p: nat)
    requires I.UnlistStep(w, w', p) && Stands(s, w.procs[p].user, w, w.procs[p].stage)
    ensures Stands(s, w.procs[p].user, w', w'.procs[p].stage)
  {
    var user, stage := w.procs[p].user, w.procs[p].stage;
    VictimUnlisted(s, user, w.now, w.index, w.marks, stage.active, stage.victim);
  }

  // ----- the whole mint --------------------------------------------------

  ghost predicate OwnCall(call: I.Call, p: nat) {
    && (call.ListCall? || call.GetCall? || call.PruneCall? || call.ScanEnds? || call.Choose? || call.MarkCall?
        || call.UnlistCall?)
    && call.p == p
  }

  lemma OwnStands(s: State, w: I.World, call: I.Call, w': I.World, p: nat)
    requires s.now >= 0.0 && I.At(w, p) && OwnCall(call, p) && I.Next(w, call, w')
    requires Stands(s, w.procs[p].user, w, w.procs[p].stage) && w.procs[p].exp == s.now.Floor + OP_SESSION_TTL
    ensures Stands(s, w.procs[p].user, w', w'.procs[p].stage)
  {
    match call
    case ListCall(_, cut, keys) => ListStands(s, w, w', p, cut, keys);
    case GetCall(_) => GetStands(s, w, w', p);
    case PruneCall(_) =>
    case ScanEnds(_) => EndStands(s, w, w', p);
    case Choose(_, victim) => ChooseStands(s, w, w', p, victim);
    case MarkCall(_) => MarkStands(s, w, w', p);
    case UnlistCall(_) => UnlistStands(s, w, w', p);
  }

  /** A mint of process `p` from its first call to its last, with no call of
      another process in between. */
  ghost predicate Alone(worlds: seq<I.World>, calls: seq<I.Call>, p: nat, user: string, sid: string) {
    && |worlds| == |calls| + 1 && |calls| >= 2
    && (forall i :: 0 <= i < |calls| ==> I.StepAt(worlds, calls, i))
    && calls[0] == I.Begin(p, user, sid) && calls[|calls| - 1] == I.InsertCall(p)
    && (forall i :: 0 < i < |calls| - 1 ==> AloneAt(worlds, calls, i, p))
  }

  ghost predicate AloneAt(worlds: seq<I.World>, calls: seq<I.Call>, i: nat, p: nat)
    requires |worlds| == |calls| + 1 && i < |calls|
  {
    OwnCall(calls[i], p) || Pause(worlds[i], worlds[i + 1])
  }

  /** The mint under way, every other process where it was. */
  ghost predicate UnderWay(first: I.World, epochs: map<string, Entry<real>>, w: I.World, p: nat, user: string, sid: string) {
    OthersRest(first, w, p, user, sid) && Stands(I.Seen(first, epochs), user, w, w.procs[p].stage)
  }

  ghost predicate OthersRest(first: I.World, w: I.World, p: nat, user: string, sid: string) {
    var exp := first.now.Floor + OP_SESSION_TTL;
    && first.now >= 0.0 && I.At(w, p)
    && w.procs[p] == I.Minting(user, sid, exp, w.procs[p].stage)
    && w.signed == first.signed[sid := Issue(user, exp)]
    && w.procs.Keys == first.procs.Keys + {p}
    && (forall q :: q in w.procs && q != p ==> w.procs[q] == first.procs[q])
  }

  lemma OwnLeavesOthers(first: I.World, w: I.World, call: I.Call, w': I.World, p: nat, user: string, sid: string)
    requires OthersRest(first, w, p, user, sid) && OwnCall(call, p) && I.Next(w, call, w')
    ensures OthersRest(first, w', p, user, sid)
  {}

  lemma NextUnderWay(first: I.World, epochs: map<string, Entry<real>>, w: I.World, call: I.Call, w': I.World,
                     p: nat, user: string, sid: string)
    requires UnderWay(first, epochs, w, p, user, sid) && (Pause(w, w') || (OwnCall(call, p) && I.Next(w, call, w')))
    ensures UnderWay(first, epochs, w', p, user, sid)
  {
    var s := I.Seen(first, epochs);
    if Pause(w, w') {
      PauseStands(s, user, w, w', w.procs[p].stage);
    } else {
      OwnStands(s, w, call, w', p);
      OwnLeavesOthers(first, w, call, w', p, user, sid);
    }
  }

  lemma {:induction false} AlwaysUnderWay(worlds: seq<I.World>, calls: seq<I.Call>, p: nat, user: string, sid: string,
                                          epochs: map<string, Entry<real>>, i: nat)
    requires Alone(worlds, calls, p, user, sid) && 0 < i < |calls|
    ensures UnderWay(worlds[0], epochs, worlds[i], p, user, sid)
  {
    assert I.StepAt(worlds, calls, i - 1);
    if i > 1 {
      AlwaysUnderWay(worlds, calls, p, user, sid, epochs, i - 1);
      assert AloneAt(worlds, calls, i - 1, p);
      NextUnderWay(worlds[0], epochs, worlds[i - 1], calls[i - 1], worlds[i], p, user, sid);
    }
  }

  lemma FlightAfter(first: I.World, w: I.World, w': I.World, p: nat, user: string, sid: string, x: string)
    requires !I.At(first, p) && OthersRest(first, w, p, user, sid) && I.InsertStep(w, w', p)
    ensures I.InFlight(w', x) <==> I.InFlight(first, x)
  {
    if I.InFlight(first, x) {
      var q :| q in first.procs && first.procs[q].Minting? && first.procs[q].sid == x;
      assert w'.procs[q] == first.procs[q];
    }
    if I.InFlight(w', x) {
      var q :| q in w'.procs && w'.procs[q].Minting? && w'.procs[q].sid == x;
      assert first.procs[q] == w'.procs[q];
    }
  }

  lemma FreshSid(first: I.World, user: string, sid: string)
    requires I.Inv(first) && sid !in first.signed
    ensures Key(user, sid) !in first.index && !I.InFlight(first, sid)
  {}

  lemma SeenAfter(first: I.World, epochs: map<string, Entry<real>>, w: I.World, w': I.World, p: nat, user: string,
                  sid: string)
    requires !I.At(first, p) && sid !in first.signed && !I.InFlight(first, sid)
    requires OthersRest(first, w, p, user, sid) && I.InsertStep(w, w', p)
    ensures I.Seen(w', epochs).issued
         == I.Seen(first, epochs).issued[sid := Issue(user, first.now.Floor + OP_SESSION_TTL)]
  {
    forall x ensures I.InFlight(w', x) <==> I.InFlight(first, x) { FlightAfter(first, w, w', p, user, sid, x); }
  }

  lemma InsertStages(s: State, scanned: State, all: seq<Active>, user: string, sid: string, now: real,
                     index: Index, marks: Marks, rest: seq<Active>, s': State, e: Entry<Stamp>)
    requires Evicts(s, scanned, all, user, now, index, marks, rest) && |rest| < MAX_PER_USER
    requires Key(user, sid) !in s.index
    requires s'.now == now && s'.marks == marks && s'.index == index[Key(user, sid) := e]
    ensures MintStages(s, scanned, scanned.(now := now, index := index, marks := marks), s', user, sid, all, rest)
    ensures |Sids(rest)| == if |Sids(all)| < MAX_PER_USER then |Sids(all)| else MAX_PER_USER - 1
  {
    CountSids(all);
    CountSids(rest);
  }

  lemma InsertMints(first: I.World, epochs: map<string, Entry<real>>, w: I.World, w': I.World, p: nat, user: string,
                    sid: string, exp: nat)
      returns (scan: set<string>, kept: set<string>)
    requires exp == first.now.Floor + OP_SESSION_TTL && I.Inv(first) && !I.At(first, p) && sid !in first.signed
    requires UnderWay(first, epochs, w, p, user, sid) && I.InsertStep(w, w', p)
    ensures Next(I.Seen(first, epochs), MintEvent(user, sid, exp, scan, kept), I.Seen(w', epochs))
  {
    var s, s', rest := I.Seen(first, epochs), I.Seen(w', epochs), w.procs[p].stage.active;
    var scanned: State, all: seq<Active> :| Evicts(s, scanned, all, user, w.now, w.index, w.marks, rest);
    FreshSid(first, user, sid);
    SeenAfter(first, epochs, w, w', p, user, sid);
    InsertStages(s, scanned, all, user, sid, w.now, w.index, w.marks, rest, s', w'.index[Key(user, sid)]);
    scan, kept := Sids(all), Sids(rest);
    FloorMonotone(first.now, w.now);
    MintAssembles(s, scanned, scanned.(now := w.now, index := w.index, marks := w.marks), s', user, sid, exp, all, rest);
  }

  /** One process minting alone, from any world that a run can reach, is one mint
      of OpSessions, as the requests see it. */
  lemma AloneIsMint(worlds: seq<I.World>, calls: seq<I.Call>, p: nat, user: string, sid: string,
                    epochs: map<string, Entry<real>>)
      returns (exp: nat, scan: set<string>, kept: set<string>)
    requires Alone(worlds, calls, p, user, sid) && I.Inv(worlds[0])
    ensures exp == worlds[0].now.Floor + OP_SESSION_TTL
    ensures Next(I.Seen(worlds[0], epochs), MintEvent(user, sid, exp, scan, kept), I.Seen(worlds[|calls|], epochs))
  {
    var n := |calls| - 1;
    assert I.StepAt(worlds, calls, 0) && I.StepAt(worlds, calls, n);
    AlwaysUnderWay(worlds, calls, p, user, sid, epochs, n);
    exp := worlds[0].now.Floor + OP_SESSION_TTL;
    scan, kept := InsertMints(worlds[0], epochs, worlds[n], worlds[|calls|], p, user, sid, exp);
  }

  // ----- a logout --------------------------------------------------------

  /** What a lone logout has behind it: when it read the clock, the state after its
      first revocation, and when it computed the TTL it is about to use. */
  datatype Trail = Trail(read: real, half: State, t: real)

  ghost predicate FirstDone(s: State, w: I.World, sid: string, trail: Trail) {
    var read := s.(now := trail.read);
    && s.now <= trail.read && trail.half.now <= w.now && trail.half.marks == w.marks
    && Revoke(read, trail.half, sid, trail.read.Floor + OP_SESSION_TTL)
  }

  /** What holds at each stage of a logout that began in `s`. */
  ghost predicate Leaves(s: State, w: I.World, l: I.Leaving, sid: string, trail: Trail) {
    && sid in s.issued && l.sid == sid && w.index == s.index && s.now <= w.now
    && match l
       case Verified(_) => w.marks == s.marks
       case Revoking(_, horizon, last) =>
         if last then FirstDone(s, w, sid, trail) && horizon == s.issued[sid].exp
         else w.marks == s.marks && s.now <= trail.read <= w.now && horizon == trail.read.Floor + OP_SESSION_TTL
       case Writing(_, ttl, last) =>
         if last then FirstDone(s, w, sid, trail) && trail.half.now <= trail.t <= w.now
                      && ttl == MarkTtl(trail.t, s.issued[sid].exp)
         else w.marks == s.marks && s.now <= trail.read <= trail.t <= w.now
              && ttl == MarkTtl(trail.t, trail.read.Floor + OP_SESSION_TTL)
  }

  ghost predicate OwnLogoutCall(call: I.Call, q: nat) {
    (call.HorizonCall? || call.TtlCall? || call.WriteCall?) && call.q == q
  }

  ghost predicate LogoutAloneAt(worlds: seq<I.World>, calls: seq<I.Call>, i: nat, q: nat)
    requires |worlds| == |calls| + 1 && i < |calls|
  {
    q in worlds[i].leaving && (OwnLogoutCall(calls[i], q) || Pause(worlds[i], worlds[i + 1]))
  }

  /** A logout of request `q` from its gate to its last call, with no call of
      another process in between. */
  ghost predicate LogoutAlone(worlds: seq<I.World>, calls: seq<I.Call>, q: nat, sid: string) {
    && |worlds| == |calls| + 1 && |calls| >= 2
    && (forall i :: 0 <= i < |calls| ==> I.StepAt(worlds, calls, i))
    && calls[0] == I.GateCall(q, sid) && calls[|calls| - 1] == I.WriteCall(q)
    && q !in worlds[|calls|].leaving
    && (forall i :: 0 < i < |calls| ==> LogoutAloneAt(worlds, calls, i, q))
  }

  lemma FirstWritten(s: State, w: I.World, w': I.World, q: nat, sid: string, trail: Trail) returns (trail': Trail)
    requires I.WriteStep(w, w', q) && !w.leaving[q].last && Leaves(s, w, w.leaving[q], sid, trail)
    requires w.signed[sid] == s.issued[sid]
    ensures Leaves(s, w', w'.leaving[q], sid, trail')
  {
    trail' := trail.(half := s.(now := w.now, marks := w'.marks));
    assert MarkReadings(trail.read, w.now, trail.read.Floor + OP_SESSION_TTL, w'.marks[sid].expires, trail.t, w.now);
  }

  lemma OwnLeaves(s: State, w: I.World, call: I.Call, w': I.World, q: nat, sid: string, trail: Trail)
      returns (trail': Trail)
    requires OwnLogoutCall(call, q) && I.Next(w, call, w') && Leaves(s, w, w.leaving[q], sid, trail)
    requires q in w'.leaving && sid in w.signed && w.signed[sid] == s.issued[sid]
    ensures Leaves(s, w', w'.leaving[q], sid, trail')
  {
    match call
    case HorizonCall(_) => trail' := trail.(read := w.now);
    case TtlCall(_) => trail' := trail.(t := w.now);
    case WriteCall(_) => trail' := FirstWritten(s, w, w', q, sid, trail);
  }

  ghost predicate SameSessions(first: I.World, w: I.World) { w.signed == first.signed && w.procs == first.procs }

  lemma {:induction false} AlwaysLeaves(worlds: seq<I.World>, calls: seq<I.Call>, q: nat, sid: string,
                                        epochs: map<string, Entry<real>>, i: nat)
      returns (trail: Trail)
    requires LogoutAlone(worlds, calls, q, sid) && !I.InFlight(worlds[0], sid) && 0 < i < |calls|
    ensures q in worlds[i].leaving && SameSessions(worlds[0], worlds[i])
    ensures Leaves(I.Seen(worlds[0], epochs), worlds[i], worlds[i].leaving[q], sid, trail)
  {
    var s := I.Seen(worlds[0], epochs);
    assert I.StepAt(worlds, calls, i - 1) && LogoutAloneAt(worlds, calls, i, q);
    if i == 1 {
      trail := Trail(0.0, s, 0.0);
    } else {
      trail := AlwaysLeaves(worlds, calls, q, sid, epochs, i - 1);
      assert LogoutAloneAt(worlds, calls, i - 1, q);
      if OwnLogoutCall(calls[i - 1], q) {
        trail := OwnLeaves(s, worlds[i - 1], calls[i - 1], worlds[i], q, sid, trail);
      }
    }
  }

  /** One logout alone is one logout of OpSessions, as the requests see it. */
  lemma AloneIsLogOut(worlds: seq<I.World>, calls: seq<I.Call>, q: nat, sid: string, epochs: map<string, Entry<real>>)
    requires LogoutAlone(worlds, calls, q, sid) && !I.InFlight(worlds[0], sid)
    ensures Next(I.Seen(worlds[0], epochs), LogOutEvent(sid), I.Seen(worlds[|calls|], epochs))
  {
    var n := |calls| - 1;
    var s, s', w := I.Seen(worlds[0], epochs), I.Seen(worlds[|calls|], epochs), worlds[n];
    var trail := AlwaysLeaves(worlds, calls, q, sid, epochs, n);
    assert I.StepAt(worlds, calls, n);
    assert forall x :: I.InFlight(worlds[|calls|], x) <==> I.InFlight(worlds[0], x);
    assert MarkReadings(trail.half.now, s'.now, s.issued[sid].exp, s'.marks[sid].expires, trail.t, s'.now);
    assert LogOutVia(s, s.(now := trail.read), trail.half, s', sid);
  }
}
