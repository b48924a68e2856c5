/** No call of one process can keep another from going on: in every world of every
    interleaving each mint and each logout under way can run to its end, by its own
    calls and without time having to pass. */
module OpSessionProgress {
  import opened Text
  import opened SharedState
  import opened OpCookie
  import O = OpSessions
  import opened OpSessionInterleaving

  // ----- what a scan holds -----------------------------------------------

  ghost predicate DistinctIds(active: seq<O.Active>) {
    forall i, j :: 0 <= i < j < |active| ==> active[i].1 != active[j].1
  }

  /** What is still to be read of the user has not been read before. */
  ghost predicate Unread(user: string, todo: seq<O.Key>, active: seq<O.Active>) {
    Distinct(todo) && DistinctIds(active) && forall i :: 0 <= i < |active| ==> O.Key(user, active[i].1) !in todo
  }

  ghost predicate StageTidy(user: string, stage: Stage) {
    match stage
    case Signed => true
    case Scanning(_, todo, active) => Unread(user, todo, active)
    case Pruning(_, _, todo, active) => Unread(user, todo, active)
    case Evicting(active) => DistinctIds(active)
    case Marking(active, victim, _) => DistinctIds(active) && victim < |active|
    case Unlisting(active, victim) => DistinctIds(active) && victim < |active|
  }

  /** No mint reads a session twice. */
  ghost predicate Tidy(w: World) {
    w.now >= 0.0 && forall p :: At(w, p) ==> StageTidy(w.procs[p].user, w.procs[p].stage)
  }

  lemma UnreadOne(user: string, todo: seq<O.Key>, active: seq<O.Active>, n: int)
    requires Unread(user, todo, active) && todo != []
    ensures Unread(user, todo[1..], active)
    ensures todo[0].user == user ==> Unread(user, todo[1..], active + [(n, todo[0].sid)])
  {
    if todo[0].user == user {
      assert todo[0] == O.Key(user, todo[0].sid);
      assert todo[0] !in todo[1..];
    }
  }

  lemma TidyKeeps(w: World, call: Call, w': World)
    requires Tidy(w) && Next(w, call, w')
    ensures Tidy(w')
  {
    forall p | At(w', p) ensures StageTidy(w'.procs[p].user, w'.procs[p].stage) {
      if At(w, p) && w'.procs[p] == w.procs[p] {
      } else if call.GetCall? {
        var stage := w.procs[p].stage;
        UnreadOne(w.procs[p].user, stage.todo, stage.active,
                  if Holds(w.index, stage.todo[0], w.now) && w.index[stage.todo[0]].value.Number?
                  then w.index[stage.todo[0]].value.n else 0);
      }
    }
  }

  lemma {:induction false} RunTidy(worlds: seq<World>, calls: seq<Call>, i: nat)
    requires Run(worlds, calls) && i < |worlds|
    ensures Tidy(worlds[i])
  {
    if i > 0 {
      RunTidy(worlds, calls, i - 1);
      assert StepAt(worlds, calls, i - 1);
      TidyKeeps(worlds[i - 1], calls[i - 1], worlds[i]);
    }
  }

  // ----- the next call of a mint -----------------------------------------

  /** Of sessions with different ids one is to be evicted first. */
  lemma {:induction false} Earliest(active: seq<O.Active>) returns (m: nat)
    requires active != [] && DistinctIds(active)
    ensures m < |active|
    ensures forall j :: 0 <= j < |active| && j != m ==>
              O.Before(active[m].0, active[m].1, active[j].0, active[j].1)
  {
    var n := |active| - 1;
    if n == 0 {
      m := 0;
    } else {
      m := Earliest(active[..n]);
      var a, b := active[n], active[m];
      LexTotal(a.1, b.1);
      if O.Before(a.0, a.1, b.0, b.1) {
        forall j | 0 <= j < n ensures O.Before(a.0, a.1, active[j].0, active[j].1) {
          if a.0 == b.0 == active[j].0 && j != m { LexTransitive(a.1, b.1, active[j].1); }
        }
        m := n;
      }
    }
  }

  /** The keys alive at an instant, as some backend lists them. */
  lemma {:induction false} Listing(alive: set<O.Key>) returns (keys: seq<O.Key>)
    ensures Distinct(keys) && forall k :: k in keys <==> k in alive
    decreases |alive|
  {
    if alive == {} {
      keys := [];
    } else {
      var k :| k in alive;
      var rest := Listing(alive - {k});
      keys := rest + [k];
    }
  }

  /** How many calls a mint that has listed the index needs at most. */
  function Left(stage: Stage): nat
    requires !stage.Signed?
  {
    match stage
    case Scanning(_, todo, active) => 4 * |todo| + 3 * |active| + 2
    case Pruning(_, _, todo, active) => 4 * |todo| + 3 * |active| + 3
    case Evicting(active) => 3 * |active| + 1
    case Marking(active, _, _) => 3 * |active|
    case Unlisting(active, _) => if active == [] then 0 else 3 * |active| - 1
  }

  ghost predicate MintCall(call: Call, p: nat) {
    match call
    case ListCall(q, _, _) => q == p
    case GetCall(q) => q == p
    case PruneCall(q) => q == p
    case ScanEnds(q) => q == p
    case Choose(q, _) => q == p
    case MarkCall(q) => q == p
    case UnlistCall(q) => q == p
    case InsertCall(q) => q == p
    case _ => false
  }

  /** The mint has gone on by one call, and is closer to its end. */
  ghost predicate Closer(w: World, w': World, p: nat)
    requires At(w, p)
  {
    && At(w', p) && !w'.procs[p].stage.Signed?
    && w'.procs == w.procs[p := w.procs[p].(stage := w'.procs[p].stage)]
    && (w.procs[p].stage.Signed? || Left(w'.procs[p].stage) < Left(w.procs[p].stage))
  }

  /** Or it has reached it: its cookie is listed. */
  ghost predicate Ends(w: World, w': World, p: nat)
    requires At(w, p)
  {
    var c := w.procs[p];
    && w'.procs == w.procs[p := Resting]
    && O.Key(c.user, c.sid) in w'.index && w'.index[O.Key(c.user, c.sid)].value == O.Number(c.exp)
  }

  lemma ListNext(w: World, p: nat) returns (call: Call, w': World)
    requires At(w, p) && OwnOk(w, w.procs[p]) && w.procs[p].stage.Signed?
    ensures MintCall(call, p) && Next(w, call, w') && w'.now == w.now && w'.signed == w.signed
    ensures Closer(w, w', p)
  {
    var keys := Listing(set k | k in w.index && Holds(w.index, k, w.now));
    call := ListCall(p, w.now.Floor, keys);
    w' := Goes(w, p, Scanning(w.now.Floor, keys, []), w.index, w.marks);
  }

  lemma ReadNext(w: World, p: nat) returns (call: Call, w': World)
    requires At(w, p) && w.procs[p].stage.Scanning? && w.procs[p].stage.todo != []
    ensures call == GetCall(p) && Next(w, call, w') && w'.now == w.now && w'.signed == w.signed
    ensures Closer(w, w', p)
  {
    call := GetCall(p);
    var Scanning(cut, todo, active) := w.procs[p].stage;
    var k, rest := todo[0], todo[1..];
    var alive := Holds(w.index, k, w.now);
    var v := if alive then w.index[k].value else O.Number(0);
    var stage :=
      if v.Junk? || v.n <= cut then Pruning(cut, k, rest, active)
      else if k.user == w.procs[p].user then Scanning(cut, rest, active + [(v.n, k.sid)])
      else Scanning(cut, rest, active);
    w' := Goes(w, p, stage, if alive then w.index else w.index - {k}, w.marks);
  }

  lemma ScanNext(w: World, p: nat) returns (call: Call, w': World)
    requires At(w, p) && (w.procs[p].stage.Scanning? || w.procs[p].stage.Pruning?)
    ensures MintCall(call, p) && Next(w, call, w') && w'.now == w.now && w'.signed == w.signed
    ensures Closer(w, w', p)
  {
    match w.procs[p].stage
    case Scanning(_, todo, active) =>
      if todo == [] {
        call, w' := ScanEnds(p), Goes(w, p, Evicting(active), w.index, w.marks);
      } else {
        call, w' := ReadNext(w, p);
      }
    case Pruning(cut, key, todo, active) =>
      call, w' := PruneCall(p), Goes(w, p, Scanning(cut, todo, active), w.index - {key}, w.marks);
  }

  lemma EvictNext(w: World, p: nat) returns (call: Call, w': World)
    requires At(w, p) && StageTidy(w.procs[p].user, w.procs[p].stage) && w.procs[p].stage.Evicting?
    ensures MintCall(call, p) && Next(w, call, w') && w'.now == w.now && w'.signed == w.signed
    ensures Closer(w, w', p) || Ends(w, w', p)
  {
    var c, active := w.procs[p], w.procs[p].stage.active;
    if |active| >= O.MAX_PER_USER {
      var m := Earliest(active);
      call, w' := Choose(p, m), Goes(w, p, Marking(active, m, O.MarkTtl(w.now, active[m].0)), w.index, w.marks);
    } else {
      call := InsertCall(p);
      w' := w.(index := w.index[O.Key(c.user, c.sid) := Entry(O.Number(c.exp), w.now + OP_SESSION_TTL as real)],
               procs := w.procs[p := Resting]);
    }
  }

  lemma VictimNext(w: World, p: nat) returns (call: Call, w': World)
    requires At(w, p) && StageTidy(w.procs[p].user, w.procs[p].stage)
    requires w.procs[p].stage.Marking? || w.procs[p].stage.Unlisting?
    ensures MintCall(call, p) && Next(w, call, w') && w'.now == w.now && w'.signed == w.signed
    ensures Closer(w, w', p)
  {
    match w.procs[p].stage
    case Marking(active, victim, ttl) =>
      call := MarkCall(p);
      w' := Goes(w, p, Unlisting(active, victim), w.index,
                 w.marks[active[victim].1 := Entry((), w.now + ttl as real)]);
    case Unlisting(active, victim) =>
      call := UnlistCall(p);
      w' := Goes(w, p, Evicting(active[..victim] + active[victim + 1..]),
                 w.index - {O.Key(w.procs[p].user, active[victim].1)}, w.marks);
  }

  /** Whatever the others have done, a mint has a next call. */
  lemma MintGoesOn(w: World, p: nat) returns (call: Call, w': World)
    requires Inv(w) && Tidy(w) && At(w, p)
    ensures MintCall(call, p) && Next(w, call, w') && w'.now == w.now && w'.signed == w.signed
    ensures Closer(w, w', p) || Ends(w, w', p)
  {
    match w.procs[p].stage
    case Signed => call, w' := ListNext(w, p);
    case Scanning(_, _, _) => call, w' := ScanNext(w, p);
    case Pruning(_, _, _, _) => call, w' := ScanNext(w, p);
    case Evicting(_) => call, w' := EvictNext(w, p);
    case Marking(_, _, _) => call, w' := VictimNext(w, p);
    case Unlisting(_, _) => call, w' := VictimNext(w, p);
  }

  // ----- paths to the end ------------------------------------------------

  /** Worlds that follow on each other by these calls. */
  ghost predicate Path(worlds: seq<World>, calls: seq<Call>) {
    |worlds| == |calls| + 1 && forall i :: 0 <= i < |calls| ==> StepAt(worlds, calls, i)
  }

  lemma PathFrom(w: World, call: Call, worlds: seq<World>, calls: seq<Call>)
    requires Path(worlds, calls) && Next(w, call, worlds[0])
    ensures Path([w] + worlds, [call] + calls)
  {
    forall i | 0 <= i < |calls| + 1 ensures StepAt([w] + worlds, [call] + calls, i) {
      if i > 0 { assert StepAt(worlds, calls, i - 1); }
    }
  }

  ghost function Rank(w: World, p: nat): (nat, nat)
    requires At(w, p)
  {
    if w.procs[p].stage.Signed? then (1, 0) else (0, Left(w.procs[p].stage))
  }

  lemma {:induction false} MintRunsOut(w: World, p: nat) returns (worlds: seq<World>, calls: seq<Call>)
    requires Inv(w) && Tidy(w) && At(w, p)
    ensures Path(worlds, calls) && worlds[0] == w && forall i :: 0 <= i < |calls| ==> MintCall(calls[i], p)
    ensures Ends(w, worlds[|calls|], p) && worlds[|calls|].now == w.now && worlds[|calls|].signed == w.signed
    decreases Rank(w, p).0, Rank(w, p).1
  {
    var call, w' := MintGoesOn(w, p);
    if Ends(w, w', p) {
      worlds, calls := [w'], [];
    } else {
      CallKeeps(w, call, w');
      TidyKeeps(w, call, w');
      worlds, calls := MintRunsOut(w', p);
    }
    PathFrom(w, call, worlds, calls);
    worlds, calls := [w] + worlds, [call] + calls;
  }

  /** Wherever an interleaving has got to, a mint that is under way can complete by
      its own calls alone, at once, and then its cookie is listed. */
  lemma MintCanFinish(worlds: seq<World>, calls: seq<Call>, p: nat)
      returns (more: seq<World>, done: seq<Call>)
    requires Run(worlds, calls) && At(worlds[|calls|], p)
    ensures Path(more, done) && more[0] == worlds[|calls|] && forall i :: 0 <= i < |done| ==> MintCall(done[i], p)
    ensures var c, end := more[0].procs[p], more[|done|];
      && end.procs == more[0].procs[p := Resting] && end.now == more[0].now
      && O.Key(c.user, c.sid) in end.index && end.index[O.Key(c.user, c.sid)].value == O.Number(c.exp)
  {
    RunKeeps(worlds, calls, |calls|);
    RunTidy(worlds, calls, |calls|);
    more, done := MintRunsOut(worlds[|calls|], p);
  }

  /** And a process that is not minting can begin to, for any user. */
  lemma MintCanBegin(worlds: seq<World>, calls: seq<Call>, p: nat, user: string, sid: string) returns (w: World)
    requires Run(worlds, calls) && !At(worlds[|calls|], p) && sid !in worlds[|calls|].signed
    ensures Next(worlds[|calls|], Begin(p, user, sid), w) && At(w, p)
    ensures w.procs[p].user == user && w.procs[p].sid == sid
    ensures sid in w.signed && w.signed[sid] == O.Issue(user, worlds[|calls|].now.Floor + 28800)
  {
    var last := worlds[|calls|];
    RunTidy(worlds, calls, |calls|);
    var exp := last.now.Floor + OP_SESSION_TTL;
    w := last.(signed := last.signed[sid := O.Issue(user, exp)],
               procs := last.procs[p := Minting(user, sid, exp, Signed)]);
  }

  // ----- logouts ---------------------------------------------------------

  ghost predicate LogoutCall(call: Call, q: nat) {
    (call.HorizonCall? || call.TtlCall? || call.WriteCall?) && call.q == q
  }

  function LogoutLeft(l: Leaving): nat {
    match l
    case Verified(_) => 4
    case Revoking(_, _, last) => if last then 1 else 3
    case Writing(_, _, last) => if last then 0 else 2
  }

  lemma LogoutGoesOn(w: World, q: nat) returns (call: Call, w': World)
    requires Inv(w) && q in w.leaving
    ensures LogoutCall(call, q) && Next(w, call, w') && w'.now == w.now && w'.signed == w.signed
    ensures w.leaving[q].sid in w.signed && w'.leaving - {q} == w.leaving - {q}
    ensures if q in w'.leaving
            then w'.leaving[q].sid == w.leaving[q].sid && LogoutLeft(w'.leaving[q]) < LogoutLeft(w.leaving[q])
            else Marked(w', w.leaving[q].sid, w.signed[w.leaving[q].sid].exp)
  {
    assert LeavingOk(w, w.leaving[q]);
    match w.leaving[q]
    case Verified(sid) =>
      call := HorizonCall(q);
      w' := w.(leaving := w.leaving[q := Revoking(sid, w.now.Floor + OP_SESSION_TTL, false)]);
    case Revoking(sid, horizon, last) =>
      call := TtlCall(q);
      w' := w.(leaving := w.leaving[q := Writing(sid, O.MarkTtl(w.now, horizon), last)]);
    case Writing(sid, ttl, last) =>
      call := WriteCall(q);
      w' := w.(marks := w.marks[sid := Entry((), w.now + ttl as real)],
               leaving := if last then w.leaving - {q}
                          else w.leaving[q := Revoking(sid, w.signed[sid].exp, true)]);
  }

  lemma {:induction false} LogoutRunsOut(w: World, q: nat) returns (worlds: seq<World>, calls: seq<Call>)
    requires Inv(w) && q in w.leaving
    ensures Path(worlds, calls) && worlds[0] == w && forall i :: 0 <= i < |calls| ==> LogoutCall(calls[i], q)
    ensures worlds[|calls|].leaving == w.leaving - {q} && worlds[|calls|].now == w.now
    ensures w.leaving[q].sid in w.signed
    ensures Marked(worlds[|calls|], w.leaving[q].sid, w.signed[w.leaving[q].sid].exp)
    decreases LogoutLeft(w.leaving[q])
  {
    var call, w' := LogoutGoesOn(w, q);
    if q !in w'.leaving {
      worlds, calls := [w'], [];
    } else {
      CallKeeps(w, call, w');
      worlds, calls := LogoutRunsOut(w', q);
    }
    PathFrom(w, call, worlds, calls);
    worlds, calls := [w] + worlds, [call] + calls;
  }

  /** Any request may log out a session that has been signed, and whatever the
      others do between its calls, it can always complete at once; then the session
      is marked for the rest of its life. */
  lemma LogoutCanFinish(worlds: seq<World>, calls: seq<Call>, q: nat)
      returns (more: seq<World>, done: seq<Call>)
    requires Run(worlds, calls) && q in worlds[|calls|].leaving
    ensures Path(more, done) && more[0] == worlds[|calls|] && forall i :: 0 <= i < |done| ==> LogoutCall(done[i], q)
    ensures var w, end := more[0], more[|done|]; var sid := w.leaving[q].sid;
      && end.leaving == w.leaving - {q} && end.now == w.now
      && sid in w.signed && sid in end.marks && w.signed[sid].exp as real <= end.marks[sid].expires
  {
    RunKeeps(worlds, calls, |calls|);
    more, done := LogoutRunsOut(worlds[|calls|], q);
  }

  lemma LogoutCanBegin(w: World, q: nat, sid: string) returns (w': World)
    requires q !in w.leaving && sid in w.signed
    ensures Next(w, GateCall(q, sid), w') && w'.leaving == w.leaving[q := Verified(sid)]
  {
    w' := w.(leaving := w.leaving[q := Verified(sid)]);
  }

  /** Time may pass between any two calls, or not. */
  lemma TimeMayPass(w: World, now: real)
    requires w.now <= now
    ensures Next(w, Tick, w.(now := now))
  {}
}
