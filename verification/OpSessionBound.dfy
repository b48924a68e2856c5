/** How far interleaved mints can overshoot the cap: nine, and as many more as a
    user's mints overlap. The mint that scanned last, of those completed, left at
    most nine sessions; whatever came later was already on its way then. */
module OpSessionBound {
  import opened SharedState
  import opened OpCookie
  import O = OpSessions
  import opened OpSessionInterleaving

  /** The sessions of the user that a mint has signed and not yet listed. */
  ghost function Flying(w: World, user: string): set<string> {
    set p | p in w.procs && w.procs[p].Minting? && w.procs[p].user == user :: w.procs[p].sid
  }

  /** The user's sessions that are listed and in date. */
  ghost function Live(w: World, user: string): set<string> {
    set k | k in w.index && k.user == user && !O.Stale(w.index[k], w.now) :: k.sid
  }

  /** Has the process listed the index for the user? */
  ghost predicate Past(w: World, p: nat, user: string) {
    At(w, p) && w.procs[p].user == user && !w.procs[p].stage.Signed?
  }

  ghost predicate InActive(active: seq<O.Active>, x: string) { exists i :: 0 <= i < |active| && active[i].1 == x }

  /** Is the session among those a mint has still to read, or counts? */
  ghost predicate Knows(stage: Stage, user: string, x: string) {
    || (!stage.Signed? && InActive(stage.active, x))
    || ((stage.Scanning? || stage.Pruning?) && O.Key(user, x) in stage.todo)
  }

  /** What a run has shown so far: when each process listed, and what was in
      flight then; and of the completed mint that listed last, when that was, what
      it kept, and what was in flight. */
  datatype Memory = Memory(lists: nat, at: map<nat, nat>, beside: map<nat, set<string>>,
                           last: nat, kept: set<string>, late: set<string>)

  const NOTHING := Memory(0, map[], map[], 0, {}, {})

  ghost function Remember(m: Memory, w: World, call: Call, user: string): Memory {
    match call
    case ListCall(p, _, _) =>
      if At(w, p) && w.procs[p].user == user
      then m.(lists := m.lists + 1, at := m.at[p := m.lists + 1], beside := m.beside[p := Flying(w, user)])
      else m
    case InsertCall(p) =>
      if Past(w, p, user) && p in m.at && p in m.beside && m.at[p] > m.last
      then m.(last := m.at[p], kept := set a | a in w.procs[p].stage.active :: a.1, late := m.beside[p])
      else m
    case _ => m
  }

  ghost function Memories(worlds: seq<World>, calls: seq<Call>, i: nat, user: string): Memory
    requires |worlds| == |calls| + 1 && i <= |calls|
  {
    if i == 0 then NOTHING
    else Remember(Memories(worlds, calls, i - 1, user), worlds[i - 1], calls[i - 1], user)
  }

  // ----- what every call keeps -------------------------------------------

  ghost predicate TimesOk(w: World, m: Memory, user: string) {
    && m.last <= m.lists
    && (forall p :: Past(w, p, user) ==> p in m.at && p in m.beside && m.at[p] <= m.lists)
  }

  /** A mint that listed earlier was in flight at every later listing. */
  ghost predicate BesideOk(w: World, m: Memory, user: string)
    requires TimesOk(w, m, user)
  {
    && (forall p, q :: Past(w, p, user) && Past(w, q, user) && m.at[q] <= m.at[p] ==>
          w.procs[q].sid in m.beside[p])
    && (forall p :: Past(w, p, user) && m.at[p] <= m.last ==> w.procs[p].sid in m.late)
  }

  /** A mint that listed after the last completed one did knows of every live
      session that was not in flight then. */
  ghost predicate KnowsOk(w: World, m: Memory, user: string)
    requires TimesOk(w, m, user)
  {
    forall p, x :: Past(w, p, user) && m.at[p] > m.last && x in Live(w, user) ==>
      Knows(w.procs[p].stage, user, x) || x in m.beside[p]
  }

  ghost predicate CountsOk(w: World, m: Memory, user: string, c: nat)
    requires TimesOk(w, m, user)
  {
    && |m.kept| < O.MAX_PER_USER && |m.late| <= c
    && (forall p :: Past(w, p, user) ==> |m.beside[p]| <= c)
    && Live(w, user) <= m.kept + m.late
  }

  ghost predicate Bound(w: World, m: Memory, user: string, c: nat) {
    TimesOk(w, m, user) && BesideOk(w, m, user) && KnowsOk(w, m, user) && CountsOk(w, m, user, c)
  }

  /** What a call other than a listing or an insertion of the user does. */
  ghost predicate Settles(w: World, w': World, user: string) {
    && Live(w', user) <= Live(w, user)
    && (forall p :: Past(w', p, user) ==> Past(w, p, user) && w'.procs[p].sid == w.procs[p].sid)
    && (forall p, x :: Past(w', p, user) && x in Live(w', user) && Knows(w.procs[p].stage, user, x) ==>
          Knows(w'.procs[p].stage, user, x))
  }

  lemma SettlesKeeps(w: World, w': World, m: Memory, m': Memory, user: string, c: nat)
    requires Bound(w, m, user, c) && Settles(w, w', user) && m' == m
    ensures Bound(w', m', user, c)
  {}

  lemma LiveShrinks(w: World, w': World, user: string)
    requires w.now <= w'.now
    requires forall k :: k in w'.index && k.user == user ==> k in w.index && w'.index[k] == w.index[k]
    ensures Live(w', user) <= Live(w, user)
  {
    forall k | k in w'.index && k.user == user && !O.Stale(w'.index[k], w'.now) ensures k.sid in Live(w, user) {
      if O.Stale(w.index[k], w.now) { O.StaleStays(w.index[k], w.now, w'.now); }
    }
  }

  lemma LiveKey(w: World, user: string, x: string)
    requires x in Live(w, user)
    ensures O.Key(user, x) in w.index && !O.Stale(w.index[O.Key(user, x)], w.now)
  {
    var k :| k in w.index && k.user == user && !O.Stale(w.index[k], w.now) && k.sid == x;
    assert k == O.Key(user, x);
  }

  /** A call that moves no process of the user past a listing. */
  lemma IdleSettles(w: World, call: Call, w': World, user: string)
    requires Next(w, call, w') && (call.Tick? || OfLogout(call) || call.Begin?)
    ensures Settles(w, w', user)
  {
    LiveShrinks(w, w', user);
  }

  ghost predicate MovesOn(call: Call) {
    call.GetCall? || call.PruneCall? || call.ScanEnds? || call.Choose? || call.MarkCall? || call.UnlistCall?
  }

  lemma GetKnows(w: World, w': World, p: nat, user: string, x: string)
    requires GetStep(w, w', p) && w.procs[p].user == user && w.procs[p].stage.cut <= w.now.Floor
    requires x in Live(w', user) && Knows(w.procs[p].stage, user, x)
    ensures Knows(w'.procs[p].stage, user, x)
  {
    var stage, stage' := w.procs[p].stage, w'.procs[p].stage;
    LiveKey(w', user, x);
    if InActive(stage.active, x) {
      var i :| 0 <= i < |stage.active| && stage.active[i].1 == x;
      assert stage'.active[i].1 == x;
    } else if stage.todo[0] == O.Key(user, x) {
      assert stage'.active[|stage.active|].1 == x;
    } else {
      assert O.Key(user, x) in stage.todo[1..];
    }
  }

  lemma UnlistKnows(w: World, w': World, p: nat, user: string, x: string)
    requires UnlistStep(w, w', p) && w.procs[p].user == user
    requires x in Live(w', user) && Knows(w.procs[p].stage, user, x)
    ensures Knows(w'.procs[p].stage, user, x)
  {
    var stage := w.procs[p].stage;
    var rest := stage.active[..stage.victim] + stage.active[stage.victim + 1..];
    LiveKey(w', user, x);
    var i :| 0 <= i < |stage.active| && stage.active[i].1 == x;
    assert rest[if i < stage.victim then i else i - 1] == stage.active[i];
  }

  lemma MoveKnows(w: World, call: Call, w': World, user: string, x: string)
    requires Next(w, call, w') && MovesOn(call) && w.procs[call.p].user == user
    requires call.GetCall? ==> w.procs[call.p].stage.cut <= w.now.Floor
    requires x in Live(w', user) && Knows(w.procs[call.p].stage, user, x)
    ensures Knows(w'.procs[call.p].stage, user, x)
  {
    match call
    case GetCall(p) => GetKnows(w, w', p, user, x);
    case UnlistCall(p) => UnlistKnows(w, w', p, user, x);
    case _ =>
  }

  lemma MoveSettles(w: World, call: Call, w': World, user: string)
    requires Next(w, call, w') && MovesOn(call)
    requires call.GetCall? ==> w.procs[call.p].stage.cut <= w.now.Floor
    ensures Settles(w, w', user)
  {
    LiveShrinks(w, w', user);
    forall p, x | Past(w', p, user) && x in Live(w', user) && Knows(w.procs[p].stage, user, x)
      ensures Knows(w'.procs[p].stage, user, x)
    {
      if p == call.p { MoveKnows(w, call, w', user, x); }
    }
  }

  /** A listing or an insertion for another user. */
  lemma StrangerSettles(w: World, call: Call, w': World, user: string)
    requires Next(w, call, w') && (call.ListCall? || call.InsertCall?) && w.procs[call.p].user != user
    ensures Settles(w, w', user)
  {
    LiveShrinks(w, w', user);
  }

  lemma ListBounds(w: World, call: Call, w': World, m: Memory, m': Memory, user: string, c: nat)
    requires m' == Remember(m, w, call, user) && Bound(w, m, user, c) && call.ListCall? && Next(w, call, w') && w.procs[call.p].user == user
    requires |Flying(w, user)| <= c
    ensures Bound(w', m', user, c)
  {
    var p := call.p;
    assert Live(w', user) == Live(w, user);
    forall q | Past(w', q, user) ensures w'.procs[q].sid in Flying(w, user) && (q != p ==> Past(w, q, user)) {
      assert At(w, q);
    }
    forall x | x in Live(w', user) ensures Knows(w'.procs[p].stage, user, x) {
      LiveKey(w', user, x);
      assert O.Key(user, x) in call.keys;
    }
  }

  lemma InsertLive(w: World, w': World, p: nat, user: string)
    requires InsertStep(w, w', p) && w.procs[p].user == user
    ensures Live(w', user) <= Live(w, user) + {w.procs[p].sid}
  {
    forall k | k in w'.index && k.user == user && !O.Stale(w'.index[k], w'.now)
      ensures k.sid in Live(w, user) + {w.procs[p].sid}
    {}
  }

  lemma InsertPast(w: World, w': World, p: nat, user: string)
    requires InsertStep(w, w', p)
    ensures forall q :: Past(w', q, user) ==> q != p && Past(w, q, user) && w'.procs[q] == w.procs[q]
  {}

  /** An insertion by a mint that listed before the last completed one did. */
  lemma LateInsertBounds(w: World, w': World, p: nat, m: Memory, m': Memory, user: string, c: nat)
    requires m' == m && Bound(w, m, user, c) && InsertStep(w, w', p) && w.procs[p].user == user && m.at[p] <= m.last
    ensures Bound(w', m', user, c)
  {
    assert Past(w, p, user);
    InsertLive(w, w', p, user);
    InsertPast(w, w', p, user);
  }

  lemma {:induction false} CountActive(active: seq<O.Active>)
    ensures |set a | a in active :: a.1| <= |active|
  {
    if active != [] {
      var n := |active| - 1;
      CountActive(active[..n]);
      assert (set a | a in active :: a.1) == (set a | a in active[..n] :: a.1) + {active[n].1};
    }
  }

  /** An insertion by the mint that has listed last. */
  lemma NewestInsertBounds(w: World, w': World, p: nat, m: Memory, m': Memory, user: string, c: nat)
    requires Bound(w, m, user, c) && InsertStep(w, w', p) && w.procs[p].user == user && m.at[p] > m.last
    requires m' == Remember(m, w, InsertCall(p), user)
    ensures Bound(w', m', user, c)
  {
    assert Past(w, p, user);
    var active := w.procs[p].stage.active;
    InsertLive(w, w', p, user);
    InsertPast(w, w', p, user);
    CountActive(active);
    assert w.procs[p].sid in m.beside[p];
    forall x | x in Live(w', user) ensures x in m'.kept + m'.late {
      if x != w.procs[p].sid { NewestKnows(w, p, m, user, x); }
    }
  }

  lemma NewestKnows(w: World, p: nat, m: Memory, user: string, x: string)
    requires TimesOk(w, m, user) && KnowsOk(w, m, user) && Past(w, p, user) && m.at[p] > m.last
    requires w.procs[p].stage.Evicting? && x in Live(w, user)
    ensures x in (set a | a in w.procs[p].stage.active :: a.1) || x in m.beside[p]
  {
    if x !in m.beside[p] {
      assert Knows(w.procs[p].stage, user, x);
      var i :| 0 <= i < |w.procs[p].stage.active| && w.procs[p].stage.active[i].1 == x;
      assert w.procs[p].stage.active[i] in w.procs[p].stage.active;
    }
  }

  lemma CallBounds(w: World, call: Call, w': World, m: Memory, m': Memory, user: string, c: nat)
    requires Inv(w) && Bound(w, m, user, c) && Next(w, call, w') && |Flying(w, user)| <= c
    requires m' == Remember(m, w, call, user)
    ensures Bound(w', m', user, c)
  {
    if call.Tick? || OfLogout(call) || call.Begin? {
      IdleSettles(w, call, w', user);
      SettlesKeeps(w, w', m, m', user, c);
    } else if MovesOn(call) {
      assert StageOk(w, w.procs[call.p].user, w.procs[call.p].stage);
      MoveSettles(w, call, w', user);
      SettlesKeeps(w, w', m, m', user, c);
    } else if w.procs[call.p].user != user {
      StrangerSettles(w, call, w', user);
      SettlesKeeps(w, w', m, m', user, c);
    } else if call.ListCall? {
      ListBounds(w, call, w', m, m', user, c);
    } else {
      assert Past(w, call.p, user);
      if m.at[call.p] <= m.last {
        LateInsertBounds(w, w', call.p, m, m', user, c);
      } else {
        NewestInsertBounds(w, w', call.p, m, m', user, c);
      }
    }
  }

  /** At most `c` of the user's mints were in flight at once, up to world `i`. */
  ghost predicate Overlap(worlds: seq<World>, i: nat, user: string, c: nat)
    requires i < |worlds|
  {
    forall k :: 0 <= k <= i ==> |Flying(worlds[k], user)| <= c
  }

  lemma {:induction false} RunBounds(worlds: seq<World>, calls: seq<Call>, i: nat, user: string, c: nat)
    requires Run(worlds, calls) && i < |worlds| && Overlap(worlds, i, user, c)
    ensures Bound(worlds[i], Memories(worlds, calls, i, user), user, c)
  {
    if i == 0 {
      InitBound(worlds[0], user, c);
    } else {
      RunBounds(worlds, calls, i - 1, user, c);
      NextBounds(worlds, calls, i, user, c);
    }
  }

  lemma NextBounds(worlds: seq<World>, calls: seq<Call>, i: nat, user: string, c: nat)
    requires Run(worlds, calls) && 0 < i <= |calls| && |Flying(worlds[i - 1], user)| <= c
    requires Bound(worlds[i - 1], Memories(worlds, calls, i - 1, user), user, c)
    ensures Bound(worlds[i], Memories(worlds, calls, i, user), user, c)
  {
    RunKeeps(worlds, calls, i - 1);
    assert StepAt(worlds, calls, i - 1);
    CallBounds(worlds[i - 1], calls[i - 1], worlds[i], Memories(worlds, calls, i - 1, user),
               Memories(worlds, calls, i, user), user, c);
  }

  lemma InitBound(w: World, user: string, c: nat)
    requires Init(w)
    ensures Bound(w, NOTHING, user, c)
  {
    assert Live(w, user) == {};
  }

  // ----- the bound -------------------------------------------------------

  lemma SumCard<T>(a: set<T>, b: set<T>)
    ensures |a + b| <= |a| + |b|
  {
    assert a + b == a + (b - a);
    O.SubsetCard(b - a, b);
  }

  /** If at most `c` of a user's mints are in flight at once, at most `9 + c` of
      their cookies verify, in every world of every interleaving. */
  lemma AtMostNineAndOverlap(worlds: seq<World>, calls: seq<Call>, i: nat, user: string, c: nat,
                             epochs: map<string, Entry<real>>)
    requires Run(worlds, calls) && i < |worlds| && Overlap(worlds, i, user, c)
    ensures |O.AcceptedSids(Seen(worlds[i], epochs), user)| <= 9 + c
  {
    var w, m := worlds[i], Memories(worlds, calls, i, user);
    RunBounds(worlds, calls, i, user, c);
    RunKeeps(worlds, calls, i);
    SeenCovered(w, epochs, user);
    O.AcceptedAreLive(Seen(w, epochs), user);
    assert O.LiveSids(Seen(w, epochs), user) == Live(w, user);
    O.SubsetCard(O.AcceptedSids(Seen(w, epochs), user), m.kept + m.late);
    SumCard(m.kept, m.late);
  }

  /** So the cap of ten holds, at every instant, of mints that do not overlap. */
  lemma AtMostTenWithoutOverlap(worlds: seq<World>, calls: seq<Call>, i: nat, user: string,
                                epochs: map<string, Entry<real>>)
    requires Run(worlds, calls) && i < |worlds| && Overlap(worlds, i, user, 1)
    ensures |O.AcceptedSids(Seen(worlds[i], epochs), user)| <= O.MAX_PER_USER
  {
    AtMostNineAndOverlap(worlds, calls, i, user, 1, epochs);
  }
}
