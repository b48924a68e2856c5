/** Mints and logouts of several processes over one store, interleaved between any
    two backend calls. What a mint does to the index is not atomic; the order of
    its calls (mark a victim, then unlist it) is what keeps every cookie in view. */
module OpSessionInterleaving {
  import opened Text
  import opened SharedState
  import opened OpCookie
  import opened OpSessions

  /** Where a process stands inside `_index_op_session`. */
  datatype Stage =
    | Signed
    | Scanning(cut: int, todo: seq<Key>, active: seq<Active>)
    // get has condemned `key`; its delete is still to come
    | Pruning(cut: int, key: Key, todo: seq<Key>, active: seq<Active>)
    | Evicting(active: seq<Active>)
    // the mark's TTL is computed, the mark not yet written
    | Marking(active: seq<Active>, victim: nat, ttl: int)
    // the mark is written, the index entry not yet deleted
    | Unlisting(active: seq<Active>, victim: nat)

  datatype Proc = Resting | Minting(user: string, sid: string, exp: nat, stage: Stage)

  /** Where a request stands inside `_post_logout`; `last` is the second of its
      two revocations. */
  datatype Leaving =
    // the gate has verified the cookie
    | Verified(sid: string)
    | Revoking(sid: string, horizon: int, last: bool)
    // the mark's TTL is computed, the mark not yet written
    | Writing(sid: string, ttl: int, last: bool)

  /** `signed` records every cookie signed so far. */
  datatype World = World(
    now: real,
    index: map<Key, Entry<Stamp>>,
    marks: map<string, Entry<()>>,
    signed: map<string, Issue>,
    procs: map<nat, Proc>,
    leaving: map<nat, Leaving>)

  /** A cookie that its mint has not yet listed, nor handed out. */
  ghost predicate InFlight(w: World, sid: string) {
    exists p :: p in w.procs && w.procs[p].Minting? && w.procs[p].sid == sid
  }

  // ----- single backend calls --------------------------------------------

  datatype Call =
    | Tick
    | GateCall(q: nat, sid: string)
    | HorizonCall(q: nat)
    | TtlCall(q: nat)
    | WriteCall(q: nat)
    | Begin(p: nat, user: string, sid: string)
    | ListCall(p: nat, cut: int, keys: seq<Key>)
    | GetCall(p: nat)
    | PruneCall(p: nat)
    | ScanEnds(p: nat)
    | Choose(p: nat, victim: nat)
    | MarkCall(p: nat)
    | UnlistCall(p: nat)
    | InsertCall(p: nat)

  ghost predicate At(w: World, p: nat) { p in w.procs && w.procs[p].Minting? }

  /** Process `p` goes on to a stage; the shared tables become what is given. */
  ghost function Goes(w: World, p: nat, stage: Stage, index: map<Key, Entry<Stamp>>,
                      marks: map<string, Entry<()>>): World
    requires At(w, p)
  {
    w.(index := index, marks := marks, procs := w.procs[p := w.procs[p].(stage := stage)])
  }

  /** Time passes and readers drop lapsed entries. */
  ghost predicate TickStep(w: World, w': World) {
    && w.now <= w'.now && w'.signed == w.signed && w'.procs == w.procs && w'.leaving == w.leaving
    && Lapses(w.index, w'.index, w'.now) && Lapses(w.marks, w'.marks, w'.now)
  }

  /** A logout begins: the gate has let the cookie of this session through. */
  ghost predicate GateStep(w: World, w': World, q: nat, sid: string) {
    && q !in w.leaving && sid in w.signed
    && w' == w.(leaving := w.leaving[q := Verified(sid)])
  }

  /** It reads the clock: the first horizon is a whole session from now. */
  ghost predicate HorizonStep(w: World, w': World, q: nat) {
    && q in w.leaving && w.leaving[q].Verified?
    && w' == w.(leaving := w.leaving[q := Revoking(w.leaving[q].sid, w.now.Floor + OP_SESSION_TTL, false)])
  }

  ghost predicate TtlStep(w: World, w': World, q: nat) {
    && q in w.leaving && w.leaving[q].Revoking?
    && var Revoking(sid, horizon, last) := w.leaving[q];
       w' == w.(leaving := w.leaving[q := Writing(sid, MarkTtl(w.now, horizon), last)])
  }

  /** The mark is written; the second horizon is the expiry of the cookie. */
  ghost predicate WriteStep(w: World, w': World, q: nat) {
    && q in w.leaving && w.leaving[q].Writing? && w.leaving[q].sid in w.signed
    && var Writing(sid, ttl, last) := w.leaving[q];
       w' == w.(marks := w.marks[sid := Entry((), w.now + ttl as real)],
                leaving := if last then w.leaving - {q}
                           else w.leaving[q := Revoking(sid, w.signed[sid].exp, true)])
  }

  ghost predicate BeginStep(w: World, w': World, p: nat, user: string, sid: string) {
    && w.now >= 0.0 && sid !in w.signed && !At(w, p)
    && var exp := w.now.Floor + OP_SESSION_TTL;
       w' == w.(signed := w.signed[sid := Issue(user, exp)],
                procs := w.procs[p := Minting(user, sid, exp, Signed)])
  }

  /** The cut was read between the expiry and this call; the keys are those alive
      as the call runs. */
  ghost predicate ListStep(w: World, w': World, p: nat, cut: int, keys: seq<Key>) {
    && At(w, p) && w.procs[p].stage.Signed? && w.procs[p].exp - OP_SESSION_TTL <= cut <= w.now.Floor
    && (forall k :: k in keys <==> Holds(w.index, k, w.now)) && Distinct(keys)
    && w' == Goes(w, p, Scanning(cut, keys, []), w.index, w.marks)
  }

  ghost predicate GetStep(w: World, w': World, p: nat) {
    && At(w, p) && w.procs[p].stage.Scanning? && w.procs[p].stage.todo != []
    && var Scanning(cut, todo, active) := w.procs[p].stage;
       var k, rest := todo[0], todo[1..];
       var alive := Holds(w.index, k, w.now);
       var v := if alive then w.index[k].value else Number(0);
       var stage :=
         if v.Junk? || v.n <= cut then Pruning(cut, k, rest, active)
         else if k.user == w.procs[p].user then Scanning(cut, rest, active + [(v.n, k.sid)])
         else Scanning(cut, rest, active);
       w' == Goes(w, p, stage, if alive then w.index else w.index - {k}, w.marks)
  }

  ghost predicate PruneStep(w: World, w': World, p: nat) {
    && At(w, p) && w.procs[p].stage.Pruning?
    && var Pruning(cut, key, todo, active) := w.procs[p].stage;
       w' == Goes(w, p, Scanning(cut, todo, active), w.index - {key}, w.marks)
  }

  ghost predicate ScanEndsStep(w: World, w': World, p: nat) {
    && At(w, p) && w.procs[p].stage.Scanning? && w.procs[p].stage.todo == []
    && w' == Goes(w, p, Evicting(w.procs[p].stage.active), w.index, w.marks)
  }

  ghost predicate ChooseStep(w: World, w': World, p: nat, victim: nat) {
    && At(w, p) && w.procs[p].stage.Evicting?
    && var active := w.procs[p].stage.active;
       && |active| >= MAX_PER_USER && victim < |active|
       && (forall j :: 0 <= j < |active| && j != victim ==>
             Before(active[victim].0, active[victim].1, active[j].0, active[j].1))
       && w' == Goes(w, p, Marking(active, victim, MarkTtl(w.now, active[victim].0)), w.index, w.marks)
  }

  /** The victim is the session that expires first, by id among equals. */
  lemma ChooseEarliest(w: World, w': World, p: nat, victim: nat, j: nat)
    requires ChooseStep(w, w', p, victim) && j < |w.procs[p].stage.active| && j != victim
    ensures var active := w.procs[p].stage.active;
      victim < |active|
      && (active[victim].0 < active[j].0
          || (active[victim].0 == active[j].0 && LexLess(active[victim].1, active[j].1)))
  {}

  ghost predicate MarkStep(w: World, w': World, p: nat) {
    && At(w, p) && w.procs[p].stage.Marking? && w.procs[p].stage.victim < |w.procs[p].stage.active|
    && var Marking(active, victim, ttl) := w.procs[p].stage;
       w' == Goes(w, p, Unlisting(active, victim), w.index,
                  w.marks[active[victim].1 := Entry((), w.now + ttl as real)])
  }

  ghost predicate UnlistStep(w: World, w': World, p: nat) {
    && At(w, p) && w.procs[p].stage.Unlisting? && w.procs[p].stage.victim < |w.procs[p].stage.active|
    && var Unlisting(active, victim) := w.procs[p].stage;
       w' == Goes(w, p, Evicting(active[..victim] + active[victim + 1..]),
                  w.index - {Key(w.procs[p].user, active[victim].1)}, w.marks)
  }

  ghost predicate InsertStep(w: World, w': World, p: nat) {
    && At(w, p) && w.procs[p].stage.Evicting? && |w.procs[p].stage.active| < MAX_PER_USER
    && var c := w.procs[p];
       w' == w.(index := w.index[Key(c.user, c.sid) := Entry(Number(c.exp), w.now + OP_SESSION_TTL as real)],
                procs := w.procs[p := Resting])
  }

  ghost predicate Next(w: World, call: Call, w': World) {
    match call
    case Tick => TickStep(w, w')
    case GateCall(q, sid) => GateStep(w, w', q, sid)
    case HorizonCall(q) => HorizonStep(w, w', q)
    case TtlCall(q) => TtlStep(w, w', q)
    case WriteCall(q) => WriteStep(w, w', q)
    case Begin(p, user, sid) => BeginStep(w, w', p, user, sid)
    case ListCall(p, cut, keys) => ListStep(w, w', p, cut, keys)
    case GetCall(p) => GetStep(w, w', p)
    case PruneCall(p) => PruneStep(w, w', p)
    case ScanEnds(p) => ScanEndsStep(w, w', p)
    case Choose(p, victim) => ChooseStep(w, w', p, victim)
    case MarkCall(p) => MarkStep(w, w', p)
    case UnlistCall(p) => UnlistStep(w, w', p)
    case InsertCall(p) => InsertStep(w, w', p)
  }

  ghost predicate Init(w: World) {
    w.now >= 0.0 && w.index == map[] && w.marks == map[] && w.signed == map[] && w.procs == map[] && w.leaving == map[]
  }

  ghost predicate StepAt(worlds: seq<World>, calls: seq<Call>, i: nat)
    requires |worlds| == |calls| + 1 && i < |calls|
  {
    Next(worlds[i], calls[i], worlds[i + 1])
  }

  ghost predicate Run(worlds: seq<World>, calls: seq<Call>) {
    && |worlds| == |calls| + 1
    && Init(worlds[0])
    && (forall i :: 0 <= i < |calls| ==> StepAt(worlds, calls, i))
  }

  // ----- what every call keeps -------------------------------------------

  ghost predicate Marked(w: World, sid: string, exp: int) {
    sid in w.marks && exp as real <= w.marks[sid].expires
  }

  /** A key that was listed: its cookie is out, and will not be listed again. */
  ghost predicate Listed(w: World, k: Key) {
    k.sid in w.signed && w.signed[k.sid].user == k.user && !InFlight(w, k.sid)
  }

  ghost predicate ActiveOk(w: World, user: string, active: seq<Active>) {
    forall i :: 0 <= i < |active| ==>
      Listed(w, Key(user, active[i].1)) && w.signed[active[i].1].exp == active[i].0
  }

  ghost predicate TodoOk(w: World, todo: seq<Key>) {
    forall i :: 0 <= i < |todo| ==> Listed(w, todo[i])
  }

  ghost predicate Expired(w: World, sid: string)
    requires sid in w.signed
  {
    w.signed[sid].exp as real <= w.now
  }

  ghost predicate OwnOk(w: World, c: Proc)
    requires c.Minting?
  {
    && c.sid in w.signed && w.signed[c.sid] == Issue(c.user, c.exp)
    && OP_SESSION_TTL <= c.exp <= w.now.Floor + OP_SESSION_TTL
  }

  ghost predicate StageOk(w: World, user: string, stage: Stage) {
    match stage
    case Signed => true
    case Scanning(cut, todo, active) => 0 <= cut <= w.now.Floor && TodoOk(w, todo) && ActiveOk(w, user, active)
    case Pruning(cut, key, todo, active) =>
      && 0 <= cut <= w.now.Floor && TodoOk(w, todo) && ActiveOk(w, user, active)
      && Listed(w, key) && (key in w.index ==> Expired(w, key.sid))
    case Evicting(active) => ActiveOk(w, user, active)
    case Marking(active, victim, ttl) =>
      && ActiveOk(w, user, active) && victim < |active| && active[victim].0 as real <= w.now + ttl as real
    case Unlisting(active, victim) =>
      && ActiveOk(w, user, active) && victim < |active|
      && (Marked(w, active[victim].1, active[victim].0) || Expired(w, active[victim].1))
  }

  ghost predicate ProcsOk(w: World) {
    && (forall p :: At(w, p) ==> OwnOk(w, w.procs[p]))
    && (forall p :: At(w, p) ==> StageOk(w, w.procs[p].user, w.procs[p].stage))
    && (forall p, q :: At(w, p) && At(w, q) && p != q ==> w.procs[p].sid != w.procs[q].sid)
  }

  ghost predicate IndexOk(w: World) {
    forall k :: k in w.index ==>
      && Listed(w, k) && w.index[k].value == Number(w.signed[k.sid].exp)
      && w.signed[k.sid].exp as real <= w.index[k].expires
  }

  /** A signed cookie in date is in flight, listed, or marked for its whole life. */
  ghost predicate InView(w: World, sid: string)
    requires sid in w.signed
  {
    || Expired(w, sid)
    || InFlight(w, sid)
    || Key(w.signed[sid].user, sid) in w.index
    || Marked(w, sid, w.signed[sid].exp)
  }

  ghost predicate AllInView(w: World) {
    forall sid :: sid in w.signed ==> InView(w, sid)
  }

  /** The revocations under way reach the expiry of their cookies. */
  ghost predicate LeavingOk(w: World, l: Leaving) {
    l.sid in w.signed
    && match l
       case Verified(_) => true
       case Revoking(sid, horizon, _) => w.signed[sid].exp <= horizon
       case Writing(sid, ttl, _) => w.signed[sid].exp as real <= w.now + ttl as real
  }

  ghost predicate LogoutsOk(w: World) {
    && (forall sid :: sid in w.signed ==> w.signed[sid].exp <= w.now.Floor + OP_SESSION_TTL)
    && (forall q :: q in w.leaving ==> LeavingOk(w, w.leaving[q]))
    && w.marks.Keys <= w.signed.Keys
  }

  ghost predicate MintsOk(w: World) { ProcsOk(w) && IndexOk(w) && AllInView(w) }

  ghost predicate Inv(w: World) { MintsOk(w) && LogoutsOk(w) }

  /** What one process may do to what the others rely on. */
  ghost predicate Grows(w: World, w': World) {
    && w.now <= w'.now
    && (forall x :: x in w.signed ==> x in w'.signed && w'.signed[x] == w.signed[x])
    && (forall x :: x in w.signed && InFlight(w', x) ==> InFlight(w, x))
    && (forall k :: k in w'.index && k !in w.index ==> InFlight(w, k.sid))
    && (forall x :: x in w.signed && Marked(w, x, w.signed[x].exp) && !Expired(w', x) ==>
          Marked(w', x, w.signed[x].exp))
  }

  lemma ListedStays(w: World, w': World, k: Key)
    requires Grows(w, w') && Listed(w, k)
    ensures Listed(w', k)
  {}

  lemma ActiveStays(w: World, w': World, user: string, active: seq<Active>)
    requires Grows(w, w') && ActiveOk(w, user, active)
    ensures ActiveOk(w', user, active)
  {}

  lemma TodoStays(w: World, w': World, todo: seq<Key>)
    requires Grows(w, w') && TodoOk(w, todo)
    ensures TodoOk(w', todo)
  {}

  lemma StageStays(w: World, w': World, user: string, stage: Stage)
    requires Grows(w, w') && StageOk(w, user, stage)
    ensures StageOk(w', user, stage)
  {}

  lemma OthersStay(w: World, w': World, p: nat)
    requires ProcsOk(w) && Grows(w, w') && At(w, p) && At(w', p) && w'.procs[p] == w.procs[p]
    ensures OwnOk(w', w'.procs[p]) && StageOk(w', w'.procs[p].user, w'.procs[p].stage)
  {
    FloorMonotone(w.now, w'.now);
    StageStays(w, w', w.procs[p].user, w.procs[p].stage);
  }

  /** A process that moves on, keeping its cookie in flight. */
  ghost predicate Moves(w: World, w': World, p: nat) {
    && At(w, p) && At(w', p) && w'.now == w.now && w'.signed == w.signed
    && w'.procs == w.procs[p := w.procs[p].(stage := w'.procs[p].stage)]
  }

  lemma MovesKeepsFlight(w: World, w': World, p: nat, x: string)
    requires Moves(w, w', p)
    ensures InFlight(w', x) <==> InFlight(w, x)
  {
    if InFlight(w, x) {
      var q :| q in w.procs && w.procs[q].Minting? && w.procs[q].sid == x;
      assert q in w'.procs && w'.procs[q].Minting? && w'.procs[q].sid == x;
    }
    if InFlight(w', x) {
      var q :| q in w'.procs && w'.procs[q].Minting? && w'.procs[q].sid == x;
      assert q in w.procs && w.procs[q].Minting? && w.procs[q].sid == x;
    }
  }

  lemma MovesKeepsProcs(w: World, w': World, p: nat)
    requires ProcsOk(w) && Moves(w, w', p) && Grows(w, w')
    requires StageOk(w', w'.procs[p].user, w'.procs[p].stage)
    ensures ProcsOk(w')
  {
    forall q | At(w', q) && q != p
      ensures OwnOk(w', w'.procs[q]) && StageOk(w', w'.procs[q].user, w'.procs[q].stage)
    {
      OthersStay(w, w', q);
    }
  }

  /** A call by `p` that only shrinks the index, and drops only what need not be
      there, keeps all that the other processes rely on. */
  lemma MoveGrows(w: World, w': World, p: nat)
    requires Moves(w, w', p)
    requires forall k :: k in w'.index ==> k in w.index && w'.index[k] == w.index[k]
    requires forall x :: x in w.signed && Marked(w, x, w.signed[x].exp) ==> Marked(w', x, w.signed[x].exp)
    ensures Grows(w, w')
  {}

  lemma MoveKeeps(w: World, w': World, p: nat)
    requires MintsOk(w) && Moves(w, w', p) && Grows(w, w')
    requires forall k :: k in w'.index ==> k in w.index && w'.index[k] == w.index[k]
    requires forall k :: k in w.index && k !in w'.index ==>
               Expired(w, k.sid) || Marked(w, k.sid, w.signed[k.sid].exp)
    requires StageOk(w', w'.procs[p].user, w'.procs[p].stage)
    ensures MintsOk(w')
  {
    MovesKeepsProcs(w, w', p);
    forall k | k in w'.index ensures Listed(w', k) { ListedStays(w, w', k); }
    forall x | x in w'.signed ensures InView(w', x) {
      assert InView(w, x);
      MovesKeepsFlight(w, w', p, x);
    }
  }

  lemma ListKeeps(w: World, w': World, p: nat, cut: int, keys: seq<Key>)
    requires MintsOk(w) && ListStep(w, w', p, cut, keys)
    ensures MintsOk(w')
  {
    MoveGrows(w, w', p);
    forall i | 0 <= i < |keys| ensures Listed(w', keys[i]) {
      assert keys[i] in keys;
      ListedStays(w, w', keys[i]);
    }
    MoveKeeps(w, w', p);
  }

  lemma GetKeeps(w: World, w': World, p: nat)
    requires MintsOk(w) && GetStep(w, w', p)
    ensures MintsOk(w')
  {
    var Scanning(cut, todo, active) := w.procs[p].stage;
    var k := todo[0];
    MoveGrows(w, w', p);
    assert k == Key(k.user, k.sid) && Listed(w, k);
    ListedStays(w, w', k);
    TodoStays(w, w', todo);
    ActiveStays(w, w', w.procs[p].user, active);
    if Holds(w.index, k, w.now) && w.index[k].value.n > cut && k.user == w.procs[p].user {
      ActiveMore(w', k.user, active, w.index[k].value.n, k.sid);
    }
    MoveKeeps(w, w', p);
  }

  lemma ActiveMore(w: World, user: string, active: seq<Active>, exp: int, sid: string)
    requires ActiveOk(w, user, active) && Listed(w, Key(user, sid)) && w.signed[sid].exp == exp
    ensures ActiveOk(w, user, active + [(exp, sid)])
  {}

  lemma PruneKeeps(w: World, w': World, p: nat)
    requires MintsOk(w) && PruneStep(w, w', p)
    ensures MintsOk(w')
  {
    var stage := w.procs[p].stage;
    MoveGrows(w, w', p);
    TodoStays(w, w', stage.todo);
    ActiveStays(w, w', w.procs[p].user, stage.active);
    MoveKeeps(w, w', p);
  }

  lemma EvictionKeeps(w: World, w': World, call: Call)
    requires MintsOk(w) && Next(w, call, w') && (call.ScanEnds? || call.Choose?)
    ensures MintsOk(w')
  {
    MoveGrows(w, w', call.p);
    ActiveStays(w, w', w.procs[call.p].user, w.procs[call.p].stage.active);
    MoveKeeps(w, w', call.p);
  }

  lemma MarkKeeps(w: World, w': World, p: nat)
    requires MintsOk(w) && MarkStep(w, w', p)
    ensures MintsOk(w')
  {
    var stage := w.procs[p].stage;
    assert Listed(w, Key(w.procs[p].user, stage.active[stage.victim].1));
    MoveGrows(w, w', p);
    ActiveStays(w, w', w.procs[p].user, stage.active);
    MoveKeeps(w, w', p);
  }

  lemma UnlistKeeps(w: World, w': World, p: nat)
    requires MintsOk(w) && UnlistStep(w, w', p)
    ensures MintsOk(w')
  {
    var stage := w.procs[p].stage;
    assert Listed(w, Key(w.procs[p].user, stage.active[stage.victim].1));
    MoveGrows(w, w', p);
    ActiveStays(w, w', w.procs[p].user, stage.active);
    MoveKeeps(w, w', p);
  }

  /** A step that leaves every process where it is. */
  lemma QuietKeeps(w: World, w': World)
    requires MintsOk(w) && Grows(w, w') && w'.signed == w.signed && w'.procs == w.procs
    requires forall k :: k in w'.index ==> k in w.index && w'.index[k] == w.index[k]
    requires forall k :: k in w.index && k !in w'.index ==> Expired(w', k.sid)
    ensures MintsOk(w')
  {
    forall x ensures InFlight(w', x) <==> InFlight(w, x) {}
    forall p | At(w', p)
      ensures OwnOk(w', w'.procs[p]) && StageOk(w', w'.procs[p].user, w'.procs[p].stage)
    {
      assert At(w, p);
      OthersStay(w, w', p);
    }
    forall p, q | At(w', p) && At(w', q) && p != q ensures w'.procs[p].sid != w'.procs[q].sid {
      assert At(w, p) && At(w, q);
    }
    forall x | x in w'.signed ensures InView(w', x) { assert InView(w, x); }
  }

  lemma TickKeeps(w: World, w': World)
    requires MintsOk(w) && TickStep(w, w')
    ensures MintsOk(w')
  {
    forall x ensures InFlight(w', x) <==> InFlight(w, x) {}
    QuietKeeps(w, w');
  }

  ghost predicate OfLogout(call: Call) { call.GateCall? || call.HorizonCall? || call.TtlCall? || call.WriteCall? }

  lemma LogoutKeeps(w: World, call: Call, w': World)
    requires Inv(w) && OfLogout(call) && Next(w, call, w')
    ensures MintsOk(w')
  {
    LogoutGrows(w, call, w');
    QuietKeeps(w, w');
  }

  lemma LogoutGrows(w: World, call: Call, w': World)
    requires LogoutsOk(w) && OfLogout(call) && Next(w, call, w')
    ensures Grows(w, w') && w'.signed == w.signed && w'.procs == w.procs && w'.index == w.index
  {
    forall x ensures InFlight(w', x) <==> InFlight(w, x) {}
    assert !call.GateCall? ==> LeavingOk(w, w.leaving[call.q]);
  }

  /** A logout marks its session for life, twice. */
  lemma LogoutReaches(w: World, call: Call, w': World)
    requires LogoutsOk(w) && OfLogout(call) && Next(w, call, w')
    ensures LogoutsOk(w')
  {
    assert !call.GateCall? ==> LeavingOk(w, w.leaving[call.q]);
    if call.TtlCall? { MarkReaches(w.now, w.leaving[call.q].horizon, w.signed[w.leaving[call.q].sid].exp); }
    forall q | q in w'.leaving ensures LeavingOk(w', w'.leaving[q]) {
      if q != call.q { assert LeavingOk(w, w.leaving[q]); }
    }
  }

  /** The other calls leave the logouts under way as they are. */
  lemma MintLeavesLogouts(w: World, call: Call, w': World)
    requires ProcsOk(w) && LogoutsOk(w) && !OfLogout(call) && Next(w, call, w')
    ensures LogoutsOk(w')
  {
    FloorMonotone(w.now, w'.now);
    forall q | q in w'.leaving ensures LeavingOk(w', w'.leaving[q]) { assert LeavingOk(w, w.leaving[q]); }
    if call.MarkCall? {
      var stage := w.procs[call.p].stage;
      assert Listed(w, Key(w.procs[call.p].user, stage.active[stage.victim].1));
    }
  }

  lemma BeginKeeps(w: World, w': World, p: nat, user: string, sid: string)
    requires MintsOk(w) && BeginStep(w, w', p, user, sid)
    ensures MintsOk(w')
  {
    BeginFlight(w, w', p, user, sid);
    assert At(w', p);
    forall q | At(w', q) && q != p
      ensures OwnOk(w', w'.procs[q]) && StageOk(w', w'.procs[q].user, w'.procs[q].stage)
    {
      assert At(w, q);
      OthersStay(w, w', q);
    }
    forall q, r | At(w', q) && At(w', r) && q != r ensures w'.procs[q].sid != w'.procs[r].sid {
      assert (q == p || At(w, q)) && (r == p || At(w, r));
    }
    forall k | k in w'.index ensures Listed(w', k) { ListedStays(w, w', k); }
    forall x | x in w'.signed ensures InView(w', x) {
      if x != sid { assert InView(w, x); }
    }
  }

  lemma BeginFlight(w: World, w': World, p: nat, user: string, sid: string)
    requires BeginStep(w, w', p, user, sid)
    ensures forall x :: x in w.signed ==> (InFlight(w', x) <==> InFlight(w, x))
    ensures InFlight(w', sid) && Grows(w, w')
  {
    assert w'.procs[p].sid == sid;
    forall x | x in w.signed ensures InFlight(w', x) <==> InFlight(w, x) {
      if InFlight(w, x) {
        var q :| q in w.procs && w.procs[q].Minting? && w.procs[q].sid == x;
        assert q in w'.procs && w'.procs[q].Minting? && w'.procs[q].sid == x;
      }
    }
  }

  lemma InsertFlight(w: World, w': World, p: nat)
    requires ProcsOk(w) && InsertStep(w, w', p)
    ensures forall x :: InFlight(w', x) <==> InFlight(w, x) && x != w.procs[p].sid
    ensures Grows(w, w')
  {
    var c := w.procs[p];
    assert At(w, p);
    forall x ensures InFlight(w', x) <==> InFlight(w, x) && x != c.sid {
      if InFlight(w, x) && x != c.sid {
        var q :| q in w.procs && w.procs[q].Minting? && w.procs[q].sid == x;
        assert q in w'.procs && w'.procs[q].Minting? && w'.procs[q].sid == x;
      }
      if InFlight(w', x) {
        var q :| q in w'.procs && w'.procs[q].Minting? && w'.procs[q].sid == x;
        assert At(w, q) && q != p;
      }
    }
  }

  lemma InsertKeepsProcs(w: World, w': World, p: nat)
    requires ProcsOk(w) && InsertStep(w, w', p)
    ensures ProcsOk(w')
  {
    InsertFlight(w, w', p);
    forall q | At(w', q)
      ensures OwnOk(w', w'.procs[q]) && StageOk(w', w'.procs[q].user, w'.procs[q].stage)
    {
      assert At(w, q);
      OthersStay(w, w', q);
    }
    forall q, r | At(w', q) && At(w', r) && q != r ensures w'.procs[q].sid != w'.procs[r].sid {
      assert At(w, q) && At(w, r);
    }
  }

  lemma InsertKeeps(w: World, w': World, p: nat)
    requires MintsOk(w) && InsertStep(w, w', p)
    ensures MintsOk(w')
  {
    InsertKeepsProcs(w, w', p);
    InsertFlight(w, w', p);
    assert OwnOk(w, w.procs[p]);
    forall k | k in w'.index ensures Listed(w', k) {
      if k in w.index { ListedStays(w, w', k); }
    }
    forall x | x in w'.signed ensures InView(w', x) { assert InView(w, x); }
  }

  lemma CallKeeps(w: World, call: Call, w': World)
    requires Inv(w) && Next(w, call, w')
    ensures Inv(w')
  {
    if OfLogout(call) { LogoutReaches(w, call, w'); } else { MintLeavesLogouts(w, call, w'); }
    match call
    case Tick => TickKeeps(w, w');
    case GateCall(_, _) => LogoutKeeps(w, call, w');
    case HorizonCall(_) => LogoutKeeps(w, call, w');
    case TtlCall(_) => LogoutKeeps(w, call, w');
    case WriteCall(_) => LogoutKeeps(w, call, w');
    case Begin(p, user, sid) => BeginKeeps(w, w', p, user, sid);
    case ListCall(p, cut, keys) => ListKeeps(w, w', p, cut, keys);
    case GetCall(p) => GetKeeps(w, w', p);
    case PruneCall(p) => PruneKeeps(w, w', p);
    case ScanEnds(_) => EvictionKeeps(w, w', call);
    case Choose(_, _) => EvictionKeeps(w, w', call);
    case MarkCall(p) => MarkKeeps(w, w', p);
    case UnlistCall(p) => UnlistKeeps(w, w', p);
    case InsertCall(p) => InsertKeeps(w, w', p);
  }

  lemma {:induction false} RunKeeps(worlds: seq<World>, calls: seq<Call>, i: nat)
    requires Run(worlds, calls) && i < |worlds|
    ensures Inv(worlds[i])
  {
    if i > 0 {
      RunKeeps(worlds, calls, i - 1);
      assert StepAt(worlds, calls, i - 1);
      CallKeeps(worlds[i - 1], calls[i - 1], worlds[i]);
    }
  }

  // ----- what it is for --------------------------------------------------

  /** However mints and logouts interleave, no cookie in date is ever out of view:
      it is still in flight, or listed, or marked for the rest of its life. */
  lemma NoCookieLost(worlds: seq<World>, calls: seq<Call>, i: nat, sid: string)
    requires Run(worlds, calls) && i < |worlds|
    requires sid in worlds[i].signed && worlds[i].now < worlds[i].signed[sid].exp as real
    ensures var w := worlds[i];
            InFlight(w, sid) || Key(w.signed[sid].user, sid) in w.index || Marked(w, sid, w.signed[sid].exp)
  {
    RunKeeps(worlds, calls, i);
    assert InView(worlds[i], sid);
  }

  /** What the requests see of a world: the cookies handed out. */
  ghost function Seen(w: World, epochs: map<string, Entry<real>>): State {
    State(w.now, w.index, w.marks, epochs,
          map sid | sid in w.signed && !InFlight(w, sid) :: w.signed[sid])
  }

  lemma SeenCovered(w: World, epochs: map<string, Entry<real>>, user: string)
    requires IndexOk(w) && AllInView(w)
    ensures IndexSound(Seen(w, epochs)) && CoveredFor(Seen(w, epochs), user)
  {
    var s := Seen(w, epochs);
    forall sid | sid in s.issued && s.issued[sid].user == user ensures Covered(s, sid, s.issued[sid]) {
      assert InView(w, sid);
    }
    forall k | k in s.index ensures k.sid in s.issued { assert Listed(w, k); }
  }

  /** Interleaved mints can overshoot the cap (OpSessionBound says by how much);
      the next mint that runs undisturbed brings its user back to ten cookies. */
  lemma UndisturbedMintRestoresCap(worlds: seq<World>, calls: seq<Call>, i: nat,
                                   epochs: map<string, Entry<real>>, ev: Event, s': State)
    requires Run(worlds, calls) && i < |worlds| && ev.MintEvent?
    requires OpSessions.Next(Seen(worlds[i], epochs), ev, s')
    ensures |AcceptedSids(s', ev.user)| <= MAX_PER_USER
  {
    RunKeeps(worlds, calls, i);
    SeenCovered(worlds[i], epochs, ev.user);
    MintRestoresCap(Seen(worlds[i], epochs), ev, s');
  }
}
