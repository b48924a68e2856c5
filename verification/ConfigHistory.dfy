/** The history of the env files: bounded snapshots, and rollback. */
module ConfigHistory {
  import opened Text
  import opened Bytes

  type Blob = seq<Byte>
  type Digest = Blob -> string

  const KEEP: nat := 50

  /** A snapshot and its sidecar's restore target. */
  datatype Snap = Snap(data: Blob, source: string)

  /** The history directory by snapshot id, and the files on disk. */
  datatype State = State(dir: map<string, Snap>, files: map<string, Blob>)

  datatype Error = UnknownSnapshot | NoValidTarget

  /** `f"{int(time.time() * 1000)}_{digest}"` */
  function SnapshotId(ms: nat, digest: string): string { Decimal(ms) + "_" + digest }

  // ----- rotation --------------------------------------------------------

  function Later(ids: set<string>, id: string): set<string> {
    set y | y in ids && LexLess(id, y)
  }

  /** The ids that fewer than 50 others follow in the order of `sort`. */
  function Kept(ids: set<string>): set<string> {
    set x | x in ids && |Later(ids, x)| < KEEP
  }

  /** `_rotate` */
  function Rotated(dir: map<string, Snap>): map<string, Snap> {
    map id | id in dir && id in Kept(dir.Keys) :: dir[id]
  }

  ghost predicate Descending(ids: seq<string>) {
    forall i, j :: 0 <= i < j < |ids| ==> LexLess(ids[j], ids[i])
  }

  function Elements(ids: seq<string>): set<string> { set i | 0 <= i < |ids| :: ids[i] }

  function First(n: nat, ids: seq<string>): seq<string> { if |ids| <= n then ids else ids[..n] }

  lemma {:induction false} CountElements(ids: seq<string>)
    requires Descending(ids)
    ensures |Elements(ids)| == |ids|
  {
    if ids != [] {
      var n := |ids| - 1;
      CountElements(ids[..n]);
      forall i | 0 <= i < n ensures ids[i] != ids[n] { LexIrreflexive(ids[n]); }
      assert Elements(ids) == Elements(ids[..n]) + {ids[n]};
    }
  }

  /** In a descending list, an element's place is the number of later ids. */
  lemma PlaceCountsLater(ids: seq<string>, i: nat)
    requires Descending(ids) && i < |ids|
    ensures |Later(Elements(ids), ids[i])| == i
  {
    forall j | i <= j < |ids| ensures !LexLess(ids[i], ids[j]) {
      LexIrreflexive(ids[i]);
      if j > i && LexLess(ids[i], ids[j]) { LexTransitive(ids[i], ids[j], ids[i]); }
    }
    assert Later(Elements(ids), ids[i]) == Elements(ids[..i]);
    CountElements(ids[..i]);
  }

  /** Of a descending list, the first 50 are kept. */
  lemma KeptIsFirst(ids: seq<string>)
    requires Descending(ids)
    ensures Kept(Elements(ids)) == Elements(First(KEEP, ids))
  {
    forall i | 0 <= i < |ids| ensures ids[i] in Kept(Elements(ids)) <==> i < KEEP {
      PlaceCountsLater(ids, i);
    }
    assert forall x :: x in Elements(First(KEEP, ids)) <==> exists i :: 0 <= i < |ids| && i < KEEP && ids[i] == x;
    forall x | x in Kept(Elements(ids)) ensures x in Elements(First(KEEP, ids)) {
      var i :| 0 <= i < |ids| && ids[i] == x;
    }
  }

  // ----- snapshot and rollback -------------------------------------------

  /** `snapshot(path)` at a given clock reading. */
  function Taken(s: State, path: string, ms: nat, digest: Digest): State {
    if path !in s.files then s
    else s.(dir := Rotated(s.dir[SnapshotId(ms, digest(s.files[path])) := Snap(s.files[path], path)]))
  }

  /** `rollback(id)`: the snapshot is read, the live file is snapshotted (which
      may rotate out the very snapshot being restored), then written. */
  function RolledBack(s: State, id: string, targets: set<string>, ms: nat, digest: Digest): Result<State, Error> {
    if id !in s.dir then Err(UnknownSnapshot)
    else if s.dir[id].source !in targets then Err(NoValidTarget)
    else
      var snap := s.dir[id];
      var t := Taken(s, snap.source, ms, digest);
      Ok(t.(files := t.files[snap.source := snap.data]))
  }

  /** A rollback is refused for an unknown id and for a source that is no target, with
      nothing changed; it restores the snapshot's bytes to its source and leaves
      every other file. */
  lemma RolledBackExactly(s: State, id: string, targets: set<string>, ms: nat, digest: Digest)
    ensures var r := RolledBack(s, id, targets, ms, digest);
      && (id !in s.dir ==> r == Err(UnknownSnapshot))
      && (id in s.dir && s.dir[id].source !in targets ==> r == Err(NoValidTarget))
      && (id in s.dir && s.dir[id].source in targets ==>
            r.Ok? && r.value.files == s.files[s.dir[id].source := s.dir[id].data]
            && r.value.dir == Taken(s, s.dir[id].source, ms, digest).dir)
  {}

  // ----- runs ------------------------------------------------------------

  datatype Event =
    | Write(path: string, data: Blob)
    | Remove(path: string)
    | Snapshot(path: string, ms: nat)
    | Rollback(id: string, ms: nat)

  /** One snapshot as it was taken. */
  datatype Record = Record(ms: nat, snap: Snap)

  function IdOf(r: Record, digest: Digest): string { SnapshotId(r.ms, digest(r.snap.data)) }

  /** A run: the state, the last clock reading used, and every snapshot that was
      ever taken, newest first. */
  datatype History = History(s: State, clock: nat, log: seq<Record>)

  function Logged(h: History, path: string, ms: nat): seq<Record> {
    if path in h.s.files then [Record(ms, Snap(h.s.files[path], path))] + h.log else h.log
  }

  function Step(h: History, ev: Event, targets: set<string>, digest: Digest): History {
    match ev
    case Write(path, data) => h.(s := h.s.(files := h.s.files[path := data]))
    case Remove(path) => h.(s := h.s.(files := h.s.files - {path}))
    case Snapshot(path, ms) => History(Taken(h.s, path, ms, digest), ms, Logged(h, path, ms))
    case Rollback(id, ms) =>
      match RolledBack(h.s, id, targets, ms, digest)
      case Err(_) => h
      case Ok(t) => History(t, ms, Logged(h, h.s.dir[id].source, ms))
  }

  /** Clock readings that print with equally many digits, as all milliseconds of
      the years 2001 to 2286 do. */
  predicate SameEra(a: nat, b: nat) { |Decimal(a)| == |Decimal(b)| }

  predicate InEra(log: seq<Record>, ms: nat) { forall i :: 0 <= i < |log| ==> SameEra(log[i].ms, ms) }

  /** The clock moves on between two uses, and gains no digit. */
  predicate Timely(h: History, ev: Event) {
    ev.Snapshot? || ev.Rollback? ==> h.clock < ev.ms && InEra(h.log, ev.ms)
  }

  function Steps(h: History, events: seq<Event>, targets: set<string>, digest: Digest): History
    decreases |events|
  {
    if events == [] then h else Steps(Step(h, events[0], targets, digest), events[1..], targets, digest)
  }

  predicate AllTimely(h: History, events: seq<Event>, targets: set<string>, digest: Digest)
    decreases |events|
  {
    events == [] || (Timely(h, events[0])
                     && AllTimely(Step(h, events[0], targets, digest), events[1..], targets, digest))
  }

  function Start(files: map<string, Blob>): History { History(State(map[], files), 0, []) }

  /** The directory that holds just these records. */
  function DirOf(log: seq<Record>, digest: Digest): map<string, Snap> {
    if log == [] then map[] else DirOf(log[1..], digest)[IdOf(log[0], digest) := log[0].snap]
  }

  function Ids(log: seq<Record>, digest: Digest): seq<string> {
    seq(|log|, i requires 0 <= i < |log| => IdOf(log[i], digest))
  }

  function Newest(log: seq<Record>): seq<Record> { if |log| <= KEEP then log else log[..KEEP] }

  ghost predicate LogOk(log: seq<Record>, clock: nat) {
    && (forall i :: 0 <= i < |log| ==> log[i].ms <= clock)
    && (forall i, j :: 0 <= i < j < |log| ==> log[j].ms < log[i].ms && SameEra(log[j].ms, log[i].ms))
  }

  /** At every point the directory holds the newest snapshots, 50 at most. */
  ghost predicate Inv(h: History, digest: Digest) {
    LogOk(h.log, h.clock) && h.s.dir == DirOf(Newest(h.log), digest)
  }

  /** Readings of equally many digits sort as their clock readings do, by id. */
  lemma IdOrder(a: Record, b: Record, digest: Digest)
    requires SameEra(a.ms, b.ms) && a.ms < b.ms
    ensures LexLess(IdOf(a, digest), IdOf(b, digest))
  {
    DecimalOrder(a.ms, b.ms);
    LexExtend(Decimal(a.ms), Decimal(b.ms), "_" + digest(a.snap.data), "_" + digest(b.snap.data));
    assert Decimal(a.ms) + "_" + digest(a.snap.data) == Decimal(a.ms) + ("_" + digest(a.snap.data));
    assert Decimal(b.ms) + "_" + digest(b.snap.data) == Decimal(b.ms) + ("_" + digest(b.snap.data));
  }

  /** A reading that gains a digit sorts before the one it follows. */
  lemma IdsTurnWithDigits(k: nat, digest: string, digest': string)
    requires k >= 1
    ensures LexLess(SnapshotId(Pow10(k), digest), SnapshotId(Pow10(k) - 1, digest'))
  {
    FirstDigits(k);
    assert SnapshotId(Pow10(k), digest)[0] == Decimal(Pow10(k))[0];
    assert SnapshotId(Pow10(k) - 1, digest')[0] == Decimal(Pow10(k) - 1)[0];
  }

  lemma {:induction false} FirstDigits(k: nat)
    ensures Decimal(Pow10(k))[0] == '1'
    ensures k >= 1 ==> Decimal(Pow10(k) - 1)[0] == '9'
  {
    if k > 0 {
      FirstDigits(k - 1);
      FirstKept(Pow10(k));
      assert Pow10(k) == 10 * Pow10(k - 1) && Pow10(k) / 10 == Pow10(k - 1);
      if k > 1 {
        Pow10AtLeast(k - 1);
        FirstKept(Pow10(k) - 1);
        assert (Pow10(k) - 1) / 10 == Pow10(k - 1) - 1;
      } else {
        assert Pow10(0) == 1;
      }
    }
  }

  lemma FirstKept(n: nat)
    requires n >= 10
    ensures Decimal(n)[0] == Decimal(n / 10)[0]
  {}

  lemma IdsDescend(log: seq<Record>, clock: nat, digest: Digest)
    requires LogOk(log, clock)
    ensures Descending(Ids(log, digest))
  {
    forall i, j | 0 <= i < j < |log| ensures LexLess(Ids(log, digest)[j], Ids(log, digest)[i]) {
      IdOrder(log[j], log[i], digest);
    }
  }

  lemma {:induction false} DirKeys(log: seq<Record>, digest: Digest)
    ensures DirOf(log, digest).Keys == Elements(Ids(log, digest))
  {
    if log != [] {
      var ids := Ids(log, digest);
      DirKeys(log[1..], digest);
      assert Ids(log[1..], digest) == ids[1..];
      assert Elements(ids) == {ids[0]} + Elements(ids[1..]) by {
        assert forall i :: 1 <= i < |ids| ==> ids[i] == ids[1..][i - 1];
      }
    }
  }

  lemma {:induction false} DirAt(log: seq<Record>, clock: nat, i: nat, digest: Digest)
    requires LogOk(log, clock) && i < |log|
    ensures IdOf(log[i], digest) in DirOf(log, digest)
    ensures DirOf(log, digest)[IdOf(log[i], digest)] == log[i].snap
  {
    if i > 0 {
      DirAt(log[1..], clock, i - 1, digest);
      IdOrder(log[i], log[0], digest);
      LexIrreflexive(IdOf(log[0], digest));
    }
  }

  lemma KeptOfDir(log: seq<Record>, clock: nat, digest: Digest)
    requires LogOk(log, clock)
    ensures Kept(DirOf(log, digest).Keys) == DirOf(Newest(log), digest).Keys
  {
    DirKeys(log, digest);
    DirKeys(Newest(log), digest);
    IdsDescend(log, clock, digest);
    KeptIsFirst(Ids(log, digest));
    assert First(KEEP, Ids(log, digest)) == Ids(Newest(log), digest);
  }

  /** Rotation leaves the newest records. */
  lemma RotatedKeepsNewest(log: seq<Record>, clock: nat, digest: Digest)
    requires LogOk(log, clock)
    ensures Rotated(DirOf(log, digest)) == DirOf(Newest(log), digest)
  {
    var dir, kept := DirOf(log, digest), DirOf(Newest(log), digest);
    KeptOfDir(log, clock, digest);
    forall id | id in kept ensures id in dir && dir[id] == kept[id] {
      NewestAt(log, clock, id, digest);
    }
    assert Rotated(dir).Keys == kept.Keys;
  }

  lemma NewestAt(log: seq<Record>, clock: nat, id: string, digest: Digest)
    requires LogOk(log, clock) && id in DirOf(Newest(log), digest)
    ensures id in DirOf(log, digest) && DirOf(log, digest)[id] == DirOf(Newest(log), digest)[id]
  {
    DirKeys(Newest(log), digest);
    var i :| 0 <= i < |Newest(log)| && Ids(Newest(log), digest)[i] == id;
    assert Newest(log)[i] == log[i];
    DirAt(log, clock, i, digest);
    DirAt(Newest(log), clock, i, digest);
  }

  lemma LoggedOk(log: seq<Record>, clock: nat, r: Record)
    requires LogOk(log, clock) && clock < r.ms && InEra(log, r.ms)
    ensures LogOk([r] + log, r.ms)
  {}

  lemma TakenDir(h: History, r: Record, digest: Digest)
    requires Inv(h, digest) && h.clock < r.ms && InEra(h.log, r.ms)
    ensures Rotated(h.s.dir[IdOf(r, digest) := r.snap]) == DirOf(Newest([r] + h.log), digest)
    ensures IdOf(r, digest) in DirOf(Newest([r] + h.log), digest)
    ensures DirOf(Newest([r] + h.log), digest)[IdOf(r, digest)] == r.snap
  {
    var more := [r] + Newest(h.log);
    assert more[1..] == Newest(h.log);
    NewestOk(h.log, h.clock);
    LoggedOk(Newest(h.log), h.clock, r);
    RotatedKeepsNewest(more, r.ms, digest);
    assert Newest(more) == Newest([r] + h.log);
    NewestOk(more, r.ms);
    DirAt(Newest(more), r.ms, 0, digest);
  }

  lemma NewestOk(log: seq<Record>, clock: nat)
    requires LogOk(log, clock)
    ensures LogOk(Newest(log), clock)
  {}

  lemma TakenKeeps(h: History, path: string, ms: nat, digest: Digest)
    requires Inv(h, digest) && h.clock < ms && InEra(h.log, ms)
    ensures Inv(History(Taken(h.s, path, ms, digest), ms, Logged(h, path, ms)), digest)
    ensures path in h.s.files ==>
      var id := SnapshotId(ms, digest(h.s.files[path]));
      id in Taken(h.s, path, ms, digest).dir && Taken(h.s, path, ms, digest).dir[id] == Snap(h.s.files[path], path)
  {
    if path in h.s.files {
      LoggedOk(h.log, h.clock, Record(ms, Snap(h.s.files[path], path)));
      TakenDir(h, Record(ms, Snap(h.s.files[path], path)), digest);
    }
  }

  lemma StepKeeps(h: History, ev: Event, targets: set<string>, digest: Digest)
    requires Inv(h, digest) && Timely(h, ev)
    ensures Inv(Step(h, ev, targets, digest), digest)
  {
    match ev
    case Write(_, _) =>
    case Remove(_) =>
    case Snapshot(path, ms) => TakenKeeps(h, path, ms, digest);
    case Rollback(id, ms) =>
      if id in h.s.dir { TakenKeeps(h, h.s.dir[id].source, ms, digest); }
  }

  lemma {:induction false} StepsKeep(h: History, events: seq<Event>, targets: set<string>, digest: Digest)
    requires Inv(h, digest) && AllTimely(h, events, targets, digest)
    ensures Inv(Steps(h, events, targets, digest), digest)
    decreases |events|
  {
    if events != [] {
      StepKeeps(h, events[0], targets, digest);
      StepsKeep(Step(h, events[0], targets, digest), events[1..], targets, digest);
    }
  }

  predicate Stamped(ev: Event) { ev.Snapshot? || ev.Rollback? }

  /** Readings that grow along the run, with equally many digits, are timely. */
  lemma {:induction false} AdvancingIsTimely(h: History, events: seq<Event>, targets: set<string>, digest: Digest)
    requires forall i :: 0 <= i < |events| && Stamped(events[i]) ==> h.clock < events[i].ms && InEra(h.log, events[i].ms)
    requires forall i, j :: 0 <= i < j < |events| && Stamped(events[i]) && Stamped(events[j]) ==>
               events[i].ms < events[j].ms && SameEra(events[i].ms, events[j].ms)
    ensures AllTimely(h, events, targets, digest)
    decreases |events|
  {
    if events != [] {
      var h', rest := Step(h, events[0], targets, digest), events[1..];
      assert h'.log == h.log || (Stamped(events[0]) && exists r: Record :: r.ms == events[0].ms && h'.log == [r] + h.log);
      forall i | 0 <= i < |rest| && Stamped(rest[i]) ensures h'.clock < rest[i].ms && InEra(h'.log, rest[i].ms) {
        assert rest[i] == events[i + 1];
      }
      AdvancingIsTimely(h', rest, targets, digest);
    }
  }

  /** While the millisecond clock advances, and gains no digit, the directory holds
      exactly the newest 50 snapshots taken, or all if there were fewer, each with
      the bytes it was taken of. */
  lemma HistoryIsTheNewest(files: map<string, Blob>, events: seq<Event>, targets: set<string>, digest: Digest)
    requires forall i :: 0 <= i < |events| && (events[i].Snapshot? || events[i].Rollback?) ==> events[i].ms > 0
    requires forall i, j ::
               && 0 <= i < j < |events|
               && (events[i].Snapshot? || events[i].Rollback?) && (events[j].Snapshot? || events[j].Rollback?) ==>
               events[i].ms < events[j].ms && |Decimal(events[i].ms)| == |Decimal(events[j].ms)|
    ensures var h := Steps(Start(files), events, targets, digest);
      && |h.s.dir| == (if |h.log| < 50 then |h.log| else 50)
      && h.s.dir.Keys == Elements(Ids(Newest(h.log), digest))
      && forall i :: 0 <= i < |Newest(h.log)| ==>
           IdOf(h.log[i], digest) in h.s.dir && h.s.dir[IdOf(h.log[i], digest)] == h.log[i].snap
  {
    AdvancingIsTimely(Start(files), events, targets, digest);
    StepsKeep(Start(files), events, targets, digest);
    InvSpelledOut(Steps(Start(files), events, targets, digest), digest);
  }

  lemma InvSpelledOut(h: History, digest: Digest)
    requires Inv(h, digest)
    ensures |h.s.dir| == if |h.log| < 50 then |h.log| else 50
    ensures h.s.dir.Keys == Elements(Ids(Newest(h.log), digest))
    ensures forall i :: 0 <= i < |Newest(h.log)| ==>
              IdOf(h.log[i], digest) in h.s.dir && h.s.dir[IdOf(h.log[i], digest)] == h.log[i].snap
  {
    var newest := Newest(h.log);
    NewestOk(h.log, h.clock);
    DirKeys(newest, digest);
    IdsDescend(newest, h.clock, digest);
    CountElements(Ids(newest, digest));
    assert |h.s.dir| == |h.s.dir.Keys|;
    forall i | 0 <= i < |newest|
      ensures IdOf(h.log[i], digest) in h.s.dir && h.s.dir[IdOf(h.log[i], digest)] == h.log[i].snap
    {
      assert newest[i] == h.log[i];
      DirAt(newest, h.clock, i, digest);
    }
  }

  // ----- with any clock --------------------------------------------------

  lemma LaterGrows(a: set<string>, b: set<string>, id: string)
    requires a <= b
    ensures Later(a, id) <= Later(b, id) && |Later(a, id)| <= |Later(b, id)|
  {
    var x, y := Later(a, id), Later(b, id);
    assert y == x + (y - x);
  }

  /** A set of ids has a greatest one. */
  lemma {:induction false} Greatest(ids: set<string>) returns (m: string)
    requires ids != {}
    ensures m in ids && forall x :: x in ids && x != m ==> LexLess(x, m)
    decreases |ids|
  {
    var a :| a in ids;
    m := a;
    if ids != {a} {
      assert ids - {a} != {};
      var b := Greatest(ids - {a});
      LexTotal(a, b);
      if LexLess(a, b) {
        m := b;
      } else {
        forall x | x in ids && x != a ensures LexLess(x, a) {
          if x != b { LexTransitive(x, b, a); }
        }
      }
    }
  }

  /** Of the ids later than `y`, either all are kept or 50 of them are. */
  lemma KeptLater(ids: set<string>, y: string)
    ensures Later(ids, y) == Later(Kept(ids), y) || |Later(Kept(ids), y)| >= KEEP
  {
    var lost := Later(ids, y) - Kept(ids);
    if lost == {} {
      forall x | x in Later(ids, y) ensures x in Later(Kept(ids), y) { assert x !in lost; }
    } else {
      var z := Greatest(lost);
      forall x | x in Later(ids, z) ensures x in Later(Kept(ids), y) {
        LexTransitive(y, z, x);
        if x !in Kept(ids) {
          LexTransitive(z, x, z);
          LexIrreflexive(z);
        }
      }
      SubsetCount(Later(ids, z), Later(Kept(ids), y));
    }
  }

  lemma SubsetCount(a: set<string>, b: set<string>)
    requires a <= b
    ensures |a| <= |b|
  {
    assert b == a + (b - a);
  }

  lemma LaterOfMore(ids: set<string>, x: string, y: string)
    ensures Later(ids + {x}, y) == Later(ids, y) + if LexLess(y, x) then {x} else {}
  {}

  /** What rotation dropped before never matters again. */
  lemma KeptAgain(ids: set<string>, x: string)
    ensures Kept(Kept(ids) + {x}) == Kept(ids + {x})
  {
    forall y | y in ids + {x} ensures y in Kept(Kept(ids) + {x}) <==> y in Kept(ids + {x}) {
      LaterGrows(Kept(ids) + {x}, ids + {x}, y);
      LaterGrows(ids, ids + {x}, y);
      KeptLater(ids, y);
      if Later(ids, y) == Later(Kept(ids), y) {
        LaterOfMore(ids, x, y);
        LaterOfMore(Kept(ids), x, y);
      } else {
        LaterGrows(Kept(ids), Kept(ids) + {x}, y);
      }
    }
  }

  /** The last snapshot taken under an id. */
  function Latest(log: seq<Record>, id: string, digest: Digest): Option<Snap> {
    if log == [] then None
    else if IdOf(log[0], digest) == id then Some(log[0].snap)
    else Latest(log[1..], id, digest)
  }

  /** The directory holds the 50 greatest ids of all snapshots taken. */
  ghost predicate HoldsGreatest(h: History, digest: Digest) {
    && h.s.dir.Keys == Kept(Elements(Ids(h.log, digest)))
    && (forall id :: id in h.s.dir ==> Latest(h.log, id, digest) == Some(h.s.dir[id]))
  }

  lemma IdsOfMore(log: seq<Record>, r: Record, digest: Digest)
    ensures Elements(Ids([r] + log, digest)) == Elements(Ids(log, digest)) + {IdOf(r, digest)}
  {
    var ids, more := Ids(log, digest), Ids([r] + log, digest);
    forall x | x in Elements(ids) ensures x in Elements(more) {
      var i :| 0 <= i < |ids| && ids[i] == x;
      assert more[i + 1] == x;
    }
    forall x | x in Elements(more) ensures x in Elements(ids) + {IdOf(r, digest)} {
      var i :| 0 <= i < |more| && more[i] == x;
      if i > 0 { assert ids[i - 1] == x; }
    }
    assert more[0] == IdOf(r, digest);
  }

  lemma TakenHoldsGreatest(h: History, path: string, ms: nat, digest: Digest)
    requires HoldsGreatest(h, digest)
    ensures HoldsGreatest(History(Taken(h.s, path, ms, digest), ms, Logged(h, path, ms)), digest)
  {
    if path in h.s.files {
      var r := Record(ms, Snap(h.s.files[path], path));
      var id, more := IdOf(r, digest), [r] + h.log;
      var dir := h.s.dir[id := r.snap];
      IdsOfMore(h.log, r, digest);
      KeptAgain(Elements(Ids(h.log, digest)), id);
      assert dir.Keys == h.s.dir.Keys + {id};
      assert more[1..] == h.log;
      forall x | x in Rotated(dir) ensures Latest(more, x, digest) == Some(Rotated(dir)[x]) {}
    }
  }

  lemma StepHoldsGreatest(h: History, ev: Event, targets: set<string>, digest: Digest)
    requires HoldsGreatest(h, digest)
    ensures HoldsGreatest(Step(h, ev, targets, digest), digest)
  {
    match ev
    case Write(_, _) =>
    case Remove(_) =>
    case Snapshot(path, ms) => TakenHoldsGreatest(h, path, ms, digest);
    case Rollback(id, ms) =>
      if id in h.s.dir { TakenHoldsGreatest(h, h.s.dir[id].source, ms, digest); }
  }

  lemma {:induction false} StepsHoldGreatest(h: History, events: seq<Event>, targets: set<string>, digest: Digest)
    requires HoldsGreatest(h, digest)
    ensures HoldsGreatest(Steps(h, events, targets, digest), digest)
    decreases |events|
  {
    if events != [] {
      StepHoldsGreatest(h, events[0], targets, digest);
      StepsHoldGreatest(Step(h, events[0], targets, digest), events[1..], targets, digest);
    }
  }

  /** In every run, whatever the clock does, the directory holds exactly the
      snapshots, of all that were ever taken, that fewer than 50 others follow by
      id, each as it was last taken. */
  lemma HistoryIsTheGreatest(files: map<string, Blob>, events: seq<Event>, targets: set<string>, digest: Digest)
    ensures var h := Steps(Start(files), events, targets, digest);
      && h.s.dir.Keys == Kept(Elements(Ids(h.log, digest)))
      && forall id :: id in h.s.dir ==> Latest(h.log, id, digest) == Some(h.s.dir[id])
  {
    StepsHoldGreatest(Start(files), events, targets, digest);
  }

  /** A new snapshot survives its own rotation exactly if fewer than 50 of those in
      the history follow it by id. */
  lemma SnapshotSurvivesExactly(s: State, path: string, ms: nat, digest: Digest)
    requires path in s.files
    ensures var id := SnapshotId(ms, digest(s.files[path]));
      id in Taken(s, path, ms, digest).dir <==> |set y | y in s.dir.Keys && LexLess(id, y)| < 50
  {
    var id := SnapshotId(ms, digest(s.files[path]));
    var dir := s.dir[id := Snap(s.files[path], path)];
    LexIrreflexive(id);
    LaterOfMore(s.dir.Keys, id, id);
    assert dir.Keys == s.dir.Keys + {id};
    assert Taken(s, path, ms, digest).dir == Rotated(dir) && Rotated(dir).Keys == Kept(dir.Keys);
    assert Later(s.dir.Keys, id) == (set y | y in s.dir.Keys && LexLess(id, y));
  }

  // ----- when the clock gains a digit ------------------------------------

  /** Snapshots a millisecond apart. */
  function Burst(path: string, base: nat, n: nat): (events: seq<Event>)
    ensures |events| == n
  {
    if n == 0 then [] else Burst(path, base, n - 1) + [Snapshot(path, base + n - 1)]
  }

  lemma {:induction false} StepsSnoc(h: History, events: seq<Event>, ev: Event, targets: set<string>, digest: Digest)
    ensures Steps(h, events + [ev], targets, digest) == Step(Steps(h, events, targets, digest), ev, targets, digest)
    decreases |events|
  {
    if events == [] {
      assert ([] + [ev])[1..] == [];
    } else {
      assert (events + [ev])[1..] == events[1..] + [ev];
      StepsSnoc(Step(h, events[0], targets, digest), events[1..], ev, targets, digest);
    }
  }

  /** The last tenth of the readings of `k` digits starts with a nine. */
  lemma {:induction false} StartsWithNine(k: nat, n: nat)
    requires k >= 1 && 9 * Pow10(k - 1) <= n < Pow10(k)
    ensures |Decimal(n)| == k && Decimal(n)[0] == '9'
  {
    assert Pow10(k) == 10 * Pow10(k - 1);
    if k == 1 {
      assert Pow10(0) == 1;
    } else {
      assert Pow10(k - 1) == 10 * Pow10(k - 2);
      StartsWithNine(k - 1, n / 10);
    }
  }

  /** What a burst leaves. */
  ghost predicate Filled(h: History, path: string, data: Blob, base: nat, n: nat, digest: Digest) {
    Inv(h, digest) && Readings(h.log, base, n) && h.s.files == map[path := data] && h.clock < base + n
  }

  ghost predicate Readings(log: seq<Record>, base: nat, n: nat) {
    |log| == n && forall i :: 0 <= i < n ==> base <= log[i].ms < base + n
  }

  predicate HasDigits(m: nat, k: nat) { |Decimal(m)| == k }

  ghost predicate OneEra(base: nat, n: nat, k: nat) {
    forall m: nat :: base <= m < base + n ==> HasDigits(m, k)
  }

  lemma FillsNone(path: string, data: Blob, base: nat, digest: Digest)
    requires base > 0
    ensures Filled(Start(map[path := data]), path, data, base, 0, digest)
  {}

  lemma FillsMore(h: History, path: string, data: Blob, base: nat, n: nat, k: nat, targets: set<string>, digest: Digest)
      returns (h': History)
    requires Filled(h, path, data, base, n, digest) && OneEra(base, n + 1, k)
    ensures h' == Step(h, Snapshot(path, base + n), targets, digest)
    ensures Filled(h', path, data, base, n + 1, digest)
  {
    var ms := base + n;
    h' := History(Taken(h.s, path, ms, digest), ms, Logged(h, path, ms));
    assert HasDigits(ms, k);
    forall i | 0 <= i < |h.log| ensures SameEra(h.log[i].ms, ms) { assert HasDigits(h.log[i].ms, k); }
    TakenKeeps(h, path, ms, digest);
    ReadingsMore(h.log, Record(ms, Snap(data, path)), base, n);
  }

  lemma ReadingsMore(log: seq<Record>, r: Record, base: nat, n: nat)
    requires Readings(log, base, n) && r.ms == base + n
    ensures Readings([r] + log, base, n + 1)
  {}

  lemma {:induction false} Fills(path: string, data: Blob, base: nat, n: nat, k: nat, targets: set<string>, digest: Digest)
      returns (h: History)
    requires OneEra(base, n, k) && base > 0
    ensures h == Steps(Start(map[path := data]), Burst(path, base, n), targets, digest)
    ensures Filled(h, path, data, base, n, digest)
  {
    if n == 0 {
      h := Start(map[path := data]);
      FillsNone(path, data, base, digest);
    } else {
      h := Fills(path, data, base, n - 1, k, targets, digest);
      h := FillsMore(h, path, data, base, n - 1, k, targets, digest);
      StepsSnoc(Start(map[path := data]), Burst(path, base, n - 1), Snapshot(path, base + n - 1), targets, digest);
    }
  }

  /** The first of the last fifty readings of `k` digits. */
  function LastFifty(k: nat): nat
    requires k >= 3
  {
    BigPower(k);
    Pow10(k) - KEEP
  }

  lemma BigPower(k: nat)
    requires k >= 3
    ensures Pow10(k) >= 1000 && Pow10(k) == 10 * Pow10(k - 1)
  {
    Pow10AtLeast(k - 2);
    assert Pow10(k - 1) == 10 * Pow10(k - 2);
  }

  lemma LastReadings(k: nat, n: nat)
    requires k >= 3 && LastFifty(k) <= n < Pow10(k)
    ensures |Decimal(n)| == k && Decimal(n)[0] == '9'
  {
    BigPower(k);
    StartsWithNine(k, n);
  }

  /** After fifty snapshots up to the last reading of `k` digits the next has one
      digit more. The snapshot taken then, the newest of all, is the one that
      rotation drops. (With milliseconds, `k` is 13 and the year 2286.) */
  lemma NewestSnapshotLost(path: string, data: Blob, k: nat, targets: set<string>, digest: Digest)
    requires k >= 3
    ensures var events := Burst(path, LastFifty(k), KEEP) + [Snapshot(path, Pow10(k))];
      var h := Steps(Start(map[path := data]), events, targets, digest);
      && |h.log| == KEEP + 1 && h.log[0].ms == Pow10(k)
      && (forall i :: 0 < i <= KEEP ==> h.log[i].ms < Pow10(k))
      && IdOf(h.log[0], digest) !in h.s.dir
  {
    var start, events := Start(map[path := data]), Burst(path, LastFifty(k), KEEP);
    forall m: nat | LastFifty(k) <= m < LastFifty(k) + KEEP ensures HasDigits(m, k) { LastReadings(k, m); }
    BigPower(k);
    var h := Fills(path, data, LastFifty(k), KEEP, k, targets, digest);
    StepsSnoc(start, events, Snapshot(path, Pow10(k)), targets, digest);
    NewEraComesFirst(h, path, data, k, digest);
    SnapshotSurvivesExactly(h.s, path, Pow10(k), digest);
    var id := SnapshotId(Pow10(k), digest(data));
    assert Later(h.s.dir.Keys, id) == (set y | y in h.s.dir.Keys && LexLess(id, y));
  }

  lemma NewEraComesFirst(h: History, path: string, data: Blob, k: nat, digest: Digest)
    requires k >= 3 && Filled(h, path, data, LastFifty(k), KEEP, digest)
    ensures |Later(h.s.dir.Keys, SnapshotId(Pow10(k), digest(data)))| == KEEP
  {
    var id, ids := SnapshotId(Pow10(k), digest(data)), Ids(h.log, digest);
    assert Newest(h.log) == h.log;
    DirKeys(h.log, digest);
    IdsDescend(h.log, h.clock, digest);
    CountElements(ids);
    FirstDigits(k);
    forall i | 0 <= i < |ids| ensures LexLess(id, ids[i]) {
      LastReadings(k, h.log[i].ms);
      assert id[0] == Decimal(Pow10(k))[0] && ids[i][0] == Decimal(h.log[i].ms)[0];
    }
    assert Later(h.s.dir.Keys, id) == Elements(ids);
  }

  // ----- rollback --------------------------------------------------------

  /** The id under which a rollback saves the live file. */
  function PreRollbackId(s: State, id: string, ms: nat, digest: Digest): string
    requires id in s.dir && s.dir[id].source in s.files
  {
    SnapshotId(ms, digest(s.files[s.dir[id].source]))
  }

  /** Is there a snapshot whose rollback brings the files back to `files`? */
  ghost predicate Undoes(s: State, id: string, targets: set<string>, ms: nat, digest: Digest, files: map<string, Blob>) {
    var r := RolledBack(s, id, targets, ms, digest);
    r.Ok? && r.value.files == files
  }

  /** A rollback restores the exact bytes. Rolling back again can bring every file
      back as it was exactly if there was a live file to begin with: without one
      nothing was saved, and no rollback removes a file. */
  lemma RollbackIsReversible(h: History, id: string, targets: set<string>, ms: nat, later: nat, digest: Digest)
    requires Inv(h, digest) && id in h.s.dir && h.s.dir[id].source in targets
    requires h.clock < ms < later && InEra(h.log, ms) && SameEra(ms, later)
    ensures var r := RolledBack(h.s, id, targets, ms, digest);
      && r.Ok?
      && r.value.files == h.s.files[h.s.dir[id].source := h.s.dir[id].data]
      && ((exists undo :: Undoes(r.value, undo, targets, later, digest, h.s.files))
          <==> h.s.dir[id].source in h.s.files)
  {
    var source := h.s.dir[id].source;
    var r := RolledBack(h.s, id, targets, ms, digest);
    if source in h.s.files {
      LiveFileComesBack(h, id, targets, ms, later, digest);
      assert Undoes(r.value, PreRollbackId(h.s, id, ms, digest), targets, later, digest, h.s.files);
    } else {
      forall undo ensures !Undoes(r.value, undo, targets, later, digest, h.s.files) {
        assert source in r.value.files;
      }
    }
  }

  /** With a live file, it is the snapshot the rollback took that brings it back. */
  lemma LiveFileComesBack(h: History, id: string, targets: set<string>, ms: nat, later: nat, digest: Digest)
    requires Inv(h, digest) && id in h.s.dir && h.s.dir[id].source in targets
    requires h.clock < ms < later && InEra(h.log, ms) && SameEra(ms, later)
    requires h.s.dir[id].source in h.s.files
    ensures var r := RolledBack(h.s, id, targets, ms, digest);
      && r.Ok?
      && r.value.files == h.s.files[h.s.dir[id].source := h.s.dir[id].data]
      && var undone := RolledBack(r.value, PreRollbackId(h.s, id, ms, digest), targets, later, digest);
         undone.Ok? && undone.value.files == h.s.files
  {
    var path := h.s.dir[id].source;
    TakenKeeps(h, path, ms, digest);
    assert h.s.files[path := h.s.dir[id].data][path := h.s.files[path]] == h.s.files;
  }

  // ----- the store -------------------------------------------------------

  /** The greatest id; `max` as `sort` orders. */
  method MaxId(ids: set<string>) returns (m: string)
    requires ids != {}
    ensures m in ids && forall x :: x in ids && x != m ==> LexLess(x, m)
  {
    m :| m in ids;
    var todo := ids - {m};
    while todo != {}
      invariant todo <= ids && m in ids && m !in todo
      invariant forall x :: x in ids && x !in todo && x != m ==> LexLess(x, m)
      decreases |todo|
    {
      var x :| x in todo;
      LexTotal(x, m);
      if LexLess(m, x) {
        forall y | y in ids && y !in todo && y != m ensures LexLess(y, x) { LexTransitive(y, m, x); }
        m := x;
      }
      todo := todo - {x};
    }
  }

  ghost predicate AllPrecede(todo: set<string>, s: seq<string>) {
    forall i, x :: 0 <= i < |s| && x in todo ==> LexLess(x, s[i])
  }

  lemma DescendingMore(s: seq<string>, m: string, todo: set<string>)
    requires Descending(s) && AllPrecede(todo, s) && m in todo
    requires forall x :: x in todo && x != m ==> LexLess(x, m)
    ensures Descending(s + [m]) && AllPrecede(todo - {m}, s + [m])
    ensures Elements(s + [m]) == Elements(s) + {m}
  {
    assert forall i :: 0 <= i < |s| ==> (s + [m])[i] == s[i];
    assert (s + [m])[|s|] == m;
  }

  /** `entries.sort(reverse=True)` */
  method SortDescending(ids: set<string>) returns (s: seq<string>)
    ensures Descending(s) && Elements(s) == ids
  {
    s := [];
    var todo := ids;
    while todo != {}
      invariant todo <= ids && Descending(s) && Elements(s) == ids - todo
      invariant AllPrecede(todo, s)
      decreases |todo|
    {
      var m := MaxId(todo);
      DescendingMore(s, m, todo);
      s := s + [m];
      todo := todo - {m};
    }
  }

  class Store {
    const digest: Digest
    const targets: set<string>
    var dir: map<string, Snap>
    var files: map<string, Blob>

    constructor (files: map<string, Blob>, targets: set<string>, digest: Digest)
      ensures Abs() == State(map[], files) && this.targets == targets && this.digest == digest
    {
      this.files, this.targets, this.digest := files, targets, digest;
      dir := map[];
    }

    function Abs(): State
      reads this
    {
      State(dir, files)
    }

    /** `_rotate` */
    method Rotate()
      modifies `dir
      ensures dir == Rotated(old(dir))
    {
      var entries := SortDescending(dir.Keys);
      KeptIsFirst(entries);
      ghost var was := dir;
      var extra := if |entries| > KEEP then entries[KEEP..] else [];
      for i := 0 to |extra|
        invariant dir == map id | id in was && id !in extra[..i] :: was[id]
      {
        dir := dir - {extra[i]};
        assert extra[..i + 1] == extra[..i] + [extra[i]];
      }
      assert extra[..|extra|] == extra;
      DroppedAreRest(entries, extra);
    }

    /** `snapshot(path)` */
    method TakeSnapshot(path: string, ms: nat) returns (id: Option<string>)
      modifies `dir
      ensures Abs() == Taken(old(Abs()), path, ms, digest)
      ensures id == if path in files then Some(Decimal(ms) + "_" + digest(files[path])) else None
      ensures id.None? ==> dir == old(dir)
      ensures id.Some? && id.value in dir ==> dir[id.value] == Snap(files[path], path)
    {
      if path !in files { return None; }
      var data := files[path];
      var sid := SnapshotId(ms, digest(data));
      dir := dir[sid := Snap(data, path)];
      Rotate();
      return Some(sid);
    }

    /** `rollback(id)` */
    method RollBack(id: string, ms: nat) returns (r: Result<(), Error>)
      modifies this
      ensures match RolledBack(old(Abs()), id, targets, ms, digest)
              case Err(e) => r == Err(e) && Abs() == old(Abs())
              case Ok(t) => r == Ok(()) && Abs() == t
      ensures r == if id !in old(dir) then Err(UnknownSnapshot)
                   else if old(dir)[id].source !in targets then Err(NoValidTarget) else Ok(())
      ensures files == if r.Ok? then old(files)[old(dir)[id].source := old(dir)[id].data] else old(files)
    {
      if id !in dir { return Err(UnknownSnapshot); }
      var target := dir[id].source;
      if target !in targets { return Err(NoValidTarget); }
      var data := dir[id].data;
      var _ := TakeSnapshot(target, ms);
      files := files[target := data];
      return Ok(());
    }
  }

  lemma DroppedAreRest(entries: seq<string>, extra: seq<string>)
    requires Descending(entries) && extra == if |entries| > KEEP then entries[KEEP..] else []
    ensures forall x :: x in Elements(entries) ==> (x in Elements(First(KEEP, entries)) <==> x !in extra)
  {
    forall x | x in Elements(entries) ensures x in Elements(First(KEEP, entries)) <==> x !in extra {
      var i :| 0 <= i < |entries| && entries[i] == x;
      LexIrreflexive(x);
      if i < KEEP {
        assert First(KEEP, entries)[i] == x;
        assert forall j :: 0 <= j < |extra| ==> extra[j] == entries[KEEP + j];
      } else {
        assert extra[i - KEEP] == x;
        assert forall j :: 0 <= j < |First(KEEP, entries)| ==> First(KEEP, entries)[j] == entries[j];
      }
    }
  }
}
