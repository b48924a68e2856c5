/** The shared-state backend: one table per namespace, whose entries lapse, and
    the clock that every operation on it reads for itself. */
module SharedState {
  import opened Text

  /** A value stored until `expires`; it is gone for every reader after that. */
  datatype Entry<+V> = Entry(value: V, expires: real)

  predicate Holds<K, V>(m: map<K, Entry<V>>, k: K, now: real) {
    k in m && now <= m[k].expires
  }

  /** Time passes, and readers drop entries that have lapsed. */
  ghost predicate Lapses<K, V>(m: map<K, Entry<V>>, m': map<K, Entry<V>>, now: real) {
    && (forall k :: k in m' ==> k in m && m'[k] == m[k])
    && (forall k :: k in m && k !in m' ==> m[k].expires < now)
  }

  ghost predicate Distinct<T>(s: seq<T>) {
    forall i, j :: 0 <= i < j < |s| ==> s[i] != s[j]
  }

  function Elements<T>(s: seq<T>): set<T> { set x | x in s }

  lemma {:induction false} CountDistinct<T>(s: seq<T>)
    requires Distinct(s)
    ensures |Elements(s)| == |s|
  {
    if s == [] {
      assert Elements(s) == {};
    } else {
      var n := |s| - 1;
      CountDistinct(s[..n]);
      assert Elements(s) == Elements(s[..n]) + {s[n]};
    }
  }

  class Clock {
    var now: real

    constructor (start: real)
      ensures now == start
    {
      now := start;
    }

    /** `time.time()`: any amount of time may have passed since the last reading. */
    method Time() returns (t: real)
      modifies this
      ensures old(now) <= now == t
    {
      var elapsed: real := *;
      if elapsed > 0.0 { now := now + elapsed; }
      t := now;
    }
  }

  class Table<K(==), V> {
    var entries: map<K, Entry<V>>

    constructor ()
      ensures entries == map[]
    {
      entries := map[];
    }

    /** Reads a value; a lapsed entry is removed on the way. */
    method Get(k: K, clock: Clock) returns (v: Option<V>)
      modifies this, clock
      ensures old(clock.now) <= clock.now
      ensures v == if k in old(entries) && clock.now <= old(entries)[k].expires
                   then Some(old(entries)[k].value) else None
      ensures entries == if v.Some? then old(entries) else old(entries) - {k}
    {
      var now := clock.Time();
      if k !in entries { return None; }
      if now > entries[k].expires {
        entries := entries - {k};
        return None;
      }
      return Some(entries[k].value);
    }

    method Delete(k: K)
      modifies this
      ensures entries == old(entries) - {k}
    {
      entries := entries - {k};
    }

    method SetTtl(k: K, v: V, ttl: int, clock: Clock)
      modifies this, clock
      ensures old(clock.now) <= clock.now
      ensures entries == old(entries)[k := Entry(v, clock.now + ttl as real)]
    {
      var now := clock.Time();
      entries := entries[k := Entry(v, now + ttl as real)];
    }

    /** The keys that have not lapsed, each once, in no particular order. */
    method ListKeys(clock: Clock) returns (keys: seq<K>)
      modifies clock
      ensures old(clock.now) <= clock.now
      ensures forall k :: k in keys <==> Holds(entries, k, clock.now)
      ensures Distinct(keys)
    {
      var now := clock.Time();
      var todo := entries.Keys;
      keys := [];
      while todo != {}
        invariant todo <= entries.Keys
        invariant forall k :: k in keys <==> k !in todo && Holds(entries, k, now)
        invariant Distinct(keys)
        decreases |todo|
      {
        var k :| k in todo;
        if now <= entries[k].expires { keys := keys + [k]; }
        todo := todo - {k};
      }
    }
  }
}
