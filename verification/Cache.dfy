/** The bounded cache of loaded states (pkg/tools/state/loader.go, stateCache). */
module Cache {
  import opened JsonTree

  datatype Entry<+S> = Entry(state: S, loadedAt: int)

  /** Not expired at `now`. */
  predicate Fresh<S>(e: Entry<S>, now: int, ttl: int) {
    now - e.loadedAt < ttl
  }

  function Live<S>(m: map<string, Entry<S>>, now: int, ttl: int): map<string, Entry<S>> {
    map k | k in m && Fresh(m[k], now, ttl) :: m[k]
  }

  predicate Oldest<S>(m: map<string, Entry<S>>, k: string) {
    k in m && forall l | l in m :: m[k].loadedAt <= m[l].loadedAt
  }

  /** What one put makes of the map. With equal load times any oldest entry may go; the empty key
      doubles as the "none yet" mark of the scan, so with it in the map some other
      entry may be the victim, or none. */
  ghost predicate PutResult<S>(m: map<string, Entry<S>>, key: string, e: Entry<S>, maxSize: int, now: int, ttl: int,
                               r: map<string, Entry<S>>)
  {
    if |m| < maxSize then r == m[key := e]
    else
      var live := Live(m, now, ttl);
      if |live| < maxSize || live == map[] then r == live[key := e]
      else if "" !in live then exists v | Oldest(live, v) :: r == (live - {v})[key := e]
      else exists V: set<string> | V <= live.Keys - {""} && |V| <= 1 :: r == (live - V)[key := e]
  }

  class StateCache<S> {
    var entries: map<string, Entry<S>>
    const maxSize: int
    const ttl: int

    constructor (maxSize: int, ttl: int)
      ensures entries == map[] && this.maxSize == maxSize && this.ttl == ttl
    {
      entries, this.maxSize, this.ttl := map[], maxSize, ttl;
    }

    /** An entry is served while it is younger than the TTL; an expired one is removed. */
    method Get(key: string, now: int) returns (r: Option<S>)
      modifies this`entries
      ensures r ==
        if key in old(entries) && Fresh(old(entries)[key], now, ttl) then Some(old(entries)[key].state) else None
      ensures entries == if r.Some? then old(entries) else old(entries) - {key}
    {
      if key !in entries {
        assert entries - {key} == entries;
        return None;
      }
      var entry := entries[key];
      if now - entry.loadedAt >= ttl {
        entries := entries - {key};
        return None;
      }
      r := Some(entry.state);
    }

    /** `now` is when the entries are judged and `stored` when the new one is dated. */
    method Put(key: string, state: S, now: int, stored: int)
      modifies this`entries
      ensures PutResult(old(entries), key, Entry(state, stored), maxSize, now, ttl, entries)
    {
      if |entries| >= maxSize {
        DropExpired(now);
        if |entries| >= maxSize {
          DropOldest();
        }
      }
      entries := entries[key := Entry(state, stored)];
    }

    method DropExpired(now: int)
      modifies this`entries
      ensures entries == Live(old(entries), now, ttl)
    {
      var keys := entries.Keys;
      ghost var before := entries;
      while keys != {}
        invariant keys <= before.Keys
        invariant entries == map k | k in before && (k in keys || Fresh(before[k], now, ttl)) :: before[k]
      {
        var k :| k in keys;
        if now - entries[k].loadedAt >= ttl {
          entries := entries - {k};
        }
        keys := keys - {k};
      }
    }

    method DropOldest()
      modifies this`entries
      ensures old(entries) == map[] ==> entries == map[]
      ensures old(entries) != map[] && "" !in old(entries) ==>
        exists v | Oldest(old(entries), v) :: entries == old(entries) - {v}
      ensures exists V: set<string> | V <= old(entries).Keys - {""} && |V| <= 1 :: entries == old(entries) - V
    {
      ghost var before := entries;
      var oldestKey, oldest := "", 0;
      var keys := entries.Keys;
      while keys != {}
        invariant keys <= entries.Keys
        invariant oldestKey != "" ==> oldestKey in entries && oldest == entries[oldestKey].loadedAt
        invariant "" !in entries ==>
          forall k | k in entries && k !in keys :: oldestKey != "" && oldest <= entries[k].loadedAt
      {
        var k :| k in keys;
        if oldestKey == "" || entries[k].loadedAt < oldest {
          oldestKey, oldest := k, entries[k].loadedAt;
        }
        keys := keys - {k};
      }
      if oldestKey != "" {
        assert "" !in before ==> Oldest(before, oldestKey);
        assert |{oldestKey}| <= 1;
        entries := entries - {oldestKey};
      } else {
        assert before - {} == before;
        assert "" !in before ==> forall k :: k !in before;
      }
    }

    method Invalidate(key: string)
      modifies this`entries
      ensures entries == old(entries) - {key}
    {
      entries := entries - {key};
    }
  }

  // ---------- what a put may and may not do ----------

  /** The cache never outgrows its capacity (one entry, when the capacity is less than that). */
  lemma PutBounded<S>(m: map<string, Entry<S>>, key: string, e: Entry<S>, maxSize: int, now: int, ttl: int,
                      r: map<string, Entry<S>>)
    requires PutResult(m, key, e, maxSize, now, ttl, r)
    requires "" !in m && |m| <= (if maxSize < 1 then 1 else maxSize)
    ensures |r| <= (if maxSize < 1 then 1 else maxSize)
  {
    if |m| < maxSize {
      SizeOfUpdate(m, key, e);
    } else {
      var live := Live(m, now, ttl);
      LiveIsSmaller(m, now, ttl);
      if |live| < maxSize || live == map[] {
        SizeOfUpdate(live, key, e);
      } else {
        var v :| Oldest(live, v) && r == (live - {v})[key := e];
        assert (live - {v}).Keys == live.Keys - {v};
        SizeOfUpdate(live - {v}, key, e);
      }
    }
  }

  /** A put always has an outcome. */
  lemma PutTotal<S>(m: map<string, Entry<S>>, key: string, e: Entry<S>, maxSize: int, now: int, ttl: int)
    returns (r: map<string, Entry<S>>)
    requires "" !in m
    ensures PutResult(m, key, e, maxSize, now, ttl, r)
  {
    var live := Live(m, now, ttl);
    if |m| < maxSize {
      r := m[key := e];
    } else if |live| < maxSize || live == map[] {
      r := live[key := e];
    } else {
      var v := SomeOldest(live);
      r := (live - {v})[key := e];
    }
  }

  lemma {:induction false} SomeOldest<S>(m: map<string, Entry<S>>) returns (v: string)
    requires m != map[]
    ensures Oldest(m, v)
    decreases |m|
  {
    var k :| k in m;
    var rest := m - {k};
    assert rest.Keys == m.Keys - {k};
    assert forall l | l in m :: l == k || l in rest;
    if rest == map[] {
      v := k;
    } else {
      v := SomeOldest(rest);
      v := if m[k].loadedAt <= m[v].loadedAt then k else v;
    }
  }

  lemma SizeOfUpdate<S>(m: map<string, Entry<S>>, key: string, e: Entry<S>)
    ensures |m[key := e]| <= |m| + 1
  {
    assert m[key := e].Keys == m.Keys + {key};
  }

  lemma LiveIsSmaller<S>(m: map<string, Entry<S>>, now: int, ttl: int)
    ensures Live(m, now, ttl).Keys <= m.Keys && |Live(m, now, ttl)| <= |m|
  {
    SubsetSize(Live(m, now, ttl).Keys, m.Keys);
  }

  lemma {:induction false} SubsetSize<T>(a: set<T>, b: set<T>)
    requires a <= b
    ensures |a| <= |b|
  {
    assert b == a + (b - a);
  }

  /** Every other entry that is left is unchanged; every other entry that is gone was expired, or is
      the one victim, which no remaining entry precedes; nothing goes while there is room, and nothing
      expired stays when there is none; nothing fresh goes while the fresh ones alone leave room. */
  lemma PutFrame<S>(m: map<string, Entry<S>>, key: string, e: Entry<S>, maxSize: int, now: int, ttl: int,
                    r: map<string, Entry<S>>)
    requires PutResult(m, key, e, maxSize, now, ttl, r) && "" !in m
    ensures key in r && r[key] == e
    ensures forall k | k in r && k != key :: k in m && r[k] == m[k]
    ensures |m| < maxSize ==> m.Keys <= r.Keys
    ensures |m| >= maxSize ==> forall k | k in r && k != key :: Fresh(m[k], now, ttl)
    ensures |set k | k in m && now - m[k].loadedAt < ttl| < maxSize ==>
      forall k | k in m && now - m[k].loadedAt < ttl :: k in r
    ensures forall k | k in m && k !in r && Fresh(m[k], now, ttl) ::
      && (forall l | l in r && l != key :: Fresh(m[l], now, ttl) && m[k].loadedAt <= m[l].loadedAt)
      && (forall l | l in m && l !in r && Fresh(m[l], now, ttl) :: l == k)
  {
    assert (set k | k in m && now - m[k].loadedAt < ttl) == Live(m, now, ttl).Keys;
  }

  /** Why the empty key must stay out: the scan cannot name it as a victim, so a full cache that
      holds nothing else outgrows its capacity. */
  lemma EmptyKeyOverflows<S>(kept: Entry<S>, key: string, e: Entry<S>, now: int, ttl: int, r: map<string, Entry<S>>)
    requires Fresh(kept, now, ttl) && key != ""
    requires PutResult(map["" := kept], key, e, 1, now, ttl, r)
    ensures |r| == 2
  {
    var m := map["" := kept];
    assert Live(m, now, ttl) == m && |m.Keys| == 1;
    assert m.Keys - {""} == {};
    assert m - {} == m;
    assert r == m[key := e] && r.Keys == {"", key};
  }
}
