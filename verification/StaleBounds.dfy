/** The bound on overlapping calls of one session cannot be improved (pkg/client/ratelimit.go): runs that reach
    it, for every number of calls that hold a removed limiter when the window begins. */
module StaleBounds {
  import opened RateLimit
  import opened AdmissionRuns
  import opened WaitingBounds
  import L = LimiterRuns

  predicate AllStale(s: System, n: nat, id: string) {
    forall c: nat | c < n :: c in s.lookups.callers && s.lookups.callers[c] == L.Got(id, c, c)
  }

  /** All limiters are removed. */
  lemma CleanupNext(cfg: Config, run: seq<System>, actions: seq<Action>, id: string, n: nat)
    returns (longer: seq<System>, all: seq<Action>)
    requires Steps(cfg, run, actions) && run[|actions|].lookups.limiters == map[id := n]
    ensures Steps(cfg, longer, all) && run <= longer
    ensures var s, r := run[|actions|], longer[|all|];
      && r == s.(lookups := s.lookups.(limiters := map[], epochs := r.lookups.epochs))
      && L.EpochOf(r.lookups.epochs, id) == L.EpochOf(s.lookups.epochs, id) + 1
  {
    var s := run[|actions|];
    var epochs := L.AfterRemovals(s.lookups.epochs, s.lookups.limiters, {});
    var r := s.(lookups := s.lookups.(limiters := map[], epochs := epochs));
    assert L.Kept(s.lookups.limiters, {}) == map[];
    assert r.buckets == s.buckets + [];
    assert L.Next(s.lookups, L.Cleanup({}), r.lookups);
    OneStepMore(cfg, run, actions, Lookup(L.Cleanup({})), r);
    longer, all := run + [r], actions + [Lookup(L.Cleanup({}))];
  }

  /** `n` calls of a session have each looked up a limiter that was removed afterwards. */
  lemma {:induction false} StaleRun(cfg: Config, n: nat, id: string, more: nat)
    returns (run: seq<System>, actions: seq<Action>)
    requires cfg.Valid() && cfg.global.burst >= 1 && id != ""
    requires cfg.global.rate > 0.0 || cfg.global.burst >= n + more
    ensures IsRun(cfg, run, actions) && Holding(cfg, run[|actions|], n) && Room(cfg, run[|actions|], more)
    ensures run[|actions|].lookups.limiters == map[] && L.EpochOf(run[|actions|].lookups.epochs, id) == n
    ensures AllStale(run[|actions|], n, id)
  {
    if n == 0 {
      run, actions := [Start(cfg)], [];
    } else {
      run, actions := StaleRun(cfg, n - 1, id, more + 1);
      var longer, all := HolderNext(cfg, run, actions, n - 1, id, more);
      var s := longer[|all|];
      assert s.lookups.limiters == map[id := n - 1];
      longer, all := CleanupNext(cfg, longer, all, id, n - 1);
      var r := longer[|all|];
      forall c: nat | c < n ensures HoldsOwn(r, c) {
        assert HoldsOwn(s, c);
      }
      run, actions := longer, all;
    }
  }

  /** Besides, `m` calls wait that share the limiter now in the map. */
  predicate Sharing(cfg: Config, s: System, n: nat, m: nat, id: string) {
    && s.waiting.Keys == UpTo(n + m) && s.lookups.callers.Keys == UpTo(n + m)
    && |s.buckets| == n + 1 && (forall k: nat | k <= n :: Unasked(cfg, s.buckets[k], s.clock))
    && id in s.lookups.limiters && s.lookups.limiters[id] == n && L.EpochOf(s.lookups.epochs, id) == n
    && AllStale(s, n, id)
    && (forall c: nat | n <= c < n + m :: s.lookups.callers[c] == L.Got(id, n, n))
  }

  lemma SharerNext(cfg: Config, run: seq<System>, actions: seq<Action>, n: nat, m: nat, id: string, more: nat)
    returns (longer: seq<System>, all: seq<Action>)
    requires cfg.Valid() && cfg.global.burst >= 1 && Steps(cfg, run, actions) && id != ""
    requires Sharing(cfg, run[|actions|], n, m, id) && Room(cfg, run[|actions|], more + 1)
    ensures Steps(cfg, longer, all) && run <= longer
    ensures Sharing(cfg, longer[|all|], n, m + 1, id) && Room(cfg, longer[|all|], more)
  {
    longer, all := ArriveNext(cfg, run, actions, n + m, id, more);
    longer, all := FindNext(cfg, longer, all, n + m, id);
    SharingGrows(cfg, run[|actions|], n, m, id, longer[|all|]);
  }

  /** The lookup that finds the limiter. */
  lemma FindNext(cfg: Config, run: seq<System>, actions: seq<Action>, c: nat, id: string)
    returns (longer: seq<System>, all: seq<Action>)
    requires Steps(cfg, run, actions)
    requires var s := run[|actions|];
      c in s.waiting && s.waiting[c] == id && c !in s.lookups.callers && id in s.lookups.limiters
    ensures Steps(cfg, longer, all) && run <= longer
    ensures var s := run[|actions|];
      longer[|all|] == s.(lookups := L.Answer(s.lookups, c, id, s.lookups.limiters[id]))
  {
    var s := run[|actions|];
    var r := s.(lookups := L.Answer(s.lookups, c, id, s.lookups.limiters[id]));
    assert r.buckets == s.buckets + [];
    OneStepMore(cfg, run, actions, Lookup(L.FirstLook(c, id)), r);
    longer, all := run + [r], actions + [Lookup(L.FirstLook(c, id))];
  }

  lemma SharingGrows(cfg: Config, s: System, n: nat, m: nat, id: string, r: System)
    requires Sharing(cfg, s, n, m, id) && s.clock <= r.clock && r.buckets == s.buckets
    requires r.waiting == s.waiting[n + m := id]
    requires r.lookups == s.lookups.(callers := s.lookups.callers[n + m := L.Got(id, n, n)])
    ensures Sharing(cfg, r, n, m + 1, id)
  {
    assert UpTo(n + (m + 1)) == UpTo(n + m) + {n + m};
    forall k: nat | k <= n ensures Unasked(cfg, r.buckets[k], r.clock) {
      assert Unasked(cfg, s.buckets[k], s.clock);
    }
  }

  lemma FirstSharer(cfg: Config, n: nat, id: string, more: nat) returns (run: seq<System>, actions: seq<Action>)
    requires cfg.Valid() && cfg.global.burst >= 1 && id != ""
    requires cfg.global.rate > 0.0 || cfg.global.burst >= n + 1 + more
    ensures IsRun(cfg, run, actions) && Sharing(cfg, run[|actions|], n, 1, id) && Room(cfg, run[|actions|], more)
  {
    var past, done := StaleRun(cfg, n, id, more + 1);
    run, actions := HolderNext(cfg, past, done, n, id, more);
  }

  lemma {:induction false} SharingRun(cfg: Config, n: nat, m: nat, id: string, more: nat)
    returns (run: seq<System>, actions: seq<Action>)
    requires cfg.Valid() && cfg.global.burst >= 1 && id != "" && m >= 1
    requires cfg.global.rate > 0.0 || cfg.global.burst >= n + m + more
    ensures IsRun(cfg, run, actions) && Sharing(cfg, run[|actions|], n, m, id) && Room(cfg, run[|actions|], more)
    decreases m
  {
    if m == 1 {
      run, actions := FirstSharer(cfg, n, id, more);
    } else {
      run, actions := SharingRun(cfg, n, m - 1, id, more + 1);
      var longer, all := SharerNext(cfg, run, actions, n, m - 1, id, more);
      run, actions := longer, all;
    }
  }

  lemma StaleAre(cfg: Config, s: System, n: nat, m: nat, id: string)
    requires Sharing(cfg, s, n, m, id)
    ensures Stale(s, id, n) == UpTo(n)
  {
    forall c | c in Stale(s, id, n) ensures c < n {
      assert c in UpTo(n + m);
    }
    forall c: nat | c < n ensures c in Stale(s, id, n) {
      assert s.lookups.callers[c] == L.Got(id, c, c);
    }
  }

  /** With `n` calls that hold limiters removed before, the session's burst and `n` more of its calls can be
      forwarded at a single moment, although none of its limiters is removed in it. */
  lemma StaleCounts(cfg: Config, n: nat, id: string) returns (run: seq<System>, actions: seq<Action>, i: nat)
    requires cfg.Valid() && cfg.session.burst >= 1 && cfg.global.burst >= 1 && id != ""
    requires cfg.global.rate > 0.0 || cfg.global.burst >= n + cfg.session.burst
    ensures IsRun(cfg, run, actions) && i <= |actions| && run[|actions|].clock == run[i].clock
    ensures run[|actions|].lookups.epochs == run[i].lookups.epochs
    ensures |Stale(run[i], id, L.EpochOf(run[i].lookups.epochs, id))| == n
    ensures OfSession(run[|actions|].log, id) == OfSession(run[i].log, id) + cfg.session.burst + n
  {
    var burst := cfg.session.burst;
    var past, done := SharingRun(cfg, n, burst, id, 0);
    i := |done|;
    var s := past[i];
    StaleAre(cfg, s, n, burst, id);
    forall c: nat | c < n ensures HoldsOwn(s, c) && Unasked(cfg, s.buckets[c], s.clock) {
    }
    var longer, all := AskOwn(cfg, past, done, 0, n, id);
    var t := longer[|all|];
    assert Unasked(cfg, s.buckets[n], s.clock) && t.buckets[n] == s.buckets[n];
    forall c | n <= c < n + burst ensures SharesLimiter(t, c, n) && t.lookups.callers[c].id == id {
      assert c in s.lookups.callers && s.lookups.callers[c] == L.Got(id, n, n);
    }
    run, actions := AskShared(cfg, longer, all, n, n + burst, n, id);
    assert run[i] == longer[i] == past[i];
  }

  /** In every window that begins with `n` calls of a session holding removed limiters, and in which none of
      its limiters is removed, its forwarded calls number at most `extra` plus rate times window. */
  ghost predicate SessionWithin(cfg: Config, n: nat, extra: real) {
    forall run: seq<System>, actions: seq<Action>, i: nat, j: nat, id: string |
        IsRun(cfg, run, actions) && i <= j < |run| && StaysInEpoch(run[i], run[j], id, n) ::
      InWindow(cfg.session, run[i], run[j], OfSession(run[j].log, id) - OfSession(run[i].log, id), extra)
  }

  predicate StaysInEpoch(s: System, r: System, id: string, n: nat) {
    var epoch := L.EpochOf(s.lookups.epochs, id);
    L.EpochOf(r.lookups.epochs, id) == epoch && |Stale(s, id, epoch)| == n
  }

  /** The least such `extra` is the session's burst plus `n`. */
  lemma StaleExact(cfg: Config, n: nat, extra: real)
    requires cfg.Valid() && cfg.session.burst >= 1 && cfg.global.burst >= 1
    requires cfg.global.rate > 0.0 || cfg.global.burst >= n + cfg.session.burst
    ensures SessionWithin(cfg, n, extra) <==> (cfg.session.burst + n) as real <= extra
  {
    if SessionWithin(cfg, n, extra) {
      StaleNeeds(cfg, n, extra);
    }
    if (cfg.session.burst + n) as real <= extra {
      forall run: seq<System>, actions: seq<Action>, i: nat, j: nat, id: string |
          IsRun(cfg, run, actions) && i <= j < |run| && StaysInEpoch(run[i], run[j], id, n)
        ensures InWindow(cfg.session, run[i], run[j], OfSession(run[j].log, id) - OfSession(run[i].log, id), extra)
      {
        StaleSuffices(cfg, run, actions, i, j, id, n, extra);
      }
    }
  }

  lemma StaleNeeds(cfg: Config, n: nat, extra: real)
    requires cfg.Valid() && cfg.session.burst >= 1 && cfg.global.burst >= 1 && SessionWithin(cfg, n, extra)
    requires cfg.global.rate > 0.0 || cfg.global.burst >= n + cfg.session.burst
    ensures (cfg.session.burst + n) as real <= extra
  {
    var run, actions, i := StaleCounts(cfg, n, "session");
    var r := run[|actions|];
    assert StaysInEpoch(run[i], r, "session", n);
    assert InWindow(cfg.session, run[i], r, OfSession(r.log, "session") - OfSession(run[i].log, "session"), extra);
  }

  lemma StaleSuffices(cfg: Config, run: seq<System>, actions: seq<Action>, i: nat, j: nat, id: string, n: nat,
                      extra: real)
    requires cfg.Valid() && IsRun(cfg, run, actions) && i <= j < |run| && StaysInEpoch(run[i], run[j], id, n)
    requires (cfg.session.burst + n) as real <= extra
    ensures InWindow(cfg.session, run[i], run[j], OfSession(run[j].log, id) - OfSession(run[i].log, id), extra)
  {
    var count := OfSession(run[j].log, id) - OfSession(run[i].log, id);
    assert count as real <= n as real + cfg.session.Most(run[i].clock, run[j].clock) by {
      OneEpochBound(cfg, run, actions, i, j, id);
    }
    CountFits(cfg.session, run[i], run[j], count, n, extra);
  }

  lemma CountFits(lim: Limit, s: System, r: System, count: int, n: nat, extra: real)
    requires count as real <= n as real + lim.Most(s.clock, r.clock) && (lim.burst + n) as real <= extra
    ensures InWindow(lim, s, r, count, extra)
  {
  }

  lemma OneEpochBound(cfg: Config, run: seq<System>, actions: seq<Action>, i: nat, j: nat, id: string)
    requires cfg.Valid() && IsRun(cfg, run, actions) && i <= j < |run|
    requires L.EpochOf(run[i].lookups.epochs, id) == L.EpochOf(run[j].lookups.epochs, id)
    ensures OfSession(run[j].log, id) as real - OfSession(run[i].log, id) as real
      <= |Stale(run[i], id, L.EpochOf(run[i].lookups.epochs, id))| as real
        + cfg.session.Most(run[i].clock, run[j].clock)
  {
    OverlappingSessionBound(cfg, run, actions, i, j, id);
    assert Windows(cfg.session, run[i].clock, run[j].clock, 1) == cfg.session.Most(run[i].clock, run[j].clock);
  }
}
