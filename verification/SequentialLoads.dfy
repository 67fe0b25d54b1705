/** A load that nothing overlaps, as the method `StateLoader.Load` runs it, is one of the runs of the step
    machine: same answer, same cache afterwards. */
module SequentialLoads {
  import opened JsonTree
  import opened Cache
  import opened Loader
  import opened LoaderRuns

  function ScopeOf(q: Request, org: string): Scope {
    Scope(q.sessionID, org, q.workspace)
  }

  /** The clock readings of the load, from now on and in the order in which it takes them. */
  predicate InOrder(s: System, at: Moments, fetched: Result<Fetched>, scope: Scope) {
    && s.clock <= at.check <= at.judge <= at.store
    && (fetched.Ok? ==> fetched.value.scope == scope && at.check <= fetched.value.at <= at.judge)
  }

  /** The load has ended with `r`: its answer is there, or it is gone; other loads have not moved. */
  predicate EndsWith(s: System, t: nat, scope: Scope, r: Result<Fetched>, end: System)
    requires t !in s.loads
  {
    if r.Err? then end.loads == s.loads
    else
      t in end.loads && end.loads == s.loads[t := end.loads[t]] && end.loads[t].Done? &&
      end.loads[t].scope == scope && end.loads[t].answer == r.value
  }

  /** Start to fetching, when the cache is not to be used. */
  lemma GoesToFetch(lim: Limits, s: System, t: nat, scope: Scope, force: bool)
    returns (run: seq<System>, actions: seq<Action>)
    requires t !in s.loads && (force || scope.identity == "")
    ensures Steps(lim, run, actions) && run[0] == s
    ensures run[|actions|] == Move(s, t, Fetching(scope)).(asked := s.asked + {scope})
  {
    var s1 := Move(s, t, Fetching(scope)).(asked := s.asked + {scope});
    run, actions := [s, s1], [Start(t, scope, force)];
    assert Next(lim, s, actions[0], s1);
  }

  /** Start to fetching, when nothing is stored under the key. */
  lemma FindsNothing(lim: Limits, s: System, t: nat, scope: Scope)
    returns (run: seq<System>, actions: seq<Action>)
    requires t !in s.loads && scope.identity != "" && ScopeKey(scope) !in s.entries
    ensures Steps(lim, run, actions) && run[0] == s
    ensures run[|actions|] == Move(s, t, Fetching(scope)).(asked := s.asked + {scope})
  {
    var s1 := Move(s, t, Looking(scope)).(asked := s.asked + {scope});
    var s2 := Move(s1, t, Fetching(scope));
    run, actions := [s, s1, s2], [Start(t, scope, false), Read(t)];
    assert Next(lim, s, actions[0], s1) && Next(lim, s1, actions[1], s2);
  }

  /** Start to fetching, when the entry has expired. */
  lemma FindsExpired(lim: Limits, s: System, t: nat, scope: Scope)
    returns (run: seq<System>, actions: seq<Action>)
    requires t !in s.loads && scope.identity != "" && ScopeKey(scope) in s.entries
    requires !Fresh(s.entries[ScopeKey(scope)], s.clock, lim.ttl)
    ensures Steps(lim, run, actions) && run[0] == s
    ensures run[|actions|] == Move(s, t, Fetching(scope)).(
        asked := s.asked + {scope}, entries := s.entries - {ScopeKey(scope)})
  {
    var e := s.entries[ScopeKey(scope)];
    var s1 := Move(s, t, Looking(scope)).(asked := s.asked + {scope});
    var s2 := Move(s1, t, Holding(scope, |s.log|, e));
    var s3 := Move(s2, t, Deleting(scope, e));
    var s4 := Move(s3, t, Fetching(scope)).(entries := s.entries - {ScopeKey(scope)});
    run, actions := [s, s1, s2, s3, s4], [Start(t, scope, false), Read(t), Check(t), Delete(t)];
    assert Next(lim, s, actions[0], s1) && Next(lim, s1, actions[1], s2);
    assert Next(lim, s2, actions[2], s3) && Next(lim, s3, actions[3], s4);
    assert s4.loads == s.loads[t := Fetching(scope)];
  }

  /** From fetching to the end. */
  lemma FetchesAndStores(lim: Limits, s: System, t: nat, scope: Scope, fetched: Result<Fetched>, at: Moments,
                         after: Entries)
    returns (run: seq<System>, actions: seq<Action>)
    requires t in s.loads && s.loads[t] == Fetching(scope) && InOrder(s, at, fetched, scope)
    requires fetched.Err? ==> after == s.entries
    requires fetched.Ok? ==>
      PutResult(s.entries, ScopeKey(scope), Entry(fetched.value, at.store), lim.maxSize, at.judge, lim.ttl, after)
    ensures Steps(lim, run, actions) && run[0] == s && run[|actions|].entries == after
    ensures EndsWith(s.(loads := s.loads - {t}), t, scope, fetched, run[|actions|])
  {
    if fetched.Err? {
      var s1 := s.(loads := s.loads - {t});
      run, actions := [s, s1], [FetchFails(t)];
      assert Next(lim, s, actions[0], s1);
    } else {
      var f := fetched.value;
      var s1 := s.(clock := f.at);
      var s2 := Move(s1, t, Storing(scope, f));
      var s3 := s2.(clock := at.judge);
      var e := Entry(f, at.store);
      var s4 := Move(s3, t, Done(scope, f, OwnFetch)).(
        entries := after, clock := at.store, log := s.log + [Stored(ScopeKey(scope), e)]);
      run, actions := [s, s1, s2, s3, s4], [Tick, Fetch(t, f.content), Tick, Store(t)];
      assert Next(lim, s, actions[0], s1) && Next(lim, s1, actions[1], s2) && Next(lim, s2, actions[2], s3);
      assert Next(lim, s3, actions[3], s4);
    }
  }

  /** Start to fetching, in all cases; the cache has then lost the expired entry, if there was one. */
  lemma ReachesFetch(lim: Limits, s: System, t: nat, scope: Scope, force: bool)
    returns (run: seq<System>, actions: seq<Action>)
    requires t !in s.loads
    requires !force && scope.identity != "" && ScopeKey(scope) in s.entries ==>
      !Fresh(s.entries[ScopeKey(scope)], s.clock, lim.ttl)
    ensures Steps(lim, run, actions) && run[0] == s
    ensures run[|actions|] == Move(s, t, Fetching(scope)).(
        asked := s.asked + {scope},
        entries := if force || scope.identity == "" then s.entries else s.entries - {ScopeKey(scope)})
  {
    if force || scope.identity == "" {
      run, actions := GoesToFetch(lim, s, t, scope, force);
    } else if ScopeKey(scope) in s.entries {
      run, actions := FindsExpired(lim, s, t, scope);
    } else {
      assert s.entries - {ScopeKey(scope)} == s.entries;
      run, actions := FindsNothing(lim, s, t, scope);
    }
  }

  /** The clock has moved on to the freshness check when the load begins. */
  lemma LoadAtCheck(lim: Limits, s: System, t: nat, q: Request, org: string, fetched: Result<Fetched>, at: Moments,
                    r: Result<Fetched>, after: Entries)
    returns (run: seq<System>, actions: seq<Action>)
    requires t !in s.loads && InOrder(s, at, fetched, ScopeOf(q, org)) && s.clock == at.check
    requires LoadResult("tfc", lim.maxSize, lim.ttl, q, org, fetched, at, s.entries, r, after)
    ensures Steps(lim, run, actions) && run[0] == s
    ensures run[|actions|].entries == after && EndsWith(s, t, ScopeOf(q, org), r, run[|actions|])
  {
    var scope := ScopeOf(q, org);
    var key := ScopeKey(scope);
    var useCache := !q.force && q.sessionID != "";
    if org == "" || q.workspace == "" {
      run, actions := [s], [];
    } else if useCache && key in s.entries && Fresh(s.entries[key], at.check, lim.ttl) {
      run, actions := ServeFromCache(lim, s, t, scope);
    } else {
      run, actions := ReachesFetch(lim, s, t, scope, q.force);
      var mid := run[|actions|];
      assert mid.loads - {t} == s.loads;
      var more, next := FetchesAndStores(lim, mid, t, scope, fetched, at, after);
      Chain(lim, run, actions, more, next);
      run, actions := run + more[1..], actions + next;
    }
  }

  /** What the contract of `Load` allows, the machine can do by moving this one load from start to end. A
      rejected load leaves no trace. */
  lemma LoadIsARun(lim: Limits, s: System, t: nat, q: Request, org: string, fetched: Result<Fetched>, at: Moments,
                   r: Result<Fetched>, after: Entries)
    returns (run: seq<System>, actions: seq<Action>)
    requires t !in s.loads && InOrder(s, at, fetched, ScopeOf(q, org))
    requires LoadResult("tfc", lim.maxSize, lim.ttl, q, org, fetched, at, s.entries, r, after)
    ensures Steps(lim, run, actions) && run[0] == s
    ensures run[|actions|].entries == after && EndsWith(s, t, ScopeOf(q, org), r, run[|actions|])
  {
    var s1 := s.(clock := at.check);
    assert Next(lim, s, Tick, s1);
    var more, next := LoadAtCheck(lim, s1, t, q, org, fetched, at, r, after);
    Chain(lim, [s, s1], [Tick], more, next);
    run, actions := [s, s1] + more[1..], [Tick] + next;
  }
}
