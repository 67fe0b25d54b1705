/** When a cache refresh is effective among concurrent loads (pkg/tools/state/refresh_cache.go). */
module Refresh {
  import opened Cache
  import opened Loader
  import opened LoaderRuns

  /** A load that has fetched before the clock's present reading and has yet to store under the key. */
  predicate Overtaking(s: System, key: string, t: nat) {
    t in s.loads && s.loads[t].Storing? && ScopeKey(s.loads[t].scope) == key && s.loads[t].fetched.at < s.clock
  }

  ghost predicate Overtaken(s: System, key: string) {
    exists t :: Overtaking(s, key, t)
  }

  /** What the key can still yield was fetched at `since` or later; `earlier` are loads begun before. */
  predicate ControlSince(key: string, since: int, c: Control, begunBefore: bool) {
    ScopeKey(c.scope) == key ==>
      match c
      case Storing(_, f) => f.at >= since
      case Holding(_, _, e) => begunBefore || e.state.at >= since
      case Done(_, f, _) => begunBefore || f.at >= since
      case _ => true
  }

  predicate Since(s: System, key: string, since: int, earlier: set<nat>) {
    && since <= s.clock
    && (key in s.entries ==> s.entries[key].state.at >= since)
    && forall t | t in s.loads :: ControlSince(key, since, s.loads[t], t in earlier)
  }

  lemma SinceStarts(lim: Limits, s: System, scope: Scope, r: System)
    requires Next(lim, s, Invalidate(scope), r)
    requires !Overtaken(s, ScopeKey(scope))
    ensures Since(r, ScopeKey(scope), s.clock, s.loads.Keys)
  {
    forall t | t in r.loads ensures ControlSince(ScopeKey(scope), s.clock, r.loads[t], true) {
      assert !Overtaking(s, ScopeKey(scope), t);
    }
  }

  lemma SinceEntries(lim: Limits, s: System, a: Action, r: System, key: string, since: int, earlier: set<nat>)
    requires Inv(lim, s) && Next(lim, s, a, r) && Since(s, key, since, earlier)
    ensures since <= r.clock && (key in r.entries ==> r.entries[key].state.at >= since)
  {
    HistoryGrows(lim, s, a, r);
    if a.Store? {
      var c := s.loads[a.t];
      PutFrame(s.entries, ScopeKey(c.scope), Entry(c.fetched, r.clock), lim.maxSize, s.clock, lim.ttl, r.entries);
      assert ControlSince(key, since, c, a.t in earlier);
    }
  }

  lemma SinceStays(lim: Limits, s: System, a: Action, r: System, key: string, since: int, earlier: set<nat>)
    requires Inv(lim, s) && Next(lim, s, a, r) && Since(s, key, since, earlier)
    ensures Since(r, key, since, earlier)
  {
    SinceEntries(lim, s, a, r, key, since, earlier);
    forall u | u in r.loads ensures ControlSince(key, since, r.loads[u], u in earlier) {
      if !a.Invalidate? && !a.Tick? && u == a.t {
      } else {
        assert ControlSince(key, since, s.loads[u], u in earlier);
      }
    }
  }

  lemma {:induction false} SinceHolds(lim: Limits, run: seq<System>, actions: seq<Action>, i: nat, j: nat,
                                      key: string, since: int, earlier: set<nat>)
    requires IsRun(lim, run, actions) && i <= j < |run|
    requires Since(run[i], key, since, earlier)
    ensures Since(run[j], key, since, earlier)
    decreases j
  {
    if i < j {
      SinceHolds(lim, run, actions, i, j - 1, key, since, earlier);
      RunInvariant(lim, run, actions, j - 1);
      assert StepAt(lim, run, actions, j - 1);
      SinceStays(lim, run[j - 1], actions[j - 1], run[j], key, since, earlier);
    }
  }

  /** A refresh that no load is overtaking works: every later load of that key is answered with a
      state fetched no earlier than the refresh. */
  lemma RefreshIsEffective(lim: Limits, run: seq<System>, actions: seq<Action>, i: nat, j: nat, t: nat)
    requires IsRun(lim, run, actions) && i < j < |run|
    requires actions[i].Invalidate? && !Overtaken(run[i], ScopeKey(actions[i].scope))
    requires t in run[j].loads && t !in run[i].loads
    requires run[j].loads[t].Done? && ScopeKey(run[j].loads[t].scope) == ScopeKey(actions[i].scope)
    ensures run[j].loads[t].answer.at >= run[i].clock
  {
    assert StepAt(lim, run, actions, i);
    SinceStarts(lim, run[i], actions[i].scope, run[i + 1]);
    SinceHolds(lim, run, actions, i + 1, j, ScopeKey(actions[i].scope), run[i].clock, run[i].loads.Keys);
    assert ControlSince(ScopeKey(actions[i].scope), run[i].clock, run[j].loads[t], false);
  }

  /** Whenever a load is overtaking, the refresh can fail: the load stores its older state afterwards,
      and the next load is answered with it. */
  lemma OvertakenRefreshFails(lim: Limits, run: seq<System>, actions: seq<Action>, scope: Scope, t: nat, u: nat)
    returns (longer: seq<System>, all: seq<Action>)
    requires IsRun(lim, run, actions) && lim.ttl > 0 && scope.identity != ""
    requires Overtaking(run[|actions|], ScopeKey(scope), t) && u !in run[|actions|].loads
    ensures IsRun(lim, longer, all) && |actions| + 1 < |all|
    ensures longer[|actions|] == run[|actions|] && all[|actions|] == Invalidate(scope)
    ensures var loads := longer[|all|].loads;
      u in loads && loads[u].Done? && loads[u].scope == scope && loads[u].answer.at < run[|actions|].clock
  {
    RunInvariant(lim, run, actions, |actions|);
    var s, key := run[|actions|], ScopeKey(scope);
    var s1 := s.(entries := s.entries - {key}, log := s.log + [Invalidated(key)]);
    assert Next(lim, s, Invalidate(scope), s1);
    var s2 := StoreNow(lim, s1, t);
    var more, next := ServeFromCache(lim, s2, u, scope);
    Chain(lim, [s, s1, s2], [Invalidate(scope), Store(t)], more, next);
    longer, all := [s, s1, s2] + more[1..], [Invalidate(scope), Store(t)] + next;
    Chain(lim, run, actions, longer, all);
    longer, all := run + longer[1..], actions + all;
  }

  /** A run with an overtaking load exists for every scope. */
  lemma OvertakingArises(lim: Limits, scope: Scope) returns (run: seq<System>, actions: seq<Action>)
    ensures IsRun(lim, run, actions)
    ensures Overtaking(run[|actions|], ScopeKey(scope), 0) && run[|actions|].loads.Keys == {0}
  {
    var s0 := System(map[], 0, map[], [], {});
    var s1 := Move(s0, 0, Fetching(scope)).(asked := {scope});
    var s2 := Move(s1, 0, Storing(scope, Fetched(scope, 0, 0)));
    var s3 := s2.(clock := 1);
    run, actions := [s0, s1, s2, s3], [Start(0, scope, true), Fetch(0, 0), Tick];
    assert Next(lim, s0, actions[0], s1) && Next(lim, s1, actions[1], s2) && Next(lim, s2, actions[2], s3);
  }

  /** A refresh at step `i` of the run, and load `t`, begun later and answered at step `j` with a state
      older than the refresh. */
  ghost predicate Missed(lim: Limits, run: seq<System>, actions: seq<Action>, i: nat, j: nat, t: nat) {
    && IsRun(lim, run, actions) && i < j < |run| && actions[i].Invalidate?
    && t !in run[i].loads && t in run[j].loads && run[j].loads[t].Done?
    && ScopeKey(run[j].loads[t].scope) == ScopeKey(actions[i].scope)
    && run[j].loads[t].answer.at < run[i].clock
  }

  /** Some run that is in state `s` after `at` steps, and makes its refresh then, misses it. */
  ghost predicate MayMiss(lim: Limits, s: System, at: nat, scope: Scope) {
    exists run: seq<System>, actions: seq<Action>, j: nat, t: nat ::
      Missed(lim, run, actions, at, j, t) && run[at] == s && actions[at] == Invalidate(scope)
  }

  /** At every moment of every run, a refresh made now may be missed iff a load of its key has fetched
      earlier and is yet to store. */
  lemma RefreshMissedIffOvertaken(lim: Limits, run: seq<System>, actions: seq<Action>, scope: Scope)
    requires IsRun(lim, run, actions) && lim.ttl > 0 && scope.identity != ""
    ensures MayMiss(lim, run[|actions|], |actions|, scope) <==> Overtaken(run[|actions|], ScopeKey(scope))
  {
    var s, at := run[|actions|], |actions|;
    if MayMiss(lim, s, at, scope) && !Overtaken(s, ScopeKey(scope)) {
      var longer: seq<System>, all: seq<Action>, j: nat, t: nat :|
        Missed(lim, longer, all, at, j, t) && longer[at] == s && all[at] == Invalidate(scope);
      RefreshIsEffective(lim, longer, all, at, j, t);
      assert false;
    }
    if Overtaken(s, ScopeKey(scope)) {
      var t :| Overtaking(s, ScopeKey(scope), t);
      var u := Unused(s.loads.Keys);
      var longer, all := OvertakenRefreshFails(lim, run, actions, scope, t, u);
      assert Missed(lim, longer, all, at, |all|, u);
    }
  }

  lemma {:induction false} Unused(names: set<nat>) returns (u: nat)
    ensures forall n | n in names :: n < u
    decreases |names|
  {
    u := 0;
    if names != {} {
      var n :| n in names;
      u := Unused(names - {n});
      assert forall m | m in names :: m == n || m in names - {n};
      u := if n < u then u else n + 1;
    }
  }
}
