/** What the cache does keep (pkg/tools/state/loader.go): a stored entry is found and served as long as
    nothing that may take it away happens. */
module StoredEntries {
  import opened Cache
  import opened Loader
  import opened LoaderRuns

  /** The step may take the entry of `key` away or replace it: a store under it, a store under another key
      into a full cache, a late delete of it, or its invalidation. */
  predicate MayTake(lim: Limits, s: System, a: Action, key: string) {
    match a
    case Store(t) => t in s.loads && (ScopeKey(s.loads[t].scope) == key || |s.entries| >= lim.maxSize)
    case Delete(t) => t in s.loads && ScopeKey(s.loads[t].scope) == key
    case Invalidate(scope) => ScopeKey(scope) == key
    case _ => false
  }

  predicate NothingTakes(lim: Limits, run: seq<System>, actions: seq<Action>, i: nat, j: nat, key: string)
    requires i <= j <= |actions| < |run|
  {
    forall h | i <= h < j :: !MayTake(lim, run[h], actions[h], key)
  }

  lemma {:induction false} Stays(lim: Limits, run: seq<System>, actions: seq<Action>, i: nat, j: nat, key: string)
    requires IsRun(lim, run, actions) && i <= j < |run| && NothingTakes(lim, run, actions, i, j, key)
    requires key in run[i].entries
    ensures key in run[j].entries && run[j].entries[key] == run[i].entries[key]
    decreases j
  {
    if i < j {
      Stays(lim, run, actions, i, j - 1, key);
      RunInvariant(lim, run, actions, j - 1);
      assert StepAt(lim, run, actions, j - 1);
    }
  }

  /** The entry that a store under `key` at step `i` makes. */
  function StoredAt(run: seq<System>, actions: seq<Action>, i: nat): Entry<Fetched>
    requires i < |actions| < |run| && actions[i].Store?
    requires actions[i].t in run[i].loads && run[i].loads[actions[i].t].Storing?
  {
    Entry(run[i].loads[actions[i].t].fetched, run[i + 1].clock)
  }

  lemma StoreIsIn(lim: Limits, run: seq<System>, actions: seq<Action>, i: nat)
    requires IsRun(lim, run, actions) && i < |actions| && actions[i].Store?
    ensures actions[i].t in run[i].loads && run[i].loads[actions[i].t].Storing?
    ensures var key := ScopeKey(run[i].loads[actions[i].t].scope);
      key in run[i + 1].entries && run[i + 1].entries[key] == StoredAt(run, actions, i)
  {
    RunInvariant(lim, run, actions, i);
    assert StepAt(lim, run, actions, i);
    var s, r, c := run[i], run[i + 1], run[i].loads[actions[i].t];
    PutFrame(s.entries, ScopeKey(c.scope), Entry(c.fetched, r.clock), lim.maxSize, s.clock, lim.ttl, r.entries);
  }

  /** A read finds what was stored under its key, unless something in between may have taken it. */
  lemma StoredIsFound(lim: Limits, run: seq<System>, actions: seq<Action>, i: nat, j: nat)
    requires IsRun(lim, run, actions) && i < j < |actions| && actions[i].Store? && actions[j].Read?
    requires actions[i].t in run[i].loads && actions[j].t in run[j].loads
    requires var key := ScopeKey(run[i].loads[actions[i].t].scope);
      ScopeKey(run[j].loads[actions[j].t].scope) == key && NothingTakes(lim, run, actions, i + 1, j, key)
    ensures run[i].loads[actions[i].t].Storing?
    ensures var u := actions[j].t;
      u in run[j + 1].loads
      && run[j + 1].loads[u] == Holding(run[j].loads[u].scope, |run[j].log|, StoredAt(run, actions, i))
  {
    StoreIsIn(lim, run, actions, i);
    Stays(lim, run, actions, i + 1, j, ScopeKey(run[i].loads[actions[i].t].scope));
    assert StepAt(lim, run, actions, j);
  }

  /** A load that has read an entry keeps it until its check. */
  lemma {:induction false} HoldsUntilCheck(lim: Limits, run: seq<System>, actions: seq<Action>, j: nat, k: nat, u: nat)
    requires IsRun(lim, run, actions) && j <= k < |run| && u in run[j].loads && run[j].loads[u].Holding?
    requires forall h | j <= h < k :: actions[h] != Check(u)
    ensures u in run[k].loads && run[k].loads[u] == run[j].loads[u]
    decreases k
  {
    if j < k {
      HoldsUntilCheck(lim, run, actions, j, k - 1, u);
      assert StepAt(lim, run, actions, k - 1);
    }
  }

  /** And it serves what was stored exactly when that is younger than the TTL at its check. */
  lemma StoredIsServed(lim: Limits, run: seq<System>, actions: seq<Action>, i: nat, j: nat, k: nat)
    requires IsRun(lim, run, actions) && i < j < k < |actions| && actions[i].Store? && actions[j].Read?
    requires actions[i].t in run[i].loads && actions[j].t in run[j].loads
    requires var key := ScopeKey(run[i].loads[actions[i].t].scope);
      ScopeKey(run[j].loads[actions[j].t].scope) == key && NothingTakes(lim, run, actions, i + 1, j, key)
    requires actions[k] == Check(actions[j].t) && forall h | j < h < k :: actions[h] != Check(actions[j].t)
    ensures run[i].loads[actions[i].t].Storing?
    ensures var u, f := actions[j].t, run[i].loads[actions[i].t].fetched;
      && u in run[k + 1].loads
      && (run[k].clock - run[i + 1].clock < lim.ttl <==> run[k + 1].loads[u].Done?)
      && (run[k + 1].loads[u].Done? ==> run[k + 1].loads[u].answer == f && run[k + 1].loads[u].source.FromCache?)
  {
    StoredIsFound(lim, run, actions, i, j);
    HoldsUntilCheck(lim, run, actions, j + 1, k, actions[j].t);
    assert StepAt(lim, run, actions, k);
  }
}
