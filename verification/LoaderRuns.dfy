/** Loads of many sessions running at once over one cache (pkg/tools/state/loader.go). Every critical
    section of the cache is one step; a lookup takes two of them, with the expiry check in between. */
module LoaderRuns {
  import opened Cache
  import opened Loader
  import opened Strings

  /** A state document, stamped with whom it was fetched for and when. */
  datatype Fetched = Fetched(scope: Scope, at: int, content: int)

  type Entries = map<string, Entry<Fetched>>

  datatype Event = Stored(key: string, entry: Entry<Fetched>) | Invalidated(key: string)

  /** Where an answer came from: this load's own fetch, or an entry read after `read` events. */
  datatype Source = OwnFetch | FromCache(read: nat, entry: Entry<Fetched>, checked: int)

  datatype Control =
    | Looking(scope: Scope)
    | Holding(scope: Scope, read: nat, entry: Entry<Fetched>)
    | Deleting(scope: Scope, expired: Entry<Fetched>)
    | Fetching(scope: Scope)
    | Storing(scope: Scope, fetched: Fetched)
    | Done(scope: Scope, answer: Fetched, source: Source)

  /** `log` and `asked` only record history. `loads` holds the control state of every load under way. */
  datatype System = System(entries: Entries, clock: int, loads: map<nat, Control>, log: seq<Event>, asked: set<Scope>)

  datatype Limits = Limits(maxSize: int, ttl: int)

  datatype Action =
    | Start(t: nat, scope: Scope, force: bool)
    | Read(t: nat)
    | Check(t: nat)
    | Delete(t: nat)
    | Fetch(t: nat, content: int)
    | FetchFails(t: nat)
    | Store(t: nat)
    | Finish(t: nat)
    | Invalidate(scope: Scope)
    | Tick

  function ScopeKey(s: Scope): string {
    CacheKey("tfc", s)
  }

  predicate Init(s: System) {
    s.entries == map[] && s.loads == map[] && s.log == [] && s.asked == {}
  }

  /** One load moves on, and nothing else changes but what is named. */
  function Move(s: System, t: nat, c: Control): System {
    s.(loads := s.loads[t := c])
  }

  ghost predicate Next(lim: Limits, s: System, a: Action, r: System) {
    match a
    case Start(t, scope, force) =>
      t !in s.loads &&
      r == Move(s, t, if force || scope.identity == "" then Fetching(scope) else Looking(scope)).(
        asked := s.asked + {scope})
    case Read(t) =>
      t in s.loads && s.loads[t].Looking? &&
      var scope := s.loads[t].scope;
      r == Move(s, t,
        if ScopeKey(scope) in s.entries then Holding(scope, |s.log|, s.entries[ScopeKey(scope)])
        else Fetching(scope))
    case Check(t) =>
      t in s.loads && s.loads[t].Holding? &&
      var c := s.loads[t];
      r == Move(s, t,
        if Fresh(c.entry, s.clock, lim.ttl) then Done(c.scope, c.entry.state, FromCache(c.read, c.entry, s.clock))
        else Deleting(c.scope, c.entry))
    case Delete(t) =>
      t in s.loads && s.loads[t].Deleting? &&
      r == Move(s, t, Fetching(s.loads[t].scope)).(entries := s.entries - {ScopeKey(s.loads[t].scope)})
    case Fetch(t, content) =>
      t in s.loads && s.loads[t].Fetching? &&
      r == Move(s, t, Storing(s.loads[t].scope, Fetched(s.loads[t].scope, s.clock, content)))
    case FetchFails(t) =>
      t in s.loads && s.loads[t].Fetching? && r == s.(loads := s.loads - {t})
    case Store(t) =>
      t in s.loads && s.loads[t].Storing? &&
      var c := s.loads[t];
      var e := Entry(c.fetched, r.clock);
      && r.clock >= s.clock
      && PutResult(s.entries, ScopeKey(c.scope), e, lim.maxSize, s.clock, lim.ttl, r.entries)
      && r == Move(s, t, Done(c.scope, c.fetched, OwnFetch)).(
           entries := r.entries, clock := r.clock, log := s.log + [Stored(ScopeKey(c.scope), e)])
    case Finish(t) =>
      t in s.loads && s.loads[t].Done? && r == s.(loads := s.loads - {t})
    case Invalidate(scope) =>
      r == s.(entries := s.entries - {ScopeKey(scope)}, log := s.log + [Invalidated(ScopeKey(scope))])
    case Tick =>
      r.clock >= s.clock && r == s.(clock := r.clock)
  }

  ghost predicate StepAt(lim: Limits, run: seq<System>, actions: seq<Action>, i: nat)
    requires i < |actions| < |run|
  {
    Next(lim, run[i], actions[i], run[i + 1])
  }

  ghost predicate Steps(lim: Limits, run: seq<System>, actions: seq<Action>) {
    |run| == |actions| + 1 && forall i: nat | i < |actions| :: StepAt(lim, run, actions, i)
  }

  ghost predicate IsRun(lim: Limits, run: seq<System>, actions: seq<Action>) {
    Steps(lim, run, actions) && Init(run[0])
  }

  /** Two stretches of steps that meet make one. */
  lemma Chain(lim: Limits, run: seq<System>, actions: seq<Action>, more: seq<System>, next: seq<Action>)
    requires Steps(lim, run, actions) && Steps(lim, more, next) && more[0] == run[|actions|]
    ensures Steps(lim, run + more[1..], actions + next)
    ensures (run + more[1..])[0] == run[0] && (run + more[1..])[|actions + next|] == more[|next|]
    ensures forall i | 0 <= i < |more| :: (run + more[1..])[|actions| + i] == more[i]
  {
    forall i: nat | i < |actions + next| ensures StepAt(lim, run + more[1..], actions + next, i) {
      if i < |actions| {
        assert StepAt(lim, run, actions, i);
      } else {
        assert StepAt(lim, more, next, i - |actions|);
      }
    }
  }

  // ---------- the reference: a map that loses nothing ----------

  /** What an unbounded map without expiry holds after the recorded events. */
  function Latest(log: seq<Event>): Entries {
    if log == [] then map[]
    else
      var m, e := Latest(log[..|log| - 1]), log[|log| - 1];
      match e
      case Stored(key, entry) => m[key := entry]
      case Invalidated(key) => m - {key}
  }

  /** An entry of the reference was stored at some event, and no later event names its key. */
  lemma {:induction false} LatestIsLastStored(log: seq<Event>, key: string) returns (i: nat)
    requires key in Latest(log)
    ensures i < |log| && log[i] == Stored(key, Latest(log)[key])
    ensures forall h | i < h < |log| :: log[h].key != key
  {
    var n := |log| - 1;
    if log[n].key == key {
      i := n;
    } else {
      i := LatestIsLastStored(log[..n], key);
      assert log[..n][i] == log[i];
      assert forall h | i < h < n :: log[..n][h] == log[h];
    }
  }

  // ---------- the invariant of every run ----------

  predicate Genuine(f: Fetched, key: string, asked: set<Scope>, clock: int) {
    f.scope in asked && ScopeKey(f.scope) == key && f.at <= clock
  }

  predicate GenuineEntry(e: Entry<Fetched>, key: string, asked: set<Scope>, clock: int) {
    Genuine(e.state, key, asked, e.loadedAt) && e.loadedAt <= clock
  }

  predicate ReadFrom(log: seq<Event>, read: nat, key: string, e: Entry<Fetched>) {
    read <= |log| && key in Latest(log[..read]) && Latest(log[..read])[key] == e
  }

  predicate ValidControl(lim: Limits, s: System, c: Control) {
    && c.scope in s.asked
    && match c
       case Looking(scope) => scope.identity != ""
       case Deleting(scope, e) => scope.identity != "" && !Fresh(e, s.clock, lim.ttl)
       case Fetching(_) => true
       case Holding(scope, read, e) =>
         && scope.identity != "" && ReadFrom(s.log, read, ScopeKey(scope), e)
         && GenuineEntry(e, ScopeKey(scope), s.asked, s.clock)
       case Storing(scope, f) => f.scope == scope && f.at <= s.clock
       case Done(scope, f, OwnFetch) => f.scope == scope && f.at <= s.clock
       case Done(scope, f, FromCache(read, e, checked)) =>
         && scope.identity != "" && f == e.state
         && ReadFrom(s.log, read, ScopeKey(scope), e) && GenuineEntry(e, ScopeKey(scope), s.asked, s.clock)
         && e.loadedAt <= checked <= s.clock && Fresh(e, checked, lim.ttl)
  }

  predicate LossyView(m: Entries, full: Entries) {
    forall k | k in m :: k in full && m[k] == full[k]
  }

  predicate EntriesInv(lim: Limits, s: System) {
    && (forall k | k in s.entries :: GenuineEntry(s.entries[k], k, s.asked, s.clock))
    && LossyView(s.entries, Latest(s.log))
    && "" !in s.entries && |s.entries| <= (if lim.maxSize < 1 then 1 else lim.maxSize)
  }

  predicate Inv(lim: Limits, s: System) {
    EntriesInv(lim, s) && forall t | t in s.loads :: ValidControl(lim, s, s.loads[t])
  }

  /** What was true of a load stays true when only later history is added. */
  lemma ControlStays(lim: Limits, s: System, r: System, c: Control)
    requires ValidControl(lim, s, c)
    requires s.clock <= r.clock && s.log <= r.log && s.asked <= r.asked
    ensures ValidControl(lim, r, c)
  {
    forall n: nat | n <= |s.log| ensures r.log[..n] == s.log[..n] {
    }
  }

  lemma SmallerMap(m: Entries, key: string)
    ensures |m - {key}| <= |m|
  {
    assert (m - {key}).Keys == m.Keys - {key};
    SubsetSize(m.Keys - {key}, m.Keys);
  }

  lemma FrameKeepsView(m: Entries, full: Entries, key: string, e: Entry<Fetched>, r: Entries)
    requires LossyView(m, full) && "" !in m && key != ""
    requires key in r && r[key] == e && forall k | k in r && k != key :: k in m && r[k] == m[k]
    ensures LossyView(r, full[key := e]) && "" !in r
  {
  }

  predicate PutKeeps(lim: Limits, m: Entries, full: Entries, key: string, e: Entry<Fetched>, r: Entries) {
    && "" !in r && |r| <= (if lim.maxSize < 1 then 1 else lim.maxSize)
    && LossyView(r, full[key := e]) && key in r && r[key] == e
    && forall k | k in r && k != key :: k in m && r[k] == m[k]
  }

  /** A put keeps the map a lossy view of the reference, whatever it evicts. */
  lemma PutKeepsView(lim: Limits, m: Entries, full: Entries, key: string, e: Entry<Fetched>, now: int, r: Entries)
    requires PutResult(m, key, e, lim.maxSize, now, lim.ttl, r)
    requires "" !in m && key != "" && LossyView(m, full)
    requires |m| <= (if lim.maxSize < 1 then 1 else lim.maxSize)
    ensures PutKeeps(lim, m, full, key, e, r)
  {
    PutBounded(m, key, e, lim.maxSize, now, lim.ttl, r);
    PutFrame(m, key, e, lim.maxSize, now, lim.ttl, r);
    FrameKeepsView(m, full, key, e, r);
  }

  lemma StoreKeepsEntries(lim: Limits, s: System, c: Control, r: System)
    requires EntriesInv(lim, s) && c.Storing? && ValidControl(lim, s, c) && s.clock <= r.clock && r.asked == s.asked
    requires var key, e := ScopeKey(c.scope), Entry(c.fetched, r.clock);
      PutKeeps(lim, s.entries, Latest(s.log), key, e, r.entries) && r.log == s.log + [Stored(key, e)]
    ensures EntriesInv(lim, r)
  {
    LatestAppend(s.log, Stored(ScopeKey(c.scope), Entry(c.fetched, r.clock)));
    forall k | k in r.entries ensures GenuineEntry(r.entries[k], k, r.asked, r.clock) {
      assert k != ScopeKey(c.scope) ==> GenuineEntry(s.entries[k], k, s.asked, s.clock);
    }
  }

  lemma EntriesPreserved(lim: Limits, s: System, a: Action, r: System)
    requires Inv(lim, s) && Next(lim, s, a, r)
    ensures EntriesInv(lim, r)
  {
    match a {
      case Store(t) =>
        var c := s.loads[t];
        var key, e := ScopeKey(c.scope), Entry(c.fetched, r.clock);
        CacheKeyIsNeverEmpty("tfc", c.scope);
        PutKeepsView(lim, s.entries, Latest(s.log), key, e, s.clock, r.entries);
        assert ValidControl(lim, s, c);
        StoreKeepsEntries(lim, s, c, r);
      case Delete(t) =>
        SmallerMap(s.entries, ScopeKey(s.loads[t].scope));
      case Invalidate(scope) =>
        SmallerMap(s.entries, ScopeKey(scope));
        LatestAppend(s.log, Invalidated(ScopeKey(scope)));
      case _ =>
    }
  }

  lemma LatestAppend(log: seq<Event>, e: Event)
    ensures Latest(log + [e]) == if e.Stored? then Latest(log)[e.key := e.entry] else Latest(log) - {e.key}
  {
    assert (log + [e])[..|log|] == log;
  }

  lemma HistoryGrows(lim: Limits, s: System, a: Action, r: System)
    requires Next(lim, s, a, r)
    ensures s.clock <= r.clock && s.log <= r.log && s.asked <= r.asked
  {
  }

  /** The load that takes the step. */
  lemma ActorStaysValid(lim: Limits, s: System, a: Action, r: System)
    requires Inv(lim, s) && Next(lim, s, a, r) && !a.Invalidate? && !a.Tick?
    requires a.t in r.loads
    ensures ValidControl(lim, r, r.loads[a.t])
  {
    if !a.Start? {
      assert ValidControl(lim, s, s.loads[a.t]);
    }
    if a.Read? {
      assert s.log[..|s.log|] == s.log;
    }
  }

  lemma Preserved(lim: Limits, s: System, a: Action, r: System)
    requires Inv(lim, s) && Next(lim, s, a, r)
    ensures Inv(lim, r)
  {
    EntriesPreserved(lim, s, a, r);
    HistoryGrows(lim, s, a, r);
    forall u | u in r.loads ensures ValidControl(lim, r, r.loads[u]) {
      if !a.Invalidate? && !a.Tick? && u == a.t {
        ActorStaysValid(lim, s, a, r);
      } else {
        ControlStays(lim, s, r, s.loads[u]);
      }
    }
  }

  lemma {:induction false} RunInvariant(lim: Limits, run: seq<System>, actions: seq<Action>, i: nat)
    requires IsRun(lim, run, actions) && i < |run|
    ensures Inv(lim, run[i])
  {
    if i > 0 {
      RunInvariant(lim, run, actions, i - 1);
      assert StepAt(lim, run, actions, i - 1);
      Preserved(lim, run[i - 1], actions[i - 1], run[i]);
    }
  }

  // ---------- what a load may answer ----------

  /** Event `h` stored the entry, and no event between it and `read` names the key. */
  predicate MostRecent(log: seq<Event>, read: nat, h: nat, key: string, e: Entry<Fetched>) {
    h < read <= |log| && log[h] == Stored(key, e) && forall l | h < l < read :: log[l].key != key
  }

  ghost predicate Justified(lim: Limits, s: System, c: Control)
    requires c.Done?
  {
    match c.source
    case OwnFetch => c.answer.scope == c.scope
    case FromCache(read, e, checked) =>
      && c.scope.identity != "" && c.answer == e.state
      && e.state.at <= e.loadedAt <= checked < e.loadedAt + lim.ttl
      && exists h: nat :: MostRecent(s.log, read, h, ScopeKey(c.scope), e)
  }

  /** Every answer, in every interleaving, was fetched by the load itself for exactly its own scope,
      or is the entry most recently stored under its key when the load read the map: not invalidated
      since, younger than the TTL when checked, and never served without a session identity. */
  lemma AnswersRefineLossyMap(lim: Limits, run: seq<System>, actions: seq<Action>, i: nat, t: nat)
    requires IsRun(lim, run, actions) && i < |run|
    requires t in run[i].loads && run[i].loads[t].Done?
    ensures Justified(lim, run[i], run[i].loads[t])
  {
    RunInvariant(lim, run, actions, i);
    var s, c := run[i], run[i].loads[t];
    assert ValidControl(lim, s, c);
    if c.source.FromCache? {
      var prefix := s.log[..c.source.read];
      var h := LatestIsLastStored(prefix, ScopeKey(c.scope));
      assert prefix[h] == s.log[h];
      forall l | h < l < c.source.read ensures s.log[l].key != ScopeKey(c.scope) {
        assert prefix[l] == s.log[l];
      }
      assert MostRecent(s.log, c.source.read, h, ScopeKey(c.scope), c.source.entry);
    }
  }

  /** A load about to store can do so at once, and its entry is then in the map. */
  lemma StoreNow(lim: Limits, s: System, t: nat) returns (r: System)
    requires t in s.loads && s.loads[t].Storing? && "" !in s.entries
    ensures Next(lim, s, Store(t), r)
    ensures var c := s.loads[t];
      && ScopeKey(c.scope) in r.entries && r.entries[ScopeKey(c.scope)] == Entry(c.fetched, s.clock)
      && r.clock == s.clock && r.log == s.log + [Stored(ScopeKey(c.scope), Entry(c.fetched, s.clock))]
      && r.loads == s.loads[t := Done(c.scope, c.fetched, OwnFetch)]
  {
    var c := s.loads[t];
    var key, e := ScopeKey(c.scope), Entry(c.fetched, s.clock);
    var m := PutTotal(s.entries, key, e, lim.maxSize, s.clock, lim.ttl);
    PutFrame(s.entries, key, e, lim.maxSize, s.clock, lim.ttl, m);
    r := Move(s, t, Done(c.scope, c.fetched, OwnFetch)).(entries := m, log := s.log + [Stored(key, e)]);
  }

  /** A new load of a fresh entry's key is answered with it. */
  lemma ServeFromCache(lim: Limits, s: System, u: nat, scope: Scope) returns (run: seq<System>, actions: seq<Action>)
    requires u !in s.loads && scope.identity != "" && ScopeKey(scope) in s.entries
    requires Fresh(s.entries[ScopeKey(scope)], s.clock, lim.ttl)
    ensures Steps(lim, run, actions) && run[0] == s && |actions| > 0
    ensures var e := s.entries[ScopeKey(scope)];
      run[|actions|] == Move(s, u, Done(scope, e.state, FromCache(|s.log|, e, s.clock))).(asked := s.asked + {scope})
  {
    var e := s.entries[ScopeKey(scope)];
    var s1 := Move(s, u, Looking(scope)).(asked := s.asked + {scope});
    var s2 := Move(s1, u, Holding(scope, |s1.log|, e));
    var s3 := Move(s2, u, Done(scope, e.state, FromCache(|s1.log|, e, s.clock)));
    run, actions := [s, s1, s2, s3], [Start(u, scope, false), Read(u), Check(u)];
    assert Next(lim, s, actions[0], s1) && Next(lim, s1, actions[1], s2) && Next(lim, s2, actions[2], s3);
  }

  /** A run that fetches a state for `scope`, waits `delay`, stores it, and waits `age`. */
  lemma StoreAndWait(lim: Limits, scope: Scope, delay: nat, age: nat) returns (run: seq<System>, actions: seq<Action>)
    ensures IsRun(lim, run, actions)
    ensures var s := run[|actions|];
      && s.clock == delay + age && s.loads.Keys == {0}
      && s.log == [Stored(ScopeKey(scope), Entry(Fetched(scope, 0, 0), delay))]
      && ScopeKey(scope) in s.entries && s.entries[ScopeKey(scope)] == Entry(Fetched(scope, 0, 0), delay)
  {
    var s0 := System(map[], 0, map[], [], {});
    var s1 := Move(s0, 0, Fetching(scope)).(asked := {scope});
    var s2 := Move(s1, 0, Storing(scope, Fetched(scope, 0, 0)));
    var s3 := s2.(clock := delay);
    var s4 := StoreNow(lim, s3, 0);
    var s5 := s4.(clock := delay + age);
    run := [s0, s1, s2, s3, s4, s5];
    actions := [Start(0, scope, true), Fetch(0, 0), Tick, Store(0), Tick];
    assert Next(lim, s0, actions[0], s1) && Next(lim, s1, actions[1], s2) && Next(lim, s2, actions[2], s3);
    assert Next(lim, s3, actions[3], s4) && Next(lim, s4, actions[4], s5);
  }

  // ---------- whose state is answered ----------

  /** If no load of the run has an identity with ':', no load is ever answered with a state fetched for
      another identity, whatever organizations and workspaces are asked for. */
  lemma SessionIsolation(lim: Limits, run: seq<System>, actions: seq<Action>, i: nat, t: nat)
    requires IsRun(lim, run, actions) && i < |run|
    requires t in run[i].loads && run[i].loads[t].Done?
    requires forall a | a in run[i].asked :: Free(a.identity, {':'})
    ensures run[i].loads[t].answer.scope.identity == run[i].loads[t].scope.identity
  {
    RunInvariant(lim, run, actions, i);
    var c := run[i].loads[t];
    assert ValidControl(lim, run[i], c);
    KeyNamesIdentity(c.answer.scope, c.scope);
  }

  /** If organizations hold no '/' either, the answer was fetched for the same workspace, too. */
  lemma ScopeIsolation(lim: Limits, run: seq<System>, actions: seq<Action>, i: nat, t: nat)
    requires IsRun(lim, run, actions) && i < |run|
    requires t in run[i].loads && run[i].loads[t].Done?
    requires forall a | a in run[i].asked :: a.WellFormed()
    ensures run[i].loads[t].answer.scope == run[i].loads[t].scope
  {
    RunInvariant(lim, run, actions, i);
    var c := run[i].loads[t];
    assert ValidControl(lim, run[i], c);
    KeyInjective(c.answer.scope, c.scope);
  }

  /** At the end of the run, load `t` for `s` has been answered with a state fetched for `other`. */
  ghost predicate Answered(lim: Limits, run: seq<System>, actions: seq<Action>, t: nat, s: Scope, other: Scope) {
    IsRun(lim, run, actions) &&
    var loads := run[|actions|].loads;
    t in loads && loads[t].Done? && loads[t].scope == s && loads[t].answer.scope == other
  }

  ghost predicate CanBeAnswered(lim: Limits, s: Scope, other: Scope) {
    exists run: seq<System>, actions: seq<Action>, t: nat :: Answered(lim, run, actions, t, s, other)
  }

  /** Exactly which answers cross scopes: some run answers a load for `s` with a state fetched for
      `other` iff the two are one scope, or `s` has a session and the two share a key. */
  lemma CrossesIffKeyShared(lim: Limits, s: Scope, other: Scope)
    requires lim.ttl > 0
    ensures CanBeAnswered(lim, s, other) <==> s == other || (s.identity != "" && ScopeKey(s) == ScopeKey(other))
  {
    if CanBeAnswered(lim, s, other) {
      var run: seq<System>, actions: seq<Action>, t: nat :| Answered(lim, run, actions, t, s, other);
      RunInvariant(lim, run, actions, |actions|);
      assert ValidControl(lim, run[|actions|], run[|actions|].loads[t]);
    }
    if s == other {
      var run, actions := OwnAnswer(lim, s);
      assert Answered(lim, run, actions, 0, s, s);
    } else if s.identity != "" && ScopeKey(s) == ScopeKey(other) {
      var run, actions := StoreAndWait(lim, other, 0, 0);
      var more, next := ServeFromCache(lim, run[|actions|], 1, s);
      Chain(lim, run, actions, more, next);
      assert Answered(lim, run + more[1..], actions + next, 1, s, other);
    }
  }

  lemma OwnAnswer(lim: Limits, s: Scope) returns (run: seq<System>, actions: seq<Action>)
    ensures Answered(lim, run, actions, 0, s, s)
  {
    var s0 := System(map[], 0, map[], [], {});
    var s1 := Move(s0, 0, Fetching(s)).(asked := {s});
    var s2 := Move(s1, 0, Storing(s, Fetched(s, 0, 0)));
    var s3 := StoreNow(lim, s2, 0);
    run, actions := [s0, s1, s2, s3], [Start(0, s, true), Fetch(0, 0), Store(0)];
    assert Next(lim, s0, actions[0], s1) && Next(lim, s1, actions[1], s2) && Next(lim, s2, actions[2], s3);
  }

  // ---------- how old an answer is ----------

  /** No state was stored more than `d` after it was fetched. */
  predicate StoredWithin(log: seq<Event>, d: int) {
    forall h | 0 <= h < |log| && log[h].Stored? :: log[h].entry.loadedAt - log[h].entry.state.at <= d
  }

  predicate ServedFromCache(s: System, t: nat) {
    t in s.loads && s.loads[t].Done? && s.loads[t].source.FromCache?
  }

  /** Time from the fetch of a cached answer to its freshness check. */
  function FetchAge(s: System, t: nat): int
    requires ServedFromCache(s, t)
  {
    s.loads[t].source.checked - s.loads[t].answer.at
  }

  /** Every cached answer was fetched less than the TTL plus the longest delay of storing before its check. */
  lemma FetchAgeBound(lim: Limits, d: int, run: seq<System>, actions: seq<Action>, i: nat, t: nat)
    requires IsRun(lim, run, actions) && i < |run|
    requires StoredWithin(run[i].log, d) && ServedFromCache(run[i], t)
    ensures FetchAge(run[i], t) < lim.ttl + d
  {
    AnswersRefineLossyMap(lim, run, actions, i, t);
    var s, c := run[i], run[i].loads[t];
    var h: nat :| MostRecent(s.log, c.source.read, h, ScopeKey(c.scope), c.source.entry);
    assert s.log[h].Stored?;
  }

  /** The bound is reached, for every delay and every scope with a session. */
  lemma FetchAgeReached(lim: Limits, d: nat, scope: Scope) returns (run: seq<System>, actions: seq<Action>, t: nat)
    requires lim.ttl > 0 && scope.identity != ""
    ensures IsRun(lim, run, actions) && StoredWithin(run[|actions|].log, d)
    ensures ServedFromCache(run[|actions|], t) && run[|actions|].loads[t].scope == scope
    ensures FetchAge(run[|actions|], t) == lim.ttl + d - 1
  {
    run, actions := StoreAndWait(lim, scope, d, lim.ttl - 1);
    t := 1;
    var more, next := ServeFromCache(lim, run[|actions|], t, scope);
    Chain(lim, run, actions, more, next);
    run, actions := run + more[1..], actions + next;
  }

  /** In every run whose storing delays keep to `d`, cached answers are younger than `bound`, counted from
      their fetch. */
  ghost predicate FetchAgesBelow(lim: Limits, d: int, bound: int) {
    forall run: seq<System>, actions: seq<Action>, i: nat, t: nat |
        IsRun(lim, run, actions) && i < |run| && StoredWithin(run[i].log, d) && ServedFromCache(run[i], t) ::
      FetchAge(run[i], t) < bound
  }

  /** So the TTL counts from the fetch in all runs with delays up to `d` exactly when `d` is zero; in
      general, the least bound is the TTL plus `d`. */
  lemma FetchAgeExact(lim: Limits, d: nat, bound: int)
    requires lim.ttl > 0
    ensures FetchAgesBelow(lim, d, bound) <==> lim.ttl + d <= bound
    ensures FetchAgesBelow(lim, d, lim.ttl) <==> d == 0
  {
    var long, steps, t := FetchAgeReached(lim, d, Scope("session", "org", "workspace"));
    assert FetchAge(long[|steps|], t) == lim.ttl + d - 1;
    forall run: seq<System>, actions: seq<Action>, i: nat, t: nat |
        IsRun(lim, run, actions) && i < |run| && StoredWithin(run[i].log, d) && ServedFromCache(run[i], t)
      ensures FetchAge(run[i], t) < lim.ttl + d
    {
      FetchAgeBound(lim, d, run, actions, i, t);
    }
  }

  lemma BoundedInEveryRun(lim: Limits, run: seq<System>, actions: seq<Action>, i: nat)
    requires IsRun(lim, run, actions) && i < |run|
    ensures |run[i].entries| <= (if lim.maxSize < 1 then 1 else lim.maxSize)
  {
    RunInvariant(lim, run, actions, i);
  }

  // ---------- what may be lost ----------

  /** An entry leaves the map only through an invalidation of its key; the late delete of a load that
      read an entry of that key which has expired, so a fresh one it takes is not the one it read; or a
      put into a full cache, which drops expired entries and at most one other, no younger than any
      that stays. */
  lemma LossCauses(lim: Limits, s: System, a: Action, r: System, k: string)
    requires Inv(lim, s) && Next(lim, s, a, r)
    requires k in s.entries && k !in r.entries
    ensures
      || (a.Invalidate? && ScopeKey(a.scope) == k)
      || (a.Delete? && ScopeKey(s.loads[a.t].scope) == k && !Fresh(s.loads[a.t].expired, s.clock, lim.ttl))
      || (a.Store? && |s.entries| >= lim.maxSize && ScopeKey(s.loads[a.t].scope) != k &&
          (Fresh(s.entries[k], s.clock, lim.ttl) ==>
             forall l | l in r.entries && l != ScopeKey(s.loads[a.t].scope) ::
               s.entries[k].loadedAt <= r.entries[l].loadedAt))
  {
    if a.Store? {
      var c := s.loads[a.t];
      PutFrame(s.entries, ScopeKey(c.scope), Entry(c.fetched, r.clock), lim.maxSize, s.clock, lim.ttl, r.entries);
    } else if a.Delete? {
      assert ValidControl(lim, s, s.loads[a.t]);
    }
  }

  /** Between two steps of load `t`, load `u` can fetch and store a state for the same scope. */
  lemma StoreBetween(lim: Limits, s: System, t: nat, u: nat) returns (run: seq<System>, actions: seq<Action>)
    requires t in s.loads && s.loads[t].Deleting? && u !in s.loads && "" !in s.entries
    ensures Steps(lim, run, actions) && run[0] == s && |actions| > 0
    ensures var key, end := ScopeKey(s.loads[t].scope), run[|actions|];
      && key in end.entries && end.entries[key].loadedAt == end.clock
      && t in end.loads && end.loads[t] == s.loads[t]
  {
    var scope := s.loads[t].scope;
    var s1 := Move(s, u, Fetching(scope)).(asked := s.asked + {scope});
    var s2 := Move(s1, u, Storing(scope, Fetched(scope, s.clock, 0)));
    var s3 := StoreNow(lim, s2, u);
    run, actions := [s, s1, s2, s3], [Start(u, scope, true), Fetch(u, 0), Store(u)];
    assert Next(lim, s, actions[0], s1) && Next(lim, s1, actions[1], s2) && Next(lim, s2, actions[2], s3);
  }

  /** The late delete does take newer entries: whenever a run has a load about to delete, another load
      can store a state of the same key first, and the delete drops it although it is as fresh as can be. */
  lemma LateDeleteDropsFresh(lim: Limits, run: seq<System>, actions: seq<Action>, t: nat, u: nat)
    returns (longer: seq<System>, all: seq<Action>)
    requires IsRun(lim, run, actions)
    requires t in run[|actions|].loads && run[|actions|].loads[t].Deleting? && u !in run[|actions|].loads
    ensures IsRun(lim, longer, all) && |actions| + 1 < |all| && longer[|actions|] == run[|actions|]
    ensures all[|all| - 1] == Delete(t)
    ensures var key, before := ScopeKey(run[|actions|].loads[t].scope), longer[|all| - 1];
      && key in before.entries && before.entries[key].loadedAt == before.clock
      && t in before.loads && before.loads[t] == run[|actions|].loads[t] && key !in longer[|all|].entries
  {
    RunInvariant(lim, run, actions, |actions|);
    var more, next := StoreBetween(lim, run[|actions|], t, u);
    var s := more[|next|];
    var key := ScopeKey(s.loads[t].scope);
    var r := Move(s, t, Fetching(s.loads[t].scope)).(entries := s.entries - {key});
    assert Next(lim, s, Delete(t), r);
    Chain(lim, run, actions, more, next);
    longer, all := run + more[1..], actions + next;
    Chain(lim, longer, all, [s, r], [Delete(t)]);
    longer, all := longer + [s, r][1..], all + [Delete(t)];
  }

  /** And such runs exist, for every scope with a session. */
  lemma LateDeleteArises(lim: Limits, scope: Scope) returns (run: seq<System>, actions: seq<Action>)
    requires scope.identity != ""
    ensures IsRun(lim, run, actions)
    ensures var loads := run[|actions|].loads; loads.Keys == {0, 1} && loads[1].Deleting? && loads[1].scope == scope
  {
    run, actions := StoreAndWait(lim, scope, 0, if lim.ttl > 0 then lim.ttl else 0);
    var s := run[|actions|];
    var e := s.entries[ScopeKey(scope)];
    var s1 := Move(s, 1, Looking(scope)).(asked := s.asked + {scope});
    var s2 := Move(s1, 1, Holding(scope, |s1.log|, e));
    var s3 := Move(s2, 1, Deleting(scope, e));
    var more, next := [s, s1, s2, s3], [Start(1, scope, false), Read(1), Check(1)];
    assert Next(lim, s, next[0], s1) && Next(lim, s1, next[1], s2) && Next(lim, s2, next[2], s3);
    Chain(lim, run, actions, more, next);
    run, actions := run + more[1..], actions + next;
  }
}
