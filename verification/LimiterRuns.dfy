/** Many callers looking up session limiters at once (pkg/client/ratelimit.go, getSessionLimiter): a
    read-locked look, then, if nothing was there, a second look and a creation under the write lock. */
module LimiterRuns {

  /** How often a session's limiter has been removed so far. */
  type Epochs = map<string, nat>

  function EpochOf(epochs: Epochs, id: string): nat {
    if id in epochs then epochs[id] else 0
  }

  /** A caller between the two looks, or with its answer and the epoch in which it got it. */
  datatype Caller = Missed(id: string) | Got(id: string, epoch: nat, limiter: nat)

  datatype Creation = Creation(id: string, epoch: nat, limiter: nat)

  /** `epochs` and `made` only record history; limiters are named by their creation number. */
  datatype System = System(limiters: map<string, nat>, callers: map<nat, Caller>, epochs: Epochs, made: seq<Creation>)

  datatype Action =
    | FirstLook(c: nat, id: string)
    | SecondLook(c: nat)
    | Leave(c: nat)
    | Cleanup(active: set<string>)

  predicate Init(s: System) {
    s == System(map[], map[], map[], [])
  }

  function Answer(s: System, c: nat, id: string, limiter: nat): System {
    s.(callers := s.callers[c := Got(id, EpochOf(s.epochs, id), limiter)])
  }

  function Kept(limiters: map<string, nat>, active: set<string>): map<string, nat> {
    map id | id in limiters && id in active :: limiters[id]
  }

  function AfterRemovals(epochs: Epochs, limiters: map<string, nat>, active: set<string>): Epochs {
    epochs + map id | id in limiters && id !in active :: EpochOf(epochs, id) + 1
  }

  predicate Next(s: System, a: Action, r: System) {
    match a
    case FirstLook(c, id) =>
      c !in s.callers &&
      r == if id in s.limiters then Answer(s, c, id, s.limiters[id])
           else s.(callers := s.callers[c := Missed(id)])
    case SecondLook(c) =>
      c in s.callers && s.callers[c].Missed? &&
      var id := s.callers[c].id;
      r == if id in s.limiters then Answer(s, c, id, s.limiters[id])
           else Answer(s, c, id, |s.made|).(
             limiters := s.limiters[id := |s.made|],
             made := s.made + [Creation(id, EpochOf(s.epochs, id), |s.made|)])
    case Leave(c) =>
      c in s.callers && s.callers[c].Got? && r == s.(callers := s.callers - {c})
    case Cleanup(active) =>
      r == s.(limiters := Kept(s.limiters, active), epochs := AfterRemovals(s.epochs, s.limiters, active))
  }

  predicate StepAt(run: seq<System>, actions: seq<Action>, i: nat)
    requires i < |actions| < |run|
  {
    Next(run[i], actions[i], run[i + 1])
  }

  predicate IsRun(run: seq<System>, actions: seq<Action>) {
    && |run| == |actions| + 1 && Init(run[0])
    && forall i: nat | i < |actions| :: StepAt(run, actions, i)
  }

  // ---------- the invariant ----------

  predicate WasMade(s: System, id: string, epoch: nat, limiter: nat) {
    limiter < |s.made| && s.made[limiter] == Creation(id, epoch, limiter)
  }

  predicate ValidCaller(s: System, c: Caller) {
    match c
    case Missed(_) => true
    case Got(id, epoch, limiter) => epoch <= EpochOf(s.epochs, id) && WasMade(s, id, epoch, limiter)
  }

  /** A creation belongs to a past epoch, or its session has a limiter now. */
  predicate ValidCreation(s: System, n: nat)
    requires n < |s.made|
  {
    var m := s.made[n];
    m.limiter == n && m.epoch <= EpochOf(s.epochs, m.id) && (m.epoch == EpochOf(s.epochs, m.id) ==> m.id in s.limiters)
  }

  predicate LimitersInv(s: System) {
    && (forall id | id in s.limiters :: WasMade(s, id, EpochOf(s.epochs, id), s.limiters[id]))
    && (forall n | 0 <= n < |s.made| :: ValidCreation(s, n))
    && (forall m, n | 0 <= m < n < |s.made| :: Differ(s.made[m], s.made[n]))
  }

  /** The creations are for different sessions or different epochs of one. */
  predicate Differ(a: Creation, b: Creation) {
    a.id != b.id || a.epoch != b.epoch
  }

  predicate Inv(s: System) {
    LimitersInv(s) && forall c | c in s.callers :: ValidCaller(s, s.callers[c])
  }

  // ---------- what callers get ----------

  /** Between removals of a session, at most one limiter is created for it, however many callers race. */
  lemma OneLimiterPerEpoch(run: seq<System>, actions: seq<Action>, i: nat, m: nat, n: nat)
    requires IsRun(run, actions) && i < |run|
    requires m < |run[i].made| && n < |run[i].made|
    requires run[i].made[m].id == run[i].made[n].id && run[i].made[m].epoch == run[i].made[n].epoch
    ensures m == n
  {
    RunInvariant(run, actions, i);
  }

  /** All callers whose lookups end in the same epoch of a session hold the same limiter, and while the
      epoch lasts it is the one in the map. */
  lemma CallersShareLimiter(run: seq<System>, actions: seq<Action>, i: nat, c: nat, d: nat)
    requires IsRun(run, actions) && i < |run|
    requires c in run[i].callers && d in run[i].callers
    requires run[i].callers[c].Got? && run[i].callers[d].Got?
    requires run[i].callers[c].id == run[i].callers[d].id && run[i].callers[c].epoch == run[i].callers[d].epoch
    ensures run[i].callers[c].limiter == run[i].callers[d].limiter
    ensures var s, x := run[i], run[i].callers[c];
      x.epoch == EpochOf(s.epochs, x.id) ==> x.id in s.limiters && s.limiters[x.id] == x.limiter
  {
    RunInvariant(run, actions, i);
    var s := run[i];
    var x := s.callers[c];
    assert ValidCaller(s, x) && ValidCaller(s, s.callers[d]);
    assert ValidCreation(s, x.limiter);
    assert x.id in s.limiters ==> WasMade(s, x.id, EpochOf(s.epochs, x.id), s.limiters[x.id]);
  }

  /** A cleanup takes away exactly the limiters of inactive sessions, and begins a new epoch for them alone. */
  lemma CleanupIsExact(s: System, active: set<string>, r: System, id: string)
    requires Next(s, Cleanup(active), r)
    ensures id in r.limiters <==> id in s.limiters && id in active
    ensures id in r.limiters ==> r.limiters[id] == s.limiters[id]
    ensures EpochOf(r.epochs, id) == EpochOf(s.epochs, id) + if id in s.limiters && id !in active then 1 else 0
    ensures r.callers == s.callers && r.made == s.made
  {
  }

  // ---------- the invariant holds in every run ----------

  lemma {:induction false} RunInvariant(run: seq<System>, actions: seq<Action>, i: nat)
    requires IsRun(run, actions) && i < |run|
    ensures Inv(run[i])
  {
    if i > 0 {
      RunInvariant(run, actions, i - 1);
      assert StepAt(run, actions, i - 1);
      Preserved(run[i - 1], actions[i - 1], run[i]);
    }
  }

  lemma Preserved(s: System, a: Action, r: System)
    requires Inv(s) && Next(s, a, r)
    ensures Inv(r)
  {
    LimitersPreserved(s, a, r);
    HistoryGrows(s, a, r);
    forall d | d in r.callers ensures ValidCaller(r, r.callers[d]) {
      assert d in s.callers ==> ValidCaller(s, s.callers[d]);
    }
  }

  lemma LimitersPreserved(s: System, a: Action, r: System)
    requires LimitersInv(s) && Next(s, a, r)
    ensures LimitersInv(r)
  {
    match a {
      case SecondLook(c) =>
        CreationKeepsLimiters(s, c, r);
      case Cleanup(active) =>
        CleanupKeepsLimiters(s, active, r);
      case _ =>
        assert r.limiters == s.limiters && r.epochs == s.epochs && r.made == s.made;
        forall n | 0 <= n < |r.made| ensures ValidCreation(r, n) {
          assert ValidCreation(s, n);
        }
    }
  }

  lemma CreationKeepsLimiters(s: System, c: nat, r: System)
    requires LimitersInv(s) && Next(s, SecondLook(c), r)
    ensures LimitersInv(r)
  {
    forall n | 0 <= n < |r.made| ensures ValidCreation(r, n) {
      assert n < |s.made| ==> ValidCreation(s, n) && r.made[n] == s.made[n];
    }
    forall m, n | 0 <= m < n < |r.made|
      ensures Differ(r.made[m], r.made[n])
    {
      assert ValidCreation(s, m) && r.made[m] == s.made[m];
    }
    forall id | id in r.limiters ensures WasMade(r, id, EpochOf(r.epochs, id), r.limiters[id]) {
      assert id in s.limiters ==> WasMade(s, id, EpochOf(s.epochs, id), s.limiters[id]);
    }
  }

  lemma CleanupKeepsLimiters(s: System, active: set<string>, r: System)
    requires LimitersInv(s) && Next(s, Cleanup(active), r)
    ensures LimitersInv(r)
  {
    forall n | 0 <= n < |r.made| ensures ValidCreation(r, n) {
      assert ValidCreation(s, n);
    }
    forall id | id in r.limiters ensures WasMade(r, id, EpochOf(r.epochs, id), r.limiters[id]) {
      assert WasMade(s, id, EpochOf(s.epochs, id), s.limiters[id]);
    }
  }

  lemma HistoryGrows(s: System, a: Action, r: System)
    requires Next(s, a, r)
    ensures s.made <= r.made && forall id :: EpochOf(s.epochs, id) <= EpochOf(r.epochs, id)
  {
  }
}
