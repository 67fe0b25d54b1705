/** Tool calls that overlap in time, each asking the global limiter, then looking up its session's limiter
    among racing lookups and cleanups, then asking that (pkg/client/ratelimit.go). */
module AdmissionRuns {
  import opened RateLimit
  import L = LimiterRuns

  /** A call forwarded by its session's limiter, and the epoch of the session in which it looked that up. */
  datatype Forward = Forward(id: string, epoch: nat, limiter: nat)

  /** `waiting` are the calls between their two limiters, with their sessions. `entered` counts the calls
      the global limiter let through and `forwarded` those that reached a handler. */
  datatype System = System(lookups: L.System, buckets: seq<Bucket>, global: Bucket, clock: real,
                           waiting: map<nat, string>, entered: nat, forwarded: nat, log: seq<Forward>)

  datatype Action = Arrive(c: nat, id: string) | Lookup(a: L.Action) | Ask(c: nat) | Tick(to: real)

  predicate Init(cfg: Config, s: System) {
    L.Init(s.lookups) && s.buckets == [] && s.global == NewBucket(cfg.global, s.clock) && s.waiting == map[]
    && s.entered == 0 && s.forwarded == 0 && s.log == []
  }

  /** The global limiter lets a call through. Without a session that is all it needs. */
  function Enter(cfg: Config, s: System, c: nat, id: string): System {
    var r := s.(global := AfterAllow(cfg.global, s.global, s.clock), entered := s.entered + 1);
    if id == "" then r.(forwarded := s.forwarded + 1) else r.(waiting := s.waiting[c := id])
  }

  /** The session's limiter has answered call `c`, and it is over with limiters. */
  function Answer(cfg: Config, s: System, c: nat, got: L.Caller): System
    requires got.Got? && got.limiter < |s.buckets|
  {
    var n := got.limiter;
    var ok := Allows(cfg.session, s.buckets[n], s.clock);
    s.(lookups := s.lookups.(callers := s.lookups.callers - {c}), waiting := s.waiting - {c},
       buckets := s.buckets[n := AfterAllow(cfg.session, s.buckets[n], s.clock)],
       forwarded := s.forwarded + if ok then 1 else 0,
       log := if ok then s.log + [Forward(got.id, got.epoch, n)] else s.log)
  }

  /** Lookups are those of waiting calls, each for its own session. */
  predicate LookupAllowed(s: System, a: L.Action) {
    match a
    case FirstLook(c, id) => c in s.waiting && s.waiting[c] == id
    case SecondLook(_) => true
    case Leave(_) => false
    case Cleanup(_) => true
  }

  predicate Next(cfg: Config, s: System, a: Action, r: System) {
    match a
    case Arrive(c, id) =>
      c !in s.waiting && r == if Allows(cfg.global, s.global, s.clock) then Enter(cfg, s, c, id) else s
    case Lookup(look) =>
      LookupAllowed(s, look) && L.Next(s.lookups, look, r.lookups) &&
      r == s.(lookups := r.lookups,
              buckets := s.buckets +
                if |r.lookups.made| > |s.lookups.made| then [NewBucket(cfg.session, s.clock)] else [])
    case Ask(c) =>
      c in s.lookups.callers && s.lookups.callers[c].Got? && s.lookups.callers[c].limiter < |s.buckets| &&
      r == Answer(cfg, s, c, s.lookups.callers[c])
    case Tick(to) =>
      s.clock <= to && r == s.(clock := to)
  }

  predicate StepAt(cfg: Config, run: seq<System>, actions: seq<Action>, i: nat)
    requires i < |actions| < |run|
  {
    Next(cfg, run[i], actions[i], run[i + 1])
  }

  predicate Steps(cfg: Config, run: seq<System>, actions: seq<Action>) {
    |run| == |actions| + 1 && forall i: nat | i < |actions| :: StepAt(cfg, run, actions, i)
  }

  predicate IsRun(cfg: Config, run: seq<System>, actions: seq<Action>) {
    Steps(cfg, run, actions) && Init(cfg, run[0])
  }

  lemma OneStepMore(cfg: Config, run: seq<System>, actions: seq<Action>, a: Action, r: System)
    requires Steps(cfg, run, actions) && Next(cfg, run[|actions|], a, r)
    ensures Steps(cfg, run + [r], actions + [a])
  {
    forall i: nat | i < |actions + [a]| ensures StepAt(cfg, run + [r], actions + [a], i) {
      assert i < |actions| ==> StepAt(cfg, run, actions, i);
    }
  }

  // ---------- the invariant ----------

  predicate Inv(s: System) {
    && L.Inv(s.lookups) && |s.buckets| == |s.lookups.made|
    && ReadyBucket(s.global, s.clock)
    && (forall n | 0 <= n < |s.buckets| :: ReadyBucket(s.buckets[n], s.clock))
    && s.lookups.callers.Keys <= s.waiting.Keys
    && (forall k | 0 <= k < |s.log| :: Recorded(s.lookups, s.log[k]))
  }

  /** The forward went through the one limiter of its session's epoch. */
  predicate Recorded(lookups: L.System, f: Forward) {
    L.WasMade(lookups, f.id, f.epoch, f.limiter) && f.epoch <= L.EpochOf(lookups.epochs, f.id)
  }

  lemma LookupKeeps(cfg: Config, s: System, a: L.Action, r: System)
    requires cfg.Valid() && Inv(s) && Next(cfg, s, Lookup(a), r)
    ensures Inv(r)
  {
    L.Preserved(s.lookups, a, r.lookups);
    L.HistoryGrows(s.lookups, a, r.lookups);
    assert |r.lookups.made| <= |s.lookups.made| + 1;
    forall k | 0 <= k < |r.log| ensures Recorded(r.lookups, r.log[k]) {
      assert Recorded(s.lookups, s.log[k]);
    }
  }

  lemma AskKeeps(cfg: Config, s: System, c: nat, r: System)
    requires cfg.Valid() && Inv(s) && Next(cfg, s, Ask(c), r)
    ensures Inv(r)
  {
    L.Preserved(s.lookups, L.Leave(c), r.lookups);
    assert L.ValidCaller(s.lookups, s.lookups.callers[c]);
    var n := s.lookups.callers[c].limiter;
    assert ReadyBucket(s.buckets[n], s.clock);
    forall k | 0 <= k < |r.log| ensures Recorded(r.lookups, r.log[k]) {
      assert k < |s.log| ==> Recorded(s.lookups, s.log[k]);
    }
  }

  lemma Preserved(cfg: Config, s: System, a: Action, r: System)
    requires cfg.Valid() && Inv(s) && Next(cfg, s, a, r)
    ensures Inv(r)
  {
    match a {
      case Lookup(look) =>
        LookupKeeps(cfg, s, look, r);
      case Ask(c) =>
        AskKeeps(cfg, s, c, r);
      case Tick(_) =>
        forall n | 0 <= n < |r.buckets| ensures ReadyBucket(r.buckets[n], r.clock) {
          assert ReadyBucket(s.buckets[n], s.clock);
        }
      case Arrive(_, _) =>
    }
  }

  lemma {:induction false} RunInvariant(cfg: Config, run: seq<System>, actions: seq<Action>, i: nat)
    requires cfg.Valid() && IsRun(cfg, run, actions) && i < |run|
    ensures Inv(run[i])
  {
    if i > 0 {
      RunInvariant(cfg, run, actions, i - 1);
      assert StepAt(cfg, run, actions, i - 1);
      Preserved(cfg, run[i - 1], actions[i - 1], run[i]);
    }
  }

  // ---------- the global bound ----------

  /** What a bucket holds and has let through, less what was produced: no step raises it. */
  function Balance(lim: Limit, b: Bucket, now: real, count: nat): real {
    Level(lim, b, now) - lim.Supply(now) + count as real
  }

  lemma BalanceOfTime(lim: Limit, b: Bucket, now: real, at: real, count: nat)
    requires lim.Valid() && ReadyBucket(b, now) && now <= at
    ensures Balance(lim, b, at, count) <= Balance(lim, b, now, count)
  {
    AllowanceFalls(lim, b, now, at, at);
  }

  lemma BalanceOfAsking(lim: Limit, b: Bucket, now: real, count: nat)
    requires lim.Valid() && ReadyBucket(b, now)
    ensures Balance(lim, AfterAllow(lim, b, now), now, count + if Allows(lim, b, now) then 1 else 0)
      <= Balance(lim, b, now, count)
  {
    AllowanceFalls(lim, b, now, now, now);
  }

  /** A balance that has not risen bounds the calls let through between two moments. */
  lemma BalanceBounds(lim: Limit, b: Bucket, now: real, count: nat, c: Bucket, at: real, later: nat)
    requires lim.Valid() && ReadyBucket(c, at) && now <= at && b.last <= now
    requires Balance(lim, c, at, later) <= Balance(lim, b, now, count)
    ensures later as real - count as real <= lim.Most(now, at)
  {
    AllowanceLeast(lim, c, at, at);
    AllowanceFalls(lim, b, now, now, now);
    SupplyGrows(lim, now, at);
  }

  lemma {:induction false} ClockRuns(cfg: Config, run: seq<System>, actions: seq<Action>, i: nat, j: nat)
    requires IsRun(cfg, run, actions) && i <= j < |run|
    ensures run[i].clock <= run[j].clock && run[i].log <= run[j].log
    decreases j
  {
    if i < j {
      ClockRuns(cfg, run, actions, i, j - 1);
      assert StepAt(cfg, run, actions, j - 1);
    }
  }

  lemma {:induction false} GlobalBalance(cfg: Config, run: seq<System>, actions: seq<Action>, i: nat, j: nat)
    requires cfg.Valid() && IsRun(cfg, run, actions) && i <= j < |run|
    ensures Balance(cfg.global, run[j].global, run[j].clock, run[j].entered)
      <= Balance(cfg.global, run[i].global, run[i].clock, run[i].entered)
    decreases j
  {
    if i < j {
      GlobalBalance(cfg, run, actions, i, j - 1);
      RunInvariant(cfg, run, actions, j - 1);
      assert StepAt(cfg, run, actions, j - 1);
      var s, r := run[j - 1], run[j];
      BalanceOfAsking(cfg.global, s.global, s.clock, s.entered);
      if r.clock != s.clock {
        BalanceOfTime(cfg.global, s.global, s.clock, r.clock, s.entered);
      }
    }
  }

  lemma EnterThenForwardStep(cfg: Config, s: System, a: Action, r: System)
    requires Inv(s) && Next(cfg, s, a, r)
    ensures r.forwarded + |r.waiting| - r.entered <= s.forwarded + |s.waiting| - s.entered
  {
    if a.Ask? {
      assert r.waiting.Keys == s.waiting.Keys - {a.c} && a.c in s.waiting.Keys;
      assert |r.waiting.Keys| == |s.waiting.Keys| - 1;
    } else if a.Arrive? && r != s && a.id != "" {
      assert r.waiting.Keys == s.waiting.Keys + {a.c};
      assert |r.waiting.Keys| == |s.waiting.Keys| + 1;
    }
  }

  /** Calls that reach a handler were waiting before or have entered since. */
  lemma {:induction false} EnterThenForward(cfg: Config, run: seq<System>, actions: seq<Action>, i: nat, j: nat)
    requires cfg.Valid() && IsRun(cfg, run, actions) && i <= j < |run|
    ensures run[j].forwarded + |run[j].waiting| - run[j].entered
      <= run[i].forwarded + |run[i].waiting| - run[i].entered
    decreases j
  {
    if i < j {
      EnterThenForward(cfg, run, actions, i, j - 1);
      RunInvariant(cfg, run, actions, j - 1);
      assert StepAt(cfg, run, actions, j - 1);
      EnterThenForwardStep(cfg, run[j - 1], actions[j - 1], run[j]);
    }
  }

  /** In any window of any interleaving, at most the global burst plus rate times window calls pass the
      global limiter; as many, and those that were waiting when the window began, reach a handler. */
  lemma OverlappingGlobalBound(cfg: Config, run: seq<System>, actions: seq<Action>, i: nat, j: nat)
    requires cfg.Valid() && IsRun(cfg, run, actions) && i <= j < |run|
    ensures var most := cfg.global.burst as real + cfg.global.rate * (run[j].clock - run[i].clock);
      && run[j].entered as real - run[i].entered as real <= most
      && run[j].forwarded as real - run[i].forwarded as real <= most + |run[i].waiting| as real
  {
    var most := cfg.global.Most(run[i].clock, run[j].clock);
    assert run[j].entered as real - run[i].entered as real <= most by {
      RunInvariant(cfg, run, actions, i);
      RunInvariant(cfg, run, actions, j);
      ClockRuns(cfg, run, actions, i, j);
      GlobalBalance(cfg, run, actions, i, j);
      BalanceBounds(cfg.global,
        run[i].global, run[i].clock, run[i].entered, run[j].global, run[j].clock, run[j].entered);
    }
    EnterThenForward(cfg, run, actions, i, j);
  }

  // ---------- one limiter ----------

  function Through(log: seq<Forward>, n: nat): nat {
    if log == [] then 0
    else Through(log[..|log| - 1], n) + if log[|log| - 1].limiter == n then 1 else 0
  }

  /** A limiter yet to be made counts as full. */
  function BucketOf(cfg: Config, s: System, n: nat): Bucket {
    if n < |s.buckets| then s.buckets[n] else NewBucket(cfg.session, s.clock)
  }

  lemma ThroughAppend(log: seq<Forward>, f: Forward, n: nat)
    ensures Through(log + [f], n) == Through(log, n) + if f.limiter == n then 1 else 0
  {
    assert (log + [f])[..|log|] == log;
  }

  lemma LimiterAsked(cfg: Config, s: System, c: nat, r: System, n: nat)
    requires cfg.Valid() && Next(cfg, s, Ask(c), r) && ReadyBucket(BucketOf(cfg, s, n), s.clock)
    ensures Balance(cfg.session, BucketOf(cfg, r, n), r.clock, Through(r.log, n))
      <= Balance(cfg.session, BucketOf(cfg, s, n), s.clock, Through(s.log, n))
  {
    var got := s.lookups.callers[c];
    BalanceOfAsking(cfg.session, BucketOf(cfg, s, n), s.clock, Through(s.log, n));
    ThroughAppend(s.log, Forward(got.id, got.epoch, got.limiter), n);
  }

  lemma LimiterStep(cfg: Config, s: System, a: Action, r: System, n: nat)
    requires cfg.Valid() && Next(cfg, s, a, r) && ReadyBucket(BucketOf(cfg, s, n), s.clock)
    requires |s.buckets| == |s.lookups.made| && |r.buckets| == |r.lookups.made|
    ensures Balance(cfg.session, BucketOf(cfg, r, n), r.clock, Through(r.log, n))
      <= Balance(cfg.session, BucketOf(cfg, s, n), s.clock, Through(s.log, n))
  {
    var b := BucketOf(cfg, s, n);
    if a.Ask? {
      LimiterAsked(cfg, s, a.c, r, n);
    } else if a.Tick? {
      BalanceOfTime(cfg.session, b, s.clock, r.clock, Through(s.log, n));
      BalanceOfNew(cfg.session, s.clock, r.clock, Through(s.log, n));
    } else {
      assert r.log == s.log && BucketOf(cfg, r, n) == b;
    }
  }

  lemma BalanceOfNew(lim: Limit, now: real, at: real, count: nat)
    requires lim.Valid() && now <= at
    ensures Balance(lim, NewBucket(lim, at), at, count) <= Balance(lim, NewBucket(lim, now), now, count)
  {
    SupplyGrows(lim, now, at);
  }

  lemma {:induction false} LimiterBalance(cfg: Config, run: seq<System>, actions: seq<Action>, i: nat, j: nat, n: nat)
    requires cfg.Valid() && IsRun(cfg, run, actions) && i <= j < |run|
    ensures Balance(cfg.session, BucketOf(cfg, run[j], n), run[j].clock, Through(run[j].log, n))
      <= Balance(cfg.session, BucketOf(cfg, run[i], n), run[i].clock, Through(run[i].log, n))
    decreases j
  {
    if i < j {
      LimiterBalance(cfg, run, actions, i, j - 1, n);
      RunInvariant(cfg, run, actions, j - 1);
      assert StepAt(cfg, run, actions, j - 1);
      RunInvariant(cfg, run, actions, j);
      BucketReady(cfg, run[j - 1], n);
      LimiterStep(cfg, run[j - 1], actions[j - 1], run[j], n);
    }
  }

  lemma BucketReady(cfg: Config, s: System, n: nat)
    requires cfg.Valid() && Inv(s)
    ensures ReadyBucket(BucketOf(cfg, s, n), s.clock)
  {
    if n < |s.buckets| {
      assert ReadyBucket(s.buckets[n], s.clock);
    }
  }

  lemma LimiterBound(cfg: Config, run: seq<System>, actions: seq<Action>, i: nat, j: nat, n: nat)
    requires cfg.Valid() && IsRun(cfg, run, actions) && i <= j < |run|
    ensures Through(run[j].log, n) as real - Through(run[i].log, n) as real
      <= cfg.session.Most(run[i].clock, run[j].clock)
  {
    var b, c := BucketOf(cfg, run[i], n), BucketOf(cfg, run[j], n);
    RunInvariant(cfg, run, actions, i);
    RunInvariant(cfg, run, actions, j);
    ClockRuns(cfg, run, actions, i, j);
    BucketReady(cfg, run[i], n);
    BucketReady(cfg, run[j], n);
    LimiterBalance(cfg, run, actions, i, j, n);
    BalanceBounds(cfg.session, b, run[i].clock, Through(run[i].log, n), c, run[j].clock, Through(run[j].log, n));
  }

  // ---------- one session between removals ----------

  function InEpoch(log: seq<Forward>, id: string, epoch: nat): nat {
    if log == [] then 0
    else
      var f := log[|log| - 1];
      InEpoch(log[..|log| - 1], id, epoch) + if f.id == id && f.epoch == epoch then 1 else 0
  }

  lemma {:induction false} CountsAgree(log: seq<Forward>, id: string, epoch: nat, n: nat)
    requires forall k | 0 <= k < |log| :: (log[k].id == id && log[k].epoch == epoch) <==> log[k].limiter == n
    ensures InEpoch(log, id, epoch) == Through(log, n)
  {
    if log != [] {
      CountsAgree(log[..|log| - 1], id, epoch, n);
    }
  }

  lemma {:induction false} NoneInEpoch(log: seq<Forward>, id: string, epoch: nat)
    ensures InEpoch(log, id, epoch) == 0 <==> forall k | 0 <= k < |log| :: log[k].id != id || log[k].epoch != epoch
  {
    if log != [] {
      NoneInEpoch(log[..|log| - 1], id, epoch);
      assert forall k | 0 <= k < |log| - 1 :: log[k] == log[..|log| - 1][k];
    }
  }

  /** The forwards of one epoch went through one limiter, and no others did. */
  lemma OneLimiter(s: System, k: nat)
    requires Inv(s) && k < |s.log|
    ensures forall l | 0 <= l < |s.log| ::
      (s.log[l].id == s.log[k].id && s.log[l].epoch == s.log[k].epoch) <==> s.log[l].limiter == s.log[k].limiter
  {
    forall l | 0 <= l < |s.log|
      ensures (s.log[l].id == s.log[k].id && s.log[l].epoch == s.log[k].epoch) <==> s.log[l].limiter == s.log[k].limiter
    {
      assert Recorded(s.lookups, s.log[l]) && Recorded(s.lookups, s.log[k]);
    }
  }

  /** In any window of any interleaving, the calls forwarded for one epoch of a session number at most its
      burst plus its rate times the window, however many callers raced for its limiter. */
  lemma EpochAdmissionBound(cfg: Config, run: seq<System>, actions: seq<Action>, i: nat, j: nat, id: string, epoch: nat)
    requires cfg.Valid() && IsRun(cfg, run, actions) && i <= j < |run|
    ensures InEpoch(run[j].log, id, epoch) as real - InEpoch(run[i].log, id, epoch) as real
      <= cfg.session.burst as real + cfg.session.rate * (run[j].clock - run[i].clock)
  {
    var most := cfg.session.Most(run[i].clock, run[j].clock);
    assert InEpoch(run[j].log, id, epoch) as real - InEpoch(run[i].log, id, epoch) as real <= most by {
      EpochBound(cfg, run, actions, i, j, id, epoch);
    }
  }

  lemma EpochBound(cfg: Config, run: seq<System>, actions: seq<Action>, i: nat, j: nat, id: string, epoch: nat)
    requires cfg.Valid() && IsRun(cfg, run, actions) && i <= j < |run|
    ensures InEpoch(run[j].log, id, epoch) as real - InEpoch(run[i].log, id, epoch) as real
      <= cfg.session.Most(run[i].clock, run[j].clock)
  {
    var early, late := run[i].log, run[j].log;
    ClockRuns(cfg, run, actions, i, j);
    LimiterBound(cfg, run, actions, i, j, 0);
    NoneInEpoch(late, id, epoch);
    if InEpoch(late, id, epoch) == 0 {
      SupplyGrows(cfg.session, run[i].clock, run[j].clock);
    } else {
      var k: nat :| k < |late| && late[k].id == id && late[k].epoch == epoch;
      var n := late[k].limiter;
      RunInvariant(cfg, run, actions, j);
      OneLimiter(run[j], k);
      CountsAgree(late, id, epoch, n);
      assert forall l | 0 <= l < |early| :: early[l] == late[l];
      CountsAgree(early, id, epoch, n);
      LimiterBound(cfg, run, actions, i, j, n);
    }
  }

  // ---------- one session, with removals in the window ----------

  function Before(log: seq<Forward>, id: string, epoch: nat): nat {
    if epoch == 0 then 0 else Before(log, id, epoch - 1) + InEpoch(log, id, epoch - 1)
  }

  function OfSession(log: seq<Forward>, id: string): nat {
    if log == [] then 0 else OfSession(log[..|log| - 1], id) + if log[|log| - 1].id == id then 1 else 0
  }

  lemma {:induction false} BeforeAppend(log: seq<Forward>, f: Forward, id: string, epoch: nat)
    ensures Before(log + [f], id, epoch) == Before(log, id, epoch) + if f.id == id && f.epoch < epoch then 1 else 0
  {
    assert (log + [f])[..|log|] == log;
    if epoch > 0 {
      BeforeAppend(log, f, id, epoch - 1);
    }
  }

  lemma {:induction false} BeforeNone(id: string, epoch: nat)
    ensures Before([], id, epoch) == 0
  {
    if epoch > 0 {
      BeforeNone(id, epoch - 1);
    }
  }

  lemma {:induction false} AllEpochs(log: seq<Forward>, id: string, epoch: nat)
    requires forall k | 0 <= k < |log| && log[k].id == id :: log[k].epoch < epoch
    ensures OfSession(log, id) == Before(log, id, epoch)
  {
    if log == [] {
      BeforeNone(id, epoch);
    } else {
      var rest := log[..|log| - 1];
      AllEpochs(rest, id, epoch);
      assert log == rest + [log[|log| - 1]];
      BeforeAppend(rest, log[|log| - 1], id, epoch);
    }
  }

  /** Calls of the session that hold a limiter already removed, of an epoch before this one. */
  function Stale(s: System, id: string, epoch: nat): set<nat> {
    set c | c in s.lookups.callers && IsStale(s.lookups.callers[c], id, epoch)
  }

  predicate IsStale(c: L.Caller, id: string, epoch: nat) {
    c.Got? && c.id == id && c.epoch < epoch
  }

  /** No lookup hands out a limiter of an epoch that is over. */
  lemma NoNewStale(s: L.System, a: L.Action, r: L.System, id: string, epoch: nat, c: nat)
    requires L.Next(s, a, r) && epoch <= L.EpochOf(s.epochs, id)
    requires c in r.callers && IsStale(r.callers[c], id, epoch)
    ensures c in s.callers && s.callers[c] == r.callers[c]
  {
  }

  lemma StaleAfterLookup(cfg: Config, s: System, a: L.Action, r: System, id: string, epoch: nat)
    requires Inv(s) && Next(cfg, s, Lookup(a), r) && epoch <= L.EpochOf(s.lookups.epochs, id)
    ensures |Stale(r, id, epoch)| <= |Stale(s, id, epoch)|
  {
    forall c | c in Stale(r, id, epoch) ensures c in Stale(s, id, epoch) {
      NoNewStale(s.lookups, a, r.lookups, id, epoch, c);
    }
    assert Stale(s, id, epoch) == Stale(r, id, epoch) + (Stale(s, id, epoch) - Stale(r, id, epoch));
  }

  lemma StaleAfterAsking(cfg: Config, s: System, c: nat, r: System, id: string, epoch: nat)
    requires Next(cfg, s, Ask(c), r)
    ensures Before(r.log, id, epoch) + |Stale(r, id, epoch)| <= Before(s.log, id, epoch) + |Stale(s, id, epoch)|
  {
    var got := s.lookups.callers[c];
    BeforeAppend(s.log, Forward(got.id, got.epoch, got.limiter), id, epoch);
    assert Stale(r, id, epoch) == Stale(s, id, epoch) - {c};
    assert IsStale(got, id, epoch) <==> c in Stale(s, id, epoch);
  }

  lemma StaleStep(cfg: Config, s: System, a: Action, r: System, id: string, epoch: nat)
    requires Inv(s) && Next(cfg, s, a, r) && epoch <= L.EpochOf(s.lookups.epochs, id)
    ensures epoch <= L.EpochOf(r.lookups.epochs, id)
    ensures Before(r.log, id, epoch) + |Stale(r, id, epoch)| <= Before(s.log, id, epoch) + |Stale(s, id, epoch)|
  {
    match a {
      case Ask(c) =>
        StaleAfterAsking(cfg, s, c, r, id, epoch);
      case Lookup(look) =>
        L.HistoryGrows(s.lookups, look, r.lookups);
        StaleAfterLookup(cfg, s, look, r, id, epoch);
      case _ =>
        assert r.lookups == s.lookups && r.log == s.log;
    }
  }

  lemma {:induction false} StaleBound(cfg: Config, run: seq<System>, actions: seq<Action>, i: nat, j: nat, id: string)
    requires cfg.Valid() && IsRun(cfg, run, actions) && i <= j < |run|
    ensures var epoch := L.EpochOf(run[i].lookups.epochs, id);
      && epoch <= L.EpochOf(run[j].lookups.epochs, id)
      && Before(run[j].log, id, epoch) + |Stale(run[j], id, epoch)|
        <= Before(run[i].log, id, epoch) + |Stale(run[i], id, epoch)|
    decreases j
  {
    if i < j {
      StaleBound(cfg, run, actions, i, j - 1, id);
      RunInvariant(cfg, run, actions, j - 1);
      assert StepAt(cfg, run, actions, j - 1);
      StaleStep(cfg, run[j - 1], actions[j - 1], run[j], id, L.EpochOf(run[i].lookups.epochs, id));
    }
  }

  /** `m` windows of one limiter each. */
  function Windows(lim: Limit, from: real, until: real, m: nat): real {
    if m == 0 then 0.0 else Windows(lim, from, until, m - 1) + lim.Most(from, until)
  }

  lemma {:induction false} EpochsAddUp(cfg: Config, run: seq<System>, actions: seq<Action>, i: nat, j: nat, id: string,
                                       m: nat)
    requires cfg.Valid() && IsRun(cfg, run, actions) && i <= j < |run|
    ensures var epoch := L.EpochOf(run[i].lookups.epochs, id);
      Before(run[j].log, id, epoch + m) as real - Before(run[i].log, id, epoch + m) as real
        <= |Stale(run[i], id, epoch)| as real + Windows(cfg.session, run[i].clock, run[j].clock, m)
  {
    if m == 0 {
      StaleBound(cfg, run, actions, i, j, id);
    } else {
      var epoch := L.EpochOf(run[i].lookups.epochs, id);
      EpochsAddUp(cfg, run, actions, i, j, id, m - 1);
      EpochBound(cfg, run, actions, i, j, id, epoch + m - 1);
    }
  }

  lemma EpochsSoFar(s: System, id: string, epoch: nat)
    requires Inv(s) && L.EpochOf(s.lookups.epochs, id) < epoch
    ensures OfSession(s.log, id) == Before(s.log, id, epoch)
  {
    forall k | 0 <= k < |s.log| && s.log[k].id == id ensures s.log[k].epoch < epoch {
      assert Recorded(s.lookups, s.log[k]);
    }
    AllEpochs(s.log, id, epoch);
  }

  /** In any window of any interleaving, the calls of a session that are forwarded number at most burst
      plus rate times window for each limiter the session has in the window, that is one more than its
      limiter is removed, and one for every call that held a limiter removed before. */
  lemma OverlappingSessionBound(cfg: Config, run: seq<System>, actions: seq<Action>, i: nat, j: nat, id: string)
    requires cfg.Valid() && IsRun(cfg, run, actions) && i <= j < |run|
    ensures var first, last := L.EpochOf(run[i].lookups.epochs, id), L.EpochOf(run[j].lookups.epochs, id);
      && first <= last
      && OfSession(run[j].log, id) as real - OfSession(run[i].log, id) as real
        <= |Stale(run[i], id, first)| as real + Windows(cfg.session, run[i].clock, run[j].clock, last - first + 1)
  {
    var first, last := L.EpochOf(run[i].lookups.epochs, id), L.EpochOf(run[j].lookups.epochs, id);
    StaleBound(cfg, run, actions, i, j, id);
    RunInvariant(cfg, run, actions, i);
    RunInvariant(cfg, run, actions, j);
    EpochsSoFar(run[i], id, last + 1);
    EpochsSoFar(run[j], id, last + 1);
    EpochsAddUp(cfg, run, actions, i, j, id, last - first + 1);
  }

  // ---------- a call that nothing overlaps ----------

  /** The limiters as the sequential middleware sees them. */
  function View(cfg: Config, s: System): State {
    State(s.global, map id | id in s.lookups.limiters :: BucketOf(cfg, s, s.lookups.limiters[id]))
  }

  lemma AskedBucketChanges(cfg: Config, s: System, id: string, b: Bucket)
    requires Inv(s) && id in s.lookups.limiters
    ensures var n := s.lookups.limiters[id];
      && n < |s.buckets|
      && View(cfg, s.(buckets := s.buckets[n := b])) == State(s.global, View(cfg, s).sessions[id := b])
  {
    var n := s.lookups.limiters[id];
    assert L.WasMade(s.lookups, id, L.EpochOf(s.lookups.epochs, id), n);
    forall other | other in s.lookups.limiters && other != id ensures s.lookups.limiters[other] != n {
      assert L.WasMade(s.lookups, other, L.EpochOf(s.lookups.epochs, other), s.lookups.limiters[other]);
    }
  }

  /** Call `c` has found the limiter of its session, made full if there was none. */
  predicate LookedUp(cfg: Config, s: System, c: nat, id: string, r: System) {
    && r == s.(lookups := r.lookups, buckets := r.buckets)
    && id in r.lookups.limiters && c in r.lookups.callers && r.lookups.callers - {c} == s.lookups.callers
    && r.lookups.callers[c].Got? && r.lookups.callers[c].limiter == r.lookups.limiters[id]
    && View(cfg, r) == State(s.global, View(cfg, s).sessions[id := SessionBucket(cfg, View(cfg, s), id, s.clock)])
  }

  predicate MayLook(s: System, c: nat, id: string) {
    Inv(s) && c in s.waiting && s.waiting[c] == id && c !in s.lookups.callers
  }

  lemma FindsAlone(cfg: Config, s: System, c: nat, id: string) returns (r: System)
    requires cfg.Valid() && MayLook(s, c, id) && id in s.lookups.limiters
    ensures Next(cfg, s, Lookup(L.FirstLook(c, id)), r) && LookedUp(cfg, s, c, id, r)
  {
    r := s.(lookups := L.Answer(s.lookups, c, id, s.lookups.limiters[id]));
    assert r.buckets == s.buckets + [];
    assert r.lookups.callers - {c} == s.lookups.callers;
    assert View(cfg, r) == View(cfg, s);
  }

  lemma MissesAlone(cfg: Config, s: System, c: nat, id: string) returns (m: System)
    requires cfg.Valid() && MayLook(s, c, id) && id !in s.lookups.limiters
    ensures Next(cfg, s, Lookup(L.FirstLook(c, id)), m)
    ensures m == s.(lookups := s.lookups.(callers := s.lookups.callers[c := L.Missed(id)]))
  {
    m := s.(lookups := s.lookups.(callers := s.lookups.callers[c := L.Missed(id)]));
    assert m.buckets == s.buckets + [];
  }

  lemma MakesAlone(cfg: Config, s: System, c: nat, id: string, m: System) returns (r: System)
    requires cfg.Valid() && MayLook(s, c, id) && id !in s.lookups.limiters
    requires m == s.(lookups := s.lookups.(callers := s.lookups.callers[c := L.Missed(id)]))
    ensures Next(cfg, m, Lookup(L.SecondLook(c)), r) && LookedUp(cfg, s, c, id, r)
  {
    var n := |s.lookups.made|;
    var made := L.Answer(m.lookups, c, id, n).(
      limiters := m.lookups.limiters[id := n],
      made := m.lookups.made + [L.Creation(id, L.EpochOf(m.lookups.epochs, id), n)]);
    r := m.(lookups := made, buckets := m.buckets + [NewBucket(cfg.session, s.clock)]);
    assert r.lookups.callers - {c} == s.lookups.callers;
    NewLimiterInView(cfg, s, id, r);
  }

  lemma NewLimiterInView(cfg: Config, s: System, id: string, r: System)
    requires Inv(s) && r.global == s.global && r.buckets == s.buckets + [NewBucket(cfg.session, s.clock)]
    requires r.lookups.limiters == s.lookups.limiters[id := |s.buckets|]
    ensures View(cfg, r) == State(s.global, View(cfg, s).sessions[id := NewBucket(cfg.session, s.clock)])
  {
    forall other | other in s.lookups.limiters ensures s.lookups.limiters[other] < |s.buckets| {
      assert L.WasMade(s.lookups, other, L.EpochOf(s.lookups.epochs, other), s.lookups.limiters[other]);
    }
  }

  lemma LookupAlone(cfg: Config, run: seq<System>, actions: seq<Action>, c: nat, id: string)
    returns (longer: seq<System>, all: seq<Action>)
    requires cfg.Valid() && Steps(cfg, run, actions) && MayLook(run[|actions|], c, id)
    ensures Steps(cfg, longer, all) && longer[0] == run[0]
    ensures Inv(longer[|all|]) && LookedUp(cfg, run[|actions|], c, id, longer[|all|])
  {
    var s := run[|actions|];
    var first := Lookup(L.FirstLook(c, id));
    if id in s.lookups.limiters {
      var r := FindsAlone(cfg, s, c, id);
      OneStepMore(cfg, run, actions, first, r);
      Preserved(cfg, s, first, r);
      longer, all := run + [r], actions + [first];
    } else {
      var m := MissesAlone(cfg, s, c, id);
      var r := MakesAlone(cfg, s, c, id, m);
      OneStepMore(cfg, run, actions, first, m);
      OneStepMore(cfg, run + [m], actions + [first], Lookup(L.SecondLook(c)), r);
      Preserved(cfg, s, first, m);
      Preserved(cfg, m, Lookup(L.SecondLook(c)), r);
      longer, all := run + [m] + [r], actions + [first] + [Lookup(L.SecondLook(c))];
    }
  }

  lemma AskAlone(cfg: Config, s: System, c: nat, id: string, r: System)
    requires cfg.Valid() && Inv(s) && c in s.lookups.callers && s.lookups.callers[c].Got?
    requires id in s.lookups.limiters && s.lookups.callers[c].limiter == s.lookups.limiters[id] < |s.buckets|
    requires r == Answer(cfg, s, c, s.lookups.callers[c])
    ensures id in View(cfg, s).sessions
    ensures var b := View(cfg, s).sessions[id];
      && View(cfg, r) == State(s.global, View(cfg, s).sessions[id := AfterAllow(cfg.session, b, s.clock)])
      && r.forwarded == s.forwarded + if Allows(cfg.session, b, s.clock) then 1 else 0
  {
    var n := s.lookups.limiters[id];
    AskedBucketChanges(cfg, s, id, AfterAllow(cfg.session, s.buckets[n], s.clock));
    assert View(cfg, r) == View(cfg, s.(buckets := r.buckets));
  }

  /** Once the limiter is found, it is asked. */
  lemma AnswerAlone(cfg: Config, s: System, c: nat, id: string, m: System) returns (r: System)
    requires cfg.Valid() && MayLook(s, c, id) && Inv(m) && LookedUp(cfg, s, c, id, m)
    ensures Next(cfg, m, Ask(c), r)
    ensures var b := SessionBucket(cfg, View(cfg, s), id, s.clock);
      && View(cfg, r) == State(s.global, View(cfg, s).sessions[id := AfterAllow(cfg.session, b, s.clock)])
      && r.forwarded == s.forwarded + (if Allows(cfg.session, b, s.clock) then 1 else 0)
      && r.waiting == s.waiting - {c}
  {
    assert L.WasMade(m.lookups, id, L.EpochOf(m.lookups.epochs, id), m.lookups.limiters[id]);
    r := Answer(cfg, m, c, m.lookups.callers[c]);
    AskAlone(cfg, m, c, id, r);
  }

  /** A call with a session that the global limiter has let through. */
  lemma SessionAlone(cfg: Config, run: seq<System>, actions: seq<Action>, c: nat, id: string, later: real)
    returns (longer: seq<System>, all: seq<Action>)
    requires cfg.Valid() && Steps(cfg, run, actions) && MayLook(run[|actions|], c, id) && run[|actions|].clock <= later
    ensures Steps(cfg, longer, all) && longer[0] == run[0]
    ensures var s, r := run[|actions|], longer[|all|];
      var b := SessionBucket(cfg, View(cfg, s), id, later);
      && View(cfg, r) == State(s.global, View(cfg, s).sessions[id := AfterAllow(cfg.session, b, later)])
      && r.forwarded == s.forwarded + (if Allows(cfg.session, b, later) then 1 else 0)
      && r.waiting == s.waiting - {c}
  {
    var s := run[|actions|];
    var s1 := s.(clock := later);
    OneStepMore(cfg, run, actions, Tick(later), s1);
    Preserved(cfg, s, Tick(later), s1);
    ViewOutlastsTime(cfg, s, later);
    longer, all := LookupAlone(cfg, run + [s1], actions + [Tick(later)], c, id);
    var r := AnswerAlone(cfg, s1, c, id, longer[|all|]);
    OneStepMore(cfg, longer, all, Ask(c), r);
    longer, all := longer + [r], all + [Ask(c)];
  }

  lemma ViewOutlastsTime(cfg: Config, s: System, later: real)
    requires Inv(s)
    ensures View(cfg, s.(clock := later)) == View(cfg, s)
  {
    forall id | id in s.lookups.limiters ensures s.lookups.limiters[id] < |s.buckets| {
      assert L.WasMade(s.lookups, id, L.EpochOf(s.lookups.epochs, id), s.lookups.limiters[id]);
    }
    assert View(cfg, s.(clock := later)).sessions == View(cfg, s).sessions;
  }

  /** What the contract of `Admit` says it does and answers, the machine can do by moving this one call. */
  lemma CallAlone(cfg: Config, s: System, c: nat, id: string, at: real, later: real)
    returns (run: seq<System>, actions: seq<Action>)
    requires cfg.Valid() && Inv(s) && c !in s.waiting && s.clock <= at <= later
    ensures Steps(cfg, run, actions) && run[0] == s
    ensures var r := run[|actions|];
      && View(cfg, r) == AfterCall(cfg, View(cfg, s), id, at, later) && r.waiting == s.waiting
      && r.forwarded == s.forwarded + if Forwards(cfg, View(cfg, s), id, at, later) then 1 else 0
  {
    var s1 := s.(clock := at);
    var s2 := if Allows(cfg.global, s1.global, at) then Enter(cfg, s1, c, id) else s1;
    run, actions := [s, s1, s2], [Tick(at), Arrive(c, id)];
    assert Next(cfg, s, actions[0], s1) && Next(cfg, s1, actions[1], s2);
    assert StepAt(cfg, run, actions, 0) && StepAt(cfg, run, actions, 1);
    Preserved(cfg, s, Tick(at), s1);
    Preserved(cfg, s1, Arrive(c, id), s2);
    ViewOutlastsTime(cfg, s, at);
    assert View(cfg, s2) == View(cfg, s1).(global := s2.global);
    if Allows(cfg.global, s1.global, at) && id != "" {
      run, actions := SessionAlone(cfg, run, actions, c, id, later);
      assert s2.waiting - {c} == s.waiting;
    }
  }
}
