/** The global bound on overlapping calls cannot be improved (pkg/client/ratelimit.go): runs that reach it, for
    every number of calls waiting when the window begins. */
module WaitingBounds {
  import opened RateLimit
  import opened AdmissionRuns
  import L = LimiterRuns

  function UpTo(k: nat): (r: set<nat>)
    ensures |r| == k && forall c: nat :: c in r <==> c < k
  {
    if k == 0 then {} else UpTo(k - 1) + {k - 1}
  }

  // ---------- calls come to hold limiters ----------

  /** The global limiter has, or will in time have, tokens for `k` more calls. */
  predicate Room(cfg: Config, s: System, k: nat) {
    && ReadyBucket(s.global, s.clock) && s.global.tokens <= cfg.global.burst as real
    && (cfg.global.rate > 0.0 || k as real <= s.global.tokens)
  }

  /** When `x` tokens will have been produced. */
  lemma Produced(lim: Limit, now: real, x: real) returns (to: real)
    requires lim.rate > 0.0 && x >= 0.0
    ensures now <= to && lim.Supply(to) == lim.Supply(now) + x
  {
    var wait := x / lim.rate;
    to := now + wait;
    assert wait >= 0.0 && lim.rate * wait == x;
    assert lim.rate * to == lim.rate * now + lim.rate * wait;
  }

  lemma LevelLater(lim: Limit, b: Bucket, now: real, to: real, x: real)
    requires lim.Valid() && ReadyBucket(b, now) && now <= to && lim.Supply(to) == lim.Supply(now) + x
    ensures b.tokens <= lim.burst as real && x >= 0.0 ==>
      Level(lim, b, to) >= if b.tokens + x <= lim.burst as real then b.tokens + x else lim.burst as real
    ensures Level(lim, b, to) <= lim.burst as real
  {
    var grown := lim.Supply(now) - lim.Supply(b.last);
    assert grown >= 0.0 by {
      SupplyGrows(lim, b.last, now);
    }
  }

  /** Waiting long enough, the next call is let through. */
  lemma TokenInTime(cfg: Config, s: System, k: nat) returns (to: real)
    requires cfg.Valid() && cfg.global.burst >= 1 && Room(cfg, s, k + 1)
    ensures s.clock <= to && Allows(cfg.global, s.global, to)
    ensures Room(cfg, s.(clock := to, global := AfterAllow(cfg.global, s.global, to)), k)
  {
    var x := if cfg.global.rate > 0.0 then 1.0 else 0.0;
    if cfg.global.rate > 0.0 {
      to := Produced(cfg.global, s.clock, x);
    } else {
      to := s.clock;
    }
    LevelLater(cfg.global, s.global, s.clock, to, x);
  }

  lemma ArriveNext(cfg: Config, run: seq<System>, actions: seq<Action>, c: nat, id: string, k: nat)
    returns (longer: seq<System>, all: seq<Action>)
    requires cfg.Valid() && cfg.global.burst >= 1 && Steps(cfg, run, actions) && Room(cfg, run[|actions|], k + 1)
    requires c !in run[|actions|].waiting && id != ""
    ensures Steps(cfg, longer, all) && run <= longer && Room(cfg, longer[|all|], k)
    ensures var s, r := run[|actions|], longer[|all|];
      && s.clock <= r.clock
      && r == s.(clock := r.clock, global := r.global, entered := r.entered, waiting := s.waiting[c := id])
  {
    var s := run[|actions|];
    var to := TokenInTime(cfg, s, k);
    var s1 := s.(clock := to);
    var s2 := Enter(cfg, s1, c, id);
    OneStepMore(cfg, run, actions, Tick(to), s1);
    OneStepMore(cfg, run + [s1], actions + [Tick(to)], Arrive(c, id), s2);
    longer, all := run + [s1] + [s2], actions + [Tick(to)] + [Arrive(c, id)];
  }

  predicate Unasked(cfg: Config, b: Bucket, now: real) {
    b.tokens == cfg.session.burst as real && b.last <= now
  }

  predicate HoldsOwn(s: System, c: nat) {
    c in s.lookups.callers && s.lookups.callers[c].Got? && s.lookups.callers[c].limiter == c
  }

  /** Calls 0 to k - 1 wait, each holding the limiter of its number, and no limiter has been asked. */
  predicate Holding(cfg: Config, s: System, k: nat) {
    && s.waiting.Keys == UpTo(k) && s.lookups.callers.Keys == UpTo(k)
    && |s.buckets| == k && |s.lookups.made| == k
    && (forall n: nat | n < k :: Unasked(cfg, s.buckets[n], s.clock))
    && (forall c: nat | c < k :: HoldsOwn(s, c))
  }

  /** The lookup that makes the limiter. */
  function Made(cfg: Config, s: System, c: nat, id: string): System {
    var n := |s.lookups.made|;
    s.(lookups := L.Answer(s.lookups, c, id, n).(
         limiters := s.lookups.limiters[id := n],
         made := s.lookups.made + [L.Creation(id, L.EpochOf(s.lookups.epochs, id), n)]),
       buckets := s.buckets + [NewBucket(cfg.session, s.clock)])
  }

  lemma MakeNext(cfg: Config, run: seq<System>, actions: seq<Action>, c: nat, id: string)
    returns (longer: seq<System>, all: seq<Action>)
    requires Steps(cfg, run, actions)
    requires var s := run[|actions|];
      c in s.waiting && s.waiting[c] == id && c !in s.lookups.callers && id !in s.lookups.limiters
    ensures Steps(cfg, longer, all) && run <= longer && longer[|all|] == Made(cfg, run[|actions|], c, id)
  {
    var s := run[|actions|];
    var m := s.(lookups := s.lookups.(callers := s.lookups.callers[c := L.Missed(id)]));
    var r := Made(cfg, s, c, id);
    assert m.buckets == s.buckets + [];
    assert m.lookups.callers[c := L.Got(id, L.EpochOf(s.lookups.epochs, id), |s.lookups.made|)] == r.lookups.callers;
    OneStepMore(cfg, run, actions, Lookup(L.FirstLook(c, id)), m);
    OneStepMore(cfg, run + [m], actions + [Lookup(L.FirstLook(c, id))], Lookup(L.SecondLook(c)), r);
    longer, all := run + [m] + [r], actions + [Lookup(L.FirstLook(c, id))] + [Lookup(L.SecondLook(c))];
  }

  /** One more call comes to hold a limiter of its own. */
  lemma HolderNext(cfg: Config, run: seq<System>, actions: seq<Action>, k: nat, id: string, more: nat)
    returns (longer: seq<System>, all: seq<Action>)
    requires cfg.Valid() && cfg.global.burst >= 1 && Steps(cfg, run, actions)
    requires Holding(cfg, run[|actions|], k) && Room(cfg, run[|actions|], more + 1)
    requires id != "" && id !in run[|actions|].lookups.limiters
    ensures Steps(cfg, longer, all) && run <= longer
    ensures Holding(cfg, longer[|all|], k + 1) && Room(cfg, longer[|all|], more)
    ensures var s, r := run[|actions|].lookups, longer[|all|].lookups;
      && r.limiters == s.limiters[id := k] && r.epochs == s.epochs
      && r.callers == s.callers[k := L.Got(id, L.EpochOf(s.epochs, id), k)]
  {
    longer, all := ArriveNext(cfg, run, actions, k, id, more);
    longer, all := MakeNext(cfg, longer, all, k, id);
    HoldingGrows(cfg, run[|actions|], k, id, longer[|all|]);
  }

  lemma HoldingGrows(cfg: Config, s: System, k: nat, id: string, r: System)
    requires Holding(cfg, s, k) && s.clock <= r.clock
    requires r.waiting == s.waiting[k := id] && r.buckets == s.buckets + [NewBucket(cfg.session, r.clock)]
    requires r.lookups.callers == s.lookups.callers[k := L.Got(id, L.EpochOf(s.lookups.epochs, id), k)]
    requires |r.lookups.made| == k + 1
    ensures Holding(cfg, r, k + 1)
  {
    assert UpTo(k + 1) == UpTo(k) + {k};
    forall c: nat | c < k + 1 ensures HoldsOwn(r, c) {
      assert c < k ==> HoldsOwn(s, c);
    }
    forall n: nat | n < k + 1 ensures Unasked(cfg, r.buckets[n], r.clock) {
      assert n < k ==> Unasked(cfg, s.buckets[n], s.clock);
    }
  }

  // ---------- calls are answered at one moment ----------

  function Without(m: map<nat, string>, lo: nat, hi: nat): map<nat, string> {
    map c | c in m && !(lo <= c < hi) :: m[c]
  }

  /** The state after calls lo to hi - 1 were forwarded, at the moment of `s`; with `id`, all of that session. */
  predicate AnsweredAll(s: System, r: System, lo: nat, hi: nat, id: string)
    requires lo <= hi
  {
    && r.clock == s.clock && r.global == s.global && r.forwarded == s.forwarded + (hi - lo)
    && r.waiting == Without(s.waiting, lo, hi) && r.lookups.epochs == s.lookups.epochs
    && |r.buckets| == |s.buckets|
    && (forall c | c in s.lookups.callers && !(lo <= c < hi) ::
          c in r.lookups.callers && r.lookups.callers[c] == s.lookups.callers[c])
    && ((forall c | c in s.lookups.callers && lo <= c < hi :: s.lookups.callers[c].id == id) ==>
          OfSession(r.log, id) == OfSession(s.log, id) + (hi - lo))
  }

  lemma OfSessionAppend(log: seq<Forward>, f: Forward, id: string)
    ensures OfSession(log + [f], id) == OfSession(log, id) + if f.id == id then 1 else 0
  {
    assert (log + [f])[..|log|] == log;
  }

  lemma AskFirst(cfg: Config, s: System, lo: nat, id: string) returns (m: System)
    requires lo in s.lookups.callers && s.lookups.callers[lo].Got? && s.lookups.callers[lo].limiter < |s.buckets|
    requires Allows(cfg.session, s.buckets[s.lookups.callers[lo].limiter], s.clock)
    ensures Next(cfg, s, Ask(lo), m) && AnsweredAll(s, m, lo, lo + 1, id)
    ensures m == Answer(cfg, s, lo, s.lookups.callers[lo])
  {
    var got := s.lookups.callers[lo];
    m := Answer(cfg, s, lo, got);
    FirstAnswered(s, m, lo, id, Forward(got.id, got.epoch, got.limiter));
  }

  lemma FirstAnswered(s: System, m: System, lo: nat, id: string, f: Forward)
    requires lo in s.lookups.callers && f.id == s.lookups.callers[lo].id
    requires m.clock == s.clock && m.global == s.global && m.forwarded == s.forwarded + 1
    requires m.waiting == s.waiting - {lo} && m.lookups == s.lookups.(callers := s.lookups.callers - {lo})
    requires |m.buckets| == |s.buckets| && m.log == s.log + [f]
    ensures AnsweredAll(s, m, lo, lo + 1, id)
  {
    OfSessionAppend(s.log, f, id);
    assert m.waiting == Without(s.waiting, lo, lo + 1);
  }

  lemma AnsweredOn(s: System, m: System, r: System, lo: nat, hi: nat, id: string)
    requires lo < hi && AnsweredAll(s, m, lo, lo + 1, id) && AnsweredAll(m, r, lo + 1, hi, id)
    requires m.lookups.callers == s.lookups.callers - {lo}
    ensures AnsweredAll(s, r, lo, hi, id)
  {
    assert r.waiting == Without(s.waiting, lo, hi);
  }

  /** Every call that holds a full limiter of its own is forwarded. */
  lemma {:induction false} AskOwn(cfg: Config, run: seq<System>, actions: seq<Action>, lo: nat, hi: nat, id: string)
    returns (longer: seq<System>, all: seq<Action>)
    requires cfg.Valid() && cfg.session.burst >= 1 && Steps(cfg, run, actions) && lo <= hi <= |run[|actions|].buckets|
    requires forall c | lo <= c < hi ::
      HoldsOwn(run[|actions|], c) && Unasked(cfg, run[|actions|].buckets[c], run[|actions|].clock)
    ensures Steps(cfg, longer, all) && run <= longer && AnsweredAll(run[|actions|], longer[|all|], lo, hi, id)
    ensures forall n | hi <= n < |run[|actions|].buckets| :: longer[|all|].buckets[n] == run[|actions|].buckets[n]
    decreases hi - lo
  {
    var s := run[|actions|];
    longer, all := run, actions;
    if lo < hi {
      assert HoldsOwn(s, lo) && Unasked(cfg, s.buckets[lo], s.clock);
      SupplyGrows(cfg.session, s.buckets[lo].last, s.clock);
      var m := AskFirst(cfg, s, lo, id);
      OneStepMore(cfg, run, actions, Ask(lo), m);
      forall c | lo + 1 <= c < hi ensures HoldsOwn(m, c) && Unasked(cfg, m.buckets[c], m.clock) {
        assert HoldsOwn(s, c) && Unasked(cfg, s.buckets[c], s.clock);
      }
      longer, all := AskOwn(cfg, run + [m], actions + [Ask(lo)], lo + 1, hi, id);
      AnsweredOn(s, m, longer[|all|], lo, hi, id);
    } else {
      assert s.waiting == Without(s.waiting, lo, hi);
    }
  }

  /** Calls that share a limiter are forwarded while its tokens last. */
  lemma {:induction false} AskShared(cfg: Config, run: seq<System>, actions: seq<Action>, lo: nat, hi: nat, n: nat,
                                     id: string)
    returns (longer: seq<System>, all: seq<Action>)
    requires cfg.Valid() && cfg.session.burst >= 1 && Steps(cfg, run, actions) && lo <= hi
    requires n < |run[|actions|].buckets|
    requires var b := run[|actions|].buckets[n];
      b.last <= run[|actions|].clock && (hi - lo) as real <= b.tokens <= cfg.session.burst as real
    requires forall c | lo <= c < hi :: SharesLimiter(run[|actions|], c, n)
    ensures Steps(cfg, longer, all) && run <= longer && AnsweredAll(run[|actions|], longer[|all|], lo, hi, id)
    decreases hi - lo
  {
    var s := run[|actions|];
    longer, all := run, actions;
    if lo < hi {
      assert SharesLimiter(s, lo, n);
      SupplyGrows(cfg.session, s.buckets[n].last, s.clock);
      var m := AskFirst(cfg, s, lo, id);
      OneStepMore(cfg, run, actions, Ask(lo), m);
      forall c | lo + 1 <= c < hi ensures SharesLimiter(m, c, n) {
        assert SharesLimiter(s, c, n);
      }
      longer, all := AskShared(cfg, run + [m], actions + [Ask(lo)], lo + 1, hi, n, id);
      AnsweredOn(s, m, longer[|all|], lo, hi, id);
    } else {
      assert s.waiting == Without(s.waiting, lo, hi);
    }
  }

  predicate SharesLimiter(s: System, c: nat, n: nat) {
    c in s.lookups.callers && s.lookups.callers[c].Got? && s.lookups.callers[c].limiter == n
  }

  function Start(cfg: Config): System {
    System(L.System(map[], map[], map[], []), [], NewBucket(cfg.global, 0.0), 0.0, map[], 0, 0, [])
  }

  // ---------- waiting calls ----------

  function Name(k: nat): string {
    seq(k + 1, i => 'x')
  }

  /** `n` calls of different sessions wait. */
  lemma {:induction false} WaitingRun(cfg: Config, n: nat) returns (run: seq<System>, actions: seq<Action>)
    requires cfg.Valid() && cfg.global.burst >= 1 && cfg.global.rate > 0.0
    ensures IsRun(cfg, run, actions) && Holding(cfg, run[|actions|], n) && Room(cfg, run[|actions|], 0)
    ensures run[|actions|].lookups.epochs == map[]
    ensures forall id | id in run[|actions|].lookups.limiters :: |id| <= n
  {
    if n == 0 {
      run, actions := [Start(cfg)], [];
    } else {
      run, actions := WaitingRun(cfg, n - 1);
      var longer, all := HolderNext(cfg, run, actions, n - 1, Name(n - 1), 0);
      run, actions := longer, all;
    }
  }

  /** Calls without a session empty the global bucket at one moment. */
  lemma {:induction false} Drain(cfg: Config, run: seq<System>, actions: seq<Action>, n: nat)
    returns (longer: seq<System>, all: seq<Action>)
    requires Steps(cfg, run, actions) && run[|actions|].waiting == map[]
    requires Level(cfg.global, run[|actions|].global, run[|actions|].clock) >= n as real && n <= cfg.global.burst
    ensures Steps(cfg, longer, all) && run <= longer
    ensures var s, r := run[|actions|], longer[|all|];
      r.forwarded == s.forwarded + n && r.clock == s.clock && r.lookups == s.lookups
    decreases n
  {
    longer, all := run, actions;
    if n > 0 {
      var r := Enter(cfg, run[|actions|], 0, "");
      OneStepMore(cfg, run, actions, Arrive(0, ""), r);
      longer, all := Drain(cfg, run + [r], actions + [Arrive(0, "")], n - 1);
    }
  }

  /** After long enough, the global bucket is full again. */
  lemma FullInTime(cfg: Config, s: System) returns (to: real)
    requires cfg.Valid() && cfg.global.rate > 0.0 && Room(cfg, s, 0)
    ensures s.clock <= to && Level(cfg.global, s.global, to) == cfg.global.burst as real
  {
    to := Produced(cfg.global, s.clock, cfg.global.burst as real);
    LevelLater(cfg.global, s.global, s.clock, to, cfg.global.burst as real);
  }

  /** With `n` calls waiting, the global burst and `n` more can reach a handler at a single moment, although
      no session limiter was ever removed. */
  lemma WaitingCounts(cfg: Config, n: nat) returns (run: seq<System>, actions: seq<Action>, i: nat)
    requires cfg.Valid() && cfg.global.burst >= 1 && cfg.session.burst >= 1 && cfg.global.rate > 0.0
    ensures IsRun(cfg, run, actions) && i <= |actions| && run[|actions|].clock == run[i].clock
    ensures run[|actions|].lookups.epochs == map[]
    ensures |run[i].waiting| == n && run[|actions|].forwarded == run[i].forwarded + cfg.global.burst + n
  {
    var past, done := WaitingRun(cfg, n);
    var to := FullInTime(cfg, past[|done|]);
    var s := past[|done|].(clock := to);
    OneStepMore(cfg, past, done, Tick(to), s);
    i := |done| + 1;
    forall c: nat | c < n ensures HoldsOwn(s, c) && Unasked(cfg, s.buckets[c], s.clock) {
      assert HoldsOwn(past[|done|], c) && Unasked(cfg, past[|done|].buckets[c], past[|done|].clock);
    }
    assert |s.waiting| == |s.waiting.Keys| == n;
    var longer, all := AskOwn(cfg, past + [s], done + [Tick(to)], 0, n, "");
    run, actions := Drain(cfg, longer, all, cfg.global.burst);
    assert run[i] == longer[i] == (past + [s])[i] == s;
  }

  /** In every window that begins with `n` calls waiting, calls that reach a handler number at most `extra`
      plus rate times window. */
  ghost predicate ForwardsWithin(cfg: Config, n: nat, extra: real) {
    forall run: seq<System>, actions: seq<Action>, i: nat, j: nat |
        IsRun(cfg, run, actions) && i <= j < |run| && |run[i].waiting| == n ::
      InWindow(cfg.global, run[i], run[j], run[j].forwarded - run[i].forwarded, extra)
  }

  predicate InWindow(lim: Limit, s: System, r: System, count: int, extra: real) {
    count as real <= extra + lim.rate * (r.clock - s.clock)
  }

  /** The least such `extra` is the global burst plus `n`. */
  lemma WaitingExact(cfg: Config, n: nat, extra: real)
    requires cfg.Valid() && cfg.global.burst >= 1 && cfg.session.burst >= 1 && cfg.global.rate > 0.0
    ensures ForwardsWithin(cfg, n, extra) <==> (cfg.global.burst + n) as real <= extra
  {
    if ForwardsWithin(cfg, n, extra) {
      var run, actions, i := WaitingCounts(cfg, n);
      assert InWindow(cfg.global, run[i], run[|actions|], run[|actions|].forwarded - run[i].forwarded, extra);
    }
    if (cfg.global.burst + n) as real <= extra {
      forall run: seq<System>, actions: seq<Action>, i: nat, j: nat |
          IsRun(cfg, run, actions) && i <= j < |run| && |run[i].waiting| == n
        ensures InWindow(cfg.global, run[i], run[j], run[j].forwarded - run[i].forwarded, extra)
      {
        OverlappingGlobalBound(cfg, run, actions, i, j);
      }
    }
  }
}
