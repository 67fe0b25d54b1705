/** Admission of tool calls through a global and a per-session limiter (pkg/client/ratelimit.go). */
module RateLimit {

  // ---------- one limiter ----------

  datatype Limit = Limit(rate: real, burst: int)
  {
    predicate Valid() {
      rate >= 0.0 && burst >= 0
    }

    /** Tokens produced up to time `t`; a window produces the difference of its ends. */
    function Supply(t: real): real {
      rate * t
    }

    /** The most a full bucket lets through between two moments: its burst and what is produced. */
    function Most(from: real, until: real): real {
      burst as real + rate * (until - from)
    }
  }

  /** A token bucket, the contract of golang.org/x/time/rate. */
  datatype Bucket = Bucket(tokens: real, last: real)

  function NewBucket(lim: Limit, now: real): Bucket {
    Bucket(lim.burst as real, now)
  }

  /** Tokens available at `now`. */
  function Level(lim: Limit, b: Bucket, now: real): real {
    var grown := if now < b.last then b.tokens else b.tokens + lim.Supply(now) - lim.Supply(b.last);
    if grown > lim.burst as real then lim.burst as real else grown
  }

  predicate Allows(lim: Limit, b: Bucket, now: real) {
    lim.burst >= 1 && Level(lim, b, now) >= 1.0
  }

  /** A refused call leaves the bucket as it was. */
  function AfterAllow(lim: Limit, b: Bucket, now: real): Bucket {
    if Allows(lim, b, now) then Bucket(Level(lim, b, now) - 1.0, now) else b
  }

  // ---------- the middleware as a function of its state ----------

  datatype Config = Config(global: Limit, session: Limit)
  {
    predicate Valid() {
      global.Valid() && session.Valid()
    }
  }

  datatype State = State(global: Bucket, sessions: map<string, Bucket>)

  function SessionBucket(cfg: Config, s: State, id: string, now: real): Bucket {
    if id in s.sessions then s.sessions[id] else NewBucket(cfg.session, now)
  }

  /** The global limiter is asked at `now`, the session's at `later`. A call without a session passes the
      global limiter only; `""` is no session. */
  predicate Forwards(cfg: Config, s: State, id: string, now: real, later: real) {
    Allows(cfg.global, s.global, now) && (id != "" ==> Allows(cfg.session, SessionBucket(cfg, s, id, later), later))
  }

  /** The session limiter is asked only after the global one, and its refusal gives no token back. */
  function AfterCall(cfg: Config, s: State, id: string, now: real, later: real): State {
    State(AfterAllow(cfg.global, s.global, now),
      if Allows(cfg.global, s.global, now) && id != ""
      then s.sessions[id := AfterAllow(cfg.session, SessionBucket(cfg, s, id, later), later)]
      else s.sessions)
  }

  function AfterCleanup(s: State, active: seq<string>): State {
    s.(sessions := map id | id in s.sessions && id in active :: s.sessions[id])
  }

  // ---------- the middleware as it is ----------

  class Limiter {
    const limit: Limit
    var bucket: Bucket

    constructor (limit: Limit, now: real)
      ensures this.limit == limit && bucket == NewBucket(limit, now)
    {
      this.limit, bucket := limit, NewBucket(limit, now);
    }

    /** Let through iff at least one token is there, counting what was produced since the last call and
        never more than the burst; then one token less. A refused call costs nothing. */
    method Allow(now: real) returns (ok: bool)
      modifies this
      ensures ok <==> limit.burst >= 1 && Level(limit, old(bucket), now) >= 1.0
      ensures ok ==> bucket.tokens == Level(limit, old(bucket), now) - 1.0 && bucket.last == now
      ensures !ok ==> bucket == old(bucket)
      ensures limit.Valid() && 0.0 <= old(bucket).tokens <= limit.burst as real ==>
        0.0 <= bucket.tokens <= limit.burst as real
    {
      ok := Allows(limit, bucket, now);
      bucket := AfterAllow(limit, bucket, now);
    }
  }

  class RateLimitMiddleware {
    const config: Config
    const globalLimiter: Limiter
    var sessionLimiters: map<string, Limiter>

    /** Every session has a limiter of its own, with the session limit. */
    ghost predicate Valid()
      reads this
    {
      && globalLimiter.limit == config.global
      && (forall id | id in sessionLimiters ::
            sessionLimiters[id] != globalLimiter && sessionLimiters[id].limit == config.session)
      && (forall id, other | id in sessionLimiters && other in sessionLimiters && id != other ::
            sessionLimiters[id] != sessionLimiters[other])
    }

    ghost function Contents(): State
      reads this, globalLimiter, sessionLimiters.Values
    {
      State(globalLimiter.bucket, map id | id in sessionLimiters :: sessionLimiters[id].bucket)
    }

    constructor (config: Config, now: real)
      ensures Valid() && this.config == config && fresh(globalLimiter)
      ensures Contents() == Initial(config, now)
    {
      this.config := config;
      globalLimiter := new Limiter(config.global, now);
      sessionLimiters := map[];
    }

    /** The limiter of the session, created full on first use. */
    method GetSessionLimiter(id: string, now: real) returns (limiter: Limiter)
      requires Valid()
      modifies this`sessionLimiters
      ensures Valid() && id in sessionLimiters && sessionLimiters[id] == limiter
      ensures id in old(sessionLimiters) ==> sessionLimiters == old(sessionLimiters)
      ensures id !in old(sessionLimiters) ==> fresh(limiter) && sessionLimiters == old(sessionLimiters)[id := limiter]
      ensures Contents() == old(Contents()).(
          sessions := old(Contents()).sessions[id := SessionBucket(config, old(Contents()), id, now)])
    {
      if id in sessionLimiters {
        return sessionLimiters[id];
      }
      limiter := new Limiter(config.session, now);
      sessionLimiters := sessionLimiters[id := limiter];
    }

    /** The check before a handler runs, with the readings of the clock by the two limiters. */
    method Admit(id: string, now: real, later: real) returns (forwarded: bool)
      requires Valid()
      modifies this`sessionLimiters, globalLimiter, sessionLimiters.Values
      ensures Valid()
      ensures forwarded == Forwards(config, old(Contents()), id, now, later)
      ensures id == "" ==>
        (forwarded <==> config.global.burst >= 1 && Level(config.global, old(globalLimiter.bucket), now) >= 1.0)
        && sessionLimiters == old(sessionLimiters)
      ensures Contents() == AfterCall(config, old(Contents()), id, now, later)
    {
      var ok := globalLimiter.Allow(now);
      assert Contents() == State(globalLimiter.bucket, old(Contents()).sessions);
      if !ok {
        return false;
      }
      if id == "" {
        return true;
      }
      forwarded := AskSession(id, later);
    }

    /** Other sessions' limiters are not touched. */
    method AskSession(id: string, now: real) returns (ok: bool)
      requires Valid()
      modifies this`sessionLimiters, sessionLimiters.Values
      ensures Valid()
      ensures ok == Allows(config.session, SessionBucket(config, old(Contents()), id, now), now)
      ensures var before := old(Contents());
        var b := AfterAllow(config.session, SessionBucket(config, before, id, now), now);
        Contents() == before.(sessions := before.sessions[id := b])
    {
      var limiter := GetSessionLimiter(id, now);
      ghost var asked, before := Contents(), limiter.bucket;
      assert asked.sessions[id] == before;
      ok := limiter.Allow(now);
      OneBucketChanged(asked, id, limiter.bucket);
    }

    lemma OneBucketChanged(asked: State, id: string, b: Bucket)
      requires id in sessionLimiters && sessionLimiters[id].bucket == b && asked.sessions.Keys == sessionLimiters.Keys
      requires globalLimiter.bucket == asked.global
      requires forall other | other in sessionLimiters && other != id ::
        sessionLimiters[other].bucket == asked.sessions[other]
      ensures Contents() == asked.(sessions := asked.sessions[id := b])
    {
      assert Contents().sessions == asked.sessions[id := b];
    }

    /** Keeps exactly the limiters of the active sessions, untouched. */
    method CleanupSessions(active: seq<string>)
      requires Valid()
      modifies this`sessionLimiters
      ensures Valid()
      ensures sessionLimiters == map id | id in old(sessionLimiters) && id in active :: old(sessionLimiters)[id]
      ensures Contents() == AfterCleanup(old(Contents()), active)
    {
      var activeSet: set<string> := {};
      for i := 0 to |active|
        invariant forall id :: id in activeSet <==> id in active[..i]
      {
        activeSet := activeSet + {active[i]};
      }
      assert active[..|active|] == active;
      var keys := sessionLimiters.Keys;
      while keys != {}
        invariant keys <= old(sessionLimiters).Keys
        invariant sessionLimiters
          == map id | id in old(sessionLimiters) && (id in keys || id in active) :: old(sessionLimiters)[id]
      {
        var id :| id in keys;
        if id !in activeSet {
          sessionLimiters := sessionLimiters - {id};
        }
        keys := keys - {id};
      }
    }
  }

  // ---------- what a bucket lets through ----------

  /** A bucket and the calls it has let through so far. */
  datatype Served = Served(bucket: Bucket, admitted: seq<real>)

  /** A new bucket asked at these times. */
  function Serve(lim: Limit, start: real, times: seq<real>): Served {
    if times == [] then Served(NewBucket(lim, start), [])
    else
      var before, now := Serve(lim, start, times[..|times| - 1]), times[|times| - 1];
      Served(AfterAllow(lim, before.bucket, now),
        if Allows(lim, before.bucket, now) then before.admitted + [now] else before.admitted)
  }

  predicate InOrder(start: real, times: seq<real>) {
    (forall i | 0 <= i < |times| :: start <= times[i]) && (forall i, j | 0 <= i < j < |times| :: times[i] <= times[j])
  }

  /** `need` more calls now would keep every window that begins with an admitted call within its bound. */
  predicate RoomFor(lim: Limit, admitted: seq<real>, now: real, need: real) {
    forall i | 0 <= i < |admitted| :: (|admitted| - i) as real + need <= lim.Most(admitted[i], now)
  }

  lemma RoomAppend(lim: Limit, admitted: seq<real>, t: real, now: real, need: real)
    ensures RoomFor(lim, admitted + [t], now, need) <==>
      RoomFor(lim, admitted, t, need + 1.0 - lim.rate * (now - t)) && need + 1.0 <= lim.Most(t, now)
  {
    var longer, n := admitted + [t], |admitted|;
    forall i | 0 <= i < n ensures longer[i] == admitted[i]
      && lim.Most(admitted[i], now) == lim.Most(admitted[i], t) + lim.rate * (now - t)
    {
    }
    assert longer[n] == t;
  }

  /** The level of a bucket is what its windows leave. */
  lemma {:induction false} LevelIsRoom(lim: Limit, start: real, times: seq<real>, now: real, need: real)
    requires lim.Valid() && InOrder(start, times) && start <= now && (forall i | 0 <= i < |times| :: times[i] <= now)
    requires need <= lim.burst as real
    ensures var served := Serve(lim, start, times);
      && served.bucket.last <= now
      && (Level(lim, served.bucket, now) >= need <==> RoomFor(lim, served.admitted, now, need))
  {
    if times == [] {
      SupplyGrows(lim, start, now);
    } else {
      var before, t := times[..|times| - 1], times[|times| - 1];
      var b := Serve(lim, start, before);
      if Allows(lim, b.bucket, t) {
        var more := need + 1.0 - lim.rate * (now - t);
        SupplyGrows(lim, t, now);
        RoomAppend(lim, b.admitted, t, now, need);
        LevelIsRoom(lim, start, before, t, if more <= lim.burst as real then more else lim.burst as real);
      } else {
        LevelIsRoom(lim, start, before, now, need);
      }
    }
  }

  /** A call is let through exactly when, counting it, every window since an admitted call still holds at
      most burst plus rate times window admitted calls: the bucket refuses nothing it need not refuse. */
  lemma AllowedIffWindowsPermit(lim: Limit, start: real, times: seq<real>, now: real)
    requires lim.Valid() && InOrder(start, times + [now])
    ensures var served := Serve(lim, start, times);
      Allows(lim, served.bucket, now) <==> lim.burst >= 1 && RoomFor(lim, served.admitted, now, 1.0)
  {
    assert (times + [now])[|times|] == now;
    assert forall i | 0 <= i < |times| :: (times + [now])[i] == times[i];
    if lim.burst >= 1 {
      LevelIsRoom(lim, start, times, now, 1.0);
    }
  }

  // ---------- the admission bound ----------

  /** A call asks the global limiter at `at`, and the session's, if it comes to that, at `later`. */
  datatype Event = Call(id: string, at: real, later: real) | Cleanup(active: seq<string>)

  /** One call follows the other, from `from` to `until`. */
  predicate Timed(events: seq<Event>, from: real, until: real) {
    from <= until &&
    (events != [] ==>
      match events[0]
      case Call(_, at, later) => from <= at <= later && Timed(events[1..], later, until)
      case Cleanup(_) => Timed(events[1..], from, until))
  }

  /** The calls forwarded to handlers, in order. */
  function Forwarded(cfg: Config, s: State, events: seq<Event>): seq<Event>
    decreases |events|
  {
    if events == [] then []
    else
      match events[0]
      case Call(id, at, later) =>
        (if Forwards(cfg, s, id, at, later) then [events[0]] else [])
        + Forwarded(cfg, AfterCall(cfg, s, id, at, later), events[1..])
      case Cleanup(active) => Forwarded(cfg, AfterCleanup(s, active), events[1..])
  }

  function CountOf(events: seq<Event>, id: string): nat {
    if events == [] then 0
    else (if events[0].Call? && events[0].id == id then 1 else 0) + CountOf(events[1..], id)
  }

  /** What a bucket may still let through until `until`, judged at `now`. */
  function Allowance(lim: Limit, b: Bucket, now: real, until: real): real {
    Level(lim, b, now) + lim.Supply(until) - lim.Supply(now)
  }

  lemma SupplyGrows(lim: Limit, a: real, b: real)
    requires lim.Valid() && a <= b
    ensures lim.Supply(a) <= lim.Supply(b)
    ensures lim.Supply(b) - lim.Supply(a) == lim.rate * (b - a)
  {
  }

  /** Waiting never raises the allowance, and each admission costs one token. */
  lemma AllowanceFalls(lim: Limit, b: Bucket, now: real, at: real, until: real)
    requires lim.Valid() && b.last <= now <= at <= until
    ensures Allowance(lim, b, at, until) <= Allowance(lim, b, now, until)
    ensures Allows(lim, b, at) ==>
      Allowance(lim, AfterAllow(lim, b, at), at, until) == Allowance(lim, b, at, until) - 1.0
    ensures Level(lim, b, now) <= lim.burst as real
  {
    SupplyGrows(lim, b.last, now);
    SupplyGrows(lim, now, at);
  }

  lemma AllowanceCapped(lim: Limit, b: Bucket, now: real, until: real)
    requires lim.Valid() && now <= until
    ensures Allowance(lim, b, now, until) <= lim.Most(now, until)
  {
    SupplyGrows(lim, now, until);
  }

  lemma AllowanceLeast(lim: Limit, b: Bucket, now: real, until: real)
    requires lim.Valid() && b.last <= now <= until && b.tokens >= 0.0
    ensures Allowance(lim, b, now, until) >= lim.Supply(until) - lim.Supply(now) >= 0.0
  {
    SupplyGrows(lim, b.last, now);
    SupplyGrows(lim, now, until);
  }

  lemma {:induction false} GlobalAllowance(cfg: Config, s: State, events: seq<Event>, now: real, until: real)
    requires cfg.Valid() && s.global.last <= now && s.global.tokens >= 0.0 && Timed(events, now, until)
    ensures |Forwarded(cfg, s, events)| as real <= Allowance(cfg.global, s.global, now, until)
    decreases |events|
  {
    if events == [] {
      AllowanceLeast(cfg.global, s.global, now, until);
    } else if events[0].Call? {
      var id, at, later := events[0].id, events[0].at, events[0].later;
      var after := AfterCall(cfg, s, id, at, later);
      TimedEnds(events[1..], later, until);
      AllowanceFalls(cfg.global, s.global, now, at, until);
      AllowanceFalls(cfg.global, after.global, at, later, until);
      GlobalAllowance(cfg, after, events[1..], later, until);
    } else {
      GlobalAllowance(cfg, AfterCleanup(s, events[0].active), events[1..], now, until);
    }
  }

  lemma TimedEnds(events: seq<Event>, from: real, until: real)
    requires Timed(events, from, until)
    ensures from <= until
  {
  }

  // ---------- windows of a run ----------

  predicate ReadyBucket(b: Bucket, now: real) {
    b.last <= now && b.tokens >= 0.0
  }

  predicate Ready(s: State, now: real) {
    ReadyBucket(s.global, now) && forall id | id in s.sessions :: ReadyBucket(s.sessions[id], now)
  }

  function AfterEvents(cfg: Config, s: State, events: seq<Event>): State
    decreases |events|
  {
    if events == [] then s
    else
      match events[0]
      case Call(id, at, later) => AfterEvents(cfg, AfterCall(cfg, s, id, at, later), events[1..])
      case Cleanup(active) => AfterEvents(cfg, AfterCleanup(s, active), events[1..])
  }

  function Initial(cfg: Config, now: real): State {
    State(NewBucket(cfg.global, now), map[])
  }

  lemma ReadyLater(s: State, now: real, at: real)
    requires Ready(s, now) && now <= at
    ensures Ready(s, at)
  {
    forall id | id in s.sessions ensures ReadyBucket(s.sessions[id], at) {
      assert ReadyBucket(s.sessions[id], now);
    }
  }

  lemma {:induction false} StaysReady(cfg: Config, s: State, events: seq<Event>, now: real, until: real)
    requires cfg.Valid() && Ready(s, now) && Timed(events, now, until)
    ensures Ready(AfterEvents(cfg, s, events), until)
    decreases |events|
  {
    if events == [] {
      ReadyLater(s, now, until);
    } else if events[0].Call? {
      var id, at, later := events[0].id, events[0].at, events[0].later;
      ReadyLater(s, now, later);
      StaysReady(cfg, AfterCall(cfg, s, id, at, later), events[1..], later, until);
    } else {
      StaysReady(cfg, AfterCleanup(s, events[0].active), events[1..], now, until);
    }
  }

  /** Any window of any run begins with buckets ready for it. */
  lemma WindowBegins(cfg: Config, start: real, past: seq<Event>, from: real, events: seq<Event>, until: real)
    requires cfg.Valid() && Timed(past, start, from) && Timed(events, from, until)
    ensures from <= until && Ready(AfterEvents(cfg, Initial(cfg, start), past), from)
  {
    StaysReady(cfg, Initial(cfg, start), past, start, from);
    TimedEnds(events, from, until);
  }

  /** In any window of any run, cleanups or not, at most the global burst plus rate times window is
      forwarded. */
  lemma GlobalAdmissionBound(cfg: Config, start: real, past: seq<Event>, from: real, events: seq<Event>, until: real)
    requires cfg.Valid() && Timed(past, start, from) && Timed(events, from, until)
    ensures |Forwarded(cfg, AfterEvents(cfg, Initial(cfg, start), past), events)| as real
      <= cfg.global.burst as real + cfg.global.rate * (until - from)
  {
    var s := AfterEvents(cfg, Initial(cfg, start), past);
    var most := cfg.global.Most(from, until);
    assert |Forwarded(cfg, s, events)| as real <= most by {
      WindowBegins(cfg, start, past, from, events, until);
      GlobalWindow(cfg, s, events, from, until);
    }
  }

  lemma GlobalWindow(cfg: Config, s: State, events: seq<Event>, from: real, until: real)
    requires cfg.Valid() && ReadyBucket(s.global, from) && from <= until && Timed(events, from, until)
    ensures |Forwarded(cfg, s, events)| as real <= cfg.global.Most(from, until)
  {
    GlobalAllowance(cfg, s, events, from, until);
    AllowanceCapped(cfg.global, s.global, from, until);
  }

  // ---------- one session, with cleanups in the window ----------

  /** How many cleanups in the window do not name the session, and so drop its limiter. */
  function Drops(events: seq<Event>, id: string): nat {
    if events == [] then 0
    else (if events[0].Cleanup? && id !in events[0].active then 1 else 0) + Drops(events[1..], id)
  }

  /** `k` full buckets. */
  function Bursts(lim: Limit, k: nat): real {
    if k == 0 then 0.0 else Bursts(lim, k - 1) + lim.burst as real
  }

  lemma {:induction false} BurstsAddUp(lim: Limit, k: nat)
    ensures Bursts(lim, k) == (k * lim.burst) as real
  {
    if k > 0 {
      BurstsAddUp(lim, k - 1);
      assert k * lim.burst == (k - 1) * lim.burst + lim.burst;
    }
  }

  predicate SessionReady(s: State, id: string, now: real) {
    id in s.sessions ==> ReadyBucket(s.sessions[id], now)
  }

  /** One call costs its session a token if it is forwarded, and never raises any allowance. */
  lemma SessionCall(cfg: Config, s: State, id: string, other: string, now: real, at: real, later: real, until: real)
    requires cfg.Valid() && id != "" && now <= at <= later <= until && SessionReady(s, id, now)
    ensures var after := AfterCall(cfg, s, other, at, later);
      && SessionReady(after, id, later)
      && Allowance(cfg.session, SessionBucket(cfg, after, id, later), later, until)
          + (if other == id && Forwards(cfg, s, other, at, later) then 1.0 else 0.0)
        <= Allowance(cfg.session, SessionBucket(cfg, s, id, now), now, until)
  {
    var b := SessionBucket(cfg, s, id, now);
    AllowanceFalls(cfg.session, b, now, later, until);
    SupplyGrows(cfg.session, now, later);
    assert AfterCall(cfg, s, other, at, later).sessions.Keys <= s.sessions.Keys + {other};
  }

  /** Dropping the session adds at most one burst to what it may still send. */
  lemma SessionCleanup(cfg: Config, s: State, active: seq<string>, id: string, now: real, until: real)
    requires cfg.Valid() && now <= until && SessionReady(s, id, now)
    ensures SessionReady(AfterCleanup(s, active), id, now)
    ensures Allowance(cfg.session, SessionBucket(cfg, AfterCleanup(s, active), id, now), now, until)
      <= Allowance(cfg.session, SessionBucket(cfg, s, id, now), now, until)
        + (if id in active then 0.0 else cfg.session.burst as real)
  {
    AllowanceLeast(cfg.session, SessionBucket(cfg, s, id, now), now, until);
    if id !in active {
      assert SessionBucket(cfg, AfterCleanup(s, active), id, now) == NewBucket(cfg.session, now);
      AllowanceCapped(cfg.session, NewBucket(cfg.session, now), now, until);
    }
  }

  lemma {:induction false} SessionAllowance(cfg: Config, s: State, events: seq<Event>, id: string, now: real,
                                            until: real)
    requires cfg.Valid() && id != "" && Timed(events, now, until) && SessionReady(s, id, now)
    ensures CountOf(Forwarded(cfg, s, events), id) as real
      <= Allowance(cfg.session, SessionBucket(cfg, s, id, now), now, until) + Bursts(cfg.session, Drops(events, id))
    decreases |events|
  {
    if events == [] {
      AllowanceLeast(cfg.session, SessionBucket(cfg, s, id, now), now, until);
    } else if events[0].Call? {
      var other, at, later := events[0].id, events[0].at, events[0].later;
      TimedEnds(events[1..], later, until);
      SessionCall(cfg, s, id, other, now, at, later, until);
      SessionAllowance(cfg, AfterCall(cfg, s, other, at, later), events[1..], id, later, until);
      CountFirst(events[0], Forwarded(cfg, AfterCall(cfg, s, other, at, later), events[1..]), id);
    } else {
      var after := AfterCleanup(s, events[0].active);
      TimedEnds(events[1..], now, until);
      SessionCleanup(cfg, s, events[0].active, id, now, until);
      SessionAllowance(cfg, after, events[1..], id, now, until);
    }
  }

  lemma CountFirst(e: Event, rest: seq<Event>, id: string)
    ensures CountOf([e] + rest, id) == (if e.Call? && e.id == id then 1 else 0) + CountOf(rest, id)
    ensures CountOf([] + rest, id) == CountOf(rest, id)
  {
    assert ([e] + rest)[1..] == rest;
    assert [] + rest == rest;
  }

  /** In any window of any run, the calls of one session that are forwarded number at most its rate times
      the window, plus its burst, plus one burst more for every cleanup in the window that drops it. */
  lemma SessionAdmissionBound(cfg: Config, start: real, past: seq<Event>, from: real, events: seq<Event>, until: real,
                              id: string)
    requires cfg.Valid() && id != "" && Timed(past, start, from) && Timed(events, from, until)
    ensures CountOf(Forwarded(cfg, AfterEvents(cfg, Initial(cfg, start), past), events), id) as real
      <= cfg.session.burst as real + cfg.session.rate * (until - from) + Bursts(cfg.session, Drops(events, id))
  {
    var s := AfterEvents(cfg, Initial(cfg, start), past);
    var count, most, more :=
      CountOf(Forwarded(cfg, s, events), id), cfg.session.Most(from, until), Bursts(cfg.session, Drops(events, id));
    assert count as real <= most + more by {
      WindowBegins(cfg, start, past, from, events, until);
      assert id in s.sessions ==> ReadyBucket(s.sessions[id], from);
      SessionWindow(cfg, s, events, id, from, until);
    }
    assert most == cfg.session.burst as real + cfg.session.rate * (until - from);
  }

  lemma SessionWindow(cfg: Config, s: State, events: seq<Event>, id: string, from: real, until: real)
    requires cfg.Valid() && id != "" && SessionReady(s, id, from) && from <= until && Timed(events, from, until)
    ensures CountOf(Forwarded(cfg, s, events), id) as real
      <= cfg.session.Most(from, until) + Bursts(cfg.session, Drops(events, id))
  {
    SessionAllowance(cfg, s, events, id, from, until);
    AllowanceCapped(cfg.session, SessionBucket(cfg, s, id, from), from, until);
  }

  /** At one moment: `left` calls, then `k` times a cleanup and `burst` calls. */
  function Rounds(id: string, burst: nat, left: nat, k: nat): seq<Event>
    decreases k, left
  {
    if left > 0 then [Call(id, 0.0, 0.0)] + Rounds(id, burst, left - 1, k)
    else if k > 0 then [Cleanup([])] + Rounds(id, burst, burst, k - 1)
    else []
  }

  lemma {:induction false} RoundsForwarded(cfg: Config, s: State, id: string, left: nat, k: nat)
    requires cfg.Valid() && cfg.session.burst >= 1 && id != "" && left <= cfg.session.burst
    requires s.global.last == 0.0
    requires (left + k * cfg.session.burst) as real <= s.global.tokens <= cfg.global.burst as real
    requires SessionBucket(cfg, s, id, 0.0) == Bucket(left as real, 0.0)
    ensures var events := Rounds(id, cfg.session.burst, left, k);
      && Timed(events, 0.0, 0.0) && Drops(events, id) == k
      && CountOf(Forwarded(cfg, s, events), id) == left + k * cfg.session.burst
    decreases k, left
  {
    var burst := cfg.session.burst;
    var events := Rounds(id, burst, left, k);
    if left > 0 {
      var rest := Rounds(id, burst, left - 1, k);
      assert events[1..] == rest;
      assert k * burst >= 0;
      var after := AfterCall(cfg, s, id, 0.0, 0.0);
      assert Forwards(cfg, s, id, 0.0, 0.0);
      RoundsForwarded(cfg, after, id, left - 1, k);
      CountFirst(events[0], Forwarded(cfg, after, rest), id);
    } else if k > 0 {
      var rest := Rounds(id, burst, burst, k - 1);
      assert events[1..] == rest;
      assert k * burst == burst + (k - 1) * burst;
      RoundsForwarded(cfg, AfterCleanup(s, []), id, burst, k - 1);
    }
  }

  /** The bound is reached at a single moment, for every number of drops the global burst has room for:
      each gives the session a full bucket again. */
  lemma CleanupRefills(cfg: Config, id: string, k: nat)
    requires cfg.Valid() && cfg.session.burst >= 1 && id != "" && cfg.global.burst >= (k + 1) * cfg.session.burst
    ensures var events := Rounds(id, cfg.session.burst, cfg.session.burst, k);
      && Timed(events, 0.0, 0.0) && Drops(events, id) == k
      && CountOf(Forwarded(cfg, Initial(cfg, 0.0), events), id) == (k + 1) * cfg.session.burst
      && ((k + 1) * cfg.session.burst) as real == cfg.session.Most(0.0, 0.0) + Bursts(cfg.session, k)
  {
    BurstsAddUp(cfg.session, k);
    assert (k + 1) * cfg.session.burst == cfg.session.burst + k * cfg.session.burst;
    RoundsForwarded(cfg, Initial(cfg, 0.0), id, cfg.session.burst, k);
  }
}
