/** Session starts, ends, client lookups and tool calls that overlap in time. Each touch of the client
    map or of the registry is one step. */
module RegistryRuns {
  import opened ToolRegistry

  /** Operations under way, at their next step; or a finished tool call and its outcome. */
  datatype Control =
    | StartLooks(id: string) | StartCreates(id: string) | StartRegisters(id: string)
    | EndUnregisters(id: string) | EndDeletes(id: string)
    | LookupLooks(id: string) | LookupCreates(id: string)
    | CallLooks(id: string) | CallChecksClient(id: string) | CallRegisters(id: string)
    | CallDone(id: string, proceeded: bool)
  {
    /** Its next step registers the session. */
    predicate Registers() {
      StartRegisters? || CallRegisters?
    }

    predicate IsBegin() {
      StartLooks? || EndUnregisters? || LookupLooks? || CallLooks?
    }
  }

  datatype System = System(now: Standing, ops: map<nat, Control>)

  /** `created` says whether building a client succeeds in that step. */
  datatype Action = Begin(t: nat, op: Control) | Advance(t: nat, created: bool)

  predicate Init(s: System) {
    s == System(Standing({}, {}, false, 0), map[])
  }

  function Goto(s: System, t: nat, c: Control): System {
    s.(ops := s.ops[t := c])
  }

  function Quit(s: System, t: nat): System {
    s.(ops := s.ops - {t})
  }

  function Register(s: System, id: string): System {
    s.(now := s.now.Register(id))
  }

  function Store(s: System, id: string): System {
    s.(now := s.now.(clients := s.now.clients + {id}))
  }

  function After(s: System, t: nat, created: bool): System
    requires t in s.ops
  {
    match s.ops[t]
    case StartLooks(id) => if id in s.now.clients then Quit(s, t) else Goto(s, t, StartCreates(id))
    case StartCreates(id) => if created then Store(Goto(s, t, StartRegisters(id)), id) else Quit(s, t)
    case StartRegisters(id) => Register(Quit(s, t), id)
    case EndUnregisters(id) => Goto(s, t, EndDeletes(id)).(now := s.now.(registered := s.now.registered - {id}))
    case EndDeletes(id) => Quit(s, t).(now := s.now.(clients := s.now.clients - {id}))
    case LookupLooks(id) => if id in s.now.clients then Quit(s, t) else Goto(s, t, LookupCreates(id))
    case LookupCreates(id) => if created then Store(Quit(s, t), id) else Quit(s, t)
    case CallLooks(id) => Goto(s, t, if id in s.now.registered then CallDone(id, true) else CallChecksClient(id))
    case CallChecksClient(id) => Goto(s, t, if id in s.now.clients then CallRegisters(id) else CallDone(id, false))
    case CallRegisters(id) => Register(Goto(s, t, CallDone(id, true)), id)
    case CallDone(_, _) => Quit(s, t)
  }

  predicate Next(s: System, a: Action, r: System) {
    match a
    case Begin(t, op) => t !in s.ops && op.IsBegin() && r == Goto(s, t, op)
    case Advance(t, created) => t in s.ops && r == After(s, t, created)
  }

  predicate Steps(run: seq<System>, actions: seq<Action>) {
    |run| == |actions| + 1 && forall i | 0 <= i < |actions| :: Next(run[i], actions[i], run[i + 1])
  }

  predicate IsRun(run: seq<System>, actions: seq<Action>) {
    Steps(run, actions) && Init(run[0])
  }

  // ---------- every run ----------

  predicate MountedOnce(s: System) {
    s.now.mounts == (if s.now.mounted then 1 else 0) && (s.now.registered != {} ==> s.now.mounted)
  }

  /** The tools are mounted at most once, however operations overlap, and stay mounted. */
  lemma {:induction false} ToolsMountedOnce(run: seq<System>, actions: seq<Action>, i: nat)
    requires IsRun(run, actions) && i < |run|
    ensures MountedOnce(run[i])
    ensures i > 0 && run[i - 1].now.mounted ==> run[i].now.mounted
  {
    if i > 0 {
      ToolsMountedOnce(run, actions, i - 1);
      assert Next(run[i - 1], actions[i - 1], run[i]);
    }
  }

  // ---------- clashes, and runs without them ----------

  /** The end `e` of a session is about to delete its client, while `t` has found or made that client and
      is about to register the session. */
  predicate Clashing(s: System, e: nat, t: nat) {
    && e in s.ops && t in s.ops && s.ops[e].EndDeletes? && s.ops[t].Registers()
    && s.ops[e].id == s.ops[t].id
  }

  predicate Clash(s: System, id: string) {
    exists e, t | e in s.ops && t in s.ops :: s.ops[e].id == id && Clashing(s, e, t)
  }

  predicate ClashFree(run: seq<System>, n: nat, id: string)
    requires n <= |run|
  {
    forall h | 0 <= h < n :: !Clash(run[h], id)
  }

  /** The session is not registered without a client. */
  predicate Consistent(s: System, id: string) {
    id in s.now.registered ==> id in s.now.clients
  }

  predicate ValidOp(s: System, c: Control) {
    match c
    case StartRegisters(id) => id in s.now.clients
    case CallRegisters(id) => id in s.now.clients
    case EndDeletes(id) => id !in s.now.registered
    case _ => true
  }

  predicate Inv(s: System, id: string) {
    Consistent(s, id) && forall t | t in s.ops && s.ops[t].id == id :: ValidOp(s, s.ops[t])
  }

  /** Whatever happens next, the session is still consistent. */
  lemma StepIsConsistent(s: System, a: Action, r: System, id: string)
    requires Inv(s, id) && Next(s, a, r)
    ensures Consistent(r, id)
  {
    assert a.t in s.ops && s.ops[a.t].id == id ==> ValidOp(s, s.ops[a.t]);
  }

  lemma Preserved(s: System, a: Action, r: System, id: string)
    requires Inv(s, id) && !Clash(s, id) && Next(s, a, r)
    ensures Inv(r, id)
  {
    StepIsConsistent(s, a, r, id);
    forall u | u in r.ops && r.ops[u].id == id ensures ValidOp(r, r.ops[u]) {
      assert u in s.ops && s.ops[u].id == id ==> ValidOp(s, s.ops[u]);
      assert a.t in s.ops && s.ops[a.t].id == id ==> ValidOp(s, s.ops[a.t]);
      assert !(s.ops.Keys >= {a.t, u} && s.ops[u].id == id && Clashing(s, a.t, u));
      assert !(s.ops.Keys >= {a.t, u} && s.ops[a.t].id == id && Clashing(s, u, a.t));
    }
  }

  /** As long as no state had a clash over the session, it has a client whenever it is registered, also
      between steps. Its ends may overlap its starts and calls in every other way, and other sessions may
      clash. */
  lemma {:induction false} RegisteredHaveClients(run: seq<System>, actions: seq<Action>, i: nat, id: string)
    requires IsRun(run, actions) && i < |run| && ClashFree(run, i, id)
    ensures Inv(run[i], id)
  {
    if i > 0 {
      RegisteredHaveClients(run, actions, i - 1, id);
      Preserved(run[i - 1], actions[i - 1], run[i], id);
    }
  }

  /** A call is let through by a step that finds its session with a client, and refused by one that does not. */
  lemma CallsFollowClients(run: seq<System>, actions: seq<Action>, i: nat, t: nat)
    requires IsRun(run, actions) && i < |actions|
    requires actions[i].Advance? && actions[i].t == t && t in run[i].ops && !run[i].ops[t].CallDone?
    requires t in run[i + 1].ops && run[i + 1].ops[t].CallDone? && ClashFree(run, i, run[i].ops[t].id)
    ensures run[i + 1].ops[t].id == run[i].ops[t].id
    ensures run[i + 1].ops[t].proceeded <==> run[i].ops[t].id in run[i].now.clients
  {
    RegisteredHaveClients(run, actions, i, run[i].ops[t].id);
    assert ValidOp(run[i], run[i].ops[t]);
  }

  /** Both orders in which the clashing operations can go on end with the session registered without a
      client. */
  lemma ClashBreaks(s: System, e: nat, t: nat, created: bool)
    requires Clashing(s, e, t)
    ensures t in After(s, e, created).ops && e in After(s, t, created).ops
    ensures forall r | r in {After(After(s, e, created), t, created), After(After(s, t, created), e, created)} ::
      s.ops[t].id in r.now.registered && s.ops[t].id !in r.now.clients
  {
  }

  /** Two steps lead from `s` to a state in which the session is registered without a client. */
  predicate TwoStepsBreak(s: System, a: Action, m: System, b: Action, r: System, id: string) {
    Next(s, a, m) && Next(m, b, r) && !Consistent(r, id)
  }

  ghost predicate CanBreak(s: System, id: string) {
    exists a, m, b, r :: TwoStepsBreak(s, a, m, b, r, id)
  }

  /** Clashes are exactly what can break consistency: in a run that has had none over the session, two steps
      can do so iff its last state has one. */
  lemma CanBreakIffClash(run: seq<System>, actions: seq<Action>, id: string)
    requires IsRun(run, actions) && ClashFree(run, |actions|, id)
    ensures CanBreak(run[|actions|], id) <==> Clash(run[|actions|], id)
  {
    var s := run[|actions|];
    RegisteredHaveClients(run, actions, |actions|, id);
    if Clash(s, id) {
      var e, t :| e in s.ops && t in s.ops && s.ops[e].id == id && Clashing(s, e, t);
      ClashBreaks(s, e, t, false);
      var m := After(s, e, false);
      assert TwoStepsBreak(s, Advance(e, false), m, Advance(t, false), After(m, t, false), id);
    } else {
      forall a, m, b, r | Next(s, a, m) && Next(m, b, r) ensures Consistent(r, id) {
        Preserved(s, a, m, id);
        StepIsConsistent(m, b, r, id);
      }
    }
  }

  // ---------- after a session ended ----------

  /** Neither client nor registration, and no operation about to register the session. */
  predicate Gone(s: System, id: string) {
    id !in s.now.clients && id !in s.now.registered &&
    forall t | t in s.ops && s.ops[t].id == id :: !s.ops[t].Registers()
  }

  /** The step creates a client for the session. */
  predicate Creates(s: System, a: Action, id: string) {
    && a.Advance? && a.created && a.t in s.ops
    && s.ops[a.t].id == id && (s.ops[a.t].StartCreates? || s.ops[a.t].LookupCreates?)
  }

  /** Without earlier clashes over the session, its end leaves it gone exactly when it does not clash with a
      registration. */
  lemma EndLeavesGone(run: seq<System>, actions: seq<Action>, i: nat)
    requires IsRun(run, actions) && i < |actions|
    requires actions[i].Advance? && actions[i].t in run[i].ops && run[i].ops[actions[i].t].EndDeletes?
    requires ClashFree(run, i, run[i].ops[actions[i].t].id)
    ensures var id := run[i].ops[actions[i].t].id; Gone(run[i + 1], id) <==> !Clash(run[i], id)
  {
    var s, r, e := run[i], run[i + 1], actions[i].t;
    var id := s.ops[e].id;
    RegisteredHaveClients(run, actions, i, id);
    assert ValidOp(s, s.ops[e]);
    if Clash(s, id) {
      var f, t :| f in s.ops && t in s.ops && s.ops[f].id == id && Clashing(s, f, t);
      assert t in r.ops && r.ops[t] == s.ops[t];
    } else {
      forall t | t in r.ops && r.ops[t].id == id ensures !r.ops[t].Registers() {
        assert !Clashing(s, e, t);
      }
    }
  }

  lemma GoneStep(s: System, a: Action, r: System, id: string)
    requires Gone(s, id) && Next(s, a, r) && !Creates(s, a, id)
    ensures Gone(r, id)
  {
  }

  lemma GoneRefuses(s: System, a: Action, r: System, id: string, t: nat)
    requires Gone(s, id) && Next(s, a, r) && t in r.ops && r.ops[t] == CallDone(id, true)
    ensures t in s.ops && s.ops[t] == r.ops[t]
  {
  }

  /** From then on no call of the session is let through until a client is created for it again: one that
      shows as let through was so before the session was gone. This holds after clashes, too. */
  lemma {:induction false} GoneStaysRefused(run: seq<System>, actions: seq<Action>, i: nat, j: nat, id: string)
    requires IsRun(run, actions) && i <= j < |run| && Gone(run[i], id)
    requires forall h | i <= h < j :: !Creates(run[h], actions[h], id)
    ensures Gone(run[j], id)
    ensures forall t | t in run[j].ops && run[j].ops[t] == CallDone(id, true) ::
      forall h | i <= h <= j :: t in run[h].ops && run[h].ops[t] == CallDone(id, true)
    decreases j
  {
    if j > i {
      GoneStaysRefused(run, actions, i, j - 1, id);
      GoneStep(run[j - 1], actions[j - 1], run[j], id);
      forall t | t in run[j].ops && run[j].ops[t] == CallDone(id, true)
        ensures forall h | i <= h <= j :: t in run[h].ops && run[h].ops[t] == CallDone(id, true)
      {
        GoneRefuses(run[j - 1], actions[j - 1], run[j], id, t);
      }
    }
  }

  // ---------- clashes do arise ----------

  /** Whenever an operation is about to register its session, an end of that session that overtakes it
      leaves the session registered without a client, and its next call is let through. */
  lemma OvertakenRegistration(run: seq<System>, actions: seq<Action>, t: nat, e: nat, c: nat)
    returns (more: seq<System>, next: seq<Action>)
    requires IsRun(run, actions)
    requires var ops := run[|actions|].ops;
      t in ops && ops[t].Registers() && e !in ops && c !in ops && e != c
    ensures IsRun(run + more, actions + next) && |next| > 0
    ensures var end, id := more[|next| - 1], run[|actions|].ops[t].id;
      id in end.now.registered && id !in end.now.clients && c in end.ops && end.ops[c] == CallDone(id, true)
  {
    var s := run[|actions|];
    var id := s.ops[t].id;
    var s1 := Goto(s, e, EndUnregisters(id));
    var s2 := After(s1, e, false);
    var s3 := After(s2, e, false);
    var s4 := After(s3, t, false);
    var s5 := Goto(s4, c, CallLooks(id));
    var s6 := After(s5, c, false);
    more := [s1, s2, s3, s4, s5, s6];
    next := [Begin(e, EndUnregisters(id)), Advance(e, false), Advance(e, false), Advance(t, false),
             Begin(c, CallLooks(id)), Advance(c, false)];
    assert Next(s, next[0], s1) && Next(s1, next[1], s2) && Next(s2, next[2], s3);
    assert Next(s3, next[3], s4) && Next(s4, next[4], s5) && Next(s5, next[5], s6);
  }

  /** And such runs exist, for every session: its start has stored the client and is yet to register it. */
  lemma RegistrationUnderWay(id: string) returns (run: seq<System>, actions: seq<Action>)
    ensures IsRun(run, actions)
    ensures run[|actions|].ops == map[0 := StartRegisters(id)]
  {
    var s0 := System(Standing({}, {}, false, 0), map[]);
    var s1 := Goto(s0, 0, StartLooks(id));
    var s2 := After(s1, 0, false);
    var s3 := After(s2, 0, true);
    run, actions := [s0, s1, s2, s3], [Begin(0, StartLooks(id)), Advance(0, false), Advance(0, true)];
    assert Next(s0, actions[0], s1) && Next(s1, actions[1], s2) && Next(s2, actions[2], s3);
  }

  // ---------- operations that nothing overlaps ----------

  /** A run from `s` to `end` in which only operation `t` moves. */
  predicate Solo(run: seq<System>, actions: seq<Action>, s: System, t: nat, end: System) {
    Steps(run, actions) && run[0] == s && run[|actions|] == end && forall a | a in actions :: a.t == t
  }

  /** What the contract of `NewSession` says it does. */
  lemma StartAlone(s: System, t: nat, id: string, created: bool) returns (run: seq<System>, actions: seq<Action>)
    requires t !in s.ops
    ensures Solo(run, actions, s, t, s.(now := s.now.Start(id, created)))
    ensures id !in s.now.clients && created ==>
      id in run[|actions|].now.clients && id in run[|actions|].now.registered && run[|actions|].now.mounted
  {
    var s1 := Goto(s, t, StartLooks(id));
    var s2 := After(s1, t, created);
    run, actions := [s, s1, s2], [Begin(t, StartLooks(id)), Advance(t, created)];
    assert Next(s, actions[0], s1) && Next(s1, actions[1], s2);
    assert s.ops[t := StartLooks(id)] - {t} == s.ops;
    if id !in s.now.clients {
      var s3 := After(s2, t, created);
      assert Next(s2, Advance(t, created), s3);
      run, actions := run + [s3], actions + [Advance(t, created)];
      assert s2.ops[t := StartRegisters(id)] - {t} == s.ops && s2.ops - {t} == s.ops;
      if created {
        var s4 := After(s3, t, created);
        assert Next(s3, Advance(t, created), s4);
        run, actions := run + [s4], actions + [Advance(t, created)];
      }
    }
  }

  /** What the contract of `EndSession` says it does. */
  lemma EndAlone(s: System, t: nat, id: string) returns (run: seq<System>, actions: seq<Action>)
    requires t !in s.ops
    ensures Solo(run, actions, s, t, s.(now := s.now.End(id)))
  {
    var s1 := Goto(s, t, EndUnregisters(id));
    var s2 := After(s1, t, false);
    var s3 := After(s2, t, false);
    run, actions := [s, s1, s2, s3], [Begin(t, EndUnregisters(id)), Advance(t, false), Advance(t, false)];
    assert Next(s, actions[0], s1) && Next(s1, actions[1], s2) && Next(s2, actions[2], s3);
    assert s3.ops == s.ops;
  }

  /** What the contract of `CheckAvailability` says it does and answers. */
  lemma CallAlone(s: System, t: nat, id: string) returns (run: seq<System>, actions: seq<Action>)
    requires t !in s.ops
    ensures Solo(run, actions, s, t, System(s.now.Call(id), s.ops[t := CallDone(id, s.now.Proceeds(id))]))
  {
    var s1 := Goto(s, t, CallLooks(id));
    var s2 := After(s1, t, false);
    run, actions := [s, s1, s2], [Begin(t, CallLooks(id)), Advance(t, false)];
    assert Next(s, actions[0], s1) && Next(s1, actions[1], s2);
    if id !in s.now.registered {
      var s3 := After(s2, t, false);
      assert Next(s2, Advance(t, false), s3);
      run, actions := run + [s3], actions + [Advance(t, false)];
      if id in s.now.clients {
        var s4 := After(s3, t, false);
        assert Next(s3, Advance(t, false), s4);
        run, actions := run + [s4], actions + [Advance(t, false)];
      }
    }
  }
}
