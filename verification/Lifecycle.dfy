/**
 * container/lifecycle.go, container.start.go, container.stop.go and container.terminate.go: how
 * hooks are combined and run, and what Start, Stop and Terminate do to the container and its
 * `isRunning` flag when hooks and the daemon fail as they like.
 */
module Lifecycle {
  import opened Results

  /** A hook is known by a number; what it answers is up to the environment. */
  type Hook = nat

  /** The nine fields of LifecycleHooks, in order. */
  const FIELDS: seq<string> := [
    "PreCreates", "PostCreates", "PreStarts", "PostStarts", "PostReadies",
    "PreStops", "PostStops", "PreTerminates", "PostTerminates"]

  type LifecycleHooks = h: seq<seq<Hook>> | |h| == 9 witness [[], [], [], [], [], [], [], [], []]

  predicate IsPre(field: string)
  {
    "Pre" <= field
  }

  predicate IsPost(field: string)
  {
    "Post" <= field
  }

  /** Every field is run before an event or after it. */
  lemma PreOrPost(i: nat)
    requires i < 9
    ensures IsPost(FIELDS[i]) <==> !IsPre(FIELDS[i])
  {
    assert FIELDS[i][1] == 'r' || FIELDS[i][1] == 'o';
  }

  /** One field of several sets of hooks, in order. */
  function Gather(sets: seq<LifecycleHooks>, i: nat): seq<Hook>
    requires i < 9
  {
    if sets == [] then [] else Gather(sets[..|sets| - 1], i) + sets[|sets| - 1][i]
  }

  predicate Picked(field: string, pre: bool, post: bool)
  {
    (pre && IsPre(field)) || (post && IsPost(field))
  }

  /** Appends to the fields chosen by `pre` and `post`, for one set of hooks after the other. */
  method AppendFields(fields: seq<string>, hooks: LifecycleHooks, sets: seq<LifecycleHooks>, pre: bool, post: bool)
    returns (hooks': LifecycleHooks)
    requires |fields| == 9
    ensures forall i :: 0 <= i < 9 ==>
      hooks'[i] == hooks[i] + if Picked(fields[i], pre, post) then Gather(sets, i) else []
  {
    hooks' := hooks;
    for k := 0 to |sets|
      invariant forall i :: 0 <= i < 9 ==>
        hooks'[i] == hooks[i] + if Picked(fields[i], pre, post) then Gather(sets[..k], i) else []
    {
      ghost var before := hooks';
      assert sets[..k + 1][..k] == sets[..k];
      for j := 0 to 9
        invariant forall i :: 0 <= i < j ==>
          hooks'[i] == before[i] + if Picked(fields[i], pre, post) then sets[k][i] else []
        invariant forall i :: j <= i < 9 ==> hooks'[i] == before[i]
      {
        if Picked(fields[j], pre, post) {
          hooks' := hooks'[j := hooks'[j] + sets[k][j]];
        }
      }
    }
    assert sets[..|sets|] == sets;
  }

  method CombineFields(fields: seq<string>, defaults: seq<LifecycleHooks>, users: seq<LifecycleHooks>)
    returns (hooks: LifecycleHooks)
    requires |fields| == 9 && forall i :: 0 <= i < 9 ==> (IsPost(fields[i]) <==> !IsPre(fields[i]))
    ensures forall i :: 0 <= i < 9 && IsPre(fields[i]) ==> hooks[i] == Gather(defaults, i) + Gather(users, i)
    ensures forall i :: 0 <= i < 9 && IsPost(fields[i]) ==> hooks[i] == Gather(users, i) + Gather(defaults, i)
  {
    var none: LifecycleHooks := [[], [], [], [], [], [], [], [], []];
    var a := AppendFields(fields, none, defaults, true, false);
    var b := AppendFields(fields, a, users, true, true);
    hooks := AppendFields(fields, b, defaults, false, true);
  }

  /** Before an event the default hooks and then the user's, after it the other way round; the pull hooks last in PreCreates. */
  predicate IsCombination(hooks: LifecycleHooks, defaults: seq<LifecycleHooks>, users: seq<LifecycleHooks>, pull: seq<Hook>)
  {
    forall i :: 0 <= i < 9 ==>
      && (IsPre(FIELDS[i]) ==> hooks[i] == Gather(defaults, i) + Gather(users, i) + if i == 0 then pull else [])
      && (IsPost(FIELDS[i]) ==> hooks[i] == Gather(users, i) + Gather(defaults, i))
  }

  /**
   * combineContainerHooks: before an event the default hooks run first, after it the user's do;
   * the pull hooks come behind every other pre-create hook.
   */
  method CombineContainerHooks(defaults: seq<LifecycleHooks>, users: seq<LifecycleHooks>, pull: seq<Hook>)
    returns (hooks: LifecycleHooks)
    ensures IsCombination(hooks, defaults, users, pull)
  {
    forall i | 0 <= i < 9
      ensures IsPost(FIELDS[i]) <==> !IsPre(FIELDS[i])
    {
      PreOrPost(i);
    }
    hooks := CombineFields(FIELDS, defaults, users);
    assert IsPre(FIELDS[0]);
    hooks := hooks[0 := hooks[0] + pull];
  }

  // ---------- Phases and events ----------

  datatype Phase = PreStart | PostStart | PostReady | PreStop | PostStop | PreTerminate | PostTerminate

  /** The field of LifecycleHooks a phase runs. */
  function FieldOf(p: Phase): nat
  {
    match p
    case PreStart => 2
    case PostStart => 3
    case PostReady => 4
    case PreStop => 5
    case PostStop => 6
    case PreTerminate => 7
    case PostTerminate => 8
  }

  /** The name of the field a phase is for. */
  function NameOf(p: Phase): string
  {
    match p
    case PreStart => "PreStarts"
    case PostStart => "PostStarts"
    case PostReady => "PostReadies"
    case PreStop => "PreStops"
    case PostStop => "PostStops"
    case PreTerminate => "PreTerminates"
    case PostTerminate => "PostTerminates"
  }

  /** A phase runs the field with its name, and no other. */
  lemma PhaseRunsItsField(p: Phase, i: nat)
    requires i < 9
    ensures FIELDS[i] == NameOf(p) <==> i == FieldOf(p)
  {
    assert |FIELDS[0]| == 10 && |FIELDS[1]| == 11 && |FIELDS[2]| == 9 && |FIELDS[3]| == 10 && |FIELDS[4]| == 11;
    assert |FIELDS[5]| == 8 && |FIELDS[6]| == 9 && |FIELDS[7]| == 13 && |FIELDS[8]| == 14;
    assert FIELDS[0][3] == 'C' && FIELDS[3][4] == 'S' && FIELDS[1][4] == 'C' && FIELDS[4][4] == 'R';
    assert FIELDS[2][1] == 'r' && FIELDS[6][1] == 'o';
  }

  datatype Op = StartOp | StopOp | RemoveOp | VolumeOp(volume: string)

  datatype Event = Ran(phase: Phase, hook: Hook, ok: bool) | Daemon(op: Op, ok: bool)

  type Trace = seq<Event>

  datatype LifecycleError = HooksFailed(phase: Phase, trace: Trace) | DaemonFailed(op: Op, trace: Trace)

  /**
   * Hooks and daemon, as functions of what happened before; which hook is the readiness hook,
   * the only one that sets the flag; and isCleanupSafe.
   */
  datatype Environment = Environment(
    hook: (Trace, Hook) -> bool,
    daemon: (Trace, Op) -> bool,
    readiness: Hook -> bool,
    cleanupSafe: LifecycleError -> bool)

  datatype State = State(trace: Trace, isRunning: bool)

  // ---------- The operations as functions ----------

  /** Every hook runs, whether or not the ones before it failed. */
  function RunHooks(env: Environment, phase: Phase, hooks: seq<Hook>, s: State): State
  {
    if hooks == [] then s
    else
      var s' := RunHooks(env, phase, hooks[..|hooks| - 1], s);
      var hook := hooks[|hooks| - 1];
      var ok := env.hook(s'.trace, hook);
      State(s'.trace + [Ran(phase, hook, ok)], s'.isRunning || (ok && env.readiness(hook)))
  }

  /** Whether nothing failed from position `from` on. */
  predicate AllOk(trace: Trace, from: nat)
  {
    forall i :: from <= i < |trace| ==> trace[i].ok
  }

  datatype Outcome = Outcome(state: State, err: Option<LifecycleError>)

  function Call(env: Environment, op: Op, s: State): State
  {
    s.(trace := s.trace + [Daemon(op, env.daemon(s.trace, op))])
  }

  function Phased(env: Environment, groups: seq<LifecycleHooks>, phase: Phase, s: State): Outcome
  {
    var s' := RunHooks(env, phase, Gather(groups, FieldOf(phase)), s);
    Outcome(s', if AllOk(s'.trace, |s.trace|) then None else Some(HooksFailed(phase, s'.trace)))
  }

  function Called(env: Environment, op: Op, s: State): Outcome
  {
    var s' := Call(env, op, s);
    Outcome(s', if env.daemon(s.trace, op) then None else Some(DaemonFailed(op, s'.trace)))
  }

  function Started(env: Environment, groups: seq<LifecycleHooks>, s: State): Outcome
  {
    var a := Phased(env, groups, PreStart, s);
    if a.err.Some? then a else
    var b := Called(env, StartOp, a.state);
    if b.err.Some? then b else
    var c := Phased(env, groups, PostStart, b.state);
    if c.err.Some? then c else
    Phased(env, groups, PostReady, c.state.(isRunning := true))
  }

  function Stopped(env: Environment, groups: seq<LifecycleHooks>, s: State): Outcome
  {
    var a := Phased(env, groups, PreStop, s);
    if a.err.Some? then a else
    var b := Called(env, StopOp, a.state);
    if b.err.Some? then b else
    Phased(env, groups, PostStop, b.state.(isRunning := false))
  }

  /** All volumes are tried. */
  function RemoveVolumes(env: Environment, volumes: seq<string>, s: State): State
  {
    if volumes == [] then s
    else Call(env, VolumeOp(volumes[|volumes| - 1]), RemoveVolumes(env, volumes[..|volumes| - 1], s))
  }

  /** The removal itself, and what is run around and behind it. */
  function Removed(env: Environment, groups: seq<LifecycleHooks>, volumes: seq<string>, s: State): State
  {
    var a := Phased(env, groups, PreTerminate, s).state;
    var b := Call(env, RemoveOp, a);
    var c := Phased(env, groups, PostTerminate, b).state;
    RemoveVolumes(env, volumes, c.(isRunning := false))
  }

  /** Terminate fails with the error of Stop, or else if anything after Stop failed. */
  datatype Termination = StopFailed(err: LifecycleError) | RemovalFailed | Terminated

  function TerminatedWith(env: Environment, groups: seq<LifecycleHooks>, volumes: seq<string>, s: State): (State, Termination)
  {
    var stop := Stopped(env, groups, s);
    if stop.err.Some? && !env.cleanupSafe(stop.err.value) then (stop.state, StopFailed(stop.err.value))
    else
      var s' := Removed(env, groups, volumes, stop.state);
      (s', if AllOk(s'.trace, |stop.state.trace|) then Terminated else RemovalFailed)
  }

  // ---------- The operations as the code runs them ----------

  class Container {
    const env: Environment
    const lifecycleHooks: seq<LifecycleHooks>
    var isRunning: bool
    var trace: Trace

    constructor (env: Environment, lifecycleHooks: seq<LifecycleHooks>, running: bool)
      ensures this.env == env && this.lifecycleHooks == lifecycleHooks && Now() == State([], running)
    {
      this.env, this.lifecycleHooks, isRunning, trace := env, lifecycleHooks, running, [];
    }

    function Now(): State
      reads this
    {
      State(trace, isRunning)
    }

    /** applyContainerHooks: the errors of all hooks are joined. */
    method ApplyContainerHooks(phase: Phase, hooks: seq<Hook>) returns (errs: nat)
      modifies this
      ensures Now() == RunHooks(env, phase, hooks, old(Now()))
      ensures |old(trace)| <= |trace| && (errs == 0 <==> AllOk(trace, |old(trace)|))
    {
      errs := 0;
      for i := 0 to |hooks|
        invariant Now() == RunHooks(env, phase, hooks[..i], old(Now()))
        invariant |old(trace)| <= |trace| && (errs == 0 <==> AllOk(trace, |old(trace)|))
      {
        assert hooks[..i + 1][..i] == hooks[..i];
        var ok := env.hook(trace, hooks[i]);
        AllOkStep(trace, Ran(phase, hooks[i], ok), |old(trace)|);
        trace := trace + [Ran(phase, hooks[i], ok)];
        if ok && env.readiness(hooks[i]) {
          isRunning := true;
        }
        if !ok {
          errs := errs + 1;
        }
      }
      assert hooks[..|hooks|] == hooks;
    }

    /** applyLifecycleHooks for one phase: group after group, errors joined. */
    method ApplyLifecycleHooks(phase: Phase) returns (err: Option<LifecycleError>)
      modifies this
      ensures Outcome(Now(), err) == Phased(env, lifecycleHooks, phase, old(Now()))
    {
      var errs := 0;
      var field := FieldOf(phase);
      for i := 0 to |lifecycleHooks|
        invariant Now() == RunHooks(env, phase, Gather(lifecycleHooks[..i], field), old(Now()))
        invariant |old(trace)| <= |trace| && errs >= 0 && (errs == 0 <==> AllOk(trace, |old(trace)|))
      {
        assert lifecycleHooks[..i + 1][..i] == lifecycleHooks[..i];
        RunHooksAppend(env, phase, Gather(lifecycleHooks[..i], field), lifecycleHooks[i][field], old(Now()));
        ghost var before := Now();
        var n := ApplyContainerHooks(phase, lifecycleHooks[i][field]);
        RunHooksExtends(env, phase, lifecycleHooks[i][field], before);
        AllOkSplit(before.trace, trace, |old(trace)|);
        errs := errs + n;
      }
      assert lifecycleHooks[..|lifecycleHooks|] == lifecycleHooks;
      return if errs == 0 then None else Some(HooksFailed(phase, trace));
    }

    /** One call of the daemon. */
    method CallDaemon(op: Op) returns (err: Option<LifecycleError>)
      modifies this
      ensures Outcome(Now(), err) == Called(env, op, old(Now()))
    {
      var ok := env.daemon(trace, op);
      trace := trace + [Daemon(op, ok)];
      return if ok then None else Some(DaemonFailed(op, trace));
    }

    method Start() returns (err: Option<LifecycleError>)
      modifies this
      ensures Outcome(Now(), err) == Started(env, lifecycleHooks, old(Now()))
    {
      err := ApplyLifecycleHooks(PreStart);
      if err.Some? {
        return;
      }
      err := CallDaemon(StartOp);
      if err.Some? {
        return;
      }
      err := ApplyLifecycleHooks(PostStart);
      if err.Some? {
        return;
      }
      isRunning := true;
      err := ApplyLifecycleHooks(PostReady);
    }

    method Stop() returns (err: Option<LifecycleError>)
      modifies this
      ensures Outcome(Now(), err) == Stopped(env, lifecycleHooks, old(Now()))
    {
      err := ApplyLifecycleHooks(PreStop);
      if err.Some? {
        return;
      }
      err := CallDaemon(StopOp);
      if err.Some? {
        return;
      }
      isRunning := false;
      err := ApplyLifecycleHooks(PostStop);
    }

    /** TerminateOptions.Cleanup. */
    method Cleanup(volumes: seq<string>) returns (errs: nat)
      modifies this
      ensures Now() == RemoveVolumes(env, volumes, old(Now()))
      ensures |old(trace)| <= |trace| && (errs == 0 <==> AllOk(trace, |old(trace)|))
    {
      errs := 0;
      for i := 0 to |volumes|
        invariant Now() == RemoveVolumes(env, volumes[..i], old(Now()))
        invariant |old(trace)| <= |trace| && (errs == 0 <==> AllOk(trace, |old(trace)|))
      {
        assert volumes[..i + 1][..i] == volumes[..i];
        AllOkStep(trace, Daemon(VolumeOp(volumes[i]), env.daemon(trace, VolumeOp(volumes[i]))), |old(trace)|);
        var err := CallDaemon(VolumeOp(volumes[i]));
        if err.Some? {
          errs := errs + 1;
        }
      }
      assert volumes[..|volumes|] == volumes;
    }

    method Terminate(volumes: seq<string>) returns (r: Termination)
      modifies this
      ensures (Now(), r) == TerminatedWith(env, lifecycleHooks, volumes, old(Now()))
    {
      var err := Stop();
      if err.Some? && !env.cleanupSafe(err.value) {
        return StopFailed(err.value);
      }
      ghost var s0 := Now();
      var terminating := ApplyLifecycleHooks(PreTerminate);
      ghost var s1 := Now();
      var remove := CallDaemon(RemoveOp);
      ghost var s2 := Now();
      var terminated := ApplyLifecycleHooks(PostTerminate);
      ghost var s3 := Now();
      isRunning := false;
      var cleanup := Cleanup(volumes);
      RemovedOk(env, lifecycleHooks, volumes, s0);
      return if terminating.None? && remove.None? && terminated.None? && cleanup == 0 then Terminated else RemovalFailed;
    }
  }

  // ---------- Traces ----------

  lemma AllOkStep(a: Trace, e: Event, from: nat)
    requires from <= |a|
    ensures AllOk(a + [e], from) <==> AllOk(a, from) && e.ok
  {
    var b := a + [e];
    assert b[|a|] == e;
    assert forall i :: from <= i < |a| ==> b[i] == a[i];
  }

  lemma AllOkSplit(a: Trace, b: Trace, from: nat)
    requires a <= b && from <= |a|
    ensures AllOk(b, from) <==> AllOk(a, from) && AllOk(b, |a|)
  {
    assert forall i :: from <= i < |a| ==> a[i] == b[i];
  }

  lemma {:induction false} RunHooksAppend(env: Environment, phase: Phase, a: seq<Hook>, b: seq<Hook>, s: State)
    ensures RunHooks(env, phase, a + b, s) == RunHooks(env, phase, b, RunHooks(env, phase, a, s))
    decreases |b|
  {
    if b == [] {
      assert a + b == a;
    } else {
      assert (a + b)[..|a + b| - 1] == a + b[..|b| - 1];
      RunHooksAppend(env, phase, a, b[..|b| - 1], s);
    }
  }

  /** What an event tries, whatever came of it. */
  datatype Attempt = RunHook(phase: Phase, hook: Hook) | CallOp(op: Op)

  function Tried(e: Event): Attempt
  {
    match e
    case Ran(phase, hook, _) => RunHook(phase, hook)
    case Daemon(op, _) => CallOp(op)
  }

  /** `b` goes on from `a` with exactly the attempts of `plan`. */
  predicate Extends(a: Trace, b: Trace, plan: seq<Attempt>)
  {
    && a <= b && |b| == |a| + |plan|
    && forall i :: |a| <= i < |b| ==> Tried(b[i]) == plan[i - |a|]
  }

  lemma ExtendsTrans(a: Trace, b: Trace, c: Trace, p: seq<Attempt>, q: seq<Attempt>)
    requires Extends(a, b, p) && Extends(b, c, q)
    ensures Extends(a, c, p + q)
  {
    assert forall i :: |a| <= i < |b| ==> c[i] == b[i];
  }

  function HookPlan(phase: Phase, hooks: seq<Hook>): seq<Attempt>
  {
    seq(|hooks|, i requires 0 <= i < |hooks| => RunHook(phase, hooks[i]))
  }

  function PhasePlan(groups: seq<LifecycleHooks>, phase: Phase): seq<Attempt>
  {
    HookPlan(phase, Gather(groups, FieldOf(phase)))
  }

  function VolumePlan(volumes: seq<string>): seq<Attempt>
  {
    seq(|volumes|, i requires 0 <= i < |volumes| => CallOp(VolumeOp(volumes[i])))
  }

  /** Hooks run in order and all of them, whatever fails. */
  lemma {:induction false} RunHooksExtends(env: Environment, phase: Phase, hooks: seq<Hook>, s: State)
    ensures Extends(s.trace, RunHooks(env, phase, hooks, s).trace, HookPlan(phase, hooks))
    decreases |hooks|
  {
    if hooks != [] {
      var init := hooks[..|hooks| - 1];
      RunHooksExtends(env, phase, init, s);
      var last := RunHook(phase, hooks[|hooks| - 1]);
      ExtendsTrans(s.trace, RunHooks(env, phase, init, s).trace, RunHooks(env, phase, hooks, s).trace, HookPlan(phase, init), [last]);
      assert HookPlan(phase, init) + [last] == HookPlan(phase, hooks);
    }
  }

  lemma {:induction false} VolumesExtend(env: Environment, volumes: seq<string>, s: State)
    ensures Extends(s.trace, RemoveVolumes(env, volumes, s).trace, VolumePlan(volumes))
    ensures RemoveVolumes(env, volumes, s).isRunning == s.isRunning
    decreases |volumes|
  {
    if volumes != [] {
      var init := volumes[..|volumes| - 1];
      VolumesExtend(env, init, s);
      var last := CallOp(VolumeOp(volumes[|volumes| - 1]));
      ExtendsTrans(s.trace, RemoveVolumes(env, init, s).trace, RemoveVolumes(env, volumes, s).trace, VolumePlan(init), [last]);
      assert VolumePlan(init) + [last] == VolumePlan(volumes);
    }
  }

  /** A phase runs its hooks, and errs exactly if one of them failed. */
  lemma PhasedExtends(env: Environment, groups: seq<LifecycleHooks>, phase: Phase, s: State)
    ensures var r := Phased(env, groups, phase, s);
      Extends(s.trace, r.state.trace, PhasePlan(groups, phase)) && (r.err.None? <==> AllOk(r.state.trace, |s.trace|))
  {
    RunHooksExtends(env, phase, Gather(groups, FieldOf(phase)), s);
  }

  lemma CalledExtends(env: Environment, op: Op, s: State)
    ensures var r := Called(env, op, s);
      Extends(s.trace, r.state.trace, [CallOp(op)]) && (r.err.None? <==> AllOk(r.state.trace, |s.trace|))
  {
    var t := Called(env, op, s).state.trace;
    assert t[|s.trace|] == Daemon(op, env.daemon(s.trace, op));
  }

  /** Nothing failed after Stop exactly when none of the four parts failed. */
  lemma RemovedOk(env: Environment, groups: seq<LifecycleHooks>, volumes: seq<string>, s: State)
    ensures var a := Phased(env, groups, PreTerminate, s);
      var b := Called(env, RemoveOp, a.state);
      var c := Phased(env, groups, PostTerminate, b.state);
      var d := RemoveVolumes(env, volumes, c.state.(isRunning := false));
      && d == Removed(env, groups, volumes, s)
      && (AllOk(d.trace, |s.trace|) <==>
           a.err == None && b.err == None && c.err == None && AllOk(d.trace, |c.state.trace|))
  {
    var a := Phased(env, groups, PreTerminate, s).state;
    PhasedExtends(env, groups, PreTerminate, s);
    var b := Called(env, RemoveOp, a).state;
    CalledExtends(env, RemoveOp, a);
    var c := Phased(env, groups, PostTerminate, b).state;
    PhasedExtends(env, groups, PostTerminate, b);
    var d := RemoveVolumes(env, volumes, c.(isRunning := false));
    VolumesExtend(env, volumes, c.(isRunning := false));
    AllOkSplit(a.trace, b.trace, |s.trace|);
    AllOkSplit(b.trace, c.trace, |s.trace|);
    AllOkSplit(c.trace, d.trace, |s.trace|);
  }

  // ---------- What an operation attempts ----------

  /**
   * From position `from` on, `t` runs stage after stage, each in full, and ends with the first
   * stage in which something failed.
   */
  predicate Follows(t: Trace, from: nat, stages: seq<seq<Attempt>>, failed: bool)
    decreases |stages|
  {
    if stages == [] then
      from == |t| && !failed
    else
      var next := from + |stages[0]|;
      && next <= |t| && Extends(t[..from], t[..next], stages[0])
      && if AllOk(t[..next], from) then Follows(t, next, stages[1..], failed) else |t| == next && failed
  }

  /** One more stage behind a run that has not failed. */
  lemma {:induction false} FollowsStage(a: Trace, b: Trace, from: nat, stages: seq<seq<Attempt>>, stage: seq<Attempt>)
    requires Follows(a, from, stages, false) && Extends(a, b, stage)
    ensures Follows(b, from, stages + [stage], !AllOk(b, |a|))
    decreases |stages|
  {
    var all := stages + [stage];
    assert b[..|b|] == b && b[..|a|] == a;
    if stages == [] {
      assert all[1..] == [];
    } else {
      var next := from + |stages[0]|;
      assert a[..from] == b[..from] && a[..next] == b[..next];
      FollowsStage(a, b, next, stages[1..], stage);
      assert all[1..] == stages[1..] + [stage];
    }
  }

  /** Stages behind a failed one do not run. */
  lemma {:induction false} FollowsMore(t: Trace, from: nat, stages: seq<seq<Attempt>>, more: seq<seq<Attempt>>)
    requires Follows(t, from, stages, true)
    ensures Follows(t, from, stages + more, true)
    decreases |stages|
  {
    var all := stages + more;
    assert all[1..] == stages[1..] + more;
    if AllOk(t[..from + |stages[0]|], from) {
      FollowsMore(t, from + |stages[0]|, stages[1..], more);
    }
  }

  function StartPlan(groups: seq<LifecycleHooks>): seq<seq<Attempt>>
  {
    [PhasePlan(groups, PreStart), [CallOp(StartOp)], PhasePlan(groups, PostStart), PhasePlan(groups, PostReady)]
  }

  function StopPlan(groups: seq<LifecycleHooks>): seq<seq<Attempt>>
  {
    [PhasePlan(groups, PreStop), [CallOp(StopOp)], PhasePlan(groups, PostStop)]
  }

  /** A first stage, from a state where nothing has been tried yet. */
  lemma FollowsFirst(a: Trace, b: Trace, stage: seq<Attempt>)
    requires Extends(a, b, stage)
    ensures Follows(b, |a|, [stage], !AllOk(b, |a|))
  {
    FollowsStage(a, b, |a|, [], stage);
    assert [] + [stage] == [stage];
  }

  /** The next stage, which does not run if something failed before. */
  lemma FollowsNext(a: Trace, failed: bool, b: Trace, failed': bool, from: nat, stages: seq<seq<Attempt>>, stage: seq<Attempt>)
    requires Follows(a, from, stages, failed)
    requires Stage(a, failed, b, failed', stage)
    ensures Follows(b, from, stages + [stage], failed')
  {
    if failed {
      FollowsMore(a, from, stages, [stage]);
    } else {
      FollowsStage(a, b, from, stages, stage);
    }
  }

  /** A stage on top of what came before, or nothing more if that has failed. */
  predicate Stage(a: Trace, failed: bool, b: Trace, failed': bool, plan: seq<Attempt>)
  {
    if failed then b == a && failed' else Extends(a, b, plan) && (failed' <==> !AllOk(b, |a|))
  }

  lemma FollowsThree(s: Trace, a: Trace, fa: bool, b: Trace, fb: bool, c: Trace, fc: bool, p: seq<Attempt>, q: seq<Attempt>, r: seq<Attempt>)
    requires Stage(s, false, a, fa, p) && Stage(a, fa, b, fb, q) && Stage(b, fb, c, fc, r)
    ensures Follows(c, |s|, [p, q, r], fc)
  {
    FollowsFirst(s, a, p);
    FollowsNext(a, fa, b, fb, |s|, [p], q);
    assert [p] + [q] == [p, q];
    FollowsNext(b, fb, c, fc, |s|, [p, q], r);
    assert [p, q] + [r] == [p, q, r];
  }

  /** A phase behind some outcome, with the flag as it is by then. */
  function ThenPhase(env: Environment, groups: seq<LifecycleHooks>, phase: Phase, before: Outcome, running: bool): Outcome
  {
    if before.err.Some? then before else Phased(env, groups, phase, before.state.(isRunning := running))
  }

  function ThenCall(env: Environment, op: Op, before: Outcome): Outcome
  {
    if before.err.Some? then before else Called(env, op, before.state)
  }

  lemma PhaseIsStage(env: Environment, groups: seq<LifecycleHooks>, phase: Phase, before: Outcome, running: bool)
    ensures var r := ThenPhase(env, groups, phase, before, running);
      Stage(before.state.trace, before.err.Some?, r.state.trace, r.err.Some?, PhasePlan(groups, phase))
  {
    PhasedExtends(env, groups, phase, before.state.(isRunning := running));
  }

  lemma CallIsStage(env: Environment, op: Op, before: Outcome)
    ensures var r := ThenCall(env, op, before);
      Stage(before.state.trace, before.err.Some?, r.state.trace, r.err.Some?, [CallOp(op)])
  {
    CalledExtends(env, op, before.state);
  }

  /** Start and Stop are stages, one behind the other. */
  lemma StartInStages(env: Environment, groups: seq<LifecycleHooks>, s: State)
    ensures var a := ThenPhase(env, groups, PreStart, Outcome(s, None), s.isRunning);
      var b := ThenCall(env, StartOp, a);
      var c := ThenPhase(env, groups, PostStart, b, b.state.isRunning);
      Started(env, groups, s) == ThenPhase(env, groups, PostReady, c, true)
  {
  }

  lemma StopInStages(env: Environment, groups: seq<LifecycleHooks>, s: State)
    ensures var a := ThenPhase(env, groups, PreStop, Outcome(s, None), s.isRunning);
      Stopped(env, groups, s) == ThenPhase(env, groups, PostStop, ThenCall(env, StopOp, a), false)
  {
  }

  /**
   * Start runs the pre-start hooks, the daemon's start, the post-start hooks and the post-ready
   * hooks, each stage in full and none after a stage in which something failed; it errs exactly if
   * something did.
   */
  lemma StartFollowsPlan(env: Environment, groups: seq<LifecycleHooks>, s: State)
    ensures var r := Started(env, groups, s); Follows(r.state.trace, |s.trace|, StartPlan(groups), r.err.Some?)
  {
    StartInStages(env, groups, s);
    var a := ThenPhase(env, groups, PreStart, Outcome(s, None), s.isRunning);
    PhaseIsStage(env, groups, PreStart, Outcome(s, None), s.isRunning);
    var b := ThenCall(env, StartOp, a);
    CallIsStage(env, StartOp, a);
    var c := ThenPhase(env, groups, PostStart, b, b.state.isRunning);
    PhaseIsStage(env, groups, PostStart, b, b.state.isRunning);
    var d := ThenPhase(env, groups, PostReady, c, true);
    PhaseIsStage(env, groups, PostReady, c, true);
    var three := [PhasePlan(groups, PreStart), [CallOp(StartOp)], PhasePlan(groups, PostStart)];
    FollowsThree(s.trace, a.state.trace, a.err.Some?, b.state.trace, b.err.Some?, c.state.trace, c.err.Some?, three[0], three[1], three[2]);
    FollowsNext(c.state.trace, c.err.Some?, d.state.trace, d.err.Some?, |s.trace|, three, PhasePlan(groups, PostReady));
    assert three + [PhasePlan(groups, PostReady)] == StartPlan(groups);
  }

  /** Stop runs the pre-stop hooks, the daemon's stop and the post-stop hooks in the same way. */
  lemma StopFollowsPlan(env: Environment, groups: seq<LifecycleHooks>, s: State)
    ensures var r := Stopped(env, groups, s); Follows(r.state.trace, |s.trace|, StopPlan(groups), r.err.Some?)
  {
    StopInStages(env, groups, s);
    var a := ThenPhase(env, groups, PreStop, Outcome(s, None), s.isRunning);
    PhaseIsStage(env, groups, PreStop, Outcome(s, None), s.isRunning);
    var b := ThenCall(env, StopOp, a);
    CallIsStage(env, StopOp, a);
    var c := ThenPhase(env, groups, PostStop, b, false);
    PhaseIsStage(env, groups, PostStop, b, false);
    FollowsThree(s.trace, a.state.trace, a.err.Some?, b.state.trace, b.err.Some?, c.state.trace, c.err.Some?,
                 PhasePlan(groups, PreStop), [CallOp(StopOp)], PhasePlan(groups, PostStop));
  }

  /** In a run that follows its stages, whatever comes in stage `k` or later finds the stages before it done and fine. */
  lemma {:induction false} EarlierStagesAreFine(t: Trace, from: nat, stages: seq<seq<Attempt>>, failed: bool, i: nat)
    returns (k: nat, start: nat)
    requires Follows(t, from, stages, failed) && from <= i < |t|
    ensures k < |stages| && from <= start <= i < start + |stages[k]| <= |t|
    ensures Tried(t[i]) == stages[k][i - start]
    ensures forall j :: from <= j < start ==> t[j].ok
    ensures start == from + Length(stages[..k])
    decreases |stages|
  {
    var next := from + |stages[0]|;
    if i < next {
      k, start := 0, from;
      assert t[..next][i] == t[i];
    } else {
      k, start := EarlierStagesAreFine(t, next, stages[1..], failed, i);
      assert stages[1..][k] == stages[k + 1];
      assert stages[..k + 1] == [stages[0]] + stages[1..][..k];
      forall j | from <= j < next
        ensures t[j].ok
      {
        assert t[..next][j] == t[j];
      }
      k := k + 1;
    }
  }

  function Length(stages: seq<seq<Attempt>>): nat
  {
    if stages == [] then 0 else |stages[0]| + Length(stages[1..])
  }

  /** What an error is about is the last thing tried: a phase with a hook that failed, or a call that did. */
  predicate AboutLast(err: LifecycleError, t: Trace, from: nat)
  {
    && err.trace == t && |t| > from
    && match err
       case HooksFailed(phase, _) => t[|t| - 1].Ran? && t[|t| - 1].phase == phase && !AllOk(t, from)
       case DaemonFailed(op, _) => t[|t| - 1] == Daemon(op, false)
  }

  lemma PhaseErrsAboutLast(env: Environment, groups: seq<LifecycleHooks>, phase: Phase, s: State, from: nat)
    requires from <= |s.trace|
    ensures var r := Phased(env, groups, phase, s); s.trace <= r.state.trace && (r.err.Some? ==> AboutLast(r.err.value, r.state.trace, from))
  {
    var r := Phased(env, groups, phase, s);
    PhasedExtends(env, groups, phase, s);
    if r.err.Some? {
      var last := |r.state.trace| - 1;
      assert Tried(r.state.trace[last]) == PhasePlan(groups, phase)[last - |s.trace|];
      AllOkSplit(s.trace, r.state.trace, from);
    }
  }

  lemma CallErrsAboutLast(env: Environment, op: Op, s: State, from: nat)
    requires from <= |s.trace|
    ensures var r := Called(env, op, s); s.trace <= r.state.trace && (r.err.Some? ==> AboutLast(r.err.value, r.state.trace, from))
  {
  }

  /** The errors of Start and Stop name what failed last. */
  lemma ErrorsNameWhatFailed(env: Environment, groups: seq<LifecycleHooks>, s: State)
    ensures var r := Started(env, groups, s); r.err.Some? ==> AboutLast(r.err.value, r.state.trace, |s.trace|)
    ensures var r := Stopped(env, groups, s); r.err.Some? ==> AboutLast(r.err.value, r.state.trace, |s.trace|)
  {
    var from := |s.trace|;
    var a := Phased(env, groups, PreStart, s);
    PhaseErrsAboutLast(env, groups, PreStart, s, from);
    var b := Called(env, StartOp, a.state);
    CallErrsAboutLast(env, StartOp, a.state, from);
    var c := Phased(env, groups, PostStart, b.state);
    PhaseErrsAboutLast(env, groups, PostStart, b.state, from);
    PhaseErrsAboutLast(env, groups, PostReady, c.state.(isRunning := true), from);
    StopErrs(env, groups, s);
  }

  lemma StopErrs(env: Environment, groups: seq<LifecycleHooks>, s: State)
    ensures var r := Stopped(env, groups, s); r.err.Some? ==> AboutLast(r.err.value, r.state.trace, |s.trace|)
  {
    var from := |s.trace|;
    var a := Phased(env, groups, PreStop, s);
    PhaseErrsAboutLast(env, groups, PreStop, s, from);
    var b := Called(env, StopOp, a.state);
    CallErrsAboutLast(env, StopOp, a.state, from);
    PhaseErrsAboutLast(env, groups, PostStop, b.state.(isRunning := false), from);
  }

  /**
   * The daemon is asked to start the container once at most, behind all pre-start hooks, and only
   * if all of them succeeded; a post-ready hook runs only if everything up to the last post-start
   * hook succeeded.
   */
  lemma StartOrder(env: Environment, groups: seq<LifecycleHooks>, s: State, i: nat)
    requires |s.trace| <= i < |Started(env, groups, s).state.trace|
    ensures var t := Started(env, groups, s).state.trace;
      var daemon := |s.trace| + |PhasePlan(groups, PreStart)|;
      var ready := daemon + 1 + |PhasePlan(groups, PostStart)|;
      && (t[i].Daemon? ==> t[i].op == StartOp && i == daemon && forall j :: |s.trace| <= j < i ==> t[j].ok)
      && (t[i].Ran? && t[i].phase == PostReady ==> ready <= i && forall j :: |s.trace| <= j < ready ==> t[j].ok)
  {
    var r := Started(env, groups, s);
    StartFollowsPlan(env, groups, s);
    var plan := StartPlan(groups);
    var k, start := EarlierStagesAreFine(r.state.trace, |s.trace|, plan, r.err.Some?, i);
    PlanLengths(plan);
  }

  lemma {:induction false} LengthSnoc(stages: seq<seq<Attempt>>, stage: seq<Attempt>)
    ensures Length(stages + [stage]) == Length(stages) + |stage|
  {
    if stages == [] {
      assert Length([stage][1..]) == 0;
      assert stages + [stage] == [stage];
    } else {
      LengthSnoc(stages[1..], stage);
      assert (stages + [stage])[1..] == stages[1..] + [stage];
    }
  }

  lemma PlanLengths(plan: seq<seq<Attempt>>)
    requires |plan| == 4
    ensures Length(plan[..0]) == 0 && Length(plan[..1]) == |plan[0]|
    ensures Length(plan[..2]) == |plan[0]| + |plan[1]| && Length(plan[..3]) == |plan[0]| + |plan[1]| + |plan[2]|
  {
    forall k | 0 <= k < 3
      ensures Length(plan[..k + 1]) == Length(plan[..k]) + |plan[k]|
    {
      LengthSnoc(plan[..k], plan[k]);
      assert plan[..k + 1] == plan[..k] + [plan[k]];
    }
    assert Length(plan[..0 + 1]) == |plan[0]|;
    assert Length(plan[..1 + 1]) == |plan[0]| + |plan[1]|;
  }

  // ---------- Terminate ----------

  function TerminatePlan(groups: seq<LifecycleHooks>, volumes: seq<string>): seq<Attempt>
  {
    PhasePlan(groups, PreTerminate) + [CallOp(RemoveOp)] + PhasePlan(groups, PostTerminate) + VolumePlan(volumes)
  }

  /** Behind Stop everything is tried, whatever fails, and the container does not count as running. */
  lemma RemovedExtends(env: Environment, groups: seq<LifecycleHooks>, volumes: seq<string>, s: State)
    ensures var s' := Removed(env, groups, volumes, s);
      Extends(s.trace, s'.trace, TerminatePlan(groups, volumes)) && !s'.isRunning
  {
    var a := Phased(env, groups, PreTerminate, s).state;
    PhasedExtends(env, groups, PreTerminate, s);
    var b := Called(env, RemoveOp, a).state;
    CalledExtends(env, RemoveOp, a);
    var c := Phased(env, groups, PostTerminate, b).state;
    PhasedExtends(env, groups, PostTerminate, b);
    VolumesExtend(env, volumes, c.(isRunning := false));
    var d := RemoveVolumes(env, volumes, c.(isRunning := false));
    ExtendsTrans(s.trace, a.trace, b.trace, PhasePlan(groups, PreTerminate), [CallOp(RemoveOp)]);
    ExtendsTrans(s.trace, b.trace, c.trace, PhasePlan(groups, PreTerminate) + [CallOp(RemoveOp)], PhasePlan(groups, PostTerminate));
    ExtendsTrans(s.trace, c.trace, d.trace, PhasePlan(groups, PreTerminate) + [CallOp(RemoveOp)] + PhasePlan(groups, PostTerminate), VolumePlan(volumes));
  }

  predicate Attempts(t: Trace, from: nat, a: Attempt)
  {
    exists i :: from <= i < |t| && Tried(t[i]) == a
  }

  /** Stop does not ask for the removal, and never takes a run back. */
  lemma StopDoesNotRemove(env: Environment, groups: seq<LifecycleHooks>, s: State)
    ensures var t := Stopped(env, groups, s).state.trace; s.trace <= t && !Attempts(t, |s.trace|, CallOp(RemoveOp))
  {
    var a := Phased(env, groups, PreStop, s);
    PhasedExtends(env, groups, PreStop, s);
    var b := Called(env, StopOp, a.state);
    CalledExtends(env, StopOp, a.state);
    PhasedExtends(env, groups, PostStop, b.state.(isRunning := false));
    var r := Stopped(env, groups, s);
    StopFollowsPlan(env, groups, s);
    forall i | |s.trace| <= i < |r.state.trace|
      ensures Tried(r.state.trace[i]) != CallOp(RemoveOp)
    {
      var k, start := EarlierStagesAreFine(r.state.trace, |s.trace|, StopPlan(groups), r.err.Some?, i);
    }
  }

  /**
   * Terminate asks for the removal exactly if Stop succeeded or failed in a way that is safe for
   * cleanup.  Then the hooks around it and all volumes are tried too, whatever fails, the container
   * no longer counts as running, and Terminate errs exactly if any of that failed; otherwise it
   * ends with what Stop left and Stop's error.
   */
  lemma TerminateRemoves(env: Environment, groups: seq<LifecycleHooks>, volumes: seq<string>, s: State)
    ensures var stop := Stopped(env, groups, s);
      var (s', r) := TerminatedWith(env, groups, volumes, s);
      var goesOn := stop.err.None? || env.cleanupSafe(stop.err.value);
      && (Attempts(s'.trace, |s.trace|, CallOp(RemoveOp)) <==> goesOn)
      && (goesOn ==> Extends(stop.state.trace, s'.trace, TerminatePlan(groups, volumes)) && !s'.isRunning)
      && (goesOn ==> (r == Terminated <==> AllOk(s'.trace, |stop.state.trace|)))
      && (!goesOn ==> s' == stop.state && r == StopFailed(stop.err.value))
  {
    var stop := Stopped(env, groups, s);
    var (s', r) := TerminatedWith(env, groups, volumes, s);
    StopDoesNotRemove(env, groups, s);
    if stop.err.None? || env.cleanupSafe(stop.err.value) {
      RemovedExtends(env, groups, volumes, stop.state);
      var i := |stop.state.trace| + |PhasePlan(groups, PreTerminate)|;
      assert TerminatePlan(groups, volumes)[i - |stop.state.trace|] == CallOp(RemoveOp);
      assert Tried(s'.trace[i]) == CallOp(RemoveOp);
    }
  }

  // ---------- The flag, over all runs ----------

  /** Whether the daemon runs the container: what its successful answers say, last one first. */
  predicate Up(trace: Trace, initially: bool)
  {
    if trace == [] then initially
    else
      var e := trace[|trace| - 1];
      if e.Daemon? && e.ok && e.op == StartOp then true
      else if e.Daemon? && e.ok && (e.op == StopOp || e.op == RemoveOp) then false
      else Up(trace[..|trace| - 1], initially)
  }

  predicate NotAhead(s: State, initially: bool)
  {
    s.isRunning ==> Up(s.trace, initially)
  }

  /** Only hooks of PostStarts set the flag, as the readiness hook does. */
  predicate ReadinessInPostStarts(env: Environment, groups: seq<LifecycleHooks>)
  {
    forall k, i, h :: 0 <= k < |groups| && 0 <= i < 9 && i != 3 && h in groups[k][i] ==> !env.readiness(h)
  }

  lemma {:induction false} GatheredFrom(groups: seq<LifecycleHooks>, i: nat, h: Hook)
    requires i < 9 && h in Gather(groups, i)
    ensures exists k :: 0 <= k < |groups| && h in groups[k][i]
  {
    var last := |groups| - 1;
    if h in groups[last][i] {
    } else {
      GatheredFrom(groups[..last], i, h);
      var k :| 0 <= k < last && h in groups[..last][k][i];
      assert h in groups[k][i];
    }
  }

  /** Hooks leave the daemon alone; the flag they can set is right if the container runs. */
  lemma {:induction false} HooksNotAhead(env: Environment, phase: Phase, hooks: seq<Hook>, s: State, initially: bool)
    requires NotAhead(s, initially)
    requires (forall h :: h in hooks ==> !env.readiness(h)) || Up(s.trace, initially)
    ensures var s' := RunHooks(env, phase, hooks, s);
      NotAhead(s', initially) && (Up(s'.trace, initially) == Up(s.trace, initially))
    decreases |hooks|
  {
    if hooks != [] {
      var init := hooks[..|hooks| - 1];
      HooksNotAhead(env, phase, init, s, initially);
      var t, t' := RunHooks(env, phase, init, s).trace, RunHooks(env, phase, hooks, s).trace;
      assert t'[..|t'| - 1] == t;
    }
  }

  lemma PhaseNotAhead(env: Environment, groups: seq<LifecycleHooks>, phase: Phase, s: State, initially: bool)
    requires ReadinessInPostStarts(env, groups) && NotAhead(s, initially)
    requires phase != PostStart || Up(s.trace, initially)
    ensures var s' := Phased(env, groups, phase, s).state;
      NotAhead(s', initially) && (Up(s'.trace, initially) == Up(s.trace, initially))
  {
    var i := FieldOf(phase);
    forall h | h in Gather(groups, i)
      ensures phase != PostStart ==> !env.readiness(h)
    {
      GatheredFrom(groups, i, h);
    }
    HooksNotAhead(env, phase, Gather(groups, i), s, initially);
  }

  lemma CallUp(env: Environment, op: Op, s: State, initially: bool)
    ensures var up := Up(Call(env, op, s).trace, initially);
      up == if !env.daemon(s.trace, op) || op.VolumeOp? then Up(s.trace, initially) else op == StartOp
  {
    var t := Call(env, op, s).trace;
    assert t[..|t| - 1] == s.trace;
  }

  lemma StartNotAhead(env: Environment, groups: seq<LifecycleHooks>, s: State, initially: bool)
    requires ReadinessInPostStarts(env, groups) && NotAhead(s, initially)
    ensures NotAhead(Started(env, groups, s).state, initially)
  {
    var a := Phased(env, groups, PreStart, s);
    PhaseNotAhead(env, groups, PreStart, s, initially);
    if a.err.None? {
      var b := Called(env, StartOp, a.state);
      CallUp(env, StartOp, a.state, initially);
      if b.err.None? {
        var c := Phased(env, groups, PostStart, b.state);
        PhaseNotAhead(env, groups, PostStart, b.state, initially);
        if c.err.None? {
          PhaseNotAhead(env, groups, PostReady, c.state.(isRunning := true), initially);
        }
      }
    }
  }

  lemma StopNotAhead(env: Environment, groups: seq<LifecycleHooks>, s: State, initially: bool)
    requires ReadinessInPostStarts(env, groups) && NotAhead(s, initially)
    ensures NotAhead(Stopped(env, groups, s).state, initially)
  {
    var a := Phased(env, groups, PreStop, s);
    PhaseNotAhead(env, groups, PreStop, s, initially);
    if a.err.None? {
      var b := Called(env, StopOp, a.state);
      CallUp(env, StopOp, a.state, initially);
      if b.err.None? {
        PhaseNotAhead(env, groups, PostStop, b.state.(isRunning := false), initially);
      }
    }
  }

  datatype Command = DoStart | DoStop | DoTerminate(volumes: seq<string>)

  function RunCommand(env: Environment, groups: seq<LifecycleHooks>, c: Command, s: State): State
  {
    match c
    case DoStart => Started(env, groups, s).state
    case DoStop => Stopped(env, groups, s).state
    case DoTerminate(volumes) => TerminatedWith(env, groups, volumes, s).0
  }

  function RunCommands(env: Environment, groups: seq<LifecycleHooks>, commands: seq<Command>, s: State): State
  {
    if commands == [] then s
    else
      RunCommand(env, groups, commands[|commands| - 1], RunCommands(env, groups, commands[..|commands| - 1], s))
  }

  /**
   * Over every sequence of Start, Stop and Terminate, with hooks and a daemon that fail as they
   * like: a container that counts as running is one whose last successful start, stop or removal
   * was a start.  The flag a container begins with must be right.
   */
  lemma {:induction false} RunningMeansStarted(env: Environment, groups: seq<LifecycleHooks>, commands: seq<Command>, initially: bool)
    requires ReadinessInPostStarts(env, groups)
    ensures NotAhead(RunCommands(env, groups, commands, State([], initially)), initially)
    decreases |commands|
  {
    if commands != [] {
      var init := commands[..|commands| - 1];
      RunningMeansStarted(env, groups, init, initially);
      var s := RunCommands(env, groups, init, State([], initially));
      match commands[|commands| - 1]
      case DoStart => StartNotAhead(env, groups, s, initially);
      case DoStop => StopNotAhead(env, groups, s, initially);
      case DoTerminate(volumes) =>
        StopNotAhead(env, groups, s, initially);
        TerminateRemoves(env, groups, volumes, s);
    }
  }

  // ---------- When the flag lags behind ----------

  /** The daemon runs the container, but it does not count as running. */
  predicate Lag(s: State, initially: bool)
  {
    Up(s.trace, initially) && !s.isRunning
  }

  /** A hook that sets the flag has succeeded from position `from` on. */
  predicate Flagged(env: Environment, t: Trace, from: nat)
  {
    exists i :: from <= i < |t| && t[i].Ran? && t[i].ok && env.readiness(t[i].hook)
  }

  /** The daemon has carried out `op` from position `from` on. */
  predicate Did(t: Trace, from: nat, op: Op)
  {
    exists i :: from <= i < |t| && t[i] == Daemon(op, true)
  }

  datatype Effect = Lags | Keeps | Clears

  /**
   * What a command does to the flag's being behind, read off the daemon's answers, the hooks that
   * ran and the error: a start whose post-start hooks failed, none of them setting the flag, and a
   * termination that goes on although the daemon neither stopped nor removed the container.
   */
  function EffectOf(env: Environment, groups: seq<LifecycleHooks>, c: Command, s: State, initially: bool): Effect
  {
    var t, from := RunCommand(env, groups, c, s).trace, |s.trace|;
    match c
    case DoStart =>
      var err := Started(env, groups, s).err;
      if !Did(t, from, StartOp) then Keeps
      else if err.None? || !err.value.HooksFailed? || err.value.phase != PostStart || Flagged(env, t, from) then Clears
      else if Up(s.trace, initially) then Keeps else Lags
    case DoStop => if Did(t, from, StopOp) then Clears else Keeps
    case DoTerminate(_) =>
      if Did(t, from, StopOp) || Did(t, from, RemoveOp) then Clears
      else if Attempts(t, from, CallOp(RemoveOp)) && Up(s.trace, initially) then Lags else Keeps
  }

  lemma {:induction false} UpStays(a: Trace, b: Trace, initially: bool)
    requires a <= b
    requires forall i :: |a| <= i < |b| && b[i].Daemon? && b[i].ok ==> b[i].op.VolumeOp?
    ensures Up(b, initially) == Up(a, initially)
    decreases |b|
  {
    if |a| < |b| {
      UpStays(a, b[..|b| - 1], initially);
    } else {
      assert a == b;
    }
  }

  lemma FlaggedSplit(env: Environment, a: Trace, b: Trace, from: nat)
    requires a <= b && from <= |a|
    ensures Flagged(env, b, from) <==> Flagged(env, a, from) || Flagged(env, b, |a|)
  {
    if Flagged(env, a, from) {
      var i :| from <= i < |a| && a[i].Ran? && a[i].ok && env.readiness(a[i].hook);
      assert b[i] == a[i];
    }
    if Flagged(env, b, from) && !Flagged(env, b, |a|) {
      var i :| from <= i < |b| && b[i].Ran? && b[i].ok && env.readiness(b[i].hook);
      assert a[i] == b[i];
    }
  }

  lemma {:induction false} HooksFlag(env: Environment, phase: Phase, hooks: seq<Hook>, s: State)
    ensures var s' := RunHooks(env, phase, hooks, s);
      s.trace <= s'.trace && (s'.isRunning <==> s.isRunning || Flagged(env, s'.trace, |s.trace|))
    decreases |hooks|
  {
    if hooks != [] {
      HooksFlag(env, phase, hooks[..|hooks| - 1], s);
      var t := RunHooks(env, phase, hooks[..|hooks| - 1], s).trace;
      var t' := RunHooks(env, phase, hooks, s).trace;
      FlaggedSplit(env, t, t', |s.trace|);
      assert t'[|t|].Ran? && t'[|t|].hook == hooks[|hooks| - 1];
    }
  }

  /** A phase asks nothing of the daemon, and only PostStart sets the flag. */
  lemma PhaseEffect(env: Environment, groups: seq<LifecycleHooks>, phase: Phase, s: State, initially: bool)
    requires ReadinessInPostStarts(env, groups)
    ensures var s' := Phased(env, groups, phase, s).state;
      && s.trace <= s'.trace && Up(s'.trace, initially) == Up(s.trace, initially)
      && (forall i :: |s.trace| <= i < |s'.trace| ==> s'.trace[i].Ran?)
      && (s'.isRunning <==> s.isRunning || Flagged(env, s'.trace, |s.trace|))
      && (phase != PostStart ==> !Flagged(env, s'.trace, |s.trace|))
  {
    var s' := Phased(env, groups, phase, s).state;
    var hooks := Gather(groups, FieldOf(phase));
    HooksFlag(env, phase, hooks, s);
    RunHooksExtends(env, phase, hooks, s);
    forall i | |s.trace| <= i < |s'.trace|
      ensures Tried(s'.trace[i]) == RunHook(phase, hooks[i - |s.trace|]) && s'.trace[i].Ran?
    {
      assert HookPlan(phase, hooks)[i - |s.trace|] == RunHook(phase, hooks[i - |s.trace|]);
    }
    UpStays(s.trace, s'.trace, initially);
    if phase != PostStart && Flagged(env, s'.trace, |s.trace|) {
      var i :| |s.trace| <= i < |s'.trace| && s'.trace[i].Ran? && s'.trace[i].ok && env.readiness(s'.trace[i].hook);
      GatheredFrom(groups, FieldOf(phase), hooks[i - |s.trace|]);
    }
  }

  /** What the daemon did up to a phase, a phase leaves as it is. */
  lemma DidBefore(a: Trace, b: Trace, from: nat, op: Op)
    requires a <= b && from <= |a| && forall i :: |a| <= i < |b| ==> b[i] != Daemon(op, true)
    ensures Did(b, from, op) <==> Did(a, from, op)
  {
    if Did(a, from, op) {
      var i :| from <= i < |a| && a[i] == Daemon(op, true);
      assert b[i] == a[i];
    }
    if Did(b, from, op) {
      var i :| from <= i < |b| && b[i] == Daemon(op, true);
      assert a[i] == b[i];
    }
  }

  /** One call of the daemon, behind a phase that asks nothing of it. */
  lemma CallDid(env: Environment, op: Op, from: nat, s: State, op': Op)
    requires from <= |s.trace| && forall i :: from <= i < |s.trace| ==> s.trace[i] != Daemon(op', true)
    ensures Did(Call(env, op, s).trace, from, op') <==> op == op' && env.daemon(s.trace, op)
  {
    var t := Call(env, op, s).trace;
    assert t[|s.trace|] == Daemon(op, env.daemon(s.trace, op));
  }

  /** A start that does not get the container up. */
  lemma FailedStartEffect(env: Environment, groups: seq<LifecycleHooks>, s: State, initially: bool)
    requires ReadinessInPostStarts(env, groups)
    requires var a := Phased(env, groups, PreStart, s); a.err.Some? || Called(env, StartOp, a.state).err.Some?
    ensures EffectOf(env, groups, DoStart, s, initially) == Keeps
    ensures Lag(Started(env, groups, s).state, initially) <==> Lag(s, initially)
  {
    var a := Phased(env, groups, PreStart, s);
    PhaseEffect(env, groups, PreStart, s, initially);
    if a.err.None? {
      CallUp(env, StartOp, a.state, initially);
      CallDid(env, StartOp, |s.trace|, a.state, StartOp);
    }
  }

  /** One that does: up to the end of its post-start hooks. */
  lemma WentUp(env: Environment, groups: seq<LifecycleHooks>, s: State, initially: bool)
    requires ReadinessInPostStarts(env, groups)
    requires var a := Phased(env, groups, PreStart, s); a.err.None? && Called(env, StartOp, a.state).err.None?
    ensures var b := Called(env, StartOp, Phased(env, groups, PreStart, s).state).state;
      var c := Phased(env, groups, PostStart, b).state;
      && s.trace <= c.trace && Did(c.trace, |s.trace|, StartOp) && Up(c.trace, initially)
      && (c.isRunning <==> s.isRunning || Flagged(env, c.trace, |s.trace|))
  {
    var from := |s.trace|;
    var a := Phased(env, groups, PreStart, s).state;
    PhaseEffect(env, groups, PreStart, s, initially);
    var b := Called(env, StartOp, a).state;
    CallUp(env, StartOp, a, initially);
    CallDid(env, StartOp, from, a, StartOp);
    CallNotFlagged(env, StartOp, from, a);
    var c := Phased(env, groups, PostStart, b).state;
    PhaseEffect(env, groups, PostStart, b, initially);
    DidBefore(b.trace, c.trace, from, StartOp);
    FlaggedSplit(env, b.trace, c.trace, from);
  }

  lemma StartEffect(env: Environment, groups: seq<LifecycleHooks>, s: State, initially: bool)
    requires ReadinessInPostStarts(env, groups) && NotAhead(s, initially)
    ensures var e := EffectOf(env, groups, DoStart, s, initially);
      Lag(Started(env, groups, s).state, initially) <==> e == Lags || (e == Keeps && Lag(s, initially))
  {
    var a := Phased(env, groups, PreStart, s);
    var b := Called(env, StartOp, a.state);
    if a.err.Some? || b.err.Some? {
      FailedStartEffect(env, groups, s, initially);
    } else {
      WentUp(env, groups, s, initially);
      var c := Phased(env, groups, PostStart, b.state);
      if c.err.None? {
        StartedLate(env, groups, c.state, initially, |s.trace|);
      }
    }
  }

  lemma CallNotFlagged(env: Environment, op: Op, from: nat, s: State)
    requires from <= |s.trace| && !Flagged(env, s.trace, from)
    ensures !Flagged(env, Call(env, op, s).trace, from)
  {
    FlaggedSplit(env, s.trace, Call(env, op, s).trace, from);
  }

  /** The post-ready hooks, with the flag set. */
  lemma StartedLate(env: Environment, groups: seq<LifecycleHooks>, s: State, initially: bool, from: nat)
    requires ReadinessInPostStarts(env, groups) && from <= |s.trace| && Did(s.trace, from, StartOp)
    ensures var r := Phased(env, groups, PostReady, s.(isRunning := true));
      && r.state.isRunning && Did(r.state.trace, from, StartOp)
      && (r.err.Some? ==> r.err.value.HooksFailed? && r.err.value.phase == PostReady)
  {
    PhaseEffect(env, groups, PostReady, s.(isRunning := true), initially);
    DidBefore(s.trace, Phased(env, groups, PostReady, s.(isRunning := true)).state.trace, from, StartOp);
  }

  /** Stop: whether the daemon did it decides everything. */
  lemma StopEffect(env: Environment, groups: seq<LifecycleHooks>, s: State, initially: bool)
    requires ReadinessInPostStarts(env, groups)
    ensures var s' := Stopped(env, groups, s).state;
      && s.trace <= s'.trace
      && (Did(s'.trace, |s.trace|, StopOp) ==> !Up(s'.trace, initially) && !s'.isRunning)
      && (!Did(s'.trace, |s.trace|, StopOp) ==> Up(s'.trace, initially) == Up(s.trace, initially) && s'.isRunning == s.isRunning)
      && !Did(s'.trace, |s.trace|, RemoveOp)
  {
    var from := |s.trace|;
    var a := Phased(env, groups, PreStop, s);
    PhaseEffect(env, groups, PreStop, s, initially);
    if a.err.None? {
      var b := Called(env, StopOp, a.state);
      CallUp(env, StopOp, a.state, initially);
      CallDid(env, StopOp, from, a.state, StopOp);
      CallDid(env, StopOp, from, a.state, RemoveOp);
      if b.err.None? {
        var c := Phased(env, groups, PostStop, b.state.(isRunning := false));
        PhaseEffect(env, groups, PostStop, b.state.(isRunning := false), initially);
        DidBefore(b.state.trace, c.state.trace, from, StopOp);
        DidBefore(b.state.trace, c.state.trace, from, RemoveOp);
      }
    }
  }

  /** Behind Stop: whether the daemon removed the container decides whether it is still up. */
  lemma RemovedEffect(env: Environment, groups: seq<LifecycleHooks>, volumes: seq<string>, s: State, from: nat, initially: bool)
    requires ReadinessInPostStarts(env, groups) && from <= |s.trace| && !Did(s.trace, from, RemoveOp)
    ensures var s' := Removed(env, groups, volumes, s);
      && (Did(s'.trace, from, StopOp) <==> Did(s.trace, from, StopOp))
      && Up(s'.trace, initially) == (Up(s.trace, initially) && !Did(s'.trace, from, RemoveOp))
  {
    var a := Phased(env, groups, PreTerminate, s).state;
    PhaseEffect(env, groups, PreTerminate, s, initially);
    DidBefore(s.trace, a.trace, from, RemoveOp);
    DidBefore(s.trace, a.trace, from, StopOp);
    var b := Call(env, RemoveOp, a);
    CallUp(env, RemoveOp, a, initially);
    CallDid(env, RemoveOp, from, a, RemoveOp);
    DidBefore(a.trace, b.trace, from, StopOp);
    var c := Phased(env, groups, PostTerminate, b).state;
    PhaseEffect(env, groups, PostTerminate, b, initially);
    DidBefore(b.trace, c.trace, from, RemoveOp);
    DidBefore(b.trace, c.trace, from, StopOp);
    var d := RemoveVolumes(env, volumes, c.(isRunning := false));
    VolumesOnly(env, volumes, c.(isRunning := false));
    UpStays(c.trace, d.trace, initially);
    DidBefore(c.trace, d.trace, from, RemoveOp);
    DidBefore(c.trace, d.trace, from, StopOp);
  }

  lemma VolumesOnly(env: Environment, volumes: seq<string>, s: State)
    ensures var t := RemoveVolumes(env, volumes, s).trace;
      s.trace <= t && forall i :: |s.trace| <= i < |t| ==> t[i].Daemon? && t[i].op.VolumeOp?
  {
    VolumesExtend(env, volumes, s);
    var t := RemoveVolumes(env, volumes, s).trace;
    forall i | |s.trace| <= i < |t|
      ensures t[i].Daemon? && t[i].op.VolumeOp?
    {
      assert Tried(t[i]) == VolumePlan(volumes)[i - |s.trace|] == CallOp(VolumeOp(volumes[i - |s.trace|]));
    }
  }

  lemma TerminateEffect(env: Environment, groups: seq<LifecycleHooks>, volumes: seq<string>, s: State, initially: bool)
    requires ReadinessInPostStarts(env, groups) && NotAhead(s, initially)
    ensures var e := EffectOf(env, groups, DoTerminate(volumes), s, initially);
      Lag(TerminatedWith(env, groups, volumes, s).0, initially) <==> e == Lags || (e == Keeps && Lag(s, initially))
  {
    var stop := Stopped(env, groups, s);
    StopEffect(env, groups, s, initially);
    TerminateRemoves(env, groups, volumes, s);
    if stop.err.None? || env.cleanupSafe(stop.err.value) {
      RemovedEffect(env, groups, volumes, stop.state, |s.trace|, initially);
    }
  }

  lemma CommandEffect(env: Environment, groups: seq<LifecycleHooks>, c: Command, s: State, initially: bool)
    requires ReadinessInPostStarts(env, groups) && NotAhead(s, initially)
    ensures var e := EffectOf(env, groups, c, s, initially);
      Lag(RunCommand(env, groups, c, s), initially) <==> e == Lags || (e == Keeps && Lag(s, initially))
  {
    match c
    case DoStart => StartEffect(env, groups, s, initially);
    case DoStop => StopEffect(env, groups, s, initially);
    case DoTerminate(volumes) => TerminateEffect(env, groups, volumes, s, initially);
  }

  /** The effects of the commands of a run, one after the other. */
  function Effects(env: Environment, groups: seq<LifecycleHooks>, commands: seq<Command>, initially: bool): seq<Effect>
  {
    if commands == [] then []
    else
      var init := commands[..|commands| - 1];
      Effects(env, groups, init, initially) +
      [EffectOf(env, groups, commands[|commands| - 1], RunCommands(env, groups, init, State([], initially)), initially)]
  }

  /** Some command has left the flag behind, and none since has changed that. */
  predicate LeftBehind(effects: seq<Effect>)
  {
    exists i :: 0 <= i < |effects| && effects[i] == Lags && forall j :: i < j < |effects| ==> effects[j] == Keeps
  }

  lemma LeftBehindStep(effects: seq<Effect>, e: Effect)
    ensures LeftBehind(effects + [e]) <==> e == Lags || (e == Keeps && LeftBehind(effects))
  {
    var all := effects + [e];
    if e == Lags {
      assert all[|effects|] == Lags;
    } else if LeftBehind(effects) {
      var i :| 0 <= i < |effects| && effects[i] == Lags && forall j :: i < j < |effects| ==> effects[j] == Keeps;
      assert all[i] == Lags && all[|effects|] == e;
    }
    if LeftBehind(all) && e != Lags {
      var i :| 0 <= i < |all| && all[i] == Lags && forall j :: i < j < |all| ==> all[j] == Keeps;
      assert all[|effects|] == Keeps && effects[i] == Lags;
      assert forall j :: i < j < |effects| ==> effects[j] == all[j];
    }
  }

  /**
   * Over every sequence of commands: the container is up without counting as running exactly if
   * some command has left the flag behind and no later one has changed that.
   */
  lemma {:induction false} FlagLagsExactly(env: Environment, groups: seq<LifecycleHooks>, commands: seq<Command>, initially: bool)
    requires ReadinessInPostStarts(env, groups)
    ensures Lag(RunCommands(env, groups, commands, State([], initially)), initially)
       <==> LeftBehind(Effects(env, groups, commands, initially))
    decreases |commands|
  {
    if commands != [] {
      var last := |commands| - 1;
      FlagLagsExactly(env, groups, commands[..last], initially);
      RunningMeansStarted(env, groups, commands[..last], initially);
      var s := RunCommands(env, groups, commands[..last], State([], initially));
      LeftBehindStep(Effects(env, groups, commands[..last], initially), EffectOf(env, groups, commands[last], s, initially));
      CommandEffect(env, groups, commands[last], s, initially);
    }
  }

  /** The daemon does everything, and no hook succeeds, not even the readiness hook. */
  function NotReady(readiness: Hook): Environment
  {
    Environment((t, h) => false, (t, op) => true, h => h == readiness, e => false)
  }

  function OnlyPostStart(hook: Hook): LifecycleHooks
  {
    [[], [], [], [hook], [], [], [], [], []]
  }

  lemma GatherOne(hooks: LifecycleHooks, i: nat)
    requires i < 9
    ensures Gather([hooks], i) == hooks[i]
  {
    assert [hooks][..0] == [];
    assert Gather([], i) + hooks[i] == hooks[i];
  }

  lemma FailedPostStart(env: Environment, groups: seq<LifecycleHooks>, hook: Hook, s: State, up: State)
    requires Gather(groups, 2) == [] && Gather(groups, 3) == [hook]
    requires Called(env, StartOp, s) == Outcome(up, None) && !env.hook(up.trace, hook)
    ensures Started(env, groups, s).state == State(up.trace + [Ran(PostStart, hook, false)], up.isRunning)
  {
    assert [hook][..0] == [];
    var c := State(up.trace + [Ran(PostStart, hook, false)], up.isRunning);
    assert RunHooks(env, PostStart, [hook], up) == c;
    assert !c.trace[|up.trace|].ok;
  }

  lemma OnlyPostStartFlags(env: Environment, hook: Hook)
    ensures ReadinessInPostStarts(env, [OnlyPostStart(hook)])
  {
    forall i | 0 <= i < 9 && i != 3
      ensures OnlyPostStart(hook)[i] == []
    {
    }
  }

  lemma LagsAfter(s: State, hook: Hook)
    ensures Lag(State(s.trace + [Daemon(StartOp, true)] + [Ran(PostStart, hook, false)], false), false)
  {
    var up := s.trace + [Daemon(StartOp, true)];
    var t := up + [Ran(PostStart, hook, false)];
    assert t[..|up|] == up;
  }

  /** An input: the daemon starts the container, and the one hook, the readiness hook, fails behind that. */
  lemma StartLags(hook: Hook)
    ensures ReadinessInPostStarts(NotReady(hook), [OnlyPostStart(hook)])
    ensures Lag(RunCommands(NotReady(hook), [OnlyPostStart(hook)], [DoStart], State([], false)), false)
  {
    var env, group, s := NotReady(hook), OnlyPostStart(hook), State([], false);
    OnlyPostStartFlags(env, hook);
    GatherOne(group, 2);
    GatherOne(group, 3);
    FailedPostStart(env, [group], hook, s, State(s.trace + [Daemon(StartOp, true)], false));
    LagsAfter(s, hook);
    OneCommand(env, [group], DoStart, s);
  }

  lemma OneCommand(env: Environment, groups: seq<LifecycleHooks>, c: Command, s: State)
    ensures RunCommands(env, groups, [c], s) == RunCommand(env, groups, c, s)
  {
    assert [c][..0] == [];
  }

  /** A Start that errs only behind its post-start hooks, or not at all, leaves the container counted as running. */
  lemma StartedCounts(env: Environment, groups: seq<LifecycleHooks>, s: State)
    ensures var r := Started(env, groups, s);
      (r.err.None? || (r.err.value.HooksFailed? && r.err.value.phase == PostReady)) ==> r.state.isRunning
  {
    var b := Called(env, StartOp, Phased(env, groups, PreStart, s).state).state;
    var c := Phased(env, groups, PostStart, b).state;
    KeepsRunning(env, PostReady, Gather(groups, 4), c.(isRunning := true));
  }

  lemma {:induction false} KeepsRunning(env: Environment, phase: Phase, hooks: seq<Hook>, s: State)
    requires s.isRunning
    ensures RunHooks(env, phase, hooks, s).isRunning
    decreases |hooks|
  {
    if hooks != [] {
      KeepsRunning(env, phase, hooks[..|hooks| - 1], s);
    }
  }

  /**
   * The default hooks, of which only PostStarts may set the flag, combined with user hooks that do
   * not set it: in the combination, too, only PostStarts may.
   */
  lemma CombinedReadiness(env: Environment, defaults: seq<LifecycleHooks>, users: seq<LifecycleHooks>, pull: seq<Hook>, hooks: LifecycleHooks)
    requires ReadinessInPostStarts(env, defaults) && ReadinessInPostStarts(env, users)
    requires forall h :: h in pull ==> !env.readiness(h)
    requires IsCombination(hooks, defaults, users, pull)
    ensures ReadinessInPostStarts(env, [hooks])
  {
    forall i, h | 0 <= i < 9 && i != 3 && h in hooks[i]
      ensures !env.readiness(h)
    {
      PreOrPost(i);
      if h in Gather(defaults, i) {
        GatheredFrom(defaults, i, h);
      } else if h in Gather(users, i) {
        GatheredFrom(users, i, h);
      }
    }
  }
}
