/**
 * container/wait/host_port.go: waiting for a port in four phases - detect the internal port, wait
 * for its mapping, dial it from outside, probe it from inside.  The target is an adversary whose
 * answers may depend on everything that happened before; `fuel` bounds the turns of the loops.
 */
module HostPort {
  import opened Results

  /** network.Port; 0 is the zero port. */
  type Port = nat

  datatype DialResult = Connected | Refused | OtherDialError

  datatype ExecResult = ExecError | Exit(code: int)

  /** What WaitUntilReady does, with the answer it gets. */
  datatype Event =
    | Inspect(found: Option<Port>)
    | State(ok: bool)
    | Mapped(asked: Port, answer: Port)
    | Host(ok: bool)
    | Dial(port: Port, dialed: DialResult)
    | Exec(port: Port, result: ExecResult)
    | ContextDone

  type Trace = seq<Event>

  /** The target, and whether the context has ended, as functions of what happened before. */
  datatype Oracle = Oracle(
    inspect: Trace -> Option<Port>,
    state: Trace -> bool,
    mapped: (Trace, Port) -> Port,
    host: Trace -> bool,
    dial: (Trace, Port) -> DialResult,
    exec: (Trace, Port) -> ExecResult,
    done: Trace -> bool)

  datatype HostPortStrategy = HostPortStrategy(port: Port, skipInternalCheck: bool, skipExternalCheck: bool)

  datatype Outcome =
    | Ready
    | DetectFailed
    | TargetDown
    | ContextEnded
    | HostFailed
    | DialFailed
    | ExecFailed
    | ShellNotExecutable
    | ShellNotFound
    | OutOfFuel

  const EXIT_EACCESS := 126
  const EXIT_CMD_NOT_FOUND := 127

  // ---------- A monitor for traces ----------

  /**
   * What has to be known about a trace to judge its next event: the phase (0 detect, 1 map,
   * 2 external, 3 internal), whether this phase has polled already, whether the event just before
   * was a successful liveness check, the internal port if known, the last mapped port, whether that
   * has been dialed, and whether the trace has ended.
   */
  datatype Monitor =
    | Bad
    | At(phase: nat, polled: bool, guarded: bool, internal: Port, mapped: Port, connected: bool, ended: bool)

  function Start(hp: HostPortStrategy): Monitor
  {
    At(0, false, false, hp.port, 0, false, false)
  }

  /** A probe that found the port open, or no shell to look with. */
  predicate Accepts(result: ExecResult)
  {
    result == Exit(0) || result == Exit(EXIT_EACCESS) || result == Exit(EXIT_CMD_NOT_FOUND)
  }

  /** An answer behind which nothing may come. */
  predicate Final(e: Event)
  {
    match e
    case State(ok) => !ok
    case ContextDone => true
    case Inspect(found) => found.None?
    case Host(ok) => !ok
    case Dial(_, dialed) => dialed == OtherDialError
    case Exec(_, result) => result == ExecError || Accepts(result)
    case Mapped(_, _) => false
  }

  /** Whether an event may come now. */
  predicate Allowed(hp: HostPortStrategy, m: Monitor, e: Event)
    requires m.At?
  {
    match e
    case State(_) => true
    case ContextDone => true
    case Inspect(_) => m.phase == 0 && m.internal == 0 && (m.polled ==> m.guarded)
    case Mapped(asked, _) =>
      asked != 0 && asked == m.internal && m.phase <= 1 && m.mapped == 0 && (m.phase == 1 && m.polled ==> m.guarded)
    case Host(_) => !hp.skipExternalCheck && m.phase == 1 && m.mapped != 0
    case Dial(port, _) => m.phase == 2 && m.guarded && port == m.mapped && !m.connected
    case Exec(port, _) =>
      !hp.skipInternalCheck && (hp.skipExternalCheck || m.connected) && m.mapped != 0 && m.guarded && port == m.internal
  }

  function Next(hp: HostPortStrategy, m: Monitor, e: Event): Monitor
  {
    if m.Bad? || m.ended || !Allowed(hp, m, e) then Bad
    else
      var m' := m.(guarded := e == State(true), ended := Final(e));
      match e
      case Inspect(found) => m'.(polled := true, internal := if found.Some? then found.value else 0)
      case Mapped(_, answer) => m'.(phase := 1, polled := true, mapped := answer)
      case Host(_) => m'.(phase := 2, polled := false)
      case Dial(_, dialed) => m'.(polled := true, connected := dialed == Connected)
      case Exec(_, _) => m'.(phase := 3, polled := true)
      case _ => m'
  }

  /** The monitor after a trace. */
  function Run(hp: HostPortStrategy, trace: Trace): Monitor
  {
    if trace == [] then Start(hp) else Next(hp, Run(hp, trace[..|trace| - 1]), trace[|trace| - 1])
  }

  /** How many liveness checks a trace holds. */
  function Checks(trace: Trace): nat
  {
    if trace == [] then 0 else Checks(trace[..|trace| - 1]) + if trace[|trace| - 1].State? then 1 else 0
  }

  /** The event that a failing outcome is about. */
  predicate Justified(r: Outcome, trace: Trace)
  {
    if r == OutOfFuel || r == Ready then true
    else
      trace != [] &&
      var e := trace[|trace| - 1];
      match r
      case DetectFailed => e == Inspect(None)
      case TargetDown => e == State(false)
      case ContextEnded => e == ContextDone
      case HostFailed => e == Host(false)
      case DialFailed => e.Dial? && e.dialed == OtherDialError
      case ExecFailed => e.Exec? && e.result == ExecError
      case ShellNotExecutable => e.Exec? && e.result == Exit(EXIT_EACCESS)
      case ShellNotFound => e.Exec? && e.result == Exit(EXIT_CMD_NOT_FOUND)
      case _ => true
  }

  /** The answer noted with an event is the target's, given everything before it. */
  predicate Truthful(o: Oracle, before: Trace, e: Event)
  {
    match e
    case Inspect(found) => found == o.inspect(before)
    case State(ok) => ok == o.state(before)
    case Mapped(asked, answer) => answer == o.mapped(before, asked)
    case Host(ok) => ok == o.host(before)
    case Dial(port, dialed) => dialed == o.dial(before, port)
    case Exec(port, result) => result == o.exec(before, port)
    case ContextDone => o.done(before)
  }

  /** The trace is one this target can give rise to. */
  predicate Answered(o: Oracle, trace: Trace)
  {
    trace != [] ==>
      Answered(o, trace[..|trace| - 1]) && Truthful(o, trace[..|trace| - 1], trace[|trace| - 1])
  }

  lemma Noted(hp: HostPortStrategy, o: Oracle, trace: Trace, e: Event)
    requires Answered(o, trace) && Truthful(o, trace, e)
    ensures Answered(o, trace + [e])
    ensures Run(hp, trace + [e]) == Next(hp, Run(hp, trace), e)
    ensures Checks(trace + [e]) == Checks(trace) + if e.State? then 1 else 0
  {
    assert (trace + [e])[..|trace|] == trace;
  }

  // ---------- The code ----------

  /** One liveness check, noted on the trace. */
  method CheckTarget(ghost hp: HostPortStrategy, o: Oracle, trace: Trace) returns (ok: bool, trace': Trace)
    requires Answered(o, trace) && Run(hp, trace).At? && !Run(hp, trace).ended
    ensures Answered(o, trace') && trace' == trace + [State(ok)] && Checks(trace') == Checks(trace) + 1
    ensures Run(hp, trace') == Run(hp, trace).(guarded := ok, ended := !ok)
  {
    ok := o.state(trace);
    trace' := trace + [State(ok)];
    Noted(hp, o, trace, State(ok));
  }

  /** WaitUntilReady. */
  method WaitUntilReady(hp: HostPortStrategy, o: Oracle, fuel: nat) returns (r: Outcome, trace: Trace)
    ensures Answered(o, trace) && Run(hp, trace) != Bad && Justified(r, trace)
    ensures r != ShellNotExecutable && r != ShellNotFound
    ensures r == Ready ==> Reached(hp, trace)
    ensures hp.port != 0 ==> r != DetectFailed
    ensures r == OutOfFuel ==> Checks(trace) == fuel
  {
    var internalPort, left := hp.port, fuel;
    trace := [];
    if internalPort == 0 {
      r, internalPort, trace, left := DetectInternalPort(hp, o, left);
      if r != Ready {
        return;
      }
    }

    var port;
    r, port, trace, left := AwaitMapping(hp, internalPort, o, trace, left);
    if r != Ready {
      return;
    }

    if !hp.skipExternalCheck {
      var hostOk := o.host(trace);
      Noted(hp, o, trace, Host(hostOk));
      trace := trace + [Host(hostOk)];
      if !hostOk {
        return HostFailed, trace;
      }
      r, trace, left := ExternalCheck(hp, port, o, trace, left);
      if r != Ready {
        return;
      }
    }

    if hp.skipInternalCheck {
      return Ready, trace;
    }
    r, trace := InternalCheck(hp, internalPort, o, trace, left);
    if r == ShellNotExecutable || r == ShellNotFound {
      r := Ready;
    }
  }

  /** What must have happened when nil is returned. */
  predicate Reached(hp: HostPortStrategy, trace: Trace)
  {
    var m := Run(hp, trace);
    && m.At? && m.mapped != 0
    && (hp.skipExternalCheck || m.connected)
    && (hp.skipInternalCheck || ProbeAccepted(trace))
  }

  /** The last event is a probe that found the port open, or no shell to look with. */
  predicate ProbeAccepted(trace: Trace)
  {
    trace != [] &&
    var e := trace[|trace| - 1];
    e.Exec? && Accepts(e.result)
  }

  /** The first phase, when no port is 0. */
  method DetectInternalPort(ghost hp: HostPortStrategy, o: Oracle, fuel: nat) returns (r: Outcome, internalPort: Port, trace: Trace, left: nat)
    requires hp.port == 0
    ensures Answered(o, trace) && Run(hp, trace) != Bad && Justified(r, trace)
    ensures r == Ready ==>
      internalPort == Run(hp, trace).internal != 0 && Run(hp, trace).phase == 0 &&
      !Run(hp, trace).ended && !Run(hp, trace).connected && Run(hp, trace).mapped == 0
    ensures r == Ready || r == OutOfFuel ==> Checks(trace) + left == fuel
    ensures r == OutOfFuel ==> left == 0
    ensures r == Ready || r == DetectFailed || r == TargetDown || r == ContextEnded || r == OutOfFuel
  {
    var found := o.inspect([]);
    trace, left, internalPort := [Inspect(found)], fuel, 0;
    Noted(hp, o, [], Inspect(found));
    if found.None? {
      return DetectFailed, 0, trace, left;
    }
    internalPort := found.value;
    while internalPort == 0
      invariant Answered(o, trace) && Run(hp, trace).At? && Run(hp, trace).phase == 0 && !Run(hp, trace).ended
      invariant Run(hp, trace).internal == internalPort && !Run(hp, trace).connected && Run(hp, trace).mapped == 0
      invariant Checks(trace) + left == fuel
      decreases left
    {
      if left == 0 {
        return OutOfFuel, 0, trace, 0;
      }
      left := left - 1;
      if o.done(trace) {
        Noted(hp, o, trace, ContextDone);
        trace := trace + [ContextDone];
        return ContextEnded, 0, trace, left;
      }
      var ok;
      ok, trace := CheckTarget(hp, o, trace);
      if !ok {
        return TargetDown, 0, trace, left;
      }
      found := o.inspect(trace);
      Noted(hp, o, trace, Inspect(found));
      trace := trace + [Inspect(found)];
      if found.None? {
        return DetectFailed, 0, trace, left;
      }
      internalPort := found.value;
    }
    r := Ready;
  }

  /** The second phase: ask until there is a mapping. */
  method AwaitMapping(ghost hp: HostPortStrategy, internalPort: Port, o: Oracle, start: Trace, fuel: nat)
    returns (r: Outcome, port: Port, trace: Trace, left: nat)
    requires Answered(o, start) && Run(hp, start).At? && Run(hp, start).phase == 0
    requires !Run(hp, start).ended && !Run(hp, start).connected && Run(hp, start).mapped == 0
    requires internalPort == Run(hp, start).internal != 0
    ensures Answered(o, trace) && Run(hp, trace) != Bad && Justified(r, trace)
    ensures r == Ready ==> port != 0 && Run(hp, trace).phase == 1 && Run(hp, trace).mapped == port
    ensures r == Ready ==> !Run(hp, trace).ended && !Run(hp, trace).connected
    ensures r == Ready ==> Run(hp, trace).internal == internalPort
    ensures r == Ready || r == OutOfFuel ==> Checks(trace) + left == Checks(start) + fuel
    ensures r == OutOfFuel ==> left == 0
    ensures r == Ready || r == TargetDown || r == ContextEnded || r == OutOfFuel
  {
    port, left := o.mapped(start, internalPort), fuel;
    trace := start + [Mapped(internalPort, port)];
    Noted(hp, o, start, Mapped(internalPort, port));
    while port == 0
      invariant Answered(o, trace) && Run(hp, trace).At? && Run(hp, trace).phase == 1 && Run(hp, trace).mapped == port
      invariant !Run(hp, trace).ended && !Run(hp, trace).connected
      invariant Run(hp, trace).internal == internalPort && Checks(trace) + left == Checks(start) + fuel
      decreases left
    {
      if left == 0 {
        return OutOfFuel, 0, trace, 0;
      }
      left := left - 1;
      if o.done(trace) {
        Noted(hp, o, trace, ContextDone);
        trace := trace + [ContextDone];
        return ContextEnded, 0, trace, left;
      }
      var ok;
      ok, trace := CheckTarget(hp, o, trace);
      if !ok {
        return TargetDown, 0, trace, left;
      }
      port := o.mapped(trace, internalPort);
      Noted(hp, o, trace, Mapped(internalPort, port));
      trace := trace + [Mapped(internalPort, port)];
    }
    r := Ready;
  }

  /** externalCheck: dial until connected, as long as the connection is refused. */
  method ExternalCheck(ghost hp: HostPortStrategy, port: Port, o: Oracle, start: Trace, fuel: nat) returns (r: Outcome, trace: Trace, left: nat)
    requires Answered(o, start) && Run(hp, start).At? && Run(hp, start).phase == 2 && !Run(hp, start).ended
    requires port == Run(hp, start).mapped != 0 && !Run(hp, start).connected
    ensures Answered(o, trace) && Run(hp, trace) != Bad && Justified(r, trace)
    ensures r == Ready ==> Run(hp, trace).phase == 2 && Run(hp, trace).mapped == port && Run(hp, trace).connected && !Run(hp, trace).ended
    ensures r == Ready ==> Run(hp, trace).internal == Run(hp, start).internal
    ensures r == Ready || r == OutOfFuel ==> Checks(trace) + left == Checks(start) + fuel
    ensures r == OutOfFuel ==> left == 0
    ensures r == Ready || r == TargetDown || r == DialFailed || r == OutOfFuel
  {
    trace, left := start, fuel;
    while left > 0
      invariant Answered(o, trace) && Run(hp, trace).At? && Run(hp, trace).phase == 2 && Run(hp, trace).mapped == port
      invariant !Run(hp, trace).connected && !Run(hp, trace).ended
      invariant Run(hp, trace).internal == Run(hp, start).internal
      invariant Checks(trace) + left == Checks(start) + fuel
      decreases left
    {
      left := left - 1;
      var ok;
      ok, trace := CheckTarget(hp, o, trace);
      if !ok {
        return TargetDown, trace, left;
      }
      var dialed := o.dial(trace, port);
      Noted(hp, o, trace, Dial(port, dialed));
      trace := trace + [Dial(port, dialed)];
      match dialed {
        case Refused =>
        case OtherDialError => return DialFailed, trace, left;
        case Connected => return Ready, trace, left;
      }
    }
    r := OutOfFuel;
  }

  /** One probe from inside the container, noted on the trace. */
  method Probe(ghost hp: HostPortStrategy, internalPort: Port, o: Oracle, trace: Trace) returns (result: ExecResult, trace': Trace)
    requires var m := Run(hp, trace);
      Answered(o, trace) && m.At? && !m.ended && m.guarded && m.mapped != 0 && m.internal == internalPort
    requires !hp.skipInternalCheck && (hp.skipExternalCheck || Run(hp, trace).connected)
    ensures Answered(o, trace') && trace' == trace + [Exec(internalPort, result)] && Checks(trace') == Checks(trace)
    ensures Run(hp, trace') ==
      Run(hp, trace).(phase := 3, polled := true, guarded := false, ended := Final(Exec(internalPort, result)))
  {
    result := o.exec(trace, internalPort);
    trace' := trace + [Exec(internalPort, result)];
    Noted(hp, o, trace, Exec(internalPort, result));
  }

  /** internalCheck: probe until the port is open or there is no shell to probe with. */
  method InternalCheck(ghost hp: HostPortStrategy, internalPort: Port, o: Oracle, start: Trace, fuel: nat) returns (r: Outcome, trace: Trace)
    requires var m := Run(hp, start);
      Answered(o, start) && m.At? && !m.ended && m.mapped != 0 && m.internal == internalPort
    requires !hp.skipInternalCheck && (hp.skipExternalCheck || Run(hp, start).connected)
    ensures Answered(o, trace) && Run(hp, trace) != Bad && Justified(r, trace)
    ensures Run(hp, trace).mapped == Run(hp, start).mapped && Run(hp, trace).connected == Run(hp, start).connected
    ensures r == Ready || r == ShellNotExecutable || r == ShellNotFound ==> ProbeAccepted(trace)
    ensures r == Ready ==> trace[|trace| - 1].result == Exit(0)
    ensures r == ShellNotExecutable ==> trace[|trace| - 1].result == Exit(126)
    ensures r == ShellNotFound ==> trace[|trace| - 1].result == Exit(127)
    ensures r == OutOfFuel ==> Checks(trace) == Checks(start) + fuel
    ensures r != DetectFailed && r != HostFailed && r != DialFailed
  {
    var left := fuel;
    trace := start;
    while left > 0
      invariant var m := Run(hp, trace);
        && Answered(o, trace) && m.At? && !m.ended && m.mapped == Run(hp, start).mapped && m.connected == Run(hp, start).connected
        && m.internal == internalPort
        && Checks(trace) + left == Checks(start) + fuel
      decreases left
    {
      left := left - 1;
      if o.done(trace) {
        Noted(hp, o, trace, ContextDone);
        trace := trace + [ContextDone];
        return ContextEnded, trace;
      }
      var ok;
      ok, trace := CheckTarget(hp, o, trace);
      if !ok {
        return TargetDown, trace;
      }
      var result;
      result, trace := Probe(hp, internalPort, o, trace);
      if result == ExecError {
        return ExecFailed, trace;
      }
      if result.code == 0 {
        return Ready, trace;
      } else if result.code == EXIT_EACCESS {
        return ShellNotExecutable, trace;
      } else if result.code == EXIT_CMD_NOT_FOUND {
        return ShellNotFound, trace;
      }
    }
    r := OutOfFuel;
  }

  // ---------- What the monitor guarantees ----------

  function Phase(e: Event): Option<nat>
  {
    match e
    case Inspect(_) => Some(0)
    case Mapped(_, _) => Some(1)
    case Host(_) => Some(2)
    case Dial(_, _) => Some(2)
    case Exec(_, _) => Some(3)
    case _ => None
  }

  /** A request that a loop may repeat. */
  predicate Poll(e: Event)
  {
    e.Inspect? || e.Mapped? || e.Dial? || e.Exec?
  }

  /** An answer after which the same request is not made again. */
  predicate Settled(e: Event)
  {
    match e
    case Inspect(found) => found.Some? && found.value != 0
    case Mapped(_, answer) => answer != 0
    case Dial(_, dialed) => dialed == Connected
    case _ => false
  }

  predicate SamePoll(d: Event, e: Event)
  {
    Poll(d) && Poll(e) && Phase(d) == Phase(e)
  }

  predicate SafeAt(hp: HostPortStrategy, trace: Trace, j: nat)
    requires j < |trace|
  {
    var e := trace[j];
    // phases do not go back, and a skipped one does not occur
    && (forall i :: 0 <= i < j && Phase(trace[i]).Some? && Phase(e).Some? ==> Phase(trace[i]).value <= Phase(e).value)
    && (hp.skipExternalCheck ==> !e.Host? && !e.Dial?) && (hp.skipInternalCheck ==> !e.Exec?)
    // no mapping is asked for before there is a port
    && (e.Mapped? ==> e.asked != 0)
    // every dial, every exec and every repeated poll comes right after a successful liveness check
    && (e.Dial? || e.Exec? || (exists i :: 0 <= i < j && SamePoll(trace[i], e)) ==> j > 0 && trace[j - 1] == State(true))
    // a poll is not repeated once it is settled, and nothing follows a final answer
    && (forall i :: 0 <= i < j ==> !(SamePoll(trace[i], e) && Settled(trace[i])) && !Final(trace[i]))
  }

  /** What the monitor remembers is true of the trace. */
  ghost predicate Remembers(hp: HostPortStrategy, m: Monitor, trace: Trace)
  {
    && m.At?
    && (m.phase == 2 ==> !hp.skipExternalCheck)
    && (m.guarded ==> trace != [] && trace[|trace| - 1] == State(true))
    && (m.mapped != 0 ==> exists i, asked :: 0 <= i < |trace| && trace[i] == Mapped(asked, m.mapped))
    && (m.connected ==> Dial(m.mapped, Connected) in trace)
    && forall i :: 0 <= i < |trace| ==> RemembersEvent(m, trace[i])
  }

  predicate RemembersEvent(m: Monitor, e: Event)
    requires m.At?
  {
    && (Phase(e).Some? ==> Phase(e).value <= m.phase)
    && (Poll(e) && Phase(e) == Some(m.phase) ==> m.polled)
    && (Final(e) ==> m.ended)
    && (Settled(e) ==> if e.Inspect? then m.internal != 0 else if e.Mapped? then m.mapped != 0 else m.connected)
  }

  lemma RemembersEvents(hp: HostPortStrategy, m: Monitor, trace: Trace, e: Event)
    requires Remembers(hp, m, trace) && Next(hp, m, e).At?
    ensures var m', trace' := Next(hp, m, e), trace + [e];
      forall i :: 0 <= i < |trace'| ==> RemembersEvent(m', trace'[i])
  {
    var m', trace' := Next(hp, m, e), trace + [e];
    forall i | 0 <= i < |trace'|
      ensures RemembersEvent(m', trace'[i])
    {
      if i < |trace| {
        assert trace'[i] == trace[i] && RemembersEvent(m, trace[i]);
      }
    }
  }

  lemma RemembersAnswers(hp: HostPortStrategy, m: Monitor, trace: Trace, e: Event)
    requires Remembers(hp, m, trace) && Next(hp, m, e).At?
    ensures var m', trace' := Next(hp, m, e), trace + [e];
      && (m'.guarded ==> trace'[|trace|] == State(true))
      && (m'.mapped != 0 ==> exists i, asked :: 0 <= i < |trace'| && trace'[i] == Mapped(asked, m'.mapped))
      && (m'.connected ==> Dial(m'.mapped, Connected) in trace')
  {
    var m', trace' := Next(hp, m, e), trace + [e];
    assert trace'[|trace|] == e;
    if m'.mapped != 0 {
      if e.Mapped? {
        assert trace'[|trace|] == Mapped(e.asked, m'.mapped);
      } else {
        var i, asked :| 0 <= i < |trace| && trace[i] == Mapped(asked, m.mapped);
        assert trace'[i] == Mapped(asked, m'.mapped);
      }
    }
  }

  lemma SafeStep(hp: HostPortStrategy, m: Monitor, trace: Trace, e: Event)
    requires Remembers(hp, m, trace) && Next(hp, m, e).At?
    ensures SafeAt(hp, trace + [e], |trace|)
  {
    var trace' := trace + [e];
    forall i | 0 <= i < |trace|
      ensures trace'[i] == trace[i] && RemembersEvent(m, trace'[i])
    {
    }
  }

  lemma SafeStays(hp: HostPortStrategy, trace: Trace, e: Event, j: nat)
    requires j < |trace| && SafeAt(hp, trace, j)
    ensures SafeAt(hp, trace + [e], j)
  {
    var trace' := trace + [e];
    assert forall i :: 0 <= i < |trace| ==> trace'[i] == trace[i];
  }

  /**
   * A trace the monitor accepts is safe at every event: phases never go back and skipped ones do
   * not occur, a mapping is only asked for a port that is not zero, every dial, exec and repeated
   * poll comes right after a successful liveness check, no poll is repeated once it is settled, and
   * nothing follows a final answer.
   */
  lemma {:induction false} MonitorIsSafe(hp: HostPortStrategy, trace: Trace)
    requires Run(hp, trace) != Bad
    ensures Remembers(hp, Run(hp, trace), trace)
    ensures forall j :: 0 <= j < |trace| ==> SafeAt(hp, trace, j)
    decreases |trace|
  {
    if trace != [] {
      var before, e := trace[..|trace| - 1], trace[|trace| - 1];
      var m := Run(hp, before);
      MonitorIsSafe(hp, before);
      RemembersEvents(hp, m, before, e);
      RemembersAnswers(hp, m, before, e);
      assert before + [e] == trace;
      forall j | 0 <= j < |trace|
        ensures SafeAt(hp, trace, j)
      {
        if j < |before| {
          SafeStays(hp, before, e, j);
        } else {
          SafeStep(hp, m, before, e);
        }
      }
    }
  }

  /**
   * nil means: some answer gave a mapping, that port was dialed successfully unless the external
   * check is skipped, and, unless the internal one is, the last event is a probe that exited with 0,
   * or with 126 or 127, by which a shell says that it cannot look.
   */
  lemma ReadyMeansReached(hp: HostPortStrategy, trace: Trace)
    requires Run(hp, trace) != Bad && Reached(hp, trace)
    ensures exists i, asked, port ::
      0 <= i < |trace| && port != 0 && asked != 0 && trace[i] == Mapped(asked, port) &&
      (hp.skipExternalCheck || Dial(port, Connected) in trace)
    ensures hp.skipInternalCheck ||
      exists port, code :: trace != [] && trace[|trace| - 1] == Exec(port, Exit(code)) && (code == 0 || code == 126 || code == 127)
  {
    MonitorIsSafe(hp, trace);
    var m := Run(hp, trace);
    var i, asked :| 0 <= i < |trace| && trace[i] == Mapped(asked, m.mapped);
    assert SafeAt(hp, trace, i);
    if !hp.skipInternalCheck {
      var e := trace[|trace| - 1];
      assert e == Exec(e.port, Exit(e.result.code));
    }
  }
}
