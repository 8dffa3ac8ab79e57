/**
 * container/wait/log.go: polling the logs of a container until a check passes.  The container is
 * an arbitrary behaviour over time; each call to it observes one instant and takes time.
 */
module LogWait {
  import opened Results

  /** What ws.check answers: nil, an error to retry on, or a PermanentError. */
  datatype CheckResult = Pass | Retry(error: nat) | Permanent(error: nat)

  type Check = string -> CheckResult

  /** An error of checkTarget. */
  type StateError = nat

  /** The container at each instant, and how long a call made then takes. */
  datatype Behaviour = Behaviour(
    log: nat -> string,
    state: nat -> Option<StateError>,
    readable: nat -> bool,
    latency: nat -> nat)

  /** One turn of the loop: the liveness check and then the read, if the read succeeded. */
  datatype Poll = Poll(stateAt: nat, stateErr: Option<StateError>, readAt: nat, read: Option<string>)

  datatype Verdict =
    | Ready
    | PermanentlyFailed(error: nat)
    | GaveUp(error: StateError)
    | TimedOut(lastError: Option<nat>)

  datatype Waited = Waited(verdict: Verdict, polls: seq<Poll>)

  function After(b: Behaviour, t: nat): nat
  {
    t + 1 + b.latency(t)
  }

  function PollAt(b: Behaviour, t: nat): Poll
  {
    var readAt := After(b, t);
    Poll(t, b.state(t), readAt, if b.readable(readAt) then Some(b.log(readAt)) else None)
  }

  /** The loop of WaitUntilReady from the instant `now` on. */
  function WaitLog(b: Behaviour, check: Check, deadline: int, now: nat, lastLen: nat, lastError: Option<nat>): Waited
    decreases deadline - now
  {
    if now >= deadline then Waited(TimedOut(lastError), [])
    else
      var poll := PollAt(b, now);
      var next := After(b, poll.readAt);
      if poll.read.None? then Before(poll, WaitLog(b, check, deadline, next, lastLen, lastError))
      else
        var bytes := poll.read.value;
        if lastLen == |bytes| && poll.stateErr.Some? then Waited(GaveUp(poll.stateErr.value), [poll])
        else
          match check(bytes)
          case Pass => Waited(Ready, [poll])
          case Permanent(e) => Waited(PermanentlyFailed(e), [poll])
          case Retry(e) => Before(poll, WaitLog(b, check, deadline, next, |bytes|, Some(e)))
  }

  function Before(poll: Poll, w: Waited): Waited
  {
    Waited(w.verdict, [poll] + w.polls)
  }

  // ---------- checkCount ----------

  /** bytes.Count: occurrences that do not overlap; for an empty text one more than the characters. */
  function Count(b: string, sep: string): nat
  {
    if sep == "" then |b| + 1
    else if |b| < |sep| then 0
    else if sep <= b then 1 + Count(b[|sep|..], sep)
    else Count(b[1..], sep)
  }

  function CheckCount(b: string, log: string, occurrence: int): CheckResult
  {
    if Count(b, log) < occurrence then Retry(Count(b, log)) else Pass
  }

  // ---------- The loop as the code runs it ----------

  /** wait.StrategyTarget. */
  class Target {
    const behaviour: Behaviour
    var now: nat

    constructor (behaviour: Behaviour, now: nat)
      ensures this.behaviour == behaviour && this.now == now
    {
      this.behaviour, this.now := behaviour, now;
    }

    /** checkTarget. */
    method CheckTarget() returns (err: Option<StateError>)
      modifies this
      ensures err == behaviour.state(old(now)) && now == After(behaviour, old(now))
    {
      err := behaviour.state(now);
      now := now + 1 + behaviour.latency(now);
    }

    /** Logs and io.ReadAll, with the pause before the next turn. */
    method ReadLogs() returns (r: Option<string>)
      modifies this
      ensures r == if behaviour.readable(old(now)) then Some(behaviour.log(old(now))) else None
      ensures now == After(behaviour, old(now))
    {
      r := if behaviour.readable(now) then Some(behaviour.log(now)) else None;
      now := now + 1 + behaviour.latency(now);
    }
  }

  const DEFAULT_TIMEOUT := 60_000  // milliseconds

  class LogStrategy {
    const timeout: Option<int>
    const Log: string
    const occurrence: int
    const submatchCheck: Option<Check>
    const regexpCheck: Option<Check>
    var check: Check
    var log: string

    constructor (log: string, occurrence: int, timeout: Option<int>, submatchCheck: Option<Check>, regexpCheck: Option<Check>)
      ensures this.Log == log && this.occurrence == occurrence && this.timeout == timeout
      ensures this.submatchCheck == submatchCheck && this.regexpCheck == regexpCheck
    {
      this.Log, this.occurrence, this.timeout := log, occurrence, timeout;
      this.submatchCheck, this.regexpCheck := submatchCheck, regexpCheck;
      this.check, this.log := b => Pass, "";
    }

    /** The check the strategy is set up for. */
    function Chosen(): Check
    {
      if submatchCheck.Some? then submatchCheck.value
      else if regexpCheck.Some? then regexpCheck.value
      else var (text, count) := (Log, occurrence); b => CheckCount(b, text, count)
    }

    /** WaitUntilReady, under a context that ends at `ctxDeadline`. */
    method WaitUntilReady(ctxDeadline: int, target: Target) returns (verdict: Verdict, ghost polls: seq<Poll>)
      modifies this, target
      ensures check == Chosen()
      ensures submatchCheck.Some? ==> check == submatchCheck.value
      ensures submatchCheck.None? && regexpCheck.Some? ==> check == regexpCheck.value
      ensures submatchCheck.None? && regexpCheck.None? ==> forall b :: check(b) == CheckCount(b, Log, occurrence)
      ensures var limit := old(target.now) + if timeout.Some? then timeout.value else 60_000;
        Waited(verdict, polls) == WaitLog(target.behaviour, Chosen(), if ctxDeadline <= limit then ctxDeadline else limit,
                                          old(target.now), 0, None)
    {
      var duration := DEFAULT_TIMEOUT;
      if timeout.Some? {
        duration := timeout.value;
      }
      if submatchCheck.Some? {
        check := submatchCheck.value;
      } else if regexpCheck.Some? {
        check := regexpCheck.value;
      } else {
        log := Log;
        check := Chosen();
      }
      var limit := target.now + duration;
      var deadline := if ctxDeadline <= limit then ctxDeadline else limit;

      var lastLen: nat := 0;
      var lastError: Option<nat> := None;
      var chosen := check;
      polls := [];
      ghost var start := target.now;
      while target.now < deadline
        invariant check == chosen == Chosen()
        invariant Join(polls, WaitLog(target.behaviour, chosen, deadline, target.now, lastLen, lastError))
               == WaitLog(target.behaviour, chosen, deadline, start, 0, None)
        decreases deadline - target.now
      {
        ghost var rest := WaitLog(target.behaviour, chosen, deadline, target.now, lastLen, lastError);
        ghost var poll := PollAt(target.behaviour, target.now);
        JoinOne(polls, poll, rest);
        var checkErr := target.CheckTarget();
        var r := target.ReadLogs();
        if r.None? {
          polls := polls + [poll];
          continue;
        }
        var b := r.value;
        if lastLen == |b| && checkErr.Some? {
          polls := polls + [poll];
          return GaveUp(checkErr.value), polls;
        }
        match check(b) {
          case Permanent(e) =>
            polls := polls + [poll];
            return PermanentlyFailed(e), polls;
          case Retry(e) =>
            lastError, lastLen := Some(e), |b|;
          case Pass =>
            polls := polls + [poll];
            return Ready, polls;
        }
        polls := polls + [poll];
      }
      assert polls + [] == polls;
      return TimedOut(lastError), polls;
    }
  }

  function Join(polls: seq<Poll>, w: Waited): Waited
  {
    Waited(w.verdict, polls + w.polls)
  }

  lemma JoinOne(polls: seq<Poll>, poll: Poll, w: Waited)
    ensures forall more: Waited :: w == Before(poll, more) ==> Join(polls, w) == Join(polls + [poll], more)
    ensures w.polls == [poll] ==> Join(polls, w).polls == polls + [poll]
  {
    forall more: Waited | w == Before(poll, more)
      ensures Join(polls, w) == Join(polls + [poll], more)
    {
      assert polls + ([poll] + more.polls) == (polls + [poll]) + more.polls;
    }
  }

  // ---------- What a run of the loop means ----------

  ghost predicate AppendOnly(b: Behaviour)
  {
    forall s: nat, t: nat :: s <= t ==> b.log(s) <= b.log(t)
  }

  /** Once a liveness check has failed the log does not grow any more. */
  ghost predicate FrozenAtDeath(b: Behaviour)
  {
    forall s: nat, t: nat :: s <= t && b.state(s).Some? ==> b.log(t) == b.log(s)
  }

  /** The last turn of the loop. */
  function Last(w: Waited): Poll
    requires w.polls != []
  {
    w.polls[|w.polls| - 1]
  }

  /** The reads that came before the last turn all asked for a retry. */
  ghost predicate RetriedBefore(w: Waited, check: Check)
  {
    forall i :: 0 <= i < |w.polls| - 1 && w.polls[i].read.Some? ==> check(w.polls[i].read.value).Retry?
  }

  /** What the verdict says about the last turn. */
  ghost predicate Justified(w: Waited, check: Check)
  {
    match w.verdict
    case Ready => w.polls != [] && Last(w).read.Some? && check(Last(w).read.value) == Pass
    case PermanentlyFailed(e) => w.polls != [] && Last(w).read.Some? && check(Last(w).read.value) == Permanent(e)
    case GaveUp(e) => w.polls != [] && Last(w).read.Some? && Last(w).stateErr == Some(e)
    case TimedOut(_) => w.polls != [] && Last(w).read.Some? ==> check(Last(w).read.value).Retry?
  }

  /**
   * The loop ends well only on a log that passes, and at once on the first log that passes or on
   * the first permanent error: everything it read before asked for a retry.
   */
  lemma {:induction false} LogWaitSound(b: Behaviour, check: Check, deadline: int, now: nat, lastLen: nat, lastError: Option<nat>)
    ensures var w := WaitLog(b, check, deadline, now, lastLen, lastError); Justified(w, check) && RetriedBefore(w, check)
    decreases deadline - now
  {
    if now < deadline {
      var poll := PollAt(b, now);
      var next := After(b, poll.readAt);
      if poll.read.None? {
        LogWaitSound(b, check, deadline, next, lastLen, lastError);
      } else if !(lastLen == |poll.read.value| && poll.stateErr.Some?) {
        match check(poll.read.value)
        case Retry(e) => LogWaitSound(b, check, deadline, next, |poll.read.value|, Some(e));
        case _ =>
      }
    }
  }

  /** The length remembered is that of an earlier log which failed the check. */
  ghost predicate Remembered(b: Behaviour, check: Check, now: nat, lastLen: nat, prev: string)
  {
    |prev| == lastLen && check(prev) != Pass && forall t: nat :: now <= t ==> prev <= b.log(t)
  }

  /** A log of the length remembered is the log remembered. */
  lemma SameLog(b: Behaviour, check: Check, now: nat, lastLen: nat, prev: string, t: nat)
    requires Remembered(b, check, now, lastLen, prev) && now <= t && |b.log(t)| == lastLen
    ensures check(b.log(t)) != Pass
  {
    assert prev <= b.log(t);
    assert b.log(t) == prev;
  }

  lemma RemembersNext(b: Behaviour, check: Check, t: nat, next: nat)
    requires AppendOnly(b) && t <= next && check(b.log(t)) != Pass
    ensures Remembered(b, check, next, |b.log(t)|, b.log(t))
  {
  }

  /** If the loop gave up, the log it just read fails the check. */
  predicate GaveUpRightly(w: Waited, check: Check)
  {
    w.verdict.GaveUp? ==> w.polls != [] && Last(w).read.Some? && check(Last(w).read.value) != Pass
  }

  lemma StillRightly(poll: Poll, w: Waited, check: Check)
    requires GaveUpRightly(w, check)
    ensures GaveUpRightly(Before(poll, w), check)
  {
    if w.polls != [] {
      assert Last(Before(poll, w)) == Last(w);
    }
  }

  lemma {:induction false} GaveUpOnFailingLog(b: Behaviour, check: Check, deadline: int, now: nat, lastLen: nat,
                                               lastError: Option<nat>, prev: string)
    requires AppendOnly(b) && Remembered(b, check, now, lastLen, prev)
    ensures GaveUpRightly(WaitLog(b, check, deadline, now, lastLen, lastError), check)
    decreases deadline - now
  {
    if now < deadline {
      var poll := PollAt(b, now);
      var next := After(b, poll.readAt);
      if poll.read.None? {
        GaveUpOnFailingLog(b, check, deadline, next, lastLen, lastError, prev);
        StillRightly(poll, WaitLog(b, check, deadline, next, lastLen, lastError), check);
      } else {
        var bytes := poll.read.value;
        if lastLen == |bytes| && poll.stateErr.Some? {
          SameLog(b, check, now, lastLen, prev, poll.readAt);
        } else {
          match check(bytes)
          case Retry(e) =>
            RemembersNext(b, check, poll.readAt, next);
            GaveUpOnFailingLog(b, check, deadline, next, |bytes|, Some(e), bytes);
            StillRightly(poll, WaitLog(b, check, deadline, next, |bytes|, Some(e)), check);
          case _ =>
        }
      }
    }
  }

  /** Never too early: the container-state error is returned only on a log that fails the check. */
  ghost predicate NeverTooEarly(b: Behaviour, check: Check, deadline: int, now: nat)
  {
    GaveUpRightly(WaitLog(b, check, deadline, now, 0, None), check)
  }

  /** A container that is dead from the start, with an empty log. */
  ghost function DeadAndSilent(): Behaviour
  {
    Behaviour(t => "", t => Some(0), t => true, t => 0)
  }

  /**
   * With logs that only grow the loop never gives up too early, exactly when the check fails on
   * the empty log: the loop starts from length 0 as if it had seen an empty log fail.
   */
  lemma NeverTooEarlyIsExact(check: Check)
    ensures check("") != Pass <==>
      forall b, deadline, now :: AppendOnly(b) ==> NeverTooEarly(b, check, deadline, now)
  {
    if check("") != Pass {
      forall b, deadline, now | AppendOnly(b)
        ensures NeverTooEarly(b, check, deadline, now)
      {
        GaveUpOnFailingLog(b, check, deadline, now, 0, None, "");
      }
    } else {
      assert AppendOnly(DeadAndSilent());
      assert !NeverTooEarly(DeadAndSilent(), check, 10, 0);
    }
  }

  /**
   * If moreover a log stops growing once the container is seen dead, giving up is final: the
   * complete log fails the check.  This is where liveness has to be read before the log.
   */
  lemma CompleteLogFails(b: Behaviour, check: Check, deadline: int, now: nat)
    requires AppendOnly(b) && FrozenAtDeath(b) && check("") != Pass
    ensures var w := WaitLog(b, check, deadline, now, 0, None);
      w.verdict.GaveUp? ==> w.polls != [] && forall t: nat :: Last(w).stateAt <= t ==> check(b.log(t)) != Pass
  {
    var w := WaitLog(b, check, deadline, now, 0, None);
    GaveUpOnFailingLog(b, check, deadline, now, 0, None, "");
    LogWaitSound(b, check, deadline, now, 0, None);
    PollsObserve(b, check, deadline, now, 0, None);
    if w.verdict.GaveUp? {
      var p := Last(w);
      assert p in w.polls;
      forall t: nat | p.stateAt <= t
        ensures check(b.log(t)) != Pass
      {
        assert b.log(t) == b.log(p.stateAt) == b.log(p.readAt);
      }
    }
  }

  /** A turn made no earlier than `now`: it looks at the liveness first and at the log later. */
  ghost predicate Observes(b: Behaviour, now: nat, p: Poll)
  {
    now <= p.stateAt < p.readAt && p.stateErr == b.state(p.stateAt) && (p.read.Some? ==> p.read.value == b.log(p.readAt))
  }

  lemma {:induction false} PollsObserve(b: Behaviour, check: Check, deadline: int, now: nat, lastLen: nat, lastError: Option<nat>)
    ensures forall p :: p in WaitLog(b, check, deadline, now, lastLen, lastError).polls ==> Observes(b, now, p)
    decreases deadline - now
  {
    if now < deadline {
      var poll := PollAt(b, now);
      var next := After(b, poll.readAt);
      assert Observes(b, now, poll);
      if poll.read.None? {
        PollsObserve(b, check, deadline, next, lastLen, lastError);
      } else if !(lastLen == |poll.read.value| && poll.stateErr.Some?) {
        match check(poll.read.value)
        case Retry(e) => PollsObserve(b, check, deadline, next, |poll.read.value|, Some(e));
        case _ =>
      }
    }
  }

  function Reads(polls: seq<Poll>): nat
  {
    if polls == [] then 0 else (if polls[0].read.Some? then 1 else 0) + Reads(polls[1..])
  }

  /** The container is dead for good, and its log is what it will always be. */
  ghost predicate DeadFrom(b: Behaviour, now: nat)
  {
    forall t: nat :: now <= t ==> b.state(t).Some? && b.log(t) == b.log(now)
  }

  /** Once the container is dead for good, two more successful reads end the loop at the latest. */
  lemma {:induction false} EndsAfterDeath(b: Behaviour, check: Check, deadline: int, now: nat, lastLen: nat, lastError: Option<nat>)
    requires DeadFrom(b, now)
    ensures Reads(WaitLog(b, check, deadline, now, lastLen, lastError).polls) <= if lastLen == |b.log(now)| then 1 else 2
    decreases deadline - now
  {
    if now < deadline {
      var poll := PollAt(b, now);
      var next := After(b, poll.readAt);
      if poll.read.None? {
        EndsAfterDeath(b, check, deadline, next, lastLen, lastError);
      } else if lastLen != |poll.read.value| {
        match check(poll.read.value)
        case Retry(e) => EndsAfterDeath(b, check, deadline, next, |poll.read.value|, Some(e));
        case _ =>
      }
      OneMore(poll, WaitLog(b, check, deadline, now, lastLen, lastError).polls);
    }
  }

  lemma OneMore(poll: Poll, polls: seq<Poll>)
    requires polls != [] && polls[0] == poll
    ensures Reads(polls) == (if poll.read.Some? then 1 else 0) + Reads(polls[1..])
  {
  }

  // ---------- The verdict, read off the turns ----------

  /** The length of the last log read, or `before` if none was. */
  function LengthSeen(polls: seq<Poll>, before: nat): nat
  {
    if polls == [] then before
    else
      var last := polls[|polls| - 1];
      if last.read.Some? then |last.read.value| else LengthSeen(polls[..|polls| - 1], before)
  }

  /** The error of the check on the last log read, or `before` if none was. */
  function ErrorSeen(polls: seq<Poll>, check: Check, before: Option<nat>): Option<nat>
  {
    if polls == [] then before
    else
      var last := polls[|polls| - 1];
      if last.read.Some? && check(last.read.value).Retry? then Some(check(last.read.value).error)
      else ErrorSeen(polls[..|polls| - 1], check, before)
  }

  /** A container-state error, on a log of the length seen before. */
  predicate NoProgress(poll: Poll, seen: nat)
  {
    poll.stateErr.Some? && poll.read.Some? && |poll.read.value| == seen
  }

  /** The turn ends the loop, with this verdict. */
  predicate Decides(poll: Poll, seen: nat, check: Check, verdict: Verdict)
  {
    if NoProgress(poll, seen) then verdict == GaveUp(poll.stateErr.value)
    else
      poll.read.Some? &&
      match check(poll.read.value)
      case Pass => verdict == Ready
      case Permanent(e) => verdict == PermanentlyFailed(e)
      case Retry(_) => false
  }

  /** When the turn number `i` starts: at once, or when the one before it is over. */
  function StartOf(b: Behaviour, now: nat, polls: seq<Poll>, i: nat): nat
    requires i <= |polls|
  {
    if i == 0 then now else After(b, polls[i - 1].readAt)
  }

  /** The turns come one right after the other, and none after the deadline. */
  ghost predicate BackToBack(b: Behaviour, deadline: int, now: nat, polls: seq<Poll>)
  {
    forall i :: 0 <= i < |polls| ==> StartOf(b, now, polls, i) < deadline && polls[i] == PollAt(b, StartOf(b, now, polls, i))
  }

  /** No turn but the last one decided anything. */
  ghost predicate Undecided(polls: seq<Poll>, check: Check, lastLen: nat, n: nat)
    requires n <= |polls|
  {
    forall i :: 0 <= i < n ==>
      && !NoProgress(polls[i], LengthSeen(polls[..i], lastLen))
      && (polls[i].read.Some? ==> check(polls[i].read.value).Retry?)
  }

  /** What the turns made so far mean. */
  ghost predicate Decided(b: Behaviour, check: Check, deadline: int, now: nat, lastLen: nat, lastError: Option<nat>, w: Waited)
  {
    var n := |w.polls|;
    && BackToBack(b, deadline, now, w.polls)
    && match w.verdict
       case TimedOut(e) =>
         StartOf(b, now, w.polls, n) >= deadline && Undecided(w.polls, check, lastLen, n) && e == ErrorSeen(w.polls, check, lastError)
       case _ =>
         && n > 0 && Undecided(w.polls, check, lastLen, n - 1)
         && Decides(w.polls[n - 1], LengthSeen(w.polls[..n - 1], lastLen), check, w.verdict)
  }

  lemma {:induction false} SeenBehind(poll: Poll, polls: seq<Poll>, check: Check, lastLen: nat, lastError: Option<nat>)
    ensures LengthSeen([poll] + polls, lastLen) == LengthSeen(polls, LengthSeen([poll], lastLen))
    ensures ErrorSeen([poll] + polls, check, lastError) == ErrorSeen(polls, check, ErrorSeen([poll], check, lastError))
    decreases |polls|
  {
    if polls == [] {
      assert [poll] + polls == [poll];
    } else {
      var all, init := [poll] + polls, polls[..|polls| - 1];
      assert all[..|all| - 1] == [poll] + init && all[|all| - 1] == polls[|polls| - 1];
      SeenBehind(poll, init, check, lastLen, lastError);
    }
  }

  lemma UndecidedBehind(poll: Poll, polls: seq<Poll>, check: Check, lastLen: nat, n: nat)
    requires n <= |polls| && Undecided(polls, check, LengthSeen([poll], lastLen), n)
    requires !NoProgress(poll, lastLen) && (poll.read.Some? ==> check(poll.read.value).Retry?)
    ensures Undecided([poll] + polls, check, lastLen, n + 1)
  {
    var all := [poll] + polls;
    forall i | 0 <= i < n + 1
      ensures !NoProgress(all[i], LengthSeen(all[..i], lastLen)) && (all[i].read.Some? ==> check(all[i].read.value).Retry?)
    {
      if i > 0 {
        assert all[..i] == [poll] + polls[..i - 1];
        SeenBehind(poll, polls[..i - 1], check, lastLen, None);
      } else {
        assert all[..0] == [];
      }
    }
  }

  lemma BackToBackBehind(b: Behaviour, deadline: int, now: nat, polls: seq<Poll>)
    requires now < deadline && BackToBack(b, deadline, After(b, PollAt(b, now).readAt), polls)
    ensures BackToBack(b, deadline, now, [PollAt(b, now)] + polls)
    ensures StartOf(b, now, [PollAt(b, now)] + polls, |polls| + 1) == StartOf(b, After(b, PollAt(b, now).readAt), polls, |polls|)
  {
    var all, next := [PollAt(b, now)] + polls, After(b, PollAt(b, now).readAt);
    forall i | 0 <= i < |all|
      ensures StartOf(b, now, all, i) < deadline && all[i] == PollAt(b, StartOf(b, now, all, i))
    {
      if i > 0 {
        assert StartOf(b, now, all, i) == StartOf(b, next, polls, i - 1);
      }
    }
  }

  lemma DecidedBehind(b: Behaviour, check: Check, deadline: int, now: nat, lastLen: nat, lastError: Option<nat>, w: Waited)
    requires now < deadline
    requires var poll := PollAt(b, now);
      && !NoProgress(poll, lastLen) && (poll.read.Some? ==> check(poll.read.value).Retry?)
      && Decided(b, check, deadline, After(b, poll.readAt), LengthSeen([poll], lastLen), ErrorSeen([poll], check, lastError), w)
    ensures Decided(b, check, deadline, now, lastLen, lastError, Before(PollAt(b, now), w))
  {
    var poll, n := PollAt(b, now), |w.polls|;
    var all := [poll] + w.polls;
    BackToBackBehind(b, deadline, now, w.polls);
    if w.verdict.TimedOut? {
      UndecidedBehind(poll, w.polls, check, lastLen, n);
      SeenBehind(poll, w.polls, check, lastLen, lastError);
    } else {
      UndecidedBehind(poll, w.polls, check, lastLen, n - 1);
      SeenBehind(poll, w.polls[..n - 1], check, lastLen, lastError);
      assert all[..n] == [poll] + w.polls[..n - 1] && all[n] == w.polls[n - 1];
    }
  }

  lemma DecidedAtOnce(b: Behaviour, check: Check, deadline: int, now: nat, lastLen: nat, lastError: Option<nat>, verdict: Verdict)
    requires var poll := PollAt(b, now);
      now < deadline && Decides(poll, lastLen, check, verdict) && !verdict.TimedOut?
    ensures Decided(b, check, deadline, now, lastLen, lastError, Waited(verdict, [PollAt(b, now)]))
  {
    assert [PollAt(b, now)][..0] == [];
  }

  /**
   * The whole loop: turns one right after the other as long as there is time, up to the first that
   * decides.  That is a log of the length last seen from a container in an error state, which gives
   * up; or else a log on which the check passes or fails for good.  If none does the loop times out
   * with the error of the last check.
   */
  lemma {:induction false} VerdictIsExact(b: Behaviour, check: Check, deadline: int, now: nat, lastLen: nat, lastError: Option<nat>)
    ensures Decided(b, check, deadline, now, lastLen, lastError, WaitLog(b, check, deadline, now, lastLen, lastError))
    decreases deadline - now
  {
    if now < deadline {
      var poll := PollAt(b, now);
      var next := After(b, poll.readAt);
      SeenOne(poll, check, lastLen, lastError);
      if poll.read.None? {
        VerdictIsExact(b, check, deadline, next, lastLen, lastError);
        DecidedBehind(b, check, deadline, now, lastLen, lastError, WaitLog(b, check, deadline, next, lastLen, lastError));
      } else if NoProgress(poll, lastLen) || !check(poll.read.value).Retry? {
        EndsNow(b, check, deadline, now, lastLen, lastError);
      } else {
        var len, err := |poll.read.value|, Some(check(poll.read.value).error);
        VerdictIsExact(b, check, deadline, next, len, err);
        DecidedBehind(b, check, deadline, now, lastLen, lastError, WaitLog(b, check, deadline, next, len, err));
      }
    }
  }

  lemma SeenOne(poll: Poll, check: Check, lastLen: nat, lastError: Option<nat>)
    ensures LengthSeen([poll], lastLen) == if poll.read.Some? then |poll.read.value| else lastLen
    ensures ErrorSeen([poll], check, lastError) ==
      if poll.read.Some? && check(poll.read.value).Retry? then Some(check(poll.read.value).error) else lastError
  {
    assert [poll][..0] == [];
  }

  lemma EndsNow(b: Behaviour, check: Check, deadline: int, now: nat, lastLen: nat, lastError: Option<nat>)
    requires now < deadline && PollAt(b, now).read.Some?
    requires NoProgress(PollAt(b, now), lastLen) || !check(PollAt(b, now).read.value).Retry?
    ensures Decided(b, check, deadline, now, lastLen, lastError, WaitLog(b, check, deadline, now, lastLen, lastError))
  {
    var poll, w := PollAt(b, now), WaitLog(b, check, deadline, now, lastLen, lastError);
    assert w == Waited(w.verdict, [poll]) && Decides(poll, lastLen, check, w.verdict) && !w.verdict.TimedOut?;
    DecidedAtOnce(b, check, deadline, now, lastLen, lastError, w.verdict);
  }

  // ---------- The check by count ----------

  /** The text stands at this position. */
  predicate StandsAt(b: string, sep: string, i: nat)
  {
    i + |sep| <= |b| && b[i..i + |sep|] == sep
  }

  /** Positions in order at which the text stands, none of which overlaps the one before. */
  ghost predicate Occurrences(b: string, sep: string, at: seq<nat>)
  {
    && (forall k :: 0 <= k < |at| ==> StandsAt(b, sep, at[k]))
    && (forall k :: 0 < k < |at| ==> at[k - 1] + |sep| <= at[k])
  }

  function Shifted(at: seq<nat>, n: nat): seq<nat>
  {
    seq(|at|, k requires 0 <= k < |at| => at[k] + n)
  }

  lemma StandsBehind(b: string, sep: string, n: nat, i: nat)
    requires n <= |b|
    ensures StandsAt(b, sep, i + n) <==> StandsAt(b[n..], sep, i)
  {
    if i + n + |sep| <= |b| {
      assert b[i + n..i + n + |sep|] == b[n..][i..i + |sep|];
    }
  }

  lemma OccurrencesBehind(b: string, sep: string, n: nat, at: seq<nat>)
    requires n <= |b|
    ensures Occurrences(b, sep, Shifted(at, n)) <==> Occurrences(b[n..], sep, at)
  {
    forall k | 0 <= k < |at|
      ensures StandsAt(b, sep, Shifted(at, n)[k]) <==> StandsAt(b[n..], sep, at[k])
    {
      StandsBehind(b, sep, n, at[k]);
    }
    if Occurrences(b, sep, Shifted(at, n)) {
      forall k | 0 < k < |at|
        ensures at[k - 1] + |sep| <= at[k]
      {
        assert Shifted(at, n)[k - 1] + |sep| <= Shifted(at, n)[k];
      }
    }
  }

  /** There are as many occurrences as are counted. */
  lemma {:induction false} CountIsReached(b: string, sep: string) returns (at: seq<nat>)
    requires sep != ""
    ensures Occurrences(b, sep, at) && |at| == Count(b, sep)
    decreases |b|
  {
    if |b| < |sep| {
      at := [];
    } else if sep <= b {
      var more := CountIsReached(b[|sep|..], sep);
      OccurrencesBehind(b, sep, |sep|, more);
      at := [0] + Shifted(more, |sep|);
      assert StandsAt(b, sep, 0);
    } else {
      var more := CountIsReached(b[1..], sep);
      OccurrencesBehind(b, sep, 1, more);
      at := Shifted(more, 1);
    }
  }

  lemma {:induction false} Spread(b: string, sep: string, at: seq<nat>, k: nat)
    requires Occurrences(b, sep, at) && k < |at|
    ensures at[0] <= at[k] && (k > 0 ==> at[0] + |sep| <= at[k])
    decreases k
  {
    if k > 0 {
      Spread(b, sep, at, k - 1);
    }
  }

  /** Occurrences none of which comes before the position `n`, seen from there. */
  lemma FromPosition(b: string, sep: string, at: seq<nat>, n: nat) returns (rest: seq<nat>)
    requires n <= |b| && Occurrences(b, sep, at) && forall k :: 0 <= k < |at| ==> n <= at[k]
    ensures |rest| == |at| && Occurrences(b[n..], sep, rest)
  {
    rest := seq(|at|, k requires 0 <= k < |at| => at[k] - n);
    assert Shifted(rest, n) == at;
    OccurrencesBehind(b, sep, n, rest);
  }

  lemma OccurrencesTail(b: string, sep: string, at: seq<nat>)
    requires Occurrences(b, sep, at) && at != []
    ensures Occurrences(b, sep, at[1..])
  {
    var rest := at[1..];
    forall k | 0 < k < |rest|
      ensures rest[k - 1] + |sep| <= rest[k]
    {
      assert at[k + 1 - 1] + |sep| <= at[k + 1];
    }
  }

  /** And there are never more of them. */
  lemma {:induction false} CountIsMost(b: string, sep: string, at: seq<nat>)
    requires sep != "" && Occurrences(b, sep, at)
    ensures |at| <= Count(b, sep)
    decreases |b|
  {
    if at != [] {
      assert StandsAt(b, sep, at[0]);
      forall k | 0 <= k < |at|
        ensures at[0] <= at[k] && (k > 0 ==> at[0] + |sep| <= at[k])
      {
        Spread(b, sep, at, k);
      }
      if sep <= b {
        OccurrencesTail(b, sep, at);
        var rest := FromPosition(b, sep, at[1..], |sep|);
        CountIsMost(b[|sep|..], sep, rest);
      } else {
        assert b[0..0 + |sep|] == b[..|sep|];
        var rest := FromPosition(b, sep, at, 1);
        CountIsMost(b[1..], sep, rest);
      }
    }
  }

  /**
   * What is counted is the largest number of occurrences that do not overlap: the check passes
   * exactly on the logs in which the text occurs as often as asked for, or, for an empty text, in
   * which there are that many places before, between and behind the characters.
   */
  lemma CountPassesExactly(b: string, log: string, occurrence: int)
    ensures log != "" ==>
      (CheckCount(b, log, occurrence) == Pass <==> exists at :: Occurrences(b, log, at) && |at| >= occurrence)
    ensures log == "" ==> (CheckCount(b, log, occurrence) == Pass <==> |b| + 1 >= occurrence)
  {
    if log != "" {
      var most := CountIsReached(b, log);
      forall at | Occurrences(b, log, at)
        ensures |at| <= |most|
      {
        CountIsMost(b, log, at);
      }
    }
  }

  /** One occurrence: the text stands somewhere in the log. */
  lemma OneOccurrence(b: string, log: string)
    requires log != ""
    ensures CheckCount(b, log, 1) == Pass <==> exists i :: StandsAt(b, log, i)
  {
    CountPassesExactly(b, log, 1);
    if CheckCount(b, log, 1) == Pass {
      var at :| Occurrences(b, log, at) && |at| >= 1;
      assert StandsAt(b, log, at[0]);
    }
    if i :| StandsAt(b, log, i) {
      assert Occurrences(b, log, [i]);
    }
  }

  /** More log never takes an occurrence away. */
  lemma {:induction false} CountMonotone(b: string, more: string, sep: string)
    ensures Count(b, sep) <= Count(b + more, sep)
    decreases |b|
  {
    if sep != "" && |b| >= |sep| {
      if sep <= b {
        assert (b + more)[|sep|..] == b[|sep|..] + more;
        CountMonotone(b[|sep|..], more, sep);
      } else {
        assert (b + more)[..|sep|] == b[..|sep|];
        assert (b + more)[1..] == b[1..] + more;
        CountMonotone(b[1..], more, sep);
      }
    }
  }

  /**
   * The check by count fails on the empty log, so that the loop never gives up too early, exactly
   * when it asks for an occurrence of some text, or for more than one occurrence of no text.
   */
  lemma CountFailsOnEmpty(log: string, occurrence: int)
    ensures CheckCount("", log, occurrence) != Pass <==> occurrence > if log == "" then 1 else 0
  {
    assert log != "" ==> Count("", log) == 0;
  }

  /** Once the check by count passes it passes for every longer log. */
  lemma CountKeepsPassing(b: string, more: string, log: string, occurrence: int)
    requires CheckCount(b, log, occurrence) == Pass
    ensures CheckCount(b + more, log, occurrence) == Pass
  {
    CountMonotone(b, more, log);
  }
}
