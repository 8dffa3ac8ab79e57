/**
 * container/durable_startup.go, the dispatcher at work: it comes to the scripts in the order of its
 * globs, starts each as a program of its own and, under `set -e`, ends with the first that fails.
 * `StartupRunsInOrder` says which commands that starts, in terms of what was registered.
 */
module DurableRun {
  import opened GoPath
  import opened Results
  import opened Shell
  import opened DurableScript
  import opened DurableAllocator
  import opened DurableLayout
  import opened DurableDispatch
  import opened DurableStartup

  /** Where and as whom the dispatcher runs, what that user is to the files, and the variables it was started with. */
  datatype Session = Session(env: Env, cwd: string, user: string, role: Role)

  /** A script the dispatcher has started, how it ended up, and whether its exit status was 0. */
  datatype Started = Started(path: string, outcome: Outcome, ok: bool)

  /** The system, which may be changed by what has run before, and the exit status of programs. */
  datatype System = System(world: seq<Started> -> World, exits: (seq<Started>, Outcome) -> bool)

  predicate Succeeds(sys: System, done: seq<Started>, o: Outcome)
  {
    match o
    case Failed => false
    case Finished => true
    case _ => sys.exits(done, o)
  }

  /** A variable that is exported already changes for the scripts too. */
  function Reassign(env: Env, name: string, value: string): Env
  {
    if name in env then env[name := value] else env
  }

  /** What the dispatcher hands to a script: LC_ALL is exported; ROOT, ns and f only if they were. */
  function ScriptEnv(env: Env, root: string, ns: string, path: string): Env
  {
    Reassign(Reassign(Reassign(env["LC_ALL" := "C"], "ROOT", root), "ns", root + "/" + ns), "f", path)
  }

  /** A text whose first line names this shell as the interpreter. */
  predicate ForShell(text: string)
  {
    "#!/bin/sh\n" <= text
  }

  /** A script as a program of its own, followed through the `su` it may end in. */
  function Launched(text: string, env: Env, cwd: string, user: string, w: World): Outcome
  {
    if ForShell(text) then FollowSu(RunScript(text, env, cwd, user, w), w) else Unspecified
  }

  function PathOf(site: Site, place: (string, string)): string
  {
    site.Prefix() + place.0 + place.1
  }

  /** Starting a file as a script; nothing runs, and that is a failure, if it may not be. */
  function StartFile(path: string, f: File, env: Env, done: seq<Started>, at: Session, sys: System): Started
  {
    var o := if !Startable(f, at.role) then Failed else Launched(f.content, env, at.cwd, at.user, sys.world(done));
    Started(path, o, Succeeds(sys, done, o))
  }

  /** What is started at a place, behind what has been started already; nothing if no file is there. */
  type Starter = ((string, string), seq<Started>) -> Option<Started>

  function StarterOf(site: Site, files: seq<File>, at: Session, sys: System): Starter
  {
    (place, done) =>
      var path := PathOf(site, place);
      match FileAt(files, path)
      case None => None
      case Some(f) => Some(StartFile(path, f, ScriptEnv(at.env, site.root, place.0, path), done, at, sys))
  }

  /** The loops of the dispatcher from the place number `i` on, under `set -e`. */
  function RunFrom(order: Run, i: nat, start: Starter, done: seq<Started>): seq<Started>
    decreases |order| - i
  {
    if i >= |order| then done
    else
      match start(order[i], done)
      case None => RunFrom(order, i + 1, start, done)
      case Some(s) => if s.ok then RunFrom(order, i + 1, start, done + [s]) else done + [s]
  }

  /** A dispatcher with the rendered text lies at its path and can be started. */
  predicate DispatcherStarts(site: Site, files: seq<File>, role: Role)
  {
    var f := FileAt(files, site.DispatcherPath());
    f.Some? && Startable(f.value, role) && f.value.content == RenderDurableDispatcher(site.root)
  }

  /** What the dispatcher starts on these files, if it can be started itself. */
  ghost function DispatcherRun(site: Site, files: seq<File>, at: Session, sys: System): seq<Started>
  {
    if DispatcherStarts(site, files, at.role) then RunFrom(DispatchOrder(site, files), 0, StarterOf(site, files, at, sys), [])
    else []
  }

  // ---------- What was asked for ----------

  function Concat(plans: seq<seq<Executable>>): seq<Executable>
  {
    if plans == [] then [] else Concat(plans[..|plans| - 1]) + plans[|plans| - 1]
  }

  function PlansOf(calls: seq<Call>, names: seq<string>): seq<seq<Executable>>
  {
    seq(|names|, i requires 0 <= i < |names| => CommandsOf(calls, names[i]))
  }

  /**
   * The registered executables in registration order: those of the default namespace, then those of
   * the others by first registration, in each namespace by registration across all calls.
   */
  function Planned(calls: seq<Call>): seq<Executable>
  {
    Concat(PlansOf(calls, RunNames(RegistryOf(calls))))
  }

  /** What an executable asks for; a command that is itself such an `su` is followed like any other. */
  function Meant(e: Executable, env: Env, cwd: string, user: string, w: World): Outcome
    requires e.Executable? && e.command != []
  {
    var o := Intended(e.command, Config(e), env, cwd, user, w);
    if Config(e).user == "" then FollowSu(o, w) else o
  }

  lemma ScriptDoesWhatIsMeant(e: Executable, env: Env, cwd: string, user: string, w: World)
    requires Rendered(e).Ok?
    ensures e.Executable? && e.command != []
    ensures Faithful(e.command, Config(e)) ==> Launched(Rendered(e).value, env, cwd, user, w) == Meant(e, env, cwd, user, w)
  {
    RenderedRuns(e, env, cwd, user, w);
    RenderedForShell(e);
  }

  lemma RenderedForShell(e: Executable)
    requires Rendered(e).Ok?
    ensures ForShell(Rendered(e).value)
  {
    var po := Config(e);
    var behind := if po.user != "" then SuText(SET_E + BodyText(e.command, po), po.user) else BodyText(e.command, po);
    Assoc(SHEBANG, SET_E, behind);
    assert SHEBANG <= SHEBANG + (SET_E + behind);
  }

  // ---------- Places and executables side by side ----------

  type Lying = ((string, string), Executable) -> bool

  /** At every place of `order` lies the script of the executable at the same place of `plan`. */
  ghost predicate Aligned(order: Run, plan: seq<Executable>, lies: Lying)
  {
    |order| == |plan| && forall k :: 0 <= k < |order| ==> lies(order[k], plan[k])
  }

  /** The script of `e` is what the files hold at the place, and anybody can start it. */
  ghost function Lies(site: Site, files: seq<File>): Lying
  {
    (place, e) => Holds(FileAt(files, PathOf(site, place)), e)
  }

  lemma AlignedAppend(a: Run, p: seq<Executable>, b: Run, q: seq<Executable>, lies: Lying)
    requires Aligned(a, p, lies) && Aligned(b, q, lies)
    ensures Aligned(a + b, p + q, lies)
  {
  }

  /** Namespace by namespace, then altogether. */
  lemma {:induction false} FlatAligned(nss: seq<string>, bases: seq<seq<string>>, plans: seq<seq<Executable>>, lies: Lying)
    requires |nss| == |bases| == |plans| && forall i :: 0 <= i < |nss| ==> Aligned(Pairs(nss[i], bases[i]), plans[i], lies)
    ensures Aligned(Flat(nss, bases), Concat(plans), lies)
    decreases |nss|
  {
    if nss != [] {
      var last := |nss| - 1;
      FlatAligned(nss[..last], bases[..last], plans[..last], lies);
      AlignedAppend(Flat(nss[..last], bases[..last]), Concat(plans[..last]), Pairs(nss[last], bases[last]), plans[last], lies);
    }
  }

  lemma {:induction false} PairsAt(ns: string, bases: seq<string>)
    ensures |Pairs(ns, bases)| == |bases|
    ensures forall k :: 0 <= k < |bases| ==> Pairs(ns, bases)[k] == (ns, bases[k])
    decreases |bases|
  {
    if bases != [] {
      PairsAt(ns, bases[..|bases| - 1]);
    }
  }

  lemma PathOfScript(site: Site, idx: nat, name: string, slot: nat)
    ensures PathOf(site, (Sub(idx, name) + "/", CmdName(slot))) == ScriptPath(site, idx, name, slot)
  {
    var a, b, c := site.Prefix(), Sub(idx, name), CmdName(slot);
    assert a + (b + "/") + c == (a + b) + "/" + c;
  }

  /** One namespace: its k-th script belongs to the k-th executable registered under it. */
  lemma NameAligned(site: Site, init: seq<File>, calls: seq<Call>, name: string)
    requires site.root == DURABLE_STARTUP_DIR && AllOutside(site, init) && |RegistryOf(calls)| < INT64_LIMIT
    ensures var reg := RegistryOf(calls);
      Aligned(Pairs(NsOf(reg, name), CmdNames(Slot(reg, name))), CommandsOf(calls, name), Lies(site, AfterCalls(site, init, calls)))
  {
    var reg := RegistryOf(calls);
    var order := Pairs(NsOf(reg, name), CmdNames(Slot(reg, name)));
    PairsAt(NsOf(reg, name), CmdNames(Slot(reg, name)));
    ContentsAreRendered(calls, name);
    ContentsCount(reg, name);
    forall k | 0 <= k < |order|
      ensures Lies(site, AfterCalls(site, init, calls))(order[k], CommandsOf(calls, name)[k])
    {
      PathOfScript(site, Index(reg, name), name, k);
      CommandIsThere(site, init, calls, name, k);
    }
  }

  /** The whole registration order. */
  lemma PlanAligned(site: Site, init: seq<File>, calls: seq<Call>)
    requires site.root == DURABLE_STARTUP_DIR && AllOutside(site, init) && |RegistryOf(calls)| < INT64_LIMIT
    ensures Aligned(RegistrationOrder(RegistryOf(calls)), Planned(calls), Lies(site, AfterCalls(site, init, calls)))
  {
    var reg := RegistryOf(calls);
    var names, lies := RunNames(reg), Lies(site, AfterCalls(site, init, calls));
    forall i | 0 <= i < |names|
      ensures Aligned(Pairs(NssOf(reg)[i], BasesOf(reg)[i]), PlansOf(calls, names)[i], lies)
    {
      NameAligned(site, init, calls, names[i]);
    }
    FlatAligned(NssOf(reg), BasesOf(reg), PlansOf(calls, names), lies);
  }

  // ---------- The main result ----------

  /** The start number `k` of a run: at this place, with this success, and as the executable means it. */
  predicate AsMeant(site: Site, place: (string, string), e: Executable, run: seq<Started>, k: nat, at: Session, sys: System)
    requires k < |run|
  {
    && run[k].path == PathOf(site, place)
    && (run[k].ok <==> Succeeds(sys, run[..k], run[k].outcome))
    && e.Executable? && e.command != []
    && (Faithful(e.command, Config(e)) ==>
         run[k].outcome == Meant(e, ScriptEnv(at.env, site.root, place.0, run[k].path), at.cwd, at.user, sys.world(run[..k])))
  }

  /** Something is started at each place, whatever was before. */
  ghost predicate AlwaysStarts(order: Run, start: Starter)
  {
    forall k, done :: 0 <= k < |order| ==> start(order[k], done).Some?
  }

  /** Every start is the one at its place, and all but the last one succeeded. */
  ghost predicate SoFar(order: Run, start: Starter, run: seq<Started>)
  {
    && |run| <= |order|
    && (forall k :: 0 <= k < |run| ==> start(order[k], run[..k]) == Some(run[k]))
    && (forall k :: 0 <= k < |run| - 1 ==> run[k].ok)
  }

  lemma SoFarSnoc(order: Run, start: Starter, run: seq<Started>, s: Started)
    requires |run| < |order| && SoFar(order, start, run) && (run != [] ==> run[|run| - 1].ok)
    requires start(order[|run|], run) == Some(s)
    ensures SoFar(order, start, run + [s])
  {
    var more := run + [s];
    forall k | 0 <= k < |more|
      ensures start(order[k], more[..k]) == Some(more[k])
    {
      if k < |run| {
        assert more[k] == run[k] && more[..k] == run[..k];
      } else {
        assert more[..k] == run;
      }
    }
  }

  /** All starts but the last succeeded, and if not all of the `n` places have been come to the last one failed. */
  predicate StopsAtFailure(run: seq<Started>, n: nat)
  {
    && |run| <= n
    && (forall k :: 0 <= k < |run| - 1 ==> run[k].ok)
    && (|run| < n ==> run != [] && !run[|run| - 1].ok)
  }

  /** The loops run through the places in order, and end early only with the first start that failed. */
  lemma {:induction false} LoopsRun(order: Run, start: Starter, done: seq<Started>)
    requires AlwaysStarts(order, start) && SoFar(order, start, done) && (done != [] ==> done[|done| - 1].ok)
    ensures var run := RunFrom(order, |done|, start, done); SoFar(order, start, run) && StopsAtFailure(run, |order|)
    decreases |order| - |done|
  {
    var n := |done|;
    if n < |order| {
      var s := start(order[n], done).value;
      SoFarSnoc(order, start, done, s);
      if s.ok {
        LoopsRun(order, start, done + [s]);
      }
    }
  }

  /** Every start is that of the executable at its place of the plan. */
  ghost predicate AllMeant(site: Site, order: Run, plan: seq<Executable>, run: seq<Started>, at: Session, sys: System)
    requires |run| <= |order| == |plan|
  {
    forall k :: 0 <= k < |run| ==> AsMeant(site, order[k], plan[k], run, k, at, sys)
  }

  /** The run follows the plan, and ends with it or else with the first start that failed. */
  ghost predicate GoesThrough(site: Site, order: Run, plan: seq<Executable>, run: seq<Started>, at: Session, sys: System)
    requires |order| == |plan|
  {
    StopsAtFailure(run, |plan|) && AllMeant(site, order, plan, run, at, sys)
  }

  lemma StartIsMeant(site: Site, files: seq<File>, place: (string, string), e: Executable, run: seq<Started>, k: nat, at: Session, sys: System)
    requires k < |run| && Lies(site, files)(place, e) && StarterOf(site, files, at, sys)(place, run[..k]) == Some(run[k])
    ensures AsMeant(site, place, e, run, k, at, sys)
  {
    ScriptDoesWhatIsMeant(e, ScriptEnv(at.env, site.root, place.0, PathOf(site, place)), at.cwd, at.user, sys.world(run[..k]));
  }

  lemma AlignedStarts(site: Site, files: seq<File>, order: Run, plan: seq<Executable>, at: Session, sys: System)
    requires Aligned(order, plan, Lies(site, files))
    ensures AlwaysStarts(order, StarterOf(site, files, at, sys))
  {
    forall k, done: seq<Started> | 0 <= k < |order|
      ensures StarterOf(site, files, at, sys)(order[k], done).Some?
    {
      assert Lies(site, files)(order[k], plan[k]);
    }
  }

  lemma AllAreMeant(site: Site, files: seq<File>, order: Run, plan: seq<Executable>, run: seq<Started>, at: Session, sys: System)
    requires Aligned(order, plan, Lies(site, files)) && SoFar(order, StarterOf(site, files, at, sys), run)
    ensures AllMeant(site, order, plan, run, at, sys)
  {
    forall k | 0 <= k < |run|
      ensures AsMeant(site, order[k], plan[k], run, k, at, sys)
    {
      assert Lies(site, files)(order[k], plan[k]);
      StartIsMeant(site, files, order[k], plan[k], run, k, at, sys);
    }
  }

  lemma RunGoesThrough(site: Site, files: seq<File>, order: Run, plan: seq<Executable>, at: Session, sys: System)
    requires Aligned(order, plan, Lies(site, files))
    ensures GoesThrough(site, order, plan, RunFrom(order, 0, StarterOf(site, files, at, sys), []), at, sys)
  {
    AlignedStarts(site, files, order, plan, at, sys);
    LoopsRun(order, StarterOf(site, files, at, sys), []);
    AllAreMeant(site, files, order, plan, RunFrom(order, 0, StarterOf(site, files, at, sys), []), at, sys);
  }

  /**
   * End to end: after any sequence of the two options whose indices stay within three digits, the
   * dispatcher starts the registered executables in registration order, each where its script lies
   * and as it asks for if it is faithful, up to and including the first that fails, or else all.
   */
  lemma StartupRunsInOrder(site: Site, init: seq<File>, calls: seq<Call>, at: Session, sys: System)
    requires site == Site(DURABLE_STARTUP_DIR, RenderDurableDispatcher(DURABLE_STARTUP_DIR)) && AllOutside(site, init)
    requires |RegistryOf(calls)| < INT64_LIMIT && Within999(RegistryOf(calls))
    ensures var order, plan := RegistrationOrder(RegistryOf(calls)), Planned(calls);
      |order| == |plan| && GoesThrough(site, order, plan, DispatcherRun(site, AfterCalls(site, init, calls), at, sys), at, sys)
  {
    var order, files := RegistrationOrder(RegistryOf(calls)), AfterCalls(site, init, calls);
    OptionsRunInOrder(site, init, calls);
    PlanAligned(site, init, calls);
    RunGoesThrough(site, files, order, Planned(calls), at, sys);
    if RegistryOf(calls) != [] {
      OptionsDispatcherStarts(site, init, calls, at.role);
    } else {
      NothingPlanned(site, files, order, at, sys);
    }
  }

  /** Without a place to come to there is nothing to start. */
  lemma NothingPlanned(site: Site, files: seq<File>, order: Run, at: Session, sys: System)
    requires order == DispatchOrder(site, files) == []
    ensures DispatcherRun(site, files, at, sys) == []
  {
  }

  lemma OptionsDispatcherStarts(site: Site, init: seq<File>, calls: seq<Call>, role: Role)
    requires site == Site(DURABLE_STARTUP_DIR, RenderDurableDispatcher(DURABLE_STARTUP_DIR)) && AllOutside(site, init)
    requires |RegistryOf(calls)| < INT64_LIMIT && RegistryOf(calls) != []
    ensures DispatcherStarts(site, AfterCalls(site, init, calls), role)
  {
    StartupDirIsClean();
    RunsFollowRegistry(site, init, calls);
    RegistryValid(calls);
    DispatcherIsThere(site, init, RegistryOf(calls), FirstSize(calls));
    RightMode(site.Dispatcher());
  }
}
