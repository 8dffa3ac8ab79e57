/**
 * container/wait/all.go: the tree of wait strategies run in order under nested deadlines.  Time
 * is a number that only waiting moves on; a target answers each wait with an outcome that may
 * depend on everything run so far.
 */
module WaitAll {
  import opened Results
  import opened WaitTree

  // ---------- Contexts ----------

  function Earlier(a: Option<int>, b: int): Option<int>
  {
    if a.Some? && a.value <= b then a else Some(b)
  }

  /** context.Context, as far as deadlines and cancellation go. */
  class Context {
    const deadline: Option<int>
    const ancestors: seq<Context>
    var cancelled: bool

    constructor Root(deadline: Option<int>)
      ensures this.deadline == deadline && ancestors == [] && !cancelled
    {
      this.deadline, ancestors, cancelled := deadline, [], false;
    }

    /** context.WithTimeout(parent, d) at time `now`. */
    constructor WithTimeout(parent: Context, now: int, d: int)
      ensures deadline == Earlier(parent.deadline, now + d)
      ensures ancestors == parent.ancestors + [parent] && !cancelled
    {
      deadline, ancestors, cancelled := Earlier(parent.deadline, now + d), parent.ancestors + [parent], false;
    }

    /** Neither this context nor one it was derived from has been cancelled. */
    predicate Live()
      reads this, ancestors
    {
      !cancelled && forall c :: c in ancestors ==> !c.cancelled
    }
  }

  /** One call of WaitUntilReady on a strategy other than a MultiStrategy. */
  datatype LeafRun = LeafRun(leaf: LeafStrategy, deadline: Option<int>, start: int, live: bool)

  datatype Outcome = Outcome(ok: bool, duration: nat)

  type Target = (LeafStrategy, Option<int>, seq<LeafRun>) -> Outcome

  datatype WaitError = NoError | NoStrategies | LeafFailed(leaf: LeafStrategy)

  // ---------- The wait as a function ----------

  datatype Waited = Waited(err: WaitError, now: int, runs: seq<LeafRun>)

  /** The earliest of a list of bounds, each contributed by the caller or by one ancestor. */
  function MinOf(bounds: seq<int>): Option<int>
  {
    if bounds == [] then None else Earlier(MinOf(bounds[..|bounds| - 1]), bounds[|bounds| - 1])
  }

  function Bound(bounds: seq<int>, now: int, d: Option<int>): seq<int>
  {
    if d.None? then bounds else bounds + [now + d.value]
  }

  /** A nil strategy, or a nil pointer inside the interface. */
  predicate Skipped(t: Tree)
  {
    t.NilTree? || (t.LeafTree? && t.leaf.typedNil)
  }

  /** The strategy implements StrategyTimeout but has no timeout of its own. */
  predicate TakesDefault(t: Tree)
  {
    match t
    case NilTree => false
    case LeafTree(leaf) => leaf.timeouts == Timed(None)
    case Node(node, _) => node.timeout == None
  }

  /** The bounds of one of a list of strategies, started now: the default timeout counts exactly if it takes it. */
  function KidBounds(kid: Tree, timeout: Option<int>, bounds: seq<int>, now: int): seq<int>
  {
    Bound(bounds, now, if TakesDefault(kid) then timeout else None)
  }

  function WaitOn(t: Tree, bounds: seq<int>, now: int, runs: seq<LeafRun>, target: Target): Waited
    requires !Skipped(t)
  {
    match t
    case LeafTree(leaf) =>
      var o := target(leaf, MinOf(bounds), runs);
      Waited(if o.ok then NoError else LeafFailed(leaf), now + o.duration,
             runs + [LeafRun(leaf, MinOf(bounds), now, true)])
    case Node(node, kids) =>
      if kids == [] then Waited(NoStrategies, now, runs)
      else WaitKids(kids, node.timeout, Bound(bounds, now, node.deadline), now, runs, target)
  }

  function WaitKids(kids: seq<Tree>, timeout: Option<int>, bounds: seq<int>, now: int, runs: seq<LeafRun>, target: Target): Waited
  {
    if kids == [] then Waited(NoError, now, runs)
    else if Skipped(kids[0]) then WaitKids(kids[1..], timeout, bounds, now, runs, target)
    else
      var w := WaitOn(kids[0], KidBounds(kids[0], timeout, bounds, now), now, runs, target);
      if w.err != NoError then w else WaitKids(kids[1..], timeout, bounds, w.now, w.runs, target)
  }

  // ---------- The wait as the code does it ----------

  class World {
    var now: int
    var runs: seq<LeafRun>
    var derived: seq<Context>

    constructor (now: int)
      ensures this.now == now && runs == [] && derived == []
    {
      this.now, runs, derived := now, [], [];
    }

    /** context.WithTimeout, noting the context so that it can be checked on return. */
    method Derive(parent: Context, d: int) returns (ctx: Context)
      modifies this`derived
      ensures fresh(ctx) && ctx.deadline == Earlier(parent.deadline, now + d)
      ensures ctx.ancestors == parent.ancestors + [parent] && !ctx.cancelled
      ensures parent.Live() ==> ctx.Live()
      ensures derived == old(derived) + [ctx]
    {
      ctx := new Context.WithTimeout(parent, now, d);
      derived := derived + [ctx];
    }

    /** WaitUntilReady of a strategy that is not a MultiStrategy. */
    method RunLeaf(leaf: LeafStrategy, ctx: Context, target: Target) returns (err: WaitError)
      requires ctx.Live()
      modifies this`now, this`runs
      ensures runs == old(runs) + [LeafRun(leaf, ctx.deadline, old(now), true)]
      ensures var o := target(leaf, ctx.deadline, old(runs));
        now == old(now) + o.duration && err == if o.ok then NoError else LeafFailed(leaf)
    {
      var o := target(leaf, ctx.deadline, runs);
      runs := runs + [LeafRun(leaf, ctx.deadline, now, ctx.Live())];
      now := now + o.duration;
      err := if o.ok then NoError else LeafFailed(leaf);
    }

    /** Every context derived from position `from` on is cancelled, but for those listed. */
    ghost predicate CancelledFrom(from: nat, except: seq<Context>)
      reads this`derived, derived
    {
      from <= |derived| && forall i :: from <= i < |derived| ==> derived[i].cancelled || derived[i] in except
    }
  }

  /** The deferred cancel functions, run on return. */
  method CancelAll(deferred: seq<Context>)
    modifies deferred
    ensures forall c :: c in deferred ==> c.cancelled
  {
    for i := 0 to |deferred|
      invariant forall j :: 0 <= j < i ==> deferred[j].cancelled
    {
      deferred[i].cancelled := true;
    }
  }

  /** WaitUntilReady on any strategy that is not skipped. */
  method WaitUntilReady(s: Strategy, ctx: Context, world: World, target: Target, ghost t: Tree, ghost bounds: seq<int>)
    returns (err: WaitError)
    requires Represents(s, t) && !Skipped(t) && ctx.Live() && ctx.deadline == MinOf(bounds)
    modifies world
    ensures Waited(err, world.now, world.runs) == WaitOn(t, bounds, old(world.now), old(world.runs), target)
    ensures world.CancelledFrom(|old(world.derived)|, []) && old(world.derived) <= world.derived
    ensures forall i :: |old(world.derived)| <= i < |world.derived| ==> fresh(world.derived[i])
    decreases t, 1
  {
    if s.Leaf? {
      err := world.RunLeaf(s.leaf, ctx, target);
    } else {
      err := WaitMulti(s.node, ctx, world, target, t, bounds);
    }
  }

  lemma MinOfSnoc(bounds: seq<int>, b: int)
    ensures MinOf(bounds + [b]) == Earlier(MinOf(bounds), b)
  {
    var all := bounds + [b];
    assert all[..|all| - 1] == bounds && all[|all| - 1] == b;
  }

  lemma MinOfBound(bounds: seq<int>, now: int, d: Option<int>)
    ensures MinOf(Bound(bounds, now, d)) == if d.Some? then Earlier(MinOf(bounds), now + d.value) else MinOf(bounds)
  {
    if d.Some? {
      MinOfSnoc(bounds, now + d.value);
    }
  }

  /** The context a MultiStrategy waits under, and the cancel functions to run on return. */
  method WithDeadline(ms: MultiStrategy, ctx: Context, world: World, ghost bounds: seq<int>)
    returns (inner: Context, deferred: seq<Context>)
    requires ctx.Live() && ctx.deadline == MinOf(bounds)
    modifies world`derived
    ensures inner.Live() && inner.deadline == MinOf(Bound(bounds, world.now, ms.deadline))
    ensures world.CancelledFrom(|old(world.derived)|, deferred) && old(world.derived) <= world.derived
    ensures forall i :: |old(world.derived)| <= i < |world.derived| ==> fresh(world.derived[i])
    ensures forall i :: 0 <= i < |deferred| ==> fresh(deferred[i])
  {
    inner, deferred := ctx, [];
    MinOfBound(bounds, world.now, ms.deadline);
    if ms.deadline.Some? {
      inner := world.Derive(ctx, ms.deadline.value);
      deferred := [inner];
    }
  }

  /** MultiStrategy.WaitUntilReady. */
  method WaitMulti(ms: MultiStrategy, ctx: Context, world: World, target: Target, ghost t: Tree, ghost bounds: seq<int>)
    returns (err: WaitError)
    requires t.Node? && Represents(Multi(ms), t) && ctx.Live() && ctx.deadline == MinOf(bounds)
    modifies world
    ensures Waited(err, world.now, world.runs) == WaitOn(t, bounds, old(world.now), old(world.runs), target)
    ensures world.CancelledFrom(|old(world.derived)|, []) && old(world.derived) <= world.derived
    ensures forall i :: |old(world.derived)| <= i < |world.derived| ==> fresh(world.derived[i])
    decreases t, 0
  {
    NodesAllocated([t]);
    assert NodesOf([t]) == Nodes(t);
    var inner, deferred := WithDeadline(ms, ctx, world, bounds);
    if |ms.strategies| == 0 {
      CancelAll(deferred);
      return NoStrategies;
    }
    ghost var b, pending := Bound(bounds, old(world.now), ms.deadline), deferred;
    assert forall c :: c in pending ==> fresh(c);
    err, deferred := WaitStrategies(ms, inner, world, target, t.kids, b, deferred, |old(world.derived)|);
    assert forall i :: 0 <= i < |deferred| ==> fresh(deferred[i]);
    CancelAll(deferred);
  }

  lemma {:induction false} RepresentsAt(ss: seq<Strategy>, kids: seq<Tree>, i: nat)
    requires RepresentsAll(ss, kids) && i < |kids|
    ensures Represents(ss[i], kids[i])
    decreases i
  {
    if i > 0 {
      RepresentsAt(ss[1..], kids[1..], i - 1);
    }
  }

  lemma WaitKidsFrom(kids: seq<Tree>, timeout: Option<int>, bounds: seq<int>, now: int, runs: seq<LeafRun>, target: Target, i: nat)
    requires i < |kids|
    ensures WaitKids(kids[i..], timeout, bounds, now, runs, target) ==
      if Skipped(kids[i]) then WaitKids(kids[i + 1..], timeout, bounds, now, runs, target)
      else
        var w := WaitOn(kids[i], KidBounds(kids[i], timeout, bounds, now), now, runs, target);
        if w.err != NoError then w else WaitKids(kids[i + 1..], timeout, bounds, w.now, w.runs, target)
  {
    assert kids[i..][0] == kids[i] && kids[i..][1..] == kids[i + 1..];
  }

  /** The loop over the strategies; `deferred` collects the cancel functions to run on return. */
  method WaitStrategies(ms: MultiStrategy, ctx: Context, world: World, target: Target,
                        ghost kids: seq<Tree>, ghost bounds: seq<int>, pending: seq<Context>, ghost from: nat)
    returns (err: WaitError, deferred: seq<Context>)
    requires RepresentsAll(ms.strategies, kids) && ctx.Live() && ctx.deadline == MinOf(bounds)
    requires world.CancelledFrom(from, pending)
    modifies world
    ensures Waited(err, world.now, world.runs) == WaitKids(kids, ms.timeout, bounds, old(world.now), old(world.runs), target)
    ensures world.CancelledFrom(from, deferred) && old(world.derived) <= world.derived
    ensures forall i :: |old(world.derived)| <= i < |world.derived| ==> fresh(world.derived[i])
    ensures forall i :: 0 <= i < |deferred| ==> deferred[i] in pending || fresh(deferred[i])
    decreases kids, 1
  {
    err, deferred := NoError, pending;
    ghost var strategies := ms.strategies;
    for i := 0 to |ms.strategies|
      invariant ms.strategies == strategies && RepresentsAll(strategies, kids)
      invariant ctx.Live() && err == NoError
      invariant WaitKids(kids[i..], ms.timeout, bounds, world.now, world.runs, target)
             == WaitKids(kids, ms.timeout, bounds, old(world.now), old(world.runs), target)
      invariant world.CancelledFrom(from, deferred) && old(world.derived) <= world.derived
      invariant forall j :: |old(world.derived)| <= j < |world.derived| ==> fresh(world.derived[j])
      invariant forall c :: c in deferred ==> c in pending || fresh(c)
    {
      var strategy := ms.strategies[i];
      RepresentsAt(strategies, kids, i);
      NodesAllocated(kids);
      WaitKidsFrom(kids, ms.timeout, bounds, world.now, world.runs, target, i);
      if strategy == NilStrategy || (strategy.Leaf? && strategy.leaf.typedNil) {
        continue;
      }
      err, deferred := WaitOne(ms, strategy, ctx, world, target, kids[i], bounds, deferred, from);
      if err != NoError {
        return;
      }
    }
  }

  /** The strategy implements StrategyTimeout and has no timeout. */
  predicate WantsDefault(s: Strategy)
  {
    (s.Leaf? && s.leaf.timeouts == Timed(None)) || (s.Multi? && s.node.timeout == None)
  }

  /** One strategy: under the default timeout if it wants it, else under the context as it is. */
  method WaitOne(ms: MultiStrategy, strategy: Strategy, ctx: Context, world: World, target: Target,
                 ghost kid: Tree, ghost bounds: seq<int>, pending: seq<Context>, ghost from: nat)
    returns (err: WaitError, deferred: seq<Context>)
    requires Represents(strategy, kid) && !Skipped(kid) && ctx.Live() && ctx.deadline == MinOf(bounds)
    requires world.CancelledFrom(from, pending)
    modifies world
    ensures var b := KidBounds(kid, ms.timeout, bounds, old(world.now));
      Waited(err, world.now, world.runs) == WaitOn(kid, b, old(world.now), old(world.runs), target)
    ensures world.CancelledFrom(from, deferred) && old(world.derived) <= world.derived
    ensures forall i :: |old(world.derived)| <= i < |world.derived| ==> fresh(world.derived[i])
    ensures pending <= deferred && forall c :: c in deferred ==> c in pending || fresh(c)
    decreases kid, 2
  {
    NodesAllocated([kid]);
    assert NodesOf([kid]) == Nodes(kid);
    var strategyCtx := ctx;
    deferred := pending;
    if ms.timeout.Some? && WantsDefault(strategy) {
      strategyCtx := world.Derive(ctx, ms.timeout.value);
      deferred := deferred + [strategyCtx];
    }
    ghost var d := if TakesDefault(kid) then ms.timeout else None;
    ghost var b := Bound(bounds, world.now, d);
    MinOfBound(bounds, world.now, d);
    err := WaitUntilReady(strategy, strategyCtx, world, target, kid, b);
  }

  // ---------- What runs, and in which order ----------

  /** The strategies other than MultiStrategies that a wait can come to, left to right. */
  function Leaves(t: Tree): seq<LeafStrategy>
  {
    match t
    case NilTree => []
    case LeafTree(leaf) => if leaf.typedNil then [] else [leaf]
    case Node(_, kids) => LeavesOf(kids)
  }

  function LeavesOf(kids: seq<Tree>): seq<LeafStrategy>
  {
    if kids == [] then [] else Leaves(kids[0]) + LeavesOf(kids[1..])
  }

  function RunLeaves(runs: seq<LeafRun>): seq<LeafStrategy>
  {
    seq(|runs|, i requires 0 <= i < |runs| => runs[i].leaf)
  }

  predicate Succeeded(runs: seq<LeafRun>, j: nat, target: Target)
    requires j < |runs|
  {
    target(runs[j].leaf, runs[j].deadline, runs[..j]).ok
  }

  /** `runs'` continues `runs` by some of `leaves` in order: all of them if nothing failed. */
  ghost predicate InOrder(runs: seq<LeafRun>, w: Waited, leaves: seq<LeafStrategy>)
  {
    && runs <= w.runs
    && RunLeaves(w.runs) <= RunLeaves(runs) + leaves
    && (w.err == NoError ==> RunLeaves(w.runs) == RunLeaves(runs) + leaves)
  }

  /** Everything run from position `from` on succeeded, but for a last run that is the reported failure. */
  ghost predicate FailsLast(from: nat, w: Waited, target: Target)
  {
    && from <= |w.runs|
    && (forall j :: from <= j < |w.runs| ==>
         (Succeeded(w.runs, j, target) <==> !(w.err.LeafFailed? && j == |w.runs| - 1)))
    && (w.err.LeafFailed? ==> from < |w.runs| && w.runs[|w.runs| - 1].leaf == w.err.leaf)
  }

  lemma InOrderThen(runs: seq<LeafRun>, w: Waited, leaves: seq<LeafStrategy>, w': Waited, more: seq<LeafStrategy>)
    requires InOrder(runs, w, leaves) && w.err == NoError && InOrder(w.runs, w', more)
    ensures InOrder(runs, w', leaves + more)
  {
    assert RunLeaves(runs) + (leaves + more) == (RunLeaves(runs) + leaves) + more;
  }

  lemma InOrderStops(runs: seq<LeafRun>, w: Waited, leaves: seq<LeafStrategy>, more: seq<LeafStrategy>)
    requires InOrder(runs, w, leaves) && w.err != NoError
    ensures InOrder(runs, w, leaves + more)
  {
    assert RunLeaves(runs) + (leaves + more) == (RunLeaves(runs) + leaves) + more;
  }

  /**
   * The leaves run left to right, none twice, none skipped, none after a failure; success means
   * every leaf was run and succeeded.
   */
  lemma {:induction false} WaitRunsInOrder(t: Tree, bounds: seq<int>, now: int, runs: seq<LeafRun>, target: Target)
    requires !Skipped(t)
    ensures var w := WaitOn(t, bounds, now, runs, target); InOrder(runs, w, Leaves(t)) && FailsLast(|runs|, w, target)
    decreases t, 0
  {
    var w := WaitOn(t, bounds, now, runs, target);
    match t
    case LeafTree(leaf) =>
      assert w.runs[..|runs|] == runs;
      assert RunLeaves(w.runs) == RunLeaves(runs) + [leaf];
    case Node(node, kids) =>
      if kids == [] {
        assert RunLeaves(runs) + [] == RunLeaves(runs);
      } else {
        KidsRunInOrder(kids, node.timeout, Bound(bounds, now, node.deadline), now, runs, target);
      }
  }

  lemma {:induction false} KidsRunInOrder(kids: seq<Tree>, timeout: Option<int>, bounds: seq<int>, now: int, runs: seq<LeafRun>, target: Target)
    ensures var w := WaitKids(kids, timeout, bounds, now, runs, target);
      InOrder(runs, w, LeavesOf(kids)) && FailsLast(|runs|, w, target)
    decreases kids, 1
  {
    if kids == [] {
      assert RunLeaves(runs) + [] == RunLeaves(runs);
    } else if Skipped(kids[0]) {
      KidsRunInOrder(kids[1..], timeout, bounds, now, runs, target);
      assert [] + LeavesOf(kids[1..]) == LeavesOf(kids[1..]);
    } else {
      var b := KidBounds(kids[0], timeout, bounds, now);
      var w := WaitOn(kids[0], b, now, runs, target);
      WaitRunsInOrder(kids[0], b, now, runs, target);
      if w.err == NoError {
        var w' := WaitKids(kids[1..], timeout, bounds, w.now, w.runs, target);
        KidsRunInOrder(kids[1..], timeout, bounds, w.now, w.runs, target);
        InOrderThen(runs, w, Leaves(kids[0]), w', LeavesOf(kids[1..]));
        KeepsSuccess(|runs|, w, w', target);
      } else {
        InOrderStops(runs, w, Leaves(kids[0]), LeavesOf(kids[1..]));
      }
    }
  }

  lemma KeepsSuccess(from: nat, w: Waited, w': Waited, target: Target)
    requires FailsLast(from, w, target) && w.err == NoError && w.runs <= w'.runs && FailsLast(|w.runs|, w', target)
    ensures FailsLast(from, w', target)
  {
    forall j | from <= j < |w.runs|
      ensures Succeeded(w'.runs, j, target)
    {
      assert Succeeded(w.runs, j, target);
      assert w'.runs[..j] == w.runs[..j];
    }
  }

  // ---------- Deadlines ----------

  /** `d` is no later than `bound`. */
  predicate Tighter(d: Option<int>, bound: Option<int>)
  {
    bound.Some? ==> d.Some? && d.value <= bound.value
  }

  lemma BoundTightens(bounds: seq<int>, now: int, d: Option<int>)
    ensures var b := Bound(bounds, now, d);
      Tighter(MinOf(b), MinOf(bounds)) && (d.Some? ==> Tighter(MinOf(b), Some(now + d.value)))
  {
    MinOfBound(bounds, now, d);
  }

  /** The deadline that a list of bounds stands for is its minimum, and none if there is no bound. */
  lemma {:induction false} MinOfIsMinimum(bounds: seq<int>)
    ensures bounds == [] <==> MinOf(bounds).None?
    ensures bounds != [] ==> MinOf(bounds).value in bounds && forall b :: b in bounds ==> MinOf(bounds).value <= b
    decreases |bounds|
  {
    if bounds != [] {
      var last := |bounds| - 1;
      MinOfIsMinimum(bounds[..last]);
      assert bounds == bounds[..last] + [bounds[last]];
    }
  }

  /**
   * `r` is a run of a leaf of `t` with exactly the deadline it has there, when the wait for `t`
   * starts at `now`, after `runs`, under `bounds`: a leaf runs at once, under the minimum of the
   * bounds; a MultiStrategy adds its own deadline to the bounds, counted from now, and then waits
   * for one of its strategies, from the instant at which those before it have all succeeded.
   */
  ghost predicate RunsUnder(t: Tree, bounds: seq<int>, now: int, runs: seq<LeafRun>, target: Target, r: LeafRun)
    decreases t, 0
  {
    match t
    case NilTree => false
    case LeafTree(leaf) => r == LeafRun(leaf, MinOf(bounds), now, true)
    case Node(node, kids) => RunsInside(kids, node.timeout, Bound(bounds, now, node.deadline), now, runs, target, r)
  }

  ghost predicate RunsInside(kids: seq<Tree>, timeout: Option<int>, bounds: seq<int>, now: int, runs: seq<LeafRun>, target: Target, r: LeafRun)
    decreases kids, 1
  {
    exists i: nat :: RunsInKid(kids, timeout, bounds, now, runs, target, i, r)
  }

  ghost predicate RunsInKid(kids: seq<Tree>, timeout: Option<int>, bounds: seq<int>, now: int, runs: seq<LeafRun>, target: Target,
                            i: nat, r: LeafRun)
    decreases kids, 0
  {
    && i < |kids| && !Skipped(kids[i])
    && var w := WaitKids(kids[..i], timeout, bounds, now, runs, target);
      w.err == NoError && RunsUnder(kids[i], KidBounds(kids[i], timeout, bounds, w.now), w.now, w.runs, target, r)
  }

  lemma RunsInSome(kids: seq<Tree>, timeout: Option<int>, bounds: seq<int>, now: int, runs: seq<LeafRun>, target: Target, r: LeafRun)
    returns (i: nat)
    requires RunsInside(kids, timeout, bounds, now, runs, target, r)
    ensures RunsInKid(kids, timeout, bounds, now, runs, target, i, r)
  {
    i :| RunsInKid(kids, timeout, bounds, now, runs, target, i, r);
  }

  /** The wait for the first of a list of strategies. */
  function WaitFirst(kids: seq<Tree>, timeout: Option<int>, bounds: seq<int>, now: int, runs: seq<LeafRun>, target: Target): Waited
    requires kids != []
  {
    if Skipped(kids[0]) then Waited(NoError, now, runs)
    else WaitOn(kids[0], KidBounds(kids[0], timeout, bounds, now), now, runs, target)
  }

  /** What runs for a later strategy runs for it in the rest of the list, if the first one succeeds. */
  lemma RunsInRest(kids: seq<Tree>, timeout: Option<int>, bounds: seq<int>, now: int, runs: seq<LeafRun>, target: Target,
                   i: nat, r: LeafRun)
    requires kids != []
    ensures var w := WaitFirst(kids, timeout, bounds, now, runs, target);
      RunsInKid(kids, timeout, bounds, now, runs, target, i + 1, r)
      <==> w.err == NoError && RunsInKid(kids[1..], timeout, bounds, w.now, w.runs, target, i, r)
  {
    if i + 1 < |kids| {
      assert kids[..i + 1][1..] == kids[1..][..i];
      assert kids[1..][i] == kids[i + 1];
    }
  }

  /** A strategy runs inside a list if it runs for the first one, or else inside the rest. */
  lemma RunsFirstOrRest(kids: seq<Tree>, timeout: Option<int>, bounds: seq<int>, now: int, runs: seq<LeafRun>, target: Target, r: LeafRun)
    requires kids != []
    ensures var w := WaitFirst(kids, timeout, bounds, now, runs, target);
      RunsInside(kids, timeout, bounds, now, runs, target, r)
      <==> RunsInKid(kids, timeout, bounds, now, runs, target, 0, r)
           || (w.err == NoError && RunsInside(kids[1..], timeout, bounds, w.now, w.runs, target, r))
  {
    var w := WaitFirst(kids, timeout, bounds, now, runs, target);
    if RunsInside(kids, timeout, bounds, now, runs, target, r) {
      var i := RunsInSome(kids, timeout, bounds, now, runs, target, r);
      if i > 0 {
        RunsInRest(kids, timeout, bounds, now, runs, target, i - 1, r);
      }
    }
    if RunsInside(kids[1..], timeout, bounds, w.now, w.runs, target, r) {
      var i := RunsInSome(kids[1..], timeout, bounds, w.now, w.runs, target, r);
      RunsInRest(kids, timeout, bounds, now, runs, target, i, r);
    }
  }

  /** The runs of a wait are exactly those whose deadline and start their place in the tree gives them. */
  lemma {:induction false} DeadlinesAreExact(t: Tree, bounds: seq<int>, now: int, runs: seq<LeafRun>, target: Target, r: LeafRun)
    requires !Skipped(t)
    ensures var w := WaitOn(t, bounds, now, runs, target);
      && runs <= w.runs && now <= w.now
      && (RunsUnder(t, bounds, now, runs, target, r) <==> r in w.runs[|runs|..])
    decreases t, 0
  {
    if t.Node? {
      KidsDeadlinesAreExact(t.kids, t.node.timeout, Bound(bounds, now, t.node.deadline), now, runs, target, r);
    }
  }

  lemma {:induction false} KidsDeadlinesAreExact(kids: seq<Tree>, timeout: Option<int>, bounds: seq<int>, now: int, runs: seq<LeafRun>,
                                                 target: Target, r: LeafRun)
    ensures var w := WaitKids(kids, timeout, bounds, now, runs, target);
      && runs <= w.runs && now <= w.now
      && (RunsInside(kids, timeout, bounds, now, runs, target, r) <==> r in w.runs[|runs|..])
    decreases kids, 1
  {
    if kids != [] {
      if !Skipped(kids[0]) {
        DeadlinesAreExact(kids[0], KidBounds(kids[0], timeout, bounds, now), now, runs, target, r);
      }
      var first := WaitFirst(kids, timeout, bounds, now, runs, target);
      KidsDeadlinesAreExact(kids[1..], timeout, bounds, first.now, first.runs, target, r);
      RunsFirstOrRest(kids, timeout, bounds, now, runs, target, r);
      assert kids[..0] == [];
      var w := WaitKids(kids, timeout, bounds, now, runs, target);
      assert w.runs[|runs|..] == first.runs[|runs|..] + w.runs[|first.runs|..];
    }
  }

  /** A place in the tree never gives more time than the bounds it is under. */
  lemma {:induction false} PlaceTightens(t: Tree, bounds: seq<int>, now: int, runs: seq<LeafRun>, target: Target, r: LeafRun)
    requires RunsUnder(t, bounds, now, runs, target, r)
    ensures Tighter(r.deadline, MinOf(bounds)) && now <= r.start
    ensures t.Node? && t.node.deadline.Some? ==> Tighter(r.deadline, Some(now + t.node.deadline.value))
    decreases t
  {
    if t.Node? {
      var b := Bound(bounds, now, t.node.deadline);
      var i := RunsInSome(t.kids, t.node.timeout, b, now, runs, target, r);
      KidsDeadlinesAreExact(t.kids[..i], t.node.timeout, b, now, runs, target, r);
      var w := WaitKids(t.kids[..i], t.node.timeout, b, now, runs, target);
      PlaceTightens(t.kids[i], KidBounds(t.kids[i], t.node.timeout, b, w.now), w.now, w.runs, target, r);
      BoundTightens(b, w.now, if TakesDefault(t.kids[i]) then t.node.timeout else None);
      BoundTightens(bounds, now, t.node.deadline);
    }
  }

  /** No leaf gets a later deadline than the caller's or than that of the MultiStrategy waited for. */
  lemma DeadlinesTighten(t: Tree, bounds: seq<int>, now: int, runs: seq<LeafRun>, target: Target)
    requires !Skipped(t)
    ensures var w := WaitOn(t, bounds, now, runs, target);
      forall j :: |runs| <= j < |w.runs| ==>
        && Tighter(w.runs[j].deadline, MinOf(bounds))
        && (t.Node? && t.node.deadline.Some? ==> Tighter(w.runs[j].deadline, Some(now + t.node.deadline.value)))
  {
    var w := WaitOn(t, bounds, now, runs, target);
    forall j | |runs| <= j < |w.runs|
      ensures Tighter(w.runs[j].deadline, MinOf(bounds))
      ensures t.Node? && t.node.deadline.Some? ==> Tighter(w.runs[j].deadline, Some(now + t.node.deadline.value))
    {
      DeadlinesAreExact(t, bounds, now, runs, target, w.runs[j]);
      assert w.runs[|runs|..][j - |runs|] == w.runs[j];
      PlaceTightens(t, bounds, now, runs, target, w.runs[j]);
    }
  }

  /**
   * The default timeout, counted from the start of a strategy, bounds it exactly if it could have a
   * timeout and has none: a leaf by itself, and a MultiStrategy in everything that runs inside it.
   */
  ghost predicate DefaultApplied(kid: Tree, timeout: Option<int>, bounds: seq<int>, w: Waited, target: Target, r: LeafRun)
  {
    var lacksTimeout := (kid.LeafTree? && kid.leaf.timeouts == Timed(None)) || (kid.Node? && kid.node.timeout == None);
    var b := if timeout.Some? && lacksTimeout then bounds + [w.now + timeout.value] else bounds;
    && w.now <= r.start && Tighter(r.deadline, MinOf(b))
    && (kid.LeafTree? ==> r == LeafRun(kid.leaf, MinOf(b), w.now, true))
    && (kid.Node? ==> RunsInside(kid.kids, kid.node.timeout, Bound(b, w.now, kid.node.deadline), w.now, w.runs, target, r))
  }

  lemma DefaultApplies(kid: Tree, timeout: Option<int>, bounds: seq<int>, w: Waited, target: Target, r: LeafRun)
    requires RunsUnder(kid, KidBounds(kid, timeout, bounds, w.now), w.now, w.runs, target, r)
    ensures DefaultApplied(kid, timeout, bounds, w, target, r)
  {
    PlaceTightens(kid, KidBounds(kid, timeout, bounds, w.now), w.now, w.runs, target, r);
  }

  /**
   * Whatever is run by a list of strategies: the one of them it was run for bounds it by the default
   * timeout, counted from when those before it had succeeded, exactly if it could have a timeout and
   * has none.
   */
  lemma DefaultTimeoutReaches(kids: seq<Tree>, timeout: Option<int>, bounds: seq<int>, now: int, runs: seq<LeafRun>, target: Target, j: nat)
    returns (i: nat)
    requires |runs| <= j < |WaitKids(kids, timeout, bounds, now, runs, target).runs|
    ensures i < |kids| && !Skipped(kids[i])
    ensures var w := WaitKids(kids[..i], timeout, bounds, now, runs, target);
      && w.err == NoError
      && DefaultApplied(kids[i], timeout, bounds, w, target, WaitKids(kids, timeout, bounds, now, runs, target).runs[j])
  {
    var all := WaitKids(kids, timeout, bounds, now, runs, target).runs;
    KidsDeadlinesAreExact(kids, timeout, bounds, now, runs, target, all[j]);
    assert all[|runs|..][j - |runs|] == all[j];
    i := RunsInSome(kids, timeout, bounds, now, runs, target, all[j]);
    DefaultApplies(kids[i], timeout, bounds, WaitKids(kids[..i], timeout, bounds, now, runs, target), target, all[j]);
  }

  // ---------- Empty multi-strategies ----------

  /** Every MultiStrategy has a strategy, be it a nil one. */
  predicate NoneEmpty(t: Tree)
  {
    t.Node? ==> t.kids != [] && NoneEmptyAll(t.kids)
  }

  predicate NoneEmptyAll(kids: seq<Tree>)
  {
    kids != [] ==> NoneEmpty(kids[0]) && NoneEmptyAll(kids[1..])
  }

  /** A wait that succeeds has met no empty MultiStrategy, and one that complains has met one. */
  lemma {:induction false} EmptyFails(t: Tree, bounds: seq<int>, now: int, runs: seq<LeafRun>, target: Target)
    requires !Skipped(t)
    ensures var err := WaitOn(t, bounds, now, runs, target).err;
      (err == NoError ==> NoneEmpty(t)) && (err == NoStrategies ==> !NoneEmpty(t))
    decreases t, 0
  {
    if t.Node? && t.kids != [] {
      EmptyKidsFail(t.kids, t.node.timeout, Bound(bounds, now, t.node.deadline), now, runs, target);
    }
  }

  lemma {:induction false} EmptyKidsFail(kids: seq<Tree>, timeout: Option<int>, bounds: seq<int>, now: int, runs: seq<LeafRun>, target: Target)
    ensures var err := WaitKids(kids, timeout, bounds, now, runs, target).err;
      (err == NoError ==> NoneEmptyAll(kids)) && (err == NoStrategies ==> !NoneEmptyAll(kids))
    decreases kids, 1
  {
    if kids != [] {
      if Skipped(kids[0]) {
        EmptyKidsFail(kids[1..], timeout, bounds, now, runs, target);
      } else {
        var b := KidBounds(kids[0], timeout, bounds, now);
        var w := WaitOn(kids[0], b, now, runs, target);
        EmptyFails(kids[0], b, now, runs, target);
        EmptyKidsFail(kids[1..], timeout, bounds, w.now, w.runs, target);
      }
    }
  }

  // ---------- Walk, then wait ----------

  /** The visitor that removes the leaves in `gone` and visits everything. */
  function Remover(gone: set<LeafStrategy>): Visitor
  {
    (trace: seq<Label>) =>
      if trace != [] && trace[|trace| - 1].LeafLabel? && trace[|trace| - 1].leaf in gone then Fail(true, false, 0)
      else Proceed
  }

  function Surviving(leaves: seq<LeafStrategy>, gone: set<LeafStrategy>): seq<LeafStrategy>
  {
    if leaves == [] then []
    else (if leaves[0] in gone then [] else [leaves[0]]) + Surviving(leaves[1..], gone)
  }

  lemma {:induction false} SurvivingAppend(a: seq<LeafStrategy>, b: seq<LeafStrategy>, gone: set<LeafStrategy>)
    ensures Surviving(a + b, gone) == Surviving(a, gone) + Surviving(b, gone)
    decreases |a|
  {
    if a == [] {
      assert a + b == b;
    } else {
      assert (a + b)[1..] == a[1..] + b;
      SurvivingAppend(a[1..], b, gone);
    }
  }

  lemma {:induction false} RemoverKeepsRest(t: Tree, trace: seq<Label>, gone: set<LeafStrategy>)
    ensures var w := WalkTree(t, trace, Remover(gone));
      && Leaves(w.tree) == Surviving(Leaves(t), gone)
      && (w.err == Proceed || (w.err == Fail(true, false, 0) && t.LeafTree?))
    decreases t, 0
  {
    match t
    case Node(node, kids) => RemoverKeepsRestOf(kids, trace + [LabelOf(t)], gone);
    case _ =>
  }

  lemma {:induction false} RemoverKeepsRestOf(kids: seq<Tree>, trace: seq<Label>, gone: set<LeafStrategy>)
    ensures var w := WalkKids(kids, trace, Remover(gone));
      LeavesOf(w.kids) == Surviving(LeavesOf(kids), gone) && w.err == Proceed
    decreases kids, 1
  {
    if kids != [] {
      var w := WalkTree(kids[0], trace, Remover(gone));
      var r := WalkKids(kids[1..], w.trace, Remover(gone));
      RemoverKeepsRest(kids[0], trace, gone);
      RemoverKeepsRestOf(kids[1..], w.trace, gone);
      SurvivingAppend(Leaves(kids[0]), LeavesOf(kids[1..]), gone);
      assert ([w.tree] + r.kids)[1..] == r.kids;
    }
  }

  /**
   * Prune a set of leaves, then wait: the surviving leaves run left to right, and if all of them
   * succeed the wait does too, unless the pruning has emptied a MultiStrategy.
   */
  lemma WalkThenWait(t: Tree, gone: set<LeafStrategy>, bounds: seq<int>, now: int, target: Target)
    requires var t' := WalkTree(t, [], Remover(gone)).tree; !Skipped(t')
    ensures var t' := WalkTree(t, [], Remover(gone)).tree;
      var w := WaitOn(t', bounds, now, [], target);
      && RunLeaves(w.runs) <= Surviving(Leaves(t), gone)
      && (w.err == NoError ==> RunLeaves(w.runs) == Surviving(Leaves(t), gone))
      && (!w.err.LeafFailed? ==> (w.err == NoError <==> NoneEmpty(t')))
  {
    var t' := WalkTree(t, [], Remover(gone)).tree;
    RemoverKeepsRest(t, [], gone);
    WaitRunsInOrder(t', bounds, now, [], target);
    EmptyFails(t', bounds, now, [], target);
    assert RunLeaves([]) + Leaves(t') == Leaves(t');
  }
}
