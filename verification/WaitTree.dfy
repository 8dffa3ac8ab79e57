/**
 * container/wait/walk.go: a walk over a tree of wait strategies that prunes the tree in place
 * while it iterates over it.  Trees are owned: no strategy object occurs in them twice.
 */
module WaitTree {
  import opened Results

  /** A strategy that is not a MultiStrategy; `typedNil` is a nil pointer inside the interface. */
  datatype LeafStrategy = LeafStrategy(id: nat, typedNil: bool, timeouts: Timeouts)

  /** Whether a strategy implements StrategyTimeout, and if so the timeout of its own it may have. */
  datatype Timeouts = NotTimed | Timed(own: Option<int>)

  /** wait.Strategy. */
  datatype Strategy = NilStrategy | Leaf(leaf: LeafStrategy) | Multi(node: MultiStrategy)

  class MultiStrategy {
    const timeout: Option<int>
    const deadline: Option<int>
    var strategies: seq<Strategy>

    constructor ForAll(strategies: seq<Strategy>, timeout: Option<int>, deadline: Option<int>)
      ensures this.strategies == strategies && this.timeout == timeout && this.deadline == deadline
    {
      this.strategies, this.timeout, this.deadline := strategies, timeout, deadline;
    }
  }

  // ---------- The tree a strategy stands for ----------

  datatype Tree = NilTree | LeafTree(leaf: LeafStrategy) | Node(node: MultiStrategy, kids: seq<Tree>)

  function Nodes(t: Tree): set<MultiStrategy>
  {
    match t
    case Node(node, kids) => {node} + NodesOf(kids)
    case _ => {}
  }

  function NodesOf(kids: seq<Tree>): set<MultiStrategy>
  {
    if kids == [] then {} else Nodes(kids[0]) + NodesOf(kids[1..])
  }

  /** No MultiStrategy object occurs twice. */
  predicate Unshared(t: Tree)
  {
    t.Node? ==> t.node !in NodesOf(t.kids) && UnsharedAll(t.kids)
  }

  predicate UnsharedAll(kids: seq<Tree>)
  {
    kids != [] ==> Unshared(kids[0]) && UnsharedAll(kids[1..]) && Nodes(kids[0]) !! NodesOf(kids[1..])
  }

  ghost predicate Represents(s: Strategy, t: Tree)
    reads Nodes(t)
    decreases t, 0
  {
    match t
    case NilTree => s == NilStrategy
    case LeafTree(leaf) => s == Leaf(leaf)
    case Node(node, kids) => s == Multi(node) && RepresentsAll(node.strategies, kids)
  }

  ghost predicate RepresentsAll(ss: seq<Strategy>, kids: seq<Tree>)
    reads NodesOf(kids)
    decreases kids, 1
  {
    |ss| == |kids| &&
    (kids != [] ==> Represents(ss[0], kids[0]) && RepresentsAll(ss[1..], kids[1..]))
  }

  // ---------- The walk as a function ----------

  /** What a visit returns: nil, or an error and what errors.Is finds in it. */
  datatype Verdict = Proceed | Fail(remove: bool, stop: bool, other: nat)

  const ERR_VISIT_STOP := Fail(false, true, 0)

  /** What is visited. */
  datatype Label = LeafLabel(leaf: LeafStrategy) | NodeLabel(node: MultiStrategy)

  /** A visitor with state: its answer may depend on everything visited so far. */
  type Visitor = seq<Label> -> Verdict

  function LabelOf(t: Tree): Label
    requires t != NilTree
  {
    match t
    case LeafTree(leaf) => LeafLabel(leaf)
    case Node(node, _) => NodeLabel(node)
  }

  datatype Walked = Walked(tree: Tree, trace: seq<Label>, err: Verdict)
  datatype WalkedKids = WalkedKids(kids: seq<Tree>, trace: seq<Label>, err: Verdict)

  function WalkTree(t: Tree, trace: seq<Label>, v: Visitor): Walked
  {
    if t == NilTree then Walked(t, trace, Proceed)
    else
      var trace' := trace + [LabelOf(t)];
      var verdict := v(trace');
      if verdict.Fail? then Walked(if verdict.remove then NilTree else t, trace', verdict)
      else
        match t
        case Node(node, kids) =>
          var w := WalkKids(kids, trace', v);
          Walked(Node(node, w.kids), w.trace, w.err)
        case _ => Walked(t, trace', Proceed)
  }

  function WalkKids(kids: seq<Tree>, trace: seq<Label>, v: Visitor): WalkedKids
  {
    if kids == [] then WalkedKids([], trace, Proceed)
    else
      var w := WalkTree(kids[0], trace, v);
      if w.err.Fail? && w.err.remove then
        if w.err.stop then WalkedKids(kids[1..], w.trace, ERR_VISIT_STOP)
        else WalkKids(kids[1..], w.trace, v)
      else if w.err.Fail? then WalkedKids([w.tree] + kids[1..], w.trace, w.err)
      else
        var r := WalkKids(kids[1..], w.trace, v);
        WalkedKids([w.tree] + r.kids, r.trace, r.err)
  }

  function Behind(done: seq<Tree>, w: WalkedKids): WalkedKids
  {
    w.(kids := done + w.kids)
  }

  // ---------- Frames ----------

  lemma {:induction false} NodesOfAppend(a: seq<Tree>, b: seq<Tree>)
    ensures NodesOf(a + b) == NodesOf(a) + NodesOf(b)
    decreases |a|
  {
    if a == [] {
      assert a + b == b;
    } else {
      assert (a + b)[1..] == a[1..] + b;
      NodesOfAppend(a[1..], b);
    }
  }

  lemma NodesOfKid(kids: seq<Tree>, i: nat)
    requires i < |kids|
    ensures Nodes(kids[i]) <= NodesOf(kids)
  {
    assert kids == kids[..i] + kids[i..];
    NodesOfAppend(kids[..i], kids[i..]);
  }

  lemma {:induction false} UnsharedAppend(a: seq<Tree>, b: seq<Tree>)
    ensures UnsharedAll(a + b) <==> UnsharedAll(a) && UnsharedAll(b) && NodesOf(a) !! NodesOf(b)
    decreases |a|
  {
    if a == [] {
      assert a + b == b;
    } else {
      assert (a + b)[1..] == a[1..] + b;
      UnsharedAppend(a[1..], b);
      NodesOfAppend(a[1..], b);
    }
  }

  lemma {:induction false} RepresentsAppend(ss: seq<Strategy>, ss': seq<Strategy>, a: seq<Tree>, b: seq<Tree>)
    requires |ss| == |a|
    ensures RepresentsAll(ss + ss', a + b) <==> RepresentsAll(ss, a) && RepresentsAll(ss', b)
    decreases |a|
  {
    if a == [] {
      assert a + b == b && ss + ss' == ss';
    } else {
      assert (a + b)[1..] == a[1..] + b;
      assert (ss + ss')[1..] == ss[1..] + ss';
      RepresentsAppend(ss[1..], ss', a[1..], b);
    }
  }

  lemma RepresentsCons(x: Strategy, ss: seq<Strategy>, kid: Tree, rest: seq<Tree>)
    requires |ss| == |rest|
    ensures RepresentsAll([x] + ss, [kid] + rest) <==> Represents(x, kid) && RepresentsAll(ss, rest)
  {
    assert ([kid] + rest)[1..] == rest && ([x] + ss)[1..] == ss;
  }

  /** One place in a list of strategies, and what is before and behind it. */
  lemma RepresentsFocus(ss: seq<Strategy>, done: seq<Tree>, kid: Tree, rest: seq<Tree>)
    requires |ss| == |done| + 1 + |rest|
    ensures RepresentsAll(ss, done + ([kid] + rest)) <==>
      RepresentsAll(ss[..|done|], done) && Represents(ss[|done|], kid) && RepresentsAll(ss[|done| + 1..], rest)
  {
    var before, x, behind := ss[..|done|], ss[|done|], ss[|done| + 1..];
    assert ss == before + ([x] + behind);
    RepresentsAppend(before, [x] + behind, done, [kid] + rest);
    RepresentsCons(x, behind, kid, rest);
  }

  lemma UnsharedFocus(done: seq<Tree>, kid: Tree, rest: seq<Tree>)
    ensures NodesOf(done + ([kid] + rest)) == NodesOf(done) + Nodes(kid) + NodesOf(rest)
    ensures NodesOf(done + rest) == NodesOf(done) + NodesOf(rest)
    ensures UnsharedAll(done + ([kid] + rest)) <==>
      UnsharedAll(done) && Unshared(kid) && UnsharedAll(rest) &&
      NodesOf(done) !! Nodes(kid) && NodesOf(done) !! NodesOf(rest) && Nodes(kid) !! NodesOf(rest)
    ensures UnsharedAll(done + rest) <==> UnsharedAll(done) && UnsharedAll(rest) && NodesOf(done) !! NodesOf(rest)
  {
    assert ([kid] + rest)[1..] == rest;
    NodesOfAppend(done, [kid] + rest);
    NodesOfAppend(done, rest);
    UnsharedAppend(done, [kid] + rest);
    UnsharedAppend(done, rest);
  }

  /** A walk neither adds nodes nor shares them. */
  lemma {:induction false} WalkKeepsNodes(t: Tree, trace: seq<Label>, v: Visitor)
    requires Unshared(t)
    ensures var t' := WalkTree(t, trace, v).tree; Nodes(t') <= Nodes(t) && Unshared(t')
    decreases t, 0
  {
    if t.Node? {
      WalkKidsKeepsNodes(t.kids, trace + [LabelOf(t)], v);
    }
  }

  lemma {:induction false} WalkKidsKeepsNodes(kids: seq<Tree>, trace: seq<Label>, v: Visitor)
    requires UnsharedAll(kids)
    ensures var kids' := WalkKids(kids, trace, v).kids; NodesOf(kids') <= NodesOf(kids) && UnsharedAll(kids')
    decreases kids, 1
  {
    if kids != [] {
      var w := WalkTree(kids[0], trace, v);
      WalkKeepsNodes(kids[0], trace, v);
      WalkKidsKeepsNodes(kids[1..], w.trace, v);
      var rest := WalkKids(kids[1..], w.trace, v).kids;
      assert ([w.tree] + kids[1..])[1..] == kids[1..];
      assert ([w.tree] + rest)[1..] == rest;
    }
  }

  lemma {:induction false} NodesAllocated(kids: seq<Tree>)
    ensures forall n :: n in NodesOf(kids) ==> allocated(n)
    decreases kids
  {
    if kids != [] {
      var kid := kids[0];
      match kid {
        case Node(node, grandkids) =>
          assert allocated(node);
          NodesAllocated(grandkids);
          assert forall n :: n in Nodes(kid) ==> allocated(n);
        case _ =>
      }
      NodesAllocated(kids[1..]);
    }
  }

  // ---------- The walk in place ----------

  /** A variable that holds a strategy, such as the field Walk is given a pointer to. */
  class Slot {
    var strategy: Strategy

    constructor (strategy: Strategy)
      ensures this.strategy == strategy
    {
      this.strategy := strategy;
    }
  }

  datatype WalkResult = Done | NilRoot | Error(err: Verdict)

  /** A failure that neither removes nor stops. */
  predicate IsPlainError(verdict: Verdict)
  {
    verdict.Fail? && !verdict.remove && !verdict.stop
  }

  /** How Walk reports the verdict of the inner walk. */
  function Report(err: Verdict): WalkResult
  {
    if err.Fail? && !err.remove && !err.stop then Error(err) else Done
  }

  /** Walk. */
  method Walk(root: Slot?, visit: Visitor, ghost t: Tree) returns (r: WalkResult, trace: seq<Label>)
    requires root != null ==> Represents(root.strategy, t) && Unshared(t)
    modifies root, Nodes(t)
    ensures root == null ==> r == NilRoot && trace == []
    ensures root != null ==>
      var w := WalkTree(t, [], visit);
      Represents(root.strategy, w.tree) && trace == w.trace && r == Report(w.err)
    ensures root != null ==> r == if trace != [] && IsPlainError(visit(trace)) then Error(visit(trace)) else Done
  {
    WalkReports(t, visit);
    if root == null {
      return NilRoot, [];
    }
    var s, err;
    s, trace, err := WalkStrategy(root.strategy, visit, [], t);
    root.strategy := s;
    if err.Fail? {
      if err.remove || err.stop {
        return Done, trace;
      }
      return Error(err), trace;
    }
    return Done, trace;
  }

  /** walk, for a slot that holds `root`; `root'` is what the slot holds afterwards. */
  method WalkStrategy(root: Strategy, visit: Visitor, trace: seq<Label>, ghost t: Tree)
    returns (root': Strategy, trace': seq<Label>, err: Verdict)
    requires Represents(root, t) && Unshared(t)
    modifies Nodes(t)
    ensures var w := WalkTree(t, trace, visit);
      Represents(root', w.tree) && trace' == w.trace && err == w.err
    decreases t, 2
  {
    root', trace', err := root, trace, Proceed;
    if root == NilStrategy {
      return;
    }
    trace' := trace + [if root.Multi? then NodeLabel(root.node) else LeafLabel(root.leaf)];
    err := visit(trace');
    if err.Fail? {
      if err.remove {
        root' := NilStrategy;
      }
      return;
    }
    if root.Multi? {
      trace', err := WalkStrategies(root.node, visit, trace', t.kids);
    }
  }

  /** `s` holds the trees `cur`, unshared and made of the nodes `all`. */
  ghost predicate Holds(s: MultiStrategy, cur: seq<Tree>, all: set<MultiStrategy>)
    reads s, NodesOf(cur)
  {
    RepresentsAll(s.strategies, cur) && UnsharedAll(cur) && NodesOf(cur) <= all && s !in all
  }

  /** The loop of walk over the strategies of one node, splicing out what is removed. */
  method WalkStrategies(s: MultiStrategy, visit: Visitor, trace: seq<Label>, ghost kids: seq<Tree>)
    returns (trace': seq<Label>, err: Verdict)
    requires Holds(s, kids, NodesOf(kids))
    modifies {s} + NodesOf(kids)
    ensures var w := WalkKids(kids, trace, visit);
      RepresentsAll(s.strategies, w.kids) && trace' == w.trace && err == w.err
    decreases kids, 1
  {
    trace', err := trace, Proceed;
    var i := 0;
    ghost var cur := kids;  // the kept trees, then those still to be visited
    assert cur[..0] + WalkKids(cur, trace, visit).kids == WalkKids(cur, trace, visit).kids;
    for k := 0 to |s.strategies|
      invariant i <= k && |cur| - i == |kids| - k && cur[i..] == kids[k..]
      invariant Holds(s, cur, NodesOf(kids))
      invariant Behind(cur[..i], WalkKids(cur[i..], trace', visit)) == WalkKids(kids, trace, visit)
      invariant err == Proceed
    {
      ghost var before := trace';
      WalkKidsUnfold(cur, i, before, visit);
      assert cur[i] == kids[k];
      NodesOfKid(cur, i);
      var e;
      trace', e := WalkAt(s, i, visit, trace', cur, NodesOf(kids));
      cur := cur[i := WalkTree(cur[i], before, visit).tree];
      if e.Fail? {
        if e.remove {
          Splice(s, i, cur, NodesOf(kids));
          cur := cur[..i] + cur[i + 1..];
          if e.stop {
            err := ERR_VISIT_STOP;
            return;
          }
          continue;
        }
        err := e;
        return;
      }
      i := i + 1;
    }
    assert cur[..i] + [] == cur;
  }

  /** One turn of the loop, on the trees. */
  lemma WalkKidsUnfold(cur: seq<Tree>, i: nat, trace: seq<Label>, v: Visitor)
    requires i < |cur|
    ensures var w := WalkTree(cur[i], trace, v);
      var all, cur' := Behind(cur[..i], WalkKids(cur[i..], trace, v)), cur[i := w.tree];
      var spliced := cur'[..i] + cur'[i + 1..];
      && cur'[i + 1..] == cur[i..][1..] && spliced[i..] == cur[i..][1..]
      && if w.err.Fail? && w.err.remove then
           if w.err.stop then all == WalkedKids(spliced, w.trace, ERR_VISIT_STOP)
           else all == Behind(spliced[..i], WalkKids(spliced[i..], w.trace, v))
         else if w.err.Fail? then all == WalkedKids(cur', w.trace, w.err)
         else all == Behind(cur'[..i + 1], WalkKids(cur'[i + 1..], w.trace, v))
  {
    var w := WalkTree(cur[i], trace, v);
    var cur' := cur[i := w.tree];
    var rest := cur[i..][1..];
    var spliced := cur'[..i] + cur'[i + 1..];
    assert cur'[i + 1..] == rest && spliced[..i] == cur[..i] && spliced[i..] == rest;
    assert cur[..i] + rest == spliced;
    assert cur[..i] + ([w.tree] + rest) == cur';
    assert cur'[..i + 1] == cur[..i] + [w.tree];
    var more := WalkKids(rest, w.trace, v).kids;
    assert cur[..i] + ([w.tree] + more) == (cur[..i] + [w.tree]) + more;
  }

  /** walk(&s.Strategies[i], visit). */
  method WalkAt(s: MultiStrategy, i: nat, visit: Visitor, trace: seq<Label>, ghost cur: seq<Tree>, ghost all: set<MultiStrategy>)
    returns (trace': seq<Label>, e: Verdict)
    requires i < |cur| && Holds(s, cur, all)
    modifies s, Nodes(cur[i])
    ensures var w := WalkTree(cur[i], trace, visit);
      trace' == w.trace && e == w.err && Holds(s, cur[i := w.tree], all)
    decreases cur[i], 3
  {
    ghost var w := WalkTree(cur[i], trace, visit);
    ghost var done, kid, rest := cur[..i], cur[i], cur[i + 1..];
    assert cur == done + ([kid] + rest) && cur[i := w.tree] == done + ([w.tree] + rest);
    ghost var before, behind := s.strategies[..i], s.strategies[i + 1..];
    RepresentsFocus(s.strategies, done, kid, rest);
    UnsharedFocus(done, kid, rest);
    WalkKeepsNodes(kid, trace, visit);
    UnsharedFocus(done, w.tree, rest);
    assert RepresentsAll(before, done) && RepresentsAll(behind, rest);
    NodesAllocated(done);
    NodesAllocated(rest);
    var child;
    child, trace', e := WalkStrategy(s.strategies[i], visit, trace, kid);
    assert RepresentsAll(before, done) && RepresentsAll(behind, rest);
    Store(s, i, child, before, behind, done, w.tree, rest);
  }

  /** What the inner walk leaves in the slot; the other places keep what they had. */
  method Store(s: MultiStrategy, i: nat, child: Strategy, ghost before: seq<Strategy>, ghost behind: seq<Strategy>,
               ghost done: seq<Tree>, ghost kid: Tree, ghost rest: seq<Tree>)
    requires i == |done| && |s.strategies| == |done| + 1 + |rest|
    requires before == s.strategies[..i] && behind == s.strategies[i + 1..]
    requires s !in NodesOf(done) && s !in Nodes(kid) && s !in NodesOf(rest)
    requires RepresentsAll(before, done) && Represents(child, kid) && RepresentsAll(behind, rest)
    modifies s
    ensures |s.strategies| == |done| + 1 + |rest|
    ensures RepresentsAll(s.strategies, done + ([kid] + rest))
  {
    s.strategies := s.strategies[i := child];
    assert s.strategies[..i] == before && s.strategies[i + 1..] == behind;
    assert RepresentsAll(before, done) && RepresentsAll(behind, rest);
    RepresentsFocus(s.strategies, done, kid, rest);
  }

  /** s.Strategies = append(s.Strategies[:i], s.Strategies[i+1:]...). */
  method Splice(s: MultiStrategy, i: nat, ghost cur: seq<Tree>, ghost all: set<MultiStrategy>)
    requires i < |cur| && Holds(s, cur, all)
    modifies s
    ensures Holds(s, cur[..i] + cur[i + 1..], all)
  {
    ghost var done, kid, rest := cur[..i], cur[i], cur[i + 1..];
    assert cur == done + ([kid] + rest);
    RepresentsFocus(s.strategies, done, kid, rest);
    UnsharedFocus(done, kid, rest);
    s.strategies := s.strategies[..i] + s.strategies[i + 1..];
    RepresentsAppend(s.strategies[..i], s.strategies[i..], done, rest);
    assert s.strategies[..i] + s.strategies[i..] == s.strategies;
  }

  // ---------- What a walk does to a tree ----------

  /** A place in a tree: which child to take at each step down from the root. */
  type Position = seq<nat>

  datatype Visit = Visit(at: Position, what: Label)

  function Labels(visits: seq<Visit>): seq<Label>
  {
    seq(|visits|, i requires 0 <= i < |visits| => visits[i].what)
  }

  /** The tree at `p` without the nodes at the positions in `gone`: spliced out, the rest in order. */
  function Pruned(t: Tree, p: Position, gone: set<Position>): Tree
  {
    if t == NilTree || p in gone then NilTree
    else
      match t
      case Node(node, kids) => Node(node, PrunedKids(kids, p, 0, gone))
      case _ => t
  }

  /** The children of the node at `p` from number `k` on. */
  function PrunedKids(kids: seq<Tree>, p: Position, k: nat, gone: set<Position>): seq<Tree>
  {
    if kids == [] then []
    else if kids[0] != NilTree && p + [k] in gone then PrunedKids(kids[1..], p, k + 1, gone)
    else [Pruned(kids[0], p + [k], gone)] + PrunedKids(kids[1..], p, k + 1, gone)
  }

  /** Preorder, without going into the nodes at the positions in `gone`. */
  function Preorder(t: Tree, p: Position, gone: set<Position>): seq<Visit>
  {
    if t == NilTree then []
    else [Visit(p, LabelOf(t))] + if t.Node? && p !in gone then PreorderKids(t.kids, p, 0, gone) else []
  }

  function PreorderKids(kids: seq<Tree>, p: Position, k: nat, gone: set<Position>): seq<Visit>
  {
    if kids == [] then [] else Preorder(kids[0], p + [k], gone) + PreorderKids(kids[1..], p, k + 1, gone)
  }

  predicate Removes(verdict: Verdict)
  {
    verdict.Fail? && verdict.remove
  }

  /** The positions of those visits, noted in the trace from `from` on, on which the verdict was to remove. */
  function Removed(visits: seq<Visit>, trace: seq<Label>, from: nat, v: Visitor): set<Position>
  {
    if visits == [] || from >= |trace| then {}
    else (if Removes(v(trace[..from + 1])) then {visits[0].at} else {}) + Removed(visits[1..], trace, from + 1, v)
  }

  /** The visit has not been cut short by a stop or an error. */
  predicate Completed(err: Verdict)
  {
    err.Proceed? || err.remove
  }

  /** No failure, or one that removes and does not stop: the walk goes on with what comes next. */
  predicate GoesOn(err: Verdict)
  {
    err.Proceed? || (err.remove && !err.stop)
  }

  /** The same set as `Removed`, along the structure of the tree. */
  function Gone(t: Tree, p: Position, trace: seq<Label>, v: Visitor): set<Position>
  {
    if t == NilTree then {}
    else
      var verdict := v(trace + [LabelOf(t)]);
      if Removes(verdict) then {p}
      else if verdict.Fail? || !t.Node? then {}
      else GoneKids(t.kids, p, 0, trace + [LabelOf(t)], v)
  }

  function GoneKids(kids: seq<Tree>, p: Position, k: nat, trace: seq<Label>, v: Visitor): set<Position>
  {
    if kids == [] then {}
    else
      var w := WalkTree(kids[0], trace, v);
      Gone(kids[0], p + [k], trace, v) + if GoesOn(w.err) then GoneKids(kids[1..], p, k + 1, w.trace, v) else {}
  }

  /** `q` is inside the child number `k` of the node at `p`, or one behind it. */
  predicate InKids(p: Position, k: nat, q: Position)
  {
    p < q && q[|p|] >= k
  }

  /** Inside the child number `k` itself, and only behind it. */
  lemma KidOrLater(p: Position, k: nat, q: Position)
    ensures InKids(p, k, q) <==> p + [k] <= q || InKids(p, k + 1, q)
    ensures !(p + [k] <= q && InKids(p, k + 1, q))
  {
    if p < q {
      assert q == p + [q[|p|]] + q[|p| + 1..];
    }
    if p + [k] <= q {
      assert q[..|p|] == (p + [k])[..|p|] == p && q[|p|] == k;
    }
  }

  lemma {:induction false} GoneWithin(t: Tree, p: Position, trace: seq<Label>, v: Visitor)
    ensures forall q :: q in Gone(t, p, trace, v) ==> p <= q
    decreases t, 0
  {
    if t.Node? {
      GoneKidsWithin(t.kids, p, 0, trace + [LabelOf(t)], v);
    }
  }

  lemma {:induction false} GoneKidsWithin(kids: seq<Tree>, p: Position, k: nat, trace: seq<Label>, v: Visitor)
    ensures forall q :: q in GoneKids(kids, p, k, trace, v) ==> InKids(p, k, q)
    decreases kids, 1
  {
    if kids != [] {
      var next := WalkTree(kids[0], trace, v).trace;
      GoneWithin(kids[0], p + [k], trace, v);
      GoneKidsWithin(kids[1..], p, k + 1, next, v);
      forall q | q in GoneKids(kids, p, k, trace, v)
        ensures InKids(p, k, q)
      {
        KidOrLater(p, k, q);
        assert q in Gone(kids[0], p + [k], trace, v) || q in GoneKids(kids[1..], p, k + 1, next, v);
      }
    }
  }

  /** Only an error of the visited node itself says remove; what comes up from below never does. */
  lemma {:induction false} RemoveMeansOwn(t: Tree, p: Position, trace: seq<Label>, v: Visitor)
    ensures var w := WalkTree(t, trace, v);
      Removes(w.err) ==> t != NilTree && w.tree == NilTree && w.trace == trace + [LabelOf(t)] && Gone(t, p, trace, v) == {p}
    decreases t, 0
  {
    if t.Node? {
      KidsNeverRemove(t.kids, trace + [LabelOf(t)], v);
    }
  }

  lemma {:induction false} KidsNeverRemove(kids: seq<Tree>, trace: seq<Label>, v: Visitor)
    ensures !Removes(WalkKids(kids, trace, v).err)
    decreases kids, 1
  {
    if kids != [] {
      KidsNeverRemove(kids[1..], WalkTree(kids[0], trace, v).trace, v);
    }
  }

  lemma {:induction false} PrunedNothing(t: Tree, p: Position, gone: set<Position>)
    requires forall q :: p <= q ==> q !in gone
    ensures Pruned(t, p, gone) == t
    decreases t, 0
  {
    assert p <= p;
    if t.Node? {
      PrunedNoKids(t.kids, p, 0, gone);
    }
  }

  lemma {:induction false} PrunedNoKids(kids: seq<Tree>, p: Position, k: nat, gone: set<Position>)
    requires forall q :: InKids(p, k, q) ==> q !in gone
    ensures PrunedKids(kids, p, k, gone) == kids
    decreases kids, 1
  {
    if kids != [] {
      forall q | p + [k] <= q || InKids(p, k + 1, q)
        ensures q !in gone
      {
        KidOrLater(p, k, q);
      }
      assert p + [k] <= p + [k];
      PrunedNothing(kids[0], p + [k], gone);
      PrunedNoKids(kids[1..], p, k + 1, gone);
    }
  }

  /** Inside the tree at `p`, `gone` holds exactly what this walk removes. */
  ghost predicate Agrees(gone: set<Position>, t: Tree, p: Position, trace: seq<Label>, v: Visitor)
  {
    forall q :: p <= q ==> (q in gone <==> q in Gone(t, p, trace, v))
  }

  ghost predicate AgreesKids(gone: set<Position>, kids: seq<Tree>, p: Position, k: nat, trace: seq<Label>, v: Visitor)
  {
    forall q :: InKids(p, k, q) ==> (q in gone <==> q in GoneKids(kids, p, k, trace, v))
  }

  /** Agreement on a node that is gone into: on its children, and the node itself stays. */
  lemma AgreesBelow(gone: set<Position>, t: Tree, p: Position, trace: seq<Label>, v: Visitor)
    requires t.Node? && v(trace + [LabelOf(t)]).Proceed? && Agrees(gone, t, p, trace, v)
    ensures p !in gone && AgreesKids(gone, t.kids, p, 0, trace + [LabelOf(t)], v)
  {
    var trace' := trace + [LabelOf(t)];
    GoneKidsWithin(t.kids, p, 0, trace', v);
    assert Gone(t, p, trace, v) == GoneKids(t.kids, p, 0, trace', v);
    assert !InKids(p, 0, p) && p !in GoneKids(t.kids, p, 0, trace', v);
    assert p in gone <==> p in Gone(t, p, trace, v);
    forall q | InKids(p, 0, q)
      ensures q in gone <==> q in GoneKids(t.kids, p, 0, trace', v)
    {
      assert p <= q;
    }
  }

  /** Agreement on children: on the first one, and on the others as far as the loop goes on. */
  lemma AgreesSplit(gone: set<Position>, kids: seq<Tree>, p: Position, k: nat, trace: seq<Label>, v: Visitor)
    requires kids != [] && AgreesKids(gone, kids, p, k, trace, v)
    ensures var w := WalkTree(kids[0], trace, v);
      && Agrees(gone, kids[0], p + [k], trace, v)
      && (GoesOn(w.err) ==> AgreesKids(gone, kids[1..], p, k + 1, w.trace, v))
      && (!GoesOn(w.err) ==> forall q :: InKids(p, k + 1, q) ==> q !in gone)
  {
    var w := WalkTree(kids[0], trace, v);
    GoneWithin(kids[0], p + [k], trace, v);
    GoneKidsWithin(kids[1..], p, k + 1, w.trace, v);
    forall q
      ensures p + [k] <= q ==> (q in gone <==> q in Gone(kids[0], p + [k], trace, v))
      ensures InKids(p, k + 1, q) ==> (q in gone <==> GoesOn(w.err) && q in GoneKids(kids[1..], p, k + 1, w.trace, v))
    {
      KidOrLater(p, k, q);
      assert q in GoneKids(kids, p, k, trace, v) <==>
        q in Gone(kids[0], p + [k], trace, v) || (GoesOn(w.err) && q in GoneKids(kids[1..], p, k + 1, w.trace, v));
      assert InKids(p, k, q) ==> (q in gone <==> q in GoneKids(kids, p, k, trace, v));
    }
  }

  /** A node is gone exactly when its own visit said remove. */
  lemma OwnGone(gone: set<Position>, t: Tree, p: Position, trace: seq<Label>, v: Visitor)
    requires t != NilTree && Agrees(gone, t, p, trace, v)
    ensures p in gone <==> Removes(WalkTree(t, trace, v).err)
  {
    RemoveMeansOwn(t, p, trace, v);
    assert p in gone <==> p in Gone(t, p, trace, v);
    if t.Node? && v(trace + [LabelOf(t)]).Proceed? {
      AgreesBelow(gone, t, p, trace, v);
    }
  }

  /** A run of the walk and the run it would be without a stop or an error. */
  predicate Follows(trace': seq<Label>, trace: seq<Label>, full: seq<Label>, completed: bool)
  {
    trace <= trace' <= trace + full && (completed ==> trace' == trace + full)
  }

  lemma FollowsOn(trace': seq<Label>, trace: seq<Label>, done: seq<Label>, more: seq<Label>, completed: bool)
    requires Follows(trace', trace + done, more, completed)
    ensures Follows(trace', trace, done + more, completed)
  {
    assert (trace + done) + more == trace + (done + more);
  }

  lemma LabelsAppend(a: seq<Visit>, b: seq<Visit>)
    ensures Labels(a + b) == Labels(a) + Labels(b)
  {
  }

  lemma {:induction false} WalkPrunesWith(t: Tree, p: Position, trace: seq<Label>, v: Visitor, gone: set<Position>)
    requires Agrees(gone, t, p, trace, v)
    ensures var w := WalkTree(t, trace, v);
      w.tree == Pruned(t, p, gone) && Follows(w.trace, trace, Labels(Preorder(t, p, gone)), Completed(w.err))
    decreases t, 0
  {
    if t != NilTree {
      var trace', first := trace + [LabelOf(t)], [Visit(p, LabelOf(t))];
      OwnGone(gone, t, p, trace, v);
      assert Labels(first) == [LabelOf(t)];
      if v(trace').Proceed? && t.Node? {
        AgreesBelow(gone, t, p, trace, v);
        WalkKidsPrunes(t.kids, p, 0, trace', v, gone);
        KidsNeverRemove(t.kids, trace', v);
        LabelsAppend(first, PreorderKids(t.kids, p, 0, gone));
        FollowsOn(WalkKids(t.kids, trace', v).trace, trace, [LabelOf(t)], Labels(PreorderKids(t.kids, p, 0, gone)),
                  WalkKids(t.kids, trace', v).err.Proceed?);
      } else {
        CutShort(t, p, trace, v, gone);
      }
    }
  }

  /** A visit that does not go into its node. */
  lemma CutShort(t: Tree, p: Position, trace: seq<Label>, v: Visitor, gone: set<Position>)
    requires t != NilTree && Agrees(gone, t, p, trace, v) && (v(trace + [LabelOf(t)]).Fail? || !t.Node?)
    ensures var w := WalkTree(t, trace, v);
      w.tree == Pruned(t, p, gone) && Follows(w.trace, trace, Labels(Preorder(t, p, gone)), Completed(w.err))
  {
    OwnGone(gone, t, p, trace, v);
    var first := [Visit(p, LabelOf(t))];
    var more := if t.Node? && p !in gone then PreorderKids(t.kids, p, 0, gone) else [];
    LabelsAppend(first, more);
    assert Labels(first) == [LabelOf(t)];
    assert trace + [LabelOf(t)] <= trace + ([LabelOf(t)] + Labels(more));
    if !Removes(v(trace + [LabelOf(t)])) {
      PrunedNothing(t, p, gone);
    }
  }

  lemma {:induction false} WalkKidsPrunes(kids: seq<Tree>, p: Position, k: nat, trace: seq<Label>, v: Visitor, gone: set<Position>)
    requires AgreesKids(gone, kids, p, k, trace, v)
    ensures var w := WalkKids(kids, trace, v);
      w.kids == PrunedKids(kids, p, k, gone) && Follows(w.trace, trace, Labels(PreorderKids(kids, p, k, gone)), w.err.Proceed?)
    decreases kids, 1
  {
    if kids != [] {
      var kid, rest := kids[0], kids[1..];
      var w := WalkTree(kid, trace, v);
      var visits, more := Preorder(kid, p + [k], gone), PreorderKids(rest, p, k + 1, gone);
      AgreesSplit(gone, kids, p, k, trace, v);
      WalkPrunesWith(kid, p + [k], trace, v, gone);
      LabelsAppend(visits, more);
      if kid != NilTree {
        OwnGone(gone, kid, p + [k], trace, v);
      }
      if GoesOn(w.err) {
        WalkKidsPrunes(rest, p, k + 1, w.trace, v, gone);
        FollowsOn(WalkKids(rest, w.trace, v).trace, trace, Labels(visits), Labels(more), WalkKids(rest, w.trace, v).err.Proceed?);
      } else {
        PrunedNoKids(rest, p, k + 1, gone);
        assert trace + Labels(visits) <= trace + (Labels(visits) + Labels(more));
      }
    }
  }

  // ---------- The removed positions, read off the visits ----------

  lemma {:induction false} RemovedSplit(a: seq<Visit>, b: seq<Visit>, trace: seq<Label>, from: nat, v: Visitor)
    requires from + |a| <= |trace|
    ensures Removed(a + b, trace, from, v) == Removed(a, trace[..from + |a|], from, v) + Removed(b, trace, from + |a|, v)
    decreases |a|
  {
    if a == [] {
      assert a + b == b;
    } else {
      assert (a + b)[1..] == a[1..] + b && (a + b)[0] == a[0];
      assert trace[..from + |a|][..from + 1] == trace[..from + 1];
      RemovedSplit(a[1..], b, trace, from + 1, v);
    }
  }

  /** Visits that have not been made remove nothing. */
  lemma {:induction false} RemovedCut(a: seq<Visit>, b: seq<Visit>, trace: seq<Label>, from: nat, v: Visitor)
    requires |trace| <= from + |a|
    ensures Removed(a + b, trace, from, v) == Removed(a, trace, from, v)
    decreases |a|
  {
    if a == [] {
      assert a + b == b;
    } else {
      assert (a + b)[1..] == a[1..] + b && (a + b)[0] == a[0];
      RemovedCut(a[1..], b, trace, from + 1, v);
    }
  }

  lemma RemovedOne(first: Visit, trace: seq<Label>, v: Visitor)
    ensures Removed([first], trace + [first.what], |trace|, v) == if Removes(v(trace + [first.what])) then {first.at} else {}
  {
    var trace' := trace + [first.what];
    assert trace'[..|trace| + 1] == trace';
  }

  lemma {:induction false} GoneIsRemoved(t: Tree, p: Position, trace: seq<Label>, v: Visitor, gone: set<Position>)
    requires Agrees(gone, t, p, trace, v)
    ensures Removed(Preorder(t, p, gone), WalkTree(t, trace, v).trace, |trace|, v) == Gone(t, p, trace, v)
    decreases t, 0
  {
    if t != NilTree {
      var trace', first := trace + [LabelOf(t)], Visit(p, LabelOf(t));
      RemovedOne(first, trace, v);
      OwnGone(gone, t, p, trace, v);
      if v(trace').Proceed? && t.Node? {
        AgreesBelow(gone, t, p, trace, v);
        GoneKidsRemoved(t.kids, p, 0, trace', v, gone);
        WalkKidsPrunes(t.kids, p, 0, trace', v, gone);
        var w := WalkKids(t.kids, trace', v);
        assert w.trace[..|trace'|] == trace';
        RemovedSplit([first], PreorderKids(t.kids, p, 0, gone), w.trace, |trace|, v);
      } else {
        RemovedCut([first], if t.Node? && p !in gone then PreorderKids(t.kids, p, 0, gone) else [], trace', |trace|, v);
      }
    }
  }

  lemma {:induction false} GoneKidsRemoved(kids: seq<Tree>, p: Position, k: nat, trace: seq<Label>, v: Visitor, gone: set<Position>)
    requires AgreesKids(gone, kids, p, k, trace, v)
    ensures Removed(PreorderKids(kids, p, k, gone), WalkKids(kids, trace, v).trace, |trace|, v) == GoneKids(kids, p, k, trace, v)
    decreases kids, 1
  {
    if kids != [] {
      var kid, rest := kids[0], kids[1..];
      var w := WalkTree(kid, trace, v);
      var visits, more := Preorder(kid, p + [k], gone), PreorderKids(rest, p, k + 1, gone);
      AgreesSplit(gone, kids, p, k, trace, v);
      WalkPrunesWith(kid, p + [k], trace, v, gone);
      GoneIsRemoved(kid, p + [k], trace, v, gone);
      if GoesOn(w.err) {
        var all := WalkKids(rest, w.trace, v);
        GoneKidsRemoved(rest, p, k + 1, w.trace, v, gone);
        WalkKidsPrunes(rest, p, k + 1, w.trace, v, gone);
        assert all.trace[..|w.trace|] == w.trace;
        RemovedSplit(visits, more, all.trace, |trace|, v);
      } else {
        RemovedCut(visits, more, w.trace, |trace|, v);
      }
    }
  }

  // ---------- Which verdict ends a walk ----------

  /** The walk has gone on behind every visit made from position `from` on but the last. */
  ghost predicate WentOn(trace: seq<Label>, from: nat, v: Visitor)
  {
    forall k :: from < k < |trace| ==> GoesOn(v(trace[..k]))
  }

  /** What comes back, given the verdict on the last visit: that verdict, unless it removes and stops. */
  ghost predicate Returns(err: Verdict, trace: seq<Label>, from: nat, v: Visitor)
  {
    if |trace| > from && !GoesOn(v(trace)) then if v(trace).remove then err.Fail? && err.stop else err == v(trace)
    else GoesOn(err)
  }

  lemma WentOnThrough(a: seq<Label>, b: seq<Label>, from: nat, v: Visitor)
    requires from <= |a| && a <= b && WentOn(a, from, v) && WentOn(b, |a|, v) && (|a| > from ==> GoesOn(v(a)))
    ensures WentOn(b, from, v)
  {
    forall k | from < k < |b|
      ensures GoesOn(v(b[..k]))
    {
      if k < |a| {
        assert b[..k] == a[..k];
      } else if k == |a| {
        assert b[..k] == a;
      }
    }
  }

  lemma {:induction false} LastVerdict(t: Tree, trace: seq<Label>, v: Visitor)
    ensures var w := WalkTree(t, trace, v);
      trace <= w.trace && (|w.trace| > |trace| <==> t != NilTree) && WentOn(w.trace, |trace|, v) && Returns(w.err, w.trace, |trace|, v)
    decreases t, 0
  {
    var trace' := if t == NilTree then trace else trace + [LabelOf(t)];
    if t.Node? && v(trace').Proceed? {
      var w := WalkKids(t.kids, trace', v);
      LastVerdictOfKids(t.kids, trace', v);
      WentOnThrough(trace', w.trace, |trace|, v);
      if |w.trace| == |trace'| {
        assert w.trace == trace';
      }
    }
  }

  lemma {:induction false} LastVerdictOfKids(kids: seq<Tree>, trace: seq<Label>, v: Visitor)
    ensures var w := WalkKids(kids, trace, v);
      trace <= w.trace && WentOn(w.trace, |trace|, v) && Returns(w.err, w.trace, |trace|, v)
    decreases kids, 1
  {
    if kids != [] {
      var w := WalkTree(kids[0], trace, v);
      LastVerdict(kids[0], trace, v);
      if GoesOn(w.err) {
        var all := WalkKids(kids[1..], w.trace, v);
        LastVerdictOfKids(kids[1..], w.trace, v);
        WentOnThrough(w.trace, all.trace, |trace|, v);
        if |all.trace| == |w.trace| {
          assert all.trace == w.trace;
        }
      }
    }
  }

  /**
   * What Walk returns, from the verdict on the last visit: `Error(e)` exactly if that is a failure
   * `e` that neither removes nor stops, and no error otherwise.
   */
  lemma WalkReports(t: Tree, v: Visitor)
    ensures var w := WalkTree(t, [], v);
      && (w.trace == [] <==> t == NilTree)
      && Report(w.err) == if w.trace != [] && IsPlainError(v(w.trace)) then Error(v(w.trace)) else Done
  {
    LastVerdict(t, [], v);
  }

  /**
   * Whatever the tree and whatever the visitor answers: the walk leaves the tree with exactly the
   * nodes removed on whose visit it said so, the order of the others kept, and everything behind a
   * stop or an error untouched; it visits in preorder without the insides of removed nodes, up to
   * and including the first visit on which the verdict is a failure that stops or does not remove,
   * or else all of it.
   */
  lemma WalkPrunes(t: Tree, v: Visitor) returns (gone: set<Position>)
    ensures var w := WalkTree(t, [], v);
      var visits := Preorder(t, [], gone);
      && gone == Removed(visits, w.trace, 0, v)
      && w.tree == Pruned(t, [], gone)
      && w.trace <= Labels(visits)
      && (forall k :: 0 < k < |w.trace| ==> GoesOn(v(w.trace[..k])))
      && (w.trace == Labels(visits) || (w.trace != [] && !GoesOn(v(w.trace))))
  {
    gone := Gone(t, [], [], v);
    WalkPrunesWith(t, [], [], v, gone);
    GoneIsRemoved(t, [], [], v, gone);
    LastVerdict(t, [], v);
    assert [] + Labels(Preorder(t, [], gone)) == Labels(Preorder(t, [], gone));
  }

  // ---------- Verdicts that join several errors ----------

  /** The same visitor with the other errors of a removing verdict dropped, and stop kept. */
  function Plain(v: Visitor): Visitor
  {
    trace => if Removes(v(trace)) then Fail(true, v(trace).stop, 0) else v(trace)
  }

  /** A verdict that joins remove with another error counts as remove only. */
  lemma {:induction false} JoinedRemove(t: Tree, trace: seq<Label>, v: Visitor)
    ensures var w, p := WalkTree(t, trace, v), WalkTree(t, trace, Plain(v));
      && w.tree == p.tree && w.trace == p.trace && Report(w.err) == Report(p.err)
      && (w.err == p.err || (Removes(w.err) && Removes(p.err) && w.err.stop == p.err.stop))
    decreases t, 0
  {
    if t.Node? && v(trace + [LabelOf(t)]).Proceed? {
      JoinedRemoveKids(t.kids, trace + [LabelOf(t)], v);
    }
  }

  lemma {:induction false} JoinedRemoveKids(kids: seq<Tree>, trace: seq<Label>, v: Visitor)
    ensures WalkKids(kids, trace, v) == WalkKids(kids, trace, Plain(v))
    decreases kids, 1
  {
    if kids != [] {
      JoinedRemove(kids[0], trace, v);
      JoinedRemoveKids(kids[1..], WalkTree(kids[0], trace, v).trace, v);
    }
  }
}
