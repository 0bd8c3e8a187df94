/** Which functions never return, and the control-flow graphs that knowledge prunes (internal/analysis/no_return.go). */
module NoReturn {
  import opened ControlFlow
  import opened Sets
  import opened Wrappers

  const MAX_BUILD_DEPTH: nat := 4096

  /** A statement-level node: a statement that may panic or cannot, the deferring of a call that may recover from a
      panic, a call to `panic`, or a call with or without a static callee. */
  datatype Node = Plain(risky: bool) | Guard | Panic | Call(callee: Option<nat>)

  type Graph = seq<Block<Node>>

  /** `bodies` holds each local function's graph as if every call returned; `facts` the functions known, by name
      or from another package, never to return.  Functions defined elsewhere may panic unless they are `calm`. */
  datatype Program = Program(bodies: map<nat, Graph>, facts: set<nat>, calm: set<nat>)
  {
    predicate Runs(f: nat) {
      f in bodies && f !in facts
    }
  }

  // ---------- Executions ----------

  /** Node `n` of the `k`-th block of a path comes before node `i` of its last block. */
  predicate Before<N>(g: seq<Block<N>>, p: seq<nat>, i: nat, k: int, n: int)
    requires IsPath(g, p)
  {
    0 <= k < |p| && 0 <= n < |g[p[k]].nodes| && (k == |p| - 1 ==> n < i)
  }

  /** Some execution of `f` with at most `depth` levels of calls returns, or panics.  The functions in `never` are
      taken not to return; with none there this is what code does. */
  ghost predicate Ends(prog: Program, never: set<nat>, f: nat, panics: bool, depth: nat)
    decreases depth, 0
  {
    && depth > 0
    && (!panics ==> f !in never && f !in prog.facts)
    && if prog.Runs(f) then exists p, i: nat :: EndsAt(prog, never, prog.bodies[f], p, i, panics, depth)
       else panics ==> f !in prog.calm
  }

  /** A body ends before node `i` of the last block of `p`: at its end by returning, elsewhere by a panic, which may
      leave the function, or may be recovered if a recovering call was deferred before; then the function returns. */
  ghost predicate EndsAt(prog: Program, never: set<nat>, g: Graph, p: seq<nat>, i: nat, panics: bool, depth: nat)
    requires depth > 0
    decreases depth - 1, 3
  {
    && IsPath(g, p) && i <= |g[Last(p)].nodes|
    && (forall k, n :: Before(g, p, i, k, n) ==> Completes(prog, never, g[p[k]].nodes[n], depth - 1))
    && if i == |g[Last(p)].nodes| then g[Last(p)].isReturn && !panics
       else Throws(prog, never, g[Last(p)].nodes[i], depth - 1) && (panics || Guarded(g, p, i))
  }

  ghost predicate Guarded(g: Graph, p: seq<nat>, i: nat)
    requires IsPath(g, p)
  {
    exists k, n :: Before(g, p, i, k, n) && g[p[k]].nodes[n].Guard?
  }

  ghost predicate Completes(prog: Program, never: set<nat>, node: Node, depth: nat)
    decreases depth, 1
  {
    match node
    case Plain(_) => true
    case Guard => true
    case Panic => false
    case Call(callee) => callee.Some? ==> Ends(prog, never, callee.value, false, depth)
  }

  ghost predicate Throws(prog: Program, never: set<nat>, node: Node, depth: nat)
    decreases depth, 1
  {
    match node
    case Plain(risky) => risky
    case Guard => false
    case Panic => true
    case Call(callee) => callee.Some? ==> Ends(prog, never, callee.value, true, depth)
  }

  /** What code does when no function is taken not to return. */
  ghost predicate Returns(prog: Program, f: nat, depth: nat) {
    Ends(prog, {}, f, false, depth)
  }

  // ---------- The least fixpoint ----------

  /** Level `n` of the least fixpoint of "every path to a return meets a panic or a call of such a function". */
  ghost predicate InLevel(prog: Program, n: nat, f: nat)
    decreases n, 0
  {
    && n > 0
    && (f in prog.facts
      || (f in prog.bodies && forall p :: IsReturnPath(prog.bodies[f], p) ==> StopsAlong(prog, n, prog.bodies[f], p)))
  }

  ghost predicate StopsAlong(prog: Program, n: nat, g: Graph, p: seq<nat>)
    requires n > 0 && IsPath(g, p)
    decreases n - 1, 2
  {
    exists k, i :: 0 <= k < |p| && 0 <= i < |g[p[k]].nodes| && Stops(prog, n - 1, g[p[k]].nodes[i])
  }

  ghost predicate Stops(prog: Program, n: nat, node: Node)
    decreases n, 1
  {
    node.Panic? || (node.Call? && node.callee.Some? && InLevel(prog, n, node.callee.value))
  }

  ghost predicate InLeastFixpoint(prog: Program, f: nat) {
    exists n: nat :: InLevel(prog, n, f)
  }

  lemma {:induction false} LevelsGrow(prog: Program, n: nat, m: nat, f: nat)
    requires n <= m && InLevel(prog, n, f)
    ensures InLevel(prog, m, f)
    decreases n
  {
    if f !in prog.facts {
      var g := prog.bodies[f];
      forall p | IsReturnPath(g, p)
        ensures StopsAlong(prog, m, g, p)
      {
        assert StopsAlong(prog, n, g, p);
        var k, i :| 0 <= k < |p| && 0 <= i < |g[p[k]].nodes| && Stops(prog, n - 1, g[p[k]].nodes[i]);
        if !g[p[k]].nodes[i].Panic? {
          LevelsGrow(prog, n - 1, m - 1, g[p[k]].nodes[i].callee.value);
        }
        assert Stops(prog, m - 1, g[p[k]].nodes[i]);
      }
    }
  }

  /** A panic, or a call of a function in `never`. */
  predicate StopsBy(prog: Program, never: set<nat>, node: Node) {
    node.Panic? || (node.Call? && node.callee.Some? && (node.callee.value in never || node.callee.value in prog.facts))
  }

  lemma StopsByLess(prog: Program, some: set<nat>, more: set<nat>, node: Node)
    requires some <= more
    ensures StopsBy(prog, some, node) ==> StopsBy(prog, more, node)
  {
  }

  ghost predicate StopsInside(prog: Program, never: set<nat>, g: Graph, p: seq<nat>)
    requires IsPath(g, p)
  {
    exists k, i :: 0 <= k < |p| && 0 <= i < |g[p[k]].nodes| && StopsBy(prog, never, g[p[k]].nodes[i])
  }

  /** The rule holds for the function, given those in `never`. */
  ghost predicate Follows(prog: Program, never: set<nat>, f: nat) {
    f in prog.facts
      || (f in prog.bodies
      && forall p :: IsReturnPath(prog.bodies[f], p) ==> StopsInside(prog, never, prog.bodies[f], p))
  }

  /** Least: whatever set is closed under the rule contains every level. */
  lemma {:induction false} LeastAmongClosedSets(prog: Program, n: nat, f: nat, closed: set<nat>)
    requires InLevel(prog, n, f)
    requires forall h :: Follows(prog, closed, h) ==> h in closed
    ensures f in closed
    decreases n
  {
    if f !in prog.facts {
      var g := prog.bodies[f];
      forall p | IsReturnPath(g, p)
        ensures StopsInside(prog, closed, g, p)
      {
        assert StopsAlong(prog, n, g, p);
        var k, i :| 0 <= k < |p| && 0 <= i < |g[p[k]].nodes| && Stops(prog, n - 1, g[p[k]].nodes[i]);
        var node := g[p[k]].nodes[i];
        if !node.Panic? {
          LeastAmongClosedSets(prog, n - 1, node.callee.value, closed);
        }
        assert StopsBy(prog, closed, node);
      }
    }
    assert Follows(prog, closed, f);
  }

  /** The rule supports every member of the set. */
  ghost predicate Supported(prog: Program, marked: set<nat>) {
    forall f :: f in marked ==> Follows(prog, marked, f)
  }

  // ---------- When marked functions never return ----------

  /** Taking the functions in `never` not to return, `f` can defer a recovering call, then panic, and so return. */
  ghost predicate Recovers(prog: Program, never: set<nat>, f: nat, depth: nat) {
    && depth > 0 && prog.Runs(f)
    && exists p, i: nat ::
         EndsAt(prog, never, prog.bodies[f], p, i, false, depth) && i < |prog.bodies[f][Last(p)].nodes|
  }

  /** Assuming less of other functions allows more executions. */
  lemma {:induction false} BelievedIsReal(prog: Program, never: set<nat>, f: nat, panics: bool, depth: nat)
    requires Ends(prog, never, f, panics, depth)
    ensures Ends(prog, {}, f, panics, depth)
    decreases depth, 0
  {
    if prog.Runs(f) {
      var p, i: nat :| EndsAt(prog, never, prog.bodies[f], p, i, panics, depth);
      BelievedRunIsReal(prog, never, prog.bodies[f], p, i, panics, depth);
    }
  }

  lemma {:induction false} BelievedRunIsReal(prog: Program, never: set<nat>, g: Graph, p: seq<nat>, i: nat,
                                             panics: bool, depth: nat)
    requires depth > 0 && EndsAt(prog, never, g, p, i, panics, depth)
    ensures EndsAt(prog, {}, g, p, i, panics, depth)
    decreases depth - 1, 1
  {
    var d := depth - 1;
    forall f, throws | Ends(prog, never, f, throws, d)
      ensures Ends(prog, {}, f, throws, d)
    {
      BelievedIsReal(prog, never, f, throws, d);
    }
  }

  lemma StopsDoNotComplete(prog: Program, never: set<nat>, node: Node, depth: nat)
    requires StopsBy(prog, never, node)
    ensures !Completes(prog, never, node, depth)
  {
  }

  /** If no marked function recovers as far as the marks are believed, nothing that happens contradicts them. */
  lemma {:induction false} RealIsBelieved(prog: Program, marked: set<nat>, f: nat, panics: bool, depth: nat)
    requires Supported(prog, marked) && forall h, d: nat :: h in marked ==> !Recovers(prog, marked, h, d)
    requires Ends(prog, {}, f, panics, depth)
    ensures Ends(prog, marked, f, panics, depth)
    decreases depth, 0
  {
    if prog.Runs(f) {
      var g := prog.bodies[f];
      var p, i: nat :| EndsAt(prog, {}, g, p, i, panics, depth);
      RealRunIsBelieved(prog, marked, g, p, i, panics, depth);
      if f in marked && !panics {
        assert !Recovers(prog, marked, f, depth) && Follows(prog, marked, f);
        assert IsReturnPath(g, p) && StopsInside(prog, marked, g, p);
        var k, n :| 0 <= k < |p| && 0 <= n < |g[p[k]].nodes| && StopsBy(prog, marked, g[p[k]].nodes[n]);
        assert Before(g, p, i, k, n);
        StopsDoNotComplete(prog, marked, g[p[k]].nodes[n], depth - 1);
      }
    } else if f in marked {
      assert Follows(prog, marked, f);
    }
  }

  lemma {:induction false} RealRunIsBelieved(prog: Program, marked: set<nat>, g: Graph, p: seq<nat>, i: nat,
                                             panics: bool, depth: nat)
    requires Supported(prog, marked) && forall h, d: nat :: h in marked ==> !Recovers(prog, marked, h, d)
    requires depth > 0 && EndsAt(prog, {}, g, p, i, panics, depth)
    ensures EndsAt(prog, marked, g, p, i, panics, depth)
    decreases depth - 1, 1
  {
    var d := depth - 1;
    forall f, throws | Ends(prog, {}, f, throws, d)
      ensures Ends(prog, marked, f, throws, d)
    {
      RealIsBelieved(prog, marked, f, throws, d);
    }
  }

  /** The marked functions never return exactly if none of them, taking the others not to return, can panic after it
      has deferred a recovering call. */
  lemma MarkedNeverReturn(prog: Program, marked: set<nat>)
    requires Supported(prog, marked)
    ensures (forall f, d: nat :: f in marked ==> !Returns(prog, f, d)) <==>
      (forall f, d: nat :: f in marked ==> !Recovers(prog, marked, f, d))
  {
    if f, d: nat :| f in marked && Recovers(prog, marked, f, d) {
      var p, i: nat :| EndsAt(prog, marked, prog.bodies[f], p, i, false, d) && i < |prog.bodies[f][Last(p)].nodes|;
      BelievedRunIsReal(prog, marked, prog.bodies[f], p, i, false, d);
      assert Returns(prog, f, d);
    } else {
      forall f, d: nat | f in marked
        ensures !Returns(prog, f, d)
      {
        if Returns(prog, f, d) {
          RealIsBelieved(prog, marked, f, false, d);
        }
      }
    }
  }

  // ---------- What the text of a function shows about recovering ----------

  predicate MayThrow(node: Node) {
    node.Panic? || node.Call? || (node.Plain? && node.risky)
  }

  ghost predicate NothingStopsBefore(prog: Program, never: set<nat>, g: Graph, p: seq<nat>, i: nat)
    requires IsPath(g, p)
  {
    forall k, n :: Before(g, p, i, k, n) ==> !StopsBy(prog, never, g[p[k]].nodes[n])
  }

  /** A live path leads, past nothing that stops it, to a node that may panic, behind a deferred recovering call. */
  ghost predicate GuardsPanic(prog: Program, never: set<nat>, g: Graph) {
    exists p, i: nat ::
      && IsPath(g, p) && i < |g[Last(p)].nodes| && NothingStopsBefore(prog, never, g, p, i)
      && MayThrow(g[Last(p)].nodes[i]) && Guarded(g, p, i)
  }

  /** What an execution shows of the graph: what it completes does not stop, and it ends in a return or in what may
      panic behind a deferred recovering call. */
  lemma EndFacts(prog: Program, never: set<nat>, g: Graph, p: seq<nat>, i: nat, depth: nat)
    requires depth > 0 && EndsAt(prog, never, g, p, i, false, depth)
    ensures IsPath(g, p) && i <= |g[Last(p)].nodes| && NothingStopsBefore(prog, never, g, p, i)
    ensures i == |g[Last(p)].nodes| ==> g[Last(p)].isReturn
    ensures i < |g[Last(p)].nodes| ==> MayThrow(g[Last(p)].nodes[i]) && Guarded(g, p, i)
  {
    forall k, n | Before(g, p, i, k, n) && StopsBy(prog, never, g[p[k]].nodes[n])
      ensures !Completes(prog, never, g[p[k]].nodes[n], depth - 1)
    {
      StopsDoNotComplete(prog, never, g[p[k]].nodes[n], depth - 1);
    }
  }

  /** In particular if no marked function may panic behind a deferred recovering call, as its graph shows. */
  lemma UnguardedNeverReturn(prog: Program, marked: set<nat>, f: nat, depth: nat)
    requires Supported(prog, marked) && f in marked
    requires forall h :: h in marked && prog.Runs(h) ==> !GuardsPanic(prog, marked, prog.bodies[h])
    ensures !Returns(prog, f, depth)
  {
    forall h, d: nat | h in marked && Recovers(prog, marked, h, d)
      ensures GuardsPanic(prog, marked, prog.bodies[h])
    {
      var g := prog.bodies[h];
      var p, i: nat :| EndsAt(prog, marked, g, p, i, false, d) && i < |g[Last(p)].nodes|;
      EndFacts(prog, marked, g, p, i, d);
    }
    MarkedNeverReturn(prog, marked);
  }

  /** Functions of which nothing is known: each may return, and may panic. */
  const UNKNOWN: Program := Program(map[], {}, {})

  /** Some code with this graph, whatever the functions it calls do, returns by recovering. */
  ghost predicate MayRecover(g: Graph) {
    exists prog: Program, p, i: nat, depth: nat ::
      depth > 0 && EndsAt(prog, {}, g, p, i, false, depth) && i < |g[Last(p)].nodes|
  }

  /** Where nothing is known of the callees whatever can panic may, and everything but a panic may complete. */
  lemma UnknownEnds(g: Graph, p: seq<nat>, i: nat)
    requires IsPath(g, p) && i <= |g[Last(p)].nodes| && NothingStopsBefore(UNKNOWN, {}, g, p, i)
    requires if i == |g[Last(p)].nodes| then g[Last(p)].isReturn
             else MayThrow(g[Last(p)].nodes[i]) && Guarded(g, p, i)
    ensures EndsAt(UNKNOWN, {}, g, p, i, false, 2)
  {
    assert forall f, panics :: Ends(UNKNOWN, {}, f, panics, 1);
  }

  /** Whether a body may recover shows in its graph. */
  lemma GuardsPanicExactly(g: Graph)
    ensures MayRecover(g) <==> GuardsPanic(UNKNOWN, {}, g)
  {
    if MayRecover(g) {
      var prog: Program, p, i: nat, depth: nat :|
        depth > 0 && EndsAt(prog, {}, g, p, i, false, depth) && i < |g[Last(p)].nodes|;
      EndFacts(prog, {}, g, p, i, depth);
      assert NothingStopsBefore(UNKNOWN, {}, g, p, i);
    }
    if GuardsPanic(UNKNOWN, {}, g) {
      var p, i: nat :|
        && IsPath(g, p) && i < |g[Last(p)].nodes| && NothingStopsBefore(UNKNOWN, {}, g, p, i)
        && MayThrow(g[Last(p)].nodes[i]) && Guarded(g, p, i);
      UnknownEnds(g, p, i);
    }
  }

  /** The functions of the least fixpoint. */
  ghost function LeastFixpoint(prog: Program): (marked: set<nat>)
    ensures forall f :: f in marked <==> InLeastFixpoint(prog, f)
  {
    assert forall f :: InLeastFixpoint(prog, f) ==> f in prog.facts + prog.bodies.Keys;
    set f | f in prog.facts + prog.bodies.Keys && InLeastFixpoint(prog, f)
  }

  lemma FixpointIsSupported(prog: Program)
    ensures Supported(prog, LeastFixpoint(prog))
  {
    var marked := LeastFixpoint(prog);
    forall f, p | f in marked && f !in prog.facts && IsReturnPath(prog.bodies[f], p)
      ensures StopsInside(prog, marked, prog.bodies[f], p)
    {
      var g := prog.bodies[f];
      var n: nat :| InLevel(prog, n, f);
      assert StopsAlong(prog, n, g, p);
      var k, i :| 0 <= k < |p| && 0 <= i < |g[p[k]].nodes| && Stops(prog, n - 1, g[p[k]].nodes[i]);
      var node := g[p[k]].nodes[i];
      var m: nat := n - 1;
      assert node.Panic? || InLevel(prog, m, node.callee.value);
      assert node.Panic? || InLeastFixpoint(prog, node.callee.value);
      assert StopsBy(prog, marked, node);
    }
  }

  /** The functions of the least fixpoint never return exactly if none of them recovers. */
  lemma FixpointNeverReturns(prog: Program)
    ensures (forall f, d: nat :: InLeastFixpoint(prog, f) ==> !Returns(prog, f, d)) <==>
            (forall f, d: nat :: InLeastFixpoint(prog, f) ==> !Recovers(prog, LeastFixpoint(prog), f, d))
  {
    FixpointIsSupported(prog);
    MarkedNeverReturn(prog, LeastFixpoint(prog));
  }

  // ---------- Facts published from package to package ----------

  lemma {:induction false} CommonLevel(prog: Program, some: set<nat>) returns (n: nat)
    requires forall f :: f in some ==> InLeastFixpoint(prog, f)
    ensures n > 0 && forall f :: f in some ==> InLevel(prog, n, f)
    decreases |some|
  {
    n := 1;
    if some != {} {
      var last :| last in some;
      var m := CommonLevel(prog, some - {last});
      var k: nat :| InLevel(prog, k, last);
      n := if m < k then k else m;
      forall f | f in some
        ensures InLevel(prog, n, f)
      {
        LevelsGrow(prog, if f == last then k else m, n, f);
      }
    }
  }

  /** The least fixpoint is one: the rule leads to no further functions. */
  lemma FixpointIsClosed(prog: Program, f: nat)
    requires Follows(prog, LeastFixpoint(prog), f)
    ensures InLeastFixpoint(prog, f)
  {
    hide Follows, InLeastFixpoint, IsReturnPath;
    var marked := LeastFixpoint(prog);
    var n := CommonLevel(prog, marked);
    FollowsIsNextLevel(prog, marked, n, f);
    InLevelIsInFixpoint(prog, n + 1, f);
  }

  lemma InLevelIsInFixpoint(prog: Program, n: nat, f: nat)
    requires InLevel(prog, n, f)
    ensures InLeastFixpoint(prog, f)
  {
  }

  lemma FollowsIsNextLevel(prog: Program, marked: set<nat>, n: nat, f: nat)
    requires n > 0 && Follows(prog, marked, f) && forall h :: h in marked ==> InLevel(prog, n, h)
    ensures InLevel(prog, n + 1, f)
  {
    if f !in prog.facts {
      var g := prog.bodies[f];
      forall p | IsReturnPath(g, p)
        ensures StopsAlong(prog, n + 1, g, p)
      {
        assert StopsInside(prog, marked, g, p);
        var k, i :| 0 <= k < |p| && 0 <= i < |g[p[k]].nodes| && StopsBy(prog, marked, g[p[k]].nodes[i]);
        assert Stops(prog, n, g[p[k]].nodes[i]);
      }
    }
  }

  /** One analysis: the program as it knows it, and the functions that it marks. */
  datatype Run = Run(prog: Program, marked: set<nat>)

  ghost predicate IsRun(run: Run) {
    && run.marked <= run.prog.bodies.Keys && Supported(run.prog, run.marked)
    && forall f :: f in run.marked ==> InLeastFixpoint(run.prog, f)
  }

  function AllMarked(runs: seq<Run>): set<nat> {
    if |runs| == 0 then {} else AllMarked(runs[..|runs| - 1]) + runs[|runs| - 1].marked
  }

  /** Analyses of packages in import order: each has some functions of the whole program, and takes as facts only what
      the whole program has as facts and what earlier analyses marked. */
  ghost predicate Published(whole: Program, runs: seq<Run>) {
    forall k :: 0 <= k < |runs| ==>
      && IsRun(runs[k]) && runs[k].prog.facts <= whole.facts + AllMarked(runs[..k])
      && forall f :: f in runs[k].prog.bodies ==> f in whole.bodies && runs[k].prog.bodies[f] == whole.bodies[f]
  }

  lemma PublishedBefore(whole: Program, runs: seq<Run>)
    requires |runs| > 0 && Published(whole, runs)
    ensures Published(whole, runs[..|runs| - 1])
  {
    forall k | 0 <= k < |runs| - 1
      ensures runs[..|runs| - 1][..k] == runs[..k] && runs[..|runs| - 1][k] == runs[k]
    {
    }
  }

  /** What the rule supports with published facts it supports in the whole program. */
  lemma PartFollows(whole: Program, part: Program, some: set<nat>, all: set<nat>, f: nat)
    requires part.facts <= whole.facts + all && some <= all && Follows(part, some, f)
    requires forall h :: h in part.bodies ==> h in whole.bodies && part.bodies[h] == whole.bodies[h]
    ensures f in part.facts || Follows(whole, all, f)
  {
    if f !in part.facts {
      var g := part.bodies[f];
      forall p | IsReturnPath(g, p)
        ensures StopsInside(whole, all, g, p)
      {
        assert StopsInside(part, some, g, p);
        var k, i :| 0 <= k < |p| && 0 <= i < |g[p[k]].nodes| && StopsBy(part, some, g[p[k]].nodes[i]);
        assert StopsBy(whole, all, g[p[k]].nodes[i]);
      }
    }
  }

  lemma FactFollows(prog: Program, marked: set<nat>, f: nat)
    requires f in prog.facts
    ensures Follows(prog, marked, f)
  {
  }

  lemma {:induction false} PublishedIsInFixpoint(whole: Program, runs: seq<Run>)
    requires Published(whole, runs)
    ensures AllMarked(runs) <= LeastFixpoint(whole)
    decreases |runs|
  {
    hide InLeastFixpoint, Follows, Supported;
    if |runs| > 0 {
      var last := runs[|runs| - 1];
      var found := LeastFixpoint(whole);
      PublishedBefore(whole, runs);
      PublishedIsInFixpoint(whole, runs[..|runs| - 1]);
      forall h | Follows(last.prog, found, h)
        ensures h in found
      {
        PartFollows(whole, last.prog, found, found, h);
        if h !in found {
          if h in last.prog.facts {
            FactFollows(whole, found, h);
          }
          FixpointIsClosed(whole, h);
        }
      }
      forall f | f in last.marked
        ensures f in found
      {
        MarkedIsInClosedSet(last, f, found);
      }
    }
  }

  lemma MarkedIsInClosedSet(run: Run, f: nat, closed: set<nat>)
    requires IsRun(run) && f in run.marked && forall h :: Follows(run.prog, closed, h) ==> h in closed
    ensures f in closed
  {
    hide Follows, Supported;
    var n: nat :| InLevel(run.prog, n, f);
    LeastAmongClosedSets(run.prog, n, f, closed);
  }

  lemma {:induction false} PublishedIsSupported(whole: Program, runs: seq<Run>, all: set<nat>)
    requires Published(whole, runs) && AllMarked(runs) <= all
    ensures forall f :: f in AllMarked(runs) ==> Follows(whole, all, f)
    decreases |runs|
  {
    hide InLeastFixpoint, Follows;
    if |runs| > 0 {
      var last := runs[|runs| - 1];
      PublishedBefore(whole, runs);
      PublishedIsSupported(whole, runs[..|runs| - 1], all);
      forall f | f in last.marked
        ensures Follows(whole, all, f)
      {
        assert Follows(last.prog, last.marked, f);
        PartFollows(whole, last.prog, last.marked, all, f);
        if f in whole.facts {
          FactFollows(whole, all, f);
        }
      }
    }
  }

  /** Published facts need not be taken on trust: whatever the packages, all that is marked is in the least fixpoint of
      the whole program, and never returns exactly if nothing marked recovers. */
  lemma PublishedNeverReturn(whole: Program, runs: seq<Run>)
    requires Published(whole, runs)
    ensures forall f :: f in AllMarked(runs) ==> InLeastFixpoint(whole, f)
    ensures (forall f, d: nat :: f in AllMarked(runs) ==> !Returns(whole, f, d)) <==>
            (forall f, d: nat :: f in AllMarked(runs) ==> !Recovers(whole, AllMarked(runs), f, d))
  {
    PublishedIsInFixpoint(whole, runs);
    PublishedIsSupported(whole, runs, AllMarked(runs));
    MarkedNeverReturn(whole, AllMarked(runs));
  }

  // ---------- Pruned graphs ----------

  /** `cut` is `raw` as the graph builder leaves it: cut after a call taken never to return, or untouched. */
  ghost predicate IsCut(prog: Program, never: set<nat>, raw: Block<Node>, cut: Block<Node>) {
    || cut == raw
    || exists i ::
         && 0 <= i < |raw.nodes| && StopsBy(prog, never, raw.nodes[i])
         && cut == Block(raw.nodes[..i + 1], raw.live, false, [])
  }

  /** The cut is complete: a block from which control still flows on has no call in the least fixpoint. */
  ghost predicate CutExactly(prog: Program, raw: Block<Node>, cut: Block<Node>) {
    cut.isReturn || cut.succs != [] ==> forall i, n: nat :: 0 <= i < |raw.nodes| ==> !Stops(prog, n, raw.nodes[i])
  }

  /** No call by which control surely stops is left where control flows on: no panic, and no call of a fact or of a
      function in `known`. */
  ghost predicate CutAfter(prog: Program, known: set<nat>, raw: Block<Node>, cut: Block<Node>) {
    cut.isReturn || cut.succs != [] ==> forall i :: 0 <= i < |raw.nodes| ==> !StopsBy(prog, known, raw.nodes[i])
  }

  ghost predicate PrunedAfter(prog: Program, known: set<nat>, raw: Graph, g: Graph) {
    |g| == |raw| && forall b :: 0 <= b < |g| ==> CutAfter(prog, known, raw[b], g[b])
  }

  /** Where the graph is pruned after all calls of `known`, every return path of the body avoids them. */
  lemma PrunedFollows(prog: Program, known: set<nat>, never: set<nat>, f: nat, g: Graph)
    requires f in prog.bodies && f !in prog.facts && Follows(prog, known, f)
    requires IsPruned(prog, never, prog.bodies[f], g) && PrunedAfter(prog, known, prog.bodies[f], g)
    ensures !HasReturn(g)
  {
    if HasReturn(g) {
      var p :| IsReturnPath(g, p);
      UncutReturnPath(prog, known, never, prog.bodies[f], g, p);
    }
  }

  /** A return path of the pruned graph is one of the body, and avoids the calls. */
  lemma UncutReturnPath(prog: Program, known: set<nat>, never: set<nat>, raw: Graph, g: Graph, p: seq<nat>)
    requires IsPruned(prog, never, raw, g) && PrunedAfter(prog, known, raw, g) && IsReturnPath(g, p)
    ensures IsReturnPath(raw, p) && !StopsInside(prog, known, raw, p)
    ensures forall k :: 0 <= k < |p| ==> g[p[k]] == raw[p[k]] && (g[p[k]].isReturn || g[p[k]].succs != [])
  {
    forall k | 0 <= k < |p|
      ensures g[p[k]] == raw[p[k]] && (g[p[k]].isReturn || g[p[k]].succs != [])
      ensures forall i :: 0 <= i < |raw[p[k]].nodes| ==> !StopsBy(prog, known, raw[p[k]].nodes[i])
    {
      assert IsCut(prog, never, raw[p[k]], g[p[k]]);
      assert k < |p| - 1 ==> p[k + 1] in g[p[k]].succs;
      assert CutAfter(prog, known, raw[p[k]], g[p[k]]);
    }
  }

  ghost predicate IsPruned(prog: Program, never: set<nat>, raw: Graph, g: Graph) {
    |g| == |raw| && forall b :: 0 <= b < |g| ==> IsCut(prog, never, raw[b], g[b])
  }

  ghost predicate PrunedExactly(prog: Program, raw: Graph, g: Graph) {
    |g| == |raw| && forall b :: 0 <= b < |g| ==> CutExactly(prog, raw[b], g[b])
  }

  lemma PrunedGrows(prog: Program, never: set<nat>, more: set<nat>, raw: Graph, g: Graph)
    requires never <= more && IsPruned(prog, never, raw, g)
    ensures IsPruned(prog, more, raw, g)
  {
    forall b | 0 <= b < |g|
      ensures IsCut(prog, more, raw[b], g[b])
    {
      assert IsCut(prog, never, raw[b], g[b]);
    }
  }

  lemma UncutPathSurvives(prog: Program, never: set<nat>, raw: Graph, g: Graph, p: seq<nat>)
    requires IsPruned(prog, never, raw, g) && IsReturnPath(raw, p) && !StopsInside(prog, never, raw, p)
    ensures IsReturnPath(g, p)
  {
    forall k | 0 <= k < |p|
      ensures g[p[k]] == raw[p[k]]
    {
      assert IsCut(prog, never, raw[p[k]], g[p[k]]);
    }
  }

  /** The pruned graph has every execution of the raw one. */
  ghost predicate KeepsExecutions(prog: Program, raw: Graph, g: Graph) {
    forall p, i: nat, panics, depth: nat :: depth > 0 && EndsAt(prog, {}, raw, p, i, panics, depth) ==>
      EndsAt(prog, {}, g, p, i, panics, depth)
  }

  /** A block on an execution is whole, or cut behind the part that was executed. */
  lemma ExecutedPartIsKept(prog: Program, never: set<nat>, raw: Graph, g: Graph, p: seq<nat>, i: nat, panics: bool,
                           depth: nat, k: nat)
    requires IsPruned(prog, never, raw, g) && depth > 0 && EndsAt(prog, {}, raw, p, i, panics, depth) && k < |p|
    requires forall f, d: nat :: f in never ==> !Returns(prog, f, d)
    ensures g[p[k]].live && (k < |p| - 1 ==> g[p[k]] == raw[p[k]])
    ensures k == |p| - 1 ==> g[p[k]] == raw[p[k]] || (i < |g[p[k]].nodes| && g[p[k]].nodes <= raw[p[k]].nodes)
  {
    assert IsCut(prog, never, raw[p[k]], g[p[k]]);
    if g[p[k]] != raw[p[k]] {
      var n :| 0 <= n < |raw[p[k]].nodes| && StopsBy(prog, never, raw[p[k]].nodes[n])
               && g[p[k]] == Block(raw[p[k]].nodes[..n + 1], raw[p[k]].live, false, []);
      var node := raw[p[k]].nodes[n];
      if Before(raw, p, i, k, n) {
        assert Completes(prog, {}, node, depth - 1);
        assert Returns(prog, node.callee.value, depth - 1);
      }
    }
  }

  lemma PrunedKeepsExecutions(prog: Program, never: set<nat>, raw: Graph, g: Graph)
    requires IsPruned(prog, never, raw, g) && forall f, d: nat :: f in never ==> !Returns(prog, f, d)
    ensures KeepsExecutions(prog, raw, g)
  {
    forall p, i: nat, panics, depth: nat | depth > 0 && EndsAt(prog, {}, raw, p, i, panics, depth)
      ensures EndsAt(prog, {}, g, p, i, panics, depth)
    {
      forall k: nat | k < |p|
        ensures g[p[k]].live && (k < |p| - 1 ==> g[p[k]] == raw[p[k]])
        ensures k == |p| - 1 ==> g[p[k]] == raw[p[k]] || (i < |g[p[k]].nodes| && g[p[k]].nodes <= raw[p[k]].nodes)
      {
        ExecutedPartIsKept(prog, never, raw, g, p, i, panics, depth, k);
      }
      assert IsPath(g, p);
      forall k, n
        ensures Before(g, p, i, k, n) <==> Before(raw, p, i, k, n)
        ensures Before(g, p, i, k, n) ==> g[p[k]].nodes[n] == raw[p[k]].nodes[n]
      {
      }
      if Guarded(raw, p, i) {
        var k, n :| Before(raw, p, i, k, n) && raw[p[k]].nodes[n].Guard?;
        assert Before(g, p, i, k, n) && g[p[k]].nodes[n].Guard?;
      }
    }
  }

  function Caller(f: nat): Graph {
    [Block([Call(Some(f))], true, true, [])]
  }

  /** Pruning by a set of functions is safe for every caller exactly if none of them returns. */
  lemma PruningKeepsExecutions(prog: Program, never: set<nat>)
    ensures (forall raw, g :: IsPruned(prog, never, raw, g) ==> KeepsExecutions(prog, raw, g)) <==>
            (forall f, d: nat :: f in never ==> !Returns(prog, f, d))
  {
    if f, d: nat :| f in never && Returns(prog, f, d) {
      var raw := Caller(f);
      var g := [Block(raw[0].nodes, true, false, [])];
      assert raw[0].nodes[..0 + 1] == raw[0].nodes && StopsBy(prog, never, raw[0].nodes[0]);
      assert IsPruned(prog, never, raw, g);
      assert EndsAt(prog, {}, raw, [0], 1, false, d + 1);
      assert !EndsAt(prog, {}, g, [0], 1, false, d + 1);
      assert !KeepsExecutions(prog, raw, g);
    } else {
      forall raw, g | IsPruned(prog, never, raw, g)
        ensures KeepsExecutions(prog, raw, g)
      {
        PrunedKeepsExecutions(prog, never, raw, g);
      }
    }
  }

  ghost predicate HasReturn(g: Graph) {
    exists p :: IsReturnPath(g, p)
  }

  lemma NoReturnPathMeansFixpoint(prog: Program, level: nat, never: set<nat>, f: nat, g: Graph)
    requires f in prog.bodies && IsPruned(prog, never, prog.bodies[f], g) && !HasReturn(g)
    requires level > 0 && forall h :: h in never ==> InLevel(prog, level, h)
    ensures Follows(prog, never, f) && InLevel(prog, level + 1, f)
  {
    var raw := prog.bodies[f];
    forall p | IsReturnPath(raw, p)
      ensures StopsInside(prog, never, raw, p) && StopsAlong(prog, level + 1, raw, p)
    {
      if !StopsInside(prog, never, raw, p) {
        UncutPathSurvives(prog, never, raw, g, p);
      }
      var k, i :| 0 <= k < |p| && 0 <= i < |raw[p[k]].nodes| && StopsBy(prog, never, raw[p[k]].nodes[i]);
      assert Stops(prog, level, raw[p[k]].nodes[i]);
    }
  }

  /** A cut block has no successors and is no return, so a return path of the pruned graph meets no cut block. */
  lemma FixpointMeansNoReturnPath(prog: Program, never: set<nat>, n: nat, f: nat, g: Graph)
    requires f in prog.bodies && f !in prog.facts
    requires IsPruned(prog, never, prog.bodies[f], g) && PrunedExactly(prog, prog.bodies[f], g)
    requires InLevel(prog, n, f)
    ensures !HasReturn(g)
  {
    var raw := prog.bodies[f];
    if HasReturn(g) {
      var p :| IsReturnPath(g, p);
      forall k | 0 <= k < |p|
        ensures g[p[k]] == raw[p[k]]
        ensures forall i :: 0 <= i < |raw[p[k]].nodes| ==> !Stops(prog, n - 1, raw[p[k]].nodes[i])
      {
        assert IsCut(prog, never, raw[p[k]], g[p[k]]);
        assert k < |p| - 1 ==> p[k + 1] in g[p[k]].succs;
        assert CutExactly(prog, raw[p[k]], g[p[k]]);
      }
      assert IsReturnPath(raw, p) && StopsAlong(prog, n, raw, p);
    }
  }

  // ---------- A marked function that returns ----------

  /** `func f() { defer func() { recover() }(); panic("x") }` and a function that calls it. */
  const RECOVERING: Program := Program(map[0 := [Block([Guard, Panic], true, true, [])], 1 := Caller(0)], {}, {})

  /** Both are in the least fixpoint, and both return. */
  lemma RecoveredPanicReturns()
    ensures InLevel(RECOVERING, 1, 0) && InLevel(RECOVERING, 2, 1)
    ensures Returns(RECOVERING, 0, 1) && Returns(RECOVERING, 1, 2)
  {
    var g := RECOVERING.bodies[0];
    forall p | IsReturnPath(g, p)
      ensures StopsAlong(RECOVERING, 1, g, p)
    {
      assert Stops(RECOVERING, 0, g[p[0]].nodes[1]);
    }
    assert Before(g, [0], 1, 0, 0) && g[[0][0]].nodes[0].Guard?;
    assert EndsAt(RECOVERING, {}, g, [0], 1, false, 1);
    var caller := RECOVERING.bodies[1];
    forall p | IsReturnPath(caller, p)
      ensures StopsAlong(RECOVERING, 2, caller, p)
    {
      assert Stops(RECOVERING, 1, caller[p[0]].nodes[0]);
    }
    assert EndsAt(RECOVERING, {}, caller, [0], 1, false, 2);
  }

  // ---------- Call paths ----------

  ghost predicate Calls(prog: Program, a: nat, b: nat) {
    a in prog.bodies && exists k, i ::
      0 <= k < |prog.bodies[a]| && 0 <= i < |prog.bodies[a][k].nodes| && prog.bodies[a][k].nodes[i] == Call(Some(b))
  }

  ghost predicate IsCallPath(prog: Program, p: seq<nat>) {
    |p| > 0 && forall k :: 0 <= k < |p| - 1 ==> Calls(prog, p[k], p[k + 1])
  }

  ghost predicate CallsOn(prog: Program, a: nat, b: nat) {
    exists p :: IsCallPath(prog, p) && p[0] == a && p[|p| - 1] == b
  }

  lemma CallsOnSelf(prog: Program, a: nat)
    ensures CallsOn(prog, a, a)
  {
    assert IsCallPath(prog, [a]);
  }

  lemma CallsOnStep(prog: Program, a: nat, b: nat, c: nat)
    requires CallsOn(prog, a, b) && Calls(prog, b, c)
    ensures CallsOn(prog, a, c)
  {
    var p :| IsCallPath(prog, p) && p[0] == a && p[|p| - 1] == b;
    assert IsCallPath(prog, p + [c]);
  }

  /** No call cycle can be reached from the function. */
  ghost predicate NoCycleBelow(prog: Program, f: nat) {
    forall c, d :: CallsOn(prog, f, c) && Calls(prog, c, d) ==> !CallsOn(prog, d, c)
  }

  lemma StepCallsOn(prog: Program, a: nat, b: nat, c: nat)
    requires Calls(prog, a, b) && CallsOn(prog, b, c)
    ensures CallsOn(prog, a, c)
  {
    var p :| IsCallPath(prog, p) && p[0] == b && p[|p| - 1] == c;
    assert IsCallPath(prog, [a] + p);
  }

  lemma NoCycleBelowCallee(prog: Program, f: nat, c: nat)
    requires NoCycleBelow(prog, f) && Calls(prog, f, c)
    ensures NoCycleBelow(prog, c) && !CallsOn(prog, c, f)
  {
    CallsOnSelf(prog, f);
    hide Calls;
    forall d, e | CallsOn(prog, c, d) && Calls(prog, d, e)
      ensures !CallsOn(prog, e, d)
    {
      StepCallsOn(prog, f, c, d);
    }
  }

  // ---------- What is left uncut ----------

  /** A call that was left: its callee is recorded to return, or was being built. */
  predicate IsLeft(prog: Program, node: Node, stack: set<nat>, returning: set<nat>) {
    node.Call? && node.callee.Some? && node.callee.value in prog.bodies ==>
      node.callee.value in stack || node.callee.value in returning
  }

  lemma LeftStays(prog: Program, nodes: seq<Node>, stack: set<nat>, some: set<nat>, more: set<nat>)
    requires some <= more
    ensures forall j :: 0 <= j < |nodes| && IsLeft(prog, nodes[j], stack, some) ==> IsLeft(prog, nodes[j], stack, more)
  {
  }

  ghost predicate LeavesBlock(prog: Program, raw: Block<Node>, cut: Block<Node>, stack: set<nat>,
                              returning: set<nat>) {
    cut.isReturn || cut.succs != [] ==>
      forall i :: 0 <= i < |raw.nodes| ==> IsLeft(prog, raw.nodes[i], stack, returning)
  }

  ghost predicate LeavesGraph(prog: Program, raw: Graph, g: Graph, stack: set<nat>, returning: set<nat>) {
    |g| == |raw| && forall b :: 0 <= b < |g| ==> LeavesBlock(prog, raw[b], g[b], stack, returning)
  }

  lemma LeavesMore(prog: Program, raw: Graph, g: Graph, stack: set<nat>, some: set<nat>, more: set<nat>)
    requires some <= more && LeavesGraph(prog, raw, g, stack, some)
    ensures LeavesGraph(prog, raw, g, stack, more)
  {
    forall b | 0 <= b < |g|
      ensures LeavesBlock(prog, raw[b], g[b], stack, more)
    {
      assert LeavesBlock(prog, raw[b], g[b], stack, some);
    }
  }

  ghost predicate AllCallOn(prog: Program, stack: set<nat>, f: nat) {
    forall h :: h in stack ==> CallsOn(prog, h, f)
  }

  ghost predicate Counts(stack: set<nat>, n: nat) {
    |stack| == n
  }

  lemma StartedSets(started: set<nat>, built: set<nat>, f: nat)
    requires f !in started && f !in built
    ensures (started + {f}) - built == (started - built) + {f}
  {
  }

  lemma CountsMore(stack: set<nat>, n: nat, f: nat)
    requires Counts(stack, n) && f !in stack
    ensures Counts(stack + {f}, n + 1)
  {
  }

  lemma CountsFew(stack: set<nat>, n: nat, f: nat, all: set<nat>)
    requires Counts(stack, n) && stack <= all && f in all && f !in stack
    ensures n < |all|
  {
    SubsetIsSmaller(stack + {f}, all);
  }

  lemma AllCallOnMore(prog: Program, stack: set<nat>, f: nat)
    requires AllCallOn(prog, stack, f)
    ensures AllCallOn(prog, stack + {f}, f)
  {
    CallsOnSelf(prog, f);
    hide CallsOn;
  }

  /** What is marked is in the least fixpoint, and by what is marked the graphs are pruned. */
  ghost predicate Marked(prog: Program, ideal: bool, level: nat, graphs: map<nat, Graph>, noReturns: set<nat>) {
    && level > 0 && graphs.Keys <= prog.bodies.Keys && noReturns <= graphs.Keys
    && (forall f :: f in graphs ==> IsPruned(prog, noReturns, prog.bodies[f], graphs[f]))
    && (forall f :: f in graphs ==> (f in noReturns <==> !HasReturn(graphs[f])))
    && (forall f :: f in noReturns ==> InLevel(prog, level, f)) && Supported(prog, noReturns)
    && (ideal ==> forall f :: f in graphs ==> PrunedExactly(prog, prog.bodies[f], graphs[f]))
  }

  lemma NothingBuilt(prog: Program, never: set<nat>, stack: set<nat>, returning: set<nat>)
    ensures IsPruned(prog, never, [], []) && PrunedAfter(prog, never, [], []) && PrunedExactly(prog, [], [])
    ensures LeavesGraph(prog, [], [], stack, returning)
  {
  }

  lemma CutAfterLess(prog: Program, some: set<nat>, more: set<nat>, raw: Block<Node>, cut: Block<Node>)
    requires some <= more && CutAfter(prog, more, raw, cut)
    ensures CutAfter(prog, some, raw, cut)
  {
  }

  lemma PrunedSnoc(prog: Program, never: set<nat>, known: set<nat>, raw: Graph, g: Graph, last: Block<Node>,
                   cut: Block<Node>)
    requires IsPruned(prog, never, raw, g) && PrunedAfter(prog, known, raw, g)
    requires IsCut(prog, never, last, cut) && CutAfter(prog, known, last, cut)
    ensures IsPruned(prog, never, raw + [last], g + [cut]) && PrunedAfter(prog, known, raw + [last], g + [cut])
    ensures PrunedExactly(prog, raw, g) && CutExactly(prog, last, cut) ==>
      PrunedExactly(prog, raw + [last], g + [cut])
  {
    hide IsCut, CutAfter, CutExactly;
  }

  lemma LeavesSnoc(prog: Program, raw: Graph, g: Graph, last: Block<Node>, cut: Block<Node>, stack: set<nat>,
                   returning: set<nat>)
    requires LeavesGraph(prog, raw, g, stack, returning) && LeavesBlock(prog, last, cut, stack, returning)
    ensures LeavesGraph(prog, raw + [last], g + [cut], stack, returning)
  {
    hide LeavesBlock;
  }

  lemma MarkedLevel(prog: Program, ideal: bool, level: nat, graphs: map<nat, Graph>, noReturns: set<nat>)
    requires Marked(prog, ideal, level, graphs, noReturns)
    ensures level > 0 && noReturns <= graphs.Keys && forall h :: h in noReturns ==> InLevel(prog, level, h)
  {
  }

  /** `stacks` has the functions that were being built with each function, all of which call on to it; but for calls of
      those only calls of returning functions are left. */
  ghost predicate LeavesOnlyCycles(prog: Program, graphs: map<nat, Graph>, stacks: map<nat, set<nat>>,
                                   returning: set<nat>) {
    && stacks.Keys == graphs.Keys
    && forall f :: f in graphs && f in prog.bodies ==>
         LeavesGraph(prog, prog.bodies[f], graphs[f], stacks[f], returning) && AllCallOn(prog, stacks[f], f)
  }

  /** `knew` has the functions that were recorded not to return when the graph of a function was begun; the graph is
      pruned after all calls of those, whatever call cycles there are. */
  ghost predicate Remembers(prog: Program, graphs: map<nat, Graph>, knew: map<nat, set<nat>>, noReturns: set<nat>) {
    && knew.Keys == graphs.Keys
    && forall f :: f in graphs && f in prog.bodies ==>
         knew[f] <= noReturns && PrunedAfter(prog, knew[f], prog.bodies[f], graphs[f])
  }

  lemma RemembersMore(prog: Program, graphs: map<nat, Graph>, knew: map<nat, set<nat>>, noReturns: set<nat>, f: nat,
                      g: Graph, known: set<nat>, more: set<nat>)
    requires Remembers(prog, graphs, knew, noReturns) && noReturns <= more && known <= more && f in prog.bodies
    requires PrunedAfter(prog, known, prog.bodies[f], g)
    ensures Remembers(prog, graphs[f := g], knew[f := known], more)
  {
    hide PrunedAfter;
  }

  lemma LeavesOnlyCyclesMore(prog: Program, graphs: map<nat, Graph>, stacks: map<nat, set<nat>>, returning: set<nat>,
                             f: nat, g: Graph, stack: set<nat>, more: set<nat>)
    requires LeavesOnlyCycles(prog, graphs, stacks, returning) && returning <= more && f in prog.bodies
    requires LeavesGraph(prog, prog.bodies[f], g, stack, returning) && AllCallOn(prog, stack, f)
    ensures LeavesOnlyCycles(prog, graphs[f := g], stacks[f := stack], more)
  {
    hide LeavesGraph, AllCallOn;
    forall h | h in graphs[f := g] && h in prog.bodies
      ensures LeavesGraph(prog, prog.bodies[h], graphs[f := g][h], stacks[f := stack][h], more)
    {
      LeavesMore(prog, prog.bodies[h], graphs[f := g][h], stacks[f := stack][h], returning, more);
    }
  }

  // ---------- The analysis ----------

  class Analysis {
    const prog: Program
    const ctxErr: nat -> bool
    ghost const rank: nat -> nat
    var polls: nat
    var buildDepth: nat
    var started: set<nat>
    var graphs: map<nat, Graph>
    var noReturns: set<nat>
    ghost var level: nat
    ghost var knew: map<nat, set<nat>>
    ghost var stacks: map<nat, set<nat>>

    ghost predicate Valid()
      reads this
    {
      && started <= prog.bodies.Keys && graphs.Keys <= started
      && Marked(prog, Ideal(), level, graphs, noReturns) && Remembers(prog, graphs, knew, noReturns)
      && (Unhurried() ==> LeavesOnlyCycles(prog, graphs, stacks, Returning()))
    }

    /** The functions recorded to return. */
    ghost function Returning(): set<nat>
      reads this
    {
      graphs.Keys - noReturns
    }

    /** Nobody cancels, and there are too few functions for the depth limit. */
    ghost predicate Unhurried() {
      (forall n :: !ctxErr(n)) && |prog.bodies| <= MAX_BUILD_DEPTH
    }

    /** Local calls form no cycle and no chain of 4096, and nobody cancels. */
    ghost predicate Ideal() {
      && (forall n :: !ctxErr(n))
      && (forall f :: f in prog.bodies ==> rank(f) < MAX_BUILD_DEPTH)
      && (forall f, b, i :: f in prog.bodies && 0 <= b < |prog.bodies[f]| && 0 <= i < |prog.bodies[f][b].nodes| ==>
            var node := prog.bodies[f][b].nodes[i];
            node.Call? && node.callee.Some? && node.callee.value in prog.bodies ==> rank(node.callee.value) < rank(f))
    }

    /** Functions whose graph is being built: the build stack. */
    ghost function Pending(): set<nat>
      reads this
    {
      started - graphs.Keys
    }

    ghost predicate Beneath(f: nat, pending: set<nat>, depth: nat) {
      depth + rank(f) < MAX_BUILD_DEPTH && forall h :: h in pending ==> rank(f) < rank(h)
    }

    ghost predicate CanDescend(f: nat)
      reads this
    {
      f in prog.bodies && Ideal() ==> Beneath(f, Pending(), buildDepth)
    }

    /** All functions being built call on to this one. */
    ghost predicate Leads(f: nat)
      reads this
    {
      Counts(Pending(), buildDepth) && AllCallOn(prog, Pending(), f)
    }

    /** The function on top of the build stack. */
    ghost predicate OnTop(f: nat)
      reads this
    {
      IsTop(f, Pending(), buildDepth)
    }

    ghost predicate IsTop(f: nat, pending: set<nat>, depth: nat) {
      && f in prog.bodies && f in pending && depth > 0 && Counts(pending, depth) && AllCallOn(prog, pending, f)
      && (Ideal() ==> Beneath(f, pending - {f}, depth - 1))
    }

    lemma NewTop(f: nat, pending: set<nat>, depth: nat)
      requires f in prog.bodies && f !in pending && Counts(pending, depth) && AllCallOn(prog, pending, f)
      requires Ideal() ==> Beneath(f, pending, depth)
      ensures IsTop(f, pending + {f}, depth + 1)
    {
      hide AllCallOn, Ideal, Beneath, Counts;
      AllCallOnMore(prog, pending, f);
      CountsMore(pending, depth, f);
      assert pending + {f} - {f} == pending;
    }

    constructor (prog: Program, ctxErr: nat -> bool, ghost rank: nat -> nat)
      ensures Valid() && this.prog == prog && this.ctxErr == ctxErr && this.rank == rank
      ensures started == {} && graphs == map[] && noReturns == {} && buildDepth == 0
    {
      this.prog, this.ctxErr, this.rank := prog, ctxErr, rank;
      polls, buildDepth, started, graphs, noReturns, level := 0, 0, {}, map[], {}, 1;
      knew, stacks := map[], map[];
    }

    /** Once recorded, a graph and its verdict never change, and a call leaves nothing half built. */
    twostate predicate Grows()
      reads this
    {
      && old(level) <= level && old(started) <= started && buildDepth == old(buildDepth)
      && Pending() == old(Pending())
      && old(noReturns) <= noReturns
      && forall f :: f in old(graphs) ==>
        f in graphs && graphs[f] == old(graphs[f]) && (f in noReturns <==> f in old(noReturns))
    }

    method Cancelled() returns (stop: bool)
      requires Valid()
      modifies this`polls
      ensures Valid()
      ensures stop ==> exists n :: ctxErr(n)
    {
      stop := ctxErr(polls);
      polls := polls + 1;
    }

    /** `buildAll`, over the functions in any order. */
    method BuildAll(ordered: seq<nat>)
      requires Valid() && started == {} && buildDepth == 0
      requires forall f :: f in ordered ==> f in prog.bodies
      modifies this
      ensures Valid() && Grows()
      ensures Ideal() || Unhurried() ==> forall f :: f in ordered ==> f in graphs
    {
      hide Valid, Ideal, Unhurried, Leads, CanDescend;
      assert Pending() == {};
      for i := 0 to |ordered|
        invariant Valid() && Grows()
        invariant Ideal() || Unhurried() ==> forall j :: 0 <= j < i ==> ordered[j] in graphs
      {
        var stop := Cancelled();
        if stop {
          NotUnhurried();
          return;
        }
        NothingPending(ordered[i]);
        Build(ordered[i]);
      }
    }

    lemma NotUnhurried()
      requires exists n :: ctxErr(n)
      ensures !Unhurried() && !Ideal()
    {
    }

    lemma NothingPending(f: nat)
      requires Pending() == {} && buildDepth == 0
      ensures CanDescend(f) && Leads(f)
    {
    }

    /** `build`: at most once for each function; a function still being built counts as one that may return. */
    method Build(f: nat)
      requires Valid() && CanDescend(f) && Leads(f)
      modifies this
      ensures Valid() && Grows()
      ensures Ideal() && f in prog.bodies ==> f in graphs
      ensures Unhurried() && f in prog.bodies ==> f in graphs || f in Pending()
      decreases prog.bodies.Keys - started, 0, 1
    {
      hide Valid, Ideal, CanDescend, Leads, Unhurried, Pending;
      if f !in prog.bodies || f in graphs || f in started {
        StartedIsPending(f);
        return;
      }
      var stop := Poll(f);
      if stop || buildDepth >= MAX_BUILD_DEPTH {
        HurriesOnlyIf(f);
        return;
      }
      BuildNew(f);
    }

    method BuildNew(f: nat)
      requires Valid() && CanDescend(f) && Leads(f) && f in prog.bodies && f !in started
      modifies this
      ensures Valid() && Grows() && f in graphs
      decreases prog.bodies.Keys - started, 0, 0
    {
      hide Marked, Remembers, LeavesOnlyCycles, Ideal, IsPruned, PrunedExactly, PrunedAfter, LeavesGraph, AllCallOn,
        Unhurried, CanDescend, Leads, Counts;
      StartedHaveGraphs(f);
      Start(f);
      hide OnTop;
      ghost var known, stack := noReturns, Pending();
      var g := NewGraph(f);
      Record(f, g, known, stack);
      buildDepth := buildDepth - 1;
    }

    lemma StartedHaveGraphs(f: nat)
      requires Valid() && f !in started
      ensures f !in graphs
    {
    }

    /** A function goes on the build stack. */
    method Start(f: nat)
      requires Valid() && CanDescend(f) && Leads(f) && f in prog.bodies && f !in started && f !in graphs
      modifies this`started, this`buildDepth
      ensures Valid() && OnTop(f) && started == old(started) + {f} && buildDepth == old(buildDepth) + 1
      ensures Pending() == old(Pending()) + {f} && AllCallOn(prog, Pending(), f)
    {
      hide Marked, Remembers, LeavesOnlyCycles, AllCallOn, Ideal, Unhurried, Beneath, Counts, IsTop;
      NewTop(f, Pending(), buildDepth);
      AllCallOnMore(prog, Pending(), f);
      StartedSets(started, graphs.Keys, f);
      started := started + {f};
      buildDepth := buildDepth + 1;
    }

    /** Functions of the program that are being built, and one that is not. */
    lemma StartedIsPending(f: nat)
      requires Valid() && CanDescend(f)
      ensures f in started ==> f in graphs || f in Pending()
      ensures f in prog.bodies && Ideal() && f in started ==> f in graphs
    {
    }

    method Poll(ghost f: nat) returns (stop: bool)
      requires Valid() && CanDescend(f) && Leads(f)
      modifies this`polls
      ensures Valid() && CanDescend(f) && Leads(f) && Pending() == old(Pending())
      ensures stop ==> exists n :: ctxErr(n)
    {
      hide Ideal, Unhurried, AllCallOn, Counts, Beneath;
      stop := Cancelled();
    }

    lemma HurriesOnlyIf(f: nat)
      requires Valid() && Leads(f) && CanDescend(f) && f in prog.bodies && f !in started
      requires (exists n :: ctxErr(n)) || buildDepth >= MAX_BUILD_DEPTH
      ensures !Unhurried() && !Ideal()
    {
      CountsFew(Pending(), buildDepth, f, prog.bodies.Keys);
    }

    /** What building a graph has come to. */
    ghost predicate IsBuilt(f: nat, g: Graph, known: set<nat>, stack: set<nat>)
      reads this
    {
      && f in prog.bodies && IsPruned(prog, noReturns, prog.bodies[f], g)
      && (Ideal() ==> PrunedExactly(prog, prog.bodies[f], g))
      && known <= noReturns && PrunedAfter(prog, known, prog.bodies[f], g)
      && (Unhurried() ==> LeavesGraph(prog, prog.bodies[f], g, stack, Returning())) && AllCallOn(prog, stack, f)
    }

    method Record(f: nat, g: Graph, ghost known: set<nat>, ghost stack: set<nat>)
      requires Valid() && f in started && f !in graphs && IsBuilt(f, g, known, stack)
      modifies this
      ensures Valid() && level > old(level) && started == old(started) && buildDepth == old(buildDepth)
      ensures graphs == old(graphs)[f := g] && old(noReturns) <= noReturns <= old(noReturns) + {f}
    {
      hide HasReturn;
      var returns_ := ReachesReturn(g);
      hide Marked, Ideal, Unhurried, LeavesOnlyCycles, Remembers, IsPruned, PrunedExactly, PrunedAfter, LeavesGraph,
        AllCallOn, Follows, InLevel;
      MarkedLevel(prog, Ideal(), level, graphs, noReturns);
      if returns_ {
        Remember(f, g, known, stack, Returning() + {f}, noReturns);
        RecordReturn(f, g);
        assert Returning() == old(Returning()) + {f};
      } else {
        Remember(f, g, known, stack, Returning(), noReturns + {f});
        NoReturnPathMeansFixpoint(prog, level, noReturns, f, g);
        RecordNoReturn(f, g);
        assert Returning() == old(Returning());
      }
    }

    ghost method Remember(f: nat, g: Graph, known: set<nat>, stack: set<nat>, returning: set<nat>, marked: set<nat>)
      requires f in prog.bodies && f !in graphs && IsBuilt(f, g, known, stack)
      requires Remembers(prog, graphs, knew, noReturns) && noReturns <= marked && Returning() <= returning
      requires Unhurried() ==> LeavesOnlyCycles(prog, graphs, stacks, Returning())
      modifies this`knew, this`stacks
      ensures Remembers(prog, graphs[f := g], knew, marked)
      ensures Unhurried() ==> LeavesOnlyCycles(prog, graphs[f := g], stacks, returning)
    {
      hide Ideal, Unhurried, LeavesOnlyCycles, Remembers, IsPruned, PrunedExactly, PrunedAfter, LeavesGraph, AllCallOn;
      RemembersMore(prog, graphs, knew, noReturns, f, g, known, marked);
      if Unhurried() {
        LeavesOnlyCyclesMore(prog, graphs, stacks, Returning(), f, g, stack, returning);
      }
      knew := knew[f := known];
      stacks := stacks[f := stack];
    }

    method RecordReturn(f: nat, g: Graph)
      requires Marked(prog, Ideal(), level, graphs, noReturns) && f in prog.bodies && f !in graphs && HasReturn(g)
      requires IsPruned(prog, noReturns, prog.bodies[f], g) && (Ideal() ==> PrunedExactly(prog, prog.bodies[f], g))
      modifies this`level, this`graphs
      ensures Marked(prog, Ideal(), level, graphs, noReturns) && level == old(level) + 1
      ensures graphs == old(graphs)[f := g]
    {
      LevelUp();
      hide IsPruned, PrunedExactly, HasReturn, InLevel, Ideal, Supported;
      graphs := graphs[f := g];
    }

    method RecordNoReturn(f: nat, g: Graph)
      requires Marked(prog, Ideal(), level, graphs, noReturns) && f in prog.bodies && f !in graphs && !HasReturn(g)
      requires IsPruned(prog, noReturns, prog.bodies[f], g) && (Ideal() ==> PrunedExactly(prog, prog.bodies[f], g))
      requires Follows(prog, noReturns, f) && InLevel(prog, level + 1, f)
      modifies this`level, this`graphs, this`noReturns
      ensures Marked(prog, Ideal(), level, graphs, noReturns) && level == old(level) + 1
      ensures graphs == old(graphs)[f := g] && noReturns == old(noReturns) + {f}
    {
      LevelUp();
      hide PrunedExactly, HasReturn, InLevel, Ideal;
      ghost var more := noReturns + {f};
      forall h | h in more
        ensures Follows(prog, more, h)
      {
        FollowsMore(prog, noReturns, more, h);
      }
      hide Follows;
      graphs := graphs[f := g];
      forall h | h in graphs
        ensures IsPruned(prog, more, prog.bodies[h], graphs[h])
      {
        PrunedGrows(prog, noReturns, more, prog.bodies[h], graphs[h]);
      }
      hide IsPruned;
      noReturns := noReturns + {f};
    }

    /** Raising the level keeps everything recorded so far. */
    ghost method LevelUp()
      requires Marked(prog, Ideal(), level, graphs, noReturns)
      modifies this`level
      ensures Marked(prog, Ideal(), level, graphs, noReturns) && level == old(level) + 1
    {
      hide IsPruned, PrunedExactly, HasReturn, InLevel, Ideal, Supported;
      forall h | h in noReturns
        ensures InLevel(prog, level + 1, h)
      {
        LevelsGrow(prog, level, level + 1, h);
      }
      level := level + 1;
    }

    /** `noReturn`. */
    method NeverReturnsNow(f: nat) returns (r: bool)
      requires Valid() && CanDescend(f) && Leads(f)
      modifies this
      ensures Valid() && Grows()
      ensures r ==> f in noReturns || f in prog.facts
      ensures !r ==> f !in old(noReturns) && f !in prog.facts
      ensures Ideal() && !r ==> !InLeastFixpoint(prog, f)
      ensures Unhurried() && !r && f in prog.bodies ==> f in Pending() || f in Returning()
      decreases prog.bodies.Keys - started, 1
    {
      if f in prog.facts {
        return true;
      }
      if f !in prog.bodies {
        return false;
      }
      Build(f);
      r := f in noReturns;
      if Ideal() && !r {
        RecordedExactly(f);
      }
    }

    /** `mayReturn`, negated. */
    method CallStops(node: Node) returns (stops: bool)
      requires Valid()
      requires node.Call? && node.callee.Some? ==> CanDescend(node.callee.value) && Leads(node.callee.value)
      modifies this
      ensures Valid() && Grows()
      ensures stops ==> StopsBy(prog, noReturns, node)
      ensures !stops ==> !StopsBy(prog, old(noReturns), node)
      ensures Ideal() && !stops ==> forall n: nat :: !Stops(prog, n, node)
      ensures Unhurried() && !stops ==> IsLeft(prog, node, Pending(), Returning())
      decreases prog.bodies.Keys - started, 2
    {
      match node {
        case Plain(_) =>
          return false;
        case Guard =>
          return false;
        case Panic =>
          return true;
        case Call(callee) =>
          if callee.None? {
            return false;
          }
          stops := NeverReturnsNow(callee.value);
      }
    }

    lemma CalleeDescends(f: nat, b: nat, i: nat)
      requires OnTop(f) && b < |prog.bodies[f]| && i < |prog.bodies[f][b].nodes|
      requires prog.bodies[f][b].nodes[i].Call? && prog.bodies[f][b].nodes[i].callee.Some?
      ensures CanDescend(prog.bodies[f][b].nodes[i].callee.value) && Leads(prog.bodies[f][b].nodes[i].callee.value)
    {
      var c := prog.bodies[f][b].nodes[i].callee.value;
      assert Calls(prog, f, c);
      hide CallsOn;
      forall h | h in Pending()
        ensures CallsOn(prog, h, c)
      {
        CallsOnStep(prog, h, f, c);
      }
    }

    twostate lemma OnTopStays(f: nat)
      requires old(OnTop(f)) && Grows()
      ensures OnTop(f)
    {
      hide Ideal;
    }

    /** The graph builder asks about each call of a block in turn and cuts the block at the first that stops. */
    method CutBlock(f: nat, b: nat) returns (cut: Block<Node>)
      requires Valid() && OnTop(f) && b < |prog.bodies[f]|
      modifies this
      ensures Valid() && Grows()
      ensures IsCut(prog, noReturns, prog.bodies[f][b], cut)
      ensures CutAfter(prog, old(noReturns), prog.bodies[f][b], cut)
      ensures Ideal() ==> CutExactly(prog, prog.bodies[f][b], cut)
      ensures Unhurried() ==> LeavesBlock(prog, prog.bodies[f][b], cut, Pending(), Returning())
      decreases prog.bodies.Keys - started, 3
    {
      hide Valid, Ideal, Stops, StopsBy, IsLeft, CanDescend, Leads, Counts, Unhurried;
      var raw := prog.bodies[f][b];
      for i := 0 to |raw.nodes|
        invariant Valid() && Grows() && OnTop(f)
        invariant forall j :: 0 <= j < i ==> !StopsBy(prog, old(noReturns), raw.nodes[j])
        invariant Ideal() ==> forall j, n: nat :: 0 <= j < i ==> !Stops(prog, n, raw.nodes[j])
        invariant Unhurried() ==> forall j :: 0 <= j < i ==> IsLeft(prog, raw.nodes[j], Pending(), Returning())
      {
        if raw.nodes[i].Call? && raw.nodes[i].callee.Some? {
          CalleeDescends(f, b, i);
        }
        ghost var returned := Returning();
        label L:
        var stops := CallStops(raw.nodes[i]);
        OnTopStays@L(f);
        StopsByLess(prog, old(noReturns), old@L(noReturns), raw.nodes[i]);
        LeftStays(prog, raw.nodes[..i], Pending(), returned, Returning());
        if stops {
          return Block(raw.nodes[..i + 1], raw.live, false, []);
        }
      }
      return raw;
    }

    /** What building the first blocks of a graph has come to. */
    ghost predicate IsBuilding(raw: Graph, g: Graph, known: set<nat>)
      reads this
    {
      && known <= noReturns && IsPruned(prog, noReturns, raw, g) && PrunedAfter(prog, known, raw, g)
      && (Ideal() ==> PrunedExactly(prog, raw, g))
      && (Unhurried() ==> LeavesGraph(prog, raw, g, Pending(), Returning()))
    }

    /** `cfg.New` with the current answers. */
    method NewGraph(f: nat) returns (g: Graph)
      requires Valid() && OnTop(f)
      modifies this
      ensures Valid() && Grows()
      ensures IsPruned(prog, noReturns, prog.bodies[f], g)
      ensures PrunedAfter(prog, old(noReturns), prog.bodies[f], g)
      ensures Ideal() ==> PrunedExactly(prog, prog.bodies[f], g)
      ensures Unhurried() ==> LeavesGraph(prog, prog.bodies[f], g, Pending(), Returning())
      decreases prog.bodies.Keys - started, 5
    {
      hide Valid, Ideal, Unhurried, IsPruned, PrunedAfter, PrunedExactly, LeavesGraph, IsTop, IsBuilding, Pending,
        Returning;
      TopHasBody(f);
      g := [];
      var raw := prog.bodies[f];
      BuildingStarts(raw);
      for b := 0 to |raw|
        invariant Valid() && Grows() && OnTop(f) && IsBuilding(raw[..b], g, old(noReturns))
      {
        g := NextBlock(f, b, g, old(noReturns));
      }
      assert raw[..|raw|] == raw;
      BuildingEnds(raw, g, old(noReturns));
    }

    lemma BuildingStarts(raw: Graph)
      ensures IsBuilding(raw[..0], [], noReturns)
    {
      NothingBuilt(prog, noReturns, Pending(), Returning());
    }

    lemma BuildingEnds(raw: Graph, g: Graph, known: set<nat>)
      requires IsBuilding(raw, g, known)
      ensures IsPruned(prog, noReturns, raw, g) && PrunedAfter(prog, known, raw, g)
      ensures Ideal() ==> PrunedExactly(prog, raw, g)
      ensures Unhurried() ==> LeavesGraph(prog, raw, g, Pending(), Returning())
    {
    }

    method NextBlock(f: nat, b: nat, g: Graph, ghost known: set<nat>) returns (larger: Graph)
      requires Valid() && OnTop(f) && b < |prog.bodies[f]| && IsBuilding(prog.bodies[f][..b], g, known)
      modifies this
      ensures Valid() && Grows() && OnTop(f) && IsBuilding(prog.bodies[f][..b + 1], larger, known)
      decreases prog.bodies.Keys - started, 4
    {
      hide Valid, Ideal, Unhurried, IsTop, IsPruned, PrunedAfter, PrunedExactly, LeavesGraph, IsCut, CutAfter,
        CutExactly,
        LeavesBlock;
      TopHasBody(f);
      ghost var raw, before, returned := prog.bodies[f], noReturns, Returning();
      var cut := CutBlock(f, b);
      OnTopStays(f);
      assert raw[..b + 1] == raw[..b] + [raw[b]];
      CutAfterLess(prog, known, before, raw[b], cut);
      PrunedGrows(prog, before, noReturns, raw[..b], g);
      PrunedSnoc(prog, noReturns, known, raw[..b], g, raw[b], cut);
      if Unhurried() {
        LeavesMore(prog, raw[..b], g, Pending(), returned, Returning());
        LeavesSnoc(prog, raw[..b], g, raw[b], cut, Pending(), Returning());
      }
      larger := g + [cut];
    }

    lemma TopHasBody(f: nat)
      requires OnTop(f)
      ensures f in prog.bodies
    {
    }

    /** Without call cycles, over-long chains or cancellation the analysis finds the whole least fixpoint. */
    lemma RecordedExactly(f: nat)
      requires Valid() && Ideal() && f in graphs && f !in prog.facts
      ensures f in noReturns <==> InLeastFixpoint(prog, f)
    {
      if InLeastFixpoint(prog, f) {
        var n: nat :| InLevel(prog, n, f);
        FixpointMeansNoReturnPath(prog, noReturns, n, f, graphs[f]);
      }
    }

    /** Whatever the order, the call cycles and the interruptions: a function is recorded if panics, facts and the
        functions recorded before its graph was begun suffice for the rule. */
    lemma RecordedAtLeast(f: nat)
      requires Valid() && f in graphs && f !in prog.facts
      ensures Follows(prog, {}, f) ==> f in noReturns
      ensures f in knew && (Follows(prog, knew[f], f) ==> f in noReturns)
    {
      hide Follows, HasReturn, IsPruned, PrunedAfter;
      assert knew[f] <= noReturns;
      if Follows(prog, {}, f) {
        FollowsMore(prog, {}, knew[f], f);
      }
      if Follows(prog, knew[f], f) {
        PrunedFollows(prog, knew[f], noReturns, f, graphs[f]);
      }
    }

    /** A recorded function of a call is called back by it. */
    ghost predicate StopsOnlyBack(f: nat, p: seq<nat>)
      reads this
      requires f in prog.bodies && IsPath(prog.bodies[f], p)
    {
      var raw := prog.bodies[f];
      forall k, i :: 0 <= k < |p| && 0 <= i < |raw[p[k]].nodes| && StopsBy(prog, noReturns, raw[p[k]].nodes[i]) ==>
          raw[p[k]].nodes[i].Call? && raw[p[k]].nodes[i].callee.Some?
          && CallsOn(prog, raw[p[k]].nodes[i].callee.value, f)
    }

    /** A return path of a recorded graph passes no call of a recorded function but those that were being built. */
    lemma ReturnPathStops(f: nat, p: seq<nat>)
      requires Valid() && Unhurried() && f in graphs && IsReturnPath(graphs[f], p)
      ensures f in prog.bodies && IsReturnPath(prog.bodies[f], p) && !StopsInside(prog, {}, prog.bodies[f], p)
      ensures f in stacks && AllCallOn(prog, stacks[f], f)
      ensures forall k, i :: 0 <= k < |p| && 0 <= i < |prog.bodies[f][p[k]].nodes| ==>
        IsLeft(prog, prog.bodies[f][p[k]].nodes[i], stacks[f], Returning())
    {
      hide AllCallOn, CutAfter, PrunedExactly, Follows, InLevel;
      var raw, g := prog.bodies[f], graphs[f];
      UncutReturnPath(prog, knew[f], noReturns, raw, g, p);
      forall k | 0 <= k < |p|
        ensures LeavesBlock(prog, raw[p[k]], g[p[k]], stacks[f], Returning())
      {
      }
    }

    /** Nothing is missed but through call cycles: a function that is not recorded has a return path on which the only
        recorded functions called are such as call it back. */
    lemma MissedOnlyThroughCycles(f: nat)
      requires Valid() && Unhurried() && f in graphs && f !in noReturns
      ensures f in prog.bodies
      ensures exists p :: IsReturnPath(prog.bodies[f], p) && StopsOnlyBack(f, p)
    {
      var p := OpenReturnPath(f);
      ReturnPathStops(f, p);
      hide Valid, Unhurried, CallsOn;
      var raw := prog.bodies[f];
      forall k, i | 0 <= k < |p| && 0 <= i < |raw[p[k]].nodes| && StopsBy(prog, noReturns, raw[p[k]].nodes[i])
        ensures raw[p[k]].nodes[i].Call? && raw[p[k]].nodes[i].callee.Some?
          && CallsOn(prog, raw[p[k]].nodes[i].callee.value, f)
      {
        assert !StopsBy(prog, {}, raw[p[k]].nodes[i]);
        assert IsLeft(prog, raw[p[k]].nodes[i], stacks[f], Returning());
      }
      assert StopsOnlyBack(f, p);
    }

    /** So what can reach no call cycle is judged exactly, whatever cycles there are elsewhere. */
    lemma {:induction false} RecordedWithoutCycles(f: nat)
      requires Valid() && Unhurried() && f in graphs && f !in prog.facts && NoCycleBelow(prog, f)
      ensures f in noReturns <==> InLeastFixpoint(prog, f)
    {
      if n: nat :| InLevel(prog, n, f) {
        LevelIsRecorded(n, f);
      }
    }

    lemma {:induction false} LevelIsRecorded(n: nat, f: nat)
      requires Valid() && Unhurried() && f in graphs && f !in prog.facts && NoCycleBelow(prog, f) && InLevel(prog, n, f)
      ensures f in noReturns
      decreases n
    {
      hide Valid, Unhurried, NoCycleBelow, CallsOn, HasReturn;
      if f !in noReturns {
        var p := OpenReturnPath(f);
        ReturnPathStops(f, p);
        var raw := prog.bodies[f];
        assert StopsAlong(prog, n, raw, p);
        var k, i :| 0 <= k < |p| && 0 <= i < |raw[p[k]].nodes| && Stops(prog, n - 1, raw[p[k]].nodes[i]);
        var node := raw[p[k]].nodes[i];
        assert !StopsBy(prog, {}, node) && IsLeft(prog, node, stacks[f], Returning());
        var c := node.callee.value;
        assert Calls(prog, f, c);
        NoCycleBelowCallee(prog, f, c);
        var m: nat := n - 1;
        assert InLevel(prog, m, c);
        assert c !in stacks[f] && c in Returning();
        LevelIsRecorded(m, c);
      }
    }

    lemma OpenReturnPath(f: nat) returns (p: seq<nat>)
      requires Valid() && f in graphs && f !in noReturns
      ensures IsReturnPath(graphs[f], p)
    {
      p :| IsReturnPath(graphs[f], p);
    }

    /** None of the recorded functions, taking the others not to return, recovers from a panic. */
    ghost predicate NoneRecovers()
      reads this
    {
      forall f, depth: nat :: f in noReturns ==> !Recovers(prog, noReturns, f, depth)
    }

    /** Whatever the order, the cycles and the interruptions: the recorded functions are in the least fixpoint, and
        they never return exactly if none of them recovers. */
    lemma RecordedNeverReturn()
      requires Valid()
      ensures forall f :: f in noReturns ==> InLeastFixpoint(prog, f)
      ensures (forall f, depth: nat :: f in noReturns ==> !Returns(prog, f, depth)) <==> NoneRecovers()
    {
      MarkedNeverReturn(prog, noReturns);
    }

    lemma RecordedIsRun()
      requires Valid()
      ensures IsRun(Run(prog, noReturns))
    {
      RecordedNeverReturn();
    }

    /** Then the graphs that the other analyses read keep every execution; and only then does pruning by the recorded
        functions keep the executions of all that may call them. */
    lemma RecordedGraphsKeepExecutions()
      requires Valid()
      ensures NoneRecovers() <==> forall raw, g :: IsPruned(prog, noReturns, raw, g) ==> KeepsExecutions(prog, raw, g)
      ensures NoneRecovers() ==> forall f :: f in graphs ==> KeepsExecutions(prog, prog.bodies[f], graphs[f])
    {
      MarkedNeverReturn(prog, noReturns);
      PruningKeepsExecutions(prog, noReturns);
    }
  }

  lemma FollowsMore(prog: Program, never: set<nat>, more: set<nat>, f: nat)
    requires never <= more && Follows(prog, never, f)
    ensures Follows(prog, more, f)
  {
    if f !in prog.facts {
      forall p | IsReturnPath(prog.bodies[f], p)
        ensures StopsInside(prog, more, prog.bodies[f], p)
      {
        assert StopsInside(prog, never, prog.bodies[f], p);
      }
    }
  }

  /** `NoReturn` of a graph: a search for a reachable return. */
  method ReachesReturn(g: Graph) returns (r: bool)
    ensures r == HasReturn(g)
  {
    var work: seq<nat> := [0];
    var seen: set<nat> := {};
    SearchStart(g, {});
    while |work| > 0
      invariant Searching(g, {}, seen, work)
      invariant forall b :: b in seen ==> !g[b].isReturn
      decreases BlockIds(|g|) - seen, |work|
    {
      var block := work[|work| - 1];
      if !Visitable(g, block) || block in seen {
        SearchSkip(g, {}, seen, work);
        work := work[..|work| - 1];
        continue;
      }
      if g[block].isReturn {
        SearchVisit(g, {}, seen, work, []);
        ghost var p :| OpenPathTo(g, {}, p, block);
        assert IsReturnPath(g, p);
        return true;
      }
      SearchVisit(g, {}, seen, work, g[block].succs);
      seen := seen + {block};
      work := work[..|work| - 1] + g[block].succs;
    }
    forall p | IsPath(g, p)
      ensures !g[Last(p)].isReturn
    {
      OpenPathIsSeen(g, {}, seen, p);
    }
    return false;
  }
}
