/** Control-flow graphs as the analyses see them: an indexed sequence of blocks whose first block is the
    entry.  A successor that names no block stands for the nil block, which every search skips. */
module ControlFlow {

  datatype Block<+Node> = Block(nodes: seq<Node>, live: bool, isReturn: bool, succs: seq<nat>)

  predicate Visitable<Node>(g: seq<Block<Node>>, b: nat) {
    b < |g| && g[b].live
  }

  /** A path starts at the entry, stays in live blocks, follows successor edges and stops at the first return. */
  ghost predicate IsPath<Node>(g: seq<Block<Node>>, p: seq<nat>) {
    && |p| > 0
    && p[0] == 0
    && (forall k :: 0 <= k < |p| ==> Visitable(g, p[k]))
    && (forall k :: 0 <= k < |p| - 1 ==> !g[p[k]].isReturn && p[k + 1] in g[p[k]].succs)
  }

  ghost function Last(p: seq<nat>): nat
    requires |p| > 0
  {
    p[|p| - 1]
  }

  ghost predicate IsReturnPath<Node>(g: seq<Block<Node>>, p: seq<nat>) {
    IsPath(g, p) && g[Last(p)].isReturn
  }

  lemma PathExtend<Node>(g: seq<Block<Node>>, p: seq<nat>, b: nat)
    requires IsPath(g, p) && !g[Last(p)].isReturn && b in g[Last(p)].succs && Visitable(g, b)
    ensures IsPath(g, p + [b])
  {
  }

  /** The block numbers of a graph, which bound every search. */
  function BlockIds(n: nat): (ids: set<nat>)
    ensures forall b: nat :: b in ids <==> b < n
  {
    if n == 0 then {} else BlockIds(n - 1) + {n - 1}
  }

  // ---------- Depth-first searches that stop at some blocks ----------

  /** A path to `b` that passes no stop before it. */
  ghost predicate OpenPathTo<Node>(g: seq<Block<Node>>, stops: set<nat>, p: seq<nat>, b: nat) {
    IsPath(g, p) && Last(p) == b && forall k :: 0 <= k < |p| - 1 ==> p[k] !in stops
  }

  ghost predicate OpenlyReachable<Node>(g: seq<Block<Node>>, stops: set<nat>, b: nat) {
    exists p :: OpenPathTo(g, stops, p, b)
  }

  ghost predicate OpenEdge<Node>(g: seq<Block<Node>>, stops: set<nat>, b: nat, s: nat) {
    b < |g| && b !in stops && !g[b].isReturn && s in g[b].succs && Visitable(g, s)
  }

  /** The invariant of a search: everything held is reachable, and what can follow a seen block is held. */
  ghost predicate Searching<Node>(g: seq<Block<Node>>, stops: set<nat>, seen: set<nat>, work: seq<nat>) {
    && seen <= BlockIds(|g|)
    && (forall b :: b in seen ==> Visitable(g, b))
    && (forall b: nat :: (b in seen || b in work) && Visitable(g, b) ==> OpenlyReachable(g, stops, b))
    && (Visitable(g, 0) ==> 0 in seen || 0 in work)
    && (forall b: nat, s: nat :: b in seen && OpenEdge(g, stops, b, s) ==> s in seen || s in work)
  }

  lemma SearchStart<Node>(g: seq<Block<Node>>, stops: set<nat>)
    ensures Searching(g, stops, {}, [0])
  {
    if Visitable(g, 0) {
      assert OpenPathTo(g, stops, [0], 0);
    }
  }

  lemma SearchSkip<Node>(g: seq<Block<Node>>, stops: set<nat>, seen: set<nat>, work: seq<nat>)
    requires |work| > 0 && Searching(g, stops, seen, work)
    requires !Visitable(g, work[|work| - 1]) || work[|work| - 1] in seen
    ensures Searching(g, stops, seen, work[..|work| - 1])
  {
    assert forall b :: b in work ==> b == work[|work| - 1] || b in work[..|work| - 1];
  }

  lemma SearchVisit<Node>(g: seq<Block<Node>>, stops: set<nat>, seen: set<nat>, work: seq<nat>, next: seq<nat>)
    requires |work| > 0 && Searching(g, stops, seen, work)
    requires var b := work[|work| - 1];
      Visitable(g, b) && next == if b in stops || g[b].isReturn then [] else g[b].succs
    ensures OpenlyReachable(g, stops, work[|work| - 1])
    ensures Searching(g, stops, seen + {work[|work| - 1]}, work[..|work| - 1] + next)
  {
    var current, rest := work[|work| - 1], work[..|work| - 1];
    assert forall b :: b in work ==> b == current || b in rest;
    assert current in work;
    var p :| OpenPathTo(g, stops, p, current);
    forall b: nat | b in next && Visitable(g, b)
      ensures OpenlyReachable(g, stops, b)
    {
      PathExtend(g, p, b);
      assert OpenPathTo(g, stops, p + [b], b);
    }
  }

  lemma {:induction false} OpenPathIsSeen<Node>(g: seq<Block<Node>>, stops: set<nat>, seen: set<nat>, p: seq<nat>)
    requires Searching(g, stops, seen, [])
    requires |p| > 0 && OpenPathTo(g, stops, p, Last(p))
    ensures Last(p) in seen
    decreases |p|
  {
    if |p| > 1 {
      var q := p[..|p| - 1];
      OpenPathIsSeen(g, stops, seen, q);
      assert OpenEdge(g, stops, Last(q), Last(p));
    }
  }

  /** The part of a path up to its first stop, or the whole path. */
  lemma {:induction false} FirstStop<Node>(g: seq<Block<Node>>, stops: set<nat>, p: seq<nat>) returns (q: seq<nat>)
    requires IsPath(g, p)
    ensures |q| > 0 && q <= p && OpenPathTo(g, stops, q, Last(q))
    ensures Last(q) in stops || q == p
    decreases |p|
  {
    if |p| == 1 {
      return p;
    }
    var r := p[..|p| - 1];
    q := FirstStop(g, stops, r);
    if Last(q) !in stops {
      q := p;
    }
  }
}
