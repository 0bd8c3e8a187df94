/** All-paths searches over a function's control-flow graph (internal/analysis/managed_results.go). */
module ManagedResults {
  import opened ControlFlow
  import opened EffectKinds

  // ---------- Cleanup callbacks: is the object closed on every returning path? ----------

  /** One use of the tracked object inside a cleanup callback, in evaluation order. */
  datatype CloseEvent = DirectClose | CalleeEffect(summary: Summary) | OtherUse

  type CloseNode = seq<CloseEvent>

  predicate EventCloses(e: CloseEvent) {
    e.DirectClose? || (e.CalleeEffect? && GuaranteesAny(e.summary, {Close}))
  }

  /** An object handed to a callee counts as closed exactly if the callee's summary is known and promises that every
      returning call closes it. */
  lemma ClosesExactly(e: CloseEvent)
    requires e.CalleeEffect? && e.summary.always ==> e.summary.kinds != {}
    ensures EventCloses(e) <==>
      || e == DirectClose
      || (e.CalleeEffect? && e.summary.known && e.summary.always
            && forall performed :: Admits(e.summary, performed) ==> Close in performed)
  {
    if e.CalleeEffect? {
      GuaranteesAnyExactly(e.summary, {Close});
      forall performed: set<Kind>
        ensures performed * {Close} != {} <==> Close in performed
      {
        assert Close in performed ==> Close in performed * {Close};
      }
    }
  }

  predicate NodeCloses(n: CloseNode) {
    exists i :: 0 <= i < |n| && EventCloses(n[i])
  }

  predicate BlockCloses(b: Block<CloseNode>) {
    exists n :: 0 <= n < |b.nodes| && NodeCloses(b.nodes[n])
  }

  ghost predicate ClosesOn(g: seq<Block<CloseNode>>, p: seq<nat>)
    requires IsPath(g, p)
  {
    exists k :: 0 <= k < |p| && BlockCloses(g[p[k]])
  }

  /** Some live path reaches a close, and no live path reaches a return without one. */
  ghost predicate AlwaysCloses(g: seq<Block<CloseNode>>) {
    && (exists p :: IsPath(g, p) && ClosesOn(g, p))
    && (forall p :: IsReturnPath(g, p) ==> ClosesOn(g, p))
  }

  /** The blocks at which a search for open paths stops. */
  ghost function ClosingBlocks(g: seq<Block<CloseNode>>): set<nat> {
    set b | b in BlockIds(|g|) && BlockCloses(g[b])
  }

  method NodeClosesObject(node: CloseNode) returns (closed: bool)
    ensures closed == NodeCloses(node)
  {
    for i := 0 to |node|
      invariant forall j :: 0 <= j < i ==> !EventCloses(node[j])
    {
      if EventCloses(node[i]) {
        return true;
      }
    }
    return false;
  }

  method BlockClosesObject(block: Block<CloseNode>) returns (closed: bool)
    ensures closed == BlockCloses(block)
  {
    for n := 0 to |block.nodes|
      invariant forall m :: 0 <= m < n ==> !NodeCloses(block.nodes[m])
    {
      closed := NodeClosesObject(block.nodes[n]);
      if closed {
        return;
      }
    }
    return false;
  }

  /** `ctxErr(n)` is the answer of the n-th look at the context; a cancelled search answers no. */
  method CallbackGuaranteesClose(g: seq<Block<CloseNode>>, ctxErr: nat -> bool) returns (r: bool)
    ensures r ==> AlwaysCloses(g)
    ensures (forall n :: !ctxErr(n)) ==> r == AlwaysCloses(g)
  {
    if |g| == 0 {
      return false;
    }
    var work: seq<nat> := [0];
    var seen: set<nat> := {};
    var closedPath := false;
    var polls := 0;
    ghost var stops := ClosingBlocks(g);
    SearchStart(g, stops);
    while |work| != 0
      invariant Searching(g, stops, seen, work)
      invariant forall b :: b in seen && g[b].isReturn ==> b in stops
      invariant closedPath <==> exists b :: b in seen && b in stops
      decreases BlockIds(|g|) - seen, |work|
    {
      if ctxErr(polls) {
        return false;
      }
      polls := polls + 1;
      var block := work[|work| - 1];
      if !Visitable(g, block) || block in seen {
        SearchSkip(g, stops, seen, work);
        work := work[..|work| - 1];
        continue;
      }
      var next := [];
      var closed := BlockClosesObject(g[block]);
      if closed {
        closedPath := true;
      } else if !g[block].isReturn {
        next := g[block].succs;
      }
      SearchVisit(g, stops, seen, work, next);
      if !closed && g[block].isReturn {
        OpenReturn(g, block);
        return false;
      }
      seen := seen + {block};
      work := work[..|work| - 1] + next;
    }
    SearchDecidesCloses(g, seen, closedPath);
    return closedPath;
  }

  lemma OpenReturn(g: seq<Block<CloseNode>>, b: nat)
    requires OpenlyReachable(g, ClosingBlocks(g), b) && b < |g| && g[b].isReturn && !BlockCloses(g[b])
    ensures !AlwaysCloses(g)
  {
    var p :| OpenPathTo(g, ClosingBlocks(g), p, b);
    assert IsReturnPath(g, p) && !ClosesOn(g, p);
  }

  lemma SearchDecidesCloses(g: seq<Block<CloseNode>>, seen: set<nat>, closedPath: bool)
    requires Searching(g, ClosingBlocks(g), seen, [])
    requires forall b :: b in seen && b < |g| && g[b].isReturn ==> b in ClosingBlocks(g)
    requires closedPath <==> exists b :: b in seen && b in ClosingBlocks(g)
    ensures closedPath == AlwaysCloses(g)
  {
    var stops := ClosingBlocks(g);
    forall p | IsPath(g, p)
      ensures ClosesOn(g, p) ==> closedPath
      ensures g[Last(p)].isReturn ==> ClosesOn(g, p)
    {
      var q := FirstStop(g, stops, p);
      OpenPathIsSeen(g, stops, seen, q);
      assert q[|q| - 1] == p[|q| - 1];
    }
    if closedPath {
      var b :| b in seen && b in stops;
      var p :| OpenPathTo(g, stops, p, b);
      assert BlockCloses(g[p[|p| - 1]]);
    }
  }

  // ---------- Is a cleanup registered before every return? ----------

  /** A call met in a node: it registers a cleanup callback, whose body has its own graph, or it does not. */
  datatype Call = Cleanup(callback: seq<Block<CloseNode>>) | OtherCall

  type Node = seq<Call>

  ghost predicate NodeRegisters(n: Node) {
    exists i :: 0 <= i < |n| && n[i].Cleanup? && AlwaysCloses(n[i].callback)
  }

  ghost predicate BlockRegisters(b: Block<Node>) {
    exists n :: 0 <= n < |b.nodes| && NodeRegisters(b.nodes[n])
  }

  ghost predicate RegistersOn(g: seq<Block<Node>>, p: seq<nat>)
    requires forall k :: 0 <= k < |p| ==> p[k] < |g|
  {
    exists k :: 0 <= k < |p| && BlockRegisters(g[p[k]])
  }

  /** The result is managed: a return can be reached, and only after registering a closing callback. */
  ghost predicate ManagedOnEveryReturn(g: seq<Block<Node>>) {
    && (exists p :: IsReturnPath(g, p))
    && (forall p :: IsReturnPath(g, p) ==> RegistersOn(g, p))
  }

  datatype Work = Work(block: nat, managed: bool)

  function AllWork(g: seq<Block<Node>>): set<Work> {
    set b <- BlockIds(|g|), m <- {false, true} :: Work(b, m)
  }

  /** A path leads to `w.block`; if `exact`, it registers a callback strictly before it just when `w.managed`. */
  ghost predicate PathTo(g: seq<Block<Node>>, p: seq<nat>, w: Work, exact: bool) {
    IsPath(g, p) && Last(p) == w.block && (exact ==> w.managed == RegistersOn(g, p[..|p| - 1]))
  }

  ghost predicate WorkReachable(g: seq<Block<Node>>, w: Work, exact: bool) {
    exists p :: PathTo(g, p, w, exact)
  }

  ghost predicate IsSuccessor(g: seq<Block<Node>>, b: nat, s: nat) {
    b < |g| && !g[b].isReturn && s in g[b].succs && Visitable(g, s)
  }

  /** `s` is held after `w`, and as managed only if a callback is registered by the end of `w.block`. */
  ghost predicate Covers(g: seq<Block<Node>>, held: iset<Work>, w: Work, s: nat)
    requires w.block < |g|
  {
    Work(s, false) in held || (Work(s, true) in held && (w.managed || BlockRegisters(g[w.block])))
  }

  /** The items a search has seen or still has to look at. */
  ghost function Held(seen: set<Work>, work: seq<Work>): (held: iset<Work>) {
    iset w: Work | w in seen || w in work
  }

  ghost predicate SearchInv(g: seq<Block<Node>>, seen: set<Work>, work: seq<Work>, exact: bool) {
    && seen <= AllWork(g)
    && (forall w :: w in seen ==> Visitable(g, w.block))
    && (forall w :: w in Held(seen, work) && Visitable(g, w.block) ==> WorkReachable(g, w, exact))
    && (Visitable(g, 0) ==> Work(0, false) in Held(seen, work))
    && (forall w, s :: w in seen && IsSuccessor(g, w.block, s) ==> Covers(g, Held(seen, work), w, s))
  }

  lemma WorkSearchStart(g: seq<Block<Node>>, exact: bool)
    ensures SearchInv(g, {}, [Work(0, false)], exact)
  {
    if Visitable(g, 0) {
      assert PathTo(g, [0], Work(0, false), exact);
    }
  }

  /** Dropping the last item keeps the invariant if the item is nil, dead or already seen. */
  lemma WorkSearchSkip(g: seq<Block<Node>>, seen: set<Work>, work: seq<Work>, exact: bool)
    requires |work| > 0 && SearchInv(g, seen, work, exact)
    requires !Visitable(g, work[|work| - 1].block) || work[|work| - 1] in seen
    ensures SearchInv(g, seen, work[..|work| - 1], exact)
  {
    var rest := work[..|work| - 1];
    assert forall w :: w in work ==> w == work[|work| - 1] || w in rest;
    assert forall w :: w in Held(seen, work) && Visitable(g, w.block) ==> w in Held(seen, rest);
    forall w, s | w in seen && IsSuccessor(g, w.block, s)
      ensures Covers(g, Held(seen, rest), w, s)
    {
      assert Covers(g, Held(seen, work), w, s);
    }
  }

  /** Looking at the last item: its successors, if it has any, join the work with the state after the block. */
  lemma WorkSearchVisit(g: seq<Block<Node>>, seen: set<Work>, work: seq<Work>, next: seq<Work>, managed: bool,
                        exact: bool)
    requires |work| > 0 && SearchInv(g, seen, work, exact)
    requires Visitable(g, work[|work| - 1].block)
    requires var w := work[|work| - 1];
      && (managed ==> w.managed || BlockRegisters(g[w.block]))
      && (exact ==> managed == (w.managed || BlockRegisters(g[w.block])))
      && (g[w.block].isReturn ==> next == [])
      && (!g[w.block].isReturn ==>
            |next| == |g[w.block].succs|
              && forall i :: 0 <= i < |next| ==> next[i] == Work(g[w.block].succs[i], managed))
    ensures SearchInv(g, seen + {work[|work| - 1]}, work[..|work| - 1] + next, exact)
  {
    var current := work[|work| - 1];
    var rest := work[..|work| - 1];
    var seen', work' := seen + {current}, rest + next;
    assert forall w :: w in work ==> w == current || w in rest;
    assert forall w :: w in Held(seen, work) ==> w in Held(seen', work');
    forall w | w in Held(seen', work') && Visitable(g, w.block)
      ensures WorkReachable(g, w, exact)
    {
      if w !in Held(seen, work) {
        assert w in next;
        WorkStep(g, current, w, exact);
      }
    }
    forall w, s | w in seen' && IsSuccessor(g, w.block, s)
      ensures Covers(g, Held(seen', work'), w, s)
    {
      if w in seen {
        assert Covers(g, Held(seen, work), w, s);
      } else {
        var i :| 0 <= i < |g[w.block].succs| && g[w.block].succs[i] == s;
        assert next[i] in work';
      }
    }
  }

  lemma RegistersSnoc(g: seq<Block<Node>>, p: seq<nat>)
    requires |p| > 0 && forall k :: 0 <= k < |p| ==> p[k] < |g|
    ensures RegistersOn(g, p) <==> RegistersOn(g, p[..|p| - 1]) || BlockRegisters(g[Last(p)])
  {
    var q := p[..|p| - 1];
    if RegistersOn(g, q) {
      var k :| 0 <= k < |q| && BlockRegisters(g[q[k]]);
      assert BlockRegisters(g[p[k]]);
    }
    if BlockRegisters(g[Last(p)]) {
      assert BlockRegisters(g[p[|p| - 1]]);
    }
    if RegistersOn(g, p) && !BlockRegisters(g[Last(p)]) {
      var k :| 0 <= k < |p| && BlockRegisters(g[p[k]]);
      assert q[k] == p[k];
    }
  }

  lemma WorkStep(g: seq<Block<Node>>, w: Work, s: Work, exact: bool)
    requires WorkReachable(g, w, exact) && IsSuccessor(g, w.block, s.block)
    requires exact ==> s.managed == (w.managed || BlockRegisters(g[w.block]))
    ensures WorkReachable(g, s, exact)
  {
    var p :| PathTo(g, p, w, exact);
    PathExtend(g, p, s.block);
    RegistersSnoc(g, p);
    assert (p + [s.block])[..|p|] == p;
    assert PathTo(g, p + [s.block], s, exact);
  }

  lemma {:induction false} PathIsSeen(g: seq<Block<Node>>, seen: set<Work>, p: seq<nat>) returns (m: bool)
    requires SearchInv(g, seen, [], false)
    requires IsPath(g, p)
    ensures Work(Last(p), m) in seen && (m ==> RegistersOn(g, p[..|p| - 1]))
    decreases |p|
  {
    m := false;
    if |p| > 1 {
      var q := p[..|p| - 1];
      var n := PathIsSeen(g, seen, q);
      RegistersSnoc(g, q);
      assert IsSuccessor(g, Last(q), Last(p)) && Covers(g, Held(seen, []), Work(Last(q), n), Last(p));
      m := Work(Last(p), false) !in seen;
    }
  }

  method NodeRegistersCleanup(node: Node, ctxErr: nat -> bool) returns (registered: bool)
    ensures registered ==> NodeRegisters(node)
    ensures (forall n :: !ctxErr(n)) ==> registered == NodeRegisters(node)
  {
    for i := 0 to |node|
      invariant (forall n :: !ctxErr(n)) ==>
        forall j :: 0 <= j < i ==> !(node[j].Cleanup? && AlwaysCloses(node[j].callback))
    {
      if node[i].Cleanup? {
        var closes := CallbackGuaranteesClose(node[i].callback, ctxErr);
        if closes {
          return true;
        }
      }
    }
    return false;
  }

  /** One block's nodes, in order, from the state at its start to the state at its end. */
  method RunBlock(block: Block<Node>, start: bool, ctxErr: nat -> bool) returns (managed: bool)
    ensures managed ==> start || BlockRegisters(block)
    ensures (forall n :: !ctxErr(n)) ==> managed == (start || BlockRegisters(block))
  {
    managed := start;
    for n := 0 to |block.nodes|
      invariant managed ==> start || BlockRegisters(block)
      invariant start ==> managed
      invariant (forall n :: !ctxErr(n)) && !managed ==> forall m :: 0 <= m < n ==> !NodeRegisters(block.nodes[m])
    {
      if !managed {
        managed := NodeRegistersCleanup(block.nodes[n], ctxErr);
      }
    }
  }

  /** Exact when the context is never cancelled; a cancelled search can only lose a managed result. */
  method CleanupRegisteredBeforeEveryReturn(g: seq<Block<Node>>, ctxErr: nat -> bool) returns (r: bool)
    ensures r ==> ManagedOnEveryReturn(g)
    ensures (forall n :: !ctxErr(n)) ==> r == ManagedOnEveryReturn(g)
  {
    if |g| == 0 {
      return false;
    }
    var work := [Work(0, false)];
    var seen: set<Work> := {};
    var foundReturn := false;
    var polls := 0;
    ghost var exact := forall n :: !ctxErr(n);
    WorkSearchStart(g, exact);
    while |work| != 0
      invariant SearchInv(g, seen, work, exact)
      invariant forall w :: w in seen && g[w.block].isReturn ==> w.managed || BlockRegisters(g[w.block])
      invariant foundReturn <==> exists w :: w in seen && g[w.block].isReturn
      decreases AllWork(g) - seen, |work|
    {
      if ctxErr(polls) {
        return false;
      }
      polls := polls + 1;
      var current := work[|work| - 1];
      if !Visitable(g, current.block) || current in seen {
        WorkSearchSkip(g, seen, work, exact);
        work := work[..|work| - 1];
        continue;
      }
      var managed := RunBlock(g[current.block], current.managed, ctxErr);
      var next := [];
      if g[current.block].isReturn {
        foundReturn := true;
        if !managed {
          if exact {
            UnmanagedReturn(g, current);
          }
          return false;
        }
      } else {
        var succs := g[current.block].succs;
        next := seq(|succs|, i requires 0 <= i < |succs| => Work(succs[i], managed));
      }
      WorkSearchVisit(g, seen, work, next, managed, exact);
      seen := seen + {current};
      work := work[..|work| - 1] + next;
    }
    SearchDecidesManaged(g, seen, foundReturn, exact);
    return foundReturn;
  }

  lemma UnmanagedReturn(g: seq<Block<Node>>, w: Work)
    requires WorkReachable(g, w, true) && w.block < |g| && g[w.block].isReturn
    requires !w.managed && !BlockRegisters(g[w.block])
    ensures !ManagedOnEveryReturn(g)
  {
    var p :| PathTo(g, p, w, true);
    RegistersSnoc(g, p);
    assert IsReturnPath(g, p);
  }

  lemma SearchDecidesManaged(g: seq<Block<Node>>, seen: set<Work>, foundReturn: bool, exact: bool)
    requires SearchInv(g, seen, [], exact)
    requires forall w :: w in seen && w.block < |g| && g[w.block].isReturn ==> w.managed || BlockRegisters(g[w.block])
    requires foundReturn <==> exists w :: w in seen && w.block < |g| && g[w.block].isReturn
    ensures foundReturn == ManagedOnEveryReturn(g)
  {
    forall w | w in seen
      ensures WorkReachable(g, w, false)
    {
      assert w in Held(seen, []);
      var p :| PathTo(g, p, w, exact);
      assert PathTo(g, p, w, false);
    }
    forall p | IsReturnPath(g, p)
      ensures foundReturn && RegistersOn(g, p)
    {
      var m := PathIsSeen(g, seen, p);
      assert g[Work(Last(p), m).block].isReturn;
      RegistersSnoc(g, p);
    }
    if foundReturn {
      var w :| w in seen && w.block < |g| && g[w.block].isReturn;
      var p :| PathTo(g, p, w, false);
      assert IsReturnPath(g, p);
    }
  }
}
