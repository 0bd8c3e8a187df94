/** Functions as the inference of effects sees them, and what running them does to a tracked value. */
module EffectPrograms {
  import opened ControlFlow
  import opened EffectKinds
  import opened Wrappers
  import NoReturn

  /** The tracked value of a function: its receiver or one of its parameters. */
  datatype Slot = Receiver(fn: nat) | Parameter(fn: nat, index: nat)

  /** Where a call passes the tracked value; `Unresolved` has no static callee or no matching parameter. */
  datatype Binding = Bound(slot: Slot) | Unresolved

  datatype ReceiverUse = NotReceiver | AsReceiver(callee: Option<nat>)

  /** What the walk over a node meets.  After `Rebind` the variable may hold another value: it is assigned to, its
      address is taken, or a range clause sets it; the walk takes notice of those that are `seen`, for a receiver. */
  datatype Event =
    | Direct(kind: Kind)
    | Ambiguous
    | Rebind(seen: bool)
    | Call(receiver: ReceiverUse, arguments: seq<Binding>)

  /** A certain use happens whenever its node completes.  Others may be skipped, like the right operand of `&&`. */
  datatype Use = Use(event: Event, certain: bool)

  /** A node in the control flow, with the uses of the tracked value in the order the walk meets them. */
  datatype Node = Node(flow: NoReturn.Node, uses: seq<Use>)

  type Graph = seq<Block<Node>>

  /** `bodies` has a graph for receivers and parameters of defined functions; `facts` describes the functions
      defined elsewhere. */
  datatype Program = Program(flow: NoReturn.Program, defined: set<nat>, bodies: map<Slot, Graph>,
    facts: Slot -> Summary)
  {
    function Fact(slot: Slot): Summary {
      if slot.fn in defined then NO_SUMMARY else facts(slot)
    }
  }

  // ---------- The control flow of a graph ----------

  function FlowBlock(b: Block<Node>): Block<NoReturn.Node> {
    Block(seq(|b.nodes|, i requires 0 <= i < |b.nodes| => b.nodes[i].flow), b.live, b.isReturn, b.succs)
  }

  function Flow(g: Graph): NoReturn.Graph {
    seq(|g|, b requires 0 <= b < |g| => FlowBlock(g[b]))
  }

  lemma FlowHasPath(g: Graph, p: seq<nat>)
    ensures IsPath(Flow(g), p) <==> IsPath(g, p)
  {
  }

  predicate Rebinds(node: Node) {
    exists u :: 0 <= u < |node.uses| && node.uses[u].event.Rebind?
  }

  /** Some node before node `n` of the `k`-th block of the path may have given the variable another value. */
  ghost predicate Rebound(g: Graph, p: seq<nat>, k: int, n: int)
    requires IsPath(g, p) && 0 <= k < |p|
  {
    exists j, m :: 0 <= j <= k && 0 <= m < |g[p[j]].nodes| && (j == k ==> m < n) && Rebinds(g[p[j]].nodes[m])
  }

  // ---------- What running code does ----------

  /** Some returning call whose call tree has at most `depth` levels performs the kinds `performed` (and perhaps
      fewer) on `slot`.  A function defined elsewhere does what its fact admits. */
  ghost predicate Performs(prog: Program, slot: Slot, performed: set<Kind>, depth: nat)
    decreases depth, 0
  {
    && depth > 0
    && if slot in prog.bodies then exists p, i: nat :: RunPerforms(prog, prog.bodies[slot], p, i, performed, depth)
       else Admits(prog.Fact(slot), performed)
  }

  /** The body returns before node `i` of the last block of the path, at its end or because it recovers from a panic
      there; the nodes it completed before that happen. */
  ghost predicate RunPerforms(prog: Program, g: Graph, p: seq<nat>, i: nat, performed: set<Kind>, depth: nat)
    requires depth > 0
    decreases depth - 1, 4
  {
    && IsPath(g, p) && NoReturn.EndsAt(prog.flow, {}, Flow(g), p, i, false, depth)
    && forall k, n :: NoReturn.Before(g, p, i, k, n) && !Rebound(g, p, k, n) ==>
         NodeHappens(prog, g[p[k]].nodes[n], performed, depth - 1)
  }

  ghost predicate NodeHappens(prog: Program, node: Node, performed: set<Kind>, depth: nat)
    decreases depth, 3
  {
    forall u :: 0 <= u < |node.uses| && node.uses[u].certain ==>
      EventHappens(prog, node.uses[u].event, performed, depth)
  }

  ghost predicate EventHappens(prog: Program, e: Event, performed: set<Kind>, depth: nat)
    decreases depth, 2
  {
    match e
    case Direct(kind) => kind in performed
    case Ambiguous => true
    case Rebind(_) => true
    case Call(receiver, arguments) =>
      && (receiver.AsReceiver? && receiver.callee.Some? ==>
           BindingHappens(prog, Bound(Receiver(receiver.callee.value)), performed, depth))
      && forall a :: 0 <= a < |arguments| ==> BindingHappens(prog, arguments[a], performed, depth)
  }

  ghost predicate BindingHappens(prog: Program, b: Binding, performed: set<Kind>, depth: nat)
    decreases depth, 1
  {
    b.Bound? ==> exists q :: q <= performed && Performs(prog, b.slot, q, depth)
  }

  /** Every returning call with a finite call tree does what the summary says. */
  ghost predicate Sound(prog: Program, slot: Slot, s: Summary) {
    forall performed, depth: nat :: Performs(prog, slot, performed, depth) ==> Admits(s, performed)
  }

  lemma NothingIsSound(prog: Program, slot: Slot)
    ensures Sound(prog, slot, NO_SUMMARY)
  {
  }

  /** An execution in which the event happens agrees with the effects found. */
  ghost predicate Promises(kinds: set<Kind>, guaranteed: set<Kind>, performed: set<Kind>) {
    guaranteed <= performed && kinds * performed != {}
  }

  ghost predicate EventPromises(prog: Program, e: Event, kinds: set<Kind>, guaranteed: set<Kind>) {
    forall performed, depth: nat :: EventHappens(prog, e, performed, depth) ==> Promises(kinds, guaranteed, performed)
  }

  lemma BindingPromises(prog: Program, b: Binding, s: Summary)
    requires b.Bound? && Sound(prog, b.slot, s) && s.always
    ensures forall performed, depth: nat :: BindingHappens(prog, b, performed, depth) ==>
      Promises(s.kinds, s.guaranteed, performed)
  {
    forall performed, depth: nat | BindingHappens(prog, b, performed, depth)
      ensures Promises(s.kinds, s.guaranteed, performed)
    {
      var q :| q <= performed && Performs(prog, b.slot, q, depth);
      assert Admits(s, q);
      var k :| k in s.kinds * q;
      assert k in s.kinds * performed;
    }
  }

  // ---------- Graphs whose blocks were cut after calls that never return ----------

  /** `cut` describes the functions of `raw` by the graphs that no-return analysis left; where it left none there is
      no summary to be had. */
  ghost predicate IsCutOf(raw: Program, cut: Program, never: set<nat>) {
    && cut.flow == raw.flow && cut.defined == raw.defined && cut.facts == raw.facts
    && (forall slot :: slot in raw.bodies ==> slot.fn in raw.defined)
    && forall slot :: slot in cut.bodies ==>
      slot in raw.bodies && BodyIsCut(raw.flow, never, raw.bodies[slot], cut.bodies[slot])
  }

  ghost predicate BodyIsCut(flow: NoReturn.Program, never: set<nat>, raw: Graph, cut: Graph) {
    && |raw| == |cut| && NoReturn.IsPruned(flow, never, Flow(raw), Flow(cut))
    && forall b :: 0 <= b < |raw| ==> cut[b].nodes <= raw[b].nodes
  }

  /** If the functions taken never to return do not return, whatever code does it does in the cut graphs. */
  lemma {:induction false} CutPerformsTheSame(raw: Program, cut: Program, never: set<nat>, slot: Slot,
                                              performed: set<Kind>,
                                              depth: nat)
    requires IsCutOf(raw, cut, never) && forall f, d: nat :: f in never ==> !NoReturn.Returns(raw.flow, f, d)
    requires Performs(raw, slot, performed, depth)
    ensures Performs(cut, slot, performed, depth)
    decreases depth, 0
  {
    if slot in cut.bodies {
      var p, i: nat :| RunPerforms(raw, raw.bodies[slot], p, i, performed, depth);
      CutRunsTheSame(raw, cut, never, raw.bodies[slot], cut.bodies[slot], p, i, performed, depth);
    }
  }

  lemma {:induction false} CutRunsTheSame(raw: Program, cut: Program, never: set<nat>, g: Graph, h: Graph, p: seq<nat>,
                                          i: nat, performed: set<Kind>, depth: nat)
    requires IsCutOf(raw, cut, never) && forall f, d: nat :: f in never ==> !NoReturn.Returns(raw.flow, f, d)
    requires depth > 0 && BodyIsCut(raw.flow, never, g, h) && RunPerforms(raw, g, p, i, performed, depth)
    ensures RunPerforms(cut, h, p, i, performed, depth)
    decreases depth - 1, 4
  {
    hide NoReturn.EndsAt, NoReturn.IsPruned, Flow, NodeHappens;
    CutEndsTheSame(raw.flow, never, g, h, p, i, depth);
    InnerBlocksAreWhole(raw.flow, never, g, h, p);
    CutNodesHappen(raw, cut, never, g, h, p, i, performed, depth - 1);
  }

  lemma {:induction false} CutNodesHappen(raw: Program, cut: Program, never: set<nat>, g: Graph, h: Graph, p: seq<nat>,
                                          i: nat, performed: set<Kind>, depth: nat)
    requires IsCutOf(raw, cut, never) && forall f, d: nat :: f in never ==> !NoReturn.Returns(raw.flow, f, d)
    requires |g| == |h| && IsPath(g, p) && IsPath(h, p) && forall b :: 0 <= b < |g| ==> h[b].nodes <= g[b].nodes
    requires forall k :: 0 <= k < |p| - 1 ==> |h[p[k]].nodes| == |g[p[k]].nodes|
    requires forall k, n :: NoReturn.Before(g, p, i, k, n) && !Rebound(g, p, k, n) ==>
               NodeHappens(raw, g[p[k]].nodes[n], performed, depth)
    ensures forall k, n :: NoReturn.Before(h, p, i, k, n) && !Rebound(h, p, k, n) ==>
              NodeHappens(cut, h[p[k]].nodes[n], performed, depth)
    decreases depth, 3
  {
    forall k, n | NoReturn.Before(h, p, i, k, n) && !Rebound(h, p, k, n)
      ensures NodeHappens(cut, h[p[k]].nodes[n], performed, depth)
    {
      SameRebinding(g, h, p, k, n);
      assert NoReturn.Before(g, p, i, k, n);
      CutNodeHappens(raw, cut, never, g[p[k]].nodes[n], performed, depth);
    }
  }

  lemma CutEndsTheSame(flow: NoReturn.Program, never: set<nat>, g: Graph, h: Graph, p: seq<nat>, i: nat, depth: nat)
    requires BodyIsCut(flow, never, g, h) && forall f, d: nat :: f in never ==> !NoReturn.Returns(flow, f, d)
    requires depth > 0 && NoReturn.EndsAt(flow, {}, Flow(g), p, i, false, depth)
    ensures NoReturn.EndsAt(flow, {}, Flow(h), p, i, false, depth) && IsPath(h, p)
  {
    NoReturn.PrunedKeepsExecutions(flow, never, Flow(g), Flow(h));
    FlowHasPath(h, p);
  }

  /** Control does not flow on from a block that was cut. */
  lemma InnerBlocksAreWhole(flow: NoReturn.Program, never: set<nat>, g: Graph, h: Graph, p: seq<nat>)
    requires BodyIsCut(flow, never, g, h) && IsPath(h, p)
    ensures forall k :: 0 <= k < |p| - 1 ==> |h[p[k]].nodes| == |g[p[k]].nodes|
  {
    forall k | 0 <= k < |p| - 1
      ensures |h[p[k]].nodes| == |g[p[k]].nodes|
    {
      assert p[k + 1] in h[p[k]].succs;
      assert NoReturn.IsCut(flow, never, Flow(g)[p[k]], Flow(h)[p[k]]);
      assert |Flow(g)[p[k]].nodes| == |g[p[k]].nodes| && |Flow(h)[p[k]].nodes| == |h[p[k]].nodes|;
    }
  }

  lemma SameRebinding(g: Graph, h: Graph, p: seq<nat>, k: int, n: int)
    requires |g| == |h| && IsPath(g, p) && IsPath(h, p) && 0 <= k < |p|
    requires forall b :: 0 <= b < |g| ==> h[b].nodes <= g[b].nodes
    requires forall j :: 0 <= j < k ==> |h[p[j]].nodes| == |g[p[j]].nodes|
    requires n <= |h[p[k]].nodes|
    ensures Rebound(g, p, k, n) <==> Rebound(h, p, k, n)
  {
  }

  lemma {:induction false} CutNodeHappens(raw: Program, cut: Program, never: set<nat>, node: Node, performed: set<Kind>,
                                          depth: nat)
    requires IsCutOf(raw, cut, never) && forall f, d: nat :: f in never ==> !NoReturn.Returns(raw.flow, f, d)
    requires NodeHappens(raw, node, performed, depth)
    ensures NodeHappens(cut, node, performed, depth)
    decreases depth, 2
  {
    forall b | BindingHappens(raw, b, performed, depth)
      ensures BindingHappens(cut, b, performed, depth)
    {
      if b.Bound? {
        var q :| q <= performed && Performs(raw, b.slot, q, depth);
        CutPerformsTheSame(raw, cut, never, b.slot, q, depth);
      }
    }
  }
}
