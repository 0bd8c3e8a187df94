/** Exactly when the guarantee that a search finds follows from what it read
    (summarizeParameter and parameterNodeEffect in internal/analysis/parameter_effects.go). */
module EffectGuarantees {
  import opened ControlFlow
  import opened EffectEquations
  import opened EffectKinds
  import opened EffectPrograms
  import opened EffectSummaries
  import opened Wrappers
  import NoReturn

  // ---------- Programs that a search cannot tell apart ----------

  /** What the walk reads of an event: of a call on an unknown receiver not the arguments. */
  ghost function Read(e: Event, answer: Slot -> Summary): Event {
    match e
    case Call(AsReceiver(None), _) => Call(e.receiver, [])
    case Call(AsReceiver(Some(f)), _) => if answer(Receiver(f)).known then e else Call(e.receiver, [])
    case _ => e
  }

  lemma ReadIsFound(e: Event, receiver: bool, answer: Slot -> Summary)
    ensures EventFound(Read(e, answer), receiver, answer) == EventFound(e, receiver, answer)
    ensures Read(Read(e, answer), answer) == Read(e, answer)
  {
  }

  ghost predicate UseAlike(one: Use, two: Use, answer: Slot -> Summary) {
    one.certain == two.certain && Read(one.event, answer) == Read(two.event, answer)
  }

  ghost predicate UsesAlike(one: seq<Use>, two: seq<Use>, answer: Slot -> Summary, upto: nat) {
    |one| >= upto && |two| >= upto && forall u :: 0 <= u < upto ==> UseAlike(one[u], two[u], answer)
  }

  ghost predicate NodeAlike(one: Node, two: Node, answer: Slot -> Summary) {
    one.flow == two.flow && |one.uses| == |two.uses| && UsesAlike(one.uses, two.uses, answer, |one.uses|)
  }

  ghost predicate NodesAlike(one: seq<Node>, two: seq<Node>, answer: Slot -> Summary, upto: nat) {
    |one| >= upto && |two| >= upto && forall m :: 0 <= m < upto ==> NodeAlike(one[m], two[m], answer)
  }

  /** The same as far as a search with verdict `v` reads: up to the deciding use, or to the end. */
  ghost predicate BlockAlike(one: Block<Node>, two: Block<Node>, v: Verdict, at: Place, answer: Slot -> Summary) {
    if v.Effects? then
      && NodesAlike(one.nodes, two.nodes, answer, at.node) && at.node < |one.nodes| && at.node < |two.nodes|
      && one.nodes[at.node].flow == two.nodes[at.node].flow
      && UsesAlike(one.nodes[at.node].uses, two.nodes[at.node].uses, answer, at.use + 1)
    else
      && |one.nodes| == |two.nodes| && NodesAlike(one.nodes, two.nodes, answer, |one.nodes|)
      && one.isReturn == two.isReturn && one.succs == two.succs
  }

  ghost predicate GraphAlike(g: Graph, h: Graph, t: Trace, answer: Slot -> Summary) {
    && |g| == |h| && t.verdicts.Keys == t.at.Keys
    && (forall b :: 0 <= b < |g| ==> g[b].live == h[b].live)
    && forall b :: b in t.verdicts && b < |g| ==> BlockAlike(g[b], h[b], t.verdicts[b], t.at[b], answer)
  }

  /** A program that agrees with what the search of a slot read, and whose other functions keep the answers it got. */
  ghost predicate Alike(prog: Program, slot: Slot, g: Graph, t: Trace, answer: Slot -> Summary) {
    slot in prog.bodies && GraphAlike(g, prog.bodies[slot], t, answer) && AllSound(prog, answer)
  }

  lemma AlikeHasPath(g: Graph, h: Graph, t: Trace, answer: Slot -> Summary, p: seq<nat>, b: nat)
    requires GraphAlike(g, h, t, answer)
    ensures VerdictPathTo(g, t.verdicts, p, b) <==> VerdictPathTo(h, t.verdicts, p, b)
  {
    hide NodesAlike;
    if |p| > 0 && Last(p) == b && forall k :: 0 <= k < |p| - 1 ==> p[k] in t.verdicts && t.verdicts[p[k]].Open? {
      forall k | 0 <= k < |p| - 1 && p[k] < |g|
        ensures g[p[k]].isReturn == h[p[k]].isReturn && g[p[k]].succs == h[p[k]].succs
      {
        assert BlockAlike(g[p[k]], h[p[k]], t.verdicts[p[k]], t.at[p[k]], answer);
      }
    }
  }

  lemma AlikeIsExplored(g: Graph, h: Graph, t: Trace, answer: Slot -> Summary)
    requires GraphAlike(g, h, t, answer) && Explored(g, t.verdicts)
    ensures Explored(h, t.verdicts)
  {
    hide BlockAlike;
    forall p, b
      ensures VerdictPathTo(g, t.verdicts, p, b) <==> VerdictPathTo(h, t.verdicts, p, b)
    {
      AlikeHasPath(g, h, t, answer, p, b);
    }
    forall b: nat, s: nat | VerdictEdge(h, t.verdicts, b, s)
      ensures VerdictEdge(g, t.verdicts, b, s)
    {
      OpenBlockAlike(g[b], h[b], t.at[b], answer);
    }
  }

  lemma OpenBlockAlike(one: Block<Node>, two: Block<Node>, at: Place, answer: Slot -> Summary)
    requires BlockAlike(one, two, Open, at, answer)
    ensures one.isReturn == two.isReturn && one.succs == two.succs && |one.nodes| == |two.nodes|
  {
  }

  lemma AlikeSummarizes(g: Graph, h: Graph, t: Trace, answer: Slot -> Summary, s: Summary)
    requires GraphAlike(g, h, t, answer) && Summarizes(g, t.verdicts, s)
    ensures Summarizes(h, t.verdicts, s)
  {
    hide BlockAlike, VerdictPathTo;
    forall b: nat
      ensures Reached(g, t.verdicts, b) <==> Reached(h, t.verdicts, b)
      ensures b in t.verdicts && t.verdicts[b].Open? && b < |g| ==> g[b].isReturn == h[b].isReturn
    {
      forall p
        ensures VerdictPathTo(g, t.verdicts, p, b) <==> VerdictPathTo(h, t.verdicts, p, b)
      {
        AlikeHasPath(g, h, t, answer, p, b);
      }
      if b in t.verdicts && t.verdicts[b].Open? && b < |g| {
        OpenBlockAlike(g[b], h[b], t.at[b], answer);
      }
    }
    hide Reached;
    assert ReachesEffect(g, t.verdicts) <==> ReachesEffect(h, t.verdicts);
    assert ReachesOpenReturn(g, t.verdicts) <==> ReachesOpenReturn(h, t.verdicts);
  }

  /** Verdicts hold in a program alike, whose deciding uses come to the same. */
  lemma AlikeHolds(prog: Program, g: Graph, h: Graph, receiver: bool, answer: Slot -> Summary, t: Trace)
    requires AllSound(prog, answer) && VerdictsFound(g, receiver, answer, t) && GraphAlike(g, h, t, answer)
    ensures TracePlaced(h, t) && VerdictsHold(prog, h, t)
  {
    hide AllSound;
    forall b | b in t.verdicts
      ensures b < |h| && IsPlaced(h[b], t.verdicts[b], t.at[b]) && BlockPromises(prog, h[b], t.verdicts[b], t.at[b])
    {
      var at := t.at[b];
      NodesDecide(g[b].nodes, receiver, answer);
      assert BlockAlike(g[b], h[b], t.verdicts[b], at, answer);
      if t.verdicts[b].Effects? {
        var one, two := g[b].nodes[at.node].uses[at.use], h[b].nodes[at.node].uses[at.use];
        assert UseAlike(one, two, answer);
        ReadIsFound(one.event, receiver, answer);
        ReadIsFound(two.event, receiver, answer);
        FoundIsPromised(prog, two.event, receiver, answer);
      }
    }
  }

  lemma AlikeRebinds(one: Node, two: Node, answer: Slot -> Summary)
    requires NodeAlike(one, two, answer)
    ensures Rebinds(one) <==> Rebinds(two)
  {
    forall u | 0 <= u < |one.uses|
      ensures one.uses[u].event.Rebind? <==> two.uses[u].event.Rebind?
    {
      assert UseAlike(one.uses[u], two.uses[u], answer);
    }
  }

  /** The nodes that the search read on a path are alike. */
  lemma AlikeAlong(g: Graph, h: Graph, t: Trace, answer: Slot -> Summary, p: seq<nat>, k: nat)
    requires GraphAlike(g, h, t, answer) && TracePlaced(g, t) && TracePlaced(h, t)
    requires |p| > 0 && VerdictPathTo(g, t.verdicts, p, Last(p)) && Last(p) in t.verdicts && k < |p|
    ensures k < |p| - 1 ==> |g[p[k]].nodes| == |h[p[k]].nodes|
    ensures k == |p| - 1 ==> NodesRead(g, t, p[k]) == NodesRead(h, t, p[k])
    ensures forall n :: 0 <= n < (if k < |p| - 1 then |g[p[k]].nodes| else NodesRead(g, t, p[k])) ==>
      n < |h[p[k]].nodes| && g[p[k]].nodes[n].flow == h[p[k]].nodes[n].flow
      && (!t.verdicts[p[k]].Effects? || n < t.at[p[k]].node ==>
        (Rebinds(g[p[k]].nodes[n]) <==> Rebinds(h[p[k]].nodes[n])))
  {
    var b := p[k];
    assert BlockAlike(g[b], h[b], t.verdicts[b], t.at[b], answer);
    forall n | 0 <= n < |g[b].nodes| && (!t.verdicts[b].Effects? || n < t.at[b].node)
      ensures n < |h[b].nodes| && g[b].nodes[n].flow == h[b].nodes[n].flow
      ensures Rebinds(g[b].nodes[n]) <==> Rebinds(h[b].nodes[n])
    {
      assert NodeAlike(g[b].nodes[n], h[b].nodes[n], answer);
      AlikeRebinds(g[b].nodes[n], h[b].nodes[n], answer);
    }
  }

  lemma AlikeBefore(g: Graph, h: Graph, t: Trace, answer: Slot -> Summary, p: seq<nat>, i: nat, k: int, n: int)
    requires GraphAlike(g, h, t, answer) && TracePlaced(g, t) && TracePlaced(h, t)
    requires |p| > 0 && VerdictPathTo(g, t.verdicts, p, Last(p)) && Last(p) in t.verdicts
    requires VerdictPathTo(h, t.verdicts, p, Last(p)) && i <= NodesRead(g, t, Last(p))
    ensures i <= NodesRead(h, t, Last(p))
    ensures NoReturn.Before(g, p, i, k, n) <==> NoReturn.Before(h, p, i, k, n)
    ensures NoReturn.Before(g, p, i, k, n) ==> g[p[k]].nodes[n].flow == h[p[k]].nodes[n].flow
    ensures NoReturn.Before(g, p, i, k, n) && (!t.verdicts[Last(p)].Effects? || i <= t.at[Last(p)].node) ==>
      (Rebinds(g[p[k]].nodes[n]) <==> Rebinds(h[p[k]].nodes[n]))
  {
    hide GraphAlike, Rebinds;
    AlikeAlong(g, h, t, answer, p, |p| - 1);
    if 0 <= k < |p| {
      AlikeAlong(g, h, t, answer, p, k);
    }
  }

  /** What the part of a path that was read shows is the same in graphs alike. */
  lemma AlikeShows(g: Graph, h: Graph, t: Trace, answer: Slot -> Summary, p: seq<nat>, i: nat)
    requires GraphAlike(g, h, t, answer) && TracePlaced(g, t) && TracePlaced(h, t)
    requires |p| > 0 && VerdictPathTo(g, t.verdicts, p, Last(p)) && Last(p) in t.verdicts
    requires VerdictPathTo(h, t.verdicts, p, Last(p)) && i <= NodesRead(g, t, Last(p))
    ensures IsPath(g, p) && IsPath(h, p) && i <= |h[Last(p)].nodes|
    ensures NoPanicBefore(h, p, i) <==> NoPanicBefore(g, p, i)
    ensures NoReturn.Guarded(Flow(h), p, i) <==> NoReturn.Guarded(Flow(g), p, i)
    ensures !t.verdicts[Last(p)].Effects? || i <= t.at[Last(p)].node ==>
      (Rebound(h, p, |p| - 1, i) <==> Rebound(g, p, |p| - 1, i))
  {
    hide GraphAlike, Rebinds, IsPlaced;
    AlikeAlong(g, h, t, answer, p, |p| - 1);
    forall k, n
      ensures NoReturn.Before(g, p, i, k, n) <==> NoReturn.Before(h, p, i, k, n)
      ensures NoReturn.Before(g, p, i, k, n) ==> g[p[k]].nodes[n].flow == h[p[k]].nodes[n].flow
      ensures NoReturn.Before(g, p, i, k, n) && (!t.verdicts[Last(p)].Effects? || i <= t.at[Last(p)].node) ==>
        (Rebinds(g[p[k]].nodes[n]) <==> Rebinds(h[p[k]].nodes[n]))
    {
      AlikeBefore(g, h, t, answer, p, i, k, n);
    }
    GuardedInFlow(g, p, i);
    GuardedInFlow(h, p, i);
    ReboundBefore(g, p, i);
    ReboundBefore(h, p, i);
  }

  lemma GuardedInFlow(g: Graph, p: seq<nat>, i: nat)
    requires IsPath(g, p)
    ensures IsPath(Flow(g), p)
    ensures NoReturn.Guarded(Flow(g), p, i) <==>
      exists k, n :: NoReturn.Before(g, p, i, k, n) && g[p[k]].nodes[n].flow.Guard?
  {
    FlowHasPath(g, p);
    assert forall k, n :: NoReturn.Before(g, p, i, k, n) <==> NoReturn.Before(Flow(g), p, i, k, n);
    assert forall k, n :: NoReturn.Before(g, p, i, k, n) ==> Flow(g)[p[k]].nodes[n] == g[p[k]].nodes[n].flow;
  }

  lemma ReboundBefore(g: Graph, p: seq<nat>, i: nat)
    requires IsPath(g, p)
    ensures Rebound(g, p, |p| - 1, i) <==> exists k, n :: NoReturn.Before(g, p, i, k, n) && Rebinds(g[p[k]].nodes[n])
  {
    if Rebound(g, p, |p| - 1, i) {
      var j, m :| 0 <= j < |p| && 0 <= m < |g[p[j]].nodes| && (j == |p| - 1 ==> m < i) && Rebinds(g[p[j]].nodes[m]);
      assert NoReturn.Before(g, p, i, j, m);
    }
  }

  lemma AlikeDecides(g: Graph, h: Graph, t: Trace, answer: Slot -> Summary, b: nat)
    requires GraphAlike(g, h, t, answer) && TracePlaced(g, t) && TracePlaced(h, t)
    requires b in t.verdicts && b < |g| && t.verdicts[b].Effects?
    ensures var at := t.at[b];
      && at.node < |g[b].nodes| && at.node < |h[b].nodes|
      && at.use < |g[b].nodes[at.node].uses| && at.use < |h[b].nodes[at.node].uses|
      && g[b].nodes[at.node].uses[at.use].certain == h[b].nodes[at.node].uses[at.use].certain
  {
    var at := t.at[b];
    assert BlockAlike(g[b], h[b], t.verdicts[b], at, answer) && IsPlaced(g[b], t.verdicts[b], at);
    assert UseAlike(g[b].nodes[at.node].uses[at.use], h[b].nodes[at.node].uses[at.use], answer);
  }

  lemma AlikeIsPlaced(g: Graph, h: Graph, t: Trace, answer: Slot -> Summary)
    requires GraphAlike(g, h, t, answer) && TracePlaced(g, t)
    ensures TracePlaced(h, t)
  {
    forall b | b in t.verdicts && b < |h|
      ensures IsPlaced(h[b], t.verdicts[b], t.at[b])
    {
      assert BlockAlike(g[b], h[b], t.verdicts[b], t.at[b], answer) && IsPlaced(g[b], t.verdicts[b], t.at[b]);
    }
  }

  /** Ways around a deciding use in one graph are ways around it in a graph alike. */
  lemma AlikeEvadesDecision(g: Graph, h: Graph, t: Trace, answer: Slot -> Summary, p: seq<nat>)
    requires GraphAlike(g, h, t, answer) && TracePlaced(g, t) && TracePlaced(h, t) && EvadesDecision(h, t, p)
    ensures EvadesDecision(g, t, p)
  {
    hide GraphAlike, IsPlaced, NoPanicBefore, NoReturn.Guarded, Rebound, Flow;
    var b := Last(p);
    AlikeHasPath(g, h, t, answer, p, b);
    AlikeDecides(g, h, t, answer, b);
    AlikeShows(g, h, t, answer, p, t.at[b].node + 1);
    AlikeShows(g, h, t, answer, p, t.at[b].node);
  }

  lemma AlikeEvadesByRecovery(g: Graph, h: Graph, t: Trace, answer: Slot -> Summary, p: seq<nat>, i: nat)
    requires GraphAlike(g, h, t, answer) && TracePlaced(g, t) && TracePlaced(h, t) && EvadesByRecovery(h, t, p, i)
    ensures EvadesByRecovery(g, t, p, i)
  {
    hide GraphAlike, IsPlaced, NoPanicBefore, NoReturn.Guarded, Flow;
    AlikeHasPath(g, h, t, answer, p, Last(p));
    AlikeAlong(g, h, t, answer, p, |p| - 1);
    AlikeShows(g, h, t, answer, p, i);
  }

  lemma AlikeIsFirm(g: Graph, h: Graph, t: Trace, answer: Slot -> Summary)
    requires GraphAlike(g, h, t, answer) && TracePlaced(h, t) && Firm(g, t)
    ensures Firm(h, t)
  {
    hide GraphAlike, TracePlaced, EvadesDecision, EvadesByRecovery;
    forall p | EvadesDecision(h, t, p)
      ensures EvadesDecision(g, t, p)
    {
      AlikeEvadesDecision(g, h, t, answer, p);
    }
    forall p, i: nat | EvadesByRecovery(h, t, p, i)
      ensures EvadesByRecovery(g, t, p, i)
    {
      AlikeEvadesByRecovery(g, h, t, answer, p, i);
    }
  }

  // ---------- A program in which a guarantee without firm decisions fails ----------

  /** A body in which only what was read is left. */
  ghost function HollowNode(node: Node, answer: Slot -> Summary): Node {
    Node(node.flow, seq(|node.uses|, u requires 0 <= u < |node.uses| => HollowUse(node.uses[u], answer)))
  }

  ghost function HollowUse(use: Use, answer: Slot -> Summary): Use {
    Use(Read(use.event, answer), use.certain)
  }

  ghost function HollowBlock(b: Block<Node>, answer: Slot -> Summary): Block<Node> {
    Block(seq(|b.nodes|, i requires 0 <= i < |b.nodes| => HollowNode(b.nodes[i], answer)), b.live, b.isReturn, b.succs)
  }

  ghost function Hollow(g: Graph, answer: Slot -> Summary): Graph {
    seq(|g|, b requires 0 <= b < |g| => HollowBlock(g[b], answer))
  }

  /** The block that returns just behind its deciding use. */
  ghost function Stopped(b: Block<Node>, at: Place, answer: Slot -> Summary): Block<Node>
    requires at.node < |b.nodes| && at.use < |b.nodes[at.node].uses|
  {
    var hollow := HollowBlock(b, answer);
    var last := hollow.nodes[at.node];
    Block(hollow.nodes[..at.node] + [Node(last.flow, last.uses[..at.use + 1])], b.live, true, [])
  }

  lemma HollowIsAlike(g: Graph, t: Trace, answer: Slot -> Summary)
    requires TracePlaced(g, t)
    ensures GraphAlike(g, Hollow(g, answer), t, answer)
  {
    forall b | b in t.verdicts && b < |g|
      ensures BlockAlike(g[b], Hollow(g, answer)[b], t.verdicts[b], t.at[b], answer)
    {
      HollowBlockIsAlike(g[b], t.verdicts[b], t.at[b], answer);
    }
  }

  lemma HollowNodeIsAlike(node: Node, answer: Slot -> Summary)
    ensures NodeAlike(node, HollowNode(node, answer), answer)
  {
    forall u | 0 <= u < |node.uses|
      ensures UseAlike(node.uses[u], HollowNode(node, answer).uses[u], answer)
    {
      ReadIsFound(node.uses[u].event, false, answer);
    }
  }

  lemma HollowBlockIsAlike(b: Block<Node>, v: Verdict, at: Place, answer: Slot -> Summary)
    requires IsPlaced(b, v, at)
    ensures BlockAlike(b, HollowBlock(b, answer), v, at, answer)
    ensures v.Effects? ==> BlockAlike(b, Stopped(b, at, answer), v, at, answer)
  {
    hide NodeAlike, HollowNode;
    forall m | 0 <= m < |b.nodes|
      ensures NodeAlike(b.nodes[m], HollowBlock(b, answer).nodes[m], answer)
    {
      HollowNodeIsAlike(b.nodes[m], answer);
    }
    if v.Effects? {
      PartIsAlike(b.nodes[at.node], HollowNode(b.nodes[at.node], answer), at.use + 1, answer);
    }
  }

  lemma PartIsAlike(one: Node, two: Node, upto: nat, answer: Slot -> Summary)
    requires NodeAlike(one, two, answer) && upto <= |one.uses|
    ensures one.flow == two.flow && |one.uses| == |two.uses|
    ensures UsesAlike(one.uses, two.uses, answer, upto) && UsesAlike(one.uses, two.uses[..upto], answer, upto)
  {
  }

  lemma StoppedIsAlike(g: Graph, t: Trace, answer: Slot -> Summary, b: nat)
    requires TracePlaced(g, t) && b in t.verdicts && b < |g| && t.verdicts[b].Effects?
    ensures var at := t.at[b];
      && at.node < |g[b].nodes| && at.use < |g[b].nodes[at.node].uses|
      && GraphAlike(g, Hollow(g, answer)[b := Stopped(g[b], at, answer)], t, answer)
  {
    hide BlockAlike, HollowNode;
    HollowIsAlike(g, t, answer);
    assert IsPlaced(g[b], t.verdicts[b], t.at[b]);
    HollowBlockIsAlike(g[b], t.verdicts[b], t.at[b], answer);
  }

  /** One function, with callees that are known only by the answers and may return or panic as they like. */
  ghost function Lone(slot: Slot, h: Graph, answer: Slot -> Summary): Program {
    Program(NoReturn.UNKNOWN, {}, map[slot := h], answer)
  }

  lemma LoneIsSound(slot: Slot, h: Graph, answer: Slot -> Summary)
    requires !answer(slot).always
    ensures AllSound(Lone(slot, h, answer), answer)
  {
  }

  /** An idle event that was read whole may happen without any effect. */
  lemma IdleMayDoNothing(slot: Slot, h: Graph, answer: Slot -> Summary, e: Event)
    requires AllProper(answer) && !answer(slot).known && Idle(EventFound(e, slot.Receiver?, answer))
    ensures EventHappens(Lone(slot, h, answer), Read(e, answer), {}, 1)
  {
    var prog := Lone(slot, h, answer);
    forall other | other != slot && !answer(other).always
      ensures BindingHappens(prog, Bound(other), {}, 1)
    {
      var nothing: set<Kind> := {};
      assert nothing <= nothing && Performs(prog, other, nothing, 1);
    }
    if e.Call? {
      var start := Found({}, {}, false);
      if e.receiver.AsReceiver? && e.receiver.callee.Some? {
        var other := Receiver(e.receiver.callee.value);
        start := ReceiverFound(answer(other));
      }
      if e.receiver.NotReceiver? || (e.receiver.callee.Some? && answer(Receiver(e.receiver.callee.value)).known) {
        IdleArguments(e.arguments, answer, start);
      }
    }
  }

  lemma {:induction false} IdleArguments(arguments: seq<Binding>, answer: Slot -> Summary, found: Found)
    requires AllProper(answer) && Idle(ArgumentsFound(arguments, answer, found))
    ensures Idle(found)
    ensures forall a :: 0 <= a < |arguments| ==>
      arguments[a].Bound? && answer(arguments[a].slot).known && !answer(arguments[a].slot).always
    decreases |arguments|
  {
    if |arguments| > 0 {
      IdleArguments(arguments[..|arguments| - 1], answer, found);
    }
  }

  /** Nodes before the end of a read path may happen without any effect. */
  lemma IdleNodeMayDoNothing(slot: Slot, h: Graph, answer: Slot -> Summary, node: Node)
    requires AllProper(answer) && !answer(slot).known && AllIdle(node.uses, slot.Receiver?, answer)
    ensures NodeHappens(Lone(slot, h, answer), HollowNode(node, answer), {}, 1)
  {
    forall u | 0 <= u < |node.uses|
      ensures EventHappens(Lone(slot, h, answer), HollowNode(node, answer).uses[u].event, {}, 1)
    {
      IdleMayDoNothing(slot, h, answer, node.uses[u].event);
    }
  }

  lemma ReadNodeIsIdle(g: Graph, receiver: bool, answer: Slot -> Summary, t: Trace, b: nat, n: nat)
    requires VerdictsFound(g, receiver, answer, t) && b in t.verdicts && !t.verdicts[b].Opaque?
    requires n < if t.verdicts[b].Effects? then t.at[b].node else |g[b].nodes|
    ensures n < |g[b].nodes| && AllIdle(g[b].nodes[n].uses, receiver, answer)
  {
    NodesDecide(g[b].nodes, receiver, answer);
  }

  /** The last node read may happen without an effect, apart from the deciding use. */
  lemma LastNodeMayDoNothing(slot: Slot, h: Graph, g: Graph, answer: Slot -> Summary, t: Trace, b: nat)
    requires AllProper(answer) && !answer(slot).known
    requires VerdictsFound(g, slot.Receiver?, answer, t) && b in t.verdicts && t.verdicts[b].Effects?
    ensures var at := t.at[b];
      && at.node < |g[b].nodes| && at.use < |g[b].nodes[at.node].uses|
      && (!g[b].nodes[at.node].uses[at.use].certain ==>
           NodeHappens(Lone(slot, h, answer), Stopped(g[b], at, answer).nodes[at.node], {}, 1))
  {
    var at := t.at[b];
    NodesDecide(g[b].nodes, slot.Receiver?, answer);
    forall u | 0 <= u < at.use
      ensures EventHappens(Lone(slot, h, answer), Read(g[b].nodes[at.node].uses[u].event, answer), {}, 1)
    {
      assert g[b].nodes[at.node].uses[..at.use][u] == g[b].nodes[at.node].uses[u];
      IdleMayDoNothing(slot, h, answer, g[b].nodes[at.node].uses[u].event);
    }
  }

  /** An execution of the read part of a path, on which nothing is performed. */
  ghost predicate RunsIdly(slot: Slot, h: Graph, answer: Slot -> Summary, p: seq<nat>, i: nat) {
    RunPerforms(Lone(slot, h, answer), h, p, i, {}, 2)
  }

  lemma EndsIdly(h: Graph, p: seq<nat>, i: nat)
    requires IsPath(h, p) && i <= |h[Last(p)].nodes| && NoPanicBefore(h, p, i)
    requires if i == |h[Last(p)].nodes| then h[Last(p)].isReturn
             else NoReturn.MayThrow(h[Last(p)].nodes[i].flow) && NoReturn.Guarded(Flow(h), p, i)
    ensures NoReturn.EndsAt(NoReturn.UNKNOWN, {}, Flow(h), p, i, false, 2)
  {
    FlowHasPath(h, p);
    assert forall k, n :: NoReturn.Before(Flow(h), p, i, k, n) ==>
      NoReturn.Before(h, p, i, k, n) && Flow(h)[p[k]].nodes[n] == h[p[k]].nodes[n].flow;
    NoReturn.UnknownEnds(Flow(h), p, i);
  }

  lemma RecoveringEnds(g: Graph, t: Trace, answer: Slot -> Summary, p: seq<nat>, i: nat)
    requires TracePlaced(g, t) && EvadesByRecovery(g, t, p, i)
    ensures IsPath(Hollow(g, answer), p)
    ensures NoReturn.EndsAt(NoReturn.UNKNOWN, {}, Flow(Hollow(g, answer)), p, i, false, 2)
  {
    hide GraphAlike, NoReturn.EndsAt, IsPlaced, Hollow, NoPanicBefore, NoReturn.Guarded, Flow;
    var h := Hollow(g, answer);
    HollowIsAlike(g, t, answer);
    AlikeIsPlaced(g, h, t, answer);
    AlikeHasPath(g, h, t, answer, p, Last(p));
    AlikeShows(g, h, t, answer, p, i);
    AlikeAlong(g, h, t, answer, p, |p| - 1);
    EndsIdly(h, p, i);
  }

  lemma HollowNodeHappens(slot: Slot, h: Graph, g: Graph, answer: Slot -> Summary, t: Trace, b: nat, n: nat)
    requires AllProper(answer) && !answer(slot).known && VerdictsFound(g, slot.Receiver?, answer, t)
    requires b in t.verdicts && !t.verdicts[b].Opaque?
    requires n < if t.verdicts[b].Effects? then t.at[b].node else |g[b].nodes|
    ensures n < |g[b].nodes| && NodeHappens(Lone(slot, h, answer), HollowNode(g[b].nodes[n], answer), {}, 1)
  {
    ReadNodeIsIdle(g, slot.Receiver?, answer, t, b, n);
    IdleNodeMayDoNothing(slot, h, answer, g[b].nodes[n]);
  }

  lemma HollowNodes(g: Graph, answer: Slot -> Summary, b: nat)
    requires b < |g|
    ensures |Hollow(g, answer)| == |g| && |Hollow(g, answer)[b].nodes| == |g[b].nodes|
    ensures forall n :: 0 <= n < |g[b].nodes| ==> Hollow(g, answer)[b].nodes[n] == HollowNode(g[b].nodes[n], answer)
  {
    hide HollowNode;
  }

  lemma SkippingEnds(g: Graph, t: Trace, answer: Slot -> Summary, p: seq<nat>)
    requires TracePlaced(g, t) && EvadesDecision(g, t, p)
    ensures var b, at := Last(p), t.at[Last(p)]; b < |g| && IsPlaced(g[b], t.verdicts[b], at)
    ensures var b, at := Last(p), t.at[Last(p)];
      var h := Hollow(g, answer)[b := Stopped(g[b], at, answer)];
      && IsPath(h, p) && NoReturn.EndsAt(NoReturn.UNKNOWN, {}, Flow(h), p, at.node + 1, false, 2)
      && (Rebound(g, p, |p| - 1, at.node) ==> Rebound(h, p, |p| - 1, at.node))
  {
    hide GraphAlike, NoReturn.EndsAt, HollowNode, NoPanicBefore, NoReturn.Guarded, Flow, Rebound;
    var b, at := Last(p), t.at[Last(p)];
    var h := Hollow(g, answer)[b := Stopped(g[b], at, answer)];
    StoppedIsAlike(g, t, answer, b);
    AlikeIsPlaced(g, h, t, answer);
    AlikeHasPath(g, h, t, answer, p, b);
    AlikeShows(g, h, t, answer, p, at.node + 1);
    AlikeShows(g, h, t, answer, p, at.node);
    EndsIdly(h, p, at.node + 1);
  }

  /** A skipped, or rebound, deciding use: the body that ends there returns without an effect. */
  lemma SkippingRuns(slot: Slot, g: Graph, t: Trace, answer: Slot -> Summary, p: seq<nat>)
    requires AllProper(answer) && !answer(slot).known && VerdictsFound(g, slot.Receiver?, answer, t)
    requires TracePlaced(g, t) && EvadesDecision(g, t, p)
    ensures var b := Last(p);
      && b < |g| && IsPlaced(g[b], t.verdicts[b], t.at[b])
      && RunsIdly(slot, Hollow(g, answer)[b := Stopped(g[b], t.at[b], answer)], answer, p, t.at[b].node + 1)
  {
    hide VerdictsFound, Hollow, HollowNode, NoReturn.EndsAt, NodeHappens, Flow, NoPanicBefore;
    var b, at := Last(p), t.at[Last(p)];
    SkippingEnds(g, t, answer, p);
    HollowNodes(g, answer, b);
    var h := Hollow(g, answer)[b := Stopped(g[b], at, answer)];
    LastNodeMayDoNothing(slot, h, g, answer, t, b);
    forall k, n | NoReturn.Before(h, p, at.node + 1, k, n) && !Rebound(h, p, k, n)
      ensures NodeHappens(Lone(slot, h, answer), h[p[k]].nodes[n], {}, 1)
    {
      if k < |p| - 1 || n < at.node {
        HollowNodes(g, answer, p[k]);
        HollowNodeHappens(slot, h, g, answer, t, p[k], n);
        if k == |p| - 1 {
          StoppedNodes(g[b], at, answer, n);
        }
      }
    }
  }

  lemma StoppedNodes(b: Block<Node>, at: Place, answer: Slot -> Summary, n: nat)
    requires at.node < |b.nodes| && at.use < |b.nodes[at.node].uses| && n < at.node
    ensures Stopped(b, at, answer).nodes[n] == HollowNode(b.nodes[n], answer)
  {
    hide HollowNode;
  }

  /** A recovered panic on a path on which nothing was decided yet. */
  lemma RecoveringRuns(slot: Slot, g: Graph, t: Trace, answer: Slot -> Summary, p: seq<nat>, i: nat)
    requires AllProper(answer) && !answer(slot).known && VerdictsFound(g, slot.Receiver?, answer, t)
    requires TracePlaced(g, t) && EvadesByRecovery(g, t, p, i) && !t.verdicts[Last(p)].Opaque?
    ensures RunsIdly(slot, Hollow(g, answer), answer, p, i)
  {
    hide VerdictsFound, Hollow, HollowNode, NoReturn.EndsAt, NodeHappens, IsPlaced, Flow, NoPanicBefore,
      NoReturn.Guarded;
    var h := Hollow(g, answer);
    RecoveringEnds(g, t, answer, p, i);
    forall k, n | NoReturn.Before(h, p, i, k, n) && !Rebound(h, p, k, n)
      ensures NodeHappens(Lone(slot, h, answer), h[p[k]].nodes[n], {}, 1)
    {
      HollowNodes(g, answer, p[k]);
      HollowNodeHappens(slot, h, g, answer, t, p[k], n);
    }
  }

  /** Where nothing is performed no guarantee holds. */
  lemma IdleRunFails(slot: Slot, h: Graph, answer: Slot -> Summary, p: seq<nat>, i: nat, s: Summary)
    requires RunsIdly(slot, h, answer, p, i) && s.always
    ensures !Sound(Lone(slot, h, answer), slot, s)
  {
    assert Performs(Lone(slot, h, answer), slot, {}, 2);
    assert !Admits(s, {});
  }

  /** The guarantee that a finished search finds follows from what it read exactly if nothing gets around its deciding
      uses: then it holds of every execution of every program alike, and otherwise it fails in one of them. */
  lemma GuaranteeFollowsExactly(slot: Slot, g: Graph, t: Trace, answer: Slot -> Summary, s: Summary)
    requires Explored(g, t.verdicts) && VerdictsFound(g, slot.Receiver?, answer, t) && Summarizes(g, t.verdicts, s)
    requires s.always && AllProper(answer) && !answer(slot).known
    ensures (forall prog :: Alike(prog, slot, g, t, answer) ==> Sound(prog, slot, s)) <==> Firm(g, t)
  {
    hide GraphAlike, AllSound, Explored, VerdictsFound, TracePlaced, EvadesDecision, EvadesByRecovery, Sound,
      Summarizes,
      Stopped, Hollow;
    FoundIsPlaced(g, slot.Receiver?, answer, t);
    if Firm(g, t) {
      forall prog | Alike(prog, slot, g, t, answer)
        ensures Sound(prog, slot, s)
      {
        var h := prog.bodies[slot];
        AlikeIsExplored(g, h, t, answer);
        AlikeSummarizes(g, h, t, answer, s);
        AlikeHolds(prog, g, h, slot.Receiver?, answer, t);
        AlikeIsFirm(g, h, t, answer);
        SummaryIsSound(prog, slot, t, s);
      }
    } else if p :| EvadesDecision(g, t, p) {
      SkippingFails(slot, g, t, answer, s, p);
    } else {
      var p, i: nat :| EvadesByRecovery(g, t, p, i);
      RecoveringFails(slot, g, t, answer, s, p, i);
    }
  }

  lemma SkippingFails(slot: Slot, g: Graph, t: Trace, answer: Slot -> Summary, s: Summary, p: seq<nat>)
    requires AllProper(answer) && !answer(slot).known && VerdictsFound(g, slot.Receiver?, answer, t)
    requires s.always && TracePlaced(g, t) && EvadesDecision(g, t, p)
    ensures exists prog :: Alike(prog, slot, g, t, answer) && !Sound(prog, slot, s)
  {
    hide GraphAlike, AllSound, TracePlaced, Sound, Stopped, HollowBlock;
    var b, at := Last(p), t.at[Last(p)];
    StoppedIsAlike(g, t, answer, b);
    var h := Hollow(g, answer)[b := Stopped(g[b], at, answer)];
    SkippingRuns(slot, g, t, answer, p);
    IdleRunFails(slot, h, answer, p, at.node + 1, s);
    LoneIsSound(slot, h, answer);
    assert Alike(Lone(slot, h, answer), slot, g, t, answer);
  }

  lemma RecoveringFails(slot: Slot, g: Graph, t: Trace, answer: Slot -> Summary, s: Summary, p: seq<nat>, i: nat)
    requires AllProper(answer) && !answer(slot).known && VerdictsFound(g, slot.Receiver?, answer, t)
    requires s.always && Summarizes(g, t.verdicts, s) && TracePlaced(g, t) && EvadesByRecovery(g, t, p, i)
    ensures exists prog :: Alike(prog, slot, g, t, answer) && !Sound(prog, slot, s)
  {
    hide GraphAlike, AllSound, Sound, Hollow;
    var h := Hollow(g, answer);
    assert Reached(g, t.verdicts, Last(p));
    HollowIsAlike(g, t, answer);
    RecoveringRuns(slot, g, t, answer, p, i);
    IdleRunFails(slot, h, answer, p, i, s);
    LoneIsSound(slot, h, answer);
    assert Alike(Lone(slot, h, answer), slot, g, t, answer);
  }

  // ---------- Guarantees that do not hold ----------

  const OWN: Slot := Parameter(0, 0)
  const CLOSES: Summary := Summary(true, true, {Close}, {Close})
  const ANY_WORK: NoReturn.Node := NoReturn.Call(None)

  function Straight(nodes: seq<Node>): Graph {
    [Block(nodes, true, true, [])]
  }

  /** `return ok && p.Close() == nil` */
  const SKIPPING: Graph := Straight([Node(ANY_WORK, [Use(Direct(Close), false)])])

  /** `p = other(); p.Close()` */
  const REBINDING: Graph :=
    Straight([Node(ANY_WORK, [Use(Rebind(true), true)]), Node(ANY_WORK, [Use(Direct(Close), true)])])

  /** `defer func() { recover() }(); work(); p.Close()` */
  const RECOVERING: Graph :=
    Straight([Node(NoReturn.Guard, []), Node(ANY_WORK, []), Node(ANY_WORK, [Use(Direct(Close), true)])])

  /** `_ = ok && p.Close() == nil; p.Close()` */
  const CLOSING_ANYWAY: Graph :=
    Straight([Node(ANY_WORK, [Use(Direct(Close), false)]), Node(ANY_WORK, [Use(Direct(Close), true)])])

  /** A straight body whose first effect closes is said always to close. */
  lemma StraightCloses(nodes: seq<Node>, answer: Slot -> Summary)
    requires NodesFound(nodes, false, answer) == Effects({Close}, {Close})
    ensures var g := Straight(nodes); GraphSummary(g, BlocksFound(g, false, answer)) == CLOSES
  {
    var g := Straight(nodes);
    var v := BlocksFound(g, false, answer);
    assert VerdictPathTo(g, v, [0], 0);
    assert v[0] == Effects({Close}, {Close}) && Reached(g, v, 0) && v[0].Effects?;
    assert forall b: nat :: Reached(g, v, b) ==> b == 0;
    hide Reached, NodesFound;
    forall k
      ensures MayPerform(g, v, k) <==> k == Close
      ensures MustPerform(g, v, k) <==> k == Close
    {
      if k == Close {
        assert Reached(g, v, 0) && v[0].Effects? && k in v[0].kinds;
      }
    }
  }

  lemma StraightRuns(nodes: seq<Node>, answer: Slot -> Summary, i: nat)
    requires i <= |nodes| && forall n :: 0 <= n < |nodes| ==> !nodes[n].flow.Panic?
    requires i < |nodes| ==> nodes[i].flow == ANY_WORK && i > 0 && nodes[0].flow.Guard?
    requires forall n :: 0 <= n < i && !(n > 0 && Rebinds(nodes[0])) ==>
               NodeHappens(Lone(OWN, Straight(nodes), answer), nodes[n], {}, 1)
    ensures RunsIdly(OWN, Straight(nodes), answer, [0], i)
    ensures Performs(Lone(OWN, Straight(nodes), answer), OWN, {}, 2)
  {
    var h := Straight(nodes);
    GuardedInFlow(h, [0], i);
    assert i > 0 ==> NoReturn.Before(h, [0], i, 0, 0);
    EndsIdly(h, [0], i);
    if |nodes| > 0 && Rebinds(nodes[0]) {
      assert forall n: int :: n > 0 ==> Rebound(h, [0], 0, n);
    }
    forall k, n | NoReturn.Before(h, [0], i, k, n) && !Rebound(h, [0], k, n)
      ensures NodeHappens(Lone(OWN, h, answer), h[[0][k]].nodes[n], {}, 1)
    {
    }
  }

  /** A close behind `&&` counts as guaranteed, although it may be skipped. */
  lemma SkippedCloseIsGuaranteed(answer: Slot -> Summary)
    ensures GraphSummary(SKIPPING, BlocksFound(SKIPPING, false, answer)) == CLOSES
    ensures Performs(Lone(OWN, SKIPPING, answer), OWN, {}, 2)
  {
    StraightCloses(SKIPPING[0].nodes, answer);
    StraightRuns(SKIPPING[0].nodes, answer, 1);
  }

  /** So does the close of another value that the parameter was set to. */
  lemma OtherCloseIsGuaranteed(answer: Slot -> Summary)
    ensures GraphSummary(REBINDING, BlocksFound(REBINDING, false, answer)) == CLOSES
    ensures Performs(Lone(OWN, REBINDING, answer), OWN, {}, 2)
  {
    StraightCloses(REBINDING[0].nodes, answer);
    assert REBINDING[0].nodes[0].uses[0].event.Rebind?;
    StraightRuns(REBINDING[0].nodes, answer, 2);
  }

  /** And so does a close that is not reached when the function recovers from a panic. */
  lemma UnreachedCloseIsGuaranteed(answer: Slot -> Summary)
    ensures GraphSummary(RECOVERING, BlocksFound(RECOVERING, false, answer)) == CLOSES
    ensures Performs(Lone(OWN, RECOVERING, answer), OWN, {}, 2)
  {
    var nodes := RECOVERING[0].nodes;
    assert nodes[1..][1..] == [nodes[2]] && NodesFound([nodes[2]], false, answer) == Effects({Close}, {Close});
    StraightCloses(nodes, answer);
    StraightRuns(RECOVERING[0].nodes, answer, 1);
  }

  /** A guarantee can hold although its deciding use may be skipped, because of a use that the search does not read. */
  lemma CloseAnywayIsPerformed(answer: Slot -> Summary)
    ensures GraphSummary(CLOSING_ANYWAY, BlocksFound(CLOSING_ANYWAY, false, answer)) == CLOSES
    ensures EvadesDecision(CLOSING_ANYWAY, Trace(map[0 := Effects({Close}, {Close})], map[0 := Place(0, 0)]), [0])
    ensures Sound(Lone(OWN, CLOSING_ANYWAY, answer), OWN, CLOSES)
  {
    var g := CLOSING_ANYWAY;
    var prog := Lone(OWN, g, answer);
    StraightCloses(g[0].nodes, answer);
    forall performed, depth: nat | Performs(prog, OWN, performed, depth)
      ensures Close in performed
    {
      var p, i := SomeRun(prog, OWN, performed, depth);
      RunFacts(prog, g, p, i, performed, depth);
      GuardedInFlow(g, p, i);
      hide NoReturn.EndsAt, EventHappens;
      assert p[0] == 0 && |p| == 1 && i == 2;
      assert NoReturn.Before(g, p, i, 0, 1) && !Rebound(g, p, 0, 1);
      assert NodeHappens(prog, g[p[0]].nodes[1], performed, depth - 1);
      assert g[0].nodes[1].uses[0].certain;
    }
  }
}
