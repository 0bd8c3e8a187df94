/** The equations between the summaries of a program, and what a guarantee found from them is worth
    (parameterNodeEffect and summarizeParameter in internal/analysis/parameter_effects.go). */
module EffectEquations {
  import opened ControlFlow
  import opened EffectKinds
  import opened EffectPrograms
  import opened EffectSummaries
  import opened Wrappers
  import NoReturn

  // ---------- What is read of one body, given answers about the callees ----------

  datatype Found = Found(kinds: set<Kind>, guaranteed: set<Kind>, ambiguous: bool)

  /** The arguments in order; the first that cannot be understood ends the walk. */
  ghost function ArgumentsFound(arguments: seq<Binding>, answer: Slot -> Summary, found: Found): Found {
    if |arguments| == 0 then found
    else
      var before, last := ArgumentsFound(arguments[..|arguments| - 1], answer, found), arguments[|arguments| - 1];
      if before.ambiguous then before
      else if last.Unresolved? || !answer(last.slot).known then before.(ambiguous := true)
      else if answer(last.slot).always
        then Found(before.kinds + answer(last.slot).kinds, before.guaranteed + answer(last.slot).guaranteed, false)
      else before
  }

  ghost function ReceiverFound(s: Summary): Found {
    if s.always then Found(s.kinds, s.guaranteed, false) else Found({}, {}, false)
  }

  /** What one event comes to. An unknown receiver call is harmless for a parameter that is not the receiver itself,
      and then its arguments are not looked at. */
  ghost function EventFound(e: Event, receiver: bool, answer: Slot -> Summary): Found {
    match e
    case Direct(kind) => Found({kind}, {kind}, false)
    case Ambiguous => Found({}, {}, true)
    case Rebind(seen) => Found({}, {}, receiver && seen)
    case Call(NotReceiver, arguments) => ArgumentsFound(arguments, answer, Found({}, {}, false))
    case Call(AsReceiver(None), _) => Found({}, {}, receiver)
    case Call(AsReceiver(Some(f)), arguments) =>
      if !answer(Receiver(f)).known then Found({}, {}, receiver)
      else ArgumentsFound(arguments, answer, ReceiverFound(answer(Receiver(f))))
  }

  ghost function UsesFound(uses: seq<Use>, receiver: bool, answer: Slot -> Summary): Verdict {
    if |uses| == 0 then Open
    else
      var found := EventFound(uses[0].event, receiver, answer);
      if found.ambiguous then Opaque
      else if found.kinds != {} then Effects(found.kinds, found.guaranteed)
      else UsesFound(uses[1..], receiver, answer)
  }

  /** The first use that is not idle. */
  ghost function UsePlace(uses: seq<Use>, receiver: bool, answer: Slot -> Summary): nat {
    if |uses| == 0 || !Idle(EventFound(uses[0].event, receiver, answer)) then 0
    else 1 + UsePlace(uses[1..], receiver, answer)
  }

  predicate Idle(found: Found) {
    !found.ambiguous && found.kinds == {}
  }

  ghost function NodesFound(nodes: seq<Node>, receiver: bool, answer: Slot -> Summary): Verdict {
    if |nodes| == 0 then Open
    else
      var first := UsesFound(nodes[0].uses, receiver, answer);
      if first.Open? then NodesFound(nodes[1..], receiver, answer) else first
  }

  ghost function NodesPlace(nodes: seq<Node>, receiver: bool, answer: Slot -> Summary): Place {
    if |nodes| == 0 then Place(0, 0)
    else if UsesFound(nodes[0].uses, receiver, answer).Open? then
      var rest := NodesPlace(nodes[1..], receiver, answer);
      Place(rest.node + 1, rest.use)
    else Place(0, UsePlace(nodes[0].uses, receiver, answer))
  }

  ghost function BlocksFound(g: Graph, receiver: bool, answer: Slot -> Summary): map<nat, Verdict> {
    map b | b in BlockIds(|g|) :: NodesFound(g[b].nodes, receiver, answer)
  }

  ghost predicate MayPerform(g: Graph, v: map<nat, Verdict>, k: Kind) {
    exists b: nat :: Reached(g, v, b) && v[b].Effects? && k in v[b].kinds
  }

  ghost predicate MustPerform(g: Graph, v: map<nat, Verdict>, k: Kind) {
    forall b: nat :: Reached(g, v, b) && v[b].Effects? ==> k in v[b].guaranteed
  }

  ghost function GraphSummary(g: Graph, v: map<nat, Verdict>): Summary {
    var known := |g| > 0 && forall b: nat :: Reached(g, v, b) ==> !v[b].Opaque?;
    var always := known && ReachesEffect(g, v) && !ReachesOpenReturn(g, v);
    Summary(known, always,
            set k: Kind | known && MayPerform(g, v, k),
            set k: Kind | always && MustPerform(g, v, k))
  }

  /** The verdicts of a search, and its deciding uses, are those the answers give. */
  ghost predicate VerdictsFound(g: Graph, receiver: bool, answer: Slot -> Summary, t: Trace) {
    && t.verdicts.Keys == t.at.Keys
    && forall b :: b in t.verdicts ==>
         && b < |g| && t.verdicts[b] == NodesFound(g[b].nodes, receiver, answer)
         && t.at[b] == NodesPlace(g[b].nodes, receiver, answer)
  }

  lemma {:induction false} UsesDecide(uses: seq<Use>, receiver: bool, answer: Slot -> Summary)
    ensures var v, u := UsesFound(uses, receiver, answer), UsePlace(uses, receiver, answer);
      && (v.Open? ==> forall i :: 0 <= i < |uses| ==> Idle(EventFound(uses[i].event, receiver, answer)))
      && (v.Effects? ==>
           && u < |uses| && EventFound(uses[u].event, receiver, answer) == Found(v.kinds, v.guaranteed, false)
             && v.kinds != {}
           && forall i :: 0 <= i < u ==> Idle(EventFound(uses[i].event, receiver, answer)))
    decreases |uses|
  {
    if |uses| > 0 {
      UsesDecide(uses[1..], receiver, answer);
      assert forall i :: 1 <= i < |uses| ==> uses[i] == uses[1..][i - 1];
    }
  }

  ghost predicate AllIdle(uses: seq<Use>, receiver: bool, answer: Slot -> Summary) {
    forall i :: 0 <= i < |uses| ==> Idle(EventFound(uses[i].event, receiver, answer))
  }

  /** Up to the deciding use, or to the end of an open block, nothing read has an effect. */
  lemma {:induction false} NodesDecide(nodes: seq<Node>, receiver: bool, answer: Slot -> Summary)
    ensures var v, at := NodesFound(nodes, receiver, answer), NodesPlace(nodes, receiver, answer);
      && (v.Open? ==> forall m :: 0 <= m < |nodes| ==> AllIdle(nodes[m].uses, receiver, answer))
      && (v.Effects? ==>
           && at.node < |nodes| && at.use < |nodes[at.node].uses| && v.kinds != {}
           && EventFound(nodes[at.node].uses[at.use].event, receiver, answer) == Found(v.kinds, v.guaranteed, false)
           && AllIdle(nodes[at.node].uses[..at.use], receiver, answer)
           && forall m :: 0 <= m < at.node ==> AllIdle(nodes[m].uses, receiver, answer))
    decreases |nodes|
  {
    if |nodes| > 0 {
      UsesDecide(nodes[0].uses, receiver, answer);
      NodesDecide(nodes[1..], receiver, answer);
      assert forall m :: 1 <= m < |nodes| ==> nodes[m] == nodes[1..][m - 1];
    }
  }

  lemma FoundIsPlaced(g: Graph, receiver: bool, answer: Slot -> Summary, t: Trace)
    requires VerdictsFound(g, receiver, answer, t)
    ensures TracePlaced(g, t)
  {
    forall b | b in t.verdicts && b < |g|
      ensures IsPlaced(g[b], t.verdicts[b], t.at[b])
    {
      NodesDecide(g[b].nodes, receiver, answer);
    }
  }

  // ---------- Answers that are right make verdicts that are right ----------

  ghost predicate AllSound(prog: Program, answer: Slot -> Summary) {
    forall slot :: Sound(prog, slot, answer(slot))
  }

  /** What was found so far agrees with what is performed. */
  ghost predicate IsKept(found: Found, performed: set<Kind>) {
    found.guaranteed <= performed && (found.kinds != {} ==> found.kinds * performed != {})
  }

  lemma BindingIsKept(prog: Program, b: Binding, s: Summary, performed: set<Kind>, depth: nat)
    requires b.Bound? && Sound(prog, b.slot, s) && BindingHappens(prog, b, performed, depth)
    ensures IsKept(ReceiverFound(s), performed)
  {
    if s.always {
      BindingPromises(prog, b, s);
    }
  }

  lemma {:induction false} ArgumentsAreKept(prog: Program, arguments: seq<Binding>, answer: Slot -> Summary,
                                            found: Found,
                                            performed: set<Kind>, depth: nat)
    requires AllSound(prog, answer) && IsKept(found, performed)
    requires forall a :: 0 <= a < |arguments| ==> BindingHappens(prog, arguments[a], performed, depth)
    ensures var f := ArgumentsFound(arguments, answer, found); !f.ambiguous ==> IsKept(f, performed)
    decreases |arguments|
  {
    if |arguments| > 0 {
      ArgumentsAreKept(prog, arguments[..|arguments| - 1], answer, found, performed, depth);
      var last := arguments[|arguments| - 1];
      if last.Bound? {
        BindingIsKept(prog, last, answer(last.slot), performed, depth);
      }
    }
  }

  lemma FoundIsPromised(prog: Program, e: Event, receiver: bool, answer: Slot -> Summary)
    requires AllSound(prog, answer)
    ensures var f := EventFound(e, receiver, answer);
      !f.ambiguous && f.kinds != {} ==> EventPromises(prog, e, f.kinds, f.guaranteed)
  {
    var f := EventFound(e, receiver, answer);
    forall performed, depth: nat | EventHappens(prog, e, performed, depth) && !f.ambiguous && f.kinds != {}
      ensures Promises(f.kinds, f.guaranteed, performed)
    {
      if e.Call? {
        var start := Found({}, {}, false);
        if e.receiver.AsReceiver? && e.receiver.callee.Some? {
          var slot := Receiver(e.receiver.callee.value);
          BindingIsKept(prog, Bound(slot), answer(slot), performed, depth);
          start := ReceiverFound(answer(slot));
        }
        ArgumentsAreKept(prog, e.arguments, answer, start, performed, depth);
      }
    }
  }

  /** The summary of a slot from those of the slots below it. */
  ghost function Solution(prog: Program, rank: Slot -> nat, slot: Slot): Summary
    decreases rank(slot), 1
  {
    if slot !in prog.bodies then prog.Fact(slot)
    else GraphSummary(prog.bodies[slot], BlocksFound(prog.bodies[slot], slot.Receiver?, Below(prog, rank, slot)))
  }

  ghost function Below(prog: Program, rank: Slot -> nat, slot: Slot): Slot -> Summary
    decreases rank(slot), 0
  {
    (below: Slot) => if rank(below) < rank(slot) then Solution(prog, rank, below) else NO_SUMMARY
  }

  // ---------- The searches find what the equations say ----------

  lemma SummaryIsDetermined(g: Graph, v: map<nat, Verdict>, s: Summary)
    requires Summarizes(g, v, s)
    ensures s == GraphSummary(g, v)
  {
    hide Reached, ReachesEffect, ReachesOpenReturn;
    var t := GraphSummary(g, v);
    assert s.known == t.known && s.always == t.always;
    assert forall k :: k in s.kinds <==> k in t.kinds;
    assert forall k :: k in s.guaranteed <==> k in t.guaranteed;
  }

  /** The blocks an exploration visits are those the full table of verdicts reaches. */
  lemma ExploredReaches(g: Graph, v: map<nat, Verdict>, full: map<nat, Verdict>, b: nat)
    requires Explored(g, v) && full.Keys == BlockIds(|g|)
    requires forall c :: c in v ==> v[c] == full[c]
    ensures Reached(g, full, b) <==> Reached(g, v, b)
  {
    if Reached(g, full, b) {
      var p :| VerdictPathTo(g, full, p, b);
      var q := FirstVerdict(g, v, p);
      assert VerdictPathTo(g, v, p, b);
    }
    if Reached(g, v, b) {
      var p :| VerdictPathTo(g, v, p, b);
      assert VerdictPathTo(g, full, p, b);
    }
  }

  lemma ExploredSummarizes(g: Graph, v: map<nat, Verdict>, full: map<nat, Verdict>, s: Summary)
    requires Explored(g, v) && full.Keys == BlockIds(|g|) && Summarizes(g, v, s)
    requires forall c :: c in v ==> v[c] == full[c]
    ensures s == GraphSummary(g, full)
  {
    forall b: nat
      ensures Reached(g, full, b) <==> Reached(g, v, b)
    {
      ExploredReaches(g, v, full, b);
    }
    hide Reached;
    assert Summarizes(g, full, s);
    SummaryIsDetermined(g, full, s);
  }

  lemma {:induction false} AmbiguityStays(arguments: seq<Binding>, answer: Slot -> Summary, found: Found, a: nat)
    requires a <= |arguments| && ArgumentsFound(arguments[..a], answer, found).ambiguous
    ensures ArgumentsFound(arguments, answer, found) == ArgumentsFound(arguments[..a], answer, found)
    decreases |arguments|
  {
    if a < |arguments| {
      assert arguments[..|arguments| - 1][..a] == arguments[..a];
      AmbiguityStays(arguments[..|arguments| - 1], answer, found, a);
    } else {
      assert arguments[..a] == arguments;
    }
  }

  lemma StaysAmbiguous(arguments: seq<Binding>, answer: Slot -> Summary, found: Found, a: nat)
    requires a < |arguments|
    ensures var before := ArgumentsFound(arguments[..a], answer, found);
      !before.ambiguous && (arguments[a].Unresolved? || !answer(arguments[a].slot).known) ==>
        ArgumentsFound(arguments, answer, found) == before.(ambiguous := true)
  {
    assert arguments[..a + 1][..a] == arguments[..a];
    if ArgumentsFound(arguments[..a + 1], answer, found).ambiguous {
      AmbiguityStays(arguments, answer, found, a + 1);
    }
  }

  // ---------- Calls that form no cycle ----------

  ghost predicate AsksBelow(e: Event, rank: Slot -> nat, height: nat) {
    e.Call? ==>
      && (e.receiver.AsReceiver? && e.receiver.callee.Some? ==> rank(Receiver(e.receiver.callee.value)) < height)
      && forall a :: 0 <= a < |e.arguments| && e.arguments[a].Bound? ==> rank(e.arguments[a].slot) < height
  }

  ghost predicate NodeAsksBelow(node: Node, rank: Slot -> nat, height: nat) {
    forall u :: 0 <= u < |node.uses| ==> AsksBelow(node.uses[u].event, rank, height)
  }

  ghost predicate Acyclic(prog: Program, rank: Slot -> nat) {
    forall slot, b, n ::
      slot in prog.bodies && 0 <= b < |prog.bodies[slot]| && 0 <= n < |prog.bodies[slot][b].nodes| ==>
        NodeAsksBelow(prog.bodies[slot][b].nodes[n], rank, rank(slot))
  }

  lemma BlockAsksBelow(prog: Program, rank: Slot -> nat, slot: Slot, b: nat)
    requires Acyclic(prog, rank) && slot in prog.bodies && b < |prog.bodies[slot]|
    ensures forall n :: 0 <= n < |prog.bodies[slot][b].nodes| ==>
      NodeAsksBelow(prog.bodies[slot][b].nodes[n], rank, rank(slot))
  {
  }

  lemma NothingFoundYet(g: Graph, receiver: bool, answer: Slot -> Summary)
    ensures VerdictsFound(g, receiver, answer, Trace(map[], map[]))
  {
  }

  lemma VerdictsFoundStep(g: Graph, receiver: bool, answer: Slot -> Summary, t: Trace, b: nat)
    requires b < |g| && VerdictsFound(g, receiver, answer, t)
    ensures VerdictsFound(g, receiver, answer, Trace(t.verdicts[b := NodesFound(g[b].nodes, receiver, answer)],
                                                     t.at[b := NodesPlace(g[b].nodes, receiver, answer)]))
  {
    hide NodesFound, NodesPlace;
  }

  lemma SolvedBy(prog: Program, rank: Slot -> nat, slot: Slot, v: map<nat, Verdict>, s: Summary)
    requires slot in prog.bodies && Explored(prog.bodies[slot], v) && Summarizes(prog.bodies[slot], v, s)
    requires forall b :: b in v ==>
      && b < |prog.bodies[slot]|
      && v[b] == NodesFound(prog.bodies[slot][b].nodes, slot.Receiver?, Below(prog, rank, slot))
    ensures s == Solution(prog, rank, slot)
  {
    hide Summarizes, GraphSummary, EffectSearch;
    var g := prog.bodies[slot];
    ExploredSummarizes(g, v, BlocksFound(g, slot.Receiver?, Below(prog, rank, slot)), s);
  }

  /** Answers as searches give them: an effect that is always performed is of some kind. */
  ghost predicate IsProper(s: Summary) {
    s.always ==> s.known && s.kinds != {}
  }

  ghost predicate AllProper(answer: Slot -> Summary) {
    forall slot :: IsProper(answer(slot))
  }
}
