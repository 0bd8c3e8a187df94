/** What a known summary says of the paths of a body, and what a proven borrow is worth
    (summarizeParameter and parameterNodeEffect in internal/analysis/parameter_effects.go). */
module EffectBorrows {
  import opened ControlFlow
  import opened EffectEquations
  import opened EffectGuarantees
  import opened EffectKinds
  import opened EffectPrograms
  import opened EffectSummaries
  import opened Wrappers
  import NoReturn
  import ParameterEffects

  // ---------- What one use comes to, in its own terms ----------

  ghost predicate IsUnclear(b: Binding, answer: Slot -> Summary) {
    b.Unresolved? || !answer(b.slot).known
  }

  /** The tracked value is the receiver of a call of which nothing is known. */
  ghost predicate UnclearReceiver(e: Event, answer: Slot -> Summary) {
    e.Call? && e.receiver.AsReceiver? && (e.receiver.callee.None? || !answer(Receiver(e.receiver.callee.value)).known)
  }

  /** The use cannot be understood.  A call on a value of which nothing is known is let pass for a parameter, and then
      what it is passed to besides is not looked at. */
  ghost predicate Unreadable(e: Event, receiver: bool, answer: Slot -> Summary) {
    match e
    case Direct(_) => false
    case Ambiguous => true
    case Rebind(seen) => receiver && seen
    case Call(_, arguments) =>
      if UnclearReceiver(e, answer) then receiver
      else exists a :: 0 <= a < |arguments| && IsUnclear(arguments[a], answer)
  }

  /** The callee always has an effect, which may be of kind `k`. */
  ghost predicate MayHave(s: Summary, k: Kind) {
    s.always && k in s.kinds
  }

  ghost predicate MustHave(s: Summary, k: Kind) {
    s.always && k in s.guaranteed
  }

  /** The tracked value is passed on, as the receiver or as an argument, to a slot of which `says` holds. */
  ghost predicate PassedTo(e: Event, answer: Slot -> Summary, says: Summary -> bool) {
    && e.Call? && !UnclearReceiver(e, answer)
    && (|| (e.receiver.AsReceiver? && e.receiver.callee.Some? && says(answer(Receiver(e.receiver.callee.value))))
        || exists a :: 0 <= a < |e.arguments| && e.arguments[a].Bound? && says(answer(e.arguments[a].slot)))
  }

  ghost predicate Acts(e: Event, answer: Slot -> Summary, k: Kind) {
    e == Direct(k) || PassedTo(e, answer, s => MayHave(s, k))
  }

  ghost predicate Surely(e: Event, answer: Slot -> Summary, k: Kind) {
    e == Direct(k) || PassedTo(e, answer, s => MustHave(s, k))
  }

  ghost predicate IsHarmless(e: Event, receiver: bool, answer: Slot -> Summary) {
    !Unreadable(e, receiver, answer) && forall k :: !Acts(e, answer, k)
  }

  lemma {:induction false} ArgumentsMean(arguments: seq<Binding>, answer: Slot -> Summary, found: Found)
    requires !found.ambiguous
    ensures var f := ArgumentsFound(arguments, answer, found);
      && (f.ambiguous <==> exists a :: 0 <= a < |arguments| && IsUnclear(arguments[a], answer))
      && (!f.ambiguous ==> forall k ::
           && (k in f.kinds <==>
                (k in found.kinds
                 || exists a :: 0 <= a < |arguments| && arguments[a].Bound? && MayHave(answer(arguments[a].slot), k)))
           && (k in f.guaranteed <==>
                (k in found.guaranteed
                 || exists a :: 0 <= a < |arguments| && arguments[a].Bound? && MustHave(answer(arguments[a].slot), k))))
    decreases |arguments|
  {
    if |arguments| > 0 {
      var init, last := arguments[..|arguments| - 1], arguments[|arguments| - 1];
      ArgumentsMean(init, answer, found);
      assert forall a :: 0 <= a < |init| ==> arguments[a] == init[a];
      assert arguments[|init|] == last;
    }
  }

  /** The walk finds just that. */
  lemma EventMeans(e: Event, receiver: bool, answer: Slot -> Summary)
    ensures var f := EventFound(e, receiver, answer);
      && (f.ambiguous <==> Unreadable(e, receiver, answer))
      && (!f.ambiguous ==> forall k ::
           (k in f.kinds <==> Acts(e, answer, k)) && (k in f.guaranteed <==> Surely(e, answer, k)))
    ensures Idle(EventFound(e, receiver, answer)) <==> IsHarmless(e, receiver, answer)
  {
    if e.Call? && !UnclearReceiver(e, answer) {
      var start := if e.receiver.AsReceiver? then ReceiverFound(answer(Receiver(e.receiver.callee.value)))
                   else Found({}, {}, false);
      ArgumentsMean(e.arguments, answer, start);
    }
    var f := EventFound(e, receiver, answer);
    assert f.kinds == {} <==> forall k :: k !in f.kinds;
  }

  // ---------- The first use of a path that is not harmless ----------

  ghost predicate AllHarmless(uses: seq<Use>, receiver: bool, answer: Slot -> Summary) {
    forall u :: 0 <= u < |uses| ==> IsHarmless(uses[u].event, receiver, answer)
  }

  /** Before use `u` of node `n` nothing in the block matters. */
  ghost predicate FirstInBlock(nodes: seq<Node>, n: nat, u: nat, receiver: bool, answer: Slot -> Summary) {
    && n < |nodes| && u < |nodes[n].uses| && !IsHarmless(nodes[n].uses[u].event, receiver, answer)
    && AllHarmless(nodes[n].uses[..u], receiver, answer)
    && forall m :: 0 <= m < n ==> AllHarmless(nodes[m].uses, receiver, answer)
  }

  ghost predicate HarmlessBlock(nodes: seq<Node>, receiver: bool, answer: Slot -> Summary) {
    forall m :: 0 <= m < |nodes| ==> AllHarmless(nodes[m].uses, receiver, answer)
  }

  /** The blocks of a live path before its last one are harmless. */
  ghost predicate HarmlessPath(g: Graph, p: seq<nat>, receiver: bool, answer: Slot -> Summary) {
    IsPath(g, p) && forall k :: 0 <= k < |p| - 1 ==> HarmlessBlock(g[p[k]].nodes, receiver, answer)
  }

  /** On a live path, use `u` of node `n` of the last block is the first that matters. */
  ghost predicate IsFirst(g: Graph, p: seq<nat>, n: nat, u: nat, receiver: bool, answer: Slot -> Summary) {
    HarmlessPath(g, p, receiver, answer) && FirstInBlock(g[Last(p)].nodes, n, u, receiver, answer)
  }

  ghost function EventAt(g: Graph, p: seq<nat>, n: nat, u: nat): Event
    requires IsPath(g, p) && n < |g[Last(p)].nodes| && u < |g[Last(p)].nodes[n].uses|
  {
    g[Last(p)].nodes[n].uses[u].event
  }

  /** What a search says of a block. */
  ghost function VerdictOf(found: Found): Verdict {
    if found.ambiguous then Opaque else Effects(found.kinds, found.guaranteed)
  }

  lemma {:induction false} UsesFirst(uses: seq<Use>, receiver: bool, answer: Slot -> Summary, u: nat)
    requires u <= |uses| && AllHarmless(uses[..u], receiver, answer)
    requires u < |uses| ==> !IsHarmless(uses[u].event, receiver, answer)
    ensures UsesFound(uses, receiver, answer) ==
      if u == |uses| then Open else VerdictOf(EventFound(uses[u].event, receiver, answer))
    decreases |uses|
  {
    hide IsHarmless, EventFound;
    if |uses| > 0 {
      EventMeans(uses[0].event, receiver, answer);
      if u > 0 {
        assert uses[..u][0] == uses[0];
        assert uses[1..][..u - 1] == uses[..u][1..];
        UsesFirst(uses[1..], receiver, answer, u - 1);
      }
    }
  }

  lemma {:induction false} NodesFirst(nodes: seq<Node>, receiver: bool, answer: Slot -> Summary, n: nat, u: nat)
    requires FirstInBlock(nodes, n, u, receiver, answer)
    ensures NodesFound(nodes, receiver, answer) == VerdictOf(EventFound(nodes[n].uses[u].event, receiver, answer))
    decreases |nodes|
  {
    hide IsHarmless, EventFound;
    if n == 0 {
      UsesFirst(nodes[0].uses, receiver, answer, u);
    } else {
      assert nodes[0].uses[..|nodes[0].uses|] == nodes[0].uses;
      UsesFirst(nodes[0].uses, receiver, answer, |nodes[0].uses|);
      NodesFirst(nodes[1..], receiver, answer, n - 1, u);
    }
  }

  lemma {:induction false} NodesOpen(nodes: seq<Node>, receiver: bool, answer: Slot -> Summary)
    requires HarmlessBlock(nodes, receiver, answer)
    ensures NodesFound(nodes, receiver, answer) == Open
    decreases |nodes|
  {
    hide IsHarmless, EventFound;
    if |nodes| > 0 {
      assert nodes[0].uses[..|nodes[0].uses|] == nodes[0].uses;
      UsesFirst(nodes[0].uses, receiver, answer, |nodes[0].uses|);
      NodesOpen(nodes[1..], receiver, answer);
    }
  }

  /** A block is harmless, or some use in it is the first that matters. */
  lemma {:induction false} SomeFirst(nodes: seq<Node>, receiver: bool, answer: Slot -> Summary) returns (n: nat, u: nat)
    ensures HarmlessBlock(nodes, receiver, answer) || FirstInBlock(nodes, n, u, receiver, answer)
    decreases |nodes|
  {
    hide IsHarmless;
    n, u := 0, 0;
    if |nodes| > 0 {
      u := SomeUse(nodes[0].uses, receiver, answer);
      if AllHarmless(nodes[0].uses, receiver, answer) {
        n, u := SomeFirst(nodes[1..], receiver, answer);
        n := n + 1;
      }
    }
  }

  lemma {:induction false} SomeUse(uses: seq<Use>, receiver: bool, answer: Slot -> Summary) returns (u: nat)
    ensures AllHarmless(uses, receiver, answer)
      || (u < |uses| && AllHarmless(uses[..u], receiver, answer) && !IsHarmless(uses[u].event, receiver, answer))
    decreases |uses|
  {
    hide IsHarmless;
    u := 0;
    if |uses| > 0 {
      u := SomeUse(uses[..|uses| - 1], receiver, answer);
      if AllHarmless(uses[..|uses| - 1], receiver, answer) {
        u := |uses| - 1;
      } else {
        assert uses[..|uses| - 1][..u] == uses[..u];
      }
    }
  }

  /** The verdict on a block shows whether it is harmless, and what its first use that matters comes to. */
  lemma BlockVerdict(nodes: seq<Node>, receiver: bool, answer: Slot -> Summary)
    ensures NodesFound(nodes, receiver, answer) == Open <==> HarmlessBlock(nodes, receiver, answer)
    ensures forall n: nat, u: nat :: FirstInBlock(nodes, n, u, receiver, answer) ==>
      NodesFound(nodes, receiver, answer) == VerdictOf(EventFound(nodes[n].uses[u].event, receiver, answer))
  {
    hide IsHarmless, AllHarmless, NodesFound, EventFound;
    forall n: nat, u: nat | FirstInBlock(nodes, n, u, receiver, answer)
      ensures NodesFound(nodes, receiver, answer) == VerdictOf(EventFound(nodes[n].uses[u].event, receiver, answer))
    {
      NodesFirst(nodes, receiver, answer, n, u);
    }
    if HarmlessBlock(nodes, receiver, answer) {
      NodesOpen(nodes, receiver, answer);
    } else {
      var n, u := SomeFirst(nodes, receiver, answer);
    }
  }

  /** Paths on which nothing matters before the last block are those along which a finished search went. */
  lemma HarmlessIsOpen(g: Graph, receiver: bool, answer: Slot -> Summary, t: Trace, p: seq<nat>)
    requires Explored(g, t.verdicts) && VerdictsFound(g, receiver, answer, t)
    ensures HarmlessPath(g, p, receiver, answer) <==> |p| > 0 && VerdictPathTo(g, t.verdicts, p, Last(p))
    ensures HarmlessPath(g, p, receiver, answer) ==> Last(p) in t.verdicts
  {
    hide HarmlessBlock, NodesFound, EffectSearch;
    forall b: nat | b in t.verdicts
      ensures t.verdicts[b] == Open <==> HarmlessBlock(g[b].nodes, receiver, answer)
    {
      BlockVerdict(g[b].nodes, receiver, answer);
    }
    if IsPath(g, p) {
      var q := FirstVerdict(g, t.verdicts, p);
      assert Last(q) == p[|q| - 1];
    }
  }

  lemma FirstIsReached(g: Graph, receiver: bool, answer: Slot -> Summary, t: Trace, p: seq<nat>, n: nat, u: nat)
    requires Explored(g, t.verdicts) && VerdictsFound(g, receiver, answer, t) && IsFirst(g, p, n, u, receiver, answer)
    ensures Reached(g, t.verdicts, Last(p))
    ensures t.verdicts[Last(p)] == VerdictOf(EventFound(EventAt(g, p, n, u), receiver, answer))
  {
    hide HarmlessPath, FirstInBlock, NodesFound, EventFound, EffectSearch;
    HarmlessIsOpen(g, receiver, answer, t, p);
    BlockVerdict(g[Last(p)].nodes, receiver, answer);
  }

  lemma ReachedHasFirst(g: Graph, receiver: bool, answer: Slot -> Summary, t: Trace, b: nat)
      returns (p: seq<nat>, n: nat, u: nat)
    requires Explored(g, t.verdicts) && VerdictsFound(g, receiver, answer, t)
    requires Reached(g, t.verdicts, b) && !t.verdicts[b].Open?
    ensures IsFirst(g, p, n, u, receiver, answer) && Last(p) == b
    ensures t.verdicts[b] == VerdictOf(EventFound(EventAt(g, p, n, u), receiver, answer))
  {
    hide HarmlessPath, HarmlessBlock, FirstInBlock, NodesFound, EventFound, EffectSearch;
    p :| VerdictPathTo(g, t.verdicts, p, b);
    HarmlessIsOpen(g, receiver, answer, t, p);
    BlockVerdict(g[b].nodes, receiver, answer);
    n, u := SomeFirst(g[b].nodes, receiver, answer);
    FirstIsReached(g, receiver, answer, t, p, n, u);
  }

  // ---------- What a summary says of the paths ----------

  ghost predicate SomeUnreadable(g: Graph, receiver: bool, answer: Slot -> Summary) {
    exists p, n: nat, u: nat ::
      IsFirst(g, p, n, u, receiver, answer) && Unreadable(EventAt(g, p, n, u), receiver, answer)
  }

  ghost predicate SomeActs(g: Graph, receiver: bool, answer: Slot -> Summary, k: Kind) {
    exists p, n: nat, u: nat :: IsFirst(g, p, n, u, receiver, answer) && Acts(EventAt(g, p, n, u), answer, k)
  }

  ghost predicate AllSurely(g: Graph, receiver: bool, answer: Slot -> Summary, k: Kind) {
    forall p, n: nat, u: nat :: IsFirst(g, p, n, u, receiver, answer) ==> Surely(EventAt(g, p, n, u), answer, k)
  }

  ghost predicate ReturnsHarmless(g: Graph, p: seq<nat>, receiver: bool, answer: Slot -> Summary) {
    HarmlessPath(g, p, receiver, answer) && HarmlessBlock(g[Last(p)].nodes, receiver, answer) && g[Last(p)].isReturn
  }

  ghost predicate HarmlessReturn(g: Graph, receiver: bool, answer: Slot -> Summary) {
    exists p :: ReturnsHarmless(g, p, receiver, answer)
  }

  /** The summary is known exactly if on no live path the first use that matters cannot be understood. */
  lemma KnownExactly(g: Graph, receiver: bool, answer: Slot -> Summary, t: Trace, s: Summary)
    requires Explored(g, t.verdicts) && VerdictsFound(g, receiver, answer, t) && Summarizes(g, t.verdicts, s)
    ensures s.known <==> |g| > 0 && !SomeUnreadable(g, receiver, answer)
  {
    hide AllHarmless, HarmlessBlock, EventFound, NodesFound, EffectSearch, Unreadable;
    if p, n: nat, u: nat :|
      IsFirst(g, p, n, u, receiver, answer) && Unreadable(EventAt(g, p, n, u), receiver, answer) {
      FirstIsReached(g, receiver, answer, t, p, n, u);
      EventMeans(EventAt(g, p, n, u), receiver, answer);
    }
    if b: nat :| Reached(g, t.verdicts, b) && t.verdicts[b].Opaque? {
      var p, n, u := ReachedHasFirst(g, receiver, answer, t, b);
      EventMeans(EventAt(g, p, n, u), receiver, answer);
    }
  }

  /** If it is known, the kinds are those that the first uses that matter may have. */
  lemma KindsExactly(g: Graph, receiver: bool, answer: Slot -> Summary, t: Trace, s: Summary, k: Kind)
    requires Explored(g, t.verdicts) && VerdictsFound(g, receiver, answer, t) && Summarizes(g, t.verdicts, s) && s.known
    ensures k in s.kinds <==> SomeActs(g, receiver, answer, k)
  {
    hide AllHarmless, HarmlessBlock, EventFound, NodesFound, EffectSearch, Acts, Unreadable;
    if p, n: nat, u: nat :| IsFirst(g, p, n, u, receiver, answer) && Acts(EventAt(g, p, n, u), answer, k) {
      FirstIsReached(g, receiver, answer, t, p, n, u);
      EventMeans(EventAt(g, p, n, u), receiver, answer);
    }
    if b: nat :| Reached(g, t.verdicts, b) && t.verdicts[b].Effects? && k in t.verdicts[b].kinds {
      var p, n, u := ReachedHasFirst(g, receiver, answer, t, b);
      EventMeans(EventAt(g, p, n, u), receiver, answer);
    }
  }

  /** It says that there always is an effect exactly if there is a first use that matters, and no path without one to a
      return; then the guaranteed kinds are those that every such use surely has. */
  lemma AlwaysExactly(g: Graph, receiver: bool, answer: Slot -> Summary, t: Trace, s: Summary)
    requires Explored(g, t.verdicts) && VerdictsFound(g, receiver, answer, t) && Summarizes(g, t.verdicts, s) && s.known
    ensures s.always <==>
      (exists p, n: nat, u: nat :: IsFirst(g, p, n, u, receiver, answer)) && !HarmlessReturn(g, receiver, answer)
    ensures forall k :: k in s.guaranteed <==> s.always && AllSurely(g, receiver, answer, k)
  {
    hide AllHarmless, HarmlessBlock, EventFound, NodesFound, EffectSearch;
    ReturnsExactly(g, receiver, answer, t);
    EffectsExactly(g, receiver, answer, t, s);
    forall k
      ensures AllSurely(g, receiver, answer, k) <==>
        forall b: nat :: Reached(g, t.verdicts, b) && t.verdicts[b].Effects? ==> k in t.verdicts[b].guaranteed
    {
      SurelyExactly(g, receiver, answer, t, s, k);
    }
  }

  lemma ReturnsExactly(g: Graph, receiver: bool, answer: Slot -> Summary, t: Trace)
    requires Explored(g, t.verdicts) && VerdictsFound(g, receiver, answer, t)
    ensures ReachesOpenReturn(g, t.verdicts) <==> HarmlessReturn(g, receiver, answer)
  {
    hide AllHarmless, HarmlessBlock, EventFound, NodesFound, EffectSearch;
    if p :| ReturnsHarmless(g, p, receiver, answer) {
      HarmlessIsOpen(g, receiver, answer, t, p);
      BlockVerdict(g[Last(p)].nodes, receiver, answer);
      assert Reached(g, t.verdicts, Last(p));
    }
    if b: nat :| Reached(g, t.verdicts, b) && t.verdicts[b].Open? && b < |g| && g[b].isReturn {
      var p :| VerdictPathTo(g, t.verdicts, p, b);
      HarmlessIsOpen(g, receiver, answer, t, p);
      BlockVerdict(g[b].nodes, receiver, answer);
      assert ReturnsHarmless(g, p, receiver, answer);
    }
  }

  lemma EffectsExactly(g: Graph, receiver: bool, answer: Slot -> Summary, t: Trace, s: Summary)
    requires Explored(g, t.verdicts) && VerdictsFound(g, receiver, answer, t) && Summarizes(g, t.verdicts, s) && s.known
    ensures ReachesEffect(g, t.verdicts) <==> exists p, n: nat, u: nat :: IsFirst(g, p, n, u, receiver, answer)
  {
    hide AllHarmless, HarmlessBlock, EventFound, NodesFound, EffectSearch;
    if p, n: nat, u: nat :| IsFirst(g, p, n, u, receiver, answer) {
      FirstIsReached(g, receiver, answer, t, p, n, u);
    }
    if b: nat :| Reached(g, t.verdicts, b) && t.verdicts[b].Effects? {
      var p, n, u := ReachedHasFirst(g, receiver, answer, t, b);
    }
  }

  lemma SurelyExactly(g: Graph, receiver: bool, answer: Slot -> Summary, t: Trace, s: Summary, k: Kind)
    requires Explored(g, t.verdicts) && VerdictsFound(g, receiver, answer, t) && Summarizes(g, t.verdicts, s) && s.known
    ensures AllSurely(g, receiver, answer, k) <==>
      forall b: nat :: Reached(g, t.verdicts, b) && t.verdicts[b].Effects? ==> k in t.verdicts[b].guaranteed
  {
    hide AllHarmless, HarmlessBlock, EventFound, NodesFound, EffectSearch, Surely, Unreadable;
    if p, n: nat, u: nat :| IsFirst(g, p, n, u, receiver, answer) && !Surely(EventAt(g, p, n, u), answer, k) {
      FirstIsReached(g, receiver, answer, t, p, n, u);
      EventMeans(EventAt(g, p, n, u), receiver, answer);
    }
    if b: nat :| Reached(g, t.verdicts, b) && t.verdicts[b].Effects? && k !in t.verdicts[b].guaranteed {
      var p, n, u := ReachedHasFirst(g, receiver, answer, t, b);
      EventMeans(EventAt(g, p, n, u), receiver, answer);
    }
  }

  /** All of it of a recorded summary, whatever the order and the call cycles, of a run without cancellation. */
  lemma RecordedMeans(a: ParameterEffects.Analysis, slot: Slot)
    requires a.Valid() && a.Uncancelled() && slot in a.summaries
    ensures slot in a.prog.bodies && slot in a.stacks
    ensures var g, receiver, answer, s :=
              a.prog.bodies[slot], slot.Receiver?, ParameterEffects.AnswersOf(a, slot), a.summaries[slot];
      && (s.known <==> |g| > 0 && !SomeUnreadable(g, receiver, answer))
      && (s.known ==> forall k :: k in s.kinds <==> SomeActs(g, receiver, answer, k))
      && (s.known ==> (s.always <==>
           (exists p, n: nat, u: nat :: IsFirst(g, p, n, u, receiver, answer)) && !HarmlessReturn(g, receiver, answer)))
      && (s.known ==> forall k :: k in s.guaranteed <==> s.always && AllSurely(g, receiver, answer, k))
  {
    assert a.Traced(a.summaries, slot, a.summaries[slot], a.traces[slot], a.stacks[slot]);
    hide Explored, VerdictsFound, Summarizes, IsFirst, SomeUnreadable, SomeActs, AllSurely, HarmlessReturn,
      ParameterEffects.Analysis.Valid;
    var g, answer := a.prog.bodies[slot], ParameterEffects.AnswersOf(a, slot);
    assert ParameterEffects.AnswersFrom(a.prog, a.stacks[slot], a.summaries, answer);
    KnownExactly(g, slot.Receiver?, answer, a.traces[slot], a.summaries[slot]);
    if a.summaries[slot].known {
      AlwaysExactly(g, slot.Receiver?, answer, a.traces[slot], a.summaries[slot]);
      forall k
        ensures k in a.summaries[slot].kinds <==> SomeActs(g, slot.Receiver?, answer, k)
      {
        KindsExactly(g, slot.Receiver?, answer, a.traces[slot], a.summaries[slot], k);
      }
    }
  }

  // ---------- What a body can do ----------

  /** Some use on a live path of the body, or of one that the value is passed on to, can have an effect of kind `k`,
      within `depth` levels of calls.  An ambiguous use can have any, and so can a function defined elsewhere that is
      not known to borrow. */
  ghost predicate CanDo(prog: Program, slot: Slot, k: Kind, depth: nat)
    decreases depth, 0
  {
    && depth > 0
    && if slot in prog.bodies then
         exists p, n: nat, u: nat ::
           IsUse(prog.bodies[slot], p, n, u) && EventCanDo(prog, EventAt(prog.bodies[slot], p, n, u), k, depth - 1)
       else !IsBorrow(prog.Fact(slot))
  }

  ghost predicate IsUse(g: Graph, p: seq<nat>, n: nat, u: nat) {
    IsPath(g, p) && n < |g[Last(p)].nodes| && u < |g[Last(p)].nodes[n].uses|
  }

  ghost predicate EventCanDo(prog: Program, e: Event, k: Kind, depth: nat)
    decreases depth, 2
  {
    match e
    case Direct(kind) => kind == k
    case Ambiguous => true
    case Rebind(_) => false
    case Call(receiver, arguments) =>
      || (receiver.AsReceiver? && receiver.callee.None?)
      || (receiver.AsReceiver? && receiver.callee.Some? && CanDo(prog, Receiver(receiver.callee.value), k, depth))
      || exists a :: 0 <= a < |arguments| && BindingCanDo(prog, arguments[a], k, depth)
  }

  ghost predicate BindingCanDo(prog: Program, b: Binding, k: Kind, depth: nat)
    decreases depth, 1
  {
    b.Bound? ==> CanDo(prog, b.slot, k, depth)
  }

  /** A proven borrow: known, and without any effect. */
  predicate IsBorrow(s: Summary) {
    s.known && s.kinds == {}
  }

  /** Nothing is ever done. */
  ghost predicate Borrows(prog: Program, slot: Slot) {
    forall k, depth: nat :: !CanDo(prog, slot, k, depth)
  }

  /** A call that is no effect for the search, though it is passed to something not known to borrow: an effect on some
      paths only, or a method of which nothing is known. */
  ghost predicate IsOverlooked(e: Event, answer: Slot -> Summary) {
    && e.Call?
    && (|| UnclearReceiver(e, answer)
        || PassedTo(e, answer, s => !IsBorrow(s)))
  }

  ghost predicate NothingOverlooked(g: Graph, answer: Slot -> Summary) {
    forall p, n: nat, u: nat :: IsUse(g, p, n, u) ==> !IsOverlooked(EventAt(g, p, n, u), answer)
  }

  /** What is answered to borrow does. */
  ghost predicate BorrowsRight(prog: Program, answer: Slot -> Summary) {
    forall depth: nat :: BorrowsWithin(prog, answer, depth)
  }

  ghost predicate BorrowsWithin(prog: Program, answer: Slot -> Summary, depth: nat) {
    forall slot, k :: IsBorrow(answer(slot)) ==> !CanDo(prog, slot, k, depth)
  }

  /** All uses of a body that is said to borrow are harmless for the search. */
  lemma BorrowIsHarmless(g: Graph, receiver: bool, answer: Slot -> Summary, t: Trace, s: Summary, p: seq<nat>, n: nat,
                         u: nat)
    requires Explored(g, t.verdicts) && VerdictsFound(g, receiver, answer, t) && Summarizes(g, t.verdicts, s)
    requires AllProper(answer) && IsBorrow(s) && IsUse(g, p, n, u)
    ensures IsHarmless(EventAt(g, p, n, u), receiver, answer)
  {
    hide Explored, NodesFound, EventFound;
    var q := FirstVerdict(g, t.verdicts, p);
    VerdictIsOpen(g, receiver, answer, t, s, q);
    assert q == p;
    BlockVerdict(g[Last(p)].nodes, receiver, answer);
    assert AllHarmless(g[Last(p)].nodes[n].uses, receiver, answer);
  }

  lemma VerdictIsOpen(g: Graph, receiver: bool, answer: Slot -> Summary, t: Trace, s: Summary, q: seq<nat>)
    requires VerdictsFound(g, receiver, answer, t) && Summarizes(g, t.verdicts, s)
    requires IsBorrow(s) && |q| > 0 && VerdictPathTo(g, t.verdicts, q, Last(q)) && Last(q) in t.verdicts
    ensures t.verdicts[Last(q)].Open?
  {
    hide NodesFound;
    assert Reached(g, t.verdicts, Last(q));
    NodesDecide(g[Last(q)].nodes, receiver, answer);
  }

  /** What is harmless and not overlooked does nothing. */
  lemma HarmlessDoesNothing(prog: Program, e: Event, receiver: bool, answer: Slot -> Summary, k: Kind, depth: nat)
    requires BorrowsWithin(prog, answer, depth) && IsHarmless(e, receiver, answer) && !IsOverlooked(e, answer)
    ensures !EventCanDo(prog, e, k, depth)
  {
    assert e.Direct? ==> Acts(e, answer, e.kind);
    if e.Call? {
      forall a | 0 <= a < |e.arguments|
        ensures !BindingCanDo(prog, e.arguments[a], k, depth)
      {
        assert !IsUnclear(e.arguments[a], answer);
        assert IsBorrow(answer(e.arguments[a].slot));
      }
      if e.receiver.AsReceiver? {
        assert IsBorrow(answer(Receiver(e.receiver.callee.value)));
      }
    }
  }

  /** In a lone function what is overlooked may be done. */
  lemma OverlookedIsDone(slot: Slot, g: Graph, answer: Slot -> Summary, p: seq<nat>, n: nat, u: nat, k: Kind)
    requires IsUse(g, p, n, u) && IsHarmless(EventAt(g, p, n, u), slot.Receiver?, answer) && !answer(slot).known
    requires IsOverlooked(EventAt(g, p, n, u), answer)
    ensures CanDo(Lone(slot, g, answer), slot, k, 2)
  {
    var prog, e := Lone(slot, g, answer), EventAt(g, p, n, u);
    forall other | other != slot && !IsBorrow(answer(other))
      ensures CanDo(prog, other, k, 1)
    {
    }
    assert EventCanDo(prog, e, k, 1);
  }

  /** That a body borrows follows from what the search read of it exactly if nothing on its paths was overlooked:
      then it does in every program whose borrows are right, and otherwise it does not in one of them. */
  lemma BorrowFollowsExactly(slot: Slot, g: Graph, t: Trace, answer: Slot -> Summary, s: Summary)
    requires Explored(g, t.verdicts) && VerdictsFound(g, slot.Receiver?, answer, t) && Summarizes(g, t.verdicts, s)
    requires IsBorrow(s) && AllProper(answer) && !answer(slot).known
    ensures (forall prog: Program :: slot in prog.bodies && prog.bodies[slot] == g && BorrowsRight(prog, answer) ==>
               Borrows(prog, slot)) <==>
            NothingOverlooked(g, answer)
  {
    hide Explored, VerdictsFound, Summarizes, AllProper, IsHarmless, IsOverlooked;
    if NothingOverlooked(g, answer) {
      forall prog: Program, k, depth: nat | slot in prog.bodies && prog.bodies[slot] == g && BorrowsRight(prog, answer)
        ensures !CanDo(prog, slot, k, depth)
      {
        forall p, n: nat, u: nat | IsUse(g, p, n, u) && depth > 0
          ensures !EventCanDo(prog, EventAt(g, p, n, u), k, depth - 1)
        {
          BorrowIsHarmless(g, slot.Receiver?, answer, t, s, p, n, u);
          assert BorrowsWithin(prog, answer, depth - 1);
          HarmlessDoesNothing(prog, EventAt(g, p, n, u), slot.Receiver?, answer, k, depth - 1);
        }
      }
    } else {
      var p, n: nat, u: nat :| IsUse(g, p, n, u) && IsOverlooked(EventAt(g, p, n, u), answer);
      BorrowIsHarmless(g, slot.Receiver?, answer, t, s, p, n, u);
      OverlookedIsDone(slot, g, answer, p, n, u, Close);
      var prog := Lone(slot, g, answer);
      assert BorrowsRight(prog, answer);
      assert !Borrows(prog, slot);
    }
  }

  // ---------- Recorded borrows ----------

  /** Nothing was overlooked by the searches that recorded borrows. */
  ghost predicate NoneOverlooked(a: ParameterEffects.Analysis)
    reads a
  {
    forall slot :: slot in a.summaries && IsBorrow(a.summaries[slot]) ==>
      slot in a.prog.bodies && slot in a.stacks
      && NothingOverlooked(a.prog.bodies[slot], ParameterEffects.AnswersOf(a, slot))
  }

  lemma RecordedIsHarmless(a: ParameterEffects.Analysis, slot: Slot, p: seq<nat>, n: nat, u: nat)
    requires a.Valid() && a.Uncancelled() && AllProper(a.prog.facts)
    requires slot in a.summaries && IsBorrow(a.summaries[slot])
    requires slot in a.prog.bodies && slot in a.stacks && IsUse(a.prog.bodies[slot], p, n, u)
    ensures var g := a.prog.bodies[slot];
      IsHarmless(EventAt(g, p, n, u), slot.Receiver?, ParameterEffects.AnswersOf(a, slot))
  {
    hide Explored, VerdictsFound, Summarizes, IsHarmless, IsProper, ParameterEffects.AnswersFrom,
      ParameterEffects.Given;
    forall x | x in a.summaries
      ensures IsProper(a.summaries[x])
    {
      ParameterEffects.RecordedIsProper(a, x);
    }
    ParameterEffects.GivenIsProper(a.prog, a.stacks[slot], a.summaries);
    assert a.Traced(a.summaries, slot, a.summaries[slot], a.traces[slot], a.stacks[slot]);
    BorrowIsHarmless(a.prog.bodies[slot], slot.Receiver?, ParameterEffects.AnswersOf(a, slot), a.traces[slot],
                     a.summaries[slot], p, n, u);
  }

  /** Without cancellation, but whatever the order and the call cycles: if nothing was overlooked, a recorded borrow
      means that no execution does anything through a use of the value. */
  lemma {:induction false} RecordedBorrowHolds(a: ParameterEffects.Analysis, slot: Slot, k: Kind, depth: nat)
    requires a.Valid() && a.Uncancelled() && AllProper(a.prog.facts) && NoneOverlooked(a)
    requires slot in a.summaries && IsBorrow(a.summaries[slot])
    ensures !CanDo(a.prog, slot, k, depth)
    decreases depth, 0
  {
    hide IsHarmless, IsOverlooked, AllProper, BorrowsWithin, EventCanDo, ParameterEffects.Analysis.Valid;
    var g, answer := a.prog.bodies[slot], ParameterEffects.AnswersOf(a, slot);
    if depth > 0 {
      var d: nat := depth - 1;
      AnswersBorrow(a, slot, d);
      forall p, n: nat, u: nat | IsUse(g, p, n, u)
        ensures !EventCanDo(a.prog, EventAt(g, p, n, u), k, d)
      {
        RecordedIsHarmless(a, slot, p, n, u);
        HarmlessDoesNothing(a.prog, EventAt(g, p, n, u), slot.Receiver?, answer, k, d);
      }
    }
  }

  lemma {:induction false} AnswersBorrow(a: ParameterEffects.Analysis, slot: Slot, depth: nat)
    requires a.Valid() && a.Uncancelled() && AllProper(a.prog.facts) && NoneOverlooked(a)
    requires slot in a.summaries && slot in a.stacks
    ensures BorrowsWithin(a.prog, ParameterEffects.AnswersOf(a, slot), depth)
    decreases depth, 1
  {
    hide AllProper, NothingOverlooked;
    var answer := ParameterEffects.AnswersOf(a, slot);
    forall x, k | IsBorrow(answer(x))
      ensures !CanDo(a.prog, x, k, depth)
    {
      if x in a.prog.bodies {
        RecordedBorrowHolds(a, x, k, depth);
      }
    }
  }

  // ---------- Borrows that are none, and a use that is not understood ----------

  const HELPER: Slot := Parameter(1, 0)
  const BORROWS: Summary := Summary(true, false, {}, {})
  const SOMETIMES: Summary := Summary(true, false, {Close}, {})

  /** `func tidy(c io.Closer) { if done { c.Close() } }` */
  const CLOSING_SOMETIMES: Graph :=
    [Block([], true, false, [1, 2]), Block([Node(ANY_WORK, [Use(Direct(Close), true)])], true, true, []),
      Block([], true, true, [])]

  /** `func drop(c io.Closer) { tidy(c) }` */
  const DROPPING: Graph := Straight([Node(ANY_WORK, [Use(Call(NotReceiver, [Bound(HELPER)]), true)])])

  /** `func stop(s Service) { s.Stop() }` */
  const STOPPING: Graph := Straight([Node(ANY_WORK, [Use(Call(AsReceiver(None), []), true)])])

  /** `func keep(c io.Closer) { alias := c; alias.Close() }` */
  const ALIASING: Graph := Straight([Node(ANY_WORK, [Use(Ambiguous, true)])])

  lemma StraightBorrows(nodes: seq<Node>, answer: Slot -> Summary)
    requires NodesFound(nodes, false, answer) == Open
    ensures var g := Straight(nodes); GraphSummary(g, BlocksFound(g, false, answer)) == BORROWS
  {
    var g := Straight(nodes);
    var v := BlocksFound(g, false, answer);
    assert v[0].Open?;
    assert forall b: nat :: Reached(g, v, b) ==> b == 0;
  }

  /** A value that is closed on some paths only is said to be lent by the function that passes it on. */
  lemma ConditionalCloseIsABorrow(answer: Slot -> Summary)
    requires answer(HELPER) == SOMETIMES
    ensures GraphSummary(DROPPING, BlocksFound(DROPPING, false, answer)) == BORROWS
    ensures CanDo(Lone(OWN, DROPPING, answer), OWN, Close, 2)
  {
    var e := Call(NotReceiver, [Bound(HELPER)]);
    assert e.arguments[0] == Bound(HELPER) && DROPPING[0].nodes[0].uses[0].event == e;
    EventMeans(e, false, answer);
    NodesOpen(DROPPING[0].nodes, false, answer);
    StraightBorrows(DROPPING[0].nodes, answer);
    assert IsUse(DROPPING, [0], 0, 0) && CanDo(Lone(OWN, DROPPING, answer), HELPER, Close, 1);
    assert BindingCanDo(Lone(OWN, DROPPING, answer), e.arguments[0], Close, 1);
  }

  /** That is what the search finds for it. */
  lemma SometimesIsFound(answer: Slot -> Summary)
    ensures GraphSummary(CLOSING_SOMETIMES, BlocksFound(CLOSING_SOMETIMES, false, answer)) == SOMETIMES
  {
    var g := CLOSING_SOMETIMES;
    var v := BlocksFound(g, false, answer);
    assert v[0] == Open && v[1] == Effects({Close}, {Close}) && v[2] == Open;
    assert VerdictPathTo(g, v, [0, 1], 1) && VerdictPathTo(g, v, [0, 2], 2);
    assert Reached(g, v, 1) && Reached(g, v, 2);
    hide NodesFound;
    forall k
      ensures MayPerform(g, v, k) <==> k == Close
    {
      assert k == Close ==> k in v[1].kinds;
    }
  }

  /** So is a value of which a method is called that is not known. */
  lemma UnknownMethodIsABorrow(answer: Slot -> Summary)
    ensures GraphSummary(STOPPING, BlocksFound(STOPPING, false, answer)) == BORROWS
    ensures CanDo(Lone(OWN, STOPPING, answer), OWN, Close, 2)
  {
    assert NodesFound(STOPPING[0].nodes, false, answer) == Open;
    StraightBorrows(STOPPING[0].nodes, answer);
    assert IsUse(STOPPING, [0], 0, 0) && EventCanDo(Lone(OWN, STOPPING, answer), Call(AsReceiver(None), []), Close, 1);
  }

  /** An alias is not understood: nothing is known. */
  lemma AliasIsUnknown(answer: Slot -> Summary)
    ensures GraphSummary(ALIASING, BlocksFound(ALIASING, false, answer)) == NO_SUMMARY
  {
    var g := ALIASING;
    var v := BlocksFound(g, false, answer);
    assert VerdictPathTo(g, v, [0], 0);
    assert v[0].Opaque? && Reached(g, v, 0);
  }
}
