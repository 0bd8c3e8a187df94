/** Interprocedural effect guarantees for parameters and receivers (internal/analysis/parameter_effects.go). */
module ParameterEffects {
  import opened ControlFlow
  import opened EffectEquations
  import opened EffectGuarantees
  import opened EffectKinds
  import opened EffectPrograms
  import opened EffectSummaries
  import opened Wrappers
  import NoReturn

  // ---------- The analysis ----------

  /** What a search that runs while the slots in `stack` are being built may be told of its callees, when the table
      holds `summaries`: nothing of those on the stack; of others what is recorded, or will be. */
  ghost predicate AnswersFrom(prog: Program, stack: set<Slot>, summaries: map<Slot, Summary>, answer: Slot -> Summary) {
    && (forall slot :: slot !in prog.bodies ==> answer(slot) == prog.Fact(slot))
    && (forall slot :: slot in prog.bodies && slot in stack ==> answer(slot) == NO_SUMMARY)
    && forall slot :: slot in prog.bodies && slot !in stack && slot in summaries ==> answer(slot) == summaries[slot]
  }

  ghost predicate SaysNoLess(prog: Program, before: map<Slot, Summary>, after: map<Slot, Summary>) {
    forall stack, answer :: AnswersFrom(prog, stack, after, answer) ==> AnswersFrom(prog, stack, before, answer)
  }

  class Analysis {
    const prog: Program
    const ctxErr: nat -> bool
    ghost const rank: Slot -> nat
    var polls: nat
    var summaries: map<Slot, Summary>
    var started: set<Slot>
    ghost var traces: map<Slot, Trace>
    ghost var stacks: map<Slot, set<Slot>>

    ghost predicate Valid()
      reads this
    {
      && started <= prog.bodies.Keys && started !! summaries.Keys
      && (forall slot :: slot in prog.bodies ==> slot.fn in prog.defined)
      && AllTraced(summaries, traces, stacks)
      && (Steady() ==> AllRecordedSound(summaries))
    }

    ghost predicate AllTraced(table: map<Slot, Summary>, traces: map<Slot, Trace>, stacks: map<Slot, set<Slot>>) {
      && table.Keys <= prog.bodies.Keys && traces.Keys == table.Keys && stacks.Keys == table.Keys
      && forall slot :: slot in table ==> Traced(table, slot, table[slot], traces[slot], stacks[slot])
    }

    ghost predicate AllRecordedSound(table: map<Slot, Summary>) {
      forall slot :: slot in table ==> Sound(prog, slot, table[slot])
    }

    ghost predicate AllFirm(table: map<Slot, Summary>, traces: map<Slot, Trace>) {
      forall slot :: slot in table && slot in traces && slot in prog.bodies && table[slot].always ==>
        Firm(prog.bodies[slot], traces[slot])
    }

    /** The summary was found by the search that left the trace, while the slots in `stack` were being built. */
    ghost predicate Traced(table: map<Slot, Summary>, slot: Slot, s: Summary, t: Trace, stack: set<Slot>)
      requires slot in prog.bodies
    {
      && TracePlaced(prog.bodies[slot], t)
      && (s.always || Uncancelled() ==>
           Explored(prog.bodies[slot], t.verdicts) && Summarizes(prog.bodies[slot], t.verdicts, s))
      && slot in stack && (Ideal() ==> forall x :: x in stack ==> rank(slot) <= rank(x))
      && (Uncancelled() ==> Told(table, slot, t, stack))
    }

    /** The verdicts are those that the answers gave, as the table records them. */
    ghost predicate Told(table: map<Slot, Summary>, slot: Slot, t: Trace, stack: set<Slot>)
      requires slot in prog.bodies
    {
      forall answer :: AnswersFrom(prog, stack, table, answer) ==>
        VerdictsFound(prog.bodies[slot], slot.Receiver?, answer, t)
    }

    ghost predicate BlockTold(table: map<Slot, Summary>, stack: set<Slot>, b: Block<Node>, receiver: bool, v: Verdict,
                              at: Place) {
      forall answer :: AnswersFrom(prog, stack, table, answer) ==>
        v == NodesFound(b.nodes, receiver, answer) && at == NodesPlace(b.nodes, receiver, answer)
    }

    lemma ToldStep(before: map<Slot, Summary>, table: map<Slot, Summary>, slot: Slot, t: Trace, stack: set<Slot>,
                   b: nat,
                   v: Verdict, at: Place)
      requires slot in prog.bodies && b < |prog.bodies[slot]| && Told(before, slot, t, stack)
      requires SaysNoLess(prog, before, table)
      requires BlockTold(table, stack, prog.bodies[slot][b], slot.Receiver?, v, at)
      ensures Told(table, slot, Trace(t.verdicts[b := v], t.at[b := at]), stack)
    {
      hide NodesFound, NodesPlace, AnswersFrom, VerdictsFound;
      forall answer | AnswersFrom(prog, stack, table, answer)
        ensures VerdictsFound(prog.bodies[slot], slot.Receiver?, answer, Trace(t.verdicts[b := v], t.at[b := at]))
      {
        assert AnswersFrom(prog, stack, before, answer);
        VerdictsFoundStep(prog.bodies[slot], slot.Receiver?, answer, t, b);
      }
    }

    lemma NothingTold(table: map<Slot, Summary>, slot: Slot, stack: set<Slot>)
      requires slot in prog.bodies
      ensures Told(table, slot, Trace(map[], map[]), stack)
    {
      NothingToldYet(prog.bodies[slot], slot.Receiver?);
    }

    /** The verdicts found so far are those that the answers gave, and, if nothing gets around what is recorded, they
        hold. */
    ghost predicate Justified(table: map<Slot, Summary>, stack: set<Slot>, slot: Slot, t: Trace, steady: bool)
      requires slot in prog.bodies
    {
      && TracePlaced(prog.bodies[slot], t) && (steady ==> VerdictsHold(prog, prog.bodies[slot], t))
      && (Uncancelled() ==> Told(table, slot, t, stack))
    }

    lemma NothingToJustify(table: map<Slot, Summary>, stack: set<Slot>, slot: Slot, steady: bool)
      requires slot in prog.bodies
      ensures Justified(table, stack, slot, Trace(map[], map[]), steady)
    {
      NothingTold(table, slot, stack);
      NothingPlacedYet(prog, prog.bodies[slot]);
    }

    lemma JustifiedStep(before: map<Slot, Summary>, table: map<Slot, Summary>, stack: set<Slot>, slot: Slot, t: Trace,
                        b: nat, v: Verdict, at: Place, steady: bool, steadyNow: bool)
      requires slot in prog.bodies && b < |prog.bodies[slot]| && Justified(before, stack, slot, t, steady)
      requires SaysNoLess(prog, before, table) && (steadyNow ==> steady)
      requires IsPlaced(prog.bodies[slot][b], v, at) && (steadyNow ==> BlockPromises(prog, prog.bodies[slot][b], v, at))
      requires Uncancelled() ==> BlockTold(table, stack, prog.bodies[slot][b], slot.Receiver?, v, at)
      ensures Justified(table, stack, slot, Trace(t.verdicts[b := v], t.at[b := at]), steadyNow)
    {
      hide Told, BlockTold, SaysNoLess, VerdictsHold, BlockPromises, IsPlaced, TracePlaced;
      PlacedStep(prog, prog.bodies[slot], t, b, v, at);
      if Uncancelled() {
        ToldStep(before, table, slot, t, stack, b, v, at);
      }
    }

    ghost predicate Fits(answer: Slot -> Summary)
      reads this
    {
      AnswersFrom(prog, started, summaries, answer)
    }

    ghost predicate Uncancelled() {
      forall n :: !ctxErr(n)
    }

    /** Nothing gets around the uses that decided what is recorded. */
    ghost predicate Steady()
      reads this
    {
      AllFirm(summaries, traces)
    }

    /** No cancellation, and calls only go to slots of lower rank. */
    ghost predicate Ideal() {
      Uncancelled() && Acyclic(prog, rank)
    }

    /** In the ideal case the slots being built rank above the one asked for, so it is not among them. */
    ghost predicate CanAsk(slot: Slot)
      reads this
    {
      Ideal() ==> forall t :: t in started ==> rank(slot) < rank(t)
    }

    ghost predicate OnTop(top: Slot)
      reads this
    {
      Ideal() ==> forall t :: t in started ==> rank(top) <= rank(t)
    }

    constructor (prog: Program, ctxErr: nat -> bool, ghost rank: Slot -> nat)
      requires forall slot :: slot in prog.bodies ==> slot.fn in prog.defined
      ensures Valid() && this.prog == prog && this.ctxErr == ctxErr && this.rank == rank
      ensures summaries == map[] && started == {}
    {
      this.prog, this.ctxErr, this.rank := prog, ctxErr, rank;
      polls, summaries, started, traces, stacks := 0, map[], {}, map[], map[];
    }

    method Cancelled() returns (stop: bool)
      requires Valid()
      modifies this`polls
      ensures Valid() && (Steady() <==> old(Steady()))
      ensures stop ==> !Uncancelled()
      ensures forall answer :: Fits(answer) <==> old(Fits(answer))
    {
      hide AllTraced, AllFirm, AllRecordedSound, AnswersFrom;
      stop := ctxErr(polls);
      polls := polls + 1;
    }

    /** Memo entries are written once and never change. */
    twostate predicate Grows()
      reads this
    {
      && (forall slot :: slot in old(summaries) ==> slot in summaries && summaries[slot] == old(summaries[slot]))
      && (Steady() ==> old(Steady()))
      && SaysNoLess(prog, old(summaries), summaries)
    }

    /** `receiverSummary` and `summary`: build a local definition, or look up the fact. */
    method Lookup(slot: Slot) returns (s: Summary)
      requires Valid() && CanAsk(slot)
      modifies this
      ensures Valid() && started == old(started) && Grows()
      ensures Steady() ==> Sound(prog, slot, s)
      ensures Uncancelled() ==> forall answer :: Fits(answer) ==> s == answer(slot)
      decreases prog.bodies.Keys - started, 1
    {
      BodiesAreDefined();
      hide Valid, Steady, Sound;
      if slot.fn in prog.defined {
        s := Build(slot);
      } else {
        s := prog.facts(slot);
      }
    }

    /** `build` and `buildReceiver`: a slot already on the call stack has no summary yet. */
    method Build(slot: Slot) returns (s: Summary)
      requires Valid() && CanAsk(slot) && slot.fn in prog.defined
      modifies this
      ensures Valid() && started == old(started) && Grows()
      ensures Steady() ==> Sound(prog, slot, s)
      ensures Uncancelled() ==> forall answer :: Fits(answer) ==> s == answer(slot)
      ensures Uncancelled() && slot in prog.bodies && slot !in old(started) ==>
        slot in summaries && summaries[slot] == s
      decreases prog.bodies.Keys - started, 0, 1
    {
      hide Valid, Steady, Acyclic, Firm, Sound;
      var stop := Cancelled();
      if slot !in prog.bodies || stop {
        NothingIsSound(prog, slot);
        return NO_SUMMARY;
      }
      if slot in summaries {
        RecordedIsRight(slot);
        StartedIsNotBuilt();
        return summaries[slot];
      }
      if slot in started {
        NothingIsSound(prog, slot);
        return NO_SUMMARY;
      }
      s := Record(slot);
    }

    /** Summarize the slot and keep the result. */
    method Record(slot: Slot) returns (s: Summary)
      requires Valid() && CanAsk(slot) && slot in prog.bodies && slot !in summaries && slot !in started
      modifies this
      ensures Valid() && started == old(started) && Grows()
      ensures Steady() ==> Sound(prog, slot, s)
      ensures Uncancelled() ==> forall answer :: Fits(answer) ==> s == answer(slot)
      ensures slot in summaries && summaries[slot] == s
      decreases prog.bodies.Keys - started, 0, 0
    {
      hide Valid, Steady, Acyclic, Firm, Sound, Summarizes, VerdictsHold, TracePlaced, AnswersFrom, Told, Explored;
      Start(slot);
      ghost var stack := started;
      ghost var t;
      s, t := Summarize(slot);
      assert Traced(summaries, slot, s, t, stack) && (Steady() ==> VerdictsHold(prog, prog.bodies[slot], t));
      TraceIsRight(slot, s, t, stack);
      StartedIsNotBuilt();
      Keep(slot, s, t, stack);
      assert forall answer :: Fits(answer) ==> s == answer(slot) by { RecordedFits(slot); }
    }

    lemma RecordedFits(slot: Slot)
      requires slot in prog.bodies && slot in summaries && slot !in started
      ensures forall answer :: Fits(answer) ==> summaries[slot] == answer(slot)
    {
    }

    method Start(slot: Slot)
      requires Valid() && slot in prog.bodies && slot !in summaries && slot !in started
      modifies this`started
      ensures Valid() && started == old(started) + {slot} && (Steady() <==> old(Steady()))
    {
      hide AllTraced, AllFirm, AllRecordedSound;
      started := started + {slot};
    }

    lemma StartedIsNotBuilt()
      requires Valid()
      ensures started !! summaries.Keys
    {
    }

    lemma BodiesAreDefined()
      requires Valid()
      ensures forall slot :: slot in prog.bodies ==> slot.fn in prog.defined
    {
    }

    lemma TraceIsRight(slot: Slot, s: Summary, t: Trace, stack: set<Slot>)
      requires slot in prog.bodies && Traced(summaries, slot, s, t, stack)
      requires Steady() ==> VerdictsHold(prog, prog.bodies[slot], t)
      ensures Steady() && (s.always ==> Firm(prog.bodies[slot], t)) ==> Sound(prog, slot, s)
    {
      hide Firm, Steady, Summarizes, EffectSearch, VerdictsHold, Told;
      if s.always && Firm(prog.bodies[slot], t) && Steady() {
        SummaryIsSound(prog, slot, t, s);
      }
    }

    method Keep(slot: Slot, s: Summary, ghost t: Trace, ghost stack: set<Slot>)
      requires Valid() && slot in prog.bodies && slot !in summaries && slot in started
      requires Traced(summaries, slot, s, t, stack)
      requires Steady() && (s.always ==> Firm(prog.bodies[slot], t)) ==> Sound(prog, slot, s)
      modifies this
      ensures Valid() && started == old(started) - {slot} && Grows()
      ensures slot in summaries && summaries[slot] == s && (Steady() ==> Sound(prog, slot, s))
    {
      hide Firm, Sound, SaysNoLess, Traced, AllFirm, AllTraced, AllRecordedSound;
      MoreSaysNoLess(prog, summaries, summaries[slot := s]);
      TracedStep(summaries, traces, stacks, slot, s, t, stack);
      FirmStep(summaries, traces, stacks, slot, s, t);
      summaries := summaries[slot := s];
      traces := traces[slot := t];
      stacks := stacks[slot := stack];
      started := started - {slot};
    }

    lemma TracedStep(table: map<Slot, Summary>, traces: map<Slot, Trace>, stacks: map<Slot, set<Slot>>, slot: Slot,
                     s: Summary, t: Trace, stack: set<Slot>)
      requires AllTraced(table, traces, stacks) && slot in prog.bodies && slot !in table
      requires Traced(table, slot, s, t, stack)
      ensures AllTraced(table[slot := s], traces[slot := t], stacks[slot := stack])
    {
      hide Traced, SaysNoLess;
      var after := table[slot := s];
      MoreSaysNoLess(prog, table, after);
      TracedStays(table, after, slot, s, t, stack);
      forall x | x in table
        ensures Traced(after, x, table[x], traces[x], stacks[x])
      {
        TracedStays(table, after, x, table[x], traces[x], stacks[x]);
      }
    }

    lemma FirmStep(table: map<Slot, Summary>, traces: map<Slot, Trace>, stacks: map<Slot, set<Slot>>, slot: Slot,
                   s: Summary, t: Trace)
      requires AllTraced(table, traces, stacks) && slot in prog.bodies && slot !in table
      requires AllFirm(table, traces) ==> AllRecordedSound(table)
      requires AllFirm(table, traces) && (s.always ==> Firm(prog.bodies[slot], t)) ==> Sound(prog, slot, s)
      ensures AllFirm(table[slot := s], traces[slot := t]) ==>
        AllFirm(table, traces) && Sound(prog, slot, s) && AllRecordedSound(table[slot := s])
    {
      hide Firm, Sound, Traced;
      if AllFirm(table[slot := s], traces[slot := t]) {
        forall x | x in table && table[x].always
          ensures Firm(prog.bodies[x], traces[x])
        {
          assert table[slot := s][x] == table[x] && traces[slot := t][x] == traces[x];
        }
      }
    }

    /** A growing table says no less of the answers a search was given. */
    lemma TracedStays(before: map<Slot, Summary>, after: map<Slot, Summary>, slot: Slot, s: Summary, t: Trace,
                      stack: set<Slot>)
      requires slot in prog.bodies && Traced(before, slot, s, t, stack) && SaysNoLess(prog, before, after)
      ensures Traced(after, slot, s, t, stack)
    {
      hide AnswersFrom, Explored, Summarizes, VerdictsFound, TracePlaced, Acyclic;
    }

    lemma RecordedIsRight(slot: Slot)
      requires Valid() && slot in summaries
      ensures slot in prog.bodies && (Steady() ==> Sound(prog, slot, summaries[slot]))
    {
      hide Sound, Firm, Acyclic, Traced;
    }

    /** `buildAll`, over the receivers and parameters in any order: every recorded summary is sound, and without
        cancellation every slot has one. */
    method BuildAll(ordered: seq<Slot>)
      requires Valid() && started == {}
      requires forall slot :: slot in ordered ==> slot in prog.bodies
      modifies this
      ensures Valid() && started == {} && Grows()
      ensures Uncancelled() ==> forall slot :: slot in ordered ==> slot in summaries
    {
      hide Valid, Steady, Acyclic;
      BodiesAreDefined();
      for i := 0 to |ordered|
        invariant Valid() && started == {} && Grows()
        invariant Uncancelled() ==> forall j :: 0 <= j < i ==> ordered[j] in summaries
      {
        var stop := Cancelled();
        if stop {
          return;
        }
        var _ := Build(ordered[i]);
      }
    }

    /** The effects of one event and what it guarantees, or that it cannot be understood. */
    method EventEffect(e: Event, receiver: bool, ghost top: Slot)
      returns (kinds: set<Kind>, guaranteed: set<Kind>, ambiguous: bool)
      requires Valid() && OnTop(top) && (Ideal() ==> AsksBelow(e, rank, rank(top)))
      modifies this
      ensures Valid() && started == old(started) && Grows()
      ensures Uncancelled() ==> forall answer :: Fits(answer) ==>
        Found(kinds, guaranteed, ambiguous) == EventFound(e, receiver, answer)
      ensures Steady() && !ambiguous && kinds != {} ==> EventPromises(prog, e, kinds, guaranteed)
      decreases prog.bodies.Keys - started, 2
    {
      hide Valid, Steady, Acyclic, Sound, EventKeeps, EventPromises, AnswersFrom;
      kinds, guaranteed, ambiguous := {}, {}, false;
      if e.Direct? {
        DirectIsPromised(prog, e.kind);
        return {e.kind}, {e.kind}, false;
      }
      if e.Ambiguous? {
        return {}, {}, true;
      }
      if e.Rebind? {
        return {}, {}, receiver && e.seen;
      }
      if e.receiver.AsReceiver? {
        if e.receiver.callee.None? {
          return {}, {}, receiver;
        }
        var s := Lookup(Receiver(e.receiver.callee.value));
        if !s.known {
          return {}, {}, receiver;
        }
        ReceiverIsKept(prog, e, s);
        if s.always {
          kinds, guaranteed := s.kinds, s.guaranteed;
        }
      } else {
        NothingIsKept(prog, e);
      }
      kinds, guaranteed, ambiguous := ArgumentsEffect(e, kinds, guaranteed, top);
      KeptIsPromised(prog, e, kinds, guaranteed);
    }

    /** The arguments in order: the first that cannot be understood ends the walk. */
    method ArgumentsEffect(e: Event, k: set<Kind>, g: set<Kind>, ghost top: Slot)
      returns (kinds: set<Kind>, guaranteed: set<Kind>, ambiguous: bool)
      requires Valid() && OnTop(top) && e.Call? && (Ideal() ==> AsksBelow(e, rank, rank(top)))
      requires Steady() ==> EventKeeps(prog, e, k, g)
      modifies this
      ensures Valid() && started == old(started) && Grows()
      ensures Uncancelled() ==> forall answer :: Fits(answer) ==>
        Found(kinds, guaranteed, ambiguous) == ArgumentsFound(e.arguments, answer, Found(k, g, false))
      ensures Steady() && !ambiguous ==> EventKeeps(prog, e, kinds, guaranteed)
      decreases prog.bodies.Keys - started, 2, 0
    {
      hide Valid, Steady, Acyclic, Sound, EventKeeps, AnswersFrom;
      kinds, guaranteed, ambiguous := k, g, false;
      ghost var start := Found(k, g, false);
      assert e.arguments[..0] == [];
      for a := 0 to |e.arguments|
        invariant Valid() && started == old(started) && Grows()
        invariant Uncancelled() ==> forall answer :: Fits(answer) ==>
          Found(kinds, guaranteed, false) == ArgumentsFound(e.arguments[..a], answer, start)
        invariant Steady() ==> EventKeeps(prog, e, kinds, guaranteed)
      {
        assert e.arguments[..a + 1][..a] == e.arguments[..a] && e.arguments[..a + 1][a] == e.arguments[a];
        if e.arguments[a].Unresolved? {
          AllStayAmbiguous(e.arguments, start, a);
          return kinds, guaranteed, true;
        }
        var s := Lookup(e.arguments[a].slot);
        if !s.known {
          AllStayAmbiguous(e.arguments, start, a);
          return kinds, guaranteed, true;
        }
        if s.always {
          if Steady() {
            ArgumentIsKept(prog, e, a, s, kinds, guaranteed);
          }
          kinds, guaranteed := kinds + s.kinds, guaranteed + s.guaranteed;
        }
      }
      assert e.arguments[..|e.arguments|] == e.arguments;
    }

    /** `parameterNodeEffect`: the walk stops at the first event with an effect or an ambiguous use. */
    method NodeEffect(node: Node, receiver: bool, ghost top: Slot) returns (v: Verdict, ghost use: nat)
      requires Valid() && OnTop(top) && (Ideal() ==> NodeAsksBelow(node, rank, rank(top)))
      modifies this
      ensures Valid() && started == old(started) && Grows()
      ensures v.Effects? ==> v.kinds != {} && use < |node.uses|
      ensures Steady() && v.Effects? ==> EventPromises(prog, node.uses[use].event, v.kinds, v.guaranteed)
      ensures Uncancelled() ==> forall answer :: Fits(answer) ==>
        v == UsesFound(node.uses, receiver, answer) && (!v.Open? ==> use == UsePlace(node.uses, receiver, answer))
      decreases prog.bodies.Keys - started, 3
    {
      hide Valid, Steady, Acyclic, EventPromises, EventFound, AnswersFrom;
      assert node.uses[0..] == node.uses;
      for u := 0 to |node.uses|
        invariant Valid() && started == old(started) && Grows()
        invariant Uncancelled() ==> forall answer :: Fits(answer) ==>
          && UsesFound(node.uses, receiver, answer) == UsesFound(node.uses[u..], receiver, answer)
          && UsePlace(node.uses, receiver, answer) == u + UsePlace(node.uses[u..], receiver, answer)
      {
        assert node.uses[u..][1..] == node.uses[u + 1..];
        var kinds, guaranteed, ambiguous := EventEffect(node.uses[u].event, receiver, top);
        if ambiguous {
          return Opaque, u;
        }
        if kinds != {} {
          return Effects(kinds, guaranteed), u;
        }
      }
      return Open, 0;
    }

    method BlockEffect(b: Block<Node>, receiver: bool, ghost top: Slot) returns (v: Verdict, ghost at: Place)
      requires Valid() && OnTop(top)
      requires Ideal() ==> forall n :: 0 <= n < |b.nodes| ==> NodeAsksBelow(b.nodes[n], rank, rank(top))
      modifies this
      ensures Valid() && started == old(started) && Grows()
      ensures IsPlaced(b, v, at) && (Steady() ==> BlockPromises(prog, b, v, at))
      ensures Uncancelled() ==> BlockTold(summaries, started, b, receiver, v, at)
      decreases prog.bodies.Keys - started, 4
    {
      hide Valid, Steady, Acyclic, UsesFound, AnswersFrom;
      assert b.nodes[0..] == b.nodes;
      for n := 0 to |b.nodes|
        invariant Valid() && started == old(started) && Grows()
        invariant Uncancelled() ==> forall answer :: Fits(answer) ==>
          && NodesFound(b.nodes, receiver, answer) == NodesFound(b.nodes[n..], receiver, answer)
          && NodesPlace(b.nodes, receiver, answer) == Behind(n, NodesPlace(b.nodes[n..], receiver, answer))
      {
        assert b.nodes[n..][1..] == b.nodes[n + 1..];
        ghost var use;
        v, use := NodeEffect(b.nodes[n], receiver, top);
        if !v.Open? {
          at := Place(n, use);
          return;
        }
      }
      return Open, Place(|b.nodes|, 0);
    }

    lemma BlockAsksInOrder(slot: Slot, b: nat)
      requires slot in prog.bodies && b < |prog.bodies[slot]|
      ensures Ideal() ==> forall n :: 0 <= n < |prog.bodies[slot][b].nodes| ==>
        NodeAsksBelow(prog.bodies[slot][b].nodes[n], rank, rank(slot))
    {
      if Ideal() {
        BlockAsksBelow(prog, rank, slot, b);
      }
    }

    /** `summarizeParameter`: the trace records what each visited block was taken to do, and why. */
    method Summarize(slot: Slot) returns (s: Summary, ghost t: Trace)
      requires Valid() && OnTop(slot) && slot in prog.bodies && slot in started
      modifies this
      ensures Valid() && started == old(started) && Grows()
      ensures Justified(summaries, started, slot, t, Steady())
      ensures s != NO_SUMMARY || Uncancelled() ==>
        Explored(prog.bodies[slot], t.verdicts) && Summarizes(prog.bodies[slot], t.verdicts, s)
      decreases prog.bodies.Keys - started, 5
    {
      hide EffectSearch, Tallied, VerdictsHold, Summarizes, Acyclic, VerdictsFound, NodesFound, NodesPlace,
        BlockPromises, TracePlaced, IsPlaced, Valid, Steady, SaysNoLess, Justified, BlockTold,
        Ideal, NodeAsksBelow;
      var g, receiver := prog.bodies[slot], slot.Receiver?;
      t := Trace(map[], map[]);
      EffectSearchStart(g);
      NothingToJustify(summaries, started, slot, Steady());
      MoreSaysNoLess(prog, summaries, summaries);
      if |g| == 0 {
        return NO_SUMMARY, t;
      }
      var work: seq<nat> := [0];
      var known, openReturn, terminal := true, false, false;
      var kinds: set<Kind>, guaranteedKinds: set<Kind> := {}, {};
      var seen: set<nat> := {};
      while |work| > 0
        invariant Valid() && started == old(started) && Grows()
        invariant seen == t.verdicts.Keys && EffectSearch(g, t.verdicts, work)
        invariant Justified(summaries, started, slot, t, Steady())
        invariant Tallied(g, t.verdicts, known, openReturn, terminal, kinds, guaranteedKinds)
        decreases BlockIds(|g|) - seen, |work|
      {
        var stop := Cancelled();
        if stop {
          return NO_SUMMARY, t;
        }
        var current := work[|work| - 1];
        if !Visitable(g, current) || current in seen {
          EffectSearchSkip(g, t.verdicts, work);
          work := work[..|work| - 1];
          continue;
        }
        seen := seen + {current};
        BlockAsksInOrder(slot, current);
        ghost var at;
        var v;
        ghost var before, steady := summaries, Steady();
        v, at := BlockEffect(g[current], receiver, slot);
        var next := [];
        TallyStep(g, t.verdicts, known, openReturn, terminal, kinds, guaranteedKinds, current, v);
        match v {
          case Opaque =>
            known := false;
          case Effects(effect, guaranteed) =>
            guaranteedKinds := if terminal then guaranteedKinds * guaranteed else guaranteed;
            terminal := true;
            kinds := kinds + effect;
          case Open =>
            if g[current].isReturn {
              openReturn := true;
            } else {
              next := g[current].succs;
            }
        }
        EffectSearchVisit(g, t.verdicts, work, v, next);
        JustifiedStep(before, summaries, started, slot, t, current, v, at, steady, Steady());
        NoLessTrans(prog, old(summaries), before, summaries);
        t := Trace(t.verdicts[current := v], t.at[current := at]);
        work := work[..|work| - 1] + next;
      }
      TallySummarizes(g, t.verdicts, known, openReturn, terminal, kinds, guaranteedKinds);
      s := if !known then NO_SUMMARY
           else Summary(true, terminal && !openReturn, kinds, if openReturn then {} else guaranteedKinds);
    }
  }

  function Behind(n: nat, at: Place): Place {
    Place(n + at.node, at.use)
  }

  lemma MoreSaysNoLess(prog: Program, before: map<Slot, Summary>, after: map<Slot, Summary>)
    requires forall slot :: slot in before ==> slot in after && after[slot] == before[slot]
    ensures SaysNoLess(prog, before, after)
  {
  }

  lemma NoLessTrans(prog: Program, one: map<Slot, Summary>, two: map<Slot, Summary>, three: map<Slot, Summary>)
    requires SaysNoLess(prog, one, two) && SaysNoLess(prog, two, three)
    ensures SaysNoLess(prog, one, three)
  {
    hide AnswersFrom;
  }

  lemma NothingToldYet(g: Graph, receiver: bool)
    ensures forall answer :: VerdictsFound(g, receiver, answer, Trace(map[], map[]))
  {
    forall answer
      ensures VerdictsFound(g, receiver, answer, Trace(map[], map[]))
    {
      NothingFoundYet(g, receiver, answer);
    }
  }

  lemma AllStayAmbiguous(arguments: seq<Binding>, found: Found, a: nat)
    requires a < |arguments|
    ensures forall answer: Slot -> Summary :: var before := ArgumentsFound(arguments[..a], answer, found);
      !before.ambiguous && (arguments[a].Unresolved? || !answer(arguments[a].slot).known) ==>
        ArgumentsFound(arguments, answer, found) == before.(ambiguous := true)
  {
    forall answer: Slot -> Summary
      ensures var before := ArgumentsFound(arguments[..a], answer, found);
        !before.ambiguous && (arguments[a].Unresolved? || !answer(arguments[a].slot).known) ==>
          ArgumentsFound(arguments, answer, found) == before.(ambiguous := true)
    {
      StaysAmbiguous(arguments, answer, found, a);
    }
  }

  lemma NothingPlacedYet(prog: Program, g: Graph)
    ensures TracePlaced(g, Trace(map[], map[])) && VerdictsHold(prog, g, Trace(map[], map[]))
  {
  }

  lemma PlacedStep(prog: Program, g: Graph, t: Trace, b: nat, v: Verdict, at: Place)
    requires TracePlaced(g, t) && b < |g| && IsPlaced(g[b], v, at)
    ensures var u := Trace(t.verdicts[b := v], t.at[b := at]);
      TracePlaced(g, u) && (VerdictsHold(prog, g, t) && BlockPromises(prog, g[b], v, at) ==> VerdictsHold(prog, g, u))
  {
    hide BlockPromises, IsPlaced;
  }

  /** What the arguments seen so far make certain. */
  ghost predicate EventKeeps(prog: Program, e: Event, kinds: set<Kind>, guaranteed: set<Kind>) {
    forall performed, depth: nat :: EventHappens(prog, e, performed, depth) ==>
      guaranteed <= performed && (kinds != {} ==> kinds * performed != {})
  }

  lemma DirectIsPromised(prog: Program, kind: Kind)
    ensures EventPromises(prog, Direct(kind), {kind}, {kind})
  {
    assert forall performed: set<Kind> :: kind in performed ==> kind in {kind} * performed;
  }

  lemma NothingIsKept(prog: Program, e: Event)
    ensures EventKeeps(prog, e, {}, {})
  {
  }

  lemma ReceiverIsKept(prog: Program, e: Event, s: Summary)
    requires e.Call? && e.receiver.AsReceiver? && e.receiver.callee.Some?
    ensures Sound(prog, Receiver(e.receiver.callee.value), s) && s.always ==> EventKeeps(prog, e, s.kinds, s.guaranteed)
    ensures EventKeeps(prog, e, {}, {})
  {
    var b := Bound(Receiver(e.receiver.callee.value));
    if Sound(prog, b.slot, s) && s.always {
      BindingPromises(prog, b, s);
    }
  }

  lemma ArgumentIsKept(prog: Program, e: Event, a: nat, s: Summary, kinds: set<Kind>, guaranteed: set<Kind>)
    requires e.Call? && a < |e.arguments| && e.arguments[a].Bound? && Sound(prog, e.arguments[a].slot, s) && s.always
    requires EventKeeps(prog, e, kinds, guaranteed)
    ensures EventKeeps(prog, e, kinds + s.kinds, guaranteed + s.guaranteed)
  {
    hide Sound;
    BindingPromises(prog, e.arguments[a], s);
    forall performed, depth: nat | EventHappens(prog, e, performed, depth)
      ensures guaranteed + s.guaranteed <= performed && (kinds + s.kinds) * performed != {}
    {
      assert BindingHappens(prog, e.arguments[a], performed, depth);
      var k :| k in s.kinds * performed;
      assert k in (kinds + s.kinds) * performed;
    }
  }

  lemma KeptIsPromised(prog: Program, e: Event, kinds: set<Kind>, guaranteed: set<Kind>)
    ensures EventKeeps(prog, e, kinds, guaranteed) && kinds != {} ==> EventPromises(prog, e, kinds, guaranteed)
  {
  }

  // ---------- What recorded summaries are worth ----------

  /** What a rule learns from a recorded summary: if it guarantees an accepted effect, every returning call whose
      call tree is finite performs one, and every guaranteed kind besides, provided nothing gets around a deciding
      use. */
  lemma RecordedGuaranteeHolds(a: Analysis, slot: Slot, accepted: set<Kind>, performed: set<Kind>, depth: nat)
    requires a.Valid() && a.Steady() && slot in a.summaries && GuaranteesAny(a.summaries[slot], accepted)
    requires Performs(a.prog, slot, performed, depth)
    ensures performed * accepted != {} && a.summaries[slot].guaranteed <= performed
  {
    GuaranteesAnyIsPerformed(a.summaries[slot], accepted, performed);
  }

  /** The program as written, of which the analysis has seen the graphs that no-return analysis left. */
  ghost predicate Describes(a: Analysis, raw: Program, flows: NoReturn.Analysis)
    reads a, flows
  {
    && raw.flow == a.prog.flow == flows.prog && raw.defined == a.prog.defined && raw.facts == a.prog.facts
    && (forall slot :: slot in raw.bodies ==>
         slot.fn in raw.defined && slot.fn in flows.prog.bodies && Flow(raw.bodies[slot]) == flows.prog.bodies[slot.fn])
    && forall slot :: slot in a.prog.bodies ==>
         && slot in raw.bodies && slot.fn in flows.graphs && Flow(a.prog.bodies[slot]) == flows.graphs[slot.fn]
         && forall b :: 0 <= b < |a.prog.bodies[slot]| && b < |raw.bodies[slot]| ==>
              a.prog.bodies[slot][b].nodes <= raw.bodies[slot][b].nodes
  }

  lemma DescribesCut(a: Analysis, raw: Program, flows: NoReturn.Analysis)
    requires flows.Valid() && Describes(a, raw, flows)
    ensures IsCutOf(raw, a.prog, flows.noReturns)
  {
    forall slot | slot in a.prog.bodies
      ensures BodyIsCut(raw.flow, flows.noReturns, raw.bodies[slot], a.prog.bodies[slot])
    {
      var one, two := raw.bodies[slot], a.prog.bodies[slot];
      assert NoReturn.IsPruned(flows.prog, flows.noReturns, Flow(one), Flow(two));
      assert |Flow(one)| == |one| && |Flow(two)| == |two|;
    }
  }

  /** The two inferences together: the same holds of every execution of the program as written, if besides no recorded
      no-return function recovers. */
  lemma WrittenGuaranteeHolds(a: Analysis, raw: Program, flows: NoReturn.Analysis, slot: Slot, accepted: set<Kind>,
                              performed: set<Kind>, depth: nat)
    requires flows.Valid() && flows.NoneRecovers() && Describes(a, raw, flows)
    requires a.Valid() && a.Steady() && slot in a.summaries && GuaranteesAny(a.summaries[slot], accepted)
    requires Performs(raw, slot, performed, depth)
    ensures performed * accepted != {} && a.summaries[slot].guaranteed <= performed
  {
    DescribesCut(a, raw, flows);
    flows.RecordedNeverReturn();
    CutPerformsTheSame(raw, a.prog, flows.noReturns, slot, performed, depth);
    RecordedGuaranteeHolds(a, slot, accepted, performed, depth);
  }

  /** The answers that a search was given while `stack` was being built: nothing about the slots on it. */
  ghost function Given(prog: Program, stack: set<Slot>, summaries: map<Slot, Summary>): Slot -> Summary {
    (slot: Slot) =>
      if slot !in prog.bodies then prog.Fact(slot)
      else if slot in stack || slot !in summaries then NO_SUMMARY else summaries[slot]
  }

  ghost function AnswersOf(a: Analysis, slot: Slot): Slot -> Summary
    requires slot in a.stacks
    reads a
  {
    Given(a.prog, a.stacks[slot], a.summaries)
  }

  lemma GivenIsProper(prog: Program, stack: set<Slot>, summaries: map<Slot, Summary>)
    requires AllProper(prog.facts) && forall slot :: slot in summaries ==> IsProper(summaries[slot])
    ensures AllProper(Given(prog, stack, summaries))
    ensures AnswersFrom(prog, stack, summaries, Given(prog, stack, summaries))
  {
  }

  lemma RecordedIsProper(a: Analysis, slot: Slot)
    requires a.Valid() && slot in a.summaries
    ensures IsProper(a.summaries[slot])
  {
    assert a.Traced(a.summaries, slot, a.summaries[slot], a.traces[slot], a.stacks[slot]);
    if a.summaries[slot].always {
      SummaryIsProper(a.prog.bodies[slot], a.traces[slot], a.summaries[slot]);
    }
  }

  lemma SummaryIsProper(g: Graph, t: Trace, s: Summary)
    requires TracePlaced(g, t) && Summarizes(g, t.verdicts, s)
    ensures IsProper(s)
  {
    if s.always {
      var b: nat :| Reached(g, t.verdicts, b) && t.verdicts[b].Effects?;
      PathIsInGraph(g, t.verdicts, b);
      assert IsPlaced(g[b], t.verdicts[b], t.at[b]);
      var k :| k in t.verdicts[b].kinds;
      assert k in s.kinds;
    }
  }

  lemma PathIsInGraph(g: Graph, v: map<nat, Verdict>, b: nat)
    requires Reached(g, v, b)
    ensures b < |g|
  {
    var p :| VerdictPathTo(g, v, p, b);
  }

  lemma StackIsUnknown(a: Analysis, slot: Slot)
    requires a.Valid() && slot in a.summaries
    ensures !AnswersOf(a, slot)(slot).known
  {
    assert a.Traced(a.summaries, slot, a.summaries[slot], a.traces[slot], a.stacks[slot]);
  }

  /** Without cancellation, but whatever the order and the call cycles, a recorded guarantee follows from what its
      search read and was told exactly if nothing gets around its deciding uses. */
  lemma RecordedFollowsExactly(a: Analysis, slot: Slot)
    requires a.Valid() && a.Uncancelled() && AllProper(a.prog.facts) && slot in a.summaries && a.summaries[slot].always
    ensures (forall prog :: Alike(prog, slot, a.prog.bodies[slot], a.traces[slot], AnswersOf(a, slot)) ==>
               Sound(prog, slot, a.summaries[slot])) <==>
            Firm(a.prog.bodies[slot], a.traces[slot])
  {
    hide Firm, Explored, VerdictsFound, Summarizes, Alike, Sound, IsProper, AnswersFrom, Given;
    forall x | x in a.summaries
      ensures IsProper(a.summaries[x])
    {
      RecordedIsProper(a, x);
    }
    GivenIsProper(a.prog, a.stacks[slot], a.summaries);
    var answer := AnswersOf(a, slot);
    assert !answer(slot).known by { StackIsUnknown(a, slot); }
    assert a.Traced(a.summaries, slot, a.summaries[slot], a.traces[slot], a.stacks[slot]);
    GuaranteeFollowsExactly(slot, a.prog.bodies[slot], a.traces[slot], answer, a.summaries[slot]);
  }

  // ---------- Without call cycles ----------

  /** The callees an event may ask about. */
  ghost predicate AgreeOn(e: Event, one: Slot -> Summary, two: Slot -> Summary) {
    e.Call? ==>
      && (e.receiver.AsReceiver? && e.receiver.callee.Some? ==>
           one(Receiver(e.receiver.callee.value)) == two(Receiver(e.receiver.callee.value)))
      && forall a :: 0 <= a < |e.arguments| && e.arguments[a].Bound? ==>
        one(e.arguments[a].slot) == two(e.arguments[a].slot)
  }

  lemma {:induction false} SameArguments(arguments: seq<Binding>, one: Slot -> Summary, two: Slot -> Summary,
                                         found: Found)
    requires forall a :: 0 <= a < |arguments| && arguments[a].Bound? ==>
      one(arguments[a].slot) == two(arguments[a].slot)
    ensures ArgumentsFound(arguments, one, found) == ArgumentsFound(arguments, two, found)
    decreases |arguments|
  {
    if |arguments| > 0 {
      SameArguments(arguments[..|arguments| - 1], one, two, found);
    }
  }

  lemma SameEvent(e: Event, receiver: bool, one: Slot -> Summary, two: Slot -> Summary)
    requires AgreeOn(e, one, two)
    ensures EventFound(e, receiver, one) == EventFound(e, receiver, two)
  {
    if e.Call? {
      forall found
        ensures ArgumentsFound(e.arguments, one, found) == ArgumentsFound(e.arguments, two, found)
      {
        SameArguments(e.arguments, one, two, found);
      }
    }
  }

  lemma {:induction false} SameUses(uses: seq<Use>, receiver: bool, one: Slot -> Summary, two: Slot -> Summary)
    requires forall u :: 0 <= u < |uses| ==> AgreeOn(uses[u].event, one, two)
    ensures UsesFound(uses, receiver, one) == UsesFound(uses, receiver, two)
    decreases |uses|
  {
    if |uses| > 0 {
      SameEvent(uses[0].event, receiver, one, two);
      SameUses(uses[1..], receiver, one, two);
    }
  }

  lemma {:induction false} SameNodes(nodes: seq<Node>, receiver: bool, one: Slot -> Summary, two: Slot -> Summary)
    requires forall n, u :: 0 <= n < |nodes| && 0 <= u < |nodes[n].uses| ==> AgreeOn(nodes[n].uses[u].event, one, two)
    ensures NodesFound(nodes, receiver, one) == NodesFound(nodes, receiver, two)
    decreases |nodes|
  {
    if |nodes| > 0 {
      SameUses(nodes[0].uses, receiver, one, two);
      SameNodes(nodes[1..], receiver, one, two);
    }
  }

  /** Nor does the solution depend on how the slots are ranked. */
  lemma {:induction false} RankDoesNotMatter(prog: Program, rank: Slot -> nat, other: Slot -> nat, slot: Slot)
    requires Acyclic(prog, rank) && Acyclic(prog, other)
    ensures Solution(prog, rank, slot) == Solution(prog, other, slot)
    decreases rank(slot), 1
  {
    if slot in prog.bodies {
      var g := prog.bodies[slot];
      var one, two := Below(prog, rank, slot), Below(prog, other, slot);
      forall b | 0 <= b < |g|
        ensures NodesFound(g[b].nodes, slot.Receiver?, one) == NodesFound(g[b].nodes, slot.Receiver?, two)
      {
        forall n, u | 0 <= n < |g[b].nodes| && 0 <= u < |g[b].nodes[n].uses|
          ensures AgreeOn(g[b].nodes[n].uses[u].event, one, two)
        {
          EventsAgree(prog, rank, other, slot, b, n, u);
        }
        SameNodes(g[b].nodes, slot.Receiver?, one, two);
      }
      assert BlocksFound(g, slot.Receiver?, one) == BlocksFound(g, slot.Receiver?, two);
    }
  }

  lemma {:induction false} EventsAgree(prog: Program, rank: Slot -> nat, other: Slot -> nat, slot: Slot, b: nat, n: nat,
                                       u: nat)
    requires Acyclic(prog, rank) && Acyclic(prog, other) && slot in prog.bodies
    requires b < |prog.bodies[slot]| && n < |prog.bodies[slot][b].nodes| && u < |prog.bodies[slot][b].nodes[n].uses|
    ensures AgreeOn(prog.bodies[slot][b].nodes[n].uses[u].event, Below(prog, rank, slot), Below(prog, other, slot))
    decreases rank(slot), 0
  {
    var node := prog.bodies[slot][b].nodes[n];
    var e := node.uses[u].event;
    assert NodeAsksBelow(node, rank, rank(slot)) && NodeAsksBelow(node, other, other(slot));
    assert AsksBelow(e, rank, rank(slot)) && AsksBelow(e, other, other(slot));
    hide Solution, Acyclic;
    if e.Call? {
      if e.receiver.AsReceiver? && e.receiver.callee.Some? {
        RankDoesNotMatter(prog, rank, other, Receiver(e.receiver.callee.value));
      }
      forall a | 0 <= a < |e.arguments| && e.arguments[a].Bound?
        ensures Solution(prog, rank, e.arguments[a].slot) == Solution(prog, other, e.arguments[a].slot)
      {
        RankDoesNotMatter(prog, rank, other, e.arguments[a].slot);
      }
    }
  }

  lemma SameVerdicts(g: Graph, receiver: bool, one: Slot -> Summary, two: Slot -> Summary, t: Trace)
    requires VerdictsFound(g, receiver, one, t)
    requires forall b, n, u :: 0 <= b < |g| && 0 <= n < |g[b].nodes| && 0 <= u < |g[b].nodes[n].uses| ==>
      AgreeOn(g[b].nodes[n].uses[u].event, one, two)
    ensures forall b :: b in t.verdicts ==> b < |g| && t.verdicts[b] == NodesFound(g[b].nodes, receiver, two)
  {
    forall b | b in t.verdicts
      ensures t.verdicts[b] == NodesFound(g[b].nodes, receiver, two)
    {
      SameNodes(g[b].nodes, receiver, one, two);
    }
  }

  /** The answers as the table records them, and for slots that were not asked what the equations say. */
  ghost function Completed(a: Analysis, slot: Slot): Slot -> Summary
    requires slot in a.stacks
    reads a
  {
    var prog, rank, stack, summaries := a.prog, a.rank, a.stacks[slot], a.summaries;
    (x: Slot) => if x in prog.bodies && x in stack then NO_SUMMARY
                 else if x in prog.bodies && x in summaries then summaries[x] else Solution(prog, rank, x)
  }

  /** Without call cycles and cancellation every recorded summary is the solution of the equations. */
  lemma {:induction false} RecordedIsTheSolution(a: Analysis, slot: Slot)
    requires a.Valid() && a.Ideal() && slot in a.summaries
    ensures a.summaries[slot] == Solution(a.prog, a.rank, slot)
    decreases a.rank(slot), 1
  {
    TracedIsTold(a, slot);
    EventsAnsweredBelow(a, slot);
    hide Solution, Summarizes, EffectSearch, AgreeOn;
    var g, t := a.prog.bodies[slot], a.traces[slot];
    SameVerdicts(g, slot.Receiver?, Completed(a, slot), Below(a.prog, a.rank, slot), t);
    SolvedBy(a.prog, a.rank, slot, t.verdicts, a.summaries[slot]);
  }

  /** What an uncancelled run says about a recorded summary. */
  lemma TracedIsTold(a: Analysis, slot: Slot)
    requires a.Valid() && a.Ideal() && slot in a.summaries
    ensures slot in a.prog.bodies && slot in a.stacks && slot in a.traces
    ensures Explored(a.prog.bodies[slot], a.traces[slot].verdicts)
    ensures Summarizes(a.prog.bodies[slot], a.traces[slot].verdicts, a.summaries[slot])
    ensures VerdictsFound(a.prog.bodies[slot], slot.Receiver?, Completed(a, slot), a.traces[slot])
    ensures forall x :: x in a.stacks[slot] ==> a.rank(slot) <= a.rank(x)
  {
    hide Solution, Summarizes, EffectSearch, VerdictsFound, AnswersFrom;
    assert a.Traced(a.summaries, slot, a.summaries[slot], a.traces[slot], a.stacks[slot]);
    CompletedIsAnswer(a, slot);
  }

  /** By induction the recorded answers about lower slots are those of the equations. */
  lemma {:induction false} AnsweredBelow(a: Analysis, slot: Slot, x: Slot)
    requires a.Valid() && a.Ideal() && slot in a.summaries && slot in a.stacks && a.rank(x) < a.rank(slot)
    ensures Completed(a, slot)(x) == Below(a.prog, a.rank, slot)(x)
    decreases a.rank(slot), 0, 0
  {
    TracedIsTold(a, slot);
    hide Summarizes, EffectSearch, VerdictsFound;
    if x in a.summaries {
      RecordedIsTheSolution(a, x);
    }
  }

  lemma {:induction false} EventsAnsweredBelow(a: Analysis, slot: Slot)
    requires a.Valid() && a.Ideal() && slot in a.summaries && slot in a.prog.bodies && slot in a.stacks
    ensures var g := a.prog.bodies[slot];
      forall b, n, u :: 0 <= b < |g| && 0 <= n < |g[b].nodes| && 0 <= u < |g[b].nodes[n].uses| ==>
        AgreeOn(g[b].nodes[n].uses[u].event, Completed(a, slot), Below(a.prog, a.rank, slot))
    decreases a.rank(slot), 0, 1
  {
    var g, answer, below := a.prog.bodies[slot], Completed(a, slot), Below(a.prog, a.rank, slot);
    forall x | a.rank(x) < a.rank(slot)
      ensures answer(x) == below(x)
    {
      AnsweredBelow(a, slot, x);
    }
    hide Completed, Below, Solution;
    forall b, n, u | 0 <= b < |g| && 0 <= n < |g[b].nodes| && 0 <= u < |g[b].nodes[n].uses|
      ensures AgreeOn(g[b].nodes[n].uses[u].event, answer, below)
    {
      assert NodeAsksBelow(g[b].nodes[n], a.rank, a.rank(slot));
      assert AsksBelow(g[b].nodes[n].uses[u].event, a.rank, a.rank(slot));
    }
  }

  lemma CompletedIsAnswer(a: Analysis, slot: Slot)
    requires slot in a.stacks
    ensures AnswersFrom(a.prog, a.stacks[slot], a.summaries, Completed(a, slot))
  {
  }

  /** Whatever the orders, two complete runs without call cycles and cancellation record the same. */
  lemma OrderDoesNotMatter(a: Analysis, b: Analysis, slot: Slot)
    requires a.Valid() && a.Ideal() && b.Valid() && b.Ideal() && a.prog == b.prog
    requires slot in a.summaries && slot in b.summaries
    ensures a.summaries[slot] == b.summaries[slot]
  {
    RecordedIsTheSolution(a, slot);
    RecordedIsTheSolution(b, slot);
    RankDoesNotMatter(a.prog, a.rank, b.rank, slot);
  }
}
