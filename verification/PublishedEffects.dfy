/** Summaries of effects over several analyses, each of which takes as facts what earlier ones found
    (loadNativeEffectFacts and addParameterEffects in internal/analysis/effect_facts.go). */
module PublishedEffects {
  import opened EffectKinds
  import opened EffectPrograms
  import NoReturn
  import ParameterEffects

  /** One analysis: the program as it knows it, and the summaries that it records. */
  datatype Run = Run(prog: Program, summaries: map<Slot, Summary>)

  /** What is recorded is right as far as the facts are. */
  ghost predicate IsRun(run: Run) {
    forall slot :: slot in run.summaries ==> Sound(run.prog, slot, run.summaries[slot])
  }

  /** As it is if nothing gets around the deciding uses. */
  lemma SteadyIsRun(a: ParameterEffects.Analysis)
    requires a.Valid() && a.Steady()
    ensures IsRun(Run(a.prog, a.summaries))
  {
  }

  /** `part` has some of the graphs of `whole`; its other functions run as they do there. */
  ghost predicate IsPart(whole: Program, part: Program) {
    && part.flow == whole.flow
    && forall slot :: slot in part.bodies ==> slot in whole.bodies && part.bodies[slot] == whole.bodies[slot]
  }

  ghost predicate RecordedBefore(runs: seq<Run>, k: nat, slot: Slot, s: Summary)
    requires k <= |runs|
  {
    exists j :: 0 <= j < k && slot in runs[j].summaries && runs[j].summaries[slot] == s
  }

  /** The facts of every analysis say nothing, or what an earlier one recorded, or, of functions without a graph in the
      whole program, what is known there. */
  ghost predicate Published(whole: Program, runs: seq<Run>) {
    forall k: nat :: k < |runs| ==>
      && IsRun(runs[k]) && IsPart(whole, runs[k].prog)
      && forall slot :: slot !in runs[k].prog.bodies ==> IsPublished(whole, runs, k, slot, runs[k].prog.Fact(slot))
  }

  ghost predicate IsPublished(whole: Program, runs: seq<Run>, k: nat, slot: Slot, s: Summary)
    requires k <= |runs|
  {
    !s.always || RecordedBefore(runs, k, slot, s) || (slot !in whole.bodies && s == whole.Fact(slot))
  }

  ghost predicate FactsHold(whole: Program, part: Program) {
    forall slot :: slot !in part.bodies ==> Sound(whole, slot, part.Fact(slot))
  }

  /** If the facts of a part are right, whatever the whole program does is done in the part. */
  lemma {:induction false} PartPerformsTheSame(whole: Program, part: Program, slot: Slot, performed: set<Kind>,
                                               depth: nat)
    requires IsPart(whole, part) && FactsHold(whole, part) && Performs(whole, slot, performed, depth)
    ensures Performs(part, slot, performed, depth)
    decreases depth, 0
  {
    if slot in part.bodies {
      var p, i: nat :| RunPerforms(whole, whole.bodies[slot], p, i, performed, depth);
      PartRunsTheSame(whole, part, whole.bodies[slot], p, i, performed, depth);
    } else {
      assert Sound(whole, slot, part.Fact(slot));
    }
  }

  lemma {:induction false} PartRunsTheSame(whole: Program, part: Program, g: Graph, p: seq<nat>, i: nat,
                                           performed: set<Kind>, depth: nat)
    requires IsPart(whole, part) && FactsHold(whole, part)
    requires depth > 0 && RunPerforms(whole, g, p, i, performed, depth)
    ensures RunPerforms(part, g, p, i, performed, depth)
    decreases depth - 1, 3
  {
    hide NodeHappens, FactsHold, NoReturn.EndsAt;
    var d := depth - 1;
    forall node | NodeHappens(whole, node, performed, d)
      ensures NodeHappens(part, node, performed, d)
    {
      PartNodeHappens(whole, part, node, performed, d);
    }
  }

  lemma {:induction false} PartNodeHappens(whole: Program, part: Program, node: Node, performed: set<Kind>, depth: nat)
    requires IsPart(whole, part) && FactsHold(whole, part) && NodeHappens(whole, node, performed, depth)
    ensures NodeHappens(part, node, performed, depth)
    decreases depth, 2
  {
    forall b | BindingHappens(whole, b, performed, depth)
      ensures BindingHappens(part, b, performed, depth)
    {
      if b.Bound? {
        var q :| q <= performed && Performs(whole, b.slot, q, depth);
        PartPerformsTheSame(whole, part, b.slot, q, depth);
      }
    }
  }

  /** Published facts need not be taken on trust: whatever the analyses, all that they record is right of every
      execution of the whole program. */
  lemma {:induction false} PublishedIsSound(whole: Program, runs: seq<Run>, k: nat, slot: Slot)
    requires Published(whole, runs) && k < |runs| && slot in runs[k].summaries
    ensures Sound(whole, slot, runs[k].summaries[slot])
    decreases k, 1
  {
    hide Sound, IsPart, IsPublished, FactsHold;
    var part := runs[k].prog;
    assert IsRun(runs[k]) && IsPart(whole, part);
    assert FactsHold(whole, part) by {
      PublishedFactsHold(whole, runs, k);
    }
    SoundInPart(whole, part, slot, runs[k].summaries[slot]);
  }

  lemma {:induction false} PublishedFactsHold(whole: Program, runs: seq<Run>, k: nat)
    requires Published(whole, runs) && k < |runs|
    ensures FactsHold(whole, runs[k].prog)
    decreases k, 0
  {
    hide Sound, IsPart, Published;
    forall slot | slot !in runs[k].prog.bodies
      ensures Sound(whole, slot, runs[k].prog.Fact(slot))
    {
      var s := runs[k].prog.Fact(slot);
      PublishedAt(whole, runs, k, slot);
      if RecordedBefore(runs, k, slot, s) {
        var j: nat :| j < k && slot in runs[j].summaries && runs[j].summaries[slot] == s;
        PublishedIsSound(whole, runs, j, slot);
      } else {
        FactIsSound(whole, slot, s);
      }
    }
  }

  lemma PublishedAt(whole: Program, runs: seq<Run>, k: nat, slot: Slot)
    requires Published(whole, runs) && k < |runs| && slot !in runs[k].prog.bodies
    ensures IsPublished(whole, runs, k, slot, runs[k].prog.Fact(slot))
  {
  }

  lemma FactIsSound(whole: Program, slot: Slot, s: Summary)
    requires !s.always || (slot !in whole.bodies && s == whole.Fact(slot))
    ensures Sound(whole, slot, s)
  {
  }

  lemma SoundInPart(whole: Program, part: Program, slot: Slot, s: Summary)
    requires IsPart(whole, part) && FactsHold(whole, part) && Sound(part, slot, s)
    ensures Sound(whole, slot, s)
  {
    forall performed, depth: nat | Performs(whole, slot, performed, depth)
      ensures Admits(s, performed)
    {
      PartPerformsTheSame(whole, part, slot, performed, depth);
    }
  }

  /** With the no-return inference, package by package as well: a recorded summary is right of every execution of the
      program as written, if no function marked as never returning recovers. */
  lemma PublishedGuaranteeHolds(raw: Program, whole: Program, flows: seq<NoReturn.Run>, runs: seq<Run>, k: nat,
                                slot: Slot, accepted: set<Kind>, performed: set<Kind>, depth: nat)
    requires NoReturn.Published(raw.flow, flows) && IsCutOf(raw, whole, NoReturn.AllMarked(flows))
    requires forall f, d: nat :: f in NoReturn.AllMarked(flows) ==>
               !NoReturn.Recovers(raw.flow, NoReturn.AllMarked(flows), f, d)
    requires Published(whole, runs) && k < |runs| && slot in runs[k].summaries
    requires GuaranteesAny(runs[k].summaries[slot], accepted) && Performs(raw, slot, performed, depth)
    ensures performed * accepted != {} && runs[k].summaries[slot].guaranteed <= performed
  {
    hide Published, NoReturn.Published, Performs, IsCutOf, NoReturn.InLeastFixpoint;
    NoReturn.PublishedNeverReturn(raw.flow, flows);
    CutPerformsTheSame(raw, whole, NoReturn.AllMarked(flows), slot, performed, depth);
    PublishedIsSound(whole, runs, k, slot);
    GuaranteesAnyIsPerformed(runs[k].summaries[slot], accepted, performed);
  }
}
