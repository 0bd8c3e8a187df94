/** The search for a parameter's effects: what it concludes from a graph, and when that conclusion is right
    (summarizeParameter in internal/analysis/parameter_effects.go). */
module EffectSummaries {
  import opened ControlFlow
  import opened EffectKinds
  import opened EffectPrograms
  import opened Wrappers
  import NoReturn

  // ---------- What the search concludes from the verdicts on blocks ----------

  datatype Verdict = Opaque | Effects(kinds: set<Kind>, guaranteed: set<Kind>) | Open

  ghost predicate VerdictPathTo(g: Graph, v: map<nat, Verdict>, p: seq<nat>, b: nat) {
    && IsPath(g, p) && Last(p) == b
    && (forall k :: 0 <= k < |p| - 1 ==> p[k] in v && v[p[k]].Open?)
  }

  ghost predicate Reached(g: Graph, v: map<nat, Verdict>, b: nat) {
    b in v && exists p :: VerdictPathTo(g, v, p, b)
  }

  ghost predicate ReachesEffect(g: Graph, v: map<nat, Verdict>) {
    exists b: nat :: Reached(g, v, b) && v[b].Effects?
  }

  ghost predicate ReachesOpenReturn(g: Graph, v: map<nat, Verdict>) {
    exists b: nat :: Reached(g, v, b) && v[b].Open? && b < |g| && g[b].isReturn
  }

  /** The summary is exactly what the paths that stop at their first effect or ambiguous use say. */
  ghost predicate Summarizes(g: Graph, v: map<nat, Verdict>, s: Summary) {
    && (s.known <==> |g| > 0 && forall b: nat :: Reached(g, v, b) ==> !v[b].Opaque?)
    && (s.always <==> s.known && ReachesEffect(g, v) && !ReachesOpenReturn(g, v))
    && (forall k :: k in s.kinds <==> s.known && exists b: nat :: Reached(g, v, b) && v[b].Effects? && k in v[b].kinds)
    && (forall k :: k in s.guaranteed <==>
          s.always && forall b: nat :: Reached(g, v, b) && v[b].Effects? ==> k in v[b].guaranteed)
  }

  ghost predicate VerdictEdge(g: Graph, v: map<nat, Verdict>, b: nat, s: nat) {
    b in v && b < |g| && v[b].Open? && !g[b].isReturn && s in g[b].succs && Visitable(g, s)
  }

  lemma EffectSearchSkip(g: Graph, v: map<nat, Verdict>, work: seq<nat>)
    requires |work| > 0 && EffectSearch(g, v, work)
    requires !Visitable(g, work[|work| - 1]) || work[|work| - 1] in v
    ensures EffectSearch(g, v, work[..|work| - 1])
  {
    assert forall b :: b in work ==> b == work[|work| - 1] || b in work[..|work| - 1];
  }

  lemma EffectSearchVisit(g: Graph, v: map<nat, Verdict>, work: seq<nat>, verdict: Verdict, next: seq<nat>)
    requires |work| > 0 && EffectSearch(g, v, work)
    requires var b := work[|work| - 1];
      Visitable(g, b) && b !in v && next == if verdict.Open? && !g[b].isReturn then g[b].succs else []
    ensures EffectSearch(g, v[work[|work| - 1] := verdict], work[..|work| - 1] + next)
  {
    var current, rest := work[|work| - 1], work[..|work| - 1];
    var v' := v[current := verdict];
    assert forall b :: b in work ==> b == current || b in rest;
    assert current in work;
    var p :| VerdictPathTo(g, v, p, current);
    forall b: nat | (b in v' || b in rest + next) && Visitable(g, b)
      ensures exists q :: VerdictPathTo(g, v', q, b)
    {
      if b in v || b in work {
        var q :| VerdictPathTo(g, v, q, b);
        assert VerdictPathTo(g, v', q, b);
      } else {
        PathExtend(g, p, b);
        assert VerdictPathTo(g, v', p + [b], b);
      }
    }
    forall b: nat, s: nat | VerdictEdge(g, v', b, s)
      ensures s in v' || s in rest + next
    {
      if b != current {
        assert VerdictEdge(g, v, b, s);
      }
    }
  }

  /** What the search has accumulated from the blocks visited so far. */
  ghost predicate Tallied(g: Graph, v: map<nat, Verdict>, known: bool, openReturn: bool, terminal: bool,
                          kinds: set<Kind>, guaranteed: set<Kind>) {
    && (known <==> forall b :: b in v ==> !v[b].Opaque?)
    && (terminal <==> exists b :: b in v && v[b].Effects?)
    && (openReturn <==> exists b :: b in v && v[b].Open? && b < |g| && g[b].isReturn)
    && (forall k :: k in kinds <==> exists b :: b in v && v[b].Effects? && k in v[b].kinds)
    && (forall k :: k in guaranteed <==> terminal && forall b :: b in v && v[b].Effects? ==> k in v[b].guaranteed)
  }

  /** The search invariant: visited blocks have a verdict, queued blocks wait for one. */
  ghost predicate EffectSearch(g: Graph, v: map<nat, Verdict>, work: seq<nat>) {
    && v.Keys <= BlockIds(|g|)
    && (forall b :: b in v ==> Visitable(g, b))
    && (forall b: nat :: (b in v || b in work) && Visitable(g, b) ==> exists p :: VerdictPathTo(g, v, p, b))
    && (Visitable(g, 0) ==> 0 in v || 0 in work)
    && (forall b: nat, s: nat :: VerdictEdge(g, v, b, s) ==> s in v || s in work)
  }

  ghost predicate Explored(g: Graph, v: map<nat, Verdict>) {
    EffectSearch(g, v, [])
  }

  lemma EffectSearchStart(g: Graph)
    ensures EffectSearch(g, map[], [0])
    ensures |g| == 0 ==> Explored(g, map[]) && Summarizes(g, map[], NO_SUMMARY)
    ensures Tallied(g, map[], true, false, false, {}, {})
  {
    if Visitable(g, 0) {
      assert VerdictPathTo(g, map[], [0], 0);
    }
  }

  lemma TallyStep(g: Graph, v: map<nat, Verdict>, known: bool, openReturn: bool, terminal: bool,
                  kinds: set<Kind>, guaranteed: set<Kind>, b: nat, verdict: Verdict)
    requires Tallied(g, v, known, openReturn, terminal, kinds, guaranteed) && b !in v && b < |g|
    ensures Tallied(g, v[b := verdict],
                    known && !verdict.Opaque?,
                    openReturn || (verdict.Open? && g[b].isReturn),
                    terminal || verdict.Effects?,
                    if verdict.Effects? then kinds + verdict.kinds else kinds,
                    if !verdict.Effects? then guaranteed
                    else if terminal then guaranteed * verdict.guaranteed else verdict.guaranteed)
  {
    var v' := v[b := verdict];
    assert v'[b] == verdict && forall c :: c in v ==> c in v' && v'[c] == v[c];
  }

  lemma TallySummarizes(g: Graph, v: map<nat, Verdict>, known: bool, openReturn: bool, terminal: bool,
                        kinds: set<Kind>, guaranteed: set<Kind>)
    requires |g| > 0 && Explored(g, v) && Tallied(g, v, known, openReturn, terminal, kinds, guaranteed)
    ensures Summarizes(g, v, if !known then NO_SUMMARY
                             else Summary(true, terminal && !openReturn, kinds, if openReturn then {} else guaranteed))
  {
    assert forall b: nat :: Reached(g, v, b) <==> b in v;
  }

  /** The first block of a path whose verdict is not open, or the last one. */
  lemma {:induction false} FirstVerdict(g: Graph, v: map<nat, Verdict>, p: seq<nat>) returns (q: seq<nat>)
    requires Explored(g, v) && IsPath(g, p)
    ensures |q| > 0 && q <= p && VerdictPathTo(g, v, q, Last(q)) && Last(q) in v && (v[Last(q)].Open? ==> q == p)
    decreases |p|
  {
    if |p| == 1 {
      return p;
    }
    var r := p[..|p| - 1];
    q := FirstVerdict(g, v, r);
    if v[Last(q)].Open? {
      assert VerdictEdge(g, v, Last(r), Last(p));
      q := p;
    }
  }

  // ---------- Where the verdicts come from ----------

  /** The node of a block, and the use in that node, at which the search stops reading. */
  datatype Place = Place(node: nat, use: nat)

  /** A finished search: its verdicts and, for a block with an effect, the use that decided. */
  datatype Trace = Trace(verdicts: map<nat, Verdict>, at: map<nat, Place>)

  ghost predicate IsPlaced(b: Block<Node>, v: Verdict, at: Place) {
    v.Effects? ==> v.kinds != {} && at.node < |b.nodes| && at.use < |b.nodes[at.node].uses|
  }

  ghost predicate TracePlaced(g: Graph, t: Trace) {
    && t.verdicts.Keys == t.at.Keys
    && forall b :: b in t.verdicts && b < |g| ==> IsPlaced(g[b], t.verdicts[b], t.at[b])
  }

  /** The deciding use, whenever it happens, does what the verdict says. */
  ghost predicate BlockPromises(prog: Program, b: Block<Node>, v: Verdict, at: Place)
    requires IsPlaced(b, v, at)
  {
    v.Effects? ==> EventPromises(prog, b.nodes[at.node].uses[at.use].event, v.kinds, v.guaranteed)
  }

  ghost predicate VerdictsHold(prog: Program, g: Graph, t: Trace)
    requires TracePlaced(g, t)
  {
    forall b :: b in t.verdicts && b < |g| ==> BlockPromises(prog, g[b], t.verdicts[b], t.at[b])
  }

  /** How many nodes of a block the search has read. */
  ghost function NodesRead(g: Graph, t: Trace, b: nat): (count: nat)
    requires TracePlaced(g, t) && b in t.verdicts && b < |g|
    ensures count <= |g[b].nodes|
  {
    if t.verdicts[b].Effects? then t.at[b].node + 1 else |g[b].nodes|
  }

  // ---------- Ways around a deciding use ----------

  ghost predicate NoPanicBefore(g: Graph, p: seq<nat>, i: nat)
    requires IsPath(g, p)
  {
    forall k, n :: NoReturn.Before(g, p, i, k, n) ==> !g[p[k]].nodes[n].flow.Panic?
  }

  /** The path meets a deciding use, but that use may be skipped, or be of another value than the one passed. */
  ghost predicate EvadesDecision(g: Graph, t: Trace, p: seq<nat>)
    requires TracePlaced(g, t)
  {
    && |p| > 0 && VerdictPathTo(g, t.verdicts, p, Last(p)) && Last(p) in t.verdicts && t.verdicts[Last(p)].Effects?
    && var at := t.at[Last(p)];
      && NoPanicBefore(g, p, at.node + 1)
      && (!g[Last(p)].nodes[at.node].uses[at.use].certain || Rebound(g, p, |p| - 1, at.node))
  }

  /** The function may panic at a node the search has read, after deferring a recovering call. */
  ghost predicate EvadesByRecovery(g: Graph, t: Trace, p: seq<nat>, i: nat)
    requires TracePlaced(g, t)
  {
    && |p| > 0 && VerdictPathTo(g, t.verdicts, p, Last(p)) && Last(p) in t.verdicts && i < NodesRead(g, t, Last(p))
    && NoPanicBefore(g, p, i) && NoReturn.MayThrow(g[Last(p)].nodes[i].flow) && NoReturn.Guarded(Flow(g), p, i)
  }

  /** Nothing gets around a deciding use: each is certain, of the value passed, and not preceded by a panic from
      which the function recovers. */
  ghost predicate Firm(g: Graph, t: Trace) {
    && TracePlaced(g, t)
    && (forall p :: !EvadesDecision(g, t, p))
    && forall p, i: nat :: !EvadesByRecovery(g, t, p, i)
  }

  // ---------- Firm searches are right ----------

  /** The nodes before the end of an execution are no panics, and it ends in a return or where something panics. */
  lemma RunFacts(prog: Program, g: Graph, p: seq<nat>, i: nat, performed: set<Kind>, depth: nat)
    requires depth > 0 && RunPerforms(prog, g, p, i, performed, depth)
    ensures IsPath(g, p) && i <= |g[Last(p)].nodes| && NoPanicBefore(g, p, i)
    ensures i == |g[Last(p)].nodes| ==> g[Last(p)].isReturn
    ensures i < |g[Last(p)].nodes| ==> NoReturn.MayThrow(g[Last(p)].nodes[i].flow) && NoReturn.Guarded(Flow(g), p, i)
  {
    hide RunPerforms, NodeHappens;
    RunEnds(prog, g, p, i, performed, depth);
    NoReturn.EndFacts(prog.flow, {}, Flow(g), p, i, depth);
    FlowHasPath(g, p);
    assert forall k, n :: NoReturn.Before(g, p, i, k, n) ==>
      NoReturn.Before(Flow(g), p, i, k, n) && Flow(g)[p[k]].nodes[n] == g[p[k]].nodes[n].flow;
  }

  lemma RunEnds(prog: Program, g: Graph, p: seq<nat>, i: nat, performed: set<Kind>, depth: nat)
    requires depth > 0 && RunPerforms(prog, g, p, i, performed, depth)
    ensures IsPath(g, p) && NoReturn.EndsAt(prog.flow, {}, Flow(g), p, i, false, depth)
  {
  }

  /** An execution that ends where the search was still reading has recovered. */
  lemma EarlyEndRecovers(g: Graph, t: Trace, p: seq<nat>, i: nat)
    requires TracePlaced(g, t) && |p| > 0 && VerdictPathTo(g, t.verdicts, p, Last(p)) && Last(p) in t.verdicts
    requires NoPanicBefore(g, p, i) && i < NodesRead(g, t, Last(p))
    requires i < |g[Last(p)].nodes| ==> NoReturn.MayThrow(g[Last(p)].nodes[i].flow) && NoReturn.Guarded(Flow(g), p, i)
    ensures EvadesByRecovery(g, t, p, i)
  {
  }

  lemma DecisionHappens(prog: Program, g: Graph, t: Trace, p: seq<nat>, i: nat, q: seq<nat>, performed: set<Kind>,
                        depth: nat)
    requires Firm(g, t) && VerdictsHold(prog, g, t)
    requires depth > 0 && RunPerforms(prog, g, p, i, performed, depth)
    requires 0 < |q| && q <= p && Last(q) in t.verdicts && VerdictPathTo(g, t.verdicts, q, Last(q))
    requires t.verdicts[Last(q)].Effects?
    ensures Promises(t.verdicts[Last(q)].kinds, t.verdicts[Last(q)].guaranteed, performed)
  {
    var b, k := Last(q), |q| - 1;
    var at := t.at[b];
    RunFacts(prog, g, p, i, performed, depth);
    hide NoReturn.EndsAt, NoReturn.Guarded, EventPromises, Flow;
    assert IsPlaced(g[b], t.verdicts[b], at);
    if q == p && i <= at.node {
      EarlyEndRecovers(g, t, p, i);
      assert false;
    }
    assert NoReturn.Before(g, p, i, k, at.node);
    assert NoPanicBefore(g, q, at.node + 1) by {
      assert forall j, n :: NoReturn.Before(g, q, at.node + 1, j, n) ==> NoReturn.Before(g, p, i, j, n);
    }
    assert !EvadesDecision(g, t, q);
    assert !Rebound(g, p, k, at.node) by {
      assert forall j :: 0 <= j <= k ==> q[j] == p[j];
      assert !Rebound(g, q, k, at.node);
    }
    assert NodeHappens(prog, g[b].nodes[at.node], performed, depth - 1);
    UseIsPromised(prog, g[b], t.verdicts[b], at, performed, depth - 1);
  }

  lemma UseIsPromised(prog: Program, b: Block<Node>, v: Verdict, at: Place, performed: set<Kind>, depth: nat)
    requires v.Effects? && IsPlaced(b, v, at) && BlockPromises(prog, b, v, at)
    requires b.nodes[at.node].uses[at.use].certain && NodeHappens(prog, b.nodes[at.node], performed, depth)
    ensures Promises(v.kinds, v.guaranteed, performed)
  {
  }

  lemma SomeRun(prog: Program, slot: Slot, performed: set<Kind>, depth: nat) returns (p: seq<nat>, i: nat)
    requires slot in prog.bodies && Performs(prog, slot, performed, depth)
    ensures depth > 0 && RunPerforms(prog, prog.bodies[slot], p, i, performed, depth)
  {
    p, i :| RunPerforms(prog, prog.bodies[slot], p, i, performed, depth);
  }

  /** A summary found by a firm search is right if the verdicts are. */
  lemma SummaryIsSound(prog: Program, slot: Slot, t: Trace, s: Summary)
    requires slot in prog.bodies && Firm(prog.bodies[slot], t)
    requires Explored(prog.bodies[slot], t.verdicts) && Summarizes(prog.bodies[slot], t.verdicts, s)
    requires VerdictsHold(prog, prog.bodies[slot], t)
    ensures Sound(prog, slot, s)
  {
    hide RunPerforms, VerdictsHold, EvadesDecision, EvadesByRecovery, TracePlaced;
    var g, v := prog.bodies[slot], t.verdicts;
    forall performed, depth: nat | Performs(prog, slot, performed, depth) && s.always
      ensures Admits(s, performed)
    {
      var p, i := SomeRun(prog, slot, performed, depth);
      RunFacts(prog, g, p, i, performed, depth);
      var q := FirstVerdict(g, v, p);
      var b := Last(q);
      assert Reached(g, v, b);
      if v[b].Open? {
        assert i == |g[b].nodes| ==> ReachesOpenReturn(g, v);
        EarlyEndRecovers(g, t, p, i);
        assert false;
      }
      DecisionHappens(prog, g, t, p, i, q, performed, depth);
      var k :| k in v[b].kinds * performed;
      assert k in s.kinds * performed;
    }
  }

}
