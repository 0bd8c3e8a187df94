/** Rebuilding the packages affected by changed dependency files
    (reloadPackageSessionDependencies in internal/analysis/package_session.go). */
module DependencyReload {
  import opened Wrappers

  /** An import of package `id` under `path`; an id the graph lacks stands for the nil package. */
  datatype Import = Import(path: string, id: nat)

  /** `imports` is in path order. */
  datatype Package = Package(imports: seq<Import>, files: set<string>, mutable: bool)

  /** What reparsing and type-checking a package's current files gives. */
  datatype Check = Compiled(used: seq<string>) | Rejected | Cancelled

  /** The package a rebuilt package binds an import path to. */
  datatype Binding = Retained(id: nat) | Rebuilt(id: nat)

  /** `added` has the retained packages that a package's current files import and its old ones did not. */
  datatype Inputs = Inputs(graph: map<nat, Package>, roots: seq<Import>, changed: set<string>, refreshAllMutable: bool,
    check: nat -> Check, added: nat -> seq<Import>)
  {
    predicate Direct(id: nat) {
      id in graph && (graph[id].files * changed != {} || (refreshAllMutable && graph[id].mutable))
    }
  }

  function Find(imports: seq<Import>, path: string): (r: Option<nat>)
    ensures r.None? <==> forall i :: 0 <= i < |imports| ==> imports[i].path != path
    ensures r.Some? ==> exists i :: 0 <= i < |imports| && imports[i] == Import(path, r.value)
  {
    if |imports| == 0 then None
    else if imports[0].path == path then Some(imports[0].id)
    else Find(imports[1..], path)
  }

  /** What an import path of a package stands for, an added import or an old one. */
  function Target(inputs: Inputs, id: nat, path: string): Option<nat>
    requires id in inputs.graph
  {
    if IsAdded(inputs, id, path) then Find(inputs.added(id), path) else Find(inputs.graph[id].imports, path)
  }

  predicate IsAdded(inputs: Inputs, id: nat, path: string) {
    Find(inputs.added(id), path).Some?
  }

  // ---------- Import paths ----------

  ghost predicate Edge(g: map<nat, Package>, a: nat, b: nat) {
    a in g && exists i :: 0 <= i < |g[a].imports| && g[a].imports[i].id == b
  }

  ghost predicate IsImportPath(g: map<nat, Package>, p: seq<nat>) {
    |p| > 0 && forall k :: 0 <= k < |p| - 1 ==> Edge(g, p[k], p[k + 1])
  }

  ghost predicate Path(g: map<nat, Package>, p: seq<nat>, a: nat, b: nat) {
    IsImportPath(g, p) && p[0] == a && p[|p| - 1] == b
  }

  ghost predicate Reaches(g: map<nat, Package>, a: nat, b: nat) {
    exists p :: Path(g, p, a, b)
  }

  ghost predicate IsRoot(inputs: Inputs, id: nat) {
    exists r :: 0 <= r < |inputs.roots| && inputs.roots[r].id == id
  }

  ghost predicate Reachable(inputs: Inputs, id: nat) {
    exists root :: IsRoot(inputs, root) && Reaches(inputs.graph, root, id)
  }

  /** The package changed, or imports something that changed. */
  ghost predicate Affected(inputs: Inputs, id: nat) {
    exists c :: inputs.Direct(c) && Reaches(inputs.graph, id, c)
  }

  ghost predicate OnCycle(g: map<nat, Package>, id: nat) {
    exists p :: |p| > 1 && Path(g, p, id, id)
  }

  lemma ReachesSelf(g: map<nat, Package>, a: nat)
    ensures Reaches(g, a, a)
  {
    assert Path(g, [a], a, a);
  }

  lemma ReachesStep(g: map<nat, Package>, a: nat, b: nat, c: nat)
    requires Reaches(g, a, b) && Edge(g, b, c)
    ensures Reaches(g, a, c)
  {
    var p :| Path(g, p, a, b);
    assert Path(g, p + [c], a, c);
  }

  lemma StepReaches(g: map<nat, Package>, a: nat, b: nat, c: nat)
    requires Edge(g, a, b) && Reaches(g, b, c)
    ensures Reaches(g, a, c)
  {
    var p :| Path(g, p, b, c);
    assert Path(g, [a] + p, a, c);
  }

  /** A package is affected exactly if it changed or one of its imports is affected. */
  lemma AffectedUnfolds(inputs: Inputs, id: nat)
    ensures Affected(inputs, id) <==> inputs.Direct(id) || exists b :: Edge(inputs.graph, id, b) && Affected(inputs, b)
  {
    if inputs.Direct(id) {
      ReachesSelf(inputs.graph, id);
    }
    if b :| Edge(inputs.graph, id, b) && Affected(inputs, b) {
      var c :| inputs.Direct(c) && Reaches(inputs.graph, b, c);
      StepReaches(inputs.graph, id, b, c);
    }
    if Affected(inputs, id) && !inputs.Direct(id) {
      var c :| inputs.Direct(c) && Reaches(inputs.graph, id, c);
      var p :| Path(inputs.graph, p, id, c);
      assert Path(inputs.graph, p[1..], p[1], c);
      assert Edge(inputs.graph, p[0], p[1]);
    }
  }

  ghost predicate AnyAffected(inputs: Inputs, imports: seq<Import>) {
    exists j :: 0 <= j < |imports| && Affected(inputs, imports[j].id)
  }

  lemma ImportEdge(g: map<nat, Package>, id: nat, i: nat)
    requires id in g && i < |g[id].imports|
    ensures Edge(g, id, g[id].imports[i].id)
  {
  }

  lemma AnyAffectedSnoc(inputs: Inputs, imports: seq<Import>, i: nat)
    requires i < |imports|
    ensures AnyAffected(inputs, imports[..i + 1]) ==
      (AnyAffected(inputs, imports[..i]) || Affected(inputs, imports[i].id))
  {
    if AnyAffected(inputs, imports[..i]) {
      var j :| 0 <= j < i && Affected(inputs, imports[..i][j].id);
      assert Affected(inputs, imports[..i + 1][j].id);
    }
    if Affected(inputs, imports[i].id) {
      assert Affected(inputs, imports[..i + 1][i].id);
    }
  }

  // ---------- The order in which a depth-first search finishes packages ----------

  function Ids(imports: seq<Import>): seq<nat> {
    seq(|imports|, i requires 0 <= i < |imports| => imports[i].id)
  }

  /** `done` has what was finished before, `active` what is being visited. */
  function Finish(g: map<nat, Package>, id: nat, done: seq<nat>, active: set<nat>): seq<nat>
    decreases g.Keys - active, 0
  {
    if id !in g || id in done || id in active then done
    else FinishAll(g, Ids(g[id].imports), done, active + {id}) + [id]
  }

  function FinishAll(g: map<nat, Package>, ids: seq<nat>, done: seq<nat>, active: set<nat>): seq<nat>
    decreases g.Keys - active, 1, |ids|
  {
    if |ids| == 0 then done
    else Finish(g, ids[|ids| - 1], FinishAll(g, ids[..|ids| - 1], done, active), active)
  }

  function FinishingOrder(inputs: Inputs): seq<nat> {
    FinishAll(inputs.graph, Ids(inputs.roots), [], {})
  }

  /** Nothing is finished twice, and nothing active is finished. */
  ghost predicate FinishedOnce(done: seq<nat>, active: set<nat>) {
    && (forall i, j :: 0 <= i < j < |done| ==> done[i] != done[j])
    && forall id :: id in active ==> id !in done
  }

  lemma {:induction false} FinishesOnce(g: map<nat, Package>, id: nat, done: seq<nat>, active: set<nat>)
    requires FinishedOnce(done, active)
    ensures FinishedOnce(Finish(g, id, done, active), active)
    decreases g.Keys - active, 0
  {
    if id in g && id !in done && id !in active {
      FinishesAllOnce(g, Ids(g[id].imports), done, active + {id});
    }
  }

  lemma {:induction false} FinishesAllOnce(g: map<nat, Package>, ids: seq<nat>, done: seq<nat>, active: set<nat>)
    requires FinishedOnce(done, active)
    ensures FinishedOnce(FinishAll(g, ids, done, active), active)
    decreases g.Keys - active, 1, |ids|
  {
    if |ids| > 0 {
      FinishesAllOnce(g, ids[..|ids| - 1], done, active);
      FinishesOnce(g, ids[|ids| - 1], FinishAll(g, ids[..|ids| - 1], done, active), active);
    }
  }

  ghost function OnlyAffected(inputs: Inputs, ids: seq<nat>): seq<nat> {
    if |ids| == 0 then []
    else OnlyAffected(inputs, ids[..|ids| - 1]) + if Affected(inputs, ids[|ids| - 1]) then [ids[|ids| - 1]] else []
  }

  /** The order in which affected packages are rebuilt. */
  ghost function RebuildOrder(inputs: Inputs): seq<nat> {
    OnlyAffected(inputs, FinishingOrder(inputs))
  }

  ghost predicate Earlier(order: seq<nat>, b: nat, id: nat) {
    exists i, j :: 0 <= i < j < |order| && order[i] == b && order[j] == id
  }

  /** The search over the old imports finishes `b` before `id`. */
  ghost predicate FinishesBefore(inputs: Inputs, b: nat, id: nat) {
    Earlier(FinishingOrder(inputs), b, id)
  }

  lemma OnlyAffectedSnoc(inputs: Inputs, ids: seq<nat>, id: nat)
    ensures OnlyAffected(inputs, ids + [id]) == OnlyAffected(inputs, ids) + if Affected(inputs, id) then [id] else []
  {
    assert (ids + [id])[..|ids|] == ids;
  }

  /** Among affected packages the finishing order decides which is rebuilt earlier. */
  lemma {:induction false} EarlierAffected(inputs: Inputs, ids: seq<nat>, b: nat, id: nat)
    ensures Earlier(OnlyAffected(inputs, ids), b, id) <==>
              Affected(inputs, b) && Affected(inputs, id) && Earlier(ids, b, id)
    ensures forall x :: x in OnlyAffected(inputs, ids) <==> x in ids && Affected(inputs, x)
    decreases |ids|
  {
    hide Affected;
    if |ids| > 0 {
      var rest, last := ids[..|ids| - 1], ids[|ids| - 1];
      EarlierAffected(inputs, rest, b, id);
      assert ids == rest + [last];
      EarlierSnoc(rest, last, b, id);
      EarlierSnoc(OnlyAffected(inputs, rest), last, b, id);
      assert OnlyAffected(inputs, rest) + [] == OnlyAffected(inputs, rest);
    }
  }

  lemma EarlierSnoc(order: seq<nat>, last: nat, b: nat, id: nat)
    ensures Earlier(order + [last], b, id) <==> Earlier(order, b, id) || (id == last && b in order)
  {
    var all := order + [last];
    if Earlier(all, b, id) {
      var i, j :| 0 <= i < j < |all| && all[i] == b && all[j] == id;
      assert all[i] in order;
    }
    if Earlier(order, b, id) {
      var i, j :| 0 <= i < j < |order| && order[i] == b && order[j] == id;
      assert all[i] == b && all[j] == id;
    }
    if id == last && b in order {
      var i :| 0 <= i < |order| && order[i] == b;
      assert all[i] == b && all[|order|] == id;
    }
  }

  // ---------- What a reload must deliver ----------

  function CheckedImports(inputs: Inputs, id: nat): Option<seq<string>>
    requires id in inputs.graph
  {
    match inputs.check(id)
    case Compiled(used) =>
      if forall u :: 0 <= u < |used| ==> Target(inputs, id, used[u]).Some? then Some(used) else None
    case _ => None
  }

  /** The reasons for refusing an incremental reload. */
  ghost predicate Blocked(inputs: Inputs, id: nat) {
    Reachable(inputs, id) &&
    (|| id !in inputs.graph
     || OnCycle(inputs.graph, id)
     || (Affected(inputs, id) && (!inputs.graph[id].mutable || CheckedImports(inputs, id).None?)))
  }

  /** Every old import a rebuilt package uses is bound to the rebuilt version exactly when it is affected. */
  ghost predicate BindsCurrent(inputs: Inputs, id: nat, bindings: map<string, Binding>) {
    && id in inputs.graph && CheckedImports(inputs, id).Some?
    && (forall path :: path in bindings <==> path in CheckedImports(inputs, id).value)
    && forall path :: path in bindings ==>
         var target := Target(inputs, id, path);
         target.Some? && (!IsAdded(inputs, id, path) ==> bindings[path] == Current(inputs, target.value))
  }

  ghost function Current(inputs: Inputs, id: nat): Binding {
    if Affected(inputs, id) then Rebuilt(id) else Retained(id)
  }

  /** `order` rebuilds each package once, after every affected package it imports. */
  ghost predicate DependenciesFirst(inputs: Inputs, order: seq<nat>) {
    && (forall i, j :: 0 <= i < j < |order| ==> order[i] != order[j])
    && (forall i, b :: 0 <= i < |order| && Edge(inputs.graph, order[i], b) && Affected(inputs, b) ==> b in order[..i])
  }

  /** An added import is bound to the rebuilt version exactly when that was rebuilt earlier. */
  ghost predicate BindsAdded(inputs: Inputs, id: nat, bindings: map<string, Binding>, order: seq<nat>) {
    forall path :: path in bindings && IsAdded(inputs, id, path) ==>
      var target := Find(inputs.added(id), path).value;
      bindings[path] == if Earlier(order, target, id) then Rebuilt(target) else Retained(target)
  }

  ghost predicate AllBindAdded(inputs: Inputs, rebuilt: map<nat, map<string, Binding>>, order: seq<nat>) {
    forall id :: id in rebuilt ==> BindsAdded(inputs, id, rebuilt[id], order)
  }

  lemma AddedSnoc(inputs: Inputs, rebuilt: map<nat, map<string, Binding>>, order: seq<nat>, id: nat,
                  bindings: map<string, Binding>)
    requires AllBindAdded(inputs, rebuilt, order) && id !in rebuilt && forall b :: b in order <==> b in rebuilt
    requires forall path :: path in bindings && IsAdded(inputs, id, path) ==>
      var target := Find(inputs.added(id), path).value;
      bindings[path] == if target in rebuilt then Rebuilt(target) else Retained(target)
    ensures AllBindAdded(inputs, rebuilt[id := bindings], order + [id])
  {
    hide Earlier, IsAdded, Find;
    forall b, c
      ensures Earlier(order + [id], b, c) <==> Earlier(order, b, c) || (c == id && b in order)
    {
      EarlierSnoc(order, id, b, c);
    }
    forall b
      ensures !Earlier(order, b, id)
    {
      NotListed(order, b, id);
    }
  }

  lemma NotListed(order: seq<nat>, b: nat, id: nat)
    requires id !in order
    ensures !Earlier(order, b, id)
  {
  }

  // ---------- The reload ----------

  datatype Visit = Active | Complete

  datatype Outcome = Valid | Invalid | Interrupted

  /** The finished packages in finishing order: each comes after all it imports. */
  ghost predicate Topological(inputs: Inputs, finished: seq<nat>) {
    && (forall i :: 0 <= i < |finished| ==> finished[i] in inputs.graph)
    && (forall i, b :: 0 <= i < |finished| && Edge(inputs.graph, finished[i], b) ==> b in finished[..i])
  }

  /** Import paths only descend in a topological order, so they never come back. */
  lemma {:induction false} PathDescends(inputs: Inputs, finished: seq<nat>, p: seq<nat>, i: nat) returns (j: nat)
    requires Topological(inputs, finished) && IsImportPath(inputs.graph, p)
    requires i < |finished| && finished[i] == p[0]
    ensures j < |finished| && finished[j] == p[|p| - 1] && j + |p| <= i + 1
    decreases |p|
  {
    if |p| == 1 {
      return i;
    }
    assert Edge(inputs.graph, p[0], p[1]);
    var k :| 0 <= k < i && finished[k] == p[1];
    assert IsImportPath(inputs.graph, p[1..]) by {
      forall k | 0 <= k < |p[1..]| - 1
        ensures Edge(inputs.graph, p[1..][k], p[1..][k + 1])
      {
        assert Edge(inputs.graph, p[k + 1], p[k + 2]);
      }
    }
    j := PathDescends(inputs, finished, p[1..], k);
  }

  /** The first position of a finished package. */
  lemma {:induction false} FirstPosition(finished: seq<nat>, id: nat) returns (i: nat)
    requires id in finished
    ensures i < |finished| && finished[i] == id && id !in finished[..i]
    decreases |finished|
  {
    i :| i < |finished| && finished[i] == id;
    if id in finished[..i] {
      i := FirstPosition(finished[..i], id);
    }
  }

  lemma FinishedIsAcyclic(inputs: Inputs, finished: seq<nat>, id: nat)
    requires Topological(inputs, finished) && id in finished
    ensures !OnCycle(inputs.graph, id)
  {
    if p :| |p| > 1 && Path(inputs.graph, p, id, id) {
      var i := FirstPosition(finished, id);
      var j := PathDescends(inputs, finished, p, i);
    }
  }

  lemma TopologicalSnoc(inputs: Inputs, finished: seq<nat>, id: nat)
    requires Topological(inputs, finished) && id in inputs.graph
      && forall b :: Edge(inputs.graph, id, b) ==> b in finished
    ensures Topological(inputs, finished + [id])
  {
    var all := finished + [id];
    forall i, b | 0 <= i < |all| && Edge(inputs.graph, all[i], b)
      ensures b in all[..i]
    {
      assert all[..i] == finished[..i];
      if i < |finished| {
        assert Edge(inputs.graph, finished[i], b);
      }
    }
  }

  /** A reload that does not succeed has a reason. */
  ghost predicate Explained(inputs: Inputs, outcome: Outcome) {
    && (outcome.Invalid? ==> exists b :: Blocked(inputs, b))
    && (outcome.Interrupted? ==> exists b :: Reachable(inputs, b) && Affected(inputs, b) && inputs.check(b).Cancelled?)
  }

  ghost predicate Within(some: seq<nat>, more: seq<nat>) {
    forall id :: id in some ==> id in more
  }

  ghost predicate AllIn(imports: seq<Import>, finished: seq<nat>) {
    forall j :: 0 <= j < |imports| ==> imports[j].id in finished
  }

  lemma AllInSnoc(imports: seq<Import>, i: nat, before: seq<nat>, finished: seq<nat>)
    requires i < |imports| && AllIn(imports[..i], before) && Within(before, finished) && imports[i].id in finished
    ensures AllIn(imports[..i + 1], finished)
  {
    forall j | 0 <= j < i
      ensures imports[j].id in finished
    {
      assert imports[..i][j].id in before;
    }
  }

  lemma WithinTrans(some: seq<nat>, more: seq<nat>, most: seq<nat>)
    requires Within(some, more) && Within(more, most)
    ensures Within(some, most)
  {
  }

  lemma Nothing(inputs: Inputs, finished: seq<nat>)
    ensures AllIn([], finished) && Within(finished, finished) && !AnyAffected(inputs, []) && Explained(inputs, Valid)
  {
  }

  /** The active packages are an import path; the complete ones are finished. */
  ghost predicate StackedBy(inputs: Inputs, states: map<nat, Visit>, active: seq<nat>, finished: seq<nat>) {
    && states.Keys <= inputs.graph.Keys
    && (forall id :: id in states && states[id].Active? <==> id in active)
    && (forall id :: id in states && states[id].Complete? <==> id in finished)
    && (forall k :: 0 <= k < |active| - 1 ==> Edge(inputs.graph, active[k], active[k + 1]))
    && (forall k :: 0 <= k < |active| ==> Reachable(inputs, active[k]))
  }

  /** Finished packages are judged rightly, and exactly the affected ones are rebuilt, with current bindings. */
  ghost predicate SettledBy(inputs: Inputs, finished: seq<nat>, impacted: set<nat>,
                            rebuilt: map<nat, map<string, Binding>>)
  {
    && (forall id :: id in finished ==> (id in impacted <==> Affected(inputs, id)))
    && (forall id :: id in finished ==> Reachable(inputs, id) && !Blocked(inputs, id))
    && (forall id :: id in rebuilt <==> id in finished && Affected(inputs, id))
    && (forall id :: id in rebuilt ==> BindsCurrent(inputs, id, rebuilt[id]))
  }

  lemma StackedEnter(inputs: Inputs, states: map<nat, Visit>, active: seq<nat>, finished: seq<nat>, id: nat)
    requires StackedBy(inputs, states, active, finished) && id in inputs.graph && id !in states
    requires Reachable(inputs, id) && (|active| > 0 ==> Edge(inputs.graph, active[|active| - 1], id))
    ensures StackedBy(inputs, states[id := Active], active + [id], finished) && id !in active
  {
    hide Reachable, Edge;
  }

  lemma StackedLeave(inputs: Inputs, states: map<nat, Visit>, active: seq<nat>, finished: seq<nat>, id: nat)
    requires StackedBy(inputs, states, active, finished) && id in states
    requires |active| > 0 && active[|active| - 1] == id && id !in active[..|active| - 1]
    ensures StackedBy(inputs, states[id := Complete], active[..|active| - 1], finished + [id])
  {
    assert forall b :: b in active ==> b == id || b in active[..|active| - 1];
  }

  lemma SettledLeave(inputs: Inputs, finished: seq<nat>, impacted: set<nat>, rebuilt: map<nat, map<string, Binding>>,
                     id: nat, changed: bool)
    requires SettledBy(inputs, finished, impacted, rebuilt - {id}) && id !in finished && Reachable(inputs, id)
    requires !Blocked(inputs, id)
    requires changed == Affected(inputs, id) == (id in rebuilt)
    requires changed ==> BindsCurrent(inputs, id, rebuilt[id])
    ensures SettledBy(inputs, finished + [id], if changed then impacted + {id} else impacted - {id}, rebuilt)
  {
    hide Affected, Reachable, Blocked, BindsCurrent;
    assert forall b :: b in rebuilt && b != id ==> b in rebuilt - {id} && rebuilt[b] == (rebuilt - {id})[b];
  }

  class Reload {
    const inputs: Inputs
    const directlyChanged: set<nat>
    var states: map<nat, Visit>
    var impacted: set<nat>
    var freshById: map<nat, map<string, Binding>>
    ghost var active: seq<nat>
    ghost var finished: seq<nat>
    ghost var order: seq<nat>

    constructor (inputs: Inputs, directlyChanged: set<nat>)
      requires forall id :: Reachable(inputs, id) ==> (id in directlyChanged <==> inputs.Direct(id))
      ensures this.inputs == inputs && this.directlyChanged == directlyChanged && Good() && active == []
      ensures finished == []
    {
      this.inputs, this.directlyChanged := inputs, directlyChanged;
      states, impacted, freshById, active, finished, order := map[], {}, map[], [], [], [];
    }

    ghost predicate Good()
      reads this
    {
      Stacked() && Topological(inputs, finished) && Settled() && Ordered() && RightlyDirect()
    }

    ghost predicate RightlyDirect() {
      forall id :: Reachable(inputs, id) ==> (id in directlyChanged <==> inputs.Direct(id))
    }

    ghost predicate Stacked()
      reads this
    {
      StackedBy(inputs, states, active, finished)
    }

    ghost predicate Settled()
      reads this
    {
      SettledBy(inputs, finished, impacted, freshById)
    }

    ghost predicate Ordered()
      reads this
    {
      && DependenciesFirst(inputs, order)
      && (forall id :: id in order <==> id in freshById)
      && AllBindAdded(inputs, freshById, order) && order == OnlyAffected(inputs, finished)
    }

    ghost function ActiveIds(): set<nat>
      reads this
    {
      set id | id in active
    }

    twostate predicate Grows()
      reads this
    {
      && active == old(active)
      && Within(old(finished), finished)
      && old(states).Keys <= states.Keys
    }

    ghost predicate Follows(id: nat)
      reads this
    {
      && Reachable(inputs, id)
      && (|active| > 0 ==> Edge(inputs.graph, active[|active| - 1], id))
    }

    lemma ActiveMeansCycle(id: nat)
      requires Good() && Follows(id) && id in states && states[id].Active?
      ensures Blocked(inputs, id)
    {
      var t :| 0 <= t < |active| && active[t] == id;
      var p := active[t..] + [id];
      forall k | 0 <= k < |p| - 1
        ensures Edge(inputs.graph, p[k], p[k + 1])
      {
        if k < |p| - 2 {
          assert Edge(inputs.graph, active[t + k], active[t + k + 1]);
        }
      }
      assert Path(inputs.graph, p, id, id);
    }

    /** `refresh`: depth first over the imports, then the package itself. */
    method Refresh(id: nat) returns (changed: bool, outcome: Outcome)
      requires Good() && Follows(id)
      modifies this
      ensures outcome.Valid? ==> Good() && Grows() && id in finished && changed == Affected(inputs, id)
      ensures outcome.Valid? ==> finished == Finish(inputs.graph, id, old(finished), old(ActiveIds()))
      ensures Explained(inputs, outcome)
      decreases inputs.graph.Keys - states.Keys, 0
    {
      hide Good, Affected, Reachable;
      if id !in inputs.graph {
        assert Blocked(inputs, id);
        return false, Invalid;
      }
      if id in states {
        if states[id].Active? {
          ActiveMeansCycle(id);
          return false, Invalid;
        }
        VisitedIsJudged(id);
        return id in impacted, Valid;
      }
      UnvisitedIsFinished(id, finished);
      Enter(id);
      assert ActiveIds() == old(ActiveIds()) + {id};
      assert id in inputs.graph.Keys - old(states).Keys;
      changed, outcome := RefreshImports(id);
      if !outcome.Valid? {
        return false, outcome;
      }
      assert active[..|active| - 1] == old(active);
      outcome := CompletePackage(id, changed);
    }

    /** What finishing an unvisited package comes to. */
    lemma UnvisitedIsFinished(id: nat, done: seq<nat>)
      requires Good() && id in inputs.graph && id !in states && done == finished
      ensures Finish(inputs.graph, id, done, ActiveIds()) ==
        FinishAll(inputs.graph, Ids(inputs.graph[id].imports), done, ActiveIds() + {id}) + [id]
    {
    }

    lemma TopIsReachable(id: nat)
      requires Good() && |active| > 0 && active[|active| - 1] == id
      ensures Reachable(inputs, id) && inputs.Direct(id) == (id in directlyChanged)
    {
      assert Reachable(inputs, active[|active| - 1]);
    }

    method RefreshImports(id: nat) returns (changed: bool, outcome: Outcome)
      requires Good() && id in inputs.graph && |active| > 0 && active[|active| - 1] == id
      modifies this
      ensures outcome.Valid? ==>
        && Good() && Grows() && changed == Affected(inputs, id)
        && AllIn(inputs.graph[id].imports, finished)
        && finished == FinishAll(inputs.graph, Ids(inputs.graph[id].imports), old(finished), ActiveIds())
      ensures Explained(inputs, outcome)
      decreases inputs.graph.Keys - states.Keys, 1
    {
      hide Good, Affected, Reachable, Blocked, Edge, AnyAffected, Explained, AllIn, Within;
      TopIsReachable(id);
      Nothing(inputs, finished);
      changed := id in directlyChanged;
      var imports := inputs.graph[id].imports;
      for i := 0 to |imports|
        invariant Good() && Grows()
        invariant inputs.graph.Keys - states.Keys <= inputs.graph.Keys - old(states).Keys
        invariant AllIn(imports[..i], finished)
        invariant finished == FinishAll(inputs.graph, Ids(imports)[..i], old(finished), ActiveIds())
        invariant changed == (inputs.Direct(id) || AnyAffected(inputs, imports[..i]))
      {
        ghost var before := finished;
        ImportEdge(inputs.graph, id, i);
        ReachableStep(inputs, id, imports[i].id);
        AnyAffectedSnoc(inputs, imports, i);
        var importChanged;
        importChanged, outcome := Refresh(imports[i].id);
        if !outcome.Valid? {
          return false, outcome;
        }
        changed := changed || importChanged;
        assert Ids(imports)[..i + 1][..i] == Ids(imports)[..i];
        AllInSnoc(imports, i, before, finished);
        WithinTrans(old(finished), before, finished);
      }
      assert imports[..|imports|] == imports && Ids(imports)[..|imports|] == Ids(imports);
      JudgedByImports(id);
      outcome := Valid;
    }

    /** Rebuild the package if it is affected, and finish it. */
    method CompletePackage(id: nat, changed: bool) returns (outcome: Outcome)
      requires Good() && id in inputs.graph && Reachable(inputs, id) && changed == Affected(inputs, id)
      requires |active| > 0 && active[|active| - 1] == id && id !in active[..|active| - 1]
      requires AllIn(inputs.graph[id].imports, finished)
      modifies this
      ensures outcome.Valid? ==>
        Good() && active == old(active)[..|old(active)| - 1] && finished == old(finished) + [id]
      ensures outcome.Valid? ==> states.Keys == old(states).Keys
      ensures Explained(inputs, outcome)
    {
      hide Good, Affected, Reachable;
      ReadyToLeave(id);
      if changed {
        if !inputs.graph[id].mutable {
          assert Blocked(inputs, id);
          return Invalid;
        }
        var bindings;
        outcome, bindings := Rebuild(id);
        if !outcome.Valid? {
          return;
        }
        Install(id, bindings);
      }
      Leave(id, changed);
      outcome := Valid;
    }

    method Enter(id: nat)
      requires Good() && Follows(id) && id in inputs.graph && id !in states
      modifies this`states, this`active
      ensures Good() && active == old(active) + [id] && states == old(states)[id := Active] && id !in old(active)
    {
      hide Topological, DependenciesFirst, Reachable, RightlyDirect, StackedBy, SettledBy, AllBindAdded, OnlyAffected;
      StackedEnter(inputs, states, active, finished, id);
      states := states[id := Active];
      active := active + [id];
    }

    /** The package on top of the stack can be finished: everything it imports is. */
    ghost predicate Finishing(id: nat)
      reads this
    {
      && id in inputs.graph && id in states && |active| > 0 && active[|active| - 1] == id && id !in finished
      && id !in active[..|active| - 1]
      && forall b :: Edge(inputs.graph, id, b) ==> b in finished
    }

    /** An affected package has been rebuilt. */
    method Install(id: nat, bindings: map<string, Binding>)
      requires Finishing(id) && BeforeLeaving(id) && id !in freshById && Affected(inputs, id)
      requires BindsCurrent(inputs, id, bindings) && BindsAsRebuilt(id, bindings)
      modifies this`freshById, this`order
      ensures freshById == old(freshById)[id := bindings]
      ensures Finishing(id) && BeforeLeaving(id)
    {
      hide Topological, Affected, Edge, BindsCurrent, Blocked, Reachable, RightlyDirect, AllBindAdded;
      forall i, b | 0 <= i <= |order| && Edge(inputs.graph, (order + [id])[i], b) && Affected(inputs, b)
        ensures b in (order + [id])[..i]
      {
        assert (order + [id])[..i] == order[..i];
        if i == |order| {
          assert b in freshById;
        }
      }
      assert freshById[id := bindings] - {id} == freshById - {id};
      AddedSnoc(inputs, freshById, order, id, bindings);
      freshById := freshById[id := bindings];
      order := order + [id];
    }

    lemma LeavingIsUnblocked(id: nat)
      requires Finishing(id) && BeforeLeaving(id)
      requires Affected(inputs, id) ==> inputs.graph[id].mutable && CheckedImports(inputs, id).Some?
      ensures Topological(inputs, finished + [id]) && Reachable(inputs, id) && !Blocked(inputs, id)
    {
      assert Reachable(inputs, active[|active| - 1]);
      TopologicalSnoc(inputs, finished, id);
      FinishedIsAcyclic(inputs, finished + [id], id);
    }

    lemma VisitedIsJudged(id: nat)
      requires Good() && id in states && states[id].Complete?
      ensures id in finished && (id in impacted <==> Affected(inputs, id))
    {
    }

    lemma ReadyToLeave(id: nat)
      requires Good() && id in inputs.graph && |active| > 0 && active[|active| - 1] == id
      requires id !in active[..|active| - 1]
      requires AllIn(inputs.graph[id].imports, finished)
      ensures Finishing(id) && BeforeLeaving(id) && id !in freshById
    {
      hide DependenciesFirst, BindsCurrent, Blocked, Affected, Reachable, AllBindAdded;
      assert id in active;
      assert freshById - {id} == freshById;
    }

    /** Everything but the package on top of the stack is settled; that one is now, too. */
    method Leave(id: nat, changed: bool)
      requires Finishing(id) && BeforeLeaving(id) && changed == Affected(inputs, id)
      requires changed == (id in freshById)
      requires changed ==>
        BindsCurrent(inputs, id, freshById[id]) && CheckedImports(inputs, id).Some? && inputs.graph[id].mutable
      modifies this`states, this`active, this`finished, this`impacted
      ensures Good() && active == old(active)[..|old(active)| - 1] && finished == old(finished) + [id]
      ensures states.Keys == old(states).Keys
    {
      hide Topological, Affected, BindsCurrent, Blocked, Reachable, DependenciesFirst, StackedBy, SettledBy,
        AllBindAdded;
      LeavingIsUnblocked(id);
      OnlyAffectedSnoc(inputs, finished, id);
      StackedLeave(inputs, states, active, finished, id);
      SettledLeave(inputs, finished, impacted, freshById, id, changed);
      states := states[id := Complete];
      active := active[..|active| - 1];
      finished := finished + [id];
      impacted := if changed then impacted + {id} else impacted - {id};
    }

    ghost predicate BeforeLeaving(id: nat)
      reads this
    {
      && Stacked() && Topological(inputs, finished) && DependenciesFirst(inputs, order)
        && (forall b :: b in order <==> b in freshById) && AllBindAdded(inputs, freshById, order)
      && order == OnlyAffected(inputs, finished) + (if id in freshById then [id] else [])
      && RightlyDirect() && SettledBy(inputs, finished, impacted, freshById - {id})
    }

    lemma JudgedByImports(id: nat)
      requires id in inputs.graph
      ensures Affected(inputs, id) == (inputs.Direct(id) || AnyAffected(inputs, inputs.graph[id].imports))
    {
      AffectedUnfolds(inputs, id);
      assert forall j :: 0 <= j < |inputs.graph[id].imports| ==> Edge(inputs.graph, id, inputs.graph[id].imports[j].id);
    }

    /** `packageFor`: the rebuilt package if there is one, else the retained one. */
    function PackageFor(id: nat): Binding
      reads this
    {
      if id in freshById then Rebuilt(id) else Retained(id)
    }

    ghost predicate BindsAsRebuilt(id: nat, bindings: map<string, Binding>)
      reads this
    {
      forall path :: path in bindings && IsAdded(inputs, id, path) ==>
        bindings[path] == PackageFor(Find(inputs.added(id), path).value)
    }

    /** Bind every import the new source uses. */
    method Bind(id: nat, used: seq<string>) returns (outcome: Outcome, bindings: map<string, Binding>)
      requires id in inputs.graph && Reachable(inputs, id) && Affected(inputs, id) && inputs.check(id) == Compiled(used)
      requires forall b: nat :: Edge(inputs.graph, id, b) ==> PackageFor(b) == Current(inputs, b)
      ensures outcome.Valid? ==> BindsCurrent(inputs, id, bindings) && BindsAsRebuilt(id, bindings)
      ensures outcome.Invalid? ==> Blocked(inputs, id)
      ensures !outcome.Interrupted?
    {
      hide Affected, Blocked, Reachable, Find, Target, Edge, Current;
      bindings := map[];
      for u := 0 to |used|
        invariant forall v :: 0 <= v < u ==> Target(inputs, id, used[v]).Some?
        invariant forall path :: path in bindings <==> path in used[..u]
        invariant forall path :: path in bindings ==>
          Target(inputs, id, path).Some? && bindings[path] == PackageFor(Target(inputs, id, path).value)
      {
        var target := Target(inputs, id, used[u]);
        if target.None? {
          RejectedImport(inputs, id, u);
          return Invalid, bindings;
        }
        bindings := bindings[used[u] := PackageFor(target.value)];
      }
      forall path | path in bindings
        ensures IsAdded(inputs, id, path) ==> bindings[path] == PackageFor(Find(inputs.added(id), path).value)
        ensures !IsAdded(inputs, id, path) ==> bindings[path] == Current(inputs, Target(inputs, id, path).value)
      {
        TargetIs(inputs, id, path);
      }
      outcome := Valid;
    }

    /** `reloadPackageSessionPackage`. */
    method Rebuild(id: nat) returns (outcome: Outcome, bindings: map<string, Binding>)
      requires Good() && id in inputs.graph && Reachable(inputs, id) && Affected(inputs, id)
      requires forall b :: Edge(inputs.graph, id, b) ==> b in finished
      ensures outcome.Valid? ==> BindsCurrent(inputs, id, bindings) && BindsAsRebuilt(id, bindings)
      ensures outcome.Invalid? ==> Blocked(inputs, id)
      ensures outcome.Interrupted? ==> inputs.check(id).Cancelled?
    {
      bindings := map[];
      match inputs.check(id) {
        case Cancelled =>
          return Interrupted, bindings;
        case Rejected =>
          return Invalid, bindings;
        case Compiled(used) =>
          forall target: nat | Edge(inputs.graph, id, target)
            ensures PackageFor(target) == Current(inputs, target)
          {
          }
          outcome, bindings := Bind(id, used);
      }
    }
  }

  lemma RejectedImport(inputs: Inputs, id: nat, u: nat)
    requires id in inputs.graph && Reachable(inputs, id) && Affected(inputs, id)
    requires inputs.check(id).Compiled? && u < |inputs.check(id).used|
    requires Target(inputs, id, inputs.check(id).used[u]).None?
    ensures Blocked(inputs, id)
  {
  }

  lemma TargetIs(inputs: Inputs, id: nat, path: string)
    requires id in inputs.graph && Target(inputs, id, path).Some?
    ensures if IsAdded(inputs, id, path) then Target(inputs, id, path) == Find(inputs.added(id), path)
            else Edge(inputs.graph, id, Target(inputs, id, path).value)
  {
  }

  lemma ReachableStep(inputs: Inputs, a: nat, b: nat)
    requires Reachable(inputs, a) && Edge(inputs.graph, a, b)
    ensures Reachable(inputs, b)
  {
    var root :| IsRoot(inputs, root) && Reaches(inputs.graph, root, a);
    ReachesStep(inputs.graph, root, a, b);
  }

  // ---------- The whole call ----------

  ghost predicate Collecting(inputs: Inputs, seen: set<nat>, stack: seq<nat>) {
    && seen <= inputs.graph.Keys
    && (forall id :: id in seen || id in stack ==> Reachable(inputs, id))
    && (forall id :: IsRoot(inputs, id) ==> id in seen || id in stack)
    && (forall a, b :: a in seen && Edge(inputs.graph, a, b) ==> b in seen || b in stack)
  }

  lemma CollectStart(inputs: Inputs)
    ensures Collecting(inputs, {}, Ids(inputs.roots))
  {
    forall id | id in Ids(inputs.roots)
      ensures Reachable(inputs, id)
    {
      var r :| 0 <= r < |inputs.roots| && Ids(inputs.roots)[r] == id;
      assert IsRoot(inputs, id);
      ReachesSelf(inputs.graph, id);
    }
    forall id | IsRoot(inputs, id)
      ensures id in Ids(inputs.roots)
    {
      var r :| 0 <= r < |inputs.roots| && inputs.roots[r].id == id;
      assert Ids(inputs.roots)[r] == id;
    }
  }

  lemma CollectStep(inputs: Inputs, seen: set<nat>, stack: seq<nat>)
    requires |stack| > 0 && Collecting(inputs, seen, stack) && stack[|stack| - 1] in inputs.graph
    ensures var id := stack[|stack| - 1];
      if id in seen then Collecting(inputs, seen, stack[..|stack| - 1])
      else Collecting(inputs, seen + {id}, stack[..|stack| - 1] + Ids(inputs.graph[id].imports))
  {
    var id, rest := stack[|stack| - 1], stack[..|stack| - 1];
    assert forall x :: x in stack ==> x == id || x in rest;
    if id !in seen {
      var imports := inputs.graph[id].imports;
      forall b | Edge(inputs.graph, id, b)
        ensures b in Ids(imports)
      {
        var i :| 0 <= i < |imports| && imports[i].id == b;
        assert Ids(imports)[i] == b;
      }
      forall b | b in Ids(imports)
        ensures Reachable(inputs, b)
      {
        var i :| 0 <= i < |imports| && Ids(imports)[i] == b;
        ImportEdge(inputs.graph, id, i);
        assert id in stack;
        ReachableStep(inputs, id, b);
      }
    }
  }

  lemma {:induction false} PathIsCollected(inputs: Inputs, seen: set<nat>, p: seq<nat>)
    requires Collecting(inputs, seen, []) && IsImportPath(inputs.graph, p) && p[0] in seen
    ensures p[|p| - 1] in seen
    decreases |p|
  {
    if |p| > 1 {
      var q := p[..|p| - 1];
      PathIsCollected(inputs, seen, q);
      assert Edge(inputs.graph, p[|p| - 2], p[|p| - 1]);
    }
  }

  lemma CollectedIsReachable(inputs: Inputs, seen: set<nat>)
    requires Collecting(inputs, seen, [])
    ensures forall id :: Reachable(inputs, id) <==> id in seen
  {
    forall id | Reachable(inputs, id)
      ensures id in seen
    {
      var root :| IsRoot(inputs, root) && Reaches(inputs.graph, root, id);
      var p :| Path(inputs.graph, p, root, id);
      PathIsCollected(inputs, seen, p);
    }
  }

  /** The first search: every reachable package, and those that changed themselves. */
  method CollectDirect(inputs: Inputs) returns (valid: bool, directlyChanged: set<nat>)
    ensures !valid ==> exists b :: Blocked(inputs, b)
    ensures valid ==> forall id :: id in directlyChanged <==> Reachable(inputs, id) && inputs.Direct(id)
  {
    directlyChanged := {};
    var seen: set<nat> := {};
    var stack := Ids(inputs.roots);
    CollectStart(inputs);
    while |stack| > 0
      invariant Collecting(inputs, seen, stack)
      invariant forall id :: id in directlyChanged <==> id in seen && inputs.Direct(id)
      decreases inputs.graph.Keys - seen, |stack|
    {
      hide Collecting;
      var id := stack[|stack| - 1];
      if id !in inputs.graph {
        NilIsBlocked(inputs, seen, stack);
        return false, directlyChanged;
      }
      CollectStep(inputs, seen, stack);
      stack := stack[..|stack| - 1];
      if id in seen {
        continue;
      }
      seen := seen + {id};
      if inputs.Direct(id) {
        directlyChanged := directlyChanged + {id};
      }
      stack := stack + Ids(inputs.graph[id].imports);
    }
    CollectedIsReachable(inputs, seen);
    valid := true;
  }

  lemma NilIsBlocked(inputs: Inputs, seen: set<nat>, stack: seq<nat>)
    requires |stack| > 0 && Collecting(inputs, seen, stack) && stack[|stack| - 1] !in inputs.graph
    ensures exists b :: Blocked(inputs, b)
  {
    assert stack[|stack| - 1] in stack;
    assert Blocked(inputs, stack[|stack| - 1]);
  }

  /** Some reachable package changed, and none stands in the way. */
  ghost predicate CanReload(inputs: Inputs) {
    (exists id :: Reachable(inputs, id) && inputs.Direct(id)) && forall id :: !Blocked(inputs, id)
  }

  /** `rebuilt` has the reachable affected packages, rebuilt in the order in which a search over the old imports
      finishes them. */
  ghost predicate IsReload(inputs: Inputs, rebuilt: map<nat, map<string, Binding>>) {
    && (forall id :: id in rebuilt <==> Reachable(inputs, id) && Affected(inputs, id))
    && (forall id :: id in rebuilt ==> BindsCurrent(inputs, id, rebuilt[id]))
    && (forall id :: id in RebuildOrder(inputs) <==> id in rebuilt)
    && DependenciesFirst(inputs, RebuildOrder(inputs)) && AllBindAdded(inputs, rebuilt, RebuildOrder(inputs))
    && Topological(inputs, FinishingOrder(inputs))
    && forall id :: Reachable(inputs, id) <==> id in FinishingOrder(inputs)
  }

  ghost predicate BindsNothingStale(inputs: Inputs, id: nat, bindings: map<string, Binding>) {
    forall path :: path in bindings ==>
      id in inputs.graph && Target(inputs, id, path).Some?
      && bindings[path] == Current(inputs, Target(inputs, id, path).value)
  }

  /** What the inputs show: every affected package that `id` newly imports is finished before it. */
  ghost predicate AddedFinishFirst(inputs: Inputs, id: nat) {
    id in inputs.graph && CheckedImports(inputs, id).Some? &&
    forall path :: path in CheckedImports(inputs, id).value && IsAdded(inputs, id, path) ==>
      var target := Find(inputs.added(id), path).value;
      Affected(inputs, target) ==> FinishesBefore(inputs, target, id)
  }

  predicate Listed(imports: seq<Import>, path: string) {
    exists i :: 0 <= i < |imports| && imports[i].path == path
  }

  predicate Lists(imports: seq<Import>, path: string, id: nat) {
    Import(path, id) in imports
  }

  /** What stands in the way of a reload: a reachable package that is missing, lies on a cycle, or is affected but may
      not change or does not compile from the imports it had or has added. */
  lemma BlockedExactly(inputs: Inputs, id: nat)
    ensures !Blocked(inputs, id) <==>
      && (Reachable(inputs, id) ==> id in inputs.graph && !OnCycle(inputs.graph, id))
      && (Reachable(inputs, id) && Affected(inputs, id) ==>
            id in inputs.graph && inputs.graph[id].mutable && inputs.check(id).Compiled?
            && forall path :: path in inputs.check(id).used ==>
                 Listed(inputs.added(id), path) || Listed(inputs.graph[id].imports, path))
  {
    hide Reachable, Affected, OnCycle;
    if id in inputs.graph && inputs.check(id).Compiled? {
      UsesKnownImports(inputs, id);
    }
  }

  lemma UsesKnownImports(inputs: Inputs, id: nat)
    requires id in inputs.graph && inputs.check(id).Compiled?
    ensures CheckedImports(inputs, id).Some? <==> forall path :: path in inputs.check(id).used ==>
      Listed(inputs.added(id), path) || Listed(inputs.graph[id].imports, path)
  {
    hide Find;
    var used := inputs.check(id).used;
    forall path
      ensures Target(inputs, id, path).Some? <==>
        Listed(inputs.added(id), path) || Listed(inputs.graph[id].imports, path)
    {
    }
  }

  /** Rebuilt is what changed and what imports something rebuilt.  It binds what its current files use: an import that
      was not added, to the rebuilt version if there is one and to the old one otherwise. */
  lemma RebuiltExactly(inputs: Inputs, rebuilt: map<nat, map<string, Binding>>, id: nat)
    requires CanReload(inputs) && IsReload(inputs, rebuilt) && Reachable(inputs, id)
    ensures id in inputs.graph
    ensures id in rebuilt <==>
      || inputs.graph[id].files * inputs.changed != {} || (inputs.refreshAllMutable && inputs.graph[id].mutable)
      || exists i :: 0 <= i < |inputs.graph[id].imports| && inputs.graph[id].imports[i].id in rebuilt
    ensures id in rebuilt ==>
      && inputs.check(id).Compiled? && (forall path :: path in rebuilt[id] <==> path in inputs.check(id).used)
      && forall path :: path in rebuilt[id] ==>
           if Listed(inputs.added(id), path)
           then exists b :: Lists(inputs.added(id), path, b) && rebuilt[id][path] in {Rebuilt(b), Retained(b)}
           else exists b :: Lists(inputs.graph[id].imports, path, b) &&
                  rebuilt[id][path] == if b in rebuilt then Rebuilt(b) else Retained(b)
  {
    assert id in inputs.graph && !Blocked(inputs, id);
    hide Affected, Reachable, CanReload, Find, Earlier, RebuildOrder, FinishingOrder, DependenciesFirst, Topological;
    AffectedUnfolds(inputs, id);
    forall b | Edge(inputs.graph, id, b)
      ensures Reachable(inputs, b)
    {
      ReachableStep(inputs, id, b);
    }
    if id in rebuilt {
      forall path | path in rebuilt[id]
        ensures
          if Listed(inputs.added(id), path)
          then exists b :: Lists(inputs.added(id), path, b) && rebuilt[id][path] in {Rebuilt(b), Retained(b)}
          else exists b :: Lists(inputs.graph[id].imports, path, b) &&
                 rebuilt[id][path] == if b in rebuilt then Rebuilt(b) else Retained(b)
      {
        BindingIs(inputs, rebuilt, id, path);
      }
    }
  }

  lemma BindingIs(inputs: Inputs, rebuilt: map<nat, map<string, Binding>>, id: nat, path: string)
    requires IsReload(inputs, rebuilt) && id in rebuilt && path in rebuilt[id]
    ensures if Listed(inputs.added(id), path)
            then exists b :: Lists(inputs.added(id), path, b) && rebuilt[id][path] in {Rebuilt(b), Retained(b)}
            else exists b :: id in inputs.graph && Lists(inputs.graph[id].imports, path, b) &&
                   rebuilt[id][path] == if b in rebuilt then Rebuilt(b) else Retained(b)
  {
    hide Affected, Reachable, Find, Earlier, RebuildOrder, FinishingOrder, DependenciesFirst, Topological;
    assert BindsCurrent(inputs, id, rebuilt[id]) && BindsAdded(inputs, id, rebuilt[id], RebuildOrder(inputs));
    var b := Target(inputs, id, path).value;
    if Listed(inputs.added(id), path) {
      assert Find(inputs.added(id), path) == Some(b);
      assert Lists(inputs.added(id), path, b);
    } else {
      assert Find(inputs.graph[id].imports, path) == Some(b);
      assert Lists(inputs.graph[id].imports, path, b);
      TargetIs(inputs, id, path);
      assert Reachable(inputs, id);
      ReachableStep(inputs, id, b);
    }
  }

  /** A rebuilt package binds nothing stale exactly if every affected package that it newly imports is finished before
      it; so it always does when no import was added. */
  lemma BindsNothingStaleExactly(inputs: Inputs, rebuilt: map<nat, map<string, Binding>>, id: nat)
    requires IsReload(inputs, rebuilt) && id in rebuilt
    ensures BindsNothingStale(inputs, id, rebuilt[id]) <==> AddedFinishFirst(inputs, id)
  {
    hide DependenciesFirst, Topological, Reachable, Affected, CheckedImports, Find, Earlier, FinishingOrder,
      OnlyAffected;
    assert BindsCurrent(inputs, id, rebuilt[id]) && BindsAdded(inputs, id, rebuilt[id], RebuildOrder(inputs));
    forall b
      ensures Earlier(RebuildOrder(inputs), b, id) <==> Affected(inputs, b) && FinishesBefore(inputs, b, id)
    {
      EarlierAffected(inputs, FinishingOrder(inputs), b, id);
    }
  }

  /** A package that `id` imports already, directly or not, is finished before it; one that imports `id` is not. */
  lemma DependenciesFinishFirst(inputs: Inputs, rebuilt: map<nat, map<string, Binding>>, id: nat, b: nat)
    requires IsReload(inputs, rebuilt) && id != b
    ensures Reachable(inputs, id) && Reaches(inputs.graph, id, b) ==> FinishesBefore(inputs, b, id)
    ensures Reaches(inputs.graph, b, id) ==> !FinishesBefore(inputs, b, id)
  {
    hide Reachable, DependenciesFirst, AllBindAdded, BindsCurrent;
    var finished := FinishingOrder(inputs);
    if Reachable(inputs, id) && Reaches(inputs.graph, id, b) {
      var p :| Path(inputs.graph, p, id, b);
      var i := FirstPosition(finished, id);
      var j := PathDescends(inputs, finished, p, i);
    }
    if Reaches(inputs.graph, b, id) && Earlier(finished, b, id) {
      var p :| Path(inputs.graph, p, b, id);
      var i, j :| 0 <= i < j < |finished| && finished[i] == b && finished[j] == id;
      var k := PathDescends(inputs, finished, p, i);
      FinishesAllOnce(inputs.graph, Ids(inputs.roots), [], {});
    }
  }

  /** The inputs determine what a reload delivers. */
  lemma ReloadIsUnique(inputs: Inputs, one: map<nat, map<string, Binding>>, two: map<nat, map<string, Binding>>)
    requires IsReload(inputs, one) && IsReload(inputs, two)
    ensures one == two
  {
    hide DependenciesFirst, Topological, Reachable, Affected, BindsCurrent, BindsAdded, RebuildOrder, FinishingOrder;
    forall id | id in one
      ensures id in two && one[id] == two[id]
    {
      BindingsAreUnique(inputs, id, RebuildOrder(inputs), one[id], two[id]);
    }
  }

  lemma BindingsAreUnique(inputs: Inputs, id: nat, order: seq<nat>, one: map<string, Binding>,
                          two: map<string, Binding>)
    requires BindsCurrent(inputs, id, one) && BindsAdded(inputs, id, one, order)
    requires BindsCurrent(inputs, id, two) && BindsAdded(inputs, id, two, order)
    ensures one == two
  {
    hide Affected, CheckedImports, Find, Earlier;
  }

  /** A root imports packages 0 and 1, which changed; the current files of 0 import 1. */
  const IN_TURN: Inputs := Inputs(
    map[0 := Package([], {"zero.go"}, true), 1 := Package([], {"one.go"}, true)],
    [Import("zero", 0), Import("one", 1)], {"zero.go", "one.go"}, false,
    id => if id == 0 then Compiled(["one"]) else Compiled([]), id => if id == 0 then [Import("one", 1)] else [])

  lemma InTurnIsFinished()
    ensures FinishingOrder(IN_TURN) == [0, 1]
  {
    var g, roots := IN_TURN.graph, Ids(IN_TURN.roots);
    assert roots == [0, 1] && roots[..1] == [0] && roots[..1][..0] == [];
    assert Ids(g[0].imports) == [] && Ids(g[1].imports) == [];
    assert Finish(g, 0, [], {}) == [0] && Finish(g, 1, [0], {}) == [0, 1];
    assert FinishAll(g, [0], [], {}) == [0];
  }

  lemma InTurnIsAffected()
    ensures forall id :: Reachable(IN_TURN, id) <==> id == 0 || id == 1
    ensures forall id :: Affected(IN_TURN, id) <==> id == 0 || id == 1
    ensures forall a, b :: !Edge(IN_TURN.graph, a, b)
  {
    var inputs := IN_TURN;
    assert "zero.go" in inputs.graph[0].files * inputs.changed && "one.go" in inputs.graph[1].files * inputs.changed;
    assert inputs.roots[0].id == 0 && inputs.roots[1].id == 1;
    forall a, b
      ensures Reaches(inputs.graph, a, b) <==> a == b
    {
      ReachesSelf(inputs.graph, a);
      if p :| Path(inputs.graph, p, a, b) {
        assert |p| > 1 ==> Edge(inputs.graph, p[0], p[1]);
      }
    }
    hide Reaches;
    assert IsRoot(inputs, 0) && IsRoot(inputs, 1) && inputs.Direct(0) && inputs.Direct(1);
    assert Reaches(inputs.graph, 0, 0) && Reaches(inputs.graph, 1, 1);
  }

  const IN_TURN_RELOAD: map<nat, map<string, Binding>> := map[0 := map["one" := Retained(1)], 1 := map[]]

  lemma InTurnIsChecked()
    ensures CheckedImports(IN_TURN, 0) == Some(["one"]) && CheckedImports(IN_TURN, 1) == Some([])
    ensures IsAdded(IN_TURN, 0, "one") && Find(IN_TURN.added(0), "one") == Some(1)
  {
  }

  lemma CycleHasEdge(g: map<nat, Package>, id: nat)
    ensures OnCycle(g, id) ==> exists b :: Edge(g, id, b)
  {
    if p :| |p| > 1 && Path(g, p, id, id) {
      assert Edge(g, p[0], p[1]);
    }
  }

  lemma InTurnCanReload()
    ensures CanReload(IN_TURN)
  {
    hide Reachable, Affected, Edge, CheckedImports;
    InTurnIsAffected();
    InTurnIsChecked();
    assert "zero.go" in IN_TURN.graph[0].files * IN_TURN.changed;
    assert Reachable(IN_TURN, 0) && IN_TURN.Direct(0);
    forall id
      ensures !Blocked(IN_TURN, id)
    {
      CycleHasEdge(IN_TURN.graph, id);
      assert Reachable(IN_TURN, id) ==> id == 0 || id == 1;
      assert IN_TURN.graph[0].mutable && IN_TURN.graph[1].mutable;
    }
  }

  lemma InTurnIsRebuilt()
    ensures RebuildOrder(IN_TURN) == [0, 1] && DependenciesFirst(IN_TURN, [0, 1])
  {
    hide Reachable, Affected, Edge, FinishingOrder, CheckedImports, IsAdded, Find;
    InTurnIsAffected();
    InTurnIsFinished();
    assert OnlyAffected(IN_TURN, [0]) == [0] && [0, 1][..1] == [0];
  }

  lemma InTurnBindsCurrent()
    ensures BindsCurrent(IN_TURN, 0, map["one" := Retained(1)]) && BindsCurrent(IN_TURN, 1, map[])
  {
    hide Affected, CheckedImports, IsAdded, Find;
    InTurnIsChecked();
    assert "one" in ["one"];
  }

  lemma InTurnBindsAdded()
    ensures AllBindAdded(IN_TURN, IN_TURN_RELOAD, [0, 1])
  {
    hide IsAdded, Find, Earlier;
    InTurnIsChecked();
    NotEarlier();
  }

  lemma InTurnIsReload()
    ensures IsReload(IN_TURN, IN_TURN_RELOAD)
  {
    hide Reachable, Affected, RebuildOrder, AllBindAdded, DependenciesFirst, BindsCurrent, Edge, FinishingOrder;
    InTurnIsAffected();
    InTurnIsFinished();
    InTurnIsRebuilt();
    InTurnBindsCurrent();
    InTurnBindsAdded();
  }

  lemma NotEarlier()
    ensures !Earlier([0, 1], 1, 0)
  {
  }

  /** The one reload there is binds 0 to the old version of 1, which is rebuilt: 0 is finished first. */
  lemma AddedImportIsStale()
    ensures CanReload(IN_TURN) && !FinishesBefore(IN_TURN, 1, 0)
    ensures forall rebuilt :: IsReload(IN_TURN, rebuilt) <==> rebuilt == map[0 := map["one" := Retained(1)], 1 := map[]]
    ensures !BindsNothingStale(IN_TURN, 0, map["one" := Retained(1)])
  {
    hide Reachable, Edge, FinishingOrder, CheckedImports, IsReload, CanReload, Affected;
    InTurnIsAffected();
    InTurnIsFinished();
    InTurnCanReload();
    InTurnIsReload();
    NotEarlier();
    InTurnIsChecked();
    assert "one" in map["one" := Retained(1)];
    forall rebuilt | IsReload(IN_TURN, rebuilt)
      ensures rebuilt == IN_TURN_RELOAD
    {
      ReloadIsUnique(IN_TURN, rebuilt, IN_TURN_RELOAD);
    }
  }

  lemma NothingToReload(inputs: Inputs, directlyChanged: set<nat>)
    requires (exists b :: Blocked(inputs, b))
      || (directlyChanged == {} && forall id :: id in directlyChanged <==> Reachable(inputs, id) && inputs.Direct(id))
    ensures !CanReload(inputs)
  {
  }

  lemma ExplainedIsRefused(inputs: Inputs, outcome: Outcome)
    requires Explained(inputs, outcome) && outcome.Invalid?
    ensures !CanReload(inputs)
  {
  }

  lemma FinishedIsReload(reload: Reload)
    requires reload.Good() && reload.active == []
    requires forall q :: 0 <= q < |reload.inputs.roots| ==> reload.inputs.roots[q].id in reload.finished
    requires reload.directlyChanged != {}
      && forall id :: id in reload.directlyChanged ==> Reachable(reload.inputs, id) && reload.inputs.Direct(id)
    requires reload.finished == FinishingOrder(reload.inputs)
    ensures CanReload(reload.inputs) && IsReload(reload.inputs, reload.freshById)
  {
    hide Affected, Topological, DependenciesFirst, BindsCurrent, Reachable, OnCycle, CheckedImports;
    EverythingFinished(reload);
    var d :| d in reload.directlyChanged;
    assert Reachable(reload.inputs, d) && reload.inputs.Direct(d);
    forall id
      ensures !Blocked(reload.inputs, id)
    {
    }
  }

  /** `reloadPackageSessionDependencies`.  A valid reload rebuilds exactly the reachable affected packages, each once,
      after the affected packages it imports and bound to their rebuilt versions; it happens exactly when some
      reachable package changed and nothing reachable is missing, on an import cycle, or affected but immutable or
      uncompilable.  It binds nothing stale exactly if in each package every affected package that it newly imports is
      finished before it. */
  method ReloadDependencies(inputs: Inputs) returns (outcome: Outcome, rebuilt: map<nat, map<string, Binding>>)
    ensures inputs.changed == {} ==> outcome.Valid? && rebuilt == map[]
    ensures inputs.changed != {} && outcome.Valid? ==> CanReload(inputs) && IsReload(inputs, rebuilt)
    ensures inputs.changed != {} && outcome.Valid? ==> forall id :: id in rebuilt ==>
      (BindsNothingStale(inputs, id, rebuilt[id]) <==> AddedFinishFirst(inputs, id))
    ensures outcome.Invalid? ==> !CanReload(inputs)
    ensures outcome.Interrupted? ==>
      exists id :: Reachable(inputs, id) && Affected(inputs, id) && inputs.check(id).Cancelled?
  {
    hide Reachable, Affected, Blocked, CanReload, IsReload, BindsNothingStale, AddedFinishFirst;
    if inputs.changed == {} {
      return Valid, map[];
    }
    var valid, directlyChanged := CollectDirect(inputs);
    if !valid || directlyChanged == {} {
      NothingToReload(inputs, directlyChanged);
      return Invalid, map[];
    }
    outcome, rebuilt := RefreshRoots(inputs, directlyChanged);
    if outcome.Valid? {
      forall id | id in rebuilt
        ensures BindsNothingStale(inputs, id, rebuilt[id]) <==> AddedFinishFirst(inputs, id)
      {
        BindsNothingStaleExactly(inputs, rebuilt, id);
      }
    }
  }

  lemma FinishAllSnoc(g: map<nat, Package>, ids: seq<nat>, r: nat)
    requires r < |ids|
    ensures FinishAll(g, ids[..r + 1], [], {}) == Finish(g, ids[r], FinishAll(g, ids[..r], [], {}), {})
    ensures FinishAll(g, [], [], {}) == []
  {
    assert ids[..r + 1][..r] == ids[..r];
  }

  /** The second search, from each root in turn. */
  method RefreshRoots(inputs: Inputs, directlyChanged: set<nat>)
    returns (outcome: Outcome, rebuilt: map<nat, map<string, Binding>>)
    requires directlyChanged != {} && forall id :: id in directlyChanged <==> Reachable(inputs, id) && inputs.Direct(id)
    ensures outcome.Valid? ==> CanReload(inputs) && IsReload(inputs, rebuilt)
    ensures outcome.Invalid? ==> !CanReload(inputs)
    ensures outcome.Interrupted? ==>
      exists id :: Reachable(inputs, id) && Affected(inputs, id) && inputs.check(id).Cancelled?
  {
    hide Reachable, Affected, Blocked, CanReload, IsReload, Finish, Topological, StackedBy, SettledBy;
    var reload := new Reload(inputs, directlyChanged);
    var roots := Ids(inputs.roots);
    assert roots[..0] == [] && reload.finished == FinishAll(inputs.graph, [], [], {});
    for r := 0 to |inputs.roots|
      invariant reload.inputs == inputs && reload.directlyChanged == directlyChanged && reload.Good()
      invariant reload.active == [] && reload.finished == FinishAll(inputs.graph, roots[..r], [], {})
      invariant forall q :: 0 <= q < r ==> inputs.roots[q].id in reload.finished
    {
      RootIsReachable(inputs, r);
      FinishAllSnoc(inputs.graph, roots, r);
      assert reload.ActiveIds() == {};
      var changed;
      changed, outcome := reload.Refresh(inputs.roots[r].id);
      if !outcome.Valid? {
        if outcome.Invalid? {
          ExplainedIsRefused(inputs, outcome);
        }
        return outcome, map[];
      }
    }
    assert roots[..|roots|] == roots;
    FinishedIsReload(reload);
    return Valid, reload.freshById;
  }

  lemma RootIsReachable(inputs: Inputs, r: nat)
    requires r < |inputs.roots|
    ensures Reachable(inputs, inputs.roots[r].id)
  {
    assert IsRoot(inputs, inputs.roots[r].id);
    ReachesSelf(inputs.graph, inputs.roots[r].id);
  }

  lemma {:induction false} PathIsFinished(inputs: Inputs, finished: seq<nat>, p: seq<nat>)
    requires Topological(inputs, finished) && IsImportPath(inputs.graph, p) && p[0] in finished
    ensures p[|p| - 1] in finished
    decreases |p|
  {
    if |p| > 1 {
      PathIsFinished(inputs, finished, p[..|p| - 1]);
      var i :| 0 <= i < |finished| && finished[i] == p[|p| - 2];
      assert Edge(inputs.graph, finished[i], p[|p| - 1]);
    }
  }

  lemma EverythingFinished(reload: Reload)
    requires reload.Good()
    requires forall q :: 0 <= q < |reload.inputs.roots| ==> reload.inputs.roots[q].id in reload.finished
    ensures forall id :: Reachable(reload.inputs, id) ==> id in reload.finished
  {
    forall id | Reachable(reload.inputs, id)
      ensures id in reload.finished
    {
      var root :| IsRoot(reload.inputs, root) && Reaches(reload.inputs.graph, root, id);
      var p :| Path(reload.inputs.graph, p, root, id);
      PathIsFinished(reload.inputs, reload.finished, p);
    }
  }
}
