/** Merging the diagnostics of one file over a matrix of build targets (internal/cli/lint_targets.go). */
module TargetMerge {
  import opened Diagnostics
  import opened Encoding
  import opened Ordering
  import opened Selecting
  import opened Sorting

  /** Everything but the targets. */
  function Body(d: Diagnostic): Diagnostic {
    d.(targets := [])
  }

  function TextAtMost(a: Text, b: Text): bool {
    CompareText(a, b) <= 0
  }

  lemma TextOrder()
    ensures Linear(TextAtMost) && Antisymmetric(TextAtMost)
  {
    forall a: Text, b: Text, c: Text
      ensures TextAtMost(a, b) || TextAtMost(b, a)
      ensures TextAtMost(a, b) && TextAtMost(b, a) ==> a == b
      ensures TextAtMost(a, b) && TextAtMost(b, c) ==> TextAtMost(a, c)
    {
      TextLaws(a, b, c);
    }
  }

  /** `mergeTargetNames`. */
  function MergeNames(left: seq<Text>, right: seq<Text>): seq<Text> {
    Compact(Sort(left + right, TextAtMost))
  }

  /** Ascending, once each. */
  ghost predicate Ascending(names: seq<Text>) {
    Sorted(names, TextAtMost) && Unrepeated(names)
  }

  lemma MergedNames(left: seq<Text>, right: seq<Text>)
    ensures Ascending(MergeNames(left, right))
    ensures forall n :: n in MergeNames(left, right) <==> n in left || n in right
  {
    TextOrder();
    SortIsSorted(left + right, TextAtMost);
    SortKeepsElements(left + right, TextAtMost);
    CompactSorted(Sort(left + right, TextAtMost), TextAtMost);
  }

  lemma AscendingIsUnique(xs: seq<Text>, ys: seq<Text>)
    requires Ascending(xs) && Ascending(ys) && forall n :: n in xs <==> n in ys
    ensures xs == ys
  {
    TextOrder();
    SameElementsSameMultiset(xs, ys);
    SortedIsUnique(xs, ys, TextAtMost);
  }

  // ---------- One merge ----------

  /** The first diagnostic with the candidate's body takes its targets; without one the candidate is added. */
  function Absorb(result: seq<Diagnostic>, candidate: Diagnostic): seq<Diagnostic> {
    if |result| == 0 then [candidate]
    else if Body(result[0]) == Body(candidate)
      then [result[0].(targets := MergeNames(result[0].targets, candidate.targets))] + result[1..]
    else [result[0]] + Absorb(result[1..], candidate)
  }

  function AbsorbAll(result: seq<Diagnostic>, candidates: seq<Diagnostic>): seq<Diagnostic> {
    if |candidates| == 0 then result
      else Absorb(AbsorbAll(result, candidates[..|candidates| - 1]), candidates[|candidates| - 1])
  }

  /** The loop over the result looks for the candidate's body. */
  method AbsorbOne(result: seq<Diagnostic>, candidate: Diagnostic) returns (merged: seq<Diagnostic>)
    ensures merged == Absorb(result, candidate)
  {
    for i := 0 to |result|
      invariant forall j :: 0 <= j < i ==> Body(result[j]) != Body(candidate)
    {
      if Body(result[i]) == Body(candidate) {
        AbsorbAt(result, candidate, i);
        return result[i := result[i].(targets := MergeNames(result[i].targets, candidate.targets))];
      }
    }
    AbsorbNew(result, candidate);
    return result + [candidate];
  }

  lemma {:induction false} AbsorbAt(result: seq<Diagnostic>, candidate: Diagnostic, i: nat)
    requires i < |result| && Body(result[i]) == Body(candidate)
      && forall j :: 0 <= j < i ==> Body(result[j]) != Body(candidate)
    ensures Absorb(result, candidate) ==
      result[i := result[i].(targets := MergeNames(result[i].targets, candidate.targets))]
    decreases i
  {
    if i > 0 {
      AbsorbAt(result[1..], candidate, i - 1);
    }
  }

  lemma {:induction false} AbsorbNew(result: seq<Diagnostic>, candidate: Diagnostic)
    requires forall j :: 0 <= j < |result| ==> Body(result[j]) != Body(candidate)
    ensures Absorb(result, candidate) == result + [candidate]
    decreases |result|
  {
    if |result| > 0 {
      AbsorbNew(result[1..], candidate);
    }
  }

  /** `mergeRuleDiagnostics`. */
  method MergeRuleDiagnostics(left: seq<Diagnostic>, right: seq<Diagnostic>) returns (merged: seq<Diagnostic>)
    ensures merged == OrderDiagnostics(AbsorbAll(left, right))
  {
    hide Absorb;
    merged := left;
    for i := 0 to |right|
      invariant merged == AbsorbAll(left, right[..i])
    {
      assert right[..i + 1][..i] == right[..i];
      merged := AbsorbOne(merged, right[i]);
    }
    assert right[..|right|] == right;
    merged := OrderDiagnostics(merged);
  }

  // ---------- What a list of diagnostics says ----------

  /** No two diagnostics with the same body. */
  ghost predicate Once(ds: seq<Diagnostic>) {
    forall i, j :: 0 <= i < j < |ds| ==> Body(ds[i]) != Body(ds[j])
  }

  ghost predicate Tidy(ds: seq<Diagnostic>) {
    Once(ds) && forall d :: d in ds ==> d.targets != [] && Ascending(d.targets)
  }

  /** The diagnostic, apart from its targets, is listed for the target. */
  ghost predicate Lists(ds: seq<Diagnostic>, body: Diagnostic, target: Text) {
    exists d :: d in ds && Body(d) == body && target in d.targets
  }

  /** One more diagnostic changes the list by exactly its own body and targets. */
  lemma AbsorbAdds(ds: seq<Diagnostic>, c: Diagnostic)
    requires Tidy(ds) && c.targets != [] && Ascending(c.targets)
    ensures Tidy(Absorb(ds, c))
    ensures forall body, t :: Lists(Absorb(ds, c), body, t) <==>
      Lists(ds, body, t) || (body == Body(c) && t in c.targets)
  {
    if i :| 0 <= i < |ds| && Body(ds[i]) == Body(c) {
      AbsorbAt(ds, c, i);
      WidenAt(ds, c, i);
    } else {
      AbsorbNew(ds, c);
      var es := ds + [c];
      assert forall d :: d in es <==> d in ds || d == c;
    }
  }

  lemma WidenAt(ds: seq<Diagnostic>, c: Diagnostic, i: nat)
    requires Tidy(ds) && i < |ds| && Body(ds[i]) == Body(c)
    ensures var es := ds[i := ds[i].(targets := MergeNames(ds[i].targets, c.targets))];
      Tidy(es) && forall body, t :: Lists(es, body, t) <==> Lists(ds, body, t) || (body == Body(c) && t in c.targets)
  {
    hide MergeNames, Ascending;
    MergedNames(ds[i].targets, c.targets);
    var wider := ds[i].(targets := MergeNames(ds[i].targets, c.targets));
    var es := ds[i := wider];
    assert es[i] == wider && ds[i].targets[0] in wider.targets;
    forall d | d in es
      ensures d.targets != [] && Ascending(d.targets)
    {
      assert d == wider || d in ds;
    }
    forall body, t
      ensures Lists(es, body, t) <==> Lists(ds, body, t) || (body == Body(c) && t in c.targets)
    {
      if Lists(es, body, t) {
        var d :| d in es && Body(d) == body && t in d.targets;
        assert d == wider || d in ds;
      }
      if Lists(ds, body, t) {
        var j :| 0 <= j < |ds| && Body(ds[j]) == body && t in ds[j].targets;
        assert es[j] in es;
      }
    }
  }

  lemma {:induction false} AbsorbAllAdds(ds: seq<Diagnostic>, cs: seq<Diagnostic>)
    requires Tidy(ds) && forall c :: c in cs ==> c.targets != [] && Ascending(c.targets)
    ensures Tidy(AbsorbAll(ds, cs))
    ensures forall body, t :: Lists(AbsorbAll(ds, cs), body, t) <==> Lists(ds, body, t) || Lists(cs, body, t)
    decreases |cs|
  {
    hide Absorb;
    if |cs| > 0 {
      var init, last := cs[..|cs| - 1], cs[|cs| - 1];
      AbsorbAllAdds(ds, init);
      AbsorbAdds(AbsorbAll(ds, init), last);
      ListsSnoc(init, last);
      assert cs == init + [last];
    }
  }

  lemma ListsSnoc(cs: seq<Diagnostic>, c: Diagnostic)
    ensures forall body, t :: Lists(cs + [c], body, t) <==> Lists(cs, body, t) || (body == Body(c) && t in c.targets)
  {
    assert forall d :: d in cs + [c] <==> d in cs || d == c;
  }

  /** Reordering changes nothing of this. */
  lemma SameDiagnostics(ds: seq<Diagnostic>, es: seq<Diagnostic>)
    requires multiset(ds) == multiset(es)
    ensures Once(ds) ==> Once(es)
    ensures Tidy(ds) ==> Tidy(es)
    ensures forall body, t :: Lists(es, body, t) <==> Lists(ds, body, t)
  {
    forall d
      ensures d in es <==> d in ds
    {
      assert d in multiset(es) <==> d in multiset(ds);
    }
    if Once(ds) {
      forall d
        ensures multiset(es)[d] <= 1
      {
        UnrepeatedCount(ds, d);
      }
      CountedIsUnrepeated(es);
      forall i, j | 0 <= i < j < |es|
        ensures Body(es[i]) != Body(es[j])
      {
        assert es[i] in ds && es[j] in ds && multiset(es)[es[i]] <= 1;
        var a :| 0 <= a < |ds| && ds[a] == es[i];
        var b :| 0 <= b < |ds| && ds[b] == es[j];
      }
    }
  }

  /** Tidy lists that say the same are the same but for their order. */
  lemma TidyIsDetermined(ds: seq<Diagnostic>, es: seq<Diagnostic>)
    requires Tidy(ds) && Tidy(es) && forall body, t :: Lists(ds, body, t) <==> Lists(es, body, t)
    ensures multiset(ds) == multiset(es)
  {
    forall d
      ensures d in ds <==> d in es
    {
      if d in ds {
        SaysTheSame(ds, es, d);
      }
      if d in es {
        SaysTheSame(es, ds, d);
      }
    }
    SameElementsSameMultiset(ds, es);
  }

  lemma SaysTheSame(ds: seq<Diagnostic>, es: seq<Diagnostic>, d: Diagnostic)
    requires Tidy(ds) && Tidy(es) && d in ds
    requires forall body, t :: Lists(ds, body, t) <==> Lists(es, body, t)
    ensures d in es
  {
    assert Lists(ds, Body(d), d.targets[0]);
    var e :| e in es && Body(e) == Body(d) && d.targets[0] in e.targets;
    forall t
      ensures t in d.targets <==> t in e.targets
    {
      if t in d.targets {
        assert Lists(ds, Body(d), t);
        var f :| f in es && Body(f) == Body(d) && t in f.targets;
        assert f == e;
      }
      if t in e.targets {
        assert Lists(es, Body(d), t);
        var f :| f in ds && Body(f) == Body(d) && t in f.targets;
        assert f == d;
      }
    }
    AscendingIsUnique(d.targets, e.targets);
    assert d == Body(d).(targets := d.targets) && e == Body(e).(targets := e.targets);
  }

  // ---------- The whole matrix ----------

  /** What one target's run found in the file. */
  datatype Run = Run(target: Text, found: seq<Diagnostic>)

  /** `tagDiagnostics`. */
  function Tagged(run: Run): seq<Diagnostic> {
    seq(|run.found|, i requires 0 <= i < |run.found| => run.found[i].(targets := [run.target]))
  }

  /** The first run's diagnostics are taken as they are; each later run is merged in. */
  function Folded(runs: seq<Run>): seq<Diagnostic>
    requires |runs| > 0
  {
    if |runs| == 1 then Tagged(runs[0])
    else OrderDiagnostics(AbsorbAll(Folded(runs[..|runs| - 1]), Tagged(runs[|runs| - 1])))
  }

  method MergeTargets(runs: seq<Run>) returns (merged: seq<Diagnostic>)
    requires |runs| > 0
    ensures merged == Folded(runs)
  {
    merged := Tagged(runs[0]);
    assert runs[..1][0] == runs[0];
    for i := 1 to |runs|
      invariant merged == Folded(runs[..i])
    {
      assert runs[..i + 1][..i] == runs[..i];
      merged := MergeRuleDiagnostics(merged, Tagged(runs[i]));
    }
    assert runs[..|runs|] == runs;
  }

  /** Some run for the target found the diagnostic. */
  ghost predicate Found(runs: seq<Run>, body: Diagnostic, target: Text) {
    exists r :: r in runs && r.target == target && HasBody(r.found, body)
  }

  ghost predicate HasBody(ds: seq<Diagnostic>, body: Diagnostic) {
    exists d :: d in ds && Body(d) == body
  }

  lemma TaggedLists(run: Run)
    ensures forall c :: c in Tagged(run) ==> c.targets != [] && Ascending(c.targets)
    ensures forall body, t :: Lists(Tagged(run), body, t) <==> t == run.target && HasBody(run.found, body)
    ensures Once(Tagged(run)) <==> Once(run.found)
  {
    var tagged := Tagged(run);
    assert forall i :: 0 <= i < |tagged| ==> Body(tagged[i]) == Body(run.found[i]) && tagged[i].targets == [run.target];
    forall body, t
      ensures Lists(tagged, body, t) <==> t == run.target && HasBody(run.found, body)
    {
      if Lists(tagged, body, t) {
        var i :| 0 <= i < |tagged| && Body(tagged[i]) == body && t in tagged[i].targets;
        assert run.found[i] in run.found;
      }
      if t == run.target && HasBody(run.found, body) {
        var i :| 0 <= i < |run.found| && Body(run.found[i]) == body;
        assert tagged[i] in tagged && t in tagged[i].targets;
      }
    }
  }

  lemma FoundSnoc(runs: seq<Run>, run: Run, body: Diagnostic, t: Text)
    ensures Found(runs + [run], body, t) <==> Found(runs, body, t) || (t == run.target && HasBody(run.found, body))
  {
    assert forall r :: r in runs + [run] <==> r in runs || r == run;
  }

  /** Merging one more run adds what it found. */
  lemma MergeAdds(ds: seq<Diagnostic>, run: Run, body: Diagnostic, t: Text)
    requires Tidy(ds)
    ensures Tidy(OrderDiagnostics(AbsorbAll(ds, Tagged(run))))
    ensures Lists(OrderDiagnostics(AbsorbAll(ds, Tagged(run))), body, t) <==>
      Lists(ds, body, t) || (t == run.target && HasBody(run.found, body))
  {
    hide AbsorbAll, Lists, OrderDiagnostics, Tidy, Ascending, HasBody, Tagged;
    var all := AbsorbAll(ds, Tagged(run));
    TaggedLists(run);
    AbsorbAllAdds(ds, Tagged(run));
    OrderIsCanonical(all, all);
    SameDiagnostics(all, OrderDiagnostics(all));
  }

  lemma FoldedUnfolds(runs: seq<Run>)
    requires |runs| > 0
    ensures |runs| == 1 ==> Folded(runs) == Tagged(runs[0])
    ensures |runs| > 1 ==>
      Folded(runs) == OrderDiagnostics(AbsorbAll(Folded(runs[..|runs| - 1]), Tagged(runs[|runs| - 1])))
  {
    hide AbsorbAll, OrderDiagnostics, Tagged;
  }

  lemma {:induction false} MergedSays(runs: seq<Run>, body: Diagnostic, t: Text)
    requires |runs| > 0 && Once(runs[0].found)
    ensures Tidy(Folded(runs)) && (Lists(Folded(runs), body, t) <==> Found(runs, body, t))
    decreases |runs|
  {
    hide *;
    FoldedUnfolds(runs);
    var init, last := runs[..|runs| - 1], runs[|runs| - 1];
    FoundSnoc(init, last, body, t);
    assert runs == init + [last];
    if |runs| == 1 {
      OneRun(last, body, t);
      NothingFound(body, t);
      assert init == [];
    } else {
      MergedSays(init, body, t);
      MergeAdds(Folded(init), last, body, t);
    }
  }

  lemma OneRun(run: Run, body: Diagnostic, t: Text)
    requires Once(run.found)
    ensures Tidy(Tagged(run)) && (Lists(Tagged(run), body, t) <==> t == run.target && HasBody(run.found, body))
  {
    hide Lists, HasBody, Tagged, Once, Ascending;
    TaggedLists(run);
    TaggedIsTidy(run);
  }

  lemma MergedIsTidy(runs: seq<Run>)
    requires |runs| > 0 && Once(runs[0].found)
    ensures Tidy(Folded(runs))
  {
    var body: Diagnostic :| true;
    MergedSays(runs, body, []);
  }

  /** Each diagnostic is listed once, with exactly the targets that found it, in ascending order. */
  lemma MergedSaysWhatWasFound(runs: seq<Run>)
    requires |runs| > 0 && Once(runs[0].found)
    ensures Tidy(Folded(runs)) && forall body, t :: Lists(Folded(runs), body, t) <==> Found(runs, body, t)
  {
    hide Folded, Lists, Found, Once, Tidy;
    MergedIsTidy(runs);
    forall body, t
      ensures Lists(Folded(runs), body, t) <==> Found(runs, body, t)
    {
      MergedSays(runs, body, t);
    }
  }

  lemma TaggedIsTidy(run: Run)
    requires Once(run.found)
    ensures Tidy(Tagged(run))
  {
    TaggedLists(run);
  }

  lemma NothingFound(body: Diagnostic, t: Text)
    ensures !Found([], body, t)
  {
  }

  /** Over two or more targets, the merged list does not depend on the order of the targets. */
  lemma TargetOrderDoesNotMatter(runs: seq<Run>, others: seq<Run>)
    requires |runs| > 1 && |others| > 1 && forall r :: r in runs <==> r in others
    requires forall r :: r in runs ==> Once(r.found)
    ensures Folded(runs) == Folded(others)
  {
    hide AbsorbAll, Tagged, Lists, OrderDiagnostics, HasBody, Once, Ascending;
    assert runs[0] in runs && others[0] in others;
    MergedSaysWhatWasFound(runs);
    MergedSaysWhatWasFound(others);
    FoundIsASet(runs, others);
    TidyIsDetermined(Folded(runs), Folded(others));
    FoldedIsOrdered(runs);
    FoldedIsOrdered(others);
    AtMostIsLinear();
    SortedIsUnique(Folded(runs), Folded(others), AtMost);
  }

  lemma FoundIsASet(runs: seq<Run>, others: seq<Run>)
    requires forall r :: r in runs <==> r in others
    ensures forall body, t :: Found(runs, body, t) <==> Found(others, body, t)
  {
  }

  lemma FoldedIsOrdered(runs: seq<Run>)
    requires |runs| > 1
    ensures Sorted(Folded(runs), AtMost)
  {
    var all := AbsorbAll(Folded(runs[..|runs| - 1]), Tagged(runs[|runs| - 1]));
    OrderIsCanonical(all, all);
  }

  lemma AbsorbKeepsRepeats(ds: seq<Diagnostic>, c: Diagnostic)
    requires !Once(ds)
    ensures !Once(Absorb(ds, c))
  {
    var i, j :| 0 <= i < j < |ds| && Body(ds[i]) == Body(ds[j]);
    BodiesRemain(ds, c);
    assert Body(Absorb(ds, c)[i]) == Body(Absorb(ds, c)[j]);
  }

  lemma {:induction false} BodiesRemain(ds: seq<Diagnostic>, c: Diagnostic)
    ensures |ds| <= |Absorb(ds, c)| && forall i :: 0 <= i < |ds| ==> Body(Absorb(ds, c)[i]) == Body(ds[i])
    decreases |ds|
  {
    if |ds| > 0 && Body(ds[0]) != Body(c) {
      BodiesRemain(ds[1..], c);
    }
  }

  lemma {:induction false} AbsorbAllKeepsRepeats(ds: seq<Diagnostic>, cs: seq<Diagnostic>)
    requires !Once(ds)
    ensures !Once(AbsorbAll(ds, cs))
    decreases |cs|
  {
    if |cs| > 0 {
      AbsorbAllKeepsRepeats(ds, cs[..|cs| - 1]);
      AbsorbKeepsRepeats(AbsorbAll(ds, cs[..|cs| - 1]), cs[|cs| - 1]);
    }
  }

  /** A diagnostic is listed twice exactly if the first run, whichever target that is, reports one twice. */
  lemma {:induction false} RepeatsComeFromTheFirstRun(runs: seq<Run>)
    requires |runs| > 0
    ensures Once(Folded(runs)) <==> Once(runs[0].found)
    decreases |runs|
  {
    hide Once, AbsorbAll, OrderDiagnostics, Tagged;
    if Once(runs[0].found) {
      MergedSaysWhatWasFound(runs);
    } else if |runs| == 1 {
      TaggedLists(runs[0]);
    } else {
      RepeatsComeFromTheFirstRun(runs[..|runs| - 1]);
      var all := AbsorbAll(Folded(runs[..|runs| - 1]), Tagged(runs[|runs| - 1]));
      AbsorbAllKeepsRepeats(Folded(runs[..|runs| - 1]), Tagged(runs[|runs| - 1]));
      OrderIsCanonical(all, all);
      SameDiagnostics(OrderDiagnostics(all), all);
    }
  }

  // ---------- Values without targets ----------

  ghost function Among<T(!new)>(values: seq<T>): T -> bool {
    x => x in values
  }

  /** `intersectComparableValues`: what both have, as the left has it. */
  method IntersectValues<T(==, !new)>(left: seq<T>, right: seq<T>) returns (both: seq<T>)
    ensures both == Filter(left, Among(right))
  {
    both := [];
    for i := 0 to |left|
      invariant both == Filter(left[..i], Among(right))
    {
      FilterSnoc(left, i, Among(right));
      var found := false;
      for j := 0 to |right|
        invariant !found && forall k :: 0 <= k < j ==> right[k] != left[i]
      {
        if right[j] == left[i] {
          found := true;
          break;
        }
      }
      if found {
        both := both + [left[i]];
      }
    }
    assert left[..|left|] == left;
  }

  /** `mergeComparableValues`: the left values, and the first of each value only the right has. */
  method MergeValues<T(==, !new)>(left: seq<T>, right: seq<T>) returns (merged: seq<T>)
    ensures left <= merged && forall x :: x in merged <==> x in left || x in right
    ensures Unrepeated(left) ==> Unrepeated(merged)
  {
    merged := left;
    for i := 0 to |right|
      invariant left <= merged && forall x :: x in merged <==> x in left || x in right[..i]
      invariant Unrepeated(left) ==> Unrepeated(merged)
    {
      assert right[..i + 1] == right[..i] + [right[i]];
      var found := false;
      for j := 0 to |merged|
        invariant !found && forall k :: 0 <= k < j ==> merged[k] != right[i]
      {
        if merged[j] == right[i] {
          found := true;
          break;
        }
      }
      if !found {
        merged := merged + [right[i]];
      }
    }
    assert right[..|right|] == right;
  }

  /** The unused suppressions of a file left after all targets that list it. */
  ghost function Intersected<T(!new)>(lists: seq<seq<T>>): seq<T>
    requires |lists| > 0
  {
    if |lists| == 1 then lists[0] else Filter(Intersected(lists[..|lists| - 1]), Among(lists[|lists| - 1]))
  }

  lemma {:induction false} FilterHas<T(!new)>(xs: seq<T>, keep: T -> bool, x: T)
    ensures x in Filter(xs, keep) <==> x in xs && keep(x)
    decreases |xs|
  {
    if |xs| > 0 {
      FilterHas(xs[..|xs| - 1], keep, x);
      assert xs == xs[..|xs| - 1] + [xs[|xs| - 1]];
    }
  }

  /** A suppression in a file is reported unused exactly if it is unused for every target that lists the file. */
  lemma {:induction false} UnusedForEveryTarget<T(!new)>(lists: seq<seq<T>>, x: T)
    requires |lists| > 0
    ensures x in Intersected(lists) <==> forall i :: 0 <= i < |lists| ==> x in lists[i]
    decreases |lists|
  {
    if |lists| > 1 {
      var init := lists[..|lists| - 1];
      UnusedForEveryTarget(init, x);
      FilterHas(Intersected(init), Among(lists[|lists| - 1]), x);
      assert forall i :: 0 <= i < |init| ==> init[i] == lists[i];
    }
  }
}
