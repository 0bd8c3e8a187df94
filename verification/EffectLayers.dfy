/** The layers in which the dependencies of the selected packages are analyzed for their effects
    (loadNativeEffectFacts and localEffectImports in internal/analysis/effect_facts.go). */
module EffectLayers {

  /** What each package imports, and which packages belong to local modules. */
  datatype Graph = Graph(imports: map<nat, seq<nat>>, local: set<nat>)

  predicate Imports(g: Graph, a: nat, b: nat) {
    a in g.imports && b in g.imports[a] && b in g.local
  }

  /** An import path of `n` steps through local packages leads from a root to `b`. */
  ghost predicate ReachesIn(g: Graph, roots: seq<nat>, n: nat, b: nat) {
    if n == 0 then b in roots else exists a :: ReachesIn(g, roots, n - 1, a) && Imports(g, a, b)
  }

  /** The shortest such path has `n` steps. */
  ghost predicate Nearest(g: Graph, roots: seq<nat>, n: nat, b: nat) {
    ReachesIn(g, roots, n, b) && forall m: nat :: m < n ==> !ReachesIn(g, roots, m, b)
  }

  ghost predicate ReachedBy(g: Graph, roots: seq<nat>, n: nat, b: nat) {
    exists m: nat :: m <= n && ReachesIn(g, roots, m, b)
  }

  /** The last step of a shortest path comes from a package one step nearer. */
  lemma NearestBefore(g: Graph, roots: seq<nat>, n: nat, b: nat) returns (a: nat)
    requires n > 0 && Nearest(g, roots, n, b)
    ensures Nearest(g, roots, n - 1, a) && Imports(g, a, b)
  {
    a :| ReachesIn(g, roots, n - 1, a) && Imports(g, a, b);
    forall m: nat | m < n - 1
      ensures !ReachesIn(g, roots, m, a)
    {
      if ReachesIn(g, roots, m, a) {
        assert ReachesIn(g, roots, m + 1, b);
      }
    }
  }

  ghost predicate ImportedBy(g: Graph, packages: seq<nat>, b: nat) {
    exists a :: a in packages && Imports(g, a, b)
  }

  lemma ImportedBySnoc(g: Graph, packages: seq<nat>, k: nat, b: nat)
    requires k < |packages|
    ensures ImportedBy(g, packages[..k + 1], b) <==> ImportedBy(g, packages[..k], b) || Imports(g, packages[k], b)
  {
    assert packages[k] in packages[..k + 1];
    assert forall a :: a in packages[..k] ==> a in packages[..k + 1];
  }

  /** `localEffectImports`: what the packages import locally and has not been seen. */
  method LocalImports(g: Graph, packages: seq<nat>, before: set<nat>) returns (next: seq<nat>, seen: set<nat>)
    ensures forall b :: b in next <==> b !in before && ImportedBy(g, packages, b)
    ensures seen == before + set b | b in next
  {
    next, seen := [], before;
    for k := 0 to |packages|
      invariant forall b :: b in next <==> b !in before && ImportedBy(g, packages[..k], b)
      invariant seen == before + set b | b in next
    {
      forall b
        ensures ImportedBy(g, packages[..k + 1], b) <==> ImportedBy(g, packages[..k], b) || Imports(g, packages[k], b)
      {
        ImportedBySnoc(g, packages, k, b);
      }
      if packages[k] in g.imports {
        var imports := g.imports[packages[k]];
        for i := 0 to |imports|
          invariant forall b :: b in next <==>
              (b !in before && (ImportedBy(g, packages[..k], b) || (b in imports[..i] && b in g.local)))
          invariant seen == before + set b | b in next
        {
          if imports[i] in g.local && imports[i] !in seen {
            seen := seen + {imports[i]};
            next := next + [imports[i]];
          }
        }
        assert imports[..|imports|] == imports;
      }
    }
    assert packages[..|packages|] == packages;
  }

  /** The layers hold each local package at its distance from the roots. */
  ghost predicate IsLayered(g: Graph, roots: seq<nat>, layers: seq<seq<nat>>) {
    && (forall k, b :: 0 <= k < |layers| ==> (b in layers[k] <==> Nearest(g, roots, k + 1, b)))
    && forall n: nat, b :: Nearest(g, roots, n, b) ==> n <= |layers|
  }

  lemma NextLayer(g: Graph, roots: seq<nat>, n: nat, current: seq<nat>, seen: set<nat>, next: seq<nat>)
    requires forall b :: b in current <==> Nearest(g, roots, n, b)
    requires forall b :: b in seen <==> ReachedBy(g, roots, n, b)
    requires forall b :: b in next <==> b !in seen && ImportedBy(g, current, b)
    ensures forall b :: b in next <==> Nearest(g, roots, n + 1, b)
    ensures forall b :: b in seen || b in next <==> ReachedBy(g, roots, n + 1, b)
  {
    forall b
      ensures b in next <==> Nearest(g, roots, n + 1, b)
    {
      if b in next {
        var a :| a in current && Imports(g, a, b);
        assert ReachesIn(g, roots, n + 1, b);
      }
      if Nearest(g, roots, n + 1, b) {
        var a := NearestBefore(g, roots, n + 1, b);
      }
    }
    forall b
      ensures b in seen || b in next <==> ReachedBy(g, roots, n + 1, b)
    {
      if ReachesIn(g, roots, n + 1, b) && b !in seen {
        assert Nearest(g, roots, n + 1, b);
      }
    }
  }

  lemma {:induction false} NothingFurther(g: Graph, roots: seq<nat>, n: nat, m: nat, b: nat)
    requires n <= m && forall a :: !Nearest(g, roots, n, a)
    ensures !Nearest(g, roots, m, b)
    decreases m
  {
    if m > n && Nearest(g, roots, m, b) {
      var a := NearestBefore(g, roots, m, b);
      NothingFurther(g, roots, n, m - 1, a);
    }
  }

  /** The loading loop of `loadNativeEffectFacts`. */
  method Layers(g: Graph, roots: seq<nat>) returns (layers: seq<seq<nat>>)
    ensures IsLayered(g, roots, layers)
  {
    layers := [];
    var seen := set b | b in roots;
    ghost var before := seen;
    forall b
      ensures b in roots <==> Nearest(g, roots, 0, b)
      ensures b in roots <==> ReachedBy(g, roots, 0, b)
    {
      assert ReachesIn(g, roots, 0, b) <==> b in roots;
    }
    var current;
    current, seen := LocalImports(g, roots, seen);
    NextLayer(g, roots, 0, roots, before, current);
    while current != []
      invariant forall b :: b in current <==> Nearest(g, roots, |layers| + 1, b)
      invariant forall b :: b in seen <==> ReachedBy(g, roots, |layers| + 1, b)
      invariant forall k, b :: 0 <= k < |layers| ==> (b in layers[k] <==> Nearest(g, roots, k + 1, b))
      decreases g.local - seen, |current|
    {
      layers := layers + [current];
      before := seen;
      ghost var last := current;
      current, seen := LocalImports(g, current, seen);
      NextLayer(g, roots, |layers|, last, before, current);
      if current != [] {
        assert current[0] in current;
        assert current[0] in g.local - before && current[0] !in g.local - seen;
      }
    }
    ghost var end: nat := |layers| + 1;
    forall b
      ensures !Nearest(g, roots, end, b)
    {
      assert b !in current;
    }
    forall n: nat, b | n > |layers|
      ensures !Nearest(g, roots, n, b)
    {
      NothingFurther(g, roots, end, n, b);
    }
  }

  // ---------- Which facts are there in time ----------

  /** The layers are analyzed from the last to the first: facts about a package are there for the packages of its own
      layer and of those before. */
  ghost predicate InTime(layers: seq<seq<nat>>, i: nat, b: nat) {
    exists j :: i <= j < |layers| && b in layers[j]
  }

  /** An imported package is analyzed in time exactly if no import path to it is shorter than all to the importer. */
  lemma InTimeExactly(g: Graph, roots: seq<nat>, layers: seq<seq<nat>>, i: nat, a: nat, b: nat)
    requires IsLayered(g, roots, layers) && i < |layers| && a in layers[i] && Imports(g, a, b)
    ensures InTime(layers, i, b) <==> !ReachedBy(g, roots, i, b)
  {
    if !ReachedBy(g, roots, i, b) {
      assert ReachesIn(g, roots, i + 2, b);
      var n: nat := if ReachesIn(g, roots, i + 1, b) then i + 1 else i + 2;
      assert Nearest(g, roots, n, b);
      assert b in layers[n - 1];
    }
    if j :| i <= j < |layers| && b in layers[j] {
      assert Nearest(g, roots, j + 1, b);
    }
  }
}
