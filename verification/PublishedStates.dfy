/** Return states over several analyses, each of which takes as facts what earlier ones found (loadNativeEffectFacts and
    addReturnStates in internal/analysis/effect_facts.go). */
module PublishedStates {
  import opened EffectLayers
  import opened ReturnStates
  import opened Wrappers
  import ControlFlow
  import NoReturn

  function FactOf(prog: Program, f: nat, key: Key): NilState {
    if f in prog.externals then prog.externals[f].Fact(key) else Unknown
  }

  /** Some function of the program may hand its caller what a call of `g` returns. */
  ghost predicate Mentions(prog: Program, g: nat) {
    exists f, r, i ::
      && f in prog.definitions && 0 <= r < |prog.definitions[f].returned| && 0 <= i < |prog.definitions[f].returned[r]|
      && prog.definitions[f].returned[r][i].callee == Some(g)
  }

  /** `part` has some functions of `whole` and knows the signatures of those that they call. */
  ghost predicate IsPart(whole: Program, part: Program) {
    && (forall f :: f in part.definitions ==> f in whole.definitions && part.definitions[f] == whole.definitions[f])
    && forall g :: Mentions(part, g) ==> part.Signature(g) == whole.Signature(g)
  }

  ghost predicate FoundBefore(parts: seq<Program>, k: nat, g: nat, key: Key, s: NilState)
    requires k <= |parts|
  {
    exists j :: 0 <= j < k && Derivable(parts[j], g, key, s)
  }

  /** The facts of every analysis about functions of the program were found by an earlier one. */
  ghost predicate PublishedOnly(whole: Program, parts: seq<Program>) {
    forall k :: 0 <= k < |parts| ==>
      && IsPart(whole, parts[k])
      && forall g, key :: g !in parts[k].definitions && FactOf(parts[k], g, key) != Unknown ==>
           if g in whole.definitions then FoundBefore(parts, k, g, key, FactOf(parts[k], g, key))
           else FactOf(whole, g, key) == FactOf(parts[k], g, key)
  }

  /** And every analysis has all facts that it may need: those about functions of earlier analyses, and of none
      later. */
  ghost predicate PublishedInFull(whole: Program, parts: seq<Program>) {
    forall k :: 0 <= k < |parts| ==>
      && IsPart(whole, parts[k])
      && forall g :: g !in parts[k].definitions && Mentions(parts[k], g) ==>
           if g in whole.definitions then
             exists j :: 0 <= j < k && g in parts[j].definitions && PassesOn(parts[j], parts[k], g)
           else forall key :: FactOf(parts[k], g, key) == FactOf(whole, g, key)
  }

  ghost predicate PassesOn(one: Program, two: Program, g: nat) {
    forall key, s :: Derivable(one, g, key, s) ==> FactOf(two, g, key) == s
  }

  // ---------- One return statement in a part and in the whole ----------

  /** What the whole program makes of a callee that is no function of the part. */
  function WholeTerm(whole: Program, g: nat, key: Key): Term {
    if g in whole.definitions then Delegate(g, key) else Value(FactOf(whole, g, key))
  }

  /** The terms of a return statement are the same, or the part takes a fact where the whole may ask. */
  ghost predicate TakesFact(whole: Program, part: Program, g: nat, key: Key, t: Term, u: Term) {
    g !in part.definitions && t == Value(FactOf(part, g, key)) && u == WholeTerm(whole, g, key)
  }

  ghost predicate Matches(whole: Program, part: Program, t: Term, u: Term) {
    t == u || exists g, key :: Mentions(part, g) && TakesFact(whole, part, g, key, t, u)
  }

  lemma DelegatedMatches(whole: Program, part: Program, e: Expr, key: Key, wants: seq<ResultType>)
    requires IsPart(whole, part) && (e.callee.Some? ==> Mentions(part, e.callee.value))
    ensures Matches(whole, part, Delegated(part, e, key, wants), Delegated(whole, e, key, wants))
  {
    hide Mentions;
    var t, u := Delegated(part, e, key, wants), Delegated(whole, e, key, wants);
    if e.callee.Some? && e.callee.value !in part.definitions && t != u {
      assert TakesFact(whole, part, e.callee.value, key, t, u);
    }
  }

  predicate IsReturn(prog: Program, f: nat, r: nat) {
    f in prog.definitions && r < |prog.definitions[f].returned|
  }

  /** What return `r` of a function of `part` comes to with what `prog` knows. */
  function TermAt(part: Program, prog: Program, f: nat, r: nat, key: Key): Term
    requires IsReturn(part, f, r)
  {
    TermOf(prog, part.definitions[f], part.definitions[f].returned[r], key)
  }

  lemma TermMatches(whole: Program, part: Program, f: nat, r: nat, key: Key)
    requires IsPart(whole, part) && IsReturn(part, f, r)
    ensures Matches(whole, part, TermAt(part, part, f, r, key), TermAt(part, whole, f, r, key))
  {
    hide Delegated, Matches, IsPart;
    var def := part.definitions[f];
    var ret := def.returned[r];
    var n := |def.results|;
    forall e, k, wants | e in ret
      ensures Matches(whole, part, Delegated(part, e, k, wants), Delegated(whole, e, k, wants))
    {
      var i :| 0 <= i < |ret| && ret[i] == e;
      assert e.callee.Some? ==> Mentions(part, e.callee.value);
      DelegatedMatches(whole, part, e, k, wants);
    }
    forall t: Term
      ensures Matches(whole, part, t, t)
    {
      SameMatches(whole, part, t);
    }
  }

  lemma SameMatches(whole: Program, part: Program, t: Term)
    ensures Matches(whole, part, t, t)
  {
  }

  lemma MatchesSkip(whole: Program, part: Program, t: Term, u: Term)
    requires Matches(whole, part, t, u)
    ensures t == Skip <==> u == Skip
  {
  }

  lemma KnownUnfolds(prog: Program, n: nat, f: nat, key: Key, s: NilState)
    requires Known(prog, n, f, key, s)
    ensures n > 0 && s != Unknown && f in prog.definitions && Active(prog.definitions[f], key)
    ensures exists r: nat :: IsReturn(prog, f, r) && TermAt(prog, prog, f, r, key) != Skip
    ensures forall r: nat :: IsReturn(prog, f, r) ==> Yields(prog, n - 1, TermAt(prog, prog, f, r, key), s)
  {
    hide TermOf, Yields, Active;
    var def := prog.definitions[f];
    var r :| 0 <= r < |def.returned| && TermOf(prog, def, def.returned[r], key) != Skip;
    assert IsReturn(prog, f, r) && TermAt(prog, prog, f, r, key) != Skip;
  }

  /** A function of a part has the same return statements in the whole. */
  lemma SameReturns(whole: Program, part: Program, f: nat, key: Key)
    requires IsPart(whole, part) && f in part.definitions
    ensures f in whole.definitions && whole.definitions[f] == part.definitions[f]
    ensures forall r: nat :: IsReturn(whole, f, r) <==> IsReturn(part, f, r)
    ensures forall r: nat :: IsReturn(part, f, r) ==> TermAt(whole, whole, f, r, key) == TermAt(part, whole, f, r, key)
  {
    hide TermOf, Mentions;
  }

  lemma DerivableFolds(prog: Program, f: nat, key: Key, s: NilState)
    requires f in prog.definitions && Active(prog.definitions[f], key) && s != Unknown
    requires exists r: nat :: IsReturn(prog, f, r) && TermAt(prog, prog, f, r, key) != Skip
    requires forall r: nat :: IsReturn(prog, f, r) ==> DerivableTerm(prog, TermAt(prog, prog, f, r, key), s)
    ensures Derivable(prog, f, key, s)
  {
    hide TermOf, Active, DerivableTerm, Derivable;
    var def := prog.definitions[f];
    forall r | 0 <= r < |def.returned|
      ensures DerivableTerm(prog, TermOf(prog, def, def.returned[r], key), s)
    {
      assert IsReturn(prog, f, r);
    }
    DerivableUnfolds(prog, f, key, s);
  }

  // ---------- Facts taken from earlier analyses are those of the whole program ----------

  /** Whatever an analysis finds with such facts is in the least solution for the whole program. */
  lemma {:induction false} FoundInWhole(whole: Program, parts: seq<Program>, k: nat, n: nat, f: nat, key: Key,
                                        s: NilState)
    requires PublishedOnly(whole, parts) && k < |parts| && Known(parts[k], n, f, key, s)
    ensures Derivable(whole, f, key, s)
    decreases k, n, 0
  {
    hide TermAt, Matches, Yields, Derivable, Active, Known, DerivableTerm, IsReturn, IsPart, FactOf, FoundBefore;
    var part := parts[k];
    assert IsPart(whole, part);
    hide PublishedOnly;
    KnownUnfolds(part, n, f, key, s);
    SameReturns(whole, part, f, key);
    forall r: nat | IsReturn(part, f, r)
      ensures DerivableTerm(whole, TermAt(part, whole, f, r, key), s)
      ensures TermAt(part, part, f, r, key) == Skip <==> TermAt(part, whole, f, r, key) == Skip
    {
      TermMatches(whole, part, f, r, key);
      MatchesSkip(whole, part, TermAt(part, part, f, r, key), TermAt(part, whole, f, r, key));
      TermInWhole(whole, parts, k, n - 1, TermAt(part, part, f, r, key), TermAt(part, whole, f, r, key), s);
    }
    DerivableFolds(whole, f, key, s);
  }

  lemma {:induction false} TermInWhole(whole: Program, parts: seq<Program>, k: nat, n: nat, t: Term, u: Term,
                                       s: NilState)
    requires PublishedOnly(whole, parts) && k < |parts| && s != Unknown
    requires Yields(parts[k], n, t, s) && Matches(whole, parts[k], t, u)
    ensures DerivableTerm(whole, u, s)
    decreases k, n, 1
  {
    hide Known, Mentions, IsPart;
    if t == u {
      if t.Delegate? {
        FoundInWhole(whole, parts, k, n, t.callee, t.key, s);
        DerivableIsDelegated(whole, t.callee, t.key, s);
      } else {
        assert Yields(whole, 0, u, s);
      }
    } else {
      var g, key :| Mentions(parts[k], g) && TakesFact(whole, parts[k], g, key, t, u);
      if g in whole.definitions {
        var j :| 0 <= j < k && Derivable(parts[j], g, key, s);
        var m: nat :| Known(parts[j], m, g, key, s);
        FoundInWhole(whole, parts, j, m, g, key, s);
        DerivableIsDelegated(whole, g, key, s);
      }
    }
  }

  lemma DerivableIsDelegated(prog: Program, g: nat, key: Key, s: NilState)
    requires Derivable(prog, g, key, s)
    ensures DerivableTerm(prog, Delegate(g, key), s)
  {
    hide Known;
    var n: nat :| Known(prog, n, g, key, s);
    assert Yields(prog, n, Delegate(g, key), s);
  }

  /** So it holds of all that callers receive in the whole program, if the states there are safe, and in any case in
      executions without recovered panics and changed results: published facts need not be taken on trust. */
  lemma PublishedHolds(whole: Program, parts: seq<Program>, plain: bool, k: nat, f: nat, key: Key, s: NilState,
                       got: seq<bool>, depth: nat)
    requires PublishedOnly(whole, parts) && k < |parts| && Derivable(parts[k], f, key, s)
    requires (plain || AllSafe(whole)) && Receives(whole, plain, f, got, depth)
    ensures Agrees(key, s, got)
  {
    hide Known, PublishedOnly, AllSafe, Receives;
    var n: nat :| Known(parts[k], n, f, key, s);
    FoundInWhole(whole, parts, k, n, f, key, s);
    var m: nat :| Known(whole, m, f, key, s);
    KnownHolds(whole, plain, m, f, key, s, got, depth);
  }

  // ---------- In full: analysing part by part loses nothing ----------

  lemma {:induction false} WholeIsFound(whole: Program, parts: seq<Program>, k: nat, n: nat, f: nat, key: Key,
                                        s: NilState)
    requires PublishedInFull(whole, parts) && k < |parts| && f in parts[k].definitions && Known(whole, n, f, key, s)
    ensures Derivable(parts[k], f, key, s)
    decreases n, 0
  {
    hide TermAt, Matches, Yields, Derivable, Active, Known, DerivableTerm, IsReturn, IsPart, FactOf, Mentions,
      PassesOn;
    var part := parts[k];
    assert IsPart(whole, part);
    hide PublishedInFull;
    KnownUnfolds(whole, n, f, key, s);
    SameReturns(whole, part, f, key);
    forall r: nat | IsReturn(part, f, r)
      ensures DerivableTerm(part, TermAt(part, part, f, r, key), s)
      ensures TermAt(part, part, f, r, key) == Skip <==> TermAt(part, whole, f, r, key) == Skip
    {
      TermMatches(whole, part, f, r, key);
      MatchesSkip(whole, part, TermAt(part, part, f, r, key), TermAt(part, whole, f, r, key));
      TermIsFound(whole, parts, k, n - 1, f, r, key, s);
    }
    DerivableFolds(part, f, key, s);
  }

  lemma {:induction false} TermIsFound(whole: Program, parts: seq<Program>, k: nat, n: nat, f: nat, r: nat, key: Key,
                                       s: NilState)
    requires PublishedInFull(whole, parts) && k < |parts| && s != Unknown
    requires IsReturn(parts[k], f, r) && Yields(whole, n, TermAt(parts[k], whole, f, r, key), s)
    ensures DerivableTerm(parts[k], TermAt(parts[k], parts[k], f, r, key), s)
    decreases n, 1
  {
    hide Known, Mentions, TermOf;
    var part := parts[k];
    var t, u := TermAt(part, part, f, r, key), TermAt(part, whole, f, r, key);
    assert IsPart(whole, part);
    TermMatches(whole, part, f, r, key);
    hide IsPart;
    if t == u {
      if t.Delegate? {
        TermCallee(part, part.definitions[f], part.definitions[f].returned[r], key);
        WholeIsFound(whole, parts, k, n, t.callee, t.key, s);
        DerivableIsDelegated(part, t.callee, t.key, s);
      } else {
        assert Yields(part, 0, t, s);
      }
    } else {
      var g, asked :| Mentions(part, g) && TakesFact(whole, part, g, asked, t, u);
      if g in whole.definitions {
        var j :| 0 <= j < k && g in parts[j].definitions && PassesOn(parts[j], part, g);
        WholeIsFound(whole, parts, j, n, g, asked, s);
      }
      assert Yields(part, 0, t, s);
    }
  }

  /** Analysing part by part finds exactly what one analysis of the whole program would. */
  lemma PublishedIsWhole(whole: Program, parts: seq<Program>, k: nat, f: nat, key: Key, s: NilState)
    requires PublishedOnly(whole, parts) && PublishedInFull(whole, parts) && k < |parts| && f in parts[k].definitions
    ensures Derivable(parts[k], f, key, s) <==> Derivable(whole, f, key, s)
  {
    hide Known, PublishedOnly, PublishedInFull;
    if n: nat :| Known(parts[k], n, f, key, s) {
      FoundInWhole(whole, parts, k, n, f, key, s);
    }
    if n: nat :| Known(whole, n, f, key, s) {
      WholeIsFound(whole, parts, k, n, f, key, s);
    }
  }

  // ---------- Analyses of layers ----------

  /** Of `count` layers the last is analyzed first. */
  function LayerOf(count: nat, k: nat): nat
    requires k < count
  {
    count - 1 - k
  }

  /** The `k`-th analysis is of a layer; `home` tells in which package a function is.  Functions call functions of their
      own package and of imported ones, and the analysis has all that earlier ones found. */
  ghost predicate AnalyzesLayer(g: Graph, layer: seq<nat>, home: nat -> nat, whole: Program, parts: seq<Program>,
                                k: nat)
    requires k < |parts|
  {
    && IsPart(whole, parts[k])
    && (forall f :: f in parts[k].definitions <==> f in whole.definitions && home(f) in layer)
    && (forall f :: Mentions(parts[k], f) && f in whole.definitions ==>
         exists a :: a in layer && (home(f) == a || Imports(g, a, home(f))))
    && (forall f :: Mentions(parts[k], f) && f !in whole.definitions ==>
         forall key :: FactOf(parts[k], f, key) == FactOf(whole, f, key))
    && forall j, f :: 0 <= j < k && f in parts[j].definitions ==> PassesOn(parts[j], parts[k], f)
  }

  ghost predicate AnalyzesLayers(g: Graph, layers: seq<seq<nat>>, home: nat -> nat, whole: Program, parts: seq<Program>)
  {
    && |parts| == |layers|
    && forall k: nat :: k < |parts| ==> AnalyzesLayer(g, layers[LayerOf(|layers|, k)], home, whole, parts, k)
  }

  /** No import path from the roots to a package is shorter than all to one that imports it. */
  ghost predicate NoShortcuts(g: Graph, roots: seq<nat>, layers: seq<seq<nat>>) {
    forall i, a, b :: 0 <= i < |layers| && a in layers[i] && Imports(g, a, b) ==> !ReachedBy(g, roots, i, b)
  }

  /** Then analysing layer by layer finds all that one analysis of the whole program would. */
  lemma LayersFindAll(g: Graph, roots: seq<nat>, layers: seq<seq<nat>>, home: nat -> nat, whole: Program,
                      parts: seq<Program>)
    requires IsLayered(g, roots, layers) && AnalyzesLayers(g, layers, home, whole, parts)
    requires NoShortcuts(g, roots, layers)
    ensures PublishedInFull(whole, parts)
  {
    hide Mentions, PassesOn, IsLayered, FactOf;
    forall k: nat | k < |parts|
      ensures IsPart(whole, parts[k])
      ensures forall f :: Mentions(parts[k], f) && f !in whole.definitions ==>
        forall key :: FactOf(parts[k], f, key) == FactOf(whole, f, key)
    {
      assert AnalyzesLayer(g, layers[LayerOf(|layers|, k)], home, whole, parts, k);
    }
    hide IsPart;
    forall k, f | 0 <= k < |parts| && f !in parts[k].definitions && Mentions(parts[k], f) && f in whole.definitions
      ensures exists j :: 0 <= j < k && f in parts[j].definitions && PassesOn(parts[j], parts[k], f)
    {
      var i := LayerOf(|layers|, k);
      assert AnalyzesLayer(g, layers[i], home, whole, parts, k);
      var a :| a in layers[i] && (home(f) == a || Imports(g, a, home(f)));
      InTimeExactly(g, roots, layers, i, a, home(f));
      var t :| i <= t < |layers| && home(f) in layers[t];
      var j := LayerOf(|layers|, t);
      assert LayerOf(|layers|, j) == t && AnalyzesLayer(g, layers[t], home, whole, parts, j);
      assert f in parts[j].definitions;
    }
  }

  // ---------- A fact that comes too late ----------

  /** Package 0 is selected.  It imports 1 and 2, 1 imports 3, and 3 imports 2. */
  const SHORTCUT: Graph := Graph(map[0 := [1, 2], 1 := [3], 3 := [2]], {1, 2, 3})

  /** `func f() *T { return &T{} }` in package 2 and `func g() *T { return f() }` in package 3. */
  const CALLEE: Definition := Straight(ADDRESS, NoReturn.Plain(false))
  const CALLER: Definition := Straight(Expr(Unknown, Unknown, Some(2)), NoReturn.Call(Some(2)))
  const WHOLE: Program := Program(map[2 := CALLEE, 3 := CALLER], map[])

  const HOME: nat -> nat := f => f

  /** The layer of 3 knows only the signature of `f`. */
  const LATE: seq<Program> :=
    [Program(map[3 := CALLER], map[2 := External([REFERENCE], map[])]), Program(map[2 := CALLEE], map[])]

  function Straight(e: Expr, node: NoReturn.Node): Definition {
    Definition([ResultVar(REFERENCE, Unnamed)], false, false, [[e]], [ControlFlow.Block([node], true, true, [])])
  }

  lemma ReachesStep(g: Graph, roots: seq<nat>, n: nat, here: seq<nat>)
    requires forall b: nat :: ReachesIn(g, roots, n, b) <==> b in here
    ensures forall b: nat :: ReachesIn(g, roots, n + 1, b) <==> ImportedBy(g, here, b)
  {
  }

  lemma ShortcutImports()
    ensures forall b :: ImportedBy(SHORTCUT, [0], b) <==> b in [1, 2]
    ensures forall b :: ImportedBy(SHORTCUT, [1, 2], b) <==> b in [3]
    ensures forall b :: ImportedBy(SHORTCUT, [3], b) <==> b in [2]
  {
    var g := SHORTCUT;
    assert Imports(g, 0, 1) && Imports(g, 0, 2) && Imports(g, 1, 3) && Imports(g, 3, 2);
    assert 0 in [0] && 1 in [1, 2] && 3 in [3];
  }

  lemma ShortcutReaches()
    ensures forall b :: ReachesIn(SHORTCUT, [0], 0, b) <==> b in [0]
    ensures forall b :: ReachesIn(SHORTCUT, [0], 1, b) <==> b in [1, 2]
    ensures forall b :: ReachesIn(SHORTCUT, [0], 2, b) <==> b in [3]
    ensures forall b :: ReachesIn(SHORTCUT, [0], 3, b) <==> b in [2]
  {
    hide Imports;
    ShortcutImports();
    ReachesStep(SHORTCUT, [0], 0, [0]);
    ReachesStep(SHORTCUT, [0], 1, [1, 2]);
    ReachesStep(SHORTCUT, [0], 2, [3]);
  }

  lemma ShortcutNearest(n: nat, b: nat)
    ensures Nearest(SHORTCUT, [0], n, b) <==> (n == 0 && b == 0) || (n == 1 && b in [1, 2]) || (n == 2 && b == 3)
  {
    ShortcutReaches();
    hide ReachesIn;
    if n > 2 {
      forall a
        ensures !Nearest(SHORTCUT, [0], 3, a)
      {
        assert a == 2 ==> ReachesIn(SHORTCUT, [0], 1, a);
      }
      NothingFurther(SHORTCUT, [0], 3, n, b);
    }
  }

  lemma ShortcutIsLayered()
    ensures IsLayered(SHORTCUT, [0], [[1, 2], [3]]) && !NoShortcuts(SHORTCUT, [0], [[1, 2], [3]])
  {
    var layers := [[1, 2], [3]];
    forall n: nat, b: nat
      ensures Nearest(SHORTCUT, [0], n, b) <==>
                (n == 0 && b == 0) || (n == 1 && b in [1, 2]) || (n == 2 && b == 3)
    {
      ShortcutNearest(n, b);
    }
    ShortcutReaches();
    assert 2 in [1, 2] && ReachesIn(SHORTCUT, [0], 1, 2);
    hide ReachesIn, Nearest;
    assert 3 in layers[1] && Imports(SHORTCUT, 3, 2) && ReachedBy(SHORTCUT, [0], 1, 2);
  }

  lemma LateIsUnknown(key: Key, s: NilState)
    ensures !Derivable(LATE[0], 3, key, s)
  {
    var part := LATE[0];
    assert Active(CALLER, key) ==> key == Result(0);
    assert TermOf(part, CALLER, CALLER.returned[0], Result(0)) == Value(Unknown);
    forall n: nat
      ensures !Known(part, n, 3, key, s)
    {
      assert n > 0 ==> Yields(part, n - 1, Value(Unknown), s) == (s == Unknown);
    }
  }

  lemma WholeIsKnown()
    ensures Derivable(WHOLE, 3, Result(0), NonNil)
  {
    assert TermOf(WHOLE, CALLEE, CALLEE.returned[0], Result(0)) == Value(NonNil);
    assert TermOf(WHOLE, CALLER, CALLER.returned[0], Result(0)) == Delegate(2, Result(0));
    assert Known(WHOLE, 1, 2, Result(0), NonNil);
    assert Known(WHOLE, 2, 3, Result(0), NonNil);
  }

  lemma LateMentions(f: nat)
    ensures Mentions(LATE[0], f) <==> f == 2
    ensures !Mentions(LATE[1], f)
  {
    assert LATE[0].definitions[3].returned[0][0].callee == Some(2);
  }

  lemma LateIsFirst()
    ensures IsPart(WHOLE, LATE[0]) && AnalyzesLayer(SHORTCUT, [3], HOME, WHOLE, LATE, 0)
    ensures forall g, key :: FactOf(LATE[0], g, key) == Unknown
  {
    hide Mentions;
    forall f
      ensures Mentions(LATE[0], f) <==> f == 2
    {
      LateMentions(f);
    }
    assert Types(CALLEE) == [REFERENCE];
    assert 2 in SHORTCUT.imports[3] && 3 in [3];
  }

  lemma LateIsSecond()
    ensures IsPart(WHOLE, LATE[1]) && AnalyzesLayer(SHORTCUT, [1, 2], HOME, WHOLE, LATE, 1)
    ensures forall g, key :: FactOf(LATE[1], g, key) == Unknown
  {
    hide Mentions, Derivable;
    forall f
      ensures !Mentions(LATE[1], f)
    {
      LateMentions(f);
    }
    forall key, s
      ensures !Derivable(LATE[0], 3, key, s)
    {
      LateIsUnknown(key, s);
    }
    assert 2 in [1, 2];
  }

  lemma LateIsAnalyzed()
    ensures AnalyzesLayers(SHORTCUT, [[1, 2], [3]], HOME, WHOLE, LATE) && PublishedOnly(WHOLE, LATE)
  {
    hide AnalyzesLayer, IsPart, FactOf;
    LateIsFirst();
    LateIsSecond();
  }

  /** The layers are analyzed as they should be, 3 before 2; what `g` returns stays unknown, though it is not nil
      in the whole program. */
  lemma LateFactIsMissed()
    ensures IsLayered(SHORTCUT, [0], [[1, 2], [3]])
    ensures AnalyzesLayers(SHORTCUT, [[1, 2], [3]], HOME, WHOLE, LATE) && PublishedOnly(WHOLE, LATE)
    ensures Derivable(WHOLE, 3, Result(0), NonNil) && forall s :: !Derivable(LATE[0], 3, Result(0), s)
  {
    hide IsLayered, AnalyzesLayers, PublishedOnly;
    ShortcutIsLayered();
    LateIsAnalyzed();
    WholeIsKnown();
    forall s
      ensures !Derivable(LATE[0], 3, Result(0), s)
    {
      LateIsUnknown(Result(0), s);
    }
  }
}
