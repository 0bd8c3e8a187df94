/** Encoding the facts of one package, and encoding again what was just restored (encodePackageFactSnapshotWithPolicy in
    internal/analysis/fact_snapshot.go, lessObjectFact in internal/analysis/package_facts.go). */
module FactEncoding {
  import opened Encoding
  import opened FactSnapshots
  import opened Ordering
  import opened Sorting
  import opened Wrappers

  /** The identities of the declared types. */
  type Names = map<FactType, TypeIdentity>

  ghost predicate IsInverse(declared: Declared, names: Names) {
    forall kind, identity :: Maps(names, kind, identity) <==> Maps(declared, identity, kind)
  }

  /** An object fact that can be written: the object has a stable path. */
  datatype Encodable = Encodable(key: ObjectKey, path: Text, value: Value)

  // ---------- The order the facts are numbered in ----------

  /** `lessObjectFact` within one package: by recorded order if both have one, else as the tie decides. */
  predicate Precedes(tools: Tools, v: View, a: Encodable, b: Encodable) {
    if a.key in v.order && b.key in v.order && v.order[a.key] != v.order[b.key] then v.order[a.key] < v.order[b.key]
    else tools.tie(a.key, a.value, b.key, b.value)
  }

  function NotAfter(tools: Tools, v: View): (Encodable, Encodable) -> bool {
    (a, b) => !Precedes(tools, v, b, a)
  }

  // ---------- When that comparison orders facts ----------

  /** Ties are decided by position, name, type and value: a strict weak order. */
  ghost predicate TieIsLawful(tools: Tools) {
    && (forall a: Encodable, b: Encodable :: TieAtMost(tools, a, b) || TieAtMost(tools, b, a))
    && forall a: Encodable, b: Encodable, c: Encodable ::
         TieAtMost(tools, a, b) && TieAtMost(tools, b, c) ==> TieAtMost(tools, a, c)
  }

  predicate TieAtMost(tools: Tools, a: Encodable, b: Encodable) {
    !tools.tie(b.key, b.value, a.key, a.value)
  }

  /** The orders say that `a` comes before `c`, but the ties put `c` before `b`, which has no order, and `b` before
      `a`. */
  ghost predicate Straddles(tools: Tools, v: View, a: Encodable, b: Encodable, c: Encodable) {
    && a.key in v.order && c.key in v.order && v.order[a.key] < v.order[c.key] && b.key !in v.order
    && TieAtMost(tools, c, b) && TieAtMost(tools, b, a)
  }

  ghost predicate IsTransitive(tools: Tools, v: View, es: set<Encodable>) {
    forall a, b, c :: a in es && b in es && c in es && NotAfter(tools, v)(a, b) && NotAfter(tools, v)(b, c) ==>
      NotAfter(tools, v)(a, c)
  }

  /** The comparison is a strict weak order on some facts exactly if no fact without an order lies, by the ties,
      between two whose orders contradict that; so it is one if all have an order, or none. */
  lemma ComparisonOrdersExactly(tools: Tools, v: View, es: set<Encodable>)
    requires TieIsLawful(tools)
    ensures forall a, b :: a in es && b in es ==> NotAfter(tools, v)(a, b) || NotAfter(tools, v)(b, a)
    ensures IsTransitive(tools, v, es) <==>
            forall a, b, c :: a in es && b in es && c in es ==> !Straddles(tools, v, a, b, c)
  {
    forall a, b | a in es && b in es
      ensures NotAfter(tools, v)(a, b) || NotAfter(tools, v)(b, a)
    {
      assert TieAtMost(tools, a, b) || TieAtMost(tools, b, a);
    }
    if a, b, c :| a in es && b in es && c in es && Straddles(tools, v, a, b, c) {
      assert NotAfter(tools, v)(c, b) && NotAfter(tools, v)(b, a) && !NotAfter(tools, v)(c, a);
    } else {
      forall a, b, c | a in es && b in es && c in es && NotAfter(tools, v)(a, b) && NotAfter(tools, v)(b, c)
        ensures NotAfter(tools, v)(a, c)
      {
        NotAfterChains(tools, v, a, b, c);
      }
    }
  }

  lemma NotAfterChains(tools: Tools, v: View, a: Encodable, b: Encodable, c: Encodable)
    requires TieIsLawful(tools) && NotAfter(tools, v)(a, b) && NotAfter(tools, v)(b, c)
    requires !Straddles(tools, v, c, b, a) && !Straddles(tools, v, a, c, b) && !Straddles(tools, v, b, a, c)
    ensures NotAfter(tools, v)(a, c)
  {
    assert TieAtMost(tools, a, b) || TieAtMost(tools, b, a);
    assert TieAtMost(tools, b, c) || TieAtMost(tools, c, b);
    assert TieAtMost(tools, a, c) || TieAtMost(tools, c, a);
  }

  /** Three facts that the comparison puts in a circle: the first and the last have orders, and positions decide the
      rest. */
  lemma ComparisonGoesInACircle(tools: Tools, kind: FactType)
    requires forall a: ObjectKey, x: Value, b: ObjectKey, y: Value :: tools.tie(a, x, b, y) <==> a.subject < b.subject
    ensures TieIsLawful(tools)
    ensures exists v: View, a: Encodable, b: Encodable, c: Encodable ::
      Precedes(tools, v, a, c) && Precedes(tools, v, c, b) && Precedes(tools, v, b, a)
  {
    var a := Encodable(ObjectKey(3, kind), [], []);
    var b := Encodable(ObjectKey(2, kind), [], []);
    var c := Encodable(ObjectKey(1, kind), [], []);
    var v := View(map[], map[a.key := 0, c.key := 1]);
    assert Precedes(tools, v, a, c) && Precedes(tools, v, c, b) && Precedes(tools, v, b, a);
  }

  function OrderOf(v: View, e: Encodable): int {
    if e.key in v.order then v.order[e.key] else 0
  }

  function ByOrder(v: View): (Encodable, Encodable) -> bool {
    (a, b) => OrderOf(v, a) <= OrderOf(v, b)
  }

  function TypeAtMost(a: PackageFact, b: PackageFact): bool {
    CompareType(a.identity, b.identity) <= 0
  }

  function FactAtMost(a: ObjectFact, b: ObjectFact): bool {
    CompareObjectFact(a, b) <= 0
  }

  lemma TypeOrder()
    ensures Linear(TypeAtMost)
  {
    hide CompareType;
    forall a: PackageFact, b: PackageFact, c: PackageFact
      ensures TypeAtMost(a, b) || TypeAtMost(b, a)
      ensures TypeAtMost(a, b) && TypeAtMost(b, c) ==> TypeAtMost(a, c)
    {
      TypeLaws(a.identity, b.identity, c.identity);
    }
  }

  lemma FactOrder()
    ensures Linear(FactAtMost)
  {
    hide CompareObjectFact;
    forall a: ObjectFact, b: ObjectFact, c: ObjectFact
      ensures FactAtMost(a, b) || FactAtMost(b, a)
      ensures FactAtMost(a, b) && FactAtMost(b, c) ==> FactAtMost(a, c)
    {
      ObjectFactLaws(a, b, c);
    }
  }

  // ---------- What is encoded ----------

  function Numbered(path: Text, names: Names, es: seq<Encodable>): (facts: seq<ObjectFact>)
    requires forall e :: e in es ==> e.key.kind in names
    ensures |facts| == |es|
    ensures forall i :: 0 <= i < |es| ==>
      facts[i] == ObjectFact(ObjectIdentity(path, es[i].path), names[es[i].key.kind], es[i].value, i)
  {
    seq(|es|, i requires 0 <= i < |es| => ObjectFact(ObjectIdentity(path, es[i].path), names[es[i].key.kind],
      es[i].value, i))
  }

  /** The fact is stored for the package under a declared type. */
  ghost predicate Stored(values: map<PackageKey, Value>, names: Names, analyzer: nat, package: Package, f: PackageFact)
  {
    exists kind :: Maps(names, kind, f.identity) && Maps(values, PackageKey(analyzer, package, kind), f.value)
  }

  ghost predicate ListsPackageFacts(facts: seq<PackageFact>, values: map<PackageKey, Value>, names: Names,
                                    analyzer: nat, package: Package)
  {
    Unrepeated(facts) && forall f :: f in facts <==> Stored(values, names, analyzer, package, f)
  }

  /** The object belongs to the package and has that stable path. */
  predicate Stable(tools: Tools, package: Package, e: Encodable) {
    tools.home(e.key.subject) == Some(package) && tools.identify(e.key.subject) == Some(e.path)
  }

  /** The facts about objects of the package whose path is stable. */
  ghost predicate ListsObjectFacts(tools: Tools, es: seq<Encodable>, v: View, package: Package) {
    Unrepeated(es) && forall e :: e in es <==> Maps(v.values, e.key, e.value) && Stable(tools, package, e)
  }

  ghost predicate CanEncode(tools: Tools, values: map<PackageKey, Value>, views: map<ViewKey, View>, analyzer: nat,
                            package: Package, skip: bool)
  {
    && tools.path(package) != [] && tools.declared(analyzer).Some? && ViewKey(analyzer, package) in views
    && (forall key :: key in values && key.analyzer == analyzer && key.package == package ==>
      key.kind in tools.declared(analyzer).value.Values)
    && forall key :: key in views[ViewKey(analyzer, package)].values && tools.home(key.subject) == Some(package) ==>
         if tools.identify(key.subject).None? then skip else key.kind in tools.declared(analyzer).value.Values
  }

  /** The snapshot written from some listing of the facts. */
  ghost predicate WrittenFrom(tools: Tools, values: map<PackageKey, Value>, v: View, analyzer: nat, package: Package,
                              s: Snapshot)
  {
    tools.declared(analyzer).Some?
      && exists names, facts, es :: Writes(tools, values, v, analyzer, package, s, names, facts, es)
  }

  ghost predicate Writes(tools: Tools, values: map<PackageKey, Value>, v: View, analyzer: nat, package: Package,
                         s: Snapshot,
                         names: Names, facts: seq<PackageFact>, es: seq<Encodable>) {
    var sorted := Sort(es, NotAfter(tools, v));
    && tools.declared(analyzer).Some? && IsInverse(tools.declared(analyzer).value, names)
    && ListsPackageFacts(facts, values, names, analyzer, package) && ListsObjectFacts(tools, es, v, package)
    && (forall e :: e in sorted ==> e.key.kind in names)
    && s == Snapshot(VERSION, tools.name(analyzer), tools.path(package), Sort(facts, TypeAtMost),
                     Sort(Numbered(tools.path(package), names, sorted), FactAtMost))
  }

  // ---------- The round trip ----------

  lemma {:induction false} InsertAgrees<T(!new)>(x: T, xs: seq<T>, le: (T, T) -> bool, other: (T, T) -> bool)
    requires forall y :: y in xs ==> le(x, y) == other(x, y)
    ensures Insert(x, xs, le) == Insert(x, xs, other)
    decreases |xs|
  {
    if |xs| > 0 && !le(x, xs[0]) {
      InsertAgrees(x, xs[1..], le, other);
    }
  }

  /** Sorting asks the comparison only about its elements, at different places. */
  lemma {:induction false} SortAgrees<T(!new)>(xs: seq<T>, le: (T, T) -> bool, other: (T, T) -> bool)
    requires Linear(other) && Unrepeated(xs)
    requires forall x, y :: x in xs && y in xs && x != y ==> le(x, y) == other(x, y)
    ensures Sort(xs, le) == Sort(xs, other)
    decreases |xs|
  {
    if |xs| > 0 {
      SortAgrees(xs[1..], le, other);
      SortKeepsElements(xs[1..], other);
      assert xs == [xs[0]] + xs[1..];
      InsertAgrees(xs[0], Sort(xs[1..], other), le, other);
    }
  }

  /** Different whole numbers below n in ascending order are 0, 1, 2 and so on. */
  lemma {:induction false} AscendingFillsUp(orders: seq<int>, i: nat)
    requires i < |orders| && forall j, k :: 0 <= j < k < |orders| ==> orders[j] < orders[k]
    requires forall j :: 0 <= j < |orders| ==> 0 <= orders[j] < |orders|
    ensures orders[i] == i
  {
    AtLeast(orders, i);
    AtMost(orders, i);
  }

  lemma {:induction false} AtLeast(orders: seq<int>, i: nat)
    requires i < |orders| && 0 <= orders[0] && forall j, k :: 0 <= j < k < |orders| ==> orders[j] < orders[k]
    ensures orders[i] >= i
    decreases i
  {
    if i > 0 {
      AtLeast(orders, i - 1);
    }
  }

  lemma {:induction false} AtMost(orders: seq<int>, i: nat)
    requires i < |orders| && forall j, k :: 0 <= j < k < |orders| ==> orders[j] < orders[k]
    requires forall j :: 0 <= j < |orders| ==> orders[j] < |orders|
    ensures orders[i] <= i
    decreases |orders| - i
  {
    if i + 1 < |orders| {
      AtMost(orders, i + 1);
    }
  }

  /** The two lists hold the same facts, the second ascending; sorting the first gives the second. */
  lemma SortsToPackageFacts(facts: seq<PackageFact>, ordered: seq<PackageFact>)
    requires Unrepeated(facts) && PackageFactsOrdered(ordered) && forall f :: f in facts <==> f in ordered
    ensures Sort(facts, TypeAtMost) == ordered
  {
    hide CompareType, LessType;
    TypeOrder();
    forall i, j | 0 <= i < j < |ordered|
      ensures CompareType(ordered[i].identity, ordered[j].identity) < 0
    {
      assert LessType(ordered[i].identity, ordered[j].identity);
      LessTypeIs(ordered[i].identity, ordered[j].identity);
    }
    forall a, b | a in ordered && b in ordered && TypeAtMost(a, b) && TypeAtMost(b, a)
      ensures a == b
    {
      TypeLaws(a.identity, b.identity, b.identity);
      var i :| 0 <= i < |ordered| && ordered[i] == a;
      var j :| 0 <= j < |ordered| && ordered[j] == b;
    }
    forall i, j | 0 <= i < j < |ordered|
      ensures ordered[i] != ordered[j]
    {
      TypeLaws(ordered[i].identity, ordered[j].identity, ordered[j].identity);
    }
    SortsTo(facts, ordered, TypeAtMost);
  }

  lemma LessTypeIs(a: TypeIdentity, b: TypeIdentity)
    ensures LessType(a, b) <==> CompareType(a, b) < 0
  {
  }

  lemma LessFactIs(a: ObjectFact, b: ObjectFact)
    ensures LessObjectFact(a, b) <==> CompareObjectFact(a, b) < 0
  {
  }

  lemma SortsToObjectFacts(facts: seq<ObjectFact>, ordered: seq<ObjectFact>)
    requires Unrepeated(facts) && ObjectFactsOrdered(ordered) && forall f :: f in facts <==> f in ordered
    ensures Sort(facts, FactAtMost) == ordered
  {
    hide CompareObjectFact, LessObjectFact;
    FactOrder();
    forall i, j | 0 <= i < j < |ordered|
      ensures CompareObjectFact(ordered[i], ordered[j]) < 0
    {
      assert LessObjectFact(ordered[i], ordered[j]);
      LessFactIs(ordered[i], ordered[j]);
    }
    forall a, b | a in ordered && b in ordered && FactAtMost(a, b) && FactAtMost(b, a)
      ensures a == b
    {
      ObjectFactLaws(a, b, b);
      var i :| 0 <= i < |ordered| && ordered[i] == a;
      var j :| 0 <= j < |ordered| && ordered[j] == b;
    }
    forall i, j | 0 <= i < j < |ordered|
      ensures ordered[i] != ordered[j]
    {
      ObjectFactLaws(ordered[i], ordered[j], ordered[j]);
    }
    SortsTo(facts, ordered, FactAtMost);
  }

  lemma SortsTo<T(!new)>(xs: seq<T>, ys: seq<T>, le: (T, T) -> bool)
    requires Linear(le) && Unrepeated(xs) && Unrepeated(ys) && Sorted(ys, le) && forall x :: x in xs <==> x in ys
    requires forall a, b :: a in ys && b in ys && le(a, b) && le(b, a) ==> a == b
    ensures Sort(xs, le) == ys
  {
    SortIsSorted(xs, le);
    SameElementsSameMultiset(xs, ys);
    SortedIsUnique(ys, Sort(xs, le), le);
  }

  /** Nothing is known of the package yet, and importers do not see facts about its objects. */
  ghost predicate Unknown(tools: Tools, values: map<PackageKey, Value>, views: map<ViewKey, View>, analyzer: nat,
                          package: Package)
  {
    && (forall key :: key in values ==> key.analyzer != analyzer || key.package != package)
    && ViewKey(analyzer, package) !in views
    && forall v, key :: Inherits(tools, views, analyzer, tools.imports(package), v) && key in v.values ==>
      tools.home(key.subject) != Some(package)
  }

  /** What a snapshot restored into such a fact set leaves there. */
  ghost predicate JustRestored(tools: Tools, analyzer: nat, package: Package, s: Snapshot,
                               m: map<PackageKey, Value>, v: View, w: View, values: map<PackageKey, Value>) {
    && Dependable(tools) && Acceptable(tools, analyzer, package, s, false)
    && HoldsPackageFacts(m, tools.declared(analyzer).value, analyzer, package, s.packageFacts)
    && HoldsObjectFacts(w, tools, tools.declared(analyzer).value, package, s.objectFacts)
    && (forall key :: key in values ==> key.analyzer != analyzer || key.package != package)
    && forall key :: key in v.values ==> tools.home(key.subject) != Some(package)
  }

  lemma StoredIsTheSnapshot(tools: Tools, analyzer: nat, package: Package, s: Snapshot, m: map<PackageKey, Value>,
                            v: View, w: View,
                            values: map<PackageKey, Value>, names: Names, f: PackageFact)
    requires JustRestored(tools, analyzer, package, s, m, v, w, values)
    requires IsInverse(tools.declared(analyzer).value, names)
    ensures Stored(values + m, names, analyzer, package, f) <==> f in s.packageFacts
  {
    var declared := tools.declared(analyzer).value;
    if f in s.packageFacts {
      var i :| 0 <= i < |s.packageFacts| && s.packageFacts[i] == f;
      assert GoodPackageFact(tools, declared, f);
      assert PackageKeyOf(declared, analyzer, package, s.packageFacts[i]).Some?;
      assert Maps(declared, f.identity, declared[f.identity]) && Maps(names, declared[f.identity], f.identity);
      assert Maps(values + m, PackageKey(analyzer, package, declared[f.identity]), f.value);
    }
    if Stored(values + m, names, analyzer, package, f) {
      var kind :| Maps(names, kind, f.identity) && Maps(values + m, PackageKey(analyzer, package, kind), f.value);
      var key := PackageKey(analyzer, package, kind);
      assert key in m;
      var i :| 0 <= i < |s.packageFacts| && PackageKeyOf(declared, analyzer, package, s.packageFacts[i]) == Some(key);
      assert Maps(declared, s.packageFacts[i].identity, kind) && Maps(names, kind, s.packageFacts[i].identity);
      assert s.packageFacts[i] == f;
    }
  }

  lemma DeclaresTypes(tools: Tools, analyzer: nat, package: Package, s: Snapshot)
    requires Acceptable(tools, analyzer, package, s, false)
    ensures tools.declared(analyzer).Some?
  {
  }

  /** The fact an encodable fact comes from. */
  ghost predicate ComesFrom(tools: Tools, declared: Declared, package: Package, f: ObjectFact, e: Encodable) {
    KeyOf(tools, declared, package, f) == Some(e.key) && e.path == f.subject.path && e.value == f.value
  }

  lemma EncodableComesFromTheSnapshot(tools: Tools, analyzer: nat, package: Package, s: Snapshot,
                                      m: map<PackageKey, Value>, v: View, w: View,
                                      values: map<PackageKey, Value>, e: Encodable) returns (i: nat)
    requires JustRestored(tools, analyzer, package, s, m, v, w, values)
    requires Maps(Combined(v, w).values, e.key, e.value) && Stable(tools, package, e)
    ensures i < |s.objectFacts| && ComesFrom(tools, tools.declared(analyzer).value, package, s.objectFacts[i], e)
    ensures Maps(Combined(v, w).order, e.key, s.objectFacts[i].order)
  {
    hide Acceptable, HoldsPackageFacts, Dependable;
    DeclaresTypes(tools, analyzer, package, s);
    var declared := tools.declared(analyzer).value;
    assert e.key in w.values;
    i :| i < |s.objectFacts| && KeyOf(tools, declared, package, s.objectFacts[i]) == Some(e.key);
  }

  lemma SnapshotFactIsEncodable(tools: Tools, analyzer: nat, package: Package, s: Snapshot, m: map<PackageKey, Value>,
                                v: View, w: View,
                                values: map<PackageKey, Value>, i: nat) returns (e: Encodable)
    requires JustRestored(tools, analyzer, package, s, m, v, w, values) && i < |s.objectFacts|
    ensures Maps(Combined(v, w).values, e.key, e.value) && Stable(tools, package, e)
    ensures ComesFrom(tools, tools.declared(analyzer).value, package, s.objectFacts[i], e)
    ensures Maps(Combined(v, w).order, e.key, s.objectFacts[i].order)
  {
    var declared := tools.declared(analyzer).value;
    var f := s.objectFacts[i];
    assert f in s.objectFacts && GoodObjectFact(tools, declared, package, f, false);
    assert KeyOf(tools, declared, package, f).Some?;
    e := Encodable(KeyOf(tools, declared, package, f).value, f.subject.path, f.value);
  }

  /** Restored facts are numbered as they were. */
  lemma NumberedAsBefore(tools: Tools, analyzer: nat, package: Package, s: Snapshot, m: map<PackageKey, Value>, v: View,
                         w: View,
                         values: map<PackageKey, Value>, es: seq<Encodable>)
    requires JustRestored(tools, analyzer, package, s, m, v, w, values)
    requires ListsObjectFacts(tools, es, Combined(v, w), package)
    ensures var sorted := Sort(es, NotAfter(tools, Combined(v, w)));
      && (forall e :: e in sorted <==> e in es) && Unrepeated(sorted) && |sorted| == |es|
      && forall i :: 0 <= i < |sorted| ==> Maps(Combined(v, w).order, sorted[i].key, i)
  {
    var u := Combined(v, w);
    var facts := s.objectFacts;
    hide JustRestored;
    forall e | e in es
      ensures e.key in u.order && 0 <= u.order[e.key] < |facts|
    {
      var i := EncodableComesFromTheSnapshot(tools, analyzer, package, s, m, v, w, values, e);
      OrdersInRange(tools, analyzer, package, s, m, v, w, values, i);
    }
    forall a, b | a in es && b in es && a != b
      ensures u.order[a.key] != u.order[b.key]
    {
      OrdersDiffer(tools, analyzer, package, s, m, v, w, values, a, b);
    }
    SameCount(tools, analyzer, package, s, m, v, w, values, es);
    SortAgrees(es, NotAfter(tools, u), ByOrder(u));
    SortIsSorted(es, ByOrder(u));
    SortKeepsElements(es, ByOrder(u));
    SortIsUnrepeated(es, ByOrder(u));
    SortedOrders(es, u);
  }

  lemma OrdersInRange(tools: Tools, analyzer: nat, package: Package, s: Snapshot, m: map<PackageKey, Value>, v: View,
                      w: View,
                      values: map<PackageKey, Value>, i: nat)
    requires JustRestored(tools, analyzer, package, s, m, v, w, values) && i < |s.objectFacts|
    ensures 0 <= s.objectFacts[i].order < |s.objectFacts|
  {
    assert IsPermutation(s.objectFacts);
  }

  lemma OrdersDiffer(tools: Tools, analyzer: nat, package: Package, s: Snapshot, m: map<PackageKey, Value>, v: View,
                     w: View,
                     values: map<PackageKey, Value>, a: Encodable, b: Encodable)
    requires JustRestored(tools, analyzer, package, s, m, v, w, values) && a != b
    requires Maps(Combined(v, w).values, a.key, a.value) && Stable(tools, package, a)
    requires Maps(Combined(v, w).values, b.key, b.value) && Stable(tools, package, b)
    ensures a.key in Combined(v, w).order && b.key in Combined(v, w).order
    ensures Combined(v, w).order[a.key] != Combined(v, w).order[b.key]
  {
    var i := EncodableComesFromTheSnapshot(tools, analyzer, package, s, m, v, w, values, a);
    var j := EncodableComesFromTheSnapshot(tools, analyzer, package, s, m, v, w, values, b);
    assert i != j;
    assert IsPermutation(s.objectFacts);
    assert i < j || j < i;
  }

  function Orders(es: seq<Encodable>, u: View): (orders: seq<int>)
    ensures |orders| == |es| && forall i :: 0 <= i < |es| ==> orders[i] == OrderOf(u, es[i])
  {
    seq(|es|, i requires 0 <= i < |es| => OrderOf(u, es[i]))
  }

  /** There are as many encodable facts as persisted ones. */
  lemma SameCount(tools: Tools, analyzer: nat, package: Package, s: Snapshot, m: map<PackageKey, Value>, v: View,
                  w: View,
                  values: map<PackageKey, Value>, es: seq<Encodable>)
    requires JustRestored(tools, analyzer, package, s, m, v, w, values)
    requires ListsObjectFacts(tools, es, Combined(v, w), package)
    requires forall a, b :: a in es && b in es && a != b ==> OrderOf(Combined(v, w), a) != OrderOf(Combined(v, w), b)
    requires forall e :: e in es ==> 0 <= OrderOf(Combined(v, w), e) < |s.objectFacts|
    ensures |es| == |s.objectFacts|
  {
    var u := Combined(v, w);
    var n := |s.objectFacts|;
    hide JustRestored;
    var orders := Orders(es, u);
    forall k
      ensures k in orders <==> k in Below(n)
    {
      if 0 <= k < n {
        var e := FactWithOrder(tools, analyzer, package, s, m, v, w, values, k);
        var i :| 0 <= i < |es| && es[i] == e;
        assert orders[i] == k;
      }
      if k in orders {
        var i :| 0 <= i < |es| && orders[i] == k;
        assert es[i] in es;
      }
    }
    forall i, j | 0 <= i < j < |orders|
      ensures orders[i] != orders[j]
    {
      assert es[i] in es && es[j] in es && es[i] != es[j];
    }
    UnrepeatedSize(orders, Below(n));
  }

  lemma FactWithOrder(tools: Tools, analyzer: nat, package: Package, s: Snapshot, m: map<PackageKey, Value>, v: View,
                      w: View,
                      values: map<PackageKey, Value>, k: int) returns (e: Encodable)
    requires JustRestored(tools, analyzer, package, s, m, v, w, values) && 0 <= k < |s.objectFacts|
    ensures Maps(Combined(v, w).values, e.key, e.value) && Stable(tools, package, e) && OrderOf(Combined(v, w), e) == k
  {
    assert IsPermutation(s.objectFacts) && HasOrder(s.objectFacts, k);
    var i :| 0 <= i < |s.objectFacts| && s.objectFacts[i].order == k;
    e := SnapshotFactIsEncodable(tools, analyzer, package, s, m, v, w, values, i);
  }

  /** Sorted by their orders, which are the numbers below their count, the facts stand at their orders. */
  lemma SortedOrders(es: seq<Encodable>, u: View)
    requires Unrepeated(es) && Sorted(Sort(es, ByOrder(u)), ByOrder(u)) && Unrepeated(Sort(es, ByOrder(u)))
    requires (forall e :: e in Sort(es, ByOrder(u)) <==> e in es) && |Sort(es, ByOrder(u))| == |es|
    requires forall e :: e in es ==> e.key in u.order && 0 <= u.order[e.key] < |es|
    requires forall a, b :: a in es && b in es && a != b ==> u.order[a.key] != u.order[b.key]
    ensures forall i :: 0 <= i < |es| ==> Maps(u.order, Sort(es, ByOrder(u))[i].key, i)
  {
    var sorted := Sort(es, ByOrder(u));
    var orders := Orders(sorted, u);
    forall i | 0 <= i < |sorted|
      ensures sorted[i].key in u.order && orders[i] == u.order[sorted[i].key] && 0 <= orders[i] < |sorted|
    {
      assert sorted[i] in sorted;
    }
    forall i, j | 0 <= i < j < |orders|
      ensures orders[i] < orders[j]
    {
      assert sorted[i] in es && sorted[j] in es && sorted[i] != sorted[j] && ByOrder(u)(sorted[i], sorted[j]);
    }
    forall i | 0 <= i < |sorted|
      ensures Maps(u.order, sorted[i].key, i)
    {
      AscendingFillsUp(orders, i);
    }
  }

  lemma NumberedIsTheSnapshot(tools: Tools, analyzer: nat, package: Package, s: Snapshot, m: map<PackageKey, Value>,
                              v: View, w: View,
                              values: map<PackageKey, Value>, names: Names, es: seq<Encodable>, sorted: seq<Encodable>)
    requires JustRestored(tools, analyzer, package, s, m, v, w, values)
    requires IsInverse(tools.declared(analyzer).value, names)
    requires ListsObjectFacts(tools, es, Combined(v, w), package) && (forall e :: e in sorted <==> e in es)
    requires |sorted| == |es|
    requires forall i :: 0 <= i < |sorted| ==> Maps(Combined(v, w).order, sorted[i].key, i)
    requires forall e :: e in sorted ==> e.key.kind in names
    ensures forall f :: f in Numbered(tools.path(package), names, sorted) <==> f in s.objectFacts
    ensures Unrepeated(Numbered(tools.path(package), names, sorted))
  {
    hide JustRestored, ComesFrom, Combined, IsInverse;
    var u := Combined(v, w);
    var numbered := Numbered(tools.path(package), names, sorted);
    Parts(tools, analyzer, package, s, m, v, w, values);
    forall i | 0 <= i < |numbered|
      ensures numbered[i] in s.objectFacts
    {
      var j := EncodableComesFromTheSnapshot(tools, analyzer, package, s, m, v, w, values, sorted[i]);
      NumberedIsTheFact(tools, analyzer, package, s, names, sorted[i], i, j);
    }
    forall j | 0 <= j < |s.objectFacts|
      ensures s.objectFacts[j] in numbered
    {
      var e := SnapshotFactIsEncodable(tools, analyzer, package, s, m, v, w, values, j);
      var i :| 0 <= i < |sorted| && sorted[i] == e;
      NumberedIsTheFact(tools, analyzer, package, s, names, sorted[i], i, j);
      assert numbered[i] == s.objectFacts[j];
    }
  }

  lemma NumberedIsTheFact(tools: Tools, analyzer: nat, package: Package, s: Snapshot, names: Names, e: Encodable,
                          i: nat, j: nat)
    requires Acceptable(tools, analyzer, package, s, false) && IsInverse(tools.declared(analyzer).value, names)
    requires j < |s.objectFacts| && ComesFrom(tools, tools.declared(analyzer).value, package, s.objectFacts[j], e)
    requires s.objectFacts[j].order == i && e.key.kind in names
    ensures ObjectFact(ObjectIdentity(tools.path(package), e.path), names[e.key.kind], e.value, i) == s.objectFacts[j]
  {
    var f := s.objectFacts[j];
    assert GoodObjectFact(tools, tools.declared(analyzer).value, package, f, false) by { assert f in s.objectFacts; }
    assert Maps(tools.declared(analyzer).value, f.identity, e.key.kind) && Maps(names, e.key.kind, f.identity);
  }

  lemma EncodingGivesItBack(tools: Tools, analyzer: nat, package: Package, s: Snapshot, m: map<PackageKey, Value>,
                            v: View, w: View,
                            values: map<PackageKey, Value>, t: Snapshot)
    requires JustRestored(tools, analyzer, package, s, m, v, w, values)
    requires WrittenFrom(tools, values + m, Combined(v, w), analyzer, package, t)
    ensures t == s
  {
    hide JustRestored, ListsPackageFacts, ListsObjectFacts, NotAfter, Acceptable, PackageFactsOrdered,
      ObjectFactsOrdered;
    var names, facts, es :| Writes(tools, values + m, Combined(v, w), analyzer, package, t, names, facts, es);
    Parts(tools, analyzer, package, s, m, v, w, values);
    ListedOnce(facts, values + m, names, analyzer, package);
    forall f
      ensures f in facts <==> f in s.packageFacts
    {
      StoredIsTheSnapshot(tools, analyzer, package, s, m, v, w, values, names, f);
      Listed(facts, values + m, names, analyzer, package, f);
    }
    SortsToPackageFacts(facts, s.packageFacts);
    var sorted := Sort(es, NotAfter(tools, Combined(v, w)));
    NumberedAsBefore(tools, analyzer, package, s, m, v, w, values, es);
    NumberedIsTheSnapshot(tools, analyzer, package, s, m, v, w, values, names, es, sorted);
    SortsToObjectFacts(Numbered(tools.path(package), names, sorted), s.objectFacts);
  }

  lemma Parts(tools: Tools, analyzer: nat, package: Package, s: Snapshot, m: map<PackageKey, Value>, v: View, w: View,
              values: map<PackageKey, Value>)
    requires JustRestored(tools, analyzer, package, s, m, v, w, values)
    ensures Acceptable(tools, analyzer, package, s, false)
    ensures s.version == VERSION && s.analyzer == tools.name(analyzer) && s.path == tools.path(package)
    ensures PackageFactsOrdered(s.packageFacts) && ObjectFactsOrdered(s.objectFacts)
  {
  }

  lemma Listed(facts: seq<PackageFact>, values: map<PackageKey, Value>, names: Names, analyzer: nat, package: Package,
               f: PackageFact)
    requires ListsPackageFacts(facts, values, names, analyzer, package)
    ensures f in facts <==> Stored(values, names, analyzer, package, f)
  {
  }

  lemma ListedOnce(facts: seq<PackageFact>, values: map<PackageKey, Value>, names: Names, analyzer: nat,
                   package: Package)
    requires ListsPackageFacts(facts, values, names, analyzer, package)
    ensures Unrepeated(facts)
  {
  }

  /** Restoring a snapshot where nothing is known of the package and every object resolves, and encoding again, under
      either policy, is possible and gives the same snapshot. */
  lemma RestoreThenEncode(tools: Tools, analyzer: nat, package: Package, s: Snapshot, values: map<PackageKey, Value>,
                          views: map<ViewKey, View>,
                          newValues: map<PackageKey, Value>, newViews: map<ViewKey, View>, skip: bool)
    requires Dependable(tools) && Acceptable(tools, analyzer, package, s, false)
    requires Unknown(tools, values, views, analyzer, package)
    requires RestoredTo(tools, analyzer, package, s, values, views, newValues, newViews)
    ensures CanEncode(tools, newValues, newViews, analyzer, package, skip)
    ensures forall t :: WrittenFrom(tools, newValues, newViews[ViewKey(analyzer, package)], analyzer, package, t) ==>
      t == s
  {
    hide Acceptable, Inherits, HoldsPackageFacts, HoldsObjectFacts, WrittenFrom, PackageConflict, ViewConflict;
    var declared := tools.declared(analyzer).value;
    var m, v, w :| HoldsPackageFacts(m, declared, analyzer, package, s.packageFacts)
      && HoldsObjectFacts(w, tools, declared, package, s.objectFacts)
      && StartsFrom(tools, views, analyzer, package, v) && !PackageConflict(values, m) && !ViewConflict(v, w)
      && newValues == values + m && newViews == views[ViewKey(analyzer, package) := Combined(v, w)];
    assert JustRestored(tools, analyzer, package, s, m, v, w, values);
    CanEncodeAgain(tools, analyzer, package, s, m, v, w, values, newViews, skip);
    forall t | WrittenFrom(tools, newValues, newViews[ViewKey(analyzer, package)], analyzer, package, t)
      ensures t == s
    {
      EncodingGivesItBack(tools, analyzer, package, s, m, v, w, values, t);
    }
  }

  lemma CanEncodeAgain(tools: Tools, analyzer: nat, package: Package, s: Snapshot, m: map<PackageKey, Value>, v: View,
                       w: View,
                       values: map<PackageKey, Value>, views: map<ViewKey, View>, skip: bool)
    requires JustRestored(tools, analyzer, package, s, m, v, w, values)
    requires Maps(views, ViewKey(analyzer, package), Combined(v, w))
    ensures CanEncode(tools, values + m, views, analyzer, package, skip)
  {
    hide Acceptable, HoldsObjectFacts, HoldsPackageFacts, Dependable;
    DeclaresTypes(tools, analyzer, package, s);
    PathIsNotEmpty(tools, analyzer, package, s);
    PackageFactsAreDeclared(m, tools.declared(analyzer).value, analyzer, package, s.packageFacts);
    ObjectFactsAreDeclared(w, tools, tools.declared(analyzer).value, package, s.objectFacts);
  }

  lemma PathIsNotEmpty(tools: Tools, analyzer: nat, package: Package, s: Snapshot)
    requires Acceptable(tools, analyzer, package, s, false)
    ensures tools.path(package) != []
  {
  }

  lemma PackageFactsAreDeclared(m: map<PackageKey, Value>, declared: Declared, analyzer: nat, package: Package,
                                facts: seq<PackageFact>)
    requires HoldsPackageFacts(m, declared, analyzer, package, facts)
    ensures forall key :: key in m ==> key.kind in declared.Values
  {
    forall key | key in m
      ensures key.kind in declared.Values
    {
      var i :| 0 <= i < |facts| && PackageKeyOf(declared, analyzer, package, facts[i]) == Some(key);
      assert declared[facts[i].identity] == key.kind;
    }
  }

  lemma ObjectFactsAreDeclared(w: View, tools: Tools, declared: Declared, package: Package, facts: seq<ObjectFact>)
    requires HoldsObjectFacts(w, tools, declared, package, facts)
    ensures forall key :: key in w.values ==> tools.identify(key.subject).Some? && key.kind in declared.Values
  {
    forall key | key in w.values
      ensures tools.identify(key.subject).Some? && key.kind in declared.Values
    {
      var i :| 0 <= i < |facts| && KeyOf(tools, declared, package, facts[i]) == Some(key);
      assert declared[facts[i].identity] == key.kind;
    }
  }

  // ---------- Encoding ----------

  /** `identitiesByType`. */
  method InvertTypes(tools: Tools, analyzer: nat) returns (names: Names)
    requires Dependable(tools) && tools.declared(analyzer).Some?
    ensures IsInverse(tools.declared(analyzer).value, names)
    ensures names.Keys == tools.declared(analyzer).value.Values
  {
    var declared := tools.declared(analyzer).value;
    names := map[];
    var rest := declared.Keys;
    while rest != {}
      invariant rest <= declared.Keys
      invariant forall kind, identity :: Maps(names, kind, identity) <==>
        Maps(declared, identity, kind) && identity !in rest
      decreases rest
    {
      var identity :| identity in rest;
      ghost var before := names;
      names := names[declared[identity] := identity];
      forall kind, other
        ensures Maps(names, kind, other) <==> Maps(declared, other, kind) && other !in rest - {identity}
      {
        assert Maps(before, kind, other) <==> Maps(declared, other, kind) && other !in rest;
        assert Maps(names, kind, other) <==>
          if kind == declared[identity] then other == identity else Maps(before, kind, other);
      }
      rest := rest - {identity};
    }
    forall kind
      ensures kind in names <==> kind in declared.Values
    {
      if kind in names {
        assert Maps(names, kind, names[kind]) && Maps(declared, names[kind], kind);
      }
      if kind in declared.Values {
        var identity :| identity in declared && declared[identity] == kind;
        assert Maps(declared, identity, kind) && Maps(names, kind, identity);
      }
    }
  }

  method CollectPackageFacts(values: map<PackageKey, Value>, names: Names, declared: Declared, analyzer: nat,
                             package: Package)
      returns (r: Option<seq<PackageFact>>)
    requires IsInverse(declared, names)
    ensures r.Some? <==>
      forall key :: key in values && key.analyzer == analyzer && key.package == package ==> key.kind in names
    ensures r.Some? ==> ListsPackageFacts(r.value, values, names, analyzer, package)
  {
    var facts: seq<PackageFact> := [];
    var rest := values.Keys;
    while rest != {}
      invariant rest <= values.Keys && Unrepeated(facts)
      invariant forall key :: key in values && key !in rest && key.analyzer == analyzer && key.package == package ==>
        key.kind in names
      invariant forall f :: f in facts <==> StoredOutside(values, rest, names, analyzer, package, f)
      decreases rest
    {
      var key :| key in rest;
      if key.analyzer == analyzer && key.package == package {
        if key.kind !in names {
          return None;
        }
        var fact := PackageFact(names[key.kind], values[key]);
        OneMoreStored(values, rest, names, declared, analyzer, package, key, fact);
        assert fact !in facts;
        facts := facts + [fact];
      } else {
        assert forall f :: StoredOutside(values, rest - {key}, names, analyzer, package, f) ==>
          StoredOutside(values, rest, names, analyzer, package, f);
        assert forall f :: StoredOutside(values, rest, names, analyzer, package, f) ==>
          StoredOutside(values, rest - {key}, names, analyzer, package, f);
      }
      rest := rest - {key};
    }
    assert forall f :: StoredOutside(values, {}, names, analyzer, package, f) <==>
      Stored(values, names, analyzer, package, f);
    return Some(facts);
  }

  ghost predicate StoredOutside(values: map<PackageKey, Value>, rest: set<PackageKey>, names: Names, analyzer: nat,
                                package: Package, f: PackageFact)
  {
    exists kind :: Maps(names, kind, f.identity) && Maps(values, PackageKey(analyzer, package, kind), f.value)
      && PackageKey(analyzer, package, kind) !in rest
  }

  lemma OneMoreStored(values: map<PackageKey, Value>, rest: set<PackageKey>, names: Names, declared: Declared,
                      analyzer: nat, package: Package,
                      key: PackageKey, fact: PackageFact)
    requires IsInverse(declared, names) && key in rest && key in values && key.analyzer == analyzer
    requires key.package == package
    requires Maps(names, key.kind, fact.identity) && fact.value == values[key]
    ensures !StoredOutside(values, rest, names, analyzer, package, fact)
    ensures forall f :: StoredOutside(values, rest - {key}, names, analyzer, package, f) <==>
      StoredOutside(values, rest, names, analyzer, package, f) || f == fact
  {
    forall kind | Maps(names, kind, fact.identity)
      ensures kind == key.kind
    {
      assert Maps(declared, fact.identity, kind) && Maps(declared, fact.identity, key.kind);
    }
    assert Maps(values, PackageKey(analyzer, package, key.kind), fact.value);
    forall f
      ensures StoredOutside(values, rest - {key}, names, analyzer, package, f) <==>
        StoredOutside(values, rest, names, analyzer, package, f) || f == fact
    {
      if StoredOutside(values, rest - {key}, names, analyzer, package, f) {
        var kind :| Maps(names, kind, f.identity) && Maps(values, PackageKey(analyzer, package, kind), f.value)
          && PackageKey(analyzer, package, kind) !in rest - {key};
      }
      if StoredOutside(values, rest, names, analyzer, package, f) {
        var kind :| Maps(names, kind, f.identity) && Maps(values, PackageKey(analyzer, package, kind), f.value)
          && PackageKey(analyzer, package, kind) !in rest;
        assert PackageKey(analyzer, package, kind) !in rest - {key};
      }
    }
  }

  /** Whether the facts about the package's own objects can be written. */
  ghost predicate Writable(tools: Tools, v: View, names: Names, package: Package, skip: bool) {
    forall key :: key in v.values && tools.home(key.subject) == Some(package) ==>
      if tools.identify(key.subject).None? then skip else key.kind in names
  }

  method CollectObjectFacts(tools: Tools, v: View, names: Names, package: Package,
                            skip: bool) returns (r: Option<seq<Encodable>>)
    ensures r.Some? <==> Writable(tools, v, names, package, skip)
    ensures r.Some? ==> ListsObjectFacts(tools, r.value, v, package) && forall e :: e in r.value ==> e.key.kind in names
  {
    var es: seq<Encodable> := [];
    var rest := v.values.Keys;
    while rest != {}
      invariant rest <= v.values.Keys && Unrepeated(es)
      invariant forall key :: key in v.values && key !in rest && tools.home(key.subject) == Some(package) ==>
        if tools.identify(key.subject).None? then skip else key.kind in names
      invariant forall e :: e in es <==> Maps(v.values, e.key, e.value) && Stable(tools, package, e) && e.key !in rest
      invariant forall e :: e in es ==> e.key.kind in names
      decreases rest
    {
      var key :| key in rest;
      var path := tools.identify(key.subject);
      if tools.home(key.subject) == Some(package) {
        if path.None? {
          if !skip {
            return None;
          }
        } else {
          if key.kind !in names {
            return None;
          }
          es := es + [Encodable(key, path.value, v.values[key])];
        }
      }
      rest := rest - {key};
    }
    return Some(es);
  }

  /** `encodePackageFactSnapshotWithPolicy` up to JSON encoding: it refuses only a fact set that cannot be encoded, or a
      snapshot that is not in order or does not fit. */
  method Encode(tools: Tools, facts: FactSet, analyzer: nat, package: Package, skip: bool) returns (r: Option<Snapshot>)
    requires Dependable(tools)
    ensures r.Some? ==> CanEncode(tools, facts.packageValues, facts.views, analyzer, package, skip)
    ensures r.Some? ==> Ordered(r.value) && tools.fits(r.value)
    ensures r.Some? ==>
      WrittenFrom(tools, facts.packageValues, facts.views[ViewKey(analyzer, package)], analyzer, package, r.value)
    ensures r.None? && CanEncode(tools, facts.packageValues, facts.views, analyzer, package, skip) ==>
      exists t :: !(Ordered(t) && tools.fits(t))
        && WrittenFrom(tools, facts.packageValues, facts.views[ViewKey(analyzer, package)], analyzer, package, t)
  {
    hide ListsPackageFacts, ListsObjectFacts, Ordered, NotAfter, Dependable, IsInverse;
    if tools.path(package) == [] || tools.declared(analyzer).None? {
      return None;
    }
    var names := InvertTypes(tools, analyzer);
    var packageFacts :=
      CollectPackageFacts(facts.packageValues, names, tools.declared(analyzer).value, analyzer, package);
    if packageFacts.None? || ViewKey(analyzer, package) !in facts.views {
      return None;
    }
    var view := facts.views[ViewKey(analyzer, package)];
    var es := CollectObjectFacts(tools, view, names, package, skip);
    if es.None? {
      return None;
    }
    var sorted := Sort(es.value, NotAfter(tools, view));
    SortedKeepsKinds(es.value, NotAfter(tools, view), names);
    var numbered := Numbered(tools.path(package), names, sorted);
    var s := Snapshot(VERSION, tools.name(analyzer), tools.path(package), Sort(packageFacts.value, TypeAtMost),
      Sort(numbered, FactAtMost));
    assert Writes(tools, facts.packageValues, view, analyzer, package, s, names, packageFacts.value, es.value);
    var ordered := ValidateOrder(s);
    if !ordered || !tools.fits(s) {
      return None;
    }
    return Some(s);
  }

  /** Whatever the comparison, sorting invents no elements. */
  lemma {:induction false} SortInventsNothing<T(!new)>(xs: seq<T>, le: (T, T) -> bool)
    ensures forall x :: x in Sort(xs, le) ==> x in xs
    decreases |xs|
  {
    if |xs| > 0 {
      SortInventsNothing(xs[1..], le);
      InsertInventsNothing(xs[0], Sort(xs[1..], le), le);
    }
  }

  lemma {:induction false} InsertInventsNothing<T(!new)>(x: T, xs: seq<T>, le: (T, T) -> bool)
    ensures forall y :: y in Insert(x, xs, le) ==> y == x || y in xs
    decreases |xs|
  {
    if |xs| > 0 {
      InsertInventsNothing(x, xs[1..], le);
    }
  }

  lemma SortedKeepsKinds(es: seq<Encodable>, le: (Encodable, Encodable) -> bool, names: Names)
    requires forall e :: e in es ==> e.key.kind in names
    ensures forall e :: e in Sort(es, le) ==> e.key.kind in names
  {
    SortInventsNothing(es, le);
  }
}
