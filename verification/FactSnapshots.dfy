/** Snapshots of the facts an analyzer holds about one package: what is encoded, what is accepted, and what restoring
    changes (internal/analysis/fact_snapshot.go and the fact views of internal/analysis/package_facts.go). */
module FactSnapshots {
  import opened Encoding
  import opened Ordering
  import opened Sets
  import opened Sorting
  import opened Wrappers

  const VERSION: int := 2

  type Package = nat
  type Object = nat
  type FactType = nat
  type Value = seq<Byte>

  datatype TypeIdentity = TypeIdentity(package: Text, name: Text)
  datatype ObjectIdentity = ObjectIdentity(package: Text, path: Text)

  datatype PackageFact = PackageFact(identity: TypeIdentity, value: Value)
  datatype ObjectFact = ObjectFact(subject: ObjectIdentity, identity: TypeIdentity, value: Value, order: int)

  datatype Snapshot = Snapshot(version: int, analyzer: Text, path: Text, packageFacts: seq<PackageFact>,
    objectFacts: seq<ObjectFact>)

  // ---------- Orders ----------

  function TypeFields(a: TypeIdentity, b: TypeIdentity): seq<int> {
    [CompareText(a.package, b.package), CompareText(a.name, b.name)]
  }

  function CompareType(a: TypeIdentity, b: TypeIdentity): int {
    First(TypeFields(a, b))
  }

  function FactFields(a: ObjectFact, b: ObjectFact): seq<int> {
    [CompareText(a.subject.package, b.subject.package), CompareText(a.subject.path, b.subject.path),
      CompareType(a.identity, b.identity)]
  }

  function CompareObjectFact(a: ObjectFact, b: ObjectFact): int {
    First(FactFields(a, b))
  }

  predicate LessType(a: TypeIdentity, b: TypeIdentity) {
    CompareType(a, b) < 0
  }

  /** `lessPersistedObjectFact`. */
  predicate LessObjectFact(a: ObjectFact, b: ObjectFact) {
    CompareObjectFact(a, b) < 0
  }

  lemma TypeLaws(a: TypeIdentity, b: TypeIdentity, c: TypeIdentity)
    ensures CompareType(a, b) == 0 <==> a == b
    ensures Flips(CompareType(a, b), CompareType(b, a))
    ensures Chains(CompareType(a, b), CompareType(b, c), CompareType(a, c))
  {
    hide CompareText;
    TextLaws(a.package, b.package, c.package);
    TextLaws(a.name, b.name, c.name);
    var ab := TypeFields(a, b);
    FirstZero(ab);
    if First(ab) == 0 {
      assert ab[0] == 0 && ab[1] == 0;
    }
    FirstFlips(ab, TypeFields(b, a));
    FirstChains(ab, TypeFields(b, c), TypeFields(a, c));
  }

  lemma ObjectFactLaws(a: ObjectFact, b: ObjectFact, c: ObjectFact)
    ensures CompareObjectFact(a, b) == 0 <==> a.subject == b.subject && a.identity == b.identity
    ensures Flips(CompareObjectFact(a, b), CompareObjectFact(b, a))
    ensures Chains(CompareObjectFact(a, b), CompareObjectFact(b, c), CompareObjectFact(a, c))
  {
    hide CompareText, CompareType;
    TextLaws(a.subject.package, b.subject.package, c.subject.package);
    TextLaws(a.subject.path, b.subject.path, c.subject.path);
    TypeLaws(a.identity, b.identity, c.identity);
    var ab := FactFields(a, b);
    FirstZero(ab);
    if First(ab) == 0 {
      assert ab[0] == 0 && ab[1] == 0 && ab[2] == 0;
    }
    FirstFlips(ab, FactFields(b, a));
    FirstChains(ab, FactFields(b, c), FactFields(a, c));
  }

  // ---------- Accepted snapshots ----------

  /** Ascending by type, no type twice. */
  ghost predicate PackageFactsOrdered(facts: seq<PackageFact>) {
    forall i, j :: 0 <= i < j < |facts| ==> LessType(facts[i].identity, facts[j].identity)
  }

  /** Ascending by object and type, no pair twice. */
  ghost predicate ObjectFactsOrdered(facts: seq<ObjectFact>) {
    forall i, j :: 0 <= i < j < |facts| ==> LessObjectFact(facts[i], facts[j])
  }

  ghost predicate HasOrder(facts: seq<ObjectFact>, k: int) {
    exists i :: 0 <= i < |facts| && facts[i].order == k
  }

  /** The order fields are exactly the numbers below their count, once each. */
  ghost predicate IsPermutation(facts: seq<ObjectFact>) {
    && (forall i :: 0 <= i < |facts| ==> 0 <= facts[i].order < |facts|)
    && (forall i, j :: 0 <= i < j < |facts| ==> facts[i].order != facts[j].order)
    && forall k :: 0 <= k < |facts| ==> HasOrder(facts, k)
  }

  ghost function Below(n: nat): (numbers: set<int>)
    ensures |numbers| == n && forall k :: k in numbers <==> 0 <= k < n
  {
    if n == 0 then {} else Below(n - 1) + {n - 1}
  }

  /** The marks set after `i` facts. */
  ghost predicate Marked(facts: seq<ObjectFact>, i: nat, marks: set<int>) {
    && i <= |facts| && |marks| == i && (forall k :: k in marks ==> 0 <= k < |facts|)
    && forall k :: k in marks <==> HasOrder(facts[..i], k)
  }

  lemma MarkedStep(facts: seq<ObjectFact>, i: nat, marks: set<int>)
    requires i < |facts| && Marked(facts, i, marks) && facts[i].order !in marks && 0 <= facts[i].order < |facts|
    ensures Marked(facts, i + 1, marks + {facts[i].order})
  {
    var before, after := facts[..i], facts[..i + 1];
    assert after == before + [facts[i]];
    forall k
      ensures HasOrder(after, k) <==> HasOrder(before, k) || k == facts[i].order
    {
      if HasOrder(before, k) {
        var j :| 0 <= j < |before| && before[j].order == k;
        assert after[j].order == k;
      }
      assert after[i].order == facts[i].order;
    }
  }

  /** As many different numbers below n as there are numbers below n are all of them. */
  lemma MarksAreAll(facts: seq<ObjectFact>, marks: set<int>)
    requires Marked(facts, |facts|, marks)
    ensures forall k :: 0 <= k < |facts| ==> HasOrder(facts, k)
  {
    assert facts[..|facts|] == facts;
    SubsetIsSmaller(marks, Below(|facts|));
  }

  method OrdersArePermutation(facts: seq<ObjectFact>) returns (ok: bool)
    ensures ok <==> IsPermutation(facts) && ObjectFactsOrdered(facts)
  {
    hide LessObjectFact, Marked;
    var ordinals := new bool[|facts|](i => false);
    ghost var marks: set<int> := {};
    assert Marked(facts, 0, marks) by { NothingMarked(facts); }
    for i := 0 to |facts|
      invariant Marked(facts, i, marks)
      invariant forall k :: 0 <= k < |facts| ==> (ordinals[k] <==> k in marks)
      invariant forall j :: 0 <= j < i ==> 0 <= facts[j].order < |facts| && facts[j].order in marks
      invariant forall j, l :: 0 <= j < l < i ==> facts[j].order != facts[l].order
      invariant forall j, l :: 0 <= j < l < i ==> LessObjectFact(facts[j], facts[l])
    {
      var fact := facts[i];
      if fact.order < 0 || fact.order >= |facts| {
        return false;
      }
      if ordinals[fact.order] {
        MarkIsOrder(facts, i, marks, fact.order);
        return false;
      }
      MarkedStep(facts, i, marks);
      ordinals[fact.order] := true;
      marks := marks + {fact.order};
      if i == 0 {
        continue;
      }
      if !LessObjectFact(facts[i - 1], fact) {
        return false;
      }
      forall j | 0 <= j < i
        ensures LessObjectFact(facts[j], fact)
      {
        LessChains(facts[j], facts[i - 1], fact);
      }
    }
    MarksAreAll(facts, marks);
    return true;
  }

  lemma NothingMarked(facts: seq<ObjectFact>)
    ensures Marked(facts, 0, {})
  {
  }

  lemma MarkIsOrder(facts: seq<ObjectFact>, i: nat, marks: set<int>, k: int)
    requires Marked(facts, i, marks) && k in marks
    ensures exists j :: 0 <= j < i && facts[j].order == k
  {
  }

  lemma LessChains(a: ObjectFact, b: ObjectFact, c: ObjectFact)
    requires (a == b || LessObjectFact(a, b)) && LessObjectFact(b, c)
    ensures LessObjectFact(a, c)
  {
    ObjectFactLaws(a, b, c);
  }

  method TypesAreOrdered(facts: seq<PackageFact>) returns (ok: bool)
    ensures ok <==> PackageFactsOrdered(facts)
  {
    for i := 0 to |facts|
      invariant forall j, l :: 0 <= j < l < i ==> LessType(facts[j].identity, facts[l].identity)
    {
      if i == 0 {
        continue;
      }
      if !LessType(facts[i - 1].identity, facts[i].identity) {
        return false;
      }
      forall j | 0 <= j < i
        ensures LessType(facts[j].identity, facts[i].identity)
      {
        TypeLaws(facts[j].identity, facts[i - 1].identity, facts[i].identity);
      }
    }
    return true;
  }

  ghost predicate Ordered(s: Snapshot) {
    PackageFactsOrdered(s.packageFacts) && ObjectFactsOrdered(s.objectFacts) && IsPermutation(s.objectFacts)
  }

  /** `validateFactSnapshotOrder`. */
  method ValidateOrder(s: Snapshot) returns (ok: bool)
    ensures ok <==> Ordered(s)
  {
    ok := TypesAreOrdered(s.packageFacts);
    if ok {
      ok := OrdersArePermutation(s.objectFacts);
    }
  }

  // ---------- Fact sets ----------

  datatype PackageKey = PackageKey(analyzer: nat, package: Package, kind: FactType)
  datatype ViewKey = ViewKey(analyzer: nat, package: Package)
  datatype ObjectKey = ObjectKey(subject: Object, kind: FactType)
  datatype View = View(values: map<ObjectKey, Value>, order: map<ObjectKey, int>)

  /** The fact types an analyzer declares, under their identities. */
  type Declared = map<TypeIdentity, FactType>

  /** What comes from the type checker and the codecs: names and declared types of analyzers, paths and sorted
      imports of packages, packages and stable paths of objects, which facts an importer sees, which bytes are the
      canonical encoding of a fact, how unordered facts are listed, and which snapshots fit a cache entry. */
  datatype Tools = Tools(
    name: nat -> Text, declared: nat -> Option<Declared>, path: Package -> Text, imports: Package -> seq<Package>,
    home: Object -> Option<Package>, identify: Object -> Option<Text>, lookup: (Package, Text) -> Option<Object>,
    visible: (Object, Package) -> bool, canonical: (FactType, Value) -> bool,
    tie: (ObjectKey, Value, ObjectKey, Value) -> bool, fits: Snapshot -> bool)

  /** Distinct types have distinct identities, and looking up a path in a package finds an object of that package. */
  ghost predicate Dependable(tools: Tools) {
    && (forall a: nat, i, j ::
         tools.declared(a).Some? && i in tools.declared(a).value && j in tools.declared(a).value && i != j ==>
           tools.declared(a).value[i] != tools.declared(a).value[j])
    && forall p: Package, path: Text :: tools.lookup(p, path).Some? ==>
      tools.home(tools.lookup(p, path).value) == Some(p)
  }

  /** `factObjectResolver.Resolve`: the object at a path, if that is its canonical path. */
  function Resolve(tools: Tools, package: Package, identity: ObjectIdentity): Option<Object> {
    if identity.package == [] || identity.path == [] || tools.path(package) != identity.package then None
    else
      var found := tools.lookup(package, identity.path);
      if found.Some? && tools.identify(found.value) == Some(identity.path) then found else None
  }

  // ---------- Inherited object facts ----------

  predicate Maps<K(==), V(==)>(m: map<K, V>, key: K, value: V) {
    key in m && m[key] == value
  }

  ghost predicate Offers(tools: Tools, views: map<ViewKey, View>, analyzer: nat, imported: Package, key: ObjectKey,
                         value: Value)
  {
    && ViewKey(analyzer, imported) in views && tools.visible(key.subject, imported)
    && Maps(views[ViewKey(analyzer, imported)].values, key, value)
  }

  ghost predicate OffersOrder(tools: Tools, views: map<ViewKey, View>, analyzer: nat, imported: Package, key: ObjectKey,
                              n: int)
  {
    && ViewKey(analyzer, imported) in views && tools.visible(key.subject, imported)
    && key in views[ViewKey(analyzer, imported)].values && Maps(views[ViewKey(analyzer, imported)].order, key, n)
  }

  ghost predicate SomeOffers(tools: Tools, views: map<ViewKey, View>, analyzer: nat, imports: seq<Package>,
                             key: ObjectKey, value: Value)
  {
    exists i :: 0 <= i < |imports| && Offers(tools, views, analyzer, imports[i], key, value)
  }

  ghost predicate SomeOffersOrder(tools: Tools, views: map<ViewKey, View>, analyzer: nat, imports: seq<Package>,
                                  key: ObjectKey, n: int)
  {
    exists i :: 0 <= i < |imports| && OffersOrder(tools, views, analyzer, imports[i], key, n)
  }

  /** The view holds exactly what the imports offer, so they must agree. */
  ghost predicate Inherits(tools: Tools, views: map<ViewKey, View>, analyzer: nat, imports: seq<Package>, v: View) {
    && (forall i :: 0 <= i < |imports| ==> ViewKey(analyzer, imports[i]) in views)
    && (forall key, value :: Maps(v.values, key, value) <==> SomeOffers(tools, views, analyzer, imports, key, value))
    && forall key, n :: Maps(v.order, key, n) <==> SomeOffersOrder(tools, views, analyzer, imports, key, n)
  }

  // ---------- Restoring ----------

  datatype Restored = Done | Rejected | Conflict

  /** The types, codecs and identities of a package fact are in order. */
  predicate GoodPackageFact(tools: Tools, declared: Declared, f: PackageFact) {
    f.identity in declared && tools.canonical(declared[f.identity], f.value)
  }

  /** An object fact that cannot be resolved may be skipped by policy. */
  predicate GoodObjectFact(tools: Tools, declared: Declared, package: Package, f: ObjectFact, skip: bool) {
    && f.subject.package == tools.path(package)
    && if Resolve(tools, package, f.subject).None? then skip
       else f.identity in declared && tools.canonical(declared[f.identity], f.value)
  }

  ghost predicate Acceptable(tools: Tools, analyzer: nat, package: Package, s: Snapshot, skip: bool) {
    && tools.declared(analyzer).Some? && tools.path(package) != [] && s.version == VERSION && Ordered(s)
    && s.analyzer != [] && s.path != [] && s.analyzer == tools.name(analyzer) && s.path == tools.path(package)
    && (forall f :: f in s.packageFacts ==> GoodPackageFact(tools, tools.declared(analyzer).value, f))
    && forall f :: f in s.objectFacts ==> GoodObjectFact(tools, tools.declared(analyzer).value, package, f, skip)
  }

  function PackageKeyOf(declared: Declared, analyzer: nat, package: Package, f: PackageFact): Option<PackageKey> {
    if f.identity in declared then Some(PackageKey(analyzer, package, declared[f.identity])) else None
  }

  /** The stored form of the package facts. */
  ghost predicate HoldsPackageFacts(m: map<PackageKey, Value>, declared: Declared, analyzer: nat, package: Package,
                                    facts: seq<PackageFact>)
  {
    && (forall key :: key in m ==>
      exists i :: 0 <= i < |facts| && PackageKeyOf(declared, analyzer, package, facts[i]) == Some(key))
    && forall i :: 0 <= i < |facts| && PackageKeyOf(declared, analyzer, package, facts[i]).Some? ==>
         var key := PackageKeyOf(declared, analyzer, package, facts[i]).value; key in m && m[key] == facts[i].value
  }

  /** The key of a persisted object fact, if it resolves. */
  function KeyOf(tools: Tools, declared: Declared, package: Package, f: ObjectFact): Option<ObjectKey> {
    var found := Resolve(tools, package, f.subject);
    if found.Some? && f.identity in declared then Some(ObjectKey(found.value, declared[f.identity])) else None
  }

  ghost predicate HoldsObjectFacts(v: View, tools: Tools, declared: Declared, package: Package, facts: seq<ObjectFact>)
  {
    && v.values.Keys == v.order.Keys
    && (forall key :: key in v.values ==>
      exists i :: 0 <= i < |facts| && KeyOf(tools, declared, package, facts[i]) == Some(key))
    && forall i :: 0 <= i < |facts| && KeyOf(tools, declared, package, facts[i]).Some? ==>
         var key := KeyOf(tools, declared, package, facts[i]).value;
         key in v.values && key in v.order && v.values[key] == facts[i].value && v.order[key] == facts[i].order
  }

  /** Different persisted facts have different keys. */
  lemma KeysDiffer(tools: Tools, analyzer: nat, package: Package, facts: seq<ObjectFact>, i: nat, j: nat)
    requires Dependable(tools) && tools.declared(analyzer).Some? && ObjectFactsOrdered(facts) && i < j < |facts|
    requires KeyOf(tools, tools.declared(analyzer).value, package, facts[i]).Some?
    ensures KeyOf(tools, tools.declared(analyzer).value, package, facts[i]) != KeyOf(tools,
      tools.declared(analyzer).value, package, facts[j])
  {
    ObjectFactLaws(facts[i], facts[j], facts[j]);
    assert LessObjectFact(facts[i], facts[j]);
  }

  function Combined(v: View, w: View): View {
    View(v.values + w.values, v.order + w.order)
  }

  predicate PackageConflict(m: map<PackageKey, Value>, n: map<PackageKey, Value>) {
    exists key :: key in n && key in m && m[key] != n[key]
  }

  predicate ViewConflict(v: View, w: View) {
    || (exists key :: key in w.values && key in v.values && v.values[key] != w.values[key])
    || (exists key :: key in w.order && key in v.order && v.order[key] != w.order[key])
  }

  lemma PackageKeysDiffer(tools: Tools, analyzer: nat, package: Package, facts: seq<PackageFact>, i: nat, j: nat)
    requires Dependable(tools) && tools.declared(analyzer).Some? && PackageFactsOrdered(facts) && i < j < |facts|
    requires facts[i].identity in tools.declared(analyzer).value
    ensures PackageKeyOf(tools.declared(analyzer).value, analyzer, package, facts[i]) !=
      PackageKeyOf(tools.declared(analyzer).value, analyzer, package, facts[j])
  {
    TypeLaws(facts[i].identity, facts[j].identity, facts[j].identity);
    assert LessType(facts[i].identity, facts[j].identity);
  }

  method ReadPackageFacts(tools: Tools, analyzer: nat, package: Package,
                          facts: seq<PackageFact>) returns (r: Option<map<PackageKey, Value>>)
    requires Dependable(tools) && tools.declared(analyzer).Some? && PackageFactsOrdered(facts)
    ensures r.Some? <==> forall f :: f in facts ==> GoodPackageFact(tools, tools.declared(analyzer).value, f)
    ensures r.Some? ==> HoldsPackageFacts(r.value, tools.declared(analyzer).value, analyzer, package, facts)
  {
    hide PackageFactsOrdered;
    var declared := tools.declared(analyzer).value;
    var m: map<PackageKey, Value> := map[];
    for i := 0 to |facts|
      invariant forall f :: f in facts[..i] ==> GoodPackageFact(tools, declared, f)
      invariant forall key :: key in m ==>
        exists j :: 0 <= j < i && PackageKeyOf(declared, analyzer, package, facts[j]) == Some(key)
      invariant forall j :: 0 <= j < i ==> PackageKeyOf(declared, analyzer, package, facts[j]).Some?
      invariant forall j :: 0 <= j < i ==>
        var key := PackageKeyOf(declared, analyzer, package, facts[j]).value; key in m && m[key] == facts[j].value
    {
      var f := facts[i];
      if !GoodPackageFact(tools, declared, f) {
        assert f in facts;
        return None;
      }
      assert facts[..i + 1] == facts[..i] + [f];
      forall j | 0 <= j < i
        ensures PackageKeyOf(declared, analyzer, package, facts[j]) != PackageKeyOf(declared, analyzer, package, f)
      {
        PackageKeysDiffer(tools, analyzer, package, facts, j, i);
      }
      m := m[PackageKey(analyzer, package, declared[f.identity]) := f.value];
    }
    assert facts[..|facts|] == facts;
    return Some(m);
  }

  method ReadObjectFacts(tools: Tools, analyzer: nat, package: Package, facts: seq<ObjectFact>,
                         skip: bool) returns (r: Option<View>)
    requires Dependable(tools) && tools.declared(analyzer).Some? && ObjectFactsOrdered(facts)
    ensures r.Some? <==>
      forall f :: f in facts ==> GoodObjectFact(tools, tools.declared(analyzer).value, package, f, skip)
    ensures r.Some? ==> HoldsObjectFacts(r.value, tools, tools.declared(analyzer).value, package, facts)
  {
    hide ObjectFactsOrdered, Resolve;
    var declared := tools.declared(analyzer).value;
    var v := View(map[], map[]);
    for i := 0 to |facts|
      invariant forall f :: f in facts[..i] ==> GoodObjectFact(tools, declared, package, f, skip)
      invariant v.values.Keys == v.order.Keys
      invariant forall key :: key in v.values ==>
        exists j :: 0 <= j < i && KeyOf(tools, declared, package, facts[j]) == Some(key)
      invariant forall j :: 0 <= j < i && KeyOf(tools, declared, package, facts[j]).Some? ==>
        var key := KeyOf(tools, declared, package, facts[j]).value;
        key in v.values && key in v.order && v.values[key] == facts[j].value && v.order[key] == facts[j].order
    {
      var f := facts[i];
      assert f in facts && facts[..i + 1] == facts[..i] + [f];
      if !GoodObjectFact(tools, declared, package, f, skip) {
        return None;
      }
      var found := Resolve(tools, package, f.subject);
      if found.None? {
        continue;
      }
      forall j | 0 <= j < i && KeyOf(tools, declared, package, facts[j]).Some?
        ensures KeyOf(tools, declared, package, facts[j]) != KeyOf(tools, declared, package, f)
      {
        KeysDiffer(tools, analyzer, package, facts, j, i);
      }
      var key := ObjectKey(found.value, declared[f.identity]);
      v := View(v.values[key := f.value], v.order[key := f.order]);
    }
    assert facts[..|facts|] == facts;
    return Some(v);
  }

  // ---------- The fact set ----------

  class FactSet {
    var packageValues: map<PackageKey, Value>
    var views: map<ViewKey, View>

    constructor ()
      ensures packageValues == map[] && views == map[]
    {
      packageValues, views := map[], map[];
    }

    /** A view starts with what the imports offer, or not at all if they disagree. */
    method BeginObjectFacts(tools: Tools, analyzer: nat, package: Package) returns (ok: bool)
      modifies this`views
      ensures ViewKey(analyzer, package) in old(views) ==> ok && views == old(views)
      ensures ViewKey(analyzer, package) !in old(views) && ok ==>
        exists v :: Inherits(tools, old(views), analyzer, tools.imports(package), v)
          && views == old(views)[ViewKey(analyzer, package) := v]
      ensures !ok ==> views == old(views) && forall v :: !Inherits(tools, views, analyzer, tools.imports(package), v)
    {
      if ViewKey(analyzer, package) in views {
        return true;
      }
      var imports := tools.imports(package);
      var v := View(map[], map[]);
      NothingInherited(tools, views, analyzer);
      for i := 0 to |imports|
        invariant views == old(views)
        invariant Inherits(tools, views, analyzer, imports[..i], v)
      {
        if ViewKey(analyzer, imports[i]) !in views {
          MissingView(tools, views, analyzer, imports, i);
          return false;
        }
        var merged := InheritFrom(tools, views, analyzer, imports, i, v);
        if merged.None? {
          return false;
        }
        v := merged.value;
      }
      assert imports[..|imports|] == imports;
      views := views[ViewKey(analyzer, package) := v];
      return true;
    }

    /** `restorePackageFactSnapshotWithPolicy` after JSON decoding.  Whatever fails, no stored fact changes. */
    method Restore(tools: Tools, analyzer: nat, package: Package, s: Snapshot, skip: bool) returns (r: Restored)
      requires Dependable(tools)
      modifies this
      ensures !Acceptable(tools, analyzer, package, s, skip) ==> r == Rejected && views == old(views)
      ensures r != Done ==> packageValues == old(packageValues)
      ensures r != Done ==> forall key :: key in old(views) ==> key in views && views[key] == old(views)[key]
      ensures r == Done ==>
        RestoredTo(tools, analyzer, package, s, old(packageValues), old(views), packageValues, views)
      ensures r == Conflict ==> Contradicts(tools, analyzer, package, s, old(packageValues), old(views))
      ensures r == Rejected && Acceptable(tools, analyzer, package, s, skip) ==>
        forall v :: !StartsFrom(tools, old(views), analyzer, package, v)
    {
      hide Acceptable, Inherits, HoldsObjectFacts, HoldsPackageFacts, GoodObjectFact, GoodPackageFact, PackageConflict,
        ViewConflict, Ordered;
      var ordered := ValidateOrder(s);
      if tools.declared(analyzer).None? || tools.path(package) == [] || s.version != VERSION || s.analyzer == []
        || s.path == [] || !ordered
         || s.analyzer != tools.name(analyzer) || s.path != tools.path(package)
      {
        NotAcceptable(tools, analyzer, package, s, skip);
        return Rejected;
      }
      OrderedParts(s);
      var packageFacts := ReadPackageFacts(tools, analyzer, package, s.packageFacts);
      if packageFacts.None? {
        NotAcceptable(tools, analyzer, package, s, skip);
        return Rejected;
      }
      var objectFacts := ReadObjectFacts(tools, analyzer, package, s.objectFacts, skip);
      NotAcceptable(tools, analyzer, package, s, skip);
      if objectFacts.None? {
        return Rejected;
      }
      if PackageConflict(packageValues, packageFacts.value) {
        return Conflict;
      }
      var begun := BeginObjectFacts(tools, analyzer, package);
      if !begun {
        return Rejected;
      }
      var key := ViewKey(analyzer, package);
      var view := views[key];
      if ViewConflict(view, objectFacts.value) {
        return Conflict;
      }
      packageValues := packageValues + packageFacts.value;
      views := views[key := Combined(view, objectFacts.value)];
      return Done;
    }
  }

  lemma OrderedParts(s: Snapshot)
    requires Ordered(s)
    ensures PackageFactsOrdered(s.packageFacts) && ObjectFactsOrdered(s.objectFacts)
  {
  }

  lemma NotAcceptable(tools: Tools, analyzer: nat, package: Package, s: Snapshot, skip: bool)
    ensures Acceptable(tools, analyzer, package, s, skip) <==>
      && tools.declared(analyzer).Some? && tools.path(package) != [] && s.version == VERSION && Ordered(s)
      && s.analyzer != [] && s.path != [] && s.analyzer == tools.name(analyzer) && s.path == tools.path(package)
      && (forall f :: f in s.packageFacts ==> GoodPackageFact(tools, tools.declared(analyzer).value, f))
      && forall f :: f in s.objectFacts ==> GoodObjectFact(tools, tools.declared(analyzer).value, package, f, skip)
  {
  }

  /** The view restoring works on: the one there is, or the inherited one. */
  ghost predicate StartsFrom(tools: Tools, views: map<ViewKey, View>, analyzer: nat, package: Package, v: View) {
    if ViewKey(analyzer, package) in views then v == views[ViewKey(analyzer, package)]
    else Inherits(tools, views, analyzer, tools.imports(package), v)
  }

  /** The facts of the snapshot are added, and contradict none that were there. */
  ghost predicate RestoredTo(tools: Tools, analyzer: nat, package: Package, s: Snapshot,
                             packageValues: map<PackageKey, Value>, views: map<ViewKey, View>,
                             newValues: map<PackageKey, Value>, newViews: map<ViewKey, View>) {
    && tools.declared(analyzer).Some?
    && exists m, v, w ::
         && HoldsPackageFacts(m, tools.declared(analyzer).value, analyzer, package, s.packageFacts)
         && HoldsObjectFacts(w, tools, tools.declared(analyzer).value, package, s.objectFacts)
         && StartsFrom(tools, views, analyzer, package, v) && !PackageConflict(packageValues, m) && !ViewConflict(v, w)
         && newValues == packageValues + m && newViews == views[ViewKey(analyzer, package) := Combined(v, w)]
  }

  /** A fact of the snapshot differs from one that is there. */
  ghost predicate Contradicts(tools: Tools, analyzer: nat, package: Package, s: Snapshot,
                              packageValues: map<PackageKey, Value>, views: map<ViewKey, View>)
  {
    && tools.declared(analyzer).Some?
    && ((exists m ::
           && HoldsPackageFacts(m, tools.declared(analyzer).value, analyzer, package, s.packageFacts)
           && PackageConflict(packageValues, m))
        || exists v, w :: HoldsObjectFacts(w, tools, tools.declared(analyzer).value, package, s.objectFacts)
             && StartsFrom(tools, views, analyzer, package, v) && ViewConflict(v, w))
  }

  // ---------- What restoring means for single facts ----------

  /** `o` is the object that a persisted fact is about: its path leads there, and is the canonical one. */
  predicate IsAbout(tools: Tools, package: Package, f: ObjectFact, o: Object) {
    && f.subject.package == tools.path(package) && f.subject.path != []
    && tools.lookup(package, f.subject.path) == Some(o) && tools.identify(o) == Some(f.subject.path)
  }

  ghost predicate HasObjectFact(views: map<ViewKey, View>, at: ViewKey, key: ObjectKey, value: Value, order: int) {
    at in views && Maps(views[at].values, key, value) && Maps(views[at].order, key, order)
  }

  /** Every fact there was is there as it was. */
  ghost predicate NothingForgotten(oldValues: map<PackageKey, Value>, oldViews: map<ViewKey, View>,
                                   newValues: map<PackageKey, Value>, newViews: map<ViewKey, View>) {
    && (forall key, value :: Maps(oldValues, key, value) ==> Maps(newValues, key, value))
    && (forall at :: at in oldViews ==> at in newViews)
    && (forall at, key, value :: at in oldViews && Maps(oldViews[at].values, key, value) ==>
      Maps(newViews[at].values, key, value))
    && forall at, key, n :: at in oldViews && Maps(oldViews[at].order, key, n) ==> Maps(newViews[at].order, key, n)
  }

  /** Restoring takes every package fact over, each of a declared type and canonically encoded. */
  lemma PackageFactsAreRestored(tools: Tools, analyzer: nat, package: Package, s: Snapshot, skip: bool,
                                oldValues: map<PackageKey, Value>, oldViews: map<ViewKey, View>,
                                newValues: map<PackageKey, Value>, newViews: map<ViewKey, View>, f: PackageFact)
    requires Acceptable(tools, analyzer, package, s, skip) && f in s.packageFacts
    requires RestoredTo(tools, analyzer, package, s, oldValues, oldViews, newValues, newViews)
    ensures tools.declared(analyzer).Some? && f.identity in tools.declared(analyzer).value
    ensures var kind := tools.declared(analyzer).value[f.identity];
      tools.canonical(kind, f.value) && Maps(newValues, PackageKey(analyzer, package, kind), f.value)
  {
    hide Ordered, StartsFrom, HoldsPackageFacts, HoldsObjectFacts, PackageConflict, ViewConflict;
    var m, v, w := RestoredParts(tools, analyzer, package, s, oldValues, oldViews, newValues, newViews);
    PackageFactIsHeld(tools, tools.declared(analyzer).value, analyzer, package, s.packageFacts, m, f);
  }

  /** Restoring takes every object fact over with its value and order, under the object it is about. A fact may be
      about no object only where that may be skipped; all others are of declared types and canonically encoded. */
  lemma ObjectFactsAreRestored(tools: Tools, analyzer: nat, package: Package, s: Snapshot, skip: bool,
                               oldValues: map<PackageKey, Value>, oldViews: map<ViewKey, View>,
                               newValues: map<PackageKey, Value>, newViews: map<ViewKey, View>, f: ObjectFact)
    requires Acceptable(tools, analyzer, package, s, skip) && f in s.objectFacts
    requires RestoredTo(tools, analyzer, package, s, oldValues, oldViews, newValues, newViews)
    ensures skip || exists o :: IsAbout(tools, package, f, o)
    ensures forall o :: IsAbout(tools, package, f, o) ==>
      && tools.declared(analyzer).Some? && f.identity in tools.declared(analyzer).value
      && var kind := tools.declared(analyzer).value[f.identity];
         && tools.canonical(kind, f.value)
         && HasObjectFact(newViews, ViewKey(analyzer, package), ObjectKey(o, kind), f.value, f.order)
  {
    hide Ordered, StartsFrom, HoldsPackageFacts, HoldsObjectFacts, PackageConflict, ViewConflict, IsAbout;
    var m, v, w := RestoredParts(tools, analyzer, package, s, oldValues, oldViews, newValues, newViews);
    ResolvedIsAbout(tools, tools.declared(analyzer).value, package, f, skip);
    forall o | IsAbout(tools, package, f, o)
      ensures f.identity in tools.declared(analyzer).value
      ensures var kind := tools.declared(analyzer).value[f.identity];
        && tools.canonical(kind, f.value)
        && HasObjectFact(newViews, ViewKey(analyzer, package), ObjectKey(o, kind), f.value, f.order)
    {
      ObjectFactIsHeld(tools, tools.declared(analyzer).value, package, s.objectFacts, w, f, o, skip);
    }
  }

  /** Restoring changes no fact that was there. */
  lemma RestoringForgetsNothing(tools: Tools, analyzer: nat, package: Package, s: Snapshot,
                                oldValues: map<PackageKey, Value>, oldViews: map<ViewKey, View>,
                                newValues: map<PackageKey, Value>, newViews: map<ViewKey, View>)
    requires RestoredTo(tools, analyzer, package, s, oldValues, oldViews, newValues, newViews)
    ensures NothingForgotten(oldValues, oldViews, newValues, newViews)
  {
    hide StartsFrom, HoldsPackageFacts, HoldsObjectFacts, PackageConflict, ViewConflict, NothingForgotten;
    var m, v, w := RestoredParts(tools, analyzer, package, s, oldValues, oldViews, newValues, newViews);
    AddingForgetsNothing(tools, analyzer, package, oldValues, oldViews, m, v, w);
  }

  lemma RestoredParts(tools: Tools, analyzer: nat, package: Package, s: Snapshot, oldValues: map<PackageKey, Value>,
                      oldViews: map<ViewKey, View>, newValues: map<PackageKey, Value>, newViews: map<ViewKey, View>)
    returns (m: map<PackageKey, Value>, v: View, w: View)
    requires RestoredTo(tools, analyzer, package, s, oldValues, oldViews, newValues, newViews)
    ensures tools.declared(analyzer).Some?
    ensures HoldsPackageFacts(m, tools.declared(analyzer).value, analyzer, package, s.packageFacts)
    ensures HoldsObjectFacts(w, tools, tools.declared(analyzer).value, package, s.objectFacts)
    ensures StartsFrom(tools, oldViews, analyzer, package, v) && !PackageConflict(oldValues, m) && !ViewConflict(v, w)
    ensures newValues == oldValues + m && newViews == oldViews[ViewKey(analyzer, package) := Combined(v, w)]
  {
    hide HoldsPackageFacts, HoldsObjectFacts, StartsFrom, PackageConflict, ViewConflict;
    var declared := tools.declared(analyzer).value;
    m, v, w :|
      && HoldsPackageFacts(m, declared, analyzer, package, s.packageFacts)
      && HoldsObjectFacts(w, tools, declared, package, s.objectFacts)
      && StartsFrom(tools, oldViews, analyzer, package, v) && !PackageConflict(oldValues, m) && !ViewConflict(v, w)
      && newValues == oldValues + m && newViews == oldViews[ViewKey(analyzer, package) := Combined(v, w)];
  }

  lemma AddingForgetsNothing(tools: Tools, analyzer: nat, package: Package, oldValues: map<PackageKey, Value>,
                             oldViews: map<ViewKey, View>, m: map<PackageKey, Value>, v: View, w: View)
    requires StartsFrom(tools, oldViews, analyzer, package, v) && !PackageConflict(oldValues, m) && !ViewConflict(v, w)
    ensures NothingForgotten(oldValues, oldViews, oldValues + m,
      oldViews[ViewKey(analyzer, package) := Combined(v, w)])
  {
    hide Inherits;
  }

  lemma PackageFactIsHeld(tools: Tools, declared: Declared, analyzer: nat, package: Package, facts: seq<PackageFact>,
                          m: map<PackageKey, Value>, f: PackageFact)
    requires f in facts && GoodPackageFact(tools, declared, f)
    requires HoldsPackageFacts(m, declared, analyzer, package, facts)
    ensures f.identity in declared && tools.canonical(declared[f.identity], f.value)
    ensures Maps(m, PackageKey(analyzer, package, declared[f.identity]), f.value)
  {
    var i :| 0 <= i < |facts| && facts[i] == f;
    assert PackageKeyOf(declared, analyzer, package, facts[i]).Some?;
  }

  lemma ResolvedIsAbout(tools: Tools, declared: Declared, package: Package, f: ObjectFact, skip: bool)
    requires GoodObjectFact(tools, declared, package, f, skip)
    ensures skip || exists o :: IsAbout(tools, package, f, o)
  {
    var found := Resolve(tools, package, f.subject);
    if found.Some? {
      assert IsAbout(tools, package, f, found.value);
    }
  }

  lemma ObjectFactIsHeld(tools: Tools, declared: Declared, package: Package, facts: seq<ObjectFact>, w: View,
                         f: ObjectFact, o: Object, skip: bool)
    requires f in facts && IsAbout(tools, package, f, o) && tools.path(package) != []
    requires GoodObjectFact(tools, declared, package, f, skip) && HoldsObjectFacts(w, tools, declared, package, facts)
    ensures f.identity in declared && tools.canonical(declared[f.identity], f.value)
    ensures Maps(w.values, ObjectKey(o, declared[f.identity]), f.value)
    ensures Maps(w.order, ObjectKey(o, declared[f.identity]), f.order)
  {
    var i :| 0 <= i < |facts| && facts[i] == f;
    assert KeyOf(tools, declared, package, facts[i]) == Some(ObjectKey(o, declared[f.identity]));
  }

  // ---------- Inheriting from one import ----------

  lemma NothingInherited(tools: Tools, views: map<ViewKey, View>, analyzer: nat)
    ensures Inherits(tools, views, analyzer, [], View(map[], map[]))
  {
  }

  lemma MissingView(tools: Tools, views: map<ViewKey, View>, analyzer: nat, imports: seq<Package>, i: nat)
    requires i < |imports| && ViewKey(analyzer, imports[i]) !in views
    ensures forall v :: !Inherits(tools, views, analyzer, imports, v)
  {
  }

  /** The view while the facts of one more import are taken over, those outside `rest` so far. */
  ghost predicate Taking(tools: Tools, before: View, dependency: View, imported: Package, rest: set<ObjectKey>, v: View)
  {
    && (forall key, value :: Maps(v.values, key, value) <==>
         Maps(before.values, key, value)
           || (Taken(tools, dependency, imported, rest, key) && Maps(dependency.values, key, value)))
    && (forall key, n :: Maps(v.order, key, n) <==>
         Maps(before.order, key, n)
           || (Taken(tools, dependency, imported, rest, key) && Maps(dependency.order, key, n)))
  }

  predicate Taken(tools: Tools, dependency: View, imported: Package, rest: set<ObjectKey>, key: ObjectKey) {
    key in dependency.values && key !in rest && tools.visible(key.subject, imported)
  }

  method InheritFrom(tools: Tools, views: map<ViewKey, View>, analyzer: nat, imports: seq<Package>, i: nat,
                     before: View) returns (r: Option<View>)
    requires i < |imports| && ViewKey(analyzer, imports[i]) in views
    requires Inherits(tools, views, analyzer, imports[..i], before)
    ensures r.Some? ==> Inherits(tools, views, analyzer, imports[..i + 1], r.value)
    ensures r.None? ==> forall v :: !Inherits(tools, views, analyzer, imports, v)
  {
    hide Inherits, Taking;
    var imported := imports[i];
    var dependency := views[ViewKey(analyzer, imported)];
    var v := before;
    var rest := dependency.values.Keys;
    NothingTaken(tools, before, dependency, imported);
    while rest != {}
      invariant rest <= dependency.values.Keys && Taking(tools, before, dependency, imported, rest, v)
      decreases rest
    {
      var key :| key in rest;
      if !tools.visible(key.subject, imported) {
        InvisibleStep(tools, before, dependency, imported, rest, v, key);
        rest := rest - {key};
        continue;
      }
      if key in v.values && v.values[key] != dependency.values[key] {
        ValuesDisagree(tools, views, analyzer, imports, i, before, rest, v, key);
        return None;
      }
      if key in dependency.order && key in v.order && v.order[key] != dependency.order[key] {
        OrdersDisagree(tools, views, analyzer, imports, i, before, rest, v, key);
        return None;
      }
      TakeStep(tools, before, dependency, imported, rest, v, key);
      v := View(v.values[key := dependency.values[key]], if key in dependency.order
        then v.order[key := dependency.order[key]] else v.order);
      rest := rest - {key};
    }
    AllTaken(tools, views, analyzer, imports, i, before, v);
    return Some(v);
  }

  lemma NothingTaken(tools: Tools, before: View, dependency: View, imported: Package)
    ensures Taking(tools, before, dependency, imported, dependency.values.Keys, before)
  {
  }

  lemma InvisibleStep(tools: Tools, before: View, dependency: View, imported: Package, rest: set<ObjectKey>, v: View,
                      key: ObjectKey)
    requires Taking(tools, before, dependency, imported, rest, v) && !tools.visible(key.subject, imported)
    ensures Taking(tools, before, dependency, imported, rest - {key}, v)
  {
  }

  lemma TakeStep(tools: Tools, before: View, dependency: View, imported: Package, rest: set<ObjectKey>, v: View,
                 key: ObjectKey)
    requires Taking(tools, before, dependency, imported, rest, v) && key in rest && key in dependency.values
    requires tools.visible(key.subject, imported) && (key in v.values ==> v.values[key] == dependency.values[key])
    requires key in dependency.order && key in v.order ==> v.order[key] == dependency.order[key]
    ensures Taking(tools, before, dependency, imported, rest - {key},
      View(v.values[key := dependency.values[key]], if key in dependency.order
        then v.order[key := dependency.order[key]] else v.order))
  {
    var w := View(v.values[key := dependency.values[key]], if key in dependency.order
      then v.order[key := dependency.order[key]] else v.order);
    forall k, value
      ensures Maps(w.values, k, value) <==>
        Maps(before.values, k, value)
          || (Taken(tools, dependency, imported, rest - {key}, k) && Maps(dependency.values, k, value))
    {
      assert Maps(v.values, k, value) <==>
        Maps(before.values, k, value)
          || (Taken(tools, dependency, imported, rest, k) && Maps(dependency.values, k, value));
      assert k == key && Maps(before.values, k, value) ==> Maps(v.values, k, value);
    }
    forall k, n
      ensures Maps(w.order, k, n) <==>
        Maps(before.order, k, n)
          || (Taken(tools, dependency, imported, rest - {key}, k) && Maps(dependency.order, k, n))
    {
      assert Maps(v.order, k, n) <==>
        Maps(before.order, k, n) || (Taken(tools, dependency, imported, rest, k) && Maps(dependency.order, k, n));
      assert k == key && Maps(before.order, k, n) ==> Maps(v.order, k, n);
    }
  }

  lemma OffersSnoc(tools: Tools, views: map<ViewKey, View>, analyzer: nat, imports: seq<Package>, i: nat)
    requires i < |imports|
    ensures forall key, value :: SomeOffers(tools, views, analyzer, imports[..i + 1], key, value) <==>
      SomeOffers(tools, views, analyzer, imports[..i], key, value)
        || Offers(tools, views, analyzer, imports[i], key, value)
    ensures forall key, n :: SomeOffersOrder(tools, views, analyzer, imports[..i + 1], key, n) <==>
      SomeOffersOrder(tools, views, analyzer, imports[..i], key, n)
        || OffersOrder(tools, views, analyzer, imports[i], key, n)
  {
    hide Offers, OffersOrder;
    var few, more := imports[..i], imports[..i + 1];
    assert more == few + [imports[i]];
    forall key, value
      ensures SomeOffers(tools, views, analyzer, more, key, value) <==>
        SomeOffers(tools, views, analyzer, few, key, value) || Offers(tools, views, analyzer, imports[i], key, value)
    {
      if SomeOffers(tools, views, analyzer, few, key, value) {
        var j :| 0 <= j < |few| && Offers(tools, views, analyzer, few[j], key, value);
        assert more[j] == few[j];
      }
      assert more[i] == imports[i];
    }
    forall key, n
      ensures SomeOffersOrder(tools, views, analyzer, more, key, n) <==>
        SomeOffersOrder(tools, views, analyzer, few, key, n) || OffersOrder(tools, views, analyzer, imports[i], key, n)
    {
      if SomeOffersOrder(tools, views, analyzer, few, key, n) {
        var j :| 0 <= j < |few| && OffersOrder(tools, views, analyzer, few[j], key, n);
        assert more[j] == few[j];
      }
      assert more[i] == imports[i];
    }
  }

  lemma AllTaken(tools: Tools, views: map<ViewKey, View>, analyzer: nat, imports: seq<Package>, i: nat, before: View,
                 v: View)
    requires i < |imports| && ViewKey(analyzer, imports[i]) in views
    requires Inherits(tools, views, analyzer, imports[..i], before)
    requires Taking(tools, before, views[ViewKey(analyzer, imports[i])], imports[i], {}, v)
    ensures Inherits(tools, views, analyzer, imports[..i + 1], v)
  {
    hide SomeOffers, SomeOffersOrder;
    OffersSnoc(tools, views, analyzer, imports, i);
    var more := imports[..i + 1];
    assert more == imports[..i] + [imports[i]];
    var dependency := views[ViewKey(analyzer, imports[i])];
    forall key, value
      ensures Maps(v.values, key, value) <==> SomeOffers(tools, views, analyzer, more, key, value)
    {
      assert Taken(tools, dependency, imports[i], {}, key) && Maps(dependency.values, key, value) <==>
        Offers(tools, views, analyzer, imports[i], key, value);
    }
    forall key, n
      ensures Maps(v.order, key, n) <==> SomeOffersOrder(tools, views, analyzer, more, key, n)
    {
      assert Taken(tools, dependency, imports[i], {}, key) && Maps(dependency.order, key, n) <==>
        OffersOrder(tools, views, analyzer, imports[i], key, n);
    }
  }

  lemma ValuesDisagree(tools: Tools, views: map<ViewKey, View>, analyzer: nat, imports: seq<Package>, i: nat,
                       before: View,
                       rest: set<ObjectKey>, v: View, key: ObjectKey)
    requires i < |imports| && ViewKey(analyzer, imports[i]) in views
    requires Inherits(tools, views, analyzer, imports[..i], before)
    requires var dependency := views[ViewKey(analyzer, imports[i])];
      && Taking(tools, before, dependency, imports[i], rest, v) && key in dependency.values
        && tools.visible(key.subject, imports[i])
      && key in v.values && v.values[key] != dependency.values[key]
    ensures forall w :: !Inherits(tools, views, analyzer, imports, w)
  {
    var dependency := views[ViewKey(analyzer, imports[i])];
    var mine, yours := v.values[key], dependency.values[key];
    assert Maps(v.values, key, mine) && Maps(before.values, key, mine);
    assert SomeOffers(tools, views, analyzer, imports[..i], key, mine);
    var j :| 0 <= j < i && Offers(tools, views, analyzer, imports[..i][j], key, mine);
    assert Offers(tools, views, analyzer, imports[j], key, mine)
      && Offers(tools, views, analyzer, imports[i], key, yours);
    assert SomeOffers(tools, views, analyzer, imports, key, mine)
      && SomeOffers(tools, views, analyzer, imports, key, yours);
    forall w
      ensures !Inherits(tools, views, analyzer, imports, w)
    {
      assert !(Maps(w.values, key, mine) && Maps(w.values, key, yours));
    }
  }

  lemma OrdersDisagree(tools: Tools, views: map<ViewKey, View>, analyzer: nat, imports: seq<Package>, i: nat,
                       before: View,
                       rest: set<ObjectKey>, v: View, key: ObjectKey)
    requires i < |imports| && ViewKey(analyzer, imports[i]) in views
    requires Inherits(tools, views, analyzer, imports[..i], before)
    requires var dependency := views[ViewKey(analyzer, imports[i])];
      && Taking(tools, before, dependency, imports[i], rest, v) && key in dependency.values
        && tools.visible(key.subject, imports[i])
      && key in dependency.order && key in v.order && v.order[key] != dependency.order[key]
    ensures forall w :: !Inherits(tools, views, analyzer, imports, w)
  {
    var dependency := views[ViewKey(analyzer, imports[i])];
    var mine, yours := v.order[key], dependency.order[key];
    assert Maps(v.order, key, mine) && Maps(before.order, key, mine);
    assert SomeOffersOrder(tools, views, analyzer, imports[..i], key, mine);
    var j :| 0 <= j < i && OffersOrder(tools, views, analyzer, imports[..i][j], key, mine);
    assert OffersOrder(tools, views, analyzer, imports[j], key, mine)
      && OffersOrder(tools, views, analyzer, imports[i], key, yours);
    assert SomeOffersOrder(tools, views, analyzer, imports, key, mine)
      && SomeOffersOrder(tools, views, analyzer, imports, key, yours);
    forall w
      ensures !Inherits(tools, views, analyzer, imports, w)
    {
      assert !(Maps(w.order, key, mine) && Maps(w.order, key, yours));
    }
  }
}
