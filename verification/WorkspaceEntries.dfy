/** The retained package results of the editor workspace and the bound on them (boundLSPWorkspaceEntries and
    compareLSPPackageGroupKey in internal/cli/lsp.go). */
module WorkspaceEntries {
  import opened Bounding
  import opened Encoding
  import opened Ordering
  import opened Sorting
  import opened Wrappers

  type Path = Text
  type PackagePath = Text

  datatype GroupKey = GroupKey(root: Path, directory: Path, name: Text, version: Text, configuration: Digest,
    requirement: int)

  /** What a package analysis returns, as far as its reuse is concerned: the sources it read with their contents,
      the packages it is about and depends on, and the other files and directories it depends on. */
  datatype PackageResult<X> = PackageResult(
    sources: map<Path, Digest>, reported: set<Path>, roots: seq<PackagePath>, dependencies: seq<PackagePath>,
    control: set<Path>, directories: set<Path>, bytes: nat, findings: X)

  /** The digest of an existing file, or that there was none. */
  type FileSnapshot = Option<Digest>

  datatype Entry<X> = Entry(
    result: PackageResult<X>, documents: map<Path, Digest>, files: map<Path, FileSnapshot>, directories: map<Path,
      Digest>,
    used: nat)

  // ---------- The order of the keys ----------

  function KeyFields(a: GroupKey, b: GroupKey): seq<int> {
    [CompareText(a.root, b.root), CompareText(a.directory, b.directory), CompareText(a.name, b.name),
     CompareText(a.version, b.version), CompareText(a.configuration, b.configuration),
       CompareInt(a.requirement, b.requirement)]
  }

  function CompareKey(a: GroupKey, b: GroupKey): int {
    First(KeyFields(a, b))
  }

  /** A total order in which only equal keys tie. */
  lemma KeyOrderIsLawful()
    ensures Lawful(CompareKey)
  {
    forall a: GroupKey, b: GroupKey
      ensures CompareKey(a, b) == 0 <==> a == b
      ensures CompareKey(a, b) < 0 <==> CompareKey(b, a) > 0
    {
      KeyTies(a, b);
      FieldsFlip(a, b);
      FirstFlips(KeyFields(a, b), KeyFields(b, a));
    }
    forall a: GroupKey, b: GroupKey, c: GroupKey | CompareKey(a, b) <= 0 && CompareKey(b, c) <= 0
      ensures CompareKey(a, c) <= 0
    {
      FieldsChain(a, b, c);
      FirstChains(KeyFields(a, b), KeyFields(b, c), KeyFields(a, c));
    }
  }

  lemma KeyTies(a: GroupKey, b: GroupKey)
    ensures CompareKey(a, b) == 0 <==> a == b
  {
    hide CompareText;
    var fields := KeyFields(a, b);
    FirstZero(fields);
    TextLaws(a.root, b.root, b.root);
    TextLaws(a.directory, b.directory, b.directory);
    TextLaws(a.name, b.name, b.name);
    TextLaws(a.version, b.version, b.version);
    TextLaws(a.configuration, b.configuration, b.configuration);
    if CompareKey(a, b) == 0 {
      assert fields[0] == 0 && fields[1] == 0 && fields[2] == 0 && fields[3] == 0 && fields[4] == 0 && fields[5] == 0;
    }
  }

  lemma FieldsFlip(a: GroupKey, b: GroupKey)
    ensures forall i :: 0 <= i < 6 ==> Flips(KeyFields(a, b)[i], KeyFields(b, a)[i])
  {
    hide CompareText;
    TextLaws(a.root, b.root, b.root);
    TextLaws(a.directory, b.directory, b.directory);
    TextLaws(a.name, b.name, b.name);
    TextLaws(a.version, b.version, b.version);
    TextLaws(a.configuration, b.configuration, b.configuration);
  }

  lemma FieldsChain(a: GroupKey, b: GroupKey, c: GroupKey)
    ensures forall i :: 0 <= i < 6 ==> Chains(KeyFields(a, b)[i], KeyFields(b, c)[i], KeyFields(a, c)[i])
  {
    hide CompareText;
    TextLaws(a.root, b.root, c.root);
    TextLaws(a.directory, b.directory, c.directory);
    TextLaws(a.name, b.name, c.name);
    TextLaws(a.version, b.version, c.version);
    TextLaws(a.configuration, b.configuration, c.configuration);
  }

  // ---------- The order of eviction ----------

  function Used<X>(entries: map<GroupKey, Entry<X>>, key: GroupKey): nat {
    if key in entries then entries[key].used else 0
  }

  /** Most recently used first; equal times by key. */
  predicate Before<X>(entries: map<GroupKey, Entry<X>>, a: GroupKey, b: GroupKey) {
    if Used(entries, a) != Used(entries, b) then Used(entries, a) > Used(entries, b) else CompareKey(a, b) <= 0
  }

  function ByUse<X>(entries: map<GroupKey, Entry<X>>): (GroupKey, GroupKey) -> bool {
    (a, b) => Before(entries, a, b)
  }

  lemma UseIsLinear<X>(entries: map<GroupKey, Entry<X>>)
    ensures Linear(ByUse(entries)) && Antisymmetric(ByUse(entries))
  {
    KeyOrderIsLawful();
  }

  /** The keys of the table, newest first. */
  ghost predicate Ranked<X>(keys: seq<GroupKey>, entries: map<GroupKey, Entry<X>>) {
    Sorted(keys, ByUse(entries)) && Unrepeated(keys) && forall k :: k in keys <==> k in entries
  }

  lemma RankedIsUnique<X>(xs: seq<GroupKey>, ys: seq<GroupKey>, entries: map<GroupKey, Entry<X>>)
    requires Ranked(xs, entries) && Ranked(ys, entries)
    ensures xs == ys
  {
    UseIsLinear(entries);
    SameElementsSameMultiset(xs, ys);
    SortedIsUnique(xs, ys, ByUse(entries));
  }

  method Rank<X(!new)>(entries: map<GroupKey, Entry<X>>) returns (keys: seq<GroupKey>)
    ensures Ranked(keys, entries)
  {
    keys := [];
    var rest := entries.Keys;
    while rest != {}
      invariant rest <= entries.Keys && Unrepeated(keys)
      invariant forall k :: k in keys <==> k in entries && k !in rest
      decreases rest
    {
      var key :| key in rest;
      keys := keys + [key];
      rest := rest - {key};
    }
    UseIsLinear(entries);
    SortIsSorted(keys, ByUse(entries));
    SortKeepsElements(keys, ByUse(entries));
    SortIsUnrepeated(keys, ByUse(entries));
    keys := Sort(keys, ByUse(entries));
  }

  // ---------- The bound ----------

  function Weight<X>(entries: map<GroupKey, Entry<X>>): GroupKey -> nat {
    key => if key in entries then entries[key].result.bytes else 0
  }

  function Bytes<X>(keys: seq<GroupKey>, entries: map<GroupKey, Entry<X>>): nat {
    Total(keys, Weight(entries))
  }

  /** The newest entry is kept whatever its size; another one if it still fits beside the newer ones kept. */
  predicate Fits<X>(kept: seq<GroupKey>, key: GroupKey, entries: map<GroupKey, Entry<X>>) {
    FitsBeside(kept, key, Weight(entries), true)
  }

  function Greedy<X>(keys: seq<GroupKey>, entries: map<GroupKey, Entry<X>>): (kept: seq<GroupKey>)
    ensures forall k :: k in kept ==> k in keys
    ensures |kept| <= MAX_ENTRIES && (Bytes(kept, entries) <= MAX_BYTES || |kept| == 1)
    ensures |keys| > 0 ==> |kept| > 0 && kept[0] == keys[0]
  {
    Kept(keys, Weight(entries), true)
  }

  lemma FullIsFinal<X>(keys: seq<GroupKey>, i: nat, entries: map<GroupKey, Entry<X>>)
    requires i <= |keys| && |Greedy(keys[..i], entries)| == MAX_ENTRIES
    ensures Greedy(keys, entries) == Greedy(keys[..i], entries)
  {
    FullStaysFull(keys, i, Weight(entries), true);
  }

  lemma GreedyIsUnrepeated<X>(keys: seq<GroupKey>, entries: map<GroupKey, Entry<X>>)
    requires Unrepeated(keys)
    ensures Unrepeated(Greedy(keys, entries))
  {
    KeptIsUnrepeated(keys, Weight(entries), true);
  }

  /** What the bound leaves of a table: the entries the greedy walk over its ranking keeps. */
  ghost predicate IsBounded<X>(bounded: map<GroupKey, Entry<X>>, entries: map<GroupKey, Entry<X>>) {
    exists keys :: BoundedBy(bounded, keys, entries)
  }

  ghost predicate BoundedBy<X>(bounded: map<GroupKey, Entry<X>>, keys: seq<GroupKey>, entries: map<GroupKey, Entry<X>>)
  {
    && Ranked(keys, entries)
    && (forall k :: k in bounded <==> k in Greedy(keys, entries))
    && forall k :: k in bounded ==> k in entries && bounded[k] == entries[k]
  }

  /** Whatever order the table is walked in, the same entries survive. */
  lemma BoundIsUnique<X>(bounded: map<GroupKey, Entry<X>>, other: map<GroupKey, Entry<X>>,
                         entries: map<GroupKey, Entry<X>>)
    requires IsBounded(bounded, entries) && IsBounded(other, entries)
    ensures bounded == other
  {
    hide Greedy, Ranked;
    var xs :| BoundedBy(bounded, xs, entries);
    var ys :| BoundedBy(other, ys, entries);
    RankedIsUnique(xs, ys, entries);
  }

  ghost predicate Lists<X>(keys: seq<GroupKey>, entries: map<GroupKey, Entry<X>>) {
    Unrepeated(keys) && forall k :: k in keys <==> k in entries
  }

  /** At most eight entries and 128 MiB, or a single larger entry; and always the most recently used one. */
  lemma BoundHolds<X>(bounded: map<GroupKey, Entry<X>>, entries: map<GroupKey, Entry<X>>)
    requires IsBounded(bounded, entries)
    ensures |bounded| <= MAX_ENTRIES
    ensures exists kept :: Lists(kept, bounded) && (Bytes(kept, bounded) <= MAX_BYTES || |bounded| == 1)
    ensures forall k ::
      k in entries && (forall j :: j in entries && j != k ==> entries[j].used < entries[k].used) ==> k in bounded
  {
    hide Greedy, Ranked, Bytes;
    var keys :| BoundedBy(bounded, keys, entries);
    RankedKeys(keys, entries);
    var kept := Greedy(keys, entries);
    GreedyIsUnrepeated(keys, entries);
    UnrepeatedSize(kept, bounded.Keys);
    assert |bounded.Keys| == |bounded|;
    SameBytes(kept, bounded, entries);
    forall k | k in entries && forall j :: j in entries && j != k ==> entries[j].used < entries[k].used
      ensures k in bounded
    {
      NewestIsFirst(keys, entries, k);
    }
  }

  /** An entry makes way only for newer ones and for older ones that are smaller. */
  lemma NewerIsPreferred<X>(bounded: map<GroupKey, Entry<X>>, entries: map<GroupKey, Entry<X>>, newer: GroupKey,
                            older: GroupKey)
    requires IsBounded(bounded, entries) && newer in entries && older in bounded && older in entries
    requires entries[older].used < entries[newer].used
    requires entries[newer].result.bytes <= entries[older].result.bytes
    ensures newer in bounded
  {
    hide Ranked, Kept;
    var keys :| BoundedBy(bounded, keys, entries);
    RankedKeys(keys, entries);
    var i, j := PlaceByUse(keys, entries, newer, older);
    NewerIsKept(keys, i, j, Weight(entries), true);
  }

  lemma PlaceByUse<X>(keys: seq<GroupKey>, entries: map<GroupKey, Entry<X>>, newer: GroupKey, older: GroupKey)
    returns (i: nat, j: nat)
    requires Ranked(keys, entries) && newer in entries && older in entries
    requires entries[older].used < entries[newer].used
    ensures i < j < |keys| && keys[i] == newer && keys[j] == older
  {
    hide CompareKey;
    assert newer in keys && older in keys;
    i :| 0 <= i < |keys| && keys[i] == newer;
    j :| 0 <= j < |keys| && keys[j] == older;
  }

  lemma NewestIsFirst<X>(keys: seq<GroupKey>, entries: map<GroupKey, Entry<X>>, k: GroupKey)
    requires Ranked(keys, entries) && k in entries
    requires forall j :: j in entries && j != k ==> entries[j].used < entries[k].used
    ensures |keys| > 0 && keys[0] == k
  {
    assert k in keys;
    assert keys[0] in entries && forall j :: 0 < j < |keys| ==> ByUse(entries)(keys[0], keys[j]) && keys[0] != keys[j];
  }

  lemma {:induction false} SameBytes<X>(keys: seq<GroupKey>, xs: map<GroupKey, Entry<X>>, ys: map<GroupKey, Entry<X>>)
    requires forall k :: k in keys ==> k in xs && k in ys && xs[k] == ys[k]
    ensures Bytes(keys, xs) == Bytes(keys, ys)
    decreases |keys|
  {
    if |keys| > 0 {
      SameBytes(keys[..|keys| - 1], xs, ys);
    }
  }

  /** The table holds exactly the keys kept so far. */
  ghost predicate Holding<X>(bounded: map<GroupKey, Entry<X>>, accounted: nat, kept: seq<GroupKey>,
                             entries: map<GroupKey, Entry<X>>)
  {
    && accounted == Bytes(kept, entries) && |bounded| == |kept|
    && (forall k :: k in bounded <==> k in kept)
    && forall k :: k in bounded ==> k in entries && bounded[k] == entries[k]
  }

  /** What the walk of the first `i` keys has kept. */
  ghost predicate Walked<X>(bounded: map<GroupKey, Entry<X>>, accounted: nat, keys: seq<GroupKey>, i: nat,
                            entries: map<GroupKey, Entry<X>>)
    requires i <= |keys| && forall k :: k in keys ==> k in entries
  {
    Holding(bounded, accounted, Greedy(keys[..i], entries), entries)
  }

  lemma HoldingSnoc<X>(bounded: map<GroupKey, Entry<X>>, accounted: nat, kept: seq<GroupKey>, key: GroupKey,
                       entries: map<GroupKey, Entry<X>>)
    requires (forall k :: k in kept ==> k in entries) && key in entries && key !in kept
    requires Holding(bounded, accounted, kept, entries)
    ensures Holding(bounded[key := entries[key]], accounted + entries[key].result.bytes, kept + [key], entries)
  {
    hide Total;
    var larger := bounded[key := entries[key]];
    BytesSnoc(kept, key, entries);
    assert larger.Keys == bounded.Keys + {key};
    assert |bounded.Keys| == |bounded| && |larger.Keys| == |larger|;
  }

  lemma BytesSnoc<X>(kept: seq<GroupKey>, key: GroupKey, entries: map<GroupKey, Entry<X>>)
    requires key in entries
    ensures Bytes(kept + [key], entries) == Bytes(kept, entries) + entries[key].result.bytes
  {
    assert (kept + [key])[..|kept|] == kept;
  }

  lemma HoldingSize<X>(bounded: map<GroupKey, Entry<X>>, accounted: nat, kept: seq<GroupKey>,
                       entries: map<GroupKey, Entry<X>>)
    requires (forall k :: k in kept ==> k in entries) && Holding(bounded, accounted, kept, entries)
    ensures |bounded| == |kept| && accounted == Bytes(kept, entries)
  {
  }

  lemma GreedyStep<X>(keys: seq<GroupKey>, i: nat, entries: map<GroupKey, Entry<X>>)
    requires i < |keys| && Unrepeated(keys) && forall k :: k in keys ==> k in entries
    ensures var kept := Greedy(keys[..i], entries);
      && Greedy(keys[..i + 1], entries) == (if Fits(kept, keys[i], entries) then kept + [keys[i]] else kept)
      && (Fits(kept, keys[i], entries) <==>
           kept == [] || (|kept| < MAX_ENTRIES && Bytes(kept, entries) + entries[keys[i]].result.bytes <= MAX_BYTES))
      && Bytes(kept + [keys[i]], entries) == Bytes(kept, entries) + entries[keys[i]].result.bytes
      && keys[i] !in kept
  {
    assert keys[..i + 1][..i] == keys[..i];
    var kept := Greedy(keys[..i], entries);
    assert (kept + [keys[i]])[..|kept|] == kept;
  }

  lemma WalkStep<X>(bounded: map<GroupKey, Entry<X>>, accounted: nat, keys: seq<GroupKey>, i: nat,
                    entries: map<GroupKey, Entry<X>>)
    requires i < |keys| && Unrepeated(keys) && forall k :: k in keys ==> k in entries
    requires Walked(bounded, accounted, keys, i, entries)
    ensures var weight := entries[keys[i]].result.bytes;
      |bounded| < MAX_ENTRIES ==>
        if |bounded| != 0 && (weight > MAX_BYTES || accounted > MAX_BYTES - weight)
        then Walked(bounded, accounted, keys, i + 1, entries)
        else Walked(bounded[keys[i] := entries[keys[i]]], accounted + weight, keys, i + 1, entries)
    ensures |bounded| == |Greedy(keys[..i], entries)|
  {
    hide Greedy, Bytes, Holding, Fits;
    var kept := Greedy(keys[..i], entries);
    GreedyStep(keys, i, entries);
    HoldingSize(bounded, accounted, kept, entries);
    HoldingSnoc(bounded, accounted, kept, keys[i], entries);
  }

  /** `boundLSPWorkspaceEntries`. */
  method Bound<X(!new)>(entries: map<GroupKey, Entry<X>>) returns (bounded: map<GroupKey, Entry<X>>)
    ensures IsBounded(bounded, entries)
  {
    hide Greedy, Ranked, Bytes, Walked, IsBounded;
    var keys := Rank(entries);
    RankedKeys(keys, entries);
    bounded := map[];
    var accounted: nat := 0;
    NothingWalked(keys, entries);
    for i := 0 to |keys|
      invariant Walked(bounded, accounted, keys, i, entries)
    {
      var key := keys[i];
      WalkStep(bounded, accounted, keys, i, entries);
      if |bounded| == MAX_ENTRIES {
        FullIsFinal(keys, i, entries);
        WalkedIsBounded(bounded, accounted, keys, i, entries);
        return;
      }
      WalkedSize(bounded, accounted, keys, i, entries);
      var entry := entries[key];
      if |bounded| != 0 && (entry.result.bytes > MAX_BYTES || accounted > MAX_BYTES - entry.result.bytes) {
        continue;
      }
      bounded := bounded[key := entry];
      accounted := accounted + entry.result.bytes;
    }
    assert keys[..|keys|] == keys;
    WalkedIsBounded(bounded, accounted, keys, |keys|, entries);
  }

  lemma NothingWalked<X>(keys: seq<GroupKey>, entries: map<GroupKey, Entry<X>>)
    requires forall k :: k in keys ==> k in entries
    ensures Walked(map[], 0, keys, 0, entries)
  {
    assert keys[..0] == [];
  }

  lemma WalkedSize<X>(bounded: map<GroupKey, Entry<X>>, accounted: nat, keys: seq<GroupKey>, i: nat,
                      entries: map<GroupKey, Entry<X>>)
    requires i <= |keys| && (forall k :: k in keys ==> k in entries) && Walked(bounded, accounted, keys, i, entries)
    ensures |bounded| <= MAX_ENTRIES
  {
    HoldingSize(bounded, accounted, Greedy(keys[..i], entries), entries);
  }

  lemma RankedKeys<X>(keys: seq<GroupKey>, entries: map<GroupKey, Entry<X>>)
    requires Ranked(keys, entries)
    ensures Unrepeated(keys) && forall k :: k in keys ==> k in entries
  {
  }

  lemma WalkedIsBounded<X>(bounded: map<GroupKey, Entry<X>>, accounted: nat, keys: seq<GroupKey>, i: nat,
                           entries: map<GroupKey, Entry<X>>)
    requires Ranked(keys, entries) && i <= |keys| && Walked(bounded, accounted, keys, i, entries)
    requires Greedy(keys, entries) == Greedy(keys[..i], entries)
    ensures IsBounded(bounded, entries)
  {
    hide Greedy, Ranked, Bytes;
    assert BoundedBy(bounded, keys, entries);
  }
}
