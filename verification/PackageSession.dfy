/** The bounded, invalidatable store of typed packages and the protocol of its concurrent loaders
    (internal/analysis/package_session.go). */
module PackageSession {
  import opened Bounding
  import opened Sorting
  import opened Wrappers

  /** Cache keys are digests; their byte order is the order of the numbers they spell. */
  type Key = nat

  /** `began` is the generation in which the work behind an entry started to read its inputs. */
  datatype Entry = Entry(bytes: nat, used: nat, began: nat)

  datatype Candidate = Candidate(key: Key, entry: Entry)

  // ---------- The bound ----------

  /** Most recently used first; equal times by key. */
  predicate Before(a: Candidate, b: Candidate) {
    if a.entry.used != b.entry.used then a.entry.used > b.entry.used else a.key <= b.key
  }

  ghost predicate Lists(cs: seq<Candidate>, entries: map<Key, Entry>) {
    && (forall i :: 0 <= i < |cs| ==> cs[i].key in entries && entries[cs[i].key] == cs[i].entry)
    && (forall i, j :: 0 <= i < j < |cs| ==> cs[i].key != cs[j].key)
    && (forall k :: k in entries ==> exists i :: 0 <= i < |cs| && cs[i].key == k)
  }

  function Weight(c: Candidate): nat {
    c.entry.bytes
  }

  function Bytes(cs: seq<Candidate>): nat {
    Total(cs, Weight)
  }

  predicate Fits(kept: seq<Candidate>, c: Candidate) {
    FitsBeside(kept, c, Weight, false)
  }

  /** Walking the candidates newest first, keep each one that still fits. */
  function Greedy(cs: seq<Candidate>): seq<Candidate> {
    Kept(cs, Weight, false)
  }

  function ToMap(cs: seq<Candidate>): map<Key, Entry> {
    if |cs| == 0 then map[] else ToMap(cs[..|cs| - 1])[cs[|cs| - 1].key := cs[|cs| - 1].entry]
  }

  ghost predicate Distinct(cs: seq<Candidate>) {
    forall i, j :: 0 <= i < j < |cs| ==> cs[i].key != cs[j].key
  }

  ghost predicate HasKey(cs: seq<Candidate>, k: Key) {
    exists c :: c in cs && c.key == k
  }

  /** The map holds exactly the entries of the candidates. */
  ghost predicate IsMapOf(m: map<Key, Entry>, cs: seq<Candidate>) {
    && |m| == |cs|
    && (forall k :: k in m <==> HasKey(cs, k))
    && forall c :: c in cs ==> c.key in m && m[c.key] == c.entry
  }

  lemma HasKeySnoc(cs: seq<Candidate>, c: Candidate, k: Key)
    ensures HasKey(cs + [c], k) <==> HasKey(cs, k) || k == c.key
  {
    assert forall d :: d in cs + [c] <==> d in cs || d == c;
  }

  lemma IsMapSnoc(m: map<Key, Entry>, cs: seq<Candidate>, c: Candidate)
    requires IsMapOf(m, cs) && c.key !in m
    ensures IsMapOf(m[c.key := c.entry], cs + [c])
  {
    hide HasKey;
    var larger := m[c.key := c.entry];
    assert larger.Keys == m.Keys + {c.key} && |larger.Keys| == |larger| && |m.Keys| == |m|;
    forall k
      ensures k in larger <==> HasKey(cs + [c], k)
    {
      HasKeySnoc(cs, c, k);
    }
    forall d | d in cs + [c]
      ensures d.key in larger && larger[d.key] == d.entry
    {
      assert d in cs || d == c;
    }
  }

  lemma {:induction false} ToMapHolds(cs: seq<Candidate>)
    requires Distinct(cs)
    ensures IsMapOf(ToMap(cs), cs)
    decreases |cs|
  {
    if |cs| > 0 {
      var init, last := cs[..|cs| - 1], cs[|cs| - 1];
      ToMapHolds(init);
      assert cs == init + [last] && !HasKey(init, last.key);
      hide IsMapOf;
      LastIsNew(ToMap(init), init, last);
      IsMapSnoc(ToMap(init), init, last);
    }
  }

  lemma LastIsNew(m: map<Key, Entry>, cs: seq<Candidate>, c: Candidate)
    requires IsMapOf(m, cs) && !HasKey(cs, c.key)
    ensures c.key !in m
  {
  }

  lemma {:induction false} GreedyIsDistinct(cs: seq<Candidate>)
    requires Distinct(cs)
    ensures Distinct(Greedy(cs))
    decreases |cs|
  {
    if |cs| > 0 {
      var init, last := cs[..|cs| - 1], cs[|cs| - 1];
      GreedyIsDistinct(init);
      forall c | c in Greedy(init)
        ensures c.key != last.key
      {
        var i :| 0 <= i < |init| && init[i] == c;
        assert cs[i] == c;
      }
    }
  }

  /** Exactly the candidates that fit beside the newer ones kept are kept. */
  lemma GreedyKeepsWhatFits(cs: seq<Candidate>, i: nat)
    requires Distinct(cs) && i < |cs|
    ensures cs[i] in Greedy(cs) <==> Fits(Greedy(cs[..i]), cs[i])
  {
    KeptIsWhatFits(cs, i, Weight, false);
  }

  // ---------- The candidates of a table, in the one order that counts ----------

  ghost predicate Ranked(cs: seq<Candidate>, entries: map<Key, Entry>) {
    Lists(cs, entries) && Sorted(cs, Before)
  }

  lemma RankedIsUnique(cs: seq<Candidate>, ds: seq<Candidate>, entries: map<Key, Entry>)
    requires Ranked(cs, entries) && Ranked(ds, entries)
    ensures cs == ds
  {
    forall c
      ensures multiset(cs)[c] == multiset(ds)[c]
    {
      UnrepeatedCount(cs, c);
      UnrepeatedCount(ds, c);
    }
    assert multiset(cs) == multiset(ds);
    SortedIsUnique(cs, ds, Before);
  }

  lemma SortRanks(cs: seq<Candidate>, entries: map<Key, Entry>)
    requires Lists(cs, entries)
    ensures Ranked(Sort(cs, Before), entries)
  {
    SortIsSorted(cs, Before);
    SortIsUnrepeated(cs, Before);
    SortKeepsElements(cs, Before);
    SameElements(cs, Sort(cs, Before), entries);
  }

  lemma SameElements(cs: seq<Candidate>, ds: seq<Candidate>, entries: map<Key, Entry>)
    requires Lists(cs, entries) && Unrepeated(ds) && forall c :: c in ds <==> c in cs
    ensures Lists(ds, entries)
  {
    assert forall i :: 0 <= i < |ds| ==> ds[i] in cs;
    forall k | k in entries
      ensures exists i :: 0 <= i < |ds| && ds[i].key == k
    {
      var i :| 0 <= i < |cs| && cs[i].key == k;
      assert cs[i] in ds;
    }
  }

  lemma {:induction false} ListExists(entries: map<Key, Entry>) returns (cs: seq<Candidate>)
    ensures Lists(cs, entries)
    decreases entries.Keys
  {
    cs := [];
    if entries.Keys != {} {
      var k :| k in entries.Keys;
      var rest := entries - {k};
      var before := ListExists(rest);
      cs := before + [Candidate(k, entries[k])];
      forall x | x in entries
        ensures exists i :: 0 <= i < |cs| && cs[i].key == x
      {
        if x != k {
          assert x in rest;
          var i :| 0 <= i < |before| && before[i].key == x;
          assert cs[i].key == x;
        } else {
          assert cs[|cs| - 1].key == x;
        }
      }
    }
  }

  ghost function Ranking(entries: map<Key, Entry>): (cs: seq<Candidate>)
    ensures Ranked(cs, entries)
  {
    assert exists cs :: Ranked(cs, entries) by {
      var ds := ListExists(entries);
      SortRanks(ds, entries);
    }
    var cs :| Ranked(cs, entries);
    cs
  }

  ghost function Bounded(entries: map<Key, Entry>): map<Key, Entry> {
    ToMap(Greedy(Ranking(entries)))
  }

  ghost predicate WithinBounds(entries: map<Key, Entry>) {
    |entries| <= MAX_ENTRIES && exists cs :: Lists(cs, entries) && Bytes(cs) <= MAX_BYTES
  }

  lemma GreedyLists(cs: seq<Candidate>)
    requires Distinct(cs)
    ensures Lists(Greedy(cs), ToMap(Greedy(cs)))
  {
    hide Greedy, ToMap;
    var kept := Greedy(cs);
    GreedyIsDistinct(cs);
    ToMapHolds(kept);
    forall k | k in ToMap(kept)
      ensures exists i :: 0 <= i < |kept| && kept[i].key == k
    {
      var c :| c in kept && c.key == k;
      var i :| 0 <= i < |kept| && kept[i] == c;
    }
  }

  /** The bound keeps some of the entries, unchanged, and never too many or too large ones. */
  lemma BoundedHolds(entries: map<Key, Entry>)
    ensures WithinBounds(Bounded(entries))
    ensures forall k :: k in Bounded(entries) ==> k in entries && Bounded(entries)[k] == entries[k]
  {
    var cs := Ranking(entries);
    GreedyIsDistinct(cs);
    GreedyLists(cs);
    ToMapHolds(Greedy(cs));
    hide Greedy, ToMap, Ranking;
    forall k | k in ToMap(Greedy(cs))
      ensures k in entries && ToMap(Greedy(cs))[k] == entries[k]
    {
      var c :| c in Greedy(cs) && c.key == k;
      assert c in cs;
    }
  }

  /** A table within the bounds stays as it is. */
  lemma WithinBoundsIsKept(entries: map<Key, Entry>)
    requires WithinBounds(entries)
    ensures Bounded(entries) == entries
  {
    hide ToMap, Kept, Total, Lists;
    var cs := Ranking(entries);
    var ds :| Lists(ds, entries) && Bytes(ds) <= MAX_BYTES;
    SameLists(cs, ds, entries);
    AllIsKept(cs, Weight, false);
    MapOfList(cs, entries);
  }

  lemma MapOfList(cs: seq<Candidate>, entries: map<Key, Entry>)
    requires Lists(cs, entries)
    ensures ToMap(cs) == entries
  {
    hide ToMap;
    ToMapHolds(cs);
    forall k | k in entries
      ensures k in ToMap(cs) && ToMap(cs)[k] == entries[k]
    {
      var i :| 0 <= i < |cs| && cs[i].key == k;
      assert cs[i] in cs;
    }
    forall k | k in ToMap(cs)
      ensures k in entries
    {
      var c :| c in cs && c.key == k;
    }
  }

  /** Two lists of a table have the same length and size. */
  lemma SameLists(cs: seq<Candidate>, ds: seq<Candidate>, entries: map<Key, Entry>)
    requires Lists(cs, entries) && Lists(ds, entries)
    ensures |cs| == |ds| == |entries| && Bytes(cs) == Bytes(ds)
  {
    SortRanks(cs, entries);
    SortRanks(ds, entries);
    RankedIsUnique(Sort(cs, Before), Sort(ds, Before), entries);
    SortIsSorted(cs, Before);
    SortIsSorted(ds, Before);
    TotalOfMultiset(cs, ds);
    ListLength(cs, entries);
  }

  lemma {:induction false} TotalOfMultiset(cs: seq<Candidate>, ds: seq<Candidate>)
    requires multiset(cs) == multiset(ds)
    ensures Bytes(cs) == Bytes(ds)
    decreases |cs|
  {
    assert |multiset(cs)| == |cs| && |multiset(ds)| == |ds|;
    if |cs| > 0 {
      var init, last := cs[..|cs| - 1], cs[|cs| - 1];
      assert cs == init + [last];
      assert last in multiset(ds);
      var i :| 0 <= i < |ds| && ds[i] == last;
      WithoutOne(ds, i);
      TotalOfMultiset(init, ds[..i] + ds[i + 1..]);
    }
  }

  lemma WithoutOne(ds: seq<Candidate>, i: nat)
    requires i < |ds|
    ensures multiset(ds[..i] + ds[i + 1..]) == multiset(ds) - multiset{ds[i]}
    ensures Bytes(ds) == Bytes(ds[..i] + ds[i + 1..]) + ds[i].entry.bytes
  {
    hide Total;
    var first, rest := ds[..i], ds[i + 1..];
    assert ds == first + ([ds[i]] + rest);
    TotalConcat(first, [ds[i]] + rest, Weight);
    TotalConcat([ds[i]], rest, Weight);
    TotalConcat(first, rest, Weight);
    TotalOfOne(ds[i], Weight);
  }

  lemma {:induction false} ListLength(cs: seq<Candidate>, entries: map<Key, Entry>)
    requires Lists(cs, entries)
    ensures |cs| == |entries|
    decreases |cs|
  {
    if |cs| == 0 {
      assert entries == map[];
    } else {
      ListsInit(cs, entries);
      ListLength(cs[..|cs| - 1], entries - {cs[|cs| - 1].key});
      OneLess(entries, cs[|cs| - 1].key);
    }
  }

  lemma ListsInit(cs: seq<Candidate>, entries: map<Key, Entry>)
    requires |cs| > 0 && Lists(cs, entries)
    ensures cs[|cs| - 1].key in entries && Lists(cs[..|cs| - 1], entries - {cs[|cs| - 1].key})
  {
    var init, last := cs[..|cs| - 1], cs[|cs| - 1];
    forall k | k in entries - {last.key}
      ensures exists i :: 0 <= i < |init| && init[i].key == k
    {
      var i :| 0 <= i < |cs| && cs[i].key == k;
      assert init[i].key == k;
    }
  }

  lemma OneLess(entries: map<Key, Entry>, key: Key)
    requires key in entries
    ensures |entries| == |entries - {key}| + 1
  {
    var rest := entries - {key};
    assert entries.Keys == rest.Keys + {key};
    assert |entries| == |entries.Keys| && |rest| == |rest.Keys|;
  }

  /** The most recently used entry survives whenever it fits at all. */
  lemma NewestSurvives(entries: map<Key, Entry>, key: Key)
    requires key in entries && entries[key].bytes <= MAX_BYTES
    requires forall k :: k in entries && k != key ==> entries[k].used < entries[key].used
    ensures key in Bounded(entries) && Bounded(entries)[key] == entries[key]
  {
    var cs := Ranking(entries);
    var i :| 0 <= i < |cs| && cs[i].key == key;
    assert forall j :: 0 < j < |cs| ==> Before(cs[0], cs[j]) && cs[0].key != cs[j].key;
    assert i == 0;
    GreedyKeepsWhatFits(cs, i);
    assert cs[..0] == [];
    GreedyIsDistinct(cs);
    ToMapHolds(Greedy(cs));
    assert cs[i] in Greedy(cs);
  }

  /** An entry makes way only for newer ones and for older ones that are smaller. */
  lemma NewerIsPreferred(entries: map<Key, Entry>, newer: Key, older: Key)
    requires newer in entries && older in Bounded(entries) && older in entries
    requires entries[older].used < entries[newer].used && entries[newer].bytes <= entries[older].bytes
    ensures newer in Bounded(entries)
  {
    hide Kept, ToMap, Ranking, Distinct, IsMapOf, Lists;
    var cs := Ranking(entries);
    RankingIsDistinct(entries);
    GreedyIsDistinct(cs);
    ToMapHolds(Greedy(cs));
    var i := PlaceOf(cs, entries, newer);
    var j := PlaceOf(cs, entries, older);
    KeptByKey(cs, i);
    KeptByKey(cs, j);
    NewerIsKept(cs, i, j, Weight, false);
  }

  lemma RankingIsDistinct(entries: map<Key, Entry>)
    ensures Distinct(Ranking(entries)) && Unrepeated(Ranking(entries))
  {
    hide Ranking;
  }

  lemma PlaceOf(cs: seq<Candidate>, entries: map<Key, Entry>, key: Key) returns (i: nat)
    requires Lists(cs, entries) && key in entries
    ensures i < |cs| && cs[i] == Candidate(key, entries[key])
  {
    i :| 0 <= i < |cs| && cs[i].key == key;
  }

  lemma KeptByKey(cs: seq<Candidate>, i: nat)
    requires Distinct(cs) && i < |cs|
    ensures cs[i].key in ToMap(Greedy(cs)) <==> cs[i] in Greedy(cs)
  {
    GreedyIsDistinct(cs);
    ToMapHolds(Greedy(cs));
    hide Greedy, ToMap;
    if cs[i].key in ToMap(Greedy(cs)) {
      var c :| c in Greedy(cs) && c.key == cs[i].key;
      assert c in cs;
    }
  }

  // ---------- The session ----------

  /** The session's fields, as each lock section finds and leaves them. */
  datatype Session = Session(entries: map<Key, Entry>, clock: nat, generation: nat)

  ghost function Invalidated(s: Session): Session {
    s.(entries := map[], generation := s.generation + 1)
  }

  ghost function Stored(s: Session, key: Key, entry: Entry, retain: bool): Session {
    if !retain then s.(entries := s.entries - {key})
    else Session(Bounded(s.entries[key := entry.(used := s.clock + 1)]), s.clock + 1, s.generation)
  }

  /** What is not retained is dropped, and nothing else is touched. */
  lemma StoreDrops(s: Session, key: Key, entry: Entry)
    ensures var t := Stored(s, key, entry, false);
      && key !in t.entries && t.clock == s.clock && t.generation == s.generation
      && forall k :: k != key ==>
        (k in t.entries <==> k in s.entries) && (k in s.entries ==> t.entries[k] == s.entries[k])
  {
  }

  /** What is retained counts as used last; the others stay if all fit, and in any case no other value takes their
      place. */
  lemma StoreKeeps(s: Session, key: Key, entry: Entry)
    ensures var t, fresh_ := Stored(s, key, entry, true), entry.(used := s.clock + 1);
      && t.clock == s.clock + 1 && t.generation == s.generation
      && (entry.bytes <= MAX_BYTES && (forall k :: k in s.entries ==> s.entries[k].used <= s.clock) ==>
           key in t.entries && t.entries[key] == fresh_)
      && (WithinBounds(s.entries[key := fresh_]) ==> t.entries == s.entries[key := fresh_])
      && forall k :: k in t.entries && k != key ==> k in s.entries && t.entries[k] == s.entries[k]
  {
    hide Bounded, WithinBounds;
    var larger := s.entries[key := entry.(used := s.clock + 1)];
    BoundedHolds(larger);
    if entry.bytes <= MAX_BYTES && forall k :: k in s.entries ==> s.entries[k].used <= s.clock {
      NewestSurvives(larger, key);
    }
    if WithinBounds(larger) {
      WithinBoundsIsKept(larger);
    }
  }

  class PackageSession {
    var entries: map<Key, Entry>
    var clock: nat
    var generation: nat

    ghost function Now(): Session
      reads this
    {
      Session(entries, clock, generation)
    }

    constructor ()
      ensures Now() == Session(map[], 0, 0)
    {
      entries, clock, generation := map[], 0, 0;
    }

    method InvalidateAll()
      modifies this
      ensures Now() == Invalidated(old(Now()))
    {
      entries := map[];
      generation := generation + 1;
    }

    /** `store`. */
    method Store(key: Key, entry: Entry, retain: bool)
      modifies this
      ensures Now() == Stored(old(Now()), key, entry, retain)
    {
      if !retain {
        entries := entries - {key};
        return;
      }
      clock := clock + 1;
      entries := entries[key := entry.(used := clock)];
      Bound();
    }

    /** `bound`: whatever order the table is walked in, the same entries survive. */
    method Bound()
      modifies this`entries
      ensures entries == Bounded(old(entries))
    {
      var candidates := Enumerate(entries);
      SortRanks(candidates, entries);
      candidates := Sort(candidates, Before);
      RankedIsUnique(candidates, Ranking(entries), entries);
      entries := Retain(candidates);
    }

    /** The first lock section of `load`. */
    method Snapshot(key: Key) returns (found: Option<Entry>, seen: nat)
      ensures found == if key in entries then Some(entries[key]) else None
      ensures seen == generation
    {
      found := if key in entries then Some(entries[key]) else None;
      seen := generation;
    }

    /** The lock section that publishes an incremental result, or sends its loader on to a full load. */
    method CommitIncremental(key: Key, began: nat, retained: Entry, retain: bool) returns (committed: bool, seen: nat)
      modifies this
      ensures committed == (old(generation) == began) && seen == old(generation)
      ensures Now() == if committed then Stored(old(Now()), key, retained, retain) else old(Now())
    {
      seen := generation;
      committed := generation == began;
      if committed {
        Store(key, retained, retain);
      }
    }

    /** The lock sections after a full load: a failure drops the entry, a success replaces it. */
    method FinishFull(key: Key, began: nat, retained: Option<Entry>, retain: bool)
      modifies this
      ensures Now() == if old(generation) != began then old(Now())
                       else if retained.None? then Stored(old(Now()), key, Entry(0, 0, 0), false)
                       else Stored(old(Now()), key, retained.value, retain)
    {
      if generation == began {
        match retained {
          case None =>
            entries := entries - {key};
          case Some(entry) =>
            Store(key, entry, retain);
        }
      }
    }
  }

  /** The candidates of a table, in no particular order. */
  method Enumerate(entries: map<Key, Entry>) returns (candidates: seq<Candidate>)
    ensures Lists(candidates, entries)
  {
    hide Lists;
    candidates := [];
    var keys := entries.Keys;
    NothingListed(entries);
    while keys != {}
      invariant keys <= entries.Keys
      invariant Lists(candidates, entries - keys)
      decreases keys
    {
      var key :| key in keys;
      ListsSnoc(candidates, entries, keys, key);
      candidates := candidates + [Candidate(key, entries[key])];
      keys := keys - {key};
    }
    assert entries - {} == entries;
  }

  lemma NothingListed(entries: map<Key, Entry>)
    ensures Lists([], entries - entries.Keys)
  {
  }

  /** The loop of `bound` over the sorted candidates. */
  method Retain(candidates: seq<Candidate>) returns (bounded: map<Key, Entry>)
    requires Distinct(candidates)
    ensures bounded == ToMap(Greedy(candidates))
  {
    bounded := map[];
    var retained := 0;
    hide ToMap, Kept, Total;
    assert bounded == ToMap([]) && candidates[..0] == [] && Greedy([]) == [] && Bytes([]) == 0 by { NothingKept(); }
    for i := 0 to |candidates|
      invariant bounded == ToMap(Greedy(candidates[..i])) && retained == Bytes(Greedy(candidates[..i]))
    {
      var candidate := candidates[i];
      GreedyStep(candidates, i);
      if |bounded| == MAX_ENTRIES {
        FullStaysFull(candidates, i, Weight, false);
        return;
      }
      var weight := candidate.entry.bytes;
      if weight > MAX_BYTES || retained > MAX_BYTES - weight {
        continue;
      }
      bounded := bounded[candidate.key := candidate.entry];
      retained := retained + weight;
    }
    assert candidates[..|candidates|] == candidates;
  }

  lemma NothingKept()
    ensures ToMap([]) == map[] && Greedy([]) == [] && Bytes([]) == 0
  {
  }

  lemma GreedyStep(cs: seq<Candidate>, i: nat)
    requires Distinct(cs) && i < |cs|
    ensures |ToMap(Greedy(cs[..i]))| == |Greedy(cs[..i])|
    ensures Greedy(cs[..i + 1]) == if Fits(Greedy(cs[..i]), cs[i]) then Greedy(cs[..i]) + [cs[i]] else Greedy(cs[..i])
    ensures ToMap(Greedy(cs[..i]) + [cs[i]]) == ToMap(Greedy(cs[..i]))[cs[i].key := cs[i].entry]
    ensures Bytes(Greedy(cs[..i]) + [cs[i]]) == Bytes(Greedy(cs[..i])) + cs[i].entry.bytes
  {
    GreedyIsDistinct(cs[..i]);
    ToMapHolds(Greedy(cs[..i]));
    assert cs[..i + 1][..i] == cs[..i];
    assert (Greedy(cs[..i]) + [cs[i]])[..|Greedy(cs[..i])|] == Greedy(cs[..i]);
  }

  lemma ListsSnoc(cs: seq<Candidate>, entries: map<Key, Entry>, keys: set<Key>, key: Key)
    requires keys <= entries.Keys && key in keys && Lists(cs, entries - keys)
    ensures Lists(cs + [Candidate(key, entries[key])], entries - (keys - {key}))
  {
    var ds := cs + [Candidate(key, entries[key])];
    forall k | k in entries - (keys - {key})
      ensures exists i :: 0 <= i < |ds| && ds[i].key == k
    {
      if k == key {
        assert ds[|cs|].key == k;
      } else {
        assert k in entries - keys;
        var i :| 0 <= i < |cs| && cs[i].key == k;
        assert ds[i].key == k;
      }
    }
  }
}
