/** Baseline documents: what they hide, and what generating one hides (internal/baseline/baseline.go). */
module Baseline {
  import opened Encoding
  import opened Ordering
  import opened Sorting
  import opened Wrappers

  const SCHEMA_VERSION: int := 1

  datatype Key = Key(ruleID: Text, path: Text, messageKey: Text, fingerprint: Text)

  datatype Entry = Entry(key: Key, count: int, reason: Text, expiresOn: Text)

  /** A document; without an entry list it is malformed. */
  datatype Document = Document(version: int, entries: Option<seq<Entry>>)

  datatype SourceFile = SourceFile(path: Text, digest: Digest, bytes: seq<Byte>)
  datatype Diagnostic = Diagnostic(ruleID: Text, messageKey: Text, path: Text, digest: Digest, start: int, end: int,
    message: Text)
  datatype Input = Input(file: Option<SourceFile>, diagnostics: seq<Diagnostic>)

  datatype Options = Options(reportStale: bool, expiryCutoff: Text, incomplete: bool)

  /** Paths below the root in portable form, the fingerprint of a source span, and which texts are portable paths,
      fingerprints and dates. */
  datatype Tools = Tools(
    rootValid: bool, portable: Text -> Option<Text>, fingerprint: seq<Byte> -> Text,
    validPath: Text -> bool, validFingerprint: Text -> bool, validDate: Text -> bool)

  ghost predicate Lawful(tools: Tools) {
    && (forall path :: tools.portable(path).Some? ==> tools.validPath(tools.portable(path).value))
    && forall span :: tools.validFingerprint(tools.fingerprint(span))
  }

  // ---------- Keys ----------

  function PortablePath(tools: Tools, input: Input): Option<Text> {
    if input.file.None? then None else tools.portable(input.file.value.path)
  }

  /** `diagnosticKey`. */
  function KeyOf(tools: Tools, portable: Text, file: SourceFile, d: Diagnostic): Option<Key> {
    if d.ruleID == [] || d.messageKey == [] then None
    else if d.path != file.path || d.digest != file.digest then None
    else if !(0 <= d.start <= d.end <= |file.bytes|) then None
    else Some(Key(d.ruleID, portable, d.messageKey, tools.fingerprint(file.bytes[d.start..d.end])))
  }

  /** The input can be keyed. */
  predicate Keyed(tools: Tools, input: Input) {
    && PortablePath(tools, input).Some?
    && forall j :: 0 <= j < |input.diagnostics| ==>
      KeyOf(tools, PortablePath(tools, input).value, input.file.value, input.diagnostics[j]).Some?
  }

  function Keys(tools: Tools, input: Input): (keys: seq<Key>)
    requires Keyed(tools, input)
    ensures |keys| == |input.diagnostics|
      && forall j :: 0 <= j < |keys| ==> keys[j].path == PortablePath(tools, input).value
  {
    seq(|input.diagnostics|, j requires 0 <= j < |input.diagnostics| =>
      KeyOf(tools, PortablePath(tools, input).value, input.file.value, input.diagnostics[j]).value)
  }

  ghost predicate AllKeyed(tools: Tools, inputs: seq<Input>) {
    forall i :: 0 <= i < |inputs| ==> Keyed(tools, inputs[i])
  }

  function AllKeys(tools: Tools, inputs: seq<Input>): seq<Key>
    requires AllKeyed(tools, inputs)
  {
    if |inputs| == 0 then [] else AllKeys(tools, inputs[..|inputs| - 1]) + Keys(tools, inputs[|inputs| - 1])
  }

  // ---------- The canonical order of entries ----------

  function KeyFields(a: Key, b: Key): seq<int> {
    [CompareText(a.path, b.path), CompareText(a.ruleID, b.ruleID), CompareText(a.messageKey, b.messageKey),
     CompareText(a.fingerprint, b.fingerprint)]
  }

  function CompareKey(a: Key, b: Key): int {
    First(KeyFields(a, b))
  }

  lemma KeyLaws(a: Key, b: Key, c: Key)
    ensures CompareKey(a, b) == 0 <==> a == b
    ensures Flips(CompareKey(a, b), CompareKey(b, a)) && Chains(CompareKey(a, b), CompareKey(b, c), CompareKey(a, c))
  {
    hide CompareText;
    TextLaws(a.path, b.path, c.path);
    TextLaws(a.ruleID, b.ruleID, c.ruleID);
    TextLaws(a.messageKey, b.messageKey, c.messageKey);
    TextLaws(a.fingerprint, b.fingerprint, c.fingerprint);
    var ab := KeyFields(a, b);
    FirstZero(ab);
    if First(ab) == 0 {
      assert ab[0] == 0 && ab[1] == 0 && ab[2] == 0 && ab[3] == 0;
    }
    FirstFlips(ab, KeyFields(b, a));
    FirstChains(ab, KeyFields(b, c), KeyFields(a, c));
  }

  predicate AtMost(a: Entry, b: Entry) {
    CompareKey(a.key, b.key) <= 0
  }

  lemma EntryOrderIsLinear()
    ensures Linear(AtMost)
  {
    forall a: Entry, b: Entry, c: Entry
      ensures AtMost(a, b) || AtMost(b, a)
      ensures AtMost(a, b) && AtMost(b, c) ==> AtMost(a, c)
    {
      KeyLaws(a.key, b.key, c.key);
    }
  }

  ghost predicate DistinctKeys(entries: seq<Entry>) {
    forall i, j :: 0 <= i < j < |entries| ==> entries[i].key != entries[j].key
  }

  function CanonicalEntries(entries: seq<Entry>): seq<Entry> {
    Sort(entries, AtMost)
  }

  lemma CanonicalHolds(entries: seq<Entry>)
    requires DistinctKeys(entries)
    ensures Sorted(CanonicalEntries(entries), AtMost) && DistinctKeys(CanonicalEntries(entries))
    ensures forall e :: e in CanonicalEntries(entries) <==> e in entries
  {
    EntryOrderIsLinear();
    SortIsSorted(entries, AtMost);
    SortKeepsElements(entries, AtMost);
    var sorted := CanonicalEntries(entries);
    SortIsUnrepeated(entries, AtMost);
    forall i, j | 0 <= i < j < |sorted|
      ensures sorted[i].key != sorted[j].key
    {
      assert sorted[i] in entries && sorted[j] in entries;
    }
  }

  // ---------- Generate ----------

  /** One entry for each key, counting its diagnostics, in canonical order. */
  ghost predicate IsGenerated(document: Document, keys: seq<Key>) {
    && document.version == SCHEMA_VERSION && document.entries.Some?
    && Sorted(document.entries.value, AtMost) && DistinctKeys(document.entries.value)
    && (forall e :: e in document.entries.value ==> e == Entry(e.key, multiset(keys)[e.key], [], []) && e.key in keys)
    && forall k :: k in keys ==> exists e :: e in document.entries.value && e.key == k
  }

  /** Which document is generated depends only on how often each key occurs. */
  lemma GeneratedIsUnique(one: Document, two: Document, keys: seq<Key>, others: seq<Key>)
    requires IsGenerated(one, keys) && IsGenerated(two, others) && multiset(keys) == multiset(others)
    ensures one == two
  {
    forall e
      ensures e in one.entries.value <==> e in two.entries.value
    {
      assert e.key in keys <==> e.key in others by {
        assert e.key in multiset(keys) <==> e.key in multiset(others);
      }
    }
    SameElementsSameMultiset(one.entries.value, two.entries.value);
    forall a, b | a in one.entries.value && b in one.entries.value && AtMost(a, b) && AtMost(b, a)
      ensures a == b
    {
      KeyLaws(a.key, b.key, b.key);
    }
    SortedIsUnique(one.entries.value, two.entries.value, AtMost);
  }

  method Generate(tools: Tools, inputs: seq<Input>) returns (r: Option<Document>)
    ensures r.Some? <==> tools.rootValid && AllKeyed(tools, inputs)
    ensures r.Some? ==> IsGenerated(r.value, AllKeys(tools, inputs))
  {
    if !tools.rootValid {
      return None;
    }
    var counts: map<Key, nat> := map[];
    for i := 0 to |inputs|
      invariant AllKeyed(tools, inputs[..i])
      invariant Counts(counts, AllKeys(tools, inputs[..i]))
    {
      var updated := CountInput(tools, inputs[i], counts, AllKeys(tools, inputs[..i]));
      AllKeysSnoc(tools, inputs, i);
      if updated.None? {
        return None;
      }
      counts := updated.value;
    }
    assert inputs[..|inputs|] == inputs;
    var entries := EntriesOf(counts);
    CanonicalHolds(entries);
    CanonicalIsGenerated(counts, entries, AllKeys(tools, inputs));
    return Some(Document(SCHEMA_VERSION, Some(CanonicalEntries(entries))));
  }

  ghost predicate Counts(counts: map<Key, nat>, keys: seq<Key>) {
    && (forall k :: k in counts <==> k in keys)
    && forall k :: k in counts ==> counts[k] == multiset(keys)[k]
  }

  lemma AllKeysSnoc(tools: Tools, inputs: seq<Input>, i: nat)
    requires i < |inputs| && AllKeyed(tools, inputs[..i])
    ensures AllKeyed(tools, inputs[..i + 1]) <==> Keyed(tools, inputs[i])
    ensures Keyed(tools, inputs[i]) ==>
      AllKeys(tools, inputs[..i + 1]) == AllKeys(tools, inputs[..i]) + Keys(tools, inputs[i])
    ensures AllKeyed(tools, inputs) ==> Keyed(tools, inputs[i])
  {
    assert inputs[..i + 1][..i] == inputs[..i];
    assert inputs[..i + 1][i] == inputs[i];
    assert forall j :: 0 <= j < i ==> inputs[..i + 1][j] == inputs[..i][j];
  }

  method CountInput(tools: Tools, input: Input, counts: map<Key, nat>,
                    ghost before: seq<Key>) returns (r: Option<map<Key, nat>>)
    requires Counts(counts, before)
    ensures r.Some? <==> Keyed(tools, input)
    ensures r.Some? ==> Counts(r.value, before + Keys(tools, input))
  {
    hide Counts;
    var portable := PortablePath(tools, input);
    if portable.None? {
      return None;
    }
    var updated := counts;
    ghost var keys: seq<Key> := [];
    assert before + [] == before;
    for j := 0 to |input.diagnostics|
      invariant |keys| == j && Counts(updated, before + keys)
      invariant forall l :: 0 <= l < j ==>
        KeyOf(tools, portable.value, input.file.value, input.diagnostics[l]) == Some(keys[l])
    {
      var key := KeyOf(tools, portable.value, input.file.value, input.diagnostics[j]);
      if key.None? {
        return None;
      }
      CountsSnoc(updated, before + keys, key.value);
      assert before + keys + [key.value] == before + (keys + [key.value]);
      updated := updated[key.value := (if key.value in updated then updated[key.value] else 0) + 1];
      keys := keys + [key.value];
    }
    assert keys == Keys(tools, input);
    return Some(updated);
  }

  lemma CountsSnoc(counts: map<Key, nat>, keys: seq<Key>, k: Key)
    requires Counts(counts, keys)
    ensures Counts(counts[k := (if k in counts then counts[k] else 0) + 1], keys + [k])
  {
    assert k !in counts ==> multiset(keys)[k] == 0;
  }

  method EntriesOf(counts: map<Key, nat>) returns (entries: seq<Entry>)
    ensures DistinctKeys(entries)
      && forall e :: e in entries <==> e.key in counts && e == Entry(e.key, counts[e.key], [], [])
  {
    entries := [];
    var rest := counts.Keys;
    while rest != {}
      invariant rest <= counts.Keys && DistinctKeys(entries)
      invariant forall e :: e in entries <==>
        e.key in counts && e.key !in rest && e == Entry(e.key, counts[e.key], [], [])
      decreases rest
    {
      var key :| key in rest;
      entries := entries + [Entry(key, counts[key], [], [])];
      rest := rest - {key};
    }
  }

  lemma CanonicalIsGenerated(counts: map<Key, nat>, entries: seq<Entry>, keys: seq<Key>)
    requires Counts(counts, keys) && DistinctKeys(entries)
    requires forall e :: e in entries <==> e.key in counts && e == Entry(e.key, counts[e.key], [], [])
    ensures IsGenerated(Document(SCHEMA_VERSION, Some(CanonicalEntries(entries))), keys)
  {
    CanonicalHolds(entries);
    forall k | k in keys
      ensures exists e :: e in CanonicalEntries(entries) && e.key == k
    {
      assert Entry(k, counts[k], [], []) in entries;
    }
  }

  // ---------- Valid documents ----------

  predicate ValidEntry(tools: Tools, e: Entry) {
    && e.key.ruleID != [] && tools.validPath(e.key.path) && e.key.messageKey != []
      && tools.validFingerprint(e.key.fingerprint)
    && e.count > 0 && (e.expiresOn == [] || tools.validDate(e.expiresOn))
  }

  ghost predicate ValidDocument(tools: Tools, document: Document) {
    && document.version == SCHEMA_VERSION && document.entries.Some?
    && (forall e :: e in document.entries.value ==> ValidEntry(tools, e)) && DistinctKeys(document.entries.value)
  }

  method ValidateDocument(tools: Tools, document: Document) returns (valid: bool)
    ensures valid <==> ValidDocument(tools, document)
  {
    if document.version != SCHEMA_VERSION || document.entries.None? {
      return false;
    }
    var entries := document.entries.value;
    var seen: set<Key> := {};
    for i := 0 to |entries|
      invariant forall e :: e in entries[..i] ==> ValidEntry(tools, e)
      invariant DistinctKeys(entries[..i]) && forall k :: k in seen <==> exists j :: 0 <= j < i && entries[j].key == k
    {
      assert entries[..i + 1] == entries[..i] + [entries[i]];
      if !ValidEntry(tools, entries[i]) || entries[i].key in seen {
        assert entries[i] in entries;
        return false;
      }
      seen := seen + {entries[i].key};
    }
    assert entries[..|entries|] == entries;
    return true;
  }

  // ---------- What a document hides ----------

  datatype Kind = Stale | Expired
  datatype Problem = Problem(kind: Kind, entry: Entry, remaining: int)
  datatype AppliedFile = AppliedFile(path: Text, visible: seq<Diagnostic>, baselined: seq<Diagnostic>)
  datatype Applied = Applied(files: seq<AppliedFile>, problems: seq<Problem>)

  predicate HasExpired(e: Entry, options: Options) {
    options.expiryCutoff != [] && e.expiresOn != [] && CompareText(e.expiresOn, options.expiryCutoff) <= 0
  }

  /** An entry has expired when both dates are given and the cutoff is not before its own. */
  lemma ExpiredExactly(e: Entry, options: Options)
    ensures HasExpired(e, options) <==>
      options.expiryCutoff != [] && e.expiresOn != []
        && forall n: nat :: !SmallerAt(options.expiryCutoff, e.expiresOn, n)
  {
    TextOrderIs(options.expiryCutoff, e.expiresOn);
    hide CompareText, SmallerAt;
    TextLaws(e.expiresOn, options.expiryCutoff, e.expiresOn);
  }

  /** How many diagnostics with a key the entries may hide. */
  function Allowed(entries: seq<Entry>, options: Options, k: Key): int {
    if |entries| == 0 then 0
    else if entries[0].key == k then (if HasExpired(entries[0], options) then 0 else entries[0].count)
    else Allowed(entries[1..], options, k)
  }

  lemma {:induction false} AllowedByEntry(entries: seq<Entry>, options: Options, e: Entry)
    requires DistinctKeys(entries) && e in entries
    ensures Allowed(entries, options, e.key) == if HasExpired(e, options) then 0 else e.count
    decreases |entries|
  {
    if entries[0] != e {
      assert entries == [entries[0]] + entries[1..];
      assert e in entries[1..];
      AllowedByEntry(entries[1..], options, e);
    }
  }

  /** A diagnostic is hidden while fewer than the allowed number with its key came before it. */
  ghost predicate Hides(entries: seq<Entry>, options: Options, keys: seq<Key>, j: nat)
    requires j < |keys|
  {
    multiset(keys[..j])[keys[j]] < Allowed(entries, options, keys[j])
  }

  /** The hidden, or the visible, diagnostics, in order. */
  ghost function Chosen(entries: seq<Entry>, options: Options, keys: seq<Key>, ds: seq<Diagnostic>,
                        hidden: bool): seq<Diagnostic>
    requires |keys| == |ds|
  {
    if |ds| == 0 then []
    else
      Chosen(entries, options, keys[..|ds| - 1], ds[..|ds| - 1], hidden)
      + if Hides(entries, options, keys, |ds| - 1) == hidden then [ds[|ds| - 1]] else []
  }

  /** How many diagnostics with key `k` are hidden. */
  ghost function HiddenCount(entries: seq<Entry>, options: Options, keys: seq<Key>, k: Key): nat {
    if |keys| == 0 then 0
    else
      HiddenCount(entries, options, keys[..|keys| - 1], k)
      + if keys[|keys| - 1] == k && Hides(entries, options, keys, |keys| - 1) then 1 else 0
  }

  /** Exactly as many as are allowed, or all of them. */
  lemma {:induction false} HidesExactly(entries: seq<Entry>, options: Options, keys: seq<Key>, k: Key)
    requires Allowed(entries, options, k) >= 0
    ensures HiddenCount(entries, options, keys, k) ==
      if multiset(keys)[k] < Allowed(entries, options, k) then multiset(keys)[k] else Allowed(entries, options, k)
    decreases |keys|
  {
    if |keys| > 0 {
      var init, last := keys[..|keys| - 1], keys[|keys| - 1];
      HidesExactly(entries, options, init, k);
      assert keys == init + [last];
    }
  }

  lemma ChosenCount(entries: seq<Entry>, options: Options, keys: seq<Key>, ds: seq<Diagnostic>, hidden: bool,
                    d: Diagnostic)
    requires |keys| == |ds| > 0
    ensures multiset(Chosen(entries, options, keys, ds, hidden))[d] ==
      multiset(Chosen(entries, options, keys[..|ds| - 1], ds[..|ds| - 1], hidden))[d]
      + if Hides(entries, options, keys, |ds| - 1) == hidden && ds[|ds| - 1] == d then 1 else 0
  {
    hide Hides;
  }

  lemma NoneChosen(entries: seq<Entry>, options: Options, hidden: bool)
    ensures Chosen(entries, options, [], [], hidden) == []
  {
  }

  lemma CountLast(ds: seq<Diagnostic>, d: Diagnostic)
    requires |ds| > 0
    ensures multiset(ds)[d] == multiset(ds[..|ds| - 1])[d] + if ds[|ds| - 1] == d then 1 else 0
  {
    assert ds == ds[..|ds| - 1] + [ds[|ds| - 1]];
  }

  /** Every diagnostic is either hidden or visible. */
  lemma {:induction false} ChosenSplits(entries: seq<Entry>, options: Options, keys: seq<Key>, ds: seq<Diagnostic>,
                                        d: Diagnostic)
    requires |keys| == |ds|
    ensures multiset(Chosen(entries, options, keys, ds, true))[d]
      + multiset(Chosen(entries, options, keys, ds, false))[d] == multiset(ds)[d]
    decreases |ds|
  {
    hide Hides, Chosen;
    if |ds| == 0 {
      NoneChosen(entries, options, true);
      NoneChosen(entries, options, false);
    } else {
      ChosenSplits(entries, options, keys[..|ds| - 1], ds[..|ds| - 1], d);
      ChosenCount(entries, options, keys, ds, true, d);
      ChosenCount(entries, options, keys, ds, false, d);
      CountLast(ds, d);
    }
  }

  ghost predicate Analyzed(tools: Tools, inputs: seq<Input>, path: Text) {
    exists i :: 0 <= i < |inputs| && PortablePath(tools, inputs[i]) == Some(path)
  }

  ghost predicate DistinctPaths(tools: Tools, inputs: seq<Input>) {
    forall i, j :: 0 <= i < j < |inputs| ==> PortablePath(tools, inputs[i]) != PortablePath(tools, inputs[j])
  }

  ghost function ProblemsOf(e: Entry, options: Options, analyzed: bool, observed: nat): seq<Problem> {
    if !analyzed then []
    else if HasExpired(e, options) then
      if !options.incomplete || observed > 0 then [Problem(Expired, e, e.count)] else []
    else if options.reportStale && !options.incomplete
      && observed < e.count then [Problem(Stale, e, e.count - observed)]
    else []
  }

  ghost function Problems(tools: Tools, entries: seq<Entry>, options: Options, inputs: seq<Input>): seq<Problem>
    requires AllKeyed(tools, inputs)
  {
    if |entries| == 0 then []
    else
      var last := entries[|entries| - 1];
      Problems(tools, entries[..|entries| - 1], options, inputs)
      + ProblemsOf(last, options, Analyzed(tools, inputs, last.key.path), multiset(AllKeys(tools, inputs))[last.key])
  }

  ghost predicate FileApplied(tools: Tools, entries: seq<Entry>, options: Options, input: Input, file: AppliedFile)
    requires Keyed(tools, input)
  {
    && file.path == input.file.value.path
    && file.visible == Chosen(entries, options, Keys(tools, input), input.diagnostics, false)
    && file.baselined == Chosen(entries, options, Keys(tools, input), input.diagnostics, true)
  }

  ghost predicate IsApplied(tools: Tools, document: Document, inputs: seq<Input>, options: Options, result: Applied)
    requires document.entries.Some? && AllKeyed(tools, inputs)
  {
    var entries := CanonicalEntries(document.entries.value);
    && |result.files| == |inputs|
    && (forall i :: 0 <= i < |inputs| ==> FileApplied(tools, entries, options, inputs[i], result.files[i]))
    && result.problems == Problems(tools, entries, options, inputs)
  }

  // ---------- Apply ----------

  predicate ValidCutoff(tools: Tools, options: Options) {
    options.expiryCutoff == [] || tools.validDate(options.expiryCutoff)
  }

  function Left(remaining: map<Key, int>, k: Key): int {
    if k in remaining then remaining[k] else 0
  }

  /** What may still be hidden after the keys seen so far. */
  ghost predicate Budget(entries: seq<Entry>, options: Options, remaining: map<Key, int>, seen: seq<Key>) {
    forall k :: Left(remaining, k) ==
      if multiset(seen)[k] < Allowed(entries, options, k) then Allowed(entries, options, k) - multiset(seen)[k] else 0
  }

  method StartBudget(entries: seq<Entry>, options: Options) returns (remaining: map<Key, int>, expired: set<Key>)
    requires DistinctKeys(entries) && forall e :: e in entries ==> e.count > 0
    ensures Budget(entries, options, remaining, [])
    ensures forall e :: e in entries ==> (e.key in expired <==> HasExpired(e, options))
    ensures forall k :: k in expired ==> Allowed(entries, options, k) == 0
  {
    hide Allowed, HasExpired;
    remaining, expired := map[], {};
    for i := 0 to |entries|
      invariant forall k :: k in remaining <==>
        exists j :: 0 <= j < i && entries[j].key == k && !HasExpired(entries[j], options)
      invariant forall j :: 0 <= j < i && !HasExpired(entries[j], options) ==>
        remaining[entries[j].key] == entries[j].count
      invariant forall k :: k in expired <==>
        exists j :: 0 <= j < i && entries[j].key == k && HasExpired(entries[j], options)
    {
      if HasExpired(entries[i], options) {
        expired := expired + {entries[i].key};
        continue;
      }
      remaining := remaining[entries[i].key := entries[i].count];
    }
    forall k
      ensures Left(remaining, k) == (if 0 < Allowed(entries, options, k) then Allowed(entries, options, k) else 0)
      ensures k in expired ==> Allowed(entries, options, k) == 0
    {
      AllowedIs(entries, options, k);
    }
  }

  /** Either some entry has the key, or nothing is allowed. */
  lemma AllowedIs(entries: seq<Entry>, options: Options, k: Key)
    requires DistinctKeys(entries)
    ensures (exists j :: 0 <= j < |entries| && entries[j].key == k) || Allowed(entries, options, k) == 0
    ensures forall j :: 0 <= j < |entries| && entries[j].key == k ==>
      Allowed(entries, options, k) == if HasExpired(entries[j], options) then 0 else entries[j].count
  {
    forall j | 0 <= j < |entries| && entries[j].key == k
      ensures Allowed(entries, options, k) == if HasExpired(entries[j], options) then 0 else entries[j].count
    {
      AllowedByEntry(entries, options, entries[j]);
    }
    if !exists j :: 0 <= j < |entries| && entries[j].key == k {
      NothingAllowed(entries, options, k);
    }
  }

  lemma {:induction false} NothingAllowed(entries: seq<Entry>, options: Options, k: Key)
    requires forall j :: 0 <= j < |entries| ==> entries[j].key != k
    ensures Allowed(entries, options, k) == 0
    decreases |entries|
  {
    if |entries| > 0 {
      NothingAllowed(entries[1..], options, k);
    }
  }

  lemma BudgetSnoc(entries: seq<Entry>, options: Options, remaining: map<Key, int>, seen: seq<Key>, k: Key)
    requires Budget(entries, options, remaining, seen)
    ensures Left(remaining, k) > 0 <==> multiset(seen)[k] < Allowed(entries, options, k)
    ensures Budget(entries, options, if Left(remaining, k) > 0 then remaining[k := Left(remaining, k) - 1]
      else remaining, seen + [k])
  {
    hide Allowed;
  }

  lemma ChosenSnoc(entries: seq<Entry>, options: Options, keys: seq<Key>, ds: seq<Diagnostic>, j: nat, hidden: bool)
    requires j < |keys| == |ds|
    ensures Chosen(entries, options, keys[..j + 1], ds[..j + 1], hidden) ==
      Chosen(entries, options, keys[..j], ds[..j], hidden)
        + if Hides(entries, options, keys, j) == hidden then [ds[j]] else []
  {
    hide Allowed;
    assert keys[..j + 1][..j] == keys[..j] && ds[..j + 1][..j] == ds[..j];
  }

  /** Keys of files with other paths do not count against this file. */
  lemma OtherPathsDoNotCount(before: seq<Key>, keys: seq<Key>, k: Key)
    requires forall o :: o in before ==> o.path != k.path
    ensures multiset(before + keys)[k] == multiset(keys)[k]
  {
    assert multiset(before + keys) == multiset(before) + multiset(keys);
    assert k !in before;
  }

  /** The state of the loops of `Apply`. */
  datatype State = State(remaining: map<Key, int>, observed: map<Key, nat>)

  ghost predicate Tracks(entries: seq<Entry>, options: Options, s: State, seen: seq<Key>) {
    Budget(entries, options, s.remaining, seen) && Counts(s.observed, seen)
  }

  function Observe(s: State, k: Key): State {
    State(if Left(s.remaining, k) > 0 then s.remaining[k := Left(s.remaining, k) - 1] else s.remaining,
          s.observed[k := (if k in s.observed then s.observed[k] else 0) + 1])
  }

  lemma ObserveTracks(entries: seq<Entry>, options: Options, s: State, seen: seq<Key>, k: Key)
    requires Tracks(entries, options, s, seen)
    ensures Tracks(entries, options, Observe(s, k), seen + [k])
    ensures Left(s.remaining, k) > 0 <==> multiset(seen)[k] < Allowed(entries, options, k)
  {
    hide Budget, Counts, Allowed;
    BudgetSnoc(entries, options, s.remaining, seen, k);
    CountsSnoc(s.observed, seen, k);
  }

  /** The inner loop of `Apply`: the diagnostics of one file. */
  method ApplyInput(tools: Tools, ghost entries: seq<Entry>, options: Options, expired: set<Key>, input: Input,
                    portable: Text,
                    start: State, ghost before: seq<Key>) returns (r: Option<(AppliedFile, State)>)
    requires PortablePath(tools, input) == Some(portable)
    requires forall k :: k in expired ==> Allowed(entries, options, k) == 0
    requires Tracks(entries, options, start, before) && forall k :: k in before ==> k.path != portable
    ensures r.Some? <==> Keyed(tools, input)
    ensures r.Some? ==> FileApplied(tools, entries, options, input, r.value.0)
    ensures r.Some? ==> Tracks(entries, options, r.value.1, before + Keys(tools, input))
  {
    hide Tracks, Chosen, Allowed, Observe;
    var file := input.file.value;
    var s := start;
    var visible, baselined := [], [];
    ghost var keys: seq<Key> := [];
    assert before + [] == before;
    NoneChosen(entries, options, true);
    NoneChosen(entries, options, false);
    for j := 0 to |input.diagnostics|
      invariant |keys| == j && Tracks(entries, options, s, before + keys)
      invariant forall l :: 0 <= l < j ==> KeyOf(tools, portable, file, input.diagnostics[l]) == Some(keys[l])
      invariant visible == Chosen(entries, options, keys, input.diagnostics[..j], false)
      invariant baselined == Chosen(entries, options, keys, input.diagnostics[..j], true)
    {
      var d := input.diagnostics[j];
      var key := KeyOf(tools, portable, file, d);
      if key.None? {
        return None;
      }
      var k := key.value;
      ObserveTracks(entries, options, s, before + keys, k);
      OtherPathsDoNotCount(before, keys, k);
      ChosenNext(entries, options, keys, k, input.diagnostics, j, true);
      ChosenNext(entries, options, keys, k, input.diagnostics, j, false);
      assert before + keys + [k] == before + (keys + [k]);
      var hides := k !in expired && Left(s.remaining, k) > 0;
      keys := keys + [k];
      s := Observe(s, k);
      if hides {
        baselined := baselined + [d];
        continue;
      }
      visible := visible + [d];
    }
    assert keys == Keys(tools, input);
    assert input.diagnostics[..|input.diagnostics|] == input.diagnostics;
    return Some((AppliedFile(file.path, visible, baselined), s));
  }

  lemma ChosenNext(entries: seq<Entry>, options: Options, keys: seq<Key>, k: Key, ds: seq<Diagnostic>, j: nat,
                   hidden: bool)
    requires |keys| == j < |ds|
    ensures Chosen(entries, options, keys + [k], ds[..j + 1], hidden) ==
      Chosen(entries, options, keys, ds[..j], hidden) +
      if (multiset(keys)[k] < Allowed(entries, options, k)) == hidden then [ds[j]] else []
  {
    ChosenSnoc(entries, options, keys + [k], ds[..j + 1], j, hidden);
    assert (keys + [k])[..j] == keys && ds[..j + 1][..j] == ds[..j];
    assert (keys + [k])[..j + 1] == keys + [k] && ds[..j + 1][..j + 1] == ds[..j + 1];
  }

  lemma {:induction false} KeysHaveTheirPaths(tools: Tools, inputs: seq<Input>, k: Key)
    requires AllKeyed(tools, inputs) && k in AllKeys(tools, inputs)
    ensures Analyzed(tools, inputs, k.path)
    decreases |inputs|
  {
    var init := inputs[..|inputs| - 1];
    if k in AllKeys(tools, init) {
      KeysHaveTheirPaths(tools, init, k);
      var i :| 0 <= i < |init| && PortablePath(tools, init[i]) == Some(k.path);
      assert inputs[i] == init[i];
    } else {
      assert k in Keys(tools, inputs[|inputs| - 1]);
      assert PortablePath(tools, inputs[|inputs| - 1]) == Some(k.path);
    }
  }

  /** What is wrong with the entries, in canonical order. */
  method ReportProblems(tools: Tools, entries: seq<Entry>, options: Options, inputs: seq<Input>, expired: set<Key>,
                        seen: set<Text>, s: State)
      returns (problems: seq<Problem>)
    requires AllKeyed(tools, inputs) && DistinctKeys(entries)
    requires forall path :: path in seen <==> Analyzed(tools, inputs, path)
    requires forall e :: e in entries ==> (e.key in expired <==> HasExpired(e, options))
    requires Tracks(entries, options, s, AllKeys(tools, inputs))
    ensures problems == Problems(tools, entries, options, inputs)
  {
    hide Tracks, Analyzed, AllKeys, HasExpired, DistinctKeys;
    problems := [];
    for i := 0 to |entries|
      invariant problems == Problems(tools, entries[..i], options, inputs)
    {
      var e := entries[i];
      assert entries[..i + 1][..i] == entries[..i] && entries[..i + 1][i] == e;
      StateOf(entries, options, s, AllKeys(tools, inputs), e);
      if e.key.path !in seen {
        continue;
      }
      if e.key in expired && (!options.incomplete || (e.key in s.observed && s.observed[e.key] > 0)) {
        problems := problems + [Problem(Expired, e, e.count)];
        continue;
      }
      if options.reportStale && !options.incomplete && Left(s.remaining, e.key) > 0 {
        problems := problems + [Problem(Stale, e, Left(s.remaining, e.key))];
      }
    }
    assert entries[..|entries|] == entries;
  }

  lemma StateOf(entries: seq<Entry>, options: Options, s: State, seen: seq<Key>, e: Entry)
    requires Tracks(entries, options, s, seen) && DistinctKeys(entries) && e in entries
    ensures (e.key in s.observed && s.observed[e.key] > 0) <==> multiset(seen)[e.key] > 0
    ensures var allowed := if HasExpired(e, options) then 0 else e.count;
      Left(s.remaining, e.key) == if multiset(seen)[e.key] < allowed then allowed - multiset(seen)[e.key] else 0
  {
    AllowedByEntry(entries, options, e);
  }

  /** Everything `Apply` demands of its arguments. */
  ghost predicate CanApply(tools: Tools, document: Document, inputs: seq<Input>, options: Options) {
    && tools.rootValid && ValidDocument(tools, document) && ValidCutoff(tools, options)
    && AllKeyed(tools, inputs) && DistinctPaths(tools, inputs)
  }

  method Apply(tools: Tools, document: Document, inputs: seq<Input>, options: Options) returns (r: Option<Applied>)
    ensures r.Some? <==> CanApply(tools, document, inputs, options)
    ensures r.Some? ==> IsApplied(tools, document, inputs, options, r.value)
  {
    hide Tracks, FileApplied, Keyed, AllKeys, Problems;
    if !tools.rootValid {
      return None;
    }
    var valid := ValidateDocument(tools, document);
    if !valid || !ValidCutoff(tools, options) {
      return None;
    }
    var entries := CanonicalEntries(document.entries.value);
    CanonicalHolds(document.entries.value);
    var remaining, expired := StartBudget(entries, options);
    var s := State(remaining, map[]);
    StartTracks(tools, entries, options, remaining);
    var files: seq<AppliedFile> := [];
    var seen: set<Text> := {};
    for i := 0 to |inputs|
      invariant AllKeyed(tools, inputs[..i]) && DistinctPaths(tools, inputs[..i])
      invariant forall path :: path in seen <==> Analyzed(tools, inputs[..i], path)
      invariant Tracks(entries, options, s, AllKeys(tools, inputs[..i]))
      invariant |files| == i
        && forall j :: 0 <= j < i ==>
        Keyed(tools, inputs[j]) && FileApplied(tools, entries, options, inputs[j], files[j])
    {
      AllKeysSnoc(tools, inputs, i);
      var portable := PortablePath(tools, inputs[i]);
      if portable.None? {
        KeyedHasPath(tools, inputs[i]);
        return None;
      }
      PathsSnoc(tools, inputs, i);
      if portable.value in seen {
        return None;
      }
      SeenPaths(tools, inputs[..i]);
      var applied := ApplyInput(tools, entries, options, expired, inputs[i], portable.value, s,
        AllKeys(tools, inputs[..i]));
      if applied.None? {
        return None;
      }
      seen := seen + {portable.value};
      files := files + [applied.value.0];
      s := applied.value.1;
    }
    assert inputs[..|inputs|] == inputs;
    var problems := ReportProblems(tools, entries, options, inputs, expired, seen, s);
    return Some(Applied(files, problems));
  }

  lemma StartTracks(tools: Tools, entries: seq<Entry>, options: Options, remaining: map<Key, int>)
    requires Budget(entries, options, remaining, [])
    ensures Tracks(entries, options, State(remaining, map[]), AllKeys(tools, []))
  {
  }

  lemma KeyedHasPath(tools: Tools, input: Input)
    ensures Keyed(tools, input) ==> PortablePath(tools, input).Some?
  {
  }

  lemma PathsSnoc(tools: Tools, inputs: seq<Input>, i: nat)
    requires i < |inputs| && PortablePath(tools, inputs[i]).Some?
    ensures forall path :: Analyzed(tools, inputs[..i + 1], path) <==>
      Analyzed(tools, inputs[..i], path) || PortablePath(tools, inputs[i]) == Some(path)
    ensures DistinctPaths(tools, inputs[..i]) ==>
      (DistinctPaths(tools, inputs[..i + 1]) <==> !Analyzed(tools, inputs[..i], PortablePath(tools, inputs[i]).value))
    ensures DistinctPaths(tools, inputs) ==> !Analyzed(tools, inputs[..i], PortablePath(tools, inputs[i]).value)
  {
    hide PortablePath;
    assert inputs[..i + 1] == inputs[..i] + [inputs[i]];
    var path := PortablePath(tools, inputs[i]).value;
    if Analyzed(tools, inputs[..i], path) {
      var j :| 0 <= j < i && PortablePath(tools, inputs[..i][j]) == Some(path);
      assert inputs[..i + 1][j] == inputs[j] && inputs[..i + 1][i] == inputs[i];
    }
    forall path
      ensures Analyzed(tools, inputs[..i + 1], path) <==>
        Analyzed(tools, inputs[..i], path) || PortablePath(tools, inputs[i]) == Some(path)
    {
      assert inputs[..i + 1][i] == inputs[i];
      if Analyzed(tools, inputs[..i], path) {
        var j :| 0 <= j < i && PortablePath(tools, inputs[..i][j]) == Some(path);
        assert inputs[..i + 1][j] == inputs[j];
      }
    }
  }

  lemma SeenPaths(tools: Tools, inputs: seq<Input>)
    requires AllKeyed(tools, inputs)
    ensures forall k :: k in AllKeys(tools, inputs) ==> Analyzed(tools, inputs, k.path)
  {
    forall k | k in AllKeys(tools, inputs)
      ensures Analyzed(tools, inputs, k.path)
    {
      KeysHaveTheirPaths(tools, inputs, k);
    }
  }

  // ---------- Generating, then applying ----------

  lemma {:induction false} KeyIsValid(tools: Tools, inputs: seq<Input>, k: Key)
    requires Lawful(tools) && AllKeyed(tools, inputs) && k in AllKeys(tools, inputs)
    ensures k.ruleID != [] && tools.validPath(k.path) && k.messageKey != [] && tools.validFingerprint(k.fingerprint)
    decreases |inputs|
  {
    if k in AllKeys(tools, inputs[..|inputs| - 1]) {
      KeyIsValid(tools, inputs[..|inputs| - 1], k);
    } else {
      var last := inputs[|inputs| - 1];
      assert Keyed(tools, last);
      var j :| 0 <= j < |last.diagnostics| && Keys(tools, last)[j] == k;
    }
  }

  /** What is generated from some inputs can be applied. */
  lemma GeneratedIsValid(tools: Tools, inputs: seq<Input>, document: Document)
    requires Lawful(tools) && AllKeyed(tools, inputs) && IsGenerated(document, AllKeys(tools, inputs))
    ensures ValidDocument(tools, document)
  {
    forall e | e in document.entries.value
      ensures ValidEntry(tools, e)
    {
      KeyIsValid(tools, inputs, e.key);
    }
  }

  lemma {:induction false} FileIsWithinAll(tools: Tools, inputs: seq<Input>, i: nat)
    requires AllKeyed(tools, inputs) && i < |inputs|
    ensures multiset(Keys(tools, inputs[i])) <= multiset(AllKeys(tools, inputs))
    decreases |inputs|
  {
    hide Keys, Keyed;
    var init, last := inputs[..|inputs| - 1], inputs[|inputs| - 1];
    PartsAreWithin(AllKeys(tools, init), Keys(tools, last));
    if i < |init| {
      FileIsWithinAll(tools, init, i);
    }
  }

  lemma PartsAreWithin(a: seq<Key>, b: seq<Key>)
    ensures multiset(a) <= multiset(a + b) && multiset(b) <= multiset(a + b)
  {
    assert multiset(a + b) == multiset(a) + multiset(b);
  }

  lemma GeneratedAllows(keys: seq<Key>, document: Document, options: Options, k: Key)
    requires IsGenerated(document, keys) && k in keys
    ensures Allowed(CanonicalEntries(document.entries.value), options, k) == multiset(keys)[k]
  {
    var entries := document.entries.value;
    CanonicalHolds(entries);
    var e :| e in entries && e.key == k;
    AllowedByEntry(CanonicalEntries(entries), options, e);
  }

  lemma LastIsHidden(entries: seq<Entry>, options: Options, keys: seq<Key>, ds: seq<Diagnostic>)
    requires 0 < |keys| == |ds| && Hides(entries, options, keys, |ds| - 1)
    ensures var init, before := keys[..|ds| - 1], ds[..|ds| - 1];
      && Chosen(entries, options, keys, ds, true) == Chosen(entries, options, init, before, true) + [ds[|ds| - 1]]
      && Chosen(entries, options, keys, ds, false) == Chosen(entries, options, init, before, false)
  {
    hide Hides;
  }

  /** How often a key occurs before the last place. */
  lemma CountBeforeLast(keys: seq<Key>, k: Key)
    requires |keys| > 0
    ensures multiset(keys)[k] == multiset(keys[..|keys| - 1])[k] + (if k == keys[|keys| - 1] then 1 else 0)
  {
    assert keys == keys[..|keys| - 1] + [keys[|keys| - 1]];
  }

  /** If every one may be hidden, all are. */
  lemma {:induction false} AllChosen(entries: seq<Entry>, options: Options, keys: seq<Key>, ds: seq<Diagnostic>)
    requires |keys| == |ds|
      && forall j :: 0 <= j < |ds| ==> multiset(keys)[keys[j]] <= Allowed(entries, options, keys[j])
    ensures Chosen(entries, options, keys, ds, true) == ds && Chosen(entries, options, keys, ds, false) == []
    decreases |ds|
  {
    if |ds| > 0 {
      hide Allowed, Chosen;
      var init := keys[..|ds| - 1];
      CountBeforeLast(keys, keys[|ds| - 1]);
      forall j | 0 <= j < |init|
        ensures multiset(init)[init[j]] <= Allowed(entries, options, init[j])
      {
        CountBeforeLast(keys, keys[j]);
      }
      AllChosen(entries, options, init, ds[..|ds| - 1]);
      LastIsHidden(entries, options, keys, ds);
      assert ds == ds[..|ds| - 1] + [ds[|ds| - 1]];
    }
  }

  lemma {:induction false} NoProblems(tools: Tools, entries: seq<Entry>, options: Options, inputs: seq<Input>)
    requires AllKeyed(tools, inputs)
    requires forall e :: e in entries ==> e.expiresOn == [] && e.count == multiset(AllKeys(tools, inputs))[e.key]
    ensures Problems(tools, entries, options, inputs) == []
    decreases |entries|
  {
    if |entries| > 0 {
      assert entries[|entries| - 1] in entries;
      NoProblems(tools, entries[..|entries| - 1], options, inputs);
    }
  }

  /** A document just generated from inputs with distinct paths hides every diagnostic and raises no problem. */
  lemma GeneratedHidesEverything(tools: Tools, inputs: seq<Input>, document: Document, options: Options)
    requires Lawful(tools) && tools.rootValid && AllKeyed(tools, inputs) && DistinctPaths(tools, inputs)
    requires ValidCutoff(tools, options)
    requires IsGenerated(document, AllKeys(tools, inputs))
    ensures CanApply(tools, document, inputs, options)
    ensures forall result :: IsApplied(tools, document, inputs, options, result) ==>
      result.problems == [] && |result.files| == |inputs|
      && forall i :: 0 <= i < |inputs| ==>
        result.files[i].visible == [] && result.files[i].baselined == inputs[i].diagnostics
  {
    hide Chosen, Allowed, Problems, AllKeys;
    GeneratedIsValid(tools, inputs, document);
    var keys := AllKeys(tools, inputs);
    var entries := CanonicalEntries(document.entries.value);
    CanonicalHolds(document.entries.value);
    NoProblems(tools, entries, options, inputs);
    forall i | 0 <= i < |inputs|
      ensures Chosen(entries, options, Keys(tools, inputs[i]), inputs[i].diagnostics, true) == inputs[i].diagnostics
      ensures Chosen(entries, options, Keys(tools, inputs[i]), inputs[i].diagnostics, false) == []
    {
      var own := Keys(tools, inputs[i]);
      FileIsWithinAll(tools, inputs, i);
      forall j | 0 <= j < |own|
        ensures multiset(own)[own[j]] <= Allowed(entries, options, own[j])
      {
        assert own[j] in multiset(own) && own[j] in multiset(keys);
        GeneratedAllows(keys, document, options, own[j]);
      }
      AllChosen(entries, options, own, inputs[i].diagnostics);
    }
  }
}
