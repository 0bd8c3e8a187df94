/** Bounding the persistent cache by evicting its oldest entries (internal/cache/prune.go). */
module Prune {
  import opened Sorting
  import opened Wrappers

  const MAX_INT64: int := 0x7fff_ffff_ffff_ffff

  /** Cache keys are digests; the order of their hexadecimal names is that of the numbers they spell. */
  type Key = nat

  /** A canonical entry file as the scan finds it: whether it can be read, and then whether it is a whole entry. */
  datatype Listed = Listed(key: Key, modified: int, size: nat, readable: bool, whole: bool)

  /** What removing a file comes to: another process may have removed it already. */
  datatype Removal = Removed | Gone | Refused

  /** A zero limit is no limit. */
  datatype Options = Options(maxEntries: int, maxBytes: int)

  datatype Report = Report(
    entriesBefore: int, bytesBefore: int, entriesRemoved: int, bytesRemoved: int, corruptRemoved: int,
    entriesAfter: int, bytesAfter: int)

  datatype Error = BadOptions | Overflow | ReadFailed | RemoveFailed

  predicate Older(a: Listed, b: Listed) {
    if a.modified != b.modified then a.modified < b.modified else a.key <= b.key
  }

  predicate LimitExceeded(options: Options, entries: int, bytes: int) {
    (options.maxEntries > 0 && entries > options.maxEntries) || (options.maxBytes > 0 && bytes > options.maxBytes)
  }

  function AddBytes(total: int, size: int): Option<int> {
    if size < 0 || total > MAX_INT64 - size then None else Some(total + size)
  }

  function Bytes(es: seq<Listed>): nat {
    if |es| == 0 then 0 else Bytes(es[..|es| - 1]) + es[|es| - 1].size
  }

  function Whole(es: seq<Listed>): seq<Listed> {
    if |es| == 0 then [] else Whole(es[..|es| - 1]) + (if es[|es| - 1].whole then [es[|es| - 1]] else [])
  }

  function Corrupt(es: seq<Listed>): seq<Listed> {
    if |es| == 0 then [] else Corrupt(es[..|es| - 1]) + (if es[|es| - 1].whole then [] else [es[|es| - 1]])
  }

  function Count(es: seq<Listed>, remove: Key -> Removal, what: Removal): seq<Listed> {
    if |es| == 0 then []
    else Count(es[..|es| - 1], remove, what) + (if remove(es[|es| - 1].key) == what then [es[|es| - 1]] else [])
  }

  /** What is counted came to just that. */
  lemma {:induction false} CountedCameTo(es: seq<Listed>, remove: Key -> Removal, what: Removal, e: Listed)
    ensures multiset(Count(es, remove, what))[e] == if remove(e.key) == what then multiset(es)[e] else 0
    decreases |es|
  {
    if |es| > 0 {
      CountedCameTo(es[..|es| - 1], remove, what, e);
      assert es == es[..|es| - 1] + [es[|es| - 1]];
    }
  }

  /** The candidates, oldest first. */
  function Candidates(listed: seq<Listed>): seq<Listed> {
    Sort(Whole(listed), Older)
  }

  lemma OlderIsLinear()
    ensures Linear(Older)
  {
  }

  /** Whatever the limits, evicting a prefix of the candidates takes the entries last modified before all that stay. */
  ghost predicate OldestGo(evicted: seq<Listed>, kept: seq<Listed>) {
    forall e, k :: e in evicted && k in kept ==> e.modified < k.modified || (e.modified == k.modified && e.key <= k.key)
  }

  lemma OldestGoFirst(listed: seq<Listed>, n: nat)
    requires n <= |Candidates(listed)|
    ensures OldestGo(Candidates(listed)[..n], Candidates(listed)[n..])
  {
    var candidates := Candidates(listed);
    OlderIsLinear();
    SortIsSorted(Whole(listed), Older);
    forall e, k | e in candidates[..n] && k in candidates[n..]
      ensures e.modified < k.modified || (e.modified == k.modified && e.key <= k.key)
    {
      var i :| 0 <= i < n && candidates[i] == e;
      var j :| 0 <= j < |candidates| - n && candidates[n..][j] == k;
      assert Older(candidates[i], candidates[n + j]);
    }
  }

  /** Each whole entry, as often as it is listed, and nothing else. */
  ghost predicate IsWhole(candidates: seq<Listed>, listed: seq<Listed>) {
    forall e :: multiset(candidates)[e] == if e.whole then multiset(listed)[e] else 0
  }

  /** The candidates are the whole entries, each as often as it is listed, and the rest is corrupt. */
  lemma {:induction false} WholeEntries(es: seq<Listed>, e: Listed)
    ensures multiset(Whole(es))[e] == (if e.whole then multiset(es)[e] else 0)
    ensures multiset(Corrupt(es))[e] == (if e.whole then 0 else multiset(es)[e])
    decreases |es|
  {
    if |es| > 0 {
      WholeEntries(es[..|es| - 1], e);
      assert es == es[..|es| - 1] + [es[|es| - 1]];
    }
  }

  lemma CandidatesAreWhole(listed: seq<Listed>)
    ensures IsWhole(Candidates(listed), listed)
    ensures forall e :: multiset(Corrupt(listed))[e] == if e.whole then 0 else multiset(listed)[e]
  {
    OlderIsLinear();
    SortIsSorted(Whole(listed), Older);
    forall e
      ensures multiset(Whole(listed))[e] == if e.whole then multiset(listed)[e] else 0
      ensures multiset(Corrupt(listed))[e] == if e.whole then 0 else multiset(listed)[e]
    {
      WholeEntries(listed, e);
    }
  }

  // ---------- Arithmetic of entry lists ----------

  lemma {:induction false} BytesConcat(xs: seq<Listed>, ys: seq<Listed>)
    ensures Bytes(xs + ys) == Bytes(xs) + Bytes(ys)
    decreases |ys|
  {
    if |ys| == 0 {
      assert xs + ys == xs;
    } else {
      BytesConcat(xs, ys[..|ys| - 1]);
      assert (xs + ys)[..|xs + ys| - 1] == xs + ys[..|ys| - 1];
    }
  }

  lemma {:induction false} BytesOfMultiset(xs: seq<Listed>, ys: seq<Listed>)
    requires multiset(xs) == multiset(ys)
    ensures Bytes(xs) == Bytes(ys)
    decreases |xs|
  {
    assert |multiset(xs)| == |xs| && |multiset(ys)| == |ys|;
    if |xs| > 0 {
      var last := xs[|xs| - 1];
      assert last in multiset(ys);
      var i :| 0 <= i < |ys| && ys[i] == last;
      var rest := ys[..i] + ys[i + 1..];
      assert xs == xs[..|xs| - 1] + [last];
      assert ys == ys[..i] + ([last] + ys[i + 1..]);
      assert multiset(rest) == multiset(ys) - multiset{last};
      BytesOfMultiset(xs[..|xs| - 1], rest);
      BytesConcat(ys[..i], [last] + ys[i + 1..]);
      BytesConcat([last], ys[i + 1..]);
      BytesConcat(ys[..i], ys[i + 1..]);
      assert [last][..0] == [];
    }
  }

  lemma {:induction false} WholeAndCorrupt(es: seq<Listed>)
    ensures |Whole(es)| + |Corrupt(es)| == |es| && Bytes(Whole(es)) + Bytes(Corrupt(es)) == Bytes(es)
    decreases |es|
  {
    if |es| > 0 {
      var last := es[|es| - 1];
      WholeAndCorrupt(es[..|es| - 1]);
      BytesConcat(Whole(es[..|es| - 1]), [last]);
      BytesConcat(Corrupt(es[..|es| - 1]), [last]);
      assert [last][..0] == [];
      assert Whole(es[..|es| - 1]) + [] == Whole(es[..|es| - 1]);
      assert Corrupt(es[..|es| - 1]) + [] == Corrupt(es[..|es| - 1]);
    }
  }

  lemma CandidatesAccount(listed: seq<Listed>)
    ensures |Candidates(listed)| + |Corrupt(listed)| == |listed|
    ensures Bytes(Candidates(listed)) + Bytes(Corrupt(listed)) == Bytes(listed)
  {
    OlderIsLinear();
    SortIsSorted(Whole(listed), Older);
    BytesOfMultiset(Candidates(listed), Whole(listed));
    WholeAndCorrupt(listed);
  }

  lemma {:induction false} CountAccounts(es: seq<Listed>, remove: Key -> Removal)
    requires forall i :: 0 <= i < |es| ==> remove(es[i].key) != Refused
    ensures |Count(es, remove, Removed)| + |Count(es, remove, Gone)| == |es|
    ensures Bytes(Count(es, remove, Removed)) + Bytes(Count(es, remove, Gone)) == Bytes(es)
    decreases |es|
  {
    if |es| > 0 {
      var init, last := es[..|es| - 1], es[|es| - 1];
      CountAccounts(init, remove);
      BytesConcat(Count(init, remove, Removed), [last]);
      BytesConcat(Count(init, remove, Gone), [last]);
      assert [last][..0] == [];
      assert Count(init, remove, Removed) + [] == Count(init, remove, Removed);
      assert Count(init, remove, Gone) + [] == Count(init, remove, Gone);
    }
  }

  // ---------- Pruning ----------

  /** `n` is the length of the shortest prefix of the candidates whose eviction meets both limits. */
  ghost predicate ShortestEviction(options: Options, candidates: seq<Listed>, n: nat) {
    && n <= |candidates|
    && !LimitExceeded(options, |candidates| - n, Bytes(candidates) - Bytes(candidates[..n]))
    && forall m :: 0 <= m < n ==> LimitExceeded(options, |candidates| - m, Bytes(candidates) - Bytes(candidates[..m]))
  }

  lemma {:induction false} BytesOfPrefix(es: seq<Listed>, n: nat)
    requires n <= |es|
    ensures Bytes(es[..n]) <= Bytes(es)
  {
    assert es == es[..n] + es[n..];
    BytesConcat(es[..n], es[n..]);
  }

  lemma ScanStart(listed: seq<Listed>, remove: Key -> Removal)
    ensures Bytes(listed[..0]) == 0 && Whole(listed[..0]) == [] && Count(Corrupt(listed[..0]), remove, Removed) == []
    ensures Bytes([]) == 0
  {
  }

  lemma ScanStep(listed: seq<Listed>, i: nat, remove: Key -> Removal)
    requires i < |listed|
    ensures Bytes(listed[..i + 1]) == Bytes(listed[..i]) + listed[i].size
    ensures Whole(listed[..i + 1]) == if listed[i].whole then Whole(listed[..i]) + [listed[i]] else Whole(listed[..i])
    ensures var before, after := Count(Corrupt(listed[..i]), remove, Removed),
      Count(Corrupt(listed[..i + 1]), remove, Removed);
      if !listed[i].whole && remove(listed[i].key) == Removed then |after| == |before| + 1
        && Bytes(after) == Bytes(before) + listed[i].size
      else after == before
  {
    assert listed[..i + 1][..i] == listed[..i];
    CountSnoc(Corrupt(listed[..i]), listed[i], remove);
    assert Whole(listed[..i]) + [] == Whole(listed[..i]);
    assert Corrupt(listed[..i]) + [] == Corrupt(listed[..i]);
  }

  lemma EvictStep(candidates: seq<Listed>, i: nat, remove: Key -> Removal)
    requires i < |candidates|
    ensures Bytes(candidates[..i + 1]) == Bytes(candidates[..i]) + candidates[i].size
    ensures var before, after := Count(candidates[..i], remove, Removed), Count(candidates[..i + 1], remove, Removed);
      if remove(candidates[i].key) == Removed then |after| == |before| + 1
        && Bytes(after) == Bytes(before) + candidates[i].size
      else after == before
  {
    assert candidates[..i + 1] == candidates[..i] + [candidates[i]];
    assert candidates[..i + 1][..i] == candidates[..i];
    CountSnoc(candidates[..i], candidates[i], remove);
  }

  lemma EvictStart(candidates: seq<Listed>, remove: Key -> Removal)
    ensures Bytes(candidates[..0]) == 0 && Count(candidates[..0], remove, Removed) == [] && Bytes([]) == 0
  {
  }

  /** What an error of the scan or the eviction says about the cache. */
  ghost predicate Explains(error: Error, listed: seq<Listed>, remove: Key -> Removal) {
    match error
    case BadOptions => false
    case Overflow => Bytes(listed) > MAX_INT64
    case ReadFailed => exists i :: 0 <= i < |listed| && !listed[i].readable
    case RemoveFailed => exists i :: 0 <= i < |listed| && remove(listed[i].key) == Refused
  }

  /** The scan: counts every entry, removes the corrupt ones, and keeps the rest as candidates. */
  method Scan(listed: seq<Listed>, remove: Key -> Removal) returns (r: Result<(seq<Listed>, Report), Error>)
    ensures r.Ok? ==>
      && Bytes(listed) <= MAX_INT64 && (forall i :: 0 <= i < |listed| ==> listed[i].readable)
      && (forall i :: 0 <= i < |listed| && !listed[i].whole ==> remove(listed[i].key) != Refused)
      && r.value.0 == Whole(listed)
      && var removed := Count(Corrupt(listed), remove, Removed);
         r.value.1 == Report(|listed|, Bytes(listed), |removed|, Bytes(removed), |removed|, 0, 0)
    ensures r.Err? ==> Explains(r.error, listed, remove)
  {
    hide Bytes, Count, Whole, Corrupt;
    ScanStart(listed, remove);
    var candidates := [];
    var report := Report(0, 0, 0, 0, 0, 0, 0);
    for i := 0 to |listed|
      invariant Bytes(listed[..i]) <= MAX_INT64
      invariant forall j :: 0 <= j < i ==> listed[j].readable
      invariant forall j :: 0 <= j < i && !listed[j].whole ==> remove(listed[j].key) != Refused
      invariant candidates == Whole(listed[..i])
      invariant var removed := Count(Corrupt(listed[..i]), remove, Removed);
        report == Report(i, Bytes(listed[..i]), |removed|, Bytes(removed), |removed|, 0, 0)
    {
      var entry := listed[i];
      ScanStep(listed, i, remove);
      BytesOfPrefix(listed, i + 1);
      var total := AddBytes(report.bytesBefore, entry.size);
      if total.None? {
        return Err(Overflow);
      }
      report := report.(entriesBefore := report.entriesBefore + 1, bytesBefore := total.value);
      if !entry.readable {
        return Err(ReadFailed);
      }
      if entry.whole {
        candidates := candidates + [entry];
        continue;
      }
      match remove(entry.key) {
        case Refused =>
          return Err(RemoveFailed);
        case Gone =>
        case Removed =>
          report := report.(entriesRemoved := report.entriesRemoved + 1, bytesRemoved := report.bytesRemoved
            + entry.size,
                            corruptRemoved := report.corruptRemoved + 1);
      }
    }
    assert listed[..|listed|] == listed;
    return Ok((candidates, report));
  }

  lemma CountSnoc(es: seq<Listed>, e: Listed, remove: Key -> Removal)
    ensures var before, after := Count(es, remove, Removed), Count(es + [e], remove, Removed);
      if remove(e.key) == Removed then |after| == |before| + 1 && Bytes(after) == Bytes(before) + e.size
        else after == before
  {
    assert (es + [e])[..|es|] == es;
    BytesConcat(Count(es, remove, Removed), [e]);
    assert [e][..0] == [];
    assert Count(es, remove, Removed) + [] == Count(es, remove, Removed);
  }

  /** The eviction loop over the sorted candidates. */
  method Evict(options: Options, candidates: seq<Listed>, scanned: Report,
               remove: Key -> Removal) returns (r: Result<Report, Error>, ghost n: nat)
    requires Bytes(candidates) <= MAX_INT64
    ensures r.Ok? ==>
      && ShortestEviction(options, candidates, n)
      && (forall i :: 0 <= i < n ==> remove(candidates[i].key) != Refused)
      && var removed := Count(candidates[..n], remove, Removed);
         r.value == scanned.(entriesRemoved := scanned.entriesRemoved + |removed|,
                             bytesRemoved := scanned.bytesRemoved + Bytes(removed),
                             entriesAfter := |candidates| - n, bytesAfter := Bytes(candidates) - Bytes(candidates[..n]))
    ensures r.Err? ==> r.error == RemoveFailed
    ensures r.Err? ==> exists i :: 0 <= i < |candidates| && remove(candidates[i].key) == Refused
  {
    hide Bytes, Count;
    EvictStart(candidates, remove);
    var remainingEntries, remainingBytes := |candidates|, 0;
    for i := 0 to |candidates|
      invariant remainingBytes == Bytes(candidates[..i])
    {
      EvictStep(candidates, i, remove);
      BytesOfPrefix(candidates, i + 1);
      var total := AddBytes(remainingBytes, candidates[i].size);
      remainingBytes := total.value;
    }
    assert candidates[..|candidates|] == candidates;
    var report := scanned;
    var evicted := 0;
    while evicted < |candidates|
      invariant evicted <= |candidates| && remainingEntries == |candidates| - evicted
      invariant remainingBytes == Bytes(candidates) - Bytes(candidates[..evicted])
      invariant forall m :: 0 <= m < evicted ==>
        LimitExceeded(options, |candidates| - m, Bytes(candidates) - Bytes(candidates[..m]))
      invariant forall i :: 0 <= i < evicted ==> remove(candidates[i].key) != Refused
      invariant var removed := Count(candidates[..evicted], remove, Removed);
        report == scanned.(entriesRemoved := scanned.entriesRemoved + |removed|, bytesRemoved := scanned.bytesRemoved
          + Bytes(removed))
    {
      if !LimitExceeded(options, remainingEntries, remainingBytes) {
        break;
      }
      var candidate := candidates[evicted];
      EvictStep(candidates, evicted, remove);
      match remove(candidate.key) {
        case Refused =>
          return Err(RemoveFailed), evicted;
        case Gone =>
        case Removed =>
          report := report.(entriesRemoved := report.entriesRemoved + 1, bytesRemoved := report.bytesRemoved
            + candidate.size);
      }
      remainingEntries := remainingEntries - 1;
      remainingBytes := remainingBytes - candidate.size;
      evicted := evicted + 1;
    }
    return Ok(report.(entriesAfter := remainingEntries, bytesAfter := remainingBytes)), evicted;
  }

  lemma {:induction false} WholeIsListed(es: seq<Listed>, e: Listed)
    ensures e in Whole(es) || e in Corrupt(es) ==> e in es
    ensures e in Corrupt(es) ==> !e.whole
    decreases |es|
  {
    if |es| > 0 {
      WholeIsListed(es[..|es| - 1], e);
    }
  }

  lemma CandidatesAreListed(listed: seq<Listed>)
    ensures forall e :: e in Candidates(listed) ==> e in listed
    ensures forall e :: e in Corrupt(listed) ==> e in listed && !e.whole
  {
    OlderIsLinear();
    SortKeepsElements(Whole(listed), Older);
    forall e
      ensures e in Whole(listed) || e in Corrupt(listed) ==> e in listed
      ensures e in Corrupt(listed) ==> !e.whole
    {
      WholeIsListed(listed, e);
    }
  }

  lemma {:induction false} CountConcat(xs: seq<Listed>, ys: seq<Listed>, remove: Key -> Removal, what: Removal)
    ensures Count(xs + ys, remove, what) == Count(xs, remove, what) + Count(ys, remove, what)
    decreases |ys|
  {
    if |ys| == 0 {
      assert xs + ys == xs;
    } else {
      CountConcat(xs, ys[..|ys| - 1], remove, what);
      assert (xs + ys)[..|xs + ys| - 1] == xs + ys[..|ys| - 1];
    }
  }

  /** Every entry is removed, gone, or left. */
  lemma Conservation(listed: seq<Listed>, n: nat, remove: Key -> Removal)
    requires n <= |Candidates(listed)|
    requires forall i :: 0 <= i < |listed| && !listed[i].whole ==> remove(listed[i].key) != Refused
    requires forall i :: 0 <= i < n ==> remove(Candidates(listed)[i].key) != Refused
    ensures var candidates, corrupt := Candidates(listed), Corrupt(listed);
      var gone := Count(corrupt + candidates[..n], remove, Gone);
      && |listed| == |Count(corrupt, remove, Removed)| + |Count(candidates[..n], remove, Removed)| + |gone|
        + (|candidates| - n)
      && Bytes(listed) == Bytes(Count(corrupt, remove, Removed)) + Bytes(Count(candidates[..n], remove, Removed))
        + Bytes(gone)
                          + (Bytes(candidates) - Bytes(candidates[..n]))
  {
    var candidates, corrupt := Candidates(listed), Corrupt(listed);
    CandidatesAccount(listed);
    CandidatesAreListed(listed);
    forall i | 0 <= i < |corrupt|
      ensures remove(corrupt[i].key) != Refused
    {
      assert corrupt[i] in corrupt;
    }
    CountAccounts(corrupt, remove);
    CountAccounts(candidates[..n], remove);
    CountConcat(corrupt, candidates[..n], remove, Gone);
    BytesConcat(Count(corrupt, remove, Gone), Count(candidates[..n], remove, Gone));
  }

  /** What is left behind a prefix, and what would be with one entry less evicted. */
  lemma Remaining(candidates: seq<Listed>, n: nat)
    requires n <= |candidates|
    ensures Bytes(candidates) - Bytes(candidates[..n]) == Bytes(candidates[n..])
    ensures n > 0 ==> Bytes(candidates) - Bytes(candidates[..n - 1]) == Bytes(candidates[n..]) + candidates[n - 1].size
  {
    assert candidates == candidates[..n] + candidates[n..];
    BytesConcat(candidates[..n], candidates[n..]);
    if n > 0 {
      assert candidates[..n][..n - 1] == candidates[..n - 1];
    }
  }

  lemma RemovedTogether(xs: seq<Listed>, ys: seq<Listed>, remove: Key -> Removal)
    ensures |Count(xs + ys, remove, Removed)| == |Count(xs, remove, Removed)| + |Count(ys, remove, Removed)|
    ensures Bytes(Count(xs + ys, remove, Removed)) ==
            Bytes(Count(xs, remove, Removed)) + Bytes(Count(ys, remove, Removed))
  {
    CountConcat(xs, ys, remove, Removed);
    BytesConcat(Count(xs, remove, Removed), Count(ys, remove, Removed));
  }

  /** Entries and bytes are conserved, up to the files that somebody else removed meanwhile. */
  ghost predicate Accounts(report: Report, listed: seq<Listed>, attempted: seq<Listed>, remove: Key -> Removal) {
    var removed, gone := Count(attempted, remove, Removed), Count(attempted, remove, Gone);
    && report.entriesBefore == |listed| && report.bytesBefore == Bytes(listed) <= MAX_INT64
    && report.entriesRemoved == |removed| && report.bytesRemoved == Bytes(removed)
    && report.entriesBefore == report.entriesRemoved + |gone| + report.entriesAfter
    && report.bytesBefore == report.bytesRemoved + Bytes(gone) + report.bytesAfter
  }

  /** The limits are met, and would not be with the last evicted entry kept. */
  ghost predicate JustWithin(options: Options, evicted: seq<Listed>, kept: seq<Listed>) {
    && (options.maxEntries > 0 ==> |kept| <= options.maxEntries)
    && (options.maxBytes > 0 ==> Bytes(kept) <= options.maxBytes)
    && (|evicted| > 0 ==>
         || (options.maxEntries > 0 && |kept| + 1 > options.maxEntries)
         || (options.maxBytes > 0 && Bytes(kept) + evicted[|evicted| - 1].size > options.maxBytes))
  }

  lemma ShortestIsJustWithin(options: Options, candidates: seq<Listed>, n: nat)
    requires ShortestEviction(options, candidates, n)
    ensures JustWithin(options, candidates[..n], candidates[n..])
  {
    hide Bytes;
    Remaining(candidates, n);
    if n > 0 {
      assert LimitExceeded(options, |candidates| - (n - 1), Bytes(candidates) - Bytes(candidates[..n - 1]));
    }
  }

  lemma PrunedAccounts(listed: seq<Listed>, n: nat, remove: Key -> Removal, report: Report)
    requires n <= |Candidates(listed)| && Bytes(listed) <= MAX_INT64
    requires forall i :: 0 <= i < |listed| && !listed[i].whole ==> remove(listed[i].key) != Refused
    requires forall i :: 0 <= i < n ==> remove(Candidates(listed)[i].key) != Refused
    requires var corrupt, evicted := Corrupt(listed), Candidates(listed)[..n];
      report == Report(|listed|, Bytes(listed),
        |Count(corrupt, remove, Removed)| + |Count(evicted, remove, Removed)|,
        Bytes(Count(corrupt, remove, Removed)) + Bytes(Count(evicted, remove, Removed)),
        |Count(corrupt, remove, Removed)|, |Candidates(listed)| - n, Bytes(Candidates(listed)) - Bytes(evicted))
    ensures Accounts(report, listed, Corrupt(listed) + Candidates(listed)[..n], remove)
    ensures report.entriesAfter == |Candidates(listed)[n..]| && report.bytesAfter == Bytes(Candidates(listed)[n..])
  {
    hide Bytes, Count, Corrupt, Candidates;
    Conservation(listed, n, remove);
    RemovedTogether(Corrupt(listed), Candidates(listed)[..n], remove);
    Remaining(Candidates(listed), n);
  }

  /** `Prune`.  Success removes the corrupt entries and the shortest prefix of the others, oldest first, that meets both
      limits: no entry goes that was modified after one that stays. */
  method Prune(options: Options, listed: seq<Listed>,
               remove: Key -> Removal) returns (r: Result<Report, Error>, ghost n: nat)
    ensures r.Ok? ==>
      && options.maxEntries >= 0 && options.maxBytes >= 0 && (options.maxEntries > 0 || options.maxBytes > 0)
      && ShortestEviction(options, Candidates(listed), n)
    ensures r.Ok? ==> var evicted, kept := Candidates(listed)[..n], Candidates(listed)[n..];
      && IsWhole(evicted + kept, listed) && OldestGo(evicted, kept) && JustWithin(options, evicted, kept)
      && Accounts(r.value, listed, Corrupt(listed) + evicted, remove)
      && r.value.corruptRemoved == |Count(Corrupt(listed), remove, Removed)|
      && r.value.entriesAfter == |kept| && r.value.bytesAfter == Bytes(kept)
    ensures r == Err(BadOptions) <==>
      options.maxEntries < 0 || options.maxBytes < 0 || (options.maxEntries == 0 && options.maxBytes == 0)
    ensures r.Err? && r.error != BadOptions ==> Explains(r.error, listed, remove)
    ensures r.Ok? ==> forall i :: 0 <= i < |listed| ==> listed[i].readable
  {
    hide Bytes, Count, Corrupt, Candidates, ShortestEviction, Accounts, OldestGo, JustWithin, IsWhole;
    n := 0;
    if options.maxEntries < 0 || options.maxBytes < 0 || (options.maxEntries == 0 && options.maxBytes == 0) {
      return Err(BadOptions), 0;
    }
    var scanned := Scan(listed, remove);
    if scanned.Err? {
      return Err(scanned.error), 0;
    }
    var candidates := Sort(scanned.value.0, Older);
    SortedAreCandidates(listed);
    CandidatesAccount(listed);
    CandidatesAreListed(listed);
    r, n := Evict(options, candidates, scanned.value.1, remove);
    if r.Ok? {
      EvictedPrefix(options, candidates, n);
      PrunedAccounts(listed, n, remove, r.value);
      OldestGoFirst(listed, n);
      CandidatesAreWhole(listed);
      ShortestIsJustWithin(options, candidates, n);
    } else {
      var i :| 0 <= i < |candidates| && remove(candidates[i].key) == Refused;
      assert candidates[i] in candidates;
    }
  }

  lemma SortedAreCandidates(listed: seq<Listed>)
    ensures Sort(Whole(listed), Older) == Candidates(listed)
  {
  }

  lemma EvictedPrefix(options: Options, candidates: seq<Listed>, n: nat)
    requires ShortestEviction(options, candidates, n)
    ensures n <= |candidates| && candidates[..n] + candidates[n..] == candidates
  {
  }
}
