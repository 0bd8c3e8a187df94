/** Loaders and invalidators interleaving on one package session (PackageSession.load). */
module SessionProtocol {
  import opened Bounding
  import opened PackageSession
  import opened Sets
  import opened Wrappers

  /** Where a loader stands between two lock sections.  `generation` is the value of its local variable. */
  datatype Loader =
    | Idle
    | Reloading(key: Key, entry: Entry, generation: nat)
    | Retaining(key: Key, generation: nat, retained: Entry, retain: bool)
    | Loading(key: Key, generation: nat, began: nat)

  datatype System = System(session: Session, loaders: map<nat, Loader>)
  {
    function At(l: nat): Loader {
      if l in loaders then loaders[l] else Idle
    }
  }

  datatype Action =
    | Begin(l: nat, key: Key)
    | ReloadFails(l: nat)
    | NotReusable(l: nat)
    | Reusable(l: nat, retained: Entry, retain: bool)
    | CommitIncremental(l: nat)
    | FullFails(l: nat)
    | FullDone(l: nat, retained: Entry, retain: bool)
    | Invalidate

  /** One lock section, with the unlocked work before it.  The work of a reload rests on an entry and on inputs read
      since its snapshot; the work of a full load rests on inputs read since the load began. */
  ghost predicate Step(a: System, action: Action, b: System) {
    match action
    case Invalidate =>
      b == a.(session := Invalidated(a.session))
    case Begin(l, key) =>
      && a.At(l).Idle? && b.session == a.session
      && b.loaders == a.loaders[l :=
        if key in a.session.entries then Reloading(key, a.session.entries[key], a.session.generation)
                                     else Loading(key, a.session.generation, a.session.generation)]
    case ReloadFails(l) =>
      a.At(l).Reloading? && b == a.(loaders := a.loaders[l := Idle])
    case NotReusable(l) =>
      var at := a.At(l);
      at.Reloading? && b == a.(loaders := a.loaders[l := Loading(at.key, at.generation, a.session.generation)])
    case Reusable(l, retained, retain) =>
      var at := a.At(l);
      && at.Reloading? && retained.began == at.entry.began
      && b == a.(loaders := a.loaders[l :=
           if a.session.generation != at.generation then Loading(at.key, a.session.generation, a.session.generation)
           else Retaining(at.key, at.generation, retained, retain)])
    case CommitIncremental(l) =>
      var at := a.At(l);
      && at.Retaining?
      && b == if a.session.generation == at.generation
              then System(Stored(a.session, at.key, at.retained, at.retain), a.loaders[l := Idle])
              else a.(loaders := a.loaders[l := Loading(at.key, a.session.generation, a.session.generation)])
    case FullFails(l) =>
      var at := a.At(l);
      && at.Loading?
      && b == System(if a.session.generation == at.generation then Stored(a.session, at.key, Entry(0, 0, 0), false)
        else a.session,
                     a.loaders[l := Idle])
    case FullDone(l, retained, retain) =>
      var at := a.At(l);
      && at.Loading? && retained.began == at.began
      && b == System(if a.session.generation == at.generation then Stored(a.session, at.key, retained, retain)
        else a.session,
                     a.loaders[l := Idle])
  }

  // ---------- The invariant ----------

  ghost predicate Current(s: Session) {
    && (forall k :: k in s.entries ==> s.entries[k].began == s.generation)
    && (forall k :: k in s.entries ==> s.entries[k].used <= s.clock)
    && WithinBounds(s.entries)
  }

  ghost predicate LoaderOk(at: Loader, s: Session) {
    match at
    case Idle => true
    case Reloading(_, entry, generation) => entry.began == generation <= s.generation
    case Retaining(_, generation, retained, _) => retained.began == generation <= s.generation
    case Loading(_, generation, began) => generation <= began <= s.generation
  }

  /** Every retained entry comes from work begun in the current generation, and the table is within its bounds. */
  ghost predicate Inv(sys: System) {
    Current(sys.session) && forall l :: l in sys.loaders ==> LoaderOk(sys.loaders[l], sys.session)
  }

  lemma EmptyIsBounded()
    ensures WithinBounds(map[])
  {
    assert Lists([], map[]);
  }

  lemma StoredIsCurrent(s: Session, key: Key, entry: Entry, retain: bool)
    requires Current(s) && (retain ==> entry.began == s.generation)
    ensures Current(Stored(s, key, entry, retain))
  {
    hide WithinBounds, Bounded;
    if retain {
      BoundedHolds(s.entries[key := entry.(used := s.clock + 1)]);
    } else {
      RemovalIsBounded(s.entries, key);
    }
  }

  lemma RemovalIsBounded(entries: map<Key, Entry>, key: Key)
    requires WithinBounds(entries)
    ensures WithinBounds(entries - {key})
  {
    var cs: seq<Candidate> :| Lists(cs, entries) && Bytes(cs) <= MAX_BYTES;
    var ds := ListsWithout(cs, entries, key);
    assert (entries - {key}).Keys <= entries.Keys;
    SubsetIsSmaller((entries - {key}).Keys, entries.Keys);
    assert |entries - {key}| == |(entries - {key}).Keys| && |entries| == |entries.Keys|;
  }

  lemma ListsWithout(cs: seq<Candidate>, entries: map<Key, Entry>, key: Key) returns (ds: seq<Candidate>)
    requires Lists(cs, entries)
    ensures Lists(ds, entries - {key}) && Bytes(ds) <= Bytes(cs)
  {
    hide Lists, Bytes;
    if key !in entries {
      assert entries - {key} == entries;
      return cs;
    }
    var i := PositionOf(cs, entries, key);
    ds := cs[..i] + cs[i + 1..];
    BytesOfRest(cs, i);
    forall j | 0 <= j < |ds|
      ensures ds[j] == cs[Skip(j, i)]
    {
    }
    ListsSkipping(cs, ds, entries, i);
  }

  lemma PositionOf(cs: seq<Candidate>, entries: map<Key, Entry>, key: Key) returns (i: nat)
    requires Lists(cs, entries) && key in entries
    ensures i < |cs| && cs[i].key == key
  {
    i :| i < |cs| && cs[i].key == key;
  }

  function Skip(j: nat, i: nat): nat {
    if j < i then j else j + 1
  }

  lemma ListsSkipping(cs: seq<Candidate>, ds: seq<Candidate>, entries: map<Key, Entry>, i: nat)
    requires Lists(cs, entries) && i < |cs| && |ds| == |cs| - 1
    requires forall j: nat :: j < |ds| ==> ds[j] == cs[Skip(j, i)]
    ensures Lists(ds, entries - {cs[i].key})
  {
    forall k | k in entries - {cs[i].key}
      ensures exists j :: 0 <= j < |ds| && ds[j].key == k
    {
      var j :| 0 <= j < |cs| && cs[j].key == k;
      assert ds[if j < i then j else j - 1] == cs[j];
    }
  }

  lemma {:induction false} BytesOfRest(cs: seq<Candidate>, i: nat)
    requires i < |cs|
    ensures Bytes(cs[..i] + cs[i + 1..]) <= Bytes(cs)
    decreases |cs|
  {
    var init := cs[..|cs| - 1];
    if i == |init| {
      assert cs[..i] + cs[i + 1..] == init;
    } else {
      BytesOfRest(init, i);
      assert (cs[..i] + cs[i + 1..])[..|cs| - 2] == init[..i] + init[i + 1..];
    }
  }

  lemma SessionStaysCurrent(a: System, action: Action, b: System)
    requires Inv(a) && Step(a, action, b)
    ensures Current(b.session) && a.session.generation <= b.session.generation
    ensures action.Invalidate? ==> a.session.generation < b.session.generation
  {
    hide Bounded, WithinBounds;
    match action {
      case Invalidate =>
        EmptyIsBounded();
      case CommitIncremental(l) =>
        var at := a.At(l);
        if a.session.generation == at.generation {
          StoredIsCurrent(a.session, at.key, at.retained, at.retain);
        }
      case FullFails(l) =>
        StoredIsCurrent(a.session, a.At(l).key, Entry(0, 0, 0), false);
      case FullDone(l, retained, retain) =>
        if a.session.generation == a.At(l).generation {
          StoredIsCurrent(a.session, a.At(l).key, retained, retain);
        }
      case _ =>
    }
  }

  lemma LoadersStayOk(a: System, action: Action, b: System)
    requires Inv(a) && Step(a, action, b) && a.session.generation <= b.session.generation
    ensures forall l :: l in b.loaders ==> LoaderOk(b.loaders[l], b.session)
  {
    hide Bounded, WithinBounds, Stored;
    forall l | l in b.loaders
      ensures LoaderOk(b.loaders[l], b.session)
    {
      assert l in a.loaders ==> LoaderOk(a.loaders[l], b.session);
    }
  }

  lemma StepKeepsInv(a: System, action: Action, b: System)
    requires Inv(a) && Step(a, action, b)
    ensures Inv(b) && a.session.generation <= b.session.generation
    ensures action.Invalidate? ==> a.session.generation < b.session.generation
  {
    SessionStaysCurrent(a, action, b);
    LoadersStayOk(a, action, b);
  }

  // ---------- Whole runs ----------

  ghost predicate IsRun(states: seq<System>, actions: seq<Action>) {
    && |states| == |actions| + 1
    && states[0] == System(Session(map[], 0, 0), map[])
    && forall i :: 0 <= i < |actions| ==> Step(states[i], actions[i], states[i + 1])
  }

  /** In every reachable state every entry is current and the bounds hold. */
  lemma {:induction false} RunKeepsInv(states: seq<System>, actions: seq<Action>, n: nat)
    requires IsRun(states, actions) && n < |states|
    ensures Inv(states[n])
    decreases n
  {
    if n == 0 {
      EmptyIsBounded();
    } else {
      RunKeepsInv(states, actions, n - 1);
      StepKeepsInv(states[n - 1], actions[n - 1], states[n]);
    }
  }

  lemma {:induction false} GenerationsGrow(states: seq<System>, actions: seq<Action>, i: nat, j: nat)
    requires IsRun(states, actions) && i <= j < |states|
    ensures states[i].session.generation <= states[j].session.generation
    ensures states[i].session.generation == states[j].session.generation ==>
      forall k :: i <= k < j ==> !actions[k].Invalidate?
    decreases j
  {
    if i < j {
      GenerationsGrow(states, actions, i, j - 1);
      RunKeepsInv(states, actions, j - 1);
      StepKeepsInv(states[j - 1], actions[j - 1], states[j]);
    }
  }

  /** A loader that is reloading or about to commit took its snapshot in the generation it remembers. */
  lemma {:induction false} SnapshotOf(states: seq<System>, actions: seq<Action>, n: nat, l: nat) returns (i: nat)
    requires IsRun(states, actions) && n < |states|
    requires states[n].At(l).Reloading? || states[n].At(l).Retaining?
    ensures i < n && actions[i] == Begin(l, states[n].At(l).key)
    ensures states[i].session.generation == states[n].At(l).generation
    decreases n
  {
    var a, action := states[n - 1], actions[n - 1];
    assert Step(a, action, states[n]);
    if action.Begin? && action.l == l {
      i := n - 1;
    } else {
      i := SnapshotOf(states, actions, n - 1, l);
    }
  }

  /** An incremental result is published and returned only if nothing was invalidated since its loader's snapshot. */
  lemma IncrementalSawNoInvalidation(states: seq<System>, actions: seq<Action>, n: nat, l: nat) returns (i: nat)
    requires IsRun(states, actions) && n < |actions| && actions[n] == CommitIncremental(l)
    requires states[n + 1].At(l).Idle?
    ensures i < n && actions[i] == Begin(l, states[n].At(l).key)
    ensures forall k :: i <= k <= n ==> !actions[k].Invalidate?
  {
    assert Step(states[n], actions[n], states[n + 1]);
    i := SnapshotOf(states, actions, n, l);
    GenerationsGrow(states, actions, i, n);
  }

  lemma {:induction false} GenerationStays(states: seq<System>, actions: seq<Action>, i: nat, j: nat)
    requires IsRun(states, actions) && i <= j < |states| && forall k :: i <= k < j ==> !actions[k].Invalidate?
    ensures states[i].session.generation == states[j].session.generation
    decreases j
  {
    hide Bounded;
    if i < j {
      GenerationStays(states, actions, i, j - 1);
      assert Step(states[j - 1], actions[j - 1], states[j]);
    }
  }

  /** The lock sections of loader `l` that read the generation into its local variable. */
  predicate Reads(action: Action, l: nat) {
    match action
    case Begin(i, _) => i == l
    case Reusable(i, _, _) => i == l
    case CommitIncremental(i) => i == l
    case _ => false
  }

  /** When the loader last read the generation. */
  lemma {:induction false} LastRead(states: seq<System>, actions: seq<Action>, n: nat, l: nat) returns (i: nat)
    requires IsRun(states, actions) && n < |states| && !states[n].At(l).Idle?
    ensures i < n && Reads(actions[i], l) && forall k :: i < k < n ==> !Reads(actions[k], l)
    ensures states[i].session.generation == states[n].At(l).generation
    decreases n
  {
    hide Bounded, Stored;
    assert Step(states[n - 1], actions[n - 1], states[n]);
    if Reads(actions[n - 1], l) {
      i := n - 1;
    } else {
      i := LastRead(states, actions, n - 1, l);
    }
  }

  /** The section that ends a load, or an attempt at an incremental one. */
  predicate Publishes(action: Action, l: nat) {
    match action
    case CommitIncremental(i) => i == l
    case FullFails(i) => i == l
    case FullDone(i, _, _) => i == l
    case _ => false
  }

  /** What a load leaves, unless something was invalidated since it last read the generation. */
  ghost function Published(s: Session, at: Loader, action: Action): Session
    requires !at.Idle? && (action.CommitIncremental? ==> at.Retaining?)
  {
    match action
    case CommitIncremental(_) => Stored(s, at.key, at.retained, at.retain)
    case FullDone(_, retained, retain) => Stored(s, at.key, retained, retain)
    case _ => s.(entries := s.entries - {at.key})
  }

  /** A load publishes, or drops the entry if it failed, exactly if nothing was invalidated since it last read the
      generation; otherwise it leaves the session alone, and an incremental one starts over. */
  lemma PublishedExactly(states: seq<System>, actions: seq<Action>, n: nat, l: nat) returns (i: nat)
    requires IsRun(states, actions) && n < |actions| && Publishes(actions[n], l)
    ensures i < n && Reads(actions[i], l) && forall k :: i < k < n ==> !Reads(actions[k], l)
    ensures !states[n].At(l).Idle? && (actions[n].CommitIncremental? <==> states[n].At(l).Retaining?)
    ensures var undisturbed := forall k :: i <= k < n ==> !actions[k].Invalidate?;
      && states[n + 1].session == (if undisturbed then Published(states[n].session, states[n].At(l), actions[n])
                                   else states[n].session)
      && (states[n + 1].At(l).Idle? <==> undisturbed || !actions[n].CommitIncremental?)
  {
    hide Bounded;
    assert Step(states[n], actions[n], states[n + 1]);
    i := LastRead(states, actions, n, l);
    GenerationsGrow(states, actions, i, n);
    if forall k :: i <= k < n ==> !actions[k].Invalidate? {
      GenerationStays(states, actions, i, n);
    }
  }

  /** Between its first section and its last, a load in which nothing is invalidated stays with what it found: the
      retained entry, to be reloaded, or none, to be loaded in full. */
  lemma {:induction false} UndisturbedLoad(states: seq<System>, actions: seq<Action>, m: nat, n: nat, l: nat)
    requires IsRun(states, actions) && m < n < |states| && actions[m].Begin? && actions[m].l == l
    requires forall k :: m <= k < n ==> !actions[k].Invalidate?
    requires forall k :: m < k <= n ==> !states[k].At(l).Idle?
    ensures var at, key, found := states[n].At(l), actions[m].key, states[m].session.entries;
      && !at.Idle? && at.key == key && at.generation == states[m].session.generation == states[n].session.generation
      && (at.Reloading? ==> key in found && at.entry == found[key]) && (key !in found ==> at.Loading?)
    ensures n == m + 1 && actions[m].key in states[m].session.entries ==> states[n].At(l).Reloading?
    decreases n
  {
    hide Bounded, Stored;
    GenerationStays(states, actions, m, n);
    assert Step(states[n - 1], actions[n - 1], states[n]);
    if m + 1 < n {
      UndisturbedLoad(states, actions, m, n - 1, l);
    }
  }

  /** An entry just stored survives its own eviction round whenever it fits at all. */
  lemma JustStoredSurvives(s: Session, key: Key, entry: Entry)
    requires Current(s) && entry.bytes <= MAX_BYTES
    ensures key in Stored(s, key, entry, true).entries
    ensures Stored(s, key, entry, true).entries[key] == entry.(used := s.clock + 1)
  {
    NewestSurvives(s.entries[key := entry.(used := s.clock + 1)], key);
  }
}
