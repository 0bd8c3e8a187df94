/** Publication of cache entries by several processes that may stop anywhere (Put, Get and Prune in internal/cache). */
module CacheProtocol {
  import opened CacheStore
  import opened Encoding
  import opened Ordering
  import opened Wrappers

  /** A temporary file; `random` is the random part of its name. */
  datatype Temporary = Temporary(key: Key, random: nat)

  datatype Outcome = Stored | Conflict | Failed

  /** Where a handle stands inside `Put`, which holds the handle's lock throughout. */
  datatype Phase =
    | Idle
    | Loading(key: Key, payload: Payload)
    | Removing(key: Key, payload: Payload)
    | Creating(key: Key, payload: Payload)
    | Writing(key: Key, payload: Payload, temporary: Temporary)
    | Linking(key: Key, payload: Payload, temporary: Temporary)
    | Reloading(key: Key, payload: Payload, temporary: Temporary)
    | Cleaning(temporary: Temporary, outcome: Outcome)
    | Returning(outcome: Outcome)

  /** The shared directory, the temporaries' names ever drawn, each handle's phase, and the puts ever issued. */
  datatype System = System(
    entries: map<Key, seq<Byte>>, temporaries: map<Temporary, seq<Byte>>, drawn: set<Temporary>,
    phases: map<nat, Phase>, issued: set<(Key, Payload)>)
  {
    function At(h: nat): Phase {
      if h in phases then phases[h] else Idle
    }

    /** What `Get` and `load` find. */
    function Value(key: Key, sha256: Hash): Option<Payload> {
      if key in entries then Decode(key, entries[key], sha256) else None
    }

    function Move(h: nat, phase: Phase): System {
      this.(phases := phases[h := phase])
    }
  }

  datatype Action =
    | Issue(h: nat, key: Key, payload: Payload)
    | Load(h: nat)
    | Remove(h: nat)
    | Create(h: nat, temporary: Temporary)
    | Write(h: nat, count: nat)
    | Sync(h: nat)
    | Link(h: nat)
    | Reload(h: nat)
    | Clean(h: nat)
    | Return(h: nat)
    | Abort(h: nat)
    | Crash(h: nat)
    | PruneEntry(key: Key)
    | PruneTemporary(temporary: Temporary)
    | Damage(key: Key, bytes: seq<Byte>)

  /** One file-system effect.  Prune may remove any entry and any temporary; damage never produces a whole entry; random
      names are never drawn twice. */
  ghost predicate Step(a: System, action: Action, b: System, sha256: Hash) {
    match action
    case Issue(h, key, payload) =>
      a.At(h).Idle? && |payload| <= MAX_ENTRY_SIZE
        && b == a.Move(h, Loading(key, payload)).(issued := a.issued + {(key, payload)})
    case Load(h) =>
      var at := a.At(h);
      at.Loading? &&
      b == (if at.key !in a.entries then a.Move(h, Creating(at.key, at.payload))
            else match a.Value(at.key, sha256)
                 case None => a.Move(h, Removing(at.key, at.payload))
                 case Some(existing) => a.Move(h, Returning(if existing == at.payload then Stored else Conflict)))
    case Remove(h) =>
      var at := a.At(h);
      at.Removing? && b == a.Move(h, Creating(at.key, at.payload)).(entries := a.entries - {at.key})
    case Create(h, temporary) =>
      var at := a.At(h);
      && at.Creating? && temporary.key == at.key && temporary !in a.drawn
      && b == a.Move(h, Writing(at.key, at.payload, temporary)).(temporaries := a.temporaries[temporary := []],
        drawn := a.drawn + {temporary})
    case Write(h, count) =>
      var at := a.At(h);
      && at.Writing? && count <= |EntryBytes(at.key, at.payload, sha256)|
      && b == a.(temporaries :=
        if at.temporary in a.temporaries
        then a.temporaries[at.temporary := EntryBytes(at.key, at.payload, sha256)[..count]] else a.temporaries)
    case Sync(h) =>
      var at := a.At(h);
      && at.Writing?
        && (at.temporary in a.temporaries ==> a.temporaries[at.temporary] == EntryBytes(at.key, at.payload, sha256))
      && b == a.Move(h, Linking(at.key, at.payload, at.temporary))
    case Link(h) =>
      var at := a.At(h);
      at.Linking? &&
      b == (if at.temporary in a.temporaries && at.key !in a.entries
            then a.Move(h, Cleaning(at.temporary, Stored)).(entries := a.entries[at.key := a.temporaries[at.temporary]])
            else a.Move(h, Reloading(at.key, at.payload, at.temporary)))
    case Reload(h) =>
      var at := a.At(h);
      at.Reloading? &&
      b == a.Move(h, Cleaning(at.temporary, match a.Value(at.key, sha256)
                                            case None => Failed
                                            case Some(current) => if current == at.payload then Stored else Conflict))
    case Clean(h) =>
      var at := a.At(h);
      at.Cleaning? && b == a.Move(h, Returning(at.outcome)).(temporaries := a.temporaries - {at.temporary})
    case Return(h) =>
      a.At(h).Returning? && b == a.Move(h, Idle)
    case Abort(h) =>
      var at := a.At(h);
      if at.Loading? || at.Removing? || at.Creating? then b == a.Move(h, Returning(Failed))
      else (at.Writing? || at.Linking?) && b == a.Move(h, Cleaning(at.temporary, Failed))
    case Crash(h) =>
      b == a.Move(h, Idle)
    case PruneEntry(key) =>
      b == a.(entries := a.entries - {key})
    case PruneTemporary(temporary) =>
      b == a.(temporaries := a.temporaries - {temporary})
    case Damage(key, bytes) =>
      key in a.entries && Decode(key, bytes, sha256).None? && b == a.(entries := a.entries[key := bytes])
  }

  // ---------- The invariant ----------

  ghost predicate PhaseOk(sys: System, at: Phase, sha256: Hash) {
    match at
    case Loading(key, payload) => (key, payload) in sys.issued && |payload| <= MAX_ENTRY_SIZE
    case Removing(key, payload) => (key, payload) in sys.issued && |payload| <= MAX_ENTRY_SIZE
    case Creating(key, payload) => (key, payload) in sys.issued && |payload| <= MAX_ENTRY_SIZE
    case Writing(key, payload, temporary) =>
      (key, payload) in sys.issued && |payload| <= MAX_ENTRY_SIZE && temporary.key == key && temporary in sys.drawn
    case Linking(key, payload, temporary) =>
      && (key, payload) in sys.issued && |payload| <= MAX_ENTRY_SIZE && temporary.key == key && temporary in sys.drawn
      && (temporary in sys.temporaries ==> sys.temporaries[temporary] == EntryBytes(key, payload, sha256))
    case Reloading(key, payload, temporary) => (key, payload) in sys.issued && temporary in sys.drawn
    case Cleaning(temporary, _) => temporary in sys.drawn
    case _ => true
  }

  /** The temporary a handle is still writing or about to publish. */
  function Owned(at: Phase): set<Temporary> {
    if at.Writing? || at.Linking? then {at.temporary} else {}
  }

  ghost predicate Apart(phases: map<nat, Phase>) {
    forall h, i :: h in phases && i in phases && h != i ==> Owned(phases[h]) !! Owned(phases[i])
  }

  /** Whatever a reader would accept was put by somebody. */
  ghost predicate Genuine(sys: System, sha256: Hash) {
    forall key :: sys.Value(key, sha256).Some? ==> (key, sys.Value(key, sha256).value) in sys.issued
  }

  ghost predicate PhasesOk(sys: System, sha256: Hash) {
    forall h :: h in sys.phases ==> PhaseOk(sys, sys.phases[h], sha256)
  }

  ghost predicate Inv(sys: System, sha256: Hash) {
    sys.temporaries.Keys <= sys.drawn && PhasesOk(sys, sha256) && Apart(sys.phases) && Genuine(sys, sha256)
  }

  predicate Moves(action: Action, h: nat) {
    match action
    case Issue(i, _, _) => i == h
    case Load(i) => i == h
    case Remove(i) => i == h
    case Create(i, _) => i == h
    case Write(i, _) => i == h
    case Sync(i) => i == h
    case Link(i) => i == h
    case Reload(i) => i == h
    case Clean(i) => i == h
    case Return(i) => i == h
    case Abort(i) => i == h
    case Crash(i) => i == h
    case _ => false
  }

  /** A step leaves the phase and the temporary of every other handle alone; prune may only remove the latter. */
  ghost predicate Untouched(a: System, b: System, h: nat) {
    && h in a.phases && h in b.phases && b.phases[h] == a.phases[h]
    && forall t :: t in Owned(a.phases[h]) && t in b.temporaries ==>
      t in a.temporaries && b.temporaries[t] == a.temporaries[t]
  }

  lemma OthersUntouched(a: System, action: Action, b: System, sha256: Hash, h: nat)
    requires PhasesOk(a, sha256) && Apart(a.phases) && Step(a, action, b, sha256)
    requires !Moves(action, h) && h in b.phases
    ensures h in a.phases && h in b.phases && Untouched(a, b, h)
  {
    hide Decode, EntryBytes;
    assert PhaseOk(a, a.phases[h], sha256);
    if action.Write? {
      assert Owned(a.phases[h]) !! Owned(a.phases[action.h]);
    }
  }

  lemma UntouchedStaysOk(a: System, b: System, h: nat, sha256: Hash)
    requires h in a.phases && h in b.phases && Untouched(a, b, h) && PhaseOk(a, a.phases[h], sha256)
    requires a.issued <= b.issued && a.drawn <= b.drawn
    ensures PhaseOk(b, b.phases[h], sha256)
  {
    hide EntryBytes;
  }

  lemma MoverIsOk(a: System, action: Action, b: System, sha256: Hash, h: nat)
    requires h in a.phases ==> PhaseOk(a, a.phases[h], sha256)
    requires Step(a, action, b, sha256) && Moves(action, h)
    ensures h in b.phases ==> PhaseOk(b, b.phases[h], sha256)
    ensures h in b.phases ==> Owned(b.phases[h]) <= Owned(a.At(h)) + (if action.Create? then {action.temporary} else {})
  {
    hide Decode, EntryBytes;
  }

  lemma StepGrows(a: System, action: Action, b: System, sha256: Hash)
    requires a.temporaries.Keys <= a.drawn && PhasesOk(a, sha256) && Step(a, action, b, sha256)
    ensures a.issued <= b.issued && a.drawn <= b.drawn && b.temporaries.Keys <= b.drawn
  {
    hide Decode, EntryBytes;
  }

  lemma StepKeepsPhases(a: System, action: Action, b: System, sha256: Hash)
    requires Inv(a, sha256) && Step(a, action, b, sha256)
    ensures b.temporaries.Keys <= b.drawn && PhasesOk(b, sha256)
  {
    hide Step, Genuine, PhaseOk, Untouched, Apart;
    StepGrows(a, action, b, sha256);
    forall h | h in b.phases
      ensures PhaseOk(b, b.phases[h], sha256)
    {
      if Moves(action, h) {
        MoverIsOk(a, action, b, sha256, h);
      } else {
        OthersUntouched(a, action, b, sha256, h);
        UntouchedStaysOk(a, b, h, sha256);
      }
    }
  }

  lemma OwnedIsDrawn(sys: System, h: nat, sha256: Hash)
    requires PhasesOk(sys, sha256)
    ensures Owned(sys.At(h)) <= sys.drawn
  {
    hide EntryBytes;
  }

  lemma FreshTemporary(a: System, action: Action, b: System, sha256: Hash)
    requires Step(a, action, b, sha256) && action.Create?
    ensures action.temporary !in a.drawn
  {
    hide Decode, EntryBytes;
  }

  lemma StepKeepsApart(a: System, action: Action, b: System, sha256: Hash)
    requires Inv(a, sha256) && Step(a, action, b, sha256)
    ensures Apart(b.phases)
  {
    forall h, i | h in b.phases && i in b.phases && h != i
      ensures Owned(b.phases[h]) !! Owned(b.phases[i])
    {
      PairStaysApart(a, action, b, sha256, h, i);
    }
  }

  lemma PairStaysApart(a: System, action: Action, b: System, sha256: Hash, h: nat, i: nat)
    requires Inv(a, sha256) && Step(a, action, b, sha256)
    requires h in b.phases && i in b.phases && h != i
    ensures Owned(b.phases[h]) !! Owned(b.phases[i])
  {
    assert h in a.phases && i in a.phases ==> Owned(a.phases[h]) !! Owned(a.phases[i]);
    hide Step, Genuine, PhaseOk, Apart, Owned;
    if action.Create? {
      FreshTemporary(a, action, b, sha256);
    }
    OwnedIsDrawn(a, h, sha256);
    OwnedIsDrawn(a, i, sha256);
    if Moves(action, h) {
      MoverIsOk(a, action, b, sha256, h);
      OthersUntouched(a, action, b, sha256, i);
    } else if Moves(action, i) {
      MoverIsOk(a, action, b, sha256, i);
      OthersUntouched(a, action, b, sha256, h);
    } else {
      OthersUntouched(a, action, b, sha256, h);
      OthersUntouched(a, action, b, sha256, i);
    }
    IdleOwnsNothing(a, h);
    IdleOwnsNothing(a, i);
  }

  lemma IdleOwnsNothing(sys: System, h: nat)
    ensures h !in sys.phases ==> Owned(sys.At(h)) == {}
  {
  }

  lemma StepKeepsGenuine(a: System, action: Action, b: System, sha256: Hash)
    requires Inv(a, sha256) && Step(a, action, b, sha256)
    ensures Genuine(b, sha256)
  {
    if action.Link? && a.At(action.h).temporary in a.temporaries {
      var at := a.At(action.h);
      DecodeInvertsEncode(at.key, a.temporaries[at.temporary], at.payload, sha256);
    }
    hide Decode, EntryBytes;
    forall key | b.Value(key, sha256).Some?
      ensures (key, b.Value(key, sha256).value) in b.issued
    {
      assert a.Value(key, sha256).Some? ==> (key, a.Value(key, sha256).value) in a.issued;
    }
  }

  lemma StepKeepsInv(a: System, action: Action, b: System, sha256: Hash)
    requires Inv(a, sha256) && Step(a, action, b, sha256)
    ensures Inv(b, sha256)
  {
    hide Step, PhasesOk, Apart, Genuine;
    StepKeepsPhases(a, action, b, sha256);
    StepKeepsApart(a, action, b, sha256);
    StepKeepsGenuine(a, action, b, sha256);
  }

  // ---------- Whole runs ----------

  const START := System(map[], map[], {}, map[], {})

  ghost predicate IsRun(states: seq<System>, actions: seq<Action>, sha256: Hash) {
    && |states| == |actions| + 1 && states[0] == START
    && forall i :: 0 <= i < |actions| ==> Step(states[i], actions[i], states[i + 1], sha256)
  }

  lemma {:induction false} RunKeepsInv(states: seq<System>, actions: seq<Action>, sha256: Hash, n: nat)
    requires IsRun(states, actions, sha256) && n < |states|
    ensures Inv(states[n], sha256)
    decreases n
  {
    hide Step;
    if n > 0 {
      RunKeepsInv(states, actions, sha256, n - 1);
      StepKeepsInv(states[n - 1], actions[n - 1], states[n], sha256);
    }
  }

  lemma {:induction false} IssuedByAction(states: seq<System>, actions: seq<Action>, sha256: Hash, n: nat, key: Key,
                                          payload: Payload) returns (i: nat)
    requires IsRun(states, actions, sha256) && n < |states| && (key, payload) in states[n].issued
    ensures i < n && actions[i].Issue? && actions[i].key == key && actions[i].payload == payload
    decreases n
  {
    hide Decode, EntryBytes;
    assert Step(states[n - 1], actions[n - 1], states[n], sha256);
    if (key, payload) in states[n - 1].issued {
      i := IssuedByAction(states, actions, sha256, n - 1, key, payload);
    } else {
      i := n - 1;
    }
  }

  /** However the puts, crashes, prunes and damage interleave, `Get` yields only what some earlier `Put` was given. */
  lemma GetYieldsOnlyWhatWasPut(states: seq<System>, actions: seq<Action>, sha256: Hash, n: nat,
                                key: Key) returns (i: nat)
    requires IsRun(states, actions, sha256) && n < |states| && states[n].Value(key, sha256).Some?
    ensures i < n && actions[i].Issue? && actions[i].key == key
    ensures Some(actions[i].payload) == states[n].Value(key, sha256)
  {
    RunKeepsInv(states, actions, sha256, n);
    i := IssuedByAction(states, actions, sha256, n, key, states[n].Value(key, sha256).value);
  }

  /** A valid value is never replaced: it stays, its entry is removed, or the file is damaged. */
  lemma ValuesAreNotReplaced(a: System, action: Action, b: System, sha256: Hash, key: Key)
    requires Step(a, action, b, sha256) && a.Value(key, sha256).Some?
    ensures b.Value(key, sha256) == a.Value(key, sha256) || key !in b.entries || (action.Damage? && action.key == key)
    ensures key !in b.entries ==>
      (action.PruneEntry? && action.key == key)
      || (action.Remove? && a.At(action.h).Removing? && a.At(action.h).key == key)
  {
    hide Decode, EntryBytes;
  }

  /** What `Put` reports is so at the moment it finds out. */
  lemma ReportsAreTrue(a: System, action: Action, b: System, sha256: Hash)
    requires Inv(a, sha256) && Step(a, action, b, sha256)
    ensures action.Load? && b.At(action.h) == Returning(Stored) ==>
      b.Value(a.At(action.h).key, sha256) == Some(a.At(action.h).payload)
    ensures action.Link? && b.At(action.h).Cleaning? ==>
      b.Value(a.At(action.h).key, sha256) == Some(a.At(action.h).payload)
    ensures action.Reload? && b.At(action.h).outcome == Stored ==>
      b.Value(a.At(action.h).key, sha256) == Some(a.At(action.h).payload)
    ensures (action.Load? && b.At(action.h) == Returning(Conflict)) ||
            (action.Reload? && b.At(action.h).outcome == Conflict) ==>
      b.Value(a.At(action.h).key, sha256).Some? && b.Value(a.At(action.h).key, sha256).value != a.At(action.h).payload
    ensures action.Reload? ==> (b.At(action.h).outcome == Failed <==> b.Value(a.At(action.h).key, sha256).None?)
  {
    if action.Link? && a.At(action.h).temporary in a.temporaries {
      var at := a.At(action.h);
      DecodeInvertsEncode(at.key, a.temporaries[at.temporary], at.payload, sha256);
    }
    hide Decode, EntryBytes;
  }

  // ---------- What a put comes to ----------

  /** Where a put that began in state `a` stands while nobody else acts, and what has become of the entries. */
  ghost predicate OnCourse(a: System, b: System, h: nat, key: Key, payload: Payload, sha256: Hash) {
    match b.At(h)
    case Loading(k, p) => k == key && p == payload && b.entries == a.entries
    case Removing(k, p) => k == key && p == payload && b.entries == a.entries && a.Value(key, sha256).None?
    case Creating(k, p) => k == key && p == payload && b.entries == a.entries - {key} && a.Value(key, sha256).None?
    case Writing(k, p, temporary) =>
      && k == key && p == payload && b.entries == a.entries - {key} && a.Value(key, sha256).None?
      && temporary in b.temporaries
    case Linking(k, p, temporary) =>
      && k == key && p == payload && b.entries == a.entries - {key} && a.Value(key, sha256).None?
      && Contains(b, temporary, EntryBytes(key, payload, sha256))
    case Cleaning(_, outcome) => HasCome(a, b, key, payload, outcome, sha256)
    case Returning(outcome) => HasCome(a, b, key, payload, outcome, sha256)
    case _ => false
  }

  predicate Contains(sys: System, temporary: Temporary, bytes: seq<Byte>) {
    temporary in sys.temporaries && sys.temporaries[temporary] == bytes
  }

  /** A valid value stays and is compared with; otherwise the payload is now the value. */
  ghost predicate HasCome(a: System, b: System, key: Key, payload: Payload, outcome: Outcome, sha256: Hash) {
    && b.Value(key, sha256) == Some(if a.Value(key, sha256).Some? then a.Value(key, sha256).value else payload)
    && outcome == (if b.Value(key, sha256) == Some(payload) then Stored else Conflict)
    && b.entries - {key} == a.entries - {key} && (a.Value(key, sha256).Some? ==> b.entries == a.entries)
  }

  predicate GivesUp(action: Action) {
    action.Abort? || action.Crash?
  }

  lemma StaysOnCourse(a: System, b: System, action: Action, c: System, h: nat, key: Key, payload: Payload, sha256: Hash)
    requires OnCourse(a, b, h, key, payload, sha256) && Step(b, action, c, sha256) && |payload| <= MAX_ENTRY_SIZE
    requires Moves(action, h) && !GivesUp(action) && !action.Return?
    ensures OnCourse(a, c, h, key, payload, sha256)
  {
    if action.Link? {
      DecodeInvertsEncode(key, EntryBytes(key, payload, sha256), payload, sha256);
    }
    hide Decode, EntryBytes;
  }

  /** A put that nobody disturbs, up to its return: if the key has a valid value, that stays, and the put reports
      whether it is the one given; if not, the payload becomes the value of the key and is reported stored. No other
      entry changes. */
  lemma {:induction false} UndisturbedPut(states: seq<System>, actions: seq<Action>, sha256: Hash, m: nat, n: nat,
                                          h: nat)
    requires IsRun(states, actions, sha256) && m < n < |states| && actions[m].Issue? && actions[m].h == h
    requires forall i :: m < i < n ==> Moves(actions[i], h) && !GivesUp(actions[i]) && !actions[i].Return?
    ensures var key, payload := actions[m].key, actions[m].payload;
      && OnCourse(states[m], states[n], h, key, payload, sha256)
      && (states[n].At(h).Returning? ==>
            var before, after := states[m].Value(key, sha256), states[n].Value(key, sha256);
            && after == Some(if before.Some? then before.value else payload)
            && states[n].At(h).outcome == (if after == Some(payload) then Stored else Conflict)
            && forall k :: k != key ==> states[n].Value(k, sha256) == states[m].Value(k, sha256))
    decreases n
  {
    hide Decode, EntryBytes;
    var key, payload := actions[m].key, actions[m].payload;
    assert Step(states[m], actions[m], states[m + 1], sha256);
    if m + 1 < n {
      UndisturbedPut(states, actions, sha256, m, n - 1, h);
      StaysOnCourse(states[m], states[n - 1], actions[n - 1], states[n], h, key, payload, sha256);
    }
    if states[n].At(h).Returning? {
      forall k | k != key
        ensures states[n].Value(k, sha256) == states[m].Value(k, sha256)
      {
        OthersKeepTheirs(states[m], states[n], key, k, sha256);
      }
    }
  }

  lemma OthersKeepTheirs(a: System, b: System, key: Key, k: Key, sha256: Hash)
    requires b.entries - {key} == a.entries - {key} && k != key
    ensures b.Value(k, sha256) == a.Value(k, sha256)
  {
    hide Decode;
    assert k in a.entries <==> k in a.entries - {key};
    assert k in b.entries <==> k in b.entries - {key};
    assert k in a.entries ==> (a.entries - {key})[k] == a.entries[k];
    assert k in b.entries ==> (b.entries - {key})[k] == b.entries[k];
  }

  // ---------- When a value is safe ----------

  /** A valid value of the key, present or yet to come, can be taken away: its entry is corrupt, or some handle is
      about to remove an entry that it found corrupt. */
  ghost predicate Exposed(sys: System, key: Key, sha256: Hash) {
    || (key in sys.entries && sys.Value(key, sha256).None?)
    || exists h :: IsRemoving(sys, h, key)
  }

  predicate IsRemoving(sys: System, h: nat, key: Key) {
    sys.At(h).Removing? && sys.At(h).key == key
  }

  predicate Damages(action: Action, key: Key) {
    action.Damage? && action.key == key
  }

  predicate Prunes(action: Action, key: Key) {
    action.PruneEntry? && action.key == key
  }

  /** Only damage exposes a key. */
  lemma StaysCovered(a: System, action: Action, b: System, sha256: Hash, key: Key)
    requires Inv(a, sha256) && Step(a, action, b, sha256)
    requires !Exposed(a, key, sha256) && !Damages(action, key)
    ensures !Exposed(b, key, sha256)
  {
    if action.Link? && a.At(action.h).temporary in a.temporaries {
      var at := a.At(action.h);
      DecodeInvertsEncode(at.key, a.temporaries[at.temporary], at.payload, sha256);
    }
    hide Decode, EntryBytes, Genuine, Apart;
    forall h
      ensures !IsRemoving(b, h, key)
    {
      assert !IsRemoving(a, h, key);
    }
  }

  /** A covered value survives every step but its own pruning and damage. */
  lemma CoveredSurvives(a: System, action: Action, b: System, sha256: Hash, key: Key)
    requires Step(a, action, b, sha256) && !Exposed(a, key, sha256) && a.Value(key, sha256).Some?
    requires !Damages(action, key) && !Prunes(action, key)
    ensures b.Value(key, sha256) == a.Value(key, sha256)
  {
    hide Decode, EntryBytes, Step;
    ValuesAreNotReplaced(a, action, b, sha256, key);
    assert action.Remove? ==> !IsRemoving(a, action.h, key);
  }

  lemma {:induction false} RunStaysCovered(states: seq<System>, actions: seq<Action>, sha256: Hash, m: nat, n: nat,
                                           key: Key)
    requires IsRun(states, actions, sha256) && m <= n < |states| && !Exposed(states[m], key, sha256)
    requires forall i :: m <= i < n ==> !Damages(actions[i], key)
    ensures !Exposed(states[n], key, sha256)
    decreases n
  {
    hide Step, Exposed;
    if m < n {
      RunStaysCovered(states, actions, sha256, m, n - 1, key);
      RunKeepsInv(states, actions, sha256, n - 1);
      StaysCovered(states[n - 1], actions[n - 1], states[n], sha256, key);
    }
  }

  /** With any number of handles: while a key has not been damaged, a valid value of it survives every step but its own
      pruning. */
  lemma ManyHandlesWriteOnce(states: seq<System>, actions: seq<Action>, sha256: Hash, n: nat, key: Key)
    requires IsRun(states, actions, sha256) && n < |actions|
    requires forall i :: 0 <= i <= n ==> !Damages(actions[i], key)
    requires states[n].Value(key, sha256).Some? && !Prunes(actions[n], key)
    ensures states[n + 1].Value(key, sha256) == states[n].Value(key, sha256)
  {
    assert !Exposed(states[0], key, sha256);
    hide Step, Exposed;
    RunStaysCovered(states, actions, sha256, 0, n, key);
    CoveredSurvives(states[n], actions[n], states[n + 1], sha256, key);
  }

  /** Only handle `h` puts. */
  ghost predicate OneHandle(actions: seq<Action>, h: nat) {
    forall i :: 0 <= i < |actions| ==>
      Moves(actions[i], h) || actions[i].Damage? || actions[i].PruneTemporary? || actions[i].PruneEntry?
  }

  lemma {:induction false} OnlyCorruptIsRemoved(states: seq<System>, actions: seq<Action>, sha256: Hash, h: nat, n: nat)
    requires IsRun(states, actions, sha256) && OneHandle(actions, h) && n < |states|
    ensures states[n].At(h).Removing? ==> states[n].Value(states[n].At(h).key, sha256).None?
    decreases n
  {
    hide EntryBytes;
    if n > 0 {
      OnlyCorruptIsRemoved(states, actions, sha256, h, n - 1);
      assert Step(states[n - 1], actions[n - 1], states[n], sha256);
    }
  }

  /** Within one handle a valid value survives every step but its own pruning and damage, whatever was damaged
      before. */
  lemma OneHandleWritesOnce(states: seq<System>, actions: seq<Action>, sha256: Hash, h: nat, n: nat, key: Key)
    requires IsRun(states, actions, sha256) && OneHandle(actions, h) && n < |actions|
    requires states[n].Value(key, sha256).Some? && !Damages(actions[n], key) && !Prunes(actions[n], key)
    ensures states[n + 1].Value(key, sha256) == states[n].Value(key, sha256)
  {
    hide Decode, EntryBytes;
    OnlyCorruptIsRemoved(states, actions, sha256, h, n);
    ValuesAreNotReplaced(states[n], actions[n], states[n + 1], sha256, key);
    assert Moves(actions[n], h) || actions[n].Damage? || actions[n].PruneTemporary? || actions[n].PruneEntry?;
  }

  // ---------- When a value can be lost ----------

  /** A run and the state it ends in. */
  datatype Trace = Trace(states: seq<System>, actions: seq<Action>)

  ghost predicate EndsIn(t: Trace, sha256: Hash, last: System) {
    IsRun(t.states, t.actions, sha256) && t.states[|t.states| - 1] == last
  }

  lemma Extend(t: Trace, sha256: Hash, a: System, action: Action, b: System) returns (u: Trace)
    requires EndsIn(t, sha256, a) && Step(a, action, b, sha256)
    ensures EndsIn(u, sha256, b) && u.actions == t.actions + [action] && u.states == t.states + [b]
  {
    hide Step;
    u := Trace(t.states + [b], t.actions + [action]);
    forall i | 0 <= i < |u.actions|
      ensures Step(u.states[i], u.actions[i], u.states[i + 1], sha256)
    {
      if i < |t.actions| {
        assert Step(t.states[i], t.actions[i], t.states[i + 1], sha256);
      }
    }
  }

  /** The run goes on without damage and pruning. */
  ghost predicate Extends(u: Trace, t: Trace) {
    && t.states <= u.states && t.actions <= u.actions
    && forall i :: |t.actions| <= i < |u.actions| ==> !u.actions[i].Damage? && !u.actions[i].PruneEntry?
  }

  /** A handle that found no entry publishes one. */
  lemma Publish(t: Trace, sha256: Hash, a: System, h: nat, key: Key, payload: Payload,
                random: nat) returns (u: Trace, b: System)
    requires EndsIn(t, sha256, a) && a.At(h) == Creating(key, payload) && key !in a.entries
    requires Temporary(key, random) !in a.drawn
    ensures EndsIn(u, sha256, b) && Extends(u, t) && b.At(h) == Cleaning(Temporary(key, random), Stored)
    ensures b.entries == a.entries[key := EntryBytes(key, payload, sha256)]
    ensures b.drawn == a.drawn + {Temporary(key, random)}
    ensures forall i :: i != h ==> b.At(i) == a.At(i)
  {
    hide Decode, EntryBytes, EndsIn;
    var temporary := Temporary(key, random);
    var whole := EntryBytes(key, payload, sha256);
    var c := a.Move(h, Writing(key, payload, temporary)).(temporaries := a.temporaries[temporary := []],
      drawn := a.drawn + {temporary});
    var d := c.(temporaries := c.temporaries[temporary := whole]);
    var e := d.Move(h, Linking(key, payload, temporary));
    b := e.Move(h, Cleaning(temporary, Stored)).(entries := e.entries[key := whole]);
    u := Extend(t, sha256, a, Create(h, temporary), c);
    assert whole[..|whole|] == whole;
    u := Extend(u, sha256, c, Write(h, |whole|), d);
    u := Extend(u, sha256, d, Sync(h), e);
    u := Extend(u, sha256, e, Link(h), b);
  }

  /** A handle that finds a corrupt entry is about to remove it. */
  lemma FindCorrupt(t: Trace, sha256: Hash, a: System, h: nat, key: Key, payload: Payload) returns (u: Trace, b: System)
    requires EndsIn(t, sha256, a) && a.At(h).Idle? && |payload| <= MAX_ENTRY_SIZE
    requires key in a.entries && a.Value(key, sha256).None?
    ensures EndsIn(u, sha256, b) && Extends(u, t) && b.At(h) == Removing(key, payload)
    ensures b.entries == a.entries && b.drawn == a.drawn && forall i :: i != h ==> b.At(i) == a.At(i)
  {
    hide Decode, EntryBytes;
    var c := a.Move(h, Loading(key, payload)).(issued := a.issued + {(key, payload)});
    b := c.Move(h, Removing(key, payload));
    u := Extend(t, sha256, a, Issue(h, key, payload), c);
    u := Extend(u, sha256, c, Load(h), b);
  }

  lemma {:induction false} FreshNumber(used: set<nat>) returns (n: nat)
    ensures forall m :: m in used ==> m < n
    decreases |used|
  {
    n := 0;
    if used != {} {
      var m :| m in used;
      n := FreshNumber(used - {m});
      assert used == used - {m} + {m};
      n := if m < n then n else m + 1;
    }
  }

  /** From the state of `t` on, nobody damages the key or prunes its entry. */
  ghost predicate Continues(u: Trace, t: Trace, key: Key) {
    && t.states <= u.states && t.actions <= u.actions
    && forall i :: |t.actions| <= i < |u.actions| ==> !Damages(u.actions[i], key) && !Prunes(u.actions[i], key)
  }

  /** Later in `u`, at step `n`, a valid value of the key is lost. */
  ghost predicate Loses(u: Trace, t: Trace, key: Key, n: nat, sha256: Hash) {
    && |u.states| == |u.actions| + 1 && |t.actions| <= n < |u.actions|
    && u.states[n].Value(key, sha256).Some? && u.states[n + 1].Value(key, sha256) != u.states[n].Value(key, sha256)
  }

  lemma ExtendsContinues(v: Trace, u: Trace, t: Trace, key: Key)
    requires Continues(u, t, key) && Extends(v, u)
    ensures Continues(v, t, key)
  {
  }

  ghost predicate CanBeLost(t: Trace, key: Key, sha256: Hash) {
    exists u: Trace, n: nat :: IsRun(u.states, u.actions, sha256) && Continues(u, t, key) && Loses(u, t, key, n, sha256)
  }

  /** A handle that never did anything. */
  lemma NewHandle(sys: System, other: nat) returns (h: nat)
    ensures sys.At(h).Idle? && h != other
  {
    h := FreshNumber(sys.phases.Keys + {other});
  }

  lemma NewTemporary(sys: System, key: Key) returns (random: nat)
    ensures Temporary(key, random) !in sys.drawn
  {
    var used := set t | t in sys.drawn :: t.random;
    random := FreshNumber(used);
    assert Temporary(key, random) in sys.drawn ==> Temporary(key, random).random in used;
  }

  /** A handle about to remove an entry removes a whole one. */
  lemma RemovalLoses(t: Trace, u: Trace, sha256: Hash, a: System, h: nat, key: Key)
    requires EndsIn(u, sha256, a) && Continues(u, t, key) && IsRemoving(a, h, key) && a.Value(key, sha256).Some?
    ensures CanBeLost(t, key, sha256)
  {
    hide Step, Decode;
    var at := a.At(h);
    var b := a.Move(h, Creating(key, at.payload)).(entries := a.entries - {key});
    assert Step(a, Remove(h), b, sha256) by { RemovalStep(a, h, b, key, sha256); }
    var v := Extend(u, sha256, a, Remove(h), b);
    assert Loses(v, t, key, |u.actions|, sha256);
  }

  lemma RemovalStep(a: System, h: nat, b: System, key: Key, sha256: Hash)
    requires IsRemoving(a, h, key) && b == a.Move(h, Creating(key, a.At(h).payload)).(entries := a.entries - {key})
    ensures Step(a, Remove(h), b, sha256)
  {
    hide Decode;
  }

  /** While one handle is about to remove the entry, and there is none, another publishes one. */
  lemma AbsentEntryIsReplaced(t: Trace, u: Trace, sha256: Hash, a: System, h: nat, key: Key, p: Payload)
    requires EndsIn(u, sha256, a) && Continues(u, t, key) && IsRemoving(a, h, key) && key !in a.entries
    requires |p| <= MAX_ENTRY_SIZE
    ensures CanBeLost(t, key, sha256)
  {
    DecodeInvertsEncode(key, EntryBytes(key, p, sha256), p, sha256);
    hide Decode, EntryBytes, IsRun;
    var i := NewHandle(a, h);
    var b := a.Move(i, Loading(key, p)).(issued := a.issued + {(key, p)});
    var v := Extend(u, sha256, a, Issue(i, key, p), b);
    var c := b.Move(i, Creating(key, p));
    v := Extend(v, sha256, b, Load(i), c);
    var random := NewTemporary(c, key);
    var w, d := Publish(v, sha256, c, i, key, p, random);
    ExtendsContinues(w, v, t, key);
    assert d.At(h) == c.At(h) == a.At(h);
    RemovalLoses(t, w, sha256, d, h, key);
  }

  /** A corrupt entry: two handles find it, one replaces it, and the other removes what that one published. */
  lemma CorruptEntryIsLost(t: Trace, sha256: Hash, a: System, key: Key, p: Payload)
    requires EndsIn(t, sha256, a) && key in a.entries && a.Value(key, sha256).None? && |p| <= MAX_ENTRY_SIZE
    ensures CanBeLost(t, key, sha256)
  {
    hide Decode, EntryBytes, IsRun;
    var h := NewHandle(a, 0);
    var u, b := FindCorrupt(t, sha256, a, h, key, p);
    var i := NewHandle(b, h);
    var v, c := FindCorrupt(u, sha256, b, i, key, p);
    ExtendsContinues(u, t, t, key);
    ExtendsContinues(v, u, t, key);
    assert c.At(h) == b.At(h);
    var d := c.Move(i, Creating(key, p)).(entries := c.entries - {key});
    var w := Extend(v, sha256, c, Remove(i), d);
    AbsentEntryIsReplaced(t, w, sha256, d, h, key, p);
  }

  /** Without damage and pruning of its key, a value can be lost from here on exactly if the key is exposed. */
  lemma LostExactlyIfExposed(t: Trace, a: System, sha256: Hash, key: Key)
    requires EndsIn(t, sha256, a)
    ensures CanBeLost(t, key, sha256) <==> Exposed(a, key, sha256)
  {
    hide Decode, EntryBytes, Step;
    if Exposed(a, key, sha256) {
      if key in a.entries && a.Value(key, sha256).None? {
        CorruptEntryIsLost(t, sha256, a, key, []);
      } else {
        var h :| IsRemoving(a, h, key);
        if key in a.entries {
          RemovalLoses(t, t, sha256, a, h, key);
        } else {
          AbsentEntryIsReplaced(t, t, sha256, a, h, key, []);
        }
      }
    } else if CanBeLost(t, key, sha256) {
      var u: Trace, n: nat :| IsRun(u.states, u.actions, sha256) && Continues(u, t, key) && Loses(u, t, key, n, sha256);
      var m := |t.actions|;
      assert u.states[m] == a;
      RunStaysCovered(u.states, u.actions, sha256, m, n, key);
      CoveredSurvives(u.states[n], u.actions[n], u.states[n + 1], sha256, key);
      assert false;
    }
  }

  /** A first put, up to the link. */
  lemma FirstPut(key: Key, p: Payload, sha256: Hash) returns (t: Trace, d: System)
    requires |p| <= MAX_ENTRY_SIZE
    ensures EndsIn(t, sha256, d) && key in d.entries && d.entries.Keys == {key} && d.drawn == {Temporary(key, 0)}
    ensures d.At(0).Idle? && d.At(1) == Cleaning(Temporary(key, 0), Stored)
  {
    hide Decode, EntryBytes;
    var a := START;
    t := Trace([a], []);
    var b := a.Move(1, Loading(key, p)).(issued := a.issued + {(key, p)});
    t := Extend(t, sha256, a, Issue(1, key, p), b);
    var c := b.Move(1, Creating(key, p));
    t := Extend(t, sha256, b, Load(1), c);
    t, d := Publish(t, sha256, c, 1, key, p, 0);
    assert d.At(0) == c.At(0);
  }

  lemma FinishPut(t: Trace, key: Key, sha256: Hash, d: System) returns (u: Trace, f: System)
    requires EndsIn(t, sha256, d) && d.At(0).Idle? && d.At(1) == Cleaning(Temporary(key, 0), Stored)
    ensures EndsIn(u, sha256, f) && f.entries == d.entries && f.drawn == d.drawn && f.At(0) == f.At(1) == Idle
  {
    hide Decode, EntryBytes, EndsIn;
    var e := d.Move(1, Returning(Stored)).(temporaries := d.temporaries - {Temporary(key, 0)});
    u := Extend(t, sha256, d, Clean(1), e);
    f := e.Move(1, Idle);
    u := Extend(u, sha256, e, Return(1), f);
  }

  /** One handle publishes an entry and returns, and the file is damaged. */
  lemma DamagedEntry(key: Key, p: Payload, sha256: Hash) returns (t: Trace, g: System)
    requires |p| <= MAX_ENTRY_SIZE
    ensures EndsIn(t, sha256, g) && g.entries == map[key := []] && g.drawn == {Temporary(key, 0)}
    ensures g.At(0) == g.At(1) == Idle
  {
    assert Decode(key, [], sha256).None?;
    hide Decode, EntryBytes, EndsIn;
    var d;
    t, d := FirstPut(key, p, sha256);
    var f;
    t, f := FinishPut(t, key, sha256, d);
    g := f.(entries := f.entries[key := []]);
    t := Extend(t, sha256, f, Damage(key, []), g);
  }

  /** The smallest case: one put, damage, and two puts that both find it. */
  lemma StaleRemovalLosesAValue(key: Key, p: Payload, sha256: Hash) returns (t: Trace, g: System)
    requires |p| <= MAX_ENTRY_SIZE
    ensures EndsIn(t, sha256, g) && g.entries == map[key := []] && g.At(0) == g.At(1) == Idle
    ensures CanBeLost(t, key, sha256)
  {
    assert Decode(key, [], sha256).None?;
    hide Decode, EntryBytes, IsRun;
    t, g := DamagedEntry(key, p, sha256);
    LostExactlyIfExposed(t, g, sha256, key);
  }
}
