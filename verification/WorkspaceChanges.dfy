/** Watched file changes waiting for the next workspace analysis (WorkspaceFilesChanged and the taking and
    restoring of changes in internal/cli/lsp.go). */
module WorkspaceChanges {
  import P = PackageSession
  import opened Sets
  import opened Wrappers

  const MAX_CHANGED_FILES: nat := 4096

  type Path = string

  /** What one notification says. */
  datatype Changes = Changes(invalidateAll: bool, paths: seq<Path>)

  datatype Failure = Canceled | MixedInvalidation | UncleanPath

  /** The changes kept for an analysis: a set of paths, or everything. */
  datatype Pending = Pending(files: set<Path>, all: bool)

  const NOTHING: Pending := Pending({}, false)

  ghost predicate Rests(p: Pending) {
    |p.files| <= MAX_CHANGED_FILES && (p.all ==> p.files == {})
  }

  predicate Acceptable(changes: Changes, clean: Path -> bool) {
    && !(changes.invalidateAll && |changes.paths| != 0)
    && forall i :: 0 <= i < |changes.paths| ==> clean(changes.paths[i])
  }

  /** More paths; too many of them become everything. */
  ghost function Widened(p: Pending, paths: set<Path>): Pending {
    if p.all || |p.files + paths| > MAX_CHANGED_FILES then Pending({}, true) else Pending(p.files + paths, false)
  }

  ghost function PathsOf(paths: seq<Path>): set<Path> {
    set path | path in paths
  }

  ghost function Accepted(p: Pending, changes: Changes): Pending {
    if changes.invalidateAll then Pending({}, true) else Widened(p, PathsOf(changes.paths))
  }

  ghost function Restored(p: Pending, taken: Pending): Pending {
    if taken.all then Pending({}, true) else Widened(p, taken.files)
  }

  // ---------- The backend ----------

  class Backend {
    var files: set<Path>
    var invalidateAll: bool
    const session: P.PackageSession

    ghost function Contents(): Pending
      reads this
    {
      Pending(files, invalidateAll)
    }

    constructor ()
      ensures Contents() == NOTHING && fresh(session)
    {
      files, invalidateAll := {}, false;
      session := new P.PackageSession();
    }

    /** A notification is recorded whole or not at all; an acceptable one also empties the package session. */
    method WorkspaceFilesChanged(changes: Changes, clean: Path -> bool, canceled: bool, canceledLater: bool)
        returns (r: Result<(), Failure>)
      requires Rests(Contents())
      modifies this, session
      ensures Rests(Contents())
      ensures r.Ok? <==> !canceled && !canceledLater && Acceptable(changes, clean)
      ensures Contents() == if r.Ok? then Accepted(old(Contents()), changes) else old(Contents())
      ensures session.Now() == if !canceled && Acceptable(changes, clean) then P.Invalidated(old(session.Now()))
                               else old(session.Now())
    {
      if canceled {
        return Err(Canceled);
      }
      if changes.invalidateAll && |changes.paths| != 0 {
        return Err(MixedInvalidation);
      }
      for i := 0 to |changes.paths|
        invariant forall j :: 0 <= j < i ==> clean(changes.paths[j])
      {
        if !clean(changes.paths[i]) {
          return Err(UncleanPath);
        }
      }
      session.InvalidateAll();
      if canceledLater {
        return Err(Canceled);
      }
      if changes.invalidateAll {
        files, invalidateAll := {}, true;
        return Ok(());
      }
      if invalidateAll {
        return Ok(());
      }
      RecordPaths(changes.paths);
      return Ok(());
    }

    /** The loop of `WorkspaceFilesChanged` over the paths. */
    method RecordPaths(paths: seq<Path>)
      requires Rests(Contents()) && !invalidateAll
      modifies this
      ensures Rests(Contents()) && Contents() == Widened(old(Contents()), PathsOf(paths))
    {
      ghost var before := files;
      for i := 0 to |paths|
        invariant !invalidateAll
        invariant files == before + PathsOf(paths[..i]) && |files| <= MAX_CHANGED_FILES
      {
        assert PathsOf(paths[..i + 1]) == PathsOf(paths[..i]) + {paths[i]};
        files := files + {paths[i]};
        if |files| > MAX_CHANGED_FILES {
          SubsetIsSmaller(files, before + PathsOf(paths));
          files, invalidateAll := {}, true;
          return;
        }
      }
      assert paths[..|paths|] == paths;
    }

    method TakeWorkspaceFileChanges() returns (taken: Pending)
      modifies this
      ensures taken == old(Contents()) && Contents() == NOTHING
    {
      taken := Pending(files, invalidateAll);
      files, invalidateAll := {}, false;
    }

    method RestoreWorkspaceFileChanges(taken: Pending)
      requires Rests(Contents())
      modifies this
      ensures Rests(Contents()) && Contents() == Restored(old(Contents()), taken)
    {
      if taken.all || invalidateAll {
        files, invalidateAll := {}, true;
        return;
      }
      ghost var before := files;
      var rest := taken.files;
      while rest != {}
        invariant rest <= taken.files && !invalidateAll
        invariant files == before + (taken.files - rest) && |files| <= MAX_CHANGED_FILES
        decreases rest
      {
        var path :| path in rest;
        rest := rest - {path};
        files := files + {path};
        if |files| > MAX_CHANGED_FILES {
          assert files <= before + taken.files;
          SubsetIsSmaller(files, before + taken.files);
          files, invalidateAll := {}, true;
          return;
        }
      }
      assert files == before + taken.files;
    }
  }

  // ---------- Notifications and analyses interleaving ----------

  datatype Notice = File(path: Path) | Everything

  ghost predicate Covers(p: Pending, n: Notice) {
    p.all || (n.File? && n.path in p.files)
  }

  function NoticesOf(changes: Changes): seq<Notice> {
    if changes.invalidateAll then [Everything]
      else seq(|changes.paths|, i requires 0 <= i < |changes.paths| => File(changes.paths[i]))
  }

  /** The changes an analysis took, and how many notices had been accepted by then. */
  datatype Flight = Flight(taken: Pending, upto: nat)

  /** `accepted` and `completed` are the history; analyses run one at a time. */
  datatype System = System(pending: Pending, flight: Option<Flight>, accepted: seq<Notice>, completed: seq<Flight>)

  datatype Action = Notify(changes: Changes) | Take | Fail | Complete

  /** An analysis that fails or is canceled, at whatever point, gives its changes back. */
  ghost predicate Step(a: System, action: Action, b: System) {
    match action
    case Notify(changes) =>
      b == a.(pending := Accepted(a.pending, changes), accepted := a.accepted + NoticesOf(changes))
    case Take =>
      a.flight.None? && b == a.(pending := NOTHING, flight := Some(Flight(a.pending, |a.accepted|)))
    case Fail =>
      a.flight.Some? && b == a.(pending := Restored(a.pending, a.flight.value.taken), flight := None)
    case Complete =>
      a.flight.Some? && b == a.(flight := None, completed := a.completed + [a.flight.value])
  }

  /** Some analysis that started after notice `i` took it and completed. */
  ghost predicate Consumed(s: System, i: nat)
    requires i < |s.accepted|
  {
    exists c :: c in s.completed && i < c.upto && Covers(c.taken, s.accepted[i])
  }

  ghost predicate InFlight(s: System, i: nat)
    requires i < |s.accepted|
  {
    s.flight.Some? && i < s.flight.value.upto && Covers(s.flight.value.taken, s.accepted[i])
  }

  /** The history up to `upto` is answered for by the analysis in flight, if any, and by the completed ones. */
  ghost predicate Answered(s: System, upto: nat, flying: bool) {
    upto <= |s.accepted| && forall i: nat :: i < upto ==> (flying && InFlight(s, i)) || Consumed(s, i)
  }

  /** No accepted notice is lost, and an analysis answers for all that was accepted before it started. */
  ghost predicate Kept(s: System) {
    && (forall i: nat :: i < |s.accepted| ==> Covers(s.pending, s.accepted[i]) || InFlight(s, i) || Consumed(s, i))
    && (s.flight.Some? ==> Answered(s, s.flight.value.upto, true))
    && (forall c :: c in s.completed ==> Answered(s, c.upto, false))
  }

  ghost function AcceptedPaths(s: System): set<Path> {
    set n | n in s.accepted && n.File? :: n.path
  }

  /** Nothing is analysed without reason: paths were notified, and everything was asked for or there were too many. */
  ghost predicate Justified(p: Pending, s: System) {
    && p.files <= AcceptedPaths(s)
    && (p.all ==> Everything in s.accepted || |AcceptedPaths(s)| > MAX_CHANGED_FILES)
  }

  ghost predicate Inv(s: System) {
    && Rests(s.pending) && Kept(s) && Justified(s.pending, s)
    && (s.flight.Some? ==> Rests(s.flight.value.taken) && Justified(s.flight.value.taken, s))
  }

  lemma AcceptedCovers(p: Pending, changes: Changes, n: Notice)
    requires Covers(p, n) || n in NoticesOf(changes)
    ensures Covers(Accepted(p, changes), n)
  {
    if n in NoticesOf(changes) && !changes.invalidateAll {
      assert n.path in changes.paths;
    }
  }

  /** What was consumed or taken stays so. */
  lemma ConsumedStays(a: System, b: System, i: nat)
    requires i < |a.accepted| <= |b.accepted| && b.accepted[i] == a.accepted[i]
    requires forall c :: c in a.completed ==> c in b.completed
    ensures Consumed(a, i) ==> Consumed(b, i)
    ensures b.flight == a.flight && InFlight(a, i) ==> InFlight(b, i)
    ensures b.flight.None? && a.flight.Some? && a.flight.value in b.completed && InFlight(a, i) ==> Consumed(b, i)
  {
    if Consumed(a, i) {
      var c :| c in a.completed && i < c.upto && Covers(c.taken, a.accepted[i]);
      assert c in b.completed;
    }
  }

  lemma AnsweredStays(a: System, b: System, upto: nat, flying: bool)
    requires Answered(a, upto, flying) && a.accepted <= b.accepted
    requires forall c :: c in a.completed ==> c in b.completed
    requires flying ==> b.flight == a.flight
    ensures Answered(b, upto, flying)
  {
    forall i: nat | i < upto
      ensures (flying && InFlight(b, i)) || Consumed(b, i)
    {
      ConsumedStays(a, b, i);
    }
  }

  lemma NotifyKeeps(a: System, changes: Changes, b: System)
    requires Kept(a) && Step(a, Notify(changes), b)
    ensures Kept(b)
  {
    hide Consumed, InFlight, Accepted, Covers;
    forall i: nat | i < |b.accepted|
      ensures Covers(b.pending, b.accepted[i]) || InFlight(b, i) || Consumed(b, i)
    {
      if i < |a.accepted| {
        ConsumedStays(a, b, i);
        if Covers(a.pending, a.accepted[i]) {
          AcceptedCovers(a.pending, changes, a.accepted[i]);
        }
      } else {
        AcceptedCovers(a.pending, changes, b.accepted[i]);
      }
    }
    if a.flight.Some? {
      AnsweredStays(a, b, a.flight.value.upto, true);
    }
    forall c | c in b.completed
      ensures Answered(b, c.upto, false)
    {
      AnsweredStays(a, b, c.upto, false);
    }
  }

  lemma TakeKeeps(a: System, b: System)
    requires Kept(a) && Step(a, Take, b)
    ensures Kept(b)
  {
    hide Consumed;
    forall i: nat | i < |b.accepted|
      ensures InFlight(b, i) || Consumed(b, i)
    {
      ConsumedStays(a, b, i);
    }
    forall c | c in b.completed
      ensures Answered(b, c.upto, false)
    {
      AnsweredStays(a, b, c.upto, false);
    }
  }

  lemma FailKeeps(a: System, b: System)
    requires Kept(a) && Step(a, Fail, b)
    ensures Kept(b)
  {
    hide Consumed;
    forall i: nat | i < |b.accepted|
      ensures Covers(b.pending, b.accepted[i]) || Consumed(b, i)
    {
      ConsumedStays(a, b, i);
    }
    forall c | c in b.completed
      ensures Answered(b, c.upto, false)
    {
      AnsweredStays(a, b, c.upto, false);
    }
  }

  lemma CompleteKeeps(a: System, b: System)
    requires Kept(a) && Step(a, Complete, b)
    ensures Kept(b)
  {
    hide Consumed, InFlight, Covers;
    assert forall c :: c in b.completed <==> c in a.completed || c == a.flight.value;
    forall i: nat | i < |b.accepted|
      ensures Covers(b.pending, b.accepted[i]) || Consumed(b, i)
    {
      ConsumedStays(a, b, i);
    }
    forall c | c in b.completed
      ensures Answered(b, c.upto, false)
    {
      if c in a.completed {
        AnsweredStays(a, b, c.upto, false);
      } else {
        forall i: nat | i < c.upto
          ensures Consumed(b, i)
        {
          ConsumedStays(a, b, i);
        }
      }
    }
  }

  lemma StepKeepsJustified(a: System, action: Action, b: System, p: Pending)
    requires Step(a, action, b) && Justified(p, a)
    ensures Justified(p, b)
  {
    assert AcceptedPaths(a) <= AcceptedPaths(b);
    SubsetIsSmaller(AcceptedPaths(a), AcceptedPaths(b));
  }

  lemma WidenedIsJustified(p: Pending, paths: set<Path>, s: System)
    requires Justified(p, s) && paths <= AcceptedPaths(s)
    ensures Justified(Widened(p, paths), s)
  {
    SubsetIsSmaller(p.files + paths, AcceptedPaths(s));
  }

  lemma NewPathsAreAccepted(a: System, changes: Changes, b: System)
    requires Step(a, Notify(changes), b)
    ensures if changes.invalidateAll then Everything in b.accepted else PathsOf(changes.paths) <= AcceptedPaths(b)
  {
    if changes.invalidateAll {
      assert b.accepted[|a.accepted|] == Everything;
    } else {
      forall path | path in changes.paths
        ensures path in AcceptedPaths(b)
      {
        var i :| 0 <= i < |changes.paths| && changes.paths[i] == path;
        assert b.accepted[|a.accepted| + i] == File(path);
      }
    }
  }

  lemma StepKeepsInv(a: System, action: Action, b: System)
    requires Inv(a) && Step(a, action, b)
    ensures Inv(b)
  {
    hide Kept, Justified, Widened, Rests;
    StepKeepsJustified(a, action, b, a.pending);
    if a.flight.Some? {
      StepKeepsJustified(a, action, b, a.flight.value.taken);
    }
    EverythingRests(b);
    match action {
      case Notify(changes) =>
        NotifyKeeps(a, changes, b);
        NewPathsAreAccepted(a, changes, b);
        if !changes.invalidateAll {
          WidenedIsJustified(a.pending, PathsOf(changes.paths), b);
          WidenedRests(a.pending, PathsOf(changes.paths));
        }
      case Take =>
        TakeKeeps(a, b);
      case Fail =>
        FailKeeps(a, b);
        TakenIsAccepted(a.flight.value.taken, b);
        if !a.flight.value.taken.all {
          WidenedIsJustified(a.pending, a.flight.value.taken.files, b);
          WidenedRests(a.pending, a.flight.value.taken.files);
        }
      case Complete =>
        CompleteKeeps(a, b);
    }
  }

  lemma EverythingRests(s: System)
    ensures Rests(NOTHING) && Rests(Pending({}, true)) && Justified(NOTHING, s)
    ensures Everything in s.accepted ==> Justified(Pending({}, true), s)
  {
  }

  lemma TakenIsAccepted(p: Pending, s: System)
    requires Justified(p, s)
    ensures p.files <= AcceptedPaths(s) && (p.all ==> Justified(Pending({}, true), s))
  {
  }

  lemma WidenedRests(p: Pending, paths: set<Path>)
    ensures Rests(Widened(p, paths))
  {
  }

  // ---------- Whole runs ----------

  const START: System := System(NOTHING, None, [], [])

  ghost predicate IsRun(states: seq<System>, actions: seq<Action>) {
    && |states| == |actions| + 1 && states[0] == START
    && forall i :: 0 <= i < |actions| ==> Step(states[i], actions[i], states[i + 1])
  }

  lemma {:induction false} RunKeepsInv(states: seq<System>, actions: seq<Action>, n: nat)
    requires IsRun(states, actions) && n < |states|
    ensures Inv(states[n])
    decreases n
  {
    if n > 0 {
      RunKeepsInv(states, actions, n - 1);
      StepKeepsInv(states[n - 1], actions[n - 1], states[n]);
    }
  }

  /** In every reachable state each accepted change is pending, in flight, or consumed by an analysis that started
      after it and completed; and never more than the limit is pending. */
  lemma NothingIsLost(states: seq<System>, actions: seq<Action>, n: nat, i: nat)
    requires IsRun(states, actions) && n < |states| && i < |states[n].accepted|
    ensures Covers(states[n].pending, states[n].accepted[i]) || InFlight(states[n], i) || Consumed(states[n], i)
    ensures |states[n].pending.files| <= MAX_CHANGED_FILES
  {
    RunKeepsInv(states, actions, n);
  }

  /** A completed analysis leaves nothing behind that was accepted before it started. */
  lemma CompletionConsumesAll(states: seq<System>, actions: seq<Action>, n: nat, i: nat)
    requires IsRun(states, actions) && n < |actions| && actions[n] == Complete
    requires states[n].flight.Some? && i < states[n].flight.value.upto
    ensures i < |states[n + 1].accepted| && Consumed(states[n + 1], i)
  {
    RunKeepsInv(states, actions, n + 1);
    assert Step(states[n], actions[n], states[n + 1]);
    var c := states[n].flight.value;
    assert states[n + 1].completed[|states[n].completed|] == c;
    assert Answered(states[n + 1], c.upto, false);
  }
}
