/** Which retained package results an editor workspace analysis reuses, and when that equals analysing again
    (AnalyzeWorkspace, lspWorkspaceInvalidation, lspWorkspaceWatchedInvalidation and lspPackageEntryIntersects in
    internal/cli/lsp.go). */
module WorkspaceReuse {
  import opened Encoding
  import opened Sets
  import opened WorkspaceEntries
  import opened Wrappers

  type Findings = Text

  const NO_FINDINGS: Findings := []

  type Analyzed = PackageResult<Findings>
  type Retained = Entry<Findings>

  /** The open documents of one package. */
  datatype Group = Group(key: GroupKey, documents: map<Path, Digest>)

  /** Absent files do not exist, files without a digest cannot be read; absent listings cannot be read. */
  datatype Disk = Disk(files: map<Path, Option<Digest>>, listings: map<Path, Digest>)

  datatype Read = Missing | Unreadable | Holds(digest: Digest)

  /** What an analysis under one root sees: the open documents laid over the disk. */
  datatype View = View(overlay: map<Path, Digest>, disk: Disk)

  /** An analysis attempt.  `graph` lists the root packages found by package discovery, if any. */
  datatype Attempt = Attempt(failed: bool, result: Analyzed, graph: seq<PackagePath>, canceled: bool)

  /** What the model takes as given: package analysis, for which roots an overlay can be built from the documents, and
      how paths lie in roots and directories. */
  datatype World = World(
    analyze: (Group, View) -> Attempt, prepares: (Path, map<Path, Digest>) -> bool, within: (Path, Path) -> bool,
      directory: Path -> Path)

  /** One call of `AnalyzeWorkspace`. */
  datatype Round = Round(
    previous: map<GroupKey, Retained>, groups: seq<Group>, documents: map<Path, Digest>, changed: set<Path>, all: bool,
      disk: Disk)

  // ---------- Staleness of one entry ----------

  function OnDisk(disk: Disk, path: Path): Read {
    if path !in disk.files then Missing
    else match disk.files[path]
      case None => Unreadable
      case Some(digest) => Holds(digest)
  }

  predicate FileCurrent(disk: Disk, path: Path, expected: FileSnapshot) {
    match OnDisk(disk, path)
    case Missing => expected.None?
    case Unreadable => false
    case Holds(digest) => expected == Some(digest)
  }

  ghost predicate FilesystemCurrent(entry: Retained, disk: Disk) {
    && (forall path :: path in entry.files ==> FileCurrent(disk, path, entry.files[path]))
    && forall d :: d in entry.directories ==> d in disk.listings && disk.listings[d] == entry.directories[d]
  }

  predicate IsZero(digest: Digest) {
    forall i :: 0 <= i < |digest| ==> digest[i] == 0
  }

  predicate LooksUp(documents: map<Path, Digest>, path: Path, digest: Digest) {
    if path in documents then documents[path] == digest else IsZero(digest)
  }

  /** `equalLSPDocumentDigests`: a missing path looks like a zero digest. */
  ghost predicate SameDocuments(left: map<Path, Digest>, right: map<Path, Digest>) {
    |left| == |right| && forall path :: path in left ==> LooksUp(right, path, left[path])
  }

  ghost predicate NonZero(documents: map<Path, Digest>) {
    forall path :: path in documents ==> !IsZero(documents[path])
  }

  lemma SameDocumentsIsEquality(left: map<Path, Digest>, right: map<Path, Digest>)
    requires NonZero(left)
    ensures SameDocuments(left, right) <==> left == right
  {
    if SameDocuments(left, right) {
      assert left.Keys <= right.Keys && |left.Keys| == |left| && |right.Keys| == |right|;
      SubsetIsSmaller(left.Keys, right.Keys);
    }
  }

  ghost predicate Affected(entry: Retained, changed: set<Path>, w: World) {
    exists path :: path in changed && (path in entry.files || w.directory(path) in entry.directories)
  }

  // ---------- What a round invalidates ----------

  /** Something under a root changed: these packages, or, when none is known, possibly all. */
  datatype Note = Note(root: Path, packages: seq<PackagePath>)

  ghost predicate HasKey(groups: seq<Group>, key: GroupKey) {
    exists g :: g in groups && g.key == key
  }

  ghost predicate Differs(r: Round, g: Group)
    requires g.key in r.previous
  {
    !SameDocuments(r.previous[g.key].documents, g.documents) || !FilesystemCurrent(r.previous[g.key], r.disk)
  }

  /** An open group that changed or went stale on disk, or a closed one. */
  ghost predicate Outdated(r: Round, key: GroupKey)
    requires key in r.previous
  {
    || !HasKey(r.groups, key)
    || exists g :: g in r.groups && g.key == key && Differs(r, g)
  }

  function Overlay(w: World, documents: map<Path, Digest>, root: Path): map<Path, Digest> {
    map path | path in documents && w.within(root, path) :: documents[path]
  }

  function ViewOf(w: World, documents: map<Path, Digest>, disk: Disk, root: Path): View {
    View(Overlay(w, documents, root), disk)
  }

  /** Without an overlay nothing is analysed and no root package found. */
  function AttemptOf(w: World, r: Round, g: Group): Attempt {
    if w.prepares(g.key.root, r.documents) then w.analyze(g, ViewOf(w, r.documents, r.disk, g.key.root))
    else Attempt(true, PackageResult(map[], {}, [], [], {}, {}, 0, NO_FINDINGS), [], false)
  }

  /** The root packages an attempt on a newly opened group yields. */
  function AttemptRoots(attempt: Attempt): seq<PackagePath> {
    if attempt.result.roots == [] then attempt.graph else attempt.result.roots
  }

  ghost function NotesFor(r: Round, keys: set<GroupKey>): set<Note> {
    set key | key in keys && key in r.previous :: Note(key.root, r.previous[key].result.roots)
  }

  ghost function ClosedOrOutdated(r: Round): set<Note> {
    NotesFor(r, set key | key in r.previous && Outdated(r, key))
  }

  ghost function Watched(w: World, r: Round): set<Note> {
    NotesFor(r, set key | key in r.previous && Affected(r.previous[key], r.changed, w))
  }

  ghost function Opened(w: World, r: Round, groups: seq<Group>): set<Note> {
    set g | g in groups && g.key !in r.previous :: Note(g.key.root, AttemptRoots(AttemptOf(w, r, g)))
  }

  ghost function Everything(r: Round, groups: seq<Group>): set<Note> {
    if r.all then set g | g in groups :: Note(g.key.root, []) else {}
  }

  ghost function Notes(w: World, r: Round): set<Note> {
    ClosedOrOutdated(r) + Watched(w, r) + Everything(r, r.groups) + Opened(w, r, r.groups)
  }

  /** The entry has nothing to do with what changed under its root. */
  ghost predicate Untouched(entry: Retained, root: Path, notes: set<Note>) {
    forall n :: n in notes && n.root == root ==>
      n.packages != [] && forall p :: p in n.packages ==> p !in entry.result.roots && p !in entry.result.dependencies
  }

  ghost predicate Reused(w: World, r: Round, g: Group) {
    && w.prepares(g.key.root, r.documents) && g.key in r.previous
    && SameDocuments(r.previous[g.key].documents, g.documents) && Untouched(r.previous[g.key], g.key.root, Notes(w, r))
  }

  // ---------- The invalidation tables ----------

  datatype Tables = Tables(packages: map<Path, set<PackagePath>>, roots: set<Path>)

  ghost predicate Says(notes: set<Note>, root: Path, package: PackagePath) {
    exists n :: n in notes && n.root == root && package in n.packages
  }

  ghost predicate SaysAll(notes: set<Note>, root: Path) {
    exists n :: n in notes && n.root == root && n.packages == []
  }

  predicate Listed(t: Tables, root: Path, package: PackagePath) {
    root in t.packages && package in t.packages[root]
  }

  /** The tables say exactly what the notes say. */
  ghost predicate Records(t: Tables, notes: set<Note>) {
    && (forall root: Path, p: PackagePath :: Listed(t, root, p) <==> Says(notes, root, p))
    && (forall root: Path :: root in t.roots <==> SaysAll(notes, root))
  }

  function Put(t: Tables, n: Note): Tables {
    var known := if n.root in t.packages then t.packages[n.root] else {};
    if n.packages == [] then Tables(t.packages[n.root := known], t.roots + {n.root})
    else Tables(t.packages[n.root := known + set p | p in n.packages], t.roots)
  }

  lemma PutRecords(t: Tables, notes: set<Note>, n: Note)
    requires Records(t, notes)
    ensures Records(Put(t, n), notes + {n})
  {
    hide Says, SaysAll;
    var u := Put(t, n);
    forall root: Path, p: PackagePath
      ensures Listed(u, root, p) <==> Says(notes + {n}, root, p)
    {
      SaysMore(notes, n, root, p);
      assert Listed(t, root, p) <==> Says(notes, root, p);
    }
    forall root: Path
      ensures root in u.roots <==> SaysAll(notes + {n}, root)
    {
      SaysMore(notes, n, root, []);
    }
  }

  lemma SaysMore(notes: set<Note>, n: Note, root: Path, p: PackagePath)
    ensures Says(notes + {n}, root, p) <==> Says(notes, root, p) || (n.root == root && p in n.packages)
    ensures SaysAll(notes + {n}, root) <==> SaysAll(notes, root) || (n.root == root && n.packages == [])
  {
    if Says(notes, root, p) {
      var m :| m in notes && m.root == root && p in m.packages;
      assert m in notes + {n};
    }
    if SaysAll(notes, root) {
      var m :| m in notes && m.root == root && m.packages == [];
      assert m in notes + {n};
    }
    assert n in notes + {n};
  }

  // ---------- The loops ----------

  method EqualDocuments(left: map<Path, Digest>, right: map<Path, Digest>) returns (same: bool)
    ensures same <==> SameDocuments(left, right)
  {
    if |left| != |right| {
      return false;
    }
    var rest := left.Keys;
    while rest != {}
      invariant rest <= left.Keys && forall path :: path in left && path !in rest ==> LooksUp(right, path, left[path])
      decreases rest
    {
      var path :| path in rest;
      if !LooksUp(right, path, left[path]) {
        return false;
      }
      rest := rest - {path};
    }
    return true;
  }

  /** `lspWorkspaceFilesystemCurrent`. */
  method IsCurrent(entry: Retained, disk: Disk) returns (current: bool)
    ensures current <==> FilesystemCurrent(entry, disk)
  {
    var files := entry.files.Keys;
    while files != {}
      invariant files <= entry.files.Keys
      invariant forall path :: path in entry.files && path !in files ==> FileCurrent(disk, path, entry.files[path])
      decreases files
    {
      var path :| path in files;
      if !FileCurrent(disk, path, entry.files[path]) {
        return false;
      }
      files := files - {path};
    }
    var directories := entry.directories.Keys;
    while directories != {}
      invariant directories <= entry.directories.Keys
      invariant forall d :: d in entry.directories && d !in directories ==>
        d in disk.listings && disk.listings[d] == entry.directories[d]
      decreases directories
    {
      var d :| d in directories;
      if d !in disk.listings || disk.listings[d] != entry.directories[d] {
        return false;
      }
      directories := directories - {d};
    }
    return true;
  }

  method IsAffected(entry: Retained, changed: set<Path>, w: World) returns (affected: bool)
    ensures affected <==> Affected(entry, changed, w)
  {
    var rest := changed;
    while rest != {}
      invariant rest <= changed
      invariant forall path :: path in changed && path !in rest ==>
        path !in entry.files && w.directory(path) !in entry.directories
      decreases rest
    {
      var path :| path in rest;
      if path in entry.files || w.directory(path) in entry.directories {
        return true;
      }
      rest := rest - {path};
    }
    return false;
  }

  lemma NotesForMore(r: Round, keys: set<GroupKey>, key: GroupKey)
    requires key in r.previous
    ensures NotesFor(r, keys + {key}) == NotesFor(r, keys) + {Note(key.root, r.previous[key].result.roots)}
  {
  }

  /** One more entry is marked. */
  method MarkEntry(t: Tables, r: Round, key: GroupKey, ghost keys: set<GroupKey>,
                   ghost notes: set<Note>) returns (u: Tables)
    requires key in r.previous && Records(t, notes + NotesFor(r, keys))
    ensures Records(u, notes + NotesFor(r, keys + {key}))
  {
    hide Records;
    var n := Note(key.root, r.previous[key].result.roots);
    NotesForMore(r, keys, key);
    PutRecords(t, notes + NotesFor(r, keys), n);
    assert notes + NotesFor(r, keys) + {n} == notes + NotesFor(r, keys + {key});
    u := Put(t, n);
  }

  lemma NothingRecorded(r: Round)
    ensures Records(Tables(map[], {}), {} + NotesFor(r, {}))
  {
  }

  /** `lspWorkspaceInvalidation`. */
  method InvalidateEntries(r: Round) returns (t: Tables)
    ensures Records(t, ClosedOrOutdated(r))
  {
    hide Records, NotesFor, Differs;
    t := Tables(map[], {});
    var current: set<GroupKey> := {};
    ghost var marked: set<GroupKey> := {};
    NothingRecorded(r);
    for i := 0 to |r.groups|
      invariant forall key :: key in current <==> HasKey(r.groups[..i], key)
      invariant forall key :: key in marked <==>
        key in r.previous && exists j :: 0 <= j < i && r.groups[j].key == key && Differs(r, r.groups[j])
      invariant Records(t, {} + NotesFor(r, marked))
    {
      var g := r.groups[i];
      HasKeySnoc(r.groups, i);
      current := current + {g.key};
      if g.key !in r.previous {
        continue;
      }
      var differs := GroupDiffers(r, g);
      if differs {
        t := MarkEntry(t, r, g.key, marked, {});
        marked := marked + {g.key};
      }
    }
    assert r.groups[..|r.groups|] == r.groups;
    var rest := r.previous.Keys;
    ghost var outdated := marked;
    while rest != {}
      invariant rest <= r.previous.Keys
      invariant forall key :: key in marked <==>
        key in outdated || (key in r.previous && key !in rest && !HasKey(r.groups, key))
      invariant Records(t, {} + NotesFor(r, marked))
      decreases rest
    {
      var key :| key in rest;
      if key !in current {
        t := MarkEntry(t, r, key, marked, {});
        marked := marked + {key};
      }
      rest := rest - {key};
    }
    assert marked == set key | key in r.previous && Outdated(r, key);
    assert {} + NotesFor(r, marked) == NotesFor(r, marked);
  }

  method GroupDiffers(r: Round, g: Group) returns (differs: bool)
    requires g.key in r.previous
    ensures differs <==> Differs(r, g)
  {
    var same := EqualDocuments(r.previous[g.key].documents, g.documents);
    if !same {
      return true;
    }
    var current := IsCurrent(r.previous[g.key], r.disk);
    return !current;
  }

  lemma HasKeySnoc(groups: seq<Group>, i: nat)
    requires i < |groups|
    ensures forall key :: HasKey(groups[..i + 1], key) <==> HasKey(groups[..i], key) || groups[i].key == key
  {
    assert groups[..i + 1] == groups[..i] + [groups[i]];
  }

  /** `lspWorkspaceWatchedInvalidation`. */
  method InvalidateWatched(w: World, r: Round, t: Tables, ghost notes: set<Note>) returns (u: Tables)
    requires Records(t, notes)
    ensures Records(u, notes + Watched(w, r))
  {
    hide Records, NotesFor, Affected;
    u := t;
    ghost var marked: set<GroupKey> := {};
    assert notes + NotesFor(r, marked) == notes by { NothingMarked(r); }
    var rest := r.previous.Keys;
    while rest != {}
      invariant rest <= r.previous.Keys
      invariant forall key :: key in marked <==>
        key in r.previous && key !in rest && Affected(r.previous[key], r.changed, w)
      invariant Records(u, notes + NotesFor(r, marked))
      decreases rest
    {
      var key :| key in rest;
      var affected := IsAffected(r.previous[key], r.changed, w);
      if affected {
        u := MarkEntry(u, r, key, marked, notes);
        marked := marked + {key};
      }
      rest := rest - {key};
    }
    assert marked == set key | key in r.previous && Affected(r.previous[key], r.changed, w);
  }

  lemma NothingMarked(r: Round)
    ensures NotesFor(r, {}) == {}
  {
  }

  /** Under an invalidate-all every open root is invalid. */
  method InvalidateEverything(r: Round, t: Tables, ghost notes: set<Note>) returns (u: Tables)
    requires Records(t, notes)
    ensures Records(u, notes + Everything(r, r.groups))
  {
    hide Records;
    u := t;
    assert notes + {} == notes;
    if r.all {
      assert Everything(r, r.groups[..0]) == {};
      for i := 0 to |r.groups|
        invariant Records(u, notes + Everything(r, r.groups[..i]))
      {
        var n := Note(r.groups[i].key.root, []);
        assert Everything(r, r.groups[..i + 1]) == Everything(r, r.groups[..i]) + {n} by { EverythingSnoc(r, i); }
        PutRecords(u, notes + Everything(r, r.groups[..i]), n);
        assert notes + Everything(r, r.groups[..i]) + {n} == notes + Everything(r, r.groups[..i + 1]);
        u := Put(u, n);
      }
      assert r.groups[..|r.groups|] == r.groups;
    }
  }

  lemma EverythingSnoc(r: Round, i: nat)
    requires r.all && i < |r.groups|
    ensures Everything(r, r.groups[..i + 1]) == Everything(r, r.groups[..i]) + {Note(r.groups[i].key.root, [])}
  {
    assert r.groups[..i + 1] == r.groups[..i] + [r.groups[i]];
  }

  // ---------- Analysing what is not retained ----------

  /** Without root packages a finished analysis counts as failed. */
  function Checked(attempt: Attempt): Attempt {
    if attempt.result.roots == [] then attempt.(failed := true) else attempt
  }

  ghost predicate DistinctKeys(groups: seq<Group>) {
    forall i, j :: 0 <= i < j < |groups| ==> groups[i].key != groups[j].key
  }

  /** The attempts are those of the first groups that were not retained. */
  ghost predicate Attempted(w: World, r: Round, attempts: map<GroupKey, Attempt>, upto: nat)
    requires upto <= |r.groups|
  {
    && (forall key :: key in attempts ==> exists i :: 0 <= i < upto && r.groups[i].key == key && key !in r.previous)
    && (forall i :: 0 <= i < upto && r.groups[i].key !in r.previous ==>
         r.groups[i].key in attempts && attempts[r.groups[i].key] == Checked(AttemptOf(w, r, r.groups[i])))
  }

  /** Groups without an entry are analysed first; what they turn out to be about invalidates entries in turn. */
  method AttemptOpened(w: World, r: Round, t: Tables, canceled: nat -> bool, ghost notes: set<Note>)
      returns (attempts: Option<map<GroupKey, Attempt>>, u: Tables)
    requires Records(t, notes) && DistinctKeys(r.groups)
    ensures attempts.Some? ==> Attempted(w, r, attempts.value, |r.groups|) && Records(u, notes + Opened(w, r, r.groups))
  {
    hide Records, AttemptOf, Opened, Attempted, DistinctKeys;
    u := t;
    var done: map<GroupKey, Attempt> := map[];
    NothingAttempted(w, r);
    assert notes + {} == notes;
    for i := 0 to |r.groups|
      invariant Attempted(w, r, done, i)
      invariant Records(u, notes + Opened(w, r, r.groups[..i]))
    {
      var g := r.groups[i];
      OpenedSnoc(w, r, i);
      AttemptedStep(w, r, done, i);
      if g.key in r.previous {
        assert Opened(w, r, r.groups[..i + 1]) == Opened(w, r, r.groups[..i]);
        continue;
      }
      if canceled(i) {
        return None, u;
      }
      var attempt := AttemptOf(w, r, g);
      if attempt.result.roots == [] && attempt.canceled {
        return None, u;
      }
      done := done[g.key := Checked(attempt)];
      u := Announce(u, Note(g.key.root, AttemptRoots(attempt)), notes, Opened(w, r, r.groups[..i]));
    }
    assert r.groups[..|r.groups|] == r.groups;
    return Some(done), u;
  }

  method Announce(t: Tables, n: Note, ghost notes: set<Note>, ghost more: set<Note>) returns (u: Tables)
    requires Records(t, notes + more)
    ensures Records(u, notes + (more + {n}))
  {
    hide Records;
    PutRecords(t, notes + more, n);
    assert notes + more + {n} == notes + (more + {n});
    u := Put(t, n);
  }

  lemma NothingAttempted(w: World, r: Round)
    ensures Attempted(w, r, map[], 0) && Opened(w, r, r.groups[..0]) == {}
  {
  }

  lemma AttemptedStep(w: World, r: Round, done: map<GroupKey, Attempt>, i: nat)
    requires i < |r.groups| && DistinctKeys(r.groups) && Attempted(w, r, done, i)
    ensures if r.groups[i].key in r.previous then Attempted(w, r, done, i + 1)
            else Attempted(w, r, done[r.groups[i].key := Checked(AttemptOf(w, r, r.groups[i]))], i + 1)
  {
    hide AttemptOf;
  }

  lemma OpenedSnoc(w: World, r: Round, i: nat)
    requires i < |r.groups|
    ensures Opened(w, r, r.groups[..i + 1]) == Opened(w, r, r.groups[..i]) +
      if r.groups[i].key in r.previous then {}
        else {Note(r.groups[i].key.root, AttemptRoots(AttemptOf(w, r, r.groups[i])))}
  {
    assert r.groups[..i + 1] == r.groups[..i] + [r.groups[i]];
  }

  // ---------- Reuse ----------

  /** `lspPackageEntryIntersects`. */
  method Intersects(entry: Retained, packages: set<PackagePath>) returns (found: bool)
    ensures found <==> exists p :: p in packages && (p in entry.result.roots || p in entry.result.dependencies)
  {
    for i := 0 to |entry.result.roots|
      invariant forall j :: 0 <= j < i ==> entry.result.roots[j] !in packages
    {
      if entry.result.roots[i] in packages {
        return true;
      }
    }
    for i := 0 to |entry.result.dependencies|
      invariant forall j :: 0 <= j < i ==> entry.result.dependencies[j] !in packages
    {
      if entry.result.dependencies[i] in packages {
        return true;
      }
    }
    return false;
  }

  method IsReused(w: World, r: Round, t: Tables, g: Group) returns (reused: bool)
    requires Records(t, Notes(w, r))
    ensures reused <==> Reused(w, r, g)
  {
    hide Notes, SameDocuments;
    if !w.prepares(g.key.root, r.documents) || g.key !in r.previous {
      return false;
    }
    var entry := r.previous[g.key];
    var same := EqualDocuments(entry.documents, g.documents);
    var invalid := if g.key.root in t.packages then t.packages[g.key.root] else {};
    var meets := Intersects(entry, invalid);
    TablesDecide(t, Notes(w, r), entry, g.key.root);
    return same && g.key.root !in t.roots && !meets;
  }

  lemma TablesDecide(t: Tables, notes: set<Note>, entry: Retained, root: Path)
    requires Records(t, notes)
    ensures var invalid := if root in t.packages then t.packages[root] else {};
      (root !in t.roots
        && forall p :: p in invalid ==> p !in entry.result.roots && p !in entry.result.dependencies) <==>
      Untouched(entry, root, notes)
  {
    var invalid := if root in t.packages then t.packages[root] else {};
    assert forall p: PackagePath :: p in invalid <==> Listed(t, root, p);
    if root !in t.roots && !exists p :: p in invalid && (p in entry.result.roots || p in entry.result.dependencies) {
      forall n | n in notes && n.root == root
        ensures n.packages != []
          && forall p :: p in n.packages ==> p !in entry.result.roots && p !in entry.result.dependencies
      {
        assert n.packages == [] ==> SaysAll(notes, root);
        assert forall p :: p in n.packages ==> Says(notes, root, p);
      }
    }
    if Untouched(entry, root, notes) {
      assert !SaysAll(notes, root);
      forall p | p in invalid
        ensures p !in entry.result.roots && p !in entry.result.dependencies
      {
        assert Says(notes, root, p);
      }
    }
  }

  // ---------- The next table ----------

  /** The result a group gets: the retained one, or that of an analysis. */
  ghost function Answer(w: World, r: Round, g: Group): Option<Analyzed> {
    if Reused(w, r, g) then Some(r.previous[g.key].result)
    else
      var attempt := if g.key in r.previous then AttemptOf(w, r, g) else Checked(AttemptOf(w, r, g));
      if attempt.failed then None else Some(attempt.result)
  }

  /** Every document of the group was reported, from the text the editor holds. */
  predicate Complete(g: Group, result: Analyzed) {
    forall path :: path in g.documents ==>
      path in result.reported && path in result.sources && result.sources[path] == g.documents[path]
  }

  predicate CanCapture(result: Analyzed, disk: Disk) {
    && (forall path :: path in result.control ==> !OnDisk(disk, path).Unreadable?)
    && forall d :: d in result.directories ==> d in disk.listings
  }

  function SnapshotOf(disk: Disk, path: Path): FileSnapshot {
    if OnDisk(disk, path).Holds? then Some(OnDisk(disk, path).digest) else None
  }

  /** `captureLSPWorkspaceFilesystem`: the sources not open in the editor, and the control files. */
  function CapturedFiles(result: Analyzed, overlay: map<Path, Digest>, disk: Disk): map<Path, FileSnapshot> {
    map path | path in result.sources.Keys - overlay.Keys + result.control ::
      if path in result.control then SnapshotOf(disk, path) else Some(result.sources[path])
  }

  function CapturedDirectories(result: Analyzed, disk: Disk): map<Path, Digest> {
    map d | d in result.directories && d in disk.listings :: disk.listings[d]
  }

  function NewEntry(w: World, r: Round, g: Group, result: Analyzed, used: nat): Retained {
    Entry(result, g.documents, CapturedFiles(result, Overlay(w, r.documents, g.key.root), r.disk),
      CapturedDirectories(result, r.disk), used)
  }

  ghost predicate Retains(w: World, r: Round, g: Group) {
    var answer := Answer(w, r, g);
    answer.Some? && Complete(g, answer.value) && CanCapture(answer.value, r.disk)
  }

  /** The table has an entry for the group exactly if its result is worth retaining. */
  ghost predicate Slot(w: World, r: Round, next: map<GroupKey, Retained>, g: Group) {
    && (g.key in next <==> Retains(w, r, g))
    && (Retains(w, r, g) ==> next[g.key] == NewEntry(w, r, g, Answer(w, r, g).value, next[g.key].used))
  }

  /** The table of the first groups; later groups count as more recently used. */
  ghost predicate IsNext(w: World, r: Round, next: map<GroupKey, Retained>, upto: nat, clock: nat)
    requires upto <= |r.groups|
  {
    && (forall i :: 0 <= i < upto ==> Slot(w, r, next, r.groups[i]))
    && (forall key :: key in next ==> next[key].used <= clock && exists i :: 0 <= i < upto && r.groups[i].key == key)
    && forall i, j :: 0 <= i < j < upto && r.groups[i].key in next && r.groups[j].key in next ==>
         next[r.groups[i].key].used < next[r.groups[j].key].used
  }

  /** What is left of the next table within the bound. */
  ghost predicate IsNextBounded(w: World, r: Round, entries: map<GroupKey, Retained>) {
    exists next, clock :: IsNext(w, r, next, |r.groups|, clock) && IsBounded(entries, next)
  }

  lemma NextSkips(w: World, r: Round, next: map<GroupKey, Retained>, i: nat, clock: nat)
    requires i < |r.groups| && DistinctKeys(r.groups) && IsNext(w, r, next, i, clock) && !Retains(w, r, r.groups[i])
    ensures IsNext(w, r, next, i + 1, clock)
  {
    hide Retains, NewEntry, Answer, DistinctKeys;
    KeyIsNew(r.groups, i);
    assert Slot(w, r, next, r.groups[i]);
  }

  lemma NextGrows(w: World, r: Round, next: map<GroupKey, Retained>, i: nat, clock: nat)
    requires i < |r.groups| && DistinctKeys(r.groups) && IsNext(w, r, next, i, clock) && Retains(w, r, r.groups[i])
    ensures IsNext(w, r,
      next[r.groups[i].key := NewEntry(w, r, r.groups[i], Answer(w, r, r.groups[i]).value, clock + 1)], i + 1, clock
      + 1)
  {
    hide Retains, NewEntry, Answer, DistinctKeys, Slot;
    var g := r.groups[i];
    KeyIsNew(r.groups, i);
    NewSlot(w, r, next, g, clock + 1);
    var larger := next[g.key := NewEntry(w, r, g, Answer(w, r, g).value, clock + 1)];
    forall j | 0 <= j < i
      ensures Slot(w, r, larger, r.groups[j])
    {
      OtherSlot(w, r, next, larger, r.groups[j]);
    }
  }

  lemma NewSlot(w: World, r: Round, next: map<GroupKey, Retained>, g: Group, used: nat)
    requires Retains(w, r, g)
    ensures Answer(w, r, g).Some? && NewEntry(w, r, g, Answer(w, r, g).value, used).used == used
    ensures Slot(w, r, next[g.key := NewEntry(w, r, g, Answer(w, r, g).value, used)], g)
  {
    hide Answer;
    RetainsAnswers(w, r, g);
  }

  lemma OtherSlot(w: World, r: Round, next: map<GroupKey, Retained>, larger: map<GroupKey, Retained>, g: Group)
    requires Slot(w, r, next, g) && (g.key in larger <==> g.key in next)
    requires (g.key in next ==> larger[g.key] == next[g.key])
    ensures Slot(w, r, larger, g)
  {
    hide Retains, Answer, NewEntry;
  }

  lemma RetainsAnswers(w: World, r: Round, g: Group)
    requires Retains(w, r, g)
    ensures Answer(w, r, g).Some?
  {
  }

  lemma KeyIsNew(groups: seq<Group>, i: nat)
    requires i < |groups| && DistinctKeys(groups)
    ensures forall j :: 0 <= j < i ==> groups[j].key != groups[i].key
  {
  }

  ghost predicate Answered(w: World, r: Round, results: map<GroupKey, Option<Analyzed>>, upto: nat)
    requires upto <= |r.groups|
  {
    forall i :: 0 <= i < upto ==> r.groups[i].key in results && results[r.groups[i].key] == Answer(w, r, r.groups[i])
  }

  class Workspace {
    var entries: map<GroupKey, Retained>
    var clock: nat

    constructor ()
      ensures entries == map[] && clock == 0
    {
      entries, clock := map[], 0;
    }

    /** The part of `AnalyzeWorkspace` on the grouped documents.  A canceled call leaves the table alone. */
    method AnalyzeWorkspace(w: World, groups: seq<Group>, documents: map<Path, Digest>, changed: set<Path>, all: bool,
                            disk: Disk,
                            canceled: nat -> bool, canceledLater: nat -> bool)
        returns (results: Option<map<GroupKey, Option<Analyzed>>>)
      requires DistinctKeys(groups)
      modifies this
      ensures results.None? ==> entries == old(entries)
      ensures results.Some? ==> var r := Round(old(entries), groups, documents, changed, all, disk);
        && Answered(w, r, results.value, |groups|)
        && IsNextBounded(w, r, entries)
    {
      hide Records, Notes, IsNext, Attempted, Answer, NewEntry, ClosedOrOutdated, Watched, Everything, Opened,
        DistinctKeys, IsBounded, Answered;
      var r := Round(entries, groups, documents, changed, all, disk);
      var t := InvalidateEntries(r);
      t := InvalidateWatched(w, r, t, ClosedOrOutdated(r));
      t := InvalidateEverything(r, t, ClosedOrOutdated(r) + Watched(w, r));
      var attempts;
      attempts, t := AttemptOpened(w, r, t, canceled, ClosedOrOutdated(r) + Watched(w, r) + Everything(r, r.groups));
      if attempts.None? {
        return None;
      }
      NotesAreAll(w, r);
      results := Some(map[]);
      var next: map<GroupKey, Retained> := map[];
      NothingNext(w, r, clock);
      assert Answered(w, r, map[], 0) by { NothingAnswered(w, r); }
      for i := 0 to |groups|
        invariant entries == old(entries)
        invariant results.Some? && Answered(w, r, results.value, i)
        invariant IsNext(w, r, next, i, clock)
      {
        if canceledLater(i) {
          return None;
        }
        var g := groups[i];
        var answer := AnswerGroup(w, r, t, g, attempts.value);
        AnsweredMore(w, r, results.value, i, answer);
        results := Some(results.value[g.key := answer]);
        if answer.None? || !Complete(g, answer.value) || !CanCapture(answer.value, disk) {
          NextSkips(w, r, next, i, clock);
          continue;
        }
        NextGrows(w, r, next, i, clock);
        assert answer == Answer(w, r, g);
        clock := clock + 1;
        next := next[g.key := NewEntry(w, r, g, answer.value, clock)];
      }
      entries := Bound(next);
    }
  }

  lemma NotesAreAll(w: World, r: Round)
    ensures ClosedOrOutdated(r) + Watched(w, r) + Everything(r, r.groups) + Opened(w, r, r.groups) == Notes(w, r)
  {
  }

  lemma NothingNext(w: World, r: Round, clock: nat)
    ensures IsNext(w, r, map[], 0, clock)
  {
  }

  lemma NothingAnswered(w: World, r: Round)
    ensures Answered(w, r, map[], 0)
  {
  }

  lemma AnsweredMore(w: World, r: Round, results: map<GroupKey, Option<Analyzed>>, i: nat, answer: Option<Analyzed>)
    requires i < |r.groups| && DistinctKeys(r.groups) && Answered(w, r, results, i)
    requires answer == Answer(w, r, r.groups[i])
    ensures Answered(w, r, results[r.groups[i].key := answer], i + 1)
  {
    hide Answer;
  }

  /** The retained result if it can be reused, else that of the attempt already made, else that of a new one. */
  method AnswerGroup(w: World, r: Round, t: Tables, g: Group,
                     attempts: map<GroupKey, Attempt>) returns (answer: Option<Analyzed>)
    requires g in r.groups && DistinctKeys(r.groups) && Records(t, Notes(w, r)) && Attempted(w, r, attempts, |r.groups|)
    ensures answer == Answer(w, r, g)
  {
    hide Records, Notes, AttemptOf, Untouched;
    var reused := IsReused(w, r, t, g);
    if g.key in attempts {
      var attempt := attempts[g.key];
      return if attempt.failed then None else Some(attempt.result);
    }
    if reused {
      return Some(r.previous[g.key].result);
    }
    var attempt := AttemptOf(w, r, g);
    return if attempt.failed then None else Some(attempt.result);
  }
}
