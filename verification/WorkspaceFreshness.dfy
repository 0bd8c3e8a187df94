/** When a reused workspace result equals a new analysis (the reuse decision of AnalyzeWorkspace in
    internal/cli/lsp.go). */
module WorkspaceFreshness {
  import opened Encoding
  import opened Ordering
  import opened WorkspaceEntries
  import opened WorkspaceReuse
  import opened Wrappers

  /** How documents and files fall into packages: the package a file with given contents belongs to, the editor group
      of an open document (none if it does not parse or its rules need no types), the package of a group, and whether
      a directory listing with a given digest names a file. */
  datatype Tools = Tools(
    packageOf: (Path, Digest) -> Option<PackagePath>, keyOf: (Path, Digest) -> Option<GroupKey>,
    package: GroupKey -> PackagePath, lists: (Digest, Path) -> bool)

  // ---------- What an analysis depends on ----------

  function ReadOf(v: View, path: Path): Read {
    if path in v.overlay then Holds(v.overlay[path]) else OnDisk(v.disk, path)
  }

  predicate IsAbout(result: Analyzed, package: PackagePath) {
    package in result.roots || package in result.dependencies
  }

  /** The contents of a file as far as it belongs to the packages of a result. */
  function Relevant(tools: Tools, result: Analyzed, v: View, path: Path): Option<Digest> {
    match ReadOf(v, path)
    case Holds(digest) =>
      var package := tools.packageOf(path, digest);
      if package.Some? && IsAbout(result, package.value) then Some(digest) else None
    case _ => None
  }

  /** Two views show the same files of the packages of a result, and the same control files. */
  ghost predicate Agrees(tools: Tools, result: Analyzed, v: View, u: View) {
    && (forall path: Path :: Relevant(tools, result, v, path) == Relevant(tools, result, u, path))
    && forall path :: path in result.control ==> OnDisk(v.disk, path) == OnDisk(u.disk, path)
  }

  ghost predicate ListsItsSources(tools: Tools, result: Analyzed, v: View) {
    forall path: Path :: Relevant(tools, result, v, path) ==
      if path in result.sources then Some(result.sources[path]) else None
  }

  /** Analysis depends only on the files of its root and dependency packages, which are its sources, and on its
      control files; and the root packages of a group include the group's own. */
  ghost predicate Lawful(tools: Tools, w: World) {
    && (forall g, v :: !w.analyze(g, v).failed ==> ListsItsSources(tools, w.analyze(g, v).result, v))
    && (forall g, v, u :: !w.analyze(g, v).failed && Agrees(tools, w.analyze(g, v).result, v, u) ==>
         !w.analyze(g, u).failed && w.analyze(g, u).result == w.analyze(g, v).result)
    && (forall g, v :: AttemptRoots(w.analyze(g, v)) != [] ==> tools.package(g.key) in AttemptRoots(w.analyze(g, v)))
    && (forall path, digest :: tools.keyOf(path, digest).Some? && tools.packageOf(path, digest).Some? ==>
         tools.packageOf(path, digest).value == tools.package(tools.keyOf(path, digest).value))
  }

  /** A listing names exactly the files that belong to packages. */
  ghost predicate Listing(tools: Tools, w: World, disk: Disk) {
    forall path: Path, digest: Digest :: tools.packageOf(path, digest).Some? && w.directory(path) in disk.listings ==>
      (tools.lists(disk.listings[w.directory(path)], path) <==> path in disk.files)
  }

  // ---------- Sound tables ----------

  /** The documents of one group. */
  ghost predicate DocumentsOf(tools: Tools, key: GroupKey, all: map<Path, Digest>, own: map<Path, Digest>) {
    && (forall path :: path in own <==> path in all && tools.keyOf(path, all[path]) == Some(key))
    && forall path :: path in own ==> own[path] == all[path]
  }

  ghost predicate Grouped(tools: Tools, documents: map<Path, Digest>, groups: seq<Group>) {
    && DistinctKeys(groups)
    && (forall g :: g in groups ==> DocumentsOf(tools, g.key, documents, g.documents))
    && forall path :: path in documents && tools.keyOf(path, documents[path]).Some? ==>
         HasKey(groups, tools.keyOf(path, documents[path]).value)
  }

  /** The entry is what analysing its group among those documents gives. */
  ghost predicate SoundEntry(tools: Tools, w: World, key: GroupKey, e: Retained, documents: map<Path, Digest>,
                             disk: Disk)
  {
    var attempt := w.analyze(Group(key, e.documents), ViewOf(w, documents, disk, key.root));
    && DocumentsOf(tools, key, documents, e.documents)
    && !attempt.failed && e.result == attempt.result && CanCapture(e.result, disk)
    && e.files == CapturedFiles(e.result, Overlay(w, documents, key.root), disk)
    && e.directories == CapturedDirectories(e.result, disk)
  }

  ghost predicate SoundTable(tools: Tools, w: World, entries: map<GroupKey, Retained>, documents: map<Path, Digest>,
                             disk: Disk)
  {
    forall key :: key in entries ==> SoundEntry(tools, w, key, entries[key], documents, disk)
  }

  /** A round on a table that is sound for the documents and the disk of the last one. */
  ghost predicate Setting(tools: Tools, w: World, r: Round, documents: map<Path, Digest>, disk: Disk) {
    && Lawful(tools, w) && SoundTable(tools, w, r.previous, documents, disk) && Grouped(tools, r.documents, r.groups)
    && NonZero(documents) && Listing(tools, w, disk) && Listing(tools, w, r.disk)
  }

  // ---------- What a reuse rules out ----------

  lemma UntouchedByNotes(w: World, r: Round, g: Group, n: Note, package: PackagePath)
    requires Reused(w, r, g) && n in Notes(w, r) && n.root == g.key.root
    ensures n.packages != [] && (package in n.packages ==> !IsAbout(r.previous[g.key].result, package))
  {
  }

  /** No group whose package the reused result is about is outdated, or touched by a watched change. */
  lemma NothingItIsAboutChanged(tools: Tools, w: World, r: Round, documents: map<Path, Digest>, disk: Disk, g: Group,
                                key: GroupKey)
    requires Setting(tools, w, r, documents, disk) && Reused(w, r, g)
    requires key in r.previous && key.root == g.key.root && IsAbout(r.previous[g.key].result, tools.package(key))
    ensures !Outdated(r, key) && !Affected(r.previous[key], r.changed, w)
  {
    hide Reused, Outdated, Affected;
    var n := Note(key.root, r.previous[key].result.roots);
    var attempt := w.analyze(Group(key, r.previous[key].documents), ViewOf(w, documents, disk, key.root));
    assert SoundEntry(tools, w, key, r.previous[key], documents, disk);
    assert AttemptRoots(attempt) != [] ==> tools.package(key) in AttemptRoots(attempt);
    if Outdated(r, key) {
      assert n in ClosedOrOutdated(r);
      UntouchedByNotes(w, r, g, n, tools.package(key));
    }
    if Affected(r.previous[key], r.changed, w) {
      assert n in Watched(w, r);
      UntouchedByNotes(w, r, g, n, tools.package(key));
    }
  }

  lemma OpenedIsNotItsOwn(tools: Tools, w: World, r: Round, g: Group, other: Group)
    requires Lawful(tools, w) && Reused(w, r, g)
    requires other in r.groups && other.key !in r.previous && other.key.root == g.key.root
    ensures !IsAbout(r.previous[g.key].result, tools.package(other.key))
  {
    var attempt := AttemptOf(w, r, other);
    var n := Note(other.key.root, AttemptRoots(attempt));
    assert n in Opened(w, r, r.groups);
    hide Reused, AttemptOf;
    UntouchedByNotes(w, r, g, n, tools.package(other.key));
    assert attempt == w.analyze(other, ViewOf(w, r.documents, r.disk, other.key.root)) by { AttemptIs(w, r, other); }
  }

  lemma AttemptIs(w: World, r: Round, g: Group)
    requires w.prepares(g.key.root, r.documents)
    ensures AttemptOf(w, r, g) == w.analyze(g, ViewOf(w, r.documents, r.disk, g.key.root))
  {
  }

  /** A group whose package the reused result is about still has the documents of the last round. */
  lemma GroupIsUnchanged(tools: Tools, w: World, r: Round, documents: map<Path, Digest>, disk: Disk, g: Group,
                         key: GroupKey)
    requires Setting(tools, w, r, documents, disk) && g in r.groups && Reused(w, r, g)
    requires key.root == g.key.root && IsAbout(r.previous[g.key].result, tools.package(key))
    ensures HasKey(r.groups, key) ==> key in r.previous
    ensures key in r.previous ==> DocumentsOf(tools, key, r.documents, r.previous[key].documents)
    ensures key in r.previous ==> FilesystemCurrent(r.previous[key], r.disk)
    ensures key in r.previous ==> !Affected(r.previous[key], r.changed, w)
  {
    hide Reused, Affected, FilesystemCurrent, Lawful, SameDocuments, Listing;
    if HasKey(r.groups, key) && key !in r.previous {
      var other :| other in r.groups && other.key == key;
      OpenedIsNotItsOwn(tools, w, r, g, other);
    }
    if key in r.previous {
      NothingItIsAboutChanged(tools, w, r, documents, disk, g, key);
      var same :| same in r.groups && same.key == key;
      assert !Differs(r, same);
      assert SoundEntry(tools, w, key, r.previous[key], documents, disk);
      SameDocumentsIsEquality(r.previous[key].documents, same.documents);
    }
  }

  /** The reused result is about its own package. */
  lemma OwnPackage(tools: Tools, w: World, r: Round, documents: map<Path, Digest>, disk: Disk, g: Group)
    requires Setting(tools, w, r, documents, disk) && g.key in r.previous
    ensures var e := r.previous[g.key]; e.result.roots != [] ==> IsAbout(e.result, tools.package(g.key))
  {
    var e := r.previous[g.key];
    assert SoundEntry(tools, w, g.key, e, documents, disk);
    var attempt := w.analyze(Group(g.key, e.documents), ViewOf(w, documents, disk, g.key.root));
    assert AttemptRoots(attempt) != [] ==> tools.package(g.key) in AttemptRoots(attempt);
  }

  lemma OwnIsUnchanged(tools: Tools, w: World, r: Round, documents: map<Path, Digest>, disk: Disk, g: Group)
    requires Setting(tools, w, r, documents, disk) && g in r.groups && Reused(w, r, g)
    ensures var e := r.previous[g.key];
      e.documents == g.documents && FilesystemCurrent(e, r.disk) && !Affected(e, r.changed, w)
  {
    hide FilesystemCurrent, Affected, Lawful, Listing, SameDocuments;
    var e := r.previous[g.key];
    assert SoundEntry(tools, w, g.key, e, documents, disk);
    SameDocumentsIsEquality(e.documents, g.documents);
    OwnPackage(tools, w, r, documents, disk, g);
    if e.result.roots != [] {
      GroupIsUnchanged(tools, w, r, documents, disk, g, g.key);
    } else {
      RootlessIsUnchanged(w, r, g);
    }
  }

  lemma RootlessIsUnchanged(w: World, r: Round, g: Group)
    requires g in r.groups && g.key in r.previous && Reused(w, r, g) && r.previous[g.key].result.roots == []
    ensures FilesystemCurrent(r.previous[g.key], r.disk) && !Affected(r.previous[g.key], r.changed, w)
  {
    hide Reused, Affected, FilesystemCurrent, SameDocuments;
    var n := Note(g.key.root, r.previous[g.key].result.roots);
    if !FilesystemCurrent(r.previous[g.key], r.disk) {
      assert Differs(r, g) && Outdated(r, g.key);
      assert n in ClosedOrOutdated(r);
      UntouchedByNotes(w, r, g, n, []);
    }
    if Affected(r.previous[g.key], r.changed, w) {
      assert n in Watched(w, r);
      UntouchedByNotes(w, r, g, n, []);
    }
  }

  // ---------- Changes a round notices ----------

  /** A file of the result's packages that is no longer there as it was: a file on disk, or an open document of a group
      under the same root that has an entry or is still open. */
  ghost predicate NoticesLoss(tools: Tools, w: World, r: Round, documents: map<Path, Digest>, root: Path, path: Path) {
    if path in Overlay(w, documents, root) then
      var key := tools.keyOf(path, documents[path]);
      key.Some? && key.value.root == root && (key.value in r.previous || HasKey(r.groups, key.value))
    else
      path !in Overlay(w, r.documents, root)
  }

  /** A file that now is in the result's packages: an open document of a group under the same root, or a file on disk
      that is new or reported in a directory of the result. */
  ghost predicate NoticesGain(tools: Tools, w: World, r: Round, documents: map<Path, Digest>, disk: Disk, root: Path,
                              e: Retained, path: Path)
  {
    if path in Overlay(w, r.documents, root) then
      var key := tools.keyOf(path, r.documents[path]);
      key.Some? && key.value.root == root
    else
      && path !in Overlay(w, documents, root) && w.directory(path) in e.directories
      && (path !in disk.files || path in r.changed)
  }

  /** A change to the files of the result's packages that a round does not notice. */
  ghost predicate Missed(tools: Tools, w: World, r: Round, documents: map<Path, Digest>, disk: Disk, root: Path,
                         e: Retained,
                         path: Path)
  {
    var v, u := ViewOf(w, documents, disk, root), ViewOf(w, r.documents, r.disk, root);
    var before, after := Relevant(tools, e.result, v, path), Relevant(tools, e.result, u, path);
    && ReadOf(v, path) != ReadOf(u, path) && (before.Some? || after.Some?)
    && (before.Some? ==> !NoticesLoss(tools, w, r, documents, root, path))
    && (after.Some? ==> !NoticesGain(tools, w, r, documents, disk, root, e, path))
  }

  ghost predicate NothingMissed(tools: Tools, w: World, r: Round, documents: map<Path, Digest>, disk: Disk, g: Group)
    requires g.key in r.previous
  {
    forall path: Path :: !Missed(tools, w, r, documents, disk, g.key.root, r.previous[g.key], path)
  }

  lemma SnapshotIsCurrent(disk: Disk, now: Disk, path: Path)
    requires !OnDisk(disk, path).Unreadable? && FileCurrent(now, path, SnapshotOf(disk, path))
    ensures OnDisk(now, path) == OnDisk(disk, path)
  {
  }

  /** A file on disk that the entry tracks is as it was. */
  lemma TrackedIsUnchanged(w: World, e: Retained, overlay: map<Path, Digest>, disk: Disk, now: Disk, path: Path)
    requires CanCapture(e.result, disk) && e.files == CapturedFiles(e.result, overlay, disk)
    requires FilesystemCurrent(e, now)
    requires path in e.result.control || (path in e.result.sources && path !in overlay)
    ensures path in e.result.control ==> OnDisk(now, path) == OnDisk(disk, path)
    ensures path !in e.result.control ==> OnDisk(now, path) == Holds(e.result.sources[path])
  {
    assert path in e.files && FileCurrent(now, path, e.files[path]);
    if path in e.result.control {
      SnapshotIsCurrent(disk, now, path);
    }
  }

  lemma LossIsImpossible(tools: Tools, w: World, r: Round, documents: map<Path, Digest>, disk: Disk, g: Group,
                         path: Path)
    requires Setting(tools, w, r, documents, disk) && g in r.groups && g.key in r.previous && Reused(w, r, g)
    requires NoticesLoss(tools, w, r, documents, g.key.root, path)
    ensures var result := r.previous[g.key].result;
      var before := Relevant(tools, result, ViewOf(w, documents, disk, g.key.root), path);
      before.Some? ==> Relevant(tools, result, ViewOf(w, r.documents, r.disk, g.key.root), path) == before
  {
    hide Reused, FilesystemCurrent, SoundEntry, Relevant;
    var e, root := r.previous[g.key], g.key.root;
    var v := ViewOf(w, documents, disk, root);
    if Relevant(tools, e.result, v, path).Some? {
      if path in v.overlay {
        OpenIsUnchanged(tools, w, r, documents, disk, g, path);
      } else {
        OnDiskIsUnchanged(tools, w, r, documents, disk, g, path);
      }
      SameReadSameRelevance(tools, e.result, v, ViewOf(w, r.documents, r.disk, root), path);
    }
  }

  lemma SameReadSameRelevance(tools: Tools, result: Analyzed, v: View, u: View, path: Path)
    requires ReadOf(v, path) == ReadOf(u, path)
    ensures Relevant(tools, result, v, path) == Relevant(tools, result, u, path)
  {
  }

  lemma OpenIsUnchanged(tools: Tools, w: World, r: Round, documents: map<Path, Digest>, disk: Disk, g: Group,
                        path: Path)
    requires Setting(tools, w, r, documents, disk) && g in r.groups && g.key in r.previous && Reused(w, r, g)
    requires NoticesLoss(tools, w, r, documents, g.key.root, path) && path in Overlay(w, documents, g.key.root)
    requires Relevant(tools, r.previous[g.key].result, ViewOf(w, documents, disk, g.key.root), path).Some?
    ensures ReadOf(ViewOf(w, r.documents, r.disk, g.key.root), path) == Holds(documents[path])
  {
    hide Reused, FilesystemCurrent, SoundTable, Listing, NonZero, Affected;
    var key := tools.keyOf(path, documents[path]).value;
    GroupIsUnchanged(tools, w, r, documents, disk, g, key);
    EntryOf(tools, w, r, documents, disk, key);
    assert path in r.previous[key].documents;
  }

  lemma EntryOf(tools: Tools, w: World, r: Round, documents: map<Path, Digest>, disk: Disk, key: GroupKey)
    requires Setting(tools, w, r, documents, disk) && key in r.previous
    ensures SoundEntry(tools, w, key, r.previous[key], documents, disk)
  {
  }

  lemma OnDiskIsUnchanged(tools: Tools, w: World, r: Round, documents: map<Path, Digest>, disk: Disk, g: Group,
                          path: Path)
    requires Setting(tools, w, r, documents, disk) && g in r.groups && g.key in r.previous && Reused(w, r, g)
    requires path !in Overlay(w, documents, g.key.root) && path !in Overlay(w, r.documents, g.key.root)
    requires Relevant(tools, r.previous[g.key].result, ViewOf(w, documents, disk, g.key.root), path).Some?
    ensures OnDisk(r.disk, path) == OnDisk(disk, path)
  {
    hide Reused, FilesystemCurrent, SoundTable, Listing, NonZero, Affected;
    var e := r.previous[g.key];
    OwnIsUnchanged(tools, w, r, documents, disk, g);
    EntryOf(tools, w, r, documents, disk, g.key);
    assert ListsItsSources(tools, e.result, ViewOf(w, documents, disk, g.key.root));
    TrackedIsUnchanged(w, e, Overlay(w, documents, g.key.root), disk, r.disk, path);
  }

  lemma GainIsImpossible(tools: Tools, w: World, r: Round, documents: map<Path, Digest>, disk: Disk, g: Group,
                         path: Path)
    requires Setting(tools, w, r, documents, disk) && g in r.groups && g.key in r.previous && Reused(w, r, g)
    requires NoticesGain(tools, w, r, documents, disk, g.key.root, r.previous[g.key], path)
    ensures var result := r.previous[g.key].result;
      var after := Relevant(tools, result, ViewOf(w, r.documents, r.disk, g.key.root), path);
      after.Some? ==> Relevant(tools, result, ViewOf(w, documents, disk, g.key.root), path) == after
  {
    hide Reused, FilesystemCurrent, SoundEntry, Relevant;
    var e, root := r.previous[g.key], g.key.root;
    var u := ViewOf(w, r.documents, r.disk, root);
    if Relevant(tools, e.result, u, path).Some? {
      if path in u.overlay {
        WasOpenToo(tools, w, r, documents, disk, g, path);
        SameReadSameRelevance(tools, e.result, ViewOf(w, documents, disk, root), u, path);
      } else {
        WasOnDisk(tools, w, r, documents, disk, g, path);
      }
    }
  }

  lemma WasOpenToo(tools: Tools, w: World, r: Round, documents: map<Path, Digest>, disk: Disk, g: Group, path: Path)
    requires Setting(tools, w, r, documents, disk) && g in r.groups && g.key in r.previous && Reused(w, r, g)
    requires NoticesGain(tools, w, r, documents, disk, g.key.root, r.previous[g.key], path)
    requires path in Overlay(w, r.documents, g.key.root)
    requires Relevant(tools, r.previous[g.key].result, ViewOf(w, r.documents, r.disk, g.key.root), path).Some?
    ensures ReadOf(ViewOf(w, documents, disk, g.key.root), path) == Holds(r.documents[path])
  {
    hide Reused, FilesystemCurrent, SoundTable, Listing, NonZero, Affected;
    var key := tools.keyOf(path, r.documents[path]).value;
    GroupIsUnchanged(tools, w, r, documents, disk, g, key);
    EntryOf(tools, w, r, documents, disk, key);
    assert path in r.previous[key].documents;
  }

  /** Nothing on disk can have joined the packages: the file is not new, and no change of it was reported. */
  lemma WasOnDisk(tools: Tools, w: World, r: Round, documents: map<Path, Digest>, disk: Disk, g: Group, path: Path)
    requires Setting(tools, w, r, documents, disk) && g in r.groups && g.key in r.previous && Reused(w, r, g)
    requires w.directory(path) in r.previous[g.key].directories && (path !in disk.files || path in r.changed)
    requires path !in Overlay(w, r.documents, g.key.root)
    ensures Relevant(tools, r.previous[g.key].result, ViewOf(w, r.documents, r.disk, g.key.root), path).None?
  {
    hide Reused, FilesystemCurrent, SoundTable, NonZero, Lawful;
    var e := r.previous[g.key];
    OwnIsUnchanged(tools, w, r, documents, disk, g);
    EntryOf(tools, w, r, documents, disk, g.key);
    var after := Relevant(tools, e.result, ViewOf(w, r.documents, r.disk, g.key.root), path);
    if after.Some? {
      NewFileIsListed(tools, w, e, disk, r.disk, path, after.value);
    }
  }

  /** In a directory whose listing is as it was there is no new file. */
  lemma NewFileIsListed(tools: Tools, w: World, e: Retained, disk: Disk, now: Disk, path: Path, digest: Digest)
    requires Listing(tools, w, disk) && Listing(tools, w, now) && FilesystemCurrent(e, now)
    requires CanCapture(e.result, disk) && e.directories == CapturedDirectories(e.result, disk)
    requires w.directory(path) in e.directories
    requires tools.packageOf(path, digest).Some?
    ensures path in disk.files <==> path in now.files
  {
  }

  lemma ReadDecidesRelevance(tools: Tools, result: Analyzed, v: View, u: View, path: Path)
    ensures Relevant(tools, result, v, path) != Relevant(tools, result, u, path) <==>
      && ReadOf(v, path) != ReadOf(u, path)
      && (Relevant(tools, result, v, path).Some? || Relevant(tools, result, u, path).Some?)
  {
  }

  /** What reuse rules out, path by path. */
  lemma DifferenceIsMissed(tools: Tools, w: World, r: Round, documents: map<Path, Digest>, disk: Disk, g: Group,
                           path: Path)
    requires Setting(tools, w, r, documents, disk) && g in r.groups && g.key in r.previous && Reused(w, r, g)
    ensures var e, v, u := r.previous[g.key], ViewOf(w, documents, disk, g.key.root),
      ViewOf(w, r.documents, r.disk, g.key.root);
      Missed(tools, w, r, documents, disk, g.key.root, e, path) <==>
        Relevant(tools, e.result, v, path) != Relevant(tools, e.result, u, path)
  {
    hide Reused, Relevant, NoticesLoss, NoticesGain, Setting, ReadOf;
    var e, v, u := r.previous[g.key], ViewOf(w, documents, disk, g.key.root),
      ViewOf(w, r.documents, r.disk, g.key.root);
    ReadDecidesRelevance(tools, e.result, v, u, path);
    if NoticesLoss(tools, w, r, documents, g.key.root, path) {
      LossIsImpossible(tools, w, r, documents, disk, g, path);
    }
    if NoticesGain(tools, w, r, documents, disk, g.key.root, e, path) {
      GainIsImpossible(tools, w, r, documents, disk, g, path);
    }
  }

  /** If no change to them was missed, the files of a reused result's packages are as they were; conversely a missed
      change is a difference. */
  lemma ReuseIsFresh(tools: Tools, w: World, r: Round, documents: map<Path, Digest>, disk: Disk, g: Group)
    requires Setting(tools, w, r, documents, disk) && g in r.groups && g.key in r.previous && Reused(w, r, g)
    ensures var e, v, u := r.previous[g.key], ViewOf(w, documents, disk, g.key.root),
      ViewOf(w, r.documents, r.disk, g.key.root);
      Agrees(tools, e.result, v, u) <==> NothingMissed(tools, w, r, documents, disk, g)
  {
    hide Reused, Relevant, Missed;
    var e := r.previous[g.key];
    forall path: Path
      ensures Missed(tools, w, r, documents, disk, g.key.root, e, path) <==>
        Relevant(tools, e.result, ViewOf(w, documents, disk, g.key.root), path) !=
        Relevant(tools, e.result, ViewOf(w, r.documents, r.disk, g.key.root), path)
    {
      DifferenceIsMissed(tools, w, r, documents, disk, g, path);
    }
    OwnIsUnchanged(tools, w, r, documents, disk, g);
    assert SoundEntry(tools, w, g.key, e, documents, disk);
    forall path | path in e.result.control
      ensures OnDisk(disk, path) == OnDisk(r.disk, path)
    {
      TrackedIsUnchanged(w, e, Overlay(w, documents, g.key.root), disk, r.disk, path);
    }
  }

  /** If nothing was missed, reuse equals analysing again. */
  lemma ReuseIsReanalysis(tools: Tools, w: World, r: Round, documents: map<Path, Digest>, disk: Disk, g: Group)
    requires Setting(tools, w, r, documents, disk) && g in r.groups && g.key in r.previous && Reused(w, r, g)
    requires NothingMissed(tools, w, r, documents, disk, g)
    ensures !AttemptOf(w, r, g).failed && AttemptOf(w, r, g).result == r.previous[g.key].result
  {
    hide Reused, Relevant, NothingMissed, FilesystemCurrent, Affected;
    ReusedHasEntry(w, r, g);
    ReuseIsFresh(tools, w, r, documents, disk, g);
    OwnIsUnchanged(tools, w, r, documents, disk, g);
    var e := r.previous[g.key];
    assert SoundEntry(tools, w, g.key, e, documents, disk);
    assert g == Group(g.key, e.documents);
  }

  // ---------- If something was missed, analysing again may give something else ----------

  /** Worlds that the decision about a retained group cannot tell apart: only its own analysis may differ. */
  ghost predicate SameRound(w: World, x: World, g: Group) {
    && x.prepares == w.prepares && x.within == w.within && x.directory == w.directory
    && forall h, v :: h != g ==> x.analyze(h, v) == w.analyze(h, v)
  }

  lemma SameDecision(w: World, x: World, r: Round, g: Group)
    requires SameRound(w, x, g) && g.key in r.previous
    ensures Reused(x, r, g) <==> Reused(w, r, g)
  {
    assert Watched(x, r) == Watched(w, r);
    assert Opened(x, r, r.groups) == Opened(w, r, r.groups) by {
      assert forall h :: h in r.groups && h.key !in r.previous ==> h != g && AttemptOf(x, r, h) == AttemptOf(w, r, h);
    }
  }

  lemma SameMissed(tools: Tools, w: World, x: World, r: Round, documents: map<Path, Digest>, disk: Disk, g: Group)
    requires SameRound(w, x, g) && g.key in r.previous
    ensures NothingMissed(tools, x, r, documents, disk, g) <==> NothingMissed(tools, w, r, documents, disk, g)
  {
    var root, e := g.key.root, r.previous[g.key];
    assert Overlay(x, documents, root) == Overlay(w, documents, root);
    assert Overlay(x, r.documents, root) == Overlay(w, r.documents, root);
    forall path: Path
      ensures Missed(tools, x, r, documents, disk, root, e, path) <==>
        Missed(tools, w, r, documents, disk, root, e, path)
    {
    }
  }

  /** The analysis of `g` fails when the files it depended on change. */
  ghost function Touchy(tools: Tools, w: World, g: Group, v: View): World {
    w.(analyze := (h, u) =>
      if h == g && !Agrees(tools, w.analyze(g, v).result, v, u) then w.analyze(h, u).(failed := true)
        else w.analyze(h, u))
  }

  lemma TouchyIsLawful(tools: Tools, w: World, g: Group, v: View)
    requires Lawful(tools, w) && !w.analyze(g, v).failed
    ensures Lawful(tools, Touchy(tools, w, g, v))
  {
    hide ListsItsSources, Relevant;
    var x, result := Touchy(tools, w, g, v), w.analyze(g, v).result;
    forall h, y, z | !x.analyze(h, y).failed && Agrees(tools, x.analyze(h, y).result, y, z)
      ensures !x.analyze(h, z).failed && x.analyze(h, z).result == x.analyze(h, y).result
    {
      if h == g {
        assert Agrees(tools, result, v, y) && w.analyze(g, y).result == result;
        assert Agrees(tools, result, v, z);
      }
    }
  }

  lemma TouchyEntry(tools: Tools, w: World, g: Group, v: View, key: GroupKey, e: Retained, documents: map<Path, Digest>,
                    disk: Disk)
    requires SoundEntry(tools, w, key, e, documents, disk)
    requires Group(key, e.documents) == g ==> ViewOf(w, documents, disk, key.root) == v
    ensures SoundEntry(tools, Touchy(tools, w, g, v), key, e, documents, disk)
  {
    hide Relevant, DocumentsOf;
  }

  lemma TouchySetting(tools: Tools, w: World, r: Round, documents: map<Path, Digest>, disk: Disk, g: Group)
    requires Setting(tools, w, r, documents, disk) && g in r.groups && g.key in r.previous && Reused(w, r, g)
    ensures var x := Touchy(tools, w, g, ViewOf(w, documents, disk, g.key.root));
      SameRound(w, x, g) && Setting(tools, x, r, documents, disk)
  {
    hide Reused, FilesystemCurrent, Affected, Relevant, Lawful, Agrees, Grouped;
    var v := ViewOf(w, documents, disk, g.key.root);
    OwnIsUnchanged(tools, w, r, documents, disk, g);
    EntryOf(tools, w, r, documents, disk, g.key);
    assert Group(g.key, r.previous[g.key].documents) == g;
    TouchyIsLawful(tools, w, g, v);
    var x := Touchy(tools, w, g, v);
    forall key | key in r.previous
      ensures SoundEntry(tools, x, key, r.previous[key], documents, disk)
    {
      EntryOf(tools, w, r, documents, disk, key);
      TouchyEntry(tools, w, g, v, key, r.previous[key], documents, disk);
    }
    hide SoundEntry, DocumentsOf;
    assert Listing(tools, x, disk) && Listing(tools, x, r.disk);
  }

  /** Reuse equals analysing again, whatever the analysis finds in the changed files, exactly if nothing was missed. */
  lemma ReuseIsReanalysisExactly(tools: Tools, w: World, r: Round, documents: map<Path, Digest>, disk: Disk, g: Group)
    requires Setting(tools, w, r, documents, disk) && g in r.groups && g.key in r.previous && Reused(w, r, g)
    ensures (forall x :: SameRound(w, x, g) && Setting(tools, x, r, documents, disk) ==>
               !AttemptOf(x, r, g).failed && AttemptOf(x, r, g).result == r.previous[g.key].result) <==>
            NothingMissed(tools, w, r, documents, disk, g)
  {
    hide Reused, Setting, NothingMissed, Agrees, AttemptOf;
    if NothingMissed(tools, w, r, documents, disk, g) {
      forall x | SameRound(w, x, g) && Setting(tools, x, r, documents, disk)
        ensures !AttemptOf(x, r, g).failed && AttemptOf(x, r, g).result == r.previous[g.key].result
      {
        SameDecision(w, x, r, g);
        SameMissed(tools, w, x, r, documents, disk, g);
        ReuseIsReanalysis(tools, x, r, documents, disk, g);
      }
    } else {
      var x := Touchy(tools, w, g, ViewOf(w, documents, disk, g.key.root));
      TouchySetting(tools, w, r, documents, disk, g);
      TouchyFails(tools, w, r, documents, disk, g);
    }
  }

  lemma TouchyFails(tools: Tools, w: World, r: Round, documents: map<Path, Digest>, disk: Disk, g: Group)
    requires Setting(tools, w, r, documents, disk) && g in r.groups && g.key in r.previous && Reused(w, r, g)
    requires !NothingMissed(tools, w, r, documents, disk, g)
    ensures AttemptOf(Touchy(tools, w, g, ViewOf(w, documents, disk, g.key.root)), r, g).failed
  {
    hide NothingMissed, Agrees, Relevant, FilesystemCurrent, Affected, Reused;
    ReuseIsFresh(tools, w, r, documents, disk, g);
    OwnIsUnchanged(tools, w, r, documents, disk, g);
    EntryOf(tools, w, r, documents, disk, g.key);
    assert Group(g.key, r.previous[g.key].documents) == g;
  }

  // ---------- Round after round ----------

  /** No change to the files of a reused result is missed. */
  ghost predicate NoneMissed(tools: Tools, w: World, r: Round, documents: map<Path, Digest>, disk: Disk) {
    forall g :: g in r.groups && g.key in r.previous && Reused(w, r, g) ==>
      NothingMissed(tools, w, r, documents, disk, g)
  }

  lemma AnswerIsSound(tools: Tools, w: World, r: Round, documents: map<Path, Digest>, disk: Disk, g: Group, used: nat)
    requires Setting(tools, w, r, documents, disk) && NoneMissed(tools, w, r, documents, disk)
    requires g in r.groups && Retains(w, r, g)
    ensures Answer(w, r, g).Some?
    ensures SoundEntry(tools, w, g.key, NewEntry(w, r, g, Answer(w, r, g).value, used), r.documents, r.disk)
  {
    hide Reused, FilesystemCurrent, Affected, Lawful, SoundTable, Listing, NothingMissed, Relevant;
    assert Group(g.key, g.documents) == g;
    if Reused(w, r, g) {
      ReusedHasEntry(w, r, g);
      assert NothingMissed(tools, w, r, documents, disk, g);
      ReuseIsReanalysis(tools, w, r, documents, disk, g);
    }
  }

  lemma ReusedHasEntry(w: World, r: Round, g: Group)
    requires Reused(w, r, g)
    ensures g.key in r.previous && w.prepares(g.key.root, r.documents)
  {
  }

  /** A round leaves a table that is sound for its own documents and disk. */
  lemma TableStaysSound(tools: Tools, w: World, r: Round, documents: map<Path, Digest>, disk: Disk,
                        entries: map<GroupKey, Retained>)
    requires Setting(tools, w, r, documents, disk) && NoneMissed(tools, w, r, documents, disk)
    requires IsNextBounded(w, r, entries)
    ensures SoundTable(tools, w, entries, r.documents, r.disk)
  {
    hide Setting, NoneMissed, SoundEntry, Retains, Answer, NewEntry;
    var next: map<GroupKey, Retained>, clock: nat :| IsNext(w, r, next, |r.groups|, clock) && IsBounded(entries, next);
    forall key | key in entries
      ensures SoundEntry(tools, w, key, entries[key], r.documents, r.disk)
    {
      KeptFrom(entries, next, key);
      var i :| 0 <= i < |r.groups| && r.groups[i].key == key;
      assert Slot(w, r, next, r.groups[i]);
      AnswerIsSound(tools, w, r, documents, disk, r.groups[i], next[key].used);
    }
  }

  lemma KeptFrom(entries: map<GroupKey, Retained>, next: map<GroupKey, Retained>, key: GroupKey)
    requires IsBounded(entries, next) && key in entries
    ensures key in next && entries[key] == next[key]
  {
    var keys :| BoundedBy(entries, keys, next);
  }

  /** Completed rounds, each on the table the last one left. */
  ghost predicate IsRun(tools: Tools, w: World, rounds: seq<Round>) {
    && Lawful(tools, w)
    && (forall i :: 0 <= i < |rounds| ==>
         Grouped(tools, rounds[i].documents, rounds[i].groups) && NonZero(rounds[i].documents)
           && Listing(tools, w, rounds[i].disk))
    && (|rounds| > 0 ==> rounds[0].previous == map[])
    && forall i :: 0 <= i < |rounds| - 1 ==> IsNextBounded(w, rounds[i], rounds[i + 1].previous)
  }

  /** While no change is missed, every reuse in a run equals analysing again, and every group gets fresh findings. */
  lemma {:induction false} RunReusesFreshResults(tools: Tools, w: World, rounds: seq<Round>, n: nat)
    requires IsRun(tools, w, rounds) && 0 < n < |rounds|
    requires forall i :: 0 < i < |rounds| ==>
      NoneMissed(tools, w, rounds[i], rounds[i - 1].documents, rounds[i - 1].disk)
    ensures Setting(tools, w, rounds[n], rounds[n - 1].documents, rounds[n - 1].disk)
    ensures forall g :: g in rounds[n].groups && Reused(w, rounds[n], g) ==>
      !AttemptOf(w, rounds[n], g).failed && Answer(w, rounds[n], g) == Some(AttemptOf(w, rounds[n], g).result)
    ensures forall g :: g in rounds[n].groups ==> IsFresh(w, rounds[n], g, Answer(w, rounds[n], g))
    decreases n
  {
    hide NoneMissed, Reused, AttemptOf, IsNextBounded, SoundEntry, Lawful, Listing, Grouped;
    var before := rounds[n - 1];
    assert IsNextBounded(w, before, rounds[n - 1 + 1].previous);
    if n == 1 {
      FirstTableIsSound(tools, w, before, rounds[n].previous);
    } else {
      RunReusesFreshResults(tools, w, rounds, n - 1);
      TableStaysSound(tools, w, before, rounds[n - 2].documents, rounds[n - 2].disk, rounds[n].previous);
    }
    forall g | g in rounds[n].groups && Reused(w, rounds[n], g)
      ensures !AttemptOf(w, rounds[n], g).failed && Answer(w, rounds[n], g) == Some(AttemptOf(w, rounds[n], g).result)
    {
      ReusedHasEntry(w, rounds[n], g);
      NothingMissedFor(tools, w, rounds[n], before.documents, before.disk, g);
      ReuseIsReanalysis(tools, w, rounds[n], before.documents, before.disk, g);
    }
    hide Answer, IsFresh;
    forall g | g in rounds[n].groups
      ensures IsFresh(w, rounds[n], g, Answer(w, rounds[n], g))
    {
      AnswerIsFresh(tools, w, rounds[n], before.documents, before.disk, g);
    }
  }

  /** Conversely nothing is analysed again without need: if every entry has its group, unchanged and current on disk,
      and nothing reported concerns one, then every group is reused. */
  lemma QuietRoundReuses(w: World, r: Round, g: Group)
    requires DistinctKeys(r.groups) && !r.all && g in r.groups && w.prepares(g.key.root, r.documents)
    requires forall h :: h in r.groups ==>
      h.key in r.previous && r.previous[h.key].documents == h.documents && NonZero(h.documents)
    requires forall key :: key in r.previous ==>
      HasKey(r.groups, key) && FilesystemCurrent(r.previous[key], r.disk) && !Affected(r.previous[key], r.changed, w)
    ensures Reused(w, r, g) && Answer(w, r, g) == Some(r.previous[g.key].result)
  {
    hide FilesystemCurrent, Affected, SameDocuments;
    forall h | h in r.groups
      ensures SameDocuments(r.previous[h.key].documents, h.documents)
    {
      SameDocumentsIsEquality(r.previous[h.key].documents, h.documents);
    }
    forall key | key in r.previous
      ensures !Outdated(r, key)
    {
    }
    assert ClosedOrOutdated(r) == {} && Watched(w, r) == {} && Everything(r, r.groups) == {};
    assert Opened(w, r, r.groups) == {};
  }

  /** What a group gets that is analysed now: the findings, or nothing if its documents cannot be laid over the disk,
      the analysis fails, or it finds no package that the group could be kept for. */
  ghost predicate IsFresh(w: World, r: Round, g: Group, answer: Option<Analyzed>) {
    var now := w.analyze(g, View(Overlay(w, r.documents, g.key.root), r.disk));
    var usable := w.prepares(g.key.root, r.documents) && !now.failed && (g.key in r.previous || now.result.roots != []);
    answer == if usable then Some(now.result) else None
  }

  lemma AnswerIsFresh(tools: Tools, w: World, r: Round, documents: map<Path, Digest>, disk: Disk, g: Group)
    requires Setting(tools, w, r, documents, disk) && NoneMissed(tools, w, r, documents, disk) && g in r.groups
    ensures IsFresh(w, r, g, Answer(w, r, g))
  {
    hide Reused, Setting, NothingMissed, NoneMissed;
    if Reused(w, r, g) {
      ReusedHasEntry(w, r, g);
      NothingMissedFor(tools, w, r, documents, disk, g);
      ReuseIsReanalysis(tools, w, r, documents, disk, g);
    }
  }

  /** While no change is missed every group of a round, reused or not, gets what analysing it now gives. */
  lemma RoundAnswersFresh(tools: Tools, w: World, r: Round, documents: map<Path, Digest>, disk: Disk,
                          results: map<GroupKey, Option<Analyzed>>)
    requires Setting(tools, w, r, documents, disk) && NoneMissed(tools, w, r, documents, disk)
    requires Answered(w, r, results, |r.groups|)
    ensures forall g :: g in r.groups ==> g.key in results && IsFresh(w, r, g, results[g.key])
  {
    hide Setting, NoneMissed, Answer, IsFresh;
    forall g | g in r.groups
      ensures g.key in results && IsFresh(w, r, g, results[g.key])
    {
      AnswerIsFresh(tools, w, r, documents, disk, g);
    }
  }

  lemma FirstTableIsSound(tools: Tools, w: World, r: Round, entries: map<GroupKey, Retained>)
    requires Lawful(tools, w) && Grouped(tools, r.documents, r.groups) && NonZero(r.documents)
    requires Listing(tools, w, r.disk)
    requires r.previous == map[] && IsNextBounded(w, r, entries)
    ensures SoundTable(tools, w, entries, r.documents, r.disk)
  {
    hide Lawful, Listing, IsNextBounded;
    TableStaysSound(tools, w, r, r.documents, r.disk, entries);
  }

  lemma NothingMissedFor(tools: Tools, w: World, r: Round, documents: map<Path, Digest>, disk: Disk, g: Group)
    requires NoneMissed(tools, w, r, documents, disk) && g in r.groups && g.key in r.previous && Reused(w, r, g)
    ensures NothingMissed(tools, w, r, documents, disk, g)
  {
  }

  // ---------- Changes that are missed ----------

  const ROOT: Path := [0]
  const USER: Path := [0, 1]
  const USED: Path := [0, 2]

  function Text(b: Byte): Digest {
    seq(32, i => b)
  }

  /** The text of a file that build constraints keep out of its package. */
  function Excluded(): Digest {
    Text(4)
  }

  function KeyUnder(root: Path, path: Path): GroupKey {
    GroupKey(root, path, [], [], Text(1), 1)
  }

  /** Two files, each a package of its own; the used one, as an open document, belongs to some group or to none. */
  function CaseTools(usedKey: Option<GroupKey>): Tools {
    Tools((path, digest) => if path == USER || (path == USED && digest != Excluded()) then Some(path) else None,
          (path, digest) => if path == USER then Some(KeyUnder(ROOT, USER)) else if path == USED then usedKey else None,
          (key: GroupKey) => key.directory,
          (digest, path) => path == USER || path == USED)
  }

  function UsedText(v: View): Findings {
    var used := ReadOf(v, USED);
    if used.Holds? && used.digest != Excluded() then used.digest else NO_FINDINGS
  }

  /** One file uses the other; an analysis finds what the used file says. */
  function CaseAnalysis(g: Group, v: View): Attempt {
    var user := ReadOf(v, USER);
    if !user.Holds? then Attempt(true, PackageResult(map[], {}, [], [], {}, {}, 0, NO_FINDINGS), [], false)
    else
      var own := map[USER := user.digest];
      Attempt(false,
        PackageResult(if UsedText(v) == NO_FINDINGS then own else own[USED := UsedText(v)], {USER}, [g.key.directory],
                                   [USER, USED], {}, {ROOT}, 0, UsedText(v)), [], false)
  }

  function CaseWorld(): World {
    World(CaseAnalysis, (root, documents) => true, (root, path) => true, path => ROOT)
  }

  lemma CaseIsLawful(usedKey: Option<GroupKey>)
    requires usedKey.Some? ==> usedKey.value.directory == USED
    ensures Lawful(CaseTools(usedKey), CaseWorld())
  {
    var tools, w := CaseTools(usedKey), CaseWorld();
    forall g: Group, v: View | !w.analyze(g, v).failed
      ensures ListsItsSources(tools, w.analyze(g, v).result, v)
    {
      CaseSources(usedKey, g, v);
    }
    forall g: Group, v: View, u: View | !w.analyze(g, v).failed && Agrees(tools, w.analyze(g, v).result, v, u)
      ensures !w.analyze(g, u).failed && w.analyze(g, u).result == w.analyze(g, v).result
    {
      var result := CaseAnalysis(g, v).result;
      assert Relevant(tools, result, v, USER) == Relevant(tools, result, u, USER);
      assert Relevant(tools, result, v, USED) == Relevant(tools, result, u, USED);
    }
  }

  lemma CaseSources(usedKey: Option<GroupKey>, g: Group, v: View)
    requires !CaseAnalysis(g, v).failed
    ensures ListsItsSources(CaseTools(usedKey), CaseAnalysis(g, v).result, v)
  {
    var tools, result := CaseTools(usedKey), CaseAnalysis(g, v).result;
    forall path: Path
      ensures Relevant(tools, result, v, path) == if path in result.sources then Some(result.sources[path]) else None
    {
      assert path in result.sources ==> path == USER || path == USED;
    }
  }

  const OPEN_GROUP: Group := Group(KeyUnder(ROOT, USER), map[USER := Text(1)])

  function CaseDisk(used: Digest): Disk {
    Disk(map[USER := Some(Text(1)), USED := Some(used)], map[ROOT := Text(5)])
  }

  /** Only the user's entry was retained, from the documents and the disk of the last round. */
  function CaseEntry(documents: map<Path, Digest>, disk: Disk): Retained {
    Entry(CaseAnalysis(OPEN_GROUP, View(documents, disk)).result, OPEN_GROUP.documents, map[], map[ROOT := Text(5)], 1)
  }

  function CaseRound(previous: Retained, groups: seq<Group>, documents: map<Path, Digest>, disk: Disk): Round {
    Round(map[OPEN_GROUP.key := previous], groups, documents, {}, false, disk)
  }

  ghost predicate CaseDocuments(documents: map<Path, Digest>) {
    documents.Keys <= {USER, USED} && USER in documents && documents[USER] == Text(1) && NonZero(documents)
  }

  /** The used file was open, or was no source on disk; and nothing under the user's root is open but the user. */
  ghost predicate IsCase(usedKey: Option<GroupKey>, documents: map<Path, Digest>, used: Digest, groups: seq<Group>,
                         now: map<Path, Digest>)
  {
    && CaseDocuments(documents) && CaseDocuments(now)
    && (USED !in documents ==> used == Excluded())
    && (usedKey.Some? ==> usedKey.value.directory == USED)
    && Grouped(CaseTools(usedKey), now, groups)
    && OPEN_GROUP in groups && forall g :: g in groups && g != OPEN_GROUP ==> g.key.root != ROOT
  }

  lemma CaseOverlay(documents: map<Path, Digest>, root: Path)
    ensures Overlay(CaseWorld(), documents, root) == documents
  {
  }

  lemma TextsDiffer()
    ensures forall a, b :: a != b ==> Text(a) != Text(b)
    ensures forall b: Byte :: b > 0 ==> !IsZero(Text(b))
  {
    assert forall b :: Text(b)[0] == b;
  }

  lemma CaseEntryIsSound(usedKey: Option<GroupKey>, documents: map<Path, Digest>, used: Digest, groups: seq<Group>,
                         now: map<Path, Digest>)
    requires IsCase(usedKey, documents, used, groups, now)
    ensures SoundEntry(CaseTools(usedKey), CaseWorld(), OPEN_GROUP.key, CaseEntry(documents, CaseDisk(used)), documents,
                       CaseDisk(used))
  {
    var e, w, disk := CaseEntry(documents, CaseDisk(used)), CaseWorld(), CaseDisk(used);
    CaseOverlay(documents, ROOT);
    assert e.result.sources.Keys - documents.Keys + e.result.control == {};
    assert CapturedDirectories(e.result, disk) == e.directories;
  }

  lemma CaseSetting(usedKey: Option<GroupKey>, documents: map<Path, Digest>, used: Digest, groups: seq<Group>,
                    now: map<Path, Digest>, usedNow: Digest)
    requires IsCase(usedKey, documents, used, groups, now)
    ensures Setting(CaseTools(usedKey), CaseWorld(),
                    CaseRound(CaseEntry(documents, CaseDisk(used)), groups, now, CaseDisk(usedNow)), documents,
                      CaseDisk(used))
  {
    hide SoundEntry, Lawful, Grouped;
    CaseIsLawful(usedKey);
    CaseEntryIsSound(usedKey, documents, used, groups, now);
  }

  lemma CaseIsInPlace(usedKey: Option<GroupKey>, documents: map<Path, Digest>, used: Digest, groups: seq<Group>,
                      now: map<Path, Digest>, usedNow: Digest)
    requires IsCase(usedKey, documents, used, groups, now)
    ensures var w, r := CaseWorld(), CaseRound(CaseEntry(documents, CaseDisk(used)), groups, now, CaseDisk(usedNow));
      ClosedOrOutdated(r) == {} && Watched(w, r) == {} && Everything(r, r.groups) == {}
  {
    hide AttemptOf, Lawful, Listing, Opened, Grouped;
    var r := CaseRound(CaseEntry(documents, CaseDisk(used)), groups, now, CaseDisk(usedNow));
    assert OPEN_GROUP in r.groups && HasKey(r.groups, OPEN_GROUP.key);
  }

  lemma CaseDiffersNowhere(usedKey: Option<GroupKey>, documents: map<Path, Digest>, used: Digest, groups: seq<Group>,
                           now: map<Path, Digest>, usedNow: Digest)
    requires IsCase(usedKey, documents, used, groups, now)
    ensures var r := CaseRound(CaseEntry(documents, CaseDisk(used)), groups, now, CaseDisk(usedNow));
      forall g :: g in r.groups && g.key in r.previous ==> g == OPEN_GROUP && !Differs(r, g)
  {
    hide AttemptOf, Opened, Watched;
  }

  lemma CaseOpensElsewhere(usedKey: Option<GroupKey>, documents: map<Path, Digest>, used: Digest, groups: seq<Group>,
                           now: map<Path, Digest>, usedNow: Digest)
    requires IsCase(usedKey, documents, used, groups, now)
    ensures var w, r := CaseWorld(), CaseRound(CaseEntry(documents, CaseDisk(used)), groups, now, CaseDisk(usedNow));
      forall n :: n in Opened(w, r, r.groups) ==> n.root != ROOT
  {
    hide AttemptOf, Lawful, Listing, Differs;
  }

  lemma CaseIsReused(usedKey: Option<GroupKey>, documents: map<Path, Digest>, used: Digest, groups: seq<Group>,
                     now: map<Path, Digest>, usedNow: Digest)
    requires IsCase(usedKey, documents, used, groups, now)
    ensures Reused(CaseWorld(), CaseRound(CaseEntry(documents, CaseDisk(used)), groups, now, CaseDisk(usedNow)),
      OPEN_GROUP)
  {
    hide AttemptOf, Lawful, Listing, CaseAnalysis, Opened, ClosedOrOutdated, Watched, Everything;
    var w, r := CaseWorld(), CaseRound(CaseEntry(documents, CaseDisk(used)), groups, now, CaseDisk(usedNow));
    CaseIsInPlace(usedKey, documents, used, groups, now, usedNow);
    CaseDiffersNowhere(usedKey, documents, used, groups, now, usedNow);
    CaseOpensElsewhere(usedKey, documents, used, groups, now, usedNow);
  }

  /** In each such round the retained result is reused, although analysing again finds another text. */
  lemma CaseIsStale(usedKey: Option<GroupKey>, documents: map<Path, Digest>, used: Digest, groups: seq<Group>,
                    now: map<Path, Digest>, usedNow: Digest)
    requires IsCase(usedKey, documents, used, groups, now)
    requires UsedText(View(documents, CaseDisk(used))) != UsedText(View(now, CaseDisk(usedNow)))
    ensures StaleReuse(CaseTools(usedKey), CaseWorld(),
                       CaseRound(CaseEntry(documents, CaseDisk(used)), groups, now, CaseDisk(usedNow)), documents,
                         CaseDisk(used))
  {
    hide Setting, Reused, IsCase;
    CaseSetting(usedKey, documents, used, groups, now, usedNow);
    CaseIsReused(usedKey, documents, used, groups, now, usedNow);
    CaseOverlay(now, ROOT);
    NowDocuments(usedKey, documents, used, groups, now);
    var w, r := CaseWorld(), CaseRound(CaseEntry(documents, CaseDisk(used)), groups, now, CaseDisk(usedNow));
    assert AttemptOf(w, r, OPEN_GROUP) == CaseAnalysis(OPEN_GROUP, View(now, CaseDisk(usedNow)));
    assert AttemptOf(w, r, OPEN_GROUP).result.findings == UsedText(View(now, CaseDisk(usedNow)));
  }

  lemma NowDocuments(usedKey: Option<GroupKey>, documents: map<Path, Digest>, used: Digest, groups: seq<Group>,
                     now: map<Path, Digest>)
    requires IsCase(usedKey, documents, used, groups, now)
    ensures CaseDocuments(documents) && CaseDocuments(now) && OPEN_GROUP in groups
  {
  }

  ghost predicate StaleReuse(tools: Tools, w: World, r: Round, documents: map<Path, Digest>, disk: Disk) {
    && Setting(tools, w, r, documents, disk) && OPEN_GROUP in r.groups && Reused(w, r, OPEN_GROUP)
    && !AttemptOf(w, r, OPEN_GROUP).failed && OPEN_GROUP.key in r.previous
    && AttemptOf(w, r, OPEN_GROUP).result != r.previous[OPEN_GROUP.key].result
  }

  /** The used file was open with its own group, whose entry was not retained, and was then closed unsaved. */
  lemma ClosedWithoutEntryIsMissed()
    ensures var documents := map[USER := Text(1), USED := Text(2)];
      StaleReuse(CaseTools(Some(KeyUnder(ROOT, USED))), CaseWorld(),
                 CaseRound(CaseEntry(documents, CaseDisk(Text(3))), [OPEN_GROUP], OPEN_GROUP.documents,
                   CaseDisk(Text(3))),
                 documents, CaseDisk(Text(3)))
  {
    TextsDiffer();
    var documents := map[USER := Text(1), USED := Text(2)];
    assert Grouped(CaseTools(Some(KeyUnder(ROOT, USED))), OPEN_GROUP.documents, [OPEN_GROUP]);
    CaseIsStale(Some(KeyUnder(ROOT, USED)), documents, Text(3), [OPEN_GROUP], OPEN_GROUP.documents, Text(3));
  }

  /** The used file is open, but its rules need no types, so it is in no group; it is edited. */
  lemma UntypedDocumentIsMissed()
    ensures var documents := map[USER := Text(1), USED := Text(2)];
      StaleReuse(CaseTools(None), CaseWorld(),
                 CaseRound(CaseEntry(documents, CaseDisk(Text(3))), [OPEN_GROUP], documents[USED := Text(3)],
                   CaseDisk(Text(3))),
                 documents, CaseDisk(Text(3)))
  {
    TextsDiffer();
    var documents := map[USER := Text(1), USED := Text(2)];
    assert Grouped(CaseTools(None), documents[USED := Text(3)], [OPEN_GROUP]);
    CaseIsStale(None, documents, Text(3), [OPEN_GROUP], documents[USED := Text(3)], Text(3));
  }

  const NESTED_KEY: GroupKey := KeyUnder(USED, USED)
  const NESTED_GROUP: Group := Group(NESTED_KEY, map[USED := Text(3)])

  lemma NestedIsGrouped()
    ensures Grouped(CaseTools(Some(NESTED_KEY)), map[USER := Text(1), USED := Text(3)], [OPEN_GROUP, NESTED_GROUP])
  {
    var now, groups := map[USER := Text(1), USED := Text(3)], [OPEN_GROUP, NESTED_GROUP];
    assert OPEN_GROUP.key.root != NESTED_KEY.root;
    assert OPEN_GROUP in groups && NESTED_GROUP in groups;
  }

  /** The used file is open under a root of its own inside the user's; it is edited. */
  lemma NestedRootIsMissed()
    ensures var documents, now := map[USER := Text(1), USED := Text(2)], map[USER := Text(1), USED := Text(3)];
      StaleReuse(CaseTools(Some(NESTED_KEY)), CaseWorld(),
                 CaseRound(CaseEntry(documents, CaseDisk(Text(3))), [OPEN_GROUP, NESTED_GROUP], now, CaseDisk(Text(3))),
                 documents, CaseDisk(Text(3)))
  {
    hide Grouped, StaleReuse;
    TextsDiffer();
    NestedIsGrouped();
    var documents, now := map[USER := Text(1), USED := Text(2)], map[USER := Text(1), USED := Text(3)];
    CaseIsStale(Some(NESTED_KEY), documents, Text(3), [OPEN_GROUP, NESTED_GROUP], now, Text(3));
  }

  /** The used file was there, but kept out of its package; on disk it is changed to belong to it, unreported. */
  lemma JoiningFileIsMissed()
    ensures StaleReuse(CaseTools(None), CaseWorld(),
                       CaseRound(CaseEntry(OPEN_GROUP.documents, CaseDisk(Excluded())), [OPEN_GROUP],
                         OPEN_GROUP.documents,
                                 CaseDisk(Text(3))),
                       OPEN_GROUP.documents, CaseDisk(Excluded()))
  {
    TextsDiffer();
    assert Grouped(CaseTools(None), OPEN_GROUP.documents, [OPEN_GROUP]);
    CaseIsStale(None, OPEN_GROUP.documents, Excluded(), [OPEN_GROUP], OPEN_GROUP.documents, Text(3));
  }
}
