/** Which source lines a change owns, and which diagnostics and fixes it shows (internal/changed/scope.go). */
module ChangedLines {
  import opened Encoding
  import opened Ordering
  import opened Selecting
  import opened Sorting
  import opened Wrappers

  /** An inclusive range of physical lines. */
  datatype LineRange = LineRange(start: int, end: int)

  /** A hunk of the new file, once its header is parsed; an empty hunk only deletes. */
  datatype Hunk = Hunk(start: nat, count: nat)

  predicate Holds(r: LineRange, line: int) {
    r.start <= line <= r.end
  }

  ghost predicate Covered(ranges: seq<LineRange>, line: int) {
    exists i :: 0 <= i < |ranges| && Holds(ranges[i], line)
  }

  ghost predicate Changed(hunks: seq<Hunk>, line: int) {
    exists i :: 0 <= i < |hunks| && hunks[i].start <= line < hunks[i].start + hunks[i].count
  }

  /** Sorted, nonempty, disjoint, and not even touching each other. */
  ghost predicate Separate(ranges: seq<LineRange>) {
    && (forall i :: 0 <= i < |ranges| ==> ranges[i].start <= ranges[i].end)
    && (forall i, j :: 0 <= i < j < |ranges| ==> ranges[i].end + 1 < ranges[j].start)
  }

  predicate StartsBefore(a: LineRange, b: LineRange) {
    a.start <= b.start
  }

  method ParseRanges(hunks: seq<Hunk>) returns (ranges: seq<LineRange>)
    ensures forall line :: Covered(ranges, line) <==> Changed(hunks, line)
    ensures forall i :: 0 <= i < |ranges| ==> ranges[i].start <= ranges[i].end
  {
    ranges := [];
    for h := 0 to |hunks|
      invariant forall line :: Covered(ranges, line) <==> Changed(hunks[..h], line)
      invariant forall i :: 0 <= i < |ranges| ==> ranges[i].start <= ranges[i].end
    {
      var hunk := hunks[h];
      ChangedSnoc(hunks, h);
      if hunk.count == 0 {
        continue;
      }
      var range_ := LineRange(hunk.start, hunk.start + hunk.count - 1);
      CoveredSnoc(ranges, range_);
      ranges := ranges + [range_];
    }
    assert hunks[..|hunks|] == hunks;
  }

  lemma ChangedSnoc(hunks: seq<Hunk>, h: nat)
    requires h < |hunks|
    ensures forall line :: Changed(hunks[..h + 1], line) <==>
      Changed(hunks[..h], line) || hunks[h].start <= line < hunks[h].start + hunks[h].count
  {
    forall line
      ensures Changed(hunks[..h + 1], line) <==>
        Changed(hunks[..h], line) || hunks[h].start <= line < hunks[h].start + hunks[h].count
    {
      var before, after := hunks[..h], hunks[..h + 1];
      assert forall i :: 0 <= i < h ==> before[i] == after[i];
      assert after[h] == hunks[h];
    }
  }

  lemma CoveredSnoc(ranges: seq<LineRange>, r: LineRange)
    ensures forall line :: Covered(ranges + [r], line) <==> Covered(ranges, line) || Holds(r, line)
  {
    forall line
      ensures Covered(ranges + [r], line) <==> Covered(ranges, line) || Holds(r, line)
    {
      assert (ranges + [r])[|ranges|] == r;
      if Covered(ranges, line) {
        var i :| 0 <= i < |ranges| && Holds(ranges[i], line);
        assert Holds((ranges + [r])[i], line);
      }
    }
  }

  /** The merged ranges hold the lines of the sorted ranges merged so far, and the last one starts no later. */
  ghost predicate Merging(merged: seq<LineRange>, done: seq<LineRange>) {
    && Separate(merged)
    && (forall line :: Covered(merged, line) <==> Covered(done, line))
    && (|done| > 0 <==> |merged| > 0)
    && (|done| > 0 ==> merged[|merged| - 1].start <= done[|done| - 1].start)
  }

  lemma AppendStep(merged: seq<LineRange>, done: seq<LineRange>, candidate: LineRange)
    requires Merging(merged, done) && candidate.start <= candidate.end
    requires |merged| > 0 ==> candidate.start > merged[|merged| - 1].end + 1
    ensures Merging(merged + [candidate], done + [candidate])
  {
    CoveredSnoc(done, candidate);
    CoveredSnoc(merged, candidate);
  }

  lemma WidenStep(merged: seq<LineRange>, done: seq<LineRange>, candidate: LineRange, end: int)
    requires Merging(merged, done) && candidate.start <= candidate.end && |merged| > 0
    requires merged[|merged| - 1].start <= candidate.start <= merged[|merged| - 1].end + 1
    requires end == if merged[|merged| - 1].end > candidate.end then merged[|merged| - 1].end else candidate.end
    ensures Merging(merged[|merged| - 1 := LineRange(merged[|merged| - 1].start, end)], done + [candidate])
  {
    var init, last := merged[..|merged| - 1], merged[|merged| - 1];
    var wider := LineRange(last.start, end);
    assert merged == init + [last] && merged[|merged| - 1 := wider] == init + [wider];
    CoveredSnoc(init, last);
    CoveredSnoc(init, wider);
    CoveredSnoc(done, candidate);
  }

  /** `parseNewLineRanges`: exactly the lines of the hunks, as separate ranges. */
  method MergeRanges(hunks: seq<Hunk>) returns (merged: seq<LineRange>)
    ensures Separate(merged)
    ensures forall line :: Covered(merged, line) <==> Changed(hunks, line)
  {
    hide Covered, Changed, Merging;
    var ranges := ParseRanges(hunks);
    SortedRanges(ranges);
    ranges := Sort(ranges, StartsBefore);
    merged := [];
    NothingMerged();
    for r := 0 to |ranges|
      invariant Merging(merged, ranges[..r])
    {
      var candidate := ranges[r];
      assert ranges[..r + 1] == ranges[..r] + [candidate];
      LastStartsFirst(merged, ranges, r);
      if |merged| == 0 || candidate.start > merged[|merged| - 1].end + 1 {
        AppendStep(merged, ranges[..r], candidate);
        merged := merged + [candidate];
        continue;
      }
      var last := merged[|merged| - 1];
      var end := if last.end > candidate.end then last.end else candidate.end;
      WidenStep(merged, ranges[..r], candidate, end);
      merged := merged[|merged| - 1 := LineRange(last.start, end)];
    }
    assert ranges[..|ranges|] == ranges;
    MergedIsSeparate(merged, ranges);
  }

  lemma NothingMerged()
    ensures Merging([], [])
  {
  }

  lemma LastStartsFirst(merged: seq<LineRange>, ranges: seq<LineRange>, r: nat)
    requires r < |ranges| && Merging(merged, ranges[..r]) && Sorted(ranges, StartsBefore)
    ensures |merged| > 0 ==> merged[|merged| - 1].start <= ranges[r].start
  {
    assert r > 0 ==> StartsBefore(ranges[r - 1], ranges[r]);
  }

  lemma MergedIsSeparate(merged: seq<LineRange>, done: seq<LineRange>)
    requires Merging(merged, done)
    ensures Separate(merged) && forall line :: Covered(merged, line) <==> Covered(done, line)
  {
  }

  lemma SortedRanges(ranges: seq<LineRange>)
    requires forall i :: 0 <= i < |ranges| ==> ranges[i].start <= ranges[i].end
    ensures var sorted := Sort(ranges, StartsBefore);
      && Sorted(sorted, StartsBefore)
      && (forall i :: 0 <= i < |sorted| ==> sorted[i].start <= sorted[i].end)
      && forall line :: Covered(sorted, line) <==> Covered(ranges, line)
  {
    SortIsSorted(ranges, StartsBefore);
    SortKeepsElements(ranges, StartsBefore);
    var sorted := Sort(ranges, StartsBefore);
    SameCover(ranges, sorted);
    forall i | 0 <= i < |sorted|
      ensures sorted[i].start <= sorted[i].end
    {
      assert sorted[i] in sorted;
    }
  }

  lemma SameCover(xs: seq<LineRange>, ys: seq<LineRange>)
    requires forall r :: r in xs <==> r in ys
    ensures forall line :: Covered(xs, line) <==> Covered(ys, line)
  {
    forall line
      ensures Covered(xs, line) <==> Covered(ys, line)
    {
      if Covered(xs, line) {
        var i :| 0 <= i < |xs| && Holds(xs[i], line);
        assert xs[i] in ys;
      }
      if Covered(ys, line) {
        var i :| 0 <= i < |ys| && Holds(ys[i], line);
        assert ys[i] in xs;
      }
    }
  }

  /** Only one separate sequence covers a given set of lines, so the merged form is canonical. */
  lemma {:induction false} SeparateIsUnique(xs: seq<LineRange>, ys: seq<LineRange>)
    requires Separate(xs) && Separate(ys) && forall line :: Covered(xs, line) <==> Covered(ys, line)
    ensures xs == ys
    decreases |xs|
  {
    if |xs| == 0 || |ys| == 0 {
      FirstIsCovered(xs);
      FirstIsCovered(ys);
    } else {
      FirstRange(xs, ys);
      FirstRange(ys, xs);
      assert xs[0] == ys[0];
      RestCovers(xs);
      RestCovers(ys);
      SeparateIsUnique(xs[1..], ys[1..]);
      assert xs == [xs[0]] + xs[1..] && ys == [ys[0]] + ys[1..];
    }
  }

  lemma FirstIsCovered(xs: seq<LineRange>)
    requires Separate(xs)
    ensures |xs| > 0 ==> Covered(xs, xs[0].start)
  {
    assert |xs| > 0 ==> Holds(xs[0], xs[0].start);
  }

  lemma FirstRange(xs: seq<LineRange>, ys: seq<LineRange>)
    requires |xs| > 0 && |ys| > 0 && Separate(xs) && Separate(ys)
    requires forall line :: Covered(xs, line) <==> Covered(ys, line)
    ensures xs[0].start >= ys[0].start && (xs[0].start == ys[0].start ==> xs[0].end <= ys[0].end)
  {
    assert Holds(xs[0], xs[0].start) && Covered(xs, xs[0].start);
    var i :| 0 <= i < |ys| && Holds(ys[i], xs[0].start);
    GapAfterFirst(ys);
    FirstCovers(xs, ys[0].end + 1);
  }

  lemma FirstCovers(xs: seq<LineRange>, line: int)
    requires |xs| > 0
    ensures Holds(xs[0], line) ==> Covered(xs, line)
  {
  }

  lemma GapAfterFirst(ys: seq<LineRange>)
    requires |ys| > 0 && Separate(ys)
    ensures !Covered(ys, ys[0].end + 1)
  {
  }

  lemma RestCovers(xs: seq<LineRange>)
    requires |xs| > 0 && Separate(xs)
    ensures Separate(xs[1..]) && forall line :: Covered(xs[1..], line) <==> Covered(xs, line) && line > xs[0].end
  {
    forall line
      ensures Covered(xs[1..], line) <==> Covered(xs, line) && line > xs[0].end
    {
      if Covered(xs, line) && line > xs[0].end {
        var i :| 0 <= i < |xs| && Holds(xs[i], line);
        assert Holds(xs[1..][i - 1], line);
      }
      if Covered(xs[1..], line) {
        var i :| 0 <= i < |xs[1..]| && Holds(xs[1..][i], line);
        assert Holds(xs[i + 1], line);
      }
    }
  }

  // ---------- Ownership ----------

  method Owns(ranges: seq<LineRange>, span: LineRange) returns (owned: bool)
    ensures owned <==> forall line :: Holds(span, line) ==> Covered(ranges, line)
  {
    for line := span.start to (if span.end < span.start then span.start else span.end + 1)
      invariant forall l :: span.start <= l < line ==> Covered(ranges, l)
    {
      var found := false;
      for i := 0 to |ranges|
        invariant !found && forall j :: 0 <= j < i ==> !Holds(ranges[j], line)
      {
        if Holds(ranges[i], line) {
          found := true;
          break;
        }
      }
      if !found {
        assert Holds(span, line) && !Covered(ranges, line);
        return false;
      }
    }
    return true;
  }

  method Intersects(ranges: seq<LineRange>, span: LineRange) returns (found: bool)
    requires span.start <= span.end && forall i :: 0 <= i < |ranges| ==> ranges[i].start <= ranges[i].end
    ensures found <==> exists line :: Holds(span, line) && Covered(ranges, line)
  {
    for i := 0 to |ranges|
      invariant forall j, line :: 0 <= j < i && Holds(span, line) ==> !Holds(ranges[j], line)
    {
      if span.start <= ranges[i].end && ranges[i].start <= span.end {
        ghost var line := if ranges[i].start > span.start then ranges[i].start else span.start;
        assert Holds(span, line) && Holds(ranges[i], line) && Covered(ranges, line);
        return true;
      }
    }
    return false;
  }

  /** A span is owned exactly when one merged range contains it; then it certainly intersects the change. */
  lemma {:induction false} OwnedByOneRange(ranges: seq<LineRange>, span: LineRange)
    requires Separate(ranges) && span.start <= span.end
    ensures (forall line :: Holds(span, line) ==> Covered(ranges, line))
       <==> exists i :: 0 <= i < |ranges| && ranges[i].start <= span.start && span.end <= ranges[i].end
    ensures (forall line :: Holds(span, line) ==> Covered(ranges, line)) ==>
      exists line :: Holds(span, line) && Covered(ranges, line)
    decreases span.end - span.start
  {
    assert Holds(span, span.start);
    if forall line :: Holds(span, line) ==> Covered(ranges, line) {
      if span.start == span.end {
        var i :| 0 <= i < |ranges| && Holds(ranges[i], span.start);
      } else {
        var shorter := LineRange(span.start, span.end - 1);
        assert forall line :: Holds(shorter, line) ==> Holds(span, line);
        OwnedByOneRange(ranges, shorter);
        var i :| 0 <= i < |ranges| && ranges[i].start <= shorter.start && shorter.end <= ranges[i].end;
        assert Holds(span, span.end);
        var j :| 0 <= j < |ranges| && Holds(ranges[j], span.end);
        assert i == j;
      }
    }
    if i :| 0 <= i < |ranges| && ranges[i].start <= span.start && span.end <= ranges[i].end {
      assert forall line :: Holds(span, line) ==> Holds(ranges[i], line);
    }
  }

  // ---------- The lines of a byte range ----------

  datatype Span = Span(start: int, end: int)

  /** A source file; `bytes` is its physical content in UTF-8. */
  datatype SourceFile = SourceFile(path: string, digest: Digest, bytes: seq<Byte>)

  const NEWLINE: Byte := 10

  /** A byte that starts a character (utf8.RuneStart). */
  predicate StartsCharacter(b: Byte) {
    b < 128 || 192 <= b
  }

  function LineOf(bytes: seq<Byte>, offset: nat): (line: nat)
    requires offset <= |bytes|
    ensures line > 0
  {
    if offset == 0 then 1 else LineOf(bytes, offset - 1) + (if bytes[offset - 1] == NEWLINE then 1 else 0)
  }

  /** The offsets of newlines before an offset. */
  ghost function NewlinesBefore(bytes: seq<Byte>, offset: nat): set<nat>
    requires offset <= |bytes|
  {
    set o: nat | o < offset && bytes[o] == NEWLINE
  }

  /** A line is one more than the number of newlines before. */
  lemma {:induction false} LineCountsNewlines(bytes: seq<Byte>, offset: nat)
    requires offset <= |bytes|
    ensures LineOf(bytes, offset) == |NewlinesBefore(bytes, offset)| + 1
    decreases offset
  {
    if offset == 0 {
      assert NewlinesBefore(bytes, 0) == {};
    } else {
      LineCountsNewlines(bytes, offset - 1);
      var before := NewlinesBefore(bytes, offset - 1);
      if bytes[offset - 1] == NEWLINE {
        assert NewlinesBefore(bytes, offset) == before + {offset - 1};
      } else {
        assert NewlinesBefore(bytes, offset) == before;
      }
    }
  }

  predicate Readable(file: SourceFile, span: Span) {
    && 0 <= span.start <= span.end <= |file.bytes|
    && (span.start == |file.bytes| || StartsCharacter(file.bytes[span.start]))
  }

  /** The offset of a character of the span; an empty span stands for the offset where it starts. */
  predicate InSpan(file: SourceFile, span: Span, offset: int)
    requires Readable(file, span)
  {
    offset == span.start || (span.start < offset < span.end && StartsCharacter(file.bytes[offset]))
  }

  /** Some character of the span stands on the line. */
  ghost predicate Touches(file: SourceFile, span: Span, line: int)
    requires Readable(file, span)
  {
    exists o: int :: InSpan(file, span, o) && LineOf(file.bytes, o) == line
  }

  lemma {:induction false} LinesGrow(bytes: seq<Byte>, a: nat, b: nat)
    requires a <= b <= |bytes|
    ensures LineOf(bytes, a) <= LineOf(bytes, b)
    decreases b
  {
    if a < b {
      LinesGrow(bytes, a, b - 1);
    }
  }

  /** A line left behind between two offsets ends there in a newline. */
  lemma {:induction false} LineEndsBetween(bytes: seq<Byte>, a: nat, b: nat, line: int) returns (o: nat)
    requires a <= b <= |bytes| && LineOf(bytes, a) <= line < LineOf(bytes, b)
    ensures a <= o < b && bytes[o] == NEWLINE && LineOf(bytes, o) == line
    decreases b
  {
    if LineOf(bytes, b - 1) == line {
      o := b - 1;
    } else {
      o := LineEndsBetween(bytes, a, b - 1, line);
    }
  }

  /** `physicalLineSpan`: the span of lines is exactly the lines the characters stand on. */
  method PhysicalLineSpan(file: SourceFile, span: Span) returns (lines: Option<LineRange>)
    ensures lines.Some? <==> Readable(file, span)
    ensures lines.Some? ==> lines.value.start <= lines.value.end
    ensures lines.Some? ==> forall line :: Touches(file, span, line) <==> Holds(lines.value, line)
  {
    if span.start < 0 || span.end < span.start || span.end > |file.bytes| {
      return None;
    }
    if span.start < |file.bytes| && !StartsCharacter(file.bytes[span.start]) {
      return None;
    }
    var endOffset: nat := span.end;
    if endOffset > span.start {
      endOffset := endOffset - 1;
      while endOffset > span.start && !StartsCharacter(file.bytes[endOffset])
        invariant span.start <= endOffset < span.end
        invariant forall o :: endOffset < o < span.end ==> !StartsCharacter(file.bytes[o])
      {
        endOffset := endOffset - 1;
      }
    }
    SpanOfLines(file, span, endOffset);
    return Some(LineRange(LineOf(file.bytes, span.start), LineOf(file.bytes, endOffset)));
  }

  lemma SpanOfLines(file: SourceFile, span: Span, endOffset: nat)
    requires Readable(file, span) && InSpan(file, span, endOffset)
    requires forall o :: endOffset < o < span.end ==> !StartsCharacter(file.bytes[o])
    ensures LineOf(file.bytes, span.start) <= LineOf(file.bytes, endOffset)
    ensures forall line :: Touches(file, span, line) <==>
      LineOf(file.bytes, span.start) <= line <= LineOf(file.bytes, endOffset)
  {
    LinesGrow(file.bytes, span.start, endOffset);
    forall line
      ensures Touches(file, span, line) <==> LineOf(file.bytes, span.start) <= line <= LineOf(file.bytes, endOffset)
    {
      if Touches(file, span, line) {
        var o: int :| InSpan(file, span, o) && LineOf(file.bytes, o) == line;
        LinesGrow(file.bytes, span.start, o);
        LinesGrow(file.bytes, o, endOffset);
      }
      if LineOf(file.bytes, span.start) <= line < LineOf(file.bytes, endOffset) {
        var o := LineEndsBetween(file.bytes, span.start, endOffset, line);
        assert InSpan(file, span, o);
      }
    }
  }

  // ---------- Filtering diagnostics ----------

  /** What the scope knows of a file: nothing, that all of it is new, or its changed lines. */
  datatype Change = Unchanged | Whole | Lines(ranges: seq<LineRange>)

  /** The change recorded for a path, and the digest of the source it was computed from. */
  datatype Scope = Scope(changes: map<string, Change>, versions: map<string, Digest>)

  datatype Edit = Edit(range_: Span, newText: Text)
  datatype Fix = Fix(name: Text, edits: seq<Edit>)
  datatype Diagnostic = Diagnostic(path: string, digest: Digest, range_: Span, message: Text, fixes: seq<Fix>)

  datatype Failure = WrongIdentity | StaleSource | InvalidRange

  function ChangeOf(scope: Scope, file: SourceFile): Change {
    if file.path in scope.changes then scope.changes[file.path] else Unchanged
  }

  predicate Stale(scope: Scope, file: SourceFile) {
    file.path in scope.changes && file.path in scope.versions && scope.versions[file.path] != file.digest
  }

  /** The span can be judged: its lines matter only when the change is given by lines. */
  predicate Judged(change: Change, file: SourceFile, span: Span) {
    change.Lines? ==> Readable(file, span)
  }

  ghost predicate InChange(change: Change, file: SourceFile, span: Span)
    requires Judged(change, file, span)
  {
    change.Whole? || (change.Lines? && exists line :: Touches(file, span, line) && Covered(change.ranges, line))
  }

  ghost predicate Owned(change: Change, file: SourceFile, span: Span)
    requires Judged(change, file, span)
  {
    change.Whole? || (change.Lines? && forall line :: Touches(file, span, line) ==> Covered(change.ranges, line))
  }

  /** Every edit up to the first unowned one can be judged. */
  ghost predicate FixJudged(change: Change, file: SourceFile, edits: seq<Edit>) {
    forall e :: 0 <= e < |edits| && !Judged(change, file, edits[e].range_) ==>
      exists d :: 0 <= d < e && Judged(change, file, edits[d].range_) && !Owned(change, file, edits[d].range_)
  }

  ghost predicate FixOwned(change: Change, file: SourceFile, fix: Fix) {
    forall e :: 0 <= e < |fix.edits| ==>
      Judged(change, file, fix.edits[e].range_) && Owned(change, file, fix.edits[e].range_)
  }

  ghost function KeepsFix(change: Change, file: SourceFile): Fix -> bool {
    fix => FixOwned(change, file, fix)
  }

  /** The diagnostic meets a changed line. */
  ghost function Shown(change: Change, file: SourceFile): Diagnostic -> bool {
    (d: Diagnostic) => Judged(change, file, d.range_) && InChange(change, file, d.range_)
  }

  ghost function Hidden(change: Change, file: SourceFile): Diagnostic -> bool {
    (d: Diagnostic) => !Shown(change, file)(d)
  }

  /** The diagnostic with only the fixes whose every edit lies on changed lines. */
  ghost function Narrowed(change: Change, file: SourceFile): Diagnostic -> Diagnostic {
    (d: Diagnostic) => d.(fixes := Filter(d.fixes, KeepsFix(change, file)))
  }

  ghost predicate DiagnosticJudged(scope: Scope, file: SourceFile, d: Diagnostic) {
    var change := ChangeOf(scope, file);
    && d.path == file.path && d.digest == file.digest
    && !Stale(scope, file)
    && Judged(change, file, d.range_)
    && (InChange(change, file, d.range_) ==>
      forall f :: 0 <= f < |d.fixes| ==> FixJudged(change, file, d.fixes[f].edits))
  }

  method SpanIntersects(scope: Scope, file: SourceFile, span: Span) returns (r: Result<bool, Failure>)
    requires WellFormed(scope)
    ensures r.Err? <==> Stale(scope, file) || !Judged(ChangeOf(scope, file), file, span)
    ensures r.Ok? ==> (r.value <==> InChange(ChangeOf(scope, file), file, span))
  {
    if Stale(scope, file) {
      return Err(StaleSource);
    }
    match ChangeOf(scope, file) {
      case Unchanged => return Ok(false);
      case Whole => return Ok(true);
      case Lines(ranges) =>
        var lines := PhysicalLineSpan(file, span);
        if lines.None? {
          return Err(InvalidRange);
        }
        var found := Intersects(ranges, lines.value);
        return Ok(found);
    }
  }

  method SpanOwned(scope: Scope, file: SourceFile, span: Span) returns (r: Result<bool, Failure>)
    ensures r.Err? <==> Stale(scope, file) || !Judged(ChangeOf(scope, file), file, span)
    ensures r.Ok? ==> (r.value <==> Owned(ChangeOf(scope, file), file, span))
  {
    if Stale(scope, file) {
      return Err(StaleSource);
    }
    match ChangeOf(scope, file) {
      case Unchanged => return Ok(false);
      case Whole => return Ok(true);
      case Lines(ranges) =>
        var lines := PhysicalLineSpan(file, span);
        if lines.None? {
          return Err(InvalidRange);
        }
        var owned := Owns(ranges, lines.value);
        return Ok(owned);
    }
  }

  /** The ranges of a scope are never empty, as `MergeRanges` leaves them. */
  ghost predicate WellFormed(scope: Scope) {
    forall path :: path in scope.changes && scope.changes[path].Lines? ==> Separate(scope.changes[path].ranges)
  }

  method FixIsOwned(scope: Scope, file: SourceFile, fix: Fix) returns (r: Result<bool, Failure>)
    requires !Stale(scope, file)
    ensures r.Err? <==> !FixJudged(ChangeOf(scope, file), file, fix.edits)
    ensures r.Ok? ==> (r.value <==> FixOwned(ChangeOf(scope, file), file, fix))
  {
    hide Owned;
    for e := 0 to |fix.edits|
      invariant forall d :: 0 <= d < e ==> Judged(ChangeOf(scope, file), file, fix.edits[d].range_)
      invariant forall d :: 0 <= d < e ==> Owned(ChangeOf(scope, file), file, fix.edits[d].range_)
    {
      var owned := SpanOwned(scope, file, fix.edits[e].range_);
      if owned.Err? {
        return Err(owned.error);
      }
      if !owned.value {
        return Ok(false);
      }
    }
    return Ok(true);
  }

  method KeepOwnedFixes(scope: Scope, file: SourceFile, d: Diagnostic) returns (r: Result<Diagnostic, Failure>)
    requires !Stale(scope, file)
    ensures r.Err? <==> !forall f :: 0 <= f < |d.fixes| ==> FixJudged(ChangeOf(scope, file), file, d.fixes[f].edits)
    ensures r.Ok? ==> r.value == Narrowed(ChangeOf(scope, file), file)(d)
  {
    hide FixJudged, FixOwned;
    var kept := [];
    for f := 0 to |d.fixes|
      invariant forall g :: 0 <= g < f ==> FixJudged(ChangeOf(scope, file), file, d.fixes[g].edits)
      invariant kept == Filter(d.fixes[..f], KeepsFix(ChangeOf(scope, file), file))
    {
      FilterSnoc(d.fixes, f, KeepsFix(ChangeOf(scope, file), file));
      var owned := FixIsOwned(scope, file, d.fixes[f]);
      if owned.Err? {
        return Err(owned.error);
      }
      if owned.value {
        kept := kept + [d.fixes[f]];
      }
    }
    assert d.fixes[..|d.fixes|] == d.fixes;
    return Ok(d.(fixes := kept));
  }

  /** A character of the range starts at the offset, or the range is empty and stands for it. */
  predicate Stands(file: SourceFile, span: Span, offset: int) {
    && 0 <= span.start <= offset <= |file.bytes|
    && (offset == span.start
        || (offset < span.end <= |file.bytes| && (file.bytes[offset] < 128 || file.bytes[offset] >= 192)))
  }

  predicate OnLines(file: SourceFile, ranges: seq<LineRange>, offset: int) {
    0 <= offset <= |file.bytes|
    && exists i :: 0 <= i < |ranges| && ranges[i].start <= LineOf(file.bytes, offset) <= ranges[i].end
  }

  /** In a file changed on some lines, a diagnostic is shown if one of its characters stands on such a line. */
  lemma ShownByLines(file: SourceFile, ranges: seq<LineRange>, d: Diagnostic)
    requires Readable(file, d.range_)
    ensures Shown(Lines(ranges), file)(d) <==>
      exists offset :: Stands(file, d.range_, offset) && OnLines(file, ranges, offset)
  {
    hide LineOf;
    if line :| Touches(file, d.range_, line) && Covered(ranges, line) {
      var o :| InSpan(file, d.range_, o) && LineOf(file.bytes, o) == line;
      assert Stands(file, d.range_, o) && OnLines(file, ranges, o);
    }
    if offset :| Stands(file, d.range_, offset) && OnLines(file, ranges, offset) {
      var i :| 0 <= i < |ranges| && ranges[i].start <= LineOf(file.bytes, offset) <= ranges[i].end;
      assert Holds(ranges[i], LineOf(file.bytes, offset));
      assert InSpan(file, d.range_, offset) && Touches(file, d.range_, LineOf(file.bytes, offset));
    }
  }

  /** A fix is offered if all characters of all its edits stand on such lines. */
  lemma KeptByLines(file: SourceFile, ranges: seq<LineRange>, fix: Fix)
    requires forall e :: 0 <= e < |fix.edits| ==> Readable(file, fix.edits[e].range_)
    ensures KeepsFix(Lines(ranges), file)(fix) <==>
      forall e, offset :: 0 <= e < |fix.edits| && Stands(file, fix.edits[e].range_, offset) ==>
        OnLines(file, ranges, offset)
  {
    hide LineOf, OnLines, Stands;
    forall e | 0 <= e < |fix.edits|
      ensures Owned(Lines(ranges), file, fix.edits[e].range_) <==>
        forall offset :: Stands(file, fix.edits[e].range_, offset) ==> OnLines(file, ranges, offset)
    {
      OwnedByLines(file, ranges, fix.edits[e].range_);
    }
  }

  lemma OwnedByLines(file: SourceFile, ranges: seq<LineRange>, span: Span)
    requires Readable(file, span)
    ensures Owned(Lines(ranges), file, span) <==>
      forall offset :: Stands(file, span, offset) ==> OnLines(file, ranges, offset)
  {
    hide LineOf;
    forall offset
      ensures Stands(file, span, offset) <==> InSpan(file, span, offset)
    {
    }
    forall offset | Stands(file, span, offset)
      ensures OnLines(file, ranges, offset) <==> Covered(ranges, LineOf(file.bytes, offset))
    {
      var line := LineOf(file.bytes, offset);
      assert forall i :: 0 <= i < |ranges| ==> (Holds(ranges[i], line) <==> ranges[i].start <= line <= ranges[i].end);
    }
    if forall line :: Touches(file, span, line) ==> Covered(ranges, line) {
      forall offset | Stands(file, span, offset)
        ensures OnLines(file, ranges, offset)
      {
        assert Touches(file, span, LineOf(file.bytes, offset));
      }
    }
  }

  lemma {:induction false} NothingShown(file: SourceFile, diagnostics: seq<Diagnostic>)
    ensures Filter(diagnostics, Shown(Unchanged, file)) == []
    ensures Filter(diagnostics, Hidden(Unchanged, file)) == diagnostics
    ensures Map(Filter(diagnostics, Shown(Unchanged, file)), Narrowed(Unchanged, file)) == []
    decreases |diagnostics|
  {
    if |diagnostics| > 0 {
      NothingShown(file, diagnostics[..|diagnostics| - 1]);
    }
  }

  lemma {:induction false} AllFixesKept(file: SourceFile, fixes: seq<Fix>)
    ensures Filter(fixes, KeepsFix(Whole, file)) == fixes
    decreases |fixes|
  {
    if |fixes| > 0 {
      AllFixesKept(file, fixes[..|fixes| - 1]);
    }
  }

  lemma {:induction false} EverythingShown(file: SourceFile, diagnostics: seq<Diagnostic>)
    ensures Filter(diagnostics, Hidden(Whole, file)) == [] && Filter(diagnostics, Shown(Whole, file)) == diagnostics
    ensures Map(Filter(diagnostics, Shown(Whole, file)), Narrowed(Whole, file)) == diagnostics
    decreases |diagnostics|
  {
    if |diagnostics| > 0 {
      var init, last := diagnostics[..|diagnostics| - 1], diagnostics[|diagnostics| - 1];
      EverythingShown(file, init);
      AllFixesKept(file, last.fixes);
      assert Narrowed(Whole, file)(last) == last;
    }
  }

  /** The diagnostics on changed lines and the others, both in order; the former offer only fixes of changed lines. */
  method FilterDiagnostics(scope: Scope, file: SourceFile, diagnostics: seq<Diagnostic>)
      returns (r: Result<(seq<Diagnostic>, seq<Diagnostic>), Failure>)
    requires WellFormed(scope)
    ensures r.Ok? <==> forall i :: 0 <= i < |diagnostics| ==> DiagnosticJudged(scope, file, diagnostics[i])
    ensures r.Ok? ==> var change := ChangeOf(scope, file);
      && r.value.0 == Map(Filter(diagnostics, Shown(change, file)), Narrowed(change, file))
      && r.value.1 == Filter(diagnostics, Hidden(change, file))
    ensures r.Ok? && |diagnostics| > 0 && file.path in scope.changes && file.path in scope.versions ==>
      scope.versions[file.path] == file.digest
    ensures r.Ok? && file.path !in scope.changes ==> r.value == ([], diagnostics)
    ensures r.Ok? && file.path in scope.changes && scope.changes[file.path].Whole? ==> r.value == (diagnostics, [])
  {
    hide InChange, Owned, FixJudged, FixOwned, WellFormed;
    ghost var change := ChangeOf(scope, file);
    var visible, preexisting := [], [];
    for i := 0 to |diagnostics|
      invariant forall j :: 0 <= j < i ==> DiagnosticJudged(scope, file, diagnostics[j])
      invariant visible == Map(Filter(diagnostics[..i], Shown(change, file)), Narrowed(change, file))
      invariant preexisting == Filter(diagnostics[..i], Hidden(change, file))
    {
      var d := diagnostics[i];
      FilterSnoc(diagnostics, i, Shown(change, file));
      FilterSnoc(diagnostics, i, Hidden(change, file));
      MapSnoc(Filter(diagnostics[..i], Shown(change, file)), d, Narrowed(change, file));
      if d.path != file.path || d.digest != file.digest {
        return Err(WrongIdentity);
      }
      var meets := SpanIntersects(scope, file, d.range_);
      if meets.Err? {
        return Err(meets.error);
      }
      if !meets.value {
        preexisting := preexisting + [d];
        continue;
      }
      var narrowed := KeepOwnedFixes(scope, file, d);
      if narrowed.Err? {
        return Err(narrowed.error);
      }
      visible := visible + [narrowed.value];
    }
    assert diagnostics[..|diagnostics|] == diagnostics;
    if file.path !in scope.changes {
      NothingShown(file, diagnostics);
    } else if scope.changes[file.path].Whole? {
      EverythingShown(file, diagnostics);
    }
    return Ok((visible, preexisting));
  }
}
