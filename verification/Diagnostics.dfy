/** The canonical order of diagnostics (sortDiagnostics and its comparisons in internal/analysis/engine.go). */
module Diagnostics {
  import opened Encoding
  import opened Ordering
  import opened Sorting

  datatype Range = Range(start: int, end: int)
  datatype Related = Related(range_: Range, message: Text)
  datatype Edit = Edit(range_: Range, newText: Text)
  datatype Import = Import(path: Text, name: Text)
  datatype Fix = Fix(name: Text, safety: Text, edits: seq<Edit>, imports: seq<Import>)
  datatype WithheldFix = WithheldFix(name: Text, reason: Text, message: Text)

  datatype Diagnostic = Diagnostic(
    path: Text, digest: Digest, range_: Range, ruleID: Text, severity: Text, messageKey: Text, message: Text,
      targets: seq<Text>,
    related: seq<Related>, notes: seq<Text>, help: Text, fixes: seq<Fix>, withheld: seq<WithheldFix>)

  // ---------- Comparisons, field after field ----------

  function RelatedFields(a: Related, b: Related): seq<int> {
    [CompareInt(a.range_.start, b.range_.start), CompareInt(a.range_.end, b.range_.end),
      CompareText(a.message, b.message)]
  }

  function CompareRelated(a: Related, b: Related): int {
    First(RelatedFields(a, b))
  }

  function EditFields(a: Edit, b: Edit): seq<int> {
    [CompareInt(a.range_.start, b.range_.start), CompareInt(a.range_.end, b.range_.end),
      CompareText(a.newText, b.newText)]
  }

  function CompareEdit(a: Edit, b: Edit): int {
    First(EditFields(a, b))
  }

  function ImportFields(a: Import, b: Import): seq<int> {
    [CompareText(a.path, b.path), CompareText(a.name, b.name)]
  }

  function CompareImport(a: Import, b: Import): int {
    First(ImportFields(a, b))
  }

  function FixFields(a: Fix, b: Fix): seq<int> {
    [CompareText(a.name, b.name), CompareText(a.safety, b.safety), CompareSeq(a.edits, b.edits, CompareEdit),
     CompareSeq(a.imports, b.imports, CompareImport)]
  }

  function CompareFix(a: Fix, b: Fix): int {
    First(FixFields(a, b))
  }

  function WithheldFields(a: WithheldFix, b: WithheldFix): seq<int> {
    [CompareText(a.name, b.name), CompareText(a.reason, b.reason), CompareText(a.message, b.message)]
  }

  function CompareWithheld(a: WithheldFix, b: WithheldFix): int {
    First(WithheldFields(a, b))
  }

  function Name(a: Text, b: Text): int {
    CompareText(a, b)
  }

  function Fields(a: Diagnostic, b: Diagnostic): seq<int> {
    [CompareText(a.path, b.path), CompareText(a.digest, b.digest), CompareInt(a.range_.start, b.range_.start),
     CompareInt(a.range_.end, b.range_.end), CompareText(a.ruleID, b.ruleID), CompareText(a.severity, b.severity),
     CompareText(a.messageKey, b.messageKey), CompareText(a.message, b.message), CompareSeq(a.targets, b.targets, Name),
     CompareSeq(a.related, b.related, CompareRelated), CompareSeq(a.notes, b.notes, Name), CompareText(a.help, b.help),
     CompareSeq(a.fixes, b.fixes, CompareFix), CompareSeq(a.withheld, b.withheld, CompareWithheld)]
  }

  function Compare(a: Diagnostic, b: Diagnostic): int {
    First(Fields(a, b))
  }

  /** Diagnostics are listed file by file, in the order in which their ranges start, then end, and then by rule. */
  lemma ListedByPosition(a: Diagnostic, b: Diagnostic)
    ensures (exists n: nat :: SmallerAt(a.path, b.path, n)) ==> Compare(a, b) < 0
    ensures a.path == b.path && a.digest == b.digest ==>
      && (a.range_.start < b.range_.start ==> Compare(a, b) < 0)
      && (a.range_.start == b.range_.start && a.range_.end < b.range_.end ==> Compare(a, b) < 0)
      && (a.range_ == b.range_ && (exists n: nat :: SmallerAt(a.ruleID, b.ruleID, n)) ==> Compare(a, b) < 0)
  {
    TextOrderIs(a.path, b.path);
    TextOrderIs(a.ruleID, b.ruleID);
    hide CompareText, CompareSeq, SmallerAt;
    TextLaws(a.path, b.path, b.path);
    TextLaws(a.digest, b.digest, b.digest);
    FirstDiffering(Fields(a, b));
  }

  lemma FirstDiffering(fields: seq<int>)
    requires |fields| > 4
    ensures First(fields) == if fields[0] != 0 then fields[0] else if fields[1] != 0 then fields[1]
                             else if fields[2] != 0 then fields[2] else if fields[3] != 0 then fields[3]
                             else if fields[4] != 0 then fields[4] else First(fields[5..])
  {
    assert First(fields[2..]) == if fields[2] != 0 then fields[2] else First(fields[3..]);
    assert First(fields[3..]) == if fields[3] != 0 then fields[3] else First(fields[4..]);
    assert First(fields[4..]) == if fields[4] != 0 then fields[4] else First(fields[5..]);
  }

  // ---------- The comparisons are total orders that tie only on equals ----------

  /** The fields of two values compare lawfully, and all tie only if the values are equal. */
  ghost predicate Laws(ab: seq<int>, ba: seq<int>, bc: seq<int>, ac: seq<int>, equal: bool) {
    && |ab| == |ba| == |bc| == |ac|
    && (forall i :: 0 <= i < |ab| ==> Flips(ab[i], ba[i]) && Chains(ab[i], bc[i], ac[i]))
    && ((forall i :: 0 <= i < |ab| ==> ab[i] == 0) <==> equal)
  }

  lemma FieldwiseIsLawful<T(!new)>(fields: (T, T) -> seq<int>, cmp: (T, T) -> int)
    requires forall a, b :: cmp(a, b) == First(fields(a, b))
    requires forall a, b, c :: Laws(fields(a, b), fields(b, a), fields(b, c), fields(a, c), a == b)
    ensures Lawful(cmp)
  {
    forall a: T, b: T
      ensures (cmp(a, b) == 0 <==> a == b) && (cmp(a, b) < 0 <==> cmp(b, a) > 0)
    {
      assert Laws(fields(a, b), fields(b, a), fields(b, b), fields(a, b), a == b);
      FirstZero(fields(a, b));
      FirstFlips(fields(a, b), fields(b, a));
    }
    forall a: T, b: T, c: T | cmp(a, b) <= 0 && cmp(b, c) <= 0
      ensures cmp(a, c) <= 0
    {
      FirstChains(fields(a, b), fields(b, c), fields(a, c));
    }
  }

  lemma RelatedLaws(a: Related, b: Related, c: Related)
    ensures Laws(RelatedFields(a, b), RelatedFields(b, a), RelatedFields(b, c), RelatedFields(a, c), a == b)
  {
    hide CompareText, CompareSeq;
    TextLaws(a.message, b.message, c.message);
    var ab := RelatedFields(a, b);
    if forall i :: 0 <= i < |ab| ==> ab[i] == 0 {
      assert ab[0] == 0 && ab[1] == 0 && ab[2] == 0;
    }
  }

  lemma RelatedOrderIsLawful()
    ensures Lawful(CompareRelated)
  {
    hide RelatedFields;
    forall a: Related, b: Related, c: Related
      ensures Laws(RelatedFields(a, b), RelatedFields(b, a), RelatedFields(b, c), RelatedFields(a, c), a == b)
    {
      RelatedLaws(a, b, c);
    }
    FieldwiseIsLawful(RelatedFields, CompareRelated);
  }

  lemma EditLaws(a: Edit, b: Edit, c: Edit)
    ensures Laws(EditFields(a, b), EditFields(b, a), EditFields(b, c), EditFields(a, c), a == b)
  {
    hide CompareText, CompareSeq;
    TextLaws(a.newText, b.newText, c.newText);
    var ab := EditFields(a, b);
    if forall i :: 0 <= i < |ab| ==> ab[i] == 0 {
      assert ab[0] == 0 && ab[1] == 0 && ab[2] == 0;
    }
  }

  lemma EditOrderIsLawful()
    ensures Lawful(CompareEdit)
  {
    hide EditFields;
    forall a: Edit, b: Edit, c: Edit
      ensures Laws(EditFields(a, b), EditFields(b, a), EditFields(b, c), EditFields(a, c), a == b)
    {
      EditLaws(a, b, c);
    }
    FieldwiseIsLawful(EditFields, CompareEdit);
  }

  lemma ImportLaws(a: Import, b: Import, c: Import)
    ensures Laws(ImportFields(a, b), ImportFields(b, a), ImportFields(b, c), ImportFields(a, c), a == b)
  {
    hide CompareText, CompareSeq;
    TextLaws(a.path, b.path, c.path);
    TextLaws(a.name, b.name, c.name);
    var ab := ImportFields(a, b);
    if forall i :: 0 <= i < |ab| ==> ab[i] == 0 {
      assert ab[0] == 0 && ab[1] == 0;
    }
  }

  lemma ImportOrderIsLawful()
    ensures Lawful(CompareImport)
  {
    hide ImportFields;
    forall a: Import, b: Import, c: Import
      ensures Laws(ImportFields(a, b), ImportFields(b, a), ImportFields(b, c), ImportFields(a, c), a == b)
    {
      ImportLaws(a, b, c);
    }
    FieldwiseIsLawful(ImportFields, CompareImport);
  }

  lemma FixLaws(a: Fix, b: Fix, c: Fix)
    ensures Laws(FixFields(a, b), FixFields(b, a), FixFields(b, c), FixFields(a, c), a == b)
  {
    hide CompareText, CompareSeq;
    EditOrderIsLawful();
    ImportOrderIsLawful();
    TextLaws(a.name, b.name, c.name);
    TextLaws(a.safety, b.safety, c.safety);
    CompareSeqLaws(a.edits, b.edits, c.edits, CompareEdit);
    CompareSeqLaws(a.imports, b.imports, c.imports, CompareImport);
    var ab := FixFields(a, b);
    if forall i :: 0 <= i < |ab| ==> ab[i] == 0 {
      assert ab[0] == 0 && ab[1] == 0 && ab[2] == 0 && ab[3] == 0;
    }
  }

  lemma FixOrderIsLawful()
    ensures Lawful(CompareFix)
  {
    hide FixFields;
    forall a: Fix, b: Fix, c: Fix
      ensures Laws(FixFields(a, b), FixFields(b, a), FixFields(b, c), FixFields(a, c), a == b)
    {
      FixLaws(a, b, c);
    }
    FieldwiseIsLawful(FixFields, CompareFix);
  }

  lemma WithheldLaws(a: WithheldFix, b: WithheldFix, c: WithheldFix)
    ensures Laws(WithheldFields(a, b), WithheldFields(b, a), WithheldFields(b, c), WithheldFields(a, c), a == b)
  {
    hide CompareText, CompareSeq;
    TextLaws(a.name, b.name, c.name);
    TextLaws(a.reason, b.reason, c.reason);
    TextLaws(a.message, b.message, c.message);
    var ab := WithheldFields(a, b);
    if forall i :: 0 <= i < |ab| ==> ab[i] == 0 {
      assert ab[0] == 0 && ab[1] == 0 && ab[2] == 0;
    }
  }

  lemma WithheldOrderIsLawful()
    ensures Lawful(CompareWithheld)
  {
    hide WithheldFields;
    forall a: WithheldFix, b: WithheldFix, c: WithheldFix
      ensures Laws(WithheldFields(a, b), WithheldFields(b, a), WithheldFields(b, c), WithheldFields(a, c), a == b)
    {
      WithheldLaws(a, b, c);
    }
    FieldwiseIsLawful(WithheldFields, CompareWithheld);
  }

  lemma NameOrderIsLawful()
    ensures Lawful(Name)
  {
    forall a: Text, b: Text, c: Text
      ensures Name(a, b) == 0 <==> a == b
      ensures Name(a, b) < 0 <==> Name(b, a) > 0
      ensures Name(a, b) <= 0 && Name(b, c) <= 0 ==> Name(a, c) <= 0
    {
      TextLaws(a, b, c);
    }
  }

  lemma DiagnosticTextLaws(a: Diagnostic, b: Diagnostic, c: Diagnostic)
    ensures forall i :: 0 <= i < 8 || i == 11 ==>
      Flips(Fields(a, b)[i], Fields(b, a)[i]) && Chains(Fields(a, b)[i], Fields(b, c)[i], Fields(a, c)[i])
  {
    hide CompareText, CompareSeq;
    TextLaws(a.path, b.path, c.path);
    TextLaws(a.digest, b.digest, c.digest);
    TextLaws(a.ruleID, b.ruleID, c.ruleID);
    TextLaws(a.severity, b.severity, c.severity);
    TextLaws(a.messageKey, b.messageKey, c.messageKey);
    TextLaws(a.message, b.message, c.message);
    TextLaws(a.help, b.help, c.help);
  }

  lemma DiagnosticTextTies(a: Diagnostic, b: Diagnostic)
    ensures (forall i :: 0 <= i < 8 || i == 11 ==> Fields(a, b)[i] == 0) <==>
      a == b.(targets := a.targets, related := a.related, notes := a.notes, fixes := a.fixes, withheld := a.withheld)
  {
    hide CompareText, CompareSeq, Flips, Chains;
    TextLaws(a.path, b.path, b.path);
    TextLaws(a.digest, b.digest, b.digest);
    TextLaws(a.ruleID, b.ruleID, b.ruleID);
    TextLaws(a.severity, b.severity, b.severity);
    TextLaws(a.messageKey, b.messageKey, b.messageKey);
    TextLaws(a.message, b.message, b.message);
    TextLaws(a.help, b.help, b.help);
    var ab := Fields(a, b);
    if forall i :: 0 <= i < 8 || i == 11 ==> ab[i] == 0 {
      assert ab[0] == 0 && ab[1] == 0 && ab[2] == 0 && ab[3] == 0 && ab[4] == 0 && ab[5] == 0 && ab[6] == 0
        && ab[7] == 0 && ab[11] == 0;
    }
  }

  lemma DiagnosticListLaws(a: Diagnostic, b: Diagnostic, c: Diagnostic)
    ensures forall i :: 8 <= i < 14 && i != 11 ==>
      Flips(Fields(a, b)[i], Fields(b, a)[i]) && Chains(Fields(a, b)[i], Fields(b, c)[i], Fields(a, c)[i])
    ensures (forall i :: 8 <= i < 14 && i != 11 ==> Fields(a, b)[i] == 0) <==>
      a == a.(targets := b.targets, related := b.related, notes := b.notes, fixes := b.fixes, withheld := b.withheld)
  {
    hide CompareText, CompareSeq, Lawful;
    RelatedOrderIsLawful();
    NameOrderIsLawful();
    FixOrderIsLawful();
    WithheldOrderIsLawful();
    CompareSeqLaws(a.targets, b.targets, c.targets, Name);
    CompareSeqLaws(a.related, b.related, c.related, CompareRelated);
    CompareSeqLaws(a.notes, b.notes, c.notes, Name);
    CompareSeqLaws(a.fixes, b.fixes, c.fixes, CompareFix);
    CompareSeqLaws(a.withheld, b.withheld, c.withheld, CompareWithheld);
    var ab := Fields(a, b);
    if forall i :: 8 <= i < 14 && i != 11 ==> ab[i] == 0 {
      assert ab[8] == 0 && ab[9] == 0 && ab[10] == 0 && ab[12] == 0 && ab[13] == 0;
    }
  }

  lemma DiagnosticLaws(a: Diagnostic, b: Diagnostic, c: Diagnostic)
    ensures Laws(Fields(a, b), Fields(b, a), Fields(b, c), Fields(a, c), a == b)
  {
    hide Fields, Flips, Chains;
    FieldCount(a, b);
    FieldCount(b, a);
    FieldCount(b, c);
    FieldCount(a, c);
    DiagnosticTextLaws(a, b, c);
    DiagnosticTextTies(a, b);
    DiagnosticListLaws(a, b, c);
  }

  lemma FieldCount(a: Diagnostic, b: Diagnostic)
    ensures |Fields(a, b)| == 14
  {
  }

  /** The diagnostic comparison is a total order that ties only on equal diagnostics. */
  lemma DiagnosticOrderIsLawful()
    ensures Lawful(Compare)
  {
    hide Fields;
    forall a: Diagnostic, b: Diagnostic, c: Diagnostic
      ensures Laws(Fields(a, b), Fields(b, a), Fields(b, c), Fields(a, c), a == b)
    {
      DiagnosticLaws(a, b, c);
    }
    FieldwiseIsLawful(Fields, Compare);
  }

  // ---------- The loops ----------

  /** Elements that tie do not decide. */
  lemma {:induction false} CompareRest<T(!new)>(xs: seq<T>, ys: seq<T>, cmp: (T, T) -> int, i: nat)
    requires i <= |xs| && i <= |ys| && forall j :: 0 <= j < i ==> cmp(xs[j], ys[j]) == 0
    ensures CompareSeq(xs, ys, cmp) == CompareSeq(xs[i..], ys[i..], cmp)
    decreases i
  {
    if i > 0 {
      CompareRest(xs, ys, cmp, i - 1);
      assert xs[i - 1..][1..] == xs[i..] && ys[i - 1..][1..] == ys[i..];
    } else {
      assert xs[0..] == xs && ys[0..] == ys;
    }
  }

  lemma CompareDecides<T(!new)>(xs: seq<T>, ys: seq<T>, cmp: (T, T) -> int, i: nat)
    requires i <= |xs| && i <= |ys| && forall j :: 0 <= j < i ==> cmp(xs[j], ys[j]) == 0
    ensures i < |xs| && i < |ys| && cmp(xs[i], ys[i]) != 0 ==> CompareSeq(xs, ys, cmp) == cmp(xs[i], ys[i])
    ensures i == |xs| || i == |ys| ==> CompareSeq(xs, ys, cmp) == CompareInt(|xs|, |ys|)
  {
    CompareRest(xs, ys, cmp, i);
  }

  /** The loop of `compareRelated` and `compareWithheldFixes`, and those of `compareFixes` over edits and imports. */
  method CompareLists<T(!new)>(left: seq<T>, right: seq<T>, cmp: (T, T) -> int) returns (order: int)
    ensures order == CompareSeq(left, right, cmp)
  {
    hide CompareSeq;
    var shorter := if |left| < |right| then |left| else |right|;
    for i := 0 to shorter
      invariant forall j :: 0 <= j < i ==> cmp(left[j], right[j]) == 0
    {
      CompareDecides(left, right, cmp, i);
      order := cmp(left[i], right[i]);
      if order != 0 {
        return;
      }
    }
    CompareDecides(left, right, cmp, shorter);
    order := CompareInt(|left|, |right|);
  }

  /** `compareFixes`. */
  method CompareFixes(left: seq<Fix>, right: seq<Fix>) returns (order: int)
    ensures order == CompareSeq(left, right, CompareFix)
  {
    hide CompareSeq, CompareText, First;
    var shorter := if |left| < |right| then |left| else |right|;
    for i := 0 to shorter
      invariant forall j :: 0 <= j < i ==> CompareFix(left[j], right[j]) == 0
    {
      CompareDecides(left, right, CompareFix, i);
      var edits := CompareLists(left[i].edits, right[i].edits, CompareEdit);
      var imports := CompareLists(left[i].imports, right[i].imports, CompareImport);
      order := First([CompareText(left[i].name, right[i].name), CompareText(left[i].safety, right[i].safety), edits,
        imports]);
      if order != 0 {
        return;
      }
    }
    CompareDecides(left, right, CompareFix, shorter);
    order := CompareInt(|left|, |right|);
  }

  // ---------- The canonical order ----------

  predicate AtMost(a: Diagnostic, b: Diagnostic) {
    Compare(a, b) <= 0
  }

  lemma AtMostIsLinear()
    ensures Linear(AtMost) && Antisymmetric(AtMost)
  {
    hide Compare;
    DiagnosticOrderIsLawful();
    forall a: Diagnostic, b: Diagnostic
      ensures AtMost(a, b) || AtMost(b, a)
      ensures AtMost(a, b) && AtMost(b, a) ==> a == b
    {
      LawfulChains(Compare, a, b, b);
    }
    forall a: Diagnostic, b: Diagnostic, c: Diagnostic | AtMost(a, b) && AtMost(b, c)
      ensures AtMost(a, c)
    {
      LawfulChains(Compare, a, b, c);
    }
  }

  function OrderDiagnostics(diagnostics: seq<Diagnostic>): seq<Diagnostic> {
    Sort(diagnostics, AtMost)
  }

  /** Ordering keeps the diagnostics, sorts them, and gives the same list for every permutation. */
  lemma OrderIsCanonical(xs: seq<Diagnostic>, ys: seq<Diagnostic>)
    ensures multiset(OrderDiagnostics(xs)) == multiset(xs) && Sorted(OrderDiagnostics(xs), AtMost)
    ensures multiset(xs) == multiset(ys) <==> OrderDiagnostics(xs) == OrderDiagnostics(ys)
  {
    AtMostIsLinear();
    SortIsSorted(xs, AtMost);
    SortIsSorted(ys, AtMost);
    if multiset(xs) == multiset(ys) {
      SortIsCanonical(xs, ys, AtMost);
    }
  }
}
