/** The bytes a cache key is the digest of (internal/cache/key.go). */
module CacheKey {
  import opened Encoding
  import opened Ordering
  import opened Sorting
  import opened Wrappers

  type List<T> = s: seq<T> | |s| < TWO_63 witness []

  datatype Component = Component(kind: Text, identity: Text, digest: Digest)

  datatype RuleInput = RuleInput(id: Text, severity: Text, options: Digest)

  datatype KeyInput = KeyInput(
    namespace: Text, toolVersion: Text, buildGoVersion: Text, sourceGoVersion: Text, configuration: Digest,
    rules: List<RuleInput>, buildTags: List<Text>, goos: Text, goarch: Text, cgoEnabled: bool, formatterMode: Text,
    components: List<Component>)

  const COMPONENT_KINDS: set<Text> := {
    Ascii("source"), Ascii("module"), Ascii("workspace"), Ascii("overlay"),
    Ascii("build-selection"), Ascii("environment"), Ascii("dependency-export"), Ascii("fact")
  }

  // ---------- Validation ----------

  /** `blank(s)`: nothing but white space is left of `s`. */
  ghost predicate Valid(input: KeyInput, blank: Text -> bool) {
    && !blank(input.namespace) && !blank(input.toolVersion) && !blank(input.buildGoVersion)
      && !blank(input.sourceGoVersion)
    && !blank(input.goos) && !blank(input.goarch) && !blank(input.formatterMode)
    && input.configuration != ZERO_DIGEST && |input.components| > 0
    && (forall i :: 0 <= i < |input.buildTags| ==> !blank(input.buildTags[i]))
    && ValidRules(input.rules, blank) && ValidComponents(input.components, blank)
  }

  ghost predicate ValidRules(rules: seq<RuleInput>, blank: Text -> bool) {
    && (forall i :: 0 <= i < |rules| ==>
      !blank(rules[i].id) && !blank(rules[i].severity) && rules[i].options != ZERO_DIGEST)
    && (forall i, j :: 0 <= i < j < |rules| ==> rules[i].id != rules[j].id)
  }

  ghost predicate ValidComponents(components: seq<Component>, blank: Text -> bool) {
    && (forall i :: 0 <= i < |components| ==>
          components[i].kind in COMPONENT_KINDS && !blank(components[i].identity)
            && components[i].digest != ZERO_DIGEST)
    && (forall i, j :: 0 <= i < j < |components| ==>
          components[i].kind != components[j].kind || components[i].identity != components[j].identity)
  }

  datatype Error = MissingValue | MissingConfiguration | NoComponents | BlankTag | BadRule | DuplicateRule |
    BadComponent | DuplicateComponent

  method Validate(input: KeyInput, blank: Text -> bool) returns (error: Option<Error>)
    ensures error.None? <==> Valid(input, blank)
  {
    if blank(input.namespace) || blank(input.toolVersion) || blank(input.buildGoVersion) || blank(input.sourceGoVersion)
       || blank(input.goos) || blank(input.goarch) || blank(input.formatterMode) {
      return Some(MissingValue);
    }
    if input.configuration == ZERO_DIGEST {
      return Some(MissingConfiguration);
    }
    if |input.components| == 0 {
      return Some(NoComponents);
    }
    for t := 0 to |input.buildTags|
      invariant forall i :: 0 <= i < t ==> !blank(input.buildTags[i])
    {
      if blank(input.buildTags[t]) {
        return Some(BlankTag);
      }
    }
    error := ValidateRules(input.rules, blank);
    if error.None? {
      error := ValidateComponents(input.components, blank);
    }
  }

  method ValidateRules(rules: seq<RuleInput>, blank: Text -> bool) returns (error: Option<Error>)
    ensures error.None? <==> ValidRules(rules, blank)
  {
    var ruleIds: set<Text> := {};
    for r := 0 to |rules|
      invariant ValidRules(rules[..r], blank)
      invariant forall id :: id in ruleIds <==> exists i :: 0 <= i < r && rules[i].id == id
    {
      var rule := rules[r];
      if blank(rule.id) || blank(rule.severity) || rule.options == ZERO_DIGEST {
        return Some(BadRule);
      }
      if rule.id in ruleIds {
        return Some(DuplicateRule);
      }
      ruleIds := ruleIds + {rule.id};
    }
    assert rules[..|rules|] == rules;
    return None;
  }

  method ValidateComponents(components: seq<Component>, blank: Text -> bool) returns (error: Option<Error>)
    ensures error.None? <==> ValidComponents(components, blank)
  {
    var seen: set<(Text, Text)> := {};
    for c := 0 to |components|
      invariant ValidComponents(components[..c], blank)
      invariant forall k, d :: (k, d) in seen <==>
        exists i :: 0 <= i < c && components[i].kind == k && components[i].identity == d
    {
      var component := components[c];
      if component.kind !in COMPONENT_KINDS || blank(component.identity) || component.digest == ZERO_DIGEST {
        return Some(BadComponent);
      }
      if (component.kind, component.identity) in seen {
        return Some(DuplicateComponent);
      }
      seen := seen + {(component.kind, component.identity)};
    }
    assert components[..|components|] == components;
    return None;
  }

  // ---------- Canonical order ----------

  predicate TagLe(a: Text, b: Text) {
    CompareText(a, b) <= 0
  }

  predicate RuleLe(a: RuleInput, b: RuleInput) {
    CompareText(a.id, b.id) <= 0
  }

  predicate ComponentLe(a: Component, b: Component) {
    if a.kind != b.kind then CompareText(a.kind, b.kind) <= 0 else CompareText(a.identity, b.identity) <= 0
  }

  function CanonicalTags(input: KeyInput): seq<Text> {
    Compact(Sort(input.buildTags, TagLe))
  }

  function CanonicalRules(input: KeyInput): seq<RuleInput> {
    Sort(input.rules, RuleLe)
  }

  function CanonicalComponents(input: KeyInput): seq<Component> {
    Sort(input.components, ComponentLe)
  }

  // ---------- The stream ----------

  datatype Piece = S(text: Text) | D(digest: Digest) | N(number: nat)

  function EncodePiece(p: Piece): seq<Byte> {
    match p
    case S(text) => Str(text)
    case D(digest) => digest
    case N(number) => U64(number)
  }

  function Flatten(ps: seq<Piece>): seq<Byte> {
    if |ps| == 0 then [] else Flatten(ps[..|ps| - 1]) + EncodePiece(ps[|ps| - 1])
  }

  function RulePieces(rules: seq<RuleInput>): (ps: seq<Piece>)
    ensures |ps| == 3 * |rules|
  {
    if |rules| == 0 then []
    else
      var rule := rules[|rules| - 1];
      RulePieces(rules[..|rules| - 1]) + [S(rule.id), S(rule.severity), D(rule.options)]
  }

  function ComponentPieces(components: seq<Component>): (ps: seq<Piece>)
    ensures |ps| == 3 * |components|
  {
    if |components| == 0 then []
    else
      var component := components[|components| - 1];
      ComponentPieces(components[..|components| - 1]) + [S(component.kind), S(component.identity), D(component.digest)]
  }

  function TagPieces(tags: seq<Text>): (ps: seq<Piece>)
    ensures |ps| == |tags|
  {
    seq(|tags|, i requires 0 <= i < |tags| => S(tags[i]))
  }

  function CgoText(enabled: bool): Text {
    if enabled then Ascii("cgo-enabled") else Ascii("cgo-disabled")
  }

  function HeadPieces(input: KeyInput): seq<Piece> {
    [S(Ascii("glippy-cache-key-v1")), S(input.namespace), S(input.toolVersion), S(input.buildGoVersion),
     S(input.sourceGoVersion), D(input.configuration), N(|CanonicalTags(input)|)]
  }

  function MiddlePieces(input: KeyInput): seq<Piece> {
    [S(input.goos), S(input.goarch), S(CgoText(input.cgoEnabled)), S(input.formatterMode), N(|CanonicalRules(input)|)]
  }

  function Pieces(input: KeyInput): seq<Piece> {
    HeadPieces(input) + TagPieces(CanonicalTags(input)) + MiddlePieces(input) + RulePieces(CanonicalRules(input))
    + [N(|CanonicalComponents(input)|)] + ComponentPieces(CanonicalComponents(input))
  }

  function Stream(input: KeyInput): seq<Byte> {
    Flatten(Pieces(input))
  }

  // ---------- Injectivity ----------

  ghost predicate SameShape(ps: seq<Piece>, qs: seq<Piece>) {
    |ps| == |qs| && forall i :: 0 <= i < |ps| ==>
      (ps[i].S? <==> qs[i].S?) && (ps[i].D? <==> qs[i].D?) && (ps[i].N? ==> ps[i].number < TWO_64)
        && (qs[i].N? ==> qs[i].number < TWO_64)
  }

  lemma {:induction false} FlattenConcat(ps: seq<Piece>, qs: seq<Piece>)
    ensures Flatten(ps + qs) == Flatten(ps) + Flatten(qs)
    decreases |qs|
  {
    hide EncodePiece;
    if |qs| == 0 {
      assert ps + qs == ps;
    } else {
      FlattenConcat(ps, qs[..|qs| - 1]);
      assert (ps + qs)[..|ps + qs| - 1] == ps + qs[..|qs| - 1];
    }
  }

  lemma LastShape(ps: seq<Piece>, qs: seq<Piece>)
    requires SameShape(ps, qs)
    ensures |ps| == |qs|
    ensures |ps| > 0 ==> SameShape(ps[..|ps| - 1], qs[..|qs| - 1]) && SameShape([ps[|ps| - 1]], [qs[|qs| - 1]])
  {
  }

  lemma PieceSplits(p: Piece, q: Piece, x: seq<Byte>, y: seq<Byte>)
    requires SameShape([p], [q]) && EncodePiece(p) + x == EncodePiece(q) + y
    ensures p == q && x == y
  {
    assert [p][0] == p && [q][0] == q;
    hide Str, U64;
    match p {
      case S(text) => StrSplits(text, q.text, x, y);
      case D(digest) => DigestSplits(digest, q.digest, x, y);
      case N(number) => U64Splits(number, q.number, x, y);
    }
  }

  /** Pieces of the same shape are recovered from the stream, and so is what follows them. */
  lemma {:induction false} FlattenSplits(ps: seq<Piece>, qs: seq<Piece>, x: seq<Byte>, y: seq<Byte>)
    requires SameShape(ps, qs) && Flatten(ps) + x == Flatten(qs) + y
    ensures ps == qs && x == y
    decreases |ps|
  {
    hide EncodePiece, SameShape;
    LastShape(ps, qs);
    if |ps| == 0 {
      assert [] + x == x && [] + y == y;
    } else {
      var p, q := ps[|ps| - 1], qs[|qs| - 1];
      var ps', qs' := ps[..|ps| - 1], qs[..|qs| - 1];
      assert Flatten(ps) + x == Flatten(ps') + (EncodePiece(p) + x);
      assert Flatten(qs) + y == Flatten(qs') + (EncodePiece(q) + y);
      FlattenSplits(ps', qs', EncodePiece(p) + x, EncodePiece(q) + y);
      PieceSplits(p, q, x, y);
      assert ps == ps' + [p] && qs == qs' + [q];
    }
  }

  lemma {:induction false} RulePiecesInjective(xs: seq<RuleInput>, ys: seq<RuleInput>)
    requires |xs| == |ys|
    ensures SameShape(RulePieces(xs), RulePieces(ys))
    ensures RulePieces(xs) == RulePieces(ys) ==> xs == ys
    decreases |xs|
  {
    if |xs| > 0 {
      var xs', ys' := xs[..|xs| - 1], ys[..|ys| - 1];
      RulePiecesInjective(xs', ys');
      var n := 3 * |xs'|;
      if RulePieces(xs) == RulePieces(ys) {
        assert RulePieces(xs)[..n] == RulePieces(xs') && RulePieces(ys)[..n] == RulePieces(ys');
        assert RulePieces(xs)[n] == RulePieces(ys)[n] && RulePieces(xs)[n + 1] == RulePieces(ys)[n + 1]
          && RulePieces(xs)[n + 2] == RulePieces(ys)[n + 2];
        assert xs == xs' + [xs[|xs| - 1]] && ys == ys' + [ys[|ys| - 1]];
      }
    }
  }

  lemma {:induction false} ComponentPiecesInjective(xs: seq<Component>, ys: seq<Component>)
    requires |xs| == |ys|
    ensures SameShape(ComponentPieces(xs), ComponentPieces(ys))
    ensures ComponentPieces(xs) == ComponentPieces(ys) ==> xs == ys
    decreases |xs|
  {
    if |xs| > 0 {
      var xs', ys' := xs[..|xs| - 1], ys[..|ys| - 1];
      ComponentPiecesInjective(xs', ys');
      var n := 3 * |xs'|;
      var ps, qs := ComponentPieces(xs), ComponentPieces(ys);
      if ps == qs {
        assert ps[..n] == ComponentPieces(xs') && qs[..n] == ComponentPieces(ys');
        assert ps[n] == qs[n] && ps[n + 1] == qs[n + 1] && ps[n + 2] == qs[n + 2];
        assert xs == xs' + [xs[|xs| - 1]] && ys == ys' + [ys[|ys| - 1]];
      }
    }
  }

  lemma CanonicalSizes(input: KeyInput)
    ensures |CanonicalTags(input)| < TWO_64 && |CanonicalRules(input)| < TWO_64 && |CanonicalComponents(input)| < TWO_64
  {
    TagOrder();
    RuleOrder();
    ComponentOrder();
    SortIsSorted(input.buildTags, TagLe);
    SortIsSorted(input.rules, RuleLe);
    SortIsSorted(input.components, ComponentLe);
  }

  lemma TagOrder()
    ensures Linear(TagLe) && Antisymmetric(TagLe)
  {
    TextIsLawful();
  }

  lemma RuleOrder()
    ensures Linear(RuleLe)
    ensures forall a, b :: RuleLe(a, b) && RuleLe(b, a) ==> a.id == b.id
  {
    TextIsLawful();
  }

  lemma ComponentOrder()
    ensures Linear(ComponentLe)
    ensures forall a, b :: ComponentLe(a, b) && ComponentLe(b, a) ==> a.kind == b.kind && a.identity == b.identity
  {
    TextIsLawful();
  }

  // ---------- The key says what the input is ----------

  /** The same inputs: tags as a set, rules and components as sets of distinctly named records. */
  ghost predicate SameInput(a: KeyInput, b: KeyInput) {
    && a.namespace == b.namespace && a.toolVersion == b.toolVersion && a.buildGoVersion == b.buildGoVersion
    && a.sourceGoVersion == b.sourceGoVersion && a.configuration == b.configuration
    && a.goos == b.goos && a.goarch == b.goarch && a.cgoEnabled == b.cgoEnabled && a.formatterMode == b.formatterMode
    && (forall t :: t in a.buildTags <==> t in b.buildTags)
    && (forall r :: r in a.rules <==> r in b.rules)
    && (forall c :: c in a.components <==> c in b.components)
  }

  ghost predicate SameCanonical(a: KeyInput, b: KeyInput) {
    && HeadPieces(a) == HeadPieces(b) && MiddlePieces(a) == MiddlePieces(b)
    && CanonicalTags(a) == CanonicalTags(b) && CanonicalRules(a) == CanonicalRules(b)
    && CanonicalComponents(a) == CanonicalComponents(b)
  }

  ghost function AfterRules(input: KeyInput): seq<Byte> {
    U64(|CanonicalComponents(input)|) + Flatten(ComponentPieces(CanonicalComponents(input)))
  }

  ghost function AfterMiddle(input: KeyInput): seq<Byte> {
    Flatten(RulePieces(CanonicalRules(input))) + AfterRules(input)
  }

  ghost function AfterTags(input: KeyInput): seq<Byte> {
    Flatten(MiddlePieces(input)) + AfterMiddle(input)
  }

  ghost function AfterHead(input: KeyInput): seq<Byte> {
    Flatten(TagPieces(CanonicalTags(input))) + AfterTags(input)
  }

  lemma FlattenSix(h: seq<Piece>, t: seq<Piece>, m: seq<Piece>, r: seq<Piece>, n: seq<Piece>, c: seq<Piece>)
    ensures Flatten(h + t + m + r + n + c) == Flatten(h) + Flatten(t) + Flatten(m) + Flatten(r) + Flatten(n)
      + Flatten(c)
  {
    hide Flatten;
    FlattenConcat(h + t + m + r + n, c);
    FlattenConcat(h + t + m + r, n);
    FlattenConcat(h + t + m, r);
    FlattenConcat(h + t, m);
    FlattenConcat(h, t);
  }

  lemma SixReassociate(h: seq<Byte>, t: seq<Byte>, m: seq<Byte>, r: seq<Byte>, n: seq<Byte>, c: seq<Byte>)
    ensures h + t + m + r + n + c == h + (t + (m + (r + (n + c))))
  {
    assert r + n + c == r + (n + c);
    assert h + t + m + r + n + c == h + t + m + (r + (n + c));
    assert h + t + m + (r + (n + c)) == h + t + (m + (r + (n + c)));
  }

  lemma StreamParts(input: KeyInput)
    ensures Stream(input) == Flatten(HeadPieces(input)) + AfterHead(input)
  {
    hide Flatten, HeadPieces, MiddlePieces, RulePieces, ComponentPieces, TagPieces, CanonicalTags, CanonicalRules,
      CanonicalComponents;
    FlattenSix(HeadPieces(input), TagPieces(CanonicalTags(input)), MiddlePieces(input),
      RulePieces(CanonicalRules(input)),
               [N(|CanonicalComponents(input)|)], ComponentPieces(CanonicalComponents(input)));
    SingleNumber(|CanonicalComponents(input)|);
    SixReassociate(Flatten(HeadPieces(input)), Flatten(TagPieces(CanonicalTags(input))), Flatten(MiddlePieces(input)),
                   Flatten(RulePieces(CanonicalRules(input))), U64(|CanonicalComponents(input)|),
                   Flatten(ComponentPieces(CanonicalComponents(input))));
  }

  lemma HeadSplits(a: KeyInput, b: KeyInput)
    requires Flatten(HeadPieces(a)) + AfterHead(a) == Flatten(HeadPieces(b)) + AfterHead(b)
    ensures HeadPieces(a) == HeadPieces(b) && AfterHead(a) == AfterHead(b) && |CanonicalTags(a)| == |CanonicalTags(b)|
  {
    hide Flatten, AfterHead, CanonicalTags;
    CanonicalSizes(a);
    CanonicalSizes(b);
    FlattenSplits(HeadPieces(a), HeadPieces(b), AfterHead(a), AfterHead(b));
    assert HeadPieces(a)[6] == N(|CanonicalTags(a)|) && HeadPieces(b)[6] == N(|CanonicalTags(b)|);
  }

  lemma TagsSplit(s: seq<Text>, t: seq<Text>, x: seq<Byte>, y: seq<Byte>)
    requires |s| == |t| && Flatten(TagPieces(s)) + x == Flatten(TagPieces(t)) + y
    ensures s == t && x == y
  {
    hide Flatten;
    FlattenSplits(TagPieces(s), TagPieces(t), x, y);
    assert forall i :: 0 <= i < |s| ==> TagPieces(s)[i] == S(s[i]) && TagPieces(t)[i] == S(t[i]);
  }

  lemma MiddleSplits(a: KeyInput, b: KeyInput)
    requires Flatten(MiddlePieces(a)) + AfterMiddle(a) == Flatten(MiddlePieces(b)) + AfterMiddle(b)
    ensures MiddlePieces(a) == MiddlePieces(b) && AfterMiddle(a) == AfterMiddle(b)
    ensures |CanonicalRules(a)| == |CanonicalRules(b)|
  {
    hide Flatten, AfterMiddle, CanonicalRules;
    CanonicalSizes(a);
    CanonicalSizes(b);
    FlattenSplits(MiddlePieces(a), MiddlePieces(b), AfterMiddle(a), AfterMiddle(b));
    assert MiddlePieces(a)[4] == N(|CanonicalRules(a)|) && MiddlePieces(b)[4] == N(|CanonicalRules(b)|);
  }

  lemma RulesSplit(xs: seq<RuleInput>, ys: seq<RuleInput>, x: seq<Byte>, y: seq<Byte>)
    requires |xs| == |ys| && Flatten(RulePieces(xs)) + x == Flatten(RulePieces(ys)) + y
    ensures xs == ys && x == y
  {
    hide Flatten, RulePieces;
    RulePiecesInjective(xs, ys);
    FlattenSplits(RulePieces(xs), RulePieces(ys), x, y);
  }

  lemma ComponentsSplit(xs: seq<Component>, ys: seq<Component>)
    requires |xs| < TWO_64 && |ys| < TWO_64
    requires U64(|xs|) + Flatten(ComponentPieces(xs)) == U64(|ys|) + Flatten(ComponentPieces(ys))
    ensures xs == ys
  {
    hide Flatten, ComponentPieces, U64;
    U64Splits(|xs|, |ys|, Flatten(ComponentPieces(xs)), Flatten(ComponentPieces(ys)));
    ComponentPiecesInjective(xs, ys);
    assert Flatten(ComponentPieces(xs)) + [] == Flatten(ComponentPieces(ys)) + [];
    FlattenSplits(ComponentPieces(xs), ComponentPieces(ys), [], []);
  }

  lemma StreamSplits(a: KeyInput, b: KeyInput)
    requires Stream(a) == Stream(b)
    ensures SameCanonical(a, b)
  {
    hide Flatten, Stream, HeadPieces, MiddlePieces, RulePieces, ComponentPieces, TagPieces, CanonicalTags,
      CanonicalRules, CanonicalComponents;
    StreamParts(a);
    StreamParts(b);
    HeadSplits(a, b);
    TagsSplit(CanonicalTags(a), CanonicalTags(b), AfterTags(a), AfterTags(b));
    MiddleSplits(a, b);
    RulesSplit(CanonicalRules(a), CanonicalRules(b), AfterRules(a), AfterRules(b));
    CanonicalSizes(a);
    CanonicalSizes(b);
    ComponentsSplit(CanonicalComponents(a), CanonicalComponents(b));
  }

  lemma SingleNumber(n: nat)
    ensures Flatten([N(n)]) == U64(n)
  {
    assert [N(n)][..0] == [];
    assert [] + U64(n) == U64(n);
  }

  lemma CanonicalIsTheInput(a: KeyInput, b: KeyInput, blank: Text -> bool)
    requires Valid(a, blank) && Valid(b, blank)
    ensures SameCanonical(a, b) <==> SameInput(a, b)
  {
    TagOrder();
    RuleOrder();
    ComponentOrder();
    CompactedIsTheSet(a.buildTags, b.buildTags, TagLe);
    SortedIsTheSet(a.rules, b.rules, RuleLe);
    SortedIsTheSet(a.components, b.components, ComponentLe);
  }

  /** Two valid inputs are hashed as the same bytes exactly when they are the same input. */
  lemma StreamIsTheInput(a: KeyInput, b: KeyInput, blank: Text -> bool)
    requires Valid(a, blank) && Valid(b, blank)
    ensures Stream(a) == Stream(b) <==> SameInput(a, b)
  {
    CanonicalIsTheInput(a, b, blank);
    if Stream(a) == Stream(b) {
      StreamSplits(a, b);
    }
  }

  // ---------- Building the key ----------

  method WritePieces(digest: seq<Byte>, pieces: seq<Piece>) returns (written: seq<Byte>)
    ensures written == digest + Flatten(pieces)
  {
    written := digest;
    assert digest + [] == digest;
    for p := 0 to |pieces|
      invariant written == digest + Flatten(pieces[..p])
    {
      assert pieces[..p + 1][..p] == pieces[..p];
      written := written + EncodePiece(pieces[p]);
    }
    assert pieces[..|pieces|] == pieces;
  }

  method WriteRules(digest: seq<Byte>, rules: seq<RuleInput>) returns (written: seq<Byte>)
    ensures written == digest + Flatten(RulePieces(rules))
  {
    hide EncodePiece;
    written := digest;
    assert digest + [] == digest;
    for r := 0 to |rules|
      invariant written == digest + Flatten(RulePieces(rules[..r]))
    {
      var rule := rules[r];
      assert rules[..r + 1][..r] == rules[..r];
      FlattenConcat(RulePieces(rules[..r]), [S(rule.id), S(rule.severity), D(rule.options)]);
      written := WritePieces(written, [S(rule.id), S(rule.severity), D(rule.options)]);
    }
    assert rules[..|rules|] == rules;
  }

  method WriteComponents(digest: seq<Byte>, components: seq<Component>) returns (written: seq<Byte>)
    ensures written == digest + Flatten(ComponentPieces(components))
  {
    hide EncodePiece;
    written := digest;
    assert digest + [] == digest;
    for c := 0 to |components|
      invariant written == digest + Flatten(ComponentPieces(components[..c]))
    {
      var component := components[c];
      assert components[..c + 1][..c] == components[..c];
      FlattenConcat(ComponentPieces(components[..c]), [S(component.kind), S(component.identity), D(component.digest)]);
      written := WritePieces(written, [S(component.kind), S(component.identity), D(component.digest)]);
    }
    assert components[..|components|] == components;
  }

  /** The key is the digest of the canonical stream; an invalid input has none. */
  method BuildKey(input: KeyInput, blank: Text -> bool,
                  sha256: seq<Byte> -> Digest) returns (key: Result<Digest, Error>)
    ensures key.Ok? <==> Valid(input, blank)
    ensures key.Ok? ==> key.value == sha256(Stream(input))
  {
    var error := Validate(input, blank);
    if error.Some? {
      return Err(error.value);
    }
    var digest := WriteStream(input);
    return Ok(sha256(digest));
  }

  method WriteStream(input: KeyInput) returns (digest: seq<Byte>)
    ensures digest == Stream(input)
  {
    hide Flatten, HeadPieces, MiddlePieces, RulePieces, ComponentPieces, TagPieces, CanonicalTags, CanonicalRules,
      CanonicalComponents;
    digest := WritePieces([], HeadPieces(input));
    assert digest == Flatten(HeadPieces(input));
    digest := WritePieces(digest, TagPieces(CanonicalTags(input)));
    digest := WritePieces(digest, MiddlePieces(input));
    digest := WriteRules(digest, CanonicalRules(input));
    digest := WritePieces(digest, [N(|CanonicalComponents(input)|)]);
    digest := WriteComponents(digest, CanonicalComponents(input));
    FlattenSix(HeadPieces(input), TagPieces(CanonicalTags(input)), MiddlePieces(input),
      RulePieces(CanonicalRules(input)),
               [N(|CanonicalComponents(input)|)], ComponentPieces(CanonicalComponents(input)));
  }
}
