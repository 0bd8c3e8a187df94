/** The bytes the digest of the native effect facts is taken of (nativeEffectFacts.digest and writeEffectIdentity in
    internal/analysis/effect_facts.go). */
module EffectDigest {
  import opened Encoding
  import opened Ordering
  import opened Sorting

  const SCHEMA_VERSION: nat := 17
  const TABLES: nat := 13

  /** A Go int. */
  type Index = i: int | -0x8000_0000_0000_0000 <= i < 0x8000_0000_0000_0000

  /** What one table says of a function: an effect or nil state per parameter, result or pair of them. */
  datatype Record = Record(identity: Text, indexes: seq<Index>, payload: seq<Byte>)

  /** The nested maps of the source; plain sets have no indexes and no payload. */
  type Table = map<Text, map<seq<Index>, seq<Byte>>>

  /** How a table's records are written.  Flags, effect kinds and nil states take a byte each. */
  datatype Layout = Layout(tag: Byte, arity: nat, payload: nat)

  /** In the order of writing: no-returns, testing skips, testing failures, parameters, writer borrows, receivers, no-op
      closes, return states, result states, must-use results, blocking functions, aliases, managed results. */
  function Layouts(): (ls: seq<Layout>)
    ensures |ls| == TABLES
  {
    [Layout(0, 0, 0), Layout(13, 0, 0), Layout(14, 0, 0), Layout(1, 1, 4), Layout(17, 1, 0), Layout(7, 0, 4),
      Layout(12, 0, 0),
     Layout(2, 2, 2), Layout(8, 1, 1), Layout(3, 1, 0), Layout(4, 0, 0), Layout(5, 2, 0), Layout(6, 1, 0)]
  }

  ghost predicate Has(t: Table, r: Record) {
    r.identity in t && r.indexes in t[r.identity] && t[r.identity][r.indexes] == r.payload
  }

  predicate Fits(l: Layout, r: Record) {
    |r.indexes| == l.arity && |r.payload| == l.payload
  }

  /** The thirteen tables, each with records of its layout. */
  ghost predicate WellFormed(tables: seq<Table>) {
    |tables| == TABLES && forall i, r :: 0 <= i < TABLES && Has(tables[i], r) ==> Fits(Layouts()[i], r)
  }

  // ---------- The order of records ----------

  function RecordFields(a: Record, b: Record): seq<int> {
    [CompareText(a.identity, b.identity), CompareSeq(a.indexes, b.indexes, CompareIndex)]
  }

  function CompareRecord(a: Record, b: Record): int {
    First(RecordFields(a, b))
  }

  function CompareIndex(a: Index, b: Index): int {
    CompareInt(a, b)
  }

  predicate AtMost(a: Record, b: Record) {
    CompareRecord(a, b) <= 0
  }

  lemma RecordLaws(a: Record, b: Record, c: Record)
    ensures CompareRecord(a, b) == 0 <==> a.identity == b.identity && a.indexes == b.indexes
    ensures Flips(CompareRecord(a, b), CompareRecord(b, a))
    ensures Chains(CompareRecord(a, b), CompareRecord(b, c), CompareRecord(a, c))
  {
    hide CompareText, CompareSeq;
    TextLaws(a.identity, b.identity, c.identity);
    CompareSeqLaws(a.indexes, b.indexes, c.indexes, CompareIndex);
    var ab := RecordFields(a, b);
    FirstZero(ab);
    if First(ab) == 0 {
      assert ab[0] == 0 && ab[1] == 0;
    }
    FirstFlips(ab, RecordFields(b, a));
    FirstChains(ab, RecordFields(b, c), RecordFields(a, c));
  }

  lemma RecordOrderIsLinear()
    ensures Linear(AtMost)
  {
    hide CompareRecord;
    forall a: Record, b: Record, c: Record
      ensures AtMost(a, b) || AtMost(b, a)
      ensures AtMost(a, b) && AtMost(b, c) ==> AtMost(a, c)
    {
      RecordLaws(a, b, c);
    }
  }

  /** The records of a table, once each and in order. */
  ghost predicate Lists(rs: seq<Record>, t: Table) {
    Unrepeated(rs) && forall r :: r in rs <==> Has(t, r)
  }

  lemma SortedListIsUnique(xs: seq<Record>, ys: seq<Record>, t: Table, u: Table)
    requires Lists(xs, t) && Lists(ys, u) && Sorted(xs, AtMost) && Sorted(ys, AtMost)
      && forall r :: Has(t, r) <==> Has(u, r)
    ensures xs == ys
  {
    SameElementsSameMultiset(xs, ys);
    forall a, b | a in xs && b in xs && AtMost(a, b) && AtMost(b, a)
      ensures a == b
    {
      RecordLaws(a, b, b);
      assert Has(t, a) && Has(t, b);
    }
    SortedIsUnique(xs, ys, AtMost);
  }

  // ---------- The stream ----------

  function Unsigned(i: Index): nat {
    if i < 0 then i + TWO_64 else i
  }

  function Indexes(indexes: seq<Index>): seq<Byte> {
    if |indexes| == 0 then [] else U64(Unsigned(indexes[0])) + Indexes(indexes[1..])
  }

  datatype Tagged = Tagged(layout: Layout, record: Record)

  function Encode(t: Tagged): seq<Byte> {
    [t.layout.tag] + (Str(t.record.identity) + (Indexes(t.record.indexes) + t.record.payload))
  }

  function EncodeAll(ts: seq<Tagged>): seq<Byte> {
    if |ts| == 0 then [] else Encode(ts[0]) + EncodeAll(ts[1..])
  }

  function TagAll(l: Layout, rs: seq<Record>): (ts: seq<Tagged>)
    ensures |ts| == |rs| && forall i :: 0 <= i < |rs| ==> ts[i] == Tagged(l, rs[i])
  {
    seq(|rs|, i requires 0 <= i < |rs| => Tagged(l, rs[i]))
  }

  /** The records of the first tables, one table after the other. */
  ghost function Flat(lists: seq<seq<Record>>): seq<Tagged>
    requires |lists| <= TABLES
  {
    if |lists| == 0 then [] else Flat(lists[..|lists| - 1]) + TagAll(Layouts()[|lists| - 1], lists[|lists| - 1])
  }

  ghost predicate SortedLists(lists: seq<seq<Record>>, tables: seq<Table>) {
    |lists| == |tables| && forall i :: 0 <= i < |lists| ==> Lists(lists[i], tables[i]) && Sorted(lists[i], AtMost)
  }

  ghost predicate IsStream(stream: seq<Byte>, tables: seq<Table>)
    requires |tables| == TABLES
  {
    exists lists :: SortedLists(lists, tables) && stream == U64(SCHEMA_VERSION) + EncodeAll(Flat(lists))
  }

  /** The same records in every table. */
  ghost predicate SameRecords(tables: seq<Table>, others: seq<Table>)
    requires |tables| == |others| == TABLES
  {
    forall i, r :: 0 <= i < TABLES ==> (Has(tables[i], r) <==> Has(others[i], r))
  }

  // ---------- Decoding is unambiguous ----------

  lemma {:induction false} IndexesSplit(a: seq<Index>, b: seq<Index>, x: seq<Byte>, y: seq<Byte>)
    requires |a| == |b| && Indexes(a) + x == Indexes(b) + y
    ensures a == b && x == y
    decreases |a|
  {
    if |a| > 0 {
      var u, v := U64(Unsigned(a[0])), U64(Unsigned(b[0]));
      assert Indexes(a) + x == u + (Indexes(a[1..]) + x) && Indexes(b) + y == v + (Indexes(b[1..]) + y);
      U64Splits(Unsigned(a[0]), Unsigned(b[0]), Indexes(a[1..]) + x, Indexes(b[1..]) + y);
      IndexesSplit(a[1..], b[1..], x, y);
      assert a == [a[0]] + a[1..] && b == [b[0]] + b[1..];
    } else {
      assert Indexes(a) + x == x && Indexes(b) + y == y;
    }
  }

  lemma PayloadSplits(a: seq<Byte>, b: seq<Byte>, x: seq<Byte>, y: seq<Byte>)
    requires |a| == |b| && a + x == b + y
    ensures a == b && x == y
  {
    assert (a + x)[..|a|] == a && (b + y)[..|b|] == b && (a + x)[|a|..] == x && (b + y)[|b|..] == y;
  }

  ghost predicate Written(t: Tagged) {
    t.layout in Layouts() && Fits(t.layout, t.record)
  }

  lemma TagsDiffer(l: Layout, m: Layout)
    requires l in Layouts() && m in Layouts() && l.tag == m.tag
    ensures l == m
  {
  }

  lemma EncodeSplits(a: Tagged, b: Tagged, x: seq<Byte>, y: seq<Byte>)
    requires Written(a) && Written(b) && Encode(a) + x == Encode(b) + y
    ensures a == b && x == y
  {
    hide Str, Indexes, Layouts;
    var r, s := a.record, b.record;
    var restA := Indexes(r.indexes) + r.payload;
    var restB := Indexes(s.indexes) + s.payload;
    assert Encode(a) + x == [a.layout.tag] + (Str(r.identity) + (restA + x));
    assert Encode(b) + y == [b.layout.tag] + (Str(s.identity) + (restB + y));
    PayloadSplits([a.layout.tag], [b.layout.tag], Str(r.identity) + (restA + x), Str(s.identity) + (restB + y));
    TagsDiffer(a.layout, b.layout);
    StrSplits(r.identity, s.identity, restA + x, restB + y);
    assert restA + x == Indexes(r.indexes) + (r.payload + x) && restB + y == Indexes(s.indexes) + (s.payload + y);
    IndexesSplit(r.indexes, s.indexes, r.payload + x, s.payload + y);
    PayloadSplits(r.payload, s.payload, x, y);
  }

  lemma {:induction false} EncodeAllIsInjective(ts: seq<Tagged>, us: seq<Tagged>)
    requires (forall t :: t in ts ==> Written(t)) && (forall u :: u in us ==> Written(u))
    requires EncodeAll(ts) == EncodeAll(us)
    ensures ts == us
    decreases |ts|
  {
    hide Encode, Written;
    if |ts| > 0 && |us| > 0 {
      EncodeSplits(ts[0], us[0], EncodeAll(ts[1..]), EncodeAll(us[1..]));
      EncodeAllIsInjective(ts[1..], us[1..]);
      assert ts == [ts[0]] + ts[1..] && us == [us[0]] + us[1..];
    } else if |ts| > 0 {
      EncodingIsNotEmpty(ts[0]);
    } else if |us| > 0 {
      EncodingIsNotEmpty(us[0]);
    }
  }

  lemma EncodingIsNotEmpty(t: Tagged)
    ensures |Encode(t)| > 0
  {
  }

  lemma {:induction false} FlatHolds(lists: seq<seq<Record>>, t: Tagged)
    requires |lists| <= TABLES
    ensures t in Flat(lists) <==> exists i :: 0 <= i < |lists| && t.layout == Layouts()[i] && t.record in lists[i]
    decreases |lists|
  {
    hide Layouts;
    if |lists| > 0 {
      var init, last := lists[..|lists| - 1], lists[|lists| - 1];
      FlatHolds(init, t);
      var tagged := TagAll(Layouts()[|lists| - 1], last);
      if t.layout == Layouts()[|lists| - 1] && t.record in last {
        var j :| 0 <= j < |last| && last[j] == t.record;
        assert tagged[j] == t;
      }
      assert t in Flat(lists) <==> t in Flat(init) || t in tagged;
    }
  }

  lemma LayoutsDiffer(i: nat, j: nat)
    requires i < TABLES && j < TABLES && Layouts()[i] == Layouts()[j]
    ensures i == j
  {
  }

  lemma FlatIsWritten(lists: seq<seq<Record>>, tables: seq<Table>)
    requires WellFormed(tables) && SortedLists(lists, tables)
    ensures forall t :: t in Flat(lists) ==> Written(t)
  {
    hide Layouts;
    forall t | t in Flat(lists)
      ensures Written(t)
    {
      FlatHolds(lists, t);
    }
  }

  lemma FlatShowsTheRecords(lists: seq<seq<Record>>, tables: seq<Table>, i: nat, r: Record)
    requires |tables| == TABLES && SortedLists(lists, tables) && i < TABLES
    ensures Has(tables[i], r) <==> Tagged(Layouts()[i], r) in Flat(lists)
  {
    hide Layouts;
    var t := Tagged(Layouts()[i], r);
    FlatHolds(lists, t);
    if t in Flat(lists) {
      var j :| 0 <= j < |lists| && t.layout == Layouts()[j] && t.record in lists[j];
      LayoutsDiffer(i, j);
    }
  }

  /** Two fact tables give the same bytes exactly if they hold the same records. */
  lemma StreamIsTheRecords(tables: seq<Table>, others: seq<Table>, s: seq<Byte>, t: seq<Byte>)
    requires |tables| == |others| == TABLES && WellFormed(tables) && WellFormed(others)
    requires IsStream(s, tables) && IsStream(t, others)
    ensures s == t <==> SameRecords(tables, others)
  {
    hide Layouts, EncodeAll, Flat, WellFormed, Lists;
    var xs :| |xs| == TABLES && SortedLists(xs, tables) && s == U64(SCHEMA_VERSION) + EncodeAll(Flat(xs));
    var ys :| |ys| == TABLES && SortedLists(ys, others) && t == U64(SCHEMA_VERSION) + EncodeAll(Flat(ys));
    if SameRecords(tables, others) {
      forall i | 0 <= i < TABLES
        ensures xs[i] == ys[i]
      {
        SortedListIsUnique(xs[i], ys[i], tables[i], others[i]);
      }
      assert xs == ys;
    }
    if s == t {
      FlatIsWritten(xs, tables);
      FlatIsWritten(ys, others);
      PayloadSplits(U64(SCHEMA_VERSION), U64(SCHEMA_VERSION), EncodeAll(Flat(xs)), EncodeAll(Flat(ys)));
      EncodeAllIsInjective(Flat(xs), Flat(ys));
      forall i, r | 0 <= i < TABLES
        ensures Has(tables[i], r) <==> Has(others[i], r)
      {
        FlatShowsTheRecords(xs, tables, i, r);
        FlatShowsTheRecords(ys, others, i, r);
      }
    }
  }

  // ---------- Writing ----------

  method ListRecords(t: Table) returns (rs: seq<Record>)
    ensures Lists(rs, t)
  {
    rs := [];
    var identities := t.Keys;
    while identities != {}
      invariant identities <= t.Keys
      invariant Unrepeated(rs) && forall r :: r in rs <==> Has(t, r) && r.identity !in identities
      decreases identities
    {
      var identity :| identity in identities;
      var entries := t[identity];
      var rest := entries.Keys;
      while rest != {}
        invariant rest <= entries.Keys
        invariant Unrepeated(rs)
        invariant forall r :: r in rs <==>
          Has(t, r) && (r.identity !in identities || (r.identity == identity && r.indexes !in rest))
        decreases rest
      {
        var indexes :| indexes in rest;
        rs := rs + [Record(identity, indexes, entries[indexes])];
        rest := rest - {indexes};
      }
      identities := identities - {identity};
    }
  }

  method SortedRecords(t: Table) returns (rs: seq<Record>)
    ensures Lists(rs, t) && Sorted(rs, AtMost)
  {
    rs := ListRecords(t);
    RecordOrderIsLinear();
    SortIsSorted(rs, AtMost);
    SortKeepsElements(rs, AtMost);
    SortIsUnrepeated(rs, AtMost);
    rs := Sort(rs, AtMost);
  }

  method WriteIndexes(digest: seq<Byte>, indexes: seq<Index>) returns (written: seq<Byte>)
    ensures written == digest + Indexes(indexes)
  {
    written := digest;
    assert indexes[0..] == indexes;
    for i := 0 to |indexes|
      invariant written + Indexes(indexes[i..]) == digest + Indexes(indexes)
    {
      assert indexes[i..][1..] == indexes[i + 1..];
      written := written + U64(Unsigned(indexes[i]));
    }
  }

  method WriteRecords(digest: seq<Byte>, l: Layout, rs: seq<Record>) returns (written: seq<Byte>)
    ensures written == digest + EncodeAll(TagAll(l, rs))
  {
    hide Encode, Indexes;
    written := digest;
    var ts := TagAll(l, rs);
    assert ts[0..] == ts;
    for i := 0 to |rs|
      invariant written + EncodeAll(ts[i..]) == digest + EncodeAll(ts)
    {
      assert ts[i..][1..] == ts[i + 1..];
      var next := written + [l.tag];
      next := next + Str(rs[i].identity);
      next := WriteIndexes(next, rs[i].indexes);
      next := next + rs[i].payload;
      EncodePieces(written, l, rs[i]);
      assert written + (Encode(ts[i]) + EncodeAll(ts[i + 1..])) == written + Encode(ts[i]) + EncodeAll(ts[i + 1..]);
      written := next;
    }
  }

  lemma EncodePieces(written: seq<Byte>, l: Layout, r: Record)
    ensures written + [l.tag] + Str(r.identity) + Indexes(r.indexes) + r.payload == written + Encode(Tagged(l, r))
  {
    hide Str, Indexes;
  }

  method WriteStream(tables: seq<Table>) returns (digest: seq<Byte>)
    requires |tables| == TABLES
    ensures IsStream(digest, tables)
  {
    hide EncodeAll, Layouts, Lists, Flat, SortedLists, U64;
    digest := U64(SCHEMA_VERSION);
    ghost var lists: seq<seq<Record>> := [];
    NothingEncoded(tables);
    assert digest + [] == digest;
    for i := 0 to TABLES
      invariant |lists| == i && SortedLists(lists, tables[..i])
      invariant digest == U64(SCHEMA_VERSION) + EncodeAll(Flat(lists))
    {
      var rs := SortedRecords(tables[i]);
      var written := WriteRecords(digest, Layouts()[i], rs);
      ListsSnoc(lists, tables, i, rs, digest, written);
      digest := written;
      lists := lists + [rs];
    }
    assert tables[..TABLES] == tables;
  }

  lemma ListsSnoc(lists: seq<seq<Record>>, tables: seq<Table>, i: nat, rs: seq<Record>, digest: seq<Byte>,
                  written: seq<Byte>)
    requires |tables| == TABLES && i < TABLES && |lists| == i && SortedLists(lists, tables[..i])
    requires Lists(rs, tables[i]) && Sorted(rs, AtMost)
    requires digest == U64(SCHEMA_VERSION) + EncodeAll(Flat(lists))
    requires written == digest + EncodeAll(TagAll(Layouts()[i], rs))
    ensures SortedLists(lists + [rs], tables[..i + 1])
    ensures written == U64(SCHEMA_VERSION) + EncodeAll(Flat(lists + [rs]))
  {
    hide EncodeAll, Layouts, Lists, U64, Sorted;
    EncodeConcat(Flat(lists), TagAll(Layouts()[i], rs));
    assert (lists + [rs])[..i] == lists;
  }

  lemma NothingEncoded(tables: seq<Table>)
    ensures Flat([]) == [] && EncodeAll([]) == [] && SortedLists([], tables[..0])
  {
  }

  lemma {:induction false} EncodeConcat(ts: seq<Tagged>, us: seq<Tagged>)
    ensures EncodeAll(ts + us) == EncodeAll(ts) + EncodeAll(us)
    decreases |ts|
  {
    hide Encode;
    if |ts| == 0 {
      assert ts + us == us;
    } else {
      EncodeConcat(ts[1..], us);
      assert (ts + us)[1..] == ts[1..] + us;
    }
  }

  /** `digest`. */
  method Digest(tables: seq<Table>, sha256: seq<Byte> -> Encoding.Digest) returns (digest: Encoding.Digest)
    requires |tables| == TABLES
    ensures exists stream :: IsStream(stream, tables) && digest == sha256(stream)
  {
    var stream := WriteStream(tables);
    return sha256(stream);
  }
}
