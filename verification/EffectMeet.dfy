/** Adding the inferred facts of all variants of a function under its one identity (addResultStates and addWriterBorrows
    in internal/analysis/effect_facts.go). */
module EffectMeet {
  import opened Encoding
  import opened Wrappers

  /** What was inferred for one definition: a nil state for some results, or a mark for some parameters. */
  datatype Variant<V> = Variant(identity: Text, states: map<int, V>)

  predicate Maps<V(==)>(m: map<int, V>, i: int, v: V) {
    i in m && m[i] == v
  }

  /** What two variants agree on. */
  function Meet<V(==)>(a: map<int, V>, b: map<int, V>): map<int, V> {
    map i | i in a && i in b && a[i] == b[i] :: a[i]
  }

  /** What all variants with an identity agree on; nothing, not even an empty map, if there is none. */
  function MeetAll<V(==)>(ds: seq<Variant<V>>, identity: Text): Option<map<int, V>> {
    if |ds| == 0 then None
    else
      var init, last := MeetAll(ds[..|ds| - 1], identity), ds[|ds| - 1];
      if last.identity != identity then init
      else if init.None? then Some(last.states)
      else Some(Meet(init.value, last.states))
  }

  ghost predicate Mentions<V>(ds: seq<Variant<V>>, identity: Text) {
    exists d :: d in ds && d.identity == identity
  }

  /** The entry an identity ends up with; an empty one is dropped. */
  function Entry<V(==)>(existing: Option<map<int, V>>, added: Option<map<int, V>>): Option<map<int, V>> {
    if added.None? then existing
    else
      var states := if existing.Some? then Meet(existing.value, added.value) else added.value;
      if states == map[] then None else Some(states)
  }

  function Lookup<V>(table: map<Text, map<int, V>>, identity: Text): Option<map<int, V>> {
    if identity in table then Some(table[identity]) else None
  }

  /** The table holds for every identity the entry it ends up with. */
  ghost predicate IsAdded<V>(result: map<Text, map<int, V>>, table: map<Text, map<int, V>>, ds: seq<Variant<V>>) {
    forall identity: Text ::
      Lookup(result, identity) == Entry(Lookup(table, identity), if identity == [] then None else MeetAll(ds, identity))
  }

  // ---------- What the meet says ----------

  ghost predicate AllState<V>(ds: seq<Variant<V>>, identity: Text, i: int, v: V) {
    forall d :: d in ds && d.identity == identity ==> Maps(d.states, i, v)
  }

  /** A fact is kept exactly if every variant states it. */
  lemma {:induction false} MeetIsAgreement<V>(ds: seq<Variant<V>>, identity: Text)
    ensures MeetAll(ds, identity).Some? <==> Mentions(ds, identity)
    ensures MeetAll(ds, identity).Some? ==>
      forall i, v :: Maps(MeetAll(ds, identity).value, i, v) <==> AllState(ds, identity, i, v)
    decreases |ds|
  {
    if |ds| > 0 {
      var init, last := ds[..|ds| - 1], ds[|ds| - 1];
      MeetIsAgreement(init, identity);
      assert ds == init + [last];
      forall i, v
        ensures AllState(ds, identity, i, v) <==>
          AllState(init, identity, i, v) && (last.identity == identity ==> Maps(last.states, i, v))
      {
        assert forall d :: d in ds <==> d in init || d == last;
      }
      assert Mentions(ds, identity) <==> Mentions(init, identity) || last.identity == identity by {
        assert forall d :: d in ds <==> d in init || d == last;
      }
      assert MeetAll(init, identity).None? ==> forall i, v :: AllState(init, identity, i, v);
    }
  }

  lemma SameMeet<V>(a: map<int, V>, b: map<int, V>)
    requires forall i, v :: Maps(a, i, v) <==> Maps(b, i, v)
    ensures a == b
  {
    forall i
      ensures i in a <==> i in b
      ensures i in a && i in b ==> a[i] == b[i]
    {
      assert i in a ==> Maps(a, i, a[i]);
      assert i in b ==> Maps(b, i, b[i]);
    }
  }

  /** The order of the definitions, and repeated ones, do not matter. */
  lemma VariantOrderDoesNotMatter<V>(ds: seq<Variant<V>>, es: seq<Variant<V>>, identity: Text)
    requires forall d :: d in ds <==> d in es
    ensures MeetAll(ds, identity) == MeetAll(es, identity)
  {
    MeetIsAgreement(ds, identity);
    MeetIsAgreement(es, identity);
    assert Mentions(ds, identity) <==> Mentions(es, identity);
    if MeetAll(ds, identity).Some? {
      SameMeet(MeetAll(ds, identity).value, MeetAll(es, identity).value);
    }
  }

  /** The meet over two lists is the meet of their meets. */
  lemma {:induction false} MeetConcat<V>(ds: seq<Variant<V>>, es: seq<Variant<V>>, identity: Text)
    ensures var a, b := MeetAll(ds, identity), MeetAll(es, identity);
      MeetAll(ds + es, identity) == if a.None? then b else if b.None? then a else Some(Meet(a.value, b.value))
    decreases |es|
  {
    if |es| == 0 {
      assert ds + es == ds;
    } else {
      var init, last := es[..|es| - 1], es[|es| - 1];
      MeetConcat(ds, init, identity);
      assert (ds + es)[..|ds + es| - 1] == ds + init;
      var a, b := MeetAll(ds, identity), MeetAll(init, identity);
      if a.Some? && b.Some? {
        MeetAssociates(a.value, b.value, last.states);
      }
    }
  }

  /** The first call leaves nothing of the identity: no fact is in the existing entry, if there is one, and stated by
      all variants of that call. */
  ghost predicate LeavesNothing<V(!new)>(existing: Option<map<int, V>>, ds: seq<Variant<V>>, identity: Text) {
    && Mentions(ds, identity)
    && forall i, v :: AllState(ds, identity, i, v) ==> existing.Some? && !Maps(existing.value, i, v)
  }

  /** The second call brings something: all its variants of the identity state some fact. */
  ghost predicate BringsSomething<V(!new)>(es: seq<Variant<V>>, identity: Text) {
    Mentions(es, identity) && exists i, v :: AllState(es, identity, i, v)
  }

  lemma EntryIsEmpty<V(!new)>(existing: Option<map<int, V>>, ds: seq<Variant<V>>, identity: Text)
    requires existing != Some(map[]) && MeetAll(ds, identity).Some?
    ensures Entry(existing, MeetAll(ds, identity)).None? <==> LeavesNothing(existing, ds, identity)
  {
    MeetIsAgreement(ds, identity);
    var d := MeetAll(ds, identity).value;
    var states := if existing.Some? then Meet(existing.value, d) else d;
    assert forall i, v :: Maps(states, i, v) <==>
      AllState(ds, identity, i, v) && (existing.Some? ==> Maps(existing.value, i, v));
    EmptyIsNothing(states);
  }

  lemma EmptyIsNothing<V>(m: map<int, V>)
    ensures m == map[] <==> forall i, v :: !Maps(m, i, v)
  {
    var nothing: map<int, V> := map[];
    if forall i, v :: !Maps(m, i, v) {
      SameMeet(m, nothing);
    }
  }

  /** Adding in two calls is adding in one exactly unless the first leaves nothing of an identity and the second brings
      something: facts that another variant had contradicted are then believed again. */
  lemma TwoCallsAgree<V(!new)>(existing: Option<map<int, V>>, ds: seq<Variant<V>>, es: seq<Variant<V>>, identity: Text)
    requires existing != Some(map[])
    ensures var d, e := MeetAll(ds, identity), MeetAll(es, identity);
      (Entry(Entry(existing, d), e) == Entry(existing, MeetAll(ds + es, identity))) <==>
      !(LeavesNothing(existing, ds, identity) && BringsSomething(es, identity))
  {
    MeetConcat(ds, es, identity);
    MeetIsAgreement(ds, identity);
    MeetIsAgreement(es, identity);
    var d, e := MeetAll(ds, identity), MeetAll(es, identity);
    if d.Some? && e.Some? {
      EntryIsEmpty(existing, ds, identity);
      EmptyIsNothing(e.value);
      if existing.Some? {
        MeetAssociates(existing.value, d.value, e.value);
        assert Meet(existing.value, d.value) == map[] ==> Meet(Meet(existing.value, d.value), e.value) == map[];
      } else {
        assert d.value == map[] ==> Meet(d.value, e.value) == map[];
      }
    }
  }

  /** Two variants contradict each other, and a later call with one of them brings its fact back. */
  lemma ContradictedFactComesBack(identity: Text, i: int)
    ensures var ds, es := [Variant(identity, map[i := 1]), Variant(identity, map[i := 2])],
      [Variant(identity, map[i := 1])];
      && Entry(Entry(None, MeetAll(ds, identity)), MeetAll(es, identity)) == Some(map[i := 1])
      && Entry(None, MeetAll(ds + es, identity)) == None
  {
    var one, two := Variant(identity, map[i := 1]), Variant(identity, map[i := 2]);
    assert MeetAll([one], identity) == Some(map[i := 1]);
    assert [one, two][..1] == [one];
    assert MeetAll([one, two], identity) == Some(Meet(map[i := 1], map[i := 2]));
    assert Meet(map[i := 1], map[i := 2]) == map[];
    MeetConcat([one, two], [one], identity);
    assert Meet(map[], map[i := 1]) == map[];
    assert i in map[i := 1] && map[i := 1] != map[];
  }

  lemma MeetAssociates<V>(a: map<int, V>, b: map<int, V>, c: map<int, V>)
    ensures Meet(Meet(a, b), c) == Meet(a, Meet(b, c))
  {
  }

  // ---------- The table ----------

  class FactTable<V(==)> {
    var entries: map<Text, map<int, V>>

    constructor ()
      ensures entries == map[]
    {
      entries := map[];
    }

    /** No entry is ever empty. */
    method Add(definitions: seq<Variant<V>>)
      requires forall identity :: identity in entries ==> entries[identity] != map[]
      modifies this
      ensures IsAdded(entries, old(entries), definitions)
      ensures forall identity :: identity in entries ==> entries[identity] != map[]
    {
      var aggregated := Aggregate(definitions);
      var rest := aggregated.Keys;
      while rest != {}
        invariant rest <= aggregated.Keys
        invariant forall identity: Text :: identity in aggregated && identity !in rest ==>
          Lookup(entries, identity) == Entry(Lookup(old(entries), identity), Some(aggregated[identity]))
        invariant forall identity: Text :: identity !in aggregated || identity in rest ==>
          Lookup(entries, identity) == Lookup(old(entries), identity)
        decreases rest
      {
        var identity :| identity in rest;
        var states := if identity in entries then Meet(entries[identity], aggregated[identity])
          else aggregated[identity];
        entries := if states == map[] then entries - {identity} else entries[identity := states];
        rest := rest - {identity};
      }
      forall identity | identity in entries
        ensures entries[identity] != map[]
      {
        assert Lookup(entries, identity) == Some(entries[identity]);
      }
    }
  }

  lemma MeetSnoc<V>(ds: seq<Variant<V>>, i: nat, identity: Text)
    requires i < |ds|
    ensures var init := MeetAll(ds[..i], identity);
      MeetAll(ds[..i + 1], identity) ==
        if ds[i].identity != identity then init else if init.None? then Some(ds[i].states)
          else Some(Meet(init.value, ds[i].states))
  {
    assert ds[..i + 1][..i] == ds[..i];
  }

  /** The first loop: what the definitions of one identity agree on. */
  method Aggregate<V(==)>(definitions: seq<Variant<V>>) returns (aggregated: map<Text, map<int, V>>)
    ensures forall identity: Text ::
      Lookup(aggregated, identity) == if identity == [] then None else MeetAll(definitions, identity)
  {
    aggregated := map[];
    for i := 0 to |definitions|
      invariant forall identity: Text ::
        Lookup(aggregated, identity) == if identity == [] then None else MeetAll(definitions[..i], identity)
    {
      var d := definitions[i];
      var next := aggregated;
      if d.identity != [] {
        next := aggregated[d.identity :=
          if d.identity !in aggregated then d.states else Meet(aggregated[d.identity], d.states)];
      }
      forall identity: Text
        ensures Lookup(next, identity) == if identity == [] then None else MeetAll(definitions[..i + 1], identity)
      {
        MeetSnoc(definitions, i, identity);
        assert Lookup(aggregated, identity) == if identity == [] then None else MeetAll(definitions[..i], identity);
      }
      aggregated := next;
    }
    assert definitions[..|definitions|] == definitions;
  }
}
