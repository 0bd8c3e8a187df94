/** Nil states of returned values, inferred through delegated returns (internal/analysis/return_states.go). */
module ReturnStates {
  import opened Sets
  import opened Wrappers
  import ControlFlow
  import NoReturn

  const MAX_BUILD_DEPTH: nat := 4096

  datatype NilState = Unknown | Nil | NonNil

  datatype ResultType = ResultType(id: nat, nilCapable: bool, isError: bool)

  /** Code that runs after a return statement can only reach named results, and only the `Shared` ones: those that a
      function literal uses or whose address is taken.  A blank name is none. */
  datatype Naming = Unnamed | Private | Shared

  datatype ResultVar = ResultVar(typ: ResultType, naming: Naming)

  /** A returned expression, as the two syntactic classifiers see it, with the static callee if it is a call. */
  datatype Expr = Expr(nilness: NilState, errorness: NilState, callee: Option<nat>)
  {
    function Classify(t: ResultType): NilState {
      if t.isError then errorness else nilness
    }
  }

  /** `returned` lists the explicit return statements of the body, `body` is its control flow. */
  datatype Definition = Definition(results: seq<ResultVar>, noReturn: bool, deferredNoReturn: bool,
    returned: seq<seq<Expr>>, body: NoReturn.Graph)

  /** What is being asked of a function: the state of one result, or of result `value` when result `error` is nil
      or is not. */
  datatype Key = Result(index: nat) | Relation(value: nat, error: nat, errorIsNil: bool)

  datatype External = External(results: seq<ResultType>, facts: map<Key, NilState>)
  {
    function Fact(key: Key): NilState {
      if key in facts then facts[key] else Unknown
    }
  }

  datatype Program = Program(definitions: map<nat, Definition>, externals: map<nat, External>)
  {
    /** The result types of a callee, when its signature is known. */
    function Signature(f: nat): Option<seq<ResultType>> {
      if f in definitions then Some(Types(definitions[f]))
      else if f in externals then Some(externals[f].results)
      else None
    }
  }

  function Types(def: Definition): seq<ResultType> {
    seq(|def.results|, i requires 0 <= i < |def.results| => def.results[i].typ)
  }

  // ---------- One return statement's contribution to one key ----------

  datatype Term = Skip | Value(state: NilState) | Delegate(callee: nat, key: Key)

  function Delegated(prog: Program, e: Expr, key: Key, wants: seq<ResultType>): Term {
    if e.callee.None? then Value(Unknown)
    else
      var f := e.callee.value;
      var signature := prog.Signature(f);
      if signature.None? || |signature.value| != |wants| || !SameAt(signature.value, wants, key) then Value(Unknown)
      else if f in prog.definitions then Delegate(f, key)
      else Value(prog.externals[f].Fact(key))
  }

  /** The types of the results a key mentions agree. */
  predicate SameAt(have: seq<ResultType>, want: seq<ResultType>, key: Key)
    requires |have| == |want|
  {
    match key
    case Result(i) => i < |have| && have[i] == want[i]
    case Relation(v, e, _) => v < |have| && e < |have| && have[v] == want[v] && have[e] == want[e]
  }

  function TermOf(prog: Program, def: Definition, ret: seq<Expr>, key: Key): Term {
    var n := |def.results|;
    if |ret| == 0 then Value(Unknown)
    else match key
      case Result(i) =>
        if |ret| == n && i < n then
          var state := ret[i].Classify(def.results[i].typ);
          if state != Unknown then Value(state) else Delegated(prog, ret[i], Result(0), [def.results[i].typ])
        else if |ret| == 1 then Delegated(prog, ret[0], key, Types(def))
        else Value(Unknown)
      case Relation(v, e, errorIsNil) =>
        if |ret| == n && v < n && e < n then
          if ret[e].errorness == Unknown then Value(Unknown)
          else if (ret[e].errorness == Nil) != errorIsNil then Skip
          else Value(ret[v].nilness)
        else if |ret| == 1 then Delegated(prog, ret[0], key, Types(def))
        else Value(Unknown)
  }

  /** The keys a definition is asked about. */
  predicate Active(def: Definition, key: Key) {
    && !def.noReturn && !def.deferredNoReturn
    && match key
       case Result(i) => i < |def.results| && def.results[i].typ.nilCapable && !def.results[i].naming.Shared?
       case Relation(v, e, _) =>
         && v < |def.results| && e < |def.results| && v != e
         && def.results[v].typ.nilCapable && def.results[e].typ.isError
  }

  // ---------- The least solution of the delegation equations ----------

  /** Level `n` of the least solution: every return that bears on the key yields `s`, and at least one does. */
  ghost predicate Known(prog: Program, n: nat, f: nat, key: Key, s: NilState)
    decreases n, 1
  {
    && n > 0 && s != Unknown && f in prog.definitions && Active(prog.definitions[f], key)
    && var def := prog.definitions[f];
      && (exists r :: 0 <= r < |def.returned| && TermOf(prog, def, def.returned[r], key) != Skip)
      && (forall r :: 0 <= r < |def.returned| ==> Yields(prog, n - 1, TermOf(prog, def, def.returned[r], key), s))
  }

  ghost predicate Yields(prog: Program, n: nat, t: Term, s: NilState)
    decreases n, 2
  {
    match t
    case Skip => true
    case Value(state) => state == s
    case Delegate(g, key) => Known(prog, n, g, key, s)
  }

  ghost predicate Derivable(prog: Program, f: nat, key: Key, s: NilState) {
    exists n: nat :: Known(prog, n, f, key, s)
  }

  ghost predicate DerivableTerm(prog: Program, t: Term, s: NilState) {
    exists n: nat :: Yields(prog, n, t, s)
  }

  lemma {:induction false} KnownGrows(prog: Program, n: nat, m: nat, f: nat, key: Key, s: NilState)
    requires n <= m && Known(prog, n, f, key, s)
    ensures Known(prog, m, f, key, s)
    decreases n, 1
  {
    var def := prog.definitions[f];
    forall r | 0 <= r < |def.returned|
      ensures Yields(prog, m - 1, TermOf(prog, def, def.returned[r], key), s)
    {
      YieldsGrows(prog, n - 1, m - 1, TermOf(prog, def, def.returned[r], key), s);
    }
  }

  lemma {:induction false} YieldsGrows(prog: Program, n: nat, m: nat, t: Term, s: NilState)
    requires n <= m && Yields(prog, n, t, s)
    ensures Yields(prog, m, t, s)
    decreases n, 2
  {
    if t.Delegate? {
      KnownGrows(prog, n, m, t.callee, t.key, s);
    }
  }

  /** Finitely many derivable terms are derivable at one level. */
  lemma {:induction false} CommonLevel(prog: Program, terms: seq<Term>, s: NilState) returns (n: nat)
    requires forall r :: 0 <= r < |terms| ==> DerivableTerm(prog, terms[r], s)
    ensures forall r :: 0 <= r < |terms| ==> Yields(prog, n, terms[r], s)
    decreases |terms|
  {
    n := 0;
    if |terms| > 0 {
      var last := terms[|terms| - 1];
      var m := CommonLevel(prog, terms[..|terms| - 1], s);
      var k: nat :| Yields(prog, k, last, s);
      n := if m < k then k else m;
      forall r | 0 <= r < |terms|
        ensures Yields(prog, n, terms[r], s)
      {
        if r < |terms| - 1 {
          assert terms[..|terms| - 1][r] == terms[r];
          YieldsGrows(prog, m, n, terms[r], s);
        } else {
          YieldsGrows(prog, k, n, terms[r], s);
        }
      }
    }
  }

  ghost function Terms(prog: Program, def: Definition, key: Key, count: nat): (terms: seq<Term>)
    requires count <= |def.returned|
  {
    seq(count, r requires 0 <= r < count => TermOf(prog, def, def.returned[r], key))
  }

  /** Derivability is exactly the equation over derivable terms: the least solution is a solution. */
  lemma DerivableUnfolds(prog: Program, f: nat, key: Key, s: NilState)
    requires f in prog.definitions && Active(prog.definitions[f], key) && s != Unknown
    ensures var def := prog.definitions[f];
      Derivable(prog, f, key, s) <==>
      && (exists r :: 0 <= r < |def.returned| && TermOf(prog, def, def.returned[r], key) != Skip)
      && (forall r :: 0 <= r < |def.returned| ==> DerivableTerm(prog, TermOf(prog, def, def.returned[r], key), s))
  {
    var def := prog.definitions[f];
    var terms := Terms(prog, def, key, |def.returned|);
    if forall r :: 0 <= r < |terms| ==> DerivableTerm(prog, terms[r], s) {
      var n := CommonLevel(prog, terms, s);
      if exists r :: 0 <= r < |def.returned| && TermOf(prog, def, def.returned[r], key) != Skip {
        forall r | 0 <= r < |def.returned|
          ensures Yields(prog, n, TermOf(prog, def, def.returned[r], key), s)
        {
          assert Yields(prog, n, terms[r], s);
        }
        assert Known(prog, n + 1, f, key, s);
      }
    }
    if Derivable(prog, f, key, s) {
      var n: nat :| Known(prog, n, f, key, s);
      forall r | 0 <= r < |def.returned|
        ensures DerivableTerm(prog, TermOf(prog, def, def.returned[r], key), s)
      {
        assert Yields(prog, n - 1, TermOf(prog, def, def.returned[r], key), s);
      }
    }
    assert forall r :: 0 <= r < |terms| ==> terms[r] == TermOf(prog, def, def.returned[r], key);
  }

  /** The least solution gives a key at most one state. */
  lemma {:induction false} KnownIsUnique(prog: Program, n: nat, m: nat, f: nat, key: Key, s: NilState, t: NilState)
    requires Known(prog, n, f, key, s) && Known(prog, m, f, key, t)
    ensures s == t
    decreases n
  {
    var def := prog.definitions[f];
    var r :| 0 <= r < |def.returned| && TermOf(prog, def, def.returned[r], key) != Skip;
    var term := TermOf(prog, def, def.returned[r], key);
    assert Yields(prog, n - 1, term, s) && Yields(prog, m - 1, term, t);
    if term.Delegate? {
      KnownIsUnique(prog, n - 1, m - 1, term.callee, term.key, s, t);
    }
  }

  // ---------- What a return statement shows, in its own terms ----------

  ghost predicate Concerns(key: Key, position: nat) {
    match key
    case Result(i) => position == i
    case Relation(v, e, _) => position == v || position == e
  }

  /** A call of `g` for results of these types: their number agrees, and the types of those that the key is about. */
  ghost predicate Fits(prog: Program, g: nat, types: seq<ResultType>, key: Key) {
    && prog.Signature(g).Some? && |prog.Signature(g).value| == |types|
    && forall i: nat :: Concerns(key, i) ==> i < |types| && prog.Signature(g).value[i] == types[i]
  }

  /** The state is known of what `g` returns: inferred if its body is there, else by a fact. */
  ghost predicate Tells(prog: Program, g: nat, types: seq<ResultType>, key: Key, s: NilState) {
    && Fits(prog, g, types, key)
    && if g in prog.definitions then Derivable(prog, g, key, s)
       else key in prog.externals[g].facts && prog.externals[g].facts[key] == s
  }

  /** `return g(...)` for several results. */
  ghost predicate HandsOver(prog: Program, def: Definition, ret: seq<Expr>, key: Key, s: NilState) {
    |ret| == 1 && |def.results| > 1 && ret[0].callee.Some? && Tells(prog, ret[0].callee.value, Types(def), key, s)
  }

  /** An expression of the state: one that the classifiers recognize, or the call of a function with that one result. */
  ghost predicate Has(prog: Program, e: Expr, t: ResultType, s: NilState) {
    if e.Classify(t) != Unknown then e.Classify(t) == s
    else e.callee.Some? && Tells(prog, e.callee.value, [t], Result(0), s)
  }

  /** The return statement shows that the key has the state. */
  ghost predicate Shows(prog: Program, def: Definition, ret: seq<Expr>, key: Key, s: NilState) {
    || HandsOver(prog, def, ret, key, s)
    || (|ret| == |def.results| && match key
       case Result(i) => i < |ret| && Has(prog, ret[i], def.results[i].typ, s)
       case Relation(v, e, errorIsNil) =>
         v < |ret| && e < |ret| && ret[e].errorness == (if errorIsNil then Nil else NonNil) && ret[v].nilness == s)
  }

  /** The return statement is for the other state of the error. */
  ghost predicate IsBeside(def: Definition, ret: seq<Expr>, key: Key) {
    key.Relation? && |ret| == |def.results| && key.value < |ret| && key.error < |ret|
    && ret[key.error].errorness == (if key.errorIsNil then NonNil else Nil)
  }

  lemma DelegatedExactly(prog: Program, e: Expr, key: Key, types: seq<ResultType>, s: NilState)
    requires s != Unknown
    ensures DerivableTerm(prog, Delegated(prog, e, key, types), s) <==>
      e.callee.Some? && Tells(prog, e.callee.value, types, key, s)
  {
    hide Known;
    var t := Delegated(prog, e, key, types);
    ValueExactly(prog, t, s);
    if e.callee.Some? && prog.Signature(e.callee.value).Some? {
      var have := prog.Signature(e.callee.value).value;
      if |have| == |types| {
        FitsExactly(have, types, key);
      }
    }
  }

  lemma FitsExactly(have: seq<ResultType>, want: seq<ResultType>, key: Key)
    requires |have| == |want|
    ensures SameAt(have, want, key) <==> forall i: nat :: Concerns(key, i) ==> i < |want| && have[i] == want[i]
  {
    match key
    case Result(i) => assert Concerns(key, i);
    case Relation(v, e, _) => assert Concerns(key, v) && Concerns(key, e);
  }

  lemma ValueExactly(prog: Program, t: Term, s: NilState)
    ensures t.Value? ==> (DerivableTerm(prog, t, s) <==> t.state == s)
    ensures t.Skip? ==> DerivableTerm(prog, t, s)
    ensures t.Delegate? ==> (DerivableTerm(prog, t, s) <==> Derivable(prog, t.callee, t.key, s))
  {
    hide Known;
    if t.Value? || t.Skip? {
      assert Yields(prog, 0, t, s) || (t.Value? && t.state != s);
    } else {
      if n: nat :| Known(prog, n, t.callee, t.key, s) {
        assert Yields(prog, n, t, s);
      }
      if n: nat :| Yields(prog, n, t, s) {
        assert Known(prog, n, t.callee, t.key, s);
      }
    }
  }

  lemma TermExactly(prog: Program, def: Definition, ret: seq<Expr>, key: Key, s: NilState)
    requires Active(def, key) && s != Unknown
    ensures TermOf(prog, def, ret, key) == Skip <==> IsBeside(def, ret, key)
    ensures DerivableTerm(prog, TermOf(prog, def, ret, key), s) <==>
      Shows(prog, def, ret, key, s) || IsBeside(def, ret, key)
  {
    hide Delegated, DerivableTerm, Tells;
    forall e: Expr, k: Key, types: seq<ResultType>
      ensures DerivableTerm(prog, Delegated(prog, e, k, types), s) <==>
        e.callee.Some? && Tells(prog, e.callee.value, types, k, s)
      ensures !Delegated(prog, e, k, types).Skip?
    {
      DelegatedExactly(prog, e, k, types, s);
      DelegatesOrSays(prog, e, k, types);
    }
    forall t: Term
      ensures t.Value? ==> (DerivableTerm(prog, t, s) <==> t.state == s)
      ensures t.Skip? ==> DerivableTerm(prog, t, s)
    {
      ValueExactly(prog, t, s);
    }
  }

  lemma DelegatesOrSays(prog: Program, e: Expr, key: Key, types: seq<ResultType>)
    ensures !Delegated(prog, e, key, types).Skip?
  {
  }

  /** A state is found exactly if some return statement shows it, and every one does that is not for the other state of
      the error. */
  lemma FoundExactly(prog: Program, f: nat, key: Key, s: NilState)
    requires f in prog.definitions && Active(prog.definitions[f], key) && s != Unknown
    ensures var def := prog.definitions[f];
      Derivable(prog, f, key, s) <==>
      && (exists r :: 0 <= r < |def.returned| && Shows(prog, def, def.returned[r], key, s))
      && (forall r :: 0 <= r < |def.returned| ==>
           Shows(prog, def, def.returned[r], key, s) || IsBeside(def, def.returned[r], key))
  {
    var def := prog.definitions[f];
    DerivableUnfolds(prog, f, key, s);
    hide TermOf, Shows, IsBeside, Active, Derivable, DerivableTerm;
    forall r | 0 <= r < |def.returned|
      ensures TermOf(prog, def, def.returned[r], key) == Skip <==> IsBeside(def, def.returned[r], key)
      ensures DerivableTerm(prog, TermOf(prog, def, def.returned[r], key), s) <==>
        Shows(prog, def, def.returned[r], key, s) || IsBeside(def, def.returned[r], key)
      ensures !(Shows(prog, def, def.returned[r], key, s) && IsBeside(def, def.returned[r], key))
    {
      TermExactly(prog, def, def.returned[r], key, s);
      NotBoth(prog, def, def.returned[r], key, s);
    }
  }

  lemma NotBoth(prog: Program, def: Definition, ret: seq<Expr>, key: Key, s: NilState)
    ensures !(Shows(prog, def, ret, key, s) && IsBeside(def, ret, key))
  {
  }

  // ---------- Why a cut cycle loses nothing ----------

  /** Some return of `f` asks `g` about key `k` to answer an active key. */
  ghost predicate Asks(prog: Program, f: nat, key: Key, g: nat, k: Key) {
    && f in prog.definitions && g in prog.definitions && Active(prog.definitions[f], key)
    && exists r :: 0 <= r < |prog.definitions[f].returned|
                   && TermOf(prog, prog.definitions[f], prog.definitions[f].returned[r], key) == Delegate(g, k)
  }

  ghost predicate Linked(prog: Program, f: nat, g: nat) {
    exists key, k :: Asks(prog, f, key, g, k)
  }

  ghost function Arity(prog: Program, f: nat): nat
    requires f in prog.definitions
  {
    |prog.definitions[f].results|
  }

  /** A delegation either goes to a single-result function or hands over all results, keeping the key. */
  lemma AsksKeepsShape(prog: Program, f: nat, key: Key, g: nat, k: Key)
    requires Asks(prog, f, key, g, k)
    ensures Arity(prog, g) == 1 || Arity(prog, g) == Arity(prog, f)
    ensures Arity(prog, g) == Arity(prog, f) ==> k == key
  {
  }

  lemma ReturnHandsOver(prog: Program, def: Definition, ret: seq<Expr>, key': Key, g: nat, k': Key, key: Key)
    requires TermOf(prog, def, ret, key') == Delegate(g, k') && g in prog.definitions && Arity(prog, g) == |def.results|
    requires Active(def, key') && Active(def, key)
    ensures TermOf(prog, def, ret, key) == Delegate(g, key) || TermOf(prog, def, ret, key) == Value(Unknown)
  {
    assert key'.Result? ==> |[def.results[key'.index].typ]| == 1;
    if |ret| == 1 && |def.results| == 1 {
      assert key == key' == Result(0);
    }
  }

  /** If the arity stays the same, every key known for `f` is known, one level lower, for `g`. */
  lemma LinkHandsOver(prog: Program, f: nat, g: nat, n: nat, key: Key, s: NilState)
    requires Linked(prog, f, g) && Arity(prog, f) == Arity(prog, g) && Known(prog, n, f, key, s)
    ensures n > 0 && Known(prog, n - 1, g, key, s)
  {
    var key', k' :| Asks(prog, f, key', g, k');
    var def := prog.definitions[f];
    var r :| 0 <= r < |def.returned| && TermOf(prog, def, def.returned[r], key') == Delegate(g, k');
    ReturnHandsOver(prog, def, def.returned[r], key', g, k', key);
    hide TermOf;
    assert Yields(prog, n - 1, TermOf(prog, def, def.returned[r], key), s);
  }

  ghost predicate Unanswered(prog: Program, f: nat, key: Key) {
    forall s :: !Derivable(prog, f, key, s)
  }

  lemma NeverUnknown(prog: Program, f: nat, key: Key)
    ensures !Derivable(prog, f, key, Unknown)
  {
  }

  lemma TermCallee(prog: Program, def: Definition, ret: seq<Expr>, key: Key)
    requires TermOf(prog, def, ret, key).Delegate?
    ensures TermOf(prog, def, ret, key).callee in prog.definitions
    ensures TermOf(prog, def, ret, key).key.Relation? == key.Relation?
  {
  }

  /** A build stack: each function asks the next about something. */
  ghost predicate Chain(prog: Program, stack: seq<nat>) {
    && (forall t :: 0 <= t < |stack| ==> stack[t] in prog.definitions)
    && (forall t :: 0 <= t < |stack| - 1 ==> Linked(prog, stack[t], stack[t + 1]))
  }

  lemma {:induction false} ArityAlongChain(prog: Program, stack: seq<nat>, lo: nat, hi: nat)
    requires Chain(prog, stack) && lo <= hi < |stack|
    ensures stack[lo] in prog.definitions && stack[hi] in prog.definitions
    ensures Arity(prog, stack[hi]) == 1 || Arity(prog, stack[hi]) == Arity(prog, stack[lo])
    decreases hi
  {
    hide Asks;
    if lo < hi {
      ArityAlongChain(prog, stack, lo, hi - 1);
      var key, k :| Asks(prog, stack[hi - 1], key, stack[hi], k);
      AsksKeepsShape(prog, stack[hi - 1], key, stack[hi], k);
    }
  }

  lemma {:induction false} KnownAlongChain(prog: Program, stack: seq<nat>, lo: nat, hi: nat, n: nat, key: Key,
                                           s: NilState)
    requires Chain(prog, stack) && lo <= hi < |stack|
    requires Arity(prog, stack[hi]) == Arity(prog, stack[lo])
    requires Known(prog, n, stack[lo], key, s)
    ensures n >= hi - lo && Known(prog, n - (hi - lo), stack[hi], key, s)
    decreases hi
  {
    hide Known, Linked;
    if lo < hi {
      ArityAlongChain(prog, stack, lo, hi - 1);
      ArityAlongChain(prog, stack, hi - 1, hi);
      KnownAlongChain(prog, stack, lo, hi - 1, n, key, s);
      LinkHandsOver(prog, stack[hi - 1], stack[hi], n - (hi - 1 - lo), key, s);
    }
  }

  lemma AskingLinks(prog: Program, f: nat, key: Key, g: nat, k: Key)
    requires Asks(prog, f, key, g, k)
    ensures f in prog.definitions && g in prog.definitions && Linked(prog, f, g)
  {
  }

  /** The heart of the matter: if the function on top of the stack asks one already on the stack, the key it is
      answering is unknown in the least solution, so answering Unknown for the cut loses nothing. */
  lemma {:induction false} CutIsUnknown(prog: Program, stack: seq<nat>, lo: nat, key: Key, k: Key, n: nat, s: NilState)
    requires Chain(prog, stack) && lo < |stack|
    requires Asks(prog, stack[|stack| - 1], key, stack[lo], k)
    ensures !Known(prog, n, stack[|stack| - 1], key, s)
    decreases n
  {
    hide Known, Chain, Asks;
    var top := |stack| - 1;
    if Known(prog, n, stack[top], key, s) {
      AskingLinks(prog, stack[top], key, stack[lo], k);
      AsksKeepsShape(prog, stack[top], key, stack[lo], k);
      ArityAlongChain(prog, stack, lo, top);
      LinkHandsOver(prog, stack[top], stack[lo], n, key, s);
      KnownAlongChain(prog, stack, lo, top, n - 1, key, s);
      CutIsUnknown(prog, stack, lo, key, k, n - 1 - (top - lo), s);
    }
  }

  // ---------- What callers receive ----------

  /** The nil flags `vec` of some results agree with state `s` for `key`. */
  ghost predicate Agrees(key: Key, s: NilState, vec: seq<bool>) {
    match key
    case Result(i) => s != Unknown && i < |vec| ==> vec[i] == (s == Nil)
    case Relation(v, e, errorIsNil) => s != Unknown && v < |vec| && e < |vec| && vec[e] == errorIsNil ==>
      vec[v] == (s == Nil)
  }

  /** After a return statement deferred code may change the shared results. */
  ghost predicate MayBecome(def: Definition, vec: seq<bool>, got: seq<bool>) {
    |got| == |vec| == |def.results| && forall i :: 0 <= i < |vec| && !def.results[i].naming.Shared? ==> got[i] == vec[i]
  }

  /** A function that recovers returns without a return statement: its unnamed results are zero, its named ones may
      have any value. */
  ghost predicate MayRecoverWith(def: Definition, got: seq<bool>) {
    && NoReturn.MayRecover(def.body) && |got| == |def.results|
    && forall i :: 0 <= i < |got| && def.results[i].naming.Unnamed? ==> got[i]
  }

  /** A return statement of `f`, whose calls have at most `depth` levels, delivers results whose nil flags are `vec`.
      In `plain` executions nobody recovers, and nobody changes results after return statements. */
  ghost predicate Delivers(prog: Program, plain: bool, f: nat, vec: seq<bool>, depth: nat)
    decreases depth, 0
  {
    && depth > 0 && f in prog.definitions && |vec| == |prog.definitions[f].results|
    && exists r :: 0 <= r < |prog.definitions[f].returned| &&
                   ReturnDelivers(prog, plain, prog.definitions[f], prog.definitions[f].returned[r], vec, depth)
  }

  /** A call of `f` with at most `depth` levels of calls returns results whose nil flags are `got`. */
  ghost predicate Receives(prog: Program, plain: bool, f: nat, got: seq<bool>, depth: nat)
    decreases depth, 1
  {
    if plain then Delivers(prog, plain, f, got, depth)
    else
      && depth > 0 && f in prog.definitions
      && (|| MayRecoverWith(prog.definitions[f], got)
          || exists vec :: Delivers(prog, plain, f, vec, depth) && MayBecome(prog.definitions[f], vec, got))
  }

  ghost predicate ReturnDelivers(prog: Program, plain: bool, def: Definition, ret: seq<Expr>, vec: seq<bool>,
                                 depth: nat)
    requires depth > 0 && |vec| == |def.results|
    decreases depth - 1, 5
  {
    if |ret| == |def.results| then
      forall i :: 0 <= i < |ret| ==> ExprDelivers(prog, plain, ret[i], def.results[i].typ, vec[i], depth - 1)
    else |ret| == 1 ==> CallDelivers(prog, plain, ret[0], Types(def), vec, depth - 1)
  }

  /** The syntactic classifiers are right, and a call delivers what is received from its callee. */
  ghost predicate ExprDelivers(prog: Program, plain: bool, e: Expr, t: ResultType, isNil: bool, depth: nat)
    decreases depth, 4
  {
    && (e.nilness != Unknown ==> isNil == (e.nilness == Nil))
    && (e.errorness != Unknown ==> isNil == (e.errorness == Nil))
    && CallDelivers(prog, plain, e, [t], [isNil], depth)
  }

  ghost predicate CallDelivers(prog: Program, plain: bool, e: Expr, wants: seq<ResultType>, vec: seq<bool>, depth: nat)
    requires |wants| == |vec|
    decreases depth, 3
  {
    e.callee.Some? && prog.Signature(e.callee.value).Some? && |prog.Signature(e.callee.value).value| == |wants| ==>
      exists w :: CalleeGives(prog, plain, e.callee.value, w, depth)
        && Received(prog.Signature(e.callee.value).value, wants, w, vec)
  }

  ghost predicate CalleeGives(prog: Program, plain: bool, f: nat, w: seq<bool>, depth: nat)
    decreases depth, 2
  {
    if f in prog.definitions then Receives(prog, plain, f, w, depth)
    else f in prog.externals && ExternalGives(prog.externals[f], w)
  }

  /** A value keeps its nilness where the type does not change. */
  ghost predicate Received(have: seq<ResultType>, want: seq<ResultType>, w: seq<bool>, vec: seq<bool>)
    requires |have| == |want| == |vec|
  {
    |w| == |vec| && forall i :: 0 <= i < |vec| && have[i] == want[i] ==> w[i] == vec[i]
  }

  /** Facts about functions defined elsewhere hold of them. */
  ghost predicate ExternalGives(ext: External, w: seq<bool>) {
    |w| == |ext.results| && forall key :: key in ext.facts ==> Agrees(key, ext.facts[key], w)
  }

  // ---------- When recorded states hold of what callers receive ----------

  predicate MayChange(def: Definition, key: Key)
    requires Active(def, key)
  {
    key.Relation? && (def.results[key.value].naming.Shared? || def.results[key.error].naming.Shared?)
  }

  /** The zero values that unnamed results have after a recovery agree with the state. */
  predicate AgreesWithZero(def: Definition, key: Key, s: NilState)
    requires Active(def, key)
  {
    match key
    case Result(i) => s == Nil && def.results[i].naming.Unnamed?
    case Relation(v, e, errorIsNil) =>
      || (s == Nil && def.results[v].naming.Unnamed?)
      || (!errorIsNil && def.results[e].naming.Unnamed?)
  }

  /** As the definition shows, neither deferred code nor a recovered panic can make the state wrong. */
  ghost predicate IsSafe(def: Definition, key: Key, s: NilState)
    requires Active(def, key)
  {
    !MayChange(def, key) && (NoReturn.GuardsPanic(NoReturn.UNKNOWN, {}, def.body) ==> AgreesWithZero(def, key, s))
  }

  /** What callers may receive if the state holds of all that return statements deliver. */
  ghost predicate MayReceive(def: Definition, key: Key, s: NilState, got: seq<bool>) {
    MayRecoverWith(def, got) || exists vec :: Agrees(key, s, vec) && MayBecome(def, vec, got)
  }

  lemma UnsafeFlags(def: Definition, key: Key, s: NilState) returns (got: seq<bool>)
    requires Active(def, key) && s != Unknown && !IsSafe(def, key, s)
    ensures MayReceive(def, key, s, got) && !Agrees(key, s, got)
  {
    NoReturn.GuardsPanicExactly(def.body);
    got := seq(|def.results|, i => true);
    match key {
      case Result(i) =>
        got := got[i := s != Nil];
      case Relation(v, e, errorIsNil) =>
        got := got[e := errorIsNil][v := s != Nil];
        if MayChange(def, key) {
          var vec := if def.results[v].naming.Shared? then got[v := s == Nil] else got[e := !errorIsNil];
          assert Agrees(key, s, vec) && MayBecome(def, vec, got);
        }
    }
  }

  /** A state that return statements keep to holds of all that callers may receive exactly if it is safe. */
  lemma SafeExactly(def: Definition, key: Key, s: NilState)
    requires Active(def, key) && s != Unknown
    ensures IsSafe(def, key, s) <==> forall got :: MayReceive(def, key, s, got) ==> Agrees(key, s, got)
  {
    if IsSafe(def, key, s) {
      NoReturn.GuardsPanicExactly(def.body);
    } else {
      var got := UnsafeFlags(def, key, s);
    }
  }

  /** Every state of the least solution is safe. */
  ghost predicate AllSafe(prog: Program) {
    forall f, key, s :: Derivable(prog, f, key, s) ==> IsSafe(prog.definitions[f], key, s)
  }

  /** Every state in the least solution holds of all that callers receive, if all are safe; and in any case in
      executions without recovered panics and changed results. */
  lemma {:induction false} KnownHolds(prog: Program, plain: bool, n: nat, f: nat, key: Key, s: NilState, got: seq<bool>,
                                      depth: nat)
    requires Known(prog, n, f, key, s) && (plain || AllSafe(prog)) && Receives(prog, plain, f, got, depth)
    ensures Agrees(key, s, got)
    decreases n, 2
  {
    hide IsSafe, Agrees, Active, MayBecome, MayRecoverWith;
    var def := prog.definitions[f];
    if plain {
      KnownIsDelivered(prog, plain, n, f, key, s, got, depth);
    } else {
      assert Derivable(prog, f, key, s);
      SafeExactly(def, key, s);
      if !MayRecoverWith(def, got) {
        var vec :| Delivers(prog, plain, f, vec, depth) && MayBecome(def, vec, got);
        KnownIsDelivered(prog, plain, n, f, key, s, vec, depth);
      }
      assert MayReceive(def, key, s, got);
    }
  }

  lemma {:induction false} KnownIsDelivered(prog: Program, plain: bool, n: nat, f: nat, key: Key, s: NilState,
                                            vec: seq<bool>, depth: nat)
    requires Known(prog, n, f, key, s) && (plain || AllSafe(prog)) && Delivers(prog, plain, f, vec, depth)
    ensures Agrees(key, s, vec)
    decreases n, 1, 1
  {
    hide AllSafe, Yields, TermOf, ReturnDelivers, Agrees;
    var def := prog.definitions[f];
    var r :| 0 <= r < |def.returned| && ReturnDelivers(prog, plain, def, def.returned[r], vec, depth);
    var ret := def.returned[r];
    assert Yields(prog, n - 1, TermOf(prog, def, ret, key), s);
    if |ret| == |def.results| {
      ReturnHolds(prog, plain, n, def, ret, key, s, vec, depth);
    } else {
      HandedOverHolds(prog, plain, n, def, ret, key, s, vec, depth);
    }
  }

  /** A return statement with an expression for each result. */
  lemma {:induction false} ReturnHolds(prog: Program, plain: bool, n: nat, def: Definition, ret: seq<Expr>, key: Key,
                                       s: NilState, vec: seq<bool>, depth: nat)
    requires n > 0 && s != Unknown && (plain || AllSafe(prog)) && Active(def, key) && |ret| == |def.results| == |vec|
    requires Yields(prog, n - 1, TermOf(prog, def, ret, key), s)
    requires depth > 0 && ReturnDelivers(prog, plain, def, ret, vec, depth)
    ensures Agrees(key, s, vec)
    decreases n, 1, 0
  {
    hide AllSafe, Delegated, CallDelivers;
    match key {
      case Result(i) =>
        assert ExprDelivers(prog, plain, ret[i], def.results[i].typ, vec[i], depth - 1);
        if ret[i].Classify(def.results[i].typ) == Unknown {
          DelegatedHolds(prog, plain, n - 1, ret[i], Result(0), [def.results[i].typ], s, [vec[i]], depth - 1);
        }
      case Relation(v, e, _) =>
        assert ExprDelivers(prog, plain, ret[v], def.results[v].typ, vec[v], depth - 1);
        assert ExprDelivers(prog, plain, ret[e], def.results[e].typ, vec[e], depth - 1);
    }
  }

  /** A return statement that hands over all results of a call. */
  lemma {:induction false} HandedOverHolds(prog: Program, plain: bool, n: nat, def: Definition, ret: seq<Expr>,
                                           key: Key, s: NilState, vec: seq<bool>, depth: nat)
    requires n > 0 && s != Unknown && (plain || AllSafe(prog)) && Active(def, key) && |ret| != |def.results| == |vec|
    requires Yields(prog, n - 1, TermOf(prog, def, ret, key), s)
    requires depth > 0 && ReturnDelivers(prog, plain, def, ret, vec, depth)
    ensures Agrees(key, s, vec)
    decreases n, 1, 0
  {
    hide AllSafe, Delegated, CallDelivers;
    assert |ret| == 1;
    DelegatedHolds(prog, plain, n - 1, ret[0], key, Types(def), s, vec, depth - 1);
  }

  lemma {:induction false} DelegatedHolds(prog: Program, plain: bool, n: nat, e: Expr, key: Key, wants: seq<ResultType>,
                                          s: NilState, vec: seq<bool>, depth: nat)
    requires |wants| == |vec| && s != Unknown && (plain || AllSafe(prog))
    requires Yields(prog, n, Delegated(prog, e, key, wants), s) && CallDelivers(prog, plain, e, wants, vec, depth)
    ensures Agrees(key, s, vec)
    decreases n, 3
  {
    hide AllSafe;
    var f := e.callee.value;
    var have := prog.Signature(f).value;
    var w :| CalleeGives(prog, plain, f, w, depth) && Received(have, wants, w, vec);
    if f in prog.definitions {
      KnownHolds(prog, plain, n, f, key, s, w, depth);
    } else {
      assert key in prog.externals[f].facts;
    }
    assert Agrees(key, s, w);
  }

  // ---------- Exactly when all that may be recorded holds ----------

  /** No recovering call guards anything that may panic, and nothing summarized may change; or nothing is. */
  ghost predicate IsSafeDefinition(def: Definition) {
    forall key :: Active(def, key) ==>
      !NoReturn.GuardsPanic(NoReturn.UNKNOWN, {}, def.body) && !MayChange(def, key)
  }

  lemma SafeForAllStates(def: Definition)
    ensures IsSafeDefinition(def) <==> forall key, s :: Active(def, key) && s != Unknown ==> IsSafe(def, key, s)
  {
    if key :| Active(def, key) && (NoReturn.GuardsPanic(NoReturn.UNKNOWN, {}, def.body) || MayChange(def, key)) {
      var same := if key.Result? then key else Relation(key.value, key.error, true);
      assert Active(def, same) && !IsSafe(def, same, NonNil);
    }
  }

  /** Programs that may differ in what functions return, and in what their facts say. */
  ghost predicate SameBodies(one: Program, two: Program) {
    && one.definitions.Keys == two.definitions.Keys
    && forall f :: f in one.definitions ==>
         two.definitions[f] == one.definitions[f].(returned := two.definitions[f].returned)
  }

  /** `return` with results that the classifiers recognize. */
  function Recognized(vec: seq<bool>): seq<Expr> {
    seq(|vec|, i requires 0 <= i < |vec| => var s := if vec[i] then Nil else NonNil; Expr(s, s, None))
  }

  lemma RecognizedIsDelivered(prog: Program, f: nat, r: nat, vec: seq<bool>)
    requires f in prog.definitions && |vec| == |prog.definitions[f].results| && r < |prog.definitions[f].returned|
    requires prog.definitions[f].returned[r] == Recognized(vec)
    ensures Delivers(prog, false, f, vec, 1)
  {
    assert ReturnDelivers(prog, false, prog.definitions[f], prog.definitions[f].returned[r], vec, 1);
  }

  lemma RecognizedYields(prog: Program, def: Definition, key: Key, s: NilState, vec: seq<bool>)
    requires Active(def, key) && |vec| == |def.results| && s != Unknown && Agrees(key, s, vec)
    ensures Yields(prog, 0, TermOf(prog, def, Recognized(vec), key), s)
    ensures key.Result? || vec[key.error] == key.errorIsNil ==> TermOf(prog, def, Recognized(vec), key) != Skip
  {
  }

  /** The program, but `f` has two return statements, whose results are recognized. */
  ghost function WithReturns(prog: Program, f: nat, base: seq<bool>, vec: seq<bool>): (other: Program)
    requires f in prog.definitions
    ensures SameBodies(prog, other)
  {
    var changed := prog.definitions[f].(returned := [Recognized(base), Recognized(vec)]);
    Program(prog.definitions[f := changed], prog.externals)
  }

  lemma SameActive(one: Definition, two: Definition, key: Key)
    requires two == one.(returned := two.returned) && Active(one, key)
    ensures Active(two, key)
  {
  }

  lemma RecognizedIsKnown(prog: Program, f: nat, key: Key, s: NilState, base: seq<bool>, vec: seq<bool>)
    requires f in prog.definitions && Active(prog.definitions[f], key) && s != Unknown
    requires |base| == |vec| == |prog.definitions[f].results| && Agrees(key, s, base) && Agrees(key, s, vec)
    requires key.Result? || base[key.error] == key.errorIsNil
    ensures Known(WithReturns(prog, f, base, vec), 1, f, key, s)
    ensures Delivers(WithReturns(prog, f, base, vec), false, f, vec, 1)
  {
    hide Agrees, TermOf, Yields, Recognized, Delivers;
    var other := WithReturns(prog, f, base, vec);
    var changed := other.definitions[f];
    SameActive(prog.definitions[f], changed, key);
    hide Active;
    RecognizedYields(other, changed, key, s, base);
    RecognizedYields(other, changed, key, s, vec);
    RecognizedIsDelivered(other, f, 1, vec);
    assert TermOf(other, changed, changed.returned[0], key) != Skip;
  }

  lemma AgreeingFlags(def: Definition, key: Key, s: NilState) returns (base: seq<bool>)
    requires Active(def, key)
    ensures |base| == |def.results| && Agrees(key, s, base)
    ensures key.Result? || base[key.error] == key.errorIsNil
  {
    base := seq(|def.results|, i => true);
    match key {
      case Result(i) => base := base[i := s == Nil];
      case Relation(v, e, errorIsNil) => base := base[e := errorIsNil][v := s == Nil];
    }
  }

  /** A program with the same bodies in which a state that is not safe is found and does not hold. */
  lemma UnsafeIsReceived(prog: Program, f: nat, key: Key, s: NilState) returns (other: Program, got: seq<bool>)
    requires f in prog.definitions && Active(prog.definitions[f], key) && s != Unknown
    requires !IsSafe(prog.definitions[f], key, s)
    ensures SameBodies(prog, other) && Known(other, 1, f, key, s)
    ensures Receives(other, false, f, got, 1) && !Agrees(key, s, got)
  {
    hide IsSafe, Known, Delivers, SameBodies, Active, Agrees;
    var def := prog.definitions[f];
    got := UnsafeFlags(def, key, s);
    var base := AgreeingFlags(def, key, s);
    var vec := base;
    if !MayRecoverWith(def, got) {
      vec :| Agrees(key, s, vec) && MayBecome(def, vec, got);
    }
    other := WithReturns(prog, f, base, vec);
    RecognizedIsKnown(prog, f, key, s, base, vec);
    assert MayRecoverWith(other.definitions[f], got) || MayBecome(other.definitions[f], vec, got);
  }

  /** Whatever functions return, all that is found holds of all that callers receive, exactly if each definition is
      safe. */
  lemma ReceivedHoldsExactly(prog: Program)
    ensures (forall other, n: nat, f, key, s, got, depth: nat ::
               SameBodies(prog, other) && Known(other, n, f, key, s) && Receives(other, false, f, got, depth) ==>
                 Agrees(key, s, got)) <==>
            (forall f :: f in prog.definitions ==> IsSafeDefinition(prog.definitions[f]))
  {
    hide Agrees, Active, Receives, Known, IsSafe, IsSafeDefinition, Derivable;
    if f :| f in prog.definitions && !IsSafeDefinition(prog.definitions[f]) {
      SafeForAllStates(prog.definitions[f]);
      var key, s :| Active(prog.definitions[f], key) && s != Unknown && !IsSafe(prog.definitions[f], key, s);
      var other, got := UnsafeIsReceived(prog, f, key, s);
    } else {
      forall other, n: nat, f, key, s, got, depth: nat |
        SameBodies(prog, other) && Known(other, n, f, key, s) && Receives(other, false, f, got, depth)
        ensures Agrees(key, s, got)
      {
        SafeDefinitionsAreEnough(prog, other);
        KnownHolds(other, false, n, f, key, s, got, depth);
      }
    }
  }

  lemma SafeDefinitionsAreEnough(prog: Program, other: Program)
    requires SameBodies(prog, other) && forall f :: f in prog.definitions ==> IsSafeDefinition(prog.definitions[f])
    ensures AllSafe(other)
  {
    hide IsSafeDefinition, IsSafe, Active;
    forall f, key, s | Derivable(other, f, key, s)
      ensures IsSafe(other.definitions[f], key, s)
    {
      SafeForAllStates(prog.definitions[f]);
      SameSafety(prog.definitions[f], other.definitions[f], key, s);
    }
  }

  lemma SameSafety(one: Definition, two: Definition, key: Key, s: NilState)
    requires two == one.(returned := two.returned) && Active(two, key)
    ensures Active(one, key) && (IsSafe(one, key, s) <==> IsSafe(two, key, s))
  {
  }

  // ---------- Recorded states that do not hold ----------

  const REFERENCE: ResultType := ResultType(0, true, false)
  const ERROR: ResultType := ResultType(1, true, true)
  const ADDRESS: Expr := Expr(NonNil, Unknown, None)
  const NO_ERROR: Expr := Expr(Nil, Nil, None)

  /** `func f() (v *T, err error) { defer func() { v = nil }(); return &T{}, nil }` */
  const CHANGING: Definition :=
    Definition([ResultVar(REFERENCE, Shared), ResultVar(ERROR, Private)], false, false, [[ADDRESS, NO_ERROR]],
               [ControlFlow.Block([NoReturn.Plain(false), NoReturn.Plain(false)], true, true, [])])

  /** Its value is recorded as not nil when its error is nil, but a caller may receive nil. */
  lemma ChangedResultIsReceived()
    ensures var prog, key := Program(map[0 := CHANGING], map[]), Relation(0, 1, true);
      && Known(prog, 1, 0, key, NonNil) && !NoReturn.MayRecover(CHANGING.body)
      && Receives(prog, false, 0, [true, true], 1) && !Agrees(key, NonNil, [true, true])
  {
    var prog, key := Program(map[0 := CHANGING], map[]), Relation(0, 1, true);
    var ret := CHANGING.returned[0];
    assert TermOf(prog, CHANGING, ret, key) == Value(NonNil);
    assert ReturnDelivers(prog, false, CHANGING, ret, [false, true], 1);
    assert Delivers(prog, false, 0, [false, true], 1) && MayBecome(CHANGING, [false, true], [true, true]);
    NoReturn.GuardsPanicExactly(CHANGING.body);
  }

  /** `defer func() { recover() }(); work(); return ...` */
  const RECOVERING: NoReturn.Graph :=
    [ControlFlow.Block([NoReturn.Guard, NoReturn.Call(None), NoReturn.Plain(false)], true, true, [])]

  /** With this body: `func f() *T`, which returns `&T{}`; `func g() (*T, error)`, which returns `&T{}, nil`; and
      `func h() *T { return f() }`. */
  const RESCUED: Program := Program(map[
    0 := Definition([ResultVar(REFERENCE, Unnamed)], false, false, [[ADDRESS]], RECOVERING),
    1 := Definition([ResultVar(REFERENCE, Unnamed), ResultVar(ERROR, Unnamed)], false, false, [[ADDRESS, NO_ERROR]],
                    RECOVERING),
    2 := Definition([ResultVar(REFERENCE, Unnamed)], false, false, [[Expr(Unknown, Unknown, Some(0))]],
                    [ControlFlow.Block([NoReturn.Call(Some(0))], true, true, [])])], map[])

  lemma RecoveringRecovers()
    ensures NoReturn.MayRecover(RECOVERING)
  {
    var g := RECOVERING;
    assert NoReturn.Before(g, [0], 1, 0, 0) && g[[0][0]].nodes[0].Guard?;
    NoReturn.UnknownEnds(g, [0], 1);
  }

  lemma RecoveredPairIsReceived()
    ensures Known(RESCUED, 1, 1, Relation(0, 1, true), NonNil) && Receives(RESCUED, false, 1, [true, true], 1)
    ensures !Agrees(Relation(0, 1, true), NonNil, [true, true])
  {
    hide NoReturn.EndsAt;
    var pair := RESCUED.definitions[1];
    RecoveringRecovers();
    assert TermOf(RESCUED, pair, pair.returned[0], Relation(0, 1, true)) == Value(NonNil);
  }

  /** The values of the first and third function are recorded as not nil, that of the second as not nil when its error
      is nil; yet callers receive nil from all three. */
  lemma RecoveredResultIsReceived()
    ensures Known(RESCUED, 1, 0, Result(0), NonNil) && Receives(RESCUED, false, 0, [true], 1)
    ensures Known(RESCUED, 1, 1, Relation(0, 1, true), NonNil) && Receives(RESCUED, false, 1, [true, true], 1)
    ensures Known(RESCUED, 2, 2, Result(0), NonNil) && Receives(RESCUED, false, 2, [true], 2)
    ensures !Agrees(Result(0), NonNil, [true]) && !Agrees(Relation(0, 1, true), NonNil, [true, true])
  {
    hide NoReturn.EndsAt;
    RecoveredPairIsReceived();
    RecoveringRecovers();
    var single, delegating := RESCUED.definitions[0], RESCUED.definitions[2];
    assert TermOf(RESCUED, single, single.returned[0], Result(0)) == Value(NonNil);
    assert TermOf(RESCUED, delegating, delegating.returned[0], Result(0)) == Delegate(0, Result(0));
    hide TermOf;
    assert CalleeGives(RESCUED, false, 0, [true], 1);
    assert ReturnDelivers(RESCUED, false, delegating, delegating.returned[0], [true], 2);
    assert Delivers(RESCUED, false, 2, [true], 2) && MayBecome(delegating, [true], [true]);
  }

  // ---------- The memoised analysis ----------

  /** Everything recorded for a function is in the least solution. */
  ghost predicate Derived(prog: Program, f: nat, states: map<Key, NilState>) {
    forall key :: key in states ==> states[key] != Unknown && Derivable(prog, f, key, states[key])
  }

  /** Everything in the least solution is recorded. */
  ghost predicate Complete(prog: Program, f: nat, relation: bool, states: map<Key, NilState>) {
    forall key: Key, s :: key.Relation? == relation && Derivable(prog, f, key, s) ==> key in states && states[key] == s
  }

  function Lookup(states: map<Key, NilState>, key: Key): NilState {
    if key in states then states[key] else Unknown
  }

  /** One of the two memo tables: `relation` is false for `resultStates` and true for `summaries`. */
  class StateTable {
    const prog: Program
    const relation: bool
    const ctxErr: nat -> bool
    var polls: nat
    var states: map<nat, map<Key, NilState>>
    var built: set<nat>
    var started: set<nat>
    var buildDepth: nat
    ghost var stack: seq<nat>
    ghost var interrupted: bool

    /** Nobody cancels and there are too few definitions for the stack to reach the depth limit. */
    ghost predicate Ideal() {
      (forall n :: !ctxErr(n)) && |prog.definitions| <= MAX_BUILD_DEPTH
    }

    ghost predicate Valid()
      reads this
    {
      && built <= prog.definitions.Keys && states.Keys <= built
      && (forall f :: f in states ==> Derived(prog, f, states[f]))
      && (!interrupted ==> forall f :: f in built ==> Complete(prog, f, relation, Recorded(f)))
      && (Ideal() ==> !interrupted)
      && StackValid()
    }

    ghost predicate StackValid()
      reads this
    {
      && Chain(prog, stack) && started <= prog.definitions.Keys && |started| == buildDepth
      && (forall f :: f in started <==> f in stack)
      && forall f :: f in started ==> f !in built && !prog.definitions[f].noReturn
    }

    function Recorded(f: nat): map<Key, NilState>
      reads this
    {
      if f in states then states[f] else map[]
    }

    constructor (prog: Program, relation: bool, ctxErr: nat -> bool)
      ensures Valid() && this.prog == prog && this.relation == relation && this.ctxErr == ctxErr
      ensures built == {} && stack == [] && !interrupted
    {
      this.prog, this.relation, this.ctxErr := prog, relation, ctxErr;
      polls, states, built, started, buildDepth, stack, interrupted := 0, map[], {}, {}, 0, [], false;
    }

    /** Entries are written once, and a call leaves the stack as it found it. */
    twostate predicate Grows()
      reads this
    {
      && stack == old(stack) && started == old(started) && old(built) <= built && (old(interrupted) ==> interrupted)
      && forall f :: f in old(built) ==> Recorded(f) == old(Recorded(f))
    }

    method Cancelled() returns (stop: bool)
      requires Valid()
      modifies this`polls
      ensures Valid()
      ensures stop ==> exists n :: ctxErr(n)
    {
      stop := ctxErr(polls);
      polls := polls + 1;
    }

    ghost predicate MayAsk(f: nat)
      reads this
    {
      f in prog.definitions && (|stack| > 0 ==> Linked(prog, stack[|stack| - 1], f))
    }

    /** `buildAll`, over the definitions in any order. */
    method BuildAll(ordered: seq<nat>)
      requires Valid() && stack == []
      requires forall f :: f in ordered ==> f in prog.definitions
      modifies this
      ensures Valid() && Grows()
      ensures !interrupted ==> forall f :: f in ordered ==> f in built
    {
      for i := 0 to |ordered|
        invariant Valid() && Grows()
        invariant !interrupted ==> forall j :: 0 <= j < i ==> ordered[j] in built
      {
        var stop := Cancelled();
        if stop {
          interrupted := true;
          return;
        }
        var _ := BuildDefinition(ordered[i]);
      }
    }

    /** What is recorded is exactly the least solution. */
    lemma RecordedIsLeast(f: nat, key: Key, s: NilState)
      requires Valid() && !interrupted && f in built && key.Relation? == relation && s != Unknown
      ensures Lookup(Recorded(f), key) == s <==> Derivable(prog, f, key, s)
    {
    }

    /** Interrupted or not, what is recorded holds of everything that callers receive: in executions without recovered
        panics and changed results, and in all executions if the states found are safe. */
    lemma RecordedHolds(plain: bool, f: nat, key: Key, got: seq<bool>, depth: nat)
      requires Valid() && (plain || AllSafe(prog)) && Receives(prog, plain, f, got, depth)
      ensures Agrees(key, Lookup(Recorded(f), key), got)
    {
      var s := Lookup(Recorded(f), key);
      if s != Unknown {
        assert Derivable(prog, f, key, s);
        var n: nat :| Known(prog, n, f, key, s);
        KnownHolds(prog, plain, n, f, key, s, got, depth);
      }
    }

    /** `buildDefinitionResultStates` and `buildDefinitionReturnStates`. */
    method BuildDefinition(f: nat) returns (r: map<Key, NilState>)
      requires Valid() && MayAsk(f)
      modifies this
      ensures Valid() && Grows()
      ensures Derived(prog, f, r)
      ensures !interrupted ==> (f in built && Complete(prog, f, relation, r)) || (f in stack && r == map[])
      ensures !interrupted && f !in old(stack) ==> f in built
      decreases prog.definitions.Keys - started, 0, 1
    {
      hide Derived, Complete, Valid, Linked;
      NothingDerived(f);
      var stop := Cancelled();
      if stop || buildDepth >= MAX_BUILD_DEPTH {
        if f !in stack {
          Interrupt(f);
        }
        return map[];
      }
      if f in built {
        RecordedIsRight(f);
        return Recorded(f);
      }
      if prog.definitions[f].noReturn {
        MarkBuilt(f);
        return map[];
      }
      if f in started {
        StartedIsStacked(f);
        return map[];
      }
      r := Compute(f);
    }

    lemma NothingDerived(f: nat)
      requires MayAsk(f)
      ensures f in prog.definitions && Derived(prog, f, map[])
      ensures prog.definitions[f].noReturn ==> Complete(prog, f, relation, map[])
    {
    }

    lemma StartedIsStacked(f: nat)
      requires Valid() && f in started
      ensures f in stack
    {
    }

    lemma RecordedIsRight(f: nat)
      requires Valid() && f in built
      ensures Derived(prog, f, Recorded(f)) && (!interrupted ==> Complete(prog, f, relation, Recorded(f)))
    {
    }

    ghost method Interrupt(f: nat)
      requires Valid() && f in prog.definitions && f !in stack
      requires buildDepth >= MAX_BUILD_DEPTH || exists n :: ctxErr(n)
      modifies this`interrupted
      ensures Valid() && interrupted
    {
      hide Derived, Complete, Chain;
      if Ideal() {
        FullStack(f);
      }
      interrupted := true;
    }

    /** A function that never returns has no states. */
    method MarkBuilt(f: nat)
      requires Valid() && f in prog.definitions && prog.definitions[f].noReturn && f !in built
      requires Complete(prog, f, relation, map[])
      modifies this`built
      ensures Valid() && built == old(built) + {f}
    {
      hide Derived, Complete, Chain;
      built := built + {f};
    }

    method Compute(f: nat) returns (r: map<Key, NilState>)
      requires Valid() && MayAsk(f) && f !in started && f !in built && !prog.definitions[f].noReturn
      modifies this
      ensures Valid() && Grows() && f in built
      ensures Derived(prog, f, r) && (!interrupted ==> Complete(prog, f, relation, r))
      decreases prog.definitions.Keys - started, 0, 0
    {
      hide Derived, Complete, Valid;
      Push(f);
      r := Summarize(f);
      assert stack[..|stack| - 1] == old(stack);
      Finish(f, r);
    }

    method Summarize(f: nat) returns (r: map<Key, NilState>)
      requires Valid() && OnTop(f) && !prog.definitions[f].noReturn
      modifies this
      ensures Valid() && Grows()
      ensures Derived(prog, f, r) && (!interrupted ==> Complete(prog, f, relation, r))
      decreases prog.definitions.Keys - started, 5
    {
      hide Derived, Complete, Valid;
      if relation {
        r := SummarizeRelations(f);
      } else {
        r := SummarizeResults(f);
      }
    }

    method Finish(f: nat, r: map<Key, NilState>)
      requires Valid() && OnTop(f) && f !in stack[..|stack| - 1]
      requires Derived(prog, f, r) && (!interrupted ==> Complete(prog, f, relation, r))
      modifies this
      ensures Valid() && stack == old(stack)[..|old(stack)| - 1] && started == old(started) - {f}
      ensures built == old(built) + {f} && interrupted == old(interrupted)
      ensures forall h :: h in old(built) ==> Recorded(h) == old(Recorded(h))
    {
      hide Derived, Complete, Valid;
      Pop(f);
      Record(f, r);
    }

    method Record(f: nat, r: map<Key, NilState>)
      requires Valid() && f in prog.definitions && f !in built && f !in started
      requires Derived(prog, f, r) && (!interrupted ==> Complete(prog, f, relation, r))
      modifies this`states, this`built
      ensures Valid() && Grows() && built == old(built) + {f} && Recorded(f) == r
    {
      hide Chain, Derived, Complete;
      assert |r| == 0 ==> r == map[];
      if |r| != 0 {
        states := states[f := r];
      }
      built := built + {f};
    }

    ghost predicate OnTop(f: nat)
      reads this
    {
      |stack| > 0 && stack[|stack| - 1] == f && f in prog.definitions
    }

    function TermAt(f: nat, key: Key, r: nat): Term
      requires f in prog.definitions && r < |prog.definitions[f].returned|
    {
      TermOf(prog, prog.definitions[f], prog.definitions[f].returned[r], key)
    }

    /** `state` is what return `r` of `f` contributes to `key`, unless the least solution leaves `key` unknown. */
    ghost predicate Contributes(f: nat, key: Key, r: nat, state: NilState)
      reads this
      requires f in prog.definitions && r < |prog.definitions[f].returned|
    {
      && (state != Unknown ==> DerivableTerm(prog, TermAt(f, key, r), state))
      && (!interrupted ==> forall s :: Derivable(prog, f, key, s) ==> state == s)
    }

    /** `delegatedResultState` and `delegatedReturnState`, once a return's contribution has been worked out. */
    method Evaluate(f: nat, key: Key, r: nat) returns (state: NilState)
      requires Valid() && OnTop(f) && key.Relation? == relation
      requires Active(prog.definitions[f], key) && r < |prog.definitions[f].returned| && TermAt(f, key, r) != Skip
      modifies this
      ensures Valid() && Grows()
      ensures Contributes(f, key, r, state)
      decreases prog.definitions.Keys - started, 1
    {
      var def := prog.definitions[f];
      ghost var term := TermAt(f, key, r);
      forall s | Derivable(prog, f, key, s)
        ensures DerivableTerm(prog, term, s)
      {
        UnfoldsAt(f, key, s);
      }
      match TermAt(f, key, r) {
        case Value(value) =>
          assert Yields(prog, 0, Value(value), value);
          return value;
        case Delegate(g, k) =>
          TermCallee(prog, def, def.returned[r], key);
          assert Asks(prog, f, key, g, k);
          assert Linked(prog, f, g);
          var states := BuildDefinition(g);
          state := Lookup(states, k);
          DelegationContributes(f, key, r, g, k, states);
      }
    }

    lemma DelegationContributes(f: nat, key: Key, r: nat, g: nat, k: Key, states: map<Key, NilState>)
      requires Valid() && OnTop(f) && key.Relation? == k.Relation? == relation
      requires Active(prog.definitions[f], key) && r < |prog.definitions[f].returned|
      requires TermAt(f, key, r) == Delegate(g, k) && Asks(prog, f, key, g, k)
      requires Derived(prog, g, states)
      requires !interrupted ==> Complete(prog, g, relation, states) || (g in stack && states == map[])
      ensures Contributes(f, key, r, Lookup(states, k))
    {
      var state := Lookup(states, k);
      if state != Unknown {
        var n: nat :| Known(prog, n, g, k, state);
        assert Yields(prog, n, Delegate(g, k), state);
      }
      if !interrupted && !Complete(prog, g, relation, states) {
        CutLosesNothing(key, g, k);
      }
      forall s | !interrupted && Derivable(prog, f, key, s)
        ensures state == s
      {
        UnfoldsAt(f, key, s);
        assert DerivableTerm(prog, TermAt(f, key, r), s);
        var n: nat :| Yields(prog, n, TermAt(f, key, r), s);
        assert Known(prog, n, g, k, s);
        assert Derivable(prog, g, k, s);
      }
    }

    /** `aggregateResultState` and `aggregateReturnState`: all returns that bear on the key must agree. */
    method Aggregate(f: nat, key: Key) returns (state: NilState)
      requires Valid() && OnTop(f) && key.Relation? == relation && Active(prog.definitions[f], key)
      modifies this
      ensures Valid() && Grows()
      ensures state != Unknown ==> Derivable(prog, f, key, state)
      ensures !interrupted ==> forall s :: Derivable(prog, f, key, s) ==> state == s
      decreases prog.definitions.Keys - started, 2
    {
      var def := prog.definitions[f];
      state := Unknown;
      var found := false;
      for r := 0 to |def.returned|
        invariant Valid() && Grows()
        invariant found <==> exists q :: 0 <= q < r && TermAt(f, key, q) != Skip
        invariant found <==> state != Unknown
        invariant found ==> forall q :: 0 <= q < r ==> DerivableTerm(prog, TermAt(f, key, q), state)
        invariant !interrupted && found ==> forall s :: Derivable(prog, f, key, s) ==> state == s
      {
        if TermAt(f, key, r) == Skip {
          assert Yields(prog, 0, Skip, state);
          continue;
        }
        var candidate := Evaluate(f, key, r);
        NeverUnknown(prog, f, key);
        if candidate == Unknown {
          return Unknown;
        }
        if found && state != candidate {
          return Unknown;
        }
        state := candidate;
        found := true;
        forall q | 0 <= q < r && TermAt(f, key, q) == Skip
          ensures DerivableTerm(prog, TermAt(f, key, q), state)
        {
          assert Yields(prog, 0, Skip, state);
        }
      }
      if found {
        UnfoldsAt(f, key, state);
      } else {
        forall s | Derivable(prog, f, key, s)
          ensures false
        {
          UnfoldsAt(f, key, s);
        }
      }
    }

    lemma UnfoldsAt(f: nat, key: Key, s: NilState)
      requires f in prog.definitions && Active(prog.definitions[f], key)
      ensures Derivable(prog, f, key, s) <==>
        && s != Unknown
        && (exists r :: 0 <= r < |prog.definitions[f].returned| && TermAt(f, key, r) != Skip)
        && (forall r :: 0 <= r < |prog.definitions[f].returned| ==> DerivableTerm(prog, TermAt(f, key, r), s))
    {
      var def := prog.definitions[f];
      if s != Unknown {
        DerivableUnfolds(prog, f, key, s);
        assert forall r :: 0 <= r < |def.returned| ==> TermAt(f, key, r) == TermOf(prog, def, def.returned[r], key);
      }
    }

    /** The table under construction is right for the keys below `bound`. */
    ghost predicate Filled(f: nat, r: map<Key, NilState>, below: Key -> bool)
      reads this
    {
      && Derived(prog, f, r)
      && (!interrupted ==>
        forall key: Key, s :: key.Relation? == relation && below(key) && Derivable(prog, f, key, s) ==>
            key in r && r[key] == s)
    }

    method FillKey(f: nat, r: map<Key, NilState>, key: Key, ghost below: Key -> bool) returns (r': map<Key, NilState>)
      requires Valid() && OnTop(f) && key.Relation? == relation && Active(prog.definitions[f], key)
      requires Filled(f, r, below)
      modifies this
      ensures Valid() && Grows()
      ensures Filled(f, r', k => below(k) || k == key)
      decreases prog.definitions.Keys - started, 3
    {
      var state := Aggregate(f, key);
      r' := if state != Unknown then r[key := state] else r;
    }

    /** `summarizeResultStates`. */
    method SummarizeResults(f: nat) returns (r: map<Key, NilState>)
      requires Valid() && OnTop(f) && !relation && !prog.definitions[f].noReturn
      modifies this
      ensures Valid() && Grows()
      ensures Derived(prog, f, r) && (!interrupted ==> Complete(prog, f, relation, r))
      decreases prog.definitions.Keys - started, 4
    {
      var def := prog.definitions[f];
      r := map[];
      if def.deferredNoReturn {
        return;
      }
      ghost var below: Key -> bool := k => false;
      for i := 0 to |def.results|
        invariant Valid() && Grows()
        invariant Filled(f, r, below)
        invariant forall key: Key :: key.Result? && Active(def, key) && key.index < i ==> below(key)
      {
        if Active(def, Result(i)) {
          r := FillKey(f, r, Result(i), below);
          ghost var before := below;
          below := k => before(k) || k == Result(i);
        }
      }
    }

    /** `summarizeReturnStates`: every pair of a nil-capable and an error result, for both error states. */
    method SummarizeRelations(f: nat) returns (r: map<Key, NilState>)
      requires Valid() && OnTop(f) && relation && !prog.definitions[f].noReturn
      modifies this
      ensures Valid() && Grows()
      ensures Derived(prog, f, r) && (!interrupted ==> Complete(prog, f, relation, r))
      decreases prog.definitions.Keys - started, 4
    {
      var def := prog.definitions[f];
      r := map[];
      if def.deferredNoReturn {
        return;
      }
      ghost var below: Key -> bool := k => false;
      for v := 0 to |def.results|
        invariant Valid() && Grows()
        invariant Filled(f, r, below)
        invariant forall key: Key :: key.Relation? && Active(def, key) && key.value < v ==> below(key)
      {
        for e := 0 to |def.results|
          invariant Valid() && Grows()
          invariant Filled(f, r, below)
          invariant forall key: Key ::
            key.Relation? && Active(def, key) && (key.value < v || (key.value == v && key.error < e)) ==> below(key)
        {
          if Active(def, Relation(v, e, true)) {
            r := FillKey(f, r, Relation(v, e, true), below);
            ghost var before := below;
            below := k => before(k) || k == Relation(v, e, true);
            r := FillKey(f, r, Relation(v, e, false), below);
            ghost var between := below;
            below := k => between(k) || k == Relation(v, e, false);
          }
        }
      }
    }

    lemma CutLosesNothing(key: Key, g: nat, k: Key)
      requires StackValid() && |stack| > 0 && g in stack && Asks(prog, stack[|stack| - 1], key, g, k)
      ensures Unanswered(prog, stack[|stack| - 1], key)
    {
      hide Chain, Asks;
      var t: nat :| t < |stack| && stack[t] == g;
      var top := stack[|stack| - 1];
      forall n: nat, s | Known(prog, n, top, key, s)
        ensures false
      {
        CutIsUnknown(prog, stack, t, key, k, n, s);
      }
    }

    lemma FullStack(f: nat)
      requires Valid() && Ideal() && f in prog.definitions && buildDepth >= MAX_BUILD_DEPTH
      ensures f in stack
    {
      if f !in started {
        SmallerSet(started, prog.definitions.Keys, f);
      }
    }

    method Push(f: nat)
      requires Valid() && MayAsk(f) && f !in started && f !in built && !prog.definitions[f].noReturn
      modifies this`started, this`buildDepth, this`stack
      ensures Valid() && stack == old(stack) + [f] && started == old(started) + {f} && f !in old(stack)
    {
      hide Derived, Complete, Linked;
      started := started + {f};
      buildDepth := buildDepth + 1;
      stack := stack + [f];
    }

    method Pop(f: nat)
      requires Valid() && |stack| > 0 && stack[|stack| - 1] == f && f !in stack[..|stack| - 1]
      modifies this`started, this`buildDepth, this`stack
      ensures Valid() && stack == old(stack)[..|old(stack)| - 1] && started == old(started) - {f} && f !in built
    {
      hide Derived, Complete, Linked;
      assert f in started;
      buildDepth := buildDepth - 1;
      started := started - {f};
      stack := stack[..|stack| - 1];
    }
  }

  lemma SmallerSet(small: set<nat>, big: set<nat>, f: nat)
    requires small <= big && f in big && f !in small
    ensures |small| < |big|
  {
    SubsetIsSmaller(small + {f}, big);
  }

  /** The tables do not depend on the order in which definitions are built. */
  lemma OrderDoesNotMatter(a: StateTable, b: StateTable, f: nat)
    requires a.Valid() && b.Valid() && a.prog == b.prog && a.relation == b.relation
    requires !a.interrupted && !b.interrupted && f in a.built && f in b.built
    ensures forall key: Key :: key.Relation? == a.relation ==> Lookup(a.Recorded(f), key) == Lookup(b.Recorded(f), key)
  {
    forall key: Key | key.Relation? == a.relation
      ensures Lookup(a.Recorded(f), key) == Lookup(b.Recorded(f), key)
    {
      if Lookup(a.Recorded(f), key) != Unknown {
        a.RecordedIsLeast(f, key, Lookup(a.Recorded(f), key));
        b.RecordedIsLeast(f, key, Lookup(a.Recorded(f), key));
      } else if Lookup(b.Recorded(f), key) != Unknown {
        a.RecordedIsLeast(f, key, Lookup(b.Recorded(f), key));
        b.RecordedIsLeast(f, key, Lookup(b.Recorded(f), key));
      }
    }
  }
}
