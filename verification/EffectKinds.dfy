/** Effect summaries for one function parameter or receiver (internal/rules/types.go). */
module EffectKinds {

  datatype Kind = Close | TransactionComplete | CancelInvoke | Transfer

  /** `known` tells a proven borrow from an unavailable summary; `guaranteed` holds the kinds found on every
      returning path, `kinds` also those found only on some. */
  datatype Summary = Summary(known: bool, always: bool, kinds: set<Kind>, guaranteed: set<Kind>)

  const NO_SUMMARY := Summary(false, false, {}, {})

  predicate GuaranteesAny(s: Summary, accepted: set<Kind>) {
    s.known && s.always && (s.guaranteed * accepted != {} || (s.kinds != {} && s.kinds <= accepted))
  }

  /** A returning call that performed the kinds `performed` agrees with summary `s`. */
  predicate Admits(s: Summary, performed: set<Kind>) {
    s.always ==> s.guaranteed <= performed && s.kinds * performed != {}
  }

  /** What a caller gets from `GuaranteesAny`: every returning call performs an accepted effect. */
  lemma GuaranteesAnyIsPerformed(s: Summary, accepted: set<Kind>, performed: set<Kind>)
    requires GuaranteesAny(s, accepted) && Admits(s, performed)
    ensures performed * accepted != {}
  {
    if s.guaranteed * accepted != {} {
      var k :| k in s.guaranteed * accepted;
      assert k in performed * accepted;
    } else {
      var k :| k in s.kinds * performed;
      assert k in performed * accepted;
    }
  }

  /** That is all it takes of a known summary that speaks of every returning call. */
  lemma GuaranteesAnyExactly(s: Summary, accepted: set<Kind>)
    requires s.always ==> s.kinds != {}
    ensures GuaranteesAny(s, accepted) <==>
      s.known && s.always && forall performed :: Admits(s, performed) ==> performed * accepted != {}
  {
    if GuaranteesAny(s, accepted) {
      forall performed | Admits(s, performed)
        ensures performed * accepted != {}
      {
        GuaranteesAnyIsPerformed(s, accepted, performed);
      }
    } else if s.always && s.known {
      var k :| k in s.kinds && k !in accepted;
      var performed := s.guaranteed + {k};
      assert k in s.kinds * performed;
      assert Admits(s, performed) && performed * accepted == {};
    }
  }
}
