/** The procedure that rewrites a request towards a readback decides the equivalence it is meant to. */
module Equivalence {
  import opened Config
  import opened FilterLayout

  predicate SchemeReadback(s: SchemeConfig) {
    ReadbackForm(s.filters)
  }

  /** Every filter list is in the form the readers produce. */
  predicate IsReadback(config: DamonConfig) {
    forall k, c, s | k in config.kdamonds && c in k.contexts && s in c.schemes :: SchemeReadback(s)
  }

  lemma NormalizedSchemeRealises(a: SchemeConfig, observed: SchemeConfig)
    ensures NormalizeScheme(a, observed) == observed || a == observed ==> SchemeEquivalent(a, observed)
    ensures SchemeReadback(observed) ==> (NormalizeScheme(a, observed) == observed <==> SchemeEquivalent(a, observed))
  {
    if SchemeReadback(observed) { ReadbackIsCanonical(observed.filters); }
  }

  lemma NormalizedContextRealises(a: ContextConfig, observed: ContextConfig)
    ensures NormalizeContext(a, observed) == observed || a == observed ==> ContextEquivalent(a, observed)
    ensures (forall s | s in observed.schemes :: SchemeReadback(s)) ==> (NormalizeContext(a, observed) == observed <==> ContextEquivalent(a, observed))
  {
    var n := NormalizeContext(a, observed);
    forall i | 0 <= i < |a.schemes| && i < |observed.schemes|
      ensures NormalizeScheme(a.schemes[i], observed.schemes[i]) == observed.schemes[i] || a.schemes[i] == observed.schemes[i]
              ==> SchemeEquivalent(a.schemes[i], observed.schemes[i])
      ensures SchemeReadback(observed.schemes[i]) ==>
              (NormalizeScheme(a.schemes[i], observed.schemes[i]) == observed.schemes[i] <==> SchemeEquivalent(a.schemes[i], observed.schemes[i]))
    {
      NormalizedSchemeRealises(a.schemes[i], observed.schemes[i]);
    }
    assert n == observed ==> forall i | 0 <= i < |a.schemes| :: n.schemes[i] == observed.schemes[i];
    hide SchemeEquivalent, NormalizeScheme, SchemeReadback;
    if (forall s | s in observed.schemes :: SchemeReadback(s)) && ContextEquivalent(a, observed) {
      assert forall i | 0 <= i < |a.schemes| :: observed.schemes[i] in observed.schemes;
      assert n.schemes == observed.schemes;
    }
  }

  lemma NormalizedKdamondRealises(a: KdamondConfig, observed: KdamondConfig)
    ensures NormalizeKdamond(a, observed) == observed || a == observed ==> KdamondEquivalent(a, observed)
    ensures (forall c, s | c in observed.contexts && s in c.schemes :: SchemeReadback(s)) ==>
              (NormalizeKdamond(a, observed) == observed <==> KdamondEquivalent(a, observed))
  {
    var n := NormalizeKdamond(a, observed);
    forall i | 0 <= i < |a.contexts| && i < |observed.contexts|
      ensures NormalizeContext(a.contexts[i], observed.contexts[i]) == observed.contexts[i] || a.contexts[i] == observed.contexts[i]
              ==> ContextEquivalent(a.contexts[i], observed.contexts[i])
      ensures (forall s | s in observed.contexts[i].schemes :: SchemeReadback(s)) ==>
              (NormalizeContext(a.contexts[i], observed.contexts[i]) == observed.contexts[i] <==> ContextEquivalent(a.contexts[i], observed.contexts[i]))
    {
      NormalizedContextRealises(a.contexts[i], observed.contexts[i]);
    }
    assert n == observed ==> forall i | 0 <= i < |a.contexts| :: n.contexts[i] == observed.contexts[i];
    hide ContextEquivalent, NormalizeContext, SchemeReadback;
    if (forall c, s | c in observed.contexts && s in c.schemes :: SchemeReadback(s)) && KdamondEquivalent(a, observed) {
      assert forall i | 0 <= i < |a.contexts| :: observed.contexts[i] in observed.contexts;
      assert n.contexts == observed.contexts;
    }
  }

  /** The decision procedure accepts only readbacks that realise the request, and, of what the
      readers produce, all of them. */
  lemma NormalizationDecidesEquivalence(a: DamonConfig, observed: DamonConfig)
    ensures EquivalentAfterKernelNormalization(a, observed) ==> Equivalent(a, observed)
    ensures IsReadback(observed) ==> (EquivalentAfterKernelNormalization(a, observed) <==> Equivalent(a, observed))
  {
    var n := Normalize(a, observed);
    forall i | 0 <= i < |a.kdamonds| && i < |observed.kdamonds|
      ensures NormalizeKdamond(a.kdamonds[i], observed.kdamonds[i]) == observed.kdamonds[i] || a.kdamonds[i] == observed.kdamonds[i]
              ==> KdamondEquivalent(a.kdamonds[i], observed.kdamonds[i])
      ensures (forall c, s | c in observed.kdamonds[i].contexts && s in c.schemes :: SchemeReadback(s)) ==>
              (NormalizeKdamond(a.kdamonds[i], observed.kdamonds[i]) == observed.kdamonds[i] <==> KdamondEquivalent(a.kdamonds[i], observed.kdamonds[i]))
    {
      NormalizedKdamondRealises(a.kdamonds[i], observed.kdamonds[i]);
    }
    assert n == observed ==> forall i | 0 <= i < |a.kdamonds| :: n.kdamonds[i] == observed.kdamonds[i];
    hide KdamondEquivalent, NormalizeKdamond, SchemeReadback;
    if IsReadback(observed) && Equivalent(a, observed) {
      assert forall i | 0 <= i < |a.kdamonds| :: observed.kdamonds[i] in observed.kdamonds;
      assert n.kdamonds == observed.kdamonds;
    }
  }
}
