/** The score factor by factor: which way each column pulls, and by how much. */
module ScoringLaws {
  import opened Common
  import opened Scoring

  // ---- the weight table, row by row ----

  predicate Uses(f: Features, vector: real, bm25: real, token: real) {
    WeightsFor(f) == Weights(vector, bm25, token)
  }

  predicate Tiny(f: Features) { f.queryBytes <= 3 }
  predicate Wordy(f: Features) { f.englishTokens >= 4 }
  predicate ShortHan(f: Features) { f.cjkCount in {2, 3, 4} && f.tokenTotal < 6 }
  predicate HanOnly(f: Features) { f.cjkCount >= 1 && !f.hasLatin }

  /** With a vector and a text rank: very short, long English, short Chinese and other queries. */
  lemma WeightsWithBoth(f: Features)
    requires f.hasQueryVector && f.bm25.Some?
    ensures Tiny(f) && f.hasTechTerms ==> Uses(f, 0.40, 0.40, 0.20)
    ensures Tiny(f) && !f.hasTechTerms ==> Uses(f, 0.60, 0.20, 0.20)
    ensures !Tiny(f) && Wordy(f) && f.hasTechTerms ==> Uses(f, 0.45, 0.35, 0.20)
    ensures !Tiny(f) && Wordy(f) && !f.hasTechTerms ==> Uses(f, 0.60, 0.20, 0.20)
    ensures !Tiny(f) && !Wordy(f) && ShortHan(f) && f.hasTechTerms ==> Uses(f, 0.40, 0.30, 0.30)
    ensures !Tiny(f) && !Wordy(f) && ShortHan(f) && !f.hasTechTerms && HanOnly(f) ==> Uses(f, 0.45, 0.25, 0.30)
    ensures !Tiny(f) && !Wordy(f) && ShortHan(f) && !f.hasTechTerms && !HanOnly(f) ==> Uses(f, 0.50, 0.20, 0.30)
    ensures !Tiny(f) && !Wordy(f) && !ShortHan(f) && HanOnly(f) ==> Uses(f, 0.35, 0.35, 0.30)
    ensures !Tiny(f) && !Wordy(f) && !ShortHan(f) && !HanOnly(f) ==> Uses(f, 0.45, 0.35, 0.20)
  {
  }

  /** With a vector alone, or without one. */
  lemma WeightsWithoutBoth(f: Features)
    ensures f.hasQueryVector && f.bm25.None? && Tiny(f) ==> Uses(f, 0.65, 0.0, 0.35)
    ensures f.hasQueryVector && f.bm25.None? && !Tiny(f) && HanOnly(f) ==> Uses(f, 0.40, 0.0, 0.60)
    ensures f.hasQueryVector && f.bm25.None? && !Tiny(f) && !HanOnly(f) ==> Uses(f, 0.55, 0.0, 0.45)
    ensures !f.hasQueryVector && !Tiny(f) && HanOnly(f) ==> Uses(f, 0.0, 0.50, 0.50)
    ensures !f.hasQueryVector && (Tiny(f) || !HanOnly(f)) ==> Uses(f, 0.0, 0.55, 0.45)
  {
  }

  // ---- the three axes ----

  /** How much of the blend each axis makes up. */
  lemma BlendShares(f: Features)
    ensures f.hasRemoteHistory ==> Blend(f) == 0.90 * Relevance(f) + 0.02 * Freshness(f) + 0.08 * Trust(f)
    ensures !f.hasRemoteHistory && f.hasTemporal ==>
            Blend(f) == 0.45 * Relevance(f) + 0.40 * Freshness(f) + 0.15 * Trust(f)
    ensures !f.hasRemoteHistory && !f.hasTemporal ==>
            Blend(f) == 0.60 * Relevance(f) + 0.30 * Freshness(f) + 0.10 * Trust(f)
  {
    hide Relevance, Freshness, Trust;
  }

  /** A note is never staler than its layer allows: events half, facts 0.65, procedures 0.75, identity 0.9. */
  predicate RestsAt(f: Features, floor: real) {
    floor == (if f.layer == "event_log" then 0.50 else if f.layer == "procedure_schema" then 0.75
              else if f.layer == "identity_schema" then 0.90 else 0.65)
             * if f.hasTemporal then 0.4 else 1.0
  }

  lemma FreshnessExactly(f: Features, floor: real)
    requires RestsAt(f, floor)
    ensures f.decay == 0.0 && f.activation == 0.0 ==> Freshness(f) == floor
    ensures f.decay == 1.0 && f.activation >= 0.0 ==> Freshness(f) == 1.0
    ensures InRange(f) ==> floor <= Freshness(f) <= 1.0
  {
    if InRange(f) { TimesMonotone(0.0, f.decay, 1.0 - floor); }
  }

  /** Confidence scales trust from 0.85 up to 1, and each failure takes 0.15 of it, down to 0.3. */
  lemma TrustExactly(f: Features)
    ensures f.confidence.None? && f.failureCount <= 0 ==> Trust(f) == 1.0
    ensures f.confidence.Some? && f.confidence.value >= 1.0 && f.failureCount <= 0 ==> Trust(f) == 1.0
    ensures f.confidence.Some? && 0.0 < f.confidence.value <= 1.0 && f.failureCount <= 0 ==>
              Trust(f) == 0.85 + 0.15 * f.confidence.value
    ensures f.confidence.Some? && f.confidence.value <= 0.0 && f.failureCount <= 0 ==> Trust(f) == 1.0
    ensures f.confidence.None? && 1 <= f.failureCount <= 4 ==> Trust(f) == 1.0 - 0.15 * f.failureCount as real
    ensures f.confidence.None? && f.failureCount >= 5 ==> Trust(f) == 0.3
  {
  }

  /** Confidence and failures scale trust independently of each other. */
  lemma TrustSplits(f: Features)
    ensures Trust(f) == Trust(f.(failureCount := 0)) * Trust(f.(confidence := None))
  {
    hide ConfidenceFactor, FailureFactor;
    NeutralTrust(f);
    assert Trust(f) == ConfidenceFactor(f) * FailureFactor(f.failureCount);
  }

  lemma NeutralTrust(f: Features)
    ensures Trust(f.(failureCount := 0)) == ConfidenceFactor(f)
            && Trust(f.(confidence := None)) == FailureFactor(f.failureCount)
  {
  }

  // ---- directions ----

  /** Columns behind relevance only move the score through freshness and trust. */
  lemma FresherLifts(f: Features, g: Features)
    requires g == f.(decay := g.decay, activation := g.activation, confidence := g.confidence)
    requires Freshness(f) <= Freshness(g) && Trust(f) <= Trust(g)
    ensures Score(f) <= Score(g)
  {
    SameRelevance(f, g);
    hide Relevance, Freshness, Trust;
    assert Blend(f) <= Blend(g);
    hide Blend;
    TailMonotone(f, Blend(f), Blend(g));
    SameTailHere(f, g, Blend(g));
    hide Final;
  }

  lemma SameTailHere(f: Features, g: Features, s: real)
    requires g == f.(decay := g.decay, activation := g.activation, confidence := g.confidence)
    ensures Final(g, s) == Final(f, s)
  {
    assert Routed(g, s) == Routed(f, s);
    hide Routed;
    assert BeforeLifecycle(g, s) == BeforeLifecycle(f, s);
    hide BeforeLifecycle;
  }

  lemma FreshnessGrows(f: Features, g: Features)
    requires g == f.(decay := g.decay, activation := g.activation) && f.decay <= g.decay && f.activation <= g.activation
    ensures Freshness(f) <= Freshness(g)
  {
    var floor := if f.hasTemporal then LayerFloor(f.layer) * 0.4 else LayerFloor(f.layer);
    WeightedMonotone(1.0 - floor, f.decay, g.decay);
  }

  /** A younger note is never scored lower. */
  lemma DecayMonotone(f: Features, decay: real)
    requires f.decay <= decay
    ensures Score(f) <= Score(f.(decay := decay))
  {
    var g := f.(decay := decay);
    FreshnessGrows(f, g);
    assert Trust(f) == Trust(g);
    hide Freshness, Trust, Score;
    FresherLifts(f, g);
  }

  /** Neither is one recalled more or more recently. */
  lemma ActivationMonotone(f: Features, activation: real)
    requires f.activation <= activation
    ensures Score(f) <= Score(f.(activation := activation))
  {
    var g := f.(activation := activation);
    FreshnessGrows(f, g);
    assert Trust(f) == Trust(g);
    hide Freshness, Trust, Score;
    FresherLifts(f, g);
  }

  /** Nor one held with more of a positive confidence. */
  lemma ConfidenceMonotone(f: Features, confidence: real)
    requires f.confidence.Some? && 0.0 < f.confidence.value <= confidence
    ensures Score(f) <= Score(f.(confidence := Some(confidence)))
  {
    var g := f.(confidence := Some(confidence));
    ConfidenceLiftsTrust(f, g);
    assert Freshness(f) == Freshness(g);
    hide Freshness, Trust, Score;
    FresherLifts(f, g);
  }

  lemma ConfidenceLiftsTrust(f: Features, g: Features)
    requires g == f.(confidence := g.confidence) && f.confidence.Some? && g.confidence.Some?
    requires 0.0 < f.confidence.value <= g.confidence.value
    ensures Trust(f) <= Trust(g)
  {
    ConfidenceGrows(f, g);
    hide FailureFactor, ConfidenceFactor;
    TimesMonotone(ConfidenceFactor(f), ConfidenceFactor(g), FailureFactor(f.failureCount));
  }

  lemma ConfidenceGrows(f: Features, g: Features)
    requires g == f.(confidence := g.confidence) && f.confidence.Some? && g.confidence.Some?
    requires 0.0 < f.confidence.value <= g.confidence.value
    ensures ConfidenceFactor(f) <= ConfidenceFactor(g) && FailureFactor(f.failureCount) >= 0.0
    ensures FailureFactor(g.failureCount) == FailureFactor(f.failureCount)
  {
  }

  // ---- routing ----

  /** What routing multiplies the blend with. */
  predicate RoutesBy(f: Features, factor: real) {
    factor == (if f.isSku then 0.30 else 1.0) * (if f.isBrandAuthority then 0.60 else 1.0)
              * if f.routing.Untyped? then 1.0
                else if f.routing.Typed? then if f.usesBoostCategories then 0.70 else 0.85
                else if f.usesBoostCategories then 1.20 else 1.0
  }

  lemma RoutedExactly(f: Features, s: real, factor: real)
    requires RoutesBy(f, factor)
    ensures Routed(f, s) == s * factor
  {
    RoutedIsFactor(f, s);
    FactorExactly(f);
    hide Routed, RoutedFactor;
  }

  lemma FactorExactly(f: Features)
    ensures RoutesBy(f, RoutedFactor(f))
  {
  }

  /** The two rows differ at most in what routing reads. */
  predicate ReRouted(f: Features, g: Features) {
    g == f.(routing := g.routing, isSku := g.isSku, isBrandAuthority := g.isBrandAuthority)
  }

  lemma ReRoutedBlend(f: Features, g: Features)
    requires ReRouted(f, g)
    ensures Blend(g) == Blend(f)
  {
    SameBlend(f, g);
    hide Blend;
  }

  /** The score behind the routed blend. */
  function Behind(f: Features, x: real): real {
    Episodic(f, Guarded(f, x)) * StalenessFactor(f) * EvolutionFactor(f)
  }

  lemma ReRoutedTail(f: Features, g: Features, x: real)
    requires ReRouted(f, g)
    ensures Behind(g, x) == Behind(f, x) && g.emptyQuery == f.emptyQuery
  {
    assert Guarded(g, x) == Guarded(f, x);
    hide Guarded;
  }

  lemma BehindMonotone(f: Features, a: real, b: real)
    requires a <= b
    ensures Behind(f, a) <= Behind(f, b)
  {
    GuardedMonotone(f, a, b);
    EpisodicMonotone(f, Guarded(f, a), Guarded(f, b));
    TailScales(f, Episodic(f, Guarded(f, a)), Episodic(f, Guarded(f, b)));
    hide Guarded, Episodic, StalenessFactor, EvolutionFactor;
  }

  lemma ScoreIsBehind(f: Features)
    requires !f.emptyQuery
    ensures Score(f) == Behind(f, Routed(f, Blend(f)))
  {
    EvolutionScales(f);
    hide Score, Blend, Routed, Guarded, Episodic, StalenessFactor, EvolutionFactor;
  }

  lemma RoutedLowers(f: Features, g: Features)
    requires InRange(f) && ReRouted(f, g) && RoutedFactor(f) <= RoutedFactor(g)
    ensures Routed(f, Blend(f)) <= Routed(g, Blend(g))
  {
    BlendIsNonNegative(f);
    hide Blend, Routed, RoutedFactor, InRange, ReRouted;
    ReRoutedBlend(f, g);
    var blend := Blend(f);
    RoutedIsFactor(f, blend);
    RoutedIsFactor(g, blend);
    WeightedMonotone(blend, RoutedFactor(f), RoutedFactor(g));
  }

  lemma BlendIsNonNegative(f: Features)
    requires InRange(f)
    ensures Blend(f) >= 0.0
  {
    AxesAreBounded(f);
    hide Blend;
  }

  /** A weaker routing never scores higher. */
  lemma RoutingLowers(f: Features, g: Features)
    requires InRange(f) && ReRouted(f, g) && RoutedFactor(f) <= RoutedFactor(g)
    ensures Score(f) <= Score(g)
  {
    hide Blend, Routed, RoutedFactor, InRange, ReRouted, Behind, Score;
    RoutedLowers(f, g);
    ReRoutedTail(f, g, Routed(g, Blend(g)));
    if f.emptyQuery {
      EmptyQueryScores(f);
      EmptyQueryScores(g);
    } else {
      ScoreIsBehind(f);
      ScoreIsBehind(g);
      BehindMonotone(f, Routed(f, Blend(f)), Routed(g, Blend(g)));
    }
  }

  lemma EpisodicMonotone(f: Features, x: real, y: real)
    requires x <= y
    ensures Episodic(f, x) <= Episodic(f, y)
  {
  }

  lemma TailScales(f: Features, x: real, y: real)
    requires x <= y
    ensures x * StalenessFactor(f) * EvolutionFactor(f) <= y * StalenessFactor(f) * EvolutionFactor(f)
  {
    TimesMonotone(x, y, StalenessFactor(f));
    TimesMonotone(x * StalenessFactor(f), y * StalenessFactor(f), EvolutionFactor(f));
  }

  /** Where categories are boosted, a boosted note scores at least an untyped one, and that at least a typed one. */
  lemma RoutingOrder(f: Features)
    requires InRange(f)
    ensures Score(f.(routing := Typed)) <= Score(f.(routing := Untyped))
    ensures f.usesBoostCategories ==> Score(f.(routing := Untyped)) <= Score(f.(routing := Boosted))
  {
    hide Score;
    FactorsOrder(f);
    hide RoutedFactor;
    RoutingLowers(f.(routing := Typed), f.(routing := Untyped));
    if f.usesBoostCategories { RoutingLowers(f.(routing := Untyped), f.(routing := Boosted)); }
  }

  lemma FactorsOrder(f: Features)
    ensures RoutedFactor(f.(routing := Typed)) <= RoutedFactor(f.(routing := Untyped))
    ensures f.usesBoostCategories ==> RoutedFactor(f.(routing := Untyped)) <= RoutedFactor(f.(routing := Boosted))
    ensures RoutedFactor(f.(isSku := true)) <= RoutedFactor(f.(isSku := false))
    ensures RoutedFactor(f.(isBrandAuthority := true)) <= RoutedFactor(f.(isBrandAuthority := false))
  {
  }

  /** A catalogue entry never scores higher for it. */
  lemma CatalogueLowers(f: Features)
    requires InRange(f)
    ensures Score(f.(isSku := true)) <= Score(f.(isSku := false))
  {
    hide Score;
    FactorsOrder(f);
    hide RoutedFactor;
    RoutingLowers(f.(isSku := true), f.(isSku := false));
  }

  /** Neither does a brand's own statement. */
  lemma BrandLowers(f: Features)
    requires InRange(f)
    ensures Score(f.(isBrandAuthority := true)) <= Score(f.(isBrandAuthority := false))
  {
    hide Score;
    FactorsOrder(f);
    hide RoutedFactor;
    RoutingLowers(f.(isBrandAuthority := true), f.(isBrandAuthority := false));
  }

  // ---- staleness and lifecycle ----

  /** Exactly what a stale or corrected note keeps of its score. */
  predicate Keeps(f: Features, share: real) {
    share == if f.isOutdated && f.hasHistory then 0.85
             else if f.isOutdated then 0.10
             else if f.isCorrected then 0.15
             else 1.0
  }

  /** Exactly what its lifecycle state leaves it. */
  predicate Leaves(f: Features, share: real) {
    share == match f.evolutionState
             case Some(state) =>
               if state == "superseded" then 0.05 else if state == "deprecated" then 0.02
               else if state == "contradicted" then 0.03 else if f.hasSupersededBy then 0.10 else 1.0
             case None => if f.hasSupersededBy then 0.10 else 1.0
  }

  /** The fresh, active counterpart of a row. */
  function Unmarked(f: Features): Features {
    f.(isOutdated := false, isCorrected := false, evolutionState := None, hasSupersededBy := false)
  }

  /**
   * For a query with words, a row keeps exactly its staleness share and its lifecycle share of its counterpart's
   * score.
   */
  lemma MarksScale(f: Features, kept: real, left: real)
    requires !f.emptyQuery && Keeps(f, kept) && Leaves(f, left)
    ensures Score(f) == Score(Unmarked(f)) * kept * left
  {
    MarksAre(f);
    hide Score, Blend, Keeps, Leaves, BeforeLifecycle, EvolutionFactor, StalenessFactor;
    UnmarkedScore(f);
    EvolutionScales(f);
    BeforeMarks(f, Blend(f));
    hide Unmarked;
  }

  lemma UnmarkedScore(f: Features)
    requires !f.emptyQuery
    ensures Score(Unmarked(f)) == BeforeLifecycle(Unmarked(f), Blend(f))
  {
    var g := Unmarked(f);
    assert EvolutionFactor(g) == 1.0;
    hide Score, Blend, BeforeLifecycle, EvolutionFactor;
    SameBlend(f, g);
    EvolutionScales(g);
  }

  lemma MarksAre(f: Features)
    ensures forall kept :: Keeps(f, kept) ==> StalenessFactor(f) == kept
    ensures forall left :: Leaves(f, left) ==> EvolutionFactor(f) == left
    ensures EvolutionFactor(Unmarked(f)) == 1.0
  {
  }

  lemma BeforeMarks(f: Features, blend: real)
    ensures BeforeLifecycle(f, blend) == BeforeLifecycle(Unmarked(f), blend) * StalenessFactor(f)
  {
    var g := Unmarked(f);
    assert Routed(g, blend) == Routed(f, blend);
    hide Routed;
    assert Guarded(g, Routed(f, blend)) == Guarded(f, Routed(f, blend));
    hide Guarded;
    assert StalenessFactor(g) == 1.0;
    hide StalenessFactor;
  }
}
