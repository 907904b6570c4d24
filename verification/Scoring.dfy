/** `score_result_inner`: relevance, freshness and trust, then floors, guards and demotions. */
module Scoring {
  import opened Common

  const FACTOR_SUPERSEDED: real := 0.05
  const FACTOR_DEPRECATED: real := 0.02
  const FACTOR_CONTRADICTED: real := 0.03
  const FACTOR_LEGACY_SUPERSEDED: real := 0.10
  const FACTOR_CORRECTED: real := 0.15
  const OUTDATED_PENALTY_DEFAULT: real := 0.10
  const OUTDATED_PENALTY_HISTORY: real := 0.85

  /** Whether the category is boosted, typed, or neither. */
  datatype Routing = Boosted | Typed | Untyped

  /**
   * What the text matching found in the query, the content and the metadata of one candidate, together with the
   * stored columns. `decay` and `activation` stand for the exponential and logarithmic clock terms.
   */
  datatype Features = Features(
    emptyQuery: bool,
    exact: bool,
    queryBytes: nat,
    queryChars: nat,
    token: real,
    tokenHits: nat,
    tokenTotal: nat,
    positionBonus: real,
    hasQueryVector: bool,
    vector: real,
    bm25: Option<real>,
    cjkCount: nat,
    hasLatin: bool,
    englishTokens: nat,
    hasTechTerms: bool,
    bigramsMatch: bool,
    keywordBoosts: seq<real>,
    vagueMatch: bool,
    identifierRatio: Option<real>,
    primaryTask: bool,
    secondaryTask: bool,
    buildSuccess: bool,
    bigramRatio: Option<real>,
    mixedMatch: bool,
    layer: string,
    hasTemporal: bool,
    hasHistory: bool,
    hasRemoteHistory: bool,
    decay: real,
    activation: real,
    confidence: Option<real>,
    failureCount: int,
    isSku: bool,
    isBrandAuthority: bool,
    usesBoostCategories: bool,
    routing: Routing,
    isTaggedFact: bool,
    isOutdated: bool,
    isCorrected: bool,
    evolutionState: Option<string>,
    hasSupersededBy: bool)

  // ---- relevance ----

  datatype Weights = Weights(vector: real, bm25: real, token: real)

  function Bm25Component(bm25: Option<real>): real {
    if bm25.None? then 0.0 else var raw := Max(-bm25.value, 0.0); raw / (1.0 + raw)
  }

  predicate IsVeryShort(f: Features) { f.queryBytes < 4 }
  predicate IsShortCjk(f: Features) { 2 <= f.cjkCount <= 4 && f.tokenTotal <= 5 }
  predicate IsCjkOnly(f: Features) { f.cjkCount > 0 && !f.hasLatin }
  predicate IsLongEnglish(f: Features) { f.englishTokens > 3 }

  /** The weight table: which query gets which mix. */
  function WeightsFor(f: Features): Weights {
    if f.hasQueryVector then
      if f.bm25.Some? then
        if IsVeryShort(f) then if f.hasTechTerms then Weights(0.40, 0.40, 0.20) else Weights(0.60, 0.20, 0.20)
        else if IsLongEnglish(f) then if f.hasTechTerms then Weights(0.45, 0.35, 0.20) else Weights(0.60, 0.20, 0.20)
        else if IsShortCjk(f) then
          if f.hasTechTerms then Weights(0.40, 0.30, 0.30)
          else if IsCjkOnly(f) then Weights(0.45, 0.25, 0.30)
          else Weights(0.50, 0.20, 0.30)
        else if IsCjkOnly(f) then Weights(0.35, 0.35, 0.30)
        else Weights(0.45, 0.35, 0.20)
      else if IsVeryShort(f) then Weights(0.65, 0.0, 0.35)
      else if IsCjkOnly(f) then Weights(0.40, 0.0, 0.60)
      else Weights(0.55, 0.0, 0.45)
    else if IsVeryShort(f) then Weights(0.0, 0.55, 0.45)
    else if IsCjkOnly(f) then Weights(0.0, 0.50, 0.50)
    else Weights(0.0, 0.55, 0.45)
  }

  function Mixed(f: Features): real {
    var w := WeightsFor(f);
    w.vector * f.vector + w.bm25 * Bm25Component(f.bm25) + w.token * f.token
  }

  /** The exact floor, or the partial floor and its bonus. */
  function Floored(f: Features, s: real): real {
    if f.exact then Max(s, if f.queryBytes > 12 then 0.96 else 0.93)
    else if f.tokenHits >= 2 && f.token >= 0.50 && f.bigramsMatch
        then Max(s, 0.75 + 0.08 * f.token + 0.08 * f.vector) + 0.03
    else s
  }

  function Largest(boosts: seq<real>): real {
    if boosts == [] then 0.0 else Max(Largest(boosts[..|boosts| - 1]), boosts[|boosts| - 1])
  }

  function Boosts(f: Features, s: real): real {
    var s1 := s + Largest(f.keywordBoosts) + (if f.vagueMatch then 0.04 else 0.0) + 1.2 * f.positionBonus;
    var s2 := if f.identifierRatio.Some? then Max(s1, 0.94 + 0.04 * f.identifierRatio.value) else s1;
    var s3 := if f.primaryTask then Max(s2, if f.buildSuccess then 0.99 else 0.975) + 0.02
              else if f.secondaryTask then s2 + 0.01 else s2;
    var s4 := if f.bigramRatio.None? then s3
              else s3 + (if f.bigramRatio.value >= 0.5 then 0.06 else 0.04) * f.bigramRatio.value;
    if f.mixedMatch then s4 + 0.03 else s4
  }

  function Relevance(f: Features): real {
    Clamp(Boosts(f, Floored(f, Mixed(f))), 0.0, 1.0)
  }

  // ---- freshness and trust ----

  function LayerFloor(layer: string): real {
    if layer == "event_log" then 0.50
    else if layer == "procedure_schema" then 0.75
    else if layer == "identity_schema" then 0.90
    else 0.65
  }

  function Freshness(f: Features): real {
    var floor := if f.hasTemporal then LayerFloor(f.layer) * 0.4 else LayerFloor(f.layer);
    Min(floor + (1.0 - floor) * f.decay + f.activation, 1.0)
  }

  function ConfidenceFactor(f: Features): real {
    if f.confidence.Some? && f.confidence.value > 0.0 then 0.85 + 0.15 * Min(f.confidence.value, 1.0) else 1.0
  }

  function FailureFactor(failures: int): real {
    if failures >= 1 then Max(1.0 - failures as real * 0.15, 0.3) else 1.0
  }

  function Trust(f: Features): real {
    ConfidenceFactor(f) * FailureFactor(f.failureCount)
  }

  function ThreeAxis(f: Features, relevance: real, trust: real): real {
    if f.hasRemoteHistory then 0.90 * relevance + 0.02 * Freshness(f) + 0.08 * trust
    else if f.hasTemporal then 0.45 * relevance + 0.40 * Freshness(f) + 0.15 * trust
    else 0.60 * relevance + 0.30 * Freshness(f) + 0.10 * trust
  }

  // ---- routing, guards, demotions ----

  function RoutingFactor(f: Features): real {
    if f.usesBoostCategories then (match f.routing case Boosted => 1.20 case Typed => 0.70 case Untyped => 1.0)
    else if f.routing.Typed? then 0.85 else 1.0
  }

  function Routed(f: Features, s: real): real {
    s * (if f.isSku then 0.30 else 1.0) * (if f.isBrandAuthority then 0.60 else 1.0) * RoutingFactor(f)
  }

  function Guarded(f: Features, s: real): real {
    var s1 := if f.primaryTask then Max(s, 0.9995) else if f.secondaryTask then Min(s, 0.9895) else s;
    var s2 := if f.exact && f.queryChars >= 24 then Max(s1, 0.985) else s1;
    var s3 := if f.exact && f.layer == "verified_fact" && f.isTaggedFact then Max(s2, 0.9996) else s2;
    Clamp(s3, 0.0, 1.0)
  }

  function StalenessFactor(f: Features): real {
    if f.isOutdated then if f.hasHistory then OUTDATED_PENALTY_HISTORY else OUTDATED_PENALTY_DEFAULT
    else if f.isCorrected then FACTOR_CORRECTED
    else 1.0
  }

  /** `evolution_state_factor`: unknown states count as active. */
  function EvolutionFactor(f: Features): real {
    if f.evolutionState == Some("superseded") then FACTOR_SUPERSEDED
    else if f.evolutionState == Some("deprecated") then FACTOR_DEPRECATED
    else if f.evolutionState == Some("contradicted") then FACTOR_CONTRADICTED
    else if f.hasSupersededBy then FACTOR_LEGACY_SUPERSEDED
    else 1.0
  }

  function Episodic(f: Features, s: real): real {
    if f.hasHistory && f.layer == "event_log" then Min(s * 1.12, 1.0) else s
  }

  function Blend(f: Features): real {
    ThreeAxis(f, Relevance(f), Trust(f))
  }

  /** Everything between the blend and the lifecycle demotion. */
  function BeforeLifecycle(f: Features, blend: real): real {
    Episodic(f, Guarded(f, Routed(f, blend))) * StalenessFactor(f)
  }

  function Final(f: Features, blend: real): real {
    Clamp(BeforeLifecycle(f, blend) * EvolutionFactor(f), 0.0, 1.0)
  }

  function Score(f: Features): real {
    if f.emptyQuery then 1.0 else Final(f, Blend(f))
  }

  // ---- the imperative scorer ----

  /** One keyword table after another, keeping the best boost. */
  method BestBoost(boosts: seq<real>) returns (best: real)
    ensures best == Largest(boosts)
    ensures best >= 0.0 && forall b <- boosts :: b <= best
    ensures best == 0.0 || best in boosts
  {
    best := 0.0;
    for i := 0 to |boosts|
      invariant best == Largest(boosts[..i])
    {
      assert boosts[..i + 1][..i] == boosts[..i];
      best := Max(best, boosts[i]);
    }
    assert boosts[..|boosts|] == boosts;
    LargestIsMaximum(boosts);
  }

  /** The best boost bounds every table's boost and is one of them, or zero. */
  lemma {:induction false} LargestIsMaximum(boosts: seq<real>)
    ensures Largest(boosts) >= 0.0 && forall b <- boosts :: b <= Largest(boosts)
    ensures Largest(boosts) == 0.0 || Largest(boosts) in boosts
  {
    if boosts != [] {
      var front := boosts[..|boosts| - 1];
      LargestIsMaximum(front);
      assert boosts == front + [boosts[|boosts| - 1]];
    }
  }

  /** The relevance half: one score variable, raised step by step. */
  method ScoreRelevance(f: Features) returns (relevance: real)
    ensures relevance == Relevance(f)
    ensures InRange(f) && BoostsInRange(f) ==> Mixed(f) <= relevance <= 1.0
  {
    RelevanceIsLifted(f);
    var w := WeightsFor(f);
    var score := w.vector * f.vector + w.bm25 * Bm25Component(f.bm25) + w.token * f.token;
    assert score == Mixed(f);
    hide WeightsFor, Bm25Component, Mixed, Boosts;
    if f.exact {
      score := Max(score, if f.queryBytes > 12 then 0.96 else 0.93);
    } else if f.tokenHits >= 2 && f.token >= 0.50 && f.bigramsMatch {
      score := Max(score, 0.75 + 0.08 * f.token + 0.08 * f.vector);
      score := score + 0.03;
    }
    assert score == Floored(f, Mixed(f));
    hide Floored;
    score := AfterBoosts(f, score);
    relevance := Clamp(score, 0.0, 1.0);
  }

  /** Keyword, identifier, task and script coherence boosts. */
  method AfterBoosts(f: Features, start: real) returns (score: real)
    ensures score == Boosts(f, start)
  {
    hide Largest;
    score := start;
    var toolBoost := BestBoost(f.keywordBoosts);
    score := score + toolBoost;
    score := score + if f.vagueMatch then 0.04 else 0.0;
    score := score + 1.2 * f.positionBonus;
    if f.identifierRatio.Some? {
      score := Max(score, 0.94 + 0.04 * f.identifierRatio.value);
    }
    if f.primaryTask {
      score := Max(score, if f.buildSuccess then 0.99 else 0.975);
      score := score + 0.02;
    } else if f.secondaryTask {
      score := score + 0.01;
    }
    if f.bigramRatio.Some? {
      score := score + (if f.bigramRatio.value >= 0.5 then 0.06 else 0.04) * f.bigramRatio.value;
    }
    if f.mixedMatch {
      score := score + 0.03;
    }
  }

  /** `score_result_inner`. */
  method ScoreResult(f: Features) returns (score: real)
    ensures score == Score(f)
    ensures 0.0 <= score <= 1.0
  {
    hide Relevance, ConfidenceFactor, FailureFactor, Freshness, Guarded, Routed;
    if f.emptyQuery {
      return 1.0;
    }
    var relevance := ScoreRelevance(f);
    var trust := ConfidenceFactor(f) * FailureFactor(f.failureCount);
    assert trust == Trust(f);
    hide Trust;
    score := ThreeAxis(f, relevance, trust);
    hide ThreeAxis;
    score := AfterRouting(f, score);
    score := AfterGuards(f, score);
    if f.hasHistory && f.layer == "event_log" {
      score := Min(score * 1.12, 1.0);
    }
    var outdated := StalenessFactor(f);
    hide StalenessFactor;
    if outdated != 1.0 {
      score := score * outdated;
    }
    assert score == BeforeLifecycle(f, Blend(f));
    hide BeforeLifecycle, Episodic;
    var evolution := EvolutionFactor(f);
    hide EvolutionFactor;
    if evolution != 1.0 {
      score := score * evolution;
    }
    score := Clamp(score, 0.0, 1.0);
  }

  /** The rank guards, behind every routing demotion and in front of every lifecycle one. */
  method AfterGuards(f: Features, start: real) returns (score: real)
    ensures score == Guarded(f, start)
  {
    score := start;
    if f.primaryTask {
      score := Max(score, 0.9995);
    } else if f.secondaryTask {
      score := Min(score, 0.9895);
    }
    if f.exact && f.queryChars >= 24 {
      score := Max(score, 0.985);
    }
    if f.exact && f.layer == "verified_fact" && f.isTaggedFact {
      score := Max(score, 0.9996);
    }
    score := Clamp(score, 0.0, 1.0);
  }

  /** SKU, brand and category routing, each skipped when its factor is one. */
  method AfterRouting(f: Features, start: real) returns (score: real)
    ensures score == Routed(f, start)
  {
    score := start;
    if f.isSku {
      score := score * 0.30;
    }
    if f.isBrandAuthority {
      score := score * 0.60;
    }
    if f.usesBoostCategories {
      if f.routing.Boosted? {
        score := score * 1.20;
      } else if f.routing.Typed? {
        score := score * 0.70;
      }
    } else if f.routing.Typed? {
      score := score * 0.85;
    }
  }

  // ---- bounds and monotonicity ----

  /** The ranges the text matching and the clocks guarantee. */
  predicate InRange(f: Features) {
    && 0.0 <= f.token <= 1.0 && 0.0 <= f.vector <= 1.0
    && 0.0 <= f.decay <= 1.0 && f.activation >= 0.0
  }

  /** Bonuses and ratios as the text matching computes them. */
  predicate BoostsInRange(f: Features) {
    && f.positionBonus >= 0.0
    && (f.identifierRatio.Some? ==> 0.0 <= f.identifierRatio.value <= 1.0)
    && (f.bigramRatio.Some? ==> 0.0 <= f.bigramRatio.value <= 1.0)
  }

  /** No floor and no boost applies. */
  predicate Unboosted(f: Features) {
    && !f.exact && !(f.tokenHits >= 2 && f.token >= 0.50 && f.bigramsMatch)
    && f.keywordBoosts == [] && !f.vagueMatch && f.positionBonus == 0.0
    && f.identifierRatio.None? && !f.primaryTask && !f.secondaryTask
    && f.bigramRatio.GetOr(0.0) == 0.0 && !f.mixedMatch
  }

  /**
   * Relevance is never below the weighted mix nor below the floor of any rule that fires, and is exactly the mix
   * when none does: no later step undoes an earlier floor.
   */
  lemma RelevanceFloors(f: Features)
    requires InRange(f) && BoostsInRange(f)
    ensures Mixed(f) <= Relevance(f) <= 1.0
    ensures f.exact ==> Relevance(f) >= if f.queryBytes > 12 then 0.96 else 0.93
    ensures !f.exact && f.tokenHits >= 2 && f.token >= 0.50 && f.bigramsMatch ==> Relevance(f) >= 0.82
    ensures f.identifierRatio.Some? ==> Relevance(f) >= 0.94 + 0.04 * f.identifierRatio.value
    ensures f.primaryTask ==> Relevance(f) >= 0.995
    ensures Unboosted(f) ==> Relevance(f) == Mixed(f)
  {
    MixedIsAverage(f);
    LargestIsMaximum(f.keywordBoosts);
    hide Mixed, Largest;
    var floored := Floored(f, Mixed(f));
    assert Mixed(f) <= floored;
    hide Floored;
    assert floored <= Boosts(f, floored);
  }

  lemma RelevanceIsLifted(f: Features)
    ensures InRange(f) && BoostsInRange(f) ==> Mixed(f) <= Relevance(f) <= 1.0
  {
    if InRange(f) && BoostsInRange(f) {
      RelevanceFloors(f);
    }
  }

  /** Every mix is a weighted average. */
  lemma WeightsAreConvex(f: Features)
    ensures var w := WeightsFor(f);
            w.vector >= 0.0 && w.bm25 >= 0.0 && w.token >= 0.0 && w.vector + w.bm25 + w.token == 1.0
  {
  }

  lemma MixedIsAverage(f: Features)
    requires InRange(f)
    ensures 0.0 <= Bm25Component(f.bm25) < 1.0
    ensures 0.0 <= Mixed(f) <= 1.0
  {
    if f.bm25.Some? { RatioMonotone(0.0, Max(-f.bm25.value, 0.0)); }
  }

  lemma RatioMonotone(a: real, b: real)
    requires 0.0 <= a <= b
    ensures 0.0 <= a / (1.0 + a) <= b / (1.0 + b) < 1.0
  {
    var p, q := a / (1.0 + a), b / (1.0 + b);
    assert p * (1.0 + a) == a && q * (1.0 + b) == b;
    assert 1.0 - p == 1.0 / (1.0 + a) && 1.0 - q == 1.0 / (1.0 + b);
    Reciprocal(1.0 + a, 1.0 + b);
  }

  lemma Reciprocal(x: real, y: real)
    requires 0.0 < x <= y
    ensures 0.0 < 1.0 / y <= 1.0 / x
  {
    var r, s := 1.0 / x, 1.0 / y;
    assert r * x == 1.0 && s * y == 1.0;
    assert s > 0.0;
    TimesMonotone(x, y, s);
    Cancel(s, r, x);
  }

  lemma Cancel(a: real, b: real, k: real)
    requires k > 0.0 && a * k <= b * k
    ensures a <= b
  {
    if a > b { TimesStrict(b, a, k); }
  }

  lemma TimesStrict(a: real, b: real, k: real)
    requires a < b && k > 0.0
    ensures a * k < b * k
  {
  }

  /** Relevance, freshness and trust each stay in the unit interval, so the blend does too. */
  lemma AxesAreBounded(f: Features)
    requires InRange(f)
    ensures 0.0 <= Relevance(f) <= 1.0 && 0.0 <= Freshness(f) <= 1.0 && 0.255 <= Trust(f) <= 1.0
    ensures 0.0 <= Blend(f) <= 1.0
  {
    hide Boosts, Floored, Mixed;
    var c, k := ConfidenceFactor(f), FailureFactor(f.failureCount);
    assert 0.85 <= c <= 1.0 && 0.3 <= k <= 1.0;
    Products(0.85, 0.3, c, k);
    Products(c, k, 1.0, 1.0);
  }

  lemma Products(a: real, b: real, c: real, d: real)
    requires 0.0 <= a <= c && 0.0 <= b <= d
    ensures a * b <= c * d
  {
    TimesMonotone(a, c, b);
    TimesMonotone(b, d, c);
  }

  lemma TimesMonotone(a: real, b: real, k: real)
    requires a <= b && k >= 0.0
    ensures a * k <= b * k
  {
  }

  lemma BoostsMonotone(f: Features, g: Features, a: real, b: real)
    requires a <= b && g == f.(vector := g.vector, bm25 := g.bm25)
    ensures Boosts(f, a) <= Boosts(g, b)
  {
  }

  lemma RoutedMonotone(f: Features, a: real, b: real)
    requires a <= b
    ensures Routed(f, a) <= Routed(f, b)
  {
  }

  lemma GuardedMonotone(f: Features, a: real, b: real)
    requires a <= b
    ensures Guarded(f, a) <= Guarded(f, b)
  {
  }

  /** Everything behind the three-axis blend preserves order. */
  lemma TailMonotone(f: Features, a: real, b: real)
    requires a <= b
    ensures Final(f, a) <= Final(f, b)
  {
    RoutedMonotone(f, a, b);
    GuardedMonotone(f, Routed(f, a), Routed(f, b));
    hide Routed, Guarded;
    var x, y := Episodic(f, Guarded(f, Routed(f, a))), Episodic(f, Guarded(f, Routed(f, b)));
    assert x <= y;
    hide Episodic;
    TimesMonotone(x, y, StalenessFactor(f));
    TimesMonotone(BeforeLifecycle(f, a), BeforeLifecycle(f, b), EvolutionFactor(f));
    hide BeforeLifecycle, EvolutionFactor;
  }

  /** More similar is never scored lower. */
  lemma VectorMonotone(f: Features, vector: real)
    requires f.vector <= vector
    ensures Score(f) <= Score(f.(vector := vector))
  {
    var g := f.(vector := vector);
    assert WeightsFor(f) == WeightsFor(g);
    MixedLifts(f, g);
    hide Mixed, Score;
    HigherMixNeverLowers(f, g);
  }

  lemma FloorsMonotone(f: Features, g: Features, a: real, b: real)
    requires a <= b && g == f.(vector := g.vector, bm25 := g.bm25) && f.vector <= g.vector
    ensures Floored(f, a) <= Floored(g, b)
  {
  }

  /** With the axes otherwise equal, higher relevance is never scored lower. */
  lemma RelevanceLifts(f: Features, g: Features)
    requires g == f.(vector := g.vector, bm25 := g.bm25) && Relevance(f) <= Relevance(g)
    ensures Score(f) <= Score(g)
  {
    hide Relevance, Final, Blend;
    BlendLifts(f, g);
    TailMonotone(f, Blend(f), Blend(g));
    SameTail(f, g, Blend(g));
  }

  lemma BlendLifts(f: Features, g: Features)
    requires g == f.(vector := g.vector, bm25 := g.bm25) && Relevance(f) <= Relevance(g)
    ensures Blend(f) <= Blend(g)
  {
    hide Relevance;
    assert Trust(f) == Trust(g) && Freshness(f) == Freshness(g);
    hide Trust, Freshness;
  }

  /** The steps behind the blend look at neither the vector nor the text rank. */
  lemma SameTail(f: Features, g: Features, s: real)
    requires g == f.(vector := g.vector, bm25 := g.bm25)
    ensures Final(g, s) == Final(f, s)
  {
    assert Routed(g, s) == Routed(f, s);
    hide Routed;
    assert BeforeLifecycle(g, s) == BeforeLifecycle(f, s);
    hide BeforeLifecycle;
  }

  /**
   * A stronger text rank, by a smaller raw value or by having one at all, is never scored lower, unless the row gains
   * its rank under a query with a vector; `RankLowersExactly` says when it then is, `HalfMatchDrops` that it happens.
   */
  lemma Bm25Monotone(f: Features, bm25: real)
    requires f.bm25.Some? ==> bm25 <= f.bm25.value
    requires f.bm25.Some? || f.emptyQuery || !f.hasQueryVector
    ensures Score(f) <= Score(f.(bm25 := Some(bm25)))
  {
    var g := f.(bm25 := Some(bm25));
    RankComponentLifts(f.bm25, bm25);
    hide Score, Bm25Component;
    if f.emptyQuery {
      EmptyQueryScores(f);
      EmptyQueryScores(g);
    } else {
      assert WeightsFor(f) == WeightsFor(g);
      MixedLifts(f, g);
      hide Mixed;
      HigherMixNeverLowers(f, g);
    }
  }

  lemma RankComponentLifts(before: Option<real>, bm25: real)
    requires before.Some? ==> bm25 <= before.value
    ensures Bm25Component(before) <= Bm25Component(Some(bm25))
  {
    RatioMonotone(if before.Some? then Max(-before.value, 0.0) else 0.0, Max(-bm25, 0.0));
  }

  lemma EmptyQueryScores(f: Features)
    requires f.emptyQuery
    ensures Score(f) == 1.0
  {
  }

  /** Across any change of table row, a mix that does not fall never lowers the score. */
  lemma HigherMixNeverLowers(f: Features, g: Features)
    requires g == f.(vector := g.vector, bm25 := g.bm25) && f.vector <= g.vector && Mixed(f) <= Mixed(g)
    ensures Score(f) <= Score(g)
  {
    hide Floored, Boosts, Mixed, Final, Blend;
    FloorsMonotone(f, g, Mixed(f), Mixed(g));
    BoostsMonotone(f, g, Floored(f, Mixed(f)), Floored(g, Mixed(g)));
    RelevanceLifts(f, g);
  }

  // ---- when a change of rank lowers the score ----

  predicate Partial(f: Features) {
    !f.exact && f.tokenHits >= 2 && f.token >= 0.50 && f.bigramsMatch
  }

  /** The bonuses of the query's words in front of the later floors, less the one for a partial match. */
  function WordBonus(f: Features): real {
    Largest(f.keywordBoosts) + (if f.vagueMatch then 0.04 else 0.0) + 1.2 * f.positionBonus
  }

  /** What is added in front of the floors of identifiers and tasks. */
  function EarlyBonus(f: Features): real {
    (if Partial(f) then 0.03 else 0.0) + WordBonus(f)
  }

  /** What is added behind them. */
  function LateBonus(f: Features): real {
    (if f.primaryTask then 0.02 else if f.secondaryTask then 0.01 else 0.0)
    + (if f.bigramRatio.None? then 0.0 else (if f.bigramRatio.value >= 0.5 then 0.06 else 0.04) * f.bigramRatio.value)
    + (if f.mixedMatch then 0.03 else 0.0)
  }

  function TextFloor(f: Features): real {
    if f.exact then if f.queryBytes > 12 then 0.96 else 0.93
    else if Partial(f) then 0.75 + 0.08 * f.token + 0.08 * f.vector
    else 0.0
  }

  function LaterFloor(f: Features): real {
    Max(if f.identifierRatio.Some? then 0.94 + 0.04 * f.identifierRatio.value else 0.0,
        if f.primaryTask then if f.buildSuccess then 0.99 else 0.975 else 0.0)
  }

  /** Relevance on the floors alone, whatever the mix. */
  function FloorLevel(f: Features): real {
    Max(TextFloor(f) + EarlyBonus(f), LaterFloor(f)) + LateBonus(f)
  }

  /** What the boosts add to a mix that no floor lifts. */
  function Lift(f: Features): real {
    EarlyBonus(f) + LateBonus(f)
  }

  /** A fall of the mix is not hidden by a floor, nor by the cap on relevance. */
  predicate MixShows(f: Features, before: real, after: real) {
    FloorLevel(f) < 1.0 && FloorLevel(f) < before + Lift(f) && after + Lift(f) < 1.0
  }

  function GuardFloor(f: Features): real {
    Max(if f.primaryTask then 0.9995 else 0.0,
        Max(if f.exact && f.queryChars >= 24 then 0.985 else 0.0,
            if f.exact && f.layer == "verified_fact" && f.isTaggedFact then 0.9996 else 0.0))
  }

  /** History queries multiply episodes by 1.12 below 1, so for them the cap is reached at 25/28. */
  function GuardCap(f: Features): real {
    if f.hasHistory && f.layer == "event_log" then 25.0 / 28.0
    else if f.secondaryTask && !f.primaryTask then 0.9895
    else 1.0
  }

  /** A fall of the routed blend is not hidden by a rank guard. */
  predicate BlendShows(f: Features, before: real, after: real) {
    GuardFloor(f) < GuardCap(f) && GuardFloor(f) < before && after < GuardCap(f)
  }

  lemma FloorsAreWindow(f: Features, m: real)
    requires InRange(f) && BoostsInRange(f) && m >= 0.0
    ensures Boosts(f, Floored(f, m)) == Max(m + Lift(f), FloorLevel(f))
  {
    LargestIsMaximum(f.keywordBoosts);
    FlooredIs(f, m);
    BoostsAre(f, Floored(f, m));
    hide Largest, Floored, Boosts, TextFloor, LaterFloor, LateBonus, Partial;
  }

  lemma FlooredIs(f: Features, m: real)
    requires m >= 0.0
    ensures Floored(f, m) == Max(m, TextFloor(f)) + if Partial(f) then 0.03 else 0.0
  {
  }

  lemma BoostsAre(f: Features, s: real)
    requires s >= 0.0 && f.positionBonus >= 0.0 && Largest(f.keywordBoosts) >= 0.0
    ensures Boosts(f, s) == Max(s + WordBonus(f), LaterFloor(f)) + LateBonus(f)
  {
    hide Largest;
  }

  lemma LevelsAreNonNegative(f: Features)
    requires InRange(f) && BoostsInRange(f)
    ensures FloorLevel(f) >= 0.0 && Lift(f) >= 0.0
  {
    LargestIsMaximum(f.keywordBoosts);
    hide Largest;
  }

  /** Relevance falls exactly when the mix falls in between the floors and the cap. */
  lemma RelevanceFallsExactly(f: Features, g: Features)
    requires InRange(f) && BoostsInRange(f) && g == f.(bm25 := g.bm25)
    ensures Relevance(g) < Relevance(f) <==> Mixed(g) < Mixed(f) && MixShows(f, Mixed(f), Mixed(g))
  {
    MixedIsAverage(f);
    MixedIsAverage(g);
    hide Mixed;
    FloorsAreWindow(f, Mixed(f));
    FloorsAreWindow(f, Mixed(g));
    BoostsIgnoreRank(f, g, Mixed(g));
    LevelsAreNonNegative(f);
    hide Boosts, Floored, Lift, FloorLevel;
  }

  lemma BoostsIgnoreRank(f: Features, g: Features, m: real)
    requires g == f.(bm25 := g.bm25)
    ensures Boosts(g, Floored(g, m)) == Boosts(f, Floored(f, m))
  {
    hide Largest;
  }

  /** Rank guards and the episodic cap let a fall through exactly between the highest floor and the lowest cap. */
  lemma GuardsShowExactly(f: Features, before: real, after: real)
    requires before >= 0.0 && after >= 0.0
    ensures Episodic(f, Guarded(f, after)) < Episodic(f, Guarded(f, before)) <==>
            after < before && BlendShows(f, before, after)
  {
    GuardedIs(f, before);
    GuardedIs(f, after);
    hide Guarded, GuardFloor;
  }

  lemma GuardedIs(f: Features, s: real)
    requires s >= 0.0
    ensures Guarded(f, s) == Max(GuardFloor(f), Min(s, if f.secondaryTask && !f.primaryTask then 0.9895 else 1.0))
    ensures GuardFloor(f) in {0.0, 0.985, 0.9995, 0.9996}
  {
  }

  function RoutedFactor(f: Features): real {
    (if f.isSku then 0.30 else 1.0) * (if f.isBrandAuthority then 0.60 else 1.0) * RoutingFactor(f)
  }

  lemma RoutedIsFactor(f: Features, s: real)
    ensures Routed(f, s) == s * RoutedFactor(f)
    ensures RoutedFactor(f) > 0.0 && (!(f.usesBoostCategories && f.routing.Boosted?) ==> RoutedFactor(f) <= 1.0)
  {
  }

  /** Behind the guards nothing hides a fall. */
  lemma ScoreFallsWithGuards(f: Features, g: Features)
    requires InRange(f) && !f.emptyQuery && g == f.(bm25 := g.bm25)
    ensures Score(g) < Score(f) <==>
            Episodic(f, Guarded(f, Routed(f, Blend(g)))) < Episodic(f, Guarded(f, Routed(f, Blend(f))))
  {
    hide Score, Blend, Episodic, Guarded, Routed, StalenessFactor, EvolutionFactor, InRange;
    EvolutionScales(f);
    EvolutionScales(g);
    SameGuards(f, g, Blend(g));
    PositiveFactors(f, g);
    var stale, evolution := StalenessFactor(f), EvolutionFactor(f);
    hide BeforeLifecycle;
    var x, y := Episodic(f, Guarded(f, Routed(f, Blend(g)))), Episodic(f, Guarded(f, Routed(f, Blend(f))));
    ScaledFall(x, y, stale);
    ScaledFall(x * stale, y * stale, evolution);
  }

  lemma PositiveFactors(f: Features, g: Features)
    requires g == f.(bm25 := g.bm25)
    ensures StalenessFactor(f) > 0.0 && EvolutionFactor(f) > 0.0 && EvolutionFactor(g) == EvolutionFactor(f)
    ensures BeforeLifecycle(f, Blend(f)) == Episodic(f, Guarded(f, Routed(f, Blend(f)))) * StalenessFactor(f)
  {
    hide Blend, Episodic, Guarded, Routed;
  }

  lemma SameGuards(f: Features, g: Features, blend: real)
    requires g == f.(bm25 := g.bm25)
    ensures BeforeLifecycle(g, blend) == Episodic(f, Guarded(f, Routed(f, blend))) * StalenessFactor(f)
  {
    assert Routed(g, blend) == Routed(f, blend);
    hide Routed;
  }

  lemma ScaledFall(x: real, y: real, k: real)
    requires k > 0.0
    ensures x * k < y * k <==> x < y
  {
    if x < y { TimesStrict(x, y, k); }
    if x >= y { TimesMonotone(y, x, k); }
  }

  lemma BlendFallsExactly(f: Features, g: Features)
    requires g == f.(bm25 := g.bm25)
    ensures Routed(f, Blend(g)) < Routed(f, Blend(f)) <==> Relevance(g) < Relevance(f)
  {
    hide Relevance, Blend, Routed;
    hide RoutedFactor;
    RoutedIsFactor(f, Blend(f));
    RoutedIsFactor(f, Blend(g));
    ScaledFall(Blend(g), Blend(f), RoutedFactor(f));
    RelevanceMovesBlend(f, g);
  }

  /** Relevance has a positive weight on every axis mix. */
  lemma RelevanceMovesBlend(f: Features, g: Features)
    requires g == f.(bm25 := g.bm25)
    ensures Blend(g) < Blend(f) <==> Relevance(g) < Relevance(f)
  {
    hide Relevance;
    assert Trust(f) == Trust(g) && Freshness(f) == Freshness(g);
    hide Trust, Freshness;
  }

  lemma RoutedIsNonNegative(f: Features)
    requires InRange(f)
    ensures Routed(f, Blend(f)) > 0.0
  {
    AxesAreBounded(f);
    assert Blend(f) > 0.0 by { hide Relevance, Freshness, Trust; }
    hide Blend;
    RoutedIsPositive(f, Blend(f));
  }

  /**
   * When another text rank lowers the score: exactly when the mix falls, in between the floors and the cap on
   * relevance, and no rank guard hides what is left of the fall.
   */
  lemma RankLowersExactly(f: Features, bm25: real)
    requires InRange(f) && BoostsInRange(f)
    ensures var g := f.(bm25 := Some(bm25));
            Score(g) < Score(f) <==>
              && !f.emptyQuery
              && Mixed(g) < Mixed(f) && MixShows(f, Mixed(f), Mixed(g))
              && BlendShows(f, Routed(f, Blend(f)), Routed(f, Blend(g)))
  {
    var g := f.(bm25 := Some(bm25));
    if f.emptyQuery {
      EmptyQueryScores(f);
      EmptyQueryScores(g);
    } else {
      RelevanceFallsExactly(f, g);
      BlendFallsExactly(f, g);
      ScoreFallsWithGuards(f, g);
      RoutedIsNonNegative(f);
      RoutedIsNonNegative(g);
      assert Routed(g, Blend(g)) == Routed(f, Blend(g));
      hide Score, Blend, Episodic, Guarded, Routed, Mixed, MixShows, BlendShows, Relevance;
      GuardsShowExactly(f, Routed(f, Blend(f)), Routed(f, Blend(g)));
    }
  }

  /** No rank guard and no boosted category applies. */
  predicate Unguarded(f: Features) {
    && !f.primaryTask && !f.secondaryTask
    && !(f.exact && (f.queryChars >= 24 || (f.layer == "verified_fact" && f.isTaggedFact)))
    && !(f.hasHistory && f.layer == "event_log")
    && !(f.usesBoostCategories && f.routing.Boosted?)
  }

  /** For unguarded candidates the mix and the floors alone decide. */
  lemma UnguardedLowersExactly(f: Features, bm25: real)
    requires InRange(f) && BoostsInRange(f) && Unguarded(f)
    ensures var g := f.(bm25 := Some(bm25));
            Score(g) < Score(f) <==> !f.emptyQuery && Mixed(g) < Mixed(f) && MixShows(f, Mixed(f), Mixed(g))
  {
    var g := f.(bm25 := Some(bm25));
    RankLowersExactly(f, bm25);
    RelevanceFallsExactly(f, g);
    hide Mixed, MixShows, Score;
    if Relevance(g) < Relevance(f) {
      UnguardedShows(f, g);
    }
  }

  lemma UnguardedShows(f: Features, g: Features)
    requires InRange(f) && BoostsInRange(f) && Unguarded(f) && g == f.(bm25 := g.bm25) && Relevance(g) < Relevance(f)
    ensures BlendShows(f, Routed(f, Blend(f)), Routed(f, Blend(g)))
  {
    assert GuardFloor(f) == 0.0 && GuardCap(f) == 1.0;
    hide Relevance, Routed, RoutedFactor, GuardFloor, GuardCap;
    RoutedIsNonNegative(f);
    AxesAreBounded(f);
    AxesAreBounded(g);
    RelevanceMovesBlend(f, g);
    hide Blend;
    RoutedIsFactor(f, Blend(g));
    WeightedMonotone(Blend(g), RoutedFactor(f), 1.0);
    assert Routed(f, Blend(g)) <= Blend(g) < 1.0;
  }

  /** The fall of the mix, from the two rows of the weight table: what the rank brings against what it takes away. */
  lemma MixFallsExactly(f: Features, bm25: real)
    requires f.bm25.None?
    ensures var g := f.(bm25 := Some(bm25));
            var w, v := WeightsFor(f), WeightsFor(g);
            Mixed(g) < Mixed(f) <==>
            v.bm25 * Bm25Component(g.bm25) < (w.vector - v.vector) * f.vector + (w.token - v.token) * f.token
    ensures f.hasQueryVector ==> WeightsFor(f.(bm25 := Some(bm25))).token < WeightsFor(f).token
  {
    assert Bm25Component(f.bm25) == 0.0;
    hide Bm25Component;
  }

  /**
   * For plain candidates, with no boost and no guard, gaining a rank lowers the score exactly when it lowers the mix.
   */
  lemma PlainGainLowersExactly(f: Features, bm25: real)
    requires InRange(f) && BoostsInRange(f) && Unguarded(f) && Unboosted(f) && f.bm25.None? && !f.emptyQuery
    ensures var g := f.(bm25 := Some(bm25));
            var w, v := WeightsFor(f), WeightsFor(g);
            Score(g) < Score(f) <==>
            v.bm25 * Bm25Component(g.bm25) < (w.vector - v.vector) * f.vector + (w.token - v.token) * f.token
  {
    var g := f.(bm25 := Some(bm25));
    UnguardedLowersExactly(f, bm25);
    MixFallsExactly(f, bm25);
    MixedIsAverage(f);
    MixedIsAverage(g);
    UnboostedLevels(f);
    hide Mixed, WeightsFor, Bm25Component, Score, FloorLevel, Lift, Unboosted, Unguarded;
  }

  lemma UnboostedLevels(f: Features)
    requires Unboosted(f)
    ensures FloorLevel(f) == 0.0 && Lift(f) == 0.0
  {
    assert Largest(f.keywordBoosts) == 0.0;
  }

  /**
   * The query "quiet harbour" against a plain, undated fact that mentions a harbour once, behind its first 120
   * characters, and whose vector is unrelated.
   */
  const HALF_MATCH := Features(
    emptyQuery := false, exact := false, queryBytes := 13, queryChars := 13, token := 0.5, tokenHits := 1,
    tokenTotal := 2, positionBonus := 0.0, hasQueryVector := true, vector := 0.0, bm25 := None, cjkCount := 0,
    hasLatin := true, englishTokens := 2, hasTechTerms := false, bigramsMatch := true, keywordBoosts := [],
    vagueMatch := false, identifierRatio := None, primaryTask := false, secondaryTask := false,
    buildSuccess := false, bigramRatio := None, mixedMatch := false, layer := "verified_fact",
    hasTemporal := false, hasHistory := false, hasRemoteHistory := false, decay := 1.0, activation := 0.0,
    confidence := None, failureCount := 0, isSku := false, isBrandAuthority := false,
    usesBoostCategories := false, routing := Untyped, isTaggedFact := false, isOutdated := false,
    isCorrected := false, evolutionState := None, hasSupersededBy := false)

  lemma HalfMatchIsPlain()
    ensures InRange(HALF_MATCH) && BoostsInRange(HALF_MATCH) && Unguarded(HALF_MATCH) && Unboosted(HALF_MATCH)
    ensures WeightsFor(HALF_MATCH) == Weights(0.55, 0.0, 0.45)
    ensures forall bm25 :: WeightsFor(HALF_MATCH.(bm25 := Some(bm25))) == Weights(0.45, 0.35, 0.20)
    ensures HALF_MATCH.bm25.None? && !HALF_MATCH.emptyQuery && HALF_MATCH.vector == 0.0 && HALF_MATCH.token == 0.5
  {
  }

  /** Found by its text as well, this candidate drops unless the rank is at least 5/9 strong. */
  lemma HalfMatchDrops(bm25: real)
    ensures Score(HALF_MATCH.(bm25 := Some(bm25))) < Score(HALF_MATCH) <==> 9.0 * bm25 > -5.0
  {
    hide Score, InRange, BoostsInRange, Unguarded, Unboosted, WeightsFor;
    HalfMatchIsPlain();
    var f := HALF_MATCH;
    hide HALF_MATCH;
    PlainGainLowersExactly(f, bm25);
    RatioBelow(Max(-bm25, 0.0), Bm25Component(Some(bm25)));
    hide Bm25Component;
  }

  lemma RatioBelow(raw: real, c: real)
    requires raw >= 0.0 && c == raw / (1.0 + raw)
    ensures 0.35 * c < 0.125 <==> 9.0 * raw < 5.0
  {
    var d := 1.0 + raw;
    assert c * d == raw;
    ScaledFall(0.35 * c, 0.125, d);
    assert 0.35 * c * d == 0.35 * raw;
  }

  lemma WeightedMonotone(k: real, a: real, b: real)
    requires a <= b && k >= 0.0
    ensures k * a <= k * b
  {
    assert k * (b - a) >= 0.0;
  }

  lemma TermsMonotone(k: real, a: real, b: real, l: real, c: real, d: real, rest: real)
    requires a <= b && c <= d && k >= 0.0 && l >= 0.0
    ensures k * a + l * c + rest <= k * b + l * d + rest
  {
    WeightedMonotone(k, a, b);
    WeightedMonotone(l, c, d);
  }

  lemma MixedLifts(f: Features, g: Features)
    requires g == f.(vector := g.vector, bm25 := g.bm25) && f.vector <= g.vector && WeightsFor(f) == WeightsFor(g)
    requires Bm25Component(f.bm25) <= Bm25Component(g.bm25)
    ensures Mixed(f) <= Mixed(g)
  {
    hide Bm25Component, WeightsFor;
    WeightsAreConvex(f);
    var w := WeightsFor(f);
    assert WeightsFor(g) == w && g.token == f.token;
    var c, d := Bm25Component(f.bm25), Bm25Component(g.bm25);
    assert Mixed(f) == w.vector * f.vector + w.bm25 * c + w.token * f.token;
    assert Mixed(g) == w.vector * g.vector + w.bm25 * d + w.token * f.token;
    hide Mixed;
    TermsMonotone(w.vector, f.vector, g.vector, w.bm25, c, d, w.token * f.token);
  }

  /** More failures are never scored higher. */
  lemma FailuresMonotone(f: Features, failures: int)
    requires f.failureCount <= failures
    ensures Score(f.(failureCount := failures)) <= Score(f)
  {
    hide Relevance, Trust, Freshness, Final, Blend;
    var g := f.(failureCount := failures);
    TrustDrops(f, g);
    SameRelevance(f, g);
    LessTrust(f, g);
    TailMonotone(f, Blend(g), Blend(f));
    FailureTail(f, g, Blend(g));
  }

  lemma FailureFactorDrops(few: int, many: int)
    requires few <= many
    ensures FailureFactor(many) <= FailureFactor(few)
  {
  }

  lemma TrustDrops(f: Features, g: Features)
    requires g == f.(failureCount := g.failureCount) && f.failureCount <= g.failureCount
    ensures Trust(g) <= Trust(f)
  {
    var c := ConfidenceFactor(f);
    assert ConfidenceFactor(g) == c && c >= 0.0;
    hide ConfidenceFactor, FailureFactor;
    FailureFactorDrops(f.failureCount, g.failureCount);
    TimesMonotone(FailureFactor(g.failureCount), FailureFactor(f.failureCount), c);
  }

  lemma LessTrust(f: Features, g: Features)
    requires g == f.(failureCount := g.failureCount) && Trust(g) <= Trust(f)
    requires Relevance(g) == Relevance(f) && Freshness(g) == Freshness(f)
    ensures Blend(g) <= Blend(f)
  {
    hide Relevance, Trust, Freshness;
  }

  /** The two rows differ at most in columns that relevance does not read. */
  predicate BehindRelevance(f: Features, g: Features) {
    g == f.(decay := g.decay, activation := g.activation, confidence := g.confidence, failureCount := g.failureCount,
            isSku := g.isSku, isBrandAuthority := g.isBrandAuthority, routing := g.routing,
            isOutdated := g.isOutdated, isCorrected := g.isCorrected,
            evolutionState := g.evolutionState, hasSupersededBy := g.hasSupersededBy)
  }

  lemma SameRelevance(f: Features, g: Features)
    requires BehindRelevance(f, g)
    ensures Relevance(g) == Relevance(f)
    ensures g.decay == f.decay && g.activation == f.activation ==> Freshness(g) == Freshness(f)
    ensures g.confidence == f.confidence && g.failureCount == f.failureCount ==> Trust(g) == Trust(f)
  {
    SameMix(f, g);
    SameFloors(f, g, Mixed(f));
    SameBoosts(f, g, Floored(f, Mixed(f)));
    hide Mixed, Floored, Boosts;
  }

  lemma SameBlend(f: Features, g: Features)
    requires BehindRelevance(f, g) && g.decay == f.decay && g.activation == f.activation
    requires g.confidence == f.confidence && g.failureCount == f.failureCount
    ensures Blend(g) == Blend(f)
  {
    SameRelevance(f, g);
    hide Relevance, Freshness, Trust;
  }

  lemma SameMix(f: Features, g: Features)
    requires BehindRelevance(f, g)
    ensures Mixed(g) == Mixed(f)
  {
    assert WeightsFor(g) == WeightsFor(f);
    hide WeightsFor, Bm25Component;
  }

  lemma SameFloors(f: Features, g: Features, s: real)
    requires BehindRelevance(f, g)
    ensures Floored(g, s) == Floored(f, s)
  {
  }

  lemma SameBoosts(f: Features, g: Features, s: real)
    requires BehindRelevance(f, g)
    ensures Boosts(g, s) == Boosts(f, s)
  {
    hide Largest;
  }

  lemma FailureTail(f: Features, g: Features, s: real)
    requires g == f.(failureCount := g.failureCount, evolutionState := g.evolutionState)
    ensures BeforeLifecycle(g, s) == BeforeLifecycle(f, s)
    ensures g.evolutionState == f.evolutionState ==> Final(g, s) == Final(f, s)
  {
    assert Routed(g, s) == Routed(f, s);
    hide Routed;
    assert BeforeLifecycle(g, s) == BeforeLifecycle(f, s);
    hide BeforeLifecycle;
  }

  lemma BeforeLifecycleIsBounded(f: Features, blend: real)
    ensures 0.0 <= BeforeLifecycle(f, blend) <= 1.0
  {
    hide Routed;
    var s := Episodic(f, Guarded(f, Routed(f, blend)));
    assert 0.0 <= s <= 1.0;
    hide Episodic, Guarded;
    TimesMonotone(0.0, s, StalenessFactor(f));
    TimesMonotone(s, 1.0, StalenessFactor(f));
  }

  /** For a query with words, the lifecycle state scales the score exactly by its factor: nothing lifts it back. */
  lemma EvolutionScales(f: Features)
    requires !f.emptyQuery
    ensures Score(f) == BeforeLifecycle(f, Blend(f)) * EvolutionFactor(f)
  {
    hide BeforeLifecycle, Blend;
    BeforeLifecycleIsBounded(f, Blend(f));
    TimesMonotone(0.0, BeforeLifecycle(f, Blend(f)), EvolutionFactor(f));
    TimesMonotone(BeforeLifecycle(f, Blend(f)), 1.0, EvolutionFactor(f));
  }

  /** The active counterpart of a row. */
  function ActiveTwin(f: Features): Features {
    f.(evolutionState := Some("active"))
  }

  lemma TwinsAgreeBefore(f: Features)
    ensures BeforeLifecycle(ActiveTwin(f), Blend(ActiveTwin(f))) == BeforeLifecycle(f, Blend(f))
  {
    var g := ActiveTwin(f);
    SameRelevance(f, g);
    assert Trust(g) == Trust(f);
    hide Relevance, Freshness, Trust, BeforeLifecycle;
    assert Blend(g) == Blend(f);
    FailureTail(f, g, Blend(f));
  }

  /** Trust alone keeps the score off zero until the lifecycle demotion. */
  lemma BeforeLifecycleIsPositive(f: Features)
    requires InRange(f)
    ensures BeforeLifecycle(f, Blend(f)) > 0.0
  {
    AxesAreBounded(f);
    assert Blend(f) > 0.0 by { hide Relevance, Freshness, Trust; }
    hide Blend;
    RoutedIsPositive(f, Blend(f));
    hide Routed;
    assert Guarded(f, Routed(f, Blend(f))) > 0.0;
    hide Guarded;
    assert Episodic(f, Guarded(f, Routed(f, Blend(f)))) > 0.0;
  }

  lemma RoutedIsPositive(f: Features, s: real)
    requires s > 0.0
    ensures Routed(f, s) > 0.0
  {
  }

  /** For a query with words and no legacy marker, superseding a row leaves it exactly 5% of its score. */
  lemma SupersededIsScaled(f: Features)
    requires f.evolutionState == Some("superseded") && !f.emptyQuery && !f.hasSupersededBy
    ensures Score(f) == 0.05 * Score(ActiveTwin(f))
  {
    EvolutionScales(f);
    EvolutionScales(ActiveTwin(f));
    TwinsAgreeBefore(f);
    hide BeforeLifecycle, Blend, Score;
  }

  /**
   * A superseded row scores at most 5% of its active twin exactly when the query is not empty and the row carries no
   * legacy marker, which would demote the twin as well.
   */
  lemma SupersededAtMostFivePercent(f: Features)
    requires f.evolutionState == Some("superseded") && InRange(f)
    ensures Score(f) <= 0.05 * Score(ActiveTwin(f)) <==> !f.emptyQuery && !f.hasSupersededBy
  {
    if !f.emptyQuery {
      EvolutionScales(f);
      EvolutionScales(ActiveTwin(f));
      TwinsAgreeBefore(f);
      BeforeLifecycleIsPositive(f);
      hide BeforeLifecycle, Blend, Score;
    }
  }
}
