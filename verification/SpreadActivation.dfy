/** The end of `spread_activation`: the activated notes, ranked and appended behind the direct results. */
module SpreadActivation {
  import opened Notes
  import opened Results
  import opened Sorting
  import opened ActivationGraph
  import opened Activation

  /** `relationTypeCounts` is the per-type counter map; its size is the sum of the counters. */
  datatype Diagnostics = Diagnostics(
    resultCount: nat, maxDepth: nat, relationTypeCounts: multiset<string>, dreamEvidenceCount: nat)

  function KindsOf(s: seq<SearchResult>): seq<string> {
    if s == [] then []
    else (if s[0].trace.Some? then [s[0].trace.value.relationType] else []) + KindsOf(s[1..])
  }

  function DreamCount(s: seq<SearchResult>): nat {
    if s == [] then 0
    else (if s[0].trace.Some? && s[0].trace.value.dreamId.Some? then 1 else 0) + DreamCount(s[1..])
  }

  lemma {:induction false} CountsGrow(s: seq<SearchResult>, a: SearchResult)
    ensures KindsOf(s + [a]) == KindsOf(s) + KindsOf([a])
    ensures DreamCount(s + [a]) == DreamCount(s) + DreamCount([a])
  {
    if s == [] {
      assert [] + [a] == [a];
    } else {
      CountsGrow(s[1..], a);
      assert (s + [a])[1..] == s[1..] + [a];
    }
  }

  /** `activated.into_values().collect()`: the values in whatever order the map yields them. */
  method ValuesOf(m: Activated) returns (values: seq<SearchResult>)
    requires forall id <- m :: m[id].id == id
    ensures DistinctResultIds(values)
    ensures forall a :: a in values <==> a.id in m && m[a.id] == a
  {
    values := [];
    var rest := m.Keys;
    while rest != {}
      invariant rest <= m.Keys
      invariant DistinctResultIds(values)
      invariant forall a :: a in values <==> a.id in m && a.id !in rest && m[a.id] == a
    {
      var id :| id in rest;
      assert forall a <- values :: a.id != id;
      values := values + [m[id]];
      rest := rest - {id};
    }
  }

  /** A positive walk of at most `MAX_HOPS` hops off the direct results. */
  predicate Reaches(g: Graph, w: Walk) {
    Valid(g, w) && 1 <= Depth(w) <= MAX_HOPS && Score(w) > 0.0
  }

  /** The appended block shows the best walk to each of its notes, and leaves out no better note. */
  ghost predicate Optimal(g: Graph, appended: seq<SearchResult>, full: bool) {
    && (forall a <- appended, w | Reaches(g, w) && End(g, w) == a.id :: Score(w) <= a.score)
    && (forall w | Reaches(g, w) ::
          (exists a <- appended :: a.id == End(g, w)) || (full && forall a <- appended :: a.score >= Score(w)))
  }

  ghost predicate Accounted(before: Diagnostics, after: Diagnostics, appended: seq<SearchResult>) {
    && after.resultCount == before.resultCount + |appended|
    && after.relationTypeCounts == before.relationTypeCounts + multiset(KindsOf(appended))
    && |after.relationTypeCounts| == |before.relationTypeCounts| + |appended|
    && after.dreamEvidenceCount == before.dreamEvidenceCount + DreamCount(appended)
    && before.maxDepth <= after.maxDepth
    && after.maxDepth <= (if before.maxDepth >= MAX_HOPS then before.maxDepth else MAX_HOPS)
    && DeepestIs(before.maxDepth, appended, after.maxDepth)
  }

  /** The largest depth among the appended notes and the one known before. */
  ghost predicate DeepestIs(before: nat, appended: seq<SearchResult>, deepest: nat) {
    && before <= deepest && (forall a <- appended | a.trace.Some? :: a.trace.value.depth <= deepest)
    && (deepest == before || exists a <- appended :: a.trace.Some? && a.trace.value.depth == deepest)
  }

  lemma DeepestGrows(before: nat, s: seq<SearchResult>, deepest: nat, a: SearchResult)
    requires DeepestIs(before, s, deepest) && a.trace.Some?
    ensures DeepestIs(before, s + [a], if a.trace.value.depth > deepest then a.trace.value.depth else deepest)
  {
    assert a in s + [a] && forall x <- s :: x in s + [a];
  }

  /** What the caller gets: an unchanged direct prefix and an explained, ranked, optimal suffix. */
  ghost predicate SpreadContract(g: Graph, limit: nat, results: seq<SearchResult>) {
    && g.direct <= results
    && |results| <= (if |g.direct| >= limit then |g.direct| else limit)
    && DistinctResultIds(results)
    && var appended := results[|g.direct|..];
       && Descending(appended)
       && (forall a <- appended :: Explained(g, a, MAX_HOPS) && !IsDirect(g, a.id))
       && (Exact(g) ==> Optimal(g, appended, |results| >= limit))
  }

  lemma NoTablesNoWalks(g: Graph, w: Walk)
    requires !g.hasRelations && !g.hasDreams && Valid(g, w)
    ensures w.Start?
  {
  }

  lemma SoundIsExplained(g: Graph, best: Scores, activated: Activated)
    requires Sound(g, best, activated, MAX_HOPS)
    ensures forall id <- activated ::
              activated[id].id == id && !IsDirect(g, id) && Explained(g, activated[id], MAX_HOPS)
  {
    hide Explained, IsDirect;
  }

  lemma NothingAppended(g: Graph, before: Diagnostics)
    ensures Accounted(before, before, [])
    ensures g.direct == [] ==> forall w :: !Reaches(g, w)
  {
    forall w ensures g.direct == [] ==> !Reaches(g, w) {
      if Reaches(g, w) { PathAfterRootIsAdmitted(g, w); }
    }
  }

  lemma NothingAppendedIsFine(g: Graph, limit: nat)
    requires DistinctResultIds(g.direct)
    requires |g.direct| == 0 || |g.direct| >= limit || (!g.hasRelations && !g.hasDreams)
    ensures SpreadContract(g, limit, g.direct)
  {
    hide Exact;
    assert g.direct[|g.direct|..] == [];
    forall w | Reaches(g, w) ensures |g.direct| >= limit {
      PathAfterRootIsAdmitted(g, w);
      if !g.hasRelations && !g.hasDreams { NoTablesNoWalks(g, w); }
    }
  }

  lemma AppendedIsFine(g: Graph, limit: nat, kept: seq<SearchResult>)
    requires |g.direct| <= limit && |g.direct| + |kept| <= limit
    requires DistinctResultIds(g.direct + kept) && Descending(kept)
    requires forall a <- kept :: Explained(g, a, MAX_HOPS) && !IsDirect(g, a.id)
    requires Exact(g) ==> Optimal(g, kept, |g.direct| + |kept| >= limit)
    ensures SpreadContract(g, limit, g.direct + kept)
  {
    hide Exact, Optimal, Explained, IsDirect;
    assert (g.direct + kept)[|g.direct|..] == kept;
  }

  method Run(g: Graph, limit: nat, before: Diagnostics) returns (results: seq<SearchResult>, after: Diagnostics)
    requires ValidTable(g.notes) && DistinctResultIds(g.direct)
    ensures SpreadContract(g, limit, results)
    ensures |g.direct| <= |results| && Accounted(before, after, results[|g.direct|..])
  {
    hide SpreadContract, Sound, Covers, Exact, Explained, ValidTable, Accounted, IsDirect, Optimal, Sort, Reaches;
    results, after := g.direct, before;
    assert results[|g.direct|..] == [];
    NothingAppended(g, before);
    if |results| == 0 || |results| >= limit || limit == 0 || (!g.hasRelations && !g.hasDreams) {
      NothingAppendedIsFine(g, limit);
      return;
    }
    var kept := Associations(g, limit - |results|);
    results, after := AppendAll(g, kept, before);
    AppendedIsFine(g, limit, kept);
    assert results[|g.direct|..] == kept;
  }

  /** The activated notes that there is room for, best first. */
  method Associations(g: Graph, remaining: nat) returns (kept: seq<SearchResult>)
    requires ValidTable(g.notes) && DistinctResultIds(g.direct)
    ensures |kept| <= remaining && Descending(kept) && DistinctResultIds(kept)
    ensures forall a <- kept :: Explained(g, a, MAX_HOPS) && !IsDirect(g, a.id)
    ensures Exact(g) ==> Optimal(g, kept, |kept| >= remaining)
  {
    hide Sound, Covers, Exact, Explained, ValidTable, IsDirect, Optimal, Sort, Reaches;
    var best, activated := Spread(g);
    SoundIsExplained(g, best, activated);
    var values := ValuesOf(activated);
    var ranked := Sort(values, BY_SCORE);
    SortByScore(values);
    kept := ranked[..if remaining < |ranked| then remaining else |ranked|];
    TopIsOptimal(g, best, activated, ranked, |kept|, remaining);
    assert forall a <- kept :: a in ranked;
  }

  lemma ReachEndsOffDirect(g: Graph, w: Walk)
    requires Reaches(g, w)
    ensures !IsDirect(g, End(g, w))
  {
    HopEndsOffDirect(g, w);
  }

  /** One walk against the kept top of the ranking. */
  lemma WalkIsMatched(g: Graph, best: Scores, activated: Activated, ranked: seq<SearchResult>, k: nat, w: Walk)
    requires Sound(g, best, activated, MAX_HOPS) && Covers(g, best, MAX_HOPS) && Descending(ranked)
    requires forall a :: a in ranked <==> a.id in activated && activated[a.id] == a
    requires k <= |ranked| && Reaches(g, w)
    ensures forall a <- ranked | End(g, w) == a.id :: Score(w) <= a.score
    ensures (exists a <- ranked[..k] :: a.id == End(g, w))
            || (k < |ranked| && forall a <- ranked[..k] :: a.score >= Score(w))
  {
    hide Valid, Score, End, Depth, Explained, IsDirect;
    ReachEndsOffDirect(g, w);
    var id := End(g, w);
    assert id in best && best[id] >= Score(w);
    assert id in activated;
    var mine := activated[id];
    assert mine in ranked;
    var i :| 0 <= i < |ranked| && ranked[i] == mine;
    if i < k { assert ranked[..k][i] == mine; }
  }

  lemma TopIsOptimal(g: Graph, best: Scores, activated: Activated, ranked: seq<SearchResult>, k: nat, remaining: nat)
    requires Sound(g, best, activated, MAX_HOPS) && Descending(ranked)
    requires Exact(g) ==> Covers(g, best, MAX_HOPS)
    requires forall a :: a in ranked <==> a.id in activated && activated[a.id] == a
    requires k <= |ranked| && (k == remaining || k == |ranked|)
    ensures Exact(g) ==> Optimal(g, ranked[..k], k >= remaining)
  {
    hide Valid, Score, End, Depth, Explained, Exact, Sound, Covers, Reaches;
    if Exact(g) {
      forall w | Reaches(g, w)
        ensures forall a <- ranked[..k] | End(g, w) == a.id :: Score(w) <= a.score
        ensures (exists a <- ranked[..k] :: a.id == End(g, w))
                || (k >= remaining && forall a <- ranked[..k] :: a.score >= Score(w))
      {
        WalkIsMatched(g, best, activated, ranked, k, w);
      }
    }
  }

  lemma ExplainedHasTrace(g: Graph, a: SearchResult)
    requires Explained(g, a, MAX_HOPS)
    ensures a.trace.Some? && a.trace.value.depth <= MAX_HOPS
  {
    var w :| Explains(g, w, a, MAX_HOPS);
  }

  /** The counters touched for one returned association. */
  function Account(d: Diagnostics, trace: Trace): Diagnostics {
    Diagnostics(
      d.resultCount + 1,
      if trace.depth > d.maxDepth then trace.depth else d.maxDepth,
      d.relationTypeCounts + multiset{trace.relationType},
      d.dreamEvidenceCount + if trace.dreamId.Some? then 1 else 0)
  }

  lemma AccountStep(before: Diagnostics, d: Diagnostics, s: seq<SearchResult>, a: SearchResult)
    requires Accounted(before, d, s) && a.trace.Some? && a.trace.value.depth <= MAX_HOPS
    ensures Accounted(before, Account(d, a.trace.value), s + [a])
  {
    CountsGrow(s, a);
    DeepestGrows(before.maxDepth, s, d.maxDepth, a);
    assert [a][1..] == [];
    hide DeepestIs;
  }

  lemma DistinctJoin(a: seq<SearchResult>, b: seq<SearchResult>)
    requires DistinctResultIds(a) && DistinctResultIds(b)
    requires forall x <- a, y <- b :: x.id != y.id
    ensures DistinctResultIds(a + b)
  {
  }

  /** The append loop with its diagnostics. */
  method AppendAll(g: Graph, kept: seq<SearchResult>, before: Diagnostics)
    returns (results: seq<SearchResult>, after: Diagnostics)
    requires DistinctResultIds(g.direct) && DistinctResultIds(kept)
    requires forall a <- kept :: Explained(g, a, MAX_HOPS) && !IsDirect(g, a.id)
    ensures results == g.direct + kept && DistinctResultIds(results)
    ensures Accounted(before, after, kept)
  {
    hide Explained, Accounted, Account;
    NothingAppended(g, before);
    results, after := g.direct, before;
    for i := 0 to |kept|
      invariant results == g.direct + kept[..i]
      invariant Accounted(before, after, kept[..i])
    {
      var a := kept[i];
      ExplainedHasTrace(g, a);
      AccountStep(before, after, kept[..i], a);
      assert kept[..i + 1] == kept[..i] + [a];
      if a.trace.Some? {
        after := Account(after, a.trace.value);
      }
      results := results + [a];
    }
    assert kept[..|kept|] == kept;
    DistinctJoin(g.direct, kept);
  }
}
