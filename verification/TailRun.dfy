/** The tail as a whole: from scored candidates to the returned vector. */
module TailRun {
  import opened Sorting
  import opened Notes
  import opened ReaderLaws
  import opened Results
  import opened Postprocess
  import opened ActivationGraph
  import opened Activation
  import opened SpreadActivation
  import opened SearchTail
  import opened TailAnswers

  /** Candidates at their heads, the best-scored one per id, in order of final score. */
  function Ranked(t: Table, candidates: seq<SearchResult>, zMode: bool, root: real -> real, epsilon: real,
                  adjust: SearchResult -> real): seq<SearchResult>
    requires epsilon > 0.0
  {
    var followed := Sort(FollowAll(t, candidates), BY_SCORE);
    var distinct := Retain(followed, FirstById(followed));
    Sort(Rescored(ZNormalized(distinct, zMode, root, epsilon), adjust), BY_SCORE)
  }

  /** What survives up to the activation step. */
  predicate DirectBlock(direct: seq<SearchResult>, limit: nat) {
    |direct| <= limit && Descending(direct) && DistinctResultIds(direct) && OnePerTopic(direct)
  }

  lemma FirstByIdIsDistinct(items: seq<SearchResult>)
    ensures DistinctResultIds(Retain(items, FirstById(items)))
    ensures forall r <- items :: exists s <- Retain(items, FirstById(items)) :: s.id == r.id
  {
    var keep := FirstById(items);
    forall r <- items ensures exists s <- Retain(items, keep) :: s.id == r.id {
      var i: nat :| i < |items| && items[i] == r;
      var first := FirstOfId(items, i);
      KeptAt(items, keep, first);
    }
  }

  lemma PrefixIsBlock(d: seq<SearchResult>, limit: nat)
    requires Descending(d) && DistinctResultIds(d) && OnePerTopic(d)
    ensures DirectBlock(Top(d, limit), limit)
  {
    hide TopicOf;
  }

  lemma DedupedIsDirectBlock(items: seq<SearchResult>, limit: nat)
    requires DistinctResultIds(items)
    ensures var d := TopicDeduped(items);
            DirectBlock(Top(d, limit), limit) && forall r <- Top(d, limit) :: r in items
  {
    TopicDedupIsExact(items);
    DedupedIdsDistinct(items);
    PrefixIsBlock(TopicDeduped(items), limit);
    hide TopicDeduped, DirectBlock;
  }

  /** Every id in the list belongs to some followed candidate. */
  ghost predicate IdsFollow(t: Table, candidates: seq<SearchResult>, items: seq<SearchResult>) {
    forall r <- items :: exists c <- candidates :: Followed(t, c).id == r.id
  }

  lemma FollowedRootsAreOwnHeads(t: Table, candidates: seq<SearchResult>, direct: seq<SearchResult>, g: Graph)
    requires ValidTable(t) && Idempotent(t) && g.notes == t && g.direct == direct
    requires forall c <- candidates :: OfRow(t, c)
    requires IdsFollow(t, candidates, direct)
    ensures forall r <- direct :: OwnHead(g, r.id)
  {
    forall r <- direct ensures OwnHead(g, r.id) {
      var c :| c in candidates && Followed(t, c).id == r.id;
      FollowedIsOwnHead(t, c);
    }
  }

  // ---- the answer, stage by stage ----

  /** What the passes leave in turn. */
  datatype Stages = Stages(
    followed: seq<SearchResult>,
    distinct: seq<SearchResult>,
    ranked: seq<SearchResult>,
    deduped: seq<SearchResult>,
    top: seq<SearchResult>)

  /** How the direct results come out of the candidates. */
  ghost predicate DirectAnswer(t: Table, candidates: seq<SearchResult>, limit: nat, zMode: bool, root: real -> real,
                               epsilon: real, adjust: SearchResult -> real, st: Stages, direct: seq<SearchResult>,
                               seen: set<string>) {
    && AllBecome(t, candidates, st.followed)
    && BestPerId(st.followed, st.distinct)
    && Finalised(st.distinct, zMode, root, epsilon, adjust, st.ranked)
    && OncePerTopic(st.ranked, st.deduped)
    && SeenExactly(st.ranked, seen)
    && Leading(st.deduped, limit, st.top)
    && Capped(st.top, direct)
  }

  function StagesOf(t: Table, candidates: seq<SearchResult>, limit: nat, zMode: bool, root: real -> real, epsilon: real,
                    adjust: SearchResult -> real): Stages
    requires epsilon > 0.0
  {
    var followed := FollowAll(t, candidates);
    var sorted := Sort(followed, BY_SCORE);
    var ranked := Ranked(t, candidates, zMode, root, epsilon, adjust);
    Stages(followed, Retain(sorted, FirstById(sorted)), ranked, TopicDeduped(ranked), Top(TopicDeduped(ranked), limit))
  }

  lemma CandidatesBecome(t: Table, candidates: seq<SearchResult>)
    requires ValidTable(t) && forall c <- candidates :: OfRow(t, c)
    ensures AllBecome(t, candidates, FollowAll(t, candidates))
  {
    hide Becomes, Followed, OfRow, ValidTable;
    forall i | 0 <= i < |candidates| ensures Becomes(t, candidates[i], FollowAll(t, candidates)[i]) {
      assert candidates[i] in candidates;
      FollowedBecomes(t, candidates[i]);
    }
  }

  /** The passes in sequence answer as described. */
  lemma StagesAnswer(t: Table, candidates: seq<SearchResult>, limit: nat, zMode: bool, root: real -> real,
                     epsilon: real, adjust: SearchResult -> real)
    requires ValidTable(t) && epsilon > 0.0 && forall c <- candidates :: OfRow(t, c)
    ensures var st := StagesOf(t, candidates, limit, zMode, root, epsilon, adjust);
            DirectAnswer(t, candidates, limit, zMode, root, epsilon, adjust, st,
                         Diversified(st.top, DIVERSITY_RATIO), TopicsOf(st.ranked))
  {
    hide Sort, FirstById, TopicDeduped, Top, Diversified, TopicsOf, ZNormalized, OfRow, ValidTable;
    hide AllBecome, BestPerId, Finalised, OncePerTopic, SeenExactly, Leading, Capped;
    var st := StagesOf(t, candidates, limit, zMode, root, epsilon, adjust);
    var sorted := Sort(st.followed, BY_SCORE);
    CandidatesBecome(t, candidates);
    SortByScore(st.followed);
    FirstByIdIsBest(sorted);
    BestPerIdOfSame(sorted, st.followed, st.distinct);
    FirstByIdIsDistinct(sorted);
    SortIsFinal(st.distinct, zMode, root, epsilon, adjust);
    FinalIsDistinct(st.distinct, zMode, root, epsilon, adjust, st.ranked);
    TopicDedupOnce(st.ranked);
    TopicsAreSeen(st.ranked);
    TopicDedupIsExact(st.ranked);
    TopLeads(st.deduped, limit);
    TopDescends(st.deduped, limit);
    DiversifiedIsCapped(st.top);
  }

  lemma FinalIsDistinct(distinct: seq<SearchResult>, zMode: bool, root: real -> real, epsilon: real,
                        adjust: SearchResult -> real, ranked: seq<SearchResult>)
    requires Finalised(distinct, zMode, root, epsilon, adjust, ranked)
    ensures DistinctResultIds(ranked)
  {
    hide FinalOf;
  }

  lemma TopDescends(items: seq<SearchResult>, limit: nat)
    requires Descending(items)
    ensures Descending(Top(items, limit))
  {
  }

  /**
   * The tail from scored candidates to the returned vector. `template` supplies everything of the graph
   * but its direct results and seen topics; `adjust` is the keyword penalty and bonus.
   */
  method Run(list: ResultList, template: Graph, requested: nat, zMode: bool, root: real -> real, epsilon: real,
             adjust: SearchResult -> real, channel: string, activity: SearchResult -> Activity, minScore: real,
             before: Diagnostics)
    returns (after: Diagnostics, ghost g: Graph, ghost spread: seq<SearchResult>, ghost st: Stages)
    requires ValidTable(template.notes) && epsilon > 0.0
    requires forall c <- list.items :: OfRow(template.notes, c)
    modifies list
    ensures g == template.(direct := g.direct, seenTopics := g.seenTopics)
    ensures var limit := if requested == 0 then DEFAULT_LIMIT else requested;
            var ranked := Ranked(template.notes, old(list.items), zMode, root, epsilon, adjust);
            && g.direct == Diversified(Top(TopicDeduped(ranked), limit), DIVERSITY_RATIO)
               && g.seenTopics == TopicsOf(ranked)
            && DirectBlock(g.direct, limit) && SpreadContract(g, limit, spread) && |spread| <= limit
    ensures var limit := if requested == 0 then 5 else requested;
            DirectAnswer(template.notes, old(list.items), limit, zMode, root, epsilon, adjust, st, g.direct,
                         g.seenTopics)
    ensures Returned(spread, channel, activity, minScore, list.items)
    ensures IdsFollow(template.notes, old(list.items), g.direct)
    ensures Idempotent(template.notes) && Damped(template) ==> Exact(g)
    ensures |g.direct| <= |spread| && Accounted(before, after, spread[|g.direct|..])
    ensures list.items == AboveMin(Labelled(spread, channel, activity), minScore)
    ensures DistinctResultIds(list.items)
  {
    hide Ranked, TopicsOf, TopicDeduped, Diversified, SpreadContract, Accounted, FirstById, ZNormalized, Idempotent,
        Followed, OfRow, Exact, Sort;
    hide DirectAnswer, Returned;
    hide ValidTable, Damped, Top, Labelled, AboveMin, DistinctResultIds;
    var limit := if requested == 0 then DEFAULT_LIMIT else requested;
    ghost var candidates := list.items;
    var notes := template.notes;
    FollowPhase(list, notes, zMode, root, epsilon, adjust);
    ghost var ranked := list.items;
    DedupedIsDirectBlock(list.items, limit);
    var seenTopics := list.DedupeByTopicKey();
    list.Truncate(limit);
    DiversifiedKeepsOrder(list.items, DIVERSITY_RATIO);
    list.EnforceTypeDiversity(DIVERSITY_RATIO);
    SubsetFollows(notes, candidates, ranked, list.items);
    var graph := template.(direct := list.items, seenTopics := seenTopics);
    g := graph;
    if Idempotent(notes) && Damped(template) {
      FollowedRootsAreOwnHeads(notes, candidates, g.direct, g);
      ExactFrom(template, g);
    }
    after := list.Activate(graph, limit, before);
    spread := list.items;
    SpreadLength(g, limit, spread);
    list.Label(channel, activity);
    list.FilterMinScore(minScore);
    LabelledIdsStayDistinct(g, limit, spread, channel, activity, minScore);
    st := StagesOf(notes, candidates, limit, zMode, root, epsilon, adjust);
    StagesAnswer(notes, candidates, limit, zMode, root, epsilon, adjust);
    FilterReturns(spread, channel, activity, minScore);
  }

  lemma LabelledIdsStayDistinct(g: Graph, limit: nat, spread: seq<SearchResult>, channel: string,
                                activity: SearchResult -> Activity, minScore: real)
    requires SpreadContract(g, limit, spread)
    ensures DistinctResultIds(AboveMin(Labelled(spread, channel, activity), minScore))
  {
    LabelsKeepRanking(spread, channel, activity);
    hide Exact, Optimal, Explained;
  }

  lemma ExactFrom(template: Graph, g: Graph)
    requires g == template.(direct := g.direct, seenTopics := g.seenTopics)
    requires Idempotent(template.notes) && Damped(template) && forall r <- g.direct :: OwnHead(g, r.id)
    ensures Exact(g)
  {
  }

  lemma SpreadLength(g: Graph, limit: nat, results: seq<SearchResult>)
    requires SpreadContract(g, limit, results) && |g.direct| <= limit
    ensures |results| <= limit
  {
  }

  /** Heads, one result per id, final scores, score order. */
  method FollowPhase(list: ResultList, notes: Table, zMode: bool, root: real -> real, epsilon: real,
                     adjust: SearchResult -> real)
    requires ValidTable(notes) && epsilon > 0.0
    modifies list
    ensures list.items == Ranked(notes, old(list.items), zMode, root, epsilon, adjust)
    ensures DistinctResultIds(list.items) && IdsFollow(notes, old(list.items), list.items)
  {
    hide Sort, FirstById, ZNormalized, Followed, IdsFollow, DistinctResultIds, SameIds;
    ghost var candidates := list.items;
    FollowAllFollows(notes, list.items);
    list.FollowToHeads(notes);
    ghost var followed := list.items;
    SortByScore(list.items);
    list.SortByScore();
    FirstByIdIsDistinct(list.items);
    list.DedupeById();
    SubsetFollows(notes, candidates, followed, list.items);
    NormalizingKeepsIds(list.items, zMode, root, epsilon);
    SameIdsFollow(notes, candidates, list.items, ZNormalized(list.items, zMode, root, epsilon));
    list.NormalizeScores(zMode, root, epsilon);
    RescoringKeepsIds(list.items, adjust);
    SameIdsFollow(notes, candidates, list.items, Rescored(list.items, adjust));
    list.Rescore(adjust);
    ghost var rescored := list.items;
    SortByScore(list.items);
    list.SortByScore();
    SubsetFollows(notes, candidates, rescored, list.items);
  }

  lemma FollowAllFollows(t: Table, items: seq<SearchResult>)
    ensures IdsFollow(t, items, FollowAll(t, items))
  {
    hide Followed;
    forall r <- FollowAll(t, items) ensures exists c <- items :: Followed(t, c).id == r.id {
      var i :| 0 <= i < |items| && FollowAll(t, items)[i] == r;
      assert items[i] in items;
    }
  }

  lemma SubsetFollows(t: Table, candidates: seq<SearchResult>, a: seq<SearchResult>, b: seq<SearchResult>)
    requires IdsFollow(t, candidates, a) && forall r <- b :: r in a
    ensures IdsFollow(t, candidates, b)
  {
  }

  lemma RescoringKeepsIds(items: seq<SearchResult>, f: SearchResult -> real)
    ensures SameIds(items, Rescored(items, f))
  {
  }

  ghost predicate SameIds(a: seq<SearchResult>, b: seq<SearchResult>) {
    |a| == |b| && forall i | 0 <= i < |a| :: a[i].id == b[i].id
  }

  lemma NormalizingKeepsIds(items: seq<SearchResult>, zMode: bool, root: real -> real, epsilon: real)
    requires epsilon > 0.0
    ensures SameIds(items, ZNormalized(items, zMode, root, epsilon))
  {
  }

  lemma SameIdsFollow(t: Table, candidates: seq<SearchResult>, a: seq<SearchResult>, b: seq<SearchResult>)
    requires SameIds(a, b) && IdsFollow(t, candidates, a)
    ensures IdsFollow(t, candidates, b)
    ensures DistinctResultIds(a) ==> DistinctResultIds(b)
  {
    forall r <- b ensures exists c <- candidates :: Followed(t, c).id == r.id {
      var i :| 0 <= i < |b| && b[i] == r;
      assert a[i] in a;
    }
  }
}
