/** Which results survive topic dedup and the category cap: `postprocess.rs` as specifications. */
module Postprocess {
  import opened Common
  import opened Text
  import opened Sorting
  import opened Results

  // ---- dedup by id ----

  /** First occurrence of every id. */
  function FirstById(items: seq<SearchResult>): set<nat> {
    set i: nat | i < |items| && forall j: nat | j < i :: items[j].id != items[i].id
  }

  // ---- dedup by topic ----

  /** An empty topic key is no topic. */
  function TopicOf(r: SearchResult): Option<string> {
    if r.topicKey == Some("") then None else r.topicKey
  }

  predicate IsExactHit(r: SearchResult) {
    r.channel == Some("exact")
  }

  /** The exact channel wins; otherwise the later timestamp does. */
  predicate Outranks(a: SearchResult, b: SearchResult) {
    if IsExactHit(a) != IsExactHit(b) then IsExactHit(a)
    else StrLt(b.createdAt.GetOr(""), a.createdAt.GetOr(""))
  }

  lemma OutranksIsWeakOrder(a: SearchResult, b: SearchResult, c: SearchResult)
    ensures Outranks(a, b) ==> !Outranks(b, a)
    ensures !Outranks(a, b) && !Outranks(b, c) ==> !Outranks(a, c)
  {
    var ta, tb, tc := a.createdAt.GetOr(""), b.createdAt.GetOr(""), c.createdAt.GetOr("");
    StrLtTotal(ta, tb);
    StrLtTotal(tb, tc);
    StrLtTotal(ta, tc);
    if StrLt(ta, tb) && StrLt(tb, tc) { StrLtTransitive(ta, tb, tc); }
  }

  /** Position `i` holds its topic against position `j`: better, or as good and earlier. */
  predicate Beats(items: seq<SearchResult>, i: nat, j: nat)
    requires i < |items| && j < |items|
  {
    !Outranks(items[j], items[i]) && (Outranks(items[i], items[j]) || i < j)
  }

  predicate SurvivesAmong(items: seq<SearchResult>, n: nat, i: nat)
    requires i < n <= |items|
  {
    TopicOf(items[i]).None? || forall j: nat | j < n && j != i && TopicOf(items[j]) == TopicOf(items[i]) ::
        Beats(items, i, j)
  }

  function TopicSurvivors(items: seq<SearchResult>): set<nat> {
    set i: nat | i < |items| && SurvivesAmong(items, |items|, i)
  }

  function TopicDeduped(items: seq<SearchResult>): seq<SearchResult> {
    Sort(Retain(items, TopicSurvivors(items)), BY_SCORE)
  }

  function TopicsOf(items: seq<SearchResult>): set<string> {
    set r <- items | TopicOf(r).Some? :: TopicOf(r).value
  }

  predicate OnePerTopic(items: seq<SearchResult>) {
    forall i, j | 0 <= i < j < |items| && TopicOf(items[i]).Some? :: TopicOf(items[i]) != TopicOf(items[j])
  }

  predicate TopicsApart(a: SearchResult, b: SearchResult) {
    TopicOf(a).None? || TopicOf(a) != TopicOf(b)
  }

  const OTHER_TOPIC: (SearchResult, SearchResult) -> bool := (a: SearchResult, b: SearchResult) => TopicsApart(a, b)

  lemma OnePerTopicSorts(items: seq<SearchResult>)
    requires OnePerTopic(items)
    ensures OnePerTopic(Sort(items, BY_SCORE))
  {
    SortPairwise(items, BY_SCORE, OTHER_TOPIC);
    var t := Sort(items, BY_SCORE);
    assert forall i, j | 0 <= i < j < |t| :: OTHER_TOPIC(t[i], t[j]);
  }

  lemma SurvivorsAreOnePerTopic(items: seq<SearchResult>)
    ensures OnePerTopic(Retain(items, TopicSurvivors(items)))
  {
  }

  /** The best position of a topic among the first `n`. */
  lemma {:induction false} BestExists(items: seq<SearchResult>, n: nat, topic: string) returns (best: nat)
    requires n <= |items| && exists i: nat :: i < n && TopicOf(items[i]) == Some(topic)
    ensures best < n && TopicOf(items[best]) == Some(topic) && SurvivesAmong(items, n, best)
  {
    if exists i: nat :: i < n - 1 && TopicOf(items[i]) == Some(topic) {
      best := BestExists(items, n - 1, topic);
      if TopicOf(items[n - 1]) == Some(topic) {
        best := Challenge(items, n - 1, best);
      }
    } else {
      best := n - 1;
    }
  }

  /** A later position takes over a topic exactly when it outranks the holder. */
  lemma Challenge(items: seq<SearchResult>, n: nat, holder: nat) returns (best: nat)
    requires holder < n < |items| && TopicOf(items[holder]).Some?
    requires TopicOf(items[n]) == TopicOf(items[holder]) && SurvivesAmong(items, n, holder)
    ensures best == if Outranks(items[n], items[holder]) then n else holder
    ensures SurvivesAmong(items, n + 1, best)
  {
    best := if Outranks(items[n], items[holder]) then n else holder;
    forall j: nat | j < n + 1 && j != best && TopicOf(items[j]) == TopicOf(items[best])
      ensures Beats(items, best, j)
    {
      OutranksIsWeakOrder(items[n], items[j], items[holder]);
      OutranksIsWeakOrder(items[n], items[holder], items[holder]);
      if best == n && j != holder {
        assert Beats(items, holder, j);
      }
    }
  }

  /** No result of its topic outranks the one at `i`, and those it ties with stand behind it. */
  predicate Wins(items: seq<SearchResult>, i: nat)
    requires i < |items|
  {
    forall j: nat | j < |items| && TopicOf(items[j]) == TopicOf(items[i]) ::
      !Outranks(items[j], items[i]) && (!Outranks(items[i], items[j]) ==> i <= j)
  }

  /**
   * One survivor per topic: the best result of that topic, the earliest of equally good ones. Topic-free results all
   * survive, and the output is sorted by score.
   */
  lemma TopicDedupIsExact(items: seq<SearchResult>)
    ensures Descending(TopicDeduped(items)) && OnePerTopic(TopicDeduped(items))
    ensures forall r <- TopicDeduped(items) :: r in items
    ensures forall r <- items | TopicOf(r).None? :: r in TopicDeduped(items)
    ensures forall r <- items | TopicOf(r).Some? ::
              exists i: nat | i < |items| :: TopicOf(items[i]) == TopicOf(r) && Wins(items, i)
                  && items[i] in TopicDeduped(items)
    ensures TopicsOf(TopicDeduped(items)) == TopicsOf(items)
  {
    var keep := TopicSurvivors(items);
    var kept := Retain(items, keep);
    SortByScore(kept);
    SurvivorsAreOnePerTopic(items);
    OnePerTopicSorts(kept);
    forall r <- items
      ensures TopicOf(r).None? ==> r in TopicDeduped(items)
      ensures TopicOf(r).Some? ==>
                exists i: nat | i < |items| :: TopicOf(items[i]) == TopicOf(r) && Wins(items, i)
                    && items[i] in TopicDeduped(items)
    {
      var i: nat :| i < |items| && items[i] == r;
      var best := i;
      if TopicOf(r).Some? {
        best := BestExists(items, |items|, TopicOf(r).value);
        SurvivorWins(items, best);
      }
      assert best in keep;
      KeptAt(items, keep, best);
      assert items[best] in TopicDeduped(items);
    }
  }

  lemma SurvivorWins(items: seq<SearchResult>, i: nat)
    requires i < |items| && TopicOf(items[i]).Some? && SurvivesAmong(items, |items|, i)
    ensures Wins(items, i)
  {
    OutranksIsWeakOrder(items[i], items[i], items[i]);
    forall j: nat | j < |items| && TopicOf(items[j]) == TopicOf(items[i])
      ensures !Outranks(items[j], items[i]) && (!Outranks(items[i], items[j]) ==> i <= j)
    {
      assert j == i || Beats(items, i, j);
    }
  }

  lemma KeptAt<T>(items: seq<T>, keep: set<nat>, i: nat)
    requires i < |items| && i in keep
    ensures items[i] in Retain(items, keep)
  {
    var ix := Indices(|items|, keep);
    assert i in ix;
    var k :| 0 <= k < |ix| && ix[k] == i;
    assert Retain(items, keep)[k] == items[i];
  }

  /** A second application changes nothing. */
  lemma TopicDedupIdempotent(items: seq<SearchResult>)
    ensures TopicDeduped(TopicDeduped(items)) == TopicDeduped(items)
  {
    var once := TopicDeduped(items);
    TopicDedupIsExact(items);
    forall i: nat | i < |once| ensures i in TopicSurvivors(once) {
      assert SurvivesAmong(once, |once|, i);
    }
    RetainAll(once, TopicSurvivors(once));
    SortByScore(once);
  }

  // ---- the category cap ----

  function CategoryOf(r: SearchResult): string {
    r.category.GetOr(r.layer)
  }

  /** `(total * ratio).floor().max(2.0)`. */
  function CapFor(total: nat, ratio: real): nat {
    var floor := (total as real * ratio).Floor;
    if floor > 2 then floor else 2
  }

  predicate CapApplies(items: seq<SearchResult>, ratio: real) {
    |items| > 2 && ratio < 1.0 && exists i: nat, j: nat | i < |items| && j < |items| ::
        CategoryOf(items[i]) != CategoryOf(items[j])
  }

  function InCategory(items: seq<SearchResult>, c: string): set<nat> {
    set i: nat | i < |items| && CategoryOf(items[i]) == c
  }

  /** Ahead of `i` within its category: a higher score, or the same score earlier in the list. */
  function AheadOf(items: seq<SearchResult>, i: nat): set<nat>
    requires i < |items|
  {
    set j: nat | j < |items| && CategoryOf(items[j]) == CategoryOf(items[i])
                 && (items[j].score > items[i].score || (items[j].score == items[i].score && j < i))
  }

  function WithinCap(items: seq<SearchResult>, cap: nat): set<nat> {
    set i: nat | i < |items| && |AheadOf(items, i)| < cap
  }

  function Diversified(items: seq<SearchResult>, ratio: real): seq<SearchResult> {
    if CapApplies(items, ratio) then Retain(items, WithinCap(items, CapFor(|items|, ratio))) else items
  }

  /** A category's positions, best first: descending score, ties in list order. */
  ghost predicate Ranking(items: seq<SearchResult>, c: string, order: seq<nat>) {
    && (forall i :: i in order <==> i in InCategory(items, c))
    && (forall p, q | 0 <= p < q < |order| ::
          order[p] < |items| && order[q] < |items| && order[p] != order[q] && order[p] in AheadOf(items, order[q]))
  }

  lemma {:induction false} SizeOfPrefix(s: seq<nat>, p: nat)
    requires p <= |s| && forall i, j | 0 <= i < j < p :: s[i] != s[j]
    ensures |set q | 0 <= q < p :: s[q]| == p
  {
    var image := set q | 0 <= q < p :: s[q];
    if p == 0 {
      assert image == {};
    } else {
      SizeOfPrefix(s, p - 1);
      var smaller := set q | 0 <= q < p - 1 :: s[q];
      assert image == smaller + {s[p - 1]};
      assert s[p - 1] !in smaller;
    }
  }

  /** The position in the ranking is the number of results ahead. */
  lemma RankIsPosition(items: seq<SearchResult>, c: string, order: seq<nat>, p: nat)
    requires Ranking(items, c, order) && p < |order|
    ensures order[p] < |items| && |AheadOf(items, order[p])| == p
  {
    assert order[p] in order;
    var before := set q | 0 <= q < p :: order[q];
    SizeOfPrefix(order, p);
    forall j ensures j in AheadOf(items, order[p]) <==> j in before {
      if j in AheadOf(items, order[p]) {
        assert j in InCategory(items, c);
        var q :| 0 <= q < |order| && order[q] == j;
      }
      if j in before {
        var q :| 0 <= q < p && order[q] == j;
      }
    }
    assert AheadOf(items, order[p]) == before;
  }

  /** Each category keeps exactly min(its count, cap), and nothing dropped scores above anything kept. */
  lemma CapIsTight(items: seq<SearchResult>, c: string, order: seq<nat>, cap: nat)
    requires Ranking(items, c, order)
    ensures |WithinCap(items, cap) * InCategory(items, c)| ==
            if |InCategory(items, c)| < cap then |InCategory(items, c)| else cap
    ensures forall d, k | d in InCategory(items, c) - WithinCap(items, cap)
                          && k in InCategory(items, c) * WithinCap(items, cap) ::
              items[d].score <= items[k].score
  {
    var all := InCategory(items, c);
    var kept := WithinCap(items, cap) * all;
    SizeOfPrefix(order, |order|);
    assert all == set q | 0 <= q < |order| :: order[q] by {
      forall i ensures i in all <==> i in (set q | 0 <= q < |order| :: order[q]) { assert i in all <==> i in order; }
    }
    var n := if |all| < cap then |all| else cap;
    SizeOfPrefix(order, n);
    forall i ensures i in kept <==> i in (set q | 0 <= q < n :: order[q]) {
      if i in all {
        var q :| 0 <= q < |order| && order[q] == i;
        RankIsPosition(items, c, order, q);
      }
    }
    assert kept == set q | 0 <= q < n :: order[q];
    forall d, k | d in all - WithinCap(items, cap) && k in all * WithinCap(items, cap)
      ensures items[d].score <= items[k].score
    {
      var p :| 0 <= p < |order| && order[p] == d;
      var q :| 0 <= q < |order| && order[q] == k;
      RankIsPosition(items, c, order, p);
      RankIsPosition(items, c, order, q);
      assert order[q] in AheadOf(items, order[p]);
    }
  }

  /** Positions of a category in list order. */
  function Positions(items: seq<SearchResult>, n: nat, c: string): (r: seq<nat>)
    requires n <= |items|
    ensures forall k | 0 <= k < |r| :: r[k] < n && CategoryOf(items[r[k]]) == c
    ensures forall i: nat | i < n && CategoryOf(items[i]) == c :: i in r
    ensures forall j, k | 0 <= j < k < |r| :: r[j] < r[k]
  {
    if n == 0 then []
    else if CategoryOf(items[n - 1]) == c then Positions(items, n - 1, c) + [n - 1]
    else Positions(items, n - 1, c)
  }

  function ScoreAt(items: seq<SearchResult>, i: nat): real {
    if i < |items| then items[i].score else 0.0
  }

  function IndexOrder(items: seq<SearchResult>): (nat, nat) -> bool {
    (a: nat, b: nat) => ScoreAt(items, a) > ScoreAt(items, b)
  }

  function Earlier(): (nat, nat) -> bool {
    (a: nat, b: nat) => a < b
  }

  function RankedPositions(items: seq<SearchResult>, c: string): seq<nat> {
    Sort(Positions(items, |items|, c), IndexOrder(items))
  }

  lemma PrecedesIsAhead(items: seq<SearchResult>, c: string, a: nat, b: nat)
    requires a in InCategory(items, c) && b in InCategory(items, c)
    requires MayPrecede<nat>(a, b, IndexOrder(items), Earlier())
    ensures a != b && a in AheadOf(items, b)
  {
    var lt, tie := IndexOrder(items), Earlier();
    assert !lt(b, a) && (lt(a, b) || tie(a, b));
  }

  lemma IndexOrderIsStrict(items: seq<SearchResult>)
    ensures StrictOrder(IndexOrder(items))
  {
  }

  lemma PositionsAreCategory(items: seq<SearchResult>, c: string)
    ensures forall i :: i in Positions(items, |items|, c) <==> i in InCategory(items, c)
    ensures TieOrdered(Positions(items, |items|, c), Earlier())
  {
  }

  lemma SortedPositionsRank(items: seq<SearchResult>, c: string)
    ensures Ranking(items, c, RankedPositions(items, c))
  {
    var ps := Positions(items, |items|, c);
    IndexOrderIsStrict(items);
    PositionsAreCategory(items, c);
    SortStable(ps, IndexOrder(items), Earlier());
    MembersOfSort(ps, IndexOrder(items));
    hide Positions, InCategory, AheadOf, MayPrecede, IndexOrder, Earlier, Sort;
    var order := RankedPositions(items, c);
    forall p, q | 0 <= p < q < |order|
      ensures order[p] < |items| && order[q] < |items| && order[p] != order[q] && order[p] in AheadOf(items, order[q])
    {
      assert order[p] in order && order[q] in order;
      InCategoryIsBelow(items, c, order[p]);
      InCategoryIsBelow(items, c, order[q]);
      PrecedesIsAhead(items, c, order[p], order[q]);
    }
  }

  lemma InCategoryIsBelow(items: seq<SearchResult>, c: string, i: nat)
    requires i in InCategory(items, c)
    ensures i < |items|
  {
  }

  /** The cap, category by category, for every list and ratio it applies to. */
  lemma DiversityIsTight(items: seq<SearchResult>, ratio: real, c: string)
    requires CapApplies(items, ratio)
    ensures var cap, all := CapFor(|items|, ratio), InCategory(items, c);
            var within := WithinCap(items, cap);
            && Diversified(items, ratio) == Retain(items, within)
            && |within * all| == (if |all| < cap then |all| else cap)
            && forall d, k | d in all - within && k in all * within :: items[d].score <= items[k].score
  {
    SortedPositionsRank(items, c);
    CapIsTight(items, c, RankedPositions(items, c), CapFor(|items|, ratio));
  }

  lemma DiversifiedKeepsOrder(items: seq<SearchResult>, ratio: real)
    requires Descending(items) && DistinctResultIds(items) && OnePerTopic(items)
    ensures var d := Diversified(items, ratio);
            Descending(d) && DistinctResultIds(d) && OnePerTopic(d) && |d| <= |items| && forall r <- d :: r in items
  {
  }
}
